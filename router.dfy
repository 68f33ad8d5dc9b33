/**
 The broadcast helper: send a message to every other member of a room that is
 registered and whose socket is open. It reads the two tables and changes
 neither; the sends it makes are its result.
 */
module Router {
  import opened Messages
  import opened Registry

  /** Walks the members of `roomId` and sends `m` to each one that is not
      `senderId` and is reachable; an absent room yields no sends. */
  method Broadcast(clients: Clients, rooms: Rooms, roomId: RoomId, senderId: ClientId, m: Outbound)
    returns (sends: seq<Send>)
    ensures multiset(sends) == Fanout(Targets(clients, rooms, roomId, senderId), m)
  {
    sends := [];
    if roomId !in rooms {
      return;
    }
    var room := rooms[roomId];
    var pending := room;
    while pending != {}
      invariant pending <= room
      invariant multiset(sends)
             == Fanout((set t | t in room - pending && t != senderId && Reachable(clients, t)), m)
      decreases pending
    {
      var id :| id in pending;
      ghost var done := set t | t in room - pending && t != senderId && Reachable(clients, t);
      if id != senderId && id in clients && clients[id].open {
        FanoutAdd(done, id, m);
        assert (set t | t in room - (pending - {id}) && t != senderId && Reachable(clients, t)) == done + {id};
        sends := sends + [Send(id, m)];
      } else {
        assert (set t | t in room - (pending - {id}) && t != senderId && Reachable(clients, t)) == done;
      }
      pending := pending - {id};
    }
    assert room - pending == room;
  }
}
