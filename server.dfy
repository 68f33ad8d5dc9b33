/**
 The relay's two mutable tables and the handlers that change them: a new
 connection, an inbound message, and a closed connection. Each handler runs
 to completion before the next event, and returns the sends it made.
 */
module Server {
  import opened Messages
  import opened Registry
  import Router

  class SignalingServer {
    /** Connection table: client id to socket. */
    var clients: Clients
    /** Room table: room id to the set of member client ids. */
    var rooms: Rooms

    /** Every room is non-empty and holds only registered clients. */
    ghost predicate Valid()
      reads this
    {
      NoEmptyRoom(rooms) && MembersRegistered(clients, rooms)
    }

    /** The relay starts with no connections and no rooms. */
    constructor ()
      ensures Valid()
      ensures clients == map[] && rooms == map[]
    {
      clients := map[];
      rooms := map[];
    }

    /** A new connection registers its socket, open, under a fresh id. */
    method Connect(id: ClientId)
      requires Valid()
      requires id !in clients
      modifies this
      ensures Valid()
      ensures clients == old(clients)[id := Handle(true)]
      ensures rooms == old(rooms)
    {
      clients := clients[id := Handle(true)];
    }

    /** The transport changes the ready state of a registered socket; only the
        open flag of that one handle changes. The WebSocket library only ever
        moves a socket out of OPEN (CLOSING and CLOSED are final); this method
        also allows the reverse, so it covers more transitions than the
        library makes. */
    method ReadyStateChanged(id: ClientId, open: bool)
      requires Valid()
      requires id in clients
      modifies this
      ensures Valid()
      ensures clients == old(clients)[id := Handle(open)]
      ensures rooms == old(rooms)
    {
      clients := clients[id := Handle(open)];
    }

    /** One inbound message from the connected client `clientId`. A join
        updates the room first and then notifies the room; a signaling message
        is relayed unchanged; anything else is dropped. */
    method HandleMessage(clientId: ClientId, msg: Inbound) returns (sends: seq<Send>)
      requires Valid()
      requires clientId in clients
      modifies this
      ensures Valid()
      ensures clients == old(clients)
      ensures msg.Malformed? ==> rooms == old(rooms) && sends == []
      ensures msg.Message? && msg.kind == "join" ==>
        && rooms == JoinRooms(old(rooms), msg.roomId, clientId)
        && multiset(sends) == Fanout(Targets(clients, rooms, msg.roomId, clientId), UserJoined(clientId))
      ensures msg.Message? && IsSignalKind(msg.kind) ==>
        && rooms == old(rooms)
        && multiset(sends) == Fanout(Targets(clients, rooms, msg.roomId, clientId), Signal(msg.kind, clientId, msg.payload))
      ensures msg.Message? && msg.kind != "join" && !IsSignalKind(msg.kind) ==>
        rooms == old(rooms) && sends == []
    {
      sends := [];
      match msg
      case Malformed =>
      case Message(kind, roomId, payload) =>
        if kind == "join" {
          if roomId !in rooms {
            rooms := rooms[roomId := {}];
          }
          rooms := rooms[roomId := rooms[roomId] + {clientId}];
          JoinPreservesInvariants(clients, old(rooms), roomId, clientId);
          sends := Router.Broadcast(clients, rooms, roomId, clientId, UserJoined(clientId));
        } else if kind == "offer" || kind == "answer" || kind == "candidate" {
          sends := Router.Broadcast(clients, rooms, roomId, clientId, Signal(kind, clientId, payload));
        }
    }

    /** The connection of `clientId` closed: it is removed from the connection
        table, then from each room it was in; every such room is told
        `user-left`, and a room left empty is deleted. */
    method Close(clientId: ClientId) returns (sends: seq<Send>)
      requires Valid()
      modifies this
      ensures Valid()
      ensures clients == old(clients) - {clientId}
      ensures rooms == LeaveRooms(old(rooms), clientId)
      ensures multiset(sends) == LeaveNotices(clients, rooms, clientId, AffectedRooms(old(rooms), clientId))
    {
      clients := clients - {clientId};
      sends := [];
      ghost var start := rooms;
      ghost var affected := AffectedRooms(start, clientId);
      var pending := rooms.Keys;
      ghost var done: set<RoomId> := {};
      LeaveSomeNone(start, clientId);
      while pending != {}
        invariant pending !! done && pending + done == start.Keys
        invariant clients == old(clients) - {clientId}
        invariant rooms == LeaveSome(start, clientId, done)
        invariant multiset(sends) == LeaveNotices(clients, LeaveRooms(start, clientId), clientId, affected * done)
        decreases pending
      {
        var roomId :| roomId in pending;
        LeaveSomeStep(start, clientId, done, roomId);
        var members := rooms[roomId];
        if clientId in members {
          members := members - {clientId};
          rooms := rooms[roomId := members];
          var out := Router.Broadcast(clients, rooms, roomId, clientId, UserLeft(clientId));
          LeaveNoticesStep(clients, start, rooms, clientId, done, roomId);
          sends := sends + out;
          if |members| == 0 {
            rooms := rooms - {roomId};
          }
        } else {
          assert affected * (done + {roomId}) == affected * done;
        }
        pending := pending - {roomId};
        done := done + {roomId};
      }
      LeaveSomeAll(start, clientId, done);
      assert affected * done == affected;
      LeavePreservesInvariants(old(clients), start, clientId);
    }
  }
}
