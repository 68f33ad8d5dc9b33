/**
 The two tables of the relay as values, and the functions that say what each
 handler does to them: joining a room, leaving every room on disconnect, and
 which clients a broadcast reaches. The class in module Server is proved
 against these functions; the lemmas here state what the functions promise.
 */
module Registry {
  import opened Messages

  /** Connection table: client id to transport handle. */
  type Clients = map<ClientId, Handle>

  /** Room table: room id to the set of member client ids. */
  type Rooms = map<RoomId, set<ClientId>>

  /** The members of room `r`; an absent room has none. */
  function Members(rooms: Rooms, r: RoomId): (ms: set<ClientId>)
    ensures r in rooms ==> ms == rooms[r]
    ensures r !in rooms ==> ms == {}
  {
    if r in rooms then rooms[r] else {}
  }

  /** A client that is registered and whose socket is open. */
  predicate Reachable(clients: Clients, id: ClientId) {
    id in clients && clients[id].open
  }

  /** No room with empty membership is kept. */
  ghost predicate NoEmptyRoom(rooms: Rooms) {
    forall r :: r in rooms ==> rooms[r] != {}
  }

  /** Every member of every room is registered. */
  ghost predicate MembersRegistered(clients: Clients, rooms: Rooms) {
    forall r, id :: r in rooms && id in rooms[r] ==> id in clients
  }

  // ---------------------------------------------------------------------------
  // join

  /** The room table after `c` joins `r`: the room is created when absent and
      `c` is added to its set. */
  function JoinRooms(rooms: Rooms, r: RoomId, c: ClientId): (rooms': Rooms)
    ensures rooms'.Keys == rooms.Keys + {r}
    ensures c in rooms'[r] && rooms'[r] - {c} == Members(rooms, r) - {c}
    ensures forall q :: q in rooms && q != r ==> rooms'[q] == rooms[q]
  {
    var room := if r in rooms then rooms[r] else {};
    rooms[r := room + {c}]
  }

  /** Re-joining a room one is already in leaves the table as it was. */
  lemma JoinIdempotent(rooms: Rooms, r: RoomId, c: ClientId)
    requires r in rooms && c in rooms[r]
    ensures JoinRooms(rooms, r, c) == rooms
  {
    assert rooms[r] + {c} == rooms[r];
  }

  /** Successive joins of `r` by the clients `cs`, in order; they touch no
      other room. */
  function JoinAll(rooms: Rooms, r: RoomId, cs: seq<ClientId>): (rooms': Rooms)
    ensures forall q :: q != r ==> (q in rooms' <==> q in rooms)
    ensures forall q :: q in rooms && q != r ==> rooms'[q] == rooms[q]
    decreases |cs|
  {
    if cs == [] then rooms else JoinAll(JoinRooms(rooms, r, cs[0]), r, cs[1..])
  }

  /** After a run of joins the room holds exactly its earlier members and the
      joiners, each once. */
  lemma {:induction false} JoinAllMembers(rooms: Rooms, r: RoomId, cs: seq<ClientId>)
    requires cs != []
    ensures r in JoinAll(rooms, r, cs)
    ensures JoinAll(rooms, r, cs)[r] == Members(rooms, r) + set i | 0 <= i < |cs| :: cs[i]
    decreases |cs|
  {
    var next := JoinRooms(rooms, r, cs[0]);
    assert next[r] == Members(rooms, r) + {cs[0]};
    if |cs| == 1 {
      assert (set i | 0 <= i < |cs| :: cs[i]) == {cs[0]};
    } else {
      JoinAllMembers(next, r, cs[1..]);
      var all := set i | 0 <= i < |cs| :: cs[i];
      var rest := set i | 0 <= i < |cs[1..]| :: cs[1..][i];
      forall x | x in all ensures x in {cs[0]} + rest {
        var i :| 0 <= i < |cs| && cs[i] == x;
        if i > 0 { assert cs[1..][i - 1] == x; }
      }
      assert all == {cs[0]} + rest;
    }
  }

  // ---------------------------------------------------------------------------
  // disconnect

  /** The room table after `c` disconnects: `c` is deleted from every room,
      and a room that held it and is left empty is deleted. */
  function LeaveRooms(rooms: Rooms, c: ClientId): (rooms': Rooms)
    ensures forall r :: r in rooms' <==> r in rooms && rooms[r] != {c}
    ensures forall r :: r in rooms' ==> rooms'[r] == rooms[r] - {c}
    ensures forall r :: r in rooms' ==> c !in rooms'[r]
  {
    map r | r in rooms && !(c in rooms[r] && rooms[r] - {c} == {})
      :: if c in rooms[r] then rooms[r] - {c} else rooms[r]
  }

  /** The room table part-way through a disconnect: the rooms in `done` have
      been visited, the others are as they were. */
  function LeaveSome(rooms: Rooms, c: ClientId, done: set<RoomId>): (rooms': Rooms)
    ensures rooms'.Keys <= rooms.Keys
    ensures forall r :: r in rooms && r !in done ==> r in rooms' && rooms'[r] == rooms[r]
  {
    map r | r in rooms && !(r in done && c in rooms[r] && rooms[r] - {c} == {})
      :: if r in done && c in rooms[r] then rooms[r] - {c} else rooms[r]
  }

  /** Visiting one more room does what the body of the disconnect loop does
      to it: delete `c`, then delete the room if that emptied it. */
  lemma LeaveSomeStep(rooms: Rooms, c: ClientId, done: set<RoomId>, r: RoomId)
    requires r in rooms && r !in done
    ensures var now := LeaveSome(rooms, c, done);
      LeaveSome(rooms, c, done + {r})
        == if c !in now[r] then now
           else if now[r] - {c} == {} then now[r := now[r] - {c}] - {r}
           else now[r := now[r] - {c}]
  {
  }

  /** Once every room has been visited the table is that of LeaveRooms. */
  lemma LeaveSomeAll(rooms: Rooms, c: ClientId, done: set<RoomId>)
    requires rooms.Keys <= done
    ensures LeaveSome(rooms, c, done) == LeaveRooms(rooms, c)
  {
  }

  /** Before any room has been visited the table is unchanged. */
  lemma LeaveSomeNone(rooms: Rooms, c: ClientId)
    ensures LeaveSome(rooms, c, {}) == rooms
  {
  }

  /** The rooms `c` was a member of: those that receive a `user-left`. */
  function AffectedRooms(rooms: Rooms, c: ClientId): set<RoomId> {
    set r | r in rooms && c in rooms[r]
  }

  /** A disconnect never leaves an empty room behind, and it keeps every
      remaining member registered once `c` is gone from the connection table. */
  lemma LeavePreservesInvariants(clients: Clients, rooms: Rooms, c: ClientId)
    requires NoEmptyRoom(rooms) && MembersRegistered(clients, rooms)
    ensures NoEmptyRoom(LeaveRooms(rooms, c))
    ensures MembersRegistered(clients - {c}, LeaveRooms(rooms, c))
  {
  }

  /** A join keeps both invariants when the joiner is registered. */
  lemma JoinPreservesInvariants(clients: Clients, rooms: Rooms, r: RoomId, c: ClientId)
    requires NoEmptyRoom(rooms) && MembersRegistered(clients, rooms)
    requires c in clients
    ensures NoEmptyRoom(JoinRooms(rooms, r, c))
    ensures MembersRegistered(clients, JoinRooms(rooms, r, c))
  {
  }

  /** Disconnecting twice is the same as disconnecting once. */
  lemma LeaveIdempotent(rooms: Rooms, c: ClientId)
    ensures LeaveRooms(LeaveRooms(rooms, c), c) == LeaveRooms(rooms, c)
  {
  }

  /** Joining a room and then disconnecting restores the room table, for a
      client that was in no room, when every room is non-empty. */
  lemma JoinThenLeave(rooms: Rooms, r: RoomId, c: ClientId)
    requires NoEmptyRoom(rooms)
    requires forall q :: q in rooms ==> c !in rooms[q]
    ensures LeaveRooms(JoinRooms(rooms, r, c), c) == rooms
  {
  }

  // ---------------------------------------------------------------------------
  // broadcast

  /** The clients a broadcast into `r` by `sender` reaches: members other than
      the sender that are registered and open. */
  function Targets(clients: Clients, rooms: Rooms, r: RoomId, sender: ClientId): (ts: set<ClientId>)
    ensures sender !in ts
    ensures ts <= Members(rooms, r)
    ensures r !in rooms ==> ts == {}
    ensures forall t :: t in Members(rooms, r) && t != sender && Reachable(clients, t) ==> t in ts
    ensures forall t :: t in ts ==> Reachable(clients, t)
  {
    set t | t in Members(rooms, r) && t != sender && Reachable(clients, t)
  }

  /** One send of `m` to each client in `ts`, as a multiset. */
  function Fanout(ts: set<ClientId>, m: Outbound): (fs: multiset<Send>)
    ensures forall s :: fs[s] == if s.msg == m && s.to in ts then 1 else 0
  {
    multiset(set t | t in ts :: Send(t, m))
  }

  /** Adding one more target adds exactly one send. */
  lemma FanoutAdd(ts: set<ClientId>, id: ClientId, m: Outbound)
    requires id !in ts
    ensures Fanout(ts + {id}, m) == Fanout(ts, m) + multiset{Send(id, m)}
  {
  }

  /** Since the sender is excluded, it makes no difference to a join's
      notification whether its targets are taken before or after the join. */
  lemma JoinDoesNotChangeOwnTargets(clients: Clients, rooms: Rooms, r: RoomId, c: ClientId)
    ensures Targets(clients, JoinRooms(rooms, r, c), r, c) == Targets(clients, rooms, r, c)
  {
  }

  /** Joining a room that holds nobody else notifies nobody. */
  lemma JoinAloneIsSilent(clients: Clients, rooms: Rooms, r: RoomId, c: ClientId)
    requires Members(rooms, r) <= {c}
    ensures Targets(clients, JoinRooms(rooms, r, c), r, c) == {}
  {
  }

  /** A room's `user-left` targets are the same whether taken just after `c`
      was deleted from it or once the whole disconnect is complete. */
  lemma LeaveTargetsSettled(clients: Clients, rooms: Rooms, now: Rooms, c: ClientId, r: RoomId)
    requires r in rooms && r in now && now[r] == rooms[r] - {c}
    ensures Targets(clients, now, r, c) == Targets(clients, LeaveRooms(rooms, c), r, c)
  {
  }

  // ---------------------------------------------------------------------------
  // the user-left notices of a disconnect

  /** All `user-left` sends for the rooms `rs`, each room's targets taken in
      `rooms` with `c` as the excluded sender. */
  ghost function LeaveNotices(clients: Clients, rooms: Rooms, c: ClientId, rs: set<RoomId>): (notices: multiset<Send>)
    ensures forall s :: notices[s] > 0 ==> s.msg == UserLeft(c) && s.to != c
    decreases rs
  {
    if rs == {} then multiset{}
    else
      var r :| r in rs;
      LeaveNotices(clients, rooms, c, rs - {r}) + Fanout(Targets(clients, rooms, r, c), UserLeft(c))
  }

  /** The notices do not depend on the order of the rooms: any room can be
      taken out first. */
  lemma {:induction false} LeaveNoticesPick(clients: Clients, rooms: Rooms, c: ClientId, rs: set<RoomId>, r: RoomId)
    requires r in rs
    ensures LeaveNotices(clients, rooms, c, rs)
         == LeaveNotices(clients, rooms, c, rs - {r}) + Fanout(Targets(clients, rooms, r, c), UserLeft(c))
    decreases rs
  {
    var q :| q in rs && LeaveNotices(clients, rooms, c, rs)
      == LeaveNotices(clients, rooms, c, rs - {q}) + Fanout(Targets(clients, rooms, q, c), UserLeft(c));
    if q != r {
      LeaveNoticesPick(clients, rooms, c, rs - {q}, r);
      LeaveNoticesPick(clients, rooms, c, rs - {r}, q);
      assert rs - {q} - {r} == rs - {r} - {q};
    }
  }

  /** Every notice is a `user-left` from `c`, never addressed to `c`, and goes
      to a reachable member of one of the rooms. */
  lemma {:induction false} LeaveNoticesSound(clients: Clients, rooms: Rooms, c: ClientId, rs: set<RoomId>, s: Send)
    requires s in LeaveNotices(clients, rooms, c, rs)
    ensures s.msg == UserLeft(c) && s.to != c && Reachable(clients, s.to)
    ensures exists r :: r in rs && r in rooms && s.to in rooms[r]
    decreases rs
  {
    var r :| r in rs;
    LeaveNoticesPick(clients, rooms, c, rs, r);
    var f := Fanout(Targets(clients, rooms, r, c), UserLeft(c));
    if s in f {
      assert f[s] == 1;
    } else {
      LeaveNoticesSound(clients, rooms, c, rs - {r}, s);
    }
  }

  /** The rooms of `rs` in which `t` is a `user-left` target. */
  function SharedRooms(clients: Clients, rooms: Rooms, c: ClientId, rs: set<RoomId>, t: ClientId): set<RoomId> {
    set r | r in rs && t in Targets(clients, rooms, r, c)
  }

  /** Taking one room out of `rs` takes it out of the shared rooms too. */
  lemma SharedRoomsSplit(clients: Clients, rooms: Rooms, c: ClientId, rs: set<RoomId>, r: RoomId, t: ClientId)
    requires r in rs
    ensures |SharedRooms(clients, rooms, c, rs, t)|
         == |SharedRooms(clients, rooms, c, rs - {r}, t)| + if t in Targets(clients, rooms, r, c) then 1 else 0
  {
    var before, after := SharedRooms(clients, rooms, c, rs - {r}, t), SharedRooms(clients, rooms, c, rs, t);
    if t in Targets(clients, rooms, r, c) {
      assert after == before + {r};
    } else {
      assert after == before;
    }
  }

  /** A client receives one `user-left` from `c` for each of the rooms in
      which it is a target. */
  lemma {:induction false} LeaveNoticesCount(clients: Clients, rooms: Rooms, c: ClientId, rs: set<RoomId>, t: ClientId)
    ensures LeaveNotices(clients, rooms, c, rs)[Send(t, UserLeft(c))] == |SharedRooms(clients, rooms, c, rs, t)|
    decreases rs
  {
    if rs == {} {
      assert SharedRooms(clients, rooms, c, rs, t) == {};
    } else {
      var r :| r in rs;
      LeaveNoticesPick(clients, rooms, c, rs, r);
      LeaveNoticesCount(clients, rooms, c, rs - {r}, t);
      SharedRoomsSplit(clients, rooms, c, rs, r, t);
    }
  }

  /** Visiting a room that held `c` adds that room's `user-left` broadcast,
      taken just after `c` was deleted from it, to the notices so far. */
  lemma LeaveNoticesStep(clients: Clients, rooms: Rooms, now: Rooms, c: ClientId, done: set<RoomId>, r: RoomId)
    requires r in rooms && r !in done && c in rooms[r]
    requires r in now && now[r] == rooms[r] - {c}
    ensures var left, affected := LeaveRooms(rooms, c), AffectedRooms(rooms, c);
      LeaveNotices(clients, left, c, affected * (done + {r}))
        == LeaveNotices(clients, left, c, affected * done) + Fanout(Targets(clients, now, r, c), UserLeft(c))
  {
    var left, affected := LeaveRooms(rooms, c), AffectedRooms(rooms, c);
    LeaveTargetsSettled(clients, rooms, now, c, r);
    LeaveNoticesPick(clients, left, c, affected * (done + {r}), r);
    assert affected * (done + {r}) - {r} == affected * done;
  }
}
