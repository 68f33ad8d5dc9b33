/**
 A client of the relay that plays two peers meeting in a room, exchanging an
 offer and leaving, and derives from the handlers' contracts alone who
 receives what at each step.
 */
module Scenarios {
  import opened Messages
  import opened Registry
  import opened Server

  /** A multiset with exactly one element comes from a one-element sequence. */
  lemma SingleSend(sends: seq<Send>, s: Send)
    requires multiset(sends) == multiset{s}
    ensures sends == [s]
  {
  }

  /** An empty multiset comes from the empty sequence. */
  lemma NoSends(sends: seq<Send>, m: Outbound)
    requires multiset(sends) == Fanout({}, m)
    ensures sends == []
  {
    assert |multiset(sends)| == 0;
  }

  /** Connects "x" and "y"; "x" joins "r1", which notifies nobody. */
  method FirstJoin() returns (relay: SignalingServer, out: seq<Send>)
    ensures fresh(relay) && relay.Valid()
    ensures out == []
    ensures relay.clients == map["x" := Handle(true), "y" := Handle(true)]
    ensures relay.rooms == map["r1" := {"x"}]
  {
    relay := new SignalingServer();
    relay.Connect("x");
    relay.Connect("y");
    out := relay.HandleMessage("x", Message("join", "r1", ""));
    assert Targets(relay.clients, relay.rooms, "r1", "x") == {};
    NoSends(out, UserJoined("x"));
  }

  /** Then "y" joins: only "x" is told, and "y" hears nothing of its own join. */
  method SecondJoin() returns (relay: SignalingServer, out: seq<Send>)
    ensures fresh(relay) && relay.Valid()
    ensures out == [Send("x", UserJoined("y"))]
    ensures relay.clients == map["x" := Handle(true), "y" := Handle(true)]
    ensures relay.rooms == map["r1" := {"x", "y"}]
  {
    relay, out := FirstJoin();
    out := relay.HandleMessage("y", Message("join", "r1", ""));
    assert relay.rooms["r1"] == {"x", "y"};
    assert Targets(relay.clients, relay.rooms, "r1", "y") == {"x"};
    assert Fanout({"x"}, UserJoined("y")) == multiset{Send("x", UserJoined("y"))};
    SingleSend(out, Send("x", UserJoined("y")));
  }

  /** An offer from "x" reaches "y" once with its payload; a malformed frame
      from "y" changes nothing and reaches nobody. */
  method Exchange() returns (relay: SignalingServer, offer: seq<Send>, bad: seq<Send>)
    ensures fresh(relay) && relay.Valid()
    ensures offer == [Send("y", Signal("offer", "x", "sdp"))]
    ensures bad == []
    ensures relay.clients == map["x" := Handle(true), "y" := Handle(true)]
    ensures relay.rooms == map["r1" := {"x", "y"}]
  {
    var joined;
    relay, joined := SecondJoin();
    offer := relay.HandleMessage("x", Message("offer", "r1", "sdp"));
    assert Targets(relay.clients, relay.rooms, "r1", "x") == {"y"};
    assert Fanout({"y"}, Signal("offer", "x", "sdp")) == multiset{Send("y", Signal("offer", "x", "sdp"))};
    SingleSend(offer, Send("y", Signal("offer", "x", "sdp")));
    bad := relay.HandleMessage("y", Malformed);
  }

  /** The room table once "x" has left a room it shared with "y". */
  lemma XLeaves()
    ensures AffectedRooms(map["r1" := {"x", "y"}], "x") == {"r1"}
    ensures LeaveRooms(map["r1" := {"x", "y"}], "x") == map["r1" := {"y"}]
  {
    var rooms: Rooms := map["r1" := {"x", "y"}];
    assert "y" in rooms["r1"] && "y" !in {"x"};
    assert rooms["r1"] - {"x"} == {"y"};
    var left := LeaveRooms(rooms, "x");
    assert left.Keys == {"r1"};
  }

  /** "x" disconnects: "y" is told, and the room keeps only "y". */
  method FirstLeaves() returns (relay: SignalingServer, out: seq<Send>)
    ensures fresh(relay) && relay.Valid()
    ensures out == [Send("y", UserLeft("x"))]
    ensures relay.clients == map["y" := Handle(true)]
    ensures relay.rooms == map["r1" := {"y"}]
  {
    var offer, bad;
    relay, offer, bad := Exchange();
    out := relay.Close("x");
    XLeaves();
    assert relay.clients == map["y" := Handle(true)];
    LeaveNoticesPick(relay.clients, relay.rooms, "x", {"r1"}, "r1");
    assert Targets(relay.clients, relay.rooms, "r1", "x") == {"y"};
    assert Fanout({"y"}, UserLeft("x")) == multiset{Send("y", UserLeft("x"))};
    SingleSend(out, Send("y", UserLeft("x")));
  }

  /** When "y" disconnects too, nobody is told and the room is gone. */
  method LastLeaves() returns (relay: SignalingServer, out: seq<Send>)
    ensures fresh(relay) && relay.Valid()
    ensures relay.clients == map[] && relay.rooms == map[]
    ensures out == []
  {
    var left;
    relay, left := FirstLeaves();
    out := relay.Close("y");
    assert AffectedRooms(map["r1" := {"y"}], "y") == {"r1"};
    assert relay.rooms == map[];
    LeaveNoticesPick(relay.clients, relay.rooms, "y", {"r1"}, "r1");
    NoSends(out, UserLeft("y"));
  }
}
