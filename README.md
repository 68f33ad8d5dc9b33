# Signaling relay: room registry and message router

This project models the core of a WebRTC signaling relay written in
JavaScript. Peers connect over WebSocket, join named rooms and exchange
connection-negotiation messages (`offer`, `answer`, `candidate`) with the
other members of their rooms. The relay keeps two tables:

- the connection table `clients`, from client id to socket;
- the room table `rooms`, from room id to the set of member ids.

Three event handlers change those tables, and a broadcast helper fans a
message out to a room. Every handler runs to completion before the next
event starts.

The model is split into five modules:

- `Messages` (messages.dfy): identifiers, the parsed inbound frame
  (`Message(kind, roomId, payload)` or `Malformed`), the outbound messages
  (`user-joined`, `user-left`, relayed signals), one `Send` per call of a
  socket's `send`, and a socket `Handle` reduced to its OPEN flag.
- `Registry` (registry.dfy): the two tables as values, and the functions
  that say what each handler does to them:
  - `JoinRooms`: add a client to a room, creating the room if needed;
  - `LeaveRooms`: remove a client from every room and delete the rooms it
    empties;
  - `Targets`: whom a broadcast reaches;
  - `Fanout`: one send per target;
  - `LeaveNotices`: all the `user-left` sends of a disconnect.

  The lemmas about these functions live here too.
- `Router` (router.dfy): `Broadcast`, a loop over a room's member set that
  reads both tables and changes neither.
- `Server` (server.dfy): the class `SignalingServer` with fields `clients`
  and `rooms`, the object invariant `Valid()`, and the handlers. Each handler
  returns the sends it made:
  - `Connect`: a new connection;
  - `HandleMessage`: the `message` handler's switch;
  - `Close`: the `close` handler's loop over the room table, which deletes
    members and rooms while it iterates;
  - `ReadyStateChanged`: the transport moving a socket into or out of OPEN.
- `Scenarios` (scenarios.dfy): a client that plays two peers meeting,
  exchanging an offer and leaving. It derives each step's sends from the
  handlers' contracts alone.

`Valid()` says two things: no room is empty, and every room member is
registered. The constructor establishes it, and every handler preserves it.
The sends of a handler are specified as a multiset. JavaScript iterates a
`Set` or `Map` in insertion order, but the model's loops pick elements in an
arbitrary order, and nothing in the relay depends on that order.
`LeaveNotices` is a ghost function that sums one `Fanout` per affected room.
`LeaveNoticesPick` proves the sum does not depend on which room is taken
first.

The model follows the code as written:

- The code checks no required fields. A frame whose `type` is missing falls
  into the `default` branch. A frame whose `roomId` is missing uses
  JavaScript's `undefined` as one more map key. In the model room ids are
  strings; `undefined` would behave as one more distinct key, and every
  lemma is stated for an arbitrary key.
- The close handler deletes the client from `clients` first. It then visits
  each room, deletes the client from it, broadcasts `user-left`, and finally
  deletes the room if it is empty. So a `user-left` is addressed to the
  room's remaining members. Those members are looked up in a connection
  table that no longer holds the departing client.
- The code does not catch an exception from `send` separately for each
  target.

## Model

| member | source | states |
|---|---|---|
| Registry.JoinRooms | server.js:32-33 | after a join the room exists and contains the joiner; its other members are those it had (none if it was absent); no other room changes |
| Registry.JoinIdempotent | server.js:32-33 | re-joining a room one already belongs to leaves the room table exactly as it was (set semantics) |
| Registry.JoinAll | server.js:32-33 | a run of joins into one room changes no other room: every other room keeps its presence and its members |
| Registry.JoinAllMembers | server.js:32-33 | after a run of joins into one room, its membership is its earlier members plus the joiners, each once |
| Registry.JoinPreservesInvariants | server.js:32-33 | a join by a registered client keeps every room non-empty and every member registered |
| Registry.LeaveRooms | server.js:66-74 | after a disconnect the client is in no room; a room is deleted exactly when the client was its only member; every other room only loses the client |
| Registry.LeaveSome | server.js:66-74 | the room table part-way through the close loop: rooms not yet visited are unchanged |
| Registry.LeaveSomeStep | server.js:67-72 | visiting one room deletes the client from it, then deletes the room if that emptied it; nothing else changes |
| Registry.LeaveSomeNone | server.js:66 | before the loop has visited a room, the table is unchanged |
| Registry.LeaveSomeAll | server.js:66-74 | once the loop has visited every room, the table is the one LeaveRooms describes |
| Registry.LeavePreservesInvariants | server.js:64-74 | after a disconnect no empty room survives, and every remaining member is still registered in the reduced connection table |
| Registry.LeaveIdempotent | server.js:64-74 | a second disconnect of the same client changes nothing more |
| Registry.JoinThenLeave | server.js:32-74 | for a client in no room, joining and then disconnecting restores the room table when all rooms are non-empty |
| Registry.Targets | server.js:84-95 | broadcast targets exclude the sender, are members of the room, are registered with an open socket, and include every such member; an absent room has none |
| Registry.Fanout | server.js:88-93 | each target receives the message exactly once, and nothing else is sent |
| Registry.FanoutAdd | server.js:88-93 | one more eligible member adds exactly one send |
| Registry.JoinDoesNotChangeOwnTargets | server.js:32-40 | the joiner is excluded, so the user-joined targets are the same whether taken before or after the join |
| Registry.JoinAloneIsSilent | server.js:32-40 | joining a room that holds nobody else notifies nobody |
| Registry.LeaveTargetsSettled | server.js:67-72 | a room's user-left targets, taken just after the client was deleted from it, equal those in the final room table |
| Registry.LeaveNotices | server.js:66-73 | the user-left sends of a disconnect, one broadcast per room the client was in: every one is user-left from the departing client and none is addressed to it |
| Registry.LeaveNoticesPick | server.js:66-74 | the user-left notices of a disconnect do not depend on the order in which the rooms are visited |
| Registry.LeaveNoticesStep | server.js:67-72 | visiting a room that held the client adds exactly that room's user-left broadcast to the notices |
| Registry.LeaveNoticesSound | server.js:66-73 | every notice is user-left from the departing client, never sent to that client, and sent to a reachable member of a room the client was in |
| Registry.SharedRoomsSplit | server.js:66-67 | removing one room from those visited lowers a client's count of shared rooms by one exactly when it is a target there |
| Registry.LeaveNoticesCount | server.js:66-73 | a client receives one user-left from the departing client for each room in which it is a target |
| Router.Broadcast | server.js:84-96 | the sends are exactly one message to each member other than the sender that is registered and open; an absent room yields none; neither table can change |
| Server.SignalingServer.constructor | server.js:15-16 | the relay starts with empty connection and room tables |
| Server.SignalingServer.Connect | server.js:20-21 | a fresh id is registered with an open socket; rooms are unchanged |
| Server.SignalingServer.ReadyStateChanged | server.js:91 | only the open flag of one registered socket changes |
| Server.SignalingServer.HandleMessage | server.js:25-60 | join updates the room, then sends user-joined from the joiner to the room's other open members; offer/answer/candidate are relayed with type and payload unchanged, and the tables stay as they were; other types and unparsable frames change nothing and send nothing |
| Server.SignalingServer.Close | server.js:63-76 | the client leaves the connection table and every room; emptied rooms are deleted; the sends are the user-left broadcasts of the rooms it was in, taken in the updated tables; the invariant is kept |
| Scenarios.FirstJoin | server.js:32-40 | the first joiner of an empty room makes no sends at all, and the room then holds only it |
| Scenarios.SecondJoin | server.js:32-40 | the second joiner's join makes exactly one send: user-joined from it to the first peer, nothing to itself |
| Scenarios.Exchange | server.js:43-58 | an offer makes exactly one send, to the other peer, with type, sender and payload as given; a malformed frame then makes no send and leaves both tables as they were |
| Scenarios.XLeaves | server.js:66-74 | when one of two peers leaves, the room keeps the other |
| Scenarios.FirstLeaves | server.js:63-76 | the first peer's disconnect makes exactly one send, user-left from it to the remaining peer; the room keeps only that peer |
| Scenarios.LastLeaves | server.js:63-76 | the last peer's disconnect makes no send, and leaves both tables empty: the room is gone |

## Left out

- The HTTP server, its health-check reply, `server.listen` and the `PORT`
  default (server.js:6-9, 99-103): process hosting and I/O.
- The `ws` library. A socket is reduced to its OPEN flag, and `send` to an
  element of the returned sequence. `ReadyStateChanged` stands for the
  library changing a socket's ready state.
- `JSON.parse` and `JSON.stringify`. Any frame that fails to parse or to
  destructure is the `Malformed` case. A frame that parses to a value without
  the three fields is a `Message` whose kind matches no case.
- Field values that are not strings. The model takes `type`, `roomId` and
  `payload` to be strings. Object-valued room ids, which a JavaScript `Map`
  compares by identity, are not modelled.
- Client id generation with `Math.random` (server.js:20): randomness. `Connect`
  takes the id as a parameter and requires it to be fresh. This excludes an
  id collision: an 8-character random id can repeat, `clients.set`
  (server.js:21) then overwrites the earlier socket, and the earlier
  connection's close later deletes the newcomer's entry (server.js:64).
- The `error` handler and all `console` logging (server.js:78-80 and
  elsewhere): they only log.
- An exception thrown by `send` part-way through a broadcast. The model's
  `send` never fails.
- A liveness monitor and validation of missing fields: the code has neither.
- Router.Broadcast: the contract fixes the multiset of sends, not their
  order, which in JavaScript follows the room set's insertion order.
- Server.SignalingServer.Close: the contract fixes the multiset of sends,
  not their order, which in JavaScript follows the room table's insertion
  order.
- Server.SignalingServer.HandleMessage: the contract fixes the multiset of
  sends, not their order.
