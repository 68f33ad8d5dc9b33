/**
 The vocabulary of the signaling relay: client and room identifiers, the
 control messages a client sends in, the messages the relay sends out, and
 the transport handle the connection table stores for each client.
 */
module Messages {

  /** A client identifier, generated by the relay when a connection opens. */
  type ClientId = string

  /** A room identifier, supplied by clients and used as a key as it is. */
  type RoomId = string

  /** The `payload` field of a signaling message: opaque, forwarded verbatim. */
  type Payload = string

  /** An inbound frame after parsing: either an object with the fields
      `type`, `roomId` and `payload`, or a frame that did not parse. */
  datatype Inbound =
    | Message(kind: string, roomId: RoomId, payload: Payload)
    | Malformed

  /** An outbound message; `from` is always set by the relay. */
  datatype Outbound =
    | UserJoined(from: ClientId)
    | UserLeft(from: ClientId)
    | Signal(kind: string, from: ClientId, payload: Payload)

  /** One call of `send` on the socket of client `to`. */
  datatype Send = Send(to: ClientId, msg: Outbound)

  /** A transport handle, reduced to whether its ready state is OPEN. */
  datatype Handle = Handle(open: bool)

  /** The message types that are relayed to the other members of a room. */
  predicate IsSignalKind(kind: string) {
    kind == "offer" || kind == "answer" || kind == "candidate"
  }
}
