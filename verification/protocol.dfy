/** Peer protocol values exchanged during the handshake, and the observable
    effects a handshake has on one connection. The wire format (JSON) is
    outside the model: messages appear here already parsed. */
module Protocol {
  import opened Wrappers

  /** A peer's dial-back address; equality is by value. */
  datatype HostPort = HostPort(host: string, port: int)

  /** The reason code a refusal may carry. */
  datatype RefusalReason = LimitReached | AlreadyExist

  /** The peer messages the handshake code distinguishes. Every other
      message kind is `OtherMessage`, carrying its Java class name. */
  datatype Message =
    | HandshakeRequest(peer: HostPort)
    | HandshakeResponse(peer: HostPort)
    | ConnectionRefused(reason: Option<RefusalReason>, peers: seq<HostPort>)
    | InvalidProtocol(detail: string)
    | OtherMessage(className: string)

  /** `protocol.getClass().getName()` for a message: the message classes are
      nested in `unimelb.bitbox.protocol.Protocol`. */
  function ClassName(m: Message): string {
    match m
    case HandshakeRequest(_) => "unimelb.bitbox.protocol.Protocol$HandshakeRequest"
    case HandshakeResponse(_) => "unimelb.bitbox.protocol.Protocol$HandshakeResponse"
    case ConnectionRefused(_, _) => "unimelb.bitbox.protocol.Protocol$ConnectionRefused"
    case InvalidProtocol(_) => "unimelb.bitbox.protocol.Protocol$InvalidProtocol"
    case OtherMessage(name) => name
  }

  /** What a handshake does to its connection, in order.
      `Close(Some(b))` is `close(b)`; `Close(None)` is a no-argument `close()`
      of a connection class whose default flag is not part of this model. */
  datatype Effect =
    | Send(m: Message)
    | Activate(peer: HostPort)
    | Close(reconnect: Option<bool>)
    | Abort(reason: string)

  /** Effects after which the handshake no longer owns the connection. */
  predicate Terminal(e: Effect) {
    e.Activate? || e.Close? || e.Abort?
  }

  /** The handshake settles the connection exactly once, as its last effect. */
  predicate Settles(effects: seq<Effect>) {
    && |effects| > 0
    && Terminal(effects[|effects| - 1])
    && forall i :: 0 <= i < |effects| - 1 ==> !Terminal(effects[i])
  }
}
