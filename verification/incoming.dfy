/** The incoming listener's handshake (`TCPIncomingConnectionHelper`): the
    priority a handshake task gets, and what the task does with the first
    message of a freshly accepted connection. The socket, the task pool and
    the registry are outside the model: what arrived, the registry's answer
    and its cached peer list are parameters. */
module Incoming {
  import opened Wrappers
  import opened Protocol

  /** Priority of a task in the handshake pool. */
  datatype Priority = Low | Normal

  /** The handshake task's priority: lowered when the registry reports the
      incoming connections full, since such a handshake is likely refused. */
  function HandshakePriority(incomingFull: bool): (p: Priority)
    ensures p == Low <==> incomingFull
    ensures p == Normal <==> !incomingFull
  {
    if incomingFull then Low else Normal
  }

  /** What the first wait on the connection yielded: nothing within the
      handshake timeout, input the parser rejected (with its message), or a
      parsed message, which the parser may also report as absent (`None`). */
  datatype Reception = Timeout | ParseFailed(msg: string) | Parsed(m: Option<Message>)

  /** The reason code a refusal carries for a registry result: -1 is the
      connection limit, -2 a peer already connected; any other code leaves
      the reason unset. */
  function RefusalReasonOf(registry: int): (r: Option<RefusalReason>)
    ensures r == Some(LimitReached) <==> registry == -1
    ensures r == Some(AlreadyExist) <==> registry == -2
    ensures r == None <==> registry != -1 && registry != -2
  {
    if registry == -1 then Some(LimitReached)
    else if registry == -2 then Some(AlreadyExist)
    else None
  }

  /** The abort reason for a first message that is not a handshake request. */
  function UnexpectedReason(m: Option<Message>): string {
    "Expected HandashakeRequest but got: " + (if m.None? then "null" else ClassName(m.value))
  }

  /** `handleHandshake`: `registry` is what `addConnection` answers for the
      requesting peer, `cached` the registry's cached peer list, `self` this
      node's advertised address. A handshake request the registry admits is
      answered with this node's handshake response and the connection
      becomes active; one it rejects is answered with a refusal carrying the
      cached peers and then closed with reconnect allowed (the no-argument
      `close()`); anything else aborts. */
  function HandleHandshake(rx: Reception, registry: int, cached: seq<HostPort>, self: HostPort): (effects: seq<Effect>)
    ensures Settles(effects)
    ensures forall hp :: Activate(hp) in effects <==>
      rx == Parsed(Some(HandshakeRequest(hp))) && registry == 0
    ensures (exists hp :: rx == Parsed(Some(HandshakeRequest(hp)))) ==>
      if registry == 0 then effects == [Send(HandshakeResponse(self)), Activate(rx.m.value.peer)]
      else effects == [Send(ConnectionRefused(RefusalReasonOf(registry), cached)), Close(Some(true))]
    ensures (forall hp :: rx != Parsed(Some(HandshakeRequest(hp)))) ==>
      |effects| == 1 && effects[0].Abort?
  {
    match rx
    case Timeout => [Abort("No handshake until timeout")]
    case ParseFailed(msg) => [Abort(msg)]
    case Parsed(m) =>
      if m.Some? && m.value.HandshakeRequest? then
        var hp := m.value.peer;
        if registry == 0 then [Send(HandshakeResponse(self)), Activate(hp)]
        else [Send(ConnectionRefused(RefusalReasonOf(registry), cached)), Close(Some(true))]
      else [Abort(UnexpectedReason(m))]
  }

  /** Exactly one refusal is sent, and only when a handshake request is
      rejected by the registry. */
  lemma RefusalIffRejected(rx: Reception, registry: int, cached: seq<HostPort>, self: HostPort)
    ensures var effects := HandleHandshake(rx, registry, cached, self);
      var refusals := set i | 0 <= i < |effects| && effects[i].Send? && effects[i].m.ConnectionRefused?;
      && |refusals| <= 1
      && (|refusals| == 1 <==> rx.Parsed? && rx.m.Some? && rx.m.value.HandshakeRequest? && registry != 0)
  {
    var effects := HandleHandshake(rx, registry, cached, self);
    var refusals := set i | 0 <= i < |effects| && effects[i].Send? && effects[i].m.ConnectionRefused?;
    if rx.Parsed? && rx.m.Some? && rx.m.value.HandshakeRequest? && registry != 0 {
      assert refusals == {0};
    } else {
      assert refusals == {};
    }
  }

  /** The abort reasons: a timeout and a parse failure give their own
      message, anything other than a handshake request names what came. */
  lemma AbortReasons(rx: Reception, registry: int, cached: seq<HostPort>, self: HostPort)
    ensures var effects := HandleHandshake(rx, registry, cached, self);
      && (rx.Timeout? ==> effects == [Abort("No handshake until timeout")])
      && (rx.ParseFailed? ==> effects == [Abort(rx.msg)])
      && (rx == Parsed(None) ==> effects == [Abort("Expected HandashakeRequest but got: null")])
      && (rx.Parsed? && rx.m.Some? && !rx.m.value.HandshakeRequest? ==>
            effects == [Abort("Expected HandashakeRequest but got: " + ClassName(rx.m.value))])
  {
    assert "Expected HandashakeRequest but got: " + "null" == "Expected HandashakeRequest but got: null";
  }
}
