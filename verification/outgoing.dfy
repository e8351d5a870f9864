/** The outgoing connector (`OutgoingConnectionHelper`): a queue of peers to
    dial, ordered by the time each becomes eligible. One step of its loop
    dials the earliest eligible peer and reacts to what the handshake
    yielded. Sockets, sleeping and the registry are outside the model: the
    connect attempt, the handshake reply and the registry's answer are
    parameters, and so is the clock. */
module Outgoing {
  import opened Wrappers
  import opened Protocol

  /** How long the loop sleeps when no peer is eligible yet (milliseconds). */
  const CHECK_INTERVAL: int := 10000
  /** How far a peer whose connect failed is pushed back (milliseconds). */
  const PENALTY_TIME: int := 5000

  /** A peer waiting to be dialled no earlier than `time` (`PeerInfo`). */
  datatype PeerInfo = PeerInfo(peer: HostPort, time: int)

  /** The queue is ordered by eligibility time. */
  ghost predicate Sorted(q: seq<PeerInfo>) {
    forall i, j :: 0 <= i < j < |q| ==> q[i].time <= q[j].time
  }

  /** `queue.add(e)`: `e` goes after every entry eligible no later than it,
      so entries with equal times are dialled in the order they were added. */
  function Insert(q: seq<PeerInfo>, e: PeerInfo): (r: seq<PeerInfo>)
    ensures |r| == |q| + 1
    ensures multiset(r) == multiset(q) + multiset{e}
  {
    if q == [] || e.time < q[0].time then [e] + q
    else
      assert q == [q[0]] + q[1..];
      [q[0]] + Insert(q[1..], e)
  }

  lemma {:induction false} InsertSorted(q: seq<PeerInfo>, e: PeerInfo)
    requires Sorted(q)
    ensures Sorted(Insert(q, e))
  {
    if q != [] && e.time >= q[0].time {
      var rest := Insert(q[1..], e);
      InsertSorted(q[1..], e);
      forall x | x in rest
        ensures q[0].time <= x.time
      {
        assert x in multiset(rest);
        assert x in multiset(q[1..]) || x == e;
      }
    }
  }

  /** An entry no earlier than everything queued is appended at the end. */
  lemma {:induction false} InsertLatest(q: seq<PeerInfo>, e: PeerInfo)
    requires forall i :: 0 <= i < |q| ==> q[i].time <= e.time
    ensures Insert(q, e) == q + [e]
  {
    if q != [] {
      InsertLatest(q[1..], e);
      assert q == [q[0]] + q[1..];
    }
  }

  /** Fresh entries for `peers`, all eligible at `t`. */
  function Stamp(peers: seq<HostPort>, t: int): (r: seq<PeerInfo>)
    ensures |r| == |peers|
    ensures forall i :: 0 <= i < |r| ==> r[i] == PeerInfo(peers[i], t)
  {
    if peers == [] then [] else [PeerInfo(peers[0], t)] + Stamp(peers[1..], t)
  }

  /** Add every peer of `peers` to the queue, eligible at `now`. */
  function EnqueueAll(q: seq<PeerInfo>, peers: seq<HostPort>, now: int): (r: seq<PeerInfo>)
    ensures |r| == |q| + |peers|
    ensures multiset(r) == multiset(q) + multiset(Stamp(peers, now))
    decreases |peers|
  {
    if peers == [] then q
    else
      assert Stamp(peers, now) == [PeerInfo(peers[0], now)] + Stamp(peers[1..], now);
      EnqueueAll(Insert(q, PeerInfo(peers[0], now)), peers[1..], now)
  }

  lemma {:induction false} EnqueueAllSorted(q: seq<PeerInfo>, peers: seq<HostPort>, now: int)
    requires Sorted(q)
    ensures Sorted(EnqueueAll(q, peers, now))
    decreases |peers|
  {
    if peers != [] {
      InsertSorted(q, PeerInfo(peers[0], now));
      EnqueueAllSorted(Insert(q, PeerInfo(peers[0], now)), peers[1..], now);
    }
  }

  /** The configured peer strings that are not empty, in order. */
  function NonEmpty(peers: seq<string>): (r: seq<string>)
    ensures forall x :: x in r <==> x in peers && x != ""
  {
    if peers == [] then []
    else
      var init := peers[..|peers| - 1];
      var last := peers[|peers| - 1];
      assert peers == init + [last];
      if last == "" then NonEmpty(init) else NonEmpty(init) + [last]
  }

  /** Appending one string to the configuration appends it to the filtered
      peers exactly when it is not empty. */
  lemma NonEmptySnoc(s: seq<string>, x: string)
    ensures NonEmpty(s + [x]) == NonEmpty(s) + (if x == "" then [] else [x])
  {
    var t := s + [x];
    assert t[..|t| - 1] == s && t[|t| - 1] == x;
  }

  /** Every non-empty configured string is kept as many times as it is
      configured, duplicates included; the empty string never is. */
  lemma {:induction false} NonEmptyCounts(peers: seq<string>)
    ensures multiset(NonEmpty(peers)) == multiset(peers)["" := 0]
    decreases |peers|
  {
    if peers != [] {
      var init, x := peers[..|peers| - 1], peers[|peers| - 1];
      assert peers == init + [x];
      NonEmptyCounts(init);
      NonEmptySnoc(init, x);
    }
  }

  /** The filter keeps configuration order: filtering a concatenation
      concatenates the filtered parts. */
  lemma {:induction false} NonEmptyKeepsOrder(a: seq<string>, b: seq<string>)
    ensures NonEmpty(a + b) == NonEmpty(a) + NonEmpty(b)
    decreases |b|
  {
    if b == [] {
      assert a + b == a;
    } else {
      var init, x := b[..|b| - 1], b[|b| - 1];
      var kept: seq<string> := if x == "" then [] else [x];
      assert b == init + [x];
      assert a + b == (a + init) + [x];
      calc {
        NonEmpty(a + b);
        NonEmpty((a + init) + [x]);
        { NonEmptySnoc(a + init, x); }
        NonEmpty(a + init) + kept;
        { NonEmptyKeepsOrder(a, init); }
        (NonEmpty(a) + NonEmpty(init)) + kept;
        NonEmpty(a) + (NonEmpty(init) + kept);
        { NonEmptySnoc(init, x); }
        NonEmpty(a) + NonEmpty(b);
      }
    }
  }

  /** The constructor's queue: one entry per non-empty configured peer, in
      configuration order, all eligible at `now`. Turning a `host:port`
      string into a `HostPort` is the parameter `parse`. */
  method InitialQueue(peers: seq<string>, parse: string -> HostPort, now: int) returns (q: seq<PeerInfo>)
    ensures |q| == |NonEmpty(peers)|
    ensures forall i :: 0 <= i < |q| ==> q[i] == PeerInfo(parse(NonEmpty(peers)[i]), now)
    ensures Sorted(q)
  {
    q := [];
    for i := 0 to |peers|
      invariant |q| == |NonEmpty(peers[..i])|
      invariant forall k :: 0 <= k < |q| ==> q[k] == PeerInfo(parse(NonEmpty(peers[..i])[k]), now)
    {
      assert peers[..i + 1] == peers[..i] + [peers[i]];
      NonEmptySnoc(peers[..i], peers[i]);
      if peers[i] != "" {
        InsertLatest(q, PeerInfo(parse(peers[i]), now));
        q := Insert(q, PeerInfo(parse(peers[i]), now));
      }
    }
    assert peers[..|peers|] == peers;
  }

  /** What came back on a connection after the handshake request was sent:
      nothing within the handshake timeout, something that failed to parse
      (with the parser's message), or a message. `registry` is what
      `addConnection` answers for the replying peer (0 admits it). */
  datatype Reply = ResponseTimeout | Unparsable(msg: string) | Replied(m: Message, registry: int)

  /** The outcome of dialling the polled peer. */
  datatype Attempt = ConnectFailed | Connected(reply: Reply)

  /** `requestHandshake`'s effect on the remaining queue and the connection. */
  datatype Handled = Handled(queue: seq<PeerInfo>, effects: seq<Effect>)

  /** `requestHandshake` after the request has gone out: admit, refuse,
      close or abort the connection; a refusal's suggested peers are queued
      as immediately eligible. */
  function RequestHandshake(q: seq<PeerInfo>, now: int, reply: Reply): (r: Handled)
    ensures |r.effects| == 1 && Terminal(r.effects[0])
    ensures !(reply.Replied? && reply.m.ConnectionRefused?) ==> r.queue == q
    ensures reply.Replied? && reply.m.ConnectionRefused? ==>
      && r.effects == [Close(None)]
      && multiset(r.queue) == multiset(q) + multiset(Stamp(reply.m.peers, now))
    ensures forall hp :: r.effects[0] == Activate(hp) <==>
      reply.Replied? && reply.m == HandshakeResponse(hp) && reply.registry == 0
  {
    match reply
    case ResponseTimeout => Handled(q, [Abort("Handshake response timeout")])
    case Unparsable(msg) => Handled(q, [Abort(msg)])
    case Replied(m, registry) =>
      match m
      case HandshakeResponse(hp) =>
        if registry == 0 then Handled(q, [Activate(hp)])
        else Handled(q, [Abort("HostPort is already existed")])
      case ConnectionRefused(_, peers) => Handled(EnqueueAll(q, peers, now), [Close(None)])
      case InvalidProtocol(_) => Handled(q, [Close(None)])
      case _ => Handled(q, [Abort("Unexpected protocol: " + ClassName(m))])
  }

  /** One iteration of `execute`'s loop. */
  datatype StepResult =
    | Finished
    | Slept(queue: seq<PeerInfo>, millis: int)
    | Dialled(peer: PeerInfo, queue: seq<PeerInfo>, effects: seq<Effect>)

  /** One iteration of `execute` at time `now`: stop on an empty queue, sleep
      while the earliest entry is not yet eligible, otherwise poll it and
      dial it; a failed connect puts it back `PENALTY_TIME` later, a
      successful one sends `self` in a handshake request and handles the
      reply. */
  function Step(q: seq<PeerInfo>, now: int, self: HostPort, attempt: Attempt): (r: StepResult)
    ensures r.Finished? <==> q == []
    ensures r.Slept? <==> q != [] && q[0].time > now
    ensures r.Slept? ==> r.queue == q && r.millis == CHECK_INTERVAL
    ensures r.Dialled? ==> r.peer == q[0] && r.peer.time <= now
    ensures r.Dialled? && attempt.ConnectFailed? ==> r.effects == []
    ensures r.Dialled? && attempt.Connected? ==>
      && Settles(r.effects)
      && r.effects[0] == Send(HandshakeRequest(self))
  {
    if q == [] then Finished
    else if q[0].time > now then Slept(q, CHECK_INTERVAL)
    else
      match attempt
      case ConnectFailed =>
        Dialled(q[0], Insert(q[1..], PeerInfo(q[0].peer, now + PENALTY_TIME)), [])
      case Connected(reply) =>
        var h := RequestHandshake(q[1..], now, reply);
        Dialled(q[0], h.queue, [Send(HandshakeRequest(self))] + h.effects)
  }

  /** A dialled entry is one with the least time in the queue. */
  lemma StepDialsEarliest(q: seq<PeerInfo>, now: int, self: HostPort, attempt: Attempt)
    requires Sorted(q)
    ensures var r := Step(q, now, self, attempt);
      r.Dialled? ==> forall i :: 0 <= i < |q| ==> r.peer.time <= q[i].time
  {
  }

  /** Handling a reply keeps the rest of the queue ordered. */
  lemma RequestHandshakeSorted(q: seq<PeerInfo>, now: int, reply: Reply)
    requires Sorted(q)
    ensures Sorted(RequestHandshake(q, now, reply).queue)
  {
    if reply.Replied? && reply.m.ConnectionRefused? {
      EnqueueAllSorted(q, reply.m.peers, now);
    }
  }

  /** Every step keeps the queue ordered. */
  lemma StepSorted(q: seq<PeerInfo>, now: int, self: HostPort, attempt: Attempt)
    requires Sorted(q)
    ensures var r := Step(q, now, self, attempt);
      !r.Finished? ==> Sorted(r.queue)
  {
    if q != [] && q[0].time <= now {
      var rest := q[1..];
      assert Sorted(rest);
      match attempt
      case ConnectFailed =>
        InsertSorted(rest, PeerInfo(q[0].peer, now + PENALTY_TIME));
      case Connected(reply) =>
        RequestHandshakeSorted(rest, now, reply);
    }
  }

  /** A failed connect keeps the queue's size: the polled peer returns,
      eligible `PENALTY_TIME` after `now`. */
  lemma StepConnectFailed(q: seq<PeerInfo>, now: int, self: HostPort)
    requires q != [] && q[0].time <= now
    ensures var r := Step(q, now, self, ConnectFailed);
      && |r.queue| == |q|
      && multiset(r.queue) == multiset(q) - multiset{q[0]} + multiset{PeerInfo(q[0].peer, now + PENALTY_TIME)}
  {
    assert q == [q[0]] + q[1..];
    assert multiset(q) - multiset{q[0]} == multiset(q[1..]);
  }

  /** A refusal closes the connection and queues every suggested peer,
      eligible at once; the polled peer is not queued again. */
  lemma StepRefused(q: seq<PeerInfo>, now: int, self: HostPort,
                    reason: Option<RefusalReason>, peers: seq<HostPort>, registry: int)
    requires q != [] && q[0].time <= now
    ensures var r := Step(q, now, self, Connected(Replied(ConnectionRefused(reason, peers), registry)));
      && r.effects == [Send(HandshakeRequest(self)), Close(None)]
      && |r.queue| == |q| - 1 + |peers|
      && multiset(r.queue) == multiset(q[1..]) + multiset(Stamp(peers, now))
  {
  }

  /** A handshake response the registry admits activates the connection
      with the responding peer and drops the dialled entry for good; any
      other answer aborts. Either way the rest of the queue is untouched. */
  lemma StepResponse(q: seq<PeerInfo>, now: int, self: HostPort, hp: HostPort, registry: int)
    requires q != [] && q[0].time <= now
    ensures var r := Step(q, now, self, Connected(Replied(HandshakeResponse(hp), registry)));
      && r.queue == q[1..]
      && r.effects[1] == (if registry == 0 then Activate(hp) else Abort("HostPort is already existed"))
  {
  }

  /** Timeouts, unparsable replies, invalid-protocol replies and unexpected
      messages end the connection and leave the rest of the queue as is. */
  lemma StepOtherReplies(q: seq<PeerInfo>, now: int, self: HostPort, reply: Reply)
    requires q != [] && q[0].time <= now
    requires !(reply.Replied? && (reply.m.HandshakeResponse? || reply.m.ConnectionRefused?))
    ensures var r := Step(q, now, self, Connected(reply));
      && r.queue == q[1..]
      && r.effects[1] == match reply
           case ResponseTimeout => Abort("Handshake response timeout")
           case Unparsable(msg) => Abort(msg)
           case Replied(m, _) =>
             if m.InvalidProtocol? then Close(None) else Abort("Unexpected protocol: " + ClassName(m))
  {
  }

  /** A peer refusing with two suggestions: both are queued, eligible at
      once, behind nothing later, and the connection is closed. */
  lemma RefusalScenario(self: HostPort, a: HostPort, b: HostPort, c: HostPort)
    ensures var r := Step([PeerInfo(a, 0)], 0, self, Connected(Replied(ConnectionRefused(Some(LimitReached), [b, c]), -1)));
      && r.queue == [PeerInfo(b, 0), PeerInfo(c, 0)]
      && r.effects == [Send(HandshakeRequest(self)), Close(None)]
  {
    EnqueueTwo(b, c, 0);
    var reply := Replied(ConnectionRefused(Some(LimitReached), [b, c]), -1);
    assert RequestHandshake([], 0, reply) == Handled([PeerInfo(b, 0), PeerInfo(c, 0)], [Close(None)]);
    assert [PeerInfo(a, 0)][1..] == [];
  }

  /** Two peers enqueued at the same time into an empty queue keep their order. */
  lemma EnqueueTwo(b: HostPort, c: HostPort, t: int)
    ensures EnqueueAll([], [b, c], t) == [PeerInfo(b, t), PeerInfo(c, t)]
  {
    var b0, c0 := PeerInfo(b, t), PeerInfo(c, t);
    assert Insert([], b0) == [b0];
    assert Insert([b0], c0) == [b0, c0] by {
      assert [b0][1..] == [];
      assert Insert([], c0) == [c0];
    }
    assert [b, c][1..] == [c] && [c][1..] == [];
    assert EnqueueAll([b0, c0], [], t) == [b0, c0];
    assert EnqueueAll([b0], [c], t) == EnqueueAll([b0, c0], [], t);
    assert EnqueueAll([], [b, c], t) == EnqueueAll([b0], [c], t);
  }
}
