/** The block-transfer bookkeeping of one file transfer (`FileLoaderWrapper`).
    The session keeps a queue of blocks not yet requested (`pending`) and, for
    every connection that offers the file, the blocks requested from it and
    not yet answered (`waiting`) with the time it was last heard from.
    The clock, the outcome of writing a block and of the final checksum
    verification are parameters; the outgoing block requests are returned. */
module FileLoader {
  import opened Blocks

  /** Most blocks requested from a connection at once. */
  const REQUEST_LIMIT: nat := 10
  /** A connection silent for longer than this (milliseconds) is evicted. */
  const TIMEOUT_IN_MILLIS: int := 20000

  /** A connection, identified by an opaque number. */
  type ConnId = nat

  /** The file descriptor carried by block messages. */
  datatype FileDes = FileDes(path: string, md5: string, fileSize: int)

  /** Per-connection bookkeeping (`ConnectionInfo`). */
  datatype ConnInfo = ConnInfo(waiting: set<Pos>, lastActive: int)

  /** Whether the owning manager still holds the session: it is removed on
      completion and on cancellation. */
  datatype Status = Active | Completed | Cancelled

  datatype Session = Session(
    file: FileDes,
    pending: seq<Pos>,
    conns: map<ConnId, ConnInfo>,
    status: Status)

  /** A `FileBytesResponse`; the block's content is left out. */
  datatype Response = Response(file: FileDes, pos: Pos)

  /** The session after an operation and the blocks it requested, in the
      order the requests were sent. */
  datatype Outcome = Outcome(session: Session, requests: seq<Pos>)

  /** What `writeFile` did: wrote the block, returned false, or threw. */
  datatype WriteOutcome = Written | WriteRefused | WriteFailed

  /** `p` has been requested from some connection and not yet answered. */
  ghost predicate InFlight(conns: map<ConnId, ConnInfo>, p: Pos) {
    exists c :: c in conns && p in conns[c].waiting
  }

  /** `p` still has to be transferred. */
  ghost predicate Tracked(s: Session, p: Pos) {
    p in s.pending || InFlight(s.conns, p)
  }

  /** No block is waited for on two connections. */
  ghost predicate WaitingDisjoint(conns: map<ConnId, ConnInfo>) {
    forall c, d :: c in conns && d in conns && c != d ==> conns[c].waiting !! conns[d].waiting
  }

  /** The session invariant relative to the original partition `blocks`:
      the pending queue and the waiting sets are pairwise disjoint and hold
      only blocks of the partition. Every block of the partition is then in
      exactly one of: the pending queue, one waiting set, `WrittenBlocks`. */
  ghost predicate Valid(s: Session, blocks: seq<Pos>) {
    && Distinct(s.pending)
    && (forall c, p :: c in s.conns && p in s.conns[c].waiting ==> p !in s.pending)
    && WaitingDisjoint(s.conns)
    && (forall p :: Tracked(s, p) ==> p in blocks)
  }

  /** No connection has more than `REQUEST_LIMIT` blocks in flight: a
      connection is filled to the limit only when it joins, and afterwards
      gets one new block per block it answers. */
  ghost predicate WithinWindow(s: Session) {
    forall c :: c in s.conns ==> |s.conns[c].waiting| <= REQUEST_LIMIT
  }

  /** The blocks of the partition already written to disk. */
  ghost function WrittenBlocks(s: Session, blocks: seq<Pos>): set<Pos> {
    set p | p in blocks && !Tracked(s, p)
  }

  /** Nothing pending and nothing waited for on any connection. */
  predicate Idle(s: Session) {
    s.pending == [] && forall c :: c in s.conns ==> s.conns[c].waiting == {}
  }

  function Cancel(s: Session): Session {
    s.(status := Cancelled)
  }

  /** `checkMd5`: whether `md5` names this session's file content. */
  function CheckMd5(s: Session, md5: string): bool {
    s.file.md5 == md5
  }

  /** `send(limit, conn)`: move up to `limit` blocks from the front of the
      pending queue into `c`'s waiting set and request them from `c`. */
  function Send(s: Session, limit: nat, c: ConnId): (r: Outcome)
    ensures c !in s.conns ==> r == Outcome(s, [])
    ensures c in s.conns ==>
      && |r.requests| == Min(limit, |s.pending|)
      && s.pending == r.requests + r.session.pending
      && r.session.conns.Keys == s.conns.Keys
      && r.session.conns[c] == s.conns[c].(waiting := s.conns[c].waiting + Elems(r.requests))
      && (forall d :: d in s.conns && d != c ==> r.session.conns[d] == s.conns[d])
      && r.session.file == s.file
      && r.session.status == s.status
  {
    if c !in s.conns then Outcome(s, [])
    else
      var k := Min(limit, |s.pending|);
      var info := s.conns[c];
      var sent := s.pending[..k];
      assert s.pending == sent + s.pending[k..];
      Outcome(
        s.(pending := s.pending[k..],
           conns := s.conns[c := info.(waiting := info.waiting + Elems(sent))]),
        sent)
  }

  /** Moving blocks from the pending queue to a waiting set keeps the
      invariant and the set of blocks still to transfer. */
  lemma SendPreservesValid(s: Session, limit: nat, c: ConnId, blocks: seq<Pos>)
    requires Valid(s, blocks)
    ensures var r := Send(s, limit, c).session;
      && Valid(r, blocks)
      && (forall p :: Tracked(r, p) <==> Tracked(s, p))
  {
    SendKeepsTracked(s, limit, c);
    if c in s.conns {
      var o := Send(s, limit, c);
      var r := o.session;
      var sent := o.requests;
      forall p | p in sent
        ensures p !in r.pending
        ensures forall d :: d in s.conns ==> p !in s.conns[d].waiting
      {
        var i :| 0 <= i < |sent| && sent[i] == p;
        assert s.pending[i] == p;
        assert p in s.pending;
        forall j | 0 <= j < |r.pending|
          ensures r.pending[j] != p
        {
          assert r.pending[j] == s.pending[|sent| + j];
        }
      }
      forall i, j | 0 <= i < j < |r.pending|
        ensures r.pending[i] != r.pending[j]
      {
        assert r.pending[i] == s.pending[|sent| + i] && r.pending[j] == s.pending[|sent| + j];
      }
      forall d, p | d in r.conns && p in r.conns[d].waiting
        ensures p !in r.pending
      {
        if p !in sent {
          assert p in s.conns[d].waiting;
          assert p !in s.pending;
        }
      }
    }
  }

  /** `send` moves blocks between the pending queue and a waiting set, so the
      blocks still to transfer are the same. */
  lemma SendKeepsTracked(s: Session, limit: nat, c: ConnId)
    ensures forall p :: Tracked(Send(s, limit, c).session, p) <==> Tracked(s, p)
  {
  }

  /** With nothing pending, `send` changes nothing and requests nothing. */
  lemma SendNothingPending(s: Session, limit: nat, c: ConnId)
    requires s.pending == []
    ensures Send(s, limit, c) == Outcome(s, [])
  {
    if c in s.conns {
      var info := s.conns[c];
      assert Elems(s.pending[..0]) == {};
      assert info.(waiting := info.waiting + {}) == info;
      assert s.conns[c := info] == s.conns;
    }
  }

  /** The constructor: partition the file, register `c` (heard from `now`)
      and request the first `REQUEST_LIMIT` blocks from it. */
  function NewSession(file: FileDes, c: ConnId, now: int, blockSize: int): (r: Outcome)
    requires blockSize > 0
    ensures var blocks := Partition(file.fileSize, blockSize);
      && |r.requests| == Min(REQUEST_LIMIT, |blocks|)
      && blocks == r.requests + r.session.pending
      && r.session.conns == map[c := ConnInfo(Elems(r.requests), now)]
      && r.session.file == file
      && r.session.status == Active
      && Valid(r.session, blocks)
      && WithinWindow(r.session)
      && (forall p :: Tracked(r.session, p) <==> p in blocks)
  {
    var blocks := Partition(file.fileSize, blockSize);
    var s := Session(file, blocks, map[c := ConnInfo({}, now)], Active);
    SendPreservesValid(s, REQUEST_LIMIT, c, blocks);
    var o := Send(s, REQUEST_LIMIT, c);
    assert o.session.conns.Keys == {c};
    assert o.session.conns[c] == ConnInfo(Elems(o.requests), now);
    assert o.session.conns == map[c := ConnInfo(Elems(o.requests), now)];
    ElemsSize(o.requests);
    o
  }

  /** `addNewConnection`: register a further connection offering the same
      file and request up to `REQUEST_LIMIT` blocks from it; a connection
      already registered changes nothing. */
  function AddConnection(s: Session, c: ConnId, now: int): (r: Outcome)
    ensures c in s.conns ==> r == Outcome(s, [])
    ensures c !in s.conns ==>
      && r.session.conns.Keys == s.conns.Keys + {c}
      && r.session.conns[c] == ConnInfo(Elems(r.requests), now)
      && |r.requests| == Min(REQUEST_LIMIT, |s.pending|)
      && s.pending == r.requests + r.session.pending
      && (forall d :: d in s.conns ==> r.session.conns[d] == s.conns[d])
      && r.session.file == s.file
      && r.session.status == s.status
  {
    if c in s.conns then Outcome(s, [])
    else Send(s.(conns := s.conns[c := ConnInfo({}, now)]), REQUEST_LIMIT, c)
  }

  /** Joining twice is joining once: the second call changes nothing and
      requests nothing. */
  lemma AddConnectionIdempotent(s: Session, c: ConnId, now: int, later: int)
    ensures var once := AddConnection(s, c, now).session;
      AddConnection(once, c, later) == Outcome(once, [])
  {
  }

  lemma AddConnectionPreservesValid(s: Session, c: ConnId, now: int, blocks: seq<Pos>)
    requires Valid(s, blocks)
    ensures var r := AddConnection(s, c, now).session;
      && Valid(r, blocks)
      && (forall p :: Tracked(r, p) <==> Tracked(s, p))
  {
    if c !in s.conns {
      var s1 := s.(conns := s.conns[c := ConnInfo({}, now)]);
      forall p ensures Tracked(s1, p) <==> Tracked(s, p) {
        if InFlight(s.conns, p) {
          var d :| d in s.conns && p in s.conns[d].waiting;
          assert p in s1.conns[d].waiting;
        }
      }
      assert Valid(s1, blocks);
      SendPreservesValid(s1, REQUEST_LIMIT, c, blocks);
    }
  }

  /** A joining connection is given at most `REQUEST_LIMIT` blocks. */
  lemma AddConnectionWithinWindow(s: Session, c: ConnId, now: int)
    requires WithinWindow(s)
    ensures WithinWindow(AddConnection(s, c, now).session)
  {
    if c !in s.conns {
      ElemsSize(AddConnection(s, c, now).requests);
    }
  }

  /** Two connections offering the same file are never asked for the same
      block: a joining connection's requests avoid every block already in
      flight elsewhere. */
  lemma JoinNoOverlap(s: Session, c: ConnId, d: ConnId, now: int, blocks: seq<Pos>)
    requires Valid(s, blocks)
    requires c in s.conns && d !in s.conns
    ensures var r := AddConnection(s, d, now).session;
      r.conns[c].waiting !! r.conns[d].waiting
  {
    AddConnectionPreservesValid(s, d, now, blocks);
  }

  /** The guards of `received`: the response is for this file and its block
      is waited for on the connection it arrived on. */
  predicate Accepts(s: Session, resp: Response, c: ConnId) {
    && resp.file.md5 == s.file.md5
    && c in s.conns
    && resp.pos in s.conns[c].waiting
  }

  /** Record that `c` was heard from at `now`. */
  function Touch(s: Session, c: ConnId, now: int): Session
    requires c in s.conns
  {
    s.(conns := s.conns[c := s.conns[c].(lastActive := now)])
  }

  /** Stop waiting for block `p` on `c`. */
  function Retire(s: Session, c: ConnId, p: Pos): Session
    requires c in s.conns
  {
    s.(conns := s.conns[c := s.conns[c].(waiting := s.conns[c].waiting - {p})])
  }

  lemma TouchPreservesValid(s: Session, c: ConnId, now: int, blocks: seq<Pos>)
    requires c in s.conns && Valid(s, blocks)
    ensures Valid(Touch(s, c, now), blocks)
    ensures forall p :: Tracked(Touch(s, c, now), p) <==> Tracked(s, p)
  {
    var t := Touch(s, c, now);
    forall p ensures Tracked(t, p) <==> Tracked(s, p) {
      if InFlight(s.conns, p) {
        var d :| d in s.conns && p in s.conns[d].waiting;
        assert p in t.conns[d].waiting;
      }
      if InFlight(t.conns, p) {
        var d :| d in t.conns && p in t.conns[d].waiting;
        assert p in s.conns[d].waiting;
      }
    }
  }

  /** Retiring a block waited for on `c` keeps the invariant and removes
      exactly that block from the blocks still to transfer. */
  lemma RetirePreservesValid(s: Session, c: ConnId, q: Pos, blocks: seq<Pos>)
    requires c in s.conns && q in s.conns[c].waiting && Valid(s, blocks)
    ensures Valid(Retire(s, c, q), blocks)
    ensures forall p :: Tracked(Retire(s, c, q), p) <==> Tracked(s, p) && p != q
  {
    var t := Retire(s, c, q);
    forall p ensures Tracked(t, p) <==> Tracked(s, p) && p != q {
      if InFlight(t.conns, p) {
        var d :| d in t.conns && p in t.conns[d].waiting;
        assert p in s.conns[d].waiting;
        if p == q {
          assert false;
        }
      }
      if p != q && InFlight(s.conns, p) {
        var d :| d in s.conns && p in s.conns[d].waiting;
        assert p in t.conns[d].waiting;
      }
    }
  }

  /** `received`: handle one block response arriving on `c` at time `now`.
      A response that is not accepted changes nothing. An accepted one marks
      `c` active; a refused write cancels the session, a failing write
      leaves the block waited for; a written block is replaced on `c` by
      the next pending block, and the file is verified once nothing is
      pending or waited for. `verifyThrows` says that `checkWriteComplete`
      threw: only then is the session cancelled, since the source discards
      whatever the check returns. */
  function Received(s: Session, resp: Response, c: ConnId, now: int,
                    write: WriteOutcome, verifyThrows: bool): (r: Outcome)
    ensures !Accepts(s, resp, c) ==> r == Outcome(s, [])
    ensures Accepts(s, resp, c) ==>
      && r.session.file == s.file
      && r.session.conns.Keys == s.conns.Keys
      && r.session.conns[c].lastActive == now
      && (forall d :: d in s.conns && d != c ==> r.session.conns[d] == s.conns[d])
    ensures Accepts(s, resp, c) && write != Written ==>
      && r.requests == []
      && r.session.pending == s.pending
      && r.session.conns[c].waiting == s.conns[c].waiting
      && r.session.status == (if write == WriteRefused then Cancelled else s.status)
    ensures Accepts(s, resp, c) && write == Written ==>
      && |r.requests| == Min(1, |s.pending|)
      && s.pending == r.requests + r.session.pending
      && r.session.conns[c].waiting == s.conns[c].waiting + Elems(r.requests) - {resp.pos}
      && r.session.status ==
           (if !Idle(r.session) then s.status else if verifyThrows then Cancelled else Completed)
  {
    if !Accepts(s, resp, c) then Outcome(s, [])
    else
      var touched := Touch(s, c, now);
      match write
      case WriteRefused => Outcome(Cancel(touched), [])
      case WriteFailed => Outcome(touched, [])
      case Written =>
        var sent := Send(touched, 1, c);
        var s3 := Retire(sent.session, c, resp.pos);
        if !Idle(s3) then Outcome(s3, sent.requests)
        else if verifyThrows then Outcome(Cancel(s3), sent.requests)
        else Outcome(s3.(status := Completed), sent.requests)
  }

  /** `checkMd5` decides the first guard of `received`: a response is
      accepted exactly when `checkMd5` admits its md5 and its block is
      waited for on its connection, and one whose md5 it rejects leaves the
      session as it was. */
  lemma CheckMd5Guards(s: Session, resp: Response, c: ConnId, now: int,
                       write: WriteOutcome, verifyThrows: bool)
    ensures Accepts(s, resp, c) <==>
      CheckMd5(s, resp.file.md5) && c in s.conns && resp.pos in s.conns[c].waiting
    ensures !CheckMd5(s, resp.file.md5) ==>
      Received(s, resp, c, now, write, verifyThrows) == Outcome(s, [])
  {
  }

  /** `received` keeps the invariant; the only block it ever retires is the
      one it wrote, which thereby joins the written blocks. */
  lemma ReceivedPreservesValid(s: Session, resp: Response, c: ConnId, now: int,
                               write: WriteOutcome, verifyThrows: bool, blocks: seq<Pos>)
    requires Valid(s, blocks)
    ensures var r := Received(s, resp, c, now, write, verifyThrows).session;
      var consumed := Accepts(s, resp, c) && write == Written;
      && Valid(r, blocks)
      && (forall p :: Tracked(r, p) <==> Tracked(s, p) && !(consumed && p == resp.pos))
  {
    var r := Received(s, resp, c, now, write, verifyThrows).session;
    var consumed := Accepts(s, resp, c) && write == Written;
    if Accepts(s, resp, c) {
      var touched := Touch(s, c, now);
      TouchPreservesValid(s, c, now, blocks);
      if write == Written {
        SendPreservesValid(touched, 1, c, blocks);
        var s2 := Send(touched, 1, c).session;
        RetirePreservesValid(s2, c, resp.pos, blocks);
        assert r.pending == Retire(s2, c, resp.pos).pending;
        assert r.conns == Retire(s2, c, resp.pos).conns;
      }
    }
  }

  /** The written blocks only grow, by the one block `received` wrote. */
  lemma ReceivedWritesOne(s: Session, resp: Response, c: ConnId, now: int,
                          write: WriteOutcome, verifyThrows: bool, blocks: seq<Pos>)
    requires Valid(s, blocks)
    ensures var r := Received(s, resp, c, now, write, verifyThrows).session;
      var consumed := Accepts(s, resp, c) && write == Written;
      WrittenBlocks(r, blocks) == WrittenBlocks(s, blocks) + (if consumed then {resp.pos} else {})
  {
    ReceivedPreservesValid(s, resp, c, now, write, verifyThrows, blocks);
    if Accepts(s, resp, c) && write == Written {
      assert Tracked(s, resp.pos);
    }
  }

  /** After a written block, `c` keeps as many blocks in flight as before
      while blocks are still pending, and one fewer once none are. */
  lemma ReceivedKeepsWindow(s: Session, resp: Response, c: ConnId, now: int,
                            verifyThrows: bool, blocks: seq<Pos>)
    requires Valid(s, blocks)
    requires Accepts(s, resp, c)
    ensures var r := Received(s, resp, c, now, Written, verifyThrows).session;
      |r.conns[c].waiting| ==
        if s.pending != [] then |s.conns[c].waiting| else |s.conns[c].waiting| - 1
  {
    var o := Received(s, resp, c, now, Written, verifyThrows);
    var w := s.conns[c].waiting;
    if s.pending != [] {
      assert |o.requests| == 1;
      var q := o.requests[0];
      assert o.requests == [q];
      assert q == s.pending[0];
      assert q in s.pending;
      assert q !in w;
      assert q != resp.pos;
      assert o.session.conns[c].waiting == (w - {resp.pos}) + {q};
    } else {
      assert o.requests == [];
      assert o.session.conns[c].waiting == w - {resp.pos};
    }
  }

  /** `received` keeps every connection within `REQUEST_LIMIT` blocks in
      flight: the one new request replaces the block just answered. */
  lemma ReceivedWithinWindow(s: Session, resp: Response, c: ConnId, now: int,
                             write: WriteOutcome, verifyThrows: bool)
    requires WithinWindow(s)
    ensures WithinWindow(Received(s, resp, c, now, write, verifyThrows).session)
  {
    var o := Received(s, resp, c, now, write, verifyThrows);
    if Accepts(s, resp, c) && write == Written {
      var w := s.conns[c].waiting;
      var e := Elems(o.requests);
      ElemsSize(o.requests);
      assert |w + e| <= |w| + |e|;
      assert resp.pos in w + e;
      assert |(w + e) - {resp.pos}| == |w + e| - 1;
      assert |o.session.conns[c].waiting| <= |w|;
    }
  }

  /** A session that completes has written every block of its partition. */
  lemma CompletionWritesAll(s: Session, resp: Response, c: ConnId, now: int,
                            verifyThrows: bool, blocks: seq<Pos>)
    requires Valid(s, blocks)
    requires s.status == Active
    requires Received(s, resp, c, now, Written, verifyThrows).session.status == Completed
    ensures forall p :: p in blocks ==> p in WrittenBlocks(Received(s, resp, c, now, Written, verifyThrows).session, blocks)
  {
  }

  /** A connection not heard from for more than `TIMEOUT_IN_MILLIS`. */
  predicate TimedOut(info: ConnInfo, now: int) {
    now - info.lastActive > TIMEOUT_IN_MILLIS
  }

  /** The connections `clean` keeps, unchanged. */
  function Survivors(conns: map<ConnId, ConnInfo>, now: int): (r: map<ConnId, ConnInfo>)
    ensures forall c :: c in r <==> c in conns && !TimedOut(conns[c], now)
    ensures forall c :: c in r ==> r[c] == conns[c]
  {
    map c | c in conns && !TimedOut(conns[c], now) :: conns[c]
  }

  /** `r` is what `clean(now)` makes of `s`: timed-out connections are
      dropped and their waiting blocks appended to the pending queue (in
      the unspecified iteration order of the source's hash map and sets,
      each once when waiting sets are disjoint); the session is cancelled
      when no connection is left. */
  ghost predicate CleanedFrom(s: Session, now: int, r: Session) {
    && r.file == s.file
    && r.conns == Survivors(s.conns, now)
    && r.status == (if r.conns == map[] then Cancelled else s.status)
    && |s.pending| <= |r.pending|
    && r.pending[..|s.pending|] == s.pending
    && (forall p :: p in r.pending[|s.pending|..] <==>
          exists c :: c in s.conns && TimedOut(s.conns[c], now) && p in s.conns[c].waiting)
    && (WaitingDisjoint(s.conns) ==> Distinct(r.pending[|s.pending|..]))
  }

  /** `pending.addAll(waiting)`: append every block of `w` once, in some order. */
  method AppendAll(pending: seq<Pos>, w: set<Pos>) returns (r: seq<Pos>)
    ensures |r| == |pending| + |w|
    ensures r[..|pending|] == pending
    ensures forall p :: p in r[|pending|..] <==> p in w
    ensures Distinct(r[|pending|..])
  {
    r := pending;
    var rest := w;
    while rest != {}
      invariant rest <= w
      invariant |pending| <= |r|
      invariant |r| - |pending| + |rest| == |w|
      invariant r[..|pending|] == pending
      invariant forall p :: p in r[|pending|..] <==> p in w - rest
      invariant Distinct(r[|pending|..])
      decreases rest
    {
      var p :| p in rest;
      var added := r[|pending|..];
      assert p !in added;
      r := r + [p];
      assert r[|pending|..] == added + [p];
      rest := rest - {p};
    }
  }

  lemma DistinctConcat(a: seq<Pos>, b: seq<Pos>)
    requires Distinct(a) && Distinct(b)
    requires forall p :: p in a ==> p !in b
    ensures Distinct(a + b)
  {
    forall i, j | 0 <= i < j < |a + b|
      ensures (a + b)[i] != (a + b)[j]
    {
      if i < |a| && j >= |a| {
        assert (a + b)[i] in a && (a + b)[j] in b;
      }
    }
  }

  /** `clean(now)`: evict timed-out connections, returning their blocks to
      the pending queue; cancel when no connection remains. */
  method Clean(s: Session, now: int) returns (r: Session)
    ensures CleanedFrom(s, now, r)
  {
    var expired := set c | c in s.conns && TimedOut(s.conns[c], now);
    var n := |s.pending|;
    var pending := s.pending;
    var todo := expired;
    while todo != {}
      invariant todo <= expired
      invariant n <= |pending| && pending[..n] == s.pending
      invariant forall p :: p in pending[n..] <==>
        exists c :: c in s.conns && c in expired && c !in todo && p in s.conns[c].waiting
      invariant WaitingDisjoint(s.conns) ==> Distinct(pending[n..])
      decreases todo
    {
      var c :| c in todo;
      var before := pending;
      pending := AppendAll(pending, s.conns[c].waiting);
      assert pending[n..] == before[n..] + pending[|before|..];
      if WaitingDisjoint(s.conns) {
        forall p | p in before[n..]
          ensures p !in pending[|before|..]
        {
          var d :| d in s.conns && d in expired && d !in todo && p in s.conns[d].waiting;
          assert d != c;
        }
        DistinctConcat(before[n..], pending[|before|..]);
      }
      todo := todo - {c};
    }
    var conns := Survivors(s.conns, now);
    r := s.(pending := pending, conns := conns,
            status := if conns == map[] then Cancelled else s.status);
  }

  /** `clean` keeps the invariant and the set of blocks still to transfer:
      evicted blocks are pending again, the others stay where they were. */
  lemma CleanPreservesValid(s: Session, now: int, r: Session, blocks: seq<Pos>)
    requires Valid(s, blocks)
    requires CleanedFrom(s, now, r)
    ensures Valid(r, blocks)
    ensures forall p :: Tracked(r, p) <==> Tracked(s, p)
  {
    var n := |s.pending|;
    var added := r.pending[n..];
    assert r.pending == s.pending + added;
    assert forall p :: p in s.pending ==> p !in added;
    DistinctConcat(s.pending, added);
    forall c, p | c in r.conns && p in r.conns[c].waiting
      ensures p !in r.pending
    {
      assert p in s.conns[c].waiting;
      assert p !in s.pending;
      assert p !in added;
    }
    forall p ensures Tracked(r, p) <==> Tracked(s, p) {
      if InFlight(s.conns, p) {
        var d :| d in s.conns && p in s.conns[d].waiting;
        if TimedOut(s.conns[d], now) {
          assert p in added;
        } else {
          assert p in r.conns[d].waiting;
        }
      }
      if InFlight(r.conns, p) {
        var d :| d in r.conns && p in r.conns[d].waiting;
        assert p in s.conns[d].waiting;
      }
      if p in added {
        var d :| d in s.conns && TimedOut(s.conns[d], now) && p in s.conns[d].waiting;
        assert InFlight(s.conns, p);
      }
    }
  }

  /** `clean` keeps the surviving connections as they were, so they stay
      within `REQUEST_LIMIT` blocks in flight. */
  lemma CleanWithinWindow(s: Session, now: int, r: Session)
    requires WithinWindow(s)
    requires CleanedFrom(s, now, r)
    ensures WithinWindow(r)
  {
    forall c | c in r.conns
      ensures |r.conns[c].waiting| <= REQUEST_LIMIT
    {
      assert r.conns[c] == s.conns[c];
    }
  }

  /** A 25-byte file in 10-byte blocks is split into (0,10), (10,10),
      (20,5), all requested at once from the first connection. */
  lemma ScenarioStart()
    ensures NewSession(FileDes("f", "h", 25), 1, 0, 10) ==
      Outcome(Session(FileDes("f", "h", 25), [],
                      map[1 := ConnInfo({Pos(0, 10), Pos(10, 10), Pos(20, 5)}, 0)], Active),
              [Pos(0, 10), Pos(10, 10), Pos(20, 5)])
  {
    assert Split(20, 5, 10) == [Pos(20, 5)];
    assert Split(10, 15, 10) == [Pos(10, 10), Pos(20, 5)];
    var blocks := [Pos(0, 10), Pos(10, 10), Pos(20, 5)];
    assert Partition(25, 10) == blocks;
    assert blocks[..Min(REQUEST_LIMIT, 3)] == blocks && blocks[Min(REQUEST_LIMIT, 3)..] == [];
    assert Elems(blocks) == {Pos(0, 10), Pos(10, 10), Pos(20, 5)};
  }

  /** Answering the three blocks out of order, (0,10), (20,5), (10,10),
      completes the transfer once the checksum verifies; the session stays
      active until the last answer. */
  lemma ScenarioOutOfOrder()
    ensures var file := FileDes("f", "h", 25);
      var s0 := Session(file, [], map[1 := ConnInfo({Pos(0, 10), Pos(10, 10), Pos(20, 5)}, 0)], Active);
      var o1 := Received(s0, Response(file, Pos(0, 10)), 1, 1, Written, false);
      var o2 := Received(o1.session, Response(file, Pos(20, 5)), 1, 2, Written, false);
      var o3 := Received(o2.session, Response(file, Pos(10, 10)), 1, 3, Written, false);
      && o1.session.status == Active
      && o2.session.status == Active
      && o3.session.status == Completed
  {
  }
}
