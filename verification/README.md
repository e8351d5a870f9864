# BitBox transfer and handshake core, modelled in Dafny

This project models the sequential core of the BitBox peer (MarsXue/DS_BitBox, Java).
It covers five pieces:

- **Block transfer of one file** (`FileLoaderWrapper`), in modules `Blocks` and `FileLoader`.
  The file `[0, fileSize)` is split into fixed-size blocks. The blocks are queued as *pending*
  and handed out, at most `REQUEST_LIMIT` = 10 at a time, to the *waiting* set of each
  connection offering the file. A block response is accepted only on the connection that
  waits for it. The transfer completes once nothing is pending or waited for. `clean`
  evicts connections silent for more than 20000 ms and returns their blocks to the pending
  queue.
- **Outgoing retry queue** (`OutgoingConnectionHelper`), in module `Outgoing`. A queue of
  `(peer, time)` entries ordered by time. One step of `execute` dials the earliest eligible
  peer. On a failed connect it re-queues the peer 5000 ms later; on a handshake reply it
  queues a refusal's suggested peers, activates, closes or aborts.
- **Incoming handshake** (`TCPIncomingConnectionHelper`), in module `Incoming`. This covers
  the LOW/NORMAL priority of the handshake task. It also covers the decision on the first
  message: activate, refuse with the cached peers, or abort.
- **Client command table** (`ClientProtocolType`), in module `ClientProtocol`. Eight
  `(key, class)` entries in declaration order, with first-match lookups by key and by
  class.
- Shared values (`HostPort`, handshake messages, the effects on a connection) are in
  `Protocol`; `Option`/`Result` are in `Wrappers`.

The operations are pure functions of their inputs, except for four methods:
`FileLoader.Clean` and `FileLoader.AppendAll` pick elements in an unspecified order (the
source iterates a hash map and hash sets), and `Blocks.PartitionLoop` and
`Outgoing.InitialQueue` mirror the constructor loops. The clock, the outcome of connecting and of the handshake reply, the
registry's answer and the outcomes of writing and verifying the file are all parameters. A session is a record: a pending `seq<Pos>` and a
`map<ConnId, ConnInfo>` of waiting sets with last-active times. Its invariant
`FileLoader.Valid(s, blocks)` is stated against the original partition `blocks`:

- the pending queue has no duplicates;
- pending and every waiting set are pairwise disjoint;
- everything tracked belongs to the partition.

Each block of the partition is therefore in exactly one of: pending, one waiting set, or
`WrittenBlocks`. A second invariant, `FileLoader.WithinWindow`, bounds every waiting set
by `REQUEST_LIMIT`.

`FilePosition` equality is taken to be by `(pos, len)` value; its class is not part of
this model.

How a handshake closes its connection:

- The incoming refusal path calls the no-argument `close()`. `Connection.close()`
  delegates to `close(true)`, so reconnecting is allowed (Connection.java:30-32). The
  model emits `Close(Some(true))`.
- The outgoing side's `Connection` is a different class (`unimelb.bitbox.Connection`) that
  is not part of this model. Its `close()` is therefore `Close(None)`, with the flag left
  unknown.

## Model

| member | source | states |
|---|---|---|
| Blocks.Split | bitbox/src/main/java/unimelb/bitbox/util/FileSystem/FileLoaderWrapper.java:53-60 | the constructor's loop yields no block exactly when nothing remains to cover |
| Blocks.SplitShape | bitbox/src/main/java/unimelb/bitbox/util/FileSystem/FileLoaderWrapper.java:53-60 | the blocks start at `base`, end at `base + remaining`, and each starts where the previous ends; every block has `0 < len <= BLOCK_SIZE`, and all but the last are exactly `BLOCK_SIZE` |
| Blocks.SplitIncreasing | bitbox/src/main/java/unimelb/bitbox/util/FileSystem/FileLoaderWrapper.java:53-60 | block offsets strictly increase and stay inside the covered range, so no block occurs twice |
| Blocks.SplitCovers | bitbox/src/main/java/unimelb/bitbox/util/FileSystem/FileLoaderWrapper.java:47-60 | the block lengths sum to the file size (to 0 for a non-positive size) |
| Blocks.SplitCount | bitbox/src/main/java/unimelb/bitbox/util/FileSystem/FileLoaderWrapper.java:53-60 | the number of blocks is ceil(fileSize / BLOCK_SIZE): `(n-1)*B < fileSize <= n*B` |
| Blocks.Partition | bitbox/src/main/java/unimelb/bitbox/util/FileSystem/FileLoaderWrapper.java:47-60 | the partition of a file has no repeated block, and is empty exactly when `fileSize <= 0` |
| Blocks.PartitionLoop | bitbox/src/main/java/unimelb/bitbox/util/FileSystem/FileLoaderWrapper.java:47-60 | the imperative `while (remaining > 0)` loop computes exactly the partition |
| FileLoader.Send | bitbox/src/main/java/unimelb/bitbox/util/FileSystem/FileLoaderWrapper.java:145-162 | `send(limit, conn)` is a no-op for an unregistered connection; otherwise it takes exactly `min(limit, pending.size())` blocks off the front of pending, in order, and adds them to that connection's waiting set; other connections, the file and the status are untouched |
| FileLoader.SendPreservesValid | bitbox/src/main/java/unimelb/bitbox/util/FileSystem/FileLoaderWrapper.java:145-162 | `send` keeps pending and the waiting sets pairwise disjoint and within the partition |
| FileLoader.SendKeepsTracked | bitbox/src/main/java/unimelb/bitbox/util/FileSystem/FileLoaderWrapper.java:152-161 | the union of pending and all waiting sets is unchanged by `send` |
| FileLoader.SendNothingPending | bitbox/src/main/java/unimelb/bitbox/util/FileSystem/FileLoaderWrapper.java:152-160 | with nothing pending, `pollFirst` yields null at once, so `send` changes nothing and requests nothing |
| FileLoader.NewSession | bitbox/src/main/java/unimelb/bitbox/util/FileSystem/FileLoaderWrapper.java:42-64 | the constructor registers the connection and requests the first `min(10, number of blocks)` blocks from it; the rest of the partition stays pending; the new session satisfies the invariant, has at most `REQUEST_LIMIT` blocks in flight, and tracks exactly the partition |
| FileLoader.AddConnection | bitbox/src/main/java/unimelb/bitbox/util/FileSystem/FileLoaderWrapper.java:76-85 | a registered connection changes nothing and requests nothing; a new one is registered, active at `now`, and given the first `min(10, pending.size())` pending blocks; existing connections are untouched |
| FileLoader.AddConnectionIdempotent | bitbox/src/main/java/unimelb/bitbox/util/FileSystem/FileLoaderWrapper.java:79 | adding the same connection a second time changes nothing and issues no request |
| FileLoader.AddConnectionPreservesValid | bitbox/src/main/java/unimelb/bitbox/util/FileSystem/FileLoaderWrapper.java:76-85 | `addNewConnection` keeps the invariant and the set of blocks still to transfer |
| FileLoader.AddConnectionWithinWindow | bitbox/src/main/java/unimelb/bitbox/util/FileSystem/FileLoaderWrapper.java:76-85 | a joining connection is given at most `REQUEST_LIMIT` blocks, so every connection stays within the limit |
| FileLoader.JoinNoOverlap | bitbox/src/main/java/unimelb/bitbox/util/FileSystem/FileLoaderWrapper.java:76-85 | a joining connection is never asked for a block another connection is already waiting for |
| FileLoader.TouchPreservesValid | bitbox/src/main/java/unimelb/bitbox/util/FileSystem/FileLoaderWrapper.java:107 | refreshing a connection's last-active time keeps the invariant and the tracked blocks |
| FileLoader.RetirePreservesValid | bitbox/src/main/java/unimelb/bitbox/util/FileSystem/FileLoaderWrapper.java:126 | removing a waited-for block keeps the invariant; the tracked blocks lose exactly that block |
| FileLoader.Received | bitbox/src/main/java/unimelb/bitbox/util/FileSystem/FileLoaderWrapper.java:88-142 | an md5 mismatch, an unknown connection or a block not waited for on that connection change nothing. Otherwise the connection's last-active time becomes `now`. A refused write cancels the session. A failing write leaves pending and waiting as they were and issues no request. A written block is replaced on that connection by at most one pending block. Completion is decided only when nothing is pending or waited for: it is Completed, or Cancelled when `checkWriteComplete` throws |
| FileLoader.CheckMd5Guards | bitbox/src/main/java/unimelb/bitbox/util/FileSystem/FileLoaderWrapper.java:91-106 | a response is accepted exactly when `checkMd5` (lines 67-69) admits its md5 and its block is waited for on its connection; a response whose md5 `checkMd5` rejects leaves the whole state unchanged |
| FileLoader.ReceivedPreservesValid | bitbox/src/main/java/unimelb/bitbox/util/FileSystem/FileLoaderWrapper.java:88-142 | `received` keeps the invariant; the only block it stops tracking is the one it wrote |
| FileLoader.ReceivedWritesOne | bitbox/src/main/java/unimelb/bitbox/util/FileSystem/FileLoaderWrapper.java:123-126 | the written blocks grow by exactly the received block when it was written, and stay the same otherwise |
| FileLoader.ReceivedKeepsWindow | bitbox/src/main/java/unimelb/bitbox/util/FileSystem/FileLoaderWrapper.java:107-126 | after a written block the connection's waiting set keeps its size while pending was non-empty, and shrinks by one otherwise |
| FileLoader.ReceivedWithinWindow | bitbox/src/main/java/unimelb/bitbox/util/FileSystem/FileLoaderWrapper.java:123-126 | the one block `send(1)` requests replaces the block just removed from waiting, so every connection stays within `REQUEST_LIMIT` blocks in flight |
| FileLoader.CompletionWritesAll | bitbox/src/main/java/unimelb/bitbox/util/FileSystem/FileLoaderWrapper.java:128-141 | a session that completes has written every block of its partition |
| FileLoader.Survivors | bitbox/src/main/java/unimelb/bitbox/util/FileSystem/FileLoaderWrapper.java:196-206 | `clean` keeps exactly the connections heard from within the last 20000 ms, unchanged |
| FileLoader.AppendAll | bitbox/src/main/java/unimelb/bitbox/util/FileSystem/FileLoaderWrapper.java:200 | `pending.addAll(waiting)` appends every block of the set once, after the existing queue, in some order |
| FileLoader.Clean | bitbox/src/main/java/unimelb/bitbox/util/FileSystem/FileLoaderWrapper.java:190-214 | timed-out connections are removed and their waiting blocks appended to pending, behind the old queue. Non-timed-out connections are unchanged. The session is cancelled when no connection remains |
| FileLoader.CleanPreservesValid | bitbox/src/main/java/unimelb/bitbox/util/FileSystem/FileLoaderWrapper.java:194-212 | `clean` keeps pending and the waiting sets disjoint, and keeps their union |
| FileLoader.CleanWithinWindow | bitbox/src/main/java/unimelb/bitbox/util/FileSystem/FileLoaderWrapper.java:194-206 | `clean` leaves surviving connections unchanged, so they stay within `REQUEST_LIMIT` blocks in flight |
| FileLoader.ScenarioStart | bitbox/src/main/java/unimelb/bitbox/util/FileSystem/FileLoaderWrapper.java:42-64 | a 25-byte file in 10-byte blocks becomes (0,10), (10,10), (20,5), all requested from the first connection |
| FileLoader.ScenarioOutOfOrder | bitbox/src/main/java/unimelb/bitbox/util/FileSystem/FileLoaderWrapper.java:88-142 | answering those blocks out of order keeps the session active until the last answer, which completes it |
| Outgoing.Insert | bitbox/src/main/java/unimelb/bitbox/OutgoingConnectionHelper.java:37 | `queue.add` grows the queue by one entry and adds exactly that entry |
| Outgoing.InsertSorted | bitbox/src/main/java/unimelb/bitbox/OutgoingConnectionHelper.java:37 | adding to a queue ordered by time keeps it ordered |
| Outgoing.InsertLatest | bitbox/src/main/java/unimelb/bitbox/OutgoingConnectionHelper.java:37 | an entry no earlier than everything queued goes to the back |
| Outgoing.EnqueueAll | bitbox/src/main/java/unimelb/bitbox/OutgoingConnectionHelper.java:115-117 | the refusal loop adds exactly one entry per suggested peer, each eligible at `now` |
| Outgoing.EnqueueAllSorted | bitbox/src/main/java/unimelb/bitbox/OutgoingConnectionHelper.java:115-117 | adding the suggested peers keeps the queue ordered |
| Outgoing.NonEmpty | bitbox/src/main/java/unimelb/bitbox/OutgoingConnectionHelper.java:41-45 | the peers kept are exactly the configured strings that are not empty |
| Outgoing.NonEmptyCounts | bitbox/src/main/java/unimelb/bitbox/OutgoingConnectionHelper.java:41-45 | every non-empty configured string is kept as many times as it is configured, duplicates included, and the empty string never |
| Outgoing.NonEmptySnoc | bitbox/src/main/java/unimelb/bitbox/OutgoingConnectionHelper.java:41-45 | one more configured string is appended to the kept peers exactly when it is not empty |
| Outgoing.NonEmptyKeepsOrder | bitbox/src/main/java/unimelb/bitbox/OutgoingConnectionHelper.java:41-45 | the kept peers stay in configuration order: filtering a concatenation concatenates the filtered parts |
| Outgoing.InitialQueue | bitbox/src/main/java/unimelb/bitbox/OutgoingConnectionHelper.java:39-45 | the constructor's queue has one entry per non-empty configured peer, in order, each eligible at `now`, and is ordered |
| Outgoing.RequestHandshake | bitbox/src/main/java/unimelb/bitbox/OutgoingConnectionHelper.java:77-127 | every reply ends the connection with exactly one terminal effect. Only a refusal changes the queue: it closes and adds the suggested peers. Activation happens exactly for a handshake response the registry admits |
| Outgoing.Step | bitbox/src/main/java/unimelb/bitbox/OutgoingConnectionHelper.java:48-75 | the loop ends exactly when the queue is empty. It sleeps `CHECK_INTERVAL` with the queue unchanged exactly when the head is not yet eligible. Otherwise it dials the head; a connection that came up is sent the handshake request first and settled exactly once, last |
| Outgoing.StepDialsEarliest | bitbox/src/main/java/unimelb/bitbox/OutgoingConnectionHelper.java:51-54 | the dialled entry has the least time in the queue |
| Outgoing.RequestHandshakeSorted | bitbox/src/main/java/unimelb/bitbox/OutgoingConnectionHelper.java:112-117 | handling a reply keeps the queue ordered |
| Outgoing.StepSorted | bitbox/src/main/java/unimelb/bitbox/OutgoingConnectionHelper.java:48-75 | every step keeps the queue ordered by time |
| Outgoing.StepConnectFailed | bitbox/src/main/java/unimelb/bitbox/OutgoingConnectionHelper.java:62-66 | a failed connect puts the same peer back with time `now + 5000`; the queue size is unchanged |
| Outgoing.StepRefused | bitbox/src/main/java/unimelb/bitbox/OutgoingConnectionHelper.java:112-118 | a refusal closes the connection and adds every suggested peer with time `now`; the queue grows by the list length minus the polled entry |
| Outgoing.StepResponse | bitbox/src/main/java/unimelb/bitbox/OutgoingConnectionHelper.java:99-111 | a handshake response activates the responding peer when the registry answers 0, and aborts with "HostPort is already existed" otherwise; the polled peer is not re-queued |
| Outgoing.StepOtherReplies | bitbox/src/main/java/unimelb/bitbox/OutgoingConnectionHelper.java:83-125 | a timeout, a parse error (with its message) and an unexpected message abort; `INVALID_PROTOCOL` closes; the queue is left as is |
| Outgoing.RefusalScenario | bitbox/src/main/java/unimelb/bitbox/OutgoingConnectionHelper.java:112-118 | a peer refusing with two suggestions: both are queued in order, eligible at once, and the connection is closed |
| Outgoing.EnqueueTwo | bitbox/src/main/java/unimelb/bitbox/OutgoingConnectionHelper.java:115-117 | two peers added at the same time to an empty queue keep their order |
| Incoming.HandshakePriority | bitbox/src/main/java/unimelb/bitbox/util/ConnectionUtils/Peer/TCPIncomingConnectionHelper.java:62-63 | the handshake task is LOW if and only if incoming connections are full, NORMAL otherwise |
| Incoming.RefusalReasonOf | bitbox/src/main/java/unimelb/bitbox/util/ConnectionUtils/Peer/TCPIncomingConnectionHelper.java:107-113 | the refusal reason is LIMIT_REACHED exactly for -1, ALREADY_EXIST exactly for -2, and unset for every other code |
| Incoming.HandleHandshake | bitbox/src/main/java/unimelb/bitbox/util/ConnectionUtils/Peer/TCPIncomingConnectionHelper.java:80-127 | the connection is settled exactly once, last. Activation happens exactly for a handshake request the registry admits, and then the effects are exactly the handshake response carrying this node's address followed by activation with the requested peer. A rejected request gets one refusal carrying the cached peers, then `close(true)`. Anything other than a request is a single abort |
| Incoming.RefusalIffRejected | bitbox/src/main/java/unimelb/bitbox/util/ConnectionUtils/Peer/TCPIncomingConnectionHelper.java:97-116 | at most one refusal is sent, and one is sent exactly when a handshake request is rejected |
| Incoming.AbortReasons | bitbox/src/main/java/unimelb/bitbox/util/ConnectionUtils/Peer/TCPIncomingConnectionHelper.java:85-125 | timeout aborts with "No handshake until timeout"; a parse failure with its own message; a non-request with "Expected HandashakeRequest but got: " and the class name, or "null" |
| ClientProtocol.Ordinal | bitbox/src/main/java/unimelb/bitbox/protocol/ClientProtocolType.java:15-22 | every entry occurs in `values()` at its declaration position |
| ClientProtocol.GetKey | bitbox/src/main/java/unimelb/bitbox/protocol/ClientProtocolType.java:35-37 | `getKey` returns the key declared at the entry's position in declaration order |
| ClientProtocol.GetValue | bitbox/src/main/java/unimelb/bitbox/protocol/ClientProtocolType.java:40-42 | `getValue` returns the class declared at the entry's position in declaration order, always one of the eight declared message classes |
| ClientProtocol.TableShape | bitbox/src/main/java/unimelb/bitbox/protocol/ClientProtocolType.java:15-42 | the table has exactly eight distinct entries, and for every position the entry there carries the key and the class declared at that position |
| ClientProtocol.GetValueInjective | bitbox/src/main/java/unimelb/bitbox/protocol/ClientProtocolType.java:15-22 | no two entries share a class |
| ClientProtocol.TypeOfCommand | bitbox/src/main/java/unimelb/bitbox/protocol/ClientProtocolType.java:51-58 | it fails with "Unknown command: " + command if and only if no key equals the command. Otherwise it returns an entry with that key, and no earlier entry has it |
| ClientProtocol.TypeOfProtocol | bitbox/src/main/java/unimelb/bitbox/protocol/ClientProtocolType.java:66-74 | it returns an entry declared with the message's class, and fails with "Unknown protocol class" if and only if no entry has that class |
| ClientProtocol.CommandRoundTrip | bitbox/src/main/java/unimelb/bitbox/protocol/ClientProtocolType.java:51-56 | looking up an entry's key succeeds with an entry of that key, and with the entry itself when keys are distinct |
| ClientProtocol.ProtocolRoundTrip | bitbox/src/main/java/unimelb/bitbox/protocol/ClientProtocolType.java:66-71 | every entry's class maps back to that entry |
| ClientProtocol.UnknownClassFails | bitbox/src/main/java/unimelb/bitbox/protocol/ClientProtocolType.java:66-74 | a class outside the table fails with "Unknown protocol class" |

## Left out

- Sockets, `ServerSocket.accept`, `waitForOneMessage` and `Thread.sleep`: I/O and blocking. Their outcomes are the parameters `Attempt`, `Reply` and `Reception`, and sleeping is the `Slept` result.
- `synchronized`, `PriorityThreadPool`, the task submission and the `Scheduler` loop: concurrency and timing. Each operation is one atomic step. The source writes a block outside the lock; interleavings of two `received` calls are not modelled.
- JSON marshalling and parsing (`ProtocolFactory`), `ProtocolType.typeOfProtocol` for peer messages, Base64 decoding, md5 computation, `writeFile`, `checkWriteComplete` and `cancelFileLoader`: they are not part of this model. Messages arrive already classified. The write outcome is the parameter `write`; whether `checkWriteComplete` throws is the parameter `verifyThrows`. A block request is an element of the returned `requests`.
- `ConnectionManager.addConnection`, `isIncommingConnectionFull` and `getCachedPeers`: not part of this model. Their results are the parameters `registry`, `incomingFull` and `cached`.
- `Configuration` and `Constants`: `BLOCK_SIZE` is a parameter, and the eight command keys are the abstract `KeyTable`. The configured peer list is the already-split sequence of strings. Parsing `host:port` into a `HostPort` is the parameter `parse`.
- `MessageHandler.removeFileLoaderWrapper`: the session's `Status` becomes Completed or Cancelled instead.
- Logging, including `clean`'s log lines.
- The clock: one reading `now` per operation. The source reads the clock again after a failed connect, once per `PeerInfo` in the constructor, once in `ConnectionInfo`'s constructor, and once per map entry in `clean` (FileLoaderWrapper.java:199).
- Outgoing.EnqueueAll: stamps a refusal's suggested peers with the step's `now`. The source stamps each `new PeerInfo(hp)` when the refusal has arrived (OutgoingConnectionHelper.java:116 and 134-137), which can be up to the 20000 ms handshake timeout, plus the connect time, later. So the model can queue a suggested peer ahead of an entry the source would dial first.
- ClientProtocol.TypeOfProtocol: both lookups fail as `Failure(message)`. The source throws the checked `InvalidProtocolException` from `typeOfCommand` (ClientProtocolType.java:57) but an unchecked `RuntimeException` from `typeOfProtocol` (line 73); the model does not distinguish the two.
- Incoming.AbortReasons: assumes that the peer-protocol `ProtocolType.typeOfProtocol`, which is not part of this model, returns a type other than a handshake request for a null parse result (TCPIncomingConnectionHelper.java:94). If it dereferences its argument, as `ClientProtocolType.typeOfProtocol` does, the null case throws an exception the `catch` at line 123 does not handle; the connection is then never settled, and the "null" reason at line 120 cannot occur.
- Outgoing.RequestHandshake: assumes the parsed reply is never null, or that the peer-protocol `ProtocolType.typeOfProtocol` (not part of this model) maps null to `INVALID_PROTOCOL`, which the model's `InvalidProtocol` reply covers with `Close(None)`. The outgoing code has no null guard: the `switch` (OutgoingConnectionHelper.java:98) and `protocol.getClass()` (line 125) dereference the result. Otherwise a `NullPointerException` escapes `requestHandshake`; `execute` catches only `IOException` (line 62), so the connector loop ends and every queued peer is dropped, an outcome `Step` has no result for.
- FileLoader.Received: does not refuse a session that is already Completed or Cancelled. In the source such a session has been removed from `MessageHandler`, so no further response reaches it; that routing is not part of this model. The result of `checkWriteComplete`, if it returns one, is ignored (FileLoaderWrapper.java:136): only a thrown `NoSuchAlgorithmException` or `IOException` cancels the session, so a verification that reports failure by its result still ends Completed. The write (line 113) and the final check (line 136) use the response's own path `resp.file.path` (line 89), while the md5 guard (line 91) compares only the md5; the model does not track which file a block is written to and assumes this path is the session's own, so `WrittenBlocks` and `CompletionWritesAll` speak of the session's file.
- The outgoing side's `Connection` class (`unimelb.bitbox.Connection`) is not part of this model. What its `close()` does with the reconnect flag is left open as `Close(None)`.
- `Connection.currentHostPort` and `HostPort.toString`: string formatting for log lines only.
- Blocks.Split: requires `BLOCK_SIZE > 0`. With a block size of 0 the source's loop never ends; with a negative one it grows without bound.
- Outgoing.Insert: entries with equal times leave in the order they were added. Java's `PriorityQueue` leaves the order among ties unspecified, so this is one admissible refinement.
- Outgoing.Step: times are unbounded integers; the 64-bit `long` clock and the `int` constants cannot overflow at realistic times, so no wrap-around is modelled.
- FileLoader.Clean: the order in which evicted blocks are appended follows unspecified hash-map and hash-set iteration, so it is stated only as membership. Each block is stated to appear once only when the waiting sets are disjoint, which the invariant guarantees.
