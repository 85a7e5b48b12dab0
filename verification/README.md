# Verified model of vice-next-mcp's runtime

A Dafny 4.11 model of the parts of vice-next-mcp that have to be right for many emulators to be driven at
once, and proofs about them. Check everything with `dafny verify dfyconfig.toml`.

| file | models |
|---|---|
| `LeaseProtocol.dfy` | the cross-process port lease as a transition system over single system calls, with crashes, pid reuse and inodes |
| `PortAllocator.dfy`, `AllocatorRuns.dfy` | `PortAllocator` run by one thread: what one `reserve` or `release` computes, and what any sequence of them keeps |
| `BatchPorts.dfy` | the port tables of `batch.py` on top of it |
| `RequestIds.dfy`, `MonitorTransport.dfy`, `MonitorClient.dfy` | the asynchronous monitor transport: id allocation, the transition system and its runs, and the state-changing code proved to take its steps |
| `MonitorEvents.dfy` | the transport's drop-oldest event queue |
| `Common.dfy`, `Bytes.dfy`, `MonitorFrames.dfy` | shared datatypes, fixed-width integers, request and reply framing |
| `SyncMonitor.dfy`, `MonitorItems.dfy`, `Screenshot.dfy` | the synchronous client: `call` under any fragmentation, item arrays and registers, PNG screenshots |
| `IecLines.dfy`, `IecCapture.dfy` | the incremental IEC trace reader against one parse of the whole file |
| `Keyboard.dfy` | the frame-driven keyboard queue |
| `Supervisor.dfy` | instances, generations, leases and port claims |
| `Snapshot.dfy` | the snapshot module walk |

Code that changes state step by step is modelled by classes and loops whose contracts equate the new state
with a specification function (`DrainStep`, `TickStep`, `Step`, ...); the properties of whole runs are lemmas
about those functions. Protocols with many participants are transition systems, and their theorems quantify
over every reachable state or every run.

## What the code does not do

Some intentions of the code or its documentation fail. The model keeps the code as it is and says exactly when
each holds.

- `allocate_ports` deadlocks on itself whenever there are too few ports: its error path calls `release_ports`
  while holding the non-reentrant lock (`BatchPorts.Batch.AllocatePorts`,
  `BatchPorts.Batch.TwoPortsFromTheTop`). With that lock re-entrant the rollback would restore every table
  (`BatchPorts.Batch.AllocateOrRollBack`).
- The lease file without the bound socket is not a lock: `LeaseProtocol.LeaseAloneIsNotEnough` exhibits two
  owners. With the socket it is one.
- Releasing a port reservation twice is harmless for everybody's lease files, but makes the allocator forget
  its claim on a later reservation of the same port (`PortAllocator.DoubleRelease`). It loses a claim in no
  other way (`AllocatorRuns.ClaimsCoverHeldIff`).
- `execute` pops its id from the pending table without looking whose it is by then. If a request outlives a
  `close` and 2^32 - 2 further ids, its cleanup orphans a newer request, which then survives the next `close`
  unresolved (`MonitorTransport.StalePopIsReachable`). Such a cleanup is the only way:
  `MonitorTransport.TrackedThroughoutIff` and `MonitorTransport.CloseResolvesAllButStolen` hold over all runs.
- A request that waits for the write lock when the connection fails is still written, to the next connection,
  although `execute` raises Disconnected, and its answer fails that connection too
  (`MonitorTransport.LateWriteIsReachable`; `MonitorTransport.WrittenElsewhereIff` says exactly when).
- A trace record on which `dict(...)` raises (a number, say) makes the drain raise: every line then in the file
  is skipped, and the capture can still call itself complete (`IecCapture.RaiseSkipsLines`,
  `IecCapture.RaiseFakesCompleteness`). `IecCapture.CompleteIffNothingLost` says exactly when it is right to.
- The synchronous client's call number 2^32 - 1, and every 2^32 calls from there, has the event marker as its id
  and never returns normally; every other call does if it is answered (`SyncMonitor.CallAnswered`).
- DESIGN.md says that a restart invalidates every lease token; a restart whose launch registers no new instance
  leaves the old token valid (`Supervisor.FailedRestartKeepsLease`; `Supervisor.HandleValidIff` says exactly
  what ends a lease).
- `Supervisor.create` leaks its port claim when it raises outside its two handlers, or when it registers over an
  instance that still holds a port (`Supervisor.SecondCreateLeaks`; `Supervisor.LeaksExactly` says exactly when).

## Model

| member | source | states |
|---|---|---|
| `LeaseProtocol.AtMostOneOwner` | src/vice_next_mcp/process.py:70-112 | in every interleaving with crashes, a port's lease has at most one live owner, before and after hand-off |
| `LeaseProtocol.ClaimsAreSerialised` | src/vice_next_mcp/process.py:95-109 | the bound socket keeps two `_claim_file` calls on one port from overlapping |
| `LeaseProtocol.LeaseSurvives` | src/vice_next_mcp/process.py:70-123 | whatever anybody does next, an owner keeps its lease file with its pid in it, unless it unlinks it in its own release or crashes |
| `LeaseProtocol.UnlinkHitsOwnOrDeadLease` | src/vice_next_mcp/process.py:82-121 | an unlink removes only the releaser's own lease or one whose creator has crashed |
| `LeaseProtocol.SecondReleaseIsHarmless` | src/vice_next_mcp/process.py:114-123 | a repeated release changes no lease path and no socket, whoever has claimed the port since |
| `LeaseProtocol.ReleasedLeaseIsGone` | src/vice_next_mcp/process.py:114-123 | once released, a reservation's lease file is on no path, whatever run follows - a second release, a crash, later claims of the port |
| `LeaseProtocol.SocketsAreNotLeaked` | src/vice_next_mcp/process.py:92-116 | a claimant has a socket bound exactly while its claim is under way or its reservation is not handed off, and only on its own port |
| `LeaseProtocol.SecondAttemptCreates` | src/vice_next_mcp/process.py:74-90 | the retry loop never runs out: the second exclusive create always succeeds |
| `LeaseProtocol.RefusedIffOwnerAlive` | src/vice_next_mcp/process.py:77-90 | `_claim_file` gives up exactly when the pid it read is that of a running process; otherwise what it unlinks belongs to a crashed one |
| `LeaseProtocol.UndisturbedClaim` | src/vice_next_mcp/process.py:70-90 | what a claim that nobody disturbs comes to: the lease after two calls where there is none, a refusal after four where a running process owns it, the lease after seven where the file is half-written or its owner is gone |
| `LeaseProtocol.UndisturbedRelease` | src/vice_next_mcp/process.py:114-123 | a release that nobody disturbs closes the socket and frees the path; a second one changes nothing |
| `LeaseProtocol.AnyoneMayAct` | src/vice_next_mcp/process.py:70-112 | processes may start, crash and claim, and other programs bind and close ports, whenever the operating system lets them |
| `LeaseProtocol.LeaseAloneIsNotEnough` | src/vice_next_mcp/process.py:77-86 | with sockets not exclusive there is a run after which two live claimants hold one port |
| `LeaseProtocol.RunKeepsInv` | src/vice_next_mcp/process.py:70-123 | the inductive invariant over program counters, sockets, paths, inodes and live pids holds along every run |
| `PortAllocator.Allocator.ClaimFile` | src/vice_next_mcp/process.py:70-90 | the lease is claimed unless it names a live process; a missing, garbled or stale file is replaced, a live one untouched |
| `PortAllocator.Allocator.TryBound` | src/vice_next_mcp/process.py:99-109 | after bind, a reservation results exactly for a usable port; otherwise sockets, claims and leases are as before |
| `PortAllocator.Allocator.Reserve` | src/vice_next_mcp/process.py:92-112 | for a non-zero preference: the least usable port from there up, all else unchanged; fails exactly if there is none |
| `PortAllocator.Allocator.ReserveAny` | src/vice_next_mcp/process.py:94-112 | for preference 0: one attempt on the port the OS picks; it fails only if no port can be bound, or if some port that can be bound is claimed or leased |
| `PortAllocator.Allocator.Handoff` | src/vice_next_mcp/process.py:39-41 | closes the reservation's own socket and no other |
| `PortAllocator.Allocator.Release` | src/vice_next_mcp/process.py:114-123 | drops claim and own socket, removes the lease file exactly if it carries the reservation's token |
| `PortAllocator.ReserveThenRelease` | src/vice_next_mcp/process.py:92-123 | release undoes reserve up to a stale lease file, and leaves every port as usable as before |
| `PortAllocator.DoubleRelease` | src/vice_next_mcp/process.py:114-127 | releasing twice with a new reservation of the port in between keeps the new lease and socket but loses the claim |
| `AllocatorRuns.StepKeepsCoveredIff` | src/vice_next_mcp/process.py:92-123 | an operation keeps the claims equal to the ports of the unreleased reservations exactly if it is not the release of a released one whose port another holds by now |
| `AllocatorRuns.ClaimsCoverHeldIff` | src/vice_next_mcp/process.py:92-127 | over any run of reserve, handoff and release, with other processes in between, claims and unreleased reservations agree at all times exactly if no such release occurs |
| `AllocatorRuns.ClaimsAfterRun` | src/vice_next_mcp/process.py:92-127 | after any such run the claims are exactly the ports of the unreleased reservations not forgotten that way; each of these has its lease file and no two share a port |
| `AllocatorRuns.ReserveStep` | src/vice_next_mcp/process.py:92-112 | a `reserve` of the allocator is a step of those runs |
| `AllocatorRuns.ReleaseStep` | src/vice_next_mcp/process.py:114-123 | so is any `release`, first or repeated |
| `BatchPorts.Batch.AllocatePorts` | src/vice_next_mcp/batch.py:26-57 | with a base: exactly the `count` least available ports, in order, if there are that many, else the call deadlocks with all available ones stranded; without: distinct available ports, and a deadlock only if fewer than `count` ports can be bound or the OS may pick an unavailable one |
| `BatchPorts.Batch.TwoPortsFromTheTop` | src/vice_next_mcp/batch.py:26-57 | a concrete call that always deadlocks: two ports from base 65535 |
| `BatchPorts.FirstOfIsUnique` | src/vice_next_mcp/batch.py:34-54 | being the least elements in order determines the returned list |
| `BatchPorts.Batch.TryAllocate` | src/vice_next_mcp/batch.py:33-52 | what the try block takes from every table; with a base it stops early only when nothing available is left, without one only if nothing is left to bind or some port that can be bound is unavailable |
| `BatchPorts.Batch.ScanFrom` | src/vice_next_mcp/batch.py:37-52 | the inner loop ends on the least available port, every port given back on the way |
| `BatchPorts.Batch.AllocateOrRollBack` | src/vice_next_mcp/batch.py:33-66 | with the lock re-entrant, an allocation succeeds as before, and a failed one leaves every table as it was, up to stale lease files |
| `BatchPorts.RollbackRestores` | src/vice_next_mcp/batch.py:55-66 | releasing what was taken restores reservations, claims, sockets and all live leases |
| `BatchPorts.Batch.ReleasePorts` | src/vice_next_mcp/batch.py:60-66 | every table after releasing a list of ports, known or not, repeated or not |
| `BatchPorts.Batch.HandoffPort` | src/vice_next_mcp/batch.py:69-75 | closes the socket of a reserved port, keeps claim and lease, refuses an unreserved port |
| `RequestIds.FreeWithinPendingPlusOne` | src/vice_next_mcp/monitor.py:126-133 | pigeonhole: n pending ids cost at most n extra probes |
| `RequestIds.Allocator.RequestId` | src/vice_next_mcp/monitor.py:126-133 | the first id after the last one, on the cycle without the event id, that is not pending; fails only if all 2^32 - 1 are |
| `MonitorFrames.ReadInvertsEncode` | src/vice_next_mcp/monitor.py:58-72 | a stream yields a frame and a rest exactly if it is that frame's encoding followed by that rest |
| `MonitorFrames.BadFrames` | src/vice_next_mcp/monitor.py:58-72 | a stream cut anywhere in a frame is a lost connection, a body over the limit and a wrong magic are refused as such |
| `MonitorFrames.RequestRoundTrip` | src/vice_next_mcp/monitor.py:48-55 | `encode_request` accepts exactly byte commands, non-event ids and bounded bodies, and the peer reads them back |
| `MonitorTransport.RunKeepsInv` | src/vice_next_mcp/monitor.py:138-224 | the invariants on futures, pending table, slots and ids hold along every run |
| `MonitorTransport.ReturnsOwnReply` | src/vice_next_mcp/monitor.py:151-161 | `execute` returns only an error-free reply with its own id, and raises CommandError only for an error reply with its own id |
| `MonitorTransport.AnswerIsReturned` | src/vice_next_mcp/monitor.py:151-161 | a request whose reply arrives while it waits returns that reply, or raises CommandError if it is an error, whatever happens before it resumes |
| `MonitorTransport.LossIsRaised` | src/vice_next_mcp/monitor.py:151-217 | a request that waits when the connection fails or is closed raises Disconnected |
| `MonitorTransport.AlwaysPossible` | src/vice_next_mcp/monitor.py:109-224 | admission, writing, giving up, connecting, failing to connect and closing are possible whenever the code allows them, with what each leaves |
| `MonitorTransport.ResolvesOnce` | src/vice_next_mcp/monitor.py:162-217 | a future that is done never changes again |
| `MonitorTransport.NeverReplays` | src/vice_next_mcp/monitor.py:148-206 | no request is written twice, reconnects included |
| `MonitorTransport.SlotsAreConserved` | src/vice_next_mcp/monitor.py:138-167 | free slots plus unfinished calls always equal `max_pending` |
| `MonitorTransport.UnknownReplyFailsConnection` | src/vice_next_mcp/monitor.py:176-200 | a reply to an id not pending fails the connection and breaks every unresolved pending request; any other reply resolves at most its own request |
| `MonitorTransport.LateReplyFailsConnection` | src/vice_next_mcp/monitor.py:152-189 | in every reachable state, a reply whose id no request in flight carries - the late reply to one that timed out or was cancelled, however long ago - fails the connection and every unresolved pending request |
| `MonitorTransport.CloseLeavesNothing` | src/vice_next_mcp/monitor.py:202-224 | when `close` ends there is no reader, writer or pending request, and every new call is refused |
| `MonitorTransport.EnterAlwaysGetsAnId` | src/vice_next_mcp/monitor.py:126-147 | with at most 2^32 - 1 slots ids are never exhausted: at most `max_pending` probes give an id that is fresh and not the event id |
| `MonitorTransport.ReissueDistance` | src/vice_next_mcp/monitor.py:105-147 | an id comes back only after at least (2^32 - 1) / `max_pending` further allocations |
| `MonitorTransport.StepKeepsTrackedIff` | src/vice_next_mcp/monitor.py:138-224 | an event keeps every unresolved request reachable from the pending table exactly if it is not a cleanup whose id has become another unresolved request's |
| `MonitorTransport.TrackedThroughoutIff` | src/vice_next_mcp/monitor.py:138-224 | a run keeps every unresolved request reachable at all times exactly if no cleanup in it does that |
| `MonitorTransport.NothingUnresolvedOffline` | src/vice_next_mcp/monitor.py:193-224 | in every run: whenever the connection is down, every unresolved future is that of a request orphaned so and still waiting |
| `MonitorTransport.CloseResolvesAllButStolen` | src/vice_next_mcp/monitor.py:193-224 | after any run a `close` leaves unresolved exactly the orphaned requests that are still waiting |
| `MonitorTransport.PromptRunStealsNothing` | src/vice_next_mcp/monitor.py:105-167 | no request is orphaned in a run whose calls do not outlive (2^32 - 1) / `max_pending` ids |
| `MonitorTransport.StalePopIsReachable` | src/vice_next_mcp/monitor.py:162-217 | a run in which such a cleanup orphans a newer request, and the `close` after it leaves that request unresolved |
| `MonitorTransport.WrittenElsewhereIff` | src/vice_next_mcp/monitor.py:148-151 | a request not orphaned is written on another connection than it was registered on only if its future is done by then, and, unless it was answered before it was written, exactly then |
| `MonitorTransport.WrittenElsewhereIffDone` | src/vice_next_mcp/monitor.py:148-151 | the same as an if-and-only-if over every run against a peer that answers only what was written |
| `MonitorTransport.EarlyReplyStaysHome` | src/vice_next_mcp/monitor.py:148-189 | a run with an answer ahead of its request, whose future is done although it is written on its own connection |
| `MonitorTransport.LateWriteIsReachable` | src/vice_next_mcp/monitor.py:148-200 | a run in which a request that fails with Disconnected is written to the next connection, which its answer then fails |
| `MonitorClient.Transport.EnterCall` | src/vice_next_mcp/monitor.py:143-147 | the admission code takes exactly the modelled step |
| `MonitorClient.Transport.FinishCall` | src/vice_next_mcp/monitor.py:162-167 | the cleanup code takes exactly the modelled step |
| `MonitorClient.Transport.BreakFutures` | src/vice_next_mcp/monitor.py:196-198 | the loop breaks exactly the pending futures that are not done |
| `MonitorClient.Transport.OnReply` | src/vice_next_mcp/monitor.py:186-200 | a reply frame is handled exactly as modelled |
| `MonitorClient.Transport.ClearOnClose` | src/vice_next_mcp/monitor.py:214-219 | closing breaks and clears exactly as modelled |
| `MonitorEvents.EventQueue.OnEvent` | src/vice_next_mcp/monitor.py:180-185 | keeps the queue a bounded suffix of the events received, with received = delivered + queued + dropped and deliveries in order |
| `MonitorEvents.EventQueue.NextEvent` | src/vice_next_mcp/monitor.py:169-174 | hands out the oldest queued event and keeps the same account |
| `SyncMonitor.BinaryMonitor.Exact` | src/vice_next_mcp/monitor_sync.py:29-36 | exactly the next n bytes under any fragmentation; fails exactly if the stream ends before |
| `SyncMonitor.BinaryMonitor.ReadFrame` | src/vice_next_mcp/monitor_sync.py:46-50 | one frame, consuming precisely its bytes |
| `SyncMonitor.BinaryMonitor.Call` | src/vice_next_mcp/monitor_sync.py:38-58 | one request under the next id, then the result, the events set aside and the bytes left that the whole stream determines; neither reply nor command error if the id is the event marker |
| `SyncMonitor.FirstNonEventDecides` | src/vice_next_mcp/monitor_sync.py:45-58 | events ahead of the reply are kept in order and the first other frame settles the call |
| `SyncMonitor.FirstBadFrameRaises` | src/vice_next_mcp/monitor_sync.py:45-58 | after any events, a wrong header and a lost connection each raise their own exception, the events kept |
| `SyncMonitor.ReplyMeansWholeFrames` | src/vice_next_mcp/monitor_sync.py:45-58 | on any bytes at all, a returned reply and the events set aside are exactly the frames the stream starts with |
| `SyncMonitor.EventIdNeverReturns` | src/vice_next_mcp/monitor_sync.py:40-58 | a call whose id is the event marker returns neither reply nor command error |
| `SyncMonitor.CallAnswered` | src/vice_next_mcp/monitor_sync.py:38-58 | against a peer that answers, call number n is settled by its reply or its error exactly if n mod 2^32 is not the event marker, with the interleaved events appended |
| `MonitorItems.ItemsRoundTrip` | src/vice_next_mcp/monitor_sync.py:74-91 | `_items` accepts exactly the encodings of at most 65535 items of 1 to 255 bytes and inverts them |
| `MonitorItems.Items` | src/vice_next_mcp/monitor_sync.py:76-91 | the loop computes that parse |
| `MonitorItems.DescriptionsRoundTrip` | src/vice_next_mcp/monitor_sync.py:95-106 | register descriptions are accepted exactly if well-formed ASCII records, and read back unchanged |
| `MonitorItems.RegistersSetBody` | src/vice_next_mcp/monitor_sync.py:121-135 | a body is built exactly if every name is known and every value fits its register, and it parses back to the requested ids and values in order |
| `MonitorItems.ByNameFinds` | src/vice_next_mcp/monitor_sync.py:123-123 | registers whose names differ in more than ASCII case are each found under their name |
| `MonitorItems.AnyCaseSets` | src/vice_next_mcp/monitor_sync.py:123-133 | `registers_set` takes a register's name in any mixture of capitals, exactly for the values that fit its bits |
| `MonitorItems.ByNameMisses` | src/vice_next_mcp/monitor_sync.py:123-128 | a name that is no register's in any mixture of capitals is not found |
| `MonitorItems.RegistersReadBack` | src/vice_next_mcp/monitor_sync.py:108-119 | `registers` gives exactly the reported value of every reported register under its name, for reports of any distinct registers in any order |
| `Screenshot.PngShowsDisplay` | src/vice_next_mcp/monitor_sync.py:204-247 | for any answers that are a display and a palette: there is a file exactly if the compressed scanlines fit a chunk; it decodes to an image of the display's (or inner) size whose every pixel is the palette colour of the display's index there |
| `Screenshot.DisplayRoundTrip` | src/vice_next_mcp/monitor_sync.py:206-215 | the answers accepted are exactly the displays: thirteen bytes of little-endian fields and depth 8, as many pixels as width times height, anything behind them |
| `Screenshot.FileRoundTrip` | src/vice_next_mcp/monitor_sync.py:234-247 | the file is signature, IHDR, IDAT, IEND with correct lengths and checksums |
| `Screenshot.CropAt` | src/vice_next_mcp/monitor_sync.py:218-223 | cropping cuts out the inner rectangle, row by row |
| `IecCapture.CaptureSession.Drain` | src/vice_next_mcp/iec_capture.py:90-117 | the loop over lines computes the specified drain: events, offset, push-back, sequence and malformed count |
| `IecCapture.DrainLineByLine` | src/vice_next_mcp/iec_capture.py:90-117 | what a drain takes, said of bytes and lines: a record on a line with some byte that is not white space is an event, such a line that is no JSON is malformed, and it stops at the limit, the end, or a record on which `dict(...)` raises |
| `IecCapture.DrainReturnsNext` | src/vice_next_mcp/iec_capture.py:90-117 | a drain returns exactly the next min(limit, remaining) events of one parse of the file, numbered on, and stays in step with it |
| `IecCapture.DrainRaisesIff` | src/vice_next_mcp/iec_capture.py:102-116 | a drain raises exactly when a record on which `dict(...)` raises comes before the limit is reached |
| `IecCapture.RaiseSkipsLines` | src/vice_next_mcp/iec_capture.py:90-146 | after a raise no line then in the file is ever looked at again, and `complete` ignores it |
| `IecCapture.RaiseFakesCompleteness` | src/vice_next_mcp/iec_capture.py:90-146 | a two-record file whose only event is lost that way in a capture that reports complete |
| `IecCapture.RunRefinesWholeParse` | src/vice_next_mcp/iec_capture.py:90-117 | over any schedule of appends and reads that does not raise, the reads together return a gapless run of the one-shot parse |
| `IecCapture.RunOpsRaisesIff` | src/vice_next_mcp/iec_capture.py:90-117 | a schedule counts as raising exactly if one of its reads raises in the state reached by then |
| `IecCapture.CaptureRefinesWholeParse` | src/vice_next_mcp/iec_capture.py:34-117 | a whole capture returns the first events of the file after its start, numbered from 1, and all of them if it is complete |
| `IecCapture.CompleteIsSound` | src/vice_next_mcp/iec_capture.py:137-147 | a complete capture in step with the file ends on whole lines, none malformed, all events returned |
| `IecCapture.CompleteIffNothingLost` | src/vice_next_mcp/iec_capture.py:90-147 | over any schedule, raising reads included: a complete capture has returned every event of whole, well-formed lines exactly if no read raised with an event in front of it or a malformed line from there on |
| `IecCapture.RunAllAccounts` | src/vice_next_mcp/iec_capture.py:90-117 | over any schedule, raising reads included: events consumed = events returned + events lost, malformed lines consumed = counted + skipped |
| `IecCapture.Observe` | src/vice_next_mcp/iec_capture.py:60-69 | the loop finds the last line that parses |
| `IecCapture.LastParsedIs` | src/vice_next_mcp/iec_capture.py:60-69 | the last line that parses decides, a null among them counting as none |
| `IecCapture.RawLinesCut` | src/vice_next_mcp/iec_capture.py:61-62 | the lines looked at are the file cut after each newline, the unfinished last one included |
| `IecCapture.ObserveIsLastDrainedEvent` | src/vice_next_mcp/iec_capture.py:56-69 | on a newline-terminated file that is the last event of a whole-file drain |
| `IecCapture.IECTraceReader.Start` | src/vice_next_mcp/iec_capture.py:34-48 | a capture starts at the end of the file, and only where none is active |
| `IecCapture.IECTraceReader.Read` | src/vice_next_mcp/iec_capture.py:50-88 | read and stop drain the session they name and touch no other |
| `IecLines.UnlinesLines` | src/vice_next_mcp/iec_capture.py:97-105 | splitting and joining lines are inverse, so push-back loses no byte |
| `IecLines.LinesConcat` | src/vice_next_mcp/iec_capture.py:97-99 | cutting the bytes after any newline cuts the list of lines |
| `Keyboard.TicksAdd` | src/vice_next_mcp/keyboard.py:42-69 | two ticks equal one of both lengths in queue, frame, held keys and delivered actions |
| `Keyboard.DrainOutcome` | src/vice_next_mcp/keyboard.py:83-92 | when exactly a drain reports "drained", what it clears otherwise, and which items it delivers at which frame |
| `Keyboard.EveryRunAccounted` | src/vice_next_mcp/keyboard.py:31-92 | over every run: first in first out, never early, nothing lost or delivered twice except by a cancel, held keys are those the events since the last cancel leave held |
| `Keyboard.HeldMeansPressed` | src/vice_next_mcp/keyboard.py:53-56 | a key is held exactly if an event pressed it and none after that released it |
| `Keyboard.KeyboardQueue.Enqueue` | src/vice_next_mcp/keyboard.py:31-39 | action k is queued for the later of the present frame and the requested one plus the frames of the actions before it, negative ones counting as none |
| `Keyboard.ScheduledAt` | src/vice_next_mcp/keyboard.py:37-39 | the same of the schedule itself |
| `Keyboard.KeyboardQueue.Tick` | src/vice_next_mcp/keyboard.py:42-69 | the loop delivers exactly the due items at the front, each with its own schedule, value and modifiers and its kind in lower case; a paused tick only moves the frame |
| `Keyboard.KeyboardQueue.Cancel` | src/vice_next_mcp/keyboard.py:71-73 | empties queue and held keys, keeps the event log |
| `Keyboard.KeyboardQueue.Drain` | src/vice_next_mcp/keyboard.py:83-92 | the loop computes the specified drain and result |
| `Supervisor.ClaimsAreAccountedFor` | src/vice_next_mcp/supervisor.py:86-207 | in every run every port of a registered instance is claimed, no port held twice, none held by a stopped or failed instance |
| `Supervisor.PortWhileRunning` | src/vice_next_mcp/supervisor.py:86-274 | a registered instance holds a port exactly while it is running or paused |
| `Supervisor.LaunchIsRecorded` | src/vice_next_mcp/supervisor.py:86-207 | for each way a launch ends: what is registered, with which status and port, and whether the port stays claimed |
| `Supervisor.SurvivorIsKept` | src/vice_next_mcp/supervisor.py:248-288 | an instance whose process survives a stop, a restart or a close keeps its entry and its claim |
| `Supervisor.StopGivesBack` | src/vice_next_mcp/supervisor.py:248-274 | a stop that works takes the port and its claim and leaves everything else |
| `Supervisor.LeaksExactly` | src/vice_next_mcp/supervisor.py:98-198 | each operation adds to the claims nobody holds exactly the port of a launch that raises outside the handlers, or of an instance it registers over; no other operation changes them |
| `Supervisor.RunLeaksExactly` | src/vice_next_mcp/supervisor.py:86-288 | over any run the claims nobody holds grow by exactly the ports those operations leaked |
| `Supervisor.SecondCreateLeaks` | src/vice_next_mcp/supervisor.py:86-274 | a run of two creates and a stop after which a claim that no instance holds remains |
| `Supervisor.CloseLeavesOnlyLeaks` | src/vice_next_mcp/supervisor.py:285-288 | after any run, a close whose stops succeed stops every instance and leaves as claims exactly the leaked ports |
| `Supervisor.OneValidHandle` | src/vice_next_mcp/supervisor.py:232-246 | at most one lease handle per instance is valid, and it is of the present generation |
| `Supervisor.GenerationCountsRestarts` | src/vice_next_mcp/supervisor.py:276-283 | over any run without a create under its id, an instance's generation counts the restarts that registered an instance |
| `Supervisor.HandleValidIff` | src/vice_next_mcp/supervisor.py:232-283 | after any run a lease handle is valid exactly if it was and no operation released it or registered a new instance under its id |
| `Supervisor.ReleaseWorksIff` | src/vice_next_mcp/supervisor.py:232-246 | after any run a release succeeds exactly with a handle that nothing has ended, and the instance can be leased again |
| `Supervisor.LeaseGrantedIff` | src/vice_next_mcp/supervisor.py:232-239 | a lease is granted exactly for a registered instance without one, and is valid |
| `Supervisor.StatusIsSet` | src/vice_next_mcp/transport_runtime.py:49-60 | pausing or running changes the status and nothing else |
| `Supervisor.FailedRestartKeepsLease` | src/vice_next_mcp/supervisor.py:276-283 | a run in which a restart without a free port leaves the old lease valid |
| `Supervisor.RevokedForever` | src/vice_next_mcp/supervisor.py:241-246 | a handle that was invalid or has been ended in a run is refused by release, which changes nothing |
| `Supervisor.SupervisorObject.Create` | src/vice_next_mcp/supervisor.py:86-207 | the bookkeeping of create for each way a launch can go |
| `Supervisor.SupervisorObject.Stop` | src/vice_next_mcp/supervisor.py:248-274 | stop releases the port and marks the instance, or changes nothing if the process survives |
| `Supervisor.SupervisorObject.Restart` | src/vice_next_mcp/supervisor.py:276-283 | stop, then create under the next generation |
| `Supervisor.SupervisorObject.Close` | src/vice_next_mcp/supervisor.py:285-288 | stops the instances not yet stopped, until one stop raises |
| `Supervisor.SupervisorObject.LeaseInstance` | src/vice_next_mcp/supervisor.py:232-239 | grants a lease exactly if there is none |
| `Supervisor.SupervisorObject.ReleaseLease` | src/vice_next_mcp/supervisor.py:241-246 | ends a lease exactly for the token that holds it |
| `Supervisor.InstanceLease.Release` | src/vice_next_mcp/supervisor.py:47-50 | releases once; a refused release stays unreleased |
| `Snapshot.ValidateSnapshot` | src/vice_next_mcp/snapshot.py:28-49 | the loop finds the specified modules; accepted exactly with the magic and every required name |
| `Snapshot.WalkTiles` | src/vice_next_mcp/snapshot.py:37-45 | the modules lie end to end inside the data, and the walk stops only where none can be read |
| `Snapshot.WalkRecovers` | src/vice_next_mcp/snapshot.py:37-45 | any written list of modules followed by fewer than 16 stray bytes is recovered: names byte by byte, U+FFFD for bytes that are not ASCII, and lengths |
| `Snapshot.WalkGrows` | src/vice_next_mcp/snapshot.py:37-45 | appending bytes only extends the list of modules |

## Left out

- Launching, signalling and pumping the emulator, real sockets, directories, environment variables and platform
  branches: they appear as outcomes or as abstract steps (bind, create, read, write, unlink, liveness, crash).
- I/O errors other than the ones modelled: writes and unlinks of lease files succeed, files are readable.
- The lease protocol is modelled for one host string; the in-process lock and `_claims` set only restrict its
  interleavings further and are covered by `PortAllocator.dfy`.
- ClaimFile: a lease file holding JSON that is no object, or a pid that is no number, is not covered: the source
  then raises AttributeError, TypeError or ValueError with the socket still open, and replaces nothing.
- AtMostOneOwner: assumes that every claimant's liveness test sees every live process; where owners are different
  users, `os.kill` raises PermissionError and the source takes a live owner for dead.
- UUIDs are counters: a token is never drawn twice.
- Socket and request timeouts of the synchronous client: a closed stream stands for every failed read.
- JSON, zlib and CRC-32 are parameters: `loads` is any function of a line, `decompress` inverts `compress`.
- `IECTraceReader._normalize` beyond whether it raises; a `drive_context` that is not iterable counts as a record on
  which it raises.
- `_items` as a generator: a consumer that fails early sees fewer items.
- The read-back branches of `registers_set`, `memory`, `memory_write` and the one-line commands of `monitor_sync.py`.
- Non-ASCII upper- and lower-casing of register and action names.
- The strings that `enqueue` and `status` return, and dictionaries in place of `KeyboardAction`.
- Threads inside one supervisor: its operations are taken one at a time.
- Instances' capabilities, trace paths and machine names.
- `snapshot.metadata`, `ensure_path` and the fingerprint.
- `BatchRunner.run`, `server.py`, `operations.py`, `catalog.py`, `live_mcp.py`, `model.py`, `transport_runtime.py` (but
  for the status it sets), `capture.py`, `trace.py`, the command line and the pytest plugin: dispatch, scheduling by
  a library, or simple filters.
- The richer actor and lease-expiry contract of DESIGN.md: mostly not implemented.
