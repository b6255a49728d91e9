# Verified models of the systems-programming examples

A Dafny model of the small concurrent protocols, kernel-facing state machines and byte codecs of the
examples, with proofs of what they are for. The kernel, the scheduler, the network and the clock are
nondeterministic: a theorem holds whatever they do within their documented contracts. Check everything with
`dafny verify dfyconfig.toml`.

Two forms are used.

* **Protocols between threads or processes** are state machines on values. A `Config` holds the sizes, a
  `State` the shared words and each thread's program counter and locals, and `Step` one atomic action of one
  thread or of its environment; a disabled action changes nothing. `Run` is an arbitrary finite schedule, and
  the theorems speak of every `Reachable` state. Fields that no step looks at (messages sent, kills refused)
  are history and serve only to state theorems.
* **Sequential code that updates its data** is a class or a method over an array, proved against functions of
  its inputs and old state; the theorems are lemmas about those functions, or an invariant that every method keeps.

| file | what it models |
|---|---|
| `Common.dfy` | bytes, NUL-terminated strings, overwriting, streams in chunks, byte order, remainders |
| `ShmSlots.dfy`, `ShmProtocol.dfy`, `ShmServe.dfy` | chapter 20: the seqlock over shared bytes, byte store by byte copy; the slot ring; the futex handshake with any number of watchers |
| `IoUringRing.dfy`, `IoUringCopy.dfy` | chapter 10: rings with wrapping 32-bit counters over a kernel that completes linked requests in any order, and the two copy engines |
| `SpscRing.dfy` | chapter 26: Lamport's queue, one shared access per step |
| `WorkQueue.dfy` | chapter 25: the bounded-queue worker pool |
| `StopRace.dfy` | chapter 19: reaper against control thread, in the channel and the condition-variable form |
| `Supervisor.dfy` | chapter 12: the signalfd loop with coalescing signals, and the channel form |
| `Bridge.dfy` | chapter 41: the chat relay between nodes |
| `Framing.dfy` | chapters 22 and 41: the frame codec, the incremental and the blocking decoder, the DELIVER payload |
| `Seccomp.dfy` | chapter 33: the filter assembler against an interpreter of classic BPF |
| `ByteStore.dfy` | chapter 16: the mapped key-value file as a bounded finite map |
| `LogLines.dfy`, `LogCapture.dfy`, `LogTail.dfy` | chapter 18: line capture of two pipes into one log, and its relay to FIFO readers |
| `Debounce.dfy` | chapter 09: the per-path event debouncer |

Some promises of the source hold only under a condition. Each has a theorem with the exact condition, or a
reachable state that shows the failure.

* A watcher that falls more than eight updates behind prints the missed ids with later updates' keys and values,
  although the comment at `examples/20-shared-memory-coordination/go/main.go:314-315` promises a back-fill
  (`ShmServe.LineShowsItsUpdateIff`, `ShmServe.LateWatcherPrintsAnotherPair`).
* An allowlist of more than 255 entries loses all but its last 255, because the jump offset is cut to 8 bits
  (`Seccomp.EnforcesIff`).
* The C++ supervisor casts the poll timeout to a 32-bit int. A backoff of 2^32 - 1 ms or more can bring the child
  back early, one of 2^31 - 1 ms or more can wait for ever (`SupervisorSignalfd.RespawnWaitsOutBackoffIff`,
  `SupervisorSignalfd.BackoffPollEndsIff`); `--backoff-ms` accepts such values.
* The C++ supervisor leaves its child unreaped when `kill` is refused (`SupervisorSignalfd.UnreapedAtReturn`).
* The C++ control program kills a process group that a just-forked child may not have made yet, and then waits
  for a child nobody signalled (`StopRace.EarlyKillMisses`); with the group made before spawn returns, as Go
  does, it cannot happen (`StopRace.WaitsForSignalledIff`).
* A chat node that peers with itself echoes and repeats messages (`Bridge.EchoFreeIff`, `Bridge.AtMostOnceIff`).
* `get` with an empty key finds the first unused slot instead of failing (`ByteStore.GetReadsMap`).
* A log line over 64 KiB is kept or cut depending on how reads fall (`LogLines.RecordsAreLinesIff`,
  `LogLines.LongLineDependsOnChunking`).

## Model

| member | source | states |
|---|---|---|
| `ShmProtocol.SnapshotIsAtomic` | examples/20-shared-memory-coordination/go/main.go:120-146 | under every interleaving of the byte stores of the server with the byte copies of any number of watchers, a snapshot that seqlockRead returns is the counter and all 512 slot bytes as they stood after one whole update, the one named by half the sequence word; the u32 sequence word never wraps |
| `ShmProtocol.NoLostWakeup` | examples/20-shared-memory-coordination/go/main.go:305-329 | a watcher asleep on an update it has not seen implies the server has still to issue the wake for it; when the server is between rounds every sleeper has seen everything |
| `ShmProtocol.SleepersAreCaughtUp` | examples/20-shared-memory-coordination/go/main.go:278-291 | when serve has ended, a watcher still asleep has printed every update and asked for more |
| `ShmProtocol.RetrySucceeds` | examples/20-shared-memory-coordination/go/main.go:131-146 | a collision is only retried: from anywhere inside seqlockRead, whatever stale values it holds, with two looks left and no writer at work, the watcher by itself gets the current snapshot |
| `ShmProtocol.FailsOnlyLate` | examples/20-shared-memory-coordination/go/main.go:132-145 | a watcher fails only after its deadline or a million looks that all met the writer |
| `ShmProtocol.UnseenIsPrinted` | examples/20-shared-memory-coordination/go/main.go:305-323 | while no update is being written, a watcher with unseen updates prints them from the current snapshot |
| `ShmProtocol.CaughtUpSleeps` | examples/20-shared-memory-coordination/go/main.go:324-328 | a watcher that has seen everything goes to sleep |
| `ShmProtocol.RingLaw` | examples/20-shared-memory-coordination/go/main.go:255-267 | after updates 1..c, readSlot(id) gives the pair of update c - ((c - id) mod 8) |
| `ShmProtocol.PrintedInOrder` | examples/20-shared-memory-coordination/go/main.go:304-330 | watch prints ids 1, 2, 3, ... without gap or repeat, each with the newest pair on its ring position at its snapshot |
| `ShmProtocol.AllStoresWriteTheSlot` | examples/20-shared-memory-coordination/go/main.go:255-261 | the single byte stores of writeSlot, all done, amount to the whole slot written and nothing else |
| `ShmProtocol.StepKeepsInv` | examples/20-shared-memory-coordination/go/main.go:120-146 | every step of server, watcher, copied byte, timeout or signal keeps the seqlock and futex invariant |
| `ShmServe.LineShowsItsUpdateIff` | examples/20-shared-memory-coordination/go/main.go:313-320 | with the keys and values serve really writes, a printed line shows its own update exactly when its snapshot was fewer than eight updates ahead of it |
| `ShmServe.LateWatcherPrintsAnotherPair` | examples/20-shared-memory-coordination/go/main.go:314-320 | a watcher that first looks after nine or more updates does print update 1 with another update's pair |
| `ShmServe.PublishedIsStoredWhole` | examples/20-shared-memory-coordination/go/main.go:280-285 | keys and values of capped updates fit their fields and read back unchanged |
| `ShmServe.DecimalSpells` | examples/20-shared-memory-coordination/go/main.go:280-281 | the digits in keys and values spell the number of the update |
| `ShmSlots.ReadAfterWrite` | examples/20-shared-memory-coordination/go/main.go:255-267 | a written slot reads back, cut to its fields, at every id of its ring position, and all other ids read as before |
| `ShmSlots.Mapping.WriteSlot` | examples/20-shared-memory-coordination/go/main.go:255-261 | clear and the two copies, done in place, leave exactly the slot image and change no other byte |
| `ShmSlots.Mapping.Publish` | examples/20-shared-memory-coordination/go/main.go:278-286 | one round of the serve loop: slot, counter, sequence word two higher, futex word |
| `ShmSlots.ReadSlot` | examples/20-shared-memory-coordination/go/main.go:263-267 | the two NUL-terminated fields of the slot of an id |
| `ShmSlots.Cstr` | examples/20-shared-memory-coordination/go/main.go:246-253 | the bytes before the first NUL, or all of them |
| `ShmSlots.PrintNew` | examples/20-shared-memory-coordination/go/main.go:313-321 | the back-fill loop prints ids last+1..counter, at most as many as are still wanted, each with its slot's pair |
| `IoUringRing.SlotsDiffer` | examples/10-io-uring/cpp/src/main.cpp:197-209 | ring slots of counters less than a ring apart differ, wherever the 32-bit counters wrap, for every power-of-two size |
| `IoUringRing.WindowGrows` | examples/10-io-uring/cpp/src/main.cpp:197-209 | writing the slot after the last claimed one adds one entry and leaves the others as they were |
| `IoUringRing.WindowShrinks` | examples/10-io-uring/cpp/src/main.cpp:218-227 | popping the head slot removes the oldest entry only |
| `IoUringRing.Ring.constructor` | examples/10-io-uring/cpp/src/main.cpp:183-193 | a new ring of power-of-two sizes is empty, wherever its counters start |
| `IoUringRing.Ring.TryGetSqe` | examples/10-io-uring/cpp/src/main.cpp:197-209 | null exactly when the ring is full; else a zeroed slot that no claimed, untaken SQE uses, appended to the queue |
| `IoUringRing.Ring.SubmitAndWait` | examples/10-io-uring/cpp/src/main.cpp:212-215 | publishes the queue; on success the kernel has taken exactly the queue, once, through any number of interrupted calls |
| `IoUringRing.Ring.Enter` | examples/10-io-uring/cpp/src/main.cpp:252-264 | retries only interrupted calls; the queue is either still there or taken exactly once |
| `IoUringRing.Ring.Pop` | examples/10-io-uring/cpp/src/main.cpp:218-227 | none exactly when the ring is empty; else the oldest completion, removed |
| `IoUringRing.Ring.Drain` | examples/10-io-uring/cpp/src/main.cpp:232-247 | consumes exactly `need` completions, those posted since the last pop in order, and leaves the completion ring empty; fails only when a system call failed |
| `IoUringCopy.RunKeepsBatch` | examples/10-io-uring/cpp/src/main.cpp:349-388 | any completion, in any order its links allow, keeps: finished reads hold their chunk, finished writes have it in place, and the completions tell whether a request fell short |
| `IoUringCopy.BatchCopied` | examples/10-io-uring/cpp/src/main.cpp:349-395 | when all of a batch completed in full the destination has grown by exactly the batch |
| `IoUringCopy.QueueBatch` | examples/10-io-uring/cpp/src/main.cpp:351-378 | queues a READ linked to a WRITE per chunk, eight whole pairs or all that is left, covering the next bytes without gap or overlap; runs out of slots only on a ring of fewer than sixteen |
| `IoUringCopy.RunBatch` | examples/10-io-uring/cpp/src/main.cpp:379-394 | Ok means the destination grew by the batch and both rings are empty; IoError exactly reports a short or failed request |
| `IoUringCopy.AnyShort` | examples/10-io-uring/cpp/src/main.cpp:382-388 | the callback's flag is set exactly when some completion differs from its chunk length |
| `IoUringCopy.CopyFileUring` | examples/10-io-uring/cpp/src/main.cpp:328-397 | success means a byte-for-byte copy of the size fstat gave and no short request; a system error is that of the call that failed, an I/O error means a short request; no `no_buffer_space` on rings of sixteen or more |
| `IoUringCopy.CopyOnNewRing` | examples/10-io-uring/cpp/src/main.cpp:514-548 | on the ring of 64 entries that sync creates, wherever its counters start, a success is a byte-for-byte copy and slots never run out |
| `IoUringCopy.CopyFileRw` | examples/10-io-uring/cpp/src/main.cpp:288-326 | success means a byte-for-byte copy, with the same count as the ring engine returns; the only error is that of a call that failed other than by a signal, and it leaves a prefix |
| `SpscRing.QueueContents` | examples/26-atomics-and-lock-free/go/main.go:127-148 | in every interleaving head <= tail <= head + capacity, and cell j mod capacity holds j for every j between them |
| `SpscRing.NoRaceOnACell` | examples/26-atomics-and-lock-free/go/main.go:130-148 | the producer is never about to write a cell the consumer may still read |
| `SpscRing.AlwaysProgress` | examples/26-atomics-and-lock-free/go/main.go:131-144 | until the sum is returned some thread is not spinning, and a run has exactly 6 * items + 3 steps besides spins |
| `SpscRing.FinalSum` | examples/26-atomics-and-lock-free/go/main.go:140-156 | the returned sum is items * (items - 1) / 2 modulo 2^64 for every capacity and schedule |
| `SpscRing.StepKeepsInv` | examples/26-atomics-and-lock-free/go/main.go:127-148 | every step of either thread keeps the queue invariant |
| `WorkQueue.ExactlyOnce` | examples/25-shared-state-and-the-futex/go/main.go:137-168 | every index is not yet sent, in the channel once, or received once; nothing is sent after the channel is closed |
| `WorkQueue.FinalTotals` | examples/25-shared-state-and-the-futex/go/main.go:169-185 | at the end produced = consumed = N and the checksum is the XOR of the payloads below N, for all P, C, cap and schedules |
| `WorkQueue.NeverStuck` | examples/25-shared-state-and-the-futex/go/main.go:137-169 | no state before the end is stuck |
| `WorkQueue.WaitsOnlyThen` | examples/25-shared-state-and-the-futex/go/main.go:139-166 | the channel holds at most cap values, a producer waits exactly when it is full, a consumer exactly when it is empty and open |
| `WorkQueue.PrintedChecksum` | examples/25-shared-state-and-the-futex/go/main.go:177-185 | each bit of the printed checksum is the parity of that bit over the payloads below N |
| `WorkQueue.EveryRunEnds` | examples/25-shared-state-and-the-futex/go/main.go:137-169 | every action that does something uses up one of 3N + P + C + 1 steps |
| `WorkQueue.ChecksumOrder` | examples/25-shared-state-and-the-futex/go/main.go:177-181 | the fold of the checksum depends on which values were received, not on their order or on who received them |
| `WorkQueuePayload.SameSeedSameChecksum` | examples/25-shared-state-and-the-futex/go/main.go:35-41 | two pools with the same seed and item count print the same totals |
| `StopRace.StopLeavesNoChild` | examples/19-unix-sockets-fd-passing/go/main.go:221-235 | when stop returns, every child ever spawned has been reaped |
| `StopRace.BlockedChildWasKilled` | examples/19-unix-sockets-fd-passing/go/main.go:95-136 | while stop waits for a reaper that is blocked on a child, that child was signalled, or the kill came before its process group existed; never the latter when spawn returns with the group made |
| `StopRace.KillIsPendingOrDone` | examples/19-unix-sockets-fd-passing/go/main.go:117-131 | from the moment stop is requested, a child the reaper waits for was killed or its kill is pending in the control thread |
| `StopRace.OneChildAtATime` | examples/19-unix-sockets-fd-passing/go/main.go:50-56 | at most one child is unreaped, and restarts counts the adopted respawns |
| `StopRace.StopMovesOn` | examples/19-unix-sockets-fd-passing/cpp/src/main.cpp:405-424 | stop can always move on, unless the reaper waits for a live child that has had its kill |
| `StopRace.ReaperReturnsOnlyThen` | examples/19-unix-sockets-fd-passing/go/main.go:95-136 | the reaper gives up only when stop was requested or a spawn failed |
| `StopRace.ReaperMovesOn` | examples/19-unix-sockets-fd-passing/go/main.go:97-135 | until then it can move on unless it waits for a live child |
| `StopRace.RestartsForEver` | examples/19-unix-sockets-fd-passing/go/main.go:97-135 | while nobody asks for stop, a child that exits is reaped and followed by another, as often as it happens, in both forms |
| `StopRace.EarlyKillMisses` | examples/19-unix-sockets-fd-passing/cpp/src/main.cpp:184-196 | in the C++ program, where the child makes its own group after fork, the kill of stop can miss and leave stop waiting for a child nobody signalled |
| `StopRace.WaitsForSignalledIff` | examples/19-unix-sockets-fd-passing/go/main.go:221-235 | stop only ever waits for children it has signalled exactly when a child is in its group as soon as spawn returns |
| `SupervisorSignalfd.UnreapedAtPoll` | examples/12-signals-and-safe-handling/cpp/src/main.cpp:204-216 | at every poll the unreaped children are the running one, if any, and those whose kill was refused |
| `SupervisorSignalfd.UnreapedAtReturn` | examples/12-signals-and-safe-handling/cpp/src/main.cpp:236-272 | supervise returns with no unreaped child exactly when no kill was refused |
| `SupervisorSignalfd.DeadChildIsSeen` | examples/12-signals-and-safe-handling/cpp/src/main.cpp:257-264 | no exit is lost to coalescing: while the running child is dead and unreaped SIGCHLD is pending, and reading it reaps the child |
| `SupervisorSignalfd.RestartBudget` | examples/12-signals-and-safe-handling/cpp/src/main.cpp:200-201 | backoff is backoff_ms * 2^restarts, spawns since the start or the last reload stay within max_restarts + 1, and the word holds while its largest value fits 63 bits |
| `SupervisorSignalfd.ExitCodes` | examples/12-signals-and-safe-handling/cpp/src/main.cpp:236-272 | 0 is returned only after a shutdown signal or an exit with status 0, 1 only when the last restart is used up and its child ended otherwise |
| `SupervisorSignalfd.ExitsRestart` | examples/12-signals-and-safe-handling/cpp/src/main.cpp:257-279 | what each end of the child leads to: any signal and any status but 0 begin a backoff and use up one restart, or end the loop when none is left |
| `SupervisorSignalfd.OtherTurns` | examples/12-signals-and-safe-handling/cpp/src/main.cpp:216-256 | TERM and INT end the loop, HUP starts afresh, both after reaping the child; an elapsed backoff brings it back; an interrupted poll is repeated |
| `SupervisorSignalfd.RespawnWaitsOutBackoffIff` | examples/12-signals-and-safe-handling/cpp/src/main.cpp:205-228 | a crashed child is never brought back before its whole backoff has passed exactly when the longest backoff, backoff_ms * 2^(max_restarts - 1), is below 2^32 - 1 ms: the timeout is cast to a 32-bit int |
| `SupervisorSignalfd.BackoffPollEndsIff` | examples/12-signals-and-safe-handling/cpp/src/main.cpp:208-216 | the poll of a backoff always ends by itself exactly when the longest backoff is below 2^31 - 1 ms; from there on the timeout can be negative, which poll takes for ever |
| `SupervisorSignalfd.BackoffPollIsTight` | examples/12-signals-and-safe-handling/cpp/src/main.cpp:205-216 | below that bound the poll ends within a millisecond after the deadline, or at once when it has passed |
| `SupervisorSignalfd.RefusedReloadLeavesTwo` | examples/12-signals-and-safe-handling/cpp/src/main.cpp:190-196 | a refused kill on reload does leave two unreaped children |
| `SupervisorSignalfd.Supervisor.Turn` | examples/12-signals-and-safe-handling/cpp/src/main.cpp:236-282 | the body of the loop for each signal, in place, is the step the theorems speak of |
| `SupervisorSignalfd.Supervisor.ReadChild` | examples/12-signals-and-safe-handling/cpp/src/main.cpp:257-278 | stale notification, clean exit, giving up, or one more restart, in place |
| `SupervisorSignalfd.Supervisor.TermAndReap` | examples/12-signals-and-safe-handling/cpp/src/main.cpp:190-196 | kill and reap in place; a refused kill reaps nothing |
| `SupervisorSignalfd.Supervisor.ArmPoll` | examples/12-signals-and-safe-handling/cpp/src/main.cpp:205-216 | the poll timeout: the milliseconds left, cast to int, plus one, where a negative result waits for ever |
| `SupervisorChannels.OneToken` | examples/12-signals-and-safe-handling/go/main.go:110-128 | wait goroutines plus buffered exits are 1 with a child and 0 during a backoff or after the end; no goroutine is ever blocked on the channel |
| `SupervisorChannels.StopReceivesItsChild` | examples/12-signals-and-safe-handling/go/main.go:125-128 | stopChild has signalled the current child and receives the exit of that very child; until then that exit is on its way or the child alive |
| `SupervisorChannels.SelectReceivesCurrentChild` | examples/12-signals-and-safe-handling/go/main.go:161-174 | the exit the select receives is that of the current child, with the restart budget kept |
| `SupervisorChannels.ExitCodes` | examples/12-signals-and-safe-handling/go/main.go:140-171 | the same exit codes in the channel form |
| `SupervisorChannels.ExitsRestart` | examples/12-signals-and-safe-handling/go/main.go:161-174 | what an exit received by the select leads to |
| `SupervisorChannels.OtherTurns` | examples/12-signals-and-safe-handling/go/main.go:141-160 | shutdown, reload and timer: end over stopChild, a fresh start, the child brought back |
| `Bridge.AtMostOnce` | examples/41-capstone-fleet/go/chatterd.go:69-86 | no connection is sent the same message twice, across any number of bridge reconnects, when no node peers with itself |
| `Bridge.AtMostOnceIff` | examples/41-capstone-fleet/go/chatterd.go:69-86 | no connection is ever sent a message twice exactly when no node peers with itself |
| `Bridge.SenderNeverHearsItself` | examples/41-capstone-fleet/go/chatterd.go:142-168 | the connection that said a message is never sent it |
| `Bridge.OneHop` | examples/41-capstone-fleet/go/chatterd.go:186-202 | what a bridge connection carries was said on the node that writes it, and what a worker repeats goes to no bridge connection, even on nodes that peer with themselves |
| `Bridge.SayAddresses` | examples/41-capstone-fleet/go/chatterd.go:69-86 | a MSG is broadcast to exactly the connections joined on its node but the sender's, bridges included |
| `Bridge.HearAddresses` | examples/41-capstone-fleet/go/chatterd.go:186-202 | a DELIVER read by a worker is repeated to exactly the ordinary connections joined on the worker's node |
| `Bridge.SaidIsDelivered` | examples/41-capstone-fleet/go/chatterd.go:142-168 | whatever happens after a MSG was read, once its broadcast has finished without a failed write everybody else joined there has it |
| `Bridge.HeardIsDelivered` | examples/41-capstone-fleet/go/chatterd.go:186-202 | the same for a worker's broadcast and the ordinary clients of its node |
| `Bridge.FinishedIsDelivered` | examples/41-capstone-fleet/go/chatterd.go:83-85 | a broadcast that has finished without a failed write has reached its whole audience |
| `Bridge.BroadcastGoesOn` | examples/41-capstone-fleet/go/chatterd.go:83-85 | what is left of a broadcast can always be written, one frame at a time |
| `Bridge.BridgeReconnects` | examples/41-capstone-fleet/go/chatterd.go:170-206 | a worker that loses its connection dials its peer again |
| `Bridge.FinitelyManyBroadcasts` | examples/41-capstone-fleet/go/chatterd.go:170-207 | one MSG causes at most one broadcast per node besides its own, even on nodes that peer with themselves |
| `Bridge.EchoFreeIff` | examples/41-capstone-fleet/go/chatterd.go:170-207 | nobody ever hears their own message exactly when no node peers with itself |
| `Bridge.SelfPeerEchoes` | examples/41-capstone-fleet/go/chatterd.go:170-202 | a node that peers with itself does echo |
| `Bridge.JoinRegisters` | examples/41-capstone-fleet/go/chatterd.go:57-61 | a JOIN registers the connection on its own node and changes no other registry |
| `Bridge.LeaveDeregisters` | examples/41-capstone-fleet/go/chatterd.go:63-67 | a connection that ends is taken out of the registry, whenever that is |
| `Bridge.Hub.Collect` | examples/41-capstone-fleet/go/chatterd.go:72-81 | the collected targets are exactly the registered connections that are not excluded, each once, in whatever order the map yields them |
| `Framing.RoundTripIff` | examples/22-scaling-the-server/go/main.go:59-66 | decoding undoes encoding of a list of frames exactly when every payload fits the 16-bit length |
| `Framing.DecodedEncodesBack` | examples/22-scaling-the-server/go/main.go:97-119 | the frames decoded from any stream, encoded again, and the rest are the stream: nothing but a sound frame is taken for one |
| `Framing.FrameReader.Next` | examples/22-scaling-the-server/go/main.go:97-119 | the incremental decoder returns the first frame of buffer and reads, a desync, or the read error, and keeps the rest |
| `Framing.ChunkIndependence` | examples/22-scaling-the-server/go/main.go:97-119 | for any stream and any way to cut it into reads the loop returns the stream's frames, then the desync or the read error |
| `Framing.EveryChunkingReturnsTheFrames` | examples/22-scaling-the-server/go/main.go:97-119 | every list of encodable frames comes back whole from every chunking of its encoding |
| `Framing.Pipe.WriteFrame` | examples/41-capstone-fleet/go/proto.go:29-47 | refuses payloads over 65535 bytes before writing; else appends exactly the encoding, or loses the connection after a proper part of it |
| `Framing.Pipe.ReadFrame` | examples/41-capstone-fleet/go/proto.go:51-67 | the next frame; end of file at a frame boundary or right behind a header, an unexpected end elsewhere; a bad header; a lost connection |
| `Framing.Pipe.ReadFull` | examples/41-capstone-fleet/go/proto.go:51-62 | all the bytes asked for; end of file if there was none, or an unexpected end; a lost connection |
| `Framing.DecodersAgree` | examples/41-capstone-fleet/go/proto.go:51-67 | the blocking decoder reads the same frames from every stream as the incremental one and calls the same streams out of step; it reports end of file exactly at a frame boundary or right behind a sound header |
| `Framing.SplitDeliver` | examples/41-capstone-fleet/go/proto.go:79-86 | the parts before and after the first NUL, or none |
| `Framing.SplitUndoesDeliverIff` | examples/22-scaling-the-server/go/main.go:68-82 | splitting undoes joining exactly for nicks without a NUL |
| `Framing.DeliverUndoesSplit` | examples/41-capstone-fleet/go/proto.go:70-86 | joining undoes splitting on every payload that splits |
| `Seccomp.BuildAllowlist` | examples/33-seccomp-and-landlock/go/main.go:182-196 | the loop assembles the program the theorems speak of |
| `Seccomp.FilterMeaning` | examples/33-seccomp-and-landlock/go/main.go:182-196 | interpreted by classic BPF, the program kills foreign architectures and allows exactly the last 255 entries, for lists of any length |
| `Seccomp.DenyCarriesErrno` | examples/33-seccomp-and-landlock/go/main.go:193-193 | the deny word keeps the ERRNO action and the low 16 bits of the error number apart |
| `Seccomp.EnforcesIff` | examples/33-seccomp-and-landlock/go/main.go:189-192 | the program is an allowlist for its list exactly when every entry stands among the last 255 |
| `Seccomp.LimitOfDistinctLists` | examples/33-seccomp-and-landlock/go/main.go:190-191 | 255 entries is the exact limit for lists without repetition |
| `Seccomp.JumpsStayInside` | examples/33-seccomp-and-landlock/go/main.go:174-196 | every jump goes forward to an instruction of the program, so every run ends |
| `ByteStore.StoreRefinesMap` | examples/16-mmap-and-shared-mappings/go/main.go:90-152 | after create and any sequence of sets the bytes are in shape, read as the bounded map under the same sets, and open with the slot count create wrote |
| `ByteStore.SetIsMapUpdate` | examples/16-mmap-and-shared-mappings/go/main.go:171-202 | set updates the map at its key and keeps the shape; it fails exactly when the key is absent and every slot is used |
| `ByteStore.GetReadsMap` | examples/16-mmap-and-shared-mappings/go/main.go:259-272 | get answers from the map for every key except the empty one, which finds the first unused slot: it agrees with the map exactly for nonempty keys or a full store |
| `ByteStore.DumpIsTheSortedMap` | examples/16-mmap-and-shared-mappings/go/main.go:274-293 | dump lists exactly the map's pairs, each once, in ascending byte order of the keys |
| `ByteStore.CreatedStore` | examples/16-mmap-and-shared-mappings/go/main.go:90-116 | create leaves an empty map |
| `ByteStore.OpenFindsSlots` | examples/16-mmap-and-shared-mappings/go/main.go:118-152 | a store in shape opens with its slot count |
| `ByteStore.OpenAcceptsIff` | examples/16-mmap-and-shared-mappings/go/main.go:132-151 | open accepts exactly the files that begin with a header and have the size it calls for |
| `ByteStore.SetCommandMeaning` | examples/16-mmap-and-shared-mappings/go/main.go:237-257 | each bad argument has its own answer, a full store refuses a new key, anything else is an update of the map |
| `ByteStore.Store.Create` | examples/16-mmap-and-shared-mappings/go/main.go:103-111 | zeros with the header written over them |
| `ByteStore.OpenStore` | examples/16-mmap-and-shared-mappings/go/main.go:132-151 | accepts exactly the files with the magic and the size their slot count calls for, and shares their bytes |
| `ByteStore.Store.Scan` | examples/16-mmap-and-shared-mappings/go/main.go:172-187 | one pass finds the key's slot, else the first empty one, else none |
| `ByteStore.Store.Set` | examples/16-mmap-and-shared-mappings/go/main.go:171-202 | the bytes in place are those of the specification, and unchanged on failure |
| `ByteStore.Store.Put` | examples/16-mmap-and-shared-mappings/go/main.go:191-196 | clear and two copies in place leave the one slot with the padded pair |
| `ByteStore.Store.Get` | examples/16-mmap-and-shared-mappings/go/main.go:265-271 | the first slot with the key, or not found |
| `ByteStore.Store.Dump` | examples/16-mmap-and-shared-mappings/go/main.go:281-287 | collects the used slots and sorts them |
| `ByteStore.SetCommand` | examples/16-mmap-and-shared-mappings/go/main.go:237-257 | bad arguments are refused before the file is opened; a failure leaves the file alone |
| `LogLines.RelayLosesNothing` | examples/18-pipes-fifos-splice/cpp/src/main.cpp:231-258 | for every chunking the record bodies followed by the buffer are the stream without its newlines, and the buffer stays within 64 KiB |
| `LogLines.RecordsAreLinesIff` | examples/18-pipes-fifos-splice/cpp/src/main.cpp:231-258 | after flush the records are the stream's lines exactly when at no read boundary with bytes still to come an unfinished line of over 64 KiB waits |
| `LogLines.ShortLinesAreRecords` | examples/18-pipes-fifos-splice/cpp/src/main.cpp:231-258 | when no line exceeds 64 KiB every chunking gives exactly the stream's lines |
| `LogLines.LongLineDependsOnChunking` | examples/18-pipes-fifos-splice/cpp/src/main.cpp:242-246 | a line one byte longer is kept or cut depending on where the reads fell |
| `LogLines.LogReadsBack` | examples/18-pipes-fifos-splice/cpp/src/main.cpp:261-276 | each stream's bodies come back, in order, from the tagged lines of the shared log, from behind what was there before |
| `LogLines.CapturedLinesReadBack` | examples/18-pipes-fifos-splice/cpp/src/main.cpp:281-327 | a stream in any chunks, interleaved in any way with the other in the shared log, comes back from it line by line exactly when no long line waited |
| `LogCapture.LineRelay.Feed` | examples/18-pipes-fifos-splice/cpp/src/main.cpp:231-248 | every line that is now complete is logged, an overlong partial line is cut; a failed write leaves a proper part of the records |
| `LogCapture.LineRelay.Flush` | examples/18-pipes-fifos-splice/cpp/src/main.cpp:251-258 | a trailing partial line is logged |
| `LogCapture.LineRelay.Emit` | examples/18-pipes-fifos-splice/cpp/src/main.cpp:261-276 | exactly one record is appended through short and interrupted writes, unless a write fails |
| `LogCapture.DrainOnce` | examples/18-pipes-fifos-splice/cpp/src/main.cpp:295-311 | one read: nothing of the stream is missing from relay and pipe, end of file closes and flushes, and the other stream's records are untouched |
| `LogCapture.Capture.DrainToEof` | examples/18-pipes-fifos-splice/cpp/src/main.cpp:315-327 | unless a read or a write fails, afterwards both pipes are closed and every byte the child wrote has been through its relay into the log |
| `LogTail.Tail.RelaySplice` | examples/18-pipes-fifos-splice/cpp/src/main.cpp:563-583 | the offset moves by exactly what the FIFO took, and not at all on errors |
| `LogTail.Tail.RelayRw` | examples/18-pipes-fifos-splice/cpp/src/main.cpp:588-620 | short writes and errors leave the offset at the first byte the FIFO did not take |
| `LogTail.Tail.Serve` | examples/18-pipes-fifos-splice/cpp/src/main.cpp:659-682 | one reader: the fallback from splice, idling and detaching lose and repeat nothing; it ends only by the stop signal, a reader that has gone, or a failing call, whose error it gives |
| `LogTail.Tail.CmdTail` | examples/18-pipes-fifos-splice/cpp/src/main.cpp:648-686 | over any number of readers, what the FIFO took in all sessions is the log up to the resume offset; every reader that goes is reported, and the program ends only by the stop signal or a failing call |
| `LogTail.SessionsTileTheLog` | examples/18-pipes-fifos-splice/cpp/src/main.cpp:648-686 | at every point of a tail each reader has been given the part of the log that begins where the last one's ended, up to the resume offset |
| `LogTail.ReadersSeeTheFirstLines` | examples/18-pipes-fifos-splice/cpp/src/main.cpp:648-686 | at every point the lines all readers together have complete are exactly the log's lines that end before the resume offset |
| `Debounce.MergeMeaning` | examples/09-event-loops-epoll-inotify/cpp/src/main.cpp:226-237 | merged kinds are deleted iff the last is, created iff the first is and none is deleted, else modified |
| `Debounce.ClassifyOne` | examples/09-event-loops-epoll-inotify/cpp/src/main.cpp:210-221 | the kind of each event the watch asks for |
| `Debounce.ClassifyTogether` | examples/09-event-loops-epoll-inotify/cpp/src/main.cpp:210-221 | when one event carries several, a creation outweighs a deletion and both a modification |
| `Debounce.PrintedKindIsTheFold` | examples/09-event-loops-epoll-inotify/cpp/src/main.cpp:268-279 | every printed kind is what its path's events since its last line add up to |
| `Debounce.BurstIsOneLine` | examples/09-event-loops-epoll-inotify/cpp/src/main.cpp:354-393 | two events of a path less than 100 ms apart are never separated by a line before the exit |
| `Debounce.LinesNeedEvents` | examples/09-event-loops-epoll-inotify/cpp/src/main.cpp:268-279 | between two lines for a path there is an event of it |
| `Debounce.ReadKeeps` | examples/09-event-loops-epoll-inotify/cpp/src/main.cpp:370-379 | taking an event keeps: pending is the fold of what is unprinted, due 100 ms after the last event |
| `Debounce.PrintKeeps` | examples/09-event-loops-epoll-inotify/cpp/src/main.cpp:271-274 | printing a due path, or any path at the exit, keeps it too |
| `Debounce.Watcher.Take` | examples/09-event-loops-epoll-inotify/cpp/src/main.cpp:362-380 | unnamed and unclassified events are skipped, every other one is recorded |
| `Debounce.Watcher.Flush` | examples/09-event-loops-epoll-inotify/cpp/src/main.cpp:268-279 | prints exactly the due paths, or all, in ascending order of names, each with its pending kind, and keeps the others |
| `Debounce.Watcher.ArmTimer` | examples/09-event-loops-epoll-inotify/cpp/src/main.cpp:333-341 | the timer is set to the earliest of the deadline and the due times, never to zero |
| `Debounce.Watcher.DrainInotify` | examples/09-event-loops-epoll-inotify/cpp/src/main.cpp:354-382 | every event read with a name and a kind is taken, in order, and nothing becomes overdue |
| `Debounce.Watcher.OnTimer` | examples/09-event-loops-epoll-inotify/cpp/src/main.cpp:383-393 | after the timer has fired nothing that was due is pending, and nothing at all once the deadline has passed |
| `Debounce.Watcher.EpollWait` | examples/09-event-loops-epoll-inotify/cpp/src/main.cpp:345-351 | the program goes to sleep only with nothing overdue since the timer last fired |
| `Debounce.Watcher.Handle` | examples/09-event-loops-epoll-inotify/cpp/src/main.cpp:352-405 | what is ready is handled in order, up to the one that ends the program |
| `Debounce.Watcher.Watch` | examples/09-event-loops-epoll-inotify/cpp/src/main.cpp:330-405 | over the whole run the history is good and holds every event delivered; at a timeout or signal every path read has been printed since its last event; it fails only when a call does |

## Left out

- Update in place of the concurrent protocols (chapters 12 in Go, 19, 20, 25, 26, 41): they are state machines on values, since two threads cannot share a Dafny object; the step functions follow the code instruction by instruction, and aliasing between threads is not modelled. The single-threaded pieces of them (`Mapping`, `Hub`, `Supervisor`, readers and writers) are methods.
- Weak memory: steps are sequentially consistent, as the Go atomics are; acquire and release orderings of the C++ programs are not told apart from it. Plain byte copies are one step per byte.
- Time limits and fairness: the seqlock's retry cap and the watcher's 30-second deadline lead to a failed state, only they do, and nothing is proved about how often; liveness is stated as progress of each step, as what one process reaches by itself, or as absence of stuck states, not as a fair-scheduling theorem.
- EINTR loops run for a finite but arbitrary number of interruptions (`patience`).
- Opening, creating, mapping, stat'ing and closing of files and sockets, and the errors of those calls; clocks, pids and descriptors beyond open and closed; pid reuse.
- Shared-memory files: openShm on an existing file, a second serve that clears the page under live watchers, the message-queue channel and the bench command.
- IoUringCopy.CopyFileUring: starts from an idle ring whose completion side is at least as large as its submission side, as ring setup gives, and from an empty destination file; the masks are remainders by a size that divides 2^32.
- IoUringRing.Ring.TryGetSqe: acquire and release accesses to the ring words are plain accesses.
- SupervisorSignalfd.RestartBudget: backoff is a mathematical integer; the 64-bit word of the backoff is covered by the stated bound.
- SupervisorSignalfd.RespawnWaitsOutBackoffIff: the int that the timeout is cast to is modelled, with an addition past its largest value taken to wrap; the 64-bit nanosecond count of the deadline is not, so a backoff of more than 2^63 nanoseconds is early here by the cast and in the program perhaps by overflow. A --max-restarts that its own cast makes negative acts as 0.
- SupervisorSignalfd: decoding and reporting of wait statuses; a failing poll, read or waitpid ends the program and is not modelled.
- SupervisorChannels: how long the backoff timer of the Go form runs; its firing is an event.
- StopRace: the status command, start times and log lines, and a failing waitpid other than EINTR; that a signalled child exits is up to the child.
- Bridge.FinitelyManyBroadcasts: bounds broadcasts; each of them writes at most one frame to a connection, so the frames of one message are finitely many, and without a self-peer at most the connections, by `Bridge.AtMostOnce`.
- Bridge: the nickname that a relay appends the node to, the JOIN frame as bytes, and frames of other types, which are skipped.
- Framing.Pipe.ReadFrame: an error inside the payload is the cause that the program wraps in "read payload"; every failure of the connection is one error, after which it stays lost.
- Framing.ChunkIndependence: bytes that come in the same read as an error are buffered but not decoded, as in the code; a reader that returns neither data nor an error for ever is not modelled.
- WorkQueuePayload.SameSeedSameChecksum: payload is used as any function of seed and index; that it is a bijection is not stated. The deliberately racy mode is not modelled.
- ByteStore.Store.Dump: sorting is a function, the contract of sort.Slice on distinct keys; which order it gives equal keys of a damaged file is not modelled. msync and its failure are left out.
- LogCapture.Capture.DrainToEof: a pipe's content is what its writers will still put in before they close; poll, the child's exit and the restart policy of that supervisor, the same as in chapter 12, are left out.
- LogTail.Tail.CmdTail: bytes that the FIFO took but a reader left unread when it went away are the kernel's to drop; the log is only appended to, never truncated.
- LogTail.Tail.Serve: a write that takes no byte does not occur on a FIFO in blocking mode.
- Debounce.Watcher.Watch: overflow of the inotify queue, and events still unread when the program exits; spurious timer wake-ups are allowed; a failing timerfd_settime is taken together with a failing epoll_wait. The snapshot and diff commands are left out.
- Debounce.BurstIsOneLine: times are those at which the program read the events, as in the code.
- Landlock, capabilities, telemetry, Lua, containers, KVM, benchmarks, argument parsing, usage texts and the repository's own scripts: easy members or outside what a model can say.
- The Rust programs and the remaining chapters repeat the same logic.
