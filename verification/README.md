# OneBarrier: a verified model

OneBarrier applies a totally ordered stream of operations exactly once, keeps a durable log and a
snapshot, and rebuilds its state after a crash. This project models its core in Dafny and proves what
the design promises, for every input, every interleaving and every crash point. `dafny verify
dfyconfig.toml` checks everything.

| part | modules |
|---|---|
| bytes, decimal and UTF-8 text, ordered maps | `Wrappers`, `Bytes`, `Text`, `Ordering` |
| operations, the key-value store, their codecs | `State` (values), `Codec` (the loops and objects) |
| engine meaning, durable log, recovery | `EngineSpec`, `Durable`, `Recovery` |
| engine, one disk operation at a time | `CrashRuns`, `CrashLimits`, `EngineMachine` (the TLA+ crash machine), `Engine` (the objects) |
| fabric and replicas | `TotalOrder`, `TotalOrderProgress` (1Pipe barriers), `Composition`, `ClusterRecovery`, `Cluster` |
| linearizability checker | `Linearizability` |
| deterministic thread scheduler | `Scheduler`, `SchedulerData`, `SchedulerProgress`, `SchedulerLimits` |
| server executor, protocols on top of it | `Server`, `Resp`, `RespIo`, `StreamLog` |
| record and replay shim | `Capture`, `VirtualClock` |
| queue simulator | `QueueSim` |

How the source's forms are kept: objects that update their fields are classes (`Engine`, `DurableStore`,
`KvStore`, `Reader`, `Input`, `Shim`, `Clock`), loops are methods with invariants, each proved against a
specification function. The concurrent protocols (scheduler, fabric, pub/sub, server, crash runs) are state
machines whose steps are the atomic actions of the code; a run is any sequence of steps.

The main assumptions, each shown to be needed where the code depends on it:

- Lengths. The formats store lengths in 16 or 32 bits and saturate silently. The round trips are stated as
  equivalences with the fitting predicates (`OpFits`, `KvFits`, `VolFits`).
- Torn tails. `recover` does not cut off a torn tail and `append` reopens in append mode. `CrashRuns`
  allows a torn append at any time, and any later step except another append until a snapshot has
  removed the log; `ReopenSafe` and `TornTailLosesAck` show that this exception is exactly what is needed.
- State transfer is from a peer that has accepted at least as much of the same sequence. `SurvivorExtendsVictim`
  derives this for replicas behind the fabric, and `ImportedAlone` says exactly when a transfer cannot mix states.
- `Engine::create` is used on an empty directory.

Where the code and its own text disagree, the model follows the code:

- The header of `durable.rs` says recovery is idempotent wherever the crash lands. With a crash inside an
  append followed by further appends it is not (`CrashLimits.TornTailLosesAck`).
- `bench.rs` says recovery replays at most one interval. After c crashes it can be c intervals
  (`CrashLimits.BoundReached`), and never more (`CrashRuns.ReplayBound`).
- `OneBarrierEngine.tla` admits only the next sequence number of a client; the Rust code also accepts gaps,
  and so does `EngineMachine`.
- `detsched.c` says nested locking keeps the order of top-level entries deterministic. It does for programs whose
  control does not depend on data (`Scheduler.SameOrder`), and for data-dependent programs without nesting
  (`SchedulerData.SameRun`), but not for both at once (`SchedulerLimits.NestedOrdersDiffer`).

## Model

| member | source | states |
|---|---|---|
| `CrashRuns.CrashSafety` | crates/onebarrier/src/lib.rs:91-165 | For every run of deliveries (new, duplicate or with sequence gaps), snapshots, state transfers, crashes between any two disk operations and recoveries: the running state is the exactly-once replay of the operations whose append completed, a crash at this very moment would recover to that same state, and every answer ever given is what its operation returns at its place in that history, none given twice |
| `CrashRuns.NextKeeps` | crates/onebarrier/src/durable.rs:46-77 | Each single step (apply, append, torn append, partial or whole temporary write, rename, log removal that succeeds or fails, crash, recover) keeps the invariant that snapshot, stale records, live log suffix and torn tail together stand for the history |
| `CrashRuns.RunKeeps` | crates/onebarrier/src/lib.rs:91-165 | The invariant holds after every event sequence, disabled events being skipped |
| `CrashRuns.ReplayBound` | crates/onebarrier/src/lib.rs:107-118 | Recovery after the c-th crash since the last installed snapshot re-applies at most c times the interval, although the window counter restarts modulo the interval |
| `CrashRuns.DeliverAnswers` | crates/onebarrier/src/lib.rs:124-141 | Without a crash a new operation is applied, joins the durable history and is answered exactly once; below the window the log grows by its record and the counter by one; the operation that fills the window leaves a snapshot of the new state, no log if it could be removed, and the counter at 0; a known one changes nothing |
| `CrashRuns.SnapshotCompletes` | crates/onebarrier/src/lib.rs:159-165 | An undisturbed snapshot leaves state and history alone and all of it in the snapshot file |
| `CrashRuns.ImportCompletes` | crates/onebarrier/src/lib.rs:192-197 | An undisturbed state transfer leaves the victim with the peer's state and history, in memory and on disk |
| `CrashLimits.BoundReached` | crates/onebarrier/src/bench.rs:219 | The replay bound is tight: for every interval and every c some run of crashes re-applies exactly c whole intervals, so the comment that recovery replays at most one interval is false for c > 1 |
| `CrashRuns.ImportAtomic` | crates/onebarrier/src/lib.rs:192-197 | A crash at any step inside a state transfer recovers to exactly the old history or exactly the peer's state, the latter from the rename on, also while the old log still lies beside the new snapshot |
| `CrashLimits.TornTailLosesAck` | crates/onebarrier/src/durable.rs:46-60 | From every good state: tear one byte of an append, recover, deliver and answer another operation, crash, recover, and the answered operation is gone. This is why runs exclude appending behind a torn tail |
| `CrashLimits.StrayByteHidesNext` | crates/onebarrier/src/durable.rs:100-110 | One stray byte in front of a record makes the log reader drop that record and keep only what precedes it |
| `Recovery.ReopenSafe` | crates/onebarrier/src/durable.rs:47-48 | Reopening a log in append mode is safe for every later sequence of operations if and only if nothing was torn |
| `Recovery.ImportedAlone` | crates/onebarrier/src/lib.rs:192-197 | Between the rename of an imported snapshot and the removal of the old log, recovery gives the imported state if and only if that state covers every operation in the old log; otherwise it gives a mix |
| `Durable.ReadLogPrefix` | crates/onebarrier/src/durable.rs:92-112 | On any byte prefix of an appended log the reader returns exactly the records wholly inside it, in order |
| `Durable.ReadTorn` | crates/onebarrier/src/durable.rs:104-107 | Whole records followed by any cut-off record read back as the whole records |
| `Durable.AppendBehindTorn` | crates/onebarrier/src/durable.rs:46-60 | A record appended behind a torn tail whose first byte differs from its own is misread |
| `Recovery.RecoversHistory` | crates/onebarrier/src/lib.rs:104-119 | Snapshot plus deduplicated log replay rebuilds exactly the replay of the history, whatever stale records and torn tail the files contain |
| `Recovery.ReplaysSuffix` | crates/onebarrier/src/lib.rs:107-117 | The number of records recovery re-applies is exactly the length of the history after the snapshot |
| `Recovery.WindowLaw` | crates/onebarrier/src/lib.rs:116-117 | The window counter resumes at what the replay count exceeds the largest multiple of the interval by |
| `Recovery.SavePoints` | crates/onebarrier/src/durable.rs:63-77 | At every point of the snapshot installation the files recover to the old history or to the one being saved, and never to anything else |
| `Recovery.HoldsAppend` | crates/onebarrier/src/durable.rs:46-60 | Appending a record to files that stand for a history makes them stand for the history with that operation |
| `Recovery.HoldsTear` | crates/onebarrier/src/durable.rs:46-60 | A cut-off append leaves the history the files stand for unchanged |
| `Recovery.HoldsRename` | crates/onebarrier/src/durable.rs:72-72 | Renaming the new snapshot into place turns all old log records into stale ones that the snapshot covers |
| `Recovery.HoldsDrop` | crates/onebarrier/src/durable.rs:74-75 | Removing the covered log changes nothing about the history the files stand for |
| `EngineMachine.RunRefinesMachine` | spec/OneBarrierEngine.tla:61-135 | Every engine run without state transfers, at the grain of single disk operations, is a run of the atomic crash machine of the TLA+ specification (Deliver, Snapshot, Crash, Recover; without its bounds, for any store, and with sequence gaps allowed); with transfers it is a run of that machine extended by a transfer step |
| `EngineMachine.EngineRefinesMachine` | spec/OneBarrierEngine.tla:75-127 | Every engine step outside a state transfer is one step of the atomic machine or invisible to it; with transfers it is a step of the extended machine |
| `EngineMachine.MachineRunSafe` | spec/OneBarrierEngine.tla:137-155 | In every state of every run of the atomic machine, extended or not, the live state is the acknowledged history applied exactly once, and snapshot plus log hold all of it |
| `EngineMachine.MachineSafe` | spec/OneBarrierEngine.tla:129-133 | Every step of the atomic machine keeps that invariant |
| `EngineMachine.RenameIsTransfer` | crates/onebarrier/src/lib.rs:192-197 | The rename of a peer's state is the extended machine's atomic transfer step |
| `EngineMachine.OwnSnapshotIsSnapshot` | spec/OneBarrierEngine.tla:90-96 | The rename of the engine's own snapshot is the machine's atomic Snapshot step |
| `Engine.DurableStore.Append` | crates/onebarrier/src/durable.rs:46-60 | The log grows by exactly one encoded record; the recorded intermediate disk states are the record cut off at every byte |
| `Engine.DurableStore.WriteSnapshot` | crates/onebarrier/src/durable.rs:63-77 | The recorded disk states are the temporary file cut off at every byte, the rename, and the removal of the log, which may succeed or fail |
| `Engine.DurableStore.ReadLog` | crates/onebarrier/src/durable.rs:92-112 | The header/body loop returns the records of the log value, stopping cleanly at a torn tail |
| `Engine.Engine.constructor` | crates/onebarrier/src/lib.rs:73-86 | A fresh engine over an empty directory stands for the empty history |
| `Engine.Engine.Recover` | crates/onebarrier/src/lib.rs:91-119 | Started over files that stand for a history, the engine comes up in the replay of exactly that history, with the replay count and the window counter of the code |
| `Engine.Engine.Restart` | crates/onebarrier/src/lib.rs:104-117 | Loading the snapshot and replaying the log yields the recovery value of the files, whatever they contain |
| `Engine.Engine.ReplayLog` | crates/onebarrier/src/lib.rs:108-114 | The replay loop applies every decodable record through deduplication and counts those that took effect |
| `Engine.Engine.ApplyDedup` | crates/onebarrier/src/lib.rs:145-156 | A known operation changes nothing and yields no output; a new one takes effect once, raises its client's mark and the horizon |
| `Engine.Engine.Deliver` | crates/onebarrier/src/lib.rs:124-141 | The object ends exactly where the step-by-step machine does: window counter, snapshot file, log and statistics included. A duplicate is suppressed without touching the disk; a new operation joins the history, and every disk state on the way, writes cut off at any byte included, recovers to the state before it or after it |
| `Engine.Engine.Snapshot` | crates/onebarrier/src/lib.rs:159-165 | The object ends where the machine's snapshot steps do; the state does not change, and neither does what any intermediate disk state recovers to |
| `Engine.Engine.LoadSnapshot` | crates/onebarrier/src/lib.rs:216-230 | The state becomes the decoded snapshot, or stays as it was when the bytes are too short |
| `Engine.Engine.ImportState` | crates/onebarrier/src/lib.rs:192-197 | Afterwards the engine is the peer, exactly as after the machine's transfer steps, and every disk state on the way recovers to the old state or to the peer's |
| `Engine.Engine.MaxClient` | crates/onebarrier/src/lib.rs:177-179 | No client id above the result has ever been applied, and the result has, unless there is none |
| `Engine.EncodeSnapshot` | crates/onebarrier/src/lib.rs:202-214 | The loops over marks and entries produce the snapshot format of the whole engine state |
| `Engine.DecodeSnapshot` | crates/onebarrier/src/lib.rs:216-230 | Decoding agrees with the snapshot format for every byte string, short and cut-off ones included |
| `EngineSpec.ReferenceApply` | crates/onebarrier/src/lib.rs:236-247 | The oracle loop computes the store of the exactly-once replay |
| `EngineSpec.AppliedOnce` | crates/onebarrier/src/lib.rs:145-151 | In a history of accepted operations no client and sequence number occur twice; a client's numbers strictly increase |
| `EngineSpec.ReplayCovers` | crates/onebarrier/src/lib.rs:88-90 | After a replay every one of its operations is known, so replaying any of them again is a no-op |
| `EngineSpec.VolRoundTrip` | crates/onebarrier/src/lib.rs:202-230 | Loading a saved engine snapshot into any engine gives back exactly the saved state if and only if the sizes fit the format |
| `State.OpRoundTrip` | crates/onebarrier/src/state.rs:70-147 | Decoding inverts encoding, whatever bytes follow, if and only if the operation's lengths fit the format |
| `State.KvRoundTrip` | crates/onebarrier/src/state.rs:226-254 | A store comes back from its snapshot if and only if its sizes fit the format |
| `State.SetLaw` | crates/onebarrier/src/state.rs:192-195 | After a Set the key holds the value and every other key is as before |
| `State.DelLaw` | crates/onebarrier/src/state.rs:206-206 | After a Del the key is gone, every other key is as before, and the reply is 1 if and only if it was there |
| `State.GetLaw` | crates/onebarrier/src/state.rs:207-207 | A Get changes nothing and returns exactly what is stored |
| `State.IncrLaw` | crates/onebarrier/src/state.rs:196-205 | An Incr stores and answers, as decimal text that reads back, the stored integer or 0 plus the delta, modulo 2^64, and leaves every other key alone |
| `State.TxnLaw` | crates/onebarrier/src/state.rs:208-222 | After a Txn each key is as its last write says, deleted if that write deletes, and as before if no write names it; the reply is the number of writes |
| `State.OpLayout` | crates/onebarrier/src/state.rs:69-84 | The numbers of the kinds and where tag, client, sequence number, key length (saturating) and key stand |
| `State.WriteLayout` | crates/onebarrier/src/state.rs:94-106 | Key length, key, and 1 with a value or 0 for a delete, for each write of a transaction |
| `State.EntryLayout` | crates/onebarrier/src/state.rs:229-235 | Key length, key, value length, value, for each entry of a store snapshot |
| `EngineSpec.MarksLayout` | crates/onebarrier/src/lib.rs:206-209 | Twelve bytes per mark: client id, then highest sequence number |
| `EngineSpec.ClientsAscend` | crates/onebarrier/src/lib.rs:206-209 | The marks are listed by ascending client id |
| `Durable.RecordLayout` | crates/onebarrier/src/durable.rs:45-54 | Where timestamp, length (saturating) and operation bytes of a log record stand |
| `EngineSpec.SnapshotLayout` | crates/onebarrier/src/lib.rs:202-214 | Where horizon, number of marks and store of a snapshot stand |
| `Bytes.LittleEndian` | crates/onebarrier/src/state.rs:80-84 | The least significant byte of every length and number comes first |
| `Ordering.LexLaw` | crates/onebarrier/src/state.rs:160-163 | Keys are ordered by the first differing byte, a prefix before its extensions |
| `Text.Utf8Law` | crates/onebarrier/src/state.rs:118-118 | Text is accepted if and only if it is the encoding of some sequence of Unicode scalar values |
| `Text.WsFrontLaw` | crates/onebarrier/src/state.rs:170-172 | Leading white space is recognised exactly by the Unicode property of the first character |
| `Text.WsBackLaw` | crates/onebarrier/src/state.rs:170-172 | Trailing white space is recognised exactly by the Unicode property of the last character |
| `Text.ParsePadded` | crates/onebarrier/src/state.rs:170-172 | A decimal number between any ASCII white space reads as that number |
| `Text.ParseExact` | crates/onebarrier/src/state.rs:170-172 | Whatever reads as a number is an optional sign and at least one digit with that value |
| `State.IncrCounter` | crates/onebarrier/src/state.rs:196-205 | An increment turns the decimal text of n into that of n + 1 and leaves every other key alone |
| `Codec.Encode` | crates/onebarrier/src/state.rs:70-110 | The push-by-push encoder produces the wire format of the operation |
| `Codec.Decode` | crates/onebarrier/src/state.rs:112-147 | The cursor-based decoder agrees with the wire format on every byte string, errors included |
| `Codec.ReadStore` | crates/onebarrier/src/state.rs:239-254 | The restore loop agrees with the store format on every byte string, stopping at the first short field |
| `Codec.KvStore.Apply` | crates/onebarrier/src/state.rs:190-224 | The new contents and the reply of every kind of operation, a transaction's writes in order |
| `Codec.KvStore.Snapshot` | crates/onebarrier/src/state.rs:226-237 | The loop over the map writes the store format in key order |
| `Bytes.Reader.Take` | crates/onebarrier/src/state.rs:284-288 | Reads exactly n bytes and advances, or fails and stays put |
| `Text.ParseDecimal` | crates/onebarrier/src/state.rs:196-203 | Printing an i64 and reading it back through UTF-8 check, trim and parse gives the same number |
| `Linearizability.IsLinearizable` | crates/onebarrier/src/linearizability.rs:28-40 | True if and only if every interval is sane and some permutation of the history respects real-time order and lets every read return the last value written before it |
| `Linearizability.RunsIffRegister` | crates/onebarrier/src/linearizability.rs:42-53 | Stepping a register through an order succeeds if and only if every read returns the value of the last write before it, or the initial value if there is none |
| `Linearizability.Search` | crates/onebarrier/src/linearizability.rs:55-100 | The backtracking search returns true exactly when the remaining operations can be finished, for every failure memo that holds only failed positions, and keeps the memo that way; it terminates |
| `Linearizability.Candidates` | crates/onebarrier/src/linearizability.rs:73-84 | Stopping at the first remaining return collects exactly the operations that nothing remaining precedes in real time |
| `Linearizability.BuildEntries` | crates/onebarrier/src/linearizability.rs:29-35 | Exactly one call and one return per operation, each once, in time order with calls before returns at ties |
| `Linearizability.FinishIffLinearization` | crates/onebarrier/src/linearizability.rs:25-27 | Finishing the search space is equivalent to the existence of a linearization |
| `TotalOrder.NextKeeps` | spec/OnePipeTotalOrder.tla:66-120 | Send, Tick, Receive, LearnBarrier and Deliver each keep the inductive invariant, for any set of processes and unbounded clocks |
| `TotalOrder.Consistent` | spec/OnePipeTotalOrder.tla:128-144 | In every reachable state each receiver's deliveries are strictly increasing and downward-closed in (timestamp, sender) |
| `TotalOrder.OneIsPrefix` | spec/OnePipeTotalOrder.tla:134-160 | Of any two receivers' delivery sequences one is a prefix of the other |
| `TotalOrderProgress.EveryMessageDelivered` | spec/OnePipeTotalOrder.tla:66-120 | In every reachable state every sent message can still be delivered to every receiver |
| `TotalOrderProgress.SendIsNew` | spec/OnePipeTotalOrder.tla:66-72 | A process can always send; what it sends is new, later than all it sent or delivered before, and its recorded past is exactly those |
| `TotalOrderProgress.PastStays` | spec/OnePipeTotalOrder.tla:66-72 | The causal past recorded for a message never changes |
| `TotalOrder.SendsLater` | spec/OnePipeTotalOrder.tla:146-150 | Whatever a process sends after delivering a message has a larger timestamp |
| `TotalOrder.CutIsConsistent` | spec/OnePipeTotalOrder.tla:146-150 | Every timestamp cut contains the whole causal past, over chains of any length, of every message it contains |
| `Composition.FeedIsPrefix` | crates/onebarrier/src/lib.rs:145-156 | An engine's state depends only on how far its feed has come, not on what was redelivered on the way |
| `Composition.InOrderFeeds` | crates/onebarrier/src/lib.rs:145-156 | Handing over a delivery sequence once, in order, is a feed that comes all the way |
| `Composition.Repeats` | crates/onebarrier/src/lib.rs:145-156 | A feed may at any time repeat what it has handed over, and stays where it is |
| `Composition.EnginesAgree` | spec/OnePipeTotalOrder.tla:107-144 | Engines behind any two receivers hold the same state, marks and horizon whenever they have consumed equally many messages |
| `Composition.LaggardCatchesUp` | crates/onebarrier/src/lib.rs:145-156 | A lagging engine that applies the missing suffix, with any redelivery, ends in the leader's state |
| `Composition.LeaderExtendsLaggard` | crates/onebarrier/src/cluster.rs:323-331 | What the engine that consumed less accepts is a prefix of what the other accepts |
| `ClusterRecovery.HistoryIsTaken` | crates/onebarrier/src/cluster.rs:323-325 | Whatever a replica was fed, with any redelivery, and at whichever disk operations it crashed, its durable history is what is accepted of some prefix of its delivery sequence, and its files recover to the replay of that prefix |
| `ClusterRecovery.SurvivorExtendsVictim` | crates/onebarrier/src/cluster.rs:323-325 | Of two replicas behind any two receivers, the durable history of the one that is behind is a prefix of the other's |
| `ClusterRecovery.VictimCatchesUp` | crates/onebarrier/src/cluster.rs:323-331 | A recovered victim that imports a survivor's state ends in exactly that state, and a crash at any step of the transfer leaves the victim's own prefix or the survivor's whole state |
| `ClusterRecovery.NextMessage` | crates/onebarrier/src/lib.rs:124-141 | An idle replica can always take its next message, through the snapshot if it fills the window, and is idle again afterwards |
| `ClusterRecovery.ReplicaKeeps` | crates/onebarrier/src/cluster.rs:323-331 | Feeding, redelivery, every disk step, crash and recovery keep that relation between history and delivery sequence |
| `Composition.TakenReplays` | crates/onebarrier/src/lib.rs:145-156 | The accepted operations alone, each of them new when it comes, rebuild the state of the whole stream |
| `Scheduler.StepKeeps` | interpose/detsched.c:75-99 | Every atomic step of every thread, including one load at a time inside the gate's scan, keeps the order invariant, for programs whose next step may depend on all they have read |
| `Scheduler.OneInTurn` | interpose/detsched.c:75-99 | In every interleaving at most one thread is between passing the gate and advancing its clock |
| `Scheduler.AcquiresInOrder` | interpose/detsched.c:129-135 | Every completed interleaving acquires at top level in ascending (clock, slot) order, each turn of its threads exactly once |
| `Scheduler.SameOrder` | interpose/detsched.c:7-13 | With any nesting: if no program's control depends on the data, any two completed interleavings have the same top-level acquisition sequence |
| `SchedulerData.SameRun` | interpose/detsched.c:7-13 | With control that may depend on everything read under the locks: if no program nests its locks, any two completed interleavings enter the same critical sections in the same order, find the same values in them and leave every thread with the same past |
| `SchedulerData.SameLog` | interpose/detsched.c:7-13 | The programs alone determine the complete log of critical sections |
| `SchedulerData.StepData` | interpose/detsched.c:129-163 | Every step keeps that the log of sections accounts for what each thread has read and for the data under every free mutex |
| `SchedulerLimits.NestedOrdersDiffer` | interpose/detsched.c:123-134 | With both nesting and data-dependent control, two completed interleavings of the same two programs differ in their top-level acquisitions |
| `SchedulerProgress.SomeoneMoves` | interpose/detsched.c:123-135 | While any thread is unfinished, some continuation leaves strictly less work, for mutexes taken in rank order and released before exit, whatever the programs read |
| `SchedulerProgress.NeverStuck` | interpose/detsched.c:123-128 | Whatever has been scheduled so far, the run can be completed |
| `SchedulerProgress.StepOwns` | interpose/detsched.c:159-163 | Every step keeps that the real mutexes are held by exactly the threads whose programs hold them |
| `Server.NeverWronglySuppressed` | crates/onebarrier/src/server.rs:61-91 | Across any crashes and restarts, a request on a live connection, numbered with any gap after its last one, is never taken for a duplicate |
| `Server.TimestampsRise` | crates/onebarrier/src/server.rs:74-81 | Across any crashes and restarts, the timestamps of the durable history strictly increase |
| `Server.FreshConnection` | crates/onebarrier/src/server.rs:151-163 | A new connection is numbered above every client the engine knows, and its first request is accepted |
| `Server.AfterBoot` | crates/onebarrier/src/server.rs:68-74 | After a start the first id follows the largest known client and the first stamp is at least two past the horizon |
| `Server.RequestIsNew` | crates/onebarrier/src/server.rs:151-163 | Ids above every recovered client and increasing numbers per connection, with or without gaps, make each request new and stamped past the horizon, with the larger of executor clock and shared tick |
| `Cluster.CorrectIffComplete` | crates/onebarrier/src/cluster.rs:328-331 | After any interleaving with any redelivery, each client's operations first arriving in order, a replica's entries equal the expected state if and only if there is a client, every key is hit, and every client's operations have all arrived |
| `Cluster.PrefixConsistent` | crates/onebarrier/src/cluster.rs:328-329 | After any part of the workload every entry of a replica is a key of the expected state with a value at most the expected one |
| `Cluster.RoundRobin` | crates/onebarrier/src/cluster.rs:79-91 | Of n operations of a client every key gets n / keys, and the first n mod keys keys one more |
| `Cluster.FillAll` | crates/onebarrier/src/cluster.rs:166-173 | Whatever has arrived so far, the workload can be completed |
| `Cluster.StoreIsTally` | crates/onebarrier/src/cluster.rs:77-81 | The store is at every moment the tally, key by key, of the operations that have arrived |
| `Cluster.ExpectedState` | crates/onebarrier/src/cluster.rs:84-97 | The nested loops and the sort return every key once with the operations of all clients on it, in order |
| `Cluster.EntriesExact` | crates/onebarrier/src/state.rs:181-186 | The integer view lists, in strictly ascending key order, exactly the keys whose value reads as an integer |
| `Resp.SessionRoundTrip` | crates/onebarrier/src/resp.rs:58-100 | Any list of commands with arbitrary binary arguments, encoded and concatenated, reads back as exactly that list and a clean end |
| `Resp.SessionPrefix` | crates/onebarrier/src/resp.rs:58-100 | On any byte prefix of a session exactly the commands wholly inside it are read, and the end is clean if and only if the cut falls between two commands |
| `Resp.CutIsError` | crates/onebarrier/src/resp.rs:58-100 | A command cut off anywhere is an error, never a shorter command, if and only if it has at least one argument |
| `Resp.ReadOneAppend` | crates/onebarrier/src/resp.rs:58-100 | One call takes exactly one command off the stream, whatever follows |
| `Resp.InlineRoundTrip` | crates/onebarrier/src/resp.rs:91-99 | Words with single blanks, tabs, form feeds or carriage returns between them read back as those words |
| `Resp.NegativeSizes` | crates/onebarrier/src/resp.rs:67-84 | A null bulk string reads as an empty one, an array of no or negative size as no arguments |
| `Resp.WrongTag` | crates/onebarrier/src/resp.rs:77-79 | An argument that does not start with a dollar sign is a protocol error |
| `Resp.WireExample` | crates/onebarrier/src/resp.rs:136-141 | The bytes of SET foo bar |
| `RespIo.ReadCommand` | crates/onebarrier/src/resp.rs:58-100 | The stream-consuming parser returns and consumes what the format says, with the same error for every malformed input, inline commands included |
| `RespIo.ReadArgs` | crates/onebarrier/src/resp.rs:71-90 | The argument loop reads exactly the announced number of bulk strings or reports the first error |
| `RespIo.ReadLine` | crates/onebarrier/src/resp.rs:104-115 | Consumes up to and including the first line feed and strips every trailing line feed and carriage return |
| `RespIo.EncodeCommand` | crates/onebarrier/src/bin/ob_lincheck.rs:15-21 | The client loop produces the array-of-bulk-strings encoding |
| `RespIo.ReadSession` | crates/onebarrier/src/resp.rs:58-100 | Repeated reading until the end or the first error yields the command list of the whole input |
| `Capture.ReplayIsFaithful` | crates/onebarrier/src/bin/ob_replay.rs:26-44 | Whole or cut at any byte, the capture log of any run with any reuse of descriptors groups into exactly the connections of the run up to some moment, each once, in first-data order, each with exactly the bytes read on it; only a last partial record is lost |
| `Capture.RestartMerges` | interpose/obpreload.c:185-191 | A restarted process appends to the same file while its ids restart at 1: the bytes of its n-th connection are grouped behind those of the n-th connection before the restart |
| `Capture.RestartKeepsApart` | interpose/obpreload.c:185-191 | A connection keeps exactly its own bytes across a restart if and only if its counterpart of the same number received none |
| `Capture.GroupsRun` | crates/onebarrier/src/bin/ob_replay.rs:29-44 | Grouping the records of a run gives its connections and their bytes |
| `Capture.CutLog` | crates/onebarrier/src/bin/ob_replay.rs:32-38 | On any byte prefix of the log the reader finds exactly the records of an earlier moment of the run |
| `Capture.OpenAndClose` | interpose/obpreload.c:194-205 | Data read on a descriptor belongs to a new connection after it is opened and to none after it is closed |
| `Capture.IdsCount` | interpose/obpreload.c:170-199 | Ids count connections from 1 in the order they were opened |
| `Capture.ChunkLayout` | interpose/obpreload.c:223-230 | Where connection id, length and bytes of a capture record stand |
| `Capture.IdsDiffer` | interpose/obpreload.c:194-201 | Fewer than 2^32 connections have pairwise different ids however their descriptors were reused |
| `Capture.ParseCapture` | crates/onebarrier/src/bin/ob_replay.rs:26-44 | The parse loop computes the grouping of the whole records of any byte string |
| `Capture.Shim.MarkConn` | interpose/obpreload.c:194-201 | The slot stands for the new connection; all other slots keep theirs; descriptors out of range are ignored |
| `Capture.Shim.Capture` | interpose/obpreload.c:203-233 | Data read on a tracked connection is appended as one record under that connection's id; anything else leaves the log alone |
| `Capture.Shim.CloseFd` | interpose/obpreload.c:424-433 | The slot stands for nothing; all other slots keep theirs |
| `StreamLog.OffsetsExact` | crates/onebarrier/src/streamlog.rs:45-61 | In every interleaving of publishers and subscribers, crashes included, the offsets handed out for a topic are 1, 2, 3 and so on, each exactly once |
| `StreamLog.NoLeak` | crates/onebarrier/src/streamlog.rs:50-59 | The store holds something at a message's key if and only if its SET was executed, and then exactly the message sent for that place; every acknowledged message is among these |
| `StreamLog.AckedForever` | crates/onebarrier/src/streamlog.rs:58-60 | From its acknowledgement on a message is in the store exactly as it was sent, whatever follows, crashes included |
| `StreamLog.SubComplete` | crates/onebarrier/src/streamlog.rs:62-79 | A finished SUB has returned, in ascending order, stored messages of its topic only, as they were sent, none below its start, and among them every one at or after its start acknowledged before its length read |
| `StreamLog.PublishCompletes` | crates/onebarrier/src/streamlog.rs:45-61 | An uninterrupted PUB is answered with the next offset of its topic, and its message is stored there |
| `StreamLog.FetchToEnd` | crates/onebarrier/src/streamlog.rs:70-78 | A SUB in progress comes to its end |
| `StreamLog.VisibleBeforeAck` | crates/onebarrier/src/streamlog.rs:58-60 | A SUB may return a message whose publisher has not been answered yet |
| `StreamLog.SentByPublish` | crates/onebarrier/src/streamlog.rs:45-59 | What is stored for a place is the message of one PUB command on its topic |
| `StreamLog.LengthIsCount` | crates/onebarrier/src/streamlog.rs:80-88 | The length that LEN reports and SUB reads is the number of offsets handed out for the topic |
| `StreamLog.PlaceKeyInjective` | crates/onebarrier/src/streamlog.rs:59-59 | Message keys determine topic and offset, even for topics that contain colons |
| `StreamLog.KeyExamples` | crates/onebarrier/src/streamlog.rs:50-59 | The counter key and a message key of topic a |
| `StreamLog.KeysDisjoint` | crates/onebarrier/src/streamlog.rs:50-59 | No message key is a counter key |
| `StreamLog.NextKeeps` | crates/onebarrier/src/streamlog.rs:45-79 | The INCR, the SET and the answer of PUB, both steps of SUB and a crash keep the log's invariant |
| `VirtualClock.ReplayMatches` | interpose/obpreload.c:203-222 | A replay, from the recording's files or any cut of its delta log with at least one delta, returns after its j-th input what the recording returned: the base plus the first j deltas; past the last delta time stands still, and the replay stays within 64 bits because the recording did |
| `VirtualClock.Telescopes` | interpose/obpreload.c:211-216 | Recorded time is at least real elapsed time, and equal to it if and only if the monotonic clock never went back |
| `VirtualClock.NeverDecreases` | interpose/obpreload.c:203-222 | Virtual time never decreases when recording and when ticking; when replaying any log, if and only if none of the deltas it uses is negative |
| `VirtualClock.ReplayNeverDecreases` | interpose/obpreload.c:203-222 | A replay of a recorded log, whole or cut, never goes back in time |
| `VirtualClock.ResumeMatchesTail` | interpose/obpreload.c:262-268 | In fixed-tick mode a process resumed from the saved tick count tells the full run's time on the tail and stays within 64 bits |
| `VirtualClock.FixedClock` | interpose/obpreload.c:217-220 | A first start in fixed-tick mode tells and remembers the real time, and every input adds one millisecond |
| `VirtualClock.FirstRecording` | interpose/obpreload.c:282-287 | A first start in delta mode records, from the real time and the monotonic reading it found |
| `VirtualClock.Clock.Input` | interpose/obpreload.c:207-222 | Each of the three modes advances ticks, delta index, delta log and tick file as the code does |
| `VirtualClock.Clock.constructor` | interpose/obpreload.c:248-290 | Start-up chooses base, tick offset and mode from the files that exist |
| `VirtualClock.Clock.ClockGettime` | interpose/obpreload.c:311-317 | Seconds and nanoseconds recombine to the virtual time exactly |
| `VirtualClock.Clock.Gettimeofday` | interpose/obpreload.c:298-304 | Exact to the microsecond |
| `VirtualClock.Clock.Time` | interpose/obpreload.c:324-330 | The virtual time in whole seconds, rounded down |
| `QueueSim.OneBarrierLeads` | crates/onebarrier/src/sim.rs:160-178 | On every arrival stream every percentile, the mean and the maximum of OneBarrier are at most those of every listed competitor if and only if the barrier wait is at most 12500, for every non-negative round-trip time |
| `QueueSim.StatsRise` | crates/onebarrier/src/sim.rs:100-141 | Raising service time or fixed cost raises every statistic by at least the added cost, on every arrival stream |
| `QueueSim.ReportLaw` | crates/onebarrier/src/sim.rs:100-141 | Over the latencies in whatever order: every reported percentile is one of them with a rank nearest to (n - 1) q, more than that many at most it and at most that many below it; mean times n is their sum; the maximum is one of them and none is larger |
| `QueueSim.LeadMargins` | crates/onebarrier/src/sim.rs:160-178 | Lock-step and active replication report exactly OneBarrier's numbers at more machines, a host sequencer at least a round trip more, a nondeterminism log at least 0.3 more |
| `QueueSim.Lindley` | crates/onebarrier/src/sim.rs:123-129 | A request takes its service and fixed cost plus what is left of the stay of the one before it when it arrives |
| `QueueSim.ArrivalIsSum` | crates/onebarrier/src/sim.rs:123-124 | Request n arrives after the first n gaps |
| `QueueSim.OrderStatistics` | crates/onebarrier/src/sim.rs:130-138 | If every value is lower by at least d, so is every order statistic |
| `QueueSim.DurabilityCosts` | crates/onebarrier/src/sim.rs:62-75 | Overlapped durability changes no statistic; serial durability raises each by at least its own cost |
| `QueueSim.FinishAtLeast` | crates/onebarrier/src/sim.rs:123-129 | A request leaves no earlier than the service of everything from any earlier arrival on allows |
| `QueueSim.BusyPeriod` | crates/onebarrier/src/sim.rs:123-129 | It leaves at exactly that moment for the arrival that opened its busy period |
| `QueueSim.Simulate` | crates/onebarrier/src/sim.rs:181-205 | The event loop and the sort report the statistics of the FIFO latencies |

## Left out

- CrashRuns.CrashSafety: runs do not append behind a torn tail and stay within the format's sizes. What happens otherwise is `CrashLimits.TornTailLosesAck` and the equivalences `Recovery.ReopenSafe`, `State.OpRoundTrip`, `EngineSpec.VolRoundTrip`. Process crashes only: power loss, fsync ordering and I/O errors that return to the caller are not modelled.
- CrashRuns.NextKeeps: the same two exclusions, stated as `Benign`.
- CrashRuns.RunKeeps: the same two exclusions, stated as `BenignRun`.
- Engine.Engine.Deliver: assumes a record within the format's sizes and no torn tail, for the reason given at `CrashRuns.CrashSafety`.
- Engine.Engine.Snapshot: assumes a state within the format's sizes; `EngineSpec.VolRoundTrip` shows that any other state would not come back.
- Engine.Engine.ImportState: assumes a peer whose history extends the own one; `Recovery.ImportedAlone` says exactly when another peer's state would be mixed with the old log.
- Scheduler.SameOrder: top-level mutex lock, unlock and exit of at most 1024 threads registered up front, with the spin cap never reached. A thread beyond the 1024 slots is not gated. Trylock, condition variables, reader-writer locks, join, dynamic thread creation and relaxations are not modelled; there the order depends on timing.
- SchedulerData.SameRun: programs do not nest locks. That is not necessary for every nested program, but `SchedulerLimits.NestedOrdersDiffer` shows that it cannot simply be dropped.
- SchedulerProgress.NeverStuck: programs end within some number of steps whatever they read; some continuation completes the run, and that a fair operating system picks it is not stated.
- Cluster.CorrectIffComplete: fewer than 2^63 operations in all, so that no counter overflows. `Incr` wraps around in the store model, as a release build does.
- Capture.ReplayIsFaithful: a fresh capture file, fewer than 2^32 connections and reads of at most 2^32 - 1 bytes. What a restarted process does to an existing file is `Capture.RestartMerges` and `Capture.RestartKeepsApart`, where the old file ends in a whole record. The unlocked `is_conn` test and `recvmsg` over several buffers are not modelled.
- StreamLog.OffsetsExact: fewer than 2^63 steps. Commands are taken as parsed, and the executor as available; the code acknowledges a PUB even if its SET could not be delivered.
- VirtualClock.ReplayMatches: without a tick file; the code restarts the delta index at 0 when both are combined. 64-bit overflow of the clock is excluded.
- Server.NeverWronglySuppressed: connection ids below 2^32, request numbers below 2^64 and timestamps below 2^48. One request per operation; RESP `DEL` with several keys reuses one sequence number and is not modelled.
- QueueSim.StatsRise: floating point is modelled as real numbers and the random arrivals as any sequence of gaps.
- Resp.SessionRoundTrip: counts and lengths below 2^63; allocation failure on absurd announced lengths and read timeouts in the middle of a command are not modelled.
- Sockets, threads and channels, and the HTTP, memcached and transaction front ends: they only pass operations to the executor.
- The RESP replies, the time and random-number record log and the seccomp shim: easy or foreign calls.
- `ReliableHost`, `UdpEndpoint` and `Timestamp` of the 1Pipe crates are not part of this model; the fabric is the protocol of `OnePipeTotalOrder.tla`.
- Benchmarks, calibration, the recovery-cost closed form, the website and the scripts: measurements and presentation.
