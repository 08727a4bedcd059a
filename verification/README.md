# MAWMAW: a model of the event pipeline

MAWMAW moves fixed-size events from ingestors through per-stream rings, script queues and
publisher endpoints. This project models the parts of it whose correctness spans several
functions or several threads, and proves what their comments and documentation promise, or
exactly when the promise holds. `dafny verify dfyconfig.toml` checks all of it.

## How it is laid out

| file | what it models |
|---|---|
| `Bits.dfy` | machine words, `&` and `^`, 64-bit wrap-around as congruence, little-endian words, C strings in fixed fields |
| `Events.dfy` | the event record |
| `RingBuffers.dfy` | the ring as a class over an array, with its unbounded history as ghost state, and views into it |
| `RingSteps.dfy` | the same ring word by word: one writer and any number of readers interleaved |
| `QueueSteps.dfy` | one script queue step by step: any number of routing threads, the stopper, the worker, mutex and condition variable |
| `ReaderPositions.dfy` | what scripts announce and read, and the overflow check: which of its alarms are true |
| `WindowRegistries.dfy` | streams, window bounds, snapshots and announced positions, one call at a time |
| `SnapshotSteps.dfy` | a window bounded and copied word by word while its ring is being written |
| `DropSteps.dfy` | the overflow check of `push`, load by load, while scripts move their positions |
| `StreamRouters.dfy` | routing and queue delivery, one call at a time |
| `Pipeline.dfy` | the routing graph, its longest paths, and workers taking turns on it |
| `WorkerSteps.dfy` | the workers interleaved, delivery by delivery: when everything drains |
| `Telemetry.dfy` | counters, snapshot and reset, reports, one call at a time |
| `CounterSteps.dfy` | event counters under the reader-writer lock, step by step |
| `StatsSteps.dfy` | script statistics with their compare-and-swap loops, step by step |
| `MetricChunks.dfy` | cutting a report into chunks, their bytes, and decoding |
| `Reassembly.dfy` | the dashboard's reassembly of chunks |
| `WebSocketFrames.dfy` | frames of RFC 6455 and the socket loops |
| `Base64.dfy`, `Sha1.dfy` | the two hand-written primitives behind the handshake |
| `WasmRecords.dfy` | the WASM event records, host side and guest side |
| `Config.dfy` | the configuration parser and its helpers |

Each object the program mutates is a class (or, for concurrent code, a state machine whose
actions are single atomic steps in any order), each loop is a loop proved against a function,
and the laws are lemmas about those functions. A concurrent property is stated over every run
of its state machine, with any number of threads and any items. What a counter should hold is read
off the actions of the run, not off what the states record; and the same steps, undisturbed, are
shown to do what the class of the same object does.

## What the code does that its comments do not say

The model follows the code. Each line names the member that states the fact.

- `compute_begin` promises the window of a time specification. When the ring has wrapped and no
  resident event is older than the cutoff, the backward scan finds nothing to stop at and returns
  0 (core/window_registry.hpp:273-281): `WindowRegistries.TimeWindowExactly`.
- `make_snapshot_input` says the reader position is held during the copy
  (core/window_registry.hpp:149-150); its `min_seq` and `script_idx` are not used, and
  `script_end_read` does nothing. An event of the copy is right if no write had begun on its
  slot when its last word was copied: `SnapshotSteps.EventsLinearise`. Nothing ensures that: from
  the start of every ring some run tears a snapshot: `SnapshotSteps.TornSnapshotIsReachable`.
- `can_write` compares every stream's head with the least position over all scripts, in unsigned
  arithmetic. A position is the earliest event a script announced in any of its streams
  (server/main.cpp:527-532); nothing takes it back (core/window_registry.hpp:218-221), and a script
  that works on snapshots leaves it at 0. So the check counts drops although no view of the stream
  being written is a lap behind; exactly when is `ReaderPositions.FalseAlarmExactly`, a slow reader
  of another stream is `AlarmAcrossStreams` and `AlarmAcrossViews`, and with one snapshot script
  it fails exactly after the first lap of every stream: `SilentScriptAlarms`.
- `push` checks and writes in separate steps, and `script_begin_read` is a lock-free store that may
  lower a position (core/window_registry.hpp:112-115, 212-215). A drop goes uncounted exactly when
  the check passed and some position is a lap or more behind the head that was not when the check
  loaded it: `DropSteps.MissedExactly`. It happens: `DropSteps.MissIsReachable`.
- `wait_for_trigger` advances the read position before it copies the event out
  (core/stream_router.hpp:137-138), so a writer within a lap of the position can still replace
  the event being copied: `QueueSteps.CursorDoesNotProtect`, from the start of the pipeline in
  `QueueSteps.UnprotectedCopyIsReachable`. First-in-first-out delivery is
  therefore proved under the ring's documented contract, applied to the event being copied.
- `stop_all_queues` discards what is still queued: `QueueSteps.StopIsFinal`.
- The ring's constructor assertion accepts capacity 0: `RingBuffers.CapacityAssertion`.
- A report of more than 255 chunks cannot be reassembled, whichever of its chunks arrive in
  whatever order, because the chunk count is one byte: `Reassembly.TooManyChunks`; any smaller one
  can: `Reassembly.ReportArrivesExactly`.
- Identifiers of 32 bytes or more are cut to 31: `Bits.FieldRoundTrip`.
- A wrapped latency total can put the reported average below the minimum; exactly when is
  `StatsSteps.RowExactly`, an input is `StatsSteps.WrappedAverage`.
- `rev` advances by `STREAM_ID_MAX` after `SCHEMA_ID_MAX` schema bytes
  (executor/wasm/wasm_script.hpp:85), against the encoder at :58 and the stride at :201. Every
  field but the payload survives; the payload is read 16 bytes late:
  `WasmRecords.RevShiftsPayload`, and it is right in every memory exactly when it is empty:
  `WasmRecords.RevFaithfulExactly`. The payload theorem at the layout of :58 and :201 is
  `WasmRecords.RecordRoundTrip`.
- `parse_routes` never sees streams called `window`, `endpoint` or `emits`, whose lines the parser
  files elsewhere: `Config.MultiKeysAreNotRouted`.

## Model

| member | source | states |
|---|---|---|
| Bits.AndMask | core/ring_buffer.hpp:36-47 | `seq & (2^k - 1)` is `seq mod 2^k`, for every `k` and every `seq` |
| Bits.PowerOfTwoTest | core/ring_buffer.hpp:29 | `c & (c - 1) == 0` exactly for the powers of two, `c` positive |
| Bits.FieldRoundTrip | server/main.cpp:215-217 | a name read back from a fixed `char` field is the name exactly when it is NUL-free and shorter than the field, and its cut prefix otherwise |
| Events.StreamIs | core/event.hpp:22-31 | an event whose stream field holds a NUL-free name shorter than 32 bytes belongs to the stream of that name |
| Bits.AndBits | core/ring_buffer.hpp:36-47 | a bit of `a & b` is set where both are |
| Bits.XorBits | publisher/websocket_endpoint.hpp:182-183 | a bit of `a ^ b` is set where exactly one is |
| Bits.LERoundTrip | executor/wasm/wasm_script.hpp:42-70 | a word stored low byte first is loaded back, for every width |
| Bits.PushLE | server/main.cpp:183-195 | the shifting loop appends the word's little-endian bytes |
| Bits.ReadLE | executor/wasm/wasm_script.hpp:64-70 | the loop from the last byte down computes the little-endian value |
| RingBuffers.WithinOneLap | core/ring_buffer.hpp:16-19 | positions less than a lap apart share a slot only if equal |
| RingBuffers.StillOwnsSlot | core/ring_buffer.hpp:16-19 | a slot still holds sequence number `q` exactly while at most `capacity` writes followed from `q` on |
| RingBuffers.ResidentRead | core/ring_buffer.hpp:42-48 | reading a resident sequence number gives the history at that number |
| RingBuffers.RingBuffer.constructor | core/ring_buffer.hpp:23-30 | an empty ring with an empty history |
| RingBuffers.RingBuffer.Read | core/ring_buffer.hpp:44-48 | null exactly for unwritten numbers, the history at that number until it is lapped, and then the last write that went to the slot |
| RingBuffers.RingBuffer.Write | core/ring_buffer.hpp:34-40 | appends to the history, returns its old length, and keeps the slots in step with the last `capacity` writes |
| RingBuffers.RingBuffer.Head | core/ring_buffer.hpp:51-53 | the length of the history |
| RingBuffers.RingBuffer.ReaderLag | core/ring_buffer.hpp:56-59 | how far a reader is behind, zero when it is not |
| RingBuffers.RingView.At | core/ring_buffer.hpp:83-88 | newest-first indexing with 64-bit wrap-around, as a function of the history |
| RingBuffers.ViewNullExactly | core/ring_buffer.hpp:83-88 | an index is null exactly from the size up to where the index wraps onto the head |
| RingBuffers.ViewNullBelowHalf | core/ring_buffer.hpp:79-88 | with the head below 2^63, every index from the size to 2^63 is null |
| RingBuffers.ViewIsHistory | core/ring_buffer.hpp:70-88 | a view that has not been lapped reads the history, newest first |
| RingBuffers.CapacityAssertion | core/ring_buffer.hpp:29 | the constructor's assertion passes exactly for powers of two and for zero |
| RingSteps.StepKeepsInv | core/ring_buffer.hpp:34-48 | every word stored, every publication and every word copied keeps the ring invariant and only extends the history |
| RingSteps.ReadsLinearise | core/ring_buffer.hpp:34-48 | in every interleaving, a reader that finishes while no write has come round to its slot has exactly the event written at its number |
| RingSteps.ReadAlone | core/ring_buffer.hpp:44-48 | undisturbed, a reader of an intact number gets its event, and when it ends it has left no trace |
| RingSteps.OneLapAheadOverwrites | core/ring_buffer.hpp:16-19 | the bound is sharp: the write a full lap on replaces the slot |
| RingSteps.TornRead | core/ring_buffer.hpp:16-19 | from every state with the writer idle exactly one lap ahead, every mixture of `k` old words and the rest new can be read |
| RingSteps.TornReadIsReachable | core/ring_buffer.hpp:16-19 | and such a read ends some run from the start, for every ring, every history of at least a lap, every next item and every `k` |
| QueueSteps.StepKeepsInv | core/stream_router.hpp:96-101 | each step of a router, the stopper or the worker keeps the lock, wake-up and cursor invariants |
| QueueSteps.NoLostWakeup | core/stream_router.hpp:96-150 | in every interleaving a worker asleep with work or a stop pending has a notification on its way, at most three steps of threads already under way wake it, a call returns nothing only by a stop, and the loop ends only by that or because `g_running` was cleared |
| QueueSteps.WakeUp | core/stream_router.hpp:118-129 | those steps, constructed from every reachable state |
| QueueSteps.SpuriousIsHarmless | core/stream_router.hpp:124-129 | a worker that wakes although there is nothing to do goes back to sleep and nothing has changed |
| QueueSteps.QuitEnds | server/main.cpp:564-566 | once the running flag is cleared at most the call under way still returns an event, and a worker between two calls exits with its next step |
| QueueSteps.FifoExactlyOnce | core/stream_router.hpp:130-138 | what the worker got is a prefix of what was routed to its queue, in order, none twice, none missing, if at every point of the run no write had come round to an event being copied |
| QueueSteps.DeliveredInOrder | core/stream_router.hpp:130-138 | the same from any state of a run |
| QueueSteps.CursorDoesNotProtect | core/stream_router.hpp:135-138 | a writer less than a lap ahead of the advanced position can still replace the event being copied, of any size |
| QueueSteps.UnprotectedCopyIsReachable | core/stream_router.hpp:135-138 | and some run from the start does so, for every ring, every first lap of events and every next one |
| QueueSteps.StopIsFinal | core/stream_router.hpp:127-150 | once stopped, a call that has not passed the test returns nothing, whatever else happens |
| QueueSteps.StopTerminates | server/main.cpp:648-653 | after the stop the worker never sleeps again, every one of its steps nears its exit, and someone can always move, so it can be joined |
| WindowRegistries.TimeWindowExactly | core/window_registry.hpp:260-282 | a time window leaves out exactly the events more than the duration before the trigger, back from the head, if and only if the ring has not wrapped, still holds such an event, or never had one; otherwise it begins at 0 |
| WindowRegistries.CountWindow | core/window_registry.hpp:268-269 | a count window is the last `count` events, or all if there are fewer |
| WindowRegistries.SuffixIsFilter | core/window_registry.hpp:270-281 | with non-decreasing timestamps that suffix is all events at or after the cutoff |
| WindowRegistries.WindowRegistry.ComputeBegin | core/window_registry.hpp:260-282 | the bounds of that window; in plain terms, for a count as many events as asked for, for a time only and all the fresh ones at the end whenever the scan can stop |
| WindowRegistries.ScanMeaning | core/window_registry.hpp:273-281 | where the backward scan stops: the suffix start if it can stop, else 0 |
| WindowRegistries.ScanUnderWrites | core/window_registry.hpp:131-140 | with reads in one piece, the bound is right even if events are written during the scan, as long as no write has begun on the slot being read |
| WindowRegistries.SnapshotIsHistory | core/window_registry.hpp:145-198 | with reads in one piece, a snapshot taken during writes is `history[begin..end)` and the reverse of the view, if the write of `begin + capacity` has not begun |
| WindowRegistries.CopiedIsHistory | core/window_registry.hpp:185-195 | a copy of which nothing has been lapped is the history between its bounds |
| SnapshotSteps.StepKeepsInv | core/window_registry.hpp:152-198 | every word written, every timestamp scanned and every word copied keeps what bounds and copy may rely on |
| SnapshotSteps.EventsLinearise | core/window_registry.hpp:152-198 | in every interleaving each event of a finished snapshot is the history's if no write had begun on its slot when its last word was copied; the count bound is exact; the time bound leaves out exactly the events more than the duration before the trigger if no write had begun on a slot when the scan read it |
| SnapshotSteps.SnapshotLinearises | core/window_registry.hpp:152-198 | the whole snapshot is the history between its bounds if by the end no write has begun on its first slot, and its time bound is exact if none has on the slot before |
| SnapshotSteps.SnapshotAlone | core/window_registry.hpp:152-198 | from every state in which it has not begun, a snapshot of any window can be taken without interruption |
| SnapshotSteps.TornSnapshotIsReachable | core/window_registry.hpp:145-151 | for every ring, first lap, next event and split point, some run from the start finishes a snapshot whose first event is torn there, the rest being right |
| SnapshotSteps.FreshSuffixIsBegin | core/window_registry.hpp:270-281 | that suffix is the one `ComputeBegin` is specified by |
| WindowRegistries.OverlongWindow | core/window_registry.hpp:185-195 | a window longer than the ring starts with a newer event instead |
| ReaderPositions.CanWriteExactly | core/window_registry.hpp:232-257 | the unsigned comparison, the no-reader case included |
| ReaderPositions.CheckCatchesLaps | core/window_registry.hpp:232-237 | taken in one piece, the check refuses every write onto an event at or after some script's position |
| ReaderPositions.AllowedWriteKeepsViews | core/window_registry.hpp:232-237 | taken in one piece with the write, it allows only writes that leave every view from a script's position on as it was |
| ReaderPositions.PositionsFollow | core/window_registry.hpp:201-221 | how registering a script, beginning a read and ending it move the positions; ending does not |
| ReaderPositions.ReadsKeepSound | server/main.cpp:520-535 | registering, announcing and reading, reading snapshots unannounced, and ending keep what is assumed of scripts |
| ReaderPositions.LappedIsCaught | core/window_registry.hpp:232-257 | taken in one piece, the check misses no script that reads the stream from a lap or more behind |
| ReaderPositions.FalseAlarmExactly | core/window_registry.hpp:232-257 | it refuses a write although no view of the stream being read is a lap behind exactly when no script is registered and the ring is full, or every position is ahead of the head without wrapping to a small difference, or the least position is a lap behind the head while the earliest view of this stream is not |
| ReaderPositions.RaisedElsewhere | server/main.cpp:527-532 | in the third case each script at such a position is idle or without a view of this stream, or never announces, or announced another stream's event |
| ReaderPositions.AlarmAcrossStreams | core/window_registry.hpp:247-257 | one slow reader of another stream raises a false alarm, for all streams and bounds |
| ReaderPositions.AlarmAcrossViews | server/main.cpp:527-532 | so does one script that reads both streams |
| ReaderPositions.SilentScriptAlarms | core/window_registry.hpp:201-209 | with a script that never announces, the check passes exactly in the first lap of each stream |
| ReaderPositions.AlarmMeansLapped | core/window_registry.hpp:232-257 | with the slowest position that of a view of this stream, it refuses exactly when such a view is lapped |
| DropSteps.StepKeepsInv | core/window_registry.hpp:101-116 | every load, comparison, count, write and position store keeps what the check knows |
| DropSteps.DropsAreRefusals | core/window_registry.hpp:111-115 | in every interleaving the drop counter is the number of failed comparisons among the writes of the run, modulo 2^64 |
| DropSteps.MissedExactly | core/window_registry.hpp:111-115 | in every interleaving, before a write the counter stands where it stood when the push began if and only if the check passed, and one higher otherwise; a drop is missed if and only if it has not moved and some position is a lap behind the head that was not when the check loaded it; a position that differs from what was loaded was stored during the push |
| DropSteps.NoneMissed | core/window_registry.hpp:111-115 | so none is missed while no position is lower than the check loaded it |
| DropSteps.UncountedWriteKeepsViews | core/window_registry.hpp:111-115 | a write before which the counter has not moved leaves the views of every script whose position is not lower than the check loaded it |
| DropSteps.MissIsReachable | core/window_registry.hpp:111-115 | a missed drop ends some run from the start, for every capacity and every number of scripts |
| DropSteps.PushAlone | core/window_registry.hpp:101-116 | undisturbed, the steps of a push are one event more, and one drop more exactly when the check refuses it |
| WindowRegistries.WindowRegistry.EnsureStream | core/window_registry.hpp:86-91 | idempotent creation of a ring |
| WindowRegistries.WindowRegistry.Push | core/window_registry.hpp:101-116 | a call that runs alone: the event is appended to the history of the name in its stream field and no other, unknown streams are ignored, and a drop is counted exactly when telemetry is on and the check fails |
| WindowRegistries.WindowRegistry.GlobalMinReader | core/window_registry.hpp:247-257 | the least position, 0 without readers |
| WindowRegistries.WindowRegistry.CanWrite | core/window_registry.hpp:232-237 | the loop and the comparison compute the check |
| WindowRegistries.WindowRegistry.RegisterScript | core/window_registry.hpp:201-209 | a new position 0 at a new index |
| WindowRegistries.WindowRegistry.ScriptBeginRead | core/window_registry.hpp:212-215 | one position is replaced |
| WindowRegistries.WindowRegistry.ClearCursors | core/window_registry.hpp:224-229 | no position is left |
| WindowRegistries.WindowRegistry.MakeZeroCopyInput | core/window_registry.hpp:125-143 | one view per subscribed stream that exists, bounded as `ComputeBegin` says |
| WindowRegistries.WindowRegistry.StartZeroCopyRead | server/main.cpp:526-532 | the views of `MakeZeroCopyInput`, and their earliest begin is announced, over all streams |
| WindowRegistries.WindowRegistry.MakeSnapshotInput | core/window_registry.hpp:152-198 | copies of the same windows |
| StreamRouters.StreamRouter.Route | core/stream_router.hpp:72-115 | the event is counted, appended to its stream, and delivered as the next three rows say, each delivery to an endpoint counted as emitted |
| StreamRouters.RoutesByName | core/stream_router.hpp:81-89 | an event whose stream field holds `k` goes to the targets of `k` in table order, and nowhere if `k` is not routed |
| StreamRouters.OnwardOne | core/stream_router.hpp:90-114 | one target: its script's queue gets the event at its end, else the endpoint of that name does, else nothing happens |
| StreamRouters.CountsByName | core/stream_router.hpp:73-76 | it is counted under `k`, one more in 64 bits, unless telemetry is off or `k` is the pipeline's own stream |
| StreamRouters.Publisher.PublishTo | publisher/publisher.hpp:42-49 | the named endpoint gets the event and it is counted as emitted; an unknown name changes nothing |
| StreamRouters.Publisher.AddEndpoint | publisher/publisher.hpp:31-34 | one more name |
| StreamRouters.OnwardSnoc | core/stream_router.hpp:89-114 | delivering to one target more |
| StreamRouters.StreamRouter.Deliver | core/stream_router.hpp:89-114 | the target loop against the functions that say what each queue and endpoint gets |
| StreamRouters.StreamRouter.RegisterScriptQueue | core/stream_router.hpp:55-61 | a fresh queue at the next index |
| StreamRouters.StreamRouter.SetRoutes | core/stream_router.hpp:45-47 | the table is replaced, nothing else |
| StreamRouters.StreamRouter.RegisterHandler | core/stream_router.hpp:63-69 | one script's queue index is set |
| StreamRouters.StreamRouter.WaitForTrigger | core/stream_router.hpp:118-139 | one evaluation of the wait: nothing for a missing or stopped queue, the event at the read position, advanced by one, if there is one, else it blocks with nothing changed |
| StreamRouters.StreamRouter.StopAllQueues | core/stream_router.hpp:142-150 | every queue stopped, no position moved |
| WorkerSteps.MoveShrinks | server/main.cpp:564-580 | on an acyclic graph every take, answer and single delivery of every worker lowers the weight of what is queued, running and in flight |
| WorkerSteps.PipelineDrains | server/main.cpp:560-583 | so every interleaving has at most that many moves and ends with empty queues and nothing in flight |
| WorkerSteps.DrainsExactly | server/main.cpp:560-583 | all interleavings end from every load exactly when the routing graph has no cycle |
| WorkerSteps.CycleNeverDrains | server/main.cpp:560-583 | on a cycle one event can keep the workers busy for any number of moves |
| WorkerSteps.DeliverRoutes | core/stream_router.hpp:89-104 | the single deliveries of an answer add up to routing its events one after another |
| Pipeline.EdgesDescend | core/stream_router.hpp:82-104 | the longest path from a stream shortens along every route |
| Pipeline.RouterRefines | core/stream_router.hpp:89-104 | the graph's delivery is the router's, events replaced by their streams |
| Telemetry.Telemetry.RecordEvent | core/telemetry.hpp:27-46 | one more for the stream, 64-bit, nothing when off or for the pipeline's own stream |
| Telemetry.Telemetry.RecordEmitted | core/telemetry.hpp:48-67 | the same for emitted events |
| Telemetry.OwnStreams | core/telemetry.hpp:29 | the pipeline's own streams are `telemetry` and whatever begins with `telemetry.` |
| Telemetry.TalliedExactly | core/telemetry.hpp:27-67 | after `n` events every count is what it was, `n` more for that stream, modulo 2^64 |
| Telemetry.Telemetry.RecordDrop | core/telemetry.hpp:69-72 | one more drop when on |
| Telemetry.Telemetry.RegisterScriptStats | server/main.cpp:63-69 | fresh statistics unless there are some |
| Telemetry.Telemetry.RecordScriptInvocation | core/telemetry.hpp:74-88 | count, total, minimum and maximum of a registered script |
| Telemetry.Telemetry.PackStreamMetrics | server/main.cpp:132-224 | counters are reset, the chunks are the packed partition of the rows under the drained totals, each within one payload, and none when there is nothing to report |
| Telemetry.Telemetry.PackScriptMetrics | server/main.cpp:226-317 | the same for scripts |
| Telemetry.ReportRows | server/main.cpp:137-169 | one row for each stream with an event received or emitted since the last report and no other, holding the sum of the two counts, modulo 2^64 |
| Telemetry.ScriptRows | server/main.cpp:245-262 | one row for each script invoked since the last report and no other |
| Telemetry.RowsAddUp | server/main.cpp:158-169 | the rows' counts add up to the two totals, modulo 2^64 |
| Telemetry.SumCombined | server/main.cpp:165-169 | merging two snapshots keeps their grand total, modulo 2^64 |
| CounterSteps.CountsAreConserved | core/telemetry.hpp:27-67 | in every interleaving of recorders and snapshots, for every stream, reported plus resident is the number of calls begun in the run but for those under way that have not incremented, modulo 2^64; when a snapshot has been through its loop nothing is left |
| CounterSteps.RecordAlone | core/telemetry.hpp:27-46 | undisturbed, the steps of a call add one to its stream, whether or not it had a counter |
| CounterSteps.DrainAlone | server/main.cpp:137-145 | undisturbed, a snapshot takes every counter and leaves it zero |
| CounterSteps.StepKeepsInv | core/telemetry.hpp:30-45 | each lookup, insertion, increment, lock step and exchange keeps that balance and the lock discipline |
| StatsSteps.SnapshotsDescribe | core/telemetry.hpp:74-88 | in every interleaving with the compare-and-swap loops, a snapshot's four numbers describe one set of returned calls |
| StatsSteps.CallsAreConserved | core/telemetry.hpp:74-88 | in every interleaving every call begun is in the set of exactly one snapshot, or has returned since the last one, or is under way |
| StatsSteps.RecordAlone | core/telemetry.hpp:74-88 | undisturbed, the steps of a call are the one update of the four numbers |
| StatsSteps.RecordedDescribes | core/telemetry.hpp:78-87 | and that update describes exactly one duration more |
| StatsSteps.StepKeepsInv | core/telemetry.hpp:80-87 | the invariant behind it, step by step |
| StatsSteps.RowExactly | server/main.cpp:307-311 | the average is the true one exactly when the total did not wrap, it is at least the minimum exactly when what is left of the total is at least count times the minimum or no minimum was recorded, and it never exceeds the maximum |
| StatsSteps.RowIsConsistent | server/main.cpp:307-311 | minimum ≤ average ≤ maximum, all true, when count and total fit 64 bits |
| StatsSteps.WrappedAverage | server/main.cpp:307-311 | an input on which it fails: three calls of the longest duration the dispatcher can pass |
| MetricChunks.PartsPartition | server/main.cpp:197-222 | the chunks concatenate to exactly the entries |
| MetricChunks.CountIsLength | server/main.cpp:180-181 | the announced chunk count is the number of chunks |
| MetricChunks.PackChunks | server/main.cpp:197-222 | the packing loop emits that partition byte by byte, each chunk within one payload, and every chunk but the last so full that one more row would not fit |
| MetricChunks.FewestChunks | server/main.cpp:174-181 | no other way of cutting the same rows into payloads needs fewer chunks |
| MetricChunks.HeaderPlaces | server/main.cpp:204-210 | the timestamp, each header word, index and count in one byte each, and the row count, at their offsets |
| MetricChunks.RowPlaces | server/main.cpp:212-219 | the identifier and each value of each row, at their offsets |
| MetricChunks.ReceivedIsCut | server/main.cpp:215-217 | a row arrives with its values and its identifier cut to 31 bytes |
| MetricChunks.ChunksFit | server/main.cpp:99-105 | every chunk fits a payload for every payload size that holds one row, so the oversize branch is dead |
| MetricChunks.ChunkRoundTrip | publisher/endpoints.hpp:133-179 | decoding a chunk gives its timestamp, totals, index, count and rows, whatever follows it |
| MetricChunks.RowsRoundTrip | publisher/endpoints.hpp:170-179 | rows are decoded back, identifiers cut to 31 bytes |
| Reassembly.GroupAssembler.HandleChunk | publisher/endpoints.hpp:133-192 | one chunk: the new pending group and the published one |
| Reassembly.ReassemblyIsSafe | publisher/endpoints.hpp:149-191 | whatever chunks of whatever reports arrive, in any order, repeated or lost, every published group is one whole report |
| Reassembly.ReassemblyIsComplete | publisher/endpoints.hpp:149-191 | if all chunks of a report arrive, in any order and repeated, with no other timestamp between, what is published first is that report, whole |
| Reassembly.InOrderRest | publisher/endpoints.hpp:163-190 | in order it is published once, at its last chunk, as the same sequence |
| Reassembly.DecodesAsSent | server/main.cpp:90-107 | each packed chunk is decoded as the message it was packed from |
| Reassembly.ReportArrivesExactly | server/main.cpp:181-209 | the chunks of a packed report, in any order and repeated, give back its totals and rows, each once, exactly when there are at most 255 |
| Reassembly.TooManyChunks | publisher/endpoints.hpp:149-191 | beyond that no published group is the report, whichever chunks arrive |
| Reassembly.ReportArrivesInOrder | publisher/endpoints.hpp:163-190 | in order, at most 255 chunks give back the packed sequence, once |
| WebSocketFrames.MaskTwice | publisher/websocket_endpoint.hpp:182-183 | the unmask loop's operation undoes masking |
| WebSocketFrames.Unmask | publisher/websocket_endpoint.hpp:182-183 | the in-place loop: bit by bit, each bit of the result is set where exactly one of payload and key has it, the key repeating every four bytes |
| WebSocketFrames.LengthRoundTrip | publisher/websocket_endpoint.hpp:125-134 | the three length forms are told apart and decoded back |
| WebSocketFrames.FrameBytes | publisher/websocket_endpoint.hpp:122-135 | the bytes of a frame in each of its three forms |
| WebSocketFrames.FrameRoundTrip | publisher/websocket_endpoint.hpp:122-135 | a sent frame followed by anything parses to its opcode and payload and leaves what followed |
| WebSocketFrames.ClientFrameRoundTrip | publisher/websocket_endpoint.hpp:159-183 | a masked client frame parses to what the client masked |
| WebSocketFrames.StreamRoundTrip | publisher/websocket_endpoint.hpp:122-143 | a concatenation of frames parses back to its messages |
| WebSocketFrames.WireIsInjective | publisher/websocket_endpoint.hpp:122-143 | no two message lists have the same bytes |
| WebSocketFrames.Socket.SendAll | publisher/websocket_endpoint.hpp:136-142 | any schedule of partial sends puts a prefix of the frame on the wire, all of it exactly on success |
| WebSocketFrames.Socket.SendFrame | publisher/websocket_endpoint.hpp:122-143 | the bytes are those of the frame |
| WebSocketFrames.Socket.ReadExact | publisher/websocket_endpoint.hpp:146-154 | exactly the next `n` bytes, however they arrive |
| WebSocketFrames.ReadFrame | publisher/websocket_endpoint.hpp:159-183 | against the socket it reads what the parser says |
| WebSocketFrames.HandleIncoming | publisher/websocket_endpoint.hpp:159-195 | one frame is consumed, a close or ping is answered with its payload, and only a close or a failure ends the connection |
| WebSocketFrames.ReplyIsRead | publisher/websocket_endpoint.hpp:185-195 | the peer reads a close for a close and a pong for a ping, with the payload that came, and nothing else is answered |
| Base64.TableIsTheAlphabet | publisher/websocket_endpoint.hpp:93 | the table is the alphabet of RFC 4648 |
| Base64.Encode | publisher/websocket_endpoint.hpp:92-110 | the loop and the two tails compute the encoding |
| Base64.TestVectors | publisher/websocket_endpoint.hpp:92-110 | the last three test vectors of section 10 of RFC 4648 |
| Base64.RoundTrip | publisher/websocket_endpoint.hpp:92-110 | a strict decoder of section 4 of RFC 4648 inverts it, for every byte string |
| Base64.EncodedLength | publisher/websocket_endpoint.hpp:95 | four characters for every three bytes begun |
| Base64.OnlyEncodingsDecode | publisher/websocket_endpoint.hpp:92-110 | and that decoder accepts nothing else |
| Sha1.Rotate | publisher/websocket_endpoint.hpp:51 | two shifts joined by a bitwise or are the circular shift of section 3 of RFC 3174, for every distance from 1 to 31 |
| Sha1.DisjointBits | publisher/websocket_endpoint.hpp:51 | the two shifted parts share no bit, so the bitwise or is their sum |
| Sha1.RolParts | publisher/websocket_endpoint.hpp:51 | the circular shift swaps the two parts of the word |
| Sha1.WordRoundTrip | publisher/websocket_endpoint.hpp:55-57 | a word stored big-endian is loaded back |
| Sha1.Schedule | publisher/websocket_endpoint.hpp:54-59 | the two loops fill `W(0)` to `W(79)` |
| Sha1.ScheduleExactly | publisher/websocket_endpoint.hpp:55-59 | sixteen big-endian words of the block, and then each bit the parity of four earlier ones, shifted one place |
| Sha1.ChoiceBits | publisher/websocket_endpoint.hpp:64 | `f` of the first twenty rounds: where `b` has a bit, that of `c`, else that of `d` |
| Sha1.ParityBits | publisher/websocket_endpoint.hpp:65-67 | `f` of the second and the last twenty: the parity of the three bits |
| Sha1.MajorityBits | publisher/websocket_endpoint.hpp:66 | `f` of the third twenty: the majority of the three bits |
| Sha1.RootsOf | publisher/websocket_endpoint.hpp:64-67 | the constants are the integer square roots of 2, 3, 5 and 10 times 2^60 |
| Sha1.InitialBytes | publisher/websocket_endpoint.hpp:49 | the initial words, as bytes, count up and down in hexadecimal digits |
| Sha1.RoundExactly | publisher/websocket_endpoint.hpp:68-69 | one round in plain arithmetic modulo 2^32 |
| Sha1.CompressExactly | publisher/websocket_endpoint.hpp:60-71 | eighty rounds, added to the state word by word |
| Sha1.Context.ProcessBlock | publisher/websocket_endpoint.hpp:53-72 | the in-place rounds add the function of section 6.1 of RFC 3174 to the state |
| Sha1.ProcessAll | publisher/websocket_endpoint.hpp:82 | the block loop is the fold over the padded message |
| Sha1.PadBuffer | publisher/websocket_endpoint.hpp:77-81 | the loops pad as section 4 of RFC 3174 says |
| Sha1.PaddingIsInjective | publisher/websocket_endpoint.hpp:77-81 | padding gives whole blocks, at most 72 bytes more, and is undone; the length field is right below 2^61 bytes |
| Sha1.ComputeDigest | publisher/websocket_endpoint.hpp:75-89 | the digest of the message |
| Sha1.DigestExactly | publisher/websocket_endpoint.hpp:82-88 | blocks are taken in order, and the five words come out in order, highest byte first |
| Sha1.AcceptKey | publisher/websocket_endpoint.hpp:113-118 | 28 characters that decode to the digest of key and GUID |
| WasmRecords.Cursor.PutWord | executor/wasm/wasm_script.hpp:42-51 | a word is stored and the cursor advanced, nothing else changed |
| WasmRecords.Cursor.PutEvent | executor/wasm/wasm_script.hpp:52-60 | one record |
| WasmRecords.RecordPlaces | executor/wasm/wasm_script.hpp:52-60 | every field of a record at its offset |
| WasmRecords.RecordRoundTrip | executor/wasm/wasm_script.hpp:52-60 | decoding at the encoder's layout recovers every field and the payload |
| WasmRecords.Rev | executor/wasm/wasm_script.hpp:71-88 | the decoder as written: the payload is read 32 bytes after the schema begins |
| WasmRecords.RevShiftsPayload | executor/wasm/wasm_script.hpp:84-86 | all other fields survive; the payload loses 16 bytes in front and takes in the 16 that follow |
| WasmRecords.RevFaithfulExactly | executor/wasm/wasm_script.hpp:84-86 | it recovers an event from every memory holding it exactly when the payload is empty |
| WasmRecords.RecordsRoundTrip | executor/wasm/wasm_script.hpp:168-172 | a run of records is decoded back |
| WasmRecords.OutputBoundaries | executor/wasm/wasm_script.hpp:193-202 | the output loop finds every record boundary and header despite the late payload |
| WasmRecords.ParseOutput | executor/wasm/wasm_script.hpp:193-202 | the loop is that decoding |
| WasmRecords.PutRecords | executor/wasm/wasm_script.hpp:167-172 | no read below the end is null, so no record is skipped |
| WasmRecords.PutWindow | executor/wasm/wasm_script.hpp:158-173 | the count written is the number of records that follow, as 32 bits |
| WasmRecords.PutImage | executor/wasm/wasm_script.hpp:150-173 | the whole input zone |
| WasmRecords.ImagePlaces | executor/wasm/wasm_script.hpp:150-173 | trigger, window count, and per window the name, the record count and the records, in this order |
| WasmRecords.OpenedExactly | executor/wasm/wasm_script.hpp:156-172 | the windows are those of the views, in order, and one that has not been lapped holds the history between its bounds |
| WasmRecords.ImageRoundTrip | executor/wasm/wasm_script.hpp:150-173 | decoding it recovers the trigger and every window oldest first |
| WasmRecords.OnTrigger | examples/scripts/passthrough.c:80-187 | refuses an oversize payload or a small zone and changes nothing, else writes one answer record |
| WasmRecords.Invoke | executor/wasm/wasm_script.hpp:143-204 | host and guest: exactly one record with the trigger's timestamp, sequence, lineage and size, or nothing if the memory, the zone or the payload is out of bounds |
| WasmRecords.PassedOnMeans | examples/scripts/passthrough.c:150-187 | what comes back: the trigger's numbers, the stream `wasm_processed`, the schema `wasm_v1`, and the payload 16 bytes on |
| Config.TrimUnique | config/config.hpp:37-42 | whatever blanks surround a tight text, trimming gives that text |
| Config.TrimSplit | config/config.hpp:37-42 | and every text is its trimmed form between blanks |
| Config.TrimExactly | config/config.hpp:37-42 | trimming takes away the spaces, tabs, carriage returns and newlines at the ends, and no other character |
| Config.GetLine | config/config.hpp:59 | one segment off the stream |
| Config.SegmentsTerminated | config/config.hpp:59 | lines written with terminators are read back |
| Config.TerminatedSegments | config/config.hpp:59 | a text is its lines but for the last terminator |
| Config.Parse | config/config.hpp:49-93 | the loop over lines with its four errors |
| Config.EntryLine | config/config.hpp:75-90 | an entry is read back whatever blanks stand around key, `=` and value, or is the duplicate-key error |
| Config.RepeatedKey | config/config.hpp:43-46 | a second line with the same key is kept after the first for `window`, `endpoint` and `emits`, and is the duplicate-key error of line 3 for every other key |
| Config.CommentLine | config/config.hpp:62 | a line of blanks, and one whose first other character is `#` or `;`, change nothing |
| Config.BracketLine | config/config.hpp:64-69 | a name in brackets, with blanks anywhere around it, begins an empty section of that name |
| Config.StrayLine | config/config.hpp:71-79 | any other line is an error without a section above it, and without an equals sign |
| Config.PaddingIsIgnored | config/config.hpp:59-61 | blanks around lines change neither result nor error |
| Config.InsertedLineIsIgnored | config/config.hpp:59-62 | a blank or comment line changes nothing but the line number of a later error |
| Config.ParseUndoesPrint | config/config.hpp:49-93 | parsing printed text gives the configuration back, in whatever order entries are listed |
| Config.ProducibleExactly | config/config.hpp:49-93 | a configuration is the result of parsing some text exactly when it is well formed |
| Config.SplitComma | config/config.hpp:97-106 | the loop computes the trimmed non-empty items |
| Config.SplitUndoesJoin | config/config.hpp:97-106 | splitting undoes joining |
| Config.SplitYieldsItems | config/config.hpp:97-106 | and yields only items that join accepts |
| Config.ParseRoutes | config/config.hpp:109-126 | each key is mapped to its targets over all sections in order, whatever the iteration order within one |
| Config.RoutesInOrder | config/config.hpp:112-120 | a stream listed in two `routes` sections has the first one's targets first, whatever other sections stand around them |
| Config.MultiKeysAreNotRouted | config/config.hpp:44-46 | streams named like a multi key have no targets |
| Config.GetScriptEmits | config/config.hpp:129-145 | the single key first, then every repeated line |
| Config.LinesMeanOneLine | config/config.hpp:137-143 | several lines mean what one joined line would |
| Config.ReadFields | config/config.hpp:160-166 | the character loop, empty fields kept |
| Config.ParseWindow | config/config.hpp:159-174 | too few fields, a bad number, or the window |
| Config.WindowText | config/config.hpp:159-174 | only the word `time` makes a window time-based, and fields after the third are not read |
| Config.FieldsByCommas | config/config.hpp:160-166 | there is one field more than there are commas |
| Config.StoullExactly | config/config.hpp:173 | an optional sign, digits, and whatever follows: out of range from 2^64 on, and a minus sign wraps |
| Config.NoNumber | config/config.hpp:173 | without a digit after the sign there is no number |
| Config.WindowRoundTrip | config/config.hpp:159-174 | a printed window specification is read back |

## Left out

- Weak memory: atomic steps are sequentially consistent; release and acquire become "slot written before sequence published".
- Several producers inside one `RingBuffer::write`: outside its documented contract, so a ring has one writer at a time, while notifications overlap freely.
- QueueSteps.FifoExactlyOnce: carries the ring's "writer never laps the reader" contract as a hypothesis, because the code does not enforce it.
- StreamRouters.StreamRouter.WaitForTrigger: one evaluation by a thread that runs alone; sleeping, waking, spurious wake-ups and the copy after the cursor are in `QueueSteps`.
- WindowRegistries.WindowRegistry.Push: a call during which no position moves; positions moving between check and write are in `DropSteps`. The mutex around the map lookup is not modelled.
- DropSteps.MissedExactly: telemetry is on, and the list of positions does not grow or shrink during a check, which in the original would be a data race on the list itself. It speaks of positions; which of them belong to views of the stream is the subject of `ReaderPositions`.
- WindowRegistries.SnapshotIsHistory: events are read in one piece; word by word they are in `SnapshotSteps`.
- WindowRegistries.ScanUnderWrites: likewise.
- SnapshotSteps.SnapshotLinearises: one stream's window; the windows of one input are computed and copied one after the other.
- RingBuffers.RingBuffer.constructor: takes powers of two; capacity 0 passes the original's assertion, see `CapacityAssertion`, and is not modelled further.
- RingBuffers.RingBuffer.Write: the sequence number is assumed not to reach 2^64.
- WorkerSteps.DrainsExactly: a script answers with a bounded list of events and nothing arrives from outside; queues are taken as unbounded, since lapped queues are the ring's subject.
- The `lineage_depth` cycle limit: no code increments or tests it.
- Telemetry.Telemetry.PackScriptMetrics: the clock is a parameter.
- Reassembly.GroupAssembler.HandleChunk: requires the payload to hold the rows it announces, as every packed chunk does; the original reads past a shorter one.
- Reassembly.ReassemblyIsSafe: distinct reports have distinct timestamps.
- WebSocketFrames.HandleIncoming: allocation failure for a huge announced length is not modelled, and neither are sockets beyond partial transfers and failure.
- WebSocketFrames.FrameRoundTrip: payloads below 2^64 bytes, the range of `size_t`.
- Base64.TableIsTheAlphabet: the table is written as three runs of characters.
- WasmRecords.Invoke: the input zone is assumed to fit the module's memory, because the original writes before it checks; the engine call itself is the guest's `OnTrigger`.
- WasmRecords.Rev: a payload size above `PAYLOAD_MAX` would overflow the event's inline array in the original; the model copies it.
- WasmRecords.ImageRoundTrip: windows of at most 2^32 - 1 events, the range of the count; a longer one is written with its count cut to 32 bits.
- Config.ParseWindow: `std::stoull` is modelled on a trimmed field; vertical tabs and form feeds in front of the digits are not skipped.
- Config.Parse: the file is its contents, or absent.
- The HTTP part of the handshake, the dashboard's rendering, the stdout, file and HTTP endpoints, `dlopen`, Python, the reload monitor and the main loop: I/O or output formatting.
- `Config::of_type`, `get`, `has`, `get_ingestor_as`: easy members.
