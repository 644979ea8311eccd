# kc-core: executors, reorder buffer, buffer pool and clocks

A Dafny model of the parts of `crates/kc-core` whose behaviour depends on interleavings, on long call
sequences or on rounding, with proofs of what they promise. `dafny verify dfyconfig.toml` verifies everything.

* `Media`, `Metrics` hold the media buffer, 64-bit wrap-around, the stage counters and the load snapshot.
* `Chain` says what a list of stages computes, without an executor. A stage is a Mealy machine: from its
  state and a frame to its next state and a list of frames or an error. Each position has its own state.
* `Pipeline` is the sequential executor as a class, `Stream` the streaming executor as a transition
  system: feed, receive, decide and process, send, close, drain, return, and the two branches for a failed
  send. The order of steps and every policy decision are arbitrary. `StreamFlow` describes all reachable
  states, `StreamProgress` proves that runs neither block nor go on for ever, `StreamTheorems` has the
  results about whole runs, `StreamOutcomes` shows that every interleaving and every verdict they allow
  does occur in some run, `StreamInstances` has two short runs, and `StreamRun` is `run_to_vec` as a loop for any
  scheduler.
* `Jitter`, `JitterSort` are the reorder buffer and its sorting theorem; `Realtime` the bitrate window and
  the real-time policy.
* `Pool` is the size-bucketed pool; `Ownership` puts guards, writers, frozen frames, slices and outside
  callers over one memory and follows each allocation.
* `Timebase`, `Sync` are rescaling and drift with the source's truncating division and integer widths.

Where code and comments differ, the model follows the code:

* `Pause` sleeps once and processes the frame; it does not look again (`pipeline/stream.rs:56`, `161-163`).
* `queue_depth` comes from the stage's own counters, not from its queue (`pipeline/backpressure.rs:48`). At a
  policy decision it is 1, or 0 once a call has emitted two frames; see `LoadAtDecision`, `ShedsRegardlessOfQueue`,
  and the run `QueueIsNotSeen`.
* `memory_bytes` is not what a stage retains (`pipeline/metrics.rs:124`): it never gives back the bytes of
  dropped frames, nor those a stage took off a frame. `DroppedBytesStay` says exactly when it is right, and the
  run `ShedBytesStay` is one where it is not.
* A frame without timestamp does not come after everything seen so far (`realtime/mod.rs:106`). Its key is one
  more than the last released one, so it can overtake. `UntimedOvertakes` is an instance, `UntimedGoesLast`
  says exactly when it does go last, `UntimedKeepArrivalOrder` what is kept in any case. In a release
  build `i64::MAX + 1` wraps, and such a frame is then late; see `UntimedIsLate`.
* `pop` on a full, unprimed buffer (`realtime/mod.rs:135-136`) cannot happen; see `PopReturnsNothing`.
* `bits_per_sec` never divides by the spanned time (`realtime/mod.rs:220-221`): no sample is further behind the
  newest than the window is long, so the divisor is always the window. `BitsPerSec` says when that is the rate
  over the spanned time, and `HalfFilledWindow` is a case where it is not.
* `reserve` makes the first `count` acquires hits exactly when `count` is within the bucket's cap; see
  `ReserveMakesHits`.
* The cast that ends `rescale` wraps silently (`types.rs:89`). Order, agreement with the direct way and the way back
  then fail; `SecondsWrap` is an instance, and `RescaleMono`, `PathIndependence`, `RoundTrip` and `RoundTripAlways`
  say for which timebases and timestamps they hold.
* `i64::abs` wraps for the least number, so a clock can count as in sync and to be skipped at once
  (`SkipsInSync`). `DecisionsPartition` names exactly the clocks; without overflow there are none.
* The executors agree exactly when no stage call fails: `process_batch` gives up at the first error, the
  stream drops the frame and goes on.

## Model

| member | source | states |
|---|---|---|
| Metrics.StageMetrics.RecordIn | crates/kc-core/src/pipeline/metrics.rs:66-69 | one frame and its bytes are added to the in-counters and nothing else changes |
| Metrics.StageMetrics.RecordOut | crates/kc-core/src/pipeline/metrics.rs:74-80 | no frames out is one drop; otherwise frames and bytes are added |
| Metrics.StageMetrics.Reset | crates/kc-core/src/pipeline/metrics.rs:109-115 | all counters are zero again |
| Metrics.DepthFillsTheGap | crates/kc-core/src/pipeline/metrics.rs:128-136 | the reported depth makes up the difference between frames in and frames out or dropped, never below zero and at most the greatest 32-bit value |
| Metrics.LoadMetrics.QueueDepthRatio | crates/kc-core/src/pipeline/backpressure.rs:95-101 | the ratio lies in [0, 1], times the capacity it is the depth or the capacity if that is less, and it is 0 when the capacity is unknown |
| Chain.ShedWasNeverThere | crates/kc-core/src/pipeline/stream.rs:157-160 | to the stage, and to all that comes behind it, a shed frame was never there; it is only counted as a drop |
| Chain.FailedAddsNothing | crates/kc-core/src/pipeline/stream.rs:168-174 | a failed call leaves its next state, adds nothing to what was emitted and counts as one drop |
| Pipeline.Build | crates/kc-core/src/pipeline/mod.rs:241-255 | an empty pipeline is refused; otherwise every stage gets its own zeroed counters |
| Pipeline.Pipeline.RunStageOver | crates/kc-core/src/pipeline/mod.rs:136-169 | one stage over a list of frames: state, counters and result, stopping at the first failed call with the frame counted in and not out |
| Pipeline.Pipeline.Process | crates/kc-core/src/pipeline/mod.rs:124-176 | one frame through all stages, ending early when nothing is left or a call fails; later stages are then untouched |
| Pipeline.Pipeline.ProcessBatch | crates/kc-core/src/pipeline/mod.rs:201-207 | frames one after the other up to the first failure, with all states and counters; every frame tried is counted, the failing one included, and no other |
| Pipeline.FromIsChain | crates/kc-core/src/pipeline/mod.rs:135-175 | carrying a list through the stages succeeds exactly when no call fails, and is then the chain with its states and counters |
| Pipeline.BatchIsChain | crates/kc-core/src/pipeline/mod.rs:124-207 | going frame by frame through all stages equals going stage by stage over the whole batch, in output, states and counters; it succeeds exactly when the chain sees no error |
| Pipeline.PassFails | crates/kc-core/src/pipeline/mod.rs:138-161 | a stage fails at its first failing call: the calls before it have run, its state stays, its frame counts as received and neither as emitted nor as dropped, and its own error is returned |
| Pipeline.FromFails | crates/kc-core/src/pipeline/mod.rs:135-175 | a frame fails at the first failing stage: earlier stages have run as the chain, later ones keep states and counters |
| Pipeline.BatchFails | crates/kc-core/src/pipeline/mod.rs:201-207 | a batch fails at the first failing frame and leaves and returns what that frame does |
| Pipeline.BatchKeepsLedger | crates/kc-core/src/pipeline/mod.rs:135-175 | no stage is entered by more frames or bytes than its predecessor emitted, and by exactly as many if nothing fails |
| StreamRun.Build | crates/kc-core/src/pipeline/stream.rs:252-296 | an empty pipeline is refused with its error; otherwise stages, states and sources are kept, every stage has zeroed counters, and a capacity of zero is raised to one |
| StreamRun.RunToVec | crates/kc-core/src/pipeline/stream.rs:112-222 | for any scheduler and policy the run ends within a bound fixed beforehand, and returns the chain applied to an interleaving of the sources |
| StreamFlow.RunKeepsInv | crates/kc-core/src/pipeline/stream.rs:112-222 | in every reachable state each stage has handled a prefix of what was sent to it and its emissions are in the next channel or pending, sources are muxed in order, channels are within capacity, receivers leave only from closed empty channels |
| StreamFlow.NobodyFails | crates/kc-core/src/pipeline/stream.rs:182-184 | no send of a feeder or a stage ever meets a dropped receiver |
| StreamProgress.SomeStep | crates/kc-core/src/pipeline/stream.rs:142-213 | names a step that can be taken in any state that is not final |
| StreamProgress.ReturnedIsFinal | crates/kc-core/src/pipeline/stream.rs:190-220 | when the drain loop ends, all feeders and stages have ended, so awaiting them does not block |
| StreamProgress.NoDeadlock | crates/kc-core/src/pipeline/stream.rs:118-213 | a reachable state is final if and only if no step is enabled; the failed-send branches are never enabled |
| StreamProgress.StepIsCounted | crates/kc-core/src/pipeline/stream.rs:142-213 | every step uses up exactly one unit of the run's budget |
| StreamProgress.RunsAreBounded | crates/kc-core/src/pipeline/stream.rs:142-220 | a number computed from job and sources alone bounds the length of every run, under every schedule, policy and finite fan-out |
| StreamTheorems.CompleteRunIsChain | crates/kc-core/src/pipeline/stream.rs:144-213 | every complete run interleaves the sources, reaches one verdict per frame and stage, and its output, states and counters are those of the chain in which shed and failed frames contribute nothing; all channels end empty |
| StreamTheorems.ScheduleIndependence | crates/kc-core/src/pipeline/stream.rs:112-222 | complete runs with the same mux order and verdicts end in the same state after the same number of steps |
| StreamTheorems.AgreesWithSequential | crates/kc-core/src/pipeline/stream.rs:104-222 | unless frames are shed, `process_batch` accepts the muxed frames exactly when no call of the streaming run failed, and then output, states and counters coincide; whatever fails, a batch of the frames before it returns where the stream's output begins |
| StreamTheorems.InfallibleStagesAgree | crates/kc-core/src/pipeline/stream.rs:104-222 | with stages that never fail and a policy that never sheds both executors return the same frames and leave the same states and counters |
| StreamTheorems.OneSourceAgreesWithSequential | crates/kc-core/src/pipeline/stream.rs:104-222 | with one source the same holds of the source itself, under every schedule |
| StreamOutcomes.EveryOutcomeHappens | crates/kc-core/src/pipeline/stream.rs:112-222 | every interleaving of the sources together with every list of verdicts is that of some complete run: it fed these frames in this order, reached these verdicts on all frames a stage received, and has output, states and counters of the chain of exactly that |
| StreamTheorems.LedgerBetween | crates/kc-core/src/pipeline/stream.rs:147-186 | in every reachable state frames and bytes emitted by a stage are those received by the next, those queued between and those pending; nothing waits at the end |
| StreamTheorems.LedgerAtSources | crates/kc-core/src/pipeline/stream.rs:195-207 | frames entered, queued and not yet fed add up to the sources in every reachable state |
| StreamTheorems.LedgerAtOutput | crates/kc-core/src/pipeline/stream.rs:209-213 | frames emitted by the last stage are the output, the queued and the pending ones; only the output at the end |
| StreamTheorems.HandledAreCounted | crates/kc-core/src/pipeline/metrics.rs:74-81 | emitted frames and drops cover all handled frames, exactly if and only if no call emitted two |
| StreamTheorems.LoadAtDecision | crates/kc-core/src/pipeline/metrics.rs:128-140 | at every policy decision the in-flight depth is at most 1, and is 1 if and only if no call so far emitted two frames; it is the queue's length exactly when that happens to be this number |
| StreamInstances.QueueIsNotSeen | crates/kc-core/src/pipeline/metrics.rs:128-140 | a run after which two frames wait, one is held and the reported depth is 1 |
| StreamTheorems.CountersStayBalanced | crates/kc-core/src/pipeline/stream.rs:147-179 | a complete run leaves the counters so that the bound on the depth holds in the next run too |
| StreamTheorems.DroppedBytesStay | crates/kc-core/src/pipeline/metrics.rs:134-137 | the reported memory is all bytes received less all bytes emitted; it is the bytes of the held frame if and only if the stage emitted as many bytes as it handled, or holds none and emitted more |
| StreamInstances.ShedBytesStay | crates/kc-core/src/pipeline/metrics.rs:134-137 | a run that shed one frame, at whose next decision the report is twice the bytes held |
| StreamTheorems.MemoryBound | crates/kc-core/src/pipeline/stream.rs:118-186 | no channel exceeds the capacity, and with n stages and fan-out k at most (n+1)*capacity + n*max(1,k) frames are inside |
| StreamTheorems.OnlyFullBlocks | crates/kc-core/src/pipeline/stream.rs:118-126 | in every reachable state a feeder or stage with something to send can send unless the channel holds as many frames as its capacity |
| StreamTheorems.QueueFills | crates/kc-core/src/pipeline/stream.rs:118-126 | a channel does take as many frames as its capacity before any is received |
| Jitter.JitterBuffer.constructor | crates/kc-core/src/realtime/mod.rs:84-97 | target depth and capacity are clamped, everything else is empty |
| Jitter.JitterBuffer.Push | crates/kc-core/src/realtime/mod.rs:100-131 | key, late check, capacity check, insertion, priming and the returned verdict |
| Jitter.JitterBuffer.Pop | crates/kc-core/src/realtime/mod.rs:137-145 | the least frame once primed, and the new release mark |
| Jitter.JitterBuffer.Flush | crates/kc-core/src/realtime/mod.rs:148-155 | all frames in order, least first, and the new release mark |
| Jitter.InsertAt | crates/kc-core/src/realtime/mod.rs:54-58 | a new arrival is placed behind all frames with at most its key and before all with a greater one |
| Jitter.AlwaysOrdered | crates/kc-core/src/realtime/mod.rs:100-155 | after any calls, released frames followed by buffered ones form one strictly increasing list in (key, arrival) |
| Jitter.ReleasedInOrder | crates/kc-core/src/realtime/mod.rs:60-66 | after any calls the released (key, arrival) pairs are strictly increasing |
| Jitter.ReturnedIsReleased | crates/kc-core/src/realtime/mod.rs:137-155 | over any calls, what `pop` and `flush` returned, put together, is exactly the frames released, in that order |
| Jitter.EveryPushAccounted | crates/kc-core/src/realtime/mod.rs:100-155 | pushes are released, buffered, late or rejected, and the buffer is never over capacity |
| Jitter.OpensOnce | crates/kc-core/src/realtime/mod.rs:84-97 | the limits are those asked for, raised to be usable; the buffer is primed if and only if the target depth was reached at some time, also after it ran empty or was flushed |
| Jitter.PushEnds | crates/kc-core/src/realtime/mod.rs:100-131 | a push is late exactly if a frame of its key or a greater one is out, full exactly if not late at capacity, ready exactly if it then reaches the target; late and rejected frames change nothing but the late count |
| Jitter.PushPlaces | crates/kc-core/src/realtime/mod.rs:100-123 | an accepted frame goes behind lower and equal keys and ahead of greater ones; without timestamp its key is one more than the last released |
| Jitter.PopReturnsNothing | crates/kc-core/src/realtime/mod.rs:133-145 | `pop` returns nothing exactly when the target depth was never reached or the buffer is empty; a full buffer is always primed |
| Jitter.UntimedIsLate | crates/kc-core/src/realtime/mod.rs:101-115 | a frame without timestamp is late exactly when the last released key is the greatest 64-bit value |
| Jitter.UntimedGoesLast | crates/kc-core/src/realtime/mod.rs:106-107 | it goes behind all buffered frames exactly when none of them has a key above the one it gets |
| Jitter.UntimedOvertakes | crates/kc-core/src/realtime/mod.rs:106-107 | an instance in which it overtakes a frame that arrived earlier |
| Jitter.UntimedKeepArrivalOrder | crates/kc-core/src/realtime/mod.rs:99-131 | over any calls, frames without timestamp come out in arrival order among themselves |
| JitterSort.LateExactly | crates/kc-core/src/realtime/mod.rs:110-118 | in the push-and-pop protocol a frame is late exactly when `target_depth` kept frames are not earlier, and never rejected |
| JitterSort.SortsWhatIsInTime | crates/kc-core/src/realtime/mod.rs:84-155 | for every arrival order none is rejected, late ones are exactly those out of time, and what `pop` and `flush` returned is the stable sort by timestamp of the others |
| JitterSort.AllInTime | crates/kc-core/src/realtime/mod.rs:110-115 | all frames are in time exactly when each has fewer than the depth of frames before it that are not earlier |
| JitterSort.SortingTheorem | crates/kc-core/src/realtime/mod.rs:84-155 | no frame is late if and only if each has fewer than `target_depth` earlier arrivals not before it in time, and then what `pop` and `flush` returned is the stable sort of the input |
| Realtime.BitrateEstimator.constructor | crates/kc-core/src/realtime/mod.rs:195-201 | the window is clamped to a millisecond |
| Realtime.BitrateEstimator.Sample | crates/kc-core/src/realtime/mod.rs:205-217 | the running total stays the sum of the window, the subtraction never underflows, old samples leave from the front |
| Realtime.EvictsOldPrefix | crates/kc-core/src/realtime/mod.rs:208-216 | whatever the times, what leaves is the longest run of old samples at the front |
| Realtime.BitrateEstimator.BitsPerSec | crates/kc-core/src/realtime/mod.rs:222-230 | the estimate is eight times the bytes in the window over the whole window, always; it is the rate over the spanned time if and only if that is the window or there are no bytes |
| Realtime.HalfFilledWindow | crates/kc-core/src/realtime/mod.rs:206-231 | two samples closer together than the window, through the public calls: the estimate is not the rate over the spanned time |
| Realtime.WindowIsExact | crates/kc-core/src/realtime/mod.rs:205-217 | with a monotonic clock the window holds exactly the samples ever recorded that are young enough |
| Realtime.NewPolicy | crates/kc-core/src/realtime/mod.rs:256-261 | the latency budget is kept and the shed ratio clamped to the nearer end of [0, 1] |
| Realtime.ShedsRegardlessOfQueue | crates/kc-core/src/realtime/mod.rs:271-281 | in a streaming run the policy sheds exactly on latency, or when 1/capacity exceeds the ratio and no call has emitted two frames |
| Realtime.DefaultRatioNeverSheds | crates/kc-core/src/realtime/mod.rs:264-281 | with the default ratio and a capacity of two or more the queue never makes it shed |
| Pool.BucketIndex | crates/kc-core/src/buffer/pool.rs:132-138 | the smallest bucket that fits, none exactly above the largest |
| Pool.RecycleIndex | crates/kc-core/src/buffer/pool.rs:197-203 | the bucket whose size is at most the capacity and more than half of it, none exactly outside the range |
| Pool.BufferPool.AcquireBuffer | crates/kc-core/src/buffer/pool.rs:145-163 | a pooled buffer of the bucket or a new one of exactly the bucket's or the oversized request's size, with the statistics |
| Pool.AcquireServes | crates/kc-core/src/buffer/pool.rs:145-163 | a new buffer of exactly the requested size above the largest bucket, one of the smallest serving bucket's size if that bucket is empty, otherwise the buffer last put there; only that is a hit, and nothing else in the pool changes |
| Pool.BufferPool.RecycleBuffer | crates/kc-core/src/buffer/pool.rs:171-191 | filed by capacity within the cap, or dropped, with the statistics |
| Pool.UnfitIsDropped | crates/kc-core/src/buffer/pool.rs:171-184 | a buffer above the largest bucket or below the smallest is dropped and counted as dropped |
| Pool.BufferPool.ReserveBuffers | crates/kc-core/src/buffer/pool.rs:225-236 | the bucket is filled with new buffers as far as count and cap allow |
| Pool.ReserveAppends | crates/kc-core/src/buffer/pool.rs:225-236 | as many new buffers as count and cap allow, each of exactly the serving bucket's size, behind those already there; nothing for a size above the largest bucket |
| Pool.BufferPool.Memory | crates/kc-core/src/buffer/pool.rs:246-252 | the sum over all buckets of their size times their number of buffers |
| Pool.MemoryUpdate | crates/kc-core/src/buffer/pool.rs:246-252 | replacing a bucket changes the memory used by its size times the change in its length |
| Pool.BufferPool.ClearAll | crates/kc-core/src/buffer/pool.rs:255-259 | every bucket is empty and the statistics are kept |
| Pool.BufferPool.ShrinkBuckets | crates/kc-core/src/buffer/pool.rs:273-277 | every bucket is cut to the given length and the statistics are kept |
| Pool.ShrinksByCount | crates/kc-core/src/buffer/pool.rs:254-277 | `clear` leaves no buffer and no memory in use, `shrink_to` the first `max` buffers of each bucket, and neither touches the statistics |
| Pool.BufferPool.ShrinkToBudget | crates/kc-core/src/buffer/pool.rs:287-300 | the nested loops end and compute the largest-first shedding |
| Pool.AlwaysSound | crates/kc-core/src/buffer/pool.rs:145-191 | after any calls every buffer is at least as large as its bucket, not twice as large and not above the largest bucket, and buckets are within the cap |
| Pool.AcquiredIsLargeEnough | crates/kc-core/src/buffer/pool.rs:140-163 | after any calls `acquire` returns a capacity of at least the request |
| Pool.MemoryUsedIsClose | crates/kc-core/src/buffer/pool.rs:246-252 | the true retained capacity is at least `memory_used` and, unless the pool is empty, less than twice it |
| Pool.EveryBufferAccounted | crates/kc-core/src/buffer/pool.rs:85-95 | recycled is hits plus pooled plus shed, recycled plus dropped is handed back plus reserved, hits plus misses is acquires |
| Pool.RecycleThenAcquire | crates/kc-core/src/buffer/pool.rs:145-191 | a buffer just recycled is the next one acquired for its bucket, and the buckets are as before |
| Pool.AcquiredComesBack | crates/kc-core/src/buffer/pool.rs:145-203 | in a sound pool any buffer acquired for a poolable size is, once recycled, the next one acquired for it, a hit; a miss exactly if the cap is zero |
| Pool.ReserveMakesHits | crates/kc-core/src/buffer/pool.rs:225-236 | of the next `count` acquires as many are hits as the cap allows, all of them exactly when `count` is within the cap |
| Pool.ShrinksLargestFirst | crates/kc-core/src/buffer/pool.rs:287-300 | the result is within budget, larger buckets are empty, smaller ones unchanged, one is a prefix of itself, and putting the last buffer back would exceed the budget |
| Pool.ShrinkIsDetermined | crates/kc-core/src/buffer/pool.rs:287-300 | those properties determine the result |
| Ownership.BeginOwns | crates/kc-core/src/buffer/mod.rs:36-38 | a new pool with no handles is a world in which everything has one owner |
| Ownership.AlwaysOneOwner | crates/kc-core/src/buffer/mod.rs:70-108 | under any interleaving of calls each allocation is pooled once, or one guard's, writer's or caller's, or frozen |
| Ownership.StepIsolates | crates/kc-core/src/buffer/mod.rs:437-476 | no call changes what any handle but its own reads |
| Ownership.FrozenNeverChanges | crates/kc-core/src/buffer/mod.rs:478-506 | a frozen frame or slice reads the same bytes after any later calls, as long as it lives |
| Ownership.FreezeDelivers | crates/kc-core/src/buffer/mod.rs:461-506 | both ways to freeze deliver exactly the written bytes, fail exactly above the size limit, and consume the writer |
| Ownership.ExtendAppends | crates/kc-core/src/buffer/mod.rs:446-448 | `extend` appends its bytes, in place exactly as long as they fit and otherwise by moving to a new allocation |
| Ownership.FrozenIsWritten | crates/kc-core/src/buffer/mod.rs:437-506 | whatever happens between, a writer freezes into exactly what it was extended by, in order, whichever way it is frozen |
| Ownership.SliceReads | crates/kc-core/src/buffer/mod.rs:279-291 | a slice reads exactly that part of the frame, shares its allocation, and is refused exactly when out of bounds |
| Ownership.WriteReplaces | crates/kc-core/src/buffer/mod.rs:95-99 | through a guard or a loose buffer one reads what was last written |
| Ownership.DrawnIsEmpty | crates/kc-core/src/buffer/mod.rs:424-445 | each way to draw a buffer adds one empty handle of its kind, with what the pool hands out or a new allocation of the capacity asked for |
| Ownership.TakenIsGone | crates/kc-core/src/buffer/mod.rs:461-506 | calls that take a handle by value leave it with nobody |
| Ownership.PoolFollowsCalls | crates/kc-core/src/buffer/mod.rs:70-108 | over any calls the pool is where the acquires of the draws and the recycles of dropped guards, copying freezes and outside callers take it, and nothing else reaches it; so it is always sound |
| Ownership.AcquiredIsFresh | crates/kc-core/src/buffer/mod.rs:70-76 | a guard's buffer is empty and shared with nobody |
| Ownership.ScratchIsReused | crates/kc-core/src/buffer/mod.rs:456-476 | after a copying freeze the scratch serves the next writer, empty, while the frame keeps its bytes |
| Ownership.GuardIsReused | crates/kc-core/src/buffer/mod.rs:101-108 | a dropped guard's buffer serves the next guard, empty |
| Ownership.LooseIsReused | crates/kc-core/src/buffer/pool.rs:171-191 | a buffer an outside caller recycles serves the next guard, empty |
| Ownership.ScratchComesBack | crates/kc-core/src/buffer/mod.rs:437-476 | over a sound pool, draw a writer, extend within the requested size, freeze and draw again: the same allocation, empty, a hit, and the frame has the bytes |
| Ownership.GuardComesBack | crates/kc-core/src/buffer/mod.rs:70-108 | likewise for a guard drawn, written, dropped and drawn again |
| Ownership.NothingComesBack | crates/kc-core/src/buffer/mod.rs:83-85 | `into_inner` and the zero-copy freeze leave pool and memory as they are |
| Timebase.NoOverflow128 | crates/kc-core/src/types.rs:87-88 | all intermediate products fit 128 bits for every timestamp and timebase |
| Timebase.RescaleMono | crates/kc-core/src/types.rs:83-90 | rescaling is monotone on all timestamps if and only if the greatest one fits 64 bits after it, and in any case on those that fit |
| Timebase.AllFit | crates/kc-core/src/types.rs:83-90 | every timestamp fits after rescaling if and only if the greatest one does |
| Timebase.SecondsWrap | crates/kc-core/src/types.rs:83-90 | an instance where order, the way back and the agreement with the direct way are lost |
| Timebase.PathIndependence | crates/kc-core/src/types.rs:83-90 | going through a timebase whose tick divides the target's evenly equals rescaling directly for every timestamp that fits on the way, and for all timestamps if and only if the greatest fits, the ticks are equal, or all results are zero |
| Timebase.RoundTrip | crates/kc-core/src/types.rs:83-90 | there and back through a timebase at least as fine loses at most one tick, toward zero, if and only if the timestamp fits on the way or is a single tick not cast to "no timestamp"; nothing if and only if it fits and is a whole number of the finer ticks |
| Timebase.RoundTripAlways | crates/kc-core/src/types.rs:83-90 | at most one tick is lost on every timestamp if and only if the greatest one fits |
| Sync.MasterClock.Init | crates/kc-core/src/sync/mod.rs:38-41 | the timestamp is stored, valid or not |
| Sync.MasterClock.Update | crates/kc-core/src/sync/mod.rs:42-46 | a valid timestamp is stored, an invalid one ignored |
| Sync.StreamClock.Update | crates/kc-core/src/sync/mod.rs:76-80 | a valid timestamp is stored, an invalid one ignored |
| Sync.StreamClock.DriftMs | crates/kc-core/src/sync/mod.rs:82-99 | the drift with every 64-bit operation, or the error for a clock not set |
| Sync.DriftWrapsOnce | crates/kc-core/src/sync/mod.rs:82-99 | with overflow the separate wraps amount to wrapping the product once before the division |
| Sync.DriftAccuracy | crates/kc-core/src/sync/mod.rs:82-99 | absent overflow the drift is within one millisecond plus one master tick of the exact difference |
| Sync.DriftMonotone | crates/kc-core/src/sync/mod.rs:82-99 | it is monotone in the stream's timestamp and antitone in the master's |
| Sync.DecisionsPartition | crates/kc-core/src/sync/mod.rs:101-116 | with clocks set, skip, in sync and more than 40 ms ahead cover all cases and exclude each other, except that skip and in sync coincide for exactly the clocks whose master denominator is 1 and whose tick difference times the master numerator is 2^60 modulo 2^61; never without overflow; a wait is given exactly for a positive drift, is the drift and never meets a skip; with a clock not set there is an error and nothing is decided |
| Sync.LeastDrift | crates/kc-core/src/sync/mod.rs:98-108 | the drift is the least 64-bit number if and only if the clocks are those |
| Sync.SkipsInSync | crates/kc-core/src/sync/mod.rs:101-108 | clocks that are in sync and to be skipped at once |
| Sync.DecisionsAreRight | crates/kc-core/src/sync/mod.rs:101-108 | skip and in sync are right about the exact difference outside that margin around the limit |
| Sync.WaitIsRight | crates/kc-core/src/sync/mod.rs:109-116 | absent overflow a stream at least one millisecond and one tick ahead waits, by the exact difference up to that margin; one at least a tick behind does not |

## Left out

- Wake-up order of tokio, wall-clock time, sleeps and latency values: every order of steps is a run, and latency is a parameter.
- Task panics and cancelling the `run_to_vec` future: a run is taken to its end.
- The start of a streaming run begins when all loops are spawned and the original senders dropped; loops spawned earlier can only have waited or done steps that are also possible then.
- Stages that read `StageContext`, and one stage object used at two positions: a stage sees its own state and the frame.
- Wrap-around of the 64-bit counters and of buffer lengths: they are natural numbers.
- Floating-point rounding in ratios, times and bitrates: they are reals.
- The severity of a shed decision and the latency fields of `StageMetrics`: no branch in core depends on them.
- Metadata of `MediaBuffer` other than timestamp and payload is one uninterpreted field.
- The array layout of `BinaryHeap`: it is a sorted list, which has the same least element.
- The growth policy of `BytesMut`: the new capacity is a parameter, and a fresh buffer has exactly the requested capacity.
- Release of memory and reuse of addresses: an allocation's name is never given out twice.
- The splitting operations of `BytesMut` (`split`, `split_to`, `split_off`, `unsplit`), reachable through a guard's `DerefMut` or an outside buffer: they let two handles share one allocation, so `AlwaysOneOwner` does not speak of them.
- Debug builds, in which 64-bit overflow panics: the model wraps as a release build does.
- Several pools side by side: `Ownership` has one.
- A zero denominator or target numerator in a `Timebase`, on which the source panics.
- GPU backends, FFI, napi bindings, the TypeScript layer, `StageRegistry`, `WorkerPool`, memory source and sink, metrics export: they add only easy members.
