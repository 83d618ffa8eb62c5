# vkpace pacing engine: a verified model

vkpace is a Vulkan layer that paces frames for the Reflex extension `VK_NV_low_latency2`.
It wraps queue submits in GPU timestamps, waits for a frame's work to finish, delays the
frame, and only then signals the semaphore the game sleeps on. This project models that
engine in Dafny 4.11 and proves what its parts promise to each other.

`dafny verify dfyconfig.toml` checks everything.

| part | modules |
|---|---|
| timestamp pairs: allocation, life cycle, growth | `Word64`, `FreeBitset`, `ChunkLists`, `PoolLifecycle`, `PoolCapacity` |
| worker threads parked on a condition variable | `WakeProtocol` |
| injecting timestamps into submits | `SubmitInjection` |
| spans per present id, and claiming them | `QueueSpans`, `QueueClaims` |
| the host clock | `HostClock` |
| bounded waits, semaphore signals, the swapchain monitor, a turn of its worker | `SpanWait`, `Timeline`, `Monitor`, `MonitorWorker` |
| frame delay | `Pacing` |
| marker history and display timings | `Markers`, `GoogleTiming`, `TimingCorrelation` |
| enabling device features on a pNext chain | `FeatureChain`, `FeatureNodes` |
| telemetry: line format and plots | `Telemetry`, `HudBins` |

## How it is modelled

* Code that updates fields in place is a class whose methods are proved against a
  specification function (`Bitset`, `ChunkList`, `LowLatency2Queue`, `SwapchainMonitor`,
  `DelayController`, `MarkerHistory`, `GoogleTimingWorker`, `SharedState`, the linked feature `Node`s).
  The properties of runs are then lemmas about those functions.
* Interleavings are transition systems (`PoolLifecycle`, `WakeProtocol`, `Monitor`, `TimingCorrelation`). One event
  is one critical section or one atomic operation. `After(es)` is the state after the events
  `es`, or `None` when one of them was not possible, so a lemma about every `es` with
  `After(es).Some?` is a lemma about every run of every schedule.
* The driver is a parameter or an event: whether a chunk, a recording or a submit succeeds,
  when the GPU finishes, what a query returns. A query with WAIT returns only when the GPU has
  written it. A wait reads a host clock that advances from one reading to the next.
* `u64` words of the bitset are naturals below 2^64 with explicit bitwise operations, and parsed
  numbers fail at 2^64. Floating-point averages are reals, and `as i64` truncates toward zero.

## Where the code differs from its documentation

The model follows the code.

* `record_widest` (`src/strategy/low_latency2/swapchain_monitor.rs:188-194`) says it keeps the
  envelope of all spans of a present. It overwrites: the last recorded span wins
  (`Markers.LastTimesWin`). `Markers.WidestOnlyIfLast` says exactly when that is the envelope,
  and `Markers.EnvelopeIsLost` shows two spans for which it is not.
* `stop` is set and notified without the lock, in the reaper, the present-wait worker and the
  monitor. Pushes are never missed, but a stop can be: `WakeProtocol.StopEndsWorkerIff` and
  `Monitor.ShutdownEndsIff` say exactly when the worker ends, and `StopCanBeMissed` in both
  modules shows a run in which it does not.
* The Google timing fallback pairs timings with presents by position
  (`src/present_wait.rs:112-122`). A timing reaches its own present exactly under the balance of
  `TimingCorrelation.ReachesOwnerIff`; while the driver reports every present, all do exactly when
  no present lacks an id, none meets a full FIFO, and no poll brings more timings than ids are
  pending (`TimingCorrelation.ExactIffClean`). Two kinds of run in which they do not:
  a timing that comes before its enqueue, which follows the driver's part of the present
  (`TimingCorrelation.EarlyTimingShiftsTheRest`), and a present without an id
  (`TimingCorrelation.AnonymousPresentShiftsTheRest`).
* The same fallback promises never to hand a wildly skewed timestamp to the marker history
  (`src/present_wait.rs:297-298`). Only the first non-zero time of a run is checked:
  `GoogleTiming.NoneSkewedIff` says when that suffices, `GoogleTiming.SkewedTimeIsRecorded`
  shows a run in which it does not.
* The HUD promises that sealed bins never change (`tools/vkpace-hud/src/stats.rs:74-76`). They
  change when the left edge of the window cuts them, when a late record falls into them, and when
  the ring of 4096 records, which is shorter than the 60 s window above about 68 frames per second
  (`tools/vkpace-hud/src/state.rs:17-45`), drops one of their records (`HudBins.SealedBinIff`,
  `HudBins.RingBinIff`, `HudBins.CutBinChanges`, `HudBins.RingDropChanges`).
* A pair whose recording fails is not returned to its bitset; the model keeps such pairs in a
  class of their own (`PoolLifecycle.OnlyAbandonedPairsLeak`).
* The FIFO that bounds the tracked presents holds one entry per tagged submit, not per id
  (`QueueSpans.FreshIdLivesFiftySubmits`).
* The feature patch avoids combined feature structs on old instances, but a combined struct the
  caller chained there anyway then meets the separate struct the layer adds
  (`FeatureChain.OverlapIff`, `FeatureChain.OverlapOnOldInstance`).

## Model

| member | source | states |
|---|---|---|
| Word64.OrBit | src/timestamp_pool.rs:42 | bit i of a word or-ed with another is set exactly when it is set in either |
| Word64.AndNotBit | src/timestamp_pool.rs:53 | bit i survives masking exactly when it is set and not masked |
| Word64.TrailingZerosIsLeastBit | src/timestamp_pool.rs:52 | the trailing-zero count of a non-zero word is its least set bit |
| FreeBitset.Bitset.Full | src/timestamp_pool.rs:38-45 | a new chunk has exactly its 256 pairs free, none beyond |
| FreeBitset.Bitset.AcquirePair | src/timestamp_pool.rs:47-60 | the wrap-around search from the hint returns the lowest free pair and takes only that one; None exactly when nothing is free |
| FreeBitset.Bitset.FirstNonZero | src/timestamp_pool.rs:48-51 | starting at the hint and wrapping finds the first non-zero word of all, because the words below the hint are zero |
| FreeBitset.Bitset.ReleasePair | src/timestamp_pool.rs:62-66 | frees that pair, no other, and keeps the hint valid |
| FreeBitset.Bitset.AnyFree | src/timestamp_pool.rs:68-70 | true exactly when some pair is free |
| FreeBitset.LowestInWords | src/timestamp_pool.rs:50-56 | least bit of the first non-zero word is the lowest free pair |
| FreeBitset.SetPair | src/timestamp_pool.rs:64 | setting the bit frees one pair and touches no other |
| FreeBitset.ClearPair | src/timestamp_pool.rs:53 | clearing the bit takes one pair and touches no other |
| ChunkLists.ChunkList.FindOrAlloc | src/timestamp_pool.rs:305-328 | hands out the least free pair of the first chunk with one, or pair 0 of a new chunk when none has; fails only when nothing is free and the driver refuses a chunk, and then changes nothing |
| ChunkLists.ChunkList.Release | src/timestamp_pool.rs:446-449 | frees one pair of one chunk; an unknown chunk is ignored |
| ChunkLists.HandsOutIsAnEvent | src/timestamp_pool.rs:305-328 | what the chunk list does is an enabled event of the life cycle, with the same effect |
| ChunkLists.ReleaseIsAnEvent | src/timestamp_pool.rs:446-449 | so is giving a pair back once the reaper has waited for it |
| PoolLifecycle.PairsHaveOneOwner | src/timestamp_pool.rs:292-450 | in every reachable state of every interleaving each pair is in exactly one place (free, being recorded, a live handle, the queue, the reaper, abandoned), no two live handles share a pair, and the reaper never frees a free pair |
| PoolLifecycle.PendingPairsAreLeftAlone | src/timestamp_pool.rs:330-450 | no step of any run hands out, re-records, submits again or frees a pair whose command buffers are pending on the GPU |
| PoolLifecycle.PendingKept | src/entrypoints/queue.rs:142-191 | whoever holds a pending pair knows that it was submitted, because the flag is set while the submit path still owns the handle |
| PoolLifecycle.OwnershipKept | src/timestamp_pool.rs:182-194 | each step moves a pair from one owner to one owner |
| PoolLifecycle.AcquiredWhenFree | src/timestamp_pool.rs:292-328 | in every run a thread that is about to record a pair alone holds it, and took it when it was free or the first of a new chunk |
| PoolLifecycle.OnlyAbandonedPairsLeak | src/timestamp_pool.rs:293-294 | when all handles are dropped and reaped, the pairs missing from the bitsets are exactly those whose recording failed in the run |
| PoolLifecycle.AbandonedHaveFailed | src/timestamp_pool.rs:293-294 | the abandoned pairs are those whose recording failed in the run |
| PoolLifecycle.PendingSinceSubmit | src/entrypoints/queue.rs:177-195 | a pair is pending exactly when a handle on it was submitted and the GPU has not finished it since |
| PoolLifecycle.LivesWhileReferenced | src/timestamp_pool.rs:182-194 | a handle lives exactly while references to it, counted over the run, remain |
| PoolCapacity.ChunkCountIsPeak | src/timestamp_pool.rs:305-328 | over every run the number of chunks is the peak number of outstanding pairs divided by 256, rounded up |
| PoolCapacity.OutstandingFits | src/timestamp_pool.rs:24-26 | no more pairs are ever out than the chunks have |
| PoolCapacity.GrowTakesOneMore | src/timestamp_pool.rs:319-326 | a chunk is added only when every pair is out, and brings that number to a new peak |
| WakeProtocol.NoLostWakeUp | src/timestamp_pool.rs:403-423 | in every reachable state, a worker parked on a non-empty queue has a producer between its push and its notify |
| WakeProtocol.TakenInOrder | src/present_wait.rs:89-99 | what the worker took followed by what is queued is what was pushed, in order |
| WakeProtocol.InternalRunsEnd | src/timestamp_pool.rs:403-423 | without new pushes, at most Rank steps remain, whatever the schedule |
| WakeProtocol.EveryPushIsTaken | src/present_wait.rs:318-370 | while not stopped, once all threads have done what they can, every pushed item was taken, in order |
| WakeProtocol.StopEndsWorkerIff | src/timestamp_pool.rs:378-423 | after a stop and with no further push, the worker ends exactly unless the notify fell between its last look at the flag and its wait with no producer about to notify |
| WakeProtocol.StopCanBeMissed | src/present_wait.rs:102-110 | that case is reachable: a run that leaves the worker parked for ever |
| WakeProtocol.FinalDrainTakesAll | src/timestamp_pool.rs:403-423 | with the drain after stop, everything pushed until the worker ends was taken |
| WakeProtocol.NothingOlderIsLeft | src/timestamp_pool.rs:410-416 | a worker that has ended took exactly what was pushed up to that step |
| SubmitInjection.QueueSubmit | src/entrypoints/queue.rs:101-197 | one driver call with the wrapped batch, or with the caller's array when nothing is to be injected or an acquire fails; bookkeeping only after success (vkQueueSubmit2, lines 223-342, is the same loop over info records) |
| SubmitInjection.BatchIsPreserved | src/entrypoints/queue.rs:123-176 | the driver is called exactly once, and removing the layer's command buffers from what it gets leaves the caller's submits, in order and otherwise unchanged |
| SubmitInjection.WhatTheDriverGets | src/entrypoints/queue.rs:142-176 | with every acquire successful, each injected submit is the start buffer of its own pair, the caller's buffers and the end buffer of that pair, in this order, and every other submit is the caller's; otherwise the array is the caller's |
| SubmitInjection.TakenInOrder | src/entrypoints/queue.rs:142-167 | one acquire per submit to be injected, and their handles in that order |
| SubmitInjection.FailsAtFirst | src/entrypoints/queue.rs:147-151 | a batch fails at its first failing acquire, and the handles acquired before it, no others, are dropped |
| SubmitInjection.PairsOfABatchDiffer | src/entrypoints/queue.rs:142-167 | in every run of the pool, whatever other threads, the GPU and the reaper do meanwhile, the injected submits of a batch hold pairwise different pairs with no command buffer in common, each recorded while nobody else held it |
| SubmitInjection.HandleStays | src/entrypoints/queue.rs:147-166 | a handle acquired for a batch stays alive on its pair while the submit path owns it |
| SubmitInjection.HandlesAreMarkedIffSubmitted | src/entrypoints/queue.rs:180-195 | when the driver accepted the batch, each injected submit's handle is marked and right after that given to the strategy with that submit's own tag, in order; the number of injected submits is reported; otherwise every handle is dropped unmarked; a failed acquire marks nothing and drops what was acquired before |
| QueueSpans.LowLatency2Queue.NotifySubmit | src/strategy/low_latency2/mod.rs:179-204 | the new map and FIFO: create or extend the span, then evict at the 51st tagged submit |
| QueueSpans.AlwaysBounded | src/strategy/low_latency2/mod.rs:195-203 | over every run each tagged id held is in the FIFO, and at most 51 spans are held |
| QueueSpans.SpanCoversItsHandles | src/submission_span.rs:16-26 | an id is claimable exactly when handles were submitted for it since it was last taken or evicted, and its span is the first and the last of those |
| QueueSpans.ClaimableUntil | src/strategy/low_latency2/mod.rs:163-204 | an id whose oldest FIFO entry has m behind it survives the next 49 - m tagged submits and is evicted by the one after |
| QueueSpans.FreshIdLivesFiftySubmits | src/strategy/low_latency2/mod.rs:195-203 | an id not in the FIFO at its first submit can be claimed until the 50th tagged submit after it, and not beyond |
| QueueClaims.CollectWork | src/strategy/low_latency2/mod.rs:57-70 | takes the id's span from each queue not marked out of band, in order, and changes nothing else |
| QueueClaims.WorkCoversEveryQueue | src/strategy/low_latency2/mod.rs:57-70 | the work of a present is, for each in-band queue with handles for it, exactly one span from the first to the last handle, in queue order |
| QueueClaims.ClaimedOnce | src/strategy/low_latency2/mod.rs:163-165 | claiming the same present again yields nothing |
| SpanWait.AwaitCompletedUntil | src/submission_span.rs:66-92 | terminates on every advancing clock |
| SpanWait.AwaitMeans | src/submission_span.rs:66-92 | returns true exactly when the GPU is seen finished before the deadline is seen; otherwise the deadline has passed |
| SpanWait.WaitForGroups | src/strategy/low_latency2/swapchain_monitor.rs:148-181 | awaits the groups in order, each until its first timeout, and records the times of the completed spans |
| SpanWait.WholeWaitIsBounded | src/strategy/low_latency2/swapchain_monitor.rs:148-181 | whatever the GPU does, all groups together take at most the one budget plus a probe per span, and a group is cut short only after the deadline |
| SpanWait.WholeWaitMeans | src/strategy/low_latency2/swapchain_monitor.rs:153-181 | the wait goes through the spans in order; it stays with one, probing the handle of its last submit, until that is seen ended or, still running, the deadline is seen, which ends its group only |
| SpanWait.DoneMeansFinished | src/strategy/low_latency2/swapchain_monitor.rs:157-160 | the last submit of every span counted as done ended at a tick of the wait; the span a group was cut short at was never seen ended before the deadline was seen |
| SpanWait.FinishedOrTimeIsUp | src/strategy/low_latency2/swapchain_monitor.rs:148-185 | when the wait is over, each span of each group has been seen ended or the deadline has passed |
| SpanWait.RecordCount | src/strategy/low_latency2/swapchain_monitor.rs:160-171 | there are as many records as completed spans with known times |
| SpanWait.RecordsAreTheCompleted | src/strategy/low_latency2/swapchain_monitor.rs:160-171 | each completed span with known times is recorded with its own start and end, under its group's present id, after the records of those completed before it; by RecordCount there are no others |
| Timeline.Send | src/strategy/low_latency2/semaphore_signal.rs:23-42 | the driver is called exactly when the value is ahead of a readable counter, as section 7.4 of the Vulkan 1.3 specification requires; without the entry points the signal is dropped |
| Timeline.SignalsLeaveTheHighest | src/strategy/low_latency2/semaphore_signal.rs:23-42 | any sequence of signals leaves each counter at the maximum of its start and the requested values |
| Timeline.EveryWaiterIsReleased | src/strategy/low_latency2/mod.rs:95-108 | whoever waits for a requested value is released |
| Timeline.OrderDoesNotMatter | src/strategy/low_latency2/semaphore_signal.rs:1-6 | signals in any order leave the same counters, so an immediate signal may overtake queued ones |
| Monitor.SwapchainMonitor.NotifySemaphore | src/strategy/low_latency2/swapchain_monitor.rs:92-104 | signals at once, or queues the signal with all groups gathered so far; never both, never neither; the driver calls it makes |
| Monitor.SwapchainMonitor.AttachWork | src/strategy/low_latency2/swapchain_monitor.rs:106-112 | appends the group while pacing is on, else ignores it |
| Monitor.SwapchainMonitor.DrainAfterStop | src/strategy/low_latency2/swapchain_monitor.rs:138-142 | after stop every queued signal is carried out, oldest first |
| Monitor.SignalsAndGroupsAreConserved | src/strategy/low_latency2/swapchain_monitor.rs:86-186 | over every run with mode switches and shutdown: every signal is sent, about to be or queued, exactly one of these; queued signals are sent once in order; processed, queued and pending groups concatenated are the accepted groups |
| Monitor.EachSignalHasItsWork | src/strategy/low_latency2/swapchain_monitor.rs:86-112 | over every run the signals finished, in hand and queued are those that came while pacing was on, in order, each with exactly the groups attached since the one before it |
| Monitor.SignalsAfterWaiting | src/strategy/low_latency2/swapchain_monitor.rs:138-184 | in every run the worker is about to signal only after its wait, or after it saw stop |
| Monitor.NoLostWakeUp | src/strategy/low_latency2/swapchain_monitor.rs:92-136 | a monitor worker parked while signals are queued has a notify coming |
| Monitor.RankFalls | src/strategy/low_latency2/swapchain_monitor.rs:125-186 | every step of the worker and of calls under way lowers a bound, so they come to rest |
| Monitor.NoSleeperIsLeftBehind | src/strategy/low_latency2/swapchain_monitor.rs:125-186 | when the worker has returned or all threads are at rest, every requested signal was carried out exactly once and every waiter is released |
| Monitor.ShutdownEndsIff | src/strategy/low_latency2/swapchain_monitor.rs:115-136 | after a shutdown the worker has returned exactly unless the notify fell between its last look at the flag and its wait |
| Monitor.StopCanBeMissed | src/strategy/low_latency2/swapchain_monitor.rs:117-120 | that case is reachable |
| MonitorWorker.Serve | src/strategy/low_latency2/swapchain_monitor.rs:125-186 | one turn: takes the oldest signal, waits for its groups within the budget, records their GPU times, delays by the larger of both delays, then signals; once stopped it only signals |
| MonitorWorker.SignalComesLast | src/strategy/low_latency2/swapchain_monitor.rs:148-185 | at the signal each attached span has been seen ended in this turn or the whole budget is spent, and the minimum delay since the last release has passed |
| MonitorWorker.RecordsAreReported | src/strategy/low_latency2/swapchain_monitor.rs:160-171 | after a turn every listed frame reports the last times recorded for it, or those it had; no frame comes or goes |
| Pacing.DelayController.Delay | src/delay_controller.rs:46-109 | releases at the first clock readings that have reached the minimum delay and then the injected sleep, no later, and updates the controller from the first and last reading |
| Pacing.ReleaseIsLate | src/delay_controller.rs:58-78 | no release comes before the minimum delay and the injected sleep are over |
| Pacing.ReleaseIsPrompt | src/delay_controller.rs:58-78 | with clock readings at most a gap apart, a release comes at most four gaps after both are over |
| Pacing.SpinUntil | src/delay_controller.rs:112-125 | returns at the first clock reading at or past the deadline |
| Pacing.PaceSignals | src/strategy/low_latency2/swapchain_monitor.rs:183-184 | repeated calls on one clock give a run in which each release keeps its delay from the one before |
| Pacing.WhatACallRemembers | src/delay_controller.rs:46-109 | release and frame time of the call; a jitter of one fiftieth of the frame time rounded down if the game is decoupled and the previous jitter was 0, else 0 |
| Pacing.WhatACallSleeps | src/delay_controller.rs:58-78 | the minimum delay ends at the first clock reading that allows it, and then a decoupled call sleeps max(0, jitter + drain) at least, two clock gaps more at most |
| Pacing.WhatADownCallLearns | src/delay_controller.rs:80-103 | the average moves a hundredth of the way to the fall of frame time per removed jitter, cut to [-1, 1]; the drain rises, or above one half falls, by five jitters times the average's distance from one half, rounded down, kept between 0 and the frame time |
| Pacing.OtherCallsLearnNothing | src/delay_controller.rs:46-109 | a first, coupled or up call leaves average and drain alone |
| Pacing.CallsAlternate | src/delay_controller.rs:71-103 | while frames take at least 50 ns, every second call of a decoupled game is a down phase, after an up call with a positive jitter |
| Pacing.PhaseAt | src/delay_controller.rs:71-103 | then the k-th down phase has the jitter and frame time of call 2k + 1 and the frame time of call 2k + 2 |
| Pacing.PhasesDecide | src/delay_controller.rs:71-102 | average and drain depend on the down phases only, and there the jitter is positive, so the zero-divisor branch is never taken |
| Pacing.ControllerStaysBounded | src/delay_controller.rs:46-109 | over every run the average is in [-1, 1], the drain is at most the last down phase's frame time, a call's injected sleep at most a fiftieth of its frame time plus the drain, and both are 0 for coupled games |
| Pacing.CallsStayShort | src/delay_controller.rs:46-109 | over every run a call returns within a fiftieth of its frame time, the last down phase's frame time and four clock gaps of the end of its minimum delay; for coupled games within the gaps |
| Pacing.PinnedEwma | src/delay_controller.rs:92-99 | while frame time falls by at least the removed jitter, the average approaches 1 by a factor 0.99 per phase, from any history |
| Pacing.FloorStopsTheDrain | src/delay_controller.rs:99-102 | from any history, after 693 + k such phases with k times the least jitter covering a frame, the drain is 0 |
| Pacing.BacklogFillsTheDrain | src/delay_controller.rs:92-102 | from any history, after 693 + k down phases in which frame time did not fall, with k times the least jitter covering a frame, the drain is at least that frame |
| Pacing.FpsCapIsTight | src/config.rs:183-189 | the cap's delay is the longest whole number of nanoseconds within the cap |
| Pacing.VrrTargetIsSlower | src/device.rs:139-145 | the VRR delay is at least the refresh duration exactly when that is at most a second |
| Pacing.VrrTargetMeans | src/device.rs:139-145 | the target rate is the display's whole rate less the offset, at least 1 Hz, and the delay is the longest whole number of nanoseconds within it |
| Pacing.DeviceContext.EnsureVrrTarget | src/device.rs:124-154 | sets the target from a known refresh duration once, and never again |
| Pacing.FirstRefreshDecides | src/device.rs:121-154 | the first known refresh duration decides the target for good; without one, or with VRR disabled, there is none |
| Pacing.StricterLimitHolds | src/strategy/low_latency2/swapchain_monitor.rs:144-146 | the delay of a release keeps the application's interval, the cap if there is one and the display's rate once it is known, and is one of the three |
| Pacing.ReleasesAreSpaced | src/delay_controller.rs:58-60 | n releases under a minimum delay d span at least (n - 1) * d |
| Markers.MarkerHistory.Record | src/strategy/low_latency2/markers.rs:75-116 | deque and hash index behave as a list of at most 128 frames searched linearly |
| Markers.MarkerHistory.RecordGpuTiming | src/strategy/low_latency2/markers.rs:121-129 | updates the listed frame of the id, or nothing |
| Markers.MarkerHistory.RecordPresentActual | src/strategy/low_latency2/markers.rs:139-148 | likewise for the display time |
| Markers.MarkerHistory.LatestLatencyUs | src/strategy/low_latency2/markers.rs:153-169 | the last sample that latencies_us would append, or 0 |
| Markers.MarkerHistory.LatenciesUs | src/strategy/low_latency2/markers.rs:223-238 | appends the sample of each measurable frame, oldest first |
| Markers.MarkerHistory.Fill | src/strategy/low_latency2/markers.rs:175-207 | without a buffer the frame count, with one the newest frames, newest first |
| Markers.IndexFinds | src/strategy/low_latency2/markers.rs:80-84 | the index holds exactly the listed ids, each at its position, so slot subtraction cannot underflow |
| Markers.IndexEvicts | src/strategy/low_latency2/markers.rs:86-91 | evicting the oldest frame keeps every other index entry right without touching it |
| Markers.HistoryIsTheNewestFrames | src/strategy/low_latency2/markers.rs:75-148 | over every run the history is the last 128 frames begun, in order, no id twice |
| Markers.FieldsAreLastTimes | src/strategy/low_latency2/markers.rs:75-148 | over every run each of the seven marker fields of a listed frame is the time of the last call of that very marker for its id since it was begun, or 0; likewise the display time divided by 1000 and the GPU times |
| Markers.ReportsAreLastTimes | src/strategy/low_latency2/markers.rs:175-207 | a report holds those last times field by field; the end of the present is the application's own where given, else the display time |
| Markers.SamplesAreLastTimes | src/strategy/low_latency2/markers.rs:223-238 | a frame has a sample exactly when its last input sample is known and before the display time, or before the application's own end without one; the sample is the difference |
| Markers.SamplesInOrder | src/strategy/low_latency2/markers.rs:223-238 | the samples are one per measurable frame, oldest first |
| Markers.LastTimesWin | src/strategy/low_latency2/swapchain_monitor.rs:188-194 | of several spans of a present the last recorded one is reported |
| Markers.WidestOnlyIfLast | src/strategy/low_latency2/swapchain_monitor.rs:188-194 | the documented envelope is reported exactly when the last span has the earliest start and the latest end |
| Markers.EnvelopeIsLost | src/strategy/low_latency2/swapchain_monitor.rs:188-194 | a span inside the one before it: only its own times are reported |
| GoogleTiming.GoogleTimingWorker.Enqueue | src/present_wait.rs:185-198 | appends a non-zero id, evicting the oldest at 256, and leaves other swapchains alone |
| GoogleTiming.GoogleTimingWorker.ForgetSwapchain | src/present_wait.rs:200-202 | drops one swapchain's FIFO and no other |
| GoogleTiming.GoogleTimingWorker.Pair | src/present_wait.rs:263-306 | the i-th timing goes to the i-th pending id, with the time its clock domain allows; the rest of the FIFO stays, and a forgotten swapchain is left alone |
| GoogleTiming.NoneSkewedIff | src/present_wait.rs:268-306 | over a whole run no recorded time is more than 5 s from its poll exactly when the first non-zero time is, or every non-zero time that found an id is within 5 s of its own poll |
| GoogleTiming.SkewedTimeIsRecorded | src/present_wait.rs:297-305 | a run in which a time nine seconds off is recorded as it is |
| TimingCorrelation.PendingIsTheRest | src/present_wait.rs:185-198 | over every run the FIFO is the enqueued ids less those paired or evicted, in order, at most 256, and every timing is accounted for |
| TimingCorrelation.WhereTimingsGo | src/present_wait.rs:293-306 | the n-th timing, if paired, goes to the id enqueued as number n plus evictions minus discarded timings before it |
| TimingCorrelation.LoggedAsRecorded | src/present_wait.rs:293-306 | the run's log pairs the ids that the pairing loop records |
| TimingCorrelation.ReachesOwnerIff | src/present_wait.rs:112-122 | over every run a timing reaches the present it was made for exactly when it finds an id, the present has one, and evictions and reported presents without id before it equal discarded timings and unreported presents with id |
| TimingCorrelation.OwnIdIff | src/present_wait.rs:112-122 | with growing present ids, that is exactly when it is recorded under its own present's id |
| TimingCorrelation.ExactIffClean | src/present_wait.rs:112-122 | while the driver reports every present, all timings have reached their presents and the next ones will exactly when every present had an id and room in the FIFO and no poll brought more timings than ids were pending |
| TimingCorrelation.EarlyTimingShiftsTheRest | src/entrypoints/queue.rs:375-437 | reachable runs in which a timing comes between the driver call and the enqueue, and a later one goes to the wrong present |
| TimingCorrelation.AnonymousPresentShiftsTheRest | src/entrypoints/queue.rs:426-437 | reachable runs in which the timing of a present without an id goes to the present after it |
| GoogleTiming.DomainIsJudgedOnce | src/present_wait.rs:268-291 | over every run the clock domain is that of the first non-zero time of all swapchains, for good |
| GoogleTiming.OneDomainChooses | src/present_wait.rs:292-306 | every time recorded in a run was chosen by that one domain |
| GoogleTiming.WhatIsRecorded | src/present_wait.rs:268-306 | over every run, if the first non-zero time is within 5 s of its poll's clock, a timing that found an id is recorded with its own time unless that is 0; in every other case with its poll's clock |
| GoogleTiming.WhichFindIds | src/present_wait.rs:293-306 | as many timings of a poll find an id as are pending, the first ones |
| FeatureChain.PatchEnablesAndPreserves | src/lib.rs:936-1043 | the caller's structs remain, in order, with only requested flags added where they belong, and every requested feature is enabled in some struct |
| FeatureChain.TypesStayDistinct | src/lib.rs:936-1043 | no struct type occurs twice if none did before (section 3.7 of the Vulkan 1.3 specification) |
| FeatureChain.OverlapIff | src/lib.rs:937-1005 | a chain free of a combined struct beside the one it absorbed stays free of it exactly when every combined struct is one the instance version lets the layer use |
| FeatureChain.OverlapOnOldInstance | src/lib.rs:937-971 | a chained 1.3 struct on an instance below 1.3 ends up beside the struct it absorbed |
| FeatureChain.AskAppends | src/lib.rs:954-971 | a struct is added exactly when neither usable struct is in the caller's chain |
| FeatureChain.WhatAskDoes | src/lib.rs:944-1005 | a feature is set in the first combined struct where that may be used and is chained, else in its own struct, else a struct with that flag alone is added in front |
| FeatureChain.AddedForOneFeature | src/lib.rs:936-1043 | every added struct enables one requested feature and nothing else |
| FeatureNodes.FindMut | src/pnext.rs:74-103 | following the links finds the first struct of a type, or null |
| FeatureNodes.PatchFeatures | src/lib.rs:936-1043 | in memory, the patch does what the list version says and keeps all links |
| FeatureNodes.RelinkInto | src/lib.rs:902-926 | the added structs are linked in front of the caller's chain, and no other link changes |
| FeatureNodes.RewriteChain | src/lib.rs:416-421 | the chain passed on is the patched list: added structs, then the caller's own |
| Telemetry.NumberRoundTrip | tools/vkpace-hud/src/parse.rs:52-65 | decimal and hexadecimal digits of every 64-bit value read back as that value |
| Telemetry.DigitsOfNumber | src/telemetry.rs:376-385 | printed numbers are the decimal or lower-case hexadecimal digits, without leading zeros |
| Telemetry.SplitUndoesJoin | tools/vkpace-hud/src/parse.rs:29 | splitting joined fields gives the fields back |
| Telemetry.LineFits | tools/vkpace-hud/src/parse.rs:14-22 | a line with each of the five fields at most once stays within 1024 bytes |
| Telemetry.LineFormat | src/telemetry.rs:376-385 | the printed line, member by member: names, order, quotes, 0x and newline |
| Telemetry.FieldParses | tools/vkpace-hud/src/parse.rs:29-45 | one printed field sets its component and no other |
| Telemetry.ParseLine | tools/vkpace-hud/src/parse.rs:19-50 | the parsing loop computes the left-to-right reading of the fields, or None |
| Telemetry.UnknownFieldIsSkipped | tools/vkpace-hud/src/parse.rs:27-46 | a field of another name changes nothing, whatever its value |
| Telemetry.BadFieldFailsTheLine | tools/vkpace-hud/src/parse.rs:27-49 | one field that cannot be read fails the whole line |
| Telemetry.NoColonCannotBeRead | tools/vkpace-hud/src/parse.rs:29 | such as one without a colon |
| Telemetry.BadLinesAreDropped | tools/vkpace-hud/src/parse.rs:19-26 | so does a line longer than 1024 bytes or without braces |
| Telemetry.RoundTrip | src/telemetry.rs:376-385 | the HUD reads from a printed line the very record the layer printed, for all 64-bit values |
| Telemetry.AnyOrderParses | tools/vkpace-hud/src/parse.rs:27-49 | the order of the fields does not matter |
| HudBins.BinRecords | tools/vkpace-hud/src/stats.rs:90-137 | the non-empty bins by ascending absolute time, each with exactly its records of the window, in order |
| HudBins.BinsPartitionTheWindow | tools/vkpace-hud/src/stats.rs:110-116 | every record of the window is in exactly one bin |
| HudBins.SealedBinIff | tools/vkpace-hud/src/stats.rs:80-86 | for every later time and list a sealed bin keeps its width; without a late record, its records exactly when none is dropped from the head of the list or passed by the window's edge; without a dropped one, exactly when none is passed and none comes late |
| HudBins.SharedState.Push | tools/vkpace-hud/src/state.rs:39-45 | the ring is the newest 4096 records received |
| HudBins.RingBinIff | tools/vkpace-hud/src/state.rs:39-56 | without a late record, a sealed bin of the ring changes exactly when one of its records is displaced or passed by the edge |
| HudBins.UncutBinIff | tools/vkpace-hud/src/stats.rs:80-86 | while the window covers the bin, exactly when one is displaced; never while the ring has room |
| HudBins.DisplacedBinChanges | tools/vkpace-hud/src/state.rs:17-45 | a full ring whose oldest record is in a sealed, covered bin: the next record changes that bin |
| HudBins.RingDropChanges | tools/vkpace-hud/src/state.rs:17-45 | such a ring of 4096 records |
| HudBins.CutBinChanges | tools/vkpace-hud/src/stats.rs:74-76 | a sealed bin at the left edge does change |
| HudBins.WidthIsUsable | tools/vkpace-hud/src/stats.rs:121-127 | the width divided by is never 0; of a sealed bin it is a full bin, and the bin being filled ends at now |
| HudBins.FrameGaps | tools/vkpace-hud/src/stats.rs:141-150 | one entry per jump of the frame counter, with what it skipped |
| HudBins.GapsAddUpIff | tools/vkpace-hud/src/stats.rs:141-150 | the skipped frames add up to last - first - (n - 1) exactly when the counter rose at every record, and to more otherwise |
| HudBins.MissingIffInGap | tools/vkpace-hud/src/stats.rs:141-150 | a frame number in range is missing exactly when a gap spans it |

## Left out

- Memory ordering of atomics, and the gap between reading and signalling a semaphore in `signal`: each is one step.
- MonitorWorker.Serve: records the GPU times of a turn after its wait, not between its probes; no other part of the turn reads them.
- Backoff inside waits (spin, yield, 100 µs sleeps) and its counter: a wait is a sequence of probes.
- Scheduling fairness: progress is stated as bounds on the steps left and as properties of states at rest.
- Integer overflow beyond the bitset and the parser: clock readings, counters and `as i64` conversions are unbounded, and floating-point rounding is not modelled.
- Tear-down of the pool after its reaper was joined, including the two-second lock timeout that leaks chunks.
- A query that returns an error instead of waiting (device lost): the reaper then frees at once.
- TimingCorrelation.PendingIsTheRest: follows one swapchain from its first present to its being forgotten; a handle used again starts a new run, also when it is used again between the driver's reply and the pairing.
- The snapshot of swapchains and the 5 ms sleep of the Google worker, and the driver's 64-timing limit per poll: a poll is given the timings it received.
- A sleep on a swapchain without a monitor: it signals at once, as with pacing off.
- Monitor.NoSleeperIsLeftBehind: releases the waiters of semaphores whose counters can be read; where the timeline entry points are missing that is none, and `Timeline.Send` says that the signal is dropped.
- TimingCorrelation.ExactIffClean: for drivers that report every present; with unreported presents each single timing is decided by `ReachesOwnerIff`.
- SubmitInjection.QueueSubmit: the arena that reuses command-buffer vectors, and the memory the rewritten submits point into, are not modelled.
- Telemetry.RoundTrip: text is ASCII; Unicode white space in foreign lines is not modelled.
- HudBins.BinRecords: the caller's aggregate function and the x coordinate in seconds are not modelled.
- Telemetry ring and sockets, Prometheus file, percentiles and HUD live statistics: input, output and a sort.
- AntiLag strategy: the same span fold with a smaller state.
- Extension-list merge, spoofing presets, configuration files, environment, dispatch tables and registries: table look-ups and foreign calls.
- Clock calibration between GPU and host.
