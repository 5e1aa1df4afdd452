# Radio-unit timing and hand-off, verified

A Dafny model of the slot and symbol machinery of the OpenAirInterface radio-unit executables: how
uplink jobs find their symbol, how worker threads share buffers, how the writer tiles the downlink,
how local time follows a drifting device, and how radios are shared between UEs. The results hold
for every numerology, slots-per-frame, queue depth, number of radio units and length of run.

`dafny verify dfyconfig.toml` checks everything.

| module | models |
|---|---|
| `SymbolTime` | the wrapping absolute-symbol counter (1024 frames) |
| `CalendarModel`, `CalendarRefinement`, `CalendarJobs`, `CalendarLimits` | the O-RU uplink job calendar as a 4 x 14 ring, the flat pending list it replaced, the life of one job, and the limits in numbers |
| `UplinkCalendar` | the calendar and the south reader as the imperative code they are |
| `WorkPipeline`, `PipelineSafety`, `PipelineProgress` | FFT jobs and beam jobs in two ring queues, with the shared reference-counted FFT slot: safety, what is refused, and that the workers finish |
| `PushLoop`, `PushLoopProgress` | the FFT task's push loop with its test as the code has it, reading the job count from memory the slot may have changed |
| `HandOvers`, `PushLoopRuns` | the stream of hand-overs to the FFT queue in ring order: when every run of it is safe, and a failing run whenever it is not |
| `CalendarBatches`, `UplinkPath` | what the calendar hands over in one call, in either mode; calendar and pipeline together |
| `ReceiveSlots`, `ReceiveWait` | the gNB receive-buffer protocol over three threads and three FIFOs, and its wait loop |
| `SampleGrid`, `SlotGrid` | symbol, slot, subframe and frame lengths in samples, and slot recovery |
| `DownlinkWriter`, `TxBurst` | the O-RU downlink reader and coalescing writer, and burst flags of split slots |
| `NrTimebase`, `LookAhead` | the NR radio unit's receive time and transmit look-ahead |
| `LteTimebase`, `SymbolMask`, `RuBarrier`, `TxHandoff` | LTE receive time, fronthaul symbol masks, the barrier over radio units, and the one-place hand-off to the transmit thread |
| `RadioMatching` | UE carriers, cells and radio units of the UE softmodem |
| `Arithmetic`, `Helpers` | quotients, remainders and other shared notions |

## Main results

- **The ring refines the flat list.** Over every run of arrivals and symbols, across any number of
  1024-frame wraps and in both dispatch modes, the ring holds and dispatches exactly what a flat
  list with ten places per symbol would (`CalendarRefinement.RingRefinesFlatList`). The C-shaped
  class runs that ring (`UplinkCalendar.Calendar.SouthRead`), and its calls to the dispatchers are, at
  every symbol, one for each late symbol of the arrivals and then, in codebook mode, a single one with
  all jobs due (`CalendarBatches.SymbolCalls`).
- **The pipeline is safe exactly when no hand-over outgrows an earlier one to its slot.** For every
  stream of hand-overs and any queue depths: all interleavings of reader, FFT tasks and beam workers
  keep reference counts exact, release each slot once and conserve every job-symbol if and only if no
  hand-over has more jobs than an earlier one to the same FFT slot (`PushLoopRuns.SafeIffUnrising`),
  hand-over `n` going to slot `n` modulo the depth (`HandOvers.RingSlotIsRemainder`).
- **Every symbol has one fate.** From the calendar's arrivals to the workers, in passthrough always and in
  codebook mode under that condition on the calendar's batches, each symbol of a job is received once,
  refused once because its push met a slot in use, or queued once if it belongs to the dispatched prefix
  of the job, and the rest of the job is one parked entry, one overflow or one refusal
  (`UplinkPath.EverySymbolHasOneFate`). Once the hand-overs end, the workers finish under every schedule,
  with all slots free and nothing left queued (`UplinkPath.EverySymbolIsReceivedOrRefused`).
- **Receive buffers are exclusive, the wait for one is bounded, and every slot goes through**: all slots
  read from the radio, downlink ones included, reach the end of L1 RX once each and in order, under every
  schedule (`ReceiveSlots.BusyFlagsAreExact`, `WaitIsBounded`, `WaitEnds`, `EverySlotGoesThrough`,
  `EverySlotIsFinished`).
- **Local time is exact under arbitrary device timestamps** (`NrTimebase.RadioUnit.Run`,
  `LteTimebase.RadioUnit.Run`).
- **The writer tiles the downlink** and agrees with the readers about every symbol
  (`DownlinkWriter.SouthWrite`, `ReaderWriterAgree`).

## Where the code falls short of the property

For each of these the condition under which the code does meet the property is proved exact, in both
directions, and a failing input or run is exhibited. Two entries only note where the code differs from
its comment or from what its names suggest.

- The first alignment of the NR receiver does not wrap the frame counter. If it steps out of the
  last slot of frame 1023 the counter becomes 1024, and the next read takes the mismatch exit;
  otherwise the exits are never taken (`NrTimebase.RadioUnit.Run`). The last sample of a hyper-frame
  is such a first timestamp for every carrier (`NrTimebase.LastSampleRollsOver`).
- After a misaligned first read `frame_rx` and `tti_rx` still name the slot that was skipped, while
  `timestamp_rx` is the start of the next one, and the first turn looks ahead from both. Its transmit
  timestamp is the start of the announced slot exactly when the first read was aligned; otherwise it
  decodes to the announced slot exactly when the skipped slot is shorter than the announced one, and to
  the announced frame exactly when it does not spill past the frame's end
  (`NrTimebase.RadioUnit.FirstTurn`). One sample into a slot of a 15 kHz carrier it always misses
  (`NrTimebase.MisalignedFirstMisses`). From the second turn on it is right (`NrTimebase.RadioUnit.Run`).
- The transmit frame carries at most once: it is right exactly when the look-ahead spans a multiple
  of 1024 whole frames, in particular when it is shorter than a frame (`LookAhead.TransmitSlot`;
  for LTE `LteTimebase.TransmitTime`). A look-ahead of one frame misses (`LookAhead.WholeFrameMisses`), for
  LTE one of twenty subframes (`LteTimebase.TwentyAheadMisses`).
- The anchor of the downlink writer subtracts a 32-bit sample count. It maps back to the anchor
  timestamp exactly when that count does not wrap, and it can (`DownlinkWriter.AnchorMapsBack`,
  `AnchorCanOverflow`).
- Codebook batching decodes the reader's symbol. That equals the job's own coordinates exactly while
  the job stays inside its slot (`CalendarRefinement.ModesAgreeOnlyInsideSlot`, `LeavingSlotDiffers`).
- A job that is exactly one slot late is already dropped, where the comment above the code says more
  than a slot (`executables/nr-oru.c:247-263`). The model follows the code, which is what bounds the
  age of dispatched symbols by 13 (`CalendarJobs.NothingEarlyNothingStale`).
- The push loop of an FFT task tests the job count in its own slot once more after the last push. By
  then the slot may be returned: at any queue depths by the last beam job, and with more than one FFT
  slot also by the loop itself after a refused push, for any jobs of the symbol
  (`PushLoopRuns.ReturnedByBeamJob`, `ReturnedByLoop`). Every test but the last always reads its own
  tenancy's count (`PushLoopRuns.OnlyLastTestIsUnsafe`). The last one goes wrong exactly when the slot
  has been filled again with more jobs (`PushLoop.LastTest`); the loop then pushes a job of the next
  tenant, which is accounted for once too often (`PushLoop.AstrayPushBreaks`). So a stream of
  hand-overs is safe in all runs exactly when no hand-over has more jobs than an earlier one to the
  same slot (`PushLoopRuns.SafeIffUnrising`), and for any stream that breaks this there is a failing
  run at any depths, with both queues filled in ring order (`PushLoopRuns.GoesAstray`). A late job, handed
  over symbol by symbol, before a symbol with several jobs is such a stream once the ring has come
  round; a constant number of jobs per hand-over is not.
- In a mixed slot the code sends one symbol more than there are downlink symbols
  (`min(txsymb, end_symbol) - start_symbol + 1`). The model follows the code; what is proved is
  that cutting a slot into batches changes nothing (`TxBurst.BatchingIsInvisible`).
- An LTE frame resynchronisation without drift keeps the counters in agreement exactly when the read
  does not start a new frame; with drift in the same read, exactly when local time stays non-negative and
  the subframes drifted and the frame boundary crossed add up to whole hyper-frames of 1024 frames
  (`LteTimebase.RadioUnit.ResynchWithoutDrift`, `Resynch`). Over a run of reads and commands this
  decides up to where the counters agree (`LteTimebase.RadioUnit.Run`); a command on the tenth read
  after the first is not kept (`LteTimebase.CommandAtFrameEnd`).
- The fronthaul mask is compared as a number, so the test passes exactly when the subframe is complete
  or any symbol number, up to the width of the mask, is past the expected ones
  (`SymbolMask.TestPasses`); one such packet alone is enough (`SymbolMask.OneOutOfRangePasses`).
- UE 0 drains unused radio units once per component carrier of UE 0, so they are read exactly once
  per round only with one component carrier: with `ccs` of them, `ccs` times
  (`RadioMatching.EveryRadioPerRound`, `TwoCarriersDrainTwice`).

## Model

| member | source | states |
|---|---|---|
| `SymbolTime.DecodeInvertsEncode` | executables/nr-oru.c:194-197 | the tick's divisions and remainders recover frame, slot and symbol from an absolute symbol |
| `SymbolTime.EncodeInvertsDecode` | executables/nr-oru.c:310-315 | packing what was decoded gives the absolute symbol back |
| `SymbolTime.DiffIsCircular` | executables/nr-oru.c:200-210 | the corrected difference is `k` exactly when one symbol lies `k` after the other on the 1024-frame circle, for every distance below half the period |
| `SymbolTime.DiffAtHalf` | executables/nr-oru.c:204-208 | at exactly half the period the difference is left as it is |
| `CalendarRefinement.ParkMatches` | executables/nr-oru.c:214-229 | parking by index modulo 56 parks on the row of the job's due symbol, and is refused exactly when ten jobs are due there |
| `CalendarRefinement.AddParksAhead` | executables/nr-oru.c:249-283 | what an arrival parks is unfinished and due 0 to 55 symbols ahead of the reader |
| `CalendarRefinement.AddMatches` | executables/nr-oru.c:249-283 | an arrival does the same to ring and flat list: late and too-early refusals, immediate symbols, parked rest |
| `CalendarRefinement.TickMatches` | executables/nr-oru.c:289-317 | a tick dispatches exactly the pending jobs due at the reader's symbol and parks their continuations |
| `CalendarRefinement.TickDrains` | executables/nr-oru.c:289-307 | after a tick nothing is due at the symbol it dispatched, so its row can stand for the symbol 56 later |
| `CalendarRefinement.NothingDueInDownlink` | executables/nr-oru.c:1367-1370 | skipping the tick in downlink slots loses nothing |
| `CalendarRefinement.SymbolMatches` | executables/nr-oru.c:1360-1370 | one received symbol, arrivals and tick, keeps ring and flat list in step for the next symbol |
| `CalendarRefinement.RingRefinesFlatList` | executables/nr-oru.c:176-317 | every run of the ring, in either mode, has the pending jobs, dispatches and refusals of the flat list, across all wraps |
| `CalendarRefinement.ModesAgree` | executables/nr-oru.c:231-245 | for every job stream codebook and passthrough request the same work in the same order |
| `CalendarRefinement.ModesAgreeOnlyInsideSlot` | executables/nr-oru.c:309-316 | decoding the reader's symbol gives the job's own coordinates if and only if the dispatched symbol lies inside the job's slot |
| `CalendarRefinement.LeavingSlotDiffers` | executables/nr-oru.c:309-316 | a job that leaves its slot, for which the two modes differ |
| `CalendarJobs.EveryJobIsAccounted` | executables/nr-oru.c:214-307 | in every run the symbols dispatched for a job are a prefix of it, once each and ascending, and the rest is exactly one parked entry, one overflow, or one refusal |
| `CalendarJobs.TickAccounts` | executables/nr-oru.c:289-307 | a tick keeps that account for every job |
| `CalendarJobs.AddIntroduces` | executables/nr-oru.c:249-283 | an arrival opens the account, whether the job is late, early or due |
| `CalendarJobs.NothingEarlyNothingStale` | executables/nr-oru.c:1349-1370 | at every symbol of every run, what is dispatched has been read and is at most 13 symbols old |
| `CalendarLimits.ArrivalAhead` | executables/nr-oru.c:264-271 | a job up to 55 symbols ahead is parked whole, one 56 or more ahead is refused |
| `CalendarLimits.ArrivalBehind` | executables/nr-oru.c:255-282 | of a job `k` = 1 to 13 symbols late the first `k + 1` symbols are dispatched at once and the next is parked; from 14 on it is missed |
| `CalendarLimits.TenFit` | executables/nr-oru.c:214-229 | of any jobs that begin at one symbol the first ten are parked there and every further one is cut |
| `CalendarLimits.TenAreDispatched` | executables/nr-oru.c:289-317 | at that symbol exactly the first ten are dispatched, in either mode |
| `UplinkCalendar.Calendar.constructor` | executables/nr-oru.c:1336 | the calendar starts empty |
| `UplinkCalendar.Calendar.Park` | executables/nr-oru.c:214-229 | the first free entry of the row is filled, or the overflow counter steps: the ring's park on the entries array |
| `UplinkCalendar.Calendar.Dispatch` | executables/nr-oru.c:234-245 | the next symbols of a job are requested in one call each, in order, under its own coordinates, and nothing else changes |
| `UplinkCalendar.Calendar.Add` | executables/nr-oru.c:249-283 | the array performs the ring's arrival step, with one call for each symbol due already |
| `UplinkCalendar.Calendar.DrainRow` | executables/nr-oru.c:294-308 | visiting entries in place, with continuations parked meanwhile, frees the row and asks for each of its jobs once |
| `UplinkCalendar.Calendar.Tick` | executables/nr-oru.c:289-317 | the array performs the ring's tick, in codebook mode with one call for the whole row, in passthrough with one per job |
| `UplinkCalendar.BatchIsTick` | executables/nr-oru.c:309-316 | one FFT job for the symbol carries exactly the work of the symbol's tick in codebook mode |
| `UplinkCalendar.NextSymbol` | executables/nr-oru.c:1340-1382 | the reader's loop counters step like the wrapping absolute symbol |
| `UplinkCalendar.Calendar.ReadSymbol` | executables/nr-oru.c:1360-1370 | one received symbol performs the ring's step for it |
| `UplinkCalendar.Calendar.SouthRead` | executables/nr-oru.c:1338-1383 | the reader over any number of symbols and arrivals performs the ring's run, and its calls are those `CalendarBatches` describes |
| `PipelineSafety.StepKeepsInv` | executables/nr-oru.c:1038-1104 | every step of every thread, the loop test of line 1081 taken apart in `PushLoop`, keeps `refs` equal to the jobs not yet pushed plus the beam jobs not yet decremented, with no access to a released slot |
| `PipelineSafety.StepConserves` | executables/nr-oru.c:1038-1170 | every step keeps handed-over job-symbols equal to received plus dropped plus queued ones, for each job-symbol |
| `PipelineSafety.EveryRunIsSafe` | executables/nr-oru.c:1013-1104 | both hold in every state of every interleaving, for any queue depths and any failed pushes, of the loop with its job count read once: the reference `PushLoopRuns.SafeIffUnrising` measures the code against |
| `PipelineSafety.BeamSlotsAreExclusive` | common/utils/ds/work_q.c:42-61 | two unfinished beam jobs never share a queue slot |
| `PipelineSafety.QuiescentIsEmpty` | executables/nr-oru.c:1038-1104 | once all tasks have ended every slot of both queues is free again |
| `PipelineProgress.HandBeamAdmits` | executables/nr-oru.c:1147-1170 | a passthrough job is dropped if and only if an unfinished beam job owns the beam slot, and otherwise becomes one queued beam job |
| `PipelineProgress.HandFftAdmits` | executables/nr-oru.c:1106-1145 | the jobs of a symbol are dropped if and only if an FFT task or a beam job is still on the slot, and otherwise wait in it |
| `PipelineProgress.PushAdmits` | executables/nr-oru.c:1082-1101 | a push of an FFT task is dropped if and only if an unfinished beam job owns the beam slot, and otherwise starts one beam job on the task's slot |
| `PipelineProgress.DroppedMetOwner` | executables/nr-oru.c:1082-1170 | in every run a job-symbol is counted as dropped exactly as often as a push of it met a slot in use |
| `PipelineProgress.NothingIsStuck` | executables/nr-oru.c:1038-1104 | while anything is queued or in use some worker can take a step |
| `PipelineProgress.WorkersFinish` | executables/nr-oru.c:1013-1104 | once hand-overs end, the workers take a bounded number of steps under every schedule, and then every job-symbol was received as often as handed over, less the pushes refused |
| `PushLoop.MoveKeeps` | executables/nr-oru.c:1081-1101 | with the test reading the slot's memory, every move but a push astray keeps the pipeline's invariant, the loops in step with their slots, and loops of ended tenancies at their last test |
| `PushLoop.EarlierTestsReadOwnSlot` | executables/nr-oru.c:1081 | a test before the last push reads the count of the loop's own tenancy, which still holds the slot, and goes on with its next job |
| `PushLoop.LastTest` | executables/nr-oru.c:1081 | the last test goes on if and only if the slot has been filled again with more jobs, so never after ten |
| `PushLoop.BodyCanMove` | executables/nr-oru.c:1082-1101 | in its body a loop can always push, give back a reference, or return its slot |
| `PushLoop.AstrayPushBreaks` | executables/nr-oru.c:1092-1101 | a push astray, accepted or refused, accounts for its job-symbol once too often |
| `PushLoop.AstrayDropSteals` | executables/nr-oru.c:1093-1099 | after a refused push astray the reference given back is the present tenant's: its count falls short, or its slot is returned under it |
| `PushLoop.SafeIffNoneAstray` | executables/nr-oru.c:1038-1104 | for any queue depths a run of the code conserves job-symbols throughout if and only if no loop pushes astray, and then all invariants hold; `SafeIffUnrising` says for which hand-overs that is |
| `PushLoopProgress.MoveIsStep` | executables/nr-oru.c:1081-1101 | as long as no loop goes astray, every move of the code is a step of the pipeline or leaves it alone |
| `PushLoopProgress.StepIsMove` | executables/nr-oru.c:1038-1170 | every step of the pipeline outside the push loops is a move of the code |
| `PushLoopProgress.CodeDropsMetOwner` | executables/nr-oru.c:1082-1170 | in every run of the code without pushes astray a job-symbol is dropped exactly as often as a push of it met a slot in use |
| `PushLoopProgress.CodeIsNeverStuck` | executables/nr-oru.c:1038-1104 | while anything is queued or in use some task of the code can move, push loops included |
| `PushLoopProgress.TasksFinish` | executables/nr-oru.c:1013-1104 | once hand-overs end, the tasks of the code finish under every schedule, with all slots free and every job-symbol received or refused |
| `HandOvers.RingSlotIsRemainder` | common/utils/ds/work_q.c:42-46 | filling slot after slot is the queue's remainder of its producer count |
| `HandOvers.UnrisingIsSafe` | executables/nr-oru.c:1038-1135 | if no hand-over has more jobs than an earlier one to the same slot, no loop pushes astray in any run, whichever beam slots the pushes find, and all invariants hold |
| `PushLoopRuns.ReturnedByBeamJob` | executables/nr-oru.c:1038-1056 | at any depths and for any 1 to 10 jobs, a run in which the last beam job returns the slot before the loop's last test |
| `PushLoopRuns.ReturnedByLoop` | executables/nr-oru.c:1093-1099 | at any depths with at least two FFT slots and for any 1 to 10 jobs, a run in which the loop itself returns the slot after a refused push, before its last test |
| `PushLoopRuns.GoesAstray` | executables/nr-oru.c:1081-1101 | at any depths and for any stream in which a hand-over outgrows an earlier one to its slot, a run in ring order in which conservation fails |
| `PushLoopRuns.SafeIffUnrising` | executables/nr-oru.c:1038-1135 | for every stream of hand-overs of 1 to 10 jobs and all depths, every run handing it over is safe if and only if no hand-over has more jobs than an earlier one to the same slot |
| `PushLoopRuns.OnlyLastTestIsUnsafe` | executables/nr-oru.c:1081 | at any depths the test with index n reads its own slot in all runs if and only if n is below the number of jobs |
| `CalendarBatches.BatchesAreDispatched` | executables/nr-oru.c:234-317 | the calendar's hand-overs, strung together, are the work it dispatches |
| `CalendarBatches.LateCalls` | executables/nr-oru.c:234-279 | an arrival makes one call for each of its symbols that is due already, and no other |
| `CalendarBatches.SymbolCalls` | executables/nr-oru.c:285-317 | at every symbol of every run the calls are one per late symbol, then those for the jobs the flat list has due: in codebook mode exactly one with all of them, if any, in passthrough one each |
| `CalendarBatches.BatchesSized` | executables/nr-oru.c:292-316 | each of them has 1 to 10 jobs |
| `UplinkPath.CodebookIsSafeIffTame` | executables/nr-oru.c:1338-1383 | for every run of the calendar in codebook mode and all depths, the pipeline it feeds is safe in all interleavings if and only if no batch outgrows an earlier one to its slot |
| `UplinkPath.EverySymbolHasOneFate` | executables/nr-oru.c:1338-1383 | for every calendar run and every pipeline run it feeds, in passthrough always and in codebook mode under that condition on the batches, each symbol of a job is received, refused by a slot in use, or queued exactly once if it is in the dispatched prefix and otherwise not at all |
| `UplinkPath.EverySymbolIsReceivedOrRefused` | executables/nr-oru.c:1013-1170 | and when the workers have finished, which they do under every schedule, all slots are free and each symbol of the prefix was received once or refused once |
| `ReceiveSlots.StepKeepsInv` | executables/nr-ru.c:738-779 | every step of the three threads keeps the busy flags exact |
| `ReceiveSlots.BusyFlagsAreExact` | executables/nr-gnb.c:83-230 | in every interleaving a flag is set exactly while one uplink or mixed slot of that index is held or queued |
| `ReceiveSlots.FillingNeverMeetsReading` | executables/nr-ru.c:739-746 | the buffer being filled is never the one L1 reads |
| `ReceiveSlots.WaitIsBounded` | executables/nr-ru.c:554-577 | a blocked wait needs at most `depth` completions, each collected one brings it one closer, and no other step delays it |
| `ReceiveSlots.WaitingIsNeverStuck` | executables/nr-gnb.c:128-161 | while the RU thread waits, some thread can move |
| `ReceiveSlots.WaitEnds` | executables/nr-ru.c:563-572 | under every schedule the wait lasts no more steps than the slots in the pipeline have left to take, and until it ends some thread can take one |
| `ReceiveSlots.EverySlotGoesThrough` | executables/nr-ru.c:768-779 | in every interleaving the slots read, downlink ones included, are those L1 RX has finished followed by those on the way, once each and in order, and the completions sent are the uplink and mixed ones among the finished |
| `ReceiveSlots.NothingIsStuck` | executables/nr-gnb.c:83-230 | while a slot is on the way some thread can move, and the radio can be read exactly when the RU thread has handed over |
| `ReceiveSlots.EverySlotIsFinished` | executables/nr-gnb.c:83-230 | between arrivals only a bounded number of steps is possible under every schedule, and when none is, no slot is on the way |
| `ReceiveWait.WaitFree` | executables/nr-ru.c:554-577 | the loop pulls up to the first completion of the wanted index, frees the flag of each pulled one, sets its own, fails only when the queue ends, and takes exactly the protocol's steps |
| `SampleGrid.LongPrefixIsTheStandards` | executables/nr-oru.c:656-671 | for every numerology the test picks exactly symbols l = 0 and l = 7*2^mu of the subframe (section 5.3.1 of 3GPP TS 38.211) |
| `SampleGrid.DurationIsSum` | openair1/PHY/INIT/nr_parms.c:170-208 | the closed form of a symbol range is the sum of its symbols' lengths |
| `SampleGrid.SlotIsSum` | openair1/PHY/INIT/nr_parms.c:158-168 | a slot's length is the sum of its 14 symbols |
| `SlotGrid.SlotTimestampIsSum` | openair1/PHY/INIT/nr_parms.c:248-270 | the closed form of a slot's start is the sum of the slots before it |
| `SlotGrid.TotalsAddUp` | executables/nr-oru.c:604-609 | all symbols of a subframe and all slots of a frame add up to the configured totals |
| `SlotGrid.RecoverSlot` | openair1/PHY/INIT/nr_parms.c:219-246 | the slot recovered from a timestamp is the one the timestamp lies in, with unequal slot lengths |
| `SlotGrid.DecodeSlot` | openair1/PHY/INIT/nr_parms.c:219-246 | any sample of the n-th slot decodes to that slot's frame and slot number |
| `SlotGrid.Locate` | executables/nr-ru.c:225-227 | conversely every timestamp lies in the slot its decoded frame and slot name, at the computed offset |
| `NrTimebase.PreviousIsLast` | executables/nr-ru.c:165 | the C remainder of -1 still selects the length of the last slot of a frame |
| `NrTimebase.Align` | executables/nr-ru.c:225-241 | the first read skips to the first slot boundary at or after its timestamp; frame and slot name that boundary, except frame 1024 exactly when it rolls past frame 1023 |
| `NrTimebase.Absorb` | executables/nr-ru.c:167-174 | whatever the device did, local time advances by the previous slot and device time is local time plus offset |
| `NrTimebase.RadioUnit.RxFirst` | executables/nr-ru.c:220-242 | state after the first read: which slot the timestamp starts and which one `frame_rx` and `tti_rx` still name |
| `NrTimebase.RadioUnit.RxNext` | executables/nr-ru.c:164-219 | a later read lands on the next slot start and exits exactly on a counter mismatch |
| `NrTimebase.RadioUnit.FirstTurn` | executables/nr-ru.c:684-721 | for every first timestamp and look-ahead: the transmit timestamp starts the announced slot iff the first read was aligned, and decodes to it iff aligned or the skipped slot is shorter than the announced one; the frame condition for every look-ahead below a frame |
| `NrTimebase.RadioUnit.Run` | executables/nr-ru.c:684-721 | for every sequence of device timestamps local time is the start of the local slot, the exits are taken exactly when the first alignment rolled over and another slot is read, and from the second turn on the look-ahead is that of the slot read |
| `NrTimebase.LastSampleRollsOver` | executables/nr-ru.c:238-240 | for every carrier the last sample of a hyper-frame is a first timestamp that rolls over |
| `NrTimebase.MisalignedFirstMisses` | executables/nr-ru.c:717-720 | a misaligned first timestamp for which the first turn's transmit timestamp decodes to the slot after the announced one, whatever the look-ahead |
| `LookAhead.SumAhead` | executables/nr-ru.c:717-719 | the sum of unequal slot lengths is the distance between the slot the counters name and the one `ahead` later |
| `LookAhead.DecodeBeyond` | openair1/PHY/INIT/nr_parms.c:219-246 | a sample less than a frame after a slot's start decodes to that slot iff it lies in it, and to its frame iff it lies before the frame's end |
| `LookAhead.TransmitSlot` | executables/nr-ru.c:717-721 | with fresh or stale counters: exactly when the transmit timestamp starts the announced slot, decodes to it, and decodes to the announced frame |
| `LookAhead.WholeFrameMisses` | executables/nr-ru.c:720-721 | a look-ahead of one frame announces the wrong frame, for every slot |
| `DownlinkWriter.ReaderWriterAgree` | executables/nr-oru.c:852-859 | for every hyper-frame, frame, slot and symbol the writer recomputes the reader's coordinates and timestamp |
| `DownlinkWriter.AnchorMapsBack` | executables/nr-oru.c:810-814 | the start index maps back to the anchor timestamp if and only if the 32-bit sample count does not wrap |
| `DownlinkWriter.AnchorCanOverflow` | executables/nr-oru.c:810 | a configuration and anchor for which it wraps |
| `DownlinkWriter.RunEndsAt` | executables/nr-oru.c:1215-1217 | the symbol after a run inside one slot starts where the run's samples end, slot and frame boundaries included |
| `DownlinkWriter.NextCall` | executables/nr-oru.c:1224-1231 | one call stays inside a slot and stops only at its end or at the high-water mark |
| `DownlinkWriter.SouthWrite` | executables/nr-oru.c:1195-1256 | for every sequence of high-water marks the calls cover each symbol once in order, each stopping only at its slot's end or at a mark, and what is skipped is exactly the prefix with negative timestamps |
| `DownlinkWriter.CallsAreContiguous` | executables/nr-oru.c:1206-1256 | each call's timestamp is the previous one plus the duration of its symbols |
| `TxBurst.DownsCount` | executables/nr-ru.c:267-275 | the counted downlink symbols are the number of symbols of the slot that are downlink |
| `TxBurst.MixedIsNotFull` | openair1/SCHED_NR/phy_frame_config_nr.c:158-170 | a slot that is not all downlink has fewer than 14 downlink symbols |
| `TxBurst.TxRfSymbols` | executables/nr-ru.c:250-347 | which symbols one call sends, their summed lengths, extension and burst flag, for FDD and for a TDD slot that is all uplink, all downlink or neither, by the links of the slot and its neighbours; a mixed slot without downlink symbols is fatal |
| `TxBurst.TotalsOfBatches` | executables/nr-ru.c:267-294 | what any consecutive batches have sent so far, and whether the burst has ended |
| `TxBurst.SendInBatches` | executables/nr-ru.c:267-294 | the calls actually made for a mixed slot, however it is cut, send the symbols up to the first after the downlink ones with one burst end |
| `TxBurst.BatchingIsInvisible` | executables/nr-ru.c:378-381 | however a mixed slot is cut, symbols and samples equal the whole-slot call's and exactly one batch ends the burst |
| `LteTimebase.DecodeSubframe` | executables/lte-ru.c:564-565 | any sample of the k-th subframe decodes to it |
| `LteTimebase.RadioUnit.First` | executables/lte-ru.c:555-557 | the first read becomes local time zero |
| `LteTimebase.RadioUnit.Next` | executables/lte-ru.c:558-562 | a later read advances local time by exactly one subframe and keeps the counters in agreement |
| `LteTimebase.DecodeBeforeZero` | executables/lte-ru.c:564-565 | what the C divisions make of a local time before zero |
| `LteTimebase.RadioUnit.Resynch` | executables/lte-ru.c:537-548 | where local time lands after a frame resynchronisation with any drift, on either side of zero, and exactly when the counters still agree |
| `LteTimebase.RadioUnit.ResynchWithoutDrift` | executables/lte-ru.c:537-548 | without drift they agree, on the new frame, if and only if the read does not start a frame |
| `LteTimebase.RadioUnit.Run` | executables/lte-ru.c:1624-1636 | over any sequence of reads and commands the counters agree exactly up to the first command that is not kept; without commands local time is `k` subframes after `k` reads and no exit is taken |
| `LteTimebase.CommandAtFrameEnd` | executables/lte-ru.c:537-548 | nine undisturbed reads and then a command without drift: it is not kept |
| `LteTimebase.TransmitTime` | executables/lte-enb.c:551-555 | the transmit timestamp decodes to the announced subframe always, and to the announced frame under an exact condition on the frame boundaries crossed |
| `LteTimebase.TwentyAheadMisses` | executables/lte-enb.c:554-555 | twenty subframes ahead the announced frame is not the decoded one |
| `SymbolMask.TickSetsSixteen` | executables/lte-ru.c:201-203 | a tick sets exactly the bits of symbols 0 to 15 |
| `SymbolMask.TestPasses` | executables/lte-ru.c:180-183 | the numeric test passes if and only if a tick or every expected symbol has arrived or some symbol number is out of range |
| `SymbolMask.TestIsExact` | executables/lte-ru.c:180-183 | with symbol numbers in range, it passes exactly when the subframe is complete |
| `SymbolMask.OutOfRangePasses` | executables/lte-ru.c:203 | any symbol number out of range makes it pass, whatever else has arrived |
| `SymbolMask.OneOutOfRangePasses` | executables/lte-ru.c:203 | for every expected count, one such packet alone passes for a complete subframe |
| `SymbolMask.Fronthaul.SouthIn` | executables/lte-ru.c:171-263 | the call returns at the first moment the wanted subframe is complete since its last reset, for that subframe and the last packet's frame, and resets it alone: other subframes keep their packets; a waiting resynchronisation ends exactly when a later call takes over another frame |
| `RuBarrier.L1.WakeupL1s` | executables/lte-ru.c:1058-1147 | a subframe's mask is reset at the first arrival that accounts for every radio unit, and L1 is woken then unless the arriving unit is itself waiting |
| `RuBarrier.L1.Deliver` | executables/lte-ru.c:1089-1143 | for any sequence of arrivals, the units' states changing in any way between them, how often L1 is woken and which arrivals are pending |
| `RuBarrier.WakesArePaid` | executables/lte-ru.c:1093-1105 | whatever the states do, every reset takes an arrival that accounts for each unit, every wake-up is a reset, and every reset a wake-up if no waiting unit arrives |
| `RuBarrier.ExcusedDoNotDelay` | executables/lte-ru.c:1093-1143 | under constant states L1 is woken exactly once per round of the units that must arrive, synchronising units and waiting slaves neither delaying nor completing it |
| `RuBarrier.RoundsTakeEveryRu` | executables/lte-ru.c:1119-1124 | every round takes at least one arrival of each such unit, exactly one while they stay in step |
| `RuBarrier.SlowestRuPaces` | executables/lte-ru.c:1119-1124 | the rounds are as many as the deliveries of the slowest of them, and none is more than one subframe ahead |
| `TxHandoff.StepKeepsOrder` | executables/lte-enb.c:497-514 | every step keeps the downlink calls equal to processed, handed-over and pending jobs, in order |
| `TxHandoff.EveryRunIsOrdered` | executables/lte-enb.c:266-296 | in every interleaving jobs are processed in call order, all reads of a running job return its parameters, and the threads never both sleep |
| `TxHandoff.ReadsTheHeldJob` | executables/lte-enb.c:266-296 | a read of the transmit thread returns the job handed over, and that is the job it completes |
| `TxHandoff.NextMove` | openair1/PHY/defs_common.h:1072-1089 | unless both threads are at rest, one of them can step without a spurious wake-up |
| `TxHandoff.HandOverCompletes` | executables/lte-enb.c:484-514 | without new calls at most 27 steps process everything: no wake-up is lost |
| `RadioMatching.Radios.Connect` | executables/nr-uesoftmodem.c:303-316 | cells are accepted exactly when their radio units exist and differ, and then both tables point at each other |
| `RadioMatching.Radios.Assign` | executables/nr-uesoftmodem.c:323-395 | accepted exactly when there are enough cells; carrier `u` then sits on the unit of cell `u` and ownership is consistent |
| `RadioMatching.MoveKeeps` | executables/nr-ue-ru.c:398-400 | moving a carrier to a free unit keeps ownership mutual and exclusive |
| `RadioMatching.DistanceMeasures` | executables/nr-ue-ru.c:373-377 | only the wanted carriers are at no distance, and moving either carrier away from the wanted one by one adds one |
| `RadioMatching.Radios.Nearest` | executables/nr-ue-ru.c:379-396 | the search with early stop finds the least total carrier distance among the current and the free units, with its tie rule |
| `RadioMatching.Radios.SetFreq` | executables/nr-ue-ru.c:369-406 | the carrier moves to that unit, ownership stays exclusive, and no other carrier or cell changes; it ends on a cell with the wanted carriers exactly when its own or a free one has them |
| `RadioMatching.Radios.Read` | executables/nr-ue-ru.c:437-475 | a carrier reads its own unit once, UE 0 also each free one once, and each device counts from the first read it served |
| `RadioMatching.EveryRadioIsRead` | executables/nr-ue-ru.c:451-472 | in a round, in any order, a lent unit is read once, one without a cell never, a free one once per carrier of UE 0 |
| `RadioMatching.EveryRadioPerRound` | executables/nr-ue-ru.c:451-472 | with `ccs` component carriers a free unit is read `ccs` times, so with one every unit that has a cell is read exactly once |
| `RadioMatching.TwoCarriersDrainTwice` | executables/nr-ue-ru.c:448-472 | one UE with two component carriers and a free unit: a round reads the unit twice |
| `RadioMatching.Session` | executables/nr-uesoftmodem.c:302-397 | from the configuration through any frequency changes to a round of reads in any order: accepted exactly when the units exist, differ and suffice, and the reads made visit each unit that often |

## Left out

- Signal processing and device calls (FFT, beam combining, phase rotation, PRACH reception, device reads and writes): opaque effects or events here.
- Configuration parsing, option tables, thread creation and affinity, logging, statistics and shutdown paths.
- Wrap-around of 64-bit timestamps and symbol counters, and of the drop and overflow counters.
- Well-formed uplink jobs are assumed by the calendar results: at least one symbol, inside one uplink or mixed slot. What happens to a job that leaves its slot is `ModesAgreeOnlyInsideSlot`.
- Fronthaul symbol numbers of 32 and more: shifting a 32-bit mask that far has no defined result.
- Extended cyclic prefix: the sample grid covers the normal prefix of 14 symbols per slot.
- PipelineSafety.StepKeepsInv: takes the job count of an FFT item as read once before its push loop; what the re-reads of the code add is proved in `PushLoop` and `PushLoopRuns`.
- PipelineSafety.EveryRunIsSafe: the same; `PushLoopRuns.SafeIffUnrising` is the statement about the code.
- PushLoop.SafeIffNoneAstray: its condition speaks of the run; the one on the hand-overs is `PushLoopRuns.SafeIffUnrising`.
- PushLoopRuns.ReturnedByLoop: needs a second FFT slot, whose beam job occupies the beam queue; with a single one only a symbol with more jobs than the beam queue has slots can be refused.
- A push may find any beam slot in the safety results, since FFT tasks push concurrently; the failing runs keep both queues in ring order.
- What a push loop gone astray does after its first such push is modelled as events but nothing is promised about it.
- The order in which downlink symbols complete before the writer sees a high-water mark; the marks are inputs to `SouthWrite`.
- Uniqueness of the burst start flag over several calls for one downlink slot: the code sets it on each of them.
- Overflow of the sum of two 64-bit carrier distances in the radio search, and the radio units' retuning.
- `nrue_ru_write` visits the same radio units as `nrue_ru_read` and would repeat its members.
- The LTE transmit-side mask over radio units starts full, so its first round is no barrier; the PRACH mask repeats the receive mask with a simpler excuse rule.
- The LTE late-command state machine, the LTE UE and the softmodem mains apart from the assignment loops.
