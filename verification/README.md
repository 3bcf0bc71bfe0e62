# Verified model of the AArch64 virtual machine's devices and scheduler

This project models, in Dafny, the parts of the emulator whose correctness is hardest to see from one body:

* **Guest time, timer deadlines and the scheduler** (`src/generic_timer.cpp`, `src/soc.cpp`): the interrupt
  prediction, the cached device schedule, the jump over idle time, and the whole `run` loop for one and for
  several CPUs. `TimerSpec`, `TimerTheorems`, `TimerRegisters`, `GenericTimerDevice`, `SchedulerSpec`,
  `MachineSpec`, `MachineTheorems`, `RunSpec` (windows and rounds, with a log of their steps), `TurnSpec` and
  `TurnTheorems` (whole runs, turn by turn), `Promptness`, `SocDevice`, `StuckExample`, `HaltedExample`, `LateExample`.
* **The interrupt controller** (`src/gicv3.cpp`): arbitration, epochs and the cached queries, the interrupt
  lifecycle over whole runs (IHI 0069, sections 4.1 and 4.8). `GicSpec`, `GicTheorems`, `GicLifecycle`,
  `GicV3Device`.
* **Split virtqueues over guest RAM** (`src/virtio_blk_mmio.cpp`, `src/virtio_net_mmio.cpp`): chain walks, rings
  with 16-bit indices, scatter and gather copies, the disk image and the loopback frame queue (VIRTIO 1.2,
  sections 2.7.5, 2.7.6, 2.7.8, 5.1.6 and 5.2.6). `GuestMemory`, `Virtqueue`, `Rings`, `Transfer`, `BlkSpec`,
  `BlkTheorems`, `BlkQueue`, `BlkDelivery`, `BlkRoundTrip`, `BlkDeviceSpec`, `VirtioBlkDevice`, `NetSpec`,
  `NetTheorems`, `NetDelivery`, `NetDeviceSpec`, `NetLoopback`, `NetInterrupts`, `LoopbackExample`, `VirtioRegisters`,
  `VirtioNetDevice`.
* **Refinements and round trips**: the bus fast path (`BusSpec`, `BusTheorems`, `SystemBusDevice`), the dirty-row
  bitmap (`DirtyRows`, `FramebufferDirtyTrackerDevice`), snapshots (`SnapshotIo`, `Snapshot`, `SnapshotDevices`)
  and exception entry and return (`ExceptionSpec`, `ExceptionTheorems`, `ExceptionEntry`,
  `SystemRegistersDevice`; DDI 0487, chapters D1 and D2).

Each device is a class whose methods change its fields in place, as the original does. Every such method is tied to
a function on plain values, and the theorems are about those functions: over every input, every run of operations,
or every reachable state. Processors are arbitrary functions of an arbitrary world (`Processors`): a step may write
timer registers, use the interrupt controller, change a device's level, request a stop, halt or sleep.

`dafny verify dfyconfig.toml` checks everything.

## What turned out to differ from expectation

These are properties one would expect of the code that hold only under a condition; the code is modelled as it is,
and the condition is proved exact.

* **`run` does not always return.** `advance_guest_time_to` shifts the target tick left by 16 bits and loses the top
  ones, so a jump towards a deadline of 2^48 ticks or more cannot get there. The machine then jumps for ever, stepping
  no processor (`StuckAfterJumpIff`, `StuckForever`; `GetsStuck` is a concrete board). `Run` models this as the
  result `Stalled`; in every other case the loop terminates, because two jumps never follow each other.
* **A timer interrupt can come late by as much as the budget of `run`.** When no interrupt lies within 256 ticks the
  loop runs for the whole budget without looking at the deadline (src/soc.cpp:1101-1103): an interrupt 300 ticks ahead
  is then not shown before the budget is used up (`ComesLate`). Where the loop does watch, nothing is missed
  (`NothingIsMissed`), and it does without only then (`UnwatchedIsFar`); the interrupt is missed exactly by a window
  that gets to its tick (`MissedFromDeadlineOn`).
* **A halted processor can be stepped.** With several of them every stepped processor is on and not halted except after
  a step that halts it and still reports success, which `enter_sync_exception` does beyond the nesting limit
  (`SteppedIsActive`; `HaltedIsStepped` is a concrete window). With only one, `run` does not ask whether it is on or
  halted: one that is not ready is stepped whenever there is nothing to jump to (`SoloStepped`, `SoloTurns`).
* **`steps_until_irq` can name a tick at which nothing is pending** when the rounding-up sum or the counter at that
  tick overflows 64 bits: exactly when no source asking for that tick `Fits` (`PredictionExact`). At one cycle per
  tick this does not happen; at three it can (`WideScaleMispredicts`).
* **Clearing pending or active bits by hand can lose a level interrupt**: exactly when one of the interrupts named has
  its line up and is left neither active nor pending (`ClearRangeLosesLevelIff`, `ClearActiveLosesLevelIff`).
* **A network frame is sent twice** when its used element cannot be written: it is queued before its buffer is handed
  back (`ResentIff`, `ResentFrame`).
* **A block request is performed twice** when its used element cannot be written (`PerformedAgainIff`).
* **Header-size detection can take two bytes of a frame for header** when a guest with 10-byte headers sends a frame
  that starts with two zero bytes (`StrippedExactlyIff`, `LegacyFrameMisread`).
* **Block sectors of 2^55 and more alias lower ones**, because the byte offset wraps (`OffsetExact`,
  `HighSectorAliases`).
* **The bus accepts a RAM access that wraps around the end of the address space**; its effect is not defined
  (`UndefinedIff`, `RamPtrWraps`). The fast path makes no difference to this.
* **The dirty-row generation can move without any row being marked**, for frames of more than 2^32 rows or accesses
  that wrap (`WroteAgreesIff`, `BlankExample`). The board's own frame is not affected
  (`FramebufferRowsRepresentable`).
* Every caller of `sync_devices` asks for a timer synchronisation, so its condition for skipping one is never used.
* In the shared window loop the exit on a changed interrupt-controller epoch does not leave the window: the same CPU
  goes on with what is left of it, and the exit makes no difference at all (`EpochExitIsIdle`). The model keeps it.

## Model

| member | source | states |
|---|---|---|
| `SocDevice.SoC.Run` | src/soc.cpp:917-1312 | the whole `run`, one or several CPUs, is the stated sequence of turns (`Ran`): each takes the dispatch the source takes in the state it saw, its log holds every CPU step with the machine that step found, and the result follows from the last turn; a result of `Stalled` means that the machine is stuck for good; CPU steps never exceed the budget; after returning true without a stop request every line shows its device, and the budget is used up or every CPU is halted |
| `SocDevice.SoC.RunSingle` | src/soc.cpp:1117-1170 | the one-CPU loop is such a sequence of turns, each a jump or a window; one tick per step |
| `SocDevice.SoC.RunShared` | src/soc.cpp:1172-1312 | the several-CPU loop is such a sequence of turns: with nobody ready it jumps, polls the waiting CPUs or ends; the one ready CPU runs alone; several run in rounds |
| `SocDevice.SoC.ExecuteWindow` | src/soc.cpp:1135-1165 | a window of the only CPU is exactly the run `SoloRun`: same steps, same end, same reason; one tick per step, never more than the window |
| `SocDevice.SoC.RunOneWindow` | src/soc.cpp:1133-1166 | the window chosen, and the run of the only CPU in it, step by step; a deadline-sensitive window does not carry time past the next deadline |
| `SocDevice.SoC.ExecuteSharedWindow` | src/soc.cpp:1213-1257 | a window of the one runnable CPU is exactly the run `SharedRun`; one tick per step, never more than the window |
| `SocDevice.SoC.RunOneShared` | src/soc.cpp:1213-1258 | may be called only for the one CPU that is ready; its window, step by step, stops time at the deadline |
| `SocDevice.SoC.OneRound` | src/soc.cpp:1266-1293 | a round is exactly `RoundFrom`: which CPUs stepped, in which order, and whether one failed; time does not move; nobody stepped only if nobody was eligible |
| `SocDevice.SoC.RoundAndTick` | src/soc.cpp:1266-1305 | a whole round advances guest time by exactly one tick if anyone ran, and not at all otherwise |
| `SocDevice.SoC.RunRounds` | src/soc.cpp:1266-1306 | exactly the rounds of `RoundsFrom`: until the budget is used up, nobody runs, or the schedule is stale |
| `SocDevice.SoC.RunSomeRounds` | src/soc.cpp:1261-1306 | the number of rounds chosen and the rounds run, step by step; a deadline-sensitive number stops time at the deadline |
| `SocDevice.SoC.Jump` | src/soc.cpp:1058-1074 | trying to jump from an idle machine: a jump that is taken uses up one of the jumps left or leaves the machine stuck, and no processor is stepped |
| `SocDevice.SoC.ExecuteChunk` | src/soc.cpp:1138-1160 | its inner loop is the same run |
| `SocDevice.SoC.SoloBeat` | src/soc.cpp:1141-1158 | one pass of it either leads on or ends the run, for the stated reason |
| `SocDevice.SoC.ExecuteSharedChunk` | src/soc.cpp:1222-1248 | its inner loop, up to a restart on a changed epoch |
| `SocDevice.SoC.SharedBeat` | src/soc.cpp:1227-1247 | one pass of it leads on, restarts the look-out, or ends the run, for the stated reason |
| `SocDevice.SoC.RunReady` | src/soc.cpp:1213-1306 | the ready CPUs run as the dispatch says: the one that is ready for a window, or several, or the polled ones, in rounds |
| `TurnTheorems.LogIsComplete` | src/soc.cpp:1117-1312 | no step is made unlogged, over the whole run: each logged step finds the processors as the one before left them, the log is as long as the growth of the step count, none is made after a stop, and none but the last may fail without a halt |
| `TurnTheorems.SteppedIsActive` | src/soc.cpp:1211-1293 | in every run of several CPUs a stepped CPU is powered and not halted, if and only if it is not in the window of the one ready CPU right after a step that took it down while reporting success |
| `TurnTheorems.SteppedIsReady` | src/soc.cpp:1172-1293 | a CPU that is not ready is stepped only when the turn found nobody ready, not all halted and nothing to jump to, or after such a step; a window begins with the one CPU that is ready |
| `TurnTheorems.SoloStepped` | src/soc.cpp:1117-1158 | the only CPU is stepped when it is ready or nothing can be jumped to, its window begins in the state the turn saw, and each later step follows a success with no stop and no stale schedule |
| `TurnTheorems.SoloTurns` | src/soc.cpp:1117-1166 | what a turn of the only CPU logs: nothing exactly when it is not ready and there is something to jump to; otherwise a window that begins in the state the turn saw |
| `TurnTheorems.SharedTurns` | src/soc.cpp:1172-1306 | what a turn of several CPUs logs, by who was ready; it logs nothing exactly when nobody is ready and all are halted, time jumps, or none is on |
| `TurnTheorems.IdleJumps` | src/soc.cpp:1058-1074 | such a turn is a jump, and the deadline stays where it was |
| `TurnTheorems.StepsAfterJump` | src/soc.cpp:1119-1124 | with nobody to run and a fresh deadline ahead below 2^48 ticks, the turn jumps to exactly that tick without stepping anyone, the lines show it, the next turn does not jump again, and whoever is stepped next is stepped at that tick |
| `TurnTheorems.FailureMeans` | src/soc.cpp:1141-1312 | the result is false if and only if the last logged step failed without a halt, or several CPUs end with budget left, no stop and somebody not halted |
| `TurnTheorems.StopIsLast` | src/soc.cpp:1154-1156 | the step that requests a stop is the last one of the run |
| `TurnTheorems.RoundIsLogged` | src/soc.cpp:1266-1293 | every step of a round is of a CPU that is on, not halted, and ready unless the waiting are polled; only the last may fail without a halt, and then the round fails |
| `HaltedExample.HaltedIsStepped` | src/cpu.cpp:5497-5518 | a concrete CPU that halts in a step that reports success, as a nested exception beyond the depth limit does, and is stepped again in the same window |
| `Promptness.TopShowsDue` | src/soc.cpp:1040-1057 | at the top of every turn the lines carry the devices' levels and every timer interrupt due at that tick is shown, whether or not the look synchronised |
| `Promptness.DueReachesController` | src/soc.cpp:1040-1057 | such an interrupt has its line up in the controller, where it is pending unless it is being served |
| `Promptness.NothingIsMissed` | src/soc.cpp:1076-1113 | in every run, each step of a turn that watches the deadline finds every timer interrupt shown that is due at its tick, unless a step of the turn has just made the schedule stale or guest time has wrapped |
| `Promptness.UnwatchedIsFar` | src/soc.cpp:1004-1039 | a turn does without watching only when no interrupt lies within 256 ticks, or no CPU is on |
| `Promptness.MissedFromDeadlineOn` | src/soc.cpp:1133-1160 | a step of the only CPU finds everything due shown as long as it comes before the deadline, and at one cycle per tick a step at the deadline does not: an interrupt is missed exactly by a window that gets there |
| `LateExample.ComesLate` | src/soc.cpp:1101-1103 | a concrete run in which it does without: an interrupt 300 ticks ahead is due and not shown at the 301st step of a window of 1000 |
| `MachineSpec.LinesMean` | src/soc.cpp:945-983 | what right lines are, one by one: the memory-mapped timer on the virtual timer's line of every CPU, the two channels, and the four shared devices |
| `MachineSpec.ActionsReach` | src/soc.cpp:1141-1143 | what a step asks of the controller happens to it in order and nothing else, and a stop is noted exactly if asked for |
| `RunSpec.EpochExitIsIdle` | src/soc.cpp:1245-1247 | the exit on a changed epoch takes the same steps as no exit at all, as long as no step that reports success leaves its processor halted |
| `RunSpec.RoundInOrder` | src/soc.cpp:1270-1293 | in a round CPUs step in index order, none twice, and no more of them than the budget allows |
| `SocDevice.SoC.SyncDevices` | src/soc.cpp:932-993 | synchronising with the skip-if-unchanged caching gives the same machine as driving every line unconditionally |
| `SocDevice.SyncCpuLines` | src/soc.cpp:947-959 | the timer's lines of every CPU, with skipping, equal the unconditional drive |
| `SocDevice.SyncSharedLines` | src/soc.cpp:961-983 | the shared lines, with skipping, equal the unconditional drive |
| `SocDevice.SoC.DeadlineDrivenWindowNeeded` | src/soc.cpp:1004-1039 | whether the next window must watch the deadline |
| `SocDevice.SoC.InspectCpuDispatchState` | src/soc.cpp:770-794 | the numbers of active and of runnable CPUs as cardinalities, the least runnable one, and whether all powered ones are halted |
| `MachineSpec.NextEventIsRight` | src/soc.cpp:816-844 | a still-valid cached event is what a fresh computation gives, and a cached "none" was computed at a tick from which nothing is near |
| `MachineSpec.AdvanceTimeKeepsValid` | src/soc.cpp:744-753 | one step, or a round of k CPUs, is exactly one tick, and guest time stays a whole number of ticks |
| `MachineSpec.ShowAllShows` | src/soc.cpp:947-983 | driving every output leaves exactly those outputs on the lines, and changes nothing when they are already there |
| `MachineSpec.SyncShowsDevices` | src/soc.cpp:932-993 | after a synchronisation every GIC line carries its device's level |
| `MachineSpec.SyncTwiceIsOnce` | src/soc.cpp:932-993 | a second synchronisation at the same tick changes nothing |
| `MachineSpec.StepCpuKeepsValid` | src/soc.cpp:1141-1143 | an arbitrary processor step that may write timers, GIC and devices keeps cache soundness and line soundness |
| `MachineSpec.PerformFrame` | src/soc.cpp:763-768 | a timer write or a device's report invalidates the cached schedule and the synchronisation; any other action leaves the scheduler's fields alone |
| `MachineTheorems.MaybeSyncSettles` | src/soc.cpp:1040-1057 | at the top of the loop the devices end up synchronised; at a fresh tick nothing moves |
| `MachineTheorems.FastForwardLands` | src/soc.cpp:1058-1074 | a jump keeps the deadline and lands on it exactly when it is below 2^48 ticks |
| `MachineTheorems.FastForwardEqualsTicking` | src/soc.cpp:1058-1074 | a jump leaves the timer exactly as synchronising at every skipped tick would |
| `MachineTheorems.JumpUsesUpPhase` | src/soc.cpp:1119-1124 | two jumps cannot follow each other without a processor step unless the machine is stuck |
| `MachineTheorems.FarJumpIsOutOfReach` | src/soc.cpp:755-761 | after a jump the event is still ahead if and only if the deadline was 2^48 ticks or more |
| `MachineTheorems.StuckAfterJumpIff` | src/soc.cpp:1119-1124 | a jump on a sound schedule leaves the machine stuck if and only if its deadline was 2^48 ticks or more and still nobody can run |
| `MachineTheorems.OutOfReachIsFar` | src/soc.cpp:755-761 | only deadlines of 2^48 ticks and more are out of reach |
| `MachineTheorems.StuckStays` | src/soc.cpp:1119-1124 | from a stuck machine one more turn jumps again and is stuck in the same guest-visible state |
| `MachineTheorems.StuckForever` | src/soc.cpp:1119-1124 | a stuck machine takes any number of turns, none of which steps a processor or changes anything the guest sees |
| `StuckExample.GetsStuck` | src/soc.cpp:1119-1124 | a concrete board, one sleeping CPU with CVAL 2^50 at one cycle per tick, that gets stuck |
| `MachineTheorems.WindowBounds` | src/soc.cpp:1082-1113 | a window is at least one, within the budget, and a deadline-sensitive one ends at the deadline |
| `MachineTheorems.WindowStopsAtDeadline` | src/soc.cpp:1133-1165 | a deadline-sensitive stretch of at most its window's ticks does not pass the deadline |
| `MachineTheorems.BeatIsOneTick` | src/soc.cpp:1141-1144 | a counted step is one call, one count and one tick |
| `MachineTheorems.TickedRoundAccounted` | src/soc.cpp:1266-1305 | a round of k steps counts k and moves time by one tick |
| `SchedulerSpec.DeadlineKept` | src/generic_timer.cpp:222-266 | time passing up to the deadline, synchronised or not, keeps the absolute deadline |
| `SchedulerSpec.HostModeHasNoDeadline` | src/generic_timer.cpp:222-234 | in host-clock mode nothing is predicted |
| `TimerTheorems.PredictionExact` | src/generic_timer.cpp:200-266 | per CPU: no interrupt at any earlier tick, and one at the predicted tick if and only if a source asking for that tick fits 64 bits |
| `TimerTheorems.UnitScalePredictionExact` | src/generic_timer.cpp:200-266 | at one cycle per tick the prediction is exact without condition on the sources |
| `TimerTheorems.WideScaleMispredicts` | src/generic_timer.cpp:200-216 | a concrete timer with three cycles per tick whose predicted tick shows no interrupt |
| `TimerTheorems.UnitScaleFits` | src/generic_timer.cpp:200-216 | at one cycle per tick every armed source fits |
| `TimerSpec.DueAtNeed` | src/generic_timer.cpp:200-216 | one source is due at its predicted tick if and only if it fits |
| `TimerSpec.NotDueBefore` | src/generic_timer.cpp:200-216 | one source is not due before its predicted tick |
| `TimerSpec.NeedShrinks` | src/generic_timer.cpp:200-216 | moving j ticks towards the predicted tick shortens the prediction by j, across counter wrap too |
| `TimerSpec.OverflowPredictsNow` | src/generic_timer.cpp:200-216 | when the rounding-up sum overflows the prediction is "now" |
| `TimerTheorems.NothingDueBeforeAnywhere` | src/generic_timer.cpp:222-234 | no CPU has an interrupt before the all-CPU prediction |
| `TimerTheorems.LeastStepsIsMinimum` | src/generic_timer.cpp:222-234 | the all-CPU prediction is a lower bound of all and attained |
| `TimerTheorems.SmallerCapClips` | src/generic_timer.cpp:222-234 | passing the running best down as the bound only clips each CPU's answer |
| `TimerTheorems.ZeroStays` | src/generic_timer.cpp:222-234 | stopping the scan at zero is sound |
| `TimerTheorems.DeadlineStable` | src/generic_timer.cpp:222-266 | the absolute deadline does not move as time advances up to it |
| `TimerTheorems.DeadlineSurvivesSync` | src/generic_timer.cpp:164-171 | nor when the timer is synchronised anywhere up to it |
| `TimerTheorems.QuietSyncKeepsPrediction` | src/generic_timer.cpp:164-171 | a synchronisation with nothing due keeps the remaining distance |
| `TimerTheorems.ReachedDeadlineIsNow` | src/generic_timer.cpp:222-266 | a deadline that has been reached is due now |
| `TimerTheorems.JumpEqualsTicking` | src/generic_timer.cpp:164-171 | synchronising at the deadline equals synchronising at every tick on the way |
| `TimerTheorems.SyncShowsWhatIsDue` | src/generic_timer.cpp:374-395 | an interrupt is shown pending after synchronising exactly when a source is due at that tick |
| `TimerTheorems.SyncKeepsCounter` | src/generic_timer.cpp:155-171 | synchronising does not change later counter readings |
| `TimerTheorems.NsToCyclesIsFloor` | src/generic_timer.cpp:47-51 | at 10^8 Hz the conversion is floor(ns*f/10^9) and no intermediate overflows |
| `TimerTheorems.SplittingLosesLittle` | src/generic_timer.cpp:47-51 | splitting an interval into k pieces never gains cycles and loses at most k-1 |
| `TimerTheorems.HostCounterAccumulates` | src/generic_timer.cpp:155-171 | the counter after a run of host-mode synchronisations |
| `TimerTheorems.TvalRoundTrip` | src/generic_timer.cpp:180-198 | writing TVAL and reading it at the same count gives the low 32 bits written, under wrap |
| `TimerRegisters.WriteReadsBack` | src/generic_timer.cpp:173-198 | after a write of CTL its two bits are read back and bit 2 shows whether an enabled channel has reached its compare value; after CVAL the value; after TVAL its low 32 bits |
| `TimerRegisters.WriteKeepsRest` | src/generic_timer.cpp:286-372 | a write changes its one register: the other channel, the other CPUs, the other registers of the channel and the memory-mapped timer keep theirs |
| `TimerRegisters.TvalDueAtOnceIff` | src/generic_timer.cpp:195-198 | without 64-bit wrap a countdown is over at once if and only if the sign-extended value is not positive |
| `TimerRegisters.WrittenTimerFires` | src/generic_timer.cpp:186-193 | after CVAL x and CTL v the channel is due, and its interrupt up at a synchronisation, if and only if v enables it unmasked and the count there has reached x |
| `TimerRegisters.MmioWritten` | src/generic_timer.cpp:107-134 | the memory-mapped compare and control registers: when the interrupt is up after a write, and what acknowledging and silencing do |
| `TimerRegisters.MmioKeepsChannels` | src/generic_timer.cpp:107-134 | writes to the memory-mapped timer leave every channel's registers alone |
| `TimerRegisters.AcknowledgedStaysDown` | src/generic_timer.cpp:118-131 | an acknowledged interrupt does not come back however far the count goes on |
| `TimerRegisters.ModeKeepsCount` | src/generic_timer.cpp:144-153 | changing the clock does not bend the count, and restarts the host anchor |
| `GenericTimerDevice.GenericTimer.StepsUntilCpuIrq` | src/generic_timer.cpp:236-266 | one CPU's prediction with its shrinking bound equals the minimum over the sources |
| `GenericTimerDevice.GenericTimer.StepsUntilAnyIrq` | src/generic_timer.cpp:222-234 | the loop with shrinking bound and early exit equals the minimum over CPUs |
| `GenericTimerDevice.GenericTimer.UpdateIrqState` | src/generic_timer.cpp:374-395 | all interrupt flags recomputed from the counter |
| `GenericTimerDevice.GenericTimer.WriteReg` | src/generic_timer.cpp:288-372 | writes to CTL, CVAL and TVAL of either channel: the new state is that of `WriteTimerReg`, about which the laws above speak, and the scheduler is always told |
| `GenericTimerDevice.GenericTimer.MmioWrite` | src/generic_timer.cpp:107-134 | the memory-mapped registers; an unreported write changed nothing |
| `GicTheorems.SameEpochSameAnswers` | src/gicv3.cpp:502-567 | two states of one run with the same epoch answer every query of every CPU alike; this also covers the CPU's own negative cache |
| `GicTheorems.StepMovesEpoch` | src/gicv3.cpp:502-657 | no operation changes an answer without moving the epoch |
| `GicTheorems.SetBitEpoch` | src/gicv3.cpp:504-567 | a bit set without moving the epoch has changed nothing, and the epoch never goes back |
| `GicTheorems.StaysTrustworthy` | src/gicv3.cpp:668-687 | remembered answers stay right in every later state with their epoch |
| `GicTheorems.HighestIsHighest` | src/gicv3.cpp:693-720 | the scan finds the unique highest-priority candidate, lowest INTID first, and none if and only if there is none |
| `GicTheorems.LowestWins` | src/gicv3.cpp:693-720 | the scan answers x if and only if x is pending, enabled and under the mask, with the least priority value among these and the least number among equals |
| `GicTheorems.AckRemovesOne` | src/gicv3.cpp:726-740 | acknowledging removes exactly that candidate |
| `GicTheorems.DrainInOrder` | src/gicv3.cpp:726-740 | repeated acknowledgement returns every candidate once in strictly increasing (priority, INTID) order, then none |
| `GicTheorems.NoDoubleHandOut` | src/gicv3.cpp:726-740 | between two hand-outs of one shared interrupt, on any CPUs, it was pended again |
| `GicTheorems.NoLevelInterruptLost` | src/gicv3.cpp:585-618 | in every run without by-hand clearing, an asserted line that is not active is pending |
| `GicTheorems.LevelsHeldInitially` | src/gicv3.cpp:92-107 | the level promise holds of the initial state |
| `GicTheorems.ClearRangeLosesLevelIff` | src/gicv3.cpp:442-453 | clearing up to 32 pending or active bits by hand loses a level interrupt if and only if one of the interrupts named has its line up and is left neither active nor pending |
| `GicTheorems.ClearActiveLosesLevelIff` | src/gicv3.cpp:294-331 | the distributor's clear-active write loses a level interrupt if and only if one of the interrupts it names has its line up and is active and not pending |
| `GicTheorems.SendSgiReaches` | src/gicv3.cpp:630-657 | a software interrupt pends on exactly the CPUs it names |
| `GicTheorems.SetRangeReaches` | src/gicv3.cpp:415-453 | a bank write sets the field of exactly the interrupts whose bits are set |
| `GicTheorems.SetLevelMovesOneLine` | src/gicv3.cpp:585-618 | a level operation moves exactly one line, and nothing when it is already there |
| `GicTheorems.OtherOpsKeepLines` | src/gicv3.cpp:502-757 | no other operation moves a line |
| `GicTheorems.EoiKeepsHeld` | src/gicv3.cpp:742-757 | an end of interrupt never leaves a line up whose interrupt is neither active nor pending |
| `GicLifecycle.SetLevelAt` | src/gicv3.cpp:585-618 | a line that rises makes its interrupt pending unless it is active; nothing else about it changes, and no other interrupt |
| `GicLifecycle.EoiAt` | src/gicv3.cpp:742-757 | an end of interrupt makes its interrupt inactive, and pending again if the line is up; no other changes |
| `GicLifecycle.AcknowledgeAt` | src/gicv3.cpp:726-740 | an acknowledgement makes the one interrupt it takes active and not pending; no other changes |
| `GicLifecycle.LevelCycle` | src/gicv3.cpp:585-757 | rise, acknowledgement, fall, end and rise again: pending, active alone, at rest, pending; and then a candidate if and only if enabled and under the mask |
| `GicLifecycle.HeldLineComesBack` | src/gicv3.cpp:742-757 | a line that stays up brings its interrupt back as a candidate at the end of its service |
| `GicLifecycle.DistBankWritten` | src/gicv3.cpp:294-331 | the distributor's set- and clear- registers for enable and active reach exactly the shared interrupts whose bits are set |
| `GicLifecycle.RedistBankWritten` | src/gicv3.cpp:333-413 | a CPU's own set- and clear- registers for enable, pending and active reach exactly its own interrupts whose bits are set |
| `GicLifecycle.PrioritiesWritten` | src/gicv3.cpp:484-502 | a priority write gives four interrupts the four bytes of the word, lowest first, on its own side of interrupt 32 only |
| `GicLifecycle.ControlWritten` | src/gicv3.cpp:294-331 | of the distributor's control register only bits 0, 1 and 4 are kept, and a write to it moves no interrupt |
| `GicLifecycle.SgiReachesCluster` | src/gicv3.cpp:620-657 | a request names exactly the CPUs of the cluster in its three affinity fields whose number is on its list |
| `GicLifecycle.SgiBroadcasts` | src/gicv3.cpp:641-647 | a broadcast becomes pending at every CPU but the one that asks |
| `GicLifecycle.AffinityNames` | src/gicv3.cpp:109-119 | setting a CPU's affinity changes which requests name it, and no interrupt |
| `GicV3Device.GicV3.HasPending` | src/gicv3.cpp:668-687 | through the cache or not, true if and only if some candidate exists |
| `GicV3Device.GicV3.HighestPending` | src/gicv3.cpp:693-720 | the scan over 32 local and 992 shared interrupts finds the highest |
| `GicV3Device.GicV3.AcknowledgeInterrupt` | src/gicv3.cpp:726-740 | takes the highest candidate, or reports 1023 |
| `GicV3Device.GicV3.SendSgiRequest` | src/gicv3.cpp:630-657 | pends the named CPUs' local interrupt |
| `GicV3Device.GicV3.SetPriorityRange` | src/gicv3.cpp:484-502 | four priorities, moving the epoch on a change |
| `GicV3Device.GicV3.Perform` | src/gicv3.cpp:504-757 | any operation keeps every cached answer right |
| `Virtqueue.CollectChain` | src/virtio_net_mmio.cpp:700-729 | the bounded walk, equal to `Chain` |
| `Virtqueue.PathIsCollected` | src/virtio_net_mmio.cpp:700-729 | a complete chain visits no descriptor twice, is no longer than the queue, and is returned as precisely its path |
| `Virtqueue.CollectedIffPath` | src/virtio_net_mmio.cpp:700-729 | the bounded walk succeeds if and only if the unbounded chain has an end |
| `Virtqueue.RejectedIffCyclicOrBroken` | src/virtio_net_mmio.cpp:700-729 | it fails if and only if the chain runs into a cycle or an unusable descriptor |
| `Virtqueue.PathDistinct` | src/virtio_net_mmio.cpp:700-729 | a chain with an end repeats no index |
| `Virtqueue.WalkDependsOnTable` | src/virtio_net_mmio.cpp:679-698 | a chain depends on nothing but the descriptor table |
| `Virtqueue.AddressHalves` | src/virtio_blk_mmio.cpp:386-407 | writing the two halves of a ring address, in either order, sets the address whatever stood there |
| `BlkTheorems.ParsedIffPath` | src/virtio_blk_mmio.cpp:477-532 | a head names a request if and only if its header is well formed and readable and a chain of any length leads to a writable, non-empty status buffer |
| `BlkTheorems.ParsedSegments` | src/virtio_blk_mmio.cpp:490-532 | the request's segments are those of its chain in order, and the status byte goes to the last buffer |
| `Rings.SlotsConsecutiveIff` | src/virtio_blk_mmio.cpp:431-475 | ring slots stay consecutive across the 16-bit wrap if and only if the size divides 65536 |
| `Rings.SlotAfter` | src/virtio_blk_mmio.cpp:431-475 | the slot of the k-th next index |
| `Rings.HandBackWorks` | src/virtio_blk_mmio.cpp:455-470 | writing the used element and index succeeds with the used ring in RAM and shows both |
| `Rings.HandBackKeepsOtherSlots` | src/virtio_blk_mmio.cpp:455-470 | other used slots keep their elements |
| `BlkTheorems.WriteThenRead` | src/virtio_blk_mmio.cpp:548-590 | what an OK write stored an OK read of the same sector and length returns, however either splits its buffers, with used length total+1 |
| `BlkTheorems.WriteStores` | src/virtio_blk_mmio.cpp:567-590 | an OK write puts its segments' bytes, in order, at its sector |
| `BlkTheorems.ReadDelivers` | src/virtio_blk_mmio.cpp:548-566 | an OK read leaves the image's bytes in its segments and the OK status byte |
| `BlkTheorems.ReadOkIff` | src/virtio_blk_mmio.cpp:548-566 | a read is OK if and only if it stays in the image, in whole sectors, with writable RAM buffers |
| `BlkTheorems.WriteOkIff` | src/virtio_blk_mmio.cpp:567-590 | a write is OK if and only if it stays in the image, in whole sectors, with read-only RAM buffers |
| `BlkTheorems.OtherBytesUntouched` | src/virtio_blk_mmio.cpp:567-590 | no request changes an image byte outside a write's own range, failing writes included |
| `BlkTheorems.DisjointWriteInvisible` | src/virtio_blk_mmio.cpp:548-590 | writes elsewhere do not change what a stretch reads |
| `BlkTheorems.RequestKeeps` | src/virtio_blk_mmio.cpp:534-625 | memory outside a request's segments and status byte is untouched |
| `BlkTheorems.StatusAndLength` | src/virtio_blk_mmio.cpp:534-625 | every answered request shows its status byte and reports its length by kind and status: 0 on I/O error, 1 when unanswered |
| `BlkTheorems.IdDelivered` | src/virtio_blk_mmio.cpp:594-620 | an OK identity request leaves the twenty identity bytes and reports 21 |
| `BlkTheorems.ScatterShows` | src/virtio_blk_mmio.cpp:556-563 | bytes scattered over separate segments are read back from them |
| `BlkTheorems.ScatterOkIff` | src/virtio_blk_mmio.cpp:556-563 | scattering succeeds if and only if every segment is writable RAM |
| `BlkTheorems.GatherOkIff` | src/virtio_blk_mmio.cpp:575-587 | gathering succeeds if and only if every segment is read-only RAM |
| `BlkTheorems.GatherCopies` | src/virtio_blk_mmio.cpp:575-587 | gathering replaces exactly one stretch of the image by the segments' bytes |
| `BlkTheorems.OffsetExact` | src/virtio_blk_mmio.cpp:552-555 | a sector's byte offset is exact if and only if the sector is below 2^55 |
| `BlkTheorems.HighSectorAliases` | src/virtio_blk_mmio.cpp:552-555 | sector 2^55 addresses sector 0 |
| `BlkQueue.ServeCompletes` | src/virtio_blk_mmio.cpp:431-475 | a notification completes exactly (avail - last) mod 2^16 heads of the ring as it stood, in order, each once |
| `BlkDelivery.NotificationPerforms` | src/virtio_blk_mmio.cpp:431-475 | the image a notification leaves is that of performing the waiting requests in ring order, each on the image the one before left, and each is logged with its own length |
| `BlkDelivery.NotificationDelivers` | src/virtio_blk_mmio.cpp:449-471 | when the notification is over every request's buffers and status byte are as that request left them, for requests that keep apart |
| `BlkDelivery.NotificationKeeps` | src/virtio_blk_mmio.cpp:449-471 | what no waiting request writes and the used ring does not cover is as it was |
| `BlkDelivery.ExecuteAgrees` | src/virtio_blk_mmio.cpp:477-625 | what a request does depends only on the image and on the bytes of its own buffers |
| `BlkRoundTrip.NotificationDoes` | src/virtio_blk_mmio.cpp:431-475 | a notification takes all waiting requests, moves both ring indices past them, and leaves the image of performing them in ring order |
| `BlkRoundTrip.NotificationInterrupts` | src/virtio_blk_mmio.cpp:472-474 | the queue's interrupt bit is up afterwards if and only if a request was performed or it was up before; the other bits stay |
| `BlkRoundTrip.DriverFinds` | src/virtio_blk_mmio.cpp:449-471 | the driver finds each request's outcome in its status byte, and in the buffers of each read the bytes of the image as the requests before it left them |
| `BlkRoundTrip.WrittenIsReadBack` | src/virtio_blk_mmio.cpp:431-625 | one notification writes and a later one reads the same sectors: the driver gets back the bytes it wrote, unless a request in between wrote there |
| `BlkRoundTrip.WrittenIsReadAtOnce` | src/virtio_blk_mmio.cpp:431-625 | the same within one notification that both writes and later reads |
| `GuestMemory.LowestFirst` | src/virtio_blk_mmio.cpp:73-83 | byte k of a stored word is its value over 256 to the k, modulo 256 |
| `BlkTheorems.HeaderParses` | src/virtio_blk_mmio.cpp:483-498 | a header of the kind in four bytes, four more, and the sector in eight, lowest byte first, asks for that kind at that sector |
| `BlkTheorems.DescriptorParses` | src/virtio_blk_mmio.cpp:627-645 | a table entry holds the address, length, flags and next index in this order, lowest byte first |
| `BlkTheorems.FlagsMean` | src/virtio_blk_mmio.cpp:627-645 | flag 1 is a successor, 2 a buffer the device writes, 4 an indirect table |
| `BlkTheorems.IdentityIs` | src/virtio_blk_mmio.cpp:594-613 | the identity is the device's name in ASCII padded with zeros to twenty bytes |
| `VirtioRegisters.SetUpWorks` | src/virtio_blk_mmio.cpp:350-411 | a driver's eight register writes leave the queue as told, whatever it was |
| `VirtioRegisters.UnreadyRestarts` | src/virtio_blk_mmio.cpp:350-411 | taking a queue out of operation starts both its rings over |
| `VirtioRegisters.BlkQueueWritten` | src/virtio_blk_mmio.cpp:350-411 | register writes reach the one queue while it is selected, and nothing else |
| `VirtioRegisters.BlkAcknowledged` | src/virtio_blk_mmio.cpp:282-288 | acknowledging takes down exactly the bits named |
| `VirtioRegisters.BlkResetStops` | src/virtio_blk_mmio.cpp:253-266 | a reset stops the queue, takes the interrupt down, keeps the image, and makes notifications do nothing |
| `VirtioRegisters.BlkImageSet` | src/virtio_blk_mmio.cpp:166-174 | a new image is there byte for byte, filled up with zeros to whole sectors |
| `VirtioRegisters.NetQueueWritten` | src/virtio_net_mmio.cpp:379-441 | register writes reach the selected queue of the two and not the other |
| `VirtioRegisters.NetAttachedDrops` | src/virtio_net_mmio.cpp:166-193 | attaching another backend drops the frames that wait |
| `VirtioRegisters.NetFeaturesSelectHeader` | src/virtio_net_mmio.cpp:461-467 | negotiating merged buffers selects the 12-byte header at once |
| `VirtioRegisters.NetAcknowledged` | src/virtio_net_mmio.cpp:309-315 | acknowledging takes down exactly the bits named |
| `VirtioRegisters.NetResetStops` | src/virtio_net_mmio.cpp:279-293 | a reset stops both queues and forgets the header in use, but the frames that wait go on waiting |
| `NetInterrupts.NotificationInterrupts` | src/virtio_net_mmio.cpp:490-508 | the interrupt is up after a notification if and only if a frame was sent or delivered or it was up before, with both used rings in RAM |
| `NetInterrupts.ArrivalInterrupts` | src/virtio_net_mmio.cpp:195-204 | a frame that arrives raises the interrupt exactly if something is delivered |
| `NetInterrupts.SentIsShown` | src/virtio_net_mmio.cpp:731-739 | a sent buffer is shown in the used ring with no byte written |
| `BlkQueue.PerformedAgainIff` | src/virtio_blk_mmio.cpp:449-471 | a turn performs its request whatever becomes of handing it back; the queue stays where it was, so that the request is performed again, if and only if the used element does not fit RAM, and the turn is a completion if and only if the used index fits too |
| `BlkQueue.UsedRingShows` | src/virtio_blk_mmio.cpp:455-470 | each completion is found at its own used index unless a later one took the same slot |
| `BlkQueue.DriverSeesAll` | src/virtio_blk_mmio.cpp:431-475 | with a size dividing 65536 and no more buffers than slots, the driver finds every completion with its length |
| `BlkDeviceSpec.AlwaysInStep` | src/virtio_blk_mmio.cpp:350-475 | `last_avail_idx == used_idx` in every state reachable by register writes, resets, notifications, image changes and guest stores, broken rings included |
| `BlkDeviceSpec.NotifyTwiceIsOnce` | src/virtio_blk_mmio.cpp:431-475 | a second notification with nothing new changes nothing |
| `VirtioBlkDevice.VirtioBlk.ServeQueue` | src/virtio_blk_mmio.cpp:443-471 | the loop over what is available, with its break rules |
| `VirtioBlkDevice.VirtioBlk.ParseRequest` | src/virtio_blk_mmio.cpp:477-532 | header checks and the bounded walk |
| `VirtioBlkDevice.VirtioBlk.CopyIn` | src/virtio_blk_mmio.cpp:556-563 | the read loop |
| `VirtioBlkDevice.VirtioBlk.CopyOut` | src/virtio_blk_mmio.cpp:575-587 | the write loop |
| `VirtioBlkDevice.VirtioBlk.CopyId` | src/virtio_blk_mmio.cpp:601-618 | the identity loop with its early end |
| `NetDeviceSpec.AlwaysConserved` | src/virtio_net_mmio.cpp:490-677 | over every run, the frames the device took from transmit buffers or was handed are the delivered ones followed by the queued ones, in the same order, failing rings and resets included; which bytes it takes is `NetLoopback.TransmitSends` |
| `NetDeviceSpec.DeliveredInOrder` | src/virtio_net_mmio.cpp:490-677 | delivered frames are a prefix of those taken or handed over, and the queue length is the difference |
| `NetLoopback.LoopbackDelivers` | src/virtio_net_mmio.cpp:490-677 | one notification of the transmit queue: at its k-th new used index the driver reads the k-th frame, byte for byte what the guest wrote behind its header, after those already waiting; each frame once, and none is left over |
| `NetLoopback.TransmitSends` | src/virtio_net_mmio.cpp:510-589 | every waiting buffer is sent, once and in order, and what is sent is what the guest wrote there, in the memory as it stood, if and only if its header size is detected throughout |
| `NetLoopback.ReceivesAll` | src/virtio_net_mmio.cpp:591-677 | with writable buffers in RAM and large enough, as many frames are received as there are frames waiting and buffers offered |
| `NetLoopback.TakesWhatWasWritten` | src/virtio_net_mmio.cpp:523-563 | a pass takes the bytes of the next chain less a header of the detected size, which is the guest's frame if and only if that is the guest's header size |
| `NetLoopback.DetectionCarries` | src/virtio_net_mmio.cpp:469-488 | after a pass the rest is detected if and only if this one was and the whole is |
| `NetLoopback.TransmitKeeps` | src/virtio_net_mmio.cpp:510-589 | transmitting writes nothing but the transmit queue's used ring |
| `NetLoopback.ReceiveOneCompletes` | src/virtio_net_mmio.cpp:606-674 | a pass on a buffer with room is completed |
| `LoopbackExample.ItDelivers` | src/virtio_net_mmio.cpp:490-677 | a concrete memory with one frame and one receive buffer that meets every hypothesis, and what its driver reads |
| `NetDelivery.DriverFindsAll` | src/virtio_net_mmio.cpp:591-677 | with well-placed rings and separate buffers, the k-th frame a notification receives is what the driver finds at the k-th new used index, byte for byte behind its header; how many are received is `NetLoopback.ReceivesAll` |
| `NetDelivery.LoopKeepsFound` | src/virtio_net_mmio.cpp:591-677 | a frame delivered earlier stays intact through the rest of the loop |
| `NetTheorems.DriverFindsFrame` | src/virtio_net_mmio.cpp:591-677 | one delivery: header and frame are in the chain, the used element names the head and the length |
| `NetTheorems.LeavesQueueIff` | src/virtio_net_mmio.cpp:645-669 | a frame leaves the queue if and only if its bytes are in the buffer and its used element is written |
| `NetTheorems.TooSmallChainWaits` | src/virtio_net_mmio.cpp:617-634 | a chain without the room leaves frame, ring and memory as they are |
| `NetTheorems.ReceivePops` | src/virtio_net_mmio.cpp:591-677 | frames are taken from the front only, one used index each |
| `NetTheorems.TransmitAppends` | src/virtio_net_mmio.cpp:510-589 | in loopback the queue grows by exactly the frames moved, in order |
| `NetTheorems.OneFramePerBuffer` | src/virtio_net_mmio.cpp:510-589 | with the used ring in RAM each frame moved takes exactly one buffer, however the loop ends; that all are moved is `NetLoopback.TransmitSends` |
| `NetTheorems.TransmittedIff` | src/virtio_net_mmio.cpp:529-566 | a buffer is transmitted if and only if its chain is complete, read-only and in RAM throughout, and holds a header |
| `NetTheorems.ResentIff` | src/virtio_net_mmio.cpp:571-583 | a frame goes out while its buffer stays next if and only if the used element cannot be written |
| `NetTheorems.ResentFrame` | src/virtio_net_mmio.cpp:571-583 | the same frame is then queued again at the next notification |
| `NetTheorems.StrippedExactlyIff` | src/virtio_net_mmio.cpp:461-488 | stripping recovers the frame if and only if the header size is detected, stated on what the chain holds |
| `NetTheorems.LegacyFrameMisread` | src/virtio_net_mmio.cpp:469-488 | a 10-byte-header frame starting with two zero bytes can lose them to a guessed 12-byte header |
| `NetTheorems.HeaderSizeSticks` | src/virtio_net_mmio.cpp:561-570 | once seen, the 12-byte header stays in effect |
| `NetTheorems.HeaderContent` | src/virtio_net_mmio.cpp:636-644 | the header in front of a received frame: zeros, and a buffer count of one in the 12-byte form |
| `NetDeviceSpec.ApplyInStep` | src/virtio_net_mmio.cpp:379-677 | both queues' ring indices stay in lockstep under every operation |
| `VirtioNetDevice.VirtioNet.TxLoop` | src/virtio_net_mmio.cpp:522-586 | the transmit loop with its break rules, equal to the specification |
| `VirtioNetDevice.VirtioNet.RxLoop` | src/virtio_net_mmio.cpp:605-674 | the receive loop with its break rules, equal to the specification |
| `VirtioNetDevice.VirtioNet.ReadChain` | src/virtio_net_mmio.cpp:548-559 | the loop that reads a chain's bytes |
| `VirtioNetDevice.VirtioNet.Measure` | src/virtio_net_mmio.cpp:535-546 | the loop that adds up a chain and checks its direction |
| `Transfer.FillShows` | src/virtio_net_mmio.cpp:646-662 | a payload filled into separate segments is read back from their front |
| `Transfer.FillOkIff` | src/virtio_net_mmio.cpp:646-662 | filling succeeds if and only if the segments have the room and the part used is RAM |
| `VirtioNetDevice.VirtioNet.FillChain` | src/virtio_net_mmio.cpp:646-662 | the copy into the chain |
| `BusTheorems.ReadsAgree` | include/aarchvm/bus_fast_path.hpp:78-144 | for every address and size, reading through the fast path equals the linear search: value, memory and devices, whatever the device does to the board |
| `BusTheorems.WritesAgree` | include/aarchvm/bus_fast_path.hpp:146-212 | for every address, value and size, writing through the fast path equals the linear search: memory, devices and dirty rows, whatever the device does to the board, DMA included |
| `BusTheorems.RunsAgree` | src/bus.cpp:19-58 | over any run of accesses, those that start DMA included, both buses give the same results and leave the same board |
| `BusTheorems.RamPtrsAgree` | src/bus.cpp:96-140 | direct RAM access gives the same place with and without the fast path, reading or writing |
| `BusTheorems.RamPtrIsInRam` | src/bus.cpp:96-140 | below the end of the address space it succeeds if and only if one RAM holds the whole access |
| `BusTheorems.RamPtrWraps` | src/bus.cpp:142-150 | past the end of the address space the bound check accepts an access that no RAM holds |
| `BusTheorems.UndefinedIff` | src/ram.cpp:24-42 | a RAM access, reading or writing, has no defined effect if and only if it is RAM-sized and ends past 2^64 |
| `BusTheorems.NoDeviceIff` | src/bus.cpp:142-150 | no device answers, reading or writing, if and only if no mapping holds the access; below the end of the address space that means no mapping contains it |
| `BusTheorems.ReadBack` | src/ram.cpp:24-42 | a RAM write is read back, cut to its size |
| `BusTheorems.EmptyAtGic` | src/bus.cpp:142-150 | the one address where search and fast path pick different devices: an empty access at the GIC base |
| `BusTheorems.FramebufferRowsRepresentable` | src/soc.cpp:166-170 | every write the board's framebuffer accepts has representable rows |
| `SystemBusDevice.SystemBus.Read` | src/bus.cpp:19-34 | the bus read, fast or not, is the linear-search read |
| `SystemBusDevice.SystemBus.Write` | src/bus.cpp:44-58 | the bus write, fast or not, is the linear-search write |
| `SystemBusDevice.SystemBus.FindMapping` | src/bus.cpp:142-150 | the search loop |
| `FramebufferDirtyTrackerDevice.DrawnAreTouched` | include/aarchvm/framebuffer_dirty_tracker.hpp:29-98 | after a run of writes the spans consumed are the unique maximal runs of exactly the rows touched |
| `FramebufferDirtyTrackerDevice.EachDrawsItsOwn` | include/aarchvm/framebuffer_dirty_tracker.hpp:55-82 | over any run of writes with drawings in between, each drawing gets exactly the rows touched since the one before |
| `DirtyRows.DrawnIsClean` | include/aarchvm/framebuffer_dirty_tracker.hpp:55-82 | after a drawing no row is marked and no mark is new |
| `DirtyRows.MarkedSinceLastDrawing` | include/aarchvm/framebuffer_dirty_tracker.hpp:55-82 | what is marked when a drawing comes is exactly what was touched since the last one |
| `DirtyRows.MarkedAreTouched` | include/aarchvm/framebuffer_dirty_tracker.hpp:29-43 | the marked rows are exactly those holding a byte some write covers |
| `DirtyRows.WroteMarksTouched` | include/aarchvm/framebuffer_dirty_tracker.hpp:29-43 | one write marks exactly the rows it touches |
| `DirtyRows.WroteAgreesIff` | include/aarchvm/framebuffer_dirty_tracker.hpp:29-53 | "something to draw" keeps meaning "some row marked" unless a write's wrapped last row precedes its first and nothing was marked |
| `DirtyRows.AlwaysInAgreement` | include/aarchvm/framebuffer_dirty_tracker.hpp:29-53 | so it always does when row numbers fit 32 bits and accesses stay below 2^64 |
| `DirtyRows.BlankExample` | include/aarchvm/framebuffer_dirty_tracker.hpp:29-43 | a concrete geometry and write that break it |
| `DirtyRows.RunsUnique` | include/aarchvm/framebuffer_dirty_tracker.hpp:55-82 | maximal runs of a row set are unique |
| `FramebufferDirtyTrackerDevice.FramebufferDirtyTracker.ConsumeDirtyRows` | include/aarchvm/framebuffer_dirty_tracker.hpp:55-82 | sorted, disjoint, non-adjacent spans covering exactly the marked rows, which are then forgotten |
| `FramebufferDirtyTrackerDevice.FramebufferDirtyTracker.CollectRuns` | include/aarchvm/framebuffer_dirty_tracker.hpp:61-79 | the scanning loop |
| `FramebufferDirtyTrackerDevice.FramebufferDirtyTracker.MarkRowRange` | include/aarchvm/framebuffer_dirty_tracker.hpp:85-94 | marks a clamped range and counts the mark |
| `FramebufferDirtyTrackerDevice.SetRow` | include/aarchvm/framebuffer_dirty_tracker.hpp:90-92 | setting one bit of one word adds that row and no other |
| `Snapshot.ResumedBehavesTheSame` | src/soc.cpp:1773-1775 | after load, rescale, rebase and mode change, the counter at every tick is the unsaved machine's, and every prediction and later synchronisation those of the machine synchronised at the save tick |
| `Snapshot.ResumedLikeNeverSaved` | src/soc.cpp:1494-1495 | when nothing is due at the save tick, predictions and later synchronisations too are those of the machine that was never saved |
| `Snapshot.ResumeIsSync` | src/generic_timer.cpp:397-484 | a snapshot resumed at its tick is the machine synchronised at that tick |
| `Snapshot.TimerRoundTrip` | src/generic_timer.cpp:397-484 | saving and loading restores every saved timer field and leaves the rest of the stream unread |
| `Snapshot.TruncatedTimerRefused` | src/generic_timer.cpp:424-484 | a stream cut off anywhere inside is refused |
| `Snapshot.HostResumeKeepsCounter` | src/generic_timer.cpp:144-162 | resumed on the host clock, the counter starts from the saved value |
| `Snapshot.GicRoundTrip` | src/gicv3.cpp:789-852 | saving and loading restores the whole controller but the epoch, and leaves the rest unread |
| `Snapshot.TruncatedGicRefused` | src/gicv3.cpp:817-852 | a stream cut off anywhere inside is refused |
| `Snapshot.LoadedArbitratesTheSame` | src/gicv3.cpp:817-852 | every query answers after loading as before saving |
| `SnapshotIo.VectorRoundTripIff` | include/aarchvm/snapshot_io.hpp:74-124 | a vector, of elements of any width, is read back with the rest unread if and only if it has at most 2^31 elements, and refused otherwise |
| `SnapshotIo.BoolVectorRoundTrip` | include/aarchvm/snapshot_io.hpp:74-124 | the same for vectors of booleans, a byte each |
| `SnapshotIo.WordRoundTrip` | include/aarchvm/snapshot_io.hpp:16-26 | a scalar is read back with the rest unread |
| `SnapshotIo.OutStream.WriteBoolArray` | include/aarchvm/snapshot_io.hpp:42-56 | an array of booleans, a byte each |
| `SnapshotIo.InStream.ReadBoolArray` | include/aarchvm/snapshot_io.hpp:58-72 | reads as many booleans, any non-zero byte being true |
| `SnapshotDevices.SaveTimer` | src/generic_timer.cpp:397-422 | writes the timer's layout |
| `SnapshotDevices.LoadTimer` | src/generic_timer.cpp:424-484 | reads it back field by field, equal to the specification |
| `SnapshotDevices.SaveGic` | src/gicv3.cpp:789-815 | writes the controller's layout |
| `SnapshotDevices.LoadGic` | src/gicv3.cpp:817-852 | reads it back field by field, equal to the specification |
| `ExceptionTheorems.NestedReturn` | src/system_registers.cpp:814-897 | exceptions nested to any depth return legally to the interrupted PC, PSTATE and stack selection; single-step survives exactly when it was set, is enabled, was masked at the source and is permitted at the destination |
| `ExceptionEntry.HandlerStartsMasked` | src/system_registers.cpp:814-857 | a handler starts at EL1 on its own stack with D, A, I and F set, SS and IL clear, PAN as it was or set when SPAN is clear, the interrupted flags, and debug control, system control and OS lock unchanged |
| `ExceptionEntry.SyndromeShows` | src/system_registers.cpp:814-857 | an interrupt clears the syndrome and leaves the fault address; a synchronous exception reports class, instruction length and details in their fields, and a fault address or zero |
| `ExceptionEntry.SavedIsInterrupted` | src/system_registers.cpp:814-836 | what is saved is the interrupted PSTATE |
| `ExceptionEntry.ReturnTakes` | src/system_registers.cpp:874-897 | a return takes flags, masks and PAN from SPSR, legal or not; a legal one also mode and IL; no other register changes |
| `ExceptionEntry.StackSelected` | src/system_registers.cpp:760-765 | selecting a stack at EL1 moves between its two modes; at EL0 only the selector is written |
| `ExceptionEntry.FlagsWritten` | src/system_registers.cpp:716-721 | a write to the flags is read back from exactly those |
| `ExceptionEntry.MasksWritten` | src/system_registers.cpp:753-758 | a write to the masks is read back from exactly those |
| `ExceptionTheorems.PStateChangesIff` | src/system_registers.cpp:874-897 | PSTATE changes across a handler if and only if single-step was set and does not survive |
| `ExceptionTheorems.HandlerStaysInEl1` | src/system_registers.cpp:814-857 | a handler keeps running at EL1 with a matching stack selector, whatever it writes and however deeply it is interrupted |
| `ExceptionTheorems.OnlySupportedModes` | src/system_registers.cpp:859-897 | any order of entries, returns and register writes stays in EL0t, EL1t or EL1h with the matching stack selector |
| `ExceptionTheorems.IllegalReturnStays` | src/system_registers.cpp:884-891 | an illegal return keeps mode and stack and marks the state |
| `ExceptionTheorems.PackingRoundTrip` | src/system_registers.cpp:730-751 | packing PSTATE into SPSR and unpacking loses nothing, and the mask drops nothing |
| `ExceptionTheorems.UnpackingRoundTrip` | src/system_registers.cpp:271-276 | unpacking and packing keeps exactly the supported bits below M[4] |
| `ExceptionTheorems.MdscrWriteReaches` | src/system_registers.cpp:371-377 | a write to MDSCR_EL1 reaches the direct bits, and the others only under the OS lock |
| `ExceptionTheorems.SctlrWritten` | src/system_registers.cpp:150-269 | a write to SCTLR_EL1 reaches every writable bit that is not reserved as set |
| `ExceptionTheorems.SctlrReserved` | src/system_registers.cpp:150-269 | the bits reserved as set stay set |
| `ExceptionTheorems.SctlrNothingElse` | src/system_registers.cpp:150-269 | and no other bit is ever set |
| `SystemRegistersDevice.SystemRegisters.Handle` | src/system_registers.cpp:814-897 | a whole handler with further exceptions inside resumes where it was interrupted |

## Left out

- `src/cpu.cpp`: instruction semantics, translation and the processor's own caches; processors are arbitrary steps.
- SDL, keyboard, terminal, environment variables, tracing, command line and the host network library: input, output and foreign code; without the latter the host wait of `run` makes no progress and is not modelled.
- PL011, PL050, PL031, the performance mailbox, the legacy block device, ID registers and PSCI: small register files; the UART, keyboard and virtio devices reach the scheduler as interrupt levels.
- Performance counters.
- SocDevice.SoC.Run: termination is not claimed without condition, because it is false; `Stalled` marks the case exactly. It assumes that devices announce changes of their level and that processors move interrupt lines only together with a timer write (`Reporting`), as the observers of the original do.
- SocDevice.SoC.SyncDevices: the framebuffer presentation and the host wait inside it are not modelled.
- Host clock: the reads inside one synchronisation are a single instant, taken from an oracle indexed by the number of synchronisations.
- 64-bit wrap of the controller's epoch, the dirty-row generations and the global step count: these are unbounded numbers. Wrap of guest time and of the timer counter is modelled.
- Promptness.NothingIsMissed: guest-step mode with the event-driven scheduler, and as long as guest time has not wrapped around its 48 bits since the schedule was computed; the legacy scheduler and the host clock synchronise every 65536 or 2048 steps instead, and nothing is claimed about what falls in between.
- TurnTheorems.StepsAfterJump: as long as guest time has not wrapped around since the schedule was computed (`trusted`); after a wrap the cached "no event" of the time before it is believed until the next synchronisation.
- TurnTheorems.SteppedIsReady: assumes that a processor that is on, not halted and not waiting is ready, as src/cpu.cpp:4932-4946 has it.
- RunSpec.EpochExitIsIdle: its condition fails for the step that src/cpu.cpp:5516 halts; the window then takes one idle step less.
- Controller register accesses narrower than 32 bits, and reads of its registers; 64-bit writes are two of 32 bits.
- Controller registers that only configure (wake-up, groups, trigger modes): stored; nothing in the original acts on them.
- GicTheorems.NoLevelInterruptLost: excludes writes that clear pending or active bits by hand; for the latter the exact condition is a lemma of its own.
- GuestMemory.LowestFirst: the original copies words in the host's byte order; the model is that of a little-endian host, which the guest's formats require.
- GuestMemory: an access whose end passes 2^64 counts as outside RAM; what the original does then is not defined.
- BlkQueue.ServeCompletes: assumes that both rings lie in RAM, that the used ring overlaps neither the available ring nor the descriptor table, and that the waiting requests' buffers keep off all three; otherwise the driver rewrites its own queue and there is no order to speak of.
- BlkDelivery.NotificationPerforms: assumes in addition that no waiting request writes into the header, the buffers or the status byte of another; requests that overlap see each other's results, and there is no outcome of each by itself.
- BlkTheorems.WriteThenRead: the read's buffers must overlap neither one another nor its status byte.
- NetDelivery.DriverFindsAll: assumes well-placed rings and receive buffers that keep off the rings and off one another.
- NetLoopback.LoopbackDelivers: assumes the same, that the transmit buffers keep off the used ring the device writes, and that this ring keeps off the receive queue; the guest uses 10-byte headers only when it has not negotiated the others.
- NetDeviceSpec.AlwaysConserved: attaching and detaching empty the queue and start the history afresh.
- Feature, page-size and identification registers of the virtio devices, other than the choice of network header.
- The callback that tells processors about DMA writes, and the fact that DMA into the framebuffer marks no rows.
- BusTheorems.RunsAgree: the register devices are arbitrary functions of the whole board, except that the interrupt controller ignores accesses of no bytes and no device resizes a RAM; a run ends at an access whose effect is not defined.
- Snapshots: layouts older than controller version 5 and timer version 3, the remaining devices' layouts, and what a failed load leaves behind.
- Snapshot.ResumedBehavesTheSame: guest-step mode, and no override of the timer scale at load time; when an interrupt is due at the save tick, saving shows it and the comparison is with the machine synchronised there.
- ExceptionTheorems.NestedReturn: the handler saves and restores ELR_EL1 and SPSR_EL1; the single-step bit that the processor puts into the saved state of a stepped instruction is part of the processor and not modelled.
- System registers that take no part in exceptions, and which bits of SCTLR_EL1 the ID registers make writable: the two masks are arbitrary.
- Register-level device methods that do one thing (register writes, resets, mode changes): each is proved equal to a function that is written the same way, and only the lemmas about those functions are listed above.
