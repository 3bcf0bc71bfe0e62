/** The machine: guest time, the cached device schedule, the device synchronisation and the run loop. */
module SocDevice {
  import opened Words
  import opened TimerSpec
  import opened SchedulerSpec
  import opened MachineSpec
  import opened MachineTheorems
  import opened RunSpec
  import opened TurnSpec
  import G = GicSpec

  /** How many processors are active and runnable, and the first runnable one. */
  datatype Dispatch = Dispatch(allHalted: bool, active: nat, runnable: nat, firstRunnable: nat)

  class SoC<W(!new)> {
    const procs: Processors<W>
    const n: nat
    const legacy: bool
    const hostClock: nat -> u64
    /** The scheduler's fields, kept together in one record that every method updates in place. */
    var m: Machine<W>

    function C(): Config<W> {
      Config(procs, n, legacy, hostClock)
    }

    constructor (procs: Processors<W>, cpuCount: nat, legacy: bool, hostClock: nat -> u64,
                 mode: ClockMode, scale: u64, world: W)
      requires Reporting(procs)
      ensures C() == Config(procs, Max(1, cpuCount), legacy, hostClock)
      ensures Valid(C(), m)
      ensures Now(m) == 0 && m.globalSteps == 0 && !m.stop && m.world == world
      ensures m.timer.mode == mode && m.timer.cps == scale && m.schedDirty && !m.syncValid
    {
      var cpus := Max(1, cpuCount);
      this.procs, n, this.legacy, this.hostClock := procs, cpus, legacy, hostClock;
      var timer := Timer(seq(cpus, i => ResetCpu), 0, 0, scale, GuestStep, 0, 0, false, false, false);
      m := Machine(SetMode(timer, mode, 0, hostClock(0)), G.Initial(cpus), 1, world, 0, 0, false, false, 0,
                   false, true, None, seq(cpus, i => false), seq(cpus, i => false),
                   Levels(false, false, false, false), false, 0, 0, 0, 0, true);
    }

    // ----- guest time -----

    method AdvanceGuestTime(executed: nat, active: nat)
      modifies this
      ensures m == AdvanceTime(old(m), executed, active)
    {
      if executed == 0 || active == 0 { return; }
      var whole, rem := executed / active, executed % active;
      var fp := (m.fp + whole * FRAC_ONE + rem * FRAC_ONE / active) % TWO64;
      m := m.(fp := fp, trusted := m.trusted && fp >= m.fp);
    }

    method AdvanceGuestTimeTo(tick: int)
      modifies this
      ensures m == JumpTo(old(m), tick)
    {
      var target := tick * FRAC_ONE % TWO64;
      if target <= m.fp { return; }
      m := m.(fp := target);
    }

    // ----- the device schedule -----

    method InvalidateDeviceSchedule()
      modifies this
      ensures m == Invalidate(old(m))
    {
      m := m.(syncValid := false, schedValid := false, schedDirty := true, event := None);
    }

    /** The next timer deadline, from the cache when it is still good. */
    method NextDeviceEvent() returns (e: Option<int>)
      modifies this
      ensures m == NextEvent(old(m)) && e == m.event
    {
      var tick := Now(m);
      if m.timer.mode == HostMonotonic {
        m := m.(schedValid := true, schedDirty := false, event := None, scheduledAt := tick, trusted := true);
        return None;
      }
      if m.schedValid && !m.schedDirty {
        if m.event.None? || m.event.value >= tick { return m.event; }
      }
      var steps := StepsUntilIrq(m.timer, tick, NO_DEADLINE);
      e := if steps != NO_DEADLINE then Some(tick + steps) else None;
      m := m.(schedValid := true, schedDirty := false, event := e, scheduledAt := tick, trusted := true);
    }

    // ----- device synchronisation -----

    /** Bring the timer to the present and show every device level on its line. Lines whose level is remembered
        to be unchanged are skipped; the result is as if every line had been driven. */
    method SyncDevices()
      requires Shaped(C(), m)
      requires m.syncValid ==> ViewOf(m.gic) == LineView(m.lastVirt, m.lastPhys, m.last)
      modifies this
      ensures m == Sync(C(), old(m))
    {
      hide ViewOf, DeviceView, SyncTo, ShowPrivate, ShowShared, G.Wf;
      var tick := Now(m);
      var host := hostClock(m.hostReads);
      SyncKeepsShape(m.timer, tick, host);
      var tm := SyncTo(m.timer, tick, host);
      var levels := procs.levels(m.world);
      var g, virt, phys := SyncCpuLines(m.gic, tm, m.syncValid, m.lastVirt, m.lastPhys, levels);
      ShowPrivateView(m.gic, DeviceView(tm, levels), |m.gic.locals|);
      g := SyncSharedLines(g, levels, m.syncValid, m.last);
      m := m.(timer := tm, hostReads := m.hostReads + 1, gic := g,
              syncValid := true, syncTicks := tick, schedValid := false, schedDirty := false, event := None,
              lastVirt := virt, lastPhys := phys, last := levels, trusted := true);
    }

    /** Whether the next window must stop at the next deadline. */
    method DeadlineDrivenWindowNeeded() returns (needed: bool)
      modifies this
      ensures m == AfterWindowNeeded(C(), old(m)) && (needed <==> WindowNeeded(C(), old(m)))
    {
      if m.timer.mode == HostMonotonic { return true; }
      if legacy { return false; }
      var anyPoweredOn, allWaiting := false, true;
      for i := 0 to n
        invariant anyPoweredOn <==> exists k | 0 <= k < i :: Active(C(), m, k)
        invariant allWaiting <==> !exists k | 0 <= k < i :: Active(C(), m, k) && !Waiting(C(), m, k)
      {
        if procs.powered(m.world, i) && !procs.halted(m.world, i) {
          assert Active(C(), m, i);
          anyPoweredOn := true;
          if !procs.waitingIrq(m.world, i) && !procs.waitingEvent(m.world, i) {
            allWaiting := false;
          }
        }
      }
      if !anyPoweredOn { return false; }
      if allWaiting { return true; }
      var event := NextDeviceEvent();
      needed := event.Some? && event.value - Now(m) <= SHORT_WINDOW;
    }

    method MaybeSyncDevices()
      requires Valid(C(), m)
      modifies this
      ensures m == MaybeSync(C(), old(m))
    {
      hide Sync, ViewOf, DeviceView, ScheduleSound, G.Wf, Reporting;
      if m.timer.mode == HostMonotonic {
        SyncDevices();
        return;
      }
      if legacy {
        SyncDevices();
        return;
      }
      NextEventFrame(C(), m);
      var needed := DeadlineDrivenWindowNeeded();
      if !needed {
        SyncDevices();
        return;
      }
      if !m.syncValid || m.schedDirty {
        SyncDevices();
      } else {
        NextEventFrame(C(), m);
        var event := NextDeviceEvent();
        if event.Some? && event.value <= Now(m) { SyncDevices(); }
      }
    }

    method FastForwardToNextGuestEvent() returns (moved: bool)
      requires Valid(C(), m)
      modifies this
      ensures m == FastForward(C(), old(m)) && (moved <==> Jumps(C(), old(m)))
    {
      hide Sync, ViewOf, DeviceView, LastSound, ScheduleSound, G.Wf, Reporting, Deadline, StepsUntilIrq;
      if m.timer.mode == HostMonotonic { return false; }
      if legacy { return false; }
      NextEventFrame(C(), m);
      var tick := Now(m);
      var event := NextDeviceEvent();
      if event.None? || event.value <= tick { return false; }
      AdvanceGuestTimeTo(event.value);
      m := m.(syncValid := false, jumped := m.jumped + (Now(m) - tick));
      SyncDevices();
      moved := true;
    }

    method ComputeRunWindow(budget: nat, divisor: nat, sensitive: bool) returns (w: nat)
      requires divisor > 0
      modifies this
      ensures m == AfterWindow(C(), old(m), sensitive) && w == Window(C(), old(m), budget, divisor, sensitive)
    {
      var chunk := Max(1, (budget + divisor - 1) / divisor);
      if m.timer.mode == HostMonotonic { return Max(1, Min(chunk, HOST_CHUNK)); }
      if legacy { return Max(1, Min(chunk, LEGACY_CHUNK)); }
      if !sensitive { return chunk; }
      var event := NextDeviceEvent();
      if event.Some? {
        if event.value <= Now(m) {
          chunk := 1;
        } else {
          chunk := Min(chunk, event.value - Now(m));
        }
      }
      w := Max(1, chunk);
    }

    // ----- processor steps -----

    method PerformAction(a: Action)
      requires Shaped(C(), m)
      modifies this
      ensures m == Perform(C(), old(m), a)
    {
      match a {
        case TimerWrite(cpu, which, reg, value) =>
          m := m.(timer := WriteTimerReg(m.timer, cpu, which, reg, Now(m), value, hostClock(m.hostReads)),
                  hostReads := m.hostReads + 1);
          InvalidateDeviceSchedule();
        case TimerMmio(offset, word, size) =>
          m := m.(timer := WriteMmio(m.timer, offset, word, size));
          if IsMmioReg(offset, size) { InvalidateDeviceSchedule(); }
        case GicAction(op) => m := m.(gic := G.Apply(m.gic, op));
        case DeviceChanged => InvalidateDeviceSchedule();
        case StopRequest => m := m.(stop := true);
      }
    }

    /** One call of a processor's step: it decides, and its actions reach the devices in order. */
    method CpuStep(i: nat) returns (ok: bool)
      requires Shaped(C(), m)
      modifies this
      ensures m == StepCpu(C(), old(m), i) && ok == Decide(C(), old(m), i).ok
    {
      hide Perform, AnyNotifies;
      var o := procs.step(m.world, m.timer, m.gic, Now(m), i);
      ghost var m0 := m;
      assert o.actions[..0] == [];
      for k := 0 to |o.actions|
        invariant Shaped(C(), m) && m == PerformAll(C(), m0, o.actions[..k])
      {
        PerformAllFrame(C(), m0, o.actions[..k]);
        PerformFrame(C(), m, o.actions[k]);
        assert o.actions[..k + 1][..k] == o.actions[..k];
        PerformAction(o.actions[k]);
      }
      assert o.actions[..|o.actions|] == o.actions;
      PerformAllFrame(C(), m0, o.actions);
      m := m.(world := o.world, wokeWaiter := m.wokeWaiter || o.wokeWaiter, cpuSteps := m.cpuSteps + 1);
      ok := o.ok;
    }

    /** A step on its own: counted and one tick long. */
    method BeatOf(i: nat) returns (ok: bool)
      requires Valid(C(), m)
      modifies this
      ensures Valid(C(), m) && m == Beat(C(), old(m), i) && ok == Decide(C(), old(m), i).ok
      ensures Accounted(old(m), m) && m.cpuSteps == old(m).cpuSteps + 1 && m.beats == old(m).beats + 1
      ensures m.jumped == old(m).jumped && (old(m).stop ==> m.stop)
    {
      BeatIsOneTick(C(), m, i);
      ok := CpuStep(i);
      m := m.(globalSteps := m.globalSteps + 1);
      AdvanceGuestTime(1, 1);
      m := m.(beats := m.beats + 1);
    }

    method RequestStop()
      requires Valid(C(), m)
      modifies this
      ensures m == old(m).(stop := true) && Valid(C(), m) && Accounted(old(m), m)
    {
      m := m.(stop := true);
      OtherFieldsAccounted(C(), old(m), m);
    }

    // ----- one processor -----

    /** One step of the only processor; ending says why the window is over, if it is. */
    method SoloBeat(ghost k: nat) returns (going: bool, ending: Ending)
      requires Valid(C(), m) && k > 0 && !m.stop
      modifies this
      ensures Valid(C(), m) && Accounted(old(m), m)
      ensures Beats(old(m), 1, m)
      ensures going ==> SoloLeads(C(), old(m), k, [Step(old(m), 0)], m, k - 1)
      ensures !going ==> SoloEnds(C(), old(m), k, [Step(old(m), 0)], m, ending)
      ensures going || ending == Yielded ==> !m.stop
      ensures ending == HaltedCpu || ending == Stopped ==> m.stop
      ensures going <==> ending == Spent
    {
      hide Valid, Accounted, Beat, Decide;
      ValidIsSteppable(C(), m);
      going, ending := false, Failed;
      var ok := BeatOf(0);
      ValidIsSteppable(C(), m);
      if !ok {
        if procs.halted(m.world, 0) {
          ghost var before := m;
          RequestStop();
          AccountedTwice(old(m), before, m);
          ending := HaltedCpu;
        }
        return;
      }
      if m.stop { return false, Stopped; }
      if m.schedDirty { return false, Yielded; }
      going := true;
      ending := Spent;
    }

    /** Step the only processor so many times, unless something ends the window. */
    method ExecuteChunk(chunk: nat) returns (ending: Ending, executed: nat, ghost log: seq<Step<W>>)
      requires Valid(C(), m) && chunk > 0 && !m.stop
      modifies this
      ensures Valid(C(), m) && Accounted(old(m), m) && 1 <= executed <= chunk
      ensures Beats(old(m), executed, m)
      ensures |log| == executed && SoloEnds(C(), old(m), chunk, log, m, ending)
      ensures ending == Spent ==> executed == chunk
      ensures ending == Spent || ending == Yielded ==> !m.stop
      ensures ending == HaltedCpu || ending == Stopped ==> m.stop
    {
      hide Valid, Accounted, SoloLeads, SoloEnds, Beats;
      ValidIsSteppable(C(), m);
      SoloStarts(C(), m, chunk);
      NoBeats(m);
      executed, ending, log := 0, Spent, [];
      Unaccounted(m);
      while executed < chunk
        invariant 0 <= executed <= chunk && Valid(C(), m) && Accounted(old(m), m) && !m.stop
        invariant Beats(old(m), executed, m)
        invariant |log| == executed && SoloLeads(C(), old(m), chunk, log, m, chunk - executed)
      {
        ghost var before := m;
        var going;
        going, ending := SoloBeat(chunk - executed);
        AccountedTwice(old(m), before, m);
        BeatsAdd(old(m), executed, before, 1, m);
        ghost var step := [Step(before, 0)];
        if going {
          SoloGoesOn(C(), old(m), chunk, log, before, chunk - executed, step, m);
        } else {
          SoloStops(C(), old(m), chunk, log, before, chunk - executed, step, m, ending);
        }
        executed, log := executed + 1, log + step;
        if !going { return; }
      }
      ending := Spent;
      SoloSpent(C(), old(m), chunk, log, m);
    }

    /** Step the only processor for a window. Nothing stops it early but a stale schedule, a stop or a failure. */
    method ExecuteWindow(window0: nat, budget: nat)
      returns (exit: Option<bool>, total: nat, ghost ending: Ending, ghost log: seq<Step<W>>)
      requires Valid(C(), m) && 0 < window0 <= budget && !m.stop
      modifies this
      ensures Valid(C(), m) && Accounted(old(m), m)
      ensures 1 <= total <= window0
      ensures Beats(old(m), total, m)
      ensures |log| == total && SoloEnds(C(), old(m), window0, log, m, ending) && exit == SoloExit(ending)
      ensures exit.None? ==> !m.stop
      ensures exit == Some(true) ==> m.stop
    {
      hide Valid, Accounted, SoloEnds, Beats;
      NoBeats(m);
      var remaining, window := budget, window0;
      total, exit, ending, log := 0, None, Spent, [];
      Unaccounted(m);
      while window > 0 && remaining > 0 && !m.stop
        invariant Valid(C(), m) && Accounted(old(m), m) && !m.stop
        invariant total == window0 - window == budget - remaining
        invariant window == 0 || (window == window0 && m == old(m))
        invariant Beats(old(m), total, m)
        invariant |log| == total && (window == 0 ==> SoloEnds(C(), old(m), window0, log, m, Spent))
        decreases window
      {
        var chunk := window;
        var why, executed;
        why, executed, log := ExecuteChunk(chunk);
        if why != Spent { return SoloExit(why), total + executed, why, log; }
        remaining := remaining - executed;
        window := window - Min(window, executed);
        total := total + executed;
      }
    }

    /** Choose a window and run it. A deadline-sensitive window does not carry time past the deadline. */
    method RunOneWindow(remaining: nat) returns (exit: Option<bool>, total: nat, ghost log: seq<Step<W>>)
      requires Valid(C(), m) && remaining > 0 && !m.stop
      modifies this
      ensures Valid(C(), m) && Accounted(old(m), m)
      ensures 1 <= total <= remaining
      ensures m.cpuSteps == old(m).cpuSteps + total && m.beats == old(m).beats + total && m.jumped == old(m).jumped
      ensures |log| == total && RunsAlone(C(), old(m), remaining, log, m, exit)
      ensures WindowNeeded(C(), old(m)) ==> StopsAtDeadline(C(), old(m), m)
      ensures exit.None? ==> !m.stop
      ensures exit == Some(true) ==> m.stop
    {
      hide Valid, Accounted, Settles, StopsAtDeadline, WindowNeeded, SoloEnds, NextEvent;
      NextEventSettles(C(), m);
      var sensitive := DeadlineDrivenWindowNeeded();
      ghost var m1 := m;
      AfterWindowSettles(C(), m, sensitive);
      WindowBounds(C(), m, remaining, 1, sensitive);
      var window := ComputeRunWindow(remaining, 1, sensitive);
      ghost var m2 := m;
      SettlesTwice(old(m), m1, m2);
      SettlesKeepsStop(old(m), m2);
      SettlesAccounted(old(m), m2);
      assert m2 == Opened(C(), old(m)) && window == OpenedWindow(C(), old(m), remaining, 1);
      ghost var ending;
      exit, total, ending, log := ExecuteWindow(window, remaining);
      AccountedTwice(old(m), m2, m);
      if sensitive {
        SettlesAccounted(m1, m2);
        AccountedTwice(m1, m2, m);
        WindowStopsAtDeadline(C(), m1, remaining, 1, m);
        LookingTwice(C(), old(m), m1, m);
      }
    }

    /** Try to jump from an idle machine, and recognise a loop that will jump for ever. */
    method Jump(ghost top: Machine<W>, ghost jumpsLeft: nat) returns (moved: bool, ghost left: nat, hopeless: bool)
      requires Valid(C(), m) && Idle(C(), m)
      requires Valid(C(), top) && Phase(top, jumpsLeft) && m == MaybeSync(C(), top)
      modifies this
      ensures Valid(C(), m) && Accounted(old(m), m) && m.cpuSteps == old(m).cpuSteps && m.beats == old(m).beats
      ensures m.stop == old(m).stop && m.world == old(m).world
      ensures moved <==> Jumps(C(), old(m))
      ensures m == FastForward(C(), old(m)) && (!moved ==> m == Stayed(C(), old(m)))
      ensures !moved ==> !hopeless && m.gic == old(m).gic
      ensures hopeless ==> Stuck(C(), m)
      ensures moved && !hopeless ==> left < jumpsLeft && Phase(m, left)
    {
      hide Valid, Accounted, Phase, Stuck, MaybeSync, FastForward, Jumps, OutOfReach, Idle, Settles;
      moved := FastForwardToNextGuestEvent();
      hopeless, left := false, 0;
      if moved {
        JumpAccounted(C(), old(m));
        JumpUsesUpPhase(C(), top, jumpsLeft);
        if OutOfReach(m) {
          hopeless := NobodyRunnable();
        }
        left := if hopeless then 0 else jumpsLeft - 1;
      } else {
        NoJumpSettles(C(), old(m));
        NoJumpStays(C(), old(m));
        SettlesAccounted(old(m), m);
      }
    }

    method NobodyRunnable() returns (idle: bool)
      ensures idle <==> Idle(C(), m)
    {
      if n == 1 { return !procs.ready(m.world, m.gic, 0); }
      idle := !AllHaltedIn(C(), m.world)
              && forall i | 0 <= i < n ::
                   procs.powered(m.world, i) && !procs.halted(m.world, i) ==> !procs.ready(m.world, m.gic, i);
    }

    /** The top of the loop: synchronise if needed. */
    method Top()
      requires Valid(C(), m)
      modifies this
      ensures Valid(C(), m) && m == MaybeSync(C(), old(m)) && Accounted(old(m), m)
      ensures !m.stop ==> Looked(C(), old(m), m)
      ensures m.cpuSteps == old(m).cpuSteps && m.beats == old(m).beats && m.stop == old(m).stop
    {
      MaybeSyncSettles(C(), m);
      SettlesAccounted(m, MaybeSync(C(), m));
      MaybeSyncDevices();
    }

    /** The synchronisation after the loop. */
    method Bottom()
      requires Valid(C(), m)
      modifies this
      ensures Valid(C(), m) && m == Sync(C(), old(m)) && Accounted(old(m), m) && LinesRight(C(), m)
      ensures m.cpuSteps == old(m).cpuSteps && m.beats == old(m).beats && m.stop == old(m).stop && m.world == old(m).world
    {
      SyncSettles(C(), m);
      SyncFrame(C(), m);
      SettlesAccounted(m, Sync(C(), m));
      SyncDevices();
    }

    /** The loop for a machine with one processor. It returns, or it is stuck for good at a deadline that the
        jump cannot reach. */
    method RunSingle(maxSteps: nat) returns (r: RunResult, ghost turns: seq<Turn<W>>)
      requires Valid(C(), m) && n == 1
      modifies this
      ensures Valid(C(), m) && Accounted(old(m), m)
      ensures m.cpuSteps - old(m).cpuSteps <= maxSteps
      ensures m.beats - old(m).beats == m.cpuSteps - old(m).cpuSteps
      ensures r == Stalled ==> Stuck(C(), m) && !m.stop && m.cpuSteps - old(m).cpuSteps < maxSteps
      ensures r == Finished(true) && !m.stop ==> m.cpuSteps - old(m).cpuSteps == maxSteps && LinesRight(C(), m)
      ensures Ran(C(), old(m), maxSteps, turns, m, r)
    {
      hide Valid, Accounted, Phase, Stuck, MaybeSync, LinesRight, StopsAtDeadline, WindowNeeded, Jumps, FastForward,
        Stayed, RunsAlone, GoingOn, IsOver, Ran, Sync, Idle, Looked;
      var remaining := maxSteps;
      turns := [];
      NoTurns(C(), m, maxSteps);
      ghost var jumpsLeft := 2;
      Unaccounted(m);
      AnyPhase(m);
      while remaining > 0 && !m.stop
        invariant Valid(C(), m) && Accounted(old(m), m) && Phase(m, jumpsLeft)
        invariant m.cpuSteps - old(m).cpuSteps == maxSteps - remaining && 0 <= remaining <= maxSteps
        invariant m.beats - old(m).beats == m.cpuSteps - old(m).cpuSteps
        invariant GoingOn(C(), old(m), maxSteps, turns, m, remaining)
        decreases remaining, jumpsLeft
      {
        ghost var top := m;
        Top();
        AccountedTwice(old(m), top, m);
        ghost var seen := m;
        IdleAlone(C(), m);
        if !procs.ready(m.world, m.gic, 0) {
          ghost var before := m;
          var moved, left, hopeless := Jump(top, jumpsLeft);
          AccountedTwice(old(m), before, m);
          if moved { turns := LeapIsTurn(C(), old(m), maxSteps, turns, top, remaining, seen, m); }
          if hopeless { return Stalled, turns; }
          if moved {
            jumpsLeft := left;
            continue;
          }
        }
        ghost var before := m;
        var exit, total;
        ghost var log;
        exit, total, log := RunOneWindow(remaining);
        AccountedTwice(old(m), before, m);
        turns := WindowIsTurn(C(), old(m), maxSteps, turns, top, remaining, seen, log, m, exit);
        remaining := remaining - total;
        jumpsLeft := 2;
        AnyPhase(m);
        if exit.Some? { return Finished(exit.value), turns; }
      }
      ghost var before := m;
      Bottom();
      AccountedTwice(old(m), before, m);
      LoopEnds(C(), old(m), maxSteps, turns, before, remaining);
      RunIsOver(C(), old(m), maxSteps, turns, before, remaining, m, true);
      r := Finished(true);
    }

    // ----- several processors -----

    method InspectCpuDispatchState() returns (d: Dispatch)
      ensures d.allHalted <==> AllHaltedIn(C(), m.world)
      ensures Saw(d, m)
      ensures forall i | 0 <= i < d.firstRunnable && i < n :: !Runnable(C(), m, i)
    {
      hide ActiveCpus, RunnableCpus;
      var anyPoweredOn, allHalted := false, true;
      d := Dispatch(true, 0, 0, n);
      NoCpus(C(), m);
      for i := 0 to n
        invariant anyPoweredOn <==> exists k | 0 <= k < i :: procs.powered(m.world, k)
        invariant d.allHalted <==> forall k | 0 <= k < i :: procs.powered(m.world, k) ==> procs.halted(m.world, k)
        invariant d.active == |ActiveCpus(C(), m, i)| && d.runnable == |RunnableCpus(C(), m, i)|
        invariant d.active == 0 <==> forall k | 0 <= k < i :: !Active(C(), m, k)
        invariant d.runnable == 0 <==> forall k | 0 <= k < i :: !Runnable(C(), m, k)
        invariant d.runnable > 0 ==> d.firstRunnable < i && Runnable(C(), m, d.firstRunnable)
        invariant d.runnable > 0 ==> forall k | 0 <= k < d.firstRunnable :: !Runnable(C(), m, k)
        invariant d.runnable == 1 ==> forall k | 0 <= k < i && Runnable(C(), m, k) :: k == d.firstRunnable
      {
        OneMoreCpu(C(), m, i);
        if procs.powered(m.world, i) {
          anyPoweredOn := true;
          if !procs.halted(m.world, i) {
            assert Active(C(), m, i);
            d := d.(allHalted := false, active := d.active + 1);
            if procs.ready(m.world, m.gic, i) {
              assert Runnable(C(), m, i);
              d := d.(firstRunnable := if d.runnable == 0 then i else d.firstRunnable, runnable := d.runnable + 1);
            }
          }
        }
      }
      if !anyPoweredOn { d := d.(allHalted := false); }
    }

    method AnyOtherCpuWaitingForInterrupt(source: nat) returns (r: bool)
      ensures r <==> OtherWaiting(C(), m, source)
    {
      for i := 0 to n
        invariant forall k | 0 <= k < i :: !(k != source && Active(C(), m, k) && procs.waitingIrq(m.world, k))
      {
        if i != source && procs.powered(m.world, i) && !procs.halted(m.world, i) && procs.waitingIrq(m.world, i) {
          assert Active(C(), m, i);
          return true;
        }
      }
      r := false;
    }

    method ForgetWokenWaiters()
      requires Valid(C(), m)
      modifies this
      ensures m == old(m).(wokeWaiter := false) && Valid(C(), m) && Accounted(old(m), m)
    {
      m := m.(wokeWaiter := false);
      OtherFieldsAccounted(C(), old(m), m);
    }

    /** One step of the one runnable processor: the window may go on, start afresh on a changed epoch, or be over. */
    method SharedBeat(i: nat, ghost k: nat, waitingPeer: bool, epoch: nat)
      returns (going: bool, renewed: bool, ending: Ending)
      requires Valid(C(), m) && k > 0 && !m.stop
      modifies this
      ensures Valid(C(), m) && Accounted(old(m), m)
      ensures Beats(old(m), 1, m)
      ensures going ==> SharedLeads(C(), i, waitingPeer, Shift(old(m), k, epoch), [Step(old(m), i)],
                                    Shift(m, k - 1, if renewed then m.gic.epoch else epoch))
      ensures !going ==> SharedEnds(C(), i, waitingPeer, Shift(old(m), k, epoch), [Step(old(m), i)], m, ending)
      ensures going ==> !m.stop && !m.wokeWaiter
      ensures !going ==> ending != Spent && (ending == Stopped ==> m.stop)
    {
      hide Valid, Accounted, Beat, Decide;
      ValidIsSteppable(C(), m);
      going, renewed, ending := false, false, Failed;
      var ok := BeatOf(i);
      ValidIsSteppable(C(), m);
      if !ok {
        if procs.halted(m.world, i) { ending := HaltedCpu; }
        return;
      }
      if m.stop { return false, false, Stopped; }
      if m.schedDirty || m.wokeWaiter || procs.waitingIrq(m.world, i) || procs.waitingEvent(m.world, i) {
        return false, false, Yielded;
      }
      if waitingPeer && m.gic.epoch != epoch {
        if procs.halted(m.world, i) { return false, false, HaltedCpu; }
        renewed := true;
      }
      going := true;
      ending := Spent;
    }

    /** Step the one runnable processor so many times, unless something ends the window or restarts the look-out. */
    method ExecuteSharedChunk(i: nat, chunk: nat, waitingPeer: bool)
      returns (ending: Ending, executed: nat, ghost log: seq<Step<W>>)
      requires Valid(C(), m) && chunk > 0 && !m.stop
      modifies this
      ensures Valid(C(), m) && Accounted(old(m), m) && 1 <= executed <= chunk
      ensures Beats(old(m), executed, m)
      ensures |log| == executed
      ensures ending == Spent ==>
                SharedLeads(C(), i, waitingPeer, Shift(old(m), chunk, old(m).gic.epoch), log,
                            Shift(m, chunk - executed, m.gic.epoch))
      ensures ending != Spent ==>
                SharedEnds(C(), i, waitingPeer, Shift(old(m), chunk, old(m).gic.epoch), log, m, ending)
      ensures ending == Spent ==> !m.stop && !m.wokeWaiter
      ensures ending == Stopped ==> m.stop
    {
      hide Valid, Accounted, SharedLeads, SharedEnds, Beats;
      ValidIsSteppable(C(), m);
      var epochBefore := m.gic.epoch;
      ghost var start := Shift(m, chunk, epochBefore);
      SharedStarts(C(), i, waitingPeer, start);
      NoBeats(m);
      executed, ending, log := 0, Spent, [];
      var renewed := false;
      Unaccounted(m);
      ghost var here := start;
      while executed < chunk && !renewed
        invariant 0 <= executed <= chunk && Valid(C(), m) && Accounted(old(m), m) && !m.stop
        invariant executed > 0 ==> !m.wokeWaiter
        invariant renewed ==> executed > 0
        invariant Beats(old(m), executed, m)
        invariant here.m == m && here.k == chunk - executed
        invariant here.epoch == if renewed then m.gic.epoch else epochBefore
        invariant |log| == executed && SharedLeads(C(), i, waitingPeer, start, log, here)
      {
        ghost var before := m;
        var going;
        going, renewed, ending := SharedBeat(i, chunk - executed, waitingPeer, epochBefore);
        AccountedTwice(old(m), before, m);
        BeatsAdd(old(m), executed, before, 1, m);
        assert here == Shift(before, chunk - executed, epochBefore);
        ghost var step := [Step(before, i)];
        if going {
          ghost var next := Shift(m, chunk - executed - 1, if renewed then m.gic.epoch else epochBefore);
          SharedGoesOn(C(), i, waitingPeer, start, log, here, step, next);
          here := next;
        } else {
          SharedStops(C(), i, waitingPeer, start, log, here, step, m, ending);
        }
        executed, log := executed + 1, log + step;
        if !going { return; }
      }
      ending := Spent;
      if executed == chunk {
        assert here == Shift(m, 0, here.epoch);
        SharedSpent(C(), i, waitingPeer, start, log, m, here.epoch, m.gic.epoch);
      }
    }

    /** Step the one runnable processor for a window, until something may have made another one runnable. */
    method ExecuteSharedWindow(i: nat, window0: nat, budget: nat, waitingPeer: bool)
      returns (exit: Option<bool>, total: nat, ghost ending: Ending, ghost log: seq<Step<W>>)
      requires Valid(C(), m) && 0 < window0 <= budget && !m.stop
      modifies this
      ensures Valid(C(), m) && Accounted(old(m), m)
      ensures 1 <= total <= window0
      ensures Beats(old(m), total, m)
      ensures |log| == total && exit == SharedExit(ending)
      ensures SharedEnds(C(), i, waitingPeer, Shift(Forgotten(old(m)), window0, old(m).gic.epoch), log, m, ending)
      ensures exit == Some(true) ==> m.stop
    {
      hide Valid, Accounted, SharedLeads, SharedEnds, Beats;
      ValidIsSteppable(C(), m);
      ghost var start := Shift(Forgotten(m), window0, m.gic.epoch);
      SharedStarts(C(), i, waitingPeer, start);
      NoBeats(m);
      var remaining, window := budget, window0;
      total, exit, ending, log := 0, None, Spent, [];
      Unaccounted(m);
      while window > 0 && remaining > 0 && !m.stop
        invariant Valid(C(), m) && Accounted(old(m), m) && !m.stop
        invariant total == window0 - window == budget - remaining && 0 <= window <= window0
        invariant Beats(old(m), total, m)
        invariant |log| == total
        invariant SharedLeads(C(), i, waitingPeer, start, log, Shift(Forgotten(m), window, m.gic.epoch))
        invariant total > 0 ==> m == Forgotten(m)
        decreases window
      {
        ghost var here := Shift(Forgotten(m), window, m.gic.epoch);
        ghost var before := m;
        ForgetWokenWaiters();
        AccountedTwice(old(m), before, m);
        NoBeats(before);
        BeatsAdd(old(m), total, before, 0, m);
        before := m;
        var why, executed;
        ghost var more;
        why, executed, more := ExecuteSharedChunk(i, window, waitingPeer);
        AccountedTwice(old(m), before, m);
        BeatsAdd(old(m), total, before, executed, m);
        if why != Spent {
          SharedStops(C(), i, waitingPeer, start, log, here, more, m, why);
          return SharedExit(why), total + executed, why, log + more;
        }
        AlreadyForgotten(m);
        SharedGoesOn(C(), i, waitingPeer, start, log, here, more, Shift(m, window - executed, m.gic.epoch));
        log := log + more;
        remaining := remaining - executed;
        window := window - Min(window, executed);
        total := total + executed;
      }
      SharedSpent(C(), i, waitingPeer, start, log, m, m.gic.epoch, m.gic.epoch);
    }

    lemma AlreadyForgotten(m: Machine<W>)
      requires !m.wokeWaiter
      ensures m == Forgotten(m)
    {
    }

    /** Choose the window of the one runnable processor and run it; time stops at the deadline. */
    method RunOneShared(i: nat, remaining: nat) returns (exit: Option<bool>, total: nat, ghost log: seq<Step<W>>)
      requires Valid(C(), m) && remaining > 0 && !m.stop
      requires OnlyReady(C(), m, i)
      modifies this
      ensures Valid(C(), m) && Accounted(old(m), m)
      ensures 1 <= total <= remaining
      ensures m.cpuSteps == old(m).cpuSteps + total
      ensures |log| == total && RunsShared(C(), i, old(m), remaining, log, m, exit)
      ensures StopsAtDeadline(C(), old(m), m)
      ensures exit == Some(true) ==> m.stop
    {
      hide Valid, Accounted, Settles, StopsAtDeadline, AfterWindow, OnlyReady, SharedEnds, Window;
      AfterWindowFrame(C(), m, true);
      AfterWindowSettles(C(), m, true);
      WindowBounds(C(), m, remaining, 1, true);
      SettlesAccounted(m, AfterWindow(C(), m, true));
      SettlesKeepsStop(m, AfterWindow(C(), m, true));
      var window := ComputeRunWindow(remaining, 1, true);
      ghost var before := m;
      var waitingPeer := AnyOtherCpuWaitingForInterrupt(i);
      assert waitingPeer <==> OtherWaiting(C(), old(m), i);
      ghost var ending;
      exit, total, ending, log := ExecuteSharedWindow(i, window, remaining, waitingPeer);
      AccountedTwice(old(m), before, m);
      WindowStopsAtDeadline(C(), old(m), remaining, 1, m);
    }

    /** One round: every eligible processor steps once, in index order. */
    method OneRound(budget: nat, pollWaiters: bool)
      returns (failed: bool, executed: nat, active: nat, ghost log: seq<Step<W>>)
      requires Valid(C(), m) && budget > 0 && !m.stop
      modifies this
      ensures Valid(C(), m) && Accounted(old(m), m) && m.beats == old(m).beats && m.jumped == old(m).jumped
      ensures m.fp == old(m).fp
      ensures executed == active == |log| <= budget && m.cpuSteps == old(m).cpuSteps + executed
      ensures RoundEnds(C(), pollWaiters, old(m), budget, log, m, failed)
      ensures executed == 0 ==> m == old(m) && forall i | 0 <= i < n :: !Eligible(C(), m, pollWaiters, i)
      ensures failed ==> executed > 0
    {
      hide Valid, Accounted, StepCpu, Counted, Decide, RoundLeads, RoundEnds, Steppable, Eligible;
      executed, active, log, failed := 0, 0, [], false;
      Unaccounted(m);
      ValidIsSteppable(C(), m);
      RoundStarts(C(), pollWaiters, m, budget);
      var i := 0;
      while i < n && executed != budget && !m.stop
        invariant 0 <= i <= n
        invariant Valid(C(), m) && Accounted(old(m), m) && m.beats == old(m).beats && m.jumped == old(m).jumped
        invariant m.fp == old(m).fp
        invariant executed == active == |log| <= budget && m.cpuSteps == old(m).cpuSteps + executed
        invariant RoundLeads(C(), pollWaiters, old(m), budget, Progress(log, m, i, budget - executed))
        invariant executed == 0 ==> m == old(m) && forall k | 0 <= k < i :: !Eligible(C(), m, pollWaiters, k)
        decreases n - i
      {
        ghost var here := Progress(log, m, i, budget - executed);
        EligibleIs(i, pollWaiters);
        if !procs.powered(m.world, i) || procs.halted(m.world, i)
           || (!pollWaiters && !procs.ready(m.world, m.gic, i)) {
          RoundPasses(C(), pollWaiters, old(m), budget, here);
          i := i + 1;
          continue;
        }
        active := active + 1;
        ghost var before := m;
        var ok := CountedStep(i);
        AccountedTwice(old(m), before, m);
        RoundSteps(C(), pollWaiters, old(m), budget, here);
        executed := executed + 1;
        log := log + [Step(before, i)];
        if !ok && !procs.halted(m.world, i) { return true, executed, active, log; }
        i := i + 1;
      }
      RoundIsOver(C(), pollWaiters, old(m), budget, Progress(log, m, i, budget - executed));
    }

    lemma EligibleIs(i: nat, pollWaiters: bool)
      ensures Eligible(C(), m, pollWaiters, i) <==>
              !(!procs.powered(m.world, i) || procs.halted(m.world, i)
                || (!pollWaiters && !procs.ready(m.world, m.gic, i)))
    {
    }

    /** One counted step that leaves time alone. */
    method CountedStep(i: nat) returns (ok: bool)
      requires Valid(C(), m)
      modifies this
      ensures Valid(C(), m) && Accounted(old(m), m)
      ensures m == Counted(StepCpu(C(), old(m), i)) && ok == Decide(C(), old(m), i).ok
      ensures m.cpuSteps == old(m).cpuSteps + 1 && m.beats == old(m).beats && m.jumped == old(m).jumped && m.fp == old(m).fp
    {
      StepAccounted(C(), m, i);
      ok := CpuStep(i);
      m := m.(globalSteps := m.globalSteps + 1);
    }

    /** A whole round: if anyone ran, guest time advances by exactly one tick. */
    method RoundAndTick(budget: nat, pollWaiters: bool) returns (failed: bool, executed: nat, ghost log: seq<Step<W>>)
      requires Valid(C(), m) && budget > 0 && !m.stop
      modifies this
      ensures Valid(C(), m) && Accounted(old(m), m) && m.jumped == old(m).jumped
      ensures executed <= budget && m.cpuSteps == old(m).cpuSteps + executed
      ensures m.beats == old(m).beats + if executed > 0 && !failed then 1 else 0
      ensures executed == 0 ==> !failed && m == old(m) && forall i | 0 <= i < n :: !Eligible(C(), m, pollWaiters, i)
      ensures |log| == executed
      ensures failed || executed == 0 ==> RoundEnds(C(), pollWaiters, old(m), budget, log, m, failed)
      ensures !failed && executed > 0 ==> TickedRoundEnds(C(), pollWaiters, old(m), budget, log, m)
    {
      hide Valid, Accounted, AdvanceTime, RoundFrom;
      var active;
      failed, executed, active, log := OneRound(budget, pollWaiters);
      if executed == 0 || failed { return; }
      TickedRoundAccounted(C(), old(m), m, active);
      AdvanceGuestTime(executed, active);
      m := m.(beats := m.beats + 1);
    }

    /** Rounds until the budget of rounds or steps is used up, nobody can run, or the schedule is stale. */
    method RunRounds(rounds: nat, budget: nat, pollWaiters: bool)
      returns (failed: bool, total: nat, ghost log: seq<Step<W>>)
      requires Valid(C(), m) && rounds > 0 && budget > 0 && !m.stop
      requires exists i | 0 <= i < n :: Eligible(C(), m, pollWaiters, i)
      modifies this
      ensures Valid(C(), m) && Accounted(old(m), m) && m.jumped == old(m).jumped
      ensures 1 <= total <= budget && m.cpuSteps == old(m).cpuSteps + total
      ensures m.beats - old(m).beats <= rounds
      ensures |log| == total && RoundsEnd(C(), old(m), pollWaiters, rounds, budget, log, m, failed)
    {
      hide Valid, Accounted, RoundEnds, TickedRoundEnds, RoundsLead, RoundsEnd, Eligible, AllHaltedIn, Saw;
      var round := 0;
      total, log := 0, [];
      Unaccounted(m);
      ValidIsSteppable(C(), m);
      ghost var from := Lap(m, rounds, budget);
      RoundsBegin(C(), pollWaiters, from);
      while round < rounds && total < budget && !m.stop
        invariant Valid(C(), m) && Accounted(old(m), m) && m.jumped == old(m).jumped
        invariant 0 <= round <= rounds && m.beats - old(m).beats <= round
        invariant total <= budget && m.cpuSteps == old(m).cpuSteps + total
        invariant total == 0 ==> m == old(m) && round == 0
        invariant |log| == total
        invariant RoundsLead(C(), pollWaiters, from, log, Lap(m, rounds - round, budget - total))
      {
        ghost var before := m;
        ghost var here := Lap(m, rounds - round, budget - total);
        var executed;
        ghost var more;
        failed, executed, more := RoundAndTick(budget - total, pollWaiters);
        AccountedTwice(old(m), before, m);
        total := total + executed;
        if failed {
          RoundsFail(C(), pollWaiters, from, log, here, more, m);
          log := log + more;
          return;
        }
        if executed == 0 {
          RoundsNobody(C(), pollWaiters, from, log, here);
          var dispatch := InspectCpuDispatchState();
          if dispatch.allHalted {
            before := m;
            RequestStop();
            AccountedTwice(old(m), before, m);
          }
          return;
        }
        RoundsGoOn(C(), pollWaiters, from, log, here, more, m);
        log := log + more;
        if m.schedDirty { return; }
        round := round + 1;
      }
      failed := false;
      RoundsOver(C(), pollWaiters, from, log, Lap(m, rounds - round, budget - total));
    }

    /** Choose the number of rounds and run them; a deadline-sensitive choice stops time at the deadline. */
    method RunSomeRounds(remaining: nat, runnable: nat, pollWaiters: bool)
      returns (failed: bool, total: nat, ghost log: seq<Step<W>>)
      requires Valid(C(), m) && remaining > 0 && runnable > 0 && !m.stop
      requires exists i | 0 <= i < n :: Eligible(C(), m, pollWaiters, i)
      modifies this
      ensures Valid(C(), m) && Accounted(old(m), m)
      ensures 1 <= total <= remaining && m.cpuSteps == old(m).cpuSteps + total
      ensures |log| == total && RunsRounds(C(), old(m), remaining, runnable, pollWaiters, log, m, failed)
      ensures WindowNeeded(C(), old(m)) ==> StopsAtDeadline(C(), old(m), m)
    {
      hide Valid, Accounted, Settles, StopsAtDeadline, AfterWindow, NextEvent, WindowNeeded, Window, RoundsEnd;
      ghost var who :| 0 <= who < n && Eligible(C(), m, pollWaiters, who);
      NextEventSettles(C(), m);
      NextEventFrame(C(), m);
      var sensitive := DeadlineDrivenWindowNeeded();
      ghost var m1 := m;
      SettlesOnce(old(m));
      AfterWindowSettles(C(), m, sensitive);
      AfterWindowFrame(C(), m, sensitive);
      var rounds := ComputeRunWindow(remaining, runnable, sensitive);
      ghost var m2 := m;
      SettlesTwice(old(m), m1, m2);
      SettlesAccounted(old(m), m2);
      SettlesKeepsStop(old(m), m2);
      assert Eligible(C(), m, pollWaiters, who);
      failed, total, log := RunRounds(rounds, remaining, pollWaiters);
      AccountedTwice(old(m), m2, m);
      if sensitive {
        SettlesAccounted(m1, m2);
        AccountedTwice(m1, m2, m);
        WindowStopsAtDeadline(C(), m1, remaining, runnable, m);
        LookingTwice(C(), old(m), m1, m);
      }
    }

    /** Whom the dispatch saw at the top of a turn. */
    ghost predicate Saw(d: Dispatch, s: Machine<W>) {
      && d.active == |ActiveCpus(C(), s, n)| && d.runnable == |RunnableCpus(C(), s, n)|
      && (d.active == 0 <==> forall i | 0 <= i < n :: !Active(C(), s, i))
      && (d.runnable == 0 <==> NoneReady(C(), s))
      && (d.runnable > 0 ==> d.firstRunnable < n && Runnable(C(), s, d.firstRunnable))
      && (d.runnable == 1 ==> OnlyReady(C(), s, d.firstRunnable))
    }

    lemma SawNobody(d: Dispatch, s: Machine<W>)
      requires Saw(d, s)
      ensures d.runnable == 0 <==> NoneReady(C(), s)
      ensures d.active == 0 <==> ActiveCpus(C(), s, n) == {}
    {
    }

    /** The ready processors run, one for a window or several in rounds; with none ready the waiting ones are polled. */
    method RunReady(dispatch: Dispatch, pollWaiters: bool, remaining: nat, ghost seen: Machine<W>)
      returns (exit: Option<bool>, total: nat, ghost log: seq<Step<W>>)
      requires Valid(C(), m) && n > 1 && remaining > 0 && !m.stop
      requires Saw(dispatch, seen)
      requires if pollWaiters then
                 dispatch.runnable == 0 && dispatch.active > 0 && !AllHaltedIn(C(), seen.world) && !Jumps(C(), seen)
                 && m == Stayed(C(), seen) && m.world == seen.world && m.gic == seen.gic
               else dispatch.runnable > 0 && m == seen
      modifies this
      ensures Valid(C(), m) && Accounted(old(m), m)
      ensures 1 <= total <= remaining && m.cpuSteps == old(m).cpuSteps + total
      ensures |log| == total && ReadyRan(C(), seen, remaining, log, m, exit)
      ensures exit == Some(true) ==> m.stop
    {
      hide Valid, Accounted, MaybeSync, Jumps, StopsAtDeadline, Eligible, ActiveCpus, RunnableCpus, Active, Runnable,
        AllHaltedIn, Stayed, RunsShared, RunsRounds, ReadyRan, OnlyReady, NoneReady, WindowNeeded;
      if !pollWaiters && dispatch.runnable == 1 {
        exit, total, log := RunOneShared(dispatch.firstRunnable, remaining);
        OneRan(C(), seen, remaining, log, m, dispatch.firstRunnable, exit);
      } else {
        SomeoneEligible(C(), seen, m, pollWaiters, dispatch.firstRunnable);
        var failed;
        var divisor := if pollWaiters then dispatch.active else dispatch.runnable;
        failed, total, log := RunSomeRounds(remaining, divisor, pollWaiters);
        exit := if failed then Some(false) else None;
        RoundsRan(C(), seen, remaining, log, m, divisor, pollWaiters, failed);
      }
    }

    /** The loop for a machine with several processors. */
    method RunShared(maxSteps: nat) returns (r: RunResult, ghost turns: seq<Turn<W>>)
      requires Valid(C(), m) && n > 1
      modifies this
      ensures Valid(C(), m) && Accounted(old(m), m)
      ensures m.cpuSteps - old(m).cpuSteps <= maxSteps
      ensures r == Stalled ==> Stuck(C(), m) && !m.stop && m.cpuSteps - old(m).cpuSteps < maxSteps
      ensures r == Finished(true) && !m.stop ==>
                && LinesRight(C(), m)
                && (m.cpuSteps - old(m).cpuSteps == maxSteps || forall i | 0 <= i < n :: procs.halted(m.world, i))
      ensures Ran(C(), old(m), maxSteps, turns, m, r)
    {
      hide Valid, Accounted, Phase, Stuck, MaybeSync, LinesRight, Jumps, StopsAtDeadline, Eligible, ActiveCpus,
        RunnableCpus, Active, Runnable, AllHaltedIn, Idle, FastForward, OnlyReady, NoneReady, Stayed, GoingOn, IsOver, Ran,
        ReadyRan, Sync, Looked, Saw;
      var remaining := maxSteps;
      turns := [];
      ghost var quit := false;
      NoTurns(C(), m, maxSteps);
      ghost var jumpsLeft := 2;
      Unaccounted(m);
      AnyPhase(m);
      while remaining > 0 && !m.stop
        invariant Valid(C(), m) && Accounted(old(m), m) && Phase(m, jumpsLeft)
        invariant m.cpuSteps - old(m).cpuSteps == maxSteps - remaining && 0 <= remaining <= maxSteps
        invariant GoingOn(C(), old(m), maxSteps, turns, m, remaining) && !quit
        decreases remaining, jumpsLeft
      {
        ghost var top := m;
        Top();
        AccountedTwice(old(m), top, m);
        var dispatch := InspectCpuDispatchState();
        ghost var seen := m;
        SawNobody(dispatch, m);
        var runnable, pollWaiters := dispatch.runnable, false;
        if runnable == 0 {
          ghost var before := m;
          if dispatch.allHalted {
            RequestStop();
            AccountedTwice(old(m), before, m);
            turns := QuitIsTurn(C(), old(m), maxSteps, turns, top, remaining, seen, m);
            quit := true;
            break;
          }
          NobodyReadyIsIdle(C(), m);
          var moved, left, hopeless := Jump(top, jumpsLeft);
          AccountedTwice(old(m), before, m);
          if moved { turns := LeapIsTurn(C(), old(m), maxSteps, turns, top, remaining, seen, m); }
          if hopeless { return Stalled, turns; }
          if moved {
            jumpsLeft := left;
            continue;
          }
          runnable, pollWaiters := dispatch.active, true;
        }
        if runnable == 0 {
          turns := QuitIsTurn(C(), old(m), maxSteps, turns, top, remaining, seen, m);
          quit := true;
          break;
        }
        ghost var before := m;
        var exit, total;
        ghost var log;
        exit, total, log := RunReady(dispatch, pollWaiters, remaining, seen);
        AccountedTwice(old(m), before, m);
        turns := RunIsTurn(C(), old(m), maxSteps, turns, top, remaining, seen, log, m, exit);
        if exit.Some? { return Finished(exit.value), turns; }
        remaining := remaining - total;
        jumpsLeft := 2;
        AnyPhase(m);
      }
      ghost var before := m;
      Bottom();
      AccountedTwice(old(m), before, m);
      var allHalted := forall i | 0 <= i < n :: procs.halted(m.world, i);
      if !quit { LoopEnds(C(), old(m), maxSteps, turns, before, remaining); }
      RunIsOver(C(), old(m), maxSteps, turns, before, remaining, m, allHalted || remaining == 0 || m.stop);
      r := Finished(allHalted || remaining == 0 || m.stop);
    }

    /** Run for at most maxSteps processor steps. */
    method Run(maxSteps: nat) returns (r: RunResult, ghost turns: seq<Turn<W>>)
      requires Valid(C(), m)
      modifies this
      ensures Valid(C(), m) && Accounted(old(m), m)
      ensures m.cpuSteps - old(m).cpuSteps <= maxSteps
      ensures n == 1 ==> m.beats - old(m).beats == m.cpuSteps - old(m).cpuSteps
      ensures r == Stalled ==> Stuck(C(), m) && !m.stop && m.cpuSteps - old(m).cpuSteps < maxSteps
      ensures r == Finished(true) && !m.stop ==>
                && LinesRight(C(), m)
                && (m.cpuSteps - old(m).cpuSteps == maxSteps || forall i | 0 <= i < n :: procs.halted(m.world, i))
      ensures Ran(C(), old(m), maxSteps, turns, m, r)
    {
      if n == 1 {
        r, turns := RunSingle(maxSteps);
      } else {
        r, turns := RunShared(maxSteps);
      }
    }
  }

  /** Drive one private line unless its level is remembered to be there already. */
  method DrivePrivate(g: G.Gic, cpu: nat, intid: nat, level: bool, valid: bool, remembered: bool) returns (h: G.Gic)
    requires G.Wf(g) && cpu < |g.locals| && (intid == TIMER_VIRT || intid == TIMER_PHYS)
    requires valid ==> PrivateLevel(ViewOf(g), cpu, intid) == remembered
    ensures h == G.SetLevel(g, cpu, intid, level)
  {
    h := g;
    DrivesPrivate(g, cpu, intid, level);
    if !valid || level != remembered {
      h := G.SetLevel(g, cpu, intid, level);
    }
  }

  /** Drive one shared line unless its level is remembered to be there already. */
  method DriveShared(g: G.Gic, intid: nat, level: bool, valid: bool, remembered: bool) returns (h: G.Gic)
    requires G.Wf(g) && UART_INTID <= intid <= NET_INTID
    requires valid ==> SharedLevel(ViewOf(g), intid) == remembered
    ensures h == G.SetLevel(g, 0, intid, level)
  {
    h := g;
    DrivesShared(g, intid, level);
    if !valid || level != remembered {
      h := G.SetLevel(g, 0, intid, level);
    }
  }

  /** Show the timer's outputs on one CPU's private lines. */
  method SyncOneCpu(g: G.Gic, tm: Timer, cpu: nat, valid: bool, virt: bool, phys: bool, ghost v: LineView) returns (h: G.Gic)
    requires G.Wf(g) && cpu < |tm.cpus| == |g.locals| == |v.virt| == |v.phys|
    requires v.virt[cpu] == (tm.mmioPending || tm.cpus[cpu].cntv.irqPending) && v.phys[cpu] == tm.cpus[cpu].cntp.irqPending
    requires valid ==> ViewOf(g).virt[cpu] == virt && ViewOf(g).phys[cpu] == phys
    ensures h == G.SetLevel(G.SetLevel(g, cpu, TIMER_VIRT, v.virt[cpu]), cpu, TIMER_PHYS, v.phys[cpu])
  {
    hide ViewOf, G.SetLevel, G.Wf;
    var virtLevel := tm.mmioPending || tm.cpus[cpu].cntv.irqPending;
    DrivesPrivate(g, cpu, TIMER_VIRT, virtLevel);
    h := DrivePrivate(g, cpu, TIMER_VIRT, virtLevel, valid, virt);
    var physLevel := tm.cpus[cpu].cntp.irqPending;
    h := DrivePrivate(h, cpu, TIMER_PHYS, physLevel, valid, phys);
  }

  lemma ShownSoFar(g: G.Gic, v: LineView, cpu: nat)
    requires G.Wf(g) && cpu < |g.locals| == |v.virt| == |v.phys|
    ensures var h := ShowPrivate(g, v, cpu);
            ViewOf(h).virt[cpu] == ViewOf(g).virt[cpu] && ViewOf(h).phys[cpu] == ViewOf(g).phys[cpu]
  {
    ShowPrivateView(g, v, cpu);
    MixStep(v.virt, ViewOf(g).virt, cpu);
    MixStep(v.phys, ViewOf(g).phys, cpu);
  }

  /** Show the timer's outputs on every CPU's private lines. */
  method SyncCpuLines(g: G.Gic, tm: Timer, valid: bool, virt0: seq<bool>, phys0: seq<bool>, levels: Levels)
    returns (h: G.Gic, virt: seq<bool>, phys: seq<bool>)
    requires G.Wf(g) && |tm.cpus| == |g.locals| == |virt0| == |phys0|
    requires valid ==> ViewOf(g).virt == virt0 && ViewOf(g).phys == phys0
    ensures var v := DeviceView(tm, levels);
            h == ShowPrivate(g, v, |g.locals|) && virt == v.virt && phys == v.phys
  {
    hide ViewOf, G.SetLevel, G.Wf, Mix;
    ghost var v := DeviceView(tm, levels);
    h, virt, phys := g, virt0, phys0;
    MixEnds(v.virt, virt0, 0);
    MixEnds(v.phys, phys0, 0);
    var cpu := 0;
    while cpu < |tm.cpus|
      invariant 0 <= cpu <= |tm.cpus| == |h.locals| && G.Wf(h)
      invariant h == ShowPrivate(g, v, cpu)
      invariant virt == Mix(v.virt, virt0, cpu) && phys == Mix(v.phys, phys0, cpu)
    {
      ShownSoFar(g, v, cpu);
      MixStep(v.virt, virt0, cpu);
      MixStep(v.phys, phys0, cpu);
      h := SyncOneCpu(h, tm, cpu, valid, virt[cpu], phys[cpu], v);
      virt := virt[cpu := tm.mmioPending || tm.cpus[cpu].cntv.irqPending];
      phys := phys[cpu := tm.cpus[cpu].cntp.irqPending];
      cpu := cpu + 1;
    }
    MixEnds(v.virt, virt0, cpu);
    MixEnds(v.phys, phys0, cpu);
  }

  /** Show the outputs of the other devices on the shared lines. */
  method SyncSharedLines(g: G.Gic, levels: Levels, valid: bool, last: Levels) returns (h: G.Gic)
    requires G.Wf(g)
    requires valid ==> ViewOf(g).shared == last
    ensures h == ShowShared(g, levels)
  {
    hide ViewOf, G.SetLevel, G.Wf;
    h := g;
    DrivesShared(h, UART_INTID, levels.uart);
    h := DriveShared(h, UART_INTID, levels.uart, valid, last.uart);
    DrivesShared(h, KMI_INTID, levels.kmi);
    h := DriveShared(h, KMI_INTID, levels.kmi, valid, last.kmi);
    DrivesShared(h, BLK_INTID, levels.blk);
    h := DriveShared(h, BLK_INTID, levels.blk, valid, last.blk);
    h := DriveShared(h, NET_INTID, levels.net, valid, last.net);
  }
}
