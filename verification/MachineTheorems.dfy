/** The interplay of synchronising, jumping and stepping: why the run loop makes progress, and where it cannot. */
module MachineTheorems {
  import opened Words
  import opened TimerSpec
  import TimerTheorems
  import opened SchedulerSpec
  import opened MachineSpec
  import G = GicSpec

  /** Nothing but the timer, the lines, the schedule and the time may differ. */
  ghost predicate OnlyDevicesMoved<W>(m: Machine<W>, m': Machine<W>) {
    && m'.world == m.world && m'.globalSteps == m.globalSteps && m'.stop == m.stop && m'.wokeWaiter == m.wokeWaiter
    && m'.cpuSteps == m.cpuSteps && m'.beats == m.beats && m'.timer.mode == m.timer.mode
  }

  /** The devices were synchronised at this very tick and nothing happened since. */
  ghost predicate Fresh<W>(m: Machine<W>) {
    m.syncValid && !m.schedDirty && SyncedAt(m.timer, Now(m))
  }

  /** The loop has nobody to run: the condition under which it tries to jump. */
  ghost predicate Idle<W>(c: Config<W>, m: Machine<W>) {
    IdleIn(c, m.world, m.gic)
  }

  ghost predicate IdleIn<W>(c: Config<W>, w: W, g: G.Gic) {
    if c.n == 1 then !c.procs.ready(w, g, 0)
    else
      && !AllHaltedIn(c, w)
      && forall i | 0 <= i < c.n :: c.procs.powered(w, i) && !c.procs.halted(w, i) ==> !c.procs.ready(w, g, i)
  }

  predicate AllHaltedIn<W>(c: Config<W>, w: W) {
    && (exists i | 0 <= i < c.n :: c.procs.powered(w, i))
    && (forall i | 0 <= i < c.n :: c.procs.powered(w, i) ==> c.procs.halted(w, i))
  }

  // ----- synchronising when needed -----

  lemma NextEventFrame<W(!new)>(c: Config<W>, m: Machine<W>)
    requires Valid(c, m)
    ensures var m' := NextEvent(m);
            && m' == m.(schedValid := true, schedDirty := false, event := m'.event,
                        scheduledAt := m'.scheduledAt, trusted := m'.trusted)
            && Valid(c, m') && (m.trusted ==> m'.trusted)
  {
    NextEventIsRight(c, m);
  }

  lemma SyncFrame<W(!new)>(c: Config<W>, m: Machine<W>)
    requires Valid(c, m)
    ensures var m' := Sync(c, m);
            && OnlyDevicesMoved(m, m') && m'.fp == m.fp && m'.jumped == m.jumped
            && Valid(c, m') && m'.syncValid && !m'.schedValid && !m'.schedDirty && m'.trusted
            && LinesRight(c, m')
            && (m.timer.mode == GuestStep ==> Fresh(m'))
            && (m.syncValid && SyncedAt(m.timer, Now(m)) ==> m'.timer == m.timer && m'.gic == m.gic)
  {
    SyncShowsDevices(c, m);
    if m.syncValid && SyncedAt(m.timer, Now(m)) { SyncTwiceIsOnce(c, m); }
    SyncKeepsShape(m.timer, Now(m), c.hostClock(m.hostReads));
  }

  /** Bookkeeping both NextEvent and Sync leave alone, and what they never lose. */
  ghost predicate Settles<W>(m: Machine<W>, m': Machine<W>) {
    && OnlyDevicesMoved(m, m') && m'.fp == m.fp && m'.jumped == m.jumped
    && (m.trusted ==> m'.trusted)
    && (m.syncValid && SyncedAt(m.timer, Now(m)) ==> m'.timer == m.timer && m'.gic == m.gic && m'.syncValid)
  }

  lemma NextEventSettles<W(!new)>(c: Config<W>, m: Machine<W>)
    requires Valid(c, m)
    ensures var m' := NextEvent(m);
            Valid(c, m') && Settles(m, m') && m'.syncValid == m.syncValid && !m'.schedDirty
  {
    NextEventFrame(c, m);
  }

  lemma SyncSettles<W(!new)>(c: Config<W>, m: Machine<W>)
    requires Valid(c, m)
    ensures var m' := Sync(c, m); Valid(c, m') && Settles(m, m') && m'.syncValid && !m'.schedDirty
  {
    SyncFrame(c, m);
  }

  lemma SettlesTwice<W>(m: Machine<W>, m1: Machine<W>, m2: Machine<W>)
    requires Settles(m, m1) && Settles(m1, m2)
    ensures Settles(m, m2)
  {
  }

  lemma SyncUnlessSettles<W(!new)>(c: Config<W>, m: Machine<W>, needed: bool)
    requires Valid(c, m)
    ensures var m' := SyncUnless(c, m, needed); Valid(c, m') && Settles(m, m') && m'.syncValid && !m'.schedDirty
  {
    if !needed || !m.syncValid || m.schedDirty {
      SyncSettles(c, m);
    } else {
      var m2 := NextEvent(m);
      NextEventSettles(c, m);
      if m2.event.Some? && m2.event.value <= Now(m2) {
        SyncSettles(c, m2);
        SettlesTwice(m, m2, Sync(c, m2));
      }
    }
  }

  /** At the top of the loop the devices end up synchronised. At a freshly synchronised tick nothing moves. */
  lemma MaybeSyncSettles<W(!new)>(c: Config<W>, m: Machine<W>)
    requires Valid(c, m)
    ensures var m' := MaybeSync(c, m); Valid(c, m') && Settles(m, m') && m'.syncValid && !m'.schedDirty
  {
    if m.timer.mode == HostMonotonic || c.legacy {
      SyncSettles(c, m);
    } else {
      var m1 := AfterWindowNeeded(c, m);
      if LooksAtSchedule(c, m) { NextEventSettles(c, m); }
      SyncUnlessSettles(c, m1, WindowNeeded(c, m));
      SettlesTwice(m, m1, SyncUnless(c, m1, WindowNeeded(c, m)));
    }
  }

  // ----- jumping -----

  lemma JumpLandsBetween<W>(m: Machine<W>, d: int)
    requires m.fp % FRAC_ONE == 0 && d > Now(m)
    ensures var m' := JumpTo(m, d);
            && m'.fp % FRAC_ONE == 0 && Now(m) <= Now(m') <= d
            && (Now(m') == d <==> d < TWO48)
            && (JumpTarget(d) <= m.fp ==> m'.fp == m.fp)
            && (JumpTarget(d) <= m'.fp)
  {
    JumpTargetOf(d);
  }

  /** A jump taken on a sound schedule keeps the deadline where it is. It lands on the deadline exactly when
      the deadline fits into 48 bits, and then the event is due now. */
  lemma FastForwardLands<W(!new)>(c: Config<W>, m: Machine<W>)
    requires Valid(c, m) && Jumps(c, m)
    ensures var m' := FastForward(c, m);
            var d := NextEvent(m).event.value;
            && Valid(c, m') && OnlyDevicesMoved(m, m') && Fresh(m') && m'.trusted && LinesRight(c, m')
            && !m'.schedValid
            && Now(m) <= Now(m') <= d && (Now(m') == d <==> d < TWO48)
            && m'.jumped == m.jumped + (Now(m') - Now(m))
            && JumpTarget(d) <= m'.fp && (JumpTarget(d) <= m.fp ==> m'.fp == m.fp)
            && (NextEvent(m).trusted ==> Deadline(m.timer, Now(m)) == Some(d) == Deadline(m'.timer, Now(m')))
  {
    NextEventIsRight(c, m);
    NextEventFrame(c, m);
    var m1 := NextEvent(m);
    JumpLandsBetween(m1, m1.event.value);
    JumpedIsValid(c, m1);
    SyncFrame(c, Jumped(m1).(schedValid := false));
    SyncIgnoresSchedule(c, Jumped(m1), Jumped(m1).(schedValid := false));
    if m1.trusted { DeadlineKept(m.timer, Now(m), Now(Jumped(m1)), c.hostClock(m.hostReads)); }
  }

  lemma JumpedIsValid<W(!new)>(c: Config<W>, m: Machine<W>)
    requires Valid(c, m) && m.event.Some? && m.event.value > Now(m)
    ensures Valid(c, Jumped(m).(schedValid := false))
  {
    JumpLandsBetween(m, m.event.value);
  }

  lemma SyncIgnoresSchedule<W>(c: Config<W>, m: Machine<W>, m': Machine<W>)
    requires Shaped(c, m) && m' == m.(schedValid := false)
    ensures Sync(c, m) == Sync(c, m')
  {
  }

  lemma FastForwardTimer<W(!new)>(c: Config<W>, m: Machine<W>)
    requires Valid(c, m) && Jumps(c, m)
    ensures FastForward(c, m).timer == SyncTo(m.timer, Now(FastForward(c, m)), c.hostClock(m.hostReads))
  {
    NextEventFrame(c, m);
  }

  /** The jump leaves the timer exactly as synchronising at every skipped tick in turn would have. */
  lemma FastForwardEqualsTicking<W(!new)>(c: Config<W>, m: Machine<W>)
    requires Valid(c, m) && Jumps(c, m) && NextEvent(m).trusted && NextEvent(m).event.value < TWO48
    ensures var d := NextEvent(m).event.value;
            var host := c.hostClock(m.hostReads);
            FastForward(c, m).timer == SyncTo(TimerTheorems.SyncEach(m.timer, Now(m), d, host), d, host)
  {
    FastForwardLands(c, m);
    FastForwardTimer(c, m);
    JumpEqualsTickingToDeadline(m.timer, Now(m), NextEvent(m).event.value, c.hostClock(m.hostReads));
  }

  lemma JumpEqualsTickingToDeadline(tm: Timer, now: u64, d: u64, host: u64)
    requires tm.mode == GuestStep && |tm.cpus| > 0 && now < TWO48 && Deadline(tm, now) == Some(d as int)
    ensures SyncTo(TimerTheorems.SyncEach(tm, now, d, host), d, host) == SyncTo(tm, d, host)
  {
    TimerTheorems.JumpEqualsTicking(tm, now, NO_DEADLINE, host);
  }

  // ----- where the loop cannot make progress -----

  /** The cached event, if there is one, is the deadline as of now. */
  ghost predicate Exact<W>(m: Machine<W>) {
    m.schedValid ==> m.event == Deadline(m.timer, Now(m))
  }

  lemma NextEventExact<W>(m: Machine<W>)
    requires Exact(m) && !m.schedDirty && m.timer.mode == GuestStep
    ensures NextEvent(m).event == Deadline(m.timer, Now(m)) && Exact(NextEvent(m)) && NextEvent(m).timer == m.timer
    ensures NextEvent(m).fp == m.fp && !NextEvent(m).schedDirty && NextEvent(m).syncValid == m.syncValid
  {
  }

  lemma SyncExact<W>(c: Config<W>, m: Machine<W>)
    requires Shaped(c, m)
    ensures Exact(Sync(c, m))
  {
  }

  lemma SyncUnlessExact<W(!new)>(c: Config<W>, m: Machine<W>, needed: bool)
    requires Shaped(c, m) && Exact(m) && m.timer.mode == GuestStep
    ensures Exact(SyncUnless(c, m, needed))
  {
    if !needed || !m.syncValid || m.schedDirty {
      SyncExact(c, m);
    } else {
      NextEventExact(m);
      if NextEvent(m).event.Some? && NextEvent(m).event.value <= Now(NextEvent(m)) { SyncExact(c, NextEvent(m)); }
    }
  }

  lemma MaybeSyncExact<W(!new)>(c: Config<W>, m: Machine<W>)
    requires Valid(c, m) && Exact(m) && Fresh(m)
    ensures Exact(MaybeSync(c, m))
  {
    if c.legacy {
      SyncExact(c, m);
    } else {
      NextEventExact(m);
      NextEventFrame(c, m);
      SyncUnlessExact(c, AfterWindowNeeded(c, m), WindowNeeded(c, m));
    }
  }

  /** Nobody can run, the devices are synchronised, and the next event lies ahead at a tick that the jump
      cannot reach because the fixed-point shift drops its high bits. */
  ghost predicate Stuck<W(!new)>(c: Config<W>, m: Machine<W>) {
    Valid(c, m) && Fresh(m) && m.trusted && Exact(m) && !c.legacy && Idle(c, m) && OutOfReach(m)
  }

  /** The deadline is ahead, but the jump towards it does not move time. */
  predicate OutOfReach<W>(m: Machine<W>) {
    var d := Deadline(m.timer, Now(m));
    d.Some? && d.value > Now(m) && JumpTarget(d.value) <= m.fp
  }

  /** Only deadlines of 2^48 ticks and more can be out of reach. */
  lemma OutOfReachIsFar<W>(m: Machine<W>)
    requires m.fp % FRAC_ONE == 0 && OutOfReach(m)
    ensures Deadline(m.timer, Now(m)).value >= TWO48
  {
    JumpLandsBetween(m, Deadline(m.timer, Now(m)).value);
  }

  /** After a jump on a sound schedule the event is still ahead exactly when the deadline was 2^48 or more, and
      then it is out of reach for good. */
  lemma FarJumpIsOutOfReach<W(!new)>(c: Config<W>, m: Machine<W>)
    requires Valid(c, m) && Jumps(c, m) && NextEvent(m).trusted
    ensures OutOfReach(FastForward(c, m)) <==> NextEvent(m).event.value >= TWO48
  {
    FastForwardLands(c, m);
  }

  /** A jump on a sound schedule leaves the machine stuck for good exactly when its deadline was 2^48 or more and
      still nobody can run. */
  lemma StuckAfterJumpIff<W(!new)>(c: Config<W>, m: Machine<W>)
    requires Valid(c, m) && Jumps(c, m) && NextEvent(m).trusted
    ensures Stuck(c, FastForward(c, m)) <==> NextEvent(m).event.value >= TWO48 && Idle(c, FastForward(c, m))
  {
    hide FastForward, OutOfReach, Valid, Fresh, NextEvent;
    FarJumpIsOutOfReach(c, m);
    FastForwardLands(c, m);
  }

  /** One turn of the loop that ends in a jump. */
  function Turn<W>(c: Config<W>, m: Machine<W>): (m': Machine<W>)
    requires Shaped(c, m) && Shaped(c, MaybeSync(c, m))
  {
    FastForward(c, MaybeSync(c, m))
  }

  lemma JumpOfFresh<W(!new)>(c: Config<W>, m: Machine<W>)
    requires Valid(c, m) && Jumps(c, m) && m.syncValid && SyncedAt(m.timer, Now(m))
    requires JumpTarget(NextEvent(m).event.value) <= m.fp
    ensures FastForward(c, m).timer == m.timer && FastForward(c, m).gic == m.gic
  {
    NextEventFrame(c, m);
    FastForwardLands(c, m);
    var m1 := NextEvent(m);
    var m2 := JumpTo(m1, m1.event.value);
    assert m2.fp == m.fp;
    SyncIsSyncedAt(m.timer, Now(m), c.hostClock(m.hostReads));
    ShowAllShows(m.gic, DeviceView(m.timer, c.procs.levels(m.world)));
  }

  /** From a stuck machine the loop jumps again, to the same tick, and is stuck in the same state. */
  lemma StuckStays<W(!new)>(c: Config<W>, m: Machine<W>)
    requires Stuck(c, m)
    ensures Valid(c, MaybeSync(c, m)) && Idle(c, MaybeSync(c, m)) && Jumps(c, MaybeSync(c, m))
    ensures Stuck(c, Turn(c, m)) && SameForTheGuest(m, Turn(c, m))
  {
    var m1 := MaybeSync(c, m);
    MaybeSyncSettles(c, m);
    MaybeSyncExact(c, m);
    NextEventExact(m1);
    JumpOfFresh(c, m1);
    FastForwardLands(c, m1);
    assert Idle(c, m1);
    assert Idle(c, FastForward(c, m1));
  }

  /** Nothing a guest or the caller could observe differs. */
  ghost predicate SameForTheGuest<W>(m: Machine<W>, m': Machine<W>) {
    OnlyDevicesMoved(m, m') && m'.timer == m.timer && m'.gic == m.gic && m'.fp == m.fp
  }

  /** The loop takes one turn that ends in a jump. */
  ghost predicate TurnsInto<W(!new)>(c: Config<W>, m: Machine<W>, m': Machine<W>) {
    Shaped(c, m) && Shaped(c, MaybeSync(c, m)) && Idle(c, MaybeSync(c, m)) && Jumps(c, MaybeSync(c, m)) && m' == Turn(c, m)
  }

  lemma StuckTurns<W(!new)>(c: Config<W>, m: Machine<W>) returns (m': Machine<W>)
    requires Stuck(c, m)
    ensures TurnsInto(c, m, m') && Stuck(c, m') && SameForTheGuest(m, m')
  {
    StuckStays(c, m);
    m' := Turn(c, m);
  }

  /** A stuck machine stays stuck: however many turns the loop takes, each one jumps, no processor is ever
      stepped and nothing changes, so the call does not return. */
  lemma {:induction false} StuckForever<W(!new)>(c: Config<W>, m: Machine<W>, k: nat) returns (ms: seq<Machine<W>>)
    requires Stuck(c, m)
    ensures |ms| == k + 1 && ms[0] == m
    ensures forall i | 0 <= i < k :: TurnsInto(c, ms[i], ms[i + 1])
    ensures forall i | 0 <= i <= k :: SameForTheGuest(m, ms[i])
    decreases k
  {
    if k == 0 {
      ms := [m];
    } else {
      var m' := StuckTurns(c, m);
      var rest := StuckForever(c, m', k - 1);
      ms := [m] + rest;
      forall i | 0 <= i <= k ensures SameForTheGuest(m, ms[i]) {
        if i > 0 {
          assert ms[i] == rest[i - 1];
          assert SameForTheGuest(m', rest[i - 1]);
        }
      }
    }
  }

  // ----- windows -----

  const HOST_CHUNK: int := 2048
  const LEGACY_CHUNK: int := 65536

  /** The event the window looks at, if it looks at one. */
  function AfterWindow<W>(c: Config<W>, m: Machine<W>, sensitive: bool): Machine<W> {
    if m.timer.mode == HostMonotonic || c.legacy || !sensitive then m else NextEvent(m)
  }

  function Window<W>(c: Config<W>, m: Machine<W>, budget: nat, divisor: nat, sensitive: bool): (w: nat)
    requires divisor > 0
    ensures w >= 1
  {
    var chunk := Max(1, (budget + divisor - 1) / divisor);
    if m.timer.mode == HostMonotonic then Max(1, Min(chunk, HOST_CHUNK))
    else if c.legacy then Max(1, Min(chunk, LEGACY_CHUNK))
    else if !sensitive then chunk
    else
      match NextEvent(m).event
      case None => chunk
      case Some(d) => if d <= Now(m) then 1 else Max(1, Min(chunk, d - Now(m)))
  }

  lemma AfterWindowSettles<W(!new)>(c: Config<W>, m: Machine<W>, sensitive: bool)
    requires Valid(c, m)
    ensures var m' := AfterWindow(c, m, sensitive);
            Valid(c, m') && Settles(m, m') && m'.syncValid == m.syncValid && (!m.schedDirty ==> !m'.schedDirty)
  {
    NextEventSettles(c, m);
  }

  /** A window for one processor never exceeds the budget, and a deadline-sensitive window stops at the deadline. */
  lemma WindowBounds<W(!new)>(c: Config<W>, m: Machine<W>, budget: nat, divisor: nat, sensitive: bool)
    requires Valid(c, m) && divisor > 0 && budget > 0
    ensures divisor == 1 ==> Window(c, m, budget, divisor, sensitive) <= budget
    ensures sensitive && !c.legacy && NextEvent(m).trusted && NextEvent(m).event.Some? && NextEvent(m).event.value > Now(m) ==>
              Deadline(m.timer, Now(m)) == NextEvent(m).event
              && Window(c, m, budget, divisor, sensitive) <= NextEvent(m).event.value - Now(m)
  {
    NextEventIsRight(c, m);
  }

  // ----- why the loop makes progress -----

  /** How many jumps in a row may still follow, and why: 1 after any jump, since the schedule was recomputed;
      0 once the event is due or out of reach. */
  ghost predicate Phase<W>(m: Machine<W>, jumpsLeft: nat) {
    && jumpsLeft <= 2
    && (jumpsLeft <= 1 ==> m.trusted)
    && (jumpsLeft == 0 ==> Fresh(m) && NothingAhead(m))
  }

  lemma AnyPhase<W>(m: Machine<W>)
    ensures Phase(m, 2)
  {
  }

  predicate NothingAhead<W>(m: Machine<W>) {
    var d := Deadline(m.timer, Now(m));
    d.None? || d.value <= Now(m) || JumpTarget(d.value) <= m.fp
  }

  /** A turn of the loop that jumps either uses up a jump or ends stuck: two jumps on a sound schedule cannot
      follow each other without a processor step. */
  lemma JumpUsesUpPhase<W(!new)>(c: Config<W>, m: Machine<W>, jumpsLeft: nat)
    requires Valid(c, m) && Phase(m, jumpsLeft)
    requires Valid(c, MaybeSync(c, m)) && Jumps(c, MaybeSync(c, m)) && Idle(c, MaybeSync(c, m))
    ensures var m' := FastForward(c, MaybeSync(c, m));
            && Valid(c, m')
            && (OutOfReach(m') && Idle(c, m') ==> Stuck(c, m'))
            && (!(OutOfReach(m') && Idle(c, m')) ==> jumpsLeft > 0 && Phase(m', jumpsLeft - 1))
  {
    var m1 := MaybeSync(c, m);
    MaybeSyncSettles(c, m);
    JumpLowersPhase(c, m1, jumpsLeft);
    if jumpsLeft == 0 { LastJumpIsStuck(c, m1); }
  }

  lemma JumpLowersPhase<W(!new)>(c: Config<W>, m: Machine<W>, jumpsLeft: nat)
    requires Valid(c, m) && Jumps(c, m) && jumpsLeft <= 2 && (jumpsLeft <= 1 ==> m.trusted)
    ensures var m' := FastForward(c, m);
            && Valid(c, m') && Fresh(m') && m'.trusted && Exact(m') && !c.legacy
            && (jumpsLeft > 0 ==> Phase(m', jumpsLeft - 1))
  {
    FastForwardLands(c, m);
    NextEventIsRight(c, m);
  }

  lemma LastJumpIsStuck<W(!new)>(c: Config<W>, m: Machine<W>)
    requires Valid(c, m) && Jumps(c, m) && Idle(c, m) && m.trusted
    requires m.syncValid && SyncedAt(m.timer, Now(m)) && NothingAhead(m)
    ensures OutOfReach(FastForward(c, m)) && Idle(c, FastForward(c, m))
  {
    NextEventIsRight(c, m);
    FastForwardLands(c, m);
    JumpOfFresh(c, m);
  }

  // ----- accounting -----

  /** Every processor step is counted once, and guest time has moved by the ticks of execution and the ticks
      jumped over, modulo its 48 bits. */
  ghost predicate Accounted<W>(m: Machine<W>, m': Machine<W>) {
    && m.cpuSteps <= m'.cpuSteps && m'.cpuSteps - m.cpuSteps == m'.globalSteps - m.globalSteps
    && m.beats <= m'.beats && m'.beats - m.beats <= m'.cpuSteps - m.cpuSteps
    && m.jumped <= m'.jumped
    && Now(m') == (Now(m) + (m'.beats - m.beats) + (m'.jumped - m.jumped)) % TWO48
    && m'.timer.mode == m.timer.mode
  }

  lemma AccountedTwice<W>(m: Machine<W>, m1: Machine<W>, m2: Machine<W>)
    requires Accounted(m, m1) && Accounted(m1, m2)
    ensures Accounted(m, m2)
  {
    ModAdd(Now(m) + (m1.beats - m.beats) + (m1.jumped - m.jumped), (m2.beats - m1.beats) + (m2.jumped - m1.jumped), TWO48);
  }

  lemma SettlesAccounted<W>(m: Machine<W>, m': Machine<W>)
    requires Settles(m, m')
    ensures Accounted(m, m') && m'.cpuSteps == m.cpuSteps && m'.beats == m.beats && m'.jumped == m.jumped
  {
  }

  lemma JumpAccounted<W(!new)>(c: Config<W>, m: Machine<W>)
    requires Valid(c, m) && Jumps(c, m)
    ensures var m' := FastForward(c, m);
            Valid(c, m') && Accounted(m, m') && m'.cpuSteps == m.cpuSteps && m'.beats == m.beats
            && m'.stop == m.stop && m'.world == m.world
  {
    FastForwardLands(c, m);
    MovedIsAccounted(m, FastForward(c, m));
  }

  lemma MovedIsAccounted<W>(m: Machine<W>, m': Machine<W>)
    requires OnlyDevicesMoved(m, m') && Now(m) <= Now(m') && m'.jumped == m.jumped + (Now(m') - Now(m))
    ensures Accounted(m, m')
  {
    QuotientUnique(Now(m'), TWO48, 0, Now(m'));
  }

  lemma NoJumpSettles<W(!new)>(c: Config<W>, m: Machine<W>)
    requires Valid(c, m) && !Jumps(c, m)
    ensures var m' := FastForward(c, m);
            && Valid(c, m') && Settles(m, m') && m'.gic == m.gic && m'.timer == m.timer && m'.world == m.world
            && m'.stop == m.stop && m'.syncValid == m.syncValid && (!m.schedDirty ==> !m'.schedDirty)
  {
    NextEventSettles(c, m);
    NextEventFrame(c, m);
  }

  lemma StepAccounted<W(!new)>(c: Config<W>, m: Machine<W>, i: nat)
    requires Valid(c, m)
    ensures var m' := Counted(StepCpu(c, m, i));
            && Valid(c, m') && Accounted(m, m') && m'.cpuSteps == m.cpuSteps + 1 && m'.beats == m.beats
            && m'.jumped == m.jumped && m'.fp == m.fp && (m.stop ==> m'.stop)
  {
    StepCpuKeepsValid(c, m, i);
  }

  lemma TickAccounted<W(!new)>(c: Config<W>, m: Machine<W>, k: nat)
    requires Valid(c, m) && k > 0
    ensures var m' := Ticked(AdvanceTime(m, k, k));
            Valid(c, m') && Now(m') == (Now(m) + 1) % TWO48
  {
    AdvanceTimeKeepsValid(c, m, k);
  }

  lemma BeatIsOneTick<W(!new)>(c: Config<W>, m: Machine<W>, i: nat)
    requires Valid(c, m)
    ensures var m' := Beat(c, m, i);
            && Valid(c, m') && Accounted(m, m')
            && m'.cpuSteps == m.cpuSteps + 1 && m'.beats == m.beats + 1 && m'.jumped == m.jumped
            && (m.stop ==> m'.stop)
  {
    StepAccounted(c, m, i);
    TickAccounted(c, Counted(StepCpu(c, m, i)), 1);
  }

  lemma OtherFieldsAccounted<W(!new)>(c: Config<W>, m: Machine<W>, m': Machine<W>)
    requires Valid(c, m) && m' == m.(stop := m'.stop, wokeWaiter := m'.wokeWaiter)
    ensures Valid(c, m') && Accounted(m, m')
  {
  }

  lemma Unaccounted<W>(m: Machine<W>)
    ensures Accounted(m, m)
  {
  }

  /** A stretch of execution does not run past the deadline that was ahead when it began. */
  ghost predicate StopsAtDeadline<W>(c: Config<W>, m: Machine<W>, m': Machine<W>) {
    var e := NextEvent(m);
    !c.legacy && e.trusted && e.event.Some? && e.event.value > Now(m)
    ==> Deadline(m.timer, Now(m)) == e.event && Now(m') <= e.event.value
  }

  /** A deadline-sensitive stretch of no more ticks than its window stops at the deadline. */
  lemma WindowStopsAtDeadline<W(!new)>(c: Config<W>, m: Machine<W>, budget: nat, divisor: nat, m': Machine<W>)
    requires Valid(c, m) && divisor > 0 && budget > 0
    requires Accounted(m, m') && m'.jumped == m.jumped && m'.beats - m.beats <= Window(c, m, budget, divisor, true)
    ensures StopsAtDeadline(c, m, m')
  {
    NextEventIsRight(c, m);
    var e := NextEvent(m);
    if !c.legacy && e.trusted && e.event.Some? && e.event.value > Now(m) {
      ModAtMost(Now(m) + (m'.beats - m.beats), TWO48);
    }
  }

  lemma ModAtMost(a: nat, b: nat)
    requires b > 0
    ensures a % b <= a
  {
  }

  /** Looking at the schedule once more makes no difference to where execution must stop. */
  lemma LookingTwice<W(!new)>(c: Config<W>, m: Machine<W>, m1: Machine<W>, m': Machine<W>)
    requires Valid(c, m) && (m1 == m || m1 == NextEvent(m)) && StopsAtDeadline(c, m1, m')
    ensures StopsAtDeadline(c, m, m')
  {
    NextEventFrame(c, m);
    NextEventIsRight(c, m);
  }

  /** May processor i be stepped in a round? */
  predicate Eligible<W>(c: Config<W>, m: Machine<W>, pollWaiters: bool, i: nat) {
    Active(c, m, i) && (pollWaiters || c.procs.ready(m.world, m.gic, i))
  }

  lemma SettlesKeepsStop<W>(m: Machine<W>, m': Machine<W>)
    requires Settles(m, m')
    ensures m'.stop == m.stop && m'.world == m.world
  {
  }

  lemma SettlesOnce<W>(m: Machine<W>)
    ensures Settles(m, m)
  {
  }

  lemma AfterWindowFrame<W(!new)>(c: Config<W>, m: Machine<W>, sensitive: bool)
    requires Valid(c, m)
    ensures var m' := AfterWindow(c, m, sensitive); m'.gic == m.gic && m'.world == m.world && m'.stop == m.stop
  {
  }

  /** A round in which k processors ran, followed by its tick. */
  lemma TickedRoundAccounted<W(!new)>(c: Config<W>, m: Machine<W>, m1: Machine<W>, k: nat)
    requires Valid(c, m1) && Accounted(m, m1) && m1.beats == m.beats && m1.jumped == m.jumped && m1.fp == m.fp
    requires 0 < k && m1.cpuSteps == m.cpuSteps + k
    ensures var m' := Ticked(AdvanceTime(m1, k, k));
            && Valid(c, m') && Accounted(m, m') && m'.cpuSteps == m1.cpuSteps && m'.beats == m.beats + 1
            && m'.jumped == m.jumped
  {
    TickAccounted(c, m1, k);
  }

  /** Whoever the dispatch saw, someone may be stepped. */
  lemma SomeoneEligible<W>(c: Config<W>, seen: Machine<W>, m: Machine<W>, pollWaiters: bool, first: nat)
    requires m.world == seen.world && m.gic == seen.gic
    requires if pollWaiters then exists i | 0 <= i < c.n :: Active(c, seen, i) else first < c.n && Runnable(c, seen, first)
    ensures exists i | 0 <= i < c.n :: Eligible(c, m, pollWaiters, i)
  {
    if pollWaiters {
      var i :| 0 <= i < c.n && Active(c, seen, i);
      assert Eligible(c, m, pollWaiters, i);
    } else {
      assert Eligible(c, m, pollWaiters, first);
    }
  }
}
