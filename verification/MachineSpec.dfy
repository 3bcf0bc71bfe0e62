/** The machine as a value: what each piece of the scheduler does to it, and the invariants it keeps. */
module MachineSpec {
  import opened Words
  import opened TimerSpec
  import opened SchedulerSpec
  import G = GicSpec
  import GicTheorems

  datatype Config<!W> = Config(procs: Processors<W>, n: nat, legacy: bool, hostClock: nat -> u64)

  /** The scheduler's fields. The last five are bookkeeping for the proofs: calls of a processor's step, whole
      ticks of execution, ticks jumped over, when the schedule was computed, and whether guest time has not
      wrapped since. */
  datatype Machine<!W> = Machine(
    timer: Timer,
    gic: G.Gic,
    hostReads: nat,
    world: W,
    globalSteps: nat,
    fp: u64,
    stop: bool,
    syncValid: bool,
    syncTicks: u64,
    schedValid: bool,
    schedDirty: bool,
    event: Option<int>,
    lastVirt: seq<bool>,
    lastPhys: seq<bool>,
    last: Levels,
    wokeWaiter: bool,
    cpuSteps: nat,
    beats: nat,
    jumped: nat,
    scheduledAt: nat,
    trusted: bool)

  function Now<W>(m: Machine<W>): (t: u64)
    ensures t < TWO48
  {
    m.fp / FRAC_ONE
  }

  // ----- invariants -----

  ghost predicate Shaped<W>(c: Config<W>, m: Machine<W>) {
    && G.Wf(m.gic)
    && c.n >= 1 && |m.timer.cpus| == |m.gic.locals| == |m.lastVirt| == |m.lastPhys| == c.n
  }

  /** The remembered levels are on the lines, and they are the devices' levels. */
  ghost predicate LastSound<W>(c: Config<W>, m: Machine<W>)
    requires G.Wf(m.gic)
  {
    ViewOf(m.gic) == LineView(m.lastVirt, m.lastPhys, m.last) == DeviceView(m.timer, c.procs.levels(m.world))
  }

  /** A valid cached event is what a fresh computation would give; a valid cached "none" was computed at a tick
      from which no interrupt is near. */
  ghost predicate ScheduleSound<W>(m: Machine<W>) {
    m.schedValid && !m.schedDirty && m.trusted ==>
      && m.scheduledAt <= Now(m)
      && match m.event
         case Some(d) => d >= Now(m) ==> Deadline(m.timer, Now(m)) == Some(d)
         case None => StepsUntilIrq(m.timer, m.scheduledAt, NO_DEADLINE) == NO_DEADLINE
  }

  ghost predicate Valid<W(!new)>(c: Config<W>, m: Machine<W>) {
    && Shaped(c, m)
    && Reporting(c.procs)
    && m.fp % FRAC_ONE == 0
    && m.scheduledAt < TWO48
    && (m.syncValid ==> LastSound(c, m))
    && ScheduleSound(m)
  }

  /** Every interrupt line carries its device's level. */
  ghost predicate LinesRight<W>(c: Config<W>, m: Machine<W>)
    requires G.Wf(m.gic)
  {
    ViewOf(m.gic) == DeviceView(m.timer, c.procs.levels(m.world))
  }

  /** What that means line by line: the memory-mapped timer raises the virtual timer's line on every CPU, each CPU's
      own channels their two lines, and the other devices one shared line each. */
  lemma LinesMean<W>(c: Config<W>, m: Machine<W>, i: nat)
    requires Shaped(c, m) && LinesRight(c, m) && i < c.n
    ensures var g, l := m.gic, c.procs.levels(m.world);
      && (G.At(g, i, 27).line <==> m.timer.mmioPending || m.timer.cpus[i].cntv.irqPending)
      && (G.At(g, i, 30).line <==> m.timer.cpus[i].cntp.irqPending)
      && G.At(g, i, 33).line == l.uart && G.At(g, i, 34).line == l.kmi
      && G.At(g, i, 35).line == l.blk && G.At(g, i, 36).line == l.net
  {
    hide DeviceView, ViewOf, G.At;
    LinesOf(m.gic, i);
    SharedOf(m.gic);
    SharedAnywhere(m.gic, i);
    DeviceLines(m.timer, c.procs.levels(m.world), i);
  }

  lemma SharedAnywhere(g: G.Gic, i: nat)
    requires G.Wf(g)
    ensures forall x: nat | 32 <= x < 1024 :: G.At(g, i, x) == G.At(g, 0, x)
  {
  }

  lemma DeviceLines(tm: Timer, l: Levels, i: nat)
    requires i < |tm.cpus|
    ensures var v := DeviceView(tm, l);
      && v.virt[i] == (tm.mmioPending || tm.cpus[i].cntv.irqPending) && v.phys[i] == tm.cpus[i].cntp.irqPending
      && v.shared == l
  {
  }

  // ----- guest time -----

  function Advanced(fp: u64, executed: nat, active: nat): u64 {
    if executed == 0 || active == 0 then fp
    else (fp + (executed / active) * FRAC_ONE + (executed % active) * FRAC_ONE / active) % TWO64
  }

  function AdvanceTime<W>(m: Machine<W>, executed: nat, active: nat): Machine<W> {
    var fp := Advanced(m.fp, executed, active);
    m.(fp := fp, trusted := m.trusted && fp >= m.fp)
  }

  function JumpTo<W>(m: Machine<W>, tick: int): Machine<W> {
    m.(fp := Max(m.fp, JumpTarget(tick)))
  }

  /** As many instructions as processors is one whole tick. */
  lemma AdvancedByOne(fp: u64, k: nat)
    requires k > 0 && fp % FRAC_ONE == 0
    ensures Advanced(fp, k, k) == (fp + FRAC_ONE) % TWO64
    ensures Advanced(fp, k, k) % FRAC_ONE == 0
    ensures Advanced(fp, k, k) / FRAC_ONE == (fp / FRAC_ONE + 1) % TWO48
  {
    QuotientUnique(k, k, 1, 0);
    QuotientUnique(0, k, 0, 0);
    assert Advanced(fp, k, k) == (fp + FRAC_ONE) % TWO64;
    hide Advanced;
    NextTick(fp);
  }

  lemma NextTick(fp: u64)
    requires fp % FRAC_ONE == 0
    ensures (fp + FRAC_ONE) % TWO64 % FRAC_ONE == 0
    ensures (fp + FRAC_ONE) % TWO64 / FRAC_ONE == (fp / FRAC_ONE + 1) % TWO48
  {
    var t := fp / FRAC_ONE;
    assert fp + FRAC_ONE == (t + 1) * FRAC_ONE;
  }

  /** A step of one processor, or a round of k processors, is exactly one tick, and keeps the invariants. */
  lemma AdvanceTimeKeepsValid<W(!new)>(c: Config<W>, m: Machine<W>, k: nat)
    requires Valid(c, m) && k > 0
    ensures var m' := AdvanceTime(m, k, k);
            Valid(c, m') && Now(m') == (Now(m) + 1) % TWO48 && (m'.trusted ==> m.trusted && Now(m') == Now(m) + 1)
  {
    var m' := AdvanceTime(m, k, k);
    AdvancedByOne(m.fp, k);
    if m'.schedValid && !m'.schedDirty && m'.trusted && m.event.Some? && m.event.value >= Now(m') {
      DeadlineKept(m.timer, Now(m), Now(m'), 0);
    }
  }

  // ----- the device schedule -----

  function Invalidate<W>(m: Machine<W>): Machine<W> {
    m.(syncValid := false, schedValid := false, schedDirty := true, event := None)
  }

  /** Bring the cached event up to date. */
  function NextEvent<W>(m: Machine<W>): Machine<W> {
    if m.timer.mode == HostMonotonic then
      m.(schedValid := true, schedDirty := false, event := None, scheduledAt := Now(m), trusted := true)
    else if m.schedValid && !m.schedDirty && (m.event.None? || m.event.value >= Now(m)) then m
    else
      m.(schedValid := true, schedDirty := false, event := Deadline(m.timer, Now(m)),
         scheduledAt := Now(m), trusted := true)
  }

  lemma NextEventIsRight<W(!new)>(c: Config<W>, m: Machine<W>)
    requires Valid(c, m)
    ensures var m' := NextEvent(m);
            && Valid(c, m')
            && (m.trusted || !m.schedValid || m.schedDirty ==> m'.trusted)
            && (m'.event.Some? ==> m'.event.value >= Now(m) && m.timer.mode == GuestStep)
            && (m'.trusted && m'.event.Some? ==> m'.event == Deadline(m.timer, Now(m)))
            && (m'.trusted && m'.event.None? ==>
                  m'.scheduledAt <= Now(m) && StepsUntilIrq(m.timer, m'.scheduledAt, NO_DEADLINE) == NO_DEADLINE)
  {
    if m.timer.mode == HostMonotonic { HostModeHasNoDeadline(m.timer, Now(m)); }
  }

  // ----- device synchronisation -----

  /** Remembered levels that are valid make driving a line that already shows its level unnecessary, so the
      result is the same whether or not they are consulted. */
  function Sync<W>(c: Config<W>, m: Machine<W>): (m': Machine<W>)
    requires Shaped(c, m)
  {
    var tm := SyncTo(m.timer, Now(m), c.hostClock(m.hostReads));
    var levels := c.procs.levels(m.world);
    var v := DeviceView(tm, levels);
    m.(timer := tm, hostReads := m.hostReads + 1, gic := ShowAll(m.gic, v, |m.gic.locals|),
       syncValid := true, syncTicks := Now(m), schedValid := false, schedDirty := false, event := None,
       lastVirt := v.virt, lastPhys := v.phys, last := levels, trusted := true)
  }

  /** Driving the private lines of the first k CPUs, virtual before physical. */
  function ShowPrivate(g: G.Gic, v: LineView, k: nat): (h: G.Gic)
    requires G.Wf(g) && k <= |v.virt| == |v.phys|
    ensures G.Wf(h) && |h.locals| == |g.locals|
  {
    if k == 0 then g
    else
      var h := ShowPrivate(g, v, k - 1);
      G.SetLevel(G.SetLevel(h, k - 1, TIMER_VIRT, v.virt[k - 1]), k - 1, TIMER_PHYS, v.phys[k - 1])
  }

  function ShowShared(g: G.Gic, l: Levels): (h: G.Gic)
    requires G.Wf(g)
    ensures G.Wf(h) && |h.locals| == |g.locals|
  {
    var g1 := G.SetLevel(g, 0, UART_INTID, l.uart);
    var g2 := G.SetLevel(g1, 0, KMI_INTID, l.kmi);
    var g3 := G.SetLevel(g2, 0, BLK_INTID, l.blk);
    G.SetLevel(g3, 0, NET_INTID, l.net)
  }

  function ShowAll(g: G.Gic, v: LineView, k: nat): (h: G.Gic)
    requires G.Wf(g) && k <= |v.virt| == |v.phys|
    ensures G.Wf(h) && |h.locals| == |g.locals|
  {
    ShowShared(ShowPrivate(g, v, k), v.shared)
  }

  /** The first k elements from v, the rest from w. */
  function Mix(v: seq<bool>, w: seq<bool>, k: nat): (r: seq<bool>)
    requires k <= |v| == |w|
    ensures |r| == |v|
  {
    v[..k] + w[k..]
  }

  lemma MixStep(v: seq<bool>, w: seq<bool>, k: nat)
    requires k < |v| == |w|
    ensures Mix(v, w, k)[k] == w[k] && Mix(v, w, k)[k := v[k]] == Mix(v, w, k + 1)
  {
  }

  lemma MixEnds(v: seq<bool>, w: seq<bool>, k: nat)
    requires k <= |v| == |w|
    ensures Mix(v, w, 0) == w && Mix(v, w, |v|) == v
    ensures v == w ==> Mix(v, w, k) == v
  {
  }

  lemma ShowOnePrivate(h: G.Gic, k: nat, virt: bool, phys: bool)
    requires G.Wf(h) && k < |h.locals|
    ensures var r := G.SetLevel(G.SetLevel(h, k, TIMER_VIRT, virt), k, TIMER_PHYS, phys);
            && ViewOf(r) == LineView(ViewOf(h).virt[k := virt], ViewOf(h).phys[k := phys], ViewOf(h).shared)
            && (ViewOf(h).virt[k] == virt && ViewOf(h).phys[k] == phys ==> r == h)
  {
    DrivesPrivate(h, k, TIMER_VIRT, virt);
    DrivesPrivate(G.SetLevel(h, k, TIMER_VIRT, virt), k, TIMER_PHYS, phys);
  }

  lemma {:induction false} ShowPrivateView(g: G.Gic, v: LineView, k: nat)
    requires G.Wf(g) && k <= |v.virt| == |v.phys| == |g.locals|
    ensures ViewOf(ShowPrivate(g, v, k))
            == LineView(Mix(v.virt, ViewOf(g).virt, k), Mix(v.phys, ViewOf(g).phys, k), ViewOf(g).shared)
    ensures ViewOf(g).virt == v.virt && ViewOf(g).phys == v.phys ==> ShowPrivate(g, v, k) == g
  {
    hide G.SetLevel, ViewOf, Mix, G.Wf;
    if k == 0 {
      MixEnds(v.virt, ViewOf(g).virt, 0);
      MixEnds(v.phys, ViewOf(g).phys, 0);
    } else {
      ShowPrivateView(g, v, k - 1);
      ShowOnePrivate(ShowPrivate(g, v, k - 1), k - 1, v.virt[k - 1], v.phys[k - 1]);
      MixStep(v.virt, ViewOf(g).virt, k - 1);
      MixStep(v.phys, ViewOf(g).phys, k - 1);
    }
  }

  lemma ShowSharedView(g: G.Gic, l: Levels)
    requires G.Wf(g)
    ensures ViewOf(ShowShared(g, l)) == ViewOf(g).(shared := l)
    ensures ViewOf(g).shared == l ==> ShowShared(g, l) == g
  {
    var g1 := G.SetLevel(g, 0, UART_INTID, l.uart);
    var g2 := G.SetLevel(g1, 0, KMI_INTID, l.kmi);
    var g3 := G.SetLevel(g2, 0, BLK_INTID, l.blk);
    DrivesShared(g, UART_INTID, l.uart);
    DrivesShared(g1, KMI_INTID, l.kmi);
    DrivesShared(g2, BLK_INTID, l.blk);
    DrivesShared(g3, NET_INTID, l.net);
  }

  /** Showing every output leaves exactly those outputs on the lines, and changes nothing if they are there. */
  lemma ShowAllShows(g: G.Gic, v: LineView)
    requires G.Wf(g) && |v.virt| == |v.phys| == |g.locals|
    ensures ViewOf(ShowAll(g, v, |g.locals|)) == v
    ensures ViewOf(g) == v ==> ShowAll(g, v, |g.locals|) == g
  {
    var h := ShowPrivate(g, v, |g.locals|);
    ShowPrivateView(g, v, |g.locals|);
    ShowSharedView(h, v.shared);
    MixEnds(v.virt, ViewOf(g).virt, |g.locals|);
    MixEnds(v.phys, ViewOf(g).phys, |g.locals|);
  }

  /** After a synchronisation every line carries its device's level, and the remembered levels agree. */
  lemma SyncShowsDevices<W(!new)>(c: Config<W>, m: Machine<W>)
    requires Valid(c, m)
    ensures var m' := Sync(c, m);
            && Valid(c, m') && LinesRight(c, m')
            && (m.timer.mode == GuestStep ==> SyncedAt(m'.timer, Now(m)))
            && (SyncedAt(m.timer, Now(m)) ==> m'.timer == m.timer)
            && (ViewOf(m.gic) == DeviceView(m'.timer, c.procs.levels(m.world)) ==> m'.gic == m.gic)
  {
    var host := c.hostClock(m.hostReads);
    SyncKeepsShape(m.timer, Now(m), host);
    SyncIsSyncedAt(m.timer, Now(m), host);
    ShowAllShows(m.gic, DeviceView(SyncTo(m.timer, Now(m), host), c.procs.levels(m.world)));
  }

  /** Synchronising twice at the same tick is synchronising once. */
  lemma SyncTwiceIsOnce<W(!new)>(c: Config<W>, m: Machine<W>)
    requires Valid(c, m) && m.syncValid && SyncedAt(m.timer, Now(m))
    ensures Sync(c, m).timer == m.timer && Sync(c, m).gic == m.gic
  {
    SyncShowsDevices(c, m);
  }

  // ----- when to synchronise, when to jump -----

  const SHORT_WINDOW: int := 256

  /** Powered on and not halted. */
  predicate Active<W>(c: Config<W>, m: Machine<W>, i: nat) {
    c.procs.powered(m.world, i) && !c.procs.halted(m.world, i)
  }

  predicate Waiting<W>(c: Config<W>, m: Machine<W>, i: nat) {
    c.procs.waitingIrq(m.world, i) || c.procs.waitingEvent(m.world, i)
  }

  predicate Runnable<W>(c: Config<W>, m: Machine<W>, i: nat) {
    Active(c, m, i) && c.procs.ready(m.world, m.gic, i)
  }

  /** Whether the decision looks at the schedule, and so brings the cached event up to date. */
  predicate LooksAtSchedule<W>(c: Config<W>, m: Machine<W>) {
    && m.timer.mode == GuestStep && !c.legacy
    && (exists i | 0 <= i < c.n :: Active(c, m, i) && !Waiting(c, m, i))
  }

  predicate WindowNeeded<W>(c: Config<W>, m: Machine<W>) {
    if m.timer.mode == HostMonotonic then true
    else if c.legacy then false
    else if LooksAtSchedule(c, m) then
      NextEvent(m).event.Some? && NextEvent(m).event.value - Now(m) <= SHORT_WINDOW
    else exists i | 0 <= i < c.n :: Active(c, m, i)
  }

  function AfterWindowNeeded<W>(c: Config<W>, m: Machine<W>): Machine<W> {
    if LooksAtSchedule(c, m) then NextEvent(m) else m
  }

  /** Synchronise if the next event is due. */
  function SyncIfDue<W>(c: Config<W>, m: Machine<W>): (m': Machine<W>)
    requires Shaped(c, m)
  {
    if m.event.Some? && m.event.value <= Now(m) then Sync(c, m) else m
  }

  /** Synchronise unless a short window is running and nothing is stale or due. */
  function SyncUnless<W>(c: Config<W>, m: Machine<W>, needed: bool): (m': Machine<W>)
    requires Shaped(c, m)
  {
    if !needed || !m.syncValid || m.schedDirty then Sync(c, m) else SyncIfDue(c, NextEvent(m))
  }

  function MaybeSync<W>(c: Config<W>, m: Machine<W>): (m': Machine<W>)
    requires Shaped(c, m)
  {
    if m.timer.mode == HostMonotonic || c.legacy then Sync(c, m)
    else SyncUnless(c, AfterWindowNeeded(c, m), WindowNeeded(c, m))
  }

  /** Whether the machine would jump: the event lies ahead. */
  predicate Jumps<W>(c: Config<W>, m: Machine<W>) {
    && m.timer.mode == GuestStep && !c.legacy
    && NextEvent(m).event.Some? && NextEvent(m).event.value > Now(m)
  }

  function FastForward<W>(c: Config<W>, m: Machine<W>): (m': Machine<W>)
    requires Shaped(c, m)
  {
    if m.timer.mode == HostMonotonic || c.legacy then m
    else if !Jumps(c, m) then NextEvent(m)
    else
      Sync(c, Jumped(NextEvent(m)))
  }

  /** Time moved to the cached event, and the device levels forgotten. */
  function Jumped<W>(m: Machine<W>): Machine<W>
    requires m.event.Some?
  {
    var m' := JumpTo(m, m.event.value);
    m'.(syncValid := false, jumped := m.jumped + (Now(m') - Now(m)))
  }

  // ----- processor steps -----

  /** The timer after an action. */
  function TimerAfter<W>(c: Config<W>, m: Machine<W>, a: Action): (tm: Timer)
    requires |m.timer.cpus| > 0
    ensures |tm.cpus| == |m.timer.cpus| && tm.mode == m.timer.mode
  {
    match a
    case TimerWrite(cpu, which, reg, value) =>
      WriteTimerReg(m.timer, cpu, which, reg, Now(m), value, c.hostClock(m.hostReads))
    case TimerMmio(offset, word, size) => WriteMmio(m.timer, offset, word, size)
    case _ => m.timer
  }

  function Perform<W>(c: Config<W>, m: Machine<W>, a: Action): (m': Machine<W>)
    requires G.Wf(m.gic) && |m.timer.cpus| > 0
    ensures G.Wf(m'.gic) && |m'.gic.locals| == |m.gic.locals| && |m'.timer.cpus| == |m.timer.cpus|
    ensures m'.timer.mode == m.timer.mode
  {
    var m1 := m.(timer := TimerAfter(c, m, a),
                 gic := if a.GicAction? then G.Apply(m.gic, a.op) else m.gic,
                 hostReads := m.hostReads + if a.TimerWrite? then 1 else 0,
                 stop := m.stop || a.StopRequest?);
    if Notifies(a) then Invalidate(m1) else m1
  }

  function PerformAll<W>(c: Config<W>, m: Machine<W>, actions: seq<Action>): (m': Machine<W>)
    requires G.Wf(m.gic) && |m.timer.cpus| > 0
    ensures G.Wf(m'.gic) && |m'.gic.locals| == |m.gic.locals| && |m'.timer.cpus| == |m.timer.cpus|
    ensures m'.timer.mode == m.timer.mode
  {
    if actions == [] then m
    else Perform(c, PerformAll(c, m, actions[..|actions| - 1]), actions[|actions| - 1])
  }

  function Decide<W>(c: Config<W>, m: Machine<W>, i: nat): Outcome<W> {
    c.procs.step(m.world, m.timer, m.gic, Now(m), i)
  }

  /** One call of processor i's step, counted. */
  function StepCpu<W>(c: Config<W>, m: Machine<W>, i: nat): (m': Machine<W>)
    requires G.Wf(m.gic) && |m.timer.cpus| > 0
    ensures G.Wf(m'.gic) && |m'.timer.cpus| == |m.timer.cpus|
  {
    var o := Decide(c, m, i);
    var m1 := PerformAll(c, m, o.actions);
    m1.(world := o.world, wokeWaiter := m.wokeWaiter || o.wokeWaiter, cpuSteps := m.cpuSteps + 1)
  }

  /** A step the run loop makes on its own: counted, and one tick long. */
  function Beat<W>(c: Config<W>, m: Machine<W>, i: nat): (m': Machine<W>)
    requires G.Wf(m.gic) && |m.timer.cpus| > 0
    ensures G.Wf(m'.gic) && |m'.timer.cpus| == |m.timer.cpus|
  {
    Ticked(AdvanceTime(Counted(StepCpu(c, m, i)), 1, 1))
  }

  function Counted<W>(m: Machine<W>): Machine<W> { m.(globalSteps := m.globalSteps + 1) }

  function Ticked<W>(m: Machine<W>): Machine<W> { m.(beats := m.beats + 1) }

  /** Fields no action touches. */
  ghost predicate SameScheduler<W>(m: Machine<W>, m': Machine<W>) {
    && m'.world == m.world && m'.globalSteps == m.globalSteps && m'.fp == m.fp && m'.syncTicks == m.syncTicks
    && m'.lastVirt == m.lastVirt && m'.lastPhys == m.lastPhys && m'.last == m.last && m'.wokeWaiter == m.wokeWaiter
    && m'.cpuSteps == m.cpuSteps && m'.beats == m.beats && m'.jumped == m.jumped
    && m'.scheduledAt == m.scheduledAt && m'.trusted == m.trusted
    && (m.stop ==> m'.stop)
  }

  lemma PerformFrame<W(!new)>(c: Config<W>, m: Machine<W>, a: Action)
    requires G.Wf(m.gic) && |m.timer.cpus| > 0
    ensures var m' := Perform(c, m, a);
            && SameScheduler(m, m')
            && (Notifies(a) ==> !m'.syncValid && !m'.schedValid && m'.schedDirty && m'.event == None)
            && (!Notifies(a) ==> m' == m.(gic := m'.gic, stop := m'.stop))
            && (!MovesLine(a) ==> ViewOf(m'.gic) == ViewOf(m.gic))
  {
    if a.GicAction? && !MovesLine(a) {
      GicTheorems.OtherOpsKeepLines(m.gic, a.op);
      SameLinesSameView(m.gic, G.Apply(m.gic, a.op));
    }
  }

  lemma {:induction false} PerformAllFrame<W(!new)>(c: Config<W>, m: Machine<W>, actions: seq<Action>)
    requires G.Wf(m.gic) && |m.timer.cpus| > 0
    ensures var m' := PerformAll(c, m, actions);
            && SameScheduler(m, m')
            && (AnyNotifies(actions) ==> !m'.syncValid && !m'.schedValid && m'.schedDirty && m'.event == None)
            && (!AnyNotifies(actions) ==> m' == m.(gic := m'.gic, stop := m'.stop))
            && (!AnyNotifies(actions) && (forall k | 0 <= k < |actions| :: !MovesLine(actions[k]))
                ==> ViewOf(m'.gic) == ViewOf(m.gic))
  {
    hide Perform, ViewOf, Notifies, MovesLine;
    if actions != [] {
      var init, a := actions[..|actions| - 1], actions[|actions| - 1];
      PerformAllFrame(c, m, init);
      PerformFrame(c, PerformAll(c, m, init), a);
      assert AnyNotifies(actions) <==> AnyNotifies(init) || Notifies(a) by {
        assert forall k | 0 <= k < |init| :: init[k] == actions[k];
      }
    }
  }

  predicate AsksToStop(actions: seq<Action>) { exists k | 0 <= k < |actions| :: actions[k].StopRequest? }

  /** The controller after the actions that reach it, in their order. */
  function GicAfter(g: G.Gic, actions: seq<Action>): (h: G.Gic)
    requires G.Wf(g)
    ensures G.Wf(h)
  {
    if actions == [] then g
    else
      var h := GicAfter(g, actions[..|actions| - 1]);
      match actions[|actions| - 1] case GicAction(op) => G.Apply(h, op) case _ => h
  }

  /** What a step asks of the controller happens to it in order, and nothing else; and a stop is noted exactly if it
      is asked for. */
  lemma {:induction false} ActionsReach<W>(c: Config<W>, m: Machine<W>, actions: seq<Action>)
    requires G.Wf(m.gic) && |m.timer.cpus| > 0
    ensures PerformAll(c, m, actions).gic == GicAfter(m.gic, actions)
    ensures PerformAll(c, m, actions).stop <==> m.stop || AsksToStop(actions)
  {
    hide G.Apply, TimerAfter;
    if actions != [] {
      var init, last := actions[..|actions| - 1], actions[|actions| - 1];
      ActionsReach(c, m, init);
      assert actions == init + [last];
      assert AsksToStop(actions) <==> AsksToStop(init) || last.StopRequest? by {
        assert forall k | 0 <= k < |init| :: actions[k] == init[k];
      }
    }
  }

  /** A processor step keeps the invariants and leaves time to the run loop. */
  lemma StepCpuKeepsValid<W(!new)>(c: Config<W>, m: Machine<W>, i: nat)
    requires Valid(c, m)
    ensures var m' := StepCpu(c, m, i);
            && Valid(c, m') && m'.fp == m.fp && m'.cpuSteps == m.cpuSteps + 1 && m'.globalSteps == m.globalSteps
            && m'.beats == m.beats && m'.jumped == m.jumped && m'.trusted == m.trusted
            && m'.timer.mode == m.timer.mode && (m.stop ==> m'.stop)
            && (!m'.schedDirty ==> m'.timer == m.timer && m'.schedValid == m.schedValid && m'.event == m.event)
  {
    var o := Decide(c, m, i);
    PerformAllFrame(c, m, o.actions);
  }
}
