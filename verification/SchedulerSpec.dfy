/** The vocabulary of the machine scheduler: what a processor step may do, when the next timer deadline is,
    and what it means for the interrupt lines to show the devices. */
module SchedulerSpec {
  import opened Words
  import opened TimerSpec
  import TimerTheorems
  import G = GicSpec
  import GicTheorems

  const FRAC_ONE: int := 0x1_0000
  /** Guest time is kept in 64 bits with 16 of them fractional, so ticks have 48. */
  const TWO48: int := 0x1_0000_0000_0000

  const TIMER_VIRT: nat := 27
  const TIMER_PHYS: nat := 30
  const UART_INTID: nat := 33
  const KMI_INTID: nat := 34
  const BLK_INTID: nat := 35
  const NET_INTID: nat := 36

  /** The interrupt outputs of the devices other than the timer. */
  datatype Levels = Levels(uart: bool, kmi: bool, blk: bool, net: bool)

  /** What a processor step does to the shared devices, in order. */
  datatype Action =
    | TimerWrite(cpu: nat, which: Which, reg: TimerReg, value: u64)
    | TimerMmio(offset: u64, word: u64, size: nat)
    | GicAction(op: G.Op)
    | DeviceChanged
    | StopRequest

  datatype Outcome<W> = Outcome(world: W, ok: bool, actions: seq<Action>, wokeWaiter: bool)

  /** The processors and everything else that is not modelled: arbitrary functions of an arbitrary world. */
  datatype Processors<!W> = Processors(
    step: (W, Timer, G.Gic, nat, nat) -> Outcome<W>,
    powered: (W, nat) -> bool,
    halted: (W, nat) -> bool,
    waitingIrq: (W, nat) -> bool,
    waitingEvent: (W, nat) -> bool,
    ready: (W, G.Gic, nat) -> bool,
    levels: W -> Levels)

  /** Actions after which a device tells the scheduler that its schedule is stale. */
  predicate Notifies(a: Action) {
    a.TimerWrite? || a.DeviceChanged? || (a.TimerMmio? && IsMmioReg(a.offset, a.size))
  }

  predicate AnyNotifies(actions: seq<Action>) {
    exists k | 0 <= k < |actions| :: Notifies(actions[k])
  }

  predicate MovesLine(a: Action) { a.GicAction? && a.op.LevelOp? }

  /** Devices report their level changes, and processors move interrupt lines only together with a timer write. */
  ghost predicate Reporting<W(!new)>(p: Processors<W>) {
    forall w: W, t: Timer, g: G.Gic, now: nat, cpu: nat ::
      var o := p.step(w, t, g, now, cpu);
      !AnyNotifies(o.actions) ==>
        p.levels(o.world) == p.levels(w) && forall k | 0 <= k < |o.actions| :: !MovesLine(o.actions[k])
  }

  // ----- deadlines -----

  /** The tick of the next timer interrupt as predicted at tick `now`. */
  function Deadline(tm: Timer, now: u64): Option<int> {
    var s := StepsUntilIrq(tm, now, NO_DEADLINE);
    if s == NO_DEADLINE then None else Some(now + s)
  }

  /** Where a jump to tick d takes the fixed-point time: the shift loses the bits above 48. */
  function JumpTarget(d: int): u64 { d * FRAC_ONE % TWO64 }

  lemma JumpTargetOf(d: int)
    ensures 0 <= d < TWO48 ==> JumpTarget(d) == d * FRAC_ONE
    ensures JumpTarget(d) == d % TWO48 * FRAC_ONE
  {
    var q, r := d / TWO48, d % TWO48;
    assert d * FRAC_ONE == q * TWO64 + r * FRAC_ONE;
    QuotientUnique(d * FRAC_ONE, TWO64, q, r * FRAC_ONE);
  }

  /** The timer was synchronised at this very tick. */
  predicate SyncedAt(tm: Timer, now: u64) {
    tm.mode == GuestStep && tm.anchor == now && Settled(tm)
  }

  lemma SyncIsSyncedAt(tm: Timer, now: u64, host: u64)
    ensures tm.mode == GuestStep ==> SyncedAt(SyncTo(tm, now, host), now)
    ensures SyncedAt(tm, now) ==> SyncTo(tm, now, host) == tm
  {
    UpdateIrqSettles(tm.(counter := CounterAt(tm, now, host), anchor := now));
    if SyncedAt(tm, now) { assert (now - tm.anchor) * tm.cps == 0; }
  }

  lemma SyncKeepsShape(tm: Timer, now: u64, host: u64)
    ensures |SyncTo(tm, now, host).cpus| == |tm.cpus| && SyncTo(tm, now, host).mode == tm.mode
  {
  }

  /** Letting time pass up to the deadline, without or with a synchronisation there, keeps the deadline. */
  lemma DeadlineKept(tm: Timer, now: u64, later: u64, host: u64)
    requires now <= later && now < TWO48
    requires Deadline(tm, now).Some? && now < Deadline(tm, now).value && later <= Deadline(tm, now).value
    ensures tm.mode == GuestStep
    ensures Deadline(tm, later) == Deadline(tm, now)
    ensures Deadline(SyncTo(tm, later, host), later) == Deadline(tm, now)
  {
    TimerTheorems.DeadlineStable(tm, now, NO_DEADLINE, later - now);
    TimerTheorems.DeadlineSurvivesSync(tm, now, NO_DEADLINE, later - now, host);
  }

  /** In host-clock mode the guest timer predicts nothing. */
  lemma HostModeHasNoDeadline(tm: Timer, now: u64)
    requires tm.mode == HostMonotonic
    ensures StepsUntilIrq(tm, now, NO_DEADLINE) == NO_DEADLINE && Deadline(tm, now) == None
  {
  }

  // ----- interrupt lines -----

  /** The interrupt lines the devices drive: two private ones per CPU and four shared ones. */
  datatype LineView = LineView(virt: seq<bool>, phys: seq<bool>, shared: Levels)

  /** What is on the interrupt controller's lines. */
  function ViewOf(g: G.Gic): (v: LineView)
    requires G.Wf(g)
    ensures |v.virt| == |v.phys| == |g.locals|
  {
    LineView(seq(|g.locals|, c requires 0 <= c < |g.locals| => g.locals[c].line[TIMER_VIRT]),
             seq(|g.locals|, c requires 0 <= c < |g.locals| => g.locals[c].line[TIMER_PHYS]),
             Levels(g.line[UART_INTID - G.LOCALS], g.line[KMI_INTID - G.LOCALS],
                    g.line[BLK_INTID - G.LOCALS], g.line[NET_INTID - G.LOCALS]))
  }

  /** What the devices output. A pending memory-mapped timer raises the virtual line of every CPU. */
  function DeviceView(tm: Timer, l: Levels): (v: LineView)
    ensures |v.virt| == |v.phys| == |tm.cpus| && v.shared == l
  {
    LineView(seq(|tm.cpus|, c requires 0 <= c < |tm.cpus| => tm.mmioPending || tm.cpus[c].cntv.irqPending),
             seq(|tm.cpus|, c requires 0 <= c < |tm.cpus| => tm.cpus[c].cntp.irqPending),
             l)
  }

  lemma SameLinesSameView(g: G.Gic, h: G.Gic)
    requires G.Wf(g) && G.Wf(h) && GicTheorems.SameLines(g, h)
    ensures ViewOf(g) == ViewOf(h)
  {
  }

  /** Driving a private line changes that line of that CPU, and nothing when it is already there. */
  lemma DrivesVirt(g: G.Gic, c: nat, v: bool)
    requires G.Wf(g) && c < |g.locals|
    ensures var h := G.SetLevel(g, c, TIMER_VIRT, v);
            ViewOf(h) == ViewOf(g).(virt := ViewOf(g).virt[c := v]) && (ViewOf(g).virt[c] == v ==> h == g)
  {
    var h := G.SetLevel(g, c, TIMER_VIRT, v);
    forall k: nat | k < |g.locals| ensures ViewOf(h).virt[k] == ViewOf(g).virt[c := v][k] && ViewOf(h).phys[k] == ViewOf(g).phys[k] {
      GicTheorems.SetLevelMovesOneLine(g, c, TIMER_VIRT, v, k, TIMER_VIRT);
      GicTheorems.SetLevelMovesOneLine(g, c, TIMER_VIRT, v, k, TIMER_PHYS);
      LinesOf(g, k); LinesOf(h, k);
    }
    SharedUntouched(g, c, TIMER_VIRT, v);
    assert ViewOf(h).virt == ViewOf(g).virt[c := v];
    assert ViewOf(h).phys == ViewOf(g).phys;
    LinesOf(g, c);
    GicTheorems.SetLevelMovesOneLine(g, c, TIMER_VIRT, v, c, TIMER_VIRT);
  }

  lemma DrivesPhys(g: G.Gic, c: nat, v: bool)
    requires G.Wf(g) && c < |g.locals|
    ensures var h := G.SetLevel(g, c, TIMER_PHYS, v);
            ViewOf(h) == ViewOf(g).(phys := ViewOf(g).phys[c := v]) && (ViewOf(g).phys[c] == v ==> h == g)
  {
    var h := G.SetLevel(g, c, TIMER_PHYS, v);
    forall k: nat | k < |g.locals| ensures ViewOf(h).phys[k] == ViewOf(g).phys[c := v][k] && ViewOf(h).virt[k] == ViewOf(g).virt[k] {
      GicTheorems.SetLevelMovesOneLine(g, c, TIMER_PHYS, v, k, TIMER_VIRT);
      GicTheorems.SetLevelMovesOneLine(g, c, TIMER_PHYS, v, k, TIMER_PHYS);
      LinesOf(g, k); LinesOf(h, k);
    }
    SharedUntouched(g, c, TIMER_PHYS, v);
    assert ViewOf(h).phys == ViewOf(g).phys[c := v];
    assert ViewOf(h).virt == ViewOf(g).virt;
    LinesOf(g, c);
    GicTheorems.SetLevelMovesOneLine(g, c, TIMER_PHYS, v, c, TIMER_PHYS);
  }

  lemma LinesOf(g: G.Gic, k: nat)
    requires G.Wf(g) && k < |g.locals|
    ensures ViewOf(g).virt[k] == G.At(g, k, TIMER_VIRT).line && ViewOf(g).phys[k] == G.At(g, k, TIMER_PHYS).line
  {
  }

  lemma SharedOf(g: G.Gic)
    requires G.Wf(g)
    ensures ViewOf(g).shared == Levels(G.At(g, 0, UART_INTID).line, G.At(g, 0, KMI_INTID).line,
                                       G.At(g, 0, BLK_INTID).line, G.At(g, 0, NET_INTID).line)
  {
  }

  lemma SharedUntouched(g: G.Gic, c: nat, intid: nat, v: bool)
    requires G.Wf(g) && intid < G.LOCALS
    ensures ViewOf(G.SetLevel(g, c, intid, v)).shared == ViewOf(g).shared
  {
    var h := G.SetLevel(g, c, intid, v);
    SharedOf(g); SharedOf(h);
    GicTheorems.SetLevelMovesOneLine(g, c, intid, v, 0, UART_INTID);
    GicTheorems.SetLevelMovesOneLine(g, c, intid, v, 0, KMI_INTID);
    GicTheorems.SetLevelMovesOneLine(g, c, intid, v, 0, BLK_INTID);
    GicTheorems.SetLevelMovesOneLine(g, c, intid, v, 0, NET_INTID);
  }

  /** Putting a level on one line. */
  function PutShared(v: LineView, intid: nat, level: bool): LineView {
    var l := v.shared;
    v.(shared := if intid == UART_INTID then l.(uart := level)
                 else if intid == KMI_INTID then l.(kmi := level)
                 else if intid == BLK_INTID then l.(blk := level)
                 else l.(net := level))
  }

  function SharedLevel(v: LineView, intid: nat): bool {
    if intid == UART_INTID then v.shared.uart
    else if intid == KMI_INTID then v.shared.kmi
    else if intid == BLK_INTID then v.shared.blk
    else v.shared.net
  }

  function PrivateLevel(v: LineView, cpu: nat, intid: nat): bool
    requires cpu < |v.virt| == |v.phys|
  {
    if intid == TIMER_VIRT then v.virt[cpu] else v.phys[cpu]
  }

  function PutPrivate(v: LineView, cpu: nat, intid: nat, level: bool): LineView
    requires cpu < |v.virt| == |v.phys|
  {
    if intid == TIMER_VIRT then v.(virt := v.virt[cpu := level]) else v.(phys := v.phys[cpu := level])
  }

  /** Driving a private line changes that line of that CPU, and nothing at all when it is already there. */
  lemma DrivesPrivate(g: G.Gic, c: nat, intid: nat, v: bool)
    requires G.Wf(g) && c < |g.locals| && (intid == TIMER_VIRT || intid == TIMER_PHYS)
    ensures var h := G.SetLevel(g, c, intid, v);
            ViewOf(h) == PutPrivate(ViewOf(g), c, intid, v) && (PrivateLevel(ViewOf(g), c, intid) == v ==> h == g)
  {
    if intid == TIMER_VIRT { DrivesVirt(g, c, v); } else { DrivesPhys(g, c, v); }
  }

  /** Driving a shared line changes that line, and nothing at all when it is already there. */
  lemma DrivesShared(g: G.Gic, intid: nat, v: bool)
    requires G.Wf(g) && UART_INTID <= intid <= NET_INTID
    ensures var h := G.SetLevel(g, 0, intid, v);
            ViewOf(h) == PutShared(ViewOf(g), intid, v) && (SharedLevel(ViewOf(g), intid) == v ==> h == g)
  {
    hide G.SetLevel, G.At, ViewOf;
    var h := G.SetLevel(g, 0, intid, v);
    SharedOf(g); SharedOf(h);
    GicTheorems.SetLevelMovesOneLine(g, 0, intid, v, 0, UART_INTID);
    GicTheorems.SetLevelMovesOneLine(g, 0, intid, v, 0, KMI_INTID);
    GicTheorems.SetLevelMovesOneLine(g, 0, intid, v, 0, BLK_INTID);
    GicTheorems.SetLevelMovesOneLine(g, 0, intid, v, 0, NET_INTID);
    forall k: nat | k < |g.locals|
      ensures ViewOf(h).virt[k] == ViewOf(g).virt[k] && ViewOf(h).phys[k] == ViewOf(g).phys[k]
    {
      GicTheorems.SetLevelMovesOneLine(g, 0, intid, v, k, TIMER_VIRT);
      GicTheorems.SetLevelMovesOneLine(g, 0, intid, v, k, TIMER_PHYS);
      LinesOf(g, k); LinesOf(h, k);
    }
    assert ViewOf(h).virt == ViewOf(g).virt;
    assert ViewOf(h).phys == ViewOf(g).phys;
  }
}
