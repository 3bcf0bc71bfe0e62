/** The interrupt controller's state and what each operation does to it (Arm GIC v3/v4, IHI 0069,
    sections 4.1 and 4.8: interrupt lifecycle and prioritization). */
module GicSpec {
  import opened Words

  const INTIDS: nat := 1024
  const LOCALS: nat := 32
  const SPIS: nat := 992
  const DEFAULT_PRIORITY: u8 := 0xC0
  const NO_INTID: nat := 1023

  /** Interrupts 0 to 31 belong to one CPU. */
  datatype Local = Local(
    pending: seq<bool>, enabled: seq<bool>, active: seq<bool>, line: seq<bool>, prio: seq<u8>,
    waker: u32, igroup: u32, icfgr0: u32, icfgr1: u32, mpidr: u64)

  /** Interrupts 32 to 1023 are shared. The epoch counts changes that a pending query could notice. */
  datatype Gic = Gic(
    locals: seq<Local>,
    pending: seq<bool>, enabled: seq<bool>, active: seq<bool>, line: seq<bool>, prio: seq<u8>,
    ctlr: u32, epoch: nat)

  predicate LocalWf(l: Local) {
    |l.pending| == |l.enabled| == |l.active| == |l.line| == |l.prio| == LOCALS
  }

  predicate Wf(g: Gic) {
    && |g.locals| > 0
    && |g.pending| == |g.enabled| == |g.active| == |g.line| == |g.prio| == SPIS
    && forall c | 0 <= c < |g.locals| :: LocalWf(g.locals[c])
  }

  const ResetLocal: Local :=
    Local(seq(LOCALS, i => false), seq(LOCALS, i => false), seq(LOCALS, i => false), seq(LOCALS, i => false),
          seq(LOCALS, i => DEFAULT_PRIORITY), 0, 0xFFFF_FFFF, 0xAAAA_AAAA, 0, 0)

  /** The state after construction for a number of CPUs. */
  function Initial(cpus: nat): (g: Gic)
    requires cpus > 0
    ensures Wf(g) && |g.locals| == cpus
  {
    Gic(seq(cpus, i => ResetLocal),
        seq(SPIS, i => false), seq(SPIS, i => false), seq(SPIS, i => false), seq(SPIS, i => false),
        seq(SPIS, i => DEFAULT_PRIORITY), 0, 2)
  }

  // ----- one interrupt as a CPU sees it -----

  datatype Interrupt = Interrupt(pending: bool, enabled: bool, active: bool, line: bool, prio: u8)

  function At(g: Gic, cpu: nat, intid: nat): Interrupt
    requires Wf(g) && intid < INTIDS
  {
    if intid < LOCALS then
      var l := g.locals[Clamp(cpu, |g.locals|)];
      Interrupt(l.pending[intid], l.enabled[intid], l.active[intid], l.line[intid], l.prio[intid])
    else
      var i := intid - LOCALS;
      Interrupt(g.pending[i], g.enabled[i], g.active[i], g.line[i], g.prio[i])
  }

  /** (cpu, x) and (c, y) name the same interrupt. */
  predicate Same(g: Gic, cpu: nat, x: nat, c: nat, y: nat)
    requires Wf(g)
  {
    x == y && (x >= LOCALS || Clamp(cpu, |g.locals|) == Clamp(c, |g.locals|))
  }

  // ----- bit setters -----

  datatype Field = PendingBit | EnabledBit | ActiveBit

  function GetField(i: Interrupt, f: Field): bool {
    match f case PendingBit => i.pending case EnabledBit => i.enabled case ActiveBit => i.active
  }

  function PutField(i: Interrupt, f: Field, v: bool): Interrupt {
    match f
    case PendingBit => i.(pending := v)
    case EnabledBit => i.(enabled := v)
    case ActiveBit => i.(active := v)
  }

  function PutLocal(l: Local, f: Field, intid: nat, v: bool): (r: Local)
    requires LocalWf(l) && intid < LOCALS
    ensures LocalWf(r)
  {
    match f
    case PendingBit => l.(pending := l.pending[intid := v])
    case EnabledBit => l.(enabled := l.enabled[intid := v])
    case ActiveBit => l.(active := l.active[intid := v])
  }

  function PutSpi(g: Gic, f: Field, i: nat, v: bool): (r: Gic)
    requires Wf(g) && i < SPIS
    ensures Wf(r)
  {
    match f
    case PendingBit => g.(pending := g.pending[i := v])
    case EnabledBit => g.(enabled := g.enabled[i := v])
    case ActiveBit => g.(active := g.active[i := v])
  }

  /** Writing a bit that already has the value is not a change and keeps the epoch. */
  function SetBit(g: Gic, f: Field, cpu: nat, intid: nat, v: bool): (r: Gic)
    requires Wf(g)
    ensures Wf(r) && |r.locals| == |g.locals|
  {
    if intid >= INTIDS || GetField(At(g, cpu, intid), f) == v then g
    else if intid < LOCALS then
      var c := Clamp(cpu, |g.locals|);
      g.(locals := g.locals[c := PutLocal(g.locals[c], f, intid, v)], epoch := g.epoch + 1)
    else PutSpi(g, f, intid - LOCALS, v).(epoch := g.epoch + 1)
  }

  lemma SetBitAt(g: Gic, f: Field, cpu: nat, intid: nat, v: bool, c: nat, y: nat)
    requires Wf(g) && y < INTIDS
    ensures At(SetBit(g, f, cpu, intid, v), c, y)
            == if Same(g, cpu, intid, c, y) then PutField(At(g, c, y), f, v) else At(g, c, y)
  {
    if intid < LOCALS {
      LocalBitAt(g, f, cpu, intid, v, c, y);
    } else if intid < INTIDS {
      SpiBitAt(g, f, cpu, intid, v, c, y);
    }
  }

  lemma LocalBitAt(g: Gic, f: Field, cpu: nat, intid: nat, v: bool, c: nat, y: nat)
    requires Wf(g) && y < INTIDS && intid < LOCALS
    ensures At(SetBit(g, f, cpu, intid, v), c, y)
            == if Same(g, cpu, intid, c, y) then PutField(At(g, c, y), f, v) else At(g, c, y)
  {
    var i, n := Clamp(cpu, |g.locals|), |g.locals|;
    var l := PutLocal(g.locals[i], f, intid, v);
    if GetField(At(g, cpu, intid), f) != v {
      assert SetBit(g, f, cpu, intid, v).locals == g.locals[i := l];
      if y < LOCALS && Clamp(c, n) == i {
        assert SetBit(g, f, cpu, intid, v).locals[Clamp(c, n)] == l;
      }
    }
  }

  lemma SpiBitAt(g: Gic, f: Field, cpu: nat, intid: nat, v: bool, c: nat, y: nat)
    requires Wf(g) && y < INTIDS && LOCALS <= intid < INTIDS
    ensures At(SetBit(g, f, cpu, intid, v), c, y)
            == if Same(g, cpu, intid, c, y) then PutField(At(g, c, y), f, v) else At(g, c, y)
  {
  }

  function PutLine(g: Gic, cpu: nat, intid: nat, v: bool): (r: Gic)
    requires Wf(g) && intid < INTIDS
    ensures Wf(r) && |r.locals| == |g.locals|
  {
    if intid < LOCALS then
      var c := Clamp(cpu, |g.locals|);
      g.(locals := g.locals[c := g.locals[c].(line := g.locals[c].line[intid := v])], epoch := g.epoch + 1)
    else g.(line := g.line[intid - LOCALS := v], epoch := g.epoch + 1)
  }

  lemma PutLineAt(g: Gic, cpu: nat, intid: nat, v: bool, c: nat, y: nat)
    requires Wf(g) && intid < INTIDS && y < INTIDS
    ensures At(PutLine(g, cpu, intid, v), c, y)
            == if Same(g, cpu, intid, c, y) then At(g, c, y).(line := v) else At(g, c, y)
  {
    hide PutLine, At, Same;
    if intid < LOCALS { LocalLineAt(g, cpu, intid, v, c, y); } else { SpiLineAt(g, cpu, intid, v, c, y); }
  }

  lemma LocalLineAt(g: Gic, cpu: nat, intid: nat, v: bool, c: nat, y: nat)
    requires Wf(g) && intid < LOCALS && y < INTIDS
    ensures At(PutLine(g, cpu, intid, v), c, y)
            == if Same(g, cpu, intid, c, y) then At(g, c, y).(line := v) else At(g, c, y)
  {
  }

  lemma SpiLineAt(g: Gic, cpu: nat, intid: nat, v: bool, c: nat, y: nat)
    requires Wf(g) && LOCALS <= intid < INTIDS && y < INTIDS
    ensures At(PutLine(g, cpu, intid, v), c, y)
            == if Same(g, cpu, intid, c, y) then At(g, c, y).(line := v) else At(g, c, y)
  {
  }

  // ----- operations -----

  function SetLevel(g: Gic, cpu: nat, intid: nat, asserted: bool): (r: Gic)
    requires Wf(g)
    ensures Wf(r) && |r.locals| == |g.locals|
  {
    if intid >= INTIDS || At(g, cpu, intid).line == asserted then g
    else
      var raised := PutLine(g, cpu, intid, asserted);
      if asserted && !At(g, cpu, intid).active then SetBit(raised, PendingBit, cpu, intid, true) else raised
  }

  predicate Bit(v: nat, k: nat) { v / Pow2(k) % 2 == 1 }

  function Byte(v: nat, k: nat): u8 { v / Pow2(8 * k) % 256 }

  /** Whether a software-generated interrupt request names a CPU with this affinity. */
  predicate SgiNames(mpidr: u64, cpu: nat, source: nat, value: u64) {
    if Bit(value, 40) then cpu != source
    else
      && Byte(mpidr, 4) == Byte(value, 6)
      && Byte(mpidr, 2) == Byte(value, 4)
      && Byte(mpidr, 1) == Byte(value, 2)
      && Byte(mpidr, 0) < 16
      && Bit(value % TWO16, Byte(mpidr, 0))
  }

  predicate SgiTargets(g: Gic, source: nat, value: u64, cpu: nat)
    requires Wf(g) && cpu < |g.locals|
  {
    SgiNames(g.locals[cpu].mpidr, cpu, source, value)
  }

  function SgiIntid(value: u64): (x: nat)
    ensures x < 16
  {
    value / Pow2(24) % 16
  }

  /** Setting a bit leaves every CPU's affinity alone. */
  lemma SetBitKeepsAffinity(g: Gic, f: Field, cpu: nat, intid: nat, value: bool)
    requires Wf(g)
    ensures var h := SetBit(g, f, cpu, intid, value);
      |h.locals| == |g.locals| && forall c | 0 <= c < |g.locals| :: h.locals[c].mpidr == g.locals[c].mpidr
  {
  }

  /** Pend one local interrupt on those of the first n CPUs that are in `targets`. */
  function PendOn(g: Gic, intid: nat, targets: set<nat>, n: nat): (r: Gic)
    requires Wf(g)
    ensures Wf(r) && |r.locals| == |g.locals|
  {
    if n == 0 then g
    else
      var h := PendOn(g, intid, targets, n - 1);
      if n - 1 in targets then SetBit(h, PendingBit, n - 1, intid, true) else h
  }

  lemma PendOnNone(g: Gic, intid: nat)
    requires Wf(g)
    ensures forall targets: set<nat> :: PendOn(g, intid, targets, 0) == g
  {
  }

  lemma PendOnNext(g: Gic, intid: nat, targets: set<nat>, n: nat)
    requires Wf(g)
    ensures var h := PendOn(g, intid, targets, n);
      PendOn(g, intid, targets, n + 1) == if n in targets then SetBit(h, PendingBit, n, intid, true) else h
  {
    hide SetBit;
  }

  function SendSgi(g: Gic, source: nat, value: u64): (r: Gic)
    requires Wf(g)
    ensures Wf(r) && |r.locals| == |g.locals|
  {
    PendOn(g, SgiIntid(value), set c | 0 <= c < |g.locals| && SgiTargets(g, source, value, c), |g.locals|)
  }

  predicate Candidate(g: Gic, cpu: nat, intid: nat, pmr: u8)
    requires Wf(g)
  {
    intid < INTIDS && At(g, cpu, intid).pending && At(g, cpu, intid).enabled && At(g, cpu, intid).prio < pmr
  }

  ghost predicate HasCandidate(g: Gic, cpu: nat, pmr: u8)
    requires Wf(g)
  {
    exists x: nat :: Candidate(g, cpu, x, pmr)
  }

  /** Lower priority value first, then lower INTID. */
  predicate Before(g: Gic, cpu: nat, x: nat, y: nat)
    requires Wf(g) && x < INTIDS && y < INTIDS
  {
    At(g, cpu, x).prio < At(g, cpu, y).prio || (At(g, cpu, x).prio == At(g, cpu, y).prio && x < y)
  }

  /** Reference definition: a candidate that comes before every other candidate. */
  ghost predicate IsHighest(g: Gic, cpu: nat, pmr: u8, x: nat)
    requires Wf(g)
  {
    && Candidate(g, cpu, x, pmr)
    && forall y: nat | Candidate(g, cpu, y, pmr) && y != x :: Before(g, cpu, x, y)
  }

  /** The best of the first n INTIDs, keeping the best so far. */
  function BestOf(g: Gic, cpu: nat, pmr: u8, n: nat): (r: Option<nat>)
    requires Wf(g) && n <= INTIDS
    ensures r.Some? ==> r.value < n && Candidate(g, cpu, r.value, pmr)
  {
    if n == 0 then None
    else
      var r := BestOf(g, cpu, pmr, n - 1);
      if Candidate(g, cpu, n - 1, pmr) && (r.None? || Before(g, cpu, n - 1, r.value)) then Some(n - 1) else r
  }

  function Highest(g: Gic, cpu: nat, pmr: u8): (r: Option<nat>)
    requires Wf(g)
    ensures r.Some? ==> Candidate(g, cpu, r.value, pmr)
  {
    BestOf(g, cpu, pmr, INTIDS)
  }

  function TakeInterrupt(g: Gic, cpu: nat, intid: nat): (r: Gic)
    requires Wf(g)
    ensures Wf(r) && |r.locals| == |g.locals|
  {
    SetBit(SetBit(g, PendingBit, cpu, intid, false), ActiveBit, cpu, intid, true)
  }

  function Acknowledge(g: Gic, cpu: nat, pmr: u8): (r: Gic)
    requires Wf(g)
    ensures Wf(r) && |r.locals| == |g.locals|
  {
    match Highest(g, cpu, pmr)
    case None => g
    case Some(x) => TakeInterrupt(g, cpu, x)
  }

  function Eoi(g: Gic, cpu: nat, intid: nat): (r: Gic)
    requires Wf(g)
    ensures Wf(r) && |r.locals| == |g.locals|
  {
    if intid >= INTIDS then g
    else
      var done := SetBit(g, ActiveBit, cpu, intid, false);
      if At(g, cpu, intid).line then SetBit(done, PendingBit, cpu, intid, true) else done
  }

  // ----- register writes -----

  function BitsOf(word: u32): set<nat> { set k | 0 <= k < 32 && Bit(word, k) }

  /** Set or clear one field for each of the first n bit positions that are in `bits`. */
  function SetRange(g: Gic, f: Field, cpu: nat, first: nat, bits: set<nat>, v: bool, n: nat): (r: Gic)
    requires Wf(g)
    ensures Wf(r) && |r.locals| == |g.locals|
  {
    if n == 0 then g
    else
      var h := SetRange(g, f, cpu, first, bits, v, n - 1);
      if n - 1 in bits then SetBit(h, f, cpu, first + n - 1, v) else h
  }

  function PutPriority(g: Gic, cpu: nat, intid: nat, p: u8): (r: Gic)
    requires Wf(g)
    ensures Wf(r) && |r.locals| == |g.locals|
  {
    if intid >= INTIDS then g
    else if intid < LOCALS then
      var c := Clamp(cpu, |g.locals|);
      g.(locals := g.locals[c := g.locals[c].(prio := g.locals[c].prio[intid := p])])
    else g.(prio := g.prio[intid - LOCALS := p])
  }

  /** Four priority bytes; a distributor write reaches only shared interrupts and a redistributor write only
      the CPU's own. The epoch always moves. */
  function SetPriorities(g: Gic, local: bool, cpu: nat, first: nat, value: u32, n: nat): (r: Gic)
    requires Wf(g)
    ensures Wf(r) && |r.locals| == |g.locals| && r.epoch == g.epoch
  {
    if n == 0 then g
    else
      var h := SetPriorities(g, local, cpu, first, value, n - 1);
      var x := first + n - 1;
      if local == (x < LOCALS) then PutPriority(h, cpu, x, Byte(value, n - 1)) else h
  }

  function WriteDist(g: Gic, offset: nat, value: u32): (r: Gic)
    requires Wf(g)
    ensures Wf(r) && |r.locals| == |g.locals|
  {
    if offset == 0 then g.(ctlr := value % 4 + value / 16 % 2 * 16)
    else if 0x100 <= offset < 0x180 then BankedRange(g, EnabledBit, (offset - 0x100) / 4, value, true)
    else if 0x180 <= offset < 0x200 then BankedRange(g, EnabledBit, (offset - 0x180) / 4, value, false)
    else if 0x300 <= offset < 0x380 then BankedRange(g, ActiveBit, (offset - 0x300) / 4, value, true)
    else if 0x380 <= offset < 0x400 then BankedRange(g, ActiveBit, (offset - 0x380) / 4, value, false)
    else if 0x400 <= offset < 0x400 + INTIDS then
      SetPriorities(g, false, 0, offset - 0x400, value, 4).(epoch := g.epoch + 1)
    else g
  }

  /** Register 0 of a distributor bank is reserved for the CPU's own interrupts and ignored. */
  function BankedRange(g: Gic, f: Field, n: nat, value: u32, v: bool): (r: Gic)
    requires Wf(g)
    ensures Wf(r) && |r.locals| == |g.locals|
  {
    if n == 0 then g else SetRange(g, f, 0, n * 32, BitsOf(value), v, 32)
  }

  const REDIST_BASE: nat := 0x0A_0000
  const FRAME_SIZE: nat := 0x2_0000

  function WriteRedist(g: Gic, offset: nat, value: u32): (r: Gic)
    requires Wf(g)
    ensures Wf(r) && |r.locals| == |g.locals|
  {
    if offset < REDIST_BASE || (offset - REDIST_BASE) / FRAME_SIZE >= |g.locals| then g
    else
      var c := (offset - REDIST_BASE) / FRAME_SIZE;
      var inner := (offset - REDIST_BASE) % FRAME_SIZE;
      var l := g.locals[c];
      if inner == 0x14 then g.(locals := g.locals[c := l.(waker := value / 2 % 2 * 2)])
      else if inner == 0x1_0080 then g.(locals := g.locals[c := l.(igroup := value)])
      else if inner == 0x1_0100 then SetRange(g, EnabledBit, c, 0, BitsOf(value), true, 32)
      else if inner == 0x1_0180 then SetRange(g, EnabledBit, c, 0, BitsOf(value), false, 32)
      else if inner == 0x1_0200 then SetRange(g, PendingBit, c, 0, BitsOf(value), true, 32)
      else if inner == 0x1_0280 then SetRange(g, PendingBit, c, 0, BitsOf(value), false, 32)
      else if inner == 0x1_0300 then SetRange(g, ActiveBit, c, 0, BitsOf(value), true, 32)
      else if inner == 0x1_0380 then SetRange(g, ActiveBit, c, 0, BitsOf(value), false, 32)
      else if 0x1_0400 <= inner < 0x1_0400 + LOCALS then
        SetPriorities(g, true, c, inner - 0x1_0400, value, 4).(epoch := g.epoch + 1)
      else if inner == 0x1_0C00 then g.(locals := g.locals[c := l.(icfgr0 := value)])
      else if inner == 0x1_0C04 then g.(locals := g.locals[c := l.(icfgr1 := value)])
      else g
  }

  // ----- everything that can happen to the controller -----

  datatype Op =
    | LevelOp(cpu: nat, intid: nat, asserted: bool)
    | PendOp(cpu: nat, intid: nat)
    | SgiOp(source: nat, value: u64)
    | AckOp(cpu: nat, pmr: u8)
    | EoiOp(cpu: nat, intid: nat)
    | AffinityOp(cpu: nat, mpidr: u64)
    | DistOp(offset: nat, word: u32)
    | RedistOp(offset: nat, word: u32)

  function Apply(g: Gic, op: Op): (r: Gic)
    requires Wf(g)
    ensures Wf(r) && |r.locals| == |g.locals|
  {
    match op
    case LevelOp(cpu, intid, asserted) => SetLevel(g, cpu, intid, asserted)
    case PendOp(cpu, intid) => SetBit(g, PendingBit, cpu, intid, true)
    case SgiOp(source, value) => SendSgi(g, source, value)
    case AckOp(cpu, pmr) => Acknowledge(g, cpu, pmr)
    case EoiOp(cpu, intid) => Eoi(g, cpu, intid)
    case AffinityOp(cpu, mpidr) =>
      var c := Clamp(cpu, |g.locals|);
      g.(locals := g.locals[c := g.locals[c].(mpidr := mpidr)])
    case DistOp(offset, word) => WriteDist(g, offset, word)
    case RedistOp(offset, word) => WriteRedist(g, offset, word)
  }

  /** A run: the states an initial controller goes through under the operations. */
  ghost predicate IsRun(states: seq<Gic>, ops: seq<Op>) {
    && |states| == |ops| + 1
    && (forall k | 0 <= k < |states| :: Wf(states[k]))
    && forall k | 0 <= k < |ops| :: StepsTo(states[k], ops[k], states[k + 1])
  }

  ghost predicate StepsTo(g: Gic, op: Op, h: Gic)
    requires Wf(g)
  {
    h == Apply(g, op)
  }
}
