/** What the interrupt controller guarantees over whole runs. */
module GicTheorems {
  import opened Words
  import opened GicSpec

  // ----- the epoch tells when a pending query may be reused -----

  /** Everything a pending query looks at is equal. */
  ghost predicate SameQuery(g: Gic, h: Gic)
    requires Wf(g) && Wf(h)
  {
    && |g.locals| == |h.locals|
    && g.pending == h.pending && g.enabled == h.enabled && g.prio == h.prio
    && forall c | 0 <= c < |g.locals| ::
         g.locals[c].pending == h.locals[c].pending
         && g.locals[c].enabled == h.locals[c].enabled
         && g.locals[c].prio == h.locals[c].prio
  }

  lemma SetBitEpoch(g: Gic, f: Field, cpu: nat, intid: nat, v: bool)
    requires Wf(g)
    ensures SetBit(g, f, cpu, intid, v).epoch >= g.epoch
    ensures SetBit(g, f, cpu, intid, v).epoch == g.epoch ==> SetBit(g, f, cpu, intid, v) == g
  {
  }

  lemma {:induction false} SetRangeEpoch(g: Gic, f: Field, cpu: nat, first: nat, bits: set<nat>, v: bool, n: nat)
    requires Wf(g)
    ensures SetRange(g, f, cpu, first, bits, v, n).epoch >= g.epoch
    ensures SetRange(g, f, cpu, first, bits, v, n).epoch == g.epoch ==> SetRange(g, f, cpu, first, bits, v, n) == g
  {
    if n > 0 {
      SetRangeEpoch(g, f, cpu, first, bits, v, n - 1);
      SetBitEpoch(SetRange(g, f, cpu, first, bits, v, n - 1), f, cpu, first + n - 1, v);
    }
  }

  lemma {:induction false} PendOnEpoch(g: Gic, intid: nat, targets: set<nat>, n: nat)
    requires Wf(g)
    ensures PendOn(g, intid, targets, n).epoch >= g.epoch
    ensures PendOn(g, intid, targets, n).epoch == g.epoch ==> PendOn(g, intid, targets, n) == g
  {
    if n > 0 {
      PendOnEpoch(g, intid, targets, n - 1);
      SetBitEpoch(PendOn(g, intid, targets, n - 1), PendingBit, n - 1, intid, true);
    }
  }

  lemma SetLevelEpoch(g: Gic, cpu: nat, intid: nat, asserted: bool)
    requires Wf(g)
    ensures SetLevel(g, cpu, intid, asserted).epoch >= g.epoch
    ensures SetLevel(g, cpu, intid, asserted).epoch == g.epoch ==> SetLevel(g, cpu, intid, asserted) == g
  {
    if intid < INTIDS && At(g, cpu, intid).line != asserted {
      SetBitEpoch(PutLine(g, cpu, intid, asserted), PendingBit, cpu, intid, true);
    }
  }

  lemma TwoBitsEpoch(g: Gic, cpu: nat, intid: nat, f: Field, v: bool, f2: Field, v2: bool)
    requires Wf(g)
    ensures var h := SetBit(SetBit(g, f, cpu, intid, v), f2, cpu, intid, v2);
            h.epoch >= g.epoch && (h.epoch == g.epoch ==> h == g)
  {
    SetBitEpoch(g, f, cpu, intid, v);
    SetBitEpoch(SetBit(g, f, cpu, intid, v), f2, cpu, intid, v2);
  }

  /** No operation changes what a query would answer without moving the epoch. */
  lemma StepMovesEpoch(g: Gic, op: Op)
    requires Wf(g)
    ensures Apply(g, op).epoch >= g.epoch
    ensures Apply(g, op).epoch == g.epoch ==> SameQuery(g, Apply(g, op))
  {
    match op
    case LevelOp(cpu, intid, asserted) => SetLevelEpoch(g, cpu, intid, asserted);
    case PendOp(cpu, intid) => SetBitEpoch(g, PendingBit, cpu, intid, true);
    case SgiOp(source, value) =>
      var targets := set c | 0 <= c < |g.locals| && SgiTargets(g, source, value, c);
      PendOnEpoch(g, SgiIntid(value), targets, |g.locals|);
    case AckOp(cpu, pmr) =>
      if Highest(g, cpu, pmr).Some? {
        TwoBitsEpoch(g, cpu, Highest(g, cpu, pmr).value, PendingBit, false, ActiveBit, true);
      }
    case EoiOp(cpu, intid) =>
      SetBitEpoch(g, ActiveBit, cpu, intid, false);
      TwoBitsEpoch(g, cpu, intid, ActiveBit, false, PendingBit, true);
    case AffinityOp(cpu, mpidr) =>
    case DistOp(offset, word) => WriteDistEpoch(g, offset, word);
    case RedistOp(offset, word) => WriteRedistEpoch(g, offset, word);
  }

  lemma BankedRangeEpoch(g: Gic, f: Field, n: nat, word: u32, v: bool)
    requires Wf(g)
    ensures BankedRange(g, f, n, word, v).epoch >= g.epoch
    ensures BankedRange(g, f, n, word, v).epoch == g.epoch ==> BankedRange(g, f, n, word, v) == g
  {
    SetRangeEpoch(g, f, 0, n * 32, BitsOf(word), v, 32);
  }

  lemma WriteDistEpoch(g: Gic, offset: nat, word: u32)
    requires Wf(g)
    ensures WriteDist(g, offset, word).epoch >= g.epoch
    ensures WriteDist(g, offset, word).epoch == g.epoch ==> SameQuery(g, WriteDist(g, offset, word))
  {
    if offset == 0 {
    } else if 0x100 <= offset < 0x180 {
      BankedRangeEpoch(g, EnabledBit, (offset - 0x100) / 4, word, true);
    } else if 0x180 <= offset < 0x200 {
      BankedRangeEpoch(g, EnabledBit, (offset - 0x180) / 4, word, false);
    } else if 0x300 <= offset < 0x380 {
      BankedRangeEpoch(g, ActiveBit, (offset - 0x300) / 4, word, true);
    } else if 0x380 <= offset < 0x400 {
      BankedRangeEpoch(g, ActiveBit, (offset - 0x380) / 4, word, false);
    }
  }

  lemma WriteRedistEpoch(g: Gic, offset: nat, word: u32)
    requires Wf(g)
    ensures WriteRedist(g, offset, word).epoch >= g.epoch
    ensures WriteRedist(g, offset, word).epoch == g.epoch ==> SameQuery(g, WriteRedist(g, offset, word))
  {
    if offset >= REDIST_BASE && (offset - REDIST_BASE) / FRAME_SIZE < |g.locals| {
      var c := (offset - REDIST_BASE) / FRAME_SIZE;
      var inner := (offset - REDIST_BASE) % FRAME_SIZE;
      if inner == 0x1_0100 { SetRangeEpoch(g, EnabledBit, c, 0, BitsOf(word), true, 32); }
      else if inner == 0x1_0180 { SetRangeEpoch(g, EnabledBit, c, 0, BitsOf(word), false, 32); }
      else if inner == 0x1_0200 { SetRangeEpoch(g, PendingBit, c, 0, BitsOf(word), true, 32); }
      else if inner == 0x1_0280 { SetRangeEpoch(g, PendingBit, c, 0, BitsOf(word), false, 32); }
      else if inner == 0x1_0300 { SetRangeEpoch(g, ActiveBit, c, 0, BitsOf(word), true, 32); }
      else if inner == 0x1_0380 { SetRangeEpoch(g, ActiveBit, c, 0, BitsOf(word), false, 32); }
    }
  }

  lemma SameQuerySameCandidates(g: Gic, h: Gic, cpu: nat, x: nat, pmr: u8)
    requires Wf(g) && Wf(h) && SameQuery(g, h)
    ensures Candidate(g, cpu, x, pmr) == Candidate(h, cpu, x, pmr)
  {
  }

  /** Along a run, from its i-th state to its j-th. */
  lemma {:induction false} EpochMonotone(states: seq<Gic>, ops: seq<Op>, i: nat, j: nat)
    requires IsRun(states, ops) && i <= j <= |ops|
    ensures states[i].epoch <= states[j].epoch
    ensures states[i].epoch == states[j].epoch ==> SameQuery(states[i], states[j])
    decreases j - i
  {
    if i < j {
      EpochMonotone(states, ops, i, j - 1);
      assert StepsTo(states[j - 1], ops[j - 1], states[j - 1 + 1]);
      StepMovesEpoch(states[j - 1], ops[j - 1]);
    }
  }

  /** Two states of one run with the same epoch answer every query of every CPU alike. This is what makes the
      cached answers, the controller's own and a CPU's remembered "nothing pending", safe to reuse. */
  lemma SameEpochSameAnswers(states: seq<Gic>, ops: seq<Op>, i: nat, j: nat, cpu: nat, pmr: u8)
    requires IsRun(states, ops) && i <= j <= |ops|
    requires states[i].epoch == states[j].epoch
    ensures HasCandidate(states[i], cpu, pmr) <==> HasCandidate(states[j], cpu, pmr)
    ensures Highest(states[i], cpu, pmr) == Highest(states[j], cpu, pmr)
  {
    EpochMonotone(states, ops, i, j);
    SameQuerySameBest(states[i], states[j], cpu, pmr, INTIDS);
    HighestIsHighest(states[i], cpu, pmr);
    HighestIsHighest(states[j], cpu, pmr);
  }

  lemma {:induction false} SameQuerySameBest(g: Gic, h: Gic, cpu: nat, pmr: u8, n: nat)
    requires Wf(g) && Wf(h) && SameQuery(g, h) && n <= INTIDS
    ensures BestOf(g, cpu, pmr, n) == BestOf(h, cpu, pmr, n)
  {
    if n > 0 {
      SameQuerySameBest(g, h, cpu, pmr, n - 1);
      SameQuerySameCandidates(g, h, cpu, n - 1, pmr);
    }
  }

  // ----- a remembered answer -----

  /** A query result kept with the mask and the epoch it was computed for. */
  datatype Remembered = Remembered(valid: bool, value: bool, pmr: u8, epoch: nat)

  const Forgotten := Remembered(false, false, 0xFF, 0)

  /** A remembered answer is right for as long as the epoch has not moved. */
  ghost predicate Trustworthy(r: Remembered, g: Gic, cpu: nat)
    requires Wf(g)
  {
    r.valid ==> r.epoch <= g.epoch && (r.epoch == g.epoch ==> (r.value <==> HasCandidate(g, cpu, r.pmr)))
  }

  ghost predicate AllTrustworthy(cache: seq<Remembered>, g: Gic)
    requires Wf(g)
  {
    |cache| == |g.locals| && forall c | 0 <= c < |cache| :: Trustworthy(cache[c], g, c)
  }

  lemma StaysTrustworthy(cache: seq<Remembered>, g: Gic, h: Gic)
    requires Wf(g) && Wf(h) && AllTrustworthy(cache, g) && |h.locals| == |g.locals|
    requires h.epoch >= g.epoch && (h.epoch == g.epoch ==> SameQuery(g, h))
    ensures AllTrustworthy(cache, h)
  {
    if h.epoch == g.epoch {
      forall c | 0 <= c < |cache| ensures Trustworthy(cache[c], h, c) {
        assert Trustworthy(cache[c], g, c);
        SameQuerySameBest(g, h, c, cache[c].pmr, INTIDS);
        HighestIsHighest(g, c, cache[c].pmr);
        HighestIsHighest(h, c, cache[c].pmr);
      }
    }
  }

  // ----- arbitration -----

  lemma {:induction false} BestOfIsHighest(g: Gic, cpu: nat, pmr: u8, n: nat)
    requires Wf(g) && n <= INTIDS
    ensures var r := BestOf(g, cpu, pmr, n);
            && (r.None? ==> forall y: nat | y < n :: !Candidate(g, cpu, y, pmr))
            && (r.Some? ==> forall y: nat | y < n && Candidate(g, cpu, y, pmr) && y != r.value :: Before(g, cpu, r.value, y))
  {
    if n > 0 { BestOfIsHighest(g, cpu, pmr, n - 1); }
  }

  /** The scan answers None exactly when nothing is a candidate, and otherwise the unique highest candidate. */
  lemma HighestIsHighest(g: Gic, cpu: nat, pmr: u8)
    requires Wf(g)
    ensures Highest(g, cpu, pmr).Some? <==> HasCandidate(g, cpu, pmr)
    ensures Highest(g, cpu, pmr).Some? ==> IsHighest(g, cpu, pmr, Highest(g, cpu, pmr).value)
    ensures forall x: nat | IsHighest(g, cpu, pmr, x) :: Highest(g, cpu, pmr) == Some(x)
  {
    BestOfIsHighest(g, cpu, pmr, INTIDS);
  }

  /** That is: pending, enabled and under the mask, with the least priority value among these, and among equals the
      least number. */
  lemma LowestWins(g: Gic, cpu: nat, pmr: u8, x: nat)
    requires Wf(g)
    ensures Highest(g, cpu, pmr) == Some(x) <==>
            && Candidate(g, cpu, x, pmr)
            && forall y: nat | Candidate(g, cpu, y, pmr) ::
                 At(g, cpu, x).prio < At(g, cpu, y).prio || (At(g, cpu, x).prio == At(g, cpu, y).prio && x <= y)
  {
    hide At, Highest;
    HighestIsHighest(g, cpu, pmr);
  }

  // ----- what software-generated interrupts and bank writes reach -----

  lemma {:induction false} PendOnReaches(g: Gic, intid: nat, targets: set<nat>, n: nat, c: nat, y: nat)
    requires Wf(g) && n <= |g.locals| && c < |g.locals| && y < INTIDS && intid < LOCALS
    ensures At(PendOn(g, intid, targets, n), c, y)
            == if y == intid && c < n && c in targets then At(g, c, y).(pending := true) else At(g, c, y)
  {
    if n > 0 {
      PendOnReaches(g, intid, targets, n - 1, c, y);
      SetBitAt(PendOn(g, intid, targets, n - 1), PendingBit, n - 1, intid, true, c, y);
    }
  }

  /** A request pends its interrupt on exactly the CPUs it names and touches nothing else. */
  lemma SendSgiReaches(g: Gic, source: nat, value: u64, c: nat, y: nat)
    requires Wf(g) && c < |g.locals| && y < INTIDS
    ensures At(SendSgi(g, source, value), c, y)
            == if y == SgiIntid(value) && SgiTargets(g, source, value, c)
               then At(g, c, y).(pending := true) else At(g, c, y)
  {
    var targets := set c | 0 <= c < |g.locals| && SgiTargets(g, source, value, c);
    PendOnReaches(g, SgiIntid(value), targets, |g.locals|, c, y);
  }

  /** A bank write sets the field of exactly the interrupts whose bits are set. */
  lemma {:induction false} SetRangeReaches(g: Gic, f: Field, cpu: nat, first: nat, bits: set<nat>, v: bool, n: nat,
                                           c: nat, y: nat)
    requires Wf(g) && c < |g.locals| && y < INTIDS
    ensures At(SetRange(g, f, cpu, first, bits, v, n), c, y)
            == if first <= y < first + n && y - first in bits && Same(g, cpu, y, c, y)
               then PutField(At(g, c, y), f, v) else At(g, c, y)
  {
    hide At, SetBit, PutField, Wf;
    if n > 0 {
      SetRangeReaches(g, f, cpu, first, bits, v, n - 1, c, y);
      SetBitAt(SetRange(g, f, cpu, first, bits, v, n - 1), f, cpu, first + n - 1, v, c, y);
    }
  }

  // ----- acknowledging drains the candidates in order -----

  lemma TakeInterruptAt(g: Gic, cpu: nat, x: nat, c: nat, y: nat)
    requires Wf(g) && x < INTIDS && y < INTIDS
    ensures At(TakeInterrupt(g, cpu, x), c, y)
            == if Same(g, cpu, x, c, y) then At(g, c, y).(pending := false, active := true) else At(g, c, y)
  {
    var h := SetBit(g, PendingBit, cpu, x, false);
    SetBitAt(g, PendingBit, cpu, x, false, c, y);
    SetBitAt(h, ActiveBit, cpu, x, true, c, y);
  }

  /** Acknowledging removes exactly the acknowledged candidate and leaves every priority alone. */
  lemma AckRemovesOne(g: Gic, cpu: nat, pmr: u8, x: nat, y: nat)
    requires Wf(g) && Highest(g, cpu, pmr) == Some(x) && y < INTIDS
    ensures Candidate(Acknowledge(g, cpu, pmr), cpu, y, pmr) <==> Candidate(g, cpu, y, pmr) && y != x
    ensures At(Acknowledge(g, cpu, pmr), cpu, y).prio == At(g, cpu, y).prio
  {
    TakeInterruptAt(g, cpu, x, cpu, y);
  }

  function Count(g: Gic, cpu: nat, pmr: u8, n: nat): nat
    requires Wf(g) && n <= INTIDS
  {
    if n == 0 then 0 else Count(g, cpu, pmr, n - 1) + if Candidate(g, cpu, n - 1, pmr) then 1 else 0
  }

  lemma {:induction false} AckLowersCount(g: Gic, cpu: nat, pmr: u8, x: nat, n: nat)
    requires Wf(g) && Highest(g, cpu, pmr) == Some(x) && n <= INTIDS
    ensures Count(Acknowledge(g, cpu, pmr), cpu, pmr, n) == Count(g, cpu, pmr, n) - if x < n then 1 else 0
  {
    if n > 0 {
      AckLowersCount(g, cpu, pmr, x, n - 1);
      AckRemovesOne(g, cpu, pmr, x, n - 1);
    }
  }

  /** The INTIDs that repeated acknowledgements return, with nothing new arriving. */
  function Drain(g: Gic, cpu: nat, pmr: u8): seq<nat>
    requires Wf(g)
    decreases Count(g, cpu, pmr, INTIDS)
  {
    match Highest(g, cpu, pmr)
    case None => []
    case Some(x) =>
      AckLowersCount(g, cpu, pmr, x, INTIDS);
      [x] + Drain(Acknowledge(g, cpu, pmr), cpu, pmr)
  }

  function Drained(g: Gic, cpu: nat, pmr: u8): (r: Gic)
    requires Wf(g)
    ensures Wf(r)
    decreases Count(g, cpu, pmr, INTIDS)
  {
    match Highest(g, cpu, pmr)
    case None => g
    case Some(x) =>
      AckLowersCount(g, cpu, pmr, x, INTIDS);
      Drained(Acknowledge(g, cpu, pmr), cpu, pmr)
  }

  /** Repeated acknowledgement returns every candidate exactly once, in strictly increasing (priority, INTID)
      order, and then reports that nothing is pending. */
  lemma {:induction false} DrainInOrder(g: Gic, cpu: nat, pmr: u8)
    requires Wf(g)
    ensures forall x: nat :: x in Drain(g, cpu, pmr) <==> Candidate(g, cpu, x, pmr)
    ensures forall i, j | 0 <= i < j < |Drain(g, cpu, pmr)| ::
              Candidate(g, cpu, Drain(g, cpu, pmr)[i], pmr) && Candidate(g, cpu, Drain(g, cpu, pmr)[j], pmr)
              && Before(g, cpu, Drain(g, cpu, pmr)[i], Drain(g, cpu, pmr)[j])
    ensures Highest(Drained(g, cpu, pmr), cpu, pmr) == None
    decreases Count(g, cpu, pmr, INTIDS)
  {
    hide At, Acknowledge, Count;
    HighestIsHighest(g, cpu, pmr);
    if Highest(g, cpu, pmr).Some? {
      var x := Highest(g, cpu, pmr).value;
      var h := Acknowledge(g, cpu, pmr);
      AckLowersCount(g, cpu, pmr, x, INTIDS);
      DrainInOrder(h, cpu, pmr);
      var rest := Drain(h, cpu, pmr);
      assert Drain(g, cpu, pmr) == [x] + rest;
      forall y: nat ensures y in rest <==> Candidate(g, cpu, y, pmr) && y != x {
        if y < INTIDS { AckRemovesOne(g, cpu, pmr, x, y); }
      }
      forall i, j | 0 <= i < j < |rest|
        ensures Candidate(g, cpu, rest[i], pmr) && Candidate(g, cpu, rest[j], pmr) && Before(g, cpu, rest[i], rest[j])
      {
        assert rest[i] in rest && rest[j] in rest;
        AckRemovesOne(g, cpu, pmr, x, rest[i]);
        AckRemovesOne(g, cpu, pmr, x, rest[j]);
      }
      forall j | 0 <= j < |rest| ensures Candidate(g, cpu, rest[j], pmr) && Before(g, cpu, x, rest[j]) {
        assert rest[j] in rest;
      }
    } else {
      assert Drain(g, cpu, pmr) == [];
      forall x: nat ensures !Candidate(g, cpu, x, pmr) {}
    }
  }

  // ----- a shared interrupt is not handed out twice -----

  /** The interrupt an operation hands to a CPU, if any. */
  function HandedOut(g: Gic, op: Op): Option<nat>
    requires Wf(g)
  {
    if op.AckOp? then Highest(g, op.cpu, op.pmr) else None
  }

  /** The k-th operation of the run pends shared interrupt x. */
  predicate Repends(states: seq<Gic>, k: nat, x: nat)
    requires k + 1 < |states| && Wf(states[k]) && Wf(states[k + 1]) && LOCALS <= x < INTIDS
  {
    !At(states[k], 0, x).pending && At(states[k + 1], 0, x).pending
  }

  /** Whatever CPUs acknowledge and in whatever interleaving, between two hand-outs of the same shared
      interrupt some operation must have pended it again. */
  lemma NoDoubleHandOut(states: seq<Gic>, ops: seq<Op>, i: nat, j: nat, x: nat)
    requires IsRun(states, ops) && i < j < |ops| && LOCALS <= x < INTIDS
    requires HandedOut(states[i], ops[i]) == Some(x)
    requires HandedOut(states[j], ops[j]) == Some(x)
    ensures exists k | i < k < j :: Repends(states, k, x)
  {
    assert StepsTo(states[i], ops[i], states[i + 1]);
    TakeInterruptAt(states[i], ops[i].cpu, x, 0, x);
    assert At(states[j], ops[j].cpu, x) == At(states[j], 0, x);
    var k := FirstRise(states, i + 1, j, x);
  }

  lemma {:induction false} FirstRise(states: seq<Gic>, lo: nat, hi: nat, x: nat) returns (k: nat)
    requires lo <= hi < |states| && LOCALS <= x < INTIDS
    requires forall n | 0 <= n < |states| :: Wf(states[n])
    requires !At(states[lo], 0, x).pending && At(states[hi], 0, x).pending
    ensures lo <= k < hi && Repends(states, k, x)
    decreases hi - lo
  {
    if At(states[hi - 1], 0, x).pending {
      k := FirstRise(states, lo, hi - 1, x);
    } else {
      k := hi - 1;
    }
  }

  // ----- interrupt lines -----

  /** Lines are moved by level operations alone. */
  ghost predicate SameLines(g: Gic, h: Gic)
    requires Wf(g) && Wf(h)
  {
    && |g.locals| == |h.locals|
    && g.line == h.line
    && forall c | 0 <= c < |g.locals| :: g.locals[c].line == h.locals[c].line
  }

  lemma SetBitKeepsLines(g: Gic, f: Field, cpu: nat, intid: nat, v: bool)
    requires Wf(g)
    ensures SameLines(g, SetBit(g, f, cpu, intid, v))
  {
  }

  lemma {:induction false} SetRangeKeepsLines(g: Gic, f: Field, cpu: nat, first: nat, bits: set<nat>, v: bool, n: nat)
    requires Wf(g)
    ensures SameLines(g, SetRange(g, f, cpu, first, bits, v, n))
  {
    if n > 0 {
      SetRangeKeepsLines(g, f, cpu, first, bits, v, n - 1);
      SetBitKeepsLines(SetRange(g, f, cpu, first, bits, v, n - 1), f, cpu, first + n - 1, v);
    }
  }

  lemma {:induction false} PendOnKeepsLines(g: Gic, intid: nat, targets: set<nat>, n: nat)
    requires Wf(g)
    ensures SameLines(g, PendOn(g, intid, targets, n))
  {
    if n > 0 {
      PendOnKeepsLines(g, intid, targets, n - 1);
      SetBitKeepsLines(PendOn(g, intid, targets, n - 1), PendingBit, n - 1, intid, true);
    }
  }

  lemma {:induction false} SetPrioritiesKeepsLines(g: Gic, local: bool, cpu: nat, first: nat, value: u32, n: nat)
    requires Wf(g)
    ensures SameLines(g, SetPriorities(g, local, cpu, first, value, n))
  {
    if n > 0 { SetPrioritiesKeepsLines(g, local, cpu, first, value, n - 1); }
  }

  lemma OtherOpsKeepLines(g: Gic, op: Op)
    requires Wf(g) && !op.LevelOp?
    ensures SameLines(g, Apply(g, op))
  {
    match op
    case PendOp(cpu, intid) => SetBitKeepsLines(g, PendingBit, cpu, intid, true);
    case SgiOp(source, value) =>
      var targets := set c | 0 <= c < |g.locals| && SgiTargets(g, source, value, c);
      PendOnKeepsLines(g, SgiIntid(value), targets, |g.locals|);
    case AckOp(cpu, pmr) =>
      if Highest(g, cpu, pmr).Some? {
        var x := Highest(g, cpu, pmr).value;
        SetBitKeepsLines(g, PendingBit, cpu, x, false);
        SetBitKeepsLines(SetBit(g, PendingBit, cpu, x, false), ActiveBit, cpu, x, true);
      }
    case EoiOp(cpu, intid) =>
      SetBitKeepsLines(g, ActiveBit, cpu, intid, false);
      SetBitKeepsLines(SetBit(g, ActiveBit, cpu, intid, false), PendingBit, cpu, intid, true);
    case AffinityOp(cpu, mpidr) =>
    case DistOp(offset, word) => DistKeepsLines(g, offset, word);
    case RedistOp(offset, word) => RedistKeepsLines(g, offset, word);
  }

  lemma DistKeepsLines(g: Gic, offset: nat, word: u32)
    requires Wf(g)
    ensures SameLines(g, WriteDist(g, offset, word))
  {
    if 0x100 <= offset < 0x180 { SetRangeKeepsLines(g, EnabledBit, 0, (offset - 0x100) / 4 * 32, BitsOf(word), true, 32); }
    else if 0x180 <= offset < 0x200 { SetRangeKeepsLines(g, EnabledBit, 0, (offset - 0x180) / 4 * 32, BitsOf(word), false, 32); }
    else if 0x300 <= offset < 0x380 { SetRangeKeepsLines(g, ActiveBit, 0, (offset - 0x300) / 4 * 32, BitsOf(word), true, 32); }
    else if 0x380 <= offset < 0x400 { SetRangeKeepsLines(g, ActiveBit, 0, (offset - 0x380) / 4 * 32, BitsOf(word), false, 32); }
    else if 0x400 <= offset < 0x400 + INTIDS { SetPrioritiesKeepsLines(g, false, 0, offset - 0x400, word, 4); }
  }

  lemma RedistKeepsLines(g: Gic, offset: nat, word: u32)
    requires Wf(g)
    ensures SameLines(g, WriteRedist(g, offset, word))
  {
    if offset >= REDIST_BASE && (offset - REDIST_BASE) / FRAME_SIZE < |g.locals| {
      var c := (offset - REDIST_BASE) / FRAME_SIZE;
      var inner := (offset - REDIST_BASE) % FRAME_SIZE;
      if inner == 0x1_0100 { SetRangeKeepsLines(g, EnabledBit, c, 0, BitsOf(word), true, 32); }
      else if inner == 0x1_0180 { SetRangeKeepsLines(g, EnabledBit, c, 0, BitsOf(word), false, 32); }
      else if inner == 0x1_0200 { SetRangeKeepsLines(g, PendingBit, c, 0, BitsOf(word), true, 32); }
      else if inner == 0x1_0280 { SetRangeKeepsLines(g, PendingBit, c, 0, BitsOf(word), false, 32); }
      else if inner == 0x1_0300 { SetRangeKeepsLines(g, ActiveBit, c, 0, BitsOf(word), true, 32); }
      else if inner == 0x1_0380 { SetRangeKeepsLines(g, ActiveBit, c, 0, BitsOf(word), false, 32); }
      else if 0x1_0400 <= inner < 0x1_0400 + LOCALS {
        SetPrioritiesKeepsLines(g, true, c, inner - 0x1_0400, word, 4);
      }
    }
  }

  /** A level operation sets exactly the line it names, and is no change at all if the line is already there. */
  lemma SetLevelMovesOneLine(g: Gic, cpu: nat, intid: nat, v: bool, c: nat, y: nat)
    requires Wf(g) && intid < INTIDS && y < INTIDS
    ensures At(SetLevel(g, cpu, intid, v), c, y).line == if Same(g, cpu, intid, c, y) then v else At(g, c, y).line
    ensures At(g, cpu, intid).line == v ==> SetLevel(g, cpu, intid, v) == g
  {
    var raised := PutLine(g, cpu, intid, v);
    PutLineAt(g, cpu, intid, v, c, y);
    SetBitAt(raised, PendingBit, cpu, intid, true, c, y);
  }

  // ----- no level interrupt is lost -----

  /** An asserted line whose interrupt is not active is pending. */
  ghost predicate LevelsHeld(g: Gic)
    requires Wf(g)
  {
    forall c: nat, x: nat | c < |g.locals| && x < INTIDS :: Held(At(g, c, x))
  }

  predicate Held(i: Interrupt) { i.line && !i.active ==> i.pending }

  /** Writes that clear pending or active bits by hand are outside the promise. */
  predicate ClearsByHand(op: Op) {
    || (op.DistOp? && 0x380 <= op.offset < 0x400)
    || (op.RedistOp? && op.offset >= REDIST_BASE && (op.offset - REDIST_BASE) % FRAME_SIZE in {0x1_0280, 0x1_0380})
  }

  lemma SetBitKeepsHeld(g: Gic, f: Field, cpu: nat, intid: nat, v: bool)
    requires Wf(g) && LevelsHeld(g)
    requires (f == PendingBit || f == ActiveBit) ==> v
    ensures LevelsHeld(SetBit(g, f, cpu, intid, v))
  {
    var h := SetBit(g, f, cpu, intid, v);
    forall c: nat, x: nat | c < |h.locals| && x < INTIDS ensures Held(At(h, c, x)) {
      SetBitAt(g, f, cpu, intid, v, c, x);
      assert Held(At(g, c, x));
    }
  }

  lemma {:induction false} SetRangeKeepsHeld(g: Gic, f: Field, cpu: nat, first: nat, bits: set<nat>, v: bool, n: nat)
    requires Wf(g) && LevelsHeld(g)
    requires (f == PendingBit || f == ActiveBit) ==> v
    ensures LevelsHeld(SetRange(g, f, cpu, first, bits, v, n))
  {
    if n > 0 {
      SetRangeKeepsHeld(g, f, cpu, first, bits, v, n - 1);
      SetBitKeepsHeld(SetRange(g, f, cpu, first, bits, v, n - 1), f, cpu, first + n - 1, v);
    }
  }

  lemma SetLevelKeepsHeld(g: Gic, cpu: nat, intid: nat, asserted: bool)
    requires Wf(g) && LevelsHeld(g)
    ensures LevelsHeld(SetLevel(g, cpu, intid, asserted))
  {
    if intid < INTIDS {
      var raised, h := PutLine(g, cpu, intid, asserted), SetLevel(g, cpu, intid, asserted);
      forall c: nat, x: nat | c < |h.locals| && x < INTIDS ensures Held(At(h, c, x)) {
        assert Held(At(g, c, x));
        PutLineAt(g, cpu, intid, asserted, c, x);
        SetBitAt(raised, PendingBit, cpu, intid, true, c, x);
        assert Same(g, cpu, intid, c, x) ==> At(g, c, x) == At(g, cpu, intid);
      }
    }
  }

  lemma EoiKeepsHeld(g: Gic, cpu: nat, intid: nat)
    requires Wf(g) && LevelsHeld(g)
    ensures LevelsHeld(Eoi(g, cpu, intid))
  {
    if intid < INTIDS {
      var done, h := SetBit(g, ActiveBit, cpu, intid, false), Eoi(g, cpu, intid);
      forall c: nat, x: nat | c < |h.locals| && x < INTIDS ensures Held(At(h, c, x)) {
        assert Held(At(g, c, x));
        SetBitAt(g, ActiveBit, cpu, intid, false, c, x);
        SetBitAt(done, PendingBit, cpu, intid, true, c, x);
        assert Same(g, cpu, intid, c, x) ==> At(g, c, x) == At(g, cpu, intid);
      }
    }
  }

  lemma AckKeepsHeld(g: Gic, cpu: nat, pmr: u8)
    requires Wf(g) && LevelsHeld(g)
    ensures LevelsHeld(Acknowledge(g, cpu, pmr))
  {
    var h := Acknowledge(g, cpu, pmr);
    if Highest(g, cpu, pmr).Some? {
      forall c: nat, x: nat | c < |h.locals| && x < INTIDS ensures Held(At(h, c, x)) {
        assert Held(At(g, c, x));
        TakeInterruptAt(g, cpu, Highest(g, cpu, pmr).value, c, x);
      }
    }
  }

  lemma {:induction false} PendOnKeepsHeld(g: Gic, intid: nat, targets: set<nat>, n: nat)
    requires Wf(g) && LevelsHeld(g)
    ensures LevelsHeld(PendOn(g, intid, targets, n))
  {
    if n > 0 {
      PendOnKeepsHeld(g, intid, targets, n - 1);
      SetBitKeepsHeld(PendOn(g, intid, targets, n - 1), PendingBit, n - 1, intid, true);
    }
  }

  lemma PutPriorityKeepsHeld(g: Gic, cpu: nat, intid: nat, p: u8)
    requires Wf(g) && LevelsHeld(g)
    ensures LevelsHeld(PutPriority(g, cpu, intid, p))
  {
    hide At, PutPriority;
    var h := PutPriority(g, cpu, intid, p);
    forall c: nat, x: nat | c < |h.locals| && x < INTIDS ensures Held(At(h, c, x)) {
      assert Held(At(g, c, x));
      PutPriorityAt(g, cpu, intid, p, c, x);
    }
  }

  /** Nothing but priorities changes. */
  lemma PutPriorityAt(g: Gic, cpu: nat, intid: nat, p: u8, c: nat, x: nat)
    requires Wf(g) && c < |g.locals| && x < INTIDS
    ensures At(PutPriority(g, cpu, intid, p), c, x).(prio := 0) == At(g, c, x).(prio := 0)
  {
    if intid < LOCALS { PutLocalPriorityAt(g, cpu, intid, p, c, x); }
  }

  lemma PutLocalPriorityAt(g: Gic, cpu: nat, intid: nat, p: u8, c: nat, x: nat)
    requires Wf(g) && c < |g.locals| && x < INTIDS && intid < LOCALS
    ensures At(PutPriority(g, cpu, intid, p), c, x).(prio := 0) == At(g, c, x).(prio := 0)
  {
  }

  lemma {:induction false} SetPrioritiesKeepsHeld(g: Gic, local: bool, cpu: nat, first: nat, value: u32, n: nat)
    requires Wf(g) && LevelsHeld(g)
    ensures LevelsHeld(SetPriorities(g, local, cpu, first, value, n))
  {
    if n > 0 {
      SetPrioritiesKeepsHeld(g, local, cpu, first, value, n - 1);
      PutPriorityKeepsHeld(SetPriorities(g, local, cpu, first, value, n - 1), cpu, first + n - 1, Byte(value, n - 1));
    }
  }

  lemma OtherFieldsKeepHeld(g: Gic, h: Gic)
    requires Wf(g) && Wf(h) && LevelsHeld(g) && |h.locals| == |g.locals|
    requires h.line == g.line && h.active == g.active && h.pending == g.pending
    requires forall c | 0 <= c < |g.locals| ::
               h.locals[c].line == g.locals[c].line
               && h.locals[c].active == g.locals[c].active
               && h.locals[c].pending == g.locals[c].pending
    ensures LevelsHeld(h)
  {
    forall c: nat, x: nat | c < |h.locals| && x < INTIDS ensures Held(At(h, c, x)) {
      assert Held(At(g, c, x));
    }
  }

  lemma DistKeepsHeld(g: Gic, offset: nat, word: u32)
    requires Wf(g) && LevelsHeld(g) && !(0x380 <= offset < 0x400)
    ensures LevelsHeld(WriteDist(g, offset, word))
  {
    if offset == 0 {
      OtherFieldsKeepHeld(g, WriteDist(g, offset, word));
    } else if 0x100 <= offset < 0x180 {
      SetRangeKeepsHeld(g, EnabledBit, 0, (offset - 0x100) / 4 * 32, BitsOf(word), true, 32);
    } else if 0x180 <= offset < 0x200 {
      SetRangeKeepsHeld(g, EnabledBit, 0, (offset - 0x180) / 4 * 32, BitsOf(word), false, 32);
    } else if 0x300 <= offset < 0x380 {
      SetRangeKeepsHeld(g, ActiveBit, 0, (offset - 0x300) / 4 * 32, BitsOf(word), true, 32);
    } else if 0x400 <= offset < 0x400 + INTIDS {
      SetPrioritiesKeepsHeld(g, false, 0, offset - 0x400, word, 4);
      OtherFieldsKeepHeld(SetPriorities(g, false, 0, offset - 0x400, word, 4), WriteDist(g, offset, word));
    }
  }

  lemma RedistKeepsHeld(g: Gic, offset: nat, word: u32)
    requires Wf(g) && LevelsHeld(g) && !ClearsByHand(RedistOp(offset, word))
    ensures LevelsHeld(WriteRedist(g, offset, word))
  {
    if offset >= REDIST_BASE && (offset - REDIST_BASE) / FRAME_SIZE < |g.locals| {
      var c := (offset - REDIST_BASE) / FRAME_SIZE;
      var inner := (offset - REDIST_BASE) % FRAME_SIZE;
      if inner == 0x1_0100 { SetRangeKeepsHeld(g, EnabledBit, c, 0, BitsOf(word), true, 32); }
      else if inner == 0x1_0180 { SetRangeKeepsHeld(g, EnabledBit, c, 0, BitsOf(word), false, 32); }
      else if inner == 0x1_0200 { SetRangeKeepsHeld(g, PendingBit, c, 0, BitsOf(word), true, 32); }
      else if inner == 0x1_0300 { SetRangeKeepsHeld(g, ActiveBit, c, 0, BitsOf(word), true, 32); }
      else if 0x1_0400 <= inner < 0x1_0400 + LOCALS {
        SetPrioritiesKeepsHeld(g, true, c, inner - 0x1_0400, word, 4);
        OtherFieldsKeepHeld(SetPriorities(g, true, c, inner - 0x1_0400, word, 4), WriteRedist(g, offset, word));
      } else {
        OtherFieldsKeepHeld(g, WriteRedist(g, offset, word));
      }
    }
  }

  lemma StepKeepsHeld(g: Gic, op: Op)
    requires Wf(g) && LevelsHeld(g) && !ClearsByHand(op)
    ensures LevelsHeld(Apply(g, op))
  {
    match op
    case LevelOp(cpu, intid, asserted) => SetLevelKeepsHeld(g, cpu, intid, asserted);
    case PendOp(cpu, intid) => SetBitKeepsHeld(g, PendingBit, cpu, intid, true);
    case SgiOp(source, value) =>
      var targets := set c | 0 <= c < |g.locals| && SgiTargets(g, source, value, c);
      PendOnKeepsHeld(g, SgiIntid(value), targets, |g.locals|);
    case AckOp(cpu, pmr) => AckKeepsHeld(g, cpu, pmr);
    case EoiOp(cpu, intid) => EoiKeepsHeld(g, cpu, intid);
    case AffinityOp(cpu, mpidr) => OtherFieldsKeepHeld(g, Apply(g, op));
    case DistOp(offset, word) => DistKeepsHeld(g, offset, word);
    case RedistOp(offset, word) => RedistKeepsHeld(g, offset, word);
  }

  /** No level interrupt is lost in any run that does not clear pending or active bits by hand. */
  lemma {:induction false} NoLevelInterruptLost(states: seq<Gic>, ops: seq<Op>, n: nat)
    requires IsRun(states, ops) && n <= |ops| && LevelsHeld(states[0])
    requires forall k | 0 <= k < |ops| :: !ClearsByHand(ops[k])
    ensures LevelsHeld(states[n])
  {
    hide Apply, LevelsHeld, ClearsByHand;
    if n > 0 {
      NoLevelInterruptLost(states, ops, n - 1);
      assert StepsTo(states[n - 1], ops[n - 1], states[n - 1 + 1]);
      StepKeepsHeld(states[n - 1], ops[n - 1]);
    }
  }

  /** The promise holds from the start. */
  lemma LevelsHeldInitially(cpus: nat)
    requires cpus > 0
    ensures LevelsHeld(Initial(cpus))
  {
  }

  /** Whether clearing this bit of an interrupt loses its level: the line is up, and afterwards the interrupt is
      neither active nor pending. */
  predicate Loses(i: Interrupt, f: Field) {
    match f
    case PendingBit => i.line && !i.active
    case ActiveBit => i.line && i.active && !i.pending
    case EnabledBit => false
  }

  /** Clearing up to n bits by hand, as one register write does, loses a level interrupt exactly when one of the
      interrupts it names is lost by it. */
  lemma ClearRangeLosesLevelIff(g: Gic, f: Field, cpu: nat, first: nat, bits: set<nat>, n: nat)
    requires Wf(g) && LevelsHeld(g) && cpu < |g.locals|
    ensures LevelsHeld(SetRange(g, f, cpu, first, bits, false, n)) <==>
            forall y: nat | first <= y < first + n && y < INTIDS && y - first in bits :: !Loses(At(g, cpu, y), f)
  {
    hide SetRange, At;
    var h := SetRange(g, f, cpu, first, bits, false, n);
    forall c: nat, y: nat | c < |h.locals| && y < INTIDS
      ensures At(h, c, y) == if first <= y < first + n && y - first in bits && Same(g, cpu, y, c, y)
                             then PutField(At(g, c, y), f, false) else At(g, c, y)
    {
      SetRangeReaches(g, f, cpu, first, bits, false, n, c, y);
    }
    forall c: nat, y: nat | c < |g.locals| && y < INTIDS && Same(g, cpu, y, c, y) ensures At(g, c, y) == At(g, cpu, y) {
      SameIsOne(g, cpu, c, y);
    }
    forall c: nat, y: nat | c < |g.locals| && y < INTIDS
      ensures Held(PutField(At(g, c, y), f, false)) <==> !Loses(At(g, c, y), f)
    {
      assert Held(At(g, c, y));
    }
    if LevelsHeld(h) {
      forall y: nat | first <= y < first + n && y < INTIDS && y - first in bits ensures !Loses(At(g, cpu, y), f) {
        assert Held(At(h, cpu, y));
      }
    }
  }

  lemma SameIsOne(g: Gic, cpu: nat, c: nat, y: nat)
    requires Wf(g) && cpu < |g.locals| && c < |g.locals| && y < INTIDS && Same(g, cpu, y, c, y)
    ensures At(g, c, y) == At(g, cpu, y)
  {
  }

  /** The write to a bank of the distributor's clear-active registers. */
  lemma ClearActiveLosesLevelIff(g: Gic, offset: nat, value: u32)
    requires Wf(g) && LevelsHeld(g) && 0x384 <= offset < 0x400
    ensures var first := (offset - 0x380) / 4 * 32;
      LevelsHeld(WriteDist(g, offset, value)) <==>
      forall y: nat | first <= y < first + 32 && y < INTIDS && y - first in BitsOf(value) ::
        !(At(g, 0, y).line && At(g, 0, y).active && !At(g, 0, y).pending)
  {
    hide SetRange, At, BitsOf, LevelsHeld, SetPriorities;
    ClearRangeLosesLevelIff(g, ActiveBit, 0, (offset - 0x380) / 4 * 32, BitsOf(value), 32);
  }
}
