/** What the prediction promises: exactness, a deadline that stays put, and ticks that may be skipped. */
module TimerTheorems {
  import opened Words
  import opened TimerSpec

  // ----- synchronising shows exactly what is due -----

  lemma SyncShowsWhatIsDue(tm: Timer, cpu: nat, t: u64, host: u64)
    requires tm.mode == GuestStep && cpu < |tm.cpus|
    ensures Pending(SyncTo(tm, t, host), cpu) <==> DueAt(tm, cpu, t)
  {
    var s := Sources(tm, cpu);
    var c := GuestCounter(tm, t);
    assert DueAt(tm, cpu, t) <==> tm.mmioPending || Due(s[0], c) || Due(s[1], c) || Due(s[2], c);
  }

  /** Synchronising does not bend the counter: later readings are what they would have been. */
  lemma SyncKeepsCounter(tm: Timer, t: u64, host: u64, s: int)
    requires tm.mode == GuestStep
    ensures GuestCounter(SyncTo(tm, t, host), s) == GuestCounter(tm, s)
  {
    GuestCounterAdvance(tm, t, s - t);
    assert t + (s - t) == s;
  }

  // ----- the prediction for one CPU -----

  lemma CpuStepsIsLeastNeed(tm: Timer, cpu: nat, t: u64, cap: u64, k: nat)
    requires cpu < |tm.cpus| && k < 3
    ensures CpuSteps(tm, cpu, t, cap) <= Need(Sources(tm, cpu)[k], GuestCounter(tm, t), tm.cps, cap)
    ensures CpuSteps(tm, cpu, t, cap) > 0 ==> !Pending(tm, cpu)
  {
  }

  lemma NothingDueBefore(tm: Timer, cpu: nat, t: u64, cap: u64, j: nat)
    requires cpu < |tm.cpus| && j < CpuSteps(tm, cpu, t, cap)
    ensures !DueAt(tm, cpu, t + j)
  {
    GuestCounterAdvance(tm, t, j);
    forall k | 0 <= k < 3 ensures !Due(Sources(tm, cpu)[k], GuestCounter(tm, t + j)) {
      CpuStepsIsLeastNeed(tm, cpu, t, cap, k);
      NotDueBefore(Sources(tm, cpu)[k], GuestCounter(tm, t), tm.cps, cap, j);
    }
  }

  /** At the predicted tick an interrupt is up exactly when a source asking for that tick fits into 64 bits. */
  lemma DueAtPrediction(tm: Timer, cpu: nat, t: u64, cap: u64)
    requires cpu < |tm.cpus| && CpuSteps(tm, cpu, t, cap) < cap
    ensures var r := CpuSteps(tm, cpu, t, cap);
            DueAt(tm, cpu, t + r) <==> tm.mmioPending || FittingSourceAt(tm, cpu, t, cap, r)
  {
    var r := CpuSteps(tm, cpu, t, cap);
    var c := GuestCounter(tm, t);
    GuestCounterAdvance(tm, t, r);
    forall k | 0 <= k < 3
      ensures var s := Sources(tm, cpu)[k];
              Due(s, GuestCounter(tm, t + r)) <==> s.armed && Need(s, c, tm.cps, cap) == r && Fits(s, c, tm.cps)
    {
      var s := Sources(tm, cpu)[k];
      CpuStepsIsLeastNeed(tm, cpu, t, cap, k);
      if s.armed {
        var n := Need(s, c, tm.cps, cap);
        if r < n { NotDueBefore(s, c, tm.cps, cap, r); } else { DueAtNeed(s, c, tm.cps, cap); }
      }
    }
  }

  /** With one counter cycle per tick, the default, every armed source fits. */
  lemma UnitScaleFits(src: Source, current: u64)
    ensures Fits(src, current, 1)
  {
    if current < src.at { CeilBounds(src.at - current, 1); }
  }

  /** The prediction for one CPU, in terms of what synchronising shows: nothing before the predicted tick,
      and at that tick an interrupt iff some source fits. */
  lemma PredictionExact(tm: Timer, cpu: nat, t: u64, cap: u64, host: u64)
    requires tm.mode == GuestStep && cpu < |tm.cpus| && t + cap < TWO64
    ensures forall u: u64 | t <= u < t + CpuSteps(tm, cpu, t, cap) :: !Pending(SyncTo(tm, u, host), cpu)
    ensures var r := CpuSteps(tm, cpu, t, cap);
            r < cap ==> (Pending(SyncTo(tm, t + r, host), cpu)
                         <==> tm.mmioPending || FittingSourceAt(tm, cpu, t, cap, r))
  {
    var r := CpuSteps(tm, cpu, t, cap);
    forall u: u64 | t <= u < t + r ensures !Pending(SyncTo(tm, u, host), cpu) {
      NothingDueBefore(tm, cpu, t, cap, u - t);
      SyncShowsWhatIsDue(tm, cpu, u, host);
    }
    if r < cap {
      DueAtPrediction(tm, cpu, t, cap);
      SyncShowsWhatIsDue(tm, cpu, t + r, host);
    }
  }

  /** In step mode at one cycle per tick, from a settled timer whose counter has not wrapped since its last
      synchronisation, the prediction is exact without further conditions. */
  lemma UnitScalePredictionExact(tm: Timer, cpu: nat, t: u64, cap: u64, host: u64)
    requires tm.mode == GuestStep && cpu < |tm.cpus| && t + cap < TWO64
    requires tm.cps == 1 && Settled(tm) && tm.anchor <= t && tm.counter + (t - tm.anchor) < TWO64
    ensures var r := CpuSteps(tm, cpu, t, cap);
            r < cap ==> Pending(SyncTo(tm, t + r, host), cpu)
  {
    var r := CpuSteps(tm, cpu, t, cap);
    var c := GuestCounter(tm, t);
    var s := Sources(tm, cpu);
    PredictionExact(tm, cpu, t, cap, host);
    if r < cap && !tm.mmioPending {
      assert UpdateIrq(tm).cpus[cpu] == UpdateCpu(tm.cpus[cpu], tm.counter);
      var k := if tm.cpus[cpu].cntv.irqPending then 1 else if tm.cpus[cpu].cntp.irqPending then 2
               else if Need(s[0], c, 1, cap) == r then 0 else if Need(s[1], c, 1, cap) == r then 1 else 2;
      UnitScaleFits(s[k], c);
      assert s[k].armed && Need(s[k], c, 1, cap) == r;
      assert FittingSourceAt(tm, cpu, t, cap, r);
    }
  }

  /** The condition is real: with three cycles per tick and a compare value at the top of the range, the
      prediction says "now" although nothing is due. */
  lemma WideScaleMispredicts(host: u64)
    ensures var ch := Channel(TWO64 - 1, true, false, false, false);
            var tm := Timer([CpuTimer(ch, ResetChannel)], 0, 0, 3, GuestStep, 0, 0, false, false, false);
            Settled(tm) && CpuSteps(tm, 0, 0, NO_DEADLINE) == 0 && !Pending(SyncTo(tm, 0, host), 0)
  {
    var ch := Channel(TWO64 - 1, true, false, false, false);
    var tm := Timer([CpuTimer(ch, ResetChannel)], 0, 0, 3, GuestStep, 0, 0, false, false, false);
    assert UpdateIrq(tm).cpus == tm.cpus;
    OverflowPredictsNow(ChannelSource(ch), 0, 3, NO_DEADLINE);
    assert Sources(tm, 0)[1] == ChannelSource(ch);
  }

  // ----- the prediction over all CPUs -----

  /** A smaller bound only clips the answer, so the loop may pass its running best down as the bound. */
  lemma SmallerCapClips(tm: Timer, cpu: nat, t: u64, cap: u64, best: u64)
    requires cpu < |tm.cpus| && best <= cap
    ensures CpuSteps(tm, cpu, t, best) == Min(best, CpuSteps(tm, cpu, t, cap))
  {
  }

  lemma {:induction false} LeastStepsIsMinimum(tm: Timer, n: nat, t: u64, cap: u64)
    requires n <= |tm.cpus|
    ensures forall i | 0 <= i < n :: LeastSteps(tm, n, t, cap) <= CpuSteps(tm, i, t, cap)
    ensures LeastSteps(tm, n, t, cap) == cap
            || exists i | 0 <= i < n :: LeastSteps(tm, n, t, cap) == CpuSteps(tm, i, t, cap)
  {
    if n > 0 { LeastStepsIsMinimum(tm, n - 1, t, cap); }
  }

  /** Once the running best is zero the remaining CPUs cannot change it, so the loop may stop. */
  lemma {:induction false} ZeroStays(tm: Timer, n: nat, m: nat, t: u64, cap: u64)
    requires n <= m <= |tm.cpus| && LeastSteps(tm, n, t, cap) == 0
    ensures LeastSteps(tm, m, t, cap) == 0
  {
    if n < m { ZeroStays(tm, n, m - 1, t, cap); }
  }

  /** No interrupt on any CPU before the predicted tick; in particular a prediction of `cap` promises
      silence for `cap` ticks. */
  lemma NothingDueBeforeAnywhere(tm: Timer, t: u64, cap: u64, j: nat, cpu: nat)
    requires tm.mode == GuestStep && cpu < |tm.cpus| && j < StepsUntilIrq(tm, t, cap)
    ensures !DueAt(tm, cpu, t + j)
  {
    LeastStepsIsMinimum(tm, |tm.cpus|, t, cap);
    NothingDueBefore(tm, cpu, t, cap, j);
  }

  // ----- the absolute deadline does not move -----

  lemma CpuStepsShrinks(tm: Timer, cpu: nat, t: u64, cap: u64, j: nat)
    requires cpu < |tm.cpus| && j <= CpuSteps(tm, cpu, t, cap) < cap && t + j < TWO64
    ensures CpuSteps(tm, cpu, t + j, cap) == CpuSteps(tm, cpu, t, cap) - j
  {
    var r := CpuSteps(tm, cpu, t, cap);
    var c := GuestCounter(tm, t);
    GuestCounterAdvance(tm, t, j);
    if r == 0 {
      assert t + j == t;
    } else {
      forall k | 0 <= k < 3
        ensures r - j <= Need(Sources(tm, cpu)[k], GuestCounter(tm, t + j), tm.cps, cap)
      {
        CpuStepsIsLeastNeed(tm, cpu, t, cap, k);
        NeedShrinksCapped(Sources(tm, cpu)[k], c, tm.cps, cap, j, r);
      }
      var s := Sources(tm, cpu);
      var k := if Need(s[0], c, tm.cps, cap) == r then 0 else if Need(s[1], c, tm.cps, cap) == r then 1 else 2;
      NeedShrinks(s[k], c, tm.cps, cap, j);
    }
  }

  lemma CpuStepsStaysAbove(tm: Timer, cpu: nat, t: u64, cap: u64, j: nat, r: nat)
    requires cpu < |tm.cpus| && j <= r < cap && r <= CpuSteps(tm, cpu, t, cap) && t + j < TWO64
    ensures r - j <= CpuSteps(tm, cpu, t + j, cap)
  {
    GuestCounterAdvance(tm, t, j);
    if r > 0 {
      forall k | 0 <= k < 3
        ensures r - j <= Need(Sources(tm, cpu)[k], GuestCounter(tm, t + j), tm.cps, cap)
      {
        CpuStepsIsLeastNeed(tm, cpu, t, cap, k);
        NeedShrinksCapped(Sources(tm, cpu)[k], GuestCounter(tm, t), tm.cps, cap, j, r);
      }
    }
  }

  /** The absolute deadline t + prediction stays where it is as t advances up to it, for every scale and
      even where the counter wraps. */
  lemma DeadlineStable(tm: Timer, t: u64, cap: u64, j: nat)
    requires j <= StepsUntilIrq(tm, t, cap) < cap && t + j < TWO64
    ensures t + j + StepsUntilIrq(tm, t + j, cap) == t + StepsUntilIrq(tm, t, cap)
  {
    var n := |tm.cpus|;
    var r := LeastSteps(tm, n, t, cap);
    LeastStepsIsMinimum(tm, n, t, cap);
    LeastStepsIsMinimum(tm, n, t + j, cap);
    var later: u64 := t + j;
    forall i | 0 <= i < n ensures r - j <= CpuSteps(tm, i, later, cap) {
      CpuStepsStaysAbove(tm, i, t, cap, j, r);
    }
    var i :| 0 <= i < n && r == CpuSteps(tm, i, t, cap);
    CpuStepsShrinks(tm, i, t, cap, j);
  }

  /** Where no deadline was in sight at t, a later prediction is out of sight but for the ticks that have passed. */
  lemma FarStaysFar(tm: Timer, t: u64, cap: u64, j: nat)
    requires StepsUntilIrq(tm, t, cap) == cap && j < cap && t + j < TWO64
    ensures StepsUntilIrq(tm, t + j, cap) >= cap - 1 - j
  {
    if tm.mode == GuestStep {
      var n := |tm.cpus|;
      var later: u64 := t + j;
      LeastStepsIsMinimum(tm, n, t, cap);
      LeastStepsIsMinimum(tm, n, later, cap);
      forall i | 0 <= i < n ensures cap - 1 - j <= CpuSteps(tm, i, later, cap) {
        CpuStepsStaysAbove(tm, i, t, cap, j, cap - 1);
      }
    }
  }

  /** Synchronising strictly before the deadline changes nothing the prediction looks at. */
  lemma EarlySyncOnlyMovesAnchor(tm: Timer, t: u64, cap: u64, j: nat, host: u64)
    requires tm.mode == GuestStep && j < StepsUntilIrq(tm, t, cap) && t + j < TWO64 && |tm.cpus| > 0
    ensures var s := SyncTo(tm, t + j, host);
            s == tm.(counter := GuestCounter(tm, t + j), anchor := t + j)
  {
    var s := SyncTo(tm, t + j, host);
    forall i | 0 <= i < |tm.cpus| ensures s.cpus[i] == tm.cpus[i] && !DueAt(tm, i, t + j) {
      NothingDueBeforeAnywhere(tm, t, cap, j, i);
      LeastStepsIsMinimum(tm, |tm.cpus|, t, cap);
      CpuStepsIsLeastNeed(tm, i, t, cap, 0);
      assert !Due(Sources(tm, i)[1], GuestCounter(tm, t + j)) && !Due(Sources(tm, i)[2], GuestCounter(tm, t + j));
    }
    assert s.cpus == tm.cpus;
    assert !DueAt(tm, 0, t + j) && !Due(Sources(tm, 0)[0], GuestCounter(tm, t + j));
  }

  lemma {:induction false} SyncedPredictionAgrees(tm: Timer, u: Timer, n: nat, t: u64, cap: u64)
    requires n <= |tm.cpus| && u.cpus == tm.cpus && u.cps == tm.cps && u.compare == tm.compare
    requires u.enabled == tm.enabled && u.mmioPending == tm.mmioPending && u.fired == tm.fired
    requires GuestCounter(u, t) == GuestCounter(tm, t)
    ensures LeastSteps(u, n, t, cap) == LeastSteps(tm, n, t, cap)
  {
    if n > 0 { SyncedPredictionAgrees(tm, u, n - 1, t, cap); }
  }

  /** A synchronisation anywhere up to the deadline leaves the deadline where it is. At the deadline itself
      the next prediction is "now": either the interrupt is up, or the counter skipped the source by wrapping
      and the prediction overflows. This is why two fast-forwards cannot follow each other. */
  lemma DeadlineSurvivesSync(tm: Timer, t: u64, cap: u64, j: nat, host: u64)
    requires tm.mode == GuestStep && 0 < StepsUntilIrq(tm, t, cap) < cap && t + cap < TWO64
    requires j <= StepsUntilIrq(tm, t, cap)
    ensures t + j + StepsUntilIrq(SyncTo(tm, t + j, host), t + j, cap) == t + StepsUntilIrq(tm, t, cap)
  {
    hide SyncTo, CpuSteps, GuestCounter, Need;
    var n := |tm.cpus|;
    var r := LeastSteps(tm, n, t, cap);
    LeastStepsIsMinimum(tm, n, t, cap);
    DeadlineStable(tm, t, cap, j);
    SyncKeepsCounter(tm, t + j, host, t + j);
    if j < r {
      EarlySyncOnlyMovesAnchor(tm, t, cap, j, host);
      SyncedPredictionAgrees(tm, SyncTo(tm, t + j, host), n, t + j, cap);
    } else {
      var i :| 0 <= i < n && r == CpuSteps(tm, i, t, cap);
      CpuStepsShrinks(tm, i, t, cap, j);
      CpuStepsIsLeastNeed(tm, i, t, cap, 0);
      ReachedDeadlineIsNow(tm, i, t + j, cap, host);
    }
  }

  lemma QuietSyncKeepsPrediction(tm: Timer, i: nat, d: u64, cap: u64, host: u64)
    requires tm.mode == GuestStep && i < |tm.cpus|
    requires !Pending(tm, i) && !Pending(SyncTo(tm, d, host), i)
    ensures CpuSteps(SyncTo(tm, d, host), i, d, cap) == CpuSteps(tm, i, d, cap)
  {
    var s := SyncTo(tm, d, host);
    SyncKeepsCounter(tm, d, host, d);
    assert s.fired == tm.fired;
    assert Sources(s, i) == Sources(tm, i);
  }

  lemma ReachedDeadlineIsNow(tm: Timer, i: nat, d: u64, cap: u64, host: u64)
    requires tm.mode == GuestStep && i < |tm.cpus|
    requires !Pending(tm, i) && CpuSteps(tm, i, d, cap) == 0
    ensures StepsUntilIrq(SyncTo(tm, d, host), d, cap) == 0
  {
    var s := SyncTo(tm, d, host);
    if !Pending(s, i) { QuietSyncKeepsPrediction(tm, i, d, cap, host); }
    assert CpuSteps(s, i, d, cap) == 0;
    LeastStepsIsMinimum(s, |s.cpus|, d, cap);
  }

  // ----- a jump equals ticking -----

  /** Synchronising at every tick from `from` up to but not including `to`. */
  function SyncEach(tm: Timer, from: nat, upTo: nat, host: u64): Timer
    requires from <= upTo < TWO64
    decreases upTo - from
  {
    if from == upTo then tm else SyncEach(SyncTo(tm, from, host), from + 1, upTo, host)
  }

  /** Jumping to the deadline leaves the timer exactly as synchronising at every skipped tick would have. */
  lemma {:induction false} JumpEqualsTicking(tm: Timer, t: u64, cap: u64, host: u64)
    requires tm.mode == GuestStep && |tm.cpus| > 0
    requires StepsUntilIrq(tm, t, cap) < cap && t + cap < TWO64
    ensures var d := t + StepsUntilIrq(tm, t, cap);
            SyncTo(SyncEach(tm, t, d, host), d, host) == SyncTo(tm, d, host)
    decreases StepsUntilIrq(tm, t, cap)
  {
    hide LeastSteps, CpuSteps;
    var r := StepsUntilIrq(tm, t, cap);
    if r > 0 {
      var d := t + r;
      var s := SyncTo(tm, t, host);
      assert t + 0 == t;
      EarlySyncOnlyMovesAnchor(tm, t, cap, 0, host);
      DeadlineSurvivesSync(tm, t, cap, 0, host);
      assert StepsUntilIrq(s, t, cap) == r;
      DeadlineStable(s, t, cap, 1);
      var cap1 := NarrowerCap(s, t + 1, cap, r - 1);
      JumpEqualsTicking(s, t + 1, cap1, host);
      SyncKeepsCounter(tm, t, host, d);
      assert SyncTo(s, d, host) == SyncTo(tm, d, host);
    }
  }

  lemma NarrowerCap(s: Timer, t: u64, cap: u64, r: u64) returns (cap1: u64)
    requires StepsUntilIrq(s, t, cap) == r < cap - 1 && s.mode == GuestStep
    ensures cap1 == cap - 1 && StepsUntilIrq(s, t, cap1) == r
  {
    cap1 := cap - 1;
    NarrowerLeast(s, |s.cpus|, t, cap);
  }

  lemma {:induction false} NarrowerLeast(s: Timer, n: nat, t: u64, cap: u64)
    requires n <= |s.cpus| && cap > 0
    ensures LeastSteps(s, n, t, cap - 1) == Min(cap - 1, LeastSteps(s, n, t, cap))
  {
    hide CpuSteps, LeastSteps;
    if n == 0 {
      LeastOfNone(s, t);
    } else {
      NarrowerLeast(s, n - 1, t, cap);
      var a, b := CpuSteps(s, n - 1, t, cap - 1), CpuSteps(s, n - 1, t, cap);
      assert a == Min(cap - 1, b) by { SmallerCapClips(s, n - 1, t, cap, cap - 1); }
      LeastUnfolds(s, n, t, cap - 1, a);
      LeastUnfolds(s, n, t, cap, b);
    }
  }

  lemma LeastOfNone(s: Timer, t: u64)
    ensures forall cap: u64 :: LeastSteps(s, 0, t, cap) == cap
  {
  }

  lemma LeastUnfolds(s: Timer, n: nat, t: u64, cap: u64, last: u64)
    requires 0 < n <= |s.cpus| && last == CpuSteps(s, n - 1, t, cap)
    ensures LeastSteps(s, n, t, cap) == Min(LeastSteps(s, n - 1, t, cap), last)
  {
  }

  // ----- host time -----

  /** The split multiplication is exact and stays far from 64 bits at the architected frequency. */
  lemma NsToCyclesIsFloor(ns: u64)
    ensures NsToCycles(ns, HOST_HZ) == ns * HOST_HZ / NS_PER_SECOND == ns / 10
  {
  }

  /** Elapsed time cut into pieces, each converted on its own as successive synchronisations do. */
  function SumCycles(pieces: seq<u64>): nat {
    if pieces == [] then 0 else NsToCycles(pieces[0], HOST_HZ) + SumCycles(pieces[1..])
  }

  function SumNs(pieces: seq<u64>): nat {
    if pieces == [] then 0 else pieces[0] + SumNs(pieces[1..])
  }

  /** Splitting an interval never gains cycles and loses at most one less than the number of pieces. */
  lemma {:induction false} SplittingLosesLittle(pieces: seq<u64>)
    requires |pieces| > 0 && SumNs(pieces) < TWO64
    ensures SumCycles(pieces) <= NsToCycles(SumNs(pieces), HOST_HZ) <= SumCycles(pieces) + |pieces| - 1
  {
    NsToCyclesIsFloor(pieces[0]);
    NsToCyclesIsFloor(SumNs(pieces));
    if |pieces| > 1 {
      SplittingLosesLittle(pieces[1..]);
      NsToCyclesIsFloor(SumNs(pieces[1..]));
    } else {
      assert pieces[1..] == [];
    }
  }

  /** Synchronising in host mode at a run of instants, each piece measured from the previous instant. */
  function SyncAtInstants(tm: Timer, steps: u64, instants: seq<u64>): Timer
    decreases |instants|
  {
    if instants == [] then tm else SyncAtInstants(SyncTo(tm, steps, instants[0]), steps, instants[1..])
  }

  predicate NonDecreasingFrom(start: u64, instants: seq<u64>)
    decreases |instants|
  {
    instants == [] || (start <= instants[0] && NonDecreasingFrom(instants[0], instants[1..]))
  }

  function Gaps(start: u64, instants: seq<u64>): seq<u64>
    requires NonDecreasingFrom(start, instants)
    decreases |instants|
  {
    if instants == [] then [] else [instants[0] - start] + Gaps(instants[0], instants[1..])
  }

  /** The counter after a run of host-mode synchronisations is the start plus the converted pieces. */
  lemma {:induction false} HostCounterAccumulates(tm: Timer, steps: u64, instants: seq<u64>)
    requires tm.mode == HostMonotonic && NonDecreasingFrom(tm.hostAnchor, instants)
    ensures SyncAtInstants(tm, steps, instants).counter
            == (tm.counter + SumCycles(Gaps(tm.hostAnchor, instants))) % TWO64
    decreases |instants|
  {
    if instants != [] {
      var g := instants[0] - tm.hostAnchor;
      var s := SyncTo(tm, steps, instants[0]);
      HostCounterAccumulates(s, steps, instants[1..]);
      var gaps := Gaps(tm.hostAnchor, instants);
      assert gaps[1..] == Gaps(instants[0], instants[1..]);
      ModAdd(tm.counter + NsToCycles(g, HOST_HZ), SumCycles(gaps[1..]), TWO64);
    }
  }

  // ----- the timer value view -----

  function ReadTval(ch: Channel, counter: u64): u64 {
    (ch.cval - counter) % TWO64 % TWO32
  }

  /** Writing the timer value and reading it at the same count returns the low 32 bits written. */
  lemma TvalRoundTrip(ch: Channel, counter: u64, value: u64)
    ensures ReadTval(ch.(cval := TvalToCval(counter, value)), counter) == value % TWO32
  {
    var v := SignExtend32(value % TWO32);
    var back: int := -(counter as int);
    ModAdd(counter + v, back, TWO64);
    assert (TvalToCval(counter, value) - counter) % TWO64 == v % TWO64;
  }
}
