/** What holds of every run: nothing is stepped unseen, who is stepped, when time jumps, and what the result means. */
module TurnTheorems {
  import opened Words
  import opened TimerSpec
  import TimerTheorems
  import opened SchedulerSpec
  import opened MachineSpec
  import opened MachineTheorems
  import opened RunSpec
  import opened TurnSpec
  import G = GicSpec

  // ----- logs -----

  /** The machine m is what the step left, as far as the processors are concerned. */
  ghost predicate Leaves<W>(c: Config<W>, step: Step<W>, m: Machine<W>) {
    && m.world == Decide(c, step.m, step.cpu).world && m.cpuSteps == step.m.cpuSteps + 1
    && (AsksToStop(Decide(c, step.m, step.cpu).actions) ==> m.stop)
  }

  ghost predicate SameWorld<W>(a: Machine<W>, b: Machine<W>) {
    b.world == a.world && b.cpuSteps == a.cpuSteps && (a.stop ==> b.stop)
  }

  function Found<W>(log: seq<Step<W>>, j: nat, end: Machine<W>): Machine<W> {
    if j < |log| then log[j].m else end
  }

  /** Nothing happened to the processors between m and end but the logged steps, in their order. */
  ghost predicate Traced<W>(c: Config<W>, m: Machine<W>, log: seq<Step<W>>, end: Machine<W>) {
    SameWorld(m, Found(log, 0, end)) && forall j | 0 <= j < |log| :: Leaves(c, log[j], Found(log, j + 1, end))
  }

  /** The step failed and its processor did not halt. */
  ghost predicate Fails<W>(c: Config<W>, step: Step<W>) {
    var o := Decide(c, step.m, step.cpu); !o.ok && !c.procs.halted(o.world, step.cpu)
  }

  /** No step but the last fails, and the last one exactly if stated. */
  ghost predicate FailsLast<W>(c: Config<W>, log: seq<Step<W>>, failed: bool) {
    && (forall j | 0 <= j < |log| - 1 :: !Fails(c, log[j]))
    && (failed <==> log != [] && Fails(c, log[|log| - 1]))
  }

  lemma TracedTwice<W>(c: Config<W>, m: Machine<W>, a: seq<Step<W>>, m1: Machine<W>, b: seq<Step<W>>, end: Machine<W>)
    requires Traced(c, m, a, m1) && Traced(c, m1, b, end)
    ensures Traced(c, m, a + b, end)
  {
    hide Decide;
    forall j | 0 <= j < |a + b| ensures Leaves(c, (a + b)[j], Found(a + b, j + 1, end)) {
      if j < |a| { assert Leaves(c, a[j], Found(a, j + 1, m1)); } else { assert Leaves(c, b[j - |a|], Found(b, j - |a| + 1, end)); }
    }
  }

  lemma {:induction false} TracedCounts<W>(c: Config<W>, m: Machine<W>, log: seq<Step<W>>, end: Machine<W>)
    requires Traced(c, m, log, end)
    ensures end.cpuSteps == m.cpuSteps + |log|
  {
    hide Decide;
    if log != [] {
      var init, last := log[..|log| - 1], log[|log| - 1];
      assert Leaves(c, last, Found(log, |log|, end));
      forall j | 0 <= j < |init| ensures Leaves(c, init[j], Found(init, j + 1, last.m)) {
        assert Leaves(c, log[j], Found(log, j + 1, end));
      }
      TracedCounts(c, m, init, last.m);
    }
  }

  lemma FailsLastTwice<W>(c: Config<W>, a: seq<Step<W>>, b: seq<Step<W>>, failed: bool)
    requires FailsLast(c, a, false) && FailsLast(c, b, failed)
    ensures FailsLast(c, a + b, failed)
  {
    hide Fails;
    if b == [] { assert a + b == a; } else { assert (a + b)[|a + b| - 1] == b[|b| - 1]; }
  }

  /** No step is made after a stop. */
  ghost predicate NoneStopped<W>(log: seq<Step<W>>) { forall j | 0 <= j < |log| :: !log[j].m.stop }

  /** From m the logged steps lead to end; the last of them failed if stated, and no other. */
  ghost predicate Logged<W>(c: Config<W>, m: Machine<W>, log: seq<Step<W>>, end: Machine<W>, failed: bool) {
    Traced(c, m, log, end) && FailsLast(c, log, failed) && NoneStopped(log)
  }

  lemma LoggedTwice<W>(c: Config<W>, m: Machine<W>, a: seq<Step<W>>, m1: Machine<W>, b: seq<Step<W>>, end: Machine<W>,
                       failed: bool)
    requires Logged(c, m, a, m1, false) && Logged(c, m1, b, end, failed)
    ensures Logged(c, m, a + b, end, failed)
  {
    hide Traced, FailsLast;
    TracedTwice(c, m, a, m1, b, end);
    FailsLastTwice(c, a, b, failed);
  }

  lemma LoggedNothing<W>(c: Config<W>, m: Machine<W>, end: Machine<W>)
    requires SameWorld(m, end)
    ensures Logged(c, m, [], end, false)
  {
  }

  lemma LoggedStep<W>(c: Config<W>, m: Machine<W>, i: nat, end: Machine<W>)
    requires Leaves(c, Step(m, i), end) && !m.stop
    ensures Logged(c, m, [Step(m, i)], end, Fails(c, Step(m, i)))
  {
    hide Decide, Fails;
  }

  lemma BeatLeaves<W>(c: Config<W>, m: Machine<W>, i: nat)
    requires Steppable(m)
    ensures Leaves(c, Step(m, i), Beat(c, m, i)) && Leaves(c, Step(m, i), Counted(StepCpu(c, m, i)))
  {
    ActionsReach(c, m, Decide(c, m, i).actions);
  }

  function Next<W>(log: seq<Step<W>>, j: nat): Step<W>
    requires j + 1 < |log|
  {
    log[j + 1]
  }

  /** A step that follows a success of the same processor, with no stop and no stale schedule in between; among
      several processors, one that woke no other processor and did not leave this one waiting. */
  ghost predicate Continues<W>(c: Config<W>, i: nat, a: Step<W>, b: Step<W>) {
    && Steppable(a.m) && b == Step(Beat(c, a.m, i), i) && Decide(c, a.m, i).ok && !b.m.stop && !b.m.schedDirty
    && (c.n > 1 ==> !Decide(c, a.m, i).wokeWaiter && !Waiting(c, b.m, i))
  }

  /** One processor's steps, one after another. */
  ghost predicate OneAfterAnother<W>(c: Config<W>, i: nat, log: seq<Step<W>>) {
    (log != [] ==> log[0].cpu == i) && forall j: nat | j + 1 < |log| :: Continues(c, i, log[j], Next(log, j))
  }

  lemma {:induction false} AllSteppedAre<W>(c: Config<W>, i: nat, log: seq<Step<W>>, j: nat)
    requires OneAfterAnother(c, i, log) && j < |log|
    ensures log[j].cpu == i
  {
    if j > 0 { assert Continues(c, i, log[j - 1], Next(log, j - 1)); }
  }

  lemma OneMoreBefore<W>(c: Config<W>, i: nat, m: Machine<W>, log: seq<Step<W>>)
    requires OneAfterAnother(c, i, log)
    requires log != [] ==> Continues(c, i, Step(m, i), log[0])
    ensures OneAfterAnother(c, i, [Step(m, i)] + log)
  {
    hide Continues;
    var all := [Step(m, i)] + log;
    forall j: nat | j + 1 < |all| ensures Continues(c, i, all[j], Next(all, j)) {
      if j > 0 { assert Continues(c, i, log[j - 1], Next(log, j - 1)); }
    }
  }

  /** The log of a window of processor i that starts at m. */
  ghost predicate WindowLog<W>(c: Config<W>, i: nat, m: Machine<W>, k: nat, s: Stretch<W>) {
    && |s.log| <= k && (s.log != [] <==> k > 0) && (s.log != [] ==> s.log[0] == Step(m, i))
    && OneAfterAnother(c, i, s.log) && Logged(c, m, s.log, s.m, s.ending == Failed)
    && (s.ending == Stopped ==> s.m.stop)
  }

  lemma WindowOfOne<W>(c: Config<W>, i: nat, m: Machine<W>, k: nat, end: Machine<W>, ending: Ending)
    requires Steppable(m) && !m.stop && k > 0 && Leaves(c, Step(m, i), end)
    requires ending == Failed <==> Fails(c, Step(m, i))
    requires ending == Stopped ==> end.stop
    ensures WindowLog(c, i, m, k, Stretch(end, [Step(m, i)], ending))
  {
    hide Decide, Fails, Logged;
    LoggedStep(c, m, i, end);
  }

  lemma WindowGoesOn<W>(c: Config<W>, i: nat, m: Machine<W>, k: nat, rest: Stretch<W>)
    requires Steppable(m) && !m.stop && k > 0
    requires Decide(c, m, i).ok && !Beat(c, m, i).stop && !Beat(c, m, i).schedDirty
    requires c.n > 1 ==> !Decide(c, m, i).wokeWaiter && !Waiting(c, Beat(c, m, i), i)
    requires WindowLog(c, i, Beat(c, m, i), k - 1, rest)
    ensures WindowLog(c, i, m, k, After([Step(m, i)], rest))
  {
    hide Beat, Decide, Logged, OneAfterAnother, Waiting;
    var m1 := Beat(c, m, i);
    assert rest.log != [] ==> Continues(c, i, Step(m, i), rest.log[0]);
    OneMoreBefore(c, i, m, rest.log);
    BeatLeaves(c, m, i);
    LoggedStep(c, m, i, m1);
    assert !Fails(c, Step(m, i));
    LoggedTwice(c, m, [Step(m, i)], m1, rest.log, rest.m, rest.ending == Failed);
  }

  lemma {:induction false} SoloLog<W>(c: Config<W>, m: Machine<W>, k: nat)
    requires Steppable(m) && !m.stop && c.n <= 1
    ensures WindowLog(c, 0, m, k, SoloRun(c, m, k))
    decreases k
  {
    hide Beat, Decide, WindowLog;
    if k == 0 {
      EmptyWindow(c, 0, m);
    } else {
      var m1 := Beat(c, m, 0);
      BeatLeaves(c, m, 0);
      BeatWorld(c, m, 0);
      if !Decide(c, m, 0).ok && c.procs.halted(m1.world, 0) {
        WindowOfOne(c, 0, m, k, m1.(stop := true), HaltedCpu);
      } else if !Decide(c, m, 0).ok {
        WindowOfOne(c, 0, m, k, m1, Failed);
      } else if m1.stop {
        WindowOfOne(c, 0, m, k, m1, Stopped);
      } else if m1.schedDirty {
        WindowOfOne(c, 0, m, k, m1, Yielded);
      } else {
        SoloLog(c, m1, k - 1);
        WindowGoesOn(c, 0, m, k, SoloRun(c, m1, k - 1));
      }
    }
  }

  lemma EmptyWindow<W>(c: Config<W>, i: nat, m: Machine<W>)
    ensures WindowLog(c, i, m, 0, Stretch(m, [], Spent))
  {
  }

  lemma BeatWorld<W>(c: Config<W>, m: Machine<W>, i: nat)
    requires Steppable(m)
    ensures Beat(c, m, i).world == Decide(c, m, i).world
  {
  }

  lemma {:induction false} SharedLog<W>(c: Config<W>, m: Machine<W>, i: nat, k: nat, w: bool, epoch: nat)
    requires Steppable(m) && !m.stop
    ensures WindowLog(c, i, m, k, SharedRun(c, m, i, k, w, epoch))
    decreases k
  {
    hide Beat, Decide, WindowLog, MayYield;
    if k == 0 {
      EmptyWindow(c, i, m);
    } else {
      var m1 := Beat(c, m, i);
      BeatLeaves(c, m, i);
      BeatWorld(c, m, i);
      YieldsWhenWoken(c, m, i);
      if !Decide(c, m, i).ok {
        WindowOfOne(c, i, m, k, m1, if c.procs.halted(m1.world, i) then HaltedCpu else Failed);
      } else if m1.stop {
        WindowOfOne(c, i, m, k, m1, Stopped);
      } else if MayYield(c, m1, i) {
        WindowOfOne(c, i, m, k, m1, Yielded);
      } else if w && m1.gic.epoch != epoch && c.procs.halted(m1.world, i) {
        WindowOfOne(c, i, m, k, m1, HaltedCpu);
      } else {
        var e := if w && m1.gic.epoch != epoch then m1.gic.epoch else epoch;
        SharedLog(c, m1, i, k - 1, w, e);
        WindowGoesOn(c, i, m, k, SharedRun(c, m1, i, k - 1, w, e));
      }
    }
  }

  /** A step that leaves the schedule stale, wakes another processor or waits ends the window. */
  lemma YieldsWhenWoken<W>(c: Config<W>, m: Machine<W>, i: nat)
    requires Steppable(m)
    ensures var m1 := Beat(c, m, i);
      m1.schedDirty || Decide(c, m, i).wokeWaiter || Waiting(c, m1, i) ==> MayYield(c, m1, i)
  {
    hide Decide, PerformAll, Advanced;
  }

  // ----- logs of rounds -----

  /** Every step was of a processor that was on, not halted, and ready unless the waiting ones are polled. */
  ghost predicate AllEligible<W>(c: Config<W>, pollWaiters: bool, log: seq<Step<W>>) {
    forall j | 0 <= j < |log| :: log[j].cpu < c.n && Eligible(c, log[j].m, pollWaiters, log[j].cpu)
  }

  ghost predicate RoundLog<W>(c: Config<W>, pollWaiters: bool, m: Machine<W>, r: Round<W>) {
    && AllEligible(c, pollWaiters, r.log) && Logged(c, m, r.log, r.m, r.failed)
    && (r.log != [] ==> r.log[0].m == m)
  }

  lemma RoundLogMoves<W>(c: Config<W>, pollWaiters: bool, m: Machine<W>, r: Round<W>, m1: Machine<W>)
    requires RoundLog(c, pollWaiters, m, r) && !r.failed && SameWorld(r.m, m1)
    ensures RoundLog(c, pollWaiters, m, Round(m1, r.log, false))
  {
    hide AllEligible, Logged;
    LoggedNothing(c, r.m, m1);
    LoggedTwice(c, m, r.log, r.m, [], m1, false);
    assert r.log + [] == r.log;
  }

  lemma RoundLogGoesOn<W>(c: Config<W>, pollWaiters: bool, m: Machine<W>, r: Round<W>, rest: Round<W>)
    requires RoundLog(c, pollWaiters, m, r) && !r.failed && r.log != [] && RoundLog(c, pollWaiters, r.m, rest)
    ensures RoundLog(c, pollWaiters, m, Led(r.log, rest))
  {
    hide Logged, Eligible;
    LoggedTwice(c, m, r.log, r.m, rest.log, rest.m, rest.failed);
  }

  lemma RoundLogOfOne<W>(c: Config<W>, pollWaiters: bool, m: Machine<W>, i: nat)
    requires Steppable(m) && !m.stop && i < c.n && Eligible(c, m, pollWaiters, i)
    ensures RoundLog(c, pollWaiters, m, Round(Counted(StepCpu(c, m, i)), [Step(m, i)], Fails(c, Step(m, i))))
    ensures Counted(StepCpu(c, m, i)).world == Decide(c, m, i).world
  {
    hide Eligible;
    BeatLeaves(c, m, i);
    LoggedStep(c, m, i, Counted(StepCpu(c, m, i)));
  }

  lemma {:induction false} RoundIsLogged<W>(c: Config<W>, m: Machine<W>, pollWaiters: bool, i: nat, left: nat)
    requires Steppable(m)
    ensures RoundLog(c, pollWaiters, m, RoundFrom(c, m, pollWaiters, i, left))
    decreases c.n - i
  {
    hide StepCpu, Decide, Eligible, RoundLog;
    if i >= c.n || left == 0 || m.stop {
      NoRounds(c, pollWaiters, m);
    } else if !Eligible(c, m, pollWaiters, i) {
      RoundIsLogged(c, m, pollWaiters, i + 1, left);
    } else {
      RoundLogOfOne(c, pollWaiters, m, i);
      var m1 := Counted(StepCpu(c, m, i));
      if !Fails(c, Step(m, i)) {
        RoundIsLogged(c, m1, pollWaiters, i + 1, left - 1);
        RoundLogGoesOn(c, pollWaiters, m, Round(m1, [Step(m, i)], false), RoundFrom(c, m1, pollWaiters, i + 1, left - 1));
      }
    }
  }

  lemma TickIsUnseen<W>(m: Machine<W>, k: nat)
    requires Steppable(m)
    ensures SameWorld(m, Ticked(AdvanceTime(m, k, k))) && Steppable(Ticked(AdvanceTime(m, k, k)))
  {
  }

  lemma {:induction false} RoundsAreLogged<W>(c: Config<W>, m: Machine<W>, pollWaiters: bool, rounds: nat, left: nat)
    requires Steppable(m)
    ensures RoundLog(c, pollWaiters, m, RoundsFrom(c, m, pollWaiters, rounds, left))
    decreases rounds
  {
    hide RoundFrom, RoundLog, AdvanceTime, AllHaltedIn, Steppable;
    if rounds == 0 || left == 0 || m.stop {
      NoRounds(c, pollWaiters, m);
    } else {
      var r := RoundFrom(c, m, pollWaiters, 0, left);
      RoundIsLogged(c, m, pollWaiters, 0, left);
      if !r.failed && r.log == [] {
        RoundLogMoves(c, pollWaiters, m, r, r.m.(stop := r.m.stop || AllHaltedIn(c, r.m.world)));
      } else if !r.failed {
        var m1 := Ticked(AdvanceTime(r.m, |r.log|, |r.log|));
        TickIsUnseen(r.m, |r.log|);
        RoundLogMoves(c, pollWaiters, m, r, m1);
        if !m1.schedDirty {
          RoundsAreLogged(c, m1, pollWaiters, rounds - 1, left - |r.log|);
          RoundLogGoesOn(c, pollWaiters, m, Round(m1, r.log, false),
                         RoundsFrom(c, m1, pollWaiters, rounds - 1, left - |r.log|));
        }
      }
    }
  }

  lemma NoRounds<W>(c: Config<W>, pollWaiters: bool, m: Machine<W>)
    ensures RoundLog(c, pollWaiters, m, Round(m, [], false))
  {
  }

  // ----- turns -----

  /** The same for the processors and devices: only the cached schedule and the note of woken waiters may differ. */
  ghost predicate SameGuest<W>(a: Machine<W>, b: Machine<W>) {
    && b.world == a.world && b.gic == a.gic && b.timer == a.timer && b.fp == a.fp
    && b.cpuSteps == a.cpuSteps && b.stop == a.stop
  }

  lemma LookingKeepsGuest<W>(c: Config<W>, m: Machine<W>)
    ensures SameGuest(m, Stayed(c, m)) && SameGuest(m, Opened(c, m))
    ensures SameGuest(m, Forgotten(AfterWindow(c, m, true)))
    ensures SameGuest(m, Opened(c, Stayed(c, m)))
  {
    hide Deadline;
  }

  lemma LoggedFrom<W>(c: Config<W>, m: Machine<W>, m1: Machine<W>, log: seq<Step<W>>, end: Machine<W>, failed: bool)
    requires SameWorld(m, m1) && Logged(c, m1, log, end, failed)
    ensures Logged(c, m, log, end, failed)
  {
    hide Logged;
    LoggedNothing(c, m, m1);
    LoggedTwice(c, m, [], m1, log, end, failed);
    assert [] + log == log;
  }

  /** The log of a turn of a machine with one processor: there is none exactly when the turn jumps, and else it begins
      with a step of the processor in the state the turn saw. */
  ghost predicate SoloTurn<W>(c: Config<W>, t: Turn<W>) {
    && (t.log == [] <==> Idle(c, t.seen) && Jumps(c, t.seen))
    && (t.log != [] ==> SameGuest(t.seen, t.log[0].m))
    && OneAfterAnother(c, 0, t.log)
    && Logged(c, t.seen, t.log, t.end, t.fate == Returned(false))
  }

  lemma WindowOfTurn<W>(c: Config<W>, i: nat, m: Machine<W>, k: nat, s: Stretch<W>, t: Turn<W>)
    requires WindowLog(c, i, m, k, s) && k > 0 && SameGuest(t.seen, m)
    requires t.log == s.log && t.end == s.m && (t.fate == Returned(false) <==> s.ending == Failed)
    ensures t.log != [] && SameGuest(t.seen, t.log[0].m) && OneAfterAnother(c, i, t.log)
    ensures Logged(c, t.seen, t.log, t.end, t.fate == Returned(false))
  {
    hide Logged, OneAfterAnother;
    LoggedFrom(c, t.seen, m, s.log, s.m, s.ending == Failed);
  }

  lemma LeapTurn<W(!new)>(c: Config<W>, t: Turn<W>)
    requires Valid(c, t.seen) && Leaps(c, t)
    ensures t.fate == Leapt && t.log == [] && Logged(c, t.seen, t.log, t.end, false)
  {
    hide Jumps, FastForward, Valid, Idle, Logged;
    FastForwardLands(c, t.seen);
    LoggedNothing(c, t.seen, t.end);
  }

  lemma SoloTurns<W(!new)>(c: Config<W>, t: Turn<W>)
    requires c.n == 1 && Takes(c, t)
    ensures SoloTurn(c, t)
  {
    hide Valid, MaybeSync, Idle, Jumps, FastForward, Opened, OpenedWindow, Stayed, Logged, OneAfterAnother, SoloRun,
      WindowLog, SameGuest;
    if Leaps(c, t) {
      LeapTurn(c, t);
      NothingAfterNothing(c, 0);
    } else {
      var m := if Idle(c, t.seen) then Stayed(c, t.seen) else t.seen;
      var exit :| t.fate == FateOf(exit) && RunsAlone(c, m, t.left, t.log, t.end, exit);
      var e :| exit == SoloExit(e) && SoloEnds(c, Opened(c, m), OpenedWindow(c, m, t.left, 1), t.log, t.end, e);
      LookingKeepsGuest(c, t.seen);
      SeenGoesOn(c, t);
      GuestIsWorld(t.seen, Opened(c, m));
      SoloLog(c, Opened(c, m), OpenedWindow(c, m, t.left, 1));
      OpenedIsLong(c, m, t.left, 1);
      WindowOfTurn(c, 0, Opened(c, m), OpenedWindow(c, m, t.left, 1), Stretch(t.end, t.log, e), t);
    }
  }

  lemma NothingAfterNothing<W>(c: Config<W>, i: nat)
    ensures OneAfterAnother(c, i, [])
  {
  }

  lemma OpenedIsLong<W>(c: Config<W>, m: Machine<W>, left: nat, divisor: nat)
    requires divisor > 0
    ensures OpenedWindow(c, m, left, divisor) > 0
  {
  }

  /** A round steps somebody if anybody may be stepped. */
  lemma {:induction false} RoundNotEmpty<W>(c: Config<W>, m: Machine<W>, pollWaiters: bool, i: nat, left: nat, k: nat)
    requires Steppable(m) && left > 0 && !m.stop && i <= k < c.n && Eligible(c, m, pollWaiters, k)
    ensures RoundFrom(c, m, pollWaiters, i, left).log != []
    decreases k - i
  {
    hide Eligible, StepCpu, Decide;
    if !Eligible(c, m, pollWaiters, i) { RoundNotEmpty(c, m, pollWaiters, i + 1, left, k); }
  }

  lemma RoundsNotEmpty<W>(c: Config<W>, m: Machine<W>, pollWaiters: bool, rounds: nat, left: nat, k: nat)
    requires Steppable(m) && left > 0 && rounds > 0 && !m.stop && k < c.n && Eligible(c, m, pollWaiters, k)
    ensures RoundsFrom(c, m, pollWaiters, rounds, left).log != []
  {
    hide RoundFrom, AdvanceTime, Eligible;
    RoundNotEmpty(c, m, pollWaiters, 0, left, k);
  }

  /** The log of a turn of a machine with several processors. It is empty exactly when nobody is ready and all are
      halted, time jumps, or none is on. The one ready processor runs alone; several take turns while they are ready;
      with none ready those that are on and not halted take turns. */
  ghost predicate SharedTurn<W>(c: Config<W>, t: Turn<W>) {
    && Logged(c, t.seen, t.log, t.end, t.fate == Returned(false))
    && (t.log == [] <==> NobodyToStep(c, t.seen))
    && (t.log != [] ==> SameGuest(t.seen, t.log[0].m))
    && (forall i: nat | OnlyReady(c, t.seen, i) :: OneAfterAnother(c, i, t.log))
    && (|RunnableCpus(c, t.seen, c.n)| > 1 ==> AllEligible(c, false, t.log))
    && (NoneReady(c, t.seen) ==> AllEligible(c, true, t.log))
    && (t.fate == Returned(true) ==> t.end.stop)
  }

  ghost predicate NobodyToStep<W>(c: Config<W>, m: Machine<W>) {
    NoneReady(c, m) && (AllHaltedIn(c, m.world) || Jumps(c, m) || ActiveCpus(c, m, c.n) == {})
  }

  lemma CountingReady<W>(c: Config<W>, m: Machine<W>)
    ensures NoneReady(c, m) ==> RunnableCpus(c, m, c.n) == {}
    ensures forall i: nat | OnlyReady(c, m, i) :: RunnableCpus(c, m, c.n) == {i} && !NoneReady(c, m)
  {
    hide Runnable;
    forall i: nat | OnlyReady(c, m, i) ensures RunnableCpus(c, m, c.n) == {i} && !NoneReady(c, m) {
      assert Runnable(c, m, i);
    }
  }

  lemma OneTurns<W(!new)>(c: Config<W>, t: Turn<W>)
    requires c.n > 1 && Takes(c, t) && TakesOne(c, t)
    ensures SharedTurn(c, t)
  {
    hide Valid, MaybeSync, Jumps, Stayed, Logged, OneAfterAnother, SharedRun, WindowLog, SameGuest, OnlyReady, NoneReady,
      AllHaltedIn, ActiveCpus, RunnableCpus, TakesIdle, TakesMany, OtherWaiting, AfterWindow;
    var i: nat, exit :| OnlyReady(c, t.seen, i) && t.fate == FateOf(exit) && RunsShared(c, i, t.seen, t.left, t.log, t.end, exit);
    var m, k := Forgotten(AfterWindow(c, t.seen, true)), Window(c, t.seen, t.left, 1, true);
    var w := OtherWaiting(c, t.seen, i);
    var e :| exit == SharedExit(e) && SharedEnds(c, i, w, Shift(m, k, t.seen.gic.epoch), t.log, t.end, e);
    LookingKeepsGuest(c, t.seen);
    SeenGoesOn(c, t);
    GuestIsWorld(t.seen, m);
    SharedLog(c, m, i, k, w, t.seen.gic.epoch);
    WindowOfTurn(c, i, m, k, Stretch(t.end, t.log, e), t);
    if e == Stopped { StopsWhenStopped(c, i, m, k, Stretch(t.end, t.log, e)); }
    CountingReady(c, t.seen);
    assert forall j: nat | OnlyReady(c, t.seen, j) :: {i} == {j} && i in {j};
  }

  lemma StopsWhenStopped<W>(c: Config<W>, i: nat, m: Machine<W>, k: nat, s: Stretch<W>)
    requires WindowLog(c, i, m, k, s) && s.ending == Stopped
    ensures s.m.stop
  {
  }

  lemma RoundsOfTurn<W(!new)>(c: Config<W>, m: Machine<W>, divisor: nat, pollWaiters: bool, t: Turn<W>, failed: bool, k: nat)
    requires t.left > 0 && !t.seen.stop && SameGuest(t.seen, Opened(c, m))
    requires RunsRounds(c, m, t.left, divisor, pollWaiters, t.log, t.end, failed)
    requires k < c.n && Eligible(c, t.seen, pollWaiters, k)
    ensures t.log != [] && SameGuest(t.seen, t.log[0].m) && AllEligible(c, pollWaiters, t.log)
    ensures Logged(c, t.seen, t.log, t.end, failed)
  {
    hide Logged, Opened, OpenedWindow, RoundsFrom, AllEligible;
    var o, w := Opened(c, m), OpenedWindow(c, m, t.left, divisor);
    OpenedIsLong(c, m, t.left, divisor);
    assert Eligible(c, o, pollWaiters, k);
    RoundsAreLogged(c, o, pollWaiters, w, t.left);
    RoundsNotEmpty(c, o, pollWaiters, w, t.left, k);
    LoggedFrom(c, t.seen, o, t.log, t.end, failed);
  }

  lemma SeenGoesOn<W(!new)>(c: Config<W>, t: Turn<W>)
    requires Takes(c, t)
    ensures !t.seen.stop && SameWorld(t.top, t.seen) && t.seen.fp == t.top.fp
  {
    hide Valid, TakesSolo, TakesShared, MaybeSync;
    MaybeSyncSettles(c, t.top);
  }

  lemma SomeoneOf<W>(c: Config<W>, m: Machine<W>) returns (active: nat, ready: nat)
    ensures ActiveCpus(c, m, c.n) != {} ==> active < c.n && Eligible(c, m, true, active)
    ensures RunnableCpus(c, m, c.n) != {} ==> ready < c.n && Eligible(c, m, false, ready)
  {
    active, ready := 0, 0;
    if ActiveCpus(c, m, c.n) != {} { active :| active in ActiveCpus(c, m, c.n); }
    if RunnableCpus(c, m, c.n) != {} { ready :| ready in RunnableCpus(c, m, c.n); }
  }

  lemma ManyTurns<W(!new)>(c: Config<W>, t: Turn<W>)
    requires c.n > 1 && Takes(c, t) && TakesMany(c, t)
    ensures SharedTurn(c, t)
  {
    hide Valid, MaybeSync, Jumps, Stayed, Logged, OneAfterAnother, SameGuest, OnlyReady, NoneReady, AllEligible, Eligible,
      AllHaltedIn, ActiveCpus, RunnableCpus, TakesIdle, TakesOne, RunsRounds, Opened;
    var failed :| t.fate == FateOf(if failed then Some(false) else None) &&
      RunsRounds(c, t.seen, t.left, |RunnableCpus(c, t.seen, c.n)|, false, t.log, t.end, failed);
    SeenGoesOn(c, t);
    LookingKeepsGuest(c, t.seen);
    CountingReady(c, t.seen);
    var _, k := SomeoneOf(c, t.seen);
    RoundsOfTurn(c, t.seen, |RunnableCpus(c, t.seen, c.n)|, false, t, failed, k);
  }

  lemma IdleTurns<W(!new)>(c: Config<W>, t: Turn<W>)
    requires c.n > 1 && Takes(c, t) && NoneReady(c, t.seen) && TakesIdle(c, t)
    ensures SharedTurn(c, t)
  {
    hide Valid, MaybeSync, Jumps, Stayed, Logged, OneAfterAnother, SameGuest, OnlyReady, NoneReady, AllEligible, Eligible,
      AllHaltedIn, ActiveCpus, RunnableCpus, TakesMany, TakesOne, RunsRounds, Opened, Leaps;
    CountingReady(c, t.seen);
    LookingKeepsGuest(c, t.seen);
    NoneEligible(c);
    if AllHaltedIn(c, t.seen.world) {
      LoggedNothing(c, t.seen, t.end);
    } else if Jumps(c, t.seen) {
      LeapTurn(c, t);
    } else if ActiveCpus(c, t.seen, c.n) == {} {
      GuestIsWorld(t.seen, t.end);
      LoggedNothing(c, t.seen, t.end);
    } else {
      var failed :| t.fate == FateOf(if failed then Some(false) else None) &&
        RunsRounds(c, Stayed(c, t.seen), t.left, |ActiveCpus(c, t.seen, c.n)|, true, t.log, t.end, failed);
      SeenGoesOn(c, t);
      var k, _ := SomeoneOf(c, t.seen);
      RoundsOfTurn(c, Stayed(c, t.seen), |ActiveCpus(c, t.seen, c.n)|, true, t, failed, k);
    }
  }

  lemma GuestIsWorld<W>(a: Machine<W>, b: Machine<W>)
    requires SameGuest(a, b)
    ensures SameWorld(a, b) && b.stop == a.stop
  {
  }

  lemma NoneEligible<W>(c: Config<W>)
    ensures AllEligible(c, true, [])
  {
  }

  lemma SharedTurns<W(!new)>(c: Config<W>, t: Turn<W>)
    requires c.n > 1 && Takes(c, t)
    ensures SharedTurn(c, t)
  {
    hide SharedTurn, NoneReady, TakesIdle, TakesOne, TakesMany;
    if TakesOne(c, t) { OneTurns(c, t); } else if TakesMany(c, t) { ManyTurns(c, t); } else { IdleTurns(c, t); }
  }

  // ----- whole runs -----

  /** Every turn of a run is a turn, begins where the one before ended with what it left, and all but the last go on. */
  lemma {:induction false} TurnAt<W(!new)>(c: Config<W>, m0: Machine<W>, budget: nat, turns: seq<Turn<W>>, k: nat)
    requires Follow(c, m0, budget, turns) && k < |turns|
    ensures Takes(c, turns[k]) && turns[k].top == EndOf(m0, turns[..k]) && turns[k].left == LeftAfter(budget, turns[..k])
    ensures Follow(c, m0, budget, turns[..k]) && GoesOn(turns[..k])
    decreases |turns|
  {
    hide Takes;
    var init := turns[..|turns| - 1];
    if k < |init| {
      TurnAt(c, m0, budget, init, k);
      assert init[..k] == turns[..k];
    }
  }

  /** All the steps of a run, in order. */
  function Steps<W>(turns: seq<Turn<W>>): seq<Step<W>> {
    if turns == [] then [] else Steps(turns[..|turns| - 1]) + turns[|turns| - 1].log
  }

  ghost predicate LastFailed<W>(turns: seq<Turn<W>>) {
    turns != [] && turns[|turns| - 1].fate == Returned(false)
  }

  lemma TurnIsLogged<W(!new)>(c: Config<W>, t: Turn<W>)
    requires Takes(c, t)
    ensures Logged(c, t.top, t.log, t.end, t.fate == Returned(false))
    ensures c.n > 1 && t.fate == Returned(true) ==> t.end.stop
  {
    hide Takes, Logged, OneAfterAnother, AllEligible, OnlyReady, NoneReady, RunnableCpus, Idle, Jumps, NobodyToStep;
    if c.n == 1 { SoloTurns(c, t); } else { SomeProcessors(c, t); SharedTurns(c, t); }
    SeenGoesOn(c, t);
    LoggedFrom(c, t.top, t.seen, t.log, t.end, t.fate == Returned(false));
  }

  lemma SomeProcessors<W(!new)>(c: Config<W>, t: Turn<W>)
    requires Takes(c, t)
    ensures c.n >= 1
  {
  }

  /** No step is made unlogged: each logged step finds the processors as the one before left them, the first finds them
      as the run began, and none but the very last may fail without a halt. */
  lemma {:induction false} LogIsComplete<W(!new)>(c: Config<W>, m0: Machine<W>, budget: nat, turns: seq<Turn<W>>)
    requires Follow(c, m0, budget, turns)
    ensures Logged(c, m0, Steps(turns), EndOf(m0, turns), LastFailed(turns))
    ensures |Steps(turns)| == budget - LeftAfter(budget, turns) == EndOf(m0, turns).cpuSteps - m0.cpuSteps
    decreases |turns|
  {
    hide Logged, Takes;
    if turns == [] {
      LoggedNothing(c, m0, m0);
    } else {
      var init, t := turns[..|turns| - 1], turns[|turns| - 1];
      LogIsComplete(c, m0, budget, init);
      TurnIsLogged(c, t);
      LoggedTwice(c, m0, Steps(init), t.top, t.log, t.end, t.fate == Returned(false));
    }
    LoggedCounts(c, m0, Steps(turns), EndOf(m0, turns), LastFailed(turns));
  }

  lemma LoggedCounts<W>(c: Config<W>, m: Machine<W>, log: seq<Step<W>>, end: Machine<W>, failed: bool)
    requires Logged(c, m, log, end, failed)
    ensures end.cpuSteps == m.cpuSteps + |log|
  {
    TracedCounts(c, m, log, end);
  }

  /** A request to stop is honoured at once: the step that makes it is the last of the run. */
  lemma StopIsLast<W(!new)>(c: Config<W>, m0: Machine<W>, budget: nat, turns: seq<Turn<W>>, j: nat)
    requires Follow(c, m0, budget, turns) && j < |Steps(turns)|
    requires AsksToStop(Decide(c, Steps(turns)[j].m, Steps(turns)[j].cpu).actions)
    ensures j == |Steps(turns)| - 1 && EndOf(m0, turns).stop
  {
    hide Follow, Steps, Decide, FailsLast;
    LogIsComplete(c, m0, budget, turns);
    var log := Steps(turns);
    assert Leaves(c, log[j], Found(log, j + 1, EndOf(m0, turns)));
  }

  lemma LastFailedMeans<W(!new)>(c: Config<W>, m0: Machine<W>, budget: nat, turns: seq<Turn<W>>)
    requires Follow(c, m0, budget, turns)
    ensures var log := Steps(turns); LastFailed(turns) <==> log != [] && Fails(c, log[|log| - 1])
  {
    hide Fails, Traced, Follow, Steps, LastFailed;
    LogIsComplete(c, m0, budget, turns);
  }

  lemma ReturnsTrueWhenStopped<W(!new)>(c: Config<W>, m0: Machine<W>, budget: nat, turns: seq<Turn<W>>)
    requires Follow(c, m0, budget, turns) && turns != [] && turns[|turns| - 1].fate == Returned(true)
    ensures c.n > 1 ==> EndOf(m0, turns).stop
  {
    hide Takes, Logged;
    TurnIsLogged(c, turns[|turns| - 1]);
  }

  lemma LeftIsNatural<W(!new)>(c: Config<W>, m0: Machine<W>, budget: nat, turns: seq<Turn<W>>)
    requires Follow(c, m0, budget, turns)
    ensures 0 <= LeftAfter(budget, turns)
  {
  }

  /** A run reports failure exactly when its last step failed without a halt, or when several processors are left
      unfinished: steps are left, nobody asked to stop, and somebody has not halted. */
  lemma FailureMeans<W(!new)>(c: Config<W>, m0: Machine<W>, budget: nat, turns: seq<Turn<W>>, m: Machine<W>, r: RunResult)
    requires c.n >= 1 && Ran(c, m0, budget, turns, m, r) && r.Finished?
    ensures var log := Steps(turns);
      r == Finished(false) <==>
        || (log != [] && Fails(c, log[|log| - 1]))
        || (c.n > 1 && |log| < budget && !m.stop && !AllAreHalted(c, m))
  {
    hide Follow, Fails, Steps, AllAreHalted, Sync, Logged, Shaped, Stuck;
    LogIsComplete(c, m0, budget, turns);
    LastFailedMeans(c, m0, budget, turns);
    if turns != [] && turns[|turns| - 1].fate == Returned(true) { ReturnsTrueWhenStopped(c, m0, budget, turns); }
    LeftIsNatural(c, m0, budget, turns);
  }

  // ----- who is stepped -----

  /** A step that reports success although it leaves its processor halted or off. */
  ghost predicate TookDown<W>(c: Config<W>, s: Step<W>) {
    var o := Decide(c, s.m, s.cpu);
    o.ok && !(c.procs.powered(o.world, s.cpu) && !c.procs.halted(o.world, s.cpu))
  }

  /** A processor that is on, not halted and not waiting is ready. */
  ghost predicate AwakeIsReady<W(!new)>(c: Config<W>) {
    forall m: Machine<W>, i: nat | Active(c, m, i) && !Waiting(c, m, i) :: Runnable(c, m, i)
  }

  lemma ReadyCases<W>(c: Config<W>, m: Machine<W>)
    ensures NoneReady(c, m) || (exists i: nat :: OnlyReady(c, m, i)) || |RunnableCpus(c, m, c.n)| > 1
  {
    hide Runnable;
    if !NoneReady(c, m) {
      var i: nat :| i < c.n && Runnable(c, m, i);
      if !OnlyReady(c, m, i) {
        var k: nat :| k < c.n && Runnable(c, m, k) && k != i;
        var pair, ready := {i, k}, RunnableCpus(c, m, c.n);
        assert pair <= ready;
        SubsetCard(pair, ready);
      }
    }
  }

  lemma SubsetCard(a: set<nat>, b: set<nat>)
    requires a <= b
    ensures |a| <= |b|
  {
    assert b == a + (b - a);
  }

  /** The steps of a window: on and not halted exactly unless the step before took the processor down. */
  lemma WindowStep<W>(c: Config<W>, i: nat, log: seq<Step<W>>, j: nat)
    requires OneAfterAnother(c, i, log) && 0 < j < |log|
    ensures log[j].cpu == log[j - 1].cpu == i && Decide(c, log[j - 1].m, i).ok
    ensures Active(c, log[j].m, i) <==> !TookDown(c, log[j - 1])
    ensures c.n > 1 ==> !Waiting(c, log[j].m, i)
  {
    hide Beat, Decide, Steppable;
    AllSteppedAre(c, i, log, j - 1);
    assert Continues(c, i, log[j - 1], Next(log, j - 1));
    BeatWorld(c, log[j - 1].m, i);
  }

  lemma FirstWindowStep<W>(c: Config<W>, seen: Machine<W>, i: nat, log: seq<Step<W>>)
    requires OneAfterAnother(c, i, log) && log != [] && SameGuest(seen, log[0].m) && Runnable(c, seen, i)
    ensures log[0].cpu == i && Runnable(c, log[0].m, i)
  {
  }

  /** Who a turn with several processors steps. */
  ghost predicate RightChoice<W>(c: Config<W>, t: Turn<W>, j: nat)
    requires j < |t.log|
  {
    var s := t.log[j];
    && s.cpu < c.n
    && (NoneReady(c, t.seen) ==> Active(c, s.m, s.cpu) && !AllHaltedIn(c, t.seen.world) && !Jumps(c, t.seen))
    && (|RunnableCpus(c, t.seen, c.n)| > 1 ==> Runnable(c, s.m, s.cpu))
    && (forall i: nat | OnlyReady(c, t.seen, i) ::
          && s.cpu == i && (j == 0 ==> Runnable(c, s.m, i))
          && (j > 0 ==> !Waiting(c, s.m, i) && (Active(c, s.m, i) <==> !TookDown(c, t.log[j - 1]))))
  }

  lemma TurnChooses<W(!new)>(c: Config<W>, t: Turn<W>, j: nat)
    requires c.n > 1 && Takes(c, t) && j < |t.log|
    ensures RightChoice(c, t, j)
  {
    hide Takes, Logged, Decide, SameGuest, Jumps, AllHaltedIn, OneAfterAnother, ActiveCpus, RunnableCpus, Waiting, TookDown,
      Active, NoneReady;
    SharedTurns(c, t);
    CountingReady(c, t.seen);
    ReadyCases(c, t.seen);
    forall i: nat | OnlyReady(c, t.seen, i)
      ensures t.log[j].cpu == i && (j == 0 ==> Runnable(c, t.log[j].m, i))
      ensures j > 0 ==> !Waiting(c, t.log[j].m, i) && (Active(c, t.log[j].m, i) <==> !TookDown(c, t.log[j - 1]))
    {
      if j == 0 { FirstWindowStep(c, t.seen, i, t.log); } else { WindowStep(c, i, t.log, j); }
    }
  }

  /** Every step of a run of several processors is of a processor on and not halted, but in one case: in the window
      of the one ready processor, when its step before took it down and yet reported success. */
  lemma SteppedIsActive<W(!new)>(c: Config<W>, m0: Machine<W>, budget: nat, turns: seq<Turn<W>>, k: nat, j: nat)
    requires c.n > 1 && Follow(c, m0, budget, turns) && k < |turns| && j < |turns[k].log|
    ensures var t := turns[k]; var s := t.log[j];
      && s.cpu < c.n
      && (Active(c, s.m, s.cpu) <==> !(OnlyReady(c, t.seen, s.cpu) && j > 0 && TookDown(c, t.log[j - 1])))
  {
    hide Takes, Follow, TookDown, Active, Runnable, OnlyReady, NoneReady, AllHaltedIn, Jumps, Waiting, RunnableCpus;
    TurnAt(c, m0, budget, turns, k);
    TurnChooses(c, turns[k], j);
    ChosenIsActive(c, turns[k], j);
  }

  lemma ChosenIsActive<W>(c: Config<W>, t: Turn<W>, j: nat)
    requires j < |t.log| && RightChoice(c, t, j)
    ensures var s := t.log[j];
      Active(c, s.m, s.cpu) <==> !(OnlyReady(c, t.seen, s.cpu) && j > 0 && TookDown(c, t.log[j - 1]))
  {
    hide TookDown, AllHaltedIn, Jumps, Waiting;
    ReadyCases(c, t.seen);
    CountingReady(c, t.seen);
  }

  /** A processor that is not ready is stepped only when the turn found nobody ready, not all halted and nothing to
      jump to, or after a step that took it down and yet reported success. A window begins with the one processor
      that is ready. */
  lemma SteppedIsReady<W(!new)>(c: Config<W>, m0: Machine<W>, budget: nat, turns: seq<Turn<W>>, k: nat, j: nat)
    requires c.n > 1 && Follow(c, m0, budget, turns) && k < |turns| && j < |turns[k].log| && AwakeIsReady(c)
    ensures var t := turns[k]; var s := t.log[j];
      Runnable(c, s.m, s.cpu)
      || (NoneReady(c, t.seen) && !AllHaltedIn(c, t.seen.world) && !Jumps(c, t.seen))
      || (OnlyReady(c, t.seen, s.cpu) && j > 0 && TookDown(c, t.log[j - 1]))
    ensures forall i: nat | OnlyReady(c, turns[k].seen, i) ::
      turns[k].log[j].cpu == i && (j == 0 ==> Runnable(c, turns[k].log[j].m, i))
  {
    hide Takes, Follow, TookDown, Active, Runnable, OnlyReady, NoneReady, AllHaltedIn, Jumps, Waiting, RunnableCpus;
    TurnAt(c, m0, budget, turns, k);
    TurnChooses(c, turns[k], j);
    ReadyCases(c, turns[k].seen);
    ChosenIsActive(c, turns[k], j);
  }

  /** The one processor: a turn steps it unless it is not ready and there is something to jump to, and its window begins
      in the state the turn saw. */
  lemma SoloStepped<W(!new)>(c: Config<W>, m0: Machine<W>, budget: nat, turns: seq<Turn<W>>, k: nat, j: nat)
    requires c.n == 1 && Follow(c, m0, budget, turns) && k < |turns| && j < |turns[k].log|
    ensures var t := turns[k]; var s := t.log[j];
      && s.cpu == 0
      && (c.procs.ready(t.seen.world, t.seen.gic, 0) || !Jumps(c, t.seen))
      && (j == 0 ==> SameGuest(t.seen, s.m))
      && (j > 0 ==> Decide(c, t.log[j - 1].m, 0).ok && !s.m.stop && !s.m.schedDirty)
  {
    hide Takes, Follow, Logged, Jumps, Decide, SameGuest;
    var t := turns[k];
    TurnAt(c, m0, budget, turns, k);
    SoloTurns(c, t);
    AllSteppedAre(c, 0, t.log, j);
    IdleAlone(c, t.seen);
    if j > 0 { assert Continues(c, 0, t.log[j - 1], Next(t.log, j - 1)); }
  }

  // ----- when time jumps -----

  /** The next interrupt lies ahead of the machine, at a tick that the 48 bits of guest time can hold. */
  ghost predicate Ahead<W>(m: Machine<W>, d: int) {
    Deadline(m.timer, Now(m)) == Some(d) && Now(m) < d < TWO48
  }

  /** On a sound schedule the cached event is that deadline. */
  lemma AheadIsSeen<W(!new)>(c: Config<W>, m: Machine<W>, d: int)
    requires Valid(c, m) && m.trusted && Ahead(m, d)
    ensures NextEvent(m).event == Some(d) && NextEvent(m).trusted
  {
    hide Deadline, StepsUntilIrq;
    NextEventIsRight(c, m);
    DeadlineIsSum(m.timer, Now(m));
    var m' := NextEvent(m);
    if m'.event.None? {
      TimerTheorems.FarStaysFar(m.timer, m'.scheduledAt, NO_DEADLINE, Now(m) - m'.scheduledAt);
    }
  }

  lemma DeadlineIsSum(tm: Timer, now: u64)
    ensures Deadline(tm, now).Some? ==> Deadline(tm, now).value == now + StepsUntilIrq(tm, now, NO_DEADLINE)
    ensures tm.mode == HostMonotonic ==> Deadline(tm, now) == None
  {
  }

  lemma IdleIsNoneReady<W>(c: Config<W>, m: Machine<W>)
    requires c.n > 1 && Idle(c, m)
    ensures NoneReady(c, m) && !AllHaltedIn(c, m.world)
  {
  }

  /** A turn that finds nobody to run and something to jump to is a jump. */
  lemma IdleTurnLeaps<W(!new)>(c: Config<W>, t: Turn<W>)
    requires Takes(c, t) && Idle(c, t.seen) && Jumps(c, t.seen)
    ensures Leaps(c, t)
  {
    hide Valid, MaybeSync, Idle, Jumps, NoneReady, OnlyReady, RunnableCpus, ActiveCpus, AllHaltedIn, RunsShared, RunsRounds,
      RunsAlone, Leaps;
    if c.n > 1 {
      IdleIsNoneReady(c, t.seen);
      CountingReady(c, t.seen);
    } else {
      SomeProcessors(c, t);
    }
  }

  /** With nobody to run and the next interrupt ahead, the turn steps nobody but jumps, to exactly that tick, where the
      interrupt lines show it. */
  lemma IdleJumps<W(!new)>(c: Config<W>, t: Turn<W>, d: int)
    requires Takes(c, t) && !c.legacy && Idle(c, t.seen) && t.seen.trusted && Ahead(t.seen, d)
    ensures Leaps(c, t) && t.fate == Leapt && t.log == [] && Now(t.end) == d
    ensures Valid(c, t.end) && LinesRight(c, t.end) && Fresh(t.end) && !t.end.schedValid && Deadline(t.end.timer, d) == Some(d)
    ensures t.end.fp % FRAC_ONE == 0
  {
    hide Deadline, TakesSolo, TakesShared, Idle, FastForward, LinesRight, MaybeSync, Fresh;
    var m := t.seen;
    AheadIsSeen(c, m, d);
    DeadlineIsSum(m.timer, Now(m));
    IdleTurnLeaps(c, t);
    FastForwardLands(c, m);
  }

  /** After such a jump the next turn finds the time at that tick and does not jump again: whoever it steps first is
      stepped at the very tick of the interrupt. */
  lemma StepsAfterJump<W(!new)>(c: Config<W>, m0: Machine<W>, budget: nat, turns: seq<Turn<W>>, k: nat, d: int)
    requires Follow(c, m0, budget, turns) && k < |turns|
    requires !c.legacy && Idle(c, turns[k].seen) && turns[k].seen.trusted && Ahead(turns[k].seen, d)
    ensures turns[k].log == [] && Now(turns[k].end) == d && Valid(c, turns[k].end) && LinesRight(c, turns[k].end)
    ensures k + 1 < |turns| ==>
      var u := turns[k + 1];
      u.top == turns[k].end && Now(u.seen) == d && !Jumps(c, u.seen) && (u.log != [] ==> Now(u.log[0].m) == d)
  {
    hide Takes, Follow, Jumps, Fresh, LinesRight, Deadline, Idle, Leaps, Valid;
    TurnAt(c, m0, budget, turns, k);
    IdleJumps(c, turns[k], d);
    if k + 1 < |turns| {
      TurnAt(c, m0, budget, turns, k + 1);
      var u := turns[k + 1];
      assert u.top == turns[k].end;
      NoSecondJump(c, u, d);
      FirstStepAt(c, u);
    }
  }

  lemma NoSecondJump<W(!new)>(c: Config<W>, u: Turn<W>, d: int)
    requires Takes(c, u) && !c.legacy && Valid(c, u.top) && Fresh(u.top) && !u.top.schedValid
    requires Now(u.top) == d && Deadline(u.top.timer, d) == Some(d)
    ensures Now(u.seen) == d && !Jumps(c, u.seen)
  {
    hide Takes, Deadline, MaybeSync, Valid;
    SeenIs(c, u);
    MaybeSyncSettles(c, u.top);
    MaybeSyncExact(c, u.top);
    NextEventExact(u.seen);
  }

  lemma SeenIs<W(!new)>(c: Config<W>, t: Turn<W>)
    requires Takes(c, t)
    ensures Valid(c, t.top) && Valid(c, t.seen) && t.seen == MaybeSync(c, t.top)
  {
    hide TakesSolo, TakesShared, MaybeSync;
  }

  lemma FirstStepAt<W(!new)>(c: Config<W>, t: Turn<W>)
    requires Takes(c, t)
    ensures t.log != [] ==> SameGuest(t.seen, t.log[0].m)
  {
    hide Takes, SameGuest, Logged, OneAfterAnother, AllEligible, OnlyReady, NoneReady, RunnableCpus, Idle, Jumps, NobodyToStep;
    SomeProcessors(c, t);
    if c.n == 1 { SoloTurns(c, t); } else { SharedTurns(c, t); }
  }
}
