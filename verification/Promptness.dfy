/** No interrupt is due unseen when a processor is stepped, while the loop watches the deadline. */
module Promptness {
  import opened Words
  import opened TimerSpec
  import TimerTheorems
  import opened SchedulerSpec
  import opened MachineSpec
  import opened MachineTheorems
  import opened RunSpec
  import opened TurnSpec
  import opened TurnTheorems
  import G = GicSpec
  import GicTheorems

  /** Every timer interrupt that is due now is shown. */
  ghost predicate AllShown<W>(m: Machine<W>) { ShownAt(m.timer, Now(m)) }

  ghost predicate ShownAt(tm: Timer, now: u64) {
    forall i | 0 <= i < |tm.cpus| && DueAt(tm, i, now) :: Pending(tm, i)
  }

  /** Nothing is due. */
  ghost predicate NothingDue(tm: Timer, now: u64) {
    forall i | 0 <= i < |tm.cpus| :: !DueAt(tm, i, now)
  }

  lemma SyncedShows(tm: Timer, now: u64)
    requires SyncedAt(tm, now)
    ensures ShownAt(tm, now)
  {
    assert (now - tm.anchor) * tm.cps == 0;
    forall i | 0 <= i < |tm.cpus| && DueAt(tm, i, now) ensures Pending(tm, i) {
      var s := Sources(tm, i);
      assert tm.mmioPending || Due(s[0], tm.counter) || Due(s[1], tm.counter) || Due(s[2], tm.counter);
      assert UpdateIrq(tm).cpus[i] == UpdateCpu(tm.cpus[i], tm.counter);
    }
  }

  /** Before a predicted deadline nothing is due. */
  lemma BeforeDeadline(tm: Timer, t: u64, j: nat)
    requires tm.mode == GuestStep && j < StepsUntilIrq(tm, t, NO_DEADLINE) && t + j < TWO64
    ensures NothingDue(tm, t + j)
  {
    var later: u64 := t + j;
    forall i | 0 <= i < |tm.cpus| ensures !DueAt(tm, i, later) {
      TimerTheorems.NothingDueBeforeAnywhere(tm, t, NO_DEADLINE, j, i);
    }
  }

  /** The schedule that a machine goes by while it looks at it: sound, and the deadline ahead or out of sight. */
  lemma QuietUntil<W(!new)>(c: Config<W>, m: Machine<W>, j: nat)
    requires Valid(c, m) && m.timer.mode == GuestStep && NextEvent(m).trusted && Now(m) + j < TWO48
    requires NextEvent(m).event.Some? ==> Now(m) + j < NextEvent(m).event.value
    ensures NothingDue(m.timer, Now(m) + j)
  {
    hide Deadline, StepsUntilIrq, NothingDue;
    NextEventIsRight(c, m);
    var e := NextEvent(m);
    if e.event.Some? {
      DeadlineIsSum(m.timer, Now(m));
      BeforeDeadline(m.timer, Now(m), j);
    } else {
      BeforeDeadline(m.timer, e.scheduledAt, Now(m) + j - e.scheduledAt);
    }
  }

  /** After the look at the devices at the top of a turn the lines are right, and everything due is shown. */
  lemma TopShowsDue<W(!new)>(c: Config<W>, m: Machine<W>)
    requires Valid(c, m) && m.timer.mode == GuestStep && m.trusted
    ensures var m' := MaybeSync(c, m); Valid(c, m') && LinesRight(c, m') && AllShown(m')
  {
    hide NextEvent, Sync, Deadline, SyncedAt, ShownAt, ViewOf, DeviceView, WindowNeeded, LooksAtSchedule, NothingDue;
    MaybeSyncSettles(c, m);
    var m1 := AfterWindowNeeded(c, m);
    NextEventSettles(c, m);
    NextEventSettles(c, m1);
    NextEventFrame(c, m1);
    var m2 := NextEvent(m1);
    if c.legacy {
      SyncShows(c, m);
    } else if !WindowNeeded(c, m) || !m1.syncValid || m1.schedDirty {
      SyncShows(c, m1);
    } else if m2.event.Some? && m2.event.value <= Now(m2) {
      SyncShows(c, m2);
    } else {
      QuietUntil(c, m1, 0);
      QuietIsShown(m1.timer, Now(m1));
    }
  }

  /** An interrupt that is due when a turn begins has reached the controller when the turn looks round: a line of that
      CPU is up, and its interrupt is pending unless it is being served. */
  lemma DueReachesController<W(!new)>(c: Config<W>, m: Machine<W>, i: nat)
    requires Valid(c, m) && m.timer.mode == GuestStep && m.trusted && i < c.n
    requires Valid(c, MaybeSync(c, m)) && |MaybeSync(c, m).timer.cpus| == c.n && DueAt(MaybeSync(c, m).timer, i, Now(m))
    requires GicTheorems.LevelsHeld(MaybeSync(c, m).gic)
    ensures exists x | x in {27, 30} :: var s := G.At(MaybeSync(c, m).gic, i, x); s.line && (s.pending || s.active)
  {
    hide MaybeSync, LinesRight, DueAt, G.At, ViewOf;
    var m' := MaybeSync(c, m);
    TopShowsDue(c, m);
    MaybeSyncSettles(c, m);
    assert Pending(m'.timer, i);
    LinesMean(c, m', i);
    var x := if G.At(m'.gic, i, 27).line then 27 else 30;
    assert GicTheorems.Held(G.At(m'.gic, i, x));
  }

  lemma QuietIsShown(tm: Timer, now: u64)
    requires NothingDue(tm, now)
    ensures ShownAt(tm, now)
  {
  }

  lemma SyncShows<W(!new)>(c: Config<W>, m: Machine<W>)
    requires Valid(c, m) && m.timer.mode == GuestStep
    ensures AllShown(Sync(c, m))
  {
    hide SyncedAt, ShownAt, Sync;
    SyncFrame(c, m);
    SyncedShows(Sync(c, m).timer, Now(m));
  }

  // ----- time while processors run -----

  /** A step seen from the machine it started out from: unless the schedule has gone stale or time has wrapped around,
      the timer is as it was, and fewer than n ticks have passed. */
  ghost predicate Within<W>(m: Machine<W>, n: nat, s: Machine<W>) {
    s.trusted && !s.schedDirty ==>
      m.trusted && !m.schedDirty && s.timer == m.timer && Now(m) <= Now(s) < Now(m) + n
  }

  lemma WithinTwice<W>(m: Machine<W>, k: nat, m1: Machine<W>, n: nat, s: Machine<W>)
    requires Within(m, k + 1, m1) && Within(m1, n, s)
    ensures Within(m, k + n, s)
  {
  }

  lemma StepWithin<W(!new)>(c: Config<W>, m: Machine<W>, i: nat)
    requires Valid(c, m)
    ensures var m1 := Counted(StepCpu(c, m, i)); Valid(c, m1) && Within(m, 1, m1) && m1.fp == m.fp
  {
    hide Valid;
    StaysStale(c, m, i);
    StepAccounted(c, m, i);
    StepCpuKeepsValid(c, m, i);
  }

  /** A step never makes a stale schedule good. */
  lemma StaysStale<W(!new)>(c: Config<W>, m: Machine<W>, i: nat)
    requires Valid(c, m)
    ensures m.schedDirty ==> StepCpu(c, m, i).schedDirty
  {
    hide PerformAll;
    PerformAllFrame(c, m, Decide(c, m, i).actions);
  }

  lemma TickWithin<W(!new)>(c: Config<W>, m: Machine<W>, k: nat)
    requires Valid(c, m) && k > 0
    ensures var m1 := Ticked(AdvanceTime(m, k, k)); Valid(c, m1) && Within(m, 2, m1)
  {
    hide Valid, Advanced;
    AdvanceTimeKeepsValid(c, m, k);
    TickAccounted(c, m, k);
  }

  lemma BeatWithin<W(!new)>(c: Config<W>, m: Machine<W>, i: nat)
    requires Valid(c, m)
    ensures Valid(c, Beat(c, m, i)) && Within(m, 2, Beat(c, m, i))
  {
    hide Valid, StepCpu, AdvanceTime, Within;
    ValidIsSteppable(c, m);
    StepWithin(c, m, i);
    var m1 := Counted(StepCpu(c, m, i));
    TickWithin(c, m1, 1);
    WithinTwice(m, 0, m1, 2, Ticked(AdvanceTime(m1, 1, 1)));
  }

  /** The steps of a window are a tick apart. */
  lemma {:induction false} WindowWithin<W(!new)>(c: Config<W>, i: nat, log: seq<Step<W>>, j: nat)
    requires OneAfterAnother(c, i, log) && j < |log| && Valid(c, log[0].m)
    ensures Valid(c, log[j].m) && Within(log[0].m, j + 1, log[j].m)
  {
    hide Valid, Beat, Decide, Within, Waiting;
    if j == 0 {
      NoTimePassed(log[0].m);
    } else {
      WindowWithin(c, i, log, j - 1);
      assert Continues(c, i, log[j - 1], Next(log, j - 1));
      BeatWithin(c, log[j - 1].m, i);
      WithinTwice(log[0].m, j - 1, log[j - 1].m, 2, log[j].m);
    }
  }

  lemma NoTimePassed<W>(m: Machine<W>)
    ensures Within(m, 1, m)
  {
  }

  ghost predicate AllWithin<W>(m: Machine<W>, n: nat, log: seq<Step<W>>) {
    forall j | 0 <= j < |log| :: Within(m, n, log[j].m)
  }

  /** The steps of a round all fall in its tick. */
  lemma {:induction false} RoundWithin<W(!new)>(c: Config<W>, m: Machine<W>, pollWaiters: bool, i: nat, left: nat)
    requires Valid(c, m) && Steppable(m)
    ensures var r := RoundFrom(c, m, pollWaiters, i, left); Valid(c, r.m) && AllWithin(m, 1, r.log) && Within(m, 1, r.m)
    decreases c.n - i
  {
    hide Valid, StepCpu, Decide, Eligible, Within;
    NoTimePassed(m);
    if i < c.n && left > 0 && !m.stop {
      if !Eligible(c, m, pollWaiters, i) {
        RoundWithin(c, m, pollWaiters, i + 1, left);
      } else {
        var m1 := Counted(StepCpu(c, m, i));
        StepWithin(c, m, i);
        RoundWithin(c, m1, pollWaiters, i + 1, left - 1);
        var rest := RoundFrom(c, m1, pollWaiters, i + 1, left - 1);
        forall j | 0 <= j < |rest.log| ensures Within(m, 1, rest.log[j].m) { WithinTwice(m, 0, m1, 1, rest.log[j].m); }
        WithinTwice(m, 0, m1, 1, rest.m);
      }
    }
  }

  /** The steps of so many rounds fall in as many ticks. */
  lemma {:induction false} RoundsWithin<W(!new)>(c: Config<W>, m: Machine<W>, pollWaiters: bool, rounds: nat, left: nat)
    requires Valid(c, m) && Steppable(m)
    ensures AllWithin(m, rounds, RoundsFrom(c, m, pollWaiters, rounds, left).log)
    decreases rounds
  {
    hide Valid, RoundFrom, Within, AdvanceTime, AllHaltedIn;
    if rounds > 0 && left > 0 && !m.stop {
      var r := RoundFrom(c, m, pollWaiters, 0, left);
      RoundWithin(c, m, pollWaiters, 0, left);
      forall j | 0 <= j < |r.log| ensures Within(m, rounds, r.log[j].m) { Looser(m, 1, rounds, r.log[j].m); }
      if !r.failed && r.log != [] {
        var m1 := Ticked(AdvanceTime(r.m, |r.log|, |r.log|));
        TickWithin(c, r.m, |r.log|);
        WithinTwice(m, 0, r.m, 2, m1);
        ValidIsSteppable(c, m1);
        if !m1.schedDirty {
          RoundsWithin(c, m1, pollWaiters, rounds - 1, left - |r.log|);
          var rest := RoundsFrom(c, m1, pollWaiters, rounds - 1, left - |r.log|);
          forall j | 0 <= j < |rest.log| ensures Within(m, rounds, rest.log[j].m) {
            WithinTwice(m, 1, m1, rounds - 1, rest.log[j].m);
          }
        }
      }
    }
  }

  lemma Looser<W>(m: Machine<W>, k: nat, n: nat, s: Machine<W>)
    requires Within(m, k, s) && k <= n
    ensures Within(m, n, s)
  {
  }

  // ----- steps while the deadline is watched -----

  /** Whoever runs for a window that watches the deadline, each step finds everything shown that is due. */
  lemma WatchedSees<W(!new)>(c: Config<W>, x: Machine<W>, budget: nat, divisor: nat, from: Machine<W>, s: Machine<W>)
    requires Valid(c, x) && x.timer.mode == GuestStep && !c.legacy && AllShown(x) && divisor > 0
    requires from == AfterWindow(c, x, true) || from == Forgotten(AfterWindow(c, x, true))
    requires Within(from, Window(c, x, budget, divisor, true), s) && s.trusted && !s.schedDirty
    ensures AllShown(s)
  {
    hide Deadline, ShownAt, NothingDue, Valid;
    NextEventFrame(c, x);
    if Now(s) != Now(x) {
      QuietUntil(c, x, Now(s) - Now(x));
      QuietIsShown(s.timer, Now(s));
    }
  }

  lemma ShownCarries<W>(m: Machine<W>, m': Machine<W>)
    requires AllShown(m) && m'.timer == m.timer && m'.fp == m.fp
    ensures AllShown(m')
  {
  }

  /** Looking at the schedule changes neither whether the deadline is watched nor what is shown. */
  lemma LookedAtTwice<W(!new)>(c: Config<W>, m: Machine<W>)
    requires Valid(c, m) && AllShown(m)
    ensures Valid(c, Stayed(c, m)) && Valid(c, AfterWindowNeeded(c, m))
    ensures AllShown(Stayed(c, m)) && AllShown(AfterWindowNeeded(c, m))
    ensures AfterWindowNeeded(c, m).timer.mode == Stayed(c, m).timer.mode == m.timer.mode
    ensures WindowNeeded(c, Stayed(c, m)) == WindowNeeded(c, m)
  {
    hide Valid, Deadline, ShownAt, LooksAtSchedule, Active;
    NextEventFrame(c, m);
    NextEventIsRight(c, m);
    ShownCarries(m, NextEvent(m));
    SameLooks(c, m, NextEvent(m));
    assert NextEvent(NextEvent(m)) == NextEvent(m);
  }

  lemma SameLooks<W>(c: Config<W>, m: Machine<W>, m': Machine<W>)
    requires m'.world == m.world && m'.timer.mode == m.timer.mode
    ensures LooksAtSchedule(c, m) == LooksAtSchedule(c, m')
    ensures (exists i | 0 <= i < c.n :: Active(c, m, i)) == (exists i | 0 <= i < c.n :: Active(c, m', i))
  {
    forall i: nat ensures Active(c, m, i) == Active(c, m', i) && Waiting(c, m, i) == Waiting(c, m', i) {
    }
  }

  /** A turn that watches the deadline: one of several processors runs alone, or a window or rounds for which the loop
      found it needful. */
  ghost predicate Watches<W>(c: Config<W>, t: Turn<W>) {
    t.seen.timer.mode == GuestStep && !c.legacy && (WindowNeeded(c, t.seen) || (c.n > 1 && exists i: nat :: OnlyReady(c, t.seen, i)))
  }

  /** What a window from m opened with the deadline watched logs. */
  lemma OpenedSees<W(!new)>(c: Config<W>, m: Machine<W>, left: nat, divisor: nat, s: Machine<W>)
    requires Valid(c, m) && AllShown(m) && m.timer.mode == GuestStep && !c.legacy && WindowNeeded(c, m) && divisor > 0
    requires Within(Opened(c, m), OpenedWindow(c, m, left, divisor), s) && s.trusted && !s.schedDirty
    ensures AllShown(s)
  {
    hide Valid, WindowNeeded, AfterWindowNeeded, Window, AfterWindow, Within, AllShown;
    LookedAtTwice(c, m);
    WatchedSees(c, AfterWindowNeeded(c, m), left, divisor, Opened(c, m), s);
  }

  lemma OpenedIsValid<W(!new)>(c: Config<W>, m: Machine<W>)
    requires Valid(c, m)
    ensures Valid(c, Opened(c, m)) && Valid(c, Forgotten(AfterWindow(c, m, true)))
  {
    hide Valid, WindowNeeded, LooksAtSchedule;
    NextEventSettles(c, m);
    AfterWindowSettles(c, AfterWindowNeeded(c, m), WindowNeeded(c, m));
    AfterWindowSettles(c, m, true);
    OtherFieldsAccounted(c, AfterWindow(c, m, true), Forgotten(AfterWindow(c, m, true)));
  }

  lemma LogWithin<W(!new)>(c: Config<W>, i: nat, m: Machine<W>, k: nat, s: Stretch<W>, j: nat)
    requires WindowLog(c, i, m, k, s) && j < |s.log| && Valid(c, m)
    ensures Within(m, k, s.log[j].m)
  {
    hide Valid, Within, OneAfterAnother, Logged;
    WindowWithin(c, i, s.log, j);
    Looser(m, j + 1, k, s.log[j].m);
  }

  lemma SoloSees<W(!new)>(c: Config<W>, t: Turn<W>, j: nat)
    requires c.n == 1 && Takes(c, t) && Watches(c, t) && t.top.trusted && j < |t.log|
    requires t.log[j].m.trusted && !t.log[j].m.schedDirty
    ensures AllShown(t.log[j].m)
  {
    hide Valid, MaybeSync, Idle, Jumps, FastForward, Opened, OpenedWindow, Stayed, SoloRun, WindowLog, WindowNeeded, Within,
      AllShown, SameGuest;
    SeenIs(c, t);
    SeenKeepsMode(c, t);
    TopShowsDue(c, t.top);
    LookedAtTwice(c, t.seen);
    var m := if Idle(c, t.seen) then Stayed(c, t.seen) else t.seen;
    var exit :| t.fate == FateOf(exit) && RunsAlone(c, m, t.left, t.log, t.end, exit);
    var e :| exit == SoloExit(e) && SoloEnds(c, Opened(c, m), OpenedWindow(c, m, t.left, 1), t.log, t.end, e);
    var o, k := Opened(c, m), OpenedWindow(c, m, t.left, 1);
    OpenedIsValid(c, m);
    LookingKeepsGuest(c, t.seen);
    SeenGoesOn(c, t);
    GuestIsWorld(t.seen, o);
    SoloLog(c, o, k);
    LogWithin(c, 0, o, k, Stretch(t.end, t.log, e), j);
    OpenedSees(c, m, t.left, 1, t.log[j].m);
  }

  lemma SeenKeepsMode<W(!new)>(c: Config<W>, t: Turn<W>)
    requires Takes(c, t)
    ensures t.seen.timer.mode == t.top.timer.mode
  {
    hide Valid, MaybeSync, TakesSolo, TakesShared;
    MaybeSyncSettles(c, t.top);
  }

  lemma OneSees<W(!new)>(c: Config<W>, t: Turn<W>, j: nat)
    requires c.n > 1 && Takes(c, t) && TakesOne(c, t) && Watches(c, t) && t.top.trusted && j < |t.log|
    requires t.log[j].m.trusted && !t.log[j].m.schedDirty
    ensures AllShown(t.log[j].m)
  {
    hide Valid, MaybeSync, Jumps, Stayed, Logged, SharedRun, WindowLog, SameGuest, OnlyReady, NoneReady, AllHaltedIn,
      TakesIdle, TakesMany, OtherWaiting, AfterWindow, WindowNeeded, Within, AllShown, Window;
    var i: nat, exit :| OnlyReady(c, t.seen, i) && t.fate == FateOf(exit) && RunsShared(c, i, t.seen, t.left, t.log, t.end, exit);
    var m, k := Forgotten(AfterWindow(c, t.seen, true)), Window(c, t.seen, t.left, 1, true);
    var w := OtherWaiting(c, t.seen, i);
    var e :| exit == SharedExit(e) && SharedEnds(c, i, w, Shift(m, k, t.seen.gic.epoch), t.log, t.end, e);
    SeenKeepsMode(c, t);
    TopShowsDue(c, t.top);
    OpenedIsValid(c, t.seen);
    LookingKeepsGuest(c, t.seen);
    SeenGoesOn(c, t);
    GuestIsWorld(t.seen, m);
    SharedLog(c, m, i, k, w, t.seen.gic.epoch);
    LogWithin(c, i, m, k, Stretch(t.end, t.log, e), j);
    WatchedSees(c, t.seen, t.left, 1, m, t.log[j].m);
  }

  lemma RoundsSee<W(!new)>(c: Config<W>, m: Machine<W>, divisor: nat, pollWaiters: bool, left: nat, log: seq<Step<W>>,
                           end: Machine<W>, failed: bool, j: nat)
    requires Valid(c, m) && AllShown(m) && m.timer.mode == GuestStep && !c.legacy && WindowNeeded(c, m)
    requires RunsRounds(c, m, left, divisor, pollWaiters, log, end, failed)
    requires j < |log| && log[j].m.trusted && !log[j].m.schedDirty
    ensures AllShown(log[j].m)
  {
    hide Valid, WindowNeeded, Opened, OpenedWindow, RoundsFrom, Within, AllShown;
    var o, w := Opened(c, m), OpenedWindow(c, m, left, divisor);
    OpenedIsValid(c, m);
    RoundsWithin(c, o, pollWaiters, w, left);
    assert Within(o, w, log[j].m);
    OpenedSees(c, m, left, divisor, log[j].m);
  }

  lemma ManySee<W(!new)>(c: Config<W>, t: Turn<W>, j: nat)
    requires c.n > 1 && Takes(c, t) && !TakesOne(c, t) && Watches(c, t) && t.top.trusted && j < |t.log|
    requires t.log[j].m.trusted && !t.log[j].m.schedDirty
    ensures AllShown(t.log[j].m)
  {
    hide Valid, MaybeSync, Jumps, Stayed, OnlyReady, NoneReady, AllHaltedIn, ActiveCpus, RunnableCpus, TakesOne,
      WindowNeeded, RunsRounds, AllShown, Leaps;
    SeenIs(c, t);
    SeenKeepsMode(c, t);
    TopShowsDue(c, t.top);
    LookedAtTwice(c, t.seen);
    CountingReady(c, t.seen);
    if TakesMany(c, t) {
      var failed :| t.fate == FateOf(if failed then Some(false) else None) &&
        RunsRounds(c, t.seen, t.left, |RunnableCpus(c, t.seen, c.n)|, false, t.log, t.end, failed);
      RoundsSee(c, t.seen, |RunnableCpus(c, t.seen, c.n)|, false, t.left, t.log, t.end, failed, j);
    } else {
      if Jumps(c, t.seen) { LeapLogsNothing(c, t); }
      var failed :| t.fate == FateOf(if failed then Some(false) else None) &&
        RunsRounds(c, Stayed(c, t.seen), t.left, |ActiveCpus(c, t.seen, c.n)|, true, t.log, t.end, failed);
      RoundsSee(c, Stayed(c, t.seen), |ActiveCpus(c, t.seen, c.n)|, true, t.left, t.log, t.end, failed, j);
    }
  }

  lemma LeapLogsNothing<W>(c: Config<W>, t: Turn<W>)
    ensures Leaps(c, t) ==> t.log == []
  {
  }

  /** No interrupt is missed while the loop watches the deadline: in every run, each step of such a turn finds every timer
      interrupt shown that is due at its tick, unless a step of the turn has just made the schedule stale. */
  lemma NothingIsMissed<W(!new)>(c: Config<W>, m0: Machine<W>, budget: nat, turns: seq<Turn<W>>, k: nat, j: nat)
    requires Follow(c, m0, budget, turns) && k < |turns| && j < |turns[k].log|
    requires Watches(c, turns[k]) && turns[k].top.trusted
    requires turns[k].log[j].m.trusted && !turns[k].log[j].m.schedDirty
    ensures AllShown(turns[k].log[j].m)
  {
    hide Takes, Follow, TakesOne, Watches, AllShown;
    TurnAt(c, m0, budget, turns, k);
    SomeProcessors(c, turns[k]);
    if c.n == 1 { SoloSees(c, turns[k], j); }
    else if TakesOne(c, turns[k]) { OneSees(c, turns[k], j); }
    else { ManySee(c, turns[k], j); }
  }

  /** The loop does without watching only when no interrupt lies within the next 256 ticks, or no processor is on. */
  lemma UnwatchedIsFar<W(!new)>(c: Config<W>, m: Machine<W>)
    requires Valid(c, m) && m.trusted && m.timer.mode == GuestStep && !c.legacy && !WindowNeeded(c, m)
    ensures var d := Deadline(m.timer, Now(m)); d.None? || d.value > Now(m) + 256 || forall i | 0 <= i < c.n :: !Active(c, m, i)
  {
    hide Deadline, StepsUntilIrq;
    NextEventIsRight(c, m);
    DeadlineIsSum(m.timer, Now(m));
    var e := NextEvent(m);
    if LooksAtSchedule(c, m) && e.event.None? {
      TimerTheorems.FarStaysFar(m.timer, e.scheduledAt, NO_DEADLINE, Now(m) - e.scheduledAt);
    }
  }

  // ----- and where it is not -----

  /** At one cycle per tick some source asks for the predicted tick, and fits. */
  lemma UnitSourceFits(tm: Timer, i: nat, t: u64, cap: u64)
    requires tm.cps == 1 && i < |tm.cpus| && 0 < CpuSteps(tm, i, t, cap) < cap
    ensures FittingSourceAt(tm, i, t, cap, CpuSteps(tm, i, t, cap)) && !Pending(tm, i)
  {
    hide Fits;
    var r, c, s := CpuSteps(tm, i, t, cap), GuestCounter(tm, t), Sources(tm, i);
    var k := if Need(s[0], c, 1, cap) == r then 0 else if Need(s[1], c, 1, cap) == r then 1 else 2;
    TimerTheorems.UnitScaleFits(s[k], c);
    assert s[k].armed && Need(s[k], c, 1, cap) == r;
  }

  /** So an interrupt is due there that is not shown yet. */
  lemma DueAtDeadline(tm: Timer, t: u64, cap: u64)
    requires tm.mode == GuestStep && tm.cps == 1
    requires var r := StepsUntilIrq(tm, t, cap); 0 < r < cap && t + r < TWO64
    ensures exists i | 0 <= i < |tm.cpus| :: DueAt(tm, i, t + StepsUntilIrq(tm, t, cap)) && !Pending(tm, i)
  {
    hide CpuSteps, DueAt, FittingSourceAt, Pending;
    TimerTheorems.LeastStepsIsMinimum(tm, |tm.cpus|, t, cap);
    var i :| 0 <= i < |tm.cpus| && StepsUntilIrq(tm, t, cap) == CpuSteps(tm, i, t, cap);
    UnitSourceFits(tm, i, t, cap);
    TimerTheorems.DueAtPrediction(tm, i, t, cap);
  }

  /** The only processor: a step of its turn finds everything shown that is due as long as it comes before the deadline, and
      at one cycle per tick a step at the deadline does not. */
  lemma MissedFromDeadlineOn<W(!new)>(c: Config<W>, t: Turn<W>, j: nat, d: int)
    requires c.n == 1 && Takes(c, t) && t.seen.timer.mode == GuestStep && t.seen.timer.cps == 1
    requires Deadline(t.seen.timer, Now(t.seen)) == Some(d) && Now(t.seen) < d
    requires j < |t.log| && t.log[j].m.trusted && !t.log[j].m.schedDirty
    ensures Now(t.log[j].m) < d ==> AllShown(t.log[j].m)
    ensures Now(t.log[j].m) == d ==> !AllShown(t.log[j].m)
  {
    hide Takes, Deadline, DueAt, NothingDue, Pending, StepsUntilIrq;
    var m, s := t.seen, t.log[j].m;
    SoloWithin(c, t, j);
    DeadlineIsSum(m.timer, Now(m));
    if Now(s) < d {
      BeforeDeadline(m.timer, Now(m), Now(s) - Now(m));
      QuietIsShown(s.timer, Now(s));
    } else if Now(s) == d {
      DueAtDeadline(m.timer, Now(m), NO_DEADLINE);
    }
  }

  lemma SoloWithin<W(!new)>(c: Config<W>, t: Turn<W>, j: nat)
    requires c.n == 1 && Takes(c, t) && j < |t.log| && t.log[j].m.trusted && !t.log[j].m.schedDirty
    ensures t.log[j].m.timer == t.seen.timer && Now(t.seen) <= Now(t.log[j].m)
  {
    hide Takes, Valid, Logged, Within, OneAfterAnother, Idle, Jumps;
    SoloTurns(c, t);
    FirstIsValid(c, t);
    WindowWithin(c, 0, t.log, j);
    WithinMeans(t.log[0].m, j + 1, t.log[j].m);
  }

  lemma WithinMeans<W>(m: Machine<W>, n: nat, s: Machine<W>)
    requires Within(m, n, s) && s.trusted && !s.schedDirty
    ensures s.timer == m.timer && Now(m) <= Now(s)
  {
  }

  lemma FirstIsValid<W(!new)>(c: Config<W>, t: Turn<W>)
    requires c.n == 1 && Takes(c, t) && t.log != []
    ensures Valid(c, t.log[0].m)
  {
    hide Valid, MaybeSync, Idle, Jumps, FastForward, Opened, OpenedWindow, Stayed, SoloRun, WindowLog, SameGuest;
    SeenIs(c, t);
    StayedIsValid(c, t.seen);
    var m := if Idle(c, t.seen) then Stayed(c, t.seen) else t.seen;
    if Leaps(c, t) { LeapLogsNothing(c, t); }
    var exit :| t.fate == FateOf(exit) && RunsAlone(c, m, t.left, t.log, t.end, exit);
    var e :| exit == SoloExit(e) && SoloEnds(c, Opened(c, m), OpenedWindow(c, m, t.left, 1), t.log, t.end, e);
    OpenedIsValid(c, m);
    LookingKeepsGuest(c, t.seen);
    SeenGoesOn(c, t);
    GuestIsWorld(t.seen, Opened(c, m));
    SoloLog(c, Opened(c, m), OpenedWindow(c, m, t.left, 1));
    LogStarts(c, 0, Opened(c, m), OpenedWindow(c, m, t.left, 1), Stretch(t.end, t.log, e));
  }

  lemma LogStarts<W>(c: Config<W>, i: nat, m: Machine<W>, k: nat, s: Stretch<W>)
    requires WindowLog(c, i, m, k, s) && s.log != []
    ensures s.log[0].m == m
  {
  }

  lemma StayedIsValid<W(!new)>(c: Config<W>, m: Machine<W>)
    requires Valid(c, m)
    ensures Valid(c, Stayed(c, m))
  {
    hide Valid;
    NextEventSettles(c, m);
  }
}
