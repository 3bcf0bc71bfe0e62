/** Where the loop does not watch the deadline an interrupt comes late: an awake processor, a timer set 300 ticks ahead and
    a budget of 1000 steps. */
module LateExample {
  import opened Words
  import opened TimerSpec
  import opened SchedulerSpec
  import opened MachineSpec
  import opened MachineTheorems
  import opened RunSpec
  import opened TurnSpec
  import opened Promptness
  import G = GicSpec

  const Soon := Channel(300, true, false, false, false)

  const SoonTimer := Timer([CpuTimer(Soon, ResetChannel)], 0, 0, 1, GuestStep, 0, 0, false, false, false)

  /** A processor that does nothing, and never waits. */
  const Awake: Processors<int> := Processors(
    (w, t, g, now, cpu) => Outcome(w, true, [], false),
    (w, i) => true, (w, i) => false, (w, i) => false, (w, i) => false,
    (w, g, i) => true,
    w => Levels(false, false, false, false))

  const OneCpu: Config<int> := Config(Awake, 1, false, n => 0)

  function Synced(): Machine<int> {
    Machine(SoonTimer, G.Initial(1), 0, 0, 0, 0, false, true, 0, false, false, None,
            [false], [false], Levels(false, false, false, false), false, 0, 0, 0, 0, true)
  }

  lemma DeadlineIs300()
    ensures Deadline(SoonTimer, 0) == Some(300)
  {
    assert GuestCounter(SoonTimer, 0) == 0;
    assert Sources(SoonTimer, 0)[1] == Source(true, 300);
    assert Need(Sources(SoonTimer, 0)[1], 0, 1, NO_DEADLINE) == 300;
    assert CpuSteps(SoonTimer, 0, 0, NO_DEADLINE) == 300;
    assert LeastSteps(SoonTimer, 0, 0, NO_DEADLINE) == NO_DEADLINE;
    assert LeastSteps(SoonTimer, 1, 0, NO_DEADLINE) == 300;
  }

  lemma OneBeat(m: Machine<int>)
    requires Steppable(m) && m.fp + FRAC_ONE < TWO64
    ensures var m1 := Beat(OneCpu, m, 0);
      Steppable(m1) && m1.timer == m.timer && m1.fp == m.fp + FRAC_ONE && m1.stop == m.stop && m1.schedDirty == m.schedDirty
    ensures Decide(OneCpu, m, 0).ok
  {
    assert PerformAll(OneCpu, m, []) == m;
  }

  /** It runs on for the whole window, a tick a step. */
  lemma {:induction false} RunsOn(m: Machine<int>, k: nat, j: nat)
    requires Steppable(m) && !m.stop && !m.schedDirty && m.fp + k * FRAC_ONE < TWO64 && j < k
    ensures var log := SoloRun(OneCpu, m, k).log;
      |log| == k && log[j].m.timer == m.timer && log[j].m.fp == m.fp + j * FRAC_ONE
    decreases k
  {
    hide Beat, Decide;
    OneBeat(m);
    var m1 := Beat(OneCpu, m, 0);
    var rest := SoloRun(OneCpu, m1, k - 1);
    assert SoloRun(OneCpu, m, k).log == [Step(m, 0)] + rest.log;
    if k > 1 { RunsOn(m1, k - 1, if j > 0 then j - 1 else 0); }
  }

  lemma OpensUnwatched()
    ensures var c, m := OneCpu, Synced(); var o := Opened(c, m);
      && !WindowNeeded(c, m) && OpenedWindow(c, m, 1000, 1) == 1000
      && Steppable(o) && !o.stop && !o.schedDirty && o.fp == 0 && o.timer == SoonTimer
  {
    var c, m := OneCpu, Synced();
    DeadlineIs300();
    assert Active(c, m, 0) && !Waiting(c, m, 0);
    assert NextEvent(m).event == Some(300);
    hide Deadline;
  }

  /** The window does not watch the deadline, and at its 301st step the interrupt is due but not shown. */
  lemma ComesLate()
    ensures var c, m := OneCpu, Synced();
      && !WindowNeeded(c, m) && Steppable(Opened(c, m))
      && var log := SoloRun(c, Opened(c, m), OpenedWindow(c, m, 1000, 1)).log;
         |log| == 1000 && Now(log[300].m) == 300 && !AllShown(log[300].m)
  {
    hide Synced, Opened, OpenedWindow, SoloRun, DueAt, Pending, OneCpu, SoonTimer, WindowNeeded;
    OpensUnwatched();
    RunsOn(Opened(OneCpu, Synced()), 1000, 300);
    DueUnshown();
  }

  lemma DueUnshown()
    ensures DueAt(SoonTimer, 0, 300) && !Pending(SoonTimer, 0)
  {
    assert GuestCounter(SoonTimer, 300) == 300;
    assert Due(Sources(SoonTimer, 0)[1], 300);
  }
}
