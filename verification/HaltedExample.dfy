/** A processor that reports success in the very step that halts it, as an exception too deeply nested does: it is
    stepped once more in the same window. */
module HaltedExample {
  import opened Words
  import opened TimerSpec
  import opened SchedulerSpec
  import opened MachineSpec
  import opened RunSpec
  import opened TurnTheorems
  import G = GicSpec

  /** World 0 is running, world 1 is halted. */
  const Halting: Processors<int> := Processors(
    (w, t, g, now, cpu) => Outcome(1, w == 0, [], false),
    (w, i) => i == 0, (w, i) => w == 1, (w, i) => false, (w, i) => false,
    (w, g, i) => w == 0,
    w => Levels(false, false, false, false))

  const TwoCpus: Config<int> := Config(Halting, 2, false, n => 0)

  function Running(): Machine<int> {
    Machine(Timer([ResetCpu, ResetCpu], 0, 0, 1, GuestStep, 0, 0, false, false, false), G.Initial(2), 0, 0, 0, 0,
            false, false, 0, false, false, None, [false, false], [false, false],
            Levels(false, false, false, false), false, 0, 0, 0, 0, true)
  }

  lemma HaltedIsStepped()
    ensures var log := SharedRun(TwoCpus, Running(), 0, 2, false, 0).log;
      && |log| == 2 && log[1].cpu == 0 && !Active(TwoCpus, log[1].m, 0) && TookDown(TwoCpus, log[0])
  {
    var c, m := TwoCpus, Running();
    var m1 := Beat(c, m, 0);
    assert PerformAll(c, m, []) == m;
    assert m1.world == 1 && !m1.stop && !m1.schedDirty && !m1.wokeWaiter;
    assert !MayYield(c, m1, 0);
    var rest := SharedRun(c, m1, 0, 1, false, 0);
    assert rest.log == [Step(m1, 0)];
    assert SharedRun(c, m, 0, 2, false, 0).log == [Step(m, 0)] + rest.log;
  }
}
