/** A board that really does get stuck: one sleeping processor whose timer is set 2^50 ticks ahead. */
module StuckExample {
  import opened Words
  import opened TimerSpec
  import opened SchedulerSpec
  import opened MachineSpec
  import opened MachineTheorems
  import G = GicSpec

  const FAR: u64 := 0x4_0000_0000_0000

  const Sleeper := Channel(FAR, true, false, false, false)

  const FarTimer := Timer([CpuTimer(Sleeper, ResetChannel)], 0, 0, 1, GuestStep, 0, 0, false, false, false)

  /** A processor that waits for an interrupt and is never ready. */
  const Asleep: Processors<int> := Processors(
    (w, t, g, now, cpu) => Outcome(w, true, [], false),
    (w, i) => true, (w, i) => false, (w, i) => true, (w, i) => false,
    (w, g, i) => false,
    w => Levels(false, false, false, false))

  const SleepingBoard: Config<int> := Config(Asleep, 1, false, n => 0)

  function Sleeping(): Machine<int> {
    Machine(FarTimer, G.Initial(1), 0, 0, 0, 0, false, false, 0, false, false, None,
            [false], [false], Levels(false, false, false, false), false, 0, 0, 0, 0, true)
  }

  lemma FarTimerSettled()
    ensures SyncedAt(FarTimer, 0)
  {
    assert UpdateIrq(FarTimer).cpus == FarTimer.cpus;
  }

  lemma FarDeadline()
    ensures Deadline(FarTimer, 0) == Some(FAR as int)
  {
    assert GuestCounter(FarTimer, 0) == 0;
    assert Sources(FarTimer, 0)[1] == Source(true, FAR);
    assert Need(Sources(FarTimer, 0)[1], 0, 1, NO_DEADLINE) == FAR;
    assert CpuSteps(FarTimer, 0, 0, NO_DEADLINE) == FAR;
    assert LeastSteps(FarTimer, 0, 0, NO_DEADLINE) == NO_DEADLINE;
    assert LeastSteps(FarTimer, 1, 0, NO_DEADLINE) == FAR;
  }

  lemma SleepingIsValid()
    ensures Valid(SleepingBoard, Sleeping()) && Now(Sleeping()) == 0
    ensures forall m: Machine<int> :: Idle(SleepingBoard, m)
  {
    assert Reporting(Asleep);
  }

  /** The state in which jumping goes on for ever can be reached by one synchronisation. */
  lemma GetsStuck()
    ensures Valid(SleepingBoard, Sleeping()) && Stuck(SleepingBoard, Sync(SleepingBoard, Sleeping()))
  {
    var c, m := SleepingBoard, Sleeping();
    FarTimerSettled();
    FarDeadline();
    SleepingIsValid();
    assert !c.legacy && m.fp == 0 && m.timer == FarTimer;
    assert JumpTarget(FAR) == 0;
    hide Valid, SyncedAt, Deadline, SleepingBoard, FarTimer, Sleeping, Idle;
    SyncFrame(c, m);
    hide Sync;
    SyncShowsDevices(c, m);
    SyncIsExact(c, m);
  }

  lemma SyncIsExact(c: Config<int>, m: Machine<int>)
    requires Valid(c, m)
    ensures Exact(Sync(c, m))
  {
    SyncExact(c, m);
  }
}
