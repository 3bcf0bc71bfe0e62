/** Whole runs of the scheduler, turn by turn: who is stepped, when time jumps, and what the result means. */
module TurnSpec {
  import opened Words
  import opened TimerSpec
  import TimerTheorems
  import opened SchedulerSpec
  import opened MachineSpec
  import opened MachineTheorems
  import opened RunSpec
  import G = GicSpec

  /** Stalled stands for a call that never returns: the loop goes round without changing anything. */
  datatype RunResult = Finished(ok: bool) | Stalled

  /** What a turn of the loop leads to: a jump, one more turn, the end of the loop, or the end of the call. */
  datatype Fate = Leapt | WentOn | Quit | Returned(ok: bool)

  /** A turn of the loop: the machine and the steps left at its start, the machine after the look at the devices,
      the steps made, and the machine at its end. */
  datatype Turn<!W> = Turn(top: Machine<W>, left: nat, seen: Machine<W>, log: seq<Step<W>>, end: Machine<W>, fate: Fate)

  function FateOf(exit: Option<bool>): Fate {
    if exit.Some? then Returned(exit.value) else WentOn
  }

  // ----- what a turn does -----

  /** Processor i is the only one that is ready. */
  ghost predicate OnlyReady<W>(c: Config<W>, m: Machine<W>, i: nat) {
    i < c.n && Runnable(c, m, i) && forall k: nat | k < c.n && Runnable(c, m, k) :: k == i
  }

  ghost predicate NoneReady<W>(c: Config<W>, m: Machine<W>) {
    forall k | 0 <= k < c.n :: !Runnable(c, m, k)
  }

  /** The machine from which a window or a stretch of rounds starts, and its length. */
  function Opened<W>(c: Config<W>, m: Machine<W>): Machine<W> {
    AfterWindow(c, AfterWindowNeeded(c, m), WindowNeeded(c, m))
  }

  function OpenedWindow<W>(c: Config<W>, m: Machine<W>, left: nat, divisor: nat): nat
    requires divisor > 0
  {
    Window(c, AfterWindowNeeded(c, m), left, divisor, WindowNeeded(c, m))
  }

  ghost predicate Leaps<W>(c: Config<W>, t: Turn<W>) {
    && t.fate == Leapt && t.log == []
    && Shaped(c, t.seen) && Idle(c, t.seen) && Jumps(c, t.seen) && t.end == FastForward(c, t.seen)
  }

  /** The only processor runs for one window from m. */
  ghost predicate RunsAlone<W>(c: Config<W>, m: Machine<W>, left: nat, log: seq<Step<W>>, end: Machine<W>, exit: Option<bool>) {
    exists e :: exit == SoloExit(e) && SoloEnds(c, Opened(c, m), OpenedWindow(c, m, left, 1), log, end, e)
  }

  /** The machine after a try to jump that failed. */
  function Stayed<W>(c: Config<W>, m: Machine<W>): Machine<W> {
    if m.timer.mode == HostMonotonic || c.legacy then m else NextEvent(m)
  }

  ghost predicate TakesSolo<W>(c: Config<W>, t: Turn<W>) {
    || Leaps(c, t)
    || (&& !(Idle(c, t.seen) && Jumps(c, t.seen))
        && exists exit :: t.fate == FateOf(exit) &&
             RunsAlone(c, if Idle(c, t.seen) then Stayed(c, t.seen) else t.seen, t.left, t.log, t.end, exit))
  }

  /** The one ready processor i runs for one window from m. */
  ghost predicate RunsShared<W>(c: Config<W>, i: nat, m: Machine<W>, left: nat, log: seq<Step<W>>, end: Machine<W>,
                                exit: Option<bool>) {
    exists e :: exit == SharedExit(e) &&
      SharedEnds(c, i, OtherWaiting(c, m, i),
                 Shift(Forgotten(AfterWindow(c, m, true)), Window(c, m, left, 1, true), m.gic.epoch), log, end, e)
  }

  ghost predicate OtherWaiting<W>(c: Config<W>, m: Machine<W>, i: nat) {
    exists k | 0 <= k < c.n :: k != i && Active(c, m, k) && c.procs.waitingIrq(m.world, k)
  }

  /** Rounds of several processors from m. */
  ghost predicate RunsRounds<W>(c: Config<W>, m: Machine<W>, left: nat, divisor: nat, pollWaiters: bool,
                                log: seq<Step<W>>, end: Machine<W>, failed: bool) {
    && divisor > 0
    && RoundsEnd(c, Opened(c, m), pollWaiters, OpenedWindow(c, m, left, divisor), left, log, end, failed)
  }

  /** With nobody ready: jump, poll the waiting processors, or leave the loop when all are halted or none is on. */
  ghost predicate TakesIdle<W>(c: Config<W>, t: Turn<W>) {
    if AllHaltedIn(c, t.seen.world) then t.fate == Quit && t.log == [] && t.end == t.seen.(stop := true)
    else if Jumps(c, t.seen) then Leaps(c, t)
    else if ActiveCpus(c, t.seen, c.n) == {} then t.fate == Quit && t.log == [] && t.end == Stayed(c, t.seen)
    else
      exists failed :: t.fate == FateOf(if failed then Some(false) else None) &&
        RunsRounds(c, Stayed(c, t.seen), t.left, |ActiveCpus(c, t.seen, c.n)|, true, t.log, t.end, failed)
  }

  ghost predicate TakesOne<W>(c: Config<W>, t: Turn<W>) {
    exists i: nat, exit :: OnlyReady(c, t.seen, i) && t.fate == FateOf(exit) &&
      RunsShared(c, i, t.seen, t.left, t.log, t.end, exit)
  }

  ghost predicate TakesMany<W>(c: Config<W>, t: Turn<W>) {
    && |RunnableCpus(c, t.seen, c.n)| > 1
    && exists failed :: t.fate == FateOf(if failed then Some(false) else None) &&
         RunsRounds(c, t.seen, t.left, |RunnableCpus(c, t.seen, c.n)|, false, t.log, t.end, failed)
  }

  ghost predicate TakesShared<W>(c: Config<W>, t: Turn<W>) {
    (NoneReady(c, t.seen) && TakesIdle(c, t)) || TakesOne(c, t) || TakesMany(c, t)
  }

  ghost predicate Takes<W(!new)>(c: Config<W>, t: Turn<W>) {
    && Valid(c, t.top) && Valid(c, t.seen) && Valid(c, t.end)
    && t.left > 0 && !t.top.stop && t.seen == MaybeSync(c, t.top) && |t.log| <= t.left
    && if c.n == 1 then TakesSolo(c, t) else TakesShared(c, t)
  }

  // ----- runs -----

  function EndOf<W>(m: Machine<W>, turns: seq<Turn<W>>): Machine<W> {
    if turns == [] then m else turns[|turns| - 1].end
  }

  function LeftAfter<W>(budget: int, turns: seq<Turn<W>>): int {
    if turns == [] then budget else turns[|turns| - 1].left - |turns[|turns| - 1].log|
  }

  predicate GoesOn<W>(turns: seq<Turn<W>>) {
    turns == [] || turns[|turns| - 1].fate == Leapt || turns[|turns| - 1].fate == WentOn
  }

  /** The turns follow each other from m on, with so many steps to make. */
  ghost predicate Follow<W(!new)>(c: Config<W>, m: Machine<W>, budget: nat, turns: seq<Turn<W>>) {
    turns != [] ==>
      var t, before := turns[|turns| - 1], turns[..|turns| - 1];
      && Follow(c, m, budget, before) && GoesOn(before)
      && t.top == EndOf(m, before) && t.left == LeftAfter(budget, before)
      && Takes(c, t)
  }

  /** A run from m0 with the stated turns ends at m with result r. */
  ghost predicate Ran<W(!new)>(c: Config<W>, m0: Machine<W>, budget: nat, turns: seq<Turn<W>>, m: Machine<W>, r: RunResult) {
    var e := EndOf(m0, turns);
    && Follow(c, m0, budget, turns)
    && match r
       case Stalled => turns != [] && turns[|turns| - 1].fate == Leapt && m == e && Stuck(c, m)
       case Finished(ok) =>
         if turns != [] && turns[|turns| - 1].fate.Returned? then m == e && ok == turns[|turns| - 1].fate.ok
         else
           && Shaped(c, e) && m == Sync(c, e)
           && (!GoesOn(turns) || LeftAfter(budget, turns) == 0 || e.stop)
           && ok == (c.n == 1 || AllAreHalted(c, m) || LeftAfter(budget, turns) == 0 || m.stop)
  }

  ghost predicate AllAreHalted<W>(c: Config<W>, m: Machine<W>) {
    forall i | 0 <= i < c.n :: c.procs.halted(m.world, i)
  }

  // ----- runs in pieces -----

  /** The loop has made these turns, has come to m, and is to go on with so many steps left. */
  ghost predicate GoingOn<W(!new)>(c: Config<W>, m0: Machine<W>, budget: nat, turns: seq<Turn<W>>, m: Machine<W>, left: int) {
    Follow(c, m0, budget, turns) && GoesOn(turns) && EndOf(m0, turns) == m && LeftAfter(budget, turns) == left
  }

  lemma NoTurns<W(!new)>(c: Config<W>, m: Machine<W>, budget: nat)
    ensures GoingOn(c, m, budget, [], m, budget)
  {
  }

  /** The loop has made these turns, has come to m with so many steps left, and is over. */
  ghost predicate IsOver<W(!new)>(c: Config<W>, m0: Machine<W>, budget: nat, turns: seq<Turn<W>>, m: Machine<W>, left: int) {
    && Follow(c, m0, budget, turns) && EndOf(m0, turns) == m && LeftAfter(budget, turns) == left
    && (turns != [] ==> !turns[|turns| - 1].fate.Returned?)
    && (!GoesOn(turns) || left == 0 || m.stop)
  }

  lemma OneMoreTurn<W(!new)>(c: Config<W>, m0: Machine<W>, budget: nat, turns: seq<Turn<W>>, t: Turn<W>)
    requires GoingOn(c, m0, budget, turns, t.top, t.left) && Takes(c, t)
    ensures var ts := turns + [t];
      && (t.fate == Leapt || t.fate == WentOn ==> GoingOn(c, m0, budget, ts, t.end, t.left - |t.log|))
      && (t.fate == Quit ==> IsOver(c, m0, budget, ts, t.end, t.left - |t.log|))
      && (t.fate.Returned? ==> Ran(c, m0, budget, ts, t.end, Finished(t.fate.ok)))
      && (t.fate == Leapt && Stuck(c, t.end) ==> Ran(c, m0, budget, ts, t.end, Stalled))
  {
    hide Takes, Stuck;
    assert (turns + [t])[..|turns|] == turns;
  }

  lemma LoopEnds<W(!new)>(c: Config<W>, m0: Machine<W>, budget: nat, turns: seq<Turn<W>>, m: Machine<W>, left: int)
    requires GoingOn(c, m0, budget, turns, m, left) && (left == 0 || m.stop)
    ensures IsOver(c, m0, budget, turns, m, left)
  {
  }

  /** The turn that begins at top and sees the machine as stated. */
  ghost predicate Looked<W(!new)>(c: Config<W>, top: Machine<W>, seen: Machine<W>) {
    Valid(c, top) && Valid(c, seen) && !top.stop && seen == MaybeSync(c, top)
  }

  lemma LeapIsTurn<W(!new)>(c: Config<W>, m0: Machine<W>, budget: nat, turns: seq<Turn<W>>, top: Machine<W>, left: nat,
                            seen: Machine<W>, end: Machine<W>) returns (ts: seq<Turn<W>>)
    requires GoingOn(c, m0, budget, turns, top, left) && left > 0 && Looked(c, top, seen) && Valid(c, end)
    requires Idle(c, seen) && Jumps(c, seen) && end == FastForward(c, seen)
    ensures GoingOn(c, m0, budget, ts, end, left)
    ensures Stuck(c, end) ==> Ran(c, m0, budget, ts, end, Stalled)
  {
    hide MaybeSync, FastForward, Jumps, GoingOn, Ran, Stuck;
    var t := Turn(top, left, seen, [], end, Leapt);
    assert c.n > 1 ==> NoneReady(c, seen);
    assert Takes(c, t);
    OneMoreTurn(c, m0, budget, turns, t);
    ts := turns + [t];
  }

  lemma WindowIsTurn<W(!new)>(c: Config<W>, m0: Machine<W>, budget: nat, turns: seq<Turn<W>>, top: Machine<W>, left: nat,
                              seen: Machine<W>, log: seq<Step<W>>, end: Machine<W>, exit: Option<bool>)
    returns (ts: seq<Turn<W>>)
    requires c.n == 1 && GoingOn(c, m0, budget, turns, top, left) && left > 0 && Looked(c, top, seen) && Valid(c, end)
    requires !(Idle(c, seen) && Jumps(c, seen)) && |log| <= left
    requires RunsAlone(c, if Idle(c, seen) then Stayed(c, seen) else seen, left, log, end, exit)
    ensures exit == None ==> GoingOn(c, m0, budget, ts, end, left - |log|)
    ensures exit != None ==> Ran(c, m0, budget, ts, end, Finished(exit.value))
  {
    hide MaybeSync, FastForward, Jumps, RunsAlone, Idle, GoingOn, Ran;
    var t := Turn(top, left, seen, log, end, FateOf(exit));
    assert Takes(c, t);
    OneMoreTurn(c, m0, budget, turns, t);
    ts := turns + [t];
  }

  lemma QuitIsTurn<W(!new)>(c: Config<W>, m0: Machine<W>, budget: nat, turns: seq<Turn<W>>, top: Machine<W>, left: nat,
                            seen: Machine<W>, end: Machine<W>) returns (ts: seq<Turn<W>>)
    requires c.n > 1 && GoingOn(c, m0, budget, turns, top, left) && left > 0 && Looked(c, top, seen) && Valid(c, end) && NoneReady(c, seen)
    requires if AllHaltedIn(c, seen.world) then end == seen.(stop := true)
             else !Jumps(c, seen) && ActiveCpus(c, seen, c.n) == {} && end == Stayed(c, seen)
    ensures IsOver(c, m0, budget, ts, end, left)
  {
    hide MaybeSync, NoneReady, GoingOn, Ran, IsOver, ActiveCpus, Jumps, Stayed;
    var t := Turn(top, left, seen, [], end, Quit);
    assert Takes(c, t);
    OneMoreTurn(c, m0, budget, turns, t);
    ts := turns + [t];
  }

  /** The ready processors have run: one of them for a window, or several, or the waiting ones, in rounds. */
  ghost predicate ReadyRan<W>(c: Config<W>, seen: Machine<W>, left: nat, log: seq<Step<W>>, end: Machine<W>,
                              exit: Option<bool>)
  {
    TakesShared(c, Turn(seen, left, seen, log, end, FateOf(exit)))
  }

  lemma RunIsTurn<W(!new)>(c: Config<W>, m0: Machine<W>, budget: nat, turns: seq<Turn<W>>, top: Machine<W>, left: nat,
                           seen: Machine<W>, log: seq<Step<W>>, end: Machine<W>, exit: Option<bool>)
    returns (ts: seq<Turn<W>>)
    requires c.n > 1 && GoingOn(c, m0, budget, turns, top, left) && left > 0 && Looked(c, top, seen) && Valid(c, end)
    requires ReadyRan(c, seen, left, log, end, exit) && |log| <= left
    ensures exit == None ==> GoingOn(c, m0, budget, ts, end, left - |log|)
    ensures exit != None ==> Ran(c, m0, budget, ts, end, Finished(exit.value))
  {
    hide MaybeSync, NoneReady, GoingOn, Ran, OnlyReady, RunsShared, RunsRounds, ActiveCpus, RunnableCpus, AllHaltedIn,
      Jumps, Stayed, Idle, FastForward;
    var t := Turn(top, left, seen, log, end, FateOf(exit));
    assert TakesShared(c, t);
    assert Takes(c, t);
    OneMoreTurn(c, m0, budget, turns, t);
    ts := turns + [t];
  }

  lemma OneRan<W(!new)>(c: Config<W>, seen: Machine<W>, left: nat, log: seq<Step<W>>, end: Machine<W>, i: nat,
                        exit: Option<bool>)
    requires OnlyReady(c, seen, i) && RunsShared(c, i, seen, left, log, end, exit)
    ensures ReadyRan(c, seen, left, log, end, exit)
  {
    hide OnlyReady, RunsShared;
  }

  lemma RoundsRan<W(!new)>(c: Config<W>, seen: Machine<W>, left: nat, log: seq<Step<W>>, end: Machine<W>, divisor: nat,
                           pollWaiters: bool, failed: bool)
    requires pollWaiters ==>
      && NoneReady(c, seen) && !AllHaltedIn(c, seen.world) && !Jumps(c, seen)
      && divisor == |ActiveCpus(c, seen, c.n)|
      && RunsRounds(c, Stayed(c, seen), left, divisor, true, log, end, failed)
    requires !pollWaiters ==>
      && divisor == |RunnableCpus(c, seen, c.n)| > 1
      && RunsRounds(c, seen, left, divisor, false, log, end, failed)
    ensures ReadyRan(c, seen, left, log, end, if failed then Some(false) else None)
  {
    hide NoneReady, ActiveCpus, RunnableCpus, Jumps, Stayed, Opened, OpenedWindow, RoundsEnd, OnlyReady;
  }

  lemma IdleAlone<W>(c: Config<W>, m: Machine<W>)
    requires c.n == 1
    ensures Idle(c, m) <==> !c.procs.ready(m.world, m.gic, 0)
  {
  }

  lemma NobodyReadyIsIdle<W>(c: Config<W>, m: Machine<W>)
    requires c.n > 1 && !AllHaltedIn(c, m.world) && NoneReady(c, m)
    ensures Idle(c, m)
  {
    forall i | 0 <= i < c.n && c.procs.powered(m.world, i) && !c.procs.halted(m.world, i)
      ensures !c.procs.ready(m.world, m.gic, i)
    {
      assert !Runnable(c, m, i);
    }
  }

  lemma NoJumpStays<W(!new)>(c: Config<W>, m: Machine<W>)
    requires Valid(c, m) && !Jumps(c, m)
    ensures FastForward(c, m) == Stayed(c, m)
  {
  }

  /** The loop is over and the devices were synchronised once more. */
  lemma RunIsOver<W(!new)>(c: Config<W>, m0: Machine<W>, budget: nat, turns: seq<Turn<W>>, e: Machine<W>, left: int,
                           m: Machine<W>, ok: bool)
    requires IsOver(c, m0, budget, turns, e, left) && Valid(c, e) && m == Sync(c, e)
    requires ok == (c.n == 1 || AllAreHalted(c, m) || left == 0 || m.stop)
    ensures Ran(c, m0, budget, turns, m, Finished(ok))
  {
    hide Follow, Sync;
  }
}
