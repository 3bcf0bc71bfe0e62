/** Who steps, in what order and until when: the inner loops of the scheduler without their bookkeeping. */
module RunSpec {
  import opened Words
  import opened TimerSpec
  import opened SchedulerSpec
  import opened MachineSpec
  import opened MachineTheorems
  import G = GicSpec

  /** Why a stretch of steps of one processor came to its end. */
  datatype Ending = Spent | Yielded | HaltedCpu | Stopped | Failed

  /** One call of a processor's step: the machine it found, and which processor. */
  datatype Step<!W> = Step(m: Machine<W>, cpu: nat)

  datatype Stretch<!W> = Stretch(m: Machine<W>, log: seq<Step<W>>, ending: Ending)

  predicate Steppable<W>(m: Machine<W>) { G.Wf(m.gic) && |m.timer.cpus| > 0 }

  function After<W>(log: seq<Step<W>>, s: Stretch<W>): Stretch<W> { s.(log := log + s.log) }

  /** The only processor runs until the window is spent, the schedule is stale, or it halts, stops or fails. */
  function SoloRun<W>(c: Config<W>, m: Machine<W>, k: nat): Stretch<W>
    requires Steppable(m)
    decreases k
  {
    if k == 0 then Stretch(m, [], Spent)
    else
      var m1, step := Beat(c, m, 0), [Step(m, 0)];
      if !Decide(c, m, 0).ok then
        if c.procs.halted(m1.world, 0) then Stretch(m1.(stop := true), step, HaltedCpu) else Stretch(m1, step, Failed)
      else if m1.stop then Stretch(m1, step, Stopped)
      else if m1.schedDirty then Stretch(m1, step, Yielded)
      else After(step, SoloRun(c, m1, k - 1))
  }

  /** What the caller returns after a stretch of the only processor, if it returns. */
  function SoloExit(e: Ending): Option<bool> {
    match e
    case HaltedCpu => Some(true)
    case Stopped => Some(true)
    case Failed => Some(false)
    case _ => None
  }

  /** What the caller returns after a stretch of one of several processors, if it returns. */
  function SharedExit(e: Ending): Option<bool> {
    match e
    case Stopped => Some(true)
    case Failed => Some(false)
    case _ => None
  }

  predicate MayYield<W>(c: Config<W>, m: Machine<W>, i: nat) {
    m.schedDirty || m.wokeWaiter || c.procs.waitingIrq(m.world, i) || c.procs.waitingEvent(m.world, i)
  }

  /** The one runnable processor runs until the window is spent, another may have become runnable, or it ends.
      A change of the controller's epoch while another processor waits only restarts the look-out for changes. */
  function SharedRun<W>(c: Config<W>, m: Machine<W>, i: nat, k: nat, waitingPeer: bool, epoch: nat): Stretch<W>
    requires Steppable(m)
    decreases k
  {
    if k == 0 then Stretch(m, [], Spent)
    else
      var m1, step := Beat(c, m, i), [Step(m, i)];
      if !Decide(c, m, i).ok then Stretch(m1, step, if c.procs.halted(m1.world, i) then HaltedCpu else Failed)
      else if m1.stop then Stretch(m1, step, Stopped)
      else if MayYield(c, m1, i) then Stretch(m1, step, Yielded)
      else if waitingPeer && m1.gic.epoch != epoch then
        if c.procs.halted(m1.world, i) then Stretch(m1, step, HaltedCpu)
        else After(step, SharedRun(c, m1, i, k - 1, waitingPeer, m1.gic.epoch))
      else After(step, SharedRun(c, m1, i, k - 1, waitingPeer, epoch))
  }

  /** A processor that reports success has not halted. */
  ghost predicate HaltedFails<W(!new)>(c: Config<W>) {
    forall m: Machine<W>, i: nat | Steppable(m) && Decide(c, m, i).ok :: !c.procs.halted(Beat(c, m, i).world, i)
  }

  /** The exit on a changed epoch changes nothing: with it or without it, the same steps are taken. */
  lemma {:induction false} EpochExitIsIdle<W(!new)>(c: Config<W>, m: Machine<W>, i: nat, k: nat, e: nat, e': nat)
    requires Steppable(m) && HaltedFails(c)
    ensures SharedRun(c, m, i, k, true, e) == SharedRun(c, m, i, k, false, e')
    decreases k
  {
    hide Beat, Decide, MayYield;
    if k > 0 {
      var m1 := Beat(c, m, i);
      assert Decide(c, m, i).ok ==> !c.procs.halted(m1.world, i);
      EpochExitIsIdle(c, m1, i, k - 1, e, e');
      EpochExitIsIdle(c, m1, i, k - 1, m1.gic.epoch, e');
    }
  }

  function Forgotten<W>(m: Machine<W>): Machine<W> { m.(wokeWaiter := false) }

  /** A round: the state after it, the steps made in order, and whether one of them failed. */
  datatype Round<!W> = Round(m: Machine<W>, log: seq<Step<W>>, failed: bool)

  function Led<W>(log: seq<Step<W>>, r: Round<W>): Round<W> { r.(log := log + r.log) }

  /** The round from processor i on, with so many steps left in the budget. */
  function RoundFrom<W>(c: Config<W>, m: Machine<W>, pollWaiters: bool, i: nat, left: nat): (r: Round<W>)
    requires Steppable(m)
    ensures Steppable(r.m) && |r.log| <= left
    decreases c.n - i
  {
    if i >= c.n || left == 0 || m.stop then Round(m, [], false)
    else if !Eligible(c, m, pollWaiters, i) then RoundFrom(c, m, pollWaiters, i + 1, left)
    else
      var m1, step := Counted(StepCpu(c, m, i)), [Step(m, i)];
      if !Decide(c, m, i).ok && !c.procs.halted(m1.world, i) then Round(m1, step, true)
      else Led(step, RoundFrom(c, m1, pollWaiters, i + 1, left - 1))
  }

  /** No processor steps twice in a round, they step in index order, and never more of them than the budget allows. */
  lemma {:induction false} RoundInOrder<W>(c: Config<W>, m: Machine<W>, pollWaiters: bool, i: nat, left: nat)
    requires Steppable(m)
    ensures var log := RoundFrom(c, m, pollWaiters, i, left).log;
      && |log| <= left
      && (forall a | 0 <= a < |log| :: i <= log[a].cpu < c.n)
      && forall a, b | 0 <= a < b < |log| :: log[a].cpu < log[b].cpu
    decreases c.n - i
  {
    hide StepCpu, Decide, Eligible;
    if i < c.n && left > 0 && !m.stop {
      if !Eligible(c, m, pollWaiters, i) {
        RoundInOrder(c, m, pollWaiters, i + 1, left);
      } else {
        RoundInOrder(c, Counted(StepCpu(c, m, i)), pollWaiters, i + 1, left - 1);
      }
    }
  }

  // ----- counting processors -----

  function ActiveCpus<W>(c: Config<W>, m: Machine<W>, k: nat): set<nat> {
    set i: nat | 0 <= i < k && Active(c, m, i)
  }

  function RunnableCpus<W>(c: Config<W>, m: Machine<W>, k: nat): set<nat> {
    set i: nat | 0 <= i < k && Runnable(c, m, i)
  }

  lemma OneMoreCpu<W>(c: Config<W>, m: Machine<W>, k: nat)
    ensures |ActiveCpus(c, m, k + 1)| == |ActiveCpus(c, m, k)| + if Active(c, m, k) then 1 else 0
    ensures |RunnableCpus(c, m, k + 1)| == |RunnableCpus(c, m, k)| + if Runnable(c, m, k) then 1 else 0
  {
    hide Active, Runnable;
    var a, r := ActiveCpus(c, m, k), RunnableCpus(c, m, k);
    assert ActiveCpus(c, m, k + 1) == if Active(c, m, k) then a + {k} else a;
    assert RunnableCpus(c, m, k + 1) == if Runnable(c, m, k) then r + {k} else r;
    OneMore(a, k);
    OneMore(r, k);
  }

  lemma OneMore(s: set<nat>, k: nat)
    ensures k !in s ==> |s + {k}| == |s| + 1
  {
  }

  lemma NoCpus<W>(c: Config<W>, m: Machine<W>)
    ensures ActiveCpus(c, m, 0) == {} && RunnableCpus(c, m, 0) == {}
  {
  }

  // ----- stretches in pieces -----

  /** From m0 to m there were n steps of one tick each, and no jump. */
  predicate Beats<W>(m0: Machine<W>, n: nat, m: Machine<W>) {
    m.cpuSteps == m0.cpuSteps + n && m.beats == m0.beats + n && m.jumped == m0.jumped
  }

  lemma NoBeats<W>(m: Machine<W>)
    ensures Beats(m, 0, m) && Beats(m, 0, Forgotten(m))
  {
  }

  lemma BeatsAdd<W>(m0: Machine<W>, n: nat, m1: Machine<W>, k: nat, m2: Machine<W>)
    requires Beats(m0, n, m1) && Beats(m1, k, m2)
    ensures Beats(m0, n + k, m2)
  {
  }

  /** After the logged steps of the window that began at m0 the processor is at m, with k steps left. */
  ghost predicate SoloLeads<W>(c: Config<W>, m0: Machine<W>, k0: nat, log: seq<Step<W>>, m: Machine<W>, k: nat) {
    Steppable(m0) && Steppable(m) && SoloRun(c, m0, k0) == After(log, SoloRun(c, m, k))
  }

  /** The window that began at m0 is over at m after the logged steps. */
  ghost predicate SoloEnds<W>(c: Config<W>, m0: Machine<W>, k0: nat, log: seq<Step<W>>, m: Machine<W>, e: Ending) {
    Steppable(m0) && SoloRun(c, m0, k0) == Stretch(m, log, e)
  }

  lemma AfterNothing<W>(s: Stretch<W>)
    ensures After([], s) == s
  {
    assert [] + s.log == s.log;
  }

  lemma AfterTwice<W>(a: seq<Step<W>>, b: seq<Step<W>>, s: Stretch<W>)
    ensures After(a, After(b, s)) == After(a + b, s)
  {
    assert a + (b + s.log) == a + b + s.log;
  }

  lemma SoloStarts<W>(c: Config<W>, m: Machine<W>, k: nat)
    requires Steppable(m)
    ensures SoloLeads(c, m, k, [], m, k)
  {
    AfterNothing(SoloRun(c, m, k));
  }

  lemma SoloGoesOn<W>(c: Config<W>, m0: Machine<W>, k0: nat, log: seq<Step<W>>, m: Machine<W>, k: nat,
                      more: seq<Step<W>>, m': Machine<W>)
    requires SoloLeads(c, m0, k0, log, m, k) && k > 0 && SoloLeads(c, m, k, more, m', k - 1)
    ensures SoloLeads(c, m0, k0, log + more, m', k - 1)
  {
    hide SoloRun;
    AfterTwice(log, more, SoloRun(c, m', k - 1));
  }

  lemma SoloStops<W>(c: Config<W>, m0: Machine<W>, k0: nat, log: seq<Step<W>>, m: Machine<W>, k: nat,
                     more: seq<Step<W>>, m': Machine<W>, e: Ending)
    requires SoloLeads(c, m0, k0, log, m, k) && SoloEnds(c, m, k, more, m', e)
    ensures SoloEnds(c, m0, k0, log + more, m', e)
  {
    hide SoloRun;
  }

  lemma SoloSpent<W>(c: Config<W>, m0: Machine<W>, k0: nat, log: seq<Step<W>>, m: Machine<W>)
    requires SoloLeads(c, m0, k0, log, m, 0)
    ensures SoloEnds(c, m0, k0, log, m, Spent)
  {
    assert log + [] == log;
  }

  /** A window of the one runnable processor: where it began, and the look-out it keeps. */
  datatype Shift<!W> = Shift(m: Machine<W>, k: nat, epoch: nat)

  ghost predicate SharedLeads<W>(c: Config<W>, i: nat, w: bool, from: Shift<W>, log: seq<Step<W>>, s: Shift<W>) {
    && Steppable(from.m) && Steppable(s.m)
    && SharedRun(c, from.m, i, from.k, w, from.epoch) == After(log, SharedRun(c, s.m, i, s.k, w, s.epoch))
  }

  ghost predicate SharedEnds<W>(c: Config<W>, i: nat, w: bool, from: Shift<W>, log: seq<Step<W>>, m: Machine<W>,
                                e: Ending) {
    Steppable(from.m) && SharedRun(c, from.m, i, from.k, w, from.epoch) == Stretch(m, log, e)
  }

  lemma SharedStarts<W>(c: Config<W>, i: nat, w: bool, s: Shift<W>)
    requires Steppable(s.m)
    ensures SharedLeads(c, i, w, s, [], s)
  {
    AfterNothing(SharedRun(c, s.m, i, s.k, w, s.epoch));
  }

  lemma SharedGoesOn<W>(c: Config<W>, i: nat, w: bool, from: Shift<W>, log: seq<Step<W>>, s: Shift<W>,
                        more: seq<Step<W>>, t: Shift<W>)
    requires SharedLeads(c, i, w, from, log, s) && SharedLeads(c, i, w, s, more, t)
    ensures SharedLeads(c, i, w, from, log + more, t)
  {
    hide SharedRun;
    AfterTwice(log, more, SharedRun(c, t.m, i, t.k, w, t.epoch));
  }

  lemma SharedStops<W>(c: Config<W>, i: nat, w: bool, from: Shift<W>, log: seq<Step<W>>, s: Shift<W>,
                       more: seq<Step<W>>, m: Machine<W>, e: Ending)
    requires SharedLeads(c, i, w, from, log, s) && SharedEnds(c, i, w, s, more, m, e)
    ensures SharedEnds(c, i, w, from, log + more, m, e)
  {
    hide SharedRun;
  }

  /** With no step left the look-out does not matter. */
  lemma SharedSpent<W>(c: Config<W>, i: nat, w: bool, from: Shift<W>, log: seq<Step<W>>, m: Machine<W>, e: nat, e': nat)
    requires SharedLeads(c, i, w, from, log, Shift(m, 0, e))
    ensures SharedLeads(c, i, w, from, log, Shift(m, 0, e')) && SharedEnds(c, i, w, from, log, m, Spent)
  {
    assert log + [] == log;
  }

  lemma ValidIsSteppable<W(!new)>(c: Config<W>, m: Machine<W>)
    requires Valid(c, m)
    ensures Steppable(m) && Steppable(Forgotten(m))
  {
  }

  // ----- rounds in pieces -----

  /** Where a round has got to: the steps made so far, the machine, the next in line, and the steps left. */
  datatype Progress<!W> = Progress(log: seq<Step<W>>, m: Machine<W>, next: nat, left: nat)

  ghost predicate RoundLeads<W>(c: Config<W>, pollWaiters: bool, m0: Machine<W>, budget: nat, p: Progress<W>) {
    && Steppable(m0) && Steppable(p.m)
    && RoundFrom(c, m0, pollWaiters, 0, budget) == Led(p.log, RoundFrom(c, p.m, pollWaiters, p.next, p.left))
  }

  /** The round that began at m0 ends at m after the logged steps. */
  ghost predicate RoundEnds<W>(c: Config<W>, pollWaiters: bool, m0: Machine<W>, budget: nat, log: seq<Step<W>>,
                               m: Machine<W>, failed: bool) {
    Steppable(m0) && RoundFrom(c, m0, pollWaiters, 0, budget) == Round(m, log, failed)
  }

  lemma LedByNobody<W>(r: Round<W>)
    ensures Led([], r) == r
  {
    assert [] + r.log == r.log;
  }

  lemma LedTwice<W>(a: seq<Step<W>>, b: seq<Step<W>>, r: Round<W>)
    ensures Led(a, Led(b, r)) == Led(a + b, r)
  {
    assert a + (b + r.log) == a + b + r.log;
  }

  lemma RoundStarts<W>(c: Config<W>, pollWaiters: bool, m: Machine<W>, budget: nat)
    requires Steppable(m)
    ensures RoundLeads(c, pollWaiters, m, budget, Progress([], m, 0, budget))
  {
    LedByNobody(RoundFrom(c, m, pollWaiters, 0, budget));
  }

  lemma RoundPasses<W>(c: Config<W>, pollWaiters: bool, m0: Machine<W>, budget: nat, p: Progress<W>)
    requires RoundLeads(c, pollWaiters, m0, budget, p) && p.next < c.n && p.left > 0 && !p.m.stop
    requires !Eligible(c, p.m, pollWaiters, p.next)
    ensures RoundLeads(c, pollWaiters, m0, budget, p.(next := p.next + 1))
  {
  }

  lemma RoundSteps<W>(c: Config<W>, pollWaiters: bool, m0: Machine<W>, budget: nat, p: Progress<W>)
    requires RoundLeads(c, pollWaiters, m0, budget, p) && p.next < c.n && p.left > 0 && !p.m.stop
    requires Eligible(c, p.m, pollWaiters, p.next)
    ensures var m1, log := Counted(StepCpu(c, p.m, p.next)), p.log + [Step(p.m, p.next)];
      if !Decide(c, p.m, p.next).ok && !c.procs.halted(m1.world, p.next) then
        RoundEnds(c, pollWaiters, m0, budget, log, m1, true)
      else
        RoundLeads(c, pollWaiters, m0, budget, Progress(log, m1, p.next + 1, p.left - 1))
  {
    hide StepCpu, Decide, Eligible;
    var m1 := Counted(StepCpu(c, p.m, p.next));
    LedTwice(p.log, [Step(p.m, p.next)], RoundFrom(c, m1, pollWaiters, p.next + 1, p.left - 1));
  }

  lemma RoundIsOver<W>(c: Config<W>, pollWaiters: bool, m0: Machine<W>, budget: nat, p: Progress<W>)
    requires RoundLeads(c, pollWaiters, m0, budget, p) && (p.next >= c.n || p.left == 0 || p.m.stop)
    ensures RoundEnds(c, pollWaiters, m0, budget, p.log, p.m, false)
  {
    assert p.log + [] == p.log;
  }

  // ----- rounds one after another -----

  /** Rounds until the number of rounds or the budget of steps is used up, nobody can run, or the schedule is
      stale. A whole round of k processors is one tick. */
  function RoundsFrom<W>(c: Config<W>, m: Machine<W>, pollWaiters: bool, rounds: nat, left: nat): Round<W>
    requires Steppable(m)
    decreases rounds
  {
    if rounds == 0 || left == 0 || m.stop then Round(m, [], false)
    else
      var r := RoundFrom(c, m, pollWaiters, 0, left);
      if r.failed then r
      else if r.log == [] then Round(r.m.(stop := r.m.stop || AllHaltedIn(c, r.m.world)), [], false)
      else
        var m1 := Ticked(AdvanceTime(r.m, |r.log|, |r.log|));
        if m1.schedDirty then Round(m1, r.log, false)
        else Led(r.log, RoundsFrom(c, m1, pollWaiters, rounds - 1, left - |r.log|))
  }

  ghost predicate RoundsEnd<W>(c: Config<W>, m: Machine<W>, pollWaiters: bool, rounds: nat, left: nat,
                               log: seq<Step<W>>, end: Machine<W>, failed: bool) {
    Steppable(m) && RoundsFrom(c, m, pollWaiters, rounds, left) == Round(end, log, failed)
  }

  /** Where a stretch of rounds has got to: the machine, and the rounds and steps left. */
  datatype Lap<!W> = Lap(m: Machine<W>, rounds: nat, left: nat)

  /** The rounds that begin at one place come to the other after the logged steps. */
  ghost predicate RoundsLead<W>(c: Config<W>, pollWaiters: bool, from: Lap<W>, log: seq<Step<W>>, s: Lap<W>) {
    && Steppable(from.m) && Steppable(s.m)
    && RoundsFrom(c, from.m, pollWaiters, from.rounds, from.left)
       == Led(log, RoundsFrom(c, s.m, pollWaiters, s.rounds, s.left))
  }

  ghost predicate Going<W>(s: Lap<W>) { s.rounds > 0 && s.left > 0 && !s.m.stop }

  /** A whole round with its tick. */
  ghost predicate TickedRoundEnds<W>(c: Config<W>, pollWaiters: bool, m0: Machine<W>, budget: nat, log: seq<Step<W>>,
                                     m: Machine<W>) {
    && log != [] && Steppable(m0)
    && var r := RoundFrom(c, m0, pollWaiters, 0, budget);
       r.log == log && !r.failed && m == Ticked(AdvanceTime(r.m, |log|, |log|))
  }

  lemma RoundsBegin<W>(c: Config<W>, pollWaiters: bool, s: Lap<W>)
    requires Steppable(s.m)
    ensures RoundsLead(c, pollWaiters, s, [], s)
  {
    LedByNobody(RoundsFrom(c, s.m, pollWaiters, s.rounds, s.left));
  }

  lemma RoundsOver<W>(c: Config<W>, pollWaiters: bool, from: Lap<W>, log: seq<Step<W>>, s: Lap<W>)
    requires RoundsLead(c, pollWaiters, from, log, s) && !Going(s)
    ensures RoundsEnd(c, from.m, pollWaiters, from.rounds, from.left, log, s.m, false)
  {
    assert log + [] == log;
  }

  lemma RoundsFail<W>(c: Config<W>, pollWaiters: bool, from: Lap<W>, log: seq<Step<W>>, s: Lap<W>,
                      more: seq<Step<W>>, m: Machine<W>)
    requires RoundsLead(c, pollWaiters, from, log, s) && Going(s)
    requires RoundEnds(c, pollWaiters, s.m, s.left, more, m, true)
    ensures RoundsEnd(c, from.m, pollWaiters, from.rounds, from.left, log + more, m, true)
  {
    hide RoundFrom;
  }

  lemma RoundsNobody<W>(c: Config<W>, pollWaiters: bool, from: Lap<W>, log: seq<Step<W>>, s: Lap<W>)
    requires RoundsLead(c, pollWaiters, from, log, s) && Going(s)
    requires RoundEnds(c, pollWaiters, s.m, s.left, [], s.m, false)
    ensures RoundsEnd(c, from.m, pollWaiters, from.rounds, from.left, log,
                      s.m.(stop := AllHaltedIn(c, s.m.world)), false)
  {
    hide RoundFrom;
    assert log + [] == log;
  }

  /** A ticked round ends the stretch when the schedule has gone stale; else it leads on to the next round. */
  lemma RoundsGoOn<W>(c: Config<W>, pollWaiters: bool, from: Lap<W>, log: seq<Step<W>>, s: Lap<W>,
                      more: seq<Step<W>>, m: Machine<W>)
    requires RoundsLead(c, pollWaiters, from, log, s) && Going(s)
    requires TickedRoundEnds(c, pollWaiters, s.m, s.left, more, m)
    ensures m.schedDirty ==> RoundsEnd(c, from.m, pollWaiters, from.rounds, from.left, log + more, m, false)
    ensures |more| <= s.left
    ensures !m.schedDirty ==> RoundsLead(c, pollWaiters, from, log + more, Lap(m, s.rounds - 1, s.left - |more|))
  {
    hide RoundFrom, Advanced;
    LedTwice(log, more, RoundsFrom(c, m, pollWaiters, s.rounds - 1, s.left - |more|));
  }
}
