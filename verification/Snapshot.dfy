/** Saving and loading the timer and the interrupt controller, and resuming guest time afterwards. */
module Snapshot {
  import opened Words
  import opened GuestMemory
  import opened SnapshotIo
  import T = TimerSpec
  import TT = TimerTheorems
  import G = GicSpec

  // ----- timer layout -----

  const CHANNEL_SIZE := 12
  const CPU_SIZE := 24
  const TIMER_HEAD := 23

  function ChannelBytes(ch: T.Channel): (s: seq<u8>)
    ensures |s| == CHANNEL_SIZE
  {
    ToLe(ch.cval, 8) + BoolBytes([ch.enable, ch.imask, ch.fired, ch.irqPending])
  }

  function ChannelOf(s: seq<u8>): T.Channel
    requires |s| == CHANNEL_SIZE
  {
    Word64Fits(s[..8]);
    T.Channel(FromLe(s[..8]), s[8] != 0, s[9] != 0, s[10] != 0, s[11] != 0)
  }

  lemma Word64Fits(s: seq<u8>)
    requires |s| == 8
    ensures FromLe(s) < TWO64
  {
    FromLeBound(s);
    assert Pow256(8) == TWO64;
  }

  lemma Word32Fits(s: seq<u8>)
    requires |s| == 4
    ensures FromLe(s) < TWO32
  {
    FromLeBound(s);
    assert Pow256(4) == TWO32;
  }

  lemma Le64(v: u64)
    ensures FromLe(ToLe(v, 8)) == v
  {
    assert Pow256(8) == TWO64;
    LeRoundTrip(v, 8);
  }

  lemma Le32(v: u32)
    ensures FromLe(ToLe(v, 4)) == v
  {
    assert Pow256(4) == TWO32;
    LeRoundTrip(v, 4);
  }

  lemma ChannelRoundTrip(ch: T.Channel)
    ensures ChannelOf(ChannelBytes(ch)) == ch
  {
    Le64(ch.cval);
    assert ChannelBytes(ch)[..8] == ToLe(ch.cval, 8);
  }

  function CpuBytes(c: T.CpuTimer): (s: seq<u8>)
    ensures |s| == CPU_SIZE
  {
    ChannelBytes(c.cntv) + ChannelBytes(c.cntp)
  }

  function CpuOf(s: seq<u8>): T.CpuTimer
    requires |s| == CPU_SIZE
  {
    T.CpuTimer(ChannelOf(s[..CHANNEL_SIZE]), ChannelOf(s[CHANNEL_SIZE..]))
  }

  lemma CpuRoundTrip(c: T.CpuTimer)
    ensures CpuOf(CpuBytes(c)) == c
  {
    ChannelRoundTrip(c.cntv);
    ChannelRoundTrip(c.cntp);
    assert CpuBytes(c)[..CHANNEL_SIZE] == ChannelBytes(c.cntv) && CpuBytes(c)[CHANNEL_SIZE..] == ChannelBytes(c.cntp);
  }

  function CpusBytes(cs: seq<T.CpuTimer>): (s: seq<u8>)
    ensures |s| == CPU_SIZE * |cs|
    decreases |cs|
  {
    if cs == [] then [] else CpuBytes(cs[0]) + CpusBytes(cs[1..])
  }

  function ReadCpus(n: nat, s: seq<u8>): (r: Option<Parsed<seq<T.CpuTimer>>>)
    ensures r.Some? <==> |s| >= CPU_SIZE * n
    ensures r.Some? ==> |r.value.value| == n
  {
    if n == 0 then Some(Parsed([], s))
    else
      match ReadBytes(CPU_SIZE, s)
      case None => None
      case Some(p) =>
        match ReadCpus(n - 1, p.rest)
        case None => None
        case Some(q) => Some(Parsed([CpuOf(p.value)] + q.value, q.rest))
  }

  lemma {:induction false} CpusRoundTrip(cs: seq<T.CpuTimer>, rest: seq<u8>)
    ensures ReadCpus(|cs|, CpusBytes(cs) + rest) == Some(Parsed(cs, rest))
    decreases |cs|
  {
    hide CpuBytes, CpuOf, ReadBytes;
    if cs == [] {
      assert CpusBytes(cs) + rest == rest;
    } else {
      CpuRoundTrip(cs[0]);
      CpusRoundTrip(cs[1..], rest);
      ReadsFirst(CpuBytes(cs[0]), CpusBytes(cs[1..]) + rest);
      assert CpusBytes(cs) + rest == CpuBytes(cs[0]) + (CpusBytes(cs[1..]) + rest);
      assert cs == [cs[0]] + cs[1..];
    }
  }

  function TimerHeadBytes(tm: T.Timer): (s: seq<u8>)
    requires |tm.cpus| < TWO32
    ensures |s| == TIMER_HEAD
  {
    ToLe(tm.counter, 8) + ToLe(tm.compare, 8) + BoolBytes([tm.enabled, tm.mmioPending, tm.fired]) + ToLe(|tm.cpus|, 4)
  }

  function TimerBytes(tm: T.Timer): seq<u8>
    requires |tm.cpus| < TWO32
  {
    TimerHeadBytes(tm) + CpusBytes(tm.cpus)
  }

  /** The timer as loading leaves it: in guest-step mode, one cycle per tick, anchored at tick zero. */
  function LoadTimerBytes(s: seq<u8>, host: u64): Option<Parsed<T.Timer>> {
    match ReadBytes(TIMER_HEAD, s)
    case None => None
    case Some(p) =>
      var h := p.value;
      var n := FromLe(h[19..23]);
      if n == 0 then None
      else
        match ReadCpus(n, p.rest)
        case None => None
        case Some(q) =>
          Word64Fits(h[..8]);
          Word64Fits(h[8..16]);
          Some(Parsed(T.UpdateIrq(T.Timer(q.value, FromLe(h[..8]), 0, 1, T.GuestStep, host, FromLe(h[8..16]),
                                          h[16] != 0, h[17] != 0, h[18] != 0)), q.rest))
  }

  lemma HeadRoundTrip(tm: T.Timer)
    requires |tm.cpus| < TWO32
    ensures var h := TimerHeadBytes(tm);
      && FromLe(h[..8]) == tm.counter && FromLe(h[8..16]) == tm.compare && FromLe(h[19..23]) == |tm.cpus|
      && (h[16] != 0) == tm.enabled && (h[17] != 0) == tm.mmioPending && (h[18] != 0) == tm.fired
  {
    hide FromLe, ToLe;
    Le64(tm.counter);
    Le64(tm.compare);
    Le32(|tm.cpus|);
    var h := TimerHeadBytes(tm);
    assert h[..8] == ToLe(tm.counter, 8) && h[8..16] == ToLe(tm.compare, 8) && h[19..23] == ToLe(|tm.cpus|, 4);
    assert h[16..19] == BoolBytes([tm.enabled, tm.mmioPending, tm.fired]);
    assert h[16] == h[16..19][0] && h[17] == h[16..19][1] && h[18] == h[16..19][2];
  }

  /** Saving and loading a settled timer restores everything saved and leaves the rest of the stream unread. */
  lemma TimerRoundTrip(tm: T.Timer, rest: seq<u8>, host: u64)
    requires 0 < |tm.cpus| < TWO32 && T.Settled(tm)
    ensures LoadTimerBytes(TimerBytes(tm) + rest, host)
         == Some(Parsed(tm.(anchor := 0, cps := 1, mode := T.GuestStep, hostAnchor := host), rest))
  {
    HeadRoundTrip(tm);
    CpusRoundTrip(tm.cpus, rest);
    ReadsFirst(TimerHeadBytes(tm), CpusBytes(tm.cpus) + rest);
    assert TimerBytes(tm) + rest == TimerHeadBytes(tm) + (CpusBytes(tm.cpus) + rest);
    SettledAnywhere(tm, host);
    hide T.UpdateIrq, FromLe, TimerHeadBytes, ReadCpus, CpusBytes, ToLe, ReadBytes, TimerBytes;
  }

  /** Whether a timer is settled does not depend on how its counter advances. */
  lemma SettledAnywhere(tm: T.Timer, host: u64)
    requires T.Settled(tm)
    ensures T.Settled(tm.(anchor := 0, cps := 1, mode := T.GuestStep, hostAnchor := host))
  {
    var tm' := tm.(anchor := 0, cps := 1, mode := T.GuestStep, hostAnchor := host);
    assert T.UpdateIrq(tm').cpus == T.UpdateIrq(tm).cpus;
  }

  /** A stream cut off anywhere inside the timer's part is refused. */
  lemma TruncatedTimerRefused(tm: T.Timer, k: nat, host: u64)
    requires 0 < |tm.cpus| < TWO32 && k < |TimerBytes(tm)|
    ensures LoadTimerBytes(TimerBytes(tm)[..k], host).None?
  {
    if k >= TIMER_HEAD {
      HeadRoundTrip(tm);
      assert TimerBytes(tm)[..k][..TIMER_HEAD] == TimerHeadBytes(tm);
    }
  }

  // ----- resuming -----

  /** What the board does with the loaded timer: scale, anchor at the restored tick, and clock mode. */
  function Resumed(tm: T.Timer, scale: u64, now: u64, mode: T.ClockMode, host: u64): T.Timer {
    T.SetMode(tm.(cps := scale, anchor := now), mode, now, host)
  }

  /** A snapshot taken at tick `now` and resumed with the same scale is the machine synchronised at that tick. */
  lemma ResumeIsSync(tm: T.Timer, now: u64, saveHost: u64, loadHost: u64, host: u64, rest: seq<u8>)
    requires 0 < |tm.cpus| < TWO32 && tm.mode == T.GuestStep
    ensures var saved := T.SyncTo(tm, now, saveHost);
      var loaded := LoadTimerBytes(TimerBytes(saved) + rest, loadHost);
      && loaded.Some? && loaded.value.rest == rest
      && Resumed(loaded.value.value, tm.cps, now, T.GuestStep, host) == saved.(hostAnchor := host)
  {
    var saved := T.SyncTo(tm, now, saveHost);
    T.UpdateIrqSettles(tm.(counter := T.CounterAt(tm, now, saveHost), anchor := now));
    TimerRoundTrip(saved, rest, loadHost);
    ResumeSettled(saved, tm.cps, now, loadHost, host);
    hide LoadTimerBytes, TimerBytes, Resumed;
  }

  lemma ResumeSettled(saved: T.Timer, scale: u64, now: u64, loadHost: u64, host: u64)
    requires T.Settled(saved) && saved.mode == T.GuestStep && saved.cps == scale && saved.anchor == now
    ensures Resumed(saved.(anchor := 0, cps := 1, mode := T.GuestStep, hostAnchor := loadHost), scale, now, T.GuestStep,
                    host)
         == saved.(hostAnchor := host)
  {
    var loaded := saved.(anchor := 0, cps := 1, mode := T.GuestStep, hostAnchor := loadHost);
    var r := Resumed(loaded, scale, now, T.GuestStep, host);
    assert (now - now) * scale == 0;
    assert T.UpdateIrq(saved).cpus == saved.cpus;
    assert r.cpus == saved.cpus;
  }

  /** Saved at tick `now`, loaded, and resumed there. */
  function Reloaded(tm: T.Timer, now: u64, saveHost: u64, loadHost: u64, host: u64, rest: seq<u8>): Option<T.Timer>
    requires |tm.cpus| < TWO32
  {
    match LoadTimerBytes(TimerBytes(T.SyncTo(tm, now, saveHost)) + rest, loadHost)
    case None => None
    case Some(p) => Some(Resumed(p.value, tm.cps, now, T.GuestStep, host))
  }

  /** After the rebase, the counter at every tick is the unsaved machine's; predictions and synchronisations are
      those of the machine synchronised at the save tick, which is what saving does to it. */
  lemma ResumedBehavesTheSame(tm: T.Timer, now: u64, saveHost: u64, loadHost: u64, host: u64, rest: seq<u8>)
    requires 0 < |tm.cpus| < TWO32 && tm.mode == T.GuestStep
    ensures Reloaded(tm, now, saveHost, loadHost, host, rest).Some?
    ensures var r := Reloaded(tm, now, saveHost, loadHost, host, rest).value;
      var saved := T.SyncTo(tm, now, saveHost);
      && (forall t: u64 :: T.GuestCounter(r, t) == T.GuestCounter(tm, t))
      && (forall t: u64, cap: u64 :: T.StepsUntilIrq(r, t, cap) == T.StepsUntilIrq(saved, t, cap))
      && (forall t: u64 :: T.SyncTo(r, t, host) == T.SyncTo(saved, t, host).(hostAnchor := host))
  {
    ResumeIsSync(tm, now, saveHost, loadHost, host, rest);
    var saved := T.SyncTo(tm, now, saveHost);
    SavedRuns(tm, now, saveHost);
    SameButHostAnchor(saved, host);
    assert Reloaded(tm, now, saveHost, loadHost, host, rest) == Some(saved.(hostAnchor := host));
    hide Reloaded, T.SyncTo, T.StepsUntilIrq, T.GuestCounter;
  }

  /** When no interrupt is due at the save tick, all of these are those of the machine that was never saved. */
  lemma ResumedLikeNeverSaved(tm: T.Timer, now: u64, saveHost: u64, loadHost: u64, host: u64, rest: seq<u8>)
    requires 0 < |tm.cpus| < TWO32 && tm.mode == T.GuestStep && T.StepsUntilIrq(tm, now, T.NO_DEADLINE) > 0
    ensures Reloaded(tm, now, saveHost, loadHost, host, rest).Some?
    ensures var r := Reloaded(tm, now, saveHost, loadHost, host, rest).value;
      && (forall t: u64 :: T.GuestCounter(r, t) == T.GuestCounter(tm, t))
      && (forall t: u64, cap: u64 :: T.StepsUntilIrq(r, t, cap) == T.StepsUntilIrq(tm, t, cap))
      && (forall t: u64 :: T.SyncTo(r, t, host) == T.SyncTo(tm, t, host).(hostAnchor := host))
  {
    hide Reloaded, T.SyncTo, T.StepsUntilIrq, T.GuestCounter;
    ResumedBehavesTheSame(tm, now, saveHost, loadHost, host, rest);
    forall t: u64, cap: u64
      ensures T.StepsUntilIrq(T.SyncTo(tm, now, saveHost), t, cap) == T.StepsUntilIrq(tm, t, cap)
    {
      QuietSaveIsInvisible(tm, now, saveHost, t, cap, host);
    }
    forall t: u64 ensures T.SyncTo(T.SyncTo(tm, now, saveHost), t, host) == T.SyncTo(tm, t, host) {
      QuietSaveIsInvisible(tm, now, saveHost, t, 0, host);
    }
  }

  /** Synchronising with nothing due changes nothing that is seen later. */
  lemma QuietSaveIsInvisible(tm: T.Timer, now: u64, saveHost: u64, t: u64, cap: u64, host: u64)
    requires 0 < |tm.cpus| && tm.mode == T.GuestStep && T.StepsUntilIrq(tm, now, T.NO_DEADLINE) > 0
    ensures T.StepsUntilIrq(T.SyncTo(tm, now, saveHost), t, cap) == T.StepsUntilIrq(tm, t, cap)
    ensures T.SyncTo(T.SyncTo(tm, now, saveHost), t, host) == T.SyncTo(tm, t, host)
  {
    hide T.GuestCounter, T.LeastSteps, T.UpdateIrq;
    var saved := T.SyncTo(tm, now, saveHost);
    TT.EarlySyncOnlyMovesAnchor(tm, now, T.NO_DEADLINE, 0, saveHost);
    assert now + 0 == now;
    TT.SyncKeepsCounter(tm, now, saveHost, t);
    TT.SyncedPredictionAgrees(tm, saved, |tm.cpus|, t, cap);
  }

  lemma SavedRuns(tm: T.Timer, now: u64, saveHost: u64)
    requires tm.mode == T.GuestStep
    ensures T.SyncTo(tm, now, saveHost).mode == T.GuestStep
    ensures forall t: u64 :: T.GuestCounter(T.SyncTo(tm, now, saveHost), t) == T.GuestCounter(tm, t)
  {
    hide T.GuestCounter;
    forall t: u64 ensures T.GuestCounter(T.SyncTo(tm, now, saveHost), t) == T.GuestCounter(tm, t) {
      TT.SyncKeepsCounter(tm, now, saveHost, t);
    }
  }

  /** In guest-step mode nothing depends on the host clock. */
  lemma SameButHostAnchor(tm: T.Timer, host: u64)
    requires tm.mode == T.GuestStep
    ensures forall t: u64 :: T.GuestCounter(tm.(hostAnchor := host), t) == T.GuestCounter(tm, t)
    ensures forall t: u64, cap: u64 :: T.StepsUntilIrq(tm.(hostAnchor := host), t, cap) == T.StepsUntilIrq(tm, t, cap)
    ensures forall t: u64 :: T.SyncTo(tm.(hostAnchor := host), t, host) == T.SyncTo(tm, t, host).(hostAnchor := host)
  {
    forall t: u64, cap: u64 ensures T.StepsUntilIrq(tm.(hostAnchor := host), t, cap) == T.StepsUntilIrq(tm, t, cap) {
      hide T.LeastSteps;
      LeastIgnoresHost(tm, host, |tm.cpus|, t, cap);
    }
    forall t: u64 ensures T.SyncTo(tm.(hostAnchor := host), t, host) == T.SyncTo(tm, t, host).(hostAnchor := host) {
      SyncIgnoresHost(tm, host, t);
    }
  }

  lemma {:induction false} LeastIgnoresHost(tm: T.Timer, host: u64, n: nat, t: u64, cap: u64)
    requires n <= |tm.cpus| && tm.mode == T.GuestStep
    ensures T.LeastSteps(tm.(hostAnchor := host), n, t, cap) == T.LeastSteps(tm, n, t, cap)
  {
    hide T.Need, T.GuestCounter;
    assert T.GuestCounter(tm.(hostAnchor := host), t) == T.GuestCounter(tm, t) by { CounterIgnoresHost(tm, host, t); }
    if n > 0 { LeastIgnoresHost(tm, host, n - 1, t, cap); }
  }

  lemma CounterIgnoresHost(tm: T.Timer, host: u64, t: u64)
    ensures T.GuestCounter(tm.(hostAnchor := host), t) == T.GuestCounter(tm, t)
  {
  }

  lemma SyncIgnoresHost(tm: T.Timer, host: u64, t: u64)
    requires tm.mode == T.GuestStep
    ensures T.SyncTo(tm.(hostAnchor := host), t, host) == T.SyncTo(tm, t, host).(hostAnchor := host)
  {
    assert T.SyncTo(tm.(hostAnchor := host), t, host).cpus == T.SyncTo(tm, t, host).cpus;
  }

  /** Resumed on the host clock, the counter starts from the saved value. */
  lemma HostResumeKeepsCounter(tm: T.Timer, scale: u64, now: u64, host: u64)
    requires tm.mode == T.GuestStep
    ensures var r := Resumed(tm, scale, now, T.HostMonotonic, host);
      r.counter == tm.counter && T.CounterAt(r, now, host) == tm.counter
  {
    assert (now - now) * scale == 0;
    assert T.NsToCycles(0, T.HOST_HZ) == 0;
  }

  // ----- interrupt controller layout -----

  const LOCAL_SIZE := 184
  const GIC_HEAD := 4968

  function LocalBytes(l: G.Local): (s: seq<u8>)
    requires G.LocalWf(l)
    ensures |s| == LOCAL_SIZE
  {
    BoolBytes(l.pending) + BoolBytes(l.enabled) + BoolBytes(l.active) + BoolBytes(l.line) + l.prio
    + ToLe(l.waker, 4) + ToLe(l.igroup, 4) + ToLe(l.icfgr0, 4) + ToLe(l.icfgr1, 4) + ToLe(l.mpidr, 8)
  }

  function LocalOf(s: seq<u8>): (l: G.Local)
    requires |s| == LOCAL_SIZE
    ensures G.LocalWf(l)
  {
    Word32Fits(s[160..164]);
    Word32Fits(s[164..168]);
    Word32Fits(s[168..172]);
    Word32Fits(s[172..176]);
    Word64Fits(s[176..184]);
    G.Local(Bools(s[0..32]), Bools(s[32..64]), Bools(s[64..96]), Bools(s[96..128]), s[128..160],
            FromLe(s[160..164]), FromLe(s[164..168]), FromLe(s[168..172]), FromLe(s[172..176]), FromLe(s[176..184]))
  }

  lemma LocalRoundTrip(l: G.Local)
    requires G.LocalWf(l)
    ensures LocalOf(LocalBytes(l)) == l
  {
    var s := LocalBytes(l);
    LocalBits(l);
    LocalWords(l);
    BoolsRoundTrip(l.pending);
    BoolsRoundTrip(l.enabled);
    BoolsRoundTrip(l.active);
    BoolsRoundTrip(l.line);
    Le32(l.waker);
    Le32(l.igroup);
    Le32(l.icfgr0);
    Le32(l.icfgr1);
    Le64(l.mpidr);
    hide LocalBytes, FromLe, ToLe;
  }

  lemma LocalBits(l: G.Local)
    requires G.LocalWf(l)
    ensures var s := LocalBytes(l);
      && s[0..32] == BoolBytes(l.pending) && s[32..64] == BoolBytes(l.enabled)
      && s[64..96] == BoolBytes(l.active) && s[96..128] == BoolBytes(l.line) && s[128..160] == l.prio
  {
  }

  lemma LocalWords(l: G.Local)
    requires G.LocalWf(l)
    ensures var s := LocalBytes(l);
      && s[160..164] == ToLe(l.waker, 4) && s[164..168] == ToLe(l.igroup, 4) && s[168..172] == ToLe(l.icfgr0, 4)
      && s[172..176] == ToLe(l.icfgr1, 4) && s[176..184] == ToLe(l.mpidr, 8)
  {
  }

  function LocalsBytes(ls: seq<G.Local>): (s: seq<u8>)
    requires forall i | 0 <= i < |ls| :: G.LocalWf(ls[i])
    ensures |s| == LOCAL_SIZE * |ls|
    decreases |ls|
  {
    if ls == [] then [] else LocalBytes(ls[0]) + LocalsBytes(ls[1..])
  }

  function ReadLocals(n: nat, s: seq<u8>): (r: Option<Parsed<seq<G.Local>>>)
    ensures r.Some? <==> |s| >= LOCAL_SIZE * n
    ensures r.Some? ==> |r.value.value| == n && forall i | 0 <= i < n :: G.LocalWf(r.value.value[i])
  {
    if n == 0 then Some(Parsed([], s))
    else
      match ReadBytes(LOCAL_SIZE, s)
      case None => None
      case Some(p) =>
        match ReadLocals(n - 1, p.rest)
        case None => None
        case Some(q) => Some(Parsed([LocalOf(p.value)] + q.value, q.rest))
  }

  lemma {:induction false} LocalsRoundTrip(ls: seq<G.Local>, rest: seq<u8>)
    requires forall i | 0 <= i < |ls| :: G.LocalWf(ls[i])
    ensures ReadLocals(|ls|, LocalsBytes(ls) + rest) == Some(Parsed(ls, rest))
    decreases |ls|
  {
    hide LocalBytes, LocalOf, ReadBytes;
    if ls == [] {
      assert LocalsBytes(ls) + rest == rest;
    } else {
      LocalRoundTrip(ls[0]);
      LocalsRoundTrip(ls[1..], rest);
      ReadsFirst(LocalBytes(ls[0]), LocalsBytes(ls[1..]) + rest);
      assert LocalsBytes(ls) + rest == LocalBytes(ls[0]) + (LocalsBytes(ls[1..]) + rest);
      assert ls == [ls[0]] + ls[1..];
    }
  }

  function GicHeadBytes(g: G.Gic): (s: seq<u8>)
    requires G.Wf(g) && |g.locals| < TWO32
    ensures |s| == GIC_HEAD
  {
    ToLe(|g.locals|, 4) + BoolBytes(g.pending) + BoolBytes(g.enabled) + BoolBytes(g.active) + BoolBytes(g.line)
    + g.prio + ToLe(g.ctlr, 4)
  }

  function GicBytes(g: G.Gic): seq<u8>
    requires G.Wf(g) && |g.locals| < TWO32
  {
    GicHeadBytes(g) + LocalsBytes(g.locals)
  }

  /** The controller as loading leaves it. The epoch moves on three times, so no older answer stays current. */
  function LoadGicBytes(s: seq<u8>, epoch: nat): (r: Option<Parsed<G.Gic>>)
    ensures r.Some? ==> G.Wf(r.value.value) && r.value.value.epoch == epoch + 3
  {
    match ReadBytes(GIC_HEAD, s)
    case None => None
    case Some(p) =>
      var h := p.value;
      var n := FromLe(h[0..4]);
      if n == 0 then None
      else
        match ReadLocals(n, p.rest)
        case None => None
        case Some(q) =>
          Word32Fits(h[4964..4968]);
          Some(Parsed(G.Gic(q.value, Bools(h[4..996]), Bools(h[996..1988]), Bools(h[1988..2980]),
                            Bools(h[2980..3972]), h[3972..4964], FromLe(h[4964..4968]), epoch + 3), q.rest))
  }

  lemma GicHeadParts(g: G.Gic)
    requires G.Wf(g) && |g.locals| < TWO32
    ensures var h := GicHeadBytes(g);
      && h[0..4] == ToLe(|g.locals|, 4) && h[4..996] == BoolBytes(g.pending) && h[996..1988] == BoolBytes(g.enabled)
      && h[1988..2980] == BoolBytes(g.active) && h[2980..3972] == BoolBytes(g.line) && h[3972..4964] == g.prio
      && h[4964..4968] == ToLe(g.ctlr, 4)
  {
    hide ToLe, BoolBytes;
  }

  /** Saving and loading restores the whole controller but its epoch, and leaves the rest of the stream unread. */
  lemma GicRoundTrip(g: G.Gic, rest: seq<u8>, epoch: nat)
    requires G.Wf(g) && |g.locals| < TWO32
    ensures LoadGicBytes(GicBytes(g) + rest, epoch) == Some(Parsed(g.(epoch := epoch + 3), rest))
  {
    ReadsFirst(GicHeadBytes(g), LocalsBytes(g.locals) + rest);
    assert GicBytes(g) + rest == GicHeadBytes(g) + (LocalsBytes(g.locals) + rest);
    LocalsRoundTrip(g.locals, rest);
    GicHeadParts(g);
    BoolsRoundTrip(g.pending);
    BoolsRoundTrip(g.enabled);
    BoolsRoundTrip(g.active);
    BoolsRoundTrip(g.line);
    Le32(|g.locals|);
    Le32(g.ctlr);
    hide GicHeadBytes, FromLe, ToLe, ReadLocals, LocalsBytes, ReadBytes, GicBytes;
  }

  lemma TruncatedGicRefused(g: G.Gic, k: nat, epoch: nat)
    requires G.Wf(g) && |g.locals| < TWO32 && k < |GicBytes(g)|
    ensures LoadGicBytes(GicBytes(g)[..k], epoch).None?
  {
    if k >= GIC_HEAD {
      GicHeadParts(g);
      Le32(|g.locals|);
      assert GicBytes(g)[..k][..GIC_HEAD] == GicHeadBytes(g);
      hide GicHeadBytes, FromLe, ToLe, Bools;
    }
  }

  /** Arbitration after loading is arbitration before saving. */
  lemma LoadedArbitratesTheSame(g: G.Gic, rest: seq<u8>, epoch: nat, cpu: nat, pmr: u8)
    requires G.Wf(g) && |g.locals| < TWO32
    ensures LoadGicBytes(GicBytes(g) + rest, epoch).Some?
    ensures G.Highest(LoadGicBytes(GicBytes(g) + rest, epoch).value.value, cpu, pmr) == G.Highest(g, cpu, pmr)
  {
    GicRoundTrip(g, rest, epoch);
    hide LoadGicBytes, GicBytes;
    BestIgnoresEpoch(g, epoch + 3, cpu, pmr, G.INTIDS);
  }

  lemma {:induction false} BestIgnoresEpoch(g: G.Gic, epoch: nat, cpu: nat, pmr: u8, n: nat)
    requires G.Wf(g) && n <= G.INTIDS
    ensures G.BestOf(g.(epoch := epoch), cpu, pmr, n) == G.BestOf(g, cpu, pmr, n)
  {
    if n > 0 { BestIgnoresEpoch(g, epoch, cpu, pmr, n - 1); }
  }
}
