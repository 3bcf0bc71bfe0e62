/** The meaning of the generic timer: what the counter reads at a guest tick, when a source is due,
    and when the next interrupt will appear. All arithmetic is 64-bit and wraps. */
module TimerSpec {
  import opened Words

  const HOST_HZ: int := 100_000_000
  const NS_PER_SECOND: int := 1_000_000_000
  /** The horizon handed to the prediction when the scheduler asks for "any event at all". */
  const NO_DEADLINE: u64 := (TWO64 - 1) / 4

  datatype Channel = Channel(cval: u64, enable: bool, imask: bool, fired: bool, irqPending: bool)

  datatype CpuTimer = CpuTimer(cntv: Channel, cntp: Channel)

  datatype ClockMode = GuestStep | HostMonotonic

  datatype Timer = Timer(
    cpus: seq<CpuTimer>,
    counter: u64,
    anchor: u64,
    cps: u64,
    mode: ClockMode,
    hostAnchor: u64,
    compare: u64,
    enabled: bool,
    mmioPending: bool,
    fired: bool)

  const ResetChannel := Channel(0, false, false, false, false)
  const ResetCpu := CpuTimer(ResetChannel, ResetChannel)

  // ----- the counter -----

  /** Nanoseconds to counter cycles, split into whole seconds and a remainder as 64-bit code must. */
  function NsToCycles(ns: u64, hz: u64): u64 {
    ((ns / NS_PER_SECOND) * hz + ((ns % NS_PER_SECOND) * hz % TWO64) / NS_PER_SECOND) % TWO64
  }

  function CounterAt(tm: Timer, steps: u64, host: u64): u64 {
    match tm.mode
    case HostMonotonic =>
      (tm.counter + NsToCycles(if host >= tm.hostAnchor then host - tm.hostAnchor else 0, HOST_HZ)) % TWO64
    case GuestStep => GuestCounter(tm, steps)
  }

  function GuestCounter(tm: Timer, steps: int): u64 {
    (tm.counter + (steps - tm.anchor) * tm.cps) % TWO64
  }

  // ----- interrupt state -----

  function UpdateChannel(ch: Channel, counter: u64): Channel {
    ch.(irqPending := ch.enable && !ch.imask && counter >= ch.cval)
  }

  function UpdateCpu(c: CpuTimer, counter: u64): CpuTimer {
    CpuTimer(UpdateChannel(c.cntv, counter), UpdateChannel(c.cntp, counter))
  }

  predicate MmioFires(tm: Timer) {
    tm.enabled && !tm.mmioPending && !tm.fired && tm.counter >= tm.compare
  }

  function UpdateIrq(tm: Timer): Timer {
    tm.(mmioPending := tm.mmioPending || MmioFires(tm),
        fired := tm.fired || MmioFires(tm),
        cpus := seq(|tm.cpus|, i requires 0 <= i < |tm.cpus| => UpdateCpu(tm.cpus[i], tm.counter)))
  }

  function SyncTo(tm: Timer, steps: u64, host: u64): Timer {
    UpdateIrq(tm.(counter := CounterAt(tm, steps, host),
                  anchor := steps,
                  hostAnchor := if tm.mode == HostMonotonic then host else tm.hostAnchor))
  }

  predicate Pending(tm: Timer, cpu: nat)
    requires cpu < |tm.cpus|
  {
    tm.mmioPending || tm.cpus[cpu].cntv.irqPending || tm.cpus[cpu].cntp.irqPending
  }

  /** Every interrupt flag says what the counter at the last synchronisation says. */
  predicate Settled(tm: Timer) {
    tm == UpdateIrq(tm)
  }

  // ----- register writes -----

  datatype Which = Virtual | Physical

  datatype TimerReg = Ctl | Cval | Tval

  function SignExtend32(v: u32): int { if v < 0x8000_0000 then v else v - TWO32 }

  function TvalToCval(counter: u64, value: u64): u64 {
    (counter + SignExtend32(value % TWO32)) % TWO64
  }

  function SetChannelReg(ch: Channel, reg: TimerReg, counter: u64, value: u64): Channel {
    match reg
    case Ctl => ch.(enable := value % 2 == 1, imask := value / 2 % 2 == 1)
    case Cval => ch.(cval := value)
    case Tval => ch.(cval := TvalToCval(counter, value))
  }

  function SetCpuReg(tm: Timer, cpu: nat, which: Which, reg: TimerReg, value: u64): Timer
    requires cpu < |tm.cpus|
  {
    var c := tm.cpus[cpu];
    tm.(cpus := tm.cpus[cpu := match which
                              case Virtual => c.(cntv := SetChannelReg(c.cntv, reg, tm.counter, value))
                              case Physical => c.(cntp := SetChannelReg(c.cntp, reg, tm.counter, value))])
  }

  function WriteTimerReg(tm: Timer, cpu: nat, which: Which, reg: TimerReg, steps: u64, value: u64, host: u64): (r: Timer)
    requires |tm.cpus| > 0
    ensures |r.cpus| == |tm.cpus| && r.mode == tm.mode
  {
    UpdateIrq(SetCpuReg(SyncTo(tm, steps, host), Clamp(cpu, |tm.cpus|), which, reg, value))
  }

  /** Writes to the memory-mapped timer. Only the compare and control registers exist. */
  predicate IsMmioReg(offset: u64, size: nat) {
    (size == 4 || size == 8) && (offset == 0x08 || offset == 0x10)
  }

  function WriteMmio(tm: Timer, offset: u64, value: u64, size: nat): (r: Timer)
    ensures |r.cpus| == |tm.cpus| && r.mode == tm.mode
  {
    if !IsMmioReg(offset, size) then tm
    else if offset == 0x08 then UpdateIrq(tm.(compare := value, mmioPending := false, fired := false))
    else
      var on := value % 2 == 1;
      UpdateIrq(tm.(enabled := on,
                    mmioPending := tm.mmioPending && on && value / 2 % 2 == 0,
                    fired := tm.fired && on))
  }

  function SetMode(tm: Timer, mode: ClockMode, steps: u64, host: u64): Timer {
    UpdateIrq(tm.(counter := CounterAt(tm, steps, host), anchor := steps, hostAnchor := host, mode := mode))
  }

  lemma UpdateIrqSettles(tm: Timer)
    ensures Settled(UpdateIrq(tm))
  {
    assert UpdateIrq(UpdateIrq(tm)).cpus == UpdateIrq(tm).cpus;
  }

  // ----- the sources of interrupts -----

  /** Something that becomes due when the counter reaches `at`. */
  datatype Source = Source(armed: bool, at: u64)

  function Sources(tm: Timer, cpu: nat): seq<Source>
    requires cpu < |tm.cpus|
  {
    [Source(tm.enabled && !tm.fired, tm.compare), ChannelSource(tm.cpus[cpu].cntv), ChannelSource(tm.cpus[cpu].cntp)]
  }

  function ChannelSource(ch: Channel): Source {
    Source(ch.enable && !ch.imask, ch.cval)
  }

  predicate Due(src: Source, counter: u64) {
    src.armed && counter >= src.at
  }

  /** An interrupt of this CPU is up at tick `steps`. */
  predicate DueAt(tm: Timer, cpu: nat, steps: int)
    requires cpu < |tm.cpus|
  {
    tm.mmioPending || exists k | 0 <= k < 3 :: Due(Sources(tm, cpu)[k], GuestCounter(tm, steps))
  }

  // ----- the prediction -----

  /** Ticks until the source is due, at most `cap`. The rounding-up division is done in 64 bits. */
  function Need(src: Source, current: u64, cps: u64, cap: u64): u64 {
    if !src.armed then cap
    else if current >= src.at then 0
    else if cps == 0 then cap
    else Min(cap, (src.at - current + cps - 1) % TWO64 / cps)
  }

  function CpuSteps(tm: Timer, cpu: nat, steps: u64, cap: u64): (r: u64)
    requires cpu < |tm.cpus|
    ensures r <= cap
  {
    if cap == 0 || Pending(tm, cpu) then 0
    else
      var c := GuestCounter(tm, steps);
      var s := Sources(tm, cpu);
      Min(Min(Need(s[0], c, tm.cps, cap), Need(s[1], c, tm.cps, cap)), Need(s[2], c, tm.cps, cap))
  }

  /** The least prediction over the first n CPUs. */
  function LeastSteps(tm: Timer, n: nat, steps: u64, cap: u64): (r: u64)
    requires n <= |tm.cpus|
    ensures r <= cap
  {
    if n == 0 then cap else Min(LeastSteps(tm, n - 1, steps, cap), CpuSteps(tm, n - 1, steps, cap))
  }

  function StepsUntilIrq(tm: Timer, steps: u64, cap: u64): (r: u64)
    ensures r <= cap
  {
    if tm.mode == HostMonotonic then cap else LeastSteps(tm, |tm.cpus|, steps, cap)
  }

  /** The exact number of ticks, with no word width in the way. */
  function Ceil(a: int, b: int): int
    requires b > 0
  {
    (a + b - 1) / b
  }

  /** The 64-bit words are wide enough for this source: neither the rounding-up sum nor the counter
      value at the predicted tick overflows. With one cycle per tick this always holds. */
  predicate Fits(src: Source, current: u64, cps: u64) {
    current >= src.at
    || (cps > 0
        && src.at - current + cps - 1 < TWO64
        && current + Ceil(src.at - current, cps) * cps < TWO64)
  }

  /** Some armed source of this CPU asks for exactly r ticks and fits. */
  predicate FittingSourceAt(tm: Timer, cpu: nat, steps: u64, cap: u64, r: u64)
    requires cpu < |tm.cpus|
  {
    exists k | 0 <= k < 3 ::
      var s := Sources(tm, cpu)[k];
      s.armed && Need(s, GuestCounter(tm, steps), tm.cps, cap) == r && Fits(s, GuestCounter(tm, steps), tm.cps)
  }

  // ----- lemmas: arithmetic of one source -----

  lemma GuestCounterAdvance(tm: Timer, t: int, j: int)
    ensures GuestCounter(tm, t + j) == (GuestCounter(tm, t) + j * tm.cps) % TWO64
  {
    ModAdd(tm.counter + (t - tm.anchor) * tm.cps, j * tm.cps, TWO64);
    assert (t + j - tm.anchor) * tm.cps == (t - tm.anchor) * tm.cps + j * tm.cps;
  }

  lemma CeilBounds(a: int, b: int)
    requires a > 0 && b > 0
    ensures Ceil(a, b) >= 1
    ensures (Ceil(a, b) - 1) * b < a <= Ceil(a, b) * b <= a + b - 1
  {
    var k := Ceil(a, b);
    assert a + b - 1 == k * b + (a + b - 1) % b;
    assert (k - 1) * b == k * b - b;
    if k < 1 { MulMono(k, 0, b); }
  }

  /** When the rounding-up sum overflows, the prediction degenerates to "due now". */
  lemma OverflowPredictsNow(src: Source, current: u64, cps: u64, cap: u64)
    requires src.armed && current < src.at && cps > 0 && src.at - current + cps - 1 >= TWO64
    ensures Need(src, current, cps, cap) == 0
  {
    var x := src.at - current + cps - 1;
    assert x - TWO64 < cps;
    QuotientUnique(x, TWO64, 1, x - TWO64);
    QuotientUnique(x - TWO64, cps, 0, x - TWO64);
  }

  lemma NeedIsCeil(src: Source, current: u64, cps: u64, cap: u64)
    requires src.armed && current < src.at && cps > 0 && src.at - current + cps - 1 < TWO64
    ensures Need(src, current, cps, cap) == Min(cap, Ceil(src.at - current, cps))
  {
  }

  lemma NeedWithoutDivision(src: Source, current: u64, cps: u64, cap: u64)
    ensures !src.armed ==> Need(src, current, cps, cap) == cap
    ensures src.armed && current >= src.at ==> Need(src, current, cps, cap) == 0
    ensures src.armed && current < src.at && cps == 0 ==> Need(src, current, cps, cap) == cap
  {
  }

  /** The prediction is never late: the source is not due at any earlier tick. */
  lemma NotDueBefore(src: Source, current: u64, cps: u64, cap: u64, j: nat)
    requires j < Need(src, current, cps, cap)
    ensures !Due(src, (current + j * cps) % TWO64)
    ensures src.armed ==> current + j * cps < src.at
  {
    hide Need, Ceil;
    NeedWithoutDivision(src, current, cps, cap);
    if src.armed && cps > 0 {
      if src.at - current + cps - 1 >= TWO64 {
        OverflowPredictsNow(src, current, cps, cap);
      } else {
        NeedIsCeil(src, current, cps, cap);
        BelowCeil(src.at - current, cps, j);
      }
      var step := j * cps;
      MulMono(0, j, cps);
      assert 0 <= step && current + step < src.at;
    } else if src.armed {
      assert j * cps == 0;
    }
  }

  lemma BelowCeil(a: int, b: int, j: nat)
    requires a > 0 && b > 0 && j < Ceil(a, b)
    ensures j * b < a
  {
    CeilBounds(a, b);
    MulMono(j, Ceil(a, b) - 1, b);
  }

  /** At the predicted tick the source is due exactly when the 64-bit words were wide enough. */
  lemma DueAtNeed(src: Source, current: u64, cps: u64, cap: u64)
    requires src.armed && Need(src, current, cps, cap) < cap
    ensures Due(src, (current + Need(src, current, cps, cap) * cps) % TWO64) <==> Fits(src, current, cps)
  {
    var n := Need(src, current, cps, cap);
    if current >= src.at {
      assert n * cps == 0;
    } else if src.at - current + cps - 1 >= TWO64 {
      OverflowPredictsNow(src, current, cps, cap);
      assert n * cps == 0;
    } else {
      CeilBounds(src.at - current, cps);
      assert n == Ceil(src.at - current, cps);
      var v := current + n * cps;
      if v >= TWO64 { QuotientUnique(v, TWO64, 1, v - TWO64); }
    }
  }

  /** Moving towards the predicted tick shortens the prediction by exactly the distance moved. Where the
      counter skips the source by wrapping, the prediction made at that tick overflows and still says "now". */
  lemma NeedShrinks(src: Source, current: u64, cps: u64, cap: u64, j: nat)
    requires src.armed
    requires j <= Need(src, current, cps, cap) < cap
    ensures Need(src, (current + j * cps) % TWO64, cps, cap) == Need(src, current, cps, cap) - j
  {
    hide Need, Ceil;
    NeedWithoutDivision(src, current, cps, cap);
    var n := Need(src, current, cps, cap);
    if n == 0 {
      assert j * cps == 0;
    } else {
      if src.at - current + cps - 1 >= TWO64 { OverflowPredictsNow(src, current, cps, cap); }
      if j == n { NeedShrinksToNone(src, current, cps, cap); } else { NeedShrinksOnTheWay(src, current, cps, cap, j); }
    }
  }

  /** At the predicted tick the source is due, or the counter has skipped it and the prediction overflows. */
  lemma NeedShrinksToNone(src: Source, current: u64, cps: u64, cap: u64)
    requires src.armed && current < src.at && cps > 0 && src.at - current + cps - 1 < TWO64
    requires Need(src, current, cps, cap) < cap
    ensures Need(src, (current + Need(src, current, cps, cap) * cps) % TWO64, cps, cap) == 0
  {
    hide Need, Ceil;
    NeedIsCeil(src, current, cps, cap);
    var n := Need(src, current, cps, cap);
    var later := (current + n * cps) % TWO64;
    NeedWithoutDivision(src, later, cps, cap);
    if !Due(src, later) {
      SkippedSourceOverflows(src, current, cps, n);
      OverflowPredictsNow(src, later, cps, cap);
    }
  }

  /** Before it the counter has not wrapped, and one tick less is needed for every tick that has passed. */
  lemma NeedShrinksOnTheWay(src: Source, current: u64, cps: u64, cap: u64, j: nat)
    requires src.armed && current < src.at && cps > 0 && src.at - current + cps - 1 < TWO64
    requires j < Need(src, current, cps, cap) < cap
    ensures Need(src, (current + j * cps) % TWO64, cps, cap) == Need(src, current, cps, cap) - j
  {
    hide Need, Ceil;
    NeedIsCeil(src, current, cps, cap);
    NotDueBefore(src, current, cps, cap, j);
    var step := j * cps;
    MulMono(0, j, cps);
    StaysBelow(current, step, src.at);
    NeedIsCeil(src, current + step, cps, cap);
    CeilShift(src.at - current, cps, j);
  }

  lemma StaysBelow(current: u64, step: nat, at: u64)
    requires current + step < at
    ensures (current + step) % TWO64 == current + step
  {
  }

  lemma SkippedSourceOverflows(src: Source, current: u64, cps: u64, n: nat)
    requires current < src.at && cps > 0 && n == Ceil(src.at - current, cps)
    requires src.at - current + cps - 1 < TWO64
    requires (current + n * cps) % TWO64 < src.at
    ensures src.at - (current + n * cps) % TWO64 + cps - 1 >= TWO64
  {
    CeilBounds(src.at - current, cps);
    var v := current + n * cps;
    assert v >= src.at;
    QuotientUnique(v, TWO64, 1, v - TWO64) by {
      assert v < src.at + cps;
      if v < TWO64 { QuotientUnique(v, TWO64, 0, v); }
    }
  }

  lemma CeilShift(a: int, b: int, j: int)
    requires b > 0
    ensures Ceil(a - j * b, b) == Ceil(a, b) - j
  {
    var x := a + b - 1;
    QuotientUnique(x - j * b, b, x / b - j, x % b) by {
      assert (x / b - j) * b == x / b * b - j * b;
    }
  }

  lemma NeedShrinksCapped(src: Source, current: u64, cps: u64, cap: u64, j: nat, r: nat)
    requires j <= r < cap && r <= Need(src, current, cps, cap)
    ensures r - j <= Need(src, (current + j * cps) % TWO64, cps, cap)
  {
    hide Need, Ceil;
    var later := (current + j * cps) % TWO64;
    var n := Need(src, current, cps, cap);
    NeedWithoutDivision(src, current, cps, cap);
    NeedWithoutDivision(src, later, cps, cap);
    if src.armed && cps > 0 && n > 0 && j < n {
      if src.at - current + cps - 1 >= TWO64 { OverflowPredictsNow(src, current, cps, cap); }
      NotDueBefore(src, current, cps, cap, j);
      assert later == current + j * cps;
      MulMono(0, j, cps);
      NeedIsCeil(src, current, cps, cap);
      NeedIsCeil(src, later, cps, cap);
      CeilShift(src.at - current, cps, j);
    } else if src.armed && cps == 0 {
      assert j * cps == 0;
    }
  }
}
