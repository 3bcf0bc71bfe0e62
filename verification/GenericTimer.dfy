/** The timer device itself: its fields change in place, and every method is tied to TimerSpec. */
module GenericTimerDevice {
  import opened Words
  import opened TimerSpec
  import TimerTheorems
  import TimerRegisters

  class GenericTimer {
    var cpuStates: seq<CpuTimer>
    var counter: u64
    var stepAnchor: u64
    var cyclesPerStep: u64
    var clockMode: ClockMode
    var hostAnchorNs: u64
    var compare: u64
    var enabled: bool
    var mmioIrqPending: bool
    var fired: bool

    ghost predicate Valid()
      reads this
    {
      |cpuStates| > 0
    }

    function State(): Timer
      reads this
    {
      Timer(cpuStates, counter, stepAnchor, cyclesPerStep, clockMode, hostAnchorNs,
            compare, enabled, mmioIrqPending, fired)
    }

    constructor (cpuCount: nat)
      ensures Valid()
      ensures State() == Timer(seq(Max(1, cpuCount), i => ResetCpu), 0, 0, 1, GuestStep, 0, 0, false, false, false)
    {
      cpuStates := seq(Max(1, cpuCount), i => ResetCpu);
      counter, stepAnchor, cyclesPerStep := 0, 0, 1;
      clockMode, hostAnchorNs := GuestStep, 0;
      compare, enabled, mmioIrqPending, fired := 0, false, false, false;
    }

    method SetCyclesPerStep(value: u64)
      modifies this`cyclesPerStep
      ensures State() == old(State()).(cps := value)
    {
      cyclesPerStep := value;
    }

    method RebaseToSteps(steps: u64)
      modifies this`stepAnchor
      ensures State() == old(State()).(anchor := steps)
    {
      stepAnchor := steps;
    }

    method CounterAtSteps(steps: u64, host: u64) returns (c: u64)
      ensures c == CounterAt(State(), steps, host)
    {
      if clockMode == HostMonotonic {
        var elapsed: u64 := if host >= hostAnchorNs then host - hostAnchorNs else 0;
        var cycles := NsToCycles(elapsed, HOST_HZ);
        return (counter + cycles) % TWO64;
      }
      c := (counter + (steps - stepAnchor) * cyclesPerStep) % TWO64;
    }

    method UpdateIrqState()
      modifies this
      ensures State() == UpdateIrq(old(State()))
    {
      ghost var before := State();
      if enabled && !mmioIrqPending && !fired && counter >= compare {
        mmioIrqPending := true;
        fired := true;
      }
      var cpu := 0;
      while cpu < |cpuStates|
        invariant 0 <= cpu <= |cpuStates| == |before.cpus|
        invariant State() == UpdateIrq(before).(cpus := cpuStates)
        invariant forall i | 0 <= i < cpu :: cpuStates[i] == UpdateCpu(before.cpus[i], counter)
        invariant forall i | cpu <= i < |cpuStates| :: cpuStates[i] == before.cpus[i]
      {
        cpuStates := cpuStates[cpu := UpdateCpu(cpuStates[cpu], counter)];
        cpu := cpu + 1;
      }
      assert cpuStates == UpdateIrq(before).cpus;
    }

    method SyncToSteps(steps: u64, host: u64)
      modifies this
      ensures State() == SyncTo(old(State()), steps, host)
    {
      counter := CounterAtSteps(steps, host);
      stepAnchor := steps;
      if clockMode == HostMonotonic { hostAnchorNs := host; }
      UpdateIrqState();
    }

    method SetClockMode(mode: ClockMode, steps: u64, host: u64)
      modifies this
      ensures State() == SetMode(old(State()), mode, steps, host)
    {
      counter := CounterAtSteps(steps, host);
      stepAnchor := steps;
      hostAnchorNs := host;
      clockMode := mode;
      UpdateIrqState();
    }

    method StepsUntilChannelIrq(ch: Channel, current: u64, cap: u64) returns (r: u64)
      ensures r == Need(ChannelSource(ch), current, cyclesPerStep, cap)
    {
      if !ch.enable || ch.imask || cap == 0 { return cap; }
      if current >= ch.cval { return 0; }
      if cyclesPerStep == 0 { return cap; }
      var cycles := ch.cval - current;
      var needed := (cycles + cyclesPerStep - 1) % TWO64 / cyclesPerStep;
      r := Min(cap, needed);
    }

    /** The prediction for one CPU; the bound shrinks from source to source. */
    method StepsUntilCpuIrq(cpu: nat, steps: u64, cap: u64) returns (r: u64)
      requires Valid()
      ensures r == if clockMode == HostMonotonic then cap
                   else CpuSteps(State(), Clamp(cpu, |cpuStates|), steps, cap)
    {
      if clockMode == HostMonotonic { return cap; }
      if cap == 0 { return 0; }
      var state := cpuStates[Clamp(cpu, |cpuStates|)];
      if mmioIrqPending || state.cntv.irqPending || state.cntp.irqPending { return 0; }
      var current := CounterAtSteps(steps, 0);
      var best := cap;
      if enabled && !fired {
        if current >= compare {
          best := 0;
        } else if cyclesPerStep != 0 {
          best := Min(best, (compare - current + cyclesPerStep - 1) % TWO64 / cyclesPerStep);
        }
      }
      var v := StepsUntilChannelIrq(state.cntv, current, best);
      best := Min(best, v);
      var p := StepsUntilChannelIrq(state.cntp, current, best);
      r := Min(best, p);
    }

    /** The prediction over all CPUs: the running best is passed down as the bound, and zero ends the scan. */
    method StepsUntilAnyIrq(steps: u64, cap: u64) returns (best: u64)
      requires Valid()
      ensures best == StepsUntilIrq(State(), steps, cap)
    {
      if clockMode == HostMonotonic { return cap; }
      best := cap;
      var cpu := 0;
      while cpu < |cpuStates|
        invariant 0 <= cpu <= |cpuStates|
        invariant best == LeastSteps(State(), cpu, steps, cap)
      {
        var r := StepsUntilCpuIrq(cpu, steps, best);
        TimerTheorems.SmallerCapClips(State(), cpu, steps, cap, best);
        best := Min(best, r);
        cpu := cpu + 1;
        if best == 0 {
          TimerTheorems.ZeroStays(State(), cpu, |cpuStates|, steps, cap);
          break;
        }
      }
    }

    method ReadCtl(cpu: nat, which: Which, steps: u64, host: u64) returns (value: u64)
      requires Valid()
      ensures var c := State().cpus[Clamp(cpu, |cpuStates|)];
              var ch := if which == Virtual then c.cntv else c.cntp;
              && (value % 2 == 1 <==> ch.enable)
              && (value / 2 % 2 == 1 <==> ch.imask)
              && (value / 4 == 1 <==> ch.enable && CounterAt(State(), steps, host) >= ch.cval)
              && value < 8
      ensures value == TimerRegisters.ReadReg(State(), cpu, which, Ctl, steps, host)
    {
      var state := cpuStates[Clamp(cpu, |cpuStates|)];
      var channel := if which == Virtual then state.cntv else state.cntp;
      var current := CounterAtSteps(steps, host);
      var istatus := channel.enable && current >= channel.cval;
      value := (if channel.enable then 1 else 0) + (if channel.imask then 2 else 0) + (if istatus then 4 else 0);
    }

    method ReadTval(cpu: nat, which: Which, steps: u64, host: u64) returns (value: u64)
      requires Valid()
      ensures value == TimerRegisters.ReadReg(State(), cpu, which, Tval, steps, host)
    {
      var state := cpuStates[Clamp(cpu, |cpuStates|)];
      var current := CounterAtSteps(steps, host);
      value := ((if which == Virtual then state.cntv.cval else state.cntp.cval) - current) % TWO64 % TWO32;
    }

    /** Writes to CTL, CVAL and TVAL of either channel: synchronise, change the one register, re-evaluate.
        The scheduler is always told. */
    method WriteReg(cpu: nat, which: Which, reg: TimerReg, steps: u64, value: u64, host: u64) returns (notified: bool)
      requires Valid()
      modifies this
      ensures Valid() && notified
      ensures State() == WriteTimerReg(old(State()), cpu, which, reg, steps, value, host)
    {
      SyncToSteps(steps, host);
      var i := Clamp(cpu, |cpuStates|);
      var state := cpuStates[i];
      var channel := if which == Virtual then state.cntv else state.cntp;
      match reg {
        case Ctl => channel := channel.(enable := value % 2 == 1, imask := value / 2 % 2 == 1);
        case Cval => channel := channel.(cval := value);
        case Tval => channel := channel.(cval := TvalToCval(counter, value));
      }
      state := if which == Virtual then state.(cntv := channel) else state.(cntp := channel);
      cpuStates := cpuStates[i := state];
      assert State() == SetCpuReg(SyncTo(old(State()), steps, host), i, which, reg, value);
      UpdateIrqState();
      notified := true;
    }

    /** A memory-mapped write. If the scheduler is not told, nothing changed. */
    method MmioWrite(offset: u64, value: u64, size: nat) returns (notified: bool)
      requires Valid()
      modifies this
      ensures Valid()
      ensures State() == WriteMmio(old(State()), offset, value, size)
      ensures notified <==> IsMmioReg(offset, size)
      ensures !notified ==> State() == old(State())
    {
      if size != 8 && size != 4 { return false; }
      notified := false;
      if offset == 0x08 {
        compare := value;
        mmioIrqPending := false;
        fired := false;
        UpdateIrqState();
        notified := true;
      } else if offset == 0x10 {
        enabled := value % 2 == 1;
        if !enabled {
          mmioIrqPending := false;
          fired := false;
        }
        if value / 2 % 2 == 1 { mmioIrqPending := false; }
        UpdateIrqState();
        notified := true;
      }
    }

    method MmioRead(offset: u64, size: nat, host: u64) returns (value: u64)
      ensures (size != 4 && size != 8) || offset !in {0x00, 0x08, 0x10} ==> value == 0
      ensures (size == 4 || size == 8) && offset == 0x00 ==> value == CounterAt(State(), stepAnchor, host)
      ensures (size == 4 || size == 8) && offset == 0x00 && clockMode == GuestStep ==> value == counter
      ensures (size == 4 || size == 8) && offset == 0x08 ==> value == compare
      ensures (size == 4 || size == 8) && offset == 0x10 ==>
                value == (if enabled then 1 else 0) + (if mmioIrqPending then 2 else 0)
    {
      if size != 8 && size != 4 { return 0; }
      var current := CounterAtSteps(stepAnchor, host);
      if offset == 0x00 {
        assert (stepAnchor - stepAnchor) * cyclesPerStep == 0;
        return current;
      }
      if offset == 0x08 { return compare; }
      if offset == 0x10 { return (if enabled then 1 else 0) + (if mmioIrqPending then 2 else 0); }
      return 0;
    }
  }
}
