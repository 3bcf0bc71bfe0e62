/** What a write to the timer's registers does: what is read back, what it leaves alone, and when the interrupt comes. */
module TimerRegisters {
  import opened Words
  import opened TimerSpec
  import TimerTheorems

  /** The channel a register access reaches; a CPU number out of range means the last CPU. */
  function ChannelOf(tm: Timer, cpu: nat, which: Which): Channel
    requires |tm.cpus| > 0
  {
    var c := tm.cpus[Clamp(cpu, |tm.cpus|)];
    if which == Virtual then c.cntv else c.cntp
  }

  /** Enabled, masked, and whether the count has reached the compare value. */
  function ReadCtl(ch: Channel, current: u64): u64 {
    (if ch.enable then 1 else 0) + (if ch.imask then 2 else 0) + (if ch.enable && current >= ch.cval then 4 else 0)
  }

  function ReadReg(tm: Timer, cpu: nat, which: Which, reg: TimerReg, steps: u64, host: u64): u64
    requires |tm.cpus| > 0
  {
    var ch := ChannelOf(tm, cpu, which);
    match reg
    case Ctl => ReadCtl(ch, CounterAt(tm, steps, host))
    case Cval => ch.cval
    case Tval => TimerTheorems.ReadTval(ch, CounterAt(tm, steps, host))
  }

  /** The stored part of a channel: what is re-evaluated with the counter left out. */
  ghost predicate SameSettings(a: Channel, b: Channel) {
    b.cval == a.cval && b.enable == a.enable && b.imask == a.imask && b.fired == a.fired
  }

  /** The channel a write leaves, by register. */
  lemma WrittenChannel(tm: Timer, cpu: nat, which: Which, reg: TimerReg, steps: u64, value: u64, host: u64)
    requires |tm.cpus| > 0
    ensures var r := WriteTimerReg(tm, cpu, which, reg, steps, value, host);
      var now := CounterAt(tm, steps, host);
      && CounterAt(r, steps, host) == now
      && ChannelOf(r, cpu, which) == UpdateChannel(SetChannelReg(UpdateChannel(ChannelOf(tm, cpu, which), now), reg, now, value), now)
  {
    SyncKeepsNow(tm, steps, host);
    NothingElapses();
  }

  lemma NothingElapses()
    ensures NsToCycles(0, HOST_HZ) == 0
  {
  }

  lemma SyncKeepsNow(tm: Timer, steps: u64, host: u64)
    ensures CounterAt(SyncTo(tm, steps, host), steps, host) == CounterAt(tm, steps, host)
  {
    NothingElapses();
    assert (steps - steps) * tm.cps == 0;
  }

  /** A write is read back: the two control bits, the whole compare value, the low 32 bits of the timer value. The
      control register also shows whether the count has reached the compare value. */
  lemma WriteReadsBack(tm: Timer, cpu: nat, which: Which, reg: TimerReg, steps: u64, value: u64, host: u64)
    requires |tm.cpus| > 0
    ensures var r := WriteTimerReg(tm, cpu, which, reg, steps, value, host);
      var read := ReadReg(r, cpu, which, reg, steps, host);
      match reg
      case Ctl => read % 4 == value % 4 && (read >= 4 <==> value % 2 == 1 && CounterAt(tm, steps, host) >= ChannelOf(tm, cpu, which).cval)
      case Cval => read == value
      case Tval => read == value % TWO32
  {
    hide WriteTimerReg, CounterAt, TvalToCval, TimerTheorems.ReadTval, ChannelOf;
    WrittenChannel(tm, cpu, which, reg, steps, value, host);
    var now := CounterAt(tm, steps, host);
    var ch := UpdateChannel(ChannelOf(tm, cpu, which), now);
    match reg
    case Ctl => CtlReadsBack(ch, now, value);
    case Cval =>
    case Tval =>
      TimerTheorems.TvalRoundTrip(ch, now, value);
      PendingUnread(ch.(cval := TvalToCval(now, value)), now);
  }

  lemma PendingUnread(ch: Channel, now: u64)
    ensures TimerTheorems.ReadTval(UpdateChannel(ch, now), now) == TimerTheorems.ReadTval(ch, now)
  {
  }

  lemma CtlReadsBack(ch: Channel, now: u64, value: u64)
    ensures var read := ReadCtl(UpdateChannel(SetChannelReg(ch, Ctl, now, value), now), now);
      read % 4 == value % 4 && (read >= 4 <==> value % 2 == 1 && now >= ch.cval)
  {
    assert value % 4 == value % 2 + 2 * (value / 2 % 2);
  }

  /** A write changes its one register and nothing else that is stored. */
  lemma WriteKeepsRest(tm: Timer, cpu: nat, which: Which, reg: TimerReg, steps: u64, value: u64, host: u64,
                       other: nat, channel: Which)
    requires |tm.cpus| > 0
    ensures var r := WriteTimerReg(tm, cpu, which, reg, steps, value, host);
      var was, now := ChannelOf(tm, other, channel), ChannelOf(r, other, channel);
      && (Clamp(other, |tm.cpus|) != Clamp(cpu, |tm.cpus|) || channel != which ==> SameSettings(was, now))
      && (reg == Ctl ==> now.cval == was.cval)
      && (reg != Ctl ==> now.enable == was.enable && now.imask == was.imask)
      && r.compare == tm.compare && r.enabled == tm.enabled && r.cps == tm.cps && r.mode == tm.mode
  {
  }

  /** A countdown of zero or less is over at once, any other is not, while the sum stays within 64 bits. */
  lemma TvalDueAtOnceIff(tm: Timer, cpu: nat, which: Which, steps: u64, value: u64, host: u64)
    requires |tm.cpus| > 0
    requires 0 <= CounterAt(tm, steps, host) + SignExtend32(value % TWO32) < TWO64
    ensures var r := WriteTimerReg(tm, cpu, which, Tval, steps, value, host);
      CounterAt(r, steps, host) >= ChannelOf(r, cpu, which).cval <==> SignExtend32(value % TWO32) <= 0
  {
    WrittenChannel(tm, cpu, which, Tval, steps, value, host);
    QuotientUnique(CounterAt(tm, steps, host) + SignExtend32(value % TWO32), TWO64, 0,
                   CounterAt(tm, steps, host) + SignExtend32(value % TWO32));
  }

  lemma WriteKeepsCounter(tm: Timer, cpu: nat, which: Which, reg: TimerReg, steps: u64, value: u64, host: u64, s: u64)
    requires |tm.cpus| > 0 && tm.mode == GuestStep
    ensures GuestCounter(WriteTimerReg(tm, cpu, which, reg, steps, value, host), s) == GuestCounter(tm, s)
  {
    TimerTheorems.SyncKeepsCounter(tm, steps, host, s);
  }

  lemma SyncedChannel(tm: Timer, cpu: nat, which: Which, s: u64, host: u64)
    requires |tm.cpus| > 0 && tm.mode == GuestStep
    ensures ChannelOf(SyncTo(tm, s, host), cpu, which) == UpdateChannel(ChannelOf(tm, cpu, which), GuestCounter(tm, s))
    ensures Due(ChannelSource(ChannelOf(tm, cpu, which)), GuestCounter(tm, s)) ==> DueAt(tm, Clamp(cpu, |tm.cpus|), s)
  {
    var src := Sources(tm, Clamp(cpu, |tm.cpus|));
    assert src[if which == Virtual then 1 else 2] == ChannelSource(ChannelOf(tm, cpu, which));
  }

  lemma ArmedChannel(tm: Timer, cpu: nat, which: Which, s1: u64, x: u64, s2: u64, v: u64, host: u64)
    requires |tm.cpus| > 0
    ensures var r := WriteTimerReg(WriteTimerReg(tm, cpu, which, Cval, s1, x, host), cpu, which, Ctl, s2, v, host);
      var ch := ChannelOf(r, cpu, which);
      ch.cval == x && (ch.enable && !ch.imask <==> v % 4 == 1)
  {
    hide WriteTimerReg, ChannelOf, CounterAt;
    WrittenChannel(tm, cpu, which, Cval, s1, x, host);
    WrittenChannel(WriteTimerReg(tm, cpu, which, Cval, s1, x, host), cpu, which, Ctl, s2, v, host);
    assert v % 4 == v % 2 + 2 * (v / 2 % 2);
  }

  /** With the compare value x written and then the control value v, the channel is due, and its interrupt up at a
      synchronisation, exactly when v enables it unmasked and the count there has reached x. */
  lemma WrittenTimerFires(tm: Timer, cpu: nat, which: Which, s1: u64, x: u64, s2: u64, v: u64, host: u64, s: u64)
    requires |tm.cpus| > 0 && tm.mode == GuestStep
    ensures var r := WriteTimerReg(WriteTimerReg(tm, cpu, which, Cval, s1, x, host), cpu, which, Ctl, s2, v, host);
      var fires := v % 4 == 1 && GuestCounter(tm, s) >= x;
      && (Due(ChannelSource(ChannelOf(r, cpu, which)), GuestCounter(r, s)) <==> fires)
      && (ChannelOf(SyncTo(r, s, host), cpu, which).irqPending <==> fires)
      && (fires ==> DueAt(r, Clamp(cpu, |tm.cpus|), s))
  {
    hide WriteTimerReg, SyncTo, GuestCounter, DueAt, ChannelOf, CounterAt;
    var tm1 := WriteTimerReg(tm, cpu, which, Cval, s1, x, host);
    var r := WriteTimerReg(tm1, cpu, which, Ctl, s2, v, host);
    WriteKeepsCounter(tm, cpu, which, Cval, s1, x, host, s);
    WriteKeepsCounter(tm1, cpu, which, Ctl, s2, v, host, s);
    ArmedChannel(tm, cpu, which, s1, x, s2, v, host);
    SyncedChannel(r, cpu, which, s, host);
  }

  // ----- the memory-mapped timer -----

  /** A write of the compare value forgets the interrupt that was up and the one that was taken, so that the interrupt is
      up next exactly when the timer is enabled and the count has reached the new value. A write of the control value 0
      silences the timer; with bit 1 set it acknowledges the interrupt, which stays away if it had come up by itself. */
  lemma MmioWritten(tm: Timer, offset: u64, value: u64, size: nat)
    requires IsMmioReg(offset, size)
    ensures var r := WriteMmio(tm, offset, value, size);
      && (offset == 0x08 ==>
            && r.compare == value && r.enabled == tm.enabled
            && (r.mmioPending <==> tm.enabled && tm.counter >= value) && r.fired == r.mmioPending)
      && (offset == 0x10 ==>
            && r.compare == tm.compare && (r.enabled <==> value % 2 == 1)
            && (value % 2 == 0 ==> !r.mmioPending && !r.fired)
            && (value % 4 == 3 ==> (r.mmioPending <==> !tm.fired && tm.counter >= tm.compare))
            && (value % 4 == 1 ==> (r.mmioPending <==> tm.mmioPending || (!tm.fired && tm.counter >= tm.compare))))
      && r.counter == tm.counter && r.anchor == tm.anchor
  {
  }

  /** It leaves every channel's registers alone. */
  lemma MmioKeepsChannels(tm: Timer, offset: u64, value: u64, size: nat, cpu: nat, which: Which)
    requires |tm.cpus| > 0
    ensures SameSettings(ChannelOf(tm, cpu, which), ChannelOf(WriteMmio(tm, offset, value, size), cpu, which))
  {
  }

  /** An acknowledged interrupt does not come back by itself, however far the count goes on. */
  lemma AcknowledgedStaysDown(tm: Timer, value: u64, steps: u64, host: u64)
    requires tm.fired && value % 4 == 3
    ensures !SyncTo(WriteMmio(tm, 0x10, value, 8), steps, host).mmioPending
  {
  }

  /** Changing the clock does not bend the count. */
  lemma ModeKeepsCount(tm: Timer, mode: ClockMode, steps: u64, host: u64)
    ensures var r := SetMode(tm, mode, steps, host);
      && r.mode == mode && CounterAt(r, steps, host) == CounterAt(tm, steps, host)
      && r.compare == tm.compare && r.enabled == tm.enabled
  {
    NothingElapses();
    assert (steps - steps) * tm.cps == 0;
  }
}
