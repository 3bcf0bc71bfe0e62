/** The system bus: stores bytes in place, drives the dirty-row tracker and calls the register devices. */
module SystemBusDevice {
  import opened Words
  import opened GuestMemory
  import opened DirtyRows
  import opened BusSpec
  import opened BusTheorems

  class SystemBus<D(!new)> {
    const config: Config<D>
    var bootRam: seq<u8>
    var framebuffer: seq<u8>
    var sdram: seq<u8>
    var tracker: Tracker
    var devices: D
    var fastPath: bool

    constructor (config: Config<D>, board: Board<D>, fastPath: bool)
      requires BoardOk(board) && Proper(config)
      ensures Valid() && State() == board && this.config == config
    {
      this.config, this.fastPath := config, fastPath;
      bootRam, framebuffer, sdram := board.boot, board.frame, board.sdram;
      tracker, devices := board.tracker, board.devices;
    }

    function State(): Board<D>
      reads this
    {
      Board(bootRam, framebuffer, sdram, tracker, devices)
    }

    ghost predicate Valid()
      reads this
    {
      BoardOk(State()) && Proper(config)
    }

    /** A register device's access may leave any part of the board changed. */
    method Replace(b: Board<D>)
      modifies this`bootRam, this`framebuffer, this`sdram, this`tracker, this`devices
      ensures State() == b
    {
      bootRam, framebuffer, sdram := b.boot, b.frame, b.sdram;
      tracker, devices := b.tracker, b.devices;
    }

    /** The mappings are tried in order. */
    method FindMapping(addr: u64, size: u64) returns (m: Option<Mapping>)
      ensures m == Find(addr, size)
    {
      hide MAPPINGS, Matches;
      var i := 0;
      while i < |MAPPINGS|
        invariant i <= |MAPPINGS| && FindFrom(i, addr, size) == Find(addr, size)
      {
        if Matches(MAPPINGS[i], addr, size) { return Some(MAPPINGS[i]); }
        i := i + 1;
      }
      return None;
    }

    /** Stores into one RAM and tells the dirty-row tracker about the framebuffer. */
    method StoreRam(dev: Dev, off: u64, value: u64, size: u64)
      requires BoardOk(State()) && IsRam(dev) && RamSize(size) && off + size <= |RamOf(State(), dev)|
      modifies this`bootRam, this`framebuffer, this`sdram, this`tracker
      ensures State() == Notified(WithRam(old(State()), dev, StoreBytes(RamOf(old(State()), dev), off, value, size)),
                                  dev, off, size)
      ensures BoardOk(State())
    {
      hide StoreBytes, Wrote;
      match dev
      case BootRam => bootRam := StoreBytes(bootRam, off, value, size);
      case Framebuffer =>
        framebuffer := StoreBytes(framebuffer, off, value, size);
        tracker := Wrote(tracker, off, size);
      case Sdram => sdram := StoreBytes(sdram, off, value, size);
    }

    /** The search-only read; ok is false when no device takes the access, defined when its effect is. */
    method SlowRead(addr: u64, size: u64) returns (ok: bool, defined: bool, value: u64)
      requires Valid()
      modifies this`bootRam, this`framebuffer, this`sdram, this`tracker, this`devices
      ensures Matching(LinearRead(config, old(State()), addr, size), ok, defined, value) && BoardOk(State())
    {
      hide Find, Load, RamAccepts;
      ok, defined, value := true, true, 0;
      var found := FindMapping(addr, size);
      if found.None? { return false, true, 0; }
      var m := found.value;
      var off := addr - m.base;
      if IsRam(m.dev) {
        if RamAccepts(|RamOf(State(), m.dev)|, off, size) {
          if off + size > |RamOf(State(), m.dev)| { return true, false, 0; }
          assert RamSize(size) by { AcceptedSize(|RamOf(State(), m.dev)|, off, size); }
          value := Load(RamOf(State(), m.dev), off, size);
        }
      } else {
        var (b, v) := config.read(State(), m.dev, off, size);
        Replace(b);
        value := v;
      }
    }

    lemma AcceptedSize(length: u64, off: u64, size: u64)
      requires RamAccepts(length, off, size)
      ensures RamSize(size)
    {
    }

    /** The outcome of an access, as the caller sees it. */
    ghost predicate Matching(r: Result<D>, ok: bool, defined: bool, value: u64)
      reads this
    {
      match r
      case Done(b, v) => ok && defined && value == v && State() == b
      case NoDevice(b) => !ok && defined && value == 0 && State() == b
      case Undefined => ok && !defined
    }

    /** A read through the bus: with or without the fast path, it is the search-only read. */
    method Read(addr: u64, size: u64) returns (ok: bool, defined: bool, value: u64)
      requires Valid()
      modifies this`bootRam, this`framebuffer, this`sdram, this`tracker, this`devices
      ensures Matching(LinearRead(config, old(State()), addr, size), ok, defined, value) && Valid()
    {
      ReadsAgree(config, State(), addr, size);
      if fastPath {
        FastRamIsFound(addr, size);
        FastRamIsOne(addr, size);
        hide FastRam, FastDevice, LinearRead, Load, Inside, RamSize;
        var ram := FastRam(addr, size);
        if ram.Some? && RamSize(size) {
          InsideOff(State(), ram.value, addr, size);
          return true, true, Load(RamOf(State(), ram.value.dev), addr - ram.value.base, size);
        }
        var device := FastDevice(addr, size);
        if device.Some? {
          FastDeviceIsFound(addr, size);
          var (b, v) := config.read(State(), device.value.dev, addr - device.value.base, size);
          Replace(b);
          return true, true, v;
        }
      }
      ok, defined, value := SlowRead(addr, size);
    }

    method SlowWrite(addr: u64, value: u64, size: u64) returns (ok: bool, defined: bool)
      requires Valid()
      modifies this`bootRam, this`framebuffer, this`sdram, this`tracker, this`devices
      ensures Matching(LinearWrite(config, old(State()), addr, value, size), ok, defined, 0) && BoardOk(State())
    {
      hide Find, RamAccepts, StoreBytes, Wrote;
      ok, defined := true, true;
      var found := FindMapping(addr, size);
      if found.None? { return false, true; }
      var m := found.value;
      var off := addr - m.base;
      if IsRam(m.dev) {
        if RamAccepts(|RamOf(State(), m.dev)|, off, size) {
          if off + size > |RamOf(State(), m.dev)| { return true, false; }
          assert RamSize(size) by { AcceptedSize(|RamOf(State(), m.dev)|, off, size); }
          StoreRam(m.dev, off, value, size);
        }
      } else {
        Replace(config.write(State(), m.dev, off, value, size));
      }
    }

    /** A write through the bus: with or without the fast path, it is the search-only write. */
    method Write(addr: u64, value: u64, size: u64) returns (ok: bool, defined: bool)
      requires Valid()
      modifies this`bootRam, this`framebuffer, this`sdram, this`tracker, this`devices
      ensures Matching(LinearWrite(config, old(State()), addr, value, size), ok, defined, 0) && Valid()
    {
      ok, defined := true, true;
      if fastPath {
        var stored := WriteRamOnly(addr, value, size);
        WritesAgree(config, old(State()), addr, value, size);
        if stored { return; }
        hide FastWriteRam, FastDevice, LinearWrite;
        var device := FastDevice(addr, size);
        if device.Some? {
          FastDeviceIsFound(addr, size);
          Replace(config.write(State(), device.value.dev, addr - device.value.base, value, size));
          return;
        }
      }
      ok, defined := SlowWrite(addr, value, size);
    }

    method WriteRamOnly(addr: u64, value: u64, size: u64) returns (stored: bool)
      requires BoardOk(State())
      modifies this`bootRam, this`framebuffer, this`sdram, this`tracker
      ensures BoardOk(State())
      ensures match FastWriteRam(old(State()), addr, value, size)
              case Some(b) => stored && State() == b
              case None => !stored && State() == old(State())
    {
      hide StoreBytes, Wrote, RamSize, FastMutRam;
      if Inside(FRAME, addr, size) {
        if !RamSize(size) { return false; }
        StoreRam(Framebuffer, addr - FRAME.base, value, size);
        return true;
      }
      FastRamIsFound(addr, size);
      FastRamIsOne(addr, size);
      NotFrame(addr, size);
      var ram := FastMutRam(addr, size);
      if ram.None? || !RamSize(size) { return false; }
      InsideOff(State(), ram.value, addr, size);
      StoreRam(ram.value.dev, addr - ram.value.base, value, size);
      return true;
    }

    lemma NotFrame(addr: u64, size: u64)
      ensures !Inside(FRAME, addr, size) && FastMutRam(addr, size).Some? ==>
              FastMutRam(addr, size).value in [BOOT, SDRAM]
    {
    }
  }
}
