/** The bus with its fast path is the linear-search bus. */
module BusTheorems {
  import opened Words
  import opened GuestMemory
  import opened DirtyRows
  import opened BusSpec

  /** Different regions share no address. */
  lemma RegionsApart(j: nat, k: nat)
    requires j < |MAPPINGS| && k < |MAPPINGS| && j != k
    ensures MAPPINGS[j].base + MAPPINGS[j].size <= MAPPINGS[k].base
         || MAPPINGS[k].base + MAPPINGS[k].size <= MAPPINGS[j].base
  {
  }

  /** Only the interrupt controller begins where another region, mapped earlier, ends. */
  lemma OnlyGicAdjoins(j: nat, k: nat)
    requires j < k < |MAPPINGS| && MAPPINGS[j].base + MAPPINGS[j].size == MAPPINGS[k].base
    ensures MAPPINGS[k] == GIC && j == 0
  {
  }

  lemma RegionBounds(k: nat)
    requires k < |MAPPINGS|
    ensures MAPPINGS[k].base + MAPPINGS[k].size <= TWO32
  {
  }

  lemma {:induction false} FoundFirst(i: nat, k: nat, addr: u64, size: u64)
    requires i <= k < |MAPPINGS| && Matches(MAPPINGS[k], addr, size)
    requires forall j | i <= j < k :: !Matches(MAPPINGS[j], addr, size)
    ensures FindFrom(i, addr, size) == Some(MAPPINGS[k])
    decreases k - i
  {
    if i < k { FoundFirst(i + 1, k, addr, size); }
  }

  /** What the fast path takes for a region the search finds too, but for an empty access to the GIC's first byte. */
  lemma InsideIsFound(k: nat, addr: u64, size: u64)
    requires k < |MAPPINGS| && Inside(MAPPINGS[k], addr, size)
    ensures !(size == 0 && addr == GIC.base && MAPPINGS[k] == GIC) ==> Find(addr, size) == Some(MAPPINGS[k])
  {
    hide FindFrom, MAPPINGS;
    RegionBounds(k);
    SmallWraps(addr + size);
    SmallWraps(MAPPINGS[k].base + MAPPINGS[k].size);
    if !(size == 0 && addr == GIC.base && MAPPINGS[k] == GIC) {
      forall j | 0 <= j < k ensures !Matches(MAPPINGS[j], addr, size) {
        RegionBounds(j);
        SmallWraps(MAPPINGS[j].base + MAPPINGS[j].size);
        RegionsApart(j, k);
        if MAPPINGS[j].base + MAPPINGS[j].size == MAPPINGS[k].base { OnlyGicAdjoins(j, k); }
      }
      FoundFirst(0, k, addr, size);
    }
  }

  lemma SmallWraps(x: nat)
    requires x <= TWO32
    ensures x % TWO64 == x
  {
  }

  lemma IndexOf(m: Mapping) returns (k: nat)
    requires m in [BOOT, FRAME, SDRAM, UART, PERF, BLK, NET, GIC, TIMER]
    ensures k < |MAPPINGS| && MAPPINGS[k] == m
  {
    k := if m == BOOT then 0 else if m == FRAME then 1 else if m == SDRAM then 2 else if m == UART then 3
         else if m == PERF then 5 else if m == BLK then 7 else if m == NET then 8 else if m == GIC then 9 else 10;
  }

  /** A RAM region the fast path picks, in either order, is the one found by searching. */
  lemma FastRamIsFound(addr: u64, size: u64)
    ensures FastRam(addr, size) == FastMutRam(addr, size)
    ensures FastRam(addr, size).Some? ==>
            var m := FastRam(addr, size).value;
            IsRam(m.dev) && Inside(m, addr, size) && Find(addr, size) == Some(m)
  {
    hide Find;
    if FastRam(addr, size).Some? {
      var k := IndexOf(FastRam(addr, size).value);
      InsideIsFound(k, addr, size);
    }
  }

  lemma FastDeviceIsFound(addr: u64, size: u64)
    ensures FastDevice(addr, size).Some? ==>
            var m := FastDevice(addr, size).value;
            && !IsRam(m.dev) && Inside(m, addr, size)
            && (Find(addr, size) == Some(m) || (m == GIC && size == 0 && addr == GIC.base))
    ensures FastDevice(addr, size).Some? ==> FastRam(addr, size).None?
  {
    hide Find;
    if FastDevice(addr, size).Some? {
      var k := IndexOf(FastDevice(addr, size).value);
      InsideIsFound(k, addr, size);
    }
  }

  /** An empty access to the GIC's first byte is found to end the boot RAM, which does nothing with it. */
  lemma EmptyAtGic()
    ensures Find(GIC.base, 0) == Some(BOOT)
  {
    assert Matches(MAPPINGS[0], GIC.base, 0);
  }

  /** Reading: for every address and size, the fast path changes neither result nor state. */
  lemma ReadsAgree<D(!new)>(c: Config<D>, b: Board<D>, addr: u64, size: u64)
    requires BoardOk(b) && Proper(c)
    ensures BusRead(c, b, addr, size) == LinearRead(c, b, addr, size)
  {
    hide Find, FastRam, FastDevice, Load, Inside;
    FastRamIsFound(addr, size);
    FastDeviceIsFound(addr, size);
    EmptyAtGic();
    if FastRam(addr, size).Some? && RamSize(size) {
      RamReadInside(c, b, FastRam(addr, size).value, addr, size);
    }
  }

  lemma RamReadInside<D(!new)>(c: Config<D>, b: Board<D>, m: Mapping, addr: u64, size: u64)
    requires BoardOk(b) && (m == BOOT || m == FRAME || m == SDRAM) && Inside(m, addr, size) && RamSize(size)
    ensures DeviceRead(c, b, m.dev, addr - m.base, size) == Done(b, Load(RamOf(b, m.dev), addr - m.base, size))
  {
    hide Load;
  }

  /** Writing: for every address, value and size, the fast path changes neither result nor state. */
  lemma WritesAgree<D(!new)>(c: Config<D>, b: Board<D>, addr: u64, value: u64, size: u64)
    requires BoardOk(b) && Proper(c)
    ensures BusWrite(c, b, addr, value, size) == LinearWrite(c, b, addr, value, size)
  {
    FrameIsFast(addr, size);
    hide Find, FastRam, FastMutRam, FastDevice, StoreBytes, Inside, Wrote;
    FastRamIsFound(addr, size);
    FastDeviceIsFound(addr, size);
    EmptyAtGic();
    if FastRam(addr, size).Some? && RamSize(size) {
      RamWriteInside(c, b, FastRam(addr, size).value, addr, value, size);
    }
  }

  lemma FrameIsFast(addr: u64, size: u64)
    ensures Inside(FRAME, addr, size) <==> FastRam(addr, size) == Some(FRAME)
  {
  }

  lemma RamWriteInside<D(!new)>(c: Config<D>, b: Board<D>, m: Mapping, addr: u64, value: u64, size: u64)
    requires BoardOk(b) && (m == BOOT || m == FRAME || m == SDRAM) && Inside(m, addr, size) && RamSize(size)
    ensures DeviceWrite(c, b, m.dev, addr - m.base, value, size)
         == Done(Notified(WithRam(b, m.dev, StoreBytes(RamOf(b, m.dev), addr - m.base, value, size)),
                          m.dev, addr - m.base, size), 0)
  {
    hide StoreBytes, Wrote;
  }

  // ----- whole runs -----

  datatype Access = Read(addr: u64, size: u64) | Write(addr: u64, value: u64, size: u64)

  function Accessed<D>(c: Config<D>, b: Board<D>, a: Access, fast: bool): Result<D>
    requires BoardOk(b)
  {
    match a
    case Read(addr, size) => if fast then BusRead(c, b, addr, size) else LinearRead(c, b, addr, size)
    case Write(addr, v, size) => if fast then BusWrite(c, b, addr, v, size) else LinearWrite(c, b, addr, v, size)
  }

  lemma LinearKeepsBoard<D(!new)>(c: Config<D>, b: Board<D>, a: Access)
    requires BoardOk(b) && KeepsSizes(c)
    ensures var r := Accessed(c, b, a, false); !r.Undefined? ==> BoardOk(r.board)
  {
    hide Find, Load, StoreBytes, Wrote;
  }

  /** The results of a run of accesses, up to the first whose effect is not defined. */
  function Results<D>(c: Config<D>, b: Board<D>, run: seq<Access>, fast: bool): seq<Result<D>>
    requires BoardOk(b)
    decreases |run|
  {
    if run == [] then []
    else
      var r := Accessed(c, b, run[0], fast);
      if r.Undefined? || !BoardOk(r.board) then [r] else [r] + Results(c, r.board, run[1..], fast)
  }

  /** Over any run of accesses both buses give the same results and leave the same memory, devices and dirty rows. */
  lemma {:induction false} RunsAgree<D(!new)>(c: Config<D>, b: Board<D>, run: seq<Access>)
    requires BoardOk(b) && Proper(c)
    ensures Results(c, b, run, true) == Results(c, b, run, false)
    decreases |run|
  {
    hide BusRead, BusWrite, LinearRead, LinearWrite;
    if run != [] {
      match run[0] {
        case Read(addr, size) => ReadsAgree(c, b, addr, size);
        case Write(addr, v, size) => WritesAgree(c, b, addr, v, size);
      }
      var r := Accessed(c, b, run[0], false);
      LinearKeepsBoard(c, b, run[0]);
      if !r.Undefined? { RunsAgree(c, r.board, run[1..]); }
    }
  }

  // ----- what an access does -----

  /** Searching finds a mapping exactly when the access, its end taken modulo 2^64, fits one. */
  lemma {:induction false} FoundIff(i: nat, addr: u64, size: u64)
    requires i <= |MAPPINGS|
    ensures FindFrom(i, addr, size).Some? <==> exists j :: i <= j < |MAPPINGS| && Matches(MAPPINGS[j], addr, size)
    decreases |MAPPINGS| - i
  {
    hide MAPPINGS;
    if i < |MAPPINGS| && !Matches(MAPPINGS[i], addr, size) { FoundIff(i + 1, addr, size); }
  }

  /** The bus reports that no device answers, reading or writing, exactly when no mapping holds the access; and an
      access that does not pass the end of the address space is held by a mapping exactly when it lies inside it. */
  lemma NoDeviceIff<D(!new)>(c: Config<D>, b: Board<D>, addr: u64, value: u64, size: u64)
    requires BoardOk(b) && Proper(c)
    ensures BusRead(c, b, addr, size).NoDevice? <==> forall j | 0 <= j < |MAPPINGS| :: !Matches(MAPPINGS[j], addr, size)
    ensures BusWrite(c, b, addr, value, size).NoDevice? <==> BusRead(c, b, addr, size).NoDevice?
    ensures addr + size < TWO64 ==>
              forall j | 0 <= j < |MAPPINGS| :: Matches(MAPPINGS[j], addr, size) <==>
                MAPPINGS[j].base <= addr && addr + size <= MAPPINGS[j].base + MAPPINGS[j].size
  {
    hide FindFrom, MAPPINGS, Load, StoreBytes, Wrote, BusRead, BusWrite;
    ReadsAgree(c, b, addr, size);
    WritesAgree(c, b, addr, value, size);
    FoundIff(0, addr, size);
    forall j | 0 <= j < |MAPPINGS|
      ensures (MAPPINGS[j].base + MAPPINGS[j].size) % TWO64 == MAPPINGS[j].base + MAPPINGS[j].size
    {
      RegionBounds(j);
      SmallWraps(MAPPINGS[j].base + MAPPINGS[j].size);
    }
  }

  /** A RAM access, reading or writing, has no defined effect exactly when it is RAM-sized and its end passes the end
      of the address space. */
  lemma UndefinedIff<D(!new)>(c: Config<D>, b: Board<D>, addr: u64, value: u64, size: u64)
    requires BoardOk(b)
    ensures LinearRead(c, b, addr, size).Undefined? <==> RamSize(size) && addr + size >= TWO64
    ensures LinearWrite(c, b, addr, value, size).Undefined? <==> RamSize(size) && addr + size >= TWO64
  {
    hide FindFrom, Load, StoreBytes, Wrote;
    if addr + size >= TWO64 && RamSize(size) {
      assert (addr + size) % TWO64 <= 7;
      assert Matches(MAPPINGS[0], addr, size);
      FoundFirst(0, 0, addr, size);
      assert Find(addr, size) == Some(BOOT);
    } else if addr + size < TWO64 && Find(addr, size).Some? {
      FoundFits(0, addr, size);
    }
  }

  lemma {:induction false} FoundFits(i: nat, addr: u64, size: u64)
    requires i <= |MAPPINGS| && FindFrom(i, addr, size).Some?
    ensures var m := FindFrom(i, addr, size).value;
      Matches(m, addr, size) && exists k :: i <= k < |MAPPINGS| && MAPPINGS[k] == m
    decreases |MAPPINGS| - i
  {
    hide MAPPINGS;
    if !Matches(MAPPINGS[i], addr, size) { FoundFits(i + 1, addr, size); }
  }

  /** What is written to RAM is read back, cut to its size. */
  lemma ReadBack<D(!new)>(c: Config<D>, b: Board<D>, addr: u64, value: u64, size: u64)
    requires BoardOk(b) && RamSize(size) && FastRam(addr, size).Some?
    ensures var w := LinearWrite(c, b, addr, value, size);
      && w.Done? && BoardOk(w.board)
      && LinearRead(c, w.board, addr, size) == Done(w.board, value % Pow256(size))
  {
    hide Find, FastRam, Load, StoreBytes, Wrote, Pow256, Inside;
    FastRamIsFound(addr, size);
    var m := FastRam(addr, size).value;
    var off := addr - m.base;
    FastRamIsOne(addr, size);
    RamWriteInside(c, b, m, addr, value, size);
    var b' := LinearWrite(c, b, addr, value, size).board;
    RamReadInside(c, b', m, addr, size);
    LoadStored(RamOf(b, m.dev), off, value, size) by { InsideOff(b, m, addr, size); }
  }

  lemma FastRamIsOne(addr: u64, size: u64)
    ensures FastRam(addr, size).Some? ==> FastRam(addr, size).value in [BOOT, FRAME, SDRAM]
  {
  }

  lemma InsideOff<D(!new)>(b: Board<D>, m: Mapping, addr: u64, size: u64)
    requires BoardOk(b) && (m == BOOT || m == FRAME || m == SDRAM) && Inside(m, addr, size)
    ensures addr - m.base + size <= |RamOf(b, m.dev)|
  {
  }

  lemma LoadStored(bytes: seq<u8>, off: nat, value: u64, size: u64)
    requires RamSize(size) && off + size <= |bytes|
    ensures Load(StoreBytes(bytes, off, value, size), off, size) == value % Pow256(size)
  {
    assert StoreBytes(bytes, off, value, size)[off..off + size] == ToLe(value, size);
    LeTruncates(value, size);
  }

  lemma {:induction false} LeTruncates(v: nat, n: nat)
    ensures FromLe(ToLe(v, n)) == v % Pow256(n)
  {
    if n > 0 {
      LeTruncates(v / 256, n - 1);
      assert ToLe(v, n)[1..] == ToLe(v / 256, n - 1);
      DivTwice(v, Pow256(n - 1));
    }
  }

  // ----- direct access -----

  /** Direct RAM access gives the same place with the fast path as without it, reading or writing. */
  lemma RamPtrsAgree(addr: u64, size: u64)
    ensures BusRamPtr(addr, size) == LinearRamPtr(addr, size)
    ensures BusMutRamPtr(addr, size) == LinearRamPtr(addr, size)
  {
    hide Find, FastRam, FastMutRam;
    FastRamIsFound(addr, size);
    if FastRam(addr, size).Some? {
      SmallWraps(addr - FastRam(addr, size).value.base + size) by {
        var m := FastRam(addr, size).value;
        var k := IndexOf(m) by { FastRamIsOne(addr, size); }
        RegionBounds(k);
      }
    }
  }

  /** The three RAMs, as the virtio devices see them. */
  const RAM_REGIONS: seq<Region> :=
    [Region(BOOT.base, BOOT.size), Region(FRAME.base, FRAME.size), Region(SDRAM.base, SDRAM.size)]

  /** An access that does not pass the end of the address space gets RAM bytes exactly when one region holds it. */
  lemma RamPtrIsInRam(m: Mem, addr: u64, size: u64)
    requires m.regions == RAM_REGIONS && size > 0 && addr + size < TWO64
    ensures BusRamPtr(addr, size).Some? <==> InRam(m, addr, size)
  {
    RamPtrsAgree(addr, size);
    if FindFrom(0, addr, size).Some? {
      FoundFits(0, addr, size);
    }
    if InRam(m, addr, size) {
      var r :| r in m.regions && r.base <= addr && addr + size <= r.base + r.size;
      var k := if r == RAM_REGIONS[0] then 0 else if r == RAM_REGIONS[1] then 1 else 2;
      InsideIsFound(k, addr, size);
    }
  }

  /** Past the end of the address space the bound check lets an access through that no region holds. */
  lemma RamPtrWraps(addr: u64, size: u64)
    requires addr + size >= TWO64 && addr + size - TWO64 <= BOOT.size
    ensures LinearRamPtr(addr, size) == Some(Place(BootRam, addr))
  {
    assert Matches(MAPPINGS[0], addr, size);
    FoundFirst(0, 0, addr, size);
  }

  /** The board's framebuffer has 600 rows of 3200 bytes; every write it accepts has representable rows. */
  lemma FramebufferRowsRepresentable(t: Tracker, off: u64, size: u64)
    requires t.height == 600 && t.stride == 3200 && t.frameBytes == FRAME.size && off + size <= FRAME.size
    ensures Representable(t, off, size) && !Blank(t, off, size)
  {
    RepresentableNotBlank(t, off, size);
  }
}
