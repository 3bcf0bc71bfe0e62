/** The address map of the board, and the two ways an access is routed through it. */
module BusSpec {
  import opened Words
  import opened GuestMemory
  import opened DirtyRows

  datatype Dev = BootRam | Framebuffer | Sdram | Uart | Kmi | Perf | Rtc | Blk | Net | Gic | TimerBlock

  datatype Mapping = Mapping(base: u64, size: u64, dev: Dev)

  const BOOT := Mapping(0x0000_0000, 0x0800_0000, BootRam)
  const FRAME := Mapping(0x1000_0000, 0x0040_0000, Framebuffer)
  const SDRAM := Mapping(0x4000_0000, 0x4000_0000, Sdram)
  const UART := Mapping(0x0900_0000, 0x1000, Uart)
  const KMI := Mapping(0x0901_0000, 0x1000, Kmi)
  const PERF := Mapping(0x0902_0000, 0x1000, Perf)
  const RTC := Mapping(0x0903_0000, 0x1000, Rtc)
  const BLK := Mapping(0x0904_0000, 0x1000, Blk)
  const NET := Mapping(0x0905_0000, 0x1000, Net)
  const GIC := Mapping(0x0800_0000, 0x10_0000, Gic)
  const TIMER := Mapping(0x0A00_0000, 0x1000, TimerBlock)

  /** In the order in which they are mapped, which is the order in which they are searched. */
  const MAPPINGS: seq<Mapping> := [BOOT, FRAME, SDRAM, UART, KMI, PERF, RTC, BLK, NET, GIC, TIMER]

  /** The board: three RAMs, the dirty rows of the framebuffer, and the register devices. */
  datatype Board<D> = Board(boot: seq<u8>, frame: seq<u8>, sdram: seq<u8>, tracker: Tracker, devices: D)

  /** How the register devices answer. An access may touch the whole board: a device that does DMA, as the virtio
      devices do when they are notified, reads and stores RAM bytes of its own accord. */
  datatype Config<!D> = Config(
    read: (Board<D>, Dev, u64, u64) -> (Board<D>, u64),
    write: (Board<D>, Dev, u64, u64, u64) -> Board<D>)

  predicate BoardOk<D>(b: Board<D>) {
    |b.boot| == BOOT.size && |b.frame| == FRAME.size && |b.sdram| == SDRAM.size
  }

  /** The interrupt controller takes no notice of an access of no bytes. */
  ghost predicate IgnoresEmpty<D(!new)>(c: Config<D>) {
    && (forall b, off :: c.read(b, Gic, off, 0) == (b, 0))
    && forall b, off, v :: c.write(b, Gic, off, v, 0) == b
  }

  /** No device changes the size of a RAM. */
  ghost predicate KeepsSizes<D(!new)>(c: Config<D>) {
    && (forall b, d, off, size | BoardOk(b) :: BoardOk(c.read(b, d, off, size).0))
    && forall b, d, off, v, size | BoardOk(b) :: BoardOk(c.write(b, d, off, v, size))
  }

  ghost predicate Proper<D(!new)>(c: Config<D>) { IgnoresEmpty(c) && KeepsSizes(c) }

  /** An access ends with a value or with no device to take it. A RAM access whose end wraps around the address
      space is let through by the bound check and leaves the RAM's bytes: its effect is not defined. */
  datatype Result<D> = Done(board: Board<D>, value: u64) | NoDevice(board: Board<D>) | Undefined

  // ----- RAM -----

  predicate RamSize(size: u64) { size == 1 || size == 2 || size == 4 || size == 8 }

  function Load(bytes: seq<u8>, off: nat, size: u64): u64
    requires RamSize(size) && off + size <= |bytes|
  {
    FromLeBound(bytes[off..off + size]);
    Pow256Bound(size);
    FromLe(bytes[off..off + size])
  }

  lemma Pow256Bound(n: nat)
    requires n <= 8
    ensures Pow256(n) <= TWO64
  {
    assert Pow256(8) == TWO64;
    Pow256Mono(n, 8);
  }

  lemma {:induction false} Pow256Mono(a: nat, b: nat)
    requires a <= b
    ensures 1 <= Pow256(a) <= Pow256(b)
  {
    if a > 0 { Pow256Mono(a - 1, b - 1); }
    else if b > 0 { Pow256Mono(0, b - 1); }
  }

  function StoreBytes(bytes: seq<u8>, off: nat, value: u64, size: u64): (r: seq<u8>)
    requires RamSize(size) && off + size <= |bytes|
    ensures |r| == |bytes|
  {
    bytes[..off] + ToLe(value, size) + bytes[off + size..]
  }

  /** The RAM's own bound check, in 64-bit arithmetic. */
  predicate RamAccepts(length: u64, off: u64, size: u64) {
    RamSize(size) && (off + size) % TWO64 <= length
  }

  predicate IsRam(d: Dev) { d == BootRam || d == Framebuffer || d == Sdram }

  function RamOf<D>(b: Board<D>, d: Dev): seq<u8>
    requires IsRam(d)
  {
    match d case BootRam => b.boot case Framebuffer => b.frame case Sdram => b.sdram
  }

  function WithRam<D>(b: Board<D>, d: Dev, bytes: seq<u8>): Board<D>
    requires IsRam(d)
  {
    match d
    case BootRam => b.(boot := bytes)
    case Framebuffer => b.(frame := bytes)
    case Sdram => b.(sdram := bytes)
  }

  /** The framebuffer tells the dirty-row tracker about every write. */
  function Notified<D>(b: Board<D>, d: Dev, off: u64, size: u64): Board<D> {
    if d == Framebuffer then b.(tracker := Wrote(b.tracker, off, size)) else b
  }

  function DeviceRead<D>(c: Config<D>, b: Board<D>, d: Dev, off: u64, size: u64): Result<D> {
    if IsRam(d) then
      if |RamOf(b, d)| >= TWO64 || !RamAccepts(|RamOf(b, d)|, off, size) then Done(b, 0)
      else if off + size > |RamOf(b, d)| then Undefined
      else Done(b, Load(RamOf(b, d), off, size))
    else
      var (b', v) := c.read(b, d, off, size);
      Done(b', v)
  }

  function DeviceWrite<D>(c: Config<D>, b: Board<D>, d: Dev, off: u64, value: u64, size: u64): Result<D> {
    if IsRam(d) then
      if |RamOf(b, d)| >= TWO64 || !RamAccepts(|RamOf(b, d)|, off, size) then Done(b, 0)
      else if off + size > |RamOf(b, d)| then Undefined
      else Done(Notified(WithRam(b, d, StoreBytes(RamOf(b, d), off, value, size)), d, off, size), 0)
    else Done(c.write(b, d, off, value, size), 0)
  }

  // ----- linear search -----

  predicate Matches(m: Mapping, addr: u64, size: u64) {
    addr >= m.base && (addr + size) % TWO64 <= (m.base + m.size) % TWO64
  }

  function FindFrom(i: nat, addr: u64, size: u64): (r: Option<Mapping>)
    requires i <= |MAPPINGS|
    ensures r.Some? ==> r.value in MAPPINGS && r.value.base <= addr
    decreases |MAPPINGS| - i
  {
    if i == |MAPPINGS| then None
    else if Matches(MAPPINGS[i], addr, size) then Some(MAPPINGS[i])
    else FindFrom(i + 1, addr, size)
  }

  function Find(addr: u64, size: u64): (r: Option<Mapping>)
    ensures r.Some? ==> r.value in MAPPINGS && r.value.base <= addr
  {
    FindFrom(0, addr, size)
  }

  function LinearRead<D>(c: Config<D>, b: Board<D>, addr: u64, size: u64): Result<D> {
    match Find(addr, size)
    case None => NoDevice(b)
    case Some(m) => DeviceRead(c, b, m.dev, addr - m.base, size)
  }

  function LinearWrite<D>(c: Config<D>, b: Board<D>, addr: u64, value: u64, size: u64): Result<D> {
    match Find(addr, size)
    case None => NoDevice(b)
    case Some(m) => DeviceWrite(c, b, m.dev, addr - m.base, value, size)
  }

  // ----- the hard-coded route -----

  /** The fast path's own test for a region; the subtraction keeps it free of wrap-around. */
  predicate Inside(m: Mapping, addr: u64, size: u64) {
    m.base <= addr < m.base + m.size && size <= m.size - (addr - m.base)
  }

  predicate Starts(m: Mapping, addr: u64) { m.base <= addr < m.base + m.size }

  /** The RAM an address belongs to, in the order of the fast reader. */
  function FastRam(addr: u64, size: u64): Option<Mapping> {
    if Starts(SDRAM, addr) then (if Inside(SDRAM, addr, size) then Some(SDRAM) else None)
    else if Starts(BOOT, addr) then (if Inside(BOOT, addr, size) then Some(BOOT) else None)
    else if Starts(FRAME, addr) then (if Inside(FRAME, addr, size) then Some(FRAME) else None)
    else None
  }

  /** The same in the order of the fast writer. */
  function FastMutRam(addr: u64, size: u64): Option<Mapping> {
    if Starts(BOOT, addr) then (if Inside(BOOT, addr, size) then Some(BOOT) else None)
    else if Starts(SDRAM, addr) then (if Inside(SDRAM, addr, size) then Some(SDRAM) else None)
    else if Starts(FRAME, addr) then (if Inside(FRAME, addr, size) then Some(FRAME) else None)
    else None
  }

  /** The register device the fast path would use. */
  function FastDevice(addr: u64, size: u64): Option<Mapping> {
    if Inside(UART, addr, size) then Some(UART)
    else if Inside(PERF, addr, size) then Some(PERF)
    else if Inside(BLK, addr, size) then Some(BLK)
    else if Inside(NET, addr, size) then Some(NET)
    else if Inside(GIC, addr, size) then Some(GIC)
    else if Inside(TIMER, addr, size) then Some(TIMER)
    else None
  }

  function FastRead<D>(c: Config<D>, b: Board<D>, addr: u64, size: u64): Option<Result<D>>
    requires BoardOk(b)
  {
    var ram := FastRam(addr, size);
    if ram.Some? && RamSize(size) then
      Some(Done(b, Load(RamOf(b, ram.value.dev), addr - ram.value.base, size)))
    else
      match FastDevice(addr, size)
      case None => None
      case Some(m) =>
        var (b', v) := c.read(b, m.dev, addr - m.base, size);
        Some(Done(b', v))
  }

  function FastWriteRam<D>(b: Board<D>, addr: u64, value: u64, size: u64): Option<Board<D>>
    requires BoardOk(b)
  {
    if Inside(FRAME, addr, size) then
      if !RamSize(size) then None
      else
        var off := addr - FRAME.base;
        Some(b.(frame := StoreBytes(b.frame, off, value, size), tracker := Wrote(b.tracker, off, size)))
    else
      match FastMutRam(addr, size)
      case None => None
      case Some(m) =>
        if !RamSize(size) then None
        else Some(WithRam(b, m.dev, StoreBytes(RamOf(b, m.dev), addr - m.base, value, size)))
  }

  function FastWrite<D>(c: Config<D>, b: Board<D>, addr: u64, value: u64, size: u64): Option<Result<D>>
    requires BoardOk(b)
  {
    match FastWriteRam(b, addr, value, size)
    case Some(b') => Some(Done(b', 0))
    case None =>
      match FastDevice(addr, size)
      case None => None
      case Some(m) => Some(Done(c.write(b, m.dev, addr - m.base, value, size), 0))
  }

  /** The bus with the fast path in front of the search. */
  function BusRead<D>(c: Config<D>, b: Board<D>, addr: u64, size: u64): Result<D>
    requires BoardOk(b)
  {
    match FastRead(c, b, addr, size)
    case Some(r) => r
    case None => LinearRead(c, b, addr, size)
  }

  function BusWrite<D>(c: Config<D>, b: Board<D>, addr: u64, value: u64, size: u64): Result<D>
    requires BoardOk(b)
  {
    match FastWrite(c, b, addr, value, size)
    case Some(r) => r
    case None => LinearWrite(c, b, addr, value, size)
  }

  // ----- direct access to RAM bytes -----

  /** A place in one of the RAMs. */
  datatype Place = Place(dev: Dev, off: u64)

  function LinearRamPtr(addr: u64, size: u64): Option<Place> {
    match Find(addr, size)
    case None => None
    case Some(m) =>
      if IsRam(m.dev) && (addr - m.base + size) % TWO64 <= m.size then Some(Place(m.dev, addr - m.base)) else None
  }

  function BusRamPtr(addr: u64, size: u64): Option<Place> {
    match FastRam(addr, size)
    case Some(m) => Some(Place(m.dev, addr - m.base))
    case None => LinearRamPtr(addr, size)
  }

  function BusMutRamPtr(addr: u64, size: u64): Option<Place> {
    match FastMutRam(addr, size)
    case Some(m) => Some(Place(m.dev, addr - m.base))
    case None => LinearRamPtr(addr, size)
  }
}
