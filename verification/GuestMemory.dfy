/** Guest memory as the devices see it: bytes at physical addresses, reachable only inside one RAM region. */
module GuestMemory {
  import opened Words

  datatype Region = Region(base: nat, size: nat)

  /** The byte at address a is bytes[a]; only addresses inside a region can be reached. */
  datatype Memory = Memory(regions: seq<Region>, bytes: seq<u8>)

  predicate MemWf(m: Memory) {
    && |m.bytes| <= TWO64
    && forall r | r in m.regions :: r.base + r.size <= |m.bytes|
  }

  type Mem = m: Memory | MemWf(m) witness Memory([], [])

  /** An access must lie inside a single region; nothing at all is needed for no bytes. */
  predicate InRam(m: Mem, addr: nat, size: nat) {
    size == 0 || exists r | r in m.regions :: r.base <= addr && addr + size <= r.base + r.size
  }

  function ReadGuest(m: Mem, addr: nat, size: nat): (r: Option<seq<u8>>)
    ensures r.Some? <==> InRam(m, addr, size)
    ensures r.Some? ==> |r.value| == size
  {
    if size == 0 then Some([])
    else if InRam(m, addr, size) then Some(m.bytes[addr..addr + size])
    else None
  }

  /** The memory after storing data at addr. */
  function Store(m: Mem, addr: nat, data: seq<u8>): (m': Mem)
    requires InRam(m, addr, |data|)
    ensures m'.regions == m.regions && |m'.bytes| == |m.bytes|
  {
    if data == [] then m
    else m.(bytes := m.bytes[..addr] + data + m.bytes[addr + |data|..])
  }

  function WriteGuest(m: Mem, addr: nat, data: seq<u8>): (r: Option<Mem>)
    ensures r.Some? <==> InRam(m, addr, |data|)
    ensures r.Some? ==> r.value.regions == m.regions && |r.value.bytes| == |m.bytes|
  {
    if InRam(m, addr, |data|) then Some(Store(m, addr, data)) else None
  }

  // ----- little-endian words -----

  function FromLe(bs: seq<u8>): nat {
    if bs == [] then 0 else bs[0] + 256 * FromLe(bs[1..])
  }

  function ToLe(v: nat, n: nat): (bs: seq<u8>)
    ensures |bs| == n
  {
    if n == 0 then [] else [v % 256] + ToLe(v / 256, n - 1)
  }

  function Pow256(n: nat): (p: nat)
    ensures p > 0
  {
    if n == 0 then 1 else 256 * Pow256(n - 1)
  }

  /** Encoding then decoding gives the value back, reduced to the width. */
  lemma {:induction false} LeRoundTrip(v: nat, n: nat)
    requires v < Pow256(n)
    ensures FromLe(ToLe(v, n)) == v
  {
    if n > 0 {
      LeRoundTrip(v / 256, n - 1);
      assert ToLe(v, n)[1..] == ToLe(v / 256, n - 1);
    }
  }

  /** The lowest byte comes first. */
  lemma {:induction false} LowestFirst(v: nat, n: nat, k: nat)
    requires k < n
    ensures ToLe(v, n)[k] == v / Pow256(k) % 256
  {
    if k > 0 {
      LowestFirst(v / 256, n - 1, k - 1);
      DivTwice(v, Pow256(k - 1));
    }
  }

  lemma DivTwice(a: nat, p: nat)
    requires p > 0
    ensures a / (256 * p) == a / 256 / p && a % (256 * p) == 256 * (a / 256 % p) + a % 256
  {
    var q, r := a / 256, a % 256;
    var s, t := q / p, q % p;
    var sp := s * p;
    assert s * (256 * p) == 256 * sp;
    QuotientUnique(a, 256 * p, s, 256 * t + r);
  }

  lemma {:induction false} FromLeBound(bs: seq<u8>)
    ensures FromLe(bs) < Pow256(|bs|)
  {
    if bs != [] { FromLeBound(bs[1..]); }
  }

  /** Address arithmetic wraps at 64 bits. */
  function Offset(base: u64, off: nat): u64 { (base + off) % TWO64 }

  function ReadWord(m: Mem, addr: nat, n: nat): (r: Option<nat>)
    ensures r.Some? <==> InRam(m, addr, n)
    ensures r.Some? ==> r.value < Pow256(n)
  {
    match ReadGuest(m, addr, n)
    case None => None
    case Some(bs) => FromLeBound(bs); Some(FromLe(bs))
  }

  function ReadU16(m: Mem, addr: nat): (r: Option<u16>)
    ensures r.Some? <==> InRam(m, addr, 2)
  {
    ReadWord(m, addr, 2)
  }

  function WriteWord(m: Mem, addr: nat, v: nat, n: nat): (r: Option<Mem>)
    ensures r.Some? <==> InRam(m, addr, n)
    ensures r.Some? ==> r.value.regions == m.regions && |r.value.bytes| == |m.bytes|
  {
    WriteGuest(m, addr, ToLe(v, n))
  }

  // ----- reading after writing -----

  predicate Disjoint(a: nat, n: nat, b: nat, k: nat) {
    n == 0 || k == 0 || a + n <= b || b + k <= a
  }

  /** What was written is read back; what lies elsewhere is untouched. */
  lemma ReadAfterStore(m: Mem, addr: nat, data: seq<u8>, b: nat, k: nat)
    requires InRam(m, addr, |data|)
    ensures ReadGuest(Store(m, addr, data), addr, |data|) == Some(data)
    ensures Disjoint(addr, |data|, b, k) ==> ReadGuest(Store(m, addr, data), b, k) == ReadGuest(m, b, k)
    ensures InRam(Store(m, addr, data), b, k) == InRam(m, b, k)
  {
    var m' := Store(m, addr, data);
    if InRam(m, b, k) && k > 0 && Disjoint(addr, |data|, b, k) {
      assert m'.bytes[b..b + k] == m.bytes[b..b + k];
    }
    if data != [] { assert m'.bytes[addr..addr + |data|] == data; }
  }

  /** Two memories agree on a range. */
  ghost predicate AgreeOn(m: Mem, m': Mem, b: nat, k: nat)
    requires MemWf(m')
  {
    ReadGuest(m, b, k) == ReadGuest(m', b, k)
  }

  /** A part of a readable range reads as the part of what the range reads. */
  lemma ReadPart(m: Mem, b: nat, k: nat, off: nat, n: nat)
    requires InRam(m, b, k) && off + n <= k
    ensures InRam(m, b + off, n) && ReadGuest(m, b + off, n) == Some(ReadGuest(m, b, k).value[off..off + n])
  {
    if n > 0 {
      var r :| r in m.regions && r.base <= b && b + k <= r.base + r.size;
      assert r.base <= b + off && b + off + n <= r.base + r.size;
      assert m.bytes[b..b + k][off..off + n] == m.bytes[b + off..b + off + n];
    } else {
      assert ReadGuest(m, b, k).value[off..off + n] == [];
    }
  }
}
