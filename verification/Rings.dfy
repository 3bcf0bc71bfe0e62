/** The available and used rings of a split virtqueue. */
module Rings {
  import opened Words
  import opened GuestMemory
  import opened Virtqueue

  predicate Operational(q: Queue) {
    q.ready && q.num != 0 && q.desc != 0 && q.avail != 0 && q.used != 0
  }

  function AvailIdx(m: Mem, q: Queue): Option<u16> { ReadU16(m, Offset(q.avail, 2)) }

  /** Slot of a 16-bit ring index. */
  function Slot(index: u16, num: u32): nat
    requires num > 0
  {
    index % num
  }

  function HeadAt(m: Mem, q: Queue, index: u16): Option<u16>
    requires q.num > 0
  {
    ReadU16(m, Offset(q.avail, 4 + 2 * Slot(index, q.num)))
  }

  function UsedElemAddr(q: Queue, index: u16): u64
    requires q.num > 0
  {
    Offset(q.used, 4 + 8 * Slot(index, q.num))
  }

  function Next(index: u16): u16 { (index + 1) % TWO16 }

  function After(index: u16, n: nat): u16 { (index + n) % TWO16 }

  /** How many entries the driver has made available and the device has not taken. */
  function Waiting(avail: u16, last: u16): u16 { (avail - last) % TWO16 }

  function Advance(q: Queue): Queue { q.(lastAvail := Next(q.lastAvail), usedIdx := Next(q.usedIdx)) }

  /** What became of handing a buffer back: the element not written, written but the index not, or all done. */
  datatype Handed = Refused(mem: Mem) | Unannounced(mem: Mem) | Completed(mem: Mem)

  function WriteUsed(m: Mem, q: Queue, head: u16, len: u32): (r: (Mem, bool))
    requires q.num > 0
  {
    match WriteWord(m, UsedElemAddr(q, q.usedIdx), head, 4)
    case None => (m, false)
    case Some(m1) =>
      match WriteWord(m1, Offset(UsedElemAddr(q, q.usedIdx), 4), len, 4)
      case None => (m1, false)
      case Some(m2) => (m2, true)
  }

  function HandBack(m: Mem, q: Queue, head: u16, len: u32): Handed
    requires q.num > 0
  {
    var (m1, ok) := WriteUsed(m, q, head, len);
    if !ok then Refused(m1)
    else
      match WriteWord(m1, Offset(q.used, 2), Next(q.usedIdx), 2)
      case None => Unannounced(m1)
      case Some(m2) => Completed(m2)
  }

  // ----- ring layout -----

  function AvailSize(q: Queue): nat { 4 + 2 * q.num }

  function UsedSize(q: Queue): nat { 4 + 8 * q.num }

  function TableSize(q: Queue): nat { DESC_SIZE * q.num }

  /** Both rings lie in RAM; the used ring, which the device writes, overlaps neither the other ring nor the table. */
  ghost predicate WellPlaced(m: Mem, q: Queue) {
    && q.num > 0
    && InRam(m, q.avail, AvailSize(q)) && InRam(m, q.used, UsedSize(q))
    && q.desc + TableSize(q) <= TWO64
    && Disjoint(q.used, UsedSize(q), q.avail, AvailSize(q))
    && Disjoint(q.used, UsedSize(q), q.desc, TableSize(q))
  }

  lemma SlotBound(index: u16, num: u32)
    requires num > 0
    ensures 0 <= Slot(index, num) < num
  {
  }

  lemma InsideRing(m: Mem, base: u64, size: nat, off: nat, n: nat)
    requires InRam(m, base, size) && off + n <= size && n > 0
    ensures Offset(base, off) == base + off && InRam(m, base + off, n)
  {
    ReadPart(m, base, size, off, n);
    var r :| r in m.regions && r.base <= base && base + size <= r.base + r.size;
  }

  lemma HeadReadable(m: Mem, q: Queue, index: u16)
    requires q.num > 0 && InRam(m, q.avail, AvailSize(q))
    ensures HeadAt(m, q, index).Some? && AvailIdx(m, q).Some?
  {
    SlotBound(index, q.num);
    InsideRing(m, q.avail, AvailSize(q), 4 + 2 * Slot(index, q.num), 2);
    InsideRing(m, q.avail, AvailSize(q), 2, 2);
  }

  lemma PartAgrees(m: Mem, m': Mem, b: nat, k: nat, off: nat, n: nat)
    requires InRam(m, b, k) && AgreeOn(m, m', b, k) && off + n <= k
    ensures AgreeOn(m, m', b + off, n)
  {
    assert InRam(m', b, k);
    ReadPart(m, b, k, off, n);
    ReadPart(m', b, k, off, n);
  }

  /** Heads are read from the available ring alone. */
  lemma HeadsAgree(m: Mem, m': Mem, q: Queue, index: u16)
    requires q.num > 0 && InRam(m, q.avail, AvailSize(q)) && AgreeOn(m, m', q.avail, AvailSize(q))
    ensures HeadAt(m, q, index) == HeadAt(m', q, index) && AvailIdx(m, q) == AvailIdx(m', q)
  {
    SlotBound(index, q.num);
    InsideRing(m, q.avail, AvailSize(q), 4 + 2 * Slot(index, q.num), 2);
    InsideRing(m, q.avail, AvailSize(q), 2, 2);
    PartAgrees(m, m', q.avail, AvailSize(q), 4 + 2 * Slot(index, q.num), 2);
    PartAgrees(m, m', q.avail, AvailSize(q), 2, 2);
  }

  // ----- what the driver reads back -----

  function UsedIdx(m: Mem, q: Queue): Option<nat> { ReadWord(m, Offset(q.used, 2), 2) }

  function UsedId(m: Mem, q: Queue, index: u16): Option<nat>
    requires q.num > 0
  {
    ReadWord(m, UsedElemAddr(q, index), 4)
  }

  function UsedLen(m: Mem, q: Queue, index: u16): Option<nat>
    requires q.num > 0
  {
    ReadWord(m, Offset(UsedElemAddr(q, index), 4), 4)
  }

  lemma WriteThenReadWord(m: Mem, addr: nat, v: nat, n: nat, b: nat, k: nat)
    requires InRam(m, addr, n) && v < Pow256(n)
    ensures ReadWord(WriteWord(m, addr, v, n).value, addr, n) == Some(v)
    ensures Disjoint(addr, n, b, k) ==> AgreeOn(m, WriteWord(m, addr, v, n).value, b, k)
  {
    ReadAfterStore(m, addr, ToLe(v, n), b, k);
    LeRoundTrip(v, n);
  }

  lemma UsedAddrs(m: Mem, q: Queue, index: u16)
    requires q.num > 0 && InRam(m, q.used, UsedSize(q))
    ensures UsedElemAddr(q, index) == q.used + 4 + 8 * Slot(index, q.num)
    ensures Offset(UsedElemAddr(q, index), 4) == q.used + 4 + 8 * Slot(index, q.num) + 4
    ensures Offset(q.used, 2) == q.used + 2
    ensures InRam(m, UsedElemAddr(q, index), 4) && InRam(m, Offset(UsedElemAddr(q, index), 4), 4)
    ensures InRam(m, q.used + 2, 2)
  {
    var s := 4 + 8 * Slot(index, q.num);
    SlotBound(index, q.num);
    InsideRing(m, q.used, UsedSize(q), s, 4);
    InsideRing(m, q.used, UsedSize(q), s + 4, 4);
    InsideRing(m, q.used, UsedSize(q), 2, 2);
  }

  lemma Pow256s()
    ensures Pow256(2) == TWO16 && Pow256(4) == TWO32
  {
    assert Pow256(1) == 256 * Pow256(0);
    assert Pow256(3) == 256 * Pow256(2);
  }

  lemma WriteUsedWorks(m: Mem, q: Queue, head: u16, len: u32, b: nat, k: nat)
    requires q.num > 0 && InRam(m, q.used, UsedSize(q))
    ensures WriteUsed(m, q, head, len).1
    ensures var m' := WriteUsed(m, q, head, len).0;
      && m'.regions == m.regions
      && UsedId(m', q, q.usedIdx) == Some(head as nat) && UsedLen(m', q, q.usedIdx) == Some(len as nat)
      && (Disjoint(q.used + 4 + 8 * Slot(q.usedIdx, q.num), 8, b, k) ==> AgreeOn(m, m', b, k))
  {
    UsedAddrs(m, q, q.usedIdx);
    Pow256s();
    var a := UsedElemAddr(q, q.usedIdx);
    WriteThenReadWord(m, a, head, 4, b, k);
    var m1 := WriteWord(m, a, head, 4).value;
    assert InRam(m1, a + 4, 4);
    WriteThenReadWord(m1, a + 4, len, 4, a, 4);
    WriteThenReadWord(m1, a + 4, len, 4, b, k);
  }

  /** Handing back succeeds, shows the buffer in its slot and the new index, and writes nothing else. */
  lemma HandBackWorks(m: Mem, q: Queue, head: u16, len: u32)
    requires q.num > 0 && InRam(m, q.used, UsedSize(q))
    ensures HandBack(m, q, head, len).Completed?
    ensures var m' := HandBack(m, q, head, len).mem;
      && m'.regions == m.regions
      && UsedIdx(m', q) == Some(Next(q.usedIdx) as nat)
      && UsedId(m', q, q.usedIdx) == Some(head as nat) && UsedLen(m', q, q.usedIdx) == Some(len as nat)
  {
    UsedAddrs(m, q, q.usedIdx);
    Pow256s();
    var a := UsedElemAddr(q, q.usedIdx);
    WriteUsedWorks(m, q, head, len, q.used + 2, 2);
    var m1 := WriteUsed(m, q, head, len).0;
    assert InRam(m1, q.used + 2, 2);
    WriteThenReadWord(m1, q.used + 2, Next(q.usedIdx), 2, a, 4);
    WriteThenReadWord(m1, q.used + 2, Next(q.usedIdx), 2, a + 4, 4);
  }

  lemma HandBackKeeps(m: Mem, q: Queue, head: u16, len: u32, b: nat, k: nat)
    requires q.num > 0 && InRam(m, q.used, UsedSize(q))
    requires Disjoint(q.used + 4 + 8 * Slot(q.usedIdx, q.num), 8, b, k) && Disjoint(q.used + 2, 2, b, k)
    ensures AgreeOn(m, HandBack(m, q, head, len).mem, b, k)
  {
    UsedAddrs(m, q, q.usedIdx);
    Pow256s();
    WriteUsedWorks(m, q, head, len, b, k);
    var m1 := WriteUsed(m, q, head, len).0;
    assert InRam(m1, q.used + 2, 2);
    WriteThenReadWord(m1, q.used + 2, Next(q.usedIdx), 2, b, k);
  }

  /** Another slot keeps its element. */
  lemma HandBackKeepsOtherSlots(m: Mem, q: Queue, head: u16, len: u32, index: u16)
    requires q.num > 0 && InRam(m, q.used, UsedSize(q)) && Slot(index, q.num) != Slot(q.usedIdx, q.num)
    ensures var m' := HandBack(m, q, head, len).mem;
      UsedId(m', q, index) == UsedId(m, q, index) && UsedLen(m', q, index) == UsedLen(m, q, index)
  {
    hide HandBack, Slot, InRam, ReadGuest, UsedElemAddr;
    UsedAddrs(m, q, index);
    SlotBound(index, q.num);
    SlotBound(q.usedIdx, q.num);
    var a := UsedElemAddr(q, index);
    HandBackKeeps(m, q, head, len, a, 4);
    HandBackKeeps(m, q, head, len, a + 4, 4);
  }

  // ----- what the device may leave alone -----

  predicate SameLayout(q: Queue, q': Queue) {
    q'.num == q.num && q'.desc == q.desc && q'.avail == q.avail && q'.used == q.used
  }

  /** The available ring and every descriptor read the same in both memories. */
  ghost predicate SameRings(m: Mem, m': Mem, q: Queue) {
    && m'.regions == m.regions
    && AgreeOn(m, m', q.avail, AvailSize(q))
    && forall i: u16 | i < q.num :: ReadDescriptor(m, q, i) == ReadDescriptor(m', q, i)
  }

  lemma DescriptorRange(q: Queue, i: u16)
    requires i < q.num && q.desc + TableSize(q) <= TWO64
    ensures DescAddr(q, i) == q.desc + DESC_SIZE * i
    ensures q.desc <= DescAddr(q, i) && DescAddr(q, i) + DESC_SIZE <= q.desc + TableSize(q)
  {
  }

  lemma HandBackKeepsRings(m: Mem, q: Queue, head: u16, len: u32)
    requires WellPlaced(m, q)
    ensures SameRings(m, HandBack(m, q, head, len).mem, q)
  {
    HandBackWorks(m, q, head, len);
    SlotBound(q.usedIdx, q.num);
    HandBackKeeps(m, q, head, len, q.avail, AvailSize(q));
    forall i: u16 | i < q.num
      ensures ReadDescriptor(m, q, i) == ReadDescriptor(HandBack(m, q, head, len).mem, q, i)
    {
      DescriptorRange(q, i);
      HandBackKeeps(m, q, head, len, DescAddr(q, i), DESC_SIZE);
    }
  }

  lemma SameRingsTrans(m: Mem, m1: Mem, m2: Mem, q: Queue)
    requires SameRings(m, m1, q) && SameRings(m1, m2, q)
    ensures SameRings(m, m2, q)
  {
  }

  lemma UsedReadsAgree(m: Mem, m': Mem, q: Queue, index: u16)
    requires q.num > 0 && InRam(m, q.used, UsedSize(q)) && AgreeOn(m, m', q.used, UsedSize(q))
    ensures UsedId(m, q, index) == UsedId(m', q, index) && UsedLen(m, q, index) == UsedLen(m', q, index)
  {
    UsedAddrs(m, q, index);
    SlotBound(index, q.num);
    var off := 4 + 8 * Slot(index, q.num);
    PartAgrees(m, m', q.used, UsedSize(q), off, 4);
    PartAgrees(m, m', q.used, UsedSize(q), off + 4, 4);
  }

  // ----- slots across the 16-bit wrap -----

  /** The slot after index i is the cyclic successor of the slot of i. */
  ghost predicate SlotsConsecutive(num: u32)
    requires num > 0
  {
    forall i: u16 :: Slot(Next(i), num) == (Slot(i, num) + 1) % num
  }

  /** Slots stay consecutive where the index wraps exactly when the size divides 65536, as powers of two do. */
  lemma SlotsConsecutiveIff(num: u32)
    requires 0 < num <= QUEUE_SIZE
    ensures SlotsConsecutive(num) <==> TWO16 % num == 0
  {
    hide Slot, Next;
    NextSlot(65535, num);
    if SlotsConsecutive(num) {
      assert Slot(Next(65535), num) == (Slot(65535, num) + 1) % num;
    }
    if TWO16 % num == 0 {
      forall i: u16 ensures Slot(Next(i), num) == (Slot(i, num) + 1) % num {
        NextSlot(i, num);
      }
    }
  }

  lemma NextSlot(i: u16, num: u32)
    requires 0 < num
    ensures (Slot(i, num) + 1) % num == (i + 1) % num
    ensures Slot(Next(i), num) == if i == 65535 then 0 else (i + 1) % num
  {
    ModAdd(i, 1, num);
  }

  lemma {:induction false} SlotAfter(index: u16, k: nat, num: u32)
    requires 0 < num && SlotsConsecutive(num)
    ensures Slot(After(index, k), num) == (Slot(index, num) + k) % num
  {
    hide Slot, After, Next;
    var here := Slot(index, num);
    SlotBound(index, num);
    AfterZero(index);
    if k == 0 {
      SmallMod(here, num);
    } else {
      var before := After(index, k - 1);
      SlotAfter(index, k - 1, num);
      AfterNext(index, k - 1);
      StepMod(here, k - 1, num);
      assert Slot(Next(before), num) == (Slot(before, num) + 1) % num;
    }
  }

  lemma SmallMod(a: nat, m: nat)
    requires a < m
    ensures (a + 0) % m == a
  {
  }

  lemma StepMod(a: nat, k: nat, m: nat)
    requires m > 0
    ensures ((a + k) % m + 1) % m == (a + (k + 1)) % m
  {
    ModAdd(a + k, 1, m);
  }

  lemma WaitingNone(avail: u16, last: u16)
    ensures Waiting(avail, last) == 0 <==> avail == last
  {
  }

  lemma WaitingShrinks(avail: u16, last: u16)
    requires avail != last
    ensures Waiting(avail, Next(last)) == Waiting(avail, last) - 1
  {
  }

  lemma ShiftedApart(a: nat, k: nat, j: nat, m: nat)
    requires k < j < m
    ensures (a + k) % m != (a + j) % m
  {
    var x, y := (a + k) / m, (a + j) / m;
    if (a + k) % m == (a + j) % m {
      assert (y - x) * m == j - k;
      if y - x >= 1 { MulAtLeast(y - x, m); } else { MulMono(y - x, 0, m); }
    }
  }

  lemma AfterZero(index: u16)
    ensures After(index, 0) == index
    ensures After(index, 1) == Next(index)
  {
  }

  lemma AfterNext(index: u16, k: nat)
    ensures Next(After(index, k)) == After(index, k + 1)
    ensures After(Next(index), k) == After(index, k + 1)
  {
    ModAdd(index + k, 1, TWO16);
    ModAdd(index + 1, k, TWO16);
  }

  // ----- the interrupt of a queue -----

  const INT_VRING: bv32 := 1

  predicate VringUp(i: bv32) { i & INT_VRING != 0 }

  function WithVring(i: bv32): bv32 { i | INT_VRING }

  function WithoutVring(i: bv32): bv32 { i & 0xFFFF_FFFE }

  lemma VringRises(i: bv32)
    ensures VringUp(WithVring(i)) && WithoutVring(WithVring(i)) == WithoutVring(i)
  {
    BitRises(i);
  }

  lemma BitRises(i: bv32)
    ensures (i | 1) & 1 == 1 && (i | 1) & 0xFFFF_FFFE == i & 0xFFFF_FFFE
  {
  }
}
