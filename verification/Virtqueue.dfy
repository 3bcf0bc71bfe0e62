/** Split virtqueues: descriptor tables, the chain walk with its hop bound, and the two rings. */
module Virtqueue {
  import opened Words
  import opened GuestMemory

  const QUEUE_SIZE := 128
  const DESC_SIZE := 16

  datatype Queue = Queue(num: u32, ready: bool, desc: u64, avail: u64, used: u64, lastAvail: u16, usedIdx: u16)

  const RESET_QUEUE := Queue(0, false, 0, 0, 0, 0, 0)

  datatype Descriptor = Descriptor(addr: u64, len: u32, flags: u16, next: u16) {
    predicate HasNext() { flags % 2 == 1 }
    predicate Writable() { flags / 2 % 2 == 1 }
    predicate Indirect() { flags / 4 % 2 == 1 }
  }

  datatype Segment = Segment(addr: u64, len: u32, writable: bool)

  function SegmentOf(d: Descriptor): Segment { Segment(d.addr, d.len, d.Writable()) }

  function DecodeDescriptor(bs: seq<u8>): Descriptor
    requires |bs| == DESC_SIZE
  {
    FromLeBound(bs[0..8]);
    FromLeBound(bs[8..12]);
    FromLeBound(bs[12..14]);
    FromLeBound(bs[14..16]);
    Descriptor(FromLe(bs[0..8]), FromLe(bs[8..12]), FromLe(bs[12..14]), FromLe(bs[14..16]))
  }

  function DescAddr(q: Queue, index: u16): u64 { Offset(q.desc, index * DESC_SIZE) }

  function ReadDescriptor(m: Mem, q: Queue, index: u16): (d: Option<Descriptor>)
    ensures d.Some? ==> index < q.num
  {
    if index >= q.num then None
    else
      match ReadGuest(m, DescAddr(q, index), DESC_SIZE)
      case None => None
      case Some(bs) => Some(DecodeDescriptor(bs))
  }

  /** The chain starting at an index, given up after the stated number of hops. */
  function Walk(m: Mem, q: Queue, index: u16, hops: nat): (r: Option<seq<Segment>>)
    ensures r.Some? ==> |r.value| > 0
    decreases hops
  {
    if hops == 0 then None
    else
      match ReadDescriptor(m, q, index)
      case None => None
      case Some(d) =>
        if d.Indirect() then None
        else if !d.HasNext() then Some([SegmentOf(d)])
        else Prepend([SegmentOf(d)], Walk(m, q, d.next, hops - 1))
  }

  function Prepend(front: seq<Segment>, rest: Option<seq<Segment>>): Option<seq<Segment>> {
    match rest
    case None => None
    case Some(s) => Some(front + s)
  }

  function Chain(m: Mem, q: Queue, head: u16): Option<seq<Segment>> { Walk(m, q, head, q.num) }

  method CollectChain(m: Mem, q: Queue, head: u16) returns (r: Option<seq<Segment>>)
    ensures r == Chain(m, q, head)
  {
    hide ReadDescriptor;
    var segments := [];
    var index := head;
    var hops := 0;
    assert forall s: seq<Segment> :: [] + s == s;
    while true
      invariant hops <= q.num
      invariant Chain(m, q, head) == Prepend(segments, Walk(m, q, index, q.num - hops))
      decreases q.num - hops
    {
      hops := hops + 1;
      if hops > q.num { return None; }
      var read := ReadDescriptor(m, q, index);
      if read.None? || read.value.Indirect() { return None; }
      var d := read.value;
      assert forall rest: seq<Segment> :: segments + ([SegmentOf(d)] + rest) == segments + [SegmentOf(d)] + rest;
      segments := segments + [SegmentOf(d)];
      if !d.HasNext() { return Some(segments); }
      index := d.next;
    }
  }

  // ----- what a chain is, with no bound -----

  predicate Usable(m: Mem, q: Queue, index: u16) {
    var d := ReadDescriptor(m, q, index);
    d.Some? && !d.value.Indirect()
  }

  function DescriptorAt(m: Mem, q: Queue, index: u16): Descriptor
    requires Usable(m, q, index)
  {
    ReadDescriptor(m, q, index).value
  }

  predicate LinksTo(m: Mem, q: Queue, a: u16, b: u16) {
    Usable(m, q, a) && var d := DescriptorAt(m, q, a); d.HasNext() && d.next == b
  }

  predicate Ends(m: Mem, q: Queue, a: u16) {
    Usable(m, q, a) && !DescriptorAt(m, q, a).HasNext()
  }

  /** Indices each of which links to the following one. */
  ghost predicate IsTrail(m: Mem, q: Queue, t: seq<u16>) {
    |t| > 0 && forall i, j | 0 <= i && j == i + 1 && j < |t| :: LinksTo(m, q, t[i], t[j])
  }

  /** A trail that ends at a descriptor with no successor. */
  ghost predicate IsPath(m: Mem, q: Queue, t: seq<u16>) {
    IsTrail(m, q, t) && Ends(m, q, t[|t| - 1])
  }

  ghost function SegmentsAlong(m: Mem, q: Queue, t: seq<u16>): (s: seq<Segment>)
    requires forall i | 0 <= i < |t| :: Usable(m, q, t[i])
    decreases |t|
    ensures |s| == |t|
    ensures forall i | 0 <= i < |t| :: s[i] == SegmentOf(DescriptorAt(m, q, t[i]))
  {
    if t == [] then [] else [SegmentOf(DescriptorAt(m, q, t[0]))] + SegmentsAlong(m, q, t[1..])
  }

  ghost predicate Distinct(t: seq<u16>) {
    forall i, j | 0 <= i < j < |t| :: t[i] != t[j]
  }

  lemma PathUsable(m: Mem, q: Queue, t: seq<u16>)
    requires IsPath(m, q, t)
    ensures forall i | 0 <= i < |t| :: Usable(m, q, t[i])
  {
    forall i | 0 <= i < |t| ensures Usable(m, q, t[i]) {
      if i + 1 < |t| { assert LinksTo(m, q, t[i], t[i + 1]); }
    }
  }

  lemma TrailTail(m: Mem, q: Queue, t: seq<u16>, k: nat)
    requires IsTrail(m, q, t) && k < |t|
    ensures IsTrail(m, q, t[k..])
  {
    var u := t[k..];
    forall i, j | 0 <= i && j == i + 1 && j < |u| ensures LinksTo(m, q, u[i], u[j]) {
      assert u[i] == t[k + i] && u[j] == t[k + j];
    }
  }

  /** Links leave no choice: trails from one index agree as far as both go. */
  lemma {:induction false} TrailsAgree(m: Mem, q: Queue, a: seq<u16>, b: seq<u16>)
    requires IsTrail(m, q, a) && IsTrail(m, q, b) && a[0] == b[0] && |a| <= |b|
    ensures a == b[..|a|]
    decreases |a|
  {
    if |a| > 1 {
      assert LinksTo(m, q, a[0], a[1]) && LinksTo(m, q, b[0], b[1]);
      TrailTail(m, q, a, 1);
      TrailTail(m, q, b, 1);
      TrailsAgree(m, q, a[1..], b[1..]);
      assert a == [a[0]] + a[1..] && b[..|a|] == [b[0]] + b[1..][..|a| - 1];
    }
  }

  /** No trail goes past the end of a path. */
  lemma {:induction false} PathIsLongest(m: Mem, q: Queue, p: seq<u16>, t: seq<u16>)
    requires IsPath(m, q, p) && IsTrail(m, q, t) && p[0] == t[0]
    ensures |t| <= |p|
    decreases |t|
  {
    if |t| > 1 {
      assert LinksTo(m, q, t[0], t[1]);
      assert |p| > 1;
      assert LinksTo(m, q, p[0], p[1]);
      TrailTail(m, q, p, 1);
      TrailTail(m, q, t, 1);
      PathIsLongest(m, q, p[1..], t[1..]);
    }
  }

  lemma PathDistinct(m: Mem, q: Queue, p: seq<u16>)
    requires IsPath(m, q, p)
    ensures Distinct(p)
  {
    forall i, j | 0 <= i < j < |p| ensures p[i] != p[j] {
      if p[i] == p[j] {
        TrailTail(m, q, p, i);
        TrailTail(m, q, p, j);
        PathIsLongest(m, q, p[j..], p[i..]);
      }
    }
  }

  lemma {:induction false} Pigeonhole(t: seq<u16>, n: nat)
    requires Distinct(t) && forall i | 0 <= i < |t| :: t[i] < n
    ensures |t| <= n
  {
    var seen := set x | x in t;
    CountDistinct(t, seen);
    var below: set<int> := Below(n);
    assert seen <= below;
    SubsetSize(seen, below);
  }

  function Below(n: nat): (s: set<int>)
    ensures |s| == n && forall x: int :: x in s <==> 0 <= x < n
  {
    if n == 0 then {} else Below(n - 1) + {n - 1}
  }

  lemma {:induction false} CountDistinct(t: seq<u16>, seen: set<int>)
    requires Distinct(t) && seen == set x | x in t
    ensures |seen| == |t|
    decreases |t|
  {
    if t != [] {
      var rest := t[1..];
      var fewer: set<int> := set x | x in rest;
      CountDistinct(rest, fewer);
      assert t == [t[0]] + rest;
      assert seen == fewer + {t[0]};
    }
  }

  lemma {:induction false} SubsetSize<T>(a: set<T>, b: set<T>)
    requires a <= b
    ensures |a| <= |b|
    decreases |a|
  {
    if |a| > 0 {
      var x :| x in a;
      SubsetSize(a - {x}, b - {x});
    }
  }

  lemma {:induction false} WalkFollows(m: Mem, q: Queue, p: seq<u16>, hops: nat)
    requires IsPath(m, q, p) && |p| <= hops
    requires forall i | 0 <= i < |p| :: Usable(m, q, p[i])
    ensures Walk(m, q, p[0], hops) == Some(SegmentsAlong(m, q, p))
    decreases hops
  {
    hide ReadDescriptor;
    var d := DescriptorAt(m, q, p[0]);
    assert SegmentsAlong(m, q, p) == [SegmentOf(d)] + SegmentsAlong(m, q, p[1..]);
    if |p| > 1 {
      assert LinksTo(m, q, p[0], p[1]);
      TrailTail(m, q, p, 1);
      WalkFollows(m, q, p[1..], hops - 1);
    } else {
      assert SegmentsAlong(m, q, p) == [SegmentOf(d)];
      assert Walk(m, q, p[0], hops) == Some([SegmentOf(d)]);
    }
  }

  lemma {:induction false} WalkFinds(m: Mem, q: Queue, index: u16, hops: nat) returns (p: seq<u16>)
    requires Walk(m, q, index, hops).Some?
    ensures IsPath(m, q, p) && p[0] == index
    decreases hops
  {
    var d := ReadDescriptor(m, q, index).value;
    if d.HasNext() {
      var rest := WalkFinds(m, q, d.next, hops - 1);
      p := [index] + rest;
      forall i, j | 0 <= i && j == i + 1 && j < |p| ensures LinksTo(m, q, p[i], p[j]) {
        if i > 0 { assert p[i] == rest[i - 1] && p[j] == rest[j - 1]; }
      }
    } else {
      p := [index];
    }
  }

  lemma {:induction false} WalkGivesUp(m: Mem, q: Queue, index: u16, hops: nat) returns (t: seq<u16>)
    requires Walk(m, q, index, hops).None?
    ensures IsTrail(m, q, t) && t[0] == index
    ensures |t| == hops + 1 || !Usable(m, q, t[|t| - 1])
    decreases hops
  {
    if hops == 0 || !Usable(m, q, index) {
      t := [index];
    } else {
      var d := ReadDescriptor(m, q, index).value;
      var rest := WalkGivesUp(m, q, d.next, hops - 1);
      t := [index] + rest;
      forall i, j | 0 <= i && j == i + 1 && j < |t| ensures LinksTo(m, q, t[i], t[j]) {
        if i > 0 { assert t[i] == rest[i - 1] && t[j] == rest[j - 1]; }
      }
    }
  }

  /** The hop bound costs nothing: a complete chain is returned as precisely its path, whatever its length. */
  lemma PathIsCollected(m: Mem, q: Queue, p: seq<u16>)
    requires IsPath(m, q, p)
    ensures forall i | 0 <= i < |p| :: Usable(m, q, p[i])
    ensures Distinct(p) && |p| <= q.num
    ensures Chain(m, q, p[0]) == Some(SegmentsAlong(m, q, p))
  {
    PathUsable(m, q, p);
    PathDistinct(m, q, p);
    Pigeonhole(p, q.num);
    WalkFollows(m, q, p, q.num);
  }

  /** The bounded walk succeeds exactly when the unbounded chain has an end. */
  lemma CollectedIffPath(m: Mem, q: Queue, head: u16)
    ensures Chain(m, q, head).Some? <==> exists p :: IsPath(m, q, p) && p[0] == head
  {
    if Chain(m, q, head).Some? {
      var p := WalkFinds(m, q, head, q.num);
    }
    if p :| IsPath(m, q, p) && p[0] == head {
      PathIsCollected(m, q, p);
    }
  }

  /** A trail that comes back to an index it has visited. */
  ghost predicate Cyclic(t: seq<u16>) { !Distinct(t) }

  /** It fails exactly when the chain runs into a cycle or into a descriptor that cannot be used. */
  lemma RejectedIffCyclicOrBroken(m: Mem, q: Queue, head: u16)
    ensures Chain(m, q, head).None? <==>
            exists t :: IsTrail(m, q, t) && t[0] == head && (Cyclic(t) || !Usable(m, q, t[|t| - 1]))
  {
    if Chain(m, q, head).None? {
      var t := WalkGivesUp(m, q, head, q.num);
      if Usable(m, q, t[|t| - 1]) && Distinct(t) {
        forall i | 0 <= i < |t| ensures t[i] < q.num {
          if i + 1 < |t| { assert LinksTo(m, q, t[i], t[i + 1]); }
        }
        Pigeonhole(t, q.num);
      }
    } else {
      var p := WalkFinds(m, q, head, q.num);
      PathDistinct(m, q, p);
      PathUsable(m, q, p);
      forall t | IsTrail(m, q, t) && t[0] == head ensures Distinct(t) && Usable(m, q, t[|t| - 1]) {
        PathIsLongest(m, q, p, t);
        TrailsAgree(m, q, t, p);
      }
    }
  }

  /** A chain depends on nothing but its descriptor table. */
  lemma {:induction false} WalkDependsOnTable(m: Mem, m': Mem, q: Queue, q': Queue, index: u16, hops: nat)
    requires q.num == q'.num
    requires forall i: u16 | i < q.num :: ReadDescriptor(m, q, i) == ReadDescriptor(m', q', i)
    ensures Walk(m, q, index, hops) == Walk(m', q', index, hops)
    decreases hops
  {
    if hops > 0 && index < q.num && Usable(m, q, index) {
      var d := ReadDescriptor(m, q, index).value;
      if d.HasNext() { WalkDependsOnTable(m, m', q, q', d.next, hops - 1); }
    }
  }

  // ----- queue registers -----

  datatype QueueReg = NumReg | ReadyReg | DescLow | DescHigh | AvailLow | AvailHigh | UsedLow | UsedHigh

  function SetLow(addr: u64, value: u32): u64 { addr / TWO32 * TWO32 + value }

  function SetHigh(addr: u64, value: u32): u64 { addr % TWO32 + value * TWO32 }

  /** A write to one of the selected queue's registers; clearing ready restarts both ring indices. */
  function WrittenQueue(q: Queue, reg: QueueReg, value: u32): (q': Queue)
    ensures q.num <= QUEUE_SIZE ==> q'.num <= QUEUE_SIZE
  {
    match reg
    case NumReg => q.(num := Min(value, QUEUE_SIZE))
    case ReadyReg => if value != 0 then q.(ready := true) else q.(ready := false, lastAvail := 0, usedIdx := 0)
    case DescLow => q.(desc := SetLow(q.desc, value))
    case DescHigh => q.(desc := SetHigh(q.desc, value))
    case AvailLow => q.(avail := SetLow(q.avail, value))
    case AvailHigh => q.(avail := SetHigh(q.avail, value))
    case UsedLow => q.(used := SetLow(q.used, value))
    case UsedHigh => q.(used := SetHigh(q.used, value))
  }

  /** Writing the two halves of an address, in either order, sets the address, whatever stood there before. */
  lemma AddressHalves(before: u64, addr: u64)
    ensures SetHigh(SetLow(before, addr % TWO32), addr / TWO32) == addr
    ensures SetLow(SetHigh(before, addr / TWO32), addr % TWO32) == addr
  {
  }
}
