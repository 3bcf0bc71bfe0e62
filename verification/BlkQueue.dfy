/** Serving the block queue: one notification completes what is waiting, in order, each head once. */
module BlkQueue {
  import opened Words
  import opened GuestMemory
  import opened Virtqueue
  import opened Transfer
  import opened Rings
  import opened BlkSpec
  import opened BlkTheorems

  datatype Disk = Disk(mem: Mem, image: seq<u8>, q: Queue)

  datatype Entry = Entry(head: u16, len: u32)

  datatype Turn = Halted(disk: Disk) | Served(disk: Disk, entry: Entry)

  /** Takes the next head, performs its request and hands it back. */
  function ServeOne(d: Disk): (t: Turn)
    requires d.q.num > 0
    ensures t.Served? ==> t.disk.q == Advance(d.q)
  {
    match HeadAt(d.mem, d.q, d.q.lastAvail)
    case None => Halted(d)
    case Some(head) =>
      var o := Process(d.mem, d.image, d.q, head);
      match HandBack(o.mem, d.q, head, o.len)
      case Refused(m) => Halted(Disk(m, o.image, d.q))
      case Unannounced(m) => Halted(Disk(m, o.image, Advance(d.q)))
      case Completed(m) => Served(Disk(m, o.image, Advance(d.q)), Entry(head, o.len))
  }

  /** The disk after a notification, with the buffers completed by it in order. */
  datatype Run = Run(disk: Disk, log: seq<Entry>)

  function Serve(d: Disk, avail: u16): Run
    requires d.q.num > 0
    decreases Waiting(avail, d.q.lastAvail)
  {
    if d.q.lastAvail == avail then Run(d, [])
    else
      match ServeOne(d)
      case Halted(d1) => Run(d1, [])
      case Served(d1, e) =>
        assert Waiting(avail, Next(d.q.lastAvail)) == Waiting(avail, d.q.lastAvail) - 1 by {
          WaitingShrinks(avail, d.q.lastAvail);
        }
        var rest := Serve(d1, avail);
        Run(rest.disk, [e] + rest.log)
  }

  // ----- requests that keep off the rings -----

  ghost predicate OffRange(r: Request, b: nat, k: nat) {
    AwayFrom(r.data, b, k) && Disjoint(r.statusAddr, 1, b, k)
  }

  ghost predicate OffRings(r: Request, q: Queue) {
    OffRange(r, q.desc, TableSize(q)) && OffRange(r, q.avail, AvailSize(q)) && OffRange(r, q.used, UsedSize(q))
  }

  ghost predicate Polite(m: Mem, q: Queue, index: u16)
    requires q.num > 0
  {
    match HeadAt(m, q, index)
    case None => true
    case Some(head) => Parse(m, q, head).Some? ==> OffRings(Parse(m, q, head).value, q)
  }

  /** The rings are well placed and the next n requests keep off them. */
  ghost predicate Orderly(m: Mem, q: Queue, n: nat) {
    WellPlaced(m, q) && forall k | 0 <= k < n :: Polite(m, q, After(q.lastAvail, k))
  }

  lemma ParseSame(m: Mem, m': Mem, q: Queue, q': Queue, head: u16)
    requires SameRings(m, m', q) && SameLayout(q, q')
    ensures Parse(m, q, head).Some? <==> Parse(m', q', head).Some?
    ensures Parse(m, q, head).Some? ==>
            && Parse(m', q', head).value.data == Parse(m, q, head).value.data
            && Parse(m', q', head).value.statusAddr == Parse(m, q, head).value.statusAddr
  {
    assert forall i: u16 | i < q.num :: ReadDescriptor(m', q, i) == ReadDescriptor(m', q', i);
    assert ReadDescriptor(m, q, head) == ReadDescriptor(m', q', head);
    if head < q.num && ReadDescriptor(m, q, head).Some? {
      var d := ReadDescriptor(m, q, head).value;
      assert InRam(m, d.addr, HEADER) == InRam(m', d.addr, HEADER);
      WalkDependsOnTable(m, m', q, q', d.next, q.num);
    }
  }

  /** A polite request leaves the ring and the table as they were. */
  lemma ProcessKeepsRings(m: Mem, image: seq<u8>, q: Queue, index: u16)
    requires WellPlaced(m, q) && Polite(m, q, index) && HeadAt(m, q, index).Some?
    ensures var o := Process(m, image, q, HeadAt(m, q, index).value);
      SameRings(m, o.mem, q) && AgreeOn(m, o.mem, q.used, UsedSize(q))
  {
    var head := HeadAt(m, q, index).value;
    if Parse(m, q, head).Some? {
      var r := Parse(m, q, head).value;
      var m' := Execute(m, image, r).mem;
      RequestKeeps(m, image, r, q.avail, AvailSize(q));
      RequestKeeps(m, image, r, q.used, UsedSize(q));
      forall i: u16 | i < q.num ensures ReadDescriptor(m, q, i) == ReadDescriptor(m', q, i) {
        DescriptorRange(q, i);
        NarrowDisjoint(r.data, q.desc, TableSize(q), DescAddr(q, i), DESC_SIZE);
        RequestKeeps(m, image, r, DescAddr(q, i), DESC_SIZE);
      }
    }
  }

  lemma OrderlyCarries(m: Mem, m': Mem, q: Queue, n: nat)
    requires Orderly(m, q, n + 1) && SameRings(m, m', q)
    ensures Orderly(m', Advance(q), n)
  {
    hide Slot, After, Next, ReadDescriptor, Parse;
    var q' := Advance(q);
    assert InRam(m', q.avail, AvailSize(q)) && InRam(m', q.used, UsedSize(q));
    forall k | 0 <= k < n ensures Polite(m', q', After(q'.lastAvail, k)) {
      AfterNext(q.lastAvail, k);
      var index := After(q.lastAvail, k + 1);
      assert Polite(m, q, index);
      HeadsAgree(m, m', q, index);
      assert HeadAt(m', q', index) == HeadAt(m', q, index);
      if HeadAt(m, q, index).Some? { ParseSame(m, m', q, q', HeadAt(m, q, index).value); }
    }
  }

  /** One turn of an orderly queue completes the next head. */
  lemma ServeOneCompletes(d: Disk, n: nat)
    requires Orderly(d.mem, d.q, n + 1)
    ensures var t := ServeOne(d);
      && t.Served? && HeadAt(d.mem, d.q, d.q.lastAvail) == Some(t.entry.head)
      && SameRings(d.mem, t.disk.mem, d.q) && Orderly(t.disk.mem, t.disk.q, n)
      && UsedIdx(t.disk.mem, d.q) == Some(Next(d.q.usedIdx) as nat)
      && UsedId(t.disk.mem, d.q, d.q.usedIdx) == Some(t.entry.head as nat)
      && UsedLen(t.disk.mem, d.q, d.q.usedIdx) == Some(t.entry.len as nat)
  {
    hide Slot, Process, ReadDescriptor, HandBack, UsedId, UsedLen, UsedIdx, Parse, HeadAt;
    AfterZero(d.q.lastAvail);
    var m, q := d.mem, d.q;
    HeadReadable(m, q, q.lastAvail);
    assert Polite(m, q, After(q.lastAvail, 0));
    ProcessKeepsRings(m, d.image, q, q.lastAvail);
    var head := HeadAt(m, q, q.lastAvail).value;
    var o := Process(m, d.image, q, head);
    assert WellPlaced(o.mem, q);
    HandBackWorks(o.mem, q, head, o.len);
    HandBackKeepsRings(o.mem, q, head, o.len);
    var m2 := HandBack(o.mem, q, head, o.len).mem;
    SameRingsTrans(m, o.mem, m2, q);
    OrderlyCarries(m, m2, q, n);
  }

  /** A turn performs its request whatever becomes of handing it back. The queue stays where it was exactly when the used
      element does not fit RAM, and then the next notification performs the request again. */
  lemma PerformedAgainIff(d: Disk, head: u16)
    requires d.q.num > 0 && HeadAt(d.mem, d.q, d.q.lastAvail) == Some(head)
    ensures var t, a := ServeOne(d), UsedElemAddr(d.q, d.q.usedIdx);
      && t.disk.image == Process(d.mem, d.image, d.q, head).image
      && t.disk.q == (if InRam(d.mem, a, 4) && InRam(d.mem, Offset(a, 4), 4) then Advance(d.q) else d.q)
      && (t.Served? <==>
            InRam(d.mem, a, 4) && InRam(d.mem, Offset(a, 4), 4) && InRam(d.mem, Offset(d.q.used, 2), 2))
  {
    hide HeadAt, UsedElemAddr, Slot, Parse, Offset;
    var o := Process(d.mem, d.image, d.q, head);
    ProcessKeepsRegions(d.mem, d.image, d.q, head);
    hide Process;
    assert forall b, k :: InRam(o.mem, b, k) == InRam(d.mem, b, k);
  }

  lemma ProcessKeepsRegions(m: Mem, image: seq<u8>, q: Queue, head: u16)
    ensures Process(m, image, q, head).mem.regions == m.regions
  {
    hide Parse, Execute;
    if Parse(m, q, head).Some? { RequestKeeps(m, image, Parse(m, q, head).value, 0, 0); }
  }

  /** What the driver finds afterwards at one used index. */
  ghost predicate Shows(m: Mem, q: Queue, index: u16, e: Entry)
    requires q.num > 0
  {
    UsedId(m, q, index) == Some(e.head as nat) && UsedLen(m, q, index) == Some(e.len as nat)
  }

  lemma LayoutDecides(m: Mem, q: Queue, q': Queue, index: u16, e: Entry)
    requires q.num > 0 && SameLayout(q, q')
    ensures Shows(m, q, index, e) <==> Shows(m, q', index, e)
    ensures HeadAt(m, q, index) == HeadAt(m, q', index) && UsedIdx(m, q) == UsedIdx(m, q')
  {
    hide ReadWord, ReadU16, Slot, Offset;
  }

  lemma ServeOneKeepsShown(d: Disk, n: nat, index: u16, e: Entry)
    requires Orderly(d.mem, d.q, n + 1) && Shows(d.mem, d.q, index, e)
    requires Slot(index, d.q.num) != Slot(d.q.usedIdx, d.q.num)
    ensures Shows(ServeOne(d).disk.mem, d.q, index, e)
  {
    hide Slot, Process, ReadDescriptor, HandBack, UsedId, UsedLen, UsedIdx, Parse, HeadAt;
    AfterZero(d.q.lastAvail);
    var m, q := d.mem, d.q;
    ServeOneCompletes(d, n);
    assert Polite(m, q, After(q.lastAvail, 0));
    ProcessKeepsRings(m, d.image, q, q.lastAvail);
    var head := HeadAt(m, q, q.lastAvail).value;
    var o := Process(m, d.image, q, head);
    assert InRam(o.mem, q.used, UsedSize(q));
    UsedReadsAgree(m, o.mem, q, index);
    HandBackKeepsOtherSlots(o.mem, q, head, o.len, index);
  }

  /** An element stays in its slot while later ones go elsewhere. */
  lemma {:induction false} ServeKeepsShown(d: Disk, avail: u16, index: u16, e: Entry)
    requires Orderly(d.mem, d.q, Waiting(avail, d.q.lastAvail)) && Shows(d.mem, d.q, index, e)
    requires forall k | 0 <= k < Waiting(avail, d.q.lastAvail) ::
               Slot(index, d.q.num) != Slot(After(d.q.usedIdx, k), d.q.num)
    ensures Shows(Serve(d, avail).disk.mem, d.q, index, e)
    decreases Waiting(avail, d.q.lastAvail)
  {
    hide Slot, After, Next, Waiting, ServeOne, Polite, InRam, Disjoint, Shows;
    AfterZero(d.q.usedIdx);
    if d.q.lastAvail != avail {
      var n := Waiting(avail, d.q.lastAvail) - 1;
      WaitingShrinks(avail, d.q.lastAvail);
      ServeOneCompletes(d, n);
      assert Slot(index, d.q.num) != Slot(After(d.q.usedIdx, 0), d.q.num);
      ServeOneKeepsShown(d, n, index, e);
      var d1 := ServeOne(d).disk;
      LayoutDecides(d1.mem, d.q, d1.q, index, e);
      forall k | 0 <= k < Waiting(avail, d1.q.lastAvail)
        ensures Slot(index, d1.q.num) != Slot(After(d1.q.usedIdx, k), d1.q.num)
      {
        AfterNext(d.q.usedIdx, k);
        assert Slot(index, d.q.num) != Slot(After(d.q.usedIdx, k + 1), d.q.num);
      }
      ServeKeepsShown(d1, avail, index, e);
      LayoutDecides(Serve(d1, avail).disk.mem, d.q, d1.q, index, e);
    }
  }

  /** A notification completes every waiting head of the ring as it then stood: in order, each once, no more. */
  lemma {:induction false} ServeCompletes(d: Disk, avail: u16)
    requires Orderly(d.mem, d.q, Waiting(avail, d.q.lastAvail))
    ensures var run := Serve(d, avail); var n := Waiting(avail, d.q.lastAvail);
      && |run.log| == n
      && (forall k | 0 <= k < n :: HeadAt(d.mem, d.q, After(d.q.lastAvail, k)) == Some(run.log[k].head))
      && run.disk.q == d.q.(lastAvail := avail, usedIdx := After(d.q.usedIdx, n))
      && (n > 0 ==> UsedIdx(run.disk.mem, d.q) == Some(run.disk.q.usedIdx as nat))
    decreases Waiting(avail, d.q.lastAvail)
  {
    hide Slot, After, Next, Waiting, ServeOne, Polite, InRam, Disjoint, HeadAt, UsedIdx;
    AfterZero(d.q.usedIdx);
    AfterZero(d.q.lastAvail);
    WaitingNone(avail, d.q.lastAvail);
    if d.q.lastAvail != avail {
      var n := Waiting(avail, d.q.lastAvail) - 1;
      WaitingShrinks(avail, d.q.lastAvail);
      ServeOneCompletes(d, n);
      var d1, e := ServeOne(d).disk, ServeOne(d).entry;
      ServeCompletes(d1, avail);
      var rest := Serve(d1, avail);
      AfterNext(d.q.usedIdx, n);
      forall k | 0 <= k < n + 1
        ensures HeadAt(d.mem, d.q, After(d.q.lastAvail, k)) == Some(Serve(d, avail).log[k].head)
      {
        if k > 0 {
          AfterNext(d.q.lastAvail, k - 1);
          var index := After(d.q.lastAvail, k);
          HeadsAgree(d.mem, d1.mem, d.q, index);
          LayoutDecides(d1.mem, d.q, d1.q, index, e);
          assert After(d1.q.lastAvail, k - 1) == index;
          assert Serve(d, avail).log[k] == rest.log[k - 1];
        }
      }
      WaitingNone(avail, d1.q.lastAvail);
      LayoutDecides(rest.disk.mem, d.q, d1.q, 0, e);
    }
  }

  /** Each completed buffer is found at its own used index, unless a later one was given the same slot. */
  lemma {:induction false} UsedRingShows(d: Disk, avail: u16, k: nat)
    requires Orderly(d.mem, d.q, Waiting(avail, d.q.lastAvail)) && k < Waiting(avail, d.q.lastAvail)
    requires forall j | k < j < Waiting(avail, d.q.lastAvail) ::
               Slot(After(d.q.usedIdx, k), d.q.num) != Slot(After(d.q.usedIdx, j), d.q.num)
    ensures k < |Serve(d, avail).log|
    ensures Shows(Serve(d, avail).disk.mem, d.q, After(d.q.usedIdx, k), Serve(d, avail).log[k])
    decreases k
  {
    hide Slot, After, Next, Waiting, ServeOne, Polite, InRam, Disjoint, UsedId, UsedLen;
    AfterZero(d.q.usedIdx);
    WaitingNone(avail, d.q.lastAvail);
    var n := Waiting(avail, d.q.lastAvail) - 1;
    WaitingShrinks(avail, d.q.lastAvail);
    ServeCompletes(d, avail);
    ServeOneCompletes(d, n);
    var d1, e := ServeOne(d).disk, ServeOne(d).entry;
    var index := After(d.q.usedIdx, k);
    if k == 0 {
      assert Shows(d1.mem, d.q, d.q.usedIdx, e);
      LayoutDecides(d1.mem, d.q, d1.q, index, e);
      forall j | 0 <= j < n ensures Slot(index, d1.q.num) != Slot(After(d1.q.usedIdx, j), d1.q.num) {
        AfterNext(d.q.usedIdx, j);
        assert Slot(After(d.q.usedIdx, k), d.q.num) != Slot(After(d.q.usedIdx, j + 1), d.q.num);
      }
      ServeKeepsShown(d1, avail, index, e);
      LayoutDecides(Serve(d1, avail).disk.mem, d.q, d1.q, index, e);
    } else {
      AfterNext(d.q.usedIdx, k - 1);
      forall j | k - 1 < j < n
        ensures Slot(After(d1.q.usedIdx, k - 1), d1.q.num) != Slot(After(d1.q.usedIdx, j), d1.q.num)
      {
        AfterNext(d.q.usedIdx, j);
        assert Slot(After(d.q.usedIdx, k), d.q.num) != Slot(After(d.q.usedIdx, j + 1), d.q.num);
      }
      UsedRingShows(d1, avail, k - 1);
      LayoutDecides(Serve(d1, avail).disk.mem, d.q, d1.q, index, Serve(d1, avail).log[k - 1]);
    }
  }

  /** With a size that divides 65536 and no more buffers than slots, the driver finds every completion. */
  lemma DriverSeesAll(d: Disk, avail: u16)
    requires Orderly(d.mem, d.q, Waiting(avail, d.q.lastAvail))
    requires d.q.num <= QUEUE_SIZE && TWO16 % d.q.num == 0 && Waiting(avail, d.q.lastAvail) <= d.q.num
    ensures |Serve(d, avail).log| == Waiting(avail, d.q.lastAvail)
    ensures forall k | 0 <= k < |Serve(d, avail).log| ::
              Shows(Serve(d, avail).disk.mem, d.q, After(d.q.usedIdx, k), Serve(d, avail).log[k])
  {
    hide Slot, After, Next, Waiting, Serve, Polite, InRam, Disjoint, Shows;
    ServeCompletes(d, avail);
    var num, used := d.q.num, d.q.usedIdx;
    SlotsConsecutiveIff(num);
    forall k | 0 <= k < |Serve(d, avail).log|
      ensures Shows(Serve(d, avail).disk.mem, d.q, After(used, k), Serve(d, avail).log[k])
    {
      forall j | k < j < Waiting(avail, d.q.lastAvail)
        ensures Slot(After(used, k), num) != Slot(After(used, j), num)
      {
        SlotAfter(used, k, num);
        SlotAfter(used, j, num);
        ShiftedApart(Slot(used, num), k, j, num);
      }
      UsedRingShows(d, avail, k);
    }
  }
}
