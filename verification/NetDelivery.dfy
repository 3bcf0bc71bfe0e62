/** After a notification the driver finds every received frame, in order, each at its own used index. */
module NetDelivery {
  import opened Words
  import opened GuestMemory
  import opened Virtqueue
  import opened Rings
  import opened Transfer
  import opened NetSpec
  import opened NetTheorems

  /** The segments of the buffer offered at a ring index. */
  function BufferAt(m: Mem, q: Queue, index: u16): Option<seq<Segment>>
    requires q.num > 0
  {
    match HeadAt(m, q, index)
    case None => None
    case Some(head) => Chain(m, q, head)
  }

  ghost predicate Apart(a: seq<Segment>, b: seq<Segment>) {
    forall s | s in a :: AwayFrom(b, s.addr, s.len)
  }

  ghost predicate ApartFrom(segs: seq<Segment>, buffer: Option<seq<Segment>>) {
    buffer.Some? ==> Apart(segs, buffer.value)
  }

  /** The next n buffers have separate segments that keep off the rings and off one another. */
  ghost predicate Courteous(m: Mem, q: Queue, n: nat) {
    && WellPlaced(m, q)
    && (forall k | 0 <= k < n :: PoliteBuffer(m, q, After(q.lastAvail, k)))
    && forall i, j | 0 <= i < j < n ::
         BufferAt(m, q, After(q.lastAvail, i)).Some? ==>
         ApartFrom(BufferAt(m, q, After(q.lastAvail, i)).value, BufferAt(m, q, After(q.lastAvail, j)))
  }

  /** The driver finds frame f at a used index, in the chain of the stated head. */
  ghost predicate Found(m: Mem, q: Queue, index: u16, header: nat, f: Frame, head: u16, segs: seq<Segment>)
    requires q.num > 0
  {
    && UsedId(m, q, index) == Some(head as nat)
    && Chain(m, q, head) == Some(segs)
    && DriverView(m, q, index, header) == Some(f)
  }

  lemma FoundAgrees(m: Mem, m': Mem, q: Queue, q': Queue, index: u16, header: nat, f: Frame, head: u16,
                    segs: seq<Segment>)
    requires q.num > 0 && SameLayout(q, q') && Found(m, q, index, header, f, head, segs)
    requires Chain(m', q', head) == Chain(m, q, head)
    requires UsedId(m', q, index) == UsedId(m, q, index) && UsedLen(m', q, index) == UsedLen(m, q, index)
    requires forall n: nat :: Contents(m', Front(segs, n)) == Contents(m, Front(segs, n))
    ensures Found(m', q', index, header, f, head, segs)
  {
    hide Chain, Contents, Front, ReadWord;
    assert UsedId(m', q', index) == UsedId(m', q, index);
    assert UsedLen(m', q', index) == UsedLen(m', q, index);
  }

  lemma FillLeavesOthers(m: Mem, into: seq<Segment>, data: seq<u8>, segs: seq<Segment>)
    requires Apart(segs, into)
    ensures Contents(Fill(m, into, data).0, segs) == Contents(m, segs)
  {
    var m' := Fill(m, into, data).0;
    forall s | s in segs ensures AgreeOn(m, m', s.addr, s.len) {
      FillKeeps(m, into, data, s.addr, s.len);
    }
    ContentsAgree(m, m', segs);
  }

  lemma {:induction false} FrontApart(segs: seq<Segment>, n: nat, into: seq<Segment>)
    requires Apart(segs, into)
    ensures Apart(Front(segs, n), into)
    decreases |segs|
  {
    if n > 0 && segs != [] {
      SplitSegments(segs);
      assert segs[0] in segs;
      var first := segs[0].(len := Min(segs[0].len, n));
      AwayShorter(into, segs[0].addr, segs[0].len, first.len);
      FrontApart(segs[1..], n - first.len, into);
      FrontSteps(segs, n);
      SplitSegments(Front(segs, n));
    }
  }

  /** Filling another buffer changes nothing about a frame already found. */
  lemma FillKeepsFound(m: Mem, q: Queue, into: seq<Segment>, data: seq<u8>,
                       index: u16, header: nat, f: Frame, head: u16, segs: seq<Segment>)
    requires WellPlaced(m, q) && SegmentsOffRings(into, q) && Apart(segs, into)
    requires Found(m, q, index, header, f, head, segs)
    ensures Found(Fill(m, into, data).0, q, index, header, f, head, segs)
  {
    hide Found, Apart, SegmentsOffRings, Fill, Contents, Front, SameRings, AgreeOn, UsedId, UsedLen;
    var m' := Fill(m, into, data).0;
    FillKeepsRings(m, into, data, q);
    UsedReadsAgree(m, m', q, index);
    TableDecides(m, m', q, q, head);
    forall n: nat ensures Contents(m', Front(segs, n)) == Contents(m, Front(segs, n)) {
      FrontApart(segs, n, into);
      FillLeavesOthers(m, into, data, Front(segs, n));
    }
    FoundAgrees(m, m', q, q, index, header, f, head, segs);
  }

  /** Handing back into another slot changes nothing about it either. */
  lemma HandBackKeepsFound(m: Mem, q: Queue, other: u16, len: u32,
                           index: u16, header: nat, f: Frame, head: u16, segs: seq<Segment>)
    requires WellPlaced(m, q) && AwayFrom(segs, q.used, UsedSize(q))
    requires Slot(index, q.num) != Slot(q.usedIdx, q.num)
    requires Found(m, q, index, header, f, head, segs)
    ensures Found(HandBack(m, q, other, len).mem, q, index, header, f, head, segs)
  {
    hide Found, AwayFrom, HandBack, Contents, Front, SameRings, UsedId, UsedLen, Slot;
    var m' := HandBack(m, q, other, len).mem;
    HandBackKeepsRings(m, q, other, len);
    HandBackKeepsOtherSlots(m, q, other, len, index);
    TableDecides(m, m', q, q, head);
    forall n: nat ensures Contents(m', Front(segs, n)) == Contents(m, Front(segs, n)) {
      FrontWithin(segs, n, q.used, UsedSize(q));
      HandBackKeepsContents(m, q, other, len, Front(segs, n));
    }
    FoundAgrees(m, m', q, q, index, header, f, head, segs);
  }

  /** The buffer of the current turn, when it has the room. */
  lemma CurrentBuffer(p: Port, size: nat)
    requires p.rx.num > 0
    requires HeadAt(p.mem, p.rx, p.rx.lastAvail).Some?
    requires RxChain(p.mem, p.rx, HeadAt(p.mem, p.rx, p.rx.lastAvail).value, size).Some?
    ensures BufferAt(p.mem, p.rx, p.rx.lastAvail)
         == RxChain(p.mem, p.rx, HeadAt(p.mem, p.rx, p.rx.lastAvail).value, size)
    ensures PoliteBuffer(p.mem, p.rx, p.rx.lastAvail) ==>
              SegmentsOffRings(BufferAt(p.mem, p.rx, p.rx.lastAvail).value, p.rx)
  {
    hide HeadAt, Chain, SegmentsOffRings, NonOverlapping, TotalLen;
  }

  /** Whatever becomes of a turn, rings and table stay as they were. */
  lemma ReceiveOneKeepsRings(p: Port, header: nat)
    requires p.rx.num > 0 && p.pending != []
    requires WellPlaced(p.mem, p.rx) && PoliteBuffer(p.mem, p.rx, p.rx.lastAvail)
    ensures SameRings(p.mem, ReceiveOne(p, header).port.mem, p.rx)
  {
    hide HeadAt, RxChain, Fill, HandBack, PoliteBuffer, WellPlaced, SegmentsOffRings, SameRings, Payload;
    var payload := Payload(header, p.pending[0]);
    RingsSame(p.mem, p.rx);
    if HeadAt(p.mem, p.rx, p.rx.lastAvail).Some? {
      var head := HeadAt(p.mem, p.rx, p.rx.lastAvail).value;
      if RxChain(p.mem, p.rx, head, |payload|).Some? {
        CurrentBuffer(p, |payload|);
        var segs := RxChain(p.mem, p.rx, head, |payload|).value;
        AfterFill(p.mem, segs, payload, p.rx);
        var m1 := Fill(p.mem, segs, payload).0;
        HandBackKeepsRings(m1, p.rx, head, |payload| % TWO32);
        RingsTrans(p.mem, m1, HandBack(m1, p.rx, head, |payload| % TWO32).mem, p.rx);
      }
    }
  }

  lemma RingsSame(m: Mem, q: Queue)
    ensures SameRings(m, m, q)
  {
  }

  lemma AfterFill(m: Mem, segs: seq<Segment>, data: seq<u8>, q: Queue)
    requires WellPlaced(m, q) && SegmentsOffRings(segs, q)
    ensures var m' := Fill(m, segs, data).0; SameRings(m, m', q) && WellPlaced(m', q)
  {
    FillKeepsRings(m, segs, data, q);
    PlacedStays(m, Fill(m, segs, data).0, q);
  }

  /** A turn leaves frames found earlier in place. */
  lemma ReceiveOneKeepsFound(p: Port, header: nat, index: u16, f: Frame, head: u16, segs: seq<Segment>)
    requires p.rx.num > 0 && p.pending != []
    requires WellPlaced(p.mem, p.rx) && PoliteBuffer(p.mem, p.rx, p.rx.lastAvail)
    requires AwayFrom(segs, p.rx.used, UsedSize(p.rx))
    requires ApartFrom(segs, BufferAt(p.mem, p.rx, p.rx.lastAvail))
    requires Slot(index, p.rx.num) != Slot(p.rx.usedIdx, p.rx.num)
    requires Found(p.mem, p.rx, index, header, f, head, segs)
    ensures Found(ReceiveOne(p, header).port.mem, p.rx, index, header, f, head, segs)
  {
    hide HeadAt, RxChain, Fill, HandBack, PoliteBuffer, WellPlaced, SegmentsOffRings, Found, Slot, Apart, BufferAt,
      Payload, AwayFrom;
    var payload := Payload(header, p.pending[0]);
    if HeadAt(p.mem, p.rx, p.rx.lastAvail).Some? {
      var cur := HeadAt(p.mem, p.rx, p.rx.lastAvail).value;
      if RxChain(p.mem, p.rx, cur, |payload|).Some? {
        CurrentBuffer(p, |payload|);
        var into := RxChain(p.mem, p.rx, cur, |payload|).value;
        FillKeepsFound(p.mem, p.rx, into, payload, index, header, f, head, segs);
        AfterFill(p.mem, into, payload, p.rx);
        HandBackKeepsFound(Fill(p.mem, into, payload).0, p.rx, cur, |payload| % TWO32, index, header, f, head, segs);
      }
    }
  }

  /** Buffers read the same as long as rings and table do. */
  lemma BufferSame(m: Mem, m': Mem, q: Queue, q': Queue, index: u16)
    requires q.num > 0 && InRam(m, q.avail, AvailSize(q)) && SameRings(m, m', q) && SameLayout(q, q')
    ensures BufferAt(m', q', index) == BufferAt(m, q, index)
    ensures HeadAt(m', q', index) == HeadAt(m, q, index)
    ensures PoliteBuffer(m', q', index) == PoliteBuffer(m, q, index)
  {
    hide NonOverlapping, AwayFrom, Chain;
    HeadsAgree(m, m', q, index);
    HeadLayout(m', q, q', index);
    if HeadAt(m, q, index).Some? { TableDecides(m, m', q, q', HeadAt(m, q, index).value); }
  }

  lemma HeadLayout(m: Mem, q: Queue, q': Queue, index: u16)
    requires q.num > 0 && SameLayout(q, q')
    ensures HeadAt(m, q', index) == HeadAt(m, q, index)
  {
  }

  lemma CourtesyCarries(m: Mem, m': Mem, q: Queue, n: nat)
    requires Courteous(m, q, n + 1) && SameRings(m, m', q)
    ensures Courteous(m', Advance(q), n)
  {
    hide PoliteBuffer, BufferAt, After, Next, Apart, SameRings, HeadAt;
    var q' := Advance(q);
    forall k | 0 <= k < n
      ensures BufferAt(m', q', After(q'.lastAvail, k)) == BufferAt(m, q, After(q.lastAvail, k + 1))
      ensures PoliteBuffer(m', q', After(q'.lastAvail, k))
    {
      AfterNext(q.lastAvail, k);
      BufferSame(m, m', q, q', After(q.lastAvail, k + 1));
    }
    PlacedAdvances(m, m', q);
  }

  lemma PlacedAdvances(m: Mem, m': Mem, q: Queue)
    requires WellPlaced(m, q) && SameRings(m, m', q)
    ensures WellPlaced(m', Advance(q))
  {
    PlacedStays(m, m', q);
  }

  /** A frame found before the loop is still found after it. */
  lemma {:induction false} LoopKeepsFound(p: Port, header: nat, avail: u16,
                                          index: u16, f: Frame, head: u16, segs: seq<Segment>)
    requires Courteous(p.mem, p.rx, Waiting(avail, p.rx.lastAvail))
    requires AwayFrom(segs, p.rx.used, UsedSize(p.rx))
    requires forall k | 0 <= k < Waiting(avail, p.rx.lastAvail) ::
               && ApartFrom(segs, BufferAt(p.mem, p.rx, After(p.rx.lastAvail, k)))
               && Slot(index, p.rx.num) != Slot(After(p.rx.usedIdx, k), p.rx.num)
    requires Found(p.mem, p.rx, index, header, f, head, segs)
    ensures Found(ReceiveAll(p, header, avail).port.mem, p.rx, index, header, f, head, segs)
    decreases Waiting(avail, p.rx.lastAvail)
  {
    hide PoliteBuffer, BufferAt, After, Next, Apart, ReceiveOne, Waiting, Slot, Found, AwayFrom, HeadAt, SameRings,
      InRam, Disjoint;
    WaitingNone(avail, p.rx.lastAvail);
    if p.rx.lastAvail != avail && p.pending != [] {
      var n := Waiting(avail, p.rx.lastAvail) - 1;
      WaitingShrinks(avail, p.rx.lastAvail);
      AfterZero(p.rx.lastAvail);
      AfterZero(p.rx.usedIdx);
      ReceiveOneKeepsFound(p, header, index, f, head, segs);
      ReceiveOneKeepsRings(p, header);
      ReceiveOnePops(p, header);
      var t := ReceiveOne(p, header);
      if t.completed {
        var p1 := t.port;
        CourtesyCarries(p.mem, p1.mem, p.rx, n);
        FoundLayout(p1.mem, p.rx, p1.rx, index, header, f, head, segs);
        forall k | 0 <= k < n
          ensures ApartFrom(segs, BufferAt(p1.mem, p1.rx, After(p1.rx.lastAvail, k)))
          ensures Slot(index, p1.rx.num) != Slot(After(p1.rx.usedIdx, k), p1.rx.num)
        {
          AfterNext(p.rx.lastAvail, k);
          AfterNext(p.rx.usedIdx, k);
          BufferSame(p.mem, p1.mem, p.rx, p1.rx, After(p.rx.lastAvail, k + 1));
        }
        LoopKeepsFound(p1, header, avail, index, f, head, segs);
        FoundLayout(ReceiveAll(p1, header, avail).port.mem, p1.rx, p.rx, index, header, f, head, segs);
      }
    }
  }

  lemma FoundLayout(m: Mem, q: Queue, q': Queue, index: u16, header: nat, f: Frame, head: u16, segs: seq<Segment>)
    requires q.num > 0 && SameLayout(q, q')
    ensures Found(m, q, index, header, f, head, segs) <==> Found(m, q', index, header, f, head, segs)
  {
    hide SameRings, ReadDescriptor;
    RingsSame(m, q);
    RingsSame(m, q');
    TableDecides(m, m, q, q', head);
    ViewLayout(m, q, q', index, header);
  }

  lemma ViewLayout(m: Mem, q: Queue, q': Queue, index: u16, header: nat)
    requires q.num > 0 && SameLayout(q, q')
    ensures UsedId(m, q, index) == UsedId(m, q', index)
    ensures DriverView(m, q, index, header) == DriverView(m, q', index, header)
  {
    hide SameRings, ReadDescriptor, Chain, ReadWord, Contents, Front;
    RingsSame(m, q);
    if UsedId(m, q, index).Some? && UsedId(m, q, index).value < TWO16 {
      TableDecides(m, m, q, q', UsedId(m, q, index).value);
    }
  }

  /** A completed turn shows the driver the frame it took. */
  lemma CompletedIsFound(p: Port, header: nat)
    requires p.rx.num > 0 && p.pending != [] && header + |p.pending[0]| < TWO32
    requires WellPlaced(p.mem, p.rx) && PoliteBuffer(p.mem, p.rx, p.rx.lastAvail)
    requires ReceiveOne(p, header).completed
    ensures HeadAt(p.mem, p.rx, p.rx.lastAvail).Some? && BufferAt(p.mem, p.rx, p.rx.lastAvail).Some?
    ensures AwayFrom(BufferAt(p.mem, p.rx, p.rx.lastAvail).value, p.rx.used, UsedSize(p.rx))
    ensures Found(ReceiveOne(p, header).port.mem, p.rx, p.rx.usedIdx, header, p.pending[0],
                  HeadAt(p.mem, p.rx, p.rx.lastAvail).value, BufferAt(p.mem, p.rx, p.rx.lastAvail).value)
  {
    hide HeadAt, RxChain, Fill, HandBack, PoliteBuffer, WellPlaced, SameRings, UsedId, DriverView, AwayFrom,
      BufferAt, Chain, Payload;
    var payload := Payload(header, p.pending[0]);
    var head := HeadAt(p.mem, p.rx, p.rx.lastAvail).value;
    CurrentBuffer(p, |payload|);
    var segs := RxChain(p.mem, p.rx, head, |payload|).value;
    assert Deliverable(p, header, head, segs);
    DriverFindsFrame(p, header, head, segs);
    BufferIsChain(p, head);
    TableDecides(p.mem, ReceiveOne(p, header).port.mem, p.rx, p.rx, head);
  }

  lemma BufferIsChain(p: Port, head: u16)
    requires p.rx.num > 0 && HeadAt(p.mem, p.rx, p.rx.lastAvail) == Some(head)
    ensures BufferAt(p.mem, p.rx, p.rx.lastAvail) == Chain(p.mem, p.rx, head)
  {
  }

  /** With well-placed rings a frame that leaves the queue is always announced. */
  lemma PlacedCompletes(p: Port, header: nat)
    requires p.rx.num > 0 && p.pending != []
    requires WellPlaced(p.mem, p.rx) && PoliteBuffer(p.mem, p.rx, p.rx.lastAvail)
    ensures ReceiveOne(p, header).moved.Some? <==> ReceiveOne(p, header).completed
  {
    hide HeadAt, RxChain, Fill, HandBack, PoliteBuffer, WellPlaced, SegmentsOffRings, SameRings, Payload;
    var payload := Payload(header, p.pending[0]);
    if HeadAt(p.mem, p.rx, p.rx.lastAvail).Some? {
      var head := HeadAt(p.mem, p.rx, p.rx.lastAvail).value;
      if RxChain(p.mem, p.rx, head, |payload|).Some? {
        CurrentBuffer(p, |payload|);
        var segs := RxChain(p.mem, p.rx, head, |payload|).value;
        AfterFill(p.mem, segs, payload, p.rx);
        PlacedHandsBack(Fill(p.mem, segs, payload).0, p.rx, head, |payload| % TWO32);
      }
    }
  }

  lemma PlacedHandsBack(m: Mem, q: Queue, head: u16, len: u32)
    requires WellPlaced(m, q)
    ensures HandBack(m, q, head, len).Completed?
  {
    HandBackWorks(m, q, head, len);
  }

  /** The first frame delivered is still found when the loop is over. */
  lemma FirstStays(p: Port, header: nat, avail: u16, n: nat)
    requires p.rx.num > 0 && p.pending != [] && header + |p.pending[0]| < TWO32
    requires n + 1 == Waiting(avail, p.rx.lastAvail) && avail != p.rx.lastAvail
    requires Courteous(p.mem, p.rx, n + 1) && ReceiveOne(p, header).completed
    requires forall j | 0 < j < n + 1 :: Slot(p.rx.usedIdx, p.rx.num) != Slot(After(p.rx.usedIdx, j), p.rx.num)
    ensures DriverView(ReceiveAll(p, header, avail).port.mem, p.rx, p.rx.usedIdx, header) == Some(p.pending[0])
  {
    hide PoliteBuffer, BufferAt, After, Next, Apart, ReceiveOne, Waiting, Slot, AwayFrom, HeadAt, SameRings, InRam,
      Disjoint, UsedId, Chain, DriverView;
    AfterZero(p.rx.lastAvail);
    WaitingShrinks(avail, p.rx.lastAvail);
    ReceiveOneKeepsRings(p, header);
    ReceiveOnePops(p, header);
    CompletedIsFound(p, header);
    CourtesyCarries(p.mem, ReceiveOne(p, header).port.mem, p.rx, n);
    var p1 := ReceiveOne(p, header).port;
    var f, head := p.pending[0], HeadAt(p.mem, p.rx, p.rx.lastAvail).value;
    var segs := BufferAt(p.mem, p.rx, p.rx.lastAvail).value;
    FoundLayout(p1.mem, p.rx, p1.rx, p.rx.usedIdx, header, f, head, segs);
    forall k | 0 <= k < n
      ensures ApartFrom(segs, BufferAt(p1.mem, p1.rx, After(p1.rx.lastAvail, k)))
      ensures Slot(p.rx.usedIdx, p1.rx.num) != Slot(After(p1.rx.usedIdx, k), p1.rx.num)
    {
      AfterNext(p.rx.lastAvail, k);
      AfterNext(p.rx.usedIdx, k);
      BufferSame(p.mem, p1.mem, p.rx, p1.rx, After(p.rx.lastAvail, k + 1));
      assert ApartFrom(BufferAt(p.mem, p.rx, After(p.rx.lastAvail, 0)).value,
                       BufferAt(p.mem, p.rx, After(p.rx.lastAvail, k + 1)));
    }
    LoopKeepsFound(p1, header, avail, p.rx.usedIdx, f, head, segs);
    FoundLayout(ReceiveAll(p1, header, avail).port.mem, p1.rx, p.rx, p.rx.usedIdx, header, f, head, segs);
  }

  /** The k-th frame of the queue is what the driver finds at the k-th new used index when all is done. */
  lemma {:induction false} DriverFindsAll(p: Port, header: nat, avail: u16, k: nat)
    requires p.rx.num > 0 && k < |ReceiveAll(p, header, avail).moved|
    requires Courteous(p.mem, p.rx, Waiting(avail, p.rx.lastAvail))
    requires forall f | f in p.pending :: header + |f| < TWO32
    requires forall j | k < j < Waiting(avail, p.rx.lastAvail) ::
               Slot(After(p.rx.usedIdx, k), p.rx.num) != Slot(After(p.rx.usedIdx, j), p.rx.num)
    ensures k < |p.pending|
    ensures DriverView(ReceiveAll(p, header, avail).port.mem, p.rx, After(p.rx.usedIdx, k), header)
         == Some(p.pending[k])
    decreases k
  {
    hide PoliteBuffer, BufferAt, After, Next, Apart, ReceiveOne, Waiting, Slot, AwayFrom, HeadAt, SameRings, InRam,
      Disjoint, UsedId, Chain, DriverView;
    WaitingNone(avail, p.rx.lastAvail);
    WaitingShrinks(avail, p.rx.lastAvail);
    AfterZero(p.rx.lastAvail);
    AfterZero(p.rx.usedIdx);
    var n := Waiting(avail, p.rx.lastAvail) - 1;
    ReceiveOneKeepsRings(p, header);
    ReceiveOnePops(p, header);
    var t := ReceiveOne(p, header);
    var p1 := t.port;
    PlacedCompletes(p, header);
    if t.completed {
      CourtesyCarries(p.mem, p1.mem, p.rx, n);
      if k == 0 {
        CompletedIsFound(p, header);
        FirstStays(p, header, avail, n);
      } else {
        AfterNext(p.rx.usedIdx, k - 1);
        forall j | k - 1 < j < n
          ensures Slot(After(p1.rx.usedIdx, k - 1), p1.rx.num) != Slot(After(p1.rx.usedIdx, j), p1.rx.num)
        {
          AfterNext(p.rx.usedIdx, j);
          assert Slot(After(p.rx.usedIdx, k), p.rx.num) != Slot(After(p.rx.usedIdx, j + 1), p.rx.num);
        }
        assert p1.pending == p.pending[1..];
        DriverFindsAll(p1, header, avail, k - 1);
        ViewLayout(ReceiveAll(p1, header, avail).port.mem, p1.rx, p.rx, After(p.rx.usedIdx, k), header);
      }
    }
  }
}
