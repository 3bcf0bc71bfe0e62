/** Loopback networking loses, duplicates and reorders nothing, and exactly when it may fall short of that. */
module NetTheorems {
  import opened Words
  import opened GuestMemory
  import opened Virtqueue
  import opened Rings
  import opened Transfer
  import opened NetSpec

  // ----- transmit -----

  /** Transmitting in loopback appends exactly the frames it moved. */
  lemma {:induction false} TransmitAppends(p: Port, loopback: bool, avail: u16)
    requires p.tx.num > 0
    ensures var run := TransmitAll(p, loopback, avail);
      run.port.pending == (if loopback then p.pending + run.moved else p.pending) && run.port.rx == p.rx
    decreases Waiting(avail, p.tx.lastAvail)
  {
    hide NextOutgoing, HandBack, WriteUsed;
    if p.tx.lastAvail != avail {
      WaitingShrinks(avail, p.tx.lastAvail);
      var t := TransmitOne(p, loopback);
      if t.completed {
        TransmitAppends(t.port, loopback, avail);
        var rest := TransmitAll(t.port, loopback, avail);
        assert p.pending + Moved(t) + rest.moved == p.pending + (Moved(t) + rest.moved);
      }
    }
  }

  lemma {:induction false} ContentsIff(m: Mem, segs: seq<Segment>)
    ensures Contents(m, segs).Some? <==> Reachable(m, segs)
    decreases |segs|
  {
    if segs != [] {
      SplitSegments(segs);
      ContentsIff(m, segs[1..]);
    }
  }

  /** A buffer is transmitted exactly when its chain is complete, read-only and in RAM throughout, and holds a header. */
  lemma TransmittedIff(p: Port)
    requires p.tx.num > 0
    ensures NextOutgoing(p).Some? <==>
      var head := HeadAt(p.mem, p.tx, p.tx.lastAvail);
      && head.Some? && Chain(p.mem, p.tx, head.value).Some?
      && var segs := Chain(p.mem, p.tx, head.value).value;
         (forall s | s in segs :: !s.writable) && Reachable(p.mem, segs) && TotalLen(segs) >= 10
  {
    hide HeadAt, Chain, DetectTxHeaderSize, Contents;
    var head := HeadAt(p.mem, p.tx, p.tx.lastAvail);
    if head.Some? && Chain(p.mem, p.tx, head.value).Some? { ContentsIff(p.mem, Chain(p.mem, p.tx, head.value).value); }
  }

  /** A frame goes out while its buffer stays the next one exactly when the used element cannot be written. */
  lemma ResentIff(p: Port, loopback: bool)
    requires p.tx.num > 0
    ensures var t := TransmitOne(p, loopback);
      t.moved.Some? && t.port.tx == p.tx <==>
      NextOutgoing(p).Some? && !WriteUsed(p.mem, p.tx, NextOutgoing(p).value.head, 0).1
  {
    hide NextOutgoing, WriteUsed, WriteWord;
    assert Advance(p.tx).lastAvail != p.tx.lastAvail;
  }

  /** Such a buffer is transmitted again at the next notification: the same frame is queued twice. */
  lemma ResentFrame(p: Port)
    requires p.tx.num > 0 && p.headerSize in {NET_HDR, MRG_HDR} && NextOutgoing(p).Some?
    requires !InRam(p.mem, UsedElemAddr(p.tx, p.tx.usedIdx), 4)
    ensures var once := TransmitOne(p, true).port; var twice := TransmitOne(once, true).port;
      var f := NextOutgoing(p).value.frame;
      once.pending == p.pending + [f] && twice.pending == p.pending + [f, f] && twice.tx == p.tx
  {
    hide TxBytes, HeadAt, UsedElemAddr;
    var once := TransmitOne(p, true).port;
    assert once.mem == p.mem && once.tx == p.tx;
    assert NextOutgoing(once) == NextOutgoing(p);
  }

  /** With the used ring in RAM each frame sent takes exactly one buffer, however the loop ends. */
  lemma {:induction false} OneFramePerBuffer(p: Port, loopback: bool, avail: u16)
    requires p.tx.num > 0 && InRam(p.mem, p.tx.used, UsedSize(p.tx))
    ensures var run := TransmitAll(p, loopback, avail);
      && run.port.tx == p.tx.(lastAvail := After(p.tx.lastAvail, |run.moved|),
                              usedIdx := After(p.tx.usedIdx, |run.moved|))
      && |run.moved| <= Waiting(avail, p.tx.lastAvail)
      && run.any == (run.moved != [])
    decreases Waiting(avail, p.tx.lastAvail)
  {
    hide NextOutgoing, HandBack, After, Next, Waiting, InRam;
    AfterZero(p.tx.lastAvail);
    AfterZero(p.tx.usedIdx);
    if p.tx.lastAvail != avail {
      WaitingShrinks(avail, p.tx.lastAvail);
      WaitingNone(avail, p.tx.lastAvail);
      if NextOutgoing(p).Some? {
        var head := NextOutgoing(p).value.head;
        HandBackWorks(p.mem, p.tx, head, 0);
        var t := TransmitOne(p, loopback);
        UsedStaysInRam(p.mem, t.port.mem, p.tx);
        OneFramePerBuffer(t.port, loopback, avail);
        var n := |TransmitAll(t.port, loopback, avail).moved|;
        AfterNext(p.tx.lastAvail, n);
        AfterNext(p.tx.usedIdx, n);
      }
    }
  }

  lemma UsedStaysInRam(m: Mem, m': Mem, q: Queue)
    requires m'.regions == m.regions
    ensures InRam(m', q.used, UsedSize(q)) <==> InRam(m, q.used, UsedSize(q))
  {
  }

  /** Stripping a header of the size the guest used recovers its frame exactly when that size is detected. */
  lemma StrippedExactlyIff(p: Port, segs: seq<Segment>, header: seq<u8>, frame: Frame)
    requires |header| in {NET_HDR, MRG_HDR}
    ensures var bytes := header + frame;
      && DetectTxHeaderSize(p, segs, bytes) <= |bytes|
      && (bytes[DetectTxHeaderSize(p, segs, bytes)..] == frame <==>
          (|header| == MRG_HDR <==>
           && |bytes| >= MRG_HDR
           && (p.headerSize == MRG_HDR || p.mergeable || (segs != [] && GuessedMergeable(segs[0], bytes)))))
  {
    var bytes := header + frame;
    var d := DetectTxHeaderSize(p, segs, bytes);
    assert |bytes[d..]| == |bytes| - d;
    if d == |header| { assert bytes[d..] == frame; }
  }

  /** A legacy guest whose frame starts with two zero bytes can be misread: those bytes are taken for header. */
  lemma LegacyFrameMisread(p: Port, frame: Frame)
    requires !p.mergeable && p.headerSize == NET_HDR
    requires |frame| >= 16 && frame[0] == 0 && frame[1] == 0 && frame[14] >= 6
    ensures var bytes := Header(NET_HDR) + frame; var segs := [Segment(0, |bytes| % TWO32, false)];
      |bytes| < TWO32 ==> bytes[DetectTxHeaderSize(p, segs, bytes)..] == frame[2..]
  {
    var bytes := Header(NET_HDR) + frame;
    if |bytes| < TWO32 {
      var z := bytes[..MRG_HDR];
      assert z == Zeros(NET_HDR) + [frame[0], frame[1]];
      assert bytes[MRG_HDR..] == frame[2..];
      assert bytes[MRG_HDR..][12] == frame[14];
      assert AllZero(z);
    }
  }

  /** Once a 12-byte header has been seen the device keeps using it, both ways. */
  lemma HeaderSizeSticks(p: Port, loopback: bool)
    requires p.tx.num > 0 && p.headerSize in {NET_HDR, MRG_HDR}
    ensures var p' := TransmitOne(p, loopback).port;
      && p'.headerSize in {NET_HDR, MRG_HDR}
      && (NextOutgoing(p).Some? && NextOutgoing(p).value.header == MRG_HDR ==> ActiveHeaderSize(p') == MRG_HDR)
      && (p.mergeable ==> p'.mergeable)
      && (p'.mergeable && !p.mergeable ==> ActiveHeaderSize(p') == MRG_HDR)
  {
    hide TxBytes, HandBack, HeadAt;
  }

  // ----- receive -----

  /** The header in front of a received frame is zero but for the buffer count of one in the 12-byte form. */
  lemma HeaderContent(frame: Frame)
    ensures forall i | 0 <= i < NET_HDR :: Payload(NET_HDR, frame)[i] == 0 && Payload(MRG_HDR, frame)[i] == 0
    ensures FromLe(Payload(MRG_HDR, frame)[NET_HDR..MRG_HDR]) == 1
  {
    assert Payload(MRG_HDR, frame)[NET_HDR..MRG_HDR] == [1, 0];
    assert [1, 0][1..] == [0];
    assert FromLe([0]) == 0;
  }

  /** Receiving takes frames from the front of the queue, and nothing else from it. */
  lemma {:induction false} ReceivePops(p: Port, header: nat, avail: u16)
    requires p.rx.num > 0
    ensures var run := ReceiveAll(p, header, avail);
      && p.pending == run.moved + run.port.pending && run.port.tx == p.tx
      && run.port.rx == p.rx.(lastAvail := After(p.rx.lastAvail, |run.moved|),
                              usedIdx := After(p.rx.usedIdx, |run.moved|))
      && |run.moved| <= Waiting(avail, p.rx.lastAvail)
    decreases Waiting(avail, p.rx.lastAvail)
  {
    hide HeadAt, HandBack, RxChain, Fill, Payload, After, Next, Waiting;
    AfterZero(p.rx.lastAvail);
    AfterZero(p.rx.usedIdx);
    WaitingNone(avail, p.rx.lastAvail);
    if p.rx.lastAvail != avail && p.pending != [] {
      WaitingShrinks(avail, p.rx.lastAvail);
      ReceiveOnePops(p, header);
      var t := ReceiveOne(p, header);
      if t.completed {
        hide ReceiveOne;
        ReceivePops(t.port, header, avail);
        var rest := ReceiveAll(t.port, header, avail);
        AfterNext(p.rx.lastAvail, |rest.moved|);
        AfterNext(p.rx.usedIdx, |rest.moved|);
        assert Moved(t) + rest.moved + rest.port.pending == Moved(t) + (rest.moved + rest.port.pending);
      }
    }
  }

  lemma ReceiveOnePops(p: Port, header: nat)
    requires p.rx.num > 0 && p.pending != []
    ensures var t := ReceiveOne(p, header);
      && p.pending == Moved(t) + t.port.pending && t.port.tx == p.tx
      && t.port.rx == (if t.moved.Some? then Advance(p.rx) else p.rx)
      && (t.completed ==> t.moved.Some?)
  {
    hide HeadAt, HandBack, RxChain, Fill, Payload;
  }

  /** The receive buffer a turn works on, once it has passed every test up to handing it back. */
  ghost predicate Deliverable(p: Port, header: nat, head: u16, segs: seq<Segment>)
    requires p.rx.num > 0 && p.pending != []
  {
    var payload := Payload(header, p.pending[0]);
    && HeadAt(p.mem, p.rx, p.rx.lastAvail) == Some(head)
    && RxChain(p.mem, p.rx, head, |payload|) == Some(segs)
    && Fill(p.mem, segs, payload).1
  }

  /** A frame leaves the queue exactly when its bytes are in the buffer and its used element is written. */
  lemma LeavesQueueIff(p: Port, header: nat)
    requires p.rx.num > 0 && p.pending != []
    ensures var t := ReceiveOne(p, header); var payload := Payload(header, p.pending[0]);
      t.moved.Some? <==>
      exists head, segs :: Deliverable(p, header, head, segs)
        && WriteUsed(Fill(p.mem, segs, payload).0, p.rx, head, |payload| % TWO32).1
  {
    hide HeadAt, WriteUsed, RxChain, Fill, Payload, WriteWord;
    var payload := Payload(header, p.pending[0]);
    if HeadAt(p.mem, p.rx, p.rx.lastAvail).Some? {
      var head := HeadAt(p.mem, p.rx, p.rx.lastAvail).value;
      if RxChain(p.mem, p.rx, head, |payload|).Some? {
        var segs := RxChain(p.mem, p.rx, head, |payload|).value;
        assert Deliverable(p, header, head, segs) <==> Fill(p.mem, segs, payload).1;
      }
    }
  }

  /** A chain with too little room is left for later: frame, ring position and memory stay as they are. */
  lemma TooSmallChainWaits(p: Port, header: nat, head: u16)
    requires p.rx.num > 0 && p.pending != []
    requires HeadAt(p.mem, p.rx, p.rx.lastAvail) == Some(head)
    requires Chain(p.mem, p.rx, head).Some?
    requires TotalLen(Chain(p.mem, p.rx, head).value) < header + |p.pending[0]|
    ensures ReceiveOne(p, header) == Turn(p, None, false)
  {
    hide HeadAt, Chain, TotalLen, HandBack, Fill;
  }

  // ----- what the driver reads -----

  /** The frame a driver finds at a used index: it follows the element to its chain and drops the header. */
  function DriverView(m: Mem, q: Queue, index: u16, header: nat): Option<Frame>
    requires q.num > 0
  {
    match (UsedId(m, q, index), UsedLen(m, q, index))
    case (Some(id), Some(len)) =>
      if id >= TWO16 then None
      else
        (match Chain(m, q, id)
         case None => None
         case Some(segs) =>
           match Contents(m, Front(segs, len))
           case None => None
           case Some(bytes) => if |bytes| < header then None else Some(bytes[header..]))
    case _ => None
  }

  ghost predicate SegmentsOffRings(segs: seq<Segment>, q: Queue) {
    && AwayFrom(segs, q.desc, TableSize(q)) && AwayFrom(segs, q.avail, AvailSize(q))
    && AwayFrom(segs, q.used, UsedSize(q))
  }

  /** The buffer at a ring index, if it is well formed, has separate segments that keep off the rings. */
  ghost predicate PoliteBuffer(m: Mem, q: Queue, index: u16)
    requires q.num > 0
  {
    match HeadAt(m, q, index)
    case None => true
    case Some(head) =>
      match Chain(m, q, head)
      case None => true
      case Some(segs) => NonOverlapping(segs) && SegmentsOffRings(segs, q)
  }

  lemma FillKeepsRings(m: Mem, segs: seq<Segment>, data: seq<u8>, q: Queue)
    requires q.desc + TableSize(q) <= TWO64 && SegmentsOffRings(segs, q)
    ensures SameRings(m, Fill(m, segs, data).0, q) && AgreeOn(m, Fill(m, segs, data).0, q.used, UsedSize(q))
  {
    var m' := Fill(m, segs, data).0;
    FillKeeps(m, segs, data, q.avail, AvailSize(q));
    FillKeeps(m, segs, data, q.used, UsedSize(q));
    forall i: u16 | i < q.num ensures ReadDescriptor(m, q, i) == ReadDescriptor(m', q, i) {
      DescriptorRange(q, i);
      NarrowDisjoint(segs, q.desc, TableSize(q), DescAddr(q, i), DESC_SIZE);
      FillKeeps(m, segs, data, DescAddr(q, i), DESC_SIZE);
    }
  }

  /** Handing back does not disturb segments that keep off the used ring. */
  lemma HandBackKeepsContents(m: Mem, q: Queue, head: u16, len: u32, segs: seq<Segment>)
    requires q.num > 0 && InRam(m, q.used, UsedSize(q)) && AwayFrom(segs, q.used, UsedSize(q))
    ensures Contents(HandBack(m, q, head, len).mem, segs) == Contents(m, segs)
  {
    var m' := HandBack(m, q, head, len).mem;
    SlotBound(q.usedIdx, q.num);
    forall s | s in segs ensures AgreeOn(m, m', s.addr, s.len) {
      HandBackKeeps(m, q, head, len, s.addr, s.len);
    }
    ContentsAgree(m, m', segs);
  }

  lemma TableDecides(m: Mem, m': Mem, q: Queue, q': Queue, head: u16)
    requires SameRings(m, m', q) && SameLayout(q, q')
    ensures Chain(m', q', head) == Chain(m, q, head)
  {
    hide ReadDescriptor;
    forall i: u16 | i < q.num ensures ReadDescriptor(m, q, i) == ReadDescriptor(m', q', i) {
      SameTable(m', q, q', i);
    }
    WalkDependsOnTable(m, m', q, q', head, q.num);
  }

  lemma SameTable(m: Mem, q: Queue, q': Queue, i: u16)
    requires SameLayout(q, q')
    ensures ReadDescriptor(m, q, i) == ReadDescriptor(m, q', i)
  {
  }

  /** A well-placed ring and a polite buffer: the turn completes, and the driver finds precisely the frame. */
  lemma DriverFindsFrame(p: Port, header: nat, head: u16, segs: seq<Segment>)
    requires p.rx.num > 0 && p.pending != [] && header + |p.pending[0]| < TWO32
    requires WellPlaced(p.mem, p.rx) && PoliteBuffer(p.mem, p.rx, p.rx.lastAvail)
    requires Deliverable(p, header, head, segs)
    ensures var t := ReceiveOne(p, header);
      && t.completed && t.moved == Some(p.pending[0])
      && SameRings(p.mem, t.port.mem, p.rx)
      && UsedId(t.port.mem, p.rx, p.rx.usedIdx) == Some(head as nat)
      && Contents(t.port.mem, Front(segs, header + |p.pending[0]|)) == Some(Payload(header, p.pending[0]))
      && DriverView(t.port.mem, p.rx, p.rx.usedIdx, header) == Some(p.pending[0])
  {
    hide Payload, NonOverlapping, Fill, HeadAt, HandBack, Contents, AwayFrom, InRam, Disjoint, SameRings, Chain,
      UsedId, UsedLen, ReadDescriptor, Front;
    var payload := Payload(header, p.pending[0]);
    var m1 := Fill(p.mem, segs, payload).0;
    assert Chain(p.mem, p.rx, head) == Some(segs);
    FillKeepsRings(p.mem, segs, payload, p.rx);
    FillKeeps(p.mem, segs, payload, 0, 0);
    FillShows(p.mem, segs, payload);
    UsedStaysInRam(p.mem, m1, p.rx);
    PlacedStays(p.mem, m1, p.rx);
    HandBackWorks(m1, p.rx, head, |payload|);
    HandBackKeepsRings(m1, p.rx, head, |payload|);
    var m2 := HandBack(m1, p.rx, head, |payload|).mem;
    RingsTrans(p.mem, m1, m2, p.rx);
    TableDecides(p.mem, m2, p.rx, p.rx, head);
    FrontWithin(segs, |payload|, p.rx.used, UsedSize(p.rx));
    HandBackKeepsContents(m1, p.rx, head, |payload|, Front(segs, |payload|));
    assert |payload| % TWO32 == |payload|;
  }

  lemma PlacedStays(m: Mem, m': Mem, q: Queue)
    requires WellPlaced(m, q) && m'.regions == m.regions
    ensures WellPlaced(m', q)
  {
  }

  lemma RingsTrans(m: Mem, m1: Mem, m2: Mem, q: Queue)
    requires SameRings(m, m1, q) && SameRings(m1, m2, q)
    ensures SameRings(m, m2, q)
  {
    SameRingsTrans(m, m1, m2, q);
  }
}
