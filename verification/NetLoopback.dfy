/** Loopback, end to end: what the guest wrote into its transmit buffers is what its driver reads back. */
module NetLoopback {
  import opened Words
  import opened GuestMemory
  import opened Virtqueue
  import opened Rings
  import opened Transfer
  import opened NetSpec
  import opened NetTheorems
  import opened NetDelivery
  import opened NetDeviceSpec

  // ----- what the guest wrote -----

  /** The segments of the buffer at a ring index, and the bytes they hold, when all of them can be read. */
  function Offered(m: Mem, q: Queue, index: u16): Option<(seq<Segment>, seq<u8>)>
    requires q.num > 0
  {
    match BufferAt(m, q, index)
    case None => None
    case Some(segs) =>
      match Contents(m, segs)
      case None => None
      case Some(bytes) => Some((segs, bytes))
  }

  /** A read-only buffer that keeps off the used ring and holds a header of the stated size, then the frame. */
  ghost predicate Wrote(m: Mem, q: Queue, index: u16, header: nat, frame: Frame)
    requires q.num > 0
  {
    match Offered(m, q, index)
    case None => false
    case Some((segs, bytes)) =>
      && (forall s | s in segs :: !s.writable) && AwayFrom(segs, q.used, UsedSize(q))
      && |bytes| == header + |frame| && bytes[header..] == frame
  }

  /** The guest has made these frames available, in this order, each behind a header of the stated size. */
  ghost predicate WroteAll(m: Mem, q: Queue, header: nat, frames: seq<Frame>) {
    && WellPlaced(m, q)
    && forall k | 0 <= k < |frames| :: Wrote(m, q, After(q.lastAvail, k), header, frames[k])
  }

  /** The device would take the bytes at a ring index for a 12-byte header and a frame. */
  predicate Guessed(m: Mem, q: Queue, index: u16)
    requires q.num > 0
  {
    match Offered(m, q, index)
    case None => false
    case Some((segs, bytes)) => segs != [] && |bytes| >= MRG_HDR && GuessedMergeable(segs[0], bytes)
  }

  /** The size the guest uses is the size the device detects, for every frame. A guest with 12-byte headers only
      needs its first one to be recognised; one with 10-byte headers must never be mistaken for the other. */
  ghost predicate HeadersDetected(p: Port, header: nat, frames: seq<Frame>)
    requires p.tx.num > 0
  {
    if header == MRG_HDR then
      frames == [] || p.mergeable || p.headerSize == MRG_HDR || Guessed(p.mem, p.tx, p.tx.lastAvail)
    else
      forall k | 0 <= k < |frames| ::
        || NET_HDR + |frames[k]| < MRG_HDR
        || (!p.mergeable && (k > 0 || p.headerSize != MRG_HDR) && !Guessed(p.mem, p.tx, After(p.tx.lastAvail, k)))
  }

  // ----- one buffer -----

  /** What a turn takes from the next buffer: its bytes, less a header of the detected size. */
  lemma TakesWhatWasWritten(p: Port, header: nat, frame: Frame)
    requires p.tx.num > 0 && header in {NET_HDR, MRG_HDR} && Wrote(p.mem, p.tx, p.tx.lastAvail, header, frame)
    ensures NextOutgoing(p).Some?
    ensures var out := NextOutgoing(p).value; var (segs, bytes) := Offered(p.mem, p.tx, p.tx.lastAvail).value;
      && out.header == DetectTxHeaderSize(p, segs, bytes) && out.header in {NET_HDR, MRG_HDR}
      && out.header <= |bytes| && out.frame == bytes[out.header..]
      && (out.frame == frame <==> out.header == header)
      && (out.header == MRG_HDR ==> |bytes| >= MRG_HDR)
  {
    hide HeadAt, Chain, AwayFrom, GuessedMergeable;
  }

  lemma DetectedIff(p: Port, header: nat, frames: seq<Frame>)
    requires p.tx.num > 0 && header in {NET_HDR, MRG_HDR} && frames != []
    requires Wrote(p.mem, p.tx, p.tx.lastAvail, header, frames[0])
    ensures var (segs, bytes) := Offered(p.mem, p.tx, p.tx.lastAvail).value;
      DetectTxHeaderSize(p, segs, bytes) == header <==>
      if header == MRG_HDR then p.mergeable || p.headerSize == MRG_HDR || Guessed(p.mem, p.tx, p.tx.lastAvail)
      else
        || NET_HDR + |frames[0]| < MRG_HDR
        || (!p.mergeable && p.headerSize != MRG_HDR && !Guessed(p.mem, p.tx, p.tx.lastAvail))
  {
    hide BufferAt, Contents, AwayFrom, GuessedMergeable;
  }

  // ----- what transmitting leaves alone -----

  lemma TransmitOneKeeps(p: Port, loopback: bool, b: nat, k: nat)
    requires p.tx.num > 0 && InRam(p.mem, p.tx.used, UsedSize(p.tx)) && Disjoint(p.tx.used, UsedSize(p.tx), b, k)
    ensures TransmitOne(p, loopback).port.mem.regions == p.mem.regions
    ensures AgreeOn(p.mem, TransmitOne(p, loopback).port.mem, b, k)
  {
    hide NextOutgoing, HandBack, AgreeOn;
    SameBytes(p.mem, b, k);
    if NextOutgoing(p).Some? {
      var head := NextOutgoing(p).value.head;
      UsedInside(p.tx, b, k);
      HandBackWorks(p.mem, p.tx, head, 0);
      HandBackKeeps(p.mem, p.tx, head, 0, b, k);
    }
  }

  lemma SameBytes(m: Mem, b: nat, k: nat)
    ensures AgreeOn(m, m, b, k)
  {
  }

  lemma UsedInside(q: Queue, b: nat, k: nat)
    requires q.num > 0 && Disjoint(q.used, UsedSize(q), b, k)
    ensures Disjoint(q.used + 4 + 8 * Slot(q.usedIdx, q.num), 8, b, k) && Disjoint(q.used + 2, 2, b, k)
  {
    SlotBound(q.usedIdx, q.num);
  }

  /** Transmitting writes nothing but the transmit queue's used ring. */
  lemma {:induction false} TransmitKeeps(p: Port, loopback: bool, avail: u16, b: nat, k: nat)
    requires p.tx.num > 0 && InRam(p.mem, p.tx.used, UsedSize(p.tx)) && Disjoint(p.tx.used, UsedSize(p.tx), b, k)
    ensures TransmitAll(p, loopback, avail).port.mem.regions == p.mem.regions
    ensures AgreeOn(p.mem, TransmitAll(p, loopback, avail).port.mem, b, k)
    decreases Waiting(avail, p.tx.lastAvail)
  {
    hide TransmitOne, Waiting, Next, Disjoint, InRam, ReadGuest;
    if p.tx.lastAvail != avail {
      TransmitOneKeeps(p, loopback, b, k);
      var t := TransmitOne(p, loopback);
      if t.completed {
        TransmitOneTakes(p, loopback);
        WaitingShrinks(avail, p.tx.lastAvail);
        UsedStaysInRam(p.mem, t.port.mem, p.tx);
        TransmitKeeps(t.port, loopback, avail, b, k);
      }
    }
  }

  lemma TransmitOneTakes(p: Port, loopback: bool)
    requires p.tx.num > 0
    ensures var t := TransmitOne(p, loopback);
      && (t.completed ==> t.port.tx == Advance(p.tx))
      && t.port.rx == p.rx
  {
    hide NextOutgoing, WriteUsed, WriteWord;
  }

  lemma TransmitOneKeepsRings(p: Port, loopback: bool)
    requires WellPlaced(p.mem, p.tx)
    ensures SameRings(p.mem, TransmitOne(p, loopback).port.mem, p.tx)
    ensures WellPlaced(TransmitOne(p, loopback).port.mem, Advance(p.tx))
  {
    hide NextOutgoing, HandBack, SameRings, WellPlaced;
    PlacedHasSlots(p.mem, p.tx);
    RingsSame(p.mem, p.tx);
    if NextOutgoing(p).Some? { HandBackKeepsRings(p.mem, p.tx, NextOutgoing(p).value.head, 0); }
    PlacedAdvances(p.mem, TransmitOne(p, loopback).port.mem, p.tx);
  }

  /** What the guest wrote at a later index is still there after a turn. */
  lemma OfferedStays(p: Port, loopback: bool, index: u16, header: nat, frame: Frame)
    requires WellPlaced(p.mem, p.tx) && Wrote(p.mem, p.tx, index, header, frame)
    ensures Offered(TransmitOne(p, loopback).port.mem, Advance(p.tx), index) == Offered(p.mem, p.tx, index)
    ensures Wrote(TransmitOne(p, loopback).port.mem, Advance(p.tx), index, header, frame)
  {
    hide TransmitOne, BufferAt, Contents, SameRings, Disjoint, InRam;
    TransmitOneKeepsRings(p, loopback);
    var m' := TransmitOne(p, loopback).port.mem;
    BufferSame(p.mem, m', p.tx, Advance(p.tx), index);
    var segs := Offered(p.mem, p.tx, index).value.0;
    forall s | s in segs ensures AgreeOn(p.mem, m', s.addr, s.len) {
      Across(p.tx.used, UsedSize(p.tx), s.addr, s.len);
      TransmitOneKeeps(p, loopback, s.addr, s.len);
    }
    ContentsAgree(p.mem, m', segs);
  }

  lemma Across(a: nat, n: nat, b: nat, k: nat)
    ensures Disjoint(a, n, b, k) <==> Disjoint(b, k, a, n)
  {
  }

  lemma WroteStays(p: Port, loopback: bool, header: nat, frames: seq<Frame>)
    requires WroteAll(p.mem, p.tx, header, frames) && frames != []
    ensures WroteAll(TransmitOne(p, loopback).port.mem, Advance(p.tx), header, frames[1..])
    ensures var m' := TransmitOne(p, loopback).port.mem;
      forall k | 1 <= k < |frames| ::
        Guessed(m', Advance(p.tx), After(Next(p.tx.lastAvail), k - 1)) == Guessed(p.mem, p.tx, After(p.tx.lastAvail, k))
  {
    hide TransmitOne, Wrote, Offered, After, Next;
    TransmitOneKeepsRings(p, loopback);
    var m' := TransmitOne(p, loopback).port.mem;
    forall k | 1 <= k < |frames|
      ensures Wrote(m', Advance(p.tx), After(Next(p.tx.lastAvail), k - 1), header, frames[k])
      ensures Guessed(m', Advance(p.tx), After(Next(p.tx.lastAvail), k - 1))
           == Guessed(p.mem, p.tx, After(p.tx.lastAvail, k))
    {
      AfterNext(p.tx.lastAvail, k - 1);
      OfferedStays(p, loopback, After(p.tx.lastAvail, k), header, frames[k]);
    }
  }

  // ----- transmitting everything -----

  /** With a well-placed ring a written buffer is always completed. */
  lemma TransmitOneSends(p: Port, loopback: bool, header: nat, frame: Frame)
    requires WellPlaced(p.mem, p.tx) && header in {NET_HDR, MRG_HDR}
    requires Wrote(p.mem, p.tx, p.tx.lastAvail, header, frame)
    ensures var t := TransmitOne(p, loopback); var out := NextOutgoing(p).value;
      && NextOutgoing(p).Some? && t.completed && t.moved == Some(out.frame)
      && t.port.tx == Advance(p.tx) && t.port.headerSize == out.header
      && t.port.mergeable == (p.mergeable || out.header == MRG_HDR)
  {
    hide NextOutgoing, WriteUsed, WriteWord, Wrote, InRam, Disjoint;
    TakesWhatWasWritten(p, header, frame);
    HandBackWorks(p.mem, p.tx, NextOutgoing(p).value.head, 0);
  }

  /** A turn on a written buffer keeps the rest detectable exactly when it detects its own. */
  lemma DetectionCarries(p: Port, loopback: bool, header: nat, frames: seq<Frame>)
    requires header in {NET_HDR, MRG_HDR} && frames != [] && WroteAll(p.mem, p.tx, header, frames)
    ensures Wrote(p.mem, p.tx, p.tx.lastAvail, header, frames[0]) && NextOutgoing(p).Some?
    ensures var out := NextOutgoing(p).value; var p1 := TransmitOne(p, loopback).port;
      HeadersDetected(p, header, frames) <==> out.header == header && HeadersDetected(p1, header, frames[1..])
  {
    hide Wrote, Offered, NextOutgoing, TransmitOne, After, Guessed, DetectTxHeaderSize, Next;
    AfterZero(p.tx.lastAvail);
    assert Wrote(p.mem, p.tx, After(p.tx.lastAvail, 0), header, frames[0]);
    WroteStays(p, loopback, header, frames);
    TakesWhatWasWritten(p, header, frames[0]);
    TransmitOneSends(p, loopback, header, frames[0]);
    DetectedIff(p, header, frames);
    var p1 := TransmitOne(p, loopback).port;
    if header == NET_HDR {
      var rest := frames[1..];
      assert forall k | 0 <= k < |rest| :: rest[k] == frames[k + 1];
      assert forall k | 0 <= k < |rest| ::
          Guessed(p1.mem, p1.tx, After(p1.tx.lastAvail, k)) == Guessed(p.mem, p.tx, After(p.tx.lastAvail, k + 1));
    }
  }

  /** Every waiting buffer is sent, once and in order; what is sent is what the guest wrote, in the memory as it
      stood, exactly when its header size is detected. */
  lemma {:induction false} TransmitSends(p: Port, loopback: bool, avail: u16, header: nat, frames: seq<Frame>)
    requires header in {NET_HDR, MRG_HDR} && WroteAll(p.mem, p.tx, header, frames)
    requires |frames| == Waiting(avail, p.tx.lastAvail)
    ensures var run := TransmitAll(p, loopback, avail);
      && |run.moved| == |frames|
      && (run.moved == frames <==> HeadersDetected(p, header, frames))
      && (HeadersDetected(p, header, frames) && frames != [] ==>
            run.port.headerSize == header && run.port.mergeable == (p.mergeable || header == MRG_HDR))
      && (frames == [] ==> run.port == p)
    decreases |frames|
  {
    hide Wrote, Offered, NextOutgoing, TransmitOne, Waiting, After, Next, WellPlaced, Guessed, HeadersDetected;
    PlacedHasSlots(p.mem, p.tx);
    WaitingNone(avail, p.tx.lastAvail);
    NothingToDetect(p, header);
    if frames != [] {
      DetectionCarries(p, loopback, header, frames);
      TransmitOneSends(p, loopback, header, frames[0]);
      TakesWhatWasWritten(p, header, frames[0]);
      WroteStays(p, loopback, header, frames);
      WaitingShrinks(avail, p.tx.lastAvail);
      var t := TransmitOne(p, loopback);
      TransmitSends(t.port, loopback, avail, header, frames[1..]);
      assert frames == [frames[0]] + frames[1..];
    }
  }

  lemma PlacedHasSlots(m: Mem, q: Queue)
    requires WellPlaced(m, q)
    ensures q.num > 0
  {
  }

  lemma NothingToDetect(p: Port, header: nat)
    ensures p.tx.num > 0 ==> HeadersDetected(p, header, [])
  {
  }

  // ----- receiving everything -----

  /** The buffer at a ring index is writable RAM throughout and holds that many bytes. */
  ghost predicate HasRoom(m: Mem, q: Queue, index: u16, size: nat)
    requires q.num > 0
  {
    match BufferAt(m, q, index)
    case None => false
    case Some(segs) => (forall s | s in segs :: s.writable) && Reachable(m, segs) && size <= TotalLen(segs)
  }

  /** Each of the first frames has a buffer large enough for it and its header. */
  ghost predicate RoomForAll(p: Port, header: nat, n: nat)
    requires p.rx.num > 0
  {
    forall k | 0 <= k < n && k < |p.pending| ::
      HasRoom(p.mem, p.rx, After(p.rx.lastAvail, k), header + |p.pending[k]|)
  }

  lemma {:induction false} FrontReachable(m: Mem, segs: seq<Segment>, n: nat)
    requires Reachable(m, segs)
    ensures Reachable(m, Front(segs, n))
    decreases |segs|
  {
    if n > 0 && segs != [] {
      SplitSegments(segs);
      assert segs[0] in segs;
      var chunk := Min(segs[0].len, n);
      ReadPart(m, segs[0].addr, segs[0].len, 0, chunk);
      FrontReachable(m, segs[1..], n - chunk);
      FrontSteps(segs, n);
      SplitSegments(Front(segs, n));
    }
  }

  /** A turn on such a buffer completes it. */
  lemma ReceiveOneCompletes(p: Port, header: nat)
    requires p.rx.num > 0 && p.pending != []
    requires WellPlaced(p.mem, p.rx) && PoliteBuffer(p.mem, p.rx, p.rx.lastAvail)
    requires HasRoom(p.mem, p.rx, p.rx.lastAvail, header + |p.pending[0]|)
    ensures ReceiveOne(p, header).completed
  {
    hide HeadAt, Chain, Fill, HandBack, PoliteBuffer, WellPlaced, TotalLen, Payload, Reachable, SegmentsOffRings;
    var payload := Payload(header, p.pending[0]);
    var head := HeadAt(p.mem, p.rx, p.rx.lastAvail).value;
    var segs := BufferAt(p.mem, p.rx, p.rx.lastAvail).value;
    assert RxChain(p.mem, p.rx, head, |payload|) == Some(segs);
    CurrentBuffer(p, |payload|);
    FrontReachable(p.mem, segs, |payload|);
    FillOkIff(p.mem, segs, payload);
    AfterFill(p.mem, segs, payload, p.rx);
    PlacedHandsBack(Fill(p.mem, segs, payload).0, p.rx, head, |payload| % TWO32);
  }

  lemma RoomStays(p: Port, header: nat, n: nat)
    requires p.rx.num > 0 && p.pending != [] && Courteous(p.mem, p.rx, n + 1) && RoomForAll(p, header, n + 1)
    requires ReceiveOne(p, header).completed
    ensures var p1 := ReceiveOne(p, header).port; p1.rx.num > 0 && RoomForAll(p1, header, n)
  {
    hide ReceiveOne, BufferAt, After, Next, TotalLen, SameRings, PoliteBuffer, HasRoom, Apart, HeadAt;
    AfterZero(p.rx.lastAvail);
    assert PoliteBuffer(p.mem, p.rx, After(p.rx.lastAvail, 0));
    ReceiveOneKeepsRings(p, header);
    ReceiveOnePops(p, header);
    var p1 := ReceiveOne(p, header).port;
    forall k | 0 <= k < n && k < |p1.pending|
      ensures HasRoom(p1.mem, p1.rx, After(p1.rx.lastAvail, k), header + |p1.pending[k]|)
    {
      AfterNext(p.rx.lastAvail, k);
      assert p1.pending[k] == p.pending[k + 1];
      assert HasRoom(p.mem, p.rx, After(p.rx.lastAvail, k + 1), header + |p.pending[k + 1]|);
      RoomSame(p.mem, p1.mem, p.rx, p1.rx, After(p.rx.lastAvail, k + 1), header + |p.pending[k + 1]|);
    }
  }

  lemma RoomSame(m: Mem, m': Mem, q: Queue, q': Queue, index: u16, size: nat)
    requires WellPlaced(m, q) && SameRings(m, m', q) && SameLayout(q, q')
    ensures HasRoom(m', q', index, size) == HasRoom(m, q, index, size)
  {
    hide BufferAt, TotalLen;
    BufferSame(m, m', q, q', index);
    assert forall s: Segment :: InRam(m', s.addr, s.len) == InRam(m, s.addr, s.len);
  }

  /** With room for them, as many frames are received as there are frames waiting and buffers offered. */
  lemma {:induction false} ReceivesAll(p: Port, header: nat, avail: u16)
    requires p.rx.num > 0 && Courteous(p.mem, p.rx, Waiting(avail, p.rx.lastAvail))
    requires RoomForAll(p, header, Waiting(avail, p.rx.lastAvail))
    ensures |ReceiveAll(p, header, avail).moved| == Min(|p.pending|, Waiting(avail, p.rx.lastAvail))
    decreases Waiting(avail, p.rx.lastAvail)
  {
    hide ReceiveOne, Waiting, After, Next, HasRoom, PoliteBuffer, BufferAt, Apart, SameRings, HeadAt, InRam, Disjoint;
    WaitingNone(avail, p.rx.lastAvail);
    if p.rx.lastAvail != avail && p.pending != [] {
      var n := Waiting(avail, p.rx.lastAvail) - 1;
      WaitingShrinks(avail, p.rx.lastAvail);
      AfterZero(p.rx.lastAvail);
      assert PoliteBuffer(p.mem, p.rx, After(p.rx.lastAvail, 0));
      assert HasRoom(p.mem, p.rx, After(p.rx.lastAvail, 0), header + |p.pending[0]|);
      ReceiveOneCompletes(p, header);
      ReceiveOneKeepsRings(p, header);
      ReceiveOnePops(p, header);
      var p1 := ReceiveOne(p, header).port;
      CourtesyCarries(p.mem, p1.mem, p.rx, n);
      RoomStays(p, header, n);
      ReceivesAll(p1, header, avail);
    }
  }

  // ----- both together -----

  /** Transmitting cannot disturb the receive queue: its used ring keeps off the other queue's table and rings. */
  ghost predicate KeepsOff(tx: Queue, rx: Queue) {
    && Disjoint(tx.used, UsedSize(tx), rx.desc, TableSize(rx))
    && Disjoint(tx.used, UsedSize(tx), rx.avail, AvailSize(rx))
  }

  lemma TransmitKeepsRx(p: Port, loopback: bool, avail: u16)
    requires WellPlaced(p.mem, p.tx) && WellPlaced(p.mem, p.rx) && KeepsOff(p.tx, p.rx)
    ensures SameRings(p.mem, TransmitAll(p, loopback, avail).port.mem, p.rx)
  {
    hide TransmitAll, InRam, Disjoint;
    var m' := TransmitAll(p, loopback, avail).port.mem;
    TransmitKeeps(p, loopback, avail, p.rx.avail, AvailSize(p.rx));
    forall i: u16 | i < p.rx.num ensures ReadDescriptor(p.mem, p.rx, i) == ReadDescriptor(m', p.rx, i) {
      DescriptorRange(p.rx, i);
      NarrowRange(p.tx.used, UsedSize(p.tx), p.rx.desc, TableSize(p.rx), DescAddr(p.rx, i), DESC_SIZE);
      TransmitKeeps(p, loopback, avail, DescAddr(p.rx, i), DESC_SIZE);
    }
  }

  lemma NarrowRange(a: nat, n: nat, b: nat, k: nat, b': nat, k': nat)
    requires Disjoint(a, n, b, k) && b <= b' && b' + k' <= b + k
    ensures Disjoint(a, n, b', k')
  {
  }

  lemma CourtesySame(m: Mem, m': Mem, q: Queue, n: nat)
    requires Courteous(m, q, n) && SameRings(m, m', q)
    ensures Courteous(m', q, n)
  {
    hide PoliteBuffer, BufferAt, After, Apart, SameRings, HeadAt;
    PlacedStays(m, m', q) by { RegionsSame(m, m', q); }
    forall k | 0 <= k < n
      ensures BufferAt(m', q, After(q.lastAvail, k)) == BufferAt(m, q, After(q.lastAvail, k))
      ensures PoliteBuffer(m', q, After(q.lastAvail, k))
    {
      BufferSame(m, m', q, q, After(q.lastAvail, k));
    }
  }

  lemma RegionsSame(m: Mem, m': Mem, q: Queue)
    requires SameRings(m, m', q)
    ensures m'.regions == m.regions
  {
  }

  /** Buffers of distinct indices have distinct slots when there are no more of them than slots. */
  lemma SlotsApart(used: u16, num: u32, k: nat, j: nat)
    requires 0 < num <= QUEUE_SIZE && TWO16 % num == 0 && k < j < num
    ensures Slot(After(used, k), num) != Slot(After(used, j), num)
  {
    hide Slot, After;
    SlotsConsecutiveIff(num);
    SlotAfter(used, k, num);
    SlotAfter(used, j, num);
    SlotBound(used, num);
    ShiftedApart(Slot(used, num), k, j, num);
  }

  /** The setting of one transmit notification in loopback: frames written by the guest behind headers that the
      device detects, and a courteous receive queue with room for everything that will wait. */
  ghost predicate LoopbackReady(n: Net, header: nat, frames: seq<Frame>) {
    var p := n.port;
    && n.present && n.loopback && Operational(p.tx) && Operational(p.rx)
    && header in {NET_HDR, MRG_HDR} && (header == NET_HDR ==> !p.mergeable)
    && WroteAll(p.mem, p.tx, header, frames) && HeadersDetected(p, header, frames)
    && AvailIdx(p.mem, p.tx).Some? && |frames| == Waiting(AvailIdx(p.mem, p.tx).value, p.tx.lastAvail)
    && KeepsOff(p.tx, p.rx)
    && AvailIdx(p.mem, p.rx).Some?
    && var offered := Waiting(AvailIdx(p.mem, p.rx).value, p.rx.lastAvail);
    && Courteous(p.mem, p.rx, offered)
    && |p.pending| + |frames| <= offered <= p.rx.num <= QUEUE_SIZE && TWO16 % p.rx.num == 0
    && RoomForAll(p.(pending := p.pending + frames), header, offered)
    && forall f | f in p.pending + frames :: header + |f| < TWO32
  }

  /** After transmitting, the receive queue is as it was, and everything waits in order behind a known header. */
  lemma AfterTransmit(n: Net, header: nat, frames: seq<Frame>)
    requires LoopbackReady(n, header, frames) && frames != []
    ensures var p := n.port; var run := ProcessTx(p, true);
      && run.moved == frames && run.port.pending == p.pending + frames && run.port.rx == p.rx
      && ActiveHeaderSize(run.port) == header
      && SameRings(p.mem, run.port.mem, p.rx)
  {
    hide TransmitAll, WroteAll, HeadersDetected, Courteous, RoomForAll, KeepsOff, AvailIdx, Waiting, WellPlaced;
    var p := n.port;
    var avail := AvailIdx(p.mem, p.tx).value;
    WroteIsPlaced(p.mem, p.tx, header, frames);
    CourteousIsPlaced(p.mem, p.rx, Waiting(AvailIdx(p.mem, p.rx).value, p.rx.lastAvail));
    TransmitSends(p, true, avail, header, frames);
    TransmitAppends(p, true, avail);
    TransmitKeepsRx(p, true, avail);
  }

  lemma WroteIsPlaced(m: Mem, q: Queue, header: nat, frames: seq<Frame>)
    requires WroteAll(m, q, header, frames)
    ensures WellPlaced(m, q)
  {
  }

  lemma CourteousIsPlaced(m: Mem, q: Queue, n: nat)
    requires Courteous(m, q, n)
    ensures WellPlaced(m, q)
  {
  }

  /** Loopback delivers: one notification of the transmit queue, and at its k-th new used index the driver reads
      the k-th frame, byte for byte what the guest wrote behind its header; each frame once, and none left over. */
  lemma LoopbackDelivers(n: Net, header: nat, frames: seq<Frame>)
    requires LoopbackReady(n, header, frames) && frames != []
    ensures var step := Notified(n, QUEUE_TX); var all := n.port.pending + frames; var rx := n.port.rx;
      && step.sent == frames && step.delivered == all && step.net.port.pending == []
      && step.net.port.rx.usedIdx == After(rx.usedIdx, |all|)
      && forall k | 0 <= k < |all| ::
           DriverView(step.net.port.mem, rx, After(rx.usedIdx, k), header) == Some(all[k])
  {
    hide LoopbackReady, ProcessTx, Courteous, RoomForAll, Waiting, AvailIdx, After, Slot, DriverView, ReceiveAll,
      SameRings;
    AfterTransmit(n, header, frames);
    var p := n.port;
    var p1 := ProcessTx(p, true).port;
    ReadyToReceive(n, header, frames, p1);
    var avail := AvailIdx(p1.mem, p1.rx).value;
    ReceivesAll(p1, header, avail);
    ReceivePops(p1, header, avail);
    var run := ReceiveAll(p1, header, avail);
    assert |run.moved| == |p1.pending| && run.port.pending == [];
    assert run.moved + [] == run.moved;
    forall k | 0 <= k < |p1.pending|
      ensures DriverView(run.port.mem, p1.rx, After(p1.rx.usedIdx, k), header) == Some(p1.pending[k])
    {
      forall j | k < j < Waiting(avail, p1.rx.lastAvail)
        ensures Slot(After(p1.rx.usedIdx, k), p1.rx.num) != Slot(After(p1.rx.usedIdx, j), p1.rx.num)
      {
        SlotsApart(p1.rx.usedIdx, p1.rx.num, k, j);
      }
      DriverFindsAll(p1, header, avail, k);
    }
  }

  /** The receive half of the setting, restated for the state after transmitting. */
  lemma ReadyToReceive(n: Net, header: nat, frames: seq<Frame>, p1: Port)
    requires LoopbackReady(n, header, frames)
    requires p1.pending == n.port.pending + frames && p1.rx == n.port.rx && SameRings(n.port.mem, p1.mem, p1.rx)
    ensures n.present && n.loopback && Operational(p1.rx) && AvailIdx(p1.mem, p1.rx).Some?
    ensures var offered := Waiting(AvailIdx(p1.mem, p1.rx).value, p1.rx.lastAvail);
      && Courteous(p1.mem, p1.rx, offered) && RoomForAll(p1, header, offered)
      && |p1.pending| <= offered <= p1.rx.num <= QUEUE_SIZE && TWO16 % p1.rx.num == 0
    ensures forall f | f in p1.pending :: header + |f| < TWO32
  {
    hide WroteAll, HeadersDetected, HasRoom, BufferAt, PoliteBuffer, After, Apart, Waiting, SameRings, AvailIdx,
      Operational, HeadAt, InRam, Disjoint;
    var p := n.port;
    var offered := Waiting(AvailIdx(p.mem, p.rx).value, p.rx.lastAvail);
    HeadsAgree(p.mem, p1.mem, p.rx, 0) by { RingPartsSame(p.mem, p1.mem, p.rx); }
    CourtesySame(p.mem, p1.mem, p.rx, offered);
    forall k | 0 <= k < offered && k < |p1.pending|
      ensures HasRoom(p1.mem, p1.rx, After(p1.rx.lastAvail, k), header + |p1.pending[k]|)
    {
      RoomSame(p.mem, p1.mem, p.rx, p1.rx, After(p.rx.lastAvail, k), header + |p1.pending[k]|);
    }
  }

  lemma RingPartsSame(m: Mem, m': Mem, q: Queue)
    requires SameRings(m, m', q)
    ensures AgreeOn(m, m', q.avail, AvailSize(q))
  {
  }
}
