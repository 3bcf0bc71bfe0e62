/** What one notification delivers: the image, every request's buffers and status byte, and what a later read returns. */
module BlkDelivery {
  import opened Words
  import opened GuestMemory
  import opened Virtqueue
  import opened Transfer
  import opened Rings
  import opened BlkSpec
  import opened BlkTheorems
  import opened BlkQueue

  // ----- a request looks only at its own buffers -----

  lemma StoreAgrees(m: Mem, m': Mem, a: nat, data: seq<u8>, b: nat, k: nat)
    requires m'.regions == m.regions && InRam(m, a, |data|) && AgreeOn(m, m', b, k)
    ensures AgreeOn(Store(m, a, data), Store(m', a, data), b, k)
  {
    var s, s' := Store(m, a, data), Store(m', a, data);
    if InRam(m, b, k) && k > 0 {
      assert InRam(m', b, k) && InRam(s, b, k) && InRam(s', b, k);
      forall i | b <= i < b + k ensures s.bytes[i] == s'.bytes[i] {
        assert m.bytes[b..b + k][i - b] == m'.bytes[b..b + k][i - b];
      }
      assert s.bytes[b..b + k] == s'.bytes[b..b + k];
    }
  }

  lemma {:induction false} ScatterAgrees(m: Mem, m': Mem, segs: seq<Segment>, data: seq<u8>, b: nat, k: nat)
    requires m'.regions == m.regions && |data| == TotalLen(segs) && AgreeOn(m, m', b, k)
    ensures Scatter(m', segs, data).1 == Scatter(m, segs, data).1
    ensures Scatter(m, segs, data).0.regions == Scatter(m', segs, data).0.regions == m.regions
    ensures AgreeOn(Scatter(m, segs, data).0, Scatter(m', segs, data).0, b, k)
    decreases |segs|
  {
    if segs != [] && segs[0].writable && InRam(m, segs[0].addr, segs[0].len) {
      var front := data[..segs[0].len];
      StoreAgrees(m, m', segs[0].addr, front, b, k);
      assert InRam(m', segs[0].addr, segs[0].len);
      ScatterAgrees(Store(m, segs[0].addr, front), Store(m', segs[0].addr, front), segs[1..], data[segs[0].len..], b, k);
    }
  }

  lemma {:induction false} ScatterIdAgrees(m: Mem, m': Mem, segs: seq<Segment>, data: seq<u8>, b: nat, k: nat)
    requires m'.regions == m.regions && AgreeOn(m, m', b, k)
    ensures ScatterId(m', segs, data).1 == ScatterId(m, segs, data).1
    ensures ScatterId(m, segs, data).0.regions == ScatterId(m', segs, data).0.regions == m.regions
    ensures AgreeOn(ScatterId(m, segs, data).0, ScatterId(m', segs, data).0, b, k)
    decreases |segs|
  {
    if segs != [] && segs[0].writable {
      var chunk := Min(segs[0].len, |data|);
      if chunk != 0 && InRam(m, segs[0].addr, chunk) {
        var front := data[..chunk];
        StoreAgrees(m, m', segs[0].addr, front, b, k);
        assert InRam(m', segs[0].addr, chunk);
        ScatterIdAgrees(Store(m, segs[0].addr, front), Store(m', segs[0].addr, front), segs[1..], data[chunk..], b, k);
      }
    }
  }

  lemma {:induction false} GatherAgrees(m: Mem, m': Mem, segs: seq<Segment>, image: seq<u8>, off: nat)
    requires off + TotalLen(segs) <= |image| && forall s | s in segs :: AgreeOn(m, m', s.addr, s.len)
    ensures Gather(m, segs, image, off) == Gather(m', segs, image, off)
    decreases |segs|
  {
    if segs != [] {
      SplitSegments(segs);
      assert AgreeOn(m, m', segs[0].addr, segs[0].len);
      if !segs[0].writable && InRam(m, segs[0].addr, segs[0].len) {
        var bs := ReadGuest(m, segs[0].addr, segs[0].len).value;
        GatherAgrees(m, m', segs[1..], image[..off] + bs + image[off + |bs|..], off + segs[0].len);
      }
    }
  }

  /** The outcomes are the same but for the rest of memory, and agree on the stated range. */
  ghost predicate SameOutcome(o: Outcome, o': Outcome, b: nat, k: nat) {
    && o'.image == o.image && o'.len == o.len && o'.answered == o.answered && o'.status == o.status
    && AgreeOn(o.mem, o'.mem, b, k)
  }

  lemma FinishAgrees(m: Mem, m': Mem, image: seq<u8>, r: Request, len: u32, status: u8, b: nat, k: nat)
    requires m'.regions == m.regions && AgreeOn(m, m', b, k)
    ensures SameOutcome(Finish(m, image, r, len, status), Finish(m', image, r, len, status), b, k)
  {
    assert InRam(m, r.statusAddr, 1) == InRam(m', r.statusAddr, 1);
    if InRam(m, r.statusAddr, 1) { StoreAgrees(m, m', r.statusAddr, [status], b, k); }
  }

  lemma ExecuteAgrees(m: Mem, m': Mem, image: seq<u8>, r: Request, b: nat, k: nat)
    requires m'.regions == m.regions && AgreeOn(m, m', b, k)
    requires r.kind == REQ_OUT ==> forall s | s in r.data :: AgreeOn(m, m', s.addr, s.len)
    ensures SameOutcome(Execute(m, image, r), Execute(m', image, r), b, k)
  {
    hide SameOutcome, Finish, Scatter, ScatterId, Gather, AgreeOn, TotalLen, ImageOffset;
    var total, off := TotalLen(r.data), ImageOffset(r.sector);
    var inside := InImage(image, r.sector, total);
    if r.kind == REQ_IN && inside {
      var data := image[off..off + total];
      ScatterAgrees(m, m', r.data, data, b, k);
      var m1, m1' := Scatter(m, r.data, data).0, Scatter(m', r.data, data).0;
      FinishAgrees(m1, m1', image, r, (total + 1) % TWO32, STATUS_OK, b, k);
      FinishAgrees(m1, m1', image, r, 0, STATUS_IOERR, b, k);
    } else if r.kind == REQ_OUT && inside {
      GatherAgrees(m, m', r.data, image, off);
      var image1 := Gather(m, r.data, image, off).0;
      FinishAgrees(m, m', image1, r, 1, STATUS_OK, b, k);
      FinishAgrees(m, m', image1, r, 0, STATUS_IOERR, b, k);
    } else if r.kind == REQ_GET_ID && r.data != [] {
      ScatterIdAgrees(m, m', r.data, DEVICE_ID, b, k);
      var m1, m1' := ScatterId(m, r.data, DEVICE_ID).0, ScatterId(m', r.data, DEVICE_ID).0;
      FinishAgrees(m1, m1', image, r, ID_SIZE + 1, STATUS_OK, b, k);
      FinishAgrees(m1, m1', image, r, 0, STATUS_IOERR, b, k);
    } else {
      FinishAgrees(m, m', image, r, 0, STATUS_IOERR, b, k);
      FinishAgrees(m, m', image, r, 1, STATUS_OK, b, k);
      FinishAgrees(m, m', image, r, 1, STATUS_UNSUPPORTED, b, k);
    }
  }

  /** What a request may write: its status byte, and its buffers if it is one that delivers data. */
  function Outputs(r: Request): seq<Segment> {
    (if r.kind == REQ_IN || r.kind == REQ_GET_ID then r.data else []) + [Segment(r.statusAddr, 1, true)]
  }

  lemma OutsideOutputs(m: Mem, image: seq<u8>, r: Request, b: nat, k: nat)
    requires AwayFrom(Outputs(r), b, k)
    ensures AgreeOn(m, Execute(m, image, r).mem, b, k)
  {
    var outs := Outputs(r);
    assert outs[|outs| - 1] == Segment(r.statusAddr, 1, true);
    if r.kind == REQ_IN || r.kind == REQ_GET_ID {
      forall s | s in r.data ensures Disjoint(s.addr, s.len, b, k) { assert s in outs; }
      RequestKeeps(m, image, r, b, k);
    } else {
      FinishKeeps(m, r, b, k);
    }
  }

  // ----- the waiting requests -----

  /** The head of the j-th waiting buffer. */
  function HeadOf(m: Mem, q: Queue, j: nat): u16
    requires q.num > 0
  {
    match HeadAt(m, q, After(q.lastAvail, j)) case None => 0 case Some(head) => head
  }

  /** The request it names, if it names one. */
  function Ask(m: Mem, q: Queue, j: nat): Option<Request>
    requires q.num > 0
  {
    Parse(m, q, HeadOf(m, q, j))
  }

  function HeaderOf(m: Mem, q: Queue, j: nat): nat
    requires q.num > 0
  {
    match ReadDescriptor(m, q, HeadOf(m, q, j)) case None => 0 case Some(d) => d.addr
  }

  /** What the j-th request would do to memory m and the image. */
  function OutcomeOf(m: Mem, image: seq<u8>, q: Queue, j: nat): (o: Outcome)
    requires q.num > 0
    ensures |o.image| == |image|
  {
    Process(m, image, q, HeadOf(m, q, j))
  }

  /** The image after the first k waiting requests, each performed on memory m. */
  function ImageAfter(m: Mem, image: seq<u8>, q: Queue, k: nat): (r: seq<u8>)
    requires q.num > 0
    ensures |r| == |image|
  {
    if k == 0 then image else OutcomeOf(m, ImageAfter(m, image, q, k - 1), q, k - 1).image
  }

  function Buffers(r: Request): seq<Segment> { r.data + [Segment(r.statusAddr, 1, true)] }

  /** What request j writes lies apart from the header, the buffers and the status byte of request k. */
  ghost predicate Apart(m: Mem, q: Queue, j: nat, k: nat)
    requires q.num > 0
  {
    Ask(m, q, j).Some? && Ask(m, q, k).Some? ==>
      && AwayFrom(Outputs(Ask(m, q, j).value), HeaderOf(m, q, k), HEADER)
      && forall s | s in Buffers(Ask(m, q, k).value) :: AwayFrom(Outputs(Ask(m, q, j).value), s.addr, s.len)
  }

  ghost predicate HeaderOffUsed(m: Mem, q: Queue, k: nat)
    requires q.num > 0
  {
    Ask(m, q, k).Some? ==> Disjoint(q.used, UsedSize(q), HeaderOf(m, q, k), HEADER)
  }

  /** An orderly queue whose next n requests keep apart from one another. */
  ghost predicate Tidy(m: Mem, q: Queue, n: nat) {
    && Orderly(m, q, n)
    && (forall k | 0 <= k < n :: HeaderOffUsed(m, q, k))
    && forall j, k | 0 <= j < n && 0 <= k < n && j != k :: Apart(m, q, j, k)
  }

  // ----- one turn leaves the other requests alone -----

  lemma ParseAlike(m: Mem, m': Mem, q: Queue, head: u16)
    requires SameRings(m, m', q)
    requires Parse(m, q, head).Some? ==> AgreeOn(m, m', ReadDescriptor(m, q, head).value.addr, HEADER)
    ensures Parse(m', q, head) == Parse(m, q, head)
  {
    hide Chain, RequestOf;
    ParseSame(m, m', q, q, head);
    if Parse(m, q, head).Some? {
      assert ReadDescriptor(m, q, head) == ReadDescriptor(m', q, head);
      ChainSame(m, m', q, ReadDescriptor(m, q, head).value.next);
    }
  }

  lemma ChainSame(m: Mem, m': Mem, q: Queue, head: u16)
    requires SameRings(m, m', q)
    ensures Chain(m', q, head) == Chain(m, q, head)
  {
    WalkDependsOnTable(m, m', q, q, head, q.num);
  }

  lemma ParseLayout(m: Mem, q: Queue, q': Queue, head: u16)
    requires SameLayout(q, q')
    ensures Parse(m, q', head) == Parse(m, q, head) && ReadDescriptor(m, q', head) == ReadDescriptor(m, q, head)
  {
    hide RequestOf;
    assert forall i: u16 | i < q.num :: ReadDescriptor(m, q, i) == ReadDescriptor(m, q', i);
    if head < q.num && ReadDescriptor(m, q, head).Some? {
      WalkDependsOnTable(m, m, q, q', ReadDescriptor(m, q, head).value.next, q.num);
    }
  }

  lemma AgreeTwice(m: Mem, m1: Mem, m2: Mem, b: nat, k: nat)
    requires AgreeOn(m, m1, b, k) && AgreeOn(m1, m2, b, k)
    ensures AgreeOn(m, m2, b, k)
  {
  }

  /** A turn leaves alone what its request does not write and the used ring does not cover. */
  lemma TurnKeeps(d: Disk, n: nat, b: nat, k: nat)
    requires Orderly(d.mem, d.q, n + 1) && Disjoint(d.q.used, UsedSize(d.q), b, k)
    requires Ask(d.mem, d.q, 0).Some? ==> AwayFrom(Outputs(Ask(d.mem, d.q, 0).value), b, k)
    ensures AgreeOn(d.mem, ServeOne(d).disk.mem, b, k)
  {
    hide Process, Parse, HandBack, ReadDescriptor, Slot, Execute, AgreeOn, Outputs, AwayFrom, HeadAt, UsedIdx, UsedId, UsedLen;
    var m, q := d.mem, d.q;
    AfterZero(q.lastAvail);
    ServeOneCompletes(d, n);
    var o := OutcomeOf(m, d.image, q, 0);
    OutcomeKeeps(m, d.image, q, 0, b, k);
    assert Polite(m, q, After(q.lastAvail, 0));
    ProcessKeepsRings(m, d.image, q, q.lastAvail);
    SlotBound(q.usedIdx, q.num);
    UsedParts(q, b, k);
    assert InRam(o.mem, q.used, UsedSize(q));
    HandBackKeeps(o.mem, q, HeadOf(m, q, 0), o.len, b, k);
    AgreeTwice(m, o.mem, HandBack(o.mem, q, HeadOf(m, q, 0), o.len).mem, b, k);
  }

  lemma UsedParts(q: Queue, b: nat, k: nat)
    requires q.num > 0 && Disjoint(q.used, UsedSize(q), b, k)
    ensures Disjoint(q.used + 4 + 8 * Slot(q.usedIdx, q.num), 8, b, k) && Disjoint(q.used + 2, 2, b, k)
  {
    SlotBound(q.usedIdx, q.num);
  }

  lemma OutcomeKeeps(m: Mem, image: seq<u8>, q: Queue, j: nat, b: nat, k: nat)
    requires q.num > 0
    requires Ask(m, q, j).Some? ==> AwayFrom(Outputs(Ask(m, q, j).value), b, k)
    ensures AgreeOn(m, OutcomeOf(m, image, q, j).mem, b, k)
  {
    hide Parse, Execute, Outputs, AwayFrom, HeadOf;
    if Ask(m, q, j).Some? { OutsideOutputs(m, image, Ask(m, q, j).value, b, k); }
  }

  /** Request j of one state is request j' of the other, with the same bytes in its header and its buffers. */
  ghost predicate Alike(m: Mem, m': Mem, q: Queue, q': Queue, j: nat, j': nat)
    requires q.num > 0 && q'.num > 0
  {
    && m'.regions == m.regions
    && HeadOf(m', q', j') == HeadOf(m, q, j) && Ask(m', q', j') == Ask(m, q, j)
    && (Ask(m, q, j).Some? ==>
          && HeaderOf(m', q', j') == HeaderOf(m, q, j)
          && forall s | s in Buffers(Ask(m, q, j).value) :: AgreeOn(m, m', s.addr, s.len))
  }

  /** The buffers of a polite request lie off the used ring. */
  lemma BuffersOffUsed(m: Mem, q: Queue, n: nat, k: nat)
    requires Orderly(m, q, n) && k < n && Ask(m, q, k).Some?
    ensures forall s | s in Buffers(Ask(m, q, k).value) :: Disjoint(q.used, UsedSize(q), s.addr, s.len)
  {
    hide Parse, Slot, After, WellPlaced;
    WellPlacedRings(m, q);
    assert Polite(m, q, After(q.lastAvail, k));
    HeadReadable(m, q, After(q.lastAvail, k));
  }

  lemma WellPlacedRings(m: Mem, q: Queue)
    requires WellPlaced(m, q)
    ensures q.num > 0 && InRam(m, q.avail, AvailSize(q)) && InRam(m, q.used, UsedSize(q))
  {
  }

  lemma ShiftedHead(m: Mem, q: Queue, j: nat)
    requires q.num > 0
    ensures HeadOf(m, Advance(q), j) == HeadOf(m, q, j + 1)
    ensures Ask(m, Advance(q), j) == Ask(m, q, j + 1) && HeaderOf(m, Advance(q), j) == HeaderOf(m, q, j + 1)
  {
    hide Slot, After, Next, Parse, ReadDescriptor;
    AfterNext(q.lastAvail, j);
    LayoutDecides(m, q, Advance(q), After(q.lastAvail, j + 1), Entry(0, 0));
    ParseLayout(m, q, Advance(q), HeadOf(m, q, j + 1));
  }

  lemma SameHead(m: Mem, m': Mem, q: Queue, j: nat)
    requires SameRings(m, m', q) && q.num > 0 && InRam(m, q.avail, AvailSize(q))
    ensures HeadOf(m', q, j) == HeadOf(m, q, j) && HeaderOf(m', q, j) == HeaderOf(m, q, j)
  {
    hide Slot, After;
    HeadsAgree(m, m', q, After(q.lastAvail, j));
    var head := HeadOf(m, q, j);
    if head < q.num { assert ReadDescriptor(m, q, head) == ReadDescriptor(m', q, head); }
  }

  /** After a turn the later requests are as they were, one place further on. */
  lemma TurnAlike(d: Disk, n: nat, j: nat)
    requires Tidy(d.mem, d.q, n + 1) && j < n
    ensures Alike(d.mem, ServeOne(d).disk.mem, d.q, Advance(d.q), j + 1, j)
  {
    hide Parse, ReadDescriptor, Slot, After, Next, ServeOne, Polite, Disjoint, AwayFrom, AgreeOn, Outputs, HeadAt, UsedIdx,
      UsedId, UsedLen;
    var m, q, m1 := d.mem, d.q, ServeOne(d).disk.mem;
    ServeOneCompletes(d, n);
    WellPlacedRings(m, q);
    SameHead(m, m1, q, j + 1);
    assert Apart(m, q, 0, j + 1) && HeaderOffUsed(m, q, j + 1);
    var ask := Ask(m, q, j + 1);
    if ask.Some? {
      BuffersOffUsed(m, q, n + 1, j + 1);
      TurnKeeps(d, n, HeaderOf(m, q, j + 1), HEADER);
      forall s | s in Buffers(ask.value) ensures AgreeOn(m, m1, s.addr, s.len) { TurnKeeps(d, n, s.addr, s.len); }
      HeaderIsRead(m, q, j + 1);
    }
    ParseAlike(m, m1, q, HeadOf(m, q, j + 1));
    ShiftedHead(m1, q, j);
  }

  lemma HeaderIsRead(m: Mem, q: Queue, j: nat)
    requires q.num > 0 && Ask(m, q, j).Some?
    ensures ReadDescriptor(m, q, HeadOf(m, q, j)).Some?
    ensures ReadDescriptor(m, q, HeadOf(m, q, j)).value.addr == HeaderOf(m, q, j)
  {
    hide ReadDescriptor;
  }

  lemma TidyIsOrderly(m: Mem, q: Queue, n: nat)
    requires Tidy(m, q, n)
    ensures q.num > 0 && Orderly(m, q, n)
  {
  }

  lemma TidyCarries(d: Disk, n: nat)
    requires Tidy(d.mem, d.q, n + 1)
    ensures Tidy(ServeOne(d).disk.mem, Advance(d.q), n)
  {
    hide Parse, ReadDescriptor, Slot, After, Next, ServeOne, Orderly, Ask, HeadOf, HeaderOf, Disjoint, AwayFrom, UsedIdx,
      UsedId, UsedLen, HeadAt, SameRings;
    TidyIsOrderly(d.mem, d.q, n + 1);
    ServeOneCompletes(d, n);
    var m, q, m1, q1 := d.mem, d.q, ServeOne(d).disk.mem, Advance(d.q);
    forall k | 0 <= k < n ensures HeaderOffUsed(m1, q1, k) {
      TurnAlike(d, n, k);
      assert HeaderOffUsed(m, q, k + 1);
    }
    forall j, k | 0 <= j < n && 0 <= k < n && j != k ensures Apart(m1, q1, j, k) {
      TurnAlike(d, n, j);
      TurnAlike(d, n, k);
      assert Apart(m, q, j + 1, k + 1);
    }
  }

  lemma OutcomeAlike(m: Mem, m': Mem, image: seq<u8>, q: Queue, q': Queue, j: nat, j': nat, b: nat, k: nat)
    requires q.num > 0 && q'.num > 0 && Alike(m, m', q, q', j, j') && AgreeOn(m, m', b, k)
    ensures SameOutcome(OutcomeOf(m, image, q, j), OutcomeOf(m', image, q', j'), b, k)
  {
    hide Parse, Execute, HeadOf, AgreeOn;
    var ask := Ask(m, q, j);
    if ask.Some? {
      forall s | s in ask.value.data ensures AgreeOn(m, m', s.addr, s.len) { assert s in Buffers(ask.value); }
      ExecuteAgrees(m, m', image, ask.value, b, k);
    }
  }

  lemma NothingRead(m: Mem, m': Mem)
    ensures AgreeOn(m, m', 0, 0)
  {
  }

  /** The images after the first turn are those after one request more before it. */
  lemma {:induction false} ImagesCarry(d: Disk, n: nat, k: nat)
    requires Tidy(d.mem, d.q, n + 1) && k <= n
    ensures var d1 := ServeOne(d).disk;
      ImageAfter(d1.mem, d1.image, d1.q, k) == ImageAfter(d.mem, d.image, d.q, k + 1)
    decreases k
  {
    hide ServeOne, Tidy, OutcomeOf, Alike;
    TidyIsOrderly(d.mem, d.q, n + 1);
    var d1 := ServeOne(d).disk;
    if k == 0 {
      TurnIsOutcome(d, n);
      assert ImageAfter(d.mem, d.image, d.q, 0) == d.image;
    } else {
      ImagesCarry(d, n, k - 1);
      TurnIsOutcome(d, n);
      TurnAlike(d, n, k - 1);
      NothingRead(d.mem, d1.mem);
      OutcomeAlike(d.mem, d1.mem, ImageAfter(d.mem, d.image, d.q, k), d.q, d1.q, k, k - 1, 0, 0);
    }
  }

  /** A turn performs the first waiting request and logs it. */
  lemma TurnIsOutcome(d: Disk, n: nat)
    requires Tidy(d.mem, d.q, n + 1)
    ensures var t := ServeOne(d); var o := OutcomeOf(d.mem, d.image, d.q, 0);
      && t.Served? && t.disk.q == Advance(d.q) && t.disk.image == o.image && t.entry == Entry(HeadOf(d.mem, d.q, 0), o.len)
  {
    hide Process, HandBack, Slot, ReadDescriptor, HeadAt, UsedIdx, UsedId, UsedLen, SameRings;
    AfterZero(d.q.lastAvail);
    ServeOneCompletes(d, n);
  }

  // ----- a whole notification -----

  /** What the k-th waiting request does in its turn: it acts on the image as the requests before it left it. */
  function TurnOutcome(d: Disk, k: nat): (o: Outcome)
    requires d.q.num > 0
  {
    OutcomeOf(d.mem, ImageAfter(d.mem, d.image, d.q, k), d.q, k)
  }

  lemma ServeUnfolds(d: Disk, avail: u16, n: nat)
    requires Orderly(d.mem, d.q, n + 1) && Waiting(avail, d.q.lastAvail) == n + 1
    ensures var t := ServeOne(d);
      && t.Served? && t.disk.q == Advance(d.q) && Waiting(avail, t.disk.q.lastAvail) == n
      && Serve(d, avail).disk == Serve(t.disk, avail).disk
      && Serve(d, avail).log == [t.entry] + Serve(t.disk, avail).log
  {
    hide ServeOne, Polite, WellPlaced, Waiting, Next, HeadAt, UsedIdx, UsedId, UsedLen, SameRings;
    WaitingNone(avail, d.q.lastAvail);
    WaitingShrinks(avail, d.q.lastAvail);
    ServeOneCompletes(d, n);
  }

  lemma ServeNothing(d: Disk, avail: u16)
    requires d.q.num > 0 && Waiting(avail, d.q.lastAvail) == 0
    ensures Serve(d, avail) == Run(d, [])
  {
    hide ServeOne;
    WaitingNone(avail, d.q.lastAvail);
  }

  /** A notification performs the waiting requests one after another on the image, and reports each one's length: the
      image it leaves is the fold of them in ring order. */
  lemma {:induction false} NotificationPerforms(d: Disk, avail: u16, n: nat)
    requires n == Waiting(avail, d.q.lastAvail) && Tidy(d.mem, d.q, n)
    ensures var run := Serve(d, avail);
      && run.disk.image == ImageAfter(d.mem, d.image, d.q, n) && |run.log| == n
      && forall k | 0 <= k < n :: run.log[k] == Entry(HeadOf(d.mem, d.q, k), TurnOutcome(d, k).len)
    decreases n
  {
    hide Serve, ServeOne, Tidy, Waiting, Orderly, OutcomeOf, HeadOf, Alike;
    TidyIsOrderly(d.mem, d.q, n);
    if n == 0 {
      ServeNothing(d, avail);
    } else {
      ServeUnfolds(d, avail, n - 1);
      var d1 := ServeOne(d).disk;
      TidyCarries(d, n - 1);
      TidyIsOrderly(d1.mem, d1.q, n - 1);
      NotificationPerforms(d1, avail, n - 1);
      ImagesCarry(d, n - 1, n - 1);
      TurnIsOutcome(d, n - 1);
      var run := Serve(d, avail);
      forall k | 0 <= k < n ensures run.log[k] == Entry(HeadOf(d.mem, d.q, k), TurnOutcome(d, k).len) {
        if k > 0 { LogCarries(d, avail, n - 1, k - 1); } else { assert ImageAfter(d.mem, d.image, d.q, 0) == d.image; }
      }
    }
  }

  lemma LogCarries(d: Disk, avail: u16, n: nat, k: nat)
    requires Tidy(d.mem, d.q, n + 1) && k < n
    ensures var d1 := ServeOne(d).disk;
      && HeadOf(d1.mem, d1.q, k) == HeadOf(d.mem, d.q, k + 1)
      && TurnOutcome(d1, k).len == TurnOutcome(d, k + 1).len
      && forall s | Ask(d.mem, d.q, k + 1).Some? && s in Buffers(Ask(d.mem, d.q, k + 1).value) ::
           AgreeOn(TurnOutcome(d, k + 1).mem, TurnOutcome(d1, k).mem, s.addr, s.len)
  {
    hide ServeOne, Tidy, OutcomeOf, Ask, HeadOf, AgreeOn;
    TidyIsOrderly(d.mem, d.q, n + 1);
    TurnIsOutcome(d, n);
    var d1 := ServeOne(d).disk;
    var image := ImageAfter(d1.mem, d1.image, d1.q, k);
    ImagesCarry(d, n, k);
    TurnAlike(d, n, k);
    NothingRead(d.mem, d1.mem);
    OutcomeAlike(d.mem, d1.mem, image, d.q, d1.q, k + 1, k, 0, 0);
    forall s | Ask(d.mem, d.q, k + 1).Some? && s in Buffers(Ask(d.mem, d.q, k + 1).value)
      ensures AgreeOn(TurnOutcome(d, k + 1).mem, TurnOutcome(d1, k).mem, s.addr, s.len)
    {
      OutcomeAlike(d.mem, d1.mem, image, d.q, d1.q, k + 1, k, s.addr, s.len);
    }
  }

  /** What no waiting request writes is as it was. */
  lemma {:induction false} NotificationKeeps(d: Disk, avail: u16, n: nat, b: nat, k: nat)
    requires n == Waiting(avail, d.q.lastAvail) && Tidy(d.mem, d.q, n) && Disjoint(d.q.used, UsedSize(d.q), b, k)
    requires forall j | 0 <= j < n :: Ask(d.mem, d.q, j).Some? ==> AwayFrom(Outputs(Ask(d.mem, d.q, j).value), b, k)
    ensures AgreeOn(d.mem, Serve(d, avail).disk.mem, b, k)
    decreases n
  {
    hide Serve, ServeOne, Tidy, Waiting, Orderly, Ask, HeadOf, HeaderOf, AwayFrom, Disjoint, AgreeOn;
    TidyIsOrderly(d.mem, d.q, n);
    if n == 0 {
      ServeNothing(d, avail);
      Unchanged(d.mem, b, k);
    } else {
      ServeUnfolds(d, avail, n - 1);
      var d1 := ServeOne(d).disk;
      TidyCarries(d, n - 1);
      TurnKeeps(d, n - 1, b, k);
      forall j | 0 <= j < n - 1
        ensures Ask(d1.mem, d1.q, j).Some? ==> AwayFrom(Outputs(Ask(d1.mem, d1.q, j).value), b, k)
      {
        TurnAlike(d, n - 1, j);
      }
      NotificationKeeps(d1, avail, n - 1, b, k);
      AgreeTwice(d.mem, d1.mem, Serve(d1, avail).disk.mem, b, k);
    }
  }

  lemma Unchanged(m: Mem, b: nat, k: nat)
    ensures AgreeOn(m, m, b, k)
  {
  }

  /** Handing the first buffer back leaves what its request delivered. */
  lemma FirstTurnDelivers(d: Disk, n: nat, b: nat, k: nat)
    requires Tidy(d.mem, d.q, n + 1) && Disjoint(d.q.used, UsedSize(d.q), b, k)
    ensures AgreeOn(TurnOutcome(d, 0).mem, ServeOne(d).disk.mem, b, k)
  {
    hide Process, HandBack, Slot, ReadDescriptor, HeadAt, UsedIdx, UsedId, UsedLen, Parse, AgreeOn, Disjoint;
    var m, q := d.mem, d.q;
    AfterZero(q.lastAvail);
    ServeOneCompletes(d, n);
    var o := OutcomeOf(m, d.image, q, 0);
    assert ImageAfter(m, d.image, q, 0) == d.image;
    assert Polite(m, q, After(q.lastAvail, 0));
    ProcessKeepsRings(m, d.image, q, q.lastAvail);
    UsedParts(q, b, k);
    assert InRam(o.mem, q.used, UsedSize(q));
    HandBackKeeps(o.mem, q, HeadOf(m, q, 0), o.len, b, k);
  }

  /** Every request's buffers and status byte are, when the notification is over, as the request left them. */
  lemma {:induction false} NotificationDelivers(d: Disk, avail: u16, n: nat, k: nat, s: Segment)
    requires n == Waiting(avail, d.q.lastAvail) && Tidy(d.mem, d.q, n) && k < n
    requires Ask(d.mem, d.q, k).Some? && s in Buffers(Ask(d.mem, d.q, k).value)
    ensures AgreeOn(TurnOutcome(d, k).mem, Serve(d, avail).disk.mem, s.addr, s.len)
    decreases k
  {
    hide Serve, ServeOne, Tidy, Waiting, Orderly, Ask, HeadOf, HeaderOf, AwayFrom, Disjoint, AgreeOn, TurnOutcome, Buffers,
      Outputs;
    TidyIsOrderly(d.mem, d.q, n);
    ServeUnfolds(d, avail, n - 1);
    var d1 := ServeOne(d).disk;
    TidyCarries(d, n - 1);
    if k == 0 {
      BuffersOffUsed(d.mem, d.q, n, 0);
      FirstTurnDelivers(d, n - 1, s.addr, s.len);
      forall j | 0 <= j < n - 1
        ensures Ask(d1.mem, d1.q, j).Some? ==> AwayFrom(Outputs(Ask(d1.mem, d1.q, j).value), s.addr, s.len)
      {
        TurnAlike(d, n - 1, j);
        TidyIsApart(d.mem, d.q, n, j + 1, 0);
      }
      NotificationKeeps(d1, avail, n - 1, s.addr, s.len);
      AgreeTwice(TurnOutcome(d, 0).mem, d1.mem, Serve(d1, avail).disk.mem, s.addr, s.len);
    } else {
      TurnAlike(d, n - 1, k - 1);
      LogCarries(d, avail, n - 1, k - 1);
      NotificationDelivers(d1, avail, n - 1, k - 1, s);
      AgreeTwice(TurnOutcome(d, k).mem, TurnOutcome(d1, k - 1).mem, Serve(d1, avail).disk.mem, s.addr, s.len);
    }
  }

  lemma TidyIsApart(m: Mem, q: Queue, n: nat, j: nat, k: nat)
    requires Tidy(m, q, n) && j < n && k < n && j != k
    ensures q.num > 0 && Apart(m, q, j, k)
  {
  }
}
