/** What the driver gets from the block device: the result of each notification, and the bytes it wrote before. */
module BlkRoundTrip {
  import opened Words
  import opened GuestMemory
  import opened Virtqueue
  import opened Transfer
  import opened Rings
  import opened BlkSpec
  import opened BlkTheorems
  import opened BlkQueue
  import opened BlkDelivery
  import opened BlkDeviceSpec

  /** The device has an image and a queue in operation, on which n requests wait that keep apart from one another. */
  ghost predicate Set(b: Blk, n: nat) {
    && b.disk.image != [] && Operational(b.disk.q) && AvailIdx(b.disk.mem, b.disk.q).Some?
    && n == Waiting(AvailIdx(b.disk.mem, b.disk.q).value, b.disk.q.lastAvail)
    && Tidy(b.disk.mem, b.disk.q, n)
  }

  lemma SetIsTidy(b: Blk, n: nat)
    requires Set(b, n)
    ensures b.disk.q.num > 0 && Tidy(b.disk.mem, b.disk.q, n) && Orderly(b.disk.mem, b.disk.q, n)
    ensures AvailIdx(b.disk.mem, b.disk.q).Some?
    ensures n == Waiting(AvailIdx(b.disk.mem, b.disk.q).value, b.disk.q.lastAvail)
    ensures Notified(b, 0).disk == Serve(b.disk, AvailIdx(b.disk.mem, b.disk.q).value).disk
  {
    hide Serve, AvailIdx, Polite, Waiting;
  }

  lemma NotifiedUnfolds(b: Blk, n: nat)
    requires Set(b, n)
    ensures var run := Serve(b.disk, AvailIdx(b.disk.mem, b.disk.q).value);
      Notified(b, 0) == b.(disk := run.disk, interrupt := if run.log != [] then WithVring(b.interrupt) else b.interrupt)
  {
    hide Serve, AvailIdx, Tidy;
  }

  /** A notification takes all waiting requests, and the image it leaves is that of performing them in ring order. */
  lemma NotificationDoes(b: Blk, n: nat)
    requires Set(b, n)
    ensures var b' := Notified(b, 0); var d := b.disk;
      && b'.disk.image == ImageAfter(d.mem, d.image, d.q, n)
      && b'.disk.q == d.q.(lastAvail := AvailIdx(d.mem, d.q).value, usedIdx := After(d.q.usedIdx, n))
      && b'.queueSel == b.queueSel && b'.status == b.status
  {
    hide Serve, AvailIdx, Tidy, Orderly, Waiting, After, HeadOf, TurnOutcome, HeadAt, UsedIdx, Set, Notified, ImageAfter;
    SetIsTidy(b, n);
    NotifiedUnfolds(b, n);
    var avail := AvailIdx(b.disk.mem, b.disk.q).value;
    NotificationPerforms(b.disk, avail, n);
    ServeCompletes(b.disk, avail);
  }

  /** Its interrupt is up exactly if a request was performed or it was up before; the other bits stay. */
  lemma NotificationInterrupts(b: Blk, n: nat)
    requires Set(b, n)
    ensures VringUp(Notified(b, 0).interrupt) <==> n > 0 || VringUp(b.interrupt)
    ensures WithoutVring(Notified(b, 0).interrupt) == WithoutVring(b.interrupt)
  {
    hide Serve, AvailIdx, Tidy, Orderly, Waiting, HeadOf, TurnOutcome, Set, Notified, ImageAfter, VringUp, WithVring,
      WithoutVring;
    SetIsTidy(b, n);
    NotifiedUnfolds(b, n);
    NotificationPerforms(b.disk, AvailIdx(b.disk.mem, b.disk.q).value, n);
    VringRises(b.interrupt);
  }

  /** Afterwards the driver finds in each request's status byte how it went, and in the buffers of each read that went
      well the bytes of the image as the requests before it left them. */
  lemma DriverFinds(b: Blk, n: nat, k: nat)
    requires Set(b, n) && k < n && b.disk.q.num > 0 && Ask(b.disk.mem, b.disk.q, k).Some?
    ensures var r, o := Ask(b.disk.mem, b.disk.q, k).value, TurnOutcome(b.disk, k);
      var m, image := Notified(b, 0).disk.mem, ImageAfter(b.disk.mem, b.disk.image, b.disk.q, k);
      && (o.answered ==> ReadGuest(m, r.statusAddr, 1) == Some([o.status]))
      && (r.kind == REQ_IN && SeparateBuffers(r) && o.answered && o.status == STATUS_OK ==>
            && InImage(image, r.sector, TotalLen(r.data))
            && Contents(m, r.data) == Some(image[ImageOffset(r.sector)..ImageOffset(r.sector) + TotalLen(r.data)]))
  {
    hide Serve, AvailIdx, Tidy, Orderly, Waiting, HeadOf, Parse, Execute, ImageAfter, Notified;
    SetIsTidy(b, n);
    var d, m := b.disk, Notified(b, 0).disk.mem;
    var r, image := Ask(d.mem, d.q, k).value, ImageAfter(d.mem, d.image, d.q, k);
    var o := TurnOutcome(d, k);
    assert o == Execute(d.mem, image, r);
    Delivered(b, n, k, r, o);
    StatusAndLength(d.mem, image, r);
    if r.kind == REQ_IN && SeparateBuffers(r) && o.answered && o.status == STATUS_OK { ReadDelivers(d.mem, image, r); }
  }

  lemma Delivered(b: Blk, n: nat, k: nat, r: Request, o: Outcome)
    requires Set(b, n) && k < n && b.disk.q.num > 0 && Ask(b.disk.mem, b.disk.q, k) == Some(r) && o == TurnOutcome(b.disk, k)
    ensures var m := Notified(b, 0).disk.mem;
      ReadGuest(m, r.statusAddr, 1) == ReadGuest(o.mem, r.statusAddr, 1) && Contents(m, r.data) == Contents(o.mem, r.data)
  {
    hide Serve, AvailIdx, Tidy, Orderly, Waiting, Ask, TurnOutcome, Notified;
    SetIsTidy(b, n);
    var avail, m := AvailIdx(b.disk.mem, b.disk.q).value, Notified(b, 0).disk.mem;
    var all := Buffers(r);
    assert all[|all| - 1] == Segment(r.statusAddr, 1, true);
    NotificationDelivers(b.disk, avail, n, k, Segment(r.statusAddr, 1, true));
    forall s | s in r.data ensures AgreeOn(o.mem, m, s.addr, s.len) {
      assert s in all;
      NotificationDelivers(b.disk, avail, n, k, s);
    }
    ContentsAgree(o.mem, m, r.data);
  }

  // ----- bytes written and read again -----

  /** Request j does not write the stretch of the image. */
  ghost predicate LeavesStretch(d: Disk, j: nat, off: nat, total: nat)
    requires d.q.num > 0
  {
    var r := Ask(d.mem, d.q, j);
    r.Some? && r.value.kind == REQ_OUT ==> Disjoint(ImageOffset(r.value.sector), TotalLen(r.value.data), off, total)
  }

  lemma {:induction false} StretchKept(d: Disk, k: nat, n: nat, off: nat, total: nat)
    requires d.q.num > 0 && k <= n && off + total <= |d.image|
    requires forall j | k <= j < n :: LeavesStretch(d, j, off, total)
    ensures ImageAfter(d.mem, d.image, d.q, n)[off..off + total] == ImageAfter(d.mem, d.image, d.q, k)[off..off + total]
    decreases n
  {
    hide Parse, Execute, HeadOf;
    if k < n {
      StretchKept(d, k, n - 1, off, total);
      assert LeavesStretch(d, n - 1, off, total);
      var r, image := Ask(d.mem, d.q, n - 1), ImageAfter(d.mem, d.image, d.q, n - 1);
      if r.Some? {
        forall i | off <= i < off + total ensures Execute(d.mem, image, r.value).image[i] == image[i] {
          OtherBytesUntouched(d.mem, image, r.value, i);
        }
      }
    }
  }

  /** Request k is a write that goes well. */
  ghost predicate Writes(d: Disk, k: nat, w: Request)
    requires d.q.num > 0
  {
    Ask(d.mem, d.q, k) == Some(w) && w.kind == REQ_OUT && TurnOutcome(d, k).status == STATUS_OK
  }

  /** Request k is a read that goes well, into buffers that do not overlap. */
  ghost predicate Reads(d: Disk, k: nat, r: Request)
    requires d.q.num > 0
  {
    && Ask(d.mem, d.q, k) == Some(r) && r.kind == REQ_IN && SeparateBuffers(r)
    && TurnOutcome(d, k).status == STATUS_OK && TurnOutcome(d, k).answered
  }

  /** Right after a write its bytes are in the image. */
  lemma WrittenIsThere(d: Disk, k: nat, w: Request)
    requires d.q.num > 0 && Writes(d, k, w)
    ensures Contents(d.mem, w.data).Some? && InImage(d.image, w.sector, TotalLen(w.data))
    ensures ImageAfter(d.mem, d.image, d.q, k + 1)[ImageOffset(w.sector)..ImageOffset(w.sector) + TotalLen(w.data)]
            == Contents(d.mem, w.data).value
  {
    hide Parse, Execute, HeadOf;
    var image := ImageAfter(d.mem, d.image, d.q, k);
    WriteStores(d.mem, image, w);
  }

  /** A notification writes and a later one reads the same sectors: unless another request wrote there in between, the
      driver gets back the bytes it wrote, whatever else it did to its memory and its queue meanwhile. */
  lemma WrittenIsReadBack(b1: Blk, n1: nat, k1: nat, w: Request, b2: Blk, n2: nat, k2: nat, r: Request)
    requires Set(b1, n1) && k1 < n1 && Set(b2, n2) && k2 < n2 && b1.disk.q.num > 0 && b2.disk.q.num > 0
    requires b2.disk.image == Notified(b1, 0).disk.image
    requires Writes(b1.disk, k1, w) && Reads(b2.disk, k2, r)
    requires r.sector == w.sector && TotalLen(r.data) == TotalLen(w.data)
    requires forall j | k1 < j < n1 :: LeavesStretch(b1.disk, j, ImageOffset(w.sector), TotalLen(w.data))
    requires forall j | 0 <= j < k2 :: LeavesStretch(b2.disk, j, ImageOffset(w.sector), TotalLen(w.data))
    ensures Contents(b1.disk.mem, w.data).Some?
    ensures Contents(Notified(b2, 0).disk.mem, r.data) == Contents(b1.disk.mem, w.data)
    ensures ReadGuest(Notified(b2, 0).disk.mem, r.statusAddr, 1) == Some([STATUS_OK])
  {
    hide Set, Ask, TurnOutcome, LeavesStretch, Notified, Contents, ReadGuest, ImageOffset, TotalLen, ImageAfter;
    var off, total := ImageOffset(w.sector), TotalLen(w.data);
    WrittenIsThere(b1.disk, k1, w);
    StretchKept(b1.disk, k1 + 1, n1, off, total);
    ImageLeft(b1, n1);
    NoneBefore(b2.disk);
    StretchKept(b2.disk, 0, k2, off, total);
    DriverFinds(b2, n2, k2);
  }

  lemma ImageLeft(b: Blk, n: nat)
    requires Set(b, n)
    ensures b.disk.q.num > 0 && Notified(b, 0).disk.image == ImageAfter(b.disk.mem, b.disk.image, b.disk.q, n)
  {
    hide Set, AvailIdx, ImageAfter, Notified;
    SetIsTidy(b, n);
    NotificationDoes(b, n);
  }

  lemma NoneBefore(d: Disk)
    requires d.q.num > 0
    ensures ImageAfter(d.mem, d.image, d.q, 0) == d.image
  {
  }

  /** The same within one notification that both writes and later reads. */
  lemma WrittenIsReadAtOnce(b: Blk, n: nat, k1: nat, w: Request, k2: nat, r: Request)
    requires Set(b, n) && k1 < k2 < n && b.disk.q.num > 0
    requires Writes(b.disk, k1, w) && Reads(b.disk, k2, r)
    requires r.sector == w.sector && TotalLen(r.data) == TotalLen(w.data)
    requires forall j | k1 < j < k2 :: LeavesStretch(b.disk, j, ImageOffset(w.sector), TotalLen(w.data))
    ensures Contents(b.disk.mem, w.data).Some?
    ensures Contents(Notified(b, 0).disk.mem, r.data) == Contents(b.disk.mem, w.data)
  {
    hide Set, Ask, TurnOutcome, LeavesStretch, Notified, Contents, ReadGuest, ImageOffset, TotalLen;
    WrittenIsThere(b.disk, k1, w);
    StretchKept(b.disk, k1 + 1, k2, ImageOffset(w.sector), TotalLen(w.data));
    DriverFinds(b, n, k2);
  }
}
