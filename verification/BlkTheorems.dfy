/** What block requests promise: round trips, frames and when they succeed. */
module BlkTheorems {
  import opened Words
  import opened GuestMemory
  import opened Virtqueue
  import opened Transfer
  import opened BlkSpec

  /** Scattering touches only the segments, and leaves what can be reached unchanged. */
  lemma {:induction false} ScatterKeeps(m: Mem, segs: seq<Segment>, data: seq<u8>, b: nat, k: nat)
    requires |data| == TotalLen(segs)
    ensures Scatter(m, segs, data).0.regions == m.regions
    ensures AwayFrom(segs, b, k) ==> AgreeOn(m, Scatter(m, segs, data).0, b, k)
    decreases |segs|
  {
    if segs != [] && segs[0].writable && InRam(m, segs[0].addr, segs[0].len) {
      SplitSegments(segs);
      ReadAfterStore(m, segs[0].addr, data[..segs[0].len], b, k);
      ScatterKeeps(Store(m, segs[0].addr, data[..segs[0].len]), segs[1..], data[segs[0].len..], b, k);
    }
  }

  /** Scattering succeeds exactly when every segment is writable and lies in RAM. */
  lemma {:induction false} ScatterOkIff(m: Mem, segs: seq<Segment>, data: seq<u8>)
    requires |data| == TotalLen(segs)
    ensures Scatter(m, segs, data).1 <==> Reachable(m, segs) && forall s | s in segs :: s.writable
    decreases |segs|
  {
    if segs != [] {
      SplitSegments(segs);
      if segs[0].writable && InRam(m, segs[0].addr, segs[0].len) {
        var m' := Store(m, segs[0].addr, data[..segs[0].len]);
        assert forall s: Segment :: InRam(m', s.addr, s.len) <==> InRam(m, s.addr, s.len);
        ScatterOkIff(m', segs[1..], data[segs[0].len..]);
      }
    }
  }

  /** What was scattered over segments that do not overlap is read back from them. */
  lemma {:induction false} ScatterShows(m: Mem, segs: seq<Segment>, data: seq<u8>)
    requires |data| == TotalLen(segs) && Scatter(m, segs, data).1 && NonOverlapping(segs)
    ensures Contents(Scatter(m, segs, data).0, segs) == Some(data)
    decreases |segs|
  {
    if segs != [] {
      var first := data[..segs[0].len];
      var m' := Store(m, segs[0].addr, first);
      ReadAfterStore(m, segs[0].addr, first, 0, 0);
      RestIsSeparate(segs);
      ScatterKeeps(m', segs[1..], data[segs[0].len..], segs[0].addr, segs[0].len);
      ScatterShows(m', segs[1..], data[segs[0].len..]);
      assert data == first + data[segs[0].len..];
    } else {
      assert data == [];
    }
  }

  /** The image with one stretch replaced. */
  function Patched(image: seq<u8>, off: nat, data: seq<u8>): seq<u8>
    requires off + |data| <= |image|
  {
    image[..off] + data + image[off + |data|..]
  }

  /** Gathering succeeds exactly when every segment is read-only and lies in RAM. */
  lemma {:induction false} GatherOkIff(m: Mem, segs: seq<Segment>, image: seq<u8>, off: nat)
    requires off + TotalLen(segs) <= |image|
    ensures Gather(m, segs, image, off).1 <==> Reachable(m, segs) && forall s | s in segs :: !s.writable
    decreases |segs|
  {
    if segs != [] {
      SplitSegments(segs);
      if !segs[0].writable && InRam(m, segs[0].addr, segs[0].len) {
        var bs := ReadGuest(m, segs[0].addr, segs[0].len).value;
        GatherOkIff(m, segs[1..], Patched(image, off, bs), off + segs[0].len);
      }
    }
  }

  /** When it succeeds the image gets exactly the segments' bytes. */
  lemma {:induction false} GatherCopies(m: Mem, segs: seq<Segment>, image: seq<u8>, off: nat)
    requires off + TotalLen(segs) <= |image| && Gather(m, segs, image, off).1
    ensures Contents(m, segs).Some?
    ensures Gather(m, segs, image, off).0 == Patched(image, off, Contents(m, segs).value)
    decreases |segs|
  {
    if segs != [] {
      var bs := ReadGuest(m, segs[0].addr, segs[0].len).value;
      var image1 := Patched(image, off, bs);
      GatherCopies(m, segs[1..], image1, off + segs[0].len);
      PatchesJoin(image, off, bs, Contents(m, segs[1..]).value);
    } else {
      assert Patched(image, off, []) == image;
    }
  }

  lemma PatchesJoin(image: seq<u8>, off: nat, a: seq<u8>, b: seq<u8>)
    requires off + |a| + |b| <= |image|
    ensures Patched(Patched(image, off, a), off + |a|, b) == Patched(image, off, a + b)
  {
    var image1 := Patched(image, off, a);
    assert image1[..off + |a|] == image[..off] + a;
    assert image1[off + |a| + |b|..] == image[off + |a| + |b|..];
  }

  /** Even a failing write leaves every byte outside its range alone. */
  lemma {:induction false} GatherKeeps(m: Mem, segs: seq<Segment>, image: seq<u8>, off: nat, i: nat)
    requires off + TotalLen(segs) <= |image| && i < |image|
    requires i < off || off + TotalLen(segs) <= i
    ensures Gather(m, segs, image, off).0[i] == image[i]
    decreases |segs|
  {
    if segs != [] && !segs[0].writable && InRam(m, segs[0].addr, segs[0].len) {
      var bs := ReadGuest(m, segs[0].addr, segs[0].len).value;
      GatherKeeps(m, segs[1..], Patched(image, off, bs), off + segs[0].len, i);
    }
  }

  lemma {:induction false} ScatterIdKeeps(m: Mem, segs: seq<Segment>, data: seq<u8>, b: nat, k: nat)
    ensures ScatterId(m, segs, data).0.regions == m.regions
    ensures AwayFrom(segs, b, k) ==> AgreeOn(m, ScatterId(m, segs, data).0, b, k)
    decreases |segs|
  {
    if segs != [] && segs[0].writable {
      SplitSegments(segs);
      var chunk := Min(segs[0].len, |data|);
      if chunk > 0 && InRam(m, segs[0].addr, chunk) {
        ReadAfterStore(m, segs[0].addr, data[..chunk], b, k);
        ScatterIdKeeps(Store(m, segs[0].addr, data[..chunk]), segs[1..], data[chunk..], b, k);
      }
    }
  }

  /** A successful identity copy is a fill of the segments. */
  lemma {:induction false} ScatterIdFills(m: Mem, segs: seq<Segment>, data: seq<u8>)
    requires ScatterId(m, segs, data).1
    ensures Fill(m, segs, data) == (ScatterId(m, segs, data).0, true)
    decreases |segs|
  {
    if segs != [] && data != [] {
      var chunk := Min(segs[0].len, |data|);
      ScatterIdFills(Store(m, segs[0].addr, data[..chunk]), segs[1..], data[chunk..]);
    }
  }

  // ----- whole requests -----

  /** A read succeeds exactly when it stays in the image and all its buffers are writable RAM. */
  lemma ReadOkIff(m: Mem, image: seq<u8>, r: Request)
    requires r.kind == REQ_IN
    ensures Execute(m, image, r).status == STATUS_OK <==>
            && TotalLen(r.data) % 512 == 0 && ImageOffset(r.sector) + TotalLen(r.data) <= |image|
            && Reachable(m, r.data) && (forall s | s in r.data :: s.writable)
    ensures Execute(m, image, r).answered <==> InRam(m, r.statusAddr, 1)
  {
    var off := ImageOffset(r.sector);
    if InImage(image, r.sector, TotalLen(r.data)) {
      var data := image[off..off + TotalLen(r.data)];
      ScatterOkIff(m, r.data, data);
      ScatterKeeps(m, r.data, data, 0, 0);
      assert InRam(Scatter(m, r.data, data).0, r.statusAddr, 1) == InRam(m, r.statusAddr, 1);
    }
  }

  /** A write succeeds exactly when it stays in the image and all its buffers are read-only RAM. */
  lemma WriteOkIff(m: Mem, image: seq<u8>, r: Request)
    requires r.kind == REQ_OUT
    ensures Execute(m, image, r).status == STATUS_OK <==>
            && TotalLen(r.data) % 512 == 0 && ImageOffset(r.sector) + TotalLen(r.data) <= |image|
            && Reachable(m, r.data) && (forall s | s in r.data :: !s.writable)
    ensures Execute(m, image, r).answered <==> InRam(m, r.statusAddr, 1)
  {
    if InImage(image, r.sector, TotalLen(r.data)) {
      GatherOkIff(m, r.data, image, ImageOffset(r.sector));
    }
  }

  /** Only a write changes the image, and only inside its own range, whether or not it succeeds. */
  lemma OtherBytesUntouched(m: Mem, image: seq<u8>, r: Request, i: nat)
    requires i < |image|
    requires r.kind != REQ_OUT || i < ImageOffset(r.sector) || ImageOffset(r.sector) + TotalLen(r.data) <= i
    ensures Execute(m, image, r).image[i] == image[i]
  {
    if r.kind == REQ_OUT && InImage(image, r.sector, TotalLen(r.data)) {
      GatherKeeps(m, r.data, image, ImageOffset(r.sector), i);
    }
  }

  /** Memory outside the request's data segments and status byte is untouched. */
  lemma RequestKeeps(m: Mem, image: seq<u8>, r: Request, b: nat, k: nat)
    ensures Execute(m, image, r).mem.regions == m.regions
    ensures AwayFrom(r.data, b, k) && Disjoint(r.statusAddr, 1, b, k) ==>
            AgreeOn(m, Execute(m, image, r).mem, b, k)
  {
    var off := ImageOffset(r.sector);
    if r.kind == REQ_IN && InImage(image, r.sector, TotalLen(r.data)) {
      ScatterKeeps(m, r.data, image[off..off + TotalLen(r.data)], b, k);
      FinishKeeps(Scatter(m, r.data, image[off..off + TotalLen(r.data)]).0, r, b, k);
    } else if r.kind == REQ_GET_ID && r.data != [] {
      ScatterIdKeeps(m, r.data, DEVICE_ID, b, k);
      FinishKeeps(ScatterId(m, r.data, DEVICE_ID).0, r, b, k);
    } else {
      FinishKeeps(m, r, b, k);
    }
  }

  lemma FinishKeeps(m: Mem, r: Request, b: nat, k: nat)
    ensures forall image, len, status :: Finish(m, image, r, len, status).mem.regions == m.regions
    ensures Disjoint(r.statusAddr, 1, b, k) ==>
            forall image, len, status :: AgreeOn(m, Finish(m, image, r, len, status).mem, b, k)
  {
    forall image, len, status
      ensures Finish(m, image, r, len, status).mem.regions == m.regions
      ensures Disjoint(r.statusAddr, 1, b, k) ==> AgreeOn(m, Finish(m, image, r, len, status).mem, b, k)
    {
      if InRam(m, r.statusAddr, 1) { ReadAfterStore(m, r.statusAddr, [status], b, k); }
    }
  }

  /** A successful write leaves in the image, at its sector, the bytes of its segments in order. */
  lemma WriteStores(m: Mem, image: seq<u8>, w: Request)
    requires w.kind == REQ_OUT && Execute(m, image, w).status == STATUS_OK
    ensures InImage(image, w.sector, TotalLen(w.data)) && Contents(m, w.data).Some?
    ensures Execute(m, image, w).image == Patched(image, ImageOffset(w.sector), Contents(m, w.data).value)
  {
    if InImage(image, w.sector, TotalLen(w.data)) {
      var off := ImageOffset(w.sector);
      if Gather(m, w.data, image, off).1 { GatherCopies(m, w.data, image, off); }
    }
  }

  /** The buffers of a read overlap neither one another nor the status byte. */
  ghost predicate SeparateBuffers(r: Request) {
    NonOverlapping(r.data) && AwayFrom(r.data, r.statusAddr, 1)
  }

  /** A successful read leaves in its segments the bytes of the image, and reports them and the status byte. */
  lemma ReadDelivers(m: Mem, image: seq<u8>, r: Request)
    requires r.kind == REQ_IN && SeparateBuffers(r)
    requires Execute(m, image, r).status == STATUS_OK && Execute(m, image, r).answered
    ensures InImage(image, r.sector, TotalLen(r.data))
    ensures var o := Execute(m, image, r); var off := ImageOffset(r.sector); var total := TotalLen(r.data);
      && Contents(o.mem, r.data) == Some(image[off..off + total])
      && o.len == (total + 1) % TWO32 && o.image == image
      && ReadGuest(o.mem, r.statusAddr, 1) == Some([STATUS_OK])
  {
    var off, total := ImageOffset(r.sector), TotalLen(r.data);
    if InImage(image, r.sector, total) {
      var data := image[off..off + total];
      var m1 := Scatter(m, r.data, data).0;
      if Scatter(m, r.data, data).1 {
        ScatterShows(m, r.data, data);
        StatusIsSeparate(m1, r, STATUS_OK);
      }
    }
  }

  /** A successful identity request leaves the twenty identity bytes in the front of its segments. */
  lemma IdDelivered(m: Mem, image: seq<u8>, r: Request)
    requires r.kind == REQ_GET_ID && SeparateBuffers(r)
    requires Execute(m, image, r).status == STATUS_OK && Execute(m, image, r).answered
    ensures var o := Execute(m, image, r);
      Contents(o.mem, Front(r.data, ID_SIZE)) == Some(DEVICE_ID) && o.len == ID_SIZE + 1 && o.image == image
  {
    if r.data != [] && ScatterId(m, r.data, DEVICE_ID).1 {
      ScatterIdFills(m, r.data, DEVICE_ID);
      FillShows(m, r.data, DEVICE_ID);
      FrontWithin(r.data, ID_SIZE, r.statusAddr, 1);
      StatusIsSeparate(ScatterId(m, r.data, DEVICE_ID).0, r.(data := Front(r.data, ID_SIZE)), STATUS_OK);
    }
  }

  lemma StatusIsSeparate(m: Mem, r: Request, status: u8)
    requires AwayFrom(r.data, r.statusAddr, 1) && InRam(m, r.statusAddr, 1)
    ensures Contents(Store(m, r.statusAddr, [status]), r.data) == Contents(m, r.data)
    ensures ReadGuest(Store(m, r.statusAddr, [status]), r.statusAddr, 1) == Some([status])
  {
    var m' := Store(m, r.statusAddr, [status]);
    ReadAfterStore(m, r.statusAddr, [status], 0, 0);
    forall s | s in r.data ensures AgreeOn(m, m', s.addr, s.len) {
      ReadAfterStore(m, r.statusAddr, [status], s.addr, s.len);
    }
    ContentsAgree(m, m', r.data);
  }

  /** What a write stored a later read of the same stretch returns, however either request splits its buffers. */
  lemma WriteThenRead(m: Mem, image: seq<u8>, w: Request, m': Mem, r: Request)
    requires w.kind == REQ_OUT && r.kind == REQ_IN
    requires w.sector == r.sector && TotalLen(w.data) == TotalLen(r.data)
    requires Execute(m, image, w).status == STATUS_OK && SeparateBuffers(r)
    requires var o := Execute(m', Execute(m, image, w).image, r); o.status == STATUS_OK && o.answered
    ensures var o := Execute(m', Execute(m, image, w).image, r);
      && Contents(m, w.data).Some?
      && Contents(o.mem, r.data) == Contents(m, w.data)
      && o.len == (TotalLen(w.data) + 1) % TWO32
  {
    WriteStores(m, image, w);
    var image1 := Execute(m, image, w).image;
    ReadDelivers(m', image1, r);
    var off := ImageOffset(w.sector);
    var data := Contents(m, w.data).value;
    assert image1[off..off + |data|] == data;
  }

  /** Below 2^55 a sector's offset is exact. */
  lemma OffsetExact(sector: u64)
    ensures ImageOffset(sector) == sector * SECTOR <==> sector < 0x80_0000_0000_0000
  {
  }

  /** Above it, a sector number is taken for a lower one: sector 2^55 reads and writes sector 0. */
  lemma HighSectorAliases()
    ensures ImageOffset(0x80_0000_0000_0000) == ImageOffset(0)
  {
  }

  /** Every request on the same image reads the same whatever was done to other sectors in between. */
  lemma DisjointWriteInvisible(m: Mem, image: seq<u8>, w: Request, sector: u64, total: nat)
    requires InImage(image, sector, total)
    requires w.kind == REQ_OUT ==>
             Disjoint(ImageOffset(w.sector), TotalLen(w.data), ImageOffset(sector), total)
    ensures var off := ImageOffset(sector);
      Execute(m, image, w).image[off..off + total] == image[off..off + total]
  {
    var off := ImageOffset(sector);
    forall i | off <= i < off + total ensures Execute(m, image, w).image[i] == image[i] {
      OtherBytesUntouched(m, image, w, i);
    }
  }

  // ----- every kind of request -----

  /** The used length the driver is told, by outcome: the bytes delivered and the status byte, the status byte
      alone, or nothing at all after an I/O error. */
  function ReportedLength(r: Request, status: u8): u32 {
    if status == STATUS_IOERR then 0
    else if status == STATUS_OK && r.kind == REQ_IN then (TotalLen(r.data) + 1) % TWO32
    else if status == STATUS_OK && r.kind == REQ_GET_ID then ID_SIZE + 1
    else 1
  }

  predicate KnownKind(kind: u32) { kind in {REQ_IN, REQ_OUT, REQ_FLUSH, REQ_GET_ID} }

  /** An answered request shows its status byte, and reports its length by kind and status. */
  lemma StatusAndLength(m: Mem, image: seq<u8>, r: Request)
    ensures var o := Execute(m, image, r);
      && (o.answered ==> ReadGuest(o.mem, r.statusAddr, 1) == Some([o.status]))
      && o.len == (if o.answered then ReportedLength(r, o.status) else 1)
      && (o.status == STATUS_UNSUPPORTED <==> !KnownKind(r.kind))
      && (r.kind == REQ_FLUSH ==> o.status == STATUS_OK)
      && (o.answered <==> InRam(m, r.statusAddr, 1))
  {
    hide Scatter, Gather, ScatterId, TotalLen, InRam, ReadGuest, DEVICE_ID, Finish, ImageOffset;
    var off := ImageOffset(r.sector);
    if r.kind == REQ_IN && InImage(image, r.sector, TotalLen(r.data)) {
      ScatterKeeps(m, r.data, image[off..off + TotalLen(r.data)], 0, 0);
      FinishShows(Scatter(m, r.data, image[off..off + TotalLen(r.data)]).0, m, r);
    } else if r.kind == REQ_GET_ID && r.data != [] {
      ScatterIdKeeps(m, r.data, DEVICE_ID, 0, 0);
      FinishShows(ScatterId(m, r.data, DEVICE_ID).0, m, r);
    } else {
      FinishShows(m, m, r);
    }
  }

  lemma FinishShows(m1: Mem, m: Mem, r: Request)
    requires m1.regions == m.regions
    ensures forall image, len: u32, status: u8 ::
              var o := Finish(m1, image, r, len, status);
              && o.status == status && o.len == (if o.answered then len else 1)
              && (o.answered <==> InRam(m, r.statusAddr, 1))
              && (o.answered ==> ReadGuest(o.mem, r.statusAddr, 1) == Some([status]))
  {
    forall image, len: u32, status: u8
      ensures var o := Finish(m1, image, r, len, status);
        && o.status == status && o.len == (if o.answered then len else 1)
        && (o.answered <==> InRam(m, r.statusAddr, 1))
        && (o.answered ==> ReadGuest(o.mem, r.statusAddr, 1) == Some([status]))
    {
      assert InRam(m1, r.statusAddr, 1) == InRam(m, r.statusAddr, 1);
      if InRam(m1, r.statusAddr, 1) { ReadAfterStore(m1, r.statusAddr, [status], 0, 0); }
    }
  }

  /** A path that can serve as the part of a request behind its header. */
  ghost predicate RequestPath(m: Mem, q: Queue, p: seq<u16>) {
    && IsPath(m, q, p)
    && DescriptorAt(m, q, p[|p| - 1]).Writable() && DescriptorAt(m, q, p[|p| - 1]).len > 0
  }

  /** A head names a request exactly when its header is well formed and readable and a complete chain, of whatever
      length, leads on to a writable status buffer. */
  lemma ParsedIffPath(m: Mem, q: Queue, head: u16)
    ensures Parse(m, q, head).Some? <==>
            var d := ReadDescriptor(m, q, head);
            && d.Some? && d.value.len >= 16 && !d.value.Writable() && !d.value.Indirect() && d.value.HasNext()
            && InRam(m, d.value.addr, 16)
            && exists p :: RequestPath(m, q, p) && p[0] == d.value.next
  {
    hide ReadDescriptor, Chain, LinksTo, FromLe, InRam, Distinct, RequestPath, RequestOf, SegmentsAlong;
    var read := ReadDescriptor(m, q, head);
    if read.Some? && InRam(m, read.value.addr, HEADER) {
      var hdr := ReadGuest(m, read.value.addr, HEADER).value;
      RequestIffPath(m, q, read.value.next, hdr);
    }
  }

  /** The part behind the header. */
  lemma RequestIffPath(m: Mem, q: Queue, next: u16, hdr: seq<u8>)
    requires |hdr| == HEADER
    ensures Chain(m, q, next).Some? ==> |Chain(m, q, next).value| > 0
    ensures Chain(m, q, next).Some? && RequestOf(hdr, Chain(m, q, next).value).Some? <==>
            exists p :: RequestPath(m, q, p) && p[0] == next
  {
    hide ReadDescriptor, Chain, LinksTo, FromLe, Distinct;
    CollectedIffPath(m, q, next);
    if p :| IsPath(m, q, p) && p[0] == next {
      PathIsRequest(m, q, p, hdr);
      forall p' | RequestPath(m, q, p') && p'[0] == next ensures RequestPath(m, q, p) { PathIsRequest(m, q, p', hdr); }
    }
  }

  /** A complete chain makes a request exactly when its last buffer is writable and not empty: the segments are
      those of the chain in order, and the status byte goes to the last one. */
  lemma PathIsRequest(m: Mem, q: Queue, p: seq<u16>, hdr: seq<u8>)
    requires IsPath(m, q, p) && |hdr| == HEADER
    ensures forall i | 0 <= i < |p| :: Usable(m, q, p[i])
    ensures Chain(m, q, p[0]) == Some(SegmentsAlong(m, q, p))
    ensures RequestOf(hdr, SegmentsAlong(m, q, p)).Some? <==> RequestPath(m, q, p)
    ensures var r := RequestOf(hdr, SegmentsAlong(m, q, p));
      r.Some? ==>
        && r.value.data == SegmentsAlong(m, q, p)[..|p| - 1]
        && r.value.statusAddr == DescriptorAt(m, q, p[|p| - 1]).addr
  {
    hide ReadDescriptor, Chain, LinksTo, Distinct;
    PathIsCollected(m, q, p);
  }

  /** What such a head names: the segments of its chain in order, and the last buffer for the status byte. */
  lemma ParsedSegments(m: Mem, q: Queue, head: u16, p: seq<u16>)
    requires Parse(m, q, head).Some? && ReadDescriptor(m, q, head).Some?
    requires IsPath(m, q, p) && p[0] == ReadDescriptor(m, q, head).value.next
    ensures forall i | 0 <= i < |p| :: Usable(m, q, p[i])
    ensures Parse(m, q, head).value.data == SegmentsAlong(m, q, p)[..|p| - 1]
    ensures Parse(m, q, head).value.statusAddr == DescriptorAt(m, q, p[|p| - 1]).addr
  {
    hide ReadDescriptor, Chain, LinksTo, FromLe, InRam, Distinct, RequestOf, SegmentsAlong;
    PathIsRequest(m, q, p, ReadGuest(m, ReadDescriptor(m, q, head).value.addr, HEADER).value);
  }

  // ----- what the bytes mean -----

  lemma Pow256Of8()
    ensures Pow256(2) == TWO16 && Pow256(4) == TWO32 && Pow256(8) == TWO64
  {
    assert Pow256(1) == 256 * Pow256(0);
    assert Pow256(3) == 256 * Pow256(2);
    assert Pow256(5) == 256 * Pow256(4);
    assert Pow256(7) == 256 * Pow256(6);
  }

  /** A header holding a kind, four bytes and a sector, each lowest byte first, asks for that kind at that sector. */
  lemma HeaderParses(kind: u32, reserved: seq<u8>, sector: u64, segs: seq<Segment>)
    requires |reserved| == 4 && |segs| > 0 && segs[|segs| - 1].writable && segs[|segs| - 1].len > 0
    ensures RequestOf(ToLe(kind, 4) + reserved + ToLe(sector, 8), segs)
            == Some(Request(kind, sector, segs[..|segs| - 1], segs[|segs| - 1].addr))
  {
    hide Pow256, ToLe, FromLe;
    var hdr := ToLe(kind, 4) + reserved + ToLe(sector, 8);
    Pow256Of8();
    LeRoundTrip(kind, 4);
    LeRoundTrip(sector, 8);
    assert hdr[0..4] == ToLe(kind, 4) && hdr[8..16] == ToLe(sector, 8);
  }

  /** A table entry holding an address, a length, flags and an index, in this order, is the descriptor with them. */
  lemma DescriptorParses(d: Descriptor)
    ensures DecodeDescriptor(ToLe(d.addr, 8) + ToLe(d.len, 4) + ToLe(d.flags, 2) + ToLe(d.next, 2)) == d
  {
    hide Pow256, ToLe, FromLe;
    var bs := ToLe(d.addr, 8) + ToLe(d.len, 4) + ToLe(d.flags, 2) + ToLe(d.next, 2);
    Pow256Of8();
    LeRoundTrip(d.addr, 8);
    LeRoundTrip(d.len, 4);
    LeRoundTrip(d.flags, 2);
    LeRoundTrip(d.next, 2);
    assert bs[0..8] == ToLe(d.addr, 8) && bs[8..12] == ToLe(d.len, 4);
    assert bs[12..14] == ToLe(d.flags, 2) && bs[14..16] == ToLe(d.next, 2);
  }

  /** The flags of a descriptor: 1 for a successor, 2 for a buffer the device writes, 4 for an indirect table. */
  lemma FlagsMean(addr: u64, len: u32, next: u16, linked: bool, writable: bool, indirect: bool)
    ensures var flags := (if linked then 1 else 0) + (if writable then 2 else 0) + (if indirect then 4 else 0);
      var d := Descriptor(addr, len, flags, next);
      d.HasNext() == linked && d.Writable() == writable && d.Indirect() == indirect
  {
  }

  /** The identity is the name of the device in ASCII, filled up with zeros to twenty bytes. */
  lemma IdentityIs()
    ensures |DEVICE_ID| == 20
    ensures forall i | 0 <= i < 20 :: DEVICE_ID[i] as int == if i < 15 then "aarchvm-virtblk"[i] as int else 0
  {
  }
}
