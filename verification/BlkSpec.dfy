/** What one block request does to guest memory and to the disk image. */
module BlkSpec {
  import opened Words
  import opened GuestMemory
  import opened Virtqueue
  import opened Transfer

  const SECTOR := 512
  const HEADER := 16

  const REQ_IN := 0
  const REQ_OUT := 1
  const REQ_FLUSH := 4
  const REQ_GET_ID := 8

  const STATUS_OK: u8 := 0
  const STATUS_IOERR: u8 := 1
  const STATUS_UNSUPPORTED: u8 := 2

  const ID_SIZE := 20

  /** The ASCII bytes of "aarchvm-virtblk", padded with zeros. */
  const DEVICE_ID: seq<u8> :=
    [97, 97, 114, 99, 104, 118, 109, 45, 118, 105, 114, 116, 98, 108, 107, 0, 0, 0, 0, 0]

  // ----- copying between memory and segments -----

  /** Copies data into the segments in turn, stopping at the first that cannot take its share. */
  function Scatter(m: Mem, segs: seq<Segment>, data: seq<u8>): (r: (Mem, bool))
    requires |data| == TotalLen(segs)
    decreases |segs|
  {
    if segs == [] then (m, true)
    else if !segs[0].writable then (m, false)
    else
      match WriteGuest(m, segs[0].addr, data[..segs[0].len])
      case None => (m, false)
      case Some(m') => Scatter(m', segs[1..], data[segs[0].len..])
  }

  /** Copies the segments' bytes into the image from an offset on, stopping at the first that cannot be read. */
  function Gather(m: Mem, segs: seq<Segment>, image: seq<u8>, off: nat): (r: (seq<u8>, bool))
    requires off + TotalLen(segs) <= |image|
    ensures |r.0| == |image|
    decreases |segs|
  {
    if segs == [] then (image, true)
    else if segs[0].writable then (image, false)
    else
      match ReadGuest(m, segs[0].addr, segs[0].len)
      case None => (image, false)
      case Some(bs) =>
        Gather(m, segs[1..], image[..off] + bs + image[off + |bs|..], off + segs[0].len)
  }

  /** Copies the identity bytes left over into the segments; an empty share ends the copying early. */
  function ScatterId(m: Mem, segs: seq<Segment>, data: seq<u8>): (r: (Mem, bool))
    decreases |segs|
  {
    if segs == [] then (m, data == [])
    else if !segs[0].writable then (m, false)
    else
      var chunk := Min(segs[0].len, |data|);
      if chunk == 0 then (m, data == [])
      else
        match WriteGuest(m, segs[0].addr, data[..chunk])
        case None => (m, false)
        case Some(m') => ScatterId(m', segs[1..], data[chunk..])
  }

  // ----- requests -----

  datatype Request = Request(kind: u32, sector: u64, data: seq<Segment>, statusAddr: u64)

  predicate HeaderOk(d: Descriptor) {
    d.len >= HEADER && !d.Writable() && !d.Indirect() && d.HasNext()
  }

  function RequestOf(hdr: seq<u8>, segs: seq<Segment>): (r: Option<Request>)
    requires |hdr| == HEADER && |segs| > 0
  {
    var last := segs[|segs| - 1];
    if !last.writable || last.len == 0 then None
    else
      FromLeBound(hdr[0..4]);
      FromLeBound(hdr[8..16]);
      Some(Request(FromLe(hdr[0..4]), FromLe(hdr[8..16]), segs[..|segs| - 1], last.addr))
  }

  function Parse(m: Mem, q: Queue, head: u16): (r: Option<Request>)
  {
    match ReadDescriptor(m, q, head)
    case None => None
    case Some(d) =>
      if !HeaderOk(d) then None
      else
        match ReadGuest(m, d.addr, HEADER)
        case None => None
        case Some(hdr) =>
          match Chain(m, q, d.next)
          case None => None
          case Some(segs) => RequestOf(hdr, segs)
  }

  datatype Outcome = Outcome(mem: Mem, image: seq<u8>, len: u32, answered: bool, status: u8)

  /** Writes the status byte; a request whose status cannot be written reports one byte used. */
  function Finish(m: Mem, image: seq<u8>, r: Request, len: u32, status: u8): Outcome {
    match WriteGuest(m, r.statusAddr, [status])
    case None => Outcome(m, image, 1, false, status)
    case Some(m') => Outcome(m', image, len, true, status)
  }

  /** The byte offset of a sector, as 64-bit arithmetic computes it. */
  function ImageOffset(sector: u64): u64 { (sector * SECTOR) % TWO64 }

  predicate InImage(image: seq<u8>, sector: u64, total: nat) {
    total % SECTOR == 0 && ImageOffset(sector) <= |image| && total <= |image| - ImageOffset(sector)
  }

  function Execute(m: Mem, image: seq<u8>, r: Request): (o: Outcome)
    ensures |o.image| == |image|
  {
    var total := TotalLen(r.data);
    var off := ImageOffset(r.sector);
    if r.kind == REQ_IN then
      if !InImage(image, r.sector, total) then Finish(m, image, r, 0, STATUS_IOERR)
      else
        var (m1, ok) := Scatter(m, r.data, image[off..off + total]);
        if ok then Finish(m1, image, r, (total + 1) % TWO32, STATUS_OK)
        else Finish(m1, image, r, 0, STATUS_IOERR)
    else if r.kind == REQ_OUT then
      if !InImage(image, r.sector, total) then Finish(m, image, r, 0, STATUS_IOERR)
      else
        var (image1, ok) := Gather(m, r.data, image, off);
        if ok then Finish(m, image1, r, 1, STATUS_OK) else Finish(m, image1, r, 0, STATUS_IOERR)
    else if r.kind == REQ_FLUSH then Finish(m, image, r, 1, STATUS_OK)
    else if r.kind == REQ_GET_ID then
      if r.data == [] then Finish(m, image, r, 0, STATUS_IOERR)
      else
        var (m1, ok) := ScatterId(m, r.data, DEVICE_ID);
        if ok then Finish(m1, image, r, ID_SIZE + 1, STATUS_OK) else Finish(m1, image, r, 0, STATUS_IOERR)
    else Finish(m, image, r, 1, STATUS_UNSUPPORTED)
  }

  /** A head that does not name a well-formed request changes nothing and reports one byte used. */
  function Process(m: Mem, image: seq<u8>, q: Queue, head: u16): (o: Outcome)
    ensures |o.image| == |image|
  {
    match Parse(m, q, head)
    case None => Outcome(m, image, 1, false, STATUS_IOERR)
    case Some(r) => Execute(m, image, r)
  }
}
