/** The block device: registers, notifications and the lockstep of its two ring indices. */
module BlkDeviceSpec {
  import opened Words
  import opened GuestMemory
  import opened Virtqueue
  import opened Transfer
  import opened Rings
  import opened BlkSpec
  import opened BlkQueue

  datatype Blk = Blk(disk: Disk, queueSel: u32, interrupt: bv32, status: u32)

  function Reset(b: Blk): Blk { Blk(b.disk.(q := RESET_QUEUE), 0, 0, 0) }

  function PadSectors(bytes: seq<u8>): (image: seq<u8>)
    ensures |image| % SECTOR == 0 && |bytes| <= |image| < |bytes| + SECTOR && image[..|bytes|] == bytes
  {
    bytes + seq((SECTOR - |bytes| % SECTOR) % SECTOR, i => 0)
  }

  function Notified(b: Blk, queueIndex: u32): Blk {
    if queueIndex != 0 || b.disk.image == [] || !Operational(b.disk.q) then b
    else
      match AvailIdx(b.disk.mem, b.disk.q)
      case None => b
      case Some(avail) =>
        var run := Serve(b.disk, avail);
        b.(disk := run.disk, interrupt := if run.log != [] then WithVring(b.interrupt) else b.interrupt)
  }

  /** Everything that can happen to the device; between accesses the guest may change its memory at will. */
  datatype Op =
    | Notify(queueIndex: u32)
    | SelectQueue(sel: u32)
    | WriteQueue(reg: QueueReg, value: u32)
    | WriteStatus(value: u32)
    | AckInterrupt(bits: bv32)
    | SetImage(bytes: seq<u8>)
    | GuestWrites(mem: Mem)

  function Apply(b: Blk, op: Op): Blk {
    match op
    case Notify(i) => Notified(b, i)
    case SelectQueue(sel) => b.(queueSel := sel)
    case WriteQueue(reg, v) =>
      if b.queueSel != 0 then b else b.(disk := b.disk.(q := WrittenQueue(b.disk.q, reg, v)))
    case WriteStatus(v) => if v == 0 then Reset(b) else b.(status := v)
    case AckInterrupt(bits) => b.(interrupt := b.interrupt & !bits)
    case SetImage(bytes) => Reset(b.(disk := b.disk.(image := PadSectors(bytes))))
    case GuestWrites(m) => b.(disk := b.disk.(mem := m))
  }

  function ApplyAll(b: Blk, ops: seq<Op>): Blk
    decreases |ops|
  {
    if ops == [] then b else ApplyAll(Apply(b, ops[0]), ops[1..])
  }

  /** The device has handed back exactly as many buffers as it has taken; sizes are in bounds, sectors are whole. */
  predicate InStep(b: Blk) {
    b.disk.q.lastAvail == b.disk.q.usedIdx && b.disk.q.num <= QUEUE_SIZE && |b.disk.image| % SECTOR == 0
  }

  lemma ServeOneInStep(d: Disk)
    requires d.q.num > 0
    ensures var d1 := ServeOne(d).disk;
      && (d.q.lastAvail == d.q.usedIdx ==> d1.q.lastAvail == d1.q.usedIdx)
      && |d1.image| == |d.image| && SameLayout(d.q, d1.q) && d1.q.ready == d.q.ready
  {
    hide Process, WriteWord, ReadWord, WriteUsed;
  }

  lemma {:induction false} ServeInStep(d: Disk, avail: u16)
    requires d.q.num > 0
    ensures var d1 := Serve(d, avail).disk;
      && (d.q.lastAvail == d.q.usedIdx ==> d1.q.lastAvail == d1.q.usedIdx)
      && |d1.image| == |d.image| && SameLayout(d.q, d1.q) && d1.q.ready == d.q.ready
    decreases Waiting(avail, d.q.lastAvail)
  {
    hide ServeOne;
    if d.q.lastAvail != avail {
      ServeOneInStep(d);
      WaitingShrinks(avail, d.q.lastAvail);
      if ServeOne(d).Served? { ServeInStep(ServeOne(d).disk, avail); }
    }
  }

  /** No register write, reset, notification, image change or guest store breaks the lockstep, broken rings included. */
  lemma {:induction false} AlwaysInStep(b: Blk, ops: seq<Op>)
    requires InStep(b)
    ensures InStep(ApplyAll(b, ops))
    decreases |ops|
  {
    hide Serve;
    if ops != [] {
      if Operational(b.disk.q) && AvailIdx(b.disk.mem, b.disk.q).Some? {
        ServeInStep(b.disk, AvailIdx(b.disk.mem, b.disk.q).value);
      }
      AlwaysInStep(Apply(b, ops[0]), ops[1..]);
    }
  }

  /** Notifying again with nothing new available changes nothing. */
  lemma NotifyTwiceIsOnce(b: Blk)
    requires b.disk.image != [] && Operational(b.disk.q) && AvailIdx(b.disk.mem, b.disk.q).Some?
    requires Orderly(b.disk.mem, b.disk.q, Waiting(AvailIdx(b.disk.mem, b.disk.q).value, b.disk.q.lastAvail))
    ensures Notified(Notified(b, 0), 0) == Notified(b, 0)
  {
    var avail := AvailIdx(b.disk.mem, b.disk.q).value;
    ServeCompletes(b.disk, avail);
    ServeKeepsAvail(b.disk, avail);
    ServeInStep(b.disk, avail);
    hide Polite, WellPlaced;
    var d1 := Serve(b.disk, avail).disk;
    assert d1.q.lastAvail == avail;
    assert AvailIdx(d1.mem, d1.q) == AvailIdx(d1.mem, b.disk.q);
    assert Serve(d1, avail) == Run(d1, []);
  }

  lemma {:induction false} ServeKeepsAvail(d: Disk, avail: u16)
    requires Orderly(d.mem, d.q, Waiting(avail, d.q.lastAvail))
    ensures AvailIdx(Serve(d, avail).disk.mem, d.q) == AvailIdx(d.mem, d.q)
    decreases Waiting(avail, d.q.lastAvail)
  {
    hide Slot, After, Next, Waiting, ServeOne, Polite, InRam, Disjoint, HeadAt, UsedIdx, AvailIdx;
    if d.q.lastAvail != avail {
      WaitingNone(avail, d.q.lastAvail);
      var n := Waiting(avail, d.q.lastAvail) - 1;
      WaitingShrinks(avail, d.q.lastAvail);
      ServeOneCompletes(d, n);
      var d1 := ServeOne(d).disk;
      HeadsAgree(d.mem, d1.mem, d.q, 0);
      ServeKeepsAvail(d1, avail);
      AvailLayout(Serve(d1, avail).disk.mem, d.q, d1.q);
      AvailLayout(d1.mem, d.q, d1.q);
    }
  }

  lemma AvailLayout(m: Mem, q: Queue, q': Queue)
    requires SameLayout(q, q')
    ensures AvailIdx(m, q) == AvailIdx(m, q')
  {
  }
}

module VirtioBlkDevice {
  import opened Words
  import opened GuestMemory
  import opened Virtqueue
  import opened Transfer
  import opened Rings
  import opened BlkSpec
  import opened BlkQueue
  import opened BlkDeviceSpec

  class VirtioBlk {
    var mem: Mem
    var image: seq<u8>
    var queue: Queue
    var queueSel: u32
    var interruptStatus: bv32
    var status: u32

    function DiskNow(): Disk
      reads this
    {
      Disk(mem, image, queue)
    }

    function State(): Blk
      reads this
    {
      Blk(DiskNow(), queueSel, interruptStatus, status)
    }

    constructor (ram: Mem)
      ensures State() == Blk(Disk(ram, [], RESET_QUEUE), 0, 0, 0)
      ensures InStep(State())
    {
      mem, image, queue := ram, [], RESET_QUEUE;
      queueSel, interruptStatus, status := 0, 0, 0;
    }

    // ----- copying loops -----

    lemma SliceOfSlice(s: seq<u8>, off: nat, n: nat, i: nat, k: nat)
      requires off + n <= |s| && i + k <= n
      ensures s[off..off + n][i..][..k] == s[off + i..off + i + k]
      ensures s[off..off + n][i..][k..] == s[off..off + n][i + k..]
    {
    }

    /** The read request's copy from the image into the segments. */
    method CopyIn(segments: seq<Segment>, imageOffset: nat) returns (ok: bool)
      requires imageOffset + TotalLen(segments) <= |image|
      modifies this`mem
      ensures (mem, ok) == Scatter(old(mem), segments, image[imageOffset..imageOffset + TotalLen(segments)])
    {
      hide WriteGuest, InRam;
      var copied := 0;
      var i := 0;
      ghost var whole := image[imageOffset..imageOffset + TotalLen(segments)];
      while i < |segments|
        invariant i <= |segments| && 0 <= copied
        invariant copied + TotalLen(segments[i..]) == TotalLen(segments)
        invariant Scatter(old(mem), segments, whole) == Scatter(mem, segments[i..], whole[copied..])
      {
        var seg := segments[i];
        assert segments[i..][1..] == segments[i + 1..];
        if !seg.writable { return false; }
        var part := image[imageOffset + copied..imageOffset + copied + seg.len];
        SliceOfSlice(image, imageOffset, TotalLen(segments), copied, seg.len);
        var written := WriteGuest(mem, seg.addr, part);
        if written.None? { return false; }
        mem := written.value;
        copied := copied + seg.len;
        i := i + 1;
      }
      ok := true;
    }

    /** The write request's copy from the segments into the image. */
    method CopyOut(segments: seq<Segment>, imageOffset: nat) returns (ok: bool)
      requires imageOffset + TotalLen(segments) <= |image|
      modifies this`image
      ensures (image, ok) == Gather(mem, segments, old(image), imageOffset)
    {
      var copied := 0;
      var i := 0;
      while i < |segments|
        invariant i <= |segments| && 0 <= copied && |image| == |old(image)|
        invariant copied + TotalLen(segments[i..]) == TotalLen(segments)
        invariant Gather(mem, segments, old(image), imageOffset)
               == Gather(mem, segments[i..], image, imageOffset + copied)
      {
        var seg := segments[i];
        assert segments[i..][1..] == segments[i + 1..];
        if seg.writable { return false; }
        var tmp := ReadGuest(mem, seg.addr, seg.len);
        if tmp.None? { return false; }
        var at := imageOffset + copied;
        image := image[..at] + tmp.value + image[at + |tmp.value|..];
        copied := copied + seg.len;
        i := i + 1;
      }
      ok := true;
    }

    /** The identity request's copy; an empty share stops it. */
    method CopyId(segments: seq<Segment>) returns (ok: bool)
      modifies this`mem
      ensures (mem, ok) == ScatterId(old(mem), segments, DEVICE_ID)
    {
      hide DEVICE_ID, WriteGuest, InRam;
      IdSize();
      var copied := 0;
      var i := 0;
      while i < |segments|
        invariant i <= |segments| && 0 <= copied <= ID_SIZE
        invariant ScatterId(old(mem), segments, DEVICE_ID) == ScatterId(mem, segments[i..], DEVICE_ID[copied..])
      {
        var seg := segments[i];
        assert segments[i..][1..] == segments[i + 1..];
        if !seg.writable { return false; }
        var chunk := Min(seg.len, ID_SIZE - copied);
        if chunk == 0 { break; }
        TailSlices(DEVICE_ID, copied, chunk);
        var written := WriteGuest(mem, seg.addr, DEVICE_ID[copied..copied + chunk]);
        if written.None? { return false; }
        mem := written.value;
        copied := copied + chunk;
        i := i + 1;
      }
      ok := copied == ID_SIZE;
    }

    lemma IdSize()
      ensures |DEVICE_ID| == ID_SIZE
    {
    }

    // ----- requests -----

    method WriteStatusByte(r: Request, byte: u8, ghost len: u32) returns (ok: bool)
      modifies this`mem
      ensures var o := Finish(old(mem), image, r, len, byte);
        mem == o.mem && ok == o.answered && o.len == if ok then len else 1
    {
      var written := WriteGuest(mem, r.statusAddr, [byte]);
      if written.Some? { mem := written.value; }
      ok := written.Some?;
    }

    /** Walks the descriptors after the header; the last one must be a writable status buffer. */
    method ParseRequest(head: u16) returns (r: Option<Request>)
      ensures r == Parse(mem, queue, head)
    {
      hide ReadDescriptor, RequestOf, ReadGuest;
      var first := ReadDescriptor(mem, queue, head);
      if first.None? || first.value.len < HEADER || first.value.Writable() || first.value.Indirect()
         || !first.value.HasNext() {
        return None;
      }
      var hdr := ReadGuest(mem, first.value.addr, HEADER);
      if hdr.None? { return None; }
      var segments := [];
      var index := first.value.next;
      var hops := 0;
      ghost var chain := Chain(mem, queue, index);
      assert forall s: seq<Segment> :: [] + s == s;
      while true
        invariant hops <= queue.num
        invariant chain == Prepend(segments, Walk(mem, queue, index, queue.num - hops))
        decreases queue.num - hops
      {
        hops := hops + 1;
        if hops > queue.num { return None; }
        var read := ReadDescriptor(mem, queue, index);
        if read.None? || read.value.Indirect() { return None; }
        var d := read.value;
        if !d.HasNext() {
          assert chain == Some(segments + [SegmentOf(d)]);
          return RequestOf(hdr.value, segments + [SegmentOf(d)]);
        }
        assert forall rest: seq<Segment> :: segments + ([SegmentOf(d)] + rest) == segments + [SegmentOf(d)] + rest;
        segments := segments + [SegmentOf(d)];
        index := d.next;
      }
    }

    method ProcessRequest(head: u16) returns (ok: bool, usedLen: u32)
      modifies this`mem, this`image
      ensures var o := Process(old(mem), old(image), queue, head);
        mem == o.mem && image == o.image && ok == o.answered && (if ok then usedLen == o.len else o.len == 1)
    {
      hide Parse, Scatter, Gather, ScatterId, TotalLen;
      var parsed := ParseRequest(head);
      if parsed.None? { return false, 0; }
      var r := parsed.value;
      assert Process(mem, image, queue, head) == Execute(mem, image, r);
      var total := TotalLen(r.data);
      usedLen := 0;
      if r.kind == REQ_IN || r.kind == REQ_OUT {
        if total % SECTOR != 0 || ImageOffset(r.sector) > |image| || total > |image| - ImageOffset(r.sector) {
          ok := WriteStatusByte(r, STATUS_IOERR, usedLen);
          return;
        }
        if r.kind == REQ_IN {
          var copied := CopyIn(r.data, ImageOffset(r.sector));
          if copied { usedLen := (total + 1) % TWO32; }
          ok := WriteStatusByte(r, if copied then STATUS_OK else STATUS_IOERR, usedLen);
        } else {
          var copied := CopyOut(r.data, ImageOffset(r.sector));
          if copied { usedLen := 1; }
          ok := WriteStatusByte(r, if copied then STATUS_OK else STATUS_IOERR, usedLen);
        }
      } else if r.kind == REQ_FLUSH {
        usedLen := 1;
        ok := WriteStatusByte(r, STATUS_OK, usedLen);
      } else if r.kind == REQ_GET_ID {
        if r.data == [] {
          ok := WriteStatusByte(r, STATUS_IOERR, usedLen);
          return;
        }
        var copied := CopyId(r.data);
        if copied { usedLen := ID_SIZE + 1; }
        ok := WriteStatusByte(r, if copied then STATUS_OK else STATUS_IOERR, usedLen);
      } else {
        usedLen := 1;
        ok := WriteStatusByte(r, STATUS_UNSUPPORTED, usedLen);
      }
    }

    // ----- the queue -----

    method RaiseInterrupt(bits: bv32)
      modifies this`interruptStatus
      ensures interruptStatus == old(interruptStatus) | bits
    {
      interruptStatus := interruptStatus | bits;
    }

    /** One pass of the loop: take the next head, perform it, hand it back. */
    method ServeNext() returns (completed: bool, ghost entry: Entry)
      requires queue.num > 0
      modifies this`mem, this`image, this`queue
      ensures var t := ServeOne(old(DiskNow()));
        DiskNow() == t.disk && completed == t.Served? && (completed ==> entry == t.entry)
    {
      hide Process, WriteUsed, HeadAt, WriteWord, ReadWord;
      var read := HeadAt(mem, queue, queue.lastAvail);
      if read.None? { return false, Entry(0, 0); }
      var ok, usedLen := ProcessRequest(read.value);
      if !ok { usedLen := 1; }
      entry := Entry(read.value, usedLen);
      var handed := HandBack(mem, queue, read.value, usedLen);
      mem := handed.mem;
      if handed.Refused? { return false, entry; }
      queue := Advance(queue);
      completed := handed.Completed?;
    }

    /** The loop over what is available. */
    method ServeQueue(avail: u16) returns (anyCompleted: bool)
      requires queue.num > 0
      modifies this`mem, this`image, this`queue
      ensures var run := Serve(old(DiskNow()), avail);
        DiskNow() == run.disk && anyCompleted == (run.log != [])
    {
      hide ServeOne, Waiting, Next;
      ghost var log: seq<Entry> := [];
      ghost var whole := Serve(DiskNow(), avail);
      anyCompleted := false;
      assert [] + whole.log == whole.log;
      while queue.lastAvail != avail
        invariant queue.num > 0
        invariant anyCompleted == (log != [])
        invariant whole == Joined(log, Serve(DiskNow(), avail))
        decreases Waiting(avail, queue.lastAvail)
      {
        WaitingShrinks(avail, queue.lastAvail);
        ghost var entry: Entry;
        var completed: bool;
        completed, entry := ServeNext();
        if !completed {
          assert whole == Run(DiskNow(), log);
          break;
        }
        anyCompleted := true;
        ghost var rest := Serve(DiskNow(), avail);
        assert log + ([entry] + rest.log) == log + [entry] + rest.log;
        log := log + [entry];
      }
      assert whole == Run(DiskNow(), log);
    }

    /** What was completed so far, joined with what the rest of the loop completes. */
    ghost function Joined(log: seq<Entry>, rest: BlkQueue.Run): BlkQueue.Run {
      BlkQueue.Run(rest.disk, log + rest.log)
    }

    method ProcessQueue(queueIndex: u32)
      modifies this`mem, this`image, this`queue, this`interruptStatus
      ensures State() == Notified(old(State()), queueIndex)
    {
      hide Serve, AvailIdx;
      if queueIndex != 0 || image == [] || !Operational(queue) { return; }
      var read := AvailIdx(mem, queue);
      if read.None? { return; }
      var anyCompleted := ServeQueue(read.value);
      if anyCompleted { RaiseInterrupt(INT_VRING); }
    }

    // ----- registers -----

    method WriteQueueRegister(reg: QueueReg, value: u32)
      modifies this`queue
      ensures State() == Apply(old(State()), WriteQueue(reg, value))
    {
      if queueSel != 0 { return; }
      match reg
      case NumReg => queue := queue.(num := Min(value, QUEUE_SIZE));
      case ReadyReg =>
        queue := queue.(ready := value != 0);
        if !queue.ready { queue := queue.(lastAvail := 0, usedIdx := 0); }
      case DescLow => queue := queue.(desc := SetLow(queue.desc, value));
      case DescHigh => queue := queue.(desc := SetHigh(queue.desc, value));
      case AvailLow => queue := queue.(avail := SetLow(queue.avail, value));
      case AvailHigh => queue := queue.(avail := SetHigh(queue.avail, value));
      case UsedLow => queue := queue.(used := SetLow(queue.used, value));
      case UsedHigh => queue := queue.(used := SetHigh(queue.used, value));
    }

    method ResetDeviceState()
      modifies this`queueSel, this`queue, this`status, this`interruptStatus
      ensures State() == Reset(old(State()))
    {
      queueSel := 0;
      queue := RESET_QUEUE;
      status := 0;
      ClearInterrupt(0xffff_ffff);
    }

    method ClearInterrupt(bits: bv32)
      modifies this`interruptStatus
      ensures interruptStatus == old(interruptStatus) & !bits
    {
      interruptStatus := interruptStatus & !bits;
    }

    method SetImage(bytes: seq<u8>)
      modifies this
      ensures State() == Apply(old(State()), BlkDeviceSpec.SetImage(bytes))
    {
      image := PadSectors(bytes);
      ResetDeviceState();
    }

    /** One guest access or other event. */
    method Perform(op: Op)
      requires InStep(State())
      modifies this
      ensures State() == Apply(old(State()), op) && InStep(State())
    {
      AlwaysInStep(State(), [op]);
      match op
      case Notify(i) => ProcessQueue(i);
      case SelectQueue(sel) => queueSel := sel;
      case WriteQueue(reg, v) => WriteQueueRegister(reg, v);
      case WriteStatus(v) => if v == 0 { ResetDeviceState(); } else { status := v; }
      case AckInterrupt(bits) => ClearInterrupt(bits);
      case SetImage(bytes) => SetImage(bytes);
      case GuestWrites(m) => mem := m;
    }
  }
}
