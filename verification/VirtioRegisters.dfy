/** Setting up and tearing down: what the drivers' register writes leave, queue by queue and device by device. */
module VirtioRegisters {
  import opened Words
  import opened GuestMemory
  import opened Virtqueue
  import opened Rings
  import opened BlkSpec
  import B = BlkDeviceSpec
  import BlkQueue
  import N = NetDeviceSpec
  import opened NetSpec

  // ----- a queue -----

  function WrittenAll(q: Queue, writes: seq<(QueueReg, u32)>): Queue
    decreases |writes|
  {
    if writes == [] then q else WrittenAll(WrittenQueue(q, writes[0].0, writes[0].1), writes[1..])
  }

  /** A driver's way of setting a queue up: its size, the three addresses in halves, and then ready. */
  function SetUp(num: u32, desc: u64, avail: u64, used: u64): seq<(QueueReg, u32)> {
    [(NumReg, num), (DescLow, desc % TWO32), (DescHigh, desc / TWO32), (AvailLow, avail % TWO32),
     (AvailHigh, avail / TWO32), (UsedLow, used % TWO32), (UsedHigh, used / TWO32), (ReadyReg, 1)]
  }

  lemma WrittenFirst(q: Queue, writes: seq<(QueueReg, u32)>)
    requires writes != []
    ensures WrittenAll(q, writes) == WrittenAll(WrittenQueue(q, writes[0].0, writes[0].1), writes[1..])
  {
  }

  /** Afterwards the queue is as told, whatever it was, with its place in the rings as before. */
  lemma SetUpWorks(q: Queue, num: u32, desc: u64, avail: u64, used: u64)
    requires num <= QUEUE_SIZE
    ensures WrittenAll(q, SetUp(num, desc, avail, used)) == Queue(num, true, desc, avail, used, q.lastAvail, q.usedIdx)
  {
    hide SetLow, SetHigh, WrittenAll;
    AddressHalves(q.desc, desc);
    AddressHalves(q.avail, avail);
    AddressHalves(q.used, used);
    var w: seq<(QueueReg, u32)> := SetUp(num, desc, avail, used);
    var q1 := WrittenQueue(q, NumReg, num);
    var q2 := WrittenQueue(WrittenQueue(q1, DescLow, desc % TWO32), DescHigh, desc / TWO32);
    var q3 := WrittenQueue(WrittenQueue(q2, AvailLow, avail % TWO32), AvailHigh, avail / TWO32);
    var q4 := WrittenQueue(WrittenQueue(q3, UsedLow, used % TWO32), UsedHigh, used / TWO32);
    WrittenFirst(q, w);
    WrittenFirst(q1, w[1..]);
    WrittenFirst(WrittenQueue(q1, DescLow, desc % TWO32), w[2..]);
    WrittenFirst(q2, w[3..]);
    WrittenFirst(WrittenQueue(q2, AvailLow, avail % TWO32), w[4..]);
    WrittenFirst(q3, w[5..]);
    WrittenFirst(WrittenQueue(q3, UsedLow, used % TWO32), w[6..]);
    WrittenFirst(q4, w[7..]);
    NothingWritten(WrittenQueue(q4, ReadyReg, 1));
    assert w[1..][1..] == w[2..] && w[2..][1..] == w[3..] && w[3..][1..] == w[4..] && w[4..][1..] == w[5..];
    assert w[5..][1..] == w[6..] && w[6..][1..] == w[7..];
    var last: seq<(QueueReg, u32)> := w[7..];
    assert |last[1..]| == 0;
  }

  lemma NothingWritten(q: Queue)
    ensures WrittenAll(q, []) == q
  {
  }

  /** Taking it out of operation starts both rings over. */
  lemma UnreadyRestarts(q: Queue)
    ensures var q' := WrittenQueue(q, ReadyReg, 0);
      !Operational(q') && q'.lastAvail == 0 && q'.usedIdx == 0 && SameLayout(q, q')
  {
  }

  // ----- the block device -----

  /** Register writes reach the one queue while it is selected; another selection leaves it alone. */
  lemma BlkQueueWritten(b: B.Blk, sel: u32, reg: QueueReg, value: u32)
    ensures var b' := B.Apply(B.Apply(b, B.SelectQueue(sel)), B.WriteQueue(reg, value));
      && b'.disk.q == (if sel == 0 then WrittenQueue(b.disk.q, reg, value) else b.disk.q)
      && b'.disk.mem == b.disk.mem && b'.disk.image == b.disk.image && b'.interrupt == b.interrupt
  {
    hide WrittenQueue;
  }

  /** A reset stops the queue, takes the interrupt down and keeps the image; until the driver sets the queue up again
      notifications do nothing. */
  lemma BlkResetStops(b: B.Blk, queueIndex: u32)
    ensures var b' := B.Apply(b, B.WriteStatus(0));
      && b'.interrupt == 0 && b'.status == 0 && b'.queueSel == 0
      && b'.disk.image == b.disk.image && b'.disk.mem == b.disk.mem
      && B.Notified(b', queueIndex) == b'
  {
  }

  /** A notification of any other queue, or without an image, does nothing. */
  lemma BlkOtherQueue(b: B.Blk, queueIndex: u32)
    requires queueIndex != 0 || b.disk.image == []
    ensures B.Notified(b, queueIndex) == b
  {
  }

  /** A new image is there byte for byte, filled up with zeros to whole sectors, and the device is reset. */
  lemma BlkImageSet(b: B.Blk, bytes: seq<u8>, i: nat)
    ensures var b' := B.Apply(b, B.SetImage(bytes));
      && |bytes| <= |b'.disk.image| < |bytes| + 512 && |b'.disk.image| % 512 == 0
      && (i < |b'.disk.image| ==> b'.disk.image[i] == if i < |bytes| then bytes[i] else 0)
      && !Operational(b'.disk.q) && b'.interrupt == 0
  {
  }

  /** Of the bits that were up, exactly those named have gone. */
  predicate TakenDown(before: bv32, bits: bv32, after: bv32) {
    after & bits == 0 && after | (before & bits) == before
  }

  lemma BitsTakenDown(i: bv32, bits: bv32)
    ensures TakenDown(i, bits, i & !bits)
  {
  }

  /** Acknowledging takes down exactly the bits named. */
  lemma BlkAcknowledged(b: B.Blk, bits: bv32)
    ensures TakenDown(b.interrupt, bits, B.Apply(b, B.AckInterrupt(bits)).interrupt)
  {
    hide TakenDown;
    BitsTakenDown(b.interrupt, bits);
  }

  // ----- the network device -----

  /** Register writes reach the selected queue of the two and not the other. */
  lemma NetQueueWritten(n: N.Net, sel: u32, reg: QueueReg, value: u32)
    ensures var p, p' := n.port, N.Apply(N.Apply(n, N.SelectQueue(sel)).net, N.WriteQueue(reg, value)).net.port;
      && p'.rx == (if sel == 0 then WrittenQueue(p.rx, reg, value) else p.rx)
      && p'.tx == (if sel == 1 then WrittenQueue(p.tx, reg, value) else p.tx)
      && p' == p.(rx := p'.rx, tx := p'.tx)
  {
    hide WrittenQueue;
  }

  /** A reset stops both queues and forgets which header was in use, but the frames that wait go on waiting. */
  lemma NetResetStops(n: N.Net, queueIndex: u32)
    ensures var n' := N.Apply(n, N.WriteStatus(0)).net;
      && n'.interrupt == 0 && n'.status == 0 && n'.queueSel == 0 && n'.port.pending == n.port.pending
      && ActiveHeaderSize(n'.port) == 10 && n'.port.mem == n.port.mem
      && N.Notified(n', queueIndex) == N.Step(n', [], [])
  {
  }

  /** Attaching another backend also drops the frames that wait. */
  lemma NetAttachedDrops(n: N.Net, present: bool, loopback: bool)
    ensures var n' := N.Apply(n, N.Attach(present, loopback)).net;
      n'.port.pending == [] && n'.present == present && n'.loopback == loopback && n'.interrupt == 0
  {
  }

  /** Negotiating merged receive buffers selects the 12-byte header at once. */
  lemma NetFeaturesSelectHeader(n: N.Net, mergeable: bool)
    requires n.port.headerSize == 10
    ensures ActiveHeaderSize(N.Apply(n, N.WriteFeatures(mergeable)).net.port) == if mergeable then 12 else 10
  {
  }

  lemma NetAcknowledged(n: N.Net, bits: bv32)
    ensures TakenDown(n.interrupt, bits, N.Apply(n, N.AckInterrupt(bits)).net.interrupt)
  {
    hide TakenDown;
    BitsTakenDown(n.interrupt, bits);
  }
}
