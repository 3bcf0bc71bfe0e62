/** A setting in which loopback delivers: one frame, one receive buffer, four kilobytes of memory. */
module LoopbackExample {
  import opened Words
  import opened GuestMemory
  import opened Virtqueue
  import opened Rings
  import opened Transfer
  import opened NetSpec
  import opened NetTheorems
  import opened NetDelivery
  import opened NetDeviceSpec
  import opened NetLoopback

  const SIZE := 4096
  const TX_TABLE := 256
  const RX_TABLE := 512
  const TX_AVAIL := 768
  const RX_AVAIL := 800
  const TX_USED := 1024
  const RX_USED := 1088
  const RX_BUFFER := 2048
  /** A ten-byte header and a frame of fourteen bytes. */
  const LENGTH := 24

  /** All zero but for the two descriptors and the two available indices. */
  function ByteAt(i: nat): u8 {
    if i == TX_TABLE + 8 || i == RX_TABLE + 8 then LENGTH
    else if i == RX_TABLE + 1 then RX_BUFFER / 256
    else if i == RX_TABLE + 12 then 2
    else if i == TX_AVAIL + 2 || i == RX_AVAIL + 2 then 1
    else 0
  }

  function Memory(): (m: Mem)
    ensures |m.bytes| == SIZE && m.regions == [Region(0, SIZE)]
    ensures forall i | 0 <= i < SIZE :: m.bytes[i] == ByteAt(i)
  {
    GuestMemory.Memory([Region(0, SIZE)], seq(SIZE, i requires 0 <= i < SIZE => ByteAt(i)))
  }

  const TxQueue := Queue(1, true, TX_TABLE, TX_AVAIL, TX_USED, 0, 0)
  const RxQueue := Queue(1, true, RX_TABLE, RX_AVAIL, RX_USED, 0, 0)

  function Device(): Net {
    Net(Port(Memory(), [], false, NET_HDR, RxQueue, TxQueue), true, true, 0, 0, 0)
  }

  const Sent: Frame := Zeros(14)

  lemma Inside(addr: nat, n: nat)
    requires addr + n <= SIZE
    ensures InRam(Memory(), addr, n)
  {
    assert Region(0, SIZE) in Memory().regions;
  }

  lemma TwoBytes(addr: nat)
    requires addr + 2 <= SIZE
    ensures ReadU16(Memory(), addr) == Some(ByteAt(addr) + 256 * ByteAt(addr + 1))
  {
    Inside(addr, 2);
    var bs := Memory().bytes[addr..addr + 2];
    assert bs == [ByteAt(addr), ByteAt(addr + 1)];
    assert bs[1..] == [ByteAt(addr + 1)] && bs[1..][1..] == [];
    assert FromLe(bs[1..][1..]) == 0;
    assert FromLe(bs[1..]) == ByteAt(addr + 1);
  }

  lemma Indices()
    ensures AvailIdx(Memory(), TxQueue) == Some(1) && AvailIdx(Memory(), RxQueue) == Some(1)
    ensures HeadAt(Memory(), TxQueue, 0) == Some(0) && HeadAt(Memory(), RxQueue, 0) == Some(0)
  {
    hide ReadU16, Memory;
    TwoBytes(TX_AVAIL + 2);
    TwoBytes(RX_AVAIL + 2);
    TwoBytes(TX_AVAIL + 4);
    TwoBytes(RX_AVAIL + 4);
  }

  /** A number of which only the lowest byte, or only the second, is not zero. */
  lemma {:induction false} ZeroWord(bs: seq<u8>)
    requires forall i | 0 <= i < |bs| :: bs[i] == 0
    ensures FromLe(bs) == 0
  {
    if bs != [] { ZeroWord(bs[1..]); }
  }

  lemma LowByte(bs: seq<u8>)
    requires |bs| > 0 && forall i | 1 <= i < |bs| :: bs[i] == 0
    ensures FromLe(bs) == bs[0]
  {
    ZeroWord(bs[1..]);
  }

  lemma SecondByte(bs: seq<u8>)
    requires |bs| > 1 && bs[0] == 0 && forall i | 2 <= i < |bs| :: bs[i] == 0
    ensures FromLe(bs) == 256 * (bs[1] as int)
  {
    LowByte(bs[1..]);
  }

  lemma Descriptors()
    ensures ReadDescriptor(Memory(), TxQueue, 0) == Some(Descriptor(0, LENGTH, 0, 0))
    ensures ReadDescriptor(Memory(), RxQueue, 0) == Some(Descriptor(RX_BUFFER, LENGTH, 2, 0))
  {
    TxDescriptor();
    RxDescriptor();
  }

  lemma TxDescriptor()
    ensures ReadDescriptor(Memory(), TxQueue, 0) == Some(Descriptor(0, LENGTH, 0, 0))
  {
    hide FromLe, Memory;
    Inside(TX_TABLE, DESC_SIZE);
    var t := Memory().bytes[TX_TABLE..TX_TABLE + 16];
    assert forall i | 0 <= i < 16 :: t[i] == ByteAt(TX_TABLE + i);
    ZeroWord(t[0..8]);
    LowByte(t[8..12]);
    ZeroWord(t[12..14]);
    ZeroWord(t[14..16]);
  }

  lemma RxDescriptor()
    ensures ReadDescriptor(Memory(), RxQueue, 0) == Some(Descriptor(RX_BUFFER, LENGTH, 2, 0))
  {
    hide FromLe, Memory;
    Inside(RX_TABLE, DESC_SIZE);
    var r := Memory().bytes[RX_TABLE..RX_TABLE + 16];
    assert forall i | 0 <= i < 16 :: r[i] == ByteAt(RX_TABLE + i);
    SecondByte(r[0..8]);
    LowByte(r[8..12]);
    LowByte(r[12..14]);
    ZeroWord(r[14..16]);
  }

  lemma Buffers()
    ensures BufferAt(Memory(), TxQueue, 0) == Some([Segment(0, LENGTH, false)])
    ensures BufferAt(Memory(), RxQueue, 0) == Some([Segment(RX_BUFFER, LENGTH, true)])
  {
    hide ReadDescriptor, HeadAt, Memory;
    Indices();
    Descriptors();
  }

  lemma Written()
    ensures Offered(Memory(), TxQueue, 0) == Some(([Segment(0, LENGTH, false)], Zeros(LENGTH)))
  {
    hide BufferAt;
    Buffers();
    Inside(0, LENGTH);
    var segs := [Segment(0, LENGTH, false)];
    assert Memory().bytes[0..LENGTH] == Zeros(LENGTH);
    assert segs[1..] == [];
    assert Zeros(LENGTH) + [] == Zeros(LENGTH);
  }

  lemma Placed()
    ensures WellPlaced(Memory(), TxQueue) && WellPlaced(Memory(), RxQueue) && KeepsOff(TxQueue, RxQueue)
  {
    Inside(TX_AVAIL, AvailSize(TxQueue));
    Inside(TX_USED, UsedSize(TxQueue));
    Inside(RX_AVAIL, AvailSize(RxQueue));
    Inside(RX_USED, UsedSize(RxQueue));
  }

  lemma FrameWritten()
    ensures WroteAll(Memory(), TxQueue, NET_HDR, [Sent]) && HeadersDetected(Device().port, NET_HDR, [Sent])
  {
    hide Offered, WellPlaced, Memory;
    AfterZero(0);
    Placed();
    Written();
    assert Zeros(LENGTH)[NET_HDR..] == Sent;
  }

  lemma BufferCourteous()
    ensures Courteous(Memory(), RxQueue, 1)
  {
    hide BufferAt, WellPlaced, HeadAt, Memory, Chain, InRam;
    AfterZero(0);
    Placed();
    Buffers();
    Indices();
    ReceiveChain();
  }

  lemma BufferReady()
    ensures Courteous(Memory(), RxQueue, 1)
    ensures RoomForAll(Device().port.(pending := [] + [Sent]), NET_HDR, 1)
  {
    hide BufferAt, WellPlaced, HeadAt, Memory, Courteous, InRam;
    BufferCourteous();
    AfterZero(0);
    Buffers();
    Inside(RX_BUFFER, LENGTH);
    var segs := [Segment(RX_BUFFER, LENGTH, true)];
    assert TotalLen(segs) == LENGTH + TotalLen(segs[1..]);
  }

  lemma ReceiveChain()
    ensures Chain(Memory(), RxQueue, 0) == Some([Segment(RX_BUFFER, LENGTH, true)])
  {
    hide ReadDescriptor, Memory;
    Descriptors();
  }

  /** Everything the delivery theorem asks for holds here, so the frame is delivered. */
  lemma ItDelivers()
    ensures LoopbackReady(Device(), NET_HDR, [Sent])
    ensures var step := Notified(Device(), QUEUE_TX);
      step.delivered == [Sent] && step.net.port.pending == []
      && DriverView(step.net.port.mem, RxQueue, 0, NET_HDR) == Some(Sent)
  {
    hide WroteAll, HeadersDetected, Courteous, RoomForAll, KeepsOff, AvailIdx, Notified, DriverView, Memory;
    FrameWritten();
    BufferReady();
    Placed();
    Indices();
    AfterZero(0);
    assert [] + [Sent] == [Sent];
    LoopbackDelivers(Device(), NET_HDR, [Sent]);
  }
}
