/** The network device: notifications, registers, and the history of what was submitted and delivered. */
module NetDeviceSpec {
  import opened Words
  import opened GuestMemory
  import opened Virtqueue
  import opened Rings
  import opened Transfer
  import opened NetSpec
  import opened NetTheorems

  const QUEUE_RX := 0
  const QUEUE_TX := 1
  const QUEUE_COUNT := 2

  datatype Net = Net(port: Port, present: bool, loopback: bool, queueSel: u32, interrupt: bv32, status: u32)

  /** A device step with the frames it took from the transmit queue and those it delivered to the receive queue. */
  datatype Step = Step(net: Net, sent: seq<Frame>, delivered: seq<Frame>)

  function Interrupted(n: Net, port: Port, any: bool): Net {
    n.(port := port, interrupt := if any then WithVring(n.interrupt) else n.interrupt)
  }

  function Notified(n: Net, queueIndex: u32): Step {
    if !n.present || queueIndex >= QUEUE_COUNT then Step(n, [], [])
    else if queueIndex == QUEUE_TX then
      var tx := ProcessTx(n.port, n.loopback);
      var rx := if tx.port.pending != [] then ProcessRx(tx.port) else Run(tx.port, [], false);
      Step(Interrupted(n, rx.port, tx.any || rx.any), tx.moved, rx.moved)
    else
      var rx := ProcessRx(n.port);
      Step(Interrupted(n, rx.port, rx.any), [], rx.moved)
  }

  /** Resetting forgets queues and header sizes, but keeps the frames that wait. */
  function Reset(n: Net): Net {
    n.(port := n.port.(mergeable := false, headerSize := NET_HDR, rx := RESET_QUEUE, tx := RESET_QUEUE),
       queueSel := 0, interrupt := 0, status := 0)
  }

  function Attached(n: Net, present: bool, loopback: bool): Net {
    Reset(n.(present := present, loopback := loopback, port := n.port.(pending := [])))
  }

  function Enqueued(n: Net, frame: Frame): Step {
    if !n.present then Step(n, [], [])
    else
      var rx := ProcessRx(n.port.(pending := n.port.pending + [frame]));
      Step(Interrupted(n, rx.port, rx.any), [], rx.moved)
  }

  datatype Op =
    | Notify(queueIndex: u32)
    | Enqueue(frame: Frame)
    | SelectQueue(sel: u32)
    | WriteQueue(reg: QueueReg, value: u32)
    | WriteFeatures(mergeable: bool)
    | WriteStatus(value: u32)
    | AckInterrupt(bits: bv32)
    | GuestWrites(mem: Mem)
    | Attach(present: bool, loopback: bool)

  function WithQueue(n: Net, reg: QueueReg, value: u32): Net {
    if n.queueSel == QUEUE_RX then n.(port := n.port.(rx := WrittenQueue(n.port.rx, reg, value)))
    else if n.queueSel == QUEUE_TX then n.(port := n.port.(tx := WrittenQueue(n.port.tx, reg, value)))
    else n
  }

  function Apply(n: Net, op: Op): Step {
    match op
    case Notify(i) => Notified(n, i)
    case Enqueue(f) => Enqueued(n, f)
    case SelectQueue(sel) => Step(n.(queueSel := sel), [], [])
    case WriteQueue(reg, v) => Step(WithQueue(n, reg, v), [], [])
    case WriteFeatures(mergeable) => Step(n.(port := n.port.(mergeable := mergeable)), [], [])
    case WriteStatus(v) => Step(if v == 0 then Reset(n) else n.(status := v), [], [])
    case AckInterrupt(bits) => Step(n.(interrupt := n.interrupt & !bits), [], [])
    case GuestWrites(m) => Step(n.(port := n.port.(mem := m)), [], [])
    case Attach(present, loopback) => Step(Attached(n, present, loopback), [], [])
  }

  // ----- history -----

  /** The device with every frame submitted for reception and every frame delivered since it was attached. */
  datatype History = History(net: Net, submitted: seq<Frame>, delivered: seq<Frame>)

  function Submitted(n: Net, op: Op, step: Step): seq<Frame> {
    match op
    case Enqueue(f) => if n.present then [f] else []
    case _ => if n.loopback then step.sent else []
  }

  function Record(h: History, op: Op): History {
    var step := Apply(h.net, op);
    if op.Attach? then History(step.net, [], [])
    else History(step.net, h.submitted + Submitted(h.net, op, step), h.delivered + step.delivered)
  }

  function RecordAll(h: History, ops: seq<Op>): History
    decreases |ops|
  {
    if ops == [] then h else RecordAll(Record(h, ops[0]), ops[1..])
  }

  /** What was submitted is what was delivered followed by what still waits: same frames, same order, each once. */
  predicate Conserved(h: History) {
    h.submitted == h.delivered + h.net.port.pending
  }

  lemma ProcessTxAppends(p: Port, loopback: bool)
    ensures var run := ProcessTx(p, loopback);
      run.port.pending == (if loopback then p.pending + run.moved else p.pending) && run.port.rx == p.rx
  {
    hide AvailIdx, TransmitAll;
    assert p.pending + [] == p.pending;
    if Operational(p.tx) && AvailIdx(p.mem, p.tx).Some? {
      TransmitAppends(p, loopback, AvailIdx(p.mem, p.tx).value);
    }
  }

  lemma ProcessRxPops(p: Port)
    ensures var run := ProcessRx(p); p.pending == run.moved + run.port.pending && run.port.tx == p.tx
    ensures var n := |ProcessRx(p).moved|;
      ProcessRx(p).port.rx == p.rx.(lastAvail := After(p.rx.lastAvail, n), usedIdx := After(p.rx.usedIdx, n))
  {
    hide AvailIdx, ReceiveAll;
    if Operational(p.rx) && AvailIdx(p.mem, p.rx).Some? {
      if p.pending != [] { ReceivePops(p, ActiveHeaderSize(p), AvailIdx(p.mem, p.rx).value); }
    }
  }

  lemma NotifiedConserves(n: Net, queueIndex: u32)
    ensures var s := Notified(n, queueIndex);
      n.port.pending + (if n.loopback then s.sent else []) == s.delivered + s.net.port.pending
  {
    hide ProcessTx, ProcessRx, After;
    var tx := ProcessTx(n.port, n.loopback);
    ProcessTxAppends(n.port, n.loopback);
    ProcessRxPops(tx.port);
    ProcessRxPops(n.port);
  }

  lemma EnqueuedConserves(n: Net, frame: Frame)
    ensures var s := Enqueued(n, frame);
      n.port.pending + (if n.present then [frame] else []) == s.delivered + s.net.port.pending
  {
    hide ProcessRx, After;
    ProcessRxPops(n.port.(pending := n.port.pending + [frame]));
  }

  lemma RecordConserves(h: History, op: Op)
    requires Conserved(h)
    ensures Conserved(Record(h, op))
  {
    hide Notified, Enqueued, WithQueue;
    var n := h.net;
    match op
    case Notify(i) =>
      NotifiedConserves(n, i);
      var s := Notified(n, i);
      Rearranged(h.delivered, n.port.pending, if n.loopback then s.sent else [], s.delivered, s.net.port.pending);
    case Enqueue(f) =>
      EnqueuedConserves(n, f);
      var s := Enqueued(n, f);
      Rearranged(h.delivered, n.port.pending, if n.present then [f] else [], s.delivered, s.net.port.pending);
    case WriteQueue(reg, value) => WithQueueKeepsFrames(n, reg, value);
    case _ =>
  }

  lemma WithQueueKeepsFrames(n: Net, reg: QueueReg, value: u32)
    ensures WithQueue(n, reg, value).port.pending == n.port.pending
  {
    hide WrittenQueue;
  }

  lemma Rearranged(d: seq<Frame>, pending: seq<Frame>, taken: seq<Frame>, moved: seq<Frame>, left: seq<Frame>)
    requires pending + taken == moved + left
    ensures d + pending + taken == (d + moved) + left
  {
    assert d + pending + taken == d + (pending + taken);
    assert d + moved + left == d + (moved + left);
  }

  /** A lossless FIFO over every run: notifications, register writes, resets, guest stores, failing rings included. */
  lemma {:induction false} AlwaysConserved(h: History, ops: seq<Op>)
    requires Conserved(h)
    ensures Conserved(RecordAll(h, ops))
    decreases |ops|
  {
    if ops != [] {
      RecordConserves(h, ops[0]);
      AlwaysConserved(Record(h, ops[0]), ops[1..]);
    }
  }

  /** Delivered frames are a prefix of the submitted ones; the queue holds the rest. */
  lemma DeliveredInOrder(h: History, ops: seq<Op>)
    requires Conserved(h)
    ensures var h' := RecordAll(h, ops);
      && |h'.delivered| <= |h'.submitted|
      && h'.submitted[..|h'.delivered|] == h'.delivered
      && |h'.net.port.pending| == |h'.submitted| - |h'.delivered|
  {
    AlwaysConserved(h, ops);
  }

  /** Ring indices of both queues move in lockstep, and only the two header sizes occur. */
  predicate InStep(n: Net) {
    var p := n.port;
    && p.rx.lastAvail == p.rx.usedIdx && p.tx.lastAvail == p.tx.usedIdx
    && p.rx.num <= QUEUE_SIZE && p.tx.num <= QUEUE_SIZE
    && p.headerSize in {NET_HDR, MRG_HDR}
  }

  lemma {:induction false} TransmitInStep(p: Port, loopback: bool, avail: u16)
    requires p.tx.num > 0 && p.tx.lastAvail == p.tx.usedIdx && p.headerSize in {NET_HDR, MRG_HDR}
    ensures var p' := TransmitAll(p, loopback, avail).port;
      p'.tx.lastAvail == p'.tx.usedIdx && p'.headerSize in {NET_HDR, MRG_HDR} && p'.tx.num == p.tx.num
    decreases Waiting(avail, p.tx.lastAvail)
  {
    hide HandBack, TxBytes, HeadAt, Waiting;
    if p.tx.lastAvail != avail {
      WaitingShrinks(avail, p.tx.lastAvail);
      var t := TransmitOne(p, loopback);
      if t.completed { TransmitInStep(t.port, loopback, avail); }
    }
  }

  lemma {:induction false} ReceiveKeepsHeader(p: Port, header: nat, avail: u16)
    requires p.rx.num > 0
    ensures var p' := ReceiveAll(p, header, avail).port; p'.headerSize == p.headerSize && p'.mergeable == p.mergeable
    decreases Waiting(avail, p.rx.lastAvail)
  {
    hide HandBack, HeadAt, RxChain, Fill, Waiting, Payload;
    if p.rx.lastAvail != avail && p.pending != [] {
      WaitingShrinks(avail, p.rx.lastAvail);
      var t := ReceiveOne(p, header);
      if t.completed { ReceiveKeepsHeader(t.port, header, avail); }
    }
  }

  lemma ProcessInStep(p: Port, loopback: bool)
    ensures p.tx.lastAvail == p.tx.usedIdx && p.headerSize in {NET_HDR, MRG_HDR} ==>
      var p' := ProcessTx(p, loopback).port;
      p'.tx.lastAvail == p'.tx.usedIdx && p'.headerSize in {NET_HDR, MRG_HDR} && p'.tx.num == p.tx.num
    ensures ProcessRx(p).port.headerSize == p.headerSize && ProcessRx(p).port.mergeable == p.mergeable
  {
    hide AvailIdx, TransmitAll, ReceiveAll;
    if Operational(p.tx) && AvailIdx(p.mem, p.tx).Some? {
      if p.tx.lastAvail == p.tx.usedIdx && p.headerSize in {NET_HDR, MRG_HDR} {
        TransmitInStep(p, loopback, AvailIdx(p.mem, p.tx).value);
      }
    }
    if Operational(p.rx) && AvailIdx(p.mem, p.rx).Some? {
      ReceiveKeepsHeader(p, ActiveHeaderSize(p), AvailIdx(p.mem, p.rx).value);
    }
  }

  lemma NotifiedInStep(n: Net, queueIndex: u32)
    requires InStep(n)
    ensures InStep(Notified(n, queueIndex).net)
  {
    hide ProcessTx, ProcessRx, After;
    var p := n.port;
    var tx := ProcessTx(p, n.loopback).port;
    ProcessInStep(p, n.loopback);
    ProcessTxAppends(p, n.loopback);
    ProcessRxPops(p);
    ProcessInStep(tx, n.loopback);
    ProcessRxPops(tx);
  }

  lemma EnqueuedInStep(n: Net, frame: Frame)
    requires InStep(n)
    ensures InStep(Enqueued(n, frame).net)
  {
    hide ProcessRx, After;
    var p := n.port.(pending := n.port.pending + [frame]);
    ProcessInStep(p, n.loopback);
    ProcessRxPops(p);
  }

  lemma WithQueueInStep(n: Net, reg: QueueReg, value: u32)
    requires InStep(n)
    ensures InStep(WithQueue(n, reg, value))
  {
  }

  lemma ApplyInStep(n: Net, op: Op)
    requires InStep(n)
    ensures InStep(Apply(n, op).net)
  {
    hide Notified, Enqueued, WithQueue;
    match op
    case WriteQueue(reg, v) => WithQueueInStep(n, reg, v);
    case Notify(i) => NotifiedInStep(n, i);
    case Enqueue(f) => EnqueuedInStep(n, f);
    case _ =>
  }

  // ----- the queue loops in passes -----

  /** Only the queues' part of the device has changed. */
  ghost predicate OnlyPort(n0: Net, n: Net) { n == n0.(port := n.port) }

  lemma OnlyPortTwice(n0: Net, n1: Net, n2: Net)
    requires OnlyPort(n0, n1) && OnlyPort(n1, n2)
    ensures OnlyPort(n0, n2)
  {
  }

  /** The transmit loop that began at p0 has moved these frames so far and is at p. */
  ghost predicate TxLeads(p0: Port, loopback: bool, avail: u16, any: bool, moved: seq<Frame>, p: Port) {
    && p0.tx.num > 0 && p.tx.num > 0
    && var rest := TransmitAll(p, loopback, avail);
       TransmitAll(p0, loopback, avail) == Run(rest.port, moved + rest.moved, any || rest.any)
  }

  ghost predicate TxEnds(p0: Port, loopback: bool, avail: u16, any: bool, moved: seq<Frame>, p: Port) {
    p0.tx.num > 0 && TransmitAll(p0, loopback, avail) == Run(p, moved, any)
  }

  lemma TxStarts(p: Port, loopback: bool, avail: u16)
    requires p.tx.num > 0
    ensures TxLeads(p, loopback, avail, false, [], p)
  {
    var r := TransmitAll(p, loopback, avail);
    assert [] + r.moved == r.moved;
  }

  lemma TxPasses(p0: Port, loopback: bool, avail: u16, any: bool, moved: seq<Frame>, p: Port)
    requires TxLeads(p0, loopback, avail, any, moved, p) && p.tx.lastAvail != avail
    ensures var t := TransmitOne(p, loopback);
      if t.completed then t.port.tx == Advance(p.tx) && TxLeads(p0, loopback, avail, true, moved + Moved(t), t.port)
      else TxEnds(p0, loopback, avail, any, moved + Moved(t), t.port)
  {
    hide NextOutgoing, HandBack, Waiting, Moved;
    var t := TransmitOne(p, loopback);
    if t.completed {
      var rest := TransmitAll(t.port, loopback, avail);
      assert moved + (Moved(t) + rest.moved) == moved + Moved(t) + rest.moved;
    }
  }

  lemma TxIsOver(p0: Port, loopback: bool, avail: u16, any: bool, moved: seq<Frame>, p: Port)
    requires TxLeads(p0, loopback, avail, any, moved, p) && p.tx.lastAvail == avail
    ensures TxEnds(p0, loopback, avail, any, moved, p)
  {
    assert moved + [] == moved;
  }

  /** The receive loop that began at p0 has moved these frames so far and is at p. */
  ghost predicate RxLeads(p0: Port, header: nat, avail: u16, any: bool, moved: seq<Frame>, p: Port) {
    && p0.rx.num > 0 && p.rx.num > 0
    && var rest := ReceiveAll(p, header, avail);
       ReceiveAll(p0, header, avail) == Run(rest.port, moved + rest.moved, any || rest.any)
  }

  ghost predicate RxEnds(p0: Port, header: nat, avail: u16, any: bool, moved: seq<Frame>, p: Port) {
    p0.rx.num > 0 && ReceiveAll(p0, header, avail) == Run(p, moved, any)
  }

  lemma RxStarts(p: Port, header: nat, avail: u16)
    requires p.rx.num > 0
    ensures RxLeads(p, header, avail, false, [], p)
  {
    var r := ReceiveAll(p, header, avail);
    assert [] + r.moved == r.moved;
  }

  lemma RxPasses(p0: Port, header: nat, avail: u16, any: bool, moved: seq<Frame>, p: Port)
    requires RxLeads(p0, header, avail, any, moved, p) && p.rx.lastAvail != avail && p.pending != []
    ensures var t := ReceiveOne(p, header);
      if t.completed then t.port.rx == Advance(p.rx) && RxLeads(p0, header, avail, true, moved + Moved(t), t.port)
      else RxEnds(p0, header, avail, any, moved + Moved(t), t.port)
  {
    hide HeadAt, RxChain, Fill, Payload, HandBack, Waiting, Moved;
    var t := ReceiveOne(p, header);
    if t.completed {
      var rest := ReceiveAll(t.port, header, avail);
      assert moved + (Moved(t) + rest.moved) == moved + Moved(t) + rest.moved;
    }
  }

  lemma RxIsOver(p0: Port, header: nat, avail: u16, any: bool, moved: seq<Frame>, p: Port)
    requires RxLeads(p0, header, avail, any, moved, p) && (p.rx.lastAvail == avail || p.pending == [])
    ensures RxEnds(p0, header, avail, any, moved, p)
  {
    assert moved + [] == moved;
  }
}

module VirtioNetDevice {
  import opened Words
  import opened GuestMemory
  import opened Virtqueue
  import opened Rings
  import opened Transfer
  import opened NetSpec
  import opened NetDeviceSpec

  class VirtioNet {
    var mem: Mem
    var present: bool
    var loopbackEnabled: bool
    var pendingRxFrames: seq<Frame>
    var mergeable: bool
    var guestHeaderSize: nat
    var rxQueue: Queue
    var txQueue: Queue
    var queueSel: u32
    var interruptStatus: bv32
    var status: u32

    function PortNow(): Port
      reads this
    {
      Port(mem, pendingRxFrames, mergeable, guestHeaderSize, rxQueue, txQueue)
    }

    function State(): Net
      reads this
    {
      Net(PortNow(), present, loopbackEnabled, queueSel, interruptStatus, status)
    }

    constructor (ram: Mem)
      ensures State() == Net(Port(ram, [], false, NET_HDR, RESET_QUEUE, RESET_QUEUE), false, false, 0, 0, 0)
      ensures InStep(State())
    {
      mem, pendingRxFrames, mergeable, guestHeaderSize := ram, [], false, NET_HDR;
      rxQueue, txQueue := RESET_QUEUE, RESET_QUEUE;
      present, loopbackEnabled := false, false;
      queueSel, interruptStatus, status := 0, 0, 0;
    }

    // ----- chains -----

    /** Adds up the segments, provided all of them have the wanted direction. */
    method Measure(segments: seq<Segment>, writable: bool) returns (total: Option<nat>)
      ensures total.Some? <==> forall s | s in segments :: s.writable == writable
      ensures total.Some? ==> total.value == TotalLen(segments)
    {
      var sum: nat := 0;
      var i := 0;
      while i < |segments|
        invariant i <= |segments|
        invariant forall k | 0 <= k < i :: segments[k].writable == writable
        invariant sum + TotalLen(segments[i..]) == TotalLen(segments)
      {
        if segments[i].writable != writable {
          assert segments[i] in segments;
          return None;
        }
        assert segments[i..][1..] == segments[i + 1..];
        sum := sum + segments[i].len;
        i := i + 1;
      }
      return Some(sum);
    }

    /** Reads the segments one after another. */
    method ReadChain(segments: seq<Segment>) returns (bytes: Option<seq<u8>>)
      ensures bytes == Contents(mem, segments)
    {
      var read := [];
      var i := 0;
      assert forall rest: seq<u8> :: [] + rest == rest;
      while i < |segments|
        invariant i <= |segments|
        invariant Contents(mem, segments) ==
                  match Contents(mem, segments[i..]) case None => None case Some(rest) => Some(read + rest)
      {
        assert segments[i..][1..] == segments[i + 1..];
        var part := ReadGuest(mem, segments[i].addr, segments[i].len);
        if part.None? { return None; }
        assert forall rest: seq<u8> :: read + (part.value + rest) == read + part.value + rest;
        read := read + part.value;
        i := i + 1;
      }
      assert read + [] == read;
      return Some(read);
    }

    /** Copies the payload into the front of the segments. */
    method FillChain(segments: seq<Segment>, payload: seq<u8>) returns (ok: bool)
      modifies this`mem
      ensures (mem, ok) == Fill(old(mem), segments, payload)
    {
      hide WriteGuest, InRam;
      var remaining := |payload|;
      var offset := 0;
      var i := 0;
      while i < |segments|
        invariant i <= |segments| && 0 <= offset && 0 <= remaining && offset + remaining == |payload|
        invariant Fill(old(mem), segments, payload) == Fill(mem, segments[i..], payload[offset..])
      {
        if remaining == 0 { break; }
        assert segments[i..][1..] == segments[i + 1..];
        var chunk := Min(segments[i].len, remaining);
        TailSlices(payload, offset, chunk);
        var written := WriteGuest(mem, segments[i].addr, payload[offset..offset + chunk]);
        if written.None? { return false; }
        mem := written.value;
        remaining := remaining - chunk;
        offset := offset + chunk;
        i := i + 1;
      }
      ok := remaining == 0;
    }

    // ----- transmit -----

    method ReadOutgoing() returns (out: Option<Outgoing>)
      requires txQueue.num > 0
      ensures out == NextOutgoing(PortNow())
    {
      hide Chain, Contents, TotalLen, HeadAt, DetectTxHeaderSize;
      var read := HeadAt(mem, txQueue, txQueue.lastAvail);
      if read.None? { return None; }
      var chain := CollectChain(mem, txQueue, read.value);
      if chain.None? { return None; }
      var total := Measure(chain.value, false);
      if total.None? || total.value < NET_HDR { return None; }
      var bytes := ReadChain(chain.value);
      if bytes.None? { return None; }
      assert TxBytes(mem, txQueue, read.value) == Some((chain.value, bytes.value));
      var header := DetectTxHeaderSize(PortNow(), chain.value, bytes.value);
      HeaderFits(PortNow(), chain.value, bytes.value);
      return Some(Outgoing(read.value, bytes.value[header..], header));
    }

    lemma HeaderFits(p: Port, segs: seq<Segment>, bytes: seq<u8>)
      requires |bytes| >= NET_HDR
      ensures DetectTxHeaderSize(p, segs, bytes) <= |bytes|
    {
    }

    /** One pass of the transmit loop; frame is what was sent, if anything. */
    method TransmitNext() returns (completed: bool, frame: Option<Frame>)
      requires txQueue.num > 0
      modifies this
      ensures var t := TransmitOne(old(PortNow()), old(loopbackEnabled));
        State() == old(State()).(port := t.port) && completed == t.completed && frame == t.moved
    {
      hide NextOutgoing, WriteUsed, WriteWord;
      var next := ReadOutgoing();
      if next.None? { return false, None; }
      var out := next.value;
      guestHeaderSize := out.header;
      if out.header == MRG_HDR { mergeable := true; }
      if loopbackEnabled { pendingRxFrames := pendingRxFrames + [out.frame]; }
      var handed := HandBack(mem, txQueue, out.head, 0);
      mem := handed.mem;
      if !handed.Refused? { txQueue := Advance(txQueue); }
      return handed.Completed?, Some(out.frame);
    }

    /** The transmit queue's loop; sent lists the frames, which without loopback go to the host instead. */
    method ServeTx() returns (any: bool, sent: seq<Frame>)
      modifies this
      ensures var run := ProcessTx(old(PortNow()), old(loopbackEnabled));
        State() == old(State()).(port := run.port) && any == run.any && sent == run.moved
    {
      hide TransmitAll, AvailIdx;
      any, sent := false, [];
      if !Operational(txQueue) { return; }
      var read := AvailIdx(mem, txQueue);
      if read.None? { return; }
      any, sent := TxLoop(read.value);
    }

    method TxLoop(avail: u16) returns (any: bool, sent: seq<Frame>)
      requires txQueue.num > 0
      modifies this
      ensures TxEnds(old(PortNow()), old(loopbackEnabled), avail, any, sent, PortNow())
      ensures OnlyPort(old(State()), State())
    {
      hide TransmitOne, TxLeads, TxEnds, OnlyPort, Waiting, Next;
      ghost var p0, n0 := PortNow(), State();
      any, sent := false, [];
      TxStarts(p0, loopbackEnabled, avail);
      SamePort(n0);
      while txQueue.lastAvail != avail
        invariant txQueue.num > 0 && loopbackEnabled == old(loopbackEnabled) && OnlyPort(n0, State())
        invariant TxLeads(p0, loopbackEnabled, avail, any, sent, PortNow())
        decreases Waiting(avail, txQueue.lastAvail)
      {
        ghost var p, n := PortNow(), State();
        WaitingShrinks(avail, txQueue.lastAvail);
        TxPasses(p0, loopbackEnabled, avail, any, sent, p);
        MovedIs(TransmitOne(p, loopbackEnabled));
        var completed, frame := TransmitNext();
        OnlyPortTwice(n0, n, State()) by { PortChanged(n, State()); }
        sent := sent + if frame.Some? then [frame.value] else [];
        if !completed { return; }
        any := true;
      }
      TxIsOver(p0, loopbackEnabled, avail, any, sent, PortNow());
    }

    lemma SamePort(n: Net)
      ensures OnlyPort(n, n)
    {
    }

    lemma PortChanged(n: Net, n': Net)
      requires n' == n.(port := n'.port)
      ensures OnlyPort(n, n')
    {
    }

    lemma MovedIs(t: Turn)
      ensures Moved(t) == if t.moved.Some? then [t.moved.value] else []
    {
    }

    // ----- receive -----

    /** One pass of the receive loop; a frame leaves the queue only once its used element is written. */
    method ReceiveNext(header: nat) returns (completed: bool, frame: Option<Frame>)
      requires rxQueue.num > 0 && pendingRxFrames != []
      modifies this
      ensures var t := ReceiveOne(old(PortNow()), header);
        State() == old(State()).(port := t.port) && completed == t.completed && frame == t.moved
    {
      hide Chain, Fill, TotalLen, HeadAt, Payload, WriteUsed, WriteWord;
      completed, frame := false, None;
      var read := HeadAt(mem, rxQueue, rxQueue.lastAvail);
      if read.None? { return; }
      var head := read.value;
      var chain := CollectChain(mem, rxQueue, head);
      var payload := Payload(header, pendingRxFrames[0]);
      if chain.None? { return; }
      var capacity := Measure(chain.value, true);
      if capacity.None? || capacity.value < |payload| { return; }
      assert RxChain(mem, rxQueue, head, |payload|) == chain;
      var ok := FillChain(chain.value, payload);
      if !ok { return; }
      var handed := HandBack(mem, rxQueue, head, |payload| % TWO32);
      mem := handed.mem;
      if handed.Refused? { return; }
      frame := Some(pendingRxFrames[0]);
      pendingRxFrames := pendingRxFrames[1..];
      rxQueue := Advance(rxQueue);
      completed := handed.Completed?;
    }

    method ServeRx() returns (any: bool, ghost delivered: seq<Frame>)
      modifies this
      ensures var run := ProcessRx(old(PortNow()));
        State() == old(State()).(port := run.port) && any == run.any && delivered == run.moved
    {
      hide ReceiveAll, AvailIdx, ActiveHeaderSize;
      any, delivered := false, [];
      var header := ActiveHeaderSize(PortNow());
      if pendingRxFrames == [] || !Operational(rxQueue) { return; }
      var read := AvailIdx(mem, rxQueue);
      if read.None? { return; }
      any, delivered := RxLoop(header, read.value);
    }

    method RxLoop(header: nat, avail: u16) returns (any: bool, ghost delivered: seq<Frame>)
      requires rxQueue.num > 0
      modifies this
      ensures RxEnds(old(PortNow()), header, avail, any, delivered, PortNow())
      ensures OnlyPort(old(State()), State())
    {
      hide ReceiveOne, RxLeads, RxEnds, OnlyPort, Waiting, Next;
      ghost var p0, n0 := PortNow(), State();
      any, delivered := false, [];
      RxStarts(p0, header, avail);
      SamePort(n0);
      while rxQueue.lastAvail != avail && pendingRxFrames != []
        invariant rxQueue.num > 0 && OnlyPort(n0, State())
        invariant RxLeads(p0, header, avail, any, delivered, PortNow())
        decreases Waiting(avail, rxQueue.lastAvail)
      {
        ghost var p, n := PortNow(), State();
        WaitingShrinks(avail, rxQueue.lastAvail);
        RxPasses(p0, header, avail, any, delivered, p);
        MovedIs(ReceiveOne(p, header));
        var completed, frame := ReceiveNext(header);
        OnlyPortTwice(n0, n, State()) by { PortChanged(n, State()); }
        delivered := delivered + if frame.Some? then [frame.value] else [];
        if !completed { return; }
        any := true;
      }
      RxIsOver(p0, header, avail, any, delivered, PortNow());
    }

    // ----- notifications and registers -----

    method RaiseInterrupt(bits: bv32)
      modifies this`interruptStatus
      ensures interruptStatus == old(interruptStatus) | bits
    {
      interruptStatus := interruptStatus | bits;
    }

    method ProcessQueue(queueIndex: u32) returns (sent: seq<Frame>, ghost delivered: seq<Frame>)
      modifies this
      ensures Step(State(), sent, delivered) == Notified(old(State()), queueIndex)
    {
      hide ProcessTx, ProcessRx, Interrupted;
      sent, delivered := [], [];
      if !present || queueIndex >= QUEUE_COUNT { return; }
      var completed, any := false, false;
      ghost var n := State();
      if queueIndex == QUEUE_TX {
        completed, sent := ServeTx();
        assert State() == n.(port := PortNow());
        if pendingRxFrames != [] { any, delivered := ServeRx(); }
      } else {
        completed, delivered := ServeRx();
      }
      assert State() == n.(port := PortNow());
      Announce(completed || any, n);
    }

    /** Raises the interrupt if anything was completed. */
    method Announce(completed: bool, ghost n: Net)
      requires State() == n.(port := PortNow())
      modifies this`interruptStatus
      ensures State() == Interrupted(n, old(PortNow()), completed)
    {
      if completed { RaiseInterrupt(INT_VRING); }
    }

    method EnqueueRxFrame(frame: Frame) returns (accepted: bool, ghost delivered: seq<Frame>)
      modifies this
      ensures Step(State(), [], delivered) == Enqueued(old(State()), frame) && accepted == old(present)
    {
      hide ProcessRx, Interrupted;
      ghost var n := State();
      accepted, delivered := present, [];
      if !present { return; }
      pendingRxFrames := pendingRxFrames + [frame];
      assert PortNow() == old(PortNow()).(pending := old(PortNow()).pending + [frame]);
      var any: bool;
      any, delivered := ServeRx();
      assert State() == n.(port := PortNow());
      Announce(any, n);
    }

    method WriteQueueRegister(reg: QueueReg, value: u32)
      modifies this`rxQueue, this`txQueue
      ensures State() == WithQueue(old(State()), reg, value)
    {
      if queueSel == QUEUE_RX { rxQueue := WrittenQueue(rxQueue, reg, value); }
      else if queueSel == QUEUE_TX { txQueue := WrittenQueue(txQueue, reg, value); }
    }

    method ResetDeviceState()
      modifies this
      ensures State() == Reset(old(State()))
    {
      mergeable, guestHeaderSize := false, NET_HDR;
      rxQueue, txQueue := RESET_QUEUE, RESET_QUEUE;
      queueSel, status, interruptStatus := 0, 0, 0;
    }

    method AttachDevice(isPresent: bool, loopback: bool)
      modifies this
      ensures State() == Attached(old(State()), isPresent, loopback)
    {
      present, loopbackEnabled, pendingRxFrames := isPresent, loopback, [];
      ResetDeviceState();
    }

    /** One guest access or other event. */
    method Perform(op: Op) returns (sent: seq<Frame>, ghost delivered: seq<Frame>)
      requires InStep(State())
      modifies this
      ensures Step(State(), sent, delivered) == Apply(old(State()), op) && InStep(State())
    {
      ApplyInStep(State(), op);
      hide Notified, Enqueued, WrittenQueue, InStep;
      sent, delivered := [], [];
      match op
      case Notify(i) => sent, delivered := ProcessQueue(i);
      case Enqueue(f) =>
        var accepted: bool;
        accepted, delivered := EnqueueRxFrame(f);
      case SelectQueue(sel) => queueSel := sel;
      case WriteQueue(reg, v) => WriteQueueRegister(reg, v);
      case WriteFeatures(m) => mergeable := m;
      case WriteStatus(v) => if v == 0 { ResetDeviceState(); } else { status := v; }
      case AckInterrupt(bits) => interruptStatus := interruptStatus & !bits;
      case GuestWrites(m) => mem := m;
      case Attach(p, l) => AttachDevice(p, l);
    }
  }
}
