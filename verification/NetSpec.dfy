/** The network device's two queues: transmitting strips a header, receiving puts one back. */
module NetSpec {
  import opened Words
  import opened GuestMemory
  import opened Virtqueue
  import opened Rings
  import opened Transfer

  const NET_HDR := 10
  const MRG_HDR := 12
  const ETH_HDR := 14
  const MIN_ETHERTYPE := 0x0600

  type Frame = seq<u8>

  /** What the queues work on; mergeable says the 12-byte header is in effect, headerSize what the guest last used. */
  datatype Port = Port(mem: Mem, pending: seq<Frame>, mergeable: bool, headerSize: nat, rx: Queue, tx: Queue)

  function NetHeaderSize(mergeable: bool): nat { if mergeable then MRG_HDR else NET_HDR }

  function ActiveHeaderSize(p: Port): nat { Max(NetHeaderSize(p.mergeable), p.headerSize) }

  // ----- transmit -----

  function EtherType(bytes: seq<u8>): nat
    requires |bytes| >= ETH_HDR
  {
    256 * (bytes[12] as int) + bytes[13]
  }

  predicate LooksLikeEthernet(bytes: seq<u8>) {
    |bytes| >= ETH_HDR && EtherType(bytes) >= MIN_ETHERTYPE
  }

  predicate AllZero(bytes: seq<u8>) { forall b | b in bytes :: b == 0 }

  /** A long first segment that starts with twelve zeros followed by what could be an Ethernet frame. */
  predicate GuessedMergeable(first: Segment, bytes: seq<u8>)
    requires |bytes| >= MRG_HDR
  {
    first.len >= MRG_HDR && AllZero(bytes[..MRG_HDR]) && LooksLikeEthernet(bytes[MRG_HDR..])
  }

  function DetectTxHeaderSize(p: Port, segs: seq<Segment>, bytes: seq<u8>): nat {
    if p.headerSize == MRG_HDR && |bytes| >= MRG_HDR then MRG_HDR
    else if NetHeaderSize(p.mergeable) == MRG_HDR && |bytes| >= MRG_HDR then MRG_HDR
    else if segs != [] && |bytes| >= MRG_HDR && GuessedMergeable(segs[0], bytes) then MRG_HDR
    else NET_HDR
  }

  datatype Outgoing = Outgoing(head: u16, frame: Frame, header: nat)

  /** The bytes a head transmits, when its chain is readable throughout and holds at least a header. */
  function TxBytes(m: Mem, q: Queue, head: u16): Option<(seq<Segment>, seq<u8>)> {
    match Chain(m, q, head)
    case None => None
    case Some(segs) =>
      if (exists s | s in segs :: s.writable) || TotalLen(segs) < NET_HDR then None
      else
        match Contents(m, segs)
        case None => None
        case Some(bytes) => Some((segs, bytes))
  }

  function NextOutgoing(p: Port): (r: Option<Outgoing>)
    requires p.tx.num > 0
  {
    match HeadAt(p.mem, p.tx, p.tx.lastAvail)
    case None => None
    case Some(head) =>
      match TxBytes(p.mem, p.tx, head)
      case None => None
      case Some((segs, bytes)) =>
        var header := DetectTxHeaderSize(p, segs, bytes);
        assert |bytes| >= NET_HDR;
        Some(Outgoing(head, bytes[header..], header))
  }

  /** One pass of a queue loop: the new state, the frame it moved if any, and whether the loop goes on. */
  datatype Turn = Turn(port: Port, moved: Option<Frame>, completed: bool)

  /** The frame is queued, and the header size remembered, before the buffer is handed back. */
  function Queued(p: Port, out: Outgoing, loopback: bool): Port {
    p.(pending := if loopback then p.pending + [out.frame] else p.pending,
       headerSize := out.header,
       mergeable := p.mergeable || out.header == MRG_HDR)
  }

  function TransmitOne(p: Port, loopback: bool): Turn
    requires p.tx.num > 0
  {
    match NextOutgoing(p)
    case None => Turn(p, None, false)
    case Some(out) =>
      var p1 := Queued(p, out, loopback);
      match HandBack(p.mem, p.tx, out.head, 0)
      case Refused(m) => Turn(p1.(mem := m), Some(out.frame), false)
      case Unannounced(m) => Turn(p1.(mem := m, tx := Advance(p.tx)), Some(out.frame), false)
      case Completed(m) => Turn(p1.(mem := m, tx := Advance(p.tx)), Some(out.frame), true)
  }

  /** The state after a loop, the frames it moved in order, and whether any buffer was completed. */
  datatype Run = Run(port: Port, moved: seq<Frame>, any: bool)

  function Moved(t: Turn): seq<Frame> {
    match t.moved
    case None => []
    case Some(f) => [f]
  }

  function TransmitAll(p: Port, loopback: bool, avail: u16): Run
    requires p.tx.num > 0
    decreases Waiting(avail, p.tx.lastAvail)
  {
    if p.tx.lastAvail == avail then Run(p, [], false)
    else
      var t := TransmitOne(p, loopback);
      if !t.completed then Run(t.port, Moved(t), false)
      else
        assert Waiting(avail, t.port.tx.lastAvail) < Waiting(avail, p.tx.lastAvail) by {
          WaitingShrinks(avail, p.tx.lastAvail);
        }
        var rest := TransmitAll(t.port, loopback, avail);
        Run(rest.port, Moved(t) + rest.moved, true)
  }

  function ProcessTx(p: Port, loopback: bool): Run {
    if !Operational(p.tx) then Run(p, [], false)
    else
      match AvailIdx(p.mem, p.tx)
      case None => Run(p, [], false)
      case Some(avail) => TransmitAll(p, loopback, avail)
  }

  // ----- receive -----

  /** A zero header; the 12-byte form ends in a little-endian buffer count of one. */
  function Header(size: nat): (h: seq<u8>)
    ensures |h| == size
  {
    if size == MRG_HDR then Zeros(NET_HDR) + [1, 0] else Zeros(size)
  }

  function Zeros(n: nat): (z: seq<u8>)
    ensures |z| == n && forall i | 0 <= i < n :: z[i] == 0
  {
    if n == 0 then [] else Zeros(n - 1) + [0]
  }

  function Payload(header: nat, frame: Frame): (b: seq<u8>)
    ensures |b| == header + |frame| && b[header..] == frame
  {
    Header(header) + frame
  }

  /** A usable receive buffer: every segment writable, and room for the payload. */
  function RxChain(m: Mem, q: Queue, head: u16, size: nat): Option<seq<Segment>> {
    match Chain(m, q, head)
    case None => None
    case Some(segs) =>
      if (exists s | s in segs :: !s.writable) || TotalLen(segs) < size then None else Some(segs)
  }

  function ReceiveOne(p: Port, header: nat): Turn
    requires p.rx.num > 0 && p.pending != []
  {
    match HeadAt(p.mem, p.rx, p.rx.lastAvail)
    case None => Turn(p, None, false)
    case Some(head) =>
      var payload := Payload(header, p.pending[0]);
      match RxChain(p.mem, p.rx, head, |payload|)
      case None => Turn(p, None, false)
      case Some(segs) =>
        var (m1, ok) := Fill(p.mem, segs, payload);
        if !ok then Turn(p.(mem := m1), None, false)
        else
          var popped := p.(pending := p.pending[1..]);
          match HandBack(m1, p.rx, head, |payload| % TWO32)
          case Refused(m) => Turn(p.(mem := m), None, false)
          case Unannounced(m) => Turn(popped.(mem := m, rx := Advance(p.rx)), Some(p.pending[0]), false)
          case Completed(m) => Turn(popped.(mem := m, rx := Advance(p.rx)), Some(p.pending[0]), true)
  }

  function ReceiveAll(p: Port, header: nat, avail: u16): Run
    requires p.rx.num > 0
    decreases Waiting(avail, p.rx.lastAvail)
  {
    if p.rx.lastAvail == avail || p.pending == [] then Run(p, [], false)
    else
      var t := ReceiveOne(p, header);
      if !t.completed then Run(t.port, Moved(t), false)
      else
        assert Waiting(avail, t.port.rx.lastAvail) < Waiting(avail, p.rx.lastAvail) by {
          WaitingShrinks(avail, p.rx.lastAvail);
        }
        var rest := ReceiveAll(t.port, header, avail);
        Run(rest.port, Moved(t) + rest.moved, true)
  }

  function ProcessRx(p: Port): Run {
    if p.pending == [] || !Operational(p.rx) then Run(p, [], false)
    else
      match AvailIdx(p.mem, p.rx)
      case None => Run(p, [], false)
      case Some(avail) => ReceiveAll(p, ActiveHeaderSize(p), avail)
  }
}
