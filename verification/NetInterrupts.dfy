/** When the network device interrupts: exactly when it has completed a buffer. */
module NetInterrupts {
  import opened Words
  import opened GuestMemory
  import opened Virtqueue
  import opened Rings
  import opened Transfer
  import opened NetSpec
  import opened NetDeviceSpec

  ghost predicate RingsInRam(p: Port) {
    && (Operational(p.rx) ==> InRam(p.mem, p.rx.used, UsedSize(p.rx)))
    && (Operational(p.tx) ==> InRam(p.mem, p.tx.used, UsedSize(p.tx)))
  }

  lemma TransmitOneCompletes(p: Port, loopback: bool)
    requires p.tx.num > 0 && InRam(p.mem, p.tx.used, UsedSize(p.tx))
    ensures var t := TransmitOne(p, loopback);
      && (t.completed <==> t.moved.Some?) && t.port.mem.regions == p.mem.regions && (t.completed ==> t.port.tx == Advance(p.tx))
  {
    hide HandBack, NextOutgoing, UsedIdx, UsedId, UsedLen;
    var out := NextOutgoing(p);
    if out.Some? { HandBackWorks(p.mem, p.tx, out.value.head, 0); }
  }

  /** A buffer that was sent is shown in the used ring, with no byte written to it. */
  lemma SentIsShown(p: Port, loopback: bool)
    requires p.tx.num > 0 && InRam(p.mem, p.tx.used, UsedSize(p.tx)) && NextOutgoing(p).Some?
    ensures var m := TransmitOne(p, loopback).port.mem;
      && UsedId(m, p.tx, p.tx.usedIdx) == Some(NextOutgoing(p).value.head as nat)
      && UsedLen(m, p.tx, p.tx.usedIdx) == Some(0 as nat)
      && UsedIdx(m, p.tx) == Some(Next(p.tx.usedIdx) as nat)
  {
    hide HandBack, NextOutgoing, UsedIdx, UsedId, UsedLen, Next;
    HandBackWorks(p.mem, p.tx, NextOutgoing(p).value.head, 0);
  }

  /** With its used ring in RAM the transmit loop completes a buffer exactly if it sends a frame. */
  lemma {:induction false} SentIsCompleted(p: Port, loopback: bool, avail: u16)
    requires p.tx.num > 0 && InRam(p.mem, p.tx.used, UsedSize(p.tx))
    ensures var run := TransmitAll(p, loopback, avail);
      (run.any <==> run.moved != []) && run.port.mem.regions == p.mem.regions
    decreases Waiting(avail, p.tx.lastAvail)
  {
    hide TransmitOne, Waiting;
    if p.tx.lastAvail != avail {
      TransmitOneCompletes(p, loopback);
      WaitingShrinks(avail, p.tx.lastAvail);
      var t := TransmitOne(p, loopback);
      if t.completed {
        assert InRam(t.port.mem, t.port.tx.used, UsedSize(t.port.tx));
        SentIsCompleted(t.port, loopback, avail);
      }
    }
  }

  lemma ReceiveOneCompletesIff(p: Port, header: nat)
    requires p.rx.num > 0 && p.pending != [] && InRam(p.mem, p.rx.used, UsedSize(p.rx))
    ensures var t := ReceiveOne(p, header);
      && (t.completed <==> t.moved.Some?) && t.port.mem.regions == p.mem.regions && (t.completed ==> t.port.rx == Advance(p.rx))
  {
    hide HandBack, Fill, HeadAt, RxChain, Payload, UsedIdx, UsedId, UsedLen;
    var head := HeadAt(p.mem, p.rx, p.rx.lastAvail);
    if head.Some? {
      var payload := Payload(header, p.pending[0]);
      var segs := RxChain(p.mem, p.rx, head.value, |payload|);
      if segs.Some? {
        FillKeeps(p.mem, segs.value, payload, 0, 0);
        var m1 := Fill(p.mem, segs.value, payload).0;
        assert InRam(m1, p.rx.used, UsedSize(p.rx));
        HandBackWorks(m1, p.rx, head.value, |payload| % TWO32);
      }
    }
  }

  /** With its used ring in RAM the receive loop completes a buffer exactly if it delivers a frame. */
  lemma {:induction false} DeliveredIsCompleted(p: Port, header: nat, avail: u16)
    requires p.rx.num > 0 && InRam(p.mem, p.rx.used, UsedSize(p.rx))
    ensures var run := ReceiveAll(p, header, avail); run.any <==> run.moved != []
    decreases Waiting(avail, p.rx.lastAvail)
  {
    hide ReceiveOne, Waiting;
    if p.rx.lastAvail != avail && p.pending != [] {
      ReceiveOneCompletesIff(p, header);
      WaitingShrinks(avail, p.rx.lastAvail);
      var t := ReceiveOne(p, header);
      if t.completed {
        assert InRam(t.port.mem, t.port.rx.used, UsedSize(t.port.rx));
        DeliveredIsCompleted(t.port, header, avail);
      }
    }
  }

  lemma ProcessCompletes(p: Port, loopback: bool)
    requires RingsInRam(p)
    ensures ProcessTx(p, loopback).any <==> ProcessTx(p, loopback).moved != []
    ensures ProcessRx(p).any <==> ProcessRx(p).moved != []
    ensures RingsInRam(ProcessTx(p, loopback).port)
  {
    hide TransmitAll, ReceiveAll, AvailIdx;
    if Operational(p.tx) && AvailIdx(p.mem, p.tx).Some? {
      var avail := AvailIdx(p.mem, p.tx).value;
      SentIsCompleted(p, loopback, avail);
      TransmitKeepsQueues(p, loopback, avail);
    }
    if Operational(p.rx) && AvailIdx(p.mem, p.rx).Some? {
      DeliveredIsCompleted(p, ActiveHeaderSize(p), AvailIdx(p.mem, p.rx).value);
    }
  }

  lemma {:induction false} TransmitKeepsQueues(p: Port, loopback: bool, avail: u16)
    requires p.tx.num > 0
    ensures var p' := TransmitAll(p, loopback, avail).port;
      p'.rx == p.rx && SameLayout(p.tx, p'.tx) && p'.tx.ready == p.tx.ready
    decreases Waiting(avail, p.tx.lastAvail)
  {
    hide HandBack, NextOutgoing, Waiting;
    if p.tx.lastAvail != avail {
      WaitingShrinks(avail, p.tx.lastAvail);
      var t := TransmitOne(p, loopback);
      if t.completed { TransmitKeepsQueues(t.port, loopback, avail); }
    }
  }

  /** A notification leaves the interrupt up exactly if it sent or delivered a frame or the interrupt was up before; the
      other bits stay. */
  lemma NotificationInterrupts(n: Net, queueIndex: u32)
    requires RingsInRam(n.port)
    ensures var s := Notified(n, queueIndex);
      && (VringUp(s.net.interrupt) <==> s.sent != [] || s.delivered != [] || VringUp(n.interrupt))
      && WithoutVring(s.net.interrupt) == WithoutVring(n.interrupt)
  {
    hide ProcessTx, ProcessRx, VringUp, WithVring, WithoutVring, RingsInRam;
    VringRises(n.interrupt);
    ProcessCompletes(n.port, n.loopback);
    ProcessCompletes(ProcessTx(n.port, n.loopback).port, n.loopback);
  }

  /** A frame that arrives raises it exactly if something is delivered. */
  lemma ArrivalInterrupts(n: Net, frame: Frame)
    requires RingsInRam(n.port)
    ensures var s := Enqueued(n, frame);
      && (VringUp(s.net.interrupt) <==> s.delivered != [] || VringUp(n.interrupt))
      && WithoutVring(s.net.interrupt) == WithoutVring(n.interrupt)
  {
    hide ProcessTx, ProcessRx, VringUp, WithVring, WithoutVring;
    VringRises(n.interrupt);
    ProcessCompletes(n.port.(pending := n.port.pending + [frame]), n.loopback);
  }
}
