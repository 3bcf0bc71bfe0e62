/** The interrupt controller device: arrays and per-CPU records change in place, guarded by the epoch. */
module GicV3Device {
  import opened Words
  import opened GicSpec
  import opened GicTheorems

  class GicV3 {
    var locals: seq<Local>
    const spiPending: array<bool>
    const spiEnabled: array<bool>
    const spiActive: array<bool>
    const spiLineLevel: array<bool>
    const spiPriorities: array<u8>
    var gicdCtlr: u32
    var stateEpoch: nat
    var pendingQueryCache: seq<Remembered>

    ghost function Repr(): set<object> {
      {this, spiPending, spiEnabled, spiActive, spiLineLevel, spiPriorities}
    }

    predicate Shaped()
      reads this
    {
      && spiPending.Length == spiEnabled.Length == spiActive.Length == spiLineLevel.Length == SPIS
      && spiPriorities.Length == SPIS
      && spiPending != spiEnabled && spiPending != spiActive && spiPending != spiLineLevel
      && spiEnabled != spiActive && spiEnabled != spiLineLevel && spiActive != spiLineLevel
      && |locals| > 0
      && forall c | 0 <= c < |locals| :: LocalWf(locals[c])
    }

    function State(): (g: Gic)
      requires Shaped()
      reads this, Repr()
      ensures Wf(g)
    {
      Gic(locals, spiPending[..], spiEnabled[..], spiActive[..], spiLineLevel[..], spiPriorities[..],
          gicdCtlr, stateEpoch)
    }

    /** The cached answers are right whenever their epoch is current. */
    ghost predicate Valid()
      reads this, Repr()
    {
      Shaped() && AllTrustworthy(pendingQueryCache, State())
    }

    constructor (cpuCount: nat)
      ensures Valid() && fresh(Repr())
      ensures State() == Initial(Max(1, cpuCount))
    {
      locals := seq(Max(1, cpuCount), i => ResetLocal);
      pendingQueryCache := seq(Max(1, cpuCount), i => Forgotten);
      spiPending := new bool[SPIS](i => false);
      spiEnabled := new bool[SPIS](i => false);
      spiActive := new bool[SPIS](i => false);
      spiLineLevel := new bool[SPIS](i => false);
      spiPriorities := new u8[SPIS](i => DEFAULT_PRIORITY);
      gicdCtlr := 0;
      stateEpoch := 2;
      new;
      assert spiPending[..] == seq(SPIS, i => false);
      assert spiEnabled[..] == seq(SPIS, i => false);
      assert spiActive[..] == seq(SPIS, i => false);
      assert spiLineLevel[..] == seq(SPIS, i => false);
      assert spiPriorities[..] == seq(SPIS, i => DEFAULT_PRIORITY);
    }

    // ----- guarded bit setters -----

    method SetLocalBit(f: Field, cpu: nat, intid: nat, value: bool)
      requires Valid() && intid < LOCALS
      modifies this
      ensures Valid() && State() == SetBit(old(State()), f, cpu, intid, value)
    {
      var c := Clamp(cpu, |locals|);
      var l := locals[c];
      var current := match f
        case PendingBit => l.pending[intid]
        case EnabledBit => l.enabled[intid]
        case ActiveBit => l.active[intid];
      if current == value { return; }
      locals := locals[c := PutLocal(l, f, intid, value)];
      stateEpoch := stateEpoch + 1;
      StaysTrustworthy(pendingQueryCache, old(State()), State());
    }

    method SetSpiBit(f: Field, intid: nat, value: bool)
      requires Valid() && LOCALS <= intid < INTIDS
      modifies this, spiPending, spiEnabled, spiActive
      ensures Valid() && State() == SetBit(old(State()), f, 0, intid, value)
    {
      var i := intid - LOCALS;
      var slots := match f case PendingBit => spiPending case EnabledBit => spiEnabled case ActiveBit => spiActive;
      if slots[i] == value { return; }
      slots[i] := value;
      stateEpoch := stateEpoch + 1;
      assert State() == PutSpi(old(State()), f, i, value).(epoch := stateEpoch);
      StaysTrustworthy(pendingQueryCache, old(State()), State());
    }

    method SetBitOf(f: Field, cpu: nat, intid: nat, value: bool)
      requires Valid()
      modifies Repr()
      ensures Valid() && State() == SetBit(old(State()), f, cpu, intid, value)
    {
      if intid < LOCALS {
        SetLocalBit(f, cpu, intid, value);
      } else if intid < INTIDS {
        SetSpiBit(f, intid, value);
      }
    }

    // ----- interrupt lines and messages -----

    method SetPending(cpu: nat, intid: nat)
      requires Valid()
      modifies Repr()
      ensures Valid() && State() == Apply(old(State()), PendOp(cpu, intid))
    {
      SetBitOf(PendingBit, cpu, intid, true);
    }

    method RaiseLevel(cpu: nat, intid: nat, asserted: bool)
      requires Valid()
      modifies Repr()
      ensures Valid() && State() == SetLevel(old(State()), cpu, intid, asserted)
    {
      var active: bool;
      if intid < LOCALS {
        var c := Clamp(cpu, |locals|);
        if locals[c].line[intid] == asserted { return; }
        locals := locals[c := locals[c].(line := locals[c].line[intid := asserted])];
        active := locals[c].active[intid];
      } else {
        if intid >= INTIDS || spiLineLevel[intid - LOCALS] == asserted { return; }
        spiLineLevel[intid - LOCALS] := asserted;
        active := spiActive[intid - LOCALS];
      }
      stateEpoch := stateEpoch + 1;
      assert State() == PutLine(old(State()), cpu, intid, asserted);
      StaysTrustworthy(pendingQueryCache, old(State()), State());
      if asserted && !active {
        SetBitOf(PendingBit, cpu, intid, true);
      }
    }

    method SendSgiRequest(source: nat, value: u64)
      requires Valid()
      modifies this
      ensures Valid() && State() == SendSgi(old(State()), source, value)
    {
      hide SgiNames, SetBit, LocalWf, PendOn;
      PendOnNone(State(), SgiIntid(value));
      var intid := SgiIntid(value);
      ghost var g := State();
      ghost var targets := set c | 0 <= c < |g.locals| && SgiTargets(g, source, value, c);
      var cpu := 0;
      while cpu < |locals|
        invariant Valid() && cpu <= |locals| == |g.locals|
        invariant State() == PendOn(g, intid, targets, cpu)
        invariant forall c | 0 <= c < |locals| :: locals[c].mpidr == g.locals[c].mpidr
      {
        PendOnNext(g, intid, targets, cpu);
        if SgiNames(locals[cpu].mpidr, cpu, source, value) {
          SetBitKeepsAffinity(State(), PendingBit, cpu, intid, true);
          SetLocalBit(PendingBit, cpu, intid, true);
        }
        cpu := cpu + 1;
      }
    }

    // ----- arbitration -----

    /** The full scan: local interrupts first, then the shared ones, keeping the best so far. */
    method HighestPending(cpu: nat, pmr: u8) returns (found: bool, intid: nat)
      requires Valid()
      ensures found <==> HasCandidate(State(), cpu, pmr)
      ensures found ==> IsHighest(State(), cpu, pmr, intid)
      ensures Highest(State(), cpu, pmr) == if found then Some(intid) else None
      ensures !found ==> intid == NO_INTID
    {
      hide BestOf, IsHighest, HasCandidate, Candidate, Before;
      ghost var g := State();
      var c := Clamp(cpu, |locals|);
      found := false;
      var bestPrio, bestIntid := 0xFF, NO_INTID;
      NoneBest(g, cpu, pmr);
      for x := 0 to LOCALS
        invariant BestOf(g, cpu, pmr, x) == if found then Some(bestIntid) else None
        invariant found ==> bestIntid < x && bestPrio == At(g, cpu, bestIntid).prio
      {
        BestStep(g, cpu, pmr, x);
        if locals[c].pending[x] && locals[c].enabled[x] && locals[c].prio[x] < pmr {
          if !found || locals[c].prio[x] < bestPrio || (locals[c].prio[x] == bestPrio && x < bestIntid) {
            found, bestPrio, bestIntid := true, locals[c].prio[x], x;
          }
        }
      }
      for x := LOCALS to INTIDS
        invariant BestOf(g, cpu, pmr, x) == if found then Some(bestIntid) else None
        invariant found ==> bestIntid < x && bestPrio == At(g, cpu, bestIntid).prio
      {
        BestStep(g, cpu, pmr, x);
        var i := x - LOCALS;
        if spiPending[i] && spiEnabled[i] && spiPriorities[i] < pmr {
          if !found || spiPriorities[i] < bestPrio || (spiPriorities[i] == bestPrio && x < bestIntid) {
            found, bestPrio, bestIntid := true, spiPriorities[i], x;
          }
        }
      }
      intid := if found then bestIntid else NO_INTID;
      HighestIsHighest(g, cpu, pmr);
      HighestIsBest(g, cpu, pmr);
    }

    static lemma NoneBest(g: Gic, cpu: nat, pmr: u8)
      requires Wf(g)
      ensures BestOf(g, cpu, pmr, 0) == None
    {
    }

    static lemma HighestIsBest(g: Gic, cpu: nat, pmr: u8)
      requires Wf(g)
      ensures Highest(g, cpu, pmr) == BestOf(g, cpu, pmr, INTIDS)
    {
    }

    /** One step of the scan, in terms of the interrupt looked at and the best one so far. */
    static lemma BestStep(g: Gic, cpu: nat, pmr: u8, x: nat)
      requires Wf(g) && x < INTIDS
      ensures var best := BestOf(g, cpu, pmr, x); var i := At(g, cpu, x);
        BestOf(g, cpu, pmr, x + 1) ==
        if i.pending && i.enabled && i.prio < pmr && (best.None? || i.prio < At(g, cpu, best.value).prio) then Some(x)
        else best
    {
    }

    /** Answers from the cache when it can; either way the answer is the full scan's. */
    method HasPending(cpu: nat, pmr: u8) returns (pending: bool)
      requires Valid()
      modifies this`pendingQueryCache
      ensures Valid() && State() == old(State())
      ensures pending <==> HasCandidate(State(), cpu, pmr)
    {
      var idx := Clamp(cpu, |locals|);
      var cached := pendingQueryCache[idx];
      ClampedSameCandidates(State(), cpu, idx, pmr);
      assert Trustworthy(cached, State(), idx);
      if cached.valid && cached.epoch == stateEpoch && cached.pmr == pmr {
        return cached.value;
      }
      var intid;
      pending, intid := HighestPending(idx, pmr);
      pendingQueryCache := pendingQueryCache[idx := Remembered(true, pending, pmr, stateEpoch)];
    }

    lemma ClampedSameCandidates(g: Gic, cpu: nat, idx: nat, pmr: u8)
      requires Wf(g) && idx == Clamp(cpu, |g.locals|)
      ensures HasCandidate(g, cpu, pmr) <==> HasCandidate(g, idx, pmr)
    {
      assert forall x: nat :: Candidate(g, cpu, x, pmr) == Candidate(g, idx, x, pmr);
    }

    method AcknowledgeInterrupt(cpu: nat, pmr: u8) returns (found: bool, intid: nat)
      requires Valid()
      modifies Repr()
      ensures Valid() && State() == Acknowledge(old(State()), cpu, pmr)
      ensures Highest(old(State()), cpu, pmr) == if found then Some(intid) else None
      ensures !found ==> intid == NO_INTID
    {
      found, intid := HighestPending(cpu, pmr);
      if !found { return; }
      SetBitOf(PendingBit, cpu, intid, false);
      SetBitOf(ActiveBit, cpu, intid, true);
    }

    method EndOfInterrupt(cpu: nat, intid: nat)
      requires Valid()
      modifies Repr()
      ensures Valid() && State() == Eoi(old(State()), cpu, intid)
    {
      if intid >= INTIDS { return; }
      SetBitOf(ActiveBit, cpu, intid, false);
      var line := if intid < LOCALS then locals[Clamp(cpu, |locals|)].line[intid] else spiLineLevel[intid - LOCALS];
      SetBitAt(old(State()), ActiveBit, cpu, intid, false, cpu, intid);
      assert line == At(State(), cpu, intid).line;
      if line {
        SetBitOf(PendingBit, cpu, intid, true);
      }
    }

    // ----- registers -----

    method SetRangeOf(f: Field, cpu: nat, first: nat, bits: u32, value: bool)
      requires Valid()
      modifies Repr()
      ensures Valid() && State() == SetRange(old(State()), f, cpu, first, BitsOf(bits), value, 32)
    {
      for bit := 0 to 32
        invariant Valid() && State() == SetRange(old(State()), f, cpu, first, BitsOf(bits), value, bit)
      {
        if Bit(bits, bit) {
          SetBitOf(f, cpu, first + bit, value);
        }
      }
    }

    method SetPriorityRange(local: bool, cpu: nat, first: nat, value: u32)
      requires Valid()
      modifies Repr()
      ensures Valid()
      ensures State() == SetPriorities(old(State()), local, cpu, first, value, 4).(epoch := old(stateEpoch) + 1)
    {
      hide At, Candidate, Byte;
      stateEpoch := stateEpoch + 1;
      ghost var g := old(State());
      for i := 0 to 4
        invariant Shaped() && stateEpoch == old(stateEpoch) + 1
        invariant pendingQueryCache == old(pendingQueryCache)
        invariant State() == SetPriorities(g, local, cpu, first, value, i).(epoch := stateEpoch)
      {
        var intid := first + i;
        if local == (intid < LOCALS) {
          ghost var h := SetPriorities(g, local, cpu, first, value, i);
          if intid < LOCALS {
            var c := Clamp(cpu, |locals|);
            locals := locals[c := locals[c].(prio := locals[c].prio[intid := Byte(value, i)])];
          } else if intid < INTIDS {
            spiPriorities[intid - LOCALS] := Byte(value, i);
          }
          assert State() == PutPriority(h, cpu, intid, Byte(value, i)).(epoch := stateEpoch);
        }
      }
      StaysTrustworthy(pendingQueryCache, g, State());
    }

    method WriteDistReg(offset: nat, value: u32)
      requires Valid()
      modifies Repr()
      ensures Valid() && State() == WriteDist(old(State()), offset, value)
    {
      if offset == 0 {
        gicdCtlr := value % 4 + value / 16 % 2 * 16;
        StaysTrustworthy(pendingQueryCache, old(State()), State());
      } else if 0x100 <= offset < 0x180 {
        var n := (offset - 0x100) / 4;
        if n != 0 { SetRangeOf(EnabledBit, 0, n * 32, value, true); }
      } else if 0x180 <= offset < 0x200 {
        var n := (offset - 0x180) / 4;
        if n != 0 { SetRangeOf(EnabledBit, 0, n * 32, value, false); }
      } else if 0x300 <= offset < 0x380 {
        var n := (offset - 0x300) / 4;
        if n != 0 { SetRangeOf(ActiveBit, 0, n * 32, value, true); }
      } else if 0x380 <= offset < 0x400 {
        var n := (offset - 0x380) / 4;
        if n != 0 { SetRangeOf(ActiveBit, 0, n * 32, value, false); }
      } else if 0x400 <= offset < 0x400 + INTIDS {
        SetPriorityRange(false, 0, offset - 0x400, value);
      }
    }

    method WriteRedistReg(offset: nat, value: u32)
      requires Valid()
      modifies Repr()
      ensures Valid() && State() == WriteRedist(old(State()), offset, value)
    {
      if offset < REDIST_BASE { return; }
      var frame := (offset - REDIST_BASE) / FRAME_SIZE;
      if frame >= |locals| { return; }
      var inner := (offset - REDIST_BASE) % FRAME_SIZE;
      if inner == 0x1_0100 {
        SetRangeOf(EnabledBit, frame, 0, value, true);
      } else if inner == 0x1_0180 {
        SetRangeOf(EnabledBit, frame, 0, value, false);
      } else if inner == 0x1_0200 {
        SetRangeOf(PendingBit, frame, 0, value, true);
      } else if inner == 0x1_0280 {
        SetRangeOf(PendingBit, frame, 0, value, false);
      } else if inner == 0x1_0300 {
        SetRangeOf(ActiveBit, frame, 0, value, true);
      } else if inner == 0x1_0380 {
        SetRangeOf(ActiveBit, frame, 0, value, false);
      } else if 0x1_0400 <= inner < 0x1_0400 + LOCALS {
        SetPriorityRange(true, frame, inner - 0x1_0400, value);
      } else {
        WriteRedistConfig(frame, inner, value);
      }
    }

    /** Redistributor registers that no pending query looks at. */
    method WriteRedistConfig(frame: nat, inner: nat, value: u32)
      requires Valid() && frame < |locals|
      modifies this
      ensures Valid()
      ensures State() == old(State()).(locals := locals) && |locals| == old(|locals|)
      ensures locals == old(locals)[frame := var l := old(locals)[frame];
                                             if inner == 0x14 then l.(waker := value / 2 % 2 * 2)
                                             else if inner == 0x1_0080 then l.(igroup := value)
                                             else if inner == 0x1_0C00 then l.(icfgr0 := value)
                                             else if inner == 0x1_0C04 then l.(icfgr1 := value)
                                             else l]
    {
      var l := locals[frame];
      if inner == 0x14 { l := l.(waker := value / 2 % 2 * 2); }
      else if inner == 0x1_0080 { l := l.(igroup := value); }
      else if inner == 0x1_0C00 { l := l.(icfgr0 := value); }
      else if inner == 0x1_0C04 { l := l.(icfgr1 := value); }
      locals := locals[frame := l];
      StaysTrustworthy(pendingQueryCache, old(State()), State());
    }

    method SetAffinity(cpu: nat, mpidr: u64)
      requires Valid()
      modifies this
      ensures Valid() && State() == Apply(old(State()), AffinityOp(cpu, mpidr))
    {
      var c := Clamp(cpu, |locals|);
      locals := locals[c := locals[c].(mpidr := mpidr)];
      StaysTrustworthy(pendingQueryCache, old(State()), State());
    }

    /** Any single operation, as a processor or a device issues it. */
    method Perform(op: Op)
      requires Valid()
      modifies Repr()
      ensures Valid() && State() == Apply(old(State()), op)
    {
      match op {
        case LevelOp(cpu, intid, asserted) => RaiseLevel(cpu, intid, asserted);
        case PendOp(cpu, intid) => SetPending(cpu, intid);
        case SgiOp(source, value) => SendSgiRequest(source, value);
        case AckOp(cpu, pmr) => var _, _ := AcknowledgeInterrupt(cpu, pmr);
        case EoiOp(cpu, intid) => EndOfInterrupt(cpu, intid);
        case AffinityOp(cpu, mpidr) => SetAffinity(cpu, mpidr);
        case DistOp(offset, word) => WriteDistReg(offset, word);
        case RedistOp(offset, word) => WriteRedistReg(offset, word);
      }
    }
  }
}
