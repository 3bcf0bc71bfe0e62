/** What each operation does to one interrupt, and the life of a level interrupt from its rise to the next. */
module GicLifecycle {
  import opened Words
  import opened GicSpec
  import GicTheorems

  // ----- one operation, one interrupt -----

  /** A line that rises makes its interrupt pending unless it is active; nothing else about it changes, and no
      other interrupt changes at all. */
  lemma SetLevelAt(g: Gic, cpu: nat, intid: nat, asserted: bool, c: nat, y: nat)
    requires Wf(g) && intid < INTIDS && y < INTIDS
    ensures var i := At(g, c, y);
      At(SetLevel(g, cpu, intid, asserted), c, y)
      == if Same(g, cpu, intid, c, y) then
           i.(line := asserted, pending := i.pending || (asserted && !i.line && !i.active))
         else i
  {
    hide PutLine, SetBit;
    PutLineAt(g, cpu, intid, asserted, c, y);
    SetBitAt(PutLine(g, cpu, intid, asserted), PendingBit, cpu, intid, true, c, y);
    if Same(g, cpu, intid, c, y) { SameAt(g, cpu, intid, c, y); }
  }

  lemma SameAt(g: Gic, cpu: nat, intid: nat, c: nat, y: nat)
    requires Wf(g) && intid < INTIDS && y < INTIDS && Same(g, cpu, intid, c, y)
    ensures At(g, cpu, intid) == At(g, c, y)
  {
  }

  /** An end of interrupt makes its interrupt inactive, and pending again if the line is still up; no other changes. */
  lemma EoiAt(g: Gic, cpu: nat, intid: nat, c: nat, y: nat)
    requires Wf(g) && intid < INTIDS && y < INTIDS
    ensures var i := At(g, c, y);
      At(Eoi(g, cpu, intid), c, y)
      == if Same(g, cpu, intid, c, y) then i.(active := false, pending := i.pending || i.line) else i
  {
    hide SetBit, At;
    SetBitAt(g, ActiveBit, cpu, intid, false, c, y);
    SetBitAt(SetBit(g, ActiveBit, cpu, intid, false), PendingBit, cpu, intid, true, c, y);
    if Same(g, cpu, intid, c, y) { SameAt(g, cpu, intid, c, y); }
  }

  /** An acknowledgement makes the one interrupt it takes active and no longer pending; no other changes. */
  lemma AcknowledgeAt(g: Gic, cpu: nat, pmr: u8, x: nat, c: nat, y: nat)
    requires Wf(g) && Highest(g, cpu, pmr) == Some(x) && y < INTIDS
    ensures var i := At(g, c, y);
      At(Acknowledge(g, cpu, pmr), c, y)
      == if Same(g, cpu, x, c, y) then i.(pending := false, active := true) else i
  {
    hide Highest;
    GicTheorems.TakeInterruptAt(g, cpu, x, c, y);
  }

  /** The life of a level interrupt: it rises, is taken, falls, is ended and rises again. It was pending after the first
      rise, is active alone while it is served, is at rest after the end, and is pending again at the second rise; then
      it is a candidate whenever it is enabled and its priority passes the mask. */
  lemma LevelCycle(g: Gic, cpu: nat, x: nat, pmr: u8)
    requires Wf(g) && x < INTIDS && !At(g, cpu, x).line && !At(g, cpu, x).active
    requires Highest(SetLevel(g, cpu, x, true), cpu, pmr) == Some(x)
    ensures var i := At(g, cpu, x);
      var up := SetLevel(g, cpu, x, true);
      var taken := Acknowledge(up, cpu, pmr);
      var down := SetLevel(taken, cpu, x, false);
      var ended := Eoi(down, cpu, x);
      var again := SetLevel(ended, cpu, x, true);
      && At(up, cpu, x) == i.(line := true, pending := true)
      && At(taken, cpu, x) == i.(line := true, pending := false, active := true)
      && At(ended, cpu, x) == i.(pending := false)
      && At(again, cpu, x) == At(up, cpu, x)
      && (Candidate(again, cpu, x, pmr) <==> i.enabled && i.prio < pmr)
  {
    hide SetLevel, Acknowledge, Eoi, Highest, At;
    var up := SetLevel(g, cpu, x, true);
    var taken := Acknowledge(up, cpu, pmr);
    var down := SetLevel(taken, cpu, x, false);
    var ended := Eoi(down, cpu, x);
    SetLevelAt(g, cpu, x, true, cpu, x);
    AcknowledgeAt(up, cpu, pmr, x, cpu, x);
    SetLevelAt(taken, cpu, x, false, cpu, x);
    EoiAt(down, cpu, x, cpu, x);
    SetLevelAt(ended, cpu, x, true, cpu, x);
  }

  /** A line that stays up through the service brings its interrupt back at the end of it. */
  lemma HeldLineComesBack(g: Gic, cpu: nat, x: nat, pmr: u8)
    requires Wf(g) && Highest(g, cpu, pmr) == Some(x) && At(g, cpu, x).line
    ensures var taken := Acknowledge(g, cpu, pmr);
      var ended := Eoi(taken, cpu, x);
      && At(taken, cpu, x).active && !At(taken, cpu, x).pending
      && At(ended, cpu, x).pending && !At(ended, cpu, x).active && Candidate(ended, cpu, x, pmr)
  {
    hide Acknowledge, Eoi, Highest, At;
    var taken := Acknowledge(g, cpu, pmr);
    AcknowledgeAt(g, cpu, pmr, x, cpu, x);
    EoiAt(taken, cpu, x, cpu, x);
  }

  // ----- register writes -----

  /** Bit k of the word in the n-th register of a bank stands for interrupt 32n + k. */
  predicate Names(word: u32, n: nat, y: nat) {
    32 * n <= y < 32 * n + 32 && Bit(word, y - 32 * n)
  }

  lemma BitsAre(word: u32, k: nat)
    requires k < 32
    ensures k in BitsOf(word) <==> Bit(word, k)
  {
    hide Bit;
  }

  lemma BankWritten(g: Gic, f: Field, n: nat, word: u32, v: bool, c: nat, y: nat)
    requires Wf(g) && c < |g.locals| && y < INTIDS
    ensures At(BankedRange(g, f, n, word, v), c, y)
            == if n > 0 && Names(word, n, y) then PutField(At(g, c, y), f, v) else At(g, c, y)
  {
    hide At, SetRange, PutField, Bit;
    GicTheorems.SetRangeReaches(g, f, 0, n * 32, BitsOf(word), v, 32, c, y);
    if 32 * n <= y < 32 * n + 32 { BitsAre(word, y - 32 * n); }
  }

  /** Writing the n-th set-enable, clear-enable, set-active or clear-active register of the distributor enables, disables,
      activates or deactivates exactly the shared interrupts whose bits are set. */
  lemma DistBankWritten(g: Gic, n: nat, word: u32, c: nat, y: nat)
    requires Wf(g) && c < |g.locals| && y < INTIDS && n < 32
    ensures var i := At(g, c, y);
      var hit := y >= LOCALS && Names(word, n, y);
      && At(WriteDist(g, 0x100 + 4 * n, word), c, y) == (if hit then i.(enabled := true) else i)
      && At(WriteDist(g, 0x180 + 4 * n, word), c, y) == (if hit then i.(enabled := false) else i)
      && At(WriteDist(g, 0x300 + 4 * n, word), c, y) == (if hit then i.(active := true) else i)
      && At(WriteDist(g, 0x380 + 4 * n, word), c, y) == (if hit then i.(active := false) else i)
  {
    hide At, BankedRange, SetPriorities, Names;
    assert (4 * n) / 4 == n;
    BankWritten(g, EnabledBit, n, word, true, c, y);
    BankWritten(g, EnabledBit, n, word, false, c, y);
    BankWritten(g, ActiveBit, n, word, true, c, y);
    BankWritten(g, ActiveBit, n, word, false, c, y);
    NamesShared(word, n, y);
  }

  lemma NamesShared(word: u32, n: nat, y: nat)
    ensures Names(word, n, y) ==> (y >= LOCALS <==> n > 0)
  {
    hide Bit;
  }

  function RedistOffset(c: nat, inner: nat): nat { REDIST_BASE + c * FRAME_SIZE + inner }

  lemma InFrame(c: nat, inner: nat)
    requires inner < FRAME_SIZE
    ensures (RedistOffset(c, inner) - REDIST_BASE) / FRAME_SIZE == c
    ensures (RedistOffset(c, inner) - REDIST_BASE) % FRAME_SIZE == inner
  {
    QuotientUnique(c * FRAME_SIZE + inner, FRAME_SIZE, c, inner);
  }

  lemma OwnBankWritten(g: Gic, f: Field, cpu: nat, word: u32, v: bool, c: nat, y: nat)
    requires Wf(g) && c < |g.locals| && cpu < |g.locals| && y < INTIDS
    ensures At(SetRange(g, f, cpu, 0, BitsOf(word), v, 32), c, y)
            == if c == cpu && y < LOCALS && Bit(word, y) then PutField(At(g, c, y), f, v) else At(g, c, y)
  {
    hide At, SetRange, PutField, Bit;
    GicTheorems.SetRangeReaches(g, f, cpu, 0, BitsOf(word), v, 32, c, y);
    if y < LOCALS { BitsAre(word, y); }
  }

  /** Writing the set- and clear- registers for enable, pending and active in a CPU's own frame sets and clears that
      field of exactly that CPU's own interrupts whose bits are set. */
  lemma RedistBankWritten(g: Gic, cpu: nat, word: u32, c: nat, y: nat)
    requires Wf(g) && c < |g.locals| && cpu < |g.locals| && y < INTIDS
    ensures var i := At(g, c, y);
      var hit := c == cpu && y < LOCALS && Bit(word, y);
      && At(WriteRedist(g, RedistOffset(cpu, 0x1_0100), word), c, y) == (if hit then i.(enabled := true) else i)
      && At(WriteRedist(g, RedistOffset(cpu, 0x1_0180), word), c, y) == (if hit then i.(enabled := false) else i)
      && At(WriteRedist(g, RedistOffset(cpu, 0x1_0200), word), c, y) == (if hit then i.(pending := true) else i)
      && At(WriteRedist(g, RedistOffset(cpu, 0x1_0280), word), c, y) == (if hit then i.(pending := false) else i)
      && At(WriteRedist(g, RedistOffset(cpu, 0x1_0300), word), c, y) == (if hit then i.(active := true) else i)
      && At(WriteRedist(g, RedistOffset(cpu, 0x1_0380), word), c, y) == (if hit then i.(active := false) else i)
  {
    hide At, SetRange, SetPriorities, Bit;
    InFrame(cpu, 0x1_0100); InFrame(cpu, 0x1_0180); InFrame(cpu, 0x1_0200);
    InFrame(cpu, 0x1_0280); InFrame(cpu, 0x1_0300); InFrame(cpu, 0x1_0380);
    hide RedistOffset;
    OwnBankWritten(g, EnabledBit, cpu, word, true, c, y);
    OwnBankWritten(g, EnabledBit, cpu, word, false, c, y);
    OwnBankWritten(g, PendingBit, cpu, word, true, c, y);
    OwnBankWritten(g, PendingBit, cpu, word, false, c, y);
    OwnBankWritten(g, ActiveBit, cpu, word, true, c, y);
    OwnBankWritten(g, ActiveBit, cpu, word, false, c, y);
  }

  lemma PriorityPut(g: Gic, cpu: nat, intid: nat, p: u8, c: nat, y: nat)
    requires Wf(g) && c < |g.locals| && y < INTIDS
    ensures At(PutPriority(g, cpu, intid, p), c, y)
            == if Same(g, cpu, intid, c, y) then At(g, c, y).(prio := p) else At(g, c, y)
  {
    if intid < LOCALS { LocalPriorityPut(g, cpu, intid, p, c, y); }
  }

  lemma LocalPriorityPut(g: Gic, cpu: nat, intid: nat, p: u8, c: nat, y: nat)
    requires Wf(g) && c < |g.locals| && y < INTIDS && intid < LOCALS
    ensures At(PutPriority(g, cpu, intid, p), c, y)
            == if Same(g, cpu, intid, c, y) then At(g, c, y).(prio := p) else At(g, c, y)
  {
  }

  lemma {:induction false} PrioritiesPut(g: Gic, local: bool, cpu: nat, first: nat, word: u32, n: nat, c: nat, y: nat)
    requires Wf(g) && c < |g.locals| && y < INTIDS
    ensures At(SetPriorities(g, local, cpu, first, word, n), c, y)
            == if first <= y < first + n && local == (y < LOCALS) && Same(g, cpu, y, c, y)
               then At(g, c, y).(prio := Byte(word, y - first)) else At(g, c, y)
  {
    hide At, PutPriority, Byte, Wf;
    if n > 0 {
      PrioritiesPut(g, local, cpu, first, word, n - 1, c, y);
      PriorityPut(SetPriorities(g, local, cpu, first, word, n - 1), cpu, first + n - 1, Byte(word, n - 1), c, y);
    }
  }

  /** A write to the priorities gives the four interrupts from that one on the four bytes of the word, lowest first: the
      shared ones through the distributor, a CPU's own through its frame. */
  lemma PrioritiesWritten(g: Gic, cpu: nat, first: nat, word: u32, c: nat, y: nat)
    requires Wf(g) && c < |g.locals| && cpu < |g.locals| && first < INTIDS && y < INTIDS
    ensures var i := At(g, c, y);
      At(WriteDist(g, 0x400 + first, word), c, y)
      == if y >= LOCALS && first <= y < first + 4 then i.(prio := Byte(word, y - first)) else i
    ensures first < LOCALS ==> var i := At(g, c, y);
      At(WriteRedist(g, RedistOffset(cpu, 0x1_0400 + first), word), c, y)
      == if c == cpu && y < LOCALS && first <= y < first + 4 then i.(prio := Byte(word, y - first)) else i
  {
    hide Byte, SetRange, SetPriorities;
    PrioritiesPut(g, false, 0, first, word, 4, c, y);
    EpochUnseen(SetPriorities(g, false, 0, first, word, 4), c, y);
    if first < LOCALS {
      InFrame(cpu, 0x1_0400 + first);
      PrioritiesPut(g, true, cpu, first, word, 4, c, y);
      EpochUnseen(SetPriorities(g, true, cpu, first, word, 4), c, y);
    }
  }

  lemma EpochUnseen(g: Gic, c: nat, y: nat)
    requires Wf(g) && y < INTIDS
    ensures At(g.(epoch := g.epoch + 1), c, y) == At(g, c, y)
  {
  }

  // ----- software interrupts -----

  /** The request for interrupt intid at the listed CPUs of one cluster. */
  function SgiRequest(aff3: u8, aff2: u8, aff1: u8, intid: nat, list: u16): (v: u64)
    requires intid < 16
  {
    aff3 * 0x1_0000_0000_0000 + aff2 * 0x1_0000_0000 + intid * 0x100_0000 + aff1 * 0x1_0000 + list
  }

  lemma SgiFields(aff3: u8, aff2: u8, aff1: u8, intid: nat, list: u16)
    requires intid < 16
    ensures var v := SgiRequest(aff3, aff2, aff1, intid, list);
      && Byte(v, 6) == aff3 && Byte(v, 4) == aff2 && Byte(v, 2) == aff1 && v % TWO16 == list
      && SgiIntid(v) == intid && !Bit(v, 40)
  {
    hide Pow2;
    PowersOfTwo();
    SgiParts(aff3, aff2, aff1, intid, list);
  }

  lemma SgiParts(aff3: u8, aff2: u8, aff1: u8, intid: nat, list: u16)
    requires intid < 16
    ensures var v := SgiRequest(aff3, aff2, aff1, intid, list);
      && v / 0x1_0000_0000_0000 == aff3
      && v / 0x100_0000_0000 == aff3 * 256
      && v / 0x1_0000_0000 == aff3 * 0x1_0000 + aff2
      && v / 0x100_0000 == aff3 * 0x100_0000 + aff2 * 0x100 + intid
      && v / 0x1_0000 == aff3 * 0x1_0000_0000 + aff2 * 0x1_0000 + intid * 0x100 + aff1
  {
  }

  /** It becomes pending at exactly the CPUs of that cluster whose number in it is on the list. */
  lemma SgiReachesCluster(g: Gic, source: nat, aff3: u8, aff2: u8, aff1: u8, intid: nat, list: u16, c: nat, y: nat)
    requires Wf(g) && c < |g.locals| && y < INTIDS && intid < 16
    ensures var i, mpidr := At(g, c, y), g.locals[c].mpidr;
      At(SendSgi(g, source, SgiRequest(aff3, aff2, aff1, intid, list)), c, y)
      == if y == intid && Byte(mpidr, 4) == aff3 && Byte(mpidr, 2) == aff2 && Byte(mpidr, 1) == aff1
            && Byte(mpidr, 0) < 16 && Bit(list, Byte(mpidr, 0))
         then i.(pending := true) else i
  {
    hide Byte, Bit, At, SgiRequest, SendSgi, SgiIntid;
    SgiFields(aff3, aff2, aff1, intid, list);
    GicTheorems.SendSgiReaches(g, source, SgiRequest(aff3, aff2, aff1, intid, list), c, y);
  }

  /** A request with the broadcast bit set becomes pending at every CPU but the one that asks. */
  lemma SgiBroadcasts(g: Gic, source: nat, value: u64, c: nat, y: nat)
    requires Wf(g) && c < |g.locals| && y < INTIDS && Bit(value, 40)
    ensures var i := At(g, c, y);
      At(SendSgi(g, source, value), c, y) == if y == SgiIntid(value) && c != source then i.(pending := true) else i
  {
    hide Bit, At, SendSgi, SgiIntid;
    GicTheorems.SendSgiReaches(g, source, value, c, y);
  }

  /** Setting a CPU's affinity changes which requests name it, and no interrupt. */
  lemma AffinityNames(g: Gic, cpu: nat, mpidr: u64, source: nat, value: u64, c: nat, y: nat)
    requires Wf(g) && cpu < |g.locals| && c < |g.locals| && y < INTIDS
    ensures var h := Apply(g, AffinityOp(cpu, mpidr));
      && (SgiTargets(h, source, value, c) <==>
            SgiNames(if c == cpu then mpidr else g.locals[c].mpidr, c, source, value))
      && At(h, c, y) == At(g, c, y)
  {
    hide SgiNames;
  }

  /** Of the distributor's control register only bits 0, 1 and 4 are kept, and a write to it moves no interrupt. */
  lemma ControlWritten(g: Gic, word: u32, c: nat, y: nat)
    requires Wf(g) && c < |g.locals| && y < INTIDS
    ensures var h := WriteDist(g, 0, word);
      && h.ctlr % 4 == word % 4 && h.ctlr / 16 == word / 16 % 2 && h.ctlr / 4 % 4 == 0
      && At(h, c, y) == At(g, c, y)
  {
    ControlBits(word);
    hide Bit;
  }

  lemma ControlBits(word: u32)
    ensures var v := word % 4 + word / 16 % 2 * 16; v % 4 == word % 4 && v / 16 == word / 16 % 2 && v / 4 % 4 == 0
  {
    var b := word / 16 % 2;
    assert b == 0 || b == 1;
  }
}
