/** Exceptions nested to any depth come back to where they started. */
module ExceptionTheorems {
  import opened ExceptionSpec

  /** A consistent state: a supported mode, and the stack selector that goes with it. */
  predicate Coherent(r: Regs) {
    KnownMode(r.pstate.mode) && r.spsel == SpselOf(r.pstate.mode)
  }

  lemma PackedFlags(p: PState)
    ensures Has(PStateBits(p), 0x8000_0000) == p.n && Has(PStateBits(p), 0x4000_0000) == p.z
    ensures Has(PStateBits(p), 0x2000_0000) == p.c && Has(PStateBits(p), 0x1000_0000) == p.v
  {
  }

  lemma PackedMasks(p: PState)
    ensures Has(PStateBits(p), 0x200) == p.d && Has(PStateBits(p), 0x100) == p.a
    ensures Has(PStateBits(p), 0x80) == p.i && Has(PStateBits(p), 0x40) == p.f
  {
  }

  lemma PackedRest(p: PState)
    ensures Has(PStateBits(p), SS_BIT) == p.ss && Has(PStateBits(p), IL_BIT) == p.il
    ensures Has(PStateBits(p), PAN_BIT) == p.pan && !Has(PStateBits(p), AARCH32_BIT)
    ensures ModeOf(PStateBits(p)) == ModeOf(p.mode)
  {
  }

  lemma PackedPieces(p: PState)
    ensures Nzcv(p) & !NZCV_MASK == 0 && Daif(p) & !DAIF_MASK == 0
    ensures Flag(p.ss, SS_BIT) & !SS_BIT == 0 && Flag(p.il, IL_BIT) & !IL_BIT == 0
    ensures Flag(p.pan, PAN_BIT) & !PAN_BIT == 0
  {
  }

  lemma PiecesFit(a: bv64, b: bv64, c: bv64, d: bv64, e: bv64, f: bv64)
    requires a & !NZCV_MASK == 0 && b & !SS_BIT == 0 && c & !IL_BIT == 0 && d & !DAIF_MASK == 0 && e & !PAN_BIT == 0
    ensures (a | b | c | d | e | ModeOf(f)) & SPSR_MASK == a | b | c | d | e | ModeOf(f)
  {
  }

  lemma SameLevel(x: bv64, y: bv64)
    requires ModeOf(x) == ModeOf(y)
    ensures El(x) == El(ModeOf(y))
  {
  }

  lemma PackedIsSanitized(p: PState)
    ensures Sanitized(PStateBits(p)) == PStateBits(p)
    ensures El(PStateBits(p)) == El(ModeOf(p.mode))
  {
    PackedPieces(p);
    PackedRest(p);
    hide Nzcv, Daif, Flag, Has, ModeOf;
    PiecesFit(Nzcv(p), Flag(p.ss, SS_BIT), Flag(p.il, IL_BIT), Daif(p), Flag(p.pan, PAN_BIT), p.mode);
    SameLevel(PStateBits(p), p.mode);
  }

  /** Packing into SPSR and unpacking loses nothing, and the SPSR mask drops nothing that was packed. */
  lemma PackingRoundTrip(p: PState)
    requires KnownMode(p.mode)
    ensures Unpacked(Sanitized(PStateBits(p))) == p
    ensures Sanitized(PStateBits(p)) == PStateBits(p)
    ensures !Has(PStateBits(p), AARCH32_BIT) && El(PStateBits(p)) == El(p.mode)
  {
    assert ModeOf(p.mode) == p.mode;
    hide PStateBits, Sanitized, Has, El, ModeOf;
    PackedFlags(p);
    PackedMasks(p);
    PackedRest(p);
    PackedIsSanitized(p);
  }

  lemma FlagsUnpacked(v: bv64)
    ensures Nzcv(Unpacked(v)) == v & NZCV_MASK && Daif(Unpacked(v)) == v & DAIF_MASK
  {
  }

  lemma BitsUnpacked(v: bv64)
    ensures Flag(Unpacked(v).ss, SS_BIT) == v & SS_BIT && Flag(Unpacked(v).il, IL_BIT) == v & IL_BIT
    ensures Flag(Unpacked(v).pan, PAN_BIT) == v & PAN_BIT && Unpacked(v).mode == ModeOf(v)
  {
  }

  lemma MaskJoins(v: bv64)
    ensures (v & NZCV_MASK) | (v & SS_BIT) | (v & IL_BIT) | (v & DAIF_MASK) | (v & PAN_BIT) | ModeOf(ModeOf(v))
         == v & SPSR_MASK & !AARCH32_BIT
  {
  }

  /** Unpacking and packing again keeps exactly the architected bits below the AArch32 bit. */
  lemma UnpackingRoundTrip(v: bv64)
    ensures PStateBits(Unpacked(v)) == Sanitized(v) & !AARCH32_BIT
  {
    hide Nzcv, Daif, Flag, Unpacked, ModeOf;
    FlagsUnpacked(v);
    BitsUnpacked(v);
    MaskJoins(v);
  }

  /** Without the OS lock a write to MDSCR reaches only the four directly writable bits. */
  lemma MdscrWriteReaches(current: bv64, value: bv64, osLocked: bool)
    ensures MergedMdscr(current, value, osLocked) & MDSCR_DIRECT == value & MDSCR_DIRECT
    ensures MergedMdscr(current, value, osLocked) & MDSCR_LOCKED
         == (if osLocked then value else current) & MDSCR_LOCKED
    ensures MergedMdscr(current, value, osLocked) & !MDSCR_MASK == 0
  {
  }

  /** A write to SCTLR leaves the reserved bits set, and nothing but them and the writable bits. */
  lemma SctlrReserved(value: bv64, writable: bv64, res1: bv64)
    ensures SanitizedSctlr(value, writable, res1) & res1 == res1
  {
  }

  lemma SctlrNothingElse(value: bv64, writable: bv64, res1: bv64)
    ensures SanitizedSctlr(value, writable, res1) & !(writable | res1) == 0
  {
  }

  lemma SctlrWritten(value: bv64, writable: bv64, res1: bv64)
    ensures SanitizedSctlr(value, writable, res1) & (writable & !res1) == value & (writable & !res1)
  {
  }

  // ----- handlers -----

  /** What runs between an exception and its return: register writes, and further exceptions with their handlers. */
  datatype Script =
    | Finish
    | Write(edit: Edit, rest: Script)
    | Trap(cause: Cause, pc: bv64, handler: Script, rest: Script)

  /** The state just before a handler returns: it has put back the ELR and SPSR that entry gave it. */
  function BeforeReturn(r: Regs, cause: Cause, pc: bv64, handler: Script): Regs
    decreases handler, 1
  {
    var entered := Entered(r, cause, pc, PStateBits(r.pstate));
    Ran(entered, handler).(elr := entered.elr, spsr := Sanitized(entered.spsr))
  }

  /** Taking an exception, running its handler and returning from it. */
  function Handled(r: Regs, cause: Cause, pc: bv64, handler: Script): Regs
    decreases handler, 2
  {
    var last := BeforeReturn(r, cause, pc, handler);
    Returned(last, IllegalReturn(last))
  }

  function Ran(r: Regs, s: Script): Regs
    decreases s, 0
  {
    match s
    case Finish => r
    case Write(e, rest) => Ran(Edited(r, e), rest)
    case Trap(cause, pc, handler, rest) => Ran(Handled(r, cause, pc, handler), rest)
  }

  lemma EnteredIsCoherent(r: Regs, cause: Cause, pc: bv64)
    ensures var r1 := Entered(r, cause, pc, PStateBits(r.pstate));
      Coherent(r1) && El(r1.pstate.mode) == 1 && r1.elr == pc && r1.spsr == Sanitized(PStateBits(r.pstate))
  {
  }

  lemma EditStaysInEl1(r: Regs, e: Edit)
    requires Coherent(r) && El(r.pstate.mode) == 1
    ensures Coherent(Edited(r, e)) && El(Edited(r, e).pstate.mode) == 1
  {
  }

  /** A handler keeps running at EL1, whatever it writes and however deeply it is interrupted. */
  lemma {:induction false} HandlerStaysInEl1(r: Regs, s: Script)
    requires Coherent(r) && El(r.pstate.mode) == 1
    ensures Coherent(Ran(r, s)) && El(Ran(r, s).pstate.mode) == 1
    decreases s, 0
  {
    match s
    case Finish =>
    case Write(e, rest) =>
      EditStaysInEl1(r, e);
      HandlerStaysInEl1(Edited(r, e), rest);
    case Trap(cause, pc, handler, rest) =>
      NestedReturn(r, cause, pc, handler);
      HandlerStaysInEl1(Handled(r, cause, pc, handler), rest);
  }

  /** When a return from a handler in state `last` to PSTATE p keeps the single-step state: stepping is on, debug
      exceptions are off in the handler, and on where it returns to, which they always are at EL0. */
  predicate StepSurvives(last: Regs, p: PState) {
    && p.ss && Has(last.mdscr, 1)
    && !(Has(last.mdscr, 0x2000) && !last.pstate.d)
    && (El(p.mode) == 0 || (Has(last.mdscr, 0x2000) && !p.d))
  }

  /** Exceptions nested to any depth: the return is legal, goes to the interrupted instruction, and restores
      PSTATE and the stack selection; only the single-step state may be lost, and exactly when stated. */
  lemma {:induction false} NestedReturn(r: Regs, cause: Cause, pc: bv64, handler: Script)
    requires Coherent(r)
    ensures var last := BeforeReturn(r, cause, pc, handler); var back := Handled(r, cause, pc, handler);
      && !IllegalReturn(last)
      && back.elr == pc
      && back.pstate == r.pstate.(ss := StepSurvives(last, r.pstate))
      && back.spsel == r.spsel
      && Coherent(back)
    decreases handler, 1
  {
    var entered := Entered(r, cause, pc, PStateBits(r.pstate));
    EnteredIsCoherent(r, cause, pc);
    HandlerStaysInEl1(entered, handler);
    PackingRoundTrip(r.pstate);
    var last := BeforeReturn(r, cause, pc, handler);
    ReturnRestores(last, r);
  }

  lemma ReturnRestores(last: Regs, r: Regs)
    requires Coherent(r) && Coherent(last) && El(last.pstate.mode) == 1
    requires last.spsr == PStateBits(r.pstate)
    ensures !IllegalReturn(last)
    ensures var back := Returned(last, false);
      && back.pstate == r.pstate.(ss := StepSurvives(last, r.pstate))
      && back.spsel == r.spsel && Coherent(back) && back.elr == last.elr
  {
    PackingRoundTrip(r.pstate);
    PackedRest(r.pstate);
    assert ModeOf(r.pstate.mode) == r.pstate.mode;
    StepKept(last, r.pstate);
    hide PStateBits, Unpacked, Sanitized, Has, El, ModeOf, LowBit, KeepsStep, StepSurvives;
  }

  lemma StepKept(last: Regs, p: PState)
    requires KnownMode(p.mode) && El(last.pstate.mode) == 1 && last.spsr == PStateBits(p)
    ensures KeepsStep(last, false) == StepSurvives(last, p)
  {
    PackingRoundTrip(p);
    PackedMasks(p);
    PackedRest(p);
    hide PStateBits, Sanitized, Has, ModeOf;
  }

  /** Nothing at all changes unless single-stepping was armed and cannot go on at the destination. */
  lemma PStateChangesIff(r: Regs, cause: Cause, pc: bv64, handler: Script)
    requires Coherent(r)
    ensures Handled(r, cause, pc, handler).pstate != r.pstate <==>
            r.pstate.ss && !StepSurvives(BeforeReturn(r, cause, pc, handler), r.pstate)
  {
    NestedReturn(r, cause, pc, handler);
  }

  // ----- any order of entries, returns and writes -----

  datatype Step = Take(cause: Cause, pc: bv64) | Return | Change(edit: Edit)

  /** A return is only carried out above EL0; stack selection cannot be written from EL0. */
  function Stepped(r: Regs, s: Step): Regs {
    match s
    case Take(cause, pc) => Entered(r, cause, pc, PStateBits(r.pstate))
    case Return => if El(r.pstate.mode) == 0 then r else Returned(r, IllegalReturn(r))
    case Change(e) => if e.SelectStack? && El(r.pstate.mode) == 0 then r else Edited(r, e)
  }

  function SteppedAll(r: Regs, steps: seq<Step>): Regs
    decreases |steps|
  {
    if steps == [] then r else SteppedAll(Stepped(r, steps[0]), steps[1..])
  }

  lemma EditKeepsCoherent(r: Regs, e: Edit)
    requires Coherent(r) && !(e.SelectStack? && El(r.pstate.mode) == 0)
    ensures Coherent(Edited(r, e))
  {
    if e.SelectStack? { EditStaysInEl1(r, e); }
  }

  lemma StepKeepsCoherent(r: Regs, s: Step)
    requires Coherent(r)
    ensures Coherent(Stepped(r, s))
  {
    hide Entered, Returned, Edited, IllegalReturn;
    match s
    case Take(cause, pc) => EnteredIsCoherent(r, cause, pc);
    case Return => if IllegalReturn(r) { IllegalReturnStays(r); } else { LegalReturnIsCoherent(r); }
    case Change(e) => if !(e.SelectStack? && El(r.pstate.mode) == 0) { EditKeepsCoherent(r, e); }
  }

  lemma LegalReturnIsCoherent(r: Regs)
    requires !IllegalReturn(r)
    ensures Coherent(Returned(r, false))
  {
  }

  /** Whatever is written to SPSR, only the three supported modes are ever entered. */
  lemma {:induction false} OnlySupportedModes(r: Regs, steps: seq<Step>)
    requires Coherent(r)
    ensures Coherent(SteppedAll(r, steps))
    decreases |steps|
  {
    if steps != [] {
      StepKeepsCoherent(r, steps[0]);
      OnlySupportedModes(Stepped(r, steps[0]), steps[1..]);
    }
  }

  /** An illegal return changes neither mode nor stack selection, and marks the state as illegal. */
  lemma IllegalReturnStays(r: Regs)
    requires IllegalReturn(r)
    ensures var back := Returned(r, true);
      back.pstate.il && back.pstate.mode == r.pstate.mode && back.spsel == r.spsel && back.elr == r.elr
  {
  }
}
