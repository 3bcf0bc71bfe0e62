/** The state in which a handler starts, the syndrome it reads, and what each return and write leaves in PSTATE. */
module ExceptionEntry {
  import opened ExceptionSpec
  import ExceptionTheorems

  predicate SameFlags(p: PState, q: PState) {
    q.n == p.n && q.z == p.z && q.c == p.c && q.v == p.v
  }

  /** A handler starts at EL1 on its own stack with every interrupt masked, no single step and no illegal state;
      privileged access to user memory is off if it was, or if SCTLR asks for it. The condition flags are those of
      the interrupted code, and debug control, system control and the OS lock are as they were. */
  lemma HandlerStartsMasked(r: Regs, cause: Cause, pc: bv64, saved: bv64)
    ensures var h := Entered(r, cause, pc, saved);
      && h.pstate.d && h.pstate.a && h.pstate.i && h.pstate.f
      && !h.pstate.ss && !h.pstate.il
      && (h.pstate.pan <==> r.pstate.pan || r.sctlr & 0x80_0000 == 0)
      && h.pstate.mode == EL1H && h.spsel == 1
      && SameFlags(r.pstate, h.pstate)
      && h.elr == pc && h.mdscr == r.mdscr && h.sctlr == r.sctlr && h.osLocked == r.osLocked
  {
  }

  /** An interrupt clears the syndrome and leaves the fault address; a synchronous exception reports its class in bits 31
      to 26, a 32-bit instruction in bit 25 and its details below, with nothing above, and a fault address or zero. */
  lemma SyndromeShows(r: Regs, pc: bv64, saved: bv64, ec: bv64, iss: bv64, farValid: bool, far: bv64)
    ensures var h := Entered(r, Irq, pc, saved); h.esr == 0 && h.far == r.far
    ensures var h := Entered(r, Sync(ec, iss, farValid, far), pc, saved);
      && h.esr >> 26 == ec & 0x3F
      && h.esr & 0x200_0000 != 0
      && h.esr & 0x1FF_FFFF == iss & 0x1FF_FFFF
      && (farValid ==> h.far == far) && (!farValid ==> h.far == 0)
  {
    SyndromeFields(ec, iss);
    hide SyncSyndrome, Sanitized, Masked;
  }

  lemma SyndromeFields(ec: bv64, iss: bv64)
    ensures var esr := SyncSyndrome(ec, iss);
      esr >> 26 == ec & 0x3F && esr & 0x200_0000 != 0 && esr & 0x1FF_FFFF == iss & 0x1FF_FFFF
  {
  }

  /** What is saved is what was interrupted. */
  lemma SavedIsInterrupted(r: Regs, cause: Cause, pc: bv64)
    requires KnownMode(r.pstate.mode)
    ensures Unpacked(Entered(r, cause, pc, PStateBits(r.pstate)).spsr) == r.pstate
  {
    hide Unpacked, PStateBits, Sanitized;
    ExceptionTheorems.PackingRoundTrip(r.pstate);
  }

  /** A return takes flags, masks and PAN from SPSR whether it is legal or not; a legal one takes the mode and the
      illegal state as well. No other register changes. */
  lemma ReturnTakes(r: Regs, illegal: bool)
    ensures var back := Returned(r, illegal);
      && Nzcv(back.pstate) == r.spsr & NZCV_MASK && Daif(back.pstate) == r.spsr & DAIF_MASK
      && (back.pstate.pan <==> r.spsr & PAN_BIT != 0)
      && (illegal ==> back.pstate.il && back.pstate.mode == r.pstate.mode)
      && (!illegal ==> (back.pstate.il <==> r.spsr & IL_BIT != 0) && back.pstate.mode == r.spsr & 0xF)
      && back == r.(pstate := back.pstate, spsel := back.spsel)
  {
    hide Nzcv, Daif, KeepsStep, El, SpselOf;
    ExceptionTheorems.FlagsUnpacked(r.spsr);
    FlagsTaken(r.pstate, Returned(r, illegal).pstate, r.spsr);
  }

  lemma FlagsTaken(p: PState, q: PState, v: bv64)
    ensures SameFlags(Unpacked(v), q) ==> Nzcv(q) == v & NZCV_MASK
    ensures q.d == Has(v, 0x200) && q.a == Has(v, 0x100) && q.i == Has(v, 0x80) && q.f == Has(v, 0x40) ==>
              Daif(q) == v & DAIF_MASK
  {
    ExceptionTheorems.FlagsUnpacked(v);
    hide Has;
  }

  /** A write to the flags is read back from exactly those, and leaves the rest. */
  lemma FlagsWritten(r: Regs, v: bv64)
    ensures var p := Edited(r, SetFlags(v)).pstate;
      && Nzcv(p) == v & NZCV_MASK
      && p == r.pstate.(n := p.n, z := p.z, c := p.c, v := p.v)
  {
    hide Has, Nzcv, Daif;
    FlagsTaken(r.pstate, Edited(r, SetFlags(v)).pstate, v);
  }

  /** And so is a write to the masks. */
  lemma MasksWritten(r: Regs, v: bv64)
    ensures var p := Edited(r, SetMasks(v)).pstate;
      && Daif(p) == v & DAIF_MASK
      && p == r.pstate.(d := p.d, a := p.a, i := p.i, f := p.f)
  {
    hide Has, Nzcv, Daif;
    FlagsTaken(r.pstate, Edited(r, SetMasks(v)).pstate, v);
  }

  /** A write to any other register is read back from it and leaves the rest. */
  lemma RegistersWritten(r: Regs, v: bv64, on: bool)
    ensures Edited(r, WriteElr(v)) == r.(elr := v) && Edited(r, WriteEsr(v)) == r.(esr := v)
    ensures Edited(r, WriteFar(v)) == r.(far := v) && Edited(r, WriteOsLock(on)) == r.(osLocked := on)
    ensures Edited(r, SetPan(on)) == r.(pstate := r.pstate.(pan := on))
  {
    hide El, WithNzcv, WithDaif, Sanitized, MergedMdscr, SanitizedSctlr, LowBit;
  }

  /** Selecting a stack at EL1 moves between the two modes of EL1; at EL0 only the selector is written. */
  lemma StackSelected(r: Regs, v: bv64)
    ensures var s := Edited(r, SelectStack(v));
      && s.spsel == LowBit(v)
      && s == r.(spsel := s.spsel, pstate := r.pstate.(mode := s.pstate.mode))
      && s.pstate.mode == (if El(r.pstate.mode) != 1 then r.pstate.mode else if LowBit(v) == 1 then EL1H else EL1T)
  {
    LowBitIsBit(v);
    hide El, LowBit;
  }

  lemma LowBitIsBit(v: bv64)
    ensures LowBit(v) == 0 || LowBit(v) == 1
  {
  }

  /** SPSR keeps its supported bits; MDSCR those a write may reach with the OS lock as it is. */
  lemma MaskedRegistersWritten(r: Regs, v: bv64)
    ensures var s := Edited(r, WriteSpsr(v));
      s == r.(spsr := s.spsr) && s.spsr & SPSR_MASK == v & SPSR_MASK && s.spsr & !SPSR_MASK == 0
    ensures var s := Edited(r, WriteMdscr(v)); s == r.(mdscr := MergedMdscr(r.mdscr, v, r.osLocked))
  {
    hide MergedMdscr, Sanitized;
    SpsrKept(v);
  }

  lemma SpsrKept(v: bv64)
    ensures Sanitized(v) & SPSR_MASK == v & SPSR_MASK && Sanitized(v) & !SPSR_MASK == 0
  {
  }
}
