/** The system registers that exceptions use, updated in place. */
module SystemRegistersDevice {
  import opened ExceptionSpec
  import opened ExceptionTheorems

  class SystemRegisters {
    var pstate: PState
    var spsel: bv64
    var elr: bv64
    var spsr: bv64
    var esr: bv64
    var far: bv64
    var mdscr: bv64
    var sctlr: bv64
    var osLocked: bool

    function State(): Regs
      reads this
    {
      Regs(pstate, spsel, elr, spsr, esr, far, mdscr, sctlr, osLocked)
    }

    constructor ()
      ensures Coherent(State()) && El(pstate.mode) == 1
    {
      pstate := PState(false, false, false, false, false, false, false, false, false, false, false, EL1H);
      spsel := 1;
      elr, spsr, esr, far, mdscr, sctlr, osLocked := 0, 0, 0, 0, 0, 0x30D0_0800, false;
    }

    method SetNzcv(value: bv64)
      modifies this`pstate
      ensures pstate == WithNzcv(old(pstate), value)
    {
      pstate := pstate.(n := Has(value, 0x8000_0000), z := Has(value, 0x4000_0000),
                        c := Has(value, 0x2000_0000), v := Has(value, 0x1000_0000));
    }

    method SetDaif(value: bv64)
      modifies this`pstate
      ensures pstate == WithDaif(old(pstate), value)
    {
      pstate := pstate.(d := Has(value, 0x200), a := Has(value, 0x100), i := Has(value, 0x80), f := Has(value, 0x40));
    }

    method SetPStateBits(value: bv64)
      modifies this`pstate, this`spsel
      ensures State() == ExceptionSpec.SetPStateBits(old(State()), value)
    {
      UnpackedInSteps(pstate, value);
      hide Has, El, ModeOf, LowBit, WithNzcv, WithDaif, Unpacked;
      SetNzcv(value);
      pstate := pstate.(ss := Has(value, SS_BIT), il := Has(value, IL_BIT));
      SetDaif(value);
      pstate := pstate.(pan := Has(value, PAN_BIT), mode := ModeOf(value));
      spsel := if El(pstate.mode) == 1 then LowBit(pstate.mode) else 0;
    }

    lemma UnpackedInSteps(p: PState, v: bv64)
      ensures WithDaif(WithNzcv(p, v).(ss := Has(v, SS_BIT), il := Has(v, IL_BIT)), v)
              .(pan := Has(v, PAN_BIT), mode := ModeOf(v)) == Unpacked(v)
    {
      hide Has, ModeOf;
    }

    method SetSpsel(value: bv64)
      modifies this`pstate, this`spsel
      ensures State() == Edited(old(State()), SelectStack(value))
    {
      hide El;
      spsel := LowBit(value);
      if El(pstate.mode) == 1 { pstate := pstate.(mode := if spsel != 0 then EL1H else EL1T); }
    }

    /** The part of entry that interrupts and synchronous exceptions share. */
    method MaskForHandler()
      modifies this`pstate, this`spsel
      ensures pstate == Masked(old(pstate), sctlr) && spsel == 1
    {
      pstate := pstate.(mode := EL1H);
      spsel := 1;
      pstate := pstate.(ss := false, il := false, d := true, a := true);
      if !Has(sctlr, SCTLR_SPAN) { pstate := pstate.(pan := true); }
      pstate := pstate.(i := true, f := true);
    }

    method ExceptionEnterIrq(returnPc: bv64, savedPstateBits: bv64)
      modifies this
      ensures State() == Entered(old(State()), Irq, returnPc, savedPstateBits)
    {
      hide Sanitized, Has, SyncSyndrome;
      elr := returnPc;
      spsr := Sanitized(savedPstateBits);
      esr := 0;
      MaskForHandler();
    }

    method ExceptionEnterSync(returnPc: bv64, savedPstateBits: bv64, ec: bv64, iss: bv64, farValid: bool, farValue: bv64)
      modifies this
      ensures State() == Entered(old(State()), Sync(ec, iss, farValid, farValue), returnPc, savedPstateBits)
    {
      hide Sanitized, Has, SyncSyndrome;
      elr := returnPc;
      spsr := Sanitized(savedPstateBits);
      esr := SyncSyndrome(ec, iss);
      far := if farValid then farValue else 0;
      MaskForHandler();
    }

    function IllegalExceptionReturn(): (illegal: bool)
      reads this
      ensures illegal == IllegalReturn(State())
    {
      if Has(spsr, AARCH32_BIT) then true
      else
        var mode := ModeOf(spsr);
        !(mode == 0 || mode == 4 || mode == 5)
    }

    method ExceptionReturn(illegal: bool) returns (pc: bv64)
      modifies this`pstate, this`spsel
      ensures State() == Returned(old(State()), illegal) && pc == old(elr)
    {
      hide Has, El, ModeOf, LowBit, DebugEnabledFrom, StepEnabled, WithNzcv, WithDaif, Unpacked, SpselOf;
      var enabledAtSource := DebugEnabledFrom(El(pstate.mode), pstate.d, mdscr);
      var destEl := if illegal then El(pstate.mode) else El(spsr);
      var enabledAtDest := DebugEnabledFrom(destEl, Has(spsr, 0x200), mdscr);
      var restoreStep := StepEnabled(mdscr) && !enabledAtSource && enabledAtDest && Has(spsr, SS_BIT);
      if illegal {
        SetNzcv(spsr);
        SetDaif(spsr);
        pstate := pstate.(pan := Has(spsr, PAN_BIT), ss := restoreStep, il := true);
        return elr;
      }
      SetPStateBits(spsr);
      pstate := pstate.(ss := restoreStep);
      return elr;
    }

    /** A write to one of the parts of PSTATE. */
    method WritePState(e: Edit)
      requires e.SetFlags? || e.SetMasks? || e.SetPan? || e.SelectStack?
      modifies this`pstate, this`spsel
      ensures State() == Edited(old(State()), e)
    {
      hide Has, El, ModeOf, LowBit, WithNzcv, WithDaif;
      match e
      case SetFlags(v) => SetNzcv(v);
      case SetMasks(v) => SetDaif(v);
      case SetPan(v) => pstate := pstate.(pan := v);
      case SelectStack(v) => SetSpsel(v);
    }

    /** A write to one of the registers a return uses. */
    method WriteReturnReg(e: Edit)
      requires e.WriteElr? || e.WriteSpsr?
      modifies this`elr, this`spsr
      ensures State() == Edited(old(State()), e)
    {
      hide Sanitized, Has, El, LowBit, WithNzcv, WithDaif, MergedMdscr, SanitizedSctlr;
      match e
      case WriteElr(v) => elr := v;
      case WriteSpsr(v) => spsr := Sanitized(v);
    }

    /** A write to one of the registers that describe the exception. */
    method WriteFaultReg(e: Edit)
      requires e.WriteEsr? || e.WriteFar?
      modifies this`esr, this`far
      ensures State() == Edited(old(State()), e)
    {
      hide Sanitized, Has, El, LowBit, WithNzcv, WithDaif, MergedMdscr, SanitizedSctlr;
      match e
      case WriteEsr(v) => esr := v;
      case WriteFar(v) => far := v;
    }

    /** A write to one of the control registers. */
    method WriteControlReg(e: Edit)
      requires e.WriteMdscr? || e.WriteOsLock? || e.WriteSctlr?
      modifies this`mdscr, this`osLocked, this`sctlr
      ensures State() == Edited(old(State()), e)
    {
      hide Sanitized, Has, El, LowBit, WithNzcv, WithDaif, MergedMdscr, SanitizedSctlr;
      match e
      case WriteMdscr(v) => mdscr := MergedMdscr(mdscr, v, osLocked);
      case WriteOsLock(v) => osLocked := v;
      case WriteSctlr(v, writable, res1) => sctlr := SanitizedSctlr(v, writable, res1);
    }

    /** A write to one of the registers a handler uses. */
    method Write(e: Edit)
      modifies this
      ensures State() == Edited(old(State()), e)
    {
      hide Edited;
      if e.SetFlags? || e.SetMasks? || e.SetPan? || e.SelectStack? {
        WritePState(e);
      } else if e.WriteElr? || e.WriteSpsr? {
        WriteReturnReg(e);
      } else if e.WriteEsr? || e.WriteFar? {
        WriteFaultReg(e);
      } else {
        WriteControlReg(e);
      }
    }

    method Enter(cause: Cause, pc: bv64)
      modifies this
      ensures State() == Entered(old(State()), cause, pc, PStateBits(old(pstate)))
    {
      match cause
      case Irq => ExceptionEnterIrq(pc, PStateBits(pstate));
      case Sync(ec, iss, farValid, farValue) => ExceptionEnterSync(pc, PStateBits(pstate), ec, iss, farValid, farValue);
    }

    /** A whole handler, further exceptions included: afterwards execution is back where it was interrupted,
        with the PSTATE it had except possibly for single-stepping. */
    method Handle(cause: Cause, pc: bv64, handler: Script) returns (resumed: bv64)
      requires Coherent(State())
      modifies this
      ensures State() == Handled(old(State()), cause, pc, handler)
      ensures Coherent(State()) && resumed == pc
      ensures pstate == old(pstate).(ss := pstate.ss) && spsel == old(spsel)
      decreases handler, 1
    {
      ghost var r := State();
      NestedReturn(r, cause, pc, handler);
      EnteredIsCoherent(r, cause, pc);
      hide Entered, Returned, IllegalReturn, Coherent, El, Sanitized, PStateBits, Ran, StepSurvives;
      Enter(cause, pc);
      var savedElr, savedSpsr := elr, spsr;
      RunScript(handler);
      RestoreSaved(savedElr, savedSpsr);
      assert State() == BeforeReturn(r, cause, pc, handler);
      hide BeforeReturn;
      resumed := ExceptionReturn(IllegalExceptionReturn());
      assert State() == Handled(r, cause, pc, handler);
    }

    /** The handler's own writes before it returns. */
    method RestoreSaved(savedElr: bv64, savedSpsr: bv64)
      modifies this`elr, this`spsr
      ensures State() == old(State()).(elr := savedElr, spsr := Sanitized(savedSpsr))
    {
      elr := savedElr;
      spsr := Sanitized(savedSpsr);
    }

    method RunScript(s: Script)
      requires Coherent(State()) && El(pstate.mode) == 1
      modifies this
      ensures State() == Ran(old(State()), s)
      decreases s, 0
    {
      HandlerStaysInEl1(State(), s);
      hide Edited, Handled;
      match s
      case Finish =>
      case Write(e, rest) =>
        EditStaysInEl1(State(), e);
        this.Write(e);
        RunScript(rest);
      case Trap(cause, pc, handler, rest) =>
        ghost var r := State();
        NestedReturn(r, cause, pc, handler);
        var _ := Handle(cause, pc, handler);
        RunScript(rest);
    }
  }
}
