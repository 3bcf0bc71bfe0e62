/** Exception entry and return over PSTATE, with the saved state packed into SPSR_EL1. */
module ExceptionSpec {
  const NZCV_MASK: bv64 := 0xF000_0000
  const PAN_BIT: bv64 := 0x40_0000
  const SS_BIT: bv64 := 0x20_0000
  const IL_BIT: bv64 := 0x10_0000
  const DAIF_MASK: bv64 := 0x3C0
  const MODE_MASK: bv64 := 0xF
  const AARCH32_BIT: bv64 := 0x10
  const SPSR_MASK: bv64 := NZCV_MASK | PAN_BIT | SS_BIT | IL_BIT | DAIF_MASK | 0x1F

  const SCTLR_SPAN: bv64 := 0x80_0000

  const MDSCR_SS: bv64 := 1
  const MDSCR_TDCC: bv64 := 0x1000
  const MDSCR_KDE: bv64 := 0x2000
  const MDSCR_MDE: bv64 := 0x8000
  const MDSCR_DIRECT: bv64 := MDSCR_MDE | MDSCR_KDE | MDSCR_TDCC | MDSCR_SS
  const MDSCR_LOCKED: bv64 := 0x6CE0_4040
  const MDSCR_MASK: bv64 := MDSCR_DIRECT | MDSCR_LOCKED

  const EL0T: bv64 := 0
  const EL1T: bv64 := 4
  const EL1H: bv64 := 5

  datatype PState = PState(
    n: bool, z: bool, c: bool, v: bool,
    ss: bool, il: bool,
    d: bool, a: bool, i: bool, f: bool,
    pan: bool, mode: bv64)

  datatype Regs = Regs(
    pstate: PState, spsel: bv64, elr: bv64, spsr: bv64, esr: bv64, far: bv64,
    mdscr: bv64, sctlr: bv64, osLocked: bool)

  // ----- packing -----

  function Flag(on: bool, bit: bv64): bv64 { if on then bit else 0 }

  predicate Has(value: bv64, bit: bv64) { value & bit != 0 }

  function Nzcv(p: PState): bv64 {
    Flag(p.n, 0x8000_0000) | Flag(p.z, 0x4000_0000) | Flag(p.c, 0x2000_0000) | Flag(p.v, 0x1000_0000)
  }

  function Daif(p: PState): bv64 {
    Flag(p.d, 0x200) | Flag(p.a, 0x100) | Flag(p.i, 0x80) | Flag(p.f, 0x40)
  }

  function PStateBits(p: PState): bv64 {
    Nzcv(p) | Flag(p.ss, SS_BIT) | Flag(p.il, IL_BIT) | Daif(p) | Flag(p.pan, PAN_BIT) | ModeOf(p.mode)
  }

  function WithNzcv(p: PState, v: bv64): PState {
    p.(n := Has(v, 0x8000_0000), z := Has(v, 0x4000_0000), c := Has(v, 0x2000_0000), v := Has(v, 0x1000_0000))
  }

  function WithDaif(p: PState, v: bv64): PState {
    p.(d := Has(v, 0x200), a := Has(v, 0x100), i := Has(v, 0x80), f := Has(v, 0x40))
  }

  function Unpacked(v: bv64): PState {
    PState(Has(v, 0x8000_0000), Has(v, 0x4000_0000), Has(v, 0x2000_0000), Has(v, 0x1000_0000),
           Has(v, SS_BIT), Has(v, IL_BIT),
           Has(v, 0x200), Has(v, 0x100), Has(v, 0x80), Has(v, 0x40),
           Has(v, PAN_BIT), ModeOf(v))
  }

  function Sanitized(v: bv64): bv64 { v & SPSR_MASK }

  function El(mode: bv64): bv64 { (mode >> 2) & 3 }

  function ModeOf(v: bv64): bv64 { v & MODE_MASK }

  function LowBit(v: bv64): bv64 { v & 1 }

  predicate KnownMode(mode: bv64) { mode == EL0T || mode == EL1T || mode == EL1H }

  /** The stack selector follows the mode. */
  function SpselOf(mode: bv64): bv64 { if El(mode) == 1 then LowBit(mode) else 0 }

  function SetPStateBits(r: Regs, v: bv64): Regs {
    var p := Unpacked(v);
    r.(pstate := p, spsel := SpselOf(p.mode))
  }

  // ----- debug -----

  predicate StepEnabled(mdscr: bv64) { Has(mdscr, MDSCR_SS) }

  predicate DebugEnabledFrom(el: bv64, dMasked: bool, mdscr: bv64) {
    if el == 0 then true else if el == 1 then Has(mdscr, MDSCR_KDE) && !dMasked else false
  }

  function MergedMdscr(current: bv64, value: bv64, osLocked: bool): bv64 {
    var writable := MDSCR_DIRECT | (if osLocked then MDSCR_LOCKED else 0);
    ((current & !writable) | (value & writable)) & MDSCR_MASK
  }

  /** SCTLR_EL1 takes the writable bits and reads the reserved ones as set; the ID registers decide which are which. */
  function SanitizedSctlr(value: bv64, writable: bv64, res1: bv64): bv64 { (value | res1) & (writable | res1) }

  // ----- entry and return -----

  datatype Cause = Irq | Sync(ec: bv64, iss: bv64, farValid: bool, far: bv64)

  function Masked(p: PState, sctlr: bv64): PState {
    p.(mode := EL1H, ss := false, il := false, d := true, a := true, i := true, f := true,
       pan := p.pan || !Has(sctlr, SCTLR_SPAN))
  }

  /** The syndrome always reports a 32-bit instruction. */
  function SyncSyndrome(ec: bv64, iss: bv64): bv64 { ((ec & 0x3F) << 26) | 0x200_0000 | (iss & 0x1FF_FFFF) }

  function Syndrome(cause: Cause): bv64 {
    match cause
    case Irq => 0
    case Sync(ec, iss, _, _) => SyncSyndrome(ec, iss)
  }

  function Entered(r: Regs, cause: Cause, returnPc: bv64, saved: bv64): Regs {
    r.(elr := returnPc, spsr := Sanitized(saved), esr := Syndrome(cause),
       far := match cause case Irq => r.far case Sync(_, _, valid, far) => if valid then far else 0,
       pstate := Masked(r.pstate, r.sctlr), spsel := 1)
  }

  predicate IllegalReturn(r: Regs) {
    Has(r.spsr, AARCH32_BIT) || !KnownMode(ModeOf(r.spsr))
  }

  /** Whether a return keeps the single-step state it finds in SPSR. */
  predicate KeepsStep(r: Regs, illegal: bool) {
    var destEl := if illegal then El(r.pstate.mode) else El(r.spsr);
    && StepEnabled(r.mdscr)
    && !DebugEnabledFrom(El(r.pstate.mode), r.pstate.d, r.mdscr)
    && DebugEnabledFrom(destEl, Has(r.spsr, 0x200), r.mdscr)
    && Has(r.spsr, SS_BIT)
  }

  /** The state after a return; execution goes on at ELR. */
  function Returned(r: Regs, illegal: bool): Regs {
    if illegal then
      var p := WithDaif(WithNzcv(r.pstate, r.spsr), r.spsr);
      r.(pstate := p.(pan := Has(r.spsr, PAN_BIT), ss := KeepsStep(r, illegal), il := true))
    else
      var r1 := SetPStateBits(r, r.spsr);
      r1.(pstate := r1.pstate.(ss := KeepsStep(r, illegal)))
  }

  // ----- what a handler may write -----

  datatype Edit =
    | SetFlags(value: bv64)
    | SetMasks(value: bv64)
    | SetPan(pan: bool)
    | SelectStack(value: bv64)
    | WriteElr(value: bv64)
    | WriteSpsr(value: bv64)
    | WriteEsr(value: bv64)
    | WriteFar(value: bv64)
    | WriteMdscr(value: bv64)
    | WriteOsLock(locked: bool)
    | WriteSctlr(value: bv64, writable: bv64, res1: bv64)

  function Edited(r: Regs, e: Edit): Regs {
    match e
    case SetFlags(v) => r.(pstate := WithNzcv(r.pstate, v))
    case SetMasks(v) => r.(pstate := WithDaif(r.pstate, v))
    case SetPan(v) => r.(pstate := r.pstate.(pan := v))
    case SelectStack(v) =>
      var sel := LowBit(v);
      r.(spsel := sel,
         pstate := if El(r.pstate.mode) == 1 then r.pstate.(mode := if sel != 0 then EL1H else EL1T) else r.pstate)
    case WriteElr(v) => r.(elr := v)
    case WriteSpsr(v) => r.(spsr := Sanitized(v))
    case WriteEsr(v) => r.(esr := v)
    case WriteFar(v) => r.(far := v)
    case WriteMdscr(v) => r.(mdscr := MergedMdscr(r.mdscr, v, r.osLocked))
    case WriteOsLock(v) => r.(osLocked := v)
    case WriteSctlr(v, writable, res1) => r.(sctlr := SanitizedSctlr(v, writable, res1))
  }
}
