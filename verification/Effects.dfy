/** Which flags each instruction reads and defines, as the two liveness passes classify it
    (carry_liveness.go and definesAllFlags in cfg.go). */
module Effects {
  import opened Words
  import X86

  /** CF and OF. */
  datatype FlagSet = FlagSet(cf: bool, of: bool)

  const NONE := FlagSet(false, false)
  const BOTH := FlagSet(true, true)

  datatype Effect = Effect(uses: FlagSet, defines: FlagSet)

  /** shiftImmCount: the masked immediate count is not zero. */
  predicate NonzeroImm(c: X86.Count, s: Size) {
    c.ByImm? && c.n % (if s == S64 then 64 else 32) != 0
  }

  function ConditionReads(cc: X86.Cc): FlagSet {
    match cc
    case B => FlagSet(true, false)
    case AE => FlagSet(true, false)
    case BE => FlagSet(true, false)
    case A => FlagSet(true, false)
    case E => NONE
    case NE => NONE
    case S => NONE
    case NS => NONE
    case _ => FlagSet(false, true)
  }

  /** carryOverflowEffect: the flags read before any write, and the flags defined (written or left
      undefined). */
  function CarryOverflow(i: X86.Instr): Effect {
    match i
    case Jcc(cc, _) => Effect(ConditionReads(cc), NONE)
    case Setcc(cc, _) => Effect(ConditionReads(cc), NONE)
    case Cmovcc(cc, _, _, _) => Effect(ConditionReads(cc), NONE)
    case AdcSbb(_, _, _, _) => Effect(FlagSet(true, false), BOTH)
    case FlagsOp(op) => Effect(FlagSet(op == X86.Cmc, false), FlagSet(true, false))
    case IncDec(_, _, _) => Effect(NONE, FlagSet(false, true))
    case Arith(_, _, _, _) => Effect(NONE, BOTH)
    case Neg(_, _) => Effect(NONE, BOTH)
    case BitTest(_, _, _, _) => Effect(NONE, BOTH)
    case Shift(_, s, _, c) => Effect(NONE, if NonzeroImm(c, s) then BOTH else NONE)
    case RotCarry(_, s, _, c) => Effect(FlagSet(true, false), if NonzeroImm(c, s) then BOTH else NONE)
    case _ => Effect(NONE, NONE)
  }

  /** readsAnyFlag */
  predicate ReadsAny(i: X86.Instr) {
    i.Jcc? || i.Setcc? || i.Cmovcc? || i.AdcSbb? || i.RotCarry? || i == X86.FlagsOp(X86.Cmc)
  }

  /** definesAllFlags */
  predicate DefinesAll(i: X86.Instr) {
    || i.Arith?
    || i.Neg?
    || (i.Shift? && !X86.Rotating(i.shift) && NonzeroImm(i.count, i.s))
  }

  /** What must be right in the ARM flags at a point: N and Z together, C and V. */
  datatype Live = Live(nz: bool, cf: bool, of: bool)

  /** The flags that must be right before i for those in out to be right after it. */
  function Before(i: X86.Instr, out: Live): Live {
    var e := CarryOverflow(i);
    Live(ReadsAny(i) || (out.nz && !DefinesAll(i)),
         e.uses.cf || (out.cf && !e.defines.cf),
         e.uses.of || (out.of && !e.defines.of))
  }
}
