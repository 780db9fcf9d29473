/** Lowering any modelled instruction is correct. */
module LiftSim {
  import opened Words
  import opened Guest
  import X86
  import opened Arm
  import opened Lifter
  import opened Effects
  import opened Steps
  import opened Operands
  import opened Relation
  import SimArith
  import SimUnary
  import SimCarry
  import ShiftSim
  import SimRotCarry
  import SimBitTest
  import SimMove

  lemma RetSim(pol: Pol, out: Live, x: X86.State, a: State)
    requires Related(x, a, pol, Before(X86.Ret, out))
    ensures Simulated(X86.Ret, x, a, Lowered(LiftRet(), pol), out)
  {
    hide Exec, Step, Trunc, Load;
    var ldr, add := LDR(S64, T(X16), G(RSP)), ADDSUB(false, false, S64, G(RSP), G(RSP), Lit(8));
    LoadTop(a);
    var b := Step(ldr, a);
    LitOk(b, 8, S64);
    StepAddSub(b, false, S64, G(RSP), G(RSP), Lit(8));
    Exec2(ldr, add, a);
  }

  lemma LoadTop(a: State)
    ensures var b := Step(LDR(S64, T(X16), G(RSP)), a); b == a.(x := b.x)
  {
    hide Load;
  }

  /** The code of one instruction, run from a state related to x, ends in a state related to what
      the instruction does to x: registers and memory equal, every flag that is live afterwards
      right, and C holding CF in the sense the lifter tracks. */
  lemma LiftOk(i: X86.Instr, notes: Notes, pol: Pol, out: Live, x: X86.State, a: State)
    requires X86.Legal(i) && NotesOk(notes, out) && Related(x, a, pol, Before(i, out))
    ensures Simulated(i, x, a, Lift(i, notes, pol), out)
  {
    hide Exec, X86.Eval, Before, Related, Simulated, NotesOk, LiftArith, LiftIncDec, LiftNeg, LiftNot, LiftAdcSbb,
         LiftShift, LiftRotCarry, LiftBt, LiftFlagsOp, LiftSetcc, LiftCmovcc, LiftMov, LiftLea, LiftRet;
    match i
    case Arith(op, s, d, o) => SimArith.ArithSim(op, s, d, o, notes, pol, out, x, a);
    case IncDec(inc, s, d) => SimUnary.IncDecSim(inc, s, d, notes, pol, out, x, a);
    case Neg(s, d) => SimUnary.NegSim(s, d, notes, pol, out, x, a);
    case Not(s, d) => SimUnary.NotSim(s, d, pol, out, x, a);
    case AdcSbb(sbb, s, d, o) => SimCarry.AdcSbbSim(sbb, s, d, o, notes, pol, out, x, a);
    case Shift(op, s, d, c) => ShiftSim.ShiftSim(op, s, d, c, notes, pol, out, x, a);
    case RotCarry(left, s, d, c) => SimRotCarry.RotCarrySim(left, s, d, c, notes, pol, out, x, a);
    case BitTest(op, s, d, o) => SimBitTest.BitTestSim(op, s, d, o, notes, pol, out, x, a);
    case FlagsOp(op) => SimMove.FlagsOpSim(op, pol, out, x, a);
    case Setcc(cc, d) => SimMove.SetccSim(cc, d, pol, out, x, a);
    case Cmovcc(cc, s, g, o) => SimMove.CmovccSim(cc, s, g, o, pol, out, x, a);
    case Mov(s, d, o) => SimMove.MovSim(s, d, o, pol, out, x, a);
    case Lea(s, g, m) => SimMove.LeaSim(s, g, m, pol, out, x, a);
    case Jcc(cc, t) => JumpSim(i, pol, out, x, a);
    case Jmp(t) => JumpSim(i, pol, out, x, a);
    case Ret => RetSim(pol, out, x, a);
  }

  /** A jump's own code does nothing; the transfer is the emitter's. */
  lemma JumpSim(i: X86.Instr, pol: Pol, out: Live, x: X86.State, a: State)
    requires (i.Jcc? || i.Jmp?) && Related(x, a, pol, Before(i, out))
    ensures Simulated(i, x, a, Lowered([], pol), out)
  {
    hide Exec;
    ExecNil(a);
  }
}
