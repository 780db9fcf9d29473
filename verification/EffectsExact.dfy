/** The effect tables are exact: a flag is live before an instruction precisely when it can make a
    difference, but for the few instructions whose reading of CF never shows; and an instruction
    redefines all flags precisely when the flags after it do not depend on those before. */
module EffectsExact {
  import opened Words
  import opened Guest
  import opened X86
  import opened Steps
  import opened Bytes
  import opened Effects
  import opened ShiftMath
  import opened RotCarryMath
  import Pipeline
  import Program
  import Liveness
  import JumpTable

  // ---- making a difference ------------------------------------------------------------------------------

  /** The state with CF, or else OF, the other way round. */
  function Flipped(x: State, carry: bool): State {
    if carry then x.(f := x.f.(cf := !x.f.cf)) else x.(f := x.f.(of := !x.f.of))
  }

  /** Registers, memory, the branch outcome and the flags in out are the same after i from x and from y. */
  predicate SameAfter(i: Instr, x: State, y: State, u: X86.Flags, out: Live) {
    var a, b := Eval(i, x, u), Eval(i, y, u);
    && a.regs == b.regs && a.mem == b.mem && (i.Jcc? ==> Holds(i.cc, x.f) == Holds(i.cc, y.f))
    && (out.nz ==> a.f.sf == b.f.sf && a.f.zf == b.f.zf) && (out.cf ==> a.f.cf == b.f.cf)
    && (out.of ==> a.f.of == b.f.of)
  }

  ghost predicate Matters(i: Instr, out: Live, carry: bool) {
    exists x: State, u: X86.Flags :: !SameAfter(i, x, Flipped(x, carry), u, out)
  }

  predicate LiveIn(l: Live, carry: bool) { if carry then l.cf else l.of }

  /** A flag that is read without effect: CMC with CF dead after it, a rotate through CF by a multiple of its
      length, and a conditional move of a register to itself. */
  predicate Idle(i: Instr, out: Live, carry: bool) {
    !LiveIn(out, carry) &&
    match i
    case FlagsOp(op) => op == Cmc
    case RotCarry(_, s, _, ByImm(n)) => ModLong(n % (if s == S64 then 64 else 32), s) == 0
    case Cmovcc(_, _, g, Reg(h)) => g == h
    case _ => false
  }

  /** Two states that differ in one flag. */
  lemma Shown(i: Instr, x: State, u: X86.Flags, out: Live, carry: bool)
    requires !SameAfter(i, x, Flipped(x, carry), u, out)
    ensures Matters(i, out, carry)
  {
  }

  // ---- what is not live makes none ----------------------------------------------------------------------

  lemma DeadSame(i: Instr, x: State, u: X86.Flags, out: Live, carry: bool)
    requires !LiveIn(Before(i, out), carry)
    ensures SameAfter(i, x, Flipped(x, carry), u, out)
  {
    hide SameAfter, Before;
    if i.Shift? {
      DeadShift(i, x, u, out, carry);
    } else if i.RotCarry? {
      DeadTurn(i, x, u, out, carry);
    } else if i.BitTest? {
      DeadBitTest(i, x, u, out, carry);
    } else if i.Arith? || i.IncDec? || i.Neg? || i.AdcSbb? {
      DeadArith(i, x, u, out, carry);
    } else {
      DeadOther(i, x, u, out, carry);
    }
  }

  lemma DeadArith(i: Instr, x: State, u: X86.Flags, out: Live, carry: bool)
    requires (i.Arith? || i.IncDec? || i.Neg? || i.AdcSbb?) && !LiveIn(Before(i, out), carry)
    ensures SameAfter(i, x, Flipped(x, carry), u, out)
  {
    hide Trunc, ArithFlags, ArithResult, AddFlags, SubFlags, Val, Put, Holds;
    Blind(x, carry);
  }

  /** Operands and writes do not depend on the flags. */
  lemma Blind(x: State, carry: bool)
    ensures forall o: Operand, s: Size :: Val(Flipped(x, carry), o, s) == Val(x, o, s)
    ensures forall d: Operand, v: Word, s: Size :: Put(Flipped(x, carry), d, v, s) == Flipped(Put(x, d, v, s), carry)
    ensures forall d: Operand, v: Word, s: Size :: Put(x, d, v, s).f == x.f
  {
    hide Trunc, EffAddr, Load, Store, Merge, MergeHigh;
  }

  lemma DeadShift(i: Instr, x: State, u: X86.Flags, out: Live, carry: bool)
    requires i.Shift? && !LiveIn(Before(i, out), carry)
    ensures SameAfter(i, x, Flipped(x, carry), u, out)
  {
    hide Trunc, Msb, ShiftBy, ShiftOverflow, Masked, Val, Put;
    var v, n := Val(x, i.dst, i.s), Masked(x, i.count, i.s);
    Blind(x, carry);
    Pipeline.ShiftIgnoresCarry(i.shift, v, x.f.cf, Flipped(x, carry).f.cf, n, i.s);
    MaskedAgain(i, x, carry);
  }

  lemma DeadTurn(i: Instr, x: State, u: X86.Flags, out: Live, carry: bool)
    requires i.RotCarry? && !LiveIn(Before(i, out), carry)
    ensures SameAfter(i, x, Flipped(x, carry), u, out)
  {
    hide Trunc, Msb, RotCarryBy, Masked, Val, Put;
    Blind(x, carry);
    MaskedAgain(i, x, carry);
  }

  lemma DeadBitTest(i: Instr, x: State, u: X86.Flags, out: Live, carry: bool)
    requires i.BitTest? && !LiveIn(Before(i, out), carry)
    ensures SameAfter(i, x, Flipped(x, carry), u, out)
  {
    hide Trunc, WithBit, Bit, ModBits, DivBits, Val, Put, BitTarget, BitOffset;
    Blind(x, carry);
    BitBlind(i, x, carry);
  }

  lemma BitBlind(i: Instr, x: State, carry: bool)
    requires i.BitTest?
    ensures BitOffset(Flipped(x, carry), i.off, i.s) == BitOffset(x, i.off, i.s)
    ensures forall off :: BitTarget(Flipped(x, carry), i.dst, off, i.s) == BitTarget(x, i.dst, off, i.s)
  {
    hide Trunc, EffAddr, SInt, ModBits, DivBits;
  }

  lemma DeadOther(i: Instr, x: State, u: X86.Flags, out: Live, carry: bool)
    requires !i.Shift? && !i.RotCarry? && !i.BitTest? && !i.Arith? && !i.IncDec? && !i.Neg? && !i.AdcSbb?
    requires !LiveIn(Before(i, out), carry)
    ensures SameAfter(i, x, Flipped(x, carry), u, out)
  {
    hide Trunc, Msb, EffAddr, ArithFlags, ArithResult, AddFlags, SubFlags, Val, Put, Holds;
    Blind(x, carry);
    ConditionSame(i, x, carry);
  }

  lemma ConditionSame(i: Instr, x: State, carry: bool)
    requires i.Jcc? || i.Setcc? || i.Cmovcc? ==> !(if carry then ConditionReads(i.cc).cf else ConditionReads(i.cc).of)
    ensures i.Jcc? || i.Setcc? || i.Cmovcc? ==> Holds(i.cc, x.f) == Holds(i.cc, Flipped(x, carry).f)
  {
  }

  lemma MaskedAgain(i: Instr, x: State, carry: bool)
    requires i.Shift? || i.RotCarry?
    ensures Masked(Flipped(x, carry), i.count, i.s) == Masked(x, i.count, i.s)
    ensures NonzeroImm(i.count, i.s) ==> Masked(x, i.count, i.s) != 0
  {
  }

  lemma IdleSame(i: Instr, x: State, u: X86.Flags, out: Live, carry: bool)
    requires Idle(i, out, carry)
    ensures SameAfter(i, x, Flipped(x, carry), u, out)
  {
    hide Trunc, Msb, RotCarryBy, EffAddr, Load, Store, Merge, MergeHigh;
    if i.RotCarry? {
      var n, v := Masked(x, i.count, i.s), Val(x, i.dst, i.s);
      OperandBound(x, i.dst, i.s);
      WholeTurn(i.left, v, x.f.cf, n, i.s);
      WholeTurn(i.left, v, Flipped(x, carry).f.cf, n, i.s);
    }
  }

  lemma OperandBound(x: State, d: Operand, s: Size)
    ensures Val(x, d, s) < Cap(s)
  {
    CapAtLeast(s);
  }

  lemma CapAtLeast(s: Size)
    ensures Cap(s) >= 0x100
  {
  }

  /** A rotate by a multiple of its length. */
  lemma WholeTurn(left: bool, v: Word, cf: bool, n: nat, s: Size)
    requires v < Cap(s) && ModLong(n, s) == 0
    ensures RotCarryBy(left, VC(v, cf), n, s) == VC(v, cf)
  {
    RotCarryPeriodic(left, VC(v, cf), n, s);
  }

  // ---- what is live does ----------------------------------------------------------------------------------

  const NoFlags := X86.Flags.Flags(false, false, false, false)

  /** Registers and memory all 0, one register set. */
  function Start(g: Gpr, v: Word): State {
    State(seq(16, _ => 0)[g := v], seq(0x1_0000_0000_0000_0000, _ => 0), NoFlags)
  }

  /** Different values leave different states. */
  lemma PutDiffers(x: State, d: Operand, v: Word, w: Word, s: Size)
    requires LegalDst(d, s) && v < Cap(s) && w < Cap(s) && v != w
    ensures Put(x, d, v, s).regs != Put(x, d, w, s).regs || Put(x, d, v, s).mem != Put(x, d, w, s).mem
  {
    match d
    case Mem(m) =>
      hide Load, Store, EffAddr;
      LoadStored(x.mem, EffAddr(m, x.regs), v, s);
      LoadStored(x.mem, EffAddr(m, x.regs), w, s);
      TruncSmall(v, s);
      TruncSmall(w, s);
    case Reg(g) =>
      assert Put(x, d, v, s).regs[g] == Merge(x.regs[g], v, s);
      assert Put(x, d, w, s).regs[g] == Merge(x.regs[g], w, s);
      MergeDiffers(x.regs[g], v, w, s);
    case High(g) =>
      assert Put(x, d, v, s).regs[g] == MergeHigh(x.regs[g], v);
      assert Put(x, d, w, s).regs[g] == MergeHigh(x.regs[g], w);
    case Imm(_) =>
  }

  lemma MergeDiffers(was: Word, v: Word, w: Word, s: Size)
    requires v < Cap(s) && w < Cap(s) && v != w
    ensures Merge(was, v, s) != Merge(was, w, s)
  {
  }

  lemma ConditionMatters(cc: Cc, x: State, carry: bool)
    requires x.f == NoFlags && (if carry then ConditionReads(cc).cf else ConditionReads(cc).of)
    ensures Holds(cc, x.f) != Holds(cc, Flipped(x, carry).f)
  {
  }

  lemma SetccMatters(i: Instr, out: Live, carry: bool)
    requires Legal(i) && i.Setcc? && (if carry then ConditionReads(i.cc).cf else ConditionReads(i.cc).of)
    ensures Matters(i, out, carry)
  {
    hide Holds, Put;
    var x := Start(0, 0);
    ConditionMatters(i.cc, x, carry);
    PutDiffers(x, i.dst, 0, 1, S8);
    PutFlags(x, i.dst, 0, S8, Flipped(x, carry).f);
    PutFlags(x, i.dst, 1, S8, Flipped(x, carry).f);
    Shown(i, x, NoFlags, out, carry);
  }

  /** A write does not depend on the flags. */
  lemma PutFlags(x: State, d: Operand, v: Word, s: Size, f: X86.Flags)
    ensures Put(x.(f := f), d, v, s).regs == Put(x, d, v, s).regs && Put(x.(f := f), d, v, s).mem == Put(x, d, v, s).mem
  {
    hide Merge, MergeHigh, Store, EffAddr;
  }

  lemma CmovccMatters(i: Instr, out: Live, carry: bool)
    requires Legal(i) && i.Cmovcc? && (if carry then ConditionReads(i.cc).cf else ConditionReads(i.cc).of)
    requires !(i.src.Reg? && i.src.g == i.to)
    ensures Matters(i, out, carry)
  {
    hide Holds, Load, EffAddr;
    var x := Start(i.to, 1);
    ConditionMatters(i.cc, x, carry);
    if i.src.Mem? {
      ZeroLoad(EffAddr(i.src.m, x.regs), i.s);
    }
    SizeOne(i.s);
    assert Val(x, i.src, i.s) == 0;
    SameOperand(x, carry, i.src, i.s);
    assert Eval(i, x, NoFlags).regs[i.to] != Eval(i, Flipped(x, carry), NoFlags).regs[i.to];
    Shown(i, x, NoFlags, out, carry);
  }

  lemma SizeOne(s: Size)
    ensures Trunc(0, s) == 0 && Trunc(1, s) == 1 && Merge(1, 0, s) == 0 && Merge(1, 1, s) == 1
  {
  }

  lemma ZeroLoad(a: Word, s: Size)
    ensures Load(seq(0x1_0000_0000_0000_0000, _ => 0), a, s) == 0
  {
    ZeroBytes(a, Bits(s) / 8);
  }

  lemma {:induction false} ZeroBytes(a: Word, n: nat)
    ensures LoadBytes(seq(0x1_0000_0000_0000_0000, _ => 0), a, n) == 0
    decreases n
  {
    if n > 0 { ZeroBytes(Trunc(a + 1, S64), n - 1); }
  }

  lemma AdcMatters(i: Instr, out: Live)
    requires Legal(i) && i.AdcSbb?
    ensures Matters(i, out, true)
  {
    hide Trunc, Put, Val, AddFlags, SubFlags;
    var x := Start(0, 0);
    var y := Flipped(x, true);
    var a, b := Val(x, i.dst, i.s), Val(x, i.src, i.s);
    SameOperand(x, true, i.dst, i.s);
    SameOperand(x, true, i.src, i.s);
    var sum: int := if i.sbb then a as int - b else a as int + b;
    var more: int := if i.sbb then sum - 1 else sum + 1;
    var v, w := Trunc(sum, i.s), Trunc(more, i.s);
    OneApart(sum, i.s);
    TruncBound(sum, i.s);
    TruncBound(more, i.s);
    PutDiffers(x, i.dst, v, w, i.s);
    PutFlags(x, i.dst, w, i.s, y.f);
    AdcPuts(i, x);
    AdcPuts(i, y);
    Shown(i, x, NoFlags, out, true);
  }

  lemma SameOperand(x: State, carry: bool, o: Operand, s: Size)
    ensures Val(Flipped(x, carry), o, s) == Val(x, o, s)
  {
    hide Trunc, Load, EffAddr;
  }

  lemma OneApart(v: int, s: Size)
    ensures Trunc(v, s) != Trunc(v + 1, s) && Trunc(v, s) != Trunc(v - 1, s)
  {
    hide Trunc;
    NextApart(v, s);
    NextApart(v - 1, s);
  }

  lemma NextApart(v: int, s: Size)
    ensures Trunc(v, s) != Trunc(v + 1, s)
  {
    hide Trunc;
    TruncAdd(v + 1, v, s);
    TruncAdd(v + 1, 0 - Trunc(v, s), s);
    SizeOne(s);
  }

  lemma AdcPuts(i: Instr, x: State)
    requires i.AdcSbb?
    ensures var a, b, c := Val(x, i.dst, i.s), Val(x, i.src, i.s), B2N(x.f.cf);
      var y := Put(x, i.dst, Trunc(if i.sbb then a - b - c else a + b + c, i.s), i.s);
      Eval(i, x, NoFlags).regs == y.regs && Eval(i, x, NoFlags).mem == y.mem
  {
    hide Trunc, Put, Val, AddFlags, SubFlags;
  }

  /** A rotate of 0 that is no whole turn moves CF into the operand. */
  lemma TurnMoves(left: bool, n: nat, s: Size)
    requires ModLong(n, s) != 0
    ensures RotCarryBy(left, VC(0, true), n, s).v != 0 && RotCarryBy(left, VC(0, false), n, s).v == 0
    ensures RotCarryBy(left, VC(0, true), n, s).v < Cap(s)
  {
    hide RotR, RotCarryBy, Pow2;
    TurnNothing(left, n, s);
    if left { LeftClosed(VC(0, true), n, s); } else { RightClosed(VC(0, true), n, s); }
    var k := if left then LongLeft(n, s) else ModLong(n, s);
    TopMoves(k, s);
  }

  lemma {:induction false} TurnNothing(left: bool, n: nat, s: Size)
    ensures RotCarryBy(left, VC(0, false), n, s) == VC(0, false)
    decreases n
  {
    if n > 0 {
      TurnNothing(left, n - 1, s);
      ZeroTruncs(s);
    }
  }

  lemma ZeroTruncs(s: Size)
    ensures Trunc(0, s) == 0 && Trunc(2 * 0, s) == 0 && !Msb(0, s)
  {
  }

  /** The bit above the operand, rotated into it. */
  lemma TopMoves(k: nat, s: Size)
    requires 0 < k <= Bits(s)
    ensures 0 < RotR(Cap(s), k, Bits(s) + 1) < Cap(s)
  {
    hide Lsr, Lsl, Low, Pow2;
    var j := Bits(s) - k;
    CapPow2(s);
    Pow2Split(j, k);
    assert j + k == Bits(s);
    Unsplit(Pow2(j), 0, k);
    LslPow2(0, Bits(s) + 1 - k);
    Smaller(j, Bits(s));
  }

  lemma Smaller(j: nat, n: nat)
    requires j < n
    ensures 0 < Pow2(j) < Pow2(n)
    decreases n
  {
    if j < n - 1 { Smaller(j, n - 1); }
  }

  lemma RotPuts(i: Instr, x: State)
    requires i.RotCarry?
    ensures var v, n := Val(x, i.dst, i.s), Masked(x, i.count, i.s);
      var y := Put(x, i.dst, RotCarryBy(i.left, VC(v, x.f.cf), n, i.s).v, i.s);
      Eval(i, x, NoFlags).regs == y.regs && Eval(i, x, NoFlags).mem == y.mem
  {
    hide Trunc, Put, Val, Masked, RotCarryBy, RotCarryFlags;
  }

  lemma ZeroOperand(d: Operand, s: Size)
    ensures LegalDst(d, s) ==> Val(Start(0, 0), d, s) == 0
  {
    hide Load;
    if d.Mem? { ZeroLoad(EffAddr(d.m, Start(0, 0).regs), s); }
  }

  lemma RotImmMatters(i: Instr, out: Live)
    requires Legal(i) && i.RotCarry? && i.count.ByImm? && !Idle(i, Live(false, false, false), true)
    ensures Matters(i, out, true)
  {
    hide Trunc, Put, Val, RotCarryBy;
    var x := Start(0, 0);
    var y := Flipped(x, true);
    var n := Masked(x, i.count, i.s);
    ZeroOperand(i.dst, i.s);
    SameOperand(x, true, i.dst, i.s);
    TurnMoves(i.left, n, i.s);
    var w := RotCarryBy(i.left, VC(0, true), n, i.s).v;
    PutDiffers(x, i.dst, 0, w, i.s);
    PutFlags(x, i.dst, w, i.s, y.f);
    RotPuts(i, x);
    RotPuts(i, y);
    Shown(i, x, NoFlags, out, true);
  }

  lemma RotClMatters(i: Instr, out: Live)
    requires Legal(i) && i.RotCarry? && i.count.ByCl?
    ensures Matters(i, out, true)
  {
    hide Trunc, Put, Val, RotCarryBy;
    var x := Start(RCX, 1);
    var y := Flipped(x, true);
    var v := Val(x, i.dst, i.s);
    OperandBound(x, i.dst, i.s);
    SameOperand(x, true, i.dst, i.s);
    OneTurn(i.left, v, i.s);
    var a, b := RotCarryBy(i.left, VC(v, false), 1, i.s).v, RotCarryBy(i.left, VC(v, true), 1, i.s).v;
    PutDiffers(x, i.dst, a, b, i.s);
    PutFlags(x, i.dst, b, i.s, y.f);
    RotPuts(i, x);
    RotPuts(i, y);
    assert Masked(x, i.count, i.s) == 1 == Masked(y, i.count, i.s);
    Shown(i, x, NoFlags, out, true);
  }

  lemma OneTurn(left: bool, v: Word, s: Size)
    requires v < Cap(s)
    ensures var a, b := RotCarryBy(left, VC(v, false), 1, s).v, RotCarryBy(left, VC(v, true), 1, s).v;
      a != b && a < Cap(s) && b < Cap(s)
  {
    assert RotCarryBy(left, VC(v, false), 1, s) == RotCarryOne(left, RotCarryBy(left, VC(v, false), 0, s), s);
    assert RotCarryBy(left, VC(v, true), 1, s) == RotCarryOne(left, RotCarryBy(left, VC(v, true), 0, s), s);
    TruncSmall(v, s);
    Doubling(v, s);
  }

  lemma Doubling(v: Word, s: Size)
    requires v < Cap(s)
    ensures Trunc(2 * v, s) % 2 == 0 && Trunc(2 * v, s) + 1 < Cap(s) && Half(s) + Half(s) == Cap(s)
  {
    hide Trunc;
    assert Half(s) + Half(s) == Cap(s);
    if v < Half(s) {
      TruncSmall(2 * v, s);
    } else {
      TruncIs(2 * v, 1, 2 * v - Cap(s), s);
    }
  }

  /** A flag that is not redefined passes through. */
  lemma KeptMatters(i: Instr, out: Live, carry: bool)
    requires Legal(i) && LiveIn(out, carry)
    requires var e := CarryOverflow(i); !(if carry then e.defines.cf else e.defines.of)
    ensures Matters(i, out, carry)
  {
    hide Trunc, Msb, ShiftBy, RotCarryBy, EffAddr, ArithFlags, ArithResult, AddFlags, SubFlags, ShiftOverflow,
         WithBit, BitOffset, BitTarget, Val, Put, Masked, Holds, Matters, Start;
    var x := Start(0, 0);
    Blind(x, carry);
    if i.Shift? || i.RotCarry? {
      NoCount(i);
      MaskedAgain(i, x, carry);
    }
    Shown(i, x, NoFlags, out, carry);
  }

  lemma NoCount(i: Instr)
    requires (i.Shift? || i.RotCarry?) && !NonzeroImm(i.count, i.s)
    ensures Masked(Start(0, 0), i.count, i.s) == 0
  {
  }

  /** What a read flag shows in. */
  lemma ReadMatters(i: Instr, out: Live, carry: bool)
    requires Legal(i) && !Idle(i, out, carry)
    requires var e := CarryOverflow(i); if carry then e.uses.cf else e.uses.of
    ensures Matters(i, out, carry)
  {
    hide Holds, Matters, ModLong;
    match i
    case Jcc(cc, _) =>
      ConditionMatters(cc, Start(0, 0), carry);
      Shown(i, Start(0, 0), NoFlags, out, carry);
    case Setcc(_, _) => SetccMatters(i, out, carry);
    case Cmovcc(_, _, g, o) =>
      if o.Reg? && o.g == g {
        assert LiveIn(out, carry) by { NotIdle(i, out, carry); }
        KeptMatters(i, out, carry);
      } else {
        CmovccMatters(i, out, carry);
      }
    case AdcSbb(_, _, _, _) => AdcMatters(i, out);
    case FlagsOp(op) =>
      assert out.cf by { NotIdle(i, out, carry); }
      Shown(i, Start(0, 0), NoFlags, out, carry);
    case RotCarry(_, s, _, c) =>
      if c.ByCl? {
        RotClMatters(i, out);
      } else if Idle(i, Live(false, false, false), true) {
        assert out.cf by { NotIdle(i, out, carry); }
        TurnKept(i, out);
      } else {
        RotImmMatters(i, out);
      }
  }

  lemma NotIdle(i: Instr, out: Live, carry: bool)
    requires !Idle(i, out, carry) && Idle(i, Live(false, false, false), carry)
    ensures LiveIn(out, carry)
  {
  }

  /** A whole turn keeps CF. */
  lemma TurnKept(i: Instr, out: Live)
    requires Legal(i) && i.RotCarry? && Idle(i, Live(false, false, false), true) && out.cf
    ensures Matters(i, out, true)
  {
    hide Trunc, Put, Val, RotCarryBy;
    var x := Start(0, 0);
    var y := Flipped(x, true);
    var n := Masked(x, i.count, i.s);
    ZeroOperand(i.dst, i.s);
    SameOperand(x, true, i.dst, i.s);
    WholeTurn(i.left, 0, false, n, i.s);
    WholeTurn(i.left, 0, true, n, i.s);
    Shown(i, x, NoFlags, out, true);
  }

  /** CF and OF are live before an instruction, for any flags live after it, exactly when they can make a
      difference there; what the tables count as read without effect is the exception. */
  lemma LiveExactly(i: Instr, out: Live, carry: bool)
    requires Legal(i)
    ensures Matters(i, out, carry) <==> LiveIn(Before(i, out), carry) && !Idle(i, out, carry)
  {
    hide SameAfter, Legal, Idle;
    if !LiveIn(Before(i, out), carry) {
      forall x: State, u: X86.Flags
        ensures SameAfter(i, x, Flipped(x, carry), u, out)
      {
        DeadSame(i, x, u, out, carry);
      }
    } else if Idle(i, out, carry) {
      forall x: State, u: X86.Flags
        ensures SameAfter(i, x, Flipped(x, carry), u, out)
      {
        IdleSame(i, x, u, out, carry);
      }
    } else if if carry then CarryOverflow(i).uses.cf else CarryOverflow(i).uses.of {
      ReadMatters(i, out, carry);
    } else {
      KeptMatters(i, out, carry);
    }
  }

  // ---- redefining all flags -------------------------------------------------------------------------------

  /** The flags after i do not depend on the flags before. */
  ghost predicate Redefines(i: Instr) {
    forall x: State, g: X86.Flags, u: X86.Flags :: Eval(i, x, u).f == Eval(i, x.(f := g), u).f
  }

  /** definesAllFlags is exact. */
  lemma DefinesExactly(i: Instr)
    requires Legal(i)
    ensures DefinesAll(i) <==> Redefines(i)
  {
    hide Legal, Eval;
    if DefinesAll(i) {
      forall x: State, g: X86.Flags, u: X86.Flags
        ensures Eval(i, x, u).f == Eval(i, x.(f := g), u).f
      {
        assert !ReadsAny(i);
        Pipeline.FlagBlind(i, x, g, u);
      }
    } else if i.AdcSbb? {
      AdcKeeps(i);
    } else {
      Keeps(i);
    }
  }

  lemma Keeps(i: Instr)
    requires !DefinesAll(i) && !i.AdcSbb?
    ensures !Redefines(i)
  {
    hide Trunc, Msb, ShiftBy, RotCarryBy, EffAddr, Load, Store, AddFlags, SubFlags, Merge, MergeHigh, Bw,
         ShiftOverflow, WithBit, BitOffset, BitTarget, Put, Val;
    var x, g := Start(0, 0), X86.Flags.Flags(true, true, true, true);
    PutKeepsFlags(x, g);
    assert Eval(i, x, NoFlags).f != Eval(i, x.(f := g), NoFlags).f;
  }

  lemma PutKeepsFlags(x: State, g: X86.Flags)
    ensures forall d: Operand, v: Word, s: Size :: Put(x, d, v, s).f == x.f && Put(x.(f := g), d, v, s).f == g
  {
    hide Merge, MergeHigh, Store, EffAddr;
  }

  /** ADC and SBB can come to 0 with one carry in and not with the other. */
  lemma AdcKeeps(i: Instr)
    requires Legal(i) && i.AdcSbb?
    ensures !Redefines(i)
  {
    hide Trunc, Put, Val, Msb, SInt;
    var x := AdcStart(i);
    var y := Flipped(x, true);
    SameOperand(x, true, i.dst, i.s);
    SameOperand(x, true, i.src, i.s);
    var sum: int := if i.sbb then Val(x, i.dst, i.s) - Val(x, i.src, i.s) else Val(x, i.dst, i.s) + Val(x, i.src, i.s);
    OneApart(sum, i.s);
    assert Eval(i, x, NoFlags).f.zf && !Eval(i, y, NoFlags).f.zf;
    assert Eval(i, x, NoFlags).f != Eval(i, x.(f := y.f), NoFlags).f;
  }

  /** A state without CF in which the result is 0. */
  lemma AdcStart(i: Instr) returns (x: State)
    requires Legal(i) && i.AdcSbb?
    ensures !x.f.cf
    ensures Trunc(if i.sbb then Val(x, i.dst, i.s) - Val(x, i.src, i.s)
      else Val(x, i.dst, i.s) + Val(x, i.src, i.s), i.s) == 0
  {
    hide Trunc, Put, Val;
    x := Start(0, 0);
    ZeroOperand(i.dst, i.s);
    if i.src.Imm? {
      var b := Val(x, i.src, i.s);
      OperandBound(x, i.src, i.s);
      var a: Word := if i.sbb || b == 0 then b else Cap(i.s) - b;
      x := Put(x, i.dst, a, i.s);
      WrittenBack(Start(0, 0), i.dst, a, i.s);
      ImmediateSame(Start(0, 0), x, i.src, i.s);
      Wraps(i.s);
    } else {
      SourceZero(i.src, i.s);
      ZeroTruncs(i.s);
    }
  }

  lemma Wraps(s: Size)
    ensures Trunc(Cap(s), s) == 0 && Trunc(0, s) == 0
  {
  }

  lemma SourceZero(o: Operand, s: Size)
    requires LegalOperand(o, s) && !o.Imm?
    ensures Val(Start(0, 0), o, s) == 0
  {
    ZeroOperand(o, s);
  }

  lemma ImmediateSame(x: State, y: State, o: Operand, s: Size)
    requires o.Imm?
    ensures Val(y, o, s) == Val(x, o, s)
  {
  }

  lemma WrittenBack(x: State, d: Operand, a: Word, s: Size)
    requires LegalDst(d, s) && a < Cap(s)
    ensures Val(Put(x, d, a, s), d, s) == a && Put(x, d, a, s).f == x.f
  {
    hide Load, Store, EffAddr, Merge, MergeHigh, Trunc;
    TruncSmall(a, s);
    match d
    case Mem(m) => LoadStored(x.mem, EffAddr(m, x.regs), a, s);
    case Reg(g) => MergedBack(x.regs[g], a, s);
    case High(g) => HighBack(x.regs[g], a);
    case Imm(_) =>
  }

  lemma MergedBack(was: Word, a: Word, s: Size)
    requires a < Cap(s)
    ensures Trunc(Merge(was, a, s), s) == a
  {
    hide Trunc;
    match s
    case S8 => TruncIs(Merge(was, a, s), was / 0x100, a, s);
    case S16 => TruncIs(Merge(was, a, s), was / 0x1_0000, a, s);
    case S32 => TruncSmall(a, s);
    case S64 => TruncSmall(a, s);
  }

  lemma HighBack(was: Word, a: Word)
    requires a < 0x100
    ensures MergeHigh(was, a) / 0x100 % 0x100 == a
  {
    var q, r := was / 0x100, was % 0x100;
    assert was == 0x100 * q + r;
    assert MergeHigh(was, a) == 0x100 * (q - q % 0x100 + a) + r;
    assert MergeHigh(was, a) / 0x100 == q - q % 0x100 + a;
    assert q - q % 0x100 == 0x100 * (q / 0x100);
  }

  // ---- reading any flag -------------------------------------------------------------------------------------

  /** Registers, memory or the branch outcome depend on the flags. */
  ghost predicate Observes(i: Instr) {
    exists x: State, g: X86.Flags, u: X86.Flags :: Observed(i, x, g, u)
  }

  predicate Observed(i: Instr, x: State, g: X86.Flags, u: X86.Flags) {
    var a, b := Eval(i, x, u), Eval(i, x.(f := g), u);
    a.regs != b.regs || a.mem != b.mem || (i.Jcc? && Holds(i.cc, x.f) != Holds(i.cc, g))
  }

  /** An instruction that counts as a reader although nothing but flags depends on the flags. */
  predicate Silent(i: Instr) {
    match i
    case FlagsOp(op) => op == Cmc
    case RotCarry(_, s, _, ByImm(n)) => ModLong(n % (if s == S64 then 64 else 32), s) == 0
    case Cmovcc(_, _, g, Reg(h)) => g == h
    case _ => false
  }

  /** readsAnyFlag is exact but for those. */
  lemma ReadsExactly(i: Instr)
    requires Legal(i)
    ensures Observes(i) <==> ReadsAny(i) && !Silent(i)
  {
    hide Legal, ModLong, Observed;
    if !ReadsAny(i) || Silent(i) {
      forall x: State, g: X86.Flags, u: X86.Flags
        ensures !Observed(i, x, g, u)
      {
        if ReadsAny(i) { SilentSame(i, x, g, u); } else { BlindSame(i, x, g, u); }
      }
    } else if i.AdcSbb? || i.RotCarry? {
      CarryObserved(i);
    } else {
      ConditionObserved(i);
    }
  }

  lemma BlindSame(i: Instr, x: State, g: X86.Flags, u: X86.Flags)
    requires !ReadsAny(i)
    ensures !Observed(i, x, g, u)
  {
    hide Eval;
    Pipeline.FlagBlind(i, x, g, u);
  }

  lemma SilentSame(i: Instr, x: State, g: X86.Flags, u: X86.Flags)
    requires Silent(i)
    ensures !Observed(i, x, g, u)
  {
    hide Trunc, Msb, RotCarryBy, EffAddr, Load, Store, Merge, MergeHigh;
    if i.RotCarry? {
      var n, v := Masked(x, i.count, i.s), Val(x, i.dst, i.s);
      OperandBound(x, i.dst, i.s);
      WholeTurn(i.left, v, x.f.cf, n, i.s);
      WholeTurn(i.left, v, g.cf, n, i.s);
    }
  }

  /** With no flag live after it, a difference shows in registers, memory or the outcome. */
  lemma CarryObserved(i: Instr)
    requires Legal(i) && (i.AdcSbb? || i.RotCarry?) && !Silent(i)
    ensures Observes(i)
  {
    hide Eval, Legal;
    var none := Live(false, false, false);
    assert !Idle(i, none, true) && LiveIn(Before(i, none), true);
    LiveExactly(i, none, true);
    var x: State, u: X86.Flags :| !SameAfter(i, x, Flipped(x, true), u, none);
    assert Flipped(x, true) == x.(f := Flipped(x, true).f);
    assert Observed(i, x, Flipped(x, true).f, u);
  }

  lemma ConditionObserved(i: Instr)
    requires Legal(i) && (i.Jcc? || i.Setcc? || i.Cmovcc?) && !Silent(i)
    ensures Observes(i)
  {
    hide Holds, Put, Load, EffAddr;
    var x := Start(if i.Cmovcc? then i.to else 0, 1).(f := JumpTable.FlagsFor(i.cc, false));
    var g := JumpTable.FlagsFor(i.cc, true);
    if i.Setcc? {
      PutDiffers(x, i.dst, 0, 1, S8);
      PutFlags(x, i.dst, 1, S8, g);
    } else if i.Cmovcc? {
      MovesZero(i, x, g);
    }
    assert Observed(i, x, g, NoFlags);
  }

  lemma MovesZero(i: Instr, x: State, g: X86.Flags)
    requires Legal(i) && i.Cmovcc? && !Silent(i) && x == Start(i.to, 1).(f := x.f)
    requires !Holds(i.cc, x.f) && Holds(i.cc, g)
    ensures Eval(i, x, NoFlags).regs[i.to] != Eval(i, x.(f := g), NoFlags).regs[i.to]
  {
    hide Holds, Load, EffAddr;
    if i.src.Mem? { ZeroLoad(EffAddr(i.src.m, x.regs), i.s); }
    SizeOne(i.s);
    assert Val(x, i.src, i.s) == 0 && Val(x.(f := g), i.src, i.s) == 0;
  }

  // ---- the successors of a block ---------------------------------------------------------------------------

  /** In some state control goes from d to a. */
  ghost predicate Goes(d: Program.Decoded, a: Word)
    requires Program.Fits(d)
  {
    !d.i.Ret? && exists x: State :: Program.Follow(d, x) == a
  }

  /** a is not known: a jump that is to no block and no function, or running on to what is no block. */
  predicate GoesAstray(fn: Program.Function, d: Program.Decoded, a: Word, isFunc: set<Word>)
    requires Program.Fits(d)
  {
    a !in fn.blocks &&
    (((d.i.Jmp? || d.i.Jcc?) && a == d.i.target && a !in isFunc) || (Program.FallsThrough(d.i) && a == Program.Next(d)))
  }

  /** blockSuccessors: exactly the blocks that control can go to, and unknown exactly when it can go astray. */
  lemma SuccessorsExactly(fn: Program.Function, b: Program.Block, isFunc: set<Word>, a: Word)
    requires b != [] && Program.Fits(Program.Last(b))
    ensures var d, s := Program.Last(b), Liveness.Successors(fn, b, isFunc);
      && (a in s.blocks <==> a in fn.blocks && Goes(d, a))
      && (s.unknown <==> exists c: Word :: GoesAstray(fn, d, c, isFunc))
  {
    hide Holds;
    var d, s := Program.Last(b), Liveness.Successors(fn, b, isFunc);
    BothWays(d);
    if Program.FallsThrough(d.i) && Program.Next(d) !in fn.blocks {
      assert GoesAstray(fn, d, Program.Next(d), isFunc);
    }
    if (d.i.Jmp? || d.i.Jcc?) && d.i.target !in fn.blocks && d.i.target !in isFunc {
      assert GoesAstray(fn, d, d.i.target, isFunc);
    }
  }

  /** A conditional branch can go both ways. */
  lemma BothWays(d: Program.Decoded)
    requires Program.Fits(d)
    ensures d.i.Jmp? || d.i.Jcc? ==> Goes(d, d.i.target)
    ensures Program.FallsThrough(d.i) ==> Goes(d, Program.Next(d))
  {
    hide Holds;
    var x := Start(0, 0);
    if d.i.Jcc? {
      assert Program.Follow(d, x.(f := JumpTable.FlagsFor(d.i.cc, true))) == d.i.target;
      assert Program.Follow(d, x.(f := JumpTable.FlagsFor(d.i.cc, false))) == Program.Next(d);
    } else if d.i.Jmp? {
      assert Program.Follow(d, x) == d.i.target;
    } else if !d.i.Ret? {
      assert Program.Follow(d, x) == Program.Next(d);
    }
  }
}
