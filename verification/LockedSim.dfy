/** The thread-local halves of a locked lowering: the code before the access puts address and
    operand in place, the code after it turns the old value into flags and result registers. */
module LockedSim {
  import opened Words
  import opened Guest
  import X86
  import opened Arm
  import opened Lifter
  import opened Effects
  import opened Steps
  import opened Operands
  import opened Flags
  import opened Relation
  import opened Locked
  import opened ShiftMath
  import opened SimShift
  import opened SimCarry
  import opened SimBitTest
  import SimArith
  import SimUnary
  import SimRotCarry
  import ShiftSim

  /** Registers agree and the live flags are right; memory is shared and compared elsewhere. */
  ghost predicate Local(x: X86.State, a: State, pol: Pol, live: Live) { x.regs == a.g && FlagsOk(x.f, a, pol, live) }

  /** The flags that must be right before l for those in out to be right after it. */
  function LiveBefore(l: Locked, out: Live): Live {
    match l
    case Rmw(i) => Before(i, out)
    case Xchg(_, _, _) => out
    case _ => Live(false, false, false)
  }

  /** The address of the operand that is accessed. */
  function Address(l: Locked, x: X86.State): Word
    requires Legal(l)
  {
    match l
    case Rmw(i) =>
      (match i
       case Arith(_, _, d, _) => EffAddr(d.m, x.regs)
       case IncDec(_, _, d) => EffAddr(d.m, x.regs)
       case Neg(_, d) => EffAddr(d.m, x.regs)
       case Not(_, d) => EffAddr(d.m, x.regs)
       case AdcSbb(_, _, d, _) => EffAddr(d.m, x.regs)
       case BitTest(_, s, d, o) => EffAddr(Target(x, d, o, s).m, x.regs)
       case _ => 0)
    case Xadd(_, m, _) => EffAddr(m, x.regs)
    case Xchg(_, m, _) => EffAddr(m, x.regs)
    case Cmpxchg(_, m, _) => EffAddr(m, x.regs)
  }

  // ---- sources ---------------------------------------------------------------------------------------

  /** The source operand o in register r. */
  ghost predicate Holds2(o: X86.Operand, s: Size, x: X86.State, r: Reg, a: State) {
    var v := X86.Val(x, o, s);
    && Read(a, r, Wd(s)) == v && v < Cap(s) && r == LockSource(o, s).r
    && (!Wide(s) ==> r == T(X2) && a.x.x2 == v)
  }

  lemma LockSourceOk(o: X86.Operand, s: Size, x: X86.State, a: State)
    requires x.regs == a.g && X86.LegalOperand(o, s) && !o.Mem?
    ensures var b := LockSource(o, s); var c := Exec(b.code, a);
      c == a.(x := a.x.(x2 := c.x.x2)) && Holds2(o, s, x, b.r, c)
  {
    hide Exec, Trunc, LoadImm, ReadReg;
    var v := X86.Val(x, o, s);
    var y := x.(mem := a.mem);
    ValBound(x, o, s);
    TruncSmall(v, Wd(s));
    ExecNil(a);
    match o
    case Imm(k) => LoadImmOk(T(X2), v, s, a);
    case Reg(_) => if !Wide(s) { ReadRegOk(o, s, X2, a, y); }
    case High(_) => ReadRegOk(o, s, X2, a, y);
  }

  /** The effective address in x16. */
  lemma LockAddrOk(m: MemRef, x: X86.State, a: State)
    requires x.regs == a.g && LegalRef(m)
    ensures var b := Exec(AddrCode(m, X16), a);
      b == a.(x := a.x.(x7 := b.x.x7, x16 := EffAddr(m, x.regs)))
  {
    hide Exec, AddrCode, EffAddr;
    AddrOk(m, X16, a);
  }

  // ---- flags -------------------------------------------------------------------------------------------

  /** addFlags, subFlags and logicFlags leave the flags of op on the old value and the operand. */
  lemma LockFlagsOk(op: X86.ArithOp, s: Size, b: Reg, a: State, v: Word, y: Word)
    requires a.x.x17 == v && v < Cap(s) && y < Cap(s) && Read(a, b, Wd(s)) == y && (b.G? || b == T(X2))
    requires !Wide(s) ==> b == T(X2) && a.x.x2 == y
    ensures var c := Exec(LockFlags(op, s, b), a);
      c == WithFlags(a, X86.ArithFlags(op, v, y, s), ArithPol(op)).(x := a.x.(x3 := c.x.x3))
  {
    hide Exec, Step, X86.ArithResult, X86.ArithFlags, Trunc, AluFlags, RhsVal, AluOne, Lsl, WithFlags;
    var direct := AddOrSub(op) || ArmLogOp(op) == AND;
    TruncSmall(v, s);
    FlagsKeep(a, X86.ArithResult(op, v, y, s), X86.ArithFlags(op, v, y, s), ArithPol(op));
    if Wide(s) {
      RhsPlain(a, b, s);
      SimArith.AluFlagsOk(op, s, if direct then ZR else T(X3), T(X17), Sh(b, 0), a, v, y);
    } else if direct {
      NarrowDirect(op, s, a, v, y);
    } else {
      NarrowLogic(op, s, a, v, y);
    }
  }

  lemma FlagsKeep(a: State, w: Word, f: X86.Flags, pol: Pol)
    ensures WithFlags(a.(x := a.x.(x3 := w)), f, pol) == WithFlags(a, f, pol).(x := a.x.(x3 := w))
    ensures WithFlags(a, f, pol).x == a.x && WithFlags(a, f, pol).(x := a.x) == WithFlags(a, f, pol)
  {
  }

  lemma NarrowDirect(op: X86.ArithOp, s: Size, a: State, v: Word, y: Word)
    requires !Wide(s) && (AddOrSub(op) || ArmLogOp(op) == AND) && a.x.x17 == v && a.x.x2 == y && v < Cap(s)
      && y < Cap(s)
    ensures var sh := TopShift(s);
      var c := Exec([SHIFT(LSL, S32, T(X3), T(X17), ByLit(sh))] + AluFlags(op, S32, ZR, T(X3), Sh(T(X2), sh)), a);
      c == WithFlags(a, X86.ArithFlags(op, v, y, s), ArithPol(op)).(x := a.x.(x3 := c.x.x3))
  {
    hide Exec, Step, X86.ArithResult, X86.ArithFlags, Trunc, AluFlags, Lsl, WithFlags, Shifted, RhsVal;
    var sh := TopShift(s);
    var lsl := SHIFT(LSL, S32, T(X3), T(X17), ByLit(sh));
    SimArith.TopArith(op, v, y, s);
    var v', y' := Lsl(v, sh), Lsl(y, sh);
    SimArith.LslStep(v, sh);
    StepShift(a, LSL, S32, T(X3), T(X17), sh);
    var b := a.(x := a.x.(x3 := v'));
    TruncSmall(v', S32);
    TruncSmall(y', S32);
    RhsSh(b, X2, sh, S32);
    SimArith.AluFlagsOk(op, S32, ZR, T(X3), Sh(T(X2), sh), b, v', y');
    Exec1(lsl, a);
    ExecCat([lsl], AluFlags(op, S32, ZR, T(X3), Sh(T(X2), sh)), a);
    FlagsKeep(a, v', X86.ArithFlags(op, v, y, s), ArithPol(op));
  }

  lemma NarrowLogic(op: X86.ArithOp, s: Size, a: State, v: Word, y: Word)
    requires !Wide(s) && !AddOrSub(op) && a.x.x17 == v && a.x.x2 == y && v < Cap(s) && y < Cap(s)
    ensures var sh := TopShift(s);
      var c := Exec([AluOne(op, false, S32, T(X3), T(X17), Sh(T(X2), 0)), SHIFT(LSL, S32, T(X3), T(X3), ByLit(sh)),
                     LOGIC(AND, true, S32, ZR, T(X3), Sh(T(X3), 0))], a);
      c == WithFlags(a, X86.ArithFlags(op, v, y, s), CarryClear).(x := a.x.(x3 := c.x.x3))
  {
    hide Exec, Step, X86.ArithFlags, Trunc, AluOne, Lsl, WithFlags, Shifted, RhsVal, Bw;
    var sh := TopShift(s);
    SimArith.TopArith(op, v, y, s);
    var r := X86.ArithResult(op, v, y, s);
    TruncSmall(v, S32);
    TruncSmall(y, S32);
    RhsPlain(a, T(X2), S32);
    SimArith.AluOneOk(op, S32, T(X3), T(X17), Sh(T(X2), 0), a, v, y);
    BwTrunc(X86.LogicOp(op), v, y, s);
    TruncSmall(v, s);
    TruncSmall(y, s);
    TruncSmall(Bw(X86.LogicOp(op), v, y), S32);
    var b := a.(x := a.x.(x3 := r));
    SimArith.ResultBound(op, v, y, s);
    TopNZ(r, s);
    SimArith.LslStep(r, sh);
    StepShift(b, LSL, S32, T(X3), T(X3), sh);
    var c := a.(x := a.x.(x3 := Lsl(r, sh)));
    SimArith.TstOk(op, S32, T(X3), c, Lsl(v, sh), Lsl(y, sh));
    Exec3(AluOne(op, false, S32, T(X3), T(X17), Sh(T(X2), 0)), SHIFT(LSL, S32, T(X3), T(X3), ByLit(sh)),
          LOGIC(AND, true, S32, ZR, T(X3), Sh(T(X3), 0)), a);
    FlagsKeep(a, Lsl(r, sh), X86.ArithFlags(op, v, y, s), CarryClear);
  }

  /** INC and DEC: all flags but CF; C is kept where CF is live. */
  lemma LockIncOk(inc: bool, s: Size, notes: Notes, a: State, v: Word)
    requires a.x.x17 == v && v < Cap(s) && !notes.skip
    ensures var c := Exec(LockIncFlags(inc, s, notes), a);
      c == WithNZV(a, SumFlags(!inc, v, 1, 0, s)).(x := c.x, c := c.c) && (!notes.carryDead || !Wide(s) ==> c.c == a.c)
  {
    hide Exec, Step, Trunc, SInt, SumFlags, WithNZV, WithFlags, RhsVal;
    TruncSmall(v, s);
    if !Wide(s) {
      SimUnary.IncNarrowOk(inc, s, a, v);
      NZVKeep(a, SumFlags(!inc, v, 1, 0, s));
    } else {
      LockIncWide(inc, s, !notes.carryDead, a, v);
    }
  }

  lemma NZVKeep(a: State, f: X86.Flags)
    ensures forall w: Word :: Set(WithNZV(a, f), T(X3), w) == WithNZV(a, f).(x := a.x.(x3 := w))
    ensures WithNZV(a, f).x == a.x && WithNZV(a, f).c == a.c
  {
  }

  lemma LockIncWide(inc: bool, s: Size, keep: bool, a: State, v: Word)
    requires Wide(s) && a.x.x17 == v && v < Cap(s)
    ensures var code := (if keep then [CSET(S32, T(X2), CS)] else []) + [ADDSUB(!inc, true, s, ZR, T(X17), Lit(1))]
                        + (if keep then [RMIF(T(X2), 63, 2)] else []);
      var c := Exec(code, a);
      c == WithNZV(a, SumFlags(!inc, v, 1, 0, s)).(x := c.x, c := c.c) && (keep ==> c.c == a.c)
  {
    hide Exec, Step, Trunc, SumFlags, RhsVal;
    var f := SumFlags(!inc, v, 1, 0, s);
    var add := ADDSUB(!inc, true, s, ZR, T(X17), Lit(1));
    var b := if keep then a.(x := a.x.(x2 := B2N(a.c))) else a;
    TruncSmall(v, s);
    LitOk(b, 1, s);
    StepSums(b, !inc, s, ZR, T(X17), Lit(1), v, 1);
    var g := WithFlags(b, f, SumPol(!inc));
    if keep {
      StepCset(a, X2, CS);
      RmifC(g, T(X2));
      Exec3(CSET(S32, T(X2), CS), add, RMIF(T(X2), 63, 2), a);
      assert [CSET(S32, T(X2), CS)] + [add] + [RMIF(T(X2), 63, 2)] == [CSET(S32, T(X2), CS), add, RMIF(T(X2), 63, 2)];
    } else {
      Exec1(add, a);
      assert [] + [add] + [] == [add];
    }
  }

  lemma LockNegOk(s: Size, notes: Notes, a: State, v: Word)
    requires a.x.x17 == v && v < Cap(s) && !notes.skip
    ensures var c := Exec(LockNegFlags(s, notes), a);
      c == WithFlags(a, X86.SubFlags(0, v, 0, s), CarrySub).(x := a.x.(x3 := c.x.x3))
  {
    hide Exec, Step, Trunc, RhsVal, WithFlags, X86.SubFlags;
    TruncSmall(v, s);
    if Wide(s) {
      RhsPlain(a, T(X17), s);
      TruncSmall(0, s);
      StepSums(a, true, s, T(X3), ZR, Sh(T(X17), 0), 0, v);
      Exec1(ADDSUB(true, true, s, T(X3), ZR, Sh(T(X17), 0)), a);
      FlagsKeep(a, Trunc(SumOf(true, 0, v, 0), s), X86.SubFlags(0, v, 0, s), CarrySub);
    } else {
      NegNarrow(s, a, v);
    }
  }

  lemma NegNarrow(s: Size, a: State, v: Word)
    requires a.x.x17 == v && v < Cap(s) && !Wide(s)
    ensures var sh := TopShift(s);
      var c := Exec([SHIFT(LSL, S32, T(X3), T(X17), ByLit(sh)), ADDSUB(true, true, S32, T(X3), ZR, Sh(T(X3), 0))], a);
      c == WithFlags(a, X86.SubFlags(0, v, 0, s), CarrySub).(x := a.x.(x3 := c.x.x3))
  {
    hide Exec, Step, Trunc, RhsVal, Lsl, Shifted, WithFlags, X86.SubFlags;
    var sh := TopShift(s);
    TruncSmall(v, s);
    TopAligned(true, 0, v, s);
    SimUnary.Zeros(sh);
    SimArith.LslStep(v, sh);
    StepShift(a, LSL, S32, T(X3), T(X17), sh);
    var w := Lsl(v, sh);
    var b := a.(x := a.x.(x3 := w));
    RhsPlain(b, T(X3), S32);
    TruncSmall(w, S32);
    TruncSmall(0, S32);
    StepSums(b, true, S32, T(X3), ZR, Sh(T(X3), 0), 0, w);
    Exec2(SHIFT(LSL, S32, T(X3), T(X17), ByLit(sh)), ADDSUB(true, true, S32, T(X3), ZR, Sh(T(X3), 0)), a);
    FlagsKeep(a, w, X86.SubFlags(0, v, 0, s), CarrySub);
  }

  /** ADC and SBB: C is set to the old CF in x4, then ADCS or SBCS. */
  lemma LockAdcWideOk(sbb: bool, s: Size, b: Reg, a: State, v: Word, y: Word, cf: bool)
    requires Wide(s) && a.x.x17 == v && v < Cap(s) && Read(a, b, s) == y && (b.G? || b == T(X2)) && a.x.x4 == B2N(cf)
    ensures var c := Exec(LockAdcWide(sbb, s, b), a);
      c == WithFlags(a, SumFlags(sbb, v, y, B2N(cf), s), SumPol(sbb)).(x := a.x.(x3 := c.x.x3))
  {
    hide Exec, Step, Trunc, RhsVal, SumFlags, AddSub;
    var cmp, adc := ADDSUB(true, true, s, ZR, T(X4), Lit(1)), ADCSBC(sbb, true, s, T(X3), T(X17), b);
    TruncSmall(B2N(cf), s);
    TruncSmall(v, s);
    LitOk(a, 1, s);
    StepSums(a, true, s, ZR, T(X4), Lit(1), B2N(cf), 1);
    CompareOne(cf, s);
    var a1 := WithFlags(a, SumFlags(true, B2N(cf), 1, 0, s), CarrySub);
    StepCfinv(a1);
    var a2 := if sbb then a1.(c := !a1.c) else a1;
    StepAdc(a2, sbb, true, s, T(X3), T(X17), b);
    TruncBound(Get(a, b), s);
    AddSubFlags(a2, sbb, cf, s, T(X3), v, y);
    if sbb {
      Exec3(cmp, CFINV, adc, a);
      assert [cmp] + [CFINV] + [adc] == [cmp, CFINV, adc];
    } else {
      Exec2(cmp, adc, a);
      assert [cmp] + [] + [adc] == [cmp, adc];
    }
  }

  lemma CompareOne(cf: bool, s: Size)
    ensures SumFlags(true, B2N(cf), 1, 0, s).cf == !cf
  {
  }

  // ---- before the access -----------------------------------------------------------------------------------

  /** The registers the access and the code after it use. */
  ghost predicate Operand(l: Locked, x: X86.State, a: State) {
    match l
    case Rmw(i) =>
      (match i
       case Arith(op, s, _, o) =>
         var v := X86.Val(x, o, s);
         && Holds2(o, s, x, LockSource(o, s).r, a)
         && (op == X86.Sub ==> a.x.x0 == Trunc(0 - v, Wd(s))) && (op == X86.And ==> a.x.x0 == Trunc(-1 - v, Wd(s)))
       case IncDec(inc, s, _) => a.x.x0 == if inc then 1 else Trunc(-1, Wd(s))
       case Not(s, _) => a.x.x0 == Trunc(-1, Wd(s))
       case AdcSbb(_, s, _, o) => Holds2(o, s, x, LockSource(o, s).r, a) && a.x.x4 == B2N(x.f.cf)
       case BitTest(_, s, _, o) => var k := BitPos(x, o, s); a.x.x0 == Pow2(k) && (o.Reg? ==> a.x.x1 == k)
       case _ => true)
    case Xadd(s, _, o) => Holds2(o, s, x, LockSource(o, s).r, a)
    case Xchg(s, _, o) => Holds2(o, s, x, LockSource(o, s).r, a)
    case Cmpxchg(s, _, o) => Holds2(o, s, x, LockSource(o, s).r, a) && a.x.x0 == Trunc(x.regs[RAX], s)
  }

  /** The state after the prefix: address and operand in place, flags and guest registers kept. */
  ghost predicate Ready(l: Locked, pol: Pol, out: Live, x: X86.State, a: State)
    requires Legal(l)
  {
    Local(x, a, pol, LiveBefore(l, out)) && a.x.x16 == Address(l, x) && Operand(l, x, a)
  }

  /** Source, then address; the operand survives the address code. */
  lemma SourceAddress(o: X86.Operand, s: Size, m: MemRef, x: X86.State, a: State)
    requires x.regs == a.g && X86.LegalOperand(o, s) && !o.Mem? && LegalRef(m)
    ensures var b := LockSource(o, s); var c := Exec(b.code + AddrCode(m, X16), a);
      c == a.(x := a.x.(x2 := c.x.x2, x7 := c.x.x7, x16 := EffAddr(m, x.regs))) && Holds2(o, s, x, b.r, c)
  {
    hide Exec, Trunc, AddrCode, EffAddr, X86.Val;
    var b := LockSource(o, s);
    LockSourceOk(o, s, x, a);
    var a1 := Exec(b.code, a);
    LockAddrOk(m, x, a1);
    ExecCat(b.code, AddrCode(m, X16), a);
  }

  lemma PrefixArith(op: X86.ArithOp, s: Size, m: MemRef, o: X86.Operand, notes: Notes, pol: Pol, x: X86.State, a: State)
    requires x.regs == a.g && X86.LegalOperand(o, s) && !o.Mem? && LegalRef(m) && !CompareOnly(op)
    ensures var c := Exec(LockArith(op, s, m, o, notes, pol).prefix, a);
      && c == a.(x := c.x) && c.x.x16 == EffAddr(m, x.regs) && Operand(Rmw(X86.Arith(op, s, X86.Mem(m), o)), x, c)
  {
    hide Exec, Step, Trunc, AddrCode, EffAddr, X86.Val, RhsVal, LockSource, LockFlags;
    var b := LockSource(o, s);
    var first := b.code + AddrCode(m, X16);
    var w := Wd(s);
    SourceAddress(o, s, m, x, a);
    var a1 := Exec(first, a);
    var v := X86.Val(x, o, s);
    var neg, mvn := ADDSUB(true, false, w, T(X0), ZR, Sh(b.r, 0)), MVN(w, T(X0), b.r);
    RhsPlain(a1, b.r, w);
    StepAddSub(a1, true, w, T(X0), ZR, Sh(b.r, 0));
    StepMvn(a1, w, T(X0), b.r);
    TruncAdd(-1, Get(a1, b.r), w);
    Exec1(neg, a1);
    Exec1(mvn, a1);
    ExecNil(a1);
    var flip := if op == X86.Sub then [neg] else if op == X86.And then [mvn] else [];
    ExecCat(first, flip, a);
    ScratchKeeps(o, s, x, b.r, a1, Exec(flip, a1));
  }

  lemma ScratchKeeps(o: X86.Operand, s: Size, x: X86.State, r: Reg, a: State, b: State)
    requires Holds2(o, s, x, r, a) && b == a.(x := a.x.(x0 := b.x.x0, x4 := b.x.x4, x7 := b.x.x7, x16 := b.x.x16))
    ensures Holds2(o, s, x, r, b)
  {
    hide X86.Val, Trunc, LoadImm, ReadReg;
  }

  lemma PrefixOnes(m: MemRef, s: Size, inc: bool, x: X86.State, a: State)
    requires x.regs == a.g && LegalRef(m)
    ensures var c := Exec(AddrCode(m, X16) + [if inc then MOVZ(T(X0), 1, 0) else AllOnes(s)], a);
      c == a.(x := c.x) && c.x.x16 == EffAddr(m, x.regs) && c.x.x0 == if inc then 1 else Trunc(-1, Wd(s))
  {
    hide Exec, Step, Trunc, AddrCode, EffAddr;
    var i := if inc then MOVZ(T(X0), 1, 0) else AllOnes(s);
    LockAddrOk(m, x, a);
    var a1 := Exec(AddrCode(m, X16), a);
    StepMovz(a1, T(X0), 1);
    StepMvn(a1, Wd(s), T(X0), ZR);
    Exec1(i, a1);
    ExecCat(AddrCode(m, X16), [i], a);
  }

  lemma PrefixAdc(sbb: bool, s: Size, m: MemRef, o: X86.Operand, notes: Notes, pol: Pol, x: X86.State, a: State)
    requires x.regs == a.g && X86.LegalOperand(o, s) && !o.Mem? && LegalRef(m) && Encodes(a, pol, x.f.cf)
    ensures var c := Exec(LockAdc(sbb, s, m, o, notes, pol).prefix, a);
      && c == a.(x := c.x) && c.x.x16 == EffAddr(m, x.regs) && Operand(Rmw(X86.AdcSbb(sbb, s, X86.Mem(m), o)), x, c)
  {
    hide Exec, Step, Trunc, AddrCode, EffAddr, X86.Val, LockSource, CarryCond, NarrowCarry, LockAdcWide;
    var b := LockSource(o, s);
    var cset := CSET(Wd(s), T(X4), CarryCond(pol, true));
    LockSourceOk(o, s, x, a);
    var a1 := Exec(b.code, a);
    CarryCondOk(a1, pol, x.f.cf);
    CsetStep(a1, Wd(s), CarryCond(pol, true));
    Exec1(cset, a1);
    ExecCat(b.code, [cset], a);
    var a2 := a1.(x := a1.x.(x4 := B2N(x.f.cf)));
    ScratchKeeps(o, s, x, b.r, a1, a2);
    LockAddrOk(m, x, a2);
    ScratchKeeps(o, s, x, b.r, a2, Exec(AddrCode(m, X16), a2));
    ExecCat(b.code + [cset], AddrCode(m, X16), a);
  }

  lemma CsetStep(a: State, w: Size, cond: Cond)
    ensures Step(CSET(w, T(X4), cond), a) == a.(x := a.x.(x4 := B2N(Passes(cond, a))))
  {
    hide Passes;
  }

  lemma PrefixBt(op: X86.BitTestOp, s: Size, m: MemRef, o: X86.Operand, notes: Notes, pol: Pol, x: X86.State, a: State)
    requires x.regs == a.g && LegalRef(m) && s != S8 && (o.Imm? || o.Reg?)
    ensures var c := Exec(LockBt(op, s, m, o, notes, pol).prefix, a); var l := Rmw(X86.BitTest(op, s, X86.Mem(m), o));
      c == a.(x := c.x) && c.x.x16 == EffAddr(Target(x, X86.Mem(m), o, s).m, x.regs) && Operand(l, x, c)
  {
    hide Exec, Step, Trunc, AddrCode, EffAddr, BitAddress, LoadImm64, Pow2, Lsl, SInt, DivBits, Target;
    LockAddrOk(m, x, a);
    var a1 := Exec(AddrCode(m, X16), a);
    TargetAddress(x, m, o, s);
    BitMaskOk(s, m, o, x, a1);
    ExecCat(AddrCode(m, X16), BitMaskCode(s, o), a);
    assert LockBt(op, s, m, o, notes, pol).prefix == AddrCode(m, X16) + BitMaskCode(s, o);
  }

  /** The bit's mask in x0; for a register offset x16 moves to the operand that holds the bit. */
  lemma BitMaskOk(s: Size, m: MemRef, o: X86.Operand, x: X86.State, a: State)
    requires x.regs == a.g && s != S8 && (o.Imm? || o.Reg?) && a.x.x16 == EffAddr(m, x.regs)
    ensures var c := Exec(BitMaskCode(s, o), a); var k := BitPos(x, o, s);
      && c == a.(x := c.x) && c.x.x16 == EffAddr(Target(x, X86.Mem(m), o, s).m, x.regs)
      && c.x.x0 == Pow2(k) && (o.Reg? ==> c.x.x1 == k)
  {
    hide Exec, Step, Trunc, EffAddr, BitAddress, LoadImm64, Pow2, Lsl, SInt, DivBits;
    TargetAddress(x, m, o, s);
    var k := BitPos(x, o, s);
    LslPow2(1, k);
    Pow2Word(k);
    TruncSmall(Pow2(k), S64);
    if o.Imm? {
      ImmOffset(x, X86.Mem(m), o.k, s);
      LoadImm64Ok(T(X0), Pow2(k), a);
    } else {
      BitAddressOk(s, o.g, a);
      ShiftOne(Exec(BitAddress(s, o.g), a), k);
      ExecCat(BitAddress(s, o.g), [MOVZ(T(X0), 1, 0), SHIFT(LSL, S64, T(X0), T(X0), ByReg(T(X1)))], a);
    }
  }

  lemma Pow2Word(k: nat)
    requires k < 64
    ensures Pow2(k) < Cap(S64)
  {
    Pow2Mono(k + 1, 64);
    Pow2Double(k);
    Pow2Consts();
  }

  lemma ShiftOne(a: State, k: nat)
    requires a.x.x1 == k < 64
    ensures Pow2(k) < Cap(S64)
    ensures Exec([MOVZ(T(X0), 1, 0), SHIFT(LSL, S64, T(X0), T(X0), ByReg(T(X1)))], a) == a.(x := a.x.(x0 := Pow2(k)))
  {
    hide Exec, Step, Trunc, Lsl, Pow2;
    Pow2Word(k);
    LslPow2(1, k);
    TruncSmall(Pow2(k), S64);
    StepMovz(a, T(X0), 1);
    var b := a.(x := a.x.(x0 := 1));
    ModKeep(k);
    SimRotCarry.StepVar(b, LSL, X0, X0, X1, 1, k);
    Exec2(MOVZ(T(X0), 1, 0), SHIFT(LSL, S64, T(X0), T(X0), ByReg(T(X1))), a);
  }

  lemma ModKeep(k: nat)
    requires k < 64
    ensures ModBits(k, S64) == k
  {
  }

  lemma AccumulatorOk(s: Size, a: State)
    ensures Exec(Accumulator(s), a) == a.(x := a.x.(x0 := Trunc(a.g[RAX], s)))
  {
    hide Exec, Step, Trunc, Logical;
    Exec1(Accumulator(s)[0], a);
    if Wide(s) {
      StepMov(a, s, T(X0), G(RAX));
    } else {
      LitOk(a, Cap(s) - 1, S32);
      MaskOk(a.g[RAX], s);
      StepLogic(a, AND, S32, T(X0), G(RAX), Lit(Cap(s) - 1));
    }
  }

  lemma PrefixCas(s: Size, m: MemRef, o: X86.Operand, x: X86.State, a: State)
    requires x.regs == a.g && PlainReg(o, s) && LegalRef(m)
    ensures var b := LockSource(o, s); var c := Exec(b.code + Accumulator(s) + AddrCode(m, X16), a);
      && c == a.(x := c.x) && c.x.x16 == EffAddr(m, x.regs) && Operand(Cmpxchg(s, m, o), x, c)
  {
    hide Exec, Trunc, AddrCode, EffAddr, X86.Val, LockSource, Accumulator;
    var b := LockSource(o, s);
    LockSourceOk(o, s, x, a);
    var a1 := Exec(b.code, a);
    AccumulatorOk(s, a1);
    ExecCat(b.code, Accumulator(s), a);
    var a2 := Exec(Accumulator(s), a1);
    ScratchKeeps(o, s, x, b.r, a1, a2);
    LockAddrOk(m, x, a2);
    ScratchKeeps(o, s, x, b.r, a2, Exec(AddrCode(m, X16), a2));
    ExecCat(b.code + Accumulator(s), AddrCode(m, X16), a);
  }

  /** The prefix of every locked lowering. */
  lemma PrefixOk(l: Locked, notes: Notes, pol: Pol, out: Live, x: X86.State, a: State)
    requires Legal(l) && Local(x, a, pol, LiveBefore(l, out))
    ensures var c := Exec(Lower(l, notes, pol).prefix, a);
      c == a.(x := c.x) && Ready(l, pol, out, x, c)
  {
    hide Exec, EffAddr, Lower, Operand, Address, LiveBefore;
    if l.Rmw? && (l.i.Arith? || l.i.AdcSbb? || l.i.BitTest?) {
      PrefixSourced(l, notes, pol, out, x, a);
    } else {
      PrefixSimple(l, notes, pol, x, a);
    }
  }

  lemma PrefixSourced(l: Locked, notes: Notes, pol: Pol, out: Live, x: X86.State, a: State)
    requires Legal(l) && Local(x, a, pol, LiveBefore(l, out)) && l.Rmw? && (l.i.Arith? || l.i.AdcSbb? || l.i.BitTest?)
    ensures var c := Exec(Lower(l, notes, pol).prefix, a);
      c == a.(x := c.x) && c.x.x16 == Address(l, x) && Operand(l, x, c)
  {
    hide Exec, Trunc, EffAddr, X86.Val, LockSource, LockAdc, LockBt, LockArith, Target, Operand;
    if l.i.Arith? {
      PrefixArith(l.i.op, l.i.s, l.i.dst.m, l.i.src, notes, pol, x, a);
    } else if l.i.AdcSbb? {
      PrefixAdc(l.i.sbb, l.i.s, l.i.dst.m, l.i.src, notes, pol, x, a);
    } else {
      PrefixBt(l.i.bt, l.i.s, l.i.dst.m, l.i.off, notes, pol, x, a);
    }
  }

  lemma PrefixSimple(l: Locked, notes: Notes, pol: Pol, x: X86.State, a: State)
    requires Legal(l) && x.regs == a.g && (l.Rmw? ==> l.i.IncDec? || l.i.Neg? || l.i.Not?)
    ensures var c := Exec(Lower(l, notes, pol).prefix, a);
      c == a.(x := c.x) && c.x.x16 == Address(l, x) && Operand(l, x, c)
  {
    hide Exec, Trunc, EffAddr, X86.Val, LockSource, Accumulator, LockFlags, Holds2, AddrCode, LockIncFlags,
         LockNegFlags, CmpxchgTail;
    match l
    case Rmw(IncDec(inc, s, d)) => PrefixOnes(d.m, s, inc, x, a);
    case Rmw(Not(s, d)) => PrefixOnes(d.m, s, false, x, a);
    case Rmw(Neg(s, d)) => LockAddrOk(d.m, x, a);
    case Rmw(_) =>
    case Xadd(s, m, o) => SourceAddress(o, s, m, x, a);
    case Xchg(s, m, o) => SourceAddress(o, s, m, x, a);
    case Cmpxchg(s, m, o) => PrefixCas(s, m, o, x, a);
  }

  // ---- after the access ----------------------------------------------------------------------------------------

  /** The access of a ready thread to memory mem is the instruction: the memory it leaves is the
      instruction's, and the code after it ends with the instruction's registers and live flags. */
  ghost predicate Commits(l: Locked, notes: Notes, pol: Pol, out: Live, x: X86.State, a: State, mem: Memory)
    requires Legal(l)
  {
    var c := Lower(l, notes, pol);
    var was := Load(mem, a.x.x16, SizeOf(l));
    var at := AtAccess(c.access, a, was);
    var fin := Exec(c.suffix, AfterAccess(c.access, at, was));
    var y := Eval(l, x.(mem := mem), Seen(fin, c.pol));
    Local(y, fin, c.pol, out) && y.mem == Written(c.access, at, was, mem)
  }

  /** SUB adds the negated operand, AND clears the complement. */
  lemma ArithAtomic(op: X86.ArithOp, s: Size, was: Word, v: Word, g: Word)
    requires !CompareOnly(op) && was < Cap(s) && v < Cap(s)
    requires if op == X86.Sub then g == Trunc(0 - v, Wd(s)) else if op == X86.And then g == Trunc(-1 - v, Wd(s))
      else Trunc(g, s) == v
    ensures AtomicValue(AtomicOf(op), was, g, s) == X86.ArithResult(op, was, v, s)
  {
    hide Trunc, Bw;
    TruncAdd(was, g, s);
    TruncAdd(was, v, s);
    TruncSmall(v, s);
    TruncTrunc(0 - v, s, Wd(s));
    TruncTrunc(-1 - v, s, Wd(s));
    TruncAdd(was, 0 - v, s);
    TruncAdd(-1, g, s);
    TruncAdd(-1, -1 - v, s);
  }

  lemma SourceRead(o: X86.Operand, s: Size, x: X86.State, r: Reg, a: State)
    requires Holds2(o, s, x, r, a)
    ensures var v := X86.Val(x, o, s); Trunc(Get(a, r), s) == v && (r.G? || r == T(X2))
  {
    hide X86.Val, Trunc, LoadImm, ReadReg;
    TruncTrunc(Get(a, r), s, Wd(s));
    TruncSmall(X86.Val(x, o, s), s);
  }

  /** Scratch registers other than x2 do not matter to the source. */
  lemma SourceKept(o: X86.Operand, s: Size, x: X86.State, r: Reg, a: State, b: State)
    requires Holds2(o, s, x, r, a) && b == a.(x := b.x) && b.x.x2 == a.x.x2
    ensures Holds2(o, s, x, r, b)
  {
    hide X86.Val, Trunc, LoadImm, ReadReg;
  }

  lemma CommitArith(op: X86.ArithOp, s: Size, d: X86.Operand, o: X86.Operand, notes: Notes, pol: Pol, out: Live,
                    x: X86.State, a: State, mem: Memory)
    requires var l := Rmw(X86.Arith(op, s, d, o)); Legal(l) && NotesOk(notes, out) && Ready(l, pol, out, x, a)
    ensures Commits(Rmw(X86.Arith(op, s, d, o)), notes, pol, out, x, a, mem)
  {
    hide Exec, Trunc, EffAddr, X86.Val, LockSource, LockFlags, Load, Store, X86.ArithResult, X86.ArithFlags, AddrCode,
         AtomicValue, WithFlags, FlagsOk, Holds2, Get;
    var l := Rmw(X86.Arith(op, s, d, o));
    var low := Lower(l, notes, pol);
    var b := LockSource(o, s).r;
    var was, v := Load(mem, a.x.x16, s), X86.Val(x, o, s);
    ValBound(x, o, s);
    SourceRead(o, s, x, b, a);
    SourceX0(op, a);
    ArithAtomic(op, s, was, v, Get(a, low.access.src));
    var a1 := a.(x := a.x.(x17 := was));
    SourceKept(o, s, x, b, a, a1);
    ArithMem(op, s, d, o, x, mem, Seen(Exec(low.suffix, a1), low.pol));
    if notes.skip { ExecNil(a1); } else { SourceFlags(op, s, o, x, b, a1, was); }
    ArithLocal(op, s, x, Written(low.access, a, was, mem), a1, Exec(low.suffix, a1), was, v, notes, pol, low.pol, out);
  }

  lemma SourceX0(op: X86.ArithOp, a: State)
    ensures Get(a, T(X0)) == a.x.x0
  {
  }

  lemma SourceFlags(op: X86.ArithOp, s: Size, o: X86.Operand, x: X86.State, b: Reg, a: State, was: Word)
    requires Holds2(o, s, x, b, a) && a.x.x17 == was < Cap(s)
    ensures var v := X86.Val(x, o, s); var c := Exec(LockFlags(op, s, b), a);
      c == WithFlags(a, X86.ArithFlags(op, was, v, s), ArithPol(op)).(x := a.x.(x3 := c.x.x3))
  {
    hide Exec, Trunc, X86.Val, X86.ArithFlags, LockFlags, WithFlags, LoadImm, ReadReg;
    LockFlagsOk(op, s, b, a, was, X86.Val(x, o, s));
  }

  lemma ArithLocal(op: X86.ArithOp, s: Size, x: X86.State, mem: Memory, a: State, fin: State, was: Word, v: Word,
                   notes: Notes, pol: Pol, pol': Pol, out: Live)
    requires NotesOk(notes, out) && x.regs == a.g
    requires var f := X86.ArithFlags(op, was, v, s);
      if notes.skip then fin == a && pol' == pol
      else pol' == ArithPol(op) && fin == WithFlags(a, f, ArithPol(op)).(x := a.x.(x3 := fin.x.x3))
    ensures Local(X86.State(x.regs, mem, X86.ArithFlags(op, was, v, s)), fin, pol', out)
  {
    hide X86.ArithFlags;
    NoCarry(op, was, v, s);
  }

  lemma NoCarry(op: X86.ArithOp, v: Word, y: Word, s: Size)
    ensures ArithPol(op) == CarryClear ==> !X86.ArithFlags(op, v, y, s).cf
  {
    hide Trunc, Bw, X86.AddFlags, X86.SubFlags;
  }

  lemma ArithMem(op: X86.ArithOp, s: Size, d: X86.Operand, o: X86.Operand, x: X86.State, mem: Memory, u: X86.Flags)
    requires d.Mem? && !o.Mem? && !CompareOnly(op)
    ensures var was, v, addr := Load(mem, EffAddr(d.m, x.regs), s), X86.Val(x, o, s), EffAddr(d.m, x.regs);
      Eval(Rmw(X86.Arith(op, s, d, o)), x.(mem := mem), u)
        == X86.State(x.regs, Store(mem, addr, X86.ArithResult(op, was, v, s), s), X86.ArithFlags(op, was, v, s))
  {
    hide EffAddr, Load, Store, X86.ArithResult, X86.ArithFlags, Trunc;
  }

  lemma IncAtomic(inc: bool, s: Size, was: Word, g: Word)
    requires was < Cap(s) && g == if inc then 1 else Trunc(-1, Wd(s))
    ensures AtomicValue(LDADD, was, g, s) == Trunc(if inc then was + 1 else was - 1, s)
  {
    hide Trunc;
    TruncTrunc(-1, s, Wd(s));
    TruncAdd(was, g, s);
    TruncAdd(was, -1, s);
  }

  lemma CommitInc(inc: bool, s: Size, d: X86.Operand, notes: Notes, pol: Pol, out: Live, x: X86.State, a: State,
                  mem: Memory)
    requires var l := Rmw(X86.IncDec(inc, s, d)); Legal(l) && NotesOk(notes, out) && Ready(l, pol, out, x, a)
    ensures Commits(Rmw(X86.IncDec(inc, s, d)), notes, pol, out, x, a, mem)
  {
    hide Exec, Trunc, EffAddr, Load, Store, AddrCode, AtomicValue, LockIncFlags, X86.AddFlags, X86.SubFlags;
    var l := Rmw(X86.IncDec(inc, s, d));
    var was := Load(mem, a.x.x16, s);
    IncAtomic(inc, s, was, a.x.x0);
    var a1 := a.(x := a.x.(x17 := was));
    IncMem(inc, s, d, x, mem, Seen(Exec(Lower(l, notes, pol).suffix, a1), pol));
    if notes.skip { ExecNil(a1); assert LockIncFlags(inc, s, notes) == [] by { NoIncFlags(inc, s, notes); } }
    else { LockIncOk(inc, s, notes, a1, was); }
  }

  lemma NoIncFlags(inc: bool, s: Size, notes: Notes)
    ensures notes.skip ==> LockIncFlags(inc, s, notes) == [] && LockNegFlags(s, notes) == []
  {
  }

  lemma IncMem(inc: bool, s: Size, d: X86.Operand, x: X86.State, mem: Memory, u: X86.Flags)
    requires d.Mem?
    ensures var addr := EffAddr(d.m, x.regs); var was := Load(mem, addr, s);
      Eval(Rmw(X86.IncDec(inc, s, d)), x.(mem := mem), u)
        == X86.State(x.regs, Store(mem, addr, Trunc(if inc then was + 1 else was - 1, s), s),
          SumFlags(!inc, was, 1, 0, s).(cf := x.f.cf))
  {
    hide EffAddr, Load, Store, X86.AddFlags, X86.SubFlags, Trunc;
  }

  /** XOR with all ones. */
  lemma {:induction false} XorOnes(v: nat, n: nat)
    requires v < Pow2(n)
    ensures Bw(BXor, v, Pow2(n) - 1) == Pow2(n) - 1 - v
  {
    if n > 0 {
      XorOnes(v / 2, n - 1);
      assert (Pow2(n) - 1) / 2 == Pow2(n - 1) - 1;
    }
  }

  lemma NotAtomic(s: Size, was: Word)
    requires was < Cap(s)
    ensures AtomicValue(LDEOR, was, Trunc(-1, Wd(s)), s) == Trunc(-1 - was, s)
  {
    hide Trunc, Bw, Pow2;
    CapPow2(s);
    TruncTrunc(-1, s, Wd(s));
    TruncNear(-1, s);
    TruncNear(-1 - (was as int), s);
    XorOnes(was, Bits(s));
    TruncSmall(Cap(s) - 1 - was, s);
  }

  lemma CommitNot(s: Size, d: X86.Operand, notes: Notes, pol: Pol, out: Live, x: X86.State, a: State, mem: Memory)
    requires var l := Rmw(X86.Not(s, d)); Legal(l) && NotesOk(notes, out) && Ready(l, pol, out, x, a)
    ensures Commits(Rmw(X86.Not(s, d)), notes, pol, out, x, a, mem)
  {
    hide Exec, Trunc, EffAddr, Load, Store, AddrCode, AtomicValue;
    var was := Load(mem, a.x.x16, s);
    NotAtomic(s, was);
    ExecNil(a.(x := a.x.(x17 := was)));
  }

  /** The body of the NEG loop. */
  lemma NegBody(s: Size, a: State, was: Word)
    requires was < Cap(s) && a.x.x17 == was
    ensures var b := Exec([ADDSUB(true, false, Wd(s), T(X1), ZR, Sh(T(X17), 0))], a);
      b == a.(x := a.x.(x1 := b.x.x1)) && Trunc(b.x.x1, s) == Trunc(0 - was, s)
  {
    hide Exec, Step, Trunc, RhsVal;
    var w := Wd(s);
    RhsPlain(a, T(X17), w);
    TruncSmall(was, w);
    TruncSmall(0, w);
    StepAddSub(a, true, w, T(X1), ZR, Sh(T(X17), 0));
    Exec1(ADDSUB(true, false, w, T(X1), ZR, Sh(T(X17), 0)), a);
    TruncTrunc(0 - was, s, w);
  }

  lemma StoreSame(mem: Memory, addr: Word, v: Word, u: Word, s: Size)
    requires Trunc(v, s) == u
    ensures Store(mem, addr, v, s) == Store(mem, addr, u, s)
  {
    hide StoreBytes;
  }

  lemma CommitNeg(s: Size, d: X86.Operand, notes: Notes, pol: Pol, out: Live, x: X86.State, a: State, mem: Memory)
    requires var l := Rmw(X86.Neg(s, d)); Legal(l) && NotesOk(notes, out) && Ready(l, pol, out, x, a)
    ensures Commits(Rmw(X86.Neg(s, d)), notes, pol, out, x, a, mem)
  {
    hide Exec, Trunc, EffAddr, Load, Store, AddrCode, LockNegFlags, X86.SubFlags;
    var l := Rmw(X86.Neg(s, d));
    var was := Load(mem, a.x.x16, s);
    NegBody(s, a.(x := a.x.(x17 := was)), was);
    var at := AtAccess(Lower(l, notes, pol).access, a, was);
    StoreSame(mem, a.x.x16, at.x.x1, Trunc(0 - (was as int), s), s);
    NegMem(s, d, x, mem,
      Seen(Exec(Lower(l, notes, pol).suffix, AfterAccess(Lower(l, notes, pol).access, at, was)),
        Lower(l, notes, pol).pol));
    var a1 := at.(x := at.x.(x5 := 0));
    if notes.skip { NoIncFlags(true, s, notes); ExecNil(a1); } else { LockNegOk(s, notes, a1, was); }
  }

  lemma NegMem(s: Size, d: X86.Operand, x: X86.State, mem: Memory, u: X86.Flags)
    requires d.Mem?
    ensures var addr := EffAddr(d.m, x.regs); var was := Load(mem, addr, s);
      Eval(Rmw(X86.Neg(s, d)), x.(mem := mem), u)
        == X86.State(x.regs, Store(mem, addr, Trunc(0 - was, s), s), X86.SubFlags(0, was, 0, s))
  {
    hide EffAddr, Load, Store, X86.SubFlags, Trunc;
  }

  /** The body of the ADC and SBB loop. */
  lemma AdcBody(sbb: bool, s: Size, b: Reg, a: State, was: Word, v: Word, c: nat)
    requires was < Cap(s) && a.x.x17 == was && Read(a, b, Wd(s)) == v && (b.G? || b == T(X2)) && a.x.x4 == c && c <= 1
    ensures var e :=
      Exec([ADDSUB(sbb, false, Wd(s), T(X1), T(X17), Sh(b, 0)),
        ADDSUB(sbb, false, Wd(s), T(X1), T(X1), Sh(T(X4), 0))], a);
      e == a.(x := a.x.(x1 := e.x.x1)) && Trunc(e.x.x1, s) == Trunc(SumOf(sbb, was, v, c), s)
  {
    hide Exec, Step, Trunc, RhsVal, SumOf;
    var w := Wd(s);
    var i, j := ADDSUB(sbb, false, w, T(X1), T(X17), Sh(b, 0)), ADDSUB(sbb, false, w, T(X1), T(X1), Sh(T(X4), 0));
    var first := if sbb then was - v else was + v;
    RhsPlain(a, b, w);
    StepAddSub(a, sbb, w, T(X1), T(X17), Sh(b, 0));
    var a1 := a.(x := a.x.(x1 := Trunc(first, w)));
    RhsPlain(a1, T(X4), w);
    TruncSmall(c, w);
    StepAddSub(a1, sbb, w, T(X1), T(X1), Sh(T(X4), 0));
    Exec2(i, j, a);
    AdcSum(sbb, s, was, v, c);
  }

  lemma AdcSum(sbb: bool, s: Size, was: Word, v: Word, c: nat)
    ensures var w, first := Wd(s), if sbb then was - v else was + v; var once := Trunc(first, w);
      Trunc(Trunc(if sbb then once - c else once + c, w), s) == Trunc(SumOf(sbb, was, v, c), s)
  {
    hide Trunc;
    var w, first := Wd(s), if sbb then was - v else was + v;
    TruncAdd(first, c, w);
    TruncAdd(first, 0 - (c as int), w);
    TruncTrunc(SumOf(sbb, was, v, c), s, w);
  }

  lemma CommitAdc(sbb: bool, s: Size, d: X86.Operand, o: X86.Operand, notes: Notes, pol: Pol, out: Live, x: X86.State,
                  a: State, mem: Memory)
    requires var l := Rmw(X86.AdcSbb(sbb, s, d, o)); Legal(l) && NotesOk(notes, out) && Ready(l, pol, out, x, a)
    ensures Commits(Rmw(X86.AdcSbb(sbb, s, d, o)), notes, pol, out, x, a, mem)
  {
    hide Exec, Trunc, EffAddr, X86.Val, LockSource, Load, Store, AddrCode, NarrowCarry, LockAdcWide, SumFlags,
         WithFlags, FlagsOk, Holds2, Read, Encodes, Target, Ready, Lower, LockAdc, AtAccess, Written, X86.Legal;
    var l := Rmw(X86.AdcSbb(sbb, s, d, o));
    AdcReady(sbb, s, d, o, notes, pol, out, x, a);
    var low := Lower(l, notes, pol);
    var was, v, c := Load(mem, a.x.x16, s), X86.Val(x, o, s), B2N(x.f.cf);
    var at := AtAccess(low.access, a, was);
    var a1 := at.(x := at.x.(x5 := 0));
    AdcAt(sbb, s, d, o, notes, pol, x, a, mem);
    AdcMem(sbb, s, d, o, x, mem, Seen(Exec(low.suffix, a1), low.pol));
    ExecNil(a1);
    if !notes.skip { AdcSuffix(sbb, s, o, x, LockSource(o, s).r, a1, was, low.suffix); }
    AdcLocal(sbb, s, x, Written(low.access, at, was, mem), a1, Exec(low.suffix, a1), was, v, notes, pol, low.pol, out);
  }

  /** What is ready before the access, and the lowering. */
  lemma AdcReady(sbb: bool, s: Size, d: X86.Operand, o: X86.Operand, notes: Notes, pol: Pol, out: Live, x: X86.State,
                 a: State)
    requires var l := Rmw(X86.AdcSbb(sbb, s, d, o)); Legal(l) && Ready(l, pol, out, x, a)
    ensures d.Mem? && !o.Mem? && x.regs == a.g && a.x.x16 == EffAddr(d.m, x.regs)
    ensures Holds2(o, s, x, LockSource(o, s).r, a) && a.x.x4 == B2N(x.f.cf)
    ensures var low := Lower(Rmw(X86.AdcSbb(sbb, s, d, o)), notes, pol);
      && low == LockAdc(sbb, s, d.m, o, notes, pol) && low.access.Loop? && low.access.s == s
      && low.suffix == (if notes.skip then [] else if Wide(s) then LockAdcWide(sbb, s, LockSource(o, s).r)
                        else NarrowCarry(sbb, s, LockSource(o, s).r, X4, X6))
      && low.pol == if notes.skip then pol else SumPol(sbb)
  {
    hide Holds2, EffAddr, LockAdcWide, NarrowCarry, LockSource, AddrCode, FlagsOk, Before;
  }

  lemma AdcAt(sbb: bool, s: Size, d: X86.Operand, o: X86.Operand, notes: Notes, pol: Pol, x: X86.State, a: State,
              mem: Memory)
    requires d.Mem? && Holds2(o, s, x, LockSource(o, s).r, a) && a.x.x4 == B2N(x.f.cf)
    ensures var was, b := Load(mem, a.x.x16, s), LockSource(o, s).r;
      var acc := LockAdc(sbb, s, d.m, o, notes, pol).access;
      var at := AtAccess(acc, a, was); var a1 := at.(x := at.x.(x5 := 0));
      && a1 == a.(x := a1.x) && a1.x.x17 == was < Cap(s) && a1.x.x4 == a.x.x4 && Holds2(o, s, x, b, a1)
      && Written(acc, at, was, mem) == Store(mem, a.x.x16, Trunc(SumOf(sbb, was, X86.Val(x, o, s), B2N(x.f.cf)), s), s)
  {
    hide Exec, Trunc, X86.Val, LockSource, Load, Store, AddrCode, NarrowCarry, LockAdcWide, Holds2, Read;
    var was, b := Load(mem, a.x.x16, s), LockSource(o, s).r;
    var a0 := a.(x := a.x.(x17 := was));
    AdcLoopBody(sbb, s, o, x, b, a, a0, was);
    var at := AtAccess(LockAdc(sbb, s, d.m, o, notes, pol).access, a, was);
    StoreSame(mem, a.x.x16, at.x.x1, Trunc(SumOf(sbb, was, X86.Val(x, o, s), B2N(x.f.cf)), s), s);
    SourceKept(o, s, x, b, a, at.(x := at.x.(x5 := 0)));
  }

  lemma AdcLoopBody(sbb: bool, s: Size, o: X86.Operand, x: X86.State, b: Reg, a: State, a0: State, was: Word)
    requires Holds2(o, s, x, b, a) && a0 == a.(x := a.x.(x17 := was)) && was < Cap(s) && a.x.x4 == B2N(x.f.cf)
    ensures var e :=
      Exec([ADDSUB(sbb, false, Wd(s), T(X1), T(X17), Sh(b, 0)),
        ADDSUB(sbb, false, Wd(s), T(X1), T(X1), Sh(T(X4), 0))], a0);
      e == a0.(x := a0.x.(x1 := e.x.x1)) && Trunc(e.x.x1, s) == Trunc(SumOf(sbb, was, X86.Val(x, o, s), B2N(x.f.cf)), s)
  {
    hide Exec, Trunc, X86.Val, LoadImm, ReadReg;
    SourceRead(o, s, x, b, a);
    SourceKept(o, s, x, b, a, a0);
    AdcBody(sbb, s, b, a0, was, X86.Val(x, o, s), B2N(x.f.cf));
  }

  /** The flag code after the loop. */
  lemma AdcSuffix(sbb: bool, s: Size, o: X86.Operand, x: X86.State, b: Reg, a: State, was: Word, suffix: seq<Instr>)
    requires Holds2(o, s, x, b, a) && a.x.x17 == was < Cap(s) && a.x.x4 == B2N(x.f.cf)
    requires suffix == if Wide(s) then LockAdcWide(sbb, s, b) else NarrowCarry(sbb, s, b, X4, X6)
    ensures var e := Exec(suffix, a);
      e == WithFlags(a, SumFlags(sbb, was, X86.Val(x, o, s), B2N(x.f.cf), s), SumPol(sbb)).(x := e.x)
  {
    hide Exec, Trunc, X86.Val, LockSource, NarrowCarry, LockAdcWide, SumFlags, WithFlags, Read;
    SourceRead(o, s, x, b, a);
    if Wide(s) {
      LockAdcWideOk(sbb, s, b, a, was, X86.Val(x, o, s), x.f.cf);
      WithX(a, SumFlags(sbb, was, X86.Val(x, o, s), B2N(x.f.cf), s), SumPol(sbb));
    } else {
      NarrowCarryOk(sbb, s, X2, X4, X6, a, was, X86.Val(x, o, s), B2N(x.f.cf));
    }
  }

  lemma WithX(a: State, f: X86.Flags, pol: Pol)
    ensures forall x: File, e: State :: e == WithFlags(a, f, pol).(x := x) ==> e == WithFlags(a, f, pol).(x := e.x)
  {
  }

  lemma AdcLocal(sbb: bool, s: Size, x: X86.State, mem: Memory, a: State, fin: State, was: Word, v: Word,
                 notes: Notes, pol: Pol, pol': Pol, out: Live)
    requires NotesOk(notes, out) && x.regs == a.g
    requires if notes.skip then fin == a && pol' == pol
      else pol' == SumPol(sbb) && fin == WithFlags(a, SumFlags(sbb, was, v, B2N(x.f.cf), s), SumPol(sbb)).(x := fin.x)
    ensures Local(X86.State(x.regs, mem, SumFlags(sbb, was, v, B2N(x.f.cf), s)), fin, pol', out)
  {
    hide SumFlags;
  }

  lemma AdcMem(sbb: bool, s: Size, d: X86.Operand, o: X86.Operand, x: X86.State, mem: Memory, u: X86.Flags)
    requires d.Mem? && !o.Mem?
    ensures var addr := EffAddr(d.m, x.regs); var was, v, c := Load(mem, addr, s), X86.Val(x, o, s), B2N(x.f.cf);
      Eval(Rmw(X86.AdcSbb(sbb, s, d, o)), x.(mem := mem), u)
        == X86.State(x.regs, Store(mem, addr, Trunc(SumOf(sbb, was, v, c), s), s), SumFlags(sbb, was, v, c, s))
  {
    hide EffAddr, Load, Store, X86.AddFlags, X86.SubFlags, Trunc, B2N;
  }

  lemma BitAtomicOk(op: X86.BitTestOp, s: Size, was: Word, k: nat)
    requires op != X86.Bt && was < Cap(s) && k < Bits(s)
    ensures Pow2(k) < Cap(s)
    ensures AtomicValue(BitAtomic(op), was, Pow2(k), s) == Trunc(X86.WithBit(op, was, k), s)
  {
    hide Trunc, Bw, Pow2, X86.WithBit;
    ChangeBit(op, was, k, s);
    Pow2Mono(k + 1, Bits(s));
    Pow2Double(k);
    CapPow2(s);
    TruncSmall(Pow2(k), s);
    TruncNear(-1 - (Pow2(k) as int), s);
  }

  lemma CommitBt(op: X86.BitTestOp, s: Size, d: X86.Operand, o: X86.Operand, notes: Notes, pol: Pol, out: Live,
                 x: X86.State, a: State, mem: Memory)
    requires var l := Rmw(X86.BitTest(op, s, d, o)); Legal(l) && NotesOk(notes, out) && Ready(l, pol, out, x, a)
    ensures Commits(Rmw(X86.BitTest(op, s, d, o)), notes, pol, out, x, a, mem)
  {
    hide Exec, Trunc, EffAddr, Load, Store, AddrCode, AtomicValue, BitMaskCode, Target, BitPos, X86.WithBit, Bit,
         BitTestCode, Pow2, X86.Eval;
    var l := Rmw(X86.BitTest(op, s, d, o));
    var was, k := Load(mem, a.x.x16, s), BitPos(x, o, s);
    BitAtomicOk(op, s, was, k);
    var a1 := a.(x := a.x.(x17 := was));
    ExecNil(a1);
    TargetAddress(x, d.m, o, s);
    BitMem(op, s, d, o, x, mem, Seen(Exec(Lower(l, notes, pol).suffix, a1), Lower(l, notes, pol).pol));
    if !notes.carryDead { LockBtTest(s, d, o, x, mem, a1, was); }
  }

  lemma LockBtTest(s: Size, d: X86.Operand, o: X86.Operand, x: X86.State, mem: Memory, a: State, was: Word)
    requires d.Mem? && s != S8 && (o.Imm? || o.Reg?) && a.x.x16 == EffAddr(Target(x, d, o, s).m, x.regs)
    requires Target(x, d, o, s).Mem? && was == Load(mem, a.x.x16, s) && a.x.x17 == was
      && (o.Reg? ==> a.x.x1 == BitPos(x, o, s))
    ensures var b := Exec(BitTestCode(s, T(X17), o), a);
      b == a.(x := a.x.(x2 := b.x.x2), c := Bit(was, BitPos(x, o, s)))
  {
    hide Exec, Trunc, EffAddr, Load, BitTestCode, Bit;
    var y := x.(mem := mem);
    SameTarget(x, mem, d, o, s);
    TruncSmall(was, Wd(s));
    BitTestOk(d, s, o, y, T(X17), a);
  }

  lemma SameTarget(x: X86.State, mem: Memory, d: X86.Operand, o: X86.Operand, s: Size)
    ensures Target(x.(mem := mem), d, o, s) == Target(x, d, o, s) && BitPos(x.(mem := mem), o, s) == BitPos(x, o, s)
  {
    hide EffAddr, Trunc;
  }

  lemma BitMem(op: X86.BitTestOp, s: Size, d: X86.Operand, o: X86.Operand, x: X86.State, mem: Memory, u: X86.Flags)
    requires d.Mem? && op != X86.Bt && Target(x, d, o, s).Mem?
    ensures var addr := EffAddr(Target(x, d, o, s).m, x.regs); var was, k := Load(mem, addr, s), BitPos(x, o, s);
      Eval(Rmw(X86.BitTest(op, s, d, o)), x.(mem := mem), u)
        == X86.State(x.regs, Store(mem, addr, Trunc(X86.WithBit(op, was, k), s), s),
          X86.Flags(u.sf, x.f.zf, Bit(was, k), u.of))
  {
    hide EffAddr, Load, Store, X86.WithBit, Trunc, Bit;
  }

  // ---- XADD, XCHG, CMPXCHG ---------------------------------------------------------------------------------

  /** The old value into the register operand. */
  lemma OldToReg(o: X86.Operand, s: Size, x: X86.State, a: State, was: Word)
    requires x.regs == a.g && PlainReg(o, s) && a.x.x17 == was
    ensures Exec(WriteReg(o, s, T(X17)), a) == a.(g := X86.Put(x, o, was, s).regs)
  {
    hide Exec, Trunc, WriteReg, Merge, MergeHigh;
    WriteRegOk(o, s, T(X17), a, x.(mem := a.mem), was);
  }

  lemma ExchangeMem(l: Locked, s: Size, m: MemRef, o: X86.Operand, x: X86.State, mem: Memory, u: X86.Flags)
    requires (l == Xadd(s, m, o) || l == Xchg(s, m, o)) && PlainReg(o, s)
    ensures var addr := EffAddr(m, x.regs); var was, b := Load(mem, addr, s), X86.Val(x, o, s);
      Eval(l, x.(mem := mem), u)
        == X86.State(X86.Put(x, o, was, s).regs, Store(mem, addr, if l.Xadd? then Trunc(was + b, s) else b, s),
                     if l.Xadd? then X86.AddFlags(was, b, 0, s) else x.f)
  {
    hide EffAddr, Load, Store, X86.AddFlags, Trunc, Merge, MergeHigh;
  }

  lemma CommitExchange(l: Locked, s: Size, m: MemRef, o: X86.Operand, notes: Notes, pol: Pol, out: Live, x: X86.State,
                       a: State, mem: Memory)
    requires (l == Xadd(s, m, o) || l == Xchg(s, m, o)) && Legal(l) && NotesOk(notes, out) && Ready(l, pol, out, x, a)
    ensures Commits(l, notes, pol, out, x, a, mem)
  {
    hide Exec, Trunc, EffAddr, X86.Val, X86.Put, LockSource, LockFlags, Load, Store, X86.AddFlags, AddrCode,
         WithFlags, FlagsOk, Holds2, WriteReg;
    var low := Lower(l, notes, pol);
    var b := LockSource(o, s).r;
    var was, v := Load(mem, a.x.x16, s), X86.Val(x, o, s);
    ValBound(x, o, s);
    SourceRead(o, s, x, b, a);
    TruncAdd(was, Get(a, b), s);
    var a1 := a.(x := a.x.(x17 := was));
    SourceKept(o, s, x, b, a, a1);
    ExchangeMem(l, s, m, o, x, mem, Seen(Exec(low.suffix, a1), low.pol));
    ExecNil(a1);
    if l.Xadd? && !notes.skip { SourceFlags(X86.Add, s, o, x, b, a1, was); }
    var flags := if l.Xadd? && !notes.skip then LockFlags(X86.Add, s, b) else [];
    var a2 := Exec(flags, a1);
    FlagsFrame(a1, was, v, s);
    OldToReg(o, s, x, a2, was);
    ExecCat(flags, WriteReg(o, s, T(X17)), a1);
    assert low.suffix == flags + WriteReg(o, s, T(X17));
    ExchangeLocal(l, s, x, Written(low.access, a, was, mem), a, a1, Exec(low.suffix, a1), was, v,
      X86.Put(x, o, was, s).regs, notes, pol, low.pol, out);
  }

  lemma FlagsFrame(a: State, was: Word, v: Word, s: Size)
    ensures X86.ArithFlags(X86.Add, was, v, s) == X86.AddFlags(was, v, 0, s)
    ensures WithFlags(a, X86.AddFlags(was, v, 0, s), CarryAdd).g == a.g
      && WithFlags(a, X86.AddFlags(was, v, 0, s), CarryAdd).x == a.x
  {
    hide X86.AddFlags;
  }

  lemma ExchangeLocal(l: Locked, s: Size, x: X86.State, mem: Memory, a0: State, a: State, fin: State, was: Word,
                      v: Word, regs: Regs, notes: Notes, pol: Pol, pol': Pol, out: Live)
    requires NotesOk(notes, out) && (l.Xadd? || l.Xchg?) && Local(x, a0, pol, LiveBefore(l, out)) && a == a0.(x := a.x)
    requires if l.Xchg? || notes.skip then fin == a.(g := regs) && pol' == pol
      else pol' == CarryAdd && fin == WithFlags(a, X86.AddFlags(was, v, 0, s), CarryAdd).(g := regs, x := fin.x)
    ensures Local(X86.State(regs, mem, if l.Xadd? then X86.AddFlags(was, v, 0, s) else x.f), fin, pol', out)
  {
    hide X86.AddFlags;
  }

  lemma EqualFlag(p: Word, q: Word, s: Size)
    requires p < Cap(s) && q < Cap(s)
    ensures X86.SubFlags(p, q, 0, s).zf <==> p == q
  {
    hide Trunc, Msb, SInt;
    TruncNear(p - q - 0, s);
  }

  /** Flags of CMP accumulator, old; then the accumulator gets the old value when they differ. */
  lemma CmpxchgTailOk(s: Size, x: X86.State, a: State, was: Word)
    requires x.regs == a.g && a.x.x0 == was < Cap(s)
    ensures var acc := Trunc(x.regs[RAX], s); var b := Exec(CmpxchgTail(s), a);
      b == WithFlags(a, X86.SubFlags(acc, was, 0, s), CarrySub).(x := b.x,
             g := if acc == was then x.regs else X86.Put(x, X86.Reg(RAX), was, s).regs)
  {
    hide Exec, Step, Trunc, RhsVal, X86.SubFlags, Merge, Insert;
    var acc := Trunc(x.regs[RAX], s);
    var f := X86.SubFlags(acc, was, 0, s);
    TruncBound(x.regs[RAX], s);
    TruncSmall(was, s);
    if Wide(s) {
      var cmp := ADDSUB(true, true, s, ZR, G(RAX), Sh(T(X0), 0));
      RhsPlain(a, T(X0), s);
      StepSums(a, true, s, ZR, G(RAX), Sh(T(X0), 0), acc, was);
      EqualFlag(acc, was, s);
      WideMerge(x.regs[RAX], was, s);
      CmpxchgWide(s, x, WithFlags(a, f, CarrySub), was, acc);
      Exec2(cmp, CmpxchgTail(s)[1], a);
    } else {
      CmpxchgNarrow(s, x, a, was);
    }
  }

  lemma CmpxchgWide(s: Size, x: X86.State, a: State, was: Word, acc: Word)
    requires Wide(s) && x.regs == a.g && a.x.x0 == was < Cap(s) && acc == Trunc(x.regs[RAX], s) && (a.z <==> acc == was)
    ensures var b := Step(CmpxchgTail(s)[1], a);
      b == a.(g := if acc == was then x.regs else x.regs[RAX := was])
  {
    hide Trunc;
    TruncSmall(was, S64);
    TruncSmall(x.regs[RAX], S64);
    if acc == was { assert x.regs[RAX := x.regs[RAX]] == x.regs; }
  }

  lemma CmpxchgNarrow(s: Size, x: X86.State, a: State, was: Word)
    requires !Wide(s) && x.regs == a.g && a.x.x0 == was < Cap(s)
    ensures var acc := Trunc(x.regs[RAX], s); var b := Exec(CmpxchgTail(s), a);
      b == WithFlags(a, X86.SubFlags(acc, was, 0, s), CarrySub).(x := b.x,
             g := if acc == was then x.regs else X86.Put(x, X86.Reg(RAX), was, s).regs)
  {
    hide Exec, Step, Trunc, RhsVal, X86.SubFlags, Merge, Insert, Lsl, Shifted, Low;
    var acc, rax, sh := Trunc(x.regs[RAX], s), x.regs[RAX], TopShift(s);
    var i, j, k := SHIFT(LSL, S32, T(X1), G(RAX), ByLit(sh)), ADDSUB(true, true, S32, ZR, T(X1), Sh(T(X0), sh)),
      BFI(G(RAX), T(X0), 0, Bits(s));
    TruncBound(rax, s);
    TopAligned(true, acc, was, s);
    TopOfFull(rax, s);
    StepShift(a, LSL, S32, T(X1), G(RAX), sh);
    var a1 := a.(x := a.x.(x1 := Lsl(acc, sh)));
    RhsSh(a1, X0, sh, S32);
    TruncSmall(Lsl(was, sh), S32);
    TruncSmall(Lsl(acc, sh), S32);
    StepSums(a1, true, S32, ZR, T(X1), Sh(T(X0), sh), Lsl(acc, sh), Lsl(was, sh));
    var a2 := WithFlags(a1, X86.SubFlags(acc, was, 0, s), CarrySub);
    InsertLow(rax, was, s);
    TruncSmall(was, s);
    ShiftSim.MergeOwn(rax, s);
    BfiStep(a2, s, was);
    Exec3(i, j, k, a);
    if acc == was { assert x.regs[RAX := rax] == x.regs; }
  }

  lemma BfiStep(a: State, s: Size, was: Word)
    requires a.x.x0 == was
    ensures Step(BFI(G(RAX), T(X0), 0, Bits(s)), a) == a.(g := a.g[RAX := Insert(a.g[RAX], was, 0, Bits(s))])
  {
    hide Insert;
  }

  /** Shifting a register to the top drops what is above its low bits. */
  lemma TopOfFull(v: Word, s: Size)
    requires !Wide(s)
    ensures Lsl(Trunc(v, s), TopShift(s)) >= 0
    ensures Shifted(LSL, Trunc(v, S32), TopShift(s), S32) == Lsl(Trunc(v, s), TopShift(s))
  {
    hide Lsl, Lsr, Low;
    TruncLow(Lsl(Trunc(v, S32), TopShift(s)), S32);
    LowLsl(Trunc(v, S32), Bits(s), TopShift(s));
    TruncTrunc(v, s, S32);
    TruncLow(Trunc(v, S32), s);
    LslPow2(Trunc(v, s), TopShift(s));
  }

  lemma CmpxchgMem(s: Size, m: MemRef, o: X86.Operand, x: X86.State, mem: Memory, u: X86.Flags)
    requires PlainReg(o, s)
    ensures var addr := EffAddr(m, x.regs);
      var was, b, acc := Load(mem, addr, s), X86.Val(x, o, s), Trunc(x.regs[RAX], s);
      Eval(Cmpxchg(s, m, o), x.(mem := mem), u)
        == X86.State(if acc == was then x.regs else X86.Put(x, X86.Reg(RAX), was, s).regs,
                     if acc == was then Store(mem, addr, b, s) else mem, X86.SubFlags(acc, was, 0, s))
  {
    hide EffAddr, Load, Store, X86.SubFlags, Trunc, Merge, MergeHigh;
  }

  lemma CommitCas(s: Size, m: MemRef, o: X86.Operand, notes: Notes, pol: Pol, out: Live, x: X86.State, a: State,
                  mem: Memory)
    requires var l := Cmpxchg(s, m, o); Legal(l) && NotesOk(notes, out) && Ready(l, pol, out, x, a)
    ensures Commits(Cmpxchg(s, m, o), notes, pol, out, x, a, mem)
  {
    hide Exec, Trunc, EffAddr, X86.Val, X86.Put, LockSource, CmpxchgTail, Load, Store, X86.SubFlags, AddrCode,
         Accumulator, Holds2;
    var l := Cmpxchg(s, m, o);
    var low := Lower(l, notes, pol);
    var b := LockSource(o, s).r;
    var was := Load(mem, a.x.x16, s);
    SourceRead(o, s, x, b, a);
    TruncAdd(Get(a, b), 0, s);
    TruncAdd(x.regs[RAX], 0, s);
    StoreSame(mem, a.x.x16, Get(a, b), X86.Val(x, o, s), s);
    var a1 := a.(x := a.x.(x0 := was));
    CmpxchgMem(s, m, o, x, mem, Seen(Exec(low.suffix, a1), low.pol));
    CmpxchgTailOk(s, x, a1, was);
  }

  /** Every locked operation commits in its one access. */
  lemma CommitOk(l: Locked, notes: Notes, pol: Pol, out: Live, x: X86.State, a: State, mem: Memory)
    requires Legal(l) && NotesOk(notes, out) && Ready(l, pol, out, x, a)
    ensures Commits(l, notes, pol, out, x, a, mem)
  {
    hide Commits, Ready, NotesOk;
    match l
    case Rmw(Arith(op, s, d, o)) => CommitArith(op, s, d, o, notes, pol, out, x, a, mem);
    case Rmw(IncDec(inc, s, d)) => CommitInc(inc, s, d, notes, pol, out, x, a, mem);
    case Rmw(Not(s, d)) => CommitNot(s, d, notes, pol, out, x, a, mem);
    case Rmw(Neg(s, d)) => CommitNeg(s, d, notes, pol, out, x, a, mem);
    case Rmw(AdcSbb(sbb, s, d, o)) => CommitAdc(sbb, s, d, o, notes, pol, out, x, a, mem);
    case Rmw(BitTest(op, s, d, o)) => CommitBt(op, s, d, o, notes, pol, out, x, a, mem);
    case Rmw(_) =>
    case Xadd(s, m, o) => CommitExchange(l, s, m, o, notes, pol, out, x, a, mem);
    case Xchg(s, m, o) => CommitExchange(l, s, m, o, notes, pol, out, x, a, mem);
    case Cmpxchg(s, m, o) => CommitCas(s, m, o, notes, pol, out, x, a, mem);
  }
}
