/** Lowering INC, DEC, NEG and NOT is correct. INC and DEC keep CF: the 8- and 16-bit forms never
    touch C, the wide ones restore it when CF is live. */
module SimUnary {
  import opened Words
  import opened Guest
  import X86
  import opened Arm
  import opened Lifter
  import opened Effects
  import opened Steps
  import opened Operands
  import opened Flags
  import opened Relation

  function UnarySum(inc: bool, x: Word): int { SumOf(!inc, x, 1, 0) }

  /** 8- and 16-bit INC and DEC: the result in x3, N, Z and V of it, C kept. */
  lemma IncNarrowOk(inc: bool, s: Size, a: State, x: Word)
    requires !Wide(s) && x < Cap(s) && a.x.x17 == x
    ensures var code := [SXT(s, S32, T(X3), T(X17)), ADDSUB(!inc, false, S32, T(X3), T(X3), Lit(1)), SETF(s, T(X3))];
      var v := Trunc(SumOf(!inc, SInt(x, s), 1, 0), S32);
      && Exec(code, a) == Set(WithNZV(a, SumFlags(!inc, x, 1, 0, s)), T(X3), v)
      && Trunc(v, s) == Trunc(UnarySum(inc, x), s)
  {
    hide Exec, Step, Trunc, SInt, RhsVal, SumFlags;
    var i, j, k := SXT(s, S32, T(X3), T(X17)), ADDSUB(!inc, false, S32, T(X3), T(X3), Lit(1)), SETF(s, T(X3));
    var sx := SInt(x, s);
    var v := Trunc(SumOf(!inc, sx, 1, 0), S32);
    var b := Set(a, T(X3), Trunc(sx, S32));
    var c := Set(a, T(X3), v);
    OneSInt(s);
    StepSxt(a, s, S32, T(X3), T(X17));
    LitOk(b, 1, S32);
    StepAddSub(b, !inc, S32, T(X3), T(X3), Lit(1));
    TruncAdd(sx, 1, S32);
    TruncAdd(sx, -1, S32);
    SetfSum(c, X3, !inc, x, 1, 0, s);
    Exec3(i, j, k, a);
  }

  lemma OneSInt(s: Size)
    ensures SInt(1, s) == 1
  {
  }

  /** Wide INC and DEC, with C saved in x2 and restored when CF is live. */
  lemma IncWideOk(inc: bool, s: Size, r: Reg, keep: bool, a: State, x: Word) returns (f: State)
    requires Wide(s) && x < Cap(s) && Read(a, r, s) == x && (r.G? || r == T(X17))
    ensures var code := (if keep then [CSET(S32, T(X2), CS)] else []) + [ADDSUB(!inc, true, s, r, r, Lit(1))]
                        + (if keep then [RMIF(T(X2), 63, 2)] else []);
      && Exec(code, a) == Set(f, r, Trunc(UnarySum(inc, x), s))
      && f == WithNZV(a, SumFlags(!inc, x, 1, 0, s)).(x := f.x, c := f.c) && f.x.x16 == a.x.x16
      && (keep ==> f.c == a.c)
  {
    hide Exec, Step, Trunc, RhsVal, SumFlags, Set, WithFlags, UnarySum;
    UnaryDef(inc, x);
    var add := ADDSUB(!inc, true, s, r, r, Lit(1));
    var b := if keep then Set(a, T(X2), B2N(a.c)) else a;
    var v := Trunc(SumOf(!inc, x, 1, 0), s);
    LitOk(b, 1, s);
    ReadOther(a, X2, B2N(a.c), r, s);
    StepSums(b, !inc, s, r, r, Lit(1), x, 1);
    var g := WithFlags(b, SumFlags(!inc, x, 1, 0, s), SumPol(!inc));
    if keep {
      f := g.(c := a.c);
      var i, j := CSET(S32, T(X2), CS), RMIF(T(X2), 63, 2);
      StepCset(a, X2, CS);
      RmifC(Set(g, r, v), T(X2));
      KeepX2(a, b, g, r, v, SumFlags(!inc, x, 1, 0, s), SumPol(!inc));
      Exec3(i, add, j, a);
      assert [i] + [add] + [j] == [i, add, j];
    } else {
      f := g;
      FlagsNZV(a, SumFlags(!inc, x, 1, 0, s), SumPol(!inc));
      Exec1(add, a);
      assert [] + [add] + [] == [add];
    }
  }

  lemma FlagsNZV(a: State, f: X86.Flags, pol: Pol)
    ensures WithFlags(a, f, pol) == WithNZV(a, f).(c := WithFlags(a, f, pol).c)
  {
  }

  lemma UnaryDef(inc: bool, x: Word)
    ensures UnarySum(inc, x) == SumOf(!inc, x, 1, 0)
  {
  }

  /** x2 survives the operation on r, and C can be restored after it. */
  lemma KeepX2(a: State, b: State, g: State, r: Reg, v: Word, f: X86.Flags, pol: Pol)
    requires b == Set(a, T(X2), B2N(a.c)) && g == WithFlags(b, f, pol) && (r.G? || r == T(X17))
    ensures Get(Set(g, r, v), T(X2)) % 2 == 1 <==> a.c
    ensures Set(g.(c := a.c), r, v) == Set(g, r, v).(c := a.c)
    ensures g.(c := a.c) == WithNZV(a, f).(x := g.x) && g.x.x16 == a.x.x16
  {
  }

  lemma IncPlainOk(inc: bool, s: Size, r: Reg, a: State, x: Word)
    requires Read(a, r, Wd(s)) == x
    ensures var v := Trunc(UnarySum(inc, x), Wd(s));
      && Exec([ADDSUB(!inc, false, Wd(s), r, r, Lit(1))], a) == Set(a, r, v)
      && v < Cap(Wd(s)) && Trunc(v, s) == Trunc(UnarySum(inc, x), s)
  {
    hide Exec, Step, Trunc, RhsVal, Set, Get;
    LitOk(a, 1, Wd(s));
    StepAddSub(a, !inc, Wd(s), r, r, Lit(1));
    TruncAdd(Get(a, r), if inc then 1 else -1, Wd(s));
    TruncTrunc(UnarySum(inc, x), s, Wd(s));
    TruncBound(UnarySum(inc, x), Wd(s));
    Exec1(ADDSUB(!inc, false, Wd(s), r, r, Lit(1)), a);
  }

  lemma IncDecWideExec(inc: bool, s: Size, d: X86.Operand, notes: Notes, pol: Pol, x: X86.State, a: State)
    requires Agree(x, a) && X86.LegalDst(d, s) && Wide(s) && !notes.skip
    ensures var va := X86.Val(x, d, s); var y := X86.Put(x, d, Trunc(UnarySum(inc, va), s), s);
      var f := if notes.skip then a else WithNZV(a, SumFlags(!inc, va, 1, 0, s));
      var b := Exec(LiftIncDec(inc, s, d, notes, pol).code, a);
      && b == f.(g := y.regs, mem := y.mem, x := b.x, c := b.c)
      && (notes.skip || !notes.carryDead || !Wide(s) ==> b.c == a.c)
  {
    hide Exec, Step, Trunc, SInt, RhsVal, SumFlags, X86.Val, X86.Put, LoadDst, StoreDst, EffAddr, UnarySum, Set;
    var l := LoadDst(d, s);
    var va := X86.Val(x, d, s);
    var res := Trunc(UnarySum(inc, va), s);
    LoadDstOk(d, s, a, x);
    ValBound(x, d, s);
    var b := Exec(l.code, a);
    TruncBound(UnarySum(inc, va), s);
    TruncSmall(res, s);
    var keep := !notes.carryDead;
    var f := IncWideOk(inc, s, l.r, keep, b, va);
    var code := (if keep then [CSET(S32, T(X2), CS)] else []) + [ADDSUB(!inc, true, s, l.r, l.r, Lit(1))]
                + (if keep then [RMIF(T(X2), 63, 2)] else []);
    Around(d, s, l.r, code, a, x, f, res, res);
    assert l.code + code + StoreDst(d, s, l.r) == LiftIncDec(inc, s, d, notes, pol).code;
  }

  lemma IncDecExec(inc: bool, s: Size, d: X86.Operand, notes: Notes, pol: Pol, x: X86.State, a: State)
    requires Agree(x, a) && X86.LegalDst(d, s)
    ensures var va := X86.Val(x, d, s); var y := X86.Put(x, d, Trunc(UnarySum(inc, va), s), s);
      var f := if notes.skip then a else WithNZV(a, SumFlags(!inc, va, 1, 0, s));
      var b := Exec(LiftIncDec(inc, s, d, notes, pol).code, a);
      && b == f.(g := y.regs, mem := y.mem, x := b.x, c := b.c)
      && (notes.skip || !notes.carryDead || !Wide(s) ==> b.c == a.c)
  {
    hide Exec, Step, Trunc, SInt, RhsVal, SumFlags, X86.Val, X86.Put, LoadDst, StoreDst, EffAddr, UnarySum, Set;
    var l := LoadDst(d, s);
    var va := X86.Val(x, d, s);
    var res := Trunc(UnarySum(inc, va), s);
    LoadDstOk(d, s, a, x);
    ValBound(x, d, s);
    var b := Exec(l.code, a);
    TruncBound(UnarySum(inc, va), s);
    TruncSmall(res, s);
    if notes.skip {
      IncPlainOk(inc, s, l.r, b, va);
      Around(d, s, l.r, [ADDSUB(!inc, false, Wd(s), l.r, l.r, Lit(1))], a, x, b, Trunc(UnarySum(inc, va), Wd(s)), res);
    } else if !Wide(s) {
      IncNarrowOk(inc, s, b, va);
      var code := [SXT(s, S32, T(X3), T(X17)), ADDSUB(!inc, false, S32, T(X3), T(X3), Lit(1)), SETF(s, T(X3))];
      var v := Trunc(SumOf(!inc, SInt(va, s), 1, 0), S32);
      TruncBound(SumOf(!inc, SInt(va, s), 1, 0), S32);
      Around(d, s, T(X3), code, a, x, WithNZV(b, SumFlags(!inc, va, 1, 0, s)), v, res);
    } else {
      IncDecWideExec(inc, s, d, notes, pol, x, a);
    }
  }

  lemma IncDecSim(inc: bool, s: Size, d: X86.Operand, notes: Notes, pol: Pol, out: Live, x: X86.State, a: State)
    requires X86.Legal(X86.IncDec(inc, s, d)) && NotesOk(notes, out)
    requires Related(x, a, pol, Before(X86.IncDec(inc, s, d), out))
    ensures Simulated(X86.IncDec(inc, s, d), x, a, LiftIncDec(inc, s, d, notes, pol), out)
  {
    hide Exec, X86.Val, LoadDst, StoreDst, Trunc, SInt, Msb;
    IncDecExec(inc, s, d, notes, pol, x, a);
  }

  // ---- NEG and NOT --------------------------------------------------------------------------

  lemma NegNarrowOk(s: Size, a: State, x: Word)
    requires !Wide(s) && x < Cap(s) && a.x.x17 == x
    ensures var sh := TopShift(s);
      var code := [SHIFT(LSL, S32, T(X3), T(X17), ByLit(sh)), ADDSUB(true, true, S32, T(X3), ZR, Sh(T(X3), 0)),
                   SHIFT(LSR, S32, T(X3), T(X3), ByLit(sh))];
      Exec(code, a) == Set(WithFlags(a, SumFlags(true, 0, x, 0, s), CarrySub), T(X3), Trunc(0 - x, s))
  {
    hide Exec, Step, Trunc, Lsl, RhsVal, SumFlags, Shifted, WithFlags;
    var sh := TopShift(s);
    var i, j, k := SHIFT(LSL, S32, T(X3), T(X17), ByLit(sh)), ADDSUB(true, true, S32, T(X3), ZR, Sh(T(X3), 0)),
                   SHIFT(LSR, S32, T(X3), T(X3), ByLit(sh));
    var x', r := Lsl(x, sh), Trunc(0 - x, s);
    TopAligned(true, 0, x, s);
    Zeros(sh);
    LslSmall(x, sh);
    var b := Set(a, T(X3), x');
    StepShift(a, LSL, S32, T(X3), T(X17), sh);
    RhsPlain(b, T(X3), S32);
    TruncSmall(x', S32);
    TruncSmall(0, S32);
    StepSums(b, true, S32, T(X3), ZR, Sh(T(X3), 0), 0, x');
    var g := WithFlags(a, SumFlags(true, 0, x, 0, s), CarrySub);
    FlagsSet(a, X3, x', SumFlags(true, 0, x, 0, s), CarrySub);
    TruncBound(0 - x, s);
    TopNZ(r, s);
    var c := Set(g, T(X3), Lsl(r, sh));
    TruncSmall(Lsl(r, sh), S32);
    StepShift(c, LSR, S32, T(X3), T(X3), sh);
    Exec3(i, j, k, a);
  }

  lemma Zeros(sh: nat)
    ensures Lsl(0, sh) == 0
  {
    LslPow2(0, sh);
  }

  lemma LslSmall(x: Word, sh: nat)
    requires sh < 32 && x < 0x1_0000_0000 && 0 <= Lsl(x, sh) < 0x1_0000_0000
    ensures Shifted(LSL, Trunc(x, S32), sh, S32) == Lsl(x, sh)
  {
    hide Lsl;
  }

  lemma FlagsSet(a: State, t: Scratch, v: Word, f: X86.Flags, pol: Pol)
    ensures WithFlags(Set(a, T(t), v), f, pol) == Set(WithFlags(a, f, pol), T(t), v)
    ensures forall u: Word :: Set(Set(WithFlags(a, f, pol), T(t), v), T(t), u) == Set(WithFlags(a, f, pol), T(t), u)
  {
  }

  lemma NegExec(s: Size, d: X86.Operand, notes: Notes, pol: Pol, x: X86.State, a: State)
    requires Agree(x, a) && X86.LegalDst(d, s)
    ensures var va := X86.Val(x, d, s); var y := X86.Put(x, d, Trunc(0 - va, s), s);
      var f := if notes.skip then a else WithFlags(a, SumFlags(true, 0, va, 0, s), CarrySub);
      var b := Exec(LiftNeg(s, d, notes, pol).code, a);
      b == f.(g := y.regs, mem := y.mem, x := b.x)
  {
    hide Exec, Step, Trunc, RhsVal, SumFlags, X86.Val, X86.Put, LoadDst, StoreDst, EffAddr, Set, WithFlags;
    var l := LoadDst(d, s);
    var va := X86.Val(x, d, s);
    var w := Wd(s);
    var neg := 0 - (va as int);
    var v, res := Trunc(neg, w), Trunc(neg, s);
    LoadDstOk(d, s, a, x);
    ValBound(x, d, s);
    var b := Exec(l.code, a);
    FlagsFrame(a, b, SumFlags(true, 0, va, 0, s), CarrySub);
    TruncAdd(neg, 0, s);
    TruncTrunc(neg, s, w);
    TruncBound(neg, w);
    RhsPlain(b, l.r, w);
    TruncSmall(0, w);
    if notes.skip {
      var sub := ADDSUB(true, false, w, l.r, ZR, Sh(l.r, 0));
      StepAddSub(b, true, w, l.r, ZR, Sh(l.r, 0));
      Exec1(sub, b);
      Around(d, s, l.r, [sub], a, x, b, v, res);
    } else if !Wide(s) {
      NegNarrowOk(s, b, va);
      var sh := TopShift(s);
      var code := [SHIFT(LSL, S32, T(X3), T(X17), ByLit(sh)), ADDSUB(true, true, S32, T(X3), ZR, Sh(T(X3), 0)),
                   SHIFT(LSR, S32, T(X3), T(X3), ByLit(sh))];
      TruncBound(neg, s);
      Around(d, s, T(X3), code, a, x, WithFlags(b, SumFlags(true, 0, va, 0, s), CarrySub), res, res);
    } else {
      var negs := ADDSUB(true, true, s, l.r, ZR, Sh(l.r, 0));
      StepSums(b, true, s, l.r, ZR, Sh(l.r, 0), 0, va);
      Exec1(negs, b);
      Around(d, s, l.r, [negs], a, x, WithFlags(b, SumFlags(true, 0, va, 0, s), CarrySub), v, res);
    }
  }

  lemma FlagsFrame(a: State, b: State, f: X86.Flags, pol: Pol)
    requires b == a.(x := b.x)
    ensures var g := WithFlags(b, f, pol);
      g == WithFlags(a, f, pol).(x := b.x) && g.g == b.g && g.mem == b.mem && g.x == b.x
  {
  }

  lemma NegSim(s: Size, d: X86.Operand, notes: Notes, pol: Pol, out: Live, x: X86.State, a: State)
    requires X86.Legal(X86.Neg(s, d)) && NotesOk(notes, out)
    requires Related(x, a, pol, Before(X86.Neg(s, d), out))
    ensures Simulated(X86.Neg(s, d), x, a, LiftNeg(s, d, notes, pol), out)
  {
    hide Exec, X86.Val, LoadDst, StoreDst, Trunc, SInt, Msb;
    NegExec(s, d, notes, pol, x, a);
  }

  lemma NotSim(s: Size, d: X86.Operand, pol: Pol, out: Live, x: X86.State, a: State)
    requires X86.Legal(X86.Not(s, d))
    requires Related(x, a, pol, Before(X86.Not(s, d), out))
    ensures Simulated(X86.Not(s, d), x, a, LiftNot(s, d, pol), out)
  {
    hide Exec, Step, X86.Val, X86.Put, LoadDst, StoreDst, Trunc, Set, EffAddr;
    var l := LoadDst(d, s);
    var va := X86.Val(x, d, s);
    var inv := -1 - (va as int);
    var v, res := Trunc(inv, Wd(s)), Trunc(inv, s);
    LoadDstOk(d, s, a, x);
    var b := Exec(l.code, a);
    StepMvn(b, Wd(s), l.r, l.r);
    TruncAdd(-1, Get(b, l.r), Wd(s));
    TruncTrunc(inv, s, Wd(s));
    TruncBound(inv, Wd(s));
    TruncAdd(inv, 0, s);
    Exec1(MVN(Wd(s), l.r, l.r), b);
    Around(d, s, l.r, [MVN(Wd(s), l.r, l.r)], a, x, b, v, res);
    PutKeepsFlags(x, d, res, s);
  }

  lemma PutKeepsFlags(x: X86.State, d: X86.Operand, v: Word, s: Size)
    ensures X86.Put(x, d, v, s).f == x.f
  {
  }
}
