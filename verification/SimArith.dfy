/** Lowering ADD, SUB, CMP, AND, OR, XOR and TEST is correct at every operand size, for every operand
    and in every incoming carry sense. */
module SimArith {
  import opened Words
  import opened Guest
  import X86
  import opened Arm
  import opened Lifter
  import opened Effects
  import opened Steps
  import opened Operands
  import opened Flags
  import opened Relation

  // ---- the operation itself ----------------------------------------------------------------

  lemma LogicalIs(op: X86.ArithOp, x: Word, y: Word, w: Size)
    requires !AddOrSub(op)
    ensures Logical(ArmLogOp(op), x, y, w) == X86.ArithResult(op, x, y, w)
  {
    hide Bw, Trunc;
  }

  lemma ResultBound(op: X86.ArithOp, x: Word, y: Word, s: Size)
    ensures X86.ArithResult(op, x, y, s) < Cap(s)
  {
    hide Bw;
  }

  lemma AluOneOk(op: X86.ArithOp, w: Size, d: Reg, n: Reg, m: Rhs, a: State, x: Word, y: Word)
    requires Read(a, n, w) == x && RhsVal(a, m, w) == y
    ensures Step(AluOne(op, false, w, d, n, m), a) == Set(a, d, X86.ArithResult(op, x, y, w))
  {
    hide Set, Trunc, RhsVal, Logical, Get;
    if AddOrSub(op) {
      StepAddSub(a, op != X86.Add, w, d, n, m);
      TruncAdd(Get(a, n), y, w);
      TruncAdd(Get(a, n), 0 - y, w);
    } else {
      LogicalIs(op, x, y, w);
    }
  }

  lemma AluSetOk(op: X86.ArithOp, w: Size, d: Reg, n: Reg, m: Rhs, a: State, x: Word, y: Word)
    requires Read(a, n, w) == x && RhsVal(a, m, w) == y
    requires AddOrSub(op) || ArmLogOp(op) == AND
    ensures Step(AluOne(op, true, w, d, n, m), a)
         == Set(WithFlags(a, X86.ArithFlags(op, x, y, w), ArithPol(op)), d, X86.ArithResult(op, x, y, w))
  {
    hide Set, Trunc, RhsVal, Logical, Get, AddSub, Msb, SInt;
    if AddOrSub(op) {
      TruncBound(Get(a, n), w);
      RhsBound(a, m, w);
      AddSubFlags(a, op != X86.Add, false, w, d, x, y);
    } else {
      LogicalIs(op, x, y, w);
    }
  }

  /** TST d, d sets the flags of a logical result that d holds. */
  lemma TstOk(op: X86.ArithOp, w: Size, d: Reg, a: State, x: Word, y: Word)
    requires !AddOrSub(op) && Get(a, d) == X86.ArithResult(op, x, y, w)
    ensures Step(LOGIC(AND, true, w, ZR, d, Sh(d, 0)), a)
         == WithFlags(a, X86.ArithFlags(op, x, y, w), CarryClear)
  {
    hide Trunc, RhsVal, Get, Msb, Bw;
    var r := Get(a, d);
    ResultBound(op, x, y, w);
    TruncSmall(r, w);
    RhsPlain(a, d, w);
    BwSame(r);
  }

  lemma AluFlagsOk(op: X86.ArithOp, w: Size, d: Reg, n: Reg, m: Rhs, a: State, x: Word, y: Word)
    requires Read(a, n, w) == x && RhsVal(a, m, w) == y
    requires d == ZR ==> AddOrSub(op) || ArmLogOp(op) == AND
    ensures Exec(AluFlags(op, w, d, n, m), a)
         == Set(WithFlags(a, X86.ArithFlags(op, x, y, w), ArithPol(op)), d, X86.ArithResult(op, x, y, w))
  {
    hide Exec, Step, AluOne, Read, RhsVal, X86.ArithResult, X86.ArithFlags;
    if AddOrSub(op) || ArmLogOp(op) == AND {
      AluSetOk(op, w, d, n, m, a, x, y);
      Exec1(AluOne(op, true, w, d, n, m), a);
    } else {
      var r := X86.ArithResult(op, x, y, w);
      AluOneOk(op, w, d, n, m, a, x, y);
      GetSet(a, d, r, r);
      TstOk(op, w, d, Set(a, d, r), x, y);
      Exec2(AluOne(op, false, w, d, n, m), LOGIC(AND, true, w, ZR, d, Sh(d, 0)), a);
    }
  }

  // ---- 8 and 16 bits ------------------------------------------------------------------------

  /** Result and flags of the top-aligned operation are the narrow ones. */
  lemma TopArith(op: X86.ArithOp, x: Word, y: Word, s: Size)
    requires !Wide(s) && x < Cap(s) && y < Cap(s)
    ensures var sh := TopShift(s);
      && 0 <= Lsl(x, sh) < Cap(S32) && 0 <= Lsl(y, sh) < Cap(S32)
      && X86.ArithFlags(op, Lsl(x, sh), Lsl(y, sh), S32) == X86.ArithFlags(op, x, y, s)
      && X86.ArithResult(op, Lsl(x, sh), Lsl(y, sh), S32) == Lsl(X86.ArithResult(op, x, y, s), sh)
  {
    hide Lsl, Trunc, Bw, SInt, Msb;
    var sh := TopShift(s);
    TopAligned(op != X86.Add, x, y, s);
    if !AddOrSub(op) {
      var r := Bw(X86.LogicOp(op), x, y);
      BwLsl(X86.LogicOp(op), x, y, sh);
      BwTrunc(X86.LogicOp(op), x, y, s);
      TruncSmall(r, s);
      TopNZ(r, s);
      TruncSmall(Lsl(r, sh), S32);
    }
  }

  lemma NarrowResult(op: X86.ArithOp, x: Word, y: Word, s: Size)
    requires x < Cap(s) && y < Cap(s) && !Wide(s)
    ensures Trunc(X86.ArithResult(op, x, y, S32), s) == X86.ArithResult(op, x, y, s)
  {
    hide Trunc, Bw;
    TruncTrunc(x + y, s, S32);
    TruncTrunc(x - y, s, S32);
    TruncTrunc(Bw(X86.LogicOp(op), x, y), s, S32);
  }

  lemma NarrowFlagsOk(op: X86.ArithOp, s: Size, t: Scratch, a: State, x: Word, y: Word)
    requires !Wide(s) && t != X17
    requires x < Cap(s) && y < Cap(s) && a.x.x17 == x && Peek(a.x, t) == y
    ensures var b := Exec(ArithCore(op, s, T(X17), Sh(T(t), 0), true), a);
      var f := WithFlags(a, X86.ArithFlags(op, x, y, s), ArithPol(op));
      b == Set(f, T(X17), b.x.x17) && b.x.x17 < Cap(S32)
        && (!CompareOnly(op) ==> b.x.x17 == X86.ArithResult(op, x, y, s))
  {
    hide Lsl, Trunc, Exec, Step, X86.ArithResult, X86.ArithFlags, Shifted, AluFlags, WithFlags, Set, Get;
    var sh := TopShift(s);
    var lsl, lsr := SHIFT(LSL, S32, T(X17), T(X17), ByLit(sh)), SHIFT(LSR, S32, T(X17), T(X17), ByLit(sh));
    var x', y', r := Lsl(x, sh), Lsl(y, sh), X86.ArithResult(op, x, y, s);
    var f := X86.ArithFlags(op, x, y, s);
    TopArith(op, x, y, s);
    LslStep(x, sh);
    TruncSmall(x', S32);
    TruncSmall(y', S32);
    SetScratch(a, X17, x', t);
    var b := Set(a, T(X17), x');
    assert Step(lsl, a) == b by { StepShift(a, LSL, S32, T(X17), T(X17), sh); }
    var alu := AluFlags(op, S32, T(X17), T(X17), Sh(T(t), sh));
    AluFlagsOk(op, S32, T(X17), T(X17), Sh(T(t), sh), b, x', y');
    Exec1(lsl, a);
    ExecCat([lsl], alu, a);
    SetWithFlags(a, X17, x', f, ArithPol(op));
    ResultBound(op, x, y, s);
    TopNZ(r, s);
    var g := WithFlags(a, f, ArithPol(op));
    var c := Set(g, T(X17), Lsl(r, sh));
    GetSet(g, T(X17), x', Lsl(r, sh));
    assert Exec([lsl] + alu, a) == c;
    SetScratch(g, X17, Lsl(r, sh), t);
    if CompareOnly(op) {
      assert [lsl] + alu + [] == [lsl] + alu;
    } else {
      TruncSmall(Lsl(r, sh), S32);
      StepShift(c, LSR, S32, T(X17), T(X17), sh);
      GetSet(g, T(X17), Lsl(r, sh), r);
      SetScratch(g, X17, r, t);
      Exec1(lsr, c);
      ExecCat([lsl] + alu, [lsr], a);
    }
  }

  lemma SetScratch(a: State, t: Scratch, v: Word, u: Scratch)
    ensures var b := Set(a, T(t), v);
      Peek(b.x, t) == v && (u != t ==> Get(b, T(u)) == Peek(a.x, u)) && Get(a, T(t)) == Peek(a.x, t)
        && Get(b, T(t)) == v
  {
  }

  lemma SetWithFlags(a: State, t: Scratch, v: Word, f: X86.Flags, pol: Pol)
    ensures WithFlags(Set(a, T(t), v), f, pol) == Set(WithFlags(a, f, pol), T(t), v)
  {
  }

  lemma LslStep(x: Word, sh: nat)
    requires sh < 32 && x < 0x1_0000_0000 && 0 <= Lsl(x, sh) < 0x1_0000_0000
    ensures Shifted(LSL, Trunc(x, S32), sh, S32) == Lsl(x, sh)
  {
    hide Lsl;
  }

  // ---- ADD, SUB, CMP, AND, OR, XOR, TEST -------------------------------------------------------

  /** The core of liftArith: flags, and the result in the destination register. */
  lemma ArithCoreOk(op: X86.ArithOp, s: Size, r: Reg, m: Rhs, flags: bool, a: State, x: Word, y: Word)
    returns (v: Word)
    requires x < Cap(s) && y < Cap(s)
    requires Read(a, r, Wd(s)) == x && RhsVal(a, m, Wd(s)) == y && r != ZR
    requires !Wide(s)
      ==> r == T(X17) && a.x.x17 == x && m.Sh? && m.r.T? && m.r.t != X17 && m.lsl == 0 && Peek(a.x, m.r.t) == y
    ensures v < Cap(Wd(s)) && (!CompareOnly(op) ==> Trunc(v, s) == X86.ArithResult(op, x, y, s))
    ensures var f := if flags then WithFlags(a, X86.ArithFlags(op, x, y, s), ArithPol(op)) else a;
      Exec(ArithCore(op, s, r, m, flags), a) == Set(f, if Wide(s) && CompareOnly(op) then ZR else r, v)
  {
    hide Exec, Step, X86.ArithResult, X86.ArithFlags, Trunc, AluFlags, RhsVal, AluOne;
    v := X86.ArithResult(op, x, y, s);
    ResultBound(op, x, y, s);
    TruncSmall(v, s);
    if Wide(s) {
      var d := if CompareOnly(op) then ZR else r;
      if flags {
        AluFlagsOk(op, s, d, r, m, a, x, y);
      } else {
        AluOneOk(op, s, d, r, m, a, x, y);
        Exec1(AluOne(op, false, s, d, r, m), a);
      }
    } else if flags {
      NarrowFlagsOk(op, s, m.r.t, a, x, y);
      v := Exec(ArithCore(op, s, r, m, flags), a).x.x17;
    } else {
      AluOneOk(op, S32, T(X17), r, m, a, x, y);
      Exec1(AluOne(op, false, S32, T(X17), r, m), a);
      v := X86.ArithResult(op, x, y, S32);
      ResultBound(op, x, y, S32);
      NarrowResult(op, x, y, s);
    }
  }

  /** After the loads the operands are in place and the guest state is untouched. */
  lemma OperandsOk(d: X86.Operand, o: X86.Operand, s: Size, t: Scratch, immOk: bool, a: State, x: X86.State)
    requires Agree(x, a) && X86.LegalDst(d, s) && X86.LegalOperand(o, s) && !(d.Mem? && o.Mem?)
    requires t == if d.Mem? then X0 else X16
    ensures var l, c := LoadDst(d, s), ArithOperand(o, s, t, immOk); var b := Exec(l.code + c.code, a);
      && b == a.(x := b.x)
      && Read(b, l.r, Wd(s)) == X86.Val(x, d, s) && RhsVal(b, c.m, Wd(s)) == X86.Val(x, o, s)
      && (if d.Reg? && Wide(s) then l.r == G(d.g) else l.r == T(X17) && b.x.x17 == X86.Val(x, d, s))
      && (!Wide(s) ==> c.m == Sh(T(t), 0) && Peek(b.x, t) == X86.Val(x, o, s))
      && (d.Mem? ==> b.x.x16 == EffAddr(d.m, x.regs))
  {
    hide Exec, Trunc, RhsVal, Load, EffAddr, ArithOperand, X86.Val;
    var l, c := LoadDst(d, s), ArithOperand(o, s, t, immOk);
    LoadDstOk(d, s, a, x);
    var b := Exec(l.code, a);
    ArithOperandOk(o, s, t, immOk, b, x);
    ExecCat(l.code, c.code, a);
  }

  /** What the whole of liftArith does to the host state. */
  lemma ArithExec(op: X86.ArithOp, s: Size, d: X86.Operand, o: X86.Operand, notes: Notes, pol: Pol, x: X86.State,
                  a: State)
    requires X86.Legal(X86.Arith(op, s, d, o)) && Agree(x, a) && !(CompareOnly(op) && notes.skip)
    ensures var va, vb := X86.Val(x, d, s), X86.Val(x, o, s);
      var y := if CompareOnly(op) then x else X86.Put(x, d, X86.ArithResult(op, va, vb, s), s);
      var f := if notes.skip then a else WithFlags(a, X86.ArithFlags(op, va, vb, s), ArithPol(op));
      var b := Exec(LiftArith(op, s, d, o, notes, pol).code, a);
      b == f.(g := y.regs, mem := y.mem, x := b.x)
  {
    hide Exec, Trunc, RhsVal, Load, EffAddr, X86.Val, X86.Put, X86.ArithFlags, X86.ArithResult, ArithCore, Read,
         StoreDst, LoadDst, ArithOperand, Set;
    var t, flags := if d.Mem? then X0 else X16, !notes.skip;
    var l, c := LoadDst(d, s), ArithOperand(o, s, t, AddOrSub(op));
    var va, vb := X86.Val(x, d, s), X86.Val(x, o, s);
    ValBound(x, d, s);
    ValBound(x, o, s);
    OperandsOk(d, o, s, t, AddOrSub(op), a, x);
    var a1 := Exec(l.code + c.code, a);
    var core := ArithCore(op, s, l.r, c.m, flags);
    var v := ArithCoreOk(op, s, l.r, c.m, flags, a1, va, vb);
    ExecCat(l.code + c.code, core, a);
    var a2 := if flags then WithFlags(a1, X86.ArithFlags(op, va, vb, s), ArithPol(op)) else a1;
    if CompareOnly(op) {
      SetOther(a2, if Wide(s) then ZR else l.r, v);
      assert l.code + c.code + core + [] == l.code + c.code + core;
    } else {
      var res := X86.ArithResult(op, va, vb, s);
      ResultBound(op, va, vb, s);
      TruncSmall(res, s);
      WriteBack(d, s, l.r, a2, x, v, res);
      ExecCat(l.code + c.code + core, StoreDst(d, s, l.r), a);
    }
  }

  lemma SetOther(a: State, r: Reg, v: Word)
    requires !r.G?
    ensures Set(a, r, v) == a.(x := Set(a, r, v).x)
  {
  }

  lemma ArithSim(op: X86.ArithOp, s: Size, d: X86.Operand, o: X86.Operand, notes: Notes, pol: Pol, out: Live,
                 x: X86.State, a: State)
    requires X86.Legal(X86.Arith(op, s, d, o)) && NotesOk(notes, out)
    requires Related(x, a, pol, Before(X86.Arith(op, s, d, o), out))
    ensures Simulated(X86.Arith(op, s, d, o), x, a, LiftArith(op, s, d, o, notes, pol), out)
  {
    hide Exec, X86.Val, X86.ArithFlags, X86.ArithResult, ArithCore, LoadDst, ArithOperand, StoreDst;
    if CompareOnly(op) && notes.skip {
      ExecNil(a);
    } else {
      ArithExec(op, s, d, o, notes, pol, x, a);
      FlagsCF(op, X86.Val(x, d, s), X86.Val(x, o, s), s);
    }
  }

  lemma FlagsCF(op: X86.ArithOp, x: Word, y: Word, s: Size)
    ensures ArithPol(op) == CarryClear ==> !X86.ArithFlags(op, x, y, s).cf
  {
    hide Trunc, Bw;
  }
}
