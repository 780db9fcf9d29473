/** The whole lowering of SHL, SHR, SAR, ROL and ROR simulates the instruction, on the skipped path
    of a zero count as well as on the executed one. */
module ShiftSim {
  import opened Words
  import opened Guest
  import X86
  import opened Arm
  import opened Lifter
  import opened Effects
  import opened Steps
  import opened Operands
  import opened Flags
  import opened Relation
  import opened ShiftMath
  import opened SimShift

  /** x0 holds the result, and for a shift xv its 64-bit source. */
  ghost predicate ResultIn(op: X86.ShiftOp, s: Size, xv: Reg, k: nat, a: State, v: Word, cf: bool) {
    && v < Cap(s) && Trunc(a.x.x0, s) == X86.ShiftBy(op, X86.VC(v, cf), k, s).v
    && (!X86.Rotating(op) ==> a.x.x0 == PlainResult(op, s, v, k) && Get(a, xv) == Source64(op, s, v) && !OwnScratch(xv))
  }

  /** x2 and x3 get CF and OF. */
  lemma CarryCodeOk(op: X86.ShiftOp, s: Size, xv: Reg, n: int, k: nat, a: State, v: Word, cf: bool)
    returns (c: bool, o: bool)
    requires -1 <= n < 64 && n != 0 && 0 < k < Bits(Wd(s)) && Counts(n, k, a) && ResultIn(op, s, xv, k, a, v, cf)
    ensures CarryLoaded(a, Exec(ShiftCarry(op, s, xv, n), a), c, o) && CarryFacts(op, s, v, cf, k, c, o)
  {
    hide Exec, Trunc, Lsr, Bit, ShiftCarry, CarryFacts, CarryLoaded, X86.ShiftBy, PlainResult;
    var y := a.x.x0;
    match op
    case Shl =>
      if s == S64 {
        Shl64Code(xv, n, k, a, v);
        Shl64Facts(k, v, cf);
        c := Bit(v, 64 - k);
        o := Msb(y, S64) != c;
      } else {
        ShlNarrowCode(s, xv, n, a);
        ShlNarrowFacts(s, k, v, cf);
        c := Bit(y, Bits(s));
        o := Bit(y, Bits(s) - 1) != c;
      }
    case Rol =>
      RotCarryCode(op, s, xv, n, a);
      RotFacts(op, s, k, v, cf, y);
      c := y % 2 == 1;
      o := Bit(y, Bits(s) - 1) != c;
    case Ror =>
      RotCarryCode(op, s, xv, n, a);
      RotFacts(op, s, k, v, cf, y);
      c := Bit(y, Bits(s) - 1);
      o := Bit(y, Bits(s) - 2) != c;
    case Shr =>
      ShrCode(op, s, xv, n, k, a, Source64(op, s, v));
      ShrFacts(op, s, k, v, cf);
      c := Bit(Source64(op, s, v), k - 1);
      o := Bit(Source64(op, s, v), Bits(s) - 1);
    case Sar =>
      ShrCode(op, s, xv, n, k, a, Source64(op, s, v));
      ShrFacts(op, s, k, v, cf);
      c := Bit(Source64(op, s, v), k - 1);
      o := false;
  }

  /** The flags after the flag code: N and Z of a shift result, C and V in the sense pol. */
  ghost predicate ShiftFlagsIn(op: X86.ShiftOp, s: Size, k: nat, needCO: bool, pol: Pol, a: State, b: State, v: Word,
                               cf: bool) {
    var r := X86.ShiftBy(op, X86.VC(v, cf), k, s);
    && (if X86.Rotating(op) then b.n == a.n && b.z == a.z else b.n == Msb(r.v, s) && b.z == (r.v == 0))
    && (needCO ==> CarryFacts(op, s, v, cf, k, CarryOf(b.c, pol), b.v))
  }

  /** Only flags and scratch registers other than x0, x1 and x16 change. */
  ghost predicate FlagStep(a: State, b: State) {
    && b == a.(x := b.x, n := b.n, z := b.z, c := b.c, v := b.v)
    && b.x.x0 == a.x.x0 && b.x.x1 == a.x.x1 && b.x.x16 == a.x.x16
  }

  /** The state after the flag code: N and Z of y unless rotating, C and V for c and o. */
  ghost predicate Flagged(s: Size, rot: bool, pol: Pol, a: State, b: State, y: Word, c: bool, o: bool) {
    && FlagStep(a, b) && b.v == o && CarryOf(b.c, pol) == c
    && if rot then b.n == a.n && b.z == a.z else b.n == Msb(y, s) && b.z == (y == 0)
  }

  lemma FlagCodeCO(op: X86.ShiftOp, s: Size, xv: Reg, n: int, pol: Pol, a: State, y: Word, c: bool, o: bool)
    requires -1 <= n < 64 && pol != CarryClear && Trunc(a.x.x0, s) == y
    requires CarryLoaded(a, Exec(ShiftCarry(op, s, xv, n), a), c, o)
    ensures var rot := X86.Rotating(op);
      Flagged(s, rot, pol, a,
        Exec(ShiftCarry(op, s, xv, n) + InsertCarry(T(X2), T(X3), pol, if rot then [] else [ShiftNZ(s)]), a), y, c, o)
  {
    hide Exec, Trunc, ShiftCarry, InsertCarry, Msb, CarryOf, NZOf, ShiftNZ;
    var rot := X86.Rotating(op);
    var code := ShiftCarry(op, s, xv, n);
    var b := Exec(code, a);
    InsertCarryOk(X2, X3, pol, s, !rot, b, c, o);
    var ins := InsertCarry(T(X2), T(X3), pol, if rot then [] else [ShiftNZ(s)]);
    assert (if !rot then [ShiftNZ(s)] else []) == (if rot then [] else [ShiftNZ(s)]);
    ExecCat(code, ins, a);
    InsertedFlags(s, rot, a, b, Exec(ins, b), c, o, y);
  }

  lemma FlagCodeOk(op: X86.ShiftOp, s: Size, xv: Reg, n: int, k: nat, needCO: bool, pol: Pol, a: State, v: Word,
                   cf: bool)
    requires -1 <= n < 64 && n != 0 && 0 < k < Bits(Wd(s)) && Counts(n, k, a) && ResultIn(op, s, xv, k, a, v, cf)
    requires X86.Rotating(op) ==> needCO
    ensures var f := ShiftFlagCode(op, s, xv, n, needCO, pol); var b := Exec(f.code, a);
      FlagStep(a, b) && ShiftFlagsIn(op, s, k, needCO, f.pol, a, b, v, cf)
  {
    hide Exec, Trunc, ShiftCarry, CarryFacts, X86.ShiftBy, InsertCarry, Step, Source64, PlainResult, Msb, Get,
         CarryOf, ShiftNZ, CarryLoaded;
    if needCO {
      var c, o := CarryCodeOk(op, s, xv, n, k, a, v, cf);
      FlagCodeCO(op, s, xv, n, ShiftPol(n, pol), a, X86.ShiftBy(op, X86.VC(v, cf), k, s).v, c, o);
    } else {
      MsbOfTrunc(a.x.x0, s);
      ShiftNZOk(s, a);
      Exec1(ShiftNZ(s), a);
    }
  }

  /** The state InsertCarry leaves, seen from before the flag code. */
  lemma InsertedFlags(s: Size, rot: bool, a: State, b: State, d: State, c: bool, o: bool, y: Word)
    requires CarryLoaded(a, b, c, o) && Trunc(a.x.x0, s) == y
    requires var f := if rot then b else NZOf(b, s); d == f.(x := Poke(b.x, X2, Peek(d.x, X2)), c := d.c, v := o)
    ensures FlagStep(a, d) && d.v == o
    ensures if rot then d.n == a.n && d.z == a.z else d.n == Msb(y, s) && d.z == (y == 0)
  {
    hide Trunc, Msb;
    MsbOfTrunc(a.x.x0, s);
  }

  // ---- count, operand, result ------------------------------------------------------------------

  function ClCount(r: Regs, s: Size): (k: nat)
    ensures k < Bits(Wd(s))
  {
    (r[RCX] % 0x100) % (if s == S64 then 64 else 32)
  }

  lemma LowFive(v: int)
    ensures Low(v, 5) == v % 32 && Low(v, 6) == v % 64
    ensures Pow2(5) == 32 && Pow2(6) == 64
  {
    hide Low, Pow2;
    Pow2Six();
    LowSmall(v / 2);
    LowSmall(v / 2 / 2);
    LowNext(v, 4);
    LowNext(v, 5);
    LowNext(v / 2, 4);
    Double16(v);
    Double16(v / 2);
    Double32(v);
  }

  lemma Pow2Six()
    ensures Pow2(5) == 32 && Pow2(6) == 64
  {
    Pow2Small();
    assert Pow2(5) == 2 * Pow2(4);
    assert Pow2(6) == 2 * Pow2(5);
  }

  lemma LowNext(v: int, n: nat)
    ensures Low(v, n + 1) == 2 * Low(v / 2, n) + v % 2
  {
  }

  lemma Double16(v: int)
    ensures 2 * (v / 2 % 16) + v % 2 == v % 32
  {
  }

  lemma Double32(v: int)
    ensures 2 * (v / 2 % 32) + v % 2 == v % 64
  {
  }

  lemma Lsr4(v: int)
    ensures Lsr(v, 4) == v / 16
  {
    Lsr3(v);
    assert Lsr(v, 4) == Lsr(v, 3) / 2;
  }

  lemma MaskCount(v: Word, s: Size)
    ensures Logical(AND, Trunc(v, S32), CountMask(s), S32) == (v % 0x100) % (if s == S64 then 64 else 32)
  {
    hide Bw, Low, Pow2;
    var t := Trunc(v, S32);
    LowFive(t);
    AndMask(t, if s == S64 then 6 else 5);
    ModMod(v);
  }

  lemma ModMod(v: nat)
    ensures Trunc(v, S32) % 64 == Trunc(v, S8) % 64 && Trunc(v, S32) % 32 == Trunc(v, S8) % 32
  {
    hide Trunc, Low, Lsr, Lsl, Pow2;
    LowFive(Trunc(v, S32));
    LowFive(Trunc(v, S8));
    TruncLow(v, S32);
    TruncLow(v, S8);
    LowLow(v, 6, 26);
    LowLow(v, 5, 27);
    LowLow(v, 6, 2);
    LowLow(v, 5, 3);
  }

  /** The masked CL in x1. */
  lemma CountCodeOk(s: Size, n: int, a: State)
    ensures Exec(CountCode(s, n), a) == if n >= 0 then a else Set(a, T(X1), ClCount(a.g, s))
  {
    hide Exec, Trunc, Logical, Step;
    ExecNil(a);
    MaskCount(a.g[RCX], s);
    LitOk(a, CountMask(s), S32);
    StepLogic(a, AND, S32, T(X1), G(RCX), Lit(CountMask(s)));
    Exec1(LOGIC(AND, false, S32, T(X1), G(RCX), Lit(CountMask(s))), a);
  }

  /** ShiftSource: the 64-bit source in xv. */
  lemma SourceOk(op: X86.ShiftOp, s: Size, d: X86.Operand, val: Reg, a: State, v: Word)
    requires v < Cap(s) && Read(a, val, Wd(s)) == v
    requires if d.Reg? && Wide(s) then val == G(d.g) else val == T(X17) && Get(a, val) == v
    ensures var xv := ShiftSource(op, s, val); var b := Exec(xv.code, a);
      && b == a.(x := a.x.(x4 := b.x.x4)) && !OwnScratch(xv.r)
      && (!X86.Rotating(op) ==> Get(b, xv.r) == Source64(op, s, v))
      && (X86.Rotating(op) ==> if Wide(s) then Read(b, xv.r, s) == v else val == T(X17) && b.x.x17 == v)
  {
    hide Exec, Step, Trunc, SInt;
    var xv := ShiftSource(op, s, val);
    ExecNil(a);
    TruncSmall(v, s);
    if op == X86.Sar && s != S64 {
      StepSxt(a, s, S64, T(X4), val);
      Exec1(SXT(s, S64, T(X4), val), a);
      SameLow(Get(a, val), v, s);
    } else if s == S32 && val != T(X17) {
      StepMov(a, S32, T(X4), val);
      Exec1(MOV(S32, T(X4), val), a);
    } else if s == S64 {
      TruncSmall(Get(a, val), S64);
    }
  }

  lemma SameLow(u: Word, v: Word, s: Size)
    requires s != S64 && v < Cap(s) && Trunc(u, Wd(s)) == v
    ensures SInt(u, s) == SInt(v, s)
  {
    hide Trunc;
    TruncTrunc(u, s, Wd(s));
    MsbTrunc(u, v, s);
  }

  /** What the operand part of the general path leaves. */
  ghost predicate Prepared(op: X86.ShiftOp, s: Size, d: X86.Operand, val: Reg, xv: Reg, n: int, k: nat, x: X86.State,
                           a: State, v: Word) {
    && Counts(n, k, a) && !OwnScratch(xv) && (d.Mem? ==> a.x.x16 == EffAddr(d.m, x.regs))
    && (!X86.Rotating(op) ==> Get(a, xv) == Source64(op, s, v))
    && (X86.Rotating(op) ==> if Wide(s) then Read(a, xv, s) == v else val == T(X17) && a.x.x17 == v)
  }

  lemma PrepareOk(op: X86.ShiftOp, s: Size, d: X86.Operand, n: int, k: nat, x: X86.State, a: State)
    requires Agree(x, a) && X86.LegalDst(d, s)
    requires if n >= 0 then n == k else k == ClCount(x.regs, s)
    ensures var l := LoadDst(d, s); var xv := ShiftSource(op, s, l.r);
      var b := Exec(CountCode(s, n) + l.code + xv.code, a);
      b == a.(x := b.x) && Prepared(op, s, d, l.r, xv.r, n, k, x, b, X86.Val(x, d, s))
  {
    hide Exec, Trunc, SInt, LoadDst, CountCode, EffAddr, X86.Val, ShiftSource, Source64;
    var l := LoadDst(d, s);
    var xv := ShiftSource(op, s, l.r);
    CountCodeOk(s, n, a);
    var a1 := Exec(CountCode(s, n), a);
    LoadDstFrame(d, s, a1, x);
    var a2 := Exec(l.code, a1);
    ExecCat(CountCode(s, n), l.code, a);
    SourceOk(op, s, d, l.r, a2, X86.Val(x, d, s));
    ExecCat(CountCode(s, n) + l.code, xv.code, a);
  }

  lemma ResultOk(op: X86.ShiftOp, s: Size, d: X86.Operand, val: Reg, xv: Reg, n: int, k: nat, x: X86.State, a: State,
                 v: Word, cf: bool)
    requires -1 <= n && k < Bits(Wd(s)) && v < Cap(s) && Prepared(op, s, d, val, xv, n, k, x, a, v)
    ensures var b := Exec(ShiftResult(op, s, val, xv, n), a);
      && b == a.(x := a.x.(x0 := b.x.x0, x4 := b.x.x4, x5 := b.x.x5)) && ResultIn(op, s, xv, k, b, v, cf)
  {
    hide Exec, Trunc, ShiftResult, Source64, PlainResult, X86.ShiftBy, RotR, EffAddr, RightAmount;
    if X86.Rotating(op) {
      RotateOk(op, s, val, xv, n, k, a, v);
      RotResult(op, s, v, cf, k);
    } else {
      ShiftPlainOk(op, s, val, xv, n, k, a, v);
      PlainResultOk(op, s, v, cf, k);
    }
  }

  // ---- the general path ------------------------------------------------------------------------

  /** The optional flag code, run only for a nonzero count. */
  lemma OptionalFlags(op: X86.ShiftOp, s: Size, xv: Reg, n: int, k: nat, flags: bool, needCO: bool, pol: Pol,
                      a: State, v: Word, cf: bool)
    requires -1 <= n < 64 && n != 0 && k < Bits(Wd(s)) && Counts(n, k, a) && ResultIn(op, s, xv, k, a, v, cf)
    requires flags && X86.Rotating(op) ==> needCO
    ensures var f := ShiftFlagCode(op, s, xv, n, needCO, pol);
      var b := Exec(if flags then IfCounted(n, f.code) else [], a);
      FlagStep(a, b) && if flags && k != 0 then ShiftFlagsIn(op, s, k, needCO, f.pol, a, b, v, cf) else b == a
  {
    hide Exec, Trunc, ResultIn, ShiftFlagCode, X86.ShiftBy, ShiftFlagsIn;
    var f := ShiftFlagCode(op, s, xv, n, needCO, pol);
    ExecNil(a);
    if flags {
      Exec1(UNLESSZERO(S32, T(X1), f.code), a);
      TruncSmall(k, S32);
      if k != 0 { FlagCodeOk(op, s, xv, n, k, needCO, pol, a, v, cf); }
    }
  }

  /** Only registers, memory, flags and scratch registers of b matter; b's guest state is y's. */
  ghost predicate Wrote(a: State, b: State, y: X86.State) {
    b == a.(g := y.regs, mem := y.mem, x := b.x, n := b.n, z := b.z, c := b.c, v := b.v)
  }

  /** The flags from state a to state b: of a shift by k, or unchanged. */
  ghost predicate ShiftFlagged(op: X86.ShiftOp, s: Size, k: nat, flags: bool, needCO: bool, pol: Pol, a: State,
                               b: State, v: Word, cf: bool) {
    if flags && k != 0 then ShiftFlagsIn(op, s, k, needCO, pol, a, b, v, cf)
    else b.n == a.n && b.z == a.z && b.c == a.c && b.v == a.v
  }

  /** Operand and result code. */
  lemma ComputeOk(op: X86.ShiftOp, s: Size, d: X86.Operand, n: int, k: nat, x: X86.State, a: State)
    requires Agree(x, a) && X86.LegalDst(d, s) && -1 <= n < 64 && k < Bits(Wd(s))
    requires if n >= 0 then n == k else k == ClCount(x.regs, s)
    ensures var l := LoadDst(d, s); var xv := ShiftSource(op, s, l.r);
      var b := Exec(CountCode(s, n) + l.code + xv.code + ShiftResult(op, s, l.r, xv.r, n), a);
      && b == a.(x := b.x) && Counts(n, k, b) && (d.Mem? ==> b.x.x16 == EffAddr(d.m, x.regs))
      && ResultIn(op, s, xv.r, k, b, X86.Val(x, d, s), x.f.cf)
  {
    hide Exec, Trunc, LoadDst, CountCode, ShiftSource, ShiftResult, X86.Val, ResultIn, EffAddr;
    var v, cf := X86.Val(x, d, s), x.f.cf;
    var l := LoadDst(d, s);
    var xv := ShiftSource(op, s, l.r);
    var prep := CountCode(s, n) + l.code + xv.code;
    PrepareOk(op, s, d, n, k, x, a);
    ValBound(x, d, s);
    ResultOk(op, s, d, l.r, xv.r, n, k, x, Exec(prep, a), v, cf);
    ExecCat(prep, ShiftResult(op, s, l.r, xv.r, n), a);
  }

  lemma GeneralExec(op: X86.ShiftOp, s: Size, d: X86.Operand, n: int, k: nat, flags: bool, needCO: bool, pol: Pol,
                    x: X86.State, a: State)
    requires Agree(x, a) && X86.LegalDst(d, s) && -1 <= n < 64 && n != 0 && k < Bits(Wd(s))
    requires if n >= 0 then n == k else k == ClCount(x.regs, s)
    requires flags && X86.Rotating(op) ==> needCO
    ensures var low := ShiftGeneral(op, s, d, n, flags, needCO, pol); var b := Exec(low.code, a);
      var v := X86.Val(x, d, s);
      && Wrote(a, b, X86.Put(x, d, X86.ShiftBy(op, X86.VC(v, x.f.cf), k, s).v, s))
      && ShiftFlagged(op, s, k, flags, needCO, low.pol, a, b, v, x.f.cf)
  {
    hide Exec, Trunc, LoadDst, CountCode, ShiftSource, ShiftResult, StoreDst, ShiftFlagCode, IfCounted, X86.Val,
         X86.Put, X86.ShiftBy, EffAddr, Counts, FlagStep, ResultIn, ShiftFlagged, Wrote, ShiftFlagsIn;
    var v, cf := X86.Val(x, d, s), x.f.cf;
    var l := LoadDst(d, s);
    var xv := ShiftSource(op, s, l.r);
    var compute := CountCode(s, n) + l.code + xv.code + ShiftResult(op, s, l.r, xv.r, n);
    ComputeOk(op, s, d, n, k, x, a);
    var a2 := Exec(compute, a);
    var f := ShiftFlagCode(op, s, xv.r, n, needCO, pol);
    var fc := if flags then IfCounted(n, f.code) else [];
    OptionalFlags(op, s, xv.r, n, k, flags, needCO, pol, a2, v, cf);
    ExecCat(compute, fc, a);
    StoreResult(op, s, d, xv.r, k, flags, needCO, f.pol, x, a, a2, Exec(fc, a2));
    ExecCat(compute + fc, StoreDst(d, s, T(X0)), a);
    if !flags {
      var b := Exec(ShiftGeneral(op, s, d, n, flags, needCO, pol).code, a);
      ShiftFlaggedPol(op, s, k, needCO, f.pol, pol, a, b, v, cf);
    }
  }

  lemma ShiftFlaggedPol(op: X86.ShiftOp, s: Size, k: nat, needCO: bool, p: Pol, q: Pol, a: State, b: State, v: Word,
                        cf: bool)
    ensures ShiftFlagged(op, s, k, false, needCO, p, a, b, v, cf)
      ==> ShiftFlagged(op, s, k, false, needCO, q, a, b, v, cf)
  {
  }

  /** The write-back of x0 after the flag code. */
  lemma StoreResult(op: X86.ShiftOp, s: Size, d: X86.Operand, xv: Reg, k: nat, flags: bool, needCO: bool, pol: Pol,
                    x: X86.State, a: State, b: State, c: State)
    requires Agree(x, a) && X86.LegalDst(d, s)
    requires b == a.(x := b.x) && (d.Mem? ==> b.x.x16 == EffAddr(d.m, x.regs))
    requires var v, cf := X86.Val(x, d, s), x.f.cf;
      && ResultIn(op, s, xv, k, b, v, cf) && FlagStep(b, c)
      && if flags && k != 0 then ShiftFlagsIn(op, s, k, needCO, pol, b, c, v, cf) else c == b
    ensures var e := Exec(StoreDst(d, s, T(X0)), c); var v := X86.Val(x, d, s);
      && Wrote(a, e, X86.Put(x, d, X86.ShiftBy(op, X86.VC(v, x.f.cf), k, s).v, s))
      && ShiftFlagged(op, s, k, flags, needCO, pol, a, e, v, x.f.cf)
  {
    hide Exec, Trunc, X86.Val, X86.Put, X86.ShiftBy, EffAddr, PlainResult, Source64, CarryFacts, CarryOf, Msb,
         StoreDst, Get;
    var r := X86.ShiftBy(op, X86.VC(X86.Val(x, d, s), x.f.cf), k, s).v;
    SetSame(c);
    TruncAdd(b.x.x0, 0, s);
    WriteBack(d, s, T(X0), c, x, c.x.x0, r);
  }

  lemma SetSame(a: State)
    ensures Set(a, T(X0), a.x.x0) == a
  {
  }

  // ---- the fast path -----------------------------------------------------------------------------

  /** TST r, r */
  lemma StepTst(a: State, s: Size, r: Reg)
    ensures var v := Read(a, r, s);
      Step(LOGIC(AND, true, s, ZR, r, Sh(r, 0)), a) == a.(n := Msb(v, s), z := v == 0, c := false, v := false)
  {
    hide Trunc, Bw, Get, Msb;
    RhsPlain(a, r, s);
    BwSame(Read(a, r, s));
    TruncAdd(Get(a, r), 0, s);
  }

  /** The shift of a wide operand at its own width. */
  lemma WideShift(op: X86.ShiftOp, s: Size, v: Word, cf: bool, k: nat)
    requires Wide(s) && v < Cap(s) && k < Bits(s)
    ensures var m := if X86.Rotating(op) then RightAmount(op, k, s) else k;
      Shifted(ArmShOp(op), v, m, s) == X86.ShiftBy(op, X86.VC(v, cf), k, s).v < Cap(s)
  {
    hide Trunc, Lsl, Lsr, X86.ShiftBy, RotR, SInt;
    match op
    case Shl => ShlClosed(v, cf, k, s); TruncBound(Lsl(v, k), s);
    case Shr => ShrClosed(v, cf, k, s); LsrRange(v, k); TruncSmall(Lsr(v, k), s);
    case Sar => SarClosed(v, cf, k, s); TruncBound(Lsr(SInt(v, s), k), s);
    case _ =>
      RotResult(op, s, v, cf, k);
      RorWide(s, v, RightAmount(op, k, s));
      TruncSmall(RotR(v, RightAmount(op, k, s), Bits(s)), s);
  }

  lemma ByteMod(r: Word)
    ensures r % 32 == (r % 0x100) % 32 && r % 64 == (r % 0x100) % 64
  {
    LowFive(r);
    LowFive(r % 0x100);
    TruncLow(r, S8);
    LowLow(r, 5, 3);
    LowLow(r, 6, 2);
  }

  /** NEG of the whole count register: its residue is the left amount. */
  lemma NegResidue(r: Word, s: Size)
    requires Wide(s)
    ensures ModBits(Trunc(0 - r, s), s) == LeftAmount(ModBits(r, s), s)
  {
    hide Trunc, Low, Lsr, Lsl, Pow2;
    LowFive(0 - r);
    LowFive(Trunc(0 - r, s));
    TruncLow(0 - r, s);
    LowLow(0 - r, 5, Bits(s) - 5);
    LowLow(0 - r, 6, Bits(s) - 6);
    NegMod32(r);
    NegMod64(r);
  }

  lemma NegMod32(r: int)
    ensures (0 - r) % 32 == if r % 32 == 0 then 0 else 32 - r % 32
  {
  }

  lemma NegMod64(r: int)
    ensures (0 - r) % 64 == if r % 64 == 0 then 0 else 64 - r % 64
  {
  }

  lemma FastNegOk(s: Size, k: nat, a: State)
    requires Wide(s) && k == ModBits(a.g[RCX], s)
    ensures var neg := ADDSUB(true, false, s, T(X5), ZR, Sh(G(RCX), 0)); var b := Exec([neg], a);
      b == Set(a, T(X5), b.x.x5) && ModBits(b.x.x5, s) == LeftAmount(k, s)
  {
    hide Exec, Trunc, Step, LeftAmount, ModBits;
    StepAddSub(a, true, s, T(X5), ZR, Sh(G(RCX), 0));
    RhsPlain(a, G(RCX), s);
    TruncAdd(0, a.g[RCX], s);
    NegResidue(a.g[RCX], s);
    Exec1(ADDSUB(true, false, s, T(X5), ZR, Sh(G(RCX), 0)), a);
  }

  lemma FastCountOk(op: X86.ShiftOp, s: Size, n: int, k: nat, a: State)
    requires Wide(s) && -1 <= n && (if n >= 0 then n == k else k == ClCount(a.g, s)) && k < Bits(s)
    ensures var b := Exec(FastCount(op, s, n), a);
      && b == a.(x := a.x.(x1 := b.x.x1, x5 := b.x.x5)) && (n < 0 ==> b.x.x1 == k)
      && AmountOf(b, FastAmount(op, s, n), s) == if X86.Rotating(op) then RightAmount(op, k, s) else k
  {
    hide Exec, Trunc, Step, Logical, ClCount, LeftAmount, ModBits, RotAmount;
    ExecNil(a);
    if n >= 0 {
      ModSelf(k, s);
      if X86.Rotating(op) { RightAmountDef(op, n, s); ModSelf(RightAmount(op, k, s), s); }
    } else {
      CountCodeOk(s, n, a);
      ClResidue(a.g, s);
      ModSelf(k, s);
      if op == X86.Rol {
        FastNegOk(s, k, Set(a, T(X1), k));
        ExecCat(CountCode(s, n), [ADDSUB(true, false, s, T(X5), ZR, Sh(G(RCX), 0))], a);
      } else {
        assert FastCount(op, s, n) == CountCode(s, n);
      }
    }
  }

  lemma ModSelf(k: nat, s: Size)
    requires k < Bits(s)
    ensures ModBits(k, s) == k
  {
  }

  lemma ClResidue(r: Regs, s: Size)
    requires Wide(s)
    ensures ClCount(r, s) == ModBits(r[RCX], s)
  {
    ByteMod(r[RCX]);
  }

  /** The shift of the operand register. */
  lemma FastShiftOk(op: X86.ShiftOp, s: Size, n: int, k: nat, r: Reg, a: State, v: Word, cf: bool)
    requires Wide(s) && -1 <= n && n != 0 && (n > 0 ==> n == k) && k < Bits(s) && v < Cap(s) && Read(a, r, s) == v
    requires AmountOf(a, FastAmount(op, s, n), s) == if X86.Rotating(op) then RightAmount(op, k, s) else k
    ensures Exec(FastShift(op, s, r, n), a) == Set(a, r, X86.ShiftBy(op, X86.VC(v, cf), k, s).v)
  {
    hide Exec, Trunc, Set, Shifted, Get, X86.ShiftBy, AmountOf;
    if n > 0 && X86.Rotating(op) { RightAmountDef(op, n, s); }
    WideShift(op, s, v, cf, k);
    Exec1(SHIFT(ArmShOp(op), s, r, r, FastAmount(op, s, n)), a);
  }

  /** a with the flags of TST v, v. */
  function Tested(a: State, v: Word, s: Size): State { a.(n := Msb(v, s), z := v == 0, c := false, v := false) }

  lemma FastFlagsOk(s: Size, n: int, k: nat, r: Reg, flags: bool, a: State)
    requires k < Bits(s) && (if n >= 0 then n == k else a.x.x1 == k) && n != 0
    ensures Exec(FastTest(s, r, n, flags), a) == if flags && k != 0 then Tested(a, Read(a, r, s), s) else a
  {
    hide Exec, Trunc, Msb;
    var tst := LOGIC(AND, true, s, ZR, r, Sh(r, 0));
    StepTst(a, s, r);
    ExecNil(a);
    Exec1(tst, a);
    TruncSmall(k, S32);
    Exec1(UNLESSZERO(S32, T(X1), [tst]), a);
  }

  /** Operand, count and shift. */
  lemma FastCompute(op: X86.ShiftOp, s: Size, d: X86.Operand, n: int, k: nat, x: X86.State, a: State)
    requires Agree(x, a) && X86.LegalDst(d, s) && Wide(s) && -1 <= n && n != 0 && k < Bits(s)
    requires if n >= 0 then n == k else k == ClCount(x.regs, s)
    ensures var l := LoadDst(d, s); var v := X86.Val(x, d, s); var r := X86.ShiftBy(op, X86.VC(v, x.f.cf), k, s).v;
      var b0 := Exec(l.code + FastCount(op, s, n), a);
      && b0 == a.(x := b0.x) && (d.Mem? ==> b0.x.x16 == EffAddr(d.m, x.regs)) && (n < 0 ==> b0.x.x1 == k)
      && Exec(l.code + FastCount(op, s, n) + FastShift(op, s, l.r, n), a) == Set(b0, l.r, r) && r < Cap(s)
  {
    hide Exec, Trunc, LoadDst, EffAddr, X86.Val, X86.ShiftBy, FastAmount, FastCount, FastShift, Set, AmountOf,
         RightAmount, ClCount, Get;
    var l := LoadDst(d, s);
    var v := X86.Val(x, d, s);
    LoadDstFrame(d, s, a, x);
    var a1 := Exec(l.code, a);
    FastCountOk(op, s, n, k, a1);
    ExecCat(l.code, FastCount(op, s, n), a);
    var b0 := Exec(l.code + FastCount(op, s, n), a);
    FastRead(a1, b0, l.r, s);
    FastShiftOk(op, s, n, k, l.r, b0, v, x.f.cf);
    WideShift(op, s, v, x.f.cf, k);
    ExecCat(l.code + FastCount(op, s, n), FastShift(op, s, l.r, n), a);
  }

  lemma FastRead(a: State, b: State, r: Reg, s: Size)
    requires b == a.(x := a.x.(x1 := b.x.x1, x5 := b.x.x5)) && (r.G? || r == T(X17))
    ensures Read(b, r, s) == Read(a, r, s)
  {
  }

  /** Test and write-back of the result y in r. */
  lemma FastTail(s: Size, d: X86.Operand, r: Reg, n: int, k: nat, y: Word, flags: bool, x: X86.State, a: State,
                 b: State)
    requires Agree(x, a) && X86.LegalDst(d, s) && Wide(s) && y < Cap(s)
    requires b == a.(x := b.x) && (d.Mem? ==> b.x.x16 == EffAddr(d.m, x.regs))
    requires if d.Reg? then r == G(d.g) else r == T(X17)
    requires k < Bits(s) && (if n >= 0 then n == k else b.x.x1 == k) && n != 0
    ensures var e := Exec(FastTest(s, r, n, flags) + StoreDst(d, s, r), Set(b, r, y));
      && Wrote(a, e, X86.Put(x, d, y, s))
      && if flags && k != 0 then e.n == Msb(y, s) && e.z == (y == 0)
         else e.n == a.n && e.z == a.z && e.c == a.c && e.v == a.v
  {
    hide Exec, Trunc, EffAddr, X86.Put, Set, Msb, StoreDst, FastTest, Read, Tested, Wrote;
    FastStore(s, d, r, y, flags && k != 0, x, a, b);
    FastFlagsOk(s, n, k, r, flags, Set(b, r, y));
    ExecCat(FastTest(s, r, n, flags), StoreDst(d, s, r), Set(b, r, y));
  }

  lemma FastExec(op: X86.ShiftOp, s: Size, d: X86.Operand, n: int, k: nat, flags: bool, pol: Pol, x: X86.State,
                 a: State)
    requires Agree(x, a) && X86.LegalDst(d, s) && Wide(s) && -1 <= n && n != 0 && k < Bits(s)
    requires if n >= 0 then n == k else k == ClCount(x.regs, s)
    requires flags ==> !X86.Rotating(op)
    ensures var low := ShiftFast(op, s, d, n, flags, pol); var b := Exec(low.code, a); var v := X86.Val(x, d, s);
      && Wrote(a, b, X86.Put(x, d, X86.ShiftBy(op, X86.VC(v, x.f.cf), k, s).v, s))
      && ShiftFlagged(op, s, k, flags, false, low.pol, a, b, v, x.f.cf)
  {
    hide Exec, Trunc, EffAddr, X86.Val, X86.Put, X86.ShiftBy, Set, Msb, FastTest, FastShift, FastCount, StoreDst, Get,
         Wrote, Read, ClCount, ShiftFlagged, X86.Rotating, LoadDst;
    var l := LoadDst(d, s);
    var r := X86.ShiftBy(op, X86.VC(X86.Val(x, d, s), x.f.cf), k, s).v;
    var first := l.code + FastCount(op, s, n);
    var last := FastTest(s, l.r, n, flags) + StoreDst(d, s, l.r);
    FastCompute(op, s, d, n, k, x, a);
    DstReg(d, s);
    FastTail(s, d, l.r, n, k, r, flags, x, a, Exec(first, a));
    ExecCat(first + FastShift(op, s, l.r, n), last, a);
    var low := ShiftFast(op, s, d, n, flags, pol);
    assert low.code == first + FastShift(op, s, l.r, n) + last;
    TestedFlags(op, s, k, flags, low.pol, a, Exec(low.code, a), X86.Val(x, d, s), x.f.cf);
  }

  lemma DstReg(d: X86.Operand, s: Size)
    requires Wide(s) && X86.LegalDst(d, s)
    ensures if d.Reg? then LoadDst(d, s).r == G(d.g) else LoadDst(d, s).r == T(X17)
  {
  }

  lemma TestedFlags(op: X86.ShiftOp, s: Size, k: nat, flags: bool, pol: Pol, a: State, b: State, v: Word, cf: bool)
    requires flags ==> !X86.Rotating(op)
    requires var r := X86.ShiftBy(op, X86.VC(v, cf), k, s).v;
      if flags && k != 0 then b.n == Msb(r, s) && b.z == (r == 0)
        else b.n == a.n && b.z == a.z && b.c == a.c && b.v == a.v
    ensures ShiftFlagged(op, s, k, flags, false, pol, a, b, v, cf)
  {
    hide X86.ShiftBy, Msb;
  }

  /** The write-back of the fast path. */
  lemma FastStore(s: Size, d: X86.Operand, r: Reg, y: Word, tested: bool, x: X86.State, a: State, b: State)
    requires Agree(x, a) && X86.LegalDst(d, s) && Wide(s) && y < Cap(s)
    requires b == a.(x := b.x) && (d.Mem? ==> b.x.x16 == EffAddr(d.m, x.regs))
    requires if d.Reg? then r == G(d.g) else r == T(X17)
    ensures var c := Set(b, r, y);
      && Read(c, r, s) == y && c.x.x1 == b.x.x1
      && var e := Exec(StoreDst(d, s, r), if tested then Tested(c, y, s) else c);
        && Wrote(a, e, X86.Put(x, d, y, s))
        && if tested then e.n == Msb(y, s) && e.z == (y == 0) else e.n == a.n && e.z == a.z && e.c == a.c && e.v == a.v
  {
    hide Exec, Trunc, EffAddr, X86.Put, Set, Msb, StoreDst, Read;
    SetFacts(b, r, y, s);
    WriteBack(d, s, r, if tested then Tested(b, y, s) else b, x, y, y);
  }

  lemma SetFacts(a: State, r: Reg, v: Word, s: Size)
    requires v < Cap(s) && (r.G? || r == T(X17))
    ensures var b := Set(a, r, v);
      Read(b, r, s) == v && b.x.x1 == a.x.x1 && Tested(b, v, s) == Set(Tested(a, v, s), r, v)
  {
    hide Msb;
    TruncSmall(v, s);
  }

  // ---- the instruction -----------------------------------------------------------------------------

  lemma GeneralFlags(op: X86.ShiftOp, s: Size, d: X86.Operand, c: X86.Count, k: nat, notes: Notes, pol: Pol,
                     pol': Pol, out: Live, f: X86.Flags, a: State, b: State, v: Word)
    requires var i := X86.Shift(op, s, d, c); var needCO := !notes.carryDead || !notes.overflowDead;
      var flags := !notes.skip && (X86.Rotating(op) ==> needCO);
      && NotesOk(notes, out) && FlagsOk(f, a, pol, Before(i, out))
      && (k == 0 ==> c == X86.ByCl)
      && (if !flags then pol' == pol else if needCO then pol' == ShiftPol(ImmCount(c, s), pol) else pol' == CarryClear)
      && ShiftFlagged(op, s, k, flags, needCO, pol', a, b, v, f.cf)
    ensures FlagsOk(X86.ShiftFlags(op, v, k, s, f, Seen(b, pol')), b, pol', out)
  {
    hide X86.ShiftBy, Msb, X86.ShiftOverflow;
  }

  /** A 32-bit register written with its own value, or nothing. */
  lemma ZeroZextOk(d: X86.Operand, s: Size, x: X86.State, a: State)
    requires Agree(x, a) && X86.LegalDst(d, s)
    ensures var y := X86.Put(x, d, X86.Val(x, d, s), s);
      Exec(ZeroCountZext(d, s), a) == a.(g := y.regs) && y.mem == a.mem
  {
    hide Exec, Trunc, EffAddr, Merge;
    ExecNil(a);
    if d.Reg? && s == S32 {
      StepMov(a, S32, G(d.g), G(d.g));
      WideMerge(a.g[d.g], Trunc(a.g[d.g], S32), S32);
      TruncAdd(a.g[d.g], 0, S32);
      Exec1(MOV(S32, G(d.g), G(d.g)), a);
    } else if d.Mem? {
      StoreLoad(x.mem, EffAddr(d.m, x.regs), s);
    } else {
      PutVal(x, d, s);
    }
  }

  lemma PutVal(x: X86.State, d: X86.Operand, s: Size)
    requires X86.LegalDst(d, s) && !d.Mem? && !(d.Reg? && s == S32)
    ensures X86.Put(x, d, X86.Val(x, d, s), s) == x
  {
    hide Load, Store;
    if d.High? { MergeOwnHigh(x.regs[d.g]); } else { MergeOwn(x.regs[d.g], s); }
  }

  lemma MergeOwn(v: Word, s: Size)
    requires s != S32
    ensures Merge(v, Trunc(v, s), s) == v
  {
  }

  lemma MergeOwnHigh(v: Word)
    ensures MergeHigh(v, (v / 0x100) % 0x100) == v
  {
  }

  lemma CountCases(x: X86.State, c: X86.Count, s: Size)
    ensures var n, k := ImmCount(c, s), X86.Masked(x, c, s);
      && -1 <= n < 64 && k < Bits(Wd(s)) && (if n >= 0 then n == k else k == ClCount(x.regs, s))
      && (k == 0 && n != 0 ==> c == X86.ByCl)
  {
  }

  lemma ShiftEval(op: X86.ShiftOp, s: Size, d: X86.Operand, c: X86.Count, x: X86.State, u: X86.Flags)
    ensures var v, k := X86.Val(x, d, s), X86.Masked(x, c, s);
      X86.Eval(X86.Shift(op, s, d, c), x, u)
        == X86.Put(x, d, X86.ShiftBy(op, X86.VC(v, x.f.cf), k, s).v, s).(f := X86.ShiftFlags(op, v, k, s, x.f, u))
  {
    hide X86.Put, X86.Val, X86.ShiftBy, X86.ShiftFlags, X86.Masked;
  }

  lemma ShiftZero(op: X86.ShiftOp, s: Size, v: Word, f: X86.Flags, u: X86.Flags)
    ensures X86.ShiftBy(op, X86.VC(v, f.cf), 0, s).v == v && X86.ShiftFlags(op, v, 0, s, f, u) == f
  {
  }

  lemma ShiftSim(op: X86.ShiftOp, s: Size, d: X86.Operand, c: X86.Count, notes: Notes, pol: Pol, out: Live,
                 x: X86.State, a: State)
    requires X86.Legal(X86.Shift(op, s, d, c)) && NotesOk(notes, out)
    requires Related(x, a, pol, Before(X86.Shift(op, s, d, c), out))
    ensures Simulated(X86.Shift(op, s, d, c), x, a, LiftShift(op, s, d, c, notes, pol), out)
  {
    hide Simulated, Related, NotesOk, LiftShift, X86.Legal;
    if ImmCount(c, s) == 0 {
      ShiftSimZero(op, s, d, c, notes, pol, out, x, a);
    } else {
      ShiftSimCounted(op, s, d, c, notes, pol, out, x, a);
    }
  }

  lemma ShiftSimZero(op: X86.ShiftOp, s: Size, d: X86.Operand, c: X86.Count, notes: Notes, pol: Pol, out: Live,
                     x: X86.State, a: State)
    requires X86.Legal(X86.Shift(op, s, d, c)) && ImmCount(c, s) == 0
    requires Related(x, a, pol, Before(X86.Shift(op, s, d, c), out))
    ensures Simulated(X86.Shift(op, s, d, c), x, a, LiftShift(op, s, d, c, notes, pol), out)
  {
    hide Exec, X86.Eval, X86.Val, X86.Put, X86.ShiftBy, X86.ShiftFlags, X86.Masked, ShiftGeneral, ShiftFast, ClCount,
         ZeroCountZext, FlagsOk;
    var b := Exec(ZeroCountZext(d, s), a);
    CountCases(x, c, s);
    ShiftEval(op, s, d, c, x, Seen(b, pol));
    ShiftZero(op, s, X86.Val(x, d, s), x.f, Seen(b, pol));
    ZeroZextOk(d, s, x, a);
    ZeroLive(op, s, d, c, x.f, a, b, pol, out);
  }

  lemma ShiftSimCounted(op: X86.ShiftOp, s: Size, d: X86.Operand, c: X86.Count, notes: Notes, pol: Pol, out: Live,
                        x: X86.State, a: State)
    requires X86.Legal(X86.Shift(op, s, d, c)) && NotesOk(notes, out) && ImmCount(c, s) != 0
    requires Related(x, a, pol, Before(X86.Shift(op, s, d, c), out))
    ensures Simulated(X86.Shift(op, s, d, c), x, a, LiftShift(op, s, d, c, notes, pol), out)
  {
    hide Exec, X86.Eval, X86.Val, X86.Put, X86.ShiftBy, X86.ShiftFlags, X86.Masked, ShiftGeneral, ShiftFast,
         ShiftFlagged, ClCount, ZeroCountZext, FlagsOk;
    var n, k := ImmCount(c, s), X86.Masked(x, c, s);
    var v := X86.Val(x, d, s);
    var low := LiftShift(op, s, d, c, notes, pol);
    var b := Exec(low.code, a);
    CountCases(x, c, s);
    ShiftEval(op, s, d, c, x, Seen(b, low.pol));
    var needCO := !notes.carryDead || !notes.overflowDead;
    var flags := !notes.skip && (X86.Rotating(op) ==> needCO);
    if Wide(s) && (!flags || (!needCO && !X86.Rotating(op))) {
      FastExec(op, s, d, n, k, flags, pol, x, a);
      if !flags { ShiftFlaggedAny(op, s, k, needCO, low.pol, a, b, v, x.f.cf); }
    } else {
      GeneralExec(op, s, d, n, k, flags, needCO, pol, x, a);
    }
    PolAfter(op, s, d, c, notes, pol);
    GeneralFlags(op, s, d, c, k, notes, pol, low.pol, out, x.f, a, b, v);
  }

  lemma PolAfter(op: X86.ShiftOp, s: Size, d: X86.Operand, c: X86.Count, notes: Notes, pol: Pol)
    requires ImmCount(c, s) != 0
    ensures var needCO := !notes.carryDead || !notes.overflowDead;
      var flags := !notes.skip && (X86.Rotating(op) ==> needCO);
      var pol' := LiftShift(op, s, d, c, notes, pol).pol;
      if !flags then pol' == pol else if needCO then pol' == ShiftPol(ImmCount(c, s), pol) else pol' == CarryClear
  {
    hide LoadDst, StoreDst, ShiftSource, ShiftResult, CountCode, ZeroCountZext, IfCounted, ShiftFast;
    var n := ImmCount(c, s);
    var needCO := !notes.carryDead || !notes.overflowDead;
    var flags := !notes.skip && (X86.Rotating(op) ==> needCO);
    if !(Wide(s) && (!flags || (!needCO && !X86.Rotating(op)))) {
      GeneralPol(op, s, d, n, flags, needCO, pol);
    } else {
      FastPol(op, s, d, n, flags, pol);
    }
  }

  lemma GeneralPol(op: X86.ShiftOp, s: Size, d: X86.Operand, n: int, flags: bool, needCO: bool, pol: Pol)
    requires -1 <= n < 64
    ensures ShiftGeneral(op, s, d, n, flags, needCO, pol).pol
         == if !flags then pol else if needCO then ShiftPol(n, pol) else CarryClear
  {
    hide LoadDst, StoreDst, ShiftSource, ShiftResult, CountCode, IfCounted, ShiftCarry, InsertCarry;
  }

  lemma FastPol(op: X86.ShiftOp, s: Size, d: X86.Operand, n: int, flags: bool, pol: Pol)
    requires Wide(s) && -1 <= n
    ensures ShiftFast(op, s, d, n, flags, pol).pol == if flags then CarryClear else pol
  {
    hide LoadDst, StoreDst, FastCount, FastShift, FastTest;
  }

  lemma ShiftFlaggedAny(op: X86.ShiftOp, s: Size, k: nat, needCO: bool, pol: Pol, a: State, b: State, v: Word, cf: bool)
    ensures ShiftFlagged(op, s, k, false, false, pol, a, b, v, cf)
      ==> ShiftFlagged(op, s, k, false, needCO, pol, a, b, v, cf)
  {
  }

  lemma ZeroLive(op: X86.ShiftOp, s: Size, d: X86.Operand, c: X86.Count, f: X86.Flags, a: State, b: State, pol: Pol,
                 out: Live)
    requires ImmCount(c, s) == 0 && b == a.(g := b.g)
    requires FlagsOk(f, a, pol, Before(X86.Shift(op, s, d, c), out))
    ensures FlagsOk(f, b, pol, out)
  {
  }
}
