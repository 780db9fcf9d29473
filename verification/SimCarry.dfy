/** Lowering ADC and SBB is correct at every size and in every incoming carry sense; the 8- and
    16-bit forms get result, N, Z and V from a sign-extended sum and CF from a zero-extended one. */
module SimCarry {
  import opened Words
  import opened Guest
  import X86
  import opened Arm
  import opened Lifter
  import opened Effects
  import opened Steps
  import opened Operands
  import opened Flags
  import opened Relation

  /** C encodes the guest CF cf in the sense pol. */
  predicate Encodes(a: State, pol: Pol, cf: bool) {
    CarryOf(a.c, pol) == cf && (pol == CarryClear ==> !a.c)
  }

  lemma CarryCondOk(a: State, pol: Pol, cf: bool)
    requires Encodes(a, pol, cf)
    ensures Passes(CarryCond(pol, true), a) == cf && Passes(CarryCond(pol, false), a) == !cf
  {
  }

  // ---- 32 and 64 bits ------------------------------------------------------------------------

  /** ADCS and SBCS after C was brought into the sense they need. */
  lemma AdcWideOk(sbb: bool, s: Size, r: Reg, b: Reg, flags: bool, pol: Pol, a: State, cf: bool, x: Word, y: Word)
    returns (f: State)
    requires Wide(s) && Encodes(a, pol, cf) && Read(a, r, s) == x && Read(a, b, s) == y
    ensures Exec(AdcWide(sbb, s, r, b, flags, pol).code, a) == Set(f, r, Trunc(SumOf(sbb, x, y, B2N(cf)), s))
    ensures if flags then f == WithFlags(a, SumFlags(sbb, x, y, B2N(cf), s), SumPol(sbb)) else f == a.(c := f.c)
  {
    hide Exec, Step, Set, Get, Trunc, SumFlags, AddSub;
    var invert := if sbb then pol != CarrySub else pol == CarrySub;
    var a1 := if invert then a.(c := !a.c) else a;
    var i := ADCSBC(sbb, flags, s, r, r, b);
    assert a1.c == (cf != sbb);
    TruncBound(Get(a, r), s);
    TruncBound(Get(a, b), s);
    FlagsOnlyC(a, a1.c, r, b, s, SumFlags(sbb, x, y, B2N(cf), s), SumPol(sbb));
    StepAdc(a1, sbb, flags, s, r, r, b);
    if flags {
      f := WithFlags(a1, SumFlags(sbb, x, y, B2N(cf), s), SumPol(sbb));
      AddSubFlags(a1, sbb, cf, s, r, x, y);
    } else {
      f := a1;
      AddSubNoFlags(a1, sbb, cf, s, r, x, y);
    }
    if invert {
      StepCfinv(a);
      Exec2(CFINV, i, a);
      assert [CFINV] + [i] == [CFINV, i];
    } else {
      Exec1(i, a);
      assert [] + [i] == [i];
    }
  }

  lemma StepAdc(a: State, sub: bool, setf: bool, w: Size, d: Reg, n: Reg, r: Reg)
    ensures Step(ADCSBC(sub, setf, w, d, n, r), a) == AddSub(a, sub, a.c, setf, w, d, Read(a, n, w), Read(a, r, w))
  {
    hide Get, Trunc, AddSub;
  }

  lemma StepCfinv(a: State)
    ensures Step(CFINV, a) == a.(c := !a.c)
  {
  }

  lemma FlagsOnlyC(a: State, c: bool, r: Reg, b: Reg, s: Size, f: X86.Flags, pol: Pol)
    ensures var a1 := a.(c := c);
      Read(a1, r, s) == Read(a, r, s) && Read(a1, b, s) == Read(a, b, s)
        && WithFlags(a1, f, pol) == WithFlags(a, f, pol)
  {
  }

  lemma AddSubNoFlags(a: State, sub: bool, c: bool, w: Size, d: Reg, x: Word, y: Word)
    requires x < Cap(w) && y < Cap(w)
    ensures AddSub(a, sub, c != sub, false, w, d, x, y) == Set(a, d, Trunc(SumOf(sub, x, y, B2N(c)), w))
  {
    hide Set, Trunc;
    if sub { ComplementSum(x, y, B2N(c), w); }
  }

  // ---- 8 and 16 bits ---------------------------------------------------------------------------

  /** The registers of the operand, the carry and the second sum: x0, x2 and x4, or for a locked
      operation x2, x4 and x6. */
  predicate Triple(b: Scratch, c: Scratch, t: Scratch) {
    (b == X0 && c == X2 && t == X4) || (b == X2 && c == X4 && t == X6)
  }

  /** x3 := the sum of the sign-extended operands and the carry. */
  lemma SignedSum(sbb: bool, s: Size, yr: Scratch, cr: Scratch, t: Scratch, a: State, x: Word, y: Word, c: nat)
    requires !Wide(s) && Triple(yr, cr, t) && a.x.x17 == x && Peek(a.x, yr) == y && Peek(a.x, cr) == c && c <= 1
    ensures var b := Exec(SignedSumCode(sbb, s, T(yr), cr, t), a);
      b == a.(x := Poke(a.x.(x3 := Trunc(SumOf(sbb, SInt(x, s), SInt(y, s), c), S32)), t, Peek(b.x, t)))
  {
    hide Exec, Step, Trunc, SInt, RhsVal, Get;
    var sx, sy := SInt(x, s), SInt(y, s);
    var code := SignedSumCode(sbb, s, T(yr), cr, t);
    GetT(a, X17);
    StepSxt(a, s, S32, T(X3), T(X17));
    var b := Set(a, T(X3), Trunc(sx, S32));
    GetT(b, yr);
    StepSxt(b, s, S32, T(t), T(yr));
    var b' := Set(b, T(t), Trunc(sy, S32));
    SumTail(sbb, cr, t, b', sx, sy, c);
    Exec2(code[2], code[3], b');
    Exec2(code[0], code[1], a);
    ExecCat(code[..2], code[2..], a);
    assert code[..2] + code[2..] == code && code[..2] == [code[0], code[1]] && code[2..] == [code[2], code[3]];
  }

  lemma SumTail(sbb: bool, cr: Scratch, t: Scratch, a: State, sx: int, sy: int, c: nat)
    requires (cr == X2 && t == X4) || (cr == X4 && t == X6)
    requires a.x.x3 == Trunc(sx, S32) && Peek(a.x, t) == Trunc(sy, S32) && Peek(a.x, cr) == c && c <= 1
    ensures Step(ADDSUB(sbb, false, S32, T(X3), T(X3), Sh(T(cr), 0)),
      Step(ADDSUB(sbb, false, S32, T(X3), T(X3), Sh(T(t), 0)), a))
         == Set(a, T(X3), Trunc(SumOf(sbb, sx, sy, c), S32))
  {
    hide Step, Trunc, RhsVal, Get;
    var first := if sbb then sx - sy else sx + sy;
    GetT(a, X3);
    GetT(a, t);
    RhsPlain(a, T(t), S32);
    StepAddSub(a, sbb, S32, T(X3), T(X3), Sh(T(t), 0));
    TruncAdd(sy, 0, S32);
    TruncAdd(sx, sy, S32);
    TruncAdd(Trunc(sx, S32), sy, S32);
    TruncAdd(sx, -sy, S32);
    var b := Set(a, T(X3), Trunc(first, S32));
    GetT(b, X3);
    GetT(b, cr);
    RhsPlain(b, T(cr), S32);
    StepAddSub(b, sbb, S32, T(X3), T(X3), Sh(T(cr), 0));
    TruncSmall(c, S32);
    TruncAdd(first, c, S32);
    TruncAdd(first, 0 - (c as int), S32);
  }

  /** t := the sum of the zero-extended operands and the carry. */
  lemma UnsignedSum(sbb: bool, yr: Scratch, cr: Scratch, t: Scratch, a: State, x: Word, y: Word, c: nat)
    requires Triple(yr, cr, t) || (yr == X0 && cr == X2 && t == X3)
    requires a.x.x17 == x && Peek(a.x, yr) == y && Peek(a.x, cr) == c && c <= 1
    ensures Exec(UnsignedSumCode(sbb, T(yr), cr, t), a) == Set(a, T(t), Trunc(SumOf(sbb, x, y, c), S32))
  {
    hide Exec, Step, Trunc, RhsVal, Get;
    var code := UnsignedSumCode(sbb, T(yr), cr, t);
    var first := SumOf(sbb, x, y, 0);
    GetT(a, X17);
    GetT(a, yr);
    RhsPlain(a, T(yr), S32);
    StepAddSub(a, sbb, S32, T(t), T(X17), Sh(T(yr), 0));
    TruncAdd(x, y, S32);
    var b := Set(a, T(t), Trunc(first, S32));
    GetT(b, t);
    GetT(b, cr);
    RhsPlain(b, T(cr), S32);
    StepAddSub(b, sbb, S32, T(t), T(t), Sh(T(cr), 0));
    TruncSmall(c, S32);
    TruncAdd(first, c, S32);
    TruncAdd(first, 0 - (c as int), S32);
    Exec2(code[0], code[1], a);
  }

  /** The carry out of the zero-extended sum, as bit 0 of t. */
  lemma CarryOutOk(sbb: bool, s: Size, t: Scratch, a: State, x: Word, y: Word, c: nat)
    requires !Wide(s) && x < Cap(s) && y < Cap(s) && c <= 1
    requires Peek(a.x, t) == Trunc(SumOf(sbb, x, y, c), S32)
    ensures var cf := SumFlags(sbb, x, y, c, s).cf;
      Exec(CarryOutCode(sbb, s, t), a) == Set(a, T(t), B2N(if sbb then !cf else cf))
  {
    hide Exec, Step, Trunc, Lsr, Low, Set, Get, Peek, Poke;
    var u := SumOf(sbb, x, y, c);
    var v := Trunc(u, S32);
    TruncSmall(x, s);
    TruncSmall(y, s);
    TruncNear(u, S32);
    TruncBound(u, S32);
    GetT(a, t);
    if sbb {
      var i, j := SHIFT(LSR, S32, T(t), T(t), ByLit(31)), LOGIC(EOR, false, S32, T(t), T(t), Lit(1));
      var top: Word := if u < 0 then 1 else 0;
      StepShift(a, LSR, S32, T(t), T(t), 31);
      TruncSmall(v, S32);
      TopBit(v);
      TruncSmall(top, S32);
      var b := Set(a, T(t), top);
      GetT(b, t);
      GetSet(a, T(t), top, 1 - top);
      StepFlip(b, S32, t, top);
      Exec2(i, j, a);
    } else {
      TruncSmall(u, S32);
      StepUbfx(a, t, T(t), Bits(s), 1);
      CarryBit(u, s);
      TruncSmall(Field(u, Bits(s), 1), S64);
      Exec1(UBFX(T(t), T(t), Bits(s), 1), a);
    }
  }

  lemma TopBit(v: Word)
    requires v < Cap(S32)
    ensures Lsr(v, 31) == if v >= Half(S32) then 1 else 0
  {
    hide Lsr, Low, Lsl;
    Split(v, 31);
    Pow2Consts();
    LslPow2(1, 31);
    var q := Lsr(v, 31);
    LsrRange(v, 31);
    if q >= 2 {
      LslMono(2, q, 31);
      LslAdd(1, 1, 31);
      assert false;
    }
  }

  lemma CarryBit(v: nat, s: Size)
    requires !Wide(s) && v < 2 * Cap(s)
    ensures Field(v, Bits(s), 1) == if v >= Cap(s) then 1 else 0
  {
    hide Lsr;
    LsrConsts(v);
  }

  /** N, Z and V from the signed sum. */
  lemma NarrowSigned(sbb: bool, s: Size, yr: Scratch, cr: Scratch, t: Scratch, a: State, x: Word, y: Word, c: nat)
    requires !Wide(s) && Triple(yr, cr, t) && x < Cap(s) && y < Cap(s) && c <= 1
    requires a.x.x17 == x && Peek(a.x, yr) == y && Peek(a.x, cr) == c
    ensures var b := Exec(SignedSumCode(sbb, s, T(yr), cr, t) + [SETF(s, T(X3))], a);
      && b == WithNZV(a, SumFlags(sbb, x, y, c, s)).(x := b.x) && b.x.x17 == x && Peek(b.x, yr) == y
         && Peek(b.x, cr) == c
      && b.x.x16 == a.x.x16 && b.x.x3 < Cap(S32) && Trunc(b.x.x3, s) == Trunc(SumOf(sbb, x, y, c), s)
  {
    hide Exec, Step, Trunc, SInt, SumFlags, SignedSumCode;
    var signed, setf := SignedSumCode(sbb, s, T(yr), cr, t), SETF(s, T(X3));
    SignedSum(sbb, s, yr, cr, t, a, x, y, c);
    var b1 := Exec(signed, a);
    TruncBound(SumOf(sbb, SInt(x, s), SInt(y, s), c), S32);
    SetfSum(b1, X3, sbb, x, y, c, s);
    Exec1(setf, b1);
    ExecCat(signed, [setf], a);
  }

  /** The narrow flags: all right, C in the new sense; the sum in x3. */
  lemma NarrowCarryOk(sbb: bool, s: Size, yr: Scratch, cr: Scratch, t: Scratch, a: State, x: Word, y: Word, c: nat)
    requires !Wide(s) && Triple(yr, cr, t) && x < Cap(s) && y < Cap(s) && c <= 1
    requires a.x.x17 == x && Peek(a.x, yr) == y && Peek(a.x, cr) == c
    ensures var b := Exec(NarrowCarry(sbb, s, T(yr), cr, t), a);
      && b == WithFlags(a, SumFlags(sbb, x, y, c, s), SumPol(sbb)).(x := b.x)
      && b.x.x16 == a.x.x16 && b.x.x3 < Cap(S32) && Trunc(b.x.x3, s) == Trunc(SumOf(sbb, x, y, c), s)
  {
    hide Exec, Step, Trunc, SInt, SumFlags, SignedSumCode, UnsignedSumCode, CarryOutCode, Peek, Poke;
    var front := SignedSumCode(sbb, s, T(yr), cr, t) + [SETF(s, T(X3))];
    var back := UnsignedSumCode(sbb, T(yr), cr, t) + CarryOutCode(sbb, s, t) + [RMIF(T(t), 63, 2)];
    NarrowSigned(sbb, s, yr, cr, t, a, x, y, c);
    NarrowUnsigned(sbb, s, yr, cr, t, Exec(front, a), x, y, c);
    ExecCat(front, back, a);
    assert NarrowCarry(sbb, s, T(yr), cr, t) == front + back;
  }

  /** CF from the unsigned sum; only t and C change. */
  lemma NarrowUnsigned(sbb: bool, s: Size, yr: Scratch, cr: Scratch, t: Scratch, a: State, x: Word, y: Word, c: nat)
    requires !Wide(s) && Triple(yr, cr, t) && x < Cap(s) && y < Cap(s) && c <= 1
    requires a.x.x17 == x && Peek(a.x, yr) == y && Peek(a.x, cr) == c
    ensures var b := Exec(UnsignedSumCode(sbb, T(yr), cr, t) + CarryOutCode(sbb, s, t) + [RMIF(T(t), 63, 2)], a);
      && b == a.(x := b.x, c := if sbb then !SumFlags(sbb, x, y, c, s).cf else SumFlags(sbb, x, y, c, s).cf)
      && b.x.x16 == a.x.x16 && b.x.x3 == a.x.x3
  {
    hide Exec, Step, Trunc, SumFlags, UnsignedSumCode, CarryOutCode;
    var unsigned, carry, rmif := UnsignedSumCode(sbb, T(yr), cr, t), CarryOutCode(sbb, s, t), RMIF(T(t), 63, 2);
    UnsignedSum(sbb, yr, cr, t, a, x, y, c);
    var b3 := Exec(unsigned, a);
    CarryOutOk(sbb, s, t, b3, x, y, c);
    var b4 := Exec(carry, b3);
    ExecCat(unsigned, carry, a);
    RmifC(b4, T(t));
    Exec1(rmif, b4);
    ExecCat(unsigned + carry, [rmif], a);
  }

  /** The narrow core of liftAdcSbb. */
  lemma AdcNarrowOk(sbb: bool, s: Size, pol: Pol, a: State, cf: bool, x: Word, y: Word)
    requires !Wide(s) && Encodes(a, pol, cf) && x < Cap(s) && y < Cap(s) && a.x.x17 == x && a.x.x0 == y
    ensures var b := Exec(AdcNarrow(sbb, s, T(X0), true, pol).code, a);
      && b == WithFlags(a, SumFlags(sbb, x, y, B2N(cf), s), SumPol(sbb)).(x := b.x)
      && b.x.x16 == a.x.x16 && b.x.x3 < Cap(S32)
      && Trunc(b.x.x3, s) == Trunc(SumOf(sbb, x, y, B2N(cf)), s)
  {
    hide Exec, Step, Trunc, SumFlags, NarrowCarry;
    var cset := CSET(S32, T(X2), CarryCond(pol, true));
    CarryCondOk(a, pol, cf);
    StepCset(a, X2, CarryCond(pol, true));
    Exec1(cset, a);
    NarrowCarryOk(sbb, s, X0, X2, X4, Set(a, T(X2), B2N(cf)), x, y, B2N(cf));
    ExecCat([cset], NarrowCarry(sbb, s, T(X0), X2, X4), a);
  }

  // ---- the whole lowering ----------------------------------------------------------------------

  /** AdcSource: the source in a register; a memory destination's value and address survive. */
  lemma AdcSourceOk(o: X86.Operand, s: Size, a: State, x: X86.State)
    requires Agree(x, a) && X86.LegalOperand(o, s)
    ensures var l := AdcSource(o, s); var b := Exec(l.code, a);
      && b == a.(x := b.x) && b.x.x17 == a.x.x17 && (!o.Mem? ==> b.x.x16 == a.x.x16)
      && Read(b, l.r, Wd(s)) == X86.Val(x, o, s)
      && (!Wide(s) ==> l.r == T(X0) && b.x.x0 == X86.Val(x, o, s))
      && (l.r == ZR ==> l.code == [] && X86.Val(x, o, s) == 0)
  {
    hide Exec, Trunc, Load, LoadImm64, ReadMem, ReadReg, EffAddr;
    ValBound(x, o, s);
    TruncSmall(X86.Val(x, o, s), Wd(s));
    ExecNil(a);
    match o {
      case Imm(k) => if AdcSource(o, s).r != ZR { LoadImm64Ok(T(X0), X86.Val(x, o, s), a); } else { TruncSmall(0, s); }
      case Mem(m) => ReadMemOk(m, s, X0, a);
      case Reg(_) => if !Wide(s) { ReadRegOk(o, s, X0, a, x); }
      case High(_) => ReadRegOk(o, s, X0, a, x);
    }
  }

  /** Loads, core and write-back; f holds the flags after the core. */
  lemma AdcAround(sbb: bool, s: Size, d: X86.Operand, o: X86.Operand, core: seq<Instr>, r: Reg,
                  x: X86.State, a: State, f: State, v: Word, res: Word)
    requires Agree(x, a) && X86.LegalDst(d, s) && X86.LegalOperand(o, s) && !(d.Mem? && o.Mem?)
    requires (r.T? && r.t != X16) || (d.Reg? && Wide(s) && r == G(d.g))
    requires v < Cap(Wd(s)) && Trunc(v, s) == Trunc(res, s)
    requires var b := Exec(LoadDst(d, s).code + AdcSource(o, s).code, a);
      Exec(core, b) == Set(f, r, v) && f.g == a.g && f.mem == a.mem && f.x.x16 == b.x.x16
    ensures var y := X86.Put(x, d, res, s);
      var c := Exec(LoadDst(d, s).code + AdcSource(o, s).code + core + StoreDst(d, s, r), a);
      c == f.(g := y.regs, mem := y.mem, x := c.x)
  {
    hide Exec, Trunc, X86.Val, X86.Put, LoadDst, StoreDst, AdcSource, Set, EffAddr;
    var l, b := LoadDst(d, s).code, AdcSource(o, s).code;
    LoadDstOk(d, s, a, x);
    AdcSourceOk(o, s, Exec(l, a), x);
    ExecCat(l, b, a);
    WriteBack(d, s, r, f, x, v, res);
    ExecCat(l + b, core, a);
    ExecCat(l + b + core, StoreDst(d, s, r), a);
  }

  lemma AdcOperandsOk(d: X86.Operand, o: X86.Operand, s: Size, a: State, x: X86.State)
    requires Agree(x, a) && X86.LegalDst(d, s) && X86.LegalOperand(o, s)
    ensures var l, b := LoadDst(d, s), AdcSource(o, s); var c := Exec(l.code + b.code, a);
      && c == a.(x := c.x)
      && Read(c, l.r, Wd(s)) == X86.Val(x, d, s) && Read(c, b.r, Wd(s)) == X86.Val(x, o, s)
      && (!Wide(s) ==> b.r == T(X0) && c.x.x17 == X86.Val(x, d, s) && c.x.x0 == X86.Val(x, o, s))
      && (if d.Reg? && Wide(s) then l.r == G(d.g) else l.r == T(X17))
  {
    hide Exec, Trunc, X86.Val, LoadDst, AdcSource, EffAddr;
    var l, b := LoadDst(d, s), AdcSource(o, s);
    LoadDstOk(d, s, a, x);
    var a1 := Exec(l.code, a);
    AdcSourceOk(o, s, a1, x);
    ExecCat(l.code, b.code, a);
  }

  function AdcResult(sbb: bool, x: X86.State, d: X86.Operand, o: X86.Operand, s: Size): Word {
    Trunc(SumOf(sbb, X86.Val(x, d, s), X86.Val(x, o, s), B2N(x.f.cf)), s)
  }

  function AdcFlags(sbb: bool, x: X86.State, d: X86.Operand, o: X86.Operand, s: Size): X86.Flags {
    SumFlags(sbb, X86.Val(x, d, s), X86.Val(x, o, s), B2N(x.f.cf), s)
  }

  lemma AdcWideExec(sbb: bool, s: Size, d: X86.Operand, o: X86.Operand, flags: bool, pol: Pol, x: X86.State, a: State)
    requires X86.Legal(X86.AdcSbb(sbb, s, d, o)) && Agree(x, a) && Wide(s) && Encodes(a, pol, x.f.cf)
    ensures var l, b := LoadDst(d, s), AdcSource(o, s);
      var c := AdcWide(sbb, s, l.r, b.r, flags, pol);
      var y := X86.Put(x, d, AdcResult(sbb, x, d, o, s), s);
      var e := Exec(l.code + b.code + c.code + StoreDst(d, s, l.r), a);
      if flags then e == WithFlags(a, AdcFlags(sbb, x, d, o, s), SumPol(sbb)).(g := y.regs, mem := y.mem, x := e.x)
      else e == a.(g := y.regs, mem := y.mem, x := e.x, c := e.c)
  {
    hide Exec, Trunc, X86.Val, X86.Put, LoadDst, StoreDst, AdcSource, Set, SumFlags, AdcWide, Read;
    var l, b := LoadDst(d, s), AdcSource(o, s);
    AdcOperandsOk(d, o, s, a, x);
    var a1 := Exec(l.code + b.code, a);
    var va, vb := X86.Val(x, d, s), X86.Val(x, o, s);
    var f := AdcWideOk(sbb, s, l.r, b.r, flags, pol, a1, x.f.cf, va, vb);
    var res := AdcResult(sbb, x, d, o, s);
    TruncBound(SumOf(sbb, va, vb, B2N(x.f.cf)), s);
    AdcAround(sbb, s, d, o, AdcWide(sbb, s, l.r, b.r, flags, pol).code, l.r, x, a, f, res, res);
  }

  lemma AdcNarrowExec(sbb: bool, s: Size, d: X86.Operand, o: X86.Operand, pol: Pol, x: X86.State, a: State)
    requires X86.Legal(X86.AdcSbb(sbb, s, d, o)) && Agree(x, a) && !Wide(s) && Encodes(a, pol, x.f.cf)
    ensures var l, b := LoadDst(d, s), AdcSource(o, s);
      var c := AdcNarrow(sbb, s, b.r, true, pol);
      var y := X86.Put(x, d, AdcResult(sbb, x, d, o, s), s);
      var e := Exec(l.code + b.code + c.code + StoreDst(d, s, T(X3)), a);
      e == WithFlags(a, AdcFlags(sbb, x, d, o, s), SumPol(sbb)).(g := y.regs, mem := y.mem, x := e.x)
  {
    hide Exec, Trunc, X86.Val, X86.Put, LoadDst, StoreDst, AdcSource, SumFlags, AdcNarrow, Read;
    var l, b := LoadDst(d, s), AdcSource(o, s);
    AdcOperandsOk(d, o, s, a, x);
    ValBound(x, d, s);
    ValBound(x, o, s);
    var a1 := Exec(l.code + b.code, a);
    AdcNarrowOk(sbb, s, pol, a1, x.f.cf, X86.Val(x, d, s), X86.Val(x, o, s));
    var core := AdcNarrow(sbb, s, b.r, true, pol).code;
    var f := Exec(core, a1);
    TruncAdd(SumOf(sbb, X86.Val(x, d, s), X86.Val(x, o, s), B2N(x.f.cf)), 0, s);
    AdcAround(sbb, s, d, o, core, T(X3), x, a, f, f.x.x3, AdcResult(sbb, x, d, o, s));
  }

  /** Without flags only the result is computed. */
  lemma AdcNarrowPlain(sbb: bool, s: Size, d: X86.Operand, o: X86.Operand, pol: Pol, x: X86.State, a: State)
    requires X86.Legal(X86.AdcSbb(sbb, s, d, o)) && Agree(x, a) && !Wide(s) && Encodes(a, pol, x.f.cf)
    ensures var l, b := LoadDst(d, s), AdcSource(o, s);
      var c := AdcNarrow(sbb, s, b.r, false, pol);
      var y := X86.Put(x, d, AdcResult(sbb, x, d, o, s), s);
      var e := Exec(l.code + b.code + c.code + StoreDst(d, s, T(X3)), a);
      e == a.(g := y.regs, mem := y.mem, x := e.x)
  {
    hide Exec, Step, Trunc, X86.Val, X86.Put, LoadDst, StoreDst, AdcSource, Read;
    var l, b := LoadDst(d, s), AdcSource(o, s);
    AdcOperandsOk(d, o, s, a, x);
    var va, vb := X86.Val(x, d, s), X86.Val(x, o, s);
    var sum := SumOf(sbb, va, vb, B2N(x.f.cf));
    var a1 := Exec(l.code + b.code, a);
    CarryCondOk(a1, pol, x.f.cf);
    StepCset(a1, X2, CarryCond(pol, true));
    var cset := CSET(S32, T(X2), CarryCond(pol, true));
    var f := Set(a1, T(X2), B2N(x.f.cf));
    Exec1(cset, a1);
    UnsignedSum(sbb, X0, X2, X3, f, va, vb, B2N(x.f.cf));
    var add :=
      [ADDSUB(sbb, false, S32, T(X3), T(X17), Sh(T(X0), 0)), ADDSUB(sbb, false, S32, T(X3), T(X3), Sh(T(X2), 0))];
    ExecCat([cset], add, a1);
    TruncTrunc(sum, s, S32);
    TruncBound(sum, S32);
    TruncAdd(sum, 0, s);
    AdcAround(sbb, s, d, o, [cset] + add, T(X3), x, a, f, Trunc(sum, S32), AdcResult(sbb, x, d, o, s));
  }

  lemma DstIsReg(d: X86.Operand, s: Size)
    requires d.Reg? && Wide(s)
    ensures LoadDst(d, s).r == G(d.g)
  {
  }

  lemma StepCsetm(a: State, s: Size, g: Gpr, cond: Cond)
    ensures Step(CSETM(s, G(g), cond), a) == Set(a, G(g), Trunc(0 - B2N(Passes(cond, a)), s))
  {
    hide Passes, Trunc, Set;
  }

  lemma StepCinc(a: State, s: Size, g: Gpr, cond: Cond)
    ensures Step(CINC(s, G(g), G(g), cond), a) == Set(a, G(g), Trunc(Get(a, G(g)) + B2N(Passes(cond, a)), s))
  {
    hide Passes, Trunc, Set, Get;
  }

  /** adc r, 0 and sbb r, r with dead flags: CINC and CSETM of the carry condition. */
  lemma AdcIdiomExec(sbb: bool, s: Size, d: X86.Operand, o: X86.Operand, notes: Notes, pol: Pol, x: X86.State, a: State)
    requires X86.Legal(X86.AdcSbb(sbb, s, d, o)) && Agree(x, a) && Wide(s) && Encodes(a, pol, x.f.cf)
    requires d.Reg? && notes.skip && (if sbb then o == d else AdcSource(o, s).r == ZR)
    ensures var y := X86.Put(x, d, AdcResult(sbb, x, d, o, s), s);
      Exec(LiftAdcSbb(sbb, s, d, o, notes, pol).code, a) == a.(g := y.regs, mem := y.mem)
  {
    hide Exec, Step, Trunc, Merge, AdcSource, CarryCond, LoadDst, AdcWide, StoreDst;
    var c, v := B2N(x.f.cf), a.g[d.g];
    CarryCondOk(a, pol, x.f.cf);
    AdcSourceOk(o, s, a, x);
    var res := AdcResult(sbb, x, d, o, s);
    WideMerge(v, res, s);
    DstIsReg(d, s);
    StepCsetm(a, s, d.g, CarryCond(pol, true));
    StepCinc(a, s, d.g, CarryCond(pol, true));
    if sbb {
      var i := CSETM(s, G(d.g), CarryCond(pol, true));
      Exec1(i, a);
      TruncAdd(0 - (c as int), 0, s);
    } else {
      var i := CINC(s, G(d.g), G(d.g), CarryCond(pol, true));
      Exec1(i, a);
      TruncAdd(v, c, s);
      TruncAdd(v + c, 0, s);
    }
  }

  lemma AdcExec(sbb: bool, s: Size, d: X86.Operand, o: X86.Operand, notes: Notes, pol: Pol, x: X86.State, a: State)
    requires X86.Legal(X86.AdcSbb(sbb, s, d, o)) && Agree(x, a) && Encodes(a, pol, x.f.cf)
    ensures var y := X86.Put(x, d, AdcResult(sbb, x, d, o, s), s);
      var low := LiftAdcSbb(sbb, s, d, o, notes, pol);
      var e := Exec(low.code, a);
      if notes.skip then e == a.(g := y.regs, mem := y.mem, x := e.x, c := e.c)
      else (e == WithFlags(a, AdcFlags(sbb, x, d, o, s), SumPol(sbb)).(g := y.regs, mem := y.mem, x := e.x)
            && low.pol == SumPol(sbb))
  {
    hide Exec, X86.Val, X86.Put, LoadDst, StoreDst, Trunc, AdcSource, AdcResult, AdcFlags, Encodes, WithFlags;
    var l, b := LoadDst(d, s), AdcSource(o, s);
    if Wide(s) && d.Reg? && notes.skip && (if sbb then o == d else b.r == ZR) {
      AdcIdiomExec(sbb, s, d, o, notes, pol, x, a);
    } else if Wide(s) {
      AdcWideExec(sbb, s, d, o, !notes.skip, pol, x, a);
    } else {
      AdcOperandsOk(d, o, s, a, x);
      if notes.skip { AdcNarrowPlain(sbb, s, d, o, pol, x, a); } else { AdcNarrowExec(sbb, s, d, o, pol, x, a); }
    }
  }

  lemma AdcEval(sbb: bool, s: Size, d: X86.Operand, o: X86.Operand, x: X86.State, u: X86.Flags)
    ensures X86.Eval(X86.AdcSbb(sbb, s, d, o), x, u)
         == X86.Put(x, d, AdcResult(sbb, x, d, o, s), s).(f := AdcFlags(sbb, x, d, o, s))
  {
    hide X86.Val, X86.Put, Trunc, SInt, Msb;
  }

  lemma AdcSbbSim(sbb: bool, s: Size, d: X86.Operand, o: X86.Operand, notes: Notes, pol: Pol, out: Live, x: X86.State,
                  a: State)
    requires X86.Legal(X86.AdcSbb(sbb, s, d, o)) && NotesOk(notes, out)
    requires Related(x, a, pol, Before(X86.AdcSbb(sbb, s, d, o), out))
    ensures Simulated(X86.AdcSbb(sbb, s, d, o), x, a, LiftAdcSbb(sbb, s, d, o, notes, pol), out)
  {
    hide Exec, X86.Val, X86.Put, X86.Eval, AdcResult, AdcFlags, LiftAdcSbb;
    var low := LiftAdcSbb(sbb, s, d, o, notes, pol);
    AdcExec(sbb, s, d, o, notes, pol, x, a);
    AdcEval(sbb, s, d, o, x, Seen(Exec(low.code, a), low.pol));
  }
}
