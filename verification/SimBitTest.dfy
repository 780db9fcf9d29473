/** Lowering BT, BTS, BTR and BTC is correct: immediate and signed register offsets, register and
    memory operands. */
module SimBitTest {
  import opened Words
  import opened Guest
  import X86
  import opened Arm
  import opened Lifter
  import opened Effects
  import opened Steps
  import opened Operands
  import opened Flags
  import opened Relation
  import opened ShiftMath
  import opened SimShift
  import opened ShiftSim
  import opened SimRotCarry

  // ---- changing one bit --------------------------------------------------------------------------

  lemma {:induction false} SetBit(v: nat, k: nat)
    ensures Bw(BOr, v, Pow2(k)) == (if Bit(v, k) then v else v + Pow2(k))
    ensures Bw(BXor, v, Pow2(k)) == (if Bit(v, k) then v - Pow2(k) else v + Pow2(k))
    decreases k
  {
    LsrRange(v, k);
    if k == 0 {
      BwZero(v / 2);
    } else {
      SetBit(v / 2, k - 1);
      LsrHalf(v, k);
    }
  }

  lemma {:induction false} ClearBit(v: nat, k: nat, n: nat)
    requires k < n
    ensures Pow2(k) < Pow2(n)
    ensures Bw(BAnd, v, Pow2(n) - 1 - Pow2(k)) == Low(v, n) - (if Bit(v, k) then Pow2(k) else 0)
    decreases k
  {
    if k == 0 {
      AndMask(v / 2, n - 1);
      assert (Pow2(n) - 2) / 2 == Pow2(n - 1) - 1;
    } else {
      ClearBit(v / 2, k - 1, n - 1);
      LsrHalf(v, k);
      var m := Pow2(n) - 1 - Pow2(k);
      assert m / 2 == Pow2(n - 1) - 1 - Pow2(k - 1) && m % 2 == 1;
    }
  }

  function BitOpOf(op: X86.BitTestOp): BitOp {
    match op case Bts => BOr case Btr => BAnd case _ => BXor
  }

  function BitMask(op: X86.BitTestOp, k: nat, w: Size): int {
    if op == X86.Btr then Cap(w) - 1 - Pow2(k) else Pow2(k)
  }

  lemma ChangeBit(op: X86.BitTestOp, y: Word, k: nat, w: Size)
    requires op != X86.Bt && y < Cap(w) && k < Bits(w)
    ensures 0 <= BitMask(op, k, w) < Cap(w)
    ensures Bw(BitOpOf(op), y, BitMask(op, k, w)) == X86.WithBit(op, y, k) < Cap(w)
  {
    hide Bw, Lsr, Low, Bit, Pow2;
    SetBit(y, k);
    ClearBit(y, k, Bits(w));
    CapPow2(w);
    SmallSplit(y, Bits(w));
    BwBound(BitOpOf(op), y, BitMask(op, k, w), Bits(w));
  }

  /** The change of one bit of a register shows as the same change of the operand in it. */
  lemma WithBitTrunc(op: X86.BitTestOp, y: Word, v: Word, k: nat, s: Size)
    requires Trunc(y, s) == v && k < Bits(s)
    ensures Trunc(X86.WithBit(op, y, k), s) == Trunc(X86.WithBit(op, v, k), s)
  {
    hide Trunc, Bit, Pow2;
    BitTrunc(y, k, s);
    TruncAdd(y, 0, s);
    TruncAdd(y, Pow2(k), s);
    TruncAdd(y, 0 - Pow2(k), s);
  }

  // ---- offsets -----------------------------------------------------------------------------------------

  lemma LowMod(v: int, s: Size)
    requires s != S8
    ensures Low(v, LogBits(s)) == ModBits(v, s) && Pow2(LogBits(s)) == Bits(s)
  {
    hide Low;
    LowFive(v);
    LowSmall(v);
    Pow2Small();
  }

  lemma ModTrunc(v: int, s: Size, w: Size)
    requires s != S8 && Wide(w)
    ensures ModBits(Trunc(v, w), s) == ModBits(v, s)
  {
    hide Low, ModBits, Trunc;
    LowMod(v, s);
    LowMod(Trunc(v, w), s);
    TruncLow(v, w);
    LowLow(v, LogBits(s), Bits(w) - LogBits(s));
  }

  lemma ModSInt(v: Word, s: Size)
    requires s != S8
    ensures ModBits(SInt(v, s), s) == ModBits(v, s)
  {
    hide Low, ModBits, Trunc, SInt;
    SIntRange(v, s);
    TruncLow(v, s);
    TruncLow(SInt(v, s), s);
    LowMod(v, s);
    LowMod(SInt(v, s), s);
    LowLow(v, LogBits(s), Bits(s) - LogBits(s));
    LowLow(SInt(v, s), LogBits(s), Bits(s) - LogBits(s));
  }

  lemma LsrDiv(v: int, s: Size)
    requires s != S8
    ensures Lsr(v, LogBits(s)) == DivBits(v, s)
  {
    Lsr4(v);
    assert Lsr(v, 5) == Lsr(v, 4) / 2;
    assert Lsr(v, 6) == Lsr(v, 5) / 2;
  }

  /** AND with size - 1. */
  lemma StepMask(a: State, w: Size, n: Reg, s: Size)
    requires s != S8 && Wide(w)
    ensures Step(LOGIC(AND, false, w, T(X1), n, Lit(Bits(s) - 1)), a) == Set(a, T(X1), ModBits(Get(a, n), s))
  {
    hide Step, Set, Get, Bw, Low, Pow2, ModBits;
    var v := Get(a, n);
    LitOk(a, Bits(s) - 1, w);
    LowMod(Trunc(v, w), s);
    AndMask(Trunc(v, w), LogBits(s));
    ModTrunc(v, s, w);
    TruncSmall(ModBits(v, s), w);
    StepLogic(a, AND, w, T(X1), n, Lit(Bits(s) - 1));
  }

  /** The address of the operand that holds the bit. */
  lemma MovedAddress(ea: Word, q: int, s: Size)
    requires s != S8
    ensures Trunc(ea + Trunc(Lsl(Trunc(q, S64), LogBits(s) - 3), S64), S64) == Trunc(ea + (Bits(s) / 8) * q, S64)
  {
    hide Lsl, Low, Trunc, Lsr;
    var n := LogBits(s) - 3;
    var t := Trunc(q, S64);
    TruncLow(q, S64);
    TruncLow(Lsl(t, n), S64);
    TruncLow(Lsl(q, n), S64);
    LowLsl(t, 64 - n, n);
    LowLsl(q, 64 - n, n);
    LowLow(q, 64 - n, n);
    Consts(q);
    TruncAdd(ea, Lsl(q, n), S64);
  }

  lemma BitAddressOk(s: Size, g: Gpr, a: State)
    requires s != S8
    ensures var off := SInt(a.g[g], s); var b := Exec(BitAddress(s, g), a);
      b == a.(x := a.x.(x1 := ModBits(off, s), x4 := b.x.x4, x5 := b.x.x5,
                        x16 := Trunc(a.x.x16 + (Bits(s) / 8) * DivBits(off, s), S64)))
  {
    hide Exec, Step, Trunc, SInt, Lsl, Lsr, ModBits, DivBits, Shifted, RhsVal;
    var off := SInt(a.g[g], s);
    var q := DivBits(off, s);
    var i := if s == S64 then MOV(S64, T(X4), G(g)) else SXT(s, S64, T(X4), G(g));
    var j, k, l := SHIFT(ASR, S64, T(X5), T(X4), ByLit(LogBits(s))),
                   ADDSUB(false, false, S64, T(X16), T(X16), Sh(T(X5), LogBits(s) - 3)),
                   LOGIC(AND, false, S64, T(X1), T(X4), Lit(Bits(s) - 1));
    StepSxt(a, s, S64, T(X4), G(g));
    StepMov(a, S64, T(X4), G(g));
    SIntRange(a.g[g], s);
    var a1 := a.(x := a.x.(x4 := Trunc(off, S64)));
    AsrOffset(a1, s, off);
    var a2 := a1.(x := a1.x.(x5 := Trunc(q, S64)));
    MoveStep(a2, s, q);
    var a3 := a2.(x := a2.x.(x16 := Trunc(a.x.x16 + (Bits(s) / 8) * q, S64)));
    StepMask(a3, S64, T(X4), s);
    ModTrunc(off, s, S64);
    Exec4(i, j, k, l, a);
  }

  lemma MoveStep(a: State, s: Size, q: int)
    requires s != S8 && a.x.x5 == Trunc(q, S64)
    ensures Step(ADDSUB(false, false, S64, T(X16), T(X16), Sh(T(X5), LogBits(s) - 3)), a)
         == a.(x := a.x.(x16 := Trunc(a.x.x16 + (Bits(s) / 8) * q, S64)))
  {
    hide Step, Trunc, Lsl, RhsVal;
    StepAddSub(a, false, S64, T(X16), T(X16), Sh(T(X5), LogBits(s) - 3));
    RhsSh(a, X5, LogBits(s) - 3, S64);
    MovedAddress(a.x.x16, q, s);
  }

  lemma AsrOffset(a: State, s: Size, off: int)
    requires s != S8 && 0 - Half(s) <= off < Half(s) && a.x.x4 == Trunc(off, S64)
    ensures Step(SHIFT(ASR, S64, T(X5), T(X4), ByLit(LogBits(s))), a)
      == a.(x := a.x.(x5 := Trunc(DivBits(off, s), S64)))
  {
    hide Step, Trunc, Lsr, DivBits;
    StepShift(a, ASR, S64, T(X5), T(X4), LogBits(s));
    TruncAdd(off, 0, S64);
    SIntSmall(off, s);
    LsrDiv(off, s);
  }

  lemma SIntSmall(off: int, s: Size)
    requires 0 - Half(s) <= off < Half(s)
    ensures SInt(Trunc(off, S64), S64) == off
  {
    hide Trunc;
    TruncNear(off, S64);
    TruncAdd(off, 0, S64);
  }

  // ---- operand, test, update -----------------------------------------------------------------------------

  function Target(x: X86.State, d: X86.Operand, o: X86.Operand, s: Size): X86.Operand {
    X86.BitTarget(x, d, X86.BitOffset(x, o, s), s)
  }

  /** The bit within the operand. */
  function BitPos(x: X86.State, o: X86.Operand, s: Size): (k: nat)
    ensures k < Bits(s)
  {
    ModBits(X86.BitOffset(x, o, s), s)
  }

  /** The operand in r, a memory operand's address in x16, a register offset's bit in x1. */
  ghost predicate BitReady(d: X86.Operand, s: Size, o: X86.Operand, x: X86.State, r: Reg, b: State) {
    var t, v := Target(x, d, o, s), X86.Val(x, Target(x, d, o, s), s);
    && (t.Mem? ==> b.x.x16 == EffAddr(t.m, x.regs))
    && v < Cap(s) && Read(b, r, Wd(s)) == v && (o.Reg? ==> b.x.x1 == BitPos(x, o, s))
    && (if d.Reg? && Wide(s) then r == G(d.g) else r == T(X17) && Get(b, r) == v)
  }

  lemma TargetLegal(x: X86.State, d: X86.Operand, o: X86.Operand, s: Size)
    requires X86.LegalDst(d, s)
    ensures var t := Target(x, d, o, s); X86.LegalDst(t, s) && (if d.Mem? then t.Mem? else t == d)
    ensures forall r: Reg :: StoreDst(Target(x, d, o, s), s, r) == StoreDst(d, s, r)
  {
  }

  lemma StepLoad(a: State, s: Size)
    ensures Step(LDR(s, T(X17), T(X16)), a) == a.(x := a.x.(x17 := Load(a.mem, a.x.x16, s)))
  {
  }

  lemma DivSmall(k: nat, s: Size)
    ensures DivBits(ModBits(k, s), s) == 0 && ModBits(ModBits(k, s), s) == ModBits(k, s)
  {
  }

  lemma ImmOffset(x: X86.State, d: X86.Operand, k: Word, s: Size)
    ensures d.Mem? ==> Target(x, d, X86.Imm(k), s) == X86.Mem(Rip(EffAddr(d.m, x.regs)))
    ensures BitPos(x, X86.Imm(k), s) == ModBits(k, s)
  {
    hide EffAddr, Trunc;
    DivSmall(k, s);
    if d.Mem? { TruncSmall(EffAddr(d.m, x.regs), S64); }
  }

  lemma BitLoadMem(s: Size, m: MemRef, o: X86.Operand, a: State, x: X86.State)
    requires Agree(x, a) && s != S8 && LegalRef(m) && (o.Imm? || o.Reg?)
    ensures var l := BitLoad(s, X86.Mem(m), o); var b := Exec(l.code, a);
      b == a.(x := b.x) && BitReady(X86.Mem(m), s, o, x, l.r, b)
  {
    hide Exec, Step, Trunc, AddrCode, EffAddr, BitAddress, Load, ModBits, DivBits, SInt;
    var d := X86.Mem(m);
    var move := if o.Reg? then BitAddress(s, o.g) else [];
    var ldr := LDR(s, T(X17), T(X16));
    AddrOk(m, X16, a);
    var a1 := Exec(AddrCode(m, X16), a);
    ExecNil(a1);
    if o.Reg? { BitAddressOk(s, o.g, a1); } else { ImmOffset(x, d, o.k, s); }
    var a2 := Exec(move, a1);
    TargetAddress(x, m, o, s);
    StepLoad(a2, s);
    Exec1(ldr, a2);
    ExecCat(AddrCode(m, X16), move, a);
    ExecCat(AddrCode(m, X16) + move, [ldr], a);
    TruncSmall(Load(a.mem, a2.x.x16, s), Wd(s));
    MatchOffset(s, o);
  }

  lemma MatchOffset(s: Size, o: X86.Operand)
    requires o.Imm? || o.Reg?
    ensures (match o case Reg(g) => BitAddress(s, g) case _ => []) == if o.Reg? then BitAddress(s, o.g) else []
  {
  }

  lemma TargetAddress(x: X86.State, m: MemRef, o: X86.Operand, s: Size)
    requires o.Imm? || o.Reg?
    ensures o.Reg? ==> var off := SInt(x.regs[o.g], s);
      && Target(x, X86.Mem(m), o, s) == X86.Mem(Rip(Trunc(EffAddr(m, x.regs) + (Bits(s) / 8) * DivBits(off, s), S64)))
      && BitPos(x, o, s) == ModBits(off, s)
    ensures Target(x, X86.Mem(m), o, s).Mem? && Target(x, X86.Mem(m), o, s).m.Rip?
    ensures X86.Val(x, Target(x, X86.Mem(m), o, s), s) == Load(x.mem, Target(x, X86.Mem(m), o, s).m.target, s)
    ensures EffAddr(Target(x, X86.Mem(m), o, s).m, x.regs) == Target(x, X86.Mem(m), o, s).m.target
  {
    hide Trunc, Load, SInt;
  }

  lemma BitLoadReg(s: Size, d: X86.Operand, o: X86.Operand, a: State, x: X86.State)
    requires Agree(x, a) && s != S8 && X86.LegalDst(d, s) && d.Reg? && (o.Imm? || o.Reg?)
    ensures var l := BitLoad(s, d, o); var b := Exec(l.code, a);
      b == a.(x := b.x) && BitReady(d, s, o, x, l.r, b)
  {
    hide Exec, Step, Trunc, LoadDst, ModBits, SInt, X86.Val;
    var l := LoadDst(d, s);
    LoadDstFrame(d, s, a, x);
    var a1 := Exec(l.code, a);
    if o.Reg? {
      var and := LOGIC(AND, false, S32, T(X1), G(o.g), Lit(Bits(s) - 1));
      StepMask(a1, S32, G(o.g), s);
      ModSInt(x.regs[o.g], s);
      Exec1(and, a1);
      ExecCat(l.code, [and], a);
    } else {
      assert l.code + [] == l.code;
    }
  }

  lemma BitLoadOk(s: Size, d: X86.Operand, o: X86.Operand, a: State, x: X86.State)
    requires Agree(x, a) && X86.Legal(X86.BitTest(X86.Bt, s, d, o))
    ensures var l := BitLoad(s, d, o); var b := Exec(l.code, a);
      b == a.(x := b.x) && BitReady(d, s, o, x, l.r, b)
  {
    hide Exec, BitLoad, BitReady;
    if d.Mem? { BitLoadMem(s, d.m, o, a, x); } else { BitLoadReg(s, d, o, a, x); }
  }

  /** The tested bit of the operand goes to C. */
  lemma BitTestOk(d: X86.Operand, s: Size, o: X86.Operand, x: X86.State, r: Reg, a: State)
    requires BitReady(d, s, o, x, r, a) && (o.Imm? || o.Reg?)
    ensures var b := Exec(BitTestCode(s, r, o), a);
      b == a.(x := a.x.(x2 := b.x.x2), c := Bit(X86.Val(x, Target(x, d, o, s), s), BitPos(x, o, s)))
  {
    hide Exec, Step, Trunc, X86.Val, Target, EffAddr, Lsr;
    var k := BitPos(x, o, s);
    var y := Get(a, r);
    var first := BitTestCode(s, r, o)[0];
    BitTrunc(y, k, Wd(s));
    Zero(Lsr(y, k));
    if o.Imm? {
      ImmOffset(x, d, o.k, s);
      UbfxBit(a, X2, r, k);
    } else {
      ModSelf(k, S64);
      StepShiftReg(a, LSR, S64, T(X2), r, T(X1), k);
      TruncSmall(y, S64);
      LsrRange(y, k);
      TruncSmall(Lsr(y, k), S64);
    }
    var a1 := Step(first, a);
    RmifC(a1, T(X2));
    Exec2(first, RMIF(T(X2), 63, 2), a);
  }

  // ---- update ----------------------------------------------------------------------------------------------

  lemma ArmBitOp(op: X86.BitTestOp, y: Word, k: nat, w: Size)
    requires op != X86.Bt && y < Cap(w) && k < Bits(w)
    ensures Lsl(1, k) == Pow2(k) < Cap(w)
    ensures Logical(BitChange(op), y, Pow2(k), w) == X86.WithBit(op, y, k)
    ensures op == X86.Btr ==> Logical(AND, y, Trunc(Cap(w) - 1 - Pow2(k), S64), w) == X86.WithBit(op, y, k)
  {
    hide Trunc, Bw, Pow2, Lsl, X86.WithBit;
    LslPow2(1, k);
    ChangeBit(op, y, k, w);
    var p := Pow2(k);
    Pow2Mono(k + 1, Bits(w));
    Pow2Double(k);
    CapPow2(w);
    TruncSmall(X86.WithBit(op, y, k), w);
    TruncNear(-1 - (p as int), w);
    TruncSmall(Cap(w) - 1 - p, S64);
  }

  lemma Pow2Double(n: nat)
    ensures Pow2(n + 1) == 2 * Pow2(n) && Pow2(n) > 0
  {
  }

  /** The changed operand in r; only x3 changes besides. */
  lemma BitUpdateOk(op: X86.BitTestOp, d: X86.Operand, s: Size, o: X86.Operand, x: X86.State, r: Reg, a: State)
    returns (y: Word)
    requires BitReady(d, s, o, x, r, a) && (o.Imm? || o.Reg?) && op != X86.Bt && s != S8
    ensures var b := Exec(BitUpdate(op, s, r, o), a);
      b == Set(a.(x := a.x.(x3 := b.x.x3)), r, y) && y < Cap(S64) && (r.G? ==> y < Cap(Wd(s)))
    ensures Trunc(y, s) == Trunc(X86.WithBit(op, X86.Val(x, Target(x, d, o, s), s), BitPos(x, o, s)), s)
  {
    hide Exec, Step, Trunc, X86.Val, Target, EffAddr, Lsl, X86.WithBit, BitPos;
    var k := BitPos(x, o, s);
    if o.Imm? {
      ImmOffset(x, d, o.k, s);
      y := BitUpdateImm(op, s, r, o, k, a, X86.Val(x, Target(x, d, o, s), s));
    } else {
      y := BitUpdateReg(op, s, r, o, k, a, X86.Val(x, Target(x, d, o, s), s));
    }
  }

  lemma BitUpdateImm(op: X86.BitTestOp, s: Size, r: Reg, o: X86.Operand, k: nat, a: State, v: Word) returns (y: Word)
    requires o.Imm? && k == ModBits(o.k, s) && op != X86.Bt && Read(a, r, Wd(s)) == v < Cap(s)
    ensures Exec(BitUpdate(op, s, r, o), a) == Set(a, r, y)
    ensures y < Cap(Wd(s)) && Trunc(y, s) == Trunc(X86.WithBit(op, v, k), s)
  {
    hide Exec, Step, Trunc, Lsl, X86.WithBit, Logical, Set, Get, Pow2;
    var w := Wd(s);
    ArmBitOp(op, v, k, w);
    y := X86.WithBit(op, v, k);
    ChangeBit(op, v, k, w);
    var p := Pow2(k);
    TruncSmall(p, S64);
    LitOk(a, p, w);
    Pow2Mono(k + 1, Bits(w));
    Pow2Double(k);
    CapPow2(w);
    TruncSmall(Cap(w) - 1 - p, S64);
    LitOk(a, Cap(w) - 1 - p, w);
    StepLogic(a, AND, w, r, r, Lit(Cap(w) - 1 - p));
    StepLogic(a, BitChange(op), w, r, r, Lit(p));
    Exec1(BitUpdate(op, s, r, o)[0], a);
  }

  /** The mask in x3 and the operation on all 64 bits. */
  lemma BitMaskReg(op: X86.BitTestOp, r: Reg, k: nat, a: State)
    requires a.x.x1 == k < 64 && op != X86.Bt && (r.G? || r == T(X17))
    ensures Pow2(k) < Cap(S64)
    ensures Exec([MOVZ(T(X3), 1, 0), SHIFT(LSL, S64, T(X3), T(X3), ByReg(T(X1))),
      LOGIC(BitChange(op), false, S64, r, r, Sh(T(X3), 0))], a)
         == Set(a.(x := a.x.(x3 := Pow2(k))), r, Logical(BitChange(op), Get(a, r), Pow2(k), S64))
  {
    hide Exec, Step, Trunc, Lsl, Logical, Pow2, RhsVal;
    var u := Get(a, r);
    var i, j := MOVZ(T(X3), 1, 0), SHIFT(LSL, S64, T(X3), T(X3), ByReg(T(X1)));
    StepMovz(a, T(X3), 1);
    var a1 := a.(x := a.x.(x3 := 1));
    ArmBitOp(op, u, k, S64);
    TruncSmall(Pow2(k), S64);
    ModSelf(k, S64);
    StepVar(a1, LSL, X3, X3, X1, 1, k);
    var a2 := a1.(x := a1.x.(x3 := Pow2(k)));
    RhsPlain(a2, T(X3), S64);
    TruncSmall(u, S64);
    StepLogic(a2, BitChange(op), S64, r, r, Sh(T(X3), 0));
    Exec3(i, j, LOGIC(BitChange(op), false, S64, r, r, Sh(T(X3), 0)), a);
  }

  lemma BitUpdateReg(op: X86.BitTestOp, s: Size, r: Reg, o: X86.Operand, k: nat, a: State, v: Word) returns (y: Word)
    requires o.Reg? && a.x.x1 == k < Bits(s) && op != X86.Bt && Read(a, r, Wd(s)) == v < Cap(s) && s != S8
    requires r.G? ==> Wide(s)
    requires r.G? || (r == T(X17) && Get(a, r) == v)
    ensures var b := Exec(BitUpdate(op, s, r, o), a); b == Set(a.(x := a.x.(x3 := b.x.x3)), r, y)
    ensures (r.G? ==> y < Cap(Wd(s))) && Trunc(y, s) == Trunc(X86.WithBit(op, v, k), s)
  {
    hide Exec, Step, Trunc, Lsl, X86.WithBit, Logical, Pow2, Set, Get;
    var u := Get(a, r);
    BitMaskReg(op, r, k, a);
    var a2 := a.(x := a.x.(x3 := Pow2(k)));
    ArmBitOp(op, u, k, S64);
    ChangeBit(op, u, k, S64);
    TruncTrunc(u, s, Wd(s));
    TruncSmall(v, s);
    WithBitTrunc(op, u, v, k, s);
    y := BitUpdateTail(op, s, r, o, a2, X86.WithBit(op, u, k));
    var three :=
      [MOVZ(T(X3), 1, 0), SHIFT(LSL, S64, T(X3), T(X3), ByReg(T(X1))),
        LOGIC(BitChange(op), false, S64, r, r, Sh(T(X3), 0))];
    var mov := if s == S32 && r != T(X17) then [MOV(S32, r, r)] else [];
    ExecCat(three, mov, a);
    assert BitUpdate(op, s, r, o) == three + mov;
    KeptX3(a, a2, r, y);
  }

  lemma KeptX3(a: State, b: State, r: Reg, y: Word)
    requires b == a.(x := a.x.(x3 := b.x.x3)) && (r.G? || r == T(X17))
    ensures Set(b, r, y) == Set(a.(x := a.x.(x3 := Set(b, r, y).x.x3)), r, y)
  {
  }

  /** The final MOV of a 32-bit register. */
  lemma BitUpdateTail(op: X86.BitTestOp, s: Size, r: Reg, o: X86.Operand, a: State, z: Word) returns (y: Word)
    requires o.Reg? && (r.G? || r == T(X17)) && s != S8 && (r.G? ==> Wide(s))
    ensures var mov := if s == S32 && r != T(X17) then [MOV(S32, r, r)] else [];
      Exec(mov, Set(a, r, z)) == Set(a, r, y)
    ensures (r.G? ==> y < Cap(Wd(s))) && Trunc(y, s) == Trunc(z, s)
  {
    hide Exec, Step, Trunc;
    ExecNil(Set(a, r, z));
    if s == S32 && r != T(X17) {
      y := Trunc(z, S32);
      StepMov(Set(a, r, z), S32, r, r);
      Exec1(MOV(S32, r, r), Set(a, r, z));
      GetSet(a, r, z, y);
      TruncBound(z, S32);
      TruncAdd(z, 0, S32);
    } else {
      y := z;
    }
  }

  // ---- the instruction -----------------------------------------------------------------------------------

  /** Test (when CF is live) and update, on the operand in r. */
  lemma BitBodyOk(op: X86.BitTestOp, d: X86.Operand, s: Size, o: X86.Operand, dead: bool, x: X86.State, r: Reg,
                  a: State)
    requires Agree(x, a) && BitReady(d, s, o, x, r, a) && X86.Legal(X86.BitTest(op, s, d, o))
    ensures var t := Target(x, d, o, s); var v, k := X86.Val(x, t, s), BitPos(x, o, s);
      var y := if op == X86.Bt then x else X86.Put(x, t, Trunc(X86.WithBit(op, v, k), s), s);
      var b := Exec((if dead then [] else BitTestCode(s, r, o))
                    + (if op == X86.Bt then [] else BitUpdate(op, s, r, o) + StoreDst(d, s, r)), a);
      b == a.(g := y.regs, mem := y.mem, x := b.x, c := if dead then a.c else Bit(v, k))
  {
    hide Exec, Trunc, X86.Val, X86.Put, Target, EffAddr, X86.WithBit, BitPos, BitTestCode, BitUpdate, StoreDst, Bit,
         Read;
    var t := Target(x, d, o, s);
    var v, k := X86.Val(x, t, s), BitPos(x, o, s);
    var test := if dead then [] else BitTestCode(s, r, o);
    var upd := if op == X86.Bt then [] else BitUpdate(op, s, r, o) + StoreDst(d, s, r);
    ExecNil(a);
    if !dead { BitTestOk(d, s, o, x, r, a); }
    var a1 := Exec(test, a);
    ExecCat(test, upd, a);
    ExecNil(a1);
    if op != X86.Bt {
      ReadyAfter(d, s, o, x, r, a, a1);
      BitWrite(op, d, s, o, x, r, a1);
    }
  }

  lemma ReadyAfter(d: X86.Operand, s: Size, o: X86.Operand, x: X86.State, r: Reg, a: State, b: State)
    requires BitReady(d, s, o, x, r, a) && b == a.(x := a.x.(x2 := b.x.x2), c := b.c)
    ensures BitReady(d, s, o, x, r, b)
  {
    hide X86.Val, Target, EffAddr, BitPos, Trunc;
  }

  lemma BitWrite(op: X86.BitTestOp, d: X86.Operand, s: Size, o: X86.Operand, x: X86.State, r: Reg, a: State)
    requires Agree(x, a) && BitReady(d, s, o, x, r, a) && X86.Legal(X86.BitTest(op, s, d, o)) && op != X86.Bt
    ensures var t := Target(x, d, o, s); var v, k := X86.Val(x, t, s), BitPos(x, o, s);
      var y := X86.Put(x, t, Trunc(X86.WithBit(op, v, k), s), s);
      var b := Exec(BitUpdate(op, s, r, o) + StoreDst(d, s, r), a);
      b == a.(g := y.regs, mem := y.mem, x := b.x)
  {
    hide Exec, Trunc, X86.Val, X86.Put, Target, EffAddr, X86.WithBit, BitPos, BitUpdate, StoreDst, Set, Get, Read;
    var t := Target(x, d, o, s);
    var res := Trunc(X86.WithBit(op, X86.Val(x, t, s), BitPos(x, o, s)), s);
    var y := BitUpdateOk(op, d, s, o, x, r, a);
    var b := Exec(BitUpdate(op, s, r, o), a);
    var a1 := a.(x := a.x.(x3 := b.x.x3));
    TargetLegal(x, d, o, s);
    TruncAdd(X86.WithBit(op, X86.Val(x, t, s), BitPos(x, o, s)), 0, s);
    WriteBack(t, s, r, a1, x, y, res);
    ExecCat(BitUpdate(op, s, r, o), StoreDst(d, s, r), a);
  }

  lemma BitEval(op: X86.BitTestOp, s: Size, d: X86.Operand, o: X86.Operand, x: X86.State, u: X86.Flags)
    ensures var t := Target(x, d, o, s); var v, k := X86.Val(x, t, s), BitPos(x, o, s);
      var y := if op == X86.Bt then x else X86.Put(x, t, Trunc(X86.WithBit(op, v, k), s), s);
      X86.Eval(X86.BitTest(op, s, d, o), x, u) == y.(f := X86.Flags(u.sf, x.f.zf, Bit(v, k), u.of))
  {
    hide X86.Put, X86.Val, X86.WithBit, Trunc, Bit;
  }

  lemma BitShape(op: X86.BitTestOp, s: Size, d: X86.Operand, o: X86.Operand, notes: Notes, pol: Pol)
    ensures var l := BitLoad(s, d, o);
      LiftBt(op, s, d, o, notes, pol)
        == Lowered(l.code + ((if notes.carryDead then [] else BitTestCode(s, l.r, o))
                             + (if op == X86.Bt then [] else BitUpdate(op, s, l.r, o) + StoreDst(d, s, l.r))),
                   if notes.carryDead then pol else CarryAdd)
  {
    hide BitLoad, BitUpdate, StoreDst;
  }

  lemma BitTestSim(op: X86.BitTestOp, s: Size, d: X86.Operand, o: X86.Operand, notes: Notes, pol: Pol, out: Live,
                   x: X86.State, a: State)
    requires X86.Legal(X86.BitTest(op, s, d, o)) && NotesOk(notes, out)
    requires Related(x, a, pol, Before(X86.BitTest(op, s, d, o), out))
    ensures Simulated(X86.BitTest(op, s, d, o), x, a, LiftBt(op, s, d, o, notes, pol), out)
  {
    hide Exec, X86.Eval, X86.Val, X86.Put, X86.WithBit, LiftBt, BitLoad, BitReady, BitUpdate, StoreDst, BitTestCode,
         Target, BitPos, Bit, Trunc;
    var l := BitLoad(s, d, o);
    BitLoadOk(s, d, o, a, x);
    var a1 := Exec(l.code, a);
    BitBodyOk(op, d, s, o, notes.carryDead, x, l.r, a1);
    BitShape(op, s, d, o, notes, pol);
    var body := (if notes.carryDead then [] else BitTestCode(s, l.r, o))
                + (if op == X86.Bt then [] else BitUpdate(op, s, l.r, o) + StoreDst(d, s, l.r));
    ExecCat(l.code, body, a);
    var low := LiftBt(op, s, d, o, notes, pol);
    BitEval(op, s, d, o, x, Seen(Exec(low.code, a), low.pol));
  }
}
