/** Lowering RCL and RCR is correct: the closed forms are the bit-by-bit rotate through CF. */
module SimRotCarry {
  import opened Words
  import opened Guest
  import X86
  import opened Arm
  import opened Lifter
  import opened Effects
  import opened Steps
  import opened Operands
  import opened Flags
  import opened Relation
  import opened ShiftMath
  import opened RotCarryMath
  import opened SimShift
  import opened ShiftSim
  import opened SimCarry

  // ---- single steps over scratch registers --------------------------------------------------------

  lemma StepOr(a: State, d: Scratch, n: Scratch, m: Scratch, x: Word, y: Word, r: Word)
    requires Peek(a.x, n) == x && Peek(a.x, m) == y && Bw(BOr, x, y) == r
    ensures Step(LOGIC(ORR, false, S64, T(d), T(n), Sh(T(m), 0)), a) == Set(a, T(d), r)
  {
    hide Step, Set, Bw, Trunc, RhsVal, Get;
    GetT(a, n);
    GetT(a, m);
    RhsPlain(a, T(m), S64);
    TruncSmall(x, S64);
    TruncSmall(y, S64);
    TruncSmall(r, S64);
    StepLogic(a, ORR, S64, T(d), T(n), Sh(T(m), 0));
  }

  /** A variable 64-bit shift of a scratch register by k. */
  lemma StepVar(a: State, sh: ShOp, d: Scratch, n: Scratch, r: Scratch, x: Word, k: nat)
    requires (sh == LSL || sh == LSR) && Peek(a.x, n) == x && ModBits(Peek(a.x, r), S64) == k
    ensures 0 <= Lsr(x, k) <= x
    ensures Step(SHIFT(sh, S64, T(d), T(n), ByReg(T(r))), a)
      == Set(a, T(d), if sh == LSL then Trunc(Lsl(x, k), S64) else Lsr(x, k))
  {
    hide Step, Set, Trunc, Lsl, Lsr, Get, ModBits;
    GetT(a, n);
    GetT(a, r);
    TruncSmall(x, S64);
    LsrRange(x, k);
    TruncSmall(Lsr(x, k), S64);
    StepShiftReg(a, sh, S64, T(d), T(n), T(r), k);
  }

  lemma StepSubOne(a: State, d: Scratch, n: Scratch, k: nat)
    requires Peek(a.x, n) == k && 0 < k < 0x1_0000
    ensures Step(ADDSUB(true, false, S64, T(d), T(n), Lit(1)), a) == Set(a, T(d), k - 1)
  {
    hide Step, Set, Trunc, Get;
    GetT(a, n);
    LitOk(a, 1, S64);
    TruncSmall(k - 1, S64);
    StepAddSub(a, true, S64, T(d), T(n), Lit(1));
  }

  /** x6 := -x1: the residue is 64 - k. */
  lemma StepNeg64(a: State, k: nat)
    requires a.x.x1 == k && 0 < k < 64
    ensures Step(ADDSUB(true, false, S64, T(X6), ZR, Sh(T(X1), 0)), a) == Set(a, T(X6), Cap(S64) - k)
    ensures ModBits(Cap(S64) - k, S64) == 64 - k
  {
    hide Step, Set, Trunc;
    RhsPlain(a, T(X1), S64);
    TruncSmall(k, S64);
    StepAddSub(a, true, S64, T(X6), ZR, Sh(T(X1), 0));
    TruncNear(0 - k, S64);
    NegMod(k);
  }

  // ---- 64 bits -----------------------------------------------------------------------------------

  /** Inputs of the 64-bit rotate: count, CF, value and negated count. */
  ghost predicate Inputs64(a: State, v: Word, cf: bool, c: nat) {
    0 < c < 64 && a.x.x1 == c && a.x.x2 == B2N(cf) && a.x.x3 == v && a.x.x6 == Cap(S64) - c
  }

  lemma Left64First(a: State, v: Word, cf: bool, c: nat)
    requires Inputs64(a, v, cf, c)
    ensures var b := Exec(Rot64First(true), a);
      b == a.(x := a.x.(x5 := b.x.x5, x7 := b.x.x7)) && b.x.x5 == Lsl(Low(v, 64 - c), c) + Lsl(B2N(cf), c - 1)
  {
    hide Exec, Step, Lsl, Lsr, Low, Trunc, Bw;
    var i, j := SHIFT(LSL, S64, T(X5), T(X3), ByReg(T(X1))), ADDSUB(true, false, S64, T(X7), T(X1), Lit(1));
    var k, l := SHIFT(LSL, S64, T(X7), T(X2), ByReg(T(X7))), LOGIC(ORR, false, S64, T(X5), T(X5), Sh(T(X7), 0));
    var p, q := Lsl(Low(v, 64 - c), c), Lsl(B2N(cf), c - 1);
    Long64Or(v, cf, c);
    TruncLow(Lsl(v, c), S64);
    LowLsl(v, 64 - c, c);
    TruncSmall(q, S64);
    StepVar(a, LSL, X5, X3, X1, v, c);
    var a1 := a.(x := a.x.(x5 := p));
    StepSubOne(a1, X7, X1, c);
    var a2 := a1.(x := a1.x.(x7 := c - 1));
    StepVar(a2, LSL, X7, X2, X7, B2N(cf), c - 1);
    var a3 := a2.(x := a2.x.(x7 := q));
    StepOr(a3, X5, X5, X7, p, q, p + q);
    Exec4(i, j, k, l, a);
  }

  lemma Left64Second(a: State, v: Word, cf: bool, c: nat)
    requires Inputs64(a, v, cf, c)
    requires a.x.x5 == Lsl(Low(v, 64 - c), c) + Lsl(B2N(cf), c - 1)
    ensures 0 <= Long64(v, cf, c) < Cap(S64) && 0 <= Lsr(v, 65 - c) <= v && 0 <= Lsr(v, 64 - c) <= v
    ensures Exec(Rot64Second(true), a)
         == a.(x := a.x.(x5 := Long64(v, cf, c), x7 := Lsr(v, 65 - c), x4 := Lsr(v, 64 - c)))
  {
    hide Exec, Step, Lsl, Lsr, Low, Trunc, Bw, Long64, Shifted;
    var i, j := SHIFT(LSR, S64, T(X7), T(X3), ByLit(1)), SHIFT(LSR, S64, T(X7), T(X7), ByReg(T(X6)));
    var k, l := LOGIC(ORR, false, S64, T(X5), T(X5), Sh(T(X7), 0)), SHIFT(LSR, S64, T(X4), T(X3), ByReg(T(X6)));
    LsrRange(v, 1);
    LsrRange(v, 65 - c);
    LsrRange(v, 64 - c);
    Long64Or(v, cf, c);
    NegMod(c);
    HalfShift(a, X7, X3, LSR, v);
    var a1 := a.(x := a.x.(x7 := Lsr(v, 1)));
    LsrLsr(v, 1, 64 - c);
    StepVar(a1, LSR, X7, X7, X6, Lsr(v, 1), 64 - c);
    var a2 := a1.(x := a1.x.(x7 := Lsr(v, 65 - c)));
    StepOr(a2, X5, X5, X7, a.x.x5, Lsr(v, 65 - c), Long64(v, cf, c));
    var a3 := a2.(x := a2.x.(x5 := Long64(v, cf, c)));
    StepVar(a3, LSR, X4, X3, X6, v, 64 - c);
    Exec4(i, j, k, l, a);
  }

  lemma HalfShift(a: State, d: Scratch, n: Scratch, sh: ShOp, v: Word)
    requires (sh == LSR || sh == LSL) && Peek(a.x, n) == v
    ensures 0 <= Lsr(v, 1) <= v
    ensures Step(SHIFT(sh, S64, T(d), T(n), ByLit(1)), a)
      == Set(a, T(d), if sh == LSR then Lsr(v, 1) else Trunc(Lsl(v, 1), S64))
  {
    hide Step, Set, Trunc, Lsl, Lsr, Get;
    GetT(a, n);
    TruncSmall(v, S64);
    LsrRange(v, 1);
    TruncSmall(Lsr(v, 1), S64);
    StepShift(a, sh, S64, T(d), T(n), 1);
  }

  lemma RightShifts(a: State, v: Word, cf: bool, c: nat, q: Word)
    requires Inputs64(a, v, cf, c) && q == Lsl(B2N(cf), 64 - c)
    ensures 0 <= Lsr(v, c) <= v
    ensures Step(SHIFT(LSL, S64, T(X7), T(X2), ByReg(T(X6))), Step(SHIFT(LSR, S64, T(X5), T(X3), ByReg(T(X1))), a))
         == a.(x := a.x.(x5 := Lsr(v, c), x7 := q))
  {
    hide Step, Lsl, Lsr, Trunc;
    NegMod(c);
    LsrRange(v, c);
    StepVar(a, LSR, X5, X3, X1, v, c);
    TruncSmall(q, S64);
    StepVar(a.(x := a.x.(x5 := Lsr(v, c))), LSL, X7, X2, X6, B2N(cf), 64 - c);
  }

  lemma Right64First(a: State, v: Word, cf: bool, c: nat)
    requires Inputs64(a, v, cf, c)
    ensures var b := Exec(Rot64First(false), a);
      b == a.(x := a.x.(x5 := b.x.x5, x7 := Trunc(Lsl(v, 1), S64))) && b.x.x5 == Lsl(B2N(cf), 64 - c) + Lsr(v, c)
  {
    hide Exec, Step, Lsl, Lsr, Low, Trunc, Bw, Long64, Pow2;
    var i, j := SHIFT(LSR, S64, T(X5), T(X3), ByReg(T(X1))), SHIFT(LSL, S64, T(X7), T(X2), ByReg(T(X6)));
    var k, l := LOGIC(ORR, false, S64, T(X5), T(X5), Sh(T(X7), 0)), SHIFT(LSL, S64, T(X7), T(X3), ByLit(1));
    var p, q := Lsr(v, c), Lsl(B2N(cf), 64 - c);
    Long64Or(v, cf, 65 - c);
    NegMod(c);
    LsrRange(v, c);
    RightShifts(a, v, cf, c, q);
    var a2 := a.(x := a.x.(x5 := p, x7 := q));
    StepOr(a2, X5, X5, X7, p, q, q + p);
    var a3 := a2.(x := a2.x.(x5 := q + p));
    HalfShift(a3, X7, X3, LSL, v);
    Exec4(i, j, k, l, a);
  }

  lemma Right64Second(a: State, v: Word, cf: bool, c: nat)
    requires Inputs64(a, v, cf, c)
    requires a.x.x5 == Lsl(B2N(cf), 64 - c) + Lsr(v, c) && a.x.x7 == Trunc(Lsl(v, 1), S64)
    ensures 0 <= Long64(v, cf, 65 - c) < Cap(S64) && 0 <= Lsr(v, c - 1) <= v
    ensures Exec(Rot64Second(false), a)
         == a.(x := a.x.(x5 := Long64(v, cf, 65 - c), x7 := c - 1, x4 := Lsr(v, c - 1)))
  {
    hide Exec, Step, Lsl, Lsr, Low, Trunc, Bw, Long64;
    var i, j := SHIFT(LSL, S64, T(X7), T(X7), ByReg(T(X6))), LOGIC(ORR, false, S64, T(X5), T(X5), Sh(T(X7), 0));
    var k, l := ADDSUB(true, false, S64, T(X7), T(X1), Lit(1)), SHIFT(LSR, S64, T(X4), T(X3), ByReg(T(X7)));
    var q := Lsl(Low(v, c - 1), 65 - c);
    Long64Or(v, cf, 65 - c);
    LsrRange(v, c - 1);
    NegMod(c);
    DoubleLsl(v, c);
    StepVar(a, LSL, X7, X7, X6, a.x.x7, 64 - c);
    var a1 := a.(x := a.x.(x7 := q));
    StepOr(a1, X5, X5, X7, a.x.x5, q, Long64(v, cf, 65 - c));
    var a2 := a1.(x := a1.x.(x5 := Long64(v, cf, 65 - c)));
    StepSubOne(a2, X7, X1, c);
    var a3 := a2.(x := a2.x.(x7 := c - 1));
    StepVar(a3, LSR, X4, X3, X7, v, c - 1);
    Exec4(i, j, k, l, a);
  }

  /** 2v shifted left by 64 - c within 64 bits. */
  lemma DoubleLsl(v: Word, c: nat)
    requires 0 < c < 64
    ensures Trunc(Lsl(Trunc(Lsl(v, 1), S64), 64 - c), S64) == Lsl(Low(v, c - 1), 65 - c)
  {
    hide Lsl, Lsr, Low;
    var u := Trunc(Lsl(v, 1), S64);
    TruncLow(Lsl(v, 1), S64);
    TruncLow(Lsl(u, 64 - c), S64);
    LowLsl(u, c, 64 - c);
    LowLow(Lsl(v, 1), c, 64 - c);
    LowLsl(v, c - 1, 1);
    LslLsl(Low(v, c - 1), 1, 64 - c);
  }

  /** x3 holds the operand, x4 CF out and x5 the result r; x6 and x7 are free. */
  ghost predicate RotDone(a: State, b: State, v: Word, s: Size, r: X86.VC) {
    && b == a.(x := a.x.(x3 := v, x4 := B2N(r.cf), x5 := b.x.x5, x6 := b.x.x6, x7 := b.x.x7))
    && Trunc(b.x.x5, s) == r.v
  }

  /** The rotate amount of CF:dst that brings the high part to the low end. */
  function LongShift(left: bool, c: nat, s: Size): nat
    requires 0 < c <= Bits(s)
  {
    if left then c else Bits(s) + 1 - c
  }

  lemma LongClosed(left: bool, v: Word, cf: bool, n: nat, s: Size)
    requires v < Cap(s) && ModLong(n, s) != 0
    ensures var r := X86.RotCarryBy(left, X86.VC(v, cf), n, s); var m := Bits(s) + 1;
      r.v < Cap(s) && Enc(r, s) == RotR(Enc(X86.VC(v, cf), s), m - LongShift(left, ModLong(n, s), s), m)
  {
    hide RotR, Enc, X86.RotCarryBy, ModLong;
    if left { LeftClosed(X86.VC(v, cf), n, s); } else { RightClosed(X86.VC(v, cf), n, s); }
  }

  lemma Rot64Value(left: bool, v: Word, cf: bool, n: nat)
    requires ModLong(n, S64) != 0
    ensures var k := LongShift(left, ModLong(n, S64), S64);
      var r := X86.RotCarryBy(left, X86.VC(v, cf), n, S64);
      r.v == Long64(v, cf, k) && r.cf == Bit(v, 64 - k)
  {
    hide RotR, X86.RotCarryBy, Long64, Bit, ModLong;
    var k := LongShift(left, ModLong(n, S64), S64);
    LongClosed(left, v, cf, n, S64);
    Long64Ok(v, cf, k);
    Long64Or(v, cf, k);
  }

  lemma Rot64Shifts(left: bool, v: Word, cf: bool, c: nat, a: State)
    requires Inputs64(a, v, cf, c)
    ensures var k := LongShift(left, c, S64); var b := Exec(Rot64First(left) + Rot64Second(left), a);
      && b == a.(x := a.x.(x4 := b.x.x4, x5 := b.x.x5, x7 := b.x.x7)) && b.x.x5 == Long64(v, cf, k)
         && b.x.x4 == Lsr(v, 64 - k)
  {
    hide Exec, Lsr, Lsl, Low, Long64, Trunc, Rot64First, Rot64Second;
    ExecCat(Rot64First(left), Rot64Second(left), a);
    if left {
      Left64First(a, v, cf, c);
      Left64Second(Exec(Rot64First(true), a), v, cf, c);
    } else {
      Right64First(a, v, cf, c);
      Right64Second(Exec(Rot64First(false), a), v, cf, c);
    }
  }

  lemma Rot64Ok(left: bool, val: Reg, v: Word, cf: bool, n: nat, a: State)
    requires Read(a, val, S64) == v && a.x.x2 == B2N(cf) && a.x.x1 == ModLong(n, S64) && 0 < a.x.x1 < 64
    ensures RotDone(a, Exec(RotValue64(left, val), a), v, S64, X86.RotCarryBy(left, X86.VC(v, cf), n, S64))
  {
    hide Exec, Step, X86.RotCarryBy, Long64, Lsr, Trunc, Rot64First, Rot64Second, ModLong;
    var c := a.x.x1;
    var k := LongShift(left, c, S64);
    var first := [MOV(S64, T(X3), val), ADDSUB(true, false, S64, T(X6), ZR, Sh(T(X1), 0))];
    var shifts, and := Rot64First(left) + Rot64Second(left), LOGIC(AND, false, S64, T(X4), T(X4), Lit(1));
    StepMov(a, S64, T(X3), val);
    StepNeg64(Set(a, T(X3), v), c);
    Exec2(first[0], first[1], a);
    var a2 := a.(x := a.x.(x3 := v, x6 := Cap(S64) - c));
    Rot64Shifts(left, v, cf, c, a2);
    ExecCat(first, shifts, a);
    var a3 := Exec(shifts, a2);
    StepAndOne(a3, X4, T(X4));
    Exec1(and, a3);
    ExecCat(first + shifts, [and], a);
    assert RotValue64(left, val) == first + shifts + [and];
    Rot64Value(left, v, cf, n);
    TruncSmall(a3.x.x5, S64);
  }

  // ---- up to 32 bits --------------------------------------------------------------------------------

  lemma RotSmallValue(left: bool, v: Word, cf: bool, n: nat, s: Size, y: Word)
    requires s != S64 && v < Cap(s) && ModLong(n, s) != 0
    requires var m := Bits(s) + 1; var k := LongShift(left, ModLong(n, s), s);
      Low(y, m) == RotR(Enc(X86.VC(v, cf), s), m - k, m)
    ensures var r := X86.RotCarryBy(left, X86.VC(v, cf), n, s);
      Trunc(y, s) == r.v && Bit(y, Bits(s)) == r.cf
  {
    hide RotR, X86.RotCarryBy, Lsr, Low, Trunc, ModLong, Lsl;
    var r := X86.RotCarryBy(left, X86.VC(v, cf), n, s);
    var b := Bits(s);
    LongClosed(left, v, cf, n, s);
    TruncLow(y, s);
    LowSplit(y, b, 1);
    LowOne(Lsr(y, b));
    LslPow2(0, b);
    LslPow2(1, b);
    CapPow2(s);
    TruncBound(y, s);
  }

  /** CF:v in x4. */
  lemma PackValue(a: State, v: Word, cf: bool, s: Size)
    requires s != S64 && v < Cap(s) && a.x.x3 == v && a.x.x2 == B2N(cf)
    ensures Enc(X86.VC(v, cf), s) < 2 * Cap(S32)
    ensures Step(LOGIC(ORR, false, S64, T(X4), T(X3), Sh(T(X2), Bits(s))), a) == Set(a, T(X4), Enc(X86.VC(v, cf), s))
  {
    hide Step, Set, Bw, Trunc, RhsVal, Get, Lsl;
    var c := B2N(cf);
    CapPow2(s);
    LslCap(c, s);
    OrDisjoint(c, v, Bits(s));
    GetT(a, X3);
    RhsSh(a, X2, Bits(s), S64);
    TruncSmall(v, S64);
    TruncSmall(Lsl(c, Bits(s)), S64);
    TruncSmall(Enc(X86.VC(v, cf), s), S64);
    StepLogic(a, ORR, S64, T(X4), T(X3), Sh(T(X2), Bits(s)));
  }

  /** x6 := size + 1 - count */
  lemma RestCount(a: State, s: Size, c: nat)
    requires s != S64 && 0 < c <= Bits(s) && a.x.x1 == c
    ensures Exec(RotRest(s), a) == Set(a, T(X6), Bits(s) + 1 - c)
  {
    hide Exec, Step, Trunc, RhsVal;
    StepMovz(a, T(X6), Bits(s) + 1);
    var b := Set(a, T(X6), Bits(s) + 1);
    RhsPlain(b, T(X1), S32);
    TruncSmall(c, S32);
    TruncSmall(Bits(s) + 1 - c, S32);
    StepAddSub(b, true, S32, T(X6), T(X6), Sh(T(X1), 0));
    Exec2(MOVZ(T(X6), Bits(s) + 1, 0), ADDSUB(true, false, S32, T(X6), T(X6), Sh(T(X1), 0)), a);
  }

  lemma TwoShifts(left: bool, a: State, e: Word, c: nat, d: nat, p: Word, q: Word)
    requires a.x.x4 == e && ModBits(a.x.x1, S64) == c && ModBits(a.x.x6, S64) == d
    requires if left then p == Trunc(Lsl(e, c), S64) && q == Lsr(e, d) else p == Lsr(e, c) && q == Trunc(Lsl(e, d), S64)
    ensures Step(SHIFT(if left then LSR else LSL, S64, T(X7), T(X4), ByReg(T(X6))),
                 Step(SHIFT(if left then LSL else LSR, S64, T(X5), T(X4), ByReg(T(X1))), a))
         == a.(x := a.x.(x5 := p, x7 := q))
  {
    hide Step, Lsl, Lsr, Trunc, ModBits;
    StepVar(a, if left then LSL else LSR, X5, X4, X1, e, c);
    StepVar(a.(x := a.x.(x5 := p)), if left then LSR else LSL, X7, X4, X6, e, d);
  }

  lemma SmallShifts(left: bool, s: Size, e: Word, c: nat, a: State)
    requires s != S64 && 0 < c <= Bits(s) && a.x.x1 == c && a.x.x6 == Bits(s) + 1 - c && a.x.x4 == e
      && e < Pow2(Bits(s) + 1)
    ensures var m := Bits(s) + 1; var k := LongShift(left, c, s);
      var b := Exec(RotShifts(left, s), a);
      && b == a.(x := a.x.(x4 := B2N(Bit(b.x.x5, Bits(s))), x5 := b.x.x5, x7 := b.x.x7))
      && Low(b.x.x5, m) == RotR(e, m - k, m)
  {
    hide Exec, Step, Trunc, Lsl, Lsr, Low, RotR, Bw, Bit, Pow2, ModBits, B2N;
    var m := Bits(s) + 1;
    var k := LongShift(left, c, s);
    var i, j := SHIFT(if left then LSL else LSR, S64, T(X5), T(X4), ByReg(T(X1))),
                SHIFT(if left then LSR else LSL, S64, T(X7), T(X4), ByReg(T(X6)));
    var hi, lo := Trunc(Lsl(e, k), S64), Lsr(e, m - k);
    RotWithin(e, m, k);
    var y := Bw(BOr, hi, lo);
    var p, q := if left then hi else lo, if left then lo else hi;
    ModSelf(c, S64);
    ModSelf(m - c, S64);
    TwoShifts(left, a, e, c, m - c, p, q);
    var a2 := a.(x := a.x.(x5 := p, x7 := q));
    StepOr(a2, X5, X5, X7, p, q, y);
    var a3 := a2.(x := a2.x.(x5 := y));
    UbfxBit(a3, X4, T(X5), Bits(s));
    Exec4(i, j, LOGIC(ORR, false, S64, T(X5), T(X5), Sh(T(X7), 0)), UBFX(T(X4), T(X5), Bits(s), 1), a);
  }

  /** x3 := the zero-extended operand */
  lemma SmallOperand(s: Size, val: Reg, v: Word, a: State)
    requires s != S64 && v < Cap(s) && Read(a, val, S32) == v
    ensures Exec(RotOperand(s, val), a) == Set(a, T(X3), v)
  {
    hide Exec, Step, Trunc, Logical, RhsVal, Get;
    StepMov(a, S32, T(X3), val);
    var mov := MOV(S32, T(X3), val);
    var b := Set(a, T(X3), v);
    Exec1(mov, a);
    if s == S32 {
      assert [mov] + [] == [mov];
    } else {
      var and := LOGIC(AND, false, S32, T(X3), T(X3), Lit(Cap(s) - 1));
      GetT(b, X3);
      LitOk(b, Cap(s) - 1, S32);
      MaskOk(v, s);
      TruncSmall(v, s);
      StepLogic(b, AND, S32, T(X3), T(X3), Lit(Cap(s) - 1));
      Exec1(and, b);
      ExecCat([mov], [and], a);
    }
  }

  /** x3, x4 and x6: value, CF:value and the rest of the count. */
  lemma SmallPrepare(s: Size, val: Reg, v: Word, cf: bool, c: nat, a: State)
    requires s != S64 && v < Cap(s) && Read(a, val, S32) == v && a.x.x2 == B2N(cf) && a.x.x1 == c && 0 < c <= Bits(s)
    ensures Enc(X86.VC(v, cf), s) < Cap(S64)
    ensures Exec(RotOperand(s, val) + [LOGIC(ORR, false, S64, T(X4), T(X3), Sh(T(X2), Bits(s)))] + RotRest(s), a)
         == a.(x := a.x.(x3 := v, x4 := Enc(X86.VC(v, cf), s), x6 := Bits(s) + 1 - c))
  {
    hide Exec, Step, Trunc, Enc, RotOperand, RotRest;
    var or := LOGIC(ORR, false, S64, T(X4), T(X3), Sh(T(X2), Bits(s)));
    SmallOperand(s, val, v, a);
    var a1 := a.(x := a.x.(x3 := v));
    PackValue(a1, v, cf, s);
    var a2 := a1.(x := a1.x.(x4 := Enc(X86.VC(v, cf), s)));
    Exec1(or, a1);
    RestCount(a2, s, c);
    ExecCat(RotOperand(s, val), [or], a);
    ExecCat(RotOperand(s, val) + [or], RotRest(s), a);
  }

  lemma RotSmallOk(left: bool, s: Size, val: Reg, v: Word, cf: bool, n: nat, a: State)
    requires s != S64 && v < Cap(s) && Read(a, val, S32) == v && a.x.x2 == B2N(cf) && a.x.x1 == ModLong(n, s)
      && a.x.x1 != 0
    ensures RotDone(a, Exec(RotValueSmall(left, s, val), a), v, s, X86.RotCarryBy(left, X86.VC(v, cf), n, s))
  {
    hide Exec, X86.RotCarryBy, Trunc, RotR, Bit, Low, ModLong, Enc, Pow2, RotOperand, RotRest, RotShifts, Read;
    var c := a.x.x1;
    SmallPrepare(s, val, v, cf, c, a);
    var e := Enc(X86.VC(v, cf), s);
    var prep := RotOperand(s, val) + [LOGIC(ORR, false, S64, T(X4), T(X3), Sh(T(X2), Bits(s)))] + RotRest(s);
    var a1 := Exec(prep, a);
    EncBound(X86.VC(v, cf), s);
    SmallShifts(left, s, e, c, a1);
    RotSmallValue(left, v, cf, n, s, Exec(RotShifts(left, s), a1).x.x5);
    ExecCat(prep, RotShifts(left, s), a);
  }

  // ---- count, flags and the whole instruction ---------------------------------------------------------

  lemma ModLongCases(k: nat, s: Size)
    requires k < Bits(Wd(s))
    ensures ModLong(k, s) == if s == S8 then k % 9 else if s == S16 then k % 17 else k
  {
  }

  /** The remainder by UDIV and MSUB. */
  lemma LongCount(s: Size, k: nat, a: State)
    requires !Wide(s) && k < 32 && a.x.x1 == k
    ensures var b :=
      Exec([MOVZ(T(X5), Bits(s) + 1, 0), UDIV(S32, T(X6), T(X1), T(X5)), MSUB(S32, T(X1), T(X6), T(X5), T(X1))], a);
      b == a.(x := a.x.(x1 := ModLong(k, s), x5 := b.x.x5, x6 := b.x.x6))
  {
    hide Exec, Step, Trunc, ModLong;
    var m: nat := Bits(s) + 1;
    StepMovz(a, T(X5), m);
    var a1 := a.(x := a.x.(x5 := m));
    StepUdiv(a1, k, m);
    var a2 := a1.(x := a1.x.(x6 := k / m));
    Remainder(k, s);
    StepMsub(a2, k, m, ModLong(k, s));
    Exec3(MOVZ(T(X5), m, 0), UDIV(S32, T(X6), T(X1), T(X5)), MSUB(S32, T(X1), T(X6), T(X5), T(X1)), a);
  }

  lemma StepUdiv(a: State, k: nat, m: nat)
    requires k < 32 && 0 < m < 32 && a.x.x1 == k && a.x.x5 == m
    ensures k / m <= k
    ensures Step(UDIV(S32, T(X6), T(X1), T(X5)), a) == a.(x := a.x.(x6 := k / m))
  {
    TruncSmall(k, S32);
    TruncSmall(m, S32);
    DivideIs(k, m);
    hide Trunc, Divide;
  }

  lemma DivideIs(k: nat, m: nat)
    requires 0 < m && k < 32 && m < 32
    ensures k / m <= k && Divide(k, m) == k / m
  {
  }

  lemma StepMsub(a: State, k: nat, m: nat, r: Word)
    requires a.x.x1 == k && a.x.x5 == m && k - a.x.x6 * m == r < Cap(S32)
    ensures Step(MSUB(S32, T(X1), T(X6), T(X5), T(X1)), a) == a.(x := a.x.(x1 := r))
  {
    TruncSmall(r, S32);
    hide Trunc;
  }

  lemma Remainder(k: nat, s: Size)
    requires !Wide(s)
    ensures var m: nat := Bits(s) + 1; k - (k / m) * m == ModLong(k, s)
  {
    if s == S8 { assert k == 9 * (k / 9) + k % 9; } else { assert k == 17 * (k / 17) + k % 17; }
  }

  lemma RotCountCode(s: Size, n: int, k: nat, a: State)
    requires k < Bits(Wd(s)) && (if n >= 0 then n == ModLong(k, s) else k == ClCount(a.g, s))
    ensures var b := Exec(RotCount(s, n), a);
      b == a.(x := a.x.(x1 := ModLong(k, s), x5 := b.x.x5, x6 := b.x.x6))
  {
    hide Exec, Step, Trunc, ModLong, ClCount;
    if n >= 0 {
      StepMovz(a, T(X1), n);
      Exec1(MOVZ(T(X1), n, 0), a);
    } else {
      CountCodeOk(s, n, a);
      ModLongCases(k, s);
      var rest := if Wide(s) then []
        else [MOVZ(T(X5), Bits(s) + 1, 0), UDIV(S32, T(X6), T(X1), T(X5)), MSUB(S32, T(X1), T(X6), T(X5), T(X1))];
      var b := Set(a, T(X1), k);
      ExecCat(CountCode(s, n), rest, a);
      ExecNil(b);
      if !Wide(s) { LongCount(s, k, b); }
    }
  }

  /** OF of a rotate of v through cf by one with outcome r. */
  predicate RotOf(left: bool, v: Word, cf: bool, r: X86.VC, s: Size) {
    if left then Msb(r.v, s) != r.cf else Msb(v, s) != cf
  }

  lemma RotOverflowOk(left: bool, s: Size, a: State, v: Word, cf: bool, r: X86.VC)
    requires a.x.x2 == B2N(cf) && a.x.x3 == v && a.x.x4 == B2N(r.cf) && Trunc(a.x.x5, s) == r.v
    ensures Exec(RotOverflow(left, s), a) == a.(x := a.x.(x7 := B2N(RotOf(left, v, cf, r, s))))
  {
    hide Exec, Step, Trunc, Bit, Msb, B2N;
    var src := if left then X5 else X3;
    var t := Peek(a.x, src);
    MsbBit(t, s);
    MsbOfTrunc(a.x.x5, s);
    UbfxBit(a, X7, T(src), Bits(s) - 1);
    var a1 := a.(x := a.x.(x7 := B2N(Bit(t, Bits(s) - 1))));
    StepXorBits(a1, X7, X7, if left then X4 else X2, Bit(t, Bits(s) - 1), if left then r.cf else cf);
    Exec2(UBFX(T(X7), T(src), Bits(s) - 1, 1),
      LOGIC(EOR, false, S64, T(X7), T(X7), Sh(T(if left then X4 else X2), 0)), a);
  }

  /** The flags after the flag code: CF and OF of the rotate, or unchanged. */
  ghost predicate RotFlagged(left: bool, s: Size, flags: bool, pol: Pol, a: State, b: State, v: Word, cf: bool,
                             r: X86.VC) {
    && b.n == a.n && b.z == a.z
    && if flags then CarryOf(b.c, pol) == r.cf && b.v == RotOf(left, v, cf, r, s) else b.c == a.c && b.v == a.v
  }

  lemma PeekPoke(a: State, v: Word, w: Word)
    ensures Peek(a.x, X4) == a.x.x4 && Peek(a.x.(x7 := v), X4) == a.x.x4 && Peek(a.x.(x7 := v), X7) == v
    ensures Poke(a.x.(x7 := v), X4, w) == a.x.(x7 := v, x4 := w)
  {
  }

  lemma RotFlagsOk(left: bool, s: Size, flags: bool, pol: Pol, a: State, v: Word, cf: bool, r: X86.VC)
    requires a.x.x2 == B2N(cf) && a.x.x3 == v && a.x.x4 == B2N(r.cf) && Trunc(a.x.x5, s) == r.v && pol != CarryClear
    ensures var b := Exec(if flags then RotOverflow(left, s) + InsertCarry(T(X4), T(X7), pol, []) else [], a);
      && b == a.(x := b.x, c := b.c, v := b.v) && b.x.x5 == a.x.x5 && b.x.x16 == a.x.x16
      && RotFlagged(left, s, flags, pol, a, b, v, cf, r)
  {
    hide Exec, Trunc, RotOverflow, InsertCarry, RotOf, CarryOf, B2N, Poke, Peek;
    ExecNil(a);
    if flags {
      RotOverflowOk(left, s, a, v, cf, r);
      var a1 := Exec(RotOverflow(left, s), a);
      PeekPoke(a, B2N(RotOf(left, v, cf, r, s)), Peek(Exec(InsertCarry(T(X4), T(X7), pol, []), a1).x, X4));
      InsertCarryOk(X4, X7, pol, s, false, a1, r.cf, RotOf(left, v, cf, r, s));
      ExecCat(RotOverflow(left, s), InsertCarry(T(X4), T(X7), pol, []), a);
    }
  }

  lemma RotValueOk(left: bool, s: Size, val: Reg, v: Word, cf: bool, n: nat, a: State)
    requires v < Cap(s) && Read(a, val, Wd(s)) == v && a.x.x2 == B2N(cf) && a.x.x1 == ModLong(n, s) && 0 < a.x.x1 < 64
    ensures RotDone(a, Exec(RotValue(left, s, val), a), v, s, X86.RotCarryBy(left, X86.VC(v, cf), n, s))
  {
    hide Exec, RotDone, X86.RotCarryBy, RotValue64, RotValueSmall, ModLong, Read;
    if s == S64 { Rot64Ok(left, val, v, cf, n, a); } else { RotSmallOk(left, s, val, v, cf, n, a); }
  }

  lemma RotBodyOk(left: bool, s: Size, d: X86.Operand, val: Reg, flags: bool, pol: Pol, n: nat, x: X86.State, a: State)
    requires Agree(x, a) && X86.LegalDst(d, s) && (d.Mem? ==> a.x.x16 == EffAddr(d.m, x.regs)) && pol != CarryClear
    requires Read(a, val, Wd(s)) == X86.Val(x, d, s) && a.x.x2 == B2N(x.f.cf) && a.x.x1 == ModLong(n, s)
      && 0 < a.x.x1 < 64
    ensures var v := X86.Val(x, d, s); var r := X86.RotCarryBy(left, X86.VC(v, x.f.cf), n, s);
      var b := Exec(RotBody(left, s, d, val, flags, pol), a);
      Wrote(a, b, X86.Put(x, d, r.v, s)) && RotFlagged(left, s, flags, pol, a, b, v, x.f.cf, r)
  {
    hide Exec, Trunc, RotOverflow, InsertCarry, X86.RotCarryBy, X86.Val, X86.Put, EffAddr, StoreDst, RotValue, Read,
         ModLong, RotFlagged, Wrote, B2N;
    var v, cf := X86.Val(x, d, s), x.f.cf;
    var r := X86.RotCarryBy(left, X86.VC(v, cf), n, s);
    var fc := if flags then RotOverflow(left, s) + InsertCarry(T(X4), T(X7), pol, []) else [];
    ValBound(x, d, s);
    RotValueOk(left, s, val, v, cf, n, a);
    var a1 := Exec(RotValue(left, s, val), a);
    RotFlagsOk(left, s, flags, pol, a1, v, cf, r);
    ExecCat(RotValue(left, s, val), fc, a);
    RotStore(left, s, d, flags, pol, x, a, a1, Exec(fc, a1), v, cf, r);
    ExecCat(RotValue(left, s, val) + fc, StoreDst(d, s, T(X5)), a);
  }

  /** The write-back of the result after the flag code. */
  lemma RotStore(left: bool, s: Size, d: X86.Operand, flags: bool, pol: Pol, x: X86.State, a: State, b: State, c: State,
                 v: Word, cf: bool, r: X86.VC)
    requires Agree(x, a) && X86.LegalDst(d, s) && (d.Mem? ==> a.x.x16 == EffAddr(d.m, x.regs))
    requires RotDone(a, b, v, s, r) && RotFlagged(left, s, flags, pol, b, c, v, cf, r)
    requires c == b.(x := c.x, c := c.c, v := c.v) && c.x.x5 == b.x.x5 && c.x.x16 == b.x.x16
    ensures var e := Exec(StoreDst(d, s, T(X5)), c);
      Wrote(a, e, X86.Put(x, d, r.v, s)) && RotFlagged(left, s, flags, pol, a, e, v, cf, r)
  {
    hide Exec, Trunc, X86.Put, EffAddr, StoreDst, CarryOf, RotOf, B2N;
    TruncAdd(b.x.x5, 0, s);
    SetX5(c);
    WriteBack(d, s, T(X5), c, x, c.x.x5, r.v);
  }

  lemma SetX5(a: State)
    ensures Set(a, T(X5), a.x.x5) == a
  {
  }

  /** Count, CF and operand. */
  lemma RotPrepare(s: Size, d: X86.Operand, n: int, k: nat, pol: Pol, x: X86.State, a: State)
    requires Agree(x, a) && X86.LegalDst(d, s) && Encodes(a, pol, x.f.cf)
    requires k < Bits(Wd(s)) && (if n >= 0 then n == ModLong(k, s) else k == ClCount(x.regs, s))
    ensures var l := LoadDst(d, s);
      var b := Exec(RotCount(s, n) + [CSET(S32, T(X2), CarryCond(pol, true))] + l.code, a);
      && b == a.(x := b.x) && b.x.x1 == ModLong(k, s) && b.x.x2 == B2N(x.f.cf)
      && (d.Mem? ==> b.x.x16 == EffAddr(d.m, x.regs)) && Read(b, l.r, Wd(s)) == X86.Val(x, d, s)
  {
    hide Exec, Step, RotCount, LoadDst, EffAddr, X86.Val, Read, ModLong, ClCount, CarryCond, B2N, Get;
    var cset := CSET(S32, T(X2), CarryCond(pol, true));
    RotCountCode(s, n, k, a);
    var a1 := Exec(RotCount(s, n), a);
    CarryCondOk(a1, pol, x.f.cf);
    StepCset(a1, X2, CarryCond(pol, true));
    Exec1(cset, a1);
    ExecCat(RotCount(s, n), [cset], a);
    LoadDstFrame(d, s, Set(a1, T(X2), B2N(x.f.cf)), x);
    ExecCat(RotCount(s, n) + [cset], LoadDst(d, s).code, a);
  }

  /** After the body, zeroing the upper half once more changes nothing. */
  lemma ZextAgain(d: X86.Operand, s: Size, x: X86.State, v: Word, b: State)
    requires X86.LegalDst(d, s) && b.g == X86.Put(x, d, v, s).regs
    ensures Exec(ZeroCountZext(d, s), b) == b
  {
    hide Exec, Trunc, Merge;
    ExecNil(b);
    if d.Reg? && s == S32 {
      WideMerge(x.regs[d.g], v, S32);
      TruncAdd(v, 0, S32);
      StepMov(b, S32, G(d.g), G(d.g));
      Exec1(MOV(S32, G(d.g), G(d.g)), b);
      assert b.g[d.g := b.g[d.g]] == b.g;
    }
  }

  /** The lowering for a count that is not known to be 0. */
  lemma RotExec(left: bool, s: Size, d: X86.Operand, n: int, k: nat, flags: bool, pol: Pol, pol': Pol, x: X86.State,
                a: State)
    requires Agree(x, a) && X86.LegalDst(d, s) && Encodes(a, pol, x.f.cf) && pol' != CarryClear
    requires k < Bits(Wd(s)) && n != 0 && (if n >= 0 then n == ModLong(k, s) else k == ClCount(x.regs, s))
    ensures var v := X86.Val(x, d, s); var r := X86.RotCarryBy(left, X86.VC(v, x.f.cf), k, s);
      var b := Exec(RotCode(left, s, d, n, flags, pol, pol'), a);
      && Wrote(a, b, X86.Put(x, d, r.v, s))
      && RotFlagged(left, s, flags && ModLong(k, s) != 0, pol', a, b, v, x.f.cf, r)
      && (ModLong(k, s) == 0 ==> r == X86.VC(v, x.f.cf))
  {
    hide Exec, Trunc, X86.RotCarryBy, X86.Val, X86.Put, EffAddr, LoadDst, RotCount, RotBody, Read, ModLong, ClCount,
         CarryCond, B2N, ZeroCountZext, RotFlagged, Wrote, IfCounted, Encodes;
    var l := LoadDst(d, s);
    var v := X86.Val(x, d, s);
    var prep := RotCount(s, n) + [CSET(S32, T(X2), CarryCond(pol, true))] + l.code;
    var body := RotBody(left, s, d, l.r, flags, pol');
    RotPrepare(s, d, n, k, pol, x, a);
    var a1 := Exec(prep, a);
    ModLongCases(k, s);
    ExecCat(prep, IfCounted(n, body), a);
    var zext := if n >= 0 then [] else ZeroCountZext(d, s);
    ExecCat(prep + IfCounted(n, body), zext, a);
    ValBound(x, d, s);
    if ModLong(k, s) != 0 {
      RotTaken(left, s, d, l.r, n, k, flags, pol', x, a1);
    } else {
      RotSkipped(left, s, d, n, k, flags, pol', body, x, a1);
    }
    FromScratch(left, s, flags && ModLong(k, s) != 0, pol', a, a1, Exec(zext, Exec(IfCounted(n, body), a1)), v, x.f.cf,
                X86.RotCarryBy(left, X86.VC(v, x.f.cf), k, s), x, d);
  }

  /** Changes from a state that differs in scratch registers only. */
  lemma FromScratch(left: bool, s: Size, flags: bool, pol: Pol, a: State, b: State, c: State, v: Word, cf: bool,
                    r: X86.VC, x: X86.State, d: X86.Operand)
    requires b == a.(x := b.x)
    requires Wrote(b, c, X86.Put(x, d, r.v, s)) && RotFlagged(left, s, flags, pol, b, c, v, cf, r)
    ensures Wrote(a, c, X86.Put(x, d, r.v, s)) && RotFlagged(left, s, flags, pol, a, c, v, cf, r)
  {
    hide X86.Put, RotOf, CarryOf;
  }

  lemma ModLongBound(k: nat, s: Size)
    requires k < Bits(Wd(s))
    ensures ModLong(k, s) < 64
  {
  }

  lemma RotTaken(left: bool, s: Size, d: X86.Operand, val: Reg, n: int, k: nat, flags: bool, pol: Pol, x: X86.State,
                 a: State)
    requires Agree(x, a) && X86.LegalDst(d, s) && (d.Mem? ==> a.x.x16 == EffAddr(d.m, x.regs)) && pol != CarryClear
    requires Read(a, val, Wd(s)) == X86.Val(x, d, s) && a.x.x2 == B2N(x.f.cf) && a.x.x1 == ModLong(k, s) && 0 < a.x.x1
    requires k < Bits(Wd(s))
    ensures var v := X86.Val(x, d, s); var r := X86.RotCarryBy(left, X86.VC(v, x.f.cf), k, s);
      var b := Exec(if n >= 0 then []
        else ZeroCountZext(d, s), Exec(IfCounted(n, RotBody(left, s, d, val, flags, pol)), a));
      Wrote(a, b, X86.Put(x, d, r.v, s)) && RotFlagged(left, s, flags, pol, a, b, v, x.f.cf, r)
  {
    hide Exec, Trunc, X86.RotCarryBy, X86.Val, X86.Put, EffAddr, RotBody, Read, ModLong, B2N, ZeroCountZext, RotFlagged;
    var body := RotBody(left, s, d, val, flags, pol);
    ModLongBound(k, s);
    RotBodyOk(left, s, d, val, flags, pol, k, x, a);
    var b := Exec(body, a);
    CountedRuns(n, body, a);
    ZextAgain(d, s, x, X86.RotCarryBy(left, X86.VC(X86.Val(x, d, s), x.f.cf), k, s).v, b);
    ExecNil(b);
  }

  lemma CountedRuns(n: int, body: seq<Instr>, a: State)
    requires a.x.x1 < Cap(S32)
    ensures n >= 0 || a.x.x1 != 0 ==> Exec(IfCounted(n, body), a) == Exec(body, a)
    ensures n < 0 && a.x.x1 == 0 ==> Exec(IfCounted(n, body), a) == a
  {
    hide Exec, Trunc;
    TruncSmall(a.x.x1, S32);
    Exec1(UNLESSZERO(S32, T(X1), body), a);
  }

  lemma RotSkipped(left: bool, s: Size, d: X86.Operand, n: int, k: nat, flags: bool, pol: Pol, body: seq<Instr>,
                   x: X86.State, a: State)
    requires Agree(x, a) && X86.LegalDst(d, s) && n < 0 && a.x.x1 == 0 && ModLong(k, s) == 0
    requires X86.Val(x, d, s) < Cap(s)
    ensures var v := X86.Val(x, d, s); var r := X86.RotCarryBy(left, X86.VC(v, x.f.cf), k, s);
      var b := Exec(ZeroCountZext(d, s), Exec(IfCounted(n, body), a));
      && Wrote(a, b, X86.Put(x, d, r.v, s)) && RotFlagged(left, s, false, pol, a, b, v, x.f.cf, r)
         && r == X86.VC(v, x.f.cf)
  {
    hide Exec, X86.Val, X86.Put, ZeroCountZext, ModLong, X86.RotCarryBy, Wrote;
    CountedRuns(n, body, a);
    RotKept(s, d, x, a);
    RotCarryPeriodic(left, X86.VC(X86.Val(x, d, s), x.f.cf), k, s);
    RotZero(left, X86.VC(X86.Val(x, d, s), x.f.cf), s);
  }

  // ---- the instruction --------------------------------------------------------------------------------

  lemma RotEval(left: bool, s: Size, d: X86.Operand, c: X86.Count, x: X86.State, u: X86.Flags)
    ensures var v, k := X86.Val(x, d, s), X86.Masked(x, c, s);
      X86.Eval(X86.RotCarry(left, s, d, c), x, u)
        == X86.Put(x, d, X86.RotCarryBy(left, X86.VC(v, x.f.cf), k, s).v,
          s).(f := X86.RotCarryFlags(left, v, k, s, x.f, u))
  {
    hide X86.Put, X86.Val, X86.RotCarryBy, X86.RotCarryFlags, X86.Masked;
  }

  /** The sense after the rotate is right whether or not it was skipped. */
  predicate PolOk(flags: bool, m: nat, pol: Pol, pol': Pol) {
    if flags && m != 0 then pol' != CarryClear
    else pol' == pol || (flags && pol == CarryClear && pol' == CarryAdd)
  }

  lemma RotFlagsSim(left: bool, s: Size, d: X86.Operand, c: X86.Count, k: nat, notes: Notes, pol: Pol, pol': Pol,
                    out: Live, f: X86.Flags, a: State, b: State, v: Word)
    requires NotesOk(notes, out) && FlagsOk(f, a, pol, Before(X86.RotCarry(left, s, d, c), out))
    requires (k == 0 ==> ModLong(k, s) == 0) && (k == 1 ==> ModLong(k, s) != 0) && (NonzeroImm(c, s) ==> k != 0)
    requires var flags := !notes.carryDead || !notes.overflowDead; var m := ModLong(k, s);
      var r := X86.RotCarryBy(left, X86.VC(v, f.cf), k, s);
      && RotFlagged(left, s, flags && m != 0, pol', a, b, v, f.cf, r) && (m == 0 ==> r == X86.VC(v, f.cf))
      && PolOk(flags, m, pol, pol')
    ensures FlagsOk(X86.RotCarryFlags(left, v, k, s, f, Seen(b, pol')), b, pol', out)
  {
    hide X86.RotCarryBy, Msb, ModLong, NonzeroImm;
  }

  lemma RotCounts(x: X86.State, c: X86.Count, s: Size)
    ensures var m, k := ImmCount(c, s), X86.Masked(x, c, s);
      var n := if m >= 0 && !Wide(s) then m % (Bits(s) + 1) else m;
      && -1 <= n < 64 && k < Bits(Wd(s)) && (if n >= 0 then n == ModLong(k, s) else k == ClCount(x.regs, s))
      && (NonzeroImm(c, s) ==> k != 0) && (k == 0 ==> ModLong(k, s) == 0) && (k == 1 ==> ModLong(k, s) != 0)
      && (n >= 0 ==> c.ByImm?) && (n < 0 ==> c == X86.ByCl)
  {
  }

  lemma RotPolOk(left: bool, s: Size, d: X86.Operand, c: X86.Count, k: nat, notes: Notes, pol: Pol, x: X86.State)
    requires k == X86.Masked(x, c, s)
    ensures PolOk(!notes.carryDead
      || !notes.overflowDead, ModLong(k, s), pol, LiftRotCarry(left, s, d, c, notes, pol).pol)
  {
    hide X86.Masked, ModLong, ClCount, NonzeroImm;
    RotCounts(x, c, s);
  }

  lemma RotEncodes(left: bool, s: Size, d: X86.Operand, c: X86.Count, f: X86.Flags, a: State, pol: Pol, out: Live)
    requires FlagsOk(f, a, pol, Before(X86.RotCarry(left, s, d, c), out))
    ensures Encodes(a, pol, f.cf)
  {
  }

  /** What the whole lowering does. */
  lemma RotLowered(left: bool, s: Size, d: X86.Operand, c: X86.Count, notes: Notes, pol: Pol, x: X86.State, a: State)
    requires Agree(x, a) && X86.LegalDst(d, s) && Encodes(a, pol, x.f.cf)
    ensures var v, k := X86.Val(x, d, s), X86.Masked(x, c, s); var r := X86.RotCarryBy(left, X86.VC(v, x.f.cf), k, s);
      var low := LiftRotCarry(left, s, d, c, notes, pol); var b := Exec(low.code, a);
      var flags := !notes.carryDead || !notes.overflowDead;
      && Wrote(a, b, X86.Put(x, d, r.v, s))
      && RotFlagged(left, s, flags && ModLong(k, s) != 0, low.pol, a, b, v, x.f.cf, r)
      && (ModLong(k, s) == 0 ==> r == X86.VC(v, x.f.cf))
  {
    hide Exec, X86.Val, X86.Put, X86.RotCarryBy, X86.Masked, ModLong, ClCount, RotOf, NonzeroImm, Encodes, LoadDst,
         CarryOf, LiftRotCarry, RotCode, Wrote;
    var k, v := X86.Masked(x, c, s), X86.Val(x, d, s);
    var n := RotImm(c, s);
    var flags := !notes.carryDead || !notes.overflowDead;
    RotCounts(x, c, s);
    RotShape(left, s, d, c, notes, pol);
    if n == 0 {
      RotCarryPeriodic(left, X86.VC(v, x.f.cf), k, s) by { ValBound(x, d, s); }
      RotZero(left, X86.VC(v, x.f.cf), s);
      RotKept(s, d, x, a);
    } else {
      RotExec(left, s, d, n, k, flags, pol, ShiftPol(n, pol), x, a);
      var b := Exec(RotCode(left, s, d, n, flags, pol, ShiftPol(n, pol)), a);
      RotFlaggedPol(left, s, flags
        && ModLong(k, s) != 0, ShiftPol(n, pol), LiftRotCarry(left, s, d, c, notes, pol).pol, a, b,
                    v, x.f.cf, X86.RotCarryBy(left, X86.VC(v, x.f.cf), k, s));
    }
  }

  lemma RotFlaggedPol(left: bool, s: Size, flags: bool, p: Pol, q: Pol, a: State, b: State, v: Word, cf: bool,
                      r: X86.VC)
    requires RotFlagged(left, s, flags, p, a, b, v, cf, r) && (flags ==> p == q)
    ensures RotFlagged(left, s, flags, q, a, b, v, cf, r)
  {
  }

  lemma RotKept(s: Size, d: X86.Operand, x: X86.State, a: State)
    requires Agree(x, a) && X86.LegalDst(d, s)
    ensures var b := Exec(ZeroCountZext(d, s), a);
      Wrote(a, b, X86.Put(x, d, X86.Val(x, d, s), s)) && b.n == a.n && b.z == a.z && b.c == a.c && b.v == a.v
  {
    hide Exec, X86.Val, X86.Put, ZeroCountZext;
    ZeroZextOk(d, s, x, a);
  }

  /** The immediate count, or -1. */
  function RotImm(c: X86.Count, s: Size): int {
    var m := ImmCount(c, s);
    if m >= 0 && !Wide(s) then m % (Bits(s) + 1) else m
  }

  function RotCode(left: bool, s: Size, d: X86.Operand, n: int, flags: bool, pol: Pol, pol': Pol): seq<Instr> {
    var l := LoadDst(d, s);
    RotCount(s, n) + [CSET(S32, T(X2), CarryCond(pol, true))] + l.code
      + IfCounted(n, RotBody(left, s, d, l.r, flags, pol'))
    + (if n >= 0 then [] else ZeroCountZext(d, s))
  }

  lemma RotShape(left: bool, s: Size, d: X86.Operand, c: X86.Count, notes: Notes, pol: Pol)
    ensures var n := RotImm(c, s); var flags := !notes.carryDead || !notes.overflowDead;
      LiftRotCarry(left, s, d, c, notes, pol)
        == if n == 0 then Lowered(ZeroCountZext(d, s), pol)
           else Lowered(RotCode(left, s, d, n, flags, pol, ShiftPol(n, pol)), if flags then ShiftPol(n, pol) else pol)
  {
    hide LoadDst, RotCount, IfCounted, RotBody, ZeroCountZext, CarryCond;
  }

  lemma RotZero(left: bool, x: X86.VC, s: Size)
    ensures X86.RotCarryBy(left, x, 0, s) == x
  {
  }

  lemma RotCarrySim(left: bool, s: Size, d: X86.Operand, c: X86.Count, notes: Notes, pol: Pol, out: Live,
                    x: X86.State, a: State)
    requires X86.Legal(X86.RotCarry(left, s, d, c)) && NotesOk(notes, out)
    requires Related(x, a, pol, Before(X86.RotCarry(left, s, d, c), out))
    ensures Simulated(X86.RotCarry(left, s, d, c), x, a, LiftRotCarry(left, s, d, c, notes, pol), out)
  {
    hide Exec, X86.Eval, X86.Val, X86.Put, X86.RotCarryBy, X86.RotCarryFlags, X86.Masked, ModLong, LiftRotCarry,
         RotFlagged, NonzeroImm, Encodes, PolOk, FlagsOk, Before;
    var k, v := X86.Masked(x, c, s), X86.Val(x, d, s);
    var low := LiftRotCarry(left, s, d, c, notes, pol);
    var b := Exec(low.code, a);
    RotCounts(x, c, s);
    RotEval(left, s, d, c, x, Seen(b, low.pol));
    RotEncodes(left, s, d, c, x.f, a, pol, out);
    RotLowered(left, s, d, c, notes, pol, x, a);
    RotPolOk(left, s, d, c, k, notes, pol, x);
    RotFlagsSim(left, s, d, c, k, notes, pol, low.pol, out, x.f, a, b, v);
  }
}
