/** Modular arithmetic, and what single ARM instructions compute in those terms. The lemmas about
    whole lowerings use these and hide the definitions. */
module Steps {
  import opened Words
  import opened Guest
  import opened Arm

  lemma TruncSmall(v: int, s: Size)
    requires 0 <= v < Cap(s)
    ensures Trunc(v, s) == v
  {
  }

  lemma TruncBound(v: int, s: Size)
    ensures Trunc(v, s) < Cap(s)
  {
  }

  lemma TruncMul(v: int, k: int, s: Size)
    ensures Trunc(v + k * Cap(s), s) == Trunc(v, s)
  {
    var q := (v - Trunc(v, s)) / Cap(s);
    TruncQuot(v, s);
    assert v + k * Cap(s) == Cap(s) * (q + k) + Trunc(v, s) by { MulAdd(Cap(s), q, k); }
    TruncIs(v + k * Cap(s), q + k, Trunc(v, s), s);
  }

  lemma MulAdd(c: int, q: int, k: int)
    ensures c * (q + k) == c * q + k * c
  {
  }

  lemma TruncQuot(v: int, s: Size)
    ensures v == Cap(s) * ((v - Trunc(v, s)) / Cap(s)) + Trunc(v, s)
  {
    match s
    case S8 =>
    case S16 =>
    case S32 =>
    case S64 =>
  }

  /** Trunc(v, s) differs from v by a multiple of Cap(s). */
  lemma TruncShift(v: int, u: int, s: Size)
    ensures Trunc(u + Trunc(v, s), s) == Trunc(u + v, s)
    ensures Trunc(u - Trunc(v, s), s) == Trunc(u - v, s)
  {
    hide Trunc;
    var k := (v - Trunc(v, s)) / Cap(s);
    TruncQuot(v, s);
    Commute(Cap(s), k);
    TruncMul(u + v, -k, s);
    TruncMul(u - v, k, s);
  }

  lemma Commute(c: int, k: int)
    ensures c * k == k * c && (-k) * c == -(c * k)
  {
  }

  /** Truncating an operand first does not change a truncated sum or difference. */
  lemma TruncAdd(x: int, y: int, s: Size)
    ensures Trunc(Trunc(x, s) + y, s) == Trunc(x + y, s)
    ensures Trunc(x + Trunc(y, s), s) == Trunc(x + y, s)
    ensures Trunc(x - Trunc(y, s), s) == Trunc(x - y, s)
    ensures Trunc(Trunc(x, s), s) == Trunc(x, s)
  {
    hide Trunc;
    TruncShift(x, y, s);
    TruncShift(y, x, s);
    TruncShift(x, 0, s);
  }

  /** Truncating to a larger size first does not change a truncation. */
  lemma TruncTrunc(v: int, s: Size, w: Size)
    requires Bits(s) <= Bits(w)
    ensures Trunc(Trunc(v, w), s) == Trunc(v, s)
  {
    TruncLow(Trunc(v, w), s);
    TruncLow(v, s);
    TruncLow(v, w);
    LowLow(v, Bits(s), Bits(w) - Bits(s));
  }

  lemma AddSubPlain(a: State, sub: bool, w: Size, d: Reg, x: Word, y: Word)
    requires y < Cap(w)
    ensures AddSub(a, sub, sub, false, w, d, x, y) == Set(a, d, Trunc(if sub then x - y else x + y, w))
  {
    hide Set;
    if sub { TruncMul(x - y, 1, w); }
  }

  /** ADD and SUB without flags. */
  lemma StepAddSub(a: State, sub: bool, w: Size, d: Reg, n: Reg, m: Rhs)
    ensures Step(ADDSUB(sub, false, w, d, n, m), a)
         == Set(a, d, Trunc(if sub then Get(a, n) - RhsVal(a, m, w) else Get(a, n) + RhsVal(a, m, w), w))
  {
    hide Set, Get, Trunc, RhsVal, AddSub;
    RhsBound(a, m, w);
    AddSubPlain(a, sub, w, d, Read(a, n, w), RhsVal(a, m, w));
    TruncAdd(Get(a, n), RhsVal(a, m, w), w);
    TruncAdd(Get(a, n), 0 - RhsVal(a, m, w), w);
  }

  lemma RhsBound(a: State, m: Rhs, w: Size)
    ensures RhsVal(a, m, w) < Cap(w)
  {
    hide Get, Lsl, Lsr;
  }

  /** A register operand without a shift. */
  lemma RhsPlain(a: State, r: Reg, w: Size)
    ensures RhsVal(a, Sh(r, 0), w) == Read(a, r, w)
  {
    hide Get;
  }

  lemma StepMov(a: State, w: Size, d: Reg, n: Reg)
    ensures Step(MOV(w, d, n), a) == Set(a, d, Trunc(Get(a, n), w))
  {
    hide Set, Get, Trunc;
  }

  lemma StepMovz(a: State, d: Reg, v: nat)
    requires v < 0x1_0000
    ensures Step(MOVZ(d, v, 0), a) == Set(a, d, v)
  {
    hide Set;
  }

  /** SHIFT by an immediate below the width. */
  lemma StepShift(a: State, sh: ShOp, w: Size, d: Reg, n: Reg, k: nat)
    requires k < Bits(w)
    ensures Step(SHIFT(sh, w, d, n, ByLit(k)), a) == Set(a, d, Shifted(sh, Trunc(Get(a, n), w), k, w))
  {
    hide Set, Get, Trunc, Shifted;
  }

  lemma GetSet(a: State, r: Reg, v: Word, w: Word)
    requires r != ZR
    ensures Get(Set(a, r, v), r) == v
    ensures Set(Set(a, r, v), r, w) == Set(a, r, w)
  {
  }

  lemma GetT(a: State, t: Scratch)
    ensures Get(a, T(t)) == Peek(a.x, t)
  {
  }

  lemma StepSxt(a: State, from: Size, w: Size, d: Reg, n: Reg)
    ensures Step(SXT(from, w, d, n), a) == Set(a, d, Trunc(SInt(Get(a, n), from), w))
  {
    hide Set, Get, Trunc, SInt;
  }

  lemma StepCset(a: State, t: Scratch, cond: Cond)
    ensures Step(CSET(S32, T(t), cond), a) == Set(a, T(t), B2N(Passes(cond, a)))
  {
    hide Set, Passes;
  }

  lemma ReadOther(a: State, t: Scratch, v: Word, r: Reg, w: Size)
    requires r != T(t)
    ensures Get(Set(a, T(t), v), r) == Get(a, r) && Read(Set(a, T(t), v), r, w) == Read(a, r, w)
  {
  }

  lemma StepMvn(a: State, w: Size, d: Reg, n: Reg)
    ensures Step(MVN(w, d, n), a) == Set(a, d, Trunc(-1 - Get(a, n), w))
  {
    hide Set, Get, Trunc;
  }

  lemma StepUbfx(a: State, t: Scratch, n: Reg, lsb: nat, len: nat)
    ensures Step(UBFX(T(t), n, lsb, len), a) == Set(a, T(t), Trunc(Field(Get(a, n), lsb, len), S64))
  {
    hide Set, Get, Trunc, Field;
  }

  lemma FlipBit(v: Word)
    requires v <= 1
    ensures Bw(BXor, v, 1) == 1 - v
  {
  }

  lemma StepLogic(a: State, op: LogOp, w: Size, d: Reg, n: Reg, m: Rhs)
    ensures Step(LOGIC(op, false, w, d, n, m), a) == Set(a, d, Logical(op, Read(a, n, w), RhsVal(a, m, w), w))
  {
    hide Set, Get, Logical, RhsVal, Trunc;
  }

  /** EOR with 1 inverts a bit. */
  lemma StepFlip(a: State, w: Size, t: Scratch, v: Word)
    requires (w == S32 || w == S64) && Peek(a.x, t) == v && v <= 1
    ensures Step(LOGIC(EOR, false, w, T(t), T(t), Lit(1)), a) == Set(a, T(t), 1 - v)
  {
    hide Set, Bw, Step, Peek;
    FlipBit(v);
    TruncSmall(v, w);
    TruncSmall(1, w);
    TruncSmall(1 - v, w);
    StepLogic(a, EOR, w, T(t), T(t), Lit(1));
  }

  /** A variable shift whose amount register holds k, below the width. */
  lemma StepShiftReg(a: State, sh: ShOp, w: Size, d: Reg, n: Reg, r: Reg, k: nat)
    requires k < Bits(w) && ModBits(Get(a, r), w) == k
    ensures Step(SHIFT(sh, w, d, n, ByReg(r)), a) == Set(a, d, Shifted(sh, Trunc(Get(a, n), w), k, w))
  {
    hide Set, Get, Trunc, Shifted;
  }
}
