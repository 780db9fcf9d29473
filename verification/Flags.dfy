/** The ARM flags of an addition, subtraction or logical operation are the x86 flags of it, at
    the operand size and, for 8- and 16-bit operands, of the top-aligned operands at 32 bits. */
module Flags {
  import opened Words
  import opened Guest
  import X86
  import opened Arm
  import opened Lifter
  import opened Steps

  /** a with the flags f, C holding CF in the sense pol. */
  function WithFlags(a: State, f: X86.Flags, pol: Pol): State {
    a.(n := f.sf, z := f.zf, v := f.of, c := if pol == CarrySub then !f.cf else f.cf)
  }

  function SumFlags(sub: bool, x: Word, y: Word, c: nat, s: Size): X86.Flags {
    if sub then X86.SubFlags(x, y, c, s) else X86.AddFlags(x, y, c, s)
  }

  function SumPol(sub: bool): Pol { if sub then CarrySub else CarryAdd }

  function SumOf(sub: bool, x: int, y: int, c: int): int { if sub then x - y - c else x + y + c }

  /** AddWithCarry with carry (or, for a subtraction, borrow) c. */
  lemma AddSubFlags(a: State, sub: bool, c: bool, w: Size, d: Reg, x: Word, y: Word)
    requires x < Cap(w) && y < Cap(w)
    ensures AddSub(a, sub, c != sub, true, w, d, x, y)
         == Set(WithFlags(a, SumFlags(sub, x, y, B2N(c), w), SumPol(sub)), d, Trunc(SumOf(sub, x, y, B2N(c)), w))
  {
    hide Set, Trunc, SInt, Msb, AddSub;
    if sub { SubtractFlags(a, c, w, d, x, y); } else { AddFlagsOk(a, c, w, d, x, y); }
  }

  lemma AddFlagsOk(a: State, c: bool, w: Size, d: Reg, x: Word, y: Word)
    requires x < Cap(w) && y < Cap(w)
    ensures AddSub(a, false, c, true, w, d, x, y)
         == Set(WithFlags(a, X86.AddFlags(x, y, B2N(c), w), CarryAdd), d, Trunc(x + y + B2N(c), w))
  {
    hide Set, Trunc, SInt, Msb;
    TruncSmall(x, w);
    TruncSmall(y, w);
    TruncNear(x + y + B2N(c), w);
  }

  lemma SubtractFlags(a: State, c: bool, w: Size, d: Reg, x: Word, y: Word)
    requires x < Cap(w) && y < Cap(w)
    ensures AddSub(a, true, !c, true, w, d, x, y)
         == Set(WithFlags(a, X86.SubFlags(x, y, B2N(c), w), CarrySub), d, Trunc(x - y - B2N(c), w))
  {
    hide Set, Trunc, SInt, Msb;
    TruncSmall(x, w);
    TruncSmall(y, w);
    ComplementSum(x, y, B2N(c), w);
  }

  /** Truncation one period above and below the range. */
  lemma TruncNear(v: int, w: Size)
    requires 0 - Cap(w) <= v < 2 * Cap(w)
    ensures Trunc(v, w) == if v < 0 then v + Cap(w) else if v < Cap(w) then v else v - Cap(w)
  {
    match w
    case S8 =>
    case S16 =>
    case S32 =>
    case S64 =>
  }

  lemma ComplementSum(x: Word, y: Word, b: nat, w: Size)
    requires x < Cap(w) && y < Cap(w) && b <= 1
    ensures var y' := Cap(w) - 1 - y; var sum := x + y' + (1 - b);
      && Trunc(sum, w) == Trunc(x - y - b, w)
      && (Trunc(sum, w) != sum <==> x >= y + b)
      && SInt(y', w) == -1 - SInt(y, w)
      && y' < Cap(w) && Trunc(y', w) == y'
  {
    hide Trunc;
    var y' := Cap(w) - 1 - y;
    TruncNear(x - y - b, w);
    TruncNear(x + y' + (1 - b), w);
    TruncSmall(y, w);
    TruncSmall(y', w);
  }

  /** Flags of a narrow sum from the top-aligned operands. */
  lemma TopAligned(sub: bool, x: Word, y: Word, s: Size)
    requires !Wide(s) && x < Cap(s) && y < Cap(s)
    ensures var sh := TopShift(s);
      && 0 <= Lsl(x, sh) < Cap(S32) && 0 <= Lsl(y, sh) < Cap(S32)
      && SumFlags(sub, Lsl(x, sh), Lsl(y, sh), 0, S32) == SumFlags(sub, x, y, 0, s)
      && Trunc(SumOf(sub, Lsl(x, sh), Lsl(y, sh), 0), S32) == Lsl(Trunc(SumOf(sub, x, y, 0), s), sh)
  {
    hide Lsl;
    var r := Trunc(SumOf(sub, x, y, 0), s);
    Consts(x);
    Consts(y);
    Consts(r);
    if s == S8 { TopFlags8(sub, x, y); } else { TopFlags16(sub, x, y); }
  }

  lemma TopFlags8(sub: bool, x: Word, y: Word)
    requires x < 0x100 && y < 0x100
    ensures SumFlags(sub, 0x100_0000 * x, 0x100_0000 * y, 0, S32) == SumFlags(sub, x, y, 0, S8)
    ensures Trunc(SumOf(sub, 0x100_0000 * x, 0x100_0000 * y, 0), S32) == 0x100_0000 * Trunc(SumOf(sub, x, y, 0), S8)
  {
    hide Trunc;
    var r := SumOf(sub, x, y, 0);
    TruncSmall(x, S8);
    TruncSmall(y, S8);
    TruncNear(r, S8);
    TruncSmall(Trunc(r, S8), S8);
    TruncSmall(0x100_0000 * x, S32);
    TruncSmall(0x100_0000 * y, S32);
    TruncNear(0x100_0000 * r, S32);
    TruncSmall(0x100_0000 * Trunc(r, S8), S32);
  }

  lemma TopFlags16(sub: bool, x: Word, y: Word)
    requires x < 0x1_0000 && y < 0x1_0000
    ensures SumFlags(sub, 0x1_0000 * x, 0x1_0000 * y, 0, S32) == SumFlags(sub, x, y, 0, S16)
    ensures Trunc(SumOf(sub, 0x1_0000 * x, 0x1_0000 * y, 0), S32) == 0x1_0000 * Trunc(SumOf(sub, x, y, 0), S16)
  {
    hide Trunc;
    var r := SumOf(sub, x, y, 0);
    TruncSmall(x, S16);
    TruncSmall(y, S16);
    TruncNear(r, S16);
    TruncSmall(Trunc(r, S16), S16);
    TruncSmall(0x1_0000 * x, S32);
    TruncSmall(0x1_0000 * y, S32);
    TruncNear(0x1_0000 * r, S32);
    TruncSmall(0x1_0000 * Trunc(r, S16), S32);
  }

  /** N and Z of a top-aligned value. */
  lemma TopNZ(r: Word, s: Size)
    requires !Wide(s) && r < Cap(s)
    ensures var t := Lsl(r, TopShift(s));
      0 <= t < Cap(S32) && (Msb(t, S32) <==> Msb(r, s)) && (t == 0 <==> r == 0)
      && Shifted(LSR, t, TopShift(s), S32) == r
  {
    hide Lsl, Lsr, Low, Trunc;
    Consts(r);
    Unsplit(r, 0, TopShift(s));
    TruncSmall(r, S32);
    TruncSmall(r, s);
    TruncSmall(Lsl(r, TopShift(s)), S32);
  }

  /** SETF8 and SETF16 on a sign-extended sum: V is set exactly when the sum does not fit. */
  lemma SetfOk(sum: int, s: Size)
    requires !Wide(s) && 0 - Cap(s) <= sum < Cap(s)
    ensures var v := Trunc(sum, S32);
      && Msb(v, s) == Msb(sum, s) && Trunc(v, s) == Trunc(sum, s)
      && ((Bit(v, Bits(s)) != Msb(v, s)) <==> SInt(sum, s) != sum)
  {
    hide Trunc, Lsr;
    var v := Trunc(sum, S32);
    TruncTrunc(sum, s, S32);
    TruncNear(sum, S32);
    TruncNear(sum, s);
    LsrConsts(v);
  }

  /** a with the flags of f other than C. */
  function WithNZV(a: State, f: X86.Flags): State { a.(n := f.sf, z := f.zf, v := f.of) }

  lemma SIntRange(v: int, s: Size)
    ensures 0 - Half(s) <= SInt(v, s) < Half(s)
    ensures Trunc(SInt(v, s), s) == Trunc(v, s)
    ensures SInt(Trunc(v, s), s) == SInt(v, s)
  {
    hide Trunc;
    TruncBound(v, s);
    TruncAdd(v, 0, s);
    TruncMul(Trunc(v, s), -1, s);
  }

  /** The sum of two sign-extended operands and a carry, in scratch register t: SETF gives the
      flags of the narrow sum. */
  lemma SetfSum(a: State, t: Scratch, sub: bool, x: Word, y: Word, c: nat, s: Size)
    requires !Wide(s) && x < Cap(s) && y < Cap(s) && c <= 1
    requires Peek(a.x, t) == Trunc(SumOf(sub, SInt(x, s), SInt(y, s), c), S32)
    ensures Step(SETF(s, T(t)), a) == WithNZV(a, SumFlags(sub, x, y, c, s))
    ensures Trunc(Peek(a.x, t), s) == Trunc(SumOf(sub, x, y, c), s)
  {
    hide Trunc, SInt, Msb, Bit, SumFlags;
    NarrowFlags(sub, x, y, c, s);
  }

  /** The flags of a narrow sum in the sum of the sign-extended operands. */
  lemma NarrowFlags(sub: bool, x: Word, y: Word, c: nat, s: Size)
    requires !Wide(s) && x < Cap(s) && y < Cap(s) && c <= 1
    ensures var v := Trunc(SumOf(sub, SInt(x, s), SInt(y, s), c), S32); var f := SumFlags(sub, x, y, c, s);
      && f.sf == Msb(v, s) && f.zf == (Trunc(v, s) == 0) && f.of == (Bit(v, Bits(s)) != Msb(v, s))
      && Trunc(v, s) == Trunc(SumOf(sub, x, y, c), s)
  {
    hide Trunc, SInt, Msb, Bit;
    var sum := SumOf(sub, SInt(x, s), SInt(y, s), c);
    SIntRange(x, s);
    SIntRange(y, s);
    SetfOk(sum, s);
    NarrowSum(sub, x, y, c, s);
    SIntRange(SumOf(sub, x, y, c), s);
    MsbTrunc(SumOf(sub, x, y, c), sum, s);
  }

  lemma MsbTrunc(u: int, v: int, s: Size)
    requires Trunc(u, s) == Trunc(v, s)
    ensures Msb(u, s) == Msb(v, s) && SInt(u, s) == SInt(v, s)
    ensures Msb(Trunc(u, s), s) == Msb(u, s)
  {
    hide Trunc;
    TruncAdd(u, 0, s);
  }

  lemma NarrowSum(sub: bool, x: Word, y: Word, c: nat, s: Size)
    ensures Trunc(SumOf(sub, SInt(x, s), SInt(y, s), c), s) == Trunc(SumOf(sub, x, y, c), s)
  {
    hide Trunc, SInt;
    SIntRange(x, s);
    SIntRange(y, s);
    var sx, sy := SInt(x, s), SInt(y, s);
    TruncAdd(sx, if sub then 0 - sy - c else sy + c, s);
    TruncAdd(x, if sub then 0 - sy - c else sy + c, s);
    TruncAdd(if sub then x - c else x + c, sy, s);
    TruncAdd(if sub then x - c else x + c, y, s);
  }

  /** ADDS, SUBS, CMP, CMN and NEGS. */
  lemma StepSums(a: State, sub: bool, w: Size, d: Reg, n: Reg, m: Rhs, x: Word, y: Word)
    requires Read(a, n, w) == x && RhsVal(a, m, w) == y
    ensures Step(ADDSUB(sub, true, w, d, n, m), a)
         == Set(WithFlags(a, SumFlags(sub, x, y, 0, w), SumPol(sub)), d, Trunc(SumOf(sub, x, y, 0), w))
  {
    hide Set, Get, Trunc, RhsVal, AddSub, SumFlags, WithFlags;
    TruncBound(Get(a, n), w);
    RhsBound(a, m, w);
    AddSubFlags(a, sub, false, w, d, x, y);
  }

  /** RMIF n, #63, #2 copies bit 0 into C. */
  lemma RmifC(a: State, r: Reg)
    ensures Step(RMIF(r, 63, 2), a) == a.(c := Get(a, r) % 2 == 1)
  {
    hide Get;
    Zero(Get(a, r));
  }
}
