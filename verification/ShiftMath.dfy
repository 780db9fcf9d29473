/** Closed forms of the one-bit-at-a-time shifts and rotates. */
module ShiftMath {
  import opened Words
  import opened Steps
  import opened X86
  import opened Flags

  /** The sign bit is bit size - 1. */
  lemma MsbBit(v: int, s: Size)
    ensures Msb(v, s) <==> Bit(v, Bits(s) - 1)
  {
    hide Lsl, Lsr, Low, Trunc;
    var n := Bits(s) - 1;
    TruncLow(v, s);
    LowSplit(v, n, 1);
    var q := Lsr(v, n);
    Split(v, n);
    LowOne(q);
    LslPow2(0, n);
    LslPow2(1, n);
  }

  lemma LowOne(q: int)
    ensures Low(q, 1) == q % 2
  {
  }

  /** Bit k of the low bits. */
  lemma BitLow(v: int, k: nat, n: nat)
    requires k < n
    ensures Bit(Low(v, n), k) <==> Bit(v, k)
    ensures Field(v, k, 1) == B2N(Bit(v, k))
  {
    hide Lsr, Low;
    LowLow(v, k, n - k);
    LowParity(Lsr(v, k), n - k);
    LowOne(Lsr(v, k));
  }

  lemma LowParity(q: int, n: nat)
    requires n > 0
    ensures Low(q, n) % 2 == q % 2
  {
    var h := Low(q / 2, n - 1);
    assert Low(q, n) == 2 * h + q % 2;
    hide Low;
  }

  lemma BitTrunc(v: int, k: nat, s: Size)
    requires k < Bits(s)
    ensures Bit(Trunc(v, s), k) <==> Bit(v, k)
  {
    hide Lsr, Low, Trunc;
    TruncLow(v, s);
    BitLow(v, k, Bits(s));
  }

  // ---- SHL, SHR, SAR -----------------------------------------------------------------------

  lemma {:induction false} ShlClosed(v: Word, cf: bool, n: nat, s: Size)
    requires v < Cap(s)
    ensures var r := ShiftBy(Shl, VC(v, cf), n, s);
      r.v == Trunc(Lsl(v, n), s) && (n > 0 ==> r.cf == Bit(Lsl(v, n), Bits(s)))
  {
    hide Lsr, Trunc, Msb;
    if n == 0 {
      TruncSmall(v, s);
    } else {
      ShlClosed(v, cf, n - 1, s);
      var y := Lsl(v, n - 1);
      TruncAdd(y, 0, s);
      TruncAdd(y, y, s);
      TruncAdd(y, Trunc(y, s), s);
      MsbBit(y, s);
      MsbOfTrunc(y, s);
      LsrHalf(2 * y, Bits(s));
    }
  }

  lemma MsbOfTrunc(v: int, s: Size)
    ensures Msb(Trunc(v, s), s) == Msb(v, s)
  {
    hide Trunc;
    TruncAdd(v, 0, s);
  }

  lemma {:induction false} ShrClosed(v: Word, cf: bool, n: nat, s: Size)
    requires v < Cap(s)
    ensures var r := ShiftBy(Shr, VC(v, cf), n, s);
      r.v == Lsr(v, n) && (n > 0 ==> r.cf == Bit(v, n - 1))
  {
    hide Trunc;
    if n > 0 {
      ShrClosed(v, cf, n - 1, s);
      LsrRange(v, n - 1);
      TruncSmall(Lsr(v, n - 1), s);
    }
  }

  lemma {:induction false} SignedShift(y: int, n: nat, h: nat)
    requires 0 - h <= y < h
    ensures 0 - h <= Lsr(y, n) < h
  {
    if n > 0 { SignedShift(y, n - 1, h); }
  }

  /** An arithmetic shift by one of a value in signed range. */
  lemma SarOne(y: int, s: Size)
    requires 0 - Half(s) <= y < Half(s)
    ensures var t := Trunc(y, s);
      && Trunc(y / 2, s) == t / 2 + (if Msb(t, s) then Half(s) else 0)
      && t % 2 == y % 2
  {
    hide Trunc;
    TruncNear(y, s);
    TruncNear(y / 2, s);
    TruncAdd(y, 0, s);
  }

  lemma {:induction false} SarClosed(v: Word, cf: bool, n: nat, s: Size)
    requires v < Cap(s)
    ensures var r := ShiftBy(Sar, VC(v, cf), n, s); var sv := SInt(v, s);
      r.v == Trunc(Lsr(sv, n), s) && (n > 0 ==> r.cf == Bit(sv, n - 1))
  {
    hide Trunc, Msb;
    SIntRange(v, s);
    if n == 0 {
      TruncSmall(v, s);
    } else {
      SarClosed(v, cf, n - 1, s);
      var y := Lsr(SInt(v, s), n - 1);
      SignedShift(SInt(v, s), n - 1, Half(s));
      SarOne(y, s);
      TruncAdd(y, 0, s);
    }
  }

  // ---- ROL, ROR ------------------------------------------------------------------------------

  /** v rotated right by k within m bits. */
  function RotR(v: nat, k: nat, m: nat): int
    requires k <= m
  {
    Lsr(v, k) + Lsl(Low(v, k), m - k)
  }

  lemma RotRBound(v: nat, k: nat, m: nat)
    requires k <= m && v < Pow2(m)
    ensures 0 <= RotR(v, k, m) < Pow2(m)
  {
    hide Lsl, Lsr, Low, Pow2;
    Split(v, k);
    UpperBound(v, k, m);
    Pow2Split(k, m - k);
    Pow2Split(m - k, k);
    LslMono(Low(v, k), Pow2(k) - 1, m - k);
    LslAdd(Pow2(k), 1, m - k);
    LslPow2(1, m - k);
    LslPow2(Low(v, k), m - k);
    LsrRange(v, k);
  }

  lemma UpperBound(v: nat, k: nat, m: nat)
    requires k <= m && v < Pow2(m)
    ensures Lsr(v, k) < Pow2(m - k)
  {
    hide Lsl, Lsr, Low, Pow2;
    Split(v, k);
    if Lsr(v, k) >= Pow2(m - k) {
      Pow2Split(m - k, k);
      LslMono(Pow2(m - k), Lsr(v, k), k);
      assert false;
    }
  }

  /** One more bit. */
  lemma RotRStep(v: nat, k: nat, m: nat)
    requires k < m && v < Pow2(m)
    ensures var y := RotR(v, k, m);
      RotR(v, k + 1, m) == y / 2 + (if y % 2 == 1 then Pow2(m - 1) else 0)
  {
    hide Lsl, Low, Pow2;
    var q, l := Lsr(v, k), Low(v, k);
    LowSplit(v, k, 1);
    LowOne(q);
    var h := Lsl(l, m - k);
    HalfLsl(l, m - k);
    LslAdd(Lsl(q % 2, k), l, m - k - 1);
    LslLsl(q % 2, k, m - k - 1);
    LslPow2(0, m - 1);
    LslPow2(1, m - 1);
    HalfSum(q, h, Lsl(l, m - k - 1));
  }

  lemma HalfLsl(l: int, n: nat)
    requires n > 0
    ensures Lsl(l, n) == 2 * Lsl(l, n - 1)
  {
  }

  lemma HalfSum(q: int, h: int, h': int)
    requires h == 2 * h'
    ensures (q + h) / 2 == q / 2 + h' && (q + h) % 2 == q % 2
  {
  }

  lemma RotREnds(v: nat, m: nat)
    requires v < Pow2(m)
    ensures RotR(v, 0, m) == v && RotR(v, m, m) == v
  {
    hide Lsl, Pow2;
    LslPow2(0, m);
    SmallSplit(v, m);
    Zero(v);
    Zero(Low(v, m));
  }

  /** A rotate left undoes a rotate right. */
  lemma RolRor(v: Word, cf: bool, s: Size)
    requires v < Cap(s)
    ensures var y := v / 2 + (if v % 2 == 1 then Half(s) else 0);
      y < Cap(s) && ShiftOne(Rol, VC(y, cf), s) == VC(v, v % 2 == 1)
  {
    hide Trunc;
    var y := v / 2 + (if v % 2 == 1 then Half(s) else 0);
    TruncSmall(y, s);
    TruncNear(2 * y, s);
  }

  lemma {:induction false} RorClosed(v: Word, cf: bool, n: nat, s: Size)
    requires v < Cap(s)
    ensures var r := ShiftBy(Ror, VC(v, cf), n, s);
      && r.v == RotR(v, ModBits(n, s), Bits(s)) && r.v < Cap(s)
      && (n > 0 ==> r.cf == Msb(r.v, s))
  {
    hide Trunc, RotR;
    CapPow2(s);
    if n == 0 {
      RotREnds(v, Bits(s));
    } else {
      RorClosed(v, cf, n - 1, s);
      var y := ShiftBy(Ror, VC(v, cf), n - 1, s).v;
      TruncSmall(y, s);
      RotRStep(v, ModBits(n - 1, s), Bits(s));
      RotREnds(v, Bits(s));
      RotRBound(v, ModBits(n, s), Bits(s));
      ModNext(n - 1, s);
      TruncSmall(RotR(v, ModBits(n, s), Bits(s)), s);
    }
  }

  lemma ModNext(n: nat, s: Size)
    ensures ModBits(n + 1, s) == if ModBits(n, s) + 1 == Bits(s) then 0 else ModBits(n, s) + 1
  {
    match s
    case S8 => Next8(n);
    case S16 => Next16(n);
    case S32 => Next32(n);
    case S64 => Next64(n);
  }

  lemma Next8(n: nat)
    ensures (n + 1) % 8 == if n % 8 == 7 then 0 else n % 8 + 1
  {
  }

  lemma Next16(n: nat)
    ensures (n + 1) % 16 == if n % 16 == 15 then 0 else n % 16 + 1
  {
  }

  lemma Next32(n: nat)
    ensures (n + 1) % 32 == if n % 32 == 31 then 0 else n % 32 + 1
  {
  }

  lemma Next64(n: nat)
    ensures (n + 1) % 64 == if n % 64 == 63 then 0 else n % 64 + 1
  {
  }

  /** The right-rotate amount of a left rotate. */
  function LeftAmount(n: nat, s: Size): (k: nat)
    ensures k < Bits(s)
  {
    if ModBits(n, s) == 0 then 0 else Bits(s) - ModBits(n, s)
  }

  lemma {:induction false} RolClosed(v: Word, cf: bool, n: nat, s: Size)
    requires v < Cap(s)
    ensures var r := ShiftBy(Rol, VC(v, cf), n, s);
      && r.v == RotR(v, LeftAmount(n, s), Bits(s)) && r.v < Cap(s)
      && (n > 0 ==> r.cf == (r.v % 2 == 1))
  {
    hide Trunc, RotR, ShiftOne;
    CapPow2(s);
    if n == 0 {
      RotREnds(v, Bits(s));
    } else {
      RolClosed(v, cf, n - 1, s);
      var x := ShiftBy(Rol, VC(v, cf), n - 1, s);
      var k := LeftAmount(n, s);
      ModNext(n - 1, s);
      RotREnds(v, Bits(s));
      RotRBound(v, k, Bits(s));
      RotRStep(v, k, Bits(s));
      RolRor(RotR(v, k, Bits(s)), x.cf, s);
    }
  }

  // ---- fields of shifted values ------------------------------------------------------------------

  /** Low bits of a left shift. */
  lemma {:induction false} LowLsl(v: int, m: nat, n: nat)
    ensures Low(Lsl(v, n), m + n) == Lsl(Low(v, m), n)
  {
    if n > 0 { LowLsl(v, m, n - 1); }
  }

  lemma {:induction false} LsrLsl(v: int, m: nat, n: nat)
    ensures Lsr(Lsl(v, n), n) == v
    ensures Lsr(Lsl(v, n), n + m) == Lsr(v, m)
    ensures Lsr(Lsl(v, n + m), n) == Lsl(v, m)
  {
    hide Lsl, Lsr;
    Pow2Positive(n);
    Unsplit(v, 0, n);
    LsrLsr(Lsl(v, n), n, m);
    LslLsl(v, m, n);
    Unsplit(Lsl(v, m), 0, n);
  }

  lemma Pow2Positive(n: nat)
    ensures Pow2(n) > 0
  {
  }

  /** The upper part of a sum whose low part has no carry. */
  lemma LsrSum(q: int, r: nat, n: nat, k: nat)
    requires k <= n && r < Pow2(n)
    ensures Lsr(Lsl(q, n) + r, k) == Lsl(q, n - k) + Lsr(r, k)
    ensures Low(Lsl(q, n) + r, k) == Low(r, k)
  {
    hide Lsl, Lsr, Low;
    Split(r, k);
    LslLsl(q, n - k, k);
    LslAdd(Lsl(q, n - k), Lsr(r, k), k);
    Unsplit(Lsl(q, n - k) + Lsr(r, k), Low(r, k), k);
  }

  /** Low bits of a sum whose other part lies above them. */
  lemma LowSum(q: int, r: int, n: nat)
    ensures Low(Lsl(q, n) + r, n) == Low(r, n)
  {
    hide Lsl, Lsr, Low;
    Split(r, n);
    LslAdd(q, Lsr(r, n), n);
    Unsplit(q + Lsr(r, n), Low(r, n), n);
  }

  /** Bits of a bitwise operation. */
  lemma {:induction false} BwLsr(op: BitOp, a: nat, b: nat, k: nat)
    ensures Lsr(a, k) >= 0 && Lsr(b, k) >= 0 && Lsr(Bw(op, a, b), k) == Bw(op, Lsr(a, k), Lsr(b, k))
  {
    if k > 0 { BwLsr(op, a, b, k - 1); }
  }

  lemma BwBit(op: BitOp, a: nat, b: nat, k: nat)
    ensures B2N(Bit(Bw(op, a, b), k)) == BitOf(op, B2N(Bit(a, k)), B2N(Bit(b, k)))
  {
    hide Lsr, Bw;
    BwLsr(op, a, b, k);
    BwParity(op, Lsr(a, k), Lsr(b, k));
  }

  lemma {:induction false} BwParity(op: BitOp, a: nat, b: nat)
    ensures Bw(op, a, b) % 2 == BitOf(op, a % 2, b % 2)
  {
  }
}
