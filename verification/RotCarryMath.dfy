/** A rotate through CF is a rotate of the number CF:v, one bit longer than the operand. */
module RotCarryMath {
  import opened Words
  import opened Steps
  import opened Flags
  import opened X86
  import opened ShiftMath

  /** CF:v as one number. */
  function Enc(x: VC, s: Size): nat { x.v + Lsl1(x.cf, s) }

  function Lsl1(cf: bool, s: Size): nat { if cf then Cap(s) else 0 }

  function ModLong(n: nat, s: Size): (k: nat)
    ensures k < Bits(s) + 1
  {
    match s case S8 => n % 9 case S16 => n % 17 case S32 => n % 33 case S64 => n % 65
  }

  lemma LongNext(n: nat, s: Size)
    ensures ModLong(n + 1, s) == if ModLong(n, s) == Bits(s) then 0 else ModLong(n, s) + 1
  {
    match s
    case S8 => Next9(n);
    case S16 => Next17(n);
    case S32 => Next33(n);
    case S64 => Next65(n);
  }

  lemma Next9(n: nat)
    ensures (n + 1) % 9 == if n % 9 == 8 then 0 else n % 9 + 1
  {
  }

  lemma Next17(n: nat)
    ensures (n + 1) % 17 == if n % 17 == 16 then 0 else n % 17 + 1
  {
  }

  lemma Next33(n: nat)
    ensures (n + 1) % 33 == if n % 33 == 32 then 0 else n % 33 + 1
  {
  }

  lemma Next65(n: nat)
    ensures (n + 1) % 65 == if n % 65 == 64 then 0 else n % 65 + 1
  {
  }

  /** One step right halves CF:v and puts the lost bit on top. */
  lemma RightStep(x: VC, s: Size)
    requires x.v < Cap(s)
    ensures var y := Enc(x, s); var r := RotCarryOne(false, x, s);
      r.v < Cap(s) && Enc(r, s) == y / 2 + (if y % 2 == 1 then Cap(s) else 0)
  {
    TruncSmall(x.v, s);
  }

  /** A step left undoes a step right. */
  lemma LeftStep(x: VC, y: VC, s: Size)
    requires x.v < Cap(s) && y.v < Cap(s)
    requires Enc(y, s) == Enc(x, s) / 2 + (if Enc(x, s) % 2 == 1 then Cap(s) else 0)
    ensures RotCarryOne(true, y, s) == x
  {
    hide Trunc;
    TruncSmall(y.v, s);
    TruncNear(2 * y.v, s);
    EncParts(y, s);
    match s
    case S8 => LeftParts(x.v, x.cf, y.v, y.cf, 0x80);
    case S16 => LeftParts(x.v, x.cf, y.v, y.cf, 0x8000);
    case S32 => LeftParts(x.v, x.cf, y.v, y.cf, 0x8000_0000);
    case S64 => LeftParts(x.v, x.cf, y.v, y.cf, 0x8000_0000_0000_0000);
  }

  lemma EncParts(y: VC, s: Size)
    requires y.v < Cap(s)
    ensures y.cf <==> Enc(y, s) >= Cap(s)
  {
  }

  /** The two halves of a number one step right of another. */
  lemma LeftParts(v: nat, c: bool, w: nat, d: bool, h: nat)
    requires h > 0 && h % 2 == 0 && v < 2 * h && w < 2 * h
    requires w + (if d then 2 * h else 0)
          == (v + (if c then 2 * h else 0)) / 2 + (if (v + (if c then 2 * h else 0)) % 2 == 1 then 2 * h else 0)
    ensures c <==> w >= h
    ensures v == 2 * w - (if c then 2 * h else 0) + B2N(d)
  {
    var t := v + (if c then 2 * h else 0);
    assert t == 2 * (t / 2) + t % 2;
    assert d <==> t % 2 == 1;
  }

  lemma EncBound(x: VC, s: Size)
    requires x.v < Cap(s)
    ensures Enc(x, s) < Pow2(Bits(s) + 1) && Pow2(Bits(s)) == Cap(s)
  {
    CapPow2(s);
  }

  lemma {:induction false} RightClosed(x: VC, n: nat, s: Size)
    requires x.v < Cap(s)
    ensures var r := RotCarryBy(false, x, n, s);
      r.v < Cap(s) && Enc(r, s) == RotR(Enc(x, s), ModLong(n, s), Bits(s) + 1)
  {
    hide RotR, Enc, RotCarryOne, Pow2;
    var m := Bits(s) + 1;
    EncBound(x, s);
    RotREnds(Enc(x, s), m);
    if n > 0 {
      RightClosed(x, n - 1, s);
      RightStep(RotCarryBy(false, x, n - 1, s), s);
      RotRStep(Enc(x, s), ModLong(n - 1, s), m);
      LongNext(n - 1, s);
    }
  }

  function LongLeft(n: nat, s: Size): (k: nat)
    ensures k <= Bits(s)
  {
    if ModLong(n, s) == 0 then 0 else Bits(s) + 1 - ModLong(n, s)
  }

  lemma {:induction false} LeftClosed(x: VC, n: nat, s: Size)
    requires x.v < Cap(s)
    ensures var r := RotCarryBy(true, x, n, s);
      r.v < Cap(s) && Enc(r, s) == RotR(Enc(x, s), LongLeft(n, s), Bits(s) + 1)
  {
    hide RotR, Enc, RotCarryOne, Pow2, ModLong;
    var m := Bits(s) + 1;
    EncBound(x, s);
    RotREnds(Enc(x, s), m);
    if n == 0 {
      ModLongZero(s);
    } else {
      LeftClosed(x, n - 1, s);
      LongNext(n - 1, s);
      var y, k := RotCarryBy(true, x, n - 1, s), LongLeft(n, s);
      RotRStep(Enc(x, s), k, m);
      RotRBound(Enc(x, s), k, m);
      var z := Dec(RotR(Enc(x, s), k, m), s);
      LeftStep(z, y, s);
    }
  }

  lemma ModLongZero(s: Size)
    ensures ModLong(0, s) == 0
  {
  }

  /** The value and carry that a number stands for. */
  lemma Dec(e: int, s: Size) returns (x: VC)
    requires 0 <= e < Pow2(Bits(s) + 1)
    ensures x.v < Cap(s) && Enc(x, s) == e
  {
    CapPow2(s);
    x := if e >= Cap(s) then VC(e - Cap(s), true) else VC(e, false);
  }

  /** The rotate repeats after size + 1 steps: counts may be taken modulo size + 1. */
  lemma RotCarryPeriodic(left: bool, x: VC, n: nat, s: Size)
    requires x.v < Cap(s)
    ensures RotCarryBy(left, x, n, s) == RotCarryBy(left, x, ModLong(n, s), s)
  {
    hide RotR, RotCarryBy, Pow2;
    LongTwice(n, s);
    if left {
      LeftClosed(x, n, s);
      LeftClosed(x, ModLong(n, s), s);
    } else {
      RightClosed(x, n, s);
      RightClosed(x, ModLong(n, s), s);
    }
    EncInjective(RotCarryBy(left, x, n, s), RotCarryBy(left, x, ModLong(n, s), s), s);
  }

  lemma LongTwice(n: nat, s: Size)
    ensures ModLong(ModLong(n, s), s) == ModLong(n, s)
  {
  }

  lemma EncInjective(x: VC, y: VC, s: Size)
    requires x.v < Cap(s) && y.v < Cap(s)
    ensures Enc(x, s) == Enc(y, s) ==> x == y
  {
  }

  // ---- the closed forms the lowering computes ------------------------------------------------------

  /** Up to 33 bits: rotate left by k within m bits as an OR of two 64-bit shifts. */
  lemma RotWithin(v: nat, m: nat, k: nat)
    requires 0 < k < m <= 33 && v < Pow2(m)
    ensures 0 <= Lsr(v, m - k) <= v
    ensures var y := Bw(BOr, Trunc(Lsl(v, k), S64), Lsr(v, m - k));
      y < Cap(S64) && Low(y, m) == RotR(v, m - k, m) && Bw(BOr, Lsr(v, m - k), Trunc(Lsl(v, k), S64)) == y
  {
    hide Lsl, Lsr, Low, Pow2, Bw, Trunc;
    var q, r := Low(v, 64 - k), Lsr(v, m - k);
    LsrRange(v, m - k);
    UpperBound(v, m - k, m);
    TruncLow(Lsl(v, k), S64);
    LowLsl(v, 64 - k, k);
    OrDisjoint(q, r, k);
    LowLow(v, m - k, 64 - m);
    LowLslSum(q, r, m - k, k);
    BwBound(BOr, Trunc(Lsl(v, k), S64), r, 64) by { TruncBound(Lsl(v, k), S64); Pow2Mono(m, 64); CapPow2(S64); }
    CapPow2(S64);
  }

  /** The low bits of Lsl(q, k) + r for r below 2^k. */
  lemma LowLslSum(q: nat, r: nat, n: nat, k: nat)
    requires r < Pow2(k)
    ensures Low(Lsl(q, k) + r, k + n) == Lsl(Low(q, n), k) + r
  {
    hide Lsl, Lsr, Low;
    LowSplit(Lsl(q, k) + r, k, n);
    Unsplit(q, r, k);
  }

  /** 64-bit: the rotate left by k of CF:v, and its CF. */
  function Long64(v: Word, cf: bool, k: nat): int
    requires 1 <= k <= 64
  {
    Lsl(Low(v, 64 - k), k) + Lsl(B2N(cf), k - 1) + Lsr(v, 65 - k)
  }

  lemma Long64Ok(v: Word, cf: bool, k: nat)
    requires 1 <= k <= 64
    ensures RotR(Enc(VC(v, cf), S64), 65 - k, 65) == Long64(v, cf, k) + (if Bit(v, 64 - k) then Cap(S64) else 0)
  {
    hide Lsl, Lsr, Low, Pow2;
    var c := B2N(cf);
    CapPow2(S64);
    Const64(c);
    LsrSum(c, v, 64, 65 - k);
    LowSplit(v, 64 - k, 1);
    LowOne(Lsr(v, 64 - k));
    var bit := Lsr(v, 64 - k) % 2;
    LslAdd(Lsl(bit, 64 - k), Low(v, 64 - k), k);
    LslLsl(bit, 64 - k, k);
    Const64(bit);
  }

  lemma Long64Or(v: Word, cf: bool, k: nat)
    requires 1 <= k <= 64
    ensures var a, b, c := Lsl(Low(v, 64 - k), k), Lsl(B2N(cf), k - 1), Lsr(v, 65 - k);
      && 0 <= a < Cap(S64) && 0 <= b < Cap(S64) && 0 <= c < Cap(S64)
      && a + b < Cap(S64) && b + c < Cap(S64) && 0 <= Long64(v, cf, k) < Cap(S64)
      && Bw(BOr, a, b) == a + b && Bw(BOr, a + b, c) == Long64(v, cf, k)
      && Bw(BOr, c, b) == b + c && Bw(BOr, b + c, a) == Long64(v, cf, k)
  {
    hide Lsl, Lsr, Low, Pow2, Bw;
    var q, bit := Low(v, 64 - k), B2N(cf);
    var a, b, c := Lsl(q, k), Lsl(bit, k - 1), Lsr(v, 65 - k);
    CapPow2(S64);
    LsrRange(v, 65 - k);
    UpperBound(v, 65 - k, 64 + 1) by { Pow2Mono(64, 65); }
    if k > 1 { UpperBound(v, 65 - k, 64); } else { SmallSplit(v, 64); Pow2Consts(); }
    LslPow2(bit, k - 1);
    LslPow2(q, k);
    assert Pow2(k) == 2 * Pow2(k - 1) by { Pow2Double(k - 1); }
    LslMono(bit, 1, k - 1);
    LslPow2(1, k - 1);
    Split(v, 64 - k);
    Pow2Split(64 - k, k);
    assert 64 - k + k == 64;
    LslMono(q, Pow2(64 - k) - 1, k);
    LslAdd(Pow2(64 - k), 1, k);
    LslPow2(1, k);
    OrDisjoint(q, b, k);
    LslAdd(2 * q, bit, k - 1);
    LslHalf(q, k);
    OrDisjoint(2 * q + bit, c, k - 1);
    OrDisjoint(bit, c, k - 1);
    OrDisjoint(q, b + c, k);
  }

  lemma Pow2Double(n: nat)
    ensures Pow2(n + 1) == 2 * Pow2(n)
  {
  }
}
