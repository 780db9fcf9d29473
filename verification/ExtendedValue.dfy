/** The values that x87StoreM80 stores and x87LoadM80 loads (arm64_lifter_fpu.go), as integers in units
    of 2^-16446, the weight of the lowest bit of an extended value at exponent 0. */
module ExtendedValue {
  import opened Words
  import opened Steps
  import opened ShiftMath
  import opened Remainder
  import opened Extended

  // ---- values -------------------------------------------------------------------------------------------

  /** The significand of a double, with the hidden bit where there is one. */
  function Mantissa(d: Double): nat { if d.field == 0 then d.frac else Hidden + d.frac }

  function Exponent(d: Double): nat { if d.field == 0 then 1 else d.field }

  /** mantissa * 2^(exponent - 1075); the infinity stands for 2^1024, the next value after the finite ones. */
  function DoubleValue(d: Double): int { Lsl(Mantissa(d), Exponent(d) + 15371) }

  /** significand * 2^(exponent - 16446). */
  function M80Value(m: M80): int { Lsl(m.sig, if m.exp == 0 then 1 else m.exp) }

  /** A zero, a denormal or a normal number; pseudo-denormals included. */
  predicate Finite(m: M80) { m.exp < 0x7fff && (m.exp != 0 ==> m.sig >= Top) }

  predicate Number(d: Double) { IsDouble(d) && !IsNaN(d) }

  // ---- the store ------------------------------------------------------------------------------------------

  /** What is stored has the double's sign and value; an infinity stays one. */
  lemma StoreValue(d: Double)
    requires Number(d)
    ensures Store(d).neg == d.neg
    ensures d.field < 0x7ff ==> Finite(Store(d)) && M80Value(Store(d)) == DoubleValue(d)
    ensures d.field == 0x7ff ==> Store(d) == M80(d.neg, 0x7fff, Top)
  {
    hide Lsl, Trunc, Clz;
    if d.field == 0 && d.frac != 0 {
      var k := Clz(d.frac);
      ClzFraction(d.frac);
      FractionTop(d.frac);
      LslLsl(d.frac, k, 15372 - k);
    } else if 0 < d.field < 0x7ff {
      TopLsl(Mantissa(d));
      LslLsl(Mantissa(d), 11, d.field + 15360);
    } else if d.field == 0 {
      LslPow2(0, 1);
      LslPow2(0, 15372);
    }
  }

  lemma FractionTop(frac: Word)
    requires 0 < frac < Hidden
    ensures var k := Clz(frac); 12 <= k < 64 && Trunc(Lsl(frac, k), S64) == Lsl(frac, k) >= Top
  {
    hide Lsl, Trunc, Pow2;
    ClzFraction(frac);
    TopPow2();
    ClzTop(frac, 64);
    TruncSmall(Lsl(frac, Clz(frac)), S64);
  }

  lemma TopLsl(m: nat)
    ensures Lsl(m, 11) == 0x800 * m
  {
    hide Lsl;
    Consts11(m);
  }

  lemma Consts11(m: int)
    ensures Lsl(m, 11) == 0x800 * m
  {
    LslLsl(m, 8, 3);
    Const8(m);
    Zero(0x100 * m);
    assert Lsl(0x100 * m, 3) == 2 * Lsl(0x100 * m, 2) == 4 * Lsl(0x100 * m, 1) == 8 * Lsl(0x100 * m, 0);
  }

  // ---- the load of what is in the normal range ----------------------------------------------------------

  /** From 2^-1022 on: the value is the rounded significand times its power of two, and beyond the range, also
      by a carry into it, the infinity of the sign. */
  lemma LoadValue(m: M80, round: Word -> nat)
    requires Finite(m) && m.exp >= 15361 && Rounds(round)
    ensures var d := Load(m, round);
      && Number(d) && d.neg == m.neg
      && (m.exp >= 17407 ==> d == Double(m.neg, 0x7ff, 0))
      && (m.exp < 17407 ==> DoubleValue(d) == Lsl(round(m.sig), m.exp + 11) && d.field >= m.exp - 15360)
      && (m.exp < 17407 ==> d.frac % 2 == round(m.sig) % 2)
  {
    hide Lsl, Trunc, Clz;
    NormalClz(m.sig);
    var r := round(m.sig);
    assert Hidden <= r <= 2 * Hidden;
    if r == 2 * Hidden { LslHalf(Hidden, m.exp + 12); }
  }

  // ---- the load of what is below ------------------------------------------------------------------------

  /** The nearest is the same in another unit. */
  lemma NearestScaled(n: int, x: nat, y: nat, k: nat)
    requires k > 0
    ensures NearestEven(n, x * k, y * k) <==> NearestEven(n, x, y)
  {
    var r := x - n * y;
    assert x * k - n * (y * k) == r * k by { Scaled(x, n, y, k); }
    Order(2 * r, y, k);
    Order(-(y as int), 2 * r, k);
  }

  lemma Scaled(x: int, n: int, y: int, k: int)
    ensures x * k - n * (y * k) == (x - n * y) * k
  {
  }

  lemma Order(a: int, b: int, k: nat)
    requires k > 0
    ensures (a <= b <==> a * k <= b * k) && (a == b <==> a * k == b * k)
  {
    if a < b { Less(a, b, k); }
    if b < a { Less(b, a, k); }
  }

  lemma Less(a: int, b: int, k: nat)
    requires k > 0 && a < b
    ensures a * k < b * k
  {
    Distribute(a, b - a, k);
    AtLeast(b - a, k);
  }

  /** Below 2^-1022: the mantissa is the value in units of the smallest denormal, rounded to nearest even; it
      may carry into the smallest normal number, and is 0 for all that is too small. */
  lemma DenormalValue(m: M80, round: Word -> nat)
    requires Finite(m) && m.exp <= 15360
    ensures var d := Load(m, round);
      && Number(d) && d.neg == m.neg && d.field <= 1
      && DoubleValue(d) == Lsl(Mantissa(d), 15372) && M80Value(m) >= 0
      && NearestEven(Mantissa(d), M80Value(m), Pow2(15372))
  {
    hide Lsl, Trunc, Clz, Pow2, RoundDenormal;
    if m.sig == 0 {
      LslPow2(0, if m.exp == 0 then 1 else m.exp);
      LslPow2(0, 15372);
    } else {
      var e := if m.exp == 0 then 1 else m.exp;
      var k := Clz(m.sig);
      var v := Normalized(m.sig);
      var s := 15372 - e + k;
      DenormalNearest(v, s);
      DenormalSmall(v, s);
      SameNearest(m.sig, v, e, k, RoundDenormal(v, s));
      var d := Load(m, round);
      assert Mantissa(d) == RoundDenormal(v, s);
    }
  }

  /** The significand with its highest bit on top. */
  lemma Normalized(sig: Word) returns (v: Word)
    requires sig > 0
    ensures v == Trunc(Lsl(sig, Clz(sig)), S64) == Lsl(sig, Clz(sig)) && v >= Top && Clz(sig) < 64
    ensures sig >= Top ==> Clz(sig) == 0
  {
    hide Lsl, Trunc, Pow2;
    TopPow2();
    ClzTop(sig, 64);
    v := Lsl(sig, Clz(sig));
    TruncSmall(v, S64);
    if sig >= Top { NormalClz(sig); }
    if Clz(sig) == 64 {
      LslPow2(1, 64);
      LslMono(1, sig, 64);
    }
  }

  lemma DenormalSmall(v: Word, s: nat)
    requires v >= Top && s >= 12
    ensures RoundDenormal(v, s) <= Hidden
  {
    hide Lsl, Lsr, Low, Pow2;
    TopPow2();
    Pow2Fifty();
    if s < 64 {
      FieldAll(v, s);
      Split(v, s);
      Kept(v, s);
    }
  }

  /** At most 52 bits are kept. */
  lemma Kept(v: Word, s: nat)
    requires 12 <= s
    ensures Lsr(v, s) < Hidden
  {
    hide Lsr, Pow2;
    LsrLsr(v, 12, s - 12);
    LsrRange(v, 12);
    LsrRange(Lsr(v, 12), s - 12);
    Twelve(v);
  }

  lemma Twelve(v: Word)
    ensures Lsr(v, 12) < Hidden
  {
    hide Lsr;
    LsrLsr(v, 8, 4);
    LsrConsts(v);
    LsrConsts(v / 0x100);
    Four(v / 0x100);
  }

  lemma Four(v: nat)
    ensures Lsr(v, 4) == v / 16
  {
    assert Lsr(v, 1) == v / 2 by { Zero(v); }
    assert Lsr(v, 2) == Lsr(v, 1) / 2;
    assert Lsr(v, 3) == Lsr(v, 2) / 2;
  }

  /** v * 2^(e - k) is sig * 2^e, also where e < k. */
  lemma SameNearest(sig: Word, v: Word, e: nat, k: nat, n: nat)
    requires v == Lsl(sig, k) && e <= 15372 && NearestEven(n, v, Pow2(15372 - e + k))
    ensures Lsl(sig, e) >= 0 && NearestEven(n, Lsl(sig, e), Pow2(15372))
  {
    hide Lsl, Pow2;
    var x, s := Lsl(sig, e), 15372 - e + k;
    LslPow2(sig, e);
    NearestScaled(n, v, Pow2(s), Pow2(e));
    NearestScaled(n, x, Pow2(15372), Pow2(k));
    Product(sig, k, e);
    Product(sig, e, k);
    PowSum(s, e);
    PowSum(15372, k);
  }

  lemma Product(v: int, m: nat, n: nat)
    ensures Lsl(v, m) * Pow2(n) == Lsl(v, m + n)
  {
    hide Lsl, Pow2;
    LslProduct(Lsl(v, m), n);
    LslLsl(v, m, n);
  }

  lemma PowSum(m: nat, n: nat)
    ensures Pow2(m) * Pow2(n) == Pow2(m + n)
  {
    hide Lsl, Pow2;
    LslProduct(Pow2(m), n);
    Pow2Split(m, n);
  }

  // ---- the nearest double --------------------------------------------------------------------------------

  function Distance(x: int, y: int): nat { if x < y then y - x else x - y }

  /** No other double is nearer to the value, and of two as near it is the even one; the infinity counts as
      2^1024, as in section 4.3.1 of IEEE 754-2008. */
  ghost predicate NearestDouble(d: Double, value: int) {
    Number(d) && forall e: Double :: Number(e) ==> AsNear(d, e, value)
  }

  ghost predicate AsNear(d: Double, e: Double, value: int) {
    && Distance(DoubleValue(d), value) <= Distance(DoubleValue(e), value)
    && (Distance(DoubleValue(d), value) == Distance(DoubleValue(e), value) && DoubleValue(d) != DoubleValue(e)
        ==> d.frac % 2 == 0)
  }

  /** UCVTF in the default mode. */
  ghost predicate RoundsNearest(round: Word -> nat) {
    forall v: Word :: v >= Top ==> NearestEven(round(v), v, 0x800)
  }

  lemma NearestRounds(round: Word -> nat)
    requires RoundsNearest(round)
    ensures Rounds(round)
  {
    forall v: Word | v >= Top
      ensures v / 0x800 <= round(v) <= v / 0x800 + 1 && (v % 0x800 == 0 ==> round(v) == v / 0x800)
    {
      assert NearestEven(round(v), v, 0x800);
    }
  }

  /** The nearest multiple of a unit is as near as any other. */
  lemma MultipleNear(n: int, m: int, x: nat, y: nat)
    requires y > 0 && NearestEven(n, x, y)
    ensures Distance(n * y, x) <= Distance(m * y, x)
    ensures Distance(n * y, x) == Distance(m * y, x) && n * y != m * y ==> n % 2 == 0
  {
    if m <= n - 1 {
      UpBy(m, n - 1, y);
      Distribute(n, -1, y);
    } else if m >= n + 1 {
      UpBy(n + 1, m, y);
      Distribute(n, 1, y);
    }
  }

  lemma UpBy(a: int, b: int, y: nat)
    requires a <= b
    ensures a * y <= b * y
  {
    assert (b - a) * y >= 0;
  }

  /** A number whose exponent is at least p is a multiple of the unit at p. */
  lemma ValueMultiple(e: Double, p: nat) returns (m: int)
    requires Exponent(e) >= p
    ensures DoubleValue(e) == m * Pow2(p + 15371)
  {
    hide Lsl, Pow2;
    m := Lsl(Mantissa(e), Exponent(e) - p);
    Product(Mantissa(e), Exponent(e) - p, p + 15371);
  }

  /** ... and one below it is less than the first number at p. */
  lemma ValueBelow(e: Double, p: nat)
    requires Number(e) && Exponent(e) < p
    ensures DoubleValue(e) < Hidden * Pow2(p + 15371)
  {
    hide Lsl, Pow2;
    var x := Exponent(e) + 15371;
    LslProduct(Mantissa(e), x);
    Less(Mantissa(e), 2 * Hidden, Pow2(x));
    Twice(Pow2(x));
    Pow2Next(x);
    PowGrows(x + 1, p + 15371);
    Larger(Hidden, Pow2(x + 1), Pow2(p + 15371));
  }

  lemma Twice(y: nat)
    ensures 2 * Hidden * y == Hidden * (2 * y)
  {
  }

  lemma PowGrows(m: nat, n: nat)
    requires m <= n
    ensures Pow2(m) <= Pow2(n)
  {
    hide Pow2;
    Pow2Mono(m, n);
  }

  lemma Larger(k: nat, a: nat, b: nat)
    requires a <= b
    ensures k * a <= k * b
  {
    assert k * (b - a) >= 0;
  }

  /** A rounded mantissa at exponent p is nearest among all doubles, if the value is not below the first
      number at p. */
  lemma NearestAt(d: Double, n: int, value: nat, p: nat, e: Double)
    requires p >= 1 && Number(d) && Number(e) && NearestEven(n, value, Pow2(p + 15371))
    requires DoubleValue(d) == n * Pow2(p + 15371) && d.frac % 2 == n % 2
    requires p == 1 || value >= Hidden * Pow2(p + 15371)
    ensures AsNear(d, e, value)
  {
    hide Lsl, Pow2;
    var y := Pow2(p + 15371);
    if Exponent(e) >= p {
      var m := ValueMultiple(e, p);
      MultipleNear(n, m, value, y);
    } else {
      ValueBelow(e, p);
      MultipleNear(n, Hidden, value, y);
    }
  }

  /** What is beyond the range. */
  lemma NearestBeyond(neg: bool, value: int, e: Double)
    requires Number(e) && value >= Lsl(Hidden, 17418)
    ensures AsNear(Double(neg, 0x7ff, 0), e, value)
  {
    hide Lsl, Pow2;
    LslProduct(Hidden, 17418);
    if e.field == 0x7ff {
      assert DoubleValue(e) == Lsl(Hidden, 17418);
    } else {
      ValueBelow(e, 2047);
    }
  }

  /** Loading in the default mode gives the double nearest to the value, with its sign: for every zero,
      denormal and normal encoding, up to the infinity. */
  lemma LoadNearest(m: M80, round: Word -> nat)
    requires Finite(m) && RoundsNearest(round)
    ensures Load(m, round).neg == m.neg && NearestDouble(Load(m, round), M80Value(m))
  {
    hide Lsl, Pow2, Load, AsNear, Number;
    var d, value := Load(m, round), M80Value(m);
    NearestRounds(round);
    if m.exp <= 15360 {
      DenormalValue(m, round);
      LslProduct(Mantissa(d), 15372);
      MantissaEven(d);
      forall e: Double | Number(e)
        ensures AsNear(d, e, value)
      {
        NearestAt(d, Mantissa(d), value, 1, e);
      }
    } else {
      LoadValue(m, round);
      SigBounds(m);
      if m.exp >= 17407 {
        forall e: Double | Number(e)
          ensures AsNear(d, e, value)
        {
          NearestBeyond(m.neg, value, e);
        }
      } else {
        var p := m.exp - 15360;
        LslProduct(round(m.sig), m.exp + 11);
        RoundedValue(m, round(m.sig));
        forall e: Double | Number(e)
          ensures AsNear(d, e, value)
        {
          NearestAt(d, round(m.sig), value, p, e);
        }
      }
    }
  }

  lemma MantissaEven(d: Double)
    ensures d.frac % 2 == Mantissa(d) % 2
  {
  }

  /** A normal significand is at least the hidden bit, eleven bits up. */
  lemma SigBounds(m: M80)
    requires Finite(m) && m.exp >= 15361
    ensures M80Value(m) >= Hidden * Pow2(m.exp + 11)
    ensures m.exp >= 17407 ==> M80Value(m) >= Lsl(Hidden, 17418)
  {
    hide Lsl, Pow2;
    LslMono(Top, m.sig, m.exp);
    TopLsl(Hidden);
    LslLsl(Hidden, 11, m.exp);
    LslProduct(Hidden, m.exp + 11);
    LslProduct(Hidden, 17418);
    if m.exp >= 17407 {
      PowGrows(17418, m.exp + 11);
      Larger(Hidden, Pow2(17418), Pow2(m.exp + 11));
    }
  }

  lemma RoundedValue(m: M80, r: nat)
    requires Finite(m) && m.exp >= 1 && NearestEven(r, m.sig, 0x800)
    ensures M80Value(m) >= 0 && NearestEven(r, M80Value(m), Pow2(m.exp + 11))
  {
    hide Lsl, Pow2;
    LslPow2(m.sig, m.exp);
    LslProduct(m.sig, m.exp);
    NearestScaled(r, m.sig, 0x800, Pow2(m.exp));
    PowSum(11, m.exp);
    Pow2Eleven();
  }

  lemma Pow2Eleven()
    ensures Pow2(11) == 0x800
  {
    hide Lsl, Pow2;
    LslPow2(1, 11);
    Consts11(1);
  }
}
