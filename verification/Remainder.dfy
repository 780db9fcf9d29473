/** FPREM and FPREM1 (x87Remainder in arm64_lifter_fpu.go) on the significands and exponents of two
    finite doubles: the operands are normalized to 53-bit significands, and the long division emitted
    for the rest gives the exact remainder and the low 64 bits of the quotient. */
module Remainder {
  import opened Words
  import opened Steps

  const Hidden: nat := 0x10_0000_0000_0000

  /** A 53-bit significand. */
  predicate Significand(m: nat) { Hidden <= m < 2 * Hidden }

  // ---- operands -----------------------------------------------------------------------------------

  /** CLZ: the zeros above the highest one of a 64-bit value. */
  function Clz(v: Word): (k: nat)
    ensures k <= 64
  {
    ClzBelow(v, 64)
  }

  function ClzBelow(v: nat, n: nat): (k: nat)
    ensures k <= n
    decreases n
  {
    if n == 0 then 0 else if v >= Pow2(n - 1) then 0 else 1 + ClzBelow(v, n - 1)
  }

  /** Shifting the leading zeros out puts the highest one on top. */
  lemma {:induction false} ClzTop(v: nat, n: nat)
    requires 0 < v < Pow2(n)
    ensures n > 0 && ClzBelow(v, n) < n && Pow2(n - 1) <= Lsl(v, ClzBelow(v, n)) < Pow2(n)
    decreases n
  {
    if n > 0 && v < Pow2(n - 1) {
      ClzTop(v, n - 1);
    }
  }

  /** CLZ - 11 shifts a fraction of at most 52 bits to a significand. */
  lemma ClzFraction(frac: Word)
    requires 0 < frac < Hidden
    ensures Clz(frac) >= 12 && Hidden <= Lsl(frac, Clz(frac) - 11) < 2 * Hidden
  {
    hide Pow2, Lsl;
    Pow2Fifty();
    ClzDown(frac, 64, 12);
    ClzTop(frac, 52);
    LslAdd1(frac, ClzBelow(frac, 52));
  }

  lemma Pow2Fifty()
    ensures Pow2(52) == Hidden && Pow2(53) == 2 * Hidden && Pow2(51) == Hidden / 2
  {
    hide Pow2, Lsl;
    Pow2Consts();
    Pow2Split(32, 16);
    Const16(Pow2(32));
    Pow2Split(48, 3);
    Consts(Pow2(48));
    Pow2Next(51);
    Pow2Next(52);
  }

  lemma Pow2Next(n: nat)
    ensures Pow2(n + 1) == 2 * Pow2(n)
  {
  }

  lemma LslAdd1(v: int, n: nat)
    ensures Lsl(v, n + 1) == 2 * Lsl(v, n)
  {
  }

  lemma {:induction false} ClzDown(v: nat, n: nat, k: nat)
    requires k <= n && v < Pow2(n - k)
    ensures ClzBelow(v, n) == k + ClzBelow(v, n - k)
    decreases k
  {
    if k > 0 {
      Pow2Mono(n - k, n - 1);
      ClzDown(v, n - 1, k - 1);
    }
  }

  /** The significand and exponent of a finite nonzero double from its exponent field and fraction:
      a subnormal is normalized. In units of 2^(1 - 1075) its value is frac either way. */
  method Unpack(field: nat, frac: Word) returns (m: Word, e: int)
    requires field < 0x7ff && frac < Hidden && (field != 0 || frac != 0)
    ensures Significand(m)
    ensures if field != 0 then m == Hidden + frac && e == field else e <= 0 && m == Lsl(frac, 1 - e)
  {
    if field != 0 {
      m, e := Hidden + frac, field;
    } else {
      ClzFraction(frac);
      var s := Clz(frac) - 11;
      m, e := Lsl(frac, s), 1 - s;
    }
  }

  // ---- long division ----------------------------------------------------------------------------------

  lemma Distribute(p: int, q: int, y: int)
    ensures (p - q) * y == p * y - q * y && (p + q) * y == p * y + q * y
  {
  }

  lemma AtLeast(k: int, y: nat)
    requires k >= 1
    ensures k * y >= y
  {
    var j: nat := k - 1;
    Distribute(j, 1, y);
    NatProduct(j, y);
  }

  lemma NatProduct(j: nat, y: nat)
    ensures j * y >= 0
  {
  }

  /** The quotient and the remainder of x and y. */
  function Quot(x: int, y: nat): int
    requires y > 0
  {
    x / y
  }

  function Mod(x: int, y: nat): (r: nat)
    requires y > 0
    ensures r < y
  {
    x % y
  }

  lemma DivisionLaw(x: int, y: nat)
    requires y > 0
    ensures x == Quot(x, y) * y + Mod(x, y)
    ensures x >= 0 ==> Quot(x, y) >= 0
  {
  }

  lemma DivideUnique(x: int, y: nat, q: int, r: nat)
    requires y > 0 && r < y && x == q * y + r
    ensures Quot(x, y) == q && Mod(x, y) == r
  {
    DivisionLaw(x, y);
    SameQuotient(Quot(x, y), Mod(x, y), q, r, y);
  }

  lemma SameQuotient(p: int, t: nat, q: int, r: nat, y: nat)
    requires t < y && r < y && p * y + t == q * y + r
    ensures p == q && t == r
  {
    Distribute(p, q, y);
    Distribute(q, p, y);
    if p > q { AtLeast(p - q, y); } else if p < q { AtLeast(q - p, y); }
  }

  /** The low 64 bits of a doubled quotient, and of an even one plus one. */
  lemma QuotientStep(q: nat)
    ensures Trunc(2 * Trunc(q, S64), S64) == Trunc(2 * q, S64)
    ensures q % 2 == 0 ==> Trunc(q, S64) + 1 == Trunc(q + 1, S64)
    ensures Trunc(q, S64) % 2 == q % 2
  {
    hide Trunc, Low, Lsr, Lsl;
    TruncAdd(q, Trunc(q, S64), S64);
    TruncAdd(q, q, S64);
    TruncAdd(q, 1, S64);
    LowBit(q);
    TruncBound(q, S64);
    if q % 2 == 0 {
      assert Trunc(q, S64) + 1 < Cap(S64);
      TruncSmall(Trunc(q, S64) + 1, S64);
    }
  }

  /** x divided by y: quotient, remainder (below 2y before the subtraction of a step). */
  ghost predicate Partial(x: int, y: nat, q: nat, r: nat) { x == q * y + r && r < 2 * y }

  lemma SubtractStep(x: int, y: nat, q: nat, r: nat)
    requires Partial(x, y, q, r) && r >= y
    ensures Partial(x, y, q + 1, r - y) && r - y < y
  {
    Distribute(q, 1, y);
  }

  lemma DoubleStep(x: int, y: nat, q: nat, r: nat)
    requires Partial(x, y, q, r) && r < y
    ensures Partial(2 * x, y, 2 * q, 2 * r)
  {
    Distribute(q, q, y);
  }

  lemma PartialDone(x: int, y: nat, q: nat, r: nat)
    requires Partial(x, y, q, r) && r < y
    ensures Quot(x, y) == q && Mod(x, y) == r
  {
    DivideUnique(x, y, q, r);
  }

  /** The loop: one quotient bit a step, the quotient kept in 64 bits. */
  method LongDivide(mx: Word, my: Word, d: nat) returns (r: Word, q: Word)
    requires Significand(mx) && Significand(my)
    ensures r == Mod(Lsl(mx, d), my) && q == Trunc(Quot(Lsl(mx, d), my), S64)
  {
    hide Partial, Lsl, Trunc, Quot, Mod;
    r, q := mx, 0;
    TruncSmall(0, S64);
    var left := d;
    ghost var quotient: nat := 0;
    StartPartial(mx, my);
    while true
      invariant 0 <= left <= d && Partial(Lsl(mx, d - left), my, quotient, r) && r < 2 * my
      invariant quotient % 2 == 0 && q == Trunc(quotient, S64)
      decreases left
    {
      ghost var x := Lsl(mx, d - left);
      QuotientStep(quotient);
      if r >= my {
        SubtractStep(x, my, quotient, r);
        r, q := r - my, q + 1;
        quotient := quotient + 1;
      }
      if left == 0 { break; }
      QuotientStep(quotient);
      DoubleStep(x, my, quotient, r);
      LslAdd1(mx, d - left);
      r, q := 2 * r, Trunc(2 * q, S64);
      quotient := 2 * quotient;
      left := left - 1;
    }
    PartialDone(Lsl(mx, d), my, quotient, r);
  }

  lemma StartPartial(mx: Word, my: Word)
    requires Significand(mx) && Significand(my)
    ensures Partial(Lsl(mx, 0), my, 0, mx)
  {
    Zero(mx);
  }

  // ---- the two instructions --------------------------------------------------------------------------------

  /** What is left of |x|: r units of y's exponent; x itself; or |y| - |x| with the sign changed.
      flip says that the sign of the result is not that of x; q is the low part of the quotient. */
  datatype Rem = Reduced(r: Word, flip: bool, q: Word) | Unchanged | Beyond

  /** |x| and |y| as integers, in units of the smaller exponent. */
  function AbsX(mx: nat, d: int): nat {
    if d >= 0 then Shifted(mx, d) else mx
  }

  function AbsY(my: nat, d: int): (y: nat)
    requires my > 0
    ensures y > 0
  {
    GrowsBy(my, if d >= 0 then 0 else -d);
    if d >= 0 then my else Shifted(my, -d)
  }

  function Shifted(m: nat, n: nat): nat {
    LslPow2(m, n);
    Lsl(m, n)
  }

  /** The remainder that an outcome stands for, in those units, for positive x. */
  function Signed(o: Rem, mx: nat, my: nat, d: int): int
    requires my > 0
  {
    match o
    case Reduced(r, flip, _) => if flip then 0 - (r as int) else r
    case Unchanged => AbsX(mx, d)
    case Beyond => AbsX(mx, d) - AbsY(my, d)
  }

  function Quotient(o: Rem): nat {
    match o case Reduced(_, _, q) => q case Unchanged => 0 case Beyond => 1
  }

  lemma SmallQuotient(mx: nat, my: nat, n: nat)
    requires Significand(mx) && Significand(my) && n > 0
    ensures mx < Shifted(my, n)
    ensures n >= 2 ==> 2 * mx < Shifted(my, n)
    ensures n == 1 ==> Shifted(my, n) == 2 * my
  {
    hide Lsl;
    LslAdd1(my, n - 1);
    Zero(my);
    GrowsBy(my, n - 1);
    if n >= 2 {
      LslAdd1(my, n - 2);
      GrowsBy(my, n - 2);
    }
  }

  lemma {:induction false} GrowsBy(m: nat, n: nat)
    ensures Lsl(m, n) >= m
  {
    if n > 0 { GrowsBy(m, n - 1); }
  }

  /** FPREM: the remainder of the truncated quotient, for any exponents. */
  method Fprem(mx: Word, my: Word, d: int) returns (o: Rem)
    requires Significand(mx) && Significand(my)
    ensures Signed(o, mx, my, d) == Mod(AbsX(mx, d), AbsY(my, d))
    ensures Quotient(o) == Trunc(Quot(AbsX(mx, d), AbsY(my, d)), S64)
  {
    if d >= 0 {
      var r, q := LongDivide(mx, my, d);
      o := Reduced(r, false, q);
    } else {
      o := Unchanged;
      SmallQuotient(mx, my, -d);
      DivideUnique(mx, AbsY(my, d), 0, mx);
    }
  }

  /** n is the integer nearest to x / y, and the even one of two. */
  predicate NearestEven(n: int, x: nat, y: nat) {
    var r := x - n * y;
    -(y as int) <= 2 * r <= y && (2 * r == y || 2 * r == -(y as int) ==> n % 2 == 0)
  }

  /** There is only one. */
  lemma NearestUnique(m: int, n: int, x: nat, y: nat)
    requires y > 0 && NearestEven(m, x, y) && NearestEven(n, x, y)
    ensures m == n
  {
    Distribute(m, n, y);
    Distribute(n, m, y);
    if m > n {
      AtLeast(m - n, y);
      if m - n >= 2 { AtLeast(m - n - 1, y); Distribute(m - n, 1, y); }
    } else if n > m {
      AtLeast(n - m, y);
      if n - m >= 2 { AtLeast(n - m - 1, y); Distribute(n - m, 1, y); }
    }
  }

  function RoundsUp(x: nat, y: nat): bool
    requires y > 0
  {
    2 * Mod(x, y) > y || (2 * Mod(x, y) == y && Quot(x, y) % 2 == 1)
  }

  function Nearest(x: nat, y: nat): int
    requires y > 0
  {
    if RoundsUp(x, y) then Quot(x, y) + 1 else Quot(x, y)
  }

  /** The IEEE remainder of x and y. */
  function Rest(x: nat, y: nat): int
    requires y > 0
  {
    x - Nearest(x, y) * y
  }

  lemma NearestOk(x: nat, y: nat)
    requires y > 0
    ensures NearestEven(Nearest(x, y), x, y)
    ensures Rest(x, y) == if RoundsUp(x, y) then Mod(x, y) - y else Mod(x, y)
  {
    DivisionLaw(x, y);
    var q, r := Quot(x, y), Mod(x, y);
    Distribute(q, 1, y);
    hide *;
    assert 1 * y == y;
  }

  /** FPREM1: x - n * y for the integer n nearest to x / y (section 5.3.1 of IEEE 754-2008). */
  method Fprem1(mx: Word, my: Word, d: int) returns (o: Rem)
    requires Significand(mx) && Significand(my)
    ensures var x, y := AbsX(mx, d), AbsY(my, d);
      Signed(o, mx, my, d) == Rest(x, y) && Quotient(o) == Trunc(Nearest(x, y), S64)
  {
    hide Trunc, AbsX, AbsY, RoundsUp, Nearest, Rest, Quot, Mod;
    if d >= 0 {
      var r, q := LongDivide(mx, my, d);
      RoundIn(mx, my, d, r, q);
      if 2 * r > my || (2 * r == my && q % 2 == 1) {
        o := Reduced(my - r, true, Trunc(1 + (q as int), S64));
      } else {
        o := Reduced(r, false, q);
      }
    } else {
      RoundBelow(mx, my, d);
      if d == -1 && mx > my {
        o := Beyond;
      } else {
        o := Unchanged;
      }
    }
  }

  lemma RoundIn(mx: Word, my: Word, d: nat, r: Word, q: Word)
    requires Significand(mx) && Significand(my) && r == Mod(Lsl(mx, d), my) && q == Trunc(Quot(Lsl(mx, d), my), S64)
    ensures var x, y := AbsX(mx, d), AbsY(my, d); var up := 2 * r > my || (2 * r == my && q % 2 == 1);
      && Rest(x, y) == (if up then r - my else r)
      && Trunc(Nearest(x, y), S64) == if up then Trunc(q + 1, S64) else q
  {
    hide Trunc, Lsl, Rest, Quot, Mod;
    var x := AbsX(mx, d);
    NearestOk(x, my);
    DivisionLaw(x, my);
    QuotientStep(Quot(x, my));
    TruncAdd(Quot(x, my), 1, S64);
  }

  lemma RoundBelow(mx: Word, my: Word, d: int)
    requires Significand(mx) && Significand(my) && d < 0
    ensures var x, y := AbsX(mx, d), AbsY(my, d);
      && x == mx && Nearest(x, y) == (if d == -1 && mx > my then 1 else 0)
      && Rest(x, y) == (if d == -1 && mx > my then x - y else x)
    ensures Trunc(0, S64) == 0 && Trunc(1, S64) == 1
  {
    hide Lsl;
    var x, y := AbsX(mx, d), AbsY(my, d);
    SmallQuotient(mx, my, -d);
    DivideUnique(x, y, 0, x);
  }

  lemma LowBit(n: nat)
    ensures Trunc(n, S64) % 2 == n % 2
  {
  }
}
