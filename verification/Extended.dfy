/** Conversion between doubles and 80-bit extended values (x87StoreM80 and x87LoadM80 in
    arm64_lifter_fpu.go), on bit patterns. */
module Extended {
  import opened Words
  import opened Steps
  import opened ShiftMath
  import opened Remainder

  const Top: nat := 0x8000_0000_0000_0000
  const Quiet: nat := 0x8_0000_0000_0000

  /** A double: sign, exponent field and fraction. */
  datatype Double = Double(neg: bool, field: nat, frac: nat)

  /** An extended value: sign, biased exponent and 64-bit significand. */
  datatype M80 = M80(neg: bool, exp: nat, sig: Word)

  predicate IsDouble(d: Double) { d.field <= 0x7ff && d.frac < Hidden }

  predicate IsNaN(d: Double) { d.field == 0x7ff && d.frac != 0 }

  /** A signaling NaN made quiet. */
  function Quieted(d: Double): Double {
    if IsNaN(d) && d.frac < Quiet then d.(frac := d.frac + Quiet) else d
  }

  /** x87StoreM80; the orr with the quiet bit adds it where it is missing. */
  function Store(d: Double): M80
    requires IsDouble(d)
  {
    if d.field == 0 then
      if d.frac == 0 then M80(d.neg, 0, 0)
      else M80(d.neg, 15372 - Clz(d.frac), Trunc(Lsl(d.frac, Clz(d.frac)), S64))
    else if d.field == 0x7ff then M80(d.neg, 0x7fff, Top + 0x800 * Quieted(d).frac)
    else M80(d.neg, d.field + 15360, Top + 0x800 * d.frac)
  }

  /** The rounding of UCVTF in the current mode: exact for a significand of 53 bits, and otherwise
      one of the two neighbours, 2^53 standing for the next power of two. */
  ghost predicate Rounds(round: Word -> nat) {
    forall v: Word :: v >= Top ==>
      v / 0x800 <= round(v) <= v / 0x800 + 1 && (v % 0x800 == 0 ==> round(v) == v / 0x800)
  }

  /** x0 >> s to nearest even, for a denormal result. */
  function RoundDenormal(v: Word, s: nat): nat {
    if s > 64 then 0
    else if s == 64 then (if v > Top then 1 else 0)
    else
      var kept, lost := Field(v, s, 64 - s), Low(v, s);
      if s == 0 || lost < Pow2(s - 1) then kept
      else if lost > Pow2(s - 1) || kept % 2 == 1 then kept + 1
      else kept
  }

  /** The orr with the quiet bit. */
  function WithQuiet(frac: nat): nat { if frac < Quiet then frac + Quiet else frac }

  /** x87LoadM80 */
  function Load(m: M80, round: Word -> nat): Double
    requires m.exp <= 0x7fff
  {
    if m.exp == 0x7fff then
      if m.sig < Top then Double(true, 0x7ff, Quiet)
      else if m.sig == Top then Double(m.neg, 0x7ff, 0)
      else Double(m.neg, 0x7ff, WithQuiet((m.sig - Top) / 0x800))
    else if m.exp == 0 && m.sig == 0 then Double(m.neg, 0, 0)
    else if m.exp != 0 && m.sig < Top then Double(true, 0x7ff, Quiet)
    else LoadFinite(m.neg, if m.exp == 0 then 1 else m.exp, m.sig, round)
  }

  /** A nonzero finite value sig * 2^(e - 16446). */
  function LoadFinite(neg: bool, e: int, sig: Word, round: Word -> nat): Double {
    var k := Clz(sig);
    var v := Trunc(Lsl(sig, k), S64);
    var r := round(v);
    var x := e - k - 16446;
    if x + 1086 >= 2047 then Double(neg, 0x7ff, 0)
    else if x + 1086 <= 0 then
      var d := RoundDenormal(v, if -1074 - x >= 0 then -1074 - x else 0);
      if d >= Hidden then Double(neg, 1, d - Hidden) else Double(neg, 0, d)
    else if r >= 2 * Hidden then Double(neg, x + 1087, 0)
    else Double(neg, x + 1086, if r >= Hidden then r - Hidden else 0)
  }

  // ---- round trips -----------------------------------------------------------------------------------

  lemma TopPow2()
    ensures Pow2(63) == Top && Pow2(64) == 2 * Top
  {
    Pow2Consts();
  }

  /** A value with its top bit set needs no normalization. */
  lemma NormalClz(v: Word)
    requires v >= Top
    ensures Clz(v) == 0 && Trunc(Lsl(v, 0), S64) == v
  {
    TopPow2();
    TruncSmall(v, S64);
    Zero(v);
  }

  lemma NormalBack(d: Double, round: Word -> nat)
    requires IsDouble(d) && 0 < d.field < 0x7ff && Rounds(round)
    ensures Load(Store(d), round) == d
  {
    hide Lsl, Trunc, Clz;
    var v: Word := Top + 0x800 * d.frac;
    NormalClz(v);
    assert v % 0x800 == 0 && v / 0x800 == Hidden + d.frac;
  }

  lemma DenormalBack(d: Double, round: Word -> nat)
    requires IsDouble(d) && d.field == 0 && d.frac != 0
    ensures Load(Store(d), round) == d
  {
    hide Lsl, Lsr, Low, Trunc, Pow2;
    var k := Clz(d.frac);
    ClzFraction(d.frac);
    TopPow2();
    Pow2Mono(0, 64);
    ClzTop(d.frac, 64);
    var v := Lsl(d.frac, k);
    TruncSmall(v, S64);
    NormalClz(v);
    assert Load(Store(d), round) == LoadFinite(d.neg, 15372 - k, v, round);
    LsrLsl(d.frac, 0, k);
    LowLsl(d.frac, 0, k);
    LowZero(d.frac, k);
    FieldFits(d.frac, k);
  }

  lemma LowZero(v: nat, k: nat)
    ensures Low(Lsl(v, k), k) == 0
  {
    hide Low, Lsl;
    LowLsl(v, 0, k);
    LslPow2(0, k);
    assert Low(v, 0) == 0 by { Zero(v); }
  }

  lemma FieldFits(v: nat, k: nat)
    requires 12 <= k < 64 && 0 <= Lsl(v, k) < Pow2(64)
    ensures Field(Lsl(v, k), k, 64 - k) == v && Pow2(k - 1) > 0
  {
    hide Low, Lsl, Lsr, Pow2;
    LsrLsl(v, 0, k);
    Zero(v);
    UpperBound(Lsl(v, k), k, 64);
    SmallSplit(v, 64 - k);
    Pow2Above(k - 1);
  }

  lemma Pow2Above(n: nat)
    ensures Pow2(n) > 0
  {
  }

  /** Storing a double and loading it back gives the same pattern, with a signaling NaN made quiet:
      zeros, denormals, infinities and NaNs included, in every rounding mode. */
  lemma StoreThenLoad(d: Double, round: Word -> nat)
    requires IsDouble(d) && Rounds(round)
    ensures Load(Store(d), round) == Quieted(d)
  {
    if d.field == 0 {
      if d.frac != 0 { DenormalBack(d, round); }
    } else if d.field != 0x7ff {
      NormalBack(d, round);
    }
  }

  /** Every NaN loads as a quiet NaN of its sign, with the top 51 bits of its payload, however few of its
      bits fit into a double; what has the integer bit clear loads as the indefinite NaN. */
  lemma NaNLoads(m: M80, round: Word -> nat)
    requires m.exp == 0x7fff && m.sig != Top
    ensures var d := Load(m, round);
      && IsDouble(d) && IsNaN(d) && Quieted(d) == d
      && if m.sig > Top then d.neg == m.neg && d.frac % Quiet == (m.sig - Top) / 0x800 % Quiet
         else d == Double(true, 0x7ff, Quiet)
  {
  }

  /** A number with its integer bit clear is invalid and loads as the indefinite NaN; an infinity loads as
      one. */
  lemma InvalidLoads(m: M80, round: Word -> nat)
    requires 0 < m.exp <= 0x7fff
    ensures m.sig < Top ==> Load(m, round) == Double(true, 0x7ff, Quiet)
    ensures m.exp == 0x7fff && m.sig == Top ==> Load(m, round) == Double(m.neg, 0x7ff, 0)
  {
  }

  /** A denormal result is the nearest multiple of the smallest denormal, the even one of two. */
  lemma DenormalNearest(v: Word, s: nat)
    requires s > 0
    ensures NearestEven(RoundDenormal(v, s), v, Pow2(s))
  {
    hide Low, Lsr, Lsl, Pow2;
    TopPow2();
    Remainder.Pow2Next(s - 1);
    if s > 64 {
      Pow2Mono(64, s - 1);
    } else if s < 64 {
      Split(v, s);
      FieldAll(v, s);
      LslProduct(Lsr(v, s), s);
      Distribute(Lsr(v, s), 1, Pow2(s));
      NearestParts(v, Lsr(v, s), Low(v, s), Pow2(s - 1), RoundDenormal(v, s));
    }
  }

  lemma NearestParts(v: nat, kept: nat, lost: nat, h: nat, r: nat)
    requires v == kept * (2 * h) + lost && lost < 2 * h
    requires r == if lost < h then kept else if lost > h || kept % 2 == 1 then kept + 1 else kept
    ensures NearestEven(r, v, 2 * h)
  {
    Distribute(kept, 1, 2 * h);
  }

  lemma {:induction false} LslProduct(v: int, n: nat)
    ensures Lsl(v, n) == v * Pow2(n)
  {
    if n > 0 {
      LslProduct(v, n - 1);
      Doubled(v, Pow2(n - 1));
    }
  }

  lemma Doubled(v: int, p: int)
    ensures 2 * (v * p) == v * (2 * p)
  {
  }

  lemma FieldAll(v: Word, s: nat)
    requires s <= 64
    ensures Field(v, s, 64 - s) == Lsr(v, s)
  {
    hide Low, Lsr, Lsl, Pow2;
    TopPow2();
    LsrRange(v, s);
    UpperBound(v, s, 64);
    SmallSplit(Lsr(v, s), 64 - s);
  }
}
