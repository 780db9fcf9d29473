/** Machine words as bounded naturals, shifts and bit fields of integers, and bitwise operations.
    Both instruction sets are defined over these. Shifts recurse on the amount, so that the
    proofs stay linear. */
module Words {

  type Word = w: nat | w < 0x1_0000_0000_0000_0000
  type Byte = b: nat | b < 0x100

  /** Operand sizes. ARM register widths are the last two. */
  datatype Size = S8 | S16 | S32 | S64

  function Bits(s: Size): nat {
    match s case S8 => 8 case S16 => 16 case S32 => 32 case S64 => 64
  }

  function Cap(s: Size): nat {
    match s
    case S8 => 0x100
    case S16 => 0x1_0000
    case S32 => 0x1_0000_0000
    case S64 => 0x1_0000_0000_0000_0000
  }

  function Half(s: Size): nat {
    match s
    case S8 => 0x80
    case S16 => 0x8000
    case S32 => 0x8000_0000
    case S64 => 0x8000_0000_0000_0000
  }

  /** The low bits of v (two's complement for a negative v). */
  function Trunc(v: int, s: Size): Word {
    match s
    case S8 => v % 0x100
    case S16 => v % 0x1_0000
    case S32 => v % 0x1_0000_0000
    case S64 => v % 0x1_0000_0000_0000_0000
  }

  predicate Msb(v: int, s: Size) {
    Trunc(v, s) >= Half(s)
  }

  /** The signed value of the low bits of v. */
  function SInt(v: int, s: Size): int {
    if Msb(v, s) then Trunc(v, s) - Cap(s) else Trunc(v, s)
  }

  /** v modulo, and divided by, the number of bits of s. */
  function ModBits(v: int, s: Size): (k: nat)
    ensures k < Bits(s)
  {
    match s case S8 => v % 8 case S16 => v % 16 case S32 => v % 32 case S64 => v % 64
  }

  function DivBits(v: int, s: Size): int {
    match s case S8 => v / 8 case S16 => v / 16 case S32 => v / 32 case S64 => v / 64
  }

  function B2N(b: bool): nat { if b then 1 else 0 }

  // ---- shifts and fields -----------------------------------------------------------------

  /** v * 2^n */
  function Lsl(v: int, n: nat): int
    decreases n
  {
    if n == 0 then v else 2 * Lsl(v, n - 1)
  }

  /** v / 2^n, rounded down */
  function Lsr(v: int, n: nat): int
    decreases n
  {
    if n == 0 then v else Lsr(v, n - 1) / 2
  }

  /** v modulo 2^n */
  function Low(v: int, n: nat): nat
    decreases n
  {
    if n == 0 then 0 else 2 * Low(v / 2, n - 1) + v % 2
  }

  /** Bit k of v. */
  predicate Bit(v: int, k: nat) { Lsr(v, k) % 2 == 1 }

  /** Bits [lsb, lsb + len) of v. */
  function Field(v: int, lsb: nat, len: nat): nat { Low(Lsr(v, lsb), len) }

  function Pow2(n: nat): (p: nat)
    ensures p > 0
  {
    if n == 0 then 1 else 2 * Pow2(n - 1)
  }

  lemma Zero(v: int)
    ensures Lsl(v, 0) == v && Lsr(v, 0) == v && Low(v, 0) == 0
  {
  }

  lemma {:induction false} LslAdd(a: int, b: int, n: nat)
    ensures Lsl(a + b, n) == Lsl(a, n) + Lsl(b, n)
    ensures Lsl(a - b, n) == Lsl(a, n) - Lsl(b, n)
  {
    if n > 0 { LslAdd(a, b, n - 1); }
  }

  lemma {:induction false} LslMono(a: int, b: int, n: nat)
    ensures a <= b <==> Lsl(a, n) <= Lsl(b, n)
  {
    if n > 0 { LslMono(a, b, n - 1); }
  }

  lemma {:induction false} LslPow2(a: int, n: nat)
    ensures Lsl(1, n) == Pow2(n) && Lsl(0, n) == 0
    ensures a >= 0 ==> Lsl(a, n) >= 0
  {
    if n > 0 { LslPow2(a, n - 1); }
  }

  lemma {:induction false} LslLsl(v: int, m: nat, n: nat)
    ensures Lsl(Lsl(v, m), n) == Lsl(v, m + n)
  {
    if n > 0 { LslLsl(v, m, n - 1); }
  }

  lemma {:induction false} LsrLsr(v: int, m: nat, n: nat)
    ensures Lsr(Lsr(v, m), n) == Lsr(v, m + n)
  {
    if n > 0 { LsrLsr(v, m, n - 1); }
  }

  lemma {:induction false} LslHalf(v: int, n: nat)
    requires n > 0
    ensures Lsl(v, n) == Lsl(2 * v, n - 1)
  {
    LslLsl(v, 1, n - 1);
  }

  lemma LsrHalf(v: int, n: nat)
    requires n > 0
    ensures Lsr(v, n) == Lsr(v / 2, n - 1)
  {
    LsrLsr(v, 1, n - 1);
  }

  lemma {:induction false} LsrRange(v: int, n: nat)
    ensures v >= 0 ==> 0 <= Lsr(v, n) <= v
  {
    if n > 0 { LsrRange(v, n - 1); }
  }

  /** A number is its upper part and its low bits. */
  lemma {:induction false} Split(v: int, n: nat)
    ensures v == Lsl(Lsr(v, n), n) + Low(v, n)
    ensures Low(v, n) < Pow2(n)
    decreases n
  {
    if n > 0 {
      Split(v / 2, n - 1);
      LsrHalf(v, n);
    }
  }

  /** ... and nothing else. */
  lemma {:induction false} Unsplit(q: int, r: nat, n: nat)
    requires r < Pow2(n)
    ensures Lsr(Lsl(q, n) + r, n) == q && Low(Lsl(q, n) + r, n) == r
  {
    if n > 0 {
      var v := Lsl(q, n) + r;
      assert v / 2 == Lsl(q, n - 1) + r / 2 && v % 2 == r % 2;
      Unsplit(q, r / 2, n - 1);
      LsrHalf(v, n);
    }
  }

  lemma SmallSplit(r: nat, n: nat)
    requires r < Pow2(n)
    ensures Lsr(r, n) == 0 && Low(r, n) == r
  {
    LslPow2(0, n);
    Unsplit(0, r, n);
  }

  /** Bits [m, m + n) then [0, m): low bits of low bits and of upper parts. */
  lemma {:induction false} LowSplit(v: int, m: nat, n: nat)
    ensures Low(v, m + n) == Lsl(Low(Lsr(v, m), n), m) + Low(v, m)
    decreases m
  {
    if m > 0 {
      LowSplit(v / 2, m - 1, n);
      LsrHalf(v, m);
    }
  }

  lemma LowLow(v: int, m: nat, n: nat)
    ensures Low(Low(v, m + n), m) == Low(v, m)
    ensures Lsr(Low(v, m + n), m) == Low(Lsr(v, m), n)
  {
    LowSplit(v, m, n);
    Split(v, m);
    Unsplit(Low(Lsr(v, m), n), Low(v, m), m);
  }

  lemma Pow2Split(m: nat, n: nat)
    ensures Pow2(m + n) == Lsl(Pow2(m), n)
  {
    LslPow2(1, m);
    LslPow2(1, m + n);
    LslLsl(1, m, n);
  }

  lemma Pow2Mono(m: nat, n: nat)
    requires m <= n
    ensures Pow2(m) <= Pow2(n)
  {
    LslPow2(1, n - m);
    LslPow2(1, m);
    LslPow2(1, n);
    LslLsl(1, n - m, m);
    LslMono(1, Pow2(n - m), m);
  }

  /** Shifts and fields by the constants the instruction sets use. */
  lemma Consts(v: int)
    ensures Lsl(v, 0) == v && Lsl(v, 1) == 2 * v && Lsl(v, 2) == 4 * v && Lsl(v, 3) == 8 * v
    ensures Lsl(v, 8) == 0x100 * v && Lsl(v, 16) == 0x1_0000 * v && Lsl(v, 24) == 0x100_0000 * v
    ensures Lsl(v, 32) == 0x1_0000_0000 * v && Lsl(v, 64) == 0x1_0000_0000_0000_0000 * v
  {
    Const8(v);
    Const16(v);
    LslLsl(v, 16, 8);
    Const8(Lsl(v, 16));
    Const32(v);
    Const64(v);
  }

  lemma Const8(v: int)
    ensures Lsl(v, 8) == 0x100 * v
  {
    assert Lsl(v, 4) == 16 * v;
    LslLsl(v, 4, 4);
    assert Lsl(Lsl(v, 4), 4) == 16 * Lsl(v, 4);
  }

  lemma Const16(v: int)
    ensures Lsl(v, 16) == 0x1_0000 * v
  {
    Const8(v);
    LslLsl(v, 8, 8);
    Const8(Lsl(v, 8));
  }

  lemma Const32(v: int)
    ensures Lsl(v, 32) == 0x1_0000_0000 * v
  {
    Const16(v);
    LslLsl(v, 16, 16);
    Const16(Lsl(v, 16));
  }

  lemma Const64(v: int)
    ensures Lsl(v, 64) == 0x1_0000_0000_0000_0000 * v
  {
    Const32(v);
    LslLsl(v, 32, 32);
    Const32(Lsl(v, 32));
  }

  lemma Pow2Consts()
    ensures Pow2(0) == 1 && Pow2(1) == 2 && Pow2(7) == 0x80 && Pow2(8) == 0x100
    ensures Pow2(15) == 0x8000 && Pow2(16) == 0x1_0000 && Pow2(31) == 0x8000_0000 && Pow2(32) == 0x1_0000_0000
    ensures Pow2(63) == 0x8000_0000_0000_0000 && Pow2(64) == 0x1_0000_0000_0000_0000
  {
    Consts(1);
    LslPow2(1, 8);
    LslPow2(1, 16);
    LslPow2(1, 32);
    LslPow2(1, 64);
  }

  lemma LsrConsts(v: int)
    ensures Lsr(v, 1) == v / 2 && Lsr(v, 8) == v / 0x100 && Lsr(v, 16) == v / 0x1_0000
    ensures Lsr(v, 24) == v / 0x100_0000 && Lsr(v, 32) == v / 0x1_0000_0000
  {
    Pow2Consts();
    LslPow2(1, 24);
    Consts(1);
    Split(v, 8);
    Consts(Lsr(v, 8));
    Split(v, 16);
    Consts(Lsr(v, 16));
    Split(v, 24);
    Consts(Lsr(v, 24));
    Split(v, 32);
    Consts(Lsr(v, 32));
  }

  /** The low bits at an operand size. */
  lemma TruncLow(v: int, s: Size)
    ensures Trunc(v, s) == Low(v, Bits(s))
    ensures Cap(s) == Pow2(Bits(s)) && Half(s) == Pow2(Bits(s) - 1)
  {
    CapPow2(s);
    var n := Bits(s);
    Split(v, n);
    LslCap(Lsr(v, n), s);
    TruncIs(v, Lsr(v, n), Low(v, n), s);
  }

  lemma CapPow2(s: Size)
    ensures Cap(s) == Pow2(Bits(s)) && Half(s) == Pow2(Bits(s) - 1)
  {
    Pow2Consts();
  }

  lemma LslCap(q: int, s: Size)
    ensures Lsl(q, Bits(s)) == Cap(s) * q
  {
    match s
    case S8 => Const8(q);
    case S16 => Const16(q);
    case S32 => Const32(q);
    case S64 => Const64(q);
  }

  lemma TruncIs(v: int, q: int, r: nat, s: Size)
    requires v == Cap(s) * q + r && r < Cap(s)
    ensures Trunc(v, s) == r
  {
    match s
    case S8 => Mod8(q, r);
    case S16 => Mod16(q, r);
    case S32 => Mod32(q, r);
    case S64 => Mod64(q, r);
  }

  lemma Mod8(q: int, r: nat)
    requires r < 0x100
    ensures (0x100 * q + r) % 0x100 == r
  {
  }

  lemma Mod16(q: int, r: nat)
    requires r < 0x1_0000
    ensures (0x1_0000 * q + r) % 0x1_0000 == r
  {
  }

  lemma Mod32(q: int, r: nat)
    requires r < 0x1_0000_0000
    ensures (0x1_0000_0000 * q + r) % 0x1_0000_0000 == r
  {
  }

  lemma Mod64(q: int, r: nat)
    requires r < 0x1_0000_0000_0000_0000
    ensures (0x1_0000_0000_0000_0000 * q + r) % 0x1_0000_0000_0000_0000 == r
  {
  }

  // ---- bitwise operations ----------------------------------------------------------------

  datatype BitOp = BAnd | BOr | BXor

  function BitOf(op: BitOp, a: nat, b: nat): nat
    requires a < 2 && b < 2
  {
    match op
    case BAnd => if a == 1 && b == 1 then 1 else 0
    case BOr => if a == 1 || b == 1 then 1 else 0
    case BXor => if a != b then 1 else 0
  }

  /** Bitwise AND, OR and XOR of naturals of any length. */
  function Bw(op: BitOp, a: nat, b: nat): nat
    decreases a + b
  {
    if a == 0 && b == 0 then 0 else 2 * Bw(op, a / 2, b / 2) + BitOf(op, a % 2, b % 2)
  }

  lemma {:induction false} BwLow(op: BitOp, a: nat, b: nat, n: nat)
    ensures Low(Bw(op, a, b), n) == Bw(op, Low(a, n), Low(b, n))
  {
    if n > 0 {
      BwLow(op, a / 2, b / 2, n - 1);
      assert Bw(op, a, b) / 2 == Bw(op, a / 2, b / 2);
    }
  }

  lemma {:induction false} BwBound(op: BitOp, a: nat, b: nat, n: nat)
    requires a < Pow2(n) && b < Pow2(n)
    ensures Bw(op, a, b) < Pow2(n)
  {
    if n > 0 { BwBound(op, a / 2, b / 2, n - 1); }
  }

  lemma {:induction false} BwLsl(op: BitOp, a: nat, b: nat, n: nat)
    ensures Lsl(a, n) >= 0 && Lsl(b, n) >= 0
    ensures Bw(op, Lsl(a, n), Lsl(b, n)) == Lsl(Bw(op, a, b), n)
  {
    if n > 0 {
      BwLsl(op, a, b, n - 1);
      BwDouble(op, Lsl(a, n - 1), Lsl(b, n - 1));
    }
  }

  lemma BwDouble(op: BitOp, a: nat, b: nat)
    ensures Bw(op, 2 * a, 2 * b) == 2 * Bw(op, a, b)
  {
  }

  lemma {:induction false} BwSame(a: nat)
    ensures Bw(BAnd, a, a) == a && Bw(BOr, a, a) == a && Bw(BXor, a, a) == 0
  {
    if a > 0 { BwSame(a / 2); }
  }

  lemma {:induction false} BwZero(a: nat)
    ensures Bw(BOr, a, 0) == a && Bw(BOr, 0, a) == a
    ensures Bw(BXor, a, 0) == a && Bw(BAnd, a, 0) == 0
  {
    if a > 0 { BwZero(a / 2); }
  }

  lemma {:induction false} BwComm(op: BitOp, a: nat, b: nat)
    ensures Bw(op, a, b) == Bw(op, b, a)
    decreases a + b
  {
    if a != 0 || b != 0 { BwComm(op, a / 2, b / 2); }
  }

  lemma OrLow(a: nat, b: nat)
    ensures Bw(BOr, 2 * a, b) == 2 * Bw(BOr, a, b / 2) + b % 2
  {
  }

  /** OR of values that occupy different bits is their sum. */
  lemma {:induction false} OrDisjoint(a: nat, b: nat, n: nat)
    requires b < Pow2(n)
    ensures Lsl(a, n) >= 0
    ensures Bw(BOr, Lsl(a, n), b) == Lsl(a, n) + b && Bw(BOr, b, Lsl(a, n)) == Lsl(a, n) + b
  {
    if n == 0 {
      BwZero(a);
    } else {
      OrDisjoint(a, b / 2, n - 1);
      OrLow(Lsl(a, n - 1), b);
      BwComm(BOr, b, Lsl(a, n));
    }
  }

  /** AND with 2^n - 1 keeps the low n bits. */
  lemma {:induction false} AndMask(a: nat, n: nat)
    ensures Bw(BAnd, a, Pow2(n) - 1) == Low(a, n)
  {
    if n == 0 {
      BwZero(a);
    } else {
      AndMask(a / 2, n - 1);
      assert (Pow2(n) - 1) / 2 == Pow2(n - 1) - 1;
    }
  }

  lemma BwTrunc(op: BitOp, a: nat, b: nat, s: Size)
    ensures Trunc(Bw(op, a, b), s) == Bw(op, Trunc(a, s), Trunc(b, s))
    ensures a < Cap(s) && b < Cap(s) ==> Bw(op, a, b) < Cap(s)
  {
    TruncLow(Bw(op, a, b), s);
    TruncLow(a, s);
    TruncLow(b, s);
    BwLow(op, a, b, Bits(s));
    if a < Cap(s) && b < Cap(s) { BwBound(op, a, b, Bits(s)); }
  }
}
