/** Lowering SHL, SHR, SAR, ROL and ROR is correct at every size, for every value and count. */
module SimShift {
  import opened Words
  import opened Guest
  import X86
  import opened Arm
  import opened Lifter
  import opened Effects
  import opened Steps
  import opened Operands
  import opened Flags
  import opened Relation
  import opened ShiftMath

  // ---- inserting CF and OF into C and V ----------------------------------------------------------

  lemma PairBits(c: bool, o: bool)
    ensures var v := 2 * B2N(c) + B2N(o);
      Bw(BOr, B2N(o), 2 * B2N(c)) == v && Bit(v, 1) == c && Bit(v, 0) == o
  {
  }

  lemma RmifCV(a: State, r: Reg, c: bool, o: bool)
    requires Get(a, r) == 2 * B2N(c) + B2N(o)
    ensures Step(RMIF(r, 0, 3), a) == a.(c := c, v := o)
  {
    hide Get;
    PairBits(c, o);
  }

  /** The step ORR r, of, r, LSL #1 packs the two bits. */
  lemma PackStep(a: State, r: Scratch, of: Scratch, c: bool, o: bool)
    requires Peek(a.x, r) == B2N(c) && Peek(a.x, of) == B2N(o)
    ensures Step(LOGIC(ORR, false, S64, T(r), T(of), Sh(T(r), 1)), a) == Set(a, T(r), 2 * B2N(c) + B2N(o))
  {
    hide Set, Bw, Bit, Step, Trunc, RhsVal, Lsl, Get;
    PairBits(c, o);
    Consts(B2N(c));
    GetT(a, r);
    GetT(a, of);
    RhsSh(a, r, 1, S64);
    TruncSmall(B2N(o), S64);
    TruncSmall(2 * B2N(c), S64);
    TruncSmall(2 * B2N(c) + B2N(o), S64);
    StepLogic(a, ORR, S64, T(r), T(of), Sh(T(r), 1));
  }

  /** N and Z of the low bits of x0; C and V are cleared. */
  function NZOf(a: State, s: Size): State {
    a.(n := Msb(a.x.x0, s), z := Trunc(a.x.x0, s) == 0, c := false, v := false)
  }

  /** CMN of the top-aligned x0. */
  lemma ShiftNZOk(s: Size, a: State)
    ensures Step(ShiftNZ(s), a) == NZOf(a, s)
  {
    hide Step, Trunc, Lsl, RhsVal;
    var y := a.x.x0;
    var w := Wd(s);
    var sh: nat := if s == S64 then 0 else 32 - Bits(s);
    var r := RhsVal(a, Sh(T(X0), sh), w);
    TruncSmall(0, w);
    StepSums(a, false, w, ZR, ZR, Sh(T(X0), sh), 0, r);
    RhsBound(a, Sh(T(X0), sh), w);
    TopValue(y, s);
    RhsSh(a, X0, sh, w);
    TruncSmall(r, w);
    SIntZero(w);
  }

  lemma SIntZero(w: Size)
    ensures SInt(0, w) == 0 && Trunc(0, w) == 0
  {
  }

  lemma RhsSh(a: State, t: Scratch, sh: nat, w: Size)
    ensures RhsVal(a, Sh(T(t), sh), w) == Trunc(Lsl(Peek(a.x, t), sh), w)
  {
  }

  /** The top-aligned value has the sign and zeroness of the narrow one. */
  lemma TopValue(y: Word, s: Size)
    ensures var sh: nat := if s == S64 then 0 else 32 - Bits(s); var t := Trunc(Lsl(y, sh), Wd(s));
      Msb(t, Wd(s)) == Msb(y, s) && (t == 0 <==> Trunc(y, s) == 0)
  {
    hide Trunc, Lsl, Lsr, Low;
    var sh: nat := if s == S64 then 0 else 32 - Bits(s);
    MsbOfTrunc(Lsl(y, sh), Wd(s));
    if Wide(s) {
      Zero(y);
    } else {
      var r := Trunc(y, s);
      TruncLow(Lsl(y, sh), S32);
      TruncLow(y, s);
      LowLsl(y, Bits(s), sh);
      TruncBound(y, s);
      TopNZ(r, s);
      MsbOfTrunc(y, s);
    }
  }

  lemma PokeFacts(a: State, r: Scratch, of: Scratch, u: Word, v: Word, s: Size)
    requires r != of && r != X0
    ensures Set(Set(a, T(r), u), T(r), v) == Set(a, T(r), v)
    ensures Set(a, T(r), v) == a.(x := Poke(a.x, r, v)) && Peek(Poke(a.x, r, v), r) == v
    ensures Peek(Set(a, T(r), u).x, r) == u && Peek(Set(a, T(r), u).x, of) == Peek(a.x, of)
    ensures Get(Set(a, T(r), v), T(r)) == v && NZOf(Set(a, T(r), v), s) == NZOf(a, s).(x := Poke(a.x, r, v))
    ensures Get(NZOf(Set(a, T(r), v), s), T(r)) == v
  {
    hide Trunc, Msb;
  }

  lemma InsertCarryOk(r: Scratch, of: Scratch, pol: Pol, s: Size, setNZ: bool, a: State, c: bool, o: bool)
    requires Peek(a.x, r) == B2N(c) && Peek(a.x, of) == B2N(o) && r != of && r != X0 && pol != CarryClear
    ensures var b := Exec(InsertCarry(T(r), T(of), pol, if setNZ then [ShiftNZ(s)] else []), a);
      var f := if setNZ then NZOf(a, s) else a;
      b == f.(x := Poke(a.x, r, Peek(b.x, r)), c := b.c, v := o) && CarryOf(b.c, pol) == c
  {
    hide Exec, Step, Trunc, Set, Get, Poke, Peek, NZOf;
    var inv := if pol == CarrySub then [LOGIC(EOR, false, S64, T(r), T(r), Lit(1))] else [];
    var nz := if setNZ then [ShiftNZ(s)] else [];
    var pack, rmif := LOGIC(ORR, false, S64, T(r), T(of), Sh(T(r), 1)), RMIF(T(r), 0, 3);
    var c' := if pol == CarrySub then !c else c;
    var v := 2 * B2N(c') + B2N(o);
    var p := Set(a, T(r), v);
    PokeFacts(a, r, of, B2N(c'), v, s);
    InvertIf(a, r, pol, c);
    var a1 := Exec(inv, a);
    PackStep(a1, r, of, c', o);
    Exec1(pack, a1);
    ExecCat(inv, [pack], a);
    ExecCat(inv + [pack], nz, a);
    var q := if setNZ then NZOf(p, s) else p;
    ShiftNZOk(s, p);
    Exec1(ShiftNZ(s), p);
    ExecNil(p);
    RmifCV(q, T(r), c', o);
    Exec1(rmif, q);
    ExecCat(inv + [pack] + nz, [rmif], a);
  }

  /** The optional EOR with 1. */
  lemma InvertIf(a: State, r: Scratch, pol: Pol, c: bool)
    requires Peek(a.x, r) == B2N(c)
    ensures Exec(if pol == CarrySub then [LOGIC(EOR, false, S64, T(r), T(r), Lit(1))] else [], a)
         == Set(a, T(r), B2N(if pol == CarrySub then !c else c))
  {
    hide Exec, Step;
    if pol == CarrySub {
      StepFlip(a, S64, r, B2N(c));
      Exec1(LOGIC(EOR, false, S64, T(r), T(r), Lit(1)), a);
    } else {
      ExecNil(a);
    }
  }

  // ---- SHL, SHR, SAR: result -------------------------------------------------------------------

  /** The 64-bit value the lowering shifts. */
  function Source64(op: X86.ShiftOp, s: Size, v: Word): Word {
    if op == X86.Sar && s != S64 then Trunc(SInt(v, s), S64) else v
  }

  function PlainResult(op: X86.ShiftOp, s: Size, v: Word, k: nat): Word {
    match op
    case Shl => Trunc(Lsl(v, k), S64)
    case Sar => Trunc(Lsr(SInt(v, s), k), S64)
    case _ => Trunc(Lsr(v, k), S64)
  }

  lemma SignExtended(v: Word, s: Size)
    ensures SInt(Trunc(SInt(v, s), S64), S64) == SInt(v, s)
  {
    hide Trunc;
    SIntRange(v, s);
    TruncNear(SInt(v, s), S64);
    TruncAdd(SInt(v, s), 0, S64);
  }

  lemma ShiftedPlain(op: X86.ShiftOp, s: Size, v: Word, k: nat)
    requires !X86.Rotating(op) && k < 64
    ensures Shifted(ArmShOp(op), Source64(op, s, v), k, S64) == PlainResult(op, s, v, k)
  {
    hide Trunc, Lsl, Lsr, SInt;
    SignExtended(v, s);
  }

  lemma PlainResultOk(op: X86.ShiftOp, s: Size, v: Word, cf: bool, k: nat)
    requires !X86.Rotating(op) && v < Cap(s)
    ensures Trunc(PlainResult(op, s, v, k), s) == X86.ShiftBy(op, X86.VC(v, cf), k, s).v
  {
    hide Trunc, Lsl, Lsr, SInt, X86.ShiftBy;
    match op
    case Shl => ShlClosed(v, cf, k, s); TruncTrunc(Lsl(v, k), s, S64);
    case Shr => ShrClosed(v, cf, k, s); TruncTrunc(Lsr(v, k), s, S64); LsrRange(v, k); TruncSmall(Lsr(v, k), s);
    case Sar => SarClosed(v, cf, k, s); TruncTrunc(Lsr(SInt(v, s), k), s, S64);
  }

  /** The count register, or the immediate, holds k. */
  predicate Counts(n: int, k: nat, a: State) {
    if n >= 0 then n == k else a.x.x1 == k
  }

  lemma ShiftPlainOk(op: X86.ShiftOp, s: Size, val: Reg, xv: Reg, n: int, k: nat, a: State, v: Word)
    requires !X86.Rotating(op) && k < 64 && -1 <= n && Counts(n, k, a) && Get(a, xv) == Source64(op, s, v)
    ensures Exec(ShiftResult(op, s, val, xv, n), a) == Set(a, T(X0), PlainResult(op, s, v, k))
  {
    hide Exec, Step, Trunc, Shifted, Source64, PlainResult;
    var i := SHIFT(ArmShOp(op), S64, T(X0), xv, if n >= 0 then ByLit(n) else ByReg(T(X1)));
    ShiftedPlain(op, s, v, k);
    TruncSmall(Get(a, xv), S64);
    if n >= 0 {
      StepShift(a, ArmShOp(op), S64, T(X0), xv, k);
    } else {
      StepShiftReg(a, ArmShOp(op), S64, T(X0), xv, T(X1), k);
    }
    Exec1(i, a);
  }

  // ---- CF and OF of the result --------------------------------------------------------------------

  /** c and o are the CF and OF of a shift of v by k > 0, where those are defined. */
  ghost predicate CarryFacts(op: X86.ShiftOp, s: Size, v: Word, cf: bool, k: nat, c: bool, o: bool) {
    var r := X86.ShiftBy(op, X86.VC(v, cf), k, s);
    && (X86.Rotating(op) || op == X86.Sar || k < Bits(s) ==> c == r.cf)
    && (k == 1 ==> o == X86.ShiftOverflow(op, v, r, s))
  }

  /** x2 = c, x3 = o; only x2, x3 and x5 change. */
  ghost predicate CarryLoaded(a: State, b: State, c: bool, o: bool) {
    b == a.(x := a.x.(x2 := B2N(c), x3 := B2N(o), x5 := b.x.x5))
  }

  lemma UbfxBit(a: State, t: Scratch, n: Reg, k: nat)
    ensures Step(UBFX(T(t), n, k, 1), a) == Set(a, T(t), B2N(Bit(Get(a, n), k)))
  {
    hide Step, Set, Get, Trunc, Lsr, Low;
    StepUbfx(a, t, n, k, 1);
    BitLow(Get(a, n), k, k + 1);
    TruncSmall(B2N(Bit(Get(a, n), k)), S64);
  }

  lemma XorBits(p: bool, q: bool)
    ensures Bw(BXor, B2N(p), B2N(q)) == B2N(p != q)
  {
  }

  /** EOR of two bits in registers. */
  lemma StepXorBits(a: State, d: Scratch, n: Scratch, m: Scratch, p: bool, q: bool)
    requires Peek(a.x, n) == B2N(p) && Peek(a.x, m) == B2N(q)
    ensures Step(LOGIC(EOR, false, S64, T(d), T(n), Sh(T(m), 0)), a) == Set(a, T(d), B2N(p != q))
  {
    hide Step, Set, Bw, Trunc, Get;
    XorBits(p, q);
    GetT(a, n);
    GetT(a, m);
    RhsPlain(a, T(m), S64);
    TruncSmall(B2N(p), S64);
    TruncSmall(B2N(q), S64);
    TruncSmall(B2N(p != q), S64);
    StepLogic(a, EOR, S64, T(d), T(n), Sh(T(m), 0));
  }

  lemma AndOne(v: Word)
    ensures Bw(BAnd, v, 1) == v % 2
  {
    hide Low;
    AndMask(v, 1);
    LowOne(v);
  }

  lemma StepAndOne(a: State, d: Scratch, n: Reg)
    ensures Step(LOGIC(AND, false, S64, T(d), n, Lit(1)), a) == Set(a, T(d), Get(a, n) % 2)
  {
    hide Set, Get, Bw, Trunc;
    StepLogic(a, AND, S64, T(d), n, Lit(1));
    LitOk(a, 1, S64);
    TruncSmall(Get(a, n), S64);
    AndOne(Get(a, n));
    TruncSmall(Get(a, n) % 2, S64);
  }

  /** SHL up to 32 bits: CF is bit `size` of the 64-bit result. */
  lemma ShlNarrowCode(s: Size, xv: Reg, n: int, a: State)
    requires s != S64 && -1 <= n < 64
    ensures var c := Bit(a.x.x0, Bits(s));
      CarryLoaded(a, Exec(ShiftCarry(X86.Shl, s, xv, n), a), c, Bit(a.x.x0, Bits(s) - 1) != c)
  {
    hide Exec, Step, Trunc, Lsr, Lsl, Bw, Bit;
    var y := a.x.x0;
    var i, j, l := UBFX(T(X2), T(X0), Bits(s), 1), LOGIC(EOR, false, S64, T(X3), T(X0), ShR(T(X0), 1)),
                   UBFX(T(X3), T(X3), Bits(s) - 1, 1);
    UbfxBit(a, X2, T(X0), Bits(s));
    var a1 := Set(a, T(X2), B2N(Bit(y, Bits(s))));
    LsrRange(y, 1);
    ShiftedXor(a1, X3, 1, y);
    var a2 := Set(a1, T(X3), Bw(BXor, y, Lsr(y, 1)));
    UbfxBit(a2, X3, T(X3), Bits(s) - 1);
    XorNeighbour(y, Bits(s) - 1);
    Exec3(i, j, l, a);
  }

  lemma ShlNarrowFacts(s: Size, k: nat, v: Word, cf: bool)
    requires s != S64 && v < Cap(s) && 0 < k < 32
    ensures var y := PlainResult(X86.Shl, s, v, k); var c := Bit(y, Bits(s));
      CarryFacts(X86.Shl, s, v, cf, k, c, Bit(y, Bits(s) - 1) != c)
  {
    hide Trunc, Lsr, Lsl, Bit, X86.ShiftBy, Msb;
    ShlClosed(v, cf, k, s);
    BitTrunc(Lsl(v, k), Bits(s), S64);
    BitTrunc(Lsl(v, k), Bits(s) - 1, S64);
    MsbBit(Lsl(v, k), s);
    MsbOfTrunc(Lsl(v, k), s);
  }

  lemma ShiftedXor(a: State, d: Scratch, n: nat, y: Word)
    requires a.x.x0 == y
    ensures 0 <= Lsr(y, n) <= y
    ensures Bw(BXor, y, Lsr(y, n)) < Cap(S64)
    ensures Step(LOGIC(EOR, false, S64, T(d), T(X0), ShR(T(X0), n)), a) == Set(a, T(d), Bw(BXor, y, Lsr(y, n)))
  {
    hide Step, Set, Trunc, Lsr, Bw;
    LsrRange(y, n);
    TruncSmall(y, S64);
    TruncSmall(Lsr(y, n), S64);
    BwTrunc(BXor, y, Lsr(y, n), S64);
    TruncSmall(Bw(BXor, y, Lsr(y, n)), S64);
    StepLogic(a, EOR, S64, T(d), T(X0), ShR(T(X0), n));
    RhsShR(a, X0, n);
  }

  lemma RhsShR(a: State, t: Scratch, n: nat)
    ensures RhsVal(a, ShR(T(t), n), S64) == Trunc(Lsr(Trunc(Peek(a.x, t), S64), n), S64)
  {
  }

  lemma XorNeighbour(y: nat, k: nat)
    requires Lsr(y, 1) >= 0
    ensures Bit(Bw(BXor, y, Lsr(y, 1)), k) == (Bit(y, k) != Bit(y, k + 1))
  {
    hide Lsr, Bw;
    BwBit(BXor, y, Lsr(y, 1), k);
    LsrLsr(y, 1, k);
  }

  /** SHL of 64 bits: CF is bit 64 - k of the source. */
  lemma Shl64Code(xv: Reg, n: int, k: nat, a: State, v: Word)
    requires 0 < k < 64 && -1 <= n < 64 && n != 0 && Counts(n, k, a) && Get(a, xv) == v && !OwnScratch(xv)
    ensures var c := Bit(v, 64 - k);
      CarryLoaded(a, Exec(ShiftCarry(X86.Shl, S64, xv, n), a), c, Msb(a.x.x0, S64) != c)
  {
    hide Exec, Step, Trunc, Lsr, Lsl, Bw, Bit, Msb, Set;
    var y := a.x.x0;
    var c := Bit(v, 64 - k);
    var e := LOGIC(EOR, false, S64, T(X3), T(X2), ShR(T(X0), 63));
    var first := if n > 0 then [UBFX(T(X2), xv, 64 - n, 1)]
      else [ADDSUB(true, false, S64, T(X5), ZR, Sh(T(X1), 0)), SHIFT(LSR, S64, T(X2), xv, ByReg(T(X5))),
            LOGIC(AND, false, S64, T(X2), T(X2), Lit(1))];
    var b := Exec(first, a);
    assert b == a.(x := a.x.(x2 := B2N(c), x5 := b.x.x5)) by {
      if n > 0 {
        UbfxBit(a, X2, xv, 64 - n);
        Exec1(first[0], a);
        SetX2(a, B2N(c));
      } else {
        NegCountShift(a, xv, v, k);
      }
    }
    TopXor(b, y, c);
    Exec1(e, b);
    ExecCat(first, [e], a);
  }

  /** xv is none of the registers the flag code writes. */
  predicate OwnScratch(r: Reg) { r == T(X0) || r == T(X2) || r == T(X3) || r == T(X5) }

  lemma SetX2(a: State, v: Word)
    ensures Set(a, T(X2), v) == a.(x := a.x.(x2 := v))
  {
  }

  /** NEG x5, x1; LSR x2, xv, x5; AND x2, x2, #1. */
  lemma NegCountShift(a: State, xv: Reg, v: Word, k: nat)
    requires 0 < k < 64 && a.x.x1 == k && Get(a, xv) == v && !OwnScratch(xv)
    ensures var b := Exec([ADDSUB(true, false, S64, T(X5), ZR, Sh(T(X1), 0)), SHIFT(LSR, S64, T(X2), xv, ByReg(T(X5))),
                           LOGIC(AND, false, S64, T(X2), T(X2), Lit(1))], a);
      b == a.(x := a.x.(x2 := B2N(Bit(v, 64 - k)), x5 := b.x.x5))
  {
    hide Exec, Step, Trunc, Lsr, RhsVal;
    var i, j, l := ADDSUB(true, false, S64, T(X5), ZR, Sh(T(X1), 0)), SHIFT(LSR, S64, T(X2), xv, ByReg(T(X5))),
                   LOGIC(AND, false, S64, T(X2), T(X2), Lit(1));
    RhsPlain(a, T(X1), S64);
    TruncSmall(k, S64);
    StepAddSub(a, true, S64, T(X5), ZR, Sh(T(X1), 0));
    TruncNear(0 - k, S64);
    var a1 := Set(a, T(X5), Cap(S64) - k);
    NegMod(k);
    ShiftOutBit(a1, xv, v, LSR, 64 - k);
    Exec3(i, j, l, a);
  }

  lemma NegMod(k: nat)
    requires 0 < k < 64
    ensures ModBits(Cap(S64) - k, S64) == 64 - k
  {
  }

  /** LSR x2, xv, x5; AND x2, x2, #1 with x5 = m modulo 64. */
  lemma ShiftOutBit(a: State, xv: Reg, v: Word, sh: ShOp, m: nat)
    requires m < 64 && ModBits(a.x.x5, S64) == m && Get(a, xv) == v && (sh == LSR || sh == ASR)
    ensures Step(LOGIC(AND, false, S64, T(X2), T(X2), Lit(1)), Step(SHIFT(sh, S64, T(X2), xv, ByReg(T(X5))), a))
         == Set(a, T(X2), B2N(Bit(v, m)))
  {
    hide Step, Trunc, Lsr, SInt, Set;
    StepShiftReg(a, sh, S64, T(X2), xv, T(X5), m);
    TruncSmall(v, S64);
    var r := Shifted(sh, v, m, S64);
    StepAndOne(Set(a, T(X2), r), X2, T(X2));
    GetSet(a, T(X2), r, r % 2);
    LsrRange(v, m);
    if sh == LSR {
      TruncSmall(Lsr(v, m), S64);
    } else {
      AsrBit(v, m);
    }
  }

  lemma AsrBit(v: Word, m: nat)
    requires m < 64
    ensures Trunc(Lsr(SInt(v, S64), m), S64) % 2 == B2N(Bit(v, m))
  {
    hide Lsr, Trunc, SInt;
    SIntRange(v, S64);
    TruncSmall(v, S64);
    BitTrunc(SInt(v, S64), m, S64);
    Zero(Lsr(SInt(v, S64), m));
    Zero(Trunc(Lsr(SInt(v, S64), m), S64));
    BitTrunc(Lsr(SInt(v, S64), m), 0, S64);
  }

  lemma TopXor(b: State, y: Word, c: bool)
    requires b.x.x0 == y && b.x.x2 == B2N(c)
    ensures Step(LOGIC(EOR, false, S64, T(X3), T(X2), ShR(T(X0), 63)), b) == b.(x := b.x.(x3 := B2N(Msb(y, S64) != c)))
  {
    hide Step, Trunc, Lsr, Bw, RhsVal;
    var m := Msb(y, S64);
    TruncSmall(y, S64);
    MsbBit(y, S64);
    Top63(y);
    RhsShR(b, X0, 63);
    TruncSmall(B2N(m), S64);
    TruncSmall(B2N(c), S64);
    XorBits(c, m);
    TruncSmall(B2N(c != m), S64);
    StepLogic(b, EOR, S64, T(X3), T(X2), ShR(T(X0), 63));
  }

  lemma Top63(y: Word)
    ensures Lsr(y, 63) == B2N(Bit(y, 63))
  {
    hide Lsr, Lsl, Low;
    LsrRange(y, 63);
    CapPow2(S64);
    UpperBound(y, 63, 64);
    Pow2Consts();
  }

  lemma Shl64Facts(k: nat, v: Word, cf: bool)
    requires 0 < k < 64
    ensures var c := Bit(v, 64 - k);
      CarryFacts(X86.Shl, S64, v, cf, k, c, Msb(PlainResult(X86.Shl, S64, v, k), S64) != c)
  {
    hide Trunc, Lsr, Lsl, X86.ShiftBy, Msb;
    ShlClosed(v, cf, k, S64);
    LsrLsl(v, 64 - k, k);
  }

  /** x2 := the last bit shifted out of the 64-bit source. */
  lemma LastBitCode(sh: ShOp, xv: Reg, n: int, k: nat, a: State, v: Word)
    requires (sh == LSR || sh == ASR) && 0 < k < 64 && -1 <= n < 64 && n != 0 && Counts(n, k, a)
    requires Get(a, xv) == v && !OwnScratch(xv)
    ensures var code := if n > 0 then [UBFX(T(X2), xv, n - 1, 1)]
        else [ADDSUB(true, false, S64, T(X5), T(X1), Lit(1)), SHIFT(sh, S64, T(X2), xv, ByReg(T(X5))),
              LOGIC(AND, false, S64, T(X2), T(X2), Lit(1))];
      var b := Exec(code, a);
      b == a.(x := a.x.(x2 := B2N(Bit(v, k - 1)), x5 := b.x.x5))
  {
    hide Exec, Step, Trunc, Lsr, Bit, RhsVal;
    if n > 0 {
      UbfxBit(a, X2, xv, n - 1);
      Exec1(UBFX(T(X2), xv, n - 1, 1), a);
    } else {
      var i, j, l := ADDSUB(true, false, S64, T(X5), T(X1), Lit(1)), SHIFT(sh, S64, T(X2), xv, ByReg(T(X5))),
                     LOGIC(AND, false, S64, T(X2), T(X2), Lit(1));
      StepAddSub(a, true, S64, T(X5), T(X1), Lit(1));
      LitOk(a, 1, S64);
      TruncSmall(k - 1, S64);
      ShiftOutBit(Set(a, T(X5), k - 1), xv, v, sh, k - 1);
      Exec3(i, j, l, a);
    }
  }

  /** SHR and SAR: CF is the last bit shifted out, OF the sign of the source or 0. */
  lemma ShrCode(op: X86.ShiftOp, s: Size, xv: Reg, n: int, k: nat, a: State, v: Word)
    requires (op == X86.Shr || op == X86.Sar) && 0 < k < 64 && -1 <= n < 64 && n != 0 && Counts(n, k, a)
    requires Get(a, xv) == v && !OwnScratch(xv)
    ensures CarryLoaded(a, Exec(ShiftCarry(op, s, xv, n), a), Bit(v, k - 1), op == X86.Shr && Bit(v, Bits(s) - 1))
  {
    hide Exec, Step, Lsr, Bit, B2N;
    var first := if n > 0 then [UBFX(T(X2), xv, n - 1, 1)]
      else [ADDSUB(true, false, S64, T(X5), T(X1), Lit(1)), SHIFT(ArmShOp(op), S64, T(X2), xv, ByReg(T(X5))),
            LOGIC(AND, false, S64, T(X2), T(X2), Lit(1))];
    var second := if op == X86.Shr then [UBFX(T(X3), xv, Bits(s) - 1, 1)] else [MOVZ(T(X3), 0, 0)];
    LastBitCode(ArmShOp(op), xv, n, k, a, v);
    var b := Exec(first, a);
    OtherGet(a, b, xv);
    UbfxBit(b, X3, xv, Bits(s) - 1);
    StepMovz(b, T(X3), 0);
    ZeroBit();
    Exec1(second[0], b);
    ExecCat(first, second, a);
    SetX3(b, B2N(op == X86.Shr && Bit(v, Bits(s) - 1)));
  }

  lemma ZeroBit()
    ensures B2N(false) == 0
  {
  }

  lemma SetX3(a: State, v: Word)
    ensures Set(a, T(X3), v) == a.(x := a.x.(x3 := v))
  {
  }

  lemma OtherGet(a: State, b: State, r: Reg)
    requires b == a.(x := a.x.(x2 := b.x.x2, x5 := b.x.x5)) && !OwnScratch(r)
    ensures Get(b, r) == Get(a, r)
  {
  }

  lemma ShrFacts(op: X86.ShiftOp, s: Size, k: nat, v: Word, cf: bool)
    requires (op == X86.Shr || op == X86.Sar) && v < Cap(s) && 0 < k < 64
    ensures var y := Source64(op, s, v);
      CarryFacts(op, s, v, cf, k, Bit(y, k - 1), op == X86.Shr && Bit(y, Bits(s) - 1))
  {
    hide Trunc, Lsr, X86.ShiftBy, Msb, SInt;
    MsbBit(v, s);
    if op == X86.Shr {
      ShrClosed(v, cf, k, s);
    } else {
      SarClosed(v, cf, k, s);
      BitTrunc(SInt(v, s), k - 1, S64);
      SIntRange(v, s);
      TruncSmall(v, s);
      if s == S64 { BitTrunc(SInt(v, s), k - 1, s); }
    }
  }

  // ---- ROL, ROR ------------------------------------------------------------------------------------

  lemma RotCarryCode(op: X86.ShiftOp, s: Size, xv: Reg, n: int, a: State)
    requires X86.Rotating(op) && -1 <= n < 64
    ensures var y := a.x.x0;
      var c := if op == X86.Rol then y % 2 == 1 else Bit(y, Bits(s) - 1);
      var o := if op == X86.Rol then Bit(y, Bits(s) - 1) else Bit(y, Bits(s) - 2);
      CarryLoaded(a, Exec(ShiftCarry(op, s, xv, n), a), c, o != c)
  {
    hide Exec, Step, Lsr, Bit;
    var y := a.x.x0;
    if op == X86.Rol {
      var c, o := y % 2 == 1, Bit(y, Bits(s) - 1);
      StepAndOne(a, X2, T(X0));
      RotCarryTail(a, LOGIC(AND, false, S64, T(X2), T(X0), Lit(1)), Bits(s) - 1, c, o);
    } else {
      var c, o := Bit(y, Bits(s) - 1), Bit(y, Bits(s) - 2);
      UbfxBit(a, X2, T(X0), Bits(s) - 1);
      RotCarryTail(a, UBFX(T(X2), T(X0), Bits(s) - 1, 1), Bits(s) - 2, c, o);
    }
  }

  lemma RotCarryTail(a: State, first: Instr, k: nat, c: bool, o: bool)
    requires Step(first, a) == Set(a, T(X2), B2N(c)) && o == Bit(a.x.x0, k)
    ensures CarryLoaded(a,
      Exec([first, UBFX(T(X3), T(X0), k, 1), LOGIC(EOR, false, S64, T(X3), T(X3), Sh(T(X2), 0))], a), c, o != c)
  {
    hide Exec, Step, Lsr, Bit;
    var a1 := Set(a, T(X2), B2N(c));
    UbfxBit(a1, X3, T(X0), k);
    var a2 := Set(a1, T(X3), B2N(o));
    StepXorBits(a2, X3, X3, X2, o, c);
    Exec3(first, UBFX(T(X3), T(X0), k, 1), LOGIC(EOR, false, S64, T(X3), T(X3), Sh(T(X2), 0)), a);
  }

  lemma RotFacts(op: X86.ShiftOp, s: Size, k: nat, v: Word, cf: bool, y: Word)
    requires X86.Rotating(op) && v < Cap(s) && k > 0 && Trunc(y, s) == X86.ShiftBy(op, X86.VC(v, cf), k, s).v
    ensures var c := if op == X86.Rol then y % 2 == 1 else Bit(y, Bits(s) - 1);
      var o := if op == X86.Rol then Bit(y, Bits(s) - 1) else Bit(y, Bits(s) - 2);
      CarryFacts(op, s, v, cf, k, c, o != c)
  {
    hide Trunc, Lsr, X86.ShiftBy, Msb;
    var r := X86.ShiftBy(op, X86.VC(v, cf), k, s);
    if op == X86.Rol { RolClosed(v, cf, k, s); } else { RorClosed(v, cf, k, s); }
    BitTrunc(y, 0, s);
    Zero(y);
    Zero(r.v);
    BitTrunc(y, Bits(s) - 1, s);
    BitTrunc(y, Bits(s) - 2, s);
    MsbBit(r.v, s);
  }

  /** ROR at the operand width. */
  lemma RorWide(s: Size, v: Word, k: nat)
    requires Wide(s) && v < Cap(s) && k < Bits(s)
    ensures Shifted(ROR, v, k, s) == Trunc(RotR(v, k, Bits(s)), s)
  {
  }

  /** The right-rotate amount of the lowering. */
  lemma AmountOk(op: X86.ShiftOp, n: nat, s: Size)
    requires X86.Rotating(op)
    ensures RotAmount(op, n, Bits(s)) == if op == X86.Rol then LeftAmount(n, s) else ModBits(n, s)
  {
    match s
    case S8 => NegMod0(8, n % 8);
    case S16 => NegMod0(16, n % 16);
    case S32 => NegMod0(32, n % 32);
    case S64 => NegMod0(64, n % 64);
  }

  lemma NegMod0(m: nat, r: nat)
    requires r < m
    ensures (m - r) % m == if r == 0 then 0 else m - r
  {
    if r == 0 { assert (m - r) % m == 0; }
  }

  /** What ROL and ROR by k compute, as a right rotate. */
  function RightAmount(op: X86.ShiftOp, k: nat, s: Size): (r: nat)
    ensures r < Bits(s)
  {
    if op == X86.Rol then LeftAmount(k, s) else ModBits(k, s)
  }

  lemma RotResult(op: X86.ShiftOp, s: Size, v: Word, cf: bool, k: nat)
    requires X86.Rotating(op) && v < Cap(s)
    ensures var r := X86.ShiftBy(op, X86.VC(v, cf), k, s).v;
      r == RotR(v, RightAmount(op, k, s), Bits(s)) && r < Cap(s)
  {
    if op == X86.Rol { RolClosed(v, cf, k, s); } else { RorClosed(v, cf, k, s); }
  }

  /** The value replicated over 32 bits. */
  function Replicated(v: Word, s: Size): int
    requires !Wide(s)
  {
    if s == S8 then 0x101_0101 * v else 0x1_0001 * v
  }

  /** Rotating the replicated value rotates its low bits. */
  lemma ReplicatedRotate(v: Word, s: Size, k: nat)
    requires !Wide(s) && v < Cap(s) && k < Bits(s)
    ensures 0 <= Replicated(v, s) < Cap(S32)
    ensures Trunc(Shifted(ROR, Replicated(v, s), k, S32), s) == RotR(v, k, Bits(s))
  {
    hide Trunc, Lsl, Lsr, Low;
    var m := Bits(s);
    var w := Replicated(v, s);
    var rest: int := if s == S8 then 0x1_0101 * v else v;
    Consts(v);
    Consts(rest);
    assert w == Lsl(rest, m) + v;
    CapPow2(s);
    LsrSum(rest, v, m, k);
    var u := Lsr(w, k) + Lsl(Low(w, k), 32 - k);
    TruncTrunc(u, s, S32);
    TruncLow(u, s);
    LslLsl(Low(w, k), 32 - k - m, m);
    LowSum(Lsl(Low(w, k), 32 - k - m), Lsr(w, k), m);
    LowRest(v, s, k);
    SumRotate(v, rest, m, k);
  }

  lemma LowRest(v: Word, s: Size, k: nat)
    requires !Wide(s) && k < Bits(s)
    ensures Low(if s == S8 then 0x1_0101 * v else v, k) == Low(v, k)
  {
    hide Lsl, Lsr, Low;
    if s == S8 {
      Consts(0x101 * v);
      LslLsl(0x101 * v, 8 - k, k);
      LowSum(Lsl(0x101 * v, 8 - k), v, k);
    }
  }

  /** The low m bits of v / 2^k below a copy of v are v rotated. */
  lemma SumRotate(v: nat, rest: int, m: nat, k: nat)
    requires k < m && v < Pow2(m) && Low(rest, k) == Low(v, k)
    ensures Low(Lsl(rest, m - k) + Lsr(v, k), m) == RotR(v, k, m)
  {
    hide Lsl, Lsr, Low, Pow2;
    var q, l := Lsr(v, k), Low(v, k);
    UpperBound(v, k, m);
    LsrRange(v, k);
    Split(rest, k);
    LslAdd(Lsl(Lsr(rest, k), k), l, m - k);
    LslLsl(Lsr(rest, k), k, m - k);
    RotRBound(v, k, m);
    Unsplit(Lsr(rest, k), RotR(v, k, m), m);
  }

  lemma NegAmount(k: nat, s: Size)
    requires k < Bits(Wd(s))
    ensures ModBits(Trunc(0 - k, Wd(s)), s) == LeftAmount(k, s)
  {
    hide Trunc;
    TruncNear(0 - k, Wd(s));
    if k > 0 {
      match s
      case S8 => NegMod8(k);
      case S16 => NegMod16(k);
      case S32 =>
      case S64 =>
    }
  }

  lemma NegMod8(k: nat)
    requires 0 < k < 32
    ensures (0x1_0000_0000 - k) % 8 == (if k % 8 == 0 then 0 else 8 - k % 8)
  {
    var r := k % 8;
    Residue8(0x2000_0000 - k / 8 - (if r == 0 then 0 else 1), if r == 0 then 0 else 8 - r);
  }

  lemma Residue8(q: int, r: nat)
    requires r < 8
    ensures (8 * q + r) % 8 == r
  {
  }

  lemma NegMod16(k: nat)
    requires 0 < k < 32
    ensures (0x1_0000_0000 - k) % 16 == (if k % 16 == 0 then 0 else 16 - k % 16)
  {
    var r := k % 16;
    Residue16(0x1000_0000 - k / 16 - (if r == 0 then 0 else 1), if r == 0 then 0 else 16 - r);
  }

  lemma Residue16(q: int, r: nat)
    requires r < 16
    ensures (16 * q + r) % 16 == r
  {
  }

  lemma MaskBits(v: Word, s: Size)
    requires v < Cap(S32) && !Wide(s)
    ensures Logical(AND, v, Bits(s) - 1, S32) == ModBits(v, s)
  {
    hide Bw, Trunc;
    Pow2Small();
    AndMask(v, if s == S8 then 3 else 4);
    LowSmall(v);
    TruncSmall(ModBits(v, s), S32);
  }

  lemma Pow2Small()
    ensures Pow2(3) == 8 && Pow2(4) == 16
  {
  }

  lemma LowSmall(v: int)
    ensures Low(v, 3) == v % 8 && Low(v, 4) == v % 16
  {
    hide Low, Lsr, Lsl;
    Low3(v);
    LowSplit(v, 3, 1);
    LowOne(Lsr(v, 3));
    Lsr3(v);
    Consts(Lsr(v, 3) % 2);
  }

  lemma Low2(v: int)
    ensures Low(v, 2) == v % 4
  {
  }

  lemma Low3(v: int)
    ensures Low(v, 3) == v % 8
  {
    assert Low(v, 3) == 2 * Low(v / 2, 2) + v % 2;
    Low2(v / 2);
  }

  lemma Lsr3(v: int)
    ensures Lsr(v, 3) == v / 8
  {
    assert Lsr(v, 3) == Lsr(v, 2) / 2;
  }

  /** The variable count of a rotate, in x1 or x5. */
  lemma RotCountOk(op: X86.ShiftOp, s: Size, k: nat, a: State)
    requires X86.Rotating(op) && k < Bits(Wd(s)) && a.x.x1 == k
    ensures var c := RotateCount(op, s); var b := Exec(c.code, a);
      b == a.(x := a.x.(x5 := b.x.x5)) && ModBits(Get(b, c.r), Wd(s)) == RightAmount(op, k, s)
  {
    hide Exec, Step, Trunc, RhsVal, Logical;
    var cnt := if op == X86.Rol then T(X5) else T(X1);
    var first := if op == X86.Rol then [ADDSUB(true, false, Wd(s), T(X5), ZR, Sh(T(X1), 0))] else [];
    var second := if Wide(s) then [] else [LOGIC(AND, false, S32, T(X5), cnt, Lit(Bits(s) - 1))];
    var c := if op == X86.Rol then Trunc(0 - k, Wd(s)) else k;
    NegAmount(k, s);
    NegCountOk(op, s, k, a);
    var a1 := Exec(first, a);
    ExecCat(first, second, a);
    ExecNil(a1);
    if !Wide(s) {
      TruncBound(0 - k, S32);
      CountMod(s, cnt, a1);
    }
  }

  lemma NegCountOk(op: X86.ShiftOp, s: Size, k: nat, a: State)
    requires X86.Rotating(op) && k < Bits(Wd(s)) && a.x.x1 == k
    ensures Exec(if op == X86.Rol then [ADDSUB(true, false, Wd(s), T(X5), ZR, Sh(T(X1), 0))] else [], a)
         == if op == X86.Rol then Set(a, T(X5), Trunc(0 - k, Wd(s))) else a
  {
    hide Exec, Step, Trunc, RhsVal, Set;
    RhsPlain(a, T(X1), Wd(s));
    TruncSmall(k, Wd(s));
    StepAddSub(a, true, Wd(s), T(X5), ZR, Sh(T(X1), 0));
    Exec1(ADDSUB(true, false, Wd(s), T(X5), ZR, Sh(T(X1), 0)), a);
    ExecNil(a);
  }

  lemma CountMod(s: Size, cnt: Reg, a: State)
    requires !Wide(s) && Get(a, cnt) < Cap(S32)
    ensures Exec([LOGIC(AND, false, S32, T(X5), cnt, Lit(Bits(s) - 1))], a) == Set(a, T(X5), ModBits(Get(a, cnt), s))
  {
    hide Exec, Step, Trunc, RhsVal, Logical, Get, Set;
    TruncSmall(Get(a, cnt), S32);
    LitOk(a, Bits(s) - 1, S32);
    MaskBits(Get(a, cnt), s);
    StepLogic(a, AND, S32, T(X5), cnt, Lit(Bits(s) - 1));
    Exec1(LOGIC(AND, false, S32, T(X5), cnt, Lit(Bits(s) - 1)), a);
  }

  /** x4 := the narrow value replicated over 32 bits. */
  lemma ReplicateOk(s: Size, a: State, v: Word)
    requires !Wide(s) && a.x.x17 == v && v < Cap(s)
    ensures 0 <= Replicated(v, s) < Cap(S32)
    ensures Exec(Replicate(s, T(X17)), a) == a.(x := a.x.(x4 := Replicated(v, s)))
  {
    hide Exec, Step, Trunc, Lsl, Bw, RhsVal;
    CapPow2(s);
    OrCopy(a, X17, Bits(s), v, if s == S8 then 0x101 * v else 0x1_0001 * v) by { Consts(v); }
    var i := LOGIC(ORR, false, S32, T(X4), T(X17), Sh(T(X17), Bits(s)));
    if s == S8 {
      Replicate8(a, v);
      assert Replicate(s, T(X17)) == [i, LOGIC(ORR, false, S32, T(X4), T(X4), Sh(T(X4), 16))];
    } else {
      Exec1(i, a);
      assert Replicate(s, T(X17)) == [i];
    }
  }

  lemma Replicate8(a: State, v: Word)
    requires a.x.x17 == v && v < 0x100
    requires Step(LOGIC(ORR, false, S32, T(X4), T(X17), Sh(T(X17), 8)), a) == Set(a, T(X4), 0x101 * v)
    ensures Exec([LOGIC(ORR, false, S32, T(X4), T(X17), Sh(T(X17), 8)),
      LOGIC(ORR, false, S32, T(X4), T(X4), Sh(T(X4), 16))], a)
         == a.(x := a.x.(x4 := 0x101_0101 * v))
  {
    hide Exec, Step, Trunc, Lsl, Bw, RhsVal;
    var b := Set(a, T(X4), 0x101 * v);
    Pow2Consts();
    OrCopy(b, X4, 16, 0x101 * v, 0x101_0101 * v) by { Consts(0x101 * v); }
    Exec2(LOGIC(ORR, false, S32, T(X4), T(X17), Sh(T(X17), 8)), LOGIC(ORR, false, S32, T(X4), T(X4), Sh(T(X4), 16)), a);
  }

  lemma OrCopy(a: State, t: Scratch, n: nat, v: Word, sum: Word)
    requires Peek(a.x, t) == v && v < Pow2(n) && 0 <= Lsl(v, n) && Lsl(v, n) + v == sum < Cap(S32)
    ensures Step(LOGIC(ORR, false, S32, T(X4), T(t), Sh(T(t), n)), a) == Set(a, T(X4), sum)
  {
    hide Step, Trunc, Lsl, Bw, RhsVal;
    OrDisjoint(v, v, n);
    TruncSmall(v, S32);
    TruncSmall(Lsl(v, n), S32);
    TruncSmall(Lsl(v, n) + v, S32);
    RhsSh(a, t, n, S32);
    GetT(a, t);
    StepLogic(a, ORR, S32, T(X4), T(t), Sh(T(t), n));
  }

  lemma RotateOk(op: X86.ShiftOp, s: Size, val: Reg, xv: Reg, n: int, k: nat, a: State, v: Word)
    requires X86.Rotating(op) && -1 <= n && k < Bits(Wd(s)) && Counts(n, k, a) && v < Cap(s)
    requires if Wide(s) then Read(a, xv, s) == v && !OwnScratch(xv) else val == T(X17) && a.x.x17 == v
    ensures var b := Exec(ShiftResult(op, s, val, xv, n), a);
      && b == a.(x := a.x.(x0 := b.x.x0, x4 := b.x.x4, x5 := b.x.x5))
      && Trunc(b.x.x0, s) == RotR(v, RightAmount(op, k, s), Bits(s))
  {
    hide Exec, Step, Trunc, RotR, RightAmount, Replicated, Replicate, Get;
    var src := if Wide(s) then xv else T(X4);
    var rep := Replicate(s, val);
    ExecNil(a);
    if !Wide(s) { ReplicateOk(s, a, v); TruncSmall(Replicated(v, s), S32); }
    assert Wide(s) ==> rep == [] by { ReplicateWide(s, val); }
    assert !Wide(s)
      ==> Read(Exec(rep, a), T(X4), S32) == Replicated(v, s) by { if !Wide(s) { GetT(Exec(rep, a), X4); } }
    var a1 := Exec(rep, a);
    if n >= 0 {
      var ror := SHIFT(ROR, Wd(s), T(X0), src, ByLit(RotAmount(op, n, Bits(s))));
      RightAmountDef(op, n, s);
      RorStep(op, s, src, a1, v, k, ByLit(RotAmount(op, n, Bits(s))));
      Exec1(ror, a1);
      ExecCat(rep, [ror], a);
    } else {
      RotateVarOk(op, s, src, k, a1, v);
      var c := RotateCount(op, s);
      ExecCat(rep, c.code + [SHIFT(ROR, Wd(s), T(X0), src, ByReg(c.r))], a);
    }
  }

  lemma ReplicateWide(s: Size, val: Reg)
    ensures Wide(s) ==> Replicate(s, val) == []
  {
  }

  lemma RotateVarOk(op: X86.ShiftOp, s: Size, src: Reg, k: nat, a: State, v: Word)
    requires X86.Rotating(op) && k < Bits(Wd(s)) && a.x.x1 == k && v < Cap(s) && !OwnScratch(src)
    requires if Wide(s) then Read(a, src, s) == v
      else 0 <= Replicated(v, s) < Cap(S32) && Read(a, src, S32) == Replicated(v, s)
    ensures var c := RotateCount(op, s); var b := Exec(c.code + [SHIFT(ROR, Wd(s), T(X0), src, ByReg(c.r))], a);
      && b == a.(x := a.x.(x0 := b.x.x0, x5 := b.x.x5))
      && Trunc(b.x.x0, s) == RotR(v, RightAmount(op, k, s), Bits(s))
  {
    hide Exec, Step, Trunc, RotR, RightAmount, Replicated, RotateCount, Read;
    var c := RotateCount(op, s);
    RotCountOk(op, s, k, a);
    var a1 := Exec(c.code, a);
    SrcKept(a, a1, src, Wd(s));
    RorStep(op, s, src, a1, v, k, ByReg(c.r));
    var ror := SHIFT(ROR, Wd(s), T(X0), src, ByReg(c.r));
    Exec1(ror, a1);
    ExecCat(c.code, [ror], a);
  }

  lemma SrcKept(a: State, b: State, src: Reg, w: Size)
    requires b == a.(x := a.x.(x5 := b.x.x5)) && !OwnScratch(src)
    ensures Read(b, src, w) == Read(a, src, w)
  {
  }

  lemma RightAmountDef(op: X86.ShiftOp, n: nat, s: Size)
    requires X86.Rotating(op)
    ensures RightAmount(op, n, s) == RotAmount(op, n, Bits(s)) < Bits(s)
  {
    AmountOk(op, n, s);
  }

  /** The final ROR. */
  lemma RorStep(op: X86.ShiftOp, s: Size, src: Reg, a: State, v: Word, k: nat, amt: Amount)
    requires v < Cap(s) && AmountOf(a, amt, Wd(s)) == RightAmount(op, k, s)
    requires if Wide(s) then Read(a, src, s) == v
      else 0 <= Replicated(v, s) < Cap(S32) && Read(a, src, S32) == Replicated(v, s)
    ensures var i := SHIFT(ROR, Wd(s), T(X0), src, amt);
      var b := Step(i, a);
      b == Set(a, T(X0), b.x.x0) && Trunc(b.x.x0, s) == RotR(v, RightAmount(op, k, s), Bits(s))
  {
    hide Trunc, RotR, Shifted, Replicated;
    var r := RightAmount(op, k, s);
    if Wide(s) {
      RorWide(s, v, r);
      CapPow2(s);
      RotRBound(v, r, Bits(s));
      TruncSmall(RotR(v, r, Bits(s)), s);
    } else {
      ReplicatedRotate(v, s, r);
    }
  }
}
