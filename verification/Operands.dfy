/** What the operand code of a lowering does: immediates, effective addresses, loads into scratch
    registers and write-backs. */
module Operands {
  import opened Words
  import opened Guest
  import X86
  import opened Arm
  import opened Lifter
  import opened Steps

  ghost predicate Agree(x: X86.State, a: State) { x.regs == a.g && x.mem == a.mem }

  /** a with v in scratch register t, and x7 (the address scratch) as in b. */
  function Addressed(a: State, b: State, t: Scratch, v: Word): State {
    a.(x := Poke(a.x.(x7 := b.x.x7), t, v))
  }

  // ---- immediates ------------------------------------------------------------------------

  /** MOVK puts a chunk above the bits already there. */
  lemma InsertAbove(v: Word, chunk: nat, shift: nat)
    requires v < Pow2(shift) && chunk < 0x1_0000
    ensures Insert(v, chunk, shift, 16) == Trunc(v + Lsl(chunk, shift), S64)
  {
    hide Lsl, Lsr, Low;
    SmallSplit(v, shift);
    SmallSplit(0, 16);
    LslPow2(0, shift);
    Pow2Consts();
    SmallSplit(chunk, 16);
  }

  lemma {:induction false} MoveChunksOk(d: Reg, v: Word, k: nat, first: bool, a: State)
    requires k <= 4 && d != ZR
    requires v != 0 && (first ==> Low(v, 16 * k) == 0)
    requires !first ==> Get(a, d) == Low(v, 16 * k)
    ensures Exec(MoveChunks(d, v, k, first), a) == Set(a, d, v)
    decreases 4 - k
  {
    hide Lsl, Lsr, Low, Pow2;
    if k == 4 {
      TruncLow(v, S64);
      assert !first && Set(a, d, v) == a;
    } else {
      var c, low := Chunk(v, k), Low(v, 16 * k);
      LowSplit(v, 16 * k, 16);
      var up := Low(v, 16 * (k + 1));
      assert up == low + Lsl(c, 16 * k);
      LslPow2(0, 16 * k);
      if c == 0 {
        MoveChunksOk(d, v, k + 1, first, a);
      } else {
        var i := if first then MOVZ(d, c, 16 * k) else MOVK(d, c, 16 * k);
        assert up < 0x1_0000_0000_0000_0000 by {
          Split(v, 16 * (k + 1));
          Pow2Mono(16 * (k + 1), 64);
          Pow2Consts();
        }
        var b := Set(a, d, up);
        assert Step(i, a) == b by {
          Split(v, 16 * k);
          Split(Lsr(v, 16 * k), 16);
          Pow2Consts();
          if !first { InsertAbove(low, c, 16 * k); }
        }
        GetSet(a, d, up, v);
        var rest := MoveChunks(d, v, k + 1, false);
        ExecCat([i], rest, a);
        Exec1(i, a);
        MoveChunksOk(d, v, k + 1, false, b);
      }
    }
  }

  /** loadImm64 builds every 64-bit value. */
  lemma LoadImm64Ok(d: Reg, v: Word, a: State)
    requires d != ZR
    ensures Exec(LoadImm64(d, v), a) == Set(a, d, v)
  {
    hide Lsl, Lsr, Low, Pow2;
    Zero(v);
    Zero(v % 0x1_0000);
    if v <= 0xffff {
      Exec1(MOVZ(d, v, 0), a);
    } else {
      MoveChunksOk(d, v, 0, true, a);
    }
  }

  lemma LoadImmOk(d: Reg, v: Word, s: Size, a: State)
    requires d != ZR && v < Cap(s)
    ensures Exec(LoadImm(d, v, s), a) == Set(a, d, v)
  {
    hide Lsl, Low, Lsr, Exec, Set, Get, LoadImm64;
    if s == S64 {
      LoadImm64Ok(d, v, a);
    } else if v <= 0xffff {
      Exec1(MOVZ(d, v, 0), a);
      StepMovz(a, d, v);
    } else {
      var low, hi := v % 0x1_0000, v / 0x1_0000;
      var i, j := MOVZ(d, low, 0), MOVK(d, hi, 16);
      StepMovz(a, d, low);
      GetSet(a, d, low, v);
      Pow2Consts();
      InsertAbove(low, hi, 16);
      Const16(hi);
      Exec2(i, j, a);
      assert [i] + [j] == [i, j];
    }
  }

  // ---- addresses --------------------------------------------------------------------------

  function BaseIndexVal(m: MemRef, r: Regs): int
    requires m.Sum?
  {
    (if m.base.Some? then r[m.base.value] else 0) + (if m.index.Some? then Scaled(r[m.index.value], m.scale) else 0)
  }

  lemma BaseIndexOk(m: MemRef, t: Scratch, a: State)
    requires m.Sum? && LegalRef(m)
    ensures Exec(BaseIndex(m, t), a) == Set(a, T(t), Trunc(BaseIndexVal(m, a.g), S64))
  {
    hide Lsl, Trunc, Step, Exec, Scaled, Set;
    if m.base.Some? {
      var g := m.base.value;
      var v := a.g[g];
      var mov := MOV(S64, T(t), G(g));
      StepMov(a, S64, T(t), G(g));
      if m.index.Some? {
        AddIndexOk(m.index.value, m.scale, t, v, a);
        Exec2(mov, ADDSUB(false, false, S64, T(t), T(t), Sh(G(m.index.value), m.scale)), a);
        assert BaseIndex(m, t) == [mov, ADDSUB(false, false, S64, T(t), T(t), Sh(G(m.index.value), m.scale))];
      } else {
        Exec1(mov, a);
        assert BaseIndex(m, t) == [mov];
      }
    } else if m.index.Some? {
      var v := a.g[m.index.value];
      var lsl := SHIFT(LSL, S64, T(t), G(m.index.value), ByLit(m.scale));
      Exec1(lsl, a);
      StepShift(a, LSL, S64, T(t), G(m.index.value), m.scale);
      TruncSmall(v, S64);
      ScaledOk(v, m.scale);
      assert BaseIndex(m, t) == [lsl];
    } else {
      Exec1(MOVZ(T(t), 0, 0), a);
      StepMovz(a, T(t), 0);
      TruncSmall(0, S64);
      assert BaseIndex(m, t) == [MOVZ(T(t), 0, 0)];
    }
  }

  lemma AddIndexOk(g: Gpr, scale: nat, t: Scratch, v: Word, a: State)
    requires scale <= 3
    ensures Step(ADDSUB(false, false, S64, T(t), T(t), Sh(G(g), scale)), Set(a, T(t), Trunc(v, S64)))
         == Set(a, T(t), Trunc(v + Scaled(a.g[g], scale), S64))
  {
    hide Lsl, Trunc, Step, Scaled;
    var b := Set(a, T(t), Trunc(v, S64));
    StepAddSub(b, false, S64, T(t), T(t), Sh(G(g), scale));
    ScaledOk(a.g[g], scale);
    TruncAdd(v, Lsl(a.g[g], scale), S64);
    TruncAdd(v, Trunc(Lsl(a.g[g], scale), S64), S64);
  }

  lemma ScaledOk(v: Word, k: nat)
    requires k <= 3
    ensures Lsl(v, k) == Scaled(v, k)
  {
    hide Lsl;
    Consts(v);
  }

  lemma DisplaceOk(disp: int, t: Scratch, a: State)
    requires t == X16 || t == X17
    requires -0x8000_0000 <= disp < 0x8000_0000
    ensures var b := Exec(Displace(disp, t), a);
      b == Addressed(a, b, t, Trunc(Peek(a.x, t) + disp, S64))
  {
    hide Lsl, Lsr, Trunc, Exec, Step, LoadImm64;
    var v := Peek(a.x, t);
    if disp == 0 {
      ExecNil(a);
      TruncSmall(v, S64);
    } else if -4095 <= disp <= 4095 {
      var k: nat := if disp < 0 then -disp else disp;
      StepAddSub(a, disp < 0, S64, T(t), T(t), Lit(k));
      LitOk(a, k, S64);
      Exec1(ADDSUB(disp < 0, false, S64, T(t), T(t), Lit(k)), a);
    } else {
      var k := Trunc(disp, S64);
      var add := ADDSUB(false, false, S64, T(t), T(t), Sh(T(X7), 0));
      var b := Set(a, T(X7), k);
      LoadImm64Ok(T(X7), k, a);
      ExecCat(LoadImm64(T(X7), k), [add], a);
      Exec1(add, b);
      RhsPlain(b, T(X7), S64);
      StepAddSub(b, false, S64, T(t), T(t), Sh(T(X7), 0));
      TruncAdd(disp, 0, S64);
      TruncAdd(v, disp, S64);
    }
  }

  /** computeEffAddr computes base + index * scale + displacement modulo 2^64; it writes the
      target register, x7 and nothing else. */
  lemma AddrOk(m: MemRef, t: Scratch, a: State)
    requires LegalRef(m) && (t == X16 || t == X17)
    ensures var b := Exec(AddrCode(m, t), a);
      b == Addressed(a, b, t, EffAddr(m, a.g))
  {
    hide Exec, Trunc, LoadImm64, BaseIndex, Displace;
    match m
    case Rip(target) =>
      LoadImm64Ok(T(t), target, a);
    case Sum(_, _, _, disp) =>
      var v := BaseIndexVal(m, a.g);
      BaseIndexOk(m, t, a);
      ExecCat(BaseIndex(m, t), Displace(disp, t), a);
      DisplaceOk(disp, t, Set(a, T(t), Trunc(v, S64)));
      TruncAdd(v, disp, S64);
  }

  // ---- loads and write-backs ----------------------------------------------------------------

  lemma MaskOk(g: Word, s: Size)
    requires s == S8 || s == S16
    ensures Logical(AND, Trunc(g, S32), Cap(s) - 1, S32) == Trunc(g, s)
  {
    hide Bw, Low, Pow2, Trunc;
    CapPow2(s);
    AndMask(Trunc(g, S32), Bits(s));
    TruncLow(Trunc(g, S32), s);
    TruncTrunc(g, s, S32);
    TruncBound(g, s);
    TruncSmall(Trunc(g, s), S32);
  }

  lemma HighByte(g: Word)
    ensures Trunc(Field(g, 8, 8), S64) == (g / 0x100) % 0x100
  {
    hide Lsr, Low;
    LsrConsts(g);
    TruncLow(g / 0x100, S8);
  }

  /** readRegTo leaves the operand zero-extended in the scratch register. */
  lemma ReadRegOk(o: X86.Operand, s: Size, t: Scratch, a: State, x: X86.State)
    requires Agree(x, a) && X86.LegalOperand(o, s) && (o.Reg? || o.High?)
    ensures Exec(ReadReg(o, s, T(t)), a) == Set(a, T(t), X86.Val(x, o, s))
  {
    hide Logical, Field, Trunc;
    var i := ReadReg(o, s, T(t))[0];
    Exec1(i, a);
    if o.High? {
      HighByte(a.g[o.g]);
    } else if !Wide(s) {
      MaskOk(a.g[o.g], s);
      TruncSmall(Cap(s) - 1, S32);
    }
  }

  lemma InsertLow(was: Word, n: Word, s: Size)
    requires s == S8 || s == S16
    ensures Insert(was, n, 0, Bits(s)) == Merge(was, Trunc(n, s), s)
  {
    hide Lsl, Lsr, Low;
    Zero(was);
    Zero(Low(was, Bits(s)));
    Zero(Low(n, Bits(s)));
    TruncLow(was, s);
    TruncLow(n, s);
  }

  lemma InsertHigh(was: Word, n: Word)
    ensures Insert(was, n, 8, 8) == MergeHigh(was, n)
  {
    hide Lsl, Lsr, Low, MergeHigh;
    LsrConsts(was);
    TruncLow(was / 0x100, S8);
    TruncLow(n, S8);
    Const8((was / 0x100) % 0x100);
    Const8(n % 0x100);
    Middle(was, n % 0x100);
    MergeHighTrunc(was, n);
  }

  lemma Middle(was: Word, b: Byte)
    ensures Trunc(was - 0x100 * ((was / 0x100) % 0x100) + 0x100 * b, S64) == MergeHigh(was, b)
  {
    TruncSmall(MergeHigh(was, b), S64);
  }

  lemma MergeTrunc(was: Word, v: Word, s: Size)
    ensures Merge(was, Trunc(v, s), s) == Merge(was, v, s)
  {
  }

  /** writeRegFrom merges the low bits of r into the guest register. */
  lemma WriteRegOk(o: X86.Operand, s: Size, r: Reg, a: State, x: X86.State, v: Word)
    requires Agree(x, a) && X86.LegalOperand(o, s) && (o.Reg? || o.High?)
    requires Trunc(Get(a, r), s) == Trunc(v, s)
    ensures Exec(WriteReg(o, s, r), a) == a.(g := X86.Put(x, o, v, s).regs)
  {
    hide Insert, Trunc, Merge, MergeHigh;
    var was, n := a.g[o.g], Get(a, r);
    Exec1(WriteReg(o, s, r)[0], a);
    MergeTrunc(was, v, s);
    MergeTrunc(was, n, s);
    if o.High? {
      InsertHigh(was, n);
      MergeHighTrunc(was, n);
      MergeHighTrunc(was, v);
    } else if !Wide(s) {
      InsertLow(was, n, s);
    } else {
      WideMerge(was, n, s);
    }
  }

  lemma MergeHighTrunc(was: Word, v: Word)
    ensures MergeHigh(was, v) == MergeHigh(was, Trunc(v, S8))
  {
  }

  lemma WideMerge(was: Word, v: Word, s: Size)
    requires Wide(s)
    ensures Merge(was, v, s) == Trunc(v, s)
  {
  }

  /** readMemTo */
  lemma ReadMemOk(m: MemRef, s: Size, t: Scratch, a: State)
    requires LegalRef(m)
    ensures var b := Exec(ReadMem(m, s, T(t)), a); var addr := EffAddr(m, a.g);
      b == a.(x := Poke(a.x.(x7 := b.x.x7, x16 := addr), t, Load(a.mem, addr, s))) || t == X7
  {
    hide AddrCode, EffAddr;
    AddrOk(m, X16, a);
    ExecCat(AddrCode(m, X16), [LDR(s, T(t), T(X16))], a);
    Exec1(LDR(s, T(t), T(X16)), Exec(AddrCode(m, X16), a));
  }

  /** The state after LoadDst: x17 holds the operand unless it is a pinned register, x16 a memory
      operand's address. */
  function AfterLoad(d: X86.Operand, s: Size, x: X86.State, a: State, x7: Word): State {
    if d.Mem? then a.(x := a.x.(x7 := x7, x16 := EffAddr(d.m, x.regs), x17 := X86.Val(x, d, s)))
    else if d.Reg? && Wide(s) then a
    else a.(x := a.x.(x17 := X86.Val(x, d, s)))
  }

  lemma ValBound(x: X86.State, o: X86.Operand, s: Size)
    requires X86.LegalOperand(o, s)
    ensures X86.Val(x, o, s) < Cap(s)
  {
  }

  lemma LoadDstOk(d: X86.Operand, s: Size, a: State, x: X86.State)
    requires Agree(x, a) && X86.LegalDst(d, s)
    ensures var l := LoadDst(d, s); var b := Exec(l.code, a);
      && b == AfterLoad(d, s, x, a, b.x.x7)
      && Read(b, l.r, Wd(s)) == X86.Val(x, d, s)
      && (if d.Reg? && Wide(s) then l.r == G(d.g) else l.r == T(X17) && Get(b, l.r) == X86.Val(x, d, s))
  {
    hide ReadMem, ReadReg, Trunc, EffAddr, Exec, Load;
    ValBound(x, d, s);
    TruncSmall(X86.Val(x, d, s), Wd(s));
    match d
    case Mem(m) => ReadMemOk(m, s, X17, a);
    case Reg(_) => if !Wide(s) { ReadRegOk(d, s, X17, a, x); } else { assert Exec([], a) == a by { ExecNil(a); } }
    case High(_) => ReadRegOk(d, s, X17, a, x);
  }

  /** LoadDstOk without the load address scratch: x0 to x6 are kept. */
  lemma LoadDstFrame(d: X86.Operand, s: Size, a: State, x: X86.State)
    requires Agree(x, a) && X86.LegalDst(d, s)
    ensures var l := LoadDst(d, s); var b := Exec(l.code, a);
      && b == a.(x := a.x.(x7 := b.x.x7, x16 := b.x.x16, x17 := b.x.x17))
      && (d.Mem? ==> b.x.x16 == EffAddr(d.m, x.regs))
      && X86.Val(x, d, s) < Cap(s) && Read(b, l.r, Wd(s)) == X86.Val(x, d, s)
      && (if d.Reg? && Wide(s) then l.r == G(d.g) else l.r == T(X17) && Get(b, l.r) == X86.Val(x, d, s))
  {
    hide Exec, Trunc, EffAddr, X86.Val, LoadDst;
    LoadDstOk(d, s, a, x);
    ValBound(x, d, s);
  }

  lemma ExecNil(a: State)
    ensures Exec([], a) == a
  {
  }

  /** b differs from a in t and x7 only, and the right-hand side m is worth v at width w. */
  ghost predicate Sourced(a: State, b: State, t: Scratch, m: Rhs, v: Word, s: Size) {
    && b == a.(x := Poke(a.x.(x7 := b.x.x7), t, Peek(b.x, t)))
    && RhsVal(b, m, Wd(s)) == v
    && (!Wide(s) ==> m == Sh(T(t), 0) && Peek(b.x, t) == v)
  }

  lemma SourcedReg(a: State, b: State, t: Scratch, v: Word, s: Size)
    requires v < Cap(s) && Peek(b.x, t) == v
    requires b == a.(x := Poke(a.x.(x7 := b.x.x7), t, v))
    ensures Sourced(a, b, t, Sh(T(t), 0), v, s)
  {
    hide Trunc;
    RhsPlain(b, T(t), Wd(s));
    TruncSmall(v, Wd(s));
  }

  /** arithOperand: the right-hand side evaluates to the operand; only t and x7 change. */
  lemma ArithOperandOk(o: X86.Operand, s: Size, t: Scratch, immOk: bool, a: State, x: X86.State)
    requires Agree(x, a) && X86.LegalOperand(o, s)
    requires t == X16 || (t == X0 && !o.Mem?)
    ensures var c := ArithOperand(o, s, t, immOk);
      Sourced(a, Exec(c.code, a), t, c.m, X86.Val(x, o, s), s)
  {
    hide ReadMem, ReadReg, Trunc, EffAddr, Exec, Load, LoadImm, RhsVal;
    var c := ArithOperand(o, s, t, immOk);
    var b, v := Exec(c.code, a), X86.Val(x, o, s);
    ValBound(x, o, s);
    if (o.Imm? && c.m.Lit?) || (o.Reg? && Wide(s)) {
      ExecNil(a);
      if o.Imm? { LitOk(a, v, Wd(s)); } else { RhsPlain(a, G(o.g), s); }
    } else {
      match o {
        case Imm(k) => LoadImmOk(T(t), v, s, a);
        case Mem(m) => ReadMemOk(m, s, t, a);
        case _ => ReadRegOk(o, s, t, a, x);
      }
      SourcedReg(a, b, t, v, s);
    }
  }

  lemma LitOk(a: State, v: Word, w: Size)
    requires v < Cap(w)
    ensures RhsVal(a, Lit(v), w) == v
  {
  }

  /** The write-back of v, computed into r from state a: the guest sees the operand written. */
  lemma StoreDstOk(d: X86.Operand, s: Size, r: Reg, a: State, x: X86.State, v: Word, res: Word)
    requires Agree(x, a) && X86.LegalDst(d, s)
    requires (r.T? && r.t != X16) || (d.Reg? && Wide(s) && r == G(d.g))
    requires (r.T? || v < Cap(Wd(s))) && Trunc(v, s) == Trunc(res, s)
    requires d.Mem? ==> a.x.x16 == EffAddr(d.m, x.regs)
    ensures var y := X86.Put(x, d, res, s);
      Exec(StoreDst(d, s, r), Set(a, r, v)) == Set(a, r, v).(g := y.regs, mem := y.mem)
  {
    hide Trunc, EffAddr, Exec, Merge, WriteReg;
    var b := Set(a, r, v);
    GetSet(a, r, v, v);
    match d
    case Mem(m) =>
      assert Store(a.mem, a.x.x16, v, s) == Store(a.mem, a.x.x16, res, s);
      Exec1(STR(s, r, T(X16)), b);
    case Reg(g) =>
      if Wide(s) && r == G(g) {
        ExecNil(b);
        WideMerge(a.g[g], res, s);
        TruncSmall(v, s);
      } else {
        WriteRegOk(d, s, r, b, x, res);
      }
    case High(_) => WriteRegOk(d, s, r, b, x, res);
  }

  /** StoreDstOk without the scratch registers. */
  lemma WriteBack(d: X86.Operand, s: Size, r: Reg, a: State, x: X86.State, v: Word, res: Word)
    requires Agree(x, a) && X86.LegalDst(d, s)
    requires (r.T? && r.t != X16) || (d.Reg? && Wide(s) && r == G(d.g))
    requires (r.T? || v < Cap(Wd(s))) && Trunc(v, s) == Trunc(res, s)
    requires d.Mem? ==> a.x.x16 == EffAddr(d.m, x.regs)
    ensures var y := X86.Put(x, d, res, s); var b := Exec(StoreDst(d, s, r), Set(a, r, v));
      b == a.(g := y.regs, mem := y.mem, x := b.x)
  {
    hide Trunc, EffAddr, Exec, X86.Put, StoreDst;
    StoreDstOk(d, s, r, a, x, v, res);
  }

  /** An operand load, a core that leaves v in r and the flags of f, and the write-back. */
  lemma Around(d: X86.Operand, s: Size, r: Reg, core: seq<Instr>, a: State, x: X86.State, f: State, v: Word, res: Word)
    requires Agree(x, a) && X86.LegalDst(d, s)
    requires (r.T? && r.t != X16) || (d.Reg? && Wide(s) && r == G(d.g))
    requires (r.T? || v < Cap(Wd(s))) && Trunc(v, s) == Trunc(res, s)
    requires var b := Exec(LoadDst(d, s).code, a);
      Exec(core, b) == Set(f, r, v) && f.g == b.g && f.mem == b.mem && f.x.x16 == b.x.x16
    ensures var y := X86.Put(x, d, res, s); var c := Exec(LoadDst(d, s).code + core + StoreDst(d, s, r), a);
      c == f.(g := y.regs, mem := y.mem, x := c.x)
  {
    hide Trunc, EffAddr, Exec, X86.Put, StoreDst, LoadDst, X86.Val, Set;
    var l := LoadDst(d, s).code;
    LoadDstOk(d, s, a, x);
    WriteBack(d, s, r, f, x, v, res);
    ExecCat(l, core, a);
    ExecCat(l + core, StoreDst(d, s, r), a);
  }
}
