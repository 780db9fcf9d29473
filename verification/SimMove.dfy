/** Lowering the condition readers, the carry-flag instructions and the moves is correct in every
    carry sense. */
module SimMove {
  import opened Words
  import opened Guest
  import X86
  import opened Arm
  import opened Lifter
  import opened Effects
  import opened Steps
  import opened Operands
  import opened Flags
  import opened Relation

  /** The flags that condition cc reads are live. */
  predicate CondLive(cc: X86.Cc, live: Live) {
    live.nz && (ConditionReads(cc).cf ==> live.cf) && (ConditionReads(cc).of ==> live.of)
  }

  /** condFor: after its code the ARM condition is the x86 condition, and the tracked sense is
      again the one C is in. */
  lemma CondForOk(cc: X86.Cc, pol: Pol, f: X86.Flags, a: State, live: Live)
    requires CondLive(cc, live) && FlagsOk(f, a, pol, live)
    ensures var t := CondFor(cc, pol); var b := Exec(t.code, a);
      && b == a.(c := b.c) && FlagsOk(f, b, t.pol, live) && Passes(t.cond, b) == X86.Holds(cc, f)
      && (pol == CarrySub ==> t.pol == CarrySub)
  {
    hide Exec, Step;
    ExecNil(a);
    Exec1(CFINV, a);
    StepInvert(a);
  }

  lemma StepInvert(a: State)
    ensures Step(CFINV, a) == a.(c := !a.c)
  {
  }

  /** normalizeCarry brings C into the block-boundary sense. */
  lemma NormalizeOk(pol: Pol, f: X86.Flags, a: State, live: Live)
    requires FlagsOk(f, a, pol, live)
    ensures var b := Exec(NormalizeCarry(pol), a);
      b == a.(c := b.c) && FlagsOk(f, b, CarrySub, live)
  {
    hide Exec, Step;
    ExecNil(a);
    Exec1(CFINV, a);
    StepInvert(a);
  }

  lemma FlagsOpSim(op: X86.FlagOp, pol: Pol, out: Live, x: X86.State, a: State)
    requires Related(x, a, pol, Before(X86.FlagsOp(op), out))
    ensures Simulated(X86.FlagsOp(op), x, a, LiftFlagsOp(op, pol), out)
  {
    hide Exec, Step;
    if op == X86.Cmc {
      Exec1(CFINV, a);
      StepInvert(a);
    } else {
      Exec1(RMIF(ZR, 0, 2), a);
      ClearC(a);
    }
  }

  lemma ClearC(a: State)
    ensures Step(RMIF(ZR, 0, 2), a) == a.(c := false)
  {
  }

  /** writeMemFrom */
  lemma WriteMemOk(m: MemRef, s: Size, r: Reg, a: State, x: X86.State, v: Word)
    requires Agree(x, a) && LegalRef(m) && (r.G? || r == T(X16) || r == T(X17))
    requires Trunc(Get(a, r), s) == Trunc(v, s)
    ensures var b := Exec(WriteMem(m, s, r), a);
      b == a.(mem := X86.Put(x, X86.Mem(m), v, s).mem, x := b.x)
  {
    hide AddrCode, EffAddr, Exec, Trunc;
    var t := if r == T(X16) then X17 else X16;
    AddrOk(m, t, a);
    var b := Exec(AddrCode(m, t), a);
    ExecCat(AddrCode(m, t), [STR(s, r, T(t))], a);
    Exec1(STR(s, r, T(t)), b);
    assert Store(a.mem, Peek(b.x, t), Get(b, r), s) == Store(a.mem, Peek(b.x, t), v, s);
  }

  lemma SetccSim(cc: X86.Cc, d: X86.Operand, pol: Pol, out: Live, x: X86.State, a: State)
    requires X86.Legal(X86.Setcc(cc, d))
    requires Related(x, a, pol, Before(X86.Setcc(cc, d), out))
    ensures Simulated(X86.Setcc(cc, d), x, a, LiftSetcc(cc, d, pol), out)
  {
    hide Exec, Step, Trunc, CondFor, WriteMem, WriteReg, X86.Put, X86.Holds, Passes, X86.Eval, Seen, B2N;
    var t := CondFor(cc, pol);
    var v := B2N(X86.Holds(cc, x.f));
    SetccEval(cc, d, x, Seen(Exec(LiftSetcc(cc, d, pol).code, a), t.pol));
    var cset := CSET(S32, T(X16), t.cond);
    CondForOk(cc, pol, x.f, a, Before(X86.Setcc(cc, d), out));
    var a1 := Exec(t.code, a);
    StepCset(a1, X16, t.cond);
    Exec1(cset, a1);
    ExecCat(t.code, [cset], a);
    var a2 := Set(a1, T(X16), v);
    PutFrame(x, d, v, S8);
    if d.Mem? {
      WriteMemOk(d.m, S8, T(X16), a2, x, v);
      ExecCat(t.code + [cset], WriteMem(d.m, S8, T(X16)), a);
    } else {
      WriteRegOk(d, S8, T(X16), a2, x, v);
      ExecCat(t.code + [cset], WriteReg(d, S8, T(X16)), a);
    }
  }

  lemma SetccEval(cc: X86.Cc, d: X86.Operand, x: X86.State, u: X86.Flags)
    ensures X86.Eval(X86.Setcc(cc, d), x, u) == X86.Put(x, d, B2N(X86.Holds(cc, x.f)), S8)
  {
    hide X86.Put, X86.Holds, B2N;
  }

  lemma PutFrame(x: X86.State, d: X86.Operand, v: Word, s: Size)
    ensures X86.Put(x, d, v, s).f == x.f
    ensures if d.Mem? then X86.Put(x, d, v, s).regs == x.regs else X86.Put(x, d, v, s).mem == x.mem
  {
  }

  lemma CmovSource(s: Size, o: X86.Operand, a: State, x: X86.State)
    requires Agree(x, a) && X86.LegalOperand(o, s) && s != S8 && !o.Imm?
    ensures var src := if o.Mem? then T(X16) else if o.Reg? then G(o.g) else ZR;
      var b := Exec(if o.Mem? then ReadMem(o.m, s, T(X16)) else [], a);
      b == a.(x := b.x) && Trunc(Get(b, src), s) == X86.Val(x, o, s)
  {
    hide Exec, Trunc, ReadMem, EffAddr, Load;
    ExecNil(a);
    ValBound(x, o, s);
    TruncSmall(X86.Val(x, o, s), s);
    if o.Mem? { ReadMemOk(o.m, s, X16, a); }
  }

  /** The loads and the conditional write; f is the guest flags the condition stands for. */
  lemma CmovExec(s: Size, g: Gpr, o: X86.Operand, cond: Cond, holds: bool, a: State, x: X86.State)
    requires Agree(x, a) && X86.LegalOperand(o, s) && s != S8 && !o.Imm? && Passes(cond, a) == holds
    ensures var src := if o.Mem? then T(X16) else if o.Reg? then G(o.g) else ZR;
      var ld := if o.Mem? then ReadMem(o.m, s, T(X16)) else [];
      var wr := if Wide(s) then [CSEL(s, G(g), src, G(g), cond)]
        else [CSEL(S32, T(X16), src, G(g), cond), BFI(G(g), T(X16), 0, 16)];
      var v := if holds then X86.Val(x, o, s) else Trunc(x.regs[g], s);
      var b := Exec(ld + wr, a);
      b == a.(g := X86.Put(x, X86.Reg(g), v, s).regs, x := b.x)
  {
    hide Exec, Step, Trunc, ReadMem, Passes, X86.Val, Merge, X86.Put;
    var ld := if o.Mem? then ReadMem(o.m, s, T(X16)) else [];
    var src := if o.Mem? then T(X16) else if o.Reg? then G(o.g) else ZR;
    var wr := if Wide(s) then [CSEL(s, G(g), src, G(g), cond)]
      else [CSEL(S32, T(X16), src, G(g), cond), BFI(G(g), T(X16), 0, 16)];
    CmovSource(s, o, a, x);
    var b := Exec(ld, a);
    PassesSame(a, b, cond);
    ValBound(x, o, s);
    TruncBound(x.regs[g], s);
    CmovWrite(s, g, src, cond, b, x, if holds then X86.Val(x, o, s) else Trunc(x.regs[g], s));
    ExecCat(ld, wr, a);
  }

  lemma CmovccSim(cc: X86.Cc, s: Size, g: Gpr, o: X86.Operand, pol: Pol, out: Live, x: X86.State, a: State)
    requires X86.Legal(X86.Cmovcc(cc, s, g, o))
    requires Related(x, a, pol, Before(X86.Cmovcc(cc, s, g, o), out))
    ensures Simulated(X86.Cmovcc(cc, s, g, o), x, a, LiftCmovcc(cc, s, g, o, pol), out)
  {
    hide Exec, Trunc, CondFor, ReadMem, X86.Holds, Passes, X86.Val, X86.Put, X86.Eval, Seen;
    var t := CondFor(cc, pol);
    CmovEval(cc, s, g, o, x, Seen(Exec(LiftCmovcc(cc, s, g, o, pol).code, a), t.pol));
    CondForOk(cc, pol, x.f, a, Before(X86.Cmovcc(cc, s, g, o), out));
    var a1 := Exec(t.code, a);
    var holds := X86.Holds(cc, x.f);
    CmovExec(s, g, o, t.cond, holds, a1, x);
    var src := if o.Mem? then T(X16) else if o.Reg? then G(o.g) else ZR;
    var ld := if o.Mem? then ReadMem(o.m, s, T(X16)) else [];
    var wr := if Wide(s) then [CSEL(s, G(g), src, G(g), t.cond)]
      else [CSEL(S32, T(X16), src, G(g), t.cond), BFI(G(g), T(X16), 0, 16)];
    ExecCat(t.code, ld + wr, a);
    assert t.code + ld + wr == t.code + (ld + wr);
    PutFrame(x, X86.Reg(g), if holds then X86.Val(x, o, s) else Trunc(x.regs[g], s), s);
  }

  lemma CmovEval(cc: X86.Cc, s: Size, g: Gpr, o: X86.Operand, x: X86.State, u: X86.Flags)
    ensures X86.Eval(X86.Cmovcc(cc, s, g, o), x, u)
         == X86.Put(x, X86.Reg(g), if X86.Holds(cc, x.f) then X86.Val(x, o, s) else Trunc(x.regs[g], s), s)
  {
    hide X86.Put, X86.Val, X86.Holds, Trunc;
  }

  lemma PassesSame(a: State, b: State, cond: Cond)
    requires b == a.(x := b.x)
    ensures Passes(cond, a) == Passes(cond, b)
  {
  }

  /** CSEL and the write of the destination. */
  lemma CmovWrite(s: Size, g: Gpr, src: Reg, cond: Cond, a: State, x: X86.State, v: Word)
    requires Agree(x, a) && s != S8 && v < Cap(s)
    requires v == if Passes(cond, a) then Trunc(Get(a, src), s) else Trunc(a.g[g], s)
    ensures var wr := if Wide(s) then [CSEL(s, G(g), src, G(g), cond)]
      else [CSEL(S32, T(X16), src, G(g), cond), BFI(G(g), T(X16), 0, 16)];
      var b := Exec(wr, a);
      b == a.(g := X86.Put(x, X86.Reg(g), v, s).regs, x := b.x)
  {
    hide Exec, Trunc, Passes, Merge, Insert;
    var r := if Passes(cond, a) then Get(a, src) else a.g[g];
    TruncSmall(v, s);
    if Wide(s) {
      WideMerge(a.g[g], v, s);
      Exec1(CSEL(s, G(g), src, G(g), cond), a);
    } else {
      var i, j := CSEL(S32, T(X16), src, G(g), cond), BFI(G(g), T(X16), 0, 16);
      Exec2(i, j, a);
      TruncTrunc(r, s, S32);
      InsertLow(a.g[g], Trunc(r, S32), S16);
    }
  }

  lemma LeaSim(s: Size, g: Gpr, m: MemRef, pol: Pol, out: Live, x: X86.State, a: State)
    requires X86.Legal(X86.Lea(s, g, m))
    requires Related(x, a, pol, Before(X86.Lea(s, g, m), out))
    ensures Simulated(X86.Lea(s, g, m), x, a, Lowered(LiftLea(s, g, m), pol), out)
  {
    hide Exec, Step, Trunc, AddrCode, WriteReg, EffAddr, X86.Put;
    AddrOk(m, X16, a);
    var a1 := Exec(AddrCode(m, X16), a);
    WriteRegOk(X86.Reg(g), s, T(X16), a1, x, EffAddr(m, x.regs));
    ExecCat(AddrCode(m, X16), WriteReg(X86.Reg(g), s, T(X16)), a);
    PutFrame(x, X86.Reg(g), EffAddr(m, x.regs), s);
  }

  // ---- MOV ---------------------------------------------------------------------------------

  lemma MovToMem(s: Size, m: MemRef, o: X86.Operand, x: X86.State, a: State)
    requires Agree(x, a) && LegalRef(m) && X86.LegalOperand(o, s) && !o.Mem?
    ensures var b := Exec(LiftMov(s, X86.Mem(m), o), a);
      b == a.(mem := X86.Put(x, X86.Mem(m), X86.Val(x, o, s), s).mem, x := b.x)
  {
    hide Exec, Step, Trunc, WriteMem, LoadImm, ReadReg, X86.Put;
    var v := X86.Val(x, o, s);
    ValBound(x, o, s);
    match o
    case Imm(k) =>
      LoadImmOk(T(X17), v, s, a);
      WriteMemOk(m, s, T(X17), Set(a, T(X17), v), x, v);
      ExecCat(LoadImm(T(X17), v, s), WriteMem(m, s, T(X17)), a);
    case Reg(g) =>
      TruncAdd(a.g[g], 0, s);
      WriteMemOk(m, s, G(g), a, x, v);
    case High(_) =>
      ReadRegOk(o, s, X17, a, x);
      WriteMemOk(m, s, T(X17), Set(a, T(X17), v), x, v);
      ExecCat(ReadReg(o, s, T(X17)), WriteMem(m, s, T(X17)), a);
  }

  lemma MovToWide(s: Size, g: Gpr, o: X86.Operand, x: X86.State, a: State)
    requires Agree(x, a) && X86.LegalOperand(o, s) && Wide(s)
    ensures var b := Exec(LiftMov(s, X86.Reg(g), o), a);
      b == a.(g := X86.Put(x, X86.Reg(g), X86.Val(x, o, s), s).regs, x := b.x)
  {
    hide Exec, Step, Trunc, LoadImm, Merge, AddrCode, EffAddr, Load;
    var v := X86.Val(x, o, s);
    ValBound(x, o, s);
    TruncSmall(v, s);
    WideMerge(a.g[g], v, s);
    match o
    case Imm(k) => LoadImmOk(G(g), v, s, a);
    case Reg(h) => StepMov(a, s, G(g), G(h)); Exec1(MOV(s, G(g), G(h)), a);
    case Mem(m) =>
      AddrOk(m, X16, a);
      var a1 := Exec(AddrCode(m, X16), a);
      var ldr := LDR(s, G(g), T(X16));
      Exec1(ldr, a1);
      StepLdr(a1, s, G(g), X16);
      ExecCat(AddrCode(m, X16), [ldr], a);
  }

  lemma StepLdr(a: State, s: Size, d: Reg, t: Scratch)
    ensures Step(LDR(s, d, T(t)), a) == Set(a, d, Load(a.mem, Peek(a.x, t), s))
  {
    hide Set;
  }

  lemma MovToNarrow(s: Size, d: X86.Operand, o: X86.Operand, x: X86.State, a: State)
    requires Agree(x, a) && X86.LegalDst(d, s) && !d.Mem? && !Wide(s) && X86.LegalOperand(o, s)
    ensures var b := Exec(LiftMov(s, d, o), a);
      b == a.(g := X86.Put(x, d, X86.Val(x, o, s), s).regs, x := b.x)
  {
    hide Exec, Step, Trunc, ReadReg, WriteReg, ReadMem, EffAddr, Load, X86.Put;
    var v := X86.Val(x, o, s);
    ValBound(x, o, s);
    var ld := match o case Imm(k) => [MOVZ(T(X16), Trunc(k, s), 0)] case Mem(m) => ReadMem(m, s, T(X16)) case _ =>
      ReadReg(o, s, T(X16));
    match o {
      case Imm(k) => StepMovz(a, T(X16), v); Exec1(MOVZ(T(X16), v, 0), a);
      case Mem(m) => ReadMemOk(m, s, X16, a);
      case _ => ReadRegOk(o, s, X16, a, x);
    }
    var a1 := Exec(ld, a);
    assert a1.x.x16 == v;
    WriteRegOk(d, s, T(X16), a1, x, v);
    ExecCat(ld, WriteReg(d, s, T(X16)), a);
  }

  lemma MovSim(s: Size, d: X86.Operand, o: X86.Operand, pol: Pol, out: Live, x: X86.State, a: State)
    requires X86.Legal(X86.Mov(s, d, o))
    requires Related(x, a, pol, Before(X86.Mov(s, d, o), out))
    ensures Simulated(X86.Mov(s, d, o), x, a, Lowered(LiftMov(s, d, o), pol), out)
  {
    hide Exec, LiftMov, X86.Put, X86.Val;
    PutFrame(x, d, X86.Val(x, o, s), s);
    if d.Mem? {
      MovToMem(s, d.m, o, x, a);
    } else if Wide(s) {
      MovToWide(s, d.g, o, x, a);
    } else {
      MovToNarrow(s, d, o, x, a);
    }
  }
}
