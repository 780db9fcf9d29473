/** The string instructions and their REP forms (arm64_lifter_string.go), with the direction flag
    clear: the emitted code, counting loops included, does what the element-by-element instructions do
    for any count and overlapping buffers. */
module RepStrings {
  import opened Words
  import opened Guest
  import X86
  import opened Arm
  import opened Lifter
  import opened Effects
  import opened Steps
  import opened Operands
  import opened Flags
  import opened Relation
  import opened SimShift
  import SimArith
  import SimMove
  import LockedSim

  const RSI: Gpr := 6
  const RDI: Gpr := 7

  datatype StringOp = Movs | Stos | Scas | Cmps

  predicate Compares(op: StringOp) { op == Scas || op == Cmps }

  // ---- the guest -----------------------------------------------------------------------------------

  /** A pointer behind its element. */
  function Advance(r: Regs, g: Gpr, s: Size): Regs { r[g := Trunc(Bits(s) / 8 + (r[g] as int), S64)] }

  /** One element. */
  function Element(op: StringOp, s: Size, x: X86.State): X86.State {
    var r := x.regs;
    match op
    case Movs => X86.State(Advance(Advance(r, RSI, s), RDI, s), Store(x.mem, r[RDI], Load(x.mem, r[RSI], s), s), x.f)
    case Stos => X86.State(Advance(r, RDI, s), Store(x.mem, r[RDI], r[RAX], s), x.f)
    case Scas => X86.State(Advance(r, RDI, s), x.mem, X86.SubFlags(Trunc(r[RAX], s), Load(x.mem, r[RDI], s), 0, s))
    case Cmps =>
      X86.State(Advance(Advance(r, RSI, s), RDI, s), x.mem,
        X86.SubFlags(Load(x.mem, r[RSI], s), Load(x.mem, r[RDI], s), 0, s))
  }

  /** REP, or REPE and REPNE, which stop when ZF is not what they wait for. */
  datatype Rep = Always | While(equal: bool)

  predicate Stops(op: StringOp, rep: Rep, f: X86.Flags) { Compares(op) && rep.While? && f.zf != rep.equal }

  function CountDown(x: X86.State): X86.State
    requires x.regs[RCX] > 0
  {
    x.(regs := x.regs[RCX := x.regs[RCX] - 1])
  }

  /** The repeated instruction, element by element. */
  function RepRun(op: StringOp, s: Size, rep: Rep, x: X86.State): X86.State
    decreases x.regs[RCX]
  {
    if x.regs[RCX] == 0 then x
    else
      var y := CountDown(Element(op, s, x));
      if Stops(op, rep, y.f) then y else RepRun(op, s, rep, y)
  }

  // ---- the host -------------------------------------------------------------------------------------

  /** The immediate of the pointer steps. */
  function Width(s: Size): nat { match s case S8 => 1 case S16 => 2 case S32 => 4 case S64 => 8 }

  function Bump(g: Gpr, s: Size): Instr { ADDSUB(false, false, S64, G(g), G(g), Lit(Width(s))) }

  const Drop: Instr := ADDSUB(true, false, S64, G(RCX), G(RCX), Lit(1))

  /** strCompare */
  function StrCompare(s: Size, l: Reg, r: Reg): seq<Instr> {
    if Wide(s) then [ADDSUB(true, true, s, ZR, l, Sh(r, 0))]
    else [SHIFT(LSL, S32, T(X4), l, ByLit(TopShift(s))), ADDSUB(true, true, S32, ZR, T(X4), Sh(r, TopShift(s)))]
  }

  /** The loads and stores of one element, and the registers it moves. */
  function Moves(op: StringOp, s: Size): seq<Instr> {
    match op
    case Movs => [LDR(s, T(X16), G(RSI)), STR(s, T(X16), G(RDI)), Bump(RSI, s), Bump(RDI, s)]
    case Stos => [STR(s, G(RAX), G(RDI)), Bump(RDI, s)]
    case Scas => [LDR(s, T(X16), G(RDI)), Bump(RDI, s)]
    case Cmps => [LDR(s, T(X16), G(RSI)), LDR(s, T(X17), G(RDI)), Bump(RSI, s), Bump(RDI, s)]
  }

  function Compare(op: StringOp, s: Size): seq<Instr> {
    match op
    case Scas => StrCompare(s, G(RAX), T(X16))
    case Cmps => StrCompare(s, T(X16), T(X17))
    case _ => []
  }

  lemma StepBump(a: State, g: Gpr, s: Size)
    ensures Step(Bump(g, s), a) == a.(g := Advance(a.g, g, s))
  {
    hide Step, Trunc;
    LitOk(a, Width(s), S64);
    StepAddSub(a, false, S64, G(g), G(g), Lit(Width(s)));
  }

  lemma StepDrop(a: State)
    requires a.g[RCX] > 0
    ensures Step(Drop, a) == a.(g := a.g[RCX := a.g[RCX] - 1])
  {
    hide Step, Trunc;
    LitOk(a, 1, S64);
    StepAddSub(a, true, S64, G(RCX), G(RCX), Lit(1));
    TruncSmall(a.g[RCX] - 1, S64);
  }

  lemma StepLoad(a: State, s: Size, t: Scratch, g: Gpr)
    ensures Step(LDR(s, T(t), G(g)), a) == Set(a, T(t), Load(a.mem, a.g[g], s))
  {
    hide Set;
  }

  lemma StepStore(a: State, s: Size, r: Reg, g: Gpr)
    ensures Step(STR(s, r, G(g)), a) == a.(mem := Store(a.mem, a.g[g], Get(a, r), s))
  {
    hide StoreBytes, Trunc;
    assert Get(a, G(g)) == a.g[g];
  }

  /** The elements in x16 and x17 after the loads. */
  ghost predicate Fetched(op: StringOp, s: Size, x: X86.State, b: State) {
    && (op == Scas ==> b.x.x16 == Load(x.mem, x.regs[RDI], s))
    && (op == Cmps ==> b.x.x16 == Load(x.mem, x.regs[RSI], s) && b.x.x17 == Load(x.mem, x.regs[RDI], s))
  }

  lemma MovesOk(op: StringOp, s: Size, x: X86.State, a: State)
    requires Agree(x, a)
    ensures var b := Exec(Moves(op, s), a); var y := Element(op, s, x);
      b == a.(g := y.regs, mem := y.mem, x := b.x) && Fetched(op, s, x, b)
  {
    hide Exec, Step, Load, Store, Advance, X86.SubFlags;
    match op
    case Movs =>
      var a1 := a.(x := a.x.(x16 := Load(a.mem, a.g[RSI], s)));
      var a2 := a1.(mem := Store(a.mem, a.g[RDI], a1.x.x16, s));
      var a3 := a2.(g := Advance(a.g, RSI, s));
      StepLoad(a, s, X16, RSI);
      StepStore(a1, s, T(X16), RDI);
      StepBump(a2, RSI, s);
      StepBump(a3, RDI, s);
      Exec4(LDR(s, T(X16), G(RSI)), STR(s, T(X16), G(RDI)), Bump(RSI, s), Bump(RDI, s), a);
    case Stos =>
      StepStore(a, s, G(RAX), RDI);
      StepBump(a.(mem := Store(a.mem, a.g[RDI], a.g[RAX], s)), RDI, s);
      Exec2(STR(s, G(RAX), G(RDI)), Bump(RDI, s), a);
    case Scas =>
      StepLoad(a, s, X16, RDI);
      StepBump(a.(x := a.x.(x16 := Load(a.mem, a.g[RDI], s))), RDI, s);
      Exec2(LDR(s, T(X16), G(RDI)), Bump(RDI, s), a);
    case Cmps =>
      var a1 := a.(x := a.x.(x16 := Load(a.mem, a.g[RSI], s)));
      var a2 := a1.(x := a1.x.(x17 := Load(a.mem, a.g[RDI], s)));
      var a3 := a2.(g := Advance(a.g, RSI, s));
      StepLoad(a, s, X16, RSI);
      StepLoad(a1, s, X17, RDI);
      StepBump(a2, RSI, s);
      StepBump(a3, RDI, s);
      Exec4(LDR(s, T(X16), G(RSI)), LDR(s, T(X17), G(RDI)), Bump(RSI, s), Bump(RDI, s), a);
  }

  /** Flags of l - r at the operand size, in the subtract sense. */
  lemma StrCompareOk(s: Size, l: Reg, r: Scratch, a: State, p: Word, q: Word)
    requires (l == G(RAX) || l == T(X16)) && (r == X16 || r == X17)
    requires Trunc(Get(a, l), s) == p && Peek(a.x, r) == q && q < Cap(s) && (l.T? ==> Get(a, l) == p)
    ensures var b := Exec(StrCompare(s, l, T(r)), a);
      b == WithFlags(a, X86.SubFlags(p, q, 0, s), CarrySub).(x := b.x)
  {
    hide Exec, Step, Trunc, RhsVal, X86.SubFlags, WithFlags, Get;
    TruncBound(Get(a, l), s);
    FlagsX(a, X86.SubFlags(p, q, 0, s));
    if Wide(s) {
      GetT(a, r);
      RhsPlain(a, T(r), s);
      TruncSmall(q, s);
      StepSums(a, true, s, ZR, l, Sh(T(r), 0), p, q);
      Exec1(ADDSUB(true, true, s, ZR, l, Sh(T(r), 0)), a);
    } else {
      StrNarrow(s, l, r, a, p, q);
    }
  }

  lemma FlagsX(a: State, f: X86.Flags)
    ensures WithFlags(a, f, CarrySub).x == a.x && WithFlags(a, f, CarrySub).(x := a.x) == WithFlags(a, f, CarrySub)
  {
  }

  lemma StrNarrow(s: Size, l: Reg, r: Scratch, a: State, p: Word, q: Word)
    requires !Wide(s) && (l == G(RAX) || l == T(X16)) && (r == X16 || r == X17)
    requires Trunc(Get(a, l), s) == p && p < Cap(s) && Peek(a.x, r) == q && q < Cap(s)
    ensures var b := Exec(StrCompare(s, l, T(r)), a);
      b == WithFlags(a, X86.SubFlags(p, q, 0, s), CarrySub).(x := b.x)
  {
    hide Exec, Step, Trunc, RhsVal, X86.SubFlags, Lsl, Shifted, Get;
    var sh := TopShift(s);
    var p', q' := Lsl(p, sh), Lsl(q, sh);
    TopAligned(true, p, q, s);
    TopOperand(Get(a, l), p, s);
    StepShift(a, LSL, S32, T(X4), l, sh);
    var b := a.(x := a.x.(x4 := p'));
    GetT(b, X4);
    RhsSh(b, r, sh, S32);
    TruncSmall(p', S32);
    TruncSmall(q', S32);
    StepSums(b, true, S32, ZR, T(X4), Sh(T(r), sh), p', q');
    Exec2(SHIFT(LSL, S32, T(X4), l, ByLit(sh)), ADDSUB(true, true, S32, ZR, T(X4), Sh(T(r), sh)), a);
  }

  lemma TopOperand(v: Word, p: Word, s: Size)
    requires !Wide(s) && Trunc(v, s) == p
    ensures Lsl(p, TopShift(s)) >= 0 && Shifted(LSL, Trunc(v, S32), TopShift(s), S32) == Lsl(p, TopShift(s))
  {
    LockedSim.TopOfFull(v, s);
  }

  /** One turn of the loop: an element and the count. */
  function Body(op: StringOp, s: Size): seq<Instr> { Moves(op, s) + [Drop] + Compare(op, s) }

  lemma ElementKeeps(op: StringOp, s: Size, x: X86.State)
    ensures Element(op, s, x).regs[RCX] == x.regs[RCX] && Element(op, s, x).regs[RAX] == x.regs[RAX]
  {
    hide Load, Store, X86.SubFlags, Trunc;
  }

  /** The sense after the instruction. */
  function PolAfter(op: StringOp, pol: Pol): Pol { if Compares(op) then CarrySub else pol }

  /** One turn of the loop is one element and one less to go, in every carry sense. */
  lemma BodyOk(op: StringOp, s: Size, x: X86.State, a: State, pol: Pol, live: Live)
    requires Agree(x, a) && a.g[RCX] > 0 && FlagsOk(x.f, a, pol, live)
    ensures x.regs[RCX] > 0 && Element(op, s, x).regs[RCX] == x.regs[RCX]
    ensures var b := Exec(Body(op, s), a); var y := CountDown(Element(op, s, x));
      Agree(y, b) && FlagsOk(y.f, b, PolAfter(op, pol), live) && (Compares(op) ==> b.z == y.f.zf)
  {
    hide Exec, Step, Load, Store, Advance, X86.SubFlags, Moves, StrCompare, Trunc, WithFlags;
    ElementKeeps(op, s, x);
    MovesOk(op, s, x, a);
    var a1 := Exec(Moves(op, s), a);
    StepDrop(a1);
    Exec1(Drop, a1);
    ExecCat(Moves(op, s), [Drop], a);
    var a2 := Exec(Moves(op, s) + [Drop], a);
    ExecCat(Moves(op, s) + [Drop], Compare(op, s), a);
    CompareOk(op, s, x, a2);
    BodyFlags(op, x.f, a, a2, Exec(Body(op, s), a), Element(op, s, x).f, pol, live);
  }

  /** The comparison of the fetched elements. */
  lemma CompareOk(op: StringOp, s: Size, x: X86.State, a: State)
    requires Fetched(op, s, x, a) && a.g[RAX] == x.regs[RAX]
    ensures var b := Exec(Compare(op, s), a); var f := Element(op, s, x).f;
      if Compares(op) then b == WithFlags(a, f, CarrySub).(x := b.x) else b == a && f == x.f
  {
    hide Exec, Step, Load, Store, Advance, X86.SubFlags, StrCompare, Trunc, WithFlags;
    ExecNil(a);
    if op == Scas {
      StrCompareOk(s, G(RAX), X16, a, Trunc(x.regs[RAX], s), Load(x.mem, x.regs[RDI], s));
    } else if op == Cmps {
      TruncSmall(Load(x.mem, x.regs[RSI], s), s);
      StrCompareOk(s, T(X16), X17, a, Load(x.mem, x.regs[RSI], s), Load(x.mem, x.regs[RDI], s));
    }
  }

  lemma BodyFlags(op: StringOp, f0: X86.Flags, a: State, a2: State, b: State, f: X86.Flags, pol: Pol, live: Live)
    requires FlagsOk(f0, a, pol, live) && a2 == a.(g := a2.g, mem := a2.mem, x := a2.x)
    requires if Compares(op) then b == WithFlags(a2, f, CarrySub).(x := b.x) else b == a2 && f == f0
    ensures FlagsOk(f, b, PolAfter(op, pol), live) && b.g == a2.g && b.mem == a2.mem
    ensures Compares(op) ==> b.z == f.zf
  {
  }

  /** Without a REP prefix the code does one element. */
  lemma SingleOk(op: StringOp, s: Size, x: X86.State, a: State, pol: Pol, live: Live)
    requires Agree(x, a) && FlagsOk(x.f, a, pol, live)
    ensures var b := Exec(Moves(op, s) + Compare(op, s), a); var y := Element(op, s, x);
      Agree(y, b) && FlagsOk(y.f, b, PolAfter(op, pol), live)
  {
    hide Exec, Step, Load, Store, Advance, X86.SubFlags, Moves, Compare, Trunc, WithFlags;
    ElementKeeps(op, s, x);
    MovesOk(op, s, x, a);
    var a1 := Exec(Moves(op, s), a);
    ExecCat(Moves(op, s), Compare(op, s), a);
    CompareOk(op, s, x, a1);
    BodyFlags(op, x.f, a, a1, Exec(Compare(op, s), a1), Element(op, s, x).f, pol, live);
  }

  // ---- code with branches -------------------------------------------------------------------------------

  /** A line of a lowering: an instruction, MUL, or a branch to another of its lines. */
  datatype Line =
    | Do(i: Instr)
    | MUL(d: Scratch, n: Scratch, m: Scratch)
    | CBZ(g: Gpr, to: nat)
    | CBNZ(g: Gpr, to: nat)
    | BCOND(cond: Cond, to: nat)

  datatype Place = At(line: nat, a: State)

  function LineStep(code: seq<Line>, h: Place): Place {
    if h.line >= |code| then h
    else
      var a, next := h.a, h.line + 1;
      match code[h.line]
      case Do(i) => At(next, Step(i, a))
      case MUL(d, n, m) => At(next, Set(a, T(d), Trunc(Peek(a.x, n) * Peek(a.x, m), S64)))
      case CBZ(g, to) => At(if a.g[g] == 0 then to else next, a)
      case CBNZ(g, to) => At(if a.g[g] != 0 then to else next, a)
      case BCOND(cond, to) => At(if Passes(cond, a) then to else next, a)
  }

  function LineRun(code: seq<Line>, h: Place, n: nat): Place
    decreases n
  {
    if n == 0 then h else LineRun(code, LineStep(code, h), n - 1)
  }

  ghost predicate Reaches(code: seq<Line>, h: Place, h': Place) { exists n: nat :: LineRun(code, h, n) == h' }

  lemma {:induction false} LineRunAdd(code: seq<Line>, h: Place, m: nat, n: nat)
    ensures LineRun(code, h, m + n) == LineRun(code, LineRun(code, h, m), n)
    decreases m
  {
    hide LineStep;
    if m > 0 { LineRunAdd(code, LineStep(code, h), m - 1, n); }
  }

  lemma ReachesTrans(code: seq<Line>, p: Place, q: Place, r: Place)
    requires Reaches(code, p, q) && Reaches(code, q, r)
    ensures Reaches(code, p, r)
  {
    var m: nat :| LineRun(code, p, m) == q;
    var n: nat :| LineRun(code, q, n) == r;
    LineRunAdd(code, p, m, n);
  }

  lemma ReachesStep(code: seq<Line>, h: Place)
    ensures Reaches(code, h, LineStep(code, h))
  {
    hide LineStep;
    assert LineRun(code, LineStep(code, h), 0) == LineStep(code, h);
    assert LineRun(code, h, 1) == LineStep(code, h);
  }

  function Dos(c: seq<Instr>): seq<Line> { seq(|c|, k requires 0 <= k < |c| => Do(c[k])) }

  /** The lines c stand at line p. */
  predicate Holds(code: seq<Line>, p: nat, c: seq<Instr>) {
    p + |c| <= |code| && forall k :: 0 <= k < |c| ==> code[p + k] == Do(c[k])
  }

  lemma {:induction false} LinesRun(code: seq<Line>, p: nat, c: seq<Instr>, a: State)
    requires Holds(code, p, c)
    ensures Reaches(code, At(p, a), At(p + |c|, Exec(c, a)))
    decreases |c|
  {
    hide Step;
    if c == [] {
      ExecNil(a);
      assert LineRun(code, At(p, a), 0) == At(p, a);
    } else {
      var b := Step(c[0], a);
      assert code[p + 0] == Do(c[0]);
      forall k | 0 <= k < |c[1..]|
        ensures code[p + 1 + k] == Do(c[1..][k])
      {
        assert code[p + (k + 1)] == Do(c[k + 1]);
      }
      ReachesStep(code, At(p, a));
      LinesRun(code, p + 1, c[1..], b);
      ReachesTrans(code, At(p, a), At(p + 1, b), At(p + |c|, Exec(c, a)));
    }
  }

  // ---- the counting loops -----------------------------------------------------------------------------------

  /** What comes before the loop: REP CMPS and SCAS fix the sense first, as a count of 0 keeps the flags. */
  function Lead(op: StringOp, pol: Pol): seq<Instr> { if Compares(op) then NormalizeCarry(pol) else [] }

  predicate RepLegal(op: StringOp, rep: Rep) { rep.While? == Compares(op) }

  function StopBranch(rep: Rep, done: nat): seq<Line> {
    if rep.Always? then [] else [BCOND(if rep.equal then NE else EQ, done)]
  }

  /** The line after the loop. */
  function DoneLine(op: StringOp, s: Size, rep: Rep, pol: Pol): nat {
    |Lead(op, pol)| + 2 + |Body(op, s)| + (if rep.While? then 1 else 0)
  }

  /** The emitted code: CBZ over the loop, and after each turn the stop branch and CBNZ back. */
  function RepCode(op: StringOp, s: Size, rep: Rep, pol: Pol): seq<Line> {
    var done := DoneLine(op, s, rep, pol);
    Dos(Lead(op, pol)) + [CBZ(RCX, done)] + Dos(Body(op, s)) + StopBranch(rep, done) + [CBNZ(RCX, |Lead(op, pol)| + 1)]
  }

  lemma RepLayout(op: StringOp, s: Size, rep: Rep, pol: Pol)
    ensures var code, lead, body, done := RepCode(op, s, rep, pol), |Lead(op, pol)|, |Body(op, s)|,
      DoneLine(op, s, rep, pol);
      && |code| == done && Holds(code, 0, Lead(op, pol)) && code[lead] == CBZ(RCX, done)
      && Holds(code, lead + 1, Body(op, s)) && code[done - 1] == CBNZ(RCX, lead + 1)
      && (rep.While? ==> code[lead + 1 + body] == BCOND(if rep.equal then NE else EQ, done))
      && done == lead + 2 + body + (if rep.While? then 1 else 0)
  {
    hide Lead, Body;
    var done := DoneLine(op, s, rep, pol);
    var head := Dos(Lead(op, pol)) + [CBZ(RCX, done)];
    var tail := StopBranch(rep, done) + [CBNZ(RCX, |Lead(op, pol)| + 1)];
    var body := Dos(Body(op, s));
    assert RepCode(op, s, rep, pol) == head + body + tail;
  }

  /** From the top of the loop with elements to go, the code comes to its end in the state of the repeated
      instruction: it terminates, with RCX as its measure. */
  lemma {:induction false} LoopRuns(op: StringOp, s: Size, rep: Rep, pol: Pol, x: X86.State, a: State, live: Live)
    returns (b: State)
    requires RepLegal(op, rep) && Agree(x, a) && a.g[RCX] > 0 && FlagsOk(x.f, a, PolAfter(op, pol), live)
    ensures Reaches(RepCode(op, s, rep, pol), At(|Lead(op, pol)| + 1, a), At(DoneLine(op, s, rep, pol), b))
    ensures var y := RepRun(op, s, rep, x); Agree(y, b) && FlagsOk(y.f, b, PolAfter(op, pol), live)
    decreases x.regs[RCX]
  {
    hide Exec, Step, Element, FlagsOk, Lead, Body, RepCode, DoneLine;
    var code, top, done := RepCode(op, s, rep, pol), |Lead(op, pol)| + 1, DoneLine(op, s, rep, pol);
    RepLayout(op, s, rep, pol);
    BodyOk(op, s, x, a, PolAfter(op, pol), live);
    LinesRun(code, top, Body(op, s), a);
    var y, c := CountDown(Element(op, s, x)), Exec(Body(op, s), a);
    var p := At(top + |Body(op, s)|, c);
    if rep.While? {
      ReachesStep(code, p);
      ReachesTrans(code, At(top, a), p, LineStep(code, p));
      p := LineStep(code, p);
    }
    if Stops(op, rep, y.f) {
      b := c;
    } else {
      ReachesStep(code, p);
      ReachesTrans(code, At(top, a), p, LineStep(code, p));
      if c.g[RCX] == 0 {
        b := c;
      } else {
        b := LoopRuns(op, s, rep, pol, y, c, live);
        ReachesTrans(code, At(top, a), At(top, c), At(done, b));
      }
    }
  }

  /** The emitted code, from any sense, comes to its end in the state of the repeated instruction, for any
      count, overlapping buffers and the early stop; a count of 0 changes nothing and leaves the flags of
      the instruction before. */
  lemma RepRuns(op: StringOp, s: Size, rep: Rep, pol: Pol, x: X86.State, a: State, live: Live) returns (b: State)
    requires RepLegal(op, rep) && Agree(x, a) && FlagsOk(x.f, a, pol, live)
    ensures Reaches(RepCode(op, s, rep, pol), At(0, a), At(|RepCode(op, s, rep, pol)|, b))
    ensures var y := RepRun(op, s, rep, x); Agree(y, b) && FlagsOk(y.f, b, PolAfter(op, pol), live)
  {
    hide Exec, Step, Element, FlagsOk, Lead, Body, RepCode, DoneLine, NormalizeCarry;
    var code, lead := RepCode(op, s, rep, pol), Lead(op, pol);
    RepLayout(op, s, rep, pol);
    LinesRun(code, 0, lead, a);
    var c := Exec(lead, a);
    LeadOk(op, pol, x.f, a, live);
    var p := At(|lead|, c);
    ReachesStep(code, p);
    ReachesTrans(code, At(0, a), p, LineStep(code, p));
    if c.g[RCX] == 0 {
      b := c;
    } else {
      b := LoopRuns(op, s, rep, pol, x, c, live);
      ReachesTrans(code, At(0, a), LineStep(code, p), At(|code|, b));
    }
  }

  lemma LeadOk(op: StringOp, pol: Pol, f: X86.Flags, a: State, live: Live)
    requires FlagsOk(f, a, pol, live)
    ensures var b := Exec(Lead(op, pol), a); b == a.(c := b.c) && FlagsOk(f, b, PolAfter(op, pol), live)
  {
    hide Exec, NormalizeCarry;
    ExecNil(a);
    if Compares(op) { SimMove.NormalizeOk(pol, f, a, live); }
  }

  // ---- REP LODS ----------------------------------------------------------------------------------------

  function LodsElement(s: Size, x: X86.State): X86.State {
    x.(regs := Advance(x.regs[RAX := Merge(x.regs[RAX], Load(x.mem, x.regs[RSI], s), s)], RSI, s))
  }

  function LodsRun(s: Size, x: X86.State): X86.State
    decreases x.regs[RCX]
  {
    if x.regs[RCX] == 0 then x
    else
      LodsKeeps(s, x);
      LodsRun(s, CountDown(LodsElement(s, x)))
  }

  lemma LodsKeeps(s: Size, x: X86.State)
    ensures LodsElement(s, x).regs[RCX] == x.regs[RCX]
  {
    hide Trunc, Load, Merge;
  }

  /** The loop-free form as a state change: skip to the last element, load it, clear the count. */
  function LodsLast(s: Size, x: X86.State): X86.State {
    if x.regs[RCX] == 0 then x
    else
      var last := Trunc(x.regs[RSI] + (x.regs[RCX] - 1) * (Bits(s) / 8), S64);
      var r := x.regs[RSI := Trunc(last + (Bits(s) / 8), S64)];
      x.(regs := r[RAX := Merge(r[RAX], Load(x.mem, last, s), s)][RCX := 0])
  }

  lemma MergeTwice(r: Word, p: Word, q: Word, s: Size)
    ensures Merge(Merge(r, p, s), q, s) == Merge(r, q, s)
  {
    if s == S8 {
      Replaced(r, p, 0x100);
    } else if s == S16 {
      Replaced(r, p, 0x1_0000);
    }
  }

  lemma Replaced(r: nat, p: nat, k: nat)
    requires k == 0x100 || k == 0x1_0000
    ensures var m := r - r % k + p % k; m % k == p % k && m - m % k == r - r % k
  {
  }

  /** The last load is what the iterated loads leave, for any count. */
  lemma {:induction false} LodsClosed(s: Size, x: X86.State)
    ensures LodsRun(s, x) == LodsLast(s, x)
    decreases x.regs[RCX]
  {
    hide Trunc, Load, Merge;
    var n := x.regs[RCX];
    if n > 0 {
      LodsKeeps(s, x);
      var y := CountDown(LodsElement(s, x));
      LodsClosed(s, y);
      LodsStep(s, x, y);
    }
  }

  lemma LodsStep(s: Size, x: X86.State, y: X86.State)
    requires x.regs[RCX] > 0 && LodsElement(s, x).regs[RCX] == x.regs[RCX] && y == CountDown(LodsElement(s, x))
    ensures LodsLast(s, y) == LodsLast(s, x)
  {
    hide Trunc, Load, Merge;
    var w, n, i := Bits(s) / 8, x.regs[RCX], x.regs[RSI];
    TruncSmall(i, S64);
    TruncAdd(w, i, S64);
    if n == 1 {
      assert (n - 1) * w == 0;
    } else {
      LastAddress(i, n, w);
      MergeTwice(x.regs[RAX], Load(x.mem, i, s), Load(x.mem, Trunc(i + (n - 1) * w, S64), s), s);
    }
    assert LodsLast(s, y).regs == LodsLast(s, x).regs;
  }

  /** The last of n elements, from the second one on. */
  lemma LastAddress(i: nat, n: nat, w: nat)
    ensures Trunc(Trunc(w + i, S64) + ((n as int) - 2) * w, S64) == Trunc(i + (n - 1) * w, S64)
  {
    hide Trunc;
    TruncAdd(w + i, ((n as int) - 2) * w, S64);
    assert w + i + (n - 2) * w == i + (n - 1) * w;
  }

  // ---- the code of LODS ------------------------------------------------------------------------------

  /** One element: the load, into RAX or merged into it, and the pointer. */
  function LodsElementCode(s: Size): seq<Instr> {
    if Wide(s) then [LDR(s, G(RAX), G(RSI)), Bump(RSI, s)]
    else [LDR(s, T(X16), G(RSI)), BFI(G(RAX), T(X16), 0, Bits(s)), Bump(RSI, s)]
  }

  const LodsSkip: Instr := ADDSUB(false, false, S64, G(RSI), G(RSI), Sh(T(X16), 0))

  /** The emitted code: CBZ over it, the skip to the last element, the element, and the count cleared. */
  function LodsCode(s: Size): seq<Line> {
    [CBZ(RCX, 6 + |LodsElementCode(s)|), Do(ADDSUB(true, false, S64, T(X16), G(RCX), Lit(1))),
      Do(MOVZ(T(X17), Width(s), 0)),
     MUL(X16, X16, X17), Do(LodsSkip)]
    + Dos(LodsElementCode(s) + [MOVZ(G(RCX), 0, 0)])
  }

  lemma LodsLayout(s: Size)
    ensures var code, body := LodsCode(s), LodsElementCode(s) + [MOVZ(G(RCX), 0, 0)];
      && |code| == 5 + |body| && Holds(code, 5, body)
      && code[0] == CBZ(RCX, |code|) && code[1] == Do(ADDSUB(true, false, S64, T(X16), G(RCX), Lit(1)))
      && code[2] == Do(MOVZ(T(X17), Width(s), 0)) && code[3] == MUL(X16, X16, X17) && code[4] == Do(LodsSkip)
  {
    hide LodsElementCode;
  }

  lemma LodsElementOk(s: Size, x: X86.State, a: State)
    requires Agree(x, a)
    ensures var b := Exec(LodsElementCode(s), a); b == a.(g := LodsElement(s, x).regs, x := b.x)
  {
    hide Exec, Step, Load, Advance, Trunc;
    var v, i := Load(a.mem, a.g[RSI], s), BFI(G(RAX), T(X16), 0, Bits(s));
    if Wide(s) {
      var a1 := a.(g := a.g[RAX := v]);
      LoadWide(s, a);
      StepBump(a1, RSI, s);
      Exec2(LDR(s, G(RAX), G(RSI)), Bump(RSI, s), a);
      MergeLoaded(a.g[RAX], v, s);
    } else {
      var a1 := a.(x := a.x.(x16 := v));
      var a2 := a1.(g := a1.g[RAX := Merge(a.g[RAX], v, s)]);
      StepLoad(a, s, X16, RSI);
      InsertStep(s, a1, v);
      StepBump(a2, RSI, s);
      Exec3(LDR(s, T(X16), G(RSI)), i, Bump(RSI, s), a);
    }
  }

  lemma LoadWide(s: Size, a: State)
    ensures Step(LDR(s, G(RAX), G(RSI)), a) == a.(g := a.g[RAX := Load(a.mem, a.g[RSI], s)])
  {
    hide Step, Load;
    LoadInto(s, a);
    assert Get(a, G(RSI)) == a.g[RSI];
  }

  lemma LoadInto(s: Size, a: State)
    ensures Step(LDR(s, G(RAX), G(RSI)), a) == Set(a, G(RAX), Load(a.mem, Get(a, G(RSI)), s))
  {
    hide Load, Set, Get;
  }

  lemma MergeLoaded(was: Word, v: Word, s: Size)
    requires Wide(s) && v < Cap(s)
    ensures Merge(was, v, s) == v
  {
  }

  lemma InsertStep(s: Size, a: State, v: Word)
    requires !Wide(s) && a.x.x16 == v && v < Cap(s)
    ensures Step(BFI(G(RAX), T(X16), 0, Bits(s)), a) == a.(g := a.g[RAX := Merge(a.g[RAX], v, s)])
  {
    hide Insert, Merge;
    TruncSmall(v, s);
    InsertLow(a.g[RAX], v, s);
  }

  /** The lines up to the skip leave RSI at the last element. */
  lemma LodsSkipOk(s: Size, x: X86.State, a: State) returns (b: State)
    requires Agree(x, a) && a.g[RCX] > 0
    ensures Reaches(LodsCode(s), At(0, a), At(5, b))
    ensures var last := Trunc(x.regs[RSI] + (x.regs[RCX] - 1) * (Bits(s) / 8), S64);
      b == a.(g := a.g[RSI := last], x := b.x)
  {
    hide Step, Trunc, LodsCode, Width;
    LodsLayout(s);
    var code, n, w := LodsCode(s), a.g[RCX] - 1, Width(s);
    WidthIs(s);
    var a1 := a.(x := a.x.(x16 := n));
    var a2 := a1.(x := a1.x.(x17 := w));
    var a3 := a2.(x := a2.x.(x16 := Trunc(n * w, S64)));
    b := a3.(g := a3.g[RSI := Trunc(a.g[RSI] + n * w, S64)]);
    CountLess(a);
    WidthStep(a1, s);
    SkipStep(a3, n * w);
    assert LineStep(code, At(0, a)) == At(1, a);
    assert LineStep(code, At(1, a)) == At(2, a1);
    assert LineStep(code, At(2, a1)) == At(3, a2);
    assert LineStep(code, At(3, a2)) == At(4, a3);
    assert LineStep(code, At(4, a3)) == At(5, b);
    FiveSteps(code, At(0, a), At(1, a), At(2, a1), At(3, a2), At(4, a3), At(5, b));
  }

  lemma FiveSteps(code: seq<Line>, p: Place, q: Place, r: Place, u: Place, v: Place, w: Place)
    requires LineStep(code, p) == q && LineStep(code, q) == r && LineStep(code, r) == u
    requires LineStep(code, u) == v && LineStep(code, v) == w
    ensures Reaches(code, p, w)
  {
    hide LineStep;
    ReachesStep(code, p);
    ReachesStep(code, q);
    ReachesStep(code, r);
    ReachesStep(code, u);
    ReachesStep(code, v);
    ReachesTrans(code, p, q, r);
    ReachesTrans(code, p, r, u);
    ReachesTrans(code, p, u, v);
    ReachesTrans(code, p, v, w);
  }

  lemma CountLess(a: State)
    requires a.g[RCX] > 0
    ensures Step(ADDSUB(true, false, S64, T(X16), G(RCX), Lit(1)), a) == a.(x := a.x.(x16 := a.g[RCX] - 1))
  {
    hide Step, Trunc;
    LitOk(a, 1, S64);
    StepAddSub(a, true, S64, T(X16), G(RCX), Lit(1));
    TruncSmall(a.g[RCX] - 1, S64);
  }

  lemma WidthIs(s: Size)
    ensures Width(s) == Bits(s) / 8
  {
  }

  lemma WidthStep(a: State, s: Size)
    ensures Step(MOVZ(T(X17), Width(s), 0), a) == a.(x := a.x.(x17 := Width(s)))
  {
    hide Step;
    StepMovz(a, T(X17), Width(s));
  }

  lemma SkipStep(a: State, k: nat)
    requires a.x.x16 == Trunc(k, S64)
    ensures Step(LodsSkip, a) == a.(g := a.g[RSI := Trunc(a.g[RSI] + k, S64)])
  {
    hide Step, Trunc;
    StepAddSub(a, false, S64, G(RSI), G(RSI), Sh(T(X16), 0));
    RhsPlain(a, T(X16), S64);
    TruncBound(k, S64);
    TruncSmall(a.x.x16, S64);
    TruncAdd(a.g[RSI], k, S64);
  }

  lemma ClearStep(a: State)
    ensures Step(MOVZ(G(RCX), 0, 0), a) == a.(g := a.g[RCX := 0])
  {
    hide Step;
    StepMovz(a, G(RCX), 0);
  }

  /** The emitted loop-free code does what the iterated loads do, for any count, and keeps the flags. */
  lemma LodsRuns(s: Size, x: X86.State, a: State) returns (b: State)
    requires Agree(x, a)
    ensures Reaches(LodsCode(s), At(0, a), At(|LodsCode(s)|, b))
    ensures b == a.(g := LodsRun(s, x).regs, x := b.x) && LodsRun(s, x).mem == x.mem && LodsRun(s, x).f == x.f
  {
    hide Step, Trunc, Load, Merge, LodsElementCode, Exec, LodsRun, LodsCode, LodsElement, Holds;
    var code := LodsCode(s);
    LodsLayout(s);
    LodsClosed(s, x);
    if a.g[RCX] == 0 {
      b := a;
      ReachesStep(code, At(0, a));
    } else {
      var c := LodsSkipOk(s, x, a);
      var y := x.(regs := c.g);
      var body := LodsElementCode(s) + [MOVZ(G(RCX), 0, 0)];
      LodsElementOk(s, y, c);
      LodsKeeps(s, y);
      var d := Exec(LodsElementCode(s), c);
      ClearStep(d);
      ExecCat(LodsElementCode(s), [MOVZ(G(RCX), 0, 0)], c);
      Exec1(MOVZ(G(RCX), 0, 0), d);
      b := Exec(body, c);
      LinesRun(code, 5, body, c);
      ReachesTrans(code, At(0, a), At(5, c), At(5 + |body|, b));
      LodsLastIs(s, x, y);
    }
  }

  lemma LodsLastIs(s: Size, x: X86.State, y: X86.State)
    requires x.regs[RCX] > 0
    requires y == x.(regs := x.regs[RSI := Trunc(x.regs[RSI] + (x.regs[RCX] - 1) * (Bits(s) / 8), S64)])
    ensures LodsLast(s, x).regs == LodsElement(s, y).regs[RCX := 0] && LodsLast(s, x).mem == x.mem
      && LodsLast(s, x).f == x.f
  {
    hide Trunc, Load, Merge;
    assert Trunc(Bits(s) / 8 + (y.regs[RSI] as int), S64) == Trunc(y.regs[RSI] + Bits(s) / 8, S64);
  }
}
