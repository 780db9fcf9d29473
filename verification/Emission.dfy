/** The code of a whole function: blocks in address order, with the transfers between them
    (arm64_lifter.go, emitSingleAsmChunk in asm_emitter.go), and the machine that runs it. */
module Emission {
  import opened Words
  import opened Guest
  import X86
  import opened Arm
  import opened Lifter
  import opened Program
  import opened Liveness

  /** One line of the emitted function. A branch to a guest address goes to the label of its block;
      SkipIf is a conditional branch over the next n items. */
  datatype Item =
    | Label(at: Word)
    | Do(i: Instr)
    | Branch(to: Word)
    | BranchIf(cond: Cond, to: Word)
    | SkipIf(cond: Cond, n: nat)
    | TailCall(to: Word)
    | Dispatch
    | Return

  datatype Emitted = Emitted(items: seq<Item>, pol: Pol)

  function Dos(code: seq<Instr>): seq<Item> { seq(|code|, k requires 0 <= k < |code| => Do(code[k])) }

  // ---- one instruction ---------------------------------------------------------------------------

  /** branchTo: a block of the function, a known function (tail call), or the dispatcher with the
      address in x0. */
  function BranchTo(fn: Function, known: set<Word>, t: Word): seq<Item> {
    if t in fn.blocks then [Branch(t)]
    else if t in known then [TailCall(t)]
    else Dos(LoadImm64(T(X0), t)) + [Dispatch]
  }

  function Invert(c: Cond): Cond {
    match c
    case EQ => NE case NE => EQ case CS => CC case CC => CS case MI => PL case PL => MI
    case VS => VC case VC => VS case HI => LS case LS => HI case GE => LT case LT => GE
    case GT => LE case LE => GT
  }

  /** The sense is fixed before a transfer when CF is live after it. */
  function Boundary(notes: Notes, pol: Pol): Lowered {
    if notes.carryDead then Lowered([], pol) else Lowered(NormalizeCarry(pol), CarrySub)
  }

  /** A conditional branch reaches 1 MiB; far blocks and other functions are reached by an
      unconditional one that the inverted condition skips. */
  function CondBranch(fn: Function, known: set<Word>, cond: Cond, t: Word, next: Word): seq<Item> {
    var dist := if t < next then next - t else t - next;
    if t in fn.blocks && dist <= 16384 then [BranchIf(cond, t)]
    else [SkipIf(Invert(cond), |BranchTo(fn, known, t)|)] + BranchTo(fn, known, t)
  }

  /** liftInstructionInternal */
  function EmitInst(fn: Function, known: set<Word>, d: Decoded, notes: Notes, pol: Pol): Emitted
    requires Fits(d)
  {
    match d.i
    case Jmp(t) =>
      var b := Boundary(notes, pol);
      Emitted(Dos(b.code) + BranchTo(fn, known, t), b.pol)
    case Jcc(cc, t) =>
      var b := Boundary(notes, pol);
      var c := CondFor(cc, b.pol);
      Emitted(Dos(b.code) + Dos(c.code) + CondBranch(fn, known, c.cond, t, Next(d)), c.pol)
    case Ret => Emitted(Dos(LiftRet()) + [Return], pol)
    case i =>
      var l := Lift(i, notes, pol);
      Emitted(Dos(l.code), l.pol)
  }

  // ---- blocks -------------------------------------------------------------------------------------

  predicate BlockFits(b: Block) { forall k :: 0 <= k < |b| ==> Fits(b[k]) }

  /** The first k instructions of a block, from the boundary sense. */
  function EmitUpTo(fn: Function, known: set<Word>, b: Block, ns: seq<Notes>, k: nat): Emitted
    requires k <= |b| == |ns| && BlockFits(b)
  {
    if k == 0 then Emitted([], CarrySub)
    else
      var e := EmitUpTo(fn, known, b, ns, k - 1);
      var i := EmitInst(fn, known, b[k - 1], ns[k - 1], e.pol);
      Emitted(e.items + i.items, i.pol)
  }

  /** FallThrough: nothing when the next emitted block is the successor. */
  function FallThrough(fn: Function, known: set<Word>, d: Decoded, next: Option<Word>): seq<Item>
    requires Fits(d)
  {
    if !FallsThrough(d.i) || next == Some(Next(d)) then [] else BranchTo(fn, known, Next(d))
  }

  function EmitBlock(fn: Function, known: set<Word>, start: Word, b: Block, ns: seq<Notes>,
                     next: Option<Word>): seq<Item>
    requires b != [] && |b| == |ns| && BlockFits(b)
  {
    var e := EmitUpTo(fn, known, b, ns, |b|);
    [Label(start)] + e.items + Dos(Boundary(ns[|b| - 1], e.pol).code) + FallThrough(fn, known, Last(b), next)
  }

  /** The block emitted after the j-th. */
  function NextBlock(fn: Function, j: nat): Option<Word> {
    if j + 1 < |fn.order| then Some(fn.order[j + 1]) else None
  }

  ghost predicate Emittable(fn: Function, notes: AllNotes) {
    FnOk(fn) && NotesFor(fn, notes) && forall a :: a in fn.blocks ==> BlockFits(fn.blocks[a])
  }

  ghost function EmitBlocks(fn: Function, known: set<Word>, notes: AllNotes, j: nat): seq<Item>
    requires Emittable(fn, notes) && j <= |fn.order|
  {
    if j == 0 then []
    else
      var a := fn.order[j - 1];
      EmitBlocks(fn, known, notes, j - 1) + EmitBlock(fn, known, a, fn.blocks[a], notes[a], NextBlock(fn, j - 1))
  }

  ghost function EmitFunction(fn: Function, known: set<Word>, notes: AllNotes): seq<Item>
    requires Emittable(fn, notes)
  {
    EmitBlocks(fn, known, notes, |fn.order|) + [Return]
  }

  // ---- the lifter object and the emission loop --------------------------------------------------------

  class Arm64Lifter {
    /** How C holds CF at the current point of the block being lifted. */
    var cpol: Pol
    const known: set<Word>

    constructor (known: set<Word>)
      ensures this.known == known && cpol == CarrySub
    {
      this.known := known;
      cpol := CarrySub;
    }

    method ResetFlags()
      modifies this`cpol
      ensures cpol == CarrySub
    {
      cpol := CarrySub;
    }

    method Normalize() returns (code: seq<Instr>)
      modifies this`cpol
      ensures code == NormalizeCarry(old(cpol)) && cpol == CarrySub
    {
      if cpol == CarrySub {
        code := [];
      } else {
        cpol := CarrySub;
        code := [CFINV];
      }
    }

    /** EndBlock, also done before a jump. */
    method EndBlock(notes: Notes) returns (items: seq<Item>)
      modifies this`cpol
      ensures items == Dos(Boundary(notes, old(cpol)).code) && cpol == Boundary(notes, old(cpol)).pol
    {
      var code: seq<Instr> := [];
      if !notes.carryDead { code := Normalize(); }
      items := Dos(code);
    }

    method LiftInstruction(fn: Function, d: Decoded, notes: Notes) returns (items: seq<Item>)
      requires Fits(d)
      modifies this`cpol
      ensures items == EmitInst(fn, known, d, notes, old(cpol)).items
      ensures cpol == EmitInst(fn, known, d, notes, old(cpol)).pol
    {
      match d.i
      case Jmp(t) =>
        var b := EndBlock(notes);
        items := b + BranchTo(fn, known, t);
      case Jcc(cc, t) =>
        var b := EndBlock(notes);
        var c := CondFor(cc, cpol);
        cpol := c.pol;
        items := b + Dos(c.code) + CondBranch(fn, known, c.cond, t, Next(d));
      case Ret =>
        items := Dos(LiftRet()) + [Return];
      case i =>
        var l := Lift(i, notes, cpol);
        cpol := l.pol;
        items := Dos(l.code);
    }

    /** emitSingleAsmChunk's work on one block. */
    method LiftBlock(fn: Function, start: Word, b: Block, ns: seq<Notes>, next: Option<Word>) returns (items: seq<Item>)
      requires b != [] && |b| == |ns| && BlockFits(b)
      modifies this`cpol
      ensures items == EmitBlock(fn, known, start, b, ns, next)
    {
      hide EmitInst, FallThrough, Dos, Boundary, Fits;
      ResetFlags();
      var body: seq<Item> := [];
      var k := 0;
      while k < |b|
        invariant 0 <= k <= |b|
        invariant body == EmitUpTo(fn, known, b, ns, k).items && cpol == EmitUpTo(fn, known, b, ns, k).pol
      {
        var lines := LiftInstruction(fn, b[k], ns[k]);
        body := body + lines;
        k := k + 1;
      }
      var tail := EndBlock(ns[|b| - 1]);
      items := [Label(start)] + body + tail + FallThrough(fn, known, Last(b), next);
    }

    method LiftFunction(fn: Function, notes: AllNotes) returns (items: seq<Item>)
      requires Emittable(fn, notes)
      modifies this`cpol
      ensures items == EmitFunction(fn, known, notes)
    {
      hide EmitBlock, EmitUpTo, BlockFits;
      items := [];
      var j := 0;
      while j < |fn.order|
        invariant 0 <= j <= |fn.order| && items == EmitBlocks(fn, known, notes, j)
      {
        var a := fn.order[j];
        assert a in fn.order;
        var lines := LiftBlock(fn, a, fn.blocks[a], notes[a], NextBlock(fn, j));
        items := items + lines;
        j := j + 1;
      }
      items := items + [Return];
    }
  }

  // ---- the machine ------------------------------------------------------------------------------------

  /** Running at an item, gone to another guest address, or returned. */
  datatype Host = Running(pos: nat, a: State) | Gone(to: Word, a: State) | Back(a: State) | Fault

  /** The position of the label of a block. */
  function Find(items: seq<Item>, t: Word): Option<nat> {
    if items == [] then None
    else if items[0] == Label(t) then Some(0)
    else
      match Find(items[1..], t)
      case Some(p) => Some(p + 1)
      case None => None
  }

  function JumpTo(items: seq<Item>, t: Word, a: State): Host {
    match Find(items, t) case Some(p) => Running(p, a) case None => Fault
  }

  function HostStep(items: seq<Item>, h: Host): Host {
    if !h.Running? then h
    else if h.pos >= |items| then Fault
    else
      match items[h.pos]
      case Label(_) => Running(h.pos + 1, h.a)
      case Do(i) => Running(h.pos + 1, Step(i, h.a))
      case Branch(t) => JumpTo(items, t, h.a)
      case BranchIf(c, t) => if Passes(c, h.a) then JumpTo(items, t, h.a) else Running(h.pos + 1, h.a)
      case SkipIf(c, n) => Running(h.pos + 1 + (if Passes(c, h.a) then n else 0), h.a)
      case TailCall(t) => Gone(t, h.a)
      case Dispatch => Gone(h.a.x.x0, h.a)
      case Return => Back(h.a)
  }

  function HostRun(items: seq<Item>, h: Host, n: nat): Host
    decreases n
  {
    if n == 0 then h else HostRun(items, HostStep(items, h), n - 1)
  }
}
