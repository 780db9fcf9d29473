/** Every run of a guest function is matched by the emitted code: same registers and memory, same
    transfers of control, right flags wherever they are live. */
module Simulation {
  import opened Words
  import opened Guest
  import X86
  import opened Arm
  import opened Lifter
  import opened Effects
  import opened Operands
  import opened Relation
  import opened Program
  import opened Liveness
  import opened Emission
  import opened Layout
  import LiftSim
  import SimMove

  /** A translated function: its decoded code, its blocks, which addresses other functions start at
      (for the liveness pass and for the lifter), and the results of the flag passes. */
  datatype Unit = Unit(code: Code, fn: Function, isFunc: set<Word>, known: set<Word>, live: LiveIn, notes: AllNotes)

  ghost predicate Ok(t: Unit) {
    WellFormed(t.fn, t.code) && Annotated(t.fn, t.isFunc, t.live, t.notes) && Emittable(t.fn, t.notes)
  }

  ghost function Items(t: Unit): seq<Item>
    requires Ok(t)
  {
    EmitFunction(t.fn, t.known, t.notes)
  }

  /** Flags live at the end of block a. */
  ghost function Out(t: Unit, a: Word): FlagSet
    requires Ok(t) && a in t.fn.blocks
  {
    LiveOut(t.fn, a, t.isFunc, t.live)
  }

  ghost function UpTo(t: Unit, a: Word, k: nat): Emitted
    requires Ok(t) && a in t.fn.blocks && k <= |t.fn.blocks[a]|
  {
    EmitUpTo(t.fn, t.known, t.fn.blocks[a], t.notes[a], k)
  }

  /** The place of instruction k of the j-th block, and of the code after its last one. */
  ghost function Place(t: Unit, j: nat, k: nat): nat
    requires Ok(t) && j < |t.fn.order| && t.fn.order[j] in t.fn.blocks && k <= |t.fn.blocks[t.fn.order[j]]|
  {
    Base(t.fn, t.known, t.notes, j) + 1 + |UpTo(t, t.fn.order[j], k).items|
  }

  /** The host stands before instruction k of block j, or after the block's last one, in a state
      related to x: C holds CF in the tracked sense, and the live flags are right. */
  ghost predicate Here(t: Unit, j: nat, k: nat, x: X86.State, h: Host) {
    && Ok(t) && j < |t.fn.order| && t.fn.order[j] in t.fn.blocks
    && var a := t.fn.order[j]; var b := t.fn.blocks[a];
      && k <= |b| && h.Running? && h.pos == Place(t, j, k)
      && Related(x, h.a, UpTo(t, a, k).pol, LiveAt(b, k, Out(t, a)))
  }

  /** Flags another function or unknown code may look at. */
  function Outside(t: Unit, pc: Word): Live { Live(true, pc !in t.isFunc, pc !in t.isFunc) }

  /** The host configuration h stands for the guest configuration c. */
  ghost predicate Matches(t: Unit, c: Config, h: Host) {
    match c
    case Returned(x) => h.Back? && Related(x, h.a, CarrySub, Live(true, false, false))
    case At(pc, x) =>
      if pc in t.code then
        exists j: nat, k: nat ::
          Here(t, j, k, x, h) && k < |t.fn.blocks[t.fn.order[j]]| && t.fn.blocks[t.fn.order[j]][k].addr == pc
      else h.Gone? && h.to == pc && Related(x, h.a, CarrySub, Outside(t, pc))
  }

  // ---- arriving at a block -----------------------------------------------------------------------------

  predicate Weaker(p: Live, q: Live) { (p.nz ==> q.nz) && (p.cf ==> q.cf) && (p.of ==> q.of) }

  lemma RelatedWeaken(x: X86.State, a: State, pol: Pol, p: Live, q: Live)
    requires Related(x, a, pol, q) && Weaker(p, q)
    ensures Related(x, a, pol, p)
  {
  }

  lemma OrderHas(t: Unit, a: Word) returns (j: nat)
    requires Ok(t) && a in t.fn.blocks
    ensures j < |t.fn.order| && t.fn.order[j] == a
  {
    assert a in t.fn.order;
    j :| 0 <= j < |t.fn.order| && t.fn.order[j] == a;
  }

  /** At the label of a block in the boundary sense. */
  lemma AtLabel(t: Unit, j: nat, x: X86.State, a: State, live: Live)
    requires Ok(t) && j < |t.fn.order| && t.fn.order[j] in t.fn.blocks
    requires var s := t.fn.order[j];
      Related(x, a, CarrySub, live) && Weaker(LiveAt(t.fn.blocks[s], 0, Out(t, s)), live)
    ensures var h := Running(Base(t.fn, t.known, t.notes, j), a);
      && Reaches(Items(t), h, HostStep(Items(t), h)) && Here(t, j, 0, x, HostStep(Items(t), h))
  {
    hide Related, LiveAt, LiveOut, EmitBlock, WellFormed, Annotated, Emittable;
    var s := t.fn.order[j];
    var p := Base(t.fn, t.known, t.notes, j);
    BlockFacts(t, j);
    ItemAt(Items(t), p, BlockItems(t.fn, t.known, t.notes, j));
    ReachesStep(Items(t), Running(p, a));
    RelatedWeaken(x, a, CarrySub, LiveAt(t.fn.blocks[s], 0, Out(t, s)), live);
  }

  lemma BlockFacts(t: Unit, j: nat)
    requires Ok(t) && j < |t.fn.order|
    ensures var s := t.fn.order[j];
      && s in t.fn.blocks && BlockOk(s, t.fn.blocks[s]) && |t.notes[s]| == |t.fn.blocks[s]|
      && Holds(Items(t), Base(t.fn, t.known, t.notes, j), BlockItems(t.fn, t.known, t.notes, j))
      && BlockItems(t.fn, t.known, t.notes, j) != [] && BlockItems(t.fn, t.known, t.notes, j)[0] == Label(s)
  {
    hide EmitBlock;
    var s := t.fn.order[j];
    assert s in t.fn.order;
    BlockPlace(t.fn, t.known, t.notes, j);
    BlockLabels(t.fn, t.known, s, t.fn.blocks[s], t.notes[s], NextBlock(t.fn, j));
  }

  // ---- leaving a block -----------------------------------------------------------------------------------

  /** What is right at the end of block a. */
  ghost function End(t: Unit, a: Word): Live
    requires Ok(t) && a in t.fn.blocks
  {
    Live(true, Out(t, a).cf, Out(t, a).of)
  }

  /** Going from the end of block a to pc keeps enough flags. */
  ghost predicate MayGo(t: Unit, a: Word, pc: Word)
    requires Ok(t) && a in t.fn.blocks
  {
    if pc in t.fn.blocks then Weaker(LiveAt(t.fn.blocks[pc], 0, Out(t, pc)), End(t, a))
    else pc !in t.code && Weaker(Outside(t, pc), End(t, a))
  }

  lemma SuccessorLive(t: Unit, a: Word, pc: Word)
    requires Ok(t) && a in t.fn.blocks && pc in SuccsOf(t.fn, a, t.isFunc).blocks
    ensures Weaker(LiveAt(t.fn.blocks[pc], 0, Out(t, pc)), End(t, a))
  {
    hide LiveBefore, Successors;
    FixpointAt(t.fn, pc, t.isFunc, t.live);
  }

  /** The transfers a block's last instruction makes are those of the successor graph. */
  lemma MayGoOk(t: Unit, a: Word)
    requires Ok(t) && a in t.fn.blocks && t.fn.blocks[a] != [] && Fits(Last(t.fn.blocks[a]))
    ensures var d := Last(t.fn.blocks[a]);
      && (d.i.Jmp? ==> MayGo(t, a, d.i.target))
      && (d.i.Jcc? ==> MayGo(t, a, d.i.target))
      && (FallsThrough(d.i) ==> MayGo(t, a, Next(d)))
  {
    hide LiveBefore, LiveAt, Fixpoint, BlockMarked;
    var d := Last(t.fn.blocks[a]);
    assert Closed(t.fn, t.code, d);
    var s := SuccsOf(t.fn, a, t.isFunc);
    if d.i.Jmp? || d.i.Jcc? { MayGoDirect(t, a, d.i.target); }
    if FallsThrough(d.i) { MayGoNext(t, a); }
  }

  lemma MayGoDirect(t: Unit, a: Word, pc: Word)
    requires Ok(t) && a in t.fn.blocks && t.fn.blocks[a] != [] && Fits(Last(t.fn.blocks[a]))
    requires var i := Last(t.fn.blocks[a]).i; (i.Jmp? || i.Jcc?) && i.target == pc
    requires pc in t.code ==> pc in t.fn.blocks
    ensures MayGo(t, a, pc)
  {
    hide LiveBefore, LiveAt, Fixpoint, BlockMarked, WellFormed, Closed, BlockFits, Skippable;
    if pc in t.fn.blocks {
      assert pc in SuccsOf(t.fn, a, t.isFunc).blocks;
      SuccessorLive(t, a, pc);
    }
  }

  lemma MayGoNext(t: Unit, a: Word)
    requires Ok(t) && a in t.fn.blocks && t.fn.blocks[a] != [] && Fits(Last(t.fn.blocks[a]))
      && FallsThrough(Last(t.fn.blocks[a]).i)
    requires var pc := Next(Last(t.fn.blocks[a])); pc in t.code ==> pc in t.fn.blocks
    ensures MayGo(t, a, Next(Last(t.fn.blocks[a])))
  {
    hide LiveBefore, LiveAt, Fixpoint, BlockMarked, WellFormed, Closed, BlockFits, Skippable;
    var pc := Next(Last(t.fn.blocks[a]));
    if pc in t.fn.blocks {
      assert pc in SuccsOf(t.fn, a, t.isFunc).blocks;
      SuccessorLive(t, a, pc);
    }
  }

  /** The sense does not matter where CF is dead. */
  lemma AnySense(x: X86.State, a: State, pol: Pol, live: Live)
    requires Related(x, a, pol, live) && (!live.cf || pol == CarrySub)
    ensures Related(x, a, CarrySub, live)
  {
  }

  /** At the label of block pc, coming from the end of block a. */
  lemma Arrive(t: Unit, a: Word, j: nat, x: X86.State, s: State) returns (h: Host)
    requires Ok(t) && a in t.fn.blocks && j < |t.fn.order|
    requires var pc := t.fn.order[j]; pc in t.fn.blocks && MayGo(t, a, pc) && Related(x, s, CarrySub, End(t, a))
    ensures Reaches(Items(t), Running(Base(t.fn, t.known, t.notes, j), s), h) && Matches(t, At(t.fn.order[j], x), h)
  {
    hide Related, LiveAt, LiveOut, EmitBlock, WellFormed, Annotated, Emittable;
    h := HostStep(Items(t), Running(Base(t.fn, t.known, t.notes, j), s));
    AtLabel(t, j, x, s, End(t, a));
    BlockFacts(t, j);
    assert Here(t, j, 0, x, h);
    Decoded0(t, t.fn.order[j]);
  }

  lemma Decoded0(t: Unit, a: Word)
    requires Ok(t) && a in t.fn.blocks
    ensures a in t.code && t.fn.blocks[a] != [] && t.fn.blocks[a][0].addr == a
  {
    assert BlockOk(a, t.fn.blocks[a]);
    StartDecoded(t.fn, t.code, a);
  }

  /** branchTo, at the end of block a. */
  lemma BranchOk(t: Unit, a: Word, p: nat, pc: Word, x: X86.State, s: State) returns (h: Host)
    requires Ok(t) && a in t.fn.blocks && MayGo(t, a, pc) && Related(x, s, CarrySub, End(t, a))
    requires Holds(Items(t), p, BranchTo(t.fn, t.known, pc))
    ensures Reaches(Items(t), Running(p, s), h) && Matches(t, At(pc, x), h)
  {
    hide Related, LiveAt, LiveOut, EmitFunction, Annotated, LoadImm64, Matches, WellFormed, Emittable, Reaches;
    if pc in t.fn.blocks {
      var j := BranchToBlock(t, p, pc, s);
      h := Arrive(t, a, j, x, s);
      ReachesTrans(Items(t), Running(p, s), Running(Base(t.fn, t.known, t.notes, j), s), h);
    } else {
      RelatedWeaken(x, s, CarrySub, Outside(t, pc), End(t, a));
      h := Leave(t, p, pc, x, s);
    }
  }

  lemma JumpOk(t: Unit, pc: Word, s: State) returns (j: nat)
    requires Ok(t) && pc in t.fn.blocks
    ensures j < |t.fn.order| && t.fn.order[j] == pc
    ensures JumpTo(Items(t), pc, s) == Running(Base(t.fn, t.known, t.notes, j), s)
  {
    hide EmitFunction, Annotated, Emittable, Find;
    j := OrderHas(t, pc);
    LabelPlace(t.fn, t.known, t.notes, j);
  }

  lemma BranchToBlock(t: Unit, p: nat, pc: Word, s: State) returns (j: nat)
    requires Ok(t) && pc in t.fn.blocks && Holds(Items(t), p, [Branch(pc)])
    ensures j < |t.fn.order| && t.fn.order[j] == pc
    ensures Reaches(Items(t), Running(p, s), Running(Base(t.fn, t.known, t.notes, j), s))
  {
    hide EmitFunction, Annotated, Emittable, WellFormed, JumpTo, Base;
    ItemAt(Items(t), p, [Branch(pc)]);
    j := JumpOk(t, pc, s);
    ReachesStep(Items(t), Running(p, s));
  }

  lemma Leave(t: Unit, p: nat, pc: Word, x: X86.State, s: State) returns (h: Host)
    requires Ok(t) && pc !in t.code && pc !in t.fn.blocks && Related(x, s, CarrySub, Outside(t, pc))
    requires Holds(Items(t), p, BranchTo(t.fn, t.known, pc))
    ensures Reaches(Items(t), Running(p, s), h) && Matches(t, At(pc, x), h)
  {
    hide EmitFunction, Annotated, WellFormed, LoadImm64, Exec;
    var items := Items(t);
    if pc in t.known {
      ItemAt(items, p, BranchTo(t.fn, t.known, pc));
      ReachesStep(items, Running(p, s));
      h := Gone(pc, s);
    } else {
      var code := LoadImm64(T(X0), pc);
      HoldsCat(items, p, Dos(code), [Dispatch]);
      RunDos(items, p, code, s);
      LoadImm64Ok(T(X0), pc, s);
      var q := p + |code|;
      var s' := Exec(code, s);
      ItemAt(items, q, [Dispatch]);
      ReachesStep(items, Running(q, s'));
      h := Gone(pc, s');
      ReachesTrans(items, Running(p, s), Running(q, s'), h);
    }
  }

  // ---- the pieces of a block ----------------------------------------------------------------------------------

  ghost function InstAt(t: Unit, j: nat, k: nat): Emitted
    requires Ok(t) && j < |t.fn.order| && t.fn.order[j] in t.fn.blocks && k < |t.fn.blocks[t.fn.order[j]]|
  {
    var a := t.fn.order[j];
    EmitInst(t.fn, t.known, t.fn.blocks[a][k], t.notes[a][k], UpTo(t, a, k).pol)
  }

  /** The code of instruction k of block j stands at its place, the next one follows. */
  lemma InstHolds(t: Unit, j: nat, k: nat)
    requires Ok(t) && j < |t.fn.order| && t.fn.order[j] in t.fn.blocks && k < |t.fn.blocks[t.fn.order[j]]|
    ensures Holds(Items(t), Place(t, j, k), InstAt(t, j, k).items)
    ensures Place(t, j, k + 1) == Place(t, j, k) + |InstAt(t, j, k).items|
    ensures UpTo(t, t.fn.order[j], k + 1).pol == InstAt(t, j, k).pol
  {
    hide EmitInst, WellFormed, Annotated, EmitFunction, Fits, EmitUpTo, Base, Holds;
    InstPiece(t.fn, t.known, t.notes, j, k);
  }

  /** After the last instruction come the boundary code and the fall-through branch, and then the
      next block. */
  lemma TailHolds(t: Unit, j: nat)
    requires Ok(t) && j < |t.fn.order| && t.fn.order[j] in t.fn.blocks && t.fn.blocks[t.fn.order[j]] != []
    ensures var a := t.fn.order[j]; var b := t.fn.blocks[a]; var p := Place(t, j, |b|);
      var c := Boundary(t.notes[a][|b| - 1], UpTo(t, a, |b|).pol).code;
      var f := FallThrough(t.fn, t.known, Last(b), NextBlock(t.fn, j));
      && Holds(Items(t), p, Dos(c)) && Holds(Items(t), p + |c|, f)
      && Base(t.fn, t.known, t.notes, j + 1) == p + |c| + |f|
  {
    hide WellFormed, Annotated, EmitFunction, Fits, FallThrough, Boundary, EmitUpTo, Base, Holds;
    BlockPieces(t.fn, t.known, t.notes, j);
  }

  /** The boundary code brings C into the sense every block starts in. */
  lemma BoundaryOk(notes: Notes, pol: Pol, x: X86.State, a: State, live: Live)
    requires Related(x, a, pol, live) && notes.carryDead == !live.cf
    ensures var b := Boundary(notes, pol); var s := Exec(b.code, a);
      Related(x, s, b.pol, live) && Related(x, s, CarrySub, live)
  {
    hide Exec;
    ExecNil(a);
    SimMove.NormalizeOk(pol, x.f, a, live);
  }

  lemma NotesLen(t: Unit, a: Word)
    requires Ok(t) && a in t.fn.blocks
    ensures a in t.notes && |t.notes[a]| == |t.fn.blocks[a]|
  {
  }

  /** The notes of the last instruction, and what is live there. */
  lemma LastNotes(t: Unit, a: Word)
    requires Ok(t) && a in t.fn.blocks && t.fn.blocks[a] != []
    ensures var b := t.fn.blocks[a];
      && LiveAt(b, |b|, Out(t, a)) == End(t, a)
      && NotesFor(t.fn, t.notes) && NotesOk(t.notes[a][|b| - 1], End(t, a))
      && t.notes[a][|b| - 1].carryDead == !End(t, a).cf
  {
    hide WellFormed, Emittable;
    NotesRight(t.fn, t.isFunc, t.live, t.notes, a, |t.fn.blocks[a]| - 1);
  }

  ghost function TailCode(t: Unit, j: nat): seq<Instr>
    requires Ok(t) && j < |t.fn.order| && t.fn.order[j] in t.fn.blocks && t.fn.blocks[t.fn.order[j]] != []
  {
    var a := t.fn.order[j];
    Boundary(t.notes[a][|t.fn.blocks[a]| - 1], UpTo(t, a, |t.fn.blocks[a]|).pol).code
  }

  lemma TailBoundary(t: Unit, j: nat, x: X86.State, h: Host)
    requires Ok(t) && j < |t.fn.order| && t.fn.order[j] in t.fn.blocks && t.fn.blocks[t.fn.order[j]] != []
    requires Here(t, j, |t.fn.blocks[t.fn.order[j]]|, x, h)
    ensures var c := TailCode(t, j); var s := Exec(c, h.a);
      && Reaches(Items(t), h, Running(h.pos + |c|, s)) && Related(x, s, CarrySub, End(t, t.fn.order[j]))
  {
    hide WellFormed, Annotated, Emittable, EmitFunction, Related, Exec, LiveOut, Boundary, End, LiveAt, Reaches,
         EmitUpTo, FallThrough, Base, Holds;
    var a := t.fn.order[j];
    var b := t.fn.blocks[a];
    TailHolds(t, j);
    LastNotes(t, a);
    BoundaryOk(t.notes[a][|b| - 1], UpTo(t, a, |b|).pol, x, h.a, End(t, a));
    RunDos(Items(t), h.pos, TailCode(t, j), h.a);
  }

  /** Falling off the end of a block. */
  lemma TailStep(t: Unit, j: nat, x: X86.State, h: Host) returns (h': Host)
    requires Ok(t) && j < |t.fn.order| && t.fn.order[j] in t.fn.blocks
    requires var b := t.fn.blocks[t.fn.order[j]];
      b != [] && Fits(Last(b)) && FallsThrough(Last(b).i) && Here(t, j, |b|, x, h)
    ensures Reaches(Items(t), h, h') && Matches(t, At(Next(Last(t.fn.blocks[t.fn.order[j]])), x), h')
  {
    hide WellFormed, Annotated, Emittable, EmitFunction, Related, Exec, LiveOut, MayGo, Matches, Fits, Boundary, End,
         LiveAt, Reaches, EmitUpTo, BranchTo, Base, Holds;
    TailBoundary(t, j, x, h);
    TailHolds(t, j);
    var a := t.fn.order[j];
    MayGoOk(t, a);
    var c := TailCode(t, j);
    var p, s := h.pos + |c|, Exec(c, h.a);
    h' := TailGo(t, j, p, x, s);
    ReachesTrans(Items(t), h, Running(p, s), h');
  }

  /** The fall-through branch, or none. */
  lemma TailGo(t: Unit, j: nat, p: nat, x: X86.State, s: State) returns (h': Host)
    requires Ok(t) && j < |t.fn.order| && t.fn.order[j] in t.fn.blocks
    requires var a := t.fn.order[j]; var b := t.fn.blocks[a];
      && b != [] && Fits(Last(b)) && FallsThrough(Last(b).i) && MayGo(t, a, Next(Last(b)))
      && Related(x, s, CarrySub, End(t, a))
      && var f := FallThrough(t.fn, t.known, Last(b), NextBlock(t.fn, j));
        Holds(Items(t), p, f) && Base(t.fn, t.known, t.notes, j + 1) == p + |f|
    ensures Reaches(Items(t), Running(p, s), h') && Matches(t, At(Next(Last(t.fn.blocks[t.fn.order[j]])), x), h')
  {
    hide WellFormed, Annotated, Emittable, EmitFunction, Related, LiveOut, MayGo, Matches, Fits, End, LiveAt, Reaches,
         Base, Holds, BranchTo;
    var a := t.fn.order[j];
    var last := Last(t.fn.blocks[a]);
    if NextBlock(t.fn, j) == Some(Next(last)) {
      BlockFacts(t, j + 1);
      h' := Arrive(t, a, j + 1, x, s);
    } else {
      h' := BranchOk(t, a, p, Next(last), x, s);
    }
  }

  // ---- one instruction ------------------------------------------------------------------------------------------

  /** The code of an instruction that does not transfer control. */
  lemma PlainStep(t: Unit, j: nat, k: nat, x: X86.State, h: Host) returns (u: X86.Flags, h': Host)
    requires Here(t, j, k, x, h) && k < |t.fn.blocks[t.fn.order[j]]|
    requires var d := t.fn.blocks[t.fn.order[j]][k]; Fits(d) && !Control(d.i)
    ensures Reaches(Items(t), h, h') && Here(t, j, k + 1, X86.Eval(t.fn.blocks[t.fn.order[j]][k].i, x, u), h')
  {
    hide WellFormed, Annotated, Emittable, EmitFunction, Related, Exec, LiveOut, Lift, X86.Eval, X86.Legal, EmitUpTo,
         Base, LiveAt, Reaches;
    var a := t.fn.order[j];
    var b := t.fn.blocks[a];
    var pol := UpTo(t, a, k).pol;
    NotesLen(t, a);
    var l := Lift(b[k].i, t.notes[a][k], pol);
    InstHolds(t, j, k);
    NotesRight(t.fn, t.isFunc, t.live, t.notes, a, k);
    LiveAtStep(b, k, Out(t, a));
    LiftSim.LiftOk(b[k].i, t.notes[a][k], pol, LiveAt(b, k + 1, Out(t, a)), x, h.a);
    RunDos(Items(t), h.pos, l.code, h.a);
    h' := Running(h.pos + |l.code|, Exec(l.code, h.a));
    u := Seen(h'.a, l.pol);
  }

  /** The last instruction of block j, and the host before it. */
  ghost predicate AtLast(t: Unit, j: nat, x: X86.State, h: Host) {
    && Ok(t) && j < |t.fn.order| && t.fn.order[j] in t.fn.blocks && t.fn.blocks[t.fn.order[j]] != []
    && Fits(Last(t.fn.blocks[t.fn.order[j]])) && Here(t, j, |t.fn.blocks[t.fn.order[j]]| - 1, x, h)
  }

  /** A jump leaves the flags that are live after it. */
  lemma JumpLive(t: Unit, j: nat, x: X86.State, h: Host)
    requires AtLast(t, j, x, h)
    requires var i := Last(t.fn.blocks[t.fn.order[j]]).i; i.Jmp? || i.Jcc?
    ensures var a := t.fn.order[j]; var k := |t.fn.blocks[a]| - 1; var live := LiveAt(t.fn.blocks[a], k, Out(t, a));
      && Weaker(End(t, a), live) && Related(x, h.a, UpTo(t, a, k).pol, live)
      && (Last(t.fn.blocks[a]).i.Jcc? ==> SimMove.CondLive(Last(t.fn.blocks[a]).i.cc, live))
  {
    hide WellFormed, Annotated, Emittable, Related, LiveOut, EmitUpTo;
    var a := t.fn.order[j];
    var b := t.fn.blocks[a];
    LiveAtStep(b, |b| - 1, Out(t, a));
    LastNotes(t, a);
  }

  lemma BoundaryKeeps(notes: Notes, pol: Pol, x: X86.State, a: State, live: Live)
    requires Related(x, a, pol, live)
    ensures var b := Boundary(notes, pol); Related(x, Exec(b.code, a), b.pol, live)
  {
    hide Exec;
    ExecNil(a);
    SimMove.NormalizeOk(pol, x.f, a, live);
  }

  lemma JmpStep(t: Unit, j: nat, x: X86.State, h: Host) returns (h': Host)
    requires AtLast(t, j, x, h) && Last(t.fn.blocks[t.fn.order[j]]).i.Jmp?
    ensures Reaches(Items(t), h, h') && Matches(t, At(Last(t.fn.blocks[t.fn.order[j]]).i.target, x), h')
  {
    hide WellFormed, Annotated, Emittable, EmitFunction, Related, Exec, LiveOut, MayGo, Matches, Fits, End, LiveAt,
         Reaches, EmitUpTo, BranchTo, Base, Holds;
    var a := t.fn.order[j];
    var k := |t.fn.blocks[a]| - 1;
    var pc := t.fn.blocks[a][k].i.target;
    NotesLen(t, a);
    InstHolds(t, j, k);
    JumpLive(t, j, x, h);
    MayGoOk(t, a);
    LastNotes(t, a);
    var pol := UpTo(t, a, k).pol;
    var c := Boundary(t.notes[a][k], pol).code;
    RelatedWeaken(x, h.a, pol, End(t, a), LiveAt(t.fn.blocks[a], k, Out(t, a)));
    BoundaryOk(t.notes[a][k], pol, x, h.a, End(t, a));
    JmpGo(t, a, h.pos, c, pc, h.a);
    h' := BranchOk(t, a, h.pos + |c|, pc, x, Exec(c, h.a));
    ReachesTrans(Items(t), h, Running(h.pos + |c|, Exec(c, h.a)), h');
  }

  lemma JmpGo(t: Unit, a: Word, p: nat, c: seq<Instr>, pc: Word, s: State)
    requires Ok(t) && Holds(Items(t), p, Dos(c) + BranchTo(t.fn, t.known, pc))
    ensures Reaches(Items(t), Running(p, s), Running(p + |c|, Exec(c, s)))
    ensures Holds(Items(t), p + |c|, BranchTo(t.fn, t.known, pc))
  {
    hide WellFormed, Annotated, Emittable, EmitFunction, Exec, Reaches, BranchTo, Holds;
    HoldsCat(Items(t), p, Dos(c), BranchTo(t.fn, t.known, pc));
    RunDos(Items(t), p, c, s);
  }

  lemma InvertOk(c: Cond, s: State)
    ensures Passes(Invert(c), s) == !Passes(c, s)
  {
  }

  /** The conditional branch, taken. */
  lemma CondTaken(t: Unit, a: Word, p: nat, cond: Cond, pc: Word, next: Word, x: X86.State, s: State) returns (h: Host)
    requires Ok(t) && a in t.fn.blocks && MayGo(t, a, pc) && Related(x, s, CarrySub, End(t, a)) && Passes(cond, s)
    requires Holds(Items(t), p, CondBranch(t.fn, t.known, cond, pc, next))
    ensures Reaches(Items(t), Running(p, s), h) && Matches(t, At(pc, x), h)
  {
    hide WellFormed, Annotated, Emittable, EmitFunction, Related, LiveOut, MayGo, Matches, End, LiveAt, BranchTo,
         Base, Reaches, Passes;
    var items := Items(t);
    var code := CondBranch(t.fn, t.known, cond, pc, next);
    ItemAt(items, p, code);
    if code == [BranchIf(cond, pc)] {
      var j := CondToBlock(t, p, cond, pc, s);
      h := Arrive(t, a, j, x, s);
      ReachesTrans(items, Running(p, s), Running(Base(t.fn, t.known, t.notes, j), s), h);
    } else {
      var skip := SkipIf(Invert(cond), |BranchTo(t.fn, t.known, pc)|);
      InvertOk(cond, s);
      HoldsCat(items, p, [skip], BranchTo(t.fn, t.known, pc));
      ReachesStep(items, Running(p, s));
      h := BranchOk(t, a, p + 1, pc, x, s);
      ReachesTrans(items, Running(p, s), Running(p + 1, s), h);
    }
  }

  lemma CondToBlock(t: Unit, p: nat, cond: Cond, pc: Word, s: State) returns (j: nat)
    requires Ok(t) && pc in t.fn.blocks && Holds(Items(t), p, [BranchIf(cond, pc)]) && Passes(cond, s)
    ensures j < |t.fn.order| && t.fn.order[j] == pc
    ensures Reaches(Items(t), Running(p, s), Running(Base(t.fn, t.known, t.notes, j), s))
  {
    hide EmitFunction, Annotated, Emittable, WellFormed, JumpTo, Base, Passes;
    ItemAt(Items(t), p, [BranchIf(cond, pc)]);
    j := JumpOk(t, pc, s);
    ReachesStep(Items(t), Running(p, s));
  }

  /** The conditional branch, not taken. */
  lemma CondNotTaken(t: Unit, p: nat, cond: Cond, pc: Word, next: Word, s: State)
    requires Ok(t) && !Passes(cond, s) && Holds(Items(t), p, CondBranch(t.fn, t.known, cond, pc, next))
    ensures Reaches(Items(t), Running(p, s), Running(p + |CondBranch(t.fn, t.known, cond, pc, next)|, s))
  {
    hide WellFormed, Annotated, Emittable, EmitFunction, BranchTo, Passes;
    InvertOk(cond, s);
    ItemAt(Items(t), p, CondBranch(t.fn, t.known, cond, pc, next));
    ReachesStep(Items(t), Running(p, s));
  }

  /** The code in front of the conditional branch: the sense is fixed when CF is live after it, and
      the condition is then the guest's. */
  lemma CondReady(t: Unit, j: nat, x: X86.State, h: Host)
    requires AtLast(t, j, x, h) && Last(t.fn.blocks[t.fn.order[j]]).i.Jcc?
    ensures var a := t.fn.order[j]; var k := |t.fn.blocks[a]| - 1; var cc := t.fn.blocks[a][k].i.cc;
      a in t.notes && k < |t.notes[a]| &&
      var b := Boundary(t.notes[a][k], UpTo(t, a, k).pol); var c := CondFor(cc, b.pol);
      var s := Exec(c.code, Exec(b.code, h.a));
      && Related(x, s, c.pol, LiveAt(t.fn.blocks[a], k, Out(t, a))) && Related(x, s, CarrySub, End(t, a))
      && Passes(c.cond, s) == X86.Holds(cc, x.f)
  {
    hide WellFormed, Annotated, Emittable, EmitFunction, Exec, LiveOut, LiveAt, EmitUpTo, Base, End, Passes,
         X86.Holds, CondFor, Fits;
    var a := t.fn.order[j];
    var k := |t.fn.blocks[a]| - 1;
    var d := t.fn.blocks[a][k];
    NotesLen(t, a);
    JumpLive(t, j, x, h);
    LastNotes(t, a);
    var live := LiveAt(t.fn.blocks[a], k, Out(t, a));
    var b := Boundary(t.notes[a][k], UpTo(t, a, k).pol);
    BoundaryKeeps(t.notes[a][k], UpTo(t, a, k).pol, x, h.a, live);
    var s := Exec(b.code, h.a);
    SimMove.CondForOk(d.i.cc, b.pol, x.f, s, live);
    var c := CondFor(d.i.cc, b.pol);
    RelatedWeaken(x, Exec(c.code, s), c.pol, End(t, a), live);
    AnySense(x, Exec(c.code, s), c.pol, End(t, a));
  }

  lemma JccStep(t: Unit, j: nat, x: X86.State, h: Host) returns (h': Host)
    requires AtLast(t, j, x, h) && Last(t.fn.blocks[t.fn.order[j]]).i.Jcc?
    ensures Reaches(Items(t), h, h') && Matches(t, At(Follow(Last(t.fn.blocks[t.fn.order[j]]), x), x), h')
  {
    hide WellFormed, Annotated, Emittable, EmitFunction, Related, Exec, LiveOut, MayGo, Matches, Fits, End, LiveAt,
         Reaches, EmitUpTo, CondBranch, Base, Holds, Passes, X86.Holds, CondFor, Boundary;
    var a := t.fn.order[j];
    var k := |t.fn.blocks[a]| - 1;
    var d := t.fn.blocks[a][k];
    CondReady(t, j, x, h);
    InstHolds(t, j, k);
    MayGoOk(t, a);
    var b := Boundary(t.notes[a][k], UpTo(t, a, k).pol);
    var c := CondFor(d.i.cc, b.pol);
    var s := Exec(c.code, Exec(b.code, h.a));
    var branch := CondBranch(t.fn, t.known, c.cond, d.i.target, Next(d));
    var p := h.pos + |b.code| + |c.code|;
    JccGo(t, h.pos, b.code, c.code, branch, h.a);
    if X86.Holds(d.i.cc, x.f) {
      h' := CondTaken(t, a, p, c.cond, d.i.target, Next(d), x, s);
      ReachesTrans(Items(t), h, Running(p, s), h');
    } else {
      CondNotTaken(t, p, c.cond, d.i.target, Next(d), s);
      var q := Running(p + |branch|, s);
      ReachesTrans(Items(t), h, Running(p, s), q);
      EndHere(t, j, x, q, c.pol);
      h' := TailStep(t, j, x, q);
      ReachesTrans(Items(t), h, q, h');
    }
  }

  lemma EndHere(t: Unit, j: nat, x: X86.State, h: Host, pol: Pol)
    requires Ok(t) && j < |t.fn.order| && t.fn.order[j] in t.fn.blocks && t.fn.blocks[t.fn.order[j]] != []
    requires var a := t.fn.order[j]; var n := |t.fn.blocks[a]|;
      && UpTo(t, a, n).pol == pol && h.Running? && h.pos == Place(t, j, n)
      && Last(t.fn.blocks[a]).i.Jcc? && Related(x, h.a, pol, LiveAt(t.fn.blocks[a], n - 1, Out(t, a)))
    ensures Here(t, j, |t.fn.blocks[t.fn.order[j]]|, x, h)
  {
    hide WellFormed, Annotated, Emittable, Related, LiveOut, EmitUpTo, Base;
    var a := t.fn.order[j];
    var b := t.fn.blocks[a];
    LiveAtStep(b, |b| - 1, Out(t, a));
    RelatedWeaken(x, h.a, pol, LiveAt(b, |b|, Out(t, a)), LiveAt(b, |b| - 1, Out(t, a)));
  }

  lemma JccGo(t: Unit, p: nat, b: seq<Instr>, c: seq<Instr>, branch: seq<Item>, s: State)
    requires Ok(t) && Holds(Items(t), p, Dos(b) + Dos(c) + branch)
    ensures Reaches(Items(t), Running(p, s), Running(p + |b| + |c|, Exec(c, Exec(b, s))))
    ensures Holds(Items(t), p + |b| + |c|, branch)
  {
    hide WellFormed, Annotated, Emittable, EmitFunction, Exec, Reaches, Holds;
    HoldsCat(Items(t), p, Dos(b) + Dos(c), branch);
    HoldsCat(Items(t), p, Dos(b), Dos(c));
    RunDos(Items(t), p, b, s);
    RunDos(Items(t), p + |b|, c, Exec(b, s));
    ReachesTrans(Items(t), Running(p, s), Running(p + |b|, Exec(b, s)), Running(p + |b| + |c|, Exec(c, Exec(b, s))));
  }

  /** RET: the stack pointer moves, and the host returns. */
  lemma RetStep(t: Unit, j: nat, x: X86.State, h: Host) returns (u: X86.Flags, h': Host)
    requires AtLast(t, j, x, h) && Last(t.fn.blocks[t.fn.order[j]]).i.Ret?
    ensures Reaches(Items(t), h, h') && Matches(t, Returned(X86.Eval(X86.Ret, x, u)), h')
  {
    hide WellFormed, Annotated, Emittable, EmitFunction, Exec, LiveOut, LiveAt, EmitUpTo, Base, X86.Eval, Fits, Holds,
         Reaches, LiftRet;
    var a := t.fn.order[j];
    var b := t.fn.blocks[a];
    var k := |b| - 1;
    var pol := UpTo(t, a, k).pol;
    LiveAtStep(b, k, Out(t, a));
    LastNotes(t, a);
    LiftSim.RetSim(pol, LiveAt(b, |b|, Out(t, a)), x, h.a);
    var s := Exec(LiftRet(), h.a);
    u := Seen(s, pol);
    RetGo(t, j, h.pos, h.a);
    h' := Back(s);
  }

  lemma RetGo(t: Unit, j: nat, p: nat, s: State)
    requires Ok(t) && j < |t.fn.order| && t.fn.order[j] in t.fn.blocks && t.fn.blocks[t.fn.order[j]] != []
    requires p == Place(t, j, |t.fn.blocks[t.fn.order[j]]| - 1) && Last(t.fn.blocks[t.fn.order[j]]).i.Ret?
    ensures Reaches(Items(t), Running(p, s), Back(Exec(LiftRet(), s)))
  {
    hide WellFormed, Annotated, Emittable, EmitFunction, Exec, LiftRet, EmitUpTo, Base, Place;
    InstHolds(t, j, |t.fn.blocks[t.fn.order[j]]| - 1);
    var code := LiftRet();
    HoldsCat(Items(t), p, Dos(code), [Return]);
    RunDos(Items(t), p, code, s);
    ItemAt(Items(t), p + |code|, [Return]);
    ReachesStep(Items(t), Running(p + |code|, Exec(code, s)));
    ReachesTrans(Items(t), Running(p, s), Running(p + |code|, Exec(code, s)), Back(Exec(code, s)));
  }

  // ---- runs ----------------------------------------------------------------------------------------------------

  lemma Located(t: Unit, j: nat, k: nat)
    requires Ok(t) && j < |t.fn.order| && t.fn.order[j] in t.fn.blocks && k < |t.fn.blocks[t.fn.order[j]]|
    ensures var b := t.fn.blocks[t.fn.order[j]]; var d := b[k];
      && Fits(d) && d.addr in t.code && t.code[d.addr] == d
      && (k < |b| - 1 ==> !Control(d.i) && b[k + 1].addr == Next(d))
  {
    var a := t.fn.order[j];
    assert BlockOk(a, t.fn.blocks[a]);
    assert InCode(t.fn.blocks[a][k], t.code);
  }

  /** An instruction that is not the block's last, or that falls through. */
  lemma StepOn(t: Unit, j: nat, k: nat, x: X86.State, h: Host) returns (u: X86.Flags, h': Host)
    requires Here(t, j, k, x, h) && k < |t.fn.blocks[t.fn.order[j]]|
    requires var d := t.fn.blocks[t.fn.order[j]][k]; Fits(d) && !Control(d.i)
    ensures var d := t.fn.blocks[t.fn.order[j]][k];
      Reaches(Items(t), h, h') && Matches(t, At(Next(d), X86.Eval(d.i, x, u)), h')
  {
    hide WellFormed, Annotated, Emittable, EmitFunction, Related, LiveOut, X86.Eval, EmitUpTo, Base, LiveAt, Reaches,
         Place;
    var b := t.fn.blocks[t.fn.order[j]];
    var h1;
    u, h1 := PlainStep(t, j, k, x, h);
    var y := X86.Eval(b[k].i, x, u);
    Located(t, j, k);
    if k == |b| - 1 {
      h' := TailStep(t, j, y, h1);
      ReachesTrans(Items(t), h, h1, h');
    } else {
      Located(t, j, k + 1);
      h' := h1;
    }
  }

  lemma StepAt(code: Code, d: Decoded, x: X86.State, u: X86.Flags)
    requires CodeOk(code) && d.addr in code && code[d.addr] == d && Fits(d)
    ensures var y := X86.Eval(d.i, x, u);
      GuestStep(code, At(d.addr, x), u) == if d.i.Ret? then Returned(y) else At(Follow(d, x), y)
  {
    hide X86.Eval;
  }

  lemma StepFrom(t: Unit, j: nat, k: nat, x: X86.State, h: Host) returns (u: X86.Flags, h': Host)
    requires CodeOk(t.code) && Here(t, j, k, x, h) && k < |t.fn.blocks[t.fn.order[j]]|
    ensures Reaches(Items(t), h, h') && Matches(t, GuestStep(t.code, At(t.fn.blocks[t.fn.order[j]][k].addr, x), u), h')
  {
    hide Annotated, Emittable, EmitFunction, Related, LiveOut, EmitUpTo, Base, LiveAt, Reaches, Place, BlockOk,
         Matches, Closed, WellFormed, CodeOk, GuestStep, X86.Eval, Fits;
    var b := t.fn.blocks[t.fn.order[j]];
    var d := b[k];
    Located(t, j, k);
    if !Control(d.i) {
      u, h' := StepOn(t, j, k, x, h);
    } else if d.i.Ret? {
      u, h' := RetStep(t, j, x, h);
    } else {
      u := X86.Flags(false, false, false, false);
      JumpEval(d.i, x, u);
      if d.i.Jmp? { h' := JmpStep(t, j, x, h); } else { h' := JccStep(t, j, x, h); }
    }
    StepAt(t.code, d, x, u);
  }

  lemma JumpEval(i: X86.Instr, x: X86.State, u: X86.Flags)
    requires i.Jmp? || i.Jcc?
    ensures X86.Eval(i, x, u) == x
  {
  }

  /** One guest instruction is matched by the host, for the flag values the host itself shows. */
  lemma OneStep(t: Unit, c: Config, h: Host) returns (u: X86.Flags, h': Host)
    requires Ok(t) && CodeOk(t.code) && Matches(t, c, h)
    ensures Reaches(Items(t), h, h') && Matches(t, GuestStep(t.code, c, u), h')
  {
    hide WellFormed, Annotated, Emittable, EmitFunction, Related, LiveOut, EmitUpTo, Base, LiveAt, Reaches, X86.Eval,
         Fits, CodeOk;
    if c.Returned? || c.pc !in t.code {
      u, h' := X86.Flags(false, false, false, false), h;
      ReachesRefl(Items(t), h);
    } else {
      var j: nat, k: nat :| Here(t, j, k, c.x, h) && k < |t.fn.blocks[t.fn.order[j]]|
        && t.fn.blocks[t.fn.order[j]][k].addr == c.pc;
      u, h' := StepFrom(t, j, k, c.x, h);
    }
  }

  /** Every run of a translated function, of any length, is a run of its emitted code: from a host
      state that matches, for every number n of guest instructions there are flag values for what
      x86 leaves undefined such that the host reaches a state that matches the guest's. */
  lemma {:induction false} WholeRun(t: Unit, c: Config, h: Host, n: nat) returns (us: seq<X86.Flags>, h': Host)
    requires Ok(t) && CodeOk(t.code) && Matches(t, c, h)
    ensures |us| == n && Reaches(Items(t), h, h') && Matches(t, GuestRun(t.code, c, us), h')
    decreases n
  {
    hide WellFormed, Annotated, Emittable, EmitFunction, Matches, Reaches, GuestStep, CodeOk;
    if n == 0 {
      us, h' := [], h;
      ReachesRefl(Items(t), h);
    } else {
      var us0, h0 := WholeRun(t, c, h, n - 1);
      var u;
      u, h' := OneStep(t, GuestRun(t.code, c, us0), h0);
      us := us0 + [u];
      assert us[..|us| - 1] == us0;
      ReachesTrans(Items(t), h, h0, h');
    }
  }

  /** ... in particular from a call: the first emitted block is the function's entry. */
  lemma FunctionRuns(t: Unit, x: X86.State, a: State, n: nat) returns (us: seq<X86.Flags>, h': Host)
    requires Ok(t) && CodeOk(t.code) && t.fn.order != [] && t.fn.order[0] in t.fn.blocks
    requires Related(x, a, CarrySub, LiveAt(t.fn.blocks[t.fn.order[0]], 0, Out(t, t.fn.order[0])))
    ensures |us| == n && Reaches(Items(t), Running(0, a), h')
    ensures Matches(t, GuestRun(t.code, At(t.fn.order[0], x), us), h')
  {
    hide WellFormed, Annotated, Emittable, EmitFunction, Matches, Reaches, GuestStep, CodeOk, Related, LiveAt;
    var h := Entered(t, x, a);
    us, h' := WholeRun(t, At(t.fn.order[0], x), h, n);
    ReachesTrans(Items(t), Running(0, a), h, h');
  }

  lemma Entered(t: Unit, x: X86.State, a: State) returns (h: Host)
    requires Ok(t) && t.fn.order != [] && t.fn.order[0] in t.fn.blocks
    requires Related(x, a, CarrySub, LiveAt(t.fn.blocks[t.fn.order[0]], 0, Out(t, t.fn.order[0])))
    ensures Reaches(Items(t), Running(0, a), h) && Matches(t, At(t.fn.order[0], x), h)
  {
    hide WellFormed, Annotated, Emittable, EmitFunction, Reaches, Related, LiveAt, EmitBlock;
    AtLabel(t, 0, x, a, LiveAt(t.fn.blocks[t.fn.order[0]], 0, Out(t, t.fn.order[0])));
    h := HostStep(Items(t), Running(0, a));
    Decoded0(t, t.fn.order[0]);
    assert Here(t, 0, 0, x, h);
  }
}
