/** Liveness of CF and OF across the blocks of a function (carry_liveness.go) and of all flags
    within a block (analyzeBlockFlagLiveness in cfg.go): the fixpoint loop computes the all-paths
    definition, and the notes it leaves are what the lowerings rely on. */
module Liveness {
  import opened Words
  import X86
  import opened Lifter
  import opened Effects
  import opened Relation
  import opened Program

  // ---- flag sets -------------------------------------------------------------------------------

  function Union(p: FlagSet, q: FlagSet): FlagSet { FlagSet(p.cf || q.cf, p.of || q.of) }

  predicate Leq(p: FlagSet, q: FlagSet) { (p.cf ==> q.cf) && (p.of ==> q.of) }

  function Count(p: FlagSet): nat { B2N(p.cf) + B2N(p.of) }

  function Through(i: X86.Instr, live: FlagSet): FlagSet {
    var e := CarryOverflow(i);
    FlagSet(e.uses.cf || (live.cf && !e.defines.cf), e.uses.of || (live.of && !e.defines.of))
  }

  // ---- the successor graph -----------------------------------------------------------------------

  datatype Succs = Succs(blocks: seq<Word>, unknown: bool)

  /** A direct transfer to t: to a block, to another function (flags dead there), or unknown. */
  function Local(fn: Function, t: Word, isFunc: set<Word>): Succs {
    if t in fn.blocks then Succs([t], false) else Succs([], t !in isFunc)
  }

  /** Control that runs on to t. */
  function Onward(fn: Function, t: Word): Succs {
    if t in fn.blocks then Succs([t], false) else Succs([], true)
  }

  /** blockSuccessors */
  function Successors(fn: Function, b: Block, isFunc: set<Word>): Succs
    requires b != [] ==> Fits(Last(b))
  {
    if b == [] then Succs([], true)
    else
      var d := Last(b);
      match d.i
      case Ret => Succs([], false)
      case Jmp(t) => Local(fn, t, isFunc)
      case Jcc(_, t) =>
        var p, q := Local(fn, t, isFunc), Onward(fn, Next(d));
        Succs(p.blocks + q.blocks, p.unknown || q.unknown)
      case _ => Onward(fn, Next(d))
  }

  type LiveIn = map<Word, FlagSet>

  ghost predicate FnOk(fn: Function) {
    && (forall a :: a in fn.order <==> a in fn.blocks)
    && forall a :: a in fn.blocks ==>
         fn.blocks[a] != [] && forall k :: 0 <= k < |fn.blocks[a]| ==> Fits(fn.blocks[a][k])
  }

  ghost function SuccsOf(fn: Function, a: Word, isFunc: set<Word>): (s: Succs)
    requires FnOk(fn) && a in fn.blocks
    ensures forall t :: t in s.blocks ==> t in fn.blocks
  {
    Successors(fn, fn.blocks[a], isFunc)
  }

  predicate Covers(fn: Function, live: LiveIn) { live.Keys == fn.blocks.Keys }

  /** Flags live at the end of block a. */
  ghost function LiveOut(fn: Function, a: Word, isFunc: set<Word>, live: LiveIn): FlagSet
    requires FnOk(fn) && a in fn.blocks && Covers(fn, live)
  {
    var s := SuccsOf(fn, a, isFunc);
    FlagSet(s.unknown || (exists t :: t in s.blocks && t in live && live[t].cf),
            s.unknown || (exists t :: t in s.blocks && t in live && live[t].of))
  }

  /** Flags live before instruction k of b, given those live at its end. */
  function LiveBefore(b: Block, k: nat, out: FlagSet): FlagSet
    requires k <= |b|
    decreases |b| - k
  {
    if k == |b| then out else Through(b[k].i, LiveBefore(b, k + 1, out))
  }

  // ---- the all-paths definition ---------------------------------------------------------------------

  /** The flag: CF, or else OF. */
  predicate Has(p: FlagSet, carry: bool) { if carry then p.cf else p.of }

  /** Some path of at most n steps from before instruction k of block a reads the flag, or comes to
      an unknown successor, before the flag is redefined. */
  ghost predicate LiveWithin(fn: Function, a: Word, k: nat, isFunc: set<Word>, carry: bool, n: nat)
    requires FnOk(fn) && a in fn.blocks && k <= |fn.blocks[a]|
    decreases n
  {
    n > 0 &&
    var b := fn.blocks[a];
    if k < |b| then
      var e := CarryOverflow(b[k].i);
      Has(e.uses, carry) || (!Has(e.defines, carry) && LiveWithin(fn, a, k + 1, isFunc, carry, n - 1))
    else
      var s := SuccsOf(fn, a, isFunc);
      s.unknown || exists t :: t in s.blocks && t in fn.blocks && LiveWithin(fn, t, 0, isFunc, carry, n - 1)
  }

  ghost predicate LiveOnSomePath(fn: Function, a: Word, k: nat, isFunc: set<Word>, carry: bool)
    requires FnOk(fn) && a in fn.blocks && k <= |fn.blocks[a]|
  {
    exists n: nat :: LiveWithin(fn, a, k, isFunc, carry, n)
  }

  /** The equations of the analysis. */
  ghost predicate Fixpoint(fn: Function, isFunc: set<Word>, live: LiveIn)
    requires FnOk(fn)
  {
    Covers(fn, live)
      && forall a :: a in fn.blocks ==> live[a] == LiveBefore(fn.blocks[a], 0, LiveOut(fn, a, isFunc, live))
  }

  /** Nothing is marked live without a path. */
  ghost predicate Sound(fn: Function, isFunc: set<Word>, live: LiveIn)
    requires FnOk(fn)
  {
    Covers(fn, live)
      && forall a, carry :: a in fn.blocks && Has(live[a], carry) ==> LiveOnSomePath(fn, a, 0, isFunc, carry)
  }

  lemma OutHas(fn: Function, a: Word, isFunc: set<Word>, live: LiveIn, carry: bool)
    requires FnOk(fn) && a in fn.blocks && Covers(fn, live)
    ensures var s := SuccsOf(fn, a, isFunc);
      Has(LiveOut(fn, a, isFunc, live), carry)
      <==> (s.unknown || exists t :: t in s.blocks && t in live && Has(live[t], carry))
  {
    var s := SuccsOf(fn, a, isFunc);
    if t :| t in s.blocks && t in live && Has(live[t], carry) { assert if carry then live[t].cf else live[t].of; }
  }

  /** A fixpoint marks every flag that is live on some path. */
  lemma {:induction false} FixpointComplete(fn: Function, a: Word, k: nat, isFunc: set<Word>, carry: bool, n: nat,
                                            live: LiveIn)
    requires FnOk(fn) && a in fn.blocks && k <= |fn.blocks[a]| && Fixpoint(fn, isFunc, live)
    requires LiveWithin(fn, a, k, isFunc, carry, n)
    ensures Has(LiveBefore(fn.blocks[a], k, LiveOut(fn, a, isFunc, live)), carry)
    decreases n
  {
    hide LiveOut, SuccsOf, CarryOverflow, Fixpoint, FnOk, Covers;
    var b := fn.blocks[a];
    assert Covers(fn, live) by { FixpointAt(fn, a, isFunc, live); }
    if k < |b| {
      if !Has(CarryOverflow(b[k].i).uses, carry) { FixpointComplete(fn, a, k + 1, isFunc, carry, n - 1, live); }
    } else {
      OutHas(fn, a, isFunc, live, carry);
      var s := SuccsOf(fn, a, isFunc);
      if !s.unknown {
        var t :| t in s.blocks && t in fn.blocks && LiveWithin(fn, t, 0, isFunc, carry, n - 1);
        FixpointComplete(fn, t, 0, isFunc, carry, n - 1, live);
        FixpointAt(fn, t, isFunc, live);
      }
    }
  }

  lemma FixpointAt(fn: Function, a: Word, isFunc: set<Word>, live: LiveIn)
    requires FnOk(fn) && Fixpoint(fn, isFunc, live) && a in fn.blocks
    ensures Covers(fn, live) && a in live && live[a] == LiveBefore(fn.blocks[a], 0, LiveOut(fn, a, isFunc, live))
  {
  }

  /** What a sound map marks before an instruction is live on some path from there. */
  lemma {:induction false} BeforeSound(fn: Function, a: Word, k: nat, isFunc: set<Word>, carry: bool, live: LiveIn)
    requires FnOk(fn) && a in fn.blocks && k <= |fn.blocks[a]| && Sound(fn, isFunc, live)
    requires Has(LiveBefore(fn.blocks[a], k, LiveOut(fn, a, isFunc, live)), carry)
    ensures LiveOnSomePath(fn, a, k, isFunc, carry)
    decreases |fn.blocks[a]| - k
  {
    var b := fn.blocks[a];
    if k < |b| {
      if Has(CarryOverflow(b[k].i).uses, carry) {
        assert LiveWithin(fn, a, k, isFunc, carry, 1);
      } else {
        BeforeSound(fn, a, k + 1, isFunc, carry, live);
        var n: nat :| LiveWithin(fn, a, k + 1, isFunc, carry, n);
        assert LiveWithin(fn, a, k, isFunc, carry, n + 1);
      }
    } else {
      OutHas(fn, a, isFunc, live, carry);
      var s := SuccsOf(fn, a, isFunc);
      if s.unknown {
        assert LiveWithin(fn, a, k, isFunc, carry, 1);
      } else {
        var t :| t in s.blocks && t in live && Has(live[t], carry);
        var n: nat :| LiveWithin(fn, t, 0, isFunc, carry, n);
        assert LiveWithin(fn, a, k, isFunc, carry, n + 1);
      }
    }
  }

  /** The computed sets are the all-paths definition, at every point of the function. */
  lemma LiveExactly(fn: Function, a: Word, k: nat, isFunc: set<Word>, carry: bool, live: LiveIn)
    requires FnOk(fn) && a in fn.blocks && k <= |fn.blocks[a]| && Fixpoint(fn, isFunc, live) && Sound(fn, isFunc, live)
    ensures Has(LiveBefore(fn.blocks[a], k, LiveOut(fn, a, isFunc, live)), carry)
      <==> LiveOnSomePath(fn, a, k, isFunc, carry)
  {
    if LiveOnSomePath(fn, a, k, isFunc, carry) {
      var n: nat :| LiveWithin(fn, a, k, isFunc, carry, n);
      FixpointComplete(fn, a, k, isFunc, carry, n, live);
    }
    if Has(LiveBefore(fn.blocks[a], k, LiveOut(fn, a, isFunc, live)), carry) {
      BeforeSound(fn, a, k, isFunc, carry, live);
    }
  }

  // ---- the flag passes ---------------------------------------------------------------------------------

  /** Flags live at the end of block a by the current map. */
  method JoinSuccessors(fn: Function, a: Word, isFunc: set<Word>, live: LiveIn) returns (out: FlagSet)
    requires FnOk(fn) && a in fn.blocks && Covers(fn, live)
    ensures out == LiveOut(fn, a, isFunc, live)
  {
    var s := Successors(fn, fn.blocks[a], isFunc);
    assert s == SuccsOf(fn, a, isFunc);
    out := if s.unknown then BOTH else NONE;
    for i := 0 to |s.blocks|
      invariant out.cf <==> s.unknown || exists j :: 0 <= j < i && live[s.blocks[j]].cf
      invariant out.of <==> s.unknown || exists j :: 0 <= j < i && live[s.blocks[j]].of
    {
      out := Union(out, live[s.blocks[i]]);
    }
    JoinDone(s, live, out);
  }

  lemma JoinDone(s: Succs, live: LiveIn, out: FlagSet)
    requires forall t :: t in s.blocks ==> t in live
    requires out.cf <==> s.unknown || exists j :: 0 <= j < |s.blocks| && live[s.blocks[j]].cf
    requires out.of <==> s.unknown || exists j :: 0 <= j < |s.blocks| && live[s.blocks[j]].of
    ensures out.cf <==> s.unknown || exists t :: t in s.blocks && t in live && live[t].cf
    ensures out.of <==> s.unknown || exists t :: t in s.blocks && t in live && live[t].of
  {
    forall t | t in s.blocks
      ensures exists j :: 0 <= j < |s.blocks| && s.blocks[j] == t
    {
    }
  }

  /** The notes of one instruction with flags live after it. */
  predicate Marked(n: Notes, live: FlagSet) { n.carryDead == !live.cf && n.overflowDead == !live.of }

  /** The backward walk over one block. */
  method MarkBlock(b: Block, was: seq<Notes>, out: FlagSet) returns (notes: seq<Notes>, live: FlagSet)
    requires |was| == |b|
    ensures |notes| == |b| && live == LiveBefore(b, 0, out)
    ensures forall k :: 0 <= k < |b| ==> Marked(notes[k], LiveBefore(b, k + 1, out)) && notes[k].skip == was[k].skip
  {
    notes, live := was, out;
    var k := |b|;
    while k > 0
      invariant 0 <= k <= |b| == |notes| && live == LiveBefore(b, k, out)
      invariant forall j :: k <= j < |b| ==> Marked(notes[j], LiveBefore(b, j + 1, out))
      invariant forall j :: 0 <= j < |b| ==> notes[j].skip == was[j].skip
    {
      k := k - 1;
      notes := notes[k := notes[k].(carryDead := !live.cf, overflowDead := !live.of)];
      live := Through(b[k].i, live);
    }
  }

  ghost predicate Below(fn: Function, p: LiveIn, q: LiveIn) {
    Covers(fn, p) && Covers(fn, q) && forall a :: a in fn.blocks ==> Leq(p[a], q[a])
  }

  /** What one visit of block a computes. */
  ghost function Visit(fn: Function, a: Word, isFunc: set<Word>, live: LiveIn): FlagSet
    requires FnOk(fn) && a in fn.blocks && Covers(fn, live)
  {
    LiveBefore(fn.blocks[a], 0, LiveOut(fn, a, isFunc, live))
  }

  lemma {:induction false} BeforeMonotone(b: Block, k: nat, p: FlagSet, q: FlagSet)
    requires k <= |b| && Leq(p, q)
    ensures Leq(LiveBefore(b, k, p), LiveBefore(b, k, q))
    decreases |b| - k
  {
    if k < |b| { BeforeMonotone(b, k + 1, p, q); }
  }

  lemma VisitMonotone(fn: Function, a: Word, isFunc: set<Word>, p: LiveIn, q: LiveIn)
    requires FnOk(fn) && a in fn.blocks && Below(fn, p, q)
    ensures Leq(Visit(fn, a, isFunc, p), Visit(fn, a, isFunc, q))
  {
    BeforeMonotone(fn.blocks[a], 0, LiveOut(fn, a, isFunc, p), LiveOut(fn, a, isFunc, q));
  }

  /** No set is above what a visit would compute. */
  ghost predicate Rising(fn: Function, isFunc: set<Word>, live: LiveIn)
    requires FnOk(fn)
  {
    Covers(fn, live) && forall a :: a in fn.blocks ==> Leq(live[a], Visit(fn, a, isFunc, live))
  }

  lemma VisitKeeps(fn: Function, a: Word, isFunc: set<Word>, live: LiveIn)
    requires FnOk(fn) && a in fn.blocks && Rising(fn, isFunc, live) && Sound(fn, isFunc, live)
    ensures var live' := live[a := Visit(fn, a, isFunc, live)];
      Below(fn, live, live') && Rising(fn, isFunc, live') && Sound(fn, isFunc, live')
  {
    var v := Visit(fn, a, isFunc, live);
    var live' := live[a := v];
    assert Covers(fn, live') by { assert live'.Keys == live.Keys; }
    forall c | c in fn.blocks
      ensures Leq(live'[c], Visit(fn, c, isFunc, live'))
    {
      VisitMonotone(fn, c, isFunc, live, live');
    }
    forall c, carry | c in fn.blocks && Has(live'[c], carry)
      ensures LiveOnSomePath(fn, c, 0, isFunc, carry)
    {
      if c == a { BeforeSound(fn, a, 0, isFunc, carry, live); }
    }
  }

  /** Flags not yet marked live. */
  ghost function Room(order: seq<Word>, live: LiveIn): nat
    requires forall a :: a in order ==> a in live
  {
    if order == [] then 0 else 2 - Count(live[order[0]]) + Room(order[1..], live)
  }

  lemma {:induction false} RoomShrinks(order: seq<Word>, live: LiveIn, a: Word, v: FlagSet)
    requires (forall c :: c in order ==> c in live) && a in live && Leq(live[a], v)
    ensures Room(order, live[a := v]) <= Room(order, live)
    ensures a in order && v != live[a] ==> Room(order, live[a := v]) < Room(order, live)
  {
    if order != [] { RoomShrinks(order[1..], live, a, v); }
  }

  ghost predicate NotesFor(fn: Function, notes: AllNotes) {
    notes.Keys == fn.blocks.Keys && forall a :: a in fn.blocks ==> |notes[a]| == |fn.blocks[a]|
  }

  /** The notes of block a are those of the map live. */
  ghost predicate BlockMarked(fn: Function, a: Word, isFunc: set<Word>, live: LiveIn, notes: AllNotes)
    requires FnOk(fn) && a in fn.blocks && Covers(fn, live) && NotesFor(fn, notes)
  {
    forall k :: 0 <= k < |fn.blocks[a]|
      ==> Marked(notes[a][k], LiveBefore(fn.blocks[a], k + 1, LiveOut(fn, a, isFunc, live)))
  }

  /** The flags are dead after every instruction exactly when no path from there needs them. */
  ghost predicate DeadExactly(fn: Function, isFunc: set<Word>, notes: AllNotes)
    requires FnOk(fn) && NotesFor(fn, notes)
  {
    forall a, k :: a in fn.blocks && 0 <= k < |fn.blocks[a]| ==>
      && notes[a][k].carryDead == !LiveOnSomePath(fn, a, k + 1, isFunc, true)
      && notes[a][k].overflowDead == !LiveOnSomePath(fn, a, k + 1, isFunc, false)
  }

  lemma MarkedExactly(fn: Function, isFunc: set<Word>, live: LiveIn, notes: AllNotes)
    requires FnOk(fn) && NotesFor(fn, notes) && Fixpoint(fn, isFunc, live) && Sound(fn, isFunc, live)
    requires forall a :: a in fn.blocks ==> BlockMarked(fn, a, isFunc, live, notes)
    ensures DeadExactly(fn, isFunc, notes)
  {
    forall a, k | a in fn.blocks && 0 <= k < |fn.blocks[a]|
      ensures notes[a][k].carryDead == !LiveOnSomePath(fn, a, k + 1, isFunc, true)
      ensures notes[a][k].overflowDead == !LiveOnSomePath(fn, a, k + 1, isFunc, false)
    {
      LiveExactly(fn, a, k + 1, isFunc, true, live);
      LiveExactly(fn, a, k + 1, isFunc, false, live);
      assert Marked(notes[a][k], LiveBefore(fn.blocks[a], k + 1, LiveOut(fn, a, isFunc, live)));
    }
  }

  // ---- all flags within a block ----------------------------------------------------------------------------

  /** Some flag may be read before all are redefined, from before instruction k to the block's end. */
  predicate FlagsNeeded(b: Block, k: nat)
    requires k <= |b|
    decreases |b| - k
  {
    k == |b| || ReadsAny(b[k].i) || (FlagsNeeded(b, k + 1) && !DefinesAll(b[k].i))
  }

  predicate Skippable(b: Block, k: nat)
    requires k < |b|
  {
    DefinesAll(b[k].i) && !FlagsNeeded(b, k + 1)
  }

  method SkipBlock(b: Block, was: seq<Notes>) returns (notes: seq<Notes>)
    requires |was| == |b|
    ensures |notes| == |b|
    ensures forall k :: 0 <= k < |b| ==> notes[k] == was[k].(skip := was[k].skip || Skippable(b, k))
  {
    notes := was;
    var flagsLive := true;
    var k := |b|;
    while k > 0
      invariant 0 <= k <= |b| == |notes| && flagsLive == FlagsNeeded(b, k)
      invariant forall j :: 0 <= j < k ==> notes[j] == was[j]
      invariant forall j :: k <= j < |b| ==> notes[j] == was[j].(skip := was[j].skip || Skippable(b, j))
    {
      k := k - 1;
      if DefinesAll(b[k].i) {
        if !flagsLive { notes := notes[k := notes[k].(skip := true)]; }
        flagsLive := false;
      }
      if ReadsAny(b[k].i) { flagsLive := true; }
    }
  }

  /** A function under analysis: its blocks and the notes the passes write into them. */
  class FlagPasses {
    const fn: Function
    var notes: AllNotes

    constructor (fn: Function)
      ensures this.fn == fn && NotesFor(fn, notes)
      ensures forall a, k :: a in fn.blocks && 0 <= k < |fn.blocks[a]| ==> notes[a][k] == Notes(false, false, false)
    {
      this.fn := fn;
      notes := map a | a in fn.blocks :: seq(|fn.blocks[a]|, _ => Notes(false, false, false));
    }

    /** analyzeBlockFlagLiveness: the flag writes of an instruction are skipped when the next
        instruction of its block that could see them redefines all flags first. */
    method AnalyzeBlockFlags()
      requires FnOk(fn) && NotesFor(fn, notes)
      requires forall a, k :: a in fn.blocks && 0 <= k < |fn.blocks[a]| ==> !notes[a][k].skip
      modifies this`notes
      ensures NotesFor(fn, notes)
      ensures forall a, k :: a in fn.blocks && 0 <= k < |fn.blocks[a]|
                ==> notes[a][k].skip == Skippable(fn.blocks[a], k)
    {
      var i := 0;
      while i < |fn.order|
        invariant 0 <= i <= |fn.order| && NotesFor(fn, notes)
        invariant forall a, k :: a in fn.blocks && 0 <= k < |fn.blocks[a]| && notes[a][k].skip
                    ==> Skippable(fn.blocks[a], k)
        invariant forall j, k ::
                    (0 <= j < i && 0 <= k < |fn.blocks[fn.order[j]]| && Skippable(fn.blocks[fn.order[j]], k))
                    ==> notes[fn.order[j]][k].skip
      {
        var a := fn.order[i];
        assert a in fn.order;
        var marked := SkipBlock(fn.blocks[a], notes[a]);
        notes := notes[a := marked];
        i := i + 1;
      }
      forall a, k | a in fn.blocks && 0 <= k < |fn.blocks[a]|
        ensures notes[a][k].skip == Skippable(fn.blocks[a], k)
      {
        assert a in fn.order;
      }
    }

    /** One backward sweep over the blocks. */
    method Sweep(isFunc: set<Word>, start: LiveIn) returns (live: LiveIn, changed: bool)
      requires FnOk(fn) && NotesFor(fn, notes) && Rising(fn, isFunc, start) && Sound(fn, isFunc, start)
      modifies this`notes
      ensures NotesFor(fn, notes) && SkipsKept(fn, old(notes), notes)
      ensures Rising(fn, isFunc, live) && Sound(fn, isFunc, live)
      ensures changed ==> Room(fn.order, live) < Room(fn.order, start)
      ensures !changed ==> live == start && forall a :: a in fn.blocks ==> Settled(fn, a, isFunc, live, notes)
    {
      hide Visit, LiveBefore, LiveOut, LiveOnSomePath, Rising, Sound, Room, FnOk, Covers, SkipsKept, NotesFor, Settled;
      live, changed := start, false;
      ghost var was := notes;
      RisingCovers(fn, isFunc, live);
      SkipsRefl(fn, notes);
      var i := |fn.order|;
      while i > 0
        invariant 0 <= i <= |fn.order|
        invariant NotesFor(fn, notes) && SkipsKept(fn, was, notes) && OrderIn(fn, live) && Covers(fn, live)
        invariant Rising(fn, isFunc, live) && Sound(fn, isFunc, live)
        invariant changed ==> Room(fn.order, live) < Room(fn.order, start)
        invariant !changed ==> live == start
        invariant !changed ==> forall j :: i <= j < |fn.order| ==> Settled(fn, fn.order[j], isFunc, live, notes)
      {
        i := i - 1;
        var a := fn.order[i];
        ghost var before := notes;
        assert a in fn.order;
        var v := VisitBlock(isFunc, a, live);
        VisitKeeps(fn, a, isFunc, live);
        RoomShrinks(fn.order, live, a, v);
        SkipsTrans(fn, was, before, notes);
        if v != live[a] {
          live := live[a := v];
          changed := true;
        } else {
          forall j | !changed && i < j < |fn.order|
            ensures Settled(fn, fn.order[j], isFunc, live, notes)
          {
            SettledKept(fn, fn.order[j], isFunc, live, before, notes, a);
          }
          assert live[a := v] == live;
        }
        RisingCovers(fn, isFunc, live);
      }
      AllSettled(fn, isFunc, live, notes, changed);
    }

    /** The visit of one block. */
    method VisitBlock(isFunc: set<Word>, a: Word, live: LiveIn) returns (v: FlagSet)
      requires FnOk(fn) && NotesFor(fn, notes) && Covers(fn, live) && a in fn.blocks
      modifies this`notes
      ensures NotesFor(fn, notes) && SkipsKept(fn, old(notes), notes) && v == Visit(fn, a, isFunc, live)
      ensures v == live[a] ==> Settled(fn, a, isFunc, live, notes)
      ensures forall c :: c in fn.blocks && c != a ==> notes[c] == old(notes)[c]
    {
      var out := JoinSuccessors(fn, a, isFunc, live);
      var marked;
      marked, v := MarkBlock(fn.blocks[a], notes[a], out);
      notes := notes[a := marked];
    }

    /** analyzeCarryOverflowLiveness: sweeps until nothing changes. */
    method AnalyzeCarryOverflow(isFunc: set<Word>) returns (live: LiveIn)
      requires FnOk(fn) && NotesFor(fn, notes)
      modifies this`notes
      ensures NotesFor(fn, notes) && SkipsKept(fn, old(notes), notes) && DeadExactly(fn, isFunc, notes)
      ensures Fixpoint(fn, isFunc, live) && forall a :: a in fn.blocks ==> BlockMarked(fn, a, isFunc, live, notes)
    {
      hide LiveBefore, LiveOut, LiveOnSomePath, Room, SkipsKept, Sound;
      live := map a | a in fn.blocks :: NONE;
      ghost var was := notes;
      StartSound(fn, isFunc, live);
      SkipsRefl(fn, notes);
      var changed := true;
      while changed
        invariant NotesFor(fn, notes) && SkipsKept(fn, was, notes) && Rising(fn, isFunc, live)
          && Sound(fn, isFunc, live)
        invariant !changed ==> forall a :: a in fn.blocks ==> Settled(fn, a, isFunc, live, notes)
        decreases Room(fn.order, live), changed
      {
        ghost var before := notes;
        live, changed := Sweep(isFunc, live);
        SkipsTrans(fn, was, before, notes);
      }
      MarkedExactly(fn, isFunc, live, notes);
    }
  }

  /** Block a is marked by live, and a visit would not change live. */
  ghost predicate Settled(fn: Function, a: Word, isFunc: set<Word>, live: LiveIn, notes: AllNotes) {
    && FnOk(fn) && a in fn.blocks && Covers(fn, live) && NotesFor(fn, notes)
    && live[a] == Visit(fn, a, isFunc, live) && BlockMarked(fn, a, isFunc, live, notes)
  }

  ghost predicate SkipsKept(fn: Function, was: AllNotes, notes: AllNotes) {
    forall a, k :: a in fn.blocks && a in notes && a in was && 0 <= k < |notes[a]| && k < |was[a]|
      ==> notes[a][k].skip == was[a][k].skip
  }

  ghost predicate OrderIn(fn: Function, live: LiveIn) { forall a :: a in fn.order ==> a in live && a in fn.blocks }

  lemma RisingCovers(fn: Function, isFunc: set<Word>, live: LiveIn)
    requires FnOk(fn) && Rising(fn, isFunc, live)
    ensures Covers(fn, live) && OrderIn(fn, live)
  {
  }

  lemma SkipsRefl(fn: Function, notes: AllNotes)
    ensures SkipsKept(fn, notes, notes)
  {
  }

  lemma SkipsTrans(fn: Function, p: AllNotes, q: AllNotes, r: AllNotes)
    requires NotesFor(fn, q) && SkipsKept(fn, p, q) && SkipsKept(fn, q, r) && NotesFor(fn, r)
    ensures SkipsKept(fn, p, r)
  {
  }

  lemma SettledKept(fn: Function, c: Word, isFunc: set<Word>, live: LiveIn, was: AllNotes, notes: AllNotes, a: Word)
    requires Settled(fn, c, isFunc, live, was) && NotesFor(fn, notes) && Settled(fn, a, isFunc, live, notes)
    requires forall d :: d in fn.blocks && d != a ==> notes[d] == was[d]
    ensures Settled(fn, c, isFunc, live, notes)
  {
  }

  lemma AllSettled(fn: Function, isFunc: set<Word>, live: LiveIn, notes: AllNotes, changed: bool)
    requires FnOk(fn)
    requires !changed ==> forall j :: 0 <= j < |fn.order| ==> Settled(fn, fn.order[j], isFunc, live, notes)
    ensures !changed ==> forall a :: a in fn.blocks ==> Settled(fn, a, isFunc, live, notes)
  {
    forall a | !changed && a in fn.blocks
      ensures Settled(fn, a, isFunc, live, notes)
    {
      assert a in fn.order;
    }
  }

  lemma StartSound(fn: Function, isFunc: set<Word>, live: LiveIn)
    requires FnOk(fn) && Covers(fn, live) && forall a :: a in fn.blocks ==> live[a] == NONE
    ensures Rising(fn, isFunc, live) && Sound(fn, isFunc, live) && OrderIn(fn, live)
  {
  }

  // ---- what the lowerings rely on --------------------------------------------------------------------------

  /** The flags that must be right in the host before instruction k, given CF and OF live at the
      block's end; N and Z are always kept there. */
  function LiveAt(b: Block, k: nat, out: FlagSet): Live
    requires k <= |b|
  {
    Live(FlagsNeeded(b, k), LiveBefore(b, k, out).cf, LiveBefore(b, k, out).of)
  }

  lemma LiveAtStep(b: Block, k: nat, out: FlagSet)
    requires k < |b|
    ensures LiveAt(b, k, out) == Effects.Before(b[k].i, LiveAt(b, k + 1, out))
  {
  }

  /** Where no flag is needed within the block, CF and OF are dead by the other pass too, because
      every instruction that redefines all flags defines CF and OF, and every reader of those
      reads a flag. */
  lemma {:induction false} NeededCovers(b: Block, k: nat, out: FlagSet)
    requires k <= |b|
    ensures !FlagsNeeded(b, k) ==> LiveBefore(b, k, out) == NONE
    decreases |b| - k
  {
    if k < |b| { NeededCovers(b, k + 1, out); }
  }

  /** Both passes have run. */
  ghost predicate Annotated(fn: Function, isFunc: set<Word>, live: LiveIn, notes: AllNotes) {
    && FnOk(fn) && NotesFor(fn, notes) && Fixpoint(fn, isFunc, live)
    && (forall a :: a in fn.blocks ==> BlockMarked(fn, a, isFunc, live, notes))
    && (forall a, k :: a in fn.blocks && 0 <= k < |fn.blocks[a]| ==> notes[a][k].skip == Skippable(fn.blocks[a], k))
  }

  /** The notes of the two passes agree with each other and with what is live at every point. */
  lemma NotesRight(fn: Function, isFunc: set<Word>, live: LiveIn, notes: AllNotes, a: Word, k: nat)
    requires Annotated(fn, isFunc, live, notes) && a in fn.blocks && k < |fn.blocks[a]|
    ensures NotesOk(notes[a][k], LiveAt(fn.blocks[a], k + 1, LiveOut(fn, a, isFunc, live)))
  {
    hide LiveOut, LiveBefore;
    NeededCovers(fn.blocks[a], k + 1, LiveOut(fn, a, isFunc, live));
    assert Marked(notes[a][k], LiveBefore(fn.blocks[a], k + 1, LiveOut(fn, a, isFunc, live)));
  }

  /** The passes in the order the disassembler runs them. */
  method Annotate(fn: Function, isFunc: set<Word>) returns (notes: AllNotes, live: LiveIn)
    requires FnOk(fn)
    ensures Annotated(fn, isFunc, live, notes) && DeadExactly(fn, isFunc, notes)
  {
    var p := new FlagPasses(fn);
    p.AnalyzeBlockFlags();
    live := p.AnalyzeCarryOverflow(isFunc);
    notes := p.notes;
  }
}
