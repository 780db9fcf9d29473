/** Where things are in an emitted function: every block's label is found at its block, and the
    machine runs the straight-line parts like Exec. */
module Layout {
  import opened Words
  import opened Guest
  import opened Arm
  import opened Lifter
  import opened Program
  import opened Liveness
  import opened Emission

  // ---- runs ----------------------------------------------------------------------------------------

  ghost predicate Reaches(items: seq<Item>, h: Host, h': Host) { exists n: nat :: HostRun(items, h, n) == h' }

  lemma {:induction false} RunAdd(items: seq<Item>, h: Host, m: nat, n: nat)
    ensures HostRun(items, h, m + n) == HostRun(items, HostRun(items, h, m), n)
    decreases m
  {
    if m > 0 { RunAdd(items, HostStep(items, h), m - 1, n); }
  }

  lemma ReachesTrans(items: seq<Item>, p: Host, q: Host, r: Host)
    requires Reaches(items, p, q) && Reaches(items, q, r)
    ensures Reaches(items, p, r)
  {
    var m: nat :| HostRun(items, p, m) == q;
    var n: nat :| HostRun(items, q, n) == r;
    RunAdd(items, p, m, n);
  }

  lemma ReachesRefl(items: seq<Item>, h: Host)
    ensures Reaches(items, h, h)
  {
    assert HostRun(items, h, 0) == h;
  }

  lemma ReachesStep(items: seq<Item>, h: Host)
    ensures Reaches(items, h, HostStep(items, h))
  {
    assert HostRun(items, HostStep(items, h), 0) == HostStep(items, h);
    assert HostRun(items, h, 1) == HostStep(items, h);
  }

  // ---- parts -----------------------------------------------------------------------------------------

  /** s stands at position p. */
  predicate Holds(items: seq<Item>, p: nat, s: seq<Item>) { p + |s| <= |items| && items[p..p + |s|] == s }

  lemma HoldsCat(items: seq<Item>, p: nat, s: seq<Item>, t: seq<Item>)
    requires Holds(items, p, s + t)
    ensures Holds(items, p, s) && Holds(items, p + |s|, t)
  {
    var u := s + t;
    assert items[p..p + |s|] == u[..|s|];
    assert items[p + |s|..p + |s| + |t|] == u[|s|..];
  }

  lemma HoldsWithin(items: seq<Item>, p: nat, s: seq<Item>, q: nat, t: seq<Item>)
    requires Holds(items, p, s) && Holds(s, q, t)
    ensures Holds(items, p + q, t)
  {
    var u := items[p..p + |s|];
    forall i | 0 <= i < |t|
      ensures items[p + q + i] == t[i]
    {
      assert u[q + i] == items[p + (q + i)];
      assert s[q..q + |t|][i] == s[q + i];
    }
    assert items[p + q..p + q + |t|] == t;
  }

  lemma ItemAt(items: seq<Item>, p: nat, s: seq<Item>)
    requires Holds(items, p, s) && s != []
    ensures p < |items| && items[p] == s[0]
  {
    assert items[p] == items[p..p + |s|][0];
  }

  /** Four parts in a row. */
  lemma HoldsParts(items: seq<Item>, p: nat, l: Item, e: seq<Item>, c: seq<Item>, f: seq<Item>)
    requires Holds(items, p, [l] + e + c + f)
    ensures Holds(items, p + 1, e) && Holds(items, p + 1 + |e|, c) && Holds(items, p + 1 + |e| + |c|, f)
  {
    HoldsCat(items, p, [l] + e + c, f);
    HoldsCat(items, p, [l] + e, c);
    HoldsCat(items, p, [l], e);
  }

  /** The machine runs instructions like Exec. */
  lemma {:induction false} RunDos(items: seq<Item>, p: nat, code: seq<Instr>, a: State)
    requires Holds(items, p, Dos(code))
    ensures Reaches(items, Running(p, a), Running(p + |code|, Exec(code, a)))
    decreases |code|
  {
    hide Step;
    if code == [] {
      ReachesRefl(items, Running(p, a));
    } else {
      ItemAt(items, p, Dos(code));
      var b := Step(code[0], a);
      ReachesStep(items, Running(p, a));
      assert Dos(code) == [Do(code[0])] + Dos(code[1..]);
      HoldsCat(items, p, [Do(code[0])], Dos(code[1..]));
      RunDos(items, p + 1, code[1..], b);
      ReachesTrans(items, Running(p, a), Running(p + 1, b), Running(p + |code|, Exec(code, a)));
    }
  }

  // ---- labels ------------------------------------------------------------------------------------------

  predicate NoLabels(s: seq<Item>) { forall i :: 0 <= i < |s| ==> !s[i].Label? }

  lemma InstNoLabels(fn: Function, known: set<Word>, d: Decoded, notes: Notes, pol: Pol)
    requires Fits(d)
    ensures NoLabels(EmitInst(fn, known, d, notes, pol).items)
  {
    hide Lift, CondFor, Boundary, LoadImm64;
  }

  lemma {:induction false} BodyNoLabels(fn: Function, known: set<Word>, b: Block, ns: seq<Notes>, k: nat)
    requires k <= |b| == |ns| && BlockFits(b)
    ensures NoLabels(EmitUpTo(fn, known, b, ns, k).items)
  {
    hide EmitInst, Fits;
    if k > 0 {
      BodyNoLabels(fn, known, b, ns, k - 1);
      InstNoLabels(fn, known, b[k - 1], ns[k - 1], EmitUpTo(fn, known, b, ns, k - 1).pol);
    }
  }

  /** A block's only label is its own, in front. */
  lemma BlockLabels(fn: Function, known: set<Word>, start: Word, b: Block, ns: seq<Notes>, next: Option<Word>)
    requires b != [] && |b| == |ns| && BlockFits(b)
    ensures var s := EmitBlock(fn, known, start, b, ns, next);
      s != [] && s[0] == Label(start) && NoLabels(s[1..])
  {
    hide EmitUpTo, Boundary, LoadImm64, Fits;
    BodyNoLabels(fn, known, b, ns, |b|);
  }

  ghost function Base(fn: Function, known: set<Word>, notes: AllNotes, j: nat): nat
    requires Emittable(fn, notes) && j <= |fn.order|
  {
    |EmitBlocks(fn, known, notes, j)|
  }

  ghost function BlockItems(fn: Function, known: set<Word>, notes: AllNotes, j: nat): seq<Item>
    requires Emittable(fn, notes) && j < |fn.order|
  {
    var a := fn.order[j];
    EmitBlock(fn, known, a, fn.blocks[a], notes[a], NextBlock(fn, j))
  }

  /** The labels in front of block m are those of the blocks before it. */
  lemma {:induction false} LabelsBefore(fn: Function, known: set<Word>, notes: AllNotes, m: nat, t: Word)
    requires Emittable(fn, notes) && m <= |fn.order| && forall j :: 0 <= j < m ==> fn.order[j] != t
    ensures forall q :: 0 <= q < Base(fn, known, notes, m) ==> EmitBlocks(fn, known, notes, m)[q] != Label(t)
  {
    hide EmitBlock;
    if m > 0 {
      LabelsBefore(fn, known, notes, m - 1, t);
      var a := fn.order[m - 1];
      BlockLabels(fn, known, a, fn.blocks[a], notes[a], NextBlock(fn, m - 1));
      var s := BlockItems(fn, known, notes, m - 1);
      forall i | 0 <= i < |s|
        ensures s[i] != Label(t)
      {
        if i > 0 { assert s[i] == s[1..][i - 1]; }
      }
    }
  }

  /** The blocks before the m-th come first. */
  lemma {:induction false} BlocksPrefix(fn: Function, known: set<Word>, notes: AllNotes, j: nat, m: nat)
    requires Emittable(fn, notes) && j <= m <= |fn.order|
    ensures Base(fn, known, notes, j) <= Base(fn, known, notes, m)
    ensures EmitBlocks(fn, known, notes, m)[..Base(fn, known, notes, j)] == EmitBlocks(fn, known, notes, j)
    decreases m
  {
    hide EmitBlock;
    if j < m { BlocksPrefix(fn, known, notes, j, m - 1); }
  }

  lemma BlockPlace(fn: Function, known: set<Word>, notes: AllNotes, j: nat)
    requires Emittable(fn, notes) && j < |fn.order|
    ensures Holds(EmitFunction(fn, known, notes), Base(fn, known, notes, j), BlockItems(fn, known, notes, j))
    ensures Base(fn, known, notes, j + 1) == Base(fn, known, notes, j) + |BlockItems(fn, known, notes, j)|
  {
    hide EmitBlock;
    var all := EmitBlocks(fn, known, notes, |fn.order|);
    BlocksPrefix(fn, known, notes, j + 1, |fn.order|);
    var s := BlockItems(fn, known, notes, j);
    var p := Base(fn, known, notes, j);
    assert EmitBlocks(fn, known, notes, j + 1) == EmitBlocks(fn, known, notes, j) + s;
    assert all[p..p + |s|] == EmitBlocks(fn, known, notes, j + 1)[p..p + |s|];
    assert EmitFunction(fn, known, notes)[p..p + |s|] == all[p..p + |s|];
  }

  lemma {:induction false} FindFirst(items: seq<Item>, t: Word, p: nat)
    requires p < |items| && items[p] == Label(t) && forall q :: 0 <= q < p ==> items[q] != Label(t)
    ensures Find(items, t) == Some(p)
  {
    if p > 0 { FindFirst(items[1..], t, p - 1); }
  }

  /** A branch to a block goes to the block. */
  lemma LabelPlace(fn: Function, known: set<Word>, notes: AllNotes, j: nat)
    requires Emittable(fn, notes) && j < |fn.order| && Sorted(fn.order)
    ensures Find(EmitFunction(fn, known, notes), fn.order[j]) == Some(Base(fn, known, notes, j))
  {
    hide EmitBlock;
    var items, p, t := EmitFunction(fn, known, notes), Base(fn, known, notes, j), fn.order[j];
    BlockPlace(fn, known, notes, j);
    BlockLabels(fn, known, t, fn.blocks[t], notes[t], NextBlock(fn, j));
    ItemAt(items, p, BlockItems(fn, known, notes, j));
    LabelsBefore(fn, known, notes, j, t);
    BlocksPrefix(fn, known, notes, j, |fn.order|);
    forall q | 0 <= q < p
      ensures items[q] != Label(t)
    {
      assert items[q] == EmitBlocks(fn, known, notes, |fn.order|)[q];
      assert EmitBlocks(fn, known, notes, |fn.order|)[q] == EmitBlocks(fn, known, notes, j)[q];
    }
    FindFirst(items, t, p);
  }

  // ---- instructions within a block --------------------------------------------------------------------------

  /** The code of instruction k follows that of the instructions before it. */
  lemma {:induction false} InstPlace(fn: Function, known: set<Word>, b: Block, ns: seq<Notes>, k: nat, m: nat)
    requires k < m <= |b| == |ns| && BlockFits(b)
    ensures var e := EmitUpTo(fn, known, b, ns, k);
      Holds(EmitUpTo(fn, known, b, ns, m).items, |e.items|, EmitInst(fn, known, b[k], ns[k], e.pol).items)
    decreases m
  {
    hide EmitInst, Fits;
    var e := EmitUpTo(fn, known, b, ns, m - 1);
    var i := EmitInst(fn, known, b[m - 1], ns[m - 1], e.pol).items;
    if k == m - 1 {
      assert (e.items + i)[|e.items|..|e.items| + |i|] == i;
    } else {
      InstPlace(fn, known, b, ns, k, m - 1);
      assert (e.items + i)[..|e.items|] == e.items;
      assert Holds(e.items + i, 0, e.items);
      var f := EmitUpTo(fn, known, b, ns, k);
      HoldsWithin(e.items + i, 0, e.items, |f.items|, EmitInst(fn, known, b[k], ns[k], f.pol).items);
    }
  }

  lemma BlockParts(fn: Function, known: set<Word>, notes: AllNotes, j: nat)
    requires Emittable(fn, notes) && j < |fn.order|
    ensures var a := fn.order[j]; var b := fn.blocks[a]; var e := EmitUpTo(fn, known, b, notes[a], |b|);
      BlockItems(fn, known, notes, j)
        == [Label(a)] + e.items + Dos(Boundary(notes[a][|b| - 1], e.pol).code)
          + FallThrough(fn, known, Last(b), NextBlock(fn, j))
  {
    hide EmitUpTo, Boundary, FallThrough, Dos, Fits;
  }

  /** The parts of block j: its instructions, the boundary code and the fall-through branch. */
  lemma BlockPieces(fn: Function, known: set<Word>, notes: AllNotes, j: nat)
    requires Emittable(fn, notes) && j < |fn.order|
    ensures var a := fn.order[j]; var b := fn.blocks[a]; var items := EmitFunction(fn, known, notes);
      var e := EmitUpTo(fn, known, b, notes[a], |b|);
      var c := Dos(Boundary(notes[a][|b| - 1], e.pol).code);
      var f := FallThrough(fn, known, Last(b), NextBlock(fn, j));
      var p := Base(fn, known, notes, j) + 1;
      && Holds(items, p, e.items) && Holds(items, p + |e.items|, c) && Holds(items, p + |e.items| + |c|, f)
      && Base(fn, known, notes, j + 1) == p + |e.items| + |c| + |f|
  {
    hide EmitUpTo, Boundary, FallThrough, Dos, Fits, Holds, EmitFunction, EmitBlocks, BlockItems;
    BlockPlace(fn, known, notes, j);
    BlockParts(fn, known, notes, j);
    var a := fn.order[j];
    var b := fn.blocks[a];
    var e := EmitUpTo(fn, known, b, notes[a], |b|);
    HoldsParts(EmitFunction(fn, known, notes), Base(fn, known, notes, j), Label(a), e.items,
               Dos(Boundary(notes[a][|b| - 1], e.pol).code), FallThrough(fn, known, Last(b), NextBlock(fn, j)));
  }

  lemma InstPiece(fn: Function, known: set<Word>, notes: AllNotes, j: nat, k: nat)
    requires Emittable(fn, notes) && j < |fn.order| && k < |fn.blocks[fn.order[j]]|
    ensures var a := fn.order[j]; var b := fn.blocks[a];
      var e := EmitUpTo(fn, known, b, notes[a], k); var i := EmitInst(fn, known, b[k], notes[a][k], e.pol);
      && Holds(EmitFunction(fn, known, notes), Base(fn, known, notes, j) + 1 + |e.items|, i.items)
      && EmitUpTo(fn, known, b, notes[a], k + 1) == Emitted(e.items + i.items, i.pol)
  {
    hide EmitInst, Boundary, FallThrough, Dos, Fits, EmitFunction, Holds;
    BlockPieces(fn, known, notes, j);
    var a := fn.order[j];
    var b := fn.blocks[a];
    InstPlace(fn, known, b, notes[a], k, |b|);
    var e := EmitUpTo(fn, known, b, notes[a], k);
    HoldsWithin(EmitFunction(fn, known, notes), Base(fn, known, notes, j) + 1,
      EmitUpTo(fn, known, b, notes[a], |b|).items,
                |e.items|, EmitInst(fn, known, b[k], notes[a][k], e.pol).items);
  }

  // ---- the reach of conditional branches --------------------------------------------------------------

  /** The guest bytes between a conditional branch and its target. */
  function Reach(d: Decoded): nat
    requires Fits(d) && d.i.Jcc?
  {
    if d.i.target < Next(d) then Next(d) - d.i.target else d.i.target - Next(d)
  }

  /** item is no conditional branch, or that of a guest branch to a block at most 16384 bytes away. */
  ghost predicate Near(fn: Function, item: Item) {
    item.BranchIf? ==>
      item.to in fn.blocks
        && exists d: Decoded :: InBlocks(fn, d) && Fits(d) && d.i.Jcc? && d.i.target == item.to && Reach(d) <= 16384
  }

  ghost predicate InBlocks(fn: Function, d: Decoded) {
    exists a, k :: a in fn.blocks && 0 <= k < |fn.blocks[a]| && fn.blocks[a][k] == d
  }

  ghost predicate AllNear(fn: Function, s: seq<Item>) { forall i :: 0 <= i < |s| ==> Near(fn, s[i]) }

  lemma NearCat(fn: Function, s: seq<Item>, t: seq<Item>)
    requires AllNear(fn, s) && AllNear(fn, t)
    ensures AllNear(fn, s + t)
  {
    hide Near;
  }

  lemma InstNear(fn: Function, known: set<Word>, d: Decoded, notes: Notes, pol: Pol)
    requires Fits(d) && InBlocks(fn, d)
    ensures AllNear(fn, EmitInst(fn, known, d, notes, pol).items)
  {
    hide Lift, CondFor, Boundary, LoadImm64, InBlocks;
  }

  lemma {:induction false} BodyNear(fn: Function, known: set<Word>, a: Word, ns: seq<Notes>, k: nat)
    requires a in fn.blocks && k <= |fn.blocks[a]| == |ns| && BlockFits(fn.blocks[a])
    ensures AllNear(fn, EmitUpTo(fn, known, fn.blocks[a], ns, k).items)
  {
    hide EmitInst, Fits, Near, InBlocks;
    var b := fn.blocks[a];
    if k > 0 {
      BodyNear(fn, known, a, ns, k - 1);
      assert InBlocks(fn, b[k - 1]) by { InBlock(fn, a, k - 1); }
      InstNear(fn, known, b[k - 1], ns[k - 1], EmitUpTo(fn, known, b, ns, k - 1).pol);
    }
  }

  lemma InBlock(fn: Function, a: Word, k: nat)
    requires a in fn.blocks && k < |fn.blocks[a]|
    ensures InBlocks(fn, fn.blocks[a][k])
  {
  }

  lemma BlockNear(fn: Function, known: set<Word>, a: Word, ns: seq<Notes>, next: Option<Word>)
    requires a in fn.blocks && fn.blocks[a] != [] && |fn.blocks[a]| == |ns| && BlockFits(fn.blocks[a])
    ensures AllNear(fn, EmitBlock(fn, known, a, fn.blocks[a], ns, next))
  {
    hide EmitUpTo, Boundary, Fits, InBlocks, LoadImm64;
    BodyNear(fn, known, a, ns, |fn.blocks[a]|);
  }

  lemma {:induction false} BlocksNear(fn: Function, known: set<Word>, notes: AllNotes, j: nat)
    requires Emittable(fn, notes) && j <= |fn.order|
    ensures AllNear(fn, EmitBlocks(fn, known, notes, j))
    decreases j
  {
    hide EmitBlock, Near, BlockFits;
    if j > 0 {
      var a := fn.order[j - 1];
      BlocksNear(fn, known, notes, j - 1);
      BlockNear(fn, known, a, notes[a], NextBlock(fn, j - 1));
    }
  }

  /** No conditional branch of an emitted function goes further than 16384 guest bytes: what is further takes
      the inverted branch over an unconditional one. */
  lemma BranchesNear(fn: Function, known: set<Word>, notes: AllNotes)
    requires Emittable(fn, notes)
    ensures AllNear(fn, EmitFunction(fn, known, notes))
  {
    hide Near, EmitBlocks;
    BlocksNear(fn, known, notes, |fn.order|);
    NearReturn(fn);
    NearCat(fn, EmitBlocks(fn, known, notes, |fn.order|), [Return]);
  }

  lemma NearReturn(fn: Function)
    ensures AllNear(fn, [Return])
  {
  }
}
