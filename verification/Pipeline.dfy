/** From bytes to emitted code, and the flag-skipping pass on its own. */
module Pipeline {
  import opened Words
  import opened Guest
  import X86
  import opened Effects
  import opened Lifter
  import opened Program
  import opened Liveness
  import opened Emission
  import opened Blocks
  import opened Simulation

  ghost predicate Emits(t: Unit, items: seq<Item>) { Ok(t) && items == Items(t) }

  /** Recovers, annotates and emits one function. The result is a unit that Simulation.WholeRun is
      about. */
  method TranslateFunction(e: Extent, isFunc: set<Word>, known: set<Word>)
    returns (t: Unit, items: seq<Item>, capped: bool)
    requires CodeOk(e.image) && Inside(e, e.entry)
    ensures Emits(t, items) && OnceEach(t.fn) && t.isFunc == isFunc && t.known == known
    ensures e.entry in t.code ==> t.fn.order != [] && t.fn.order[0] == e.entry
    ensures DecodedExactly(e, t.code, capped) && StartsExactly(e, t.code, t.fn.blocks, capped)
    ensures !capped ==> Closure(e, t.code)
  {
    hide Annotated, EmitFunction, Closure, DeadExactly, OnceEach, DecodedExactly, StartsExactly;
    var fn, insts;
    fn, insts, capped := RecoverFunction(e);
    FnIsOk(fn, insts);
    var notes, live := Annotate(fn, isFunc);
    EmittableOk(fn, insts, isFunc, live, notes);
    t := Simulation.Unit(insts, fn, isFunc, known, live, notes);
    var lifter := new Arm64Lifter(known);
    items := lifter.LiftFunction(fn, notes);
  }

  lemma FnIsOk(fn: Function, code: Code)
    requires WellFormed(fn, code)
    ensures FnOk(fn)
  {
    forall a | a in fn.blocks
      ensures fn.blocks[a] != [] && forall k :: 0 <= k < |fn.blocks[a]| ==> Fits(fn.blocks[a][k])
    {
      assert BlockOk(a, fn.blocks[a]);
    }
  }

  lemma EmittableOk(fn: Function, code: Code, isFunc: set<Word>, live: LiveIn, notes: AllNotes)
    requires WellFormed(fn, code) && Annotated(fn, isFunc, live, notes)
    ensures Emittable(fn, notes)
  {
    hide WellFormed, BlockMarked, Fixpoint;
    FnIsOk(fn, code);
  }

  // ---- skipped flag writes -----------------------------------------------------------------------------

  /** One instruction whose flag writes may be omitted. */
  function EvalSkip(i: X86.Instr, x: X86.State, u: X86.Flags, skip: bool): X86.State {
    if skip then X86.Eval(i, x, u).(f := x.f) else X86.Eval(i, x, u)
  }

  /** The state before instruction k of a block; us are the undefined flags, marked says whether the
      marked flag writes are omitted. */
  function RunTo(b: Block, x: X86.State, us: seq<X86.Flags>, marked: bool, k: nat): X86.State
    requires k <= |b| == |us|
  {
    if k == 0 then x
    else EvalSkip(b[k - 1].i, RunTo(b, x, us, marked, k - 1), us[k - 1], marked && Skippable(b, k - 1))
  }

  lemma {:induction false} ShiftIgnoresCarry(op: X86.ShiftOp, v: Word, p: bool, q: bool, n: nat, s: Size)
    ensures X86.ShiftBy(op, X86.VC(v, p), n, s).v == X86.ShiftBy(op, X86.VC(v, q), n, s).v
    ensures n > 0 ==> X86.ShiftBy(op, X86.VC(v, p), n, s) == X86.ShiftBy(op, X86.VC(v, q), n, s)
  {
    hide Trunc, Msb;
    if n > 0 { ShiftIgnoresCarry(op, v, p, q, n - 1, s); }
  }

  /** An instruction that reads no flag changes registers and memory alike under any flags; one
      that redefines all flags leaves the same flags. */
  lemma FlagBlind(i: X86.Instr, x: X86.State, g: X86.Flags, u: X86.Flags)
    requires !ReadsAny(i)
    ensures var y, z := X86.Eval(i, x, u), X86.Eval(i, x.(f := g), u);
      y.regs == z.regs && y.mem == z.mem && (DefinesAll(i) ==> y.f == z.f)
  {
    hide Trunc, Msb, X86.ShiftBy, EffAddr, Load, Store, X86.AddFlags, X86.SubFlags, Merge, MergeHigh, Bw,
         X86.ShiftOverflow, X86.WithBit;
    if i.Shift? {
      var n := X86.Masked(x, i.count, i.s);
      ShiftIgnoresCarry(i.shift, X86.Val(x, i.dst, i.s), x.f.cf, g.cf, n, i.s);
    }
  }

  ghost predicate SameBut(x: X86.State, y: X86.State, needed: bool) {
    x.regs == y.regs && x.mem == y.mem && (needed ==> x.f == y.f)
  }

  /** Omitting the marked flag writes is invisible: before every instruction of the block registers
      and memory are the same, and the flags too wherever something can still see them, so branches
      go the same way and the block ends in the same state. */
  lemma {:induction false} SkipInvisible(b: Block, x: X86.State, us: seq<X86.Flags>, k: nat)
    requires k <= |b| == |us|
    ensures SameBut(RunTo(b, x, us, false, k), RunTo(b, x, us, true, k), FlagsNeeded(b, k))
  {
    hide X86.Eval, DefinesAll, ReadsAny;
    if k > 0 {
      SkipInvisible(b, x, us, k - 1);
      var p, q := RunTo(b, x, us, false, k - 1), RunTo(b, x, us, true, k - 1);
      var i, u := b[k - 1].i, us[k - 1];
      if p.f == q.f {
        assert p == q;
      } else {
        FlagBlind(i, p, q.f, u);
        assert p.(f := q.f) == q;
      }
    }
  }

  lemma SkipInvisibleAtEnd(b: Block, x: X86.State, us: seq<X86.Flags>)
    requires |b| == |us|
    ensures RunTo(b, x, us, false, |b|) == RunTo(b, x, us, true, |b|)
  {
    hide RunTo;
    SkipInvisible(b, x, us, |b|);
  }
}
