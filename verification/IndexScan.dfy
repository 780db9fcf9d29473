/** The backward scan of one run of instructions for the bound of a jump-table index (jumptable.go).
    Any run may be scanned. The count that is found is a bound when the instructions it was taken
    from are exact: 32- or 64-bit copies and masks, and comparisons of as much of the register as
    counts. */
module IndexScan {
  import opened Words
  import opened Guest
  import opened X86
  import opened Program
  import opened Steps

  const MaxEntries := 4096

  // ---- what an instruction writes ----------------------------------------------------------------

  /** sameGPR: a register operand of the family of g. */
  predicate IsReg(o: Operand, g: Gpr) { (o.Reg? || o.High?) && o.g == g }

  predicate IsRegister(o: Operand) { o.Reg? || o.High? }

  /** modifiesReg */
  predicate Modifies(i: Instr, g: Gpr) {
    match i
    case Arith(op, _, d, _) => op != Cmp && op != Test && IsReg(d, g)
    case IncDec(_, _, d) => IsReg(d, g)
    case Neg(_, d) => IsReg(d, g)
    case Not(_, d) => IsReg(d, g)
    case AdcSbb(_, _, d, _) => IsReg(d, g)
    case Shift(_, _, d, _) => IsReg(d, g)
    case RotCarry(_, _, d, _) => IsReg(d, g)
    case BitTest(op, _, d, _) => op != Bt && IsReg(d, g)
    case Setcc(_, d) => IsReg(d, g)
    case Cmovcc(_, _, to, _) => to == g
    case Mov(_, d, _) => IsReg(d, g)
    case Lea(_, to, _) => to == g
    case _ => false
  }

  lemma PutOther(x: State, d: Operand, v: Word, s: Size, g: Gpr)
    requires !IsReg(d, g)
    ensures Put(x, d, v, s).regs[g] == x.regs[g]
  {
    hide Merge, MergeHigh, Store, EffAddr;
  }

  /** modifiesReg is right for every instruction but RET, which ends a run. */
  lemma ModifiesOk(i: Instr, x: State, u: Flags, g: Gpr)
    requires !Modifies(i, g) && !i.Ret?
    ensures Eval(i, x, u).regs[g] == x.regs[g]
  {
    hide Put, Val, ShiftBy, RotCarryBy, EffAddr, ArithFlags, ArithResult, AddFlags, SubFlags, ShiftFlags,
         RotCarryFlags, Trunc, WithBit, Holds, Bit, BitOffset;
    forall d: Operand, v: Word, s: Size | !IsReg(d, g)
      ensures Put(x, d, v, s).regs[g] == x.regs[g]
    {
      PutOther(x, d, v, s, g);
    }
  }

  // ---- runs of instructions --------------------------------------------------------------------------

  /** Control leaves a run only at its end, and not by returning. */
  ghost predicate RunOk(run: Block) {
    && (forall k :: 0 <= k < |run| ==> Fits(run[k]) && !run[k].i.Ret?)
    && forall k :: 0 <= k < |run| - 1 ==> !Control(run[k].i)
  }

  ghost predicate StepTo(i: Instr, x: State, y: State) { exists u: Flags :: y == Eval(i, x, u) }

  /** The states of an execution of a run, for some values of undefined flags. */
  ghost predicate Execution(run: Block, xs: seq<State>) {
    |xs| == |run| + 1 && forall k :: 0 <= k < |run| ==> StepTo(run[k].i, xs[k], xs[k + 1])
  }

  lemma StepAt(run: Block, xs: seq<State>, i: nat) returns (u: Flags)
    requires Execution(run, xs) && i < |run|
    ensures xs[i + 1] == Eval(run[i].i, xs[i], u)
  {
    assert StepTo(run[i].i, xs[i], xs[i + 1]);
    u :| xs[i + 1] == Eval(run[i].i, xs[i], u);
  }

  /** How much of a register counts: after a 32-bit copy, only the low half of its source. */
  datatype Part = Whole | LowHalf

  function Of(v: Word, p: Part): (r: Word)
    ensures r <= v
  {
    if p.Whole? then v else Trunc(v, S32)
  }

  /** What counts of the source of a copy of size s, if p counts of its destination. A narrower copy
      keeps bits of the destination. */
  function Back(s: Size, p: Part): Option<Part> {
    match s case S64 => Some(p) case S32 => Some(LowHalf) case _ => None
  }

  /** Part q of r before instruction i is part p of idx before instruction j. */
  ghost predicate Carries(run: Block, i: nat, r: Gpr, q: Part, j: nat, idx: Gpr, p: Part)
    requires i <= |run| && j <= |run|
  {
    forall xs: seq<State> :: Execution(run, xs) ==> Of(xs[i].regs[r], q) == Of(xs[j].regs[idx], p)
  }

  lemma CarriesBack(run: Block, i: nat, r: Gpr, q: Part, j: nat, idx: Gpr, p: Part)
    requires RunOk(run) && i < |run| && j <= |run| && Carries(run, i + 1, r, q, j, idx, p) && !Modifies(run[i].i, r)
    ensures Carries(run, i, r, q, j, idx, p)
  {
    hide Eval, Modifies, Of, Execution;
    forall xs: seq<State> | Execution(run, xs)
      ensures |xs| == |run| + 1 && Of(xs[i].regs[r], q) == Of(xs[j].regs[idx], p)
    {
      assert |xs| == |run| + 1 by { Length(run, xs); }
      var u := StepAt(run, xs, i);
      ModifiesOk(run[i].i, xs[i], u, r);
    }
  }

  lemma Length(run: Block, xs: seq<State>)
    requires Execution(run, xs)
    ensures |xs| == |run| + 1
  {
  }

  /** A register copy. */
  predicate CopyOf(i: Instr, r: Gpr, src: Gpr) { i.Mov? && IsReg(i.dst, r) && IsReg(i.src, src) }

  lemma CopyValue(i: Instr, x: State, u: Flags, r: Gpr, src: Gpr, p: Part)
    requires CopyOf(i, r, src) && Legal(i) && Back(i.s, p).Some?
    ensures Of(Eval(i, x, u).regs[r], p) == Of(x.regs[src], Back(i.s, p).value)
  {
    TruncSmall(x.regs[src], S64);
    TruncSmall(Trunc(x.regs[src], S32), S32);
  }

  lemma CarriesCopy(run: Block, i: nat, r: Gpr, q: Part, src: Gpr, j: nat, idx: Gpr, p: Part)
    requires RunOk(run) && i < |run| && j <= |run| && Carries(run, i + 1, r, q, j, idx, p)
    requires CopyOf(run[i].i, r, src) && Back(run[i].i.s, q).Some?
    ensures Carries(run, i, src, Back(run[i].i.s, q).value, j, idx, p)
  {
    hide Eval, Of, Back;
    var q' := Back(run[i].i.s, q).value;
    forall xs: seq<State> | Execution(run, xs)
      ensures Of(xs[i].regs[src], q') == Of(xs[j].regs[idx], p)
    {
      var u := StepAt(run, xs, i);
      assert Fits(run[i]);
      CopyValue(run[i].i, xs[i], u, r, src, q);
    }
  }

  // ---- copiedFrom ------------------------------------------------------------------------------------

  /** The size of the copy of src that set idx before instruction k, with neither changed since. */
  function Copied(run: Block, k: nat, idx: Gpr, src: Gpr): Option<Size>
    requires k <= |run|
  {
    if k == 0 then None
    else
      var i := run[k - 1].i;
      if CopyOf(i, idx, src) then Some(i.s)
      else if Modifies(i, src) || Modifies(i, idx) then None
      else Copied(run, k - 1, idx, src)
  }

  predicate Unchanged(run: Block, k: nat, at: nat, g: Gpr)
    requires at <= |run|
  {
    forall m :: k <= m < at ==> !Modifies(run[m].i, g)
  }

  method CopiedFrom(run: Block, at: nat, idx: Gpr, src: Gpr) returns (yes: bool)
    requires at <= |run|
    ensures yes <==> src != idx && Copied(run, at, idx, src).Some?
  {
    if src == idx { return false; }
    var k: nat := at;
    while k > 0
      invariant k <= at && Copied(run, k, idx, src) == Copied(run, at, idx, src)
      invariant Unchanged(run, k, at, idx) && Unchanged(run, k, at, src)
    {
      k := k - 1;
      var i := run[k].i;
      if CopyOf(i, idx, src) {
        var m: nat := k + 1;
        while m < at
          invariant k < m
        {
          if Modifies(run[m].i, idx) || Modifies(run[m].i, src) { return false; }
          m := m + 1;
        }
        return true;
      }
      if Modifies(i, src) || Modifies(i, idx) { return false; }
    }
    return false;
  }

  /** What a copy found there means: as much of src as the copy moved is what counts of idx. */
  lemma {:induction false} CopiedCarries(run: Block, k: nat, at: nat, idx: Gpr, src: Gpr, p: Part, q: Part)
    requires RunOk(run) && k <= at <= |run| && src != idx && Copied(run, k, idx, src).Some?
    requires Back(Copied(run, k, idx, src).value, p) == Some(q)
    requires Carries(run, k, idx, p, at, idx, p) && Carries(run, k, src, q, at, src, q)
    ensures Carries(run, at, src, q, at, idx, p)
    decreases k
  {
    hide Carries, Modifies, RunOk, Back;
    var i := run[k - 1].i;
    CarriesBackIf(run, k - 1, src, q, at, src, q);
    if CopyOf(i, idx, src) {
      CarriesCopy(run, k - 1, idx, p, src, at, idx, p);
      CopySource(i, idx, src);
      Joined(run, k - 1, at, idx, src, p, q);
    } else {
      CarriesBackIf(run, k - 1, idx, p, at, idx, p);
      CopiedCarries(run, k - 1, at, idx, src, p, q);
    }
  }

  lemma CarriesBackIf(run: Block, i: nat, r: Gpr, q: Part, j: nat, idx: Gpr, p: Part)
    requires RunOk(run) && i < |run| && j <= |run| && Carries(run, i + 1, r, q, j, idx, p)
    ensures !Modifies(run[i].i, r) ==> Carries(run, i, r, q, j, idx, p)
  {
    hide Carries, Modifies, RunOk;
    if !Modifies(run[i].i, r) { CarriesBack(run, i, r, q, j, idx, p); }
  }

  lemma CopySource(i: Instr, idx: Gpr, src: Gpr)
    requires CopyOf(i, idx, src) && src != idx
    ensures !Modifies(i, src)
  {
  }

  lemma Joined(run: Block, k: nat, at: nat, idx: Gpr, src: Gpr, p: Part, q: Part)
    requires k <= |run| && at <= |run| && Carries(run, k, src, q, at, idx, p) && Carries(run, k, src, q, at, src, q)
    ensures Carries(run, at, src, q, at, idx, p)
  {
    hide Execution, Of;
  }

  // ---- the comparison in front of a conditional jump ---------------------------------------------

  /** copyInto */
  function CopyInto(i: Instr, r: Gpr): (res: (bool, Option<Gpr>))
    ensures res.0 == Modifies(i, r)
    ensures res.1.Some? ==> CopyOf(i, r, res.1.value)
  {
    if !Modifies(i, r) then (false, None)
    else if i.Mov? && IsRegister(i.src) then (true, Some(i.src.g))
    else (true, None)
  }

  predicate IsCheck(i: Instr) { i.Jcc? && (i.cc == A || i.cc == AE || i.cc == B || i.cc == BE) }

  predicate Above(cc: Cc) { cc == A || cc == AE }

  /** The outcome of the jump that says the index is in range. */
  predicate InRange(cc: Cc, f: Flags) { if Above(cc) then !Holds(cc, f) else Holds(cc, f) }

  /** The number of entries a comparison with k and the jump cc allow. */
  function Entries(cc: Cc, k: nat): nat { if cc == A || cc == BE then k + 1 else k }

  /** CMP r, k, or SUB r, k in front of JA and JAE. */
  predicate Compares(i: Instr, cc: Cc) {
    i.Arith? && (i.op == Cmp || (Above(cc) && i.op == Sub)) && IsRegister(i.dst) && i.src.Imm?
  }

  /** The count from the comparison found back from instruction j, for register r; 0 if there is none. */
  function FindCheck(run: Block, j: nat, r: Gpr, cc: Cc): nat
    requires j <= |run|
  {
    if j == 0 then 0
    else
      var i := run[j - 1].i;
      if i.Mov? || i.Lea? then
        var (writes, src) := CopyInto(i, r);
        if !writes then FindCheck(run, j - 1, r, cc)
        else if src.None? then 0
        else FindCheck(run, j - 1, src.value, cc)
      else if Compares(i, cc) && i.src.k < MaxEntries && (i.dst.g == r || Copied(run, j - 1, r, i.dst.g).Some?) then
        Entries(cc, i.src.k)
      else 0
  }

  /** The comparison tests all that counts of the register. */
  predicate Tests(i: Instr, q: Part)
    requires i.Arith?
  {
    i.s == S64 || (i.s == S32 && q.LowHalf?)
  }

  /** A comparison of the register itself: CMP tests all that counts of it; SUB moves it, and is exact
      only for JA and 0. */
  predicate ComparesExactly(i: Instr, q: Part, cc: Cc)
    requires Compares(i, cc)
  {
    if i.op == Sub then cc == A && i.src.k == 0 && Back(i.s, q).Some? else Tests(i, q)
  }

  /** The comparison that is found, and the copies on the way, are exact. SUB is also exact for a
      register that was copied from the one it tests before it. */
  predicate CheckExact(run: Block, j: nat, r: Gpr, q: Part, cc: Cc)
    requires j <= |run|
  {
    j > 0 ==>
      var i := run[j - 1].i;
      if i.Mov? || i.Lea? then
        var (writes, src) := CopyInto(i, r);
        if !writes then CheckExact(run, j - 1, r, q, cc)
        else src.Some? ==> Back(i.s, q).Some? && CheckExact(run, j - 1, src.value, Back(i.s, q).value, cc)
      else Compares(i, cc) ==>
        if i.dst.g == r then ComparesExactly(i, q, cc)
        else
          var s := Copied(run, j - 1, r, i.dst.g);
          s.Some? ==> Back(s.value, q).Some? && Tests(i, Back(s.value, q).value)
  }

  /** Before instruction at part p of idx is below n whenever the jump there stays in range. */
  ghost predicate Checked(run: Block, at: nat, idx: Gpr, p: Part, n: nat)
    requires at < |run| && IsCheck(run[at].i)
  {
    forall xs: seq<State> :: Execution(run, xs) && InRange(run[at].i.cc, xs[at].f) ==> Of(xs[at].regs[idx], p) < n
  }

  ghost predicate FlagsKept(run: Block, i: nat, j: nat)
    requires i <= |run| && j <= |run|
  {
    forall xs: seq<State> :: Execution(run, xs) ==> xs[i].f == xs[j].f
  }

  lemma FlagsBack(run: Block, i: nat, j: nat)
    requires i < |run| && j <= |run| && FlagsKept(run, i + 1, j) && (run[i].i.Mov? || run[i].i.Lea?)
    ensures FlagsKept(run, i, j)
  {
    hide Eval;
    forall xs: seq<State> | Execution(run, xs)
      ensures xs[i].f == xs[j].f
    {
      var u := StepAt(run, xs, i);
      MoveFlags(run[i].i, xs[i], u);
    }
  }

  lemma MoveFlags(i: Instr, x: State, u: Flags)
    requires i.Mov? || i.Lea?
    ensures Eval(i, x, u).f == x.f
  {
    hide Val, EffAddr, Merge, MergeHigh, Store;
  }

  /** A comparison with k bounds as much of the register as it tests, unsigned, when the jump stays in
      range. */
  lemma CompareBounds(i: Instr, x: State, u: Flags, k: Word, cc: Cc)
    requires Compares(i, cc) && Legal(i) && i.src == Imm(k) && k < MaxEntries && (i.s == S32 || i.s == S64)
    requires cc == A || cc == AE || cc == B || cc == BE
    ensures InRange(cc, Eval(i, x, u).f) ==> Trunc(x.regs[i.dst.g], i.s) < Entries(cc, k)
  {
    var a := Trunc(x.regs[i.dst.g], i.s);
    TruncSmall(k, i.s);
    TruncTrunc(x.regs[i.dst.g], i.s, i.s);
    hide Trunc, Msb, SInt, Merge;
    DifferenceZero(a, k, i.s);
  }

  lemma DifferenceZero(a: Word, k: Word, s: Size)
    requires k < MaxEntries && a < Cap(s) && (s == S32 || s == S64)
    ensures Trunc(a - k - 0, s) == 0 && Trunc(a - k, s) == 0 <==> a == k
  {
  }

  lemma MergeWide(was: Word, v: Word, s: Size)
    requires (s == S32 || s == S64) && v < Cap(s)
    ensures Merge(was, v, s) == v
  {
  }

  /** The comparison at j, whose register t is r or was copied to r, bounds r. */
  lemma ComparedValue(run: Block, xs: seq<State>, j: nat, r: Gpr, q: Part, cc: Cc)
    requires RunOk(run) && Execution(run, xs) && j < |run| && |xs| == |run| + 1 && IsCheck(Jcc(cc, 0))
    requires !run[j].i.Mov? && !run[j].i.Lea? && CheckExact(run, j + 1, r, q, cc) && FindCheck(run, j + 1, r, cc) > 0
    ensures InRange(cc, xs[j + 1].f) ==> Of(xs[j + 1].regs[r], q) < FindCheck(run, j + 1, r, cc)
  {
    hide Eval, InRange, Of, Execution, CheckExact, FindCheck, Back, Legal;
    var i := run[j].i;
    var u := StepAt(run, xs, j);
    CheckForm(run, j, r, q, cc);
    assert Legal(i) by { assert Fits(run[j]); }
    CompareBounds(i, xs[j], u, i.src.k, cc);
    if i.dst.g == r {
      if i.op == Sub {
        RegForm(i);
        SubtractInRange(i.s, r, 0, A, xs[j], u);
        OfBelow(xs[j + 1].regs[r], q);
      } else {
        CmpKeeps(i, xs[j], u);
        OfTested(xs[j].regs[r], i, q);
      }
    } else {
      ComparedCopy(run, xs, j, r, q, cc, u);
    }
  }

  /** What FindCheck and CheckExact say at a comparison. */
  lemma CheckForm(run: Block, j: nat, r: Gpr, q: Part, cc: Cc)
    requires j < |run| && !run[j].i.Mov? && !run[j].i.Lea?
    requires CheckExact(run, j + 1, r, q, cc) && FindCheck(run, j + 1, r, cc) > 0
    ensures var i := run[j].i;
      && Compares(i, cc) && i.src == Imm(i.src.k) && i.src.k < MaxEntries
         && FindCheck(run, j + 1, r, cc) == Entries(cc, i.src.k)
      && (i.s == S32 || i.s == S64)
      && if i.dst.g == r then ComparesExactly(i, q, cc)
         else
           var s := Copied(run, j, r, i.dst.g);
           s.Some? && Back(s.value, q).Some? && Tests(i, Back(s.value, q).value)
  {
  }

  lemma OfBelow(v: Word, q: Part)
    ensures Of(v, q) <= v
  {
  }

  lemma RegForm(i: Instr)
    requires i.Arith? && IsRegister(i.dst) && i.src.Imm? && Legal(i) && (i.s == S32 || i.s == S64)
    ensures i == Arith(i.op, i.s, Reg(i.dst.g), Imm(i.src.k))
  {
  }

  lemma CmpKeeps(i: Instr, x: State, u: Flags)
    requires i.Arith? && i.op == Cmp
    ensures Eval(i, x, u).regs == x.regs
  {
  }

  lemma OfTested(v: Word, i: Instr, q: Part)
    requires i.Arith? && Tests(i, q)
    ensures Of(v, q) <= Trunc(v, i.s)
  {
    TruncSmall(v, S64);
  }

  lemma ComparedCopy(run: Block, xs: seq<State>, j: nat, r: Gpr, q: Part, cc: Cc, u: Flags)
    requires RunOk(run) && Execution(run, xs) && j < |run| && |xs| == |run| + 1
    requires Compares(run[j].i, cc) && run[j].i.dst.g != r && xs[j + 1] == Eval(run[j].i, xs[j], u)
    requires var s := Copied(run, j, r, run[j].i.dst.g);
      s.Some? && Back(s.value, q).Some? && Tests(run[j].i, Back(s.value, q).value)
    ensures Of(xs[j + 1].regs[r], q) <= Trunc(xs[j].regs[run[j].i.dst.g], run[j].i.s)
  {
    hide Eval, Of, Execution, Back, Copied;
    var i := run[j].i;
    var t := i.dst.g;
    ModifiesOk(i, xs[j], u, r);
    var q' := Back(Copied(run, j, r, t).value, q).value;
    CopiedCarries(run, j, j, r, t, q, q');
    OfTested(xs[j].regs[t], i, q');
  }

  /** A check that is found is right when it is exact. */
  lemma {:induction false} FoundChecks(run: Block, j: nat, r: Gpr, q: Part, at: nat, idx: Gpr, p: Part)
    requires RunOk(run) && j <= at < |run| && IsCheck(run[at].i) && CheckExact(run, j, r, q, run[at].i.cc)
    requires Carries(run, j, r, q, at, idx, p) && FlagsKept(run, j, at) && FindCheck(run, j, r, run[at].i.cc) > 0
    ensures Checked(run, at, idx, p, FindCheck(run, j, r, run[at].i.cc))
    decreases j
  {
    hide Carries, RunOk, Back, Of, Checked, FlagsKept, InRange, Copied, Modifies;
    var cc, i := run[at].i.cc, run[j - 1].i;
    if i.Mov? || i.Lea? {
      FlagsBack(run, j - 1, at);
      var (writes, src) := CopyInto(i, r);
      if !writes {
        CarriesBack(run, j - 1, r, q, at, idx, p);
        FoundChecks(run, j - 1, r, q, at, idx, p);
      } else {
        CarriesCopy(run, j - 1, r, q, src.value, at, idx, p);
        FoundChecks(run, j - 1, src.value, Back(i.s, q).value, at, idx, p);
      }
    } else {
      CheckedBy(run, j - 1, r, q, at, idx, p);
    }
  }

  lemma CheckedBy(run: Block, j: nat, r: Gpr, q: Part, at: nat, idx: Gpr, p: Part)
    requires RunOk(run) && j < at < |run| && IsCheck(run[at].i) && CheckExact(run, j + 1, r, q, run[at].i.cc)
    requires !run[j].i.Mov? && !run[j].i.Lea? && FindCheck(run, j + 1, r, run[at].i.cc) > 0
    requires Carries(run, j + 1, r, q, at, idx, p) && FlagsKept(run, j + 1, at)
    ensures Checked(run, at, idx, p, FindCheck(run, j + 1, r, run[at].i.cc))
  {
    hide Eval, InRange, Of, CheckExact, FindCheck, RunOk;
    forall xs: seq<State> | Execution(run, xs) && InRange(run[at].i.cc, xs[at].f)
      ensures Of(xs[at].regs[idx], p) < FindCheck(run, j + 1, r, run[at].i.cc)
    {
      ComparedValue(run, xs, j, r, q, run[at].i.cc);
    }
  }

  /** The search for the comparison in front of a conditional jump (rule 4 of switchTableCountKill). */
  method CheckBefore(run: Block, at: nat, idx: Gpr) returns (n: nat)
    requires at < |run| && IsCheck(run[at].i)
    ensures n == FindCheck(run, at, idx, run[at].i.cc)
  {
    var cc := run[at].i.cc;
    var cand := idx;
    var j: nat := at;
    while j > 0
      invariant j <= at && FindCheck(run, j, cand, cc) == FindCheck(run, at, idx, cc)
    {
      j := j - 1;
      var prev := run[j].i;
      if prev.Mov? || prev.Lea? {
        var (writes, src) := CopyInto(prev, cand);
        if writes {
          if src.None? { return 0; }
          cand := src.value;
        }
      } else {
        if !(prev.Arith? && (prev.op == Cmp || (Above(cc) && prev.op == Sub))) { return 0; }
        if !IsRegister(prev.dst) || !prev.src.Imm? { return 0; }
        var r, k := prev.dst.g, prev.src.k;
        var same := r == cand;
        if !same { same := CopiedFrom(run, j, cand, r); }
        if same && k < MaxEntries {
          n := Entries(cc, k);
          if n > 0 { return n; }
        }
        return 0;
      }
    }
    return 0;
  }

  // ---- switchTableCountKill ------------------------------------------------------------------------------

  /** A count, a write that is no copy, or the register the index came from. */
  datatype Scanned = Count(n: nat) | Killed | From(r: Gpr)

  /** AND r, imm with an immediate of low ones. */
  predicate IsMask(i: Instr)
    requires i.Arith?
  {
    i.src.Imm? && 0 < i.src.k < MaxEntries && Bw(BAnd, i.src.k, i.src.k + 1) == 0
  }

  predicate Masks(i: Instr, r: Gpr) { i.Arith? && i.op == And && IsReg(i.dst, r) }

  /** The scan back from instruction i for register r. */
  function Scan(run: Block, i: nat, r: Gpr): Scanned
    requires i <= |run|
  {
    if i == 0 then From(r)
    else
      var inst := run[i - 1].i;
      if Masks(inst, r) then (if IsMask(inst) then Count(inst.src.k + 1) else Killed)
      else if IsCheck(inst) && FindCheck(run, i - 1, r, inst.cc) > 0 then Count(FindCheck(run, i - 1, r, inst.cc))
      else if Modifies(inst, r) then
        (if inst.Mov? && IsRegister(inst.src) then Scan(run, i - 1, inst.src.g) else Killed)
      else Scan(run, i - 1, r)
  }

  /** What counts at the start of the run of the register found there, if q counts of r before
      instruction i; None if an instruction that the scan takes for a copy, a mask or a comparison
      is not exact. */
  function PartBefore(run: Block, i: nat, r: Gpr, q: Part): Option<Part>
    requires i <= |run|
  {
    if i == 0 then Some(q)
    else
      var inst := run[i - 1].i;
      if Masks(inst, r) then (if Back(inst.s, q).Some? then Some(q) else None)
      else if IsCheck(inst) && FindCheck(run, i - 1, r, inst.cc) > 0 then
        (if CheckExact(run, i - 1, r, q, inst.cc) then Some(q) else None)
      else if Modifies(inst, r) && inst.Mov? && IsRegister(inst.src) then
        (if Back(inst.s, q).Some? then PartBefore(run, i - 1, inst.src.g, Back(inst.s, q).value) else None)
      else if Modifies(inst, r) then Some(q)
      else PartBefore(run, i - 1, r, q)
  }

  /** The method does what the function says, on any run. */
  method SwitchTableCountKill(run: Block, idx: Gpr) returns (n: nat, killed: bool, from: Gpr)
    ensures match Scan(run, |run|, idx)
      case Count(c) => n == c && n > 0 && !killed
      case Killed => n == 0 && killed
      case From(r) => n == 0 && !killed && from == r
  {
    hide Bw;
    from := idx;
    var i: nat := |run|;
    while i > 0
      invariant i <= |run| && Scan(run, i, from) == Scan(run, |run|, idx)
    {
      i := i - 1;
      var inst := run[i].i;
      if inst.Arith? && inst.op == And && IsReg(inst.dst, from) {
        if inst.src.Imm? && 0 < inst.src.k < MaxEntries && Bw(BAnd, inst.src.k, inst.src.k + 1) == 0 {
          return inst.src.k + 1, false, from;
        }
        return 0, true, from;
      }
      if IsCheck(inst) {
        n := CheckBefore(run, i, from);
        if n > 0 { return n, false, from; }
      }
      if Modifies(inst, from) {
        if inst.Mov? && IsRegister(inst.src) {
          from := inst.src.g;
        } else {
          return 0, true, from;
        }
      }
    }
    return 0, false, from;
  }

  lemma {:induction false} ScanSmall(run: Block, i: nat, r: Gpr)
    requires i <= |run|
    ensures Scan(run, i, r).Count? ==> 0 < Scan(run, i, r).n <= MaxEntries
    decreases i
  {
    hide Bw, Modifies;
    if i > 0 {
      var inst := run[i - 1].i;
      ScanSmall(run, i - 1, r);
      if inst.Mov? && IsRegister(inst.src) { ScanSmall(run, i - 1, inst.src.g); }
      if IsCheck(inst) { CheckSmall(run, i - 1, r, inst.cc); }
    }
  }

  lemma {:induction false} CheckSmall(run: Block, j: nat, r: Gpr, cc: Cc)
    requires j <= |run|
    ensures FindCheck(run, j, r, cc) <= MaxEntries
    decreases j
  {
    hide Modifies, Copied;
    if j > 0 {
      CheckSmall(run, j - 1, r, cc);
      var (writes, src) := CopyInto(run[j - 1].i, r);
      if src.Some? { CheckSmall(run, j - 1, src.value, cc); }
    }
  }

  // ---- what the scan finds --------------------------------------------------------------------------------

  /** t before instruction j becomes r before instruction i by register copies, with no other write. */
  predicate Follows(run: Block, j: nat, t: Gpr, i: nat, r: Gpr)
    requires j <= i <= |run|
    decreases i
  {
    if j == i then t == r
    else
      var inst := run[i - 1].i;
      if inst.Mov? && IsReg(inst.dst, r) && IsRegister(inst.src) then Follows(run, j, t, i - 1, inst.src.g)
      else !Modifies(inst, r) && Follows(run, j, t, i - 1, r)
  }

  /** A copy of src into idx with neither changed since. */
  ghost predicate CopySince(run: Block, k: nat, idx: Gpr, src: Gpr, c: nat)
    requires k <= |run|
  {
    c < k && CopyOf(run[c].i, idx, src) && Unchanged(run, c + 1, k, idx) && Unchanged(run, c + 1, k, src)
  }

  /** copiedFrom finds a copy exactly where there is one. */
  lemma {:induction false} CopiedExactly(run: Block, k: nat, idx: Gpr, src: Gpr)
    requires k <= |run| && idx != src
    ensures Copied(run, k, idx, src).Some? <==> exists c: nat :: CopySince(run, k, idx, src, c)
    decreases k
  {
    hide Modifies;
    if k > 0 {
      var i := run[k - 1].i;
      CopiedExactly(run, k - 1, idx, src);
      var p: nat := k - 1;
      CopyWrites(i, idx, src);
      if CopyOf(i, idx, src) { assert CopySince(run, k, idx, src, k - 1); }
      if c: nat :| CopySince(run, k, idx, src, c) {
        if c < k - 1 { assert CopySince(run, k - 1, idx, src, c); }
      }
      if c: nat :| CopySince(run, p, idx, src, c) {
        if !Modifies(i, src) && !Modifies(i, idx) { assert CopySince(run, k, idx, src, c); }
      }
    }
  }

  lemma CopyWrites(i: Instr, idx: Gpr, src: Gpr)
    ensures CopyOf(i, idx, src) ==> Modifies(i, idx)
  {
  }

  /** A comparison of t, or of a register that t was copied from, with a constant that gives entries. */
  predicate Compared(run: Block, m: nat, t: Gpr, cc: Cc)
    requires m < |run|
  {
    var i := run[m].i;
    && !i.Mov? && !i.Lea? && Compares(i, cc) && i.src.k < MaxEntries && Entries(cc, i.src.k) > 0
    && (i.dst.g == t || Copied(run, m, t, i.dst.g).Some?)
  }

  /** Where the search for a comparison ends: only moves and address computations are passed, register copies
      are followed, and the count is that of the comparison there; without one it ends at the start of the
      run, at another instruction, or at a write that is no copy. */
  lemma {:induction false} CheckReason(run: Block, j: nat, r: Gpr, cc: Cc) returns (m: nat, t: Gpr)
    requires j <= |run|
    ensures m <= j && Follows(run, m, t, j, r) && forall q :: m <= q < j ==> run[q].i.Mov? || run[q].i.Lea?
    ensures var n := FindCheck(run, j, r, cc);
      if n > 0 then m > 0 && Compared(run, m - 1, t, cc) && n == Entries(cc, run[m - 1].i.src.k)
      else m > 0 ==>
        if run[m - 1].i.Mov? || run[m - 1].i.Lea? then Modifies(run[m - 1].i, t) && CopyInto(run[m - 1].i, t).1.None?
        else !Compared(run, m - 1, t, cc)
    decreases j
  {
    hide Modifies, Copied;
    m, t := j, r;
    if j > 0 {
      var i := run[j - 1].i;
      if i.Mov? || i.Lea? {
        var (writes, src) := CopyInto(i, r);
        if !writes {
          NoCopy(i, r);
          m, t := CheckReason(run, j - 1, r, cc);
        } else if src.Some? {
          m, t := CheckReason(run, j - 1, src.value, cc);
        }
      }
    }
  }

  lemma NoCopy(i: Instr, r: Gpr)
    requires !Modifies(i, r)
    ensures !(i.Mov? && IsReg(i.dst, r))
  {
  }

  /** What ends the scan at instruction j for register t, and with what. */
  predicate EndsWith(run: Block, j: nat, t: Gpr, found: Scanned)
    requires j < |run|
  {
    var i := run[j].i;
    match found
    case Count(n) =>
      (Masks(i, t) && IsMask(i) && n == i.src.k + 1) || (IsCheck(i) && n == FindCheck(run, j, t, i.cc) && n > 0)
    case Killed =>
      Modifies(i, t) && !(i.Mov? && IsRegister(i.src)) && !(Masks(i, t) && IsMask(i))
    case From(_) => false
  }

  /** Where the scan ends: at the first mask or check with a count, going back along the copies of the
      register; at the first write that is neither; or at the start of the run. */
  lemma {:induction false} ScanReason(run: Block, i: nat, r: Gpr) returns (k: nat, t: Gpr)
    requires i <= |run|
    ensures k <= i && Follows(run, k, t, i, r)
    ensures match Scan(run, i, r)
      case From(u) => k == 0 && u == t
      case found => k > 0 && EndsWith(run, k - 1, t, found)
    ensures forall j, u, found :: k <= j < i && Follows(run, j + 1, u, i, r) ==> !EndsWith(run, j, u, found)
    decreases i
  {
    hide Modifies, Bw, FindCheck;
    k, t := i, r;
    if i > 0 {
      var inst := run[i - 1].i;
      MaskWrites(inst, r);
      CheckWrites(inst, r);
      if Masks(inst, r) || (IsCheck(inst) && FindCheck(run, i - 1, r, inst.cc) > 0) {
      } else if Modifies(inst, r) {
        if inst.Mov? && IsRegister(inst.src) {
          assert IsReg(inst.dst, r) by { CopyIs(inst, r); }
          k, t := ScanReason(run, i - 1, inst.src.g);
        }
      } else {
        NoCopy(inst, r);
        k, t := ScanReason(run, i - 1, r);
      }
    }
  }

  lemma MaskWrites(i: Instr, r: Gpr)
    ensures Masks(i, r) ==> Modifies(i, r) && !i.Mov? && !IsCheck(i)
  {
  }

  lemma CheckWrites(i: Instr, r: Gpr)
    ensures IsCheck(i) ==> !Modifies(i, r) && !i.Mov?
  {
  }

  // ---- what the scan means --------------------------------------------------------------------------------

  /** The last jump of the run, if it is a bounds check, stayed in range. */
  ghost predicate StaysInRange(run: Block, xs: seq<State>)
    requires |xs| == |run| + 1
  {
    run != [] && IsCheck(Last(run).i) ==> InRange(Last(run).i.cc, xs[|run| - 1].f)
  }

  /** On every execution of the run that stays in range, part p of idx ends below n. */
  ghost predicate BoundAtEnd(run: Block, idx: Gpr, p: Part, n: nat) {
    forall xs: seq<State> :: Execution(run, xs) && StaysInRange(run, xs) ==> Of(xs[|run|].regs[idx], p) < n
  }

  lemma {:induction false} AndBelow(a: nat, b: nat)
    ensures Bw(BAnd, a, b) <= b
    decreases a + b
  {
    if a != 0 || b != 0 { AndBelow(a / 2, b / 2); }
  }

  lemma AndBounds(i: Instr, x: State, u: Flags, r: Gpr)
    requires Masks(i, r) && Legal(i) && i.src.Imm? && i.src.k < MaxEntries && (i.s == S32 || i.s == S64)
    ensures Eval(i, x, u).regs[r] <= i.src.k
  {
    hide Bw, Msb, Trunc;
    var a := Trunc(x.regs[r], i.s);
    TruncSmall(i.src.k, i.s);
    AndBelow(a, i.src.k);
    TruncSmall(Bw(BAnd, a, i.src.k), i.s);
    MergeWide(x.regs[r], Bw(BAnd, a, i.src.k), i.s);
  }

  lemma MaskBound(run: Block, i: nat, r: Gpr, q: Part, idx: Gpr, p: Part)
    requires RunOk(run) && i < |run| && Masks(run[i].i, r) && IsMask(run[i].i) && Back(run[i].i.s, q).Some?
    requires Carries(run, i + 1, r, q, |run|, idx, p)
    ensures BoundAtEnd(run, idx, p, run[i].i.src.k + 1)
  {
    hide Eval, Of, Execution, Bw;
    forall xs: seq<State> | Execution(run, xs)
      ensures |xs| == |run| + 1 && Of(xs[|run|].regs[idx], p) < run[i].i.src.k + 1
    {
      assert |xs| == |run| + 1 by { Length(run, xs); }
      var u := StepAt(run, xs, i);
      assert Fits(run[i]);
      AndBounds(run[i].i, xs[i], u, r);
    }
  }

  lemma CheckBound(run: Block, i: nat, r: Gpr, q: Part, idx: Gpr, p: Part, n: nat)
    requires RunOk(run) && i < |run| && IsCheck(run[i].i) && Carries(run, i + 1, r, q, |run|, idx, p)
    requires Checked(run, i, r, q, n)
    ensures BoundAtEnd(run, idx, p, n)
  {
    hide Eval, Execution, Holds, Of;
    CarriesBack(run, i, r, q, |run|, idx, p);
    assert i == |run| - 1;
    forall xs: seq<State> | Execution(run, xs)
      ensures |xs| == |run| + 1 && (StaysInRange(run, xs) ==> Of(xs[|run|].regs[idx], p) < n)
    {
      assert |xs| == |run| + 1 by { Length(run, xs); }
    }
  }

  /** What an exact scan found: a count bounds what counts of the index at the end of the run, and
      otherwise that part of the index is the part found of the register found at the start. */
  ghost predicate Tells(run: Block, found: Scanned, q: Part, idx: Gpr, p: Part) {
    match found
    case Count(n) => BoundAtEnd(run, idx, p, n)
    case Killed => true
    case From(r) => Carries(run, 0, r, q, |run|, idx, p)
  }

  lemma {:induction false} ScanTells(run: Block, i: nat, r: Gpr, q: Part, idx: Gpr, p: Part)
    requires RunOk(run) && i <= |run| && Carries(run, i, r, q, |run|, idx, p) && PartBefore(run, i, r, q).Some?
    ensures Tells(run, Scan(run, i, r), PartBefore(run, i, r, q).value, idx, p)
    decreases i
  {
    hide Carries, RunOk, Back, Of, BoundAtEnd, InRange, CheckExact, FindCheck, Modifies, Bw;
    if i > 0 {
      var inst := run[i - 1].i;
      CarriesBackIf(run, i - 1, r, q, |run|, idx, p);
      if Masks(inst, r) {
        if IsMask(inst) { MaskBound(run, i - 1, r, q, idx, p); }
      } else if IsCheck(inst) && FindCheck(run, i - 1, r, inst.cc) > 0 {
        CheckedAt(run, i - 1, r, q);
        CheckBound(run, i - 1, r, q, idx, p, FindCheck(run, i - 1, r, inst.cc));
      } else if Modifies(inst, r) {
        if inst.Mov? && IsRegister(inst.src) {
          assert CopyOf(inst, r, inst.src.g) by { CopyIs(inst, r); }
          CarriesCopy(run, i - 1, r, q, inst.src.g, |run|, idx, p);
          ScanTells(run, i - 1, inst.src.g, Back(inst.s, q).value, idx, p);
        }
      } else {
        ScanTells(run, i - 1, r, q, idx, p);
      }
    }
  }

  lemma CopyIs(i: Instr, r: Gpr)
    requires i.Mov? && IsRegister(i.src) && Modifies(i, r)
    ensures CopyOf(i, r, i.src.g)
  {
  }

  lemma CheckedAt(run: Block, at: nat, r: Gpr, q: Part)
    requires RunOk(run) && at < |run| && IsCheck(run[at].i) && FindCheck(run, at, r, run[at].i.cc) > 0
    requires CheckExact(run, at, r, q, run[at].i.cc)
    ensures Checked(run, at, r, q, FindCheck(run, at, r, run[at].i.cc))
  {
    FoundChecks(run, at, r, q, at, r, q);
  }

  lemma ScanRight(run: Block, idx: Gpr, p: Part)
    requires RunOk(run) && PartBefore(run, |run|, idx, p).Some?
    ensures Tells(run, Scan(run, |run|, idx), PartBefore(run, |run|, idx, p).value, idx, p)
  {
    ScanTells(run, |run|, idx, p, idx, p);
  }

  // ---- SUB in place of CMP ---------------------------------------------------------------------------------

  /** After SUB r, k the register that was tested has moved: when JA or JAE stays in range, it is below
      the count only for JA, and then only if it was k and is 0 now. */
  lemma SubtractInRange(s: Size, r: Gpr, k: Word, cc: Cc, x: State, u: Flags)
    requires (s == S32 || s == S64) && k < MaxEntries && Above(cc)
    ensures var y := Eval(Arith(Sub, s, Reg(r), Imm(k)), x, u);
      InRange(cc, y.f) ==> (y.regs[r] < Entries(cc, k) <==> cc == A && Trunc(x.regs[r], s) == k)
  {
    var a := Trunc(x.regs[r], s);
    TruncBound(x.regs[r], s);
    SubtractValue(s, r, k, x, u);
    Borrowed(a, k, s);
    hide Trunc, Eval;
  }

  lemma SubtractValue(s: Size, r: Gpr, k: Word, x: State, u: Flags)
    requires (s == S32 || s == S64) && k < MaxEntries
    ensures var y := Eval(Arith(Sub, s, Reg(r), Imm(k)), x, u); var a := Trunc(x.regs[r], s);
      y.regs[r] == Trunc(a - k, s) && y.f.cf == (a < k) && y.f.zf == (a == k)
  {
    var a := Trunc(x.regs[r], s);
    TruncSmall(k, s);
    TruncTrunc(x.regs[r], s, s);
    TruncBound(x.regs[r], s);
    DifferenceZero(a, k, s);
    TruncBound(a - k, s);
    MergeWide(x.regs[r], Trunc(a - k, s), s);
    hide Trunc, Msb, SInt, Merge;
  }

  lemma Borrowed(a: Word, k: Word, s: Size)
    requires k < MaxEntries && a < Cap(s) && (s == S32 || s == S64)
    ensures Trunc(a - k, s) == if a >= k then a - k else a - k + Cap(s)
  {
  }

  // ---- the checks and masks that are bounds -----------------------------------------------------------

  /** A comparison of r and its jump, as the scan sees them. */
  ghost predicate CheckPair(i: Decoded, jump: Decoded, r: Gpr) {
    && Fits(i) && Fits(jump) && IsCheck(jump.i) && Compares(i.i, jump.i.cc) && i.i.dst.g == r
    && i.i.src.k < MaxEntries && Trunc(i.i.src.k, i.i.s) == i.i.src.k && Entries(jump.i.cc, i.i.src.k) > 0
  }

  /** The scan takes every comparison of r for a check. Its count is a bound exactly when the comparison
      is exact: CMP for as much of r as it tests, SUB with JA and 0 only. */
  lemma CheckExactly(i: Decoded, jump: Decoded, r: Gpr, p: Part)
    requires CheckPair(i, jump, r)
    ensures Scan([i, jump], 2, r) == Count(Entries(jump.i.cc, i.i.src.k))
    ensures BoundAtEnd([i, jump], r, p, Entries(jump.i.cc, i.i.src.k)) <==> ComparesExactly(i.i, p, jump.i.cc)
  {
    hide Eval, InRange, Execution, Modifies, Trunc, BoundAtEnd, CheckExact;
    var run := [i, jump];
    PairScan(i, jump, r, p);
    if ComparesExactly(i.i, p, jump.i.cc) {
      assert RunOk(run) && PartBefore(run, 2, r, p).Some?;
      ScanRight(run, r, p);
    } else {
      CheckMissed(i, jump, r, p);
    }
  }

  lemma PairScan(i: Decoded, jump: Decoded, r: Gpr, p: Part)
    requires CheckPair(i, jump, r)
    ensures FindCheck([i, jump], 1, r, jump.i.cc) == Entries(jump.i.cc, i.i.src.k)
    ensures Scan([i, jump], 2, r) == Count(Entries(jump.i.cc, i.i.src.k))
    ensures CheckExact([i, jump], 1, r, p, jump.i.cc) == ComparesExactly(i.i, p, jump.i.cc)
  {
  }

  /** A value that an inexact comparison lets through: its tested bits are 0. */
  function Slips(s: Size): Word { match s case S64 => 0 case S32 => 0x1_0000_0000 case _ => 0x1_0000 }

  lemma CheckMissed(i: Decoded, jump: Decoded, r: Gpr, p: Part)
    requires CheckPair(i, jump, r) && !ComparesExactly(i.i, p, jump.i.cc)
    ensures !BoundAtEnd([i, jump], r, p, Entries(jump.i.cc, i.i.src.k))
  {
    var run, u, cc := [i, jump], Flags(false, false, false, false), jump.i.cc;
    var v := if p.LowHalf? && i.i.s == S32 then 0 else Slips(i.i.s);
    var x := State(seq(16, _ => v), seq(0x1_0000_0000_0000_0000, _ => 0), u);
    var y := Eval(i.i, x, u);
    var z := Eval(jump.i, y, u);
    TwoSteps(run, x, y, z, u);
    JumpKeeps(jump.i, y, u, r);
    ZeroInRange(i.i, cc, x, u);
    StaysLarge(i.i, cc, p, x, u);
    hide Eval, InRange, Execution, Of, ComparesExactly;
    assert StaysInRange(run, [x, y, z]);
    assert [x, y, z][|run|] == z;
  }

  lemma JumpKeeps(i: Instr, x: State, u: Flags, r: Gpr)
    requires i.Jcc?
    ensures Eval(i, x, u).regs[r] == x.regs[r]
  {
  }

  lemma TwoSteps(run: Block, x: State, y: State, z: State, u: Flags)
    requires |run| == 2 && y == Eval(run[0].i, x, u) && z == Eval(run[1].i, y, u)
    ensures Execution(run, [x, y, z])
  {
    hide Eval;
    assert StepTo(run[0].i, x, y) && StepTo(run[1].i, y, z);
  }

  /** 0 is in range of every check with a count. */
  lemma ZeroInRange(i: Instr, cc: Cc, x: State, u: Flags)
    requires Compares(i, cc) && Legal(i) && Trunc(i.src.k, i.s) == i.src.k && Entries(cc, i.src.k) > 0
    requires cc == A || cc == AE || cc == B || cc == BE
    requires x.regs[i.dst.g] == Slips(i.s) || x.regs[i.dst.g] == 0
    ensures InRange(cc, Eval(i, x, u).f)
  {
    TestedZero(i, x);
    SubtractFlags(i.src.k, i.s);
    hide Val, Trunc, Put, SubFlags;
  }

  lemma TestedZero(i: Instr, x: State)
    requires i.Arith? && IsRegister(i.dst) && Legal(i) && (x.regs[i.dst.g] == Slips(i.s) || x.regs[i.dst.g] == 0)
    ensures Val(x, i.dst, i.s) == 0
  {
  }

  lemma SubtractFlags(k: Word, s: Size)
    requires Trunc(k, s) == k
    ensures SubFlags(0, k, 0, s).cf == (k > 0) && SubFlags(0, k, 0, s).zf == (k == 0)
  {
    hide Msb, SInt;
  }

  lemma StaysLarge(i: Instr, cc: Cc, p: Part, x: State, u: Flags)
    requires Compares(i, cc) && Legal(i) && i.src.k < MaxEntries && Trunc(i.src.k, i.s) == i.src.k
    requires Entries(cc, i.src.k) > 0 && !ComparesExactly(i, p, cc)
    requires x.regs[i.dst.g] == if p.LowHalf? && i.s == S32 then 0 else Slips(i.s)
    ensures Of(Eval(i, x, u).regs[i.dst.g], p) >= Entries(cc, i.src.k)
  {
    hide Eval, Put, Val, Trunc, Legal;
    var w := Eval(i, x, u).regs[i.dst.g];
    if i.op == Cmp {
      CmpKeeps(i, x, u);
      OfLarge(w, p);
    } else {
      TestedZero(i, x);
      SubtractPut(i, x, u);
      WrapsAbove(i.src.k, i.s);
      assert LegalOperand(i.dst, i.s) by { DstLegal(i); }
      PutAbove(i.dst, x, Trunc(0 - i.src.k, i.s), i.s);
      if i.s == S8 || i.s == S16 { OfLarge(w, p); }
    }
  }

  lemma DstLegal(i: Instr)
    requires i.Arith? && Legal(i)
    ensures LegalOperand(i.dst, i.s)
  {
  }

  lemma OfLarge(w: Word, p: Part)
    ensures 0x1_0000 <= w < 0x2_0000 ==> Of(w, p) == w
  {
  }

  lemma SubtractPut(i: Instr, x: State, u: Flags)
    requires i.Arith? && i.op == Sub && i.src.Imm? && Trunc(i.src.k, i.s) == i.src.k && Val(x, i.dst, i.s) == 0
    ensures Eval(i, x, u).regs == Put(x, i.dst, Trunc(0 - i.src.k, i.s), i.s).regs
  {
    hide Trunc, SubFlags, Put;
  }

  /** A narrow write keeps the bits above, a wide one replaces them. */
  lemma PutAbove(d: Operand, x: State, v: Word, s: Size)
    requires IsRegister(d) && LegalOperand(d, s) && v < Cap(s)
    ensures s == S32 || s == S64 ==> Put(x, d, v, s).regs[d.g] == v
    ensures s == S8 || s == S16 ==> x.regs[d.g] == 0x1_0000 ==> 0x1_0000 <= Put(x, d, v, s).regs[d.g] < 0x2_0000
  {
  }

  lemma WrapsAbove(k: Word, s: Size)
    requires k < MaxEntries && Trunc(k, s) == k
    ensures Trunc(0 - k, s) < Cap(s) && (k > 0 ==> Trunc(0 - k, s) == Cap(s) - k)
    ensures (s == S32 || s == S64) && k > 0 ==> Trunc(Trunc(0 - k, s), S32) == 0x1_0000_0000 - k
  {
  }

  /** A mask is a bound exactly at 32 and 64 bits: the narrower ones keep the bits above. */
  lemma MaskExactly(i: Decoded, r: Gpr, p: Part)
    requires Fits(i) && Masks(i.i, r) && IsMask(i.i)
    ensures Scan([i], 1, r) == Count(i.i.src.k + 1)
    ensures BoundAtEnd([i], r, p, i.i.src.k + 1) <==> Back(i.i.s, p).Some?
  {
    hide Eval, Of, BoundAtEnd, Bw;
    var run := [i];
    if Back(i.i.s, p).Some? {
      assert RunOk(run) && PartBefore(run, 1, r, p).Some?;
      ScanRight(run, r, p);
    } else {
      MaskMissed(i, r, p);
    }
  }

  lemma MaskMissed(i: Decoded, r: Gpr, p: Part)
    requires Fits(i) && Masks(i.i, r) && IsMask(i.i) && (i.i.s == S8 || i.i.s == S16)
    ensures !BoundAtEnd([i], r, p, i.i.src.k + 1)
  {
    var run, u := [i], Flags(false, false, false, false);
    var x := State(seq(16, _ => 0x1_0000), seq(0x1_0000_0000_0000_0000, _ => 0), u);
    var y := Eval(i.i, x, u);
    KeepsAbove(i.i, r, x, u);
    TruncSmall(y.regs[r], S32);
    hide Eval, Bw;
    assert StepTo(run[0].i, x, y);
    assert Execution(run, [x, y]);
    hide Execution;
    assert StaysInRange(run, [x, y]);
    assert [x, y][|run|] == y && Of(y.regs[r], p) >= i.i.src.k + 1;
  }

  lemma KeepsAbove(i: Instr, r: Gpr, x: State, u: Flags)
    requires Masks(i, r) && Legal(i) && (i.s == S8 || i.s == S16) && x.regs[r] == 0x1_0000
    ensures 0x1_0000 <= Eval(i, x, u).regs[r] < 0x2_0000
  {
    AndPut(i, x, u);
    TruncBound(Bw(BAnd, Val(x, i.dst, i.s), Val(x, i.src, i.s)), i.s);
    PutAbove(i.dst, x, Trunc(Bw(BAnd, Val(x, i.dst, i.s), Val(x, i.src, i.s)), i.s), i.s);
    hide Eval, Put, Bw, Val;
  }

  lemma AndPut(i: Instr, x: State, u: Flags)
    requires i.Arith? && i.op == And
    ensures Eval(i, x, u).regs == Put(x, i.dst, Trunc(Bw(BAnd, Val(x, i.dst, i.s), Val(x, i.src, i.s)), i.s), i.s).regs
  {
    hide Bw, Msb, Val, Put, Trunc;
  }

  /** SUB r, k before JA or JAE, at 32 or 64 bits: the scan finds the count, and it is a bound exactly
      for JA and k = 0. */
  lemma SubtractExactly(sub: Decoded, jump: Decoded, r: Gpr)
    requires CheckPair(sub, jump, r) && sub.i.op == Sub && (sub.i.s == S32 || sub.i.s == S64)
    ensures Scan([sub, jump], 2, r) == Count(Entries(jump.i.cc, sub.i.src.k))
    ensures BoundAtEnd([sub, jump], r, Whole, Entries(jump.i.cc, sub.i.src.k)) <==> jump.i.cc == A && sub.i.src.k == 0
  {
    hide BoundAtEnd, Scan;
    CheckExactly(sub, jump, r, Whole);
  }
}
