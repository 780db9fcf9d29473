/** The search for a jump table's index bound over the predecessor graph (findCount in cfg.go). When
    every instruction that the search takes for a copy, a mask or a comparison is exact, a bound that
    is found holds on every path from an entry that the search does not pass. */
module JumpTable {
  import opened Words
  import opened Guest
  import opened X86
  import opened Program
  import opened Steps
  import opened IndexScan

  // ---- the predecessor graph --------------------------------------------------------------------------

  /** boundHoldsOnEdge */
  predicate BoundHoldsOnEdge(last: Decoded, child: Word)
    requires Fits(last)
  {
    if !IsCheck(last.i) then true
    else if last.i.target == Next(last) then false
    else if Above(last.i.cc) then child == Next(last)
    else child == last.i.target
  }

  /** Control goes from the run to child, in the execution xs. */
  ghost predicate GoesTo(run: Block, xs: seq<State>, child: Word)
    requires RunOk(run) && Execution(run, xs)
  {
    run != [] && Follow(Last(run), xs[|run| - 1]) == child
  }

  lemma EdgeInRange(run: Block, xs: seq<State>, child: Word)
    requires RunOk(run) && Execution(run, xs) && GoesTo(run, xs, child) && BoundHoldsOnEdge(Last(run), child)
    ensures StaysInRange(run, xs)
  {
    hide Eval;
  }

  /** The decoded runs by start address, and the predecessors of each start. */
  datatype Graph = Graph(runs: map<Word, Block>, preds: map<Word, seq<Word>>)

  function RunAt(g: Graph, a: Word): Block { if a in g.runs then g.runs[a] else [] }

  function PredsOf(g: Graph, a: Word): seq<Word> { if a in g.preds then g.preds[a] else [] }

  ghost predicate GraphOk(g: Graph) {
    forall a, k :: a in g.preds && 0 <= k < |g.preds[a]| ==> RunOk(RunAt(g, g.preds[a][k]))
  }

  /** An edge of the search: the value of reg on the way from pred to child. */
  datatype Edge = Edge(pred: Word, child: Word, reg: Gpr)

  ghost predicate EdgeOk(g: Graph, e: Edge) { RunOk(RunAt(g, e.pred)) }

  /** The instructions that are scanned: all of the run, or all but a check that fails on this edge. */
  function Window(g: Graph, e: Edge): (window: Block)
    requires RunAt(g, e.pred) != [] ==> Fits(Last(RunAt(g, e.pred)))
    ensures var run := RunAt(g, e.pred);
      window == run || (run != [] && IsCheck(Last(run).i) && window == run[..|run| - 1])
  {
    var run := RunAt(g, e.pred);
    if run != [] && !BoundHoldsOnEdge(Last(run), e.child) then run[..|run| - 1] else run
  }

  ghost function EdgeScan(g: Graph, e: Edge): Scanned
    requires EdgeOk(g, e)
  {
    Scan(Window(g, e), |Window(g, e)|, e.reg)
  }

  ghost function EdgePart(g: Graph, e: Edge, p: Part): Option<Part>
    requires EdgeOk(g, e)
  {
    PartBefore(Window(g, e), |Window(g, e)|, e.reg, p)
  }

  /** The scan of one edge. */
  method ScanEdge(g: Graph, e: Edge) returns (n: nat, killed: bool, from: Gpr)
    requires EdgeOk(g, e)
    ensures match EdgeScan(g, e)
      case Count(c) => n == c && n > 0 && !killed
      case Killed => n == 0 && killed
      case From(r) => n == 0 && !killed && from == r
  {
    hide Scan;
    var run := RunAt(g, e.pred);
    if run != [] && !BoundHoldsOnEdge(Last(run), e.child) {
      run := run[..|run| - 1];
    }
    n, killed, from := SwitchTableCountKill(run, e.reg);
  }

  // ---- what the scan of an edge means -----------------------------------------------------------------

  /** Whenever control goes over the edge, part p of the register is below n. */
  ghost predicate Bounded(g: Graph, e: Edge, p: Part, n: nat)
    requires EdgeOk(g, e)
  {
    var run := RunAt(g, e.pred);
    forall xs: seq<State> :: Execution(run, xs) && GoesTo(run, xs, e.child) ==> Of(xs[|run|].regs[e.reg], p) < n
  }

  /** A count bounds the register on the edge; otherwise what counts of it there is what counts of the
      register found at the start of the predecessor. */
  ghost predicate EdgeTells(g: Graph, e: Edge, p: Part)
    requires EdgeOk(g, e) && EdgePart(g, e, p).Some?
  {
    var run := RunAt(g, e.pred);
    match EdgeScan(g, e)
    case Count(n) => Bounded(g, e, p, n)
    case Killed => true
    case From(r) => Carries(run, 0, r, EdgePart(g, e, p).value, |run|, e.reg, p)
  }

  /** An exact scan is right on its edge, on the in-range edge of a check and on the other one. */
  lemma ScanTellsEdge(g: Graph, e: Edge, p: Part)
    requires EdgeOk(g, e) && EdgePart(g, e, p).Some?
    ensures EdgeTells(g, e, p)
  {
    hide Eval, Of, Scan, PartBefore, Execution, GoesTo, StaysInRange, InRange;
    var run, window := RunAt(g, e.pred), Window(g, e);
    assert RunOk(window) by { WindowOk(g, e); }
    ScanRight(window, e.reg, p);
    if window != run {
      Trimmed(run, e.reg, p, EdgeScan(g, e), EdgePart(g, e, p).value);
    } else if EdgeScan(g, e).Count? {
      WholeBound(g, e, p, EdgeScan(g, e).n);
    }
  }

  lemma WindowOk(g: Graph, e: Edge)
    requires EdgeOk(g, e)
    ensures RunOk(Window(g, e))
  {
  }

  lemma WholeBound(g: Graph, e: Edge, p: Part, n: nat)
    requires EdgeOk(g, e) && Window(g, e) == RunAt(g, e.pred) && BoundAtEnd(RunAt(g, e.pred), e.reg, p, n)
    ensures Bounded(g, e, p, n)
  {
    hide Eval, Of;
    var run := RunAt(g, e.pred);
    forall xs: seq<State> | Execution(run, xs) && GoesTo(run, xs, e.child)
      ensures Of(xs[|run|].regs[e.reg], p) < n
    {
      EdgeInRange(run, xs, e.child);
    }
  }

  /** What a scan without the last jump says also holds behind the jump. */
  lemma Trimmed(run: Block, idx: Gpr, p: Part, found: Scanned, q: Part)
    requires RunOk(run) && run != [] && IsCheck(Last(run).i) && Tells(run[..|run| - 1], found, q, idx, p)
    ensures found.Count? ==> forall xs: seq<State> :: Execution(run, xs) ==> Of(xs[|run|].regs[idx], p) < found.n
    ensures found.From? ==> Carries(run, 0, found.r, q, |run|, idx, p)
  {
    hide Eval, Of;
    var head := run[..|run| - 1];
    forall xs: seq<State> | Execution(run, xs)
      ensures found.Count? ==> Of(xs[|run|].regs[idx], p) < found.n
      ensures found.From? ==> Of(xs[0].regs[found.r], q) == Of(xs[|run|].regs[idx], p)
    {
      var ys := xs[..|run|];
      assert Execution(head, ys);
      assert head != [] ==> !Control(Last(head).i);
      assert StaysInRange(head, ys);
      var u := StepAt(run, xs, |head|);
      ModifiesOk(run[|head|].i, xs[|head|], u, idx);
    }
  }

  // ---- paths -------------------------------------------------------------------------------------------

  /** A path through decoded runs: start addresses, and the execution of each run but the last. */
  datatype Path = Path(starts: seq<Word>, execs: seq<seq<State>>)

  ghost predicate PathOk(g: Graph, p: Path, entry: Word, goal: Word) {
    && |p.starts| == |p.execs| + 1 && p.starts[0] == entry && p.starts[|p.execs|] == goal
    && (forall i :: 0 <= i < |p.execs| ==> p.execs[i] != [] && Hop(g, p, i))
    && forall i :: 0 <= i < |p.execs| - 1 ==> p.execs[i + 1][0] == p.execs[i][|p.execs[i]| - 1]
  }

  ghost predicate Hop(g: Graph, p: Path, i: nat)
    requires i < |p.execs| && |p.starts| == |p.execs| + 1
  {
    var run := RunAt(g, p.starts[i]);
    && p.starts[i] in PredsOf(g, p.starts[i + 1])
    && RunOk(run) && Execution(run, p.execs[i]) && GoesTo(run, p.execs[i], p.starts[i + 1])
  }

  /** The state at the goal. */
  function Arrival(p: Path): State
    requires p.execs != [] && forall i :: 0 <= i < |p.execs| ==> p.execs[i] != []
  {
    p.execs[|p.execs| - 1][|p.execs[|p.execs| - 1]| - 1]
  }

  /** idx is below n at goal, however control comes there from entry. */
  ghost predicate BoundedFrom(g: Graph, entry: Word, goal: Word, idx: Gpr, n: nat) {
    forall p: Path :: PathOk(g, p, entry, goal) && p.execs != [] ==> Arrival(p).regs[idx] < n
  }

  // ---- what the search needs ------------------------------------------------------------------------

  /** An edge, and how much of its register counts. */
  datatype Tracked = Tracked(e: Edge, part: Part)

  /** All edges into node, for register r. */
  ghost predicate EdgesIn(g: Graph, node: Word, r: Gpr, p: Part, track: set<Tracked>) {
    forall k :: 0 <= k < |PredsOf(g, node)| ==> Tracked(Edge(PredsOf(g, node)[k], node, r), p) in track
  }

  ghost predicate ExactAt(g: Graph, t: Tracked, track: set<Tracked>) {
    && EdgeOk(g, t.e) && EdgePart(g, t.e, t.part).Some?
    && (EdgeScan(g, t.e).From? ==> EdgesIn(g, t.e.pred, EdgeScan(g, t.e).r, EdgePart(g, t.e, t.part).value, track))
  }

  /** The search from goal for all of idx looks at the edges in track, and all that it looks at is
      exact. */
  ghost predicate Exact(g: Graph, goal: Word, idx: Gpr, track: set<Tracked>) {
    EdgesIn(g, goal, idx, Whole, track) && forall t :: t in track ==> ExactAt(g, t, track)
  }

  /** The search does not go on past entry: it finds a count on every edge out of it that it looks at. */
  ghost predicate StopsAt(g: Graph, entry: Word, track: set<Tracked>) {
    forall t :: t in track && t.e.pred == entry ==> EdgeOk(g, t.e) && EdgeScan(g, t.e).Count?
  }

  /** Every edge that was looked at has a count up to n, or the search went on over all edges into its
      predecessor, of which there are some. */
  ghost predicate Done(g: Graph, e: Edge, n: nat, visited: set<Edge>) {
    EdgeOk(g, e) &&
    match EdgeScan(g, e)
    case Count(c) => c <= n
    case Killed => false
    case From(r) => PredsOf(g, e.pred) != [] && Seen(g, e.pred, r, visited)
  }

  ghost predicate Seen(g: Graph, node: Word, r: Gpr, visited: set<Edge>) {
    forall k :: 0 <= k < |PredsOf(g, node)| ==> Edge(PredsOf(g, node)[k], node, r) in visited
  }

  /** The search has come to an end with n. */
  ghost predicate Finished(g: Graph, goal: Word, idx: Gpr, n: nat, visited: set<Edge>) {
    Seen(g, goal, idx, visited) && forall e :: e in visited ==> Done(g, e, n, visited)
  }

  /** What a count means: a bound on every path from an entry that is no branch target, or that the
      search does not go past. */
  ghost predicate BoundFound(g: Graph, goal: Word, idx: Gpr, n: nat) {
    forall track: set<Tracked>, entry: Word ::
      Exact(g, goal, idx, track) && (PredsOf(g, entry) == [] || StopsAt(g, entry, track))
      ==> BoundedFrom(g, entry, goal, idx, n)
  }

  /** Along a path whose hops the search has looked at, what counts of the searched register stays
      below the bound. */
  lemma {:induction false} PathBound(g: Graph, p: Path, entry: Word, goal: Word, idx: Gpr, n: nat, visited: set<Edge>,
                                     track: set<Tracked>, i: nat, t: Tracked)
    requires PathOk(g, p, entry, goal) && i < |p.execs|
    requires Finished(g, goal, idx, n, visited) && Exact(g, goal, idx, track)
    requires PredsOf(g, entry) == [] || StopsAt(g, entry, track)
    requires t.e == Edge(p.starts[i], p.starts[i + 1], t.e.reg) && t in track && t.e in visited
    ensures p.execs[i] != [] && Of(p.execs[i][|p.execs[i]| - 1].regs[t.e.reg], t.part) < n
    decreases i
  {
    hide RunOk, GoesTo, EdgeScan, EdgePart, Of, Eval;
    assert Done(g, t.e, n, visited) && ExactAt(g, t, track) && Hop(g, p, i);
    ScanTellsEdge(g, t.e, t.part);
    if EdgeScan(g, t.e).From? {
      assert i > 0;
      assert Hop(g, p, i - 1);
      var r := EdgeScan(g, t.e).r;
      var k :| 0 <= k < |PredsOf(g, t.e.pred)| && PredsOf(g, t.e.pred)[k] == p.starts[i - 1];
      var before := Tracked(Edge(p.starts[i - 1], p.starts[i], r), EdgePart(g, t.e, t.part).value);
      PathBound(g, p, entry, goal, idx, n, visited, track, i - 1, before);
    }
  }

  /** A search that has come to an end bounds every path, although it looks at each edge and register
      once and may end paths at different depths. */
  lemma AllPathsBound(g: Graph, goal: Word, idx: Gpr, n: nat, visited: set<Edge>)
    requires Finished(g, goal, idx, n, visited)
    ensures BoundFound(g, goal, idx, n)
  {
    hide RunOk, GoesTo, Done, Execution, EdgeScan, ExactAt, StopsAt;
    forall track: set<Tracked>, entry: Word, p: Path
      | Exact(g, goal, idx, track) && (PredsOf(g, entry) == [] || StopsAt(g, entry, track))
        && PathOk(g, p, entry, goal) && p.execs != []
      ensures Arrival(p).regs[idx] < n
    {
      var i := |p.execs| - 1;
      assert Hop(g, p, i);
      var k :| 0 <= k < |PredsOf(g, goal)| && PredsOf(g, goal)[k] == p.starts[i];
      PathBound(g, p, entry, goal, idx, n, visited, track, i, Tracked(Edge(p.starts[i], goal, idx), Whole));
    }
  }

  // ---- what the search reaches ------------------------------------------------------------------------

  /** The search from goal for idx comes to edge e after at most d further edges. */
  ghost predicate Reaches(g: Graph, goal: Word, idx: Gpr, e: Edge, d: nat)
    requires GraphOk(g)
    decreases d
  {
    || (e.child == goal && e.reg == idx && e.pred in PredsOf(g, goal))
    || (d > 0 && (Reaches(g, goal, idx, e, d - 1) || exists f: Edge ::
                                                       Reaches(g, goal, idx, f, d - 1) && LeadsTo(g, f, e)))
  }

  /** The scan of f leaves a register, and e is an edge into f's predecessor for it. */
  ghost predicate LeadsTo(g: Graph, f: Edge, e: Edge)
    requires GraphOk(g)
  {
    EdgeOk(g, f) && EdgeScan(g, f) == From(e.reg) && e.child == f.pred && e.pred in PredsOf(g, f.pred)
  }

  /** The scan of e has a count, or a register to look for in predecessors that exist. */
  ghost predicate Open(g: Graph, e: Edge)
    requires GraphOk(g)
  {
    EdgeOk(g, e) && !EdgeScan(g, e).Killed? && (EdgeScan(g, e).From? ==> PredsOf(g, e.pred) != [])
  }

  ghost predicate CountAt(g: Graph, e: Edge, n: nat)
    requires GraphOk(g)
  {
    EdgeOk(g, e) && EdgeScan(g, e) == Count(n)
  }

  /** When there is an answer: no edge that is reached is killed or without predecessors, the search is
      over within 256 levels, and it comes to a count. */
  ghost predicate Answers(g: Graph, goal: Word, idx: Gpr)
    requires GraphOk(g)
  {
    && (forall e :: Reaches(g, goal, idx, e, 255) ==> Open(g, e))
    && (forall e :: Reaches(g, goal, idx, e, 256) ==> Reaches(g, goal, idx, e, 255))
    && exists e, n: nat :: Reaches(g, goal, idx, e, 255) && CountAt(g, e, n)
  }

  /** n is the largest count on the edges that are reached. */
  ghost predicate Largest(g: Graph, goal: Word, idx: Gpr, n: nat)
    requires GraphOk(g)
  {
    && (exists e :: Reaches(g, goal, idx, e, 255) && CountAt(g, e, n))
    && forall e, m: nat :: Reaches(g, goal, idx, e, 255) && CountAt(g, e, m) ==> m <= n
  }

  lemma {:induction false} ReachesMore(g: Graph, goal: Word, idx: Gpr, e: Edge, c: nat, d: nat)
    requires GraphOk(g) && Reaches(g, goal, idx, e, c) && c <= d
    ensures Reaches(g, goal, idx, e, d)
    decreases d
  {
    if c < d { ReachesMore(g, goal, idx, e, c, d - 1); }
  }

  /** A level that adds nothing is the last one. */
  lemma {:induction false} ReachesNoMore(g: Graph, goal: Word, idx: Gpr, e: Edge, c: nat, d: nat)
    requires GraphOk(g) && c <= d && Reaches(g, goal, idx, e, d)
    requires forall f :: Reaches(g, goal, idx, f, c + 1) ==> Reaches(g, goal, idx, f, c)
    ensures Reaches(g, goal, idx, e, c)
    decreases d
  {
    if c < d {
      if Reaches(g, goal, idx, e, d - 1) {
        ReachesNoMore(g, goal, idx, e, c, d - 1);
      } else {
        var f: Edge :| Reaches(g, goal, idx, f, d - 1) && LeadsTo(g, f, e);
        ReachesNoMore(g, goal, idx, f, c, d - 1);
        assert Reaches(g, goal, idx, e, c + 1);
      }
    }
  }

  // ---- findCount ----------------------------------------------------------------------------------------

  function Elements(s: seq<Edge>): set<Edge> { set e | e in s }

  lemma AppendElement(s: seq<Edge>, e: Edge)
    ensures Elements(s + [e]) == Elements(s) + {e}
  {
    assert forall x :: x in s + [e] <==> x in s || x == e;
  }

  /** An edge into node, for register r. */
  predicate Into(g: Graph, node: Word, r: Gpr, e: Edge) { e.child == node && e.reg == r && e.pred in PredsOf(g, node) }

  /** The edges into node, each queued once. */
  method Enqueue(g: Graph, node: Word, reg: Gpr, seen: set<Edge>, q: seq<Edge>)
    returns (visited: set<Edge>, queue: seq<Edge>)
    ensures forall e :: e in visited <==> e in seen || Into(g, node, reg, e)
    ensures forall e :: e in queue <==> e in q || (Into(g, node, reg, e) && e !in seen)
  {
    visited, queue := seen, q;
    var ps := PredsOf(g, node);
    var i := 0;
    while i < |ps|
      invariant 0 <= i <= |ps|
      invariant forall e :: e in visited <==> e in seen || (Into(g, node, reg, e) && e.pred in ps[..i])
      invariant forall e :: e in queue <==> e in q || (Into(g, node, reg, e) && e.pred in ps[..i] && e !in seen)
    {
      var e := Edge(ps[i], node, reg);
      assert ps[..i + 1] == ps[..i] + [ps[i]];
      if e !in visited {
        visited := visited + {e};
        queue := queue + [e];
      }
      i := i + 1;
    }
    assert ps[..i] == ps;
  }

  /** At the start of level d: visited is what is reached, queue is what is new at this level, and every
      edge of the levels before is open and counted in found. */
  ghost predicate AtLevel(g: Graph, goal: Word, idx: Gpr, d: nat, visited: set<Edge>, queue: seq<Edge>, found: nat)
    requires GraphOk(g)
  {
    && (forall e :: e in visited <==> Reaches(g, goal, idx, e, d))
    && (forall e :: e in queue <==> Reaches(g, goal, idx, e, d) && !(d > 0 && Reaches(g, goal, idx, e, d - 1)))
    && (forall e :: d > 0 && Reaches(g, goal, idx, e, d - 1) ==> Open(g, e))
    && Found(g, visited, queue, found)
  }

  /** found is the largest count on the visited edges that are no longer queued; 0 if there is none. */
  ghost predicate Found(g: Graph, visited: set<Edge>, queue: seq<Edge>, found: nat)
    requires GraphOk(g)
  {
    && (found > 0 ==> exists e :: e in visited && e !in queue && CountAt(g, e, found))
    && forall e, m: nat :: e in visited && e !in queue && CountAt(g, e, m) ==> m <= found
  }

  /** Within level d, the first i edges of its queue are done: next is what they lead to. */
  ghost predicate WithinLevel(g: Graph, goal: Word, idx: Gpr, d: nat, was: set<Edge>, visited: set<Edge>,
                              queue: seq<Edge>, i: nat, next: seq<Edge>, found: nat)
    requires GraphOk(g) && i <= |queue|
  {
    && was <= visited && (forall e :: e in next <==> e in visited && e !in was)
    && (forall e :: e in visited <==> e in was || exists k :: 0 <= k < i && LeadsTo(g, queue[k], e))
    && (forall k :: 0 <= k < i ==> Open(g, queue[k]))
    && (found > 0 ==> exists e :: e in was && CountAt(g, e, found))
    && (forall e, m: nat :: e in was && (e !in queue || e in queue[..i]) && CountAt(g, e, m) ==> m <= found)
  }

  lemma LevelStarts(g: Graph, goal: Word, idx: Gpr, visited: set<Edge>, queue: seq<Edge>)
    requires GraphOk(g)
    requires forall e :: e in visited <==> Into(g, goal, idx, e)
    requires forall e :: e in queue <==> Into(g, goal, idx, e)
    ensures AtLevel(g, goal, idx, 0, visited, queue, 0)
  {
  }

  lemma WithinStarts(g: Graph, goal: Word, idx: Gpr, d: nat, visited: set<Edge>, queue: seq<Edge>, found: nat)
    requires GraphOk(g) && AtLevel(g, goal, idx, d, visited, queue, found)
    ensures WithinLevel(g, goal, idx, d, visited, visited, queue, 0, [], found)
  {
    hide Reaches, CountAt;
  }

  /** A queued edge with a count. */
  lemma CountStep(g: Graph, goal: Word, idx: Gpr, d: nat, was: set<Edge>, visited: set<Edge>, queue: seq<Edge>,
                  i: nat, next: seq<Edge>, found: nat, c: nat)
    requires GraphOk(g) && i < |queue| && queue[i] in was && CountAt(g, queue[i], c) && c > 0
    requires WithinLevel(g, goal, idx, d, was, visited, queue, i, next, found)
    ensures WithinLevel(g, goal, idx, d, was, visited, queue, i + 1, next, if c > found then c else found)
  {
    hide EdgeScan, EdgeOk;
    var more := if c > found then c else found;
    forall e, m: nat | e in was && (e !in queue || e in queue[..i + 1]) && CountAt(g, e, m)
      ensures m <= more
    {
      if e in queue && e !in queue[..i] { assert e == queue[i]; }
    }
    forall e | e in visited && e !in was
      ensures exists k :: 0 <= k < i + 1 && LeadsTo(g, queue[k], e)
    {
      var k :| 0 <= k < i && LeadsTo(g, queue[k], e);
    }
  }

  /** A queued edge whose register is looked for in its predecessors. */
  lemma PassStep(g: Graph, goal: Word, idx: Gpr, d: nat, was: set<Edge>, seen: set<Edge>, queue: seq<Edge>, i: nat,
                 before: seq<Edge>, found: nat, r: Gpr, visited: set<Edge>, next: seq<Edge>)
    requires GraphOk(g) && i < |queue| && EdgeOk(g, queue[i]) && EdgeScan(g, queue[i]) == From(r)
    requires PredsOf(g, queue[i].pred) != [] && WithinLevel(g, goal, idx, d, was, seen, queue, i, before, found)
    requires forall e :: e in visited <==> e in seen || Into(g, queue[i].pred, r, e)
    requires forall e :: e in next <==> e in before || (Into(g, queue[i].pred, r, e) && e !in seen)
    ensures WithinLevel(g, goal, idx, d, was, visited, queue, i + 1, next, found)
  {
    hide EdgeScan, EdgeOk;
    forall e
      ensures LeadsTo(g, queue[i], e) <==> Into(g, queue[i].pred, r, e)
    {
    }
    forall e | e in visited
      ensures e in was || exists k :: 0 <= k < i + 1 && LeadsTo(g, queue[k], e)
    {
      if e in seen && e !in was {
        var k :| 0 <= k < i && LeadsTo(g, queue[k], e);
      }
    }
    assert queue[..i + 1] == queue[..i] + [queue[i]];
  }

  /** After the last edge of a level comes the next level. */
  lemma LevelEnds(g: Graph, goal: Word, idx: Gpr, d: nat, was: set<Edge>, visited: set<Edge>, queue: seq<Edge>,
                  next: seq<Edge>, found: nat, start: nat)
    requires GraphOk(g) && AtLevel(g, goal, idx, d, was, queue, start)
    requires WithinLevel(g, goal, idx, d, was, visited, queue, |queue|, next, found)
    ensures AtLevel(g, goal, idx, d + 1, visited, next, found)
  {
    hide CountAt, LeadsTo, Open;
    assert queue[..|queue|] == queue;
    forall e
      ensures e in visited <==> Reaches(g, goal, idx, e, d + 1)
    {
      NextLevel(g, goal, idx, d, was, visited, queue, next, found, start, e);
    }
    forall e | Reaches(g, goal, idx, e, d)
      ensures Open(g, e)
    {
      if e in queue { var k :| 0 <= k < |queue| && queue[k] == e; }
    }
  }

  lemma NextLevel(g: Graph, goal: Word, idx: Gpr, d: nat, was: set<Edge>, visited: set<Edge>, queue: seq<Edge>,
                  next: seq<Edge>, found: nat, start: nat, e: Edge)
    requires GraphOk(g) && AtLevel(g, goal, idx, d, was, queue, start)
    requires WithinLevel(g, goal, idx, d, was, visited, queue, |queue|, next, found)
    ensures e in visited <==> Reaches(g, goal, idx, e, d + 1)
  {
    hide CountAt, LeadsTo, Open;
    if e in visited && e !in was {
      var k :| 0 <= k < |queue| && LeadsTo(g, queue[k], e);
      assert queue[k] in queue;
    }
    if Reaches(g, goal, idx, e, d + 1) && !Reaches(g, goal, idx, e, d) {
      var f: Edge :| Reaches(g, goal, idx, f, d) && LeadsTo(g, f, e);
      assert f in queue;
      var k :| 0 <= k < |queue| && queue[k] == f;
    }
  }

  /** An edge of an early level that is not open is why there is no answer. */
  lemma NoAnswer(g: Graph, goal: Word, idx: Gpr, d: nat, e: Edge)
    requires GraphOk(g) && d <= 255 && Reaches(g, goal, idx, e, d) && !Open(g, e)
    ensures !Answers(g, goal, idx)
  {
    ReachesMore(g, goal, idx, e, d, 255);
  }

  /** The search with nothing left, or with levels left over. */
  lemma SearchEnds(g: Graph, goal: Word, idx: Gpr, d: nat, visited: set<Edge>, queue: seq<Edge>, found: nat)
    requires GraphOk(g) && 0 < d <= 256 && AtLevel(g, goal, idx, d, visited, queue, found) && (queue == [] || d == 256)
    ensures queue != [] || found == 0 ==> !Answers(g, goal, idx)
    ensures queue == [] && found > 0 ==>
      Answers(g, goal, idx) && Largest(g, goal, idx, found) && Finished(g, goal, idx, found, visited)
  {
    hide Open, CountAt;
    if queue == [] {
      forall e | Reaches(g, goal, idx, e, 256)
        ensures Reaches(g, goal, idx, e, d - 1)
      {
        ReachesNoMore(g, goal, idx, e, d - 1, 256);
      }
      forall e | Reaches(g, goal, idx, e, d - 1)
        ensures Reaches(g, goal, idx, e, 255)
      {
        ReachesMore(g, goal, idx, e, d - 1, 255);
      }
      forall e
        ensures Reaches(g, goal, idx, e, 255) <==> e in visited
      {
        if Reaches(g, goal, idx, e, 255) { ReachesMore(g, goal, idx, e, 255, 256); }
      }
      if found > 0 { NowFinished(g, goal, idx, d, visited, queue, found); }
      forall e, n: nat | CountAt(g, e, n)
        ensures n > 0
      {
        CountPositive(g, e, n);
      }
    } else {
      var e := queue[0];
      assert e in queue;
    }
  }

  lemma CountPositive(g: Graph, e: Edge, n: nat)
    requires GraphOk(g) && CountAt(g, e, n)
    ensures 0 < n <= MaxEntries
  {
    ScanSmall(Window(g, e), |Window(g, e)|, e.reg);
  }

  lemma NowFinished(g: Graph, goal: Word, idx: Gpr, d: nat, visited: set<Edge>, queue: seq<Edge>, found: nat)
    requires GraphOk(g) && d > 0 && AtLevel(g, goal, idx, d, visited, queue, found) && queue == []
    ensures Finished(g, goal, idx, found, visited)
  {
    hide EdgeScan, RunOk;
    forall e | e in visited
      ensures Done(g, e, found, visited)
    {
      assert e !in queue;
      assert Reaches(g, goal, idx, e, d - 1);
      assert Open(g, e);
      if EdgeScan(g, e).From? { FollowedAll(g, goal, idx, d, visited, queue, found, e); }
      if EdgeScan(g, e).Count? { assert CountAt(g, e, EdgeScan(g, e).n); }
    }
    forall k | 0 <= k < |PredsOf(g, goal)|
      ensures Edge(PredsOf(g, goal)[k], goal, idx) in visited
    {
      ReachesMore(g, goal, idx, Edge(PredsOf(g, goal)[k], goal, idx), 0, d);
    }
  }

  lemma FollowedAll(g: Graph, goal: Word, idx: Gpr, d: nat, visited: set<Edge>, queue: seq<Edge>, found: nat, e: Edge)
    requires GraphOk(g) && d > 0 && AtLevel(g, goal, idx, d, visited, queue, found) && queue == [] && e in visited
    requires EdgeOk(g, e) && EdgeScan(g, e).From?
    ensures Seen(g, e.pred, EdgeScan(g, e).r, visited)
  {
    hide EdgeScan, EdgeOk, CountAt, Open;
    assert e !in queue;
    assert Reaches(g, goal, idx, e, d - 1);
    var r := EdgeScan(g, e).r;
    forall k | 0 <= k < |PredsOf(g, e.pred)|
      ensures Edge(PredsOf(g, e.pred)[k], e.pred, r) in visited
    {
      assert LeadsTo(g, e, Edge(PredsOf(g, e.pred)[k], e.pred, r));
    }
  }

  /** findCount: the largest bound found on the edges that the search reaches, if every one of them has a
      bound or leads on. */
  method FindCount(g: Graph, goal: Word, idx: Gpr) returns (n: nat, ok: bool)
    requires GraphOk(g)
    ensures ok <==> Answers(g, goal, idx)
    ensures ok ==> 0 < n <= MaxEntries && Largest(g, goal, idx, n) && BoundFound(g, goal, idx, n)
    ensures ok ==> exists visited: set<Edge> :: Finished(g, goal, idx, n, visited)
    ensures !ok ==> n == 0
  {
    hide GraphOk, EdgeOk, EdgeScan, Reaches, AtLevel, WithinLevel, Answers, Largest, BoundFound, Finished, Open,
         CountAt, Into;
    var visited, queue := Enqueue(g, goal, idx, {}, []);
    LevelStarts(g, goal, idx, visited, queue);
    if queue == [] {
      NothingReached(g, goal, idx, visited, queue);
      return 0, false;
    }
    var found: nat := 0;
    var depth: nat := 0;
    while queue != [] && depth < 256
      invariant AtLevel(g, goal, idx, depth, visited, queue, found) && depth <= 256 && (depth == 0 ==> queue != [])
      decreases 256 - depth
    {
      ghost var was, start := visited, found;
      var next: seq<Edge> := [];
      var i := 0;
      WithinStarts(g, goal, idx, depth, visited, queue, found);
      while i < |queue|
        invariant 0 <= i <= |queue|
        invariant WithinLevel(g, goal, idx, depth, was, visited, queue, i, next, found)
      {
        var e := queue[i];
        QueuedOk(g, goal, idx, depth, was, queue, start, e);
        var c, killed, from := ScanEdge(g, e);
        if c > 0 {
          CountIs(g, e, c);
          CountStep(g, goal, idx, depth, was, visited, queue, i, next, found, c);
          if c > found { found := c; }
        } else {
          if killed || PredsOf(g, e.pred) == [] {
            NotOpen(g, e);
            NoAnswer(g, goal, idx, depth, e);
            return 0, false;
          }
          ghost var seen, before := visited, next;
          visited, next := Enqueue(g, e.pred, from, visited, next);
          PassStep(g, goal, idx, depth, was, seen, queue, i, before, found, from, visited, next);
        }
        i := i + 1;
      }
      LevelEnds(g, goal, idx, depth, was, visited, queue, next, found, start);
      queue := next;
      depth := depth + 1;
    }
    SearchEnds(g, goal, idx, depth, visited, queue, found);
    if queue != [] || found == 0 { return 0, false; }
    AllPathsBound(g, goal, idx, found, visited);
    LargestSmall(g, goal, idx, found);
    return found, true;
  }

  lemma NothingReached(g: Graph, goal: Word, idx: Gpr, visited: set<Edge>, queue: seq<Edge>)
    requires GraphOk(g) && queue == [] && forall e :: e in queue <==> Into(g, goal, idx, e)
    ensures !Answers(g, goal, idx)
  {
    forall e | Reaches(g, goal, idx, e, 255)
      ensures false
    {
      NotReached(g, goal, idx, e, 255);
    }
  }

  lemma {:induction false} NotReached(g: Graph, goal: Word, idx: Gpr, e: Edge, d: nat)
    requires GraphOk(g) && forall f :: !Into(g, goal, idx, f)
    ensures !Reaches(g, goal, idx, e, d)
    decreases d
  {
    assert !Into(g, goal, idx, e);
    if d > 0 {
      var c: nat := d - 1;
      forall f: Edge
        ensures !Reaches(g, goal, idx, f, c)
      {
        NotReached(g, goal, idx, f, c);
      }
    }
  }

  lemma QueuedOk(g: Graph, goal: Word, idx: Gpr, d: nat, visited: set<Edge>, queue: seq<Edge>, found: nat, e: Edge)
    requires GraphOk(g) && AtLevel(g, goal, idx, d, visited, queue, found) && e in queue
    ensures Reaches(g, goal, idx, e, d) && e in visited && EdgeOk(g, e)
  {
    hide EdgeScan;
    if d == 0 || e.pred in PredsOf(g, goal) {
    } else {
      ReachedOk(g, goal, idx, e, d);
    }
  }

  lemma {:induction false} ReachedOk(g: Graph, goal: Word, idx: Gpr, e: Edge, d: nat)
    requires GraphOk(g) && Reaches(g, goal, idx, e, d)
    ensures EdgeOk(g, e)
    decreases d
  {
    hide EdgeScan, RunOk;
    if d > 0 && Reaches(g, goal, idx, e, d - 1) { ReachedOk(g, goal, idx, e, d - 1); }
  }

  lemma CountIs(g: Graph, e: Edge, c: nat)
    requires GraphOk(g) && EdgeOk(g, e) && EdgeScan(g, e) == Count(c)
    ensures CountAt(g, e, c)
  {
  }

  lemma NotOpen(g: Graph, e: Edge)
    requires GraphOk(g) && EdgeOk(g, e) && !EdgeScan(g, e).Count?
    requires EdgeScan(g, e).Killed? || PredsOf(g, e.pred) == []
    ensures !Open(g, e)
  {
  }

  lemma LargestSmall(g: Graph, goal: Word, idx: Gpr, n: nat)
    requires GraphOk(g) && Largest(g, goal, idx, n)
    ensures n <= MaxEntries
  {
    var e :| Reaches(g, goal, idx, e, 255) && CountAt(g, e, n);
    CountPositive(g, e, n);
  }

  // ---- entries that the search goes past -----------------------------------------------------------------

  /** The run can go to child from any value of any register: it ends there anyway, or on one outcome
      of a conditional jump before which nothing sets a flag. */
  ghost predicate FreeTo(run: Block, child: Word) {
    && RunOk(run) && run != []
    && var d := Last(run);
       if d.i.Jcc? then
         && (child == d.i.target || child == Next(d))
         && forall k :: 0 <= k < |run| - 1 ==> run[k].i.Mov? || run[k].i.Lea?
       else child == (if d.i.Jmp? then d.i.target else Next(d))
  }

  function Outcomes(run: Block, k: nat, x: State, u: Flags): (xs: seq<State>)
    requires k <= |run|
    ensures |xs| == k + 1 && xs[0] == x
  {
    if k == 0 then [x]
    else
      var xs := Outcomes(run, k - 1, x, u);
      xs + [Eval(run[k - 1].i, xs[k - 1], u)]
  }

  lemma {:induction false} OutcomesRun(run: Block, k: nat, x: State, u: Flags)
    requires k <= |run|
    ensures Execution(run[..k], Outcomes(run, k, x, u))
    decreases k
  {
    hide Eval;
    if k > 0 {
      OutcomesRun(run, k - 1, x, u);
      var xs := Outcomes(run, k, x, u);
      assert xs[..k] == Outcomes(run, k - 1, x, u);
      assert StepTo(run[k - 1].i, xs[k - 1], xs[k]);
      forall m | 0 <= m < k
        ensures StepTo(run[..k][m].i, xs[m], xs[m + 1])
      {
        if m < k - 1 { assert StepTo(run[..k - 1][m].i, xs[..k][m], xs[..k][m + 1]); }
      }
    }
  }

  lemma {:induction false} OutcomesFlags(run: Block, k: nat, x: State, u: Flags)
    requires k <= |run| && forall m :: 0 <= m < k ==> run[m].i.Mov? || run[m].i.Lea?
    ensures Outcomes(run, k, x, u)[k].f == x.f
    decreases k
  {
    hide Eval;
    if k > 0 {
      OutcomesFlags(run, k - 1, x, u);
      var xs := Outcomes(run, k - 1, x, u);
      MoveFlags(run[k - 1].i, xs[k - 1], u);
    }
  }

  lemma {:induction false} OutcomesPrefix(run: Block, k: nat, m: nat, x: State, u: Flags)
    requires m <= k <= |run|
    ensures Outcomes(run, k, x, u)[m] == Outcomes(run, m, x, u)[m]
    decreases k
  {
    hide Eval;
    if m < k { OutcomesPrefix(run, k - 1, m, x, u); }
  }

  /** Every condition has flags for either outcome. */
  function FlagsFor(cc: Cc, want: bool): (f: Flags)
    ensures Holds(cc, f) == want
  {
    match cc
    case O => Flags(false, false, false, want)
    case NO => Flags(false, false, false, !want)
    case B => Flags(false, false, want, false)
    case AE => Flags(false, false, !want, false)
    case E => Flags(false, want, false, false)
    case NE => Flags(false, !want, false, false)
    case BE => Flags(false, false, want, false)
    case A => Flags(false, false, !want, false)
    case S => Flags(want, false, false, false)
    case NS => Flags(!want, false, false, false)
    case L => Flags(want, false, false, false)
    case GE => Flags(!want, false, false, false)
    case LE => Flags(want, false, false, false)
    case G => Flags(!want, false, false, false)
  }

  lemma FreeExecution(run: Block, child: Word, r: Gpr, v: Word) returns (xs: seq<State>)
    requires FreeTo(run, child)
    ensures Execution(run, xs) && GoesTo(run, xs, child) && xs[0].regs[r] == v
  {
    hide Eval, Holds;
    var d := Last(run);
    var u := if d.i.Jcc? then FlagsFor(d.i.cc, child == d.i.target) else Flags(false, false, false, false);
    var x := State(seq(16, _ => v), seq(0x1_0000_0000_0000_0000, _ => 0), u);
    xs := Outcomes(run, |run|, x, u);
    OutcomesRun(run, |run|, x, u);
    assert run[..|run|] == run;
    if d.i.Jcc? {
      OutcomesFlags(run, |run| - 1, x, u);
      OutcomesPrefix(run, |run|, |run| - 1, x, u);
    }
  }

  /** If the search goes past an entry in front of goal, no count bounds what comes from there. */
  lemma PassedUnbounded(g: Graph, entry: Word, goal: Word, idx: Gpr, n: nat)
    requires var e := Edge(entry, goal, idx);
      EdgeOk(g, e) && EdgePart(g, e, Whole).Some? && EdgeScan(g, e).From?
    requires entry in PredsOf(g, goal) && FreeTo(RunAt(g, entry), goal) && n <= MaxEntries
    ensures !BoundedFrom(g, entry, goal, idx, n)
  {
    hide Eval, EdgeScan, EdgePart, RunOk, Execution;
    var e, run := Edge(entry, goal, idx), RunAt(g, entry);
    ScanTellsEdge(g, e, Whole);
    var xs := FreeExecution(run, goal, EdgeScan(g, e).r, n);
    assert |xs| == |run| + 1 by { Length(run, xs); }
    TruncSmall(n, S32);
    var p := Path([entry, goal], [xs]);
    assert Hop(g, p, 0);
    assert PathOk(g, p, entry, goal) && p.execs != [];
    assert Arrival(p) == xs[|run|];
  }

  /** The exact condition for an entry whose only edge in the search goes to goal: a finished search is
      right for it exactly when it found a count on that edge. */
  lemma EntryExactly(g: Graph, entry: Word, goal: Word, idx: Gpr, n: nat, visited: set<Edge>, track: set<Tracked>)
    requires Finished(g, goal, idx, n, visited) && n <= MaxEntries && Exact(g, goal, idx, track)
    requires entry in PredsOf(g, goal) && FreeTo(RunAt(g, entry), goal)
    requires forall t :: t in track && t.e.pred == entry ==> t == Tracked(Edge(entry, goal, idx), Whole)
    ensures EdgeOk(g, Edge(entry, goal, idx))
    ensures BoundedFrom(g, entry, goal, idx, n) <==> EdgeScan(g, Edge(entry, goal, idx)).Count?
  {
    hide EdgeScan, EdgePart, FreeTo, RunOk, BoundedFrom;
    var e := Edge(entry, goal, idx);
    assert Tracked(e, Whole) in track && e in visited;
    assert Done(g, e, n, visited) && ExactAt(g, Tracked(e, Whole), track);
    if EdgeScan(g, e).Count? {
      AllPathsBound(g, goal, idx, n, visited);
    } else {
      PassedUnbounded(g, entry, goal, idx, n);
    }
  }

  /** A function whose entry 16 is the head of a loop: on JE it goes to 32, which comes back when RAX
      is at most 5; otherwise it goes on to the goal 18. */
  const Head := Decoded(16, 2, Jcc(E, 32))
  const Check := Decoded(32, 4, Arith(Cmp, S64, Reg(RAX), Imm(5)))
  const Again := Decoded(36, 2, Jcc(BE, 16))
  const Loop := Graph(map[16 := [Head], 32 := [Check, Again]], map[16 := [32], 18 := [16], 32 := [16], 38 := [32]])

  /** The search goes from the goal past the entry to the check, and ends with 6. The first time round
      RAX is whatever the function was called with. */
  lemma EntryTargetUnbounded(x: State)
    requires !x.f.zf
    ensures Finished(Loop, 18, RAX, 6, {Edge(16, 18, RAX), Edge(32, 16, RAX)})
    ensures var p := Path([16, 18], [[x, x]]);
      PathOk(Loop, p, 16, 18) && (Arrival(p).regs[RAX] < 6 <==> x.regs[RAX] < 6)
    ensures !BoundedFrom(Loop, 16, 18, RAX, 6)
  {
    hide EdgeScan, EdgePart, Eval;
    LoopHead();
    LoopCheck();
    var p := Path([16, 18], [[x, x]]);
    assert StepTo(Head.i, x, x) by { HeadKeeps(x); }
    assert Execution([Head], [x, x]) && GoesTo([Head], [x, x], 18);
    assert Hop(Loop, p, 0);
    PassedUnbounded(Loop, 16, 18, RAX, 6);
  }

  lemma HeadKeeps(x: State)
    ensures x == Eval(Head.i, x, x.f)
  {
  }

  lemma LoopHead()
    ensures RunAt(Loop, 16) == [Head] && RunOk([Head]) && FreeTo([Head], 18)
    ensures var e := Edge(16, 18, RAX);
      EdgeOk(Loop, e) && EdgeScan(Loop, e) == From(RAX) && EdgePart(Loop, e, Whole) == Some(Whole)
  {
    assert RunOk([Head]) && RunAt(Loop, 16) == [Head];
    assert Window(Loop, Edge(16, 18, RAX)) == [Head];
    assert !Modifies(Head.i, RAX) && !IsCheck(Head.i) && !Masks(Head.i, RAX);
    assert Scan([Head], 0, RAX) == From(RAX) && Scan([Head], 1, RAX) == Scan([Head], 0, RAX);
    assert PartBefore([Head], 0, RAX, Whole) == Some(Whole);
    assert PartBefore([Head], 1, RAX, Whole) == PartBefore([Head], 0, RAX, Whole);
  }

  lemma LoopCheck()
    ensures EdgeOk(Loop, Edge(32, 16, RAX)) && EdgeScan(Loop, Edge(32, 16, RAX)) == Count(6)
  {
    assert RunOk([Check, Again]) && RunAt(Loop, 32) == [Check, Again];
    assert Window(Loop, Edge(32, 16, RAX)) == [Check, Again];
    assert FindCheck([Check, Again], 1, RAX, BE) == 6;
  }
}
