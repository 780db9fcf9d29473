/** Recovery of a function's blocks from its bytes (disasmBranchFollowing in cfg.go): the decoding
    worklist, the leaders with the seams between overlapping instruction streams, and the blocks. */
module Blocks {
  import opened Words
  import opened Guest
  import X86
  import opened Program

  /** What bounds the decoding: the function's extent, the code sections, what decodes where, and
      the caps on a block's bytes and the function's instructions. */
  datatype Extent = Extent(entry: Word, end: Word, inCode: Word -> bool, image: Code, maxBlock: nat, maxInsts: nat)

  predicate Inside(e: Extent, a: Word) { e.entry <= a < e.end && e.inCode(a) }

  /** Decoding at a succeeds. */
  predicate Decodes(e: Extent, a: Word) { Inside(e, a) && a in e.image }

  // ---- the decoded set --------------------------------------------------------------------------------

  /** Branch targets, and what follows a conditional branch, are marked when they are decoded. */
  predicate EdgesMarked(d: Decoded, e: Extent, targets: set<Word>)
    requires Fits(d)
  {
    && (d.i.Jmp? || d.i.Jcc? ==> Inside(e, d.i.target) ==> d.i.target in targets)
    && (d.i.Jcc? ==> Inside(e, Next(d)) ==> Next(d) in targets)
  }

  /** An address that is no target follows an instruction that runs on to it. */
  ghost predicate Entered(insts: Code, a: Word, targets: set<Word>) {
    a in targets || exists p :: p in insts && Fits(insts[p]) && !Control(insts[p].i) && Next(insts[p]) == a
  }

  ghost predicate Decoding(e: Extent, insts: Code, targets: set<Word>) {
    && CodeOk(e.image) && CodeOk(insts) && e.entry in targets
    && (forall a :: a in insts ==> Decodes(e, a) && insts[a] == e.image[a])
    && (forall a :: a in insts ==> EdgesMarked(insts[a], e, targets) && Entered(insts, a, targets))
  }

  /** What runs on after an instruction that is no transfer is decoded too (or marked, when a block
      grew too long). */
  ghost predicate RunsOn(e: Extent, insts: Code, targets: set<Word>, a: Word)
    requires CodeOk(insts) && a in insts
  {
    !Control(insts[a].i) && Decodes(e, Next(insts[a])) ==> Next(insts[a]) in insts || Next(insts[a]) in targets
  }

  /** Every instruction that control can reach within the extent is decoded. */
  ghost predicate Complete(e: Extent, insts: Code, targets: set<Word>) {
    && CodeOk(insts) && (forall a :: a in targets && Decodes(e, a) ==> a in insts)
    && (forall a :: a in insts ==> RunsOn(e, insts, targets, a))
  }

  ghost predicate AllRunOn(e: Extent, insts: Code, targets: set<Word>) {
    CodeOk(insts) && forall a :: a in insts ==> RunsOn(e, insts, targets, a)
  }

  // ---- what is reached, and what is marked ------------------------------------------------------------

  /** Control goes from d to a: a branch, or running on. */
  predicate GoesOn(d: Decoded, a: Word)
    requires Fits(d)
  {
    ((d.i.Jmp? || d.i.Jcc?) && a == d.i.target) || (FallsThrough(d.i) && a == Next(d))
  }

  /** Control comes from the entry to a within the extent, in fewer than n steps. */
  ghost predicate ReachedIn(e: Extent, a: Word, n: nat)
    requires CodeOk(e.image)
    decreases n
  {
    n > 0 && Inside(e, a)
    && (a == e.entry || exists p :: Decodes(e, p) && ReachedIn(e, p, n - 1) && GoesOn(e.image[p], a))
  }

  ghost predicate Reached(e: Extent, a: Word)
    requires CodeOk(e.image)
  {
    exists n: nat :: ReachedIn(e, a, n)
  }

  /** A decode run from a comes to c. */
  predicate RunsFrom(e: Extent, a: Word, c: Word)
    requires CodeOk(e.image)
    decreases if a < c then c - a else 0
  {
    a == c
    || (a < c && Decodes(e, a) && !Control(e.image[a].i) && Next(e.image[a]) <= c && RunsFrom(e, Next(e.image[a]), c))
  }

  /** The block from start grows too long with the instruction at p; a follows it. */
  predicate SplitsAfter(e: Extent, start: Word, p: Word, a: Word)
    requires CodeOk(e.image)
  {
    && RunsFrom(e, start, p) && Decodes(e, p) && !Control(e.image[p].i) && a == Next(e.image[p])
    && (p == start || p - start < e.maxBlock) && a - start >= e.maxBlock
  }

  ghost predicate Splits(e: Extent, start: Word, a: Word)
    requires CodeOk(e.image)
  {
    exists p :: SplitsAfter(e, start, p, a)
  }

  /** A decoded branch to a, or a decoded conditional branch in front of it. */
  ghost predicate BranchedTo(insts: Code, a: Word)
    requires CodeOk(insts)
  {
    exists p :: p in insts && BranchesTo(insts[p], a)
  }

  predicate BranchesTo(d: Decoded, a: Word)
    requires Fits(d)
  {
    ((d.i.Jmp? || d.i.Jcc?) && a == d.i.target) || (d.i.Jcc? && a == Next(d))
  }

  /** Why an address is a target: the entry, a branch, or what follows a block from a target that grew too
      long (n counts those). */
  ghost predicate MarkedIn(e: Extent, insts: Code, a: Word, n: nat)
    requires CodeOk(e.image) && CodeOk(insts)
    decreases n
  {
    n > 0 && Inside(e, a)
    && (a == e.entry || BranchedTo(insts, a) || exists start :: MarkedIn(e, insts, start, n - 1) && Splits(e, start, a))
  }

  ghost predicate Marked(e: Extent, insts: Code, a: Word)
    requires CodeOk(e.image) && CodeOk(insts)
  {
    exists n: nat :: MarkedIn(e, insts, a, n)
  }

  /** Nothing is decoded or a target without a reason. */
  ghost predicate Reasons(e: Extent, insts: Code, targets: set<Word>) {
    && CodeOk(e.image) && CodeOk(insts)
    && (forall a :: a in insts ==> Reached(e, a))
    && (forall a :: a in targets ==> Reached(e, a) && Marked(e, insts, a))
  }

  /** What follows too long a block from start is a target. */
  ghost predicate SplitsMarked(e: Extent, start: Word, targets: set<Word>)
    requires CodeOk(e.image)
  {
    forall a :: Splits(e, start, a) && Inside(e, a) ==> a in targets
  }

  lemma ReachedStep(e: Extent, p: Word, a: Word)
    requires CodeOk(e.image) && Decodes(e, p) && Reached(e, p) && GoesOn(e.image[p], a) && Inside(e, a)
    ensures Reached(e, a)
  {
    var n: nat :| ReachedIn(e, p, n);
    assert ReachedIn(e, a, n + 1);
  }

  lemma {:induction false} MarkedGrows(e: Extent, insts: Code, more: Code, a: Word, n: nat)
    requires CodeOk(e.image) && CodeOk(insts) && CodeOk(more) && MarkedIn(e, insts, a, n)
    requires forall p :: p in insts ==> p in more && more[p] == insts[p]
    ensures MarkedIn(e, more, a, n)
    decreases n
  {
    hide Splits;
    if BranchedTo(insts, a) {
      var p :| p in insts && BranchesTo(insts[p], a);
      assert more[p] == insts[p];
    } else if a != e.entry {
      var start :| MarkedIn(e, insts, start, n - 1) && Splits(e, start, a);
      MarkedGrows(e, insts, more, start, n - 1);
    }
  }

  /** Decoding d at pc: its branches are reached and marked. */
  lemma ReasonsStep(e: Extent, insts: Code, p: set<Word>, q: set<Word>, pc: Word)
    requires Reasons(e, insts, p) && Decodes(e, pc) && Reached(e, pc)
    requires pc in insts ==> insts[pc] == e.image[pc]
    requires forall a :: a in q ==> a in p || (Inside(e, a) && BranchesTo(e.image[pc], a))
    ensures Reasons(e, insts[pc := e.image[pc]], q)
  {
    hide Reached;
    var more := insts[pc := e.image[pc]];
    forall a | a in q
      ensures Reached(e, a) && Marked(e, more, a)
    {
      if a in p {
        var n: nat :| MarkedIn(e, insts, a, n);
        MarkedGrows(e, insts, more, a, n);
      } else {
        ReachedStep(e, pc, a);
        assert BranchesTo(more[pc], a);
        assert MarkedIn(e, more, a, 1);
      }
    }
  }

  lemma ReasonsSplit(e: Extent, insts: Code, targets: set<Word>, start: Word, a: Word)
    requires Reasons(e, insts, targets) && start in targets && Splits(e, start, a) && Inside(e, a) && Reached(e, a)
    ensures Reasons(e, insts, targets + {a})
  {
    hide Reached, Splits;
    var n: nat :| MarkedIn(e, insts, start, n);
    assert MarkedIn(e, insts, a, n + 1);
  }

  lemma {:induction false} RunsOneMore(e: Extent, a: Word, p: Word)
    requires CodeOk(e.image) && RunsFrom(e, a, p) && Decodes(e, p) && !Control(e.image[p].i)
    ensures RunsFrom(e, a, Next(e.image[p]))
    decreases if a < p then p - a else 0
  {
    if a != p { RunsOneMore(e, Next(e.image[a]), p); }
  }

  /** There is one run from a. */
  lemma {:induction false} RunsApart(e: Extent, a: Word, p: Word, q: Word)
    requires CodeOk(e.image) && RunsFrom(e, a, p) && RunsFrom(e, a, q) && p <= q
    ensures RunsFrom(e, p, q)
    decreases if a < p then p - a else 0
  {
    if a != p { RunsApart(e, Next(e.image[a]), p, q); }
  }

  /** The run from start is at pc, and nothing on it has split the block yet. */
  ghost predicate Unbroken(e: Extent, start: Word, pc: Word)
    requires CodeOk(e.image)
  {
    RunsFrom(e, start, pc) && start <= pc && (pc == start || pc - start < e.maxBlock)
  }

  /** A run that ends at pc has no split; one that splits after pc has that one. */
  lemma SplitsOnce(e: Extent, start: Word, pc: Word, targets: set<Word>)
    requires CodeOk(e.image) && Unbroken(e, start, pc)
    ensures !Decodes(e, pc) || Control(e.image[pc].i) ==> SplitsMarked(e, start, targets)
    ensures Decodes(e, pc) && Next(e.image[pc]) - start >= e.maxBlock && Next(e.image[pc]) in targets
      ==> SplitsMarked(e, start, targets)
  {
    forall a: Word, p: Word | SplitsAfter(e, start, p, a)
      ensures p >= pc && (p == pc || (Decodes(e, pc) && !Control(e.image[pc].i) && Next(e.image[pc]) <= p))
    {
      if p < pc { RunsApart(e, start, p, pc); } else { RunsApart(e, start, pc, p); }
    }
  }

  lemma SplitsGrow(e: Extent, start: Word, p: set<Word>, q: set<Word>)
    requires CodeOk(e.image) && SplitsMarked(e, start, p) && p <= q
    ensures SplitsMarked(e, start, q)
  {
  }

  class Recovery {
    const e: Extent
    var insts: Code
    var targets: set<Word>
    var queue: seq<Word>
    var visited: set<Word>
    var capped: bool

    constructor (e: Extent)
      requires CodeOk(e.image) && Inside(e, e.entry)
      ensures this.e == e && insts == map[] && targets == {e.entry} && queue == [e.entry] && visited == {e.entry}
        && !capped
    {
      this.e := e;
      insts := map[];
      targets := {e.entry};
      queue := [e.entry];
      visited := {e.entry};
      capped := false;
    }

    /** The worklist holds every visited address once, in the order of discovery; targets are the
        visited addresses. */
    ghost predicate Valid()
      reads this
    {
      && Decoding(e, insts, targets) && visited == targets
      && (forall a :: a in visited <==> a in queue)
      && (forall a :: a in visited ==> Inside(e, a))
    }

    /** Room for more blocks: the measure of the worklist. */
    ghost function Room(head: nat): int
      reads this
    {
      e.end - e.entry - |visited| + |queue| - head
    }

    method EnqueueBlock(t: Word)
      requires Valid()
      modifies this`targets, this`queue, this`visited
      ensures Valid() && |queue| >= |old(queue)| && queue[..|old(queue)|] == old(queue)
      ensures targets == (if Inside(e, t) then old(targets) + {t} else old(targets))
      ensures forall head: nat :: Room(head) == old(Room(head))
    {
      if Inside(e, t) {
        targets := targets + {t};
        if t !in visited {
          visited := visited + {t};
          queue := queue + [t];
        }
        TargetsGrow(e, insts, old(targets), targets);
      }
    }

    /** The transfers of one decoded instruction. */
    method Edges(d: Decoded)
      requires Valid() && Fits(d)
      modifies this`targets, this`queue, this`visited
      ensures Valid() && EdgesMarked(d, e, targets) && old(targets) <= targets
      ensures forall a :: a in targets <==> a in old(targets) || (Inside(e, a) && BranchesTo(d, a))
      ensures |queue| >= |old(queue)| && queue[..|old(queue)|] == old(queue)
      ensures forall head: nat :: Room(head) == old(Room(head))
    {
      match d.i
      case Jmp(t) => EnqueueBlock(t);
      case Jcc(_, t) =>
        EnqueueBlock(t);
        EnqueueBlock(Next(d));
      case _ =>
    }

    /** One decoded instruction: its branches are marked, and it is recorded. */
    method Record(pc: Word, ghost start: Word)
      requires Valid() && Reasons(e, insts, targets) && Decodes(e, pc) && Reached(e, pc) && Entered(insts, pc, targets)
      requires Pending(e, insts, targets, pc) && Unbroken(e, start, pc)
      modifies this`insts, this`targets, this`queue, this`visited
      ensures Valid() && Reasons(e, insts, targets) && old(targets) <= targets
      ensures insts == old(insts)[pc := e.image[pc]] && Fits(e.image[pc]) && Next(e.image[pc]) > pc
      ensures |queue| >= |old(queue)| && queue[..|old(queue)|] == old(queue)
      ensures forall head: nat :: Room(head) == old(Room(head))
      ensures if Control(e.image[pc].i) then AllRunOn(e, insts, targets) && SplitsMarked(e, start, targets)
        else Pending(e, insts, targets, Next(e.image[pc])) && RunsFrom(e, start, Next(e.image[pc]))
             && Entered(insts, Next(e.image[pc]), targets)
    {
      hide Decoding, Pending, EdgesMarked, Entered, AllRunOn, Reasons, Reached, SplitsMarked, RunsFrom, BranchesTo;
      var d := e.image[pc];
      DecodingImage(e, insts, targets);
      DecodedFits(e, insts, targets, pc);
      RecordedSame(e, insts, targets, pc);
      ghost var before := targets;
      Edges(d);
      EnteredGrows(insts, pc, before, targets);
      AddInst(e, insts, targets, pc);
      PendingStep(e, insts, before, targets, pc, d);
      ReasonsStep(e, insts, before, targets, pc);
      insts := insts[pc := d];
      if Control(d.i) {
        SplitsOnce(e, start, pc, targets);
      } else {
        EnteredNext(insts, Next(d), targets, d);
        RunsOneMore(e, start, pc);
      }
    }

    /** A block that grew too long with the instruction at p goes on as another one. */
    method SplitBlock(start: Word, p: Word)
      requires Valid() && Reasons(e, insts, targets) && start in targets && Unbroken(e, start, p)
      requires Decodes(e, p) && Fits(e.image[p]) && !Control(e.image[p].i) && Next(e.image[p]) - start >= e.maxBlock
      requires Reached(e, p) && Pending(e, insts, targets, Next(e.image[p]))
      modifies this`targets, this`queue, this`visited
      ensures Valid() && Reasons(e, insts, targets) && old(targets) <= targets
      ensures |queue| >= |old(queue)| && queue[..|old(queue)|] == old(queue)
      ensures forall head: nat :: Room(head) == old(Room(head))
      ensures AllRunOn(e, insts, targets) && SplitsMarked(e, start, targets)
    {
      hide Decoding, Pending, AllRunOn, Reasons, Reached, SplitsMarked, RunsFrom, Splits, Unbroken;
      var a := Next(e.image[p]);
      DecodingImage(e, insts, targets);
      RunsOnward(e, p);
      SplitHere(e, start, p);
      ghost var before := targets;
      EnqueueBlock(a);
      SplitReasons(e, insts, before, targets, start, a);
      PendingDone(e, insts, before, targets, a);
      SplitDone(e, start, p, targets);
    }

    /** One decode run from a marked address to a transfer, to what does not decode, or to a cap. */
    method DecodeBlock(start: Word)
      requires Valid() && start in targets && AllRunOn(e, insts, targets) && Reasons(e, insts, targets)
      modifies this`insts, this`targets, this`queue, this`visited, this`capped
      ensures Valid() && Reasons(e, insts, targets) && old(targets) <= targets && old(insts.Keys) <= insts.Keys
      ensures |queue| >= |old(queue)| && queue[..|old(queue)|] == old(queue)
      ensures forall head: nat :: Room(head) == old(Room(head))
      ensures capped ==> old(capped) || |insts| >= e.maxInsts
      ensures !capped ==> !old(capped) && AllRunOn(e, insts, targets) && (Decodes(e, start) ==> start in insts)
      ensures !capped ==> SplitsMarked(e, start, targets)
    {
      hide Decoding, Pending, EdgesMarked, Entered, AllRunOn, Fits, Reasons, Reached, SplitsMarked, RunsFrom, Splits,
           SplitsAfter, BranchesTo, GoesOn;
      AllPending(e, insts, targets, start);
      EnteredTarget(insts, start, targets);
      DecodingImage(e, insts, targets);
      TargetReached(e, insts, targets, start);
      RunsEmpty(e, start);
      var pc: Word := start;
      ghost var room := Room(0);
      assert forall head: nat :: Room(head) == room - head;
      ghost var queue0, targets0, insts0, capped0 := queue, targets, insts, capped;
      ghost var split := false;
      while pc < e.end && e.inCode(pc)
        invariant Valid() && Reasons(e, insts, targets) && capped == capped0 && Room(0) == room
        invariant targets0 <= targets && insts0.Keys <= insts.Keys
        invariant |queue| >= |queue0| && queue[..|queue0|] == queue0
        invariant Entered(insts, pc, targets) && (pc == start || start in insts) && Unbroken(e, start, pc)
        invariant Pending(e, insts, targets, pc) && (Inside(e, pc) ==> Reached(e, pc))
        decreases e.end - pc
      {
        if pc !in e.image { break; }
        Record(pc, start);
        var d := e.image[pc];
        if Control(d.i) {
          split := true;
          break;
        }
        var p := pc;
        pc := Next(d);
        RunsOnward(e, p);
        if pc - start >= e.maxBlock {
          SplitBlock(start, p);
          split := true;
          break;
        }
        if |insts| >= e.maxInsts {
          capped := true;
          break;
        }
      }
      if !split && !capped { SplitsOnce(e, start, pc, targets); }
      PendingDone(e, insts, targets, targets, pc);
    }

    /** The whole worklist. It is cut short only when there are too many instructions. */
    method Run()
      requires Valid() && AllRunOn(e, insts, targets) && Inside(e, e.entry) && Reasons(e, insts, targets) && !capped
      modifies this`insts, this`targets, this`queue, this`visited, this`capped
      ensures Decoding(e, insts, targets) && Reasons(e, insts, targets)
      ensures !capped ==> Complete(e, insts, targets) && forall a :: a in targets ==> SplitsMarked(e, a, targets)
      ensures capped ==> |insts| >= e.maxInsts
    {
      hide Decoding, EdgesMarked, Entered, AllRunOn, Reasons, SplitsMarked;
      DecodingImage(e, insts, targets);
      var head := 0;
      VisitedBound(e, visited, queue);
      while head < |queue|
        invariant head <= |queue| && Valid() && Room(0) >= |queue| && Reasons(e, insts, targets)
        invariant capped ==> |insts| >= e.maxInsts
        invariant !capped ==> AllRunOn(e, insts, targets) && ProcessedUpTo(e, insts, queue, head)
        invariant !capped ==> forall i :: 0 <= i < head ==> SplitsMarked(e, queue[i], targets)
        decreases Room(head), !capped
      {
        if capped || |insts| >= e.maxInsts {
          capped := true;
          break;
        }
        ghost var q, was, marked := queue, insts, targets;
        DecodeBlock(queue[head]);
        VisitedBound(e, visited, queue);
        ProcessedStep(e, was, insts, q, queue, head, capped);
        forall i | !capped && 0 <= i < head
          ensures SplitsMarked(e, queue[i], targets)
        {
          assert queue[i] == q[i];
          SplitsGrow(e, q[i], marked, targets);
        }
        head := head + 1;
      }
      CompleteAtEnd(e, insts, targets, queue, head, capped);
    }
  }

  lemma DecodingImage(e: Extent, insts: Code, targets: set<Word>)
    requires Decoding(e, insts, targets)
    ensures CodeOk(e.image) && CodeOk(insts)
  {
  }

  lemma RecordedSame(e: Extent, insts: Code, targets: set<Word>, pc: Word)
    requires Decoding(e, insts, targets)
    ensures pc in insts ==> pc in e.image && insts[pc] == e.image[pc]
  {
  }

  lemma TargetReached(e: Extent, insts: Code, targets: set<Word>, a: Word)
    requires Reasons(e, insts, targets) && a in targets
    ensures Reached(e, a)
  {
  }

  lemma RunsEmpty(e: Extent, a: Word)
    requires CodeOk(e.image)
    ensures Unbroken(e, a, a)
  {
  }

  lemma RunsOnward(e: Extent, p: Word)
    requires CodeOk(e.image) && Decodes(e, p) && Reached(e, p) && !Control(e.image[p].i)
    ensures Inside(e, Next(e.image[p])) ==> Reached(e, Next(e.image[p]))
  {
    hide Reached;
    if Inside(e, Next(e.image[p])) { ReachedStep(e, p, Next(e.image[p])); }
  }

  lemma SplitHere(e: Extent, start: Word, p: Word)
    requires CodeOk(e.image) && Unbroken(e, start, p) && Decodes(e, p) && !Control(e.image[p].i)
    requires Next(e.image[p]) - start >= e.maxBlock
    ensures Splits(e, start, Next(e.image[p]))
  {
    assert SplitsAfter(e, start, p, Next(e.image[p]));
  }

  lemma SplitDone(e: Extent, start: Word, p: Word, targets: set<Word>)
    requires CodeOk(e.image) && Unbroken(e, start, p) && Decodes(e, p) && Next(e.image[p]) - start >= e.maxBlock
    requires Inside(e, Next(e.image[p])) ==> Next(e.image[p]) in targets
    ensures SplitsMarked(e, start, targets)
  {
    hide Splits;
    var a := Next(e.image[p]);
    SplitsOnce(e, start, p, targets + {a});
    assert forall c :: Splits(e, start, c) && Inside(e, c) ==> c in targets + {a};
  }

  lemma SplitReasons(e: Extent, insts: Code, p: set<Word>, q: set<Word>, start: Word, a: Word)
    requires Reasons(e, insts, p) && start in p && Splits(e, start, a) && (Inside(e, a) ==> Reached(e, a))
    requires q == if Inside(e, a) then p + {a} else p
    ensures Reasons(e, insts, q)
  {
    hide Reached, Splits, Reasons;
    if Inside(e, a) { ReasonsSplit(e, insts, p, start, a); }
  }

  lemma TargetsGrow(e: Extent, insts: Code, p: set<Word>, q: set<Word>)
    requires Decoding(e, insts, p) && p <= q
    ensures Decoding(e, insts, q)
  {
  }

  lemma AddInst(e: Extent, insts: Code, targets: set<Word>, pc: Word)
    requires Decoding(e, insts, targets) && Decodes(e, pc) && Entered(insts, pc, targets)
    requires Fits(e.image[pc]) && EdgesMarked(e.image[pc], e, targets)
    ensures Decoding(e, insts[pc := e.image[pc]], targets)
  {
    var more := insts[pc := e.image[pc]];
    forall a | a in more
      ensures Entered(more, a, targets)
    {
      assert Entered(insts, a, targets);
      if a !in targets {
        var p :| p in insts && Fits(insts[p]) && !Control(insts[p].i) && Next(insts[p]) == a;
        assert more[p] == insts[p];
      }
    }
  }

  lemma DecodedFits(e: Extent, insts: Code, targets: set<Word>, pc: Word)
    requires pc in e.image && Decoding(e, insts, targets)
    ensures Fits(e.image[pc]) && e.image[pc].addr == pc
  {
  }

  lemma EnteredTarget(insts: Code, a: Word, targets: set<Word>)
    requires a in targets
    ensures Entered(insts, a, targets)
  {
  }

  lemma EnteredGrows(insts: Code, a: Word, p: set<Word>, q: set<Word>)
    requires Entered(insts, a, p) && p <= q
    ensures Entered(insts, a, q)
  {
  }

  lemma EnteredNext(insts: Code, a: Word, targets: set<Word>, d: Decoded)
    requires Fits(d) && d.addr in insts && insts[d.addr] == d && !Control(d.i) && Next(d) == a
    ensures Entered(insts, a, targets)
  {
  }

  /** All instructions run on into the decoded set, but for those that run on to pc. */
  ghost predicate Pending(e: Extent, insts: Code, targets: set<Word>, pc: Word) {
    CodeOk(insts)
      && forall a :: a in insts ==> RunsOn(e, insts, targets, a) || (!Control(insts[a].i) && Next(insts[a]) == pc)
  }

  lemma AllPending(e: Extent, insts: Code, targets: set<Word>, pc: Word)
    requires AllRunOn(e, insts, targets)
    ensures Pending(e, insts, targets, pc)
  {
  }

  lemma PendingStep(e: Extent, insts: Code, p: set<Word>, q: set<Word>, pc: Word, d: Decoded)
    requires Pending(e, insts, p, pc) && p <= q && Fits(d) && d.addr == pc
    ensures var more := insts[pc := d];
      if Control(d.i) then AllRunOn(e, more, q) else Pending(e, more, q, Next(d))
  {
    var more := insts[pc := d];
    forall a | a in more
      ensures RunsOn(e, more, q, a) || (!Control(d.i) && a == pc)
    {
      if a != pc { assert RunsOn(e, insts, p, a) || Next(insts[a]) == pc; }
    }
  }

  lemma PendingDone(e: Extent, insts: Code, p: set<Word>, q: set<Word>, pc: Word)
    requires p <= q
    ensures Pending(e, insts, p, pc) && (!Decodes(e, pc) || pc in q || pc in insts) ==> AllRunOn(e, insts, q)
    ensures AllRunOn(e, insts, p) ==> AllRunOn(e, insts, q)
  {
    if Pending(e, insts, p, pc) && (!Decodes(e, pc) || pc in q || pc in insts) {
      forall a | a in insts
        ensures RunsOn(e, insts, q, a)
      {
        assert RunsOn(e, insts, p, a) || Next(insts[a]) == pc;
      }
    }
    if AllRunOn(e, insts, p) {
      forall a | a in insts
        ensures RunsOn(e, insts, q, a)
      {
        assert RunsOn(e, insts, p, a);
      }
    }
  }

  // ---- the worklist ---------------------------------------------------------------------------------------

  /** The first h addresses of the worklist have been decoded where they decode. */
  ghost predicate ProcessedUpTo(e: Extent, insts: Code, queue: seq<Word>, h: nat) {
    h <= |queue| && forall i :: 0 <= i < h ==> Decodes(e, queue[i]) ==> queue[i] in insts
  }

  lemma ProcessedStep(e: Extent, was: Code, insts: Code, q: seq<Word>, queue: seq<Word>, h: nat, capped: bool)
    requires was.Keys <= insts.Keys && |queue| >= |q| > h && queue[..|q|] == q
    requires !capped ==> ProcessedUpTo(e, was, q, h) && (Decodes(e, q[h]) ==> q[h] in insts)
    ensures !capped ==> ProcessedUpTo(e, insts, queue, h + 1)
  {
    forall i | !capped && 0 <= i < h + 1 && Decodes(e, queue[i])
      ensures queue[i] in insts
    {
      assert queue[i] == q[i];
      if i < h { assert q[i] in was; }
    }
  }

  lemma CompleteAtEnd(e: Extent, insts: Code, targets: set<Word>, queue: seq<Word>, h: nat, capped: bool)
    requires !capped ==> AllRunOn(e, insts, targets) && ProcessedUpTo(e, insts, queue, h) && h == |queue|
    requires forall a :: a in targets <==> a in queue
    ensures !capped ==> Complete(e, insts, targets)
  {
  }

  /** No more addresses are visited than the extent has. */
  lemma VisitedBound(e: Extent, visited: set<Word>, queue: seq<Word>)
    requires (forall a :: a in visited ==> Inside(e, a))
    ensures e.entry <= e.end ==> |visited| <= e.end - e.entry
  {
    if e.entry <= e.end { RangeCount(visited, e.entry, e.end); }
  }

  lemma {:induction false} RangeCount(s: set<Word>, lo: Word, hi: Word)
    requires lo <= hi && forall a :: a in s ==> lo <= a < hi
    ensures |s| <= hi - lo
    decreases hi - lo
  {
    if lo == hi {
      assert s == {};
    } else {
      RangeCount(s - {lo}, lo + 1, hi);
    }
  }

  // ---- leaders ---------------------------------------------------------------------------------------------

  ghost predicate SortedOf(s: seq<Word>, keys: set<Word>) { Sorted(s) && forall a :: a in s <==> a in keys }

  /** In address order the instruction after s[i] is not the one it runs on to. */
  predicate Seam(insts: Code, s: seq<Word>, i: nat)
    requires CodeOk(insts) && i + 1 < |s| && s[i] in insts
  {
    s[i + 1] != Next(insts[s[i]])
  }

  /** The seam behind s[i] makes a start a block: a stands after it, or is what s[i] runs on to. */
  predicate SeamAt(insts: Code, s: seq<Word>, i: nat, a: Word)
    requires CodeOk(insts) && i < |s| && s[i] in insts
  {
    i + 1 < |s| && Seam(insts, s, i) && (a == s[i + 1] || (a == Next(insts[s[i]]) && a in insts))
  }

  ghost predicate SeamLeader(insts: Code, s: seq<Word>, n: nat, a: Word)
    requires CodeOk(insts) && n <= |s| && forall i :: 0 <= i < |s| ==> s[i] in insts
  {
    exists i :: 0 <= i < n && SeamAt(insts, s, i, a)
  }

  ghost predicate LeadersOk(insts: Code, s: seq<Word>, entry: Word, targets: set<Word>, leaders: set<Word>) {
    && CodeOk(insts) && SortedOf(s, insts.Keys)
    && forall a :: a in leaders <==> a == entry || (a in targets && a in insts) || SeamLeader(insts, s, |s|, a)
  }

  /** slices.Sort on the keys of a map. */
  method SortAddresses(keys: set<Word>) returns (s: seq<Word>)
    ensures SortedOf(s, keys)
  {
    s := [];
    var rest := keys;
    while rest != {}
      invariant Sorted(s) && rest <= keys && forall a :: a in s <==> a in keys && a !in rest
      decreases rest
    {
      var a :| a in rest;
      rest := rest - {a};
      var i := 0;
      while i < |s| && s[i] < a
        invariant 0 <= i <= |s| && forall j :: 0 <= j < i ==> s[j] < a
      {
        i := i + 1;
      }
      InsertSorted(s, i, a);
      s := s[..i] + [a] + s[i..];
    }
  }

  lemma InsertSorted(s: seq<Word>, i: nat, a: Word)
    requires Sorted(s) && i <= |s| && a !in s && (forall j :: 0 <= j < i ==> s[j] < a) && (i < |s| ==> s[i] >= a)
    ensures var t := s[..i] + [a] + s[i..]; Sorted(t) && forall c :: c in t <==> c in s || c == a
  {
    var t := s[..i] + [a] + s[i..];
    forall c | c in s
      ensures c in t
    {
      var k :| 0 <= k < |s| && s[k] == c;
      assert t[if k < i then k else k + 1] == c;
    }
    assert t[i] == a;
    assert i < |s| ==> s[i] in s;
  }

  method FindLeaders(insts: Code, s: seq<Word>, entry: Word, targets: set<Word>) returns (leaders: set<Word>)
    requires CodeOk(insts) && SortedOf(s, insts.Keys)
    ensures LeadersOk(insts, s, entry, targets, leaders)
  {
    leaders := {entry} + set t | t in targets && t in insts;
    var i := 0;
    while i + 1 < |s|
      invariant 0 <= i && (i < |s| || i == 0)
      invariant forall a :: a in leaders <==> a == entry || (a in targets && a in insts) || SeamLeader(insts, s, i, a)
    {
      var d := insts[s[i]];
      ghost var was := leaders;
      if s[i + 1] != Next(d) {
        leaders := leaders + {s[i + 1]};
        if Next(d) in insts { leaders := leaders + {Next(d)}; }
      }
      forall a
        ensures a in leaders <==> a == entry || (a in targets && a in insts) || SeamLeader(insts, s, i + 1, a)
      {
        SeamStep(insts, s, i, a);
      }
      i := i + 1;
    }
    forall a
      ensures SeamLeader(insts, s, i, a) <==> SeamLeader(insts, s, |s|, a)
    {
      if |s| > 0 { SeamStep(insts, s, |s| - 1, a); }
    }
  }

  lemma SeamStep(insts: Code, s: seq<Word>, i: nat, a: Word)
    requires CodeOk(insts) && SortedOf(s, insts.Keys) && i < |s|
    ensures SeamLeader(insts, s, i + 1, a) <==> SeamLeader(insts, s, i, a) || SeamAt(insts, s, i, a)
  {
    hide SeamAt, CodeOk;
  }

  // ---- blocks --------------------------------------------------------------------------------------------------

  function Slice(insts: Code, s: seq<Word>, lo: nat, hi: nat): Block
    requires lo <= hi <= |s| && forall i :: 0 <= i < |s| ==> s[i] in insts
  {
    seq(hi - lo, k requires 0 <= k < hi - lo => insts[s[lo + k]])
  }

  /** Positions [lo, hi) are one block: leaders in front of it and behind it, none within. */
  predicate Chunk(s: seq<Word>, leaders: set<Word>, lo: nat, hi: nat) {
    && lo < hi <= |s| && (lo == 0 || s[lo] in leaders) && (hi == |s| || s[hi] in leaders)
    && forall i :: lo < i < hi ==> s[i] !in leaders
  }

  /** Position i is in a block among the first n positions. */
  ghost predicate Covered(s: seq<Word>, leaders: set<Word>, blocks: map<Word, Block>, n: nat, i: nat) {
    exists lo, hi :: 0 <= lo <= i < hi <= n && Chunk(s, leaders, lo, hi) && s[lo] in blocks
  }

  /** Block a is made of positions below n. */
  ghost predicate Built(insts: Code, s: seq<Word>, leaders: set<Word>, blocks: map<Word, Block>, n: nat, a: Word)
    requires a in blocks && forall i :: 0 <= i < |s| ==> s[i] in insts
  {
    exists lo, hi ::
      0 <= lo < hi <= n && Chunk(s, leaders, lo, hi) && a == s[lo] && blocks[a] == Slice(insts, s, lo, hi)
  }

  /** The blocks of the first n positions. */
  ghost predicate BlocksUpTo(insts: Code, s: seq<Word>, leaders: set<Word>, blocks: map<Word, Block>, n: nat)
    requires n <= |s| && forall i :: 0 <= i < |s| ==> s[i] in insts
  {
    && (forall a :: a in blocks ==> Built(insts, s, leaders, blocks, n, a))
    && (forall i :: 0 <= i < n ==> Covered(s, leaders, blocks, n, i))
  }

  lemma BlocksStep(insts: Code, s: seq<Word>, leaders: set<Word>, blocks: map<Word, Block>, lo: nat, hi: nat)
    requires SortedOf(s, insts.Keys) && lo <= |s| && BlocksUpTo(insts, s, leaders, blocks, lo)
      && Chunk(s, leaders, lo, hi)
    ensures BlocksUpTo(insts, s, leaders, blocks[s[lo] := Slice(insts, s, lo, hi)], hi)
  {
    hide Slice;
    var more := blocks[s[lo] := Slice(insts, s, lo, hi)];
    forall a | a in more
      ensures Built(insts, s, leaders, more, hi, a)
    {
      if a != s[lo] {
        assert Built(insts, s, leaders, blocks, lo, a);
        var l, h :| 0 <= l < h <= lo && Chunk(s, leaders, l, h) && a == s[l] && blocks[a] == Slice(insts, s, l, h);
        assert more[a] == Slice(insts, s, l, h);
      }
    }
    forall i: nat | i < hi
      ensures Covered(s, leaders, more, hi, i)
    {
      if i < lo {
        assert Covered(s, leaders, blocks, lo, i);
        var l, h :| 0 <= l <= i < h <= lo && Chunk(s, leaders, l, h) && s[l] in blocks;
        assert s[l] in more;
      }
    }
  }

  lemma NoBlocks(insts: Code, s: seq<Word>, leaders: set<Word>)
    requires forall i :: 0 <= i < |s| ==> s[i] in insts
    ensures BlocksUpTo(insts, s, leaders, map[], 0)
  {
  }

  method BuildBlocks(insts: Code, s: seq<Word>, leaders: set<Word>) returns (blocks: map<Word, Block>)
    requires SortedOf(s, insts.Keys)
    ensures BlocksUpTo(insts, s, leaders, blocks, |s|)
  {
    hide BlocksUpTo, Sorted;
    blocks := map[];
    NoBlocks(insts, s, leaders);
    var current: Block := [];
    var i := 0;
    while i < |s|
      invariant 0 <= i <= |s| && |current| <= i && (i > 0 ==> current != [])
      invariant current == Slice(insts, s, i - |current|, i)
      invariant BlocksUpTo(insts, s, leaders, blocks, i - |current|)
      invariant i - |current| == 0 || s[i - |current|] in leaders
      invariant forall j :: i - |current| < j < i ==> s[j] !in leaders
    {
      var d := insts[s[i]];
      if s[i] in leaders || current == [] {
        if current != [] {
          BlocksStep(insts, s, leaders, blocks, i - |current|, i);
          blocks := blocks[s[i - |current|] := current];
        }
        current := [d];
      } else {
        current := current + [d];
      }
      i := i + 1;
    }
    if current != [] {
      BlocksStep(insts, s, leaders, blocks, i - |current|, i);
      blocks := blocks[s[i - |current|] := current];
    }
  }

  // ---- the blocks are right -----------------------------------------------------------------------------------

  /** What the two phases leave. */
  ghost predicate Recovered(e: Extent, insts: Code, targets: set<Word>, s: seq<Word>, leaders: set<Word>,
                            blocks: map<Word, Block>) {
    && Decoding(e, insts, targets) && LeadersOk(insts, s, e.entry, targets, leaders)
    && BlocksUpTo(insts, s, leaders, blocks, |s|)
  }

  lemma Positions(insts: Code, s: seq<Word>, a: Word) returns (i: nat)
    requires SortedOf(s, insts.Keys) && a in insts
    ensures i < |s| && s[i] == a
  {
    assert a in s;
    i :| 0 <= i < |s| && s[i] == a;
  }

  /** A decoded instruction that s[i] runs on to is the next in order or a leader. */
  lemma NextLeads(insts: Code, s: seq<Word>, entry: Word, targets: set<Word>, leaders: set<Word>, i: nat)
    requires LeadersOk(insts, s, entry, targets, leaders) && i < |s| && Next(insts[s[i]]) in insts
    ensures (i + 1 < |s| && s[i + 1] == Next(insts[s[i]])) || Next(insts[s[i]]) in leaders
  {
    var next := Next(insts[s[i]]);
    var j := Positions(insts, s, next);
    assert next > s[i];
    assert j > i;
    if s[i + 1] != next { assert SeamAt(insts, s, i, next); }
  }

  /** Where the next instruction in order is no leader, the two are neighbours and control runs on:
      an instruction at the end of a transfer would be entered from a target or from another
      stream, and both make it a leader. */
  lemma RunsInto(e: Extent, insts: Code, targets: set<Word>, s: seq<Word>, leaders: set<Word>, i: nat)
    requires Decoding(e, insts, targets) && LeadersOk(insts, s, e.entry, targets, leaders) && i + 1 < |s|
      && s[i + 1] !in leaders
    ensures s[i + 1] == Next(insts[s[i]]) && !Control(insts[s[i]].i)
  {
    var d, a := insts[s[i]], s[i + 1];
    if a != Next(d) { assert SeamAt(insts, s, i, a); }
    assert a !in targets;
    if Control(d.i) {
      assert Entered(insts, a, targets);
      var p :| p in insts && Fits(insts[p]) && !Control(insts[p].i) && Next(insts[p]) == a;
      var q := Positions(insts, s, p);
      assert p < a;
      assert q < i;
      NextLeads(insts, s, e.entry, targets, leaders, q);
      assert false;
    }
  }

  lemma LeaderStarts(insts: Code, s: seq<Word>, leaders: set<Word>, blocks: map<Word, Block>, a: Word)
    requires SortedOf(s, insts.Keys) && BlocksUpTo(insts, s, leaders, blocks, |s|) && a in insts && a in leaders
    ensures a in blocks
  {
    var p := Positions(insts, s, a);
    assert Covered(s, leaders, blocks, |s|, p);
    var lo, hi :| 0 <= lo <= p < hi <= |s| && Chunk(s, leaders, lo, hi) && s[lo] in blocks;
    assert lo == p;
  }

  lemma BlockShape(e: Extent, insts: Code, targets: set<Word>, s: seq<Word>, leaders: set<Word>, lo: nat, hi: nat)
    requires Decoding(e, insts, targets) && LeadersOk(insts, s, e.entry, targets, leaders) && Chunk(s, leaders, lo, hi)
    ensures BlockOk(s[lo], Slice(insts, s, lo, hi))
  {
    hide LeadersOk, Decoding;
    DecodedAll(e, insts, targets, s, leaders);
    var b := Slice(insts, s, lo, hi);
    forall k | 0 <= k < |b| - 1
      ensures !Control(b[k].i) && b[k + 1].addr == Next(b[k])
    {
      RunsInto(e, insts, targets, s, leaders, lo + k);
    }
  }

  lemma DecodedAll(e: Extent, insts: Code, targets: set<Word>, s: seq<Word>, leaders: set<Word>)
    requires Decoding(e, insts, targets) && LeadersOk(insts, s, e.entry, targets, leaders)
    ensures CodeOk(insts) && forall i :: 0 <= i < |s| ==> s[i] in insts && Fits(insts[s[i]]) && insts[s[i]].addr == s[i]
  {
  }

  /** What the last instruction of a block goes to starts a block. */
  lemma LastCloses(e: Extent, insts: Code, targets: set<Word>, s: seq<Word>, leaders: set<Word>,
                   blocks: map<Word, Block>, order: seq<Word>, lo: nat, hi: nat)
    requires Recovered(e, insts, targets, s, leaders, blocks) && Chunk(s, leaders, lo, hi)
    ensures Fits(insts[s[hi - 1]]) && Closed(Function(order, blocks), insts, insts[s[hi - 1]])
  {
    hide BlocksUpTo, SeamLeader, Entered, Sorted;
    var d := insts[s[hi - 1]];
    assert EdgesMarked(d, e, targets);
    if (d.i.Jmp? || d.i.Jcc?) && d.i.target in insts {
      assert Inside(e, d.i.target);
      LeaderStarts(insts, s, leaders, blocks, d.i.target);
    }
    if FallsThrough(d.i) && Next(d) in insts {
      NextLeads(insts, s, e.entry, targets, leaders, hi - 1);
      LeaderStarts(insts, s, leaders, blocks, Next(d));
    }
  }

  lemma BuiltAt(insts: Code, s: seq<Word>, leaders: set<Word>, blocks: map<Word, Block>, a: Word)
    requires (forall i :: 0 <= i < |s| ==> s[i] in insts) && BlocksUpTo(insts, s, leaders, blocks, |s|) && a in blocks
    ensures Built(insts, s, leaders, blocks, |s|, a)
  {
  }

  /** Block a as a range of positions. */
  lemma Range(e: Extent, insts: Code, targets: set<Word>, s: seq<Word>, leaders: set<Word>, blocks: map<Word, Block>,
              a: Word)
    returns (lo: nat, hi: nat)
    requires Recovered(e, insts, targets, s, leaders, blocks) && a in blocks
    ensures lo < hi <= |s| && Chunk(s, leaders, lo, hi) && a == s[lo] && |blocks[a]| == hi - lo
      && SortedOf(s, insts.Keys)
    ensures forall i :: 0 <= i < |s| ==> s[i] in insts
    ensures blocks[a] == Slice(insts, s, lo, hi)
    ensures forall k :: 0 <= k < |blocks[a]| ==> blocks[a][k].addr == s[lo + k] && InCode(blocks[a][k], insts)
  {
    hide Fits, Decoding, LeadersOk, BlocksUpTo, Chunk, CodeOk;
    DecodedAll(e, insts, targets, s, leaders);
    KeysSorted(e, insts, s, targets, leaders);
    assert Built(insts, s, leaders, blocks, |s|, a) by { BuiltAt(insts, s, leaders, blocks, a); }
    lo, hi :| 0 <= lo < hi <= |s| && Chunk(s, leaders, lo, hi) && a == s[lo] && blocks[a] == Slice(insts, s, lo, hi);
  }

  /** Block a is gap-free, made of decoded instructions, and closed. */
  ghost predicate RightBlock(fn: Function, code: Code, a: Word) {
    && a in fn.blocks && BlockOk(a, fn.blocks[a]) && Closed(fn, code, Last(fn.blocks[a]))
    && forall k :: 0 <= k < |fn.blocks[a]| ==> InCode(fn.blocks[a][k], code)
  }

  lemma BlockRight(e: Extent, insts: Code, targets: set<Word>, s: seq<Word>, leaders: set<Word>,
                   blocks: map<Word, Block>, order: seq<Word>, a: Word)
    requires Recovered(e, insts, targets, s, leaders, blocks) && a in blocks
    ensures RightBlock(Function(order, blocks), insts, a)
  {
    hide LeadersOk, Decoding, Closed, Fits, BlocksUpTo;
    var lo, hi := Range(e, insts, targets, s, leaders, blocks, a);
    BlockShape(e, insts, targets, s, leaders, lo, hi);
    LastCloses(e, insts, targets, s, leaders, blocks, order, lo, hi);
  }

  lemma InSomeBlock(e: Extent, insts: Code, targets: set<Word>, s: seq<Word>, leaders: set<Word>,
                    blocks: map<Word, Block>, pc: Word)
    requires Recovered(e, insts, targets, s, leaders, blocks) && pc in insts
    ensures exists a, k :: a in blocks && 0 <= k < |blocks[a]| && blocks[a][k].addr == pc
  {
    hide Fits, Decoding, SeamLeader, Slice, Built;
    KeysSorted(e, insts, s, targets, leaders);
    var p := Positions(insts, s, pc);
    assert Covered(s, leaders, blocks, |s|, p);
    var l, h :| 0 <= l <= p < h <= |s| && Chunk(s, leaders, l, h) && s[l] in blocks;
    var a := s[l];
    var lo, hi := Range(e, insts, targets, s, leaders, blocks, a);
    SameChunk(s, leaders, lo, hi, l, h);
    assert blocks[a][p - lo].addr == pc;
  }

  lemma KeysSorted(e: Extent, insts: Code, s: seq<Word>, targets: set<Word>, leaders: set<Word>)
    requires LeadersOk(insts, s, e.entry, targets, leaders)
    ensures SortedOf(s, insts.Keys)
  {
  }

  /** Two blocks with a position in common are the same. */
  lemma SameChunk(s: seq<Word>, leaders: set<Word>, lo: nat, hi: nat, l: nat, h: nat)
    requires Sorted(s) && Chunk(s, leaders, lo, hi) && Chunk(s, leaders, l, h) && lo < h && l < hi
    ensures lo == l && hi == h
  {
  }

  /** The recovered function is well formed, its blocks partition the decoded instructions, and it
      starts at the entry. */
  lemma RecoveredWell(e: Extent, insts: Code, targets: set<Word>, s: seq<Word>, leaders: set<Word>,
                      blocks: map<Word, Block>, order: seq<Word>)
    requires Recovered(e, insts, targets, s, leaders, blocks) && SortedOf(order, blocks.Keys)
    ensures WellFormed(Function(order, blocks), insts)
  {
    hide LeadersOk, BlocksUpTo, BlockOk, Closed, EdgesMarked, Entered, InCode;
    forall a | a in blocks
      ensures RightBlock(Function(order, blocks), insts, a)
    {
      BlockRight(e, insts, targets, s, leaders, blocks, order, a);
    }
    forall pc | pc in insts
      ensures exists a, k :: a in blocks && 0 <= k < |blocks[a]| && blocks[a][k].addr == pc
    {
      InSomeBlock(e, insts, targets, s, leaders, blocks, pc);
    }
  }

  /** No instruction is in two blocks, or twice in one. */
  lemma OneBlockEach(e: Extent, insts: Code, targets: set<Word>, s: seq<Word>, leaders: set<Word>,
                     blocks: map<Word, Block>, a: Word, k: nat, c: Word, m: nat)
    requires Recovered(e, insts, targets, s, leaders, blocks) && a in blocks && c in blocks && k < |blocks[a]|
      && m < |blocks[c]|
    requires blocks[a][k].addr == blocks[c][m].addr
    ensures a == c && k == m
  {
    hide Recovered, Slice;
    var lo, hi := Range(e, insts, targets, s, leaders, blocks, a);
    var l, h := Range(e, insts, targets, s, leaders, blocks, c);
    assert s[lo + k] == s[l + m];
    assert lo + k == l + m;
    SameChunk(s, leaders, lo, hi, l, h);
  }

  lemma AllOnce(e: Extent, insts: Code, targets: set<Word>, s: seq<Word>, leaders: set<Word>, fn: Function)
    requires Recovered(e, insts, targets, s, leaders, fn.blocks)
    ensures OnceEach(fn)
  {
    hide Recovered;
    forall a, k, c, m | a in fn.blocks && 0 <= k < |fn.blocks[a]| && c in fn.blocks && 0 <= m < |fn.blocks[c]|
      && fn.blocks[a][k].addr == fn.blocks[c][m].addr
      ensures a == c && k == m
    {
      OneBlockEach(e, insts, targets, s, leaders, fn.blocks, a, k, c, m);
    }
  }

  /** When the entry decodes, it is the first block. */
  lemma EntryFirst(e: Extent, insts: Code, targets: set<Word>, s: seq<Word>, leaders: set<Word>,
                   blocks: map<Word, Block>, order: seq<Word>)
    requires Recovered(e, insts, targets, s, leaders, blocks) && SortedOf(order, blocks.Keys) && e.entry in insts
    ensures order != [] && order[0] == e.entry
  {
    hide BlocksUpTo, SeamLeader, EdgesMarked, Entered, CodeOk;
    LeaderEntry(e, insts, targets, s, leaders, blocks);
    assert e.entry in order;
    var a := order[0];
    assert a in blocks;
    var lo, hi := Range(e, insts, targets, s, leaders, blocks, a);
    assert Inside(e, s[lo]);
  }

  lemma LeaderEntry(e: Extent, insts: Code, targets: set<Word>, s: seq<Word>, leaders: set<Word>,
                    blocks: map<Word, Block>)
    requires Recovered(e, insts, targets, s, leaders, blocks) && e.entry in insts
    ensures e.entry in blocks
  {
    LeaderStarts(insts, s, leaders, blocks, e.entry);
  }

  // ---- exactly what is reached, exactly where blocks start ------------------------------------------------

  lemma {:induction false} ReachedDecoded(e: Extent, insts: Code, a: Word, n: nat)
    requires CodeOk(e.image) && Closure(e, insts) && ReachedIn(e, a, n) && Decodes(e, a)
    requires forall p :: p in insts ==> p in e.image && insts[p] == e.image[p]
    ensures a in insts
    decreases n
  {
    if a != e.entry {
      var p :| Decodes(e, p) && ReachedIn(e, p, n - 1) && GoesOn(e.image[p], a);
      ReachedDecoded(e, insts, p, n - 1);
      assert FollowsIn(e, insts, insts[p]);
    }
  }

  /** The decoded instructions are what decodes at the addresses that control reaches from the entry within
      the extent: no others, and all of them unless the function is too long. */
  ghost predicate DecodedExactly(e: Extent, insts: Code, capped: bool)
    requires CodeOk(e.image)
  {
    && (forall a :: a in insts ==> Decodes(e, a) && insts[a] == e.image[a] && Reached(e, a))
    && (!capped ==> forall a :: Decodes(e, a) && Reached(e, a) ==> a in insts)
    && (capped ==> |insts| >= e.maxInsts)
  }

  lemma AllReached(e: Extent, insts: Code, targets: set<Word>, capped: bool)
    requires Decoding(e, insts, targets) && Reasons(e, insts, targets)
    requires if capped then |insts| >= e.maxInsts else Complete(e, insts, targets)
    ensures DecodedExactly(e, insts, capped)
  {
    hide ReachedIn;
    if !capped {
      CompleteCloses(e, insts, targets);
      forall a | Decodes(e, a) && Reached(e, a)
        ensures a in insts
      {
        var n: nat :| ReachedIn(e, a, n);
        ReachedDecoded(e, insts, a, n);
      }
    }
  }

  /** c is the decoded address after p. */
  ghost predicate Adjacent(insts: Code, p: Word, c: Word) {
    p in insts && c in insts && p < c && forall x :: x in insts ==> x <= p || c <= x
  }

  /** a stands behind a seam between overlapping streams, or is what the instruction in front of one runs on
      to. */
  ghost predicate SeamStart(insts: Code, a: Word)
    requires CodeOk(insts)
  {
    a in insts && exists p, c :: Adjacent(insts, p, c) && Next(insts[p]) != c && (a == c || a == Next(insts[p]))
  }

  lemma SeamStarts(insts: Code, s: seq<Word>, a: Word)
    requires CodeOk(insts) && SortedOf(s, insts.Keys)
    ensures SeamLeader(insts, s, |s|, a) <==> SeamStart(insts, a)
  {
    if SeamLeader(insts, s, |s|, a) {
      var i :| 0 <= i < |s| && SeamAt(insts, s, i, a);
      AdjacentAt(insts, s, i);
      assert s[i + 1] in insts;
    }
    if SeamStart(insts, a) { StartLeads(insts, s, a); }
  }

  lemma StartLeads(insts: Code, s: seq<Word>, a: Word)
    requires CodeOk(insts) && SortedOf(s, insts.Keys) && SeamStart(insts, a)
    ensures SeamLeader(insts, s, |s|, a)
  {
    var p, c :| Adjacent(insts, p, c) && Next(insts[p]) != c && (a == c || a == Next(insts[p]));
    var i := Positions(insts, s, p);
    NextInOrder(insts, s, p, c, i);
    assert SeamAt(insts, s, i, a);
  }

  lemma NextInOrder(insts: Code, s: seq<Word>, p: Word, c: Word, i: nat)
    requires SortedOf(s, insts.Keys) && Adjacent(insts, p, c) && i < |s| && s[i] == p
    ensures i + 1 < |s| && s[i + 1] == c
  {
    var j := Positions(insts, s, c);
    assert j > i;
    assert s[i + 1] in insts;
  }

  lemma AdjacentAt(insts: Code, s: seq<Word>, i: nat)
    requires SortedOf(s, insts.Keys) && i + 1 < |s|
    ensures Adjacent(insts, s[i], s[i + 1])
  {
    forall x | x in insts
      ensures x <= s[i] || s[i + 1] <= x
    {
      var k := Positions(insts, s, x);
    }
  }

  /** Where a block may start: at the entry, at a decoded branch's target, behind a decoded conditional
      branch, where a block grew too long, and at a seam. */
  ghost predicate StartsBlock(e: Extent, insts: Code, a: Word)
    requires CodeOk(e.image) && CodeOk(insts)
  {
    a in insts && (Marked(e, insts, a) || SeamStart(insts, a))
  }

  ghost predicate StartsExactly(e: Extent, insts: Code, blocks: map<Word, Block>, capped: bool)
    requires CodeOk(e.image) && CodeOk(insts)
  {
    && (forall a :: a in blocks ==> StartsBlock(e, insts, a))
    && (!capped ==> forall a :: StartsBlock(e, insts, a) ==> a in blocks)
  }

  lemma {:induction false} MarkedTarget(e: Extent, insts: Code, targets: set<Word>, a: Word, n: nat)
    requires Decoding(e, insts, targets) && MarkedIn(e, insts, a, n)
    requires forall c :: c in targets ==> SplitsMarked(e, c, targets)
    ensures a in targets
    decreases n
  {
    hide Splits;
    if BranchedTo(insts, a) {
      var p :| p in insts && BranchesTo(insts[p], a);
      assert EdgesMarked(insts[p], e, targets);
    } else if a != e.entry {
      var start :| MarkedIn(e, insts, start, n - 1) && Splits(e, start, a);
      MarkedTarget(e, insts, targets, start, n - 1);
      assert SplitsMarked(e, start, targets);
    }
  }

  /** The first instruction in address order is a target: nothing runs on to it. */
  lemma FirstMarked(e: Extent, insts: Code, targets: set<Word>, s: seq<Word>)
    requires Decoding(e, insts, targets) && SortedOf(s, insts.Keys) && s != []
    ensures s[0] in targets
  {
    assert s[0] in insts;
    assert Entered(insts, s[0], targets);
  }

  lemma StartReason(e: Extent, insts: Code, targets: set<Word>, s: seq<Word>, leaders: set<Word>,
                    blocks: map<Word, Block>, a: Word)
    requires Recovered(e, insts, targets, s, leaders, blocks) && Reasons(e, insts, targets) && a in blocks
    ensures StartsBlock(e, insts, a)
  {
    hide Reached, MarkedIn, Fits, Decoding, BlocksUpTo, SeamLeader;
    var lo, hi := Range(e, insts, targets, s, leaders, blocks, a);
    if s[lo] !in leaders { FirstMarked(e, insts, targets, s); }
    SeamStarts(insts, s, a);
    assert e.entry in targets by { EntryTarget(e, insts, targets); }
  }

  lemma EntryTarget(e: Extent, insts: Code, targets: set<Word>)
    requires Decoding(e, insts, targets)
    ensures e.entry in targets
  {
  }

  lemma StartBlock(e: Extent, insts: Code, targets: set<Word>, s: seq<Word>, leaders: set<Word>,
                   blocks: map<Word, Block>, a: Word)
    requires Recovered(e, insts, targets, s, leaders, blocks) && CodeOk(e.image) && StartsBlock(e, insts, a)
    requires forall c :: c in targets ==> SplitsMarked(e, c, targets)
    ensures a in blocks
  {
    hide MarkedIn, Fits, Decoding, BlocksUpTo, SeamLeader;
    KeysSorted(e, insts, s, targets, leaders);
    SeamStarts(insts, s, a);
    if Marked(e, insts, a) {
      var n: nat :| MarkedIn(e, insts, a, n);
      MarkedTarget(e, insts, targets, a, n);
    }
    LeaderStarts(insts, s, leaders, blocks, a);
  }

  lemma StartsRight(e: Extent, insts: Code, targets: set<Word>, s: seq<Word>, leaders: set<Word>,
                    blocks: map<Word, Block>, capped: bool)
    requires Recovered(e, insts, targets, s, leaders, blocks) && Reasons(e, insts, targets)
    requires !capped ==> forall c :: c in targets ==> SplitsMarked(e, c, targets)
    ensures StartsExactly(e, insts, blocks, capped)
  {
    hide Recovered, StartsBlock, SplitsMarked;
    forall a | a in blocks ensures StartsBlock(e, insts, a) {
      StartReason(e, insts, targets, s, leaders, blocks, a);
    }
    forall a | !capped && StartsBlock(e, insts, a) ensures a in blocks {
      StartBlock(e, insts, targets, s, leaders, blocks, a);
    }
  }

  /** disasmBranchFollowing */
  method RecoverFunction(e: Extent) returns (fn: Function, insts: Code, capped: bool)
    requires CodeOk(e.image) && Inside(e, e.entry)
    ensures WellFormed(fn, insts) && OnceEach(fn)
    ensures DecodedExactly(e, insts, capped) && StartsExactly(e, insts, fn.blocks, capped)
    ensures e.entry in insts ==> fn.order != [] && fn.order[0] == e.entry
    ensures !capped ==> Closure(e, insts)
  {
    hide Decoding, BlocksUpTo, LeadersOk, Complete, WellFormed, OnceEach, Reasons, SplitsMarked, DecodedExactly,
         StartsExactly, Closure;
    var r := new Recovery(e);
    NothingDecoded(e);
    NoReasons(e);
    r.Run();
    insts, capped := r.insts, r.capped;
    var s := SortAddresses(insts.Keys);
    DecodedOk(e, insts, r.targets);
    var leaders := FindLeaders(insts, s, e.entry, r.targets);
    var blocks := BuildBlocks(insts, s, leaders);
    var order := SortAddresses(blocks.Keys);
    fn := Function(order, blocks);
    RecoveredWell(e, insts, r.targets, s, leaders, blocks, order);
    AllOnce(e, insts, r.targets, s, leaders, fn);
    AllReached(e, insts, r.targets, capped);
    StartsRight(e, insts, r.targets, s, leaders, blocks, capped);
    if e.entry in insts { EntryFirst(e, insts, r.targets, s, leaders, blocks, order); }
    if !capped { CompleteCloses(e, insts, r.targets); }
  }

  /** Everything control can reach from the entry within the extent is decoded. */
  ghost predicate Closure(e: Extent, insts: Code) {
    && CodeOk(insts) && (Decodes(e, e.entry) ==> e.entry in insts)
    && forall a :: a in insts ==> FollowsIn(e, insts, insts[a])
  }

  predicate FollowsIn(e: Extent, insts: Code, d: Decoded)
    requires Fits(d)
  {
    && ((d.i.Jmp? || d.i.Jcc?) && Decodes(e, d.i.target) ==> d.i.target in insts)
    && (FallsThrough(d.i) && Decodes(e, Next(d)) ==> Next(d) in insts)
  }

  lemma NothingDecoded(e: Extent)
    requires CodeOk(e.image)
    ensures Decoding(e, map[], {e.entry}) && AllRunOn(e, map[], {e.entry})
  {
  }

  lemma NoReasons(e: Extent)
    requires CodeOk(e.image) && Inside(e, e.entry)
    ensures Reasons(e, map[], {e.entry})
  {
    assert ReachedIn(e, e.entry, 1) && MarkedIn(e, map[], e.entry, 1);
  }

  lemma DecodedOk(e: Extent, insts: Code, targets: set<Word>)
    requires Decoding(e, insts, targets)
    ensures CodeOk(insts) && forall a :: a in insts ==> Decodes(e, a) && insts[a] == e.image[a]
  {
  }

  lemma CompleteCloses(e: Extent, insts: Code, targets: set<Word>)
    requires Decoding(e, insts, targets) && Complete(e, insts, targets)
    ensures Closure(e, insts)
  {
    forall a | a in insts
      ensures FollowsIn(e, insts, insts[a])
    {
      assert EdgesMarked(insts[a], e, targets);
      assert RunsOn(e, insts, targets, a);
    }
  }
}
