/** Address ranges (ehframe.go): merging a list into separated ranges and looking addresses up. */
module Ranges {
  import opened Words

  datatype Range = Range(start: Word, end: Word)

  predicate Has(r: Range, a: Word) { r.start <= a < r.end }

  predicate Covers(rs: seq<Range>, a: Word) { exists r :: r in rs && Has(r, a) }

  /** Nonempty, in order, with a gap after each. */
  predicate Separated(rs: seq<Range>) {
    && (forall i :: 0 <= i < |rs| ==> rs[i].start < rs[i].end)
    && forall i, j :: 0 <= i < j < |rs| ==> rs[i].end < rs[j].start
  }

  predicate ByStart(rs: seq<Range>) { forall i, j :: 0 <= i < j < |rs| ==> rs[i].start <= rs[j].start }

  predicate Before(p: Range, q: Range) { p.start < q.start || (p.start == q.start && p.end <= q.end) }

  /** slices.SortFunc by start, then by end. */
  method SortRanges(rs: seq<Range>) returns (s: seq<Range>)
    ensures ByStart(s) && multiset(s) == multiset(rs)
  {
    s := [];
    var n := 0;
    while n < |rs|
      invariant 0 <= n <= |rs| && ByStart(s) && multiset(s) == multiset(rs[..n])
    {
      var i := 0;
      while i < |s| && Before(s[i], rs[n])
        invariant 0 <= i <= |s| && forall j :: 0 <= j < i ==> s[j].start <= rs[n].start
      {
        i := i + 1;
      }
      assert rs[..n + 1] == rs[..n] + [rs[n]];
      assert s == s[..i] + s[i..];
      assert i < |s| ==> s[i].start >= rs[n].start;
      s := s[..i] + [rs[n]] + s[i..];
      n := n + 1;
    }
    assert rs[..n] == rs;
  }

  /** Ranges in start order, up to the current one, with the same addresses as those seen. */
  predicate Merged(out: seq<Range>, seen: seq<Range>) {
    Separated(out) && forall a: Word :: Covers(out, a) <==> Covers(seen, a)
  }

  lemma CoversAppend(rs: seq<Range>, r: Range, a: Word)
    ensures Covers(rs + [r], a) <==> Covers(rs, a) || Has(r, a)
  {
    if Covers(rs, a) {
      var q :| q in rs && Has(q, a);
      assert q in rs + [r];
    }
    if Has(r, a) { assert r in rs + [r]; }
  }

  /** The next range joins the last one, starts a new one, or is empty. */
  function Absorb(out: seq<Range>, r: Range): seq<Range> {
    if r.end <= r.start then out
    else if out != [] && r.start <= out[|out| - 1].end then
      var cur := out[|out| - 1];
      if r.end > cur.end then out[..|out| - 1] + [cur.(end := r.end)] else out
    else out + [r]
  }

  lemma AbsorbOk(out: seq<Range>, seen: seq<Range>, r: Range)
    requires Merged(out, seen) && (out != [] ==> out[|out| - 1].start <= r.start)
    ensures Merged(Absorb(out, r), seen + [r])
    ensures Absorb(out, r) != [] ==> Absorb(out, r)[|Absorb(out, r)| - 1].start <= r.start
  {
    var more := Absorb(out, r);
    forall a: Word
      ensures Covers(more, a) <==> Covers(seen + [r], a)
    {
      CoversAppend(seen, r, a);
      if r.end > r.start {
        if more == out + [r] {
          CoversAppend(out, r, a);
        } else {
          var cur := out[|out| - 1];
          var head := out[..|out| - 1];
          assert out == head + [cur];
          CoversAppend(head, cur, a);
          CoversAppend(head, if r.end > cur.end then cur.(end := r.end) else cur, a);
        }
      }
    }
  }

  /** The ranges so far: the finished ones and the current one. */
  function All(out: seq<Range>, cur: Range, started: bool): seq<Range> { if started then out + [cur] else out }

  /** mergeRanges: separated ranges with exactly the addresses of the input ranges. */
  method MergeRanges(rs: seq<Range>) returns (out: seq<Range>)
    ensures Separated(out) && forall a: Word :: Covers(out, a) <==> Covers(rs, a)
  {
    hide Separated, Covers, ByStart;
    if rs == [] {
      NoRanges();
      return [];
    }
    var s := SortRanges(rs);
    MultisetEmpty(s, rs);
    out := [];
    var cur := s[0];
    var started := cur.end > cur.start;
    FirstOk(cur);
    assert out + [cur] == [cur];
    var i := 0;
    while i < |s|
      invariant 0 <= i <= |s| && (!started ==> out == [])
      invariant Merged(All(out, cur, started), if i == 0 then [s[0]] else s[..i])
      invariant started ==> i < |s| ==> cur.start <= s[i].start
    {
      var r := s[i];
      ghost var all := All(out, cur, started);
      assert s[..i + 1] == s[..i] + [r];
      AbsorbOk(all, if i == 0 then [s[0]] else s[..i], r);
      Twice(Absorb(all, r), s, i);
      NextStart(s, i);
      if r.end > r.start {
        if !started {
          cur, started := r, true;
        } else if r.start <= cur.end {
          if r.end > cur.end { cur := cur.(end := r.end); }
        } else {
          out := out + [cur];
          cur := r;
        }
      }
      assert All(out, cur, started) == Absorb(all, r);
      i := i + 1;
    }
    assert s[..i] == s;
    if started { out := out + [cur]; }
    SameRanges(s, rs);
  }

  lemma NoRanges()
    ensures Separated([]) && forall a: Word :: !Covers([], a)
  {
  }

  lemma MultisetEmpty(s: seq<Range>, rs: seq<Range>)
    requires multiset(s) == multiset(rs) && rs != []
    ensures s != []
  {
    assert rs[0] in multiset(s);
  }

  /** The first range is looked at once more by the loop. */
  lemma Twice(out: seq<Range>, s: seq<Range>, i: nat)
    requires i < |s|
    ensures i == 0 && Merged(out, [s[0]] + [s[0]]) ==> Merged(out, s[..1])
  {
    assert s[..1] == [s[0]];
    forall a: Word
      ensures Covers([s[0]] + [s[0]], a) <==> Covers([s[0]], a)
    {
      CoversAppend([s[0]], s[0], a);
    }
  }

  lemma NextStart(s: seq<Range>, i: nat)
    requires ByStart(s) && i < |s|
    ensures i + 1 < |s| ==> s[i].start <= s[i + 1].start
  {
  }

  lemma FirstOk(r: Range)
    ensures Merged(if r.end > r.start then [r] else [], [r])
  {
  }

  lemma SameRanges(s: seq<Range>, rs: seq<Range>)
    requires multiset(s) == multiset(rs)
    ensures forall a: Word :: Covers(s, a) <==> Covers(rs, a)
  {
    forall r: Range
      ensures r in s <==> r in rs
    {
      assert r in multiset(s) <==> r in multiset(rs);
    }
  }

  // ---- lookup -----------------------------------------------------------------------------------------

  /** Where the binary search between i and j ends. */
  function Probe(rs: seq<Range>, a: Word, i: nat, j: nat): nat
    requires i <= j <= |rs|
    decreases j - i
  {
    if i == j then i
    else var h := (i + j) / 2; if a >= rs[h].end then Probe(rs, a, h + 1, j) else Probe(rs, a, i, h)
  }

  predicate Found(rs: seq<Range>, a: Word) {
    var i := Probe(rs, a, 0, |rs|);
    i < |rs| && Has(rs[i], a)
  }

  /** rangeContains: the binary search of slices.BinarySearchFunc. */
  method RangeContains(rs: seq<Range>, a: Word) returns (found: bool)
    ensures found == Found(rs, a)
  {
    var i, j := 0, |rs|;
    while i < j
      invariant 0 <= i <= j <= |rs| && Probe(rs, a, i, j) == Probe(rs, a, 0, |rs|)
    {
      var h := (i + j) / 2;
      if a >= rs[h].end { i := h + 1; } else { j := h; }
    }
    found := i < |rs| && rs[i].start <= a < rs[i].end;
  }

  /** Starts go up, and no range that ends at or before a comes after one that ends past it. */
  predicate Parted(rs: seq<Range>, a: Word) {
    ByStart(rs) && forall i, j :: 0 <= i < j < |rs| && a >= rs[j].end ==> a >= rs[i].end
  }

  lemma {:induction false} ProbeSplits(rs: seq<Range>, a: Word, i: nat, j: nat)
    requires i <= j <= |rs| && Parted(rs, a)
    ensures var p := Probe(rs, a, i, j);
      && i <= p <= j && (forall k :: i <= k < p ==> a >= rs[k].end) && forall k :: p <= k < j ==> a < rs[k].end
    decreases j - i
  {
    if i < j {
      var h := (i + j) / 2;
      if a >= rs[h].end { ProbeSplits(rs, a, h + 1, j); } else { ProbeSplits(rs, a, i, h); }
    }
  }

  lemma FoundExact(rs: seq<Range>, a: Word)
    requires Parted(rs, a)
    ensures Found(rs, a) <==> Covers(rs, a)
  {
    ProbeSplits(rs, a, 0, |rs|);
    var i := Probe(rs, a, 0, |rs|);
    if Found(rs, a) { assert rs[i] in rs; }
    if Covers(rs, a) {
      var r :| r in rs && Has(r, a);
      var k :| 0 <= k < |rs| && rs[k] == r;
      assert k >= i;
      assert k > i ==> rs[i].start <= rs[k].start;
    }
  }

  /** A merged list answers exactly for the input ranges (InData and InUnwindScope). */
  method Lookup(rs: seq<Range>, a: Word) returns (found: bool)
    ensures found <==> Covers(rs, a)
  {
    var merged := MergeRanges(rs);
    FoundExact(merged, a);
    found := RangeContains(merged, a);
  }

  // ---- function extents -----------------------------------------------------------------------------

  /** What normalizeBounds makes of the ranges seen: in order, for every start of a nonempty range the longest
      one. */
  ghost predicate Normalized(out: seq<Range>, seen: seq<Range>) {
    && (forall i, j :: 0 <= i < j < |out| ==> out[i].start < out[j].start)
    && (forall r :: r in out ==> r in seen && r.start < r.end)
    && forall p :: p in seen && p.start < p.end ==> Represented(out, p)
  }

  predicate Represented(out: seq<Range>, p: Range) { exists r :: r in out && r.start == p.start && p.end <= r.end }

  lemma NormalizedCovers(out: seq<Range>, seen: seq<Range>, a: Word)
    requires Normalized(out, seen)
    ensures Covers(out, a) <==> Covers(seen, a)
  {
    if Covers(out, a) {
      var r :| r in out && Has(r, a);
      assert r in seen;
    }
    if Covers(seen, a) {
      var p :| p in seen && Has(p, a);
      assert Represented(out, p);
    }
  }

  /** The next range is empty, replaces the last one or is dropped beside it, or comes after it. */
  function Extend(out: seq<Range>, r: Range): seq<Range> {
    if r.end <= r.start then out
    else if out != [] && out[|out| - 1].start == r.start then
      var last := out[|out| - 1];
      if r.end > last.end then out[..|out| - 1] + [last.(end := r.end)] else out
    else out + [r]
  }

  lemma ExtendOk(out: seq<Range>, seen: seq<Range>, r: Range)
    requires Normalized(out, seen) && (out != [] ==> out[|out| - 1].start <= r.start)
    ensures Normalized(Extend(out, r), seen + [r])
    ensures Extend(out, r) != [] ==> Extend(out, r)[|Extend(out, r)| - 1].start <= r.start
  {
    hide Represented;
    forall p | p in seen + [r] && p.start < p.end
      ensures Represented(Extend(out, r), p)
    {
      ExtendKeeps(out, r, p);
      assert p in seen ==> Represented(out, p);
    }
  }

  lemma ExtendKeeps(out: seq<Range>, r: Range, p: Range)
    ensures Represented(out, p) ==> Represented(Extend(out, r), p)
    ensures r.start < r.end ==> Represented(Extend(out, r), r)
  {
    var more := Extend(out, r);
    if out != [] {
      var last := out[|out| - 1];
      assert out == out[..|out| - 1] + [last];
      assert more != [] && more[|more| - 1] in more;
    }
    if r.start < r.end { assert more[|more| - 1] in more; }
  }

  /** normalizeBounds; which of two ranges with one start comes first does not matter to the result. */
  method NormalizeBounds(rs: seq<Range>) returns (out: seq<Range>)
    ensures Normalized(out, rs)
  {
    hide Normalized, ByStart;
    var s := SortRanges(rs);
    out := [];
    NothingYet();
    for n := 0 to |s|
      invariant Normalized(out, s[..n])
      invariant n < |s| && out != [] ==> out[|out| - 1].start <= s[n].start
    {
      var r := s[n];
      ghost var was := out;
      ExtendOk(was, s[..n], r);
      NextStart(s, n);
      assert s[..n + 1] == s[..n] + [r];
      if r.end > r.start {
        if out != [] && out[|out| - 1].start == r.start {
          var last := out[|out| - 1];
          if r.end > last.end { out := out[..|out| - 1] + [last.(end := r.end)]; }
        } else {
          out := out + [r];
        }
      }
      assert out == Extend(was, r);
    }
    assert s[..|s|] == s;
    SameInput(out, s, rs);
  }

  lemma NothingYet()
    ensures Normalized([], [])
  {
  }

  lemma SameInput(out: seq<Range>, s: seq<Range>, rs: seq<Range>)
    requires Normalized(out, s) && multiset(s) == multiset(rs)
    ensures Normalized(out, rs)
  {
    forall r
      ensures r in s <==> r in rs
    {
      assert r in multiset(s) <==> r in multiset(rs);
    }
  }

  /** A range that starts later ends earlier. */
  predicate Nested(rs: seq<Range>) {
    exists p, q :: p in rs && q in rs && p.start < q.start < q.end < p.end
  }

  /** InFuncExtent on the bounds of attachUnwind: exact for every address when no extent is nested in
      another. */
  method InFuncExtent(rs: seq<Range>, a: Word) returns (found: bool)
    ensures exists bounds :: Normalized(bounds, rs) && found == Found(bounds, a)
    ensures found ==> Covers(rs, a)
    ensures !Nested(rs) ==> (found <==> Covers(rs, a))
  {
    var bounds := NormalizeBounds(rs);
    found := RangeContains(bounds, a);
    NormalizedCovers(bounds, rs, a);
    var i := Probe(bounds, a, 0, |bounds|);
    if found { assert bounds[i] in bounds; assert Covers(bounds, a); }
    if !Nested(rs) {
      forall i, j | 0 <= i < j < |bounds| && a >= bounds[j].end
        ensures a >= bounds[i].end
      {
        assert bounds[i] in rs && bounds[j] in rs;
      }
      FoundExact(bounds, a);
    }
  }

  /** Of two extents the search is right for every address exactly when the second ends no earlier:
      past the end of a nested one it never looks at the first. */
  lemma NestedMissed(p: Range, q: Range)
    requires p.start < q.start < q.end && p.start < p.end
    ensures (forall a: Word :: Found([p, q], a) <==> Covers([p, q], a)) <==> p.end <= q.end
  {
    var rs := [p, q];
    if p.end <= q.end {
      forall a: Word
        ensures Found(rs, a) <==> Covers(rs, a)
      {
        FoundExact(rs, a);
      }
    } else {
      var a: Word := p.end - 1;
      assert rs[0] in rs && Has(rs[0], a);
      assert Probe(rs, a, 0, 2) == Probe(rs, a, 2, 2) == 2;
      assert !Found([p, q], a) && Covers([p, q], a);
    }
  }
}
