/** What the repeated string instructions do as a whole: how far the pointers move, which bytes end
    where, and where a comparing one stops. */
module RepCopies {
  import opened Words
  import opened Guest
  import X86
  import opened Steps
  import opened Bytes
  import opened RepStrings

  /** n elements, one after the other, without a count. */
  function Times(op: StringOp, s: Size, x: X86.State, n: nat): X86.State {
    if n == 0 then x else Element(op, s, Times(op, s, x, n - 1))
  }

  // ---- how many elements --------------------------------------------------------------------------------

  /** The count register has no part in an element. */
  lemma ElementBeside(op: StringOp, s: Size, x: X86.State, c: Word)
    ensures Element(op, s, x.(regs := x.regs[RCX := c])) == Element(op, s, x).(regs := Element(op, s, x).regs[RCX := c])
  {
    hide Load, Store, X86.SubFlags, Trunc;
  }

  lemma {:induction false} TimesBeside(op: StringOp, s: Size, x: X86.State, n: nat, c: Word)
    ensures var y := Times(op, s, x, n); Times(op, s, x.(regs := x.regs[RCX := c]), n) == y.(regs := y.regs[RCX := c])
    decreases n
  {
    hide Element;
    if n > 0 {
      TimesBeside(op, s, x, n - 1, c);
      ElementBeside(op, s, Times(op, s, x, n - 1), c);
    }
  }

  /** One element first, or last. */
  lemma {:induction false} TimesFirst(op: StringOp, s: Size, x: X86.State, n: nat)
    ensures Times(op, s, Element(op, s, x), n) == Times(op, s, x, n + 1)
    decreases n
  {
    hide Element;
    if n > 0 { TimesFirst(op, s, x, n - 1); }
  }

  lemma {:induction false} TimesCount(op: StringOp, s: Size, x: X86.State, n: nat)
    ensures Times(op, s, x, n).regs[RCX] == x.regs[RCX]
    decreases n
  {
    hide Element;
    if n > 0 {
      TimesCount(op, s, x, n - 1);
      ElementKeeps(op, s, Times(op, s, x, n - 1));
    }
  }

  /** The repeated instruction does k elements: all of them, or as many as it takes to stop, no comparison
      before the last one having stopped it. */
  ghost predicate Does(op: StringOp, s: Size, rep: Rep, x: X86.State, k: nat) {
    var n, y := x.regs[RCX], Times(op, s, x, k);
    && k <= n && RepRun(op, s, rep, x) == y.(regs := y.regs[RCX := n - k])
    && (k < n ==> k > 0 && Stops(op, rep, y.f))
    && forall j :: 0 < j < k ==> !Stops(op, rep, Times(op, s, x, j).f)
  }

  /** Every repeated instruction does so many elements and no more. */
  lemma {:induction false} RepDoes(op: StringOp, s: Size, rep: Rep, x: X86.State) returns (k: nat)
    ensures Does(op, s, rep, x, k)
    decreases x.regs[RCX]
  {
    hide Element, Stops;
    var n := x.regs[RCX];
    if n == 0 {
      k := 0;
      assert x.regs[RCX := 0] == x.regs;
    } else {
      ElementKeeps(op, s, x);
      var e := Element(op, s, x);
      var y := CountDown(e);
      assert Times(op, s, x, 0) == x && Times(op, s, x, 1) == e;
      if Stops(op, rep, y.f) {
        k := 1;
      } else {
        var m := RepDoes(op, s, rep, y);
        k := m + 1;
        Shifted(op, s, rep, x, e, y, m);
      }
    }
  }

  lemma Shifted(op: StringOp, s: Size, rep: Rep, x: X86.State, e: X86.State, y: X86.State, m: nat)
    requires x.regs[RCX] > 0 && e == Element(op, s, x) && e.regs[RCX] == x.regs[RCX] && y == CountDown(e)
    requires Does(op, s, rep, y, m) && !Stops(op, rep, y.f)
    ensures Does(op, s, rep, x, m + 1)
  {
    hide Element, Stops, Times;
    var n := x.regs[RCX];
    forall j: nat
      ensures Times(op, s, y, j) == Times(op, s, x, j + 1).(regs := Times(op, s, x, j + 1).regs[RCX := n - 1])
    {
      TimesBeside(op, s, e, j, n - 1);
      TimesFirst(op, s, x, j);
    }
    assert Times(op, s, y, 0) == y by { NoTimes(op, s, y); }
    forall j | 0 < j < m + 1
      ensures !Stops(op, rep, Times(op, s, x, j).f)
    {
      assert Times(op, s, y, j - 1).f == Times(op, s, x, j).f;
    }
    var z := Times(op, s, x, m + 1);
    assert z.regs[RCX := n - 1][RCX := n - 1 - m] == z.regs[RCX := n - (m + 1)];
  }

  lemma NoTimes(op: StringOp, s: Size, x: X86.State)
    ensures Times(op, s, x, 0) == x
  {
  }

  /** Without a stop all elements are done. */
  lemma RepAll(op: StringOp, s: Size, x: X86.State)
    ensures var y := Times(op, s, x, x.regs[RCX]); RepRun(op, s, Always, x) == y.(regs := y.regs[RCX := 0])
  {
    var k := RepDoes(op, s, Always, x);
  }

  // ---- the pointers -----------------------------------------------------------------------------------------

  /** Which pointers an element moves. */
  predicate FromSource(op: StringOp) { op == Movs || op == Cmps }

  predicate Moving(op: StringOp, g: Gpr) { g == RDI || (g == RSI && FromSource(op)) }

  /** n elements move the pointers by n times the operand's bytes and leave all other registers. */
  lemma {:induction false} PointersMove(op: StringOp, s: Size, x: X86.State, n: nat, g: Gpr)
    ensures Times(op, s, x, n).regs[g]
      == if Moving(op, g) then Trunc(x.regs[g] + n * (Bits(s) / 8), S64) else x.regs[g]
    decreases n
  {
    hide Trunc, Load, Store, X86.SubFlags;
    TruncSmall(x.regs[g], S64);
    if n == 0 {
      assert n * (Bits(s) / 8) == 0;
    } else {
      PointersMove(op, s, x, n - 1, g);
      OneMore(n, Bits(s) / 8);
      TruncAdd(x.regs[g] + (n - 1) * (Bits(s) / 8), Bits(s) / 8, S64);
    }
  }

  lemma OneMore(n: nat, w: nat)
    requires n > 0
    ensures n * w == (n - 1) * w + w
  {
  }

  /** REP LODS moves its pointer past all elements. */
  lemma LodsPointer(s: Size, x: X86.State)
    ensures LodsRun(s, x).regs[RSI] == Trunc(x.regs[RSI] + x.regs[RCX] * (Bits(s) / 8), S64)
  {
    hide Trunc, Load, Merge, LodsRun;
    LodsClosed(s, x);
    var n := x.regs[RCX];
    TruncSmall(x.regs[RSI], S64);
    if n > 0 {
      OneMore(n, Bits(s) / 8);
      TruncAdd(x.regs[RSI] + (n - 1) * (Bits(s) / 8), Bits(s) / 8, S64);
    }
  }

  // ---- the bytes ----------------------------------------------------------------------------------------------

  /** The first n bytes from a and from b have no address in common. */
  ghost predicate Separate(a: Word, b: Word, n: nat) {
    forall i: nat, j: nat :: i < n && j < n ==> ByteAt(a, i) != ByteAt(b, j)
  }

  /** c is none of the first n bytes from a. */
  ghost predicate Outside(a: Word, n: nat, c: Word) { forall i: nat :: i < n ==> ByteAt(a, i) != c }

  /** Each of the n bytes from a on is what the byte from b on was, and no other byte has changed. */
  ghost predicate CopiedTo(was: Memory, m: Memory, a: Word, b: Word, n: nat) {
    (forall i: nat :: i < n ==> m[ByteAt(a, i)] == was[ByteAt(b, i)]) && KeptOutside(was, m, a, n)
  }

  ghost predicate KeptOutside(was: Memory, m: Memory, a: Word, n: nat) {
    forall c: Word :: Outside(a, n, c) ==> m[c] == was[c]
  }

  /** After n elements of MOVS. */
  ghost predicate Copied(s: Size, x: X86.State, n: nat) {
    CopiedTo(x.mem, Times(Movs, s, x, n).mem, x.regs[RDI], x.regs[RSI], n * (Bits(s) / 8))
  }

  /** Separate buffers are no longer than memory. */
  lemma SeparateFits(a: Word, b: Word, n: nat)
    requires Separate(a, b, n)
    ensures n <= 0x1_0000_0000_0000_0000
  {
    if n > 0x1_0000_0000_0000_0000 {
      var j := Meets(a, b);
      assert false;
    }
  }

  lemma Meets(a: Word, b: Word) returns (j: nat)
    ensures j < 0x1_0000_0000_0000_0000 && ByteAt(a, 0) == ByteAt(b, j)
  {
    j := if b <= a then a - b else a - b + 0x1_0000_0000_0000_0000;
  }

  lemma {:induction false} CopyBytes(s: Size, x: X86.State, n: nat)
    requires Separate(x.regs[RSI], x.regs[RDI], n * (Bits(s) / 8))
    ensures Copied(s, x, n)
    decreases n
  {
    hide Trunc, ByteAt, Load, Store, Element, Times;
    if n == 0 {
      NoTimes(Movs, s, x);
      assert n * (Bits(s) / 8) == 0;
    } else {
      OneMore(n, Bits(s) / 8);
      SeparateFits(x.regs[RSI], x.regs[RDI], n * (Bits(s) / 8));
      CopyBytes(s, x, n - 1);
      CopyStep(s, x, n, (n - 1) * (Bits(s) / 8));
    }
  }

  /** The memory after the n-th element, k bytes on. */
  lemma NextMove(s: Size, x: X86.State, n: nat, k: nat)
    requires n > 0 && k == (n - 1) * (Bits(s) / 8)
    ensures var m := Times(Movs, s, x, n - 1).mem;
      Times(Movs, s, x, n).mem == Store(m, ByteAt(x.regs[RDI], k), Load(m, ByteAt(x.regs[RSI], k), s), s)
  {
    hide Trunc, Load, Store;
    PointersMove(Movs, s, x, n - 1, RSI);
    PointersMove(Movs, s, x, n - 1, RDI);
  }

  lemma CopyStep(s: Size, x: X86.State, n: nat, k: nat)
    requires n > 0 && k == (n - 1) * (Bits(s) / 8) && n * (Bits(s) / 8) == k + Bits(s) / 8 <= 0x1_0000_0000_0000_0000
    requires Separate(x.regs[RSI], x.regs[RDI], n * (Bits(s) / 8)) && Copied(s, x, n - 1)
    ensures Copied(s, x, n)
  {
    hide Trunc, ByteAt, Load, Store, Element, Times, ByteOf;
    var a, b, w := x.regs[RDI], x.regs[RSI], Bits(s) / 8;
    var m, m' := Times(Movs, s, x, n - 1).mem, Times(Movs, s, x, n).mem;
    var v := Load(m, ByteAt(b, k), s);
    NextMove(s, x, n, k);
    forall i: nat | i < k + w
      ensures m'[ByteAt(a, i)] == x.mem[ByteAt(b, i)]
    {
      if i < k {
        assert m[ByteAt(a, i)] == x.mem[ByteAt(b, i)];
        StoreBefore(m, a, v, s, k, i);
      } else {
        StoreEffect(m, ByteAt(a, k), v, s, 0);
        LoadByte(m, ByteAt(b, k), s, i - k);
        ByteSum(a, k, i - k);
        ByteSum(b, k, i - k);
        assert Outside(a, k, ByteAt(b, i));
      }
    }
    forall c: Word | Outside(a, k + w, c)
      ensures m'[c] == x.mem[c]
    {
      forall i: nat | i < w
        ensures ByteAt(ByteAt(a, k), i) != c
      {
        ByteSum(a, k, i);
      }
      StoreEffect(m, ByteAt(a, k), v, s, c);
    }
  }

  /** A store k bytes on keeps the bytes before. */
  lemma StoreBefore(m: Memory, a: Word, v: Word, s: Size, k: nat, i: nat)
    requires i < k && k + Bits(s) / 8 <= 0x1_0000_0000_0000_0000
    ensures Store(m, ByteAt(a, k), v, s)[ByteAt(a, i)] == m[ByteAt(a, i)]
  {
    hide Trunc, ByteAt, Store, ByteOf;
    forall j: nat | j < Bits(s) / 8
      ensures ByteAt(ByteAt(a, k), j) != ByteAt(a, i)
    {
      ByteSum(a, k, j);
      ByteApart(a, i, k + j);
    }
    StoreEffect(m, ByteAt(a, k), v, s, ByteAt(a, i));
  }

  /** Each of the n bytes from a on is the byte of v at its place in an element of w bytes, and no other byte
      has changed. */
  ghost predicate FilledWith(was: Memory, m: Memory, a: Word, v: Word, w: nat, n: nat)
    requires w > 0
  {
    (forall i: nat :: i < n ==> m[ByteAt(a, i)] == ByteOf(v, i % w)) && KeptOutside(was, m, a, n)
  }

  /** After n elements of STOS. */
  ghost predicate Filled(s: Size, x: X86.State, n: nat) {
    FilledWith(x.mem, Times(Stos, s, x, n).mem, x.regs[RDI], x.regs[RAX], Bits(s) / 8, n * (Bits(s) / 8))
  }

  lemma {:induction false} FillBytes(s: Size, x: X86.State, n: nat)
    ensures Filled(s, x, n)
    decreases n
  {
    hide Trunc, ByteAt, Load, Store, Element, Times, ByteOf;
    if n == 0 {
      NoTimes(Stos, s, x);
      assert n * (Bits(s) / 8) == 0;
    } else {
      OneMore(n, Bits(s) / 8);
      FillBytes(s, x, n - 1);
      FillStep(s, x, n, (n - 1) * (Bits(s) / 8));
    }
  }

  lemma NextFill(s: Size, x: X86.State, n: nat, k: nat)
    requires n > 0 && k == (n - 1) * (Bits(s) / 8)
    ensures Times(Stos, s, x, n).mem == Store(Times(Stos, s, x, n - 1).mem, ByteAt(x.regs[RDI], k), x.regs[RAX], s)
  {
    hide Trunc, Load, Store;
    PointersMove(Stos, s, x, n - 1, RDI);
    PointersMove(Stos, s, x, n - 1, RAX);
  }

  lemma FillStep(s: Size, x: X86.State, n: nat, k: nat)
    requires n > 0 && k == (n - 1) * (Bits(s) / 8) && n * (Bits(s) / 8) == k + Bits(s) / 8 && Filled(s, x, n - 1)
    ensures Filled(s, x, n)
  {
    hide Trunc, ByteAt, Load, Store, Element, Times, ByteOf;
    var a, v, w := x.regs[RDI], x.regs[RAX], Bits(s) / 8;
    var m, m' := Times(Stos, s, x, n - 1).mem, Times(Stos, s, x, n).mem;
    NextFill(s, x, n, k);
    forall i: nat | i < k + w
      ensures m'[ByteAt(a, i)] == ByteOf(v, i % w)
    {
      FilledByte(s, m, m', a, v, k, n - 1, i);
    }
    forall c: Word | Outside(a, k + w, c)
      ensures m'[c] == x.mem[c]
    {
      forall i: nat | i < w
        ensures ByteAt(ByteAt(a, k), i) != c
      {
        ByteSum(a, k, i);
      }
      StoreEffect(m, ByteAt(a, k), v, s, c);
    }
  }

  /** A byte after the store of the next element: an older one may be overwritten around the end of memory,
      by the same value. */
  lemma FilledByte(s: Size, m: Memory, m': Memory, a: Word, v: Word, k: nat, e: nat, i: nat)
    requires k == e * (Bits(s) / 8) && i < k + Bits(s) / 8 && m' == Store(m, ByteAt(a, k), v, s)
    requires i < k ==> m[ByteAt(a, i)] == ByteOf(v, i % (Bits(s) / 8))
    ensures m'[ByteAt(a, i)] == ByteOf(v, i % (Bits(s) / 8))
  {
    hide Trunc, ByteAt, Store, ByteOf;
    var w := Bits(s) / 8;
    StoreEffect(m, ByteAt(a, k), v, s, ByteAt(a, i));
    if i >= k {
      ByteSum(a, k, i - k);
      PlaceOf(s, e, i - k);
    } else if j: nat :| j < w && ByteAt(ByteAt(a, k), j) == ByteAt(a, i) {
      ByteSum(a, k, j);
      SamePlace(a, s, k + j, i);
      PlaceOf(s, e, j);
    }
  }

  lemma PlaceOf(s: Size, e: nat, j: nat)
    requires j < Bits(s) / 8
    ensures (e * (Bits(s) / 8) + j) % (Bits(s) / 8) == j
  {
    match s
    case S8 =>
    case S16 => RestOfTwo(j, e);
    case S32 => RestOfFour(j, e);
    case S64 => RestOfEight(j, e);
  }

  /** Bytes with one address are at the same place of their elements. */
  lemma SamePlace(a: Word, s: Size, i: nat, j: nat)
    requires ByteAt(a, i) == ByteAt(a, j)
    ensures i % (Bits(s) / 8) == j % (Bits(s) / 8)
  {
    var q := (a + i) / 0x1_0000_0000_0000_0000 - (a + j) / 0x1_0000_0000_0000_0000;
    assert i - j == 0x1_0000_0000_0000_0000 * q;
    SameRest(i, j, q);
  }

  lemma SameRest(i: nat, j: nat, q: int)
    requires i == j + 0x1_0000_0000_0000_0000 * q
    ensures i % 8 == j % 8 && i % 4 == j % 4 && i % 2 == j % 2
  {
    var c := 0x2000_0000_0000_0000 * q;
    RestOfEight(j, c);
    RestOfFour(j, 2 * c);
    RestOfTwo(j, 4 * c);
  }

  lemma RestOfEight(j: nat, c: int)
    ensures (j + 8 * c) % 8 == j % 8
  {
    assert j + 8 * c == 8 * (j / 8 + c) + j % 8;
  }

  lemma RestOfFour(j: nat, c: int)
    ensures (j + 4 * c) % 4 == j % 4
  {
    assert j + 4 * c == 4 * (j / 4 + c) + j % 4;
  }

  lemma RestOfTwo(j: nat, c: int)
    ensures (j + 2 * c) % 2 == j % 2
  {
    assert j + 2 * c == 2 * (j / 2 + c) + j % 2;
  }

  /** REP MOVS between separate buffers, as a whole. */
  lemma RepCopies(s: Size, x: X86.State)
    requires Separate(x.regs[RSI], x.regs[RDI], x.regs[RCX] * (Bits(s) / 8))
    ensures var n, w := x.regs[RCX], Bits(s) / 8; var y := RepRun(Movs, s, Always, x);
      && y.regs[RCX] == 0 && y.regs[RSI] == Trunc(x.regs[RSI] + n * w, S64)
         && y.regs[RDI] == Trunc(x.regs[RDI] + n * w, S64)
      && CopiedTo(x.mem, y.mem, x.regs[RDI], x.regs[RSI], n * w)
  {
    hide RepRun, Times, ByteAt, Trunc;
    RepAll(Movs, s, x);
    PointersMove(Movs, s, x, x.regs[RCX], RSI);
    PointersMove(Movs, s, x, x.regs[RCX], RDI);
    CopyBytes(s, x, x.regs[RCX]);
  }

  /** REP STOS, as a whole. */
  lemma RepFills(s: Size, x: X86.State)
    ensures var n, w := x.regs[RCX], Bits(s) / 8; var y := RepRun(Stos, s, Always, x);
      && y.regs[RCX] == 0 && y.regs[RDI] == Trunc(x.regs[RDI] + n * w, S64)
      && FilledWith(x.mem, y.mem, x.regs[RDI], x.regs[RAX], w, n * w)
  {
    hide RepRun, Times, ByteAt, Trunc, ByteOf;
    RepAll(Stos, s, x);
    PointersMove(Stos, s, x, x.regs[RCX], RDI);
    FillBytes(s, x, x.regs[RCX]);
  }
}
