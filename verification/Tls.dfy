/** Static thread-local storage (tls.go): every module's block lies below the thread pointer, and a
    TPOFF slot is the distance of a variable in its own module's block from it. */
module Tls {
  import opened Words
  import opened Steps
  import Remainder

  datatype Module = Module(memsz: Word, align: Word, offset: Word)

  function AlignOf(m: Module): nat { if m.align == 0 then 1 else m.align }

  /** n rounded up to a multiple of k. */
  function RoundUp(n: nat, k: nat): (r: nat)
    requires k > 0
    ensures r >= n && r < n + k && r % k == 0
  {
    var x := n + k - 1;
    MultipleMod(x / k, k);
    assert x == x / k * k + x % k;
    x / k * k
  }

  lemma MultipleMod(q: nat, k: nat)
    requires k > 0
    ensures (q * k) % k == 0 && q * k >= 0
    decreases q
  {
    if q > 0 {
      MultipleMod(q - 1, k);
      assert q * k == (q - 1) * k + k;
      AddMod((q - 1) * k, k);
    }
  }

  lemma AddMod(x: nat, k: nat)
    requires k > 0
    ensures (x + k) % k == x % k
  {
    var q, r := x / k, x % k;
    assert x + k == (q + 1) * k + r;
    Unique(x + k, k, q + 1, r);
  }

  lemma Unique(x: nat, k: nat, q: nat, r: nat)
    requires r < k && x == q * k + r
    ensures x % k == r && x / k == q
  {
    var p, t := x / k, x % k;
    assert x == p * k + t;
    if p > q { Gap(p, q, k); } else if q > p { Gap(q, p, k); }
  }

  lemma Gap(p: nat, q: nat, k: nat)
    requires p > q
    ensures p * k >= q * k + k
  {
    Remainder.Distribute(p, q, k);
    Remainder.AtLeast(p - q, k);
  }

  /** The offset after prev as 64-bit arithmetic computes it. */
  function NextOffset(prev: Word, m: Module): Word {
    var x := Trunc(prev + m.memsz + AlignOf(m) - 1, S64);
    QuotientBound(x, AlignOf(m));
    x / AlignOf(m) * AlignOf(m)
  }

  lemma QuotientBound(x: nat, k: nat)
    requires k > 0
    ensures 0 <= x / k * k <= x
  {
    assert x == x / k * k + x % k;
    MultipleMod(x / k, k);
  }

  function LaidOutFrom(ms: seq<Module>, prev: Word): seq<Module> {
    if ms == [] then []
    else
      var o := NextOffset(prev, ms[0]);
      [ms[0].(offset := o)] + LaidOutFrom(ms[1..], o)
  }

  /** LayoutStaticTLS */
  method LayoutStaticTLS(mods: array<Module>)
    modifies mods
    ensures mods[..] == LaidOutFrom(old(mods[..]), 0)
  {
    hide LaidOutFrom, NextOffset;
    var offset: Word := 0;
    ghost var was := mods[..];
    var i := 0;
    while i < mods.Length
      invariant 0 <= i <= mods.Length && mods[i..] == was[i..]
      invariant mods[..i] + LaidOutFrom(was[i..], offset) == LaidOutFrom(was, 0)
    {
      var m := mods[i];
      LaidOutStep(was[i..], offset);
      offset := NextOffset(offset, m);
      assert was[i..][1..] == was[i + 1..] && was[i..][0] == m;
      mods[i] := m.(offset := offset);
      assert mods[..i + 1] == mods[..i] + [m.(offset := offset)];
      i := i + 1;
    }
    assert was[i..] == [] && mods[..i] == mods[..];
    NothingLaidOut(offset);
  }

  lemma LaidOutStep(ms: seq<Module>, prev: Word)
    requires ms != []
    ensures var o := NextOffset(prev, ms[0]); LaidOutFrom(ms, prev) == [ms[0].(offset := o)] + LaidOutFrom(ms[1..], o)
  {
    hide NextOffset;
  }

  lemma NothingLaidOut(prev: Word)
    ensures LaidOutFrom([], prev) == []
  {
  }

  /** Each block ends at or before the start of the one above it: its offset is at least the
      previous offset and its own size. */
  predicate Stacked(ms: seq<Module>, prev: Word) {
    ms == [] || (ms[0].offset >= prev + ms[0].memsz && Stacked(ms[1..], ms[0].offset))
  }

  /** No step exceeds 64 bits. */
  predicate Fits(ms: seq<Module>, prev: Word) {
    ms == [] || (prev + ms[0].memsz + AlignOf(ms[0]) - 1 < 0x1_0000_0000_0000_0000
      && Fits(ms[1..], NextOffset(prev, ms[0])))
  }

  lemma StepOk(prev: Word, m: Module)
    ensures var x := prev + m.memsz + AlignOf(m) - 1; var o := NextOffset(prev, m);
      && o % AlignOf(m) == 0
      && (x < 0x1_0000_0000_0000_0000 ==> o == RoundUp(prev + m.memsz, AlignOf(m)))
      && (x >= 0x1_0000_0000_0000_0000 ==> o < prev + m.memsz)
  {
    hide Trunc;
    var k := AlignOf(m);
    var x := prev + m.memsz + k - 1;
    var y := Trunc(x, S64);
    QuotientBound(y, k);
    MultipleMod(y / k, k);
    if x < 0x1_0000_0000_0000_0000 { TruncSmall(x, S64); } else { Wrapped(x); }
  }

  lemma Wrapped(x: nat)
    requires x >= 0x1_0000_0000_0000_0000
    ensures Trunc(x, S64) <= x - 0x1_0000_0000_0000_0000
  {
  }

  /** The blocks are stacked below the thread pointer exactly when no step wraps around. */
  lemma {:induction false} StackedExactly(ms: seq<Module>, prev: Word)
    ensures Stacked(LaidOutFrom(ms, prev), prev) <==> Fits(ms, prev)
  {
    if ms != [] {
      StepOk(prev, ms[0]);
      StackedExactly(ms[1..], NextOffset(prev, ms[0]));
      assert LaidOutFrom(ms, prev)[1..] == LaidOutFrom(ms[1..], NextOffset(prev, ms[0]));
    }
  }

  lemma {:induction false} LaidOutAt(ms: seq<Module>, prev: Word, i: nat)
    requires i < |ms|
    ensures var out := LaidOutFrom(ms, prev);
      && |out| == |ms| && out[i].memsz == ms[i].memsz && out[i].align == ms[i].align
         && out[i].offset % AlignOf(out[i]) == 0
  {
    StepOk(prev, ms[0]);
    if i > 0 { LaidOutAt(ms[1..], NextOffset(prev, ms[0]), i - 1); }
    else { LengthKept(ms[1..], NextOffset(prev, ms[0])); }
  }

  /** Offsets are least: each is the smallest multiple of its alignment from which the block, ending where the
      one before starts, lies below the thread pointer. */
  lemma {:induction false} LeastOffset(ms: seq<Module>, prev: Word, i: nat, o: nat)
    requires i < |ms| && Fits(ms, prev)
    ensures |LaidOutFrom(ms, prev)| == |ms|
    ensures var out := LaidOutFrom(ms, prev); var least := (if i == 0 then prev else out[i - 1].offset) + ms[i].memsz;
      out[i].offset >= least && (o % AlignOf(ms[i]) == 0 && o >= least ==> o >= out[i].offset)
  {
    var next := NextOffset(prev, ms[0]);
    LengthKept(ms, prev);
    StepOk(prev, ms[0]);
    if i == 0 {
      if o < next { MultiplesApart(o, next, AlignOf(ms[0])); }
    } else {
      LeastOffset(ms[1..], next, i - 1, o);
    }
  }

  lemma MultiplesApart(a: nat, b: nat, k: nat)
    requires k > 0 && a < b && b % k == 0
    ensures a % k == 0 ==> a + k <= b
  {
    if a % k == 0 {
      var p, q := a / k, b / k;
      assert a == p * k && b == q * k;
      if p >= q { Remainder.Distribute(p, q, k); Remainder.NatProduct(p - q, k); }
      Gap(q, p, k);
    }
  }

  lemma {:induction false} LengthKept(ms: seq<Module>, prev: Word)
    ensures |LaidOutFrom(ms, prev)| == |ms|
  {
    if ms != [] { LengthKept(ms[1..], NextOffset(prev, ms[0])); }
  }

  lemma {:induction false} Above(ms: seq<Module>, prev: Word, i: nat)
    requires i < |ms| && Stacked(ms, prev)
    ensures ms[i].offset >= prev + ms[i].memsz
  {
    if i > 0 { Above(ms[1..], ms[0].offset, i - 1); }
  }

  /** Address v of the block of m under thread pointer fs. */
  predicate InBlock(fs: Word, m: Module, v: int) { fs - m.offset <= v < fs - m.offset + m.memsz }

  /** Stacked blocks do not overlap and end at or below the thread pointer. */
  lemma {:induction false} BlocksDisjoint(ms: seq<Module>, prev: Word, fs: Word, i: nat, j: nat, v: int)
    requires Stacked(ms, prev) && i < j < |ms|
    ensures InBlock(fs, ms[i], v) ==> v < fs && !InBlock(fs, ms[j], v)
  {
    Above(ms, prev, i);
    if i == 0 { Above(ms[1..], ms[0].offset, j - 1); }
    else { BlocksDisjoint(ms[1..], ms[0].offset, fs, i - 1, j - 1, v); }
  }

  /** The value ApplyTLSOffsets writes for S + A = value in module m. */
  function SlotValue(m: Module, value: Word): Word { Trunc(value - m.offset, S64) }

  /** Added to the thread pointer, a slot for an offset inside its template gives an address in its
      own block. */
  lemma SlotInBlock(fs: Word, ms: seq<Module>, i: nat, value: Word)
    requires Stacked(ms, 0) && i < |ms| && value < ms[i].memsz && ms[i].offset <= fs
    ensures var v := Trunc(fs + SlotValue(ms[i], value), S64);
      InBlock(fs, ms[i], v) && v == fs - ms[i].offset + value
  {
    hide Trunc;
    Above(ms, 0, i);
    TruncAdd(fs, value - ms[i].offset, S64);
    TruncSmall(fs + (value - ms[i].offset), S64);
  }
}
