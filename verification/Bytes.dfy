/** Memory byte by byte: what a store leaves and what a load reads. */
module Bytes {
  import opened Words
  import opened Guest
  import opened Steps

  /** The i-th byte of a location; addresses wrap at 2^64. */
  function ByteAt(a: Word, i: nat): Word { Trunc(a + i, S64) }

  /** The i-th byte of a number, lowest first. */
  function ByteOf(v: nat, i: nat): Byte { if i == 0 then v % 0x100 else ByteOf(v / 0x100, i - 1) }

  lemma ByteNext(a: Word, i: nat)
    ensures ByteAt(a, 0) == a && ByteAt(Trunc(a + 1, S64), i) == ByteAt(a, i + 1)
  {
    hide Trunc;
    TruncSmall(a, S64);
    TruncAdd(a + 1, i, S64);
  }

  lemma ByteSum(a: Word, i: nat, j: nat)
    ensures ByteAt(ByteAt(a, i), j) == ByteAt(a, i + j)
  {
    hide Trunc;
    TruncAdd(a + i, j, S64);
  }

  /** The bytes of up to 2^64 are at different addresses. */
  lemma ByteApart(a: Word, i: nat, j: nat)
    requires i < j < i + 0x1_0000_0000_0000_0000
    ensures ByteAt(a, i) != ByteAt(a, j)
  {
    var x := ByteAt(a, i);
    ByteSum(a, i, j - i);
    ByteShift(x, j - i);
  }

  lemma ByteShift(x: Word, k: nat)
    requires 0 < k < 0x1_0000_0000_0000_0000
    ensures ByteAt(x, k) != x
  {
  }

  lemma {:induction false} ByteKept(mem: Memory, b: Word, v: Word, n: nat, c: Word)
    requires forall j: nat :: j < n ==> ByteAt(b, j) != c
    ensures StoreBytes(mem, b, v, n)[c] == mem[c]
    decreases n
  {
    hide Trunc, ByteAt;
    if n > 0 {
      ByteNext(b, 0);
      assert ByteAt(b, 0) != c;
      var b' := Trunc(b + 1, S64);
      forall j: nat | j < n - 1
        ensures ByteAt(b', j) != c
      {
        ByteNext(b, j);
      }
      ByteKept(SetByte(mem, b, v % 0x100), b', v / 0x100, n - 1, c);
    }
  }

  lemma {:induction false} LoadKept(mem: Memory, mem': Memory, a: Word, n: nat)
    requires forall i: nat :: i < n ==> mem'[ByteAt(a, i)] == mem[ByteAt(a, i)]
    ensures LoadBytes(mem', a, n) == LoadBytes(mem, a, n)
    decreases n
  {
    hide Trunc, ByteAt;
    if n > 0 {
      ByteNext(a, 0);
      assert mem'[ByteAt(a, 0)] == mem[ByteAt(a, 0)];
      var a' := Trunc(a + 1, S64);
      forall i: nat | i < n - 1
        ensures mem'[ByteAt(a', i)] == mem[ByteAt(a', i)]
      {
        ByteNext(a, i);
      }
      LoadKept(mem, mem', a', n - 1);
    }
  }

  lemma FirstKept(mem: Memory, a: Word, v: Word, n: nat)
    requires 0 < n <= 8
    ensures StoreBytes(mem, a, v, n)[a] == v % 0x100
  {
    hide Trunc, ByteAt;
    var a' := Trunc(a + 1, S64);
    forall j: nat | j < n - 1
      ensures ByteAt(a', j) != a
    {
      ByteNext(a, j);
      ByteApart(a, 0, j + 1);
    }
    ByteKept(SetByte(mem, a, v % 0x100), a', v / 0x100, n - 1, a);
  }

  /** Each byte of what is stored is at its address. */
  lemma {:induction false} StoredByte(mem: Memory, a: Word, v: Word, n: nat, i: nat)
    requires i < n <= 8
    ensures StoreBytes(mem, a, v, n)[ByteAt(a, i)] == ByteOf(v, i)
    decreases n
  {
    hide Trunc, ByteAt;
    ByteNext(a, 0);
    if i == 0 {
      FirstKept(mem, a, v, n);
    } else {
      ByteNext(a, i - 1);
      StoredByte(SetByte(mem, a, v % 0x100), Trunc(a + 1, S64), v / 0x100, n - 1, i - 1);
    }
  }

  /** Each byte of what is loaded is the byte at its address. */
  lemma {:induction false} LoadedByte(mem: Memory, a: Word, n: nat, i: nat)
    requires i < n
    ensures ByteOf(LoadBytes(mem, a, n), i) == mem[ByteAt(a, i)]
    decreases n
  {
    hide Trunc, ByteAt;
    ByteNext(a, 0);
    var a' := Trunc(a + 1, S64);
    var rest := LoadBytes(mem, a', n - 1);
    assert LoadBytes(mem, a, n) == mem[a] + 0x100 * rest;
    if i > 0 {
      ByteNext(a, i - 1);
      LoadedByte(mem, a', n - 1, i - 1);
    }
  }

  lemma {:induction false} BytesBack(mem: Memory, a: Word, v: Word, n: nat)
    requires v < Pow2(8 * n) && n <= 8
    ensures LoadBytes(StoreBytes(mem, a, v, n), a, n) == v
    decreases n
  {
    hide Trunc;
    if n > 0 {
      FirstKept(mem, a, v, n);
      Pow2Split(8 * (n - 1), 8);
      Const8(Pow2(8 * (n - 1)));
      assert 8 * n == 8 * (n - 1) + 8;
      BytesBack(SetByte(mem, a, v % 0x100), Trunc(a + 1, S64), v / 0x100, n - 1);
    }
  }

  /** A load gives what was stored at its location. */
  lemma LoadStored(mem: Memory, a: Word, v: Word, s: Size)
    ensures Load(Store(mem, a, v, s), a, s) == Trunc(v, s)
  {
    hide Trunc, LoadBytes, StoreBytes;
    TruncBound(v, s);
    CapPow2(s);
    BytesBack(mem, a, Trunc(v, s), Bits(s) / 8);
  }

  /** A store puts each byte of the value at its address and changes no other. */
  lemma StoreEffect(mem: Memory, a: Word, v: Word, s: Size, c: Word)
    ensures forall i: nat :: i < Bits(s) / 8 ==> Store(mem, a, v, s)[ByteAt(a, i)] == ByteOf(v, i)
    ensures (forall i: nat :: i < Bits(s) / 8 ==> ByteAt(a, i) != c) ==> Store(mem, a, v, s)[c] == mem[c]
  {
    hide Trunc, StoreBytes, ByteAt, ByteOf;
    forall i: nat | i < Bits(s) / 8
      ensures Store(mem, a, v, s)[ByteAt(a, i)] == ByteOf(v, i)
    {
      StoredByte(mem, a, Trunc(v, s), Bits(s) / 8, i);
      ByteTrunc(v, s, i);
    }
    if forall i: nat :: i < Bits(s) / 8 ==> ByteAt(a, i) != c {
      ByteKept(mem, a, Trunc(v, s), Bits(s) / 8, c);
    }
  }

  /** Truncation keeps the low bytes. */
  lemma ByteTrunc(v: Word, s: Size, i: nat)
    requires i < Bits(s) / 8
    ensures ByteOf(Trunc(v, s), i) == ByteOf(v, i)
  {
    hide ByteOf, Low, Lsr, Trunc;
    var k: nat := Bits(s) - 8 * i - 8;
    TruncLow(v, s);
    ByteField(v, i);
    ByteField(Trunc(v, s), i);
    LowLow(v, 8 * i, 8 + k);
    LowLow(Lsr(v, 8 * i), 8, k);
  }

  lemma {:induction false} ByteField(v: nat, i: nat)
    ensures ByteOf(v, i) == Low(Lsr(v, 8 * i), 8)
    decreases i
  {
    hide Low, Lsr;
    if i == 0 {
      Zero(v);
      TruncLow(v, S8);
    } else {
      ByteField(v / 0x100, i - 1);
      LsrConsts(v);
      LsrLsr(v, 8, 8 * (i - 1));
      assert 8 + 8 * (i - 1) == 8 * i;
    }
  }

  lemma LoadByte(mem: Memory, a: Word, s: Size, i: nat)
    requires i < Bits(s) / 8
    ensures ByteOf(Load(mem, a, s), i) == mem[ByteAt(a, i)]
  {
    LoadedByte(mem, a, Bits(s) / 8, i);
  }
}
