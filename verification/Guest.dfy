/** What both machines share: the guest's general registers, its memory and the addresses its
    memory operands name. */
module Guest {
  import opened Words

  /** x86 register numbers: RAX 0, RCX 1, RDX 2, RBX 3, RSP 4, RBP 5, RSI 6, RDI 7, R8 to R15. */
  type Gpr = i: nat | i < 16
  const RAX: Gpr := 0
  const RCX: Gpr := 1
  const RSP: Gpr := 4

  type Regs = r: seq<Word> | |r| == 16 witness seq(16, _ => 0)

  type Memory = m: seq<Byte> | |m| == 0x1_0000_0000_0000_0000 ghost witness seq(0x1_0000_0000_0000_0000, _ => 0)

  /** n bytes from address a on, little-endian; addresses wrap at 2^64. */
  function LoadBytes(m: Memory, a: Word, n: nat): (v: nat)
    ensures v < Pow2(8 * n)
    decreases n
  {
    if n == 0 then 0
    else
      var rest := LoadBytes(m, Trunc(a + 1, S64), n - 1);
      assert Pow2(8 * n) == 0x100 * Pow2(8 * (n - 1)) by { Pow2Split(8 * (n - 1), 8); Const8(Pow2(8 * (n - 1))); }
      m[a] + 0x100 * rest
  }

  function StoreBytes(m: Memory, a: Word, v: nat, n: nat): Memory
    decreases n
  {
    if n == 0 then m
    else StoreBytes(SetByte(m, a, v % 0x100), Trunc(a + 1, S64), v / 0x100, n - 1)
  }

  function SetByte(m: Memory, a: Word, v: Byte): Memory {
    m[a := v]
  }

  function Load(m: Memory, a: Word, s: Size): (v: Word)
    ensures v < Cap(s)
  {
    CapPow2(s);
    LoadBytes(m, a, Bits(s) / 8)
  }

  function Store(m: Memory, a: Word, v: Word, s: Size): Memory {
    StoreBytes(m, a, Trunc(v, s), Bits(s) / 8)
  }

  lemma {:induction false} StoreOwnBytes(m: Memory, a: Word, n: nat)
    ensures StoreBytes(m, a, LoadBytes(m, a, n), n) == m
    decreases n
  {
    if n > 0 {
      StoreOwnBytes(m, Trunc(a + 1, S64), n - 1);
      assert SetByte(m, a, m[a]) == m;
    }
  }

  /** Writing back what was loaded changes nothing. */
  lemma StoreLoad(m: Memory, a: Word, s: Size)
    ensures Store(m, a, Load(m, a, s), s) == m
  {
    hide StoreBytes, LoadBytes;
    StoreOwnBytes(m, a, Bits(s) / 8);
    FitsTrunc(Load(m, a, s), s);
  }

  lemma FitsTrunc(v: Word, s: Size)
    requires v < Cap(s)
    ensures Trunc(v, s) == v
  {
  }

  /** A register after an operation of size s wrote v to it: 8- and 16-bit writes keep the other
      bits, 32-bit writes clear the upper half. */
  function Merge(was: Word, v: Word, s: Size): Word {
    match s
    case S8 => was - was % 0x100 + v % 0x100
    case S16 => was - was % 0x1_0000 + v % 0x1_0000
    case S32 => v % 0x1_0000_0000
    case S64 => v
  }

  /** A register after a write of bits 15:8 (AH, CH, DH, BH). */
  function MergeHigh(was: Word, v: Word): Word {
    was - 0x100 * (was / 0x100 % 0x100) + 0x100 * (v % 0x100)
  }

  datatype Option<T> = None | Some(value: T)

  /** A memory operand: a RIP-relative address (known at translation time), or
      base + index * 2^scale + displacement. */
  datatype MemRef =
    | Rip(target: Word)
    | Sum(base: Option<Gpr>, index: Option<Gpr>, scale: nat, disp: int)

  predicate LegalRef(m: MemRef) {
    m.Sum? ==> m.scale <= 3 && -0x8000_0000 <= m.disp < 0x8000_0000
  }

  /** v * 2^k */
  function Scaled(v: Word, k: nat): nat {
    if k == 1 then 2 * v else if k == 2 then 4 * v else if k == 3 then 8 * v else v
  }

  function EffAddr(m: MemRef, r: Regs): Word {
    match m
    case Rip(t) => t
    case Sum(base, index, scale, disp) =>
      Trunc((if base.Some? then r[base.value] else 0)
            + (if index.Some? then Scaled(r[index.value], scale) else 0) + disp, S64)
  }
}
