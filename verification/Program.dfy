/** Guest functions: the decoded instructions by address, runs over them, and the basic blocks the
    translator works on. */
module Program {
  import opened Words
  import opened Guest
  import X86
  import opened Lifter

  datatype Decoded = Decoded(addr: Word, len: nat, i: X86.Instr)

  /** The decoded instructions of a function. Decoding is deterministic, so an address has one. */
  type Code = map<Word, Decoded>

  type Block = seq<Decoded>

  /** What the flag passes note about the instructions of each block. */
  type AllNotes = map<Word, seq<Notes>>

  /** The blocks by start address, and their order in the emitted code. */
  datatype Function = Function(order: seq<Word>, blocks: map<Word, Block>)

  predicate Fits(d: Decoded) { X86.Legal(d.i) && d.len > 0 && d.addr + d.len < 0x1_0000_0000_0000_0000 }

  function Next(d: Decoded): Word
    requires Fits(d)
  {
    d.addr + d.len
  }

  predicate Control(i: X86.Instr) { i.Jcc? || i.Jmp? || i.Ret? }

  /** fallsThrough */
  predicate FallsThrough(i: X86.Instr) { !i.Jmp? && !i.Ret? }

  // ---- guest runs ----------------------------------------------------------------------------

  predicate CodeOk(code: Code) { forall pc :: pc in code ==> code[pc].addr == pc && Fits(code[pc]) }

  datatype Config = At(pc: Word, x: X86.State) | Returned(x: X86.State)

  /** Where control goes after d, executed in state x. */
  function Follow(d: Decoded, x: X86.State): Word
    requires Fits(d)
  {
    match d.i
    case Jmp(t) => t
    case Jcc(cc, t) => if X86.Holds(cc, x.f) then t else Next(d)
    case _ => Next(d)
  }

  /** One instruction. A run ends when it returns or leaves the decoded code. */
  function GuestStep(code: Code, c: Config, u: X86.Flags): Config
    requires CodeOk(code)
  {
    if c.Returned? || c.pc !in code then c
    else
      var d := code[c.pc];
      var y := X86.Eval(d.i, c.x, u);
      if d.i.Ret? then Returned(y) else At(Follow(d, c.x), y)
  }

  /** A run of |us| instructions; us are the values of flags that are left undefined. */
  function GuestRun(code: Code, c: Config, us: seq<X86.Flags>): Config
    requires CodeOk(code)
    decreases |us|
  {
    if us == [] then c else GuestStep(code, GuestRun(code, c, us[..|us| - 1]), us[|us| - 1])
  }

  // ---- blocks ---------------------------------------------------------------------------------

  /** Gap-free, and control transfers only at the end. */
  predicate BlockOk(start: Word, b: Block) {
    && b != [] && b[0].addr == start
    && (forall k :: 0 <= k < |b| ==> Fits(b[k]))
    && (forall k :: 0 <= k < |b| - 1 ==> !Control(b[k].i) && b[k + 1].addr == Next(b[k]))
  }

  predicate Sorted(s: seq<Word>) { forall i, j :: 0 <= i < j < |s| ==> s[i] < s[j] }

  /** The blocks hold exactly the decoded instructions, each once, and control enters and leaves
      them only at their ends: a decoded branch target or fall-through address of a last
      instruction starts a block. */
  ghost predicate WellFormed(fn: Function, code: Code) {
    && CodeOk(code)
    && Sorted(fn.order) && (forall a :: a in fn.order <==> a in fn.blocks)
    && (forall a :: a in fn.blocks ==> BlockOk(a, fn.blocks[a]))
    && (forall a, k :: a in fn.blocks && 0 <= k < |fn.blocks[a]| ==> InCode(fn.blocks[a][k], code))
    && (forall pc :: pc in code
          ==> exists a, k :: a in fn.blocks && 0 <= k < |fn.blocks[a]| && fn.blocks[a][k].addr == pc)
    && (forall a :: a in fn.blocks ==> Closed(fn, code, Last(fn.blocks[a])))
  }

  /** No instruction is in two blocks, or twice in one. */
  ghost predicate OnceEach(fn: Function) {
    forall a, k, c, m ::
      (a in fn.blocks && 0 <= k < |fn.blocks[a]| && c in fn.blocks && 0 <= m < |fn.blocks[c]|
       && fn.blocks[a][k].addr == fn.blocks[c][m].addr)
      ==> a == c && k == m
  }

  predicate InCode(d: Decoded, code: Code) { d.addr in code && code[d.addr] == d }

  function Last(b: Block): Decoded
    requires b != []
  {
    b[|b| - 1]
  }

  predicate Closed(fn: Function, code: Code, d: Decoded)
    requires Fits(d)
  {
    && (d.i.Jcc? ==> d.i.target in code ==> d.i.target in fn.blocks)
    && (d.i.Jmp? ==> d.i.target in code ==> d.i.target in fn.blocks)
    && (FallsThrough(d.i) ==> Next(d) in code ==> Next(d) in fn.blocks)
  }

  /** Every block start is decoded. */
  lemma StartDecoded(fn: Function, code: Code, a: Word)
    requires WellFormed(fn, code) && a in fn.blocks
    ensures a in code && InCode(fn.blocks[a][0], code)
  {
    assert InCode(fn.blocks[a][0], code);
  }
}
