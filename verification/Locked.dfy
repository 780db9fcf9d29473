/** Locked read-modify-write instructions (arm64_lifter_locked.go): what they do on x86, the atomic
    instructions and exclusive loops they are lowered to, and threads that run both. */
module Locked {
  import opened Words
  import opened Guest
  import X86
  import opened Arm
  import opened Lifter
  import opened Effects

  // ---- the guest instructions ------------------------------------------------------------------

  /** A LOCK-prefixed instruction with a memory destination, and the ones that are always locked. */
  datatype Locked =
    | Rmw(i: X86.Instr)
    | Xadd(s: Size, m: MemRef, o: X86.Operand)
    | Xchg(s: Size, m: MemRef, o: X86.Operand)
    | Cmpxchg(s: Size, m: MemRef, o: X86.Operand)

  predicate PlainReg(o: X86.Operand, s: Size) { (o.Reg? || o.High?) && X86.LegalOperand(o, s) }

  predicate Legal(l: Locked) {
    match l
    case Rmw(i) =>
      X86.Legal(i) &&
      (match i
       case Arith(op, _, d, _) => d.Mem? && !CompareOnly(op)
       case IncDec(_, _, d) => d.Mem?
       case Neg(_, d) => d.Mem?
       case Not(_, d) => d.Mem?
       case AdcSbb(_, _, d, _) => d.Mem?
       case BitTest(op, _, d, _) => d.Mem? && op != X86.Bt
       case _ => false)
    case Xadd(s, m, o) => LegalRef(m) && PlainReg(o, s)
    case Xchg(s, m, o) => LegalRef(m) && PlainReg(o, s)
    case Cmpxchg(s, m, o) => LegalRef(m) && PlainReg(o, s)
  }

  /** The whole instruction, as one atomic step. */
  function Eval(l: Locked, x: X86.State, u: X86.Flags): X86.State {
    match l
    case Rmw(i) => X86.Eval(i, x, u)
    case Xadd(s, m, o) =>
      var was, b := X86.Val(x, X86.Mem(m), s), X86.Val(x, o, s);
      X86.Put(X86.Put(x, X86.Mem(m), Trunc(was + b, s), s), o, was, s).(f := X86.AddFlags(was, b, 0, s))
    case Xchg(s, m, o) =>
      var was, b := X86.Val(x, X86.Mem(m), s), X86.Val(x, o, s);
      X86.Put(X86.Put(x, X86.Mem(m), b, s), o, was, s)
    case Cmpxchg(s, m, o) =>
      var was, acc := X86.Val(x, X86.Mem(m), s), Trunc(x.regs[RAX], s);
      var y := if acc == was then X86.Put(x, X86.Mem(m), X86.Val(x, o, s), s) else X86.Put(x, X86.Reg(RAX), was, s);
      y.(f := X86.SubFlags(acc, was, 0, s))
  }

  function SizeOf(l: Locked): Size {
    match l
    case Rmw(i) =>
      (match i
       case Arith(_, s, _, _) => s
       case IncDec(_, s, _) => s
       case Neg(s, _) => s
       case Not(s, _) => s
       case AdcSbb(_, s, _, _) => s
       case BitTest(_, s, _, _) => s
       case _ => S8)
    case Xadd(s, _, _) => s
    case Xchg(s, _, _) => s
    case Cmpxchg(s, _, _) => s
  }

  // ---- the host's atomics -----------------------------------------------------------------------

  /** LDADDAL, LDCLRAL, LDEORAL, LDSETAL, SWPAL. */
  datatype AtomicOp = LDADD | LDCLR | LDEOR | LDSET | SWP

  function AtomicValue(k: AtomicOp, was: Word, v: Word, s: Size): Word {
    match k
    case LDADD => Trunc(was + v, s)
    case LDCLR => Trunc(Bw(BAnd, was, Trunc(-1 - v, s)), s)
    case LDEOR => Trunc(Bw(BXor, was, Trunc(v, s)), s)
    case LDSET => Trunc(Bw(BOr, was, Trunc(v, s)), s)
    case SWP => Trunc(v, s)
  }

  /** The part of a lowering that touches the memory operand at [x16]; the old value goes to x17,
      and to x0 for a compare-and-swap. A loop's body computes the new value in x1 from x17. */
  datatype Access =
    | Single(k: AtomicOp, s: Size, src: Reg)
    | CompareSwap(s: Size, src: Reg)
    | Loop(s: Size, body: seq<Instr>)

  /** prefix and suffix only work on registers and flags. */
  datatype Code = Code(prefix: seq<Instr>, access: Access, suffix: seq<Instr>, pol: Pol)

  /** lockSource */
  function LockSource(o: X86.Operand, s: Size): Loaded {
    match o
    case Imm(k) => Loaded(LoadImm(T(X2), Trunc(k, s), s), T(X2))
    case Reg(g) => if Wide(s) then Loaded([], G(g)) else Loaded(ReadReg(o, s, T(X2)), T(X2))
    case _ => Loaded(ReadReg(o, s, T(X2)), T(X2))
  }

  /** addFlags, subFlags and logicFlags: the flags of op on the old value and b. */
  function LockFlags(op: X86.ArithOp, s: Size, b: Reg): seq<Instr> {
    var direct := AddOrSub(op) || ArmLogOp(op) == AND;
    if Wide(s) then AluFlags(op, s, if direct then ZR else T(X3), T(X17), Sh(b, 0))
    else if direct then
      [SHIFT(LSL, S32, T(X3), T(X17), ByLit(TopShift(s)))] + AluFlags(op, S32, ZR, T(X3), Sh(b, TopShift(s)))
    else [AluOne(op, false, S32, T(X3), T(X17), Sh(b, 0)), SHIFT(LSL, S32, T(X3), T(X3), ByLit(TopShift(s))),
          LOGIC(AND, true, S32, ZR, T(X3), Sh(T(X3), 0))]
  }

  function AtomicOf(op: X86.ArithOp): AtomicOp {
    match op case And => LDCLR case Or => LDSET case Xor => LDEOR case _ => LDADD
  }

  function LockArith(op: X86.ArithOp, s: Size, m: MemRef, o: X86.Operand, notes: Notes, pol: Pol): Code {
    var b := LockSource(o, s);
    var flip := if op == X86.Sub then [ADDSUB(true, false, Wd(s), T(X0), ZR, Sh(b.r, 0))]
                else if op == X86.And then [MVN(Wd(s), T(X0), b.r)] else [];
    Code(b.code + AddrCode(m, X16) + flip, Single(AtomicOf(op), s, if flip == [] then b.r else T(X0)),
         if notes.skip then [] else LockFlags(op, s, b.r), if notes.skip then pol else ArithPol(op))
  }

  function AllOnes(s: Size): Instr { MVN(Wd(s), T(X0), ZR) }

  function LockIncFlags(inc: bool, s: Size, notes: Notes): seq<Instr> {
    if notes.skip then []
    else if !Wide(s) then [SXT(s, S32, T(X3), T(X17)), ADDSUB(!inc, false, S32, T(X3), T(X3), Lit(1)), SETF(s, T(X3))]
    else
      (if notes.carryDead then [] else [CSET(S32, T(X2), CS)])
      + [ADDSUB(!inc, true, s, ZR, T(X17), Lit(1))]
      + (if notes.carryDead then [] else [RMIF(T(X2), 63, 2)])
  }

  function LockNegFlags(s: Size, notes: Notes): seq<Instr> {
    if notes.skip then []
    else if Wide(s) then [ADDSUB(true, true, s, T(X3), ZR, Sh(T(X17), 0))]
    else [SHIFT(LSL, S32, T(X3), T(X17), ByLit(TopShift(s))), ADDSUB(true, true, S32, T(X3), ZR, Sh(T(X3), 0))]
  }

  /** 32/64-bit flags of ADC and SBB with the old CF in x4: C is set from it first. */
  function LockAdcWide(sbb: bool, s: Size, b: Reg): seq<Instr> {
    [ADDSUB(true, true, s, ZR, T(X4), Lit(1))] + (if sbb then [CFINV] else [])
      + [ADCSBC(sbb, true, s, T(X3), T(X17), b)]
  }

  function LockAdc(sbb: bool, s: Size, m: MemRef, o: X86.Operand, notes: Notes, pol: Pol): Code {
    var b := LockSource(o, s);
    Code(b.code + [CSET(Wd(s), T(X4), CarryCond(pol, true))] + AddrCode(m, X16),
         Loop(s, [ADDSUB(sbb, false, Wd(s), T(X1), T(X17), Sh(b.r, 0)),
           ADDSUB(sbb, false, Wd(s), T(X1), T(X1), Sh(T(X4), 0))]),
         if notes.skip then [] else if Wide(s) then LockAdcWide(sbb, s, b.r) else NarrowCarry(sbb, s, b.r, X4, X6),
         if notes.skip then pol else if sbb then CarrySub else CarryAdd)
  }

  function BitAtomic(op: X86.BitTestOp): AtomicOp {
    match op case Bts => LDSET case Btr => LDCLR case _ => LDEOR
  }

  /** The mask of the bit in x0; a register offset moves x16 and leaves the bit in x1. */
  function BitMaskCode(s: Size, o: X86.Operand): seq<Instr> {
    match o
    case Imm(k) => LoadImm64(T(X0), Trunc(Lsl(1, ModBits(k, s)), S64))
    case Reg(g) => BitAddress(s, g) + [MOVZ(T(X0), 1, 0), SHIFT(LSL, S64, T(X0), T(X0), ByReg(T(X1)))]
    case _ => []
  }

  function LockBt(op: X86.BitTestOp, s: Size, m: MemRef, o: X86.Operand, notes: Notes, pol: Pol): Code {
    Code(AddrCode(m, X16) + BitMaskCode(s, o),
         Single(BitAtomic(op), s, T(X0)),
         if notes.carryDead then [] else BitTestCode(s, T(X17), o),
         if notes.carryDead then pol else CarryAdd)
  }

  /** The accumulator, zero-extended, into x0; the flags of CMP accumulator, old; the accumulator
      gets the old value when the compare failed. */
  function Accumulator(s: Size): seq<Instr> {
    if Wide(s) then [MOV(s, T(X0), G(RAX))] else [LOGIC(AND, false, S32, T(X0), G(RAX), Lit(Cap(s) - 1))]
  }

  function CmpxchgTail(s: Size): seq<Instr> {
    match s
    case S64 => [ADDSUB(true, true, S64, ZR, G(RAX), Sh(T(X0), 0)), MOV(S64, G(RAX), T(X0))]
    case S32 => [ADDSUB(true, true, S32, ZR, G(RAX), Sh(T(X0), 0)), CSEL(S64, G(RAX), G(RAX), T(X0), EQ)]
    case _ => [SHIFT(LSL, S32, T(X1), G(RAX), ByLit(TopShift(s))),
      ADDSUB(true, true, S32, ZR, T(X1), Sh(T(X0), TopShift(s))),
               BFI(G(RAX), T(X0), 0, Bits(s))]
  }

  function Lower(l: Locked, notes: Notes, pol: Pol): Code
    requires Legal(l)
  {
    match l
    case Rmw(i) =>
      (match i
       case Arith(op, s, d, o) => LockArith(op, s, d.m, o, notes, pol)
       case IncDec(inc, s, d) =>
         Code(AddrCode(d.m, X16) + [if inc then MOVZ(T(X0), 1, 0) else AllOnes(s)], Single(LDADD, s, T(X0)),
              LockIncFlags(inc, s, notes), pol)
       case Not(s, d) => Code(AddrCode(d.m, X16) + [AllOnes(s)], Single(LDEOR, s, T(X0)), [], pol)
       case Neg(s, d) =>
         Code(AddrCode(d.m, X16), Loop(s, [ADDSUB(true, false, Wd(s), T(X1), ZR, Sh(T(X17), 0))]),
           LockNegFlags(s, notes),
              if notes.skip then pol else CarrySub)
       case AdcSbb(sbb, s, d, o) => LockAdc(sbb, s, d.m, o, notes, pol)
       case BitTest(op, s, d, o) => LockBt(op, s, d.m, o, notes, pol)
       case _ => Code([], Single(SWP, S8, ZR), [], pol))
    case Xadd(s, m, o) =>
      var b := LockSource(o, s);
      Code(b.code + AddrCode(m, X16), Single(LDADD, s, b.r),
           (if notes.skip then [] else LockFlags(X86.Add, s, b.r)) + WriteReg(o, s, T(X17)),
           if notes.skip then pol else CarryAdd)
    case Xchg(s, m, o) =>
      var b := LockSource(o, s);
      Code(b.code + AddrCode(m, X16), Single(SWP, s, b.r), WriteReg(o, s, T(X17)), pol)
    case Cmpxchg(s, m, o) =>
      var b := LockSource(o, s);
      Code(b.code + Accumulator(s) + AddrCode(m, X16), CompareSwap(s, b.r), CmpxchgTail(s), CarrySub)
  }

  // ---- the access ----------------------------------------------------------------------------------

  /** The thread at the moment of the access: a loop has computed the new value from the old one. */
  function AtAccess(c: Access, a: State, was: Word): State {
    if c.Loop? then Exec(c.body, a.(x := a.x.(x17 := was))) else a
  }

  /** The thread after the access (for a loop: after a store that succeeded). */
  function AfterAccess(c: Access, a: State, was: Word): State {
    match c
    case Single(_, _, _) => a.(x := a.x.(x17 := was))
    case CompareSwap(_, _) => a.(x := a.x.(x0 := was))
    case Loop(_, _) => a.(x := a.x.(x5 := 0))
  }

  /** The memory after the access to [x16]. */
  function Written(c: Access, a: State, was: Word, mem: Memory): Memory {
    match c
    case Single(k, s, src) => Store(mem, a.x.x16, AtomicValue(k, was, Get(a, src), s), s)
    case CompareSwap(s, src) => if Trunc(a.x.x0, s) == was then Store(mem, a.x.x16, Get(a, src), s) else mem
    case Loop(s, _) => Store(mem, a.x.x16, a.x.x1, s)
  }
}
