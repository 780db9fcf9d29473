/** The modelled part of x86-64: integer instructions, their operands, and what one instruction
    does to the registers, the memory and the flags CF, ZF, SF and OF. Flags the architecture
    leaves undefined take the values of an oracle u, so one instruction has as many outcomes as
    there are oracles. */
module X86 {
  import opened Words
  import opened Guest

  datatype Flags = Flags(sf: bool, zf: bool, cf: bool, of: bool)

  datatype State = State(regs: Regs, mem: Memory, f: Flags)

  datatype Operand = Reg(g: Gpr) | High(g: Gpr) | Mem(m: MemRef) | Imm(k: Word)

  datatype ArithOp = Add | Sub | Cmp | And | Or | Xor | Test
  datatype ShiftOp = Shl | Shr | Sar | Rol | Ror
  datatype BitTestOp = Bt | Bts | Btr | Btc
  datatype FlagOp = Clc | Stc | Cmc
  datatype Count = ByImm(n: nat) | ByCl

  /** Conditions O to G in encoding order, without P and NP. */
  datatype Cc = O | NO | B | AE | E | NE | BE | A | S | NS | L | GE | LE | G

  datatype Instr =
    | Arith(op: ArithOp, s: Size, dst: Operand, src: Operand)
    | IncDec(inc: bool, s: Size, dst: Operand)
    | Neg(s: Size, dst: Operand)
    | Not(s: Size, dst: Operand)
    | AdcSbb(sbb: bool, s: Size, dst: Operand, src: Operand)
    | Shift(shift: ShiftOp, s: Size, dst: Operand, count: Count)
    | RotCarry(left: bool, s: Size, dst: Operand, count: Count)
    | BitTest(bt: BitTestOp, s: Size, dst: Operand, off: Operand)
    | FlagsOp(flagOp: FlagOp)
    | Setcc(cc: Cc, dst: Operand)
    | Cmovcc(cc: Cc, s: Size, to: Gpr, src: Operand)
    | Mov(s: Size, dst: Operand, src: Operand)
    | Lea(s: Size, to: Gpr, m: MemRef)
    | Jcc(cc: Cc, target: Word)
    | Jmp(target: Word)
    | Ret

  // ---- operands -----------------------------------------------------------------------

  predicate LegalOperand(o: Operand, s: Size) {
    (o.High? ==> s == S8) && (o.Mem? ==> LegalRef(o.m))
  }

  predicate LegalDst(o: Operand, s: Size) {
    LegalOperand(o, s) && !o.Imm?
  }

  /** The operand combinations that have an encoding. */
  predicate Legal(i: Instr) {
    match i
    case Arith(_, s, d, o) => LegalDst(d, s) && LegalOperand(o, s) && !(d.Mem? && o.Mem?)
    case IncDec(_, s, d) => LegalDst(d, s)
    case Neg(s, d) => LegalDst(d, s)
    case Not(s, d) => LegalDst(d, s)
    case AdcSbb(_, s, d, o) => LegalDst(d, s) && LegalOperand(o, s) && !(d.Mem? && o.Mem?)
    case Shift(_, s, d, _) => LegalDst(d, s)
    case RotCarry(_, s, d, _) => LegalDst(d, s)
    case BitTest(_, s, d, o) => s != S8 && LegalDst(d, s) && (o.Imm? || o.Reg?)
    case FlagsOp(_) => true
    case Setcc(_, d) => LegalDst(d, S8)
    case Cmovcc(_, s, _, o) => s != S8 && LegalOperand(o, s) && !o.Imm?
    case Mov(s, d, o) => LegalDst(d, s) && LegalOperand(o, s) && !(d.Mem? && o.Mem?)
    case Lea(s, _, m) => s != S8 && LegalRef(m)
    case Jcc(_, _) => true
    case Jmp(_) => true
    case Ret => true
  }

  function Val(x: State, o: Operand, s: Size): (v: Word)
    ensures v < Cap(s) || o.High?
    ensures o.High? ==> v < 0x100
  {
    match o
    case Reg(g) => Trunc(x.regs[g], s)
    case High(g) => (x.regs[g] / 0x100) % 0x100
    case Mem(m) => Load(x.mem, EffAddr(m, x.regs), s)
    case Imm(k) => Trunc(k, s)
  }

  function Put(x: State, o: Operand, v: Word, s: Size): State {
    match o
    case Reg(g) => x.(regs := x.regs[g := Merge(x.regs[g], v, s)])
    case High(g) => x.(regs := x.regs[g := MergeHigh(x.regs[g], v)])
    case Mem(m) => x.(mem := Store(x.mem, EffAddr(m, x.regs), v, s))
    case Imm(_) => x
  }

  // ---- flags ----------------------------------------------------------------------------

  predicate Holds(cc: Cc, f: Flags) {
    match cc
    case O => f.of
    case NO => !f.of
    case B => f.cf
    case AE => !f.cf
    case E => f.zf
    case NE => !f.zf
    case BE => f.cf || f.zf
    case A => !f.cf && !f.zf
    case S => f.sf
    case NS => !f.sf
    case L => f.sf != f.of
    case GE => f.sf == f.of
    case LE => f.zf || f.sf != f.of
    case G => !f.zf && f.sf == f.of
  }

  /** Flags of the sum a + b + c: CF when the unsigned sum does not fit, OF when the signed sum
      does not. */
  function AddFlags(a: Word, b: Word, c: nat, s: Size): Flags {
    var r := Trunc(a + b + c, s);
    Flags(Msb(r, s), r == 0, Trunc(a, s) + Trunc(b, s) + c >= Cap(s), SInt(a, s) + SInt(b, s) + c != SInt(r, s))
  }

  /** Flags of the difference a - b - c: CF is the borrow. */
  function SubFlags(a: Word, b: Word, c: nat, s: Size): Flags {
    var r := Trunc(a - b - c, s);
    Flags(Msb(r, s), r == 0, Trunc(a, s) < Trunc(b, s) + c, SInt(a, s) - SInt(b, s) - c != SInt(r, s))
  }

  function LogicFlags(r: Word, s: Size): Flags {
    Flags(Msb(r, s), r == 0, false, false)
  }

  function LogicOp(op: ArithOp): BitOp {
    match op case Or => BOr case Xor => BXor case _ => BAnd
  }

  function ArithResult(op: ArithOp, a: Word, b: Word, s: Size): Word {
    match op
    case Add => Trunc(a + b, s)
    case Sub => Trunc(a - b, s)
    case Cmp => Trunc(a - b, s)
    case _ => Trunc(Bw(LogicOp(op), a, b), s)
  }

  function ArithFlags(op: ArithOp, a: Word, b: Word, s: Size): Flags {
    match op
    case Add => AddFlags(a, b, 0, s)
    case Sub => SubFlags(a, b, 0, s)
    case Cmp => SubFlags(a, b, 0, s)
    case _ => LogicFlags(ArithResult(op, a, b, s), s)
  }

  // ---- shifts and rotates, one bit at a time ------------------------------------------------

  /** A value and the carry flag. */
  datatype VC = VC(v: Word, cf: bool)

  function ShiftOne(op: ShiftOp, x: VC, s: Size): VC {
    var v := Trunc(x.v, s);
    match op
    case Shl => VC(Trunc(2 * v, s), Msb(v, s))
    case Shr => VC(v / 2, v % 2 == 1)
    case Sar => VC(v / 2 + (if Msb(v, s) then Half(s) else 0), v % 2 == 1)
    case Rol => VC(Trunc(2 * v, s) + B2N(Msb(v, s)), Msb(v, s))
    case Ror => VC(v / 2 + (if v % 2 == 1 then Half(s) else 0), v % 2 == 1)
  }

  function ShiftBy(op: ShiftOp, x: VC, n: nat, s: Size): VC {
    if n == 0 then x else ShiftOne(op, ShiftBy(op, x, n - 1, s), s)
  }

  /** One bit through the carry flag. */
  function RotCarryOne(left: bool, x: VC, s: Size): VC {
    var v := Trunc(x.v, s);
    if left then VC(Trunc(2 * v, s) + B2N(x.cf), Msb(v, s))
    else VC(v / 2 + (if x.cf then Half(s) else 0), v % 2 == 1)
  }

  function RotCarryBy(left: bool, x: VC, n: nat, s: Size): VC {
    if n == 0 then x else RotCarryOne(left, RotCarryBy(left, x, n - 1, s), s)
  }

  /** Counts are masked to 5 bits, to 6 for 64-bit operands. */
  function Masked(x: State, c: Count, s: Size): nat {
    (match c case ByImm(n) => n case ByCl => x.regs[RCX] % 0x100) % (if s == S64 then 64 else 32)
  }

  predicate Rotating(op: ShiftOp) { op == Rol || op == Ror }

  /** OF after a shift or rotate of v by one with outcome r. */
  predicate ShiftOverflow(op: ShiftOp, v: Word, r: VC, s: Size) {
    match op
    case Shl => Msb(r.v, s) != r.cf
    case Shr => Msb(v, s)
    case Sar => false
    case Rol => Msb(r.v, s) != (r.v % 2 == 1)
    case Ror => Msb(r.v, s) != Bit(r.v, Bits(s) - 2)
  }

  function ShiftFlags(op: ShiftOp, v: Word, n: nat, s: Size, f: Flags, u: Flags): Flags {
    var r := ShiftBy(op, VC(v, f.cf), n, s);
    if n == 0 then f
    else
      var of := if n == 1 then ShiftOverflow(op, v, r, s) else u.of;
      if Rotating(op) then f.(cf := r.cf, of := of)
      else Flags(Msb(r.v, s), r.v == 0, if op != Sar && n >= Bits(s) then u.cf else r.cf, of)
  }

  function RotCarryFlags(left: bool, v: Word, n: nat, s: Size, f: Flags, u: Flags): Flags {
    var r := RotCarryBy(left, VC(v, f.cf), n, s);
    if n == 0 then f
    else
      var of := if left then Msb(r.v, s) != r.cf else Msb(v, s) != f.cf;
      f.(cf := r.cf, of := if n == 1 then of else u.of)
  }

  // ---- bit tests ------------------------------------------------------------------------

  /** The bit offset of BT and its variants: an immediate is taken modulo the operand size, a
      register is signed. */
  function BitOffset(x: State, o: Operand, s: Size): int {
    match o
    case Imm(k) => ModBits(k, s)
    case Reg(g) => SInt(x.regs[g], s)
    case _ => 0
  }

  /** With a memory operand the offset selects the operand at address + size * (offset DIV bits). */
  function BitTarget(x: State, d: Operand, off: int, s: Size): Operand {
    if d.Mem? then Mem(Rip(Trunc(EffAddr(d.m, x.regs) + (Bits(s) / 8) * DivBits(off, s), S64))) else d
  }

  function WithBit(op: BitTestOp, v: Word, k: nat): int {
    match op
    case Bt => v
    case Bts => if Bit(v, k) then v else v + Pow2(k)
    case Btr => if Bit(v, k) then v - Pow2(k) else v
    case Btc => if Bit(v, k) then v - Pow2(k) else v + Pow2(k)
  }

  // ---- one instruction ------------------------------------------------------------------

  /** Registers, memory and flags after instruction i, with u for the undefined flags. */
  function Eval(i: Instr, x: State, u: Flags): State {
    match i
    case Arith(op, s, d, o) =>
      var a, b := Val(x, d, s), Val(x, o, s);
      var y := if op == Cmp || op == Test then x else Put(x, d, ArithResult(op, a, b, s), s);
      y.(f := ArithFlags(op, a, b, s))
    case IncDec(inc, s, d) =>
      var a := Val(x, d, s);
      var f := if inc then AddFlags(a, 1, 0, s) else SubFlags(a, 1, 0, s);
      Put(x, d, Trunc(if inc then a + 1 else a - 1, s), s).(f := f.(cf := x.f.cf))
    case Neg(s, d) =>
      var a := Val(x, d, s);
      Put(x, d, Trunc(0 - a, s), s).(f := SubFlags(0, a, 0, s))
    case Not(s, d) => Put(x, d, Trunc(-1 - Val(x, d, s), s), s)
    case AdcSbb(sbb, s, d, o) =>
      var a, b, c := Val(x, d, s), Val(x, o, s), B2N(x.f.cf);
      if sbb then Put(x, d, Trunc(a - b - c, s), s).(f := SubFlags(a, b, c, s))
      else Put(x, d, Trunc(a + b + c, s), s).(f := AddFlags(a, b, c, s))
    case Shift(op, s, d, cnt) =>
      var v, n := Val(x, d, s), Masked(x, cnt, s);
      Put(x, d, ShiftBy(op, VC(v, x.f.cf), n, s).v, s).(f := ShiftFlags(op, v, n, s, x.f, u))
    case RotCarry(left, s, d, cnt) =>
      var v, n := Val(x, d, s), Masked(x, cnt, s);
      Put(x, d, RotCarryBy(left, VC(v, x.f.cf), n, s).v, s).(f := RotCarryFlags(left, v, n, s, x.f, u))
    case BitTest(op, s, d, o) =>
      var off := BitOffset(x, o, s);
      var t := BitTarget(x, d, off, s);
      var v, k := Val(x, t, s), ModBits(off, s);
      var y := if op == Bt then x else Put(x, t, Trunc(WithBit(op, v, k), s), s);
      y.(f := Flags(u.sf, x.f.zf, Bit(v, k), u.of))
    case FlagsOp(op) =>
      x.(f := x.f.(cf := match op case Clc => false case Stc => true case Cmc => !x.f.cf))
    case Setcc(cc, d) => Put(x, d, B2N(Holds(cc, x.f)), S8)
    case Cmovcc(cc, s, g, o) =>
      Put(x, Reg(g), if Holds(cc, x.f) then Val(x, o, s) else Trunc(x.regs[g], s), s)
    case Mov(s, d, o) => Put(x, d, Val(x, o, s), s)
    case Lea(s, g, m) => Put(x, Reg(g), EffAddr(m, x.regs), s)
    case Ret => x.(regs := x.regs[RSP := Trunc(8 + (x.regs[RSP] as int), S64)])
    case _ => x
  }
}
