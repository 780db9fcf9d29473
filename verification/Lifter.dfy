/** The lowering of one guest instruction to ARM code, and the carry sense it leaves. Each
    function follows the Go function named beside it; notes are the results of the two flag
    liveness passes for the instruction. */
module Lifter {
  import opened Words
  import opened Guest
  import X86
  import opened Arm

  /** How ARM C holds x86 CF: inverted, direct, or C = 0 with CF = 0. */
  datatype Pol = CarrySub | CarryAdd | CarryClear

  datatype Notes = Notes(skip: bool, carryDead: bool, overflowDead: bool)

  datatype Lowered = Lowered(code: seq<Instr>, pol: Pol)

  function Wd(s: Size): Size { if s == S64 then S64 else S32 }

  predicate Wide(s: Size) { s == S32 || s == S64 }

  // ---- immediates and addresses (arm64_lifter.go) ----------------------------------------

  function Chunk(v: Word, k: nat): nat { Field(v, 16 * k, 16) }

  /** loadImm64's loop from chunk k on. */
  function MoveChunks(d: Reg, v: Word, k: nat, first: bool): seq<Instr>
    requires k <= 4
    decreases 4 - k
  {
    if k == 4 then []
    else if Chunk(v, k) == 0 then MoveChunks(d, v, k + 1, first)
    else [if first then MOVZ(d, Chunk(v, k), 16 * k) else MOVK(d, Chunk(v, k), 16 * k)]
         + MoveChunks(d, v, k + 1, false)
  }

  function LoadImm64(d: Reg, v: Word): seq<Instr> {
    if v <= 0xffff then [MOVZ(d, v, 0)] else MoveChunks(d, v, 0, true)
  }

  function LoadImm32(d: Reg, v: Word): seq<Instr> {
    if v <= 0xffff then [MOVZ(d, v, 0)]
    else [MOVZ(d, v % 0x1_0000, 0)] + (if v / 0x1_0000 != 0 then [MOVK(d, v / 0x1_0000 % 0x1_0000, 16)] else [])
  }

  function LoadImm(d: Reg, v: Word, s: Size): seq<Instr> {
    if s == S64 then LoadImm64(d, v) else LoadImm32(d, v)
  }

  /** The part of computeEffAddr before the displacement. */
  function BaseIndex(m: MemRef, t: Scratch): seq<Instr>
    requires m.Sum?
  {
    (if m.base.Some? then [MOV(S64, T(t), G(m.base.value))] else [])
    + (if m.index.None? then (if m.base.Some? then [] else [MOVZ(T(t), 0, 0)])
       else if m.base.Some? then [ADDSUB(false, false, S64, T(t), T(t), Sh(G(m.index.value), m.scale))]
       else [SHIFT(LSL, S64, T(t), G(m.index.value), ByLit(m.scale))])
  }

  function Displace(disp: int, t: Scratch): seq<Instr> {
    if disp == 0 then []
    else if 0 < disp <= 4095 then [ADDSUB(false, false, S64, T(t), T(t), Lit(disp))]
    else if -4095 <= disp < 0 then [ADDSUB(true, false, S64, T(t), T(t), Lit(-disp))]
    else LoadImm64(T(X7), Trunc(disp, S64)) + [ADDSUB(false, false, S64, T(t), T(t), Sh(T(X7), 0))]
  }

  /** computeEffAddr into x16 or x17. */
  function AddrCode(m: MemRef, t: Scratch): seq<Instr> {
    match m
    case Rip(target) => LoadImm64(T(t), target)
    case Sum(_, _, _, disp) => BaseIndex(m, t) + Displace(disp, t)
  }

  // ---- operands ----------------------------------------------------------------------------

  /** readRegTo */
  function ReadReg(o: X86.Operand, s: Size, t: Reg): seq<Instr> {
    match o
    case High(g) => [UBFX(t, G(g), 8, 8)]
    case Reg(g) =>
      (match s
       case S8 => [LOGIC(AND, false, S32, t, G(g), Lit(0xff))]
       case S16 => [LOGIC(AND, false, S32, t, G(g), Lit(0xffff))]
       case _ => [MOV(s, t, G(g))])
    case _ => []
  }

  /** writeRegFrom */
  function WriteReg(o: X86.Operand, s: Size, r: Reg): seq<Instr> {
    match o
    case High(g) => [BFI(G(g), r, 8, 8)]
    case Reg(g) =>
      (match s
       case S8 => [BFI(G(g), r, 0, 8)]
       case S16 => [BFI(G(g), r, 0, 16)]
       case _ => [MOV(s, G(g), r)])
    case _ => []
  }

  /** readMemTo */
  function ReadMem(m: MemRef, s: Size, d: Reg): seq<Instr> {
    AddrCode(m, X16) + [LDR(s, d, T(X16))]
  }

  /** writeMemFrom */
  function WriteMem(m: MemRef, s: Size, r: Reg): seq<Instr> {
    var t := if r == T(X16) then X17 else X16;
    AddrCode(m, t) + [STR(s, r, T(t))]
  }

  datatype Loaded = Loaded(code: seq<Instr>, r: Reg)

  /** unaryOperand: the register the operand is in, after code. */
  function LoadDst(d: X86.Operand, s: Size): Loaded {
    match d
    case Mem(m) => Loaded(ReadMem(m, s, T(X17)), T(X17))
    case Reg(g) => if Wide(s) then Loaded([], G(g)) else Loaded(ReadReg(d, s, T(X17)), T(X17))
    case _ => Loaded(ReadReg(d, s, T(X17)), T(X17))
  }

  /** unaryOperand's store: x16 still holds a memory operand's address. */
  function StoreDst(d: X86.Operand, s: Size, r: Reg): seq<Instr> {
    match d
    case Mem(m) => [STR(s, r, T(X16))]
    case Reg(g) => if Wide(s) && r == G(g) then [] else WriteReg(d, s, r)
    case _ => WriteReg(d, s, r)
  }

  datatype Source = Source(code: seq<Instr>, m: Rhs)

  /** arithOperand */
  function ArithOperand(o: X86.Operand, s: Size, t: Scratch, immOk: bool): Source {
    match o
    case Imm(k) =>
      var v := Trunc(k, s);
      if immOk && Wide(s) && v <= 4095 then Source([], Lit(v))
      else Source(LoadImm(T(t), v, s), Sh(T(t), 0))
    case Reg(g) => if Wide(s) then Source([], Sh(G(g), 0)) else Source(ReadReg(o, s, T(t)), Sh(T(t), 0))
    case High(_) => Source(ReadReg(o, s, T(t)), Sh(T(t), 0))
    case Mem(m) => Source(ReadMem(m, s, T(t)), Sh(T(t), 0))
  }

  // ---- conditions (carryCond, condFor, normalizeCarry) ----------------------------------------

  /** The condition that is true when CF == want. */
  function CarryCond(pol: Pol, want: bool): Cond {
    if (pol == CarrySub) == want then CC else CS
  }

  function NormalizeCarry(pol: Pol): seq<Instr> {
    if pol == CarrySub then [] else [CFINV]
  }

  datatype Test = Test(code: seq<Instr>, pol: Pol, cond: Cond)

  function CondFor(cc: X86.Cc, pol: Pol): Test {
    match cc
    case O => Test([], pol, VS)
    case NO => Test([], pol, VC)
    case B => Test([], pol, CarryCond(pol, true))
    case AE => Test([], pol, CarryCond(pol, false))
    case E => Test([], pol, EQ)
    case NE => Test([], pol, NE)
    case BE =>
      if pol == CarryClear then Test([], pol, EQ)
      else if pol == CarryAdd then Test(NormalizeCarry(pol), CarrySub, LS)
      else Test([], pol, LS)
    case A =>
      if pol == CarryClear then Test([], pol, NE)
      else if pol == CarryAdd then Test(NormalizeCarry(pol), CarrySub, HI)
      else Test([], pol, HI)
    case S => Test([], pol, MI)
    case NS => Test([], pol, PL)
    case L => Test([], pol, LT)
    case GE => Test([], pol, GE)
    case LE => Test([], pol, LE)
    case G => Test([], pol, GT)
  }

  // ---- ADD, SUB, CMP, AND, OR, XOR, TEST (liftArith) --------------------------------------------

  predicate AddOrSub(op: X86.ArithOp) { op == X86.Add || op == X86.Sub || op == X86.Cmp }

  predicate CompareOnly(op: X86.ArithOp) { op == X86.Cmp || op == X86.Test }

  function ArmLogOp(op: X86.ArithOp): LogOp {
    match op case Or => ORR case Xor => EOR case _ => AND
  }

  function AluOne(op: X86.ArithOp, setf: bool, w: Size, d: Reg, n: Reg, m: Rhs): Instr {
    if AddOrSub(op) then ADDSUB(op != X86.Add, setf, w, d, n, m) else LOGIC(ArmLogOp(op), setf, w, d, n, m)
  }

  /** The flag-setting operation; ORR and EOR have no such form and are followed by TST. */
  function AluFlags(op: X86.ArithOp, w: Size, d: Reg, n: Reg, m: Rhs): seq<Instr> {
    if AddOrSub(op) || ArmLogOp(op) == AND then [AluOne(op, true, w, d, n, m)]
    else [AluOne(op, false, w, d, n, m), LOGIC(AND, true, w, ZR, d, Sh(d, 0))]
  }

  function ArithPol(op: X86.ArithOp): Pol {
    if op == X86.Add then CarryAdd else if AddOrSub(op) then CarrySub else CarryClear
  }

  function TopShift(s: Size): nat
    requires !Wide(s)
  {
    32 - Bits(s)
  }

  function ArithCore(op: X86.ArithOp, s: Size, a: Reg, m: Rhs, flags: bool): seq<Instr>
    requires !Wide(s) ==> m.Sh? && m.r.T?
  {
    if Wide(s) then
      var d := if CompareOnly(op) then ZR else a;
      if flags then AluFlags(op, s, d, a, m) else [AluOne(op, false, s, d, a, m)]
    else if flags then
      var sh := TopShift(s);
      [SHIFT(LSL, S32, T(X17), a, ByLit(sh))]
      + AluFlags(op, S32, T(X17), T(X17), Sh(m.r, sh))
      + (if CompareOnly(op) then [] else [SHIFT(LSR, S32, T(X17), T(X17), ByLit(sh))])
    else [AluOne(op, false, S32, T(X17), a, m)]
  }

  function LiftArith(op: X86.ArithOp, s: Size, d: X86.Operand, o: X86.Operand, notes: Notes, pol: Pol): Lowered
    requires X86.Legal(X86.Arith(op, s, d, o))
  {
    if CompareOnly(op) && notes.skip then Lowered([], pol)
    else
      var l := LoadDst(d, s);
      var b := ArithOperand(o, s, if d.Mem? then X0 else X16, AddOrSub(op));
      Lowered(l.code + b.code + ArithCore(op, s, l.r, b.m, !notes.skip)
          + (if CompareOnly(op) then [] else StoreDst(d, s, l.r)),
          if notes.skip then pol else ArithPol(op))
  }

  // ---- INC, DEC, NEG, NOT (liftIncDec, liftNegNot) ------------------------------------------------

  function LiftIncDec(inc: bool, s: Size, d: X86.Operand, notes: Notes, pol: Pol): Lowered {
    var l := LoadDst(d, s);
    if notes.skip then
      Lowered(l.code + [ADDSUB(!inc, false, Wd(s), l.r, l.r, Lit(1))] + StoreDst(d, s, l.r), pol)
    else if !Wide(s) then
      Lowered(l.code + [SXT(s, S32, T(X3), l.r), ADDSUB(!inc, false, S32, T(X3), T(X3), Lit(1)), SETF(s, T(X3))]
          + StoreDst(d, s, T(X3)), pol)
    else
      var keep := !notes.carryDead;
      Lowered(l.code + (if keep then [CSET(S32, T(X2), CS)] else [])
          + [ADDSUB(!inc, true, s, l.r, l.r, Lit(1))]
          + (if keep then [RMIF(T(X2), 63, 2)] else []) + StoreDst(d, s, l.r), pol)
  }

  function LiftNeg(s: Size, d: X86.Operand, notes: Notes, pol: Pol): Lowered {
    var l := LoadDst(d, s);
    if notes.skip then
      Lowered(l.code + [ADDSUB(true, false, Wd(s), l.r, ZR, Sh(l.r, 0))] + StoreDst(d, s, l.r), pol)
    else if !Wide(s) then
      Lowered(l.code
        + [SHIFT(LSL, S32, T(X3), l.r, ByLit(TopShift(s))), ADDSUB(true, true, S32, T(X3), ZR, Sh(T(X3), 0)),
                    SHIFT(LSR, S32, T(X3), T(X3), ByLit(TopShift(s)))]
          + StoreDst(d, s, T(X3)), CarrySub)
    else
      Lowered(l.code + [ADDSUB(true, true, s, l.r, ZR, Sh(l.r, 0))] + StoreDst(d, s, l.r), CarrySub)
  }

  function LiftNot(s: Size, d: X86.Operand, pol: Pol): Lowered {
    var l := LoadDst(d, s);
    Lowered(l.code + [MVN(Wd(s), l.r, l.r)] + StoreDst(d, s, l.r), pol)
  }

  // ---- ADC, SBB (liftAdcSbb) ----------------------------------------------------------------------

  function AdcSource(o: X86.Operand, s: Size): Loaded {
    match o
    case Imm(k) =>
      var v := Trunc(k, s);
      if v == 0 && Wide(s) then Loaded([], ZR) else Loaded(LoadImm64(T(X0), v), T(X0))
    case Reg(g) => if Wide(s) then Loaded([], G(g)) else Loaded(ReadReg(o, s, T(X0)), T(X0))
    case High(_) => Loaded(ReadReg(o, s, T(X0)), T(X0))
    case Mem(m) => Loaded(ReadMem(m, s, T(X0)), T(X0))
  }

  function AdcWide(sbb: bool, s: Size, r: Reg, b: Reg, flags: bool, pol: Pol): Lowered {
    var invert := if sbb then pol != CarrySub else pol == CarrySub;
    Lowered((if invert then [CFINV] else []) + [ADCSBC(sbb, flags, s, r, r, b)], if sbb then CarrySub else CarryAdd)
  }

  /** 8- and 16-bit flags of x17, b and the carry in c: N, Z and V from the sign-extended sum in x3,
      CF from the zero-extended one in t. */
  function NarrowCarry(sbb: bool, s: Size, b: Reg, c: Scratch, t: Scratch): seq<Instr>
    requires !Wide(s)
  {
    SignedSumCode(sbb, s, b, c, t) + [SETF(s, T(X3))] + UnsignedSumCode(sbb, b, c, t) + CarryOutCode(sbb, s, t)
      + [RMIF(T(t), 63, 2)]
  }

  function SignedSumCode(sbb: bool, s: Size, b: Reg, c: Scratch, t: Scratch): seq<Instr> {
    [SXT(s, S32, T(X3), T(X17)), SXT(s, S32, T(t), b),
     ADDSUB(sbb, false, S32, T(X3), T(X3), Sh(T(t), 0)), ADDSUB(sbb, false, S32, T(X3), T(X3), Sh(T(c), 0))]
  }

  function UnsignedSumCode(sbb: bool, b: Reg, c: Scratch, t: Scratch): seq<Instr> {
    [ADDSUB(sbb, false, S32, T(t), T(X17), Sh(b, 0)), ADDSUB(sbb, false, S32, T(t), T(t), Sh(T(c), 0))]
  }

  function CarryOutCode(sbb: bool, s: Size, t: Scratch): seq<Instr> {
    if sbb then [SHIFT(LSR, S32, T(t), T(t), ByLit(31)), LOGIC(EOR, false, S32, T(t), T(t), Lit(1))]
    else [UBFX(T(t), T(t), Bits(s), 1)]
  }

  /** 8- and 16-bit, with the operands in x17 and b: the result in x3. */
  function AdcNarrow(sbb: bool, s: Size, b: Reg, flags: bool, pol: Pol): Lowered
    requires !Wide(s)
  {
    var cset := [CSET(S32, T(X2), CarryCond(pol, true))];
    if flags then Lowered(cset + NarrowCarry(sbb, s, b, X2, X4), if sbb then CarrySub else CarryAdd)
    else Lowered(cset + UnsignedSumCode(sbb, b, X2, X3), pol)
  }

  function LiftAdcSbb(sbb: bool, s: Size, d: X86.Operand, o: X86.Operand, notes: Notes, pol: Pol): Lowered {
    var l := LoadDst(d, s);
    var b := AdcSource(o, s);
    if Wide(s) && d.Reg? && notes.skip && !sbb && b.r == ZR then
      Lowered([CINC(s, l.r, l.r, CarryCond(pol, true))], pol)
    else if Wide(s) && d.Reg? && notes.skip && sbb && o == d then
      Lowered([CSETM(s, l.r, CarryCond(pol, true))], pol)
    else if Wide(s) then
      var c := AdcWide(sbb, s, l.r, b.r, !notes.skip, pol);
      Lowered(l.code + b.code + c.code + StoreDst(d, s, l.r), c.pol)
    else
      var c := AdcNarrow(sbb, s, b.r, !notes.skip, pol);
      Lowered(l.code + b.code + c.code + StoreDst(d, s, T(X3)), c.pol)
  }

  // ---- shifts and rotates (liftShift) ----------------------------------------------------------------

  function CountMask(s: Size): nat { if s == S64 then 63 else 31 }

  /** The masked immediate count, or -1 for CL. */
  function ImmCount(c: X86.Count, s: Size): int {
    if c.ByImm? then c.n % (CountMask(s) + 1) else -1
  }

  /** zeroCountZext: a 32-bit register is still written. */
  function ZeroCountZext(d: X86.Operand, s: Size): seq<Instr> {
    if d.Reg? && s == S32 then [MOV(S32, G(d.g), G(d.g))] else []
  }

  function ArmShOp(op: X86.ShiftOp): ShOp {
    match op case Shl => LSL case Shr => LSR case Sar => ASR case _ => ROR
  }

  function RotAmount(op: X86.ShiftOp, n: nat, bits: nat): nat
    requires bits > 0
  {
    if op == X86.Rol then (bits - n % bits) % bits else n % bits
  }

  /** The fast path's count: an immediate, CL itself, or its negation in x5; x1 is the masked CL. */
  function FastAmount(op: X86.ShiftOp, s: Size, n: int): Amount
    requires -1 <= n
  {
    if n >= 0 then ByLit(if X86.Rotating(op) then RotAmount(op, n, Bits(s)) else n)
    else ByReg(if op == X86.Rol then T(X5) else G(RCX))
  }

  function FastCount(op: X86.ShiftOp, s: Size, n: int): seq<Instr> {
    if n >= 0 then []
    else [LOGIC(AND, false, S32, T(X1), G(RCX), Lit(CountMask(s)))]
         + (if op == X86.Rol then [ADDSUB(true, false, s, T(X5), ZR, Sh(G(RCX), 0))] else [])
  }

  function FastShift(op: X86.ShiftOp, s: Size, r: Reg, n: int): seq<Instr>
    requires -1 <= n
  {
    var amt := FastAmount(op, s, n);
    if amt == ByLit(0) && X86.Rotating(op) then [] else [SHIFT(ArmShOp(op), s, r, r, amt)]
  }

  function FastTest(s: Size, r: Reg, n: int, flags: bool): seq<Instr> {
    var tst := LOGIC(AND, true, s, ZR, r, Sh(r, 0));
    if !flags then [] else if n >= 0 then [tst] else [UNLESSZERO(S32, T(X1), [tst])]
  }

  /** Result straight into the operand; at most SF and ZF are needed. */
  function ShiftFast(op: X86.ShiftOp, s: Size, d: X86.Operand, n: int, flags: bool, pol: Pol): Lowered
    requires Wide(s) && -1 <= n
  {
    var l := LoadDst(d, s);
    Lowered(l.code + FastCount(op, s, n) + FastShift(op, s, l.r, n) + FastTest(s, l.r, n, flags) + StoreDst(d, s, l.r),
            if flags then CarryClear else pol)
  }

  /** The source as a 64-bit value: sign-extended for SAR, else zero-extended. */
  function ShiftSource(op: X86.ShiftOp, s: Size, val: Reg): Loaded {
    if op == X86.Sar && s != S64 then Loaded([SXT(s, S64, T(X4), val)], T(X4))
    else if s == S32 && val != T(X17) then Loaded([MOV(S32, T(X4), val)], T(X4))
    else Loaded([], val)
  }

  /** An 8- or 16-bit value replicated over 32 bits in x4: a 32-bit rotate then rotates the low bits. */
  function Replicate(s: Size, val: Reg): seq<Instr> {
    if Wide(s) then []
    else [LOGIC(ORR, false, S32, T(X4), val, Sh(val, Bits(s)))]
         + (if s == S8 then [LOGIC(ORR, false, S32, T(X4), T(X4), Sh(T(X4), 16))] else [])
  }

  /** The variable amount of a right rotate, in x1 or x5. */
  function RotateCount(op: X86.ShiftOp, s: Size): Loaded {
    var cnt := if op == X86.Rol then T(X5) else T(X1);
    Loaded((if op == X86.Rol then [ADDSUB(true, false, Wd(s), T(X5), ZR, Sh(T(X1), 0))] else [])
           + (if Wide(s) then [] else [LOGIC(AND, false, S32, T(X5), cnt, Lit(Bits(s) - 1))]),
           if Wide(s) then cnt else T(X5))
  }

  /** The result into x0. */
  function ShiftResult(op: X86.ShiftOp, s: Size, val: Reg, xv: Reg, n: int): seq<Instr>
    requires -1 <= n
  {
    if !X86.Rotating(op) then
      [SHIFT(ArmShOp(op), S64, T(X0), xv, if n >= 0 then ByLit(n) else ByReg(T(X1)))]
    else
      var src := if Wide(s) then xv else T(X4);
      Replicate(s, val)
      + (if n >= 0 then [SHIFT(ROR, Wd(s), T(X0), src, ByLit(RotAmount(op, n, Bits(s))))]
         else
           var c := RotateCount(op, s);
           c.code + [SHIFT(ROR, Wd(s), T(X0), src, ByReg(c.r))])
  }

  /** x2 = CF, x3 = OF. */
  function ShiftCarry(op: X86.ShiftOp, s: Size, xv: Reg, n: int): seq<Instr>
    requires -1 <= n < 64
  {
    match op
    case Shl =>
      if s != S64 then
        [UBFX(T(X2), T(X0), Bits(s), 1), LOGIC(EOR, false, S64, T(X3), T(X0), ShR(T(X0), 1)),
         UBFX(T(X3), T(X3), Bits(s) - 1, 1)]
      else
        (if n > 0 then [UBFX(T(X2), xv, 64 - n, 1)]
         else [ADDSUB(true, false, S64, T(X5), ZR, Sh(T(X1), 0)), SHIFT(LSR, S64, T(X2), xv, ByReg(T(X5))),
               LOGIC(AND, false, S64, T(X2), T(X2), Lit(1))])
        + [LOGIC(EOR, false, S64, T(X3), T(X2), ShR(T(X0), 63))]
    case Rol =>
      [LOGIC(AND, false, S64, T(X2), T(X0), Lit(1)), UBFX(T(X3), T(X0), Bits(s) - 1, 1),
       LOGIC(EOR, false, S64, T(X3), T(X3), Sh(T(X2), 0))]
    case Ror =>
      [UBFX(T(X2), T(X0), Bits(s) - 1, 1), UBFX(T(X3), T(X0), Bits(s) - 2, 1),
       LOGIC(EOR, false, S64, T(X3), T(X3), Sh(T(X2), 0))]
    case _ =>
      (if n > 0 then [UBFX(T(X2), xv, n - 1, 1)]
       else [ADDSUB(true, false, S64, T(X5), T(X1), Lit(1)), SHIFT(ArmShOp(op), S64, T(X2), xv, ByReg(T(X5))),
             LOGIC(AND, false, S64, T(X2), T(X2), Lit(1))])
      + (if op == X86.Shr then [UBFX(T(X3), xv, Bits(s) - 1, 1)] else [MOVZ(T(X3), 0, 0)])
  }

  /** CMN of the top-aligned result: N and Z of the result. */
  function ShiftNZ(s: Size): Instr {
    if s == S64 then ADDSUB(false, true, S64, ZR, ZR, Sh(T(X0), 0))
    else ADDSUB(false, true, S32, ZR, ZR, Sh(T(X0), 32 - Bits(s)))
  }

  function ShiftPol(n: int, pol: Pol): Pol {
    if n < 0 && pol == CarrySub then CarrySub else CarryAdd
  }

  function InsertCarry(r: Reg, of: Reg, pol: Pol, nz: seq<Instr>): seq<Instr> {
    (if pol == CarrySub then [LOGIC(EOR, false, S64, r, r, Lit(1))] else [])
    + [LOGIC(ORR, false, S64, r, of, Sh(r, 1))] + nz + [RMIF(r, 0, 3)]
  }

  /** The flag part of the general path, and the sense it leaves. */
  function ShiftFlagCode(op: X86.ShiftOp, s: Size, xv: Reg, n: int, needCO: bool, pol: Pol): Lowered
    requires -1 <= n < 64
  {
    if needCO then
      Lowered(ShiftCarry(op, s, xv, n)
              + InsertCarry(T(X2), T(X3), ShiftPol(n, pol), if X86.Rotating(op) then [] else [ShiftNZ(s)]),
              ShiftPol(n, pol))
    else Lowered([ShiftNZ(s)], CarryClear)
  }

  function CountCode(s: Size, n: int): seq<Instr> {
    if n >= 0 then [] else [LOGIC(AND, false, S32, T(X1), G(RCX), Lit(CountMask(s)))]
  }

  /** Code that runs only for a nonzero count. */
  function IfCounted(n: int, body: seq<Instr>): seq<Instr> {
    if n >= 0 then body else [UNLESSZERO(S32, T(X1), body)]
  }

  function ShiftGeneral(op: X86.ShiftOp, s: Size, d: X86.Operand, n: int, flags: bool, needCO: bool, pol: Pol): Lowered
    requires -1 <= n < 64
  {
    var l := LoadDst(d, s);
    var xv := ShiftSource(op, s, l.r);
    var f := ShiftFlagCode(op, s, xv.r, n, needCO, pol);
    Lowered(CountCode(s, n) + l.code + xv.code + ShiftResult(op, s, l.r, xv.r, n)
            + (if flags then IfCounted(n, f.code) else []) + StoreDst(d, s, T(X0)),
            if flags then f.pol else pol)
  }

  function LiftShift(op: X86.ShiftOp, s: Size, d: X86.Operand, c: X86.Count, notes: Notes, pol: Pol): Lowered {
    var n := ImmCount(c, s);
    var needCO := !notes.carryDead || !notes.overflowDead;
    var flags := !notes.skip && (X86.Rotating(op) ==> needCO);
    if n == 0 then Lowered(ZeroCountZext(d, s), pol)
    else if Wide(s) && (!flags || (!needCO && !X86.Rotating(op))) then ShiftFast(op, s, d, n, flags, pol)
    else ShiftGeneral(op, s, d, n, flags, needCO, pol)
  }

  // ---- RCL, RCR (liftRclRcr) ----------------------------------------------------------------

  /** The count in w1: masked and, below 32 bits, taken modulo the operand size + 1. */
  function RotCount(s: Size, n: int): seq<Instr> {
    if n >= 0 then [MOVZ(T(X1), n, 0)]
    else CountCode(s, n)
         + (if Wide(s) then []
            else [MOVZ(T(X5), Bits(s) + 1, 0), UDIV(S32, T(X6), T(X1), T(X5)), MSUB(S32, T(X1), T(X6), T(X5), T(X1))])
  }

  /** 64 bits: the value and the carry shifted to their places ... */
  function Rot64First(left: bool): seq<Instr> {
    if left then
      [SHIFT(LSL, S64, T(X5), T(X3), ByReg(T(X1))), ADDSUB(true, false, S64, T(X7), T(X1), Lit(1)),
       SHIFT(LSL, S64, T(X7), T(X2), ByReg(T(X7))), LOGIC(ORR, false, S64, T(X5), T(X5), Sh(T(X7), 0))]
    else
      [SHIFT(LSR, S64, T(X5), T(X3), ByReg(T(X1))), SHIFT(LSL, S64, T(X7), T(X2), ByReg(T(X6))),
       LOGIC(ORR, false, S64, T(X5), T(X5), Sh(T(X7), 0)), SHIFT(LSL, S64, T(X7), T(X3), ByLit(1))]
  }

  /** ... and the bits that come round. */
  function Rot64Second(left: bool): seq<Instr> {
    if left then
      [SHIFT(LSR, S64, T(X7), T(X3), ByLit(1)), SHIFT(LSR, S64, T(X7), T(X7), ByReg(T(X6))),
       LOGIC(ORR, false, S64, T(X5), T(X5), Sh(T(X7), 0)), SHIFT(LSR, S64, T(X4), T(X3), ByReg(T(X6)))]
    else
      [SHIFT(LSL, S64, T(X7), T(X7), ByReg(T(X6))), LOGIC(ORR, false, S64, T(X5), T(X5), Sh(T(X7), 0)),
       ADDSUB(true, false, S64, T(X7), T(X1), Lit(1)), SHIFT(LSR, S64, T(X4), T(X3), ByReg(T(X7)))]
  }

  /** x3 = value, x5 = result, x4 = CF out (bit 0). */
  function RotValue64(left: bool, val: Reg): seq<Instr> {
    [MOV(S64, T(X3), val), ADDSUB(true, false, S64, T(X6), ZR, Sh(T(X1), 0))]
    + Rot64First(left) + Rot64Second(left) + [LOGIC(AND, false, S64, T(X4), T(X4), Lit(1))]
  }

  function RotOperand(s: Size, val: Reg): seq<Instr> {
    [MOV(S32, T(X3), val)] + (if s == S32 then [] else [LOGIC(AND, false, S32, T(X3), T(X3), Lit(Cap(s) - 1))])
  }

  function RotRest(s: Size): seq<Instr> {
    [MOVZ(T(X6), Bits(s) + 1, 0), ADDSUB(true, false, S32, T(X6), T(X6), Sh(T(X1), 0))]
  }

  function RotShifts(left: bool, s: Size): seq<Instr> {
    [SHIFT(if left then LSL else LSR, S64, T(X5), T(X4), ByReg(T(X1))),
     SHIFT(if left then LSR else LSL, S64, T(X7), T(X4), ByReg(T(X6))),
     LOGIC(ORR, false, S64, T(X5), T(X5), Sh(T(X7), 0)), UBFX(T(X4), T(X5), Bits(s), 1)]
  }

  /** Up to 32 bits the (size + 1)-bit value CF:dst is rotated in x4. */
  function RotValueSmall(left: bool, s: Size, val: Reg): seq<Instr> {
    RotOperand(s, val) + [LOGIC(ORR, false, S64, T(X4), T(X3), Sh(T(X2), Bits(s)))] + RotRest(s) + RotShifts(left, s)
  }

  /** x7 = OF: MSB(result) ^ CF after for RCL, MSB(dst) ^ CF before for RCR. */
  function RotOverflow(left: bool, s: Size): seq<Instr> {
    if left then [UBFX(T(X7), T(X5), Bits(s) - 1, 1), LOGIC(EOR, false, S64, T(X7), T(X7), Sh(T(X4), 0))]
    else [UBFX(T(X7), T(X3), Bits(s) - 1, 1), LOGIC(EOR, false, S64, T(X7), T(X7), Sh(T(X2), 0))]
  }

  function RotValue(left: bool, s: Size, val: Reg): seq<Instr> {
    if s == S64 then RotValue64(left, val) else RotValueSmall(left, s, val)
  }

  function RotBody(left: bool, s: Size, d: X86.Operand, val: Reg, flags: bool, pol: Pol): seq<Instr> {
    RotValue(left, s, val) + (if flags then RotOverflow(left, s) + InsertCarry(T(X4), T(X7), pol, []) else [])
      + StoreDst(d, s, T(X5))
  }

  function LiftRotCarry(left: bool, s: Size, d: X86.Operand, c: X86.Count, notes: Notes, pol: Pol): Lowered {
    var m := ImmCount(c, s);
    var n := if m >= 0 && !Wide(s) then m % (Bits(s) + 1) else m;
    if n == 0 then Lowered(ZeroCountZext(d, s), pol)
    else
      var l := LoadDst(d, s);
      var flags := !notes.carryDead || !notes.overflowDead;
      var pol' := ShiftPol(n, pol);
      Lowered(RotCount(s, n) + [CSET(S32, T(X2), CarryCond(pol, true))] + l.code
              + IfCounted(n, RotBody(left, s, d, l.r, flags, pol')) + (if n >= 0 then [] else ZeroCountZext(d, s)),
              if flags then pol' else pol)
  }

  // ---- BT, BTS, BTR, BTC (liftBt) ------------------------------------------------------------

  function LogBits(s: Size): nat { match s case S8 => 3 case S16 => 4 case S32 => 5 case S64 => 6 }

  /** The signed register offset of a memory operand: x16 moves by whole operands, x1 is the bit. */
  function BitAddress(s: Size, g: Gpr): seq<Instr> {
    [if s == S64 then MOV(S64, T(X4), G(g)) else SXT(s, S64, T(X4), G(g)),
     SHIFT(ASR, S64, T(X5), T(X4), ByLit(LogBits(s))),
     ADDSUB(false, false, S64, T(X16), T(X16), Sh(T(X5), if s == S8 then 0 else LogBits(s) - 3)),
     LOGIC(AND, false, S64, T(X1), T(X4), Lit(Bits(s) - 1))]
  }

  function BitChange(op: X86.BitTestOp): LogOp {
    match op case Bts => ORR case Btr => BIC case _ => EOR
  }

  /** The changed operand: an immediate mask, or a mask built in x3. */
  function BitUpdate(op: X86.BitTestOp, s: Size, v: Reg, off: X86.Operand): seq<Instr> {
    match off
    case Imm(k) =>
      var bit := Lsl(1, ModBits(k, s));
      [if op == X86.Btr then LOGIC(AND, false, Wd(s), v, v, Lit(Trunc(Cap(Wd(s)) - 1 - bit, S64)))
       else LOGIC(BitChange(op), false, Wd(s), v, v, Lit(Trunc(bit, S64)))]
    case _ =>
      [MOVZ(T(X3), 1, 0), SHIFT(LSL, S64, T(X3), T(X3), ByReg(T(X1))),
        LOGIC(BitChange(op), false, S64, v, v, Sh(T(X3), 0))]
      + (if s == S32 && v != T(X17) then [MOV(S32, v, v)] else [])
  }

  function BitLoad(s: Size, d: X86.Operand, off: X86.Operand): Loaded {
    match d
    case Mem(m) =>
      Loaded(AddrCode(m, X16) + (match off case Reg(g) => BitAddress(s, g) case _ => []) + [LDR(s, T(X17), T(X16))],
        T(X17))
    case _ =>
      var l := LoadDst(d, s);
      Loaded(l.code + (match off case Reg(g) => [LOGIC(AND, false, S32, T(X1), G(g), Lit(Bits(s) - 1))] case _ => []),
        l.r)
  }

  /** C := the tested bit of the operand in r. */
  function BitTestCode(s: Size, r: Reg, o: X86.Operand): seq<Instr> {
    [match o case Imm(k) => UBFX(T(X2), r, ModBits(k, s), 1) case _ =>
      SHIFT(LSR, S64, T(X2), r, ByReg(T(X1))), RMIF(T(X2), 63, 2)]
  }

  function LiftBt(op: X86.BitTestOp, s: Size, d: X86.Operand, off: X86.Operand, notes: Notes, pol: Pol): Lowered {
    var l := BitLoad(s, d, off);
    var test := if notes.carryDead then [] else BitTestCode(s, l.r, off);
    Lowered(l.code + test + (if op == X86.Bt then [] else BitUpdate(op, s, l.r, off) + StoreDst(d, s, l.r)),
            if notes.carryDead then pol else CarryAdd)
  }

  // ---- CLC, STC, CMC, SETcc, CMOVcc, MOV, LEA ------------------------------------------------------

  function LiftFlagsOp(op: X86.FlagOp, pol: Pol): Lowered {
    match op
    case Clc => Lowered([RMIF(ZR, 0, 2)], CarryClear)
    case Stc => Lowered([RMIF(ZR, 0, 2)], CarrySub)
    case Cmc => Lowered([CFINV], if pol == CarryClear then CarryAdd else pol)
  }

  function LiftSetcc(cc: X86.Cc, d: X86.Operand, pol: Pol): Lowered {
    var t := CondFor(cc, pol);
    Lowered(t.code + [CSET(S32, T(X16), t.cond)]
            + (if d.Mem? then WriteMem(d.m, S8, T(X16)) else WriteReg(d, S8, T(X16))), t.pol)
  }

  function LiftCmovcc(cc: X86.Cc, s: Size, g: Gpr, o: X86.Operand, pol: Pol): Lowered {
    var t := CondFor(cc, pol);
    var src := if o.Mem? then T(X16) else if o.Reg? then G(o.g) else ZR;
    Lowered(t.code + (if o.Mem? then ReadMem(o.m, s, T(X16)) else [])
            + (if Wide(s) then [CSEL(s, G(g), src, G(g), t.cond)]
               else [CSEL(S32, T(X16), src, G(g), t.cond), BFI(G(g), T(X16), 0, 16)]),
            t.pol)
  }

  function LiftMov(s: Size, d: X86.Operand, o: X86.Operand): seq<Instr> {
    if d.Mem? then
      match o
      case Imm(k) => LoadImm(T(X17), Trunc(k, s), s) + WriteMem(d.m, s, T(X17))
      case Reg(g) => WriteMem(d.m, s, G(g))
      case High(_) => ReadReg(o, s, T(X17)) + WriteMem(d.m, s, T(X17))
      case Mem(_) => []
    else if d.Reg? && Wide(s) then
      match o
      case Imm(k) => LoadImm(G(d.g), Trunc(k, s), s)
      case Mem(m) => ReadMem(m, s, G(d.g))
      case Reg(g) => [MOV(s, G(d.g), G(g))]
      case High(_) => []
    else
      (match o
       case Imm(k) => [MOVZ(T(X16), Trunc(k, s), 0)]
       case Mem(m) => ReadMem(m, s, T(X16))
       case _ => ReadReg(o, s, T(X16)))
      + WriteReg(d, s, T(X16))
  }

  function LiftLea(s: Size, g: Gpr, m: MemRef): seq<Instr> {
    AddrCode(m, X16) + WriteReg(X86.Reg(g), s, T(X16))
  }

  /** RET pops the return address, which the host's own return takes the place of. */
  function LiftRet(): seq<Instr> {
    [LDR(S64, T(X16), G(RSP)), ADDSUB(false, false, S64, G(RSP), G(RSP), Lit(8))]
  }

  /** liftInstructionInternal up to the transfer of control itself. */
  function Lift(i: X86.Instr, notes: Notes, pol: Pol): Lowered
    requires X86.Legal(i)
  {
    match i
    case Arith(op, s, d, o) => LiftArith(op, s, d, o, notes, pol)
    case IncDec(inc, s, d) => LiftIncDec(inc, s, d, notes, pol)
    case Neg(s, d) => LiftNeg(s, d, notes, pol)
    case Not(s, d) => LiftNot(s, d, pol)
    case AdcSbb(sbb, s, d, o) => LiftAdcSbb(sbb, s, d, o, notes, pol)
    case Shift(op, s, d, c) => LiftShift(op, s, d, c, notes, pol)
    case RotCarry(left, s, d, c) => LiftRotCarry(left, s, d, c, notes, pol)
    case BitTest(op, s, d, o) => LiftBt(op, s, d, o, notes, pol)
    case FlagsOp(op) => LiftFlagsOp(op, pol)
    case Setcc(cc, d) => LiftSetcc(cc, d, pol)
    case Cmovcc(cc, s, g, o) => LiftCmovcc(cc, s, g, o, pol)
    case Mov(s, d, o) => Lowered(LiftMov(s, d, o), pol)
    case Lea(s, g, m) => Lowered(LiftLea(s, g, m), pol)
    case Ret => Lowered(LiftRet(), pol)
    case _ => Lowered([], pol)
  }
}
