/** The ARM64 instructions the lowerings emit and their evaluator (section C6.2 of the Arm
    Architecture Reference Manual). Guest registers are pinned in host registers (G); X0 to X7,
    X16 and X17 are scratch. */
module Arm {
  import opened Words
  import opened Guest

  datatype Scratch = X0 | X1 | X2 | X3 | X4 | X5 | X6 | X7 | X16 | X17

  datatype Reg = G(g: Gpr) | T(t: Scratch) | ZR

  datatype Rhs = Lit(k: Word) | Sh(r: Reg, lsl: nat) | ShR(r: Reg, lsr: nat)

  /** A shift amount: an immediate, or a register taken modulo the width. */
  datatype Amount = ByLit(n: nat) | ByReg(r: Reg)

  datatype Cond = EQ | NE | CS | CC | MI | PL | VS | VC | HI | LS | GE | LT | GT | LE

  datatype LogOp = AND | ORR | EOR | BIC
  datatype ShOp = LSL | LSR | ASR | ROR

  datatype Instr =
    | MOV(w: Size, d: Reg, n: Reg)
    | MOVZ(d: Reg, chunk: nat, shift: nat)
    | MOVK(d: Reg, chunk: nat, shift: nat)
    | MVN(w: Size, d: Reg, n: Reg)
    | ADDSUB(sub: bool, setf: bool, w: Size, d: Reg, n: Reg, m: Rhs)
    | ADCSBC(sub: bool, setf: bool, w: Size, d: Reg, n: Reg, r: Reg)
    | LOGIC(op: LogOp, setf: bool, w: Size, d: Reg, n: Reg, m: Rhs)
    | SHIFT(sh: ShOp, w: Size, d: Reg, n: Reg, amt: Amount)
    | UBFX(d: Reg, n: Reg, lsb: nat, len: nat)
    | BFI(d: Reg, n: Reg, lsb: nat, len: nat)
    | SXT(from: Size, w: Size, d: Reg, n: Reg)
    | CSEL(w: Size, d: Reg, n: Reg, r: Reg, cond: Cond)
    | CSET(w: Size, d: Reg, cond: Cond)
    | CSETM(w: Size, d: Reg, cond: Cond)
    | CINC(w: Size, d: Reg, n: Reg, cond: Cond)
    | CFINV
    | RMIF(n: Reg, rot: nat, mask: nat)
    | SETF(s: Size, n: Reg)
    | UDIV(w: Size, d: Reg, n: Reg, r: Reg)
    | MSUB(w: Size, d: Reg, n: Reg, r: Reg, acc: Reg)
    | LDR(s: Size, d: Reg, addr: Reg)
    | STR(s: Size, n: Reg, addr: Reg)
    /** CBZ w, over body: the forward skip inside one lowering. */
    | UNLESSZERO(w: Size, n: Reg, body: seq<Instr>)

  datatype File = File(x0: Word, x1: Word, x2: Word, x3: Word, x4: Word, x5: Word, x6: Word, x7: Word,
                       x16: Word, x17: Word)

  datatype State = State(g: Regs, x: File, n: bool, z: bool, c: bool, v: bool, mem: Memory)

  function Peek(f: File, t: Scratch): Word {
    match t
    case X0 => f.x0 case X1 => f.x1 case X2 => f.x2 case X3 => f.x3 case X4 => f.x4
    case X5 => f.x5 case X6 => f.x6 case X7 => f.x7 case X16 => f.x16 case X17 => f.x17
  }

  function Poke(f: File, t: Scratch, v: Word): File {
    match t
    case X0 => f.(x0 := v) case X1 => f.(x1 := v) case X2 => f.(x2 := v) case X3 => f.(x3 := v)
    case X4 => f.(x4 := v) case X5 => f.(x5 := v) case X6 => f.(x6 := v) case X7 => f.(x7 := v)
    case X16 => f.(x16 := v) case X17 => f.(x17 := v)
  }

  function Get(a: State, r: Reg): Word {
    match r case G(g) => a.g[g] case T(t) => Peek(a.x, t) case ZR => 0
  }

  function Set(a: State, r: Reg, v: Word): State {
    match r
    case G(g) => a.(g := a.g[g := v])
    case T(t) => a.(x := Poke(a.x, t, v))
    case ZR => a
  }

  function Read(a: State, r: Reg, w: Size): Word { Trunc(Get(a, r), w) }

  function RhsVal(a: State, m: Rhs, w: Size): Word {
    match m
    case Lit(k) => Trunc(k, w)
    case Sh(r, lsl) => Trunc(Lsl(Get(a, r), lsl), w)
    case ShR(r, lsr) => Trunc(Lsr(Read(a, r, w), lsr), w)
  }

  predicate Passes(cond: Cond, a: State) {
    match cond
    case EQ => a.z
    case NE => !a.z
    case CS => a.c
    case CC => !a.c
    case MI => a.n
    case PL => !a.n
    case VS => a.v
    case VC => !a.v
    case HI => a.c && !a.z
    case LS => !a.c || a.z
    case GE => a.n == a.v
    case LT => a.n != a.v
    case GT => !a.z && a.n == a.v
    case LE => a.z || a.n != a.v
  }

  /** d := AddWithCarry(x, y, cin), where subtraction adds the complement of y. */
  function AddSub(a: State, sub: bool, cin: bool, setf: bool, w: Size, d: Reg, x: Word, y: Word): State
    requires y < Cap(w)
  {
    var y' := if sub then Cap(w) - 1 - y else y;
    var sum := x + y' + B2N(cin);
    var r := Trunc(sum, w);
    var b := if setf then a.(n := Msb(r, w), z := r == 0, c := r != sum,
                             v := SInt(r, w) != SInt(x, w) + SInt(y', w) + B2N(cin))
             else a;
    Set(b, d, r)
  }

  function Logical(op: LogOp, x: Word, y: Word, w: Size): Word {
    match op
    case AND => Trunc(Bw(BAnd, x, y), w)
    case ORR => Trunc(Bw(BOr, x, y), w)
    case EOR => Trunc(Bw(BXor, x, y), w)
    case BIC => Trunc(Bw(BAnd, x, Trunc(-1 - y, w)), w)
  }

  function Shifted(sh: ShOp, x: Word, k: nat, w: Size): Word
    requires k < Bits(w)
  {
    match sh
    case LSL => Trunc(Lsl(x, k), w)
    case LSR => Trunc(Lsr(x, k), w)
    case ASR => Trunc(Lsr(SInt(x, w), k), w)
    case ROR => Trunc(Lsr(x, k) + Lsl(Low(x, k), Bits(w) - k), w)
  }

  function AmountOf(a: State, amt: Amount, w: Size): (k: nat)
    ensures k < Bits(w)
  {
    ModBits(match amt case ByLit(n) => n case ByReg(r) => Get(a, r), w)
  }

  /** RMIF: rotate n right, then copy bits 3:0 into the flags selected by the mask N=8, Z=4,
      C=2, V=1. */
  function Rmif(a: State, v: Word, rot: nat, mask: nat): State {
    a.(n := if (mask / 8) % 2 == 1 then Bit(v, (rot + 3) % 64) else a.n,
       z := if (mask / 4) % 2 == 1 then Bit(v, (rot + 2) % 64) else a.z,
       c := if (mask / 2) % 2 == 1 then Bit(v, (rot + 1) % 64) else a.c,
       v := if mask % 2 == 1 then Bit(v, rot % 64) else a.v)
  }

  function MovZero(chunk: nat, shift: nat): Word { Trunc(Lsl(chunk, shift), S64) }

  /** Bits [lsb, lsb + len) of v replaced by the low bits of n. */
  function Insert(v: Word, n: nat, lsb: nat, len: nat): Word {
    Trunc(v - Lsl(Field(v, lsb, len), lsb) + Lsl(Low(n, len), lsb), S64)
  }

  function MulSub(acc: Word, n: Word, m: Word, w: Size): Word { Trunc(acc - n * m, w) }

  function Divide(n: Word, m: Word): Word {
    if m == 0 then 0 else assert n / m <= n; n / m
  }

  function SetFlags(a: State, v: Word, s: Size): State {
    a.(n := Msb(v, s), z := Trunc(v, s) == 0, v := Bit(v, Bits(s)) != Msb(v, s))
  }

  function Step(i: Instr, a: State): State
    decreases i, 0
  {
    match i
    case MOV(w, d, n) => Set(a, d, Read(a, n, w))
    case MOVZ(d, chunk, shift) => Set(a, d, MovZero(chunk, shift))
    case MOVK(d, chunk, shift) => Set(a, d, Insert(Get(a, d), chunk, shift, 16))
    case MVN(w, d, n) => Set(a, d, Trunc(-1 - Get(a, n), w))
    case ADDSUB(sub, setf, w, d, n, m) => AddSub(a, sub, sub, setf, w, d, Read(a, n, w), RhsVal(a, m, w))
    case ADCSBC(sub, setf, w, d, n, r) => AddSub(a, sub, a.c, setf, w, d, Read(a, n, w), Read(a, r, w))
    case LOGIC(op, setf, w, d, n, m) =>
      var r := Logical(op, Read(a, n, w), RhsVal(a, m, w), w);
      Set(if setf then a.(n := Msb(r, w), z := r == 0, c := false, v := false) else a, d, r)
    case SHIFT(sh, w, d, n, amt) => Set(a, d, Shifted(sh, Read(a, n, w), AmountOf(a, amt, w), w))
    case UBFX(d, n, lsb, len) => Set(a, d, Trunc(Field(Get(a, n), lsb, len), S64))
    case BFI(d, n, lsb, len) => Set(a, d, Insert(Get(a, d), Get(a, n), lsb, len))
    case SXT(from, w, d, n) => Set(a, d, Trunc(SInt(Get(a, n), from), w))
    case CSEL(w, d, n, r, cond) => Set(a, d, Read(a, if Passes(cond, a) then n else r, w))
    case CSET(w, d, cond) => Set(a, d, B2N(Passes(cond, a)))
    case CSETM(w, d, cond) => Set(a, d, Trunc(0 - B2N(Passes(cond, a)), w))
    case CINC(w, d, n, cond) => Set(a, d, Trunc(Get(a, n) + B2N(Passes(cond, a)), w))
    case CFINV => a.(c := !a.c)
    case RMIF(n, rot, mask) => Rmif(a, Get(a, n), rot, mask)
    case SETF(s, n) => SetFlags(a, Get(a, n), s)
    case UDIV(w, d, n, r) => Set(a, d, Divide(Read(a, n, w), Read(a, r, w)))
    case MSUB(w, d, n, r, acc) => Set(a, d, MulSub(Get(a, acc), Get(a, n), Get(a, r), w))
    case LDR(s, d, addr) => Set(a, d, Load(a.mem, Get(a, addr), s))
    case STR(s, n, addr) => a.(mem := Store(a.mem, Get(a, addr), Get(a, n), s))
    case UNLESSZERO(w, n, body) => if Read(a, n, w) == 0 then a else Exec(body, a)
  }

  function Exec(code: seq<Instr>, a: State): State
    decreases code, 1
  {
    if code == [] then a else Exec(code[1..], Step(code[0], a))
  }

  // ---- straight-line code ------------------------------------------------------------------

  lemma {:induction false} ExecCat(c: seq<Instr>, d: seq<Instr>, a: State)
    ensures Exec(c + d, a) == Exec(d, Exec(c, a))
    decreases |c|
  {
    if c == [] {
      assert c + d == d;
    } else {
      assert (c + d)[1..] == c[1..] + d;
      ExecCat(c[1..], d, Step(c[0], a));
    }
  }

  lemma Exec1(i: Instr, a: State)
    ensures Exec([i], a) == Step(i, a)
  {
  }

  lemma Exec2(i: Instr, j: Instr, a: State)
    ensures Exec([i, j], a) == Step(j, Step(i, a))
  {
    assert [i, j] == [i] + [j];
    ExecCat([i], [j], a);
  }

  lemma Exec3(i: Instr, j: Instr, k: Instr, a: State)
    ensures Exec([i, j, k], a) == Step(k, Step(j, Step(i, a)))
  {
    assert [i, j, k] == [i, j] + [k];
    ExecCat([i, j], [k], a);
    Exec2(i, j, a);
  }

  lemma Exec4(i: Instr, j: Instr, k: Instr, l: Instr, a: State)
    ensures Exec([i, j, k, l], a) == Step(l, Step(k, Step(j, Step(i, a))))
  {
    assert [i, j, k, l] == [i, j, k] + [l];
    ExecCat([i, j, k], [l], a);
    Exec3(i, j, k, a);
  }
}
