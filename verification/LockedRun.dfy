/** Any number of threads, each running any sequence of locked operations and other instructions,
    interleaved in any way: every run of the host machine is a run of a machine on which each
    instruction is a single atomic step. */
module LockedRun {
  import opened Words
  import opened Guest
  import X86
  import opened Arm
  import opened Lifter
  import opened Effects
  import opened Steps
  import opened Bytes
  import opened Operands
  import opened Relation
  import opened Locked
  import opened LockedSim
  import LiftSim

  // ---- the host machine --------------------------------------------------------------------------

  /** An exclusive monitor: the location a thread has loaded for a conditional store. */
  datatype Monitor = Monitor(addr: Word, s: Size)

  /** One step of a thread: register-only code, an LSE access, LDAXR, STLXR, CBNZ back to the LDAXR,
      DMB ISH, or B.EQ over a DMB ISH (failBarrier). */
  datatype Op =
    | Registers(code: seq<Instr>)
    | Atomic(c: Access)
    | LoadExclusive(s: Size)
    | StoreExclusive(s: Size)
    | Retry
    | Barrier
    | FailBarrier

  function Ops(c: Code): seq<Op> {
    if c.access.Loop? then
      [Registers(c.prefix), LoadExclusive(c.access.s), Registers(c.access.body), StoreExclusive(c.access.s), Retry,
       Barrier, Registers(c.suffix)]
    else if c.access.CompareSwap? then [Registers(c.prefix), Atomic(c.access), Registers(c.suffix), FailBarrier]
    else [Registers(c.prefix), Atomic(c.access), Registers(c.suffix)]
  }

  /** Threads work on their own registers; their State's memory is not used. */
  datatype Thread = Thread(pc: nat, a: State, mon: Option<Monitor>)

  /** A thread's step, the memory after it, and the location it wrote. */
  datatype Outcome = Outcome(th: Thread, mem: Memory, wrote: Option<Monitor>)

  function ThreadStep(op: Op, th: Thread, mem: Memory): Outcome {
    var a, next := th.a, th.pc + 1;
    match op
    case Registers(code) => Outcome(th.(pc := next, a := Exec(code, a)), mem, None)
    case Atomic(c) =>
      var was := Load(mem, a.x.x16, c.s);
      Outcome(th.(pc := next, a := AfterAccess(c, a, was)), Written(c, a, was, mem), Some(Monitor(a.x.x16, c.s)))
    case LoadExclusive(s) =>
      Outcome(Thread(next, a.(x := a.x.(x17 := Load(mem, a.x.x16, s))), Some(Monitor(a.x.x16, s))), mem, None)
    case StoreExclusive(s) =>
      if th.mon == Some(Monitor(a.x.x16, s)) then
        Outcome(Thread(next, a.(x := a.x.(x5 := 0)), None), Store(mem, a.x.x16, a.x.x1, s), th.mon)
      else Outcome(Thread(next, a.(x := a.x.(x5 := 1)), None), mem, None)
    case Retry => Outcome(th.(pc := if a.x.x5 != 0 then 1 else next), mem, None)
    case Barrier => Outcome(th.(pc := next), mem, None)
    case FailBarrier => Outcome(th.(pc := next), mem, None)
  }

  /** No byte in common. */
  ghost predicate Disjoint(p: Monitor, q: Monitor) {
    forall i: nat, j: nat :: i < Bits(p.s) / 8 && j < Bits(q.s) / 8 ==> ByteAt(p.addr, i) != ByteAt(q.addr, j)
  }

  /** A write by somebody else clears the monitors of the locations it touches. */
  ghost function Cleared(th: Thread, wrote: Option<Monitor>): Thread {
    if wrote.Some? && th.mon.Some? && !Disjoint(th.mon.value, wrote.value) then th.(mon := None) else th
  }

  /** A guest thread before and after a locked operation. */
  datatype GThread = GThread(done: bool, x: X86.State)

  // ---- the relation -----------------------------------------------------------------------------------------

  /** A thread's operation, with its notes, the carry sense before it and the flags live after it. */
  datatype Task = Task(l: Locked, notes: Notes, pol: Pol, out: Live)

  predicate TaskOk(k: Task) { Legal(k.l) && NotesOk(k.notes, k.out) }

  function CodeOf(k: Task): Code
    requires TaskOk(k)
  {
    Lower(k.l, k.notes, k.pol)
  }

  ghost predicate IsReady(k: Task, x: X86.State, a: State)
    requires TaskOk(k)
  {
    Ready(k.l, k.pol, k.out, x, a)
  }

  /** The rest of the lowering completes the operation. */
  ghost predicate Committed(k: Task, y: X86.State, a: State)
    requires TaskOk(k)
  {
    Local(y, Exec(CodeOf(k).suffix, a), CodeOf(k).pol, k.out)
  }

  ghost predicate Finished(k: Task, y: X86.State, a: State)
    requires TaskOk(k)
  {
    Local(y, a, CodeOf(k).pol, k.out)
  }

  /** While the monitor is held the location still has the value that was loaded. */
  ghost predicate MonitorOk(th: Thread, s: Size, was: Word, mem: Memory) {
    th.mon.Some? ==> th.mon.value == Monitor(th.a.x.x16, s) && Load(mem, th.a.x.x16, s) == was
  }

  /** The body of the loop has run on a ready state that had loaded was. */
  ghost predicate Computed(k: Task, x: X86.State, a0: State, a: State, was: Word)
    requires TaskOk(k)
  {
    IsReady(k, x, a0) && a == AtAccess(CodeOf(k).access, a0, was) && a.x.x16 == a0.x.x16
  }

  ghost predicate ThreadRel(k: Task, th: Thread, gt: GThread, mem: Memory)
    requires TaskOk(k)
  {
    var c, s := CodeOf(k), SizeOf(k.l);
    if th.pc == 0 then !gt.done && th.mon.None? && Local(gt.x, th.a, k.pol, LiveBefore(k.l, k.out))
    else if c.access.Loop? then
      if th.pc == 1 then !gt.done && th.mon.None? && IsReady(k, gt.x, th.a)
      else if th.pc == 2 then !gt.done && IsReady(k, gt.x, th.a) && MonitorOk(th, s, th.a.x.x17, mem)
      else if th.pc == 3 then
        !gt.done && exists a0: State, was: Word :: Computed(k, gt.x, a0, th.a, was) && MonitorOk(th, s, was, mem)
      else if th.pc == 4 && th.a.x.x5 != 0 then !gt.done && th.mon.None? && IsReady(k, gt.x, th.a)
      else if th.pc <= 6 then gt.done && th.mon.None? && Committed(k, gt.x, th.a)
      else th.pc == 7 && gt.done && th.mon.None? && Finished(k, gt.x, th.a)
    else
      if th.pc == 1 then !gt.done && th.mon.None? && IsReady(k, gt.x, th.a)
      else if th.pc == 2 then gt.done && th.mon.None? && Committed(k, gt.x, th.a)
      else th.pc <= |Ops(c)| && gt.done && th.mon.None? && Finished(k, gt.x, th.a)
  }

  // ---- writes elsewhere -----------------------------------------------------------------------------------------

  /** A store that shares no byte with a location keeps its value. */
  lemma LoadElsewhere(mem: Memory, p: Monitor, q: Monitor, v: Word)
    requires Disjoint(p, q)
    ensures Load(Store(mem, q.addr, v, q.s), p.addr, p.s) == Load(mem, p.addr, p.s)
  {
    hide Trunc, LoadBytes, StoreBytes, ByteAt;
    var mem' := Store(mem, q.addr, v, q.s);
    forall i: nat | i < Bits(p.s) / 8
      ensures mem'[ByteAt(p.addr, i)] == mem[ByteAt(p.addr, i)]
    {
      ByteKept(mem, q.addr, Trunc(v, q.s), Bits(q.s) / 8, ByteAt(p.addr, i));
    }
    LoadKept(mem, mem', p.addr, Bits(p.s) / 8);
  }

  /** mem' is mem, or mem after a write to the location wrote. */
  ghost predicate WroteTo(mem: Memory, mem': Memory, wrote: Option<Monitor>) {
    mem' == mem || (wrote.Some? && exists v: Word :: mem' == Store(mem, wrote.value.addr, v, wrote.value.s))
  }

  /** Another's write does not disturb a thread. */
  lemma ThreadKept(k: Task, th: Thread, gt: GThread, mem: Memory, mem': Memory, wrote: Option<Monitor>)
    requires TaskOk(k) && ThreadRel(k, th, gt, mem) && WroteTo(mem, mem', wrote)
    ensures ThreadRel(k, Cleared(th, wrote), gt, mem')
  {
    hide IsReady, Committed, Finished, Lower, Legal, NotesOk, Disjoint, Load, Store, Local;
    var th', s := Cleared(th, wrote), SizeOf(k.l);
    if CodeOf(k).access.Loop? && th.pc == 2 {
      MonitorKept(th, s, th.a.x.x17, mem, mem', wrote);
    } else if CodeOf(k).access.Loop? && th.pc == 3 {
      var a0: State, was: Word :| Computed(k, gt.x, a0, th.a, was) && MonitorOk(th, s, was, mem);
      MonitorKept(th, s, was, mem, mem', wrote);
      assert Computed(k, gt.x, a0, th'.a, was) && MonitorOk(th', s, was, mem');
    }
  }

  lemma MonitorKept(th: Thread, s: Size, was: Word, mem: Memory, mem': Memory, wrote: Option<Monitor>)
    requires MonitorOk(th, s, was, mem) && WroteTo(mem, mem', wrote)
    ensures MonitorOk(Cleared(th, wrote), s, was, mem')
  {
    hide Load, Store, Disjoint;
    if Cleared(th, wrote).mon.Some? && mem' != mem {
      var v: Word :| mem' == Store(mem, wrote.value.addr, v, wrote.value.s);
      LoadElsewhere(mem, th.mon.value, wrote.value, v);
    }
  }

  // ---- one step ----------------------------------------------------------------------------------------------

  /** A loop's operation: what its body computes depends on nothing it overwrites. */
  lemma ReadyKept(k: Task, x: X86.State, a: State, b: State)
    requires TaskOk(k) && CodeOf(k).access.Loop? && IsReady(k, x, a)
    requires b == a.(x := a.x.(x1 := b.x.x1, x5 := b.x.x5, x17 := b.x.x17))
    ensures IsReady(k, x, b)
  {
    hide Trunc, X86.Val, EffAddr, LockSource, AddrCode, NarrowCarry, LockAdcWide, LockFlags, Before, FlagsOk,
         LockNegFlags, Wd, Bits, Cap;
    FlagsSame(x.f, a, b, k.pol, LiveBefore(k.l, k.out));
    if k.l.Rmw? && k.l.i.AdcSbb? {
      SourceKept(k.l.i.src, k.l.i.s, x, LockSource(k.l.i.src, k.l.i.s).r, a, b);
    }
  }

  lemma FlagsSame(f: X86.Flags, a: State, b: State, pol: Pol, live: Live)
    requires b == a.(x := b.x)
    ensures FlagsOk(f, a, pol, live) == FlagsOk(f, b, pol, live)
  {
  }

  lemma BodyFrame(k: Task, x: X86.State, a: State, was: Word)
    requires TaskOk(k) && CodeOf(k).access.Loop? && IsReady(k, x, a)
    ensures var b := AtAccess(CodeOf(k).access, a, was);
      b == a.(x := a.x.(x1 := b.x.x1, x17 := was))
  {
    hide Exec, Step, Trunc, X86.Val, EffAddr, AddrCode, NarrowCarry, LockAdcWide, LockFlags, Before, FlagsOk,
         LockNegFlags, RhsVal, Holds2, LockSource;
    var body := CodeOf(k).access.body;
    var a1 := a.(x := a.x.(x17 := was));
    if k.l.i.Neg? {
      Exec1(body[0], a1);
      StepAddSub(a1, true, Wd(k.l.i.s), T(X1), ZR, Sh(T(X17), 0));
    } else {
      var b := LockSource(k.l.i.src, k.l.i.s).r;
      Exec2(body[0], body[1], a1);
      var a2 := Step(body[0], a1);
      StepAddSub(a1, k.l.i.sbb, Wd(k.l.i.s), T(X1), T(X17), Sh(b, 0));
      StepAddSub(a2, k.l.i.sbb, Wd(k.l.i.s), T(X1), T(X1), Sh(T(X4), 0));
    }
  }

  /** What a thread's step does to its guest thread: nothing, or the operation, in one step. */
  ghost predicate Matches(k: Task, e: Outcome, gt: GThread, mem: Memory, u: Option<X86.Flags>)
    requires TaskOk(k)
  {
    if u.Some? then
      var y := Eval(k.l, gt.x.(mem := mem), u.value);
      !gt.done && e.mem == y.mem && ThreadRel(k, e.th, GThread(true, y), e.mem) && WroteTo(mem, e.mem, e.wrote)
    else e.mem == mem && ThreadRel(k, e.th, gt, mem)
  }

  lemma AccessSize(k: Task)
    requires TaskOk(k)
    ensures CodeOf(k).access.s == SizeOf(k.l)
  {
    hide LockSource, AddrCode, LockFlags, NarrowCarry, LockAdcWide, LockIncFlags, LockNegFlags, BitMaskCode,
         BitTestCode, Accumulator, CmpxchgTail;
  }

  /** The register-only code in front. */
  lemma PrefixStep(k: Task, th: Thread, gt: GThread, mem: Memory)
    requires TaskOk(k) && ThreadRel(k, th, gt, mem) && th.pc == 0
    ensures Matches(k, ThreadStep(Ops(CodeOf(k))[0], th, mem), gt, mem, None)
  {
    hide Exec, Ready, Lower, Legal, NotesOk, Local, Committed, Finished;
    PrefixOk(k.l, k.notes, k.pol, k.out, gt.x, th.a);
  }

  /** An LSE access commits. */
  lemma AtomicStep(k: Task, th: Thread, gt: GThread, mem: Memory) returns (u: X86.Flags)
    requires TaskOk(k) && ThreadRel(k, th, gt, mem) && th.pc == 1 && !CodeOf(k).access.Loop?
    ensures Matches(k, ThreadStep(Ops(CodeOf(k))[1], th, mem), gt, mem, Some(u))
  {
    hide Exec, Ready, Lower, Legal, NotesOk, Local, Load, Store, Eval, AtomicValue, Get;
    var c := CodeOf(k);
    AccessSize(k);
    CommitOk(k.l, k.notes, k.pol, k.out, gt.x, th.a, mem);
    var was := Load(mem, th.a.x.x16, SizeOf(k.l));
    u := Seen(Exec(c.suffix, AfterAccess(c.access, th.a, was)), c.pol);
    AtomicWrote(c.access, th.a, was, mem);
  }

  lemma AtomicWrote(c: Access, a: State, was: Word, mem: Memory)
    requires !c.Loop?
    ensures WroteTo(mem, Written(c, a, was, mem), Some(Monitor(a.x.x16, c.s)))
  {
    hide Store, AtomicValue, Get;
    match c
    case Single(kd, s, src) =>
      assert Written(c, a, was, mem) == Store(mem, a.x.x16, AtomicValue(kd, was, Get(a, src), s), s);
    case CompareSwap(s, src) =>
      if Trunc(a.x.x0, s) == was { assert Written(c, a, was, mem) == Store(mem, a.x.x16, Get(a, src), s); }
  }

  lemma LoadStep(k: Task, th: Thread, gt: GThread, mem: Memory)
    requires TaskOk(k) && ThreadRel(k, th, gt, mem) && th.pc == 1 && CodeOf(k).access.Loop?
    ensures Matches(k, ThreadStep(Ops(CodeOf(k))[1], th, mem), gt, mem, None)
  {
    hide Ready, Lower, Legal, NotesOk, Local, Load, Committed, Finished, IsReady;
    AccessSize(k);
    ReadyKept(k, gt.x, th.a, th.a.(x := th.a.x.(x17 := Load(mem, th.a.x.x16, SizeOf(k.l)))));
  }

  lemma BodyStep(k: Task, th: Thread, gt: GThread, mem: Memory)
    requires TaskOk(k) && ThreadRel(k, th, gt, mem) && th.pc == 2 && CodeOf(k).access.Loop?
    ensures Matches(k, ThreadStep(Ops(CodeOf(k))[2], th, mem), gt, mem, None)
  {
    hide Exec, Ready, Lower, Legal, NotesOk, Local, Load, Committed, Finished, IsReady;
    var c, was := CodeOf(k), th.a.x.x17;
    var e := ThreadStep(Ops(c)[2], th, mem);
    BodyFrame(k, gt.x, th.a, was);
    assert th.a == th.a.(x := th.a.x.(x17 := was));
    assert Computed(k, gt.x, th.a, e.th.a, was) && MonitorOk(e.th, SizeOf(k.l), was, mem);
  }

  /** STLXR: it commits when the monitor is still held, and otherwise changes nothing. */
  lemma StoreStep(k: Task, th: Thread, gt: GThread, mem: Memory) returns (u: Option<X86.Flags>)
    requires TaskOk(k) && ThreadRel(k, th, gt, mem) && th.pc == 3 && CodeOf(k).access.Loop?
    ensures Matches(k, ThreadStep(Ops(CodeOf(k))[3], th, mem), gt, mem, u)
  {
    hide Exec, Ready, Lower, Legal, NotesOk, Local, Load, Store, IsReady, Eval, Finished;
    var c, s := CodeOf(k), SizeOf(k.l);
    AccessSize(k);
    var a0: State, was: Word :| Computed(k, gt.x, a0, th.a, was) && MonitorOk(th, s, was, mem);
    BodyFrame(k, gt.x, a0, was);
    var e := ThreadStep(Ops(c)[3], th, mem);
    if th.mon.Some? {
      CommitNow(k, gt.x, a0, was, mem);
      u := Some(Seen(Exec(c.suffix, AfterAccess(c.access, th.a, was)), c.pol));
      assert e.mem == Store(mem, th.a.x.x16, th.a.x.x1, s);
    } else {
      u := None;
      ReadyKept(k, gt.x, a0, e.th.a);
    }
  }

  lemma CommitNow(k: Task, x: X86.State, a: State, was: Word, mem: Memory)
    requires TaskOk(k) && CodeOf(k).access.Loop? && IsReady(k, x, a) && Load(mem, a.x.x16, SizeOf(k.l)) == was
    ensures var c := CodeOf(k); var at := AtAccess(c.access, a, was); var fin := AfterAccess(c.access, at, was);
      var y := Eval(k.l, x.(mem := mem), Seen(Exec(c.suffix, fin), c.pol));
      Committed(k, y, fin) && y.mem == Written(c.access, at, was, mem)
  {
    hide Exec, Ready, Lower, Legal, NotesOk, Local, Load, Store, Eval, AfterAccess, Written, AtAccess;
    CommitOk(k.l, k.notes, k.pol, k.out, x, a, mem);
  }

  /** The steps after the operation has committed, and the retry before it. */
  lemma LaterStep(k: Task, th: Thread, gt: GThread, mem: Memory)
    requires TaskOk(k) && ThreadRel(k, th, gt, mem) && th.pc < |Ops(CodeOf(k))|
    requires if CodeOf(k).access.Loop? then th.pc >= 4 else th.pc >= 2
    ensures Matches(k, ThreadStep(Ops(CodeOf(k))[th.pc], th, mem), gt, mem, None)
  {
    hide Exec, Ready, Lower, Legal, NotesOk, Local, Load, Store, IsReady, Eval;
  }

  lemma ThreadMatches(k: Task, th: Thread, gt: GThread, mem: Memory) returns (u: Option<X86.Flags>)
    requires TaskOk(k) && ThreadRel(k, th, gt, mem) && th.pc < |Ops(CodeOf(k))|
    ensures Matches(k, ThreadStep(Ops(CodeOf(k))[th.pc], th, mem), gt, mem, u)
  {
    hide Matches, ThreadRel, ThreadStep, Lower, Legal, NotesOk, Local;
    u := None;
    if th.pc == 0 {
      PrefixStep(k, th, gt, mem);
    } else if CodeOf(k).access.Loop? {
      if th.pc == 1 { LoadStep(k, th, gt, mem); }
      else if th.pc == 2 { BodyStep(k, th, gt, mem); }
      else if th.pc == 3 { u := StoreStep(k, th, gt, mem); }
      else { LaterStep(k, th, gt, mem); }
    } else if th.pc == 1 {
      var v := AtomicStep(k, th, gt, mem);
      u := Some(v);
    } else {
      LaterStep(k, th, gt, mem);
    }
  }

  lemma LoseKept(k: Task, th: Thread, gt: GThread, mem: Memory)
    requires TaskOk(k) && ThreadRel(k, th, gt, mem)
    ensures ThreadRel(k, th.(mon := None), gt, mem)
  {
    hide IsReady, Committed, Finished, Lower, Legal, NotesOk, Load, Local;
    if CodeOf(k).access.Loop? && th.pc == 3 {
      var a0: State, was: Word :| Computed(k, gt.x, a0, th.a, was) && MonitorOk(th, SizeOf(k.l), was, mem);
      assert Computed(k, gt.x, a0, th.a, was) && MonitorOk(th.(mon := None), SizeOf(k.l), was, mem);
    }
  }

  // ---- threads ------------------------------------------------------------------------------------------------

  /** An instruction of a thread: a locked operation, or another one that makes at most one access to
      memory, with its notes, the carry sense before it and the flags live after it. */
  datatype Item = Lock(k: Task) | Plain(i: X86.Instr, notes: Notes, pol: Pol, out: Live)

  /** No transfer, and no load and store of one location. */
  predicate OneAccess(i: X86.Instr) {
    match i
    case Arith(op, _, d, _) => d.Mem? ==> CompareOnly(op)
    case IncDec(_, _, d) => !d.Mem?
    case Neg(_, d) => !d.Mem?
    case Not(_, d) => !d.Mem?
    case AdcSbb(_, _, d, _) => !d.Mem?
    case Shift(_, _, d, _) => !d.Mem?
    case RotCarry(_, _, d, _) => !d.Mem?
    case BitTest(op, _, d, _) => d.Mem? ==> op == X86.Bt
    case _ => !i.Jcc? && !i.Jmp? && !i.Ret?
  }

  /** The location that an instruction other than a locked one writes. */
  function Writes(i: X86.Instr, r: Regs): Option<Monitor> {
    match i
    case Mov(s, Mem(m), _) => Some(Monitor(EffAddr(m, r), s))
    case Setcc(_, Mem(m)) => Some(Monitor(EffAddr(m, r), S8))
    case _ => None
  }

  predicate ItemOk(p: Item) {
    match p
    case Lock(k) => TaskOk(k)
    case Plain(i, notes, _, out) => X86.Legal(i) && NotesOk(notes, out) && OneAccess(i)
  }

  function PolBefore(p: Item): Pol { match p case Lock(k) => k.pol case Plain(_, _, pol, _) => pol }

  function NeededBefore(p: Item): Live {
    match p case Lock(k) => LiveBefore(k.l, k.out) case Plain(i, _, _, out) => Before(i, out)
  }

  function PolAfter(p: Item): Pol
    requires ItemOk(p)
  {
    match p case Lock(k) => CodeOf(k).pol case Plain(i, notes, pol, _) => Lift(i, notes, pol).pol
  }

  function LiveAfter(p: Item): Live { match p case Lock(k) => k.out case Plain(_, _, _, out) => out }

  /** Each instruction is lowered in the sense that the one before it leaves, for the flags it needs. */
  predicate ProgramOk(p: seq<Item>) {
    && (forall i :: 0 <= i < |p| ==> ItemOk(p[i]))
    && forall i :: 0 <= i < |p| - 1
         ==> PolBefore(p[i + 1]) == PolAfter(p[i]) && NeededBefore(p[i + 1]) == LiveAfter(p[i])
  }

  // ---- the host machine with all its threads ----------------------------------------------------------------

  /** A thread at an instruction of its program; th.pc counts the steps of a locked one. */
  datatype HThread = HThread(item: nat, th: Thread)

  datatype Host = Host(mem: Memory, ts: seq<HThread>)

  function Length(p: Item): nat
    requires ItemOk(p)
  {
    match p case Lock(k) => |Ops(CodeOf(k))| case Plain(_, _, _, _) => 1
  }

  /** The code of a plain instruction works on the shared memory. */
  function ItemStep(p: Item, th: Thread, mem: Memory): Outcome
    requires ItemOk(p) && th.pc < Length(p)
  {
    match p
    case Lock(k) => ThreadStep(Ops(CodeOf(k))[th.pc], th, mem)
    case Plain(i, notes, pol, _) =>
      var b := Exec(Lift(i, notes, pol).code, th.a.(mem := mem));
      Outcome(th.(pc := 1, a := b), b.mem, Writes(i, th.a.g))
  }

  /** After the last step of an instruction comes the next one. */
  function MoveOn(p: seq<Item>, h: HThread): HThread
    requires ProgramOk(p)
  {
    if h.item < |p| && h.th.pc >= Length(p[h.item]) then HThread(h.item + 1, h.th.(pc := 0)) else h
  }

  ghost function Others(ts: seq<HThread>, wrote: Option<Monitor>): seq<HThread> {
    seq(|ts|, i requires 0 <= i < |ts| => ts[i].(th := Cleared(ts[i].th, wrote)))
  }

  /** A thread runs, a thread loses its monitor for no reason, or something else writes memory. */
  datatype Label = Run(t: nat) | Lose(t: nat) | Write(addr: Word, v: Word, s: Size)

  predicate ProgramsOk(ps: seq<seq<Item>>) { forall t :: 0 <= t < |ps| ==> ProgramOk(ps[t]) }

  predicate CanRun(ps: seq<seq<Item>>, h: Host, t: nat)
    requires ProgramsOk(ps) && |ps| == |h.ts|
  {
    t < |h.ts| && h.ts[t].item < |ps[t]| && h.ts[t].th.pc < Length(ps[t][h.ts[t].item])
  }

  ghost function HostStep(ps: seq<seq<Item>>, h: Host, l: Label): Host
    requires ProgramsOk(ps) && |ps| == |h.ts|
  {
    match l
    case Run(t) =>
      if CanRun(ps, h, t) then
        var e := ItemStep(ps[t][h.ts[t].item], h.ts[t].th, h.mem);
        Host(e.mem, Others(h.ts, e.wrote)[t := MoveOn(ps[t], h.ts[t].(th := e.th))])
      else h
    case Lose(t) => if t < |h.ts| then Host(h.mem, h.ts[t := h.ts[t].(th := h.ts[t].th.(mon := None))]) else h
    case Write(addr, v, s) => Host(Store(h.mem, addr, v, s), Others(h.ts, Some(Monitor(addr, s))))
  }

  ghost function HostRun(ps: seq<seq<Item>>, h: Host, ls: seq<Label>): Host
    requires ProgramsOk(ps) && |ps| == |h.ts|
    ensures |HostRun(ps, h, ls).ts| == |h.ts|
    decreases |ls|
  {
    if ls == [] then h else HostStep(ps, HostRun(ps, h, ls[..|ls| - 1]), ls[|ls| - 1])
  }

  // ---- the atomic machine -------------------------------------------------------------------------------------

  /** A guest thread before an instruction of its program. */
  datatype AThread = AThread(item: nat, x: X86.State)

  datatype Machine = Machine(mem: Memory, ts: seq<AThread>)

  datatype ALabel = Commit(t: nat, u: X86.Flags) | Other(addr: Word, v: Word, s: Size)

  /** A whole instruction of the guest. */
  function EvalItem(p: Item, x: X86.State, u: X86.Flags): X86.State {
    match p case Lock(k) => Eval(k.l, x, u) case Plain(i, _, _, _) => X86.Eval(i, x, u)
  }

  function AStep(ps: seq<seq<Item>>, g: Machine, l: ALabel): Machine
    requires |ps| == |g.ts|
  {
    match l
    case Commit(t, u) =>
      if t < |g.ts| && g.ts[t].item < |ps[t]| then
        var y := EvalItem(ps[t][g.ts[t].item], g.ts[t].x.(mem := g.mem), u);
        Machine(y.mem, g.ts[t := AThread(g.ts[t].item + 1, y)])
      else g
    case Other(addr, v, s) => Machine(Store(g.mem, addr, v, s), g.ts)
  }

  function ARun(ps: seq<seq<Item>>, g: Machine, gs: seq<ALabel>): Machine
    requires |ps| == |g.ts|
    ensures |ARun(ps, g, gs).ts| == |g.ts|
    decreases |gs|
  {
    if gs == [] then g else AStep(ps, ARun(ps, g, gs[..|gs| - 1]), gs[|gs| - 1])
  }

  // ---- the relation between the machines ------------------------------------------------------------------

  /** The guest thread as the locked operation at the host's place sees it. */
  function View(h: HThread, g: AThread): GThread { GThread(g.item == h.item + 1, g.x) }

  ghost predicate ItemRel(p: Item, th: Thread, gt: GThread, mem: Memory)
    requires ItemOk(p)
  {
    match p
    case Lock(k) => ThreadRel(k, th, gt, mem)
    case Plain(i, _, pol, out) => th.pc == 0 && !gt.done && th.mon.None? && Local(gt.x, th.a, pol, Before(i, out))
  }

  /** The guest is at the host's instruction or just past it; at the program's end both are, and what
      the last instruction leaves is the same. */
  ghost predicate ProgramRel(p: seq<Item>, h: HThread, g: AThread, mem: Memory)
    requires ProgramOk(p)
  {
    if h.item < |p| then
      && h.item <= g.item <= h.item + 1 && h.th.pc < Length(p[h.item]) && ItemRel(p[h.item], h.th, View(h, g), mem)
    else
      && h.item == g.item == |p| && h.th.mon.None?
      && (p != [] ==> Local(g.x, h.th.a, PolAfter(p[|p| - 1]), LiveAfter(p[|p| - 1])))
  }

  /** Same memory, and every thread where its guest thread is. */
  ghost predicate Rel(ps: seq<seq<Item>>, h: Host, g: Machine)
    requires ProgramsOk(ps)
  {
    && |h.ts| == |g.ts| == |ps| && h.mem == g.mem
    && forall t :: 0 <= t < |ps| ==> ProgramRel(ps[t], h.ts[t], g.ts[t], h.mem)
  }

  // ---- one step of a thread in its program -----------------------------------------------------------------

  /** What a step does to the guest thread: nothing, or the instruction, in one step. */
  ghost predicate StepMatches(p: seq<Item>, h: HThread, e: Outcome, g: AThread, mem: Memory, u: Option<X86.Flags>)
    requires ProgramOk(p)
  {
    var h' := MoveOn(p, h.(th := e.th));
    if u.Some? then
      g.item < |p| &&
      var y := EvalItem(p[g.item], g.x.(mem := mem), u.value);
      e.mem == y.mem && ProgramRel(p, h', AThread(g.item + 1, y), e.mem) && WroteTo(mem, e.mem, e.wrote)
    else e.mem == mem && ProgramRel(p, h', g, mem)
  }

  /** Where an instruction ends the next one can start. */
  lemma NextStarts(p: seq<Item>, h: HThread, g: AThread, mem: Memory)
    requires ProgramOk(p) && h.item < |p| && g.item == h.item + 1 && h.th.mon.None? && h.th.pc == Length(p[h.item])
    requires Local(g.x, h.th.a, PolAfter(p[h.item]), LiveAfter(p[h.item]))
    ensures ProgramRel(p, MoveOn(p, h), g, mem)
  {
    hide Local, Length, Lower, Lift, Legal, NotesOk, X86.Legal, Before, OneAccess;
    if h.item + 1 < |p| {
      assert PolBefore(p[h.item + 1]) == PolAfter(p[h.item]);
      LengthPositive(p[h.item + 1]);
    }
  }

  lemma LengthPositive(p: Item)
    requires ItemOk(p)
    ensures Length(p) > 0
  {
    hide Lower, Legal, NotesOk, X86.Legal, OneAccess;
  }

  /** A locked operation at its end. */
  lemma LockEnds(k: Task, th: Thread, gt: GThread, mem: Memory)
    requires TaskOk(k) && ThreadRel(k, th, gt, mem) && th.pc >= |Ops(CodeOf(k))|
    ensures th.pc == |Ops(CodeOf(k))| && gt.done && th.mon.None? && Local(gt.x, th.a, CodeOf(k).pol, k.out)
  {
    hide Local, Lower, Committed, IsReady, Load, Legal, NotesOk;
  }

  lemma LockMatches(p: seq<Item>, h: HThread, g: AThread, mem: Memory) returns (u: Option<X86.Flags>)
    requires ProgramOk(p) && h.item < |p| && p[h.item].Lock? && ProgramRel(p, h, g, mem)
    ensures StepMatches(p, h, ItemStep(p[h.item], h.th, mem), g, mem, u)
  {
    hide ThreadRel, ThreadStep, Lower, Legal, NotesOk, Local, Ops, Eval, X86.Eval, X86.Legal, WroteTo;
    var k := p[h.item].k;
    u := ThreadMatches(k, h.th, View(h, g), mem);
    var e := ItemStep(p[h.item], h.th, mem);
    var h1 := h.(th := e.th);
    var g1 := if u.Some? then AThread(g.item + 1, Eval(k.l, g.x.(mem := mem), u.value)) else g;
    assert ThreadRel(k, e.th, View(h1, g1), e.mem);
    if e.th.pc >= |Ops(CodeOf(k))| {
      LockEnds(k, e.th, View(h1, g1), e.mem);
      NextStarts(p, h1, g1, e.mem);
    }
  }

  /** A plain instruction's code is one step, on the shared memory. */
  lemma PlainMatches(p: seq<Item>, h: HThread, g: AThread, mem: Memory) returns (u: X86.Flags)
    requires ProgramOk(p) && h.item < |p| && p[h.item].Plain? && ProgramRel(p, h, g, mem)
    ensures StepMatches(p, h, ItemStep(p[h.item], h.th, mem), g, mem, Some(u))
  {
    hide Exec, Lift, X86.Legal, NotesOk, Eval, X86.Eval, Before, FlagsOk, OneAccess, WroteTo, Writes;
    var Plain(i, notes, pol, out) := p[h.item];
    var x, a := g.x.(mem := mem), h.th.a.(mem := mem);
    FlagsMem(g.x.f, h.th.a, mem, pol, Before(i, out));
    LiftSim.LiftOk(i, notes, pol, out, x, a);
    var b := Exec(Lift(i, notes, pol).code, a);
    u := Seen(b, Lift(i, notes, pol).pol);
    PlainWrote(i, x, u);
    var e := ItemStep(p[h.item], h.th, mem);
    NextStarts(p, h.(th := e.th), AThread(g.item + 1, X86.Eval(i, x, u)), e.mem);
  }

  lemma FlagsMem(f: X86.Flags, a: State, mem: Memory, pol: Pol, live: Live)
    ensures FlagsOk(f, a.(mem := mem), pol, live) == FlagsOk(f, a, pol, live)
  {
  }

  /** An instruction that is no locked one writes at most the location named, in one store. */
  lemma PlainWrote(i: X86.Instr, x: X86.State, u: X86.Flags)
    requires OneAccess(i)
    ensures WroteTo(x.mem, X86.Eval(i, x, u).mem, Writes(i, x.regs))
  {
    hide Store, EffAddr, X86.Val, Trunc, X86.ShiftBy, X86.RotCarryBy, X86.ArithFlags, X86.ArithResult, X86.AddFlags,
         X86.SubFlags, X86.ShiftFlags, X86.RotCarryFlags, X86.WithBit, X86.Holds, Bit, X86.BitOffset, Merge, MergeHigh;
  }

  lemma ProgramStep(p: seq<Item>, h: HThread, g: AThread, mem: Memory) returns (u: Option<X86.Flags>)
    requires ProgramOk(p) && h.item < |p| && ProgramRel(p, h, g, mem)
    ensures StepMatches(p, h, ItemStep(p[h.item], h.th, mem), g, mem, u)
  {
    hide StepMatches, ProgramRel, ItemStep;
    if p[h.item].Lock? {
      u := LockMatches(p, h, g, mem);
    } else {
      var v := PlainMatches(p, h, g, mem);
      u := Some(v);
    }
  }

  /** Another's write, or a lost monitor, does not disturb a thread in its program. */
  lemma ProgramKept(p: seq<Item>, h: HThread, g: AThread, mem: Memory, mem': Memory, wrote: Option<Monitor>)
    requires ProgramOk(p) && ProgramRel(p, h, g, mem) && WroteTo(mem, mem', wrote)
    ensures ProgramRel(p, h.(th := Cleared(h.th, wrote)), g, mem')
  {
    hide ThreadRel, Lower, Legal, NotesOk, Local, Ops, X86.Legal, WroteTo, Disjoint, Before, Lift, OneAccess;
    if h.item < |p| && p[h.item].Lock? {
      ThreadKept(p[h.item].k, h.th, View(h, g), mem, mem', wrote);
    }
  }

  lemma ProgramLoses(p: seq<Item>, h: HThread, g: AThread, mem: Memory)
    requires ProgramOk(p) && ProgramRel(p, h, g, mem)
    ensures ProgramRel(p, h.(th := h.th.(mon := None)), g, mem)
  {
    hide ThreadRel, Lower, Legal, NotesOk, Local, Ops, X86.Legal, Before, Lift, OneAccess;
    if h.item < |p| && p[h.item].Lock? { LoseKept(p[h.item].k, h.th, View(h, g), mem); }
  }

  // ---- runs --------------------------------------------------------------------------------------------------

  /** A step of the host is no step or one step of the atomic machine. */
  lemma StepRefines(ps: seq<seq<Item>>, h: Host, g: Machine, l: Label) returns (gs: seq<ALabel>)
    requires ProgramsOk(ps) && Rel(ps, h, g)
    ensures |gs| <= 1 && Rel(ps, HostStep(ps, h, l), ARun(ps, g, gs))
  {
    hide ProgramRel, ProgramOk, Store, EvalItem, ItemStep, Disjoint, MoveOn, Length;
    match l
    case Run(t) =>
      if CanRun(ps, h, t) {
        gs := RunRefines(ps, h, g, t);
      } else {
        gs := [];
      }
    case Lose(t) =>
      gs := [];
      if t < |h.ts| { ProgramLoses(ps[t], h.ts[t], g.ts[t], h.mem); }
    case Write(addr, v, s) =>
      gs := [Other(addr, v, s)];
      OneStep(ps, g, gs[0]);
      var wrote, mem' := Some(Monitor(addr, s)), Store(h.mem, addr, v, s);
      assert WroteTo(h.mem, mem', wrote);
      forall i | 0 <= i < |ps|
        ensures ProgramRel(ps[i], Others(h.ts, wrote)[i], g.ts[i], mem')
      {
        ProgramKept(ps[i], h.ts[i], g.ts[i], h.mem, mem', wrote);
      }
  }

  lemma OneStep(ps: seq<seq<Item>>, g: Machine, l: ALabel)
    requires |ps| == |g.ts|
    ensures ARun(ps, g, [l]) == AStep(ps, g, l)
  {
    hide AStep;
    assert [l][..0] == [];
    assert ARun(ps, g, []) == g;
  }

  lemma RunRefines(ps: seq<seq<Item>>, h: Host, g: Machine, t: nat) returns (gs: seq<ALabel>)
    requires ProgramsOk(ps) && Rel(ps, h, g) && CanRun(ps, h, t)
    ensures |gs| <= 1 && Rel(ps, HostStep(ps, h, Run(t)), ARun(ps, g, gs))
  {
    hide ProgramRel, ProgramOk, Store, EvalItem, ItemStep, Disjoint, WroteTo, MoveOn, Length;
    InProgram(ps[t], h.ts[t].item);
    var e := ItemStep(ps[t][h.ts[t].item], h.ts[t].th, h.mem);
    var u := ProgramStep(ps[t], h.ts[t], g.ts[t], h.mem);
    if u.Some? {
      gs := [Commit(t, u.value)];
      OneStep(ps, g, gs[0]);
    } else {
      gs := [];
      assert WroteTo(h.mem, e.mem, e.wrote) by { SameWrote(h.mem, e.wrote); }
    }
    var g' := ARun(ps, g, gs);
    forall i | 0 <= i < |ps|
      ensures ProgramRel(ps[i], Others(h.ts, e.wrote)[t := MoveOn(ps[t], h.ts[t].(th := e.th))][i], g'.ts[i], e.mem)
    {
      if i != t { ProgramKept(ps[i], h.ts[i], g.ts[i], h.mem, e.mem, e.wrote); }
    }
  }

  lemma InProgram(p: seq<Item>, i: nat)
    requires ProgramOk(p) && i < |p|
    ensures ItemOk(p[i])
  {
  }

  lemma SameWrote(mem: Memory, wrote: Option<Monitor>)
    ensures WroteTo(mem, mem, wrote)
  {
  }

  lemma {:induction false} ARunAppend(ps: seq<seq<Item>>, g: Machine, p: seq<ALabel>, q: seq<ALabel>)
    requires |ps| == |g.ts| && |q| <= 1
    ensures ARun(ps, g, p + q) == ARun(ps, ARun(ps, g, p), q)
  {
    hide AStep;
    if q == [] {
      assert p + q == p;
    } else {
      assert (p + q)[..|p|] == p && q[..0] == [];
      assert ARun(ps, ARun(ps, g, p), []) == ARun(ps, g, p);
    }
  }

  /** Every interleaving of the host threads, with monitors lost at any time and any other writes, is
      a run of the atomic machine: memory is the same throughout, every instruction of every thread
      takes effect in exactly one step, in program order, and threads are at the same instructions. */
  lemma {:induction false} Linearizable(ps: seq<seq<Item>>, h: Host, g: Machine, ls: seq<Label>)
    returns (gs: seq<ALabel>)
    requires ProgramsOk(ps) && Rel(ps, h, g)
    ensures |gs| <= |ls| && Rel(ps, HostRun(ps, h, ls), ARun(ps, g, gs))
    decreases |ls|
  {
    hide Rel, ARun, HostStep, ProgramsOk;
    assert |h.ts| == |ps| == |g.ts| by { RelSizes(ps, h, g); }
    if ls == [] {
      gs := [];
      assert ARun(ps, g, []) == g by { EmptyRun(ps, g); }
    } else {
      var head := ls[..|ls| - 1];
      var p := Linearizable(ps, h, g, head);
      var q := StepRefines(ps, HostRun(ps, h, head), ARun(ps, g, p), ls[|ls| - 1]);
      ARunAppend(ps, g, p, q);
      gs := p + q;
    }
  }

  lemma RelSizes(ps: seq<seq<Item>>, h: Host, g: Machine)
    requires ProgramsOk(ps) && Rel(ps, h, g)
    ensures |h.ts| == |g.ts| == |ps|
  {
  }

  lemma EmptyRun(ps: seq<seq<Item>>, g: Machine)
    requires |ps| == |g.ts|
    ensures ARun(ps, g, []) == g
  {
  }

  // ---- where the machines start and end -----------------------------------------------------------------

  /** Threads before their first instruction, with equal registers and the flags it needs right. */
  ghost predicate Starts(p: seq<Item>, h: HThread, g: AThread)
    requires ProgramOk(p)
  {
    && h.item == g.item == 0 && h.th.pc == 0 && h.th.mon.None?
    && (p != [] ==> Local(g.x, h.th.a, PolBefore(p[0]), NeededBefore(p[0])))
  }

  lemma StartRelated(ps: seq<seq<Item>>, h: Host, g: Machine)
    requires ProgramsOk(ps) && |h.ts| == |g.ts| == |ps| && h.mem == g.mem
    requires forall t :: 0 <= t < |ps| ==> Starts(ps[t], h.ts[t], g.ts[t])
    ensures Rel(ps, h, g)
  {
    hide Local, Lower, Legal, NotesOk, X86.Legal, Length, Before, Lift, OneAccess;
    forall t | 0 <= t < |ps|
      ensures ProgramRel(ps[t], h.ts[t], g.ts[t], h.mem)
    {
      assert Starts(ps[t], h.ts[t], g.ts[t]) && ProgramOk(ps[t]);
      if ps[t] != [] { LengthPositive(ps[t][0]); }
    }
  }

  /** From the start of any programs, in any interleaving: a host thread at its program's end has taken
      each of its instructions in one step, and its registers and live flags are those of the last. */
  lemma RunsAtomically(ps: seq<seq<Item>>, h: Host, g: Machine, ls: seq<Label>) returns (gs: seq<ALabel>)
    requires ProgramsOk(ps) && |h.ts| == |g.ts| == |ps| && h.mem == g.mem
    requires forall t :: 0 <= t < |ps| ==> Starts(ps[t], h.ts[t], g.ts[t])
    ensures var e, f := HostRun(ps, h, ls), ARun(ps, g, gs);
      && e.mem == f.mem
      && forall t :: 0 <= t < |ps| && ps[t] != [] && e.ts[t].item == |ps[t]| ==>
           var last := ps[t][|ps[t]| - 1];
           f.ts[t].item == |ps[t]| && ItemOk(last) && Local(f.ts[t].x, e.ts[t].th.a, PolAfter(last), LiveAfter(last))
  {
    hide Local, Lower, Legal, NotesOk, X86.Legal, Length, Before, Lift, OneAccess, HostRun, ARun, Starts;
    StartRelated(ps, h, g);
    gs := Linearizable(ps, h, g, ls);
    var e, f := HostRun(ps, h, ls), ARun(ps, g, gs);
    forall t | 0 <= t < |ps| && ps[t] != [] && e.ts[t].item == |ps[t]|
      ensures ProgramRel(ps[t], e.ts[t], f.ts[t], e.mem) && ProgramOk(ps[t])
    {
    }
  }
}
