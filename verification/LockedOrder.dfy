/** The memory events of the locked lowerings (arm64_lifter_locked.go): whatever other threads do
    meanwhile, a lowering that runs to its end performs the accesses and barriers that the ordering
    rules are about, so every locked operation, a failed compare-and-swap included, is a full barrier. */
module LockedOrder {
  import opened Words
  import opened Guest
  import X86
  import opened Arm
  import opened Lifter
  import opened Effects
  import opened Relation
  import opened Flags
  import opened Steps
  import opened Locked
  import opened LockedSim
  import opened LockedRun
  import Tso

  // ---- the events of a run --------------------------------------------------------------------------------

  /** What a thread finds at one of its steps: any memory, and whether it has lost its monitor. */
  datatype Moment = Moment(mem: Memory, lost: bool)

  function Found(th: Thread, m: Moment): Thread { if m.lost then th.(mon := None) else th }

  /** The events of one step; a conditional store that fails is none. */
  function OpEvents(op: Op, th: Thread, mem: Memory): seq<Tso.Event> {
    match op
    case Atomic(c) =>
      [if c.CompareSwap? && Trunc(th.a.x.x0, c.s) != Load(mem, th.a.x.x16, c.s) then Tso.FAILED else Tso.ATOMIC]
    case LoadExclusive(s) => [Tso.LDAXR]
    case StoreExclusive(s) => if th.mon == Some(Monitor(th.a.x.x16, s)) then [Tso.STLXR] else []
    case Barrier => [Tso.DMB]
    case FailBarrier => if th.a.z then [] else [Tso.DMB]
    case _ => []
  }

  function Trace(ops: seq<Op>, th: Thread, ms: seq<Moment>): seq<Tso.Event>
    decreases |ms|
  {
    if ms == [] || th.pc >= |ops| then []
    else
      var t := Found(th, ms[0]);
      OpEvents(ops[t.pc], t, ms[0].mem) + Trace(ops, ThreadStep(ops[t.pc], t, ms[0].mem).th, ms[1..])
  }

  function After(ops: seq<Op>, th: Thread, ms: seq<Moment>): Thread
    decreases |ms|
  {
    if ms == [] || th.pc >= |ops| then th
    else
      var t := Found(th, ms[0]);
      After(ops, ThreadStep(ops[t.pc], t, ms[0].mem).th, ms[1..])
  }

  lemma TraceStep(ops: seq<Op>, th: Thread, ms: seq<Moment>)
    requires ms != [] && th.pc < |ops|
    ensures var t := Found(th, ms[0]); var next := ThreadStep(ops[t.pc], t, ms[0].mem).th;
      && Trace(ops, th, ms) == OpEvents(ops[t.pc], t, ms[0].mem) + Trace(ops, next, ms[1..])
      && After(ops, th, ms) == After(ops, next, ms[1..])
  {
    hide OpEvents, ThreadStep;
  }

  // ---- the loops --------------------------------------------------------------------------------------------

  /** The loads of attempts that failed. */
  function Tries(n: nat): seq<Tso.Event> { seq(n, i => Tso.LDAXR) }

  function Won(): seq<Tso.Event> { [Tso.LDAXR, Tso.STLXR, Tso.DMB] }

  ghost predicate Tried(es: seq<Tso.Event>) { exists n: nat :: es == Tries(n) + Won() }

  /** The events still to come at each step of a loop. */
  ghost predicate ToCome(pc: nat, stored: bool, es: seq<Tso.Event>) {
    if pc <= 1 || (pc == 4 && !stored) then Tried(es)
    else if pc <= 3 then es == [Tso.STLXR, Tso.DMB] || Tried(es)
    else if pc <= 5 then es == [Tso.DMB]
    else es == []
  }

  lemma {:induction false} LoopTrace(c: Code, th: Thread, ms: seq<Moment>)
    requires c.access.Loop? && th.pc <= 7 && After(Ops(c), th, ms).pc >= 7
    ensures ToCome(th.pc, th.a.x.x5 == 0, Trace(Ops(c), th, ms))
    decreases |ms|
  {
    hide Exec, Load, Store, AtAccess, Trace, After, ToCome, ThreadStep, OpEvents;
    var ops := Ops(c);
    if th.pc == 7 {
      AtEnd(ops, th, ms);
    } else {
      Unfinished(ops, th, ms);
      TraceStep(ops, th, ms);
      var t := Found(th, ms[0]);
      var e := ThreadStep(ops[t.pc], t, ms[0].mem);
      LoopPlace(c, t, ms[0].mem);
      LoopTrace(c, e.th, ms[1..]);
      LoopEvents(c, t, ms[0].mem, Trace(ops, e.th, ms[1..]));
    }
  }

  lemma AtEnd(ops: seq<Op>, th: Thread, ms: seq<Moment>)
    requires th.pc >= |ops|
    ensures Trace(ops, th, ms) == [] && ToCome(7, th.a.x.x5 == 0, [])
  {
  }

  lemma Unfinished(ops: seq<Op>, th: Thread, ms: seq<Moment>)
    requires After(ops, th, ms).pc > th.pc
    ensures ms != []
  {
  }

  lemma LoopPlace(c: Code, t: Thread, mem: Memory)
    requires c.access.Loop? && t.pc < 7
    ensures ThreadStep(Ops(c)[t.pc], t, mem).th.pc <= 7
  {
    hide Exec, Load, Store;
  }

  /** The step at hand in front of what comes after it. */
  lemma LoopEvents(c: Code, t: Thread, mem: Memory, rest: seq<Tso.Event>)
    requires c.access.Loop? && t.pc < 7
    requires var e := ThreadStep(Ops(c)[t.pc], t, mem); ToCome(e.th.pc, e.th.a.x.x5 == 0, rest)
    ensures ToCome(t.pc, t.a.x.x5 == 0, OpEvents(Ops(c)[t.pc], t, mem) + rest)
  {
    hide Exec, Load, Store;
    var es := OpEvents(Ops(c)[t.pc], t, mem) + rest;
    if t.pc == 1 {
      if Tried(rest) {
        var n: nat :| rest == Tries(n) + Won();
        assert [Tso.LDAXR] + Tries(n) == Tries(n + 1);
        assert es == Tries(n + 1) + Won();
      } else {
        assert es == Tries(0) + Won();
      }
    } else if t.pc != 3 && t.pc != 5 {
      assert es == rest;
    }
  }

  // ---- the other operations -------------------------------------------------------------------------------

  /** The compare of a compare-and-swap fails: the accumulator is not what the operand's location holds. */
  predicate CompareFails(l: Locked, x: X86.State, mem: Memory)
    requires Legal(l)
  {
    l.Cmpxchg? && Trunc(x.regs[RAX], l.s) != Load(mem, Address(l, x), l.s)
  }

  /** What the ordering rules call the operation; mem is the memory that its access finds. */
  function Kind(k: Task, x: X86.State, mem: Memory): Tso.Guest
    requires TaskOk(k)
  {
    if CodeOf(k).access.Loop? then Tso.LockedLoop
    else if CompareFails(k.l, x, mem) then Tso.FailedCas
    else Tso.Locked
  }

  lemma CasKind(k: Task)
    requires TaskOk(k)
    ensures CodeOf(k).access.CompareSwap? <==> k.l.Cmpxchg?
    ensures k.l.Cmpxchg? ==> CodeOf(k).suffix == CmpxchgTail(k.l.s) && CodeOf(k).access.s == k.l.s
  {
    hide LockSource, AddrCode, LockFlags, NarrowCarry, LockAdcWide, LockIncFlags, LockNegFlags, BitMaskCode,
         BitTestCode, Accumulator, CmpxchgTail;
  }

  /** The access and the code behind it, from a ready thread: the barrier runs exactly when the compare
      failed. */
  lemma CasEvents(k: Task, x: X86.State, t: Thread, mem: Memory)
    requires TaskOk(k) && k.l.Cmpxchg? && IsReady(k, x, t.a)
    ensures CodeOf(k).access.CompareSwap?
    ensures var c := CodeOf(k); var fin := Exec(c.suffix, AfterAccess(c.access, t.a, Load(mem, t.a.x.x16, c.access.s)));
      OpEvents(Atomic(c.access), t, mem) + (if fin.z then [] else [Tso.DMB]) == Tso.Emit(Kind(k, x, mem))
  {
    hide Exec, Load, Trunc, LockSource, AddrCode, Accumulator, X86.Val, X86.SubFlags, X86.Put, EffAddr, Holds2,
         CmpxchgTail;
    CasKind(k);
    var was, acc := Load(mem, t.a.x.x16, k.l.s), Trunc(x.regs[RAX], k.l.s);
    var a1 := t.a.(x := t.a.x.(x0 := was));
    TruncBound(x.regs[RAX], k.l.s);
    TruncSmall(acc, k.l.s);
    CmpxchgTailOk(k.l.s, x, a1, was);
    EqualFlag(acc, was, k.l.s);
  }

  /** A thread in front of a lowering, ready for it. */
  ghost predicate Starting(k: Task, x: X86.State, th: Thread)
    requires TaskOk(k)
  {
    th.pc == 0 && Local(x, th.a, k.pol, LiveBefore(k.l, k.out))
  }

  ghost predicate Completes(k: Task, th: Thread, ms: seq<Moment>)
    requires TaskOk(k)
  {
    After(Ops(CodeOf(k)), th, ms).pc >= |Ops(CodeOf(k))|
  }

  /** A lowering without a loop that runs to its end has the events of its kind. */
  lemma AtomicTrace(k: Task, x: X86.State, th: Thread, ms: seq<Moment>)
    requires TaskOk(k) && Starting(k, x, th) && Completes(k, th, ms) && !CodeOf(k).access.Loop?
    ensures |ms| >= 2 && Trace(Ops(CodeOf(k)), th, ms) == Tso.Emit(Kind(k, x, ms[1].mem))
  {
    hide Exec, Load, Store, Lower, IsReady, Local, Legal, NotesOk, Trace, After, ThreadStep, OpEvents, Kind;
    var c := CodeOf(k);
    var ops := Ops(c);
    CasKind(k);
    Unfinished(ops, th, ms);
    TraceStep(ops, th, ms);
    var t0 := Found(th, ms[0]);
    var th1 := ThreadStep(ops[0], t0, ms[0].mem).th;
    FirstStep(k, x, t0, ms[0].mem);
    Unfinished(ops, th1, ms[1..]);
    TraceStep(ops, th1, ms[1..]);
    assert ms[1..][0] == ms[1];
    var t1 := Found(th1, ms[1]);
    var th2 := ThreadStep(ops[1], t1, ms[1].mem).th;
    AccessStep(c, t1, ms[1].mem);
    Unfinished(ops, th2, ms[1..][1..]);
    TraceStep(ops, th2, ms[1..][1..]);
    var m2, ms3 := ms[1..][1..][0], ms[1..][1..][1..];
    var t2 := Found(th2, m2);
    var th3 := ThreadStep(ops[2], t2, m2.mem).th;
    SuffixStep(c, t2, m2.mem);
    if k.l.Cmpxchg? {
      CasEvents(k, x, t1, ms[1].mem);
      Unfinished(ops, th3, ms3);
      TraceStep(ops, th3, ms3);
      var t3 := Found(th3, ms3[0]);
      BarrierStep(t3, ms3[0].mem);
      AtEnd(ops, ThreadStep(ops[3], t3, ms3[0].mem).th, ms3[1..]);
    } else {
      AtEnd(ops, th3, ms3);
      PlainKind(k, x, t1, ms[1].mem);
    }
  }

  lemma FirstStep(k: Task, x: X86.State, t: Thread, mem: Memory)
    requires TaskOk(k) && Starting(k, x, t)
    ensures var op := Ops(CodeOf(k))[0]; var e := ThreadStep(op, t, mem).th;
      e.pc == 1 && IsReady(k, x, e.a) && OpEvents(op, t, mem) == []
  {
    hide Exec, Ready, Lower, Legal, NotesOk, Local;
    PrefixOk(k.l, k.notes, k.pol, k.out, x, t.a);
  }

  lemma AccessStep(c: Code, t: Thread, mem: Memory)
    requires !c.access.Loop? && t.pc == 1
    ensures var e := ThreadStep(Ops(c)[1], t, mem).th;
      e.pc == 2 && e.a == AfterAccess(c.access, t.a, Load(mem, t.a.x.x16, c.access.s))
    ensures Ops(c)[1] == Atomic(c.access)
  {
    hide Load, Store;
  }

  lemma SuffixStep(c: Code, t: Thread, mem: Memory)
    requires !c.access.Loop? && t.pc == 2
    ensures var e := ThreadStep(Ops(c)[2], t, mem).th; e.pc == 3 && e.a == Exec(c.suffix, t.a)
    ensures OpEvents(Ops(c)[2], t, mem) == []
  {
    hide Exec;
  }

  lemma BarrierStep(t: Thread, mem: Memory)
    ensures ThreadStep(FailBarrier, t, mem).th.pc == t.pc + 1
    ensures OpEvents(FailBarrier, t, mem) == if t.a.z then [] else [Tso.DMB]
  {
  }

  lemma PlainKind(k: Task, x: X86.State, t: Thread, mem: Memory)
    requires TaskOk(k) && !CodeOf(k).access.Loop? && !k.l.Cmpxchg? && !CodeOf(k).access.CompareSwap?
    ensures OpEvents(Atomic(CodeOf(k).access), t, mem) == Tso.Emit(Kind(k, x, mem))
  {
    hide Lower, Load, Legal, NotesOk;
  }

  /** Every locked lowering that runs to its end, whatever happens meanwhile: the events of its kind, after
      the loads of the attempts that failed. */
  lemma LockedTrace(k: Task, x: X86.State, th: Thread, ms: seq<Moment>)
    requires TaskOk(k) && Starting(k, x, th) && Completes(k, th, ms)
    ensures |ms| >= 2
    ensures exists n: nat :: Trace(Ops(CodeOf(k)), th, ms) == Tries(n) + Tso.Emit(Kind(k, x, ms[1].mem))
    ensures !CodeOf(k).access.Loop? ==> Trace(Ops(CodeOf(k)), th, ms) == Tso.Emit(Kind(k, x, ms[1].mem))
  {
    hide Exec, Load, Store, Lower, Local, Legal, NotesOk, Trace, After, ThreadStep, OpEvents;
    var es := Trace(Ops(CodeOf(k)), th, ms);
    if CodeOf(k).access.Loop? {
      LoopTrace(CodeOf(k), th, ms);
      TwoMoments(k, th, ms);
      var n: nat :| es == Tries(n) + Won();
    } else {
      AtomicTrace(k, x, th, ms);
      assert Tries(0) + es == es;
    }
  }

  lemma TwoMoments(k: Task, th: Thread, ms: seq<Moment>)
    requires TaskOk(k) && th.pc == 0 && Completes(k, th, ms)
    ensures |ms| >= 2
  {
    hide Exec, Load, Store, Lower, Legal, NotesOk, ThreadStep, After;
    var ops := Ops(CodeOf(k));
    Unfinished(ops, th, ms);
    TraceStep(ops, th, ms);
    var t := Found(th, ms[0]);
    FirstPlace(k, t, ms[0].mem);
    Unfinished(ops, ThreadStep(ops[0], t, ms[0].mem).th, ms[1..]);
  }

  lemma FirstPlace(k: Task, t: Thread, mem: Memory)
    requires TaskOk(k) && t.pc == 0
    ensures ThreadStep(Ops(CodeOf(k))[0], t, mem).th.pc == 1
  {
    hide Exec, Lower, Legal, NotesOk;
  }

  // ---- sequences of accesses --------------------------------------------------------------------------------

  /** An unlocked access or fence of a thread, or a locked operation with all that happens while it runs. */
  datatype Part = Access(g: Tso.Guest) | Locking(k: Task, x: X86.State, th: Thread, ms: seq<Moment>)

  ghost predicate PartOk(p: Part) {
    match p
    case Access(g) => g.Load? || g.Store? || g.Fence?
    case Locking(k, x, th, ms) => TaskOk(k) && Starting(k, x, th) && Completes(k, th, ms)
  }

  /** The events without the loads of failed attempts, whose values are not used. */
  function Settled(es: seq<Tso.Event>): seq<Tso.Event> {
    if |es| >= 2 && es[0] == Tso.LDAXR && es[1] == Tso.LDAXR then Settled(es[1..]) else es
  }

  ghost function PartEvents(p: Part): seq<Tso.Event>
    requires PartOk(p)
  {
    match p
    case Access(g) => Tso.Emit(g)
    case Locking(k, _, th, ms) => Settled(Trace(Ops(CodeOf(k)), th, ms))
  }

  ghost function PartKind(p: Part): Tso.Guest
    requires PartOk(p)
  {
    match p
    case Access(g) => g
    case Locking(k, x, th, ms) => if |ms| < 2 then Tso.Locked else Kind(k, x, ms[1].mem)
  }

  lemma {:induction false} SettledTries(n: nat)
    ensures Settled(Tries(n) + Won()) == Won()
    decreases n
  {
    var es := Tries(n) + Won();
    if n > 0 {
      assert es[1..] == Tries(n - 1) + Won();
      SettledTries(n - 1);
    }
  }

  lemma LockEmits(k: Task, x: X86.State, th: Thread, ms: seq<Moment>)
    requires TaskOk(k) && Starting(k, x, th) && Completes(k, th, ms)
    ensures |ms| >= 2 && Settled(Trace(Ops(CodeOf(k)), th, ms)) == Tso.Emit(Kind(k, x, ms[1].mem))
  {
    hide Trace, Completes, Starting, TaskOk, Lower, Ops, Tso.Emit, CompareFails, Settled;
    LockedTrace(k, x, th, ms);
    var es, g := Trace(Ops(CodeOf(k)), th, ms), Kind(k, x, ms[1].mem);
    if CodeOf(k).access.Loop? {
      var n: nat :| es == Tries(n) + Tso.Emit(g);
      SettledTries(n);
      KindsEmit();
    } else {
      KindsEmit();
    }
  }

  lemma KindsEmit()
    ensures Tso.Emit(Tso.LockedLoop) == Won()
    ensures Settled(Tso.Emit(Tso.Locked)) == Tso.Emit(Tso.Locked)
    ensures Settled(Tso.Emit(Tso.FailedCas)) == Tso.Emit(Tso.FailedCas)
  {
  }

  lemma PartEmits(p: Part)
    requires PartOk(p)
    ensures PartEvents(p) == Tso.Emit(PartKind(p))
    ensures p.Locking? ==> Tso.Barrier(PartKind(p))
  {
    hide Trace, Completes, Starting, TaskOk, Lower, Ops, Tso.Emit, CompareFails, Settled;
    if p.Locking? { LockEmits(p.k, p.x, p.th, p.ms); }
  }

  ghost predicate PartsOk(ps: seq<Part>) { forall i :: 0 <= i < |ps| ==> PartOk(ps[i]) }

  ghost function Kinds(ps: seq<Part>): seq<Tso.Guest>
    requires PartsOk(ps)
  {
    seq(|ps|, i requires 0 <= i < |ps| => PartKind(ps[i]))
  }

  /** The events of the first n parts. */
  ghost function Events(ps: seq<Part>, n: nat): seq<Tso.Event>
    requires PartsOk(ps) && n <= |ps|
  {
    if n == 0 then [] else Events(ps, n - 1) + PartEvents(ps[n - 1])
  }

  /** What a thread's accesses and lowered locked operations perform is what the ordering rules are about. */
  lemma {:induction false} EventsEmitted(ps: seq<Part>, n: nat)
    requires PartsOk(ps) && n <= |ps|
    ensures Events(ps, n) == Tso.EmitFirst(Kinds(ps), n)
    decreases n
  {
    hide PartOk, PartEvents, PartKind;
    if n > 0 {
      EventsEmitted(ps, n - 1);
      PartEmits(ps[n - 1]);
    }
  }

  /** Every lowered locked operation, failed compare-and-swaps included, keeps each earlier access of its thread
      before each later one. */
  lemma LockedOrders(ps: seq<Part>, i: nat, k: nat, j: nat)
    requires PartsOk(ps) && i < k < j < |ps| && ps[k].Locking? && ps[i] != Access(Tso.Fence)
      && ps[j] != Access(Tso.Fence)
    ensures Tso.Ordered(Events(ps, |ps|), Tso.Position(Kinds(ps), i), Tso.Position(Kinds(ps), j))
  {
    hide Tso.Ordered, Tso.EmitFirst, Events, PartOk, PartEvents;
    EventsEmitted(ps, |ps|);
    PartEmits(ps[k]);
    NoFence(ps[i]);
    NoFence(ps[j]);
    Tso.BarrierBetween(Kinds(ps), i, k, j);
  }

  lemma NoFence(p: Part)
    requires PartOk(p) && p != Access(Tso.Fence)
    ensures PartKind(p) != Tso.Fence
  {
    hide Lower, Legal, NotesOk, Local;
  }

  /** Which accesses of the emitted code stay in order, locked lowerings included. */
  lemma EmittedOrder(ps: seq<Part>, i: nat, j: nat)
    requires PartsOk(ps) && i < j < |ps| && ps[i] != Access(Tso.Fence) && ps[j] != Access(Tso.Fence)
    ensures Tso.Ordered(Events(ps, |ps|), Tso.Position(Kinds(ps), i), Tso.Position(Kinds(ps), j))
      <==> !Tso.Relaxed(Kinds(ps), i, j)
  {
    hide Tso.Ordered, Tso.EmitFirst, Events, PartOk, PartEvents, Tso.Relaxed;
    EventsEmitted(ps, |ps|);
    NoFence(ps[i]);
    NoFence(ps[j]);
    Tso.OrderedExactly(Kinds(ps), i, j);
  }
}
