/** Memory ordering (arm64_lifter_tso.go): the acquire loads, release stores, fenced accesses and
    locked operations that a thread's guest accesses become keep the orders that x86-TSO keeps (section
    8.2 of volume 3A of the Intel SDM, 9.2 in newer editions), all but one. */
module Tso {
  import opened Words
  import opened Steps
  import opened ShiftMath
  import opened ShiftSim
  import opened SimShift

  // ---- accesses that cross a 16-byte boundary -----------------------------------------------------

  /** The emitted test: bit 4 of (addr + size - 1) EOR addr. */
  predicate TestBit4(addr: Word, size: nat)
    requires 0 < size
  {
    Bit(Bw(BXor, Trunc(addr + size - 1, S64), addr), 4)
  }

  /** The first and the last byte are in different 16-byte granules; addresses wrap at 2^64. */
  predicate Crosses(addr: Word, size: nat)
    requires 0 < size
  {
    Trunc(addr + size - 1, S64) / 16 != addr / 16
  }

  lemma Bit4(v: int)
    ensures Bit(v, 4) <==> v / 16 % 2 == 1
  {
    Lsr4(v);
  }

  /** The test is exact for accesses of up to 16 bytes. */
  lemma TestExact(addr: Word, size: nat)
    requires 0 < size <= 16
    ensures TestBit4(addr, size) <==> Crosses(addr, size)
  {
    hide Bw, Bit, Trunc;
    var last := Trunc(addr + size - 1, S64);
    BwBit(BXor, last, addr, 4);
    Bit4(last);
    Bit4(addr);
    LastGranule(addr, size);
  }

  lemma LastGranule(addr: Word, size: nat)
    requires 0 < size <= 16
    ensures var last := Trunc(addr + size - 1, S64);
      last / 16 == addr / 16 || last / 16 % 2 != addr / 16 % 2
  {
    var sum := addr + size - 1;
    if sum >= Cap(S64) {
      assert Trunc(sum, S64) == sum - Cap(S64);
      assert addr / 16 == 0xfff_ffff_ffff_ffff;
    } else {
      TruncSmall(sum, S64);
    }
  }

  // ---- events ------------------------------------------------------------------------------------------

  /** The ARM memory events and barriers: LDAPR, STLR, plain LDR and STR, LDAXR, STLXR, an
      acquire-release atomic that writes, a CASAL that does not, DMB ISHLD and DMB ISH. */
  datatype Event = LDAPR | STLR | LDR | STR | LDAXR | STLXR | ATOMIC | FAILED | DMBLD | DMB

  predicate IsLoad(e: Event) { e == LDAPR || e == LDR || e == LDAXR || e == ATOMIC || e == FAILED }
  predicate Acquires(e: Event) { e == LDAPR || e == LDAXR || e == ATOMIC || e == FAILED }
  predicate Releases(e: Event) { e == STLR || e == STLXR || e == ATOMIC }
  /** Acquires that also stay behind earlier releases (all but LDAPR). */
  predicate AcquiresSC(e: Event) { e == LDAXR || e == ATOMIC || e == FAILED }
  predicate IsAccess(e: Event) { e != DMB && e != DMBLD }

  /** The order of two accesses of one thread that every observer sees: barrier-ordered-before of
      the Arm memory model (section B2.3 of the Arm Architecture Reference Manual). */
  ghost predicate Ordered(es: seq<Event>, p: nat, q: nat) {
    && p < q < |es| && IsAccess(es[p]) && IsAccess(es[q])
    && (|| Acquires(es[p])
        || Releases(es[q])
        || (Releases(es[p]) && AcquiresSC(es[q]))
        || Between(es, p, q, DMB) || (IsLoad(es[p]) && Between(es, p, q, DMBLD)) || Between(es, p, q, ATOMIC))
  }

  ghost predicate Between(es: seq<Event>, p: nat, q: nat, e: Event) {
    exists r: nat :: p < r < q && r < |es| && es[r] == e
  }

  /** A guest access; crossing says that it took the fenced form (as every access of two or more
      bytes does that crosses a boundary or finds no free register). */
  datatype Guest = Load(crossing: bool) | Store(crossing: bool) | Locked | LockedLoop | FailedCas | Fence

  function Emit(g: Guest): seq<Event> {
    match g
    case Load(crossing) => if crossing then [LDR, DMBLD] else [LDAPR]
    case Store(crossing) => if crossing then [DMB, STR] else [STLR]
    case Locked => [ATOMIC]
    case LockedLoop => [LDAXR, STLXR, DMB]
    case FailedCas => [FAILED, DMB]
    case Fence => [DMB]
  }

  /** Where in its events the access takes effect (for a loop, its store). */
  function Offset(g: Guest): nat {
    match g case Store(crossing) => (if crossing then 1 else 0) case LockedLoop => 1 case _ => 0
  }

  /** The events of the first n accesses. */
  function EmitFirst(gs: seq<Guest>, n: nat): seq<Event>
    requires n <= |gs|
  {
    if n == 0 then [] else EmitFirst(gs, n - 1) + Emit(gs[n - 1])
  }

  function EmitAll(gs: seq<Guest>): seq<Event> { EmitFirst(gs, |gs|) }

  /** The position of access i. */
  function Position(gs: seq<Guest>, i: nat): nat
    requires i < |gs|
  {
    |EmitFirst(gs, i)| + Offset(gs[i])
  }

  /** The events of access i follow those before it. */
  lemma {:induction false} EventsAt(gs: seq<Guest>, i: nat, n: nat, k: nat)
    requires i < n <= |gs| && k < |Emit(gs[i])|
    ensures |EmitFirst(gs, i)| + k < |EmitFirst(gs, n)| && EmitFirst(gs, n)[|EmitFirst(gs, i)| + k] == Emit(gs[i])[k]
    decreases n
  {
    hide Emit;
    if i < n - 1 { EventsAt(gs, i, n - 1, k); }
  }

  lemma {:induction false} StartsGrow(gs: seq<Guest>, i: nat, j: nat)
    requires i <= j <= |gs|
    ensures |EmitFirst(gs, i)| <= |EmitFirst(gs, j)|
    decreases j
  {
    hide Emit;
    if i < j { StartsGrow(gs, i, j - 1); }
  }

  lemma EventAt(gs: seq<Guest>, i: nat, k: nat)
    requires i < |gs| && k < |Emit(gs[i])|
    ensures |EmitFirst(gs, i)| + k < |EmitAll(gs)| && EmitAll(gs)[|EmitFirst(gs, i)| + k] == Emit(gs[i])[k]
  {
    hide Emit, EmitFirst;
    EventsAt(gs, i, |gs|, k);
  }

  // ---- what x86-TSO keeps ----------------------------------------------------------------------------

  predicate Barrier(g: Guest) { g == Locked || g == LockedLoop || g == FailedCas || g == Fence }

  /** Accesses stay in order, except that a load may pass an earlier store when no barrier is between
      them. A failed compare-and-swap is locked too, and passes nothing. */
  ghost predicate TsoOrdered(gs: seq<Guest>, i: nat, j: nat) {
    && i < j < |gs| && gs[i] != Fence && gs[j] != Fence
    && (!(gs[i].Store? && gs[j].Load?) || exists k :: i < k < j && Barrier(gs[k]))
  }

  lemma Apart(gs: seq<Guest>, i: nat, j: nat)
    requires i < j < |gs|
    ensures |EmitFirst(gs, i)| + |Emit(gs[i])| <= |EmitFirst(gs, j)|
  {
    hide Emit, EmitFirst;
    NextFirst(gs, i);
    StartsGrow(gs, i + 1, j);
  }

  lemma NextFirst(gs: seq<Guest>, i: nat)
    requires i < |gs|
    ensures |EmitFirst(gs, i + 1)| == |EmitFirst(gs, i)| + |Emit(gs[i])|
  {
    hide Emit;
    assert EmitFirst(gs, i + 1) == EmitFirst(gs, i) + Emit(gs[i]);
  }

  /** The barrier event of a barrier. */
  function BarrierOffset(g: Guest): nat
    requires Barrier(g)
  {
    match g case LockedLoop => 2 case FailedCas => 1 case _ => 0
  }

  lemma EventKinds(g: Guest)
    ensures g != Fence ==> Offset(g) < |Emit(g)| && IsAccess(Emit(g)[Offset(g)])
    ensures Barrier(g) ==> BarrierOffset(g) < |Emit(g)| && Offset(g) <= BarrierOffset(g)
    ensures Barrier(g) ==> Emit(g)[BarrierOffset(g)] == if g == Locked then ATOMIC else DMB
    ensures g == Load(false) || g == Locked || g == FailedCas ==> Acquires(Emit(g)[Offset(g)])
    ensures g == Store(false) || g == Locked || g == LockedLoop ==> Releases(Emit(g)[Offset(g)])
    ensures g == Load(true) ==> |Emit(g)| == 2 && Offset(g) == 0 && IsLoad(Emit(g)[0]) && Emit(g)[1] == DMBLD
    ensures g == Store(true) ==> Offset(g) == 1 && Emit(g)[0] == DMB
    ensures g == FailedCas ==> AcquiresSC(Emit(g)[Offset(g)])
  {
  }

  lemma BarrierBetween(gs: seq<Guest>, i: nat, k: nat, j: nat)
    requires i < k < j < |gs| && Barrier(gs[k]) && gs[i] != Fence && gs[j] != Fence
    ensures Ordered(EmitAll(gs), Position(gs, i), Position(gs, j))
  {
    hide EmitAll, EmitFirst, Emit, Offset;
    EventKinds(gs[i]);
    EventKinds(gs[k]);
    EventKinds(gs[j]);
    var es, r := EmitAll(gs), |EmitFirst(gs, k)| + BarrierOffset(gs[k]);
    Apart(gs, i, k);
    Apart(gs, k, j);
    EventAt(gs, i, Offset(gs[i]));
    EventAt(gs, k, BarrierOffset(gs[k]));
    EventAt(gs, j, Offset(gs[j]));
    assert es[r] == (if gs[k] == Locked then ATOMIC else DMB);
    assert Between(es, Position(gs, i), Position(gs, j), es[r]);
  }

  // ---- what the emitted code keeps --------------------------------------------------------------------

  /** A full barrier runs between the two: a barrier's own, or the one in front of a fenced store. */
  ghost predicate FullBetween(gs: seq<Guest>, i: nat, j: nat) {
    exists k :: i < k < j && k < |gs| && (Barrier(gs[k]) || gs[k] == Store(true))
  }

  /** The pairs that may be seen out of order: a store and what only reads, with no full barrier between;
      but a release store stays before a failed compare-and-swap. */
  ghost predicate Relaxed(gs: seq<Guest>, i: nat, j: nat)
    requires i < j < |gs|
  {
    && gs[i].Store? && (gs[j].Load? || (gs[j] == FailedCas && gs[i] == Store(true)))
    && !FullBetween(gs, i, j)
  }

  /** Which pairs of accesses the emitted code keeps in order, for sequences of any length. */
  lemma OrderedExactly(gs: seq<Guest>, i: nat, j: nat)
    requires i < j < |gs| && gs[i] != Fence && gs[j] != Fence
    ensures Ordered(EmitAll(gs), Position(gs, i), Position(gs, j)) <==> !Relaxed(gs, i, j)
  {
    hide EmitAll, EmitFirst, Emit, Offset, Ordered;
    if Relaxed(gs, i, j) {
      RelaxedOpen(gs, i, j);
    } else if k :| i < k < j && Barrier(gs[k]) {
      BarrierBetween(gs, i, k, j);
    } else if k :| i < k < j && gs[k] == Store(true) {
      StoreBetween(gs, i, k, j);
    } else {
      NextOrdered(gs, i, j);
    }
  }

  lemma NextOrdered(gs: seq<Guest>, i: nat, j: nat)
    requires i < j < |gs| && gs[i] != Fence && gs[j] != Fence && !Relaxed(gs, i, j) && !FullBetween(gs, i, j)
    ensures Ordered(EmitAll(gs), Position(gs, i), Position(gs, j))
  {
    hide EmitAll, EmitFirst, Emit, Offset;
    EventKinds(gs[i]);
    EventKinds(gs[j]);
    var es, p, q := EmitAll(gs), Position(gs, i), Position(gs, j);
    Apart(gs, i, j);
    EventAt(gs, i, Offset(gs[i]));
    EventAt(gs, j, Offset(gs[j]));
    if gs[i] == Load(true) {
      EventAt(gs, i, 1);
      assert Between(es, p, q, DMBLD);
    } else if gs[i] == LockedLoop || gs[i] == FailedCas {
      EventAt(gs, i, BarrierOffset(gs[i]));
      assert Between(es, p, q, DMB);
    } else if gs[j] == Store(true) {
      EventAt(gs, j, 0);
      assert Between(es, p, q, DMB);
    }
  }

  lemma StoreBetween(gs: seq<Guest>, i: nat, k: nat, j: nat)
    requires i < k < j < |gs| && gs[k] == Store(true) && gs[i] != Fence && gs[j] != Fence
    ensures Ordered(EmitAll(gs), Position(gs, i), Position(gs, j))
  {
    hide EmitAll, EmitFirst, Emit, Offset;
    EventKinds(gs[i]);
    EventKinds(gs[k]);
    EventKinds(gs[j]);
    Apart(gs, i, k);
    Apart(gs, k, j);
    EventAt(gs, i, Offset(gs[i]));
    EventAt(gs, k, 0);
    EventAt(gs, j, Offset(gs[j]));
    var es, r := EmitAll(gs), |EmitFirst(gs, k)|;
    assert es[r] == DMB;
    assert Between(es, Position(gs, i), Position(gs, j), DMB);
  }

  /** The access that an event belongs to. */
  lemma {:induction false} EventOf(gs: seq<Guest>, a: nat, b: nat, r: nat) returns (k: nat, n: nat)
    requires a <= b <= |gs| && |EmitFirst(gs, a)| <= r < |EmitFirst(gs, b)|
    ensures a <= k < b && r == |EmitFirst(gs, k)| + n && n < |Emit(gs[k])|
    decreases b
  {
    hide Emit;
    if |EmitFirst(gs, b - 1)| <= r {
      k, n := b - 1, r - |EmitFirst(gs, b - 1)|;
    } else {
      k, n := EventOf(gs, a, b - 1, r);
    }
  }

  lemma RelaxedEvents(g: Guest)
    ensures g.Store? ==> |Emit(g)| == Offset(g) + 1
    ensures g == Store(false) ==> Emit(g) == [STLR]
    ensures g == Store(true) ==> Emit(g) == [DMB, STR]
    ensures g.Load? || g == FailedCas ==> Offset(g) == 0 && Emit(g)[0] in [LDAPR, LDR, FAILED]
    ensures g.Load? ==> Emit(g)[0] != FAILED
    ensures !Barrier(g) && g != Store(true) ==> DMB !in Emit(g) && ATOMIC !in Emit(g)
  {
  }

  lemma RelaxedOpen(gs: seq<Guest>, i: nat, j: nat)
    requires i < j < |gs| && Relaxed(gs, i, j)
    ensures !Ordered(EmitAll(gs), Position(gs, i), Position(gs, j))
  {
    hide EmitAll, EmitFirst, Emit, Offset;
    var es, p, q := EmitAll(gs), Position(gs, i), Position(gs, j);
    RelaxedEvents(gs[i]);
    RelaxedEvents(gs[j]);
    EventKinds(gs[i]);
    EventKinds(gs[j]);
    EventAt(gs, i, Offset(gs[i]));
    EventAt(gs, j, Offset(gs[j]));
    NextFirst(gs, i);
    forall r: nat | p < r < q && r < |es|
      ensures es[r] != DMB && es[r] != ATOMIC
    {
      var k, n := EventOf(gs, i + 1, j, r);
      RelaxedEvents(gs[k]);
      EventAt(gs, k, n);
    }
  }

  /** Of the pairs that x86-TSO keeps, the emitted code keeps all but one kind: a fenced store and a
      failed compare-and-swap with no full barrier between, of which the read may come first. */
  lemma TsoKept(gs: seq<Guest>, i: nat, j: nat)
    requires TsoOrdered(gs, i, j)
    ensures Ordered(EmitAll(gs), Position(gs, i), Position(gs, j))
      <==> !(gs[i] == Store(true) && gs[j] == FailedCas && !FullBetween(gs, i, j))
  {
    hide EmitAll, EmitFirst, Emit, Offset, Ordered;
    OrderedExactly(gs, i, j);
  }

  /** A failed compare-and-swap keeps every earlier access before every later one. */
  lemma FailedCasIsBarrier(gs: seq<Guest>, i: nat, k: nat, j: nat)
    requires i < k < j < |gs| && gs[k] == FailedCas && gs[i] != Fence && gs[j] != Fence
    ensures Ordered(EmitAll(gs), Position(gs, i), Position(gs, j))
  {
    BarrierBetween(gs, i, k, j);
  }

  /** Its own read stays behind an earlier store exactly when the store is a release store or a full
      barrier runs between. */
  lemma FailedCasRead(gs: seq<Guest>, i: nat, j: nat)
    requires i < j < |gs| && gs[i].Store? && gs[j] == FailedCas
    ensures TsoOrdered(gs, i, j)
    ensures Ordered(EmitAll(gs), Position(gs, i), Position(gs, j)) <==> gs[i] == Store(false) || FullBetween(gs, i, j)
  {
    hide EmitAll, EmitFirst, Emit, Offset, Ordered;
    OrderedExactly(gs, i, j);
  }

  /** A later load passes a store exactly when no full barrier runs between: where x86 allows it, except
      that a fenced store between them keeps them in order too. */
  lemma StoreLoadRelaxed(gs: seq<Guest>, i: nat, j: nat)
    requires i < j < |gs| && gs[i].Store? && gs[j].Load?
    ensures Ordered(EmitAll(gs), Position(gs, i), Position(gs, j)) <==> FullBetween(gs, i, j)
    ensures !TsoOrdered(gs, i, j) && !(exists k :: i < k < j && gs[k] == Store(true))
      ==> !Ordered(EmitAll(gs), Position(gs, i), Position(gs, j))
  {
    hide EmitAll, EmitFirst, Emit, Offset, Ordered;
    OrderedExactly(gs, i, j);
  }
}
