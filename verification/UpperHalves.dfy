/** fixUpperHalves (arm64_lifter.go): v16 to v31 hold the upper halves of the guest's YMM registers,
    and lowerings also use them as scratch. Scratch registers that collide with an operand's upper
    half are renamed, and in a function with YMM code every other upper half is saved and restored. */
module UpperHalves {
  import opened Guest

  type Val = nat

  /** A register as the lowering names it: a scratch register, or the upper half of a YMM operand. */
  datatype Name = Scratch(n: nat) | Upper(n: nat)

  /** What a line computes from its sources and from everything else (low halves, memory, general
      registers): a value, the rest, and the line to go to. */
  datatype Result = Result(v: Val, rest: nat, next: nat)

  datatype Line = Line(dst: Option<Name>, srcs: seq<Name>, f: (seq<Val>, nat) -> Result)

  /** A register mask: entry n is for v(16 + n). */
  type Mask = m: seq<bool> | |m| == 16 witness seq(16, _ => false)

  predicate In(m: Mask, n: nat) { n < 16 && m[n] }

  predicate Uses(code: seq<Line>, scratch: Mask, opnd: Mask) {
    forall i :: 0 <= i < |code| ==> LineUses(code[i], scratch, opnd)
  }

  predicate LineUses(l: Line, scratch: Mask, opnd: Mask) {
    && (l.dst.Some? ==> NameIn(l.dst.value, scratch, opnd))
    && forall k :: 0 <= k < |l.srcs| ==> NameIn(l.srcs[k], scratch, opnd)
  }

  predicate NameIn(x: Name, scratch: Mask, opnd: Mask) {
    match x case Scratch(n) => In(scratch, n) case Upper(n) => In(opnd, n)
  }

  // ---- renaming ------------------------------------------------------------------------------------

  /** Where each scratch register goes; n stays where entry n is n. */
  type Renaming = r: seq<nat> | |r| == 16 witness seq(16, n => n)

  /** The register a name stands for in the emitted code. */
  function Real(x: Name, rename: Renaming): nat {
    match x case Scratch(n) => (if n < 16 then rename[n] else n) case Upper(n) => n
  }

  function Count(m: seq<bool>): nat { if m == [] then 0 else Count(m[1..]) + (if m[0] then 1 else 0) }

  lemma {:induction false} CountCleared(m: seq<bool>, k: nat)
    requires k < |m| && m[k]
    ensures Count(m) > 0 && Count(m[k := false]) == Count(m) - 1
  {
    if k > 0 {
      CountCleared(m[1..], k - 1);
      assert m[k := false][1..] == m[1..][k - 1 := false];
    } else {
      assert m[0 := false][1..] == m[1..];
    }
  }

  lemma {:induction false} CountNone(m: seq<bool>)
    requires forall k :: 0 <= k < |m| ==> !m[k]
    ensures Count(m) == 0
  {
    if m != [] { CountNone(m[1..]); }
  }

  lemma {:induction false} CountLast(m: seq<bool>, n: nat)
    requires n < |m|
    ensures Count(m[..n + 1]) == Count(m[..n]) + (if m[n] then 1 else 0)
  {
    if n == 0 {
      assert m[..1] == [m[0]] && m[..0] == [];
    } else {
      CountLast(m[1..], n - 1);
      assert m[..n + 1][1..] == m[1..][..n] && m[..n][1..] == m[1..][..n - 1];
    }
  }

  function Both(p: Mask, q: Mask): Mask { seq(16, n requires 0 <= n < 16 => p[n] && q[n]) }

  function Neither(p: Mask, q: Mask): Mask { seq(16, n requires 0 <= n < 16 => !p[n] && !q[n]) }

  /** Renamed registers collide, and go to registers that are neither used nor reserved; no two used
      registers end in the same place. */
  ghost predicate RenamedWell(rename: Renaming, used: Mask, reserved: Mask) {
    && (forall n :: 0 <= n < 16 && rename[n] != n
          ==> used[n] && reserved[n] && rename[n] < 16 && !used[rename[n]] && !reserved[rename[n]])
    && (forall p, q :: 0 <= p < 16 && 0 <= q < 16 && used[p] && used[q] && rename[p] == rename[q] ==> p == q)
  }

  ghost predicate AllRenamed(rename: Renaming, used: Mask, reserved: Mask) {
    forall n :: 0 <= n < 16 && used[n] && reserved[n] ==> rename[n] != n
  }

  /** The highest free register, or none. */
  method Highest(free: Mask) returns (m: int)
    ensures -1 <= m < 16 && (m >= 0 ==> free[m]) && (m < 0 ==> Count(free) == 0)
    ensures forall k :: m < k < 16 ==> !free[k]
  {
    m := 15;
    while m >= 0 && !free[m]
      invariant -1 <= m < 16 && forall k :: m < k < 16 ==> !free[k]
      decreases m
    {
      m := m - 1;
    }
    if m < 0 { CountNone(free); }
  }

  /** Free registers are unused, unreserved and not yet taken. */
  ghost predicate StillFree(free: Mask, rename: Renaming, used: Mask, reserved: Mask) {
    forall k :: 0 <= k < 16 && free[k] ==>
      !used[k] && !reserved[k] && forall p :: 0 <= p < 16 ==> rename[p] != k || p == k
  }

  lemma TakeOne(free: Mask, rename: Renaming, used: Mask, reserved: Mask, n: nat, m: nat)
    requires n < 16 && m < 16 && free[m] && used[n] && reserved[n] && rename[n] == n
    requires RenamedWell(rename, used, reserved) && StillFree(free, rename, used, reserved)
    ensures m != n && RenamedWell(rename[n := m], used, reserved)
      && StillFree(free[m := false], rename[n := m], used, reserved)
  {
  }

  /** Step 1: each scratch register that is reserved gets the highest free one. The mask of registers
      in use is updated in place. */
  method RenameScratch(used: Mask, reserved: Mask) returns (rename: Renaming, scratch: Mask)
    ensures RenamedWell(rename, used, reserved)
    ensures AllRenamed(rename, used, reserved) <==> Count(Both(used, reserved)) <= Count(Neither(used, reserved))
    ensures forall k :: 0 <= k < 16 ==> scratch[k] == exists n :: 0 <= n < 16 && used[n] && rename[n] == k
  {
    hide Count, RenamedWell, StillFree, Both, Neither;
    rename, scratch := seq(16, n => n), used;
    var free := Neither(used, reserved);
    ghost var collide, missed: nat, taken: nat := Both(used, reserved), 0, 0;
    StartRenaming(used, reserved);
    var n := 0;
    while n < 16
      invariant 0 <= n <= 16 && RenamedWell(rename, used, reserved) && StillFree(free, rename, used, reserved)
      invariant forall k :: n <= k < 16 ==> rename[k] == k
      invariant forall k :: 0 <= k < 16 ==> scratch[k] == exists p :: 0 <= p < 16 && used[p] && rename[p] == k
      invariant Count(collide[..n]) == taken + missed && Count(free) + taken == Count(Neither(used, reserved))
      invariant missed > 0 ==> Count(free) == 0
      invariant missed == 0 <==> forall k :: 0 <= k < n && used[k] && reserved[k] ==> rename[k] != k
    {
      CountLast(collide, n);
      BothAt(used, reserved, n);
      if used[n] && reserved[n] {
        var m := Highest(free);
        if m >= 0 {
          TakeOne(free, rename, used, reserved, n, m);
          CountCleared(free, m);
          MoveScratch(scratch, rename, used, reserved, free, n, m);
          free := free[m := false];
          rename := rename[n := m];
          scratch := scratch[n := false][m := true];
          taken := taken + 1;
        } else {
          missed := missed + 1;
        }
      }
      n := n + 1;
    }
    assert collide[..16] == collide;
  }

  lemma BothAt(p: Mask, q: Mask, n: nat)
    requires n < 16
    ensures Both(p, q)[n] == (p[n] && q[n])
  {
  }

  lemma StartRenaming(used: Mask, reserved: Mask)
    ensures RenamedWell(seq(16, n => n), used, reserved)
      && StillFree(Neither(used, reserved), seq(16, n => n), used, reserved)
    ensures Count([]) == 0
  {
  }

  lemma MoveScratch(scratch: Mask, rename: Renaming, used: Mask, reserved: Mask, free: Mask, n: nat, m: nat)
    requires n < 16 && m < 16 && free[m] && used[n] && reserved[n] && rename[n] == n
    requires RenamedWell(rename, used, reserved) && StillFree(free, rename, used, reserved)
    requires forall k :: 0 <= k < 16 ==> scratch[k] == exists p :: 0 <= p < 16 && used[p] && rename[p] == k
    ensures var r, s := rename[n := m], scratch[n := false][m := true];
      forall k :: 0 <= k < 16 ==> s[k] == exists p :: 0 <= p < 16 && used[p] && r[p] == k
  {
    var r, s := rename[n := m], scratch[n := false][m := true];
    forall k | 0 <= k < 16
      ensures s[k] == exists p :: 0 <= p < 16 && used[p] && r[p] == k
    {
      if k == m {
        assert r[n] == k;
      } else if k != n && scratch[k] {
        var p :| 0 <= p < 16 && used[p] && rename[p] == k;
        assert r[p] == k;
      }
    }
  }

  // ---- running the code -------------------------------------------------------------------------------

  /** With separate registers for scratch and upper halves. */
  datatype Separate = Separate(pc: nat, s: nat -> Val, u: nat -> Val, rest: nat)

  /** With v16 to v31. */
  datatype Machine = Machine(pc: nat, v: nat -> Val, rest: nat)

  function Put(v: nat -> Val, n: nat, x: Val): nat -> Val { (k: nat) => if k == n then x else v(k) }

  function Look(a: Separate, x: Name): Val { match x case Scratch(n) => a.s(n) case Upper(n) => a.u(n) }

  function SeparateStep(code: seq<Line>, a: Separate): Separate {
    if a.pc >= |code| then a
    else
      var l := code[a.pc];
      var r := l.f(seq(|l.srcs|, k requires 0 <= k < |l.srcs| => Look(a, l.srcs[k])), a.rest);
      match l.dst
      case None => a.(pc := r.next, rest := r.rest)
      case Some(Scratch(n)) => Separate(r.next, Put(a.s, n, r.v), a.u, r.rest)
      case Some(Upper(n)) => Separate(r.next, a.s, Put(a.u, n, r.v), r.rest)
  }

  function LookReal(m: Machine, x: Name, rename: Renaming): Val { m.v(Real(x, rename)) }

  function MachineStep(code: seq<Line>, rename: Renaming, m: Machine): Machine {
    if m.pc >= |code| then m
    else
      var l := code[m.pc];
      var r := l.f(seq(|l.srcs|, k requires 0 <= k < |l.srcs| => LookReal(m, l.srcs[k], rename)), m.rest);
      match l.dst
      case None => m.(pc := r.next, rest := r.rest)
      case Some(x) => Machine(r.next, Put(m.v, Real(x, rename), r.v), r.rest)
  }

  function SeparateRun(code: seq<Line>, a: Separate, n: nat): Separate {
    if n == 0 then a else SeparateStep(code, SeparateRun(code, a, n - 1))
  }

  function MachineRun(code: seq<Line>, rename: Renaming, m: Machine, n: nat): Machine {
    if n == 0 then m else MachineStep(code, rename, MachineRun(code, rename, m, n - 1))
  }

  /** Scratch registers and operand halves have registers of their own. */
  ghost predicate Apart(scratch: Mask, opnd: Mask, rename: Renaming) {
    forall x: Name, y: Name ::
      NameIn(x, scratch, opnd) && NameIn(y, scratch, opnd) && Real(x, rename) == Real(y, rename) ==> x == y
  }

  ghost predicate Same(a: Separate, m: Machine, scratch: Mask, opnd: Mask, rename: Renaming) {
    && a.pc == m.pc && a.rest == m.rest
    && forall x: Name :: NameIn(x, scratch, opnd) ==> Look(a, x) == m.v(Real(x, rename))
  }

  /** Registers that no name of the code stands for. */
  ghost predicate Untouched(v: nat -> Val, w: nat -> Val, scratch: Mask, opnd: Mask, rename: Renaming) {
    forall n: nat :: (forall x: Name :: NameIn(x, scratch, opnd) ==> Real(x, rename) != n) ==> w(n) == v(n)
  }

  lemma StepSame(code: seq<Line>, a: Separate, m: Machine, scratch: Mask, opnd: Mask, rename: Renaming)
    requires Uses(code, scratch, opnd) && Apart(scratch, opnd, rename) && Same(a, m, scratch, opnd, rename)
    ensures Same(SeparateStep(code, a), MachineStep(code, rename, m), scratch, opnd, rename)
    ensures Untouched(m.v, MachineStep(code, rename, m).v, scratch, opnd, rename)
  {
    if a.pc < |code| {
      var l := code[a.pc];
      var p := seq(|l.srcs|, k requires 0 <= k < |l.srcs| => Look(a, l.srcs[k]));
      var q := seq(|l.srcs|, k requires 0 <= k < |l.srcs| => LookReal(m, l.srcs[k], rename));
      assert LineUses(l, scratch, opnd);
      assert p == q;
    }
  }

  /** The renamed code does what the code with separate registers does, for any number of steps. */
  lemma {:induction false} RunSame(code: seq<Line>, a: Separate, m: Machine, n: nat, scratch: Mask, opnd: Mask,
                                   rename: Renaming)
    requires Uses(code, scratch, opnd) && Apart(scratch, opnd, rename) && Same(a, m, scratch, opnd, rename)
    ensures Same(SeparateRun(code, a, n), MachineRun(code, rename, m, n), scratch, opnd, rename)
    ensures Untouched(m.v, MachineRun(code, rename, m, n).v, scratch, opnd, rename)
  {
    hide Same, Apart, Uses;
    if n > 0 {
      RunSame(code, a, m, n - 1, scratch, opnd, rename);
      StepSame(code, SeparateRun(code, a, n - 1), MachineRun(code, rename, m, n - 1), scratch, opnd, rename);
    }
  }

  /** With enough free registers the renaming keeps all registers of the code apart. */
  lemma RenamedApart(used: Mask, opnd: Mask, reserved: Mask, rename: Renaming)
    requires RenamedWell(rename, used, reserved) && AllRenamed(rename, used, reserved)
    requires forall n :: 0 <= n < 16 && opnd[n] ==> reserved[n]
    ensures Apart(used, opnd, rename)
  {
  }

  // ---- saving and restoring -----------------------------------------------------------------------------

  /** STP and STR push the registers in order, a pair at a time. */
  function Save(v: nat -> Val, regs: seq<nat>, stack: seq<Val>): seq<Val>
    decreases |regs|
  {
    if regs == [] then stack
    else if |regs| == 1 then [v(regs[0])] + stack
    else Save(v, regs[2..], [v(regs[0]), v(regs[1])] + stack)
  }

  /** LDP and LDR pop them in the opposite order. */
  function Restore(v: nat -> Val, regs: seq<nat>, stack: seq<Val>): (nat -> Val, seq<Val>)
    requires |stack| >= |regs|
    ensures |Restore(v, regs, stack).1| == |stack| - |regs|
    decreases |regs|
  {
    if regs == [] then (v, stack)
    else if |regs| == 1 then (Put(v, regs[0], stack[0]), stack[1..])
    else
      var (w, rest) := Restore(v, regs[2..], stack);
      (Put(Put(w, regs[0], rest[0]), regs[1], rest[1]), rest[2..])
  }

  lemma {:induction false} SaveLength(v: nat -> Val, regs: seq<nat>, stack: seq<Val>)
    ensures |Save(v, regs, stack)| == |stack| + |regs|
    decreases |regs|
  {
    if |regs| >= 2 { SaveLength(v, regs[2..], [v(regs[0]), v(regs[1])] + stack); }
  }

  /** After the restore every saved register has its old value again, the others are as the body left
      them, and the stack is as before. */
  lemma {:induction false} RestoreSaved(v: nat -> Val, w: nat -> Val, regs: seq<nat>, stack: seq<Val>, n: nat)
    ensures |Save(v, regs, stack)| >= |regs|
    ensures var (r, s) := Restore(w, regs, Save(v, regs, stack));
      s == stack && r(n) == if n in regs then v(n) else w(n)
    decreases |regs|
  {
    SaveLength(v, regs, stack);
    if |regs| >= 2 {
      var deeper := [v(regs[0]), v(regs[1])] + stack;
      RestoreSaved(v, w, regs[2..], deeper, n);
      assert deeper[2..] == stack;
      assert regs == [regs[0], regs[1]] + regs[2..];
      assert n in regs <==> n == regs[0] || n == regs[1] || n in regs[2..];
    } else if |regs| == 1 {
      assert ([v(regs[0])] + stack)[1..] == stack;
      assert regs == [regs[0]];
    }
  }

  /** The registers saved around the body in a function with YMM code. */
  ghost predicate Spilled(regs: seq<nat>, scratch: Mask, opnd: Mask, legit: Mask) {
    forall n: nat :: n in regs <==> (In(scratch, n) || In(opnd, n)) && !In(legit, n)
  }

  /** Both steps of fixUpperHalves on the register masks: what is renamed, and what is saved, in rising order,
      if the function has YMM code. */
  method PlanUpperHalves(used: Mask, opnd: Mask, legit: Mask, ymm: bool)
    returns (reserved: Mask, rename: Renaming, scratch: Mask, regs: seq<nat>)
    ensures forall k :: 0 <= k < 16 ==> reserved[k] == (opnd[k] || legit[k])
    ensures RenamedWell(rename, used, reserved)
    ensures AllRenamed(rename, used, reserved) <==> Count(Both(used, reserved)) <= Count(Neither(used, reserved))
    ensures forall k :: 0 <= k < 16 ==> scratch[k] == exists n :: 0 <= n < 16 && used[n] && rename[n] == k
    ensures if ymm then Spilled(regs, scratch, opnd, legit) else regs == []
    ensures forall i, j :: 0 <= i < j < |regs| ==> regs[i] < regs[j]
  {
    hide Count, RenamedWell, AllRenamed, Both, Neither;
    reserved := seq(16, k requires 0 <= k < 16 => opnd[k] || legit[k]);
    rename, scratch := RenameScratch(used, reserved);
    regs := [];
    if ymm {
      var n := 0;
      while n < 16
        invariant 0 <= n <= 16 && (forall i :: 0 <= i < |regs| ==> regs[i] < n)
        invariant forall i, j :: 0 <= i < j < |regs| ==> regs[i] < regs[j]
        invariant forall k: nat :: k in regs <==> k < n && (scratch[k] || opnd[k]) && !legit[k]
      {
        if (scratch[n] || opnd[n]) && !legit[n] { regs := regs + [n]; }
        n := n + 1;
      }
    }
  }

  /** fixUpperHalves as a whole, when there are enough free registers and control stays in the body:
      the legitimate upper halves end as in the code with separate registers, every other register
      v16 to v31 has its old value, and the stack is balanced. */
  lemma FixUpperHalves(code: seq<Line>, a: Separate, v: nat -> Val, rest: nat, stack: seq<Val>, n: nat, used: Mask,
                       opnd: Mask, legit: Mask, reserved: Mask, rename: Renaming, scratch: Mask, regs: seq<nat>, x: nat)
    requires Uses(code, used, opnd) && (forall k :: 0 <= k < 16 ==> reserved[k] == (opnd[k] || legit[k]))
    requires RenamedWell(rename, used, reserved) && Count(Both(used, reserved)) <= Count(Neither(used, reserved))
    requires AllRenamed(rename, used, reserved) <==> Count(Both(used, reserved)) <= Count(Neither(used, reserved))
    requires forall k :: 0 <= k < 16 ==> scratch[k] == exists p :: 0 <= p < 16 && used[p] && rename[p] == k
    requires Spilled(regs, scratch, opnd, legit)
    requires a.pc == 0 && a.rest == rest
      && (forall y: Name :: NameIn(y, used, opnd) ==> Look(a, y) == v(Real(y, rename)))
    ensures |Save(v, regs, stack)| >= |regs|
    ensures var e := SeparateRun(code, a, n); var m := MachineRun(code, rename, Machine(0, v, rest), n);
      var (r, s) := Restore(m.v, regs, Save(v, regs, stack));
      && s == stack && m.rest == e.rest && m.pc == e.pc
      && r(x) == if In(legit, x) && In(opnd, x) then e.u(x) else v(x)
  {
    hide Count, Both, Neither;
    RenamedApart(used, opnd, reserved, rename);
    var m0 := Machine(0, v, rest);
    RunSame(code, a, m0, n, used, opnd, rename);
    var m := MachineRun(code, rename, m0, n);
    RestoreSaved(v, m.v, regs, stack, x);
    if In(legit, x) && In(opnd, x) {
      assert NameIn(Upper(x), used, opnd) && Real(Upper(x), rename) == x;
    } else if x !in regs {
      NotNamed(used, opnd, legit, reserved, rename, scratch, x);
    }
  }

  lemma NotNamed(used: Mask, opnd: Mask, legit: Mask, reserved: Mask, rename: Renaming, scratch: Mask, x: nat)
    requires RenamedWell(rename, used, reserved) && AllRenamed(rename, used, reserved)
    requires forall k :: 0 <= k < 16 ==> reserved[k] == (opnd[k] || legit[k])
    requires forall k :: 0 <= k < 16 ==> scratch[k] == exists p :: 0 <= p < 16 && used[p] && rename[p] == k
    requires !(In(legit, x) && In(opnd, x)) && !((In(scratch, x) || In(opnd, x)) && !In(legit, x))
    ensures forall y: Name :: NameIn(y, used, opnd) ==> Real(y, rename) != x
  {
    forall y: Name | NameIn(y, used, opnd)
      ensures Real(y, rename) != x
    {
      if y.Scratch? && rename[y.n] < 16 { assert scratch[rename[y.n]]; }
    }
  }
}
