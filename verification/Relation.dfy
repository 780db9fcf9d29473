/** The simulation relation between a guest state and a host state. */
module Relation {
  import opened Words
  import opened Guest
  import X86
  import opened Arm
  import opened Lifter
  import opened Effects
  import opened Operands
  import opened Flags

  /** The guest CF that C encodes in the sense pol. */
  function CarryOf(c: bool, pol: Pol): bool {
    match pol case CarrySub => !c case CarryAdd => c case CarryClear => false
  }

  /** The x86 flags a host state shows: the oracle for undefined flags. */
  function Seen(a: State, pol: Pol): X86.Flags {
    X86.Flags(a.n, a.z, CarryOf(a.c, pol), a.v)
  }

  /** The live flags are right: N = SF, Z = ZF, V = OF, and C holds CF in the sense pol. */
  predicate FlagsOk(f: X86.Flags, a: State, pol: Pol, live: Live) {
    && (live.nz ==> a.n == f.sf && a.z == f.zf)
    && (live.of ==> a.v == f.of)
    && (live.cf ==> CarryOf(a.c, pol) == f.cf && (pol == CarryClear ==> !a.c))
  }

  /** The notes of an instruction are right for the flags live after it. */
  predicate NotesOk(notes: Notes, out: Live) {
    && notes.carryDead == !out.cf
    && notes.overflowDead == !out.of
    && (notes.skip ==> !out.nz && !out.cf && !out.of)
  }

  ghost predicate Related(x: X86.State, a: State, pol: Pol, live: Live) {
    Agree(x, a) && FlagsOk(x.f, a, pol, live)
  }

  /** Running the code from a ends in a state related to what i does to x, with the flags the
      host shows for the undefined ones. */
  ghost predicate Simulated(i: X86.Instr, x: X86.State, a: State, low: Lowered, out: Live) {
    var b := Exec(low.code, a);
    Related(X86.Eval(i, x, Seen(b, low.pol)), b, low.pol, out)
  }
}
