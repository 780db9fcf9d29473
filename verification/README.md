# Model of an x86-64 to ARM64 translation pipeline

PS4Recomp translates x86-64 programs to ARM64 assembly ahead of time. This project models the integer part of
that translator and the algorithms around it, and proves that the emitted code does what the guest code did.

Two machines are given by evaluators: the guest (`X86.dfy`: registers, memory, CF, ZF, SF, OF, an oracle for the flags
x86 leaves undefined) and the host (`Arm.dfy`: guest registers, scratch registers, N, Z, C, V). Emitted lines are
instructions of the second one. Between them:

- `Lifter.dfy` lowers one guest instruction. ARM C holds x86 CF in one of three senses that the lifter tracks. The `Sim*`
  modules and `LiftSim.dfy` prove each lowering, `Effects.dfy` and `Liveness.dfy` the two flag passes that let it drop work;
  `EffectsExact.dfy` proves their tables exact.
- `Blocks.dfy` recovers the blocks of a function from its bytes, `Emission.dfy` emits them in address order,
  `Layout.dfy` says where everything is, and `Simulation.dfy` proves whole runs. `Pipeline.dfy` puts them together.
- `IndexScan.dfy` and `JumpTable.dfy` prove the bound that the backward search finds for a jump-table index.
- `Locked.dfy`, `LockedSim.dfy` and `LockedRun.dfy` prove the locked instructions atomic in any interleaving of threads;
  `Tso.dfy` says exactly which accesses stay in order, against x86-TSO, and `LockedOrder.dfy` that the lowered
  instructions perform the accesses and barriers that this is about.
- `Remainder.dfy`, `Extended.dfy` and `ExtendedValue.dfy` hold the bit-level x87 algorithms, `RepStrings.dfy` and
  `RepCopies.dfy` the REP loops (with `Bytes.dfy`, memory byte by byte),
  `UpperHalves.dfy` the renaming of YMM upper halves, `Ranges.dfy` and `Tls.dfy` two parts of the ELF loader.

The relation behind the main results (`Relation.dfy`, `Simulation.Matches`): guest registers and memory are equal, N = SF,
Z = ZF and V = OF where they are live, and C encodes CF in the tracked sense where CF is live; at every block start
the sense is C = !CF. `LiftSim.LiftOk` is the step, `Liveness.NotesRight` justifies what the lifter skips,
`Simulation.WholeRun` is the sum of them. Flags that x86 leaves undefined are not constrained: a run is matched for
the values that the host shows.

Methods with loops or field updates follow the original where it works in place (the lifter's `cpol`, the
decode worklist, the flag passes, the search over predecessor edges, the merge and TLS loops), each against a function or
relation that the lemmas are about.

Found false of the code, with the condition under which it holds: the bound from a SUB (`IndexScan.SubtractExactly`), from
a narrow comparison or mask (`IndexScan.CheckExactly`, `IndexScan.MaskExactly`) and at an entry that is a branch target
(`JumpTable.EntryExactly`, with an example in `JumpTable.EntryTargetUnbounded`); the order of a failed compare-and-swap
(`Tso.FailedCasRead`); the exactness of the effect tables for three kinds of instruction (`EffectsExact.LiveExactly`,
`EffectsExact.ReadsExactly`; they only cost code); lookups among nested extents (`Ranges.NestedMissed`); TLS offsets that wrap (`Tls.StackedExactly`).

## Model

| member | source | states |
|---|---|---|
| Simulation.WholeRun | pkg/lifter/arm64_lifter.go:196-293 | Every run of a translated function, of any length n, is a run of its emitted code: for n guest instructions there are values for the flags x86 leaves undefined such that the host gets to a state with the same registers, memory and place in the code, live flags right (N = SF, Z = ZF, V = OF) and C holding CF in the tracked sense; control leaves to the same address or returns |
| Simulation.FunctionRuns | pkg/emitter/asm_emitter.go:437-493 | The same from a call: the first emitted line is the entry of the first block, with C = !CF |
| Simulation.OneStep | pkg/lifter/arm64_lifter.go:931-1997 | One guest instruction, wherever control stands, is matched by finitely many host steps that end at the code of the guest's next instruction or outside the function |
| Simulation.PlainStep | pkg/lifter/arm64_lifter.go:764-778 | An instruction inside a block: the host comes to the next instruction's code in that instruction's tracked sense |
| Simulation.TailStep | pkg/lifter/arm64_lifter.go:274-293 | Falling off a block's end goes to the fall-through address although the next emitted block may be another one, or out of the function |
| Simulation.JccStep | pkg/lifter/arm64_lifter.go:1953-1991 | Near, far and outgoing conditional branches go where the guest goes, on both outcomes, and enter the target in the boundary sense |
| Simulation.JmpStep | pkg/lifter/arm64_lifter.go:1118-1129 | JMP to a block, or out of the function as a tail call |
| Simulation.RetStep | pkg/lifter/arm64_lifter.go:1234-1239 | RET pops the guest stack and returns, SF and ZF still right |
| Simulation.BoundaryOk | pkg/lifter/arm64_lifter.go:227-234 | The code at a block's end leaves C = !CF if CF is live, and changes no other live flag |
| Pipeline.TranslateFunction | pkg/disasm/cfg.go:649-1136 | Recovery, both flag passes and emission in one call: the emitted lines are those of a unit that WholeRun is about; the entry comes first; the decoded instructions and the block starts are exactly the right ones, and all of them unless the function reaches the instruction cap |
| Pipeline.SkipInvisible | pkg/disasm/cfg.go:1138-1161 | Leaving out the flag writes of the marked instructions changes nothing that can be seen: before every instruction of the block registers and memory are the same, and the flags wherever they are still needed |
| Pipeline.SkipInvisibleAtEnd | pkg/disasm/cfg.go:1138-1178 | ... and the block ends in the same state, flags included, from any starting flags |
| Pipeline.FlagBlind | pkg/disasm/carry_liveness.go:141-158 | An instruction that readsAnyFlag calls no reader gives the same registers and memory from any flags, and one that definesAllFlags names leaves the same flags |
| Emission.Arm64Lifter.LiftFunction | pkg/emitter/asm_emitter.go:437-493 | The block loop produces the emitted form that WholeRun is about, whatever sense the lifter was left in by an earlier function |
| Emission.Arm64Lifter.LiftBlock | pkg/emitter/asm_emitter.go:443-490 | One block: label, sense reset, each instruction in the sense its predecessor left, boundary code, fall-through branch |
| Emission.Arm64Lifter.LiftInstruction | pkg/lifter/arm64_lifter.go:764-778 | An instruction's code for the tracked sense, and the sense after it |
| Emission.Arm64Lifter.EndBlock | pkg/lifter/arm64_lifter.go:227-234 | Boundary code if CF is not dead, none otherwise; the tracked sense follows |
| Layout.LabelPlace | pkg/lifter/arm64_lifter.go:236-258 | The label of a block is found at the block's place, not at a label of another block or of an instruction |
| Layout.BlockPieces | pkg/emitter/asm_emitter.go:437-493 | Every block's instructions, boundary code and fall-through branch stand one after the other right behind its label |
| Layout.RunDos | pkg/lifter/arm64_lifter.go:764-778 | The host machine, one line at a time, does what the code of a lowering does as a whole |
| Layout.BranchesNear | pkg/lifter/arm64_lifter.go:1963-1985 | No conditional branch of an emitted function goes to a block more than 16384 guest bytes away |
| LiftSim.LiftOk | pkg/lifter/arm64_lifter.go:931-1997 | For every modelled instruction, operand, size, incoming sense and flag notes: from equal registers and memory with the flags live before right, the code ends with equal registers and memory and the flags live after right, under the outgoing sense |
| SimArith.ArithSim | pkg/lifter/arm64_lifter_alu.go:306-460 | ADD, SUB, CMP, AND, OR, XOR, TEST at all sizes, high bytes, memory and immediates included; with SkipFlags no flag is promised |
| Flags.TopAligned | pkg/lifter/arm64_lifter_alu.go:306-460 | 8- and 16-bit ADD/SUB/CMP: SF, ZF, OF, CF of the narrow operands are those of the operands shifted to the top of 32 bits, and the result is the top of that one |
| Flags.AddSubFlags | pkg/lifter/arm64_lifter_alu.go:306-460 | The ARM add-with-carry, in the sense that the operation leaves, shows exactly the x86 flags |
| SimUnary.IncDecSim | pkg/lifter/arm64_lifter_alu.go:511-551 | INC and DEC set all but CF and keep CF under the incoming sense |
| SimUnary.NegSim | pkg/lifter/arm64_lifter_alu.go:553-585 | NEG: CF is set unless the operand is 0 |
| SimUnary.NotSim | pkg/lifter/arm64_lifter_alu.go:553-585 | NOT changes no flag and keeps the sense |
| SimCarry.AdcSbbSim | pkg/lifter/arm64_lifter_alu.go:1304-1491 | ADC and SBB at all sizes from each of the three incoming senses |
| SimCarry.AdcWideOk | pkg/lifter/arm64_lifter_alu.go:1304-1491 | 32- and 64-bit: the carry is first brought into the sense ADCS or SBCS needs; result and all flags are those of the sum with CF |
| SimCarry.AdcNarrowOk | pkg/lifter/arm64_lifter_alu.go:1304-1491 | 8- and 16-bit: the sign-extended sum with SETF and the inserted carry gives the narrow result, SF, ZF, OF and CF |
| Flags.NarrowFlags | pkg/lifter/arm64_lifter_alu.go:1304-1491 | SETF8/SETF16 on a sum of sign-extended operands show the narrow SF, ZF and OF, for either carry in |
| Flags.SIntRange | pkg/lifter/arm64_lifter_alu.go:306-460 | The signed value behind OF is the one number in range that is congruent to the operand |
| SimCarry.CarryOutOk | pkg/lifter/arm64_lifter_alu.go:1304-1491 | A bit above the zero-extended sum is the narrow carry (for SBB its complement) |
| ShiftSim.ShiftSim | pkg/lifter/arm64_lifter_alu.go:587-826 | SHL, SHR, SAR, ROL, ROR by any immediate or CL at all sizes: result, zero-extension, every defined flag, flags untouched on a masked count of 0, and one sense that is right on the skipped and on the executed path |
| ShiftSim.FastExec | pkg/lifter/arm64_lifter_alu.go:587-826 | The branch-free form for 32- and 64-bit operands is only taken where CF and OF are not needed, and gives the shifted value, SF and ZF |
| ShiftMath.ShlClosed | pkg/lifter/arm64_lifter_alu.go:587-826 | n one-bit left shifts are one shift by n, the last bit out is bit size of the unbounded product |
| ShiftMath.SarClosed | pkg/lifter/arm64_lifter_alu.go:587-826 | n one-bit arithmetic shifts are one shift of the signed value, for n up to any count |
| ShiftMath.RolClosed | pkg/lifter/arm64_lifter_alu.go:587-826 | n one-bit left rotates are one rotate right by the negated count; CF is bit 0 of the result |
| ShiftMath.RorClosed | pkg/lifter/arm64_lifter_alu.go:587-826 | n one-bit right rotates are one rotate; CF is the sign bit of the result |
| SimShift.ReplicatedRotate | pkg/lifter/arm64_lifter_alu.go:587-826 | An 8- or 16-bit rotate is the low part of a 32-bit rotate of the replicated operand |
| SimRotCarry.RotCarrySim | pkg/lifter/arm64_lifter_alu.go:2214-2321 | RCL and RCR at all sizes by any count: result, CF, OF where defined, zero-extension on a zero count, outgoing sense |
| RotCarryMath.LeftClosed | pkg/lifter/arm64_lifter_alu.go:2214-2321 | n one-bit rotates left through CF are one rotate of the (size + 1)-bit number CF:v |
| RotCarryMath.RightClosed | pkg/lifter/arm64_lifter_alu.go:2214-2321 | The same to the right |
| RotCarryMath.RotCarryPeriodic | pkg/lifter/arm64_lifter_alu.go:2214-2321 | The count may be taken modulo size + 1 |
| SimBitTest.BitTestSim | pkg/lifter/arm64_lifter_alu.go:1497-1610 | BT, BTS, BTR, BTC with immediate or register offset, register or memory operand |
| SimBitTest.BitAddressOk | pkg/lifter/arm64_lifter_alu.go:1497-1610 | A register offset is signed: a memory bit string is addressed at floor(offset / size), and the bit at offset modulo size |
| SimMove.CondForOk | pkg/lifter/arm64_lifter.go:342-386 | After the code of condFor the ARM condition holds iff the x86 condition does, in every sense; a C already in the boundary sense stays there |
| SimMove.NormalizeOk | pkg/lifter/arm64_lifter.go:217-225 | normalizeCarry brings every sense to C = !CF and touches nothing but C |
| SimMove.FlagsOpSim | pkg/lifter/arm64_lifter_alu.go:2019-2056 | CLC, STC, CMC by the tracked sense, with or without code |
| SimMove.SetccSim | pkg/lifter/arm64_lifter_control.go:10-29 | SETcc writes 1 or 0 by the x86 condition and keeps the flags |
| SimMove.CmovccSim | pkg/lifter/arm64_lifter_control.go:31-85 | CMOVcc, memory source included; a 32-bit form zero-extends even when not taken |
| SimMove.LeaSim | pkg/lifter/arm64_lifter.go:1003-1025 | LEA computes base + index * scale + displacement at the operand size, flags kept |
| SimMove.MovSim | pkg/lifter/arm64_lifter_alu.go:12-145 | MOV between registers, memory and immediates; narrow writes merge, 32-bit writes zero-extend |
| Operands.LoadImm64Ok | pkg/lifter/arm64_lifter.go:446-474 | Every 64-bit value is built by the MOVZ/MOVK sequence |
| Operands.AddrOk | pkg/lifter/arm64_lifter.go:522-622 | The effective address modulo 2^64 is in the target register; only it and x7 change |
| Operands.WriteRegOk | pkg/lifter/arm64_lifter.go:645-664 | A write merges, zero-extends or goes to bits 8 to 15 as x86 does for the register's size |
| Liveness.FlagPasses.AnalyzeCarryOverflow | pkg/disasm/carry_liveness.go:260-308 | The sweeps end, and CarryDead (OverflowDead) is set on an instruction iff no path of the successor graph from there reads the flag or comes to an unknown successor before it is redefined; SkipFlags is kept |
| Liveness.LiveExactly | pkg/disasm/carry_liveness.go:202-308 | The computed sets are the all-paths definition at every point of the function |
| Liveness.FixpointComplete | pkg/disasm/carry_liveness.go:260-308 | A solution of the equations marks every flag that some path needs, on cyclic graphs too |
| Liveness.BeforeSound | pkg/disasm/carry_liveness.go:260-308 | Nothing is marked live without a path that needs it |
| Liveness.VisitMonotone | pkg/disasm/carry_liveness.go:260-308 | One sweep step is monotone, which is why the sweeps only go up |
| Liveness.MarkBlock | pkg/disasm/carry_liveness.go:277-300 | The backward walk marks each instruction by what is live after it and returns what is live before the block |
| Liveness.JoinSuccessors | pkg/disasm/carry_liveness.go:202-258 | What is live at a block's end is the union over its successors, everything for an unknown one |
| Liveness.FlagPasses.AnalyzeBlockFlags | pkg/disasm/cfg.go:1138-1161 | SkipFlags is set on an instruction iff it redefines all flags and, further on in its block, another one does so before any reader and before the block ends |
| Liveness.NeededCovers | pkg/disasm/cfg.go:1138-1178 | Where the block pass finds no flag needed, CF and OF are dead by the fixpoint too |
| Liveness.NotesRight | pkg/disasm/cfg.go:1129-1134 | After both passes the notes of every instruction fit what is live after it, which is what the lowerings rely on |
| Liveness.Annotate | pkg/disasm/cfg.go:1129-1134 | Both passes in order, from unmarked instructions |
| EffectsExact.LiveExactly | pkg/disasm/carry_liveness.go:37-104 | The tables are exact: CF or OF is live before an instruction, for any flags live after it, exactly when two states that differ only in it can give different registers, memory, outcome or live flags; the exceptions, where CF is taken for read and never shows, are CMC before a dead CF, rotates through CF by whole turns, and conditional moves of a register to itself |
| EffectsExact.DefinesExactly | pkg/disasm/cfg.go:1163-1178 | definesAllFlags is exact: the flags after the instruction never depend on those before |
| EffectsExact.ReadsExactly | pkg/disasm/carry_liveness.go:141-158 | readsAnyFlag is exact, but for the same three: registers, memory or the outcome can depend on the flags |
| EffectsExact.SuccessorsExactly | pkg/disasm/carry_liveness.go:202-258 | The successors are exactly the blocks that control can go to from some state, and unknown is set exactly when it can go elsewhere than to a known function |
| Blocks.RecoverFunction | pkg/disasm/cfg.go:649-1136 | The recovered function is well formed, every decoded instruction is in exactly one block, once, and a decoded entry is the first block; what is decoded is what control reaches from the entry within the extent, no more, and no less unless there are at least maxFnInsts instructions; blocks start exactly at the entry, at branch targets, behind conditional branches, where a block grew too long, and at seams |
| Blocks.AllReached | pkg/disasm/cfg.go:735-1053 | The decoded set is exactly the decodable part of the extent that control reaches; it is cut short only at the cap |
| Blocks.StartsRight | pkg/disasm/cfg.go:1059-1114 | A block starts at an address exactly when there is one of those reasons for it |
| Blocks.RecoveredWell | pkg/disasm/cfg.go:1059-1120 | Blocks are in address order, gap-free, cover the decoded instructions and no others, and have a transfer only last; every decoded branch target is a block start and every decoded fall-through address a block start or the next instruction, also with overlapping streams |
| Blocks.OneBlockEach | pkg/disasm/cfg.go:1091-1114 | No instruction is in two blocks, or twice in one |
| Blocks.RunsInto | pkg/disasm/cfg.go:1075-1090 | Where the next address in order is no leader, it is where the instruction before it ends, and that one is no transfer: the seam rule loses no case |
| Blocks.EntryFirst | pkg/disasm/cfg.go:1059-1120 | A decoded entry is the first block in emission order |
| Blocks.CompleteCloses | pkg/disasm/cfg.go:674-710 | An exhausted worklist has decoded everything control reaches from the entry |
| Blocks.Recovery.Run | pkg/disasm/cfg.go:735-1053 | The worklist ends; every decoded instruction and every target has a reason that goes back to the entry; unless there are too many instructions, nothing is left over and every too long block has been split |
| Blocks.Recovery.DecodeBlock | pkg/disasm/cfg.go:747-1043 | One decode run leaves no instruction without its successor, unless a cap stopped it |
| Blocks.FindLeaders | pkg/disasm/cfg.go:1059-1090 | The leaders are the entry, the decoded targets and both sides of every seam, and no other address |
| Blocks.BuildBlocks | pkg/disasm/cfg.go:1091-1114 | One block for each leader, from it up to the next leader |
| JumpTable.FindCount | pkg/disasm/cfg.go:849-900 | The search ends, on any graph, and its answer is determined: it is positive exactly when every edge that the search reaches has a count or leads on, none is new after 256 levels, and there is a count; the number is then the largest count reached. That number is a bound on the index register on every path to the jump's block, of any length and with any values, provided that the instructions the search itself takes for copies, masks or comparisons are exact (others may be anything), from every entry that is no branch target or that the search does not go past |
| JumpTable.AllPathsBound | pkg/disasm/cfg.go:849-900 | A finished search bounds every path, although it looks at each edge and register once and may end paths at different depths |
| JumpTable.PathBound | pkg/disasm/cfg.go:849-900 | ... by going along one path; the searched register changes at copies, and after a 32-bit copy only the low half of its source counts |
| JumpTable.ScanEdge | pkg/disasm/cfg.go:872-884 | The method scans all of a predecessor, or all but a check that fails on this edge |
| JumpTable.ScanTellsEdge | pkg/disasm/jumptable.go:494-517 | An exact scan is right on its edge: a count bounds the register whenever control takes the edge, also when the scan went past a check that fails there; otherwise the register's value is that of the register found at the start of the predecessor |
| JumpTable.PassedUnbounded | pkg/disasm/cfg.go:849-900 | If the search goes past an entry in front of the jump's block, no count bounds what comes from there: the register can arrive with the count itself |
| JumpTable.EntryExactly | pkg/disasm/cfg.go:849-900 | For an entry whose only searched edge goes to the jump's block a finished search is right exactly when it found a count on that edge |
| JumpTable.EntryTargetUnbounded | pkg/disasm/cfg.go:849-900 | A function whose entry is a loop head in front of the jump: the search ends with 6, and RAX arrives below 6 exactly if the function was called with it below 6 |
| IndexScan.SwitchTableCountKill | pkg/disasm/jumptable.go:552-672 | The loop does, on any run of instructions, what the recursive scan does: a count, a kill, or the register that the index came from |
| IndexScan.ScanTells | pkg/disasm/jumptable.go:552-672 | What an exact scan means: a count bounds what counts of the index at the end of the run on every execution that stays in range; without one that part of the index is the part found of the register found |
| IndexScan.ScanReason | pkg/disasm/jumptable.go:552-672 | What the scan finds, on any run: going back along the copies of the register it ends at the first mask or check with a count, at the first other write, or at the start, and at nothing before |
| IndexScan.CheckReason | pkg/disasm/jumptable.go:619-655 | Where the search for a comparison ends: it passes only moves and address computations, follows register copies, and takes the first other instruction if that compares the register or one that it was copied from |
| IndexScan.CopiedExactly | pkg/disasm/jumptable.go:465-492 | A copy is found exactly when there is one with neither register written since |
| IndexScan.CheckExactly | pkg/disasm/jumptable.go:619-655 | For every comparison of a register and its jump, at every size: the scan finds the count, and it is a bound exactly when the comparison tests all that counts of the register, and is no SUB but of 0 before JA |
| IndexScan.MaskExactly | pkg/disasm/jumptable.go:607-617 | For every AND with low ones: the scan finds mask + 1 entries, a bound exactly at 32 and 64 bits |
| IndexScan.SubtractExactly | pkg/disasm/jumptable.go:619-655 | SUB r, k before JA or JAE: the scan finds the count for every r and k, and it is a bound exactly for JA and k = 0 |
| IndexScan.SubtractInRange | pkg/disasm/jumptable.go:619-655 | For every value: when JA or JAE stays in range after SUB r, k, the register is below the count only if the jump is JA and the register was k |
| IndexScan.CheckBefore | pkg/disasm/jumptable.go:619-655 | The method finds the comparison that the recursive search finds, through copies, SUB included |
| IndexScan.FoundChecks | pkg/disasm/jumptable.go:619-655 | A comparison that is found bounds the register at the jump whenever the jump stays in range, if it and the copies between are exact; SUB on a register that the index was copied from before is exact |
| IndexScan.CompareBounds | pkg/disasm/jumptable.go:619-655 | The in-range outcome of the comparison is unsigned: at most k for JA/JBE, below k for JAE/JB |
| IndexScan.CopiedFrom | pkg/disasm/jumptable.go:465-492 | The method finds the copy that set the register with neither register changed since |
| IndexScan.CopiedCarries | pkg/disasm/jumptable.go:465-492 | A copy found before the comparison still holds there, for as much of the source as it moved |
| IndexScan.MaskBound | pkg/disasm/jumptable.go:607-617 | AND with k bounds every later copy by k + 1 entries |
| IndexScan.ModifiesOk | pkg/disasm/jumptable.go:149-176 | An instruction that modifiesReg does not report leaves the whole 64-bit register unchanged, for all modelled instructions but RET |
| LockedRun.Linearizable | pkg/lifter/arm64_lifter_locked.go:149-298 | Any number of threads, each running any sequence of locked and other instructions, any interleaving of any length, monitors lost at any time and other writes anywhere: the host run is a run of a machine whose instructions are single steps; memory is equal throughout and every thread is where its guest is |
| LockedRun.RunsAtomically | pkg/lifter/arm64_lifter_locked.go:149-298 | From equal starts: a thread at its program's end has taken each of its instructions in one step, in order, and its registers and live flags are those of x86 from the values that those steps replaced |
| LockedRun.StepRefines | pkg/lifter/arm64_lifter_locked.go:149-163 | Each host step is no step of the atomic machine or exactly one |
| LockedRun.PlainMatches | pkg/lifter/arm64_lifter.go:691-726 | An unlocked instruction with at most one access to memory, run on the shared memory by its lowering, is one step of the atomic machine, whatever flags and sense it starts with |
| LockedRun.PlainWrote | pkg/lifter/arm64_lifter.go:708-726 | It writes at most the one location its operand names, so no monitor elsewhere is lost |
| LockedRun.StoreStep | pkg/lifter/arm64_lifter_locked.go:149-163 | STLXR commits old by f(old) for the value that LDAXR loaded, or fails and the loop starts over with nothing changed |
| LockedRun.MonitorKept | pkg/lifter/arm64_lifter_locked.go:149-163 | While a monitor is held the location has the loaded value, whatever others write, overlapping sizes included |
| LockedRun.LoadElsewhere | pkg/lifter/arm64_lifter_locked.go:1-35 | A store that shares no byte with a location keeps its value, addresses wrapping at 2^64 |
| LockedOrder.LockedTrace | pkg/lifter/arm64_lifter_locked.go:149-172 | The memory events of any locked lowering that runs to its end, whatever other threads do and however often the monitor is lost: after the loads of failed attempts, exactly those of its kind, a DMB behind a loop and behind a compare-and-swap that failed |
| LockedOrder.CasEvents | pkg/lifter/arm64_lifter_locked.go:164-172 | The branch over the DMB is taken exactly when the compare-and-swap succeeded |
| LockedOrder.LockedOrders | pkg/lifter/arm64_lifter_locked.go:13-20 | In any sequence of accesses and locked lowerings, each of these, failed compare-and-swaps included, keeps every earlier access before every later one |
| LockedOrder.EmittedOrder | pkg/lifter/arm64_lifter_locked.go:149-172 | Which accesses of such a sequence stay in order: exactly those that the ordering rules say |
| LockedSim.CommitOk | pkg/lifter/arm64_lifter_locked.go:177-474 | Every locked operation, from its operands in place: the one memory access writes what x86 would from the value it reads there, and the code after it gives the registers and live flags of that |
| LockedSim.PrefixOk | pkg/lifter/arm64_lifter_locked.go:177-474 | The code before the access sets up address and operand without touching guest registers or, where they are needed later, flags |
| LockedSim.ArithAtomic | pkg/lifter/arm64_lifter_locked.go:193-231 | LDADD of -v is a subtraction and LDCLR of ~v an AND, at every size, also from a 32-bit scratch value |
| LockedSim.NotAtomic | pkg/lifter/arm64_lifter_locked.go:271-275 | NOT is an exclusive-or with all ones at the operand size |
| LockedSim.CommitNeg | pkg/lifter/arm64_lifter_locked.go:277-289 | NEG as an exclusive loop |
| LockedSim.CommitAdc | pkg/lifter/arm64_lifter_locked.go:300-360 | ADC and SBB as exclusive loops: the carry taken before the loop goes into every retry |
| LockedSim.CommitBt | pkg/lifter/arm64_lifter_locked.go:362-413 | BTS, BTR, BTC as LDSET, LDCLR, LDEOR; CF is the old bit |
| LockedSim.CommitExchange | pkg/lifter/arm64_lifter_locked.go:415-440 | XADD and XCHG, flags of the addition for the first, none for the second |
| LockedSim.CommitCas | pkg/lifter/arm64_lifter_locked.go:442-474 | CMPXCHG: ZF and the flags of the comparison with the old value; the accumulator changes only on failure, and a failing 32-bit one is zero-extended |
| LockedSim.LockFlagsOk | pkg/lifter/arm64_lifter_locked.go:111-147 | The flags recomputed from the returned old value are those of the operation |
| Tso.OrderedExactly | pkg/lifter/arm64_lifter_tso.go:150-209 | For access sequences of any length and any two accesses: LDAPR, STLR, the fenced forms, the atomics and DMB keep them in order unless the first is a store, the second only reads, and no full barrier runs between; a release store stays before a failed compare-and-swap even then |
| Tso.TsoKept | pkg/lifter/arm64_lifter_tso.go:150-209 | Of the pairs that x86-TSO keeps in order (section 8.2 of volume 3A of the Intel SDM) exactly one kind is lost: a fenced store and a failed compare-and-swap with no full barrier between |
| Tso.FailedCasIsBarrier | pkg/lifter/arm64_lifter_locked.go:164-172 | A failed compare-and-swap followed by its DMB keeps every earlier access before every later one |
| Tso.FailedCasRead | pkg/lifter/arm64_lifter_locked.go:13-20 | Its own read stays behind any earlier store, as x86 demands, iff the store is a release store or a full barrier or fenced store runs between |
| Tso.TestExact | pkg/lifter/arm64_lifter_tso.go:158-209 | The bit-4 test takes the fenced form exactly for the accesses of up to 16 bytes that cross a 16-byte boundary |
| Tso.StoreLoadRelaxed | pkg/lifter/arm64_lifter_tso.go:150-209 | A store and a later load are kept in order iff a full barrier runs between: no more than x86 asks, except behind another fenced store |
| Remainder.Fprem | pkg/lifter/arm64_lifter_fpu.go:949-1063 | For any two significands and any exponent difference the remainder is |x| mod |y| and the quotient register is the true quotient modulo 2^64 |
| Remainder.Fprem1 | pkg/lifter/arm64_lifter_fpu.go:949-1063 | FPREM1: x - n * y for the integer n nearest to x / y, ties to even (section 5.3.1 of IEEE 754-2008), negative exponent differences included |
| Remainder.LongDivide | pkg/lifter/arm64_lifter_fpu.go:992-1004 | The bit-by-bit loop computes mx * 2^d mod my and the quotient modulo 2^64 for every d >= 0, by its partial remainder |
| Remainder.NearestUnique | pkg/lifter/arm64_lifter_fpu.go:949-1063 | There is only one nearest-even quotient, so the statement of Fprem1 fixes the result |
| Remainder.NearestOk | pkg/lifter/arm64_lifter_fpu.go:1006-1018 | The round-up test of the step is the nearest-even rule |
| Remainder.Unpack | pkg/lifter/arm64_lifter_fpu.go:967-988 | Normal and subnormal operands become a significand in [2^52, 2^53) and an exponent with the same value |
| Extended.StoreThenLoad | pkg/lifter/arm64_lifter_fpu.go:718-844 | Every 64-bit pattern comes back from its 80-bit form: zeros, denormals, infinities; a signaling NaN comes back quiet; in every rounding mode |
| ExtendedValue.StoreValue | pkg/lifter/arm64_lifter_fpu.go:807-844 | What is stored has the double's sign and exactly its value |
| ExtendedValue.LoadValue | pkg/lifter/arm64_lifter_fpu.go:747-770 | From 2^-1022 on the loaded double's value is the significand rounded to 53 bits, in any mode, times its power of two; from 2^1024 on, also by a carry, it is the infinity of the sign |
| ExtendedValue.DenormalValue | pkg/lifter/arm64_lifter_fpu.go:747-781 | Below 2^-1022 the mantissa is the value in units of the smallest denormal, to nearest even, down to 0 and up to a carry into the smallest normal number |
| ExtendedValue.LoadNearest | pkg/lifter/arm64_lifter_fpu.go:727-805 | In the default mode the loaded double is the nearest of all doubles to the extended value, the even one of two, for every zero, denormal, pseudo-denormal and normal encoding; the infinity stands for 2^1024 (section 4.3.1 of IEEE 754-2008) |
| Extended.InvalidLoads | pkg/lifter/arm64_lifter_fpu.go:744-805 | Unnormals and pseudo-infinities load as the indefinite NaN, infinities as themselves |
| Extended.NaNLoads | pkg/lifter/arm64_lifter_fpu.go:782-800 | Every NaN loads as a quiet NaN of its sign with its top payload bits, also when only bits that a double lacks are set; encodings without the integer bit load as the indefinite NaN |
| Extended.DenormalNearest | pkg/lifter/arm64_lifter_fpu.go:761-781 | A load that ends denormal is rounded to the nearest, ties to even |
| RepStrings.RepRuns | pkg/lifter/arm64_lifter_string.go:51-142 | The emitted lines, branches included, run from any carry sense to their end, in the state of the repeated instruction for any RCX, overlapping buffers and, for REPE/REPNE, the early stop; RCX = 0 leaves flags and all else; MOVS and STOS keep the sense |
| RepStrings.LoopRuns | pkg/lifter/arm64_lifter_string.go:242-270 | From the top of the loop it comes to the end, with RCX as its measure |
| RepStrings.BodyOk | pkg/lifter/arm64_lifter_string.go:193-270 | One turn is one element, in every sense: memory, RSI, RDI, RCX, and for CMPS/SCAS the flags of the comparison |
| RepStrings.SingleOk | pkg/lifter/arm64_lifter_string.go:242-248 | Without a prefix the code does one element |
| RepStrings.StrCompareOk | pkg/lifter/arm64_lifter_string.go:193-208 | The comparison at all sizes shows the x86 flags in the subtract sense |
| RepStrings.LodsRuns | pkg/lifter/arm64_lifter_string.go:144-191 | The emitted loop-free lines of REP LODS, run to their end, do what the iterated loads do for any count, RCX = 0 included, and keep the flags |
| RepStrings.LodsClosed | pkg/lifter/arm64_lifter_string.go:144-191 | The iterated loads leave what the last of them does |
| RepCopies.RepCopies | pkg/lifter/arm64_lifter_string.go:51-100 | REP MOVS between separate buffers as a whole: each of the RCX times size bytes of the destination is the source's, no other byte changes, and both pointers move by that many bytes |
| RepCopies.RepFills | pkg/lifter/arm64_lifter_string.go:102-142 | REP STOS as a whole: each byte is the accumulator's at its place in the element, for any count, also around the end of memory |
| RepCopies.RepDoes | pkg/lifter/arm64_lifter_string.go:242-270 | Every repeated instruction does a number of elements: all, or for REPE/REPNE as many as it takes to the first comparison that stops it, and RCX is what is left |
| RepCopies.PointersMove | pkg/lifter/arm64_lifter_string.go:51-142 | n elements move exactly the instruction's pointers, each by n times the operand's bytes |
| RepCopies.LodsPointer | pkg/lifter/arm64_lifter_string.go:144-191 | REP LODS moves its pointer past all elements |
| Bytes.LoadStored | pkg/lifter/arm64_lifter.go:691-726 | A load gives what was stored at its location, at every size and around the end of memory |
| Bytes.StoreEffect | pkg/lifter/arm64_lifter.go:708-726 | A store puts each byte of the value, lowest first, at its address and changes no other byte |
| UpperHalves.FixUpperHalves | pkg/lifter/arm64_lifter.go:795-929 | When enough registers are free and control stays in the body: the upper halves of the operands that the instruction may write end as in code with separate scratch registers, every other v16 to v31 has its old value, and the stack is balanced |
| UpperHalves.PlanUpperHalves | pkg/lifter/arm64_lifter.go:805-929 | Both steps on the register masks: the renaming, the scratch registers after it, and as spilled, in rising order, exactly those touched that are not the instruction's to write |
| UpperHalves.RenameScratch | pkg/lifter/arm64_lifter.go:840-880 | The renaming is injective and off the reserved registers; it renames every clashing scratch register iff there are at least as many free registers as clashes |
| UpperHalves.RunSame | pkg/lifter/arm64_lifter.go:880-929 | Code of any shape does the same over renamed as over separate registers, for any number of steps |
| UpperHalves.RestoreSaved | pkg/lifter/arm64_lifter.go:895-929 | Spills and reloads around the code give every saved register its old value and leave the stack as it was |
| Ranges.MergeRanges | pkg/elfloader/ehframe.go:605-649 | Merged ranges are nonempty, in order, apart, and have exactly the addresses of the input |
| Ranges.Lookup | pkg/elfloader/ehframe.go:605-690 | A lookup in a merged list answers exactly for the input ranges |
| Ranges.RangeContains | pkg/elfloader/ehframe.go:651-662 | The binary search loop ends where the recursive search does |
| Ranges.FoundExact | pkg/elfloader/ehframe.go:651-662 | The search is exact at an address that parts the list: no range that ends past it comes before one that does not |
| Ranges.NormalizeBounds | pkg/elfloader/ehframe.go:570-603 | In order, for every start of a nonempty extent the longest one, and no other extents |
| Ranges.InFuncExtent | pkg/elfloader/ehframe.go:684-690 | Whatever it finds is in an extent; it is exact for every address when no extent is nested in another |
| Ranges.NestedMissed | pkg/elfloader/ehframe.go:651-690 | Of two extents the lookup is exact for all addresses iff the second ends no earlier than the first |
| Tls.LayoutStaticTLS | pkg/elfloader/tls.go:154-167 | The loop over the modules assigns the offsets of the recursive layout in place |
| Tls.StackedExactly | pkg/elfloader/tls.go:154-167 | The blocks are stacked below the thread pointer, each at or below the end of the one before, iff no step of the layout wraps around at 2^64 |
| Tls.LaidOutAt | pkg/elfloader/tls.go:154-167 | Every offset is a multiple of the module's alignment; sizes are kept |
| Tls.LeastOffset | pkg/elfloader/tls.go:154-167 | Each offset is the smallest multiple of its alignment that leaves the block room below the one before |
| Tls.BlocksDisjoint | pkg/elfloader/tls.go:154-167 | Stacked blocks do not overlap and end below the thread pointer |
| Tls.SlotInBlock | pkg/elfloader/tls.go:102-125 | A TPOFF slot for an offset inside a module's template, added to the thread pointer, is that byte of the module's own block |

## Left out

- JumpTable.FindCount: BEXTR, BZHI and copies by MOVZX, MOVSX and MOVSXD are not modelled. No converse is stated for whole graphs: a search that gives up promises nothing, and past an inexact instruction or an entry a bound may still hold for other reasons; the converses are those of CheckExactly, MaskExactly and EntryExactly.
- IndexScan.ModifiesOk: for the modelled instructions; modifiesReg looks at the first operand only, so implicit destinations of instructions outside the model (CDQ, MUL, DIV, string instructions) are not covered.
- Simulation.RetStep: the address popped by RET is not compared with the host's return address, and only SF and ZF are kept at a return (flags are dead at calls and returns by the ABI); a tail call to a known function need not keep CF and OF either.
- Simulation.WholeRun: instruction addresses do not wrap at 2^64; the guest memory base x28 is folded into addresses; PF and AF are not modelled, as in the original.
- Liveness.JoinSuccessors: blocks end in JMP, Jcc, RET or a fall-through only; UD2, HLT, INT, indirect JMP, calls and jump-table dispatch are not modelled as transfers.
- Blocks.Recovery.Run: the order of the worklist does not matter to what is stated; call discovery, jump-table resolution during decoding, privileged stops and data ranges are left out; what decodes at an address is given by a map, with positive lengths.
- Pipeline.SkipInvisible: notes are kept beside the blocks, not in the instruction records.
- LockedRun.Linearizable: memory here is sequentially consistent with exclusive monitors; ordering is in the Tso module. Programs are straight-line; an unlocked instruction that both loads and stores a location is no single step on x86 either and only appears as an arbitrary write.
- LockedSim.CommitOk: CMPXCHG8B, CMPXCHG16B and operands that cross a 16-byte boundary are left out.
- Tso.TsoKept: accesses are kinds with a crossing flag, without addresses and values; which instructions tsoApplies selects, the LDAPR sign-extension rewrite and the choice of a free register are left out.
- Remainder.Fprem: from the operands' significands and exponents on; NaN, infinite and zero operands and the final scaling by two multiplications are left out.
- ExtendedValue.LoadValue: the rounding of UCVTF is a parameter, to one of the two neighbouring values in any mode and to nearest even for LoadNearest.
- LockedOrder.LockedOrders: the unlocked accesses of a sequence are given by kind, as in the Tso module; the loads of attempts that failed are not accesses of the instruction.
- UpperHalves.FixUpperHalves: lines are abstract operations on register names; finding the names in text, VZEROUPPER and lines that leave the instruction early are left out.
- RepStrings.RepRuns: the direction flag is clear, as the original assumes.
- Ranges.InFuncExtent: exactness is stated under absence of nested extents; NestedMissed gives the converse for two extents only, because in longer lists the order of the probes can hide a nested extent.
- Tls.SlotInBlock: ApplyTLSOffsets' writes to the image and AddTLSModule's symbol resolution are left out.
- MUL, IMUL, DIV, MOVZX, MOVSX, PUSH, POP, CALL, XCHG and XADD without LOCK, SHLD, SHRD, bit scans, CRC32 and the other ALU lowerings would only add members like those proved.
- Vector and floating-point values, AES, conversions, reciprocal estimates, FXTRACT, FSCALE and FIST.
- FS and GS addressing; faults, signals and unsupported-instruction lines.
- Decoding of x86 bytes, the trampoline, fibers, the runtime in C, shims, patches for one game, the command line and packaging: I/O, tables and code in other languages.
