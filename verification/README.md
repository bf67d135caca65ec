# Verification of the devirtualizer's recovery, optimizer and evaluator

This project models, in Dafny, the parts of the deobfuscator that rebuild a program from a
virtual machine's bytecode, and proves that they keep its meaning:

* **CFG recovery with SSA construction.** A worklist drives an arbitrary segment oracle, keys
  blocks by VPC, records one register state per edge, places phi nodes, and in full-SSA mode
  replaces every symbolic entry value `reg@bbN` by its definition (`Cfg`, `Names`, `Recovery`,
  `RecoveryRun`, `Drives`, `GraphFacts`, `Phi`, `FullSsa`, `SsaMeaning`, `SsaPaths`).
* **The SSA optimizer**: the passes of both convergence tables, reachability-based dead-code
  removal and the two drivers, over 64-bit values, byte-addressed memory and observable events
  (`Ir`, `Arithmetic`, `Machine`, `References`, `Rewrites`, `Meaning`, `Removal`, `DeadCode`,
  `DeadStore`, `Convergence`, `FullDriver`, `Leftovers`, `FixedPoints`, `Passes`).
* **The clients**: virtual-branch target extraction, load promotion through a byte memory, id
  renumbering and the devirtualization worklist, the native leader fixpoint, and the guided
  evaluator's dispatcher loop (`Vjcc`, `Twins`, `SelectTargets`, `Extraction`, `ByteMemory`, `Promotion`,
  `Sweeps`, `Renumber`, `VmRecovery`, `Leaders`, `Guided`, `GuidedRun`, `GuidedExact`, `GuidedMeaning`,
  `VmSegments`).
* **Limits**: where the code is exact, and inputs that show why the hypotheses are needed (`Limits`,
  `VjccLimits`, `SsaLimits`, `GuidedLimits`; `PlainTraces` and `Collections` are shared helpers).

Code that updates state step by step is modelled by classes and loops (`Passes`, `RecoveryRun`,
`Phi.ConstructPhis`, `FullSsa`, `ByteMemory`, `VmRecovery`, `GuidedRun`, `Leaders`). Each of these
methods is proved to compute a specification function or to keep an invariant; the theorems are
about those functions and invariants. What the functions compute is stated once more without them, in
terms of traces, graphs, bytes and runs: what is rewritten and what is left (`Leftovers`, `FixedPoints`,
`Sweeps`, `Extraction`), what is asked and what becomes of the answer (`Drives`), and what the evaluator
sees and records (`GuidedExact`).

## Semantics and hypotheses

A trace runs every instruction in order. STORE, CALL, RET and JMP are observable events; CJMP
shows its jump when its condition is not zero; stores annotated `vm_private` are not observable.
An environment (`Machine.Env`) supplies input registers, callees, the values of references that a
trace does not define, and the results of SEXT, ZEXT, TRUNC and malformed operations, all
arbitrary. Shifts by 64, which C++ leaves undefined, yield whatever an arbitrary `Host` says.

* *Optimizer* (`Meaning.Sane`): ids increase and references point backwards; a LOAD has one operand
  and a STORE two, as the lifter emits them; no rotate, and no SAR of a negative value, has an
  amount that is 0 modulo 64; if a store lies between a store and a load of one address and overlaps
  the load, it has the load's address operand after `resolve`; a call between them leaves those
  bytes alone. This is a property of the run, and it is proved stable under every pass.
* *Dead-store elimination and the full driver* (`DeadStore.Disciplined`): private accesses have
  constant addresses that are equal or disjoint, other accesses keep off them, callees neither read
  nor write them, and nothing refers to the result of a private store. This is stable too.
* *Promotion*: a sane run keeps all its states if and only if in every round that is run each promoted
  load's eight bytes are held with the values that memory has there (`Promotion.OptimizeExact`, and
  `GuidedMeaning.OptimizedExact` for the evaluator, which folds first). One sweep satisfies this when
  the held bytes agree with memory at the start and the stores that the sweep does not replay, and
  calls, leave them alone (`Promotion.SweepPreservesRuns`). Later rounds start from bytes the trace has
  written, and can go wrong (`Limits.LaterRoundReadsTheFuture`).
* *Virtual branches*: for a SELECT with constant arms there is no hypothesis about the run
  (`SelectTargets.SelectBranchSound`). For any other VPC, `Vjcc.VjccSound` assumes a sane run and
  `Vjcc.Branching`: the condition is not the result of a STORE, and it is no copy of another value or
  no load or store address leads through it. `VjccLimits` has an input against each part. Where the
  evaluator's convergence stops before its cap, no condition is a copy (`VmRecovery.SettledOperand`).
* *Full SSA* (`SsaMeaning.Hygienic`): a segment mentions only its own instructions, its own entry
  symbols and free inputs; ids are unique across segments; out-states define every tracked register;
  the arms of a branch are distinct. Nothing is assumed about the shape of the graph: it may be cyclic
  and irreducible, and a segment may read a result of an earlier visit. Edges into the entry are the
  exception, because the code keeps no incoming record for the way into the function. A path is then
  right if and only if every register read on it is what the recovered function takes it to be
  (`SsaPaths.PathRight`): at first and after a return the input, or the entry's phi if it has one,
  which is undefined at first. An oracle that mentions only its own fresh ids, values of the state it is given
  and free inputs satisfies the hypothesis (`Drives.DiscoveredHygienic`).
* *Leaders*: only the last step, that blocks are disjoint, assumes that decoding does not overlap.

Where the code and its description differ, the code is modelled. The evaluator's `max_steps` bounds
its loop when every window decodes to something (`Guided.FilledWindowsBoundTurns`), but not in general
(`GuidedLimits.EmptyWindowsTakeNoSteps`); another bound always holds (`Guided.TurnsBounded`). Handler
ranges index the trace before the final `run_to_convergence`, and may end beyond the one returned
(`GuidedLimits.RangeOutlivesTrace`).

Besides shifts by 64 there is one more place where C++ leaves the behaviour undefined. When a load's
address is resolved, `addr` points into a local value that is destroyed at the closing brace before
`addr` is read (src/eval/segment_eval.cpp:112-119, src/eval/guided_eval.cpp:50-57). The model takes the
value that was resolved.

## Model

| member | source | states |
|---|---|---|
| `Ir.Function.Emit` | src/ir/function.cpp:6-15 | appends the instruction with the next id and keeps ids increasing and references backward |
| `Arithmetic.RotateLeftMoves` | src/passes/transforms.cpp:69-72 | a rotate sends bit i to bit i + n |
| `Arithmetic.RotateLeftWraps` | src/passes/transforms.cpp:69-72 | and wraps the top n bits to the bottom |
| `Arithmetic.RotationsMirror` | src/passes/transforms.cpp:69-77 | rotating left by n is rotating right by 64 - n |
| `Arithmetic.FoldBinaryExact` | src/passes/transforms.cpp:69-109 | folding equals the reference operation on every host if and only if no rotate, and no SAR of a negative value, has an amount that is 0 modulo 64 |
| `Arithmetic.FoldUnaryExact` | src/passes/transforms.cpp:86-118 | NOT, NEG and BSWAP fold to the reference operations |
| `Arithmetic.RightIdentities` | src/passes/transforms.cpp:311-321 | the operations rewritten for a zero right operand have 0 as right identity, rotates and shifts included |
| `Arithmetic.Annihilators` | src/passes/transforms.cpp:289-310 | the laws behind x^x, x-x, x&0, x*0, x&-1, x*1 and x OR x |
| `Arithmetic.UnaryInvolutions` | src/passes/transforms.cpp:323-338 | NOT, NEG and BSWAP undo themselves |
| `Arithmetic.AndXorOr` | src/passes/transforms.cpp:340-373 | ((x AND y) XOR y) OR y is y in every operand order |
| `Machine.LoadStored` | src/memory/byte_memory.cpp:32-52 | an 8-byte little-endian store reads back, address wrap-around included |
| `Machine.LoadElsewhere` | src/memory/byte_memory.cpp:32-52 | a store that shares no byte with a load does not change it |
| `Machine.SsaEquation` | src/ir/function.cpp:6-15 | in an emitted trace the defining equation of a pure instruction holds for the rest of the run |
| `References.ResolveSound` | src/passes/transforms.cpp:21-42 | following constants and pass-throughs never changes the value denoted, at any point of any run |
| `References.ResolveTwice` | src/passes/transforms.cpp:21-42 | resolving is idempotent |
| `Leftovers.ResolveExact` | src/passes/transforms.cpp:21-42 | resolution is at the end of a chain of pass-throughs and at most one constant definition, and nothing leads on from there |
| `Meaning.FoldSound` | src/passes/transforms.cpp:120-160 | a folded instruction, SELECT included, has the effect of the original |
| `Meaning.ForwardSound` | src/passes/transforms.cpp:164-209 | a forwarded load has the value the load would read, under the alias hypothesis |
| `Meaning.CombineSound` | src/passes/transforms.cpp:280-392 | every identity, involution and MBA rewrite has the effect of the original |
| `Meaning.BranchSound` | src/passes/transforms.cpp:396-409 | a CJMP with a constant condition becomes the jump, or the nothing, that it does |
| `Meaning.ReplacedSane` | src/passes/transforms.cpp:164-209 | the alias, call and shift hypotheses survive every effect-preserving rewrite |
| `Meaning.ApplySound` | src/passes/transforms.cpp:51-65 | a whole pass, rewriting in place, keeps every state of the run and the hypotheses |
| `Meaning.PromotionResolves` | src/passes/transforms.cpp:51-65 | after const promotion every operand is fully resolved |
| `Leftovers.PassExact` | src/passes/transforms.cpp:51-409 | what each of the five passes makes of every instruction, rewritten or left alone: every operation on constants becomes the reference's constant, a SELECT its arm, every listed identity its zero or copy, every load with an earlier store under its key the last one's value, every CJMP on a constant the jump or nothing; anything else stays as it is |
| `FixedPoints.FoldFixedPointExact` | src/passes/transforms.cpp:538-562 | no fold pass changes a trace if and only if no instruction of it has any of the forms that are rewritten |
| `FixedPoints.FullFixedPointExact` | src/passes/transforms.cpp:508-534 | no pass of the whole table does if and only if, besides, every instruction is seen from outside or referred to, and every private store is read back |
| `FixedPoints.ConvergedExact` | src/passes/transforms.cpp:519-562 | so a driver that stops before its cap leaves nothing that a pass could still do |
| `FixedPoints.DriverExact` | src/passes/transforms.cpp:519-562 | a driver runs rounds exactly while they change something and the cap allows it, and counts under each name the passes that did |
| `DeadCode.LayersAreReachability` | src/passes/transforms.cpp:248-276 | iterating the local pass to its fixpoint keeps exactly what the reachability pass keeps |
| `FixedPoints.DropLayerExact` | src/passes/transforms.cpp:248-276 | one local pass keeps exactly the instructions with side effects and those that some operand refers to, in order |
| `FixedPoints.DropUnreachedExact` | src/passes/transforms.cpp:424-475 | the reachability pass keeps exactly those from which a chain of operands leads to a side effect, in order |
| `DeadCode.DropLayerMeaning` | src/passes/transforms.cpp:248-276 | one local pass keeps memory, events and every surviving value |
| `DeadCode.DropUnreachedMeaning` | src/passes/transforms.cpp:424-475 | the reachability pass keeps memory, events and every surviving value |
| `DeadCode.NoDanglingReference` | src/passes/transforms.cpp:424-475 | neither pass leaves a dangling reference in a closed trace |
| `DeadStore.StoreKeptExactly` | src/passes/transforms.cpp:213-233 | a private store is kept if and only if a later private load reads its address before the next private store there |
| `FixedPoints.DropStoresExact` | src/passes/transforms.cpp:213-244 | what is left is exactly the instructions that are no private store at a constant address, or one that is read back, in order |
| `DeadStore.DropStoresMeaning` | src/passes/transforms.cpp:213-244 | removal keeps events, every surviving value (each load included) and all memory outside private cells |
| `Convergence.PassSmaller` | src/passes/transforms.cpp:508-545 | a pass that changes the trace decreases (reducible operations, sum of reference ids, length) lexicographically |
| `Convergence.StopsAtFixedPoint` | src/passes/transforms.cpp:519-534 | stopping before the cap leaves a common fixed point of all passes of the table |
| `Convergence.ConvergenceNeedsNoCap` | src/passes/transforms.cpp:519-562 | for every trace some number of rounds suffices: both drivers would end without a cap |
| `Convergence.FoldConvergePreservesRuns` | src/passes/transforms.cpp:538-562 | the fold driver keeps the state after every prefix of the run: every value, memory, events |
| `Meaning.RewriteMentions` | src/passes/transforms.cpp:51-392 | no value-propagating rewrite introduces a reference the trace did not have |
| `FullDriver.VisitDisciplined` | src/passes/transforms.cpp:51-409 | the private-memory discipline survives every rewrite |
| `FullDriver.ThinKnown` | src/passes/transforms.cpp:213-276 | the alias hypothesis survives removals, although positions move |
| `FullDriver.StoresKeep` | src/passes/transforms.cpp:213-244 | dead-store elimination keeps all hypotheses, calls included, and the meaning |
| `FullDriver.LayerKeeps` | src/passes/transforms.cpp:248-276 | so does one layer of dead-code removal |
| `FullDriver.RunToConvergenceKeeps` | src/passes/transforms.cpp:508-534 | the full driver keeps events, calls, every surviving value and all memory outside private cells |
| `Passes.BuildInstrMap` | src/passes/transforms.cpp:14-19 | the map from ids to positions, later definitions winning |
| `Passes.ResolveOperand` | src/passes/transforms.cpp:21-42 | the loop computes the recursive resolution |
| `Passes.ConstPromotePass` | src/passes/transforms.cpp:51-65 | the nested in-place loops compute the pass, and report a change exactly when there is one |
| `Passes.ConstFoldPass` | src/passes/transforms.cpp:120-160 | as above, for folding |
| `Passes.MemForwardPass` | src/passes/transforms.cpp:164-209 | as above; the two hash maps hold the last store under each address key |
| `Passes.InsnCombinePass` | src/passes/transforms.cpp:280-392 | as above, for the identities and the MBA patterns |
| `Passes.BranchFoldPass` | src/passes/transforms.cpp:396-409 | as above, for branch folding |
| `Passes.DeadStoreElimPass` | src/passes/transforms.cpp:213-244 | the backward scan and the rebuild compute the specified removal |
| `Passes.DeadDepElimPass` | src/passes/transforms.cpp:248-276 | the local removal |
| `Passes.DeadDepAnalysisPass` | src/passes/transforms.cpp:424-475 | the worklist computes the reachable ids, and the pass keeps exactly those and the side effects |
| `Passes.RunToConvergence` | src/passes/transforms.cpp:519-534 | the driver loop, with its hit counts and iteration count |
| `Passes.RunFoldConvergence` | src/passes/transforms.cpp:547-562 | the fold driver loop |
| `Vjcc.FoldConvergeInPlace` | src/eval/segment_eval.cpp:38-49 | the hand-unrolled driver computes the same as the table-driven one |
| `Vjcc.ExtractVjccTargets` | src/eval/segment_eval.cpp:55-89 | copying, substituting in place, folding and resolving compute the specified extraction |
| `Vjcc.BindRun` | src/eval/segment_eval.cpp:57-75 | naming the value that a condition has in a run, wherever it is mentioned, changes no state of that run |
| `Vjcc.BindSane` | src/eval/segment_eval.cpp:57-75 | nor any hypothesis about it, if no address leads through the condition under another name |
| `Twins.TwinRounds` | src/eval/segment_eval.cpp:38-77 | rounds of folding treat alike two traces that differ at one position which nothing mentions |
| `Twins.HalfRounds` | src/eval/segment_eval.cpp:60-77 | so overwriting the condition's definition with a constant folds to the same as replacing its mentions |
| `Vjcc.VjccSound` | src/eval/segment_eval.cpp:55-89 | extracted targets differ; a sane run whose condition is 1 has the taken VPC, one whose condition is 0 the other, for registers, computed values, calls, copies and constants that no address leads through |
| `SelectTargets.SelectTargetsExact` | src/eval/segment_eval.cpp:55-89 | for a SELECT with constant arms the result is exactly the two arms, if and only if they differ and the condition is a register or has a definition |
| `SelectTargets.SelectBranchSound` | src/eval/segment_eval.cpp:55-89 | in every run whatever of such a trace the VPC is the taken target if and only if the condition is not zero |
| `Extraction.ExtractExact` | src/eval/segment_eval.cpp:55-89 | targets are extracted if and only if each assumption, overwriting the definition or replacing the mentions of the condition and nothing else, makes the VPC a constant after 32 rounds of folding, and the two differ |
| `Extraction.ConvergeIsRounds` | src/eval/segment_eval.cpp:38-49 | stopping early never shows: the driver's trace is that of as many rounds as its cap says |
| `Extraction.FixedTarget` | src/eval/segment_eval.cpp:38-81 | where folding reaches a fixed point within the 32 rounds, the targets are those of the fixed point, and more rounds would give the same |
| `Vjcc.NoBranchWithoutCondition` | src/eval/segment_eval.cpp:73-75 | a constant condition, or one that refers to nothing, yields no targets |
| `ByteMemory.RoundTrip` | src/memory/byte_memory.cpp:32-52 | a 64-bit store loads back |
| `ByteMemory.DisjointStore` | src/memory/byte_memory.cpp:32-52 | loads that share no byte with a store do not see it |
| `ByteMemory.PartialOverwrite` | src/memory/byte_memory.cpp:48-58 | a 32-bit store replaces the low half of a 64-bit value |
| `ByteMemory.LoadGet` | src/memory/byte_memory.cpp:22-38 | a load succeeds if and only if its eight bytes are known, and joins them |
| `ByteMemory.SafeRangeAdded` | src/memory/byte_memory.cpp:6-15 | adding a range makes exactly its addresses safe as well |
| `ByteMemory.ByteMemory.StoreData` | src/memory/byte_memory.cpp:17-20 | the byte loop computes the specified store |
| `ByteMemory.ByteMemory.LoadData` | src/memory/byte_memory.cpp:22-30 | the byte loop computes the specified load, failing on the first unknown byte |
| `ByteMemory.ByteMemory.IsSafe` | src/memory/byte_memory.cpp:10-15 | true if and only if some range contains the address |
| `Promotion.SweepLoads` | src/eval/segment_eval.cpp:100-129 | the loop over trace and byte memory computes the specified sweep, and reports promotion exactly when a load became a constant |
| `Sweeps.SweptExactly` | src/eval/segment_eval.cpp:98-129 | a load becomes a constant if and only if its address is or refers to a constant in a safe range whose eight bytes are held, and then the constant they join to; with any other constant address it keeps the constant; anything else stays |
| `Sweeps.SweptBytes` | src/eval/segment_eval.cpp:103-110 | the bytes held at each point are the initial ones, except where a store of a constant to a safe constant address covers them; there, what the last such store wrote |
| `Sweeps.OptimizeRounds` | src/eval/segment_eval.cpp:98-133 | one round at least, and further ones exactly while the last one promoted a load and the limit allows it |
| `Promotion.PromotedExact` | src/eval/segment_eval.cpp:111-127 | a promoted load has the effect of the load if and only if each of its bytes is held with memory's value |
| `Promotion.SweepExact` | src/eval/segment_eval.cpp:98-129 | a sweep keeps every state of the run if and only if every promotion's bytes are right |
| `Promotion.SweepPreservesRuns` | src/eval/segment_eval.cpp:98-129 | a load is replaced only by what it would read: from bytes that agree with memory one sweep keeps every state, and its final bytes agree with final memory |
| `Promotion.PromoteAndOptimize` | src/eval/segment_eval.cpp:98-133 | the three rounds compute the specified optimization |
| `Promotion.KeptPromotionsRight` | src/eval/segment_eval.cpp:98-131 | a trace that still has a sweep's promotions and runs like the original shows that each of them was right |
| `Promotion.OptimizeExact` | src/eval/segment_eval.cpp:98-133 | promotion and folding together keep every state of a sane run if and only if in each round that is run every promotion's bytes are right: no later pass undoes a wrong promotion |
| `Promotion.OptimizePreservesRuns` | src/eval/segment_eval.cpp:98-133 | and in that case the result satisfies the run hypotheses again |
| `Cfg.CFGFunction.AddBlock` | src/ir/cfg.cpp:18-24 | ids stay dense |
| `Cfg.CFGFunction.BlockById` | src/ir/cfg.cpp:30-40 | finds the block with the id if there is one |
| `Cfg.CFGFunction.Successors` | src/ir/cfg.cpp:42-47 | exactly the targets of the out-edges, in order |
| `Cfg.CFGFunction.Predecessors` | src/ir/cfg.cpp:49-54 | exactly the sources of the in-edges, in order |
| `Names.EntrySymInjective` | src/eval/cfg_recovery.cpp:110-111 | distinct registers or blocks have distinct entry symbols, whatever the register names |
| `Names.SortNames` | src/eval/cfg_recovery.cpp:186-187 | the derived register list is sorted and without duplicates |
| `Recovery.DiscoverSound` | src/eval/cfg_recovery.cpp:70-176 | for every oracle: VPCs are distinct and ids dense, each VPC is evaluated at most once and in its own drive state, at most `max_blocks` calls, at most `max_blocks` + 2 blocks |
| `Recovery.ExtendSound` | src/eval/cfg_recovery.cpp:95-176 | one iteration keeps the invariants: arms lead to the blocks of the VPCs the result names, and the first edge into a block comes from an earlier one |
| `Drives.DrivenExactly` | src/eval/cfg_recovery.cpp:105-122 | in full-SSA mode every segment is evaluated in the state that gives each tracked register its own symbol of that block and nothing else; otherwise the entry in the seed, and every other block in the state on the first edge recorded into it |
| `Drives.StopsExactly` | src/eval/cfg_recovery.cpp:95-176 | the loop ends when every block has been evaluated or there are more than `max_blocks`, and not before |
| `Drives.RecoveredTerminated` | src/eval/cfg_recovery.cpp:126-175 | each block of the result ends as its segment says: the taken VPC's block is the target and the other's the fallthrough, each with its own state on the edge, and the value carried is the condition or the returned value |
| `Drives.ImmediateExact` | src/eval/cfg_recovery.cpp:228-246 | an entry symbol stands for the block's phi, else for the function input or the value on the first edge, else for the plain register |
| `Drives.DiscoveredHygienic` | src/eval/cfg_recovery.cpp:105-176 | for an oracle whose answers mention only their own fresh ids, values of the state they were given and free inputs, the graph that is discovered meets every hypothesis of the full-SSA theorems |
| `RecoveryRun.Worklist.Process` | src/eval/cfg_recovery.cpp:97-176 | one iteration of the loop, on its maps, sets, queue, blocks and edges, is one step of the discovery |
| `RecoveryRun.Worklist.Run` | src/eval/cfg_recovery.cpp:79-176 | the loop ends and builds exactly the discovered graph |
| `GraphFacts.EdgesAreSuccessorPairs` | src/eval/cfg_recovery.cpp:133-166 | an edge is there if and only if its source's result names its target |
| `GraphFacts.TerminatorsMatchEdges` | src/eval/cfg_recovery.cpp:126-175 | out-edges are the terminator's targets in order; unevaluated blocks are UNREACHABLE, empty and without out-edges |
| `GraphFacts.ClosedGraph` | src/eval/cfg_recovery.cpp:95-176 | when the queue runs empty, the blocks are exactly the VPCs reachable from the entry |
| `GraphFacts.EdgeFlag` | src/eval/cfg_recovery.cpp:135-154 | an edge is flagged if and only if its target does not come after its source in processing order |
| `GraphFacts.EveryCycleIsCut` | src/eval/cfg_recovery.cpp:135-154 | every cycle has a flagged edge |
| `GraphFacts.ReachedForward` | src/eval/cfg_recovery.cpp:100-154 | every block is reached from the entry by unflagged edges alone |
| `Phi.MaxResultId` | src/eval/cfg_recovery.cpp:26-33 | the greatest id of all blocks, 0 if there is none |
| `Phi.TrackedRegs` | src/eval/cfg_recovery.cpp:180-188 | the configured registers, or all that incoming states name, sorted |
| `Phi.PhiPlacementExact` | src/eval/cfg_recovery.cpp:192-220 | a phi if and only if tracked, two in-edges, all states define it and not all alike; inputs are the in-edges one for one in order |
| `Phi.PhiIdsFresh` | src/eval/cfg_recovery.cpp:190-218 | no phi shares its id with another phi or an instruction |
| `Phi.ConstructPhis` | src/eval/cfg_recovery.cpp:192-220 | the nested loops give every block exactly its specified phis |
| `FullSsa.ResolveSubst` | src/eval/cfg_recovery.cpp:46-58 | ends on every map; on a ranked one, in any iteration order and updating the map in place, every key gets the end of its chain and the cycle guard never fires |
| `FullSsa.StepsGoEarlier` | src/eval/cfg_recovery.cpp:238-246 | an immediate definition that is an entry symbol belongs to a strictly earlier block |
| `FullSsa.DefinesRanked` | src/eval/cfg_recovery.cpp:228-248 | so the map of immediate definitions has no cycle |
| `FullSsa.ResolvedUnique` | src/eval/cfg_recovery.cpp:46-58 | the resolved map is the only one |
| `FullSsa.BuildSubst` | src/eval/cfg_recovery.cpp:228-248 | the map defines exactly the entry symbols: phi, else input for the entry, else first incoming value |
| `FullSsa.NoEntrySymbolSurvives` | src/eval/cfg_recovery.cpp:251-258 | no instruction, phi or terminator mentions an entry symbol afterwards |
| `FullSsa.RewriteAll` | src/eval/cfg_recovery.cpp:251-258 | the in-place loops rewrite every operand, phi input and condition, and nothing else |
| `FullSsa.Recover` | src/eval/cfg_recovery.cpp:62-262 | the whole recovery: the discovered graph, its phis, and in full-SSA mode the rewritten blocks with the guard never firing |
| `SsaMeaning.SubstituteMeans` | src/eval/cfg_recovery.cpp:36-42 | a rewritten value denotes what the raw one denotes with the entry symbols bound to the registers |
| `SsaMeaning.DefinedEarlier` | src/eval/cfg_recovery.cpp:228-248 | a block's definitions are constants, inputs, phis or results of strictly earlier blocks |
| `SsaMeaning.PhiWired` | src/eval/cfg_recovery.cpp:201-217 | through any edge, the entry's in-edges included, a phi reads what the register holds there |
| `SsaMeaning.PlainValue` | src/eval/cfg_recovery.cpp:208-246 | without a phi all in-edges of a block other than the entry carry one value, and the block's phis do not disturb it |
| `SsaPaths.VisitExact` | src/eval/cfg_recovery.cpp:228-259 | a visit of any block shows what the raw segment shows if and only if every register that an operand or the condition mentions has its value |
| `SsaPaths.FirstVisitExact` | src/eval/cfg_recovery.cpp:236-239 | the first visit agrees in every environment if and only if the entry mentions no register that has a phi there |
| `SsaPaths.EntryReturnExact` | src/eval/cfg_recovery.cpp:236-246 | after an edge back to the entry the visit agrees if and only if every register it mentions without a phi holds its input again |
| `SsaPaths.SsaPathExact` | src/eval/cfg_recovery.cpp:107-259 | on any path, cyclic or back to the entry, with or without phis there, the recovered blocks show the same operands, conditions, memory and events as the raw segments if and only if every register read on the way is what it is taken to be |
| `SsaPaths.SsaPreservesPath` | src/eval/cfg_recovery.cpp:107-259 | so they do if returns to the entry restore what it mentions and it mentions no register with a phi there |
| `SsaPaths.SsaPreservesMeaning` | src/eval/cfg_recovery.cpp:107-259 | and on every path when no edge leads into the entry |
| `SsaPaths.RecoverSsa` | src/eval/cfg_recovery.cpp:62-262 | of the function that the recovery returns: no entry symbol in any block, and for all environments and paths the visits of the oracle's segments exactly on the right paths, on all of them when no edge leads into the entry; oracles that keep to what they are given meet the hypothesis |
| `Renumber.AppendRenumbered` | src/eval/segment_eval.cpp:362-380 | the two loops append the renumbered segment and return the id map |
| `Renumber.NewIds` | src/eval/segment_eval.cpp:365-371 | new ids are consecutive from the given one, in order |
| `Renumber.AlphaEquivalent` | src/eval/segment_eval.cpp:362-380 | a closed segment and its renumbering have the same values, memory, events and calls, whatever results they start from |
| `Renumber.ConditionKept` | src/eval/segment_eval.cpp:382-388 | a remapped condition has in its block the value of the original |
| `VmRecovery.RunVmSegment` | src/eval/segment_eval.cpp:405-441 | the last SELECT of an unresolved segment decides whether it is a branch |
| `VmRecovery.BranchIsSound` | src/eval/segment_eval.cpp:423-439 | a branch names two different VPCs; with constant arms the VPC is the first if and only if the recorded condition is not zero, in every run; with any arms, in a sane run of a checked segment, it is the first if the condition is 1 and the second if it is 0 |
| `VmRecovery.SettledOperand` | src/passes/transforms.cpp:519-534 | in a trace at which convergence has stopped by itself every operand is its own resolution |
| `VmRecovery.VmWorklist.Process` | src/eval/segment_eval.cpp:477-515 | one iteration keeps blocks, keys, edges, flags, id ranges, queue and the place of resumption consistent with the segments evaluated |
| `VmRecovery.VmWorklist.Run` | src/eval/segment_eval.cpp:477-515 | ends for every evaluator after at most `max_blocks` segments; each block was evaluated once or is still queued |
| `VmRecovery.ResumedAt` | src/eval/segment_eval.cpp:462-505 | the entry runs first, from its own address; every other segment runs with its VPC injected, from the dispatcher of the first segment that has one up to and including the first that names it, or from 0 |
| `VmRecovery.BlockEnds` | src/eval/segment_eval.cpp:482-514 | each evaluated block returns, branches or is unreachable as its segment says; the taken VPC's block is the target, the other VPC's the fallthrough, and the out-edges are these in order |
| `VmRecovery.ClassifyExact` | src/eval/segment_eval.cpp:416-441 | a segment returns if and only if the evaluator stopped at a return, and branches if and only if it stopped unresolved, the last SELECT has three operands and both targets are found |
| `VmRecovery.VmEdgeFlag` | src/eval/segment_eval.cpp:491-497 | an edge is flagged if and only if its target was processed no later than its source |
| `VmRecovery.VmForward` | src/eval/segment_eval.cpp:480-497 | unflagged edges follow processing order |
| `VmRecovery.VmCyclesAreCut` | src/eval/segment_eval.cpp:477-515 | every cycle of the recovered function has a flagged edge |
| `VmRecovery.VmReachedForward` | src/eval/segment_eval.cpp:454-515 | every block is reached from the entry by unflagged edges alone |
| `VmRecovery.VmClosed` | src/eval/segment_eval.cpp:477-515 | when the queue runs empty every block has been evaluated, and the blocks are exactly the VPCs that are reachable from the entry |
| `VmRecovery.IdsGloballyUnique` | src/eval/segment_eval.cpp:511-513 | ids are unique across the whole recovered function if they are in each segment |
| `VmRecovery.BranchConditionKept` | src/eval/segment_eval.cpp:511-514 | every block has its segment's effects, and its condition the value it had there, if the segment refers only to itself |
| `VmSegments.EvaluateVmSegment` | src/eval/segment_eval.cpp:405-441 | a new evaluator, its run with the fixed limits and the classification of its trace |
| `VmSegments.AnswerSteps` | src/eval/segment_eval.cpp:416-477 | an evaluation goes on exactly while it has taken fewer than 50000 steps and has not stopped by itself, with at most 2000 VM instructions |
| `VmSegments.AnswerExact` | src/eval/segment_eval.cpp:416-441 | the segment returns if and only if the evaluation stopped at a return of the VM or of the code, branches only if it stopped unresolved, and its dispatcher is where it stopped |
| `VmSegments.LoggedStandalone` | src/eval/segment_eval.cpp:405-441 | with the evaluator as oracle every segment has unique ids, refers only to its own earlier results, and computes its condition itself |
| `VmSegments.RecoveredIdsUnique` | src/eval/segment_eval.cpp:477-515 | so ids are unique across the whole recovered function |
| `VmSegments.RecoveredConditionKept` | src/eval/segment_eval.cpp:511-514 | and every block has its segment's effects, and its condition the value it had there |
| `Leaders.ScanWindow` | src/eval/segment_eval.cpp:179-210 | the loop stops at the specified instruction for the specified reason |
| `Leaders.RunExtent` | src/eval/segment_eval.cpp:179-210 | the instructions of a block are exactly those before the next leader, up to the first transfer or return, the limit of 8000 or the end of the window |
| `Leaders.RecoverNative` | src/eval/segment_eval.cpp:278-348 | leaders strictly grow from pass to pass, of which there are 64 at most; stopping early means every block of the last graph starts at a leader; each block holds what lifting exactly the instructions of its scan yields, and ends as the last of them says: a conditional transfer goes to its target and falls through to the address after it, a return returns, a leader is jumped to, and anything unresolved is unreachable |
| `Leaders.EdgesCarryRegs` | src/eval/segment_eval.cpp:299-336 | every edge carries the registers that lifting the block it leaves yields |
| `Leaders.SeenAreNamed` | src/eval/segment_eval.cpp:304-333 | the discovered leaders are exactly the targets the oracle names, and the entry |
| `Leaders.NoLeaderInside` | src/eval/segment_eval.cpp:181-190 | no block contains a leader strictly inside its instruction run |
| `Leaders.BlocksDisjoint` | src/eval/segment_eval.cpp:287-348 | at the fixpoint different blocks cover disjoint addresses where decoding does not overlap |
| `Guided.FoldSameIds` | src/passes/transforms.cpp:538-562 | folding never inserts, removes or renames an instruction |
| `Guided.SweepSameIds` | src/eval/guided_eval.cpp:252-269 | neither does promotion |
| `Guided.AddressCount` | src/eval/guided_eval.cpp:73-76 | an image of n bytes has at most n addresses, which bounds the visited set |
| `Guided.LiftsToTerminator` | src/eval/guided_eval.cpp:214-242 | exactly the instructions up to the first `ret`, `jmp` or `call` are lifted; only a `ret` into safe memory before a dispatcher is known goes elsewhere, and any other `ret` stops |
| `GuidedExact.WindowExact` | src/eval/guided_eval.cpp:214-242 | instruction by instruction the emitted ones are appended and the registers passed on, up to the first terminator; a `ret` folds, and goes on where its jump resolves to safe memory and no dispatcher is known, or stops as the stack pointer says |
| `GuidedExact.JumpTargetExact` | src/eval/guided_eval.cpp:105-119 | there is a target if and only if the first operand of the last jump or call is or refers to a constant |
| `GuidedExact.VpcExact` | src/eval/guided_eval.cpp:78-103 | the VPC is known if and only if the register refers to a constant, or to a load from a safe constant address whose eight bytes are held; it is that constant, or what the bytes join to |
| `GuidedExact.VpcSound` | src/eval/guided_eval.cpp:78-103 | in every run in which memory has the held bytes when that load is reached, it is the register's value |
| `GuidedExact.OptimizedRounds` | src/eval/guided_eval.cpp:248-271 | one round of folding and promoting at least, and further ones exactly while the last one promoted a load and the limit allows it |
| `GuidedExact.EvaluatedExact` | src/eval/guided_eval.cpp:206-313 | a window that can be read is lifted and optimized; control follows a resolved target inside the image, and an unresolved jump records the last open branch with its second operand as the taken target and its third as the other |
| `GuidedExact.ArrivedExact` | src/eval/guided_eval.cpp:160-204 | the first address visited twice is the dispatcher and a second visit to any other an inner loop; at the dispatcher the handler is catalogued with both VPCs, its address and its range, and the run stops or goes on as the VPCs say |
| `GuidedExact.HandlersFollow` | src/eval/guided_eval.cpp:164-204 | in every run the handlers follow the VPC trace: each stands between two adjacent entries, its VPCs before and after, under the address from which control came back to the dispatcher |
| `GuidedExact.SeededExact` | src/eval/guided_eval.cpp:145-150 | the initial registers are the injected ones, and the fixed stack pointer unless it is injected |
| `Guided.JumpTargetSound` | src/eval/guided_eval.cpp:105-119 | in every run the operand of the last jump or call denotes the address that is followed |
| `Guided.EvaluatedKeeps` | src/eval/guided_eval.cpp:206-313 | the next address is the resolved jump target inside the image, or the stop reason says what was missing; the catalog is untouched |
| `Guided.DispatchedKeeps` | src/eval/guided_eval.cpp:164-197 | a dispatcher visit keeps the catalog: one trace entry per VM instruction, no two adjacent ones alike, ranges non-empty, ordered and disjoint, frequencies exact |
| `Guided.ArrivedKeeps` | src/eval/guided_eval.cpp:160-204 | either the visited set grows by a new address, or it is reset and the count increases below the limit, or the run stops |
| `Guided.TurnsKeep` | src/eval/guided_eval.cpp:160-313 | the catalog, the VM instruction limit and progress hold after any number of turns |
| `Guided.TurnsBounded` | src/eval/guided_eval.cpp:159-313 | for every decoder, lifter and `max_steps` the turns are at most (VM instruction limit + 1) times (image size + 2) |
| `Guided.FilledWindowsBoundTurns` | src/eval/guided_eval.cpp:159-217 | when every window decodes to something, the turns are at most `max_steps` |
| `GuidedMeaning.OptimizedExact` | src/eval/guided_eval.cpp:248-271 | folding and then promoting, up to three times, keeps every state of a sane run if and only if in each round that is run every promotion's bytes are right |
| `GuidedMeaning.ConvergeWhole` | src/passes/transforms.cpp:508-562 | without private stores, convergence leaves no dangling reference |
| `GuidedMeaning.ReturnedClosed` | src/eval/guided_eval.cpp:159-323 | after any number of turns and the final optimization ids are unique and every reference is to an earlier result |
| `GuidedRun.GuidedEvaluator.ResolveJmpTarget` | src/eval/guided_eval.cpp:105-119 | the backward search finds the constant that the last jump or call resolves to |
| `GuidedRun.GuidedEvaluator.ResolveVpc` | src/eval/guided_eval.cpp:78-103 | the VPC register's resolved constant, or what the bytes hold where a load of safe memory resolves to |
| `GuidedRun.GuidedEvaluator.CheckVmexit` | src/eval/guided_eval.cpp:121-131 | a return exactly at the initial stack pointer, a call out exactly sixteen bytes below it |
| `GuidedRun.GuidedEvaluator.LiftWindow` | src/eval/guided_eval.cpp:214-242 | the loop computes the specified window |
| `GuidedRun.GuidedEvaluator.OptimizeAndPromote` | src/eval/guided_eval.cpp:248-271 | the three rounds compute the specified fold and promotion |
| `GuidedRun.GuidedEvaluator.RecordVjcc` | src/eval/guided_eval.cpp:279-300 | records exactly the last conditional jump whose condition is not a constant, with its constant arms |
| `GuidedRun.GuidedEvaluator.CatalogHandler` | src/eval/guided_eval.cpp:167-172 | appends the handler exactly when a VPC is known and instructions were emitted |
| `GuidedRun.GuidedEvaluator.Dispatch` | src/eval/guided_eval.cpp:164-197 | the fields change as the specified visit says |
| `GuidedRun.GuidedEvaluator.Arrive` | src/eval/guided_eval.cpp:160-204 | as the specified arrival says |
| `GuidedRun.GuidedEvaluator.Evaluate` | src/eval/guided_eval.cpp:206-313 | as the specified evaluation of a window says |
| `GuidedRun.GuidedEvaluator.Loop` | src/eval/guided_eval.cpp:159-313 | the loop makes exactly the turns that its guard allows |
| `GuidedRun.GuidedEvaluator.Run` | src/eval/guided_eval.cpp:135-331 | report and fields are those of the last turn, optimized; the ranges lie in the trace before that, and in the returned one if and only if the last range does, which holds at a fixed point; both bounds on turns hold |
| `Guided.FrequenciesSum` | src/eval/guided_eval.cpp:167-172 | handler frequencies sum to the number of handlers |
| `Limits.ForwardExact` | src/passes/transforms.cpp:178-206 | forwarding is right if and only if nothing has changed the bytes the last store under the load's key wrote |
| `Limits.OverlapBreaksForwarding` | src/passes/transforms.cpp:164-209 | a trace with overlapping accesses for which it is wrong |
| `Limits.LaterRoundReadsTheFuture` | src/eval/segment_eval.cpp:98-133 | a sane trace, with bytes that agree with memory, whose second round gives a load the value stored after it, and whose run changes |
| `VjccLimits.DependentArmGoesElsewhere` | src/eval/segment_eval.cpp:55-89 | a sane dispatch whose taken arm depends on the flag goes to neither target when the flag is 8 |
| `VjccLimits.RenamedConditionMisleads` | src/eval/segment_eval.cpp:60-67 | with two stores to one address, one through the condition and one through what it copies, the condition is 1 and the VPC is neither target |
| `VjccLimits.StoreConditionMisleads` | src/eval/segment_eval.cpp:60-67 | with the result of a store as condition, the condition is 0 and the VPC is neither target |
| `SsaLimits.EntryLoopLosesMeaning` | src/eval/cfg_recovery.cpp:190-248 | a discovered counting loop on an entry without phi, whose second visit is wrong |
| `SsaLimits.EntryPhiLosesMeaning` | src/eval/cfg_recovery.cpp:192-239 | a discovered graph whose entry has a phi for the register it branches on, and whose first visit is wrong |
| `GuidedLimits.RangeOutlivesTrace` | src/eval/guided_eval.cpp:167-172 | a run that catalogs the range 2 to 4 and returns fewer than 4 instructions |
| `GuidedLimits.EmptyWindowsTakeNoSteps` | src/eval/guided_eval.cpp:159-217 | a run of four turns with `max_steps` 2 |

## Left out

- Lifting and disassembly: the decoder and the lifter are parameters. Of the lifter it is assumed only that it refers to what it has emitted and gives LOAD one operand and STORE two; that evaluated segments are closed also uses that it annotates no STORE as `vm_private` (src/lifter/x64_lifter.cpp:144, 171, 248, 262, 284).
- Text: labels, dumps, `to_string`, the LLVM emitter. Files: the PE loader, the pipeline, the command line, configuration by target.
- The import-table cracker, the Python bindings, the server and the IDA plugin.
- `stack_rewrite_instrs`, which only annotates, and `dead_dep_analysis`, which returns its input.
- 32-bit ids are unbounded naturals: running out of ids is not modelled. `Const` bits are carried along and never change a value; all arithmetic has 64 bits.
- The address reference of a `SymMem` is opaque: a `SymMem` is a fixed input of the environment, so renumbering, which does not remap it, does not change it.
- Oracles, callees and decoders are functions of their arguments. Each VPC is asked once, so an oracle with state, such as one that allocates ids, is covered by the function of its answers.
- Blocks recovered without full-SSA mode hold values of the first predecessor; only the structural theorems apply to them.
- SsaPaths.SsaPreservesMeaning: assumes that no edge leads into the entry, because full-SSA mode is wrong on some graphs where one does (`SsaLimits`); `SsaPaths.SsaPathExact` says on which paths, exactly.
- Vjcc.VjccSound: speaks of conditions 1 and 0 only, as the extraction does, and the hypothesis on addresses is sufficient, not exact; SELECTs with constant arms need neither (`SelectTargets.SelectBranchSound`).
- GuidedRun.GuidedEvaluator.Run: copying image bytes into the byte memory when a safe range is added is left to the memory given to the constructor, and reading a window of the image is part of the decoder.
- Leaders.RecoverNative: the register states and traces of native segments come from an abstract lifter, so nothing is claimed about their ids; whether 64 passes suffice is not claimed.
