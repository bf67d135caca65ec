/** The guided evaluator as functions on its state: the control loop that chases a VM dispatcher,
    with its visited set, VPC trace and handler catalog, over an abstract decoder and lifter. */
module Guided {
  import opened Ir
  import opened Arithmetic
  import opened Machine
  import opened References
  import opened Rewrites
  import opened Convergence
  import BM = ByteMemory
  import Promotion
  import Collections

  datatype EvalResult =
    | IN_PROGRESS | RETURNED | VMEXIT_RET | VMEXIT_CALL | UNRESOLVED_TARGET | TARGET_OUTSIDE_IMAGE
    | VPC_CONVERGED | INNER_LOOP | MAX_STEPS | MAX_VM_INSNS | OUT_OF_BOUNDS

  /** The address under which a handler is catalogued. */
  datatype Va = Va(addr: Word)

  datatype HandlerRecord = HandlerRecord(vpcBefore: Option<Word>, vpcAfter: Option<Word>, handlerVa: Va, irStart: nat,
                                         irEnd: nat)

  datatype VjccBranch = VjccBranch(vjccVa: Word, vpcTaken: Option<Word>, vpcNotTaken: Option<Word>)

  datatype EvalReport = EvalReport(result: EvalResult, stopVa: Word, steps: int, vmInsnCount: int, irCount: nat,
                                   dispatcherVa: Option<Word>, finalVpc: Option<Word>)

  // ----- the abstract decoder and lifter -----

  datatype Insn = Insn(mnemonic: string, address: Word)

  /** The instructions disassembled at an address; None when its window leaves the image. */
  type Decoder = Word -> Option<seq<Insn>>

  type Regs = map<string, Value>

  datatype Emission = Emission(op: Op, operands: seq<Value>, annotations: Annotations)

  datatype Lifted = Lifted(emits: seq<Emission>, regs: Regs)

  /** What one instruction emits, given the registers and the next result id. */
  type Lifter = (Insn, Regs, nat) -> Lifted

  ghost predicate RegsBelow(regs: Regs, bound: nat) { forall r :: r in regs ==> Below(regs[r], bound) }

  ghost predicate EmitsFit(emits: seq<Emission>, id: nat) {
    forall k :: 0 <= k < |emits| ==>
      && (forall j :: 0 <= j < |emits[k].operands| ==> Below(emits[k].operands[j], id + k))
      && (emits[k].op == LOAD ==> |emits[k].operands| == 1)
      && (emits[k].op == STORE ==> |emits[k].operands| == 2)
  }

  /** The lifter emits through the function, so it refers only to what has been emitted. */
  ghost predicate LifterFits(lift: Lifter) {
    forall insn, regs, id: nat :: RegsBelow(regs, id) ==>
      && EmitsFit(lift(insn, regs, id).emits, id)
      && RegsBelow(lift(insn, regs, id).regs, id + |lift(insn, regs, id).emits|)
  }

  ghost predicate LiftingFits(lift: Lifter, instrs: Trace, nextId: nat, regs: Regs) {
    LifterFits(lift) && WellFormed(instrs) && RegsBelow(regs, nextId)
  }

  function Next(a: Word): Word { a + 1 }

  /** The addresses of an image of `size` bytes mapped at `at`. */
  function Addresses(at: Word, size: nat): set<Word>
    decreases size
  {
    if size == 0 then {} else {at} + Addresses(Next(at), size - 1)
  }

  lemma {:induction false} AddressCount(at: Word, size: nat)
    ensures |Addresses(at, size)| <= size
    decreases size
  {
    hide Next;
    if size > 0 { AddressCount(Next(at), size - 1); }
  }

  predicate IsInImage(va: Word, at: Word, size: nat)
    ensures IsInImage(va, at, size) <==> va in Addresses(at, size)
    decreases size
  {
    hide Next;
    size > 0 && (va == at || IsInImage(va, Next(at), size - 1))
  }

  // ----- the catalog -----

  function CountVa(handlers: seq<HandlerRecord>, va: Va): nat {
    if |handlers| == 0 then 0
    else CountVa(handlers[..|handlers| - 1], va) + if handlers[|handlers| - 1].handlerVa == va then 1 else 0
  }

  function FreqOf(freq: map<Va, nat>, va: Va): nat { if va in freq then freq[va] else 0 }

  /** Every frequency is the number of catalogued handlers at that address. */
  ghost predicate FreqExact(freq: map<Va, nat>, handlers: seq<HandlerRecord>) {
    && (forall va :: FreqOf(freq, va) == CountVa(handlers, va))
    && (forall va :: va in freq ==> freq[va] > 0)
  }

  /** Handler ranges are non-empty, in order, disjoint, and end by `bound`. */
  ghost predicate Ranges(handlers: seq<HandlerRecord>, bound: nat) {
    && (forall i :: 0 <= i < |handlers| ==>
          handlers[i].irStart < handlers[i].irEnd <= bound && handlers[i].vpcBefore.Some?)
    && (forall i, j :: 0 <= i < j < |handlers| ==> handlers[i].irEnd <= handlers[j].irStart)
  }

  /** No two adjacent entries are both symbolic or both the same constant. */
  ghost predicate Moving(trace: seq<Option<Word>>) { forall i :: 0 < i < |trace| ==> trace[i - 1] != trace[i] }

  function Last(trace: seq<Option<Word>>): Option<Word> { if |trace| == 0 then None else trace[|trace| - 1] }

  ghost predicate CatalogFits(vpcTrace: seq<Option<Word>>, vmInsnCount: int, lastVpc: Option<Word>,
                              handlers: seq<HandlerRecord>, freq: map<Va, nat>, bound: nat) {
    && vmInsnCount == |vpcTrace| && lastVpc == Last(vpcTrace) && Moving(vpcTrace)
    && Ranges(handlers, bound) && FreqExact(freq, handlers)
  }

  // ----- queries on the trace -----

  /** The last jump or call, searched from the end. */
  function LastJump(g: Trace, n: nat): (r: Option<nat>)
    requires n <= |g|
    ensures r.Some? ==> r.value < n && g[r.value].op in {JMP, CALL}
    ensures r.Some? ==> forall j :: r.value < j < n ==> g[j].op !in {JMP, CALL}
    ensures r.None? ==> forall j :: 0 <= j < n ==> g[j].op !in {JMP, CALL}
  {
    if n == 0 then None else if g[n - 1].op in {JMP, CALL} then Some(n - 1) else LastJump(g, n - 1)
  }

  /** The constant that the last jump's target resolves to. */
  function JumpTarget(g: Trace): Option<Word>
    requires Ordered(g)
  {
    var j := LastJump(g, |g|);
    if j.None? || |g[j.value].operands| == 0 then None
    else
      var v := Resolve(g, g[j.value].operands[0]);
      if v.Const? then Some(v.value) else None
  }

  predicate OpenBranch(d: Instruction) { d.op == CJMP && |d.operands| > 0 && !d.operands[0].Const? }

  /** The last conditional jump whose condition is not a constant. */
  function LastOpenBranch(g: Trace, n: nat): (r: Option<nat>)
    requires n <= |g|
    ensures r.Some? ==> r.value < n && OpenBranch(g[r.value]) && forall j :: r.value < j < n ==> !OpenBranch(g[j])
    ensures r.None? ==> forall j :: 0 <= j < n ==> !OpenBranch(g[j])
  {
    if n == 0 then None else if OpenBranch(g[n - 1]) then Some(n - 1) else LastOpenBranch(g, n - 1)
  }

  function ConstAt(vs: seq<Value>, k: nat): Option<Word> {
    if k < |vs| && vs[k].Const? then Some(vs[k].value) else None
  }

  // ----- the fold passes keep the length and the ids -----

  ghost predicate SameIds(g: Trace, r: Trace) {
    |r| == |g| && forall i :: 0 <= i < |g| ==> r[i].resultId == g[i].resultId
  }

  lemma {:induction false} TableSameIds(table: seq<Pass>, n: nat, h: Host, g: Trace, hits: Hits)
    requires WellFormed(g) && n <= |table| && forall k :: 0 <= k < |table| ==> table[k].Local?
    ensures SameIds(g, RunTable(table, n, h, g, hits).trace)
  {
    hide WellFormed, PassName, Apply;
    if n > 0 { TableSameIds(table, n - 1, h, g, hits); }
  }

  lemma {:induction false} ConvergeSameIds(table: seq<Pass>, h: Host, g: Trace, hits: Hits, it: nat, maxIters: int)
    requires WellFormed(g) && forall k :: 0 <= k < |table| ==> table[k].Local?
    ensures SameIds(g, Converge(table, h, g, hits, it, maxIters).trace)
    decreases maxIters - it
  {
    hide WellFormed, RunTable;
    if it < maxIters {
      TableSameIds(table, |table|, h, g, hits);
      var r := Round(table, h, g, hits);
      if r.any { ConvergeSameIds(table, h, r.trace, r.hits, it + 1, maxIters); }
    }
  }

  /** Folding never inserts, removes or renames an instruction. */
  lemma FoldSameIds(h: Host, g: Trace, maxIters: int)
    requires WellFormed(g)
    ensures SameIds(g, FoldConverge(h, g, maxIters).trace)
  {
    hide WellFormed, Converge;
    ConvergeSameIds(FOLD_PASSES, h, g, map[], 0, maxIters);
  }

  lemma SweepInstrId(g: Trace, i: nat, bytes: BM.Bytes, ranges: seq<BM.MemRange>)
    requires Ordered(g) && i < |g|
    ensures Promotion.SweepInstr(g, i, bytes, ranges).resultId == g[i].resultId
  {
    hide BM.Load, BM.InSafeRange, Resolve, Ordered;
  }

  lemma {:induction false} SweepSameIds(g: Trace, bytes: BM.Bytes, ranges: seq<BM.MemRange>, n: nat)
    requires WellFormed(g) && n <= |g|
    ensures SameIds(g, Promotion.SweepTo(g, bytes, ranges, n).trace)
  {
    hide Promotion.SweepInstr, WellFormed;
    if n > 0 {
      SweepSameIds(g, bytes, ranges, n - 1);
      var w := Promotion.SweepTo(g, bytes, ranges, n - 1);
      OrderedOf(w.trace);
      SweepInstrId(w.trace, n - 1, w.bytes, ranges);
    }
  }

  // ----- the state of the evaluator -----

  const INIT_RSP: Word := 0x7FFF_FFFF_D000
  const STACK: BM.MemRange := BM.MemRange(0x7FFF_FFDF_D000, 0x8000_0000_D000)

  /** What does not change during a run. */
  datatype Setting = Setting(base: Word, imageSize: nat, vpcReg: string, decode: Decoder, lift: Lifter, h: Host,
                             ranges: seq<BM.MemRange>)

  datatype EvalState = EvalState(
    instrs: Trace, nextId: nat, regs: Regs, bytes: BM.Bytes,
    visited: set<Word>, jmpTrace: seq<Word>, dispatcherVa: Option<Word>,
    vpcTrace: seq<Option<Word>>, handlers: seq<HandlerRecord>, handlerFreq: map<Va, nat>,
    lastVpc: Option<Word>, irStart: nat, vmInsnCount: int, vjccBranches: seq<VjccBranch>)

  /** The trace under construction and the registers over it. */
  ghost predicate Fits(p: Setting, e: EvalState) {
    && LiftingFits(p.lift, e.instrs, e.nextId, e.regs)
    && forall i :: 0 <= i < |e.instrs| ==> e.instrs[i].resultId < e.nextId
  }

  lemma FitsTrace(p: Setting, e: EvalState)
    requires Fits(p, e)
    ensures WellFormed(e.instrs) && Ordered(e.instrs)
  {}

  /** A rewritten trace with the same ids fits as well. */
  lemma FitsRewritten(p: Setting, e: EvalState, g: Trace, bytes: BM.Bytes)
    requires Fits(p, e) && WellFormed(g) && SameIds(e.instrs, g)
    ensures Fits(p, e.(instrs := g, bytes := bytes))
  {
    hide WellFormed, LifterFits, RegsBelow;
  }

  // ----- lifting -----

  function Emitted(emits: seq<Emission>, id: nat): (r: Trace)
    ensures |r| == |emits|
  {
    seq(|emits|, k requires 0 <= k < |emits| =>
          Instruction(emits[k].op, emits[k].operands, id + k, emits[k].annotations))
  }

  lemma EmittedNext(emits: seq<Emission>, id: nat, k: nat)
    requires k < |emits|
    ensures Emitted(emits, id)[k..]
         == [Instruction(emits[k].op, emits[k].operands, id + k, emits[k].annotations)] + Emitted(emits, id)[k + 1..]
  {}

  function LiftOne(p: Setting, e: EvalState, insn: Insn): (r: EvalState)
    requires Fits(p, e)
    ensures Fits(p, r)
  {
    var l := p.lift(insn, e.regs, e.nextId);
    assert EmitsFit(l.emits, e.nextId) && RegsBelow(l.regs, e.nextId + |l.emits|);
    e.(instrs := e.instrs + Emitted(l.emits, e.nextId), nextId := e.nextId + |l.emits|, regs := l.regs)
  }

  function Folded(p: Setting, e: EvalState, maxIters: int): (r: EvalState)
    requires Fits(p, e)
    ensures Fits(p, r) && SameIds(e.instrs, r.instrs)
  {
    hide Fits, FoldConverge;
    FitsTrace(p, e);
    var g := FoldConverge(p.h, e.instrs, maxIters).trace;
    FoldSameIds(p.h, e.instrs, maxIters);
    FitsRewritten(p, e, g, e.bytes);
    e.(instrs := g)
  }

  /** Where a `ret` continues: a resolved target in safe memory, before a dispatcher is known. */
  function ReturnTo(p: Setting, e: EvalState): Option<Word>
    requires Ordered(e.instrs)
  {
    var t := JumpTarget(e.instrs);
    if t.Some? && e.dispatcherVa.None? && BM.InSafeRange(p.ranges, t.value) then t else None
  }

  /** How the VM is left, told by the stack position. */
  function Vmexit(regs: Regs): Option<EvalResult> {
    if "rsp" !in regs || !regs["rsp"].Const? then None
    else if regs["rsp"].value == INIT_RSP then Some(VMEXIT_RET)
    else if regs["rsp"].value == INIT_RSP - 0x10 then Some(VMEXIT_CALL)
    else None
  }

  /** A lifted window: the state, where to go on, how many instructions were lifted, and whether to stop. */
  datatype Window = Window(state: EvalState, va: Word, lifted: nat, result: EvalResult)

  predicate Terminates(insn: Insn) { insn.mnemonic in ["ret", "jmp", "call"] }

  function AtReturn(p: Setting, e: EvalState, lifted: nat, start: Word): (r: Window)
    requires Fits(p, e)
    ensures Fits(p, r.state)
  {
    hide Fits;
    var f := Folded(p, e, 8);
    FitsTrace(p, f);
    match ReturnTo(p, f)
    case Some(t) => Window(f, t, lifted, IN_PROGRESS)
    case None => Window(f, start, lifted, match Vmexit(f.regs) case Some(x) => x case None => RETURNED)
  }

  /** The window from instruction `i` on, up to the first terminator. */
  function LiftFrom(p: Setting, e: EvalState, insns: seq<Insn>, i: nat, start: Word): (r: Window)
    requires Fits(p, e) && i <= |insns|
    ensures Fits(p, r.state)
    decreases |insns| - i
  {
    hide Fits, AtReturn;
    if i == |insns| then Window(e, start, i, IN_PROGRESS)
    else
      var e' := LiftOne(p, e, insns[i]);
      if insns[i].mnemonic == "ret" then AtReturn(p, e', i + 1, start)
      else if Terminates(insns[i]) then Window(e', start, i + 1, IN_PROGRESS)
      else LiftFrom(p, e', insns, i + 1, start)
  }

  /** Folds and promotes loads, while loads are promoted. */
  function Optimized(p: Setting, g: Trace, bytes: BM.Bytes, rounds: nat): (r: Promotion.Sweep)
    requires WellFormed(g)
    ensures WellFormed(r.trace)
    decreases rounds
  {
    hide WellFormed, FoldConverge, Promotion.SweepTo, Promotion.Hit;
    if rounds == 0 then Promotion.Sweep(g, bytes)
    else
      var f := FoldConverge(p.h, g, 8).trace;
      var w := Promotion.SweepTo(f, bytes, p.ranges, |f|);
      if Promotion.Hit(f, w.trace) then Optimized(p, w.trace, w.bytes, rounds - 1) else w
  }

  lemma {:induction false} OptimizedSameIds(p: Setting, g: Trace, bytes: BM.Bytes, rounds: nat)
    requires WellFormed(g)
    ensures SameIds(g, Optimized(p, g, bytes, rounds).trace)
    decreases rounds
  {
    hide WellFormed, FoldConverge, Promotion.SweepTo, Promotion.Hit;
    if rounds > 0 {
      FoldSameIds(p.h, g, 8);
      var f := FoldConverge(p.h, g, 8).trace;
      SweepSameIds(f, bytes, p.ranges, |f|);
      var w := Promotion.SweepTo(f, bytes, p.ranges, |f|);
      if Promotion.Hit(f, w.trace) { OptimizedSameIds(p, w.trace, w.bytes, rounds - 1); }
    }
  }

  // ----- the dispatcher -----

  /** The VPC register, resolved, if need be through a load from safe memory. */
  function VpcOf(p: Setting, e: EvalState): Option<Word>
    requires Ordered(e.instrs)
  {
    if p.vpcReg !in e.regs then None
    else
      var v := Resolve(e.instrs, e.regs[p.vpcReg]);
      if v.Const? then Some(v.value)
      else if v.InstrRef? then
        match Def(e.instrs, v.id)
        case None => None
        case Some(d) =>
          if d.op == LOAD && |d.operands| > 0 then
            var a := Resolve(e.instrs, d.operands[0]);
            if a.Const? && BM.InSafeRange(p.ranges, a.value) then BM.Load(e.bytes, a.value) else None
          else None
      else None
  }

  function LastJmp(e: EvalState): Va { Va(if |e.jmpTrace| == 0 then 0 else e.jmpTrace[|e.jmpTrace| - 1]) }

  /** Catalogs the handler that has just run, if a VPC is known and it emitted anything. */
  function Catalogued(e: EvalState, cur: Option<Word>): EvalState {
    if e.lastVpc.Some? && e.irStart < |e.instrs| then
      e.(handlers := e.handlers + [HandlerRecord(e.lastVpc, cur, LastJmp(e), e.irStart, |e.instrs|)],
         handlerFreq := e.handlerFreq[LastJmp(e) := FreqOf(e.handlerFreq, LastJmp(e)) + 1])
    else e
  }

  /** One more VM instruction. */
  function Advanced(e: EvalState, cur: Option<Word>): EvalState {
    e.(lastVpc := cur, vpcTrace := e.vpcTrace + [cur], irStart := |e.instrs|, vmInsnCount := e.vmInsnCount + 1)
  }

  /** An arrival: the state, whether to stop, and the final VPC to report. */
  datatype Arrival = Arrival(state: EvalState, result: EvalResult, finalVpc: Option<Word>)

  /** A visit to the dispatcher: catalogs the handler that just ran, and records the VPC. */
  function Dispatched(p: Setting, e: EvalState, va: Word, maxVmInsns: int): Arrival
    requires Ordered(e.instrs)
  {
    var cur := VpcOf(p, e);
    var c := Catalogued(e, cur);
    if cur.Some? && cur == e.lastVpc then Arrival(c, VPC_CONVERGED, cur)
    else if cur.None? && e.lastVpc.None? && e.vmInsnCount > 0 then Arrival(c, INNER_LOOP, None)
    else
      var r := Advanced(c, cur);
      if r.vmInsnCount >= maxVmInsns then Arrival(r, MAX_VM_INSNS, cur)
      else Arrival(r.(visited := {va}), IN_PROGRESS, None)
  }

  /** What happens on arriving at `va`, before its window is lifted. */
  function Arrived(p: Setting, e: EvalState, va: Word, maxVmInsns: int): Arrival
    requires Ordered(e.instrs)
  {
    if va in e.visited then
      var d := if e.dispatcherVa.None? then e.(dispatcherVa := Some(va)) else e;
      if d.dispatcherVa == Some(va) then Dispatched(p, d, va, maxVmInsns) else Arrival(d, INNER_LOOP, None)
    else Arrival(e.(visited := e.visited + {va}), IN_PROGRESS, None)
  }

  // ----- one turn -----

  /** The branches with the last conditional jump whose condition is not a constant, if there is one. */
  function Recorded(e: EvalState, va: Word): seq<VjccBranch> {
    var j := LastOpenBranch(e.instrs, |e.instrs|);
    e.vjccBranches +
    (if j.None? then []
     else [VjccBranch(va, ConstAt(e.instrs[j.value].operands, 1), ConstAt(e.instrs[j.value].operands, 2))])
  }

  /** A lifted window, optimized. */
  function OptimizedWindow(p: Setting, w: Window): (r: Window)
    requires Fits(p, w.state)
    ensures Fits(p, r.state)
  {
    hide Fits, Optimized;
    FitsTrace(p, w.state);
    var o := Optimized(p, w.state.instrs, w.state.bytes, 3);
    OptimizedSameIds(p, w.state.instrs, w.state.bytes, 3);
    FitsRewritten(p, w.state, o.trace, o.bytes);
    w.(state := w.state.(instrs := o.trace, bytes := o.bytes))
  }

  /** Where an optimized window leads. */
  function Led(p: Setting, w: Window): (r: Window)
    requires Fits(p, w.state)
    ensures Fits(p, r.state)
  {
    FitsTrace(p, w.state);
    if w.result != IN_PROGRESS then w
    else
      match JumpTarget(w.state.instrs)
      case None => w.(state := w.state.(vjccBranches := Recorded(w.state, w.va)), result := UNRESOLVED_TARGET)
      case Some(t) => if IsInImage(t, p.base, p.imageSize) then w.(va := t) else w.(result := TARGET_OUTSIDE_IMAGE)
  }

  /** Lifts and optimizes the window at `va`, and finds where it leads. */
  function Evaluated(p: Setting, e: EvalState, va: Word): (r: Window)
    requires Fits(p, e)
    ensures Fits(p, r.state)
  {
    var j := e.(jmpTrace := e.jmpTrace + [va]);
    match p.decode(va)
    case None => Window(j, va, 0, OUT_OF_BOUNDS)
    case Some(insns) =>
      hide Fits, LiftFrom, OptimizedWindow, Led;
      Led(p, OptimizedWindow(p, LiftFrom(p, j, insns, 0, va)))
  }

  /** Between two turns. */
  datatype Position = Position(state: EvalState, va: Word, steps: int, result: EvalResult, finalVpc: Option<Word>)

  function Turn(p: Setting, at: Position, maxVmInsns: int): (r: Position)
    requires Fits(p, at.state)
    ensures Fits(p, r.state)
  {
    FitsTrace(p, at.state);
    var a := Arrived(p, at.state, at.va, maxVmInsns);
    ArrivedFits(p, at.state, at.va, maxVmInsns);
    if a.result != IN_PROGRESS then Position(a.state, at.va, at.steps, a.result, a.finalVpc)
    else
      hide Fits, Evaluated, Arrived;
      var w := Evaluated(p, a.state, at.va);
      Position(w.state, w.va, at.steps + w.lifted, w.result, None)
  }

  lemma ArrivedFits(p: Setting, e: EvalState, va: Word, maxVmInsns: int)
    requires Fits(p, e) && Ordered(e.instrs)
    ensures Fits(p, Arrived(p, e, va, maxVmInsns).state)
  {
    hide LiftingFits, Arrived;
    ArrivedTrace(p, e, va, maxVmInsns);
  }

  lemma ArrivedTrace(p: Setting, e: EvalState, va: Word, maxVmInsns: int)
    requires Ordered(e.instrs)
    ensures var r := Arrived(p, e, va, maxVmInsns).state;
            r.instrs == e.instrs && r.nextId == e.nextId && r.regs == e.regs
  {
    hide Ordered, Dispatched;
    DispatchedTrace(p, e.(dispatcherVa := Some(va)), va, maxVmInsns);
    DispatchedTrace(p, e, va, maxVmInsns);
  }

  lemma DispatchedTrace(p: Setting, e: EvalState, va: Word, maxVmInsns: int)
    requires Ordered(e.instrs)
    ensures var r := Dispatched(p, e, va, maxVmInsns).state;
            r.instrs == e.instrs && r.nextId == e.nextId && r.regs == e.regs
  {
    hide VpcOf, Ordered, Catalogued;
    CataloguedRest(e, VpcOf(p, e));
  }

  // ----- the whole run -----

  /** The position after `n` turns, or where the run stopped before. */
  function Turns(p: Setting, e: EvalState, start: Word, maxVmInsns: int, n: nat): (r: Position)
    requires Fits(p, e)
    ensures Fits(p, r.state)
  {
    hide Fits, Turn;
    if n == 0 then Position(e, start, 0, IN_PROGRESS, None)
    else
      var at := Turns(p, e, start, maxVmInsns, n - 1);
      if at.result == IN_PROGRESS then Turn(p, at, maxVmInsns) else at
  }

  /** The loop guard. */
  predicate Running(at: Position, maxSteps: int) { at.result == IN_PROGRESS && at.steps < maxSteps }

  /** The loop makes exactly `n` turns. */
  ghost predicate Makes(p: Setting, e: EvalState, start: Word, maxSteps: int, maxVmInsns: int, n: nat)
    requires Fits(p, e)
  {
    && (forall k :: 0 <= k < n ==> Running(Turns(p, e, start, maxVmInsns, k), maxSteps))
    && !Running(Turns(p, e, start, maxVmInsns, n), maxSteps)
  }

  /** The initial state: a concrete stack pointer, then the injected registers. */
  function Seeded(e: EvalState, initial: Regs): EvalState { e.(regs := e.regs["rsp" := Const64(INIT_RSP)] + initial) }

  predicate Unused(e: EvalState) {
    && e.instrs == [] && e.nextId == 0 && e.visited == {} && e.dispatcherVa.None? && e.irStart == 0
    && e.vpcTrace == [] && e.handlers == [] && e.handlerFreq == map[] && e.lastVpc.None? && e.vmInsnCount == 0
  }

  /** A new evaluator. */
  function Untouched(bytes: BM.Bytes): EvalState {
    EvalState([], 0, map[], bytes, {}, [], None, [], [], map[], None, 0, 0, [])
  }

  lemma SeededFits(p: Setting, e: EvalState, initial: Regs)
    requires LifterFits(p.lift) && Unused(e) && RegsBelow(initial, 0) && RegsBelow(e.regs, 0)
    ensures Fits(p, Seeded(e, initial)) && Unused(Seeded(e, initial))
  {
    hide LifterFits;
  }

  // ----- what a turn keeps -----

  ghost predicate Catalog(e: EvalState, bound: nat) {
    CatalogFits(e.vpcTrace, e.vmInsnCount, e.lastVpc, e.handlers, e.handlerFreq, bound)
  }

  /** Where control can be: the start, and the image. */
  ghost function Universe(p: Setting, start: Word): set<Word> { {start} + Addresses(p.base, p.imageSize) }

  ghost predicate Between(p: Setting, e: EvalState, va: Word, start: Word, maxVmInsns: int) {
    && Catalog(e, e.irStart) && e.irStart <= |e.instrs|
    && va in Universe(p, start) && e.visited <= Universe(p, start)
    && (e.vmInsnCount < maxVmInsns || e.vmInsnCount == 0)
  }

  lemma CataloguedKeeps(e: EvalState, cur: Option<Word>)
    requires Catalog(e, e.irStart) && e.irStart <= |e.instrs|
    ensures Catalog(Catalogued(e, cur), |e.instrs|)
  {
    hide Ranges, FreqExact, Moving;
    if e.lastVpc.Some? && e.irStart < |e.instrs| {
      var record := HandlerRecord(e.lastVpc, cur, LastJmp(e), e.irStart, |e.instrs|);
      FreqGrows(e.handlerFreq, e.handlers, record);
      RangesGrow(e.handlers, record, e.irStart);
    } else {
      RangesWiden(e.handlers, e.irStart, |e.instrs|);
    }
  }

  /** A visit to the dispatcher keeps the catalog, records a VPC that differs from the last one, or stops. */
  lemma DispatchedKeeps(p: Setting, e: EvalState, va: Word, maxVmInsns: int)
    requires Ordered(e.instrs) && Catalog(e, e.irStart) && e.irStart <= |e.instrs|
    ensures var a := Dispatched(p, e, va, maxVmInsns);
            && Catalog(a.state, |e.instrs|) && a.state.instrs == e.instrs
            && a.state.vmInsnCount <= e.vmInsnCount + 1
            && (a.result == IN_PROGRESS ==>
                  && a.state.irStart == |e.instrs| && a.state.visited == {va}
                  && a.state.vmInsnCount == e.vmInsnCount + 1 < maxVmInsns)
            && (a.result == VPC_CONVERGED ==>
                  a.finalVpc.Some? && a.finalVpc == e.lastVpc && a.state.vpcTrace == e.vpcTrace)
            && (a.result == INNER_LOOP ==> e.lastVpc.None? && e.vmInsnCount > 0 && a.state.vpcTrace == e.vpcTrace)
            && (a.result == MAX_VM_INSNS ==>
                  a.state.vmInsnCount >= maxVmInsns && a.state.vpcTrace == e.vpcTrace + [a.finalVpc])
  {
    hide CatalogFits, VpcOf, Ordered, Catalogued;
    var cur := VpcOf(p, e);
    CataloguedKeeps(e, cur);
    CataloguedRest(e, cur);
    if !(cur.Some? && cur == e.lastVpc) && !(cur.None? && e.lastVpc.None? && e.vmInsnCount > 0) {
      var c := Catalogued(e, cur);
      CatalogMoves(c.vpcTrace, c.vmInsnCount, c.lastVpc, c.handlers, c.handlerFreq, |e.instrs|, cur);
    }
  }

  lemma CataloguedRest(e: EvalState, cur: Option<Word>)
    ensures var c := Catalogued(e, cur);
            c == e.(handlers := c.handlers, handlerFreq := c.handlerFreq)
  {}

  /** Either the visited set grows by a new address, or it is reset and the count increases below
      the limit, or the run stops. */
  lemma ArrivedKeeps(p: Setting, e: EvalState, va: Word, start: Word, maxVmInsns: int)
    requires Ordered(e.instrs) && Between(p, e, va, start, maxVmInsns)
    ensures var a := Arrived(p, e, va, maxVmInsns);
            && Catalog(a.state, |e.instrs|) && a.state.instrs == e.instrs
            && e.vmInsnCount <= a.state.vmInsnCount <= e.vmInsnCount + 1
            && (a.result == IN_PROGRESS ==>
                  && Between(p, a.state, va, start, maxVmInsns)
                  && (|| (va !in e.visited && a.state.visited == e.visited + {va}
                          && a.state.vmInsnCount == e.vmInsnCount)
                      || (va in e.visited && a.state.visited == {va}
                          && a.state.vmInsnCount == e.vmInsnCount + 1 < maxVmInsns)))
  {
    hide CatalogFits, Dispatched, Ordered, Universe;
    CatalogWiden(e);
    var d := if e.dispatcherVa.None? then e.(dispatcherVa := Some(va)) else e;
    DispatchedKeeps(p, d, va, maxVmInsns);
    DispatchedCount(p, d, va, maxVmInsns);
  }

  lemma DispatchedCount(p: Setting, e: EvalState, va: Word, maxVmInsns: int)
    requires Ordered(e.instrs)
    ensures Dispatched(p, e, va, maxVmInsns).state.vmInsnCount >= e.vmInsnCount
  {
    hide VpcOf;
  }

  lemma CatalogWiden(e: EvalState)
    requires Catalog(e, e.irStart) && e.irStart <= |e.instrs|
    ensures Catalog(e, |e.instrs|)
  {
    hide Ranges, FreqExact, Moving;
    RangesWiden(e.handlers, e.irStart, |e.instrs|);
  }

  /** The first terminator of a window ends it. */
  lemma {:induction false} LiftsToTerminator(p: Setting, e: EvalState, insns: seq<Insn>, i: nat, start: Word)
    requires Fits(p, e) && i <= |insns|
    ensures var w := LiftFrom(p, e, insns, i, start);
            && i <= w.lifted <= |insns| && (i < |insns| ==> i < w.lifted)
            && (forall k :: i <= k < w.lifted - 1 ==> !Terminates(insns[k]))
            && (w.lifted < |insns| ==> w.lifted > 0 && Terminates(insns[w.lifted - 1]))
            && (w.result == IN_PROGRESS && w.va != start ==>
                  && insns[w.lifted - 1].mnemonic == "ret" && e.dispatcherVa.None? && BM.InSafeRange(p.ranges, w.va))
            && (w.result != IN_PROGRESS ==>
                  && insns[w.lifted - 1].mnemonic == "ret" && w.result in {RETURNED, VMEXIT_RET, VMEXIT_CALL})
            && w.state == e.(instrs := w.state.instrs, nextId := w.state.nextId, regs := w.state.regs)
            && |w.state.instrs| >= |e.instrs|
    decreases |insns| - i
  {
    hide Fits, FoldConverge, JumpTarget, BM.InSafeRange;
    if i < |insns| {
      var e' := LiftOne(p, e, insns[i]);
      if insns[i].mnemonic == "ret" { FoldedLength(p, e', 8); }
      if !Terminates(insns[i]) { LiftsToTerminator(p, e', insns, i + 1, start); }
    }
  }

  lemma FoldedLength(p: Setting, e: EvalState, maxIters: int)
    requires Fits(p, e)
    ensures |Folded(p, e, maxIters).instrs| == |e.instrs|
  {
    hide Fits, FoldConverge;
  }

  lemma ArrivedNoVpc(p: Setting, e: EvalState, va: Word, maxVmInsns: int)
    requires Ordered(e.instrs) && Arrived(p, e, va, maxVmInsns).result == IN_PROGRESS
    ensures Arrived(p, e, va, maxVmInsns).finalVpc.None?
  {
    hide VpcOf, Catalogued;
  }

  /** After evaluating a window: control stays in the image, or the reason says what was missing. */
  lemma EvaluatedKeeps(p: Setting, e: EvalState, va: Word)
    requires Fits(p, e)
    ensures var w := Evaluated(p, e, va);
            && Ordered(w.state.instrs) && |w.state.instrs| >= |e.instrs|
            && w.state == e.(instrs := w.state.instrs, nextId := w.state.nextId, regs := w.state.regs,
                             bytes := w.state.bytes,
                             jmpTrace := e.jmpTrace + [va], vjccBranches := w.state.vjccBranches)
            && (w.result == OUT_OF_BOUNDS <==> p.decode(va).None?)
            && (w.result == IN_PROGRESS ==>
                  JumpTarget(w.state.instrs) == Some(w.va) && w.va in Addresses(p.base, p.imageSize))
            && (w.result == UNRESOLVED_TARGET ==> JumpTarget(w.state.instrs).None?)
            && (w.result == TARGET_OUTSIDE_IMAGE ==>
                  JumpTarget(w.state.instrs).Some?
                  && JumpTarget(w.state.instrs).value !in Addresses(p.base, p.imageSize))
            && (p.decode(va).Some? && |p.decode(va).value| > 0 ==> w.lifted > 0)
  {
    hide Fits, Optimized, JumpTarget, Addresses, LiftFrom, Ordered;
    var j := e.(jmpTrace := e.jmpTrace + [va]);
    JumpedFits(p, e, va);
    if p.decode(va).Some? {
      var w := LiftFrom(p, j, p.decode(va).value, 0, va);
      LiftsToTerminator(p, j, p.decode(va).value, 0, va);
      FitsTrace(p, w.state);
      OptimizedSameIds(p, w.state.instrs, w.state.bytes, 3);
      FitsTrace(p, OptimizedWindow(p, w).state);
    } else {
      FitsTrace(p, j);
    }
  }

  lemma JumpedFits(p: Setting, e: EvalState, va: Word)
    requires Fits(p, e)
    ensures Fits(p, e.(jmpTrace := e.jmpTrace + [va]))
  {
    hide LiftingFits;
  }

  /** What one turn keeps, and how it makes progress. */
  lemma TurnKeeps(p: Setting, at: Position, start: Word, maxVmInsns: int)
    requires Fits(p, at.state) && Between(p, at.state, at.va, start, maxVmInsns)
    ensures var t := Turn(p, at, maxVmInsns);
            && Catalog(t.state, |t.state.instrs|) && t.steps >= at.steps
            && at.state.vmInsnCount <= t.state.vmInsnCount <= at.state.vmInsnCount + 1
            && (t.result == IN_PROGRESS ==>
                  && Between(p, t.state, t.va, start, maxVmInsns)
                  && (|| (t.state.vmInsnCount == at.state.vmInsnCount && |t.state.visited| == |at.state.visited| + 1)
                      || (t.state.vmInsnCount == at.state.vmInsnCount + 1 && |t.state.visited| == 1)))
  {
    hide Fits, Arrived, Evaluated, CatalogFits, Addresses, Ordered;
    FitsTrace(p, at.state);
    ArrivedKeeps(p, at.state, at.va, start, maxVmInsns);
    ArrivedFits(p, at.state, at.va, maxVmInsns);
    var a := Arrived(p, at.state, at.va, maxVmInsns);
    if a.result == IN_PROGRESS {
      EvaluatedKeeps(p, a.state, at.va);
      EvaluatedCatalog(a.state, Evaluated(p, a.state, at.va).state);
    }
  }

  lemma EvaluatedCatalog(e: EvalState, w: EvalState)
    requires Catalog(e, e.irStart) && e.irStart <= |e.instrs| <= |w.instrs|
    requires w == e.(instrs := w.instrs, nextId := w.nextId, regs := w.regs, bytes := w.bytes, jmpTrace := w.jmpTrace,
                     vjccBranches := w.vjccBranches)
    ensures Catalog(w, w.irStart) && Catalog(w, |w.instrs|)
  {
    hide CatalogFits;
    CatalogWiden(w);
  }

  lemma TurnNoVpc(p: Setting, at: Position, maxVmInsns: int)
    requires Fits(p, at.state)
    ensures Turn(p, at, maxVmInsns).result == IN_PROGRESS ==> Turn(p, at, maxVmInsns).finalVpc.None?
  {
    hide Fits, Arrived, Evaluated;
    FitsTrace(p, at.state);
    ArrivedFits(p, at.state, at.va, maxVmInsns);
  }

  // ----- how many turns -----

  /** The invariant of the loop. */
  lemma {:induction false} TurnsKeep(p: Setting, e: EvalState, start: Word, maxVmInsns: int, n: nat)
    requires Fits(p, e) && Unused(e)
    ensures var at := Turns(p, e, start, maxVmInsns, n);
            && Catalog(at.state, |at.state.instrs|) && at.steps >= 0
            && 0 <= at.state.vmInsnCount <= (if maxVmInsns > 0 then maxVmInsns else 1)
            && (at.result == IN_PROGRESS ==>
                  && Between(p, at.state, at.va, start, maxVmInsns)
                  && n <= at.state.vmInsnCount * (|Universe(p, start)| + 1) + |at.state.visited|)
  {
    hide Fits, Turn, Universe, CatalogFits;
    if n == 0 {
      StartKeeps(p, e, start, maxVmInsns);
    } else {
      TurnsKeep(p, e, start, maxVmInsns, n - 1);
      var at := Turns(p, e, start, maxVmInsns, n - 1);
      if at.result == IN_PROGRESS {
        TurnKeeps(p, at, start, maxVmInsns);
        var t := Turn(p, at, maxVmInsns);
        if t.result == IN_PROGRESS {
          Collections.SubsetSize(at.state.visited, Universe(p, start));
          NextRow(at.state.vmInsnCount, |Universe(p, start)| + 1);
        }
      }
    }
  }

  lemma StartKeeps(p: Setting, e: EvalState, start: Word, maxVmInsns: int)
    requires Unused(e)
    ensures Between(p, e, start, start, maxVmInsns) && Catalog(e, |e.instrs|)
  {}

  lemma NextRow(count: int, width: int)
    ensures (count + 1) * width == count * width + width
  {}

  /** Dispatcher visits, and one more, times addresses. */
  function MostTurns(maxVmInsns: int, imageSize: nat): nat {
    ((if maxVmInsns > 0 then maxVmInsns else 1) + 1) * (imageSize + 2)
  }

  lemma AnotherTurn(p: Setting, e: EvalState, start: Word, maxVmInsns: int, n: nat)
    requires Fits(p, e) && Unused(e) && Turns(p, e, start, maxVmInsns, n).result == IN_PROGRESS
    ensures n < MostTurns(maxVmInsns, p.imageSize)
  {
    hide Fits, Universe, CatalogFits, Turns;
    TurnsKeep(p, e, start, maxVmInsns, n);
    var at := Turns(p, e, start, maxVmInsns, n);
    UniverseSize(p, start);
    Collections.SubsetSize(at.state.visited, Universe(p, start));
    var limit := if maxVmInsns > 0 then maxVmInsns else 1;
    TurnsCount(at.state.vmInsnCount, limit, |Universe(p, start)| + 1, p.imageSize + 2);
  }

  /** Whatever `maxSteps`, the decoder and the lifter are, this bounds the turns of the loop. */
  lemma TurnsBounded(p: Setting, e: EvalState, start: Word, maxSteps: int, maxVmInsns: int, n: nat)
    requires Fits(p, e) && Unused(e) && Makes(p, e, start, maxSteps, maxVmInsns, n)
    ensures n <= MostTurns(maxVmInsns, p.imageSize)
  {
    hide Fits, Turns, MostTurns;
    if n > 0 {
      assert Running(Turns(p, e, start, maxVmInsns, n - 1), maxSteps);
      AnotherTurn(p, e, start, maxVmInsns, n - 1);
    }
  }

  /** Some number of turns is made. */
  lemma {:induction false} SomeTurns(p: Setting, e: EvalState, start: Word, maxSteps: int, maxVmInsns: int, n: nat)
    returns (turns: nat)
    requires Fits(p, e) && Unused(e)
    requires forall k :: 0 <= k < n ==> Running(Turns(p, e, start, maxVmInsns, k), maxSteps)
    ensures Makes(p, e, start, maxSteps, maxVmInsns, turns)
    decreases MostTurns(maxVmInsns, p.imageSize) - n
  {
    hide Fits, Unused, Turns, MostTurns;
    if Running(Turns(p, e, start, maxVmInsns, n), maxSteps) {
      AnotherTurn(p, e, start, maxVmInsns, n);
      turns := SomeTurns(p, e, start, maxSteps, maxVmInsns, n + 1);
    } else {
      turns := n;
    }
  }

  lemma UniverseSize(p: Setting, start: Word)
    ensures |Universe(p, start)| <= p.imageSize + 1
  {
    hide Addresses;
    AddressCount(p.base, p.imageSize);
  }

  lemma TurnsCount(count: int, limit: int, width: int, most: int)
    requires 0 <= count <= limit && 0 <= width <= most
    ensures count * width + width <= (limit + 1) * most
  {
    assert count * width <= limit * width <= limit * most;
    assert (limit + 1) * most == limit * most + most;
  }

  ghost predicate WindowsFilled(p: Setting) { forall va :: p.decode(va).Some? ==> |p.decode(va).value| > 0 }

  lemma {:induction false} StepsGrow(p: Setting, e: EvalState, start: Word, maxVmInsns: int, n: nat)
    requires Fits(p, e) && WindowsFilled(p)
    ensures var at := Turns(p, e, start, maxVmInsns, n);
            at.result == IN_PROGRESS ==> at.steps >= n
  {
    hide Fits, Evaluated, Arrived;
    if n > 0 {
      StepsGrow(p, e, start, maxVmInsns, n - 1);
      var at := Turns(p, e, start, maxVmInsns, n - 1);
      FitsTrace(p, at.state);
      ArrivedFits(p, at.state, at.va, maxVmInsns);
      EvaluatedKeeps(p, Arrived(p, at.state, at.va, maxVmInsns).state, at.va);
    }
  }

  /** When every window that can be read decodes to something, `maxSteps` bounds the turns. */
  lemma FilledWindowsBoundTurns(p: Setting, e: EvalState, start: Word, maxSteps: int, maxVmInsns: int, n: nat)
    requires Fits(p, e) && WindowsFilled(p) && Makes(p, e, start, maxSteps, maxVmInsns, n)
    ensures n <= if maxSteps > 0 then maxSteps else 0
  {
    hide Fits, Turns, WindowsFilled;
    if n > 0 {
      StepsGrow(p, e, start, maxVmInsns, n - 1);
      assert Running(Turns(p, e, start, maxVmInsns, n - 1), maxSteps);
    }
  }

  /** What holds when the loop ends. */
  lemma RunFacts(p: Setting, e: EvalState, start: Word, maxSteps: int, maxVmInsns: int, n: nat)
    requires Fits(p, e) && Unused(e) && Makes(p, e, start, maxSteps, maxVmInsns, n)
    ensures var last := Turns(p, e, start, maxVmInsns, n).state;
            && WellFormed(last.instrs) && Catalog(last, |last.instrs|)
            && last.vmInsnCount <= if maxVmInsns > 0 then maxVmInsns else 1
    ensures var last := Turns(p, e, start, maxVmInsns, n);
            last.result == IN_PROGRESS ==> last.steps >= maxSteps
    ensures var last := Turns(p, e, start, maxVmInsns, n).state;
            var irCount := |Converge(ALL_PASSES, p.h, last.instrs, map[], 0, 32).trace|;
            && irCount <= |last.instrs|
            && (Ranges(last.handlers, irCount)
                <==> |last.handlers| == 0 || last.handlers[|last.handlers| - 1].irEnd <= irCount)
            && (FixedPoint(ALL_PASSES, p.h, last.instrs) ==> Ranges(last.handlers, irCount))
    ensures n <= MostTurns(maxVmInsns, p.imageSize)
    ensures WindowsFilled(p) ==> n <= if maxSteps > 0 then maxSteps else 0
  {
    hide Fits, Turns, Unused, WellFormed, CatalogFits, WindowsFilled, Ranges, Converge, FixedPoint;
    TurnsBounded(p, e, start, maxSteps, maxVmInsns, n);
    if WindowsFilled(p) { FilledWindowsBoundTurns(p, e, start, maxSteps, maxVmInsns, n); }
    TurnsKeep(p, e, start, maxVmInsns, n);
    var last := Turns(p, e, start, maxVmInsns, n).state;
    FitsTrace(p, last);
    ConvergeShorter(ALL_PASSES, p.h, last.instrs, map[], 0, 32);
    CatalogRanges(last, |last.instrs|);
    RangesExact(last.handlers, |last.instrs|, |Converge(ALL_PASSES, p.h, last.instrs, map[], 0, 32).trace|);
    if FixedPoint(ALL_PASSES, p.h, last.instrs) { FixedPointStays(ALL_PASSES, p.h, last.instrs, map[], 0, 32); }
  }

  /** In every run of the trace, the operand of the jump that is followed denotes the next address. */
  lemma JumpTargetSound(g: Trace, env: Env, s: State) returns (j: nat)
    requires Ordered(g) && JumpTarget(g).Some?
    ensures j < |g| && g[j].op in {JMP, CALL} && |g[j].operands| > 0
    ensures forall k :: j < k < |g| ==> g[k].op !in {JMP, CALL}
    ensures Eval(g[j].operands[0], env, RunTo(g, j, env, s).vals) == JumpTarget(g).value
  {
    hide Resolve, RunTo;
    j := LastJump(g, |g|).value;
    ResolveSound(g, g[j].operands[0], j, env, s);
  }

  // ----- small facts -----

  /** Recording a VPC that differs from the last one. */
  lemma CatalogMoves(trace: seq<Option<Word>>, count: int, last: Option<Word>, handlers: seq<HandlerRecord>,
                     freq: map<Va, nat>, bound: nat, cur: Option<Word>)
    requires CatalogFits(trace, count, last, handlers, freq, bound) && (count > 0 ==> cur != last)
    ensures CatalogFits(trace + [cur], count + 1, cur, handlers, freq, bound)
  {
    hide Ranges, FreqExact;
  }

  lemma FreqGrows(freq: map<Va, nat>, handlers: seq<HandlerRecord>, r: HandlerRecord)
    requires FreqExact(freq, handlers)
    ensures FreqExact(freq[r.handlerVa := FreqOf(freq, r.handlerVa) + 1], handlers + [r])
  {
    var after := freq[r.handlerVa := FreqOf(freq, r.handlerVa) + 1];
    assert (handlers + [r])[..|handlers|] == handlers;
    forall va ensures FreqOf(after, va) == CountVa(handlers + [r], va) {
      assert FreqOf(freq, va) == CountVa(handlers, va);
    }
  }

  lemma RangesGrow(handlers: seq<HandlerRecord>, r: HandlerRecord, bound: nat)
    requires Ranges(handlers, bound) && bound <= r.irStart < r.irEnd && r.vpcBefore.Some?
    ensures Ranges(handlers + [r], r.irEnd)
  {}

  lemma RangesWiden(handlers: seq<HandlerRecord>, bound: nat, more: nat)
    requires Ranges(handlers, bound) && bound <= more
    ensures Ranges(handlers, more)
  {}

  lemma CatalogRanges(e: EvalState, bound: nat)
    requires Catalog(e, bound)
    ensures Ranges(e.handlers, bound)
  {}

  /** The last range decides whether all of them lie below `bound`. */
  lemma RangesExact(handlers: seq<HandlerRecord>, most: nat, bound: nat)
    requires Ranges(handlers, most)
    ensures Ranges(handlers, bound) <==> |handlers| == 0 || handlers[|handlers| - 1].irEnd <= bound
  {
    if |handlers| > 0 && handlers[|handlers| - 1].irEnd <= bound {
      forall i | 0 <= i < |handlers| ensures handlers[i].irEnd <= bound {
        if i < |handlers| - 1 { assert handlers[i].irEnd <= handlers[|handlers| - 1].irStart; }
      }
    }
  }

  // ----- what the catalog adds up to -----

  ghost function SumOver(freq: map<Va, nat>, keys: set<Va>): nat
    requires keys <= freq.Keys
  {
    if keys == {} then 0
    else
      var k :| k in keys;
      freq[k] + SumOver(freq, keys - {k})
  }

  function CountIn(handlers: seq<HandlerRecord>, keys: set<Va>): nat {
    if |handlers| == 0 then 0
    else CountIn(handlers[..|handlers| - 1], keys) + if handlers[|handlers| - 1].handlerVa in keys then 1 else 0
  }

  lemma {:induction false} CountSplit(handlers: seq<HandlerRecord>, keys: set<Va>, k: Va)
    requires k in keys
    ensures CountIn(handlers, keys) == CountVa(handlers, k) + CountIn(handlers, keys - {k})
  {
    if |handlers| > 0 { CountSplit(handlers[..|handlers| - 1], keys, k); }
  }

  lemma {:induction false} SumCounts(freq: map<Va, nat>, handlers: seq<HandlerRecord>, keys: set<Va>)
    requires keys <= freq.Keys && FreqExact(freq, handlers)
    ensures SumOver(freq, keys) == CountIn(handlers, keys)
  {
    if keys == {} {
      NoneCounted(handlers);
    } else {
      var k :| k in keys && SumOver(freq, keys) == freq[k] + SumOver(freq, keys - {k});
      CountSplit(handlers, keys, k);
      assert FreqOf(freq, k) == CountVa(handlers, k);
      SumCounts(freq, handlers, keys - {k});
    }
  }

  lemma {:induction false} NoneCounted(handlers: seq<HandlerRecord>)
    ensures CountIn(handlers, {}) == 0
  {
    if |handlers| > 0 { NoneCounted(handlers[..|handlers| - 1]); }
  }

  lemma {:induction false} AllCounted(handlers: seq<HandlerRecord>, keys: set<Va>)
    requires forall i :: 0 <= i < |handlers| ==> handlers[i].handlerVa in keys
    ensures CountIn(handlers, keys) == |handlers|
  {
    if |handlers| > 0 { AllCounted(handlers[..|handlers| - 1], keys); }
  }

  lemma {:induction false} CountPositive(handlers: seq<HandlerRecord>, i: nat)
    requires i < |handlers|
    ensures CountVa(handlers, handlers[i].handlerVa) > 0
  {
    if i < |handlers| - 1 { CountPositive(handlers[..|handlers| - 1], i); }
  }

  /** The frequencies sum to the number of catalogued handlers. */
  lemma FrequenciesSum(freq: map<Va, nat>, handlers: seq<HandlerRecord>)
    requires FreqExact(freq, handlers)
    ensures SumOver(freq, freq.Keys) == |handlers|
  {
    forall i | 0 <= i < |handlers| ensures handlers[i].handlerVa in freq {
      CountPositive(handlers, i);
      assert FreqOf(freq, handlers[i].handlerVa) > 0;
    }
    SumCounts(freq, handlers, freq.Keys);
    AllCounted(handlers, freq.Keys);
  }
}
