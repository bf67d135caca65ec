/** The devirtualization worklist over the guided evaluator: the segments that it really gets. */
module VmSegments {
  import opened Ir
  import opened Arithmetic
  import opened Machine
  import opened Rewrites
  import opened Convergence
  import opened Renumber
  import opened Recovery
  import opened Guided
  import opened GuidedRun
  import opened GuidedMeaning
  import opened VmRecovery
  import BM = ByteMemory
  import RecoveryRun
  import Vjcc

  const VM_STEPS := 50000
  const VM_INSNS := 2000

  function StopOf(r: EvalResult): Stop {
    match r
    case VMEXIT_RET | RETURNED => StoppedAtReturn
    case UNRESOLVED_TARGET => StoppedUnresolved
    case _ => StoppedOtherwise
  }

  function VmStart(bytes: BM.Bytes, inject: Regs): EvalState { Seeded(Untouched(bytes), inject) }

  /** The segment at `va` with `inject`, when the evaluation makes `n` turns. */
  function SegmentOf(p: Setting, bytes: BM.Bytes, va: Word, inject: Regs, n: nat): VmSegment
    requires Fits(p, VmStart(bytes, inject))
  {
    var last := Turns(p, VmStart(bytes, inject), va, VM_INSNS, n);
    FitsTrace(p, last.state);
    Classify(p.h, Converge(ALL_PASSES, p.h, last.state.instrs, map[], 0, 32).trace, StopOf(last.result), last.va)
  }

  ghost predicate Answer(seg: VmSegment, p: Setting, bytes: BM.Bytes, va: Word, inject: Regs, n: nat) {
    && Fits(p, VmStart(bytes, inject))
    && Makes(p, VmStart(bytes, inject), va, VM_STEPS, VM_INSNS, n)
    && seg == SegmentOf(p, bytes, va, inject, n)
  }

  /** One segment: a new evaluator, its run, and the classification. */
  method EvaluateVmSegment(base: Word, imageSize: nat, vpcReg: string, decode: Decoder, lift: Lifter, h: Host,
                           memory: BM.ByteMemory, va: Word, inject: Regs)
    returns (seg: VmSegment, ghost turns: nat)
    requires LifterFits(lift) && RegsBelow(inject, 0)
    modifies memory
    ensures var p := Setting(base, imageSize, vpcReg, decode, lift, h, old(memory.safeRanges) + [STACK]);
            Answer(seg, p, old(memory.bytes), va, inject, turns)
  {
    hide Fits, Makes, Turns, RegsBelow, LifterFits, Converge, WellFormed, Classify, Catalog, Ranges, FixedPoint;
    NothingBelow();
    var ev := new GuidedEvaluator(base, imageSize, vpcReg, decode, lift, h, memory);
    if inject != map[] { ev.SetInitialRegs(inject); }
    var report;
    report, turns := ev.Run(va, VM_STEPS, VM_INSNS);
    RunWellFormed(ev.func.instrs, Turns(ev.Settings(), VmStart(old(memory.bytes), inject), va, VM_INSNS, turns), h);
    seg := RunVmSegment(ev.func, h, StopOf(report.result), report.stopVa);
  }

  lemma NothingBelow()
    ensures RegsBelow(map[], 0) && forall bytes :: Unused(Untouched(bytes))
  {}

  lemma RunWellFormed(g: Trace, last: Position, h: Host)
    requires WellFormed(last.state.instrs) && g == Converge(ALL_PASSES, h, last.state.instrs, map[], 0, 32).trace
    ensures WellFormed(g)
  {}

  // ----- segments are closed -----

  /** Every question about registers below 0, that is about none of the trace, is answered by the
      evaluator. */
  ghost predicate Evaluates(oracle: VmOracle, p: Setting, bytes: BM.Bytes) {
    && LifterFits(p.lift) && PublicLifter(p.lift)
    && forall va: Word, inject: Regs :: RegsBelow(inject, 0) ==> Answered(oracle(va, inject), p, bytes, va, inject)
  }

  ghost predicate Answered(seg: VmSegment, p: Setting, bytes: BM.Bytes, va: Word, inject: Regs) {
    exists n: nat :: Answer(seg, p, bytes, va, inject, n)
  }

  lemma SomeAnswer(p: Setting, bytes: BM.Bytes, va: Word, inject: Regs) returns (seg: VmSegment)
    requires LifterFits(p.lift) && RegsBelow(inject, 0)
    ensures Answered(seg, p, bytes, va, inject)
  {
    hide LifterFits, Makes, Fits, Turns, Unused;
    NothingBelow();
    StartFits(p, bytes, inject);
    var n := SomeTurns(p, VmStart(bytes, inject), va, VM_STEPS, VM_INSNS, 0);
    seg := SegmentOf(p, bytes, va, inject, n);
    assert Answer(seg, p, bytes, va, inject, n);
  }

  lemma StartFits(p: Setting, bytes: BM.Bytes, inject: Regs)
    requires LifterFits(p.lift) && RegsBelow(inject, 0)
    ensures Fits(p, VmStart(bytes, inject)) && Unused(VmStart(bytes, inject))
  {
    hide LifterFits, Fits, RegsBelow, Unused;
    NothingBelow();
    SeededFits(p, Untouched(bytes), inject);
  }

  /** The evaluator as an oracle: it answers every such question. */
  ghost function EvaluatorOracle(p: Setting, bytes: BM.Bytes): (oracle: VmOracle)
    requires LifterFits(p.lift) && PublicLifter(p.lift)
    ensures Evaluates(oracle, p, bytes)
  {
    hide Answered;
    (va: Word, inject: Regs) => Chosen(p, bytes, va, inject)
  }

  ghost function Chosen(p: Setting, bytes: BM.Bytes, va: Word, inject: Regs): (seg: VmSegment)
    ensures LifterFits(p.lift) && RegsBelow(inject, 0) ==> Answered(seg, p, bytes, va, inject)
  {
    hide Answered;
    if LifterFits(p.lift) && RegsBelow(inject, 0) then
      AnswerExists(p, bytes, va, inject);
      var seg :| Answered(seg, p, bytes, va, inject);
      seg
    else VmSegment(VmUnresolved, [], 0, None, None, None)
  }

  lemma AnswerExists(p: Setting, bytes: BM.Bytes, va: Word, inject: Regs)
    requires LifterFits(p.lift) && RegsBelow(inject, 0)
    ensures exists seg :: Answered(seg, p, bytes, va, inject)
  {
    hide Answered;
    var seg := SomeAnswer(p, bytes, va, inject);
  }

  /** Unique ids, no dangling reference, and a condition that the segment itself computes. */
  ghost predicate Standalone(seg: VmSegment) {
    && UniqueIds(seg.instrs) && Closed(seg.instrs)
    && (seg.condition.Some? ==> RefersWithin(seg.instrs, |seg.instrs|, seg.condition.value))
  }

  lemma AnswerStandalone(seg: VmSegment, p: Setting, bytes: BM.Bytes, va: Word, inject: Regs, n: nat)
    requires Answer(seg, p, bytes, va, inject, n) && PublicLifter(p.lift)
    ensures Standalone(seg)
  {
    hide Fits, Makes, Turns, PublicLifter, Converge, WellFormed, Classify, UniqueIds, Closed;
    var e := VmStart(bytes, inject);
    StartUnused(bytes, inject);
    ReturnedClosed(p, e, va, VM_INSNS, n, 32);
    var last := Turns(p, e, va, VM_INSNS, n);
    var g := Converge(ALL_PASSES, p.h, last.state.instrs, map[], 0, 32).trace;
    RunWellFormed(g, last, p.h);
    ConditionInside(p.h, g, StopOf(last.result), last.va);
  }

  lemma ClassifyKinds(h: Host, g: Trace, stop: Stop, stopVa: Word)
    requires WellFormed(g)
    ensures var seg := Classify(h, g, stop, stopVa);
            && seg.instrs == g && seg.dispatcherVa == stopVa && (seg.kind.VmRet? <==> stop.StoppedAtReturn?)
            && (seg.kind.VmBranch? ==> stop.StoppedUnresolved?)
  {
    hide WellFormed, Vjcc.ExtractTargets, LastSelect;
  }

  /** The evaluation goes on as long as it has taken fewer than 50000 steps, with at most 2000 VM
      instructions. */
  lemma AnswerSteps(seg: VmSegment, p: Setting, bytes: BM.Bytes, va: Word, inject: Regs, n: nat, k: nat)
    requires Answer(seg, p, bytes, va, inject, n) && k <= n
    ensures Fits(p, VmStart(bytes, inject))
    ensures var at := Turns(p, VmStart(bytes, inject), va, 2000, k);
            k < n <==> at.result == IN_PROGRESS && at.steps < 50000
  {
    hide Fits, Turns, Converge, WellFormed, Classify;
    assert k < n ==> Running(Turns(p, VmStart(bytes, inject), va, VM_INSNS, k), VM_STEPS);
  }

  /** The segment returns if and only if the evaluation stopped at a return of the VM or of the code, and
      branches only if it stopped at an unresolved jump; the dispatcher is where it stopped. */
  lemma AnswerExact(seg: VmSegment, p: Setting, bytes: BM.Bytes, va: Word, inject: Regs, n: nat)
    requires Answer(seg, p, bytes, va, inject, n)
    ensures Fits(p, VmStart(bytes, inject))
    ensures var last := Turns(p, VmStart(bytes, inject), va, 2000, n);
            && (seg.kind.VmRet? <==> last.result == RETURNED || last.result == VMEXIT_RET)
            && (seg.kind.VmBranch? ==> last.result == UNRESOLVED_TARGET)
            && seg.dispatcherVa == last.va && WellFormed(last.state.instrs)
            && seg.instrs == Converge(ALL_PASSES, p.h, last.state.instrs, map[], 0, 32).trace
  {
    hide Fits, Turns, Converge, WellFormed, Classify, Makes;
    var last := Turns(p, VmStart(bytes, inject), va, VM_INSNS, n);
    FitsTrace(p, last.state);
    var g := Converge(ALL_PASSES, p.h, last.state.instrs, map[], 0, 32).trace;
    RunWellFormed(g, last, p.h);
    ClassifyKinds(p.h, g, StopOf(last.result), last.va);
  }

  lemma StartUnused(bytes: BM.Bytes, inject: Regs)
    ensures Unused(VmStart(bytes, inject))
  {}

  lemma ConditionInside(h: Host, g: Trace, stop: Stop, stopVa: Word)
    requires WellFormed(g) && Closed(g)
    ensures var seg := Classify(h, g, stop, stopVa);
            seg.instrs == g && (seg.condition.Some? ==> RefersWithin(g, |g|, seg.condition.value))
  {
    hide WellFormed, LastSelect, Vjcc.ExtractTargets, RefersWithin;
    var sel := LastSelect(g, |g|);
    if sel.Some? && |g[sel.value].operands| == 3 {
      assert RefersWithin(g, sel.value, g[sel.value].operands[0]);
      WithinMore(g, sel.value, g[sel.value].operands[0]);
    }
  }

  lemma WithinMore(g: Trace, n: nat, v: Value)
    requires n <= |g| && RefersWithin(g, n, v)
    ensures RefersWithin(g, |g|, v)
  {}

  /** Every segment in the recovery's log stands alone. */
  lemma LoggedStandalone(w: VmWorklist, p: Setting, bytes: BM.Bytes, k: nat)
    requires w.Settled() && Evaluates(w.oracle, p, bytes) && k < |w.log|
    ensures Standalone(w.log[k].segment)
  {
    hide Standalone, PublicLifter, LifterFits, Answer, RecoveryRun.IndexTable, EdgesFor, Consecutive, BlocksFit,
         KeysOf, Distinct, OnceEach, AllBorn, TermFor;
    var q := w.log[k];
    assert EntryFits(q, w.keys, w.oracle, w.vpcReg, w.entryVa);
    assert RegsBelow(q.item.inject, 0);
    assert Answered(q.segment, p, bytes, q.item.startVa, q.item.inject);
    var n: nat :| Answer(q.segment, p, bytes, q.item.startVa, q.item.inject, n);
    AnswerStandalone(q.segment, p, bytes, q.item.startVa, q.item.inject, n);
  }

  /** So ids are unique across the whole recovered function, ... */
  lemma RecoveredIdsUnique(w: VmWorklist, p: Setting, bytes: BM.Bytes, b: nat, i: nat, d: nat, j: nat)
    requires w.Settled() && Evaluates(w.oracle, p, bytes)
    requires b < |w.cfg.blocks| && i < |w.cfg.blocks[b].instrs| && d < |w.cfg.blocks| && j < |w.cfg.blocks[d].instrs|
    requires w.cfg.blocks[b].instrs[i].resultId == w.cfg.blocks[d].instrs[j].resultId
    ensures b == d && i == j
  {
    hide VmWorklist.Settled, Evaluates, UniqueIds, Closed, RefersWithin;
    forall k | 0 <= k < |w.log| ensures UniqueIds(w.log[k].segment.instrs) { LoggedStandalone(w, p, bytes, k); }
    IdsGloballyUnique(w, b, i, d, j);
  }

  /** ... and every block has its segment's effects, and its condition the value it had there. */
  lemma RecoveredConditionKept(w: VmWorklist, p: Setting, bytes: BM.Bytes, m: nat, env: Env, s: State, t: State)
    requires w.Settled() && Evaluates(w.oracle, p, bytes) && m < |w.log| && w.log[m].segment.condition.Some?
    requires s.mem == t.mem && s.events == t.events && s.calls == t.calls
    ensures var seg := w.log[m].segment;
            var bid := w.log[m].item.bid;
            && bid < |w.cfg.blocks| && w.cfg.blocks[bid].term.condition.Some?
            && Eval(w.cfg.blocks[bid].term.condition.value, env, Run(w.cfg.blocks[bid].instrs, env, t).vals)
            == Eval(seg.condition.value, env, Run(seg.instrs, env, s).vals)
            && Run(w.cfg.blocks[bid].instrs, env, t).mem == Run(seg.instrs, env, s).mem
            && Run(w.cfg.blocks[bid].instrs, env, t).events == Run(seg.instrs, env, s).events
  {
    hide VmWorklist.Settled, Evaluates, UniqueIds, Closed, RefersWithin, Run, Eval;
    LoggedStandalone(w, p, bytes, m);
    BranchConditionKept(w, m, env, s, t);
  }
}
