/** Inputs of the guided evaluator: handler ranges that outlive their trace, and turns that take no steps. */
module GuidedLimits {
  import opened Ir
  import opened Arithmetic
  import opened References
  import opened Rewrites
  import opened Convergence
  import opened Removal
  import opened PlainTraces
  import opened Guided
  import BM = ByteMemory
  import DeadCode
  import DeadStore
  import Promotion

  // ----- windows that emit constants and a jump -----

  /** The last instruction jumps to `t`. */
  ghost predicate JumpsTo(g: Trace, t: Word) { |g| > 0 && g[|g| - 1].op == JMP && g[|g| - 1].operands == [Const64(t)] }

  lemma JumpTargetIs(g: Trace, t: Word)
    requires Ordered(g) && JumpsTo(g, t)
    ensures JumpTarget(g) == Some(t)
  {
    hide Ordered, IndexMap;
  }

  lemma QuietOptimized(p: Setting, g: Trace, bytes: BM.Bytes)
    requires WellFormed(g) && Quiet(g)
    ensures Optimized(p, g, bytes, 3) == Promotion.Sweep(g, bytes)
  {
    hide WellFormed, ConstOperands, FoldConverge, Promotion.SweepTo;
    QuietPlain(g);
    PlainFolded(p.h, g, 8);
    QuietSwept(g, bytes, p.ranges, |g|);
  }

  /** Such a window leaves the trace as lifted, and goes where the jump says. */
  lemma QuietEvaluated(p: Setting, e: EvalState, va: Word, insns: seq<Insn>, lifted: EvalState, t: Word)
    requires Fits(p, e) && p.decode(va) == Some(insns) && IsInImage(t, p.base, p.imageSize)
    requires Fits(p, e.(jmpTrace := e.jmpTrace + [va]))
    requires LiftFrom(p, e.(jmpTrace := e.jmpTrace + [va]), insns, 0, va) == Window(lifted, va, |insns|, IN_PROGRESS)
    requires Quiet(lifted.instrs) && JumpsTo(lifted.instrs, t)
    ensures Evaluated(p, e, va) == Window(lifted, t, |insns|, IN_PROGRESS)
  {
    hide Fits, LiftFrom, Optimized, Quiet, JumpsTo, IsInImage, JumpTarget, Ordered, WellFormed;
    FitsTrace(p, lifted);
    QuietOptimized(p, lifted.instrs, lifted.bytes);
    JumpTargetIs(lifted.instrs, t);
  }

  lemma OneInsn(p: Setting, e: EvalState, insn: Insn, start: Word)
    requires Fits(p, e) && insn.mnemonic == "jmp"
    ensures LiftFrom(p, e, [insn], 0, start) == Window(LiftOne(p, e, insn), start, 1, IN_PROGRESS)
  {
    hide Fits, LiftOne, AtReturn;
  }

  lemma NoInsn(p: Setting, e: EvalState, start: Word)
    requires Fits(p, e)
    ensures LiftFrom(p, e, [], 0, start) == Window(e, start, 0, IN_PROGRESS)
  {
    hide Fits;
  }

  lemma RunningTurn(p: Setting, at: Position, a: EvalState, w: Window, maxVmInsns: int)
    requires Fits(p, at.state) && Ordered(at.state.instrs) && Fits(p, a)
    requires Arrived(p, at.state, at.va, maxVmInsns) == Arrival(a, IN_PROGRESS, None) && Evaluated(p, a, at.va) == w
    ensures Turn(p, at, maxVmInsns) == Position(w.state, w.va, at.steps + w.lifted, w.result, None)
  {
    hide Fits, Arrived, Evaluated, Ordered;
  }

  lemma StoppingTurn(p: Setting, at: Position, a: Arrival, maxVmInsns: int)
    requires Fits(p, at.state) && Ordered(at.state.instrs)
    requires Arrived(p, at.state, at.va, maxVmInsns) == a && a.result != IN_PROGRESS
    ensures Turn(p, at, maxVmInsns) == Position(a.state, at.va, at.steps, a.result, a.finalVpc)
  {
    hide Fits, Arrived, Evaluated, Ordered;
  }

  lemma NextTurn(p: Setting, e: EvalState, start: Word, maxVmInsns: int, n: nat, at: Position)
    requires Fits(p, e) && Turns(p, e, start, maxVmInsns, n) == at && at.result == IN_PROGRESS
    ensures Fits(p, at.state) && Ordered(at.state.instrs)
    ensures Turns(p, e, start, maxVmInsns, n + 1) == Turn(p, at, maxVmInsns)
  {
    hide Fits, Turn, Ordered;
    FitsTrace(p, at.state);
  }

  lemma NoTurn(p: Setting, e: EvalState, start: Word, maxVmInsns: int)
    requires Fits(p, e)
    ensures Turns(p, e, start, maxVmInsns, 0) == Position(e, start, 0, IN_PROGRESS, None)
  {
    hide Fits;
  }

  // ----- a handler range beyond the final trace -----

  const SPIN: Insn := Insn("jmp", 0)
  const SPIN_EMITS: seq<Emission> := [Emission(CONST, [Const64(5)], map[]), Emission(JMP, [Const64(0)], map[])]

  /** One block, which sets a result that nothing reads and jumps back to itself. */
  function Spinning(h: Host): Setting {
    Setting(0, 256, "vpc", va => Some([SPIN]), (insn, regs, id) => Lifted(SPIN_EMITS, regs), h, [STACK])
  }

  const SPIN_START: EvalState := Seeded(Untouched(map[]), map["vpc" := Const64(7)])

  function SpinTrace(n: nat): Trace {
    if n == 0 then []
    else SpinTrace(n - 1)
         + [Instruction(CONST, [Const64(5)], 2 * n - 2, map[]), Instruction(JMP, [Const64(0)], 2 * n - 1, map[])]
  }

  lemma {:induction false} SpinQuiet(n: nat)
    ensures |SpinTrace(n)| == 2 * n && Quiet(SpinTrace(n)) && (n > 0 ==> JumpsTo(SpinTrace(n), 0))
  {
    if n > 0 { SpinQuiet(n - 1); }
  }

  lemma SpinFits(h: Host)
    ensures Fits(Spinning(h), SPIN_START)
  {
    var lift: Lifter := Spinning(h).lift;
    forall insn, regs, id: nat | RegsBelow(regs, id)
      ensures EmitsFit(lift(insn, regs, id).emits, id)
      ensures RegsBelow(lift(insn, regs, id).regs, id + |lift(insn, regs, id).emits|)
    {}
  }

  /** One window of the loop. */
  lemma SpinEvaluated(h: Host, e: EvalState, n: nat)
    requires Fits(Spinning(h), e) && e.instrs == SpinTrace(n) && e.nextId == 2 * n
    ensures Evaluated(Spinning(h), e, 0)
         == Window(e.(jmpTrace := e.jmpTrace + [0], instrs := SpinTrace(n + 1), nextId := 2 * n + 2), 0, 1, IN_PROGRESS)
  {
    hide Fits, SpinTrace, LiftFrom, Quiet, JumpsTo;
    var p := Spinning(h);
    var j := e.(jmpTrace := e.jmpTrace + [0]);
    JumpedFits(p, e, 0);
    OneInsn(p, j, SPIN, 0);
    SpinLifted(h, j, n);
    SpinQuiet(n + 1);
    QuietEvaluated(p, e, 0, [SPIN], LiftOne(p, j, SPIN), 0);
  }

  lemma SpinLifted(h: Host, e: EvalState, n: nat)
    requires Fits(Spinning(h), e) && e.instrs == SpinTrace(n) && e.nextId == 2 * n
    ensures LiftOne(Spinning(h), e, SPIN) == e.(instrs := SpinTrace(n + 1), nextId := 2 * n + 2)
  {
    hide Fits;
    assert Emitted(SPIN_EMITS, 2 * n)
        == [Instruction(CONST, [Const64(5)], 2 * n, map[]), Instruction(JMP, [Const64(0)], 2 * n + 1, map[])];
  }

  /** The state before turn `n`. */
  function SpinState(n: nat): EvalState
    requires n <= 2
  {
    match n
    case 0 => SPIN_START
    case 1 => SPIN_START.(instrs := SpinTrace(1), nextId := 2, visited := {0}, jmpTrace := [0])
    case 2 => SPIN_START.(instrs := SpinTrace(2), nextId := 4, visited := {0}, jmpTrace := [0, 0],
                          dispatcherVa := Some(0),
                          vpcTrace := [Some(7)], lastVpc := Some(7), irStart := 2, vmInsnCount := 1)
  }

  lemma SpinVpc(h: Host, e: EvalState)
    requires Ordered(e.instrs) && e.regs == SPIN_START.regs
    ensures VpcOf(Spinning(h), e) == Some(7)
  {
    hide Ordered, IndexMap;
  }

  lemma SpinTurns(h: Host)
    requires Fits(Spinning(h), SPIN_START)
    ensures Turns(Spinning(h), SPIN_START, 0, 10, 0) == Position(SpinState(0), 0, 0, IN_PROGRESS, None)
    ensures Turns(Spinning(h), SPIN_START, 0, 10, 1) == Position(SpinState(1), 0, 1, IN_PROGRESS, None)
    ensures Turns(Spinning(h), SPIN_START, 0, 10, 2) == Position(SpinState(2), 0, 2, IN_PROGRESS, None)
  {
    hide Fits, Turns, SpinTrace, Ordered, VpcOf, Evaluated;
    var p := Spinning(h);
    NoTurn(p, SPIN_START, 0, 10);
    var at := Turns(p, SPIN_START, 0, 10, 0);
    NextTurn(p, SPIN_START, 0, 10, 0, at);
    SpinFirst(h, at);
    at := Turns(p, SPIN_START, 0, 10, 1);
    NextTurn(p, SPIN_START, 0, 10, 1, at);
    SpinSecond(h, at);
  }

  lemma SpinFirst(h: Host, at: Position)
    requires at == Position(SpinState(0), 0, 0, IN_PROGRESS, None) && Fits(Spinning(h), at.state)
    requires Ordered(at.state.instrs)
    ensures Turn(Spinning(h), at, 10) == Position(SpinState(1), 0, 1, IN_PROGRESS, None)
  {
    hide Fits, Ordered, Evaluated, Dispatched, Turn;
    var p := Spinning(h);
    ArrivedFits(p, at.state, 0, 10);
    var a := Arrived(p, at.state, 0, 10);
    assert SpinTrace(0) == [];
    SpinEvaluated(h, a.state, 0);
    RunningTurn(p, at, a.state, Evaluated(p, a.state, 0), 10);
  }

  lemma SpinSecond(h: Host, at: Position)
    requires at == Position(SpinState(1), 0, 1, IN_PROGRESS, None) && Fits(Spinning(h), at.state)
    requires Ordered(at.state.instrs)
    ensures Turn(Spinning(h), at, 10) == Position(SpinState(2), 0, 2, IN_PROGRESS, None)
  {
    hide Fits, Ordered, Evaluated, VpcOf, Turn, SpinTrace;
    var p := Spinning(h);
    ArrivedFits(p, at.state, 0, 10);
    SpinVpc(h, at.state.(dispatcherVa := Some(0)));
    SpinQuiet(1);
    var a := Arrived(p, at.state, 0, 10);
    assert [0] + [0] == [0, 0];
    SpinEvaluated(h, a.state, 1);
    RunningTurn(p, at, a.state, Evaluated(p, a.state, 0), 10);
  }

  /** The third arrival finds the VPC where it was, and catalogs the handler as instructions 2 to 4. */
  lemma SpinThird(h: Host, at: Position)
    requires at == Position(SpinState(2), 0, 2, IN_PROGRESS, None) && Fits(Spinning(h), at.state)
    requires Ordered(at.state.instrs)
    ensures var t := Turn(Spinning(h), at, 10);
            && t.result == VPC_CONVERGED && t.state.instrs == SpinTrace(2) && t.steps == 2
            && t.state.handlers == [HandlerRecord(Some(7), Some(7), Va(0), 2, 4)]
  {
    hide Fits, Ordered, Evaluated, VpcOf, Turn, SpinTrace;
    var p := Spinning(h);
    SpinVpc(h, at.state);
    SpinQuiet(2);
    StoppingTurn(p, at, Arrived(p, at.state, 0, 10), 10);
  }

  /** The final optimization removes the constants, and the catalogued range ends beyond the trace. */
  lemma RangeOutlivesTrace(h: Host)
    ensures Fits(Spinning(h), SPIN_START) && Unused(SPIN_START)
    ensures Makes(Spinning(h), SPIN_START, 0, 10, 10, 3)
    ensures var last := Turns(Spinning(h), SPIN_START, 0, 10, 3).state;
            && last.handlers == [HandlerRecord(Some(7), Some(7), Va(0), 2, 4)]
            && WellFormed(last.instrs) && |Converge(ALL_PASSES, h, last.instrs, map[], 0, 32).trace| < 4
  {
    hide Turns, SpinTrace, VpcOf, Evaluated, Converge, WellFormed, Turn, SpinState;
    SpinFits(h);
    hide Fits;
    SpinTurns(h);
    var p := Spinning(h);
    var at := Turns(p, SPIN_START, 0, 10, 2);
    NextTurn(p, SPIN_START, 0, 10, 2, at);
    SpinThird(h, at);
    FitsTrace(p, Turns(p, SPIN_START, 0, 10, 3).state);
    SpinQuiet(2);
    SpinUnread();
    UnreadDropped(h, SpinTrace(2), 0);
  }

  lemma SpinUnread()
    ensures |SpinTrace(2)| == 4 && SpinTrace(2)[0].op == CONST
  {}

  lemma {:induction false} NothingReferenced(g: Trace, n: nat)
    requires Quiet(g) && n <= |g|
    ensures DeadCode.Referenced(g, n) == {}
  {
    if n > 0 {
      NothingReferenced(g, n - 1);
      assert ConstOperands(g[n - 1]);
    }
  }

  /** A constant that nothing reads does not survive the final optimization. */
  lemma UnreadDropped(h: Host, g: Trace, i: nat)
    requires WellFormed(g) && Quiet(g) && i < |g| && g[i].op == CONST
    ensures |Converge(ALL_PASSES, h, g, map[], 0, 32).trace| < |g|
  {
    hide WellFormed, RunTable, Quiet;
    QuietPlain(g);
    PlainTable(ALL_PASSES, 5, h, g);
    QuietStores(h, g);
    QuietLayer(h, g, i);
    TableShorter(ALL_PASSES, 7, 8, h, g, map[]);
    ConvergeShorter(ALL_PASSES, h, g, map[], 0, 32);
  }

  lemma QuietStores(h: Host, g: Trace)
    requires WellFormed(g) && Quiet(g) && RunTable(ALL_PASSES, 5, h, g, map[]).trace == g
    ensures RunTable(ALL_PASSES, 6, h, g, map[]).trace == g
  {
    hide WellFormed, ConstOperands, DeadStore.LiveFrom, PassName, Sift;
    SiftLength(g, DeadStore.StoreKeep(g));
  }

  lemma QuietLayer(h: Host, g: Trace, i: nat)
    requires WellFormed(g) && Quiet(g) && i < |g| && g[i].op == CONST
    requires RunTable(ALL_PASSES, 6, h, g, map[]).trace == g
    ensures |RunTable(ALL_PASSES, 7, h, g, map[]).trace| < |g|
  {
    hide WellFormed, Quiet, PassName, DeadCode.Referenced, Sift;
    NothingReferenced(g, |g|);
    assert !DeadCode.LayerKeep(g)[i];
    SiftLength(g, DeadCode.LayerKeep(g));
  }

  // ----- turns that take no steps -----

  const HOP_EMITS: seq<Emission> := [Emission(JMP, [Const64(1)], map[])]
  const HOP_TRACE: Trace := [Instruction(JMP, [Const64(1)], 0, map[])]

  /** A jump to an address at which nothing decodes. */
  function Hopping(h: Host): Setting {
    Setting(0, 512, "vpc", va => if va == 0 then Some([SPIN]) else Some([]),
            (insn, regs, id) => Lifted(HOP_EMITS, regs), h, [STACK])
  }

  const HOP_START: EvalState := Seeded(Untouched(map[]), map[])

  function HopState(n: nat): EvalState
    requires n <= 3
  {
    match n
    case 0 => HOP_START
    case 1 => HOP_START.(instrs := HOP_TRACE, nextId := 1, visited := {0}, jmpTrace := [0])
    case 2 => HOP_START.(instrs := HOP_TRACE, nextId := 1, visited := {0, 1}, jmpTrace := [0, 1])
    case 3 => HOP_START.(instrs := HOP_TRACE, nextId := 1, visited := {1}, jmpTrace := [0, 1, 1],
                         dispatcherVa := Some(1), vpcTrace := [None], irStart := 1, vmInsnCount := 1)
  }

  lemma HopFits(h: Host)
    ensures Fits(Hopping(h), HOP_START)
  {
    var lift: Lifter := Hopping(h).lift;
    forall insn, regs, id: nat | RegsBelow(regs, id)
      ensures EmitsFit(lift(insn, regs, id).emits, id)
      ensures RegsBelow(lift(insn, regs, id).regs, id + |lift(insn, regs, id).emits|)
    {}
  }

  lemma HopLifted(h: Host, e: EvalState)
    requires Fits(Hopping(h), e) && e.instrs == [] && e.nextId == 0
    ensures LiftOne(Hopping(h), e, SPIN) == e.(instrs := HOP_TRACE, nextId := 1)
  {
    hide Fits;
    assert Emitted(HOP_EMITS, 0) == HOP_TRACE;
  }

  lemma OneInImage()
    ensures IsInImage(1, 0, 512)
  {
    assert IsInImage(1, 1, 511) && Next(0) == 1;
  }

  lemma HopFirst(h: Host, at: Position)
    requires at == Position(HopState(0), 0, 0, IN_PROGRESS, None) && Fits(Hopping(h), at.state)
    requires Ordered(at.state.instrs)
    ensures Turn(Hopping(h), at, 10) == Position(HopState(1), 1, 1, IN_PROGRESS, None)
  {
    hide Fits, Ordered, Evaluated, Dispatched, Turn, LiftFrom, LiftOne, IsInImage;
    var p := Hopping(h);
    ArrivedFits(p, at.state, 0, 10);
    var a := Arrived(p, at.state, 0, 10).state;
    var j := a.(jmpTrace := a.jmpTrace + [0]);
    JumpedFits(p, a, 0);
    OneInsn(p, j, SPIN, 0);
    HopLifted(h, j);
    OneInImage();
    QuietEvaluated(p, a, 0, [SPIN], HopState(1), 1);
    RunningTurn(p, at, a, Evaluated(p, a, 0), 10);
  }

  /** An empty window at 1 goes on where the last jump led: to 1. */
  lemma HopEmpty(h: Host, e: EvalState)
    requires Fits(Hopping(h), e) && e.instrs == HOP_TRACE
    ensures Evaluated(Hopping(h), e, 1) == Window(e.(jmpTrace := e.jmpTrace + [1]), 1, 0, IN_PROGRESS)
  {
    hide Fits, LiftFrom, Evaluated, IsInImage;
    var p := Hopping(h);
    var j := e.(jmpTrace := e.jmpTrace + [1]);
    JumpedFits(p, e, 1);
    NoInsn(p, j, 1);
    OneInImage();
    QuietEvaluated(p, e, 1, [], j, 1);
  }

  lemma HopSecond(h: Host, at: Position)
    requires at == Position(HopState(1), 1, 1, IN_PROGRESS, None) && Fits(Hopping(h), at.state)
    requires Ordered(at.state.instrs)
    ensures Turn(Hopping(h), at, 10) == Position(HopState(2), 1, 1, IN_PROGRESS, None)
  {
    hide Fits, Ordered, Evaluated, Dispatched, Turn;
    var p := Hopping(h);
    ArrivedFits(p, at.state, 1, 10);
    var a := Arrived(p, at.state, 1, 10).state;
    HopEmpty(h, a);
    assert [0] + [1] == [0, 1] && {0} + {1} == {0, 1};
    RunningTurn(p, at, a, Evaluated(p, a, 1), 10);
  }

  lemma HopVpc(h: Host, e: EvalState)
    requires Ordered(e.instrs) && e.regs == HOP_START.regs
    ensures VpcOf(Hopping(h), e).None?
  {
    hide Ordered;
  }

  lemma HopThird(h: Host, at: Position)
    requires at == Position(HopState(2), 1, 1, IN_PROGRESS, None) && Fits(Hopping(h), at.state)
    requires Ordered(at.state.instrs)
    ensures Turn(Hopping(h), at, 10) == Position(HopState(3), 1, 1, IN_PROGRESS, None)
  {
    hide Fits, Ordered, Evaluated, VpcOf, Turn;
    var p := Hopping(h);
    ArrivedFits(p, at.state, 1, 10);
    HopVpc(h, at.state.(dispatcherVa := Some(1)));
    var a := Arrived(p, at.state, 1, 10).state;
    HopEmpty(h, a);
    assert [0, 1] + [1] == [0, 1, 1];
    RunningTurn(p, at, a, Evaluated(p, a, 1), 10);
  }

  lemma HopFourth(h: Host, at: Position)
    requires at == Position(HopState(3), 1, 1, IN_PROGRESS, None) && Fits(Hopping(h), at.state)
    requires Ordered(at.state.instrs)
    ensures Turn(Hopping(h), at, 10).result == INNER_LOOP && Turn(Hopping(h), at, 10).steps == 1
  {
    hide Fits, Ordered, Evaluated, VpcOf, Turn;
    HopVpc(h, at.state);
    StoppingTurn(Hopping(h), at, Arrived(Hopping(h), at.state, 1, 10), 10);
  }

  /** Four turns with `maxSteps` 2: two of them lift nothing and take no step. */
  lemma EmptyWindowsTakeNoSteps(h: Host)
    ensures Fits(Hopping(h), HOP_START) && Unused(HOP_START) && !WindowsFilled(Hopping(h))
    ensures Makes(Hopping(h), HOP_START, 0, 2, 10, 4)
  {
    hide Turns, Turn, HopState;
    HopFits(h);
    hide Fits;
    var p := Hopping(h);
    assert p.decode(1) == Some([]);
    NoTurn(p, HOP_START, 0, 10);
    HopStart();
    NextTurn(p, HOP_START, 0, 10, 0, Turns(p, HOP_START, 0, 10, 0));
    HopFirst(h, Turns(p, HOP_START, 0, 10, 0));
    NextTurn(p, HOP_START, 0, 10, 1, Turns(p, HOP_START, 0, 10, 1));
    HopSecond(h, Turns(p, HOP_START, 0, 10, 1));
    NextTurn(p, HOP_START, 0, 10, 2, Turns(p, HOP_START, 0, 10, 2));
    HopThird(h, Turns(p, HOP_START, 0, 10, 2));
    NextTurn(p, HOP_START, 0, 10, 3, Turns(p, HOP_START, 0, 10, 3));
    HopFourth(h, Turns(p, HOP_START, 0, 10, 3));
  }

  lemma HopStart()
    ensures HopState(0) == HOP_START
  {}
}
