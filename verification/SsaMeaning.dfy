/** What full-SSA recovery means: the recovered blocks against the oracle's raw segments with each
    entry symbol `reg@bbN` bound to the value that the register really has on entry to block N.
    Here one visit and one edge; whole paths are in SsaPaths. */
module SsaMeaning {
  import opened Ir
  import opened Machine
  import opened Cfg
  import opened Names
  import opened Recovery
  import opened Phi
  import opened FullSsa
  import opened GraphFacts

  // ----- running blocks -----

  /** What a visit to a block shows: the operands of every instruction, the value of the
      terminator's condition, and memory and events afterwards. */
  datatype Visit = Visit(block: nat, operands: seq<seq<Word>>, condition: Option<Word>, mem: Memory, events: seq<Event>)

  ghost function Operands(g: Trace, n: nat, env: Env, s: State): seq<seq<Word>>
    requires n <= |g|
  {
    if n == 0 then [] else Operands(g, n - 1, env, s) + [EvalAll(g[n - 1].operands, env, RunTo(g, n - 1, env, s).vals)]
  }

  ghost function Condition(t: Terminator, env: Env, vals: Values): Option<Word> {
    if t.condition.Some? then Some(Eval(t.condition.value, env, vals)) else None
  }

  ghost function VisitOf(bb: BasicBlock, env: Env, s: State): Visit {
    var t := Run(bb.instrs, env, s);
    Visit(bb.id, Operands(bb.instrs, |bb.instrs|, env, s), Condition(bb.term, env, t.vals), t.mem, t.events)
  }

  // ----- the raw program -----

  type RegFile = string -> Word

  /** The register that an own entry symbol names. */
  ghost function Bound(regs: seq<string>, b: nat, file: RegFile, inputs: RegFile, name: string): Word {
    if Own(name, regs, b) then
      var r :| r in regs && name == EntrySym(r, b);
      file(r)
    else inputs(name)
  }

  /** Block `b`'s entry symbols stand for the registers on entry. */
  ghost function BlockEnv(env: Env, regs: seq<string>, b: nat, file: RegFile): Env {
    env.(regs := (name: string) => Bound(regs, b, file, env.regs, name))
  }

  ghost function RegsAfter(env: Env, vals: Values, state: VMState): RegFile {
    (r: string) => Eval(Lookup(state, r), env, vals)
  }

  function ArmsOf(g: Graph, b: nat): seq<Arm> { if b < |g.arms| then g.arms[b] else [] }

  /** The visits of the raw segments, taking at each block the arm that `path` names. */
  ghost function RawRun(g: Graph, regs: seq<string>, env: Env, b: nat, file: RegFile, s: State,
                        path: seq<nat>): seq<Visit>
    decreases |path|
  {
    var e := BlockEnv(env, regs, b, file);
    [VisitOf(BlockOf(g, b), e, s)] +
    if |path| == 0 || path[0] >= |ArmsOf(g, b)| then []
    else
      var a := ArmsOf(g, b)[path[0]];
      var t := Run(BlockOf(g, b).instrs, e, s);
      RawRun(g, regs, env, a.to, RegsAfter(e, t.vals, a.state), t, path[1..])
  }

  // ----- the recovered program -----

  /** What a phi reads when control comes from `pred`. */
  ghost function PhiRead(ins: seq<PhiInput>, pred: nat, env: Env, vals: Values): Word {
    if |ins| == 0 then 0
    else if ins[0].pred == pred then Eval(ins[0].value, env, vals)
    else PhiRead(ins[1..], pred, env, vals)
  }

  /** All phis read in parallel, then all are written. */
  ghost function PhisRead(phis: seq<PhiNode>, n: nat, pred: nat, env: Env, vals: Values): Values
    requires n <= |phis|
  {
    if n == 0 then vals
    else PhisRead(phis, n - 1, pred, env, vals)[phis[n - 1].resultId := PhiRead(phis[n - 1].incoming, pred, env, vals)]
  }

  ghost function Enter(bb: BasicBlock, pred: nat, env: Env, s: State): State {
    s.(vals := PhisRead(bb.phis, |bb.phis|, pred, env, s.vals))
  }

  function Next(t: Terminator, k: nat): Option<nat> {
    if t.kind.JUMP? && k == 0 then t.target
    else if t.kind.CJUMP? && k == 0 then t.target
    else if t.kind.CJUMP? && k == 1 then t.fallthrough
    else None
  }

  /** The visits of the recovered blocks along `path`. */
  ghost function SsaRun(blocks: seq<BasicBlock>, env: Env, b: nat, s: State, path: seq<nat>): seq<Visit>
    requires b < |blocks|
    decreases |path|
  {
    [VisitOf(blocks[b], env, s)] +
    if |path| == 0 then []
    else
      var next := Next(blocks[b].term, path[0]);
      if next.None? || next.value >= |blocks| then []
      else
        var t := Run(blocks[b].instrs, env, s);
        SsaRun(blocks, env, next.value, Enter(blocks[next.value], b, env, t), path[1..])
  }

  // ----- what the oracle must respect -----

  /** A value of segment `b` mentions only the segment's own instructions and entry symbols, and
      free inputs. */
  ghost predicate Mine(g: Graph, regs: seq<string>, b: nat, v: Value)
    requires b < |g.results|
  {
    OwnSymbols(v, regs, |g.vpcs|, b) && (v.InstrRef? ==> HasId(g.results[b].instrs, v.id))
  }

  ghost predicate SegmentOwned(g: Graph, regs: seq<string>, b: nat)
    requires b < |g.results| && b < |g.arms|
  {
    && (forall i, k :: 0 <= i < |g.results[b].instrs| && 0 <= k < |g.results[b].instrs[i].operands| ==>
          Mine(g, regs, b, g.results[b].instrs[i].operands[k]))
    && (g.results[b].condition.Some? ==> Mine(g, regs, b, g.results[b].condition.value))
    && (g.results[b].retValue.Some? ==> Mine(g, regs, b, g.results[b].retValue.value))
    && (forall k, r :: 0 <= k < |g.arms[b]| && r in g.arms[b][k].state ==> Mine(g, regs, b, g.arms[b][k].state[r]))
  }

  /** Out-states define every tracked register. */
  ghost predicate SegmentComplete(g: Graph, regs: seq<string>, b: nat)
    requires b < |g.arms|
  {
    forall k, r :: 0 <= k < |g.arms[b]| && r in regs ==> r in g.arms[b][k].state
  }

  /** The arms of a branch lead to different blocks. */
  ghost predicate ArmsApart(g: Graph, b: nat)
    requires b < |g.arms|
  {
    forall k, l :: 0 <= k < l < |g.arms[b]| ==> g.arms[b][k].to != g.arms[b][l].to
  }

  ghost predicate IdsApart(g: Graph) {
    forall b, d, id :: 0 <= b < d < |g.results| && HasId(g.results[b].instrs, id) ==> !HasId(g.results[d].instrs, id)
  }

  /** The function inputs are constants or free symbols. */
  ghost predicate InputsFree(g: Graph, c: Config, init: VMState) {
    forall r :: r in c.trackedRegs ==>
      && FreeOfEntries(Lookup(init, r), c.trackedRegs, |g.vpcs|) && !Lookup(init, r).InstrRef?
      && FreeOfEntries(SymReg(r), c.trackedRegs, |g.vpcs|)
  }

  ghost predicate Hygienic(g: Graph, c: Config, init: VMState) {
    && |g.arms| == |g.results|
    && InputsFree(g, c, init) && IdsApart(g)
    && forall b :: 0 <= b < |g.arms| ==>
         SegmentOwned(g, c.trackedRegs, b) && SegmentComplete(g, c.trackedRegs, b) && ArmsApart(g, b)
  }

  lemma HygienicStates(g: Graph, c: Config, init: VMState)
    requires Hygienic(g, c, init)
    ensures StatesOwned(g, c, init)
  {
    hide IsEntry, Own, HasId, IdsApart;
    forall b, k, r | 0 <= b < |g.arms| && 0 <= k < |g.arms[b]| && r in g.arms[b][k].state
      ensures OwnSymbols(g.arms[b][k].state[r], c.trackedRegs, |g.vpcs|, b)
    {
      assert SegmentOwned(g, c.trackedRegs, b);
      assert Mine(g, c.trackedRegs, b, g.arms[b][k].state[r]);
    }
  }

  // ----- the setting of the proof -----

  datatype Setup = Setup(g: Graph, c: Config, init: VMState, m: nat, out: Subst) {
    function Base(): nat { m + 1 }
    function Regs(): seq<string> { c.trackedRegs }
    function Phis(b: nat): seq<PhiNode> { PhisOf(g, c.trackedRegs, m + 1, b) }
    function Block(b: nat): BasicBlock { RewriteBlock(PhiBlock(g, c.trackedRegs, m + 1, b), out) }
    function Blocks(): (r: seq<BasicBlock>)
      ensures |r| == |g.vpcs| && forall b :: 0 <= b < |r| ==> r[b] == Block(b)
    {
      RewriteBlocks(PhiBlocks(g, c.trackedRegs, m + 1), out)
    }

    ghost predicate Valid() {
      && Sound(g) && Hygienic(g, c, init) && GreatestId(BlocksOf(g), m)
      && Definitions(out, g, c, init, m + 1)
    }
  }

  /** A value of block `b`, or of no block: what may be rewritten there. */
  ghost predicate Local(p: Setup, b: nat, v: Value) {
    OwnSymbols(v, p.Regs(), |p.g.vpcs|, b) && (v.InstrRef? ==> v.id < p.Base())
  }

  /** The runs agree on memory, events and every instruction result. */
  ghost predicate Agree(p: Setup, s: State, t: State) {
    && s.mem == t.mem && s.events == t.events && s.calls == t.calls
    && forall id :: 0 <= id < p.Base() ==>
         (id in s.vals <==> id in t.vals) && (id in s.vals ==> s.vals[id] == t.vals[id])
  }

  /** Block `b`'s entry symbols are defined by values that hold what the registers hold. */
  ghost predicate Wired(p: Setup, b: nat, file: RegFile, env: Env, vals: Values) {
    forall r :: r in p.Regs() ==> EntrySym(r, b) in p.out && Eval(p.out[EntrySym(r, b)], env, vals) == file(r)
  }

  // ----- single values -----

  /** A rewritten value means what the raw one means. */
  lemma SubstituteMeans(p: Setup, b: nat, v: Value, file: RegFile, env: Env, s: State, t: State)
    requires Definitions(p.out, p.g, p.c, p.init, p.Base()) && b < |p.g.vpcs|
    requires Local(p, b, v) && Agree(p, s, t) && Wired(p, b, file, env, t.vals)
    ensures Eval(Substitute(v, p.out), env, t.vals) == Eval(v, BlockEnv(env, p.Regs(), b, file), s.vals)
  {
    hide IsEntry, TargetOf, EntrySym;
    if v.SymReg? {
      if IsKey(v, p.out) {
        var r :| r in p.Regs() && v.name == EntrySym(r, b);
        BoundOwn(p.Regs(), b, file, env.regs, r);
      } else {
        OwnIsEntry(v.name, p.Regs(), |p.g.vpcs|, b);
      }
    }
  }

  lemma OwnIsEntry(name: string, regs: seq<string>, n: nat, b: nat)
    requires b < n
    ensures Own(name, regs, b) ==> IsEntry(name, regs, n)
  {
    hide EntrySym;
  }

  lemma BoundOwn(regs: seq<string>, b: nat, file: RegFile, inputs: RegFile, r: string)
    requires r in regs
    ensures Bound(regs, b, file, inputs, EntrySym(r, b)) == file(r)
  {
    hide EntrySym;
    var name := EntrySym(r, b);
    assert Own(name, regs, b);
    forall q | q in regs && name == EntrySym(q, b) ensures q == r { EntrySymInjective(q, b, r, b); }
  }

  lemma IdsBelow(p: Setup, b: nat, id: nat)
    requires p.Valid() && b < |p.g.results| && HasId(p.g.results[b].instrs, id)
    ensures id < p.Base()
  {
    hide Definitions, Hygienic;
    var i :| 0 <= i < |p.g.results[b].instrs| && p.g.results[b].instrs[i].resultId == id;
    assert BlocksOf(p.g)[b] == BlockOf(p.g, b);
    assert BlocksOf(p.g)[b].instrs[i].resultId <= p.m;
  }

  lemma MineLocal(p: Setup, b: nat, v: Value)
    requires p.Valid() && b < |p.g.results| && Mine(p.g, p.Regs(), b, v)
    ensures Local(p, b, v)
  {
    hide Setup.Valid, OwnSymbols, HasId;
    if v.InstrRef? { IdsBelow(p, b, v.id); }
  }

  // ----- inside one block -----

  /** Only the register file differs between the environments. */
  lemma ExecuteBlockEnv(op: Op, private: bool, args: seq<Word>, env: Env, regs: seq<string>, b: nat, file: RegFile,
                        mem: Memory, calls: nat)
    ensures Execute(op, private, args, BlockEnv(env, regs, b, file), mem, calls)
         == Execute(op, private, args, env, mem, calls)
  {
    hide Bound, Load64, Store64, PureResult;
    PureBlockEnv(op, args, env, regs, b, file);
  }

  lemma PureBlockEnv(op: Op, args: seq<Word>, env: Env, regs: seq<string>, b: nat, file: RegFile)
    ensures PureResult(op, args, BlockEnv(env, regs, b, file)) == PureResult(op, args, env)
  {
    hide Bound;
  }

  /** The definition of an entry symbol is no instruction of the block it is used in. */
  lemma {:induction false} DefinedEarlier(p: Setup, b: nat, r: string)
    requires p.Valid() && b < |p.g.vpcs| && r in p.Regs()
    ensures EntrySym(r, b) in p.out
    ensures var v := p.out[EntrySym(r, b)];
            v.InstrRef? && v.id < p.Base() ==>
              exists q :: 0 <= q < b && q < |p.g.results| && HasId(p.g.results[q].instrs, v.id)
  {
    hide Sound, Hygienic, HasId, IsEntry, GreatestId, EntrySym, PhisOf, FirstPhi, Mine, OwnSymbols;
    KeyOf(p, b, r);
    var phi := FirstPhi(p.Phis(b), r);
    if phi.Some? {
      PhiIdHigh(p, b, r);
    } else if b == 0 {
      InputIsFree(p, r);
    } else {
      var v, q := FirstDefinition(p, b, r);
      if IsKey(v, p.out) {
        var r' :| r' in p.Regs() && v.name == EntrySym(r', q);
        DefinedEarlier(p, q, r');
      } else {
        assert Mine(p.g, p.Regs(), q, v);
        MineHas(p.g, p.Regs(), q, v);
      }
    }
  }

  lemma InputIsFree(p: Setup, r: string)
    requires p.Valid() && r in p.Regs()
    ensures FreeOfEntries(Lookup(p.init, r), p.Regs(), |p.g.vpcs|) && !Lookup(p.init, r).InstrRef?
  {
    hide Sound, GreatestId, Definitions, IsEntry, IdsApart, SegmentOwned;
    assert InputsFree(p.g, p.c, p.init);
  }

  lemma KeyOf(p: Setup, b: nat, r: string)
    requires Definitions(p.out, p.g, p.c, p.init, p.Base()) && b < |p.g.vpcs| && r in p.Regs()
    ensures EntrySym(r, b) in p.out
    ensures p.out[EntrySym(r, b)] == Substitute(TargetOf(p.g, p.c, p.init, p.Base(), b, r), p.out)
    ensures forall v: Value :: IsKey(v, p.out) <==> v.SymReg? && IsEntry(v.name, p.Regs(), |p.g.vpcs|)
  {
    hide EntrySym, TargetOf;
    assert IsEntry(EntrySym(r, b), p.Regs(), |p.g.vpcs|);
  }

  lemma MineHas(g: Graph, regs: seq<string>, b: nat, v: Value)
    requires b < |g.results| && Mine(g, regs, b, v)
    ensures v.InstrRef? ==> HasId(g.results[b].instrs, v.id)
    ensures v.SymReg? && IsEntry(v.name, regs, |g.vpcs|) ==> Own(v.name, regs, b)
  {}

  lemma PhiIdHigh(p: Setup, b: nat, r: string)
    requires p.Valid() && b < |p.g.vpcs| && FirstPhi(p.Phis(b), r).Some?
    ensures FirstPhi(p.Phis(b), r).value >= p.Base()
  {
    hide Sound, Hygienic, GreatestId, Definitions, PhisOf;
    var j :| 0 <= j < |p.Phis(b)| && p.Phis(b)[j].reg == r && p.Phis(b)[j].resultId == FirstPhi(p.Phis(b), r).value;
    PhiIdsFresh(p.g, p.Regs(), p.m, p.Base(), b, j);
  }

  /** Without a phi, a register is defined by the first recorded predecessor, an earlier block. */
  lemma FirstDefinition(p: Setup, b: nat, r: string) returns (v: Value, q: nat)
    requires p.Valid() && 0 < b < |p.g.vpcs| && r in p.Regs() && FirstPhi(p.Phis(b), r).None?
    ensures v == TargetOf(p.g, p.c, p.init, p.Base(), b, r)
    ensures q < b && q < |p.g.results| && Mine(p.g, p.Regs(), q, v)
    ensures v.SymReg? && IsEntry(v.name, p.Regs(), |p.g.vpcs|) ==> Own(v.name, p.Regs(), q)
  {
    hide Distinct, ArmsMatch, Definitions, PhisOf, FirstPhi, GreatestId, IsEntry, Own, HasId, Exits, IdsApart,
         InputsFree;
    assert BornEarlier(p.g, b);
    var k := IncomingArm(p.g.arms, |p.g.arms|, b, 0);
    q := In(p.g, b)[0].pred;
    v := Lookup(In(p.g, b)[0].state, r);
    assert SegmentComplete(p.g, p.Regs(), q) && SegmentOwned(p.g, p.Regs(), q);
  }

  lemma NotOwnId(p: Setup, b: nat, r: string, id: nat)
    requires p.Valid() && b < |p.g.results| && r in p.Regs() && HasId(p.g.results[b].instrs, id)
    ensures EntrySym(r, b) in p.out && p.out[EntrySym(r, b)] != InstrRef(id)
  {
    hide HasId, GreatestId, Definitions, EntrySym;
    DefinedEarlier(p, b, r);
    IdsBelow(p, b, id);
    assert IdsApart(p.g);
  }

  lemma ArgsAgree(p: Setup, b: nat, i: nat, file: RegFile, env: Env, s: State, t: State)
    requires p.Valid() && b < |p.g.results| && i < |p.g.results[b].instrs|
    requires Agree(p, s, t) && Wired(p, b, file, env, t.vals)
    ensures var ins := p.g.results[b].instrs[i];
            EvalAll(ins.operands, BlockEnv(env, p.Regs(), b, file), s.vals)
              == EvalAll(RewriteInstr(ins, p.out).operands, env, t.vals)
  {
    hide BlockEnv, Substitute, Local, Mine, EntrySym, GreatestId, Definitions, Sound, IdsApart, InputsFree, Agree,
         Wired, SegmentComplete, ArmsApart;
    SoundSizes(p.g);
    var ins := p.g.results[b].instrs[i];
    assert SegmentOwned(p.g, p.Regs(), b);
    forall k | 0 <= k < |ins.operands|
      ensures Eval(Substitute(ins.operands[k], p.out), env, t.vals)
           == Eval(ins.operands[k], BlockEnv(env, p.Regs(), b, file), s.vals)
    {
      MineLocal(p, b, ins.operands[k]);
      SubstituteMeans(p, b, ins.operands[k], file, env, s, t);
    }
  }

  /** One instruction keeps the runs together. */
  lemma StepAgrees(p: Setup, b: nat, i: nat, file: RegFile, env: Env, s: State, t: State)
    requires p.Valid() && b < |p.g.results| && i < |p.g.results[b].instrs|
    requires Agree(p, s, t) && Wired(p, b, file, env, t.vals)
    ensures var ins := p.g.results[b].instrs[i];
            var e := BlockEnv(env, p.Regs(), b, file);
            && Agree(p, Step(ins, e, s), Step(RewriteInstr(ins, p.out), env, t))
            && Wired(p, b, file, env, Step(RewriteInstr(ins, p.out), env, t).vals)
            && EvalAll(ins.operands, e, s.vals) == EvalAll(RewriteInstr(ins, p.out).operands, env, t.vals)
  {
    hide Execute, BlockEnv, EntrySym, Setup.Valid, EvalAll;
    var ins := p.g.results[b].instrs[i];
    ArgsAgree(p, b, i, file, env, s, t);
    ExecuteBlockEnv(ins.op, Private(ins), EvalAll(ins.operands, BlockEnv(env, p.Regs(), b, file), s.vals), env,
                    p.Regs(), b, file, s.mem, s.calls);
    assert HasId(p.g.results[b].instrs, ins.resultId);
    forall r | r in p.Regs() ensures EntrySym(r, b) in p.out && p.out[EntrySym(r, b)] != InstrRef(ins.resultId) {
      NotOwnId(p, b, r, ins.resultId);
    }
  }

  lemma {:induction false} BlockAgrees(p: Setup, b: nat, n: nat, file: RegFile, env: Env, s: State, t: State)
    requires p.Valid() && b < |p.g.results| && n <= |p.g.results[b].instrs|
    requires Agree(p, s, t) && Wired(p, b, file, env, t.vals)
    ensures var raw, now := p.g.results[b].instrs, RewriteTrace(p.g.results[b].instrs, p.out);
            var e := BlockEnv(env, p.Regs(), b, file);
            && Agree(p, RunTo(raw, n, e, s), RunTo(now, n, env, t))
            && Wired(p, b, file, env, RunTo(now, n, env, t).vals)
            && Operands(raw, n, e, s) == Operands(now, n, env, t)
  {
    hide Setup.Valid, Agree, Wired, Step, BlockEnv, RewriteInstr, EvalAll;
    if n > 0 {
      var raw, now := p.g.results[b].instrs, RewriteTrace(p.g.results[b].instrs, p.out);
      var e := BlockEnv(env, p.Regs(), b, file);
      BlockAgrees(p, b, n - 1, file, env, s, t);
      StepAgrees(p, b, n - 1, file, env, RunTo(raw, n - 1, e, s), RunTo(now, n - 1, env, t));
    }
  }

  /** A whole visit, including the condition. */
  lemma VisitAgrees(p: Setup, b: nat, file: RegFile, env: Env, s: State, t: State)
    requires p.Valid() && b < |p.g.vpcs| && Agree(p, s, t) && Wired(p, b, file, env, t.vals)
    ensures var e := BlockEnv(env, p.Regs(), b, file);
            && VisitOf(BlockOf(p.g, b), e, s) == VisitOf(p.Block(b), env, t)
            && Agree(p, Run(BlockOf(p.g, b).instrs, e, s), Run(p.Block(b).instrs, env, t))
            && Wired(p, b, file, env, Run(p.Block(b).instrs, env, t).vals)
  {
    hide Setup.Valid, BlockEnv, RewriteInstr, RewriteTerm, PhisOf, RewritePhis, Wired, EvalAll, Condition, TermOf;
    var e := BlockEnv(env, p.Regs(), b, file);
    if b < |p.g.results| {
      ValidSizes(p);
      BlockAgrees(p, b, |p.g.results[b].instrs|, file, env, s, t);
      ConditionAgrees(p, b, file, env, Run(BlockOf(p.g, b).instrs, e, s), Run(p.Block(b).instrs, env, t));
    } else {
      NoCondition(p, b, e, env, s, t);
    }
  }

  lemma ValidSizes(p: Setup)
    requires p.Valid()
    ensures |p.g.arms| == |p.g.results| <= |p.g.vpcs|
  {
    hide Hygienic, GreatestId, Definitions;
    SoundSizes(p.g);
  }

  lemma NoCondition(p: Setup, b: nat, e: Env, env: Env, s: State, t: State)
    requires b >= |p.g.results|
    ensures Condition(BlockOf(p.g, b).term, e, s.vals)
         == Condition(RewriteTerm(BlockOf(p.g, b).term, p.out), env, t.vals) == None
  {}

  lemma ConditionAgrees(p: Setup, b: nat, file: RegFile, env: Env, s: State, t: State)
    requires p.Valid() && b < |p.g.results| && b < |p.g.arms| && Agree(p, s, t) && Wired(p, b, file, env, t.vals)
    ensures Condition(BlockOf(p.g, b).term, BlockEnv(env, p.Regs(), b, file), s.vals)
         == Condition(RewriteTerm(BlockOf(p.g, b).term, p.out), env, t.vals)
  {
    hide Substitute, Local, Mine, GreatestId, Definitions, IdsApart, InputsFree, Sound, BlockEnv, Wired, Agree, Eval,
         ArmsApart, SegmentComplete;
    ValidSizes(p);
    assert SegmentOwned(p.g, p.Regs(), b);
    var cond := BlockOf(p.g, b).term.condition;
    if cond.Some? {
      MineLocal(p, b, cond.value);
      SubstituteMeans(p, b, cond.value, file, env, s, t);
    }
  }

  // ----- along an edge -----

  lemma {:induction false} ArmRecorded(arms: seq<seq<Arm>>, n: nat, b: nat, k: nat)
    requires b < n <= |arms| && k < |arms[b]|
    ensures Incoming(b, arms[b][k].state) in InUpTo(arms, n, arms[b][k].to)
  {
    hide Into;
    if b == n - 1 {
      IntoRecorded(arms[b], b, k);
    } else {
      ArmRecorded(arms, n - 1, b, k);
    }
  }

  lemma {:induction false} IntoRecorded(arms: seq<Arm>, b: nat, k: nat)
    requires k < |arms|
    ensures Incoming(b, arms[k].state) in Into(arms, b, arms[k].to)
  {
    var n := |arms| - 1;
    if k < n { IntoRecorded(arms[..n], b, k); }
  }

  lemma {:induction false} IntoOnce(arms: seq<Arm>, pred: nat, s: nat)
    requires forall k, l :: 0 <= k < l < |arms| ==> arms[k].to != arms[l].to
    ensures |Into(arms, pred, s)| <= 1
    ensures |Into(arms, pred, s)| == 1 ==> exists k :: 0 <= k < |arms| && arms[k].to == s
  {
    if |arms| > 0 {
      var n := |arms| - 1;
      IntoOnce(arms[..n], pred, s);
    }
  }

  /** With distinct arms, a block has at most one recorded edge from each predecessor. */
  lemma {:induction false} PredsOnce(g: Graph, n: nat, s: nat)
    requires n <= |g.arms| && forall b :: 0 <= b < |g.arms| ==> ArmsApart(g, b)
    ensures forall i, j :: 0 <= i < j < |InUpTo(g.arms, n, s)| ==>
              InUpTo(g.arms, n, s)[i].pred < InUpTo(g.arms, n, s)[j].pred
  {
    hide Into;
    if n > 0 {
      PredsOnce(g, n - 1, s);
      InPreds(g.arms, n - 1, s);
      IntoFrom(g.arms[n - 1], n - 1, s);
      assert ArmsApart(g, n - 1);
      IntoOnce(g.arms[n - 1], n - 1, s);
    }
  }

  /** The recorded edge for arm `k` of block `b`, the only one from `b`. */
  lemma EdgeRecord(p: Setup, b: nat, k: nat) returns (i: nat)
    requires p.Valid() && b < |p.g.arms| && k < |p.g.arms[b]|
    ensures var a := p.g.arms[b][k];
            && i < |In(p.g, a.to)| && In(p.g, a.to)[i] == Incoming(b, a.state)
            && forall j :: 0 <= j < |In(p.g, a.to)| && In(p.g, a.to)[j].pred == b ==> j == i
  {
    hide InUpTo, Sound, GreatestId, Definitions, SegmentOwned, SegmentComplete, InputsFree, IdsApart;
    var a := p.g.arms[b][k];
    ArmRecorded(p.g.arms, |p.g.arms|, b, k);
    i :| 0 <= i < |In(p.g, a.to)| && In(p.g, a.to)[i] == Incoming(b, a.state);
    PredsOnce(p.g, |p.g.arms|, a.to);
  }

  lemma {:induction false} PhiReads(ins: seq<PhiInput>, pred: nat, i: nat, env: Env, vals: Values)
    requires i < |ins| && ins[i].pred == pred && forall j :: 0 <= j < |ins| && ins[j].pred == pred ==> j == i
    ensures PhiRead(ins, pred, env, vals) == Eval(ins[i].value, env, vals)
  {
    if i > 0 { PhiReads(ins[1..], pred, i - 1, env, vals); }
  }

  /** Phis write their own ids and nothing else. */
  lemma {:induction false} PhisWrite(phis: seq<PhiNode>, n: nat, pred: nat, env: Env, vals: Values)
    requires n <= |phis|
    requires forall i, j :: 0 <= i < |phis| && 0 <= j < |phis| && phis[i].resultId == phis[j].resultId ==> i == j
    ensures var r := PhisRead(phis, n, pred, env, vals);
            && (forall j :: 0 <= j < n ==>
                  phis[j].resultId in r && r[phis[j].resultId] == PhiRead(phis[j].incoming, pred, env, vals))
            && (forall id :: (forall j :: 0 <= j < n ==> phis[j].resultId != id) ==>
                 (id in r <==> id in vals) && (id in r ==> r[id] == vals[id]))
  {
    hide PhiRead;
    if n > 0 { PhisWrite(phis, n - 1, pred, env, vals); }
  }

  lemma PhiIdsDistinct(p: Setup, t: nat)
    requires p.Valid() && t < |p.g.vpcs|
    ensures var phis := RewritePhis(p.Phis(t), p.out);
            && (forall i, j :: 0 <= i < |phis| && 0 <= j < |phis| && phis[i].resultId == phis[j].resultId ==> i == j)
            && (forall i :: 0 <= i < |phis| ==> phis[i].resultId >= p.Base())
  {
    hide PhisOf, Sound, Hygienic, Definitions, GreatestId, RewriteInputs;
    forall i | 0 <= i < |p.Phis(t)|
      ensures p.Phis(t)[i].resultId >= p.Base()
      ensures forall j :: 0 <= j < |p.Phis(t)| && p.Phis(t)[j].resultId == p.Phis(t)[i].resultId ==> j == i
    {
      PhiIdsFresh(p.g, p.Regs(), p.m, p.Base(), t, i);
    }
  }

  /** Taking an edge writes only phi results. */
  lemma EnterAgrees(p: Setup, b: nat, to: nat, env: Env, s: State, t: State)
    requires p.Valid() && to < |p.g.vpcs| && Agree(p, s, t)
    ensures Agree(p, s, Enter(p.Block(to), b, env, t))
  {
    hide PhisOf, Sound, Hygienic, Definitions, GreatestId, RewritePhis, RewriteTrace, RewriteTerm, PhisRead, BlockOf;
    PhiIdsDistinct(p, to);
    var phis := RewritePhis(p.Phis(to), p.out);
    PhisWrite(phis, |phis|, b, env, t.vals);
  }

  /** A phi reads the value that the register's state gives along the edge. */
  lemma PhiEntered(p: Setup, b: nat, k: nat, r: string, env: Env, t: State)
    requires p.Valid() && b < |p.g.arms| && k < |p.g.arms[b]| && r in p.Regs()
    requires p.g.arms[b][k].to < |p.g.vpcs| && FirstPhi(p.Phis(p.g.arms[b][k].to), r).Some?
    ensures var a := p.g.arms[b][k];
            var id := FirstPhi(p.Phis(a.to), r).value;
            var vals := Enter(p.Block(a.to), b, env, t).vals;
            r in a.state && id in vals && vals[id] == Eval(Substitute(a.state[r], p.out), env, t.vals)
  {
    hide PhisOf, InUpTo, Setup.Valid, PhisRead, PhiRead, Mine, BlockOf, FirstPhi, Substitute, Local, RewriteTrace,
         RewriteTerm;
    var a := p.g.arms[b][k];
    var phis := p.Phis(a.to);
    FirstPhiAt(phis, r);
    var j :| 0 <= j < |phis| && phis[j].reg == r && phis[j].resultId == FirstPhi(phis, r).value;
    PhiPlacementExact(p.g, p.Regs(), p.Base(), a.to, r);
    var i := EdgeRecord(p, b, k);
    var now := RewritePhis(phis, p.out);
    PhiIdsDistinct(p, a.to);
    PhisWrite(now, |now|, b, env, t.vals);
    PhiReads(now[j].incoming, b, i, env, t.vals);
  }

  /** On entry through an edge, a register with a phi has the value its phi has just read. */
  lemma PhiWired(p: Setup, b: nat, k: nat, r: string, file: RegFile, env: Env, s: State, t: State)
    requires p.Valid() && b < |p.g.arms| && k < |p.g.arms[b]| && r in p.Regs()
    requires Agree(p, s, t) && Wired(p, b, file, env, t.vals)
    requires p.g.arms[b][k].to < |p.g.vpcs| && FirstPhi(p.Phis(p.g.arms[b][k].to), r).Some?
    ensures var a := p.g.arms[b][k];
            && EntrySym(r, a.to) in p.out
            && Eval(p.out[EntrySym(r, a.to)], env, Enter(p.Block(a.to), b, env, t).vals)
            == RegsAfter(BlockEnv(env, p.Regs(), b, file), s.vals, a.state)(r)
  {
    hide PhisOf, InUpTo, Sound, Definitions, GreatestId, BlockEnv, Wired, Agree, EntrySym, Mine, BlockOf, InputsFree,
         IdsApart, ArmsApart, FirstPhi, Substitute, Local, Enter, RegsAfter, Setup.Block;
    var a := p.g.arms[b][k];
    KeyOf(p, a.to, r);
    PhiEntered(p, b, k, r, env, t);
    ArmMeans(p, b, k, r, file, env, s, t);
    PhiTarget(p, a.to, r);
  }

  lemma FirstPhiAt(phis: seq<PhiNode>, r: string)
    requires FirstPhi(phis, r).Some?
    ensures exists j :: 0 <= j < |phis| && phis[j].reg == r && phis[j].resultId == FirstPhi(phis, r).value
  {}

  lemma PhiTarget(p: Setup, b: nat, r: string)
    requires FirstPhi(p.Phis(b), r).Some?
    ensures Substitute(TargetOf(p.g, p.c, p.init, p.Base(), b, r), p.out) == InstrRef(FirstPhi(p.Phis(b), r).value)
  {}

  /** The rewritten value along an arm is what the register holds after the raw block. */
  lemma ArmMeans(p: Setup, b: nat, k: nat, r: string, file: RegFile, env: Env, s: State, t: State)
    requires p.Valid() && b < |p.g.arms| && k < |p.g.arms[b]| && r in p.Regs()
    requires Agree(p, s, t) && Wired(p, b, file, env, t.vals)
    ensures var a := p.g.arms[b][k];
            && r in a.state
            && Eval(Substitute(a.state[r], p.out), env, t.vals)
            == RegsAfter(BlockEnv(env, p.Regs(), b, file), s.vals, a.state)(r)
  {
    hide InUpTo, Definitions, GreatestId, BlockEnv, Wired, Agree, EntrySym, Mine, Local, Substitute, IdsApart,
         InputsFree, ArmsMatch, Distinct, BornEarlier, ArmsApart;
    assert SegmentComplete(p.g, p.Regs(), b) && SegmentOwned(p.g, p.Regs(), b);
    var v := p.g.arms[b][k].state[r];
    MineLocal(p, b, v);
    SubstituteMeans(p, b, v, file, env, s, t);
  }

  /** A value shared by two predecessors is a constant or a free input. */
  lemma SharedIsFree(p: Setup, d: nat, e: nat, v: Value)
    requires p.Valid() && d < e < |p.g.results| && Mine(p.g, p.Regs(), d, v) && Mine(p.g, p.Regs(), e, v)
    ensures !v.InstrRef? && !IsKey(v, p.out)
  {
    hide Sound, GreatestId, HasId, TargetOf, IsEntry, Own, EntrySym;
    assert IdsApart(p.g);
    SoundSizes(p.g);
    if IsKey(v, p.out) {
      assert Own(v.name, p.Regs(), d) && Own(v.name, p.Regs(), e);
      OwnBlock(v.name, p.Regs(), |p.g.vpcs|, d);
      OwnBlock(v.name, p.Regs(), |p.g.vpcs|, e);
    }
  }

  lemma SoundSizes(g: Graph)
    requires Sound(g)
    ensures |g.arms| == |g.results| <= |g.vpcs|
    ensures forall b, k :: 0 <= b < |g.arms| && 0 <= k < |g.arms[b]| ==> g.arms[b][k].to < |g.vpcs|
  {
    hide BornEarlier, Exits;
    forall b, k | 0 <= b < |g.arms| && 0 <= k < |g.arms[b]|
      ensures g.arms[b][k].to < |g.vpcs|
    {
      assert ArmsMatch(g, b);
    }
  }

  /** Without a phi, all recorded in-edges of a block other than the entry carry one value, and
      no phi of the block changes it. */
  lemma PlainValue(p: Setup, b: nat, k: nat, r: string)
    requires p.Valid() && b < |p.g.arms| && k < |p.g.arms[b]| && r in p.Regs()
    requires 0 < p.g.arms[b][k].to < |p.g.vpcs| && FirstPhi(p.Phis(p.g.arms[b][k].to), r).None?
    ensures var a := p.g.arms[b][k];
            && TargetOf(p.g, p.c, p.init, p.Base(), a.to, r) == Lookup(a.state, r)
            && (p.Phis(a.to) == [] || (!Lookup(a.state, r).InstrRef? && !IsKey(Lookup(a.state, r), p.out)))
  {
    hide InUpTo, Contested, Definitions, GreatestId, Mine, IdsApart, InputsFree, Sound, FirstPhi, PhisOf, SegmentOwned;
    var a := p.g.arms[b][k];
    var ins := In(p.g, a.to);
    var i := EdgeRecord(p, b, k);
    SoundSizes(p.g);
    assert ArmsApart(p.g, b);
    NoPhi(p, a.to, r);
    forall j | 0 <= j < |ins|
      ensures ins[j].pred < |p.g.results| && r in ins[j].state && Mine(p.g, p.Regs(), ins[j].pred, ins[j].state[r])
    {
      var l := IncomingArm(p.g.arms, |p.g.arms|, a.to, j);
      assert SegmentComplete(p.g, p.Regs(), ins[j].pred) && SegmentOwned(p.g, p.Regs(), ins[j].pred);
      StateMine(p.g, p.Regs(), ins[j].pred, l, r);
    }
    if |ins| < 2 {
      NoContest(ins, p.Regs());
      NoPhis(p, a.to);
    } else {
      PredsOnce(p.g, |p.g.arms|, a.to);
      assert Lookup(ins[1].state, r) == Lookup(ins[0].state, r) == Lookup(a.state, r);
      SharedIsFree(p, ins[0].pred, ins[1].pred, Lookup(a.state, r));
    }
  }

  lemma StateMine(g: Graph, regs: seq<string>, b: nat, k: nat, r: string)
    requires b < |g.results| && b < |g.arms| && SegmentOwned(g, regs, b) && k < |g.arms[b]| && r in g.arms[b][k].state
    ensures Mine(g, regs, b, g.arms[b][k].state[r])
  {}

  lemma NoPhis(p: Setup, b: nat)
    requires Contested(In(p.g, b), p.Regs()) == []
    ensures p.Phis(b) == []
  {
    hide InUpTo, Contested;
  }

  lemma NoPhi(p: Setup, b: nat, r: string)
    requires FirstPhi(p.Phis(b), r).None? && r in p.Regs()
    ensures !Disagree(In(p.g, b), r)
  {
    hide InUpTo, Disagree, PhisOf;
    PhiPlacementExact(p.g, p.Regs(), p.Base(), b, r);
  }

  /** On entry through an edge to a block other than the function's entry, every register has the
      value its definition has. */
  lemma EdgeWired(p: Setup, b: nat, k: nat, file: RegFile, env: Env, s: State, t: State)
    requires p.Valid() && b < |p.g.arms| && k < |p.g.arms[b]| && p.g.arms[b][k].to > 0
    requires Agree(p, s, t) && Wired(p, b, file, env, t.vals)
    ensures var a := p.g.arms[b][k];
            && a.to < |p.g.vpcs|
            && Wired(p, a.to, RegsAfter(BlockEnv(env, p.Regs(), b, file), s.vals, a.state), env,
                     Enter(p.Block(a.to), b, env, t).vals)
  {
    hide Sound, Hygienic, GreatestId, Definitions, BlockEnv, EntrySym, Agree, PhisOf, FirstPhi, RewritePhis,
         RewriteTrace, RewriteTerm, BlockOf, RegsAfter, Substitute, TargetOf;
    SoundSizes(p.g);
    var a := p.g.arms[b][k];
    var after := RegsAfter(BlockEnv(env, p.Regs(), b, file), s.vals, a.state);
    forall r | r in p.Regs()
      ensures EntrySym(r, a.to) in p.out
      ensures Eval(p.out[EntrySym(r, a.to)], env, Enter(p.Block(a.to), b, env, t).vals) == after(r)
    {
      if FirstPhi(p.Phis(a.to), r).Some? {
        PhiWired(p, b, k, r, file, env, s, t);
      } else {
        PlainWired(p, b, k, r, file, env, s, t);
      }
    }
  }

  lemma PlainWired(p: Setup, b: nat, k: nat, r: string, file: RegFile, env: Env, s: State, t: State)
    requires p.Valid() && b < |p.g.arms| && k < |p.g.arms[b]| && r in p.Regs()
    requires Agree(p, s, t) && Wired(p, b, file, env, t.vals)
    requires 0 < p.g.arms[b][k].to < |p.g.vpcs| && FirstPhi(p.Phis(p.g.arms[b][k].to), r).None?
    ensures var a := p.g.arms[b][k];
            && EntrySym(r, a.to) in p.out
            && Eval(p.out[EntrySym(r, a.to)], env, Enter(p.Block(a.to), b, env, t).vals)
            == RegsAfter(BlockEnv(env, p.Regs(), b, file), s.vals, a.state)(r)
  {
    hide Sound, Hygienic, GreatestId, Definitions, BlockEnv, EntrySym, Agree, PhisOf, FirstPhi, RewriteTrace,
         RewriteTerm, BlockOf, RegsAfter, TargetOf, Wired;
    var a := p.g.arms[b][k];
    KeyOf(p, a.to, r);
    PlainValue(p, b, k, r);
    ArmMeans(p, b, k, r, file, env, s, t);
  }
}
