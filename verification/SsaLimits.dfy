/** Concrete inputs on which full-SSA recovery does not keep the meaning: edges into the entry. */
module SsaLimits {
  import opened Ir
  import opened Machine
  import opened Cfg
  import opened Names
  import opened Recovery
  import opened Phi
  import opened FullSsa
  import opened SsaMeaning
  import opened SsaPaths

  // ----- a return to the entry -----

  const COUNT: SegmentResult := SegmentResult(Goto,
    [Instruction(ADD, [SymReg(EntrySym("r", 0)), Const64(1)], 1, map[])],
    None, Some(Vpc(0)), map["r" := InstrRef(1)], None, None, None, map[], map[])

  const COUNTING: Graph := Graph([Vpc(0)], [COUNT], [[Arm(0, map["r" := InstrRef(1)])]])
  const COUNT_CONFIG: Config := Config(Vpc(0), 8, ["r"], true)
  const COUNT_SUBST: Subst := map[EntrySym("r", 0) := Const64(0)]

  /** A counting loop whose only block is the entry, which has no phi. The recovered block adds 1
      to the initial value on every visit, where the raw segment goes on counting. */
  lemma EntryLoopLosesMeaning(env: Env, mem: Memory)
    requires forall a: Word, b: Word :: env.binary(ADD, a, b) == a + b
    ensures Sound(COUNTING) && COUNTING == Discover((v, s) => COUNT, COUNT_CONFIG, map["r" := Const64(0)])
    ensures Hygienic(COUNTING, COUNT_CONFIG, map["r" := Const64(0)]) && EntryClean(COUNTING, ["r"])
    ensures GreatestId(BlocksOf(COUNTING), 1)
    ensures Definitions(COUNT_SUBST, COUNTING, COUNT_CONFIG, map["r" := Const64(0)], 2)
    ensures |RecoveredBlocks(COUNTING, COUNT_CONFIG, ["r"], 2, COUNT_SUBST)| == 1
    ensures SsaRun(RecoveredBlocks(COUNTING, COUNT_CONFIG, ["r"], 2, COUNT_SUBST), env, 0, Machine.Start(mem), [0])
         != RawRun(COUNTING, ["r"], env, 0, Inputs0(map["r" := Const64(0)], env), Machine.Start(mem), [0])
  {
    hide EntrySym, Sound, GreatestId, Definitions, Hygienic, EntryClean, SsaRun, RawRun, Discover;
    CountingGraph();

    CountingHygienic();
    CountingWired();
    RawTwice(env, mem);
    SsaTwice(env, mem);
  }

  lemma CountingGraph()
    ensures Sound(COUNTING) && COUNTING == Discover((v, s) => COUNT, COUNT_CONFIG, map["r" := Const64(0)])
    ensures GreatestId(BlocksOf(COUNTING), 1) && In(COUNTING, 0) == [Incoming(0, map["r" := InstrRef(1)])]
  {
    hide EntrySym, Sound;
    var oracle := (v: Vpc, s: VMState) => COUNT;
    var init: VMState := map["r" := Const64(0)];
    var g := Recovery.Start(COUNT_CONFIG);
    CountExtends();
    DiscoverSound(oracle, COUNT_CONFIG, init);
    assert Explore(oracle, COUNT_CONFIG, init, COUNTING)
        == COUNTING by { assert |COUNTING.results| == |COUNTING.vpcs|; }
    assert Explore(oracle, COUNT_CONFIG, init, g) == COUNTING;
    assert COUNTING.arms[0][..0] == [];
    assert Into(COUNTING.arms[0], 0, 0) == [Incoming(0, map["r" := InstrRef(1)])];
    assert BlocksOf(COUNTING)[0].instrs[0].resultId == 1;
  }

  lemma CountExtends()
    ensures Extend(Recovery.Start(COUNT_CONFIG), COUNT) == COUNTING
  {
    hide EntrySym;
    var exits := Exits(COUNT);
    assert exits == [Exit(Vpc(0), map["r" := InstrRef(1)])] && exits[..0] == [];
    assert SeeAll([Vpc(0)], exits) == See(SeeAll([Vpc(0)], exits[..0]), Vpc(0)) == [Vpc(0)];
    assert IndexIn([Vpc(0)], Vpc(0)) == 0;
    assert ArmsTo([Vpc(0)], exits) == [Arm(0, map["r" := InstrRef(1)])];
  }

  lemma CountingOwned()
    ensures IdsApart(COUNTING) && SegmentOwned(COUNTING, ["r"], 0) && SegmentComplete(COUNTING, ["r"], 0)
  {
    hide EntrySym;
    assert Own(EntrySym("r", 0), ["r"], 0);
    assert COUNT.instrs[0].resultId == 1;
    assert HasId(COUNT.instrs, 1);
  }

  lemma CountingHygienic()
    ensures Hygienic(COUNTING, COUNT_CONFIG, map["r" := Const64(0)]) && EntryClean(COUNTING, ["r"])
  {
    hide EntrySym, SegmentOwned, SegmentComplete, IdsApart, InUpTo, IsEntry;
    CountingGraph();
    CountingOwned();
    InputApart("r", 1);
  }

  /** A register's own name is no entry symbol. */
  lemma InputApart(r: string, n: nat)
    ensures FreeOfEntries(SymReg(r), [r], n)
  {
    forall b: nat ensures |EntrySym(r, b)| > |r| {}
  }

  lemma CountingPhis()
    ensures PhisOf(COUNTING, ["r"], 2, 0) == []
  {
    hide EntrySym, InUpTo, Sound, Discover, BlocksOf;
    CountingGraph();
    NoContest(In(COUNTING, 0), ["r"]);
  }

  lemma CountingWired()
    ensures PhisOf(COUNTING, ["r"], 2, 0) == []
    ensures Definitions(COUNT_SUBST, COUNTING, COUNT_CONFIG, map["r" := Const64(0)], 2)
  {
    hide EntrySym, InUpTo, PhisOf;
    CountingPhis();
    forall name ensures name in COUNT_SUBST <==> IsEntry(name, ["r"], 1) {
      if name in COUNT_SUBST { assert "r" in ["r"] && name == EntrySym("r", 0); }
    }
    assert TargetOf(COUNTING, COUNT_CONFIG, map["r" := Const64(0)], 2, 0, "r") == Const64(0);
  }

  /** The operands of the second visit: the raw segment adds to 1, ... */
  lemma RawTwice(env: Env, mem: Memory)
    requires forall a: Word, b: Word :: env.binary(ADD, a, b) == a + b
    ensures var raw := RawRun(COUNTING, ["r"], env, 0, Inputs0(map["r" := Const64(0)], env), Machine.Start(mem), [0]);
            |raw| == 2 && raw[1].operands == [[1, 1]]
  {
    hide EntrySym, BlockEnv, Run, VisitOf, Inputs0;
    var s0 := Machine.Start(mem);
    var file := Inputs0(map["r" := Const64(0)], env);
    var e := BlockEnv(env, ["r"], 0, file);
    var s1 := Run(COUNT.instrs, e, s0);
    var after := RegsAfter(e, s1.vals, map["r" := InstrRef(1)]);
    RawOnce(env, mem);
    CountVisit(env, after, s1);
    assert ([0])[1..] == [];
    assert RawRun(COUNTING, ["r"], env, 0, after, s1, [])
        == [VisitOf(BlockOf(COUNTING, 0), BlockEnv(env, ["r"], 0, after), s1)];
  }

  lemma RawOnce(env: Env, mem: Memory)
    requires forall a: Word, b: Word :: env.binary(ADD, a, b) == a + b
    ensures var e := BlockEnv(env, ["r"], 0, Inputs0(map["r" := Const64(0)], env));
            var s1 := Run(COUNT.instrs, e, Machine.Start(mem));
            1 in s1.vals && s1.vals[1] == 1
  {
    hide EntrySym, Execute;
    var s0 := Machine.Start(mem);
    var file := Inputs0(map["r" := Const64(0)], env);
    var e := BlockEnv(env, ["r"], 0, file);
    BoundOwn(["r"], 0, file, env.regs, "r");
    var ins := COUNT.instrs[0];
    StepPure(ins, e, s0);
    assert RunTo(COUNT.instrs, 1, e, s0) == Step(ins, e, RunTo(COUNT.instrs, 0, e, s0));
    assert EvalAll(ins.operands, e, s0.vals) == [0, 1];
  }

  lemma CountVisit(env: Env, file: RegFile, s: State)
    ensures VisitOf(BlockOf(COUNTING, 0), BlockEnv(env, ["r"], 0, file), s).operands == [[file("r"), 1]]
  {
    hide EntrySym, Step;
    var e := BlockEnv(env, ["r"], 0, file);
    BoundOwn(["r"], 0, file, env.regs, "r");
    assert Operands(COUNT.instrs, 0, e, s) == [];
    assert EvalAll(COUNT.instrs[0].operands, e, s.vals) == [file("r"), 1];
  }

  lemma CountRewritten()
    ensures var blocks := RecoveredBlocks(COUNTING, COUNT_CONFIG, ["r"], 2, COUNT_SUBST);
            && |blocks| == 1 && blocks[0].id == 0 && blocks[0].phis == []
            && blocks[0].instrs == [Instruction(ADD, [Const64(0), Const64(1)], 1, map[])]
            && blocks[0].term == Terminator(JUMP, Some(0), None, None)
  {
    hide EntrySym, PhisOf;
    CountingWired();
    var ops := COUNT.instrs[0].operands;
    assert RewriteValues(ops, COUNT_SUBST) == [Const64(0), Const64(1)];
    assert RewriteTrace(COUNT.instrs, COUNT_SUBST) == [Instruction(ADD, [Const64(0), Const64(1)], 1, map[])];
  }

  /** ... the recovered block to 0. */
  lemma SsaTwice(env: Env, mem: Memory)
    ensures |RecoveredBlocks(COUNTING, COUNT_CONFIG, ["r"], 2, COUNT_SUBST)| == 1
    ensures var ssa := SsaRun(RecoveredBlocks(COUNTING, COUNT_CONFIG, ["r"], 2, COUNT_SUBST), env, 0,
                              Machine.Start(mem), [0]);
            |ssa| == 2 && ssa[1].operands == [[0, 1]]
  {
    hide RecoveredBlocks, Run, VisitOf;
    CountRewritten();
    var blocks := RecoveredBlocks(COUNTING, COUNT_CONFIG, ["r"], 2, COUNT_SUBST);
    var bb := blocks[0];
    var t := Enter(bb, 0, env, Run(bb.instrs, env, Machine.Start(mem)));
    assert ([0])[1..] == [];
    assert SsaRun(blocks, env, 0, t, []) == [VisitOf(bb, env, t)];
    ConstVisit(bb, env, t);
  }

  lemma ConstVisit(bb: BasicBlock, env: Env, s: State)
    requires bb.instrs == [Instruction(ADD, [Const64(0), Const64(1)], 1, map[])]
    ensures VisitOf(bb, env, s).operands == [[0, 1]]
  {
    hide Step;
    assert Operands(bb.instrs, 0, env, s) == [];
    assert EvalAll(bb.instrs[0].operands, env, s.vals) == [0, 1];
  }

  // ----- a phi at the entry -----

  const FORK: SegmentResult := SegmentResult(Branch, [], None, None, map[],
    Some(SymReg(EntrySym("r", 0))), Some(Vpc(1)), Some(Vpc(2)), map["r" := Const64(3)], map["r" := Const64(3)])
  const BACK1: SegmentResult := SegmentResult(Goto, [], None, Some(Vpc(0)), map["r" := Const64(1)],
    None, None, None, map[], map[])
  const BACK2: SegmentResult := SegmentResult(Goto, [], None, Some(Vpc(0)), map["r" := Const64(2)],
    None, None, None, map[], map[])

  const FORK_ARMS: seq<Arm> := [Arm(1, map["r" := Const64(3)]), Arm(2, map["r" := Const64(3)])]
  const FORK_ORACLE: Oracle := (v, s) => if v == Vpc(0) then FORK else if v == Vpc(1) then BACK1 else BACK2
  const FORKED: Graph := Graph([Vpc(0), Vpc(1), Vpc(2)], [FORK, BACK1, BACK2],
    [FORK_ARMS, [Arm(0, map["r" := Const64(1)])], [Arm(0, map["r" := Const64(2)])]])
  const FORK_SUBST: Subst := map[
    EntrySym("r", 0) := InstrRef(1), EntrySym("r", 1) := Const64(3), EntrySym("r", 2) := Const64(3)]

  /** The entry branches on `r`, and two blocks come back with different values in `r`. So the entry
      has a phi for `r`, and already the first visit tests an undefined value, not the input. */
  lemma EntryPhiLosesMeaning()
    ensures Sound(FORKED) && FORKED == Discover(FORK_ORACLE, COUNT_CONFIG, map["r" := Const64(0)])
    ensures Hygienic(FORKED, COUNT_CONFIG, map["r" := Const64(0)])
    ensures GreatestId(BlocksOf(FORKED), 0) && Definitions(FORK_SUBST, FORKED, COUNT_CONFIG, map["r" := Const64(0)], 1)
    ensures |RecoveredBlocks(FORKED, COUNT_CONFIG, ["r"], 1, FORK_SUBST)| == 3
    ensures exists env: Env, mem: Memory ::
              SsaRun(RecoveredBlocks(FORKED, COUNT_CONFIG, ["r"], 1, FORK_SUBST), env, 0, Machine.Start(mem), [])
              != RawRun(FORKED, ["r"], env, 0, Inputs0(map["r" := Const64(0)], env), Machine.Start(mem), [])
  {
    hide EntrySym, Sound, GreatestId, Definitions, Hygienic, Discover, VisitOf, BlockEnv, Inputs0, Disagree, InUpTo;
    ForkedGraph();
    ForkedHygienic();
    ForkedIn();
    ForkedWired();
    var p := Setup(FORKED, COUNT_CONFIG, map["r" := Const64(0)], 0, FORK_SUBST);
    assert Reads(BlockOf(FORKED, 0), 0, "r");
    var env, mem := FirstVisitDiffers(p, "r");
    assert RecoveredBlocks(FORKED, COUNT_CONFIG, ["r"], 1, FORK_SUBST) == p.Blocks();
    ForkedStart(p, env, mem);
  }

  lemma ForkedStart(p: Setup, env: Env, mem: Memory)
    requires |p.g.vpcs| > 0
    ensures SsaRun(p.Blocks(), env, 0, Machine.Start(mem), []) == [VisitOf(p.Block(0), env, Machine.Start(mem))]
    ensures var file := Inputs0(p.init, env);
            RawRun(p.g, p.Regs(), env, 0, file, Machine.Start(mem), [])
            == [VisitOf(BlockOf(p.g, 0), BlockEnv(env, p.Regs(), 0, file), Machine.Start(mem))]
  {
    hide VisitOf, BlockEnv, BlockOf, Setup.Block, Inputs0;
  }

  const FORKED1: Graph := Graph(FORKED.vpcs, [FORK], [FORK_ARMS])
  const FORKED2: Graph := Graph(FORKED.vpcs, [FORK, BACK1], [FORK_ARMS, FORKED.arms[1]])

  lemma ForkedGraph()
    ensures Sound(FORKED) && FORKED == Discover(FORK_ORACLE, COUNT_CONFIG, map["r" := Const64(0)])
    ensures GreatestId(BlocksOf(FORKED), 0)
  {
    hide EntrySym, Sound, Extend, Explore;
    var init: VMState := map["r" := Const64(0)];
    ForkExtends();
    DiscoverSound(FORK_ORACLE, COUNT_CONFIG, init);
    ExploreStep(FORK_ORACLE, COUNT_CONFIG, init, Recovery.Start(COUNT_CONFIG), FORK);
    ExploreStep(FORK_ORACLE, COUNT_CONFIG, init, FORKED1, BACK1);
    ExploreStep(FORK_ORACLE, COUNT_CONFIG, init, FORKED2, BACK2);
    ExploreEnds(FORK_ORACLE, COUNT_CONFIG, init, FORKED);
  }

  lemma ExploreStep(oracle: Oracle, c: Config, init: VMState, g: Graph, r: SegmentResult)
    requires Continues(c, g) && forall s :: oracle(g.vpcs[|g.results|], s) == r
    ensures Explore(oracle, c, init, g) == Explore(oracle, c, init, Extend(g, r))
  {
    hide Extend, Drive;
  }

  lemma ExploreEnds(oracle: Oracle, c: Config, init: VMState, g: Graph)
    requires !Continues(c, g)
    ensures Explore(oracle, c, init, g) == g
  {}

  lemma ForkExtends()
    ensures Extend(Recovery.Start(COUNT_CONFIG), FORK) == FORKED1
    ensures Extend(FORKED1, BACK1) == FORKED2 && Extend(FORKED2, BACK2) == FORKED
  {
    hide EntrySym, SeeAll, ArmsTo;
    TwoNew(Vpc(0), Exit(Vpc(1), map["r" := Const64(3)]), Exit(Vpc(2), map["r" := Const64(3)]));
    NoneNew(FORKED.vpcs, Exit(Vpc(0), map["r" := Const64(1)]));
    NoneNew(FORKED.vpcs, Exit(Vpc(0), map["r" := Const64(2)]));
  }

  lemma TwoNew(v: Vpc, a: Exit, b: Exit)
    requires v != a.vpc && v != b.vpc && a.vpc != b.vpc
    ensures SeeAll([v], [a, b]) == [v, a.vpc, b.vpc]
    ensures ArmsTo([v, a.vpc, b.vpc], [a, b]) == [Arm(1, a.state), Arm(2, b.state)]
  {
    assert [a, b][..1] == [a] && [a][..0] == [];
    assert SeeAll([v], [a]) == [v, a.vpc];
    var all := [v, a.vpc, b.vpc];
    assert IndexIn(all, a.vpc) == 1 && IndexIn(all, b.vpc) == 2;
  }

  lemma {:induction false} NoneNew(vs: seq<Vpc>, a: Exit)
    requires |vs| > 0 && vs[0] == a.vpc
    ensures SeeAll(vs, [a]) == vs && ArmsTo(vs, [a]) == [Arm(0, a.state)]
  {
    assert [a][..0] == [];
  }

  lemma ForkedHygienic()
    ensures Hygienic(FORKED, COUNT_CONFIG, map["r" := Const64(0)])
  {
    hide EntrySym, IsEntry;
    InputApart("r", 3);
    assert Own(EntrySym("r", 0), ["r"], 0);
    forall b | 0 <= b < 3
      ensures SegmentOwned(FORKED, ["r"], b) && SegmentComplete(FORKED, ["r"], b) && ArmsApart(FORKED, b)
    {}
  }

  /** The recorded in-edges of the three blocks. */
  lemma ForkedIn()
    ensures In(FORKED, 0) == [Incoming(1, map["r" := Const64(1)]), Incoming(2, map["r" := Const64(2)])]
    ensures In(FORKED, 1) == [Incoming(0, map["r" := Const64(3)])]
    ensures In(FORKED, 2) == [Incoming(0, map["r" := Const64(3)])]
    ensures Disagree(In(FORKED, 0), "r")
  {
    hide EntrySym, InUpTo, Into;
    OneInto(FORKED.arms[1][0], 1);
    OneInto(FORKED.arms[2][0], 2);
    OneInto(FORK_ARMS[0], 0);
    TwoInto(FORK_ARMS[0], FORK_ARMS[1], 0);
    ThreeBlocks(FORKED.arms, 0);
    ThreeBlocks(FORKED.arms, 1);
    ThreeBlocks(FORKED.arms, 2);
    assert Lookup(In(FORKED, 0)[1].state, "r") != Lookup(In(FORKED, 0)[0].state, "r");
  }

  lemma ThreeBlocks(arms: seq<seq<Arm>>, s: nat)
    requires |arms| == 3
    ensures InUpTo(arms, 3, s) == Into(arms[0], 0, s) + Into(arms[1], 1, s) + Into(arms[2], 2, s)
  {
    hide Into;
    assert InUpTo(arms, 1, s) == Into(arms[0], 0, s);
    assert InUpTo(arms, 2, s) == Into(arms[0], 0, s) + Into(arms[1], 1, s);
  }

  lemma OneInto(a: Arm, b: nat)
    ensures forall s :: Into([a], b, s) == if a.to == s then [Incoming(b, a.state)] else []
  {
    assert [a][..0] == [];
  }

  lemma TwoInto(a: Arm, a': Arm, b: nat)
    ensures forall s :: Into([a, a'], b, s) == Into([a], b, s) + if a'.to == s then [Incoming(b, a'.state)] else []
  {
    assert [a, a'][..1] == [a];
  }

  lemma ForkedWired()
    ensures Definitions(FORK_SUBST, FORKED, COUNT_CONFIG, map["r" := Const64(0)], 1)
  {
    hide EntrySym, TargetOf;
    ForkedTargets();
    EntryNames();
    forall name ensures name in FORK_SUBST <==> IsEntry(name, ["r"], 3) {
      if name in FORK_SUBST {
        assert "r" in ["r"] && (name == EntrySym("r", 0) || name == EntrySym("r", 1) || name == EntrySym("r", 2));
      }
    }
  }

  lemma ForkedTargets()
    ensures var init: VMState := map["r" := Const64(0)];
            && TargetOf(FORKED, COUNT_CONFIG, init, 1, 0, "r") == InstrRef(1)
            && TargetOf(FORKED, COUNT_CONFIG, init, 1, 1, "r") == Const64(3)
            && TargetOf(FORKED, COUNT_CONFIG, init, 1, 2, "r") == Const64(3)
  {
    hide EntrySym, InUpTo, PhisOf, FirstPhi, Disagree;
    ForkedPhis();
    ForkedIn();
  }

  lemma EntryNames()
    ensures EntrySym("r", 0) != EntrySym("r", 1) && EntrySym("r", 0) != EntrySym("r", 2)
    ensures EntrySym("r", 1) != EntrySym("r", 2)
  {
    hide EntrySym;
    if EntrySym("r", 0) == EntrySym("r", 1) { EntrySymInjective("r", 0, "r", 1); }
    if EntrySym("r", 0) == EntrySym("r", 2) { EntrySymInjective("r", 0, "r", 2); }
    if EntrySym("r", 1) == EntrySym("r", 2) { EntrySymInjective("r", 1, "r", 2); }
  }

  lemma ForkedPhis()
    ensures FirstPhi(PhisOf(FORKED, ["r"], 1, 0), "r") == Some(1)
    ensures FirstPhi(PhisOf(FORKED, ["r"], 1, 1), "r").None? && FirstPhi(PhisOf(FORKED, ["r"], 1, 2), "r").None?
  {
    hide EntrySym, InUpTo, Disagree;
    ForkedIn();
    NoContest(In(FORKED, 1), ["r"]);
    NoContest(In(FORKED, 2), ["r"]);
    assert (["r"])[..0] == [];
    assert Contested(In(FORKED, 0), ["r"]) == ["r"];
    assert NextId(FORKED, ["r"], 1, 0) == 1;
    assert PhisOf(FORKED, ["r"], 1, 0)[0].reg == "r" && PhisOf(FORKED, ["r"], 1, 0)[0].resultId == 1;
  }
}
