/** What recovery asks of the oracle and what it makes of the answers: the state that each segment is
    evaluated in, the terminator, the successors and the states along the edges. Oracles whose answers
    keep to what they are given meet the hypotheses of the full-SSA theorems. */
module Drives {
  import opened Ir
  import opened Cfg
  import opened Names
  import opened Recovery
  import opened Phi
  import opened FullSsa
  import opened GraphFacts
  import opened SsaMeaning

  // ----- the state that drives a segment -----

  /** Exactly the registers `regs`, each as its own symbol of block `b`. */
  ghost predicate Symbolic(s: VMState, regs: seq<string>, b: nat) {
    && (forall r :: r in s <==> r in regs)
    && forall r :: r in s ==> s[r] == SymReg(EntrySym(r, b))
  }

  /** Among all arms of evaluated blocks, arm `k` of block `p` is the first that names `v`. */
  ghost predicate FirstNamed(g: Graph, p: nat, k: nat, v: Vpc) {
    && NamesAt(g, p, k, v)
    && forall q: nat, l: nat :: NamesAt(g, q, l, v) ==> p < q || (p == q && k <= l)
  }

  ghost predicate NamesAt(g: Graph, p: nat, k: nat, v: Vpc) {
    p < |g.results| && k < |Exits(g.results[p])| && Exits(g.results[p])[k].vpc == v
  }

  ghost predicate DrivenBy(oracle: Oracle, g: Graph, b: nat, s: VMState)
    requires b < |g.results| && b < |g.vpcs|
  {
    g.results[b] == oracle(g.vpcs[b], s)
  }

  /** Block `b` is driven by the state on the edge over which it was found. */
  ghost predicate DrivenByEdge(oracle: Oracle, g: Graph, b: nat, p: nat, k: nat)
    requires b < |g.results| && b < |g.vpcs|
  {
    p < b && FirstNamed(g, p, k, g.vpcs[b]) && DrivenBy(oracle, g, b, Exits(g.results[p])[k].state)
  }

  lemma {:induction false} IntoFirst(arms: seq<Arm>, pred: nat, s: nat) returns (k: nat)
    requires |Into(arms, pred, s)| > 0
    ensures k < |arms| && arms[k].to == s && Into(arms, pred, s)[0] == Incoming(pred, arms[k].state)
    ensures forall l :: 0 <= l < k ==> arms[l].to != s
  {
    var n := |arms| - 1;
    if |Into(arms[..n], pred, s)| > 0 {
      k := IntoFirst(arms[..n], pred, s);
    } else {
      k := n;
      forall l | 0 <= l < n ensures arms[l].to != s {
        if arms[l].to == s { IntoHas(arms[..n], pred, s, l); }
      }
    }
  }

  lemma {:induction false} InFirst(arms: seq<seq<Arm>>, n: nat, s: nat) returns (p: nat, k: nat)
    requires n <= |arms| && |InUpTo(arms, n, s)| > 0
    ensures p < n && k < |arms[p]| && arms[p][k].to == s && InUpTo(arms, n, s)[0] == Incoming(p, arms[p][k].state)
    ensures forall q, l :: 0 <= q < n && 0 <= l < |arms[q]| && arms[q][l].to == s ==> p < q || (p == q && k <= l)
  {
    hide Into;
    if |InUpTo(arms, n - 1, s)| > 0 {
      p, k := InFirst(arms, n - 1, s);
    } else {
      p := n - 1;
      k := IntoFirst(arms[n - 1], n - 1, s);
      NoneInto(arms, n - 1, s);
    }
  }

  lemma {:induction false} NoneInto(arms: seq<seq<Arm>>, n: nat, s: nat)
    requires n <= |arms| && InUpTo(arms, n, s) == []
    ensures forall q, l :: 0 <= q < n && 0 <= l < |arms[q]| ==> arms[q][l].to != s
  {
    hide Into;
    if n > 0 {
      NoneInto(arms, n - 1, s);
      var last := arms[n - 1];
      forall l | 0 <= l < |last| ensures last[l].to != s {
        if last[l].to == s { IntoHas(last, n - 1, s, l); }
      }
    }
  }

  /** The first edge into a block is the one over which it was found. */
  lemma FirstEdge(g: Graph, b: nat) returns (p: nat, k: nat)
    requires Sound(g) && 0 < b < |g.vpcs|
    ensures p < b && FirstNamed(g, p, k, g.vpcs[b]) && |In(g, b)| > 0
    ensures In(g, b)[0].state == Exits(g.results[p])[k].state
  {
    hide Exits, InUpTo;
    assert BornEarlier(g, b);
    p, k := InFirst(g.arms, |g.arms|, b);
    assert ArmsMatch(g, p);
    forall q: nat, l: nat | NamesAt(g, q, l, g.vpcs[b]) ensures p < q || (p == q && k <= l) {
      assert ArmsMatch(g, q);
      assert g.arms[q][l].to == b;
    }
  }

  /** In full-SSA mode every segment is evaluated in the state that gives each tracked register its own
      symbol of that block, and nothing else. Otherwise the entry is evaluated in the seed state, and
      every other block in the state on the first edge that was recorded into it. */
  lemma DrivenExactly(oracle: Oracle, c: Config, init: VMState, b: nat)
    requires b < |Discover(oracle, c, init).results|
    ensures b < |Discover(oracle, c, init).vpcs|
    ensures var g := Discover(oracle, c, init);
            if c.fullSsa && |c.trackedRegs| > 0
            then exists s: VMState :: Symbolic(s, c.trackedRegs, b) && DrivenBy(oracle, g, b, s)
            else if b == 0 then DrivenBy(oracle, g, 0, init)
            else exists p: nat, k: nat :: DrivenByEdge(oracle, g, b, p, k)
  {
    hide Exits, Discover, Sound, InUpTo, Continues, FirstNamed;
    var g := Discover(oracle, c, init);
    DiscoverSound(oracle, c, init);
    var s := Drive(c, init, g, b);
    assert DrivenBy(oracle, g, b, s);
    if c.fullSsa && |c.trackedRegs| > 0 {
      assert Symbolic(s, c.trackedRegs, b);
    } else if b > 0 {
      var p, k := FirstEdge(g, b);
      assert DrivenByEdge(oracle, g, b, p, k);
    }
  }

  // ----- when the loop stops -----

  /** Whatever was named before the last evaluation is one of the first `maxBlocks` blocks. */
  ghost predicate Within(g: Graph, maxBlocks: int) {
    && (|g.results| > 0 ==> maxBlocks > 0)
    && forall p, k :: 0 <= p < |g.results| - 1 && p < |g.arms| && 0 <= k < |g.arms[p]| ==> g.arms[p][k].to < maxBlocks
  }

  lemma {:induction false} ExploreWithin(oracle: Oracle, c: Config, init: VMState, g: Graph)
    requires Sound(g) && Within(g, c.maxBlocks)
    ensures Within(Explore(oracle, c, init, g), c.maxBlocks)
    decreases c.maxBlocks - |g.results|
  {
    hide Sound, Drive, Extend;
    if Continues(c, g) {
      var k := |g.results|;
      var r := oracle(g.vpcs[k], Drive(c, init, g, k));
      ExtendSound(g, r);
      ExtendWithin(g, r, c.maxBlocks);
      ExploreWithin(oracle, c, init, Extend(g, r));
    }
  }

  lemma ExtendWithin(g: Graph, r: SegmentResult, maxBlocks: int)
    requires Sound(g) && |g.results| < |g.vpcs| <= maxBlocks
    ensures |Extend(g, r).results| == |g.results| + 1 && Within(Extend(g, r), maxBlocks)
  {
    hide Exits, SeeAll, BornEarlier, Distinct;
    SoundSizes(g);
  }

  /** The loop ends when every block has been evaluated or when there are more than `maxBlocks`, and not
      before: as long as it went on there were at most that many. */
  lemma StopsExactly(oracle: Oracle, c: Config, init: VMState)
    ensures var g := Discover(oracle, c, init);
            && (|g.results| == |g.vpcs| || |g.vpcs| > c.maxBlocks)
            && (c.maxBlocks > 0 <==> |g.results| > 0)
            && forall p, k :: 0 <= p < |g.results| - 1 && p < |g.arms| && 0 <= k < |g.arms[p]| ==>
                 g.arms[p][k].to < c.maxBlocks
  {
    hide Sound, Answers, Drive, Extend;
    var g := Start(c);
    if c.maxBlocks > 0 {
      var r := oracle(g.vpcs[0], Drive(c, init, g, 0));
      StartSound(oracle, c, init);
      ExtendSound(g, r);
      assert |Extend(g, r).results| == 1 by { ExtendWithin(g, r, c.maxBlocks); }
      ExploreSound(oracle, c, init, Extend(g, r));
    }
    StartSound(oracle, c, init);
    DiscoverSound(oracle, c, init);
    SoundSizes(Discover(oracle, c, init));
    ExploreWithin(oracle, c, init, g);
  }

  // ----- what becomes of an answer -----

  /** Block `s` is that of `v`, and an edge into it from `b` carries `state`. */
  ghost predicate LinkedTo(g: Graph, b: nat, s: nat, v: Vpc, state: VMState) {
    s < |g.vpcs| && g.vpcs[s] == v && Incoming(b, state) in In(g, s)
  }

  /** The terminator that an answer calls for, its targets found by their VPCs. */
  ghost predicate TerminatedAs(g: Graph, b: nat, r: SegmentResult, kind: TermKind, target: Option<nat>,
                               other: Option<nat>)
  {
    match r.kind
    case Ret => kind == RETURN && target.None? && other.None?
    case Goto =>
      if r.nextVpc.Some?
      then kind == JUMP && other.None? && target.Some? && LinkedTo(g, b, target.value, r.nextVpc.value, r.outState)
      else kind == UNREACHABLE && target.None? && other.None?
    case Branch =>
      if r.vpcTaken.Some? && r.vpcNotTaken.Some?
      then && kind == CJUMP && target.Some? && other.Some?
           && LinkedTo(g, b, target.value, r.vpcTaken.value, r.outTaken)
           && LinkedTo(g, b, other.value, r.vpcNotTaken.value, r.outNotTaken)
      else kind == UNREACHABLE && target.None? && other.None?
    case Unresolved => kind == UNREACHABLE && target.None? && other.None?
  }

  /** The value that a terminator carries: a returned value, or the condition of a branch. */
  function Carried(r: SegmentResult): Option<Value> {
    if r.kind.Ret? then r.retValue
    else if r.kind.Branch? && r.vpcTaken.Some? && r.vpcNotTaken.Some? then r.condition
    else None
  }

  lemma ArmLinked(g: Graph, b: nat, k: nat)
    requires Sound(g) && b < |g.arms| && k < |g.arms[b]|
    ensures k < |Exits(g.results[b])|
    ensures var e := Exits(g.results[b])[k];
            LinkedTo(g, b, g.arms[b][k].to, e.vpc, e.state)
  {
    hide Exits, InUpTo, BornEarlier, Distinct;
    assert ArmsMatch(g, b);
    ArmRecorded(g.arms, |g.arms|, b, k);
  }

  lemma BlockTerminated(g: Graph, b: nat)
    requires Sound(g) && b < |g.results|
    ensures var t := BlockOf(g, b).term;
            TerminatedAs(g, b, g.results[b], t.kind, t.target, t.fallthrough) && t.condition == Carried(g.results[b])
    ensures BlockOf(g, b).instrs == g.results[b].instrs && BlockOf(g, b).id == b
  {
    hide InUpTo, BornEarlier, Distinct, ArmsMatch, LinkedTo;
    assert |g.arms[b]| == |Exits(g.results[b])|;
    if |g.arms[b]| > 0 { ArmLinked(g, b, 0); }
    if |g.arms[b]| > 1 { ArmLinked(g, b, 1); }
  }

  /** In the returned function every evaluated block ends as its segment says: the taken arm is the
      target, the other one the fallthrough, each with its own state on the edge; the instructions and
      the value carried are the segment's, rewritten in full-SSA mode and as they are otherwise. */
  lemma RecoveredTerminated(g: Graph, c: Config, tracked: seq<string>, base: nat, subst: Subst, b: nat)
    requires Sound(g) && b < |g.results|
    ensures b < |RecoveredBlocks(g, c, tracked, base, subst)|
    ensures var bb, r := RecoveredBlocks(g, c, tracked, base, subst)[b], g.results[b];
            && bb.id == b && TerminatedAs(g, b, r, bb.term.kind, bb.term.target, bb.term.fallthrough)
            && (bb.term.condition.Some? <==> Carried(r).Some?) && |bb.instrs| == |r.instrs|
            && (!(c.fullSsa && |c.trackedRegs| > 0) ==> bb.term.condition == Carried(r) && bb.instrs == r.instrs)
            && (forall i :: 0 <= i < |r.instrs| ==>
                  bb.instrs[i] == r.instrs[i].(operands := bb.instrs[i].operands))
  {
    hide TerminatedAs, PhisOf, BlockOf, RewritePhis, BornEarlier, Distinct, ArmsMatch;
    BlockTerminated(g, b);
    if c.FullSsa() {
      assert RecoveredBlocks(g, c, tracked, base, subst)[b] == RewriteBlock(PhiBlock(g, tracked, base, b), subst);
    }
  }

  /** What an entry symbol stands for at once: the phi of the register; else on entry to the function the
      given input, and in any other block the value on the first recorded edge; failing that, the register
      as it is on entry to the function. */
  lemma ImmediateExact(g: Graph, c: Config, init: VMState, base: nat, b: nat, r: string)
    ensures var v, phis, ins := TargetOf(g, c, init, base, b, r), PhisOf(g, c.trackedRegs, base, b), In(g, b);
            && ((exists j :: 0 <= j < |phis| && phis[j].reg == r) ==>
                  exists j :: 0 <= j < |phis| && phis[j].reg == r && v == InstrRef(phis[j].resultId))
            && ((forall j :: 0 <= j < |phis| ==> phis[j].reg != r) ==>
                  && (b == 0 ==> v == if r in init then init[r] else SymReg(r))
                  && (b > 0 ==> v == if |ins| > 0 && r in ins[0].state then ins[0].state[r] else SymReg(r)))
  {
    hide PhisOf, In;
  }

  // ----- oracles that keep to what they are given -----

  /** No entry symbol of any block. */
  ghost predicate FreeName(name: string, regs: seq<string>) {
    forall r, b: nat :: r in regs ==> name != EntrySym(r, b)
  }

  /** A value of the state that was given, a result of the segment, or a constant or free input. */
  ghost predicate Given(v: Value, r: SegmentResult, s: VMState, regs: seq<string>) {
    || (exists x :: x in s && s[x] == v)
    || (v.InstrRef? && HasId(r.instrs, v.id))
    || (!v.InstrRef? && (v.SymReg? ==> FreeName(v.name, regs)))
  }

  /** An answer that mentions only such values, passes every given register on, and whose branches
      have two targets. */
  ghost predicate KeepsTo(r: SegmentResult, s: VMState, regs: seq<string>) {
    && (forall i, k :: 0 <= i < |r.instrs| && 0 <= k < |r.instrs[i].operands| ==>
          Given(r.instrs[i].operands[k], r, s, regs))
    && (r.condition.Some? ==> Given(r.condition.value, r, s, regs))
    && (r.retValue.Some? ==> Given(r.retValue.value, r, s, regs))
    && (forall k, x :: 0 <= k < |Exits(r)| && x in Exits(r)[k].state ==> Given(Exits(r)[k].state[x], r, s, regs))
    && (forall k, x :: 0 <= k < |Exits(r)| && x in s ==> x in Exits(r)[k].state)
    && (r.kind.Branch? && r.vpcTaken.Some? ==> r.vpcTaken != r.vpcNotTaken)
  }

  /** Every answer keeps to what it is given, and different VPCs get different ids. */
  ghost predicate WellKept(oracle: Oracle, regs: seq<string>) {
    && (forall v: Vpc, s: VMState :: KeepsTo(oracle(v, s), s, regs))
    && forall v: Vpc, w: Vpc, s: VMState, t: VMState, id: nat ::
         v != w && HasId(oracle(v, s).instrs, id) ==> !HasId(oracle(w, t).instrs, id)
  }

  ghost predicate FreeInputs(c: Config, init: VMState) {
    forall r :: r in c.trackedRegs ==>
      && !Lookup(init, r).InstrRef? && FreeName(r, c.trackedRegs)
      && (Lookup(init, r).SymReg? ==> FreeName(Lookup(init, r).name, c.trackedRegs))
  }

  lemma GivenMine(g: Graph, regs: seq<string>, b: nat, s: VMState, v: Value)
    requires b < |g.results| && Symbolic(s, regs, b) && Given(v, g.results[b], s, regs)
    ensures Mine(g, regs, b, v)
  {
    hide EntrySym, HasId;
  }

  lemma KeptSegment(g: Graph, regs: seq<string>, b: nat, s: VMState)
    requires Sound(g) && b < |g.results| && Symbolic(s, regs, b) && KeepsTo(g.results[b], s, regs)
    ensures SegmentOwned(g, regs, b) && SegmentComplete(g, regs, b) && ArmsApart(g, b)
  {
    hide Mine, Given, Exits, BornEarlier;
    var r := g.results[b];
    assert ArmsMatch(g, b);
    forall v | Given(v, r, s, regs) ensures Mine(g, regs, b, v) { GivenMine(g, regs, b, s, v); }
    BranchApart(r, s, regs);
  }

  lemma BranchApart(r: SegmentResult, s: VMState, regs: seq<string>)
    requires KeepsTo(r, s, regs)
    ensures forall k, l :: 0 <= k < l < |Exits(r)| ==> Exits(r)[k].vpc != Exits(r)[l].vpc
  {
    hide Given;
  }

  /** The symbol of the driving state pins down the block: in full-SSA mode the graph that is discovered
      through such an oracle satisfies every hypothesis of the full-SSA theorems. */
  lemma DiscoveredHygienic(oracle: Oracle, c: Config, init: VMState)
    requires c.fullSsa && |c.trackedRegs| > 0 && WellKept(oracle, c.trackedRegs) && FreeInputs(c, init)
    ensures var g := Discover(oracle, c, init);
            Sound(g) && Hygienic(g, c, init) && StatesOwned(g, c, init)
  {
    hide Discover, Sound, SegmentOwned, SegmentComplete, ArmsApart, KeepsTo, Symbolic, FreeName, EntrySym, HasId,
         Continues, IsEntry, StatesOwned;
    var g := Discover(oracle, c, init);
    DiscoverSound(oracle, c, init);
    SoundSizes(g);
    forall b | 0 <= b < |g.arms|
      ensures SegmentOwned(g, c.trackedRegs, b) && SegmentComplete(g, c.trackedRegs, b) && ArmsApart(g, b)
    {
      DrivenExactly(oracle, c, init, b);
      var s: VMState :| Symbolic(s, c.trackedRegs, b) && DrivenBy(oracle, g, b, s);
      KeptSegment(g, c.trackedRegs, b, s);
    }
    IdsKeptApart(oracle, c, init);
    InputsKeptFree(g, c, init);
    HygienicStates(g, c, init);
  }

  lemma FullMode(c: Config)
    ensures c.FullSsa() <==> c.fullSsa && |c.trackedRegs| > 0
  {}

  lemma IdsKeptApart(oracle: Oracle, c: Config, init: VMState)
    requires WellKept(oracle, c.trackedRegs)
    ensures IdsApart(Discover(oracle, c, init))
  {
    hide Discover, HasId, KeepsTo, ArmsMatch, BornEarlier, Drive, Continues;
    var g := Discover(oracle, c, init);
    DiscoverSound(oracle, c, init);
    forall b, d, id | 0 <= b < d < |g.results| && HasId(g.results[b].instrs, id)
      ensures !HasId(g.results[d].instrs, id)
    {
      assert g.vpcs[b] != g.vpcs[d];
    }
  }

  lemma InputsKeptFree(g: Graph, c: Config, init: VMState)
    requires FreeInputs(c, init)
    ensures InputsFree(g, c, init)
  {
    hide EntrySym;
  }
}
