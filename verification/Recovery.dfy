/** Worklist-driven multi-path CFG recovery: what the discovery loop builds, for an arbitrary
    segment oracle.

    Blocks get their ids in the order in which their VPCs are first seen, and are evaluated in
    that same order, so a discovery is the sequence of VPCs seen so far together with the
    results of the first few of them. */
module Recovery {
  import opened Ir
  import opened Cfg
  import opened Names

  datatype Vpc = Vpc(addr: Word)

  /** Register state at a block boundary. */
  type VMState = map<string, Value>

  datatype SegmentKind = Ret | Goto | Branch | Unresolved

  /** Result of evaluating one straight-line segment. */
  datatype SegmentResult = SegmentResult(
    kind: SegmentKind, instrs: Trace,
    retValue: Option<Value>,
    nextVpc: Option<Vpc>, outState: VMState,
    condition: Option<Value>, vpcTaken: Option<Vpc>, vpcNotTaken: Option<Vpc>,
    outTaken: VMState, outNotTaken: VMState)

  type Oracle = (Vpc, VMState) -> SegmentResult

  datatype Config = Config(entryVpc: Vpc, maxBlocks: int, trackedRegs: seq<string>, fullSsa: bool) {
    predicate FullSsa() { fullSsa && |trackedRegs| > 0 }
  }

  /** A successor as the oracle names it. */
  datatype Exit = Exit(vpc: Vpc, state: VMState)

  function Exits(r: SegmentResult): seq<Exit> {
    if r.kind.Goto? && r.nextVpc.Some? then [Exit(r.nextVpc.value, r.outState)]
    else if r.kind.Branch? && r.vpcTaken.Some? && r.vpcNotTaken.Some? then
      [Exit(r.vpcTaken.value, r.outTaken), Exit(r.vpcNotTaken.value, r.outNotTaken)]
    else []
  }

  /** A successor by block id, with the state that flows along the edge. */
  datatype Arm = Arm(to: nat, state: VMState)

  /** `vpcs[i]` is the VPC of block `i`; the first |results| blocks have been evaluated. */
  datatype Graph = Graph(vpcs: seq<Vpc>, results: seq<SegmentResult>, arms: seq<seq<Arm>>)

  // ----- discovery -----

  function IndexIn(vpcs: seq<Vpc>, v: Vpc): (i: nat)
    requires v in vpcs
    ensures i < |vpcs| && vpcs[i] == v
  {
    if vpcs[0] == v then 0 else 1 + IndexIn(vpcs[1..], v)
  }

  function See(vpcs: seq<Vpc>, v: Vpc): seq<Vpc> { if v in vpcs then vpcs else vpcs + [v] }

  function SeeAll(vpcs: seq<Vpc>, exits: seq<Exit>): (r: seq<Vpc>)
    ensures |vpcs| <= |r| <= |vpcs| + |exits| && r[..|vpcs|] == vpcs
    ensures forall k :: 0 <= k < |exits| ==> exits[k].vpc in r
  {
    if |exits| == 0 then vpcs
    else
      var n := |exits| - 1;
      assert forall k :: 0 <= k < n ==> exits[..n][k] == exits[k];
      See(SeeAll(vpcs, exits[..n]), exits[n].vpc)
  }

  /** A VPC that was not there before is one of the exits. */
  lemma {:induction false} SeenFrom(vpcs: seq<Vpc>, exits: seq<Exit>, s: nat) returns (k: nat)
    requires |vpcs| <= s < |SeeAll(vpcs, exits)|
    ensures k < |exits| && exits[k].vpc == SeeAll(vpcs, exits)[s]
  {
    var n := |exits| - 1;
    if s < |SeeAll(vpcs, exits[..n])| {
      k := SeenFrom(vpcs, exits[..n], s);
    } else {
      k := n;
    }
  }

  function ArmsTo(vpcs: seq<Vpc>, exits: seq<Exit>): (r: seq<Arm>)
    requires forall k :: 0 <= k < |exits| ==> exits[k].vpc in vpcs
    ensures |r| == |exits|
  {
    seq(|exits|, k requires 0 <= k < |exits| => Arm(IndexIn(vpcs, exits[k].vpc), exits[k].state))
  }

  function Extend(g: Graph, r: SegmentResult): Graph {
    var vpcs := SeeAll(g.vpcs, Exits(r));
    Graph(vpcs, g.results + [r], g.arms + [ArmsTo(vpcs, Exits(r))])
  }

  // ----- incoming edges -----

  /** One recorded predecessor edge, with the register state that flowed across it. */
  datatype Incoming = Incoming(pred: nat, state: VMState)

  /** The arms of one block that lead to `s`. */
  function Into(arms: seq<Arm>, pred: nat, s: nat): seq<Incoming> {
    if |arms| == 0 then []
    else
      var a := arms[|arms| - 1];
      Into(arms[..|arms| - 1], pred, s) + if a.to == s then [Incoming(pred, a.state)] else []
  }

  /** The edges into `s` from the first `n` blocks, in the order they were added. */
  function InUpTo(arms: seq<seq<Arm>>, n: nat, s: nat): seq<Incoming>
    requires n <= |arms|
  {
    if n == 0 then [] else InUpTo(arms, n - 1, s) + Into(arms[n - 1], n - 1, s)
  }

  function In(g: Graph, s: nat): seq<Incoming> { InUpTo(g.arms, |g.arms|, s) }

  // ----- driving the oracle -----

  /** Full-SSA mode: every tracked register starts as its own symbol. */
  function EntryState(regs: seq<string>, b: nat): VMState {
    map r | r in regs :: SymReg(EntrySym(r, b))
  }

  /** The state in which block `b` is evaluated. */
  function Drive(c: Config, init: VMState, g: Graph, b: nat): VMState {
    if c.FullSsa() then EntryState(c.trackedRegs, b)
    else if b == 0 then init
    else if |In(g, b)| > 0 then In(g, b)[0].state
    else map[]
  }

  function Start(c: Config): Graph { Graph([c.entryVpc], [], []) }

  predicate Continues(c: Config, g: Graph) { |g.results| < |g.vpcs| <= c.maxBlocks }

  /** The discovery loop. */
  function Explore(oracle: Oracle, c: Config, init: VMState, g: Graph): Graph
    decreases c.maxBlocks - |g.results|
  {
    if Continues(c, g) then
      var k := |g.results|;
      Explore(oracle, c, init, Extend(g, oracle(g.vpcs[k], Drive(c, init, g, k))))
    else g
  }

  // ----- what every discovery satisfies -----

  ghost predicate Distinct(vpcs: seq<Vpc>) { forall i, j :: 0 <= i < j < |vpcs| ==> vpcs[i] != vpcs[j] }

  /** The arms of block `i` lead to the blocks of the VPCs that its result names. */
  ghost predicate ArmsMatch(g: Graph, i: nat)
    requires i < |g.arms| && i < |g.results|
  {
    var exits := Exits(g.results[i]);
    && |g.arms[i]| == |exits|
    && forall k :: 0 <= k < |exits| ==>
         && g.arms[i][k].to < |g.vpcs|
         && g.vpcs[g.arms[i][k].to] == exits[k].vpc
         && g.arms[i][k].state == exits[k].state
  }

  /** The first recorded edge into `s` comes from a block with a smaller id. */
  ghost predicate BornEarlier(g: Graph, s: nat) {
    |In(g, s)| > 0 && In(g, s)[0].pred < s && In(g, s)[0].pred < |g.arms|
  }

  /** One list of arms per result, one arm per exit. */
  ghost predicate Shaped(g: Graph) {
    |g.arms| == |g.results| && forall k :: 0 <= k < |g.arms| ==> |g.arms[k]| == |Exits(g.results[k])|
  }

  ghost predicate Sound(g: Graph) {
    && 0 < |g.vpcs| && Shaped(g) && |g.results| <= |g.vpcs|
    && Distinct(g.vpcs)
    && (forall i :: 0 <= i < |g.arms| ==> ArmsMatch(g, i))
    && (forall s :: 0 < s < |g.vpcs| ==> BornEarlier(g, s))
  }

  lemma {:induction false} SeeAllDistinct(vpcs: seq<Vpc>, exits: seq<Exit>)
    requires Distinct(vpcs)
    ensures Distinct(SeeAll(vpcs, exits))
  {
    if |exits| > 0 { SeeAllDistinct(vpcs, exits[..|exits| - 1]); }
  }

  lemma {:induction false} InExtended(arms: seq<seq<Arm>>, more: seq<seq<Arm>>, n: nat, s: nat)
    requires n <= |arms|
    ensures InUpTo(arms + more, n, s) == InUpTo(arms, n, s)
  {
    if n > 0 { InExtended(arms, more, n - 1, s); }
  }

  lemma InExtend(g: Graph, r: SegmentResult, s: nat)
    ensures var h := Extend(g, r);
            In(h, s) == In(g, s) + Into(h.arms[|g.arms|], |g.arms|, s)
  {
    var h := Extend(g, r);
    InExtended(g.arms, [h.arms[|g.arms|]], |g.arms|, s);
  }

  lemma {:induction false} IntoHas(arms: seq<Arm>, pred: nat, s: nat, k: nat)
    requires k < |arms| && arms[k].to == s
    ensures |Into(arms, pred, s)| > 0
  {
    var n := |arms| - 1;
    if k < n { IntoHas(arms[..n], pred, s, k); }
  }

  lemma {:induction false} IntoFrom(arms: seq<Arm>, pred: nat, s: nat)
    ensures forall i :: 0 <= i < |Into(arms, pred, s)| ==> Into(arms, pred, s)[i].pred == pred
  {
    if |arms| > 0 { IntoFrom(arms[..|arms| - 1], pred, s); }
  }

  lemma ExtendArms(g: Graph, r: SegmentResult, i: nat)
    requires Sound(g) && |g.results| < |g.vpcs| && i <= |g.arms|
    ensures ArmsMatch(Extend(g, r), i)
  {
    var h := Extend(g, r);
    if i < |g.arms| {
      assert ArmsMatch(g, i);
      assert h.arms[i] == g.arms[i] && h.results[i] == g.results[i];
      assert forall k :: 0 <= k < |g.vpcs| ==> h.vpcs[k] == h.vpcs[..|g.vpcs|][k] == g.vpcs[k];
    } else {
      var exits := Exits(r);
      assert h.results[i] == r && h.arms[i] == ArmsTo(h.vpcs, exits);
    }
  }

  lemma ExtendBorn(g: Graph, r: SegmentResult, s: nat)
    requires Sound(g) && |g.results| < |g.vpcs| && 0 < s < |Extend(g, r).vpcs|
    ensures BornEarlier(Extend(g, r), s)
  {
    hide ArmsMatch, Exits, ArmsTo, SeeAll;
    var h := Extend(g, r);
    var n := |g.arms|;
    InExtend(g, r, s);
    IntoFrom(h.arms[n], n, s);
    InPreds(g.arms, n, s);
    assert |h.arms| == n + 1;
    if s < |g.vpcs| {
      assert BornEarlier(g, s);
    } else {
      NewlySeen(g, r, s);
    }
  }

  lemma ExtendShaped(g: Graph, r: SegmentResult)
    requires Shaped(g)
    ensures Shaped(Extend(g, r))
  {
    hide Exits;
  }

  lemma ExtendSound(g: Graph, r: SegmentResult)
    requires Sound(g) && |g.results| < |g.vpcs|
    ensures Sound(Extend(g, r))
  {
    hide ArmsMatch, BornEarlier, Distinct;
    SeeAllDistinct(g.vpcs, Exits(r));
    ExtendShaped(g, r);
    forall i | 0 <= i < |Extend(g, r).arms| ensures ArmsMatch(Extend(g, r), i) { ExtendArms(g, r, i); }
    forall s | 0 < s < |Extend(g, r).vpcs| ensures BornEarlier(Extend(g, r), s) { ExtendBorn(g, r, s); }
  }

  /** A VPC seen for the first time is an exit of the block just evaluated. */
  lemma NewlySeen(g: Graph, r: SegmentResult, s: nat)
    requires Sound(g) && |g.vpcs| <= s < |Extend(g, r).vpcs|
    ensures |Into(Extend(g, r).arms[|g.arms|], |g.arms|, s)| > 0
  {
    hide SeeAll, Exits, ArmsMatch, BornEarlier;
    var h := Extend(g, r);
    var exits := Exits(r);
    SeeAllDistinct(g.vpcs, exits);
    var k := SeenFrom(g.vpcs, exits, s);
    assert h.arms[|g.arms|][k].to == IndexIn(h.vpcs, exits[k].vpc) == s;
    IntoHas(h.arms[|g.arms|], |g.arms|, s, k);
  }

  lemma {:induction false} InPreds(arms: seq<seq<Arm>>, n: nat, s: nat)
    requires n <= |arms|
    ensures forall i :: 0 <= i < |InUpTo(arms, n, s)| ==> InUpTo(arms, n, s)[i].pred < n
  {
    if n > 0 {
      InPreds(arms, n - 1, s);
      IntoFrom(arms[n - 1], n - 1, s);
    }
  }

  /** Block results come from the oracle, each VPC being asked exactly once, in its drive state. */
  ghost predicate Answers(oracle: Oracle, c: Config, init: VMState, g: Graph) {
    |g.results| <= |g.vpcs|
    && forall b :: 0 <= b < |g.results| ==> g.results[b] == oracle(g.vpcs[b], Drive(c, init, g, b))
  }

  /** The state that drives a block is settled before the block is reached. */
  lemma DriveSettled(c: Config, init: VMState, g: Graph, r: SegmentResult, b: nat)
    requires Sound(g) && b <= |g.results| < |g.vpcs|
    ensures Drive(c, init, Extend(g, r), b) == Drive(c, init, g, b)
  {
    hide EntryState, ArmsMatch, Distinct;
    InExtend(g, r, b);
    if b > 0 { assert BornEarlier(g, b); }
  }

  lemma ExtendAnswers(oracle: Oracle, c: Config, init: VMState, g: Graph)
    requires Sound(g) && Answers(oracle, c, init, g) && |g.results| < |g.vpcs|
    ensures Answers(oracle, c, init, Extend(g, oracle(g.vpcs[|g.results|], Drive(c, init, g, |g.results|))))
  {
    hide Drive;
    var k := |g.results|;
    var r := oracle(g.vpcs[k], Drive(c, init, g, k));
    var h := Extend(g, r);
    forall b | 0 <= b < |h.results| ensures h.results[b] == oracle(h.vpcs[b], Drive(c, init, h, b)) {
      DriveSettled(c, init, g, r, b);
      assert h.vpcs[b] == h.vpcs[..|g.vpcs|][b];
    }
  }

  /** Discovery preserves soundness and never forgets. */
  lemma {:induction false} ExploreSound(oracle: Oracle, c: Config, init: VMState, g: Graph)
    requires Sound(g)
    ensures var h := Explore(oracle, c, init, g);
            && Sound(h) && !Continues(c, h)
            && |g.vpcs| <= |h.vpcs| && h.vpcs[..|g.vpcs|] == g.vpcs
            && |g.results| <= |h.results|
    decreases c.maxBlocks - |g.results|
  {
    hide Sound, Drive;
    if Continues(c, g) {
      var k := |g.results|;
      var r := oracle(g.vpcs[k], Drive(c, init, g, k));
      ExtendSound(g, r);
      ExploreSound(oracle, c, init, Extend(g, r));
      assert Extend(g, r).vpcs[..|g.vpcs|] == g.vpcs;
    }
  }

  lemma {:induction false} ExploreAnswers(oracle: Oracle, c: Config, init: VMState, g: Graph)
    requires Sound(g) && Answers(oracle, c, init, g)
    ensures Answers(oracle, c, init, Explore(oracle, c, init, g))
    decreases c.maxBlocks - |g.results|
  {
    hide Sound, Drive, Answers;
    if Continues(c, g) {
      var k := |g.results|;
      var r := oracle(g.vpcs[k], Drive(c, init, g, k));
      ExtendSound(g, r);
      ExtendAnswers(oracle, c, init, g);
      ExploreAnswers(oracle, c, init, Extend(g, r));
    }
  }

  /** At most `maxBlocks` oracle calls, and at most two blocks more than that. */
  lemma {:induction false} ExploreBounded(oracle: Oracle, c: Config, init: VMState, g: Graph)
    requires Sound(g) && |g.results| <= (if c.maxBlocks > 0 then c.maxBlocks else 0)
    requires |g.vpcs| <= (if c.maxBlocks > 0 then c.maxBlocks + 2 else 1)
    ensures var h := Explore(oracle, c, init, g);
            && |h.results| <= (if c.maxBlocks > 0 then c.maxBlocks else 0)
            && |h.vpcs| <= (if c.maxBlocks > 0 then c.maxBlocks + 2 else 1)
    decreases c.maxBlocks - |g.results|
  {
    hide Sound, Drive;
    if Continues(c, g) {
      var k := |g.results|;
      var r := oracle(g.vpcs[k], Drive(c, init, g, k));
      ExtendSound(g, r);
      assert |Exits(r)| <= 2;
      ExploreBounded(oracle, c, init, Extend(g, r));
    }
  }

  lemma StartSound(oracle: Oracle, c: Config, init: VMState)
    ensures Sound(Start(c)) && Answers(oracle, c, init, Start(c))
  {}

  /** The graph that recovery discovers. */
  function Discover(oracle: Oracle, c: Config, init: VMState): Graph { Explore(oracle, c, init, Start(c)) }

  /** For every oracle: ids are dense and injective on VPCs, each VPC is evaluated at most once,
      in its own drive state, and the loop makes at most `maxBlocks` calls. */
  lemma DiscoverSound(oracle: Oracle, c: Config, init: VMState)
    ensures var g := Discover(oracle, c, init);
            && Sound(g) && Answers(oracle, c, init, g) && g.vpcs[0] == c.entryVpc
            && !Continues(c, g)
            && |g.results| <= (if c.maxBlocks > 0 then c.maxBlocks else 0)
            && |g.vpcs| <= (if c.maxBlocks > 0 then c.maxBlocks + 2 else 1)
  {
    hide Sound, Answers;
    StartSound(oracle, c, init);
    ExploreSound(oracle, c, init, Start(c));
    ExploreAnswers(oracle, c, init, Start(c));
    ExploreBounded(oracle, c, init, Start(c));
    assert Discover(oracle, c, init).vpcs[..1][0] == c.entryVpc;
  }

  // ----- blocks and edges -----

  /** The block that exit `k` leads to. */
  function Target(arms: seq<Arm>, k: nat): nat { if k < |arms| then arms[k].to else 0 }

  function TermOf(r: SegmentResult, arms: seq<Arm>): Terminator {
    match r.kind
    case Ret => Terminator(RETURN, None, None, r.retValue)
    case Goto => if r.nextVpc.Some? then Terminator(JUMP, Some(Target(arms, 0)), None, None) else NO_TERMINATOR
    case Branch =>
      if r.vpcTaken.Some? && r.vpcNotTaken.Some? then
        Terminator(CJUMP, Some(Target(arms, 0)), Some(Target(arms, 1)), r.condition)
      else NO_TERMINATOR
    case Unresolved => NO_TERMINATOR
  }

  /** Block `i` before phi construction; a block that was never evaluated stays empty. */
  function BlockOf(g: Graph, i: nat): BasicBlock {
    if i < |g.results| && i < |g.arms| then BasicBlock(i, [], g.results[i].instrs, TermOf(g.results[i], g.arms[i]))
    else BasicBlock(i, [], [], NO_TERMINATOR)
  }

  function BlocksOf(g: Graph): seq<BasicBlock> {
    seq(|g.vpcs|, i requires 0 <= i < |g.vpcs| => BlockOf(g, i))
  }

  function EdgesFrom(i: nat, arms: seq<Arm>): (r: seq<Edge>)
    ensures |r| == |arms|
  {
    seq(|arms|, k requires 0 <= k < |arms| => Edge(i, arms[k].to, arms[k].to <= i))
  }

  /** The edges of the first `n` blocks. An edge goes backwards when its target had been
      processed before, that is, when the target does not come after the source. */
  function EdgesUpTo(arms: seq<seq<Arm>>, n: nat): seq<Edge>
    requires n <= |arms|
  {
    if n == 0 then [] else EdgesUpTo(arms, n - 1) + EdgesFrom(n - 1, arms[n - 1])
  }

  function EdgesOf(g: Graph): seq<Edge> { EdgesUpTo(g.arms, |g.arms|) }

  lemma {:induction false} EdgesExtended(arms: seq<seq<Arm>>, more: seq<seq<Arm>>, n: nat)
    requires n <= |arms|
    ensures EdgesUpTo(arms + more, n) == EdgesUpTo(arms, n)
  {
    if n > 0 { EdgesExtended(arms, more, n - 1); }
  }

  /** What evaluating one more block adds to the graph. */
  lemma ExtendAdds(g: Graph, r: SegmentResult)
    requires Sound(g) && |g.results| < |g.vpcs|
    ensures var h, k := Extend(g, r), |g.results|;
            && Sound(h)
            && EdgesOf(h) == EdgesOf(g) + EdgesFrom(k, h.arms[k])
            && |BlocksOf(h)| == |h.vpcs|
            && BlocksOf(h)[k] == BlockOf(h, k)
            && (forall i :: 0 <= i < |g.vpcs| && i != k ==> BlocksOf(h)[i] == BlocksOf(g)[i])
            && (forall i :: |g.vpcs| <= i < |h.vpcs| ==> BlocksOf(h)[i] == BasicBlock(i, [], [], NO_TERMINATOR))
  {
    hide Exits, TermOf, Distinct, ArmsMatch, BornEarlier, SeeAll;
    ExtendSound(g, r);
    EdgesExtended(g.arms, [Extend(g, r).arms[|g.arms|]], |g.arms|);
  }
}
