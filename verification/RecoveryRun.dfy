/** The discovery loop of `CFGRecovery::recover` over its worklist, its maps and the growing
    graph, proved to build exactly the discovered graph. */
module RecoveryRun {
  import opened Ir
  import opened Cfg
  import opened Names
  import opened Recovery

  // ----- the loop's tables, as functions of the VPCs seen so far -----

  function SetOf(vpcs: seq<Vpc>): set<Vpc> { set v | v in vpcs }

  /** VPC to block id. */
  function IndexTable(vpcs: seq<Vpc>): map<Vpc, nat> {
    if |vpcs| == 0 then map[] else IndexTable(vpcs[..|vpcs| - 1])[vpcs[|vpcs| - 1] := |vpcs| - 1]
  }

  function InOf(incoming: map<nat, seq<Incoming>>, s: nat): seq<Incoming> {
    if s in incoming then incoming[s] else []
  }

  ghost predicate Received(incoming: map<nat, seq<Incoming>>, g: Graph) {
    forall s :: InOf(incoming, s) == In(g, s)
  }

  /** The blocks when the VPCs `vpcs` are known: those of `g`, and empty ones after them. */
  function GrownBlocks(g: Graph, vpcs: seq<Vpc>): seq<BasicBlock> {
    seq(|vpcs|, i requires 0 <= i < |vpcs| =>
      if i < |g.vpcs| then BlockOf(g, i) else BasicBlock(i, [], [], NO_TERMINATOR))
  }

  lemma {:induction false} IndexTableFacts(vpcs: seq<Vpc>)
    requires Distinct(vpcs)
    ensures forall v :: v in IndexTable(vpcs) <==> v in vpcs
    ensures forall i :: 0 <= i < |vpcs| ==> IndexTable(vpcs)[vpcs[i]] == i
  {
    if |vpcs| > 0 {
      var n := |vpcs| - 1;
      IndexTableFacts(vpcs[..n]);
      assert vpcs == vpcs[..n] + [vpcs[n]];
      forall i | 0 <= i < n ensures IndexTable(vpcs)[vpcs[i]] == i {
        assert vpcs[..n][i] == vpcs[i];
      }
    }
  }

  /** Seeing one VPC: the table, ... */
  lemma SeeTable(vpcs: seq<Vpc>, v: Vpc)
    requires Distinct(vpcs)
    ensures Distinct(See(vpcs, v))
    ensures IndexTable(See(vpcs, v)) == if v in vpcs then IndexTable(vpcs) else IndexTable(vpcs)[v := |vpcs|]
    ensures v in IndexTable(vpcs) <==> v in vpcs
    ensures v in vpcs ==> IndexTable(vpcs)[v] < |vpcs| && vpcs[IndexTable(vpcs)[v]] == v
  {
    hide IndexTable;
    IndexTableFacts(vpcs);
    IndexTableAppend(vpcs, v);
  }

  lemma IndexTableAppend(vpcs: seq<Vpc>, v: Vpc)
    ensures IndexTable(vpcs + [v]) == IndexTable(vpcs)[v := |vpcs|]
  {
    assert (vpcs + [v])[..|vpcs|] == vpcs;
  }

  /** ... the sequence and its set, ... */
  lemma SeeSeq(vpcs: seq<Vpc>, v: Vpc, n: nat)
    requires n <= |vpcs|
    ensures v in vpcs <==> v in SetOf(vpcs)
    ensures v in vpcs ==> See(vpcs, v) == vpcs
    ensures See(vpcs, v)[n..] == vpcs[n..] + if v in vpcs then [] else [v]
    ensures |See(vpcs, v)| == |vpcs| + if v in vpcs then 0 else 1
    ensures v !in vpcs ==> See(vpcs, v)[|vpcs|] == v
  {}

  lemma SeeSet(vpcs: seq<Vpc>, v: Vpc)
    ensures SetOf(See(vpcs, v)) == SetOf(vpcs) + {v}
  {}

  /** ... and the blocks. */
  lemma SeeBlocks(g: Graph, vpcs: seq<Vpc>, v: Vpc)
    requires |g.vpcs| <= |vpcs|
    ensures GrownBlocks(g, See(vpcs, v))
         == GrownBlocks(g, vpcs) + if v in vpcs then [] else [BasicBlock(|vpcs|, [], [], NO_TERMINATOR)]
    ensures |GrownBlocks(g, vpcs)| == |vpcs|
  {
    hide BlockOf;
  }

  lemma SeeFacts(g: Graph, vpcs: seq<Vpc>, v: Vpc, n: nat)
    requires Distinct(vpcs) && n <= |vpcs| && |g.vpcs| <= |vpcs|
    ensures Distinct(See(vpcs, v))
    ensures v in IndexTable(vpcs) <==> v in vpcs
    ensures v in SetOf(vpcs) <==> v in vpcs
    ensures v in vpcs ==> See(vpcs, v) == vpcs && IndexTable(vpcs)[v] < |vpcs| && vpcs[IndexTable(vpcs)[v]] == v
    ensures v !in vpcs ==>
              && |See(vpcs, v)| == |vpcs| + 1 && See(vpcs, v)[|vpcs|] == v
              && IndexTable(See(vpcs, v)) == IndexTable(vpcs)[v := |vpcs|]
              && GrownBlocks(g, See(vpcs, v)) == GrownBlocks(g, vpcs) + [BasicBlock(|vpcs|, [], [], NO_TERMINATOR)]
    ensures See(vpcs, v)[n..] == vpcs[n..] + if v in vpcs then [] else [v]
    ensures SetOf(See(vpcs, v)) == SetOf(vpcs) + {v}
    ensures |GrownBlocks(g, vpcs)| == |vpcs| <= |See(vpcs, v)|
  {
    hide See, SetOf, IndexTable, GrownBlocks, Distinct;
    SeeTable(vpcs, v);
    SeeSeq(vpcs, v, n);
    SeeSet(vpcs, v);
    SeeBlocks(g, vpcs, v);
  }

  lemma ReceivedPush(incoming: map<nat, seq<Incoming>>, s: nat, p: Incoming)
    ensures forall t :: InOf(incoming[s := InOf(incoming, s) + [p]], t)
                     == InOf(incoming, t) + if t == s then [p] else []
  {}

  // ----- the loop -----

  class Worklist {
    const cfg: CFGFunction
    var vpcToBlock: map<Vpc, nat>
    var incoming: map<nat, seq<Incoming>>
    var worklist: seq<Vpc>
    var enqueued: set<Vpc>
    var processed: set<Vpc>

    /** The VPCs `vpcs` are known, the first `n` have been taken off the worklist, and blocks,
        edges and incoming lists are those of `g` and `h`. */
    ghost predicate Holds(g: Graph, vpcs: seq<Vpc>, n: nat, edges: seq<Edge>, h: Graph)
      reads this, cfg, cfg`blocks
    {
      && cfg.Valid() && cfg.entryBlock == 0 && n <= |vpcs|
      && cfg.blocks == GrownBlocks(g, vpcs) && cfg.edges == edges
      && vpcToBlock == IndexTable(vpcs)
      && worklist == vpcs[n..] && enqueued == SetOf(vpcs) && processed == SetOf(vpcs[..n])
      && Received(incoming, h)
    }

    /** Between iterations everything is that of `g`. */
    ghost predicate Represents(g: Graph)
      reads this, cfg
    {
      Sound(g) && Holds(g, g.vpcs, |g.results|, EdgesOf(g), g)
    }

    constructor (c: Config)
      ensures fresh(cfg) && Represents(Start(c))
    {
      var f := new CFGFunction();
      cfg := f;
      vpcToBlock, incoming := map[], map[];
      worklist, enqueued, processed := [], {}, {};
      new;
      SeeFacts(Graph([], [], []), [], c.entryVpc, 0);
      var entry := GetBlock(c.entryVpc);
      cfg.entryBlock := entry;
      worklist := [c.entryVpc];
      enqueued := {c.entryVpc};
    }

    /** The block of a VPC, created if need be. */
    method GetBlock(vpc: Vpc) returns (id: nat)
      requires cfg.Valid()
      modifies this`vpcToBlock, cfg`blocks, cfg`nextBlockId
      ensures cfg.Valid()
      ensures vpc in old(vpcToBlock) ==>
                id == old(vpcToBlock)[vpc] && vpcToBlock == old(vpcToBlock) && cfg.blocks == old(cfg.blocks)
      ensures vpc !in old(vpcToBlock) ==>
                && id == |old(cfg.blocks)| && vpcToBlock == old(vpcToBlock)[vpc := id]
                && cfg.blocks == old(cfg.blocks) + [BasicBlock(id, [], [], NO_TERMINATOR)]
    {
      if vpc in vpcToBlock { return vpcToBlock[vpc]; }
      id := cfg.AddBlock();
      vpcToBlock := vpcToBlock[vpc := id];
    }

    method Enqueue(vpc: Vpc)
      modifies this`worklist, this`enqueued
      ensures enqueued == old(enqueued) + {vpc}
      ensures worklist == old(worklist) + if vpc in old(enqueued) then [] else [vpc]
    {
      if vpc !in enqueued {
        enqueued := enqueued + {vpc};
        worklist := worklist + [vpc];
      }
    }

    method PushIncoming(s: nat, pred: nat, state: VMState)
      modifies this`incoming
      ensures forall t :: InOf(incoming, t) == InOf(old(incoming), t) + if t == s then [Incoming(pred, state)] else []
    {
      ReceivedPush(incoming, s, Incoming(pred, state));
      incoming := incoming[s := InOf(incoming, s) + [Incoming(pred, state)]];
    }

    /** The state that drives a block, looked up as the source does. */
    method DriveState(c: Config, init: VMState, bid: nat, ghost g: Graph) returns (drive: VMState)
      requires Shaped(g) && bid == |g.results| && Received(incoming, g)
      ensures drive == Drive(c, init, g, bid)
    {
      if c.fullSsa && |c.trackedRegs| > 0 {
        drive := map[];
        for i := 0 to |c.trackedRegs|
          invariant drive == EntryState(c.trackedRegs[..i], bid)
        {
          var r := c.trackedRegs[i];
          assert forall x :: x in c.trackedRegs[..i + 1] <==> x in c.trackedRegs[..i] || x == r;
          drive := drive[r := SymReg(EntrySym(r, bid))];
        }
        assert c.trackedRegs[..|c.trackedRegs|] == c.trackedRegs;
      } else if |InOf(incoming, bid)| > 0 {
        drive := incoming[bid][0].state;
      } else if bid == 0 {
        drive := init;
      } else {
        drive := map[];
      }
    }

    /** `goto`: one successor. */
    method FollowGoto(res: SegmentResult, bid: nat, ghost g: Graph) returns (s: nat)
      requires Sound(g) && bid == |g.results| < |g.vpcs| && Holds(g, g.vpcs, bid + 1, EdgesOf(g), g)
      requires res.kind.Goto? && res.nextVpc.Some?
      modifies this, cfg
      ensures var h := Extend(g, res);
              && Holds(g, h.vpcs, bid + 1, EdgesOf(h), h) && s == Target(h.arms[bid], 0)
    {
      hide EdgesOf, In, BlockOf, Sound, Distinct, See, GrownBlocks, IndexTable, SetOf, Extend, Received;
      var next := res.nextVpc.value;
      var back := next in processed;
      SoundFacts(g);
      SeeFacts(g, g.vpcs, next, bid + 1);
      s := GetBlock(next);
      OneExit(g, res, s);
      OldTarget(g.vpcs, next, bid + 1, s);
      cfg.AddEdge(bid, s, back);
      ghost var before := incoming;
      PushIncoming(s, bid, res.outState);
      ReceivedGoto(g, res, s, before, incoming);
      Enqueue(next);
      SeePrefix(g.vpcs, next, bid + 1);
    }

    /** A branch: both successors, in the order of the source. */
    method FollowBranch(res: SegmentResult, bid: nat, ghost g: Graph) returns (t: nat, f: nat)
      requires Sound(g) && bid == |g.results| < |g.vpcs| && Holds(g, g.vpcs, bid + 1, EdgesOf(g), g)
      requires res.kind.Branch? && res.vpcTaken.Some? && res.vpcNotTaken.Some?
      modifies this, cfg
      ensures var h := Extend(g, res);
              && Holds(g, h.vpcs, bid + 1, EdgesOf(h), h) && t == Target(h.arms[bid], 0) && f == Target(h.arms[bid], 1)
    {
      hide EdgesOf, In, BlockOf, Sound, Distinct, See, GrownBlocks, IndexTable, SetOf, Extend, Received;
      var taken, notTaken := res.vpcTaken.value, res.vpcNotTaken.value;
      var tback := taken in processed;
      var fback := notTaken in processed;
      SoundFacts(g);
      ghost var before := incoming;
      t, f := GetBothBlocks(taken, notTaken, bid + 1, g);
      TwoExits(g, res, t, f);
      LinkBranch(res, bid, t, f, tback, fback);
      ReceivedBranch(g, res, t, f, before, incoming);
      BothSeen(g, taken, notTaken, bid + 1);
    }

    /** Edges, incoming states and queue entries of the two arms. */
    method LinkBranch(res: SegmentResult, bid: nat, t: nat, f: nat, tback: bool, fback: bool)
      requires res.kind.Branch? && res.vpcTaken.Some? && res.vpcNotTaken.Some?
      modifies this`worklist, this`enqueued, this`incoming, cfg`edges
      ensures cfg.edges == old(cfg.edges) + [Edge(bid, t, tback)] + [Edge(bid, f, fback)]
      ensures forall s :: InOf(incoming, s) == InOf(old(incoming), s)
                + (if s == t then [Incoming(bid, res.outTaken)] else [])
                + (if s == f then [Incoming(bid, res.outNotTaken)] else [])
      ensures enqueued == old(enqueued) + {res.vpcTaken.value} + {res.vpcNotTaken.value}
      ensures worklist == old(worklist)
                + (if res.vpcTaken.value in old(enqueued) then [] else [res.vpcTaken.value])
                + (if res.vpcNotTaken.value in old(enqueued) + {res.vpcTaken.value} then []
                   else [res.vpcNotTaken.value])
    {
      hide InOf;
      cfg.AddEdge(bid, t, tback);
      cfg.AddEdge(bid, f, fback);
      PushIncoming(t, bid, res.outTaken);
      PushIncoming(f, bid, res.outNotTaken);
      Enqueue(res.vpcTaken.value);
      Enqueue(res.vpcNotTaken.value);
    }

    method GetBothBlocks(taken: Vpc, notTaken: Vpc, ghost n: nat, ghost g: Graph) returns (t: nat, f: nat)
      requires cfg.Valid() && Distinct(g.vpcs) && n <= |g.vpcs|
      requires vpcToBlock == IndexTable(g.vpcs) && cfg.blocks == GrownBlocks(g, g.vpcs)
      modifies this`vpcToBlock, cfg`blocks, cfg`nextBlockId
      ensures cfg.Valid()
      ensures var all := See(See(g.vpcs, taken), notTaken);
              && vpcToBlock == IndexTable(all) && cfg.blocks == GrownBlocks(g, all)
              && Distinct(all) && t < |all| && all[t] == taken && f < |all| && all[f] == notTaken
              && (taken in SetOf(g.vpcs[..n]) <==> t < n) && (notTaken in SetOf(g.vpcs[..n]) <==> f < n)
    {
      hide BlockOf, Distinct, See, GrownBlocks, IndexTable, SetOf;
      ghost var mid := See(g.vpcs, taken);
      SeeFacts(g, g.vpcs, taken, n);
      t := GetBlock(taken);
      OldTarget(g.vpcs, taken, n, t);
      SeePrefix(g.vpcs, taken, n);
      SeeFacts(g, mid, notTaken, n);
      f := GetBlock(notTaken);
      OldTarget(mid, notTaken, n, f);
      SeePrefix(mid, notTaken, t);
    }

    /** The terminator of an evaluated block; its successors are created, linked and queued. */
    method Terminate(res: SegmentResult, bid: nat, ghost g: Graph) returns (term: Terminator)
      requires Sound(g) && bid == |g.results| < |g.vpcs| && Holds(g, g.vpcs, bid + 1, EdgesOf(g), g)
      modifies this, cfg
      ensures var h := Extend(g, res);
              Holds(g, h.vpcs, bid + 1, EdgesOf(h), h) && bid < |h.arms| && term == TermOf(res, h.arms[bid])
    {
      hide EdgesOf, In, BlockOf, Sound, Distinct, See, GrownBlocks, IndexTable, SetOf, Received, TermOf;
      SoundFacts(g);
      term := NO_TERMINATOR;
      match res.kind {
        case Ret =>
          term := Terminator(RETURN, None, None, res.retValue);
          NoExits(g, res, incoming);
        case Goto =>
          if res.nextVpc.Some? {
            var s := FollowGoto(res, bid, g);
            term := Terminator(JUMP, Some(s), None, None);
          } else {
            NoExits(g, res, incoming);
          }
        case Branch =>
          if res.vpcTaken.Some? && res.vpcNotTaken.Some? {
            var t, f := FollowBranch(res, bid, g);
            term := Terminator(CJUMP, Some(t), Some(f), res.condition);
          } else {
            NoExits(g, res, incoming);
          }
        case Unresolved =>
          NoExits(g, res, incoming);
      }
      TermAgrees(g, res, term);
    }

    /** One iteration: evaluates the next block and records its successors. */
    method Process(oracle: Oracle, c: Config, init: VMState, ghost g: Graph)
      requires Represents(g) && |worklist| > 0
      modifies this, cfg
      ensures Represents(Extend(g, oracle(g.vpcs[|g.results|], Drive(c, init, g, |g.results|))))
    {
      hide Drive, EntryState, EdgesOf, In, BlockOf, Sound, Distinct, See, GrownBlocks, IndexTable, SetOf, Extend,
           Received, TermOf;
      ghost var k := |g.results|;
      SoundFacts(g);
      var vpc := worklist[0];
      NextVpc(g.vpcs, k);
      worklist := worklist[1..];
      if vpc in processed { assert false; }
      processed := processed + {vpc};
      var bid := vpcToBlock[vpc];
      var drive := DriveState(c, init, bid, g);
      var res := oracle(vpc, drive);
      ghost var h := Extend(g, res);
      ExtendAdds(g, res);
      var term := Terminate(res, bid, g);
      BlockDone(g, res);
      var pos := cfg.BlockById(bid);
      cfg.blocks := cfg.blocks[pos.value := cfg.blocks[pos.value].(instrs := res.instrs, term := term)];
    }

    /** The whole loop. */
    method Run(oracle: Oracle, c: Config, init: VMState) returns (ghost g: Graph)
      requires Represents(Start(c))
      modifies this, cfg
      ensures g == Discover(oracle, c, init) && Represents(g)
    {
      hide Drive, EdgesOf, In, BlockOf, Sound, Distinct, See, GrownBlocks, IndexTable, SetOf, Extend, Received;
      g := Start(c);
      SoundFacts(g);
      LengthOf(g, g.vpcs);
      while |worklist| > 0 && |cfg.blocks| <= c.maxBlocks
        invariant Represents(g) && |cfg.blocks| == |g.vpcs| && |g.results| <= |g.vpcs|
        invariant Explore(oracle, c, init, g) == Explore(oracle, c, init, Start(c))
        decreases c.maxBlocks - |g.results|
      {
        Process(oracle, c, init, g);
        g := Grow(oracle, c, init, g);
        SoundFacts(g);
        LengthOf(g, g.vpcs);
      }
    }
  }

  /** One iteration of the loop, as the specification sees it. */
  ghost function Grow(oracle: Oracle, c: Config, init: VMState, g: Graph): (h: Graph)
    requires |g.results| < |g.vpcs|
    ensures |h.results| == |g.results| + 1
    ensures Continues(c, g) ==> Explore(oracle, c, init, g) == Explore(oracle, c, init, h)
  {
    Extend(g, oracle(g.vpcs[|g.results|], Drive(c, init, g, |g.results|)))
  }

  // ----- facts about one iteration -----

  lemma LengthOf(g: Graph, vpcs: seq<Vpc>)
    ensures |GrownBlocks(g, vpcs)| == |vpcs|
  {}

  lemma SoundFacts(g: Graph)
    requires Sound(g)
    ensures Shaped(g) && Distinct(g.vpcs) && 0 < |g.vpcs| && |g.results| <= |g.vpcs| && |g.arms| == |g.results|
  {}

  /** The next VPC has not been processed, and its id is the number of processed blocks. */
  lemma NextVpc(vpcs: seq<Vpc>, k: nat)
    requires Distinct(vpcs) && k < |vpcs|
    ensures vpcs[k..][0] == vpcs[k] && vpcs[k..][1..] == vpcs[k + 1..]
    ensures vpcs[k] !in SetOf(vpcs[..k])
    ensures SetOf(vpcs[..k + 1]) == SetOf(vpcs[..k]) + {vpcs[k]}
    ensures vpcs[k] in IndexTable(vpcs) && IndexTable(vpcs)[vpcs[k]] == k
  {
    hide IndexTable;
    IndexTableFacts(vpcs);
    assert vpcs[..k + 1] == vpcs[..k] + [vpcs[k]];
  }

  lemma SeePrefix(vpcs: seq<Vpc>, v: Vpc, n: nat)
    requires n <= |vpcs|
    ensures See(vpcs, v)[..n] == vpcs[..n] && |See(vpcs, v)| >= |vpcs|
    ensures n < |vpcs| ==> See(vpcs, v)[n] == vpcs[n]
  {}

  /** A target that was processed before is one that does not come after the source. */
  lemma OldTarget(vpcs: seq<Vpc>, v: Vpc, n: nat, s: nat)
    requires Distinct(vpcs) && n <= |vpcs|
    requires s < |See(vpcs, v)| && See(vpcs, v)[s] == v
    ensures v in SetOf(vpcs[..n]) <==> s < n
  {
    if v in vpcs[..n] {
      var i :| 0 <= i < n && vpcs[i] == v;
    }
    if s < n { assert vpcs[..n][s] == v; }
  }

  /** The queue after both arms of a branch have been enqueued. */
  lemma BothSeen(g: Graph, taken: Vpc, notTaken: Vpc, n: nat)
    requires Distinct(g.vpcs) && n <= |g.vpcs|
    ensures var all := See(See(g.vpcs, taken), notTaken);
            && n <= |all| && all[..n] == g.vpcs[..n]
            && SetOf(all) == SetOf(g.vpcs) + {taken} + {notTaken}
            && all[n..] == g.vpcs[n..] + (if taken in SetOf(g.vpcs) then [] else [taken])
                                       + (if notTaken in SetOf(g.vpcs) + {taken} then [] else [notTaken])
  {
    hide See, SetOf, IndexTable, GrownBlocks, Distinct;
    var mid := See(g.vpcs, taken);
    SeeFacts(g, g.vpcs, taken, n);
    SeeFacts(g, mid, notTaken, n);
    SeePrefix(g.vpcs, taken, n);
    SeePrefix(mid, notTaken, n);
  }

  lemma ArmTarget(vpcs: seq<Vpc>, v: Vpc, s: nat)
    requires Distinct(vpcs) && s < |vpcs| && vpcs[s] == v
    ensures IndexIn(vpcs, v) == s
  {}

  lemma NoExits(g: Graph, r: SegmentResult, incoming: map<nat, seq<Incoming>>)
    requires Sound(g) && |g.results| < |g.vpcs| && Exits(r) == [] && Received(incoming, g)
    ensures var h := Extend(g, r);
            h.vpcs == g.vpcs && EdgesOf(h) == EdgesOf(g) && Received(incoming, h)
  {
    ExtendAdds(g, r);
    forall s ensures In(Extend(g, r), s) == In(g, s) { InExtend(g, r, s); }
  }

  /** The successors of a `goto`. */
  lemma GotoArms(g: Graph, r: SegmentResult, s: nat)
    requires r.kind.Goto? && r.nextVpc.Some? && |g.arms| == |g.results|
    requires Distinct(See(g.vpcs, r.nextVpc.value))
    requires s < |See(g.vpcs, r.nextVpc.value)| && See(g.vpcs, r.nextVpc.value)[s] == r.nextVpc.value
    ensures var h := Extend(g, r);
            h.vpcs == See(g.vpcs, r.nextVpc.value) && h.arms[|g.results|] == [Arm(s, r.outState)]
  {
    var exits := Exits(r);
    assert exits[..0] == [];
    assert SeeAll(g.vpcs, exits) == See(SeeAll(g.vpcs, exits[..0]), r.nextVpc.value);
    ArmTarget(Extend(g, r).vpcs, r.nextVpc.value, s);
  }

  lemma OneExit(g: Graph, r: SegmentResult, s: nat)
    requires Sound(g) && |g.results| < |g.vpcs| && r.kind.Goto? && r.nextVpc.Some?
    requires Distinct(See(g.vpcs, r.nextVpc.value))
    requires s < |See(g.vpcs, r.nextVpc.value)| && See(g.vpcs, r.nextVpc.value)[s] == r.nextVpc.value
    ensures var h, k := Extend(g, r), |g.results|;
            && h.vpcs == See(g.vpcs, r.nextVpc.value) && k < |h.arms| && h.arms[k] == [Arm(s, r.outState)]
            && Target(h.arms[k], 0) == s
            && EdgesOf(h) == EdgesOf(g) + [Edge(k, s, s <= k)]
  {
    hide EdgesOf, Sound, Distinct;
    SoundFacts(g);
    GotoArms(g, r, s);
    ExtendAdds(g, r);
  }

  lemma ReceivedGoto(g: Graph, r: SegmentResult, s: nat, before: map<nat, seq<Incoming>>,
                     after: map<nat, seq<Incoming>>)
    requires Shaped(g) && Received(before, g)
    requires Extend(g, r).arms[|g.results|] == [Arm(s, r.outState)]
    requires forall t :: InOf(after, t) == InOf(before, t) + if t == s then [Incoming(|g.results|, r.outState)] else []
    ensures Received(after, Extend(g, r))
  {
    hide Extend, InOf, In;
    forall t ensures InOf(after, t) == In(Extend(g, r), t) {
      InExtend(g, r, t);
      IntoOne(Arm(s, r.outState), |g.results|, t);
    }
  }

  lemma IntoOne(a: Arm, k: nat, t: nat)
    ensures Into([a], k, t) == if t == a.to then [Incoming(k, a.state)] else []
  {
    assert [a][..0] == [];
  }

  lemma IntoTwo(a: Arm, b: Arm, k: nat, t: nat)
    ensures Into([a, b], k, t)
         == (if t == a.to then [Incoming(k, a.state)] else []) + (if t == b.to then [Incoming(k, b.state)] else [])
  {
    assert [a, b][..1] == [a];
    IntoOne(a, k, t);
  }

  /** The successors of a branch. */
  lemma BranchArms(g: Graph, r: SegmentResult, t: nat, f: nat)
    requires r.kind.Branch? && r.vpcTaken.Some? && r.vpcNotTaken.Some? && |g.arms| == |g.results|
    requires var vpcs := See(See(g.vpcs, r.vpcTaken.value), r.vpcNotTaken.value);
             Distinct(vpcs) && t < |vpcs| && vpcs[t] == r.vpcTaken.value && f < |vpcs| && vpcs[f] == r.vpcNotTaken.value
    ensures var h := Extend(g, r);
            && h.vpcs == See(See(g.vpcs, r.vpcTaken.value), r.vpcNotTaken.value)
            && h.arms[|g.results|] == [Arm(t, r.outTaken), Arm(f, r.outNotTaken)]
  {
    hide Distinct, See;
    var exits := Exits(r);
    var one := [Exit(r.vpcTaken.value, r.outTaken)];
    assert exits[..1] == one && one[..0] == [];
    assert SeeAll(g.vpcs, one) == See(SeeAll(g.vpcs, []), r.vpcTaken.value);
    assert SeeAll(g.vpcs, exits) == See(SeeAll(g.vpcs, one), r.vpcNotTaken.value);
    ArmTarget(Extend(g, r).vpcs, r.vpcTaken.value, t);
    ArmTarget(Extend(g, r).vpcs, r.vpcNotTaken.value, f);
  }

  lemma TwoExits(g: Graph, r: SegmentResult, t: nat, f: nat)
    requires Sound(g) && |g.results| < |g.vpcs| && r.kind.Branch? && r.vpcTaken.Some? && r.vpcNotTaken.Some?
    requires var vpcs := See(See(g.vpcs, r.vpcTaken.value), r.vpcNotTaken.value);
             Distinct(vpcs) && t < |vpcs| && vpcs[t] == r.vpcTaken.value && f < |vpcs| && vpcs[f] == r.vpcNotTaken.value
    ensures var h, k := Extend(g, r), |g.results|;
            && h.vpcs == See(See(g.vpcs, r.vpcTaken.value), r.vpcNotTaken.value)
            && k < |h.arms| && h.arms[k] == [Arm(t, r.outTaken), Arm(f, r.outNotTaken)]
            && Target(h.arms[k], 0) == t && Target(h.arms[k], 1) == f
            && EdgesOf(h) == EdgesOf(g) + [Edge(k, t, t <= k)] + [Edge(k, f, f <= k)]
  {
    hide EdgesOf, Sound, Distinct, See;
    SoundFacts(g);
    BranchArms(g, r, t, f);
    ExtendAdds(g, r);
    var k := |g.results|;
    assert EdgesFrom(k, [Arm(t, r.outTaken), Arm(f, r.outNotTaken)]) == [Edge(k, t, t <= k)] + [Edge(k, f, f <= k)];
  }

  lemma ReceivedBranch(g: Graph, r: SegmentResult, t: nat, f: nat, before: map<nat, seq<Incoming>>,
                       after: map<nat, seq<Incoming>>)
    requires Shaped(g) && Received(before, g)
    requires Extend(g, r).arms[|g.results|] == [Arm(t, r.outTaken), Arm(f, r.outNotTaken)]
    requires forall s :: InOf(after, s)
                      == InOf(before, s)
                         + (if s == t then [Incoming(|g.results|, r.outTaken)] else [])
                         + (if s == f then [Incoming(|g.results|, r.outNotTaken)] else [])
    ensures Received(after, Extend(g, r))
  {
    hide Extend, InOf, In;
    forall s ensures InOf(after, s) == In(Extend(g, r), s) {
      InExtend(g, r, s);
      IntoTwo(Arm(t, r.outTaken), Arm(f, r.outNotTaken), |g.results|, s);
    }
  }

  /** The terminator that the iteration assembles. */
  lemma TermAgrees(g: Graph, r: SegmentResult, term: Terminator)
    requires Sound(g) && |g.results| < |g.vpcs|
    requires var arms := Extend(g, r).arms[|g.results|];
             term == match r.kind
                     case Ret => Terminator(RETURN, None, None, r.retValue)
                     case Goto =>
                       if r.nextVpc.Some? then Terminator(JUMP, Some(Target(arms, 0)), None, None) else NO_TERMINATOR
                     case Branch =>
                       if r.vpcTaken.Some? && r.vpcNotTaken.Some? then
                         Terminator(CJUMP, Some(Target(arms, 0)), Some(Target(arms, 1)), r.condition)
                       else NO_TERMINATOR
                     case Unresolved => NO_TERMINATOR
    ensures term == TermOf(r, Extend(g, r).arms[|g.results|])
  {}

  /** Filling in the evaluated block completes the graph. */
  lemma BlockDone(g: Graph, r: SegmentResult)
    requires Sound(g) && |g.results| < |g.vpcs|
    ensures var h, k := Extend(g, r), |g.results|;
            && |h.results| == k + 1 && k < |h.vpcs| && |GrownBlocks(g, h.vpcs)| == |h.vpcs|
            && GrownBlocks(h, h.vpcs)
            == GrownBlocks(g, h.vpcs)[k := GrownBlocks(g, h.vpcs)[k].(instrs := r.instrs, term := TermOf(r, h.arms[k]))]
  {
    hide TermOf, SeeAll, ArmsTo, Exits;
    SoundFacts(g);
  }

  lemma BlocksDone(g: Graph)
    ensures GrownBlocks(g, g.vpcs) == BlocksOf(g)
  {
    hide BlockOf;
  }
}
