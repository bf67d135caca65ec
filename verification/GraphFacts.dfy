/** What the recovered graph says: it is closed, its edges are the successor pairs, and the
    back-edge flags cut every cycle. */
module GraphFacts {
  import opened Ir
  import opened Cfg
  import opened Recovery

  // ----- edges and arms -----

  /** The edge follows one of its source's arms, flagged as its ids say. */
  ghost predicate IsArm(arms: seq<Arm>, e: Edge) {
    exists k :: 0 <= k < |arms| && arms[k].to == e.to && e.isBackedge == (e.to <= e.from)
  }

  lemma {:induction false} EdgeIsArm(arms: seq<seq<Arm>>, n: nat, e: Edge)
    requires n <= |arms|
    ensures e in EdgesUpTo(arms, n) <==> e.from < n && IsArm(arms[e.from], e)
  {
    if n > 0 {
      EdgeIsArm(arms, n - 1, e);
      var last := EdgesFrom(n - 1, arms[n - 1]);
      if e in last {
        var k :| 0 <= k < |last| && last[k] == e;
        assert arms[e.from][k].to == e.to;
      }
      if e.from == n - 1 && IsArm(arms[e.from], e) {
        var k :| 0 <= k < |arms[e.from]| && arms[e.from][k].to == e.to && e.isBackedge == (e.to <= e.from);
        assert last[k] == e;
      }
    }
  }

  lemma {:induction false} IntoArm(arms: seq<Arm>, pred: nat, s: nat, i: nat) returns (k: nat)
    requires i < |Into(arms, pred, s)|
    ensures k < |arms| && arms[k].to == s && Into(arms, pred, s)[i] == Incoming(pred, arms[k].state)
  {
    var n := |arms| - 1;
    if i < |Into(arms[..n], pred, s)| {
      k := IntoArm(arms[..n], pred, s, i);
    } else {
      k := n;
    }
  }

  /** Every recorded incoming edge is an arm of its predecessor. */
  lemma {:induction false} IncomingArm(arms: seq<seq<Arm>>, n: nat, s: nat, i: nat) returns (k: nat)
    requires n <= |arms| && i < |InUpTo(arms, n, s)|
    ensures var p := InUpTo(arms, n, s)[i];
            && p.pred < n && k < |arms[p.pred]| && arms[p.pred][k].to == s && p.state == arms[p.pred][k].state
  {
    if i < |InUpTo(arms, n - 1, s)| {
      k := IncomingArm(arms, n - 1, s, i);
    } else {
      IntoFrom(arms[n - 1], n - 1, s);
      k := IntoArm(arms[n - 1], n - 1, s, i - |InUpTo(arms, n - 1, s)|);
    }
  }

  // ----- edges are successor pairs -----

  /** The recorded result of `v` names `w` as a successor. */
  ghost predicate Leads(g: Graph, v: Vpc, w: Vpc) {
    exists i, k :: 0 <= i < |g.results| && i < |g.vpcs| && g.vpcs[i] == v && 0 <= k < |Exits(g.results[i])|
                && Exits(g.results[i])[k].vpc == w
  }

  lemma EdgesAreSuccessorPairs(g: Graph, a: nat, b: nat)
    requires Sound(g) && a < |g.vpcs| && b < |g.vpcs|
    ensures Edge(a, b, b <= a) in EdgesOf(g) <==> Leads(g, g.vpcs[a], g.vpcs[b])
    ensures Edge(a, b, b > a) !in EdgesOf(g)
  {
    hide EdgesUpTo, BornEarlier, Exits;
    EdgeIsArm(g.arms, |g.arms|, Edge(a, b, b <= a));
    EdgeIsArm(g.arms, |g.arms|, Edge(a, b, b > a));
    if Leads(g, g.vpcs[a], g.vpcs[b]) {
      var i, k :| 0 <= i < |g.results| && i < |g.vpcs| && g.vpcs[i] == g.vpcs[a] && 0 <= k < |Exits(g.results[i])|
                && Exits(g.results[i])[k].vpc == g.vpcs[b];
      assert i == a && ArmsMatch(g, a);
      assert g.arms[a][k].to == b;
    }
    if Edge(a, b, b <= a) in EdgesOf(g) {
      var k :| 0 <= k < |g.arms[a]| && g.arms[a][k].to == b;
      assert ArmsMatch(g, a);
    }
  }

  lemma {:induction false} TargetsAppend(es: seq<Edge>, fs: seq<Edge>, id: nat)
    ensures Targets(es + fs, id) == Targets(es, id) + Targets(fs, id)
  {
    hide Targets;
    NoTargets(id);
    if |fs| == 0 {
      assert es + fs == es;
    } else {
      var n := |fs| - 1;
      TargetsAppend(es, fs[..n], id);
      assert (es + fs)[..|es| + n] == es + fs[..n];
      LastTarget(es + fs, id);
      LastTarget(fs, id);
    }
  }

  lemma LastTarget(es: seq<Edge>, id: nat)
    requires |es| > 0
    ensures Targets(es, id) == Targets(es[..|es| - 1], id) + if es[|es| - 1].from == id then [es[|es| - 1].to] else []
  {}

  function ArmTargets(arms: seq<Arm>): seq<nat> { seq(|arms|, k requires 0 <= k < |arms| => arms[k].to) }

  lemma {:induction false} TargetsFrom(i: nat, arms: seq<Arm>, id: nat)
    ensures Targets(EdgesFrom(i, arms), id) == if i == id then ArmTargets(arms) else []
  {
    if |arms| > 0 {
      var n := |arms| - 1;
      TargetsFrom(i, arms[..n], id);
      assert EdgesFrom(i, arms)[..n] == EdgesFrom(i, arms[..n]);
    }
  }

  lemma NoTargets(id: nat)
    ensures Targets([], id) == []
  {}

  lemma {:induction false} TargetsOf(arms: seq<seq<Arm>>, n: nat, id: nat)
    requires n <= |arms|
    ensures Targets(EdgesUpTo(arms, n), id)
         == if id < n then ArmTargets(arms[id]) else []
  {
    hide ArmTargets, EdgesFrom, Targets;
    if n == 0 {
      NoTargets(id);
    } else {
      TargetsOf(arms, n - 1, id);
      TargetsAppend(EdgesUpTo(arms, n - 1), EdgesFrom(n - 1, arms[n - 1]), id);
      TargetsFrom(n - 1, arms[n - 1], id);
    }
  }

  function TermTargets(t: Terminator): seq<nat> {
    (if t.target.Some? then [t.target.value] else []) + (if t.fallthrough.Some? then [t.fallthrough.value] else [])
  }

  /** Every block's out-edges are the targets of its terminator, in order; a block that was not
      evaluated is UNREACHABLE, empty and without out-edges. */
  lemma TerminatorsMatchEdges(g: Graph, i: nat)
    requires Sound(g) && i < |g.vpcs|
    ensures Targets(EdgesOf(g), i) == TermTargets(BlocksOf(g)[i].term)
    ensures i >= |g.results| ==> BlocksOf(g)[i] == BasicBlock(i, [], [], NO_TERMINATOR) && Targets(EdgesOf(g), i) == []
  {
    hide EdgesUpTo, BornEarlier, Distinct;
    TargetsOf(g.arms, |g.arms|, i);
    if i < |g.results| {
      assert |g.arms[i]| == |Exits(g.results[i])|;
    }
  }

  // ----- closure -----

  /** A walk from the entry along recorded successors. */
  ghost predicate Walk(g: Graph, p: seq<Vpc>) {
    && |p| > 0 && |g.vpcs| > 0 && p[0] == g.vpcs[0]
    && forall j :: 0 <= j < |p| - 1 ==> Leads(g, p[j], p[j + 1])
  }

  /** Every block is the end of a walk. */
  lemma {:induction false} BlocksAreReached(g: Graph, s: nat) returns (p: seq<Vpc>)
    requires Sound(g) && s < |g.vpcs|
    ensures Walk(g, p) && p[|p| - 1] == g.vpcs[s]
  {
    hide Exits;
    if s == 0 {
      p := [g.vpcs[0]];
    } else {
      assert BornEarlier(g, s);
      var k := IncomingArm(g.arms, |g.arms|, s, 0);
      var pred := In(g, s)[0].pred;
      assert ArmsMatch(g, pred);
      p := BlocksAreReached(g, pred);
      assert Leads(g, g.vpcs[pred], g.vpcs[s]);
      p := p + [g.vpcs[s]];
    }
  }

  /** If nothing was left unevaluated, no walk leaves the blocks. */
  lemma {:induction false} WalksStayInside(g: Graph, p: seq<Vpc>)
    requires Sound(g) && |g.results| == |g.vpcs| && Walk(g, p)
    ensures p[|p| - 1] in g.vpcs
  {
    hide Exits, BornEarlier;
    if |p| > 1 {
      assert Leads(g, p[|p| - 2], p[|p| - 1]);
      var i, k :| 0 <= i < |g.results| && i < |g.vpcs| && g.vpcs[i] == p[|p| - 2] && 0 <= k < |Exits(g.results[i])|
                && Exits(g.results[i])[k].vpc == p[|p| - 1];
      assert ArmsMatch(g, i);
    }
  }

  /** When the worklist runs empty, the blocks are exactly the reachable VPCs. */
  lemma ClosedGraph(g: Graph, v: Vpc)
    requires Sound(g) && |g.results| == |g.vpcs|
    ensures v in g.vpcs <==> exists p :: Walk(g, p) && p[|p| - 1] == v
  {
    hide Sound, Leads;
    if v in g.vpcs {
      var s :| 0 <= s < |g.vpcs| && g.vpcs[s] == v;
      var p := BlocksAreReached(g, s);
    }
    forall p | Walk(g, p) ensures p[|p| - 1] in g.vpcs { WalksStayInside(g, p); }
  }

  // ----- back edges -----

  /** A path of block ids along edges of the graph. */
  ghost predicate EdgePath(g: Graph, c: seq<nat>) {
    |c| > 0 && forall j :: 0 <= j < |c| - 1 ==> HasEdge(g, c[j], c[j + 1])
  }

  ghost predicate HasEdge(g: Graph, a: nat, b: nat) {
    Edge(a, b, true) in EdgesOf(g) || Edge(a, b, false) in EdgesOf(g)
  }

  lemma EdgeFlag(g: Graph, e: Edge)
    requires e in EdgesOf(g)
    ensures e.isBackedge <==> e.to <= e.from
  {
    EdgeIsArm(g.arms, |g.arms|, e);
  }

  lemma {:induction false} IncreasingPath(g: Graph, c: seq<nat>)
    requires EdgePath(g, c) && forall j :: 0 <= j < |c| - 1 ==> Edge(c[j], c[j + 1], true) !in EdgesOf(g)
    ensures c[0] <= c[|c| - 1] && (|c| > 1 ==> c[0] < c[|c| - 1])
  {
    hide EdgesOf;
    if |c| > 1 {
      var d := c[..|c| - 1];
      forall j | 0 <= j < |d| - 1 ensures HasEdge(g, d[j], d[j + 1]) { assert HasEdge(g, c[j], c[j + 1]); }
      IncreasingPath(g, d);
      assert HasEdge(g, c[|c| - 2], c[|c| - 1]);
      EdgeFlag(g, Edge(c[|c| - 2], c[|c| - 1], false));
    }
  }

  /** Every cycle goes through an edge that is flagged as a back edge. */
  lemma EveryCycleIsCut(g: Graph, c: seq<nat>)
    requires EdgePath(g, c) && |c| > 1 && c[0] == c[|c| - 1]
    ensures exists j :: 0 <= j < |c| - 1 && Edge(c[j], c[j + 1], true) in EdgesOf(g)
  {
    hide EdgesOf;
    if forall j :: 0 <= j < |c| - 1 ==> Edge(c[j], c[j + 1], true) !in EdgesOf(g) {
      IncreasingPath(g, c);
    }
  }

  /** Every block is reached from the entry by unflagged edges alone. */
  lemma {:induction false} ReachedForward(g: Graph, s: nat) returns (c: seq<nat>)
    requires Sound(g) && s < |g.vpcs|
    ensures |c| > 0 && c[0] == 0 && c[|c| - 1] == s
    ensures forall j :: 0 <= j < |c| - 1 ==> Edge(c[j], c[j + 1], false) in EdgesOf(g)
  {
    hide EdgesUpTo, Exits;
    if s == 0 {
      c := [0];
    } else {
      assert BornEarlier(g, s);
      var k := IncomingArm(g.arms, |g.arms|, s, 0);
      var pred := In(g, s)[0].pred;
      EdgeIsArm(g.arms, |g.arms|, Edge(pred, s, false));
      c := ReachedForward(g, pred);
      c := c + [s];
    }
  }
}
