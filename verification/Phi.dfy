/** Phi construction: which registers of which blocks get a phi node, with which inputs and
    which ids. */
module Phi {
  import opened Ir
  import opened Cfg
  import opened Names
  import opened Recovery
  import opened RecoveryRun

  // ----- specification -----

  /** The value that a state gives a register; by default the clean function input. */
  function Lookup(state: VMState, reg: string): Value { if reg in state then state[reg] else SymReg(reg) }

  predicate Complete(ins: seq<Incoming>, reg: string) { forall i :: 0 <= i < |ins| ==> reg in ins[i].state }

  predicate AllSame(ins: seq<Incoming>, reg: string) {
    forall i :: 0 < i < |ins| ==> Lookup(ins[i].state, reg) == Lookup(ins[0].state, reg)
  }

  /** Predecessors disagree on a register that all of them define. */
  predicate Disagree(ins: seq<Incoming>, reg: string) { |ins| >= 2 && Complete(ins, reg) && !AllSame(ins, reg) }

  function Inputs(ins: seq<Incoming>, reg: string): (r: seq<PhiInput>)
    ensures |r| == |ins|
  {
    seq(|ins|, i requires 0 <= i < |ins| => PhiInput(ins[i].pred, Lookup(ins[i].state, reg)))
  }

  /** The tracked registers on which predecessors disagree, in order. */
  function Contested(ins: seq<Incoming>, tracked: seq<string>): seq<string> {
    if |tracked| == 0 then []
    else
      var n := |tracked| - 1;
      Contested(ins, tracked[..n]) + if Disagree(ins, tracked[n]) then [tracked[n]] else []
  }

  function PhisFor(ins: seq<Incoming>, regs: seq<string>, nextId: nat): (r: seq<PhiNode>)
    ensures |r| == |regs|
  {
    seq(|regs|, j requires 0 <= j < |regs| => PhiNode(nextId + j, regs[j], Inputs(ins, regs[j])))
  }

  /** The first phi id of block `b`, when phi ids start at `base`. */
  function NextId(g: Graph, tracked: seq<string>, base: nat, b: nat): nat {
    if b == 0 then base else NextId(g, tracked, base, b - 1) + |Contested(In(g, b - 1), tracked)|
  }

  function PhisOf(g: Graph, tracked: seq<string>, base: nat, b: nat): seq<PhiNode> {
    PhisFor(In(g, b), Contested(In(g, b), tracked), NextId(g, tracked, base, b))
  }

  function PhiBlock(g: Graph, tracked: seq<string>, base: nat, b: nat): BasicBlock {
    BlockOf(g, b).(phis := PhisOf(g, tracked, base, b))
  }

  function PhiBlocks(g: Graph, tracked: seq<string>, base: nat): (r: seq<BasicBlock>)
    ensures |r| == |g.vpcs|
  {
    seq(|g.vpcs|, b requires 0 <= b < |g.vpcs| => PhiBlock(g, tracked, base, b))
  }

  // ----- what the specification says -----

  lemma {:induction false} ContestedExactly(ins: seq<Incoming>, tracked: seq<string>, reg: string)
    ensures reg in Contested(ins, tracked) <==> reg in tracked && Disagree(ins, reg)
  {
    hide Disagree;
    if |tracked| > 0 { ContestedExactly(ins, tracked[..|tracked| - 1], reg); }
  }

  /** A block gets a phi for a register exactly when the register is tracked, the block has at
      least two in-edges, and their states all define the register but not all alike; the
      phi's inputs are the block's in-edges one for one. */
  lemma PhiPlacementExact(g: Graph, tracked: seq<string>, base: nat, b: nat, reg: string)
    ensures var phis := PhisOf(g, tracked, base, b);
            && ((exists j :: 0 <= j < |phis| && phis[j].reg == reg) <==> reg in tracked && Disagree(In(g, b), reg))
            && forall j :: 0 <= j < |phis| ==>
                 && |phis[j].incoming| == |In(g, b)|
                 && forall i :: 0 <= i < |In(g, b)| ==>
                      && phis[j].reg in In(g, b)[i].state
                      && phis[j].incoming[i] == PhiInput(In(g, b)[i].pred, In(g, b)[i].state[phis[j].reg])
  {
    hide In, Contested, NextId;
    var ins, regs := In(g, b), Contested(In(g, b), tracked);
    var phis := PhisOf(g, tracked, base, b);
    ContestedExactly(ins, tracked, reg);
    if reg in regs {
      var j :| 0 <= j < |regs| && regs[j] == reg;
      assert phis[j].reg == reg;
    }
    forall j | 0 <= j < |phis|
      ensures forall i :: 0 <= i < |ins| ==>
                phis[j].reg in ins[i].state && phis[j].incoming[i] == PhiInput(ins[i].pred, ins[i].state[phis[j].reg])
    {
      ContestedExactly(ins, tracked, phis[j].reg);
    }
  }

  lemma {:induction false} NextIdGrows(g: Graph, tracked: seq<string>, base: nat, b: nat, b': nat)
    requires b <= b'
    ensures base <= NextId(g, tracked, base, b) <= NextId(g, tracked, base, b')
    ensures b < b' ==> NextId(g, tracked, base, b) + |Contested(In(g, b), tracked)| <= NextId(g, tracked, base, b')
    decreases b'
  {
    hide In, Contested;
    if b < b' {
      NextIdGrows(g, tracked, base, b, b' - 1);
    } else if b > 0 {
      NextIdGrows(g, tracked, base, b - 1, b - 1);
    }
  }

  /** `m` is the greatest result id of the blocks, 0 if there is none. */
  ghost predicate GreatestId(blocks: seq<BasicBlock>, m: nat) {
    && (forall b, i :: 0 <= b < |blocks| && 0 <= i < |blocks[b].instrs| ==> blocks[b].instrs[i].resultId <= m)
    && (forall b, i :: 0 <= b < |blocks| && 0 <= i < |blocks[b].phis| ==> blocks[b].phis[i].resultId <= m)
    && (m > 0 ==>
          || (exists b, i :: 0 <= b < |blocks| && 0 <= i < |blocks[b].instrs| && blocks[b].instrs[i].resultId == m)
          || (exists b, i :: 0 <= b < |blocks| && 0 <= i < |blocks[b].phis| && blocks[b].phis[i].resultId == m))
  }

  /** Single assignment: no phi shares its id with another phi or with an instruction. */
  lemma PhiIdsFresh(g: Graph, tracked: seq<string>, m: nat, base: nat, b: nat, j: nat)
    requires GreatestId(BlocksOf(g), m) && m < base
    requires b < |g.vpcs| && j < |PhisOf(g, tracked, base, b)|
    ensures var id := PhisOf(g, tracked, base, b)[j].resultId;
            && id >= base
            && (forall c, i :: 0 <= c < |g.vpcs| && 0 <= i < |BlockOf(g, c).instrs| ==>
                  BlockOf(g, c).instrs[i].resultId < id)
            && forall c: nat, i ::
                 0 <= i < |PhisOf(g, tracked, base, c)| && PhisOf(g, tracked, base, c)[i].resultId == id ==>
                   c == b && i == j
  {
    hide In, Contested, NextId, BlockOf;
    var id := PhisOf(g, tracked, base, b)[j].resultId;
    NextIdGrows(g, tracked, base, b, b);
    forall c: nat, i | 0 <= i < |PhisOf(g, tracked, base, c)| && PhisOf(g, tracked, base, c)[i].resultId == id
      ensures c == b && i == j
    {
      if c < b { NextIdGrows(g, tracked, base, c, b); }
      if b < c { NextIdGrows(g, tracked, base, b, c); }
    }
    forall c, i | 0 <= c < |g.vpcs| && 0 <= i < |BlockOf(g, c).instrs| ensures BlockOf(g, c).instrs[i].resultId < id {
      assert BlocksOf(g)[c] == BlockOf(g, c);
    }
  }

  // ----- construction -----

  method MaxResultId(blocks: seq<BasicBlock>) returns (m: nat)
    ensures GreatestId(blocks, m)
  {
    m := 0;
    for b := 0 to |blocks|
      invariant GreatestId(blocks[..b], m)
    {
      ghost var before := m;
      for i := 0 to |blocks[b].instrs|
        invariant before <= m && forall k :: 0 <= k < i ==> blocks[b].instrs[k].resultId <= m
        invariant m == before || exists k :: 0 <= k < i && blocks[b].instrs[k].resultId == m
      {
        if blocks[b].instrs[i].resultId > m { m := blocks[b].instrs[i].resultId; }
      }
      ghost var mid := m;
      for i := 0 to |blocks[b].phis|
        invariant mid <= m && forall k :: 0 <= k < i ==> blocks[b].phis[k].resultId <= m
        invariant m == mid || exists k :: 0 <= k < i && blocks[b].phis[k].resultId == m
      {
        if blocks[b].phis[i].resultId > m { m := blocks[b].phis[i].resultId; }
      }
      GreatestGrown(blocks, b, before, mid, m);
    }
    assert blocks[..|blocks|] == blocks;
  }

  lemma GreatestGrown(blocks: seq<BasicBlock>, b: nat, before: nat, mid: nat, m: nat)
    requires b < |blocks| && GreatestId(blocks[..b], before) && before <= mid <= m
    requires forall k :: 0 <= k < |blocks[b].instrs| ==> blocks[b].instrs[k].resultId <= mid
    requires mid == before || exists k :: 0 <= k < |blocks[b].instrs| && blocks[b].instrs[k].resultId == mid
    requires forall k :: 0 <= k < |blocks[b].phis| ==> blocks[b].phis[k].resultId <= m
    requires m == mid || exists k :: 0 <= k < |blocks[b].phis| && blocks[b].phis[k].resultId == m
    ensures GreatestId(blocks[..b + 1], m)
  {
    var all := blocks[..b + 1];
    assert all[b] == blocks[b] && forall c :: 0 <= c < b ==> all[c] == blocks[..b][c];
    if m == mid && mid == before && m > 0 {
      if exists c, i :: 0 <= c < b && 0 <= i < |blocks[..b][c].instrs| && blocks[..b][c].instrs[i].resultId == m {
        var c, i :| 0 <= c < b && 0 <= i < |blocks[..b][c].instrs| && blocks[..b][c].instrs[i].resultId == m;
        assert all[c].instrs[i].resultId == m;
      } else {
        var c, i :| 0 <= c < b && 0 <= i < |blocks[..b][c].phis| && blocks[..b][c].phis[i].resultId == m;
        assert all[c].phis[i].resultId == m;
      }
    }
  }

  /** The registers to reconcile: the configured ones, or all that any incoming state names. */
  method TrackedRegs(w: Worklist, c: Config, ghost g: Graph) returns (tracked: seq<string>)
    requires Received(w.incoming, g)
    ensures Tracks(c, g, tracked)
  {
    if |c.trackedRegs| > 0 { return c.trackedRegs; }
    var seen: set<string> := {};
    var rest := w.incoming.Keys;
    while rest != {}
      invariant rest <= w.incoming.Keys
      invariant forall x :: x in seen <==> exists s :: s in w.incoming && s !in rest && Mentions(w.incoming[s], x)
      decreases |rest|
    {
      var s :| s in rest;
      rest := rest - {s};
      var names := NamesOf(w.incoming[s]);
      seen := seen + names;
    }
    tracked := SortNames(seen);
    forall x ensures x in seen <==> exists s :: Mentions(In(g, s), x) {
      if x in seen {
        var s :| s in w.incoming && Mentions(w.incoming[s], x);
        assert InOf(w.incoming, s) == In(g, s);
      }
      if s :| Mentions(In(g, s), x) {
        assert InOf(w.incoming, s) == In(g, s);
      }
    }
  }

  predicate Mentions(ins: seq<Incoming>, x: string) { exists i :: 0 <= i < |ins| && x in ins[i].state }

  ghost predicate Tracks(c: Config, g: Graph, tracked: seq<string>) {
    if |c.trackedRegs| > 0 then tracked == c.trackedRegs
    else
      && (forall x :: x in tracked <==> exists s :: Mentions(In(g, s), x))
      && (forall i, j :: 0 <= i < j < |tracked| ==> LexLeq(tracked[i], tracked[j]) && tracked[i] != tracked[j])
  }

  method NamesOf(ins: seq<Incoming>) returns (names: set<string>)
    ensures forall x :: x in names <==> Mentions(ins, x)
  {
    names := {};
    for i := 0 to |ins|
      invariant forall x :: x in names <==> exists k :: 0 <= k < i && x in ins[k].state
    {
      names := names + ins[i].state.Keys;
    }
  }

  /** The phi inputs of one register, if it needs a phi. */
  method Reconcile(ins: seq<Incoming>, reg: string) returns (pairs: Option<seq<PhiInput>>)
    ensures pairs == if Disagree(ins, reg) then Some(Inputs(ins, reg)) else None
  {
    var inputs: seq<PhiInput> := [];
    for i := 0 to |ins|
      invariant inputs == Inputs(ins[..i], reg)
      invariant forall k :: 0 <= k < i ==> reg in ins[k].state
    {
      if reg !in ins[i].state { return None; }
      assert forall k :: 0 <= k <= i ==> ins[..i + 1][k] == ins[k];
      inputs := inputs + [PhiInput(ins[i].pred, ins[i].state[reg])];
    }
    assert ins[..|ins|] == ins;
    if |inputs| < 2 { return None; }
    var allSame := true;
    for i := 1 to |inputs|
      invariant allSame ==> forall k :: 0 < k < i ==> Lookup(ins[k].state, reg) == Lookup(ins[0].state, reg)
    {
      if inputs[i].value != inputs[0].value {
        assert Lookup(ins[i].state, reg) != Lookup(ins[0].state, reg);
        return Some(inputs);
      }
    }
    return None;
  }

  /** The phis of one block. */
  method BlockPhis(ins: seq<Incoming>, tracked: seq<string>, nextId: nat) returns (phis: seq<PhiNode>)
    ensures phis == PhisFor(ins, Contested(ins, tracked), nextId)
  {
    phis := [];
    for k := 0 to |tracked|
      invariant phis == PhisFor(ins, Contested(ins, tracked[..k]), nextId)
    {
      assert tracked[..k + 1][..k] == tracked[..k];
      var pairs := Reconcile(ins, tracked[k]);
      ContestedNext(ins, tracked, k, nextId);
      if pairs.Some? { phis := phis + [PhiNode(nextId + |phis|, tracked[k], pairs.value)]; }
    }
    assert tracked[..|tracked|] == tracked;
  }

  lemma ContestedNext(ins: seq<Incoming>, tracked: seq<string>, k: nat, nextId: nat)
    requires k < |tracked|
    ensures var now := Contested(ins, tracked[..k]);
            var node := PhiNode(nextId + |now|, tracked[k], Inputs(ins, tracked[k]));
            var more := if Disagree(ins, tracked[k]) then [node] else [];
            PhisFor(ins, Contested(ins, tracked[..k + 1]), nextId) == PhisFor(ins, now, nextId) + more
  {
    hide Disagree, Inputs;
    assert tracked[..k + 1][..k] == tracked[..k];
  }

  /** Fewer than two in-edges: nothing is contested. */
  lemma {:induction false} NoContest(ins: seq<Incoming>, tracked: seq<string>)
    requires |ins| < 2
    ensures Contested(ins, tracked) == []
  {
    if |tracked| > 0 { NoContest(ins, tracked[..|tracked| - 1]); }
  }

  method ConstructPhis(w: Worklist, tracked: seq<string>, base: nat, ghost g: Graph)
    requires w.Represents(g)
    modifies w.cfg`blocks
    ensures w.cfg.Valid() && w.cfg.blocks == PhiBlocks(g, tracked, base)
  {
    hide In, Contested, PhisFor, BlockOf, Sound, EdgesOf, GrownBlocks, IndexTable, SetOf, Received;
    BlocksDone(g);
    var nextId := base;
    ghost var n := |w.cfg.blocks|;
    for b := 0 to |w.cfg.blocks|
      invariant |w.cfg.blocks| == n == |g.vpcs| && w.cfg.Valid()
      invariant nextId == NextId(g, tracked, base, b)
      invariant forall k :: 0 <= k < b ==> w.cfg.blocks[k] == PhiBlock(g, tracked, base, k)
      invariant forall k :: b <= k < n ==> w.cfg.blocks[k] == BlockOf(g, k)
    {
      var bb := w.cfg.blocks[b];
      var ins := if bb.id in w.incoming then w.incoming[bb.id] else [];
      InRecorded(w.incoming, g, b);
      PlainBlock(g, tracked, base, b);
      if |ins| >= 2 {
        var phis := BlockPhis(ins, tracked, nextId);
        w.cfg.blocks := w.cfg.blocks[b := bb.(phis := phis)];
        nextId := nextId + |phis|;
      }
    }
  }

  lemma InRecorded(incoming: map<nat, seq<Incoming>>, g: Graph, b: nat)
    requires Received(incoming, g)
    ensures (if b in incoming then incoming[b] else []) == In(g, b)
  {
    assert InOf(incoming, b) == In(g, b);
  }

  lemma PlainBlock(g: Graph, tracked: seq<string>, base: nat, b: nat)
    ensures |In(g, b)| < 2 ==> PhiBlock(g, tracked, base, b) == BlockOf(g, b) && |Contested(In(g, b), tracked)| == 0
  {
    if |In(g, b)| < 2 { NoContest(In(g, b), tracked); }
  }
}
