/** Full-SSA mode: every symbolic entry value `reg@bbN` is replaced by its definition. */
module FullSsa {
  import opened Ir
  import opened Cfg
  import opened Names
  import opened Recovery
  import opened RecoveryRun
  import opened Phi
  import opened GraphFacts

  type Subst = map<string, Value>

  predicate IsKey(v: Value, m: Subst) { v.SymReg? && v.name in m }

  function Substitute(v: Value, m: Subst): Value { if IsKey(v, m) then m[v.name] else v }

  // ----- chains -----

  /** Every step along a chain of rewrites goes down in rank. */
  ghost predicate Ranked(m: Subst, rank: map<string, nat>) {
    && (forall k :: k in m ==> k in rank)
    && forall k :: k in m && IsKey(m[k], m) ==> rank[m[k].name] < rank[k]
  }

  /** The end of the chain that starts at `k`. */
  ghost function Terminal(m: Subst, rank: map<string, nat>, k: string): (v: Value)
    requires Ranked(m, rank) && k in m
    ensures !IsKey(v, m)
    decreases rank[k]
  {
    if IsKey(m[k], m) then Terminal(m, rank, m[k].name) else m[k]
  }

  /** `out` maps every key of `m` to the definition of what `m` maps it to, and no definition
      is itself a key. */
  ghost predicate Resolved(m: Subst, out: Subst) {
    && out.Keys == m.Keys
    && forall k :: k in m ==> out[k] == Substitute(m[k], out) && !IsKey(out[k], out)
  }

  /** What `v` stands for at the end of its chain. */
  ghost function Denotes(m: Subst, rank: map<string, nat>, v: Value): Value
    requires Ranked(m, rank)
  {
    if IsKey(v, m) then Terminal(m, rank, v.name) else v
  }

  /** Follows one chain in a map that is partly resolved already. */
  method Follow(now: Subst, k: string, ghost m: Subst, ghost rank: map<string, nat>) returns (v: Value, guarded: bool)
    requires k in now && now.Keys == m.Keys
    requires Ranked(m, rank) ==> forall x :: x in m ==> now[x] == m[x] || now[x] == Terminal(m, rank, x)
    ensures Ranked(m, rank) ==> !guarded && v == Terminal(m, rank, k)
  {
    v := now[k];
    guarded := false;
    var seen: set<string> := {};
    while v.SymReg? && v.name in now
      invariant seen <= now.Keys
      invariant Ranked(m, rank) ==> Denotes(m, rank, v) == Terminal(m, rank, k)
      invariant Ranked(m, rank) && IsKey(v, m) ==> forall x :: x in seen ==> x in m && rank[v.name] < rank[x]
      decreases |now.Keys - seen|
    {
      if v.name in seen {
        guarded := true;
        break;
      }
      assert now.Keys - (seen + {v.name}) == now.Keys - seen - {v.name};
      seen := seen + {v.name};
      v := now[v.name];
    }
  }

  /** Resolves every chain while updating the map in place, in any iteration order. Whatever
      the map, this ends; on a ranked map the cycle guard never fires. */
  method ResolveSubst(m: Subst, ghost rank: map<string, nat>) returns (out: Subst, guarded: bool)
    ensures out.Keys == m.Keys
    ensures Ranked(m, rank) ==> !guarded && Resolved(m, out)
  {
    hide Terminal, Resolved;
    out, guarded := m, false;
    var rest := m.Keys;
    while rest != {}
      invariant rest <= m.Keys && out.Keys == m.Keys
      invariant Ranked(m, rank) ==> !guarded
      invariant Ranked(m, rank) ==> forall x :: x in m ==> out[x] == if x in rest then m[x] else Terminal(m, rank, x)
      decreases |rest|
    {
      var k :| k in rest;
      var v, g := Follow(out, k, m, rank);
      out := out[k := v];
      guarded := guarded || g;
      rest := rest - {k};
    }
    if Ranked(m, rank) { TerminalsResolve(m, rank, out); }
  }

  lemma TerminalsResolve(m: Subst, rank: map<string, nat>, out: Subst)
    requires Ranked(m, rank) && out.Keys == m.Keys
    requires forall x :: x in m ==> out[x] == Terminal(m, rank, x)
    ensures Resolved(m, out)
  {}

  /** The definitions of a ranked map are unique. */
  lemma {:induction false} ResolvedUnique(m: Subst, rank: map<string, nat>, out: Subst, k: string)
    requires Ranked(m, rank) && Resolved(m, out) && k in m
    ensures out[k] == Terminal(m, rank, k)
    decreases rank[k]
  {
    if IsKey(m[k], m) { ResolvedUnique(m, rank, out, m[k].name); }
  }

  // ----- definitions of the entry symbols -----

  function FirstPhi(phis: seq<PhiNode>, reg: string): (id: Option<nat>)
    ensures id.Some? ==> exists j :: 0 <= j < |phis| && phis[j].reg == reg && phis[j].resultId == id.value
    ensures id.None? ==> forall j :: 0 <= j < |phis| ==> phis[j].reg != reg
  {
    if |phis| == 0 then None
    else if phis[0].reg == reg then
      assert phis[0].reg == reg;
      Some(phis[0].resultId)
    else
      var rest := phis[1..];
      assert forall j :: 0 < j < |phis| ==> phis[j] == rest[j - 1];
      FirstPhi(rest, reg)
  }

  /** The immediate definition of register `r` on entry to block `b`: the phi result if there
      is one, else the function input, else the value along the first incoming edge. */
  function TargetOf(g: Graph, c: Config, init: VMState, base: nat, b: nat, r: string): Value {
    var phi := FirstPhi(PhisOf(g, c.trackedRegs, base, b), r);
    if phi.Some? then InstrRef(phi.value)
    else if b == 0 then Lookup(init, r)
    else if |In(g, b)| > 0 then Lookup(In(g, b)[0].state, r)
    else SymReg(r)
  }

  ghost predicate IsEntry(name: string, regs: seq<string>, n: nat) {
    exists r, b: nat :: r in regs && b < n && name == EntrySym(r, b)
  }

  ghost predicate Own(name: string, regs: seq<string>, b: nat) { exists r :: r in regs && name == EntrySym(r, b) }

  /** A value of block `b` mentions no other block's entry symbols. */
  ghost predicate OwnSymbols(v: Value, regs: seq<string>, n: nat, b: nat) {
    v.SymReg? && IsEntry(v.name, regs, n) ==> Own(v.name, regs, b)
  }

  /** A value mentions no entry symbol at all. */
  ghost predicate FreeOfEntries(v: Value, regs: seq<string>, n: nat) { v.SymReg? ==> !IsEntry(v.name, regs, n) }

  /** The out-states of a segment mention only its own entry symbols, and the function inputs
      are no entry symbols. */
  ghost predicate StatesOwned(g: Graph, c: Config, init: VMState) {
    && (forall b, k, r :: 0 <= b < |g.arms| && 0 <= k < |g.arms[b]| && r in g.arms[b][k].state ==>
          OwnSymbols(g.arms[b][k].state[r], c.trackedRegs, |g.vpcs|, b))
    && (forall r :: r in c.trackedRegs ==> FreeOfEntries(Lookup(init, r), c.trackedRegs, |g.vpcs|))
    && (forall r :: r in c.trackedRegs ==> FreeOfEntries(SymReg(r), c.trackedRegs, |g.vpcs|))
  }

  /** `m` maps the entry symbols of the first `n` blocks to their immediate definitions. */
  ghost predicate Defines(m: Subst, g: Graph, c: Config, init: VMState, base: nat, n: nat) {
    && (forall name :: name in m <==> IsEntry(name, c.trackedRegs, n))
    && forall r, b: nat :: r in c.trackedRegs && b < n ==> m[EntrySym(r, b)] == TargetOf(g, c, init, base, b, r)
  }

  /** `out` maps every entry symbol to its definition: the immediate one, or what that stands
      for in turn. No definition is an entry symbol. */
  ghost predicate Definitions(out: Subst, g: Graph, c: Config, init: VMState, base: nat) {
    && (forall name :: name in out <==> IsEntry(name, c.trackedRegs, |g.vpcs|))
    && (forall name :: name in out ==> !IsKey(out[name], out))
    && forall r, b: nat :: r in c.trackedRegs && b < |g.vpcs| ==>
         out[EntrySym(r, b)] == Substitute(TargetOf(g, c, init, base, b, r), out)
  }

  /** The block that an entry symbol belongs to. */
  ghost function EntryBlock(name: string, regs: seq<string>, n: nat): (b: nat)
    requires IsEntry(name, regs, n)
    ensures b < n && Own(name, regs, b)
  {
    var r, b: nat :| r in regs && b < n && name == EntrySym(r, b);
    b
  }

  lemma OwnBlock(name: string, regs: seq<string>, n: nat, b: nat)
    requires Own(name, regs, b) && b < n
    ensures IsEntry(name, regs, n) && EntryBlock(name, regs, n) == b
  {
    var r :| r in regs && name == EntrySym(r, b);
    assert IsEntry(name, regs, n);
    var b' := EntryBlock(name, regs, n);
    var r' :| r' in regs && name == EntrySym(r', b');
    EntrySymInjective(r, b, r', b');
  }

  ghost function BlockRank(m: Subst, regs: seq<string>, n: nat): map<string, nat>
    requires forall name :: name in m ==> IsEntry(name, regs, n)
  {
    map name | name in m :: EntryBlock(name, regs, n)
  }

  /** One step of a chain leads to an earlier block: the first recorded incoming edge of a block
      comes from a block processed strictly earlier. */
  lemma StepsGoEarlier(g: Graph, c: Config, init: VMState, base: nat, b: nat, r: string)
    requires Sound(g) && StatesOwned(g, c, init) && b < |g.vpcs| && r in c.trackedRegs
    ensures var v := TargetOf(g, c, init, base, b, r);
            v.SymReg? && IsEntry(v.name, c.trackedRegs, |g.vpcs|) ==> EntryBlock(v.name, c.trackedRegs, |g.vpcs|) < b
  {
    hide IsEntry, Own, EntryBlock, ArmsMatch, Distinct, Shaped, PhisOf;
    var v := TargetOf(g, c, init, base, b, r);
    if v.SymReg? && IsEntry(v.name, c.trackedRegs, |g.vpcs|) && b > 0 {
      assert BornEarlier(g, b);
      var k := IncomingArm(g.arms, |g.arms|, b, 0);
      var p := In(g, b)[0].pred;
      OwnBlock(v.name, c.trackedRegs, |g.vpcs|, p);
    }
  }

  lemma DefinesRanked(m: Subst, g: Graph, c: Config, init: VMState, base: nat)
    requires Sound(g) && StatesOwned(g, c, init) && Defines(m, g, c, init, base, |g.vpcs|)
    ensures Ranked(m, BlockRank(m, c.trackedRegs, |g.vpcs|))
  {
    hide IsEntry, EntryBlock, Sound, StatesOwned, TargetOf;
    forall k | k in m && IsKey(m[k], m)
      ensures EntryBlock(m[k].name, c.trackedRegs, |g.vpcs|) < EntryBlock(k, c.trackedRegs, |g.vpcs|)
    {
      var b := EntryBlock(k, c.trackedRegs, |g.vpcs|);
      var r :| r in c.trackedRegs && k == EntrySym(r, b);
      StepsGoEarlier(g, c, init, base, b, r);
    }
  }

  lemma ResolvedDefinitions(m: Subst, out: Subst, g: Graph, c: Config, init: VMState, base: nat)
    requires Defines(m, g, c, init, base, |g.vpcs|) && Resolved(m, out)
    ensures Definitions(out, g, c, init, base)
  {
    hide TargetOf;
    forall r, b: nat | r in c.trackedRegs && b < |g.vpcs|
      ensures EntrySym(r, b) in m && out[EntrySym(r, b)] == Substitute(TargetOf(g, c, init, base, b, r), out)
    {
      assert IsEntry(EntrySym(r, b), c.trackedRegs, |g.vpcs|);
    }
  }

  // ----- the rewrite -----

  function RewriteValues(vs: seq<Value>, m: Subst): (r: seq<Value>)
    ensures |r| == |vs|
  {
    seq(|vs|, k requires 0 <= k < |vs| => Substitute(vs[k], m))
  }

  function RewriteInstr(ins: Instruction, m: Subst): Instruction { ins.(operands := RewriteValues(ins.operands, m)) }

  function RewriteTrace(t: Trace, m: Subst): (r: Trace)
    ensures |r| == |t|
  {
    seq(|t|, i requires 0 <= i < |t| => RewriteInstr(t[i], m))
  }

  function RewriteInputs(ins: seq<PhiInput>, m: Subst): (r: seq<PhiInput>)
    ensures |r| == |ins|
  {
    seq(|ins|, i requires 0 <= i < |ins| => ins[i].(value := Substitute(ins[i].value, m)))
  }

  function RewritePhis(phis: seq<PhiNode>, m: Subst): (r: seq<PhiNode>)
    ensures |r| == |phis|
  {
    seq(|phis|, j requires 0 <= j < |phis| => phis[j].(incoming := RewriteInputs(phis[j].incoming, m)))
  }

  function RewriteTerm(t: Terminator, m: Subst): Terminator {
    if t.condition.Some? then t.(condition := Some(Substitute(t.condition.value, m))) else t
  }

  function RewriteBlock(bb: BasicBlock, m: Subst): BasicBlock {
    BasicBlock(bb.id, RewritePhis(bb.phis, m), RewriteTrace(bb.instrs, m), RewriteTerm(bb.term, m))
  }

  function RewriteBlocks(blocks: seq<BasicBlock>, m: Subst): (r: seq<BasicBlock>)
    ensures |r| == |blocks|
  {
    seq(|blocks|, b requires 0 <= b < |blocks| => RewriteBlock(blocks[b], m))
  }

  /** No value of the block is an entry symbol. */
  ghost predicate EntryFree(bb: BasicBlock, m: Subst) {
    && (forall i, k :: 0 <= i < |bb.instrs| && 0 <= k < |bb.instrs[i].operands| ==> !IsKey(bb.instrs[i].operands[k], m))
    && (forall j, i :: 0 <= j < |bb.phis| && 0 <= i < |bb.phis[j].incoming| ==> !IsKey(bb.phis[j].incoming[i].value, m))
    && (bb.term.condition.Some? ==> !IsKey(bb.term.condition.value, m))
  }

  /** No entry symbol survives the rewrite, in any instruction, phi or terminator. */
  lemma NoEntrySymbolSurvives(blocks: seq<BasicBlock>, out: Subst, g: Graph, c: Config, init: VMState, base: nat,
                              b: nat)
    requires Definitions(out, g, c, init, base) && b < |blocks|
    ensures EntryFree(RewriteBlocks(blocks, out)[b], out)
    ensures forall name :: name in out <==> IsEntry(name, c.trackedRegs, |g.vpcs|)
  {
    hide TargetOf, IsEntry;
  }

  method RewriteBlockValues(bb: BasicBlock, m: Subst) returns (r: BasicBlock)
    ensures r == RewriteBlock(bb, m)
  {
    hide Substitute;
    r := bb;
    for i := 0 to |r.instrs|
      invariant r == bb.(instrs := r.instrs) && |r.instrs| == |bb.instrs|
      invariant forall k :: 0 <= k < i ==> r.instrs[k] == RewriteInstr(bb.instrs[k], m)
      invariant forall k :: i <= k < |bb.instrs| ==> r.instrs[k] == bb.instrs[k]
    {
      var ops := r.instrs[i].operands;
      for k := 0 to |ops|
        invariant |ops| == |r.instrs[i].operands|
        invariant forall j :: 0 <= j < k ==> ops[j] == Substitute(r.instrs[i].operands[j], m)
        invariant forall j :: k <= j < |ops| ==> ops[j] == r.instrs[i].operands[j]
      {
        ops := ops[k := Substitute(ops[k], m)];
      }
      assert ops == RewriteValues(r.instrs[i].operands, m);
      r := r.(instrs := r.instrs[i := r.instrs[i].(operands := ops)]);
    }
    assert r.instrs == RewriteTrace(bb.instrs, m);
    var phis := RewritePhiValues(bb.phis, m);
    r := r.(phis := phis);
    if r.term.condition.Some? { r := r.(term := r.term.(condition := Some(Substitute(r.term.condition.value, m)))); }
  }

  method RewritePhiValues(phis: seq<PhiNode>, m: Subst) returns (r: seq<PhiNode>)
    ensures r == RewritePhis(phis, m)
  {
    hide Substitute;
    r := phis;
    for j := 0 to |r|
      invariant |r| == |phis|
      invariant forall k :: 0 <= k < j ==> r[k] == phis[k].(incoming := RewriteInputs(phis[k].incoming, m))
      invariant forall k :: j <= k < |phis| ==> r[k] == phis[k]
    {
      var ins := r[j].incoming;
      for i := 0 to |ins|
        invariant |ins| == |r[j].incoming|
        invariant forall k :: 0 <= k < i ==> ins[k] == r[j].incoming[k].(value := Substitute(r[j].incoming[k].value, m))
        invariant forall k :: i <= k < |ins| ==> ins[k] == r[j].incoming[k]
      {
        ins := ins[i := ins[i].(value := Substitute(ins[i].value, m))];
      }
      assert ins == RewriteInputs(r[j].incoming, m);
      r := r[j := r[j].(incoming := ins)];
    }
  }

  // ----- the whole recovery -----

  /** The immediate definitions, block by block and register by register. */
  method BuildSubst(w: Worklist, c: Config, init: VMState, base: nat, ghost g: Graph) returns (m: Subst)
    requires w.cfg.Valid() && Received(w.incoming, g) && w.cfg.entryBlock == 0
    requires w.cfg.blocks == PhiBlocks(g, c.trackedRegs, base)
    ensures Defines(m, g, c, init, base, |g.vpcs|)
  {
    hide TargetOf, PhisOf, In, IsEntry, FirstPhi, Received, BlockOf, EntrySym;
    m := map[];
    NoEntries(c.trackedRegs);
    for b := 0 to |w.cfg.blocks|
      invariant Defines(m, g, c, init, base, b)
    {
      ghost var before := m;
      var bb := w.cfg.blocks[b];
      var ins := if bb.id in w.incoming then w.incoming[bb.id] else [];
      InRecorded(w.incoming, g, b);
      assert bb == PhiBlock(g, c.trackedRegs, base, b);
      for k := 0 to |c.trackedRegs|
        invariant DefinesMore(before, m, g, c, init, base, b, k)
      {
        var r := c.trackedRegs[k];
        var phi := FirstPhi(bb.phis, r);
        var target := SymReg(r);
        if phi.Some? {
          target := InstrRef(phi.value);
        } else if bb.id == w.cfg.entryBlock {
          if r in init { target := init[r]; }
        } else if |ins| > 0 {
          if r in ins[0].state { target := ins[0].state[r]; }
        }
        TargetIs(g, c, init, base, b, r, target);
        DefinesNext(before, m, g, c, init, base, b, k);
        m := m[EntrySym(r, b) := target];
      }
      DefinesAll(before, m, g, c, init, base, b);
    }
  }

  lemma NoEntries(regs: seq<string>)
    ensures forall name :: !IsEntry(name, regs, 0)
  {}

  lemma TargetIs(g: Graph, c: Config, init: VMState, base: nat, b: nat, r: string, v: Value)
    requires var phi := FirstPhi(PhisOf(g, c.trackedRegs, base, b), r);
             v == if phi.Some? then InstrRef(phi.value)
                  else if b == 0 then (if r in init then init[r] else SymReg(r))
                  else if |In(g, b)| > 0 then (if r in In(g, b)[0].state then In(g, b)[0].state[r] else SymReg(r))
                  else SymReg(r)
    ensures v == TargetOf(g, c, init, base, b, r)
  {
    hide PhisOf, FirstPhi, In;
  }

  /** `m` adds to `before` the definitions of the first `k` registers of block `b`. */
  ghost predicate DefinesMore(before: Subst, m: Subst, g: Graph, c: Config, init: VMState, base: nat, b: nat, k: nat) {
    && k <= |c.trackedRegs|
    && (forall name :: name in m <==> name in before || Own(name, c.trackedRegs[..k], b))
    && (forall name :: name in before && !Own(name, c.trackedRegs[..k], b) ==> m[name] == before[name])
    && (forall r :: r in c.trackedRegs[..k] ==>
          EntrySym(r, b) in m && m[EntrySym(r, b)] == TargetOf(g, c, init, base, b, r))
  }

  lemma DefinesNext(before: Subst, m: Subst, g: Graph, c: Config, init: VMState, base: nat, b: nat, k: nat)
    requires k < |c.trackedRegs| && DefinesMore(before, m, g, c, init, base, b, k)
    ensures var r := c.trackedRegs[k];
            DefinesMore(before, m[EntrySym(r, b) := TargetOf(g, c, init, base, b, r)], g, c, init, base, b, k + 1)
  {
    hide TargetOf, EntrySym;
    var r := c.trackedRegs[k];
    assert forall x :: x in c.trackedRegs[..k + 1] <==> x in c.trackedRegs[..k] || x == r;
    forall x | x in c.trackedRegs[..k + 1] && EntrySym(x, b) == EntrySym(r, b) ensures x == r {
      EntrySymInjective(x, b, r, b);
    }
  }

  lemma DefinesAll(before: Subst, m: Subst, g: Graph, c: Config, init: VMState, base: nat, b: nat)
    requires Defines(before, g, c, init, base, b) && DefinesMore(before, m, g, c, init, base, b, |c.trackedRegs|)
    ensures Defines(m, g, c, init, base, b + 1)
  {
    hide TargetOf, EntrySym;
    var regs := c.trackedRegs;
    assert regs[..|regs|] == regs;
    forall name ensures IsEntry(name, regs, b + 1) <==> IsEntry(name, regs, b) || Own(name, regs, b) {}
    forall r, d: nat | r in regs && d < b + 1
      ensures EntrySym(r, d) in m && m[EntrySym(r, d)] == TargetOf(g, c, init, base, d, r)
    {
      if d < b {
        assert IsEntry(EntrySym(r, d), regs, b);
        if Own(EntrySym(r, d), regs, b) {
          var x :| x in regs && EntrySym(r, d) == EntrySym(x, b);
          EntrySymInjective(r, d, x, b);
        }
      }
    }
  }

  /** The recovered blocks. In full-SSA mode `subst` gives the definitions of the entry symbols. */
  function RecoveredBlocks(g: Graph, c: Config, tracked: seq<string>, base: nat, subst: Subst): seq<BasicBlock> {
    if c.FullSsa() then RewriteBlocks(PhiBlocks(g, tracked, base), subst) else PhiBlocks(g, tracked, base)
  }

  method RewriteAll(cfg: CFGFunction, subst: Subst)
    requires cfg.Valid()
    modifies cfg`blocks
    ensures cfg.Valid() && cfg.blocks == RewriteBlocks(old(cfg.blocks), subst)
  {
    hide RewriteTrace, RewritePhis, RewriteTerm;
    var n := |cfg.blocks|;
    for b := 0 to n
      invariant |cfg.blocks| == n && cfg.Valid()
      invariant forall k :: 0 <= k < b ==> cfg.blocks[k] == RewriteBlock(old(cfg.blocks)[k], subst)
      invariant forall k :: b <= k < n ==> cfg.blocks[k] == old(cfg.blocks)[k]
    {
      var bb := RewriteBlockValues(cfg.blocks[b], subst);
      cfg.blocks := cfg.blocks[b := bb];
    }
  }

  /** Multi-path recovery: discovery, phi construction, full-SSA rewrite. For every oracle; when
      segments keep to their own entry symbols the cycle guard of the rewrite never fires and
      every entry symbol gets its definition. `seen` is every VPC that was asked for or named. */
  method Recover(oracle: Oracle, c: Config, init: VMState)
    returns (cfg: CFGFunction, seen: set<Vpc>, ghost g: Graph, ghost tracked: seq<string>, ghost m: nat,
             ghost subst: Subst, ghost guarded: bool)
    ensures fresh(cfg) && cfg.Valid() && cfg.entryBlock == 0
    ensures g == Discover(oracle, c, init) && Sound(g)
    ensures seen == SetOf(g.vpcs)
    ensures Tracks(c, g, tracked) && GreatestId(BlocksOf(g), m)
    ensures cfg.edges == EdgesOf(g)
    ensures cfg.blocks == RecoveredBlocks(g, c, tracked, m + 1, subst)
    ensures c.FullSsa() && StatesOwned(g, c, init) ==> !guarded && Definitions(subst, g, c, init, m + 1)
  {
    hide Drive, EdgesOf, In, BlockOf, Sound, Distinct, See, GrownBlocks, IndexTable, SetOf, Extend, Received,
         PhiBlocks, RewriteBlocks, Definitions, Defines, StatesOwned, Tracks, GreatestId, Explore, Ranked, BlockRank;
    var w := new Worklist(c);
    g := w.Run(oracle, c, init);
    cfg, seen := w.cfg, w.enqueued;
    var regs := TrackedRegs(w, c, g);
    tracked := regs;
    var greatest := MaxResultId(cfg.blocks);
    m := greatest;
    BlocksDone(g);
    ConstructPhis(w, regs, greatest + 1, g);
    subst, guarded := map[], false;
    if c.fullSsa && |c.trackedRegs| > 0 {
      TracksConfigured(c, g, regs);
      var immediate := BuildSubst(w, c, init, greatest + 1, g);
      ghost var rank := RankFor(immediate, g, c, init, greatest + 1);
      var out, fired := ResolveSubst(immediate, rank);
      subst, guarded := out, fired;
      if StatesOwned(g, c, init) { ResolvedDefinitions(immediate, out, g, c, init, greatest + 1); }
      RewriteAll(cfg, out);
    }
  }

  lemma TracksConfigured(c: Config, g: Graph, tracked: seq<string>)
    requires Tracks(c, g, tracked) && |c.trackedRegs| > 0
    ensures tracked == c.trackedRegs
  {}

  ghost function RankFor(m: Subst, g: Graph, c: Config, init: VMState, base: nat): (rank: map<string, nat>)
    requires Sound(g) && Defines(m, g, c, init, base, |g.vpcs|)
    ensures StatesOwned(g, c, init) ==> Ranked(m, rank)
  {
    hide StatesOwned, Sound, IsEntry, TargetOf;
    if StatesOwned(g, c, init) then DefinesRanked(m, g, c, init, base); BlockRank(m, c.trackedRegs, |g.vpcs|) else map[]
  }
}
