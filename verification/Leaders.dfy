/** Native CFG recovery: block leaders found by repeated recovery until no pass discovers another.
    The decoder, the lifter and the resolution of branch targets are abstract. */
module Leaders {
  import opened Ir
  import opened Cfg
  import opened Recovery
  import opened RecoveryRun
  import opened Phi
  import opened FullSsa
  import opened GraphFacts
  import opened Drives
  import Collections

  datatype InsnKind = Plain | Return | Transfer

  /** One decoded instruction, its address, and the address after it. */
  datatype Native = Native(addr: Vpc, kind: InsnKind, after: Vpc)

  /** What the terminator of a segment resolves to. */
  datatype Outcome = Outcome(condition: Option<Value>, target: Option<Vpc>)

  /** The window decoded at an address; what lifting its first instructions yields; and what the
      last one of them branches to. */
  datatype Code = Code(window: Vpc -> seq<Native>, lift: (Vpc, VMState, nat) -> (Trace, VMState),
                       outcome: (Vpc, VMState, nat) -> Outcome)

  const MAX_STEPS := 8000
  const MAX_PASSES := 64

  // ----- one segment -----

  datatype Why = HitLeader(leader: Vpc) | HitReturn | HitTransfer | Exhausted

  /** How many instructions are lifted, and why lifting stops. */
  datatype Scanned = Scanned(count: nat, why: Why)

  function Scan(w: seq<Native>, start: Vpc, leaders: set<Vpc>, i: nat): (r: Scanned)
    requires i <= |w|
    ensures i <= r.count <= |w|
    ensures r.why.HitReturn? || r.why.HitTransfer? ==> i < r.count
    decreases |w| - i
  {
    if i == |w| then Scanned(i, Exhausted)
    else if w[i].addr != start && w[i].addr in leaders then Scanned(i, HitLeader(w[i].addr))
    else if w[i].kind.Return? then Scanned(i + 1, HitReturn)
    else if w[i].kind.Transfer? || i + 1 >= MAX_STEPS then Scanned(i + 1, HitTransfer)
    else Scan(w, start, leaders, i + 1)
  }

  method ScanWindow(w: seq<Native>, start: Vpc, leaders: set<Vpc>) returns (r: Scanned)
    ensures r == Scan(w, start, leaders, 0)
  {
    var steps := 0;
    for i := 0 to |w|
      invariant steps == i && Scan(w, start, leaders, i) == Scan(w, start, leaders, 0)
    {
      var iaddr := w[i].addr;
      if iaddr != start && iaddr in leaders { return Scanned(i, HitLeader(iaddr)); }
      steps := steps + 1;
      if w[i].kind.Return? { return Scanned(steps, HitReturn); }
      if w[i].kind.Transfer? { return Scanned(steps, HitTransfer); }
      if steps >= MAX_STEPS { return Scanned(steps, HitTransfer); }
    }
    return Scanned(|w|, Exhausted);
  }

  /** The segment that starts at `va`, cut at the leaders. */
  function NativeSegment(code: Code, leaders: set<Vpc>, va: Vpc, state: VMState): SegmentResult {
    var w := code.window(va);
    var s := Scan(w, va, leaders, 0);
    var (trace, out) := code.lift(va, state, s.count);
    var plain := SegmentResult(Unresolved, trace, None, None, map[], None, None, None, map[], map[]);
    match s.why
    case HitReturn => plain.(kind := Ret, outState := out)
    case HitLeader(leader) => plain.(kind := Goto, nextVpc := Some(leader), outState := out)
    case HitTransfer =>
      var o := code.outcome(va, state, s.count);
      if o.target.None? then plain
      else if o.condition.Some? then
        plain.(kind := Branch, condition := o.condition, vpcTaken := o.target,
               vpcNotTaken := Some(w[s.count - 1].after), outTaken := out, outNotTaken := out)
      else plain.(kind := Goto, nextVpc := o.target, outState := out)
    case Exhausted => plain
  }

  function NativeOracle(code: Code, leaders: set<Vpc>): Oracle {
    (va, state) => NativeSegment(code, leaders, va, state)
  }

  function NativeConfig(entry: Vpc, maxBlocks: int): Config { Config(entry, maxBlocks, [], false) }

  /** The instructions of the block that starts at `va`. */
  function Run(code: Code, leaders: set<Vpc>, va: Vpc): seq<Native> {
    code.window(va)[..Scan(code.window(va), va, leaders, 0).count]
  }

  // ----- what a pass discovers -----

  /** The targets that the oracle names while the graph is discovered. */
  ghost predicate Named(g: Graph, v: Vpc) {
    exists b, k :: 0 <= b < |g.results| && 0 <= k < |Exits(g.results[b])| && Exits(g.results[b])[k].vpc == v
  }

  /** The VPCs seen by the worklist are the entry and the targets named. */
  lemma SeenAreNamed(g: Graph, v: Vpc)
    requires Sound(g)
    ensures v in SetOf(g.vpcs) <==> v == g.vpcs[0] || Named(g, v)
  {
    hide Exits, Distinct;
    if v in SetOf(g.vpcs) && v != g.vpcs[0] {
      var s :| 0 < s < |g.vpcs| && g.vpcs[s] == v;
      assert BornEarlier(g, s);
      var k := IncomingArm(g.arms, |g.arms|, s, 0);
      assert ArmsMatch(g, In(g, s)[0].pred);
    }
    if Named(g, v) {
      var b, k :| 0 <= b < |g.results| && 0 <= k < |Exits(g.results[b])| && Exits(g.results[b])[k].vpc == v;
      assert ArmsMatch(g, b);
    }
  }

  // ----- the fixpoint loop -----

  /** Every pass works with strictly more leaders than the one before. */
  ghost predicate Growing(history: seq<set<Vpc>>) {
    forall i :: 0 < i < |history| ==> history[i - 1] < history[i]
  }

  /** Block `b` is that of `v`. */
  ghost predicate BlockFor(vpcs: seq<Vpc>, b: Option<nat>, v: Vpc) { b.Some? && b.value < |vpcs| && vpcs[b.value] == v }

  /** The terminator of the block whose window is `w`, of which `n` instructions were lifted, with the
      outcome `o`. A conditional transfer goes to its target, or falls through to what follows it. */
  ghost predicate EndsAs(t: Terminator, vpcs: seq<Vpc>, w: seq<Native>, n: nat, o: Outcome)
    requires n <= |w|
  {
    if n > 0 && w[n - 1].kind.Return? then t == Terminator(RETURN, None, None, None)
    else if n > 0 && (w[n - 1].kind.Transfer? || n >= 8000) then
      if o.target.None? then t == Terminator(UNREACHABLE, None, None, None)
      else if o.condition.Some? then
        && t.kind == CJUMP && t.condition == o.condition
        && BlockFor(vpcs, t.target, o.target.value) && BlockFor(vpcs, t.fallthrough, w[n - 1].after)
      else t.kind == JUMP && BlockFor(vpcs, t.target, o.target.value) && t.fallthrough.None? && t.condition.None?
    else if n < |w| then
      t.kind == JUMP && BlockFor(vpcs, t.target, w[n].addr) && t.fallthrough.None? && t.condition.None?
    else t == Terminator(UNREACHABLE, None, None, None)
  }

  /** How many instructions a block has: up to the first that follows a transfer or a return, that is a
      leader other than its start, or that exceeds the limit. */
  ghost predicate Extent(w: seq<Native>, start: Vpc, leaders: set<Vpc>, n: nat) {
    && n <= |w| && n <= 8000
    && (forall k :: 0 <= k < n ==> w[k].addr == start || w[k].addr !in leaders)
    && (forall k :: 0 <= k < n - 1 ==> w[k].kind.Plain?)
    && (|| n == |w| || n == 8000 || (w[n].addr != start && w[n].addr in leaders)
        || (n > 0 && !w[n - 1].kind.Plain?))
  }

  lemma {:induction false} ScanExtent(w: seq<Native>, start: Vpc, leaders: set<Vpc>, i: nat)
    requires i <= |w| && i < 8000
    requires forall k :: 0 <= k < i ==> (w[k].addr == start || w[k].addr !in leaders) && w[k].kind.Plain?
    ensures var s := Scan(w, start, leaders, i);
            && i <= s.count && Extent(w, start, leaders, s.count)
            && (s.why.HitReturn? <==> s.count > i && w[s.count - 1].kind.Return?)
            && (s.why.HitTransfer? <==> s.count > i && !w[s.count - 1].kind.Return?
                                        && (w[s.count - 1].kind.Transfer? || s.count >= 8000))
            && (s.why.HitLeader? ==> s.count < |w| && s.why.leader == w[s.count].addr)
            && (s.why.Exhausted? ==> s.count == |w|)
    decreases |w| - i
  {
    if i < |w| && (w[i].addr == start || w[i].addr !in leaders) && w[i].kind.Plain? && i + 1 < 8000 {
      ScanExtent(w, start, leaders, i + 1);
    }
  }

  /** The run of a block is as long as its extent says, and no other length fits. */
  lemma RunExtent(code: Code, leaders: set<Vpc>, va: Vpc, n: nat)
    ensures n == |Run(code, leaders, va)| <==> Extent(code.window(va), va, leaders, n)
  {
    hide Scan;
    ScanExtent(code.window(va), va, leaders, 0);
  }

  /** What the segment at `va` answers, in terms of its window and its outcome. */
  lemma SegmentEnds(code: Code, leaders: set<Vpc>, va: Vpc, state: VMState, g: Graph, b: nat, t: Terminator)
    requires var r := NativeSegment(code, leaders, va, state);
             TerminatedAs(g, b, r, t.kind, t.target, t.fallthrough) && t.condition == Carried(r)
    ensures var n := |Run(code, leaders, va)|;
            n <= |code.window(va)| && EndsAs(t, g.vpcs, code.window(va), n, code.outcome(va, state, n))
  {
    hide Scan;
    ScanExtent(code.window(va), va, leaders, 0);
  }

  /** Every block holds what lifting the instructions of its scan yields, in the state in which the
      block is entered, and ends as its last instruction says; a block that was not evaluated is empty. */
  ghost predicate BlocksFromScans(blocks: seq<BasicBlock>, code: Code, leaders: set<Vpc>, c: Config, g: Graph) {
    && |blocks| == |g.vpcs|
    && forall b :: 0 <= b < |blocks| ==>
         && blocks[b].id == b
         && (b < |g.results| ==> FromScan(blocks[b], code, leaders, g.vpcs, g.vpcs[b], Drive(c, map[], g, b)))
         && (b >= |g.results| ==>
               blocks[b].instrs == [] && blocks[b].term == Terminator(UNREACHABLE, None, None, None))
  }

  ghost predicate FromScan(bb: BasicBlock, code: Code, leaders: set<Vpc>, vpcs: seq<Vpc>, va: Vpc, state: VMState) {
    var n := |Run(code, leaders, va)|;
    && bb.instrs == code.lift(va, state, n).0
    && n <= |code.window(va)| && EndsAs(bb.term, vpcs, code.window(va), n, code.outcome(va, state, n))
  }

  /** Repeats recovery with the leaders found so far. If the last pass discovered nothing new,
      every block of its graph starts at a leader it was cut by. */
  method RecoverNative(code: Code, entry: Vpc, maxBlocks: int)
    returns (cfg: CFGFunction, fixed: bool, ghost g: Graph, ghost history: seq<set<Vpc>>)
    ensures 0 < |history| <= 64 && Growing(history) && history[0] == {entry}
    ensures g == Discover(NativeOracle(code, history[|history| - 1]), NativeConfig(entry, maxBlocks), map[])
    ensures Sound(g) && g.vpcs[0] == entry && cfg.edges == EdgesOf(g) && |cfg.blocks| == |g.vpcs|
    ensures BlocksFromScans(cfg.blocks, code, history[|history| - 1], NativeConfig(entry, maxBlocks), g)
    ensures forall i :: 0 < i < |history| ==> entry in history[i]
    ensures fixed <==> SetOf(g.vpcs) <= history[|history| - 1]
    ensures !fixed ==> |history| == 64
  {
    hide EdgesOf, Discover, Sound, SetOf, BlockOf, BlocksFromScans, Answers, RecoveredBlocks;
    var leaders := {entry};
    history, g := [], Graph([], [], []);
    fixed := false;
    cfg := new CFGFunction();
    var pass := 0;
    while pass < MAX_PASSES && !fixed
      invariant 0 <= pass <= MAX_PASSES && entry in leaders && |history| == pass
      invariant Growing(history) && (forall i :: 0 <= i < pass ==> entry in history[i])
      invariant pass == 0 ==> leaders == {entry} && !fixed
      invariant pass > 0 ==> history[0] == {entry}
      invariant pass > 0 && !fixed ==> history[pass - 1] < leaders
      invariant pass > 0 ==>
                  && g == Discover(NativeOracle(code, history[pass - 1]), NativeConfig(entry, maxBlocks), map[])
                  && Sound(g) && |g.vpcs| > 0 && g.vpcs[0] == entry
                  && cfg.edges == EdgesOf(g) && |cfg.blocks| == |g.vpcs|
                  && BlocksFromScans(cfg.blocks, code, history[pass - 1], NativeConfig(entry, maxBlocks), g)
                  && (fixed <==> SetOf(g.vpcs) <= history[pass - 1])
      decreases MAX_PASSES - pass
    {
      var oracle := NativeOracle(code, leaders);
      var rc := NativeConfig(entry, maxBlocks);
      var seen;
      ghost var tracked, m, subst, guarded;
      cfg, seen, g, tracked, m, subst, guarded := Recover(oracle, rc, map[]);
      DiscoverSound(oracle, rc, map[]);
      PassFacts(g);
      PassBlocks(code, leaders, rc, g, tracked, m + 1, subst);
      var discovered := leaders + seen;
      history := history + [leaders];
      pass := pass + 1;
      SameSize(leaders, discovered);
      if |discovered| == |leaders| {
        fixed := true;
      } else {
        leaders := discovered;
      }
    }
  }

  lemma PassFacts(g: Graph)
    requires Sound(g)
    ensures |g.vpcs| > 0
    ensures forall c: Config, tracked, base: nat, subst :: |RecoveredBlocks(g, c, tracked, base, subst)| == |g.vpcs|
  {}

  lemma PassBlocks(code: Code, leaders: set<Vpc>, c: Config, g: Graph, tracked: seq<string>, base: nat, subst: Subst)
    requires !c.fullSsa && Sound(g) && Answers(NativeOracle(code, leaders), c, map[], g)
    ensures BlocksFromScans(RecoveredBlocks(g, c, tracked, base, subst), code, leaders, c, g)
  {
    hide Drive, TerminatedAs, EndsAs, NativeSegment, ArmsMatch, BornEarlier, Distinct, TermOf, PhisOf;
    var blocks := RecoveredBlocks(g, c, tracked, base, subst);
    forall b | 0 <= b < |g.results|
      ensures FromScan(blocks[b], code, leaders, g.vpcs, g.vpcs[b], Drive(c, map[], g, b))
    {
      RecoveredTerminated(g, c, tracked, base, subst, b);
      SegmentInstrs(code, leaders, g.vpcs[b], Drive(c, map[], g, b));
      SegmentEnds(code, leaders, g.vpcs[b], Drive(c, map[], g, b), g, b, blocks[b].term);
    }
  }

  lemma SegmentInstrs(code: Code, leaders: set<Vpc>, va: Vpc, state: VMState)
    ensures NativeSegment(code, leaders, va, state).instrs == code.lift(va, state, |Run(code, leaders, va)|).0
  {
    hide Scan;
  }

  /** Every edge carries the registers that lifting the block it leaves yields. */
  lemma EdgesCarryRegs(code: Code, leaders: set<Vpc>, entry: Vpc, maxBlocks: int, s: nat, i: nat) returns (b: nat)
    requires i < |In(Discover(NativeOracle(code, leaders), NativeConfig(entry, maxBlocks), map[]), s)|
    ensures var c := NativeConfig(entry, maxBlocks);
            var g := Discover(NativeOracle(code, leaders), c, map[]);
            && b == In(g, s)[i].pred && b < |g.results| <= |g.vpcs|
            && In(g, s)[i].state
            == code.lift(g.vpcs[b], Drive(c, map[], g, b), |Run(code, leaders, g.vpcs[b])|).1
  {
    hide Discover, Drive, Run, Exits, BornEarlier, Distinct, InUpTo, Continues;
    var c := NativeConfig(entry, maxBlocks);
    var g := Discover(NativeOracle(code, leaders), c, map[]);
    DiscoverSound(NativeOracle(code, leaders), c, map[]);
    var k := IncomingArm(g.arms, |g.arms|, s, i);
    b := In(g, s)[i].pred;
    assert ArmsMatch(g, b);
    ExitsCarry(code, leaders, g.vpcs[b], Drive(c, map[], g, b));
  }

  lemma ExitsCarry(code: Code, leaders: set<Vpc>, va: Vpc, state: VMState)
    ensures forall k :: 0 <= k < |Exits(NativeSegment(code, leaders, va, state))| ==>
              Exits(NativeSegment(code, leaders, va, state))[k].state
              == code.lift(va, state, |Run(code, leaders, va)|).1
  {
    hide Scan;
  }

  /** Comparing sizes decides whether a pass discovered anything. */
  lemma SameSize(leaders: set<Vpc>, discovered: set<Vpc>)
    requires leaders <= discovered
    ensures |discovered| == |leaders| <==> discovered == leaders
  {
    Collections.SubsetSize(discovered - leaders, discovered);
    assert discovered == leaders + (discovered - leaders);
  }

  // ----- what the fixpoint means -----

  lemma {:induction false} ScanAvoids(w: seq<Native>, start: Vpc, leaders: set<Vpc>, i: nat, k: nat)
    requires i <= k < |w| && k < Scan(w, start, leaders, i).count
    ensures w[k].addr != start ==> w[k].addr !in leaders
    ensures k + 1 < Scan(w, start, leaders, i).count ==> w[k].kind.Plain?
    decreases |w| - i
  {
    if i < k { ScanAvoids(w, start, leaders, i + 1, k); }
  }

  /** No block contains a leader strictly inside its instruction run. */
  lemma NoLeaderInside(code: Code, leaders: set<Vpc>, va: Vpc, k: nat)
    requires k < |Run(code, leaders, va)|
    ensures Run(code, leaders, va)[k].addr != va ==> Run(code, leaders, va)[k].addr !in leaders
    ensures k + 1 < |Run(code, leaders, va)| ==> Run(code, leaders, va)[k].kind.Plain?
  {
    ScanAvoids(code.window(va), va, leaders, 0, k);
  }

  /** Windows are straight-line code from their own address. */
  ghost predicate Linear(code: Code, va: Vpc) {
    var w := code.window(va);
    && (|w| > 0 ==> w[0].addr == va)
    && (forall i :: 0 <= i < |w| - 1 ==> w[i].after == w[i + 1].addr)
    && (forall i :: 0 < i < |w| ==> w[i].addr != va)
  }

  /** No two decoded instructions end at the same place without starting at the same place. */
  ghost predicate NoOverlap(code: Code, u: Vpc, v: Vpc) {
    forall i, j :: 0 <= i < |code.window(u)| && 0 <= j < |code.window(v)| ==>
      code.window(u)[i].after == code.window(v)[j].after ==> code.window(u)[i].addr == code.window(v)[j].addr
  }

  lemma {:induction false} SharedGoesBack(code: Code, leaders: set<Vpc>, u: Vpc, v: Vpc, i: nat, j: nat)
    requires Linear(code, u) && Linear(code, v) && NoOverlap(code, u, v) && u in leaders && v in leaders
    requires i < |Run(code, leaders, u)| && j < |Run(code, leaders, v)|
    requires Run(code, leaders, u)[i].addr == Run(code, leaders, v)[j].addr
    ensures u == v
  {
    hide Scan;
    NoLeaderInside(code, leaders, u, i);
    NoLeaderInside(code, leaders, v, j);
    if i > 0 && j > 0 {
      assert code.window(u)[i - 1].after == code.window(v)[j - 1].after;
      SharedGoesBack(code, leaders, u, v, i - 1, j - 1);
    }
  }

  /** At a fixpoint, different blocks cover disjoint instruction addresses, wherever decoding
      does not overlap. */
  lemma BlocksDisjoint(code: Code, leaders: set<Vpc>, g: Graph, b: nat, d: nat, i: nat, j: nat)
    requires Sound(g) && SetOf(g.vpcs) <= leaders && b < |g.vpcs| && d < |g.vpcs| && b != d
    requires Linear(code, g.vpcs[b]) && Linear(code, g.vpcs[d]) && NoOverlap(code, g.vpcs[b], g.vpcs[d])
    requires i < |Run(code, leaders, g.vpcs[b])| && j < |Run(code, leaders, g.vpcs[d])|
    ensures Run(code, leaders, g.vpcs[b])[i].addr != Run(code, leaders, g.vpcs[d])[j].addr
  {
    hide Run, Linear, NoOverlap, ArmsMatch, BornEarlier;
    assert g.vpcs[b] in SetOf(g.vpcs) && g.vpcs[d] in SetOf(g.vpcs);
    if Run(code, leaders, g.vpcs[b])[i].addr == Run(code, leaders, g.vpcs[d])[j].addr {
      SharedGoesBack(code, leaders, g.vpcs[b], g.vpcs[d], i, j);
      assert false;
    }
  }
}
