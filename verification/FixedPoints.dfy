/** What convergence stops at: exactly the traces in which no instruction has a form that some pass
    rewrites, and, with the removing passes, nothing is unneeded. */
module FixedPoints {
  import opened Ir
  import opened Arithmetic
  import opened Machine
  import opened References
  import opened Rewrites
  import opened Removal
  import opened Convergence
  import opened Leftovers
  import DeadCode
  import DeadStore

  // ----- the value-propagating passes -----

  /** Instruction `i` has none of the forms that are rewritten. */
  ghost predicate Plain(g: Trace, i: nat)
    requires Ordered(g) && i < |g|
  {
    && !Foldable(g[i]) && !Combinable(g, g[i]) && !JumpOnConstant(g[i])
    && (forall k, w :: 0 <= k < |g[i].operands| ==> !PassesOn(g, g[i].operands[k], w))
    && forall j: nat :: !ReadsFrom(g, j, i)
  }

  ghost predicate Irreducible(g: Trace)
    requires Ordered(g)
  {
    forall i :: 0 <= i < |g| ==> Plain(g, i)
  }

  lemma ResolvesToItself(g: Trace, v: Value)
    requires Ordered(g)
    ensures Resolve(g, v) == v <==> forall w :: !PassesOn(g, v, w)
  {
    hide Resolve, PassesOn, Ordered;
    var c := ResolveExact(g, v);
    if |c| > 1 { assert PassesOn(g, c[0], c[1]); }
  }

  /** The last of the stores under a load's key, if there is one. */
  lemma {:induction false} SomeReadsFrom(g: Trace, n: nat, i: nat, j: nat)
    requires j < n <= i < |g| && IsStore(g[j]) && IsLoad(g[i]) && SameKey(g[j].operands[0], g[i].operands[0])
    requires forall m :: n <= m < i && IsStore(g[m]) ==> !SameKey(g[m].operands[0], g[i].operands[0])
    ensures exists k: nat :: ReadsFrom(g, k, i)
  {
    if IsStore(g[n - 1]) && SameKey(g[n - 1].operands[0], g[i].operands[0]) {
      assert ReadsFrom(g, n - 1, i);
    } else {
      SomeReadsFrom(g, n - 1, i, j);
    }
  }

  lemma KeptForms(p: LocalPass, g: Trace, i: nat)
    requires Ordered(g) && i < |g| && RewrittenAs(p, g, i, g[i])
    ensures p == ConstPromote ==> forall k, w :: 0 <= k < |g[i].operands| ==> !PassesOn(g, g[i].operands[k], w)
    ensures p == MemForward ==> forall j: nat :: !ReadsFrom(g, j, i)
    ensures p == ConstFold ==> !Foldable(g[i])
    ensures p == InsnCombine ==> !Combinable(g, g[i])
    ensures p == BranchFold ==> !JumpOnConstant(g[i])
  {
    hide Resolve, PassesOn, XorOfAnd, Ordered, Binary, Unary, ShiftDefined, OpName;
    if p == ConstPromote {
      forall k, w | 0 <= k < |g[i].operands| ensures !PassesOn(g, g[i].operands[k], w) {
        ResolvesToItself(g, g[i].operands[k]);
      }
    }
  }

  /** A pass leaves an instruction alone that does not have the forms it rewrites. */
  lemma PlainStays(p: LocalPass, h: Host, g: Trace, i: nat)
    requires Ordered(g) && i < |g| && Plain(g, i)
    ensures RewriteAt(p, h, g, i) == g[i]
  {
    hide Resolve, PassesOn, Combinable, Foldable, Ordered, RewriteAt, ReadsFrom, SameKey;
    RewriteAs(p, h, g, i);
    match p
    case ConstPromote =>
      forall k | 0 <= k < |g[i].operands| ensures Resolve(g, g[i].operands[k]) == g[i].operands[k] {
        ResolvesToItself(g, g[i].operands[k]);
      }
      assert RewriteAt(p, h, g, i).operands == g[i].operands;
    case MemForward =>
      forall j | 0 <= j < i && IsStore(g[j]) && IsLoad(g[i]) ensures !SameKey(g[j].operands[0], g[i].operands[0]) {
        if SameKey(g[j].operands[0], g[i].operands[0]) { SomeReadsFrom(g, i, i, j); }
      }
    case _ =>
  }

  lemma {:induction false} PlainTrace(p: LocalPass, h: Host, g: Trace, n: nat)
    requires WellFormed(g) && Ordered(g) && Irreducible(g) && n <= |g|
    ensures ApplyTo(p, h, g, n) == g
  {
    hide RewriteAt, WellFormed, Plain, Ordered;
    if n > 0 {
      PlainTrace(p, h, g, n - 1);
      PlainStays(p, h, g, n - 1);
    }
  }

  lemma UnchangedForms(p: LocalPass, h: Host, g: Trace, i: nat)
    requires WellFormed(g) && i < |g| && Apply(p, h, g) == g
    ensures Ordered(g) && RewrittenAs(p, g, i, g[i])
  {
    hide WellFormed, Apply, RewrittenAs, Ordered;
    OrderedOf(g);
    var t := PassExact(p, h, g, i);
    assert t == t[..i] + t[i..] && g == g[..i] + g[i..];
  }

  lemma FormsGone(p: LocalPass, h: Host, g: Trace, i: nat)
    requires WellFormed(g) && Ordered(g) && i < |g| && Apply(p, h, g) == g
    ensures p == ConstPromote ==> forall k, w :: 0 <= k < |g[i].operands| ==> !PassesOn(g, g[i].operands[k], w)
    ensures p == MemForward ==> forall j: nat :: !ReadsFrom(g, j, i)
    ensures p == ConstFold ==> !Foldable(g[i])
    ensures p == InsnCombine ==> !Combinable(g, g[i])
    ensures p == BranchFold ==> !JumpOnConstant(g[i])
  {
    hide *;
    UnchangedForms(p, h, g, i);
    KeptForms(p, g, i);
  }

  /** No local pass changes the trace if and only if no instruction has a form that one of them rewrites. */
  lemma LocalsExact(h: Host, g: Trace)
    requires WellFormed(g) && Ordered(g)
    ensures Irreducible(g) <==> forall p: LocalPass :: Apply(p, h, g) == g
  {
    hide WellFormed, ApplyTo, Foldable, Combinable, JumpOnConstant, PassesOn, ReadsFrom, RewrittenAs, Ordered;
    if Irreducible(g) {
      forall p: LocalPass ensures Apply(p, h, g) == g { PlainTrace(p, h, g, |g|); }
    }
    if forall p: LocalPass :: Apply(p, h, g) == g {
      forall i | 0 <= i < |g| ensures Plain(g, i) {
        FormsGone(ConstPromote, h, g, i);
        FormsGone(MemForward, h, g, i);
        FormsGone(ConstFold, h, g, i);
        FormsGone(InsnCombine, h, g, i);
        FormsGone(BranchFold, h, g, i);
      }
    }
  }

  lemma FoldTableLocals(h: Host, g: Trace)
    requires WellFormed(g)
    ensures FixedPoint(FOLD_PASSES, h, g) <==> forall p: LocalPass :: Apply(p, h, g) == g
  {
    hide WellFormed, Apply;
    assert FOLD_PASSES[0] == Local(ConstPromote) && FOLD_PASSES[1] == Local(MemForward);
    assert FOLD_PASSES[3] == Local(ConstFold) && FOLD_PASSES[4] == Local(InsnCombine);
    assert FOLD_PASSES[5] == Local(BranchFold);
    if FixedPoint(FOLD_PASSES, h, g) {
      forall p: LocalPass ensures Apply(p, h, g) == g {
        assert Local(p) in FOLD_PASSES by {
          match p case ConstPromote => case MemForward => case ConstFold => case InsnCombine => case BranchFold =>
        }
        assert ApplyPass(Local(p), h, g) == g;
      }
    }
  }

  /** The fixed points of the fold passes, exactly. */
  lemma FoldFixedPointExact(h: Host, g: Trace)
    requires WellFormed(g)
    ensures Ordered(g) && (FixedPoint(FOLD_PASSES, h, g) <==> Irreducible(g))
  {
    hide WellFormed, FixedPoint, Irreducible, Apply, Ordered;
    OrderedOf(g);
    FoldTableLocals(h, g);
    LocalsExact(h, g);
  }

  // ----- with the removing passes -----

  ghost predicate ReferredTo(g: Trace, id: nat) {
    exists j, k :: 0 <= j < |g| && 0 <= k < |g[j].operands| && g[j].operands[k] == InstrRef(id)
  }

  /** An access with `n` operands or more to the constant address `c`, annotated as private to the VM. */
  predicate PrivateAt(d: Instruction, op: Op, n: nat, c: Word) {
    && d.op == op && "vm_private" in d.annotations && d.annotations["vm_private"] == "1"
    && |d.operands| >= n && |d.operands| > 0 && d.operands[0].Const? && d.operands[0].value == c
  }

  /** A private load reads `c` after position `i` before another private store writes it. */
  ghost predicate ReadBack(g: Trace, i: nat, c: Word) {
    exists j :: i < j < |g| && PrivateAt(g[j], LOAD, 1, c)
             && forall m :: i < m < j ==> !PrivateAt(g[m], STORE, 2, c)
  }

  /** No private store at a constant address, or one that is read back. */
  ghost predicate StoreNeeded(g: Trace, i: nat)
    requires i < |g|
  {
    forall c :: PrivateAt(g[i], STORE, 2, c) ==> ReadBack(g, i, c)
  }

  /** Seen from outside, or referred to. */
  ghost predicate ResultNeeded(g: Trace, i: nat)
    requires i < |g|
  {
    g[i].op in {STORE, CALL, RET, JMP, CJMP} || ReferredTo(g, g[i].resultId)
  }

  ghost predicate Needed(g: Trace, i: nat)
    requires i < |g|
  {
    StoreNeeded(g, i) && ResultNeeded(g, i)
  }

  ghost predicate AllNeeded(g: Trace) { forall i :: 0 <= i < |g| ==> Needed(g, i) }

  lemma LayerKept(g: Trace, i: nat)
    requires i < |g|
    ensures DeadCode.LayerKeep(g)[i] <==> ResultNeeded(g, i)
  {
    hide DeadCode.Referenced;
    DeadCode.ReferencedBy(g, |g|, g[i].resultId);
    if ReferredTo(g, g[i].resultId) {
      var j, k :| 0 <= j < |g| && 0 <= k < |g[j].operands| && g[j].operands[k] == InstrRef(g[i].resultId);
      assert g[j].operands[k].id in DeadCode.Refs(g[j]);
    }
  }

  lemma PrivateForms(d: Instruction, c: Word)
    ensures DeadStore.LoadsFrom(d, c) <==> PrivateAt(d, LOAD, 1, c)
    ensures DeadStore.StoresTo(d, c) <==> PrivateAt(d, STORE, 2, c)
  {}

  lemma StoreKept(g: Trace, i: nat)
    requires i < |g|
    ensures DeadStore.StoreKeep(g)[i] <==> StoreNeeded(g, i)
  {
    hide PrivateAt, DeadStore.PrivateLoad, DeadStore.StoreKeep, DeadStore.LoadsFrom, DeadStore.StoresTo;
    DeadStore.StoreKeptExactly(g, i);
    forall c
      ensures DeadStore.StoresTo(g[i], c) <==> PrivateAt(g[i], STORE, 2, c)
      ensures DeadStore.ReadNext(g, i + 1, c) <==> ReadBack(g, i, c)
    {
      forall j | 0 <= j < |g|
        ensures DeadStore.LoadsFrom(g[j], c) <==> PrivateAt(g[j], LOAD, 1, c)
        ensures DeadStore.StoresTo(g[j], c) <==> PrivateAt(g[j], STORE, 2, c)
      {
        PrivateForms(g[j], c);
      }
    }
    StoreAddress(g[i]);
  }

  lemma StoreAddress(d: Instruction)
    ensures DeadStore.PrivateStore(d) <==> exists c :: DeadStore.StoresTo(d, c)
    ensures DeadStore.PrivateStore(d) ==> forall c :: DeadStore.StoresTo(d, c) <==> c == d.operands[0].value
  {
    hide Private;
    if DeadStore.PrivateStore(d) { assert DeadStore.StoresTo(d, d.operands[0].value); }
  }

  /** `r` consists of the instructions of `g` at the positions `at`, in order. */
  ghost predicate TakenFrom(g: Trace, r: Trace, at: seq<nat>) {
    && |at| == |r| && (forall j, k :: 0 <= j < k < |at| ==> at[j] < at[k])
    && forall k :: 0 <= k < |r| ==> at[k] < |g| && r[k] == g[at[k]]
  }

  lemma {:induction false} SiftPositions(g: Trace, keep: seq<bool>) returns (at: seq<nat>)
    requires |keep| == |g|
    ensures TakenFrom(g, Sift(g, keep), at) && forall i: nat :: i in at <==> i < |g| && keep[i]
  {
    at := [];
    if |g| > 0 {
      var n := |g| - 1;
      at := SiftPositions(g[..n], keep[..n]);
      if keep[n] { at := at + [n]; }
    }
  }

  /** Dead-store elimination keeps exactly the instructions that are no private store, or one that is read
      back, in order. */
  lemma DropStoresExact(g: Trace) returns (at: seq<nat>)
    ensures TakenFrom(g, DeadStore.DropStores(g), at)
    ensures forall i: nat :: i in at <==> i < |g| && StoreNeeded(g, i)
  {
    hide DeadStore.StoreKeep, StoreNeeded, Sift;
    at := SiftPositions(g, DeadStore.StoreKeep(g));
    forall i: nat | i < |g| ensures DeadStore.StoreKeep(g)[i] <==> StoreNeeded(g, i) { StoreKept(g, i); }
  }

  /** One layer of dead-code removal keeps exactly those that are seen from outside or referred to. */
  lemma DropLayerExact(g: Trace) returns (at: seq<nat>)
    ensures TakenFrom(g, DeadCode.DropLayer(g), at)
    ensures forall i: nat :: i in at <==> i < |g| && ResultNeeded(g, i)
  {
    hide DeadCode.LayerKeep, ResultNeeded, Sift;
    at := SiftPositions(g, DeadCode.LayerKeep(g));
    forall i: nat | i < |g| ensures DeadCode.LayerKeep(g)[i] <==> ResultNeeded(g, i) { LayerKept(g, i); }
  }

  /** Along the positions `c`, from something seen from outside to `i`, each result is an operand of the
      instruction before. */
  ghost predicate Feeds(g: Trace, c: seq<nat>, i: nat) {
    && |c| > 0 && c[|c| - 1] == i && (forall k :: 0 <= k < |c| ==> c[k] < |g|)
    && g[c[0]].op in {STORE, CALL, RET, JMP, CJMP}
    && forall k :: 0 <= k < |c| - 1 ==> InstrRef(g[c[k + 1]].resultId) in g[c[k]].operands
  }

  lemma {:induction false} FedReached(g: Trace, r: set<nat>, c: seq<nat>, i: nat)
    requires Ordered(g) && DeadCode.Closed(g, r) && Feeds(g, c, i)
    ensures g[i].resultId in r
  {
    hide IndexMap, Def, Ordered;
    if |c| > 1 {
      var d, n := c[..|c| - 1], |c| - 2;
      FedReached(g, r, d, c[n]);
      DefAt(g, c[n]);
      var k :| 0 <= k < |g[c[n]].operands| && g[c[n]].operands[k] == InstrRef(g[c[n + 1]].resultId);
      assert g[c[n]].operands[k].id in DeadCode.Refs(g[c[n]]);
    }
  }

  ghost predicate Fed(g: Trace, i: nat) { exists c :: Feeds(g, c, i) }

  lemma FedNext(g: Trace, i: nat, j: nat)
    requires i < |g| && j < |g| && Fed(g, i) && InstrRef(g[j].resultId) in g[i].operands
    ensures Fed(g, j)
  {
    var c :| Feeds(g, c, i);
    assert Feeds(g, c + [j], j);
  }

  /** The reachability pass keeps exactly the instructions that feed something seen from outside. */
  lemma ReachedExact(g: Trace, r: set<nat>, i: nat)
    requires Ordered(g) && DeadCode.Reachable(g, r) && i < |g|
    ensures g[i].resultId in r <==> Fed(g, i)
  {
    hide IndexMap, Def, Ordered, Feeds;
    var t := set id | id in r && forall j :: 0 <= j < |g| && g[j].resultId == id ==> Fed(g, j);
    forall j | 0 <= j < |g| && SideEffectful(g[j].op) ensures g[j].resultId in t {
      forall k | 0 <= k < |g| && g[k].resultId == g[j].resultId ensures Fed(g, k) {
        SamePosition(g, j, k);
        EffectFed(g, k);
      }
    }
    forall id | id in t && Def(g, id).Some? ensures DeadCode.Refs(Def(g, id).value) <= t {
      var j := DefPosition(g, id);
      forall x | x in DeadCode.Refs(g[j]) ensures x in t {
        forall k | 0 <= k < |g| && g[k].resultId == x ensures Fed(g, k) { FedNext(g, j, k); }
      }
    }
    assert DeadCode.Closed(g, t);
    if c :| Feeds(g, c, i) { FedReached(g, r, c, i); }
  }

  lemma SamePosition(g: Trace, j: nat, k: nat)
    requires Ordered(g) && j < |g| && k < |g| && g[j].resultId == g[k].resultId
    ensures j == k
  {}

  lemma EffectFed(g: Trace, i: nat)
    requires i < |g| && SideEffectful(g[i].op)
    ensures Fed(g, i)
  {
    assert Feeds(g, [i], i);
  }

  lemma DropUnreachedExact(g: Trace, r: set<nat>) returns (at: seq<nat>)
    requires Ordered(g) && DeadCode.Reachable(g, r)
    ensures TakenFrom(g, DeadCode.DropUnreached(g, r), at)
    ensures forall i: nat :: i in at <==> i < |g| && Fed(g, i)
  {
    hide DeadCode.Reachable, Fed, Sift, Ordered;
    at := SiftPositions(g, DeadCode.ReachKeep(g, r));
    forall i: nat | i < |g| ensures DeadCode.ReachKeep(g, r)[i] <==> Fed(g, i) {
      ReachedExact(g, r, i);
      if SideEffectful(g[i].op) { EffectFed(g, i); }
    }
  }

  lemma RemovalsExact(g: Trace)
    ensures AllNeeded(g) <==> DeadCode.DropLayer(g) == g && DeadStore.DropStores(g) == g
  {
    hide DeadCode.LayerKeep, DeadStore.StoreKeep, StoreNeeded, ResultNeeded, Sift;
    SiftLength(g, DeadCode.LayerKeep(g));
    SiftLength(g, DeadStore.StoreKeep(g));
    forall i | 0 <= i < |g|
      ensures Needed(g, i) <==> DeadCode.LayerKeep(g)[i] && DeadStore.StoreKeep(g)[i]
    {
      LayerKept(g, i);
      StoreKept(g, i);
    }
  }

  lemma FullTableParts(h: Host, g: Trace)
    requires WellFormed(g)
    ensures FixedPoint(ALL_PASSES, h, g)
       <==> (forall p: LocalPass :: Apply(p, h, g) == g) && DeadCode.DropLayer(g) == g && DeadStore.DropStores(g) == g
  {
    hide WellFormed, Apply, DeadCode.DropLayer, DeadStore.DropStores;
    assert ALL_PASSES[0] == Local(ConstPromote) && ALL_PASSES[1] == Local(MemForward);
    assert ALL_PASSES[3] == Local(ConstFold) && ALL_PASSES[4] == Local(InsnCombine);
    assert ALL_PASSES[5] == DeadStoreElim && ALL_PASSES[6] == DeadDepElim && ALL_PASSES[7] == Local(BranchFold);
    if FixedPoint(ALL_PASSES, h, g) {
      assert ApplyPass(DeadStoreElim, h, g) == g && ApplyPass(DeadDepElim, h, g) == g;
      forall p: LocalPass ensures Apply(p, h, g) == g {
        assert Local(p) in ALL_PASSES by {
          match p case ConstPromote => case MemForward => case ConstFold => case InsnCombine => case BranchFold =>
        }
        assert ApplyPass(Local(p), h, g) == g;
      }
    }
  }

  /** The fixed points of the whole table, exactly. */
  lemma FullFixedPointExact(h: Host, g: Trace)
    requires WellFormed(g)
    ensures Ordered(g) && (FixedPoint(ALL_PASSES, h, g) <==> Irreducible(g) && AllNeeded(g))
  {
    hide WellFormed, FixedPoint, Irreducible, AllNeeded, Apply, DeadCode.DropLayer, DeadStore.DropStores, Ordered;
    OrderedOf(g);
    FullTableParts(h, g);
    LocalsExact(h, g);
    RemovalsExact(g);
  }

  /** So a driver that stops before its cap leaves nothing that a pass could still do. */
  lemma ConvergedExact(h: Host, g: Trace, maxIters: int)
    requires WellFormed(g)
    ensures var r := FoldConverge(h, g, maxIters);
            Ordered(r.trace) && (r.report.iterations < maxIters ==> Irreducible(r.trace))
    ensures var r := Converge(ALL_PASSES, h, g, map[], 0, maxIters);
            Ordered(r.trace) && (r.report.iterations < maxIters ==> Irreducible(r.trace) && AllNeeded(r.trace))
  {
    hide WellFormed, FixedPoint, Irreducible, AllNeeded, Converge, Ordered;
    if maxIters >= 0 {
      StopsAtFixedPoint(FOLD_PASSES, h, g, map[], 0, maxIters);
      StopsAtFixedPoint(ALL_PASSES, h, g, map[], 0, maxIters);
    }
    FoldFixedPointExact(h, FoldConverge(h, g, maxIters).trace);
    FullFixedPointExact(h, Converge(ALL_PASSES, h, g, map[], 0, maxIters).trace);
    NoRounds(FOLD_PASSES, h, g, maxIters);
    NoRounds(ALL_PASSES, h, g, maxIters);
  }

  lemma NoRounds(table: seq<Pass>, h: Host, g: Trace, maxIters: int)
    requires WellFormed(g)
    ensures maxIters < 0 ==> Converge(table, h, g, map[], 0, maxIters).report.iterations == 0
  {
    hide WellFormed, RunTable;
  }

  // ----- how many rounds, and what is counted -----

  /** Pass `k` of a round that starts with `g` changes the trace. */
  ghost predicate Changes(table: seq<Pass>, k: nat, h: Host, g: Trace)
    requires WellFormed(g) && k < |table|
  {
    ApplyPass(table[k], h, TableTrace(table, k, h, g)) != TableTrace(table, k, h, g)
  }

  ghost predicate Moves(table: seq<Pass>, n: nat, h: Host, g: Trace)
    requires WellFormed(g) && n <= |table|
  {
    exists k :: 0 <= k < n && Changes(table, k, h, g)
  }

  /** How often a pass of that name changes the trace in the first `n` passes of a round, ... */
  ghost function ChangesIn(table: seq<Pass>, n: nat, h: Host, g: Trace, name: string): nat
    requires WellFormed(g) && n <= |table|
  {
    if n == 0 then 0
    else ChangesIn(table, n - 1, h, g, name)
         + if Changes(table, n - 1, h, g) && PassName(table[n - 1]) == name then 1 else 0
  }

  /** ... and in `r` rounds. */
  ghost function ChangesOver(table: seq<Pass>, h: Host, g: Trace, r: nat, name: string): nat
    requires WellFormed(g)
    decreases r
  {
    if r == 0 then 0
    else ChangesIn(table, |table|, h, g, name)
         + ChangesOver(table, h, TableTrace(table, |table|, h, g), r - 1, name)
  }

  function HitCount(hits: Hits, name: string): int { if name in hits then hits[name] else 0 }

  lemma {:induction false} RoundExact(table: seq<Pass>, n: nat, h: Host, g: Trace, hits: Hits, name: string)
    requires WellFormed(g) && n <= |table|
    ensures var r := RunTable(table, n, h, g, hits);
            && r.trace == TableTrace(table, n, h, g) && (r.any <==> Moves(table, n, h, g))
            && HitCount(r.hits, name) == HitCount(hits, name) + ChangesIn(table, n, h, g, name)
  {
    hide ApplyPass, WellFormed, PassName;
    if n > 0 {
      RoundExact(table, n - 1, h, g, hits, name);
      if Moves(table, n - 1, h, g) {
        var k :| 0 <= k < n - 1 && Changes(table, k, h, g);
        assert Moves(table, n, h, g);
      }
      if Changes(table, n - 1, h, g) { assert Moves(table, n, h, g); }
    }
  }

  /** A driver runs rounds while they change something and the cap allows it, and counts under each
      name the passes that did. */
  lemma {:induction false} DriverExact(table: seq<Pass>, h: Host, g: Trace, hits: Hits, it: nat, maxIters: int,
                                       name: string)
    returns (r: nat)
    requires WellFormed(g) && it <= maxIters
    ensures var c := Converge(table, h, g, hits, it, maxIters);
            && c.report.iterations == it + r <= maxIters && c.trace == Rounds(table, h, g, r)
            && HitCount(c.report.passHits, name) == HitCount(hits, name) + ChangesOver(table, h, g, r, name)
            && (it < maxIters ==> r > 0)
            && (0 < r < maxIters - it ==> !Moves(table, |table|, h, Rounds(table, h, g, r - 1)))
    ensures forall k: nat :: k + 1 < r ==> Moves(table, |table|, h, Rounds(table, h, g, k))
    decreases maxIters - it
  {
    hide ApplyPass, WellFormed, RunTable, TableTrace, Moves, ChangesIn;
    r := 0;
    if it < maxIters {
      RoundExact(table, |table|, h, g, hits, name);
      var next := Round(table, h, g, hits);
      assert Rounds(table, h, g, 0) == g && Rounds(table, h, g, 1) == Rounds(table, h, next.trace, 0) == next.trace;
      assert ChangesOver(table, h, next.trace, 0, name) == 0;
      if next.any {
        var more := DriverExact(table, h, next.trace, next.hits, it + 1, maxIters, name);
        r := more + 1;
        forall k: nat | k + 1 < r ensures Moves(table, |table|, h, Rounds(table, h, g, k)) {
          if k > 0 { assert Moves(table, |table|, h, Rounds(table, h, next.trace, k - 1)); }
        }
        if more > 0 { assert Rounds(table, h, g, r - 1) == Rounds(table, h, next.trace, more - 1); }
      } else {
        r := 1;
      }
    }
  }
}
