/** The two dead-code passes: dropping unreferenced results one layer at a time, and keeping
    what the side effects reach. Run to the end they keep exactly the same instructions. */
module DeadCode {
  import opened Ir
  import opened Machine
  import opened References
  import opened Rewrites
  import opened Removal

  // ----- dead_dep_elim: one layer -----

  function Refs(d: Instruction): set<nat> {
    set k | 0 <= k < |d.operands| && d.operands[k].InstrRef? :: d.operands[k].id
  }

  /** Ids that occur as an operand anywhere in the first `n` instructions. */
  function Referenced(g: Trace, n: nat): set<nat>
    requires n <= |g|
  {
    if n == 0 then {} else Referenced(g, n - 1) + Refs(g[n - 1])
  }

  lemma {:induction false} ReferencedBy(g: Trace, n: nat, id: nat)
    requires n <= |g|
    ensures id in Referenced(g, n) <==> exists i :: 0 <= i < n && id in Refs(g[i])
  {
    if n > 0 { ReferencedBy(g, n - 1, id); }
  }

  function LayerKeep(g: Trace): (k: seq<bool>)
    ensures |k| == |g|
  {
    seq(|g|, i requires 0 <= i < |g| => SideEffectful(g[i].op) || g[i].resultId in Referenced(g, |g|))
  }

  function DropLayer(g: Trace): Trace { Sift(g, LayerKeep(g)) }

  // ----- dead_dep_analysis: reachability -----

  /** `r` contains every side effect and the operands of every definition in it. */
  ghost predicate Closed(g: Trace, r: set<nat>) {
    && (forall i :: 0 <= i < |g| && SideEffectful(g[i].op) ==> g[i].resultId in r)
    && (forall id :: id in r && Def(g, id).Some? ==> Refs(Def(g, id).value) <= r)
  }

  /** The least such set. */
  ghost predicate Reachable(g: Trace, r: set<nat>) {
    Closed(g, r) && forall t: set<nat> :: Closed(g, t) ==> r <= t
  }

  function ReachKeep(g: Trace, r: set<nat>): (k: seq<bool>)
    ensures |k| == |g|
  {
    seq(|g|, i requires 0 <= i < |g| => SideEffectful(g[i].op) || g[i].resultId in r)
  }

  function DropUnreached(g: Trace, r: set<nat>): Trace { Sift(g, ReachKeep(g, r)) }

  // ----- the two keep the same instructions -----

  /** Dropping one layer only drops what no closed set forces to stay. */
  lemma LayerKeepsReached(g: Trace, r: set<nat>, i: nat)
    requires Ordered(g) && Reachable(g, r) && i < |g| && g[i].resultId in r
    ensures LayerKeep(g)[i]
  {
    hide Refs, IndexMap;
    if !LayerKeep(g)[i] {
      var t := r - {g[i].resultId};
      ReferencedBy(g, |g|, g[i].resultId);
      WithoutUnreferenced(g, r, i);
    }
  }

  /** A closed set stays closed without a pure result that nothing refers to. */
  lemma WithoutUnreferenced(g: Trace, r: set<nat>, i: nat)
    requires Ordered(g) && Closed(g, r) && i < |g| && !SideEffectful(g[i].op)
    requires forall k :: 0 <= k < |g| ==> g[i].resultId !in Refs(g[k])
    ensures Closed(g, r - {g[i].resultId})
  {
    hide Refs, IndexMap, Def;
    var t := r - {g[i].resultId};
    forall id | id in t && Def(g, id).Some? ensures Refs(Def(g, id).value) <= t {
      var k := DefPosition(g, id);
    }
  }

  lemma SiftDef(g: Trace, keep: seq<bool>, id: nat)
    requires |keep| == |g| && Ordered(g) && Def(Sift(g, keep), id).Some?
    ensures Def(g, id) == Def(Sift(g, keep), id)
  {
    var d := Def(Sift(g, keep), id).value;
    assert d in g;
    var i :| 0 <= i < |g| && g[i] == d;
    DefAt(g, i);
  }

  lemma SiftHas(g: Trace, keep: seq<bool>, i: nat)
    requires |keep| == |g| && Ordered(g) && i < |g| && keep[i]
    ensures Def(Sift(g, keep), g[i].resultId) == Some(g[i])
  {
    SiftMember(g, keep, g[i]);
    var r := Sift(g, keep);
    SiftOrdered(g, keep);
    var j :| 0 <= j < |r| && r[j] == g[i];
    DefAt(r, j);
  }

  /** What is reachable stays reachable, and nothing else becomes so. */
  lemma LayerReachable(g: Trace, r: set<nat>)
    requires Ordered(g) && Reachable(g, r)
    ensures Reachable(DropLayer(g), r)
  {
    hide Def, IndexMap;
    var keep := LayerKeep(g);
    var h := DropLayer(g);
    forall i | 0 <= i < |h| && SideEffectful(h[i].op) ensures h[i].resultId in r {
      assert h[i] in g;
    }
    forall id | id in r && Def(h, id).Some? ensures Refs(Def(h, id).value) <= r { SiftDef(g, keep, id); }
    forall t: set<nat> | Closed(h, t) ensures r <= t {
      var u := r * t;
      forall i | 0 <= i < |g| && SideEffectful(g[i].op) ensures g[i].resultId in u {
        SiftMember(g, keep, g[i]);
        var j :| 0 <= j < |h| && h[j] == g[i];
      }
      forall id | id in u && Def(g, id).Some? ensures Refs(Def(g, id).value) <= u {
        var i := DefPosition(g, id);
        LayerKeepsReached(g, r, i);
        SiftHas(g, keep, i);
      }
      assert Closed(g, u);
    }
  }

  /** A trace from which no layer can be dropped contains reachable instructions only. */
  lemma {:induction false} FixpointReached(g: Trace, r: set<nat>, i: nat)
    requires Ordered(g) && Closed(g, r) && i < |g|
    requires forall k :: 0 <= k < |g| ==> LayerKeep(g)[k]
    ensures g[i].resultId in r
    decreases |g| - i
  {
    hide Def;
    if !SideEffectful(g[i].op) {
      assert LayerKeep(g)[i];
      ReferencedBy(g, |g|, g[i].resultId);
      var k :| 0 <= k < |g| && g[i].resultId in Refs(g[k]);
      assert g[i].resultId < g[k].resultId;
      assert i < k;
      FixpointReached(g, r, k);
      DefAt(g, k);
    }
  }

  /** Dropping layers until none is left. */
  function DropLayers(g: Trace): Trace
    requires Ordered(g)
    decreases |g|
  {
    SiftOrdered(g, LayerKeep(g));
    SiftLength(g, LayerKeep(g));
    if DropLayer(g) == g then g else
      assert exists i :: 0 <= i < |g| && !LayerKeep(g)[i];
      DropLayers(DropLayer(g))
  }

  lemma {:induction false} SiftSift(g: Trace, a: seq<bool>, r: set<nat>)
    requires |a| == |g|
    requires forall i :: 0 <= i < |g| && (SideEffectful(g[i].op) || g[i].resultId in r) ==> a[i]
    ensures DropUnreached(Sift(g, a), r) == DropUnreached(g, r)
  {
    if |g| > 0 {
      var n := |g| - 1;
      SiftSift(g[..n], a[..n], r);
      var t := Sift(g[..n], a[..n]);
      var k := ReachKeep(g, r);
      assert k[..n] == ReachKeep(g[..n], r);
      if a[n] {
        assert (t + [g[n]])[..|t|] == t;
        assert ReachKeep(t + [g[n]], r)[..|t|] == ReachKeep(t, r);
      } else {
        assert t + [] == t;
      }
    }
  }

  /** Repeating the local pass and the reachability pass keep exactly the same instructions. */
  lemma {:induction false} LayersAreReachability(g: Trace, r: set<nat>)
    requires Ordered(g) && Reachable(g, r)
    ensures DropLayers(g) == DropUnreached(g, r)
    decreases |g|
  {
    SiftOrdered(g, LayerKeep(g));
    SiftLength(g, LayerKeep(g));
    if DropLayer(g) == g {
      forall i | 0 <= i < |g| ensures ReachKeep(g, r)[i] { FixpointReached(g, r, i); }
      SiftLength(g, ReachKeep(g, r));
    } else {
      assert exists i :: 0 <= i < |g| && !LayerKeep(g)[i];
      LayerReachable(g, r);
      LayersAreReachability(DropLayer(g), r);
      forall i | 0 <= i < |g| && (SideEffectful(g[i].op) || g[i].resultId in r) ensures LayerKeep(g)[i] {
        if g[i].resultId in r { LayerKeepsReached(g, r, i); }
      }
      SiftSift(g, LayerKeep(g), r);
    }
  }

  // ----- both preserve the events -----

  /** Every side effect stays, and nothing that stays refers to something that went. */
  ghost predicate SafeRemoval(g: Trace, keep: seq<bool>)
    requires |keep| == |g|
  {
    && (forall i :: 0 <= i < |g| && SideEffectful(g[i].op) ==> keep[i])
    && (forall i :: 0 <= i < |g| && keep[i] ==> Avoids(g[i], DroppedIds(g, keep)))
  }

  ghost function DroppedIds(g: Trace, keep: seq<bool>): set<nat>
    requires |keep| == |g|
  {
    set i | 0 <= i < |g| && !keep[i] :: g[i].resultId
  }

  lemma QuietRemoval(d: Instruction, env: Env, s: State)
    requires !SideEffectful(d.op)
    ensures var t := Step(d, env, s);
            t.mem == s.mem && t.events == s.events && t.calls == s.calls
  {
    hide Load64, Store64, PureResult;
    assert s.events + [] == s.events;
  }

  lemma SameStep(d: Instruction, dropped: set<nat>, env: Env, s: State, s': State)
    requires Avoids(d, dropped) && AgreeExcept(s.vals, s'.vals, dropped)
    requires s.mem == s'.mem && s.events == s'.events && s.calls == s'.calls
    ensures var t, t' := Step(d, env, s), Step(d, env, s');
            t.mem == t'.mem && t.events == t'.events && t.calls == t'.calls && AgreeExcept(t.vals, t'.vals, dropped)
  {
    hide Execute;
    AvoidsEval(d, dropped, env, s.vals, s'.vals);
  }

  lemma {:induction false} RemovalRun(g: Trace, keep: seq<bool>, n: nat, env: Env, s: State)
    requires Ordered(g) && |keep| == |g| && SafeRemoval(g, keep) && n <= |g|
    ensures var t, t' := RunTo(g, n, env, s), Run(SiftTo(g, keep, n), env, s);
            t.mem == t'.mem && t.events == t'.events && t.calls == t'.calls
            && AgreeExcept(t.vals, t'.vals, DroppedIds(g, keep))
  {
    hide Step, Avoids;
    if n > 0 {
      RemovalRun(g, keep, n - 1, env, s);
      SiftStep(g, keep, n - 1);
      var h := SiftTo(g, keep, n - 1);
      var t, t' := RunTo(g, n - 1, env, s), Run(h, env, s);
      if keep[n - 1] {
        SameStep(g[n - 1], DroppedIds(g, keep), env, t, t');
        RunAppend(h, [g[n - 1]], env, s);
        assert RunTo([g[n - 1]], 1, env, t') == Step(g[n - 1], env, RunTo([g[n - 1]], 0, env, t'));
      } else {
        QuietRemoval(g[n - 1], env, t);
        StepWrites(g[n - 1], env, t);
        assert g[n - 1].resultId in DroppedIds(g, keep);
        assert h + [] == h;
      }
    }
  }

  lemma LayerSafe(g: Trace)
    requires Ordered(g)
    ensures SafeRemoval(g, LayerKeep(g))
  {
    forall i, k | 0 <= i < |g| && 0 <= k < |g[i].operands| && g[i].operands[k].InstrRef?
      ensures g[i].operands[k].id !in DroppedIds(g, LayerKeep(g))
    {
      ReferencedBy(g, |g|, g[i].operands[k].id);
      assert g[i].operands[k].id in Refs(g[i]);
    }
  }

  lemma ReachSafe(g: Trace, r: set<nat>)
    requires Ordered(g) && Closed(g, r)
    ensures SafeRemoval(g, ReachKeep(g, r))
  {
    forall i, k | 0 <= i < |g| && ReachKeep(g, r)[i] && 0 <= k < |g[i].operands| && g[i].operands[k].InstrRef?
      ensures g[i].operands[k].id !in DroppedIds(g, ReachKeep(g, r))
    {
      DefAt(g, i);
      assert g[i].operands[k].id in Refs(g[i]);
    }
  }

  /** What a removal must not show: final memory, events, calls, and every surviving value. */
  ghost predicate SameOutcome(g: Trace, h: Trace, env: Env, s: State) {
    var t, t' := Run(g, env, s), Run(h, env, s);
    && t.mem == t'.mem && t.events == t'.events && t.calls == t'.calls
    && forall d :: d in h ==> d.resultId in t.vals && d.resultId in t'.vals && t.vals[d.resultId] == t'.vals[d.resultId]
  }

  lemma RemovalOutcome(g: Trace, keep: seq<bool>, env: Env, s: State)
    requires Ordered(g) && |keep| == |g| && SafeRemoval(g, keep)
    ensures SameOutcome(g, Sift(g, keep), env, s)
  {
    hide Step, Avoids, SafeRemoval, Sift, RunTo;
    var h := Sift(g, keep);
    RemovalRun(g, keep, |g|, env, s);
    SiftWhole(g, keep);
    SiftOrdered(g, keep);
    forall d | d in h
      ensures d.resultId !in DroppedIds(g, keep) && d.resultId in Run(g, env, s).vals
    {
      SiftMember(g, keep, d);
      var i :| 0 <= i < |g| && keep[i] && g[i] == d;
      ResultStable(g, i, |g|, env, s);
    }
  }

  lemma DropLayerMeaning(g: Trace, env: Env, s: State)
    requires Ordered(g)
    ensures SameOutcome(g, DropLayer(g), env, s)
  {
    LayerSafe(g);
    RemovalOutcome(g, LayerKeep(g), env, s);
  }

  lemma DropUnreachedMeaning(g: Trace, r: set<nat>, env: Env, s: State)
    requires Ordered(g) && Reachable(g, r)
    ensures SameOutcome(g, DropUnreached(g, r), env, s)
  {
    ReachSafe(g, r);
    RemovalOutcome(g, ReachKeep(g, r), env, s);
  }

  /** Every reference is to a result of the trace. */
  ghost predicate SelfContained(g: Trace) {
    forall i, k :: 0 <= i < |g| && 0 <= k < |g[i].operands| && g[i].operands[k].InstrRef? ==>
      Def(g, g[i].operands[k].id).Some?
  }

  lemma RemovalSelfContained(g: Trace, keep: seq<bool>)
    requires Ordered(g) && |keep| == |g| && SafeRemoval(g, keep) && SelfContained(g)
    ensures SelfContained(Sift(g, keep))
  {
    hide Def;
    var h := Sift(g, keep);
    forall j, k | 0 <= j < |h| && 0 <= k < |h[j].operands| && h[j].operands[k].InstrRef?
      ensures Def(h, h[j].operands[k].id).Some?
    {
      SiftMember(g, keep, h[j]);
      var i :| 0 <= i < |g| && keep[i] && g[i] == h[j];
      var m := DefPosition(g, g[i].operands[k].id);
      assert keep[m];
      SiftHas(g, keep, m);
    }
  }

  /** Neither pass leaves a dangling reference in a self-contained trace. */
  lemma NoDanglingReference(g: Trace, r: set<nat>)
    requires Ordered(g) && Reachable(g, r) && SelfContained(g)
    ensures SelfContained(DropLayer(g)) && SelfContained(DropUnreached(g, r))
  {
    LayerSafe(g);
    ReachSafe(g, r);
    RemovalSelfContained(g, LayerKeep(g));
    RemovalSelfContained(g, ReachKeep(g, r));
  }
}
