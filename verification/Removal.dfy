/** Removing instructions from a trace, and what a run keeps when only unneeded results go. */
module Removal {
  import opened Ir
  import opened Machine
  import opened References
  import opened Rewrites

  /** The instructions whose flag is set, in order. */
  function Sift(g: Trace, keep: seq<bool>): (r: Trace)
    requires |keep| == |g|
    ensures |r| <= |g|
    ensures forall d :: d in r ==> d in g
  {
    if |g| == 0 then []
    else
      var n := |g| - 1;
      Sift(g[..n], keep[..n]) + if keep[n] then [g[n]] else []
  }

  /** The first `n` instructions, sifted. */
  ghost function SiftTo(g: Trace, keep: seq<bool>, n: nat): Trace
    requires |keep| == |g| && n <= |g|
  {
    Sift(g[..n], keep[..n])
  }

  lemma SiftStep(g: Trace, keep: seq<bool>, n: nat)
    requires |keep| == |g| && n < |g|
    ensures SiftTo(g, keep, n + 1) == SiftTo(g, keep, n) + if keep[n] then [g[n]] else []
  {
    assert g[..n + 1][..n] == g[..n] && keep[..n + 1][..n] == keep[..n];
  }

  lemma SiftWhole(g: Trace, keep: seq<bool>)
    requires |keep| == |g|
    ensures SiftTo(g, keep, |g|) == Sift(g, keep)
  {
    assert g[..|g|] == g && keep[..|g|] == keep;
  }

  /** A result id survives exactly when some kept instruction has it. */
  lemma {:induction false} SiftMember(g: Trace, keep: seq<bool>, d: Instruction)
    requires |keep| == |g|
    ensures d in Sift(g, keep) <==> exists i :: 0 <= i < |g| && keep[i] && g[i] == d
  {
    if |g| > 0 {
      var n := |g| - 1;
      SiftMember(g[..n], keep[..n], d);
      if i :| 0 <= i < |g| && keep[i] && g[i] == d {
        if i < n { assert keep[..n][i] && g[..n][i] == d; }
      }
      if j :| 0 <= j < n && keep[..n][j] && g[..n][j] == d { assert keep[j] && g[j] == d; }
    }
  }

  lemma {:induction false} SiftOrdered(g: Trace, keep: seq<bool>)
    requires |keep| == |g| && Ordered(g)
    ensures Ordered(Sift(g, keep))
  {
    if |g| > 0 {
      var n := |g| - 1;
      SiftOrdered(g[..n], keep[..n]);
      var r := Sift(g[..n], keep[..n]);
      forall d | d in r ensures d.resultId < g[n].resultId {
        assert d in g[..n];
      }
    }
  }

  lemma SiftWellFormed(g: Trace, keep: seq<bool>)
    requires |keep| == |g| && WellFormed(g)
    ensures WellFormed(Sift(g, keep))
  {
    SiftOrdered(g, keep);
    forall d | d in Sift(g, keep) ensures (d.op == LOAD ==> IsLoad(d)) && (d.op == STORE ==> IsStore(d)) {
      assert d in g;
    }
  }

  /** Dropping nothing changes nothing; dropping something shortens the trace. */
  lemma {:induction false} SiftLength(g: Trace, keep: seq<bool>)
    requires |keep| == |g|
    ensures (forall i :: 0 <= i < |g| ==> keep[i]) ==> Sift(g, keep) == g
    ensures (exists i :: 0 <= i < |g| && !keep[i]) ==> |Sift(g, keep)| < |g|
  {
    if |g| > 0 {
      var n := |g| - 1;
      SiftLength(g[..n], keep[..n]);
      if forall i :: 0 <= i < |g| ==> keep[i] {
        assert g == g[..n] + [g[n]];
      }
      if i :| 0 <= i < |g| && !keep[i] {
        if i < n { assert !keep[..n][i]; }
      }
    }
  }

  lemma {:induction false} RunAppend(g: Trace, h: Trace, env: Env, s: State)
    ensures Run(g + h, env, s) == Run(h, env, Run(g, env, s))
  {
    hide Step;
    if |h| == 0 {
      assert g + h == g;
    } else {
      var n := |h| - 1;
      RunAppend(g, h[..n], env, s);
      assert (g + h)[..|g| + n] == (g + h[..n])[..|g| + n];
      RunPrefix(g + h, g + h[..n], |g| + n, env, s);
      assert h[..n][..n] == h[..n];
      RunPrefix(h, h[..n], n, env, Run(g, env, s));
    }
  }

  // ----- runs that agree except on dropped results -----

  /** The two value maps agree on every id outside `dropped`. */
  ghost predicate AgreeExcept(vals: Values, vals': Values, dropped: set<nat>) {
    forall id :: id !in dropped ==> (id in vals <==> id in vals') && (id in vals ==> vals[id] == vals'[id])
  }

  ghost predicate Avoids(d: Instruction, dropped: set<nat>) {
    forall k :: 0 <= k < |d.operands| && d.operands[k].InstrRef? ==> d.operands[k].id !in dropped
  }

  lemma AvoidsEval(d: Instruction, dropped: set<nat>, env: Env, vals: Values, vals': Values)
    requires Avoids(d, dropped) && AgreeExcept(vals, vals', dropped)
    ensures EvalAll(d.operands, env, vals) == EvalAll(d.operands, env, vals')
  {
    forall k | 0 <= k < |d.operands| ensures Eval(d.operands[k], env, vals) == Eval(d.operands[k], env, vals') {}
  }
}
