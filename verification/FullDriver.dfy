/** The full driver `run_to_convergence`: value propagation, dead-store elimination and dead-code
    removal, interleaved. Its hypotheses survive every pass, removals included, so a whole
    convergence keeps events, calls, the surviving values and all memory but private cells. */
module FullDriver {
  import opened Ir
  import opened Arithmetic
  import opened Machine
  import opened References
  import opened Rewrites
  import opened Removal
  import opened Meaning
  import opened DeadStore
  import opened Convergence
  import DeadCode

  ghost predicate Trusted(g: Trace, env: Env, s: State) { Sane(g, env, s) && Disciplined(g, env, s) }

  // ----- what a pass keeps -----

  /** The runs of `g` and `r` have the same events and calls, the same memory outside the private
      cells of `g`, and the same value for everything that is left in `r`. */
  ghost predicate Keeps(g: Trace, r: Trace, env: Env, s: State) {
    var t, t' := Run(g, env, s), Run(r, env, s);
    && t.events == t'.events && t.calls == t'.calls && AgreeOutside(g, t.mem, t'.mem)
    && (forall id :: HasId(r, id) ==> HasId(g, id) && id in t.vals && id in t'.vals && t.vals[id] == t'.vals[id])
    && PrivateAddrs(r) <= PrivateAddrs(g)
  }

  lemma KeepsCompose(g: Trace, r: Trace, u: Trace, env: Env, s: State)
    requires Keeps(g, r, env, s) && Keeps(r, u, env, s)
    ensures Keeps(g, u, env, s)
  {
    hide Run, PrivateAddrs, Covers;
    var t, t', t'' := Run(g, env, s), Run(r, env, s), Run(u, env, s);
    forall x | !PrivateCell(g, x) ensures t.mem(x) == t''.mem(x) {
      assert !PrivateCell(r, x);
    }
  }

  lemma {:induction false} DefinedAtEnd(g: Trace, i: nat, env: Env, s: State)
    requires Ordered(g) && i < |g|
    ensures g[i].resultId in Run(g, env, s).vals
  {
    hide Step, RunTo;
    ResultStable(g, i, |g|, env, s);
  }

  lemma KeepsItself(g: Trace, env: Env, s: State)
    requires Ordered(g)
    ensures Keeps(g, g, env, s)
  {
    hide Run;
    forall i | 0 <= i < |g| ensures g[i].resultId in Run(g, env, s).vals { DefinedAtEnd(g, i, env, s); }
  }

  // ----- value-propagating passes -----

  /** An access that is left after a rewrite was there before, at the same address; a private one
      at the same constant. */
  lemma RewrittenAccess(p: LocalPass, h: Host, g: Trace, i: nat, k: nat, env: Env, s: State)
    requires Sane(g, env, s) && i < |g| && k < |g| && (p == MemForward ==> StoresKnown(g, false, env, s))
    requires WellFormed(Visit(p, h, g, i)) && IsAccess(Visit(p, h, g, i)[k])
    ensures IsAccess(g[k]) && g[k].op == Visit(p, h, g, i)[k].op && Private(g[k]) == Private(Visit(p, h, g, i)[k])
    ensures Addr(Visit(p, h, g, i), k, env, s) == Addr(g, k, env, s)
    ensures g[k].operands[0].Const? ==> Visit(p, h, g, i)[k].operands[0] == g[k].operands[0]
  {
    hide Step, RunTo, RewriteAt, StoresKnown, CallsApart, ShiftsOk, X64, IndexMap;
    var x := RewriteAt(p, h, g, i);
    RewriteFaithful(p, h, g, i, env, s);
    RewriteShape(p, h, g, i);
    ReplacedAccess(g, i, x, k, env, s);
  }

  lemma VisitDisciplined(p: LocalPass, h: Host, g: Trace, i: nat, env: Env, s: State)
    requires Trusted(g, env, s) && i < |g| && (p == MemForward ==> StoresKnown(g, false, env, s))
    ensures Disciplined(Visit(p, h, g, i), env, s) && PrivateAddrs(Visit(p, h, g, i)) <= PrivateAddrs(g)
  {
    hide RewriteAt, RunTo, Sane, Overlap, CallsBlind, Private, Addr;
    SaneFacts(g, env, s);
    var r := Visit(p, h, g, i);
    forall k | 0 <= k < |r| && IsAccess(r[k])
      ensures IsAccess(g[k]) && g[k].op == r[k].op && Private(g[k]) == Private(r[k])
      ensures Addr(r, k, env, s) == Addr(g, k, env, s)
      ensures g[k].operands[0].Const? ==> r[k].operands[0] == g[k].operands[0]
    {
      RewrittenAccess(p, h, g, i, k, env, s);
    }
    PrivateFewer(g, r);
    BlindFewer(g, r, env);
    forall k, j | 0 <= k < |r| && 0 <= j < |r| && PrivateStore(r[j]) ensures InstrRef(r[j].resultId) !in r[k].operands {
      assert PrivateStore(g[j]) && r[j].resultId == g[j].resultId;
      if k == i && InstrRef(r[j].resultId) in r[i].operands {
        var m :| 0 <= m < |r[i].operands| && r[i].operands[m] == InstrRef(r[j].resultId);
        RewriteMentions(p, h, g, i, m);
      }
    }
  }

  lemma PrivateFewer(g: Trace, r: Trace)
    requires |r| == |g| && forall i :: 0 <= i < |g| && IsAccess(g[i]) && Private(g[i]) ==> g[i].operands[0].Const?
    requires forall k :: 0 <= k < |r| && IsAccess(r[k]) ==>
               && IsAccess(g[k]) && g[k].op == r[k].op && Private(g[k]) == Private(r[k])
               && (g[k].operands[0].Const? ==> r[k].operands[0] == g[k].operands[0])
    requires WellFormed(r)
    ensures PrivateAddrs(r) <= PrivateAddrs(g)
    ensures forall k :: 0 <= k < |r| && PrivateAccess(r[k]) ==> PrivateAccess(g[k])
  {
    hide Private;
    forall k | 0 <= k < |r| && PrivateAccess(r[k]) ensures PrivateAccess(g[k]) && r[k].operands[0] == g[k].operands[0] {
      assert IsAccess(r[k]);
    }
  }

  /** With fewer private cells callees are still blind to them. */
  lemma BlindFewer(g: Trace, r: Trace, env: Env)
    requires CallsBlind(g, env) && PrivateAddrs(r) <= PrivateAddrs(g)
    ensures CallsBlind(r, env)
  {
    hide PrivateAddrs, Covers;
    assert forall x :: PrivateCell(r, x) ==> PrivateCell(g, x);
    forall n: nat, args: seq<Word>, m: Memory, m': Memory | AgreeOutside(r, m, m')
      ensures env.call(n, args, m).value == env.call(n, args, m').value
      ensures AgreeOutside(r, env.call(n, args, m).mem, env.call(n, args, m').mem)
      ensures forall x :: PrivateCell(r, x) ==> env.call(n, args, m).mem(x) == m(x)
    {
      assert AgreeOutside(g, m, m') && AgreeOutside(g, m', m');
      forall x | !PrivateCell(r, x) ensures env.call(n, args, m).mem(x) == env.call(n, args, m').mem(x) {
        if PrivateCell(g, x) { assert m(x) == m'(x); }
      }
    }
  }

  lemma {:induction false} ApplyDisciplined(p: LocalPass, h: Host, g: Trace, n: nat, env: Env, s: State)
    requires Trusted(g, env, s) && n <= |g| && (p == MemForward ==> Promoted(g, |g|))
    ensures WellFormed(g)
    ensures Trusted(ApplyTo(p, h, g, n), env, s) && PrivateAddrs(ApplyTo(p, h, g, n)) <= PrivateAddrs(g)
    ensures p == MemForward ==> StoresKnown(ApplyTo(p, h, g, n), false, env, s)
  {
    hide RunTo, Visit, Disciplined, PrivateAddrs, StoresKnown, CallsApart, ShiftsOk, X64, WellFormed, Promoted;
    SaneFacts(g, env, s);
    if p == MemForward { PromotedKnown(g, env, s); }
    ApplySound(p, h, g, n, 0, env, s);
    if n > 0 {
      ApplyDisciplined(p, h, g, n - 1, env, s);
      VisitDisciplined(p, h, ApplyTo(p, h, g, n - 1), n - 1, env, s);
    }
  }

  lemma LocalKeeps(p: LocalPass, h: Host, g: Trace, env: Env, s: State)
    requires Trusted(g, env, s) && (p == MemForward ==> Promoted(g, |g|))
    ensures WellFormed(g) && Trusted(Apply(p, h, g), env, s) && Keeps(g, Apply(p, h, g), env, s)
    ensures p == ConstPromote ==> Promoted(Apply(p, h, g), |g|)
  {
    hide Disciplined, Sane, ApplyTo, PrivateAddrs, RunTo, Promoted, Covers, WellFormed;
    SaneFacts(g, env, s);
    PassMeaning(p, h, g, env, s);
    ApplyDisciplined(p, h, g, |g|, env, s);
    var r := Apply(p, h, g);
    assert RunTo(r, |g|, env, s) == RunTo(g, |g|, env, s);
    OrderedOf(g);
    forall i | 0 <= i < |g| ensures g[i].resultId in Run(g, env, s).vals { DefinedAtEnd(g, i, env, s); }
    forall id | HasId(r, id) ensures HasId(g, id) {
      var i :| 0 <= i < |r| && r[i].resultId == id;
      assert g[i].resultId == id;
    }
  }

  // ----- removals -----

  /** The position in `g` of what is left at position `j`. */
  lemma {:induction false} SiftAt(g: Trace, keep: seq<bool>, j: nat) returns (i: nat)
    requires |keep| == |g| && j < |Sift(g, keep)|
    ensures i < |g| && keep[i] && g[i] == Sift(g, keep)[j]
    ensures |SiftTo(g, keep, i)| == j && Sift(g, keep)[..j] == SiftTo(g, keep, i)
  {
    var n := |g| - 1;
    var r := Sift(g[..n], keep[..n]);
    if j < |r| {
      i := SiftAt(g[..n], keep[..n], j);
      assert g[..n][..i] == g[..i] && keep[..n][..i] == keep[..i];
      assert Sift(g, keep)[..j] == r[..j];
    } else {
      i := n;
      assert Sift(g, keep)[..j] == r;
    }
  }

  lemma {:induction false} SiftGrows(g: Trace, keep: seq<bool>, m: nat, n: nat)
    requires |keep| == |g| && m <= n <= |g|
    ensures |SiftTo(g, keep, m)| <= |SiftTo(g, keep, n)|
  {
    if m < n {
      SiftGrows(g, keep, m, n - 1);
      SiftStep(g, keep, n - 1);
    }
  }

  /** A removal after which the run differs only in the dropped results, to which nothing kept refers. */
  ghost predicate Thins(g: Trace, keep: seq<bool>, dropped: set<nat>, env: Env, s: State) {
    && WellFormed(g) && |keep| == |g|
    && (forall i :: 0 <= i < |g| && keep[i] ==> Avoids(g[i], dropped))
    && (forall i :: 0 <= i < |g| && g[i].resultId !in dropped ==> keep[i])
    && (forall n :: 0 <= n <= |g| ==>
          AgreeExcept(RunTo(g, n, env, s).vals, Run(SiftTo(g, keep, n), env, s).vals, dropped))
  }

  /** Position `j` of the thinned trace is position `i` of the original, in the same state as far
      as its operands can tell. */
  ghost predicate At(g: Trace, keep: seq<bool>, i: nat, j: nat, env: Env, s: State)
    requires |keep| == |g|
  {
    && i < |g| && j < |Sift(g, keep)| && keep[i] && g[i] == Sift(g, keep)[j]
    && RunTo(Sift(g, keep), j, env, s) == Run(SiftTo(g, keep, i), env, s)
    && EvalAll(g[i].operands, env, RunTo(Sift(g, keep), j, env, s).vals)
      == EvalAll(g[i].operands, env, RunTo(g, i, env, s).vals)
  }

  lemma ThinAt(g: Trace, keep: seq<bool>, dropped: set<nat>, j: nat, env: Env, s: State) returns (i: nat)
    requires Thins(g, keep, dropped, env, s) && j < |Sift(g, keep)|
    ensures At(g, keep, i, j, env, s) && |SiftTo(g, keep, i)| == j
  {
    hide Sift, WellFormed, RunTo, SiftTo;
    i := SiftAt(g, keep, j);
    var r := Sift(g, keep);
    var u := SiftTo(g, keep, i);
    assert u[..j] == u == r[..j];
    RunPrefix(r, u, j, env, s);
    AvoidsEval(g[i], dropped, env, RunTo(g, i, env, s).vals, Run(u, env, s).vals);
  }

  lemma ThinOrder(g: Trace, keep: seq<bool>, i: nat, j: nat, i': nat, j': nat)
    requires |keep| == |g| && i < |g| && i' < |g| && |SiftTo(g, keep, i)| == j < |SiftTo(g, keep, i')| == j'
    ensures i < i'
  {
    hide SiftTo;
    if i' <= i { SiftGrows(g, keep, i', i); }
  }

  /** Resolution follows only what is kept. */
  lemma {:induction false} ThinResolve(g: Trace, keep: seq<bool>, dropped: set<nat>, v: Value, env: Env, s: State)
    requires Thins(g, keep, dropped, env, s) && (v.InstrRef? ==> v.id !in dropped)
    ensures Ordered(g) && Ordered(Sift(g, keep)) && Resolve(Sift(g, keep), v) == Resolve(g, v)
    decreases if v.InstrRef? then v.id + 1 else 0
  {
    hide RunTo, Sift, IndexMap, Def, AgreeExcept;
    OrderedOf(g);
    SiftOrdered(g, keep);
    if v.InstrRef? {
      if Def(Sift(g, keep), v.id).Some? { DeadCode.SiftDef(g, keep, v.id); }
      if Def(g, v.id).Some? {
        var i := DefPosition(g, v.id);
        assert keep[i];
        DeadCode.SiftHas(g, keep, i);
        var d := g[i];
        if !IsConstDef(d) && IsCopy(d) {
          assert Avoids(d, dropped);
          ThinResolve(g, keep, dropped, d.operands[0], env, s);
        }
      }
    }
  }

  lemma ThinAddr(g: Trace, keep: seq<bool>, i: nat, j: nat, env: Env, s: State)
    requires |keep| == |g| && At(g, keep, i, j, env, s) && IsAccess(g[i])
    ensures Addr(Sift(g, keep), j, env, s) == Addr(g, i, env, s)
  {
    hide Sift, RunTo, SiftTo, Run;
    var vals, vals' := RunTo(g, i, env, s).vals, RunTo(Sift(g, keep), j, env, s).vals;
    assert EvalAll(g[i].operands, env, vals)[0] == EvalAll(g[i].operands, env, vals')[0];
  }

  lemma ThinShifts(g: Trace, keep: seq<bool>, dropped: set<nat>, env: Env, s: State)
    requires Thins(g, keep, dropped, env, s) && ShiftsOk(g, env, s)
    ensures ShiftsOk(Sift(g, keep), env, s)
  {
    hide Sift, RunTo, SiftTo, ShiftDefined, Thins, Run;
    ThinSizes(g, keep, dropped, env, s);
    var r := Sift(g, keep);
    forall j | 0 <= j < |r| && FoldableBinary(r[j].op) && |r[j].operands| == 2 ensures ShiftOkAt(r, j, env, s) {
      var i := ThinAt(g, keep, dropped, j, env, s);
      assert ShiftOkAt(g, i, env, s);
      var vals, vals' := RunTo(g, i, env, s).vals, RunTo(r, j, env, s).vals;
      assert EvalAll(g[i].operands, env, vals)[0] == EvalAll(g[i].operands, env, vals')[0];
      assert EvalAll(g[i].operands, env, vals)[1] == EvalAll(g[i].operands, env, vals')[1];
    }
  }

  lemma ThinSizes(g: Trace, keep: seq<bool>, dropped: set<nat>, env: Env, s: State)
    requires Thins(g, keep, dropped, env, s)
    ensures WellFormed(g) && WellFormed(Sift(g, keep)) && |keep| == |g|
  {
    hide Sift, RunTo, WellFormed;
    SiftWellFormed(g, keep);
  }

  lemma ThinKey(g: Trace, keep: seq<bool>, dropped: set<nat>, i: nat, j: nat, env: Env, s: State)
    requires Thins(g, keep, dropped, env, s) && At(g, keep, i, j, env, s) && IsAccess(g[i])
    ensures WellFormed(Sift(g, keep)) && KeyAt(Sift(g, keep), j, true) == KeyAt(g, i, true)
  {
    hide Sift, RunTo, SiftTo, Resolve, WellFormed, Run, AgreeExcept;
    ThinSizes(g, keep, dropped, env, s);
    assert Avoids(g[i], dropped);
    ThinResolve(g, keep, dropped, g[i].operands[0], env, s);
  }

  lemma ThinKnown(g: Trace, keep: seq<bool>, dropped: set<nat>, env: Env, s: State)
    requires Thins(g, keep, dropped, env, s) && Ordered(g) && StoresKnown(g, true, env, s)
    ensures WellFormed(Sift(g, keep)) && StoresKnown(Sift(g, keep), true, env, s)
  {
    hide Sift, RunTo, SiftTo, Thins, KnownAt, Resolve;
    ThinSizes(g, keep, dropped, env, s);
    var r := Sift(g, keep);
    forall a, m, j | 0 <= a < m < j < |r| && IsStore(r[a]) && IsStore(r[m]) && IsLoad(r[j])
      ensures KnownAt(r, a, m, j, true, env, s)
    {
      ThinKnownAt(g, keep, dropped, a, m, j, env, s);
    }
  }

  lemma ThinKnownAt(g: Trace, keep: seq<bool>, dropped: set<nat>, a: nat, m: nat, j: nat, env: Env, s: State)
    requires Thins(g, keep, dropped, env, s) && Ordered(g) && StoresKnown(g, true, env, s)
    requires a < m < j < |Sift(g, keep)|
    requires IsStore(Sift(g, keep)[a]) && IsStore(Sift(g, keep)[m]) && IsLoad(Sift(g, keep)[j])
    ensures WellFormed(Sift(g, keep)) && KnownAt(Sift(g, keep), a, m, j, true, env, s)
  {
    hide Sift, RunTo, SiftTo, Thins, Resolve, Run, Addr, KeyAt, Overlap;
    ThinSizes(g, keep, dropped, env, s);
    var a0 := ThinAt(g, keep, dropped, a, env, s);
    var m0 := ThinAt(g, keep, dropped, m, env, s);
    var j0 := ThinAt(g, keep, dropped, j, env, s);
    ThinOrder(g, keep, a0, a, m0, m);
    ThinOrder(g, keep, m0, m, j0, j);
    assert KnownAt(g, a0, m0, j0, true, env, s);
    ThinAddr(g, keep, a0, a, env, s);
    ThinAddr(g, keep, m0, m, env, s);
    ThinAddr(g, keep, j0, j, env, s);
    ThinKey(g, keep, dropped, m0, m, env, s);
    ThinKey(g, keep, dropped, j0, j, env, s);
  }

  lemma ThinDisciplined(g: Trace, keep: seq<bool>, dropped: set<nat>, env: Env, s: State)
    requires Thins(g, keep, dropped, env, s) && Disciplined(g, env, s)
    ensures Disciplined(Sift(g, keep), env, s) && PrivateAddrs(Sift(g, keep)) <= PrivateAddrs(g)
  {
    hide Sift, RunTo, SiftTo, Thins, Run, Addr, Overlap, CallsBlind, Private;
    ThinSizes(g, keep, dropped, env, s);
    var r := Sift(g, keep);
    forall d | d in r ensures d in g {}
    forall a | a in PrivateAddrs(r) ensures a in PrivateAddrs(g) {
      var j :| 0 <= j < |r| && PrivateAccess(r[j]) && r[j].operands[0].value == a;
      assert r[j] in g;
      var i :| 0 <= i < |g| && g[i] == r[j];
    }
    BlindFewer(g, r, env);
    forall j, a | 0 <= j < |r| && IsAccess(r[j]) && !Private(r[j]) && a in PrivateAddrs(r)
      ensures !Overlap(a, Addr(r, j, env, s))
    {
      var i := ThinAt(g, keep, dropped, j, env, s);
      ThinAddr(g, keep, i, j, env, s);
    }
    forall j | 0 <= j < |r| && IsAccess(r[j]) && Private(r[j]) ensures r[j].operands[0].Const? {
      assert r[j] in g;
    }
    forall k, j | 0 <= k < |r| && 0 <= j < |r| && PrivateStore(r[j]) ensures InstrRef(r[j].resultId) !in r[k].operands {
      assert r[j] in g && r[k] in g;
    }
  }

  /** The bytes that a call must leave alone for position `j`. */
  ghost predicate CallKeeps(g: Trace, keep: seq<bool>, c: nat, env: Env, s: State, x: Word)
    requires |keep| == |g| && c < |g|
  {
    RunTo(g, c + 1, env, s).mem(x) == RunTo(g, c, env, s).mem(x) ==>
      Run(SiftTo(g, keep, c + 1), env, s).mem(x) == Run(SiftTo(g, keep, c), env, s).mem(x)
  }

  lemma ThinCalls(g: Trace, keep: seq<bool>, dropped: set<nat>, env: Env, s: State)
    requires Thins(g, keep, dropped, env, s) && CallsApart(g, env, s)
    requires forall c, x :: 0 <= c < |g| && g[c].op == CALL && keep[c] ==> CallKeeps(g, keep, c, env, s, x)
    ensures CallsApart(Sift(g, keep), env, s)
  {
    hide Sift, RunTo, SiftTo, Thins, Run, CallApartAt, CallKeeps;
    ThinSizes(g, keep, dropped, env, s);
    var r := Sift(g, keep);
    forall a, c, j | 0 <= a < c < j < |r| && IsStore(r[a]) && r[c].op == CALL && IsLoad(r[j])
      ensures CallApartAt(r, a, c, j, env, s)
    {
      ThinCallAt(g, keep, dropped, a, c, j, env, s);
    }
  }

  lemma ThinCallAt(g: Trace, keep: seq<bool>, dropped: set<nat>, a: nat, c: nat, j: nat, env: Env, s: State)
    requires Thins(g, keep, dropped, env, s) && CallsApart(g, env, s) && a < c < j < |Sift(g, keep)|
    requires forall c, x :: 0 <= c < |g| && g[c].op == CALL && keep[c] ==> CallKeeps(g, keep, c, env, s, x)
    requires IsStore(Sift(g, keep)[a]) && Sift(g, keep)[c].op == CALL && IsLoad(Sift(g, keep)[j])
    ensures CallApartAt(Sift(g, keep), a, c, j, env, s)
  {
    hide Sift, RunTo, SiftTo, Thins, Run, Addr, Covers;
    ThinSizes(g, keep, dropped, env, s);
    var r := Sift(g, keep);
    var a0 := ThinAt(g, keep, dropped, a, env, s);
    var c0 := ThinAt(g, keep, dropped, c, env, s);
    var j0 := ThinAt(g, keep, dropped, j, env, s);
    ThinOrder(g, keep, a0, a, c0, c);
    ThinOrder(g, keep, c0, c, j0, j);
    assert CallApartAt(g, a0, c0, j0, env, s);
    ThinAddr(g, keep, a0, a, env, s);
    ThinAddr(g, keep, j0, j, env, s);
    ThinNext(g, keep, c0, c, env, s);
    forall x | Covers(Addr(r, j, env, s), x) && Addr(r, a, env, s) == Addr(r, j, env, s)
      ensures RunTo(r, c + 1, env, s).mem(x) == RunTo(r, c, env, s).mem(x)
    {
      assert CallKeeps(g, keep, c0, env, s, x);
    }
  }

  /** One step further along both. */
  lemma ThinNext(g: Trace, keep: seq<bool>, i: nat, j: nat, env: Env, s: State)
    requires |keep| == |g| && At(g, keep, i, j, env, s)
    ensures RunTo(Sift(g, keep), j + 1, env, s) == Run(SiftTo(g, keep, i + 1), env, s)
  {
    hide Sift, Step, SiftTo;
    var u := SiftTo(g, keep, i);
    SiftStep(g, keep, i);
    RunAppend(u, [g[i]], env, s);
    var t := Run(u, env, s);
    assert RunTo([g[i]], 1, env, t) == Step(g[i], env, RunTo([g[i]], 0, env, t));
  }

  lemma ThinTrusted(g: Trace, keep: seq<bool>, dropped: set<nat>, env: Env, s: State)
    requires Thins(g, keep, dropped, env, s) && Trusted(g, env, s)
    requires forall c, x :: 0 <= c < |g| && g[c].op == CALL && keep[c] ==> CallKeeps(g, keep, c, env, s, x)
    ensures Trusted(Sift(g, keep), env, s) && PrivateAddrs(Sift(g, keep)) <= PrivateAddrs(g)
  {
    hide Sift, RunTo, Thins, ShiftsOk, StoresKnown, CallsApart, X64, Disciplined, CallKeeps;
    ThinSizes(g, keep, dropped, env, s);
    ThinShifts(g, keep, dropped, env, s);
    ThinKnown(g, keep, dropped, env, s);
    ThinCalls(g, keep, dropped, env, s);
    ThinDisciplined(g, keep, dropped, env, s);
  }

  // ----- dead-code removal -----

  lemma LayerThins(g: Trace, env: Env, s: State)
    requires WellFormed(g)
    ensures Thins(g, DeadCode.LayerKeep(g), DeadCode.DroppedIds(g, DeadCode.LayerKeep(g)), env, s)
    ensures forall n :: 0 <= n <= |g| ==>
              RunTo(g, n, env, s).mem == Run(SiftTo(g, DeadCode.LayerKeep(g), n), env, s).mem
  {
    hide RunTo, Run, SiftTo, DeadCode.LayerKeep, AgreeExcept, Avoids;
    var keep := DeadCode.LayerKeep(g);
    OrderedOf(g);
    DeadCode.LayerSafe(g);
    forall n | 0 <= n <= |g|
      ensures AgreeExcept(RunTo(g, n, env, s).vals, Run(SiftTo(g, keep, n), env, s).vals, DeadCode.DroppedIds(g, keep))
      ensures RunTo(g, n, env, s).mem == Run(SiftTo(g, keep, n), env, s).mem
    {
      DeadCode.RemovalRun(g, keep, n, env, s);
    }
  }

  lemma LayerKeeps(g: Trace, env: Env, s: State)
    requires Trusted(g, env, s)
    ensures Trusted(DeadCode.DropLayer(g), env, s) && Keeps(g, DeadCode.DropLayer(g), env, s)
  {
    hide RunTo, Run, SiftTo, DeadCode.LayerKeep, Thins, Sane, Disciplined, PrivateAddrs, Sift, Covers, WellFormed;
    SaneFacts(g, env, s);
    OrderedOf(g);
    var keep := DeadCode.LayerKeep(g);
    LayerThins(g, env, s);
    ThinTrusted(g, keep, DeadCode.DroppedIds(g, keep), env, s);
    DeadCode.DropLayerMeaning(g, env, s);
    SiftIds(g, keep);
  }

  lemma SiftIds(g: Trace, keep: seq<bool>)
    requires |keep| == |g|
    ensures forall id :: HasId(Sift(g, keep), id) ==> HasId(g, id) && exists d :: d in Sift(g, keep) && d.resultId == id
  {
    hide Sift;
    var r := Sift(g, keep);
    forall id | HasId(r, id) ensures HasId(g, id) && exists d :: d in r && d.resultId == id {
      var j :| 0 <= j < |r| && r[j].resultId == id;
      assert r[j] in r && r[j] in g;
      var i :| 0 <= i < |g| && g[i] == r[j];
    }
  }

  // ----- dead-store removal -----

  lemma StoresThin(g: Trace, env: Env, s: State)
    requires Disciplined(g, env, s)
    ensures Thins(g, StoreKeep(g), Gone(g), env, s)
    ensures forall n :: 0 <= n <= |g| ==> Alike(g, n, RunTo(g, n, env, s), Run(SiftTo(g, StoreKeep(g), n), env, s))
  {
    hide RunTo, Run, SiftTo, StoreKeep, AgreeExcept, Avoids, Disciplined, DeadCell;
    DisciplinedFacts(g, env, s);
    forall i | 0 <= i < |g| ensures Avoids(g[i], Gone(g)) { GoneAvoided(g, i, env, s); }
    forall n | 0 <= n <= |g| ensures Alike(g, n, RunTo(g, n, env, s), Run(SiftTo(g, StoreKeep(g), n), env, s)) {
      DropStoresRun(g, n, env, s);
    }
  }

  /** Blind callees treat the two memories alike. */
  lemma BlindCallKeeps(g: Trace, c: nat, env: Env, s: State, x: Word)
    requires Disciplined(g, env, s) && c < |g| && g[c].op == CALL && StoreKeep(g)[c]
    ensures CallKeeps(g, StoreKeep(g), c, env, s, x)
  {
    hide SiftTo, StoreKeep, Disciplined, Overlap, LiveFrom, Covers, PrivateAddrs, Execute;
    var keep := StoreKeep(g);
    var u := SiftTo(g, keep, c);
    StoresThin(g, env, s);
    var t, t' := RunTo(g, c, env, s), Run(u, env, s);
    assert Alike(g, c, t, t');
    SiftStep(g, keep, c);
    RunAppend(u, [g[c]], env, s);
    assert RunTo([g[c]], 1, env, t') == Step(g[c], env, RunTo([g[c]], 0, env, t'));
    assert RunTo(g, c + 1, env, s) == Step(g[c], env, t);
    CallStep(g[c], env, t);
    CallStep(g[c], env, t');
    GoneAvoided(g, c, env, s);
    AvoidsEval(g[c], Gone(g), env, t.vals, t'.vals);
    if RunTo(g, c + 1, env, s).mem(x) == t.mem(x) {
      CallOnByte(g, c, env, s, t.calls, EvalAll(g[c].operands, env, t.vals), t.mem, t'.mem, x);
    }
  }

  lemma CallStep(d: Instruction, env: Env, t: State)
    requires d.op == CALL
    ensures Step(d, env, t).mem == env.call(t.calls, EvalAll(d.operands, env, t.vals), t.mem).mem
  {
    hide Load64, Store64, PureResult;
  }

  lemma CallOnByte(g: Trace, c: nat, env: Env, s: State, calls: nat, args: seq<Word>, m: Memory, m': Memory, x: Word)
    requires Disciplined(g, env, s) && c < |g| && forall y :: DeadCell(g, c, y) || m(y) == m'(y)
    requires env.call(calls, args, m).mem(x) == m(x)
    ensures env.call(calls, args, m').mem(x) == m'(x)
  {
    hide Covers, PrivateAddrs, LiveFrom, Overlap, RunTo;
    assert forall y :: DeadCell(g, c, y) ==> PrivateCell(g, y);
    assert AgreeOutside(g, m, m') && AgreeOutside(g, m', m');
    assert CallsBlind(g, env);
  }

  lemma StoresKeep(g: Trace, env: Env, s: State)
    requires Trusted(g, env, s)
    ensures Trusted(DropStores(g), env, s) && Keeps(g, DropStores(g), env, s)
  {
    hide RunTo, Run, SiftTo, StoreKeep, Thins, Sane, Disciplined, PrivateAddrs, Sift, Covers, CallKeeps, Alike;
    var keep := StoreKeep(g);
    StoresThin(g, env, s);
    forall c, x | 0 <= c < |g| && g[c].op == CALL && keep[c] ensures CallKeeps(g, keep, c, env, s, x) {
      BlindCallKeeps(g, c, env, s, x);
    }
    ThinTrusted(g, keep, Gone(g), env, s);
    DropStoresMeaning(g, env, s);
    SiftIds(g, keep);
  }

  // ----- the driver -----

  /** Every forwarding directly follows a promotion. */
  ghost predicate PromotesFirst(table: seq<Pass>) {
    forall k :: 0 <= k < |table| && table[k] == Local(MemForward) ==> k > 0 && table[k - 1] == Local(ConstPromote)
  }

  lemma PassKeeps(p: Pass, h: Host, g: Trace, env: Env, s: State)
    requires Trusted(g, env, s) && (p == Local(MemForward) ==> Promoted(g, |g|))
    ensures WellFormed(g) && Trusted(ApplyPass(p, h, g), env, s) && Keeps(g, ApplyPass(p, h, g), env, s)
    ensures p == Local(ConstPromote) ==> Promoted(ApplyPass(p, h, g), |ApplyPass(p, h, g)|)
  {
    hide Trusted, Keeps, Promoted, Apply, DeadCode.DropLayer, DropStores, WellFormed;
    TrustedFacts(g, env, s);
    match p
    case Local(q) => LocalKeeps(q, h, g, env, s);
    case DeadStoreElim => StoresKeep(g, env, s);
    case DeadDepElim => LayerKeeps(g, env, s);
  }

  lemma TrustedFacts(g: Trace, env: Env, s: State)
    requires Trusted(g, env, s)
    ensures WellFormed(g) && Ordered(g)
  {}

  lemma {:induction false} TableKeeps(table: seq<Pass>, n: nat, h: Host, g: Trace, hits: Hits, env: Env, s: State)
    requires PromotesFirst(table) && n <= |table| && Trusted(g, env, s)
    ensures WellFormed(g)
    ensures var r := RunTable(table, n, h, g, hits).trace;
            && Trusted(r, env, s) && Keeps(g, r, env, s)
            && (n > 0 && table[n - 1] == Local(ConstPromote) ==> Promoted(r, |r|))
  {
    hide Trusted, Keeps, Promoted, ApplyPass, WellFormed, PassName;
    TrustedFacts(g, env, s);
    if n == 0 {
      KeepsItself(g, env, s);
    } else {
      TableKeeps(table, n - 1, h, g, hits, env, s);
      var r := RunTable(table, n - 1, h, g, hits).trace;
      if table[n - 1] == Local(MemForward) { assert table[(n - 1) - 1] == Local(ConstPromote); }
      PassKeeps(table[n - 1], h, r, env, s);
      KeepsCompose(g, r, ApplyPass(table[n - 1], h, r), env, s);
    }
  }

  lemma {:induction false} ConvergeKeeps(table: seq<Pass>, h: Host, g: Trace, hits: Hits, it: nat, maxIters: int,
                                         env: Env, s: State)
    requires PromotesFirst(table) && Trusted(g, env, s)
    ensures WellFormed(g)
    ensures var r := Converge(table, h, g, hits, it, maxIters).trace;
            Trusted(r, env, s) && Keeps(g, r, env, s)
    decreases maxIters - it
  {
    hide Trusted, Keeps, RunTable, WellFormed;
    TrustedFacts(g, env, s);
    if it >= maxIters {
      KeepsItself(g, env, s);
    } else {
      var r := Round(table, h, g, hits);
      TableKeeps(table, |table|, h, g, hits, env, s);
      if r.any {
        ConvergeKeeps(table, h, r.trace, r.hits, it + 1, maxIters, env, s);
        KeepsCompose(g, r.trace, Converge(table, h, r.trace, r.hits, it + 1, maxIters).trace, env, s);
      }
    }
  }

  /** The full driver keeps events, calls, surviving values, and memory outside private cells. */
  lemma RunToConvergenceKeeps(h: Host, g: Trace, maxIters: int, env: Env, s: State)
    requires Trusted(g, env, s)
    ensures WellFormed(g)
    ensures var r := Converge(ALL_PASSES, h, g, map[], 0, maxIters).trace;
            Trusted(r, env, s) && Keeps(g, r, env, s)
  {
    hide Trusted, Keeps, Converge, WellFormed;
    ConvergeKeeps(ALL_PASSES, h, g, map[], 0, maxIters, env, s);
  }
}
