/** Traces that agree everywhere but at one position, whose result nothing mentions. The
    value-propagating passes treat such twins alike, however that position computes its result. */
module Twins {
  import opened Ir
  import opened Arithmetic
  import opened Machine
  import opened References
  import opened Rewrites
  import opened Meaning
  import opened Convergence

  /** Nothing in `g` mentions the result of position `i`. */
  ghost predicate Unmentioned(g: Trace, i: nat)
    requires i < |g|
  {
    forall k :: 0 <= k < |g| ==> g[i].Ref() !in g[k].operands
  }

  /** `a` has the constant `w` at position `i`, and `b` something that is no store. */
  ghost predicate Twin(a: Trace, b: Trace, i: nat, w: Word) {
    && WellFormed(a) && WellFormed(b) && i < |a| == |b| && a[i].resultId == b[i].resultId
    && a[i].op == CONST && a[i].operands == [Const64(w)] && b[i].op != STORE
    && (forall k :: 0 <= k < |a| && k != i ==> a[k] == b[k])
    && Unmentioned(a, i) && Unmentioned(b, i)
  }

  lemma TwinDef(a: Trace, b: Trace, i: nat, w: Word, id: nat)
    requires Twin(a, b, i, w) && id != a[i].resultId
    ensures Def(a, id) == Def(b, id)
  {
    hide IndexMap;
    IndexMapSameIds(a, b);
    OrderedOf(a);
    if Def(a, id).Some? { var k := DefPosition(a, id); DefAt(b, k); }
    if Def(b, id).Some? { var k := DefPosition(b, id); DefAt(a, k); }
  }

  lemma TwinOrdered(a: Trace, b: Trace, i: nat, w: Word)
    requires Twin(a, b, i, w)
    ensures Ordered(a) && Ordered(b) && WellFormed(a) && WellFormed(b)
  {}

  lemma {:induction false} TwinResolve(a: Trace, b: Trace, i: nat, w: Word, v: Value)
    requires Twin(a, b, i, w) && v != a[i].Ref()
    ensures Ordered(a) && Ordered(b)
    ensures Resolve(a, v) == Resolve(b, v) && Resolve(a, v) != a[i].Ref()
    decreases if v.InstrRef? then v.id + 1 else 0
  {
    hide IndexMap, Def;
    TwinOrdered(a, b, i, w);
    if v.InstrRef? {
      TwinDef(a, b, i, w, v.id);
      match Def(a, v.id)
      case None =>
      case Some(d) =>
        if !IsConstDef(d) && IsCopy(d) {
          var k := DefPosition(a, v.id);
          assert d.operands[0] in a[k].operands;
          TwinResolve(a, b, i, w, d.operands[0]);
        }
    }
  }

  lemma {:induction false} TwinLastStore(a: Trace, b: Trace, i: nat, w: Word, n: nat, key: Key)
    requires Twin(a, b, i, w) && n <= |a|
    ensures LastStore(a, n, key) == LastStore(b, n, key)
  {
    hide WellFormed, Unmentioned;
    if n > 0 { TwinLastStore(a, b, i, w, n - 1, key); }
  }

  lemma TwinPromote(a: Trace, b: Trace, i: nat, w: Word, k: nat)
    requires Twin(a, b, i, w) && k < |a| && k != i
    ensures Ordered(a) && Ordered(b) && Promote(a, k) == Promote(b, k)
  {
    hide Resolve, Def;
    TwinOrdered(a, b, i, w);
    forall j | 0 <= j < |a[k].operands| ensures Resolve(a, a[k].operands[j]) == Resolve(b, b[k].operands[j]) {
      assert a[k].operands[j] in a[k].operands;
      TwinResolve(a, b, i, w, a[k].operands[j]);
    }
  }

  lemma TwinUndone(a: Trace, b: Trace, i: nat, w: Word, k: nat)
    requires Twin(a, b, i, w) && k < |a| && k != i
    ensures Undone(a, a[k]) == Undone(b, b[k])
  {
    hide Def, WellFormed;
    if FoldableUnary(a[k].op) && |a[k].operands| == 1 && a[k].operands[0].InstrRef? {
      assert a[k].operands[0] in a[k].operands;
      TwinDef(a, b, i, w, a[k].operands[0].id);
    }
  }

  lemma TwinAndXor(a: Trace, b: Trace, i: nat, w: Word, u: Value, v: Value)
    requires Twin(a, b, i, w) && u != a[i].Ref()
    ensures AndXor(a, u, v) == AndXor(b, u, v)
  {
    hide IndexMap, WellFormed, Def;
    if u.InstrRef? {
      TwinDef(a, b, i, w, u.id);
      if Def(a, u.id).Some? {
        var m := DefPosition(a, u.id);
        forall j | 0 <= j < |a[m].operands| && a[m].operands[j].InstrRef?
          ensures Def(a, a[m].operands[j].id) == Def(b, a[m].operands[j].id)
        {
          assert a[m].operands[j] in a[m].operands;
          TwinDef(a, b, i, w, a[m].operands[j].id);
        }
      }
    }
  }

  lemma TwinCombine(a: Trace, b: Trace, i: nat, w: Word, k: nat)
    requires Twin(a, b, i, w) && k < |a| && k != i
    ensures Ordered(a) && Ordered(b) && Combine(a, k) == Combine(b, k)
  {
    hide Resolve, Def, Undone, AndXor, WellFormed;
    TwinOrdered(a, b, i, w);
    var d := a[k];
    assert forall j :: 0 <= j < |d.operands| ==> d.operands[j] in a[k].operands;
    TwinUndone(a, b, i, w, k);
    if |d.operands| == 2 {
      TwinResolve(a, b, i, w, d.operands[1]);
      TwinAndXor(a, b, i, w, d.operands[0], d.operands[1]);
      TwinAndXor(a, b, i, w, d.operands[1], d.operands[0]);
    }
  }

  /** Away from the position twins are rewritten alike, ... */
  lemma TwinRewrite(p: LocalPass, h: Host, a: Trace, b: Trace, i: nat, w: Word, k: nat)
    requires Twin(a, b, i, w) && k < |a| && k != i
    ensures Ordered(a) && Ordered(b) && RewriteAt(p, h, a, k) == RewriteAt(p, h, b, k)
  {
    hide Resolve, Twin, Promote, Combine, Fold, LastStore, Ordered;
    TwinOrdered(a, b, i, w);
    TwinSame(a, b, i, w, k);
    match p
    case ConstPromote => TwinPromote(a, b, i, w, k);
    case MemForward => if IsLoad(a[k]) { TwinLastStore(a, b, i, w, k, AddrKey(a[k].operands[0])); }
    case ConstFold =>
    case InsnCombine => TwinCombine(a, b, i, w, k);
    case BranchFold =>
  }

  lemma TwinSame(a: Trace, b: Trace, i: nat, w: Word, k: nat)
    requires Twin(a, b, i, w) && k < |a| && k != i
    ensures |a| == |b| && a[k] == b[k]
  {}

  /** ... at it the constant stays, and the other never becomes a store, ... */
  lemma TwinSelf(p: LocalPass, h: Host, a: Trace, b: Trace, i: nat, w: Word)
    requires Twin(a, b, i, w)
    ensures Ordered(a) && Ordered(b) && RewriteAt(p, h, a, i) == a[i]
    ensures RewriteAt(p, h, b, i).op != STORE && RewriteAt(p, h, b, i).resultId == b[i].resultId
  {
    hide IndexMap, Unmentioned, WellFormed;
    TwinOrdered(a, b, i, w);
    RewriteShape(p, h, b, i);
    if p == ConstPromote { assert PromoteOperands(a, a[i].operands) == a[i].operands; }
  }

  /** ... and no rewrite mentions it. */
  lemma StillUnmentioned(p: LocalPass, h: Host, g: Trace, i: nat, k: nat)
    requires WellFormed(g) && i < |g| && k < |g| && Unmentioned(g, i)
    ensures |Visit(p, h, g, k)| == |g| && Unmentioned(Visit(p, h, g, k), i)
  {
    hide RewriteAt, WellFormed;
    OrderedOf(g);
    var x := RewriteAt(p, h, g, k);
    if g[i].Ref() in x.operands {
      var j :| 0 <= j < |x.operands| && x.operands[j] == g[i].Ref();
      RewriteMentions(p, h, g, k, j);
      assert false;
    }
  }

  lemma TwinVisit(p: LocalPass, h: Host, a: Trace, b: Trace, i: nat, w: Word, k: nat)
    requires Twin(a, b, i, w) && k < |a|
    ensures WellFormed(a) && WellFormed(b) && Twin(Visit(p, h, a, k), Visit(p, h, b, k), i, w)
  {
    hide RewriteAt, Unmentioned;
    StillUnmentioned(p, h, a, i, k);
    StillUnmentioned(p, h, b, i, k);
    if k == i { TwinSelf(p, h, a, b, i, w); } else { TwinRewrite(p, h, a, b, i, w, k); }
  }

  lemma {:induction false} TwinApply(p: LocalPass, h: Host, a: Trace, b: Trace, i: nat, w: Word, n: nat)
    requires Twin(a, b, i, w) && n <= |a|
    ensures WellFormed(a) && WellFormed(b) && |a| == |b|
    ensures Twin(ApplyTo(p, h, a, n), ApplyTo(p, h, b, n), i, w)
  {
    hide Visit, Twin;
    TwinOrdered(a, b, i, w);
    TwinLengths(a, b, i, w);
    if n > 0 {
      TwinApply(p, h, a, b, i, w, n - 1);
      TwinVisit(p, h, ApplyTo(p, h, a, n - 1), ApplyTo(p, h, b, n - 1), i, w, n - 1);
    }
  }

  lemma TwinLengths(a: Trace, b: Trace, i: nat, w: Word)
    requires Twin(a, b, i, w)
    ensures |a| == |b| && i < |a|
  {}

  lemma {:induction false} TwinTable(n: nat, m: nat, h: Host, a: Trace, b: Trace, i: nat, w: Word)
    requires m <= n <= |FOLD_PASSES| && WellFormed(a) && WellFormed(b)
    requires Twin(TableTrace(FOLD_PASSES, m, h, a), TableTrace(FOLD_PASSES, m, h, b), i, w)
    ensures Twin(TableTrace(FOLD_PASSES, n, h, a), TableTrace(FOLD_PASSES, n, h, b), i, w)
  {
    hide Twin, Apply, WellFormed;
    if n > m {
      TwinTable(n - 1, m, h, a, b, i, w);
      var u, v := TableTrace(FOLD_PASSES, n - 1, h, a), TableTrace(FOLD_PASSES, n - 1, h, b);
      TwinWhole(FOLD_PASSES[n - 1].pass, h, u, v, i, w);
    }
  }

  lemma TwinWhole(p: LocalPass, h: Host, a: Trace, b: Trace, i: nat, w: Word)
    requires Twin(a, b, i, w) && WellFormed(a) && WellFormed(b)
    ensures Twin(Apply(p, h, a), Apply(p, h, b), i, w)
  {
    hide Twin, ApplyTo, WellFormed;
    TwinLengths(a, b, i, w);
    TwinApply(p, h, a, b, i, w, |a|);
  }

  lemma {:induction false} TwinRounds(r: nat, h: Host, a: Trace, b: Trace, i: nat, w: Word)
    requires Twin(a, b, i, w)
    ensures WellFormed(a) && WellFormed(b)
    ensures Twin(Rounds(FOLD_PASSES, h, a, r), Rounds(FOLD_PASSES, h, b, r), i, w)
    decreases r
  {
    hide Twin, TableTrace, WellFormed;
    TwinOrdered(a, b, i, w);
    if r > 0 {
      TableNone(h, a);
      TableNone(h, b);
      TwinTable(|FOLD_PASSES|, 0, h, a, b, i, w);
      TwinRounds(r - 1, h, TableTrace(FOLD_PASSES, |FOLD_PASSES|, h, a), TableTrace(FOLD_PASSES, |FOLD_PASSES|, h, b),
                 i, w);
    }
  }

  lemma TableNone(h: Host, g: Trace)
    requires WellFormed(g)
    ensures TableTrace(FOLD_PASSES, 0, h, g) == g
  {}

  // ----- a condition assumed, and a condition named -----

  /** After promoting the first `n` positions: `a` comes from the trace whose position `i` has
      become the constant `w`, `b` from the one whose mentions of it have. */
  ghost predicate Half(f: Trace, a: Trace, b: Trace, i: nat, w: Word, n: nat) {
    && WellFormed(f) && WellFormed(a) && WellFormed(b) && i < |f| == |a| == |b| && n <= |f|
    && (forall k :: 0 <= k < |f| ==> a[k].resultId == b[k].resultId == f[k].resultId)
    && a[i].op == CONST && a[i].operands == [Const64(w)] && b[i].op != STORE
    && (forall k :: 0 <= k < n && k != i ==> a[k] == b[k] && f[i].Ref() !in a[k].operands)
    && (forall k :: n <= k < |f| && k != i ==> a[k] == f[k])
    && (forall k :: n <= k < |f| && k != i ==> b[k] == f[k].(operands := Named(f[k].operands, f[i].Ref(), w)))
  }

  /** Every occurrence of `c` replaced by the constant. */
  function Named(vs: seq<Value>, c: Value, w: Word): seq<Value> {
    seq(|vs|, k requires 0 <= k < |vs| => if vs[k] == c then Const64(w) else vs[k])
  }

  lemma HalfDef(f: Trace, a: Trace, b: Trace, i: nat, w: Word, n: nat, id: nat)
    requires Half(f, a, b, i, w, n) && n < |f| && id < f[n].resultId && id != f[i].resultId
    ensures Def(a, id) == Def(b, id)
    ensures Def(a, id).Some? ==> f[i].Ref() !in Def(a, id).value.operands
  {
    hide IndexMap;
    IndexMapSameIds(a, b);
    OrderedOf(a);
    OrderedOf(b);
    if Def(a, id).Some? {
      var k := DefPosition(a, id);
      HalfBefore(f, a, b, i, w, n, k);
      DefAt(b, k);
    }
    if Def(b, id).Some? { var k := DefPosition(b, id); DefAt(a, k); }
  }

  /** Earlier results come from earlier positions, which are alike. */
  lemma HalfBefore(f: Trace, a: Trace, b: Trace, i: nat, w: Word, n: nat, k: nat)
    requires Half(f, a, b, i, w, n) && n < |f| && k < |f|
    requires a[k].resultId < f[n].resultId && a[k].resultId != f[i].resultId
    ensures k < n && k != i && a[k] == b[k] && f[i].Ref() !in a[k].operands
  {}

  lemma {:induction false} HalfResolve(f: Trace, a: Trace, b: Trace, i: nat, w: Word, n: nat, v: Value)
    requires Half(f, a, b, i, w, n) && n < |f| && Below(v, f[n].resultId) && v != f[i].Ref()
    ensures Ordered(a) && Ordered(b) && Resolve(a, v) == Resolve(b, v) && Resolve(a, v) != f[i].Ref()
    decreases if v.InstrRef? then v.id + 1 else 0
  {
    hide IndexMap, Def, Half;
    HalfOrdered(f, a, b, i, w, n);
    if v.InstrRef? {
      HalfDef(f, a, b, i, w, n, v.id);
      match Def(a, v.id)
      case None =>
      case Some(d) =>
        if !IsConstDef(d) && IsCopy(d) {
          var k := DefPosition(a, v.id);
          assert d.operands[0] in d.operands;
          assert Below(d.operands[0], a[k].resultId);
          HalfResolve(f, a, b, i, w, n, d.operands[0]);
        }
    }
  }

  lemma HalfOrdered(f: Trace, a: Trace, b: Trace, i: nat, w: Word, n: nat)
    requires Half(f, a, b, i, w, n)
    ensures Ordered(a) && Ordered(b) && Ordered(f) && WellFormed(a) && WellFormed(b) && i < |f| == |a| == |b|
    ensures Def(a, f[i].resultId) == Some(a[i]) && a[i].op == CONST && a[i].operands == [Const64(w)]
  {
    hide IndexMap;
    OrderedOf(a);
    DefAt(a, i);
  }

  lemma HalfOperand(f: Trace, a: Trace, b: Trace, i: nat, w: Word, n: nat, j: nat)
    requires Half(f, a, b, i, w, n) && n < |f| && n != i && j < |f[n].operands|
    ensures Ordered(a) && Ordered(b) && |a[n].operands| == |b[n].operands| == |f[n].operands|
    ensures Resolve(a, a[n].operands[j]) == Resolve(b, b[n].operands[j]) && Resolve(a, a[n].operands[j]) != f[i].Ref()
  {
    hide IndexMap, Def;
    HalfOrdered(f, a, b, i, w, n);
    var v := f[n].operands[j];
    if v != f[i].Ref() { HalfResolve(f, a, b, i, w, n, v); }
  }

  lemma HalfNext(h: Host, f: Trace, a: Trace, b: Trace, i: nat, w: Word, n: nat)
    requires Half(f, a, b, i, w, n) && n < |f|
    ensures WellFormed(a) && WellFormed(b)
    ensures Half(f, Visit(ConstPromote, h, a, n), Visit(ConstPromote, h, b, n), i, w, n + 1)
  {
    hide Resolve, IndexMap, WellFormed;
    HalfOrdered(f, a, b, i, w, n);
    VisitPromotes(h, a, n);
    VisitPromotes(h, b, n);
    if n == i {
      assert PromoteOperands(a, a[i].operands) == a[i].operands by { ConstResolves(a, w); }
    } else {
      forall j | 0 <= j < |f[n].operands|
        ensures |a[n].operands| == |b[n].operands| == |f[n].operands|
        ensures Resolve(a, a[n].operands[j]) == Resolve(b, b[n].operands[j])
        ensures Resolve(a, a[n].operands[j]) != f[i].Ref()
      {
        HalfOperand(f, a, b, i, w, n, j);
      }
      assert Promote(a, n).operands == Promote(b, n).operands;
    }
  }

  lemma ConstResolves(g: Trace, w: Word)
    requires Ordered(g)
    ensures Resolve(g, Const64(w)) == Const64(w)
  {}

  lemma {:induction false} HalfApply(h: Host, f: Trace, a: Trace, b: Trace, i: nat, w: Word, n: nat)
    requires Half(f, a, b, i, w, 0) && n <= |f|
    ensures WellFormed(a) && WellFormed(b) && |a| == |b| == |f|
    ensures Half(f, ApplyTo(ConstPromote, h, a, n), ApplyTo(ConstPromote, h, b, n), i, w, n)
  {
    hide Half, Visit, WellFormed;
    HalfOrdered(f, a, b, i, w, 0);
    if n > 0 {
      HalfApply(h, f, a, b, i, w, n - 1);
      HalfNext(h, f, ApplyTo(ConstPromote, h, a, n - 1), ApplyTo(ConstPromote, h, b, n - 1), i, w, n - 1);
    }
  }

  /** One promotion makes them twins. */
  lemma HalfTwins(h: Host, f: Trace, a: Trace, b: Trace, i: nat, w: Word)
    requires Half(f, a, b, i, w, 0)
    ensures WellFormed(a) && WellFormed(b)
    ensures Twin(Apply(ConstPromote, h, a), Apply(ConstPromote, h, b), i, w)
  {
    hide ApplyTo, IndexMap;
    HalfApply(h, f, a, b, i, w, |f|);
    var u, v := Apply(ConstPromote, h, a), Apply(ConstPromote, h, b);
    forall k | 0 <= k < |f| ensures u[i].Ref() !in u[k].operands && v[i].Ref() !in v[k].operands {
      if k == i {
        assert forall j :: 0 <= j < |v[i].operands| ==> Below(v[i].operands[j], v[i].resultId);
      }
    }
  }

  lemma HalfRounds(r: nat, h: Host, f: Trace, a: Trace, b: Trace, i: nat, w: Word)
    requires Half(f, a, b, i, w, 0) && r > 0
    ensures WellFormed(a) && WellFormed(b)
    ensures Twin(Rounds(FOLD_PASSES, h, a, r), Rounds(FOLD_PASSES, h, b, r), i, w)
  {
    hide Half, Twin, Apply, WellFormed;
    HalfOrdered(f, a, b, i, w, 0);
    HalfTwins(h, f, a, b, i, w);
    FirstPass(h, a);
    FirstPass(h, b);
    TwinTable(|FOLD_PASSES|, 1, h, a, b, i, w);
    TwinRounds(r - 1, h, TableTrace(FOLD_PASSES, |FOLD_PASSES|, h, a), TableTrace(FOLD_PASSES, |FOLD_PASSES|, h, b), i,
               w);
  }

  lemma FirstPass(h: Host, g: Trace)
    requires WellFormed(g)
    ensures TableTrace(FOLD_PASSES, 1, h, g) == Apply(ConstPromote, h, g)
  {
    assert TableTrace(FOLD_PASSES, 0, h, g) == g;
  }
}
