/** The two convergence drivers as functions: pass tables, rounds, the measure that makes
    every round count, the fixed point they stop at, and what they preserve. */
module Convergence {
  import opened Ir
  import opened Arithmetic
  import opened Machine
  import opened References
  import opened Rewrites
  import opened Removal
  import opened Meaning
  import DeadCode
  import DeadStore

  datatype Pass = Local(pass: LocalPass) | DeadStoreElim | DeadDepElim

  function PassName(p: Pass): string {
    match p
    case Local(ConstPromote) => "const_promote"
    case Local(MemForward) => "mem_forward"
    case Local(ConstFold) => "const_fold"
    case Local(InsnCombine) => "insn_combine"
    case Local(BranchFold) => "branch_fold"
    case DeadStoreElim => "dead_store_elim"
    case DeadDepElim => "dead_dep_elim"
  }

  const ALL_PASSES: seq<Pass> := [
    Local(ConstPromote), Local(MemForward), Local(ConstPromote), Local(ConstFold),
    Local(InsnCombine), DeadStoreElim, DeadDepElim, Local(BranchFold)]

  const FOLD_PASSES: seq<Pass> := [
    Local(ConstPromote), Local(MemForward), Local(ConstPromote), Local(ConstFold),
    Local(InsnCombine), Local(BranchFold)]

  function ApplyPass(p: Pass, h: Host, g: Trace): (r: Trace)
    requires WellFormed(g)
    ensures WellFormed(r)
  {
    match p
    case Local(q) => Apply(q, h, g)
    case DeadStoreElim => SiftWellFormed(g, DeadStore.StoreKeep(g)); DeadStore.DropStores(g)
    case DeadDepElim => SiftWellFormed(g, DeadCode.LayerKeep(g)); DeadCode.DropLayer(g)
  }

  type Hits = map<string, int>

  function Bump(hits: Hits, name: string): Hits {
    hits[name := (if name in hits then hits[name] else 0) + 1]
  }

  /** One round over a pass table: the trace, the hit counts, and whether any pass changed it. */
  datatype Progress = Progress(trace: Trace, hits: Hits, any: bool)

  function RunTable(table: seq<Pass>, n: nat, h: Host, g: Trace, hits: Hits): (r: Progress)
    requires WellFormed(g) && n <= |table|
    ensures WellFormed(r.trace)
  {
    if n == 0 then Progress(g, hits, false)
    else
      var prev := RunTable(table, n - 1, h, g, hits);
      var t := ApplyPass(table[n - 1], h, prev.trace);
      if t == prev.trace then prev else Progress(t, Bump(prev.hits, PassName(table[n - 1])), true)
  }

  function Round(table: seq<Pass>, h: Host, g: Trace, hits: Hits): (r: Progress)
    requires WellFormed(g)
    ensures WellFormed(r.trace)
  {
    RunTable(table, |table|, h, g, hits)
  }

  datatype Report = Report(iterations: int, passHits: Hits)
  datatype Outcome = Outcome(trace: Trace, report: Report)

  /** The driver loop from iteration `it` on. */
  function Converge(table: seq<Pass>, h: Host, g: Trace, hits: Hits, it: nat, maxIters: int): (r: Outcome)
    requires WellFormed(g)
    ensures WellFormed(r.trace)
    decreases maxIters - it
  {
    if it >= maxIters then Outcome(g, Report(it, hits))
    else
      var r := Round(table, h, g, hits);
      if r.any then Converge(table, h, r.trace, r.hits, it + 1, maxIters)
      else Outcome(r.trace, Report(it + 1, r.hits))
  }

  // ----- rounds without bookkeeping -----

  /** The trace after the first `n` passes of the table. */
  function TableTrace(table: seq<Pass>, n: nat, h: Host, g: Trace): (r: Trace)
    requires WellFormed(g) && n <= |table|
    ensures WellFormed(r)
  {
    if n == 0 then g else ApplyPass(table[n - 1], h, TableTrace(table, n - 1, h, g))
  }

  lemma {:induction false} TableTraceIs(table: seq<Pass>, n: nat, h: Host, g: Trace, hits: Hits)
    requires WellFormed(g) && n <= |table|
    ensures RunTable(table, n, h, g, hits).trace == TableTrace(table, n, h, g)
  {
    hide ApplyPass, WellFormed, PassName;
    if n > 0 { TableTraceIs(table, n - 1, h, g, hits); }
  }

  function Rounds(table: seq<Pass>, h: Host, g: Trace, r: nat): (t: Trace)
    requires WellFormed(g)
    ensures WellFormed(t)
    decreases r
  {
    if r == 0 then g else Rounds(table, h, TableTrace(table, |table|, h, g), r - 1)
  }

  /** A driver run is some number of rounds. */
  lemma {:induction false} ConvergeRounds(table: seq<Pass>, h: Host, g: Trace, hits: Hits, it: nat, maxIters: int)
    returns (r: nat)
    requires WellFormed(g)
    ensures Converge(table, h, g, hits, it, maxIters).trace == Rounds(table, h, g, r)
    ensures it < maxIters ==> r > 0
    decreases maxIters - it
  {
    hide ApplyPass, WellFormed, RunTable, TableTrace;
    r := 0;
    if it < maxIters {
      TableTraceIs(table, |table|, h, g, hits);
      var next := Round(table, h, g, hits);
      if next.any {
        r := ConvergeRounds(table, h, next.trace, next.hits, it + 1, maxIters);
      } else {
        assert Rounds(table, h, next.trace, 0) == next.trace;
      }
      r := r + 1;
    }
  }

  // ----- the measure -----

  predicate Reducible(op: Op) { FoldableBinary(op) || FoldableUnary(op) || op == SELECT || op == LOAD || op == CJMP }

  function ReducibleOf(d: Instruction): nat { if Reducible(d.op) then 1 else 0 }

  function ValueWeight(v: Value): nat { if v.InstrRef? then v.id + 1 else 0 }

  function OperandWeight(vs: seq<Value>): nat {
    if |vs| == 0 then 0 else OperandWeight(vs[..|vs| - 1]) + ValueWeight(vs[|vs| - 1])
  }

  function WeightOf(d: Instruction): nat { OperandWeight(d.operands) }

  function Total(g: Trace, f: Instruction -> nat): nat {
    if |g| == 0 then 0 else Total(g[..|g| - 1], f) + f(g[|g| - 1])
  }

  function Reductions(g: Trace): nat { Total(g, ReducibleOf) }
  function RefWeight(g: Trace): nat { Total(g, WeightOf) }

  /** Fewer reducible operations; or as many and lighter references; or as much and shorter. */
  predicate Smaller(r: Trace, g: Trace) {
    || Reductions(r) < Reductions(g)
    || (Reductions(r) == Reductions(g) && RefWeight(r) < RefWeight(g))
    || (Reductions(r) == Reductions(g) && RefWeight(r) == RefWeight(g) && |r| < |g|)
  }

  lemma {:induction false} TotalReplaced(g: Trace, i: nat, x: Instruction, f: Instruction -> nat)
    requires i < |g|
    ensures Total(g[i := x], f) + f(g[i]) == Total(g, f) + f(x)
  {
    var n := |g| - 1;
    if i < n {
      TotalReplaced(g[..n], i, x, f);
      assert g[i := x][..n] == g[..n][i := x];
    } else {
      assert g[i := x][..n] == g[..n];
    }
  }

  lemma {:induction false} TotalSifted(g: Trace, keep: seq<bool>, f: Instruction -> nat)
    requires |keep| == |g|
    ensures Total(Sift(g, keep), f) <= Total(g, f)
  {
    if |g| > 0 {
      var n := |g| - 1;
      TotalSifted(g[..n], keep[..n], f);
      var t := Sift(g[..n], keep[..n]);
      assert (t + [g[n]])[..|t|] == t;
      assert t + [] == t;
    }
  }

  /** Resolution moves strictly down, or nowhere. */
  lemma {:induction false} ResolveLighter(g: Trace, v: Value)
    requires Ordered(g)
    ensures Resolve(g, v) == v || ValueWeight(Resolve(g, v)) < ValueWeight(v)
    decreases if v.InstrRef? then v.id + 1 else 0
  {
    if v.InstrRef? {
      match Def(g, v.id)
      case None =>
      case Some(d) => if !IsConstDef(d) && IsCopy(d) { ResolveLighter(g, d.operands[0]); }
    }
  }

  lemma {:induction false} PromotedLighter(g: Trace, vs: seq<Value>)
    requires Ordered(g)
    ensures PromoteOperands(g, vs) == vs || OperandWeight(PromoteOperands(g, vs)) < OperandWeight(vs)
    ensures OperandWeight(PromoteOperands(g, vs)) <= OperandWeight(vs)
  {
    hide Resolve;
    if |vs| > 0 {
      var n := |vs| - 1;
      PromotedLighter(g, vs[..n]);
      ResolveLighter(g, vs[n]);
      assert PromoteOperands(g, vs)[..n] == PromoteOperands(g, vs[..n]);
      if PromoteOperands(g, vs[..n]) == vs[..n] && Resolve(g, vs[n]) == vs[n] {
        assert PromoteOperands(g, vs) == vs;
      }
    }
  }

  /** Only promotion keeps the operation when it changes an instruction. */
  lemma SameOpUnchanged(p: LocalPass, h: Host, g: Trace, i: nat)
    requires Ordered(g) && i < |g| && p != ConstPromote && RewriteAt(p, h, g, i).op == g[i].op
    ensures RewriteAt(p, h, g, i) == g[i]
  {
    hide FoldBinary, FoldUnary, AndXor, Resolve, Def, LastStore, OpName;
  }

  lemma VisitSmaller(p: LocalPass, h: Host, g: Trace, i: nat)
    requires WellFormed(g) && i < |g|
    ensures Visit(p, h, g, i) == g || Smaller(Visit(p, h, g, i), g)
  {
    hide RewriteAt, Resolve;
    var x := RewriteAt(p, h, g, i);
    RewriteShape(p, h, g, i);
    TotalReplaced(g, i, x, ReducibleOf);
    TotalReplaced(g, i, x, WeightOf);
    if x.op == g[i].op {
      if p == ConstPromote {
        VisitPromotes(h, g, i);
        assert g[i := x][i] == x && g[i := Promote(g, i)][i] == Promote(g, i);
        PromotedLighter(g, g[i].operands);
      } else {
        SameOpUnchanged(p, h, g, i);
      }
    }
  }

  lemma {:induction false} ApplySmaller(p: LocalPass, h: Host, g: Trace, n: nat)
    requires WellFormed(g) && n <= |g|
    ensures ApplyTo(p, h, g, n) == g || Smaller(ApplyTo(p, h, g, n), g)
  {
    hide Visit, WellFormed, Total;
    if n > 0 {
      ApplySmaller(p, h, g, n - 1);
      VisitSmaller(p, h, ApplyTo(p, h, g, n - 1), n - 1);
    }
  }

  lemma SiftSmaller(g: Trace, keep: seq<bool>)
    requires |keep| == |g|
    ensures Sift(g, keep) == g || Smaller(Sift(g, keep), g)
  {
    hide Sift, Total;
    TotalSifted(g, keep, ReducibleOf);
    TotalSifted(g, keep, WeightOf);
    SiftLength(g, keep);
  }

  /** A pass that changes the trace makes it smaller; one that does not leaves it alone. */
  lemma PassSmaller(p: Pass, h: Host, g: Trace)
    requires WellFormed(g)
    ensures ApplyPass(p, h, g) == g || Smaller(ApplyPass(p, h, g), g)
  {
    hide Smaller, WellFormed, Sift, ApplyTo;
    match p
    case Local(q) => ApplySmaller(q, h, g, |g|);
    case DeadStoreElim => SiftSmaller(g, DeadStore.StoreKeep(g));
    case DeadDepElim => SiftSmaller(g, DeadCode.LayerKeep(g));
  }

  lemma {:induction false} TableSmaller(table: seq<Pass>, n: nat, h: Host, g: Trace, hits: Hits)
    requires WellFormed(g) && n <= |table|
    ensures var r := RunTable(table, n, h, g, hits);
            if r.any then Smaller(r.trace, g) else r.trace == g && r.hits == hits
  {
    hide ApplyPass, WellFormed, Reductions, RefWeight, PassName;
    if n > 0 {
      TableSmaller(table, n - 1, h, g, hits);
      PassSmaller(table[n - 1], h, RunTable(table, n - 1, h, g, hits).trace);
    }
  }

  // ----- no pass lengthens a trace -----

  lemma PassShorter(p: Pass, h: Host, g: Trace)
    requires WellFormed(g)
    ensures |ApplyPass(p, h, g)| <= |g|
  {
    hide WellFormed, Apply, DeadStore.StoreKeep, DeadCode.LayerKeep;
  }

  lemma {:induction false} TableShorter(table: seq<Pass>, n: nat, k: nat, h: Host, g: Trace, hits: Hits)
    requires WellFormed(g) && n <= k <= |table|
    ensures |RunTable(table, k, h, g, hits).trace| <= |RunTable(table, n, h, g, hits).trace|
  {
    hide WellFormed, ApplyPass, PassName;
    if n < k {
      TableShorter(table, n, k - 1, h, g, hits);
      PassShorter(table[k - 1], h, RunTable(table, k - 1, h, g, hits).trace);
    }
  }

  lemma {:induction false} ConvergeShorter(table: seq<Pass>, h: Host, g: Trace, hits: Hits, it: nat, maxIters: int)
    requires WellFormed(g)
    ensures |Converge(table, h, g, hits, it, maxIters).trace| <= |g|
    ensures it < maxIters ==> |Converge(table, h, g, hits, it, maxIters).trace| <= |Round(table, h, g, hits).trace|
    decreases maxIters - it
  {
    hide WellFormed, RunTable;
    if it < maxIters {
      var r := Round(table, h, g, hits);
      TableShorter(table, 0, |table|, h, g, hits);
      TableStart(table, h, g, hits);
      if r.any { ConvergeShorter(table, h, r.trace, r.hits, it + 1, maxIters); }
    }
  }

  lemma TableStart(table: seq<Pass>, h: Host, g: Trace, hits: Hits)
    requires WellFormed(g)
    ensures RunTable(table, 0, h, g, hits).trace == g
  {}

  // ----- what the driver stops at -----

  ghost predicate FixedPoint(table: seq<Pass>, h: Host, g: Trace)
    requires WellFormed(g)
  {
    forall p :: p in table ==> ApplyPass(p, h, g) == g
  }

  lemma {:induction false} IdleTable(table: seq<Pass>, n: nat, h: Host, g: Trace, hits: Hits)
    requires WellFormed(g) && n <= |table| && !RunTable(table, n, h, g, hits).any
    ensures RunTable(table, n, h, g, hits).trace == g
    ensures forall k :: 0 <= k < n ==> ApplyPass(table[k], h, g) == g
  {
    hide ApplyPass, WellFormed;
    if n > 0 { IdleTable(table, n - 1, h, g, hits); }
  }

  /** Stopping before the cap means that no pass of the table can change the result. */
  lemma {:induction false} StopsAtFixedPoint(table: seq<Pass>, h: Host, g: Trace, hits: Hits, it: nat, maxIters: int)
    requires WellFormed(g) && it <= maxIters
    ensures var r := Converge(table, h, g, hits, it, maxIters);
            it <= r.report.iterations <= maxIters
            && (r.report.iterations < maxIters ==> FixedPoint(table, h, r.trace))
    decreases maxIters - it
  {
    hide ApplyPass, WellFormed;
    if it < maxIters {
      var r := Round(table, h, g, hits);
      if r.any {
        StopsAtFixedPoint(table, h, r.trace, r.hits, it + 1, maxIters);
      } else {
        IdleTable(table, |table|, h, g, hits);
      }
    }
  }

  lemma {:induction false} FixedTable(table: seq<Pass>, n: nat, h: Host, g: Trace, hits: Hits)
    requires WellFormed(g) && n <= |table| && FixedPoint(table, h, g)
    ensures RunTable(table, n, h, g, hits) == Progress(g, hits, false)
  {
    hide ApplyPass, WellFormed;
    if n > 0 {
      FixedTable(table, n - 1, h, g, hits);
      assert table[n - 1] in table;
    }
  }

  /** A fixed point is returned as it is. */
  lemma FixedPointStays(table: seq<Pass>, h: Host, g: Trace, hits: Hits, it: nat, maxIters: int)
    requires WellFormed(g) && FixedPoint(table, h, g)
    ensures Converge(table, h, g, hits, it, maxIters).trace == g
  {
    hide RunTable, WellFormed, FixedPoint;
    FixedTable(table, |table|, h, g, hits);
  }

  /** Some number of rounds always suffices: the cap is not what makes the driver terminate. */
  lemma {:induction false} Terminates(table: seq<Pass>, h: Host, g: Trace, hits: Hits, it: nat) returns (rounds: nat)
    requires WellFormed(g)
    ensures forall maxIters :: maxIters >= it + rounds ==>
              && Converge(table, h, g, hits, it, maxIters).report.iterations <= it + rounds
              && FixedPoint(table, h, Converge(table, h, g, hits, it, maxIters).trace)
    decreases Reductions(g), RefWeight(g), |g|
  {
    hide ApplyPass, WellFormed, Reductions, RefWeight;
    var r := Round(table, h, g, hits);
    if r.any {
      TableSmaller(table, |table|, h, g, hits);
      var more := Terminates(table, h, r.trace, r.hits, it + 1);
      rounds := more + 1;
    } else {
      IdleTable(table, |table|, h, g, hits);
      rounds := 1;
    }
  }

  /** With `rounds` rounds or more the driver stops by itself, at a fixed point. */
  ghost predicate Suffices(table: seq<Pass>, h: Host, g: Trace, rounds: nat)
    requires WellFormed(g)
  {
    forall maxIters :: maxIters >= rounds ==>
      && Converge(table, h, g, map[], 0, maxIters).report.iterations <= rounds
      && FixedPoint(table, h, Converge(table, h, g, map[], 0, maxIters).trace)
  }

  lemma ConvergenceNeedsNoCap(table: seq<Pass>, h: Host, g: Trace)
    requires WellFormed(g)
    ensures exists rounds :: Suffices(table, h, g, rounds)
  {
    hide ApplyPass, WellFormed, Converge;
    var rounds := Terminates(table, h, g, map[], 0);
    assert Suffices(table, h, g, rounds);
  }

  // ----- what the fold driver preserves -----

  /** Only value-propagating passes, and every forwarding follows a promotion. */
  ghost predicate FoldTable(table: seq<Pass>) {
    forall k :: 0 <= k < |table| ==>
      table[k].Local? && (table[k].pass == MemForward ==> k > 0 && table[k - 1] == Local(ConstPromote))
  }

  /** The runs of two traces go through the same states. */
  ghost predicate SameRuns(g: Trace, r: Trace, env: Env, s: State) {
    |r| == |g| && forall n :: 0 <= n <= |g| ==> RunTo(r, n, env, s) == RunTo(g, n, env, s)
  }

  lemma PassMeaning(p: LocalPass, h: Host, g: Trace, env: Env, s: State)
    requires Sane(g, env, s) && (p == MemForward ==> Promoted(g, |g|))
    ensures Sane(Apply(p, h, g), env, s) && SameRuns(g, Apply(p, h, g), env, s)
    ensures p == ConstPromote ==> Promoted(Apply(p, h, g), |g|)
  {
    hide RunTo, ApplyTo, StoresKnown, Promoted, CallsApart, ShiftsOk, X64;
    if p == MemForward { PromotedKnown(g, env, s); }
    if p == ConstPromote { PromotionResolves(h, g, |g|); }
    ApplySound(p, h, g, |g|, 0, env, s);
    forall n | 0 <= n <= |g| ensures RunTo(Apply(p, h, g), n, env, s) == RunTo(g, n, env, s) {
      ApplySound(p, h, g, |g|, n, env, s);
    }
  }

  lemma {:induction false} TableMeaning(table: seq<Pass>, n: nat, h: Host, g: Trace, hits: Hits, env: Env, s: State)
    requires FoldTable(table) && n <= |table| && Sane(g, env, s)
    ensures var r := RunTable(table, n, h, g, hits).trace;
            && Sane(r, env, s) && SameRuns(g, r, env, s)
            && (n > 0 && table[n - 1] == Local(ConstPromote) ==> Promoted(r, |r|))
  {
    hide RunTo, StoresKnown, CallsApart, ShiftsOk, X64, Promoted, Apply, Ordered, PassName;
    if n > 0 {
      TableMeaning(table, n - 1, h, g, hits, env, s);
      assert table[n - 1].Local?;
      if table[n - 1].pass == MemForward { assert table[(n - 1) - 1] == Local(ConstPromote); }
      PassMeaning(table[n - 1].pass, h, RunTable(table, n - 1, h, g, hits).trace, env, s);
    }
  }

  lemma {:induction false} ConvergeMeaning(table: seq<Pass>, h: Host, g: Trace, hits: Hits, it: nat, maxIters: int,
                                           env: Env, s: State)
    requires FoldTable(table) && Sane(g, env, s)
    ensures var r := Converge(table, h, g, hits, it, maxIters).trace;
            Sane(r, env, s) && SameRuns(g, r, env, s)
    decreases maxIters - it
  {
    hide Sane, RunTable, RunTo;
    SaneFacts(g, env, s);
    if it < maxIters {
      var r := Round(table, h, g, hits);
      TableMeaning(table, |table|, h, g, hits, env, s);
      if r.any { ConvergeMeaning(table, h, r.trace, r.hits, it + 1, maxIters, env, s); }
    }
  }

  lemma SaneFacts(g: Trace, env: Env, s: State)
    requires Sane(g, env, s)
    ensures WellFormed(g)
  {}

  /** What `run_fold_convergence` returns. */
  function FoldConverge(h: Host, g: Trace, maxIters: int): (r: Outcome)
    requires WellFormed(g)
    ensures WellFormed(r.trace)
  {
    Converge(FOLD_PASSES, h, g, map[], 0, maxIters)
  }

  /** The fold driver preserves every state of every sane run, on every host. */
  lemma FoldConvergePreservesRuns(h: Host, g: Trace, maxIters: int, env: Env, s: State)
    requires Sane(g, env, s)
    ensures var r := FoldConverge(h, g, maxIters).trace;
            Sane(r, env, s) && SameRuns(g, r, env, s)
  {
    hide Sane, Converge;
    SaneFacts(g, env, s);
    ConvergeMeaning(FOLD_PASSES, h, g, map[], 0, maxIters, env, s);
  }

  lemma RunsCompose(g: Trace, r: Trace, t: Trace, env: Env, s: State)
    requires SameRuns(g, r, env, s) && SameRuns(r, t, env, s)
    ensures SameRuns(g, t, env, s)
  {
    hide RunTo;
    forall n | 0 <= n <= |g| ensures RunTo(t, n, env, s) == RunTo(g, n, env, s) {
      assert RunTo(r, n, env, s) == RunTo(g, n, env, s);
      assert RunTo(t, n, env, s) == RunTo(r, n, env, s);
    }
  }

  lemma RoundMeaning(h: Host, g: Trace, env: Env, s: State)
    requires Sane(g, env, s)
    ensures WellFormed(g)
    ensures var t := TableTrace(FOLD_PASSES, |FOLD_PASSES|, h, g);
            Sane(t, env, s) && SameRuns(g, t, env, s)
  {
    hide Sane, TableTrace, RunTable, RunTo, WellFormed;
    SaneFacts(g, env, s);
    TableTraceIs(FOLD_PASSES, |FOLD_PASSES|, h, g, map[]);
    TableMeaning(FOLD_PASSES, |FOLD_PASSES|, h, g, map[], env, s);
  }

  /** So does any number of rounds. */
  lemma {:induction false} RoundsMeaning(h: Host, g: Trace, r: nat, env: Env, s: State)
    requires Sane(g, env, s)
    ensures WellFormed(g)
    ensures Sane(Rounds(FOLD_PASSES, h, g, r), env, s) && SameRuns(g, Rounds(FOLD_PASSES, h, g, r), env, s)
    decreases r
  {
    hide Sane, TableTrace, RunTo, WellFormed;
    SaneFacts(g, env, s);
    if r > 0 {
      RoundMeaning(h, g, env, s);
      var t := TableTrace(FOLD_PASSES, |FOLD_PASSES|, h, g);
      RoundsMeaning(h, t, r - 1, env, s);
      RunsCompose(g, t, Rounds(FOLD_PASSES, h, g, r), env, s);
    }
  }
}
