/** What the guided evaluator's traces mean and how they are numbered: its own optimization keeps
    runs exactly when its promotions are right, and the traces it returns are closed. */
module GuidedMeaning {
  import opened Ir
  import opened Arithmetic
  import opened Machine
  import opened References
  import opened Rewrites
  import opened Meaning
  import opened Removal
  import opened Convergence
  import opened Renumber
  import opened Guided
  import BM = ByteMemory
  import DeadCode
  import DeadStore
  import Promotion

  // ----- folding before promoting -----

  /** In every round that is run, every promotion's bytes are right. */
  ghost predicate PromotionsRight(p: Setting, g: Trace, bytes: BM.Bytes, rounds: nat, env: Env, s: State)
    requires WellFormed(g)
    decreases rounds
  {
    hide WellFormed;
    rounds > 0 ==>
      var f := FoldConverge(p.h, g, 8).trace;
      var w := Promotion.SweepTo(f, bytes, p.ranges, |f|);
      && Promotion.SweepRight(f, bytes, p.ranges, env, s)
      && (Promotion.Hit(f, w.trace) ==> PromotionsRight(p, w.trace, w.bytes, rounds - 1, env, s))
  }

  lemma {:induction false} OptimizedKeepsSettled(p: Setting, g: Trace, bytes: BM.Bytes, rounds: nat, i: nat)
    requires WellFormed(g) && i < |g| && Promotion.Settled(g[i])
    ensures var t := Optimized(p, g, bytes, rounds).trace;
            |t| == |g| && t[i] == g[i]
    decreases rounds
  {
    hide WellFormed, FoldConverge, Promotion.SweepTo, Promotion.Hit;
    if rounds > 0 {
      Promotion.FoldKeepsSettled(p.h, g, 8, i);
      var f := FoldConverge(p.h, g, 8).trace;
      Promotion.SweepKeepsSettled(f, bytes, p.ranges, i);
      var w := Promotion.SweepTo(f, bytes, p.ranges, |f|);
      if Promotion.Hit(f, w.trace) { OptimizedKeepsSettled(p, w.trace, w.bytes, rounds - 1, i); }
    }
  }

  lemma {:induction false} OptimizedPreserves(p: Setting, g: Trace, bytes: BM.Bytes, rounds: nat, env: Env, s: State)
    requires Sane(g, env, s) && WellFormed(g) && PromotionsRight(p, g, bytes, rounds, env, s)
    ensures SameRuns(g, Optimized(p, g, bytes, rounds).trace, env, s)
    ensures Sane(Optimized(p, g, bytes, rounds).trace, env, s)
    decreases rounds
  {
    hide Sane, RunTo, FoldConverge, Promotion.SweepTo, Promotion.Hit, Promotion.RightAt, WellFormed;
    if rounds > 0 {
      FoldConvergePreservesRuns(p.h, g, 8, env, s);
      var f := FoldConverge(p.h, g, 8).trace;
      Promotion.RightRuns(f, bytes, p.ranges, |f|, env, s);
      var w := Promotion.SweepTo(f, bytes, p.ranges, |f|);
      RunsCompose(g, f, w.trace, env, s);
      if Promotion.Hit(f, w.trace) {
        OptimizedPreserves(p, w.trace, w.bytes, rounds - 1, env, s);
        RunsCompose(g, w.trace, Optimized(p, g, bytes, rounds).trace, env, s);
      }
    }
  }

  lemma {:induction false} OptimizedNeedsRight(p: Setting, g: Trace, bytes: BM.Bytes, rounds: nat, env: Env, s: State)
    requires Sane(g, env, s) && WellFormed(g) && SameRuns(g, Optimized(p, g, bytes, rounds).trace, env, s)
    ensures PromotionsRight(p, g, bytes, rounds, env, s)
    decreases rounds
  {
    hide Sane, RunTo, FoldConverge, Promotion.SweepTo, Promotion.Hit, Promotion.RightAt, WellFormed,
         Promotion.KeepsPromotions;
    if rounds > 0 {
      var last := Optimized(p, g, bytes, rounds).trace;
      FoldConvergePreservesRuns(p.h, g, 8, env, s);
      var f := FoldConverge(p.h, g, 8).trace;
      var w := Promotion.SweepTo(f, bytes, p.ranges, |f|);
      Promotion.RunsMeet(g, f, last, env, s);
      OptimizedKeepsPromotions(p, g, bytes, rounds);
      Promotion.KeptPromotionsRight(f, bytes, p.ranges, |f|, last, env, s);
      Promotion.RightRuns(f, bytes, p.ranges, |f|, env, s);
      if Promotion.Hit(f, w.trace) {
        Promotion.RunsMeet(f, w.trace, last, env, s);
        OptimizedNeedsRight(p, w.trace, w.bytes, rounds - 1, env, s);
      }
    }
  }

  lemma OptimizedKeepsPromotions(p: Setting, g: Trace, bytes: BM.Bytes, rounds: nat)
    requires WellFormed(g) && rounds > 0
    ensures var f := FoldConverge(p.h, g, 8).trace;
            Promotion.KeepsPromotions(f, Promotion.SweepTo(f, bytes, p.ranges, |f|).trace,
                                      Optimized(p, g, bytes, rounds).trace)
  {
    hide WellFormed, FoldConverge, Promotion.SweepTo, Promotion.Hit;
    var f := FoldConverge(p.h, g, 8).trace;
    var w := Promotion.SweepTo(f, bytes, p.ranges, |f|);
    FoldSameIds(p.h, g, 8);
    OptimizedSameIds(p, g, bytes, rounds);
    forall i | 0 <= i < |f| && f[i].op == LOAD && Promotion.Settled(w.trace[i])
      ensures Optimized(p, g, bytes, rounds).trace[i] == w.trace[i]
    {
      if Promotion.Hit(f, w.trace) { OptimizedKeepsSettled(p, w.trace, w.bytes, rounds - 1, i); }
    }
  }

  /** The evaluator folds first: every state of a sane run is kept if and only if in every round that
      is run every promotion's bytes are right. */
  lemma OptimizedExact(p: Setting, g: Trace, bytes: BM.Bytes, rounds: nat, env: Env, s: State)
    requires Sane(g, env, s)
    ensures WellFormed(g)
    ensures SameRuns(g, Optimized(p, g, bytes, rounds).trace, env, s) <==> PromotionsRight(p, g, bytes, rounds, env, s)
    ensures PromotionsRight(p, g, bytes, rounds, env, s) ==> Sane(Optimized(p, g, bytes, rounds).trace, env, s)
  {
    hide Sane, SameRuns, Optimized, PromotionsRight;
    SaneFacts(g, env, s);
    if PromotionsRight(p, g, bytes, rounds, env, s) { OptimizedPreserves(p, g, bytes, rounds, env, s); }
    if SameRuns(g, Optimized(p, g, bytes, rounds).trace, env, s) { OptimizedNeedsRight(p, g, bytes, rounds, env, s); }
  }

  // ----- closed traces -----

  /** No store is annotated as private: the lifter annotates none. */
  ghost predicate Public(g: Trace) { forall i :: 0 <= i < |g| && g[i].op == STORE ==> !Private(g[i]) }

  /** Well formed, without private stores, and every reference has a definition. */
  ghost predicate Whole(g: Trace) { WellFormed(g) && Public(g) && DeadCode.SelfContained(g) }

  lemma VisitWhole(p: LocalPass, h: Host, g: Trace, i: nat)
    requires Whole(g) && i < |g|
    ensures Whole(Visit(p, h, g, i))
  {
    hide RewriteAt, Def, IndexMap;
    var r := Visit(p, h, g, i);
    RewriteShape(p, h, g, i);
    var x := RewriteAt(p, h, g, i);
    forall k, j | 0 <= k < |r| && 0 <= j < |r[k].operands| && r[k].operands[j].InstrRef?
      ensures Def(r, r[k].operands[j].id).Some?
    {
      if k == i { RewriteMentions(p, h, g, i, j); }
      DefReplaced(g, i, x, r[k].operands[j].id);
    }
  }

  lemma {:induction false} ApplyWhole(p: LocalPass, h: Host, g: Trace, n: nat)
    requires Whole(g) && n <= |g|
    ensures Whole(ApplyTo(p, h, g, n))
  {
    hide Visit, Public, DeadCode.SelfContained, WellFormed;
    if n > 0 {
      ApplyWhole(p, h, g, n - 1);
      VisitWhole(p, h, ApplyTo(p, h, g, n - 1), n - 1);
    }
  }

  lemma StoresWhole(g: Trace)
    requires Whole(g)
    ensures DeadStore.DropStores(g) == g
  {
    hide DeadStore.LiveFrom, Sift, DeadCode.SelfContained;
    SiftLength(g, DeadStore.StoreKeep(g));
  }

  lemma LayerWhole(g: Trace)
    requires Whole(g)
    ensures Whole(DeadCode.DropLayer(g))
  {
    hide Def, Sift, DeadCode.SafeRemoval;
    var r := DeadCode.DropLayer(g);
    forall i | 0 <= i < |r| ensures r[i] in g { assert r[i] in r; }
    DeadCode.LayerSafe(g);
    DeadCode.RemovalSelfContained(g, DeadCode.LayerKeep(g));
    SiftWellFormed(g, DeadCode.LayerKeep(g));
  }

  lemma PassWhole(p: Pass, h: Host, g: Trace)
    requires Whole(g)
    ensures Whole(ApplyPass(p, h, g))
  {
    hide Public, DeadCode.SelfContained, WellFormed, ApplyTo, DeadCode.DropLayer, DeadStore.DropStores;
    match p
    case Local(q) => ApplyWhole(q, h, g, |g|);
    case DeadStoreElim => StoresWhole(g);
    case DeadDepElim => LayerWhole(g);
  }

  lemma {:induction false} TableWhole(table: seq<Pass>, n: nat, h: Host, g: Trace, hits: Hits)
    requires Whole(g) && n <= |table|
    ensures Whole(RunTable(table, n, h, g, hits).trace)
  {
    hide Public, DeadCode.SelfContained, WellFormed, ApplyPass, PassName;
    if n > 0 {
      TableWhole(table, n - 1, h, g, hits);
      PassWhole(table[n - 1], h, RunTable(table, n - 1, h, g, hits).trace);
    }
  }

  /** Convergence leaves no dangling reference, whatever the passes. */
  lemma {:induction false} ConvergeWhole(table: seq<Pass>, h: Host, g: Trace, hits: Hits, it: nat, maxIters: int)
    requires Whole(g)
    ensures Whole(Converge(table, h, g, hits, it, maxIters).trace)
    decreases maxIters - it
  {
    hide Public, DeadCode.SelfContained, WellFormed, RunTable;
    if it < maxIters {
      TableWhole(table, |table|, h, g, hits);
      var r := Round(table, h, g, hits);
      if r.any { ConvergeWhole(table, h, r.trace, r.hits, it + 1, maxIters); }
    }
  }

  /** References of an ordered trace that have a definition have an earlier one, under one id. */
  lemma WholeClosed(g: Trace)
    requires Whole(g)
    ensures UniqueIds(g) && Closed(g)
  {
    hide Def;
    forall i, k | 0 <= i < |g| && 0 <= k < |g[i].operands| ensures RefersWithin(g, i, g[i].operands[k]) {
      var v := g[i].operands[k];
      if v.InstrRef? {
        assert Def(g, v.id).Some?;
        var j := DefPosition(g, v.id);
        assert Below(v, g[i].resultId);
        assert j < i;
      }
    }
  }

  // ----- the evaluator's traces -----

  /** The lifter annotates no store as private. */
  ghost predicate PublicLifter(lift: Lifter) {
    forall insn, regs, id, k :: 0 <= k < |lift(insn, regs, id).emits| ==>
      lift(insn, regs, id).emits[k].op == STORE ==> !IsPrivate(lift(insn, regs, id).emits[k].annotations)
  }

  predicate IsPrivate(ann: Annotations) { "vm_private" in ann && ann["vm_private"] == "1" }

  /** Ids are positions, and no store is private. */
  ghost predicate Numbered(e: EvalState) {
    && e.nextId == |e.instrs| && (forall i :: 0 <= i < |e.instrs| ==> e.instrs[i].resultId == i)
    && Public(e.instrs)
  }

  lemma NumberedWhole(p: Setting, e: EvalState)
    requires Fits(p, e) && Numbered(e)
    ensures Whole(e.instrs)
  {
    hide Def, LifterFits, RegsBelow;
    var g := e.instrs;
    forall i, k | 0 <= i < |g| && 0 <= k < |g[i].operands| && g[i].operands[k].InstrRef?
      ensures Def(g, g[i].operands[k].id).Some?
    {
      assert Below(g[i].operands[k], g[i].resultId);
      DefAt(g, g[i].operands[k].id);
    }
  }

  lemma LiftOneNumbered(p: Setting, e: EvalState, insn: Insn)
    requires Fits(p, e) && Numbered(e) && PublicLifter(p.lift)
    ensures Numbered(LiftOne(p, e, insn))
  {
    hide Fits;
  }

  /** A trace rewritten under the same ids, without new stores. */
  lemma RewrittenNumbered(e: EvalState, g: Trace, bytes: BM.Bytes)
    requires Numbered(e) && SameIds(e.instrs, g) && Public(g)
    ensures Numbered(e.(instrs := g, bytes := bytes))
  {}

  lemma FoldedNumbered(p: Setting, e: EvalState, maxIters: int)
    requires Fits(p, e) && Numbered(e)
    ensures Numbered(Folded(p, e, maxIters))
  {
    hide Fits, Numbered, FoldConverge, WellFormed, DeadCode.SelfContained, Public;
    NumberedWhole(p, e);
    FoldWhole(p.h, e.instrs, maxIters);
    FoldSameIds(p.h, e.instrs, maxIters);
    RewrittenNumbered(e, FoldConverge(p.h, e.instrs, maxIters).trace, e.bytes);
  }

  lemma FoldWhole(h: Host, g: Trace, maxIters: int)
    requires Whole(g)
    ensures Whole(FoldConverge(h, g, maxIters).trace)
  {
    hide Whole, Converge;
    assert WellFormed(g) by { WholeWellFormed(g); }
    ConvergeWhole(FOLD_PASSES, h, g, map[], 0, maxIters);
  }

  lemma WholeWellFormed(g: Trace)
    requires Whole(g)
    ensures WellFormed(g)
  {}

  lemma {:induction false} LiftFromNumbered(p: Setting, e: EvalState, insns: seq<Insn>, i: nat, start: Word)
    requires Fits(p, e) && Numbered(e) && PublicLifter(p.lift) && i <= |insns|
    ensures Numbered(LiftFrom(p, e, insns, i, start).state)
    decreases |insns| - i
  {
    hide Fits, Numbered, PublicLifter, LiftOne, Folded, JumpTarget, BM.InSafeRange;
    if i < |insns| {
      var e' := LiftOne(p, e, insns[i]);
      LiftOneNumbered(p, e, insns[i]);
      if insns[i].mnemonic == "ret" {
        FoldedNumbered(p, e', 8);
      } else if !Guided.Terminates(insns[i]) {
        LiftFromNumbered(p, e', insns, i + 1, start);
      }
    }
  }

  lemma SweepStepPublic(g: Trace, i: nat, bytes: BM.Bytes, ranges: seq<BM.MemRange>)
    requires Ordered(g) && i < |g|
    ensures var x := Promotion.SweepInstr(g, i, bytes, ranges);
            x.op == STORE ==> x == g[i]
  {
    hide Ordered, Resolve, BM.Load, BM.InSafeRange;
  }

  lemma {:induction false} SweepPublic(g: Trace, bytes: BM.Bytes, ranges: seq<BM.MemRange>, n: nat)
    requires WellFormed(g) && Public(g) && n <= |g|
    ensures Public(Promotion.SweepTo(g, bytes, ranges, n).trace)
  {
    hide WellFormed, Promotion.SweepInstr;
    if n > 0 {
      SweepPublic(g, bytes, ranges, n - 1);
      var w := Promotion.SweepTo(g, bytes, ranges, n - 1);
      OrderedOf(w.trace);
      SweepStepPublic(w.trace, n - 1, w.bytes, ranges);
    }
  }

  lemma {:induction false} OptimizedPublic(p: Setting, e: EvalState, g: Trace, bytes: BM.Bytes, rounds: nat)
    requires Fits(p, e) && Numbered(e) && WellFormed(g) && SameIds(e.instrs, g) && Public(g)
    ensures Public(Optimized(p, g, bytes, rounds).trace)
    decreases rounds
  {
    hide Fits, Numbered, WellFormed, Public, SameIds, DeadCode.SelfContained, FoldConverge, Promotion.SweepTo,
         Promotion.Hit;
    if rounds > 0 {
      FitsRewritten(p, e, g, e.bytes);
      RewrittenNumbered(e, g, e.bytes);
      NumberedWhole(p, e.(instrs := g, bytes := e.bytes));
      FoldWhole(p.h, g, 8);
      FoldSameIds(p.h, g, 8);
      var f := FoldConverge(p.h, g, 8).trace;
      SweepPublic(f, bytes, p.ranges, |f|);
      SweepSameIds(f, bytes, p.ranges, |f|);
      var w := Promotion.SweepTo(f, bytes, p.ranges, |f|);
      SameIdsThrough(e.instrs, g, f, w.trace);
      if Promotion.Hit(f, w.trace) { OptimizedPublic(p, e, w.trace, w.bytes, rounds - 1); }
    }
  }

  lemma SameIdsThrough(g: Trace, r: Trace, t: Trace, u: Trace)
    requires SameIds(g, r) && SameIds(r, t) && SameIds(t, u)
    ensures SameIds(g, u)
  {}

  lemma TurnNumbered(p: Setting, at: Position, maxVmInsns: int)
    requires Fits(p, at.state) && Numbered(at.state) && PublicLifter(p.lift)
    ensures Numbered(Turn(p, at, maxVmInsns).state)
  {
    hide Fits, Numbered, PublicLifter, Arrived, Evaluated, Ordered;
    FitsTrace(p, at.state);
    ArrivedFits(p, at.state, at.va, maxVmInsns);
    ArrivedTrace(p, at.state, at.va, maxVmInsns);
    var a := Arrived(p, at.state, at.va, maxVmInsns);
    SameNumbers(at.state, a.state);
    if a.result == IN_PROGRESS { EvaluatedNumbered(p, a.state, at.va); }
  }

  lemma SameNumbers(e: EvalState, r: EvalState)
    requires Numbered(e) && r.instrs == e.instrs && r.nextId == e.nextId
    ensures Numbered(r)
  {}

  lemma EvaluatedNumbered(p: Setting, e: EvalState, va: Word)
    requires Fits(p, e) && Numbered(e) && PublicLifter(p.lift)
    ensures Numbered(Evaluated(p, e, va).state)
  {
    hide Fits, Numbered, PublicLifter, LiftFrom, Optimized, JumpTarget, Public, SameIds, WellFormed, Ordered;
    var j := e.(jmpTrace := e.jmpTrace + [va]);
    JumpedFits(p, e, va);
    SameNumbers(e, j);
    if p.decode(va).Some? {
      var w := LiftFrom(p, j, p.decode(va).value, 0, va);
      LiftFromNumbered(p, j, p.decode(va).value, 0, va);
      FitsTrace(p, w.state);
      NumberedPublic(w.state);
      OptimizedPublic(p, w.state, w.state.instrs, w.state.bytes, 3);
      OptimizedSameIds(p, w.state.instrs, w.state.bytes, 3);
      var o := Optimized(p, w.state.instrs, w.state.bytes, 3);
      RewrittenNumbered(w.state, o.trace, o.bytes);
      SameNumbers(OptimizedWindow(p, w).state, Led(p, OptimizedWindow(p, w)).state);
    }
  }

  lemma NumberedPublic(e: EvalState)
    requires Numbered(e)
    ensures Public(e.instrs) && SameIds(e.instrs, e.instrs)
  {}

  lemma {:induction false} TurnsNumbered(p: Setting, e: EvalState, start: Word, maxVmInsns: int, n: nat)
    requires Fits(p, e) && Unused(e) && PublicLifter(p.lift)
    ensures Numbered(Turns(p, e, start, maxVmInsns, n).state)
  {
    hide Fits, Turn, PublicLifter;
    if n > 0 {
      hide Numbered;
      TurnsNumbered(p, e, start, maxVmInsns, n - 1);
      TurnNumbered(p, Turns(p, e, start, maxVmInsns, n - 1), maxVmInsns);
    }
  }

  /** The trace that the evaluator returns, after any number of turns and the final optimization, has
      unique ids, and every reference is to an earlier result of the same trace. */
  lemma ReturnedClosed(p: Setting, e: EvalState, start: Word, maxVmInsns: int, n: nat, maxIters: int)
    requires Fits(p, e) && Unused(e) && PublicLifter(p.lift)
    ensures var last := Turns(p, e, start, maxVmInsns, n).state;
            && WellFormed(last.instrs)
            && var g := Converge(ALL_PASSES, p.h, last.instrs, map[], 0, maxIters).trace;
               UniqueIds(g) && Closed(g)
  {
    hide Fits, Unused, PublicLifter, Turns, Numbered, Converge, WellFormed, Public, DeadCode.SelfContained, Closed,
         UniqueIds;
    var last := Turns(p, e, start, maxVmInsns, n).state;
    TurnsNumbered(p, e, start, maxVmInsns, n);
    NumberedWhole(p, last);
    ConvergeWhole(ALL_PASSES, p.h, last.instrs, map[], 0, maxIters);
    WholeClosed(Converge(ALL_PASSES, p.h, last.instrs, map[], 0, maxIters).trace);
  }
}
