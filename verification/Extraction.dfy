/** The target extraction, exactly: the trace that is folded under each assumption, how long it is
    folded, and which pair of targets that gives. */
module Extraction {
  import opened Ir
  import opened Arithmetic
  import opened Machine
  import opened References
  import opened Rewrites
  import opened Convergence
  import opened Vjcc

  // ----- the assumption -----

  /** `a` is `f` under the assumption that the condition is `b`: its definition, if it is a reference, is
      the constant; if it is a register, every mention is. Nothing else differs. */
  ghost predicate AssumedAs(f: Trace, c: Value, b: Word, a: Trace) {
    && |a| == |f|
    && forall i :: 0 <= i < |f| ==>
         && (c.InstrRef? && f[i].resultId == c.id ==> a[i] == Instruction(CONST, [Const(b, 64)], c.id, map[]))
         && (c.InstrRef? && f[i].resultId != c.id ==> a[i] == f[i])
         && (c.SymReg? ==>
               && a[i] == f[i].(operands := a[i].operands) && |a[i].operands| == |f[i].operands|
               && forall k :: 0 <= k < |f[i].operands| ==>
                    a[i].operands[k] == if f[i].operands[k] == SymReg(c.name) then Const(b, 64) else f[i].operands[k])
  }

  lemma AssumeAs(f: Trace, c: Value, b: Word)
    requires c.InstrRef? || c.SymReg?
    ensures AssumedAs(f, c, b, Assume(f, c, b))
  {}

  lemma AssumedOnce(f: Trace, c: Value, b: Word, a: Trace)
    requires (c.InstrRef? || c.SymReg?) && AssumedAs(f, c, b, a)
    ensures a == Assume(f, c, b)
  {
    var g := Assume(f, c, b);
    forall i | 0 <= i < |f| ensures a[i] == g[i] {
      if c.SymReg? { assert a[i].operands == g[i].operands; }
    }
  }

  // ----- how long it is folded -----

  lemma {:induction false} FixedRounds(table: seq<Pass>, h: Host, g: Trace, r: nat)
    requires WellFormed(g) && FixedPoint(table, h, g)
    ensures Rounds(table, h, g, r) == g
    decreases r
  {
    hide WellFormed, FixedPoint, RunTable, TableTrace;
    if r > 0 {
      FixedTable(table, |table|, h, g, map[]);
      TableTraceIs(table, |table|, h, g, map[]);
      FixedRounds(table, h, g, r - 1);
    }
  }

  /** A driver does as many rounds as its cap says; that it stops early never shows in the trace. */
  lemma {:induction false} ConvergeIsRounds(table: seq<Pass>, h: Host, g: Trace, hits: Hits, it: nat, maxIters: nat)
    requires WellFormed(g) && it <= maxIters
    ensures Converge(table, h, g, hits, it, maxIters).trace == Rounds(table, h, g, maxIters - it)
    decreases maxIters - it
  {
    hide WellFormed, RunTable, TableTrace, ApplyPass;
    if it < maxIters {
      TableTraceIs(table, |table|, h, g, hits);
      var r := Round(table, h, g, hits);
      if r.any {
        ConvergeIsRounds(table, h, r.trace, r.hits, it + 1, maxIters);
      } else {
        IdleTable(table, |table|, h, g, hits);
        FixedRounds(table, h, g, maxIters - it);
      }
    }
  }

  lemma {:induction false} RoundsSplit(table: seq<Pass>, h: Host, g: Trace, r: nat, k: nat)
    requires WellFormed(g)
    ensures Rounds(table, h, g, r + k) == Rounds(table, h, Rounds(table, h, g, r), k)
    decreases r
  {
    hide WellFormed, TableTrace;
    if r > 0 { RoundsSplit(table, h, TableTrace(table, |table|, h, g), r - 1, k); }
  }

  /** Passes in the order of the source. */
  lemma RoundInOrder(h: Host, g: Trace)
    requires WellFormed(g)
    ensures Rounds(FOLD_PASSES, h, g, 1)
         == Apply(BranchFold, h, Apply(InsnCombine, h, Apply(ConstFold, h,
                  Apply(ConstPromote, h, Apply(MemForward, h, Apply(ConstPromote, h, g))))))
  {
    hide WellFormed, ApplyTo;
    var t1 := TableTrace(FOLD_PASSES, 1, h, g);
    assert TableTrace(FOLD_PASSES, 0, h, g) == g && t1 == Apply(ConstPromote, h, g);
    var t2 := TableTrace(FOLD_PASSES, 2, h, g);
    assert t2 == Apply(MemForward, h, t1);
    var t3 := TableTrace(FOLD_PASSES, 3, h, g);
    assert t3 == Apply(ConstPromote, h, t2);
    var t4 := TableTrace(FOLD_PASSES, 4, h, g);
    assert t4 == Apply(ConstFold, h, t3);
    var t5 := TableTrace(FOLD_PASSES, 5, h, g);
    assert t5 == Apply(InsnCombine, h, t4);
    var t6 := TableTrace(FOLD_PASSES, 6, h, g);
    assert t6 == Apply(BranchFold, h, t5);
    assert Rounds(FOLD_PASSES, h, t6, 0) == t6;
  }

  // ----- the targets -----

  /** Under the assumption `b` the VPC is the constant `w` after 32 rounds of folding. */
  ghost predicate Reaches(h: Host, f: Trace, vpc: Value, c: Value, b: Word, w: Word) {
    (c.InstrRef? || c.SymReg?)
    && exists a: Trace :: FoldsTo(h, f, vpc, c, b, w, a)
  }

  ghost predicate FoldsTo(h: Host, f: Trace, vpc: Value, c: Value, b: Word, w: Word, a: Trace) {
    && AssumedAs(f, c, b, a) && WellFormed(a)
    && Ordered(Rounds(FOLD_PASSES, h, a, 32))
    && var r := Resolve(Rounds(FOLD_PASSES, h, a, 32), vpc);
       r.Const? && r.value == w
  }

  lemma ComputedExact(h: Host, f: Trace, vpc: Value, c: Value, b: Word, w: Word)
    requires WellFormed(f)
    ensures ComputeTarget(h, f, vpc, c, b) == Some(w) <==> Reaches(h, f, vpc, c, b, w)
  {
    hide WellFormed, Resolve, AssumedAs, Assume, Converge, Rounds, Ordered;
    if c.InstrRef? || c.SymReg? {
      AssumeWellFormed(f, c, b);
      var g := Assume(f, c, b);
      AssumeAs(f, c, b);
      ConvergeIsRounds(FOLD_PASSES, h, g, map[], 0, 32);
      OrderedOf(Rounds(FOLD_PASSES, h, g, 32));
      if ComputeTarget(h, f, vpc, c, b) == Some(w) { assert FoldsTo(h, f, vpc, c, b, w, g); }
      forall a: Trace | FoldsTo(h, f, vpc, c, b, w, a) ensures a == g { AssumedOnce(f, c, b, a); }
    }
  }

  /** Targets are extracted if and only if each assumption leads to a constant VPC and the two differ. */
  lemma ExtractExact(h: Host, f: Trace, vpc: Value, c: Value, taken: Word, notTaken: Word)
    requires WellFormed(f)
    ensures ExtractTargets(h, f, vpc, c) == Some((taken, notTaken))
       <==> Reaches(h, f, vpc, c, 1, taken) && Reaches(h, f, vpc, c, 0, notTaken) && taken != notTaken
  {
    hide WellFormed, ComputeTarget, Reaches;
    ComputedExact(h, f, vpc, c, 1, taken);
    ComputedExact(h, f, vpc, c, 0, notTaken);
  }

  /** If folding reaches a fixed point within the 32 rounds, the targets are those of the fixed point,
      which is also what any larger number of rounds gives. */
  lemma FixedTarget(h: Host, a: Trace, r: nat, more: nat)
    requires WellFormed(a) && r <= 32 <= more && FixedPoint(FOLD_PASSES, h, Rounds(FOLD_PASSES, h, a, r))
    ensures Rounds(FOLD_PASSES, h, a, more) == Rounds(FOLD_PASSES, h, a, 32) == Rounds(FOLD_PASSES, h, a, r)
  {
    hide WellFormed, FixedPoint, Rounds;
    RoundsSplit(FOLD_PASSES, h, a, r, 32 - r);
    RoundsSplit(FOLD_PASSES, h, a, r, more - r);
    FixedRounds(FOLD_PASSES, h, Rounds(FOLD_PASSES, h, a, r), 32 - r);
    FixedRounds(FOLD_PASSES, h, Rounds(FOLD_PASSES, h, a, r), more - r);
  }
}
