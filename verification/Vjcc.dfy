/** Virtual conditional jumps: both next-VPC values by substituting the branch condition with
    1 and 0 and folding. */
module Vjcc {
  import opened Ir
  import opened Arithmetic
  import opened Machine
  import opened References
  import opened Rewrites
  import opened Meaning
  import opened Convergence
  import opened Twins
  import Passes

  // ----- the substitution -----

  function SubstituteDef(d: Instruction, id: nat, b: Word): Instruction {
    if d.resultId == id then Instruction(CONST, [Const64(b)], id, map[]) else d
  }

  function SubstituteValue(v: Value, c: Value, b: Word): Value { if v == c then Const64(b) else v }

  function SubstituteOperands(d: Instruction, c: Value, b: Word): Instruction {
    d.(operands := seq(|d.operands|, k requires 0 <= k < |d.operands| => SubstituteValue(d.operands[k], c, b)))
  }

  /** The trace with every mention of the condition replaced by `b`. */
  function Bind(f: Trace, condition: Value, b: Word): (g: Trace)
    ensures |g| == |f|
  {
    seq(|f|, i requires 0 <= i < |f| => SubstituteOperands(f[i], condition, b))
  }

  /** The trace under the assumption that the condition is `b`, as the source builds it. */
  function Assume(f: Trace, condition: Value, b: Word): (g: Trace)
    ensures |g| == |f|
  {
    if condition.InstrRef? then
      seq(|f|, i requires 0 <= i < |f| => SubstituteDef(f[i], condition.id, b))
    else if condition.SymReg? then
      Bind(f, condition, b)
    else f
  }

  lemma AssumeWellFormed(f: Trace, condition: Value, b: Word)
    requires WellFormed(f)
    ensures WellFormed(Assume(f, condition, b))
  {
    var g := Assume(f, condition, b);
    assert forall i :: 0 <= i < |f| ==> g[i].resultId == f[i].resultId;
  }

  const ROUNDS := 32

  function ComputeTarget(h: Host, f: Trace, vpc: Value, condition: Value, b: Word): Option<Word>
    requires WellFormed(f)
  {
    if !condition.InstrRef? && !condition.SymReg? then None
    else
      AssumeWellFormed(f, condition, b);
      var g := FoldConverge(h, Assume(f, condition, b), ROUNDS).trace;
      var r := Resolve(g, vpc);
      if r.Const? then Some(r.value) else None
  }

  function ExtractTargets(h: Host, f: Trace, vpc: Value, condition: Value): Option<(Word, Word)>
    requires WellFormed(f)
  {
    var taken := ComputeTarget(h, f, vpc, condition, 1);
    var notTaken := ComputeTarget(h, f, vpc, condition, 0);
    if taken.Some? && notTaken.Some? && taken.value != notTaken.value then Some((taken.value, notTaken.value)) else None
  }

  // ----- the source's loops -----

  /** `fold_converge`: the fold passes in order until none changes anything. */
  method FoldConvergeInPlace(f: Function, h: Host, maxIters: int)
    requires WellFormed(f.instrs)
    modifies f`instrs
    ensures f.instrs == FoldConverge(h, old(f.instrs), maxIters).trace
  {
    ghost var g := f.instrs;
    ghost var hits: Hits := map[];
    var i := 0;
    while i < maxIters
      invariant 0 <= i && WellFormed(f.instrs)
      invariant Converge(FOLD_PASSES, h, g, map[], 0, maxIters) == Converge(FOLD_PASSES, h, f.instrs, hits, i, maxIters)
    {
      hide WellFormed, ApplyPass;
      ghost var r := Round(FOLD_PASSES, h, f.instrs, hits);
      var changed := FoldRound(f, h, hits);
      hits := r.hits;
      if !changed { break; }
      i := i + 1;
    }
  }

  /** One round: every pass runs, whatever the earlier ones report. */
  method FoldRound(f: Function, h: Host, ghost hits: Hits) returns (changed: bool)
    requires WellFormed(f.instrs)
    modifies f`instrs
    ensures f.instrs == Round(FOLD_PASSES, h, old(f.instrs), hits).trace
    ensures changed <==> Round(FOLD_PASSES, h, old(f.instrs), hits).any
  {
    hide WellFormed, Apply, PassName, RunTable;
    ghost var g := f.instrs;
    TableStart(h, g, hits);
    var c1 := Passes.ConstPromotePass(f, h);
    TableStep(1, h, g, hits, f.instrs);
    var c2 := Passes.MemForwardPass(f, h);
    TableStep(2, h, g, hits, f.instrs);
    var c3 := Passes.ConstPromotePass(f, h);
    TableStep(3, h, g, hits, f.instrs);
    var c4 := Passes.ConstFoldPass(f, h);
    TableStep(4, h, g, hits, f.instrs);
    var c5 := Passes.InsnCombinePass(f, h);
    TableStep(5, h, g, hits, f.instrs);
    var c6 := Passes.BranchFoldPass(f, h);
    TableStep(6, h, g, hits, f.instrs);
    changed := c1 || c2 || c3 || c4 || c5 || c6;
  }

  lemma TableStart(h: Host, g: Trace, hits: Hits)
    requires WellFormed(g)
    ensures RunTable(FOLD_PASSES, 0, h, g, hits) == Progress(g, hits, false)
  {}

  lemma TableStep(n: nat, h: Host, g: Trace, hits: Hits, t: Trace)
    requires WellFormed(g) && 1 <= n <= |FOLD_PASSES|
    requires FOLD_PASSES[n - 1].Local?
    requires t == Apply(FOLD_PASSES[n - 1].pass, h, RunTable(FOLD_PASSES, n - 1, h, g, hits).trace)
    ensures t == RunTable(FOLD_PASSES, n, h, g, hits).trace
    ensures RunTable(FOLD_PASSES, n, h, g, hits).any <==>
              RunTable(FOLD_PASSES, n - 1, h, g, hits).any || t != RunTable(FOLD_PASSES, n - 1, h, g, hits).trace
  {
    hide WellFormed, Apply, PassName;
  }

  method ExtractVjccTargets(f: Function, h: Host, vpc: Value, condition: Value) returns (r: Option<(Word, Word)>)
    requires WellFormed(f.instrs)
    ensures r == ExtractTargets(h, f.instrs, vpc, condition)
  {
    hide WellFormed, Resolve;
    var taken := Compute(f, h, vpc, condition, 1);
    var notTaken := Compute(f, h, vpc, condition, 0);
    if taken.Some? && notTaken.Some? && taken.value != notTaken.value {
      return Some((taken.value, notTaken.value));
    }
    return None;
  }

  method Compute(f: Function, h: Host, vpc: Value, condition: Value, b: Word) returns (r: Option<Word>)
    requires WellFormed(f.instrs)
    ensures r == ComputeTarget(h, f.instrs, vpc, condition, b)
  {
    hide WellFormed, Resolve, FoldConverge, Assume, IndexMap;
    var g := new Function.Copy(f);
    if condition.InstrRef? {
      AssumeRef(g, condition, b);
    } else if condition.SymReg? {
      AssumeReg(g, condition, b);
    } else {
      return None;
    }
    AssumeWellFormed(f.instrs, condition, b);
    FoldConvergeInPlace(g, h, ROUNDS);
    var im := Passes.BuildInstrMap(g.instrs);
    OrderedOf(g.instrs);
    var resolved := Passes.ResolveOperand(vpc, im, g.instrs);
    if resolved.Const? { return Some(resolved.value); }
    return None;
  }

  method AssumeRef(g: Function, condition: Value, b: Word)
    requires condition.InstrRef?
    modifies g`instrs
    ensures g.instrs == Assume(old(g.instrs), condition, b)
  {
    ghost var f := g.instrs;
    for i := 0 to |g.instrs|
      invariant |g.instrs| == |f|
      invariant forall k :: 0 <= k < |f| ==> g.instrs[k] == if k < i then SubstituteDef(f[k], condition.id, b) else f[k]
    {
      if g.instrs[i].resultId == condition.id {
        g.instrs := g.instrs[i := Instruction(CONST, [Const64(b)], condition.id, map[])];
      }
    }
  }

  method AssumeReg(g: Function, condition: Value, b: Word)
    requires condition.SymReg?
    modifies g`instrs
    ensures g.instrs == Assume(old(g.instrs), condition, b)
  {
    ghost var f := g.instrs;
    for i := 0 to |g.instrs|
      invariant |g.instrs| == |f|
      invariant forall k :: 0 <= k < |f| ==>
                  g.instrs[k] == if k < i then SubstituteOperands(f[k], condition, b) else f[k]
    {
      var d := g.instrs[i];
      ghost var vs := SubstituteOperands(f[i], condition, b).operands;
      for k := 0 to |d.operands|
        invariant |d.operands| == |f[i].operands| && d == f[i].(operands := d.operands)
        invariant forall j :: 0 <= j < |d.operands| ==> d.operands[j] == if j < k then vs[j] else f[i].operands[j]
      {
        if d.operands[k].SymReg? && d.operands[k].name == condition.name {
          d := d.(operands := d.operands[k := Const64(b)]);
        }
      }
      assert d.operands == vs;
      g.instrs := g.instrs[i := d];
    }
  }

  // ----- naming a value the run has changes nothing -----

  lemma BindWellFormed(f: Trace, c: Value, b: Word)
    requires WellFormed(f)
    ensures WellFormed(Bind(f, c, b))
  {}

  lemma BindStep(f: Trace, c: Value, b: Word, n: nat, env: Env, s: State)
    requires Ordered(f) && n < |f| && (c.InstrRef? || c.SymReg?) && Eval(c, env, Run(f, env, s).vals) == b
    ensures EvalAll(Bind(f, c, b)[n].operands, env, RunTo(f, n, env, s).vals)
         == EvalAll(f[n].operands, env, RunTo(f, n, env, s).vals)
  {
    hide Step;
    if c in f[n].operands {
      assert Below(c, f[n].resultId);
      OperandStable(f, c, n, |f|, env, s);
    }
  }

  /** Replacing the mentions of a condition by the value it has in a run changes nothing in that
      run, whatever computes the condition. */
  lemma {:induction false} BindRun(f: Trace, c: Value, b: Word, n: nat, env: Env, s: State)
    requires Ordered(f) && n <= |f| && (c.InstrRef? || c.SymReg?) && Eval(c, env, Run(f, env, s).vals) == b
    ensures RunTo(Bind(f, c, b), n, env, s) == RunTo(f, n, env, s)
  {
    hide Step, Bind, Run;
    if n > 0 {
      BindRun(f, c, b, n - 1, env, s);
      BindStep(f, c, b, n - 1, env, s);
      BindShape(f, c, b, n - 1);
      StepFromArgs(f[n - 1], Bind(f, c, b)[n - 1], env, RunTo(f, n - 1, env, s));
    }
  }

  lemma BindShape(f: Trace, c: Value, b: Word, n: nat)
    requires n < |f|
    ensures Bind(f, c, b)[n] == SubstituteOperands(f[n], c, b)
  {}

  lemma StepFromArgs(d: Instruction, x: Instruction, env: Env, t: State)
    requires x.op == d.op && x.resultId == d.resultId && x.annotations == d.annotations
    requires EvalAll(x.operands, env, t.vals) == EvalAll(d.operands, env, t.vals)
    ensures Step(x, env, t) == Step(d, env, t)
  {
    hide Execute;
  }

  // ----- the hypotheses after naming the value -----

  /** Following `v` through copies leads through `c`. */
  predicate LeadsThrough(g: Trace, v: Value, c: Value)
    requires Ordered(g)
    decreases if v.InstrRef? then v.id + 1 else 0
  {
    || v == c
    || (v.InstrRef? && Def(g, v.id).Some? && !IsConstDef(Def(g, v.id).value) && IsCopy(Def(g, v.id).value)
        && LeadsThrough(g, Def(g, v.id).value.operands[0], c))
  }

  /** The condition is no copy of something else, or no load or store address leads through it. */
  ghost predicate AddressesClear(f: Trace, c: Value)
    requires Ordered(f)
  {
    Resolve(f, c) == c || forall k :: 0 <= k < |f| && IsAccess(f[k]) ==> !LeadsThrough(f, f[k].operands[0], c)
  }

  /** Naming the condition commutes with resolution, up to further resolution. */
  lemma {:induction false} BindResolve(f: Trace, c: Value, b: Word, v: Value)
    requires WellFormed(f) && WellFormed(Bind(f, c, b))
    requires Resolve(f, c) == c || !LeadsThrough(f, v, c)
    ensures Ordered(f) && Ordered(Bind(f, c, b))
    ensures Resolve(Bind(f, c, b), SubstituteValue(v, c, b))
         == Resolve(Bind(f, c, b), SubstituteValue(Resolve(f, v), c, b))
    decreases if v.InstrRef? then v.id + 1 else 0
  {
    hide IndexMap, Def, WellFormed;
    OrderedOf(f);
    var g := Bind(f, c, b);
    OrderedOf(g);
    if v != c && v.InstrRef? && Def(f, v.id).Some? {
      var i := DefPosition(f, v.id);
      DefAt(g, i);
      var d := f[i];
      assert g[i] == SubstituteOperands(d, c, b);
      if IsCopy(d) && !IsConstDef(d) {
        assert Below(d.operands[0], d.resultId);
        BindResolve(f, c, b, d.operands[0]);
      }
    }
  }

  lemma BindOperand(f: Trace, c: Value, b: Word, k: nat, j: nat, env: Env, s: State)
    requires Ordered(f) && (c.InstrRef? || c.SymReg?) && Eval(c, env, Run(f, env, s).vals) == b
    requires k < |f| && j < |f[k].operands|
    ensures var g := Bind(f, c, b);
            && g[k].op == f[k].op && |g[k].operands| == |f[k].operands|
            && Eval(g[k].operands[j], env, RunTo(g, k, env, s).vals)
              == Eval(f[k].operands[j], env, RunTo(f, k, env, s).vals)
  {
    hide RunTo, Run;
    BindRun(f, c, b, k, env, s);
    BindStep(f, c, b, k, env, s);
    var vals := RunTo(f, k, env, s).vals;
    assert EvalAll(Bind(f, c, b)[k].operands, env, vals)[j] == EvalAll(f[k].operands, env, vals)[j];
  }

  lemma BindShifts(f: Trace, c: Value, b: Word, env: Env, s: State)
    requires ShiftsOk(f, env, s) && Ordered(f) && (c.InstrRef? || c.SymReg?) && Eval(c, env, Run(f, env, s).vals) == b
    ensures ShiftsOk(Bind(f, c, b), env, s)
  {
    hide RunTo, ShiftDefined, Run, Ordered;
    var g := Bind(f, c, b);
    forall k | 0 <= k < |g| && FoldableBinary(g[k].op) && |g[k].operands| == 2 ensures ShiftOkAt(g, k, env, s) {
      assert f[k].op == g[k].op;
      BindOperand(f, c, b, k, 0, env, s);
      BindOperand(f, c, b, k, 1, env, s);
      assert ShiftOkAt(f, k, env, s);
    }
  }

  lemma BindAccess(f: Trace, c: Value, b: Word, k: nat, env: Env, s: State)
    requires Ordered(f) && (c.InstrRef? || c.SymReg?) && Eval(c, env, Run(f, env, s).vals) == b
    requires k < |f| && IsAccess(Bind(f, c, b)[k])
    ensures IsAccess(f[k]) && Addr(Bind(f, c, b), k, env, s) == Addr(f, k, env, s)
  {
    hide RunTo, Run;
    BindOperand(f, c, b, k, 0, env, s);
  }

  lemma BindCalls(f: Trace, c: Value, b: Word, env: Env, s: State)
    requires CallsApart(f, env, s) && Ordered(f) && (c.InstrRef? || c.SymReg?) && Eval(c, env, Run(f, env, s).vals) == b
    ensures CallsApart(Bind(f, c, b), env, s)
  {
    hide RunTo, CallApartAt, Bind, Run, Ordered;
    var g := Bind(f, c, b);
    forall i, m, j | 0 <= i < m < j < |g| && IsStore(g[i]) && g[m].op == CALL && IsLoad(g[j])
      ensures CallApartAt(g, i, m, j, env, s)
    {
      BindCallAt(f, c, b, i, m, j, env, s);
    }
  }

  lemma BindCallAt(f: Trace, c: Value, b: Word, i: nat, m: nat, j: nat, env: Env, s: State)
    requires CallsApart(f, env, s) && Ordered(f) && (c.InstrRef? || c.SymReg?) && Eval(c, env, Run(f, env, s).vals) == b
    requires i < m < j < |f|
    requires var g := Bind(f, c, b);
             IsStore(g[i]) && g[m].op == CALL && IsLoad(g[j])
    ensures CallApartAt(Bind(f, c, b), i, m, j, env, s)
  {
    hide RunTo, Addr, Covers, Run, Ordered;
    BindAccess(f, c, b, i, env, s);
    BindAccess(f, c, b, j, env, s);
    assert CallApartAt(f, i, m, j, env, s);
    BindRun(f, c, b, m, env, s);
    BindRun(f, c, b, m + 1, env, s);
  }

  lemma BindKey(f: Trace, c: Value, b: Word, m: nat, j: nat)
    requires WellFormed(f) && WellFormed(Bind(f, c, b)) && AddressesClear(f, c) && (c.InstrRef? || c.SymReg?)
    requires m < |f| && j < |f| && IsAccess(f[m]) && IsAccess(f[j]) && KeyAt(f, m, true) == KeyAt(f, j, true)
    ensures KeyAt(Bind(f, c, b), m, true) == KeyAt(Bind(f, c, b), j, true)
  {
    hide Resolve, WellFormed, LeadsThrough;
    OrderedOf(f);
    OrderedOf(Bind(f, c, b));
    var v, w := f[m].operands[0], f[j].operands[0];
    BindResolve(f, c, b, v);
    BindResolve(f, c, b, w);
    KeyResolve(Bind(f, c, b), SubstituteValue(Resolve(f, v), c, b), SubstituteValue(Resolve(f, w), c, b));
  }

  lemma BindKnown(f: Trace, c: Value, b: Word, env: Env, s: State)
    requires WellFormed(f) && WellFormed(Bind(f, c, b)) && AddressesClear(f, c) && (c.InstrRef? || c.SymReg?)
    requires StoresKnown(f, true, env, s) && Eval(c, env, Run(f, env, s).vals) == b
    ensures StoresKnown(Bind(f, c, b), true, env, s)
  {
    hide RunTo, Resolve, WellFormed, Overlap, Run, AddressesClear;
    OrderedOf(f);
    var g := Bind(f, c, b);
    OrderedOf(g);
    forall i, m, j | 0 <= i < m < j < |g| && IsStore(g[i]) && IsStore(g[m]) && IsLoad(g[j])
      ensures KnownAt(g, i, m, j, true, env, s)
    {
      BindAccess(f, c, b, i, env, s);
      BindAccess(f, c, b, m, env, s);
      BindAccess(f, c, b, j, env, s);
      assert KnownAt(f, i, m, j, true, env, s);
      if KeyAt(f, m, true) == KeyAt(f, j, true) { BindKey(f, c, b, m, j); }
    }
  }

  /** Naming the condition's value keeps the run and every hypothesis about it. */
  lemma BindSane(f: Trace, c: Value, b: Word, env: Env, s: State)
    requires Sane(f, env, s) && Ordered(f) && AddressesClear(f, c) && (c.InstrRef? || c.SymReg?)
    requires Eval(c, env, Run(f, env, s).vals) == b
    ensures Sane(Bind(f, c, b), env, s) && Run(Bind(f, c, b), env, s) == Run(f, env, s)
  {
    hide StoresKnown, CallsApart, ShiftsOk, WellFormed, X64, RunTo, AddressesClear, Bind;
    BindWellFormed(f, c, b);
    BindShifts(f, c, b, env, s);
    BindCalls(f, c, b, env, s);
    BindKnown(f, c, b, env, s);
    BindRun(f, c, b, |f|, env, s);
    BindLength(f, c, b);
  }

  lemma BindLength(f: Trace, c: Value, b: Word)
    ensures |Bind(f, c, b)| == |f|
  {}

  // ----- soundness -----

  /** What the extraction relies on: a condition is not the result of a store, which has none, and
      addresses do not go through it under another name. */
  ghost predicate Branching(f: Trace, condition: Value)
    requires Ordered(f)
  {
    condition.InstrRef? ==>
      AddressesClear(f, condition) && (Def(f, condition.id).Some? ==> Def(f, condition.id).value.op != STORE)
  }

  lemma AssumeHalf(f: Trace, c: Value, i: nat, b: Word)
    requires WellFormed(f) && c.InstrRef? && i < |f| && f[i].resultId == c.id && f[i].op != STORE
    ensures Half(f, Assume(f, c, b), Bind(f, c, b), i, b, 0)
  {
    hide IndexMap;
    AssumeWellFormed(f, c, b);
    BindWellFormed(f, c, b);
    var a, g := Assume(f, c, b), Bind(f, c, b);
    forall k | 0 <= k < |f| && k != i
      ensures a[k] == f[k] && g[k] == f[k].(operands := Named(f[k].operands, f[i].Ref(), b))
    {
      assert f[k].resultId != f[i].resultId;
      assert SubstituteOperands(f[k], c, b).operands == Named(f[k].operands, f[i].Ref(), b);
    }
  }

  lemma AssumeUndefined(f: Trace, condition: Value, b: Word)
    requires condition.InstrRef? && Def(f, condition.id).None?
    ensures Assume(f, condition, b) == f
  {
    forall i | 0 <= i < |f| ensures f[i].resultId != condition.id {
      assert f[i].resultId in IndexMap(f);
    }
  }

  /** Folding a trace keeps what a resolved value denotes at the end of the run. */
  lemma FoldedValue(h: Host, a: Trace, vpc: Value, env: Env, s: State)
    requires Sane(a, env, s)
    ensures WellFormed(a)
    ensures var g := FoldConverge(h, a, ROUNDS).trace;
            Ordered(g) && Eval(Resolve(g, vpc), env, Run(a, env, s).vals) == Eval(vpc, env, Run(a, env, s).vals)
  {
    hide RunTo, Resolve, Sane, FoldConverge, WellFormed;
    SaneFacts(a, env, s);
    FoldConvergePreservesRuns(h, a, ROUNDS, env, s);
    var g := FoldConverge(h, a, ROUNDS).trace;
    OrderedOf(g);
    assert RunTo(g, |a|, env, s) == RunTo(a, |a|, env, s);
    ResolveSound(g, vpc, |g|, env, s);
  }

  /** A condition computed by an instruction: assuming it folds to the same as naming it. */
  lemma ComputedTarget(h: Host, f: Trace, vpc: Value, c: Value, i: nat, b: Word, env: Env, s: State)
    requires Sane(f, env, s) && c.InstrRef? && i < |f| && f[i].resultId == c.id && f[i].op != STORE
    requires Ordered(f) && AddressesClear(f, c) && Eval(c, env, Run(f, env, s).vals) == b
    ensures WellFormed(f) && WellFormed(Assume(f, c, b))
    ensures var g := FoldConverge(h, Assume(f, c, b), ROUNDS).trace;
            Ordered(g) && (Resolve(g, vpc).Const? ==> Resolve(g, vpc).value == Eval(vpc, env, Run(f, env, s).vals))
  {
    hide Resolve, Sane, WellFormed, Half, Bind, Assume, AddressesClear, Rounds, RunTo, Converge, Twin;
    SaneFacts(f, env, s);
    AssumeWellFormed(f, c, b);
    BindWellFormed(f, c, b);
    AssumeHalf(f, c, i, b);
    var a, n := Assume(f, c, b), Bind(f, c, b);
    BindSane(f, c, b, env, s);
    BindLength(f, c, b);
    var r := ConvergeRounds(FOLD_PASSES, h, a, map[], 0, ROUNDS);
    HalfRounds(r, h, f, a, n, i, b);
    RoundsMeaning(h, n, r, env, s);
    var u, v := Rounds(FOLD_PASSES, h, a, r), Rounds(FOLD_PASSES, h, n, r);
    TwinOrdered(u, v, i, b);
    assert RunTo(v, |n|, env, s) == RunTo(n, |n|, env, s);
    TwinId(h, f, c, i, b, r, u, v);
    if vpc == c {
      TwinConstant(u, v, i, b);
    } else {
      TwinResolve(u, v, i, b, vpc);
      ResolveSound(v, vpc, |v|, env, s);
    }
  }

  lemma TwinConstant(a: Trace, b: Trace, i: nat, w: Word)
    requires Twin(a, b, i, w)
    ensures Ordered(a) && Resolve(a, a[i].Ref()) == Const64(w)
  {
    hide IndexMap;
    OrderedOf(a);
    DefAt(a, i);
  }

  /** The position keeps its id through all rounds. */
  lemma TwinId(h: Host, f: Trace, c: Value, i: nat, b: Word, r: nat, u: Trace, v: Trace)
    requires WellFormed(f) && i < |f| && c == f[i].Ref() && WellFormed(Assume(f, c, b))
    requires u == Rounds(FOLD_PASSES, h, Assume(f, c, b), r) && Twin(u, v, i, b)
    ensures |u| == |f| && u[i].Ref() == c
  {
    hide Twin, WellFormed, Rounds;
    RoundsIds(h, Assume(f, c, b), r);
  }

  lemma {:induction false} RoundsIds(h: Host, g: Trace, r: nat)
    requires WellFormed(g)
    ensures var t := Rounds(FOLD_PASSES, h, g, r);
            |t| == |g| && forall k :: 0 <= k < |g| ==> t[k].resultId == g[k].resultId
    decreases r
  {
    hide WellFormed, TableTrace;
    if r > 0 {
      TableIds(h, g, |FOLD_PASSES|);
      RoundsIds(h, TableTrace(FOLD_PASSES, |FOLD_PASSES|, h, g), r - 1);
    }
  }

  lemma {:induction false} TableIds(h: Host, g: Trace, n: nat)
    requires WellFormed(g) && n <= |FOLD_PASSES|
    ensures var t := TableTrace(FOLD_PASSES, n, h, g);
            |t| == |g| && forall k :: 0 <= k < |g| ==> t[k].resultId == g[k].resultId
  {
    hide WellFormed, Apply;
    if n > 0 { TableIds(h, g, n - 1); }
  }

  lemma TargetSound(h: Host, f: Trace, vpc: Value, condition: Value, b: Word, env: Env, s: State)
    requires Sane(f, env, s) && Branching(f, condition)
    requires ComputeTarget(h, f, vpc, condition, b).Some?
    requires Eval(condition, env, Run(f, env, s).vals) == b
    ensures Eval(vpc, env, Run(f, env, s).vals) == ComputeTarget(h, f, vpc, condition, b).value
  {
    hide RunTo, Resolve, Sane, FoldConverge, Assume, WellFormed, AddressesClear, Def, Bind;
    SaneFacts(f, env, s);
    AssumeWellFormed(f, condition, b);
    if condition.SymReg? {
      RegResolves(f, condition);
      BindSane(f, condition, b, env, s);
      AssumeBinds(f, condition, b);
      FoldedValue(h, Bind(f, condition, b), vpc, env, s);
    } else if Def(f, condition.id).None? {
      AssumeUndefined(f, condition, b);
      FoldedValue(h, f, vpc, env, s);
    } else {
      var i := DefPosition(f, condition.id);
      ComputedTarget(h, f, vpc, condition, i, b, env, s);
    }
  }

  lemma RegResolves(f: Trace, condition: Value)
    requires Ordered(f) && condition.SymReg?
    ensures AddressesClear(f, condition)
  {}

  lemma AssumeBinds(f: Trace, condition: Value, b: Word)
    requires condition.SymReg?
    ensures Assume(f, condition, b) == Bind(f, condition, b)
  {}

  /** If targets are extracted they differ, every sane run whose condition evaluates to 1 ends
      with the taken VPC, and every one whose condition evaluates to 0 with the other. */
  lemma VjccSound(h: Host, f: Trace, vpc: Value, condition: Value, env: Env, s: State)
    requires Sane(f, env, s) && Branching(f, condition)
    requires ExtractTargets(h, f, vpc, condition).Some?
    ensures var (taken, notTaken) := ExtractTargets(h, f, vpc, condition).value;
            var vals := Run(f, env, s).vals;
            && taken != notTaken
            && (Eval(condition, env, vals) == 1 ==> Eval(vpc, env, vals) == taken)
            && (Eval(condition, env, vals) == 0 ==> Eval(vpc, env, vals) == notTaken)
  {
    hide Run, ComputeTarget, Branching, Sane, WellFormed;
    SaneFacts(f, env, s);
    if Eval(condition, env, Run(f, env, s).vals) == 1 { TargetSound(h, f, vpc, condition, 1, env, s); }
    if Eval(condition, env, Run(f, env, s).vals) == 0 { TargetSound(h, f, vpc, condition, 0, env, s); }
  }

  /** A condition that is already a constant, or a reference to nothing, is never a branch. */
  lemma NoBranchWithoutCondition(h: Host, f: Trace, vpc: Value, condition: Value)
    requires WellFormed(f)
    requires condition.Const? || condition.SymMem? || (condition.InstrRef? && Def(f, condition.id).None?)
    ensures ExtractTargets(h, f, vpc, condition).None?
  {
    hide FoldConverge, Resolve, WellFormed;
    if condition.InstrRef? {
      AssumeUndefined(f, condition, 1);
      AssumeUndefined(f, condition, 0);
    }
  }
}
