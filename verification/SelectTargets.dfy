/** The shape in which virtual conditional jumps are recognized: the VPC is SELECT(c, x, y). When
    both arms are constants, the extraction is exact for every condition, not only 0 and 1. */
module SelectTargets {
  import opened Ir
  import opened Arithmetic
  import opened Machine
  import opened References
  import opened Rewrites
  import opened Meaning
  import opened Convergence
  import opened Vjcc

  // ----- a value that resolves to a constant keeps doing so -----

  lemma VisitKeepsConst(p: LocalPass, h: Host, g: Trace, i: nat, v: Value)
    requires WellFormed(g) && i < |g| && Ordered(g) && Resolve(g, v).Const?
    ensures Ordered(Visit(p, h, g, i)) && Resolve(Visit(p, h, g, i), v) == Resolve(g, v)
  {
    hide Resolve, RewriteAt, Ordered;
    var x := RewriteAt(p, h, g, i);
    RewriteKeepsForwarding(p, h, g, i);
    OrderedOf(Visit(p, h, g, i));
    ResolveFurther(g, i, x, v);
    ConstStays(Visit(p, h, g, i), Resolve(g, v));
  }

  lemma ConstStays(g: Trace, v: Value)
    requires Ordered(g) && v.Const?
    ensures Resolve(g, v) == v
  {}

  lemma {:induction false} ApplyKeepsConst(p: LocalPass, h: Host, g: Trace, n: nat, v: Value)
    requires WellFormed(g) && n <= |g| && Ordered(g) && Resolve(g, v).Const?
    ensures Ordered(ApplyTo(p, h, g, n)) && Resolve(ApplyTo(p, h, g, n), v) == Resolve(g, v)
  {
    hide Resolve, Visit, Ordered, WellFormed;
    if n > 0 {
      ApplyKeepsConst(p, h, g, n - 1, v);
      VisitKeepsConst(p, h, ApplyTo(p, h, g, n - 1), n - 1, v);
    }
  }

  lemma {:induction false} TableKeepsConst(m: nat, n: nat, h: Host, g: Trace, v: Value)
    requires WellFormed(g) && m <= n <= |FOLD_PASSES|
    requires Ordered(TableTrace(FOLD_PASSES, m, h, g)) && Resolve(TableTrace(FOLD_PASSES, m, h, g), v).Const?
    ensures Ordered(TableTrace(FOLD_PASSES, n, h, g))
    ensures Resolve(TableTrace(FOLD_PASSES, n, h, g), v) == Resolve(TableTrace(FOLD_PASSES, m, h, g), v)
  {
    hide Resolve, ApplyTo, WellFormed, Ordered;
    if m < n {
      TableKeepsConst(m, n - 1, h, g, v);
      var t := TableTrace(FOLD_PASSES, n - 1, h, g);
      ApplyKeepsConst(FOLD_PASSES[n - 1].pass, h, t, |t|, v);
    }
  }

  lemma {:induction false} RoundsKeepConst(r: nat, h: Host, g: Trace, v: Value)
    requires WellFormed(g) && Ordered(g) && Resolve(g, v).Const?
    ensures Ordered(Rounds(FOLD_PASSES, h, g, r)) && Resolve(Rounds(FOLD_PASSES, h, g, r), v) == Resolve(g, v)
    decreases r
  {
    hide Resolve, WellFormed, Ordered, ApplyPass;
    if r > 0 {
      assert TableTrace(FOLD_PASSES, 0, h, g) == g;
      TableKeepsConst(0, |FOLD_PASSES|, h, g, v);
      RoundsKeepConst(r - 1, h, TableTrace(FOLD_PASSES, |FOLD_PASSES|, h, g), v);
    }
  }

  /** If some value is a constant by the end of the first round, it is that constant at the end. */
  lemma FoldedConst(n: nat, h: Host, g: Trace, v: Value)
    requires WellFormed(g) && n <= |FOLD_PASSES|
    requires Ordered(TableTrace(FOLD_PASSES, n, h, g)) && Resolve(TableTrace(FOLD_PASSES, n, h, g), v).Const?
    ensures Ordered(FoldConverge(h, g, ROUNDS).trace)
    ensures Resolve(FoldConverge(h, g, ROUNDS).trace, v) == Resolve(TableTrace(FOLD_PASSES, n, h, g), v)
  {
    hide Resolve, WellFormed, Ordered, TableTrace, Converge;
    var r := ConvergeRounds(FOLD_PASSES, h, g, map[], 0, ROUNDS);
    TableKeepsConst(n, |FOLD_PASSES|, h, g, v);
    RoundsKeepConst(r - 1, h, TableTrace(FOLD_PASSES, |FOLD_PASSES|, h, g), v);
  }

  // ----- the SELECT through the first round -----

  predicate ConstArms(d: Instruction) {
    d.op == SELECT && |d.operands| == 3 && d.operands[1].Const? && d.operands[2].Const?
  }

  function Arm(d: Instruction, w: Word): Value
    requires ConstArms(d)
  {
    if w != 0 then d.operands[1] else d.operands[2]
  }

  lemma AppliedAt(p: LocalPass, h: Host, g: Trace, k: nat)
    requires WellFormed(g) && k < |g|
    ensures Ordered(ApplyTo(p, h, g, k)) && ApplyTo(p, h, g, k)[k] == g[k]
    ensures Apply(p, h, g)[k] == RewriteAt(p, h, ApplyTo(p, h, g, k), k)
  {
    hide RewriteAt, WellFormed;
    OrderedOf(ApplyTo(p, h, g, k));
    ApplyBefore(p, h, g, k, k);
    ApplyAfter(p, h, g, k, |g|);
  }

  /** Promotion makes the condition of the SELECT the constant it resolves to. */
  lemma SelectPromoted(h: Host, g: Trace, k: nat, w: Word)
    requires WellFormed(g) && Ordered(g) && k < |g| && ConstArms(g[k]) && Resolve(g, g[k].operands[0]) == Const64(w)
    ensures Apply(ConstPromote, h, g)[k] == g[k].(operands := [Const64(w), g[k].operands[1], g[k].operands[2]])
  {
    hide Resolve, WellFormed, ApplyTo, Ordered;
    AppliedAt(ConstPromote, h, g, k);
    var t := ApplyTo(ConstPromote, h, g, k);
    ApplyKeepsConst(ConstPromote, h, g, k, g[k].operands[0]);
    ConstStays(t, g[k].operands[1]);
    ConstStays(t, g[k].operands[2]);
    assert PromoteOperands(t, t[k].operands) == [Const64(w), g[k].operands[1], g[k].operands[2]];
  }

  /** Forwarding does not touch it, and folding picks the arm. */
  lemma SelectFolds(p: LocalPass, h: Host, g: Trace, k: nat, w: Word)
    requires WellFormed(g) && k < |g| && ConstArms(g[k]) && g[k].operands[0] == Const64(w)
    requires p == MemForward || p == ConstFold
    ensures var x := Apply(p, h, g)[k];
            && (p == MemForward ==> x == g[k])
            && (p == ConstFold ==> x.op == PASSTHROUGH && x.operands == [Arm(g[k], w)] && x.resultId == g[k].resultId)
  {
    hide WellFormed, ApplyTo, Ordered;
    AppliedAt(p, h, g, k);
  }

  lemma SelectRound(h: Host, g: Trace, k: nat, w: Word)
    requires WellFormed(g) && Ordered(g) && k < |g| && ConstArms(g[k]) && Resolve(g, g[k].operands[0]) == Const64(w)
    ensures Ordered(TableTrace(FOLD_PASSES, 4, h, g))
    ensures Resolve(TableTrace(FOLD_PASSES, 4, h, g), g[k].Ref()) == Arm(g[k], w)
  {
    hide Resolve, WellFormed, Apply, Ordered;
    FirstPasses(h, g);
    var t1 := Apply(ConstPromote, h, g);
    SelectPromoted(h, g, k, w);
    var t2 := Apply(MemForward, h, t1);
    SelectFolds(MemForward, h, t1, k, w);
    OrderedOf(t2);
    ConstStays(t2, Const64(w));
    var t3 := Apply(ConstPromote, h, t2);
    SelectPromoted(h, t2, k, w);
    var t4 := Apply(ConstFold, h, t3);
    SelectFolds(ConstFold, h, t3, k, w);
    CopyResolves(t4, k, Arm(g[k], w));
  }

  lemma FirstPasses(h: Host, g: Trace)
    requires WellFormed(g)
    ensures TableTrace(FOLD_PASSES, 4, h, g)
         == Apply(ConstFold, h, Apply(ConstPromote, h, Apply(MemForward, h, Apply(ConstPromote, h, g))))
  {
    hide WellFormed, ApplyTo;
    assert TableTrace(FOLD_PASSES, 0, h, g) == g;
    assert TableTrace(FOLD_PASSES, 1, h, g) == Apply(ConstPromote, h, g);
    assert TableTrace(FOLD_PASSES, 2, h, g) == Apply(MemForward, h, Apply(ConstPromote, h, g));
    assert TableTrace(FOLD_PASSES, 3, h, g) == Apply(ConstPromote, h, Apply(MemForward, h, Apply(ConstPromote, h, g)));
  }

  lemma CopyResolves(g: Trace, k: nat, v: Value)
    requires WellFormed(g) && k < |g| && g[k].op == PASSTHROUGH && g[k].operands == [v] && v.Const?
    ensures Ordered(g) && Resolve(g, g[k].Ref()) == v
  {
    hide IndexMap;
    OrderedOf(g);
    DefAt(g, k);
  }

  // ----- the extraction -----

  /** Under the assumption that its condition is `w`, the SELECT's condition resolves to `w`. */
  lemma AssumedSelect(f: Trace, k: nat, w: Word)
    requires WellFormed(f) && Ordered(f) && k < |f| && ConstArms(f[k])
    requires var c := f[k].operands[0];
             c.SymReg? || (c.InstrRef? && Def(f, c.id).Some?)
    ensures var a := Assume(f, f[k].operands[0], w);
            && WellFormed(a) && Ordered(a) && ConstArms(a[k]) && a[k].resultId == f[k].resultId
            && a[k].operands[1..] == f[k].operands[1..] && Resolve(a, a[k].operands[0]) == Const64(w)
  {
    hide IndexMap, WellFormed, Def;
    var c := f[k].operands[0];
    AssumeWellFormed(f, c, w);
    var a := Assume(f, c, w);
    OrderedOf(a);
    assert Below(c, f[k].resultId);
    if c.InstrRef? {
      var i := DefPosition(f, c.id);
      DefAt(a, i);
    }
  }

  lemma SelectTarget(h: Host, f: Trace, k: nat, w: Word)
    requires WellFormed(f) && Ordered(f) && k < |f| && ConstArms(f[k])
    requires var c := f[k].operands[0];
             c.SymReg? || (c.InstrRef? && Def(f, c.id).Some?)
    ensures ComputeTarget(h, f, f[k].Ref(), f[k].operands[0], w) == Some(Arm(f[k], w).value)
  {
    hide Resolve, WellFormed, FoldConverge, Assume, Def, TableTrace, Ordered;
    var a := Assume(f, f[k].operands[0], w);
    AssumedSelect(f, k, w);
    assert a[k].operands[1] == a[k].operands[1..][0] && a[k].operands[2] == a[k].operands[1..][1];
    assert f[k].operands[1] == f[k].operands[1..][0] && f[k].operands[2] == f[k].operands[1..][1];
    SelectRound(h, a, k, w);
    FoldedConst(4, h, a, a[k].Ref());
  }

  /** A condition that the extraction can assume: a register, or a value that the trace computes. */
  predicate Assumable(f: Trace, c: Value) { c.SymReg? || (c.InstrRef? && Def(f, c.id).Some?) }

  /** The two arms, if they differ. */
  function ArmValues(d: Instruction): Option<(Word, Word)>
    requires ConstArms(d)
  {
    var x, y := d.operands[1].value, d.operands[2].value;
    if x != y then Some((x, y)) else None
  }

  /** For a SELECT with constant arms the extraction returns exactly the arms: always when they
      differ and the condition is a register or a computed value, and never otherwise. */
  lemma SelectTargetsExact(h: Host, f: Trace, k: nat)
    requires WellFormed(f) && k < |f| && ConstArms(f[k])
    ensures ExtractTargets(h, f, f[k].Ref(), f[k].operands[0])
         == if Assumable(f, f[k].operands[0]) then ArmValues(f[k]) else None
  {
    hide ComputeTarget, WellFormed, Def;
    OrderedOf(f);
    var c := f[k].operands[0];
    if Assumable(f, c) {
      SelectTarget(h, f, k, 1);
      SelectTarget(h, f, k, 0);
    } else {
      NoBranchWithoutCondition(h, f, f[k].Ref(), c);
    }
  }

  /** The value of a SELECT in a run. */
  lemma SelectValue(f: Trace, k: nat, env: Env, s: State)
    requires Ordered(f) && k < |f| && ConstArms(f[k])
    ensures var vals := Run(f, env, s).vals;
            Eval(f[k].Ref(), env, vals) == Arm(f[k], Eval(f[k].operands[0], env, vals)).value
  {
    hide Step, RunTo, Ordered, PureResult;
    SsaEquation(f, k, |f|, env, s);
    var args := EvalAll(f[k].operands, env, Run(f, env, s).vals);
    assert args[1] == f[k].operands[1].value && args[2] == f[k].operands[2].value;
    SelectResult(args, env);
  }

  lemma SelectResult(args: seq<Word>, env: Env)
    requires |args| == 3
    ensures PureResult(SELECT, args, env) == if args[0] != 0 then args[1] else args[2]
  {}

  /** So in every run, under no hypothesis about shifts, aliases or callees, the VPC is the taken
      target if and only if the condition is not zero, and the other target if it is zero. */
  lemma SelectBranchSound(h: Host, f: Trace, k: nat, env: Env, s: State)
    requires WellFormed(f) && k < |f| && ConstArms(f[k])
    requires ExtractTargets(h, f, f[k].Ref(), f[k].operands[0]).Some?
    ensures var (taken, notTaken) := ExtractTargets(h, f, f[k].Ref(), f[k].operands[0]).value;
            var vals := Run(f, env, s).vals;
            && taken != notTaken
            && (Eval(f[k].operands[0], env, vals) != 0 <==> Eval(f[k].Ref(), env, vals) == taken)
            && (Eval(f[k].operands[0], env, vals) == 0 <==> Eval(f[k].Ref(), env, vals) == notTaken)
  {
    hide ExtractTargets, Run, WellFormed;
    OrderedOf(f);
    SelectTargetsExact(h, f, k);
    SelectValue(f, k, env, s);
  }
}
