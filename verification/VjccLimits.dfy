/** Inputs that show what the extraction of virtual-branch targets relies on. */
module VjccLimits {
  import opened Ir
  import opened Arithmetic
  import opened Machine
  import opened References
  import opened Rewrites
  import opened Meaning
  import opened Convergence
  import opened Vjcc
  import opened SelectTargets

  // ----- following single positions through the first passes -----

  /** Promotion keeps every operation, and forwarding everything but loads. */
  lemma {:induction false} KeptBy(p: LocalPass, h: Host, g: Trace, n: nat, k: nat)
    requires WellFormed(g) && n <= |g| && k < |g| && (p == ConstPromote || p == MemForward)
    ensures var t := ApplyTo(p, h, g, n);
            && Ordered(t) && t[k].op == (if p == MemForward && IsLoad(g[k]) then t[k].op else g[k].op)
            && (p == MemForward && !IsLoad(g[k]) ==> t[k] == g[k])
  {
    hide WellFormed, Resolve, Ordered, LastStore;
    OrderedOf(ApplyTo(p, h, g, n));
    if n > 0 { KeptBy(p, h, g, n - 1, k); }
  }

  /** A reference to something that is neither a constant nor a copy resolves to itself. */
  lemma Computed(g: Trace, k: nat)
    requires Ordered(g) && k < |g| && g[k].op !in {CONST, CONST_PTR, PASSTHROUGH}
    ensures Resolve(g, g[k].Ref()) == g[k].Ref()
  {
    hide IndexMap;
    DefAt(g, k);
  }

  /** What promotion makes of an operand that is a constant, or refers to something computed. */
  lemma PromotedOperand(h: Host, g: Trace, k: nat, j: nat, m: nat)
    requires WellFormed(g) && k < |g| && j < |g[k].operands| && m < |g|
    requires g[k].operands[j].Const? || (g[k].operands[j] == g[m].Ref() && g[m].op !in {CONST, CONST_PTR, PASSTHROUGH})
    ensures |Apply(ConstPromote, h, g)[k].operands| == |g[k].operands|
    ensures Apply(ConstPromote, h, g)[k].operands[j] == g[k].operands[j]
    ensures Apply(ConstPromote, h, g)[k].op == g[k].op && Apply(ConstPromote, h, g)[k].resultId == g[k].resultId
  {
    hide WellFormed, Resolve, ApplyTo, Ordered;
    AppliedAt(ConstPromote, h, g, k);
    KeptBy(ConstPromote, h, g, k, m);
    var t := ApplyTo(ConstPromote, h, g, k);
    if g[k].operands[j].Const? { ConstStays(t, g[k].operands[j]); } else { Computed(t, m); }
  }

  /** An operand that resolves to a constant becomes it. */
  lemma PromotedConst(h: Host, g: Trace, k: nat, j: nat)
    requires WellFormed(g) && Ordered(g) && k < |g| && j < |g[k].operands| && Resolve(g, g[k].operands[j]).Const?
    ensures |Apply(ConstPromote, h, g)[k].operands| == |g[k].operands|
    ensures Apply(ConstPromote, h, g)[k].operands[j] == Resolve(g, g[k].operands[j])
    ensures Apply(ConstPromote, h, g)[k].op == g[k].op && Apply(ConstPromote, h, g)[k].resultId == g[k].resultId
  {
    hide WellFormed, Resolve, ApplyTo, Ordered;
    AppliedAt(ConstPromote, h, g, k);
    ApplyKeepsConst(ConstPromote, h, g, k, g[k].operands[j]);
  }

  /** A load is forwarded from the store at `m` if only other keys are stored to in between. */
  lemma ForwardedFrom(h: Host, g: Trace, k: nat, m: nat)
    requires WellFormed(g) && m < k < |g| && IsLoad(g[k]) && IsStore(g[m]) && !g[k].operands[0].SymReg?
    requires !g[k].operands[0].SymMem?
    requires AddrKey(g[m].operands[0]) == AddrKey(g[k].operands[0])
    requires forall j :: m < j < k ==>
               !IsLoad(g[j]) && (IsStore(g[j]) ==> AddrKey(g[j].operands[0]) != AddrKey(g[k].operands[0]))
    ensures var x := Apply(MemForward, h, g)[k];
            && x.resultId == g[k].resultId && x.operands == [g[m].operands[1]]
            && x.op == if g[m].operands[1].Const? then CONST else PASSTHROUGH
  {
    hide WellFormed, ApplyTo, Ordered, AddrKey, LastStore;
    AppliedAt(MemForward, h, g, k);
    var t := ApplyTo(MemForward, h, g, k);
    forall j | m <= j < k ensures t[j] == g[j] { KeptBy(MemForward, h, g, k, j); }
    StoredLast(t, k, m, AddrKey(g[k].operands[0]));
  }

  lemma {:induction false} StoredLast(g: Trace, n: nat, m: nat, key: Key)
    requires m < n <= |g| && IsStore(g[m]) && AddrKey(g[m].operands[0]) == key
    requires forall j :: m < j < n ==> IsStore(g[j]) ==> AddrKey(g[j].operands[0]) != key
    ensures LastStore(g, n, key) == Some(g[m].operands[1])
  {
    if m < n - 1 { StoredLast(g, n - 1, m, key); }
  }

  lemma NotALoad(h: Host, g: Trace, k: nat)
    requires WellFormed(g) && k < |g| && !IsLoad(g[k])
    ensures Apply(MemForward, h, g)[k] == g[k]
  {
    hide WellFormed, ApplyTo;
    AppliedAt(MemForward, h, g, k);
  }

  lemma FoldedAt(h: Host, g: Trace, k: nat)
    requires WellFormed(g) && k < |g|
    ensures Apply(ConstFold, h, g)[k] == Fold(h, g[k])
  {
    hide WellFormed, ApplyTo, Fold;
    AppliedAt(ConstFold, h, g, k);
  }

  /** A copy of a copy of a constant. */
  lemma CopyOfCopy(g: Trace, j: nat, k: nat, v: Value)
    requires WellFormed(g) && Ordered(g) && j < |g| && k < |g| && Resolve(g, g[j].Ref()) == v
    requires g[k].op == PASSTHROUGH && g[k].operands == [g[j].Ref()]
    ensures Resolve(g, g[k].Ref()) == v
  {
    hide IndexMap;
    DefAt(g, k);
  }

  // ----- arms that depend on the condition -----

  const DEPENDENT: Trace := [
    Instruction(ADD, [SymReg("flag"), Const64(100)], 0, map[]),
    Instruction(SELECT, [SymReg("flag"), InstrRef(0), Const64(50)], 1, map[])]

  function DependentArm(w: Word): Word { if w != 0 then w + 100 else 50 }

  /** The assumed trace, up to annotations. */
  ghost predicate DependentShape(t: Trace, w: Word) {
    && |t| == 2 && t[0].resultId == 0 && t[1].resultId == 1
    && t[0].op == ADD && t[0].operands == [Const64(w), Const64(100)]
    && t[1].op == SELECT && t[1].operands == [Const64(w), InstrRef(0), Const64(50)]
  }

  lemma DependentPromoted(h: Host, t: Trace, w: Word)
    requires WellFormed(t) && DependentShape(t, w)
    ensures DependentShape(Apply(ConstPromote, h, t), w)
  {
    hide Apply, WellFormed;
    PromotedOperand(h, t, 0, 0, 0);
    PromotedOperand(h, t, 0, 1, 0);
    PromotedOperand(h, t, 1, 0, 0);
    PromotedOperand(h, t, 1, 1, 0);
    PromotedOperand(h, t, 1, 2, 0);
    var u := Apply(ConstPromote, h, t);
    assert u[0].operands == t[0].operands && u[1].operands == t[1].operands;
  }

  lemma DependentForwarded(h: Host, t: Trace, w: Word)
    requires WellFormed(t) && DependentShape(t, w)
    ensures DependentShape(Apply(MemForward, h, t), w)
  {
    hide Apply, WellFormed;
    NotALoad(h, t, 0);
    NotALoad(h, t, 1);
  }

  lemma DependentTarget(h: Host, w: Word)
    requires WellFormed(DEPENDENT)
    ensures ComputeTarget(h, DEPENDENT, InstrRef(1), SymReg("flag"), w) == Some(Const64(DependentArm(w)).value)
  {
    hide Resolve, FoldConverge, Apply, TableTrace, WellFormed, Ordered, DependentArm, DependentShape, Assume;
    var a := Assume(DEPENDENT, SymReg("flag"), w);
    AssumeWellFormed(DEPENDENT, SymReg("flag"), w);
    DependentAssumed(w);
    FirstPasses(h, a);
    var t1 := Apply(ConstPromote, h, a);
    DependentPromoted(h, a, w);
    var t2 := Apply(MemForward, h, t1);
    DependentForwarded(h, t1, w);
    var t3 := Apply(ConstPromote, h, t2);
    DependentPromoted(h, t2, w);
    DependentFolded(h, t3, w);
    FoldedConst(4, h, a, InstrRef(1));
  }

  lemma DependentAssumed(w: Word)
    ensures DependentShape(Assume(DEPENDENT, SymReg("flag"), w), w)
  {
    assert SubstituteOperands(DEPENDENT[0], SymReg("flag"), w).operands == [Const64(w), Const64(100)];
    assert SubstituteOperands(DEPENDENT[1], SymReg("flag"), w).operands == [Const64(w), InstrRef(0), Const64(50)];
  }

  lemma DependentFolded(h: Host, t: Trace, w: Word)
    requires WellFormed(t) && DependentShape(t, w)
    ensures Ordered(Apply(ConstFold, h, t)) && Resolve(Apply(ConstFold, h, t), InstrRef(1)) == Const64(DependentArm(w))
  {
    hide Apply, WellFormed, Ordered, Fold, Resolve;
    var u := Apply(ConstFold, h, t);
    OrderedOf(u);
    FoldedAt(h, t, 0);
    FoldedAt(h, t, 1);
    FoldedAdd(h, t[0], w);
    CopyOfConst(u, 0, w + 100);
    if w != 0 { FoldedSelect(h, t[1], w); CopyOfCopy(u, 0, 1, Const64(w + 100)); }
    else { FoldedSelect(h, t[1], w); CopyResolves(u, 1, Const64(50)); }
  }

  lemma FoldedAdd(h: Host, d: Instruction, w: Word)
    requires d.op == ADD && d.operands == [Const64(w), Const64(100)]
    ensures Fold(h, d).op == CONST && Fold(h, d).operands == [Const64(w + 100)] && Fold(h, d).resultId == d.resultId
  {}

  lemma FoldedSelect(h: Host, d: Instruction, w: Word)
    requires d.op == SELECT && |d.operands| == 3 && d.operands[0] == Const64(w)
    ensures var x := Fold(h, d);
            x.op == PASSTHROUGH && x.resultId == d.resultId
            && x.operands == [if w != 0 then d.operands[1] else d.operands[2]]
  {}

  /** A trace without shifts, calls or memory accesses satisfies every hypothesis. */
  lemma QuietSane(g: Trace, env: Env, s: State)
    requires Ordered(g) && X64(env)
    requires forall k :: 0 <= k < |g| ==> g[k].op in {ADD, AND, CONST, PASSTHROUGH, SELECT}
    ensures Sane(g, env, s)
  {
    hide RunTo, X64, Resolve;
  }

  /** If an arm depends on the condition, the targets stand for the conditions 1 and 0 alone: with
      the flag 8 the dispatch goes to neither. */
  lemma DependentArmGoesElsewhere(h: Host, env: Env, mem: Memory)
    requires env.regs("flag") == 8 && X64(env)
    ensures Sane(DEPENDENT, env, Machine.Start(mem)) && Branching(DEPENDENT, SymReg("flag"))
    ensures ExtractTargets(h, DEPENDENT, InstrRef(1), SymReg("flag")) == Some((101, 50))
    ensures Eval(InstrRef(1), env, Run(DEPENDENT, env, Machine.Start(mem)).vals) == 108
  {
    hide ComputeTarget, X64, Resolve, ShiftsOk, StoresKnown, CallsApart;
    QuietSane(DEPENDENT, env, Machine.Start(mem));
    hide WellFormed;
    DependentTarget(h, 1);
    DependentTarget(h, 0);
    DependentRun(env, mem);
  }

  lemma DependentRun(env: Env, mem: Memory)
    requires env.regs("flag") == 8 && X64(env)
    ensures Eval(InstrRef(1), env, Run(DEPENDENT, env, Machine.Start(mem)).vals) == 108
  {
    hide Step, RunTo, Binary, X64, PureResult;
    var s := Machine.Start(mem);
    var vals := Run(DEPENDENT, env, s).vals;
    DependentSum(env, s);
    SsaEquation(DEPENDENT, 1, 2, env, s);
    var args := EvalAll(DEPENDENT[1].operands, env, vals);
    assert args[0] == 8 && args[1] == 108;
    SelectResult(args, env);
  }

  lemma DependentSum(env: Env, s: State)
    requires env.regs("flag") == 8 && X64(env)
    ensures Ordered(DEPENDENT) && 0 in RunTo(DEPENDENT, 2, env, s).vals && RunTo(DEPENDENT, 2, env, s).vals[0] == 108
  {
    hide Step, RunTo, Binary, X64;
    SsaEquation(DEPENDENT, 0, 2, env, s);
    BinaryResult(DEPENDENT[0], env, RunTo(DEPENDENT, 2, env, s).vals);
    AddEight();
  }

  lemma AddEight()
    ensures Binary(ADD, 8, 100) == 108
  {}

  // ----- a condition under two names -----

  const RENAMED: Trace := [
    Instruction(AND, [SymReg("flag"), Const64(1)], 0, map[]),
    Instruction(PASSTHROUGH, [InstrRef(0)], 1, map[]),
    Instruction(SELECT, [InstrRef(1), Const64(10), Const64(20)], 2, map[]),
    Instruction(STORE, [InstrRef(0), InstrRef(2)], 3, map[]),
    Instruction(STORE, [InstrRef(1), Const64(7)], 4, map[]),
    Instruction(LOAD, [InstrRef(0)], 5, map[])]

  /** Positions as ids, and references backward. */
  lemma Listed(g: Trace)
    requires forall k :: 0 <= k < |g| ==> g[k].resultId == k
    requires forall k, j :: 0 <= k < |g| && 0 <= j < |g[k].operands| ==> Below(g[k].operands[j], k)
    requires forall k :: 0 <= k < |g| ==>
               (g[k].op == LOAD ==> |g[k].operands| == 1) && (g[k].op == STORE ==> |g[k].operands| == 2)
    ensures WellFormed(g) && Ordered(g)
  {}

  lemma RenamedFits()
    ensures WellFormed(RENAMED) && Ordered(RENAMED)
  {
    hide WellFormed, Ordered;
    assert forall k :: 0 <= k < 6 ==> RENAMED[k].resultId == k;
    Listed(RENAMED);
  }

  function RenamedArm(w: Word): Word { if w != 0 then 10 else 20 }

  /** The assumed trace, up to annotations; its SELECT and second store name the condition by `v`. */
  ghost predicate RenamedShape(t: Trace, w: Word, v: Value) {
    && |t| == 6 && (forall k :: 0 <= k < 6 ==> t[k].resultId == k)
    && t[0].op == AND && t[1].op == CONST && t[1].operands == [Const64(w)]
    && t[2].op == SELECT && t[2].operands == [v, Const64(10), Const64(20)]
    && t[3].op == STORE && t[3].operands == [InstrRef(0), InstrRef(2)]
    && t[4].op == STORE && t[4].operands == [v, Const64(7)]
  }

  ghost predicate LoadsFlag(t: Trace) { |t| == 6 && t[5].op == LOAD && t[5].operands == [InstrRef(0)] }
  ghost predicate CopiesSelect(t: Trace) { |t| == 6 && t[5].op == PASSTHROUGH && t[5].operands == [InstrRef(2)] }

  lemma RenamedAssumed(w: Word)
    ensures RenamedShape(Assume(RENAMED, InstrRef(1), w), w, InstrRef(1)) && LoadsFlag(Assume(RENAMED, InstrRef(1), w))
  {}

  lemma RenamedPromoted(h: Host, t: Trace, w: Word, v: Value)
    requires WellFormed(t) && Ordered(t) && RenamedShape(t, w, v) && Resolve(t, v) == Const64(w)
    ensures var u := Apply(ConstPromote, h, t);
            && RenamedShape(u, w, Const64(w))
            && (LoadsFlag(t) ==> LoadsFlag(u)) && (CopiesSelect(t) ==> CopiesSelect(u))
  {
    hide Apply, WellFormed, Ordered, Resolve;
    var u := Apply(ConstPromote, h, t);
    PromotedOperand(h, t, 1, 0, 0);
    SelectPromoted(h, t, 2, w);
    RenamedStores(h, t, w, v);
    forall k | 0 <= k < 6 ensures u[k].resultId == k { assert t[k].resultId == k; }
    PromotedFirst(h, t);
    if LoadsFlag(t) { PromotedOperand(h, t, 5, 0, 0); }
    if CopiesSelect(t) { PromotedOperand(h, t, 5, 0, 2); }
    assert u[1].operands == t[1].operands;
  }

  lemma PromotedFirst(h: Host, t: Trace)
    requires WellFormed(t) && |t| > 0
    ensures Apply(ConstPromote, h, t)[0].op == t[0].op
  {
    hide WellFormed, ApplyTo, Resolve;
    AppliedAt(ConstPromote, h, t, 0);
  }

  lemma RenamedStores(h: Host, t: Trace, w: Word, v: Value)
    requires WellFormed(t) && Ordered(t) && RenamedShape(t, w, v) && Resolve(t, v) == Const64(w)
    ensures var u := Apply(ConstPromote, h, t);
            && u[3].op == STORE && u[3].operands == [InstrRef(0), InstrRef(2)]
            && u[4].op == STORE && u[4].operands == [Const64(w), Const64(7)]
  {
    hide Apply, WellFormed, Ordered, Resolve;
    PromotedOperand(h, t, 3, 0, 0);
    PromotedOperand(h, t, 3, 1, 2);
    PromotedConst(h, t, 4, 0);
    PromotedOperand(h, t, 4, 1, 0);
    var u := Apply(ConstPromote, h, t);
    assert u[3].operands == t[3].operands && u[4].operands == [Const64(w), Const64(7)];
  }

  lemma RenamedForwards(h: Host, t: Trace, w: Word)
    requires WellFormed(t) && RenamedShape(t, w, Const64(w)) && LoadsFlag(t)
    ensures RenamedShape(Apply(MemForward, h, t), w, Const64(w)) && CopiesSelect(Apply(MemForward, h, t))
  {
    hide Apply, WellFormed;
    forall k | 0 <= k < 5 ensures Apply(MemForward, h, t)[k] == t[k] { NotALoad(h, t, k); }
    ForwardedFrom(h, t, 5, 3);
  }

  lemma RenamedFolds(h: Host, t: Trace, w: Word)
    requires WellFormed(t) && RenamedShape(t, w, Const64(w)) && CopiesSelect(t)
    ensures Ordered(Apply(ConstFold, h, t)) && Resolve(Apply(ConstFold, h, t), InstrRef(5)) == Const64(RenamedArm(w))
  {
    hide Apply, WellFormed, Fold, Ordered, Resolve;
    var u := Apply(ConstFold, h, t);
    OrderedOf(u);
    FoldedAt(h, t, 2);
    FoldedAt(h, t, 5);
    FoldedSelect(h, t[2], w);
    FoldedCopy(h, t[5]);
    CopyResolves(u, 2, Const64(RenamedArm(w)));
    CopyOfCopy(u, 2, 5, Const64(RenamedArm(w)));
  }

  lemma FoldedCopy(h: Host, d: Instruction)
    requires d.op == PASSTHROUGH
    ensures Fold(h, d) == d
  {}

  lemma RenamedTarget(h: Host, w: Word)
    requires WellFormed(RENAMED)
    ensures ComputeTarget(h, RENAMED, InstrRef(5), InstrRef(1), w) == Some(Const64(RenamedArm(w)).value)
  {
    hide Resolve, FoldConverge, Apply, TableTrace, WellFormed, Ordered, RenamedShape, LoadsFlag, CopiesSelect,
         RenamedArm, Assume;
    var a := Assume(RENAMED, InstrRef(1), w);
    AssumeWellFormed(RENAMED, InstrRef(1), w);
    RenamedAssumed(w);
    OrderedOf(a);
    FirstPasses(h, a);
    RenamedCondition(a, w);
    var t1 := Apply(ConstPromote, h, a);
    RenamedPromoted(h, a, w, InstrRef(1));
    var t2 := Apply(MemForward, h, t1);
    RenamedForwards(h, t1, w);
    OrderedOf(t2);
    ConstStays(t2, Const64(w));
    var t3 := Apply(ConstPromote, h, t2);
    RenamedPromoted(h, t2, w, Const64(w));
    RenamedFolds(h, t3, w);
    FoldedConst(4, h, a, InstrRef(5));
  }

  lemma RenamedCondition(a: Trace, w: Word)
    requires Ordered(a) && RenamedShape(a, w, InstrRef(1))
    ensures Resolve(a, InstrRef(1)) == Const64(w)
  {
    hide Ordered, Resolve;
    CopyOfConst(a, 1, w);
  }

  lemma CopyOfConst(g: Trace, k: nat, w: Word)
    requires Ordered(g) && k < |g| && g[k].op == CONST && g[k].operands == [Const64(w)]
    ensures Resolve(g, g[k].Ref()) == Const64(w)
  {
    hide IndexMap;
    DefAt(g, k);
  }

  /** The two stores go to one address under two names. Assuming the condition under one of them
      separates their keys, and the load is forwarded from the wrong store: the condition is 1 in
      this sane run, the taken target is 10, and the VPC is 7. */
  lemma RenamedConditionMisleads(h: Host, env: Env, mem: Memory)
    requires env.regs("flag") == 1 && X64(env)
    ensures Sane(RENAMED, env, Machine.Start(mem)) && Ordered(RENAMED) && !AddressesClear(RENAMED, InstrRef(1))
    ensures ExtractTargets(h, RENAMED, InstrRef(5), InstrRef(1)) == Some((10, 20))
    ensures var vals := Run(RENAMED, env, Machine.Start(mem)).vals;
            Eval(InstrRef(1), env, vals) == 1 && Eval(InstrRef(5), env, vals) == 7
  {
    hide ComputeTarget, X64, WellFormed, Sane, AddressesClear, Run, Ordered;
    RenamedFits();
    RenamedTarget(h, 1);
    RenamedTarget(h, 0);
    RenamedKeys();
    RenamedRun(env, mem);
    RenamedSane(env, mem);
  }

  lemma RenamedKeys()
    requires Ordered(RENAMED)
    ensures Resolve(RENAMED, InstrRef(0)) == InstrRef(0) && Resolve(RENAMED, InstrRef(1)) == InstrRef(0)
    ensures !AddressesClear(RENAMED, InstrRef(1))
  {
    hide IndexMap, Ordered;
    DefAt(RENAMED, 0);
    DefAt(RENAMED, 1);
    assert IsAccess(RENAMED[4]) && LeadsThrough(RENAMED, RENAMED[4].operands[0], InstrRef(1));
  }

  lemma RenamedRun(env: Env, mem: Memory)
    requires env.regs("flag") == 1 && X64(env)
    ensures var vals := Run(RENAMED, env, Machine.Start(mem)).vals;
            Eval(InstrRef(1), env, vals) == 1 && Eval(InstrRef(5), env, vals) == 7
  {
    hide Step, RunTo, Binary, X64, Load64, Store64, PureResult;
    RenamedFits();
    var s := Machine.Start(mem);
    RenamedFlag(env, s, 4);
    RenamedFlag(env, s, 5);
    RenamedFlag(env, s, 6);
    ResultStable(RENAMED, 5, 6, env, s);
    RunNext(RENAMED, 4, env, s);
    RunNext(RENAMED, 5, env, s);
    StoreStep(RENAMED[4], env, RunTo(RENAMED, 4, env, s));
    LoadStep(RENAMED[5], env, RunTo(RENAMED, 5, env, s));
    LoadStored(RunTo(RENAMED, 4, env, s).mem, 1, 7);
  }

  lemma RunNext(g: Trace, n: nat, env: Env, s: State)
    requires n < |g|
    ensures RunTo(g, n + 1, env, s) == Step(g[n], env, RunTo(g, n, env, s))
  {
    hide Step;
  }

  /** Both names of the flag hold 1 once computed. */
  lemma RenamedFlag(env: Env, s: State, n: nat)
    requires env.regs("flag") == 1 && X64(env) && 2 <= n <= 6
    ensures Eval(InstrRef(0), env, RunTo(RENAMED, n, env, s).vals) == 1
    ensures Eval(InstrRef(1), env, RunTo(RENAMED, n, env, s).vals) == 1
  {
    hide Step, RunTo, Binary, X64;
    RenamedFits();
    var vals := RunTo(RENAMED, n, env, s).vals;
    SsaEquation(RENAMED, 0, n, env, s);
    SsaEquation(RENAMED, 1, n, env, s);
    BinaryResult(RENAMED[0], env, vals);
    OneBit();
  }

  lemma OneBit()
    ensures Binary(AND, 1, 1) == 1
  {}

  /** A trace without shifts and calls, whose store before its only load goes by the load's key. */
  lemma OneLoadSane(g: Trace, a: nat, m: nat, j: nat, env: Env, s: State)
    requires WellFormed(g) && Ordered(g) && X64(env) && a < m < j < |g|
    requires forall k :: 0 <= k < |g| ==> g[k].op in {AND, PASSTHROUGH, SELECT, STORE, LOAD}
    requires forall k :: 0 <= k < |g| ==> (IsStore(g[k]) ==> k == a || k == m) && (IsLoad(g[k]) ==> k == j)
    requires IsStore(g[m]) && IsLoad(g[j])
    requires AddrKey(Resolve(g, g[m].operands[0])) == AddrKey(Resolve(g, g[j].operands[0]))
    ensures Sane(g, env, s)
  {
    hide RunTo, X64, Overlap, Ordered, WellFormed, Resolve, AddrKey, Addr;
  }

  lemma RenamedSane(env: Env, mem: Memory)
    requires X64(env)
    ensures Sane(RENAMED, env, Machine.Start(mem))
  {
    hide X64, Resolve, Ordered, WellFormed, Sane, AddressesClear;
    RenamedFits();
    RenamedKeys();
    OneLoadSane(RENAMED, 3, 4, 5, env, Machine.Start(mem));
  }

  // ----- the result of a store as a condition -----

  const STORED: Trace := [
    Instruction(STORE, [Const64(8), Const64(5)], 0, map[]),
    Instruction(STORE, [Const64(8), Const64(7)], 1, map[]),
    Instruction(LOAD, [Const64(8)], 2, map[]),
    Instruction(SELECT, [InstrRef(1), Const64(100), InstrRef(2)], 3, map[])]

  lemma StoredFits()
    ensures WellFormed(STORED) && Ordered(STORED)
  {}

  function StoredArm(w: Word): Word { if w != 0 then 100 else 5 }

  /** The assumed trace, up to annotations; its SELECT names the condition by `v`. */
  ghost predicate StoredShape(t: Trace, w: Word, v: Value) {
    && |t| == 4 && (forall k :: 0 <= k < 4 ==> t[k].resultId == k)
    && t[0].op == STORE && t[0].operands == [Const64(8), Const64(5)]
    && t[1].op == CONST && t[1].operands == [Const64(w)]
    && t[2].op == LOAD && t[2].operands == [Const64(8)]
    && t[3].op == SELECT && t[3].operands == [v, Const64(100), InstrRef(2)]
  }

  lemma StoredAssumed(w: Word)
    ensures StoredShape(Assume(STORED, InstrRef(1), w), w, InstrRef(1))
  {}

  lemma StoredPromoted(h: Host, t: Trace, w: Word)
    requires WellFormed(t) && Ordered(t) && StoredShape(t, w, InstrRef(1))
    ensures StoredShape(Apply(ConstPromote, h, t), w, Const64(w))
  {
    hide Apply, WellFormed, Ordered, Resolve;
    StoredAccesses(h, t, w);
    CopyOfConst(t, 1, w);
    PromotedConst(h, t, 3, 0);
    PromotedOperand(h, t, 3, 1, 0);
    PromotedOperand(h, t, 3, 2, 2);
    var u := Apply(ConstPromote, h, t);
    assert u[3].operands == [Const64(w), Const64(100), InstrRef(2)];
    forall k | 0 <= k < 4 ensures u[k].resultId == k { assert t[k].resultId == k; }
  }

  lemma StoredAccesses(h: Host, t: Trace, w: Word)
    requires WellFormed(t) && Ordered(t) && StoredShape(t, w, InstrRef(1))
    ensures var u := Apply(ConstPromote, h, t);
            forall k :: 0 <= k < 3 ==> u[k].op == t[k].op && u[k].operands == t[k].operands
  {
    hide Apply, WellFormed, Ordered, Resolve;
    PromotedOperand(h, t, 0, 0, 0);
    PromotedOperand(h, t, 0, 1, 0);
    PromotedOperand(h, t, 1, 0, 0);
    PromotedOperand(h, t, 2, 0, 0);
    var u := Apply(ConstPromote, h, t);
    assert u[0].operands == t[0].operands;
    assert u[1].operands == t[1].operands;
    assert u[2].operands == t[2].operands;
  }

  /** The load is forwarded from the store that is left, and the SELECT gets its value. */
  lemma StoredForwards(h: Host, t: Trace, w: Word)
    requires WellFormed(t) && StoredShape(t, w, Const64(w))
    ensures var u := Apply(ConstPromote, h, Apply(MemForward, h, t));
            && |u| == 4 && u[3].op == SELECT && u[3].resultId == 3
            && u[3].operands == [Const64(w), Const64(100), Const64(5)]
  {
    hide Apply, WellFormed, Ordered, Resolve;
    ForwardedFrom(h, t, 2, 0);
    NotALoad(h, t, 3);
    var u := Apply(MemForward, h, t);
    OrderedOf(u);
    CopyOfConst(u, 2, 5);
    PromotedConst(h, u, 3, 2);
    PromotedOperand(h, u, 3, 0, 0);
    PromotedOperand(h, u, 3, 1, 0);
    assert Apply(ConstPromote, h, u)[3].operands == [Const64(w), Const64(100), Const64(5)];
  }

  lemma StoredTarget(h: Host, w: Word)
    requires WellFormed(STORED)
    ensures ComputeTarget(h, STORED, InstrRef(3), InstrRef(1), w) == Some(Const64(StoredArm(w)).value)
  {
    hide Resolve, FoldConverge, Apply, TableTrace, WellFormed, Ordered, StoredShape, Assume;
    var a := Assume(STORED, InstrRef(1), w);
    AssumeWellFormed(STORED, InstrRef(1), w);
    StoredAssumed(w);
    OrderedOf(a);
    FirstPasses(h, a);
    var t1 := Apply(ConstPromote, h, a);
    StoredPromoted(h, a, w);
    StoredForwards(h, t1, w);
    var t3 := Apply(ConstPromote, h, Apply(MemForward, h, t1));
    SelectFolds(ConstFold, h, t3, 3, w);
    CopyResolves(Apply(ConstFold, h, t3), 3, Const64(StoredArm(w)));
    FoldedConst(4, h, a, InstrRef(3));
  }

  /** A store has no result to branch on. Assuming one removes the store, and with it the value
      that the load reads: the condition is 0 in this sane run, the target for 0 is 5, and the
      VPC is 7. */
  lemma StoreConditionMisleads(h: Host, env: Env, mem: Memory)
    requires X64(env)
    ensures Sane(STORED, env, Machine.Start(mem)) && Ordered(STORED) && AddressesClear(STORED, InstrRef(1))
    ensures ExtractTargets(h, STORED, InstrRef(3), InstrRef(1)) == Some((100, 5))
    ensures var vals := Run(STORED, env, Machine.Start(mem)).vals;
            Eval(InstrRef(1), env, vals) == 0 && Eval(InstrRef(3), env, vals) == 7
  {
    hide ComputeTarget, X64, WellFormed, Sane, Run, Ordered, IndexMap;
    StoredFits();
    StoredTarget(h, 1);
    StoredTarget(h, 0);
    Computed(STORED, 1);
    StoredRun(env, mem);
    StoredSane(env, mem);
  }

  /** The load reads what the second store wrote. */
  lemma StoredLoad(env: Env, s: State)
    ensures InstrRef(1).id in RunTo(STORED, 3, env, s).vals && RunTo(STORED, 3, env, s).vals[1] == 0
    ensures 2 in RunTo(STORED, 3, env, s).vals && RunTo(STORED, 3, env, s).vals[2] == 7
  {
    hide RunTo, Load64, Store64, Step, PureResult;
    StoredWord(env, s);
    RunNext(STORED, 2, env, s);
    LoadStep(STORED[2], env, RunTo(STORED, 2, env, s));
  }

  lemma StoredWord(env: Env, s: State)
    ensures var t := RunTo(STORED, 2, env, s);
            1 in t.vals && t.vals[1] == 0 && Load64(t.mem, 8) == 7
  {
    hide RunTo, Load64, Store64, Step, PureResult;
    RunNext(STORED, 1, env, s);
    StoreStep(STORED[1], env, RunTo(STORED, 1, env, s));
    StoreResult(STORED[1], env, RunTo(STORED, 1, env, s));
    LoadStored(RunTo(STORED, 1, env, s).mem, 8, 7);
  }

  lemma StoredRun(env: Env, mem: Memory)
    ensures var vals := Run(STORED, env, Machine.Start(mem)).vals;
            Eval(InstrRef(1), env, vals) == 0 && Eval(InstrRef(3), env, vals) == 7
  {
    hide RunTo, Step, PureResult;
    var s := Machine.Start(mem);
    StoredLoad(env, s);
    RunNext(STORED, 3, env, s);
    var t := RunTo(STORED, 3, env, s);
    StepPure(STORED[3], env, t);
    var args := EvalAll(STORED[3].operands, env, t.vals);
    assert args[0] == 0 && args[2] == 7;
    SelectZero(args, env);
  }

  lemma SelectZero(args: seq<Word>, env: Env)
    requires |args| == 3 && args[0] == 0
    ensures PureResult(SELECT, args, env) == args[2]
  {}

  lemma StoreResult(d: Instruction, env: Env, t: State)
    requires IsStore(d)
    ensures Step(d, env, t).vals == t.vals[d.resultId := 0]
  {
    hide Store64, Load64, PureResult;
  }

  lemma StoredSane(env: Env, mem: Memory)
    requires X64(env)
    ensures Sane(STORED, env, Machine.Start(mem))
  {
    hide X64, Ordered, WellFormed, Sane;
    StoredFits();
    OneLoadSane(STORED, 0, 1, 2, env, Machine.Start(mem));
  }
}
