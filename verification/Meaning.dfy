/** The value-propagating passes preserve every state of every run: each value, the memory
    and the event sequence, after every prefix of the trace. */
module Meaning {
  import opened Ir
  import opened Arithmetic
  import opened Machine
  import opened References
  import opened Rewrites

  // ----- the hypotheses, all about the run itself -----

  predicate IsAccess(d: Instruction) { IsLoad(d) || IsStore(d) }

  /** The address that the access at `i` uses in the run. */
  ghost function Addr(g: Trace, i: nat, env: Env, s: State): Word
    requires i < |g| && IsAccess(g[i])
  {
    Eval(g[i].operands[0], env, RunTo(g, i, env, s).vals)
  }

  /** No rotate or arithmetic shift of the run depends on an undefined host shift. */
  ghost predicate ShiftsOk(g: Trace, env: Env, s: State) {
    forall i :: 0 <= i < |g| && FoldableBinary(g[i].op) && |g[i].operands| == 2 ==> ShiftOkAt(g, i, env, s)
  }

  ghost predicate ShiftOkAt(g: Trace, i: nat, env: Env, s: State)
    requires i < |g| && |g[i].operands| == 2
  {
    var vals := RunTo(g, i, env, s).vals;
    ShiftDefined(g[i].op, Eval(g[i].operands[0], env, vals), Eval(g[i].operands[1], env, vals))
  }

  /** The key under which the access at `i` is known, before or after resolving references. */
  ghost function KeyAt(g: Trace, i: nat, resolved: bool): Key
    requires Ordered(g) && i < |g| && IsAccess(g[i])
  {
    var v := g[i].operands[0];
    AddrKey(if resolved then Resolve(g, v) else v)
  }

  /** Store `i` puts a value where load `j` reads; store `m` lies between them and overlaps the
      load. Then `m` and the load must go by the same key. */
  ghost predicate StoresKnown(g: Trace, resolved: bool, env: Env, s: State)
    requires Ordered(g)
  {
    forall i, m, j :: 0 <= i < m < j < |g| && IsStore(g[i]) && IsStore(g[m]) && IsLoad(g[j]) ==>
      KnownAt(g, i, m, j, resolved, env, s)
  }

  ghost predicate KnownAt(g: Trace, i: nat, m: nat, j: nat, resolved: bool, env: Env, s: State)
    requires Ordered(g) && i < m < j < |g| && IsStore(g[i]) && IsStore(g[m]) && IsLoad(g[j])
  {
    Addr(g, i, env, s) == Addr(g, j, env, s) && Overlap(Addr(g, m, env, s), Addr(g, j, env, s)) ==>
      KeyAt(g, m, resolved) == KeyAt(g, j, resolved)
  }

  /** A call between a store and a load of the same address leaves those bytes alone. */
  ghost predicate CallsApart(g: Trace, env: Env, s: State) {
    forall i, c, j :: 0 <= i < c < j < |g| && IsStore(g[i]) && g[c].op == CALL && IsLoad(g[j]) ==>
      CallApartAt(g, i, c, j, env, s)
  }

  ghost predicate CallApartAt(g: Trace, i: nat, c: nat, j: nat, env: Env, s: State)
    requires i < c < j < |g| && IsStore(g[i]) && IsLoad(g[j])
  {
    Addr(g, i, env, s) == Addr(g, j, env, s) ==>
      forall x :: Covers(Addr(g, j, env, s), x) ==> RunTo(g, c + 1, env, s).mem(x) == RunTo(g, c, env, s).mem(x)
  }

  /** A run on which the passes may be trusted. */
  ghost predicate Sane(g: Trace, env: Env, s: State) {
    && WellFormed(g) && X64(env)
    && ShiftsOk(g, env, s)
    && StoresKnown(g, true, env, s)
    && CallsApart(g, env, s)
  }

  // ----- each rewrite has the same effect -----

  lemma SameOperandsStep(d: Instruction, x: Instruction, env: Env, s: State)
    requires x.op == d.op && x.resultId == d.resultId && Private(x) == Private(d)
    requires |x.operands| == |d.operands|
    requires forall k :: 0 <= k < |d.operands| ==> Eval(x.operands[k], env, s.vals) == Eval(d.operands[k], env, s.vals)
    ensures Step(x, env, s) == Step(d, env, s)
  {
    hide Execute;
    assert EvalAll(x.operands, env, s.vals) == EvalAll(d.operands, env, s.vals);
  }

  /** A load whose value is known may be replaced by anything pure of that value. */
  lemma LoadStep(d: Instruction, env: Env, s: State)
    requires IsLoad(d)
    ensures Step(d, env, s) == s.(vals := s.vals[d.resultId := Load64(s.mem, Eval(d.operands[0], env, s.vals))])
  {
    hide Load64;
    assert s.events + [] == s.events;
  }

  lemma PromoteSound(g: Trace, i: nat, env: Env, s: State)
    requires Ordered(g) && i < |g|
    ensures Step(Promote(g, i), env, RunTo(g, i, env, s)) == Step(g[i], env, RunTo(g, i, env, s))
  {
    hide Step;
    var d, x := g[i], Promote(g, i);
    forall k | 0 <= k < |d.operands|
      ensures Eval(x.operands[k], env, RunTo(g, i, env, s).vals) == Eval(d.operands[k], env, RunTo(g, i, env, s).vals)
    {
      ResolveSound(g, d.operands[k], i, env, s);
    }
    SameOperandsStep(d, x, env, RunTo(g, i, env, s));
  }

  lemma FoldSound(h: Host, g: Trace, i: nat, env: Env, s: State)
    requires Ordered(g) && i < |g| && X64(env) && ShiftsOk(g, env, s)
    ensures Step(Fold(h, g[i]), env, RunTo(g, i, env, s)) == Step(g[i], env, RunTo(g, i, env, s))
  {
    hide Step, FoldBinary, FoldUnary, Binary, Unary, ShiftDefined, OpName, RunTo, X64;
    var d, t := g[i], RunTo(g, i, env, s);
    if Fold(h, d) != d {
      if FoldableBinary(d.op) {
        assert ShiftOkAt(g, i, env, s);
        FoldBinaryStep(h, d, env, t);
      } else if FoldableUnary(d.op) {
        FoldUnaryStep(h, d, env, t);
      } else {
        StepPure(d, env, t);
        StepPure(Fold(h, d), env, t);
      }
    }
  }

  lemma FoldBinaryStep(h: Host, d: Instruction, env: Env, t: State)
    requires X64(env) && FoldableBinary(d.op) && |d.operands| == 2 && d.operands[0].Const? && d.operands[1].Const?
    requires ShiftDefined(d.op, d.operands[0].value, d.operands[1].value)
    ensures Step(Fold(h, d), env, t) == Step(d, env, t)
  {
    hide Step, FoldBinary, Binary, ShiftDefined, OpName;
    FoldDefined(h, d.op, d.operands[0].value, d.operands[1].value);
    StepPure(d, env, t);
    StepPure(Fold(h, d), env, t);
  }

  lemma FoldUnaryStep(h: Host, d: Instruction, env: Env, t: State)
    requires X64(env) && FoldableUnary(d.op) && |d.operands| == 1 && d.operands[0].Const?
    ensures Step(Fold(h, d), env, t) == Step(d, env, t)
  {
    hide Step, FoldUnary, Unary, OpName;
    FoldUnaryExact(d.op, d.operands[0].value);
    StepPure(d, env, t);
    StepPure(Fold(h, d), env, t);
  }

  lemma BranchSound(d: Instruction, env: Env, s: State)
    ensures Step(FoldBranch(d), env, s) == Step(d, env, s)
  {
    hide Execute;
    if FoldBranch(d) != d {
      var args := EvalAll(d.operands, env, s.vals);
      assert args[1..] == EvalAll(d.operands[1..], env, s.vals);
      ExecuteCjmp(args, env, s.mem, s.calls);
      ExecuteCjmpAny(Private(d), Private(FoldBranch(d)), args, env, s.mem, s.calls);
    }
  }

  /** A conditional jump does what a jump or nothing does. */
  lemma ExecuteCjmp(args: seq<Word>, env: Env, mem: Memory, calls: nat)
    requires |args| > 0
    ensures Execute(CJMP, false, args, env, mem, calls)
         == if args[0] != 0 then Execute(JMP, false, args[1..], env, mem, calls)
         else Execute(NOP, false, args[1..], env, mem, calls)
  {
    hide Load64, Store64, PureResult;
    NopIsZero(args[1..], env);
  }

  lemma NopIsZero(args: seq<Word>, env: Env)
    ensures PureResult(NOP, args, env) == 0
  {}

  /** Privacy matters to stores alone. */
  lemma ExecuteCjmpAny(p: bool, q: bool, args: seq<Word>, env: Env, mem: Memory, calls: nat)
    requires |args| > 0
    ensures Execute(CJMP, p, args, env, mem, calls) == Execute(CJMP, false, args, env, mem, calls)
    ensures Execute(JMP, q, args[1..], env, mem, calls) == Execute(JMP, false, args[1..], env, mem, calls)
    ensures Execute(NOP, q, args[1..], env, mem, calls) == Execute(NOP, false, args[1..], env, mem, calls)
  {
    hide PureResult;
  }

  /** The value a definition of the prefix holds at position `i`. */
  lemma DefValue(g: Trace, i: nat, v: Value, env: Env, s: State)
    requires Ordered(g) && i < |g| && v.InstrRef? && v.id < g[i].resultId
    requires Def(g, v.id).Some? && Pure(Def(g, v.id).value.op)
    ensures var vals := RunTo(g, i, env, s).vals;
            var d := Def(g, v.id).value;
            Eval(v, env, vals) == PureResult(d.op, EvalAll(d.operands, env, vals), env)
  {
    hide Step;
    var k := DefPosition(g, v.id);
    assert k < i;
    SsaEquation(g, k, i, env, s);
  }

  lemma BinaryResult(d: Instruction, env: Env, vals: Values)
    requires X64(env) && FoldableBinary(d.op) && |d.operands| == 2
    ensures PureResult(d.op, EvalAll(d.operands, env, vals), env)
         == Binary(d.op, Eval(d.operands[0], env, vals), Eval(d.operands[1], env, vals))
  {
    hide Binary, Unary;
  }

  lemma CopyResult(d: Instruction, v: Value, env: Env, vals: Values)
    ensures PureResult(PASSTHROUGH, EvalAll(CopyOf(d, v).operands, env, vals), env) == Eval(v, env, vals)
    ensures PureResult(CONST, EvalAll(Zero(d).operands, env, vals), env) == 0
  {}

  /** Each identity, on the values involved. */
  lemma IdentityValue(g: Trace, d: Instruction, env: Env, vals: Values)
    requires Ordered(g) && |d.operands| == 2 && !Identity(g, d).Unchanged?
    requires Eval(Resolve(g, d.operands[1]), env, vals) == Eval(d.operands[1], env, vals)
    ensures FoldableBinary(d.op)
    ensures Binary(d.op, Eval(d.operands[0], env, vals), Eval(d.operands[1], env, vals))
         == if Identity(g, d).ToZero? then 0 else Eval(d.operands[0], env, vals)
  {
    hide Binary, Resolve, Ordered, Eval;
    var a := Eval(d.operands[0], env, vals);
    var r := Resolve(g, d.operands[1]);
    if r.Const? { ConstEval(r, env, vals); }
    Annihilators(a);
    if ZeroIsRightIdentity(d.op) { RightIdentities(d.op, a); }
  }

  lemma ConstEval(v: Value, env: Env, vals: Values)
    requires v.Const?
    ensures Eval(v, env, vals) == v.value
  {
  }

  lemma IdentitySound(g: Trace, i: nat, env: Env, s: State)
    requires Ordered(g) && i < |g| && X64(env)
    requires |g[i].operands| == 2 && !Identity(g, g[i]).Unchanged?
    ensures Step(Combine(g, i), env, RunTo(g, i, env, s)) == Step(g[i], env, RunTo(g, i, env, s))
  {
    hide Step, Identity, Resolve, X64, EvalAll, PureResult, Binary;
    var d, t := g[i], RunTo(g, i, env, s);
    ResolveSound(g, d.operands[1], i, env, s);
    IdentityValue(g, d, env, t.vals);
    BinaryResult(d, env, t.vals);
    CopyResult(d, d.operands[0], env, t.vals);
    StepPure(d, env, t);
    StepPure(Combine(g, i), env, t);
  }

  lemma UndoneSound(g: Trace, i: nat, env: Env, s: State)
    requires Ordered(g) && i < |g| && X64(env) && Undone(g, g[i]).Some?
    ensures Step(CopyOf(g[i], Undone(g, g[i]).value), env, RunTo(g, i, env, s)) == Step(g[i], env, RunTo(g, i, env, s))
  {
    hide Step, Unary, Def;
    var d, t := g[i], RunTo(g, i, env, s);
    DefValue(g, i, d.operands[0], env, s);
    UnaryInvolutions(d.op, Eval(Undone(g, d).value, env, t.vals));
    StepPure(d, env, t);
    StepPure(CopyOf(d, Undone(g, d).value), env, t);
  }

  lemma AndXorValue(g: Trace, i: nat, orA: Value, orB: Value, env: Env, s: State)
    requires Ordered(g) && i < |g| && X64(env) && AndXor(g, orA, orB) && Below(orA, g[i].resultId)
    ensures var vals := RunTo(g, i, env, s).vals;
            Binary(OR, Eval(orA, env, vals), Eval(orB, env, vals)) == Eval(orB, env, vals)
  {
    hide Step, Binary, Def, RunTo, PureResult, X64;
    var vals := RunTo(g, i, env, s).vals;
    var x := Def(g, orA.id).value;
    DefValue(g, i, orA, env, s);
    var other := if x.operands[1] == orB then x.operands[0] else x.operands[1];
    assert x in g;
    assert Below(x.operands[0], x.resultId) && Below(x.operands[1], x.resultId);
    DefValue(g, i, other, env, s);
    var n := Def(g, other.id).value;
    var a := if n.operands[1] == orB then n.operands[0] else n.operands[1];
    var y := Eval(orB, env, vals);
    BinaryResult(x, env, vals);
    BinaryResult(n, env, vals);
    AndXorOr(Eval(a, env, vals), y);
    AndXorOr(Eval(other, env, vals), y);
  }

  lemma OrSound(g: Trace, i: nat, env: Env, s: State)
    requires Ordered(g) && i < |g| && X64(env) && g[i].op == OR && |g[i].operands| == 2
    requires Combine(g, i) != g[i] && Identity(g, g[i]).Unchanged?
    ensures Step(Combine(g, i), env, RunTo(g, i, env, s)) == Step(g[i], env, RunTo(g, i, env, s))
  {
    hide Step, Binary, AndXor, Identity, RunTo, Combine, X64;
    var d, t := g[i], RunTo(g, i, env, s);
    var a, b := d.operands[0], d.operands[1];
    assert Below(a, d.resultId) && Below(b, d.resultId);
    OrCombined(g, i);
    if AndXor(g, a, b) {
      AndXorValue(g, i, a, b, env, s);
    } else if AndXor(g, b, a) {
      AndXorValue(g, i, b, a, env, s);
      AndXorOr(Eval(a, env, t.vals), Eval(b, env, t.vals));
    } else {
      Annihilators(Eval(a, env, t.vals));
    }
    OrStep(d, Combine(g, i), env, t);
  }

  lemma OrCombined(g: Trace, i: nat)
    requires Ordered(g) && i < |g| && g[i].op == OR && |g[i].operands| == 2
    requires Combine(g, i) != g[i] && Identity(g, g[i]).Unchanged?
    ensures var d, x := g[i], Combine(g, i);
            && x.op == PASSTHROUGH && |x.operands| == 1 && x.resultId == d.resultId
            && (x.operands[0] == if AndXor(g, d.operands[0], d.operands[1]) then d.operands[1] else d.operands[0])
            && (|| AndXor(g, d.operands[0], d.operands[1])
                || AndXor(g, d.operands[1], d.operands[0])
                || d.operands[0] == d.operands[1])
  {
    hide AndXor, Identity, Ordered;
  }

  lemma OrStep(d: Instruction, x: Instruction, env: Env, t: State)
    requires X64(env) && d.op == OR && |d.operands| == 2
    requires x.op == PASSTHROUGH && |x.operands| == 1 && x.resultId == d.resultId
    requires Binary(OR, Eval(d.operands[0], env, t.vals), Eval(d.operands[1], env, t.vals))
          == Eval(x.operands[0], env, t.vals)
    ensures Step(x, env, t) == Step(d, env, t)
  {
    hide Step, Binary;
    StepPure(d, env, t);
    StepPure(x, env, t);
  }

  lemma CombineSound(g: Trace, i: nat, env: Env, s: State)
    requires Ordered(g) && i < |g| && X64(env)
    ensures Step(Combine(g, i), env, RunTo(g, i, env, s)) == Step(g[i], env, RunTo(g, i, env, s))
  {
    hide Step, Identity, AndXor, Undone, RunTo;
    var d := g[i];
    if |d.operands| == 2 && !Identity(g, d).Unchanged? {
      IdentitySound(g, i, env, s);
    } else if Undone(g, d).Some? {
      UndoneSound(g, i, env, s);
    } else if Combine(g, i) != d {
      OrSound(g, i, env, s);
    }
  }

  // ----- store-to-load forwarding -----

  lemma {:induction false} LastStoreAt(g: Trace, n: nat, key: Key) returns (i: nat)
    requires n <= |g| && LastStore(g, n, key).Some?
    ensures i < n && IsStore(g[i]) && AddrKey(g[i].operands[0]) == key
    ensures LastStore(g, n, key) == Some(g[i].operands[1])
    ensures forall m :: i < m < n && IsStore(g[m]) ==> AddrKey(g[m].operands[0]) != key
  {
    if IsStore(g[n - 1]) && AddrKey(g[n - 1].operands[0]) == key {
      i := n - 1;
    } else {
      i := LastStoreAt(g, n - 1, key);
    }
  }

  lemma StoreStep(d: Instruction, env: Env, s: State)
    requires IsStore(d)
    ensures Step(d, env, s).mem == Store64(s.mem, Eval(d.operands[0], env, s.vals), Eval(d.operands[1], env, s.vals))
  {
    hide Store64;
  }

  lemma QuietStep(d: Instruction, env: Env, s: State)
    requires d.op !in {STORE, CALL}
    ensures Step(d, env, s).mem == s.mem
  {
    hide Store64, Load64;
  }

  /** Between the last store under the load's key and the load, nothing disturbs the bytes read. */
  lemma {:induction false} BytesKept(g: Trace, i: nat, n: nat, j: nat, env: Env, s: State)
    requires WellFormed(g) && StoresKnown(g, false, env, s) && CallsApart(g, env, s)
    requires i < n <= j < |g| && IsStore(g[i]) && IsLoad(g[j]) && Addr(g, i, env, s) == Addr(g, j, env, s)
    requires forall m :: i < m < j && IsStore(g[m]) ==> AddrKey(g[m].operands[0]) != AddrKey(g[j].operands[0])
    ensures Load64(RunTo(g, n, env, s).mem, Addr(g, j, env, s))
         == Eval(g[i].operands[1], env, RunTo(g, i, env, s).vals)
  {
    hide Step, Load64, Store64, StoresKnown, CallsApart, Covers;
    var m := n - 1;
    var t := RunTo(g, m, env, s);
    if m == i {
      StoreStep(g[i], env, t);
      LoadStored(t.mem, Addr(g, i, env, s), Eval(g[i].operands[1], env, t.vals));
    } else {
      BytesKept(g, i, m, j, env, s);
      BytesKeptBy(g, i, m, j, env, s);
    }
  }

  /** Instruction `m` does not disturb the bytes that `j` reads. */
  lemma BytesKeptBy(g: Trace, i: nat, m: nat, j: nat, env: Env, s: State)
    requires WellFormed(g) && StoresKnown(g, false, env, s) && CallsApart(g, env, s)
    requires i < m < j < |g| && IsStore(g[i]) && IsLoad(g[j]) && Addr(g, i, env, s) == Addr(g, j, env, s)
    requires IsStore(g[m]) ==> AddrKey(g[m].operands[0]) != AddrKey(g[j].operands[0])
    ensures Load64(RunTo(g, m + 1, env, s).mem, Addr(g, j, env, s))
         == Load64(RunTo(g, m, env, s).mem, Addr(g, j, env, s))
  {
    hide Step, Load64, Store64, Covers;
    var t := RunTo(g, m, env, s);
    if IsStore(g[m]) {
      StoreStep(g[m], env, t);
      assert KnownAt(g, i, m, j, false, env, s);
      LoadElsewhere(t.mem, Addr(g, m, env, s), Eval(g[m].operands[1], env, t.vals), Addr(g, j, env, s));
    } else if g[m].op == CALL {
      assert CallApartAt(g, i, m, j, env, s);
      LoadAgree(RunTo(g, m + 1, env, s).mem, t.mem, Addr(g, j, env, s));
    } else {
      QuietStep(g[m], env, t);
    }
  }

  lemma ForwardSound(g: Trace, j: nat, env: Env, s: State)
    requires WellFormed(g) && StoresKnown(g, false, env, s) && CallsApart(g, env, s) && j < |g|
    ensures Step(Forward(g, j), env, RunTo(g, j, env, s)) == Step(g[j], env, RunTo(g, j, env, s))
  {
    hide Step, Load64, LastStore;
    var d, x, t := g[j], Forward(g, j), RunTo(g, j, env, s);
    if x != d {
      var key := AddrKey(d.operands[0]);
      var i := LastStoreAt(g, j, key);
      var v := g[i].operands[1];
      OperandStable(g, g[i].operands[0], i, j, env, s);
      OperandStable(g, v, i, j, env, s);
      KeyValue(g[i].operands[0], d.operands[0], env, t.vals);
      BytesKept(g, i, j, j, env, s);
      LoadStep(d, env, t);
      StepPure(x, env, t);
    }
  }

  lemma RewriteSound(p: LocalPass, h: Host, g: Trace, i: nat, env: Env, s: State)
    requires Sane(g, env, s) && i < |g|
    requires p == MemForward ==> StoresKnown(g, false, env, s)
    ensures Step(RewriteAt(p, h, g, i), env, RunTo(g, i, env, s)) == Step(g[i], env, RunTo(g, i, env, s))
  {
    hide Step, ShiftsOk, StoresKnown, CallsApart, X64, Ordered;
    match p
    case ConstPromote => PromoteSound(g, i, env, s);
    case MemForward => ForwardSound(g, i, env, s);
    case ConstFold => FoldSound(h, g, i, env, s);
    case InsnCombine => CombineSound(g, i, env, s);
    case BranchFold => BranchSound(g[i], env, RunTo(g, i, env, s));
  }

  // ----- the hypotheses survive every faithful replacement -----

  /** Operations that neither access memory nor shift nor call. */
  predicate Inert(op: Op) { op == CONST || op == PASSTHROUGH || op == JMP || op == NOP }

  /** `x` may replace instruction `i`: same effect in this run, same id, and unless inert the
      same operation on operands that are the old ones, possibly resolved. */
  ghost predicate Faithful(g: Trace, i: nat, x: Instruction, env: Env, s: State)
    requires Ordered(g) && i < |g|
  {
    && (forall k :: 0 <= k < |x.operands| ==> Below(x.operands[k], g[i].resultId))
    && KeepsForwarding(g, g[i], x)
    && Step(x, env, RunTo(g, i, env, s)) == Step(g[i], env, RunTo(g, i, env, s))
    && (!Inert(x.op) ==>
          && x.op == g[i].op && |x.operands| == |g[i].operands|
          && forall k :: 0 <= k < |x.operands| ==> x.operands[k] in {g[i].operands[k], Resolve(g, g[i].operands[k])})
  }

  lemma ReplacedWellFormed(g: Trace, i: nat, x: Instruction, env: Env, s: State)
    requires WellFormed(g) && i < |g| && Faithful(g, i, x, env, s)
    ensures WellFormed(g[i := x])
  {
    hide Step, RunTo, Resolve;
  }

  lemma ReplacedRun(g: Trace, i: nat, x: Instruction, n: nat, env: Env, s: State)
    requires Ordered(g) && i < |g| && n <= |g| && Faithful(g, i, x, env, s)
    ensures RunTo(g[i := x], n, env, s) == RunTo(g, n, env, s)
  {
    hide Step, Ordered, Resolve;
    RunReplaced(g, i, x, n, env, s);
  }

  /** An operand of the new trace denotes what the old one did. */
  lemma ReplacedOperand(g: Trace, i: nat, x: Instruction, k: nat, j: nat, env: Env, s: State)
    requires WellFormed(g) && i < |g| && k < |g| && Faithful(g, i, x, env, s)
    requires !Inert(g[i := x][k].op) && j < |g[i := x][k].operands|
    ensures g[i := x][k].op == g[k].op && |g[i := x][k].operands| == |g[k].operands|
    ensures var v, w := g[k].operands[j], g[i := x][k].operands[j];
            && (w == v || w == Resolve(g, v))
            && Eval(w, env, RunTo(g[i := x], k, env, s).vals) == Eval(v, env, RunTo(g, k, env, s).vals)
  {
    hide Step, RunTo, Resolve;
    ReplacedRun(g, i, x, k, env, s);
    if k == i { ResolveSound(g, g[k].operands[j], k, env, s); }
  }

  /** Accesses stay where they are, at the same addresses. */
  lemma ReplacedAccess(g: Trace, i: nat, x: Instruction, k: nat, env: Env, s: State)
    requires WellFormed(g) && i < |g| && k < |g| && Faithful(g, i, x, env, s) && IsAccess(g[i := x][k])
    ensures g[k].op == g[i := x][k].op && IsAccess(g[k])
    ensures Addr(g[i := x], k, env, s) == Addr(g, k, env, s)
  {
    hide Faithful, RunTo, Resolve;
    ReplacedOperand(g, i, x, k, 0, env, s);
  }

  /** The resolved key of an access is the old key, resolved further. */
  lemma ReplacedKey(g: Trace, i: nat, x: Instruction, k: nat, env: Env, s: State)
    requires WellFormed(g) && i < |g| && k < |g| && Faithful(g, i, x, env, s)
    requires IsAccess(g[i := x][k]) && IsAccess(g[k]) && Ordered(g[i := x])
    ensures KeyAt(g[i := x], k, true) == AddrKey(Resolve(g[i := x], Resolve(g, g[k].operands[0])))
  {
    hide Step, RunTo, Resolve;
    ReplacedOperand(g, i, x, k, 0, env, s);
    ResolveFurther(g, i, x, g[k].operands[0]);
  }

  lemma ReplacedKnown(g: Trace, i: nat, x: Instruction, env: Env, s: State)
    requires WellFormed(g) && StoresKnown(g, true, env, s) && i < |g| && Faithful(g, i, x, env, s)
    requires WellFormed(g[i := x])
    ensures StoresKnown(g[i := x], true, env, s)
  {
    hide RunTo, Resolve, Ordered, Faithful;
    var v := g[i := x];
    forall a, m, j | 0 <= a < m < j < |v| && IsStore(v[a]) && IsStore(v[m]) && IsLoad(v[j])
      ensures KnownAt(v, a, m, j, true, env, s)
    {
      ReplacedAccess(g, i, x, a, env, s);
      ReplacedAccess(g, i, x, m, env, s);
      ReplacedAccess(g, i, x, j, env, s);
      assert KnownAt(g, a, m, j, true, env, s);
      ReplacedKey(g, i, x, m, env, s);
      ReplacedKey(g, i, x, j, env, s);
      if Addr(g, a, env, s) == Addr(g, j, env, s) && Overlap(Addr(g, m, env, s), Addr(g, j, env, s)) {
        KeyResolve(v, Resolve(g, g[m].operands[0]), Resolve(g, g[j].operands[0]));
      }
    }
  }

  /** If no address operand changes, the unresolved keys do not either. */
  lemma ReplacedRawKnown(g: Trace, i: nat, x: Instruction, env: Env, s: State)
    requires WellFormed(g) && StoresKnown(g, false, env, s) && i < |g| && Faithful(g, i, x, env, s)
    requires WellFormed(g[i := x]) && (IsAccess(x) ==> x == g[i])
    ensures StoresKnown(g[i := x], false, env, s)
  {
    hide RunTo, Resolve, Ordered, Faithful;
    var v := g[i := x];
    forall a, m, j | 0 <= a < m < j < |v| && IsStore(v[a]) && IsStore(v[m]) && IsLoad(v[j])
      ensures KnownAt(v, a, m, j, false, env, s)
    {
      ReplacedAccess(g, i, x, a, env, s);
      ReplacedAccess(g, i, x, m, env, s);
      ReplacedAccess(g, i, x, j, env, s);
      assert KnownAt(g, a, m, j, false, env, s);
    }
  }

  lemma ReplacedCalls(g: Trace, i: nat, x: Instruction, env: Env, s: State)
    requires WellFormed(g) && CallsApart(g, env, s) && i < |g| && Faithful(g, i, x, env, s)
    ensures CallsApart(g[i := x], env, s)
  {
    hide RunTo, Ordered, Step, Resolve, CallApartAt, Faithful;
    var v := g[i := x];
    forall a, c, j | 0 <= a < c < j < |v| && IsStore(v[a]) && v[c].op == CALL && IsLoad(v[j])
      ensures CallApartAt(v, a, c, j, env, s)
    {
      ReplacedCallAt(g, i, x, a, c, j, env, s);
    }
  }

  lemma ReplacedCallAt(g: Trace, i: nat, x: Instruction, a: nat, c: nat, j: nat, env: Env, s: State)
    requires WellFormed(g) && CallsApart(g, env, s) && i < |g| && Faithful(g, i, x, env, s) && a < c < j < |g|
    requires IsStore(g[i := x][a]) && g[i := x][c].op == CALL && IsLoad(g[i := x][j])
    ensures CallApartAt(g[i := x], a, c, j, env, s)
  {
    hide RunTo, Ordered, Step, Resolve, Addr, Covers;
    ReplacedAccess(g, i, x, a, env, s);
    ReplacedAccess(g, i, x, j, env, s);
    assert CallApartAt(g, a, c, j, env, s);
    ReplacedRun(g, i, x, c, env, s);
    ReplacedRun(g, i, x, c + 1, env, s);
  }

  lemma ReplacedShifts(g: Trace, i: nat, x: Instruction, env: Env, s: State)
    requires WellFormed(g) && ShiftsOk(g, env, s) && i < |g| && Faithful(g, i, x, env, s)
    ensures ShiftsOk(g[i := x], env, s)
  {
    hide RunTo, Ordered, ShiftDefined, Faithful;
    var v := g[i := x];
    forall k | 0 <= k < |v| && FoldableBinary(v[k].op) && |v[k].operands| == 2 ensures ShiftOkAt(v, k, env, s) {
      ReplacedOperand(g, i, x, k, 0, env, s);
      ReplacedOperand(g, i, x, k, 1, env, s);
      assert ShiftOkAt(g, k, env, s);
    }
  }

  lemma ReplacedSane(g: Trace, i: nat, x: Instruction, env: Env, s: State)
    requires Sane(g, env, s) && i < |g| && Faithful(g, i, x, env, s)
    ensures Sane(g[i := x], env, s)
  {
    hide StoresKnown, CallsApart, ShiftsOk, Faithful, X64;
    ReplacedWellFormed(g, i, x, env, s);
    ReplacedShifts(g, i, x, env, s);
    ReplacedKnown(g, i, x, env, s);
    ReplacedCalls(g, i, x, env, s);
  }

  // ----- the rewrites are faithful -----

  lemma RewriteFaithful(p: LocalPass, h: Host, g: Trace, i: nat, env: Env, s: State)
    requires Sane(g, env, s) && i < |g|
    requires p == MemForward ==> StoresKnown(g, false, env, s)
    ensures Faithful(g, i, RewriteAt(p, h, g, i), env, s)
  {
    hide RewriteAt, StoresKnown, CallsApart, ShiftsOk, X64, Step, RunTo, Resolve;
    RewriteShape(p, h, g, i);
    RewriteKeepsForwarding(p, h, g, i);
    RewriteSound(p, h, g, i, env, s);
  }

  lemma VisitRun(p: LocalPass, h: Host, g: Trace, i: nat, n: nat, env: Env, s: State)
    requires Sane(g, env, s) && i < |g| && n <= |g|
    requires p == MemForward ==> StoresKnown(g, false, env, s)
    ensures RunTo(Visit(p, h, g, i), n, env, s) == RunTo(g, n, env, s)
  {
    hide RewriteAt, StoresKnown, CallsApart, ShiftsOk, X64, RunTo, Faithful, Ordered;
    RewriteFaithful(p, h, g, i, env, s);
    ReplacedRun(g, i, RewriteAt(p, h, g, i), n, env, s);
  }

  lemma VisitSane(p: LocalPass, h: Host, g: Trace, i: nat, env: Env, s: State)
    requires Sane(g, env, s) && i < |g|
    requires p == MemForward ==> StoresKnown(g, false, env, s)
    ensures Sane(Visit(p, h, g, i), env, s)
    ensures p == MemForward ==> StoresKnown(Visit(p, h, g, i), false, env, s)
  {
    hide RewriteAt, StoresKnown, CallsApart, ShiftsOk, X64, RunTo, Faithful, Ordered;
    RewriteFaithful(p, h, g, i, env, s);
    ReplacedSane(g, i, RewriteAt(p, h, g, i), env, s);
    if p == MemForward {
      ForwardKeepsAccess(h, g, i);
      ReplacedRawKnown(g, i, RewriteAt(p, h, g, i), env, s);
    }
  }

  lemma ForwardKeepsAccess(h: Host, g: Trace, i: nat)
    requires WellFormed(g) && i < |g|
    ensures IsAccess(RewriteAt(MemForward, h, g, i)) ==> RewriteAt(MemForward, h, g, i) == g[i]
  {}

  // ----- a whole pass -----

  lemma {:induction false} ApplySound(p: LocalPass, h: Host, g: Trace, m: nat, n: nat, env: Env, s: State)
    requires Sane(g, env, s) && m <= |g| && n <= |g|
    requires p == MemForward ==> StoresKnown(g, false, env, s)
    ensures Sane(ApplyTo(p, h, g, m), env, s)
    ensures p == MemForward ==> StoresKnown(ApplyTo(p, h, g, m), false, env, s)
    ensures RunTo(ApplyTo(p, h, g, m), n, env, s) == RunTo(g, n, env, s)
  {
    hide Visit, StoresKnown, CallsApart, ShiftsOk, WellFormed, RunTo, X64;
    if m > 0 {
      ApplySound(p, h, g, m - 1, n, env, s);
      VisitSane(p, h, ApplyTo(p, h, g, m - 1), m - 1, env, s);
      VisitRun(p, h, ApplyTo(p, h, g, m - 1), m - 1, n, env, s);
    }
  }

  /** Every operand is already what `Resolve` would make of it. */
  ghost predicate Promoted(g: Trace, n: nat)
    requires Ordered(g) && n <= |g|
  {
    forall i, k :: 0 <= i < n && 0 <= k < |g[i].operands| ==> Resolve(g, g[i].operands[k]) == g[i].operands[k]
  }

  lemma VisitPromotes(h: Host, g: Trace, i: nat)
    requires WellFormed(g) && i < |g|
    ensures Visit(ConstPromote, h, g, i) == g[i := Promote(g, i)]
  {}

  lemma PromotedVisit(h: Host, g: Trace, n: nat)
    requires WellFormed(g) && n < |g| && Promoted(g, n)
    ensures Promoted(Visit(ConstPromote, h, g, n), n + 1)
  {
    hide Resolve, Visit, RewriteAt;
    VisitPromotes(h, g, n);
    var x := Promote(g, n);
    var t := g[n := x];
    forall i, k | 0 <= i < n + 1 && 0 <= k < |t[i].operands| ensures Resolve(t, t[i].operands[k]) == t[i].operands[k] {
      assert Below(t[i].operands[k], t[i].resultId);
      assert t[i].resultId <= t[n].resultId;
      ResolveEarlier(g, n, x, t[i].operands[k]);
      if i == n { ResolveTwice(g, g[i].operands[k]); }
    }
  }

  /** Constant promotion leaves nothing to resolve. */
  lemma {:induction false} PromotionResolves(h: Host, g: Trace, n: nat)
    requires WellFormed(g) && n <= |g|
    ensures Promoted(ApplyTo(ConstPromote, h, g, n), n)
  {
    hide Resolve, Visit, Promoted;
    if n > 0 {
      PromotionResolves(h, g, n - 1);
      PromotedVisit(h, ApplyTo(ConstPromote, h, g, n - 1), n - 1);
    } else {
      PromotedNone(g);
    }
  }

  lemma PromotedNone(g: Trace)
    requires Ordered(g)
    ensures Promoted(g, 0)
  {}

  lemma PromotedKnown(g: Trace, env: Env, s: State)
    requires Ordered(g) && Promoted(g, |g|) && StoresKnown(g, true, env, s)
    ensures StoresKnown(g, false, env, s)
  {
    hide Resolve, RunTo;
    forall a, m, j | 0 <= a < m < j < |g| && IsStore(g[a]) && IsStore(g[m]) && IsLoad(g[j])
      ensures KnownAt(g, a, m, j, false, env, s)
    {
      assert KnownAt(g, a, m, j, true, env, s);
    }
  }

  // ----- references are not invented -----

  /** A reference is an operand of the trace. */
  ghost predicate Mentioned(g: Trace, v: Value) { v.InstrRef? ==> exists k :: 0 <= k < |g| && v in g[k].operands }

  lemma {:induction false} ResolveMentioned(g: Trace, v: Value)
    requires Ordered(g) && Mentioned(g, v)
    ensures Mentioned(g, Resolve(g, v))
    decreases if v.InstrRef? then v.id + 1 else 0
  {
    if v.InstrRef? {
      hide IndexMap, Def;
      match Def(g, v.id)
      case None =>
      case Some(d) =>
        if !IsConstDef(d) && IsCopy(d) {
          var i := DefPosition(g, v.id);
          assert d.operands[0] in g[i].operands;
          ResolveMentioned(g, d.operands[0]);
        }
    }
  }

  lemma LastStoreMentioned(g: Trace, n: nat, key: Key)
    requires n <= |g| && LastStore(g, n, key).Some?
    ensures Mentioned(g, LastStore(g, n, key).value)
  {
    var i := LastStoreAt(g, n, key);
    assert g[i].operands[1] in g[i].operands;
  }

  /** Rewriting introduces no reference that was not there. */
  lemma RewriteMentions(p: LocalPass, h: Host, g: Trace, i: nat, j: nat)
    requires Ordered(g) && i < |g| && j < |RewriteAt(p, h, g, i).operands|
    ensures Mentioned(g, RewriteAt(p, h, g, i).operands[j])
  {
    hide Ordered, Resolve, Def, LastStore, FoldBinary, FoldUnary, OpName, Identity, AndXor, AddrKey;
    var d := g[i];
    assert forall k :: 0 <= k < |d.operands| ==> d.operands[k] in g[i].operands;
    match p
    case ConstPromote => ResolveMentioned(g, d.operands[j]);
    case MemForward =>
      if Forward(g, i) != d { LastStoreMentioned(g, i, AddrKey(d.operands[0])); }
    case ConstFold =>
    case InsnCombine =>
      if Undone(g, d).Some? {
        var k := DefPosition(g, d.operands[0].id);
        assert Undone(g, d).value in g[k].operands;
      }
    case BranchFold =>
  }
}
