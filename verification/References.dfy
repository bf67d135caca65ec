/** Definitions by id, and following references through constants and pass-throughs. */
module References {
  import opened Ir
  import opened Machine

  /** Id to position; a later definition of the same id wins. */
  function IndexMap(g: Trace): (m: map<nat, nat>)
    ensures forall id :: id in m ==> m[id] < |g| && g[m[id]].resultId == id
    ensures forall i :: 0 <= i < |g| ==> g[i].resultId in m
    ensures forall i :: 0 <= i < |g| ==> i <= m[g[i].resultId]
  {
    if |g| == 0 then map[] else IndexMap(g[..|g| - 1])[g[|g| - 1].resultId := |g| - 1]
  }

  lemma IndexOf(g: Trace, i: nat)
    requires Ordered(g) && i < |g|
    ensures IndexMap(g)[g[i].resultId] == i
  {}

  /** The index map depends on the ids alone. */
  lemma {:induction false} IndexMapSameIds(g: Trace, h: Trace)
    requires |g| == |h| && forall i :: 0 <= i < |g| ==> g[i].resultId == h[i].resultId
    ensures IndexMap(g) == IndexMap(h)
  {
    if |g| > 0 { IndexMapSameIds(g[..|g| - 1], h[..|h| - 1]); }
  }

  function Def(g: Trace, id: nat): (d: Option<Instruction>)
    ensures d.Some? ==> d.value in g && d.value.resultId == id
  {
    var m := IndexMap(g);
    if id in m then Some(g[m[id]]) else None
  }

  lemma DefAt(g: Trace, i: nat)
    requires Ordered(g) && i < |g|
    ensures Def(g, g[i].resultId) == Some(g[i])
  {
    IndexOf(g, i);
  }

  lemma DefPosition(g: Trace, id: nat) returns (i: nat)
    requires Def(g, id).Some?
    ensures i < |g| && g[i] == Def(g, id).value && g[i].resultId == id
  {
    i := IndexMap(g)[id];
  }

  lemma DefReplaced(g: Trace, i: nat, x: Instruction, id: nat)
    requires Ordered(g) && i < |g| && x.resultId == g[i].resultId
    ensures Def(g[i := x], id) == if id == g[i].resultId then Some(x) else Def(g, id)
  {
    IndexMapSameIds(g, g[i := x]);
    IndexOf(g, i);
  }

  predicate IsConstDef(d: Instruction) { d.op in {CONST, CONST_PTR} && |d.operands| > 0 }
  predicate IsCopy(d: Instruction) { d.op == PASSTHROUGH && |d.operands| == 1 }

  function Resolve(g: Trace, v: Value): Value
    requires Ordered(g)
    decreases if v.InstrRef? then v.id + 1 else 0
  {
    if !v.InstrRef? then v
    else
      match Def(g, v.id)
      case None => v
      case Some(d) =>
        if IsConstDef(d) then (if d.operands[0].Const? then d.operands[0] else v)
        else if IsCopy(d) then Resolve(g, d.operands[0])
        else v
  }

  lemma {:induction false} ResolveBelow(g: Trace, v: Value, bound: nat)
    requires Ordered(g) && Below(v, bound)
    ensures Below(Resolve(g, v), bound)
    decreases if v.InstrRef? then v.id + 1 else 0
  {
    if v.InstrRef? {
      match Def(g, v.id)
      case None =>
      case Some(d) => if !IsConstDef(d) && IsCopy(d) { ResolveBelow(g, d.operands[0], bound); }
    }
  }

  lemma {:induction false} ResolveTwice(g: Trace, v: Value)
    requires Ordered(g)
    ensures Resolve(g, Resolve(g, v)) == Resolve(g, v)
    decreases if v.InstrRef? then v.id + 1 else 0
  {
    if v.InstrRef? {
      match Def(g, v.id)
      case None =>
      case Some(d) => if !IsConstDef(d) && IsCopy(d) { ResolveTwice(g, d.operands[0]); }
    }
  }

  lemma CopiedResult(d: Instruction, env: Env, vals: Values)
    requires IsConstDef(d) || IsCopy(d)
    ensures PureResult(d.op, EvalAll(d.operands, env, vals), env) == Eval(d.operands[0], env, vals)
  {}

  /** Following references never changes the value denoted. */
  lemma {:induction false} ResolveSound(g: Trace, v: Value, n: nat, env: Env, s: State)
    requires Ordered(g) && n <= |g|
    requires n < |g| ==> Below(v, g[n].resultId)
    ensures Eval(Resolve(g, v), env, RunTo(g, n, env, s).vals) == Eval(v, env, RunTo(g, n, env, s).vals)
    decreases if v.InstrRef? then v.id + 1 else 0
  {
    hide Step, PureResult;
    if v.InstrRef? {
      hide IndexMap, Def;
      match Def(g, v.id)
      case None =>
      case Some(d) =>
        if IsConstDef(d) || IsCopy(d) {
          var i := DefPosition(g, v.id);
          assert i < n;
          SsaEquation(g, i, n, env, s);
          CopiedResult(d, env, RunTo(g, n, env, s).vals);
          if !IsConstDef(d) { ResolveSound(g, d.operands[0], n, env, s); }
        }
    }
  }

  /** Resolution of earlier references does not look at position `i`. */
  lemma {:induction false} ResolveEarlier(g: Trace, i: nat, x: Instruction, v: Value)
    requires Ordered(g) && i < |g| && x.resultId == g[i].resultId && Ordered(g[i := x])
    requires Below(v, g[i].resultId)
    ensures Resolve(g[i := x], v) == Resolve(g, v)
    decreases if v.InstrRef? then v.id + 1 else 0
  {
    if v.InstrRef? {
      hide IndexMap, Def;
      DefReplaced(g, i, x, v.id);
      match Def(g, v.id)
      case None =>
      case Some(d) => if !IsConstDef(d) && IsCopy(d) { ResolveEarlier(g, i, x, d.operands[0]); }
    }
  }

  /** `x` may stand in for a constant or copy without redirecting anyone. */
  predicate KeepsForwarding(g: Trace, d: Instruction, x: Instruction)
    requires Ordered(g)
  {
    && x.resultId == d.resultId
    && (IsConstDef(d) && d.operands[0].Const? ==> IsConstDef(x) && x.operands[0] == d.operands[0])
    && (!IsConstDef(d) && IsCopy(d) ==>
          !IsConstDef(x) && IsCopy(x) && x.operands[0] in {d.operands[0], Resolve(g, d.operands[0])})
  }

  /** Rewriting one position can only make resolution reach further. */
  lemma {:induction false} ResolveFurther(g: Trace, i: nat, x: Instruction, v: Value)
    requires Ordered(g) && i < |g| && KeepsForwarding(g, g[i], x) && Ordered(g[i := x])
    ensures Resolve(g[i := x], v) == Resolve(g[i := x], Resolve(g, v))
    decreases if v.InstrRef? then v.id + 1 else 0
  {
    if v.InstrRef? {
      hide IndexMap, Def, Ordered;
      DefReplaced(g, i, x, v.id);
      DefAt(g, i);
      match Def(g, v.id)
      case None =>
      case Some(d) =>
        if !IsConstDef(d) && IsCopy(d) {
          OperandBelow(g, d);
          ResolveFurther(g, i, x, d.operands[0]);
          assert v.id == g[i].resultId ==> x.operands[0] in {d.operands[0], Resolve(g, d.operands[0])};
          assert Resolve(g, v) == Resolve(g, d.operands[0]);
        }
    }
  }

  lemma OperandBelow(g: Trace, d: Instruction)
    requires Ordered(g) && d in g
    ensures forall k :: 0 <= k < |d.operands| ==> Below(d.operands[k], d.resultId)
  {}

  // ----- address keys -----

  /** What the store map is indexed by: constants by value alone. */
  datatype Key = KConst(value: Word) | KReg(name: string) | KMem(addrRef: nat, width: nat) | KRef(id: nat)

  function AddrKey(v: Value): Key {
    match v
    case Const(c, _) => KConst(c)
    case SymReg(name) => KReg(name)
    case SymMem(addrRef, width) => KMem(addrRef, width)
    case InstrRef(id) => KRef(id)
  }

  lemma KeyValue(v: Value, w: Value, env: Env, vals: Values)
    requires AddrKey(v) == AddrKey(w)
    ensures Eval(v, env, vals) == Eval(w, env, vals)
  {}

  lemma KeyResolve(g: Trace, v: Value, w: Value)
    requires Ordered(g) && AddrKey(v) == AddrKey(w)
    ensures AddrKey(Resolve(g, v)) == AddrKey(Resolve(g, w))
  {
    if v.InstrRef? { assert v == w; }
  }
}
