/** Renumbering the instructions of a segment into a fresh id range. */
module Renumber {
  import opened Ir
  import opened Machine

  function RemapValue(v: Value, idMap: map<nat, nat>): Value {
    if v.InstrRef? && v.id in idMap then InstrRef(idMap[v.id]) else v
  }

  function RemapValues(vs: seq<Value>, idMap: map<nat, nat>): (r: seq<Value>)
    ensures |r| == |vs|
  {
    seq(|vs|, k requires 0 <= k < |vs| => RemapValue(vs[k], idMap))
  }

  /** Old id to new id, for the first `n` instructions. */
  function IdMap(src: Trace, next: nat, n: nat): map<nat, nat>
    requires n <= |src|
  {
    if n == 0 then map[] else IdMap(src, next, n - 1)[src[n - 1].resultId := next + n - 1]
  }

  lemma {:induction false} IdMapFacts(src: Trace, next: nat, n: nat, i: nat)
    requires i < n <= |src|
    ensures src[i].resultId in IdMap(src, next, n)
    ensures var x := IdMap(src, next, n)[src[i].resultId];
            next <= x < next + n && src[x - next].resultId == src[i].resultId
  {
    if i < n - 1 { IdMapFacts(src, next, n - 1, i); }
  }

  function NewId(idMap: map<nat, nat>, id: nat): nat { if id in idMap then idMap[id] else 0 }

  function RemapInstr(d: Instruction, idMap: map<nat, nat>): Instruction {
    Instruction(d.op, RemapValues(d.operands, idMap), NewId(idMap, d.resultId), d.annotations)
  }

  function Renumbered(src: Trace, next: nat): (r: Trace)
    ensures |r| == |src|
  {
    var m := IdMap(src, next, |src|);
    seq(|src|, i requires 0 <= i < |src| => RemapInstr(src[i], m))
  }

  method AppendRenumbered(dst: Trace, src: Trace, nextId: nat) returns (out: Trace, idMap: map<nat, nat>, next: nat)
    ensures out == dst + Renumbered(src, nextId)
    ensures idMap == IdMap(src, nextId, |src|)
    ensures next == nextId + |src|
  {
    hide RemapValue, RemapValues;
    idMap, next := map[], nextId;
    for i := 0 to |src|
      invariant idMap == IdMap(src, nextId, i) && next == nextId + i
    {
      idMap := idMap[src[i].resultId := next];
      next := next + 1;
    }
    out := dst;
    for i := 0 to |src|
      invariant out == dst + Renumbered(src, nextId)[..i]
    {
      hide IdMap;
      IdMapFacts(src, nextId, |src|, i);
      var ops := RemapOperands(src[i].operands, idMap);
      out := out + [Instruction(src[i].op, ops, idMap[src[i].resultId], src[i].annotations)];
    }
  }

  method RemapOperands(vs: seq<Value>, idMap: map<nat, nat>) returns (ops: seq<Value>)
    ensures ops == RemapValues(vs, idMap)
  {
    hide RemapValue;
    ops := vs;
    for k := 0 to |ops|
      invariant |ops| == |vs|
      invariant forall j :: 0 <= j < |ops| ==> ops[j] == if j < k then RemapValue(vs[j], idMap) else vs[j]
    {
      ops := ops[k := RemapValue(ops[k], idMap)];
    }
  }

  // ----- what renumbering keeps -----

  ghost predicate UniqueIds(t: Trace) { forall i, j :: 0 <= i < j < |t| ==> t[i].resultId != t[j].resultId }

  /** `v` refers to one of the first `n` results, if to any. */
  ghost predicate RefersWithin(t: Trace, n: nat, v: Value)
    requires n <= |t|
  {
    v.InstrRef? ==> exists j :: 0 <= j < n && t[j].resultId == v.id
  }

  /** Every reference is to an earlier result of the same segment. */
  ghost predicate Closed(t: Trace) {
    forall i, k :: 0 <= i < |t| && 0 <= k < |t[i].operands| ==> RefersWithin(t, i, t[i].operands[k])
  }

  /** The new ids are consecutive, fresh and in order. */
  lemma NewIds(src: Trace, next: nat, i: nat)
    requires UniqueIds(src) && i < |src|
    ensures src[i].resultId in IdMap(src, next, |src|) && IdMap(src, next, |src|)[src[i].resultId] == next + i
    ensures Renumbered(src, next)[i].resultId == next + i
  {
    hide IdMap;
    IdMapFacts(src, next, |src|, i);
  }

  /** Two states agree up to the renaming of the first `n` results. */
  ghost predicate Alpha(src: Trace, next: nat, n: nat, s: State, t: State) {
    && n <= |src|
    && s.mem == t.mem && s.events == t.events && s.calls == t.calls
    && forall j :: 0 <= j < n ==>
         src[j].resultId in s.vals && next + j in t.vals && t.vals[next + j] == s.vals[src[j].resultId]
  }

  /** A remapped value denotes what the original denotes. */
  lemma RemapMeans(src: Trace, next: nat, n: nat, v: Value, env: Env, s: State, t: State)
    requires UniqueIds(src) && Alpha(src, next, n, s, t) && RefersWithin(src, n, v)
    ensures Eval(RemapValue(v, IdMap(src, next, |src|)), env, t.vals) == Eval(v, env, s.vals)
  {
    hide IdMap;
    if v.InstrRef? {
      var j :| 0 <= j < n && src[j].resultId == v.id;
      NewIds(src, next, j);
    }
  }

  lemma StepAlpha(src: Trace, next: nat, n: nat, env: Env, s: State, t: State)
    requires UniqueIds(src) && Closed(src) && n < |src| && Alpha(src, next, n, s, t)
    ensures Alpha(src, next, n + 1, Step(src[n], env, s), Step(Renumbered(src, next)[n], env, t))
  {
    hide Step, IdMap, RemapValue;
    var d, x := src[n], Renumbered(src, next)[n];
    NewIds(src, next, n);
    forall k | 0 <= k < |d.operands| ensures Eval(x.operands[k], env, t.vals) == Eval(d.operands[k], env, s.vals) {
      RemapMeans(src, next, n, d.operands[k], env, s, t);
    }
    assert EvalAll(x.operands, env, t.vals) == EvalAll(d.operands, env, s.vals);
    var v := StepsAlike(d, x, env, s, t);
    var s', t' := Step(d, env, s), Step(x, env, t);
    assert x.resultId == next + n;
    forall j | 0 <= j < n + 1
      ensures src[j].resultId in s'.vals && next + j in t'.vals && t'.vals[next + j] == s'.vals[src[j].resultId]
    {
      if j < n { assert src[j].resultId != d.resultId; }
    }
  }

  /** Instructions that differ only in names do the same. */
  lemma StepsAlike(d: Instruction, x: Instruction, env: Env, s: State, t: State) returns (v: Word)
    requires x.op == d.op && x.annotations == d.annotations
    requires EvalAll(x.operands, env, t.vals) == EvalAll(d.operands, env, s.vals)
    requires s.mem == t.mem && s.events == t.events && s.calls == t.calls
    ensures var s', t' := Step(d, env, s), Step(x, env, t);
            && s'.mem == t'.mem && s'.events == t'.events && s'.calls == t'.calls
            && s'.vals == s.vals[d.resultId := v] && t'.vals == t.vals[x.resultId := v]
  {
    hide Execute;
    v := Execute(d.op, Private(d), EvalAll(d.operands, env, s.vals), env, s.mem, s.calls).value;
  }

  /** Renumbering is alpha-equivalence: whatever results the two runs start from, every value,
      the memory, the events and the calls stay the same up to the new names. */
  lemma {:induction false} AlphaEquivalent(src: Trace, next: nat, n: nat, env: Env, s: State, t: State)
    requires UniqueIds(src) && Closed(src) && n <= |src|
    requires s.mem == t.mem && s.events == t.events && s.calls == t.calls
    ensures Alpha(src, next, n, RunTo(src, n, env, s), RunTo(Renumbered(src, next), n, env, t))
  {
    hide Step, Alpha, Renumbered, UniqueIds, Closed;
    if n == 0 {
      assert Alpha(src, next, 0, s, t) by { AlphaStart(src, next, s, t); }
    } else {
      AlphaEquivalent(src, next, n - 1, env, s, t);
      StepAlpha(src, next, n - 1, env, RunTo(src, n - 1, env, s), RunTo(Renumbered(src, next), n - 1, env, t));
    }
  }

  lemma AlphaStart(src: Trace, next: nat, s: State, t: State)
    requires s.mem == t.mem && s.events == t.events && s.calls == t.calls
    ensures Alpha(src, next, 0, s, t)
  {}

  /** A renumbered condition has, in its own block, the value of the original condition. */
  lemma ConditionKept(src: Trace, next: nat, v: Value, env: Env, s: State, t: State)
    requires UniqueIds(src) && Closed(src) && RefersWithin(src, |src|, v)
    requires s.mem == t.mem && s.events == t.events && s.calls == t.calls
    ensures Eval(RemapValue(v, IdMap(src, next, |src|)), env, Run(Renumbered(src, next), env, t).vals)
         == Eval(v, env, Run(src, env, s).vals)
    ensures Run(Renumbered(src, next), env, t).mem == Run(src, env, s).mem
    ensures Run(Renumbered(src, next), env, t).events == Run(src, env, s).events
  {
    hide RunTo, IdMap, Renumbered, UniqueIds, Closed, RefersWithin;
    AlphaEquivalent(src, next, |src|, env, s, t);
    RemapMeans(src, next, |src|, v, env, Run(src, env, s), Run(Renumbered(src, next), env, t));
  }
}
