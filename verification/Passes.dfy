/** The optimizer passes as the in-place loops of the source, each proved against its
    specification function, and the two convergence drivers. */
module Passes {
  import opened Collections
  import opened Ir
  import opened Arithmetic
  import opened Machine
  import opened References
  import opened Rewrites
  import opened Removal
  import opened Convergence
  import DeadCode
  import DeadStore

  // ----- helpers -----

  method BuildInstrMap(instrs: Trace) returns (im: map<nat, nat>)
    ensures im == IndexMap(instrs)
  {
    im := map[];
    for i := 0 to |instrs|
      invariant im == IndexMap(instrs[..i])
    {
      assert instrs[..i + 1][..i] == instrs[..i];
      im := im[instrs[i].resultId := i];
    }
    assert instrs[..|instrs|] == instrs;
  }

  /** Follows references through `im` until a value, an unknown id or a computing instruction. */
  method ResolveOperand(operand: Value, im: map<nat, nat>, instrs: Trace) returns (cur: Value)
    requires Ordered(instrs) && im == IndexMap(instrs)
    ensures cur == Resolve(instrs, operand)
  {
    cur := operand;
    while true
      invariant Resolve(instrs, cur) == Resolve(instrs, operand)
      decreases if cur.InstrRef? then cur.id + 1 else 0
    {
      if !cur.InstrRef? || cur.id !in im { return; }
      var def := instrs[im[cur.id]];
      if (def.op == CONST || def.op == CONST_PTR) && |def.operands| > 0 {
        if def.operands[0].Const? { return def.operands[0]; }
        return;
      }
      if def.op == PASSTHROUGH && |def.operands| == 1 {
        cur := def.operands[0];
        continue;
      }
      return;
    }
  }

  /** Whether a pass has changed anything so far is decided position by position. */
  lemma ChangedStep(p: LocalPass, h: Host, g: Trace, i: nat)
    requires WellFormed(g) && i < |g|
    ensures ApplyTo(p, h, g, i)[i] == g[i]
    ensures ApplyTo(p, h, g, i + 1) == ApplyTo(p, h, g, i)[i := RewriteAt(p, h, ApplyTo(p, h, g, i), i)]
    ensures ApplyTo(p, h, g, i + 1) != g <==>
              ApplyTo(p, h, g, i) != g || RewriteAt(p, h, ApplyTo(p, h, g, i), i) != g[i]
  {
    hide RewriteAt, WellFormed;
    ApplyBefore(p, h, g, i, i);
    var r, t := ApplyTo(p, h, g, i), ApplyTo(p, h, g, i + 1);
    if t == g {
      assert t[i] == g[i];
      forall k | 0 <= k < |g| ensures r[k] == g[k] {
        if k != i { assert t[k] == r[k]; }
      }
    }
  }

  /** Storing the rewritten instruction at `i` completes the visit of position `i`. */
  lemma VisitDone(p: LocalPass, h: Host, g: Trace, i: nat, r: Trace, x: Instruction, changed: bool)
    requires WellFormed(g) && i < |g| && r == ApplyTo(p, h, g, i) && x == RewriteAt(p, h, r, i)
    requires changed <==> r != g
    ensures r[i] == g[i] && r[i := x] == ApplyTo(p, h, g, i + 1)
    ensures changed || x != r[i] <==> r[i := x] != g
    ensures IndexMap(r[i := x]) == IndexMap(r)
    ensures i + 1 == |g| ==> r[i := x] == Apply(p, h, g)
  {
    hide RewriteAt, ApplyTo;
    ChangedStep(p, h, g, i);
    RewriteWellFormed(p, h, r, i);
    IndexMapSameIds(r, r[i := x]);
  }

  lemma VisitNone(p: LocalPass, h: Host, g: Trace)
    requires WellFormed(g)
    ensures ApplyTo(p, h, g, 0) == g
    ensures |g| == 0 ==> Apply(p, h, g) == g
  {}

  // ----- const_promote -----

  method ConstPromotePass(f: Function, ghost h: Host) returns (changed: bool)
    requires WellFormed(f.instrs)
    modifies f`instrs
    ensures f.instrs == Apply(ConstPromote, h, old(f.instrs))
    ensures changed <==> f.instrs != old(f.instrs)
  {
    hide RewriteAt, ApplyTo, Apply, IndexMap, WellFormed;
    ghost var g := f.instrs;
    var im := BuildInstrMap(f.instrs);
    changed := false;
    VisitNone(ConstPromote, h, g);
    for i := 0 to |f.instrs|
      invariant f.instrs == ApplyTo(ConstPromote, h, g, i)
      invariant im == IndexMap(f.instrs)
      invariant changed <==> f.instrs != g
      invariant i == |g| ==> f.instrs == Apply(ConstPromote, h, g)
    {
      ghost var r := f.instrs;
      var touched := PromoteInPlace(f, im, i, h);
      VisitDone(ConstPromote, h, g, i, r, f.instrs[i], changed);
      changed := changed || touched;
    }
  }

  /** Promotes the operands of instruction `i`, one by one, in place. */
  method PromoteInPlace(f: Function, im: map<nat, nat>, i: nat, ghost h: Host) returns (touched: bool)
    requires WellFormed(f.instrs) && i < |f.instrs| && im == IndexMap(f.instrs)
    modifies f`instrs
    ensures f.instrs == old(f.instrs)[i := RewriteAt(ConstPromote, h, old(f.instrs), i)]
    ensures touched <==> f.instrs[i] != old(f.instrs)[i]
  {
    hide Ordered, IndexMap, PartlyPromoted;
    ghost var r := f.instrs;
    ghost var done, vs := PromoteOperands(r, r[i].operands), r[i].operands;
    var n := |f.instrs[i].operands|;
    touched := false;
    PartlyPromotedEnds(r, i, h);
    for k := 0 to n
      invariant f.instrs == r[i := PartlyPromoted(r, i, k)]
      invariant touched <==> done[..k] != vs[..k]
    {
      PartlyPromotedNext(done, vs, k);
      var replaced := PromoteOne(f, im, i, k, r);
      touched := touched || replaced;
    }
    assert done[..n] == done && vs[..n] == vs;
  }

  method PromoteOne(f: Function, im: map<nat, nat>, i: nat, k: nat, ghost r: Trace) returns (replaced: bool)
    requires WellFormed(r) && i < |r| && k < |r[i].operands| && im == IndexMap(r)
    requires f.instrs == r[i := PartlyPromoted(r, i, k)]
    modifies f`instrs
    ensures f.instrs == r[i := PartlyPromoted(r, i, k + 1)]
    ensures replaced <==> PromoteOperands(r, r[i].operands)[k] != r[i].operands[k]
  {
    hide Ordered, IndexMap, Resolve;
    PartlyPromotedFacts(r, i, k);
    PartlyPromotedNext(PromoteOperands(r, r[i].operands), r[i].operands, k);
    var op := f.instrs[i].operands[k];
    replaced := false;
    if op.InstrRef? {
      var resolved := ResolveOperand(op, im, f.instrs);
      if resolved != op {
        f.instrs := f.instrs[i := f.instrs[i].(operands := f.instrs[i].operands[k := resolved])];
        replaced := true;
      }
    }
  }

  lemma PartlyPromotedEnds(r: Trace, i: nat, h: Host)
    requires WellFormed(r) && i < |r|
    ensures r[i := PartlyPromoted(r, i, 0)] == r
    ensures PartlyPromoted(r, i, |r[i].operands|) == RewriteAt(ConstPromote, h, r, i)
    ensures RewriteAt(ConstPromote, h, r, i) == r[i] <==> PromoteOperands(r, r[i].operands) == r[i].operands
  {
    hide Resolve, Ordered;
    var done, vs := PromoteOperands(r, r[i].operands), r[i].operands;
    assert done[..0] + vs[0..] == vs;
    assert done[..|vs|] + vs[|vs|..] == done;
  }

  ghost function PartlyPromoted(r: Trace, i: nat, k: nat): Instruction
    requires WellFormed(r) && i < |r| && k <= |r[i].operands|
  {
    r[i].(operands := PromoteOperands(r, r[i].operands)[..k] + r[i].operands[k..])
  }

  /** While the operands of one instruction are being promoted, resolution does not change. */
  lemma PartlyPromotedFacts(r: Trace, i: nat, k: nat)
    requires WellFormed(r) && i < |r| && k < |r[i].operands|
    ensures var t := r[i := PartlyPromoted(r, i, k)];
            && Ordered(t) && IndexMap(t) == IndexMap(r)
            && t[i].operands[k] == r[i].operands[k]
            && Resolve(t, r[i].operands[k]) == Resolve(r, r[i].operands[k])
            && (!r[i].operands[k].InstrRef? ==> Resolve(r, r[i].operands[k]) == r[i].operands[k])
  {
    hide Resolve, IndexMap;
    var x := PartlyPromoted(r, i, k);
    forall j | 0 <= j < |x.operands| ensures Below(x.operands[j], x.resultId) {
      ResolveBelow(r, r[i].operands[j], r[i].resultId);
    }
    assert Ordered(r[i := x]);
    IndexMapSameIds(r, r[i := x]);
    ResolveEarlier(r, i, x, r[i].operands[k]);
    assert !r[i].operands[k].InstrRef? ==> Resolve(r, r[i].operands[k]) == r[i].operands[k] by {
      if !r[i].operands[k].InstrRef? { ResolveValue(r, r[i].operands[k]); }
    }
  }

  lemma ResolveValue(r: Trace, v: Value)
    requires Ordered(r) && !v.InstrRef?
    ensures Resolve(r, v) == v
  {}

  lemma PartlyPromotedNext<T>(done: seq<T>, vs: seq<T>, k: nat)
    requires k < |vs| == |done|
    ensures (done[..k] + vs[k..])[k := done[k]] == done[..k + 1] + vs[k + 1..]
    ensures done[..k + 1] != vs[..k + 1] <==> done[..k] != vs[..k] || done[k] != vs[k]
    ensures done[k] == vs[k] ==> done[..k] + vs[k..] == done[..k + 1] + vs[k + 1..]
  {
    assert done[..k + 1] == done[..k] + [done[k]] && vs[..k + 1] == vs[..k] + [vs[k]];
  }

  // ----- const_fold -----

  method ConstFoldPass(f: Function, h: Host) returns (changed: bool)
    requires WellFormed(f.instrs)
    modifies f`instrs
    ensures f.instrs == Apply(ConstFold, h, old(f.instrs))
    ensures changed <==> f.instrs != old(f.instrs)
  {
    hide RewriteAt, ApplyTo, Apply, IndexMap, WellFormed;
    ghost var g := f.instrs;
    changed := false;
    VisitNone(ConstFold, h, g);
    for i := 0 to |f.instrs|
      invariant f.instrs == ApplyTo(ConstFold, h, g, i)
      invariant changed <==> f.instrs != g
      invariant i == |g| ==> f.instrs == Apply(ConstFold, h, g)
    {
      var x, folded := FoldOne(f.instrs, i, h);
      VisitDone(ConstFold, h, g, i, f.instrs, x, changed);
      f.instrs := f.instrs[i := x];
      changed := changed || folded;
    }
  }

  /** The body of the loop: what instruction `i` becomes, and whether that is a change. */
  method FoldOne(instrs: Trace, i: nat, h: Host) returns (x: Instruction, folded: bool)
    requires WellFormed(instrs) && i < |instrs|
    ensures x == RewriteAt(ConstFold, h, instrs, i)
    ensures folded <==> x != instrs[i]
  {
    hide FoldBinary, FoldUnary, OpName;
    var instr := instrs[i];
    if FoldableBinary(instr.op) && |instr.operands| == 2 {
      var a, b := instr.operands[0], instr.operands[1];
      if a.Const? && b.Const? {
        var c := FoldBinary(h, instr.op, a.value, b.value);
        if c.Some? {
          return FoldedTo(instr, CONST, Const(c.value, Max(a.bits, b.bits)), OpName(instr.op)), true;
        }
      }
    } else if FoldableUnary(instr.op) && |instr.operands| == 1 {
      var a := instr.operands[0];
      if a.Const? {
        var c := FoldUnary(instr.op, a.value);
        if c.Some? {
          return FoldedTo(instr, CONST, Const(c.value, a.bits), OpName(instr.op)), true;
        }
      }
    } else if instr.op == SELECT && |instr.operands| == 3 {
      var c := instr.operands[0];
      if c.Const? {
        var chosen := if c.value != 0 then instr.operands[1] else instr.operands[2];
        return FoldedTo(instr, PASSTHROUGH, chosen, "SELECT"), true;
      }
    }
    return instr, false;
  }

  // ----- mem_forward -----

  /** The two store maps hold the last value stored under each constant and reference key. */
  ghost predicate StoreMaps(consts: map<Word, Value>, refs: map<nat, Value>, r: Trace, i: nat)
    requires i <= |r|
  {
    && (forall c :: Get(consts, c) == LastStore(r, i, KConst(c)))
    && (forall id :: Get(refs, id) == LastStore(r, i, KRef(id)))
  }

  method MemForwardPass(f: Function, ghost h: Host) returns (changed: bool)
    requires WellFormed(f.instrs)
    modifies f`instrs
    ensures f.instrs == Apply(MemForward, h, old(f.instrs))
    ensures changed <==> f.instrs != old(f.instrs)
  {
    hide RewriteAt, ApplyTo, Apply, IndexMap, WellFormed;
    ghost var g := f.instrs;
    changed := false;
    var lastStoreConst: map<Word, Value> := map[];
    var lastStoreRef: map<nat, Value> := map[];
    VisitNone(MemForward, h, g);
    for i := 0 to |f.instrs|
      invariant f.instrs == ApplyTo(MemForward, h, g, i)
      invariant changed <==> f.instrs != g
      invariant StoreMaps(lastStoreConst, lastStoreRef, f.instrs, i)
      invariant i == |g| ==> f.instrs == Apply(MemForward, h, g)
    {
      hide StoreMaps;
      ghost var r := f.instrs;
      var x, forwarded := ForwardOne(f.instrs, i, lastStoreConst, lastStoreRef, h);
      VisitDone(MemForward, h, g, i, f.instrs, x, changed);
      lastStoreConst, lastStoreRef := RecordStore(r, i, x, lastStoreConst, lastStoreRef);
      f.instrs := f.instrs[i := x];
      changed := changed || forwarded;
    }
  }

  method ForwardOne(instrs: Trace, i: nat, consts: map<Word, Value>, refs: map<nat, Value>, ghost h: Host)
    returns (x: Instruction, forwarded: bool)
    requires WellFormed(instrs) && i < |instrs| && StoreMaps(consts, refs, instrs, i)
    ensures x == RewriteAt(MemForward, h, instrs, i)
    ensures forwarded <==> x != instrs[i]
    ensures x.op == STORE ==> x == instrs[i]
  {
    hide LastStore;
    var instr := instrs[i];
    if instr.op == LOAD && |instr.operands| == 1 {
      var addr := instr.operands[0];
      var found := None;
      if addr.Const? {
        found := Get(consts, addr.value);
      } else if addr.InstrRef? {
        found := Get(refs, addr.id);
      }
      if found.Some? {
        var op := if found.value.Const? then CONST else PASSTHROUGH;
        return Instruction(op, [found.value], instr.resultId, instr.annotations["forwarded" := "1"]), true;
      }
    }
    return instr, false;
  }

  method RecordStore(ghost r: Trace, ghost i: nat, x: Instruction, consts: map<Word, Value>, refs: map<nat, Value>)
    returns (consts': map<Word, Value>, refs': map<nat, Value>)
    requires i < |r| && StoreMaps(consts, refs, r, i) && (x.op == STORE ==> x == r[i])
    ensures StoreMaps(consts', refs', r[i := x], i + 1)
  {
    consts', refs' := consts, refs;
    if x.op == STORE && |x.operands| == 2 {
      var addr := x.operands[0];
      if addr.Const? {
        consts' := consts[addr.value := x.operands[1]];
      } else if addr.InstrRef? {
        refs' := refs[addr.id := x.operands[1]];
      }
    }
    forall key ensures LastStore(r[i := x], i, key) == LastStore(r, i, key) { LastStorePrefix(r, r[i := x], i, key); }
  }

  lemma {:induction false} LastStorePrefix(r: Trace, t: Trace, i: nat, key: Key)
    requires i <= |r| == |t| && forall k :: 0 <= k < i ==> r[k] == t[k]
    ensures LastStore(t, i, key) == LastStore(r, i, key)
  {
    if i > 0 { LastStorePrefix(r, t, i - 1, key); }
  }

  // ----- insn_combine -----

  method InsnCombinePass(f: Function, ghost h: Host) returns (changed: bool)
    requires WellFormed(f.instrs)
    modifies f`instrs
    ensures f.instrs == Apply(InsnCombine, h, old(f.instrs))
    ensures changed <==> f.instrs != old(f.instrs)
  {
    hide RewriteAt, ApplyTo, Apply, IndexMap, WellFormed;
    ghost var g := f.instrs;
    var im := BuildInstrMap(f.instrs);
    changed := false;
    VisitNone(InsnCombine, h, g);
    for i := 0 to |f.instrs|
      invariant f.instrs == ApplyTo(InsnCombine, h, g, i)
      invariant im == IndexMap(f.instrs)
      invariant changed <==> f.instrs != g
      invariant i == |g| ==> f.instrs == Apply(InsnCombine, h, g)
    {
      var x, combined := CombineOne(f.instrs, im, i, h);
      VisitDone(InsnCombine, h, g, i, f.instrs, x, changed);
      f.instrs := f.instrs[i := x];
      changed := changed || combined;
    }
  }

  method CombineOne(instrs: Trace, im: map<nat, nat>, i: nat, ghost h: Host) returns (x: Instruction, combined: bool)
    requires WellFormed(instrs) && im == IndexMap(instrs) && i < |instrs|
    ensures x == RewriteAt(InsnCombine, h, instrs, i)
    ensures combined <==> x != instrs[i]
  {
    hide Ordered, IndexMap, Resolve, AndXor;
    var instr := instrs[i];
    if |instr.operands| == 2 {
      var a, b := instr.operands[0], instr.operands[1];
      var rb := ResolveOperand(b, im, instrs);
      if (instr.op == XOR || instr.op == SUB) && a == b {
        return Zero(instr), true;
      }
      if rb.Const? && rb.value == 0 && (instr.op == AND || instr.op == MUL) {
        return Zero(instr), true;
      }
      if rb.Const? && rb.value == ALL_ONES && instr.op == AND {
        return CopyOf(instr, a), true;
      }
      if rb.Const? && rb.value == 1 && instr.op == MUL {
        return CopyOf(instr, a), true;
      }
      if rb.Const? && rb.value == 0 && ZeroIsRightIdentity(instr.op) {
        return CopyOf(instr, a), true;
      }
    }
    if |instr.operands| == 1 {
      var ref := instr.operands[0];
      if ref.InstrRef? && ref.id in im {
        var inner := instrs[im[ref.id]];
        if inner.op == instr.op && |inner.operands| == 1 && (instr.op == NOT || instr.op == NEG || instr.op == BSWAP) {
          return CopyOf(instr, inner.operands[0]), true;
        }
      }
    }
    if instr.op == OR && |instr.operands| == 2 {
      x, combined := CombineOr(instrs, im, instr);
      return;
    }
    return instr, false;
  }

  /** The two loops over the operand orders of an OR. */
  method CombineOr(instrs: Trace, im: map<nat, nat>, instr: Instruction) returns (x: Instruction, combined: bool)
    requires im == IndexMap(instrs) && instr.op == OR && |instr.operands| == 2
    ensures var a, b := instr.operands[0], instr.operands[1];
            var tag := instr.annotations["mba_simplified" := "and_xor_or"];
            x == if AndXor(instrs, a, b) then CopyOf(instr, b).(annotations := tag)
                 else if AndXor(instrs, b, a) then CopyOf(instr, a).(annotations := tag)
                 else if a == b then CopyOf(instr, b) else instr
    ensures combined <==> x != instr
  {
    hide AndXor, IndexMap;
    for swap := 0 to 2
      invariant swap > 0 ==> !AndXor(instrs, instr.operands[0], instr.operands[1])
      invariant swap > 1 ==> !AndXor(instrs, instr.operands[1], instr.operands[0])
    {
      var orA := if swap == 1 then instr.operands[1] else instr.operands[0];
      var orB := if swap == 1 then instr.operands[0] else instr.operands[1];
      var matched := MatchesAndXor(instrs, im, orA, orB);
      if matched {
        return CopyOf(instr, orB).(annotations := instr.annotations["mba_simplified" := "and_xor_or"]), true;
      }
    }
    for swap := 0 to 2
      invariant swap > 0 ==> instr.operands[0] != instr.operands[1]
    {
      var orA := if swap == 1 then instr.operands[1] else instr.operands[0];
      var orB := if swap == 1 then instr.operands[0] else instr.operands[1];
      if orA == orB { return CopyOf(instr, orB), true; }
    }
    return instr, false;
  }

  /** Looks up the definition of `id`. */
  method Find(instrs: Trace, im: map<nat, nat>, id: nat) returns (d: Option<Instruction>)
    requires im == IndexMap(instrs)
    ensures d == Def(instrs, id)
  {
    if id in im { d := Some(instrs[im[id]]); } else { d := None; }
  }

  method MatchesAndXor(instrs: Trace, im: map<nat, nat>, orA: Value, orB: Value) returns (found: bool)
    requires im == IndexMap(instrs)
    ensures found == AndXor(instrs, orA, orB)
  {
    hide Def, IndexMap;
    if !orA.InstrRef? { return false; }
    var def := Find(instrs, im, orA.id);
    if def.None? || def.value.op != XOR || |def.value.operands| != 2 { return false; }
    var x := def.value;
    var xorB := -1;
    if x.operands[1] == orB { xorB := 1; } else if x.operands[0] == orB { xorB := 0; }
    if xorB < 0 { return false; }
    var other := x.operands[1 - xorB];
    if !other.InstrRef? { return false; }
    def := Find(instrs, im, other.id);
    if def.None? || def.value.op != AND || |def.value.operands| != 2 { return false; }
    return def.value.operands[0] == orB || def.value.operands[1] == orB;
  }

  // ----- branch_fold -----

  method BranchFoldPass(f: Function, ghost h: Host) returns (changed: bool)
    requires WellFormed(f.instrs)
    modifies f`instrs
    ensures f.instrs == Apply(BranchFold, h, old(f.instrs))
    ensures changed <==> f.instrs != old(f.instrs)
  {
    hide RewriteAt, ApplyTo, Apply, IndexMap, WellFormed;
    ghost var g := f.instrs;
    changed := false;
    VisitNone(BranchFold, h, g);
    for i := 0 to |f.instrs|
      invariant f.instrs == ApplyTo(BranchFold, h, g, i)
      invariant changed <==> f.instrs != g
      invariant i == |g| ==> f.instrs == Apply(BranchFold, h, g)
    {
      var x, folded := FoldBranchOne(f.instrs, i, h);
      VisitDone(BranchFold, h, g, i, f.instrs, x, changed);
      f.instrs := f.instrs[i := x];
      changed := changed || folded;
    }
  }

  method FoldBranchOne(instrs: Trace, i: nat, ghost h: Host) returns (x: Instruction, folded: bool)
    requires WellFormed(instrs) && i < |instrs|
    ensures x == RewriteAt(BranchFold, h, instrs, i)
    ensures folded <==> x != instrs[i]
  {
    var instr := instrs[i];
    if instr.op == CJMP && |instr.operands| > 0 {
      var c := instr.operands[0];
      if c.Const? {
        return instr.(op := if c.value != 0 then JMP else NOP, operands := instr.operands[1..]), true;
      }
    }
    return instr, false;
  }

  // ----- removal -----

  /** Moves the kept instructions into a new vector. */
  method KeepFlagged(f: Function, keep: seq<bool>)
    requires |keep| == |f.instrs|
    modifies f`instrs
    ensures f.instrs == Sift(old(f.instrs), keep)
  {
    var g := f.instrs;
    var kept: Trace := [];
    for i := 0 to |g|
      invariant kept == SiftTo(g, keep, i)
    {
      SiftStep(g, keep, i);
      if keep[i] { kept := kept + [g[i]]; }
    }
    SiftWhole(g, keep);
    f.instrs := kept;
  }

  method DeadStoreElimPass(f: Function) returns (anyDrop: bool)
    modifies f`instrs
    ensures f.instrs == DeadStore.DropStores(old(f.instrs))
    ensures anyDrop <==> f.instrs != old(f.instrs)
  {
    hide Sift;
    var keep := FlagStores(f.instrs);
    anyDrop := exists i :: 0 <= i < |keep| && !keep[i];
    SiftLength(f.instrs, keep);
    if anyDrop { KeepFlagged(f, keep); }
  }

  /** The backward scan with the set of live addresses. */
  method FlagStores(g: Trace) returns (flags: seq<bool>)
    ensures flags == DeadStore.StoreKeep(g)
  {
    var live: set<Word> := {};
    var keep := new bool[|g|](_ => true);
    var i := |g|;
    while i > 0
      invariant 0 <= i <= |g|
      invariant live == DeadStore.LiveFrom(g, i)
      invariant forall k :: 0 <= k < |g| ==> keep[k] == (k < i || DeadStore.StoreKeep(g)[k])
    {
      i := i - 1;
      var instr := g[i];
      if instr.op == LOAD && Private(instr) && |instr.operands| > 0 {
        if instr.operands[0].Const? { live := live + {instr.operands[0].value}; }
      } else if instr.op == STORE && Private(instr) && |instr.operands| >= 2 {
        if instr.operands[0].Const? {
          if instr.operands[0].value in live {
            live := live - {instr.operands[0].value};
          } else {
            keep[i] := false;
          }
        }
      }
    }
    flags := keep[..];
  }

  method DeadDepElimPass(f: Function) returns (changed: bool)
    modifies f`instrs
    ensures f.instrs == DeadCode.DropLayer(old(f.instrs))
    ensures changed <==> f.instrs != old(f.instrs)
  {
    var g := f.instrs;
    var referenced: set<nat> := {};
    for i := 0 to |g|
      invariant referenced == DeadCode.Referenced(g, i)
    {
      var vs := g[i].operands;
      for k := 0 to |vs|
        invariant referenced == DeadCode.Referenced(g, i) + set j | 0 <= j < k && vs[j].InstrRef? :: vs[j].id
      {
        if vs[k].InstrRef? { referenced := referenced + {vs[k].id}; }
      }
    }
    changed := false;
    var keep: seq<bool> := [];
    for i := 0 to |g|
      invariant keep == DeadCode.LayerKeep(g)[..i]
      invariant changed <==> exists k :: 0 <= k < i && !keep[k]
    {
      assert DeadCode.LayerKeep(g)[..i + 1] == DeadCode.LayerKeep(g)[..i] + [DeadCode.LayerKeep(g)[i]];
      if SideEffectful(g[i].op) || g[i].resultId in referenced {
        keep := keep + [true];
      } else {
        keep := keep + [false];
        changed := true;
      }
    }
    assert keep == DeadCode.LayerKeep(g);
    SiftLength(g, keep);
    if changed { KeepFlagged(f, keep); }
  }

  /** What the worklist loop of the reachability pass keeps true. */
  ghost predicate Reaching(g: Trace, reachable: set<nat>, worklist: seq<nat>) {
    && (forall id :: id in worklist ==> id in reachable)
    && (forall t :: DeadCode.Closed(g, t) ==> reachable <= t)
    && (forall id :: id in reachable && id !in worklist && Def(g, id).Some? ==>
          DeadCode.Refs(Def(g, id).value) <= reachable)
    && reachable <= KnownIds(g)
  }

  /** `dead_dep_analysis_pass`: a worklist from the side effects. The register set that the
      source takes as a second argument is not read by it. */
  method DeadDepAnalysisPass(f: Function) returns (changed: bool, ghost reach: set<nat>)
    requires Ordered(f.instrs)
    modifies f`instrs
    ensures DeadCode.Reachable(old(f.instrs), reach)
    ensures f.instrs == DeadCode.DropUnreached(old(f.instrs), reach)
    ensures changed <==> f.instrs != old(f.instrs)
  {
    hide DeadCode.Reachable, DeadCode.Closed, Ordered, Sift;
    var g := f.instrs;
    var reachable := ReachFromEffects(g);
    reach := reachable;
    changed := false;
    var keep: seq<bool> := [];
    for i := 0 to |g|
      invariant keep == DeadCode.ReachKeep(g, reachable)[..i]
      invariant changed <==> exists k :: 0 <= k < i && !keep[k]
    {
      assert DeadCode.ReachKeep(g, reachable)[..i + 1]
          == DeadCode.ReachKeep(g, reachable)[..i] + [DeadCode.ReachKeep(g, reachable)[i]];
      if SideEffectful(g[i].op) || g[i].resultId in reachable {
        keep := keep + [true];
      } else {
        keep := keep + [false];
        changed := true;
      }
    }
    assert keep == DeadCode.ReachKeep(g, reachable);
    SiftLength(g, keep);
    if changed { KeepFlagged(f, keep); }
  }

  method ReachFromEffects(g: Trace) returns (reachable: set<nat>)
    requires Ordered(g)
    ensures DeadCode.Reachable(g, reachable)
  {
    hide IndexMap, Def, Ordered;
    var im := BuildInstrMap(g);
    reachable := {};
    var worklist: seq<nat> := [];
    for i := 0 to |g|
      invariant forall id :: id in reachable <==> id in worklist
      invariant forall k :: 0 <= k < i && SideEffectful(g[k].op) ==> g[k].resultId in reachable
      invariant Reaching(g, reachable, worklist)
    {
      if SideEffectful(g[i].op) {
        reachable := reachable + {g[i].resultId};
        worklist := worklist + [g[i].resultId];
      }
    }
    ghost var seeds := reachable;
    while |worklist| > 0
      invariant seeds <= reachable && Reaching(g, reachable, worklist)
      decreases KnownIds(g) - reachable, |worklist|
    {
      var id := worklist[|worklist| - 1];
      ghost var was := reachable;
      assert worklist == worklist[..|worklist| - 1] + [id];
      worklist := worklist[..|worklist| - 1];
      var def := Find(g, im, id);
      if def.Some? {
        reachable, worklist := ReachOperands(g, id, def.value, reachable, worklist);
      }
    }
    assert DeadCode.Closed(g, reachable);
  }

  /** Adds the references of one reachable definition. */
  method ReachOperands(g: Trace, id: nat, def: Instruction, reachable: set<nat>, worklist: seq<nat>)
    returns (reachable': set<nat>, worklist': seq<nat>)
    requires Def(g, id) == Some(def) && id in reachable && Reaching(g, reachable, worklist + [id])
    ensures Reaching(g, reachable', worklist') && reachable <= reachable'
    ensures reachable' == reachable ==> worklist' == worklist
  {
    hide IndexMap, Def, KnownIds, DeadCode.Closed;
    reachable', worklist' := reachable, worklist;
    assert forall x :: x in worklist + [id] <==> x in worklist || x == id;
    for k := 0 to |def.operands|
      invariant reachable <= reachable' && (forall x :: x in worklist' ==> x in reachable')
      invariant forall x :: x in reachable' ==> x in worklist' || (x in reachable && x !in worklist)
      invariant forall j :: 0 <= j < k && def.operands[j].InstrRef? ==> def.operands[j].id in reachable'
      invariant forall t :: DeadCode.Closed(g, t) ==> reachable' <= t
      invariant reachable' <= KnownIds(g)
      invariant reachable' == reachable ==> worklist' == worklist
    {
      var op := def.operands[k];
      if op.InstrRef? && op.id !in reachable' {
        assert op.id in DeadCode.Refs(def);
        ClosedFollows(g, id, def);
        KnownRef(g, id, def, k);
        reachable' := reachable' + {op.id};
        worklist' := worklist' + [op.id];
      }
    }
    assert DeadCode.Refs(def) <= reachable';
  }

  lemma ClosedFollows(g: Trace, id: nat, def: Instruction)
    requires Def(g, id) == Some(def)
    ensures forall t :: DeadCode.Closed(g, t) && id in t ==> DeadCode.Refs(def) <= t
  {}

  /** Every id that the trace mentions. */
  ghost function KnownIds(g: Trace): set<nat> {
    (set i | 0 <= i < |g| :: g[i].resultId) + DeadCode.Referenced(g, |g|)
  }

  lemma KnownRef(g: Trace, id: nat, def: Instruction, k: nat)
    requires Def(g, id) == Some(def) && k < |def.operands| && def.operands[k].InstrRef?
    ensures def.operands[k].id in KnownIds(g)
  {
    var i := DefPosition(g, id);
    DeadCode.ReferencedBy(g, |g|, def.operands[k].id);
    assert def.operands[k].id in DeadCode.Refs(g[i]);
  }

  // ----- convergence drivers -----

  method RunPass(p: Pass, f: Function, h: Host) returns (changed: bool)
    requires WellFormed(f.instrs)
    modifies f`instrs
    ensures f.instrs == ApplyPass(p, h, old(f.instrs))
    ensures changed <==> f.instrs != old(f.instrs)
  {
    hide Apply;
    match p
    case Local(ConstPromote) => changed := ConstPromotePass(f, h);
    case Local(MemForward) => changed := MemForwardPass(f, h);
    case Local(ConstFold) => changed := ConstFoldPass(f, h);
    case Local(InsnCombine) => changed := InsnCombinePass(f, h);
    case Local(BranchFold) => changed := BranchFoldPass(f, h);
    case DeadStoreElim => changed := DeadStoreElimPass(f);
    case DeadDepElim => changed := DeadDepElimPass(f);
  }

  /** The loop shared by both drivers. */
  method RunConvergence(table: seq<Pass>, f: Function, h: Host, maxIters: int) returns (report: Report)
    requires WellFormed(f.instrs)
    modifies f`instrs
    ensures Outcome(f.instrs, report) == Converge(table, h, old(f.instrs), map[], 0, maxIters)
  {
    ghost var g := f.instrs;
    report := Report(0, map[]);
    var it := 0;
    while it < maxIters
      invariant 0 <= it && WellFormed(f.instrs) && report.iterations == it
      invariant Converge(table, h, g, map[], 0, maxIters) == Converge(table, h, f.instrs, report.passHits, it, maxIters)
    {
      hide WellFormed, ApplyPass;
      var any := false;
      ghost var start, hits := f.instrs, report.passHits;
      for k := 0 to |table|
        invariant WellFormed(f.instrs)
        invariant Progress(f.instrs, report.passHits, any) == RunTable(table, k, h, start, hits)
      {
        var changed := RunPass(table[k], f, h);
        if changed {
          report := report.(passHits := Bump(report.passHits, PassName(table[k])));
          any := true;
        }
      }
      report := report.(iterations := it + 1);
      if !any { return; }
      it := it + 1;
    }
  }

  method RunToConvergence(f: Function, h: Host, maxIters: int) returns (report: Report)
    requires WellFormed(f.instrs)
    modifies f`instrs
    ensures Outcome(f.instrs, report) == Converge(ALL_PASSES, h, old(f.instrs), map[], 0, maxIters)
  {
    report := RunConvergence(ALL_PASSES, f, h, maxIters);
  }

  method RunFoldConvergence(f: Function, h: Host, maxIters: int) returns (report: Report)
    requires WellFormed(f.instrs)
    modifies f`instrs
    ensures Outcome(f.instrs, report) == FoldConverge(h, old(f.instrs), maxIters)
  {
    report := RunConvergence(FOLD_PASSES, f, h, maxIters);
  }
}
