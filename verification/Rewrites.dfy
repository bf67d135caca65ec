/** The five value-propagating passes, each as the rewriting of one instruction in the context
    of the trace it sits in. A pass visits the positions in order and updates in place, so
    later positions see earlier rewrites. */
module Rewrites {
  import opened Ir
  import opened Arithmetic
  import opened Machine
  import opened References

  predicate IsLoad(d: Instruction) { d.op == LOAD && |d.operands| == 1 }
  predicate IsStore(d: Instruction) { d.op == STORE && |d.operands| == 2 }

  /** Ordered, and memory accesses have the operands the lifter gives them. */
  ghost predicate WellFormed(g: Trace) {
    && Ordered(g)
    && (forall i :: 0 <= i < |g| ==> (g[i].op == LOAD ==> IsLoad(g[i])) && (g[i].op == STORE ==> IsStore(g[i])))
  }

  lemma OrderedOf(g: Trace)
    requires WellFormed(g)
    ensures Ordered(g)
  {}

  // ----- const_promote -----

  function PromoteOperands(g: Trace, vs: seq<Value>): (r: seq<Value>)
    requires Ordered(g)
    ensures |r| == |vs| && forall k :: 0 <= k < |vs| ==> r[k] == Resolve(g, vs[k])
  {
    seq(|vs|, k requires 0 <= k < |vs| => Resolve(g, vs[k]))
  }

  function Promote(g: Trace, i: nat): Instruction
    requires Ordered(g) && i < |g|
  {
    g[i].(operands := PromoteOperands(g, g[i].operands))
  }

  // ----- mem_forward -----

  /** The value operand of the last store before `i` through the same address key. */
  function LastStore(g: Trace, i: nat, key: Key): Option<Value>
    requires i <= |g|
  {
    if i == 0 then None
    else if IsStore(g[i - 1]) && AddrKey(g[i - 1].operands[0]) == key then Some(g[i - 1].operands[1])
    else LastStore(g, i - 1, key)
  }

  function Forward(g: Trace, i: nat): Instruction
    requires i < |g|
  {
    var d := g[i];
    if IsLoad(d) && (d.operands[0].Const? || d.operands[0].InstrRef?) then
      match LastStore(g, i, AddrKey(d.operands[0]))
      case None => d
      case Some(v) =>
        Instruction(if v.Const? then CONST else PASSTHROUGH, [v], d.resultId, d.annotations["forwarded" := "1"])
    else d
  }

  // ----- const_fold -----

  /** `emplace` leaves an annotation that is already there. */
  function Emplace(ann: Annotations, key: string, val: string): Annotations {
    if key in ann then ann else ann[key := val]
  }

  function Max(a: nat, b: nat): nat { if a < b then b else a }

  function FoldedTo(d: Instruction, op: Op, v: Value, from: string): Instruction {
    Instruction(op, [v], d.resultId, Emplace(d.annotations, "folded_from", from))
  }

  function Fold(h: Host, d: Instruction): Instruction {
    var vs := d.operands;
    if FoldableBinary(d.op) && |vs| == 2 then
      if vs[0].Const? && vs[1].Const? then
        match FoldBinary(h, d.op, vs[0].value, vs[1].value)
        case Some(c) => FoldedTo(d, CONST, Const(c, Max(vs[0].bits, vs[1].bits)), OpName(d.op))
        case None => d
      else d
    else if FoldableUnary(d.op) && |vs| == 1 then
      if vs[0].Const? then
        match FoldUnary(d.op, vs[0].value)
        case Some(c) => FoldedTo(d, CONST, Const(c, vs[0].bits), OpName(d.op))
        case None => d
      else d
    else if d.op == SELECT && |vs| == 3 && vs[0].Const? then
      FoldedTo(d, PASSTHROUGH, if vs[0].value != 0 then vs[1] else vs[2], "SELECT")
    else d
  }

  // ----- insn_combine -----

  function CopyOf(d: Instruction, v: Value): Instruction { d.(op := PASSTHROUGH, operands := [v]) }
  function Zero(d: Instruction): Instruction { d.(op := CONST, operands := [Const64(0)]) }

  predicate ZeroIsRightIdentity(op: Op) {
    match op
    case ADD | SUB | XOR | OR | SHL | SHR | SAR | ROL | ROR => true
    case _ => false
  }

  datatype Simplified = Unchanged | ToZero | ToLeft

  /** The two-operand identities, in the order they are tried. */
  function Identity(g: Trace, d: Instruction): Simplified
    requires Ordered(g) && |d.operands| == 2
  {
    var a, b := d.operands[0], d.operands[1];
    var rb := Resolve(g, b);
    if (d.op == XOR || d.op == SUB) && a == b then ToZero
    else if !rb.Const? then Unchanged
    else if rb.value == 0 && (d.op == AND || d.op == MUL) then ToZero
    else if rb.value == ALL_ONES && d.op == AND then ToLeft
    else if rb.value == 1 && d.op == MUL then ToLeft
    else if rb.value == 0 && ZeroIsRightIdentity(d.op) then ToLeft
    else Unchanged
  }

  /** x for NOT(NOT(x)), NEG(NEG(x)) and BSWAP(BSWAP(x)). */
  function Undone(g: Trace, d: Instruction): Option<Value> {
    if FoldableUnary(d.op) && |d.operands| == 1 && d.operands[0].InstrRef? then
      match Def(g, d.operands[0].id)
      case Some(inner) => if inner.op == d.op && |inner.operands| == 1 then Some(inner.operands[0]) else None
      case None => None
    else None
  }

  /** `orA` is XOR(AND(_, orB), orB), up to the order of operands. */
  predicate AndXor(g: Trace, orA: Value, orB: Value) {
    orA.InstrRef? &&
    match Def(g, orA.id)
    case None => false
    case Some(x) =>
      && x.op == XOR && |x.operands| == 2
      && (x.operands[1] == orB || x.operands[0] == orB)
      && var other := if x.operands[1] == orB then x.operands[0] else x.operands[1];
      && other.InstrRef?
      && match Def(g, other.id)
         case None => false
         case Some(n) => n.op == AND && |n.operands| == 2 && (n.operands[0] == orB || n.operands[1] == orB)
  }

  function Combine(g: Trace, i: nat): Instruction
    requires Ordered(g) && i < |g|
  {
    var d := g[i];
    if |d.operands| == 2 && Identity(g, d).ToZero? then Zero(d)
    else if |d.operands| == 2 && Identity(g, d).ToLeft? then CopyOf(d, d.operands[0])
    else if Undone(g, d).Some? then CopyOf(d, Undone(g, d).value)
    else if d.op == OR && |d.operands| == 2 then
      var a, b := d.operands[0], d.operands[1];
      if AndXor(g, a, b) then CopyOf(d, b).(annotations := d.annotations["mba_simplified" := "and_xor_or"])
      else if AndXor(g, b, a) then CopyOf(d, a).(annotations := d.annotations["mba_simplified" := "and_xor_or"])
      else if a == b then CopyOf(d, b)
      else d
    else d
  }

  // ----- branch_fold -----

  function FoldBranch(d: Instruction): Instruction {
    if d.op == CJMP && |d.operands| > 0 && d.operands[0].Const? then
      d.(op := if d.operands[0].value != 0 then JMP else NOP, operands := d.operands[1..])
    else d
  }

  // ----- one pass -----

  datatype LocalPass = ConstPromote | MemForward | ConstFold | InsnCombine | BranchFold

  function RewriteAt(p: LocalPass, h: Host, g: Trace, i: nat): Instruction
    requires Ordered(g) && i < |g|
  {
    match p
    case ConstPromote => Promote(g, i)
    case MemForward => Forward(g, i)
    case ConstFold => Fold(h, g[i])
    case InsnCombine => Combine(g, i)
    case BranchFold => FoldBranch(g[i])
  }

  /** What every rewrite leaves of the instruction it replaces. */
  ghost predicate Shape(g: Trace, d: Instruction, x: Instruction)
    requires Ordered(g)
  {
    && x.resultId == d.resultId
    && (forall k :: 0 <= k < |x.operands| ==> Below(x.operands[k], d.resultId))
    && (x.op == d.op ==>
          && |x.operands| == |d.operands| && Private(x) == Private(d)
          && forall k :: 0 <= k < |d.operands| ==> x.operands[k] in {d.operands[k], Resolve(g, d.operands[k])})
    && (x.op != d.op ==>
          && x.op in {CONST, PASSTHROUGH, JMP, NOP}
          && (FoldableBinary(d.op) || FoldableUnary(d.op) || d.op in {SELECT, LOAD, CJMP}))
  }

  lemma {:induction false} LastStoreBelow(g: Trace, i: nat, key: Key, bound: nat)
    requires Ordered(g) && i < |g| && bound == g[i].resultId
    ensures LastStore(g, i, key).Some? ==> Below(LastStore(g, i, key).value, bound)
  {
    if i > 0 {
      LastStoreBelow(g, i - 1, key, g[i - 1].resultId);
      assert g[i - 1].resultId < g[i].resultId;
    }
  }

  lemma PromoteShape(g: Trace, i: nat)
    requires Ordered(g) && i < |g|
    ensures Shape(g, g[i], Promote(g, i))
  {
    forall k | 0 <= k < |g[i].operands| ensures Below(Resolve(g, g[i].operands[k]), g[i].resultId) {
      ResolveBelow(g, g[i].operands[k], g[i].resultId);
    }
  }

  lemma ForwardShape(g: Trace, i: nat)
    requires Ordered(g) && i < |g|
    ensures Shape(g, g[i], Forward(g, i))
  {
    if |g[i].operands| > 0 { LastStoreBelow(g, i, AddrKey(g[i].operands[0]), g[i].resultId); }
  }

  lemma FoldShape(h: Host, g: Trace, i: nat)
    requires Ordered(g) && i < |g|
    ensures Shape(g, g[i], Fold(h, g[i]))
  {
    hide FoldBinary, FoldUnary, OpName;
  }

  lemma CombineShape(g: Trace, i: nat)
    requires Ordered(g) && i < |g|
    ensures Shape(g, g[i], Combine(g, i))
  {
    hide AndXor, Resolve, Def;
    var d := g[i];
    if Undone(g, d).Some? {
      var inner := Def(g, d.operands[0].id).value;
      assert inner in g;
      assert Below(inner.operands[0], inner.resultId);
    }
  }

  lemma RewriteShape(p: LocalPass, h: Host, g: Trace, i: nat)
    requires Ordered(g) && i < |g|
    ensures Shape(g, g[i], RewriteAt(p, h, g, i))
  {
    match p
    case ConstPromote => PromoteShape(g, i);
    case MemForward => ForwardShape(g, i);
    case ConstFold => FoldShape(h, g, i);
    case InsnCombine => CombineShape(g, i);
    case BranchFold =>
  }

  lemma ShapeOrdered(g: Trace, i: nat, x: Instruction)
    requires WellFormed(g) && i < |g| && Shape(g, g[i], x)
    ensures WellFormed(g[i := x])
  {}

  lemma RewriteKeepsForwarding(p: LocalPass, h: Host, g: Trace, i: nat)
    requires Ordered(g) && i < |g|
    ensures KeepsForwarding(g, g[i], RewriteAt(p, h, g, i))
  {
    RewriteShape(p, h, g, i);
    var d, x := g[i], RewriteAt(p, h, g, i);
    if IsConstDef(d) && d.operands[0].Const? {
      assert Resolve(g, d.operands[0]) == d.operands[0];
    }
  }

  lemma RewriteWellFormed(p: LocalPass, h: Host, g: Trace, i: nat)
    requires WellFormed(g) && i < |g|
    ensures WellFormed(g[i := RewriteAt(p, h, g, i)]) && RewriteAt(p, h, g, i).resultId == g[i].resultId
  {
    hide RewriteAt;
    RewriteShape(p, h, g, i);
    ShapeOrdered(g, i, RewriteAt(p, h, g, i));
  }

  /** Visiting one position. */
  function Visit(p: LocalPass, h: Host, g: Trace, i: nat): (r: Trace)
    requires WellFormed(g) && i < |g|
    ensures WellFormed(r) && |r| == |g|
    ensures forall k :: 0 <= k < |g| ==> r[k].resultId == g[k].resultId
  {
    RewriteWellFormed(p, h, g, i);
    g[i := RewriteAt(p, h, g, i)]
  }

  /** The trace after positions 0 .. n-1 have been visited. */
  function ApplyTo(p: LocalPass, h: Host, g: Trace, n: nat): (r: Trace)
    requires WellFormed(g) && n <= |g|
    ensures WellFormed(r) && |r| == |g|
    ensures forall k :: 0 <= k < |g| ==> r[k].resultId == g[k].resultId
  {
    hide Visit, WellFormed;
    if n == 0 then g else Visit(p, h, ApplyTo(p, h, g, n - 1), n - 1)
  }

  function Apply(p: LocalPass, h: Host, g: Trace): (r: Trace)
    requires WellFormed(g)
    ensures WellFormed(r) && |r| == |g|
    ensures forall i :: 0 <= i < |g| ==> r[i].resultId == g[i].resultId
  {
    ApplyTo(p, h, g, |g|)
  }

  /** A position is rewritten once: it keeps its instruction until visited, ... */
  lemma {:induction false} ApplyBefore(p: LocalPass, h: Host, g: Trace, n: nat, i: nat)
    requires WellFormed(g) && n <= i < |g|
    ensures ApplyTo(p, h, g, n)[i] == g[i]
  {
    hide RewriteAt, WellFormed;
    if n > 0 { ApplyBefore(p, h, g, n - 1, i); }
  }

  /** ... and its rewrite after. */
  lemma {:induction false} ApplyAfter(p: LocalPass, h: Host, g: Trace, i: nat, n: nat)
    requires WellFormed(g) && i < n <= |g|
    ensures ApplyTo(p, h, g, n)[i] == RewriteAt(p, h, ApplyTo(p, h, g, i), i)
  {
    hide RewriteAt, WellFormed;
    if n > i + 1 { ApplyAfter(p, h, g, i, n - 1); }
  }
}
