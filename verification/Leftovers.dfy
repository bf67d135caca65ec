/** What each value-propagating pass makes of every instruction, in terms of the instruction and
    the trace alone, and so what is left where no pass finds anything to do. */
module Leftovers {
  import opened Ir
  import opened Arithmetic
  import opened Machine
  import opened References
  import opened Rewrites
  import opened Convergence

  // ----- where following references ends -----

  /** One step: the operand that an instruction of the trace passes on, or the constant it defines. */
  ghost predicate PassesOn(g: Trace, v: Value, w: Value) {
    exists i :: 0 <= i < |g| && v == InstrRef(g[i].resultId) && |g[i].operands| > 0 && w == g[i].operands[0]
             && (|| (g[i].op == PASSTHROUGH && |g[i].operands| == 1)
                 || ((g[i].op == CONST || g[i].op == CONST_PTR) && w.Const?))
  }

  /** From `v` to `w` along such steps. */
  ghost predicate Chain(g: Trace, c: seq<Value>, v: Value, w: Value) {
    |c| > 0 && c[0] == v && c[|c| - 1] == w && forall k :: 0 <= k < |c| - 1 ==> PassesOn(g, c[k], c[k + 1])
  }

  lemma StepFrom(g: Trace, i: nat, w: Value)
    requires Ordered(g) && i < |g|
    ensures PassesOn(g, InstrRef(g[i].resultId), w)
       <==> |g[i].operands| > 0 && w == g[i].operands[0]
            && (IsCopy(g[i]) || (IsConstDef(g[i]) && w.Const?))
  {
    if PassesOn(g, InstrRef(g[i].resultId), w) {
      var j :| 0 <= j < |g| && InstrRef(g[i].resultId) == InstrRef(g[j].resultId) && |g[j].operands| > 0
            && w == g[j].operands[0]
            && (|| (g[j].op == PASSTHROUGH && |g[j].operands| == 1)
                || ((g[j].op == CONST || g[j].op == CONST_PTR) && w.Const?));
      assert i == j;
    }
  }

  /** Resolution follows the steps as long as there is one: the result is at the end of a chain, and
      nothing leads further. */
  lemma {:induction false} ResolveExact(g: Trace, v: Value) returns (c: seq<Value>)
    requires Ordered(g)
    ensures Chain(g, c, v, Resolve(g, v)) && forall w :: !PassesOn(g, Resolve(g, v), w)
    decreases if v.InstrRef? then v.id + 1 else 0
  {
    hide IndexMap, Def;
    c := [v];
    if v.InstrRef? {
      if Def(g, v.id).None? {
        NoStep(g, v);
      } else {
        var i := DefPosition(g, v.id);
        DefAt(g, i);
        var d := g[i];
        forall w { StepFrom(g, i, w); }
        if IsConstDef(d) && d.operands[0].Const? {
          c := [v, d.operands[0]];
        } else if !IsConstDef(d) && IsCopy(d) {
          OperandBelow(g, d);
          var rest := ResolveExact(g, d.operands[0]);
          c := [v] + rest;
        }
      }
    }
  }

  lemma NoStep(g: Trace, v: Value)
    requires Ordered(g) && v.InstrRef? && Def(g, v.id).None?
    ensures forall w :: !PassesOn(g, v, w)
  {
    hide IndexMap, Def;
    forall i | 0 <= i < |g| ensures g[i].resultId != v.id { DefAt(g, i); }
  }

  // ----- const_promote -----

  ghost predicate PromotedAs(g: Trace, d: Instruction, x: Instruction)
    requires Ordered(g)
  {
    x == d.(operands := x.operands) && |x.operands| == |d.operands|
    && forall k :: 0 <= k < |d.operands| ==> x.operands[k] == Resolve(g, d.operands[k])
  }

  // ----- const_fold -----

  predicate BinaryOfConstants(d: Instruction) {
    && d.op in {ADD, SUB, MUL, XOR, AND, OR, SHL, SHR, SAR, ROL, ROR}
    && |d.operands| == 2 && d.operands[0].Const? && d.operands[1].Const?
  }

  predicate UnaryOfConstant(d: Instruction) {
    d.op in {NOT, NEG, BSWAP} && |d.operands| == 1 && d.operands[0].Const?
  }

  predicate SelectOfConstant(d: Instruction) { d.op == SELECT && |d.operands| == 3 && d.operands[0].Const? }

  predicate Foldable(d: Instruction) { BinaryOfConstants(d) || UnaryOfConstant(d) || SelectOfConstant(d) }

  /** `x` is a constant of that width. */
  predicate IsConstant(x: Instruction, bits: nat) {
    x.op == CONST && |x.operands| == 1 && x.operands[0].Const? && x.operands[0].bits == bits
  }

  ghost predicate FoldedAs(d: Instruction, x: Instruction) {
    && x.resultId == d.resultId
    && (BinaryOfConstants(d) ==>
          var a, b := d.operands[0], d.operands[1];
          && IsConstant(x, if a.bits < b.bits then b.bits else a.bits)
          && (ShiftDefined(d.op, a.value, b.value) ==> x.operands[0].value == Binary(d.op, a.value, b.value)))
    && (UnaryOfConstant(d) ==>
          var a := d.operands[0];
          IsConstant(x, a.bits) && x.operands[0].value == Unary(d.op, a.value))
    && (SelectOfConstant(d) ==>
          x.op == PASSTHROUGH && x.operands == [if d.operands[0].value != 0 then d.operands[1] else d.operands[2]])
    && (Foldable(d) ==>
          x.annotations == if "folded_from" in d.annotations then d.annotations
                           else d.annotations["folded_from" := OpName(d.op)])
    && (!Foldable(d) ==> x == d)
  }

  lemma FoldAs(h: Host, d: Instruction)
    ensures FoldedAs(d, Fold(h, d))
  {
    hide FoldBinary, FoldUnary, Binary, Unary, ShiftDefined;
    if BinaryOfConstants(d) {
      var a, b := d.operands[0], d.operands[1];
      FoldSome(h, d.op, a.value, b.value);
      if ShiftDefined(d.op, a.value, b.value) { FoldDefined(h, d.op, a.value, b.value); }
    } else if UnaryOfConstant(d) {
      FoldUnaryExact(d.op, d.operands[0].value);
    }
  }

  lemma FoldSome(h: Host, op: Op, a: Word, b: Word)
    requires FoldableBinary(op)
    ensures FoldBinary(h, op, a, b).Some?
  {
    hide Product, HostShl, HostShr, Sar64, Rol64, Ror64;
    match op
    case ADD => case SUB => case MUL => case XOR => case AND => case OR => case SHL => case SHR => case SAR =>
    case ROL => case ROR =>
  }

  // ----- insn_combine -----

  /** The second operand is, or refers to, the constant `c`. */
  predicate RightIs(g: Trace, d: Instruction, c: Word)
    requires Ordered(g)
  {
    |d.operands| == 2 && var b := Resolve(g, d.operands[1]); b.Const? && b.value == c
  }

  predicate SameOperands(d: Instruction) { |d.operands| == 2 && d.operands[0] == d.operands[1] }

  /** x ^ x, x - x, x & 0, x * 0. */
  predicate ZeroForm(g: Trace, d: Instruction)
    requires Ordered(g)
  {
    ((d.op == XOR || d.op == SUB) && SameOperands(d)) || ((d.op == AND || d.op == MUL) && RightIs(g, d, 0))
  }

  /** x & -1, x * 1, and x + 0, x - 0, x ^ 0, x | 0, shifts and rotates by 0. */
  predicate LeftForm(g: Trace, d: Instruction)
    requires Ordered(g)
  {
    || (d.op == AND && RightIs(g, d, 0xFFFF_FFFF_FFFF_FFFF))
    || (d.op == MUL && RightIs(g, d, 1))
    || (d.op in {ADD, SUB, XOR, OR, SHL, SHR, SAR, ROL, ROR} && RightIs(g, d, 0))
  }

  /** NOT(NOT(v)), NEG(NEG(v)), BSWAP(BSWAP(v)). */
  ghost predicate TwiceOf(g: Trace, d: Instruction, v: Value) {
    && (d.op == NOT || d.op == NEG || d.op == BSWAP) && |d.operands| == 1
    && exists j :: 0 <= j < |g| && d.operands[0] == InstrRef(g[j].resultId) && g[j].op == d.op
                && g[j].operands == [v]
  }

  /** `a` refers to an AND of which one operand is `b`. */
  ghost predicate AndWith(g: Trace, a: Value, b: Value) {
    exists k :: 0 <= k < |g| && a == InstrRef(g[k].resultId) && g[k].op == AND && |g[k].operands| == 2
             && (g[k].operands[0] == b || g[k].operands[1] == b)
  }

  /** `a` refers to the XOR of `b` with such an AND, in either order. */
  ghost predicate XorOfAnd(g: Trace, a: Value, b: Value) {
    exists j :: 0 <= j < |g| && a == InstrRef(g[j].resultId) && g[j].op == XOR && |g[j].operands| == 2
             && (|| (g[j].operands[0] == b && AndWith(g, g[j].operands[1], b))
                 || (g[j].operands[1] == b && AndWith(g, g[j].operands[0], b)))
  }

  /** ((x & y) ^ y) | y in either order, and y | y: what the OR comes down to. */
  ghost predicate OrForm(g: Trace, d: Instruction) {
    && d.op == OR && |d.operands| == 2
    && (|| XorOfAnd(g, d.operands[0], d.operands[1]) || XorOfAnd(g, d.operands[1], d.operands[0])
        || SameOperands(d))
  }

  ghost predicate Combinable(g: Trace, d: Instruction)
    requires Ordered(g)
  {
    ZeroForm(g, d) || LeftForm(g, d) || OrForm(g, d) || exists v :: TwiceOf(g, d, v)
  }

  ghost predicate CombinedAs(g: Trace, d: Instruction, x: Instruction)
    requires Ordered(g)
  {
    && (ZeroForm(g, d) ==> x == d.(op := CONST, operands := [Const(0, 64)]))
    && (!ZeroForm(g, d) && LeftForm(g, d) ==> x == d.(op := PASSTHROUGH, operands := [d.operands[0]]))
    && (forall v :: TwiceOf(g, d, v) ==> x == d.(op := PASSTHROUGH, operands := [v]))
    && (!LeftForm(g, d) && OrForm(g, d) ==>
          var a, b := d.operands[0], d.operands[1];
          var mba := XorOfAnd(g, a, b) || XorOfAnd(g, b, a);
          x == Instruction(PASSTHROUGH, [if XorOfAnd(g, a, b) || !mba then b else a], d.resultId,
                           if mba then d.annotations["mba_simplified" := "and_xor_or"] else d.annotations))
    && (!Combinable(g, d) ==> x == d)
  }

  lemma IdentityForms(g: Trace, d: Instruction)
    requires Ordered(g) && |d.operands| == 2
    ensures Identity(g, d).ToZero? <==> ZeroForm(g, d)
    ensures Identity(g, d).ToLeft? <==> !ZeroForm(g, d) && LeftForm(g, d)
  {
    hide Resolve, Ordered;
  }

  lemma DefIs(g: Trace, v: Value)
    requires Ordered(g) && v.InstrRef?
    ensures forall j :: 0 <= j < |g| ==> (v == InstrRef(g[j].resultId) ==> Def(g, v.id) == Some(g[j]))
    ensures Def(g, v.id).Some? ==>
              exists j :: 0 <= j < |g| && v == InstrRef(g[j].resultId) && g[j] == Def(g, v.id).value
  {
    hide IndexMap, Def;
    forall j | 0 <= j < |g| && v == InstrRef(g[j].resultId) ensures Def(g, v.id) == Some(g[j]) { DefAt(g, j); }
    if Def(g, v.id).Some? { var j := DefPosition(g, v.id); }
  }

  lemma UndoneForm(g: Trace, d: Instruction)
    requires Ordered(g)
    ensures Undone(g, d).None? ==> forall v :: !TwiceOf(g, d, v)
    ensures Undone(g, d).Some? ==> TwiceOf(g, d, Undone(g, d).value)
    ensures forall v :: TwiceOf(g, d, v) ==> Undone(g, d) == Some(v)
  {
    hide Def, Ordered;
    if |d.operands| == 1 && d.operands[0].InstrRef? { DefIs(g, d.operands[0]); }
  }

  lemma AndForm(g: Trace, a: Value, b: Value)
    requires Ordered(g)
    ensures AndWith(g, a, b) <==>
              a.InstrRef? && Def(g, a.id).Some?
              && var n := Def(g, a.id).value;
                 n.op == AND && |n.operands| == 2 && (n.operands[0] == b || n.operands[1] == b)
  {
    hide Def, Ordered;
    if a.InstrRef? { DefIs(g, a); }
  }

  lemma MbaForm(g: Trace, a: Value, b: Value)
    requires Ordered(g)
    ensures AndXor(g, a, b) <==> XorOfAnd(g, a, b)
  {
    hide Def, Ordered, AndWith;
    if a.InstrRef? {
      DefIs(g, a);
      if Def(g, a.id).Some? && |Def(g, a.id).value.operands| == 2 {
        AndForm(g, Def(g, a.id).value.operands[0], b);
        AndForm(g, Def(g, a.id).value.operands[1], b);
      }
    }
  }

  lemma CombineAs(g: Trace, i: nat)
    requires Ordered(g) && i < |g|
    ensures CombinedAs(g, g[i], Combine(g, i))
  {
    hide ZeroForm, LeftForm, XorOfAnd, AndXor, Identity, Undone, Ordered;
    var d := g[i];
    UndoneForm(g, d);
    FormsApart(g, d);
    if |d.operands| == 2 {
      IdentityForms(g, d);
      MbaForm(g, d.operands[0], d.operands[1]);
      MbaForm(g, d.operands[1], d.operands[0]);
    }
  }

  lemma FormsApart(g: Trace, d: Instruction)
    requires Ordered(g)
    ensures ZeroForm(g, d) || LeftForm(g, d) ==> |d.operands| == 2
    ensures ZeroForm(g, d) ==> d.op != OR
    ensures FoldableUnary(d.op) ==> !ZeroForm(g, d) && !LeftForm(g, d)
  {
    hide Resolve, Ordered;
  }

  // ----- mem_forward -----

  /** The addresses are the same constant, or the same reference. */
  predicate SameKey(a: Value, b: Value) {
    (a.Const? && b.Const? && a.value == b.value) || (a.InstrRef? && b.InstrRef? && a.id == b.id)
  }

  /** The last store before `i` under the address key of the load at `i` is the one at `j`. */
  ghost predicate ReadsFrom(g: Trace, j: nat, i: nat) {
    && j < i < |g| && IsStore(g[j]) && IsLoad(g[i]) && SameKey(g[j].operands[0], g[i].operands[0])
    && forall m :: j < m < i && IsStore(g[m]) ==> !SameKey(g[m].operands[0], g[i].operands[0])
  }

  /** A load from a store becomes its value; anything else stays. */
  ghost predicate ForwardedAs(g: Trace, i: nat, x: Instruction)
    requires i < |g|
  {
    && (forall j: nat :: ReadsFrom(g, j, i) ==>
          var v := g[j].operands[1];
          x == Instruction(if v.Const? then CONST else PASSTHROUGH, [v], g[i].resultId,
                           g[i].annotations["forwarded" := "1"]))
    && ((forall j :: 0 <= j < i && IsStore(g[j]) && IsLoad(g[i]) ==> !SameKey(g[j].operands[0], g[i].operands[0]))
        ==> x == g[i])
  }

  lemma {:induction false} LastStoreIs(g: Trace, n: nat, i: nat)
    requires n <= i < |g| && IsLoad(g[i]) && (g[i].operands[0].Const? || g[i].operands[0].InstrRef?)
    ensures var s := LastStore(g, n, AddrKey(g[i].operands[0]));
            && (s.None? ==> forall j :: 0 <= j < n && IsStore(g[j]) ==> !SameKey(g[j].operands[0], g[i].operands[0]))
            && (s.Some? ==> exists j: nat :: LastBefore(g, j, n, i) && s.value == g[j].operands[1])
  {
    if n > 0 {
      var a, b := g[n - 1], g[i].operands[0];
      assert IsStore(a) ==> (AddrKey(a.operands[0]) == AddrKey(b) <==> SameKey(a.operands[0], b));
      LastStoreIs(g, n - 1, i);
      if IsStore(a) && SameKey(a.operands[0], b) {
        assert LastBefore(g, n - 1, n, i);
      } else if LastStore(g, n - 1, AddrKey(b)).Some? {
        var j: nat :| LastBefore(g, j, n - 1, i) && LastStore(g, n - 1, AddrKey(b)).value == g[j].operands[1];
        assert LastBefore(g, j, n, i);
      }
    }
  }

  ghost predicate LastBefore(g: Trace, j: nat, n: nat, i: nat)
    requires n <= i < |g| && IsLoad(g[i])
  {
    && j < n && IsStore(g[j]) && SameKey(g[j].operands[0], g[i].operands[0])
    && forall m :: j < m < n && IsStore(g[m]) ==> !SameKey(g[m].operands[0], g[i].operands[0])
  }

  lemma ForwardAs(g: Trace, i: nat)
    requires i < |g|
    ensures ForwardedAs(g, i, Forward(g, i))
  {
    hide LastStore, AddrKey;
    if IsLoad(g[i]) && (g[i].operands[0].Const? || g[i].operands[0].InstrRef?) {
      LastStoreIs(g, i, i);
      var s := LastStore(g, i, AddrKey(g[i].operands[0]));
      if s.Some? {
        var k: nat :| LastBefore(g, k, i, i) && s.value == g[k].operands[1];
        forall j: nat | ReadsFrom(g, j, i) ensures j == k {}
      }
    }
  }

  // ----- branch_fold -----

  predicate JumpOnConstant(d: Instruction) { d.op == CJMP && |d.operands| > 0 && d.operands[0].Const? }

  /** A jump on a constant becomes a jump with the remaining operands, or nothing. */
  ghost predicate BranchFoldedAs(d: Instruction, x: Instruction) {
    && (JumpOnConstant(d) ==>
          x == d.(op := if d.operands[0].value != 0 then JMP else NOP, operands := d.operands[1..]))
    && (!JumpOnConstant(d) ==> x == d)
  }

  // ----- whole passes -----

  /** What the pass `p`, having come to position `i` of `g` with the trace `t`, makes of it. */
  ghost predicate RewrittenAs(p: LocalPass, t: Trace, i: nat, x: Instruction)
    requires Ordered(t) && i < |t|
  {
    match p
    case ConstPromote => PromotedAs(t, t[i], x)
    case MemForward => ForwardedAs(t, i, x)
    case ConstFold => FoldedAs(t[i], x)
    case InsnCombine => CombinedAs(t, t[i], x)
    case BranchFold => BranchFoldedAs(t[i], x)
  }

  lemma RewriteAs(p: LocalPass, h: Host, t: Trace, i: nat)
    requires Ordered(t) && i < |t|
    ensures RewrittenAs(p, t, i, RewriteAt(p, h, t, i))
  {
    hide Ordered, Fold, Combine, Forward, FoldedAs, CombinedAs, ForwardedAs, Resolve;
    match p
    case ConstPromote =>
    case MemForward => ForwardAs(t, i);
    case ConstFold => FoldAs(h, t[i]);
    case InsnCombine => CombineAs(t, i);
    case BranchFold =>
  }

  /** A pass makes of every instruction what its forms say, on the trace as it is when the pass
      arrives there: what comes before has been rewritten, what comes after has not. */
  lemma PassExact(p: LocalPass, h: Host, g: Trace, i: nat) returns (t: Trace)
    requires WellFormed(g) && i < |g|
    ensures Ordered(t) && |t| == |g| && t[i..] == g[i..] && t[..i] == Apply(p, h, g)[..i]
    ensures RewrittenAs(p, t, i, Apply(p, h, g)[i])
  {
    hide RewriteAt, WellFormed, RewrittenAs, Ordered;
    t := ApplyTo(p, h, g, i);
    OrderedOf(t);
    forall k | i <= k < |g| ensures t[k] == g[k] { ApplyBefore(p, h, g, i, k); }
    forall k | 0 <= k < i ensures t[k] == Apply(p, h, g)[k] {
      ApplyAfter(p, h, g, k, i);
      ApplyAfter(p, h, g, k, |g|);
    }
    ApplyAfter(p, h, g, i, |g|);
    RewriteAs(p, h, t, i);
  }
}
