/** Traces on which there is nothing to fold. */
module PlainTraces {
  import opened Ir
  import opened Arithmetic
  import opened References
  import opened Rewrites
  import opened Convergence
  import BM = ByteMemory
  import Promotion

  ghost predicate ConstOperands(d: Instruction) { forall k :: 0 <= k < |d.operands| ==> d.operands[k].Const? }

  /** Constants only, and loads before stores. */
  ghost predicate Plain(g: Trace) {
    && (forall i :: 0 <= i < |g| ==> g[i].op in {CONST, LOAD, STORE, JMP} && ConstOperands(g[i]))
    && (forall i, j :: 0 <= i < j < |g| && IsLoad(g[j]) ==> !IsStore(g[i]))
  }

  lemma {:induction false} NoStoreBefore(g: Trace, n: nat, key: Key)
    requires n <= |g| && forall i :: 0 <= i < n ==> !IsStore(g[i])
    ensures LastStore(g, n, key).None?
  {
    if n > 0 { NoStoreBefore(g, n - 1, key); }
  }

  lemma PlainKept(p: LocalPass, h: Host, g: Trace, i: nat)
    requires WellFormed(g) && Ordered(g) && Plain(g) && i < |g|
    ensures RewriteAt(p, h, g, i) == g[i]
  {
    hide LastStore, IndexMap, AddrKey, WellFormed;
    var d := g[i];
    match p
    case ConstPromote => assert PromoteOperands(g, d.operands) == d.operands;
    case MemForward => if IsLoad(d) { NoStoreBefore(g, i, AddrKey(d.operands[0])); }
    case ConstFold =>
    case InsnCombine =>
    case BranchFold =>
  }

  lemma {:induction false} PlainApplied(p: LocalPass, h: Host, g: Trace, n: nat)
    requires WellFormed(g) && Plain(g) && n <= |g|
    ensures ApplyTo(p, h, g, n) == g
  {
    hide RewriteAt, Plain, WellFormed;
    if n > 0 {
      OrderedOf(g);
      PlainApplied(p, h, g, n - 1);
      PlainKept(p, h, g, n - 1);
      assert g[n - 1 := g[n - 1]] == g;
    }
  }

  lemma {:induction false} PlainTable(table: seq<Pass>, n: nat, h: Host, g: Trace)
    requires WellFormed(g) && Plain(g) && n <= |table| && forall k :: 0 <= k < n ==> table[k].Local?
    ensures RunTable(table, n, h, g, map[]) == Progress(g, map[], false)
  {
    hide ApplyTo, Plain, WellFormed;
    if n > 0 {
      PlainTable(table, n - 1, h, g);
      PlainApplied(table[n - 1].pass, h, g, |g|);
    }
  }

  lemma PlainFolded(h: Host, g: Trace, maxIters: int)
    requires WellFormed(g) && Plain(g)
    ensures FoldConverge(h, g, maxIters).trace == g
  {
    hide RunTable, Plain, WellFormed;
    PlainTable(FOLD_PASSES, |FOLD_PASSES|, h, g);
  }

  // ----- without memory accesses -----

  ghost predicate Quiet(g: Trace) { forall i :: 0 <= i < |g| ==> g[i].op in {CONST, JMP} && ConstOperands(g[i]) }

  lemma QuietPlain(g: Trace)
    requires Quiet(g)
    ensures Plain(g)
  {
    hide ConstOperands;
  }

  lemma {:induction false} QuietSwept(g: Trace, bytes: BM.Bytes, ranges: seq<BM.MemRange>, n: nat)
    requires WellFormed(g) && Quiet(g) && n <= |g|
    ensures Promotion.SweepTo(g, bytes, ranges, n) == Promotion.Sweep(g, bytes)
  {
    hide WellFormed, ConstOperands, IndexMap, BM.Load, BM.Store;
    if n > 0 {
      OrderedOf(g);
      QuietSwept(g, bytes, ranges, n - 1);
      assert g[n - 1 := g[n - 1]] == g;
    }
  }
}
