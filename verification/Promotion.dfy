/** Promoting loads from VM-private memory: one sweep over the trace applies concrete stores
    to the byte memory and replaces loads whose bytes are known. */
module Promotion {
  import opened Ir
  import opened Arithmetic
  import opened Machine
  import opened References
  import opened Rewrites
  import opened Meaning
  import opened Convergence
  import BM = ByteMemory
  import Collections
  import Passes
  import Vjcc

  /** A store of a constant to a constant safe address: what the sweep can replay. */
  function Replayed(g: Trace, i: nat, ranges: seq<BM.MemRange>): Option<(Word, Word)>
    requires Ordered(g) && i < |g|
  {
    var d := g[i];
    if d.op == STORE && |d.operands| >= 2 then
      var a, v := Resolve(g, d.operands[0]), Resolve(g, d.operands[1]);
      if a.Const? && v.Const? && BM.InSafeRange(ranges, a.value) then Some((a.value, v.value)) else None
    else None
  }

  function SweepBytes(g: Trace, i: nat, bytes: BM.Bytes, ranges: seq<BM.MemRange>): BM.Bytes
    requires Ordered(g) && i < |g|
  {
    match Replayed(g, i, ranges)
    case Some((a, v)) => BM.Store(bytes, a, v)
    case None => bytes
  }

  function Promoted(d: Instruction, v: Word): Instruction {
    Instruction(CONST, [Const64(v)], d.resultId, d.annotations["promoted_from" := "safe_mem"]["vm_private" := "1"])
  }

  /** What the sweep makes of instruction `i`: a load keeps a constant address once found. */
  function SweepInstr(g: Trace, i: nat, bytes: BM.Bytes, ranges: seq<BM.MemRange>): Instruction
    requires Ordered(g) && i < |g|
  {
    var d := g[i];
    if d.op == LOAD && |d.operands| > 0 then
      var ra := Resolve(g, d.operands[0]);
      if !ra.Const? then d
      else
        var d' := d.(operands := d.operands[0 := ra]);
        if BM.InSafeRange(ranges, ra.value) && BM.Load(bytes, ra.value).Some?
        then Promoted(d, BM.Load(bytes, ra.value).value) else d'
    else d
  }

  lemma SweepWellFormed(g: Trace, i: nat, bytes: BM.Bytes, ranges: seq<BM.MemRange>)
    requires WellFormed(g) && i < |g|
    ensures WellFormed(g[i := SweepInstr(g, i, bytes, ranges)])
  {
    hide BM.Load, BM.InSafeRange, Resolve;
    if |g[i].operands| > 0 { ResolveBelow(g, g[i].operands[0], g[i].resultId); }
  }

  datatype Sweep = Sweep(trace: Trace, bytes: BM.Bytes)

  /** The trace and the known bytes after the first `n` instructions have been swept. */
  function SweepTo(g: Trace, bytes: BM.Bytes, ranges: seq<BM.MemRange>, n: nat): (r: Sweep)
    requires WellFormed(g) && n <= |g|
    ensures WellFormed(r.trace) && |r.trace| == |g|
  {
    hide WellFormed, SweepInstr;
    if n == 0 then Sweep(g, bytes)
    else
      var r := SweepTo(g, bytes, ranges, n - 1);
      SweepWellFormed(r.trace, n - 1, r.bytes, ranges);
      OrderedOf(r.trace);
      Sweep(r.trace[n - 1 := SweepInstr(r.trace, n - 1, r.bytes, ranges)], SweepBytes(r.trace, n - 1, r.bytes, ranges))
  }

  // ----- when a promotion is right -----

  /** The sweep makes the load at `i` a constant. */
  predicate Promotes(g: Trace, i: nat, bytes: BM.Bytes, ranges: seq<BM.MemRange>)
    requires Ordered(g) && i < |g|
  {
    g[i].op == LOAD && SweepInstr(g, i, bytes, ranges).op == CONST
  }

  /** Every byte that the load at `i` covers is held, with the value that memory has there. */
  ghost predicate BytesRight(g: Trace, i: nat, bytes: BM.Bytes, env: Env, s: State)
    requires i < |g| && IsLoad(g[i])
  {
    forall x :: Covers(Addr(g, i, env, s), x) ==> Collections.Get(bytes, x) == Some(RunTo(g, i, env, s).mem(x))
  }

  /** A promoted load has the effect of the load if and only if its bytes are right. */
  lemma PromotedExact(g: Trace, i: nat, bytes: BM.Bytes, ranges: seq<BM.MemRange>, env: Env, s: State)
    requires WellFormed(g) && i < |g| && Promotes(g, i, bytes, ranges)
    ensures Step(SweepInstr(g, i, bytes, ranges), env, RunTo(g, i, env, s)) == Step(g[i], env, RunTo(g, i, env, s))
       <==> BytesRight(g, i, bytes, env, s)
  {
    hide Step, RunTo, Resolve, Load64, Collections.Get, BM.LoadBytes, BM.InSafeRange, BM.Load, Covers, BM.Known;
    var d, x, t := g[i], SweepInstr(g, i, bytes, ranges), RunTo(g, i, env, s);
    var held: Memory := (y: Word) => BM.Known(bytes, y);
    ResolveSound(g, d.operands[0], i, env, s);
    BM.KnownGet(bytes);
    BM.LoadGet(bytes, held, Addr(g, i, env, s));
    LoadExact(held, t.mem, Addr(g, i, env, s));
    LoadStep(d, env, t);
    StepPure(x, env, t);
    assert Step(x, env, t).vals[d.resultId] == Load64(held, Addr(g, i, env, s));
    assert Step(d, env, t).vals[d.resultId] == Load64(t.mem, Addr(g, i, env, s));
  }

  /** Bytes that agree with memory are right for every load. */
  lemma AgreeingBytesRight(g: Trace, i: nat, bytes: BM.Bytes, ranges: seq<BM.MemRange>, env: Env, s: State)
    requires WellFormed(g) && i < |g| && Promotes(g, i, bytes, ranges) && BM.Agrees(bytes, RunTo(g, i, env, s).mem)
    ensures BytesRight(g, i, bytes, env, s)
  {
    hide Step, RunTo, Resolve, Load64, Collections.Get, BM.LoadBytes, BM.InSafeRange, BM.Load, Covers;
    ResolveSound(g, g[i].operands[0], i, env, s);
    BM.LoadGet(bytes, RunTo(g, i, env, s).mem, Addr(g, i, env, s));
  }

  lemma SweepFaithful(g: Trace, i: nat, bytes: BM.Bytes, ranges: seq<BM.MemRange>, env: Env, s: State)
    requires WellFormed(g) && i < |g| && (Promotes(g, i, bytes, ranges) ==> BytesRight(g, i, bytes, env, s))
    ensures Faithful(g, i, SweepInstr(g, i, bytes, ranges), env, s)
  {
    hide Step, RunTo, Resolve, Load64, Collections.Get, BM.LoadBytes, BM.InSafeRange, BM.Load, BytesRight;
    var d, x := g[i], SweepInstr(g, i, bytes, ranges);
    if x != d {
      var a := d.operands[0];
      ResolveSound(g, a, i, env, s);
      ResolveBelow(g, a, d.resultId);
      if x.op == CONST {
        PromotedExact(g, i, bytes, ranges, env, s);
      } else {
        SameOperandsStep(d, x, env, RunTo(g, i, env, s));
      }
    }
  }

  /** What the sweep, having come to `i`, promotes there is right for the run of `g`. */
  ghost predicate RightAt(g: Trace, w: Sweep, i: nat, ranges: seq<BM.MemRange>, env: Env, s: State)
    requires WellFormed(g) && i < |g| && WellFormed(w.trace) && |w.trace| == |g|
  {
    IsLoad(g[i]) && Promotes(w.trace, i, w.bytes, ranges) ==> BytesRight(g, i, w.bytes, env, s)
  }

  ghost predicate SweepRight(g: Trace, bytes: BM.Bytes, ranges: seq<BM.MemRange>, env: Env, s: State)
    requires WellFormed(g)
  {
    forall i :: 0 <= i < |g| ==> RightAt(g, SweepTo(g, bytes, ranges, i), i, ranges, env, s)
  }

  lemma {:induction false} SweepUnvisited(g: Trace, bytes: BM.Bytes, ranges: seq<BM.MemRange>, n: nat, i: nat)
    requires WellFormed(g) && n <= i < |g|
    ensures SweepTo(g, bytes, ranges, n).trace[i] == g[i]
  {
    hide WellFormed, SweepInstr;
    if n > 0 { SweepUnvisited(g, bytes, ranges, n - 1, i); }
  }

  lemma {:induction false} SweepVisited(g: Trace, bytes: BM.Bytes, ranges: seq<BM.MemRange>, i: nat, n: nat)
    requires WellFormed(g) && i < n <= |g|
    ensures SweepTo(g, bytes, ranges, n).trace[i] == SweepTo(g, bytes, ranges, i + 1).trace[i]
  {
    hide WellFormed, SweepInstr;
    if n > i + 1 { SweepVisited(g, bytes, ranges, i, n - 1); }
  }

  /** One step of the sweep, right or not. */
  lemma RightStep(g: Trace, w: Sweep, i: nat, ranges: seq<BM.MemRange>, env: Env, s: State)
    requires WellFormed(g) && i < |g| && WellFormed(w.trace) && SameRuns(g, w.trace, env, s) && w.trace[i] == g[i]
    requires RightAt(g, w, i, ranges, env, s)
    ensures Ordered(w.trace) && Faithful(w.trace, i, SweepInstr(w.trace, i, w.bytes, ranges), env, s)
  {
    hide SweepInstr, Faithful, RunTo, Ordered, Covers, Collections.Get;
    OrderedOf(w.trace);
    assert RunTo(w.trace, i, env, s) == RunTo(g, i, env, s);
    SweepFaithful(w.trace, i, w.bytes, ranges, env, s);
  }

  lemma {:induction false} RightRuns(g: Trace, bytes: BM.Bytes, ranges: seq<BM.MemRange>, n: nat, env: Env, s: State)
    requires WellFormed(g) && n <= |g|
    requires forall i :: 0 <= i < n ==> RightAt(g, SweepTo(g, bytes, ranges, i), i, ranges, env, s)
    ensures var w := SweepTo(g, bytes, ranges, n).trace;
            SameRuns(g, w, env, s) && (Sane(g, env, s) ==> Sane(w, env, s))
  {
    hide RunTo, Sane, SweepInstr, SweepBytes, Faithful, RightAt, WellFormed;
    if n > 0 {
      RightRuns(g, bytes, ranges, n - 1, env, s);
      var w := SweepTo(g, bytes, ranges, n - 1);
      SweepUnvisited(g, bytes, ranges, n - 1, n - 1);
      RightStep(g, w, n - 1, ranges, env, s);
      var x := SweepInstr(w.trace, n - 1, w.bytes, ranges);
      forall k | 0 <= k <= |g| ensures RunTo(w.trace[n - 1 := x], k, env, s) == RunTo(g, k, env, s) {
        ReplacedRun(w.trace, n - 1, x, k, env, s);
        assert RunTo(w.trace, k, env, s) == RunTo(g, k, env, s);
      }
      if Sane(g, env, s) { ReplacedSane(w.trace, n - 1, x, env, s); }
    }
  }

  lemma RunsRight(g: Trace, bytes: BM.Bytes, ranges: seq<BM.MemRange>, i: nat, env: Env, s: State)
    requires WellFormed(g) && i < |g| && SameRuns(g, SweepTo(g, bytes, ranges, |g|).trace, env, s)
    ensures RightAt(g, SweepTo(g, bytes, ranges, i), i, ranges, env, s)
  {
    hide WellFormed, SweepInstr, SweepTo, RunTo, Step, Covers, Collections.Get;
    var w, t := SweepTo(g, bytes, ranges, i), SweepTo(g, bytes, ranges, |g|).trace;
    SweepUnvisited(g, bytes, ranges, i, i);
    SweepVisited(g, bytes, ranges, i, |g|);
    SweepNext(g, bytes, ranges, i);
    forall k | 0 <= k < i ensures t[k] == w.trace[k] {
      SweepVisited(g, bytes, ranges, k, |g|);
      SweepVisited(g, bytes, ranges, k, i);
    }
    assert t[..i] == w.trace[..i];
    RunPrefix(t, w.trace, i, env, s);
    assert RunTo(t, i, env, s) == RunTo(g, i, env, s);
    assert RunTo(t, i + 1, env, s) == RunTo(g, i + 1, env, s);
    NextState(t, i, env, s);
    NextState(g, i, env, s);
    if IsLoad(g[i]) && Promotes(w.trace, i, w.bytes, ranges) { PromotedExact(w.trace, i, w.bytes, ranges, env, s); }
  }

  lemma NextState(g: Trace, i: nat, env: Env, s: State)
    requires i < |g|
    ensures RunTo(g, i + 1, env, s) == Step(g[i], env, RunTo(g, i, env, s))
  {
    hide Step;
  }

  /** A sweep keeps every state of the run if and only if every promotion's bytes are right. */
  lemma SweepExact(g: Trace, bytes: BM.Bytes, ranges: seq<BM.MemRange>, env: Env, s: State)
    requires WellFormed(g)
    ensures SameRuns(g, SweepTo(g, bytes, ranges, |g|).trace, env, s) <==> SweepRight(g, bytes, ranges, env, s)
  {
    hide WellFormed, SweepTo, RightAt, SameRuns, Sane;
    if SweepRight(g, bytes, ranges, env, s) { RightRuns(g, bytes, ranges, |g|, env, s); }
    if SameRuns(g, SweepTo(g, bytes, ranges, |g|).trace, env, s) {
      forall i | 0 <= i < |g| ensures RightAt(g, SweepTo(g, bytes, ranges, i), i, ranges, env, s) {
        RunsRight(g, bytes, ranges, i, env, s);
      }
    }
  }

  // ----- what no pass undoes -----

  /** A constant, such as a promoted load becomes. */
  predicate Settled(d: Instruction) { d.op == CONST && |d.operands| == 1 && d.operands[0].Const? }

  lemma RewriteKeepsSettled(p: LocalPass, h: Host, g: Trace, i: nat)
    requires Ordered(g) && i < |g| && Settled(g[i])
    ensures RewriteAt(p, h, g, i) == g[i]
  {
    hide IndexMap, LastStore;
    if p == ConstPromote { assert PromoteOperands(g, g[i].operands) == g[i].operands; }
  }

  lemma ApplyKeepsSettled(p: LocalPass, h: Host, g: Trace, i: nat)
    requires WellFormed(g) && i < |g| && Settled(g[i])
    ensures Apply(p, h, g)[i] == g[i]
  {
    hide WellFormed, RewriteAt, ApplyTo;
    ApplyBefore(p, h, g, i, i);
    ApplyAfter(p, h, g, i, |g|);
    OrderedOf(ApplyTo(p, h, g, i));
    RewriteKeepsSettled(p, h, ApplyTo(p, h, g, i), i);
  }

  lemma {:induction false} TableKeepsSettled(n: nat, h: Host, g: Trace, i: nat)
    requires WellFormed(g) && n <= |FOLD_PASSES| && i < |g| && Settled(g[i])
    ensures var t := TableTrace(FOLD_PASSES, n, h, g);
            |t| == |g| && t[i] == g[i]
  {
    hide WellFormed, Apply;
    if n > 0 {
      TableKeepsSettled(n - 1, h, g, i);
      assert FOLD_PASSES[n - 1].Local?;
      ApplyKeepsSettled(FOLD_PASSES[n - 1].pass, h, TableTrace(FOLD_PASSES, n - 1, h, g), i);
    }
  }

  lemma {:induction false} RoundsKeepSettled(r: nat, h: Host, g: Trace, i: nat)
    requires WellFormed(g) && i < |g| && Settled(g[i])
    ensures var t := Rounds(FOLD_PASSES, h, g, r);
            |t| == |g| && t[i] == g[i]
    decreases r
  {
    hide WellFormed, TableTrace;
    if r > 0 {
      TableKeepsSettled(|FOLD_PASSES|, h, g, i);
      RoundsKeepSettled(r - 1, h, TableTrace(FOLD_PASSES, |FOLD_PASSES|, h, g), i);
    }
  }

  lemma FoldKeepsSettled(h: Host, g: Trace, maxIters: int, i: nat)
    requires WellFormed(g) && i < |g| && Settled(g[i])
    ensures var t := FoldConverge(h, g, maxIters).trace;
            |t| == |g| && t[i] == g[i]
  {
    hide WellFormed, Rounds, Converge;
    var r := ConvergeRounds(FOLD_PASSES, h, g, map[], 0, maxIters);
    RoundsKeepSettled(r, h, g, i);
  }

  /** Where the sweep, having come to `i`, goes on: what it makes of `i` stays. */
  lemma SweptAt(g: Trace, bytes: BM.Bytes, ranges: seq<BM.MemRange>, i: nat)
    requires WellFormed(g) && i < |g|
    ensures var w := SweepTo(g, bytes, ranges, i);
            && Ordered(w.trace) && w.trace[i] == g[i]
            && SweepTo(g, bytes, ranges, |g|).trace[i] == SweepInstr(w.trace, i, w.bytes, ranges)
  {
    hide WellFormed, SweepInstr, SweepTo, Ordered;
    SweepUnvisited(g, bytes, ranges, i, i);
    SweepVisited(g, bytes, ranges, i, |g|);
    SweepNext(g, bytes, ranges, i);
  }

  lemma SweepKeepsSettled(g: Trace, bytes: BM.Bytes, ranges: seq<BM.MemRange>, i: nat)
    requires WellFormed(g) && i < |g| && Settled(g[i])
    ensures SweepTo(g, bytes, ranges, |g|).trace[i] == g[i]
  {
    hide WellFormed, SweepTo, Resolve, BM.Load, BM.InSafeRange, Ordered;
    SweptAt(g, bytes, ranges, i);
  }

  /** `t` still has every promotion of the sweep. */
  ghost predicate KeepsPromotions(g: Trace, w: Trace, t: Trace) {
    |t| == |g| == |w| && forall i :: 0 <= i < |g| && g[i].op == LOAD && Settled(w[i]) ==> t[i] == w[i]
  }

  lemma PromotedSettled(g: Trace, i: nat, bytes: BM.Bytes, ranges: seq<BM.MemRange>)
    requires Ordered(g) && i < |g| && Promotes(g, i, bytes, ranges)
    ensures Settled(SweepInstr(g, i, bytes, ranges))
  {
    hide Resolve, BM.Load, BM.InSafeRange, Ordered;
  }

  /** A trace that still has the promotions of a sweep, and runs like the original, shows that they
      were right. */
  lemma {:induction false} KeptPromotionsRight(g: Trace, bytes: BM.Bytes, ranges: seq<BM.MemRange>, n: nat, t: Trace,
                                               env: Env, s: State)
    requires WellFormed(g) && n <= |g| && SameRuns(g, t, env, s)
    requires KeepsPromotions(g, SweepTo(g, bytes, ranges, |g|).trace, t)
    ensures forall i :: 0 <= i < n ==> RightAt(g, SweepTo(g, bytes, ranges, i), i, ranges, env, s)
  {
    hide WellFormed, SweepInstr, SweepTo, RunTo, Step, BytesRight, Ordered, Sane;
    if n > 0 {
      var i := n - 1;
      KeptPromotionsRight(g, bytes, ranges, i, t, env, s);
      RightRuns(g, bytes, ranges, i, env, s);
      var w := SweepTo(g, bytes, ranges, i);
      SweptAt(g, bytes, ranges, i);
      if IsLoad(g[i]) && Promotes(w.trace, i, w.bytes, ranges) {
        PromotedSettled(w.trace, i, w.bytes, ranges);
        NextState(t, i, env, s);
        NextState(g, i, env, s);
        assert RunTo(w.trace, i, env, s) == RunTo(g, i, env, s);
        assert RunTo(t, i, env, s) == RunTo(g, i, env, s) && RunTo(t, n, env, s) == RunTo(g, n, env, s);
        PromotedExact(w.trace, i, w.bytes, ranges, env, s);
        BytesRightStill(g, w.trace, i, w.bytes, env, s);
      }
    }
  }

  // ----- bytes that agree with memory -----

  /** At every step of the sweep, a store that is not replayed and a call leave the known
      bytes alone. */
  ghost predicate KnownBytesSafe(g: Trace, bytes: BM.Bytes, ranges: seq<BM.MemRange>, env: Env, s: State)
    requires WellFormed(g)
  {
    forall i :: 0 <= i < |g| ==> UntouchedAt(g, SweepTo(g, bytes, ranges, i), i, ranges, env, s)
  }

  ghost predicate UntouchedAt(g: Trace, w: Sweep, i: nat, ranges: seq<BM.MemRange>, env: Env, s: State)
    requires WellFormed(g) && i < |g| && WellFormed(w.trace) && |w.trace| == |g|
  {
    && (IsStore(g[i]) && Replayed(w.trace, i, ranges).None? ==>
          forall x :: Covers(Addr(g, i, env, s), x) ==> Collections.Get(w.bytes, x).None?)
    && (g[i].op == CALL ==>
          forall x :: Collections.Get(w.bytes, x).Some? ==>
            RunTo(g, i + 1, env, s).mem(x) == RunTo(g, i, env, s).mem(x))
  }

  lemma SweepAgrees(g: Trace, i: nat, bytes: BM.Bytes, ranges: seq<BM.MemRange>, env: Env, s: State)
    requires WellFormed(g) && i < |g| && BM.Agrees(bytes, RunTo(g, i, env, s).mem)
    requires UntouchedAt(g, Sweep(g, bytes), i, ranges, env, s)
    ensures BM.Agrees(SweepBytes(g, i, bytes, ranges), RunTo(g, i + 1, env, s).mem)
  {
    hide Step, Resolve, Load64, Store64, Collections.Get, BM.Store, BM.InSafeRange, Covers;
    var d, t := g[i], RunTo(g, i, env, s);
    if IsStore(d) {
      StoreStep(d, env, t);
      var a, v := Eval(d.operands[0], env, t.vals), Eval(d.operands[1], env, t.vals);
      ResolveSound(g, d.operands[0], i, env, s);
      ResolveSound(g, d.operands[1], i, env, s);
      if Replayed(g, i, ranges).Some? {
        BM.AgreesAfterStore(bytes, t.mem, a, v);
      } else {
        forall x | Collections.Get(bytes, x).Some? ensures Store64(t.mem, a, v)(x) == t.mem(x) {
          StoreElsewhere(t.mem, a, v, x);
        }
      }
    } else if d.op != CALL {
      QuietStep(d, env, t);
    }
  }

  /** Everything that happens at position `i` of the swept trace happened there before. */
  lemma UntouchedStill(g: Trace, w: Sweep, i: nat, ranges: seq<BM.MemRange>, env: Env, s: State)
    requires WellFormed(g) && WellFormed(w.trace) && i < |g| && SameRuns(g, w.trace, env, s)
    requires w.trace[i] == g[i] && UntouchedAt(g, w, i, ranges, env, s)
    ensures UntouchedAt(w.trace, w, i, ranges, env, s)
  {
    hide RunTo, Resolve, Ordered, Covers, Collections.Get;
  }

  /** One step from bytes that agree with memory. */
  lemma SoundStep(g: Trace, w: Sweep, i: nat, ranges: seq<BM.MemRange>, env: Env, s: State)
    requires WellFormed(g) && i < |g| && WellFormed(w.trace) && SameRuns(g, w.trace, env, s) && w.trace[i] == g[i]
    requires UntouchedAt(g, w, i, ranges, env, s) && BM.Agrees(w.bytes, RunTo(g, i, env, s).mem)
    ensures RightAt(g, w, i, ranges, env, s)
    ensures Ordered(w.trace) && BM.Agrees(SweepBytes(w.trace, i, w.bytes, ranges), RunTo(g, i + 1, env, s).mem)
  {
    hide RunTo, BM.Agrees, SweepInstr, SweepBytes, UntouchedAt, WellFormed, BytesRight;
    OrderedOf(w.trace);
    UntouchedStill(g, w, i, ranges, env, s);
    assert RunTo(w.trace, i, env, s) == RunTo(g, i, env, s);
    assert RunTo(w.trace, i + 1, env, s) == RunTo(g, i + 1, env, s);
    if IsLoad(g[i]) && Promotes(w.trace, i, w.bytes, ranges) {
      AgreeingBytesRight(w.trace, i, w.bytes, ranges, env, s);
      BytesRightStill(g, w.trace, i, w.bytes, env, s);
    }
    SweepAgrees(w.trace, i, w.bytes, ranges, env, s);
  }

  lemma {:induction false} SweepSound(g: Trace, bytes: BM.Bytes, ranges: seq<BM.MemRange>, n: nat, env: Env, s: State)
    requires WellFormed(g) && n <= |g| && BM.Agrees(bytes, s.mem) && KnownBytesSafe(g, bytes, ranges, env, s)
    ensures forall i :: 0 <= i < n ==> RightAt(g, SweepTo(g, bytes, ranges, i), i, ranges, env, s)
    ensures BM.Agrees(SweepTo(g, bytes, ranges, n).bytes, RunTo(g, n, env, s).mem)
  {
    hide RunTo, BM.Agrees, Sane, SweepInstr, SweepBytes, UntouchedAt, WellFormed, RightAt, SameRuns;
    if n == 0 {
      RunNone(g, env, s);
    } else {
      SweepSound(g, bytes, ranges, n - 1, env, s);
      RightRuns(g, bytes, ranges, n - 1, env, s);
      SweepUnvisited(g, bytes, ranges, n - 1, n - 1);
      SoundStep(g, SweepTo(g, bytes, ranges, n - 1), n - 1, ranges, env, s);
    }
  }

  lemma BytesRightStill(g: Trace, t: Trace, i: nat, bytes: BM.Bytes, env: Env, s: State)
    requires i < |g| == |t| && g[i] == t[i] && IsLoad(g[i]) && RunTo(t, i, env, s) == RunTo(g, i, env, s)
    requires BytesRight(t, i, bytes, env, s)
    ensures BytesRight(g, i, bytes, env, s)
  {
    hide RunTo, Covers, Collections.Get;
  }

  lemma RunNone(g: Trace, env: Env, s: State)
    ensures RunTo(g, 0, env, s) == s
  {}

  /** Starting from bytes that agree with the initial memory, one sweep changes no state of
      the run, and its final bytes agree with the final memory. */
  lemma SweepPreservesRuns(g: Trace, bytes: BM.Bytes, ranges: seq<BM.MemRange>, env: Env, s: State)
    requires WellFormed(g) && BM.Agrees(bytes, s.mem) && KnownBytesSafe(g, bytes, ranges, env, s)
    ensures var w := SweepTo(g, bytes, ranges, |g|);
            && SameRuns(g, w.trace, env, s) && SweepRight(g, bytes, ranges, env, s)
            && BM.Agrees(w.bytes, Run(g, env, s).mem)
            && (Sane(g, env, s) ==> Sane(w.trace, env, s))
  {
    hide RunTo, Sane, SweepTo, KnownBytesSafe, RightAt, BM.Agrees;
    SweepSound(g, bytes, ranges, |g|, env, s);
    RightRuns(g, bytes, ranges, |g|, env, s);
  }

  // ----- the source's loops -----

  /** Some load became a constant. */
  predicate Hit(g: Trace, r: Trace)
    requires |g| == |r|
  {
    exists i :: 0 <= i < |g| && g[i].op == LOAD && r[i].op == CONST
  }

  method SweepLoads(f: Function, memory: BM.ByteMemory) returns (promoted: bool)
    requires WellFormed(f.instrs)
    modifies f`instrs, memory`bytes
    ensures Sweep(f.instrs, memory.bytes)
         == SweepTo(old(f.instrs), old(memory.bytes), memory.safeRanges, |old(f.instrs)|)
    ensures promoted <==> Hit(old(f.instrs), f.instrs)
  {
    hide IndexMap, WellFormed, SweepTo, SweepInstr, SweepBytes, HitBefore, Hit;
    ghost var g, b := f.instrs, memory.bytes;
    HitEnds(g);
    var im := Passes.BuildInstrMap(f.instrs);
    promoted := false;
    SweepStart(g, b, memory.safeRanges);
    for i := 0 to |f.instrs|
      invariant |f.instrs| == |g|
      invariant Sweep(f.instrs, memory.bytes) == SweepTo(g, b, memory.safeRanges, i)
      invariant im == IndexMap(f.instrs)
      invariant promoted <==> HitBefore(g, f.instrs, i)
    {
      SweepUnvisited(g, b, memory.safeRanges, i, i);
      SweepNext(g, b, memory.safeRanges, i);
      ghost var r := f.instrs;
      var x, hit := SweepOne(f.instrs, i, im, memory);
      f.instrs := f.instrs[i := x];
      promoted := promoted || hit;
      HitNext(g, r, i, x);
      IndexMapSameIds(r, f.instrs);
    }
  }

  /** Some load among the first `n` became a constant. */
  predicate HitBefore(g: Trace, r: Trace, n: nat)
    requires n <= |g| == |r|
  {
    exists k :: 0 <= k < n && g[k].op == LOAD && r[k].op == CONST
  }

  lemma HitEnds(g: Trace)
    ensures !HitBefore(g, g, 0)
    ensures forall r: Trace :: |r| == |g| ==> (HitBefore(g, r, |g|) <==> Hit(g, r))
  {}

  lemma HitNext(g: Trace, r: Trace, i: nat, x: Instruction)
    requires i < |g| == |r|
    ensures HitBefore(g, r[i := x], i + 1) <==> HitBefore(g, r, i) || (g[i].op == LOAD && x.op == CONST)
  {
    var t := r[i := x];
    if k :| 0 <= k < i && g[k].op == LOAD && r[k].op == CONST { assert t[k].op == CONST; }
    if k :| 0 <= k < i + 1 && g[k].op == LOAD && t[k].op == CONST { if k < i { assert r[k].op == CONST; } }
    assert t[i] == x;
  }

  lemma SweepStart(g: Trace, bytes: BM.Bytes, ranges: seq<BM.MemRange>)
    requires WellFormed(g)
    ensures SweepTo(g, bytes, ranges, 0) == Sweep(g, bytes)
  {}

  lemma SweepNext(g: Trace, bytes: BM.Bytes, ranges: seq<BM.MemRange>, i: nat)
    requires WellFormed(g) && i < |g|
    ensures var w := SweepTo(g, bytes, ranges, i);
            && Ordered(w.trace)
            && SweepTo(g, bytes, ranges, i + 1)
            == Sweep(w.trace[i := SweepInstr(w.trace, i, w.bytes, ranges)], SweepBytes(w.trace, i, w.bytes, ranges))
  {
    hide SweepInstr, SweepBytes, WellFormed;
    OrderedOf(SweepTo(g, bytes, ranges, i).trace);
  }

  /** The body of the loop. */
  method SweepOne(instrs: Trace, i: nat, im: map<nat, nat>, memory: BM.ByteMemory)
    returns (instr: Instruction, hit: bool)
    requires Ordered(instrs) && i < |instrs| && im == IndexMap(instrs)
    modifies memory`bytes
    ensures instr == SweepInstr(instrs, i, old(memory.bytes), memory.safeRanges) && instr.resultId == instrs[i].resultId
    ensures memory.bytes == SweepBytes(instrs, i, old(memory.bytes), memory.safeRanges)
    ensures hit <==> instrs[i].op == LOAD && instr.op == CONST
  {
    hide IndexMap, Resolve, Ordered, BM.Store, BM.Load, BM.InSafeRange;
    instr := instrs[i];
    hit := false;
    if instr.op == STORE && |instr.operands| >= 2 {
      var a := Passes.ResolveOperand(instr.operands[0], im, instrs);
      var v := Passes.ResolveOperand(instr.operands[1], im, instrs);
      if a.Const? && v.Const? {
        var safe := memory.IsSafe(a.value);
        if safe { memory.StoreU64(a.value, v.value); }
      }
    }
    if instr.op == LOAD && |instr.operands| > 0 {
      var addr := instr.operands[0];
      if addr.Const? { ResolveConst(instrs, addr); }
      if !addr.Const? {
        addr := Passes.ResolveOperand(addr, im, instrs);
        if addr.Const? { instr := instr.(operands := instr.operands[0 := addr]); }
      }
      assert instrs[i].operands[0 := instrs[i].operands[0]] == instrs[i].operands;
      if addr.Const? {
        var safe := memory.IsSafe(addr.value);
        if safe {
          var val := memory.LoadU64(addr.value);
          if val.Some? {
            instr := Promoted(instr, val.value);
            hit := true;
          }
        }
      }
    }
  }

  lemma ResolveConst(g: Trace, v: Value)
    requires Ordered(g) && v.Const?
    ensures Resolve(g, v) == v
  {}

  /** `promote_and_optimize`: sweep and fold, at most `rounds` times, while sweeps promote. */
  function Optimize(h: Host, g: Trace, bytes: BM.Bytes, ranges: seq<BM.MemRange>, rounds: nat): (r: Sweep)
    requires WellFormed(g)
    ensures WellFormed(r.trace)
    decreases rounds
  {
    hide WellFormed;
    if rounds == 0 then Sweep(g, bytes)
    else
      var w := SweepTo(g, bytes, ranges, |g|);
      var t := FoldConverge(h, w.trace, 8).trace;
      if Hit(g, w.trace) then Optimize(h, t, w.bytes, ranges, rounds - 1) else Sweep(t, w.bytes)
  }

  method PromoteAndOptimize(f: Function, memory: BM.ByteMemory, h: Host)
    requires WellFormed(f.instrs)
    modifies f`instrs, memory`bytes
    ensures Sweep(f.instrs, memory.bytes) == Optimize(h, old(f.instrs), old(memory.bytes), memory.safeRanges, 3)
  {
    hide WellFormed, SweepTo, FoldConverge, Hit;
    ghost var g, b := f.instrs, memory.bytes;
    for round := 0 to 3
      invariant WellFormed(f.instrs)
      invariant Optimize(h, g, b, memory.safeRanges, 3)
             == Optimize(h, f.instrs, memory.bytes, memory.safeRanges, 3 - round)
    {
      var promoted := SweepLoads(f, memory);
      Vjcc.FoldConvergeInPlace(f, h, 8);
      if !promoted { break; }
    }
  }

  /** In every round that is run, every promotion's bytes are right. */
  ghost predicate RoundsRight(h: Host, g: Trace, bytes: BM.Bytes, ranges: seq<BM.MemRange>, rounds: nat, env: Env,
                              s: State)
    requires WellFormed(g)
    decreases rounds
  {
    hide WellFormed;
    rounds > 0 ==>
      && SweepRight(g, bytes, ranges, env, s)
      && var w := SweepTo(g, bytes, ranges, |g|);
         Hit(g, w.trace) ==> RoundsRight(h, FoldConverge(h, w.trace, 8).trace, w.bytes, ranges, rounds - 1, env, s)
  }

  /** Promotion and folding together preserve every state of the run. */
  lemma {:induction false} OptimizePreservesRuns(h: Host, g: Trace, bytes: BM.Bytes, ranges: seq<BM.MemRange>,
                                                 rounds: nat, env: Env, s: State)
    requires Sane(g, env, s) && RoundsRight(h, g, bytes, ranges, rounds, env, s)
    ensures SameRuns(g, Optimize(h, g, bytes, ranges, rounds).trace, env, s)
    ensures Sane(Optimize(h, g, bytes, ranges, rounds).trace, env, s)
    decreases rounds
  {
    hide Sane, RunTo, SweepTo, FoldConverge, Hit, RightAt;
    SaneFacts(g, env, s);
    if rounds > 0 {
      RightRuns(g, bytes, ranges, |g|, env, s);
      var w := SweepTo(g, bytes, ranges, |g|);
      FoldConvergePreservesRuns(h, w.trace, 8, env, s);
      var t := FoldConverge(h, w.trace, 8).trace;
      RunsCompose(g, w.trace, t, env, s);
      if Hit(g, w.trace) {
        OptimizePreservesRuns(h, t, w.bytes, ranges, rounds - 1, env, s);
        RunsCompose(g, t, Optimize(h, g, bytes, ranges, rounds).trace, env, s);
      }
    }
  }

  lemma {:induction false} OptimizeKeepsSettled(h: Host, g: Trace, bytes: BM.Bytes, ranges: seq<BM.MemRange>,
                                                rounds: nat, i: nat)
    requires WellFormed(g) && i < |g| && Settled(g[i])
    ensures var t := Optimize(h, g, bytes, ranges, rounds).trace;
            |t| == |g| && t[i] == g[i]
    decreases rounds
  {
    hide WellFormed, SweepTo, FoldConverge, Hit;
    if rounds > 0 {
      var w := SweepTo(g, bytes, ranges, |g|);
      SweepKeepsSettled(g, bytes, ranges, i);
      FoldKeepsSettled(h, w.trace, 8, i);
      var t := FoldConverge(h, w.trace, 8).trace;
      if Hit(g, w.trace) { OptimizeKeepsSettled(h, t, w.bytes, ranges, rounds - 1, i); }
    }
  }

  /** Whatever follows, the result has the promotions of the first sweep. */
  lemma OptimizeKeepsPromotions(h: Host, g: Trace, bytes: BM.Bytes, ranges: seq<BM.MemRange>, rounds: nat)
    requires WellFormed(g) && rounds > 0 && |Optimize(h, g, bytes, ranges, rounds).trace| == |g|
    ensures KeepsPromotions(g, SweepTo(g, bytes, ranges, |g|).trace, Optimize(h, g, bytes, ranges, rounds).trace)
  {
    hide WellFormed, SweepTo, FoldConverge, Hit;
    var w := SweepTo(g, bytes, ranges, |g|);
    forall i | 0 <= i < |g| && g[i].op == LOAD && Settled(w.trace[i])
      ensures Optimize(h, g, bytes, ranges, rounds).trace[i] == w.trace[i]
    {
      FoldKeepsSettled(h, w.trace, 8, i);
      if Hit(g, w.trace) { OptimizeKeepsSettled(h, FoldConverge(h, w.trace, 8).trace, w.bytes, ranges, rounds - 1, i); }
    }
  }

  /** A wrong promotion is never undone. */
  lemma {:induction false} OptimizeNeedsRight(h: Host, g: Trace, bytes: BM.Bytes, ranges: seq<BM.MemRange>, rounds: nat,
                                              env: Env, s: State)
    requires Sane(g, env, s) && WellFormed(g) && SameRuns(g, Optimize(h, g, bytes, ranges, rounds).trace, env, s)
    ensures RoundsRight(h, g, bytes, ranges, rounds, env, s)
    decreases rounds
  {
    hide Sane, RunTo, SweepTo, FoldConverge, Hit, RightAt, WellFormed, KeepsPromotions;
    if rounds > 0 {
      var last := Optimize(h, g, bytes, ranges, rounds).trace;
      OptimizeKeepsPromotions(h, g, bytes, ranges, rounds);
      KeptPromotionsRight(g, bytes, ranges, |g|, last, env, s);
      RightRuns(g, bytes, ranges, |g|, env, s);
      var w := SweepTo(g, bytes, ranges, |g|);
      FoldConvergePreservesRuns(h, w.trace, 8, env, s);
      var t := FoldConverge(h, w.trace, 8).trace;
      RunsCompose(g, w.trace, t, env, s);
      if Hit(g, w.trace) {
        RunsMeet(g, t, last, env, s);
        OptimizeNeedsRight(h, t, w.bytes, ranges, rounds - 1, env, s);
      }
    }
  }

  lemma RunsMeet(g: Trace, r: Trace, t: Trace, env: Env, s: State)
    requires SameRuns(g, r, env, s) && SameRuns(g, t, env, s)
    ensures SameRuns(r, t, env, s)
  {
    hide RunTo;
    forall n | 0 <= n <= |r| ensures RunTo(t, n, env, s) == RunTo(r, n, env, s) {
      assert RunTo(r, n, env, s) == RunTo(g, n, env, s);
      assert RunTo(t, n, env, s) == RunTo(g, n, env, s);
    }
  }

  /** Promotion and folding together keep every state of a sane run if and only if in every round
      that is run every promotion's bytes are right. */
  lemma OptimizeExact(h: Host, g: Trace, bytes: BM.Bytes, ranges: seq<BM.MemRange>, rounds: nat, env: Env, s: State)
    requires Sane(g, env, s)
    ensures WellFormed(g)
    ensures SameRuns(g, Optimize(h, g, bytes, ranges, rounds).trace, env, s)
       <==> RoundsRight(h, g, bytes, ranges, rounds, env, s)
  {
    hide Sane, SameRuns, Optimize, RoundsRight;
    SaneFacts(g, env, s);
    if RoundsRight(h, g, bytes, ranges, rounds, env, s) { OptimizePreservesRuns(h, g, bytes, ranges, rounds, env, s); }
    if SameRuns(g, Optimize(h, g, bytes, ranges, rounds).trace, env, s) {
      OptimizeNeedsRight(h, g, bytes, ranges, rounds, env, s);
    }
  }
}
