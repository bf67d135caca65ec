/** What a promotion sweep does with every load and store, and how sweeps and folding alternate. */
module Sweeps {
  import opened Ir
  import opened Arithmetic
  import opened Machine
  import opened References
  import opened Rewrites
  import opened Convergence
  import opened Promotion
  import BM = ByteMemory
  import Collections

  // ----- known bytes -----

  /** Some range starts at or before the address and ends after it. */
  ghost predicate InRange(ranges: seq<BM.MemRange>, a: Word) {
    exists i :: 0 <= i < |ranges| && ranges[i].start <= a < ranges[i].end
  }

  /** All eight bytes at the address are known. */
  ghost predicate Held(bytes: BM.Bytes, a: Word) { forall x :: Covers(a, x) ==> Collections.Get(bytes, x).Some? }

  /** What a load reads from memory that holds the known bytes. */
  ghost function HeldWord(bytes: BM.Bytes, a: Word): Word { Load64((x: Word) => BM.Known(bytes, x), a) }

  lemma LoadHeld(bytes: BM.Bytes, a: Word)
    ensures BM.Load(bytes, a) == if Held(bytes, a) then Some(HeldWord(bytes, a)) else None
  {
    hide BM.Load, Load64, Collections.Get, Covers;
    BM.KnownGet(bytes);
    BM.LoadGet(bytes, (x: Word) => BM.Known(bytes, x), a);
  }

  lemma RangeSafe(ranges: seq<BM.MemRange>, a: Word)
    ensures BM.InSafeRange(ranges, a) <==> InRange(ranges, a)
  {
    if InRange(ranges, a) {
      var i :| 0 <= i < |ranges| && ranges[i].start <= a < ranges[i].end;
      assert ranges[i].Contains(a);
    }
    if BM.InSafeRange(ranges, a) {
      var i :| 0 <= i < |ranges| && ranges[i].Contains(a);
      assert ranges[i].start <= a < ranges[i].end;
    }
  }

  // ----- one instruction -----

  /** What the sweep makes of `d`, having come to it with the trace `t` and the bytes `bytes`: a load whose
      address is or refers to a safe constant all of whose bytes are held becomes the value they hold;
      with any other constant address it keeps the constant; anything else stays. */
  ghost predicate SweptAs(t: Trace, bytes: BM.Bytes, ranges: seq<BM.MemRange>, d: Instruction, x: Instruction)
    requires Ordered(t)
  {
    if d.op == LOAD && |d.operands| > 0 && Resolve(t, d.operands[0]).Const? then
      var a := Resolve(t, d.operands[0]);
      if InRange(ranges, a.value) && Held(bytes, a.value)
      then x == Instruction(CONST, [Const(HeldWord(bytes, a.value), 64)], d.resultId,
                            d.annotations["promoted_from" := "safe_mem"]["vm_private" := "1"])
      else x == d.(operands := d.operands[0 := a])
    else x == d
  }

  lemma SweepInstrAs(g: Trace, i: nat, bytes: BM.Bytes, ranges: seq<BM.MemRange>)
    requires Ordered(g) && i < |g|
    ensures SweptAs(g, bytes, ranges, g[i], SweepInstr(g, i, bytes, ranges))
  {
    hide Resolve, BM.Load, BM.InSafeRange, InRange, Held, HeldWord, Ordered;
    if g[i].op == LOAD && |g[i].operands| > 0 && Resolve(g, g[i].operands[0]).Const? {
      var a := Resolve(g, g[i].operands[0]).value;
      LoadHeld(bytes, a);
      RangeSafe(ranges, a);
    }
  }

  /** The store at `j` of the sweep writes `v` to `a`: both resolve to constants, `a` to a safe one. */
  ghost predicate Replays(g: Trace, bytes: BM.Bytes, ranges: seq<BM.MemRange>, j: nat, a: Word, v: Word)
    requires WellFormed(g) && j < |g|
  {
    var t := SweepTo(g, bytes, ranges, j).trace;
    && g[j].op == STORE && |g[j].operands| >= 2 && Ordered(t)
    && var x, y := Resolve(t, g[j].operands[0]), Resolve(t, g[j].operands[1]);
       x.Const? && y.Const? && x.value == a && y.value == v && InRange(ranges, a)
  }

  lemma ReplayedExact(g: Trace, bytes: BM.Bytes, ranges: seq<BM.MemRange>, j: nat, a: Word, v: Word)
    requires WellFormed(g) && j < |g|
    ensures var w := SweepTo(g, bytes, ranges, j);
            && Ordered(w.trace) && w.trace[j] == g[j]
            && (Replays(g, bytes, ranges, j, a, v) <==> Replayed(w.trace, j, ranges) == Some((a, v)))
  {
    hide Resolve, WellFormed, SweepTo, BM.InSafeRange, InRange;
    SweptAt(g, bytes, ranges, j);
    RangeSafe(ranges, a);
  }

  /** No store from `m` to `n` that the sweep replays covers the byte `x`. */
  ghost predicate Unwritten(g: Trace, bytes: BM.Bytes, ranges: seq<BM.MemRange>, m: nat, n: nat, x: Word)
    requires WellFormed(g) && n <= |g|
  {
    forall j, a, v :: m <= j < n && Replays(g, bytes, ranges, j, a, v) ==> !Covers(a, x)
  }

  lemma ByteKept(g: Trace, bytes: BM.Bytes, ranges: seq<BM.MemRange>, i: nat, x: Word)
    requires WellFormed(g) && i < |g|
    requires forall a, v :: Replays(g, bytes, ranges, i, a, v) ==> !Covers(a, x)
    ensures Collections.Get(SweepTo(g, bytes, ranges, i + 1).bytes, x)
         == Collections.Get(SweepTo(g, bytes, ranges, i).bytes, x)
  {
    hide WellFormed, SweepTo, SweepInstr, Replays, Replayed, Covers, Store64, BM.Store, Collections.Get;
    var w := SweepTo(g, bytes, ranges, i);
    SweepNext(g, bytes, ranges, i);
    var r := Replayed(w.trace, i, ranges);
    if r.Some? {
      ReplayedExact(g, bytes, ranges, i, r.value.0, r.value.1);
      BM.StoreGet(w.bytes, y => 0, r.value.0, r.value.1, x);
    }
  }

  lemma ByteWritten(g: Trace, bytes: BM.Bytes, ranges: seq<BM.MemRange>, i: nat, a: Word, v: Word, x: Word, mem: Memory)
    requires WellFormed(g) && i < |g| && Replays(g, bytes, ranges, i, a, v) && Covers(a, x)
    ensures Collections.Get(SweepTo(g, bytes, ranges, i + 1).bytes, x) == Some(Store64(mem, a, v)(x))
  {
    hide WellFormed, SweepTo, SweepInstr, Replays, Replayed, Covers, Store64, BM.Store, Collections.Get;
    SweepNext(g, bytes, ranges, i);
    ReplayedExact(g, bytes, ranges, i, a, v);
    BM.StoreGet(SweepTo(g, bytes, ranges, i).bytes, mem, a, v, x);
  }

  /** A known byte when the sweep has come to `n`: if no replayed store covers it, what it was when the
      sweep came to `m`. */
  lemma {:induction false} UnwrittenByte(g: Trace, bytes: BM.Bytes, ranges: seq<BM.MemRange>, m: nat, n: nat, x: Word)
    requires WellFormed(g) && m <= n <= |g| && Unwritten(g, bytes, ranges, m, n, x)
    ensures Collections.Get(SweepTo(g, bytes, ranges, n).bytes, x)
         == Collections.Get(SweepTo(g, bytes, ranges, m).bytes, x)
    decreases n
  {
    hide WellFormed, SweepTo, Replays, Covers, Collections.Get;
    if m < n {
      UnwrittenByte(g, bytes, ranges, m, n - 1, x);
      ByteKept(g, bytes, ranges, n - 1, x);
    }
  }

  /** The bytes that a load at `n` may be promoted from: those known before the sweep, except where a
      replayed store covers them; there, what the last such store wrote. */
  lemma SweptBytes(g: Trace, bytes: BM.Bytes, ranges: seq<BM.MemRange>, n: nat, x: Word)
    requires WellFormed(g) && n <= |g|
    ensures Unwritten(g, bytes, ranges, 0, n, x) ==>
              Collections.Get(SweepTo(g, bytes, ranges, n).bytes, x) == Collections.Get(bytes, x)
    ensures forall j, a, v, mem ::
              (0 <= j < n && Replays(g, bytes, ranges, j, a, v) && Covers(a, x)
               && Unwritten(g, bytes, ranges, j + 1, n, x)) ==>
                Collections.Get(SweepTo(g, bytes, ranges, n).bytes, x) == Some(Store64(mem, a, v)(x))
  {
    hide WellFormed, SweepTo, Unwritten, Replays, Covers, Store64, Collections.Get;
    SweepStart(g, bytes, ranges);
    if Unwritten(g, bytes, ranges, 0, n, x) { UnwrittenByte(g, bytes, ranges, 0, n, x); }
    forall j, a, v, mem | 0 <= j < n && Replays(g, bytes, ranges, j, a, v) && Covers(a, x)
                          && Unwritten(g, bytes, ranges, j + 1, n, x)
      ensures Collections.Get(SweepTo(g, bytes, ranges, n).bytes, x) == Some(Store64(mem, a, v)(x))
    {
      ByteWritten(g, bytes, ranges, j, a, v, x, mem);
      UnwrittenByte(g, bytes, ranges, j + 1, n, x);
    }
  }

  /** A sweep makes of every instruction what `SweptAs` says, with the trace and the bytes as they are
      when it arrives there. */
  lemma SweptExactly(g: Trace, bytes: BM.Bytes, ranges: seq<BM.MemRange>, i: nat) returns (t: Trace)
    requires WellFormed(g) && i < |g|
    ensures var w := SweepTo(g, bytes, ranges, |g|).trace;
            && Ordered(t) && |t| == |g| == |w| && t[..i] == w[..i] && t[i..] == g[i..]
            && SweptAs(t, SweepTo(g, bytes, ranges, i).bytes, ranges, g[i], w[i])
  {
    hide WellFormed, SweepInstr, SweepTo, Ordered, SweptAs;
    t := SweepTo(g, bytes, ranges, i).trace;
    SweptAt(g, bytes, ranges, i);
    SweepInstrAs(t, i, SweepTo(g, bytes, ranges, i).bytes, ranges);
    forall k | i <= k < |g| ensures t[k] == g[k] { SweepUnvisited(g, bytes, ranges, i, k); }
    forall k | 0 <= k < i ensures t[k] == SweepTo(g, bytes, ranges, |g|).trace[k] {
      SweepVisited(g, bytes, ranges, k, i);
      SweepVisited(g, bytes, ranges, k, |g|);
    }
  }

  // ----- rounds -----

  /** Some load of `g` is a constant in `r`. */
  ghost predicate SomePromoted(g: Trace, r: Trace) {
    exists i :: 0 <= i < |g| && i < |r| && g[i].op == LOAD && r[i].op == CONST
  }

  /** One round: a sweep from `from`, then at most eight rounds of folding. */
  ghost predicate SweptThenFolded(h: Host, ranges: seq<BM.MemRange>, from: Sweep, to: Sweep) {
    && WellFormed(from.trace)
    && var w := SweepTo(from.trace, from.bytes, ranges, |from.trace|);
       to == Sweep(FoldConverge(h, w.trace, 8).trace, w.bytes)
  }

  ghost predicate Promoting(ranges: seq<BM.MemRange>, from: Sweep) {
    && WellFormed(from.trace)
    && SomePromoted(from.trace, SweepTo(from.trace, from.bytes, ranges, |from.trace|).trace)
  }

  /** `promote_and_optimize` makes such rounds, one at least, as long as the last one promoted a load and
      the limit allows it. */
  lemma {:induction false} OptimizeRounds(h: Host, g: Trace, bytes: BM.Bytes, ranges: seq<BM.MemRange>, rounds: nat)
    returns (s: seq<Sweep>)
    requires WellFormed(g)
    ensures 0 < |s| <= rounds + 1 && s[0] == Sweep(g, bytes) && s[|s| - 1] == Optimize(h, g, bytes, ranges, rounds)
    ensures forall k :: 0 <= k < |s| - 1 ==> SweptThenFolded(h, ranges, s[k], s[k + 1])
    ensures forall k :: 0 <= k < |s| - 2 ==> Promoting(ranges, s[k])
    ensures |s| - 1 < rounds ==> |s| > 1 && !Promoting(ranges, s[|s| - 2])
    decreases rounds
  {
    hide WellFormed, SweepTo, FoldConverge;
    s := [Sweep(g, bytes)];
    if rounds > 0 {
      var w := SweepTo(g, bytes, ranges, |g|);
      var t := FoldConverge(h, w.trace, 8).trace;
      if Hit(g, w.trace) {
        var rest := OptimizeRounds(h, t, w.bytes, ranges, rounds - 1);
        s := s + rest;
      } else {
        s := s + [Sweep(t, w.bytes)];
      }
    }
  }
}
