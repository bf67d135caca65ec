/** Where the passes and the recovery are exact, and concrete inputs that show the hypotheses of
    the meaning theorems are needed. */
module Limits {
  import opened Ir
  import opened Machine
  import opened References
  import opened Rewrites
  import opened Meaning
  import opened Arithmetic
  import opened Convergence
  import opened PlainTraces
  import BM = ByteMemory
  import Promotion

  // ----- store-to-load forwarding -----

  /** A forwarded load takes its value from the last store under the load's key, and that is
      right exactly when nothing in between has changed the bytes which that store wrote. */
  lemma ForwardExact(g: Trace, j: nat, env: Env, s: State) returns (i: nat)
    requires WellFormed(g) && j < |g| && Forward(g, j).op != LOAD && g[j].op == LOAD
    ensures i < j && IsStore(g[i]) && AddrKey(g[i].operands[0]) == AddrKey(g[j].operands[0])
    ensures forall m :: i < m < j && IsStore(g[m]) ==> AddrKey(g[m].operands[0]) != AddrKey(g[j].operands[0])
    ensures Step(Forward(g, j), env, RunTo(g, j, env, s)) == Step(g[j], env, RunTo(g, j, env, s))
       <==> forall x: Word :: Covers(Addr(g, j, env, s), x) ==>
         RunTo(g, j, env, s).mem(x) == RunTo(g, i + 1, env, s).mem(x)
  {
    hide Step, Load64, Store64, LastStore, Covers;
    var d, x, t := g[j], Forward(g, j), RunTo(g, j, env, s);
    i := LastStoreAt(g, j, AddrKey(d.operands[0]));
    OperandStable(g, g[i].operands[0], i, j, env, s);
    OperandStable(g, g[i].operands[1], i, j, env, s);
    KeyValue(g[i].operands[0], d.operands[0], env, t.vals);
    LoadStep(d, env, t);
    StepPure(x, env, t);
    var r := RunTo(g, i, env, s);
    StoreStep(g[i], env, r);
    LoadStored(r.mem, Addr(g, i, env, s), Eval(g[i].operands[1], env, r.vals));
    LoadExact(t.mem, RunTo(g, i + 1, env, s).mem, Addr(g, j, env, s));
    assert Step(x, env, t).vals[d.resultId] == Eval(g[i].operands[1], env, t.vals);
  }

  const OVERLAPPING: Trace := [
    Instruction(STORE, [Const64(0), Const64(1)], 0, map[]),
    Instruction(STORE, [Const64(4), Const64(2)], 1, map[]),
    Instruction(LOAD, [Const64(0)], 2, map[])]

  /** Accesses that overlap under different keys are not seen: the pass replaces the load by the
      value of the first store, although the second has overwritten half of it. */
  lemma OverlapBreaksForwarding(env: Env, s: State)
    ensures WellFormed(OVERLAPPING)
    ensures Forward(OVERLAPPING, 2) == Instruction(CONST, [Const64(1)], 2, map["forwarded" := "1"])
    ensures Step(Forward(OVERLAPPING, 2), env, RunTo(OVERLAPPING, 2, env, s))
         != Step(OVERLAPPING[2], env, RunTo(OVERLAPPING, 2, env, s))
  {
    hide Step, Load64, Store64, At, ByteAt;
    var g := OVERLAPPING;
    ForwardsFirst();
    var i := ForwardExact(g, 2, env, s);
    StoreStep(g[0], env, RunTo(g, 0, env, s));
    StoreStep(g[1], env, RunTo(g, 1, env, s));
    var m0, m1 := RunTo(g, 1, env, s).mem, RunTo(g, 2, env, s).mem;
    assert m1 == Store64(m0, 4, 2);
    SecondStoreShows(s.mem);
    assert Covers(0, At(0, 4));
  }

  lemma ForwardsFirst()
    ensures WellFormed(OVERLAPPING)
    ensures Forward(OVERLAPPING, 2) == Instruction(CONST, [Const64(1)], 2, map["forwarded" := "1"])
    ensures AddrKey(Const64(0)) != AddrKey(Const64(4))
  {
    OverlappingFits();
    hide WellFormed;
    assert LastStore(OVERLAPPING, 2, AddrKey(Const64(0))) == LastStore(OVERLAPPING, 1, AddrKey(Const64(0)));
  }

  lemma OverlappingFits()
    ensures WellFormed(OVERLAPPING)
  {}

  lemma SecondStoreShows(mem: Memory)
    ensures var m0 := Store64(mem, 0, 1);
            Store64(m0, 4, 2)(At(0, 4)) != m0(At(0, 4))
  {
    ByteNumbers();
    hide At, ByteAt;
    AtApart(0);
    assert Store64(mem, 0, 1)(At(0, 4)) == ByteAt(1, 4);
  }

  lemma ByteNumbers()
    ensures At(0, 4) == At(4, 0) && ByteAt(1, 4) == 0 && ByteAt(2, 0) == 2
  {}

  // ----- promotion in several rounds -----

  const READ_TWICE: Trace := [
    Instruction(LOAD, [Const64(8)], 0, map[]),
    Instruction(LOAD, [Const64(0)], 1, map[]),
    Instruction(STORE, [Const64(0), Const64(7)], 2, map[])]

  const LOW: seq<BM.MemRange> := [BM.MemRange(0, 16)]

  /** One sweep never looks ahead, but its final bytes hold what the trace writes later, and the next
      round starts from them. The first round promotes the load of the known word and is right; the
      second gives the load before the store the value that the store writes. */
  lemma LaterRoundReadsTheFuture(h: Host, env: Env, mem: Memory)
    requires X64(env) && BM.Agrees(BM.Store(map[], 8, 5), mem) && Load64(mem, 0) != 7
    ensures Sane(READ_TWICE, env, Machine.Start(mem))
    ensures Promotion.SweepRight(READ_TWICE, BM.Store(map[], 8, 5), LOW, env, Machine.Start(mem))
    ensures var r := Promotion.Optimize(h, READ_TWICE, BM.Store(map[], 8, 5), LOW, 3).trace;
            && |r| == 3 && r[1] == Promotion.Promoted(READ_TWICE[1], 7)
            && !SameRuns(READ_TWICE, r, env, Machine.Start(mem))
  {
    hide BM.Store, BM.Agrees, Promotion.SweepTo, Promotion.Optimize, RunTo, X64, Promotion.Promoted, Promotion.RightAt,
         Promotion.UntouchedAt, Load64, ShiftsOk, StoresKnown, CallsApart;
    ReadTwiceFits();
    var g, b, s := READ_TWICE, BM.Store(map[], 8, 5), Machine.Start(mem);
    ReadTwiceSane(env, s);
    forall i | 0 <= i < 3 ensures Promotion.UntouchedAt(g, Promotion.SweepTo(g, b, LOW, i), i, LOW, env, s) {
      ReadTwiceUntouched(b, i, env, s);
    }
    Promotion.SweepPreservesRuns(g, b, LOW, env, s);
    hide WellFormed;
    ReadTwiceOptimized(h);
    SecondRead(env, mem);
    var r := Promotion.Optimize(h, g, b, LOW, 3).trace;
    PromotedRead(r, env, s);
    assert RunTo(r, 2, env, s) != RunTo(g, 2, env, s);
  }

  lemma ReadTwiceFits()
    ensures WellFormed(READ_TWICE)
  {}

  lemma ReadTwiceSane(env: Env, s: State)
    requires X64(env)
    ensures Sane(READ_TWICE, env, s)
  {
    hide RunTo, X64;
    ReadTwiceFits();
  }

  lemma InLow()
    ensures BM.InSafeRange(LOW, 0) && BM.InSafeRange(LOW, 8)
  {
    assert LOW[0].Contains(0) && LOW[0].Contains(8);
  }

  /** The one store is replayed. */
  lemma ReadTwiceUntouched(bytes: BM.Bytes, i: nat, env: Env, s: State)
    requires i < 3 && WellFormed(READ_TWICE)
    ensures Promotion.UntouchedAt(READ_TWICE, Promotion.SweepTo(READ_TWICE, bytes, LOW, i), i, LOW, env, s)
  {
    hide WellFormed, Promotion.SweepTo, BM.InSafeRange, Covers, RunTo, IndexMap;
    var w := Promotion.SweepTo(READ_TWICE, bytes, LOW, i);
    InLow();
    OrderedOf(w.trace);
    Promotion.SweepUnvisited(READ_TWICE, bytes, LOW, i, i);
  }

  lemma SecondRead(env: Env, mem: Memory)
    ensures 1 in RunTo(READ_TWICE, 2, env, Machine.Start(mem)).vals
    ensures RunTo(READ_TWICE, 2, env, Machine.Start(mem)).vals[1] == Load64(mem, 0)
  {
    hide Step, Load64, RunTo;
    var g, s := READ_TWICE, Machine.Start(mem);
    Promotion.RunNone(g, env, s);
    Promotion.NextState(g, 0, env, s);
    Promotion.NextState(g, 1, env, s);
    LoadStep(g[0], env, s);
    LoadStep(g[1], env, RunTo(g, 1, env, s));
  }

  lemma PromotedRead(r: Trace, env: Env, s: State)
    requires |r| == 3 && r[1] == Promotion.Promoted(READ_TWICE[1], 7)
    ensures 1 in RunTo(r, 2, env, s).vals && RunTo(r, 2, env, s).vals[1] == 7
  {
    hide Step, RunTo;
    Promotion.NextState(r, 1, env, s);
    StepPure(r[1], env, RunTo(r, 1, env, s));
  }

  /** What a sweep makes of an instruction whose operands are constants. */
  function Swept(d: Instruction, bytes: BM.Bytes, ranges: seq<BM.MemRange>): Instruction {
    if IsLoad(d) && d.operands[0].Const? && BM.InSafeRange(ranges, d.operands[0].value)
       && BM.Load(bytes, d.operands[0].value).Some?
    then Promotion.Promoted(d, BM.Load(bytes, d.operands[0].value).value)
    else d
  }

  lemma SweptConst(g: Trace, i: nat, bytes: BM.Bytes, ranges: seq<BM.MemRange>)
    requires WellFormed(g) && Ordered(g) && i < |g| && ConstOperands(g[i])
    ensures Promotion.SweepInstr(g, i, bytes, ranges) == Swept(g[i], bytes, ranges)
    ensures g[i].op != STORE ==> Promotion.SweepBytes(g, i, bytes, ranges) == bytes
    ensures IsStore(g[i]) && BM.InSafeRange(ranges, g[i].operands[0].value) ==>
              Promotion.SweepBytes(g, i, bytes, ranges)
                == BM.Store(bytes, g[i].operands[0].value, g[i].operands[1].value)
  {
    hide BM.InSafeRange, BM.Load, BM.Store, IndexMap, Promotion.Promoted;
    var d := g[i];
    if IsLoad(d) { assert d.operands[0 := d.operands[0]] == d.operands; }
  }

  /** A sweep over two accesses and the store. */
  lemma SweepThree(g: Trace, bytes: BM.Bytes)
    requires WellFormed(g) && |g| == 3 && g[2] == READ_TWICE[2]
    requires g[0].op != STORE && g[1].op != STORE && ConstOperands(g[0]) && ConstOperands(g[1])
    ensures Promotion.SweepTo(g, bytes, LOW, 3)
         == Promotion.Sweep([Swept(g[0], bytes, LOW), Swept(g[1], bytes, LOW), g[2]], BM.Store(bytes, 0, 7))
  {
    hide BM.Store, BM.InSafeRange, WellFormed, Ordered, Promotion.SweepTo, Swept, Promotion.SweepInstr,
         Promotion.SweepBytes;
    InLow();
    Promotion.SweepStart(g, bytes, LOW);
    Promotion.SweepNext(g, bytes, LOW, 0);
    SweptConst(g, 0, bytes, LOW);
    var w1 := Promotion.SweepTo(g, bytes, LOW, 1);
    Promotion.SweepNext(g, bytes, LOW, 1);
    SweptConst(w1.trace, 1, bytes, LOW);
    var w2 := Promotion.SweepTo(g, bytes, LOW, 2);
    Promotion.SweepNext(g, bytes, LOW, 2);
    SweptConst(w2.trace, 2, bytes, LOW);
    SweptStore(bytes);
    assert Promotion.SweepTo(g, bytes, LOW, 3).trace == [Swept(g[0], bytes, LOW), Swept(g[1], bytes, LOW), g[2]];
  }

  lemma SweptStore(bytes: BM.Bytes)
    ensures ConstOperands(READ_TWICE[2]) && Swept(READ_TWICE[2], bytes, LOW) == READ_TWICE[2]
  {}

  // ----- three rounds -----

  /** One round of promotion when there is nothing to fold. */
  lemma PlainOptimize(h: Host, g: Trace, bytes: BM.Bytes, rounds: nat, w: Promotion.Sweep)
    requires WellFormed(g) && rounds > 0 && w == Promotion.SweepTo(g, bytes, LOW, |g|) && Plain(w.trace)
    ensures Promotion.Optimize(h, g, bytes, LOW, rounds)
         == if Promotion.Hit(g, w.trace) then Promotion.Optimize(h, w.trace, w.bytes, LOW, rounds - 1) else w
  {
    hide Plain, FoldConverge, Promotion.SweepTo, Promotion.Hit, WellFormed;
    PlainFolded(h, w.trace, 8);
  }

  lemma KnownWords(b: BM.Bytes)
    ensures var b0 := BM.Store(map[], 8, 5);
            BM.Load(b0, 8) == Some(5) && BM.Load(b0, 0).None?
    ensures BM.Load(BM.Store(b, 0, 7), 0) == Some(7)
  {
    BM.RoundTrip(map[], 8, 5);
    BM.RoundTrip(b, 0, 7);
    ZeroApart();
    hide BM.Load, BM.Store;
    BM.DisjointStore(map[], 8, 5, 0);
    NothingKnown();
  }

  lemma ZeroApart()
    ensures !Overlap(8, 0)
  {}

  lemma NothingKnown()
    ensures BM.Load(map[], 0).None?
  {}

  lemma ReadTwiceOptimized(h: Host)
    requires WellFormed(READ_TWICE)
    ensures Promotion.Optimize(h, READ_TWICE, BM.Store(map[], 8, 5), LOW, 3).trace
         == [Promotion.Promoted(READ_TWICE[0], 5), Promotion.Promoted(READ_TWICE[1], 7), READ_TWICE[2]]
  {
    hide BM.Load, BM.Store, BM.InSafeRange, Promotion.Optimize, Promotion.SweepTo, WellFormed;
    InLow();
    var g0, b0 := READ_TWICE, BM.Store(map[], 8, 5);
    KnownWords(b0);
    SweepThree(g0, b0);
    var w0 := Promotion.SweepTo(g0, b0, LOW, 3);
    assert w0.trace == [Promotion.Promoted(g0[0], 5), g0[1], g0[2]];
    assert w0.trace[0].op == CONST && g0[0].op == LOAD;
    PlainOptimize(h, g0, b0, 3, w0);
    LaterRounds(h, w0);
  }

  /** The second round promotes the other load, the third nothing. */
  lemma LaterRounds(h: Host, w: Promotion.Sweep)
    requires WellFormed(w.trace) && w.trace == [Promotion.Promoted(READ_TWICE[0], 5), READ_TWICE[1], READ_TWICE[2]]
    requires BM.Load(w.bytes, 0) == Some(7)
    ensures Promotion.Optimize(h, w.trace, w.bytes, LOW, 2).trace
         == [Promotion.Promoted(READ_TWICE[0], 5), Promotion.Promoted(READ_TWICE[1], 7), READ_TWICE[2]]
  {
    hide BM.Load, BM.Store, BM.InSafeRange, Promotion.Optimize, Promotion.SweepTo, WellFormed;
    InLow();
    SweepThree(w.trace, w.bytes);
    var w1 := Promotion.SweepTo(w.trace, w.bytes, LOW, 3);
    assert w1.trace == [Promotion.Promoted(READ_TWICE[0], 5), Promotion.Promoted(READ_TWICE[1], 7), READ_TWICE[2]];
    assert w1.trace[1].op == CONST && w.trace[1].op == LOAD;
    PlainOptimize(h, w.trace, w.bytes, 2, w1);
    SweepThree(w1.trace, w1.bytes);
    PlainOptimize(h, w1.trace, w1.bytes, 1, Promotion.SweepTo(w1.trace, w1.bytes, LOW, 3));
  }
}
