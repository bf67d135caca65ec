/** What a trace means: 64-bit values, byte-addressed memory and observable events.
    A trace runs every instruction in order. */
module Machine {
  import opened Ir
  import Arithmetic

  // ----- memory -----

  type Memory = Word -> bv8

  /** Byte `i` of a word, least significant first. */
  function ByteAt(v: Word, i: Word): bv8 {
    match i
    case 0 => (v & 0xFF) as bv8
    case 1 => ((v >> 8) & 0xFF) as bv8
    case 2 => ((v >> 16) & 0xFF) as bv8
    case 3 => ((v >> 24) & 0xFF) as bv8
    case 4 => ((v >> 32) & 0xFF) as bv8
    case 5 => ((v >> 40) & 0xFF) as bv8
    case 6 => ((v >> 48) & 0xFF) as bv8
    case _ => ((v >> 56) & 0xFF) as bv8
  }

  function Join(b0: bv8, b1: bv8, b2: bv8, b3: bv8, b4: bv8, b5: bv8, b6: bv8, b7: bv8): Word {
    (b0 as bv64) | ((b1 as bv64) << 8) | ((b2 as bv64) << 16) | ((b3 as bv64) << 24)
    | ((b4 as bv64) << 32) | ((b5 as bv64) << 40) | ((b6 as bv64) << 48) | ((b7 as bv64) << 56)
  }

  lemma JoinBytes(v: Word)
    ensures Join(ByteAt(v, 0), ByteAt(v, 1), ByteAt(v, 2), ByteAt(v, 3),
                 ByteAt(v, 4), ByteAt(v, 5), ByteAt(v, 6), ByteAt(v, 7)) == v
  {}

  function Plus(a: Word, w: Word): Word { a + w }

  function Index(k: nat): Word {
    match k
    case 0 => 0 case 1 => 1 case 2 => 2 case 3 => 3
    case 4 => 4 case 5 => 5 case 6 => 6 case 7 => 7
    case _ => Index(k - 1) + 1
  }

  /** The address `k` bytes after `a`; addresses wrap around. */
  function At(a: Word, k: nat): Word { Plus(a, Index(k)) }

  function Load64(m: Memory, a: Word): Word {
    Join(m(At(a, 0)), m(At(a, 1)), m(At(a, 2)), m(At(a, 3)), m(At(a, 4)), m(At(a, 5)), m(At(a, 6)), m(At(a, 7)))
  }

  function Store64(m: Memory, a: Word, v: Word): Memory {
    (x: Word) =>
      if x == At(a, 0) then ByteAt(v, 0) else if x == At(a, 1) then ByteAt(v, 1)
      else if x == At(a, 2) then ByteAt(v, 2) else if x == At(a, 3) then ByteAt(v, 3)
      else if x == At(a, 4) then ByteAt(v, 4) else if x == At(a, 5) then ByteAt(v, 5)
      else if x == At(a, 6) then ByteAt(v, 6) else if x == At(a, 7) then ByteAt(v, 7) else m(x)
  }

  /** `x` is one of the eight bytes at `a`. */
  predicate Covers(a: Word, x: Word) {
    || x == At(a, 0) || x == At(a, 1) || x == At(a, 2) || x == At(a, 3)
    || x == At(a, 4) || x == At(a, 5) || x == At(a, 6) || x == At(a, 7)
  }

  lemma PlusApart(a: Word)
    ensures Plus(a, 0) != Plus(a, 1) && Plus(a, 0) != Plus(a, 2) && Plus(a, 0) != Plus(a, 3) && Plus(a, 0) != Plus(a, 4)
    ensures Plus(a, 0) != Plus(a, 5) && Plus(a, 0) != Plus(a, 6) && Plus(a, 0) != Plus(a, 7) && Plus(a, 1) != Plus(a, 2)
    ensures Plus(a, 1) != Plus(a, 3) && Plus(a, 1) != Plus(a, 4) && Plus(a, 1) != Plus(a, 5) && Plus(a, 1) != Plus(a, 6)
    ensures Plus(a, 1) != Plus(a, 7) && Plus(a, 2) != Plus(a, 3) && Plus(a, 2) != Plus(a, 4) && Plus(a, 2) != Plus(a, 5)
    ensures Plus(a, 2) != Plus(a, 6) && Plus(a, 2) != Plus(a, 7) && Plus(a, 3) != Plus(a, 4) && Plus(a, 3) != Plus(a, 5)
    ensures Plus(a, 3) != Plus(a, 6) && Plus(a, 3) != Plus(a, 7) && Plus(a, 4) != Plus(a, 5) && Plus(a, 4) != Plus(a, 6)
    ensures Plus(a, 4) != Plus(a, 7) && Plus(a, 5) != Plus(a, 6) && Plus(a, 5) != Plus(a, 7) && Plus(a, 6) != Plus(a, 7)
  {}

  lemma AtApart(a: Word)
    ensures forall i, j :: 0 <= i < j < 8 ==> At(a, i) != At(a, j)
  {
    hide Plus;
    PlusApart(a);
  }

  /** The 8-byte accesses at `a` and `b` share a byte. */
  ghost predicate Overlap(a: Word, b: Word) { exists x :: Covers(a, x) && Covers(b, x) }

  lemma LoadStored(m: Memory, a: Word, v: Word)
    ensures Load64(Store64(m, a, v), a) == v
  {
    hide At, ByteAt, Join;
    AtApart(a);
    JoinBytes(v);
  }

  lemma StoreElsewhere(m: Memory, a: Word, v: Word, x: Word)
    requires !Covers(a, x)
    ensures Store64(m, a, v)(x) == m(x)
  {
    hide At, ByteAt;
  }

  lemma LoadAgree(m: Memory, m': Memory, a: Word)
    requires forall x: Word :: Covers(a, x) ==> m(x) == m'(x)
    ensures Load64(m, a) == Load64(m', a)
  {
    hide At, Join;
  }

  lemma LoadElsewhere(m: Memory, a: Word, v: Word, b: Word)
    requires !Overlap(a, b)
    ensures Load64(Store64(m, a, v), b) == Load64(m, b)
  {
    forall x: Word | Covers(b, x) ensures Store64(m, a, v)(x) == m(x) {
      StoreElsewhere(m, a, v, x);
    }
    LoadAgree(Store64(m, a, v), m, b);
  }

  lemma Position(a: Word, x: Word) returns (k: nat)
    requires Covers(a, x)
    ensures k < 8 && x == At(a, k)
  {
    hide At;
    if x == At(a, 0) { k := 0; } else if x == At(a, 1) { k := 1; } else if x == At(a, 2) { k := 2; }
    else if x == At(a, 3) { k := 3; } else if x == At(a, 4) { k := 4; } else if x == At(a, 5) { k := 5; }
    else if x == At(a, 6) { k := 6; } else { k := 7; }
  }

  lemma BytesOfJoin(b0: bv8, b1: bv8, b2: bv8, b3: bv8, b4: bv8, b5: bv8, b6: bv8, b7: bv8)
    ensures var v := Join(b0, b1, b2, b3, b4, b5, b6, b7);
            && ByteAt(v, 0) == b0 && ByteAt(v, 1) == b1 && ByteAt(v, 2) == b2 && ByteAt(v, 3) == b3
            && ByteAt(v, 4) == b4 && ByteAt(v, 5) == b5 && ByteAt(v, 6) == b6 && ByteAt(v, 7) == b7
  {}

  lemma LoadedBytes(m: Memory, a: Word)
    ensures var v := Load64(m, a);
            && ByteAt(v, 0) == m(At(a, 0)) && ByteAt(v, 1) == m(At(a, 1)) && ByteAt(v, 2) == m(At(a, 2))
            && ByteAt(v, 3) == m(At(a, 3)) && ByteAt(v, 4) == m(At(a, 4)) && ByteAt(v, 5) == m(At(a, 5))
            && ByteAt(v, 6) == m(At(a, 6)) && ByteAt(v, 7) == m(At(a, 7))
  {
    hide At, Join, ByteAt;
    BytesOfJoin(m(At(a, 0)), m(At(a, 1)), m(At(a, 2)), m(At(a, 3)), m(At(a, 4)), m(At(a, 5)), m(At(a, 6)), m(At(a, 7)));
  }

  /** Two memories load the same word exactly when they agree on its eight bytes. */
  lemma LoadExact(m: Memory, m': Memory, a: Word)
    ensures Load64(m, a) == Load64(m', a) <==> forall x: Word :: Covers(a, x) ==> m(x) == m'(x)
  {
    hide Covers, Load64;
    if forall x: Word :: Covers(a, x) ==> m(x) == m'(x) { LoadAgree(m, m', a); }
    if Load64(m, a) == Load64(m', a) {
      forall x: Word | Covers(a, x) ensures m(x) == m'(x) { LoadsByte(m, m', a, x); }
    }
  }

  lemma LoadsByte(m: Memory, m': Memory, a: Word, x: Word)
    requires Load64(m, a) == Load64(m', a) && Covers(a, x)
    ensures m(x) == m'(x)
  {
    hide At, Load64, ByteAt, Covers;
    LoadedBytes(m, a);
    LoadedBytes(m', a);
    var k := Position(a, x);
    assert k == 0 || k == 1 || k == 2 || k == 3 || k == 4 || k == 5 || k == 6 || k == 7;
  }

  // ----- everything a trace cannot see -----

  datatype CallResult = CallResult(value: Word, mem: Memory)

  /** The register file and memory inputs, the values of references that the trace does not
      define, and the behaviour of callees and of the width conversions. `call` receives the
      number of calls made before. */
  datatype Env = Env(
    binary: (Op, Word, Word) -> Word,
    unary: (Op, Word) -> Word,
    other: (Op, seq<Word>) -> Word,
    regs: string -> Word,
    symMem: (nat, nat) -> Word,
    undef: nat -> Word,
    call: (nat, seq<Word>, Memory) -> CallResult)

  /** The environment computes with the reference arithmetic. */
  ghost predicate X64(env: Env) {
    && (forall op: Op, a: Word, b: Word :: FoldableBinary(op) ==> env.binary(op, a, b) == Arithmetic.Binary(op, a, b))
    && (forall op: Op, a: Word :: FoldableUnary(op) ==> env.unary(op, a) == Arithmetic.Unary(op, a))
  }

  // ----- values -----

  type Values = map<nat, Word>

  function Eval(v: Value, env: Env, vals: Values): Word {
    match v
    case Const(c, _) => c
    case SymReg(name) => env.regs(name)
    case SymMem(addrRef, width) => env.symMem(addrRef, width)
    case InstrRef(id) => if id in vals then vals[id] else env.undef(id)
  }

  function EvalAll(vs: seq<Value>, env: Env, vals: Values): (r: seq<Word>)
    ensures |r| == |vs| && forall k :: 0 <= k < |vs| ==> r[k] == Eval(vs[k], env, vals)
  {
    seq(|vs|, k requires 0 <= k < |vs| => Eval(vs[k], env, vals))
  }

  /** Instructions whose value depends on their operands alone. */
  predicate Pure(op: Op) { !SideEffectful(op) && op != LOAD }

  function PureResult(op: Op, args: seq<Word>, env: Env): Word {
    if (op == CONST || op == CONST_PTR) && |args| >= 1 then args[0]
    else if op == PASSTHROUGH && |args| == 1 then args[0]
    else if FoldableBinary(op) && |args| == 2 then env.binary(op, args[0], args[1])
    else if FoldableUnary(op) && |args| == 1 then env.unary(op, args[0])
    else if op == SELECT && |args| == 3 then (if args[0] != 0 then args[1] else args[2])
    else if op == NOP then 0
    else env.other(op, args)
  }

  // ----- execution -----

  datatype Event =
    | Stored(addr: Word, value: Word)
    | Called(args: seq<Word>)
    | Returned(args: seq<Word>)
    | Jumped(args: seq<Word>)
    | Malformed(op: Op, args: seq<Word>)

  datatype Effect = Effect(value: Word, mem: Memory, events: seq<Event>, calls: nat)

  datatype State = State(vals: Values, mem: Memory, events: seq<Event>, calls: nat)

  /** Stores to VM-private memory are not observable. */
  predicate Private(ins: Instruction) { ins.HasAnn("vm_private", "1") }

  ghost function Execute(op: Op, private: bool, args: seq<Word>, env: Env, mem: Memory, calls: nat): Effect {
    match op
    case STORE =>
      if |args| == 2 then
        Effect(0, Store64(mem, args[0], args[1]), if private then [] else [Stored(args[0], args[1])], calls)
      else Effect(0, mem, [Malformed(op, args)], calls)
    case CALL =>
      var r := env.call(calls, args, mem);
      Effect(r.value, r.mem, [Called(args)], calls + 1)
    case RET => Effect(0, mem, [Returned(args)], calls)
    case JMP => Effect(0, mem, [Jumped(args)], calls)
    case CJMP =>
      var taken := if |args| == 0 then [Malformed(op, args)] else if args[0] != 0 then [Jumped(args[1..])] else [];
      Effect(0, mem, taken, calls)
    case LOAD =>
      Effect(if |args| == 1 then Load64(mem, args[0]) else env.other(op, args), mem, [], calls)
    case _ => Effect(PureResult(op, args, env), mem, [], calls)
  }

  ghost function Step(ins: Instruction, env: Env, s: State): State {
    var e := Execute(ins.op, Private(ins), EvalAll(ins.operands, env, s.vals), env, s.mem, s.calls);
    State(s.vals[ins.resultId := e.value], e.mem, s.events + e.events, e.calls)
  }

  /** The state after the first `n` instructions. */
  ghost function RunTo(g: Trace, n: nat, env: Env, s: State): State
    requires n <= |g|
  {
    if n == 0 then s else Step(g[n - 1], env, RunTo(g, n - 1, env, s))
  }

  ghost function Run(g: Trace, env: Env, s: State): State {
    RunTo(g, |g|, env, s)
  }

  function Start(mem: Memory): State { State(map[], mem, [], 0) }

  // ----- what a run of an ordered trace keeps -----

  /** A step defines its own result and no other. */
  lemma StepWrites(ins: Instruction, env: Env, s: State)
    ensures var t := Step(ins, env, s);
            && ins.resultId in t.vals
            && (forall id :: id != ins.resultId ==> (id in t.vals <==> id in s.vals))
            && (forall id :: id != ins.resultId && id in s.vals ==> t.vals[id] == s.vals[id])
  {
    hide Execute;
  }

  /** A pure step computes its value and touches nothing else. */
  lemma StepPure(ins: Instruction, env: Env, s: State)
    requires Pure(ins.op)
    ensures Step(ins, env, s)
         == s.(vals := s.vals[ins.resultId := PureResult(ins.op, EvalAll(ins.operands, env, s.vals), env)])
  {
    assert s.events + [] == s.events;
  }

  lemma {:induction false} OperandStable(g: Trace, v: Value, i: nat, n: nat, env: Env, s: State)
    requires Ordered(g) && i <= n <= |g|
    requires i < n ==> Below(v, g[i].resultId)
    ensures Eval(v, env, RunTo(g, n, env, s).vals) == Eval(v, env, RunTo(g, i, env, s).vals)
  {
    hide Step;
    if i < n {
      OperandStable(g, v, i, n - 1, env, s);
      assert g[i].resultId <= g[n - 1].resultId;
      StepWrites(g[n - 1], env, RunTo(g, n - 1, env, s));
    }
  }

  lemma OperandsStable(g: Trace, i: nat, n: nat, env: Env, s: State)
    requires Ordered(g) && i < n <= |g|
    ensures EvalAll(g[i].operands, env, RunTo(g, n, env, s).vals)
         == EvalAll(g[i].operands, env, RunTo(g, i, env, s).vals)
  {
    hide Step;
    forall k | 0 <= k < |g[i].operands|
      ensures Eval(g[i].operands[k], env, RunTo(g, n, env, s).vals)
           == Eval(g[i].operands[k], env, RunTo(g, i, env, s).vals)
    {
      OperandStable(g, g[i].operands[k], i, n, env, s);
    }
  }

  /** Single assignment: once computed, a result keeps its value, ... */
  lemma {:induction false} ResultStable(g: Trace, i: nat, n: nat, env: Env, s: State)
    requires Ordered(g) && i < n <= |g|
    ensures g[i].resultId in RunTo(g, i + 1, env, s).vals
    ensures g[i].resultId in RunTo(g, n, env, s).vals
    ensures RunTo(g, n, env, s).vals[g[i].resultId] == RunTo(g, i + 1, env, s).vals[g[i].resultId]
  {
    hide Step;
    StepWrites(g[n - 1], env, RunTo(g, n - 1, env, s));
    if n > i + 1 {
      ResultStable(g, i, n - 1, env, s);
      assert g[i].resultId < g[n - 1].resultId;
    }
  }

  /** ... so a pure instruction's equation holds for the rest of the run. */
  lemma SsaEquation(g: Trace, i: nat, n: nat, env: Env, s: State)
    requires Ordered(g) && i < n <= |g|
    requires Pure(g[i].op)
    ensures g[i].resultId in RunTo(g, n, env, s).vals
    ensures RunTo(g, n, env, s).vals[g[i].resultId]
         == PureResult(g[i].op, EvalAll(g[i].operands, env, RunTo(g, n, env, s).vals), env)
  {
    hide Step;
    ResultStable(g, i, n, env, s);
    OperandsStable(g, i, n, env, s);
    StepPure(g[i], env, RunTo(g, i, env, s));
  }

  /** Two traces that agree on a prefix run it alike. */
  lemma {:induction false} RunPrefix(g: Trace, h: Trace, n: nat, env: Env, s: State)
    requires n <= |g| && n <= |h| && g[..n] == h[..n]
    ensures RunTo(g, n, env, s) == RunTo(h, n, env, s)
  {
    if n > 0 {
      assert g[n - 1] == g[..n][n - 1] == h[..n][n - 1] == h[n - 1];
      assert g[..n - 1] == g[..n][..n - 1] == h[..n][..n - 1] == h[..n - 1];
      RunPrefix(g, h, n - 1, env, s);
    }
  }

  /** Replacing one instruction by one with the same effect changes no state of the run. */
  lemma {:induction false} RunReplaced(g: Trace, i: nat, x: Instruction, n: nat, env: Env, s: State)
    requires i < |g| && n <= |g|
    requires Step(x, env, RunTo(g, i, env, s)) == Step(g[i], env, RunTo(g, i, env, s))
    ensures RunTo(g[i := x], n, env, s) == RunTo(g, n, env, s)
  {
    hide Step;
    if n > 0 {
      RunReplaced(g, i, x, n - 1, env, s);
    }
  }
}
