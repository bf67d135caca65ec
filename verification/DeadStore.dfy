/** Dead-store elimination on VM-private memory: which stores go, and what a run keeps. */
module DeadStore {
  import opened Ir
  import opened Machine
  import opened References
  import opened Rewrites
  import opened Removal
  import opened Meaning

  predicate PrivateLoad(d: Instruction) {
    d.op == LOAD && Private(d) && |d.operands| >= 1 && d.operands[0].Const?
  }

  predicate PrivateStore(d: Instruction) {
    d.op == STORE && Private(d) && |d.operands| >= 2 && d.operands[0].Const?
  }

  /** The live addresses found by scanning backwards down to position `i`. */
  function LiveFrom(g: Trace, i: nat): set<Word>
    requires i <= |g|
    decreases |g| - i
  {
    if i == |g| then {}
    else
      var live := LiveFrom(g, i + 1);
      var d := g[i];
      if PrivateLoad(d) then live + {d.operands[0].value}
      else if PrivateStore(d) then live - {d.operands[0].value}
      else live
  }

  function StoreKeep(g: Trace): (k: seq<bool>)
    ensures |k| == |g|
  {
    seq(|g|, i requires 0 <= i < |g| => PrivateStore(g[i]) ==> g[i].operands[0].value in LiveFrom(g, i + 1))
  }

  function DropStores(g: Trace): Trace { Sift(g, StoreKeep(g)) }

  // ----- which stores go -----

  predicate LoadsFrom(d: Instruction, c: Word) { PrivateLoad(d) && d.operands[0].value == c }
  predicate StoresTo(d: Instruction, c: Word) { PrivateStore(d) && d.operands[0].value == c }

  /** A private load of `c` at or after `n` comes before any private store to `c`. */
  ghost predicate ReadNext(g: Trace, n: nat, c: Word)
    requires n <= |g|
  {
    exists j :: n <= j < |g| && LoadsFrom(g[j], c) && forall m :: n <= m < j ==> !StoresTo(g[m], c)
  }

  lemma {:induction false} LiveExact(g: Trace, n: nat, c: Word)
    requires n <= |g|
    ensures c in LiveFrom(g, n) <==> ReadNext(g, n, c)
    decreases |g| - n
  {
    if n < |g| {
      LiveExact(g, n + 1, c);
      if LoadsFrom(g[n], c) {
        assert ReadNext(g, n, c);
      } else if StoresTo(g[n], c) {
        assert !ReadNext(g, n, c);
      } else {
        if ReadNext(g, n, c) {
          var j :| n <= j < |g| && LoadsFrom(g[j], c) && forall m :: n <= m < j ==> !StoresTo(g[m], c);
          assert n + 1 <= j;
        }
        if ReadNext(g, n + 1, c) {
          var j :| n + 1 <= j < |g| && LoadsFrom(g[j], c) && forall m :: n + 1 <= m < j ==> !StoresTo(g[m], c);
          assert LoadsFrom(g[j], c) && forall m :: n <= m < j ==> !StoresTo(g[m], c);
        }
      }
    }
  }

  /** A private store stays exactly when it is read before it is overwritten. */
  lemma StoreKeptExactly(g: Trace, i: nat)
    requires i < |g|
    ensures StoreKeep(g)[i] <==> (PrivateStore(g[i]) ==> ReadNext(g, i + 1, g[i].operands[0].value))
  {
    if PrivateStore(g[i]) { LiveExact(g, i + 1, g[i].operands[0].value); }
  }

  // ----- what a run keeps -----

  predicate PrivateAccess(d: Instruction) { PrivateLoad(d) || PrivateStore(d) }

  ghost function PrivateAddrs(g: Trace): set<Word> {
    set i | 0 <= i < |g| && PrivateAccess(g[i]) :: g[i].operands[0].value
  }

  ghost predicate PrivateCell(g: Trace, x: Word) { exists a :: a in PrivateAddrs(g) && Covers(a, x) }

  /** Memories that agree on everything that is not private. */
  ghost predicate AgreeOutside(g: Trace, m: Memory, m': Memory) {
    forall x :: PrivateCell(g, x) || m(x) == m'(x)
  }

  /** Callees neither read nor write private cells. */
  ghost predicate CallsBlind(g: Trace, env: Env) {
    forall n: nat, args: seq<Word>, m: Memory, m': Memory :: AgreeOutside(g, m, m') ==>
      && env.call(n, args, m).value == env.call(n, args, m').value
      && AgreeOutside(g, env.call(n, args, m).mem, env.call(n, args, m').mem)
      && (forall x :: PrivateCell(g, x) ==> env.call(n, args, m).mem(x) == m(x))
  }

  /** Private cells are touched by private accesses at constant addresses only, and those are
      equal or disjoint. Nothing refers to the result of a store. */
  ghost predicate Disciplined(g: Trace, env: Env, s: State) {
    && WellFormed(g)
    && (forall i :: 0 <= i < |g| && IsAccess(g[i]) && Private(g[i]) ==> g[i].operands[0].Const?)
    && (forall a, b :: a in PrivateAddrs(g) && b in PrivateAddrs(g) ==> a == b || !Overlap(a, b))
    && (forall i, a :: 0 <= i < |g| && IsAccess(g[i]) && !Private(g[i]) && a in PrivateAddrs(g) ==>
          !Overlap(a, Addr(g, i, env, s)))
    && CallsBlind(g, env)
    && (forall i, j :: 0 <= i < |g| && 0 <= j < |g| && PrivateStore(g[j]) ==> InstrRef(g[j].resultId) !in g[i].operands)
  }

  /** A private cell whose present content nobody will read. */
  ghost predicate DeadCell(g: Trace, n: nat, x: Word)
    requires n <= |g|
  {
    exists a :: a in PrivateAddrs(g) && a !in LiveFrom(g, n) && Covers(a, x)
  }

  ghost function Gone(g: Trace): set<nat> {
    set i | 0 <= i < |g| && !StoreKeep(g)[i] :: g[i].resultId
  }

  ghost predicate Alike(g: Trace, n: nat, t: State, t': State)
    requires n <= |g|
  {
    && t.events == t'.events && t.calls == t'.calls && AgreeExcept(t.vals, t'.vals, Gone(g))
    && forall x :: DeadCell(g, n, x) || t.mem(x) == t'.mem(x)
  }

  lemma GoneAvoided(g: Trace, i: nat, env: Env, s: State)
    requires Disciplined(g, env, s) && i < |g|
    ensures Avoids(g[i], Gone(g))
  {
    hide RunTo, Overlap, LiveFrom;
    forall j | 0 <= j < |g| && !StoreKeep(g)[j] ensures InstrRef(g[j].resultId) !in g[i].operands {
      assert PrivateStore(g[j]);
    }
  }

  lemma DroppedStep(g: Trace, n: nat, env: Env, s: State, t: State, t': State)
    requires Disciplined(g, env, s) && n < |g| && !StoreKeep(g)[n] && Alike(g, n, t, t')
    ensures Alike(g, n + 1, Step(g[n], env, t), t')
  {
    hide Disciplined, Store64, Overlap, DeadCell, Covers;
    var d, u := g[n], Step(g[n], env, t);
    DisciplinedFacts(g, env, s);
    assert d.resultId in Gone(g);
    StoreStep(d, env, t);
    forall x | !DeadCell(g, n + 1, x) ensures u.mem(x) == t'.mem(x) {
      DroppedCell(g, n, x);
      StoreElsewhere(t.mem, d.operands[0].value, Eval(d.operands[1], env, t.vals), x);
    }
  }

  /** A dropped store writes cells that are dead before and after. */
  lemma DroppedCell(g: Trace, n: nat, x: Word)
    requires n < |g| && !StoreKeep(g)[n] && !DeadCell(g, n + 1, x)
    ensures PrivateStore(g[n]) && !Covers(g[n].operands[0].value, x) && !DeadCell(g, n, x)
  {
    hide Covers;
    assert g[n].operands[0].value in PrivateAddrs(g);
  }

  lemma DisciplinedFacts(g: Trace, env: Env, s: State)
    requires Disciplined(g, env, s)
    ensures WellFormed(g)
  {}

  /** The cells of an address that may be read now are not dead. */
  lemma ReadableCell(g: Trace, n: nat, env: Env, s: State, x: Word)
    requires Disciplined(g, env, s) && n < |g| && IsLoad(g[n]) && Covers(Addr(g, n, env, s), x)
    ensures !DeadCell(g, n, x)
  {
    hide RunTo;
    forall a | a in PrivateAddrs(g) && Covers(a, x) ensures a in LiveFrom(g, n) {
      assert Overlap(a, Addr(g, n, env, s));
      assert PrivateLoad(g[n]) && g[n].operands[0].value in PrivateAddrs(g);
    }
  }

  lemma KeptLoad(g: Trace, n: nat, env: Env, s: State, t': State)
    requires Disciplined(g, env, s) && n < |g| && g[n].op == LOAD && Alike(g, n, RunTo(g, n, env, s), t')
    ensures Alike(g, n + 1, Step(g[n], env, RunTo(g, n, env, s)), Step(g[n], env, t'))
  {
    hide Step, Disciplined, Load64, RunTo, DeadCell, Covers;
    var d, t := g[n], RunTo(g, n, env, s);
    DisciplinedFacts(g, env, s);
    GoneAvoided(g, n, env, s);
    AvoidsEval(d, Gone(g), env, t.vals, t'.vals);
    assert EvalAll(d.operands, env, t.vals)[0] == EvalAll(d.operands, env, t'.vals)[0];
    forall x | Covers(Addr(g, n, env, s), x) ensures t.mem(x) == t'.mem(x) { ReadableCell(g, n, env, s, x); }
    LoadAgree(t.mem, t'.mem, Addr(g, n, env, s));
    LoadStep(d, env, t);
    LoadStep(d, env, t');
    forall x | !DeadCell(g, n + 1, x) ensures t.mem(x) == t'.mem(x) { DeadStays(g, n, x); }
  }

  lemma DeadStays(g: Trace, n: nat, x: Word)
    requires n < |g| && !PrivateStore(g[n]) && !DeadCell(g, n + 1, x)
    ensures !DeadCell(g, n, x)
  {}

  lemma KeptStore(g: Trace, n: nat, env: Env, s: State, t': State)
    requires Disciplined(g, env, s) && n < |g| && g[n].op == STORE && StoreKeep(g)[n]
    requires Alike(g, n, RunTo(g, n, env, s), t')
    ensures Alike(g, n + 1, Step(g[n], env, RunTo(g, n, env, s)), Step(g[n], env, t'))
  {
    hide Disciplined, Store64, RunTo, DeadCell, Overlap, Covers, LiveFrom;
    var d, t := g[n], RunTo(g, n, env, s);
    DisciplinedFacts(g, env, s);
    GoneAvoided(g, n, env, s);
    AvoidsEval(d, Gone(g), env, t.vals, t'.vals);
    assert EvalAll(d.operands, env, t.vals)[0] == EvalAll(d.operands, env, t'.vals)[0];
    assert EvalAll(d.operands, env, t.vals)[1] == EvalAll(d.operands, env, t'.vals)[1];
    StoreStep(d, env, t);
    StoreStep(d, env, t');
    var v := Eval(d.operands[1], env, t.vals);
    assert Step(d, env, t').mem == Store64(t'.mem, Addr(g, n, env, s), v);
    StoredAlike(g, n, env, s, t.mem, t'.mem, v);
  }

  lemma StoredAlike(g: Trace, n: nat, env: Env, s: State, m: Memory, m': Memory, v: Word)
    requires Disciplined(g, env, s) && n < |g| && g[n].op == STORE
    requires forall x :: DeadCell(g, n, x) || m(x) == m'(x)
    ensures WellFormed(g)
    ensures var a := Addr(g, n, env, s);
            forall x :: DeadCell(g, n + 1, x) || Store64(m, a, v)(x) == Store64(m', a, v)(x)
  {
    hide Disciplined, Store64, RunTo, DeadCell, Overlap, StoreKeep, Covers, LiveFrom;
    DisciplinedFacts(g, env, s);
    var a := Addr(g, n, env, s);
    forall x | !DeadCell(g, n + 1, x) ensures Store64(m, a, v)(x) == Store64(m', a, v)(x) {
      if Covers(a, x) {
        StoreCovered(m, m', a, v, x);
      } else {
        StoreElsewhere(m, a, v, x);
        StoreElsewhere(m', a, v, x);
        DeadUnlessStored(g, n, env, s, x);
      }
    }
  }

  lemma StoreCovered(m: Memory, m': Memory, a: Word, v: Word, x: Word)
    requires Covers(a, x)
    ensures Store64(m, a, v)(x) == Store64(m', a, v)(x)
  {}

  lemma DeadUnlessStored(g: Trace, n: nat, env: Env, s: State, x: Word)
    requires Disciplined(g, env, s) && n < |g| && g[n].op == STORE && !DeadCell(g, n + 1, x)
    requires !Covers(Addr(g, n, env, s), x)
    ensures !DeadCell(g, n, x)
  {
    hide RunTo;
    forall a | a in PrivateAddrs(g) && Covers(a, x) ensures a in LiveFrom(g, n) {
      assert a in LiveFrom(g, n + 1);
    }
  }

  lemma CallMemory(g: Trace, n: nat, env: Env, calls: nat, args: seq<Word>, m: Memory, m': Memory)
    requires CallsBlind(g, env) && n < |g| && g[n].op == CALL
    requires forall x :: DeadCell(g, n, x) || m(x) == m'(x)
    ensures env.call(calls, args, m).value == env.call(calls, args, m').value
    ensures forall x :: DeadCell(g, n + 1, x) || env.call(calls, args, m).mem(x) == env.call(calls, args, m').mem(x)
  {
    forall x ensures PrivateCell(g, x) || m(x) == m'(x) {
      if DeadCell(g, n, x) { assert PrivateCell(g, x); }
    }
    assert AgreeOutside(g, m, m') && AgreeOutside(g, m', m');
    forall x | !DeadCell(g, n + 1, x) ensures env.call(calls, args, m).mem(x) == env.call(calls, args, m').mem(x) {
      if PrivateCell(g, x) { DeadStays(g, n, x); }
    }
  }

  lemma KeptCall(g: Trace, n: nat, env: Env, s: State, t': State)
    requires Disciplined(g, env, s) && n < |g| && g[n].op == CALL
    requires Alike(g, n, RunTo(g, n, env, s), t')
    ensures Alike(g, n + 1, Step(g[n], env, RunTo(g, n, env, s)), Step(g[n], env, t'))
  {
    hide RunTo, Overlap, WellFormed, DeadCell, CallsBlind, LiveFrom, Load64, Store64, PureResult;
    var d, t := g[n], RunTo(g, n, env, s);
    GoneAvoided(g, n, env, s);
    AvoidsEval(d, Gone(g), env, t.vals, t'.vals);
    CallMemory(g, n, env, t.calls, EvalAll(d.operands, env, t.vals), t.mem, t'.mem);
  }

  lemma ExecuteBlind(op: Op, private: bool, args: seq<Word>, env: Env, m: Memory, m': Memory, calls: nat)
    requires op !in {LOAD, STORE, CALL}
    ensures Execute(op, private, args, env, m', calls) == Execute(op, private, args, env, m, calls).(mem := m')
    ensures Execute(op, private, args, env, m, calls).mem == m
  {
    hide Load64, Store64, PureResult;
  }

  lemma KeptOther(g: Trace, n: nat, env: Env, s: State, t': State)
    requires Disciplined(g, env, s) && n < |g| && g[n].op !in {LOAD, STORE, CALL}
    requires Alike(g, n, RunTo(g, n, env, s), t')
    ensures Alike(g, n + 1, Step(g[n], env, RunTo(g, n, env, s)), Step(g[n], env, t'))
  {
    hide RunTo, Disciplined, Execute, DeadCell, LiveFrom, StoreKeep;
    var d, t := g[n], RunTo(g, n, env, s);
    GoneAvoided(g, n, env, s);
    AvoidsEval(d, Gone(g), env, t.vals, t'.vals);
    ExecuteBlind(d.op, Private(d), EvalAll(d.operands, env, t.vals), env, t.mem, t'.mem, t.calls);
    forall x | !DeadCell(g, n + 1, x) ensures t.mem(x) == t'.mem(x) { DeadStays(g, n, x); }
  }

  lemma {:induction false} DropStoresRun(g: Trace, n: nat, env: Env, s: State)
    requires Disciplined(g, env, s) && n <= |g|
    ensures Alike(g, n, RunTo(g, n, env, s), Run(SiftTo(g, StoreKeep(g), n), env, s))
  {
    hide Step, Disciplined, Alike, StoreKeep, LiveFrom;
    if n == 0 {
      AlikeSame(g, s);
    } else {
      DropStoresRun(g, n - 1, env, s);
      SiftStep(g, StoreKeep(g), n - 1);
      var h := SiftTo(g, StoreKeep(g), n - 1);
      var t, t' := RunTo(g, n - 1, env, s), Run(h, env, s);
      if StoreKeep(g)[n - 1] {
        if g[n - 1].op == LOAD { KeptLoad(g, n - 1, env, s, t'); }
        else if g[n - 1].op == STORE { KeptStore(g, n - 1, env, s, t'); }
        else if g[n - 1].op == CALL { KeptCall(g, n - 1, env, s, t'); }
        else { KeptOther(g, n - 1, env, s, t'); }
        RunAppend(h, [g[n - 1]], env, s);
        assert RunTo([g[n - 1]], 1, env, t') == Step(g[n - 1], env, RunTo([g[n - 1]], 0, env, t'));
      } else {
        DroppedStep(g, n - 1, env, s, t, t');
        assert h + [] == h;
      }
    }
  }

  lemma AlikeSame(g: Trace, s: State)
    ensures Alike(g, 0, s, s)
  {}

  /** Removing dead private stores changes no event, no call, no value and no memory outside
      the private cells. */
  lemma DropStoresMeaning(g: Trace, env: Env, s: State)
    requires Disciplined(g, env, s)
    ensures var t, t' := Run(g, env, s), Run(DropStores(g), env, s);
            && t.events == t'.events && t.calls == t'.calls
            && AgreeOutside(g, t.mem, t'.mem)
            && forall d :: d in DropStores(g) ==>
                 d.resultId in t.vals && d.resultId in t'.vals && t.vals[d.resultId] == t'.vals[d.resultId]
  {
    hide Step, Disciplined;
    DisciplinedFacts(g, env, s);
    var h := DropStores(g);
    DropStoresRun(g, |g|, env, s);
    SiftWhole(g, StoreKeep(g));
    var t, t' := Run(g, env, s), Run(h, env, s);
    forall d | d in h ensures d.resultId !in Gone(g) && d.resultId in t.vals {
      SiftMember(g, StoreKeep(g), d);
      var i :| 0 <= i < |g| && StoreKeep(g)[i] && g[i] == d;
      ResultStable(g, i, |g|, env, s);
    }
    forall x ensures PrivateCell(g, x) || t.mem(x) == t'.mem(x) {
      if DeadCell(g, |g|, x) { assert PrivateCell(g, x); }
    }
  }
}
