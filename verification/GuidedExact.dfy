/** What each query and step of the guided evaluator yields, in terms of the trace, the registers and
    the known bytes, and what its catalog says about the run. */
module GuidedExact {
  import opened Ir
  import opened Arithmetic
  import opened Machine
  import opened References
  import opened Rewrites
  import opened Convergence
  import opened Guided
  import opened Sweeps
  import BM = ByteMemory
  import Collections
  import Promotion

  // ----- the VPC -----

  /** The reference is to a load, the one at `j`, whose address is or refers to a safe constant `a`. */
  ghost predicate LoadsAt(g: Trace, ranges: seq<BM.MemRange>, v: Value, j: nat, a: Word)
    requires Ordered(g)
  {
    && j < |g| && v == InstrRef(g[j].resultId) && g[j].op == LOAD && |g[j].operands| > 0
    && Resolve(g, g[j].operands[0]).Const? && Resolve(g, g[j].operands[0]).value == a && InRange(ranges, a)
  }

  /** The VPC is known if and only if the register refers to a constant, or to a load from a safe constant
      address whose eight bytes are held. It is that constant, or what the bytes join to. */
  lemma VpcExact(p: Setting, e: EvalState)
    requires Ordered(e.instrs)
    ensures p.vpcReg !in e.regs ==> VpcOf(p, e).None?
    ensures p.vpcReg in e.regs ==>
              var v, r := Resolve(e.instrs, e.regs[p.vpcReg]), VpcOf(p, e);
              && (v.Const? ==> r == Some(v.value))
              && (!v.Const? ==>
                    && (forall j, a :: LoadsAt(e.instrs, p.ranges, v, j, a) ==>
                          r == if Held(e.bytes, a) then Some(HeldWord(e.bytes, a)) else None)
                    && ((forall j, a :: !LoadsAt(e.instrs, p.ranges, v, j, a)) ==> r.None?))
  {
    hide Resolve, IndexMap, Def, Ordered, BM.Load, BM.InSafeRange, InRange, Held, HeldWord;
    if p.vpcReg in e.regs {
      var v := Resolve(e.instrs, e.regs[p.vpcReg]);
      if v.InstrRef? {
        forall j: nat, a | LoadsAt(e.instrs, p.ranges, v, j, a)
          ensures VpcOf(p, e) == if Held(e.bytes, a) then Some(HeldWord(e.bytes, a)) else None
        {
          DefAt(e.instrs, j);
          LoadHeld(e.bytes, a);
          RangeSafe(p.ranges, a);
        }
        if VpcOf(p, e).Some? {
          var j := DefPosition(e.instrs, v.id);
          var a := Resolve(e.instrs, e.instrs[j].operands[0]).value;
          RangeSafe(p.ranges, a);
          assert LoadsAt(e.instrs, p.ranges, v, j, a);
        }
      }
    }
  }

  /** In every run of the trace in which, when such a load is reached, memory has the held bytes, the
      register's value is the VPC. For a constant there is no condition. */
  lemma VpcSound(p: Setting, e: EvalState, env: Env, s: State)
    requires WellFormed(e.instrs) && Ordered(e.instrs) && p.vpcReg in e.regs && VpcOf(p, e).Some?
    requires forall j, a :: LoadsAt(e.instrs, p.ranges, Resolve(e.instrs, e.regs[p.vpcReg]), j, a) ==>
               forall x :: Covers(a, x) ==> RunTo(e.instrs, j, env, s).mem(x) == BM.Known(e.bytes, x)
    ensures Eval(e.regs[p.vpcReg], env, Run(e.instrs, env, s).vals) == VpcOf(p, e).value
  {
    hide Resolve, Ordered, InRange, Held, HeldWord, RunTo, VpcOf, Load64, Covers, BM.Known;
    var g := e.instrs;
    var v := Resolve(g, e.regs[p.vpcReg]);
    VpcExact(p, e);
    ResolveSound(g, e.regs[p.vpcReg], |g|, env, s);
    if !v.Const? {
      var j, a :| LoadsAt(g, p.ranges, v, j, a);
      LoadedValue(g, j, a, e.bytes, env, s);
    }
  }

  lemma LoadedValue(g: Trace, j: nat, a: Word, bytes: BM.Bytes, env: Env, s: State)
    requires Ordered(g) && j < |g| && IsLoad(g[j])
    requires Resolve(g, g[j].operands[0]).Const? && Resolve(g, g[j].operands[0]).value == a
    requires forall x :: Covers(a, x) ==> RunTo(g, j, env, s).mem(x) == BM.Known(bytes, x)
    ensures Eval(g[j].Ref(), env, Run(g, env, s).vals) == HeldWord(bytes, a)
  {
    hide Resolve, Ordered, RunTo, Load64, Covers, BM.Known, Step;
    var t := RunTo(g, j, env, s);
    OperandBelow(g, g[j]);
    ResolveSound(g, g[j].operands[0], j, env, s);
    ResultStable(g, j, |g|, env, s);
    Promotion.NextState(g, j, env, s);
    LoadsWord(g[j], env, t);
    LoadAgree(t.mem, (x: Word) => BM.Known(bytes, x), a);
  }

  lemma LoadsWord(d: Instruction, env: Env, t: State)
    requires IsLoad(d)
    ensures var r := Step(d, env, t);
            d.resultId in r.vals && r.vals[d.resultId] == Load64(t.mem, Eval(d.operands[0], env, t.vals))
  {
    hide Load64;
  }

  // ----- the jump target -----

  predicate JumpsLast(g: Trace, j: nat)
    requires j < |g|
  {
    && (g[j].op == JMP || g[j].op == CALL)
    && forall k :: j < k < |g| ==> g[k].op != JMP && g[k].op != CALL
  }

  /** The last jump or call has a target if and only if its first operand is or refers to a constant. */
  lemma JumpTargetExact(g: Trace)
    requires Ordered(g)
    ensures (forall j :: 0 <= j < |g| ==> g[j].op != JMP && g[j].op != CALL) ==> JumpTarget(g).None?
    ensures forall j :: 0 <= j < |g| && JumpsLast(g, j) ==>
              JumpTarget(g) == if |g[j].operands| > 0 && Resolve(g, g[j].operands[0]).Const?
                               then Some(Resolve(g, g[j].operands[0]).value) else None
  {
    hide Resolve, Ordered;
    var last := LastJump(g, |g|);
  }

  // ----- lifting -----

  /** What lifting one instruction does: the emitted instructions are appended with consecutive ids, and
      the registers are those that the lifter returns. */
  ghost predicate LiftsTo(p: Setting, e: EvalState, insn: Insn, r: EvalState) {
    var l := p.lift(insn, e.regs, e.nextId);
    && r == e.(instrs := r.instrs, nextId := e.nextId + |l.emits|, regs := l.regs)
    && |r.instrs| == |e.instrs| + |l.emits| && r.instrs[..|e.instrs|] == e.instrs
    && forall k :: 0 <= k < |l.emits| ==>
         r.instrs[|e.instrs| + k]
         == Instruction(l.emits[k].op, l.emits[k].operands, e.nextId + k, l.emits[k].annotations)
  }

  /** From `c[0]` on, one instruction after the other is lifted. */
  ghost predicate LiftedAlong(p: Setting, insns: seq<Insn>, i: nat, c: seq<EvalState>) {
    && 0 < |c| && i + |c| - 1 <= |insns|
    && forall k :: 0 <= k < |c| - 1 ==> LiftsTo(p, c[k], insns[i + k], c[k + 1])
  }

  lemma LiftOneAs(p: Setting, e: EvalState, insn: Insn)
    requires Fits(p, e)
    ensures LiftsTo(p, e, insn, LiftOne(p, e, insn))
  {
    hide Fits;
  }

  /** How a window ends. After a `ret` the trace is folded; if then the last jump resolves to an address in
      safe memory and no dispatcher is known, control goes on there; otherwise it stops, at a VM exit if
      the stack pointer is back at its start or sixteen bytes below. */
  ghost predicate ReturnedAs(p: Setting, e: EvalState, start: Word, w: Window) {
    && WellFormed(e.instrs) && Ordered(w.state.instrs)
    && w.state == e.(instrs := FoldConverge(p.h, e.instrs, 8).trace)
    && var t := JumpTarget(w.state.instrs);
       if t.Some? && InRange(p.ranges, t.value) && e.dispatcherVa.None? then w.va == t.value && w.result == IN_PROGRESS
       else
         && w.va == start
         && w.result ==
            if "rsp" in e.regs && e.regs["rsp"].Const? && e.regs["rsp"].value == 0x7FFF_FFFF_D000 then VMEXIT_RET
            else if "rsp" in e.regs && e.regs["rsp"].Const? && e.regs["rsp"].value == 0x7FFF_FFFF_CFF0 then VMEXIT_CALL
            else RETURNED
  }

  /** A window is lifted instruction by instruction, up to the first terminator. */
  lemma {:induction false} WindowExact(p: Setting, e: EvalState, insns: seq<Insn>, i: nat, start: Word)
    returns (c: seq<EvalState>)
    requires Fits(p, e) && i <= |insns|
    ensures var w := LiftFrom(p, e, insns, i, start);
            && LiftedAlong(p, insns, i, c) && c[0] == e && w.lifted == i + |c| - 1
            && (forall k :: i <= k < w.lifted - 1 ==> insns[k].mnemonic !in ["ret", "jmp", "call"])
            && (w.lifted < |insns| ==> w.lifted > i && insns[w.lifted - 1].mnemonic in ["ret", "jmp", "call"])
            && (if w.lifted > i && insns[w.lifted - 1].mnemonic == "ret"
                then ReturnedAs(p, c[|c| - 1], start, w)
                else w == Window(c[|c| - 1], start, w.lifted, IN_PROGRESS))
    decreases |insns| - i
  {
    hide Fits, FoldConverge, JumpTarget, LiftsTo, LiftOne, WellFormed, Ordered;
    c := [e];
    if i < |insns| {
      LiftOneAs(p, e, insns[i]);
      var e' := LiftOne(p, e, insns[i]);
      if insns[i].mnemonic == "ret" {
        c := [e, e'];
        AtReturnAs(p, e', i + 1, start);
      } else if Guided.Terminates(insns[i]) {
        c := [e, e'];
      } else {
        var rest := WindowExact(p, e', insns, i + 1, start);
        c := [e] + rest;
      }
    }
  }

  lemma AtReturnAs(p: Setting, e: EvalState, lifted: nat, start: Word)
    requires Fits(p, e)
    ensures ReturnedAs(p, e, start, AtReturn(p, e, lifted, start)) && AtReturn(p, e, lifted, start).lifted == lifted
  {
    hide Fits, FoldConverge, JumpTarget, BM.InSafeRange, InRange, WellFormed, Ordered;
    FitsTrace(p, e);
    var f := Folded(p, e, 8);
    FitsTrace(p, f);
    var t := JumpTarget(f.instrs);
    if t.Some? { RangeSafe(p.ranges, t.value); }
  }

  // ----- folding and promoting -----

  /** One round: at most eight rounds of folding, then a sweep. */
  ghost predicate FoldedThenSwept(p: Setting, from: Promotion.Sweep, to: Promotion.Sweep) {
    && WellFormed(from.trace)
    && var f := FoldConverge(p.h, from.trace, 8).trace;
       to == Promotion.SweepTo(f, from.bytes, p.ranges, |f|)
  }

  ghost predicate FoldedPromoting(p: Setting, from: Promotion.Sweep) {
    && WellFormed(from.trace)
    && var f := FoldConverge(p.h, from.trace, 8).trace;
       SomePromoted(f, Promotion.SweepTo(f, from.bytes, p.ranges, |f|).trace)
  }

  /** The evaluator makes such rounds, one at least, as long as the last one promoted a load and the limit
      allows it. */
  lemma {:induction false} OptimizedRounds(p: Setting, g: Trace, bytes: BM.Bytes, rounds: nat)
    returns (s: seq<Promotion.Sweep>)
    requires WellFormed(g)
    ensures 0 < |s| <= rounds + 1 && s[0] == Promotion.Sweep(g, bytes) && s[|s| - 1] == Optimized(p, g, bytes, rounds)
    ensures forall k :: 0 <= k < |s| - 1 ==> FoldedThenSwept(p, s[k], s[k + 1])
    ensures forall k :: 0 <= k < |s| - 2 ==> FoldedPromoting(p, s[k])
    ensures |s| - 1 < rounds ==> |s| > 1 && !FoldedPromoting(p, s[|s| - 2])
    decreases rounds
  {
    hide WellFormed, Promotion.SweepTo, FoldConverge;
    s := [Promotion.Sweep(g, bytes)];
    if rounds > 0 {
      var f := FoldConverge(p.h, g, 8).trace;
      var w := Promotion.SweepTo(f, bytes, p.ranges, |f|);
      if Promotion.Hit(f, w.trace) {
        var rest := OptimizedRounds(p, w.trace, w.bytes, rounds - 1);
        s := s + rest;
      } else {
        s := s + [w];
      }
    }
  }

  // ----- evaluating a window -----

  /** The conditional jump at `j` has no constant condition, and no later one has none. */
  predicate OpensLast(g: Trace, j: nat)
    requires j < |g|
  {
    && g[j].op == CJMP && |g[j].operands| > 0 && !g[j].operands[0].Const?
    && forall k :: j < k < |g| && g[k].op == CJMP && |g[k].operands| > 0 ==> g[k].operands[0].Const?
  }

  /** The branches with the last open jump of the trace: its second operand is the taken target, its third
      the other, as far as they are constants. */
  ghost predicate BranchAdded(before: seq<VjccBranch>, after: seq<VjccBranch>, g: Trace, va: Word) {
    && (forall j :: 0 <= j < |g| && OpensLast(g, j) ==>
          var vs := g[j].operands;
          after == before + [VjccBranch(va, if |vs| > 1 && vs[1].Const? then Some(vs[1].value) else None,
                                        if |vs| > 2 && vs[2].Const? then Some(vs[2].value) else None)])
    && ((forall j :: 0 <= j < |g| ==> !OpensLast(g, j)) ==> after == before)
  }

  lemma RecordedAs(e: EvalState, va: Word)
    ensures BranchAdded(e.vjccBranches, Recorded(e, va), e.instrs, va)
  {
    var last := LastOpenBranch(e.instrs, |e.instrs|);
    if last.Some? { assert OpensLast(e.instrs, last.value); }
  }

  /** Where a lifted window leads once it is optimized: on to the target of its last jump, if that is a
      constant in the image; a stop at a return stays one. An unresolved jump records the open branch. */
  ghost predicate LeadsTo(p: Setting, m: Window, w: Window)
    requires Ordered(w.state.instrs)
  {
    && w.lifted == m.lifted
    && w.state == m.state.(instrs := w.state.instrs, bytes := w.state.bytes, vjccBranches := w.state.vjccBranches)
    && WellFormed(m.state.instrs)
    && Promotion.Sweep(w.state.instrs, w.state.bytes) == Optimized(p, m.state.instrs, m.state.bytes, 3)
    && var t := JumpTarget(w.state.instrs);
       if m.result != IN_PROGRESS || (t.Some? && t.value !in Addresses(p.base, p.imageSize)) then
         && w.va == m.va && w.state.vjccBranches == m.state.vjccBranches
         && w.result == if m.result != IN_PROGRESS then m.result else TARGET_OUTSIDE_IMAGE
       else if t.Some? then
         w.va == t.value && w.result == IN_PROGRESS && w.state.vjccBranches == m.state.vjccBranches
       else
         && w.va == m.va && w.result == UNRESOLVED_TARGET
         && BranchAdded(m.state.vjccBranches, w.state.vjccBranches, w.state.instrs, m.va)
  }

  lemma LedAs(p: Setting, o: Window)
    requires Fits(p, o.state)
    ensures Ordered(o.state.instrs)
    ensures var w, t := Led(p, o), JumpTarget(o.state.instrs);
            if o.result != IN_PROGRESS then w == o
            else if t.None? then
              && w == o.(state := o.state.(vjccBranches := w.state.vjccBranches), result := UNRESOLVED_TARGET)
              && BranchAdded(o.state.vjccBranches, w.state.vjccBranches, o.state.instrs, o.va)
            else if t.value in Addresses(p.base, p.imageSize) then w == o.(va := t.value)
            else w == o.(result := TARGET_OUTSIDE_IMAGE)
  {
    hide Fits, JumpTarget, Addresses, Ordered, BranchAdded, Recorded;
    FitsTrace(p, o.state);
    RecordedAs(o.state, o.va);
  }

  /** A window that can be read is lifted and optimized, and leads where `LeadsTo` says. */
  lemma EvaluatedExact(p: Setting, e: EvalState, va: Word)
    requires Fits(p, e)
    ensures var w, j := Evaluated(p, e, va), e.(jmpTrace := e.jmpTrace + [va]);
            && Ordered(w.state.instrs) && Fits(p, j)
            && match p.decode(va)
               case None => w == Window(j, va, 0, OUT_OF_BOUNDS)
               case Some(insns) => LeadsTo(p, LiftFrom(p, j, insns, 0, va), w)
  {
    hide Fits, Optimized, JumpTarget, Addresses, LiftFrom, Ordered, WellFormed, BranchAdded, Led;
    var j := e.(jmpTrace := e.jmpTrace + [va]);
    JumpedFits(p, e, va);
    FitsTrace(p, Evaluated(p, e, va).state);
    if p.decode(va).Some? {
      var m := LiftFrom(p, j, p.decode(va).value, 0, va);
      FitsTrace(p, m.state);
      LedAs(p, OptimizedWindow(p, m));
    }
  }

  // ----- arriving -----

  /** The handler that has just run, catalogued if a VPC is known and it emitted anything. */
  ghost predicate HandlerAdded(e: EvalState, cur: Option<Word>, after: seq<HandlerRecord>) {
    if e.lastVpc.Some? && e.irStart < |e.instrs| then
      && |after| == |e.handlers| + 1 && after[..|e.handlers|] == e.handlers
      && after[|e.handlers|]
         == HandlerRecord(e.lastVpc, cur, Va(if |e.jmpTrace| > 0 then e.jmpTrace[|e.jmpTrace| - 1] else 0), e.irStart,
                          |e.instrs|)
    else after == e.handlers
  }

  lemma CataloguedAs(e: EvalState, cur: Option<Word>)
    ensures var c := Catalogued(e, cur);
            HandlerAdded(e, cur, c.handlers) && c == e.(handlers := c.handlers, handlerFreq := c.handlerFreq)
  {}

  lemma DispatchedAs(p: Setting, e: EvalState, va: Word, maxVmInsns: int)
    requires Ordered(e.instrs) && e.dispatcherVa == Some(va)
    ensures AtDispatcher(e, va, VpcOf(p, e), maxVmInsns, Dispatched(p, e, va, maxVmInsns))
  {
    hide VpcOf, Ordered, Catalogued, HandlerAdded;
    CataloguedAs(e, VpcOf(p, e));
  }

  /** A first visit to an address goes on. The first address visited twice is the dispatcher; a second
      visit to any other is an inner loop. A visit to the dispatcher catalogs the handler that has run, and
      stops if the VPC is the one before, or if neither is known after the first instruction; otherwise it
      records the VPC and goes on below the limit, with nothing visited but the dispatcher. */
  lemma ArrivedExact(p: Setting, e: EvalState, va: Word, maxVmInsns: int)
    requires Ordered(e.instrs)
    ensures var a := Arrived(p, e, va, maxVmInsns);
            && (va !in e.visited ==> a == Arrival(e.(visited := e.visited + {va}), IN_PROGRESS, None))
            && (va in e.visited && e.dispatcherVa.Some? && e.dispatcherVa.value != va ==>
                  a == Arrival(e, INNER_LOOP, None))
            && (va in e.visited && (e.dispatcherVa.None? || e.dispatcherVa.value == va) ==>
                  AtDispatcher(e.(dispatcherVa := Some(va)), va, VpcOf(p, e), maxVmInsns, a))
  {
    hide VpcOf, Ordered, Dispatched, AtDispatcher;
    var d := e.(dispatcherVa := Some(va));
    VpcUnmoved(p, e, va);
    DispatchedAs(p, d, va, maxVmInsns);
    assert e.dispatcherVa == Some(va) ==> d == e;
  }

  lemma VpcUnmoved(p: Setting, e: EvalState, va: Word)
    requires Ordered(e.instrs)
    ensures VpcOf(p, e.(dispatcherVa := Some(va))) == VpcOf(p, e)
  {
    hide Ordered, Resolve, Def;
  }

  ghost predicate AtDispatcher(e: EvalState, va: Word, cur: Option<Word>, maxVmInsns: int, a: Arrival) {
    var r := a.state;
    && e.dispatcherVa == Some(va) && HandlerAdded(e, cur, r.handlers)
    && r == e.(handlers := r.handlers, handlerFreq := r.handlerFreq, lastVpc := r.lastVpc,
               vpcTrace := r.vpcTrace, irStart := r.irStart, vmInsnCount := r.vmInsnCount, visited := r.visited)
    && if (cur.Some? && cur == e.lastVpc) || (cur.None? && e.lastVpc.None? && e.vmInsnCount > 0) then
         && a.result == (if cur.Some? then VPC_CONVERGED else INNER_LOOP) && a.finalVpc == cur
         && r.lastVpc == e.lastVpc && r.vpcTrace == e.vpcTrace && r.irStart == e.irStart
         && r.vmInsnCount == e.vmInsnCount && r.visited == e.visited
       else
         && r.lastVpc == cur && r.vpcTrace == e.vpcTrace + [cur] && r.irStart == |e.instrs|
         && r.vmInsnCount == e.vmInsnCount + 1
         && if r.vmInsnCount >= maxVmInsns
            then a.result == MAX_VM_INSNS && a.finalVpc == cur && r.visited == e.visited
            else a.result == IN_PROGRESS && a.finalVpc.None? && r.visited == {va}
  }

  /** The registers at the start: the injected ones, the stack pointer unless it is injected, and those
      there were. */
  lemma SeededExact(e: EvalState, initial: Regs, r: string)
    ensures var s := Seeded(e, initial);
            && s == e.(regs := s.regs) && (r in s.regs <==> r in initial || r == "rsp" || r in e.regs)
            && (r in initial ==> s.regs[r] == initial[r])
            && (r !in initial && r == "rsp" ==> s.regs[r] == Const(0x7FFF_FFFF_D000, 64))
            && (r !in initial && r != "rsp" && r in e.regs ==> s.regs[r] == e.regs[r])
  {}

  /** A turn that goes on counts the instructions of the window it lifts, one by one. */
  lemma TurnSteps(p: Setting, at: Position, maxVmInsns: int)
    requires Fits(p, at.state)
    ensures Ordered(at.state.instrs) && Fits(p, Arrived(p, at.state, at.va, maxVmInsns).state)
    ensures var a, t := Arrived(p, at.state, at.va, maxVmInsns), Turn(p, at, maxVmInsns);
            if a.result != IN_PROGRESS
            then t == Position(a.state, at.va, at.steps, a.result, a.finalVpc)
            else
              var w := Evaluated(p, a.state, at.va);
              t == Position(w.state, w.va, at.steps + w.lifted, w.result, None)
              && (p.decode(at.va).None? ==> t.steps == at.steps)
              && (p.decode(at.va).Some? && (forall insn :: insn in p.decode(at.va).value ==>
                                              insn.mnemonic !in ["ret", "jmp", "call"]) ==>
                    t.steps == at.steps + |p.decode(at.va).value|)
  {
    hide Fits, Ordered, Arrived, Evaluated, LiftFrom;
    FitsTrace(p, at.state);
    ArrivedFits(p, at.state, at.va, maxVmInsns);
    var a := Arrived(p, at.state, at.va, maxVmInsns);
    if a.result == IN_PROGRESS {
      EvaluatedExact(p, a.state, at.va);
      if p.decode(at.va).Some? {
        var c := WindowExact(p, a.state.(jmpTrace := a.state.jmpTrace + [at.va]), p.decode(at.va).value, 0, at.va);
      }
    }
  }

  // ----- what the catalog says about the run -----

  /** The handler ran between two entries of the VPC trace: `t` and the next, or after the last one if the
      VPC did not change. It is catalogued under the address from which control came back to the
      dispatcher. */
  ghost predicate RanAt(e: EvalState, h: HandlerRecord, t: nat, q: nat) {
    && t < |e.vpcTrace| && h.vpcBefore == e.vpcTrace[t]
    && h.vpcAfter == (if t + 1 < |e.vpcTrace| then e.vpcTrace[t + 1] else e.vpcTrace[t])
    && q < |e.jmpTrace| && h.handlerVa == Va(e.jmpTrace[q])
    && (q + 1 < |e.jmpTrace| ==> Some(e.jmpTrace[q + 1]) == e.dispatcherVa)
  }

  ghost predicate Rising(s: seq<nat>) { forall i, j :: 0 <= i < j < |s| ==> s[i] < s[j] }

  /** Every handler of the catalog, in the order of the run. */
  ghost predicate CatalogFollows(e: EvalState, ts: seq<nat>, qs: seq<nat>) {
    && |ts| == |qs| == |e.handlers| && Rising(ts) && Rising(qs)
    && forall i :: 0 <= i < |e.handlers| ==> RanAt(e, e.handlers[i], ts[i], qs[i])
  }

  /** While the run goes on, both traces have gone beyond every handler. */
  ghost predicate GoneBeyond(e: EvalState, ts: seq<nat>, qs: seq<nat>) {
    && |ts| == |qs| && (forall i :: 0 <= i < |ts| ==> ts[i] + 1 < |e.vpcTrace| && qs[i] + 1 < |e.jmpTrace|)
    && (|ts| > 0 ==> e.dispatcherVa.Some?)
    && e.lastVpc == Last(e.vpcTrace) && (e.visited != {} ==> |e.jmpTrace| > 0)
  }

  lemma DispatcherFollows(e: EvalState, va: Word, cur: Option<Word>, maxVmInsns: int, a: Arrival, ts: seq<nat>,
                          qs: seq<nat>)
    returns (ts': seq<nat>, qs': seq<nat>)
    requires CatalogFollows(e, ts, qs) && GoneBeyond(e, ts, qs) && AtDispatcher(e, va, cur, maxVmInsns, a)
    requires |e.jmpTrace| > 0
    ensures CatalogFollows(a.state, ts', qs') && |ts'| == |qs'|
    ensures forall i :: 0 <= i < |ts'| ==> qs'[i] < |e.jmpTrace|
    ensures a.result == IN_PROGRESS ==>
              && (forall i :: 0 <= i < |ts'| ==> ts'[i] + 1 < |a.state.vpcTrace|)
              && a.state.lastVpc == Last(a.state.vpcTrace)
  {
    ts', qs' := ts, qs;
    if e.lastVpc.Some? && e.irStart < |e.instrs| { ts', qs' := ts + [|e.vpcTrace| - 1], qs + [|e.jmpTrace| - 1]; }
  }

  lemma ArrivedFollows(p: Setting, e: EvalState, va: Word, maxVmInsns: int, ts: seq<nat>, qs: seq<nat>)
    returns (ts': seq<nat>, qs': seq<nat>)
    requires Ordered(e.instrs) && CatalogFollows(e, ts, qs) && GoneBeyond(e, ts, qs)
    ensures var a := Arrived(p, e, va, maxVmInsns);
            && CatalogFollows(a.state, ts', qs')
            && (a.result == IN_PROGRESS ==>
                  GoneBeyond(a.state.(jmpTrace := a.state.jmpTrace + [va]), ts', qs')
                  && CatalogFollows(a.state.(jmpTrace := a.state.jmpTrace + [va]), ts', qs'))
  {
    hide VpcOf, Ordered, Arrived, CatalogFollows, GoneBeyond, AtDispatcher;
    ArrivedExact(p, e, va, maxVmInsns);
    BeyondFacts(e, ts, qs);
    var a := Arrived(p, e, va, maxVmInsns);
    ts', qs' := ts, qs;
    if va in e.visited && (e.dispatcherVa.None? || e.dispatcherVa.value == va) {
      var d := e.(dispatcherVa := Some(va));
      DispatcherKnown(e, d, ts, qs);
      ts', qs' := DispatcherFollows(d, va, VpcOf(p, e), maxVmInsns, a, ts, qs);
      DispatcherIs(d, va, VpcOf(p, e), maxVmInsns, a);
      if a.result == IN_PROGRESS { JumpAdded(a.state, va, ts', qs'); }
    } else if va !in e.visited {
      SameCatalog(e, a.state, ts, qs);
      PlainJump(a.state, va, ts, qs);
    }
  }

  lemma BeyondFacts(e: EvalState, ts: seq<nat>, qs: seq<nat>)
    requires GoneBeyond(e, ts, qs)
    ensures e.visited != {} ==> |e.jmpTrace| > 0
  {}

  lemma DispatcherIs(e: EvalState, va: Word, cur: Option<Word>, maxVmInsns: int, a: Arrival)
    requires AtDispatcher(e, va, cur, maxVmInsns, a)
    ensures a.state.dispatcherVa == Some(va) && a.state.jmpTrace == e.jmpTrace
  {
    hide HandlerAdded;
  }

  lemma DispatcherKnown(e: EvalState, d: EvalState, ts: seq<nat>, qs: seq<nat>)
    requires CatalogFollows(e, ts, qs) && GoneBeyond(e, ts, qs)
    requires d == e.(dispatcherVa := d.dispatcherVa) && d.dispatcherVa.Some?
    requires e.dispatcherVa.Some? ==> d.dispatcherVa == e.dispatcherVa
    ensures CatalogFollows(d, ts, qs) && GoneBeyond(d, ts, qs)
  {}

  /** Control goes on from the dispatcher. */
  lemma JumpAdded(e: EvalState, va: Word, ts: seq<nat>, qs: seq<nat>)
    requires CatalogFollows(e, ts, qs) && e.dispatcherVa == Some(va) && e.lastVpc == Last(e.vpcTrace)
    requires forall i :: 0 <= i < |ts| ==> ts[i] + 1 < |e.vpcTrace| && qs[i] < |e.jmpTrace|
    ensures var j := e.(jmpTrace := e.jmpTrace + [va]);
            CatalogFollows(j, ts, qs) && GoneBeyond(j, ts, qs)
  {}

  /** Control goes on from any other address. */
  lemma PlainJump(e: EvalState, va: Word, ts: seq<nat>, qs: seq<nat>)
    requires CatalogFollows(e, ts, qs) && |ts| == |qs| && (|ts| > 0 ==> e.dispatcherVa.Some?)
    requires forall i :: 0 <= i < |ts| ==> ts[i] + 1 < |e.vpcTrace| && qs[i] + 1 < |e.jmpTrace|
    requires e.lastVpc == Last(e.vpcTrace)
    ensures var j := e.(jmpTrace := e.jmpTrace + [va]);
            CatalogFollows(j, ts, qs) && GoneBeyond(j, ts, qs)
  {}

  lemma TurnFollows(p: Setting, at: Position, maxVmInsns: int, ts: seq<nat>, qs: seq<nat>)
    returns (ts': seq<nat>, qs': seq<nat>)
    requires Fits(p, at.state) && CatalogFollows(at.state, ts, qs) && GoneBeyond(at.state, ts, qs)
    ensures var t := Turn(p, at, maxVmInsns);
            CatalogFollows(t.state, ts', qs') && (t.result == IN_PROGRESS ==> GoneBeyond(t.state, ts', qs'))
  {
    hide Fits, Ordered, Arrived, Evaluated, CatalogFollows, GoneBeyond;
    FitsTrace(p, at.state);
    ArrivedFits(p, at.state, at.va, maxVmInsns);
    ts', qs' := ArrivedFollows(p, at.state, at.va, maxVmInsns, ts, qs);
    var a := Arrived(p, at.state, at.va, maxVmInsns);
    if a.result == IN_PROGRESS {
      EvaluatedKeeps(p, a.state, at.va);
      SameCatalog(a.state.(jmpTrace := a.state.jmpTrace + [at.va]), Evaluated(p, a.state, at.va).state, ts', qs');
    }
  }

  lemma SameCatalog(e: EvalState, w: EvalState, ts: seq<nat>, qs: seq<nat>)
    requires CatalogFollows(e, ts, qs) && GoneBeyond(e, ts, qs)
    requires w == e.(instrs := w.instrs, nextId := w.nextId, regs := w.regs, bytes := w.bytes,
                     visited := w.visited, vjccBranches := w.vjccBranches)
    ensures CatalogFollows(w, ts, qs) && (w.visited == e.visited ==> GoneBeyond(w, ts, qs))
    ensures forall i :: 0 <= i < |ts| ==> ts[i] + 1 < |w.vpcTrace| && qs[i] + 1 < |w.jmpTrace|
    ensures |ts| == |qs| && w.lastVpc == Last(w.vpcTrace) && (|ts| > 0 ==> w.dispatcherVa.Some?)
  {}

  /** The catalog of a run: its handlers follow the VPC trace, from one entry to the next, and stand under
      the addresses from which the dispatcher was reached. */
  lemma {:induction false} HandlersFollow(p: Setting, e: EvalState, start: Word, maxVmInsns: int, n: nat)
    returns (ts: seq<nat>, qs: seq<nat>)
    requires Fits(p, e) && Unused(e)
    ensures var at := Turns(p, e, start, maxVmInsns, n);
            CatalogFollows(at.state, ts, qs) && (at.result == IN_PROGRESS ==> GoneBeyond(at.state, ts, qs))
  {
    hide Fits, Turn, CatalogFollows, GoneBeyond;
    if n == 0 {
      ts, qs := [], [];
      NoHandlers(e);
    } else {
      ts, qs := HandlersFollow(p, e, start, maxVmInsns, n - 1);
      var at := Turns(p, e, start, maxVmInsns, n - 1);
      if at.result == IN_PROGRESS { ts, qs := TurnFollows(p, at, maxVmInsns, ts, qs); }
    }
  }

  lemma NoHandlers(e: EvalState)
    requires Unused(e)
    ensures CatalogFollows(e, [], []) && GoneBeyond(e, [], [])
  {}
}
