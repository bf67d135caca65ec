/** The guided evaluator itself: its loops and fields, against the functions of Guided. */
module GuidedRun {
  import opened Ir
  import opened Arithmetic
  import opened References
  import opened Rewrites
  import opened Convergence
  import opened Guided
  import BM = ByteMemory
  import Passes
  import Promotion

  class GuidedEvaluator {
    const base: Word
    const imageSize: nat
    const vpcReg: string
    const decode: Decoder
    const lift: Lifter
    const h: Host
    const func: Function
    const memory: BM.ByteMemory
    var regs: Regs
    var initialRegs: Regs
    var visited: set<Word>
    var jmpTrace: seq<Word>
    var dispatcherVa: Option<Word>
    var vpcTrace: seq<Option<Word>>
    var handlers: seq<HandlerRecord>
    var handlerFreq: map<Va, nat>
    var lastVpc: Option<Word>
    var handlerIrStart: nat
    var vmInsnCount: int
    var vjccBranches: seq<VjccBranch>

    ghost function Settings(): Setting
      reads memory
    {
      Setting(base, imageSize, vpcReg, decode, lift, h, memory.safeRanges)
    }

    ghost function Now(): EvalState
      reads this, func, memory
    {
      EvalState(func.instrs, func.nextId, regs, memory.bytes, visited, jmpTrace, dispatcherVa, vpcTrace, handlers,
                handlerFreq, lastVpc, handlerIrStart, vmInsnCount, vjccBranches)
    }

    ghost predicate Valid()
      reads this, func, memory
    {
      Fits(Settings(), Now())
    }

    constructor (base: Word, imageSize: nat, vpcReg: string, decode: Decoder, lift: Lifter, h: Host,
                 memory: BM.ByteMemory)
      requires LifterFits(lift)
      ensures fresh(func) && this.memory == memory
      ensures Settings() == Setting(base, imageSize, vpcReg, decode, lift, h, memory.safeRanges)
      ensures Valid() && Now() == Untouched(memory.bytes) && initialRegs == map[]
    {
      this.base, this.imageSize, this.vpcReg := base, imageSize, vpcReg;
      this.decode, this.lift, this.h := decode, lift, h;
      this.memory := memory;
      var f := new Function();
      func := f;
      regs, initialRegs, visited, jmpTrace, dispatcherVa := map[], map[], {}, [], None;
      vpcTrace, handlers, handlerFreq, lastVpc, handlerIrStart, vmInsnCount := [], [], map[], None, 0, 0;
      vjccBranches := [];
    }

    method SetInitialRegs(regs: Regs)
      modifies this`initialRegs
      ensures initialRegs == regs
    {
      initialRegs := regs;
    }

    lemma ValidTrace()
      requires Valid()
      ensures WellFormed(func.instrs) && Ordered(func.instrs) && func.Valid()
    {}

    method ResolveVpc() returns (r: Option<Word>)
      requires Ordered(func.instrs)
      ensures r == VpcOf(Settings(), Now())
    {
      hide Resolve, IndexMap, Ordered, BM.InSafeRange, BM.Load, Def;
      if vpcReg !in regs { return None; }
      var im := Passes.BuildInstrMap(func.instrs);
      var resolved := Passes.ResolveOperand(regs[vpcReg], im, func.instrs);
      if resolved.Const? { return Some(resolved.value); }
      if resolved.InstrRef? {
        var def := Passes.Find(func.instrs, im, resolved.id);
        if def.Some? && def.value.op == LOAD && |def.value.operands| > 0 {
          var addr := Passes.ResolveOperand(def.value.operands[0], im, func.instrs);
          if addr.Const? {
            var safe := memory.IsSafe(addr.value);
            if safe { r := memory.LoadU64(addr.value); return; }
          }
        }
      }
      return None;
    }

    method ResolveJmpTarget() returns (r: Option<Word>)
      requires Ordered(func.instrs)
      ensures r == JumpTarget(func.instrs)
    {
      hide Resolve, IndexMap, Ordered;
      var i := |func.instrs|;
      while i > 0
        invariant 0 <= i <= |func.instrs|
        invariant LastJump(func.instrs, i) == LastJump(func.instrs, |func.instrs|)
      {
        i := i - 1;
        var d := func.instrs[i];
        if d.op == JMP || d.op == CALL {
          if |d.operands| == 0 { return None; }
          var im := Passes.BuildInstrMap(func.instrs);
          var v := Passes.ResolveOperand(d.operands[0], im, func.instrs);
          if v.Const? { return Some(v.value); }
          return None;
        }
      }
      return None;
    }

    /** A stack back at its start is a return from the VM, sixteen bytes below it a call out of it. */
    method CheckVmexit() returns (r: Option<EvalResult>)
      ensures r == Some(VMEXIT_RET) <==> "rsp" in regs && regs["rsp"].Const? && regs["rsp"].value == INIT_RSP
      ensures r == Some(VMEXIT_CALL) <==> "rsp" in regs && regs["rsp"].Const? && regs["rsp"].value == INIT_RSP - 0x10
      ensures r in {None, Some(VMEXIT_RET), Some(VMEXIT_CALL)} && r == Vmexit(regs)
    {
      if "rsp" !in regs || !regs["rsp"].Const? { return None; }
      if regs["rsp"].value == INIT_RSP { return Some(VMEXIT_RET); }
      if regs["rsp"].value == INIT_RSP - 0x10 { return Some(VMEXIT_CALL); }
      return None;
    }

    method Fold(maxIters: int)
      requires Valid()
      modifies func`instrs
      ensures Valid() && Now() == old(Folded(Settings(), Now(), maxIters))
    {
      hide FoldConverge, LifterFits, RegsBelow;
      ValidTrace();
      ghost var after := Folded(Settings(), Now(), maxIters);
      var report := Passes.RunFoldConvergence(func, h, maxIters);
      assert Now() == after;
    }

    method LiftInsn(insn: Insn)
      requires Valid()
      modifies this`regs, func
      ensures Valid() && Now() == old(LiftOne(Settings(), Now(), insn))
    {
      ghost var after := LiftOne(Settings(), Now(), insn);
      var l := lift(insn, regs, func.nextId);
      ValidTrace();
      assert EmitsFit(l.emits, func.nextId);
      hide LifterFits, Fits, Emitted;
      EmitAll(l.emits);
      regs := l.regs;
      assert Now() == after;
    }

    method EmitAll(emits: seq<Emission>)
      requires func.Valid() && EmitsFit(emits, func.nextId)
      modifies func
      ensures func.instrs == old(func.instrs) + Emitted(emits, old(func.nextId))
      ensures func.nextId == old(func.nextId) + |emits|
    {
      hide WellFormed, Ordered, Emitted;
      ghost var id, g := func.nextId, func.instrs;
      for k := 0 to |emits|
        invariant func.Valid() && func.nextId == id + k
        invariant func.instrs + Emitted(emits, id)[k..] == g + Emitted(emits, id)
      {
        EmittedNext(emits, id, k);
        var ref := func.Emit(emits[k].op, emits[k].operands, emits[k].annotations);
      }
    }

    /** Lifts a window up to its first terminator. */
    method LiftWindow(insns: seq<Insn>, start: Word) returns (va: Word, lifted: nat, result: EvalResult)
      requires Valid()
      modifies this`regs, func
      ensures Valid() && Window(Now(), va, lifted, result) == old(LiftFrom(Settings(), Now(), insns, 0, start))
    {
      hide LiftOne, Folded, Fits, JumpTarget, BM.InSafeRange, Vmexit;
      va, lifted, result := start, 0, IN_PROGRESS;
      for i := 0 to |insns|
        invariant Valid() && va == start && result == IN_PROGRESS && lifted == i && Settings() == old(Settings())
        invariant LiftFrom(Settings(), Now(), insns, i, start) == old(LiftFrom(Settings(), Now(), insns, 0, start))
      {
        LiftInsn(insns[i]);
        lifted := lifted + 1;
        if insns[i].mnemonic == "ret" {
          Fold(8);
          FitsTrace(Settings(), Now());
          var target := ResolveJmpTarget();
          if target.Some? && dispatcherVa.None? {
            var safe := memory.IsSafe(target.value);
            if safe { va := target.value; return; }
          }
          var vmexit := CheckVmexit();
          result := if vmexit.Some? then vmexit.value else RETURNED;
          return;
        }
        if insns[i].mnemonic == "jmp" || insns[i].mnemonic == "call" { return; }
      }
    }

    /** Folds and promotes loads, at most three times, while loads are promoted. */
    method OptimizeAndPromote()
      requires Valid()
      modifies func`instrs, memory`bytes
      ensures WellFormed(old(func.instrs))
      ensures Promotion.Sweep(func.instrs, memory.bytes) == old(Optimized(Settings(), func.instrs, memory.bytes, 3))
      ensures Valid() && SameIds(old(func.instrs), func.instrs)
    {
      hide Fits, FoldConverge, Promotion.SweepTo, Promotion.Hit, WellFormed, RegsBelow, SameIds;
      FitsTrace(Settings(), Now());
      ghost var p, e := Settings(), Now();
      OptimizedSameIds(p, e.instrs, e.bytes, 3);
      FitsRewritten(p, e, Optimized(p, e.instrs, e.bytes, 3).trace, Optimized(p, e.instrs, e.bytes, 3).bytes);
      for round := 0 to 3
        invariant WellFormed(func.instrs) && Settings() == p
        invariant Now() == e.(instrs := func.instrs, bytes := memory.bytes)
        invariant Optimized(p, func.instrs, memory.bytes, 3 - round) == Optimized(p, e.instrs, e.bytes, 3)
      {
        var report := Passes.RunFoldConvergence(func, h, 8);
        var promoted := Promotion.SweepLoads(func, memory);
        if !promoted { break; }
      }
    }

    /** Catalogs the handler that has just run, if a VPC is known and it emitted anything. */
    method CatalogHandler(cur: Option<Word>)
      modifies this`handlers, this`handlerFreq
      ensures Now() == Catalogued(old(Now()), cur)
    {
      if lastVpc.Some? && handlerIrStart < |func.instrs| {
        var hva := Va(if |jmpTrace| == 0 then 0 else jmpTrace[|jmpTrace| - 1]);
        handlers := handlers + [HandlerRecord(lastVpc, cur, hva, handlerIrStart, |func.instrs|)];
        handlerFreq := handlerFreq[hva := FreqOf(handlerFreq, hva) + 1];
      }
    }

    /** One more VM instruction. */
    method RecordVpc(cur: Option<Word>)
      modifies this`lastVpc, this`vpcTrace, this`handlerIrStart, this`vmInsnCount
      ensures Now() == Advanced(old(Now()), cur)
    {
      lastVpc := cur;
      vpcTrace := vpcTrace + [cur];
      handlerIrStart := |func.instrs|;
      vmInsnCount := vmInsnCount + 1;
    }

    method Dispatch(va: Word, maxVmInsns: int) returns (result: EvalResult, finalVpc: Option<Word>)
      requires Ordered(func.instrs)
      modifies this`handlers, this`handlerFreq, this`lastVpc, this`vpcTrace, this`handlerIrStart, this`vmInsnCount,
               this`visited
      ensures Arrival(Now(), result, finalVpc) == Dispatched(Settings(), old(Now()), va, maxVmInsns)
    {
      hide Ordered, VpcOf, Catalogued, Advanced;
      result, finalVpc := IN_PROGRESS, None;
      ghost var e := Now();
      var cur := ResolveVpc();
      CatalogHandler(cur);
      CataloguedRest(e, cur);
      if cur.Some? && lastVpc.Some? && cur.value == lastVpc.value { return VPC_CONVERGED, cur; }
      if cur.None? && lastVpc.None? && vmInsnCount > 0 { return INNER_LOOP, None; }
      RecordVpc(cur);
      if vmInsnCount >= maxVmInsns { return MAX_VM_INSNS, cur; }
      visited := {va};
    }

    /** Records the last conditional jump whose condition is not a constant, if there is one. */
    method RecordVjcc(va: Word)
      modifies this`vjccBranches
      ensures vjccBranches == Recorded(old(Now()), va)
    {
      var i := |func.instrs|;
      while i > 0
        invariant 0 <= i <= |func.instrs|
        invariant LastOpenBranch(func.instrs, i) == LastOpenBranch(func.instrs, |func.instrs|)
      {
        i := i - 1;
        var d := func.instrs[i];
        if d.op == CJMP && |d.operands| > 0 && !d.operands[0].Const? {
          var taken := if |d.operands| >= 2 && d.operands[1].Const? then Some(d.operands[1].value) else None;
          var notTaken := if |d.operands| >= 3 && d.operands[2].Const? then Some(d.operands[2].value) else None;
          vjccBranches := vjccBranches + [VjccBranch(va, taken, notTaken)];
          return;
        }
      }
    }

    /** What happens on arriving at `va`, before its window is lifted. */
    method Arrive(va: Word, maxVmInsns: int) returns (result: EvalResult, finalVpc: Option<Word>)
      requires Ordered(func.instrs)
      modifies this`dispatcherVa, this`handlers, this`handlerFreq, this`lastVpc, this`vpcTrace, this`handlerIrStart,
               this`vmInsnCount, this`visited
      ensures Arrival(Now(), result, finalVpc) == Arrived(Settings(), old(Now()), va, maxVmInsns)
    {
      hide Ordered, Dispatched;
      result, finalVpc := IN_PROGRESS, None;
      if va in visited {
        if dispatcherVa.None? { dispatcherVa := Some(va); }
        if va == dispatcherVa.value {
          result, finalVpc := Dispatch(va, maxVmInsns);
        } else {
          result := INNER_LOOP;
        }
      } else {
        visited := visited + {va};
      }
    }

    /** Lifts and optimizes the window at `va`, and finds where it leads. */
    method Evaluate(va: Word) returns (next: Word, lifted: nat, result: EvalResult)
      requires Valid()
      modifies this`regs, this`jmpTrace, this`vjccBranches, func, memory`bytes
      ensures Valid() && Window(Now(), next, lifted, result) == old(Evaluated(Settings(), Now(), va))
    {
      hide Fits, JumpTarget, Ordered, WellFormed, LiftFrom, Optimized, Recorded;
      ghost var p, e := Settings(), Now();
      next, lifted, result := va, 0, IN_PROGRESS;
      JumpedFits(p, e, va);
      jmpTrace := jmpTrace + [va];
      var code := decode(va);
      if code.None? { result := OUT_OF_BOUNDS; return; }
      next, lifted, result := LiftWindow(code.value, va);
      ghost var w := Window(Now(), next, lifted, result);
      FitsTrace(p, Now());
      OptimizeAndPromote();
      assert Window(Now(), next, lifted, result) == OptimizedWindow(p, w);
      FitsTrace(p, Now());
      if result != IN_PROGRESS { return; }
      ghost var o := Window(Now(), next, lifted, result);
      var target := ResolveJmpTarget();
      if target.None? {
        RecordVjcc(next);
        result := UNRESOLVED_TARGET;
      } else if !IsInImage(target.value, base, imageSize) {
        result := TARGET_OUTSIDE_IMAGE;
      } else {
        next := target.value;
      }
      assert Window(Now(), next, lifted, result) == Led(p, o);
    }

    /** One turn of the loop. */
    method Iterate(va: Word, ghost steps: int, maxVmInsns: int)
      returns (next: Word, lifted: nat, result: EvalResult, finalVpc: Option<Word>)
      requires Valid()
      modifies this`dispatcherVa, this`handlers, this`handlerFreq, this`lastVpc, this`vpcTrace, this`handlerIrStart,
               this`vmInsnCount, this`visited, this`regs, this`jmpTrace, this`vjccBranches, func, memory`bytes
      ensures Valid() && Settings() == old(Settings())
      ensures Position(Now(), next, steps + lifted, result, finalVpc)
           == old(Turn(Settings(), Position(Now(), va, steps, IN_PROGRESS, None), maxVmInsns))
    {
      hide Fits, Ordered, Arrived, Evaluated;
      ghost var p, e := Settings(), Now();
      FitsTrace(p, e);
      ArrivedFits(p, e, va, maxVmInsns);
      next, lifted := va, 0;
      result, finalVpc := Arrive(va, maxVmInsns);
      if result == IN_PROGRESS {
        ArrivedNoVpc(p, e, va, maxVmInsns);
        next, lifted, result := Evaluate(va);
      }
    }

    /** The control loop: exactly the turns that its guard allows. */
    method Loop(startVa: Word, maxSteps: int, maxVmInsns: int)
      returns (va: Word, steps: int, result: EvalResult, finalVpc: Option<Word>, ghost turns: nat)
      requires Valid() && Unused(Now())
      modifies this, func, memory`bytes
      ensures Settings() == old(Settings()) && Valid()
      ensures old(Makes(Settings(), Now(), startVa, maxSteps, maxVmInsns, turns))
      ensures Position(Now(), va, steps, result, finalVpc) == old(Turns(Settings(), Now(), startVa, maxVmInsns, turns))
    {
      hide Fits, Turn, Unused, MostTurns;
      ghost var p, e := Settings(), Now();
      va, steps, result, finalVpc, turns := startVa, 0, IN_PROGRESS, None, 0;
      while steps < maxSteps && result == IN_PROGRESS
        invariant Settings() == p && Valid()
        invariant Position(Now(), va, steps, result, finalVpc) == Turns(p, e, startVa, maxVmInsns, turns)
        invariant result == IN_PROGRESS ==> finalVpc.None?
        invariant forall k :: 0 <= k < turns ==> Running(Turns(p, e, startVa, maxVmInsns, k), maxSteps)
        decreases MostTurns(maxVmInsns, imageSize) - turns
      {
        AnotherTurn(p, e, startVa, maxVmInsns, turns);
        ghost var at := Position(Now(), va, steps, result, finalVpc);
        var lifted;
        va, lifted, result, finalVpc := Iterate(va, steps, maxVmInsns);
        steps := steps + lifted;
        TurnNoVpc(p, at, maxVmInsns);
        turns := turns + 1;
      }
    }

    /** The loop, then the final optimization. The handler ranges lie in the trace as it was before
        that, which only shortens it. */
    method Run(startVa: Word, maxSteps: int, maxVmInsns: int) returns (report: EvalReport, ghost turns: nat)
      requires LifterFits(lift) && Unused(Now()) && RegsBelow(initialRegs, 0) && RegsBelow(regs, 0)
      modifies this, func, memory
      ensures memory.safeRanges == old(memory.safeRanges) + [BM.MemRange(0x7FFF_FFDF_D000, 0x8000_0000_D000)]
      ensures var e := Seeded(old(Now()), old(initialRegs));
              && Fits(Settings(), e) && Makes(Settings(), e, startVa, maxSteps, maxVmInsns, turns)
              && var last := Turns(Settings(), e, startVa, maxVmInsns, turns);
                 && WellFormed(last.state.instrs)
                 && Now() == last.state.(instrs := Converge(ALL_PASSES, h, last.state.instrs, map[], 0, 32).trace)
                 && Catalog(last.state, |last.state.instrs|) && report.irCount <= |last.state.instrs|
                 && (FixedPoint(ALL_PASSES, h, last.state.instrs) ==> Ranges(handlers, report.irCount))
                 && report == EvalReport(
                                if last.result == IN_PROGRESS then MAX_STEPS else last.result,
                                last.va, last.steps, vmInsnCount, |func.instrs|, dispatcherVa, last.finalVpc)
      ensures Ranges(handlers, report.irCount)
         <==> |handlers| == 0 || handlers[|handlers| - 1].irEnd <= report.irCount
      ensures vmInsnCount <= if maxVmInsns > 0 then maxVmInsns else 1
      ensures turns <= MostTurns(maxVmInsns, imageSize)
      ensures WindowsFilled(Settings()) ==> turns <= if maxSteps > 0 then maxSteps else 0
    {
      hide Fits, Makes, Turns, RegsBelow, LifterFits, Unused, CatalogFits, WindowsFilled, WellFormed, MostTurns, Ranges,
           FixedPoint, Converge;
      ghost var e := Seeded(Now(), initialRegs);
      regs := regs["rsp" := Const64(INIT_RSP)];
      regs := regs + initialRegs;
      memory.AddSafeRange(STACK.start, STACK.end);
      ghost var p := Settings();
      SeededFits(p, old(Now()), initialRegs);
      assert Now() == e;
      var va, steps, result, finalVpc;
      va, steps, result, finalVpc, turns := Loop(startVa, maxSteps, maxVmInsns);
      RunFacts(p, e, startVa, maxSteps, maxVmInsns, turns);
      if steps >= maxSteps && result == IN_PROGRESS { result := MAX_STEPS; }
      var converged := Passes.RunToConvergence(func, h, 32);
      report := EvalReport(result, va, steps, vmInsnCount, |func.instrs|, dispatcherVa, finalVpc);
    }
  }
}
