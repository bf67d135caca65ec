/** Full-SSA recovery along whole paths: which visits of the recovered function agree with the raw
    segments, exactly, and on which paths all of them do. */
module SsaPaths {
  import opened Ir
  import opened Machine
  import opened Cfg
  import opened Names
  import opened Recovery
  import opened Phi
  import opened FullSsa
  import opened GraphFacts
  import opened SsaMeaning
  import Drives

  // ----- what a block mentions -----

  /** An operand or the condition of block `b` is the entry symbol of `r`. */
  ghost predicate Reads(bb: BasicBlock, b: nat, r: string) {
    var v := SymReg(EntrySym(r, b));
    || (exists i, k :: 0 <= i < |bb.instrs| && 0 <= k < |bb.instrs[i].operands| && bb.instrs[i].operands[k] == v)
    || bb.term.condition == Some(v)
  }

  /** A tracked register leaves block `b` with what `r` held on entry. */
  ghost predicate Passes(g: Graph, regs: seq<string>, b: nat, r: string) {
    exists k, x :: 0 <= k < |ArmsOf(g, b)| && x in regs && Lookup(ArmsOf(g, b)[k].state, x) == SymReg(EntrySym(r, b))
  }

  ghost predicate Mentions(g: Graph, regs: seq<string>, b: nat, r: string) {
    Reads(BlockOf(g, b), b, r) || Passes(g, regs, b, r)
  }

  /** The registers on entry to the function. */
  ghost function Inputs0(init: VMState, env: Env): RegFile { (r: string) => Eval(Lookup(init, r), env, map[]) }

  // ----- raw visits under two register files -----

  lemma EvalFile(regs: seq<string>, b: nat, r: string, file: RegFile, env: Env, vals: Values)
    requires r in regs
    ensures Eval(SymReg(EntrySym(r, b)), BlockEnv(env, regs, b, file), vals) == file(r)
  {
    hide EntrySym;
    BoundOwn(regs, b, file, env.regs, r);
  }

  lemma EvalSame(regs: seq<string>, b: nat, v: Value, file: RegFile, now: RegFile, env: Env, vals: Values)
    requires forall r :: r in regs && v == SymReg(EntrySym(r, b)) ==> file(r) == now(r)
    ensures Eval(v, BlockEnv(env, regs, b, file), vals) == Eval(v, BlockEnv(env, regs, b, now), vals)
  {
    hide EntrySym;
    if v.SymReg? && Own(v.name, regs, b) {
      var r :| r in regs && v.name == EntrySym(r, b);
      EvalFile(regs, b, r, file, env, vals);
      EvalFile(regs, b, r, now, env, vals);
    }
  }

  /** The files agree on what the first `n` instructions read. */
  ghost predicate SameReads(t: Trace, n: nat, regs: seq<string>, b: nat, file: RegFile, now: RegFile)
    requires n <= |t|
  {
    forall i, k, r :: 0 <= i < n && 0 <= k < |t[i].operands| && r in regs ==>
      t[i].operands[k] == SymReg(EntrySym(r, b)) ==> file(r) == now(r)
  }

  lemma {:induction false} RunSame(t: Trace, n: nat, regs: seq<string>, b: nat, file: RegFile, now: RegFile, env: Env,
                                   s: State)
    requires n <= |t| && SameReads(t, n, regs, b, file, now)
    ensures RunTo(t, n, BlockEnv(env, regs, b, file), s) == RunTo(t, n, BlockEnv(env, regs, b, now), s)
    ensures Operands(t, n, BlockEnv(env, regs, b, file), s) == Operands(t, n, BlockEnv(env, regs, b, now), s)
  {
    hide BlockEnv, EntrySym, Execute;
    if n > 0 {
      var e, e', ops := BlockEnv(env, regs, b, file), BlockEnv(env, regs, b, now), t[n - 1].operands;
      RunSame(t, n - 1, regs, b, file, now, env, s);
      var u := RunTo(t, n - 1, e, s);
      forall k | 0 <= k < |ops| ensures Eval(ops[k], e, u.vals) == Eval(ops[k], e', u.vals) {
        EvalSame(regs, b, ops[k], file, now, env, u.vals);
      }
      assert EvalAll(ops, e, u.vals) == EvalAll(ops, e', u.vals);
      ExecuteBlockEnv(t[n - 1].op, Private(t[n - 1]), EvalAll(ops, e, u.vals), env, regs, b, file, u.mem, u.calls);
      ExecuteBlockEnv(t[n - 1].op, Private(t[n - 1]), EvalAll(ops, e, u.vals), env, regs, b, now, u.mem, u.calls);
    }
  }

  /** Registers that a block does not read make no difference to a visit. */
  lemma VisitSame(bb: BasicBlock, regs: seq<string>, b: nat, file: RegFile, now: RegFile, env: Env, s: State)
    requires forall r :: r in regs && Reads(bb, b, r) ==> file(r) == now(r)
    ensures VisitOf(bb, BlockEnv(env, regs, b, file), s) == VisitOf(bb, BlockEnv(env, regs, b, now), s)
    ensures Run(bb.instrs, BlockEnv(env, regs, b, file), s) == Run(bb.instrs, BlockEnv(env, regs, b, now), s)
  {
    hide BlockEnv, EntrySym, Operands, RunTo;
    RunSame(bb.instrs, |bb.instrs|, regs, b, file, now, env, s);
    if bb.term.condition.Some? {
      EvalSame(regs, b, bb.term.condition.value, file, now, env, Run(bb.instrs, BlockEnv(env, regs, b, file), s).vals);
    }
  }

  lemma {:induction false} OperandsAt(t: Trace, n: nat, env: Env, s: State, i: nat)
    requires i < n <= |t|
    ensures |Operands(t, n, env, s)| == n
    ensures Operands(t, n, env, s)[i] == EvalAll(t[i].operands, env, RunTo(t, i, env, s).vals)
  {
    hide EvalAll;
    if i < n - 1 {
      OperandsAt(t, n - 1, env, s, i);
    } else if n > 1 {
      OperandsAt(t, n - 1, env, s, n - 2);
    }
  }

  /** Every register that a block reads shows in its visit. */
  lemma VisitShows(bb: BasicBlock, regs: seq<string>, b: nat, file: RegFile, now: RegFile, env: Env, s: State,
                   r: string)
    requires VisitOf(bb, BlockEnv(env, regs, b, file), s) == VisitOf(bb, BlockEnv(env, regs, b, now), s)
    requires r in regs && Reads(bb, b, r)
    ensures file(r) == now(r)
  {
    hide BlockEnv, EntrySym, Operands, RunTo, Eval;
    var e, e', v := BlockEnv(env, regs, b, file), BlockEnv(env, regs, b, now), SymReg(EntrySym(r, b));
    if bb.term.condition == Some(v) {
      EvalFile(regs, b, r, file, env, Run(bb.instrs, e, s).vals);
      EvalFile(regs, b, r, now, env, Run(bb.instrs, e', s).vals);
    } else {
      var i, k :| 0 <= i < |bb.instrs| && 0 <= k < |bb.instrs[i].operands| && bb.instrs[i].operands[k] == v;
      OperandsAt(bb.instrs, |bb.instrs|, e, s, i);
      OperandsAt(bb.instrs, |bb.instrs|, e', s, i);
      EvalFile(regs, b, r, file, env, RunTo(bb.instrs, i, e, s).vals);
      EvalFile(regs, b, r, now, env, RunTo(bb.instrs, i, e', s).vals);
    }
  }

  // ----- one visit, exactly -----

  /** What the recovered function takes the registers to be on entry to block `b`. */
  ghost function Defined(p: Setup, b: nat, env: Env, vals: Values): RegFile {
    (r: string) => if EntrySym(r, b) in p.out then Eval(p.out[EntrySym(r, b)], env, vals) else 0
  }

  lemma DefinedWired(p: Setup, b: nat, env: Env, vals: Values)
    requires p.Valid() && b < |p.g.vpcs|
    ensures Wired(p, b, Defined(p, b, env, vals), env, vals)
  {
    hide EntrySym, Sound, Hygienic, GreatestId, Definitions;
    forall r | r in p.Regs() ensures EntrySym(r, b) in p.out { KeyOf(p, b, r); }
  }

  /** The visits agree if and only if every register that the block reads has its value. */
  lemma VisitExact(p: Setup, b: nat, file: RegFile, env: Env, s: State, t: State)
    requires p.Valid() && b < |p.g.vpcs| && Agree(p, s, t)
    ensures VisitOf(BlockOf(p.g, b), BlockEnv(env, p.Regs(), b, file), s) == VisitOf(p.Block(b), env, t)
       <==> forall r :: r in p.Regs() && Reads(BlockOf(p.g, b), b, r) ==> file(r) == Defined(p, b, env, t.vals)(r)
  {
    hide Setup.Valid, Setup.Block, VisitOf, BlockEnv, Agree, Wired, Reads, BlockOf, Defined;
    var bb, now := BlockOf(p.g, b), Defined(p, b, env, t.vals);
    DefinedWired(p, b, env, t.vals);
    VisitAgrees(p, b, now, env, s, t);
    if forall r :: r in p.Regs() && Reads(bb, b, r) ==> file(r) == now(r) {
      VisitSame(bb, p.Regs(), b, file, now, env, s);
    }
    if VisitOf(bb, BlockEnv(env, p.Regs(), b, file), s) == VisitOf(p.Block(b), env, t) {
      forall r | r in p.Regs() && Reads(bb, b, r) ensures file(r) == now(r) {
        VisitShows(bb, p.Regs(), b, file, now, env, s, r);
      }
    }
  }

  lemma PhiIffDisagree(p: Setup, b: nat, r: string)
    requires r in p.Regs()
    ensures FirstPhi(p.Phis(b), r).Some? <==> Disagree(In(p.g, b), r)
  {
    hide PhisOf, InUpTo, Disagree;
    PhiPlacementExact(p.g, p.Regs(), p.Base(), b, r);
  }

  /** Without a phi, the entry's symbols denote the function inputs, whatever has run before: the
      implicit edge into the function is all they are wired to. */
  lemma EntryDefined(p: Setup, r: string, env: Env, vals: Values)
    requires p.Valid() && r in p.Regs() && !Disagree(In(p.g, 0), r)
    ensures Defined(p, 0, env, vals)(r) == Inputs0(p.init, env)(r)
  {
    hide EntrySym, PhisOf, FirstPhi, Sound, GreatestId, IsEntry, InUpTo, Disagree, SegmentOwned, SegmentComplete,
         ArmsApart, IdsApart;
    EntrySize(p);
    PhiIffDisagree(p, 0, r);
    KeyOf(p, 0, r);
    InputIsFree(p, r);
  }

  /** A return to the entry over an edge: the visit that follows agrees with the raw one if and only
      if every register that the entry reads, and that has no phi there, is back at its input. */
  lemma EntryReturnExact(p: Setup, b: nat, k: nat, file: RegFile, env: Env, s: State, t: State)
    requires p.Valid() && b < |p.g.arms| && k < |p.g.arms[b]| && p.g.arms[b][k].to == 0
    requires Agree(p, s, t) && Wired(p, b, file, env, t.vals)
    ensures var after := RegsAfter(BlockEnv(env, p.Regs(), b, file), s.vals, p.g.arms[b][k].state);
            (VisitOf(BlockOf(p.g, 0), BlockEnv(env, p.Regs(), 0, after), s)
             == VisitOf(p.Block(0), env, Enter(p.Block(0), b, env, t)))
            <==> forall r :: r in p.Regs() && Reads(BlockOf(p.g, 0), 0, r) && !Disagree(In(p.g, 0), r) ==>
                   after(r) == Inputs0(p.init, env)(r)
  {
    hide Setup.Valid, Setup.Block, VisitOf, BlockEnv, Agree, Wired, Reads, BlockOf, Defined, Enter, RegsAfter, Inputs0,
         Disagree, InUpTo, FirstPhi, PhisOf;
    ValidSizes(p);
    EntrySize(p);
    var after := RegsAfter(BlockEnv(env, p.Regs(), b, file), s.vals, p.g.arms[b][k].state);
    var u := Enter(p.Block(0), b, env, t);
    EnterAgrees(p, b, 0, env, s, t);
    VisitExact(p, 0, after, env, s, u);
    forall r | r in p.Regs()
      ensures Disagree(In(p.g, 0), r) ==> Defined(p, 0, env, u.vals)(r) == after(r)
      ensures !Disagree(In(p.g, 0), r) ==> Defined(p, 0, env, u.vals)(r) == Inputs0(p.init, env)(r)
    {
      if Disagree(In(p.g, 0), r) {
        PhiIffDisagree(p, 0, r);
        PhiWired(p, b, k, r, file, env, s, t);
        DefinedAt(p, 0, r, env, u.vals);
      } else {
        EntryDefined(p, r, env, u.vals);
      }
    }
  }

  lemma EntrySize(p: Setup)
    requires p.Valid()
    ensures 0 < |p.g.vpcs|
  {
    hide Hygienic, GreatestId, Definitions, ArmsMatch, BornEarlier;
  }

  lemma DefinedAt(p: Setup, b: nat, r: string, env: Env, vals: Values)
    requires EntrySym(r, b) in p.out
    ensures Defined(p, b, env, vals)(r) == Eval(p.out[EntrySym(r, b)], env, vals)
  {}

  ghost predicate FirstVisitAgrees(p: Setup, env: Env, mem: Memory) {
    VisitOf(BlockOf(p.g, 0), BlockEnv(env, p.Regs(), 0, Inputs0(p.init, env)), Machine.Start(mem))
      == VisitOf(p.Block(0), env, Machine.Start(mem))
  }

  /** The first visit: a phi of the entry has no input for the way into the function. So the visit
      agrees in every environment if and only if the entry reads no register that has a phi there. */
  lemma FirstVisitExact(p: Setup)
    requires p.Valid()
    ensures (forall env: Env, mem: Memory :: FirstVisitAgrees(p, env, mem))
       <==> forall r :: r in p.Regs() && Reads(BlockOf(p.g, 0), 0, r) ==> !Disagree(In(p.g, 0), r)
  {
    hide Setup.Valid, Setup.Block, VisitOf, BlockEnv, Reads, BlockOf, Defined, Inputs0, Disagree, InUpTo;
    EntrySize(p);
    if forall r :: r in p.Regs() && Reads(BlockOf(p.g, 0), 0, r) ==> !Disagree(In(p.g, 0), r) {
      forall env: Env, mem: Memory ensures FirstVisitAgrees(p, env, mem) { FirstVisitSame(p, env, mem); }
    }
    forall r | r in p.Regs() && Reads(BlockOf(p.g, 0), 0, r) && Disagree(In(p.g, 0), r)
      ensures exists env: Env, mem: Memory :: !FirstVisitAgrees(p, env, mem)
    {
      var env, mem := FirstVisitDiffers(p, r);
    }
  }

  lemma FirstVisitSame(p: Setup, env: Env, mem: Memory)
    requires p.Valid() && forall r :: r in p.Regs() && Reads(BlockOf(p.g, 0), 0, r) ==> !Disagree(In(p.g, 0), r)
    ensures FirstVisitAgrees(p, env, mem)
  {
    hide Setup.Valid, Setup.Block, VisitOf, BlockEnv, Reads, BlockOf, Defined, Inputs0, Disagree, InUpTo;
    EntrySize(p);
    var s := Machine.Start(mem);
    forall r | r in p.Regs() && Reads(BlockOf(p.g, 0), 0, r)
      ensures Inputs0(p.init, env)(r) == Defined(p, 0, env, s.vals)(r)
    {
      EntryDefined(p, r, env, s.vals);
    }
    VisitExact(p, 0, Inputs0(p.init, env), env, s, s);
  }

  /** An environment whose undefined results differ from the input. */
  lemma FirstVisitDiffers(p: Setup, r: string) returns (env: Env, mem: Memory)
    requires p.Valid() && r in p.Regs() && Reads(BlockOf(p.g, 0), 0, r) && Disagree(In(p.g, 0), r)
    ensures !FirstVisitAgrees(p, env, mem)
  {
    hide Setup.Valid, Setup.Block, VisitOf, BlockEnv, Reads, BlockOf, Defined, Disagree, InUpTo, PhisOf, FirstPhi;
    EntrySize(p);
    mem := a => 0;
    var any := Env((o, a, b) => 0, (o, a) => 0, (o, a) => 0, n => 0, (i, w) => 0, i => 0,
                   (n, a, m: Memory) => CallResult(0, mem));
    var input := Inputs0(p.init, any)(r);
    env := any.(undef := i => if input == 0 then 1 else 0);
    var s := Machine.Start(mem);
    PhiIffDisagree(p, 0, r);
    PhiUndefined(p, r, env);
    InputFixed(p, r, any, env);
    VisitExact(p, 0, Inputs0(p.init, env), env, s, s);
  }

  lemma PhiUndefined(p: Setup, r: string, env: Env)
    requires p.Valid() && r in p.Regs() && FirstPhi(p.Phis(0), r).Some?
    ensures Defined(p, 0, env, map[])(r) == env.undef(FirstPhi(p.Phis(0), r).value)
  {
    hide EntrySym, PhisOf, FirstPhi, Hygienic, GreatestId;
    EntrySize(p);
    KeyOf(p, 0, r);
  }

  lemma InputFixed(p: Setup, r: string, env: Env, env': Env)
    requires p.Valid() && r in p.Regs() && env.regs == env'.regs && env.symMem == env'.symMem
    ensures Inputs0(p.init, env)(r) == Inputs0(p.init, env')(r)
  {
    hide Setup.Valid;
    InputIsFree(p, r);
  }

  // ----- whole paths -----

  lemma NextArm(p: Setup, b: nat, k: nat)
    requires Sound(p.g) && b < |p.g.vpcs|
    ensures Next(p.Block(b).term, k) == if k < |ArmsOf(p.g, b)| then Some(ArmsOf(p.g, b)[k].to) else None
  {
    hide PhisOf, RewriteTrace, RewritePhis, BornEarlier, Distinct;
    if b < |p.g.arms| { assert ArmsMatch(p.g, b); }
  }

  lemma ValidArms(p: Setup)
    requires p.Valid()
    ensures Sound(p.g)
    ensures forall b, k :: 0 <= b < |p.g.arms| && 0 <= k < |p.g.arms[b]| ==> p.g.arms[b][k].to < |p.g.vpcs|
  {
    hide Hygienic, GreatestId, Definitions, Sound;
    SoundSizes(p.g);
  }

  /** What the recovered function takes the registers to be at first: an entry phi is undefined. */
  ghost function FirstTaken(g: Graph, regs: seq<string>, init: VMState, base: nat, env: Env): RegFile {
    (r: string) =>
      match FirstPhi(PhisOf(g, regs, base, 0), r)
      case Some(id) => env.undef(id)
      case None => Inputs0(init, env)(r)
  }

  /** ... and after arm `a` of block `b`, entered with `now`: a return to the entry goes back to the
      inputs where there is no phi. */
  ghost function NextTaken(g: Graph, regs: seq<string>, init: VMState, env: Env, b: nat, now: RegFile, vals: Values,
                           a: Arm): RegFile
  {
    (r: string) =>
      if a.to == 0 && !Disagree(In(g, 0), r) then Inputs0(init, env)(r)
      else RegsAfter(BlockEnv(env, regs, b, now), vals, a.state)(r)
  }

  /** Along the raw run every register that a visited block reads is what it is taken to be. */
  ghost predicate ReadsRight(g: Graph, regs: seq<string>, init: VMState, env: Env, b: nat, file: RegFile, now: RegFile,
                             s: State, path: seq<nat>)
    decreases |path|
  {
    && (forall r :: r in regs && Reads(BlockOf(g, b), b, r) ==> file(r) == now(r))
    && (|path| > 0 && path[0] < |ArmsOf(g, b)| ==>
          var e := BlockEnv(env, regs, b, file);
          var a := ArmsOf(g, b)[path[0]];
          var t := Run(BlockOf(g, b).instrs, e, s);
          ReadsRight(g, regs, init, env, a.to, RegsAfter(e, t.vals, a.state),
                     NextTaken(g, regs, init, env, b, now, t.vals, a), t, path[1..]))
  }

  lemma FirstWired(p: Setup, env: Env)
    requires p.Valid() && 0 < |p.g.vpcs|
    ensures Wired(p, 0, FirstTaken(p.g, p.Regs(), p.init, p.Base(), env), env, map[])
  {
    hide Setup.Valid, EntrySym, PhisOf, FirstPhi, Disagree, InUpTo, Inputs0, Defined;
    DefinedWired(p, 0, env, map[]);
    forall r | r in p.Regs()
      ensures Defined(p, 0, env, map[])(r) == FirstTaken(p.g, p.Regs(), p.init, p.Base(), env)(r)
    {
      PhiIffDisagree(p, 0, r);
      if FirstPhi(p.Phis(0), r).Some? { PhiUndefined(p, r, env); } else { EntryDefined(p, r, env, map[]); }
    }
    WiredSame(p, 0, Defined(p, 0, env, map[]), FirstTaken(p.g, p.Regs(), p.init, p.Base(), env), env, map[]);
  }

  lemma WiredSame(p: Setup, b: nat, file: RegFile, now: RegFile, env: Env, vals: Values)
    requires Wired(p, b, file, env, vals) && forall r :: r in p.Regs() ==> file(r) == now(r)
    ensures Wired(p, b, now, env, vals)
  {
    hide EntrySym;
  }

  /** Over any edge the recovered function has the registers as `NextTaken` says. */
  lemma NextWired(p: Setup, b: nat, k: nat, now: RegFile, env: Env, s: State, t: State)
    requires p.Valid() && b < |p.g.arms| && k < |p.g.arms[b]|
    requires Agree(p, s, t) && Wired(p, b, now, env, t.vals)
    ensures var a := p.g.arms[b][k];
            && a.to < |p.g.vpcs|
            && Wired(p, a.to, NextTaken(p.g, p.Regs(), p.init, env, b, now, s.vals, a), env,
                     Enter(p.Block(a.to), b, env, t).vals)
  {
    hide Setup.Valid, Setup.Block, BlockEnv, Agree, Wired, Defined, Enter, RegsAfter, Inputs0, Disagree, InUpTo,
         FirstPhi, PhisOf;
    ValidArms(p);
    var a := p.g.arms[b][k];
    var next := NextTaken(p.g, p.Regs(), p.init, env, b, now, s.vals, a);
    var vals := Enter(p.Block(a.to), b, env, t).vals;
    if a.to == 0 {
      DefinedWired(p, 0, env, vals);
      forall r | r in p.Regs() ensures Defined(p, 0, env, vals)(r) == next(r) {
        if Disagree(In(p.g, 0), r) {
          PhiIffDisagree(p, 0, r);
          PhiWired(p, b, k, r, now, env, s, t);
          DefinedAt(p, 0, r, env, vals);
        } else {
          EntryDefined(p, r, env, vals);
        }
      }
      WiredSame(p, 0, Defined(p, 0, env, vals), next, env, vals);
    } else {
      EdgeWired(p, b, k, now, env, s, t);
      WiredSame(p, a.to, RegsAfter(BlockEnv(env, p.Regs(), b, now), s.vals, a.state), next, env, vals);
    }
  }

  lemma VisitTaken(p: Setup, b: nat, file: RegFile, now: RegFile, env: Env, s: State, t: State)
    requires p.Valid() && b < |p.g.vpcs| && Agree(p, s, t) && Wired(p, b, now, env, t.vals)
    ensures VisitOf(BlockOf(p.g, b), BlockEnv(env, p.Regs(), b, file), s) == VisitOf(p.Block(b), env, t)
       <==> forall r :: r in p.Regs() && Reads(BlockOf(p.g, b), b, r) ==> file(r) == now(r)
  {
    hide Setup.Valid, Setup.Block, VisitOf, BlockEnv, Agree, Reads, BlockOf, EntrySym;
    VisitExact(p, b, file, env, s, t);
    forall r | r in p.Regs() ensures Defined(p, b, env, t.vals)(r) == now(r) { DefinedAt(p, b, r, env, t.vals); }
  }

  /** The visits along a path agree if and only if every register read on it is what the recovered
      function takes it to be. */
  lemma {:induction false} PathsExact(p: Setup, b: nat, file: RegFile, now: RegFile, env: Env, s: State, t: State,
                                      path: seq<nat>)
    requires p.Valid() && b < |p.g.vpcs| && Agree(p, s, t) && Wired(p, b, now, env, t.vals)
    ensures SsaRun(p.Blocks(), env, b, t, path) == RawRun(p.g, p.Regs(), env, b, file, s, path)
       <==> ReadsRight(p.g, p.Regs(), p.init, env, b, file, now, s, path)
    decreases |path|
  {
    hide Setup.Valid, BlockEnv, Agree, Wired, VisitOf, Enter, RegsAfter, NextTaken, Setup.Block, Run, BlockOf, Next,
         Reads, Sound;
    var ssa, raw := SsaRun(p.Blocks(), env, b, t, path), RawRun(p.g, p.Regs(), env, b, file, s, path);
    VisitTaken(p, b, file, now, env, s, t);
    if ssa[0] == raw[0] {
      VisitAgrees(p, b, now, env, s, t);
      VisitSame(BlockOf(p.g, b), p.Regs(), b, file, now, env, s);
      if |path| > 0 {
        var k := path[0];
        ValidArms(p);
        NextArm(p, b, k);
        if k < |ArmsOf(p.g, b)| {
          var a := p.g.arms[b][k];
          var e := BlockEnv(env, p.Regs(), b, file);
          var s', t' := Run(BlockOf(p.g, b).instrs, e, s), Run(p.Block(b).instrs, env, t);
          NextWired(p, b, k, now, env, s', t');
          EnterAgrees(p, b, a.to, env, s', t');
          var u := Enter(p.Block(a.to), b, env, t');
          var next := NextTaken(p.g, p.Regs(), p.init, env, b, now, s'.vals, a);
          PathsExact(p, a.to, RegsAfter(e, s'.vals, a.state), next, env, s', u, path[1..]);
          assert ssa[1..] == SsaRun(p.Blocks(), env, a.to, u, path[1..]);
          assert raw[1..] == RawRun(p.g, p.Regs(), env, a.to, RegsAfter(e, s'.vals, a.state), s', path[1..]);
          assert ssa == [ssa[0]] + ssa[1..] && raw == [raw[0]] + raw[1..];
        }
      }
    }
  }

  /** The recovered blocks show on a path what the raw segments show. */
  ghost predicate SameVisits(blocks: seq<BasicBlock>, g: Graph, regs: seq<string>, init: VMState, env: Env, mem: Memory,
                             path: seq<nat>)
    requires |blocks| > 0
  {
    SsaRun(blocks, env, 0, Machine.Start(mem), path)
    == RawRun(g, regs, env, 0, Inputs0(init, env), Machine.Start(mem), path)
  }

  /** From the function's entry, every register read on the path is what it is taken to be. */
  ghost predicate PathRight(g: Graph, regs: seq<string>, init: VMState, base: nat, env: Env, mem: Memory,
                            path: seq<nat>)
  {
    ReadsRight(g, regs, init, env, 0, Inputs0(init, env), FirstTaken(g, regs, init, base, env), Machine.Start(mem),
               path)
  }

  /** Main theorem, exact: on a path, cyclic or not, whether or not it returns to the entry, the
      recovered blocks show the same operands, conditions, memory and events as the raw segments if
      and only if every register that is read is what it is taken to be. */
  lemma SsaPathExact(g: Graph, c: Config, init: VMState, m: nat, out: Subst, env: Env, mem: Memory, path: seq<nat>)
    requires c.FullSsa() && Sound(g) && Hygienic(g, c, init)
    requires GreatestId(BlocksOf(g), m) && Definitions(out, g, c, init, m + 1)
    ensures var blocks := RecoveredBlocks(g, c, c.trackedRegs, m + 1, out);
            && |blocks| > 0
            && (SameVisits(blocks, g, c.trackedRegs, init, env, mem, path)
                <==> PathRight(g, c.trackedRegs, init, m + 1, env, mem, path))
  {
    hide Hygienic, GreatestId, Definitions, RewriteBlocks, PhiBlocks, Wired, SsaRun, RawRun, ReadsRight, FirstTaken,
         Inputs0, BornEarlier, ArmsMatch, Distinct;
    var p := Setup(g, c, init, m, out);
    FirstWired(p, env);
    PathsExact(p, 0, Inputs0(init, env), FirstTaken(g, p.Regs(), init, m + 1, env), env, Machine.Start(mem),
               Machine.Start(mem), path);
  }

  // ----- returns that restore the entry -----

  /** No register that the entry mentions has a phi there. */
  ghost predicate EntryClean(g: Graph, regs: seq<string>) {
    forall r :: r in regs && Mentions(g, regs, 0, r) ==> !Disagree(In(g, 0), r)
  }

  /** Every register that the entry mentions holds its input. */
  ghost predicate Restored(g: Graph, regs: seq<string>, init: VMState, env: Env, file: RegFile) {
    forall r :: r in regs && Mentions(g, regs, 0, r) ==> file(r) == Inputs0(init, env)(r)
  }

  /** Whenever the raw run returns to the entry, the registers that the entry mentions are back at
      their inputs. */
  ghost predicate ReturnsRestored(g: Graph, regs: seq<string>, init: VMState, env: Env, b: nat, file: RegFile, s: State,
                                  path: seq<nat>)
    decreases |path|
  {
    |path| > 0 && path[0] < |ArmsOf(g, b)| ==>
      var e := BlockEnv(env, regs, b, file);
      var a := ArmsOf(g, b)[path[0]];
      var t := Run(BlockOf(g, b).instrs, e, s);
      var after := RegsAfter(e, t.vals, a.state);
      (a.to == 0 ==> Restored(g, regs, init, env, after))
      && ReturnsRestored(g, regs, init, env, a.to, after, t, path[1..])
  }

  /** The two files agree on what block `b` mentions. */
  ghost predicate AlikeFor(g: Graph, regs: seq<string>, b: nat, file: RegFile, now: RegFile) {
    forall r :: r in regs && Mentions(g, regs, b, r) ==> file(r) == now(r)
  }

  lemma AfterSame(g: Graph, regs: seq<string>, b: nat, k: nat, file: RegFile, now: RegFile, env: Env, vals: Values)
    requires AlikeFor(g, regs, b, file, now) && k < |ArmsOf(g, b)|
    ensures forall r :: r in regs ==>
              RegsAfter(BlockEnv(env, regs, b, file), vals, ArmsOf(g, b)[k].state)(r)
              == RegsAfter(BlockEnv(env, regs, b, now), vals, ArmsOf(g, b)[k].state)(r)
  {
    hide BlockEnv, EntrySym, Eval, Reads, ArmsOf;
    forall x | x in regs
      ensures Eval(Lookup(ArmsOf(g, b)[k].state, x), BlockEnv(env, regs, b, file), vals)
           == Eval(Lookup(ArmsOf(g, b)[k].state, x), BlockEnv(env, regs, b, now), vals)
    {
      EvalSame(regs, b, Lookup(ArmsOf(g, b)[k].state, x), file, now, env, vals);
    }
  }

  /** Returns that restore what the entry mentions keep every read right. */
  lemma {:induction false} RestoredReads(g: Graph, regs: seq<string>, init: VMState, env: Env, b: nat, file: RegFile,
                                         now: RegFile, s: State, path: seq<nat>)
    requires AlikeFor(g, regs, b, file, now) && EntryClean(g, regs)
    requires ReturnsRestored(g, regs, init, env, b, file, s, path)
    ensures ReadsRight(g, regs, init, env, b, file, now, s, path)
    decreases |path|
  {
    hide BlockEnv, RegsAfter, Run, BlockOf, Reads, Passes, Inputs0, Disagree, InUpTo;
    if |path| > 0 && path[0] < |ArmsOf(g, b)| {
      var e, a := BlockEnv(env, regs, b, file), ArmsOf(g, b)[path[0]];
      var t := Run(BlockOf(g, b).instrs, e, s);
      AfterSame(g, regs, b, path[0], file, now, env, t.vals);
      RestoredReads(g, regs, init, env, a.to, RegsAfter(e, t.vals, a.state),
                    NextTaken(g, regs, init, env, b, now, t.vals, a), t, path[1..]);
    }
  }

  /** So on every path whose returns to the entry restore what the entry mentions the visits agree. */
  lemma SsaPreservesPath(g: Graph, c: Config, init: VMState, m: nat, out: Subst, env: Env, mem: Memory, path: seq<nat>)
    requires c.FullSsa() && Sound(g) && Hygienic(g, c, init)
    requires GreatestId(BlocksOf(g), m) && Definitions(out, g, c, init, m + 1)
    requires EntryClean(g, c.trackedRegs)
    requires ReturnsRestored(g, c.trackedRegs, init, env, 0, Inputs0(init, env), Machine.Start(mem), path)
    ensures var blocks := RecoveredBlocks(g, c, c.trackedRegs, m + 1, out);
            |blocks| > 0 && SameVisits(blocks, g, c.trackedRegs, init, env, mem, path)
  {
    hide Hygienic, GreatestId, Definitions, RecoveredBlocks, SameVisits, Sound, ReturnsRestored, ReadsRight, Inputs0,
         Mentions, Disagree, InUpTo, PhisOf, FirstPhi;
    SsaPathExact(g, c, init, m, out, env, mem, path);
    var first := FirstTaken(g, c.trackedRegs, init, m + 1, env);
    forall r | r in c.trackedRegs && Mentions(g, c.trackedRegs, 0, r) ensures Inputs0(init, env)(r) == first(r) {
      PhiIffDisagree(Setup(g, c, init, m, out), 0, r);
    }
    RestoredReads(g, c.trackedRegs, init, env, 0, Inputs0(init, env), first, Machine.Start(mem), path);
  }

  // ----- no edge into the entry -----

  ghost predicate EntryClosed(g: Graph) {
    forall b, k :: 0 <= b < |g.arms| && 0 <= k < |g.arms[b]| ==> g.arms[b][k].to != 0
  }

  lemma {:induction false} NothingInto(g: Graph, n: nat)
    requires n <= |g.arms| && EntryClosed(g)
    ensures InUpTo(g.arms, n, 0) == []
  {
    if n > 0 {
      NothingInto(g, n - 1);
      NoneInto(g.arms[n - 1], n - 1);
    }
  }

  lemma {:induction false} NoneInto(arms: seq<Arm>, pred: nat)
    requires forall k :: 0 <= k < |arms| ==> arms[k].to != 0
    ensures Into(arms, pred, 0) == []
  {
    if |arms| > 0 { NoneInto(arms[..|arms| - 1], pred); }
  }

  lemma {:induction false} NeverReturns(g: Graph, regs: seq<string>, init: VMState, env: Env, b: nat, file: RegFile,
                                        s: State, path: seq<nat>)
    requires EntryClosed(g)
    ensures ReturnsRestored(g, regs, init, env, b, file, s, path)
    decreases |path|
  {
    hide Restored, BlockEnv, RegsAfter, Run;
    if |path| > 0 && path[0] < |ArmsOf(g, b)| {
      var e := BlockEnv(env, regs, b, file);
      var t := Run(BlockOf(g, b).instrs, e, s);
      NeverReturns(g, regs, init, env, ArmsOf(g, b)[path[0]].to, RegsAfter(e, t.vals, ArmsOf(g, b)[path[0]].state), t,
                   path[1..]);
    }
  }

  /** When no edge leads into the entry, the visits agree on every path. */
  lemma SsaPreservesMeaning(g: Graph, c: Config, init: VMState, m: nat, out: Subst, env: Env, mem: Memory,
                            path: seq<nat>)
    requires c.FullSsa() && Sound(g) && Hygienic(g, c, init) && EntryClosed(g)
    requires GreatestId(BlocksOf(g), m) && Definitions(out, g, c, init, m + 1)
    ensures var blocks := RecoveredBlocks(g, c, c.trackedRegs, m + 1, out);
            |blocks| > 0 && SameVisits(blocks, g, c.trackedRegs, init, env, mem, path)
  {
    hide Hygienic, GreatestId, Definitions, RecoveredBlocks, SameVisits, Sound, ReturnsRestored, Mentions;
    NothingInto(g, |g.arms|);
    NeverReturns(g, c.trackedRegs, init, env, 0, Inputs0(init, env), Machine.Start(mem), path);
    SsaPreservesPath(g, c, init, m, out, env, mem, path);
  }

  // ----- the recovery itself -----

  /** Full-SSA recovery, run: no entry symbol is left in any block, and exactly the right paths show
      what the oracle's segments show. `m` is the greatest instruction id; phi ids follow it. An oracle
      that keeps to what it is given meets the hypothesis. */
  method RecoverSsa(oracle: Oracle, c: Config, init: VMState)
    returns (cfg: CFGFunction, ghost subst: Subst, ghost m: nat)
    requires c.FullSsa()
    ensures fresh(cfg) && cfg.Valid() && cfg.entryBlock == 0 && |cfg.blocks| > 0
    ensures cfg.edges == EdgesOf(Discover(oracle, c, init)) && GreatestId(BlocksOf(Discover(oracle, c, init)), m)
    ensures Drives.WellKept(oracle, c.trackedRegs) && Drives.FreeInputs(c, init) ==>
              Hygienic(Discover(oracle, c, init), c, init) && StatesOwned(Discover(oracle, c, init), c, init)
    ensures StatesOwned(Discover(oracle, c, init), c, init) ==>
              && (forall name :: name in subst <==> IsEntry(name, c.trackedRegs, |cfg.blocks|))
              && forall b :: 0 <= b < |cfg.blocks| ==> EntryFree(cfg.blocks[b], subst)
    ensures var g := Discover(oracle, c, init);
            Hygienic(g, c, init) ==>
              forall env: Env, mem: Memory, path: seq<nat> ::
                SameVisits(cfg.blocks, g, c.trackedRegs, init, env, mem, path)
                <==> PathRight(g, c.trackedRegs, init, m + 1, env, mem, path)
    ensures var g := Discover(oracle, c, init);
            Hygienic(g, c, init) && EntryClosed(g) ==>
              forall env: Env, mem: Memory, path: seq<nat> ::
                SameVisits(cfg.blocks, g, c.trackedRegs, init, env, mem, path)
  {
    hide *;
    var f, seen, g, tracked, greatest, s, guarded := Recover(oracle, c, init);
    cfg, subst, m := f, s, greatest;
    RecoveredIs(g, c, init, tracked, m, s);
    if Drives.WellKept(oracle, c.trackedRegs) && Drives.FreeInputs(c, init) {
      Drives.FullMode(c);
      Drives.DiscoveredHygienic(oracle, c, init);
    }
    if Hygienic(g, c, init) {
      HygienicStates(g, c, init);
      forall env: Env, mem: Memory, path: seq<nat>
        ensures SameVisits(cfg.blocks, g, c.trackedRegs, init, env, mem, path)
           <==> PathRight(g, c.trackedRegs, init, m + 1, env, mem, path)
        ensures EntryClosed(g) ==> SameVisits(cfg.blocks, g, c.trackedRegs, init, env, mem, path)
      {
        SsaPathExact(g, c, init, m, s, env, mem, path);
        if EntryClosed(g) { SsaPreservesMeaning(g, c, init, m, s, env, mem, path); }
      }
    }
  }

  lemma RecoveredIs(g: Graph, c: Config, init: VMState, tracked: seq<string>, m: nat, s: Subst)
    requires c.FullSsa() && Sound(g) && Tracks(c, g, tracked)
    ensures tracked == c.trackedRegs
    ensures |RecoveredBlocks(g, c, tracked, m + 1, s)| == |g.vpcs| > 0
    ensures var blocks := RecoveredBlocks(g, c, tracked, m + 1, s);
            Definitions(s, g, c, init, m + 1) ==>
              && (forall name :: name in s <==> IsEntry(name, c.trackedRegs, |g.vpcs|))
              && forall b :: 0 <= b < |blocks| ==> EntryFree(blocks[b], s)
  {
    hide Definitions, StatesOwned, EntryFree, IsEntry, RewriteBlock, BornEarlier, ArmsMatch, Distinct;
    if Definitions(s, g, c, init, m + 1) {
      var blocks := RecoveredBlocks(g, c, tracked, m + 1, s);
      forall b | 0 <= b < |blocks| ensures EntryFree(blocks[b], s) {
        NoEntrySymbolSurvives(PhiBlocks(g, tracked, m + 1), s, g, c, init, m + 1, b);
      }
      if |g.vpcs| > 0 { NoEntrySymbolSurvives(PhiBlocks(g, tracked, m + 1), s, g, c, init, m + 1, 0); }
    }
  }
}
