/** Devirtualization: the multi-path worklist over VM segments, each entered through the
    dispatcher with its VPC injected, and renumbered into one id space. */
module VmRecovery {
  import opened Ir
  import opened Arithmetic
  import opened Machine
  import opened References
  import opened Rewrites
  import opened Meaning
  import opened Cfg
  import opened Convergence
  import opened Vjcc
  import opened SelectTargets
  import opened Renumber
  import opened Recovery
  import opened RecoveryRun
  import GraphFacts
  import Collections

  datatype VmKind = VmRet | VmBranch | VmUnresolved

  datatype VmSegment = VmSegment(kind: VmKind, instrs: Trace, dispatcherVa: Word, condition: Option<Value>,
                                 vpcTaken: Option<Vpc>, vpcNotTaken: Option<Vpc>)

  // ----- classifying one evaluated segment -----

  datatype Stop = StoppedAtReturn | StoppedUnresolved | StoppedOtherwise

  /** The last SELECT of the trace. */
  function LastSelect(g: Trace, n: nat): (r: Option<nat>)
    requires n <= |g|
    ensures r.Some? ==> r.value < n && g[r.value].op == SELECT && forall j :: r.value < j < n ==> g[j].op != SELECT
    ensures r.None? ==> forall j :: 0 <= j < n ==> g[j].op != SELECT
  {
    if n == 0 then None else if g[n - 1].op == SELECT then Some(n - 1) else LastSelect(g, n - 1)
  }

  /** A virtual conditional jump shows as the last SELECT feeding the dispatch VPC. */
  function Classify(h: Host, g: Trace, stop: Stop, stopVa: Word): VmSegment
    requires WellFormed(g)
  {
    var plain := VmSegment(VmUnresolved, g, stopVa, None, None, None);
    if stop.StoppedAtReturn? then plain.(kind := VmRet)
    else if stop.StoppedOtherwise? then plain
    else
      var sel := LastSelect(g, |g|);
      if sel.None? || |g[sel.value].operands| != 3 then plain
      else
        var d := g[sel.value];
        var targets := ExtractTargets(h, g, d.Ref(), d.operands[0]);
        if targets.None? then plain
        else
          var (taken, notTaken) := targets.value;
          VmSegment(VmBranch, g, stopVa, Some(d.operands[0]), Some(Vpc(taken)), Some(Vpc(notTaken)))
  }

  method RunVmSegment(f: Function, h: Host, stop: Stop, stopVa: Word) returns (seg: VmSegment)
    requires WellFormed(f.instrs)
    ensures seg == Classify(h, f.instrs, stop, stopVa)
  {
    hide WellFormed, ExtractTargets;
    seg := VmSegment(VmUnresolved, f.instrs, stopVa, None, None, None);
    if stop.StoppedAtReturn? { return seg.(kind := VmRet); }
    if stop.StoppedUnresolved? {
      var sel: Option<nat> := None;
      for i := 0 to |f.instrs|
        invariant sel == LastSelect(f.instrs, i)
      {
        if f.instrs[i].op == SELECT { sel := Some(i); }
      }
      if sel.Some? && |f.instrs[sel.value].operands| == 3 {
        var d := f.instrs[sel.value];
        var targets := ExtractVjccTargets(f, h, d.Ref(), d.operands[0]);
        if targets.Some? {
          var (taken, notTaken) := targets.value;
          return VmSegment(VmBranch, f.instrs, stopVa, Some(d.operands[0]), Some(Vpc(taken)), Some(Vpc(notTaken)));
        }
      }
    }
  }

  /** Where the evaluator's convergence stops before its cap, every operand is resolved. */
  lemma SettledOperand(h: Host, g: Trace, k: nat, j: nat)
    requires WellFormed(g) && Ordered(g) && FixedPoint(ALL_PASSES, h, g) && k < |g| && j < |g[k].operands|
    ensures Resolve(g, g[k].operands[j]) == g[k].operands[j]
  {
    hide Resolve, WellFormed, ApplyTo;
    assert ALL_PASSES[0] == Local(ConstPromote) && ApplyPass(ALL_PASSES[0], h, g) == g;
    PromotionResolves(h, g, |g|);
  }

  /** What a caller can check of a segment whose VPC is the SELECT at `k`: it is converged, or no
      address goes through the condition under another name; the condition is no store. */
  ghost predicate Checked(h: Host, g: Trace, k: nat)
    requires WellFormed(g) && Ordered(g) && k < |g| && |g[k].operands| == 3
  {
    var c := g[k].operands[0];
    && (FixedPoint(ALL_PASSES, h, g) || (c.InstrRef? ==> AddressesClear(g, c)))
    && (c.InstrRef? && Def(g, c.id).Some? ==> Def(g, c.id).value.op != STORE)
  }

  /** The SELECT that a segment was classified by. */
  lemma BranchShape(h: Host, g: Trace, stop: Stop, stopVa: Word) returns (k: nat)
    requires WellFormed(g) && Classify(h, g, stop, stopVa).kind.VmBranch?
    ensures var seg := Classify(h, g, stop, stopVa);
            && LastSelect(g, |g|) == Some(k) && k < |g| && g[k].op == SELECT && |g[k].operands| == 3
            && seg.condition == Some(g[k].operands[0]) && seg.vpcTaken.Some? && seg.vpcNotTaken.Some?
            && ExtractTargets(h, g, g[k].Ref(), g[k].operands[0])
            == Some((seg.vpcTaken.value.addr, seg.vpcNotTaken.value.addr))
            && seg.vpcTaken != seg.vpcNotTaken
  {
    hide WellFormed, LastSelect, ComputeTarget;
    k := LastSelect(g, |g|).value;
  }

  /** A segment classified as a branch names two different VPCs. If the SELECT has constant arms,
      then in every run whatever the VPC is the taken one if and only if the condition is not
      zero, and the other if and only if it is zero. Whatever the arms, in every sane run the VPC
      is the taken one if the condition is 1, and the other if it is 0. */
  lemma BranchIsSound(h: Host, g: Trace, stop: Stop, stopVa: Word, env: Env, s: State) returns (k: nat)
    requires WellFormed(g) && Classify(h, g, stop, stopVa).kind.VmBranch?
    ensures LastSelect(g, |g|) == Some(k) && k < |g| && |g[k].operands| == 3 && Ordered(g)
    ensures var seg := Classify(h, g, stop, stopVa);
            && seg.condition == Some(g[k].operands[0]) && seg.vpcTaken.Some? && seg.vpcNotTaken.Some?
            && seg.vpcTaken != seg.vpcNotTaken
    ensures var seg := Classify(h, g, stop, stopVa);
            var c, vpc := Eval(g[k].operands[0], env, Run(g, env, s).vals), Eval(g[k].Ref(), env, Run(g, env, s).vals);
            && (ConstArms(g[k]) ==>
                  (c != 0 <==> vpc == seg.vpcTaken.value.addr) && (c == 0 <==> vpc == seg.vpcNotTaken.value.addr))
            && (Sane(g, env, s) && Checked(h, g, k) ==>
                  (c == 1 ==> vpc == seg.vpcTaken.value.addr) && (c == 0 ==> vpc == seg.vpcNotTaken.value.addr))
  {
    hide Run, ExtractTargets, Sane, Eval, WellFormed, LastSelect, Classify, Ordered, AddressesClear, FixedPoint,
         Resolve, Def;
    k := BranchShape(h, g, stop, stopVa);
    OrderedOf(g);
    var c := g[k].operands[0];
    if ConstArms(g[k]) { SelectBranchSound(h, g, k, env, s); }
    if Sane(g, env, s) && Checked(h, g, k) {
      if FixedPoint(ALL_PASSES, h, g) {
        SettledOperand(h, g, k, 0);
        SelfResolving(g, c);
      }
      VjccSound(h, g, g[k].Ref(), c, env, s);
    }
  }

  lemma SelfResolving(g: Trace, c: Value)
    requires Ordered(g) && Resolve(g, c) == c
    ensures AddressesClear(g, c)
  {}

  // ----- the worklist -----

  type VmOracle = (Word, map<string, Value>) -> VmSegment

  datatype WorkItem = WorkItem(key: Vpc, startVa: Word, inject: map<string, Value>, bid: nat)

  /** One evaluated segment: what was asked, the answer, where its ids start, and its arms. */
  datatype Processed = Processed(item: WorkItem, segment: VmSegment, base: nat, taken: nat, notTaken: nat)

  predicate Branches(seg: VmSegment) { seg.kind.VmBranch? && seg.vpcTaken.Some? && seg.vpcNotTaken.Some? }

  function Remapped(seg: VmSegment, base: nat): Option<Value> {
    if seg.condition.Some? then Some(RemapValue(seg.condition.value, IdMap(seg.instrs, base, |seg.instrs|))) else None
  }

  function TermFor(p: Processed): Terminator {
    var c := Remapped(p.segment, p.base);
    if p.segment.kind.VmRet? then Terminator(RETURN, None, None, c)
    else if Branches(p.segment) then Terminator(CJUMP, Some(p.taken), Some(p.notTaken), c)
    else Terminator(UNREACHABLE, None, None, c)
  }

  function BlockFor(p: Processed): BasicBlock {
    BasicBlock(p.item.bid, [], Renumbered(p.segment.instrs, p.base), TermFor(p))
  }

  function KeysOf(log: seq<Processed>): set<Vpc> { set i | 0 <= i < |log| :: log[i].item.key }

  /** The edges of one segment: an arm is flagged when its VPC is among those in `done`. */
  function ArmEdges(p: Processed, done: set<Vpc>): seq<Edge> {
    if Branches(p.segment) then
      [Edge(p.item.bid, p.taken, p.segment.vpcTaken.value in done),
       Edge(p.item.bid, p.notTaken, p.segment.vpcNotTaken.value in done)]
    else []
  }

  /** A segment's own VPC counts as done. */
  function EdgesFor(log: seq<Processed>, n: nat): seq<Edge>
    requires n <= |log|
  {
    if n == 0 then [] else EdgesFor(log, n - 1) + ArmEdges(log[n - 1], KeysOf(log[..n]))
  }

  /** Each segment's ids follow those of the one before. */
  ghost predicate Consecutive(log: seq<Processed>, nextId: nat) {
    && (forall i :: 0 < i < |log| ==> log[i].base == log[i - 1].base + |log[i - 1].segment.instrs|)
    && (|log| > 0 ==> log[0].base == 1)
    && nextId == if |log| == 0 then 1 else log[|log| - 1].base + |log[|log| - 1].segment.instrs|
  }

  /** An item names its own block; only the entry runs from the start, all others through the
      dispatcher with their VPC injected. */
  ghost predicate ItemFits(w: WorkItem, keys: seq<Vpc>, vpcReg: string, entryVa: Word) {
    && w.bid < |keys| && keys[w.bid] == w.key
    && (|| (w.bid == 0 && w.startVa == entryVa && w.inject == map[])
        || w.inject == map[vpcReg := Const64(w.key.addr)])
  }

  /** Every key is in `settled` or waits in the queue. */
  ghost predicate Accounted(worklist: seq<WorkItem>, keys: seq<Vpc>, settled: set<Vpc>, vpcReg: string, entryVa: Word) {
    && (forall j :: 0 <= j < |worklist| ==> ItemFits(worklist[j], keys, vpcReg, entryVa))
    && (forall b :: 0 <= b < |keys| ==>
          keys[b] in settled || exists j :: 0 <= j < |worklist| && worklist[j].key == keys[b])
  }

  ghost predicate EntryFits(p: Processed, keys: seq<Vpc>, oracle: VmOracle, vpcReg: string, entryVa: Word) {
    && ItemFits(p.item, keys, vpcReg, entryVa)
    && p.segment == oracle(p.item.startVa, p.item.inject)
    && (Branches(p.segment) ==>
          && p.taken < |keys| && keys[p.taken] == p.segment.vpcTaken.value
          && p.notTaken < |keys| && keys[p.notTaken] == p.segment.vpcNotTaken.value)
  }

  /** The blocks are those of the processed segments, and empty ones. */
  ghost predicate BlocksFit(blocks: seq<BasicBlock>, keys: seq<Vpc>, log: seq<Processed>) {
    && |blocks| == |keys|
    && (forall i :: 0 <= i < |log| ==> log[i].item.bid < |blocks| && blocks[log[i].item.bid] == BlockFor(log[i]))
    && (forall b :: 0 <= b < |keys| && keys[b] !in KeysOf(log) ==> blocks[b] == BasicBlock(b, [], [], NO_TERMINATOR))
  }

  ghost predicate OnceEach(log: seq<Processed>) {
    forall i, j :: 0 <= i < j < |log| ==> log[i].item.key != log[j].item.key
  }

  /** Block `b` was created as an arm of segment `i`, itself in an earlier block: its VPC had not been
      processed by then. */
  ghost predicate BornFrom(log: seq<Processed>, i: nat, b: nat) {
    && i < |log| && Branches(log[i].segment) && log[i].item.bid < b
    && (|| (log[i].taken == b && log[i].segment.vpcTaken.value !in KeysOf(log[..i + 1]))
        || (log[i].notTaken == b && log[i].segment.vpcNotTaken.value !in KeysOf(log[..i + 1])))
  }

  /** Every block but the first was born from a processed segment. */
  ghost predicate AllBorn(keys: seq<Vpc>, log: seq<Processed>) { forall b: nat :: 0 < b < |keys| ==> Born(log, b) }

  ghost predicate Born(log: seq<Processed>, b: nat) { exists i: nat :: BornFrom(log, i, b) }

  predicate Either(b: int, t: nat, f: nat) { b == t || b == f }

  /** What the log satisfies by itself: each VPC once, ids in one range, every entry the oracle's answer,
      every block born from one. */
  ghost predicate Booked(keys: seq<Vpc>, log: seq<Processed>, oracle: VmOracle, vpcReg: string, entryVa: Word,
                         nextId: nat)
  {
    && OnceEach(log) && Consecutive(log, nextId) && AllBorn(keys, log)
    && (forall i :: 0 <= i < |log| ==> EntryFits(log[i], keys, oracle, vpcReg, entryVa))
  }

  // ----- where a segment is resumed -----

  /** The segment names `v` as a successor. */
  predicate NamesKey(seg: VmSegment, v: Vpc) {
    Branches(seg) && (seg.vpcTaken.value == v || seg.vpcNotTaken.value == v)
  }

  /** Segment `i` is the first to name `v`. */
  ghost predicate FirstNamer(log: seq<Processed>, i: nat, v: Vpc) {
    && i < |log| && NamesKey(log[i].segment, v)
    && forall l :: 0 <= l < i ==> !NamesKey(log[l].segment, v)
  }

  /** `va` is the dispatcher of the first of the first `n` segments that has one, 0 if none has. */
  ghost predicate DispatchesAt(log: seq<Processed>, n: nat, va: Word)
    requires n <= |log|
  {
    && (va == 0 ==> forall l :: 0 <= l < n ==> log[l].segment.dispatcherVa == 0)
    && (va != 0 ==> exists j :: 0 <= j < n && log[j].segment.dispatcherVa == va
                             && forall l :: 0 <= l < j ==> log[l].segment.dispatcherVa == 0)
  }

  /** The item was queued by the first segment that names it, with the dispatcher known by then. */
  ghost predicate QueuedBy(log: seq<Processed>, i: nat, w: WorkItem) {
    FirstNamer(log, i, w.key) && DispatchesAt(log, i + 1, w.startVa)
  }

  ghost predicate Ready(log: seq<Processed>, w: WorkItem, entryVa: Word) {
    if w.key == Vpc(entryVa) then w.startVa == entryVa && w.inject == map[] else exists i: nat :: QueuedBy(log, i, w)
  }

  /** The first item of every key that is still to be run is ready. */
  ghost predicate Waiting(worklist: seq<WorkItem>, log: seq<Processed>, settled: set<Vpc>, entryVa: Word) {
    forall j :: 0 <= j < |worklist| && worklist[j].key !in settled && Foremost(worklist, j) ==>
      Ready(log, worklist[j], entryVa)
  }

  /** No earlier item has the key of item `j`. */
  ghost predicate Foremost(worklist: seq<WorkItem>, j: nat)
    requires j < |worklist|
  {
    forall k :: 0 <= k < j ==> worklist[k].key != worklist[j].key
  }

  ghost predicate Resumed(log: seq<Processed>, entryVa: Word) {
    forall m :: 0 <= m < |log| ==> Ready(log[..m], log[m].item, entryVa)
  }

  /** Every segment was resumed as it should be, and `dispatcherVa` is the dispatcher known by now. */
  ghost predicate Traced(log: seq<Processed>, entryVa: Word, dispatcherVa: Word) {
    Resumed(log, entryVa) && DispatchesAt(log, |log|, dispatcherVa)
  }

  /** The queue after the arms of a branch that are not settled. */
  function Offered(before: seq<WorkItem>, seg: VmSegment, settled: set<Vpc>, dispatcherVa: Word, vpcReg: string, t: nat,
                   f: nat): seq<WorkItem>
  {
    if Branches(seg) then
      var taken, notTaken := seg.vpcTaken.value, seg.vpcNotTaken.value;
      before
      + (if taken in settled then [] else [WorkItem(taken, dispatcherVa, map[vpcReg := Const64(taken.addr)], t)])
      + (if notTaken in settled then []
         else [WorkItem(notTaken, dispatcherVa, map[vpcReg := Const64(notTaken.addr)], f)])
    else before
  }

  lemma ReadyGrows(log: seq<Processed>, p: Processed, w: WorkItem, entryVa: Word)
    requires Ready(log, w, entryVa)
    ensures Ready(log + [p], w, entryVa)
  {
    if w.key != Vpc(entryVa) {
      var i: nat :| QueuedBy(log, i, w);
      DispatcherKept(log, p, i + 1, w.startVa);
      assert QueuedBy(log + [p], i, w);
    }
  }

  lemma DispatcherKept(log: seq<Processed>, p: Processed, n: nat, va: Word)
    requires n <= |log| && DispatchesAt(log, n, va)
    ensures DispatchesAt(log + [p], n, va)
  {
    var all := log + [p];
    assert forall l :: 0 <= l < |log| ==> all[l] == log[l];
    if va != 0 {
      var j :| 0 <= j < n && log[j].segment.dispatcherVa == va
            && forall l :: 0 <= l < j ==> log[l].segment.dispatcherVa == 0;
      assert all[j].segment.dispatcherVa == va;
    }
  }

  lemma DispatcherNext(log: seq<Processed>, p: Processed, before: Word, after: Word)
    requires DispatchesAt(log, |log|, before)
    requires after == if before == 0 && p.segment.dispatcherVa != 0 then p.segment.dispatcherVa else before
    ensures DispatchesAt(log + [p], |log| + 1, after)
  {
    var all := log + [p];
    assert all[|log|] == p && forall l :: 0 <= l < |log| ==> all[l] == log[l];
    if before != 0 {
      var j :| 0 <= j < |log| && log[j].segment.dispatcherVa == before
            && forall l :: 0 <= l < j ==> log[l].segment.dispatcherVa == 0;
      assert all[j].segment.dispatcherVa == before;
    }
  }

  /** What is taken off the queue is ready, and the rest waits. */
  lemma PoppedReady(worklist: seq<WorkItem>, log: seq<Processed>, settled: set<Vpc>, entryVa: Word)
    requires |worklist| > 0 && Waiting(worklist, log, settled, entryVa)
    ensures worklist[0].key !in settled ==> Ready(log, worklist[0], entryVa)
    ensures Waiting(worklist[1..], log, settled + {worklist[0].key}, entryVa)
    ensures worklist[0].key in settled ==> Waiting(worklist[1..], log, settled, entryVa)
  {
    hide Ready;
    var rest := worklist[1..];
    forall j | 0 <= j < |rest| && rest[j].key !in settled && rest[j].key != worklist[0].key
            && Foremost(rest, j)
      ensures Ready(log, rest[j], entryVa)
    {
      forall k | 0 <= k < j + 1 ensures worklist[k].key != worklist[j + 1].key {
        if k > 0 { assert worklist[k] == rest[k - 1]; }
      }
      assert Foremost(worklist, j + 1);
    }
  }

  lemma KeyQueued(worklist: seq<WorkItem>, keys: seq<Vpc>, settled: set<Vpc>, vpcReg: string, entryVa: Word, v: Vpc)
    requires Accounted(worklist, keys, settled, vpcReg, entryVa) && v in keys && v !in settled
    ensures exists k :: 0 <= k < |worklist| && worklist[k].key == v
  {
    hide ItemFits;
    var b :| 0 <= b < |keys| && keys[b] == v;
  }

  lemma OfferedItems(before: seq<WorkItem>, seg: VmSegment, settled: set<Vpc>, dispatcherVa: Word, vpcReg: string,
                     t: nat, f: nat)
    ensures var after := Offered(before, seg, settled, dispatcherVa, vpcReg, t, f);
            && before <= after
            && forall j :: |before| <= j < |after| ==>
                 NamesKey(seg, after[j].key) && after[j].startVa == dispatcherVa
  {}

  /** A key that is offered for the first time is named for the first time. */
  lemma WaitingGrows(before: seq<WorkItem>, log: seq<Processed>, p: Processed, keys: seq<Vpc>, settled: set<Vpc>,
                     oracle: VmOracle, vpcReg: string, entryVa: Word, dispatcherVa: Word)
    requires Waiting(before, log, settled, entryVa) && Accounted(before, keys, settled, vpcReg, entryVa)
    requires DispatchesAt(log + [p], |log| + 1, dispatcherVa) && |keys| > 0 && keys[0] == Vpc(entryVa)
    requires forall i :: 0 <= i < |log| ==> EntryFits(log[i], keys, oracle, vpcReg, entryVa)
    ensures Waiting(Offered(before, p.segment, settled, dispatcherVa, vpcReg, p.taken, p.notTaken), log + [p], settled,
                    entryVa)
  {
    hide Ready, EntryFits, DispatchesAt, Offered, Accounted, NamesKey;
    var after := Offered(before, p.segment, settled, dispatcherVa, vpcReg, p.taken, p.notTaken);
    OfferedItems(before, p.segment, settled, dispatcherVa, vpcReg, p.taken, p.notTaken);
    forall j | 0 <= j < |after| && after[j].key !in settled && Foremost(after, j)
      ensures Ready(log + [p], after[j], entryVa)
    {
      if j < |before| {
        assert Foremost(before, j);
        ReadyGrows(log, p, before[j], entryVa);
      } else {
        var v := after[j].key;
        if v in keys {
          KeyQueued(before, keys, settled, vpcReg, entryVa, v);
          assert false;
        }
        NamedNow(log, p, keys, oracle, vpcReg, entryVa, dispatcherVa, after[j]);
      }
    }
  }

  lemma NamedNow(log: seq<Processed>, p: Processed, keys: seq<Vpc>, oracle: VmOracle, vpcReg: string, entryVa: Word,
                 dispatcherVa: Word, w: WorkItem)
    requires w.key !in keys && NamesKey(p.segment, w.key) && w.startVa == dispatcherVa
    requires DispatchesAt(log + [p], |log| + 1, dispatcherVa) && |keys| > 0 && keys[0] == Vpc(entryVa)
    requires forall i :: 0 <= i < |log| ==> EntryFits(log[i], keys, oracle, vpcReg, entryVa)
    ensures Ready(log + [p], w, entryVa)
  {
    hide ItemFits, DispatchesAt;
    var all := log + [p];
    forall l | 0 <= l < |log| ensures !NamesKey(all[l].segment, w.key) {
      assert EntryFits(log[l], keys, oracle, vpcReg, entryVa);
    }
    assert FirstNamer(all, |log|, w.key);
    assert QueuedBy(all, |log|, w);
  }

  lemma ResumedNext(log: seq<Processed>, p: Processed, entryVa: Word)
    requires Resumed(log, entryVa) && Ready(log, p.item, entryVa)
    ensures Resumed(log + [p], entryVa)
  {
    hide Ready;
    var all := log + [p];
    forall m | 0 <= m < |all| ensures Ready(all[..m], all[m].item, entryVa) {
      assert all[..m] == log[..m];
      assert log[..|log|] == log;
    }
  }

  /** The dispatcher, the queue and the log after one more segment. */
  lemma EntryResumed(before: seq<WorkItem>, log: seq<Processed>, p: Processed, keys: seq<Vpc>, settled: set<Vpc>,
                     oracle: VmOracle, vpcReg: string, entryVa: Word, nextId: nat, was: Word, now: Word)
    requires Booked(keys, log, oracle, vpcReg, entryVa, nextId) && |keys| > 0 && keys[0] == Vpc(entryVa)
    requires Waiting(before, log, settled, entryVa) && Accounted(before, keys, settled, vpcReg, entryVa)
    requires Traced(log, entryVa, was) && Ready(log, p.item, entryVa)
    requires now == if was == 0 && p.segment.dispatcherVa != 0 then p.segment.dispatcherVa else was
    ensures Traced(log + [p], entryVa, now)
    ensures Waiting(Offered(before, p.segment, settled, now, vpcReg, p.taken, p.notTaken), log + [p], settled, entryVa)
  {
    hide Booked, Waiting, Accounted, Resumed, Ready, DispatchesAt, Offered, EntryFits;
    BookedFits(keys, log, oracle, vpcReg, entryVa, nextId);
    DispatcherNext(log, p, was, now);
    WaitingGrows(before, log, p, keys, settled, oracle, vpcReg, entryVa, now);
    ResumedNext(log, p, entryVa);
  }

  class VmWorklist {
    const cfg: CFGFunction
    const oracle: VmOracle
    const vpcReg: string
    const entryVa: Word
    var vpcToBlock: map<Vpc, nat>
    var nextId: nat
    var dispatcherVa: Word
    var worklist: seq<WorkItem>
    var processed: set<Vpc>
    ghost var keys: seq<Vpc>
    ghost var log: seq<Processed>

    /** What is settled: blocks, keys, processed segments. */
    ghost predicate Settled()
      reads this, cfg
    {
      && cfg.Valid() && cfg.entryBlock == 0 && |keys| > 0 && Distinct(keys) && vpcToBlock == IndexTable(keys)
      && keys[0] == Vpc(entryVa) && processed == KeysOf(log) && Booked(keys, log, oracle, vpcReg, entryVa, nextId)
      && BlocksFit(cfg.blocks, keys, log)
      && cfg.edges == EdgesFor(log, |log|)
      && Traced(log, entryVa, dispatcherVa)
    }

    /** Every block has been processed or waits in the queue. */
    ghost predicate Queued()
      reads this
    {
      Accounted(worklist, keys, processed, vpcReg, entryVa) && Waiting(worklist, log, processed, entryVa)
    }

    constructor (oracle: VmOracle, vpcReg: string, entryVa: Word)
      ensures fresh(cfg) && Settled() && Queued() && keys == [Vpc(entryVa)] && log == []
    {
      var f := new CFGFunction();
      cfg := f;
      this.oracle, this.vpcReg, this.entryVa := oracle, vpcReg, entryVa;
      vpcToBlock, nextId, dispatcherVa, worklist, processed := map[], 1, 0, [], {};
      keys, log := [], [];
      new;
      hide IndexTable, See, ItemFits, BlocksFit, Consecutive, OnceEach, EdgesFor, Distinct, KeysOf, Booked,
           Waiting, Traced;
      NothingResumed(vpcReg, entryVa);
      NothingProcessed(Vpc(entryVa), vpcReg, entryVa);
      NothingBooked(Vpc(entryVa), vpcReg, entryVa);
      var bid := GetBlock(Vpc(entryVa));
      cfg.entryBlock := bid;
      worklist := [WorkItem(Vpc(entryVa), entryVa, map[], bid)];
      assert worklist[0].key == keys[0];
    }

    method GetBlock(vpc: Vpc) returns (id: nat)
      requires cfg.Valid() && Distinct(keys) && |cfg.blocks| == |keys| && vpcToBlock == IndexTable(keys)
      modifies this`vpcToBlock, this`keys, cfg`blocks, cfg`nextBlockId
      ensures cfg.Valid() && keys == See(old(keys), vpc) && Distinct(keys) && vpcToBlock == IndexTable(keys)
      ensures id < |keys| && keys[id] == vpc
      ensures cfg.blocks == old(cfg.blocks) + if vpc in old(keys) then []
              else [BasicBlock(|old(keys)|, [], [], NO_TERMINATOR)]
    {
      hide IndexTable;
      KeyTable(keys, vpc);
      if vpc in vpcToBlock { return vpcToBlock[vpc]; }
      id := cfg.AddBlock();
      vpcToBlock := vpcToBlock[vpc := id];
      keys := See(keys, vpc);
    }

    method Enqueue(vpc: Vpc, bid: nat)
      modifies this`worklist
      ensures worklist == old(worklist) + if vpc in processed then []
                                          else [WorkItem(vpc, dispatcherVa, map[vpcReg := Const64(vpc.addr)], bid)]
    {
      if vpc !in processed {
        worklist := worklist + [WorkItem(vpc, dispatcherVa, map[vpcReg := Const64(vpc.addr)], bid)];
      }
    }

    /** Runs one queued item that has not been processed. */
    method Process(w: WorkItem)
      requires Settled() && ItemFits(w, keys, vpcReg, entryVa) && w.key !in processed
      requires Accounted(worklist, keys, processed + {w.key}, vpcReg, entryVa)
      requires Waiting(worklist, log, processed + {w.key}, entryVa) && Ready(log, w, entryVa)
      modifies this, cfg
      ensures Settled() && Queued()
      ensures |keys| <= |old(keys)| + 2 && old(keys) <= keys
      ensures |log| == |old(log)| + 1 && log[..|old(log)|] == old(log) && log[|old(log)|].item == w
    {
      hide IndexTable, See, Renumbered, IdMap, ItemFits, BlocksFit, Consecutive, OnceEach, EdgesFor, Distinct, KeysOf,
           EntryFits, Accounted, BlockFor, Branches, Booked, Waiting, Ready, Traced, Offered;
      ghost var keys0, log0, wl0, va0 := keys, log, worklist, dispatcherVa;
      FitsFacts(w, keys0, vpcReg, entryVa);
      processed := processed + {w.key};
      var seg := oracle(w.startVa, w.inject);
      if dispatcherVa == 0 && seg.dispatcherVa != 0 { dispatcherVa := seg.dispatcherVa; }
      var term, t, f := Terminate(w, seg);
      ghost var p := Processed(w, seg, nextId, t, f);
      EntryResumed(wl0, log0, p, keys0, processed, oracle, vpcReg, entryVa, nextId, va0, dispatcherVa);
      Finish(w, seg, term, p, keys0);
    }

    /** Fills in the block and logs the segment. */
    method Finish(w: WorkItem, seg: VmSegment, term: Terminator, ghost p: Processed, ghost keys0: seq<Vpc>)
      requires cfg.Valid() && cfg.entryBlock == 0 && |keys0| > 0 && keys0 <= keys && keys[0] == Vpc(entryVa)
      requires Distinct(keys) && vpcToBlock == IndexTable(keys) && BlocksFit(cfg.blocks, keys, log)
      requires Booked(keys0, log, oracle, vpcReg, entryVa, nextId) && ItemFits(w, keys0, vpcReg, entryVa)
      requires w.key !in KeysOf(log) && processed == KeysOf(log) + {w.key}
      requires p == Processed(w, seg, nextId, p.taken, p.notTaken) && seg == oracle(w.startVa, w.inject)
      requires Branches(seg) ==>
                 && p.taken < |keys| && keys[p.taken] == seg.vpcTaken.value
                 && p.notTaken < |keys| && keys[p.notTaken] == seg.vpcNotTaken.value
      requires |keys| > |keys0| ==> Branches(seg)
      requires forall b :: |keys0| <= b < |keys| ==> Either(b, p.taken, p.notTaken)
      requires cfg.edges == EdgesFor(log, |log|) + ArmEdges(p, processed)
      requires term == if seg.kind.VmRet? then Terminator(RETURN, None, None, None)
                       else if Branches(seg) then Terminator(CJUMP, Some(p.taken), Some(p.notTaken), None)
                       else NO_TERMINATOR
      requires Accounted(worklist, keys, processed, vpcReg, entryVa)
      requires Traced(log + [p], entryVa, dispatcherVa) && Waiting(worklist, log + [p], processed, entryVa)
      modifies this`nextId, this`log, cfg`blocks
      ensures Settled() && Queued() && log == old(log) + [p]
    {
      hide IndexTable, See, Renumbered, IdMap, ItemFits, BlocksFit, Consecutive, OnceEach, EdgesFor, Distinct, KeysOf,
           EntryFits, Accounted, BlockFor, Branches, Booked, Waiting, Traced, ArmEdges, Either;
      EntryBooked(cfg.blocks, log, keys0, keys, p, oracle, vpcReg, entryVa, nextId);
      Fill(w, seg, term, p);
      log := log + [p];
    }

    /** Puts the renumbered segment and its terminator into the block. */
    method Fill(w: WorkItem, seg: VmSegment, term: Terminator, ghost p: Processed)
      requires cfg.Valid() && w.bid < |cfg.blocks| && cfg.blocks[w.bid] == BasicBlock(w.bid, [], [], NO_TERMINATOR)
      requires p.item == w && p.segment == seg && p.base == nextId
      requires term == if seg.kind.VmRet? then Terminator(RETURN, None, None, None)
                       else if Branches(seg) then Terminator(CJUMP, Some(p.taken), Some(p.notTaken), None)
                       else NO_TERMINATOR
      modifies this`nextId, cfg`blocks
      ensures cfg.Valid() && cfg.blocks == old(cfg.blocks)[w.bid := BlockFor(p)]
      ensures nextId == old(nextId) + |seg.instrs|
    {
      hide Renumbered, IdMap, BlockFor, Branches;
      var pos := cfg.BlockById(w.bid);
      var instrs, idMap, next := AppendRenumbered(cfg.blocks[pos.value].instrs, seg.instrs, nextId);
      BlockIs(p, term, instrs);
      var full := term;
      if seg.condition.Some? { full := term.(condition := Some(RemapValue(seg.condition.value, idMap))); }
      cfg.blocks := cfg.blocks[pos.value := cfg.blocks[pos.value].(instrs := instrs, term := full)];
      nextId := next;
    }

    /** The terminator, without its condition; successors are created and queued. */
    method Terminate(w: WorkItem, seg: VmSegment) returns (term: Terminator, t: nat, f: nat)
      requires cfg.Valid() && Distinct(keys) && vpcToBlock == IndexTable(keys) && BlocksFit(cfg.blocks, keys, log)
      requires processed == KeysOf(log) + {w.key} && w.bid < |keys| && keys[w.bid] == w.key
      requires Accounted(worklist, keys, processed, vpcReg, entryVa)
      modifies this`vpcToBlock, this`keys, this`worklist, cfg`blocks, cfg`nextBlockId, cfg`edges
      ensures cfg.Valid() && Distinct(keys) && vpcToBlock == IndexTable(keys) && BlocksFit(cfg.blocks, keys, log)
      ensures |keys| <= |old(keys)| + 2 && old(keys) <= keys
      ensures Branches(seg) ==>
                t < |keys| && keys[t] == seg.vpcTaken.value && f < |keys| && keys[f] == seg.vpcNotTaken.value
      ensures forall base :: cfg.edges == old(cfg.edges) + ArmEdges(Processed(w, seg, base, t, f), processed)
      ensures term == if seg.kind.VmRet? then Terminator(RETURN, None, None, None)
                      else if Branches(seg) then Terminator(CJUMP, Some(t), Some(f), None)
                      else NO_TERMINATOR
      ensures Accounted(worklist, keys, processed, vpcReg, entryVa)
      ensures worklist == Offered(old(worklist), seg, processed, dispatcherVa, vpcReg, t, f)
      ensures |keys| > |old(keys)| ==> Branches(seg)
      ensures forall b :: |old(keys)| <= b < |keys| ==> Either(b, t, f)
    {
      hide IndexTable, See, BlocksFit, Distinct, KeysOf, ItemFits;
      term, t, f := NO_TERMINATOR, 0, 0;
      if seg.kind.VmRet? {
        term := Terminator(RETURN, None, None, None);
      } else if seg.kind.VmBranch? && seg.vpcTaken.Some? && seg.vpcNotTaken.Some? {
        t, f := Branch(w, seg);
        term := Terminator(CJUMP, Some(t), Some(f), None);
      }
    }

    /** Both arms of a branch: blocks, edges, queue. */
    method Branch(w: WorkItem, seg: VmSegment) returns (t: nat, f: nat)
      requires cfg.Valid() && Distinct(keys) && vpcToBlock == IndexTable(keys) && BlocksFit(cfg.blocks, keys, log)
      requires seg.vpcTaken.Some? && seg.vpcNotTaken.Some? && processed == KeysOf(log) + {w.key}
      requires w.bid < |keys| && keys[w.bid] == w.key
      requires Accounted(worklist, keys, processed, vpcReg, entryVa)
      modifies this`vpcToBlock, this`keys, this`worklist, cfg`blocks, cfg`nextBlockId, cfg`edges
      ensures cfg.Valid() && Distinct(keys) && vpcToBlock == IndexTable(keys) && BlocksFit(cfg.blocks, keys, log)
      ensures |keys| <= |old(keys)| + 2 && old(keys) <= keys
      ensures t < |keys| && keys[t] == seg.vpcTaken.value && f < |keys| && keys[f] == seg.vpcNotTaken.value
      ensures cfg.edges == old(cfg.edges)
              + [Edge(w.bid, t, seg.vpcTaken.value in processed), Edge(w.bid, f, seg.vpcNotTaken.value in processed)]
      ensures Accounted(worklist, keys, processed, vpcReg, entryVa)
      ensures Branches(seg) ==> worklist == Offered(old(worklist), seg, processed, dispatcherVa, vpcReg, t, f)
      ensures forall b :: |old(keys)| <= b < |keys| ==> Either(b, t, f)
    {
      hide IndexTable, Distinct, KeysOf, BlocksFit, ItemFits, See, Accounted;
      var tback := seg.vpcTaken.value in processed;
      var fback := seg.vpcNotTaken.value in processed;
      ghost var keys0 := keys;
      FitSize(cfg.blocks, keys, log);
      GrownFit(cfg.blocks, keys, log, seg.vpcTaken.value);
      SeeKeeps(keys, seg.vpcTaken.value);
      t := GetBlock(seg.vpcTaken.value);
      ghost var keys1 := keys;
      FitSize(cfg.blocks, keys, log);
      GrownFit(cfg.blocks, keys, log, seg.vpcNotTaken.value);
      SeeKeeps(keys, seg.vpcNotTaken.value);
      f := GetBlock(seg.vpcNotTaken.value);
      assert keys[t] == keys1[t];
      NewKeys(keys0, keys1, keys, seg.vpcTaken.value, seg.vpcNotTaken.value, t, f);
      cfg.AddEdge(w.bid, t, tback);
      cfg.AddEdge(w.bid, f, fback);
      ghost var wl0 := worklist;
      Enqueue(seg.vpcTaken.value, t);
      Enqueue(seg.vpcNotTaken.value, f);
      QueueGrows(wl0, worklist, keys0, keys1, keys, seg.vpcTaken.value, seg.vpcNotTaken.value, t, f,
                 dispatcherVa, vpcReg, entryVa, processed);
    }

    /** The whole worklist: ends for every oracle, after at most `maxBlocks` segments. */
    method Run(maxBlocks: int)
      requires Settled() && Queued() && |keys| == 1 && log == []
      modifies this, cfg
      ensures Settled() && Queued()
      ensures |worklist| == 0 || |cfg.blocks| > maxBlocks
      ensures |log| <= if maxBlocks > 0 then maxBlocks else 0
      ensures |cfg.blocks| <= if maxBlocks > 0 then maxBlocks + 2 else 1
    {
      hide ItemFits, IndexTable, EdgesFor, EntryFits, OnceEach, Consecutive, BlocksFit, Distinct, KeysOf, Accounted,
           Waiting, Ready, Traced;
      Sizes();
      while |worklist| > 0 && |cfg.blocks| <= maxBlocks
        invariant Settled() && Queued() && |keys| == |cfg.blocks|
        invariant |log| <= (if maxBlocks > 0 then maxBlocks else 0)
        invariant |cfg.blocks| <= (if maxBlocks > 0 then maxBlocks + 2 else 1)
        decreases maxBlocks - |log|, |worklist|
      {
        var w := worklist[0];
        Popped(worklist, keys, processed, vpcReg, entryVa);
        PoppedReady(worklist, log, processed, entryVa);
        worklist := worklist[1..];
        if w.key in processed { continue; }
        Room(w);
        Process(w);
        Sizes();
      }
    }

    lemma Sizes()
      requires Settled()
      ensures |keys| == |cfg.blocks|
    {}

    /** A new item leaves at least one key unprocessed. */
    lemma Room(w: WorkItem)
      requires Settled() && ItemFits(w, keys, vpcReg, entryVa) && w.key !in processed
      ensures |log| < |keys|
    {
      hide IndexTable, EdgesFor, EntryFits, BlocksFit, Consecutive;
      LogSize(log);
      forall v | v in processed ensures v in SetOf(keys) {
        var i :| 0 <= i < |log| && log[i].item.key == v;
        EntryKey(log[i], keys, oracle, vpcReg, entryVa);
      }
      SetSize(keys);
      assert processed + {w.key} <= SetOf(keys);
      Collections.SubsetSize(processed + {w.key}, SetOf(keys));
    }
  }

  // ----- small facts -----

  lemma NothingProcessed(entry: Vpc, vpcReg: string, entryVa: Word)
    requires entry == Vpc(entryVa)
    ensures Distinct([]) && Distinct([entry]) && IndexTable([]) == map[] && See([], entry) == [entry]
    ensures KeysOf([]) == {} && OnceEach([]) && Consecutive([], 1) && EdgesFor([], 0) == []
    ensures ItemFits(WorkItem(entry, entryVa, map[], 0), [entry], vpcReg, entryVa)
  {}

  lemma BookedFits(keys: seq<Vpc>, log: seq<Processed>, oracle: VmOracle, vpcReg: string, entryVa: Word, nextId: nat)
    requires Booked(keys, log, oracle, vpcReg, entryVa, nextId)
    ensures forall i :: 0 <= i < |log| ==> EntryFits(log[i], keys, oracle, vpcReg, entryVa)
  {
    hide OnceEach, Consecutive, AllBorn, EntryFits;
  }

  lemma NothingBooked(entry: Vpc, vpcReg: string, entryVa: Word)
    ensures BlocksFit([BasicBlock(0, [], [], NO_TERMINATOR)], [entry], []) && AllBorn([entry], [])
    ensures forall oracle :: Booked([entry], [], oracle, vpcReg, entryVa, 1)
  {}

  lemma NothingResumed(vpcReg: string, entryVa: Word)
    ensures Traced([], entryVa, 0)
    ensures Waiting([WorkItem(Vpc(entryVa), entryVa, map[], 0)], [], {}, entryVa)
  {}

  /** The head of the queue, and what the rest of the queue still covers. */
  lemma Popped(worklist: seq<WorkItem>, keys: seq<Vpc>, settled: set<Vpc>, vpcReg: string, entryVa: Word)
    requires |worklist| > 0 && Accounted(worklist, keys, settled, vpcReg, entryVa)
    ensures ItemFits(worklist[0], keys, vpcReg, entryVa)
    ensures Accounted(worklist[1..], keys, settled + {worklist[0].key}, vpcReg, entryVa)
    ensures worklist[0].key in settled ==> Accounted(worklist[1..], keys, settled, vpcReg, entryVa)
  {
    hide ItemFits;
    var rest := worklist[1..];
    forall b | 0 <= b < |keys| && keys[b] !in settled && keys[b] != worklist[0].key
      ensures exists j :: 0 <= j < |rest| && rest[j].key == keys[b]
    {
      var j :| 0 <= j < |worklist| && worklist[j].key == keys[b];
      assert rest[j - 1] == worklist[j];
    }
    if worklist[0].key in settled { assert settled + {worklist[0].key} == settled; }
  }

  lemma KeyTable(keys: seq<Vpc>, v: Vpc)
    requires Distinct(keys)
    ensures Distinct(See(keys, v))
    ensures v in IndexTable(keys) <==> v in keys
    ensures v in keys ==> See(keys, v) == keys && IndexTable(keys)[v] < |keys| && keys[IndexTable(keys)[v]] == v
    ensures v !in keys ==> See(keys, v) == keys + [v] && IndexTable(See(keys, v)) == IndexTable(keys)[v := |keys|]
  {
    hide IndexTable;
    SeeTable(keys, v);
  }

  lemma SeeKeeps(keys: seq<Vpc>, v: Vpc)
    ensures keys <= See(keys, v) && |See(keys, v)| <= |keys| + 1
    ensures forall i :: |keys| <= i < |See(keys, v)| ==> See(keys, v)[i] == v
  {}

  lemma FitSize(blocks: seq<BasicBlock>, keys: seq<Vpc>, log: seq<Processed>)
    requires BlocksFit(blocks, keys, log)
    ensures |blocks| == |keys|
  {}

  lemma FitsFacts(w: WorkItem, keys: seq<Vpc>, vpcReg: string, entryVa: Word)
    requires ItemFits(w, keys, vpcReg, entryVa)
    ensures w.bid < |keys| && keys[w.bid] == w.key
  {}

  lemma EntryKey(p: Processed, keys: seq<Vpc>, oracle: VmOracle, vpcReg: string, entryVa: Word)
    requires EntryFits(p, keys, oracle, vpcReg, entryVa)
    ensures p.item.key in keys
  {}

  lemma GrownFit(blocks: seq<BasicBlock>, keys: seq<Vpc>, log: seq<Processed>, v: Vpc)
    requires BlocksFit(blocks, keys, log)
    ensures BlocksFit(blocks + if v in keys then [] else [BasicBlock(|keys|, [], [], NO_TERMINATOR)], See(keys, v), log)
  {
    hide BlockFor, KeysOf;
  }

  lemma EmptyBlock(blocks: seq<BasicBlock>, keys: seq<Vpc>, log: seq<Processed>, w: WorkItem)
    requires BlocksFit(blocks, keys, log) && w.bid < |keys| && keys[w.bid] == w.key && w.key !in KeysOf(log)
    ensures w.bid < |blocks| && blocks[w.bid] == BasicBlock(w.bid, [], [], NO_TERMINATOR)
  {}

  lemma BlockIs(p: Processed, term: Terminator, instrs: Trace)
    requires term == if p.segment.kind.VmRet? then Terminator(RETURN, None, None, None)
                     else if Branches(p.segment) then Terminator(CJUMP, Some(p.taken), Some(p.notTaken), None)
                     else NO_TERMINATOR
    requires instrs == [] + Renumbered(p.segment.instrs, p.base)
    ensures BlockFor(p) == BasicBlock(p.item.bid, [], instrs, term.(condition := Remapped(p.segment, p.base)))
  {
    hide Renumbered, IdMap;
  }

  lemma FilledBlocks(blocks: seq<BasicBlock>, keys: seq<Vpc>, log: seq<Processed>, p: Processed)
    requires BlocksFit(blocks, keys, log) && p.item.bid < |keys| && keys[p.item.bid] == p.item.key
    requires p.item.key !in KeysOf(log)
    requires forall i :: 0 <= i < |log| ==> log[i].item.bid < |keys| && keys[log[i].item.bid] == log[i].item.key
    requires Distinct(keys)
    ensures |blocks| == |keys| && BlocksFit(blocks[p.item.bid := BlockFor(p)], keys, log + [p])
    ensures KeysOf(log + [p]) == KeysOf(log) + {p.item.key}
  {
    hide BlockFor;
    KeysGrow(log, p);
    forall i | 0 <= i < |log| ensures log[i].item.bid != p.item.bid {
      assert log[i].item.key in KeysOf(log);
    }
  }

  lemma KeysGrow(log: seq<Processed>, p: Processed)
    ensures KeysOf(log + [p]) == KeysOf(log) + {p.item.key}
  {
    var all := log + [p];
    assert all[|log|] == p && forall i :: 0 <= i < |log| ==> all[i] == log[i];
    forall v | v in KeysOf(log) ensures v in KeysOf(all) {
      var i :| 0 <= i < |log| && log[i].item.key == v;
      assert all[i].item.key == v;
    }
    assert all[|log|].item.key in KeysOf(all);
  }

  lemma {:induction false} EdgesPrefix(log: seq<Processed>, more: seq<Processed>, n: nat)
    requires n <= |log|
    ensures EdgesFor(log + more, n) == EdgesFor(log, n)
  {
    if n > 0 {
      EdgesPrefix(log, more, n - 1);
      assert (log + more)[..n] == log[..n];
    }
  }

  lemma EntryGrown(p: Processed, keys: seq<Vpc>, more: seq<Vpc>, oracle: VmOracle, vpcReg: string, entryVa: Word)
    requires EntryFits(p, keys, oracle, vpcReg, entryVa) && keys <= more
    ensures EntryFits(p, more, oracle, vpcReg, entryVa)
    ensures p.item.bid < |more| && more[p.item.bid] == p.item.key
  {}

  lemma ItemGrown(w: WorkItem, keys: seq<Vpc>, more: seq<Vpc>, vpcReg: string, entryVa: Word)
    requires ItemFits(w, keys, vpcReg, entryVa) && keys <= more
    ensures ItemFits(w, more, vpcReg, entryVa)
  {}

  /** Two blocks were offered: whatever is new is one of them. */
  lemma NewKeys(keys0: seq<Vpc>, keys1: seq<Vpc>, keys: seq<Vpc>, taken: Vpc, notTaken: Vpc, t: nat, f: nat)
    requires keys1 == See(keys0, taken) && keys == See(keys1, notTaken) && Distinct(keys)
    requires t < |keys| && keys[t] == taken && f < |keys| && keys[f] == notTaken
    ensures forall b :: |keys0| <= b < |keys| ==> Either(b, t, f)
  {
    hide See;
    SeeKeeps(keys0, taken);
    SeeKeeps(keys1, notTaken);
    forall b | |keys0| <= b < |keys| ensures Either(b, t, f) {
      if b < |keys1| {
        assert keys[b] == See(keys0, taken)[b] == taken;
      } else {
        assert keys[b] == See(keys1, notTaken)[b] == notTaken;
      }
    }
  }

  lemma BornGrows(keys: seq<Vpc>, more: seq<Vpc>, log: seq<Processed>, p: Processed, oracle: VmOracle, vpcReg: string,
                  entryVa: Word)
    requires AllBorn(keys, log) && keys <= more && Distinct(more)
    requires forall i :: 0 <= i < |log| ==> EntryFits(log[i], keys, oracle, vpcReg, entryVa)
    requires p.item.bid < |keys| && keys[p.item.bid] == p.item.key
    requires |more| > |keys| ==> Branches(p.segment)
    requires forall b :: |keys| <= b < |more| ==> Either(b, p.taken, p.notTaken)
    requires Branches(p.segment) ==>
               && p.taken < |more| && more[p.taken] == p.segment.vpcTaken.value
               && p.notTaken < |more| && more[p.notTaken] == p.segment.vpcNotTaken.value
    ensures AllBorn(more, log + [p])
  {
    hide KeysOf, EntryFits;
    var all := log + [p];
    KeysKnown(keys, log, oracle, vpcReg, entryVa);
    KeysGrow(log, p);
    assert all[..|log| + 1] == all;
    forall b: nat | 0 < b < |more| ensures Born(all, b) {
      if b < |keys| {
        assert Born(log, b);
        var i: nat :| BornFrom(log, i, b);
        assert all[..i + 1] == log[..i + 1];
        assert BornFrom(all, i, b);
      } else {
        assert Either(b, p.taken, p.notTaken) && more[b] !in keys;
        assert BornFrom(all, |log|, b);
      }
    }
  }

  lemma KeysKnown(keys: seq<Vpc>, log: seq<Processed>, oracle: VmOracle, vpcReg: string, entryVa: Word)
    requires forall i :: 0 <= i < |log| ==> EntryFits(log[i], keys, oracle, vpcReg, entryVa)
    ensures forall v :: v in KeysOf(log) ==> v in keys
  {
    hide EntryFits;
    forall i | 0 <= i < |log| ensures log[i].item.key in keys { EntryKey(log[i], keys, oracle, vpcReg, entryVa); }
  }

  /** Logging one more segment. */
  lemma LogGrows(log: seq<Processed>, keys: seq<Vpc>, more: seq<Vpc>, p: Processed, oracle: VmOracle, vpcReg: string,
                 entryVa: Word, nextId: nat)
    requires Booked(keys, log, oracle, vpcReg, entryVa, nextId)
    requires keys <= more && ItemFits(p.item, keys, vpcReg, entryVa)
    requires p.segment == oracle(p.item.startVa, p.item.inject)
    requires Branches(p.segment) ==>
               && p.taken < |more| && more[p.taken] == p.segment.vpcTaken.value
               && p.notTaken < |more| && more[p.notTaken] == p.segment.vpcNotTaken.value
    requires p.item.key !in KeysOf(log) && p.base == nextId
    requires Distinct(more) && p.item.bid < |keys| && keys[p.item.bid] == p.item.key
    requires |more| > |keys| ==> Branches(p.segment)
    requires forall b :: |keys| <= b < |more| ==> Either(b, p.taken, p.notTaken)
    ensures var all := log + [p];
            && Booked(more, all, oracle, vpcReg, entryVa, nextId + |p.segment.instrs|)
            && EdgesFor(all, |all|) == EdgesFor(log, |log|) + ArmEdges(p, KeysOf(log) + {p.item.key})
    ensures forall i :: 0 <= i < |log| ==> log[i].item.bid < |more| && more[log[i].item.bid] == log[i].item.key
  {
    hide ItemFits, EntryFits, KeysOf, Consecutive, OnceEach, AllBorn, Distinct, Either;
    var all := log + [p];
    LastFits(p, keys, more, oracle, vpcReg, entryVa);
    forall i | 0 <= i < |log|
      ensures EntryFits(log[i], more, oracle, vpcReg, entryVa)
      ensures log[i].item.bid < |more| && more[log[i].item.bid] == log[i].item.key
    {
      EntryGrown(log[i], keys, more, oracle, vpcReg, entryVa);
    }
    EdgesPrefix(log, [p], |log|);
    assert all[..|all|] == all;
    KeysGrow(log, p);
    OnceMore(log, p, nextId);
    BornGrows(keys, more, log, p, oracle, vpcReg, entryVa);
  }

  /** The same, with the blocks. */
  lemma EntryBooked(blocks: seq<BasicBlock>, log: seq<Processed>, keys: seq<Vpc>, more: seq<Vpc>, p: Processed,
                    oracle: VmOracle, vpcReg: string, entryVa: Word, nextId: nat)
    requires Booked(keys, log, oracle, vpcReg, entryVa, nextId) && BlocksFit(blocks, more, log)
    requires keys <= more && ItemFits(p.item, keys, vpcReg, entryVa)
    requires p.segment == oracle(p.item.startVa, p.item.inject)
    requires Branches(p.segment) ==>
               && p.taken < |more| && more[p.taken] == p.segment.vpcTaken.value
               && p.notTaken < |more| && more[p.notTaken] == p.segment.vpcNotTaken.value
    requires p.item.key !in KeysOf(log) && p.base == nextId && Distinct(more)
    requires |more| > |keys| ==> Branches(p.segment)
    requires forall b :: |keys| <= b < |more| ==> Either(b, p.taken, p.notTaken)
    ensures p.item.bid < |blocks| && blocks[p.item.bid] == BasicBlock(p.item.bid, [], [], NO_TERMINATOR)
    ensures var all := log + [p];
            && Booked(more, all, oracle, vpcReg, entryVa, nextId + |p.segment.instrs|)
            && EdgesFor(all, |all|) == EdgesFor(log, |log|) + ArmEdges(p, KeysOf(log) + {p.item.key})
            && KeysOf(all) == KeysOf(log) + {p.item.key}
            && BlocksFit(blocks[p.item.bid := BlockFor(p)], more, all)
  {
    hide ItemFits, Booked, KeysOf, Distinct, Either, BlocksFit, EdgesFor, ArmEdges, BlockFor, Branches;
    FitsFacts(p.item, keys, vpcReg, entryVa);
    EmptyBlock(blocks, more, log, p.item);
    LogGrows(log, keys, more, p, oracle, vpcReg, entryVa, nextId);
    FilledBlocks(blocks, more, log, p);
  }

  lemma LastFits(p: Processed, keys: seq<Vpc>, more: seq<Vpc>, oracle: VmOracle, vpcReg: string, entryVa: Word)
    requires keys <= more && ItemFits(p.item, keys, vpcReg, entryVa)
    requires p.segment == oracle(p.item.startVa, p.item.inject)
    requires Branches(p.segment) ==>
               && p.taken < |more| && more[p.taken] == p.segment.vpcTaken.value
               && p.notTaken < |more| && more[p.notTaken] == p.segment.vpcNotTaken.value
    ensures EntryFits(p, more, oracle, vpcReg, entryVa)
  {}

  lemma OnceMore(log: seq<Processed>, p: Processed, nextId: nat)
    requires OnceEach(log) && p.item.key !in KeysOf(log) && Consecutive(log, nextId) && p.base == nextId
    ensures OnceEach(log + [p]) && Consecutive(log + [p], nextId + |p.segment.instrs|)
  {
    forall i | 0 <= i < |log| ensures log[i].item.key in KeysOf(log) {}
  }

  /** The queue after both arms have been offered. */
  lemma QueueGrows(before: seq<WorkItem>, after: seq<WorkItem>, keys0: seq<Vpc>, keys1: seq<Vpc>, keys: seq<Vpc>,
                   taken: Vpc, notTaken: Vpc, t: nat, f: nat, dispatcherVa: Word, vpcReg: string, entryVa: Word,
                   settled: set<Vpc>)
    requires keys1 == See(keys0, taken) && keys == See(keys1, notTaken)
    requires t < |keys| && keys[t] == taken && f < |keys| && keys[f] == notTaken
    requires Accounted(before, keys0, settled, vpcReg, entryVa)
    requires after == before
                    + (if taken in settled then []
                       else [WorkItem(taken, dispatcherVa, map[vpcReg := Const64(taken.addr)], t)])
                    + (if notTaken in settled then []
                       else [WorkItem(notTaken, dispatcherVa, map[vpcReg := Const64(notTaken.addr)], f)])
    ensures Accounted(after, keys, settled, vpcReg, entryVa)
  {
    hide See;
    SeeKeeps(keys0, taken);
    SeeKeeps(keys1, notTaken);
    forall j | 0 <= j < |before| ensures ItemFits(before[j], keys, vpcReg, entryVa) {
      ItemGrown(before[j], keys0, keys, vpcReg, entryVa);
    }
    forall b | 0 <= b < |keys| ensures keys[b] in settled || exists j :: 0 <= j < |after| && after[j].key == keys[b] {
      if keys[b] !in settled {
        if b < |keys0| {
          var j :| 0 <= j < |before| && before[j].key == keys0[b];
          assert after[j].key == keys[b];
        } else if b < |keys1| {
          assert keys[b] == taken && after[|before|].key == taken;
        } else {
          assert keys[b] == notTaken && after[|after| - 1].key == notTaken;
        }
      }
    }
  }

  lemma {:induction false} LogSize(log: seq<Processed>)
    requires OnceEach(log)
    ensures |KeysOf(log)| == |log|
  {
    if |log| == 0 {
      assert KeysOf(log) == {};
    } else {
      var n := |log| - 1;
      LogSize(log[..n]);
      KeysGrow(log[..n], log[n]);
      assert log[..n] + [log[n]] == log;
    }
  }

  lemma {:induction false} SetSize(vpcs: seq<Vpc>)
    ensures |SetOf(vpcs)| <= |vpcs|
  {
    if |vpcs| == 0 {
      assert SetOf(vpcs) == {};
    } else {
      var n := |vpcs| - 1;
      SetSize(vpcs[..n]);
      assert vpcs == vpcs[..n] + [vpcs[n]];
      assert SetOf(vpcs) == SetOf(vpcs[..n]) + {vpcs[n]};
    }
  }

  // ----- what the recovered function keeps -----

  lemma {:induction false} BasesOrdered(log: seq<Processed>, nextId: nat, i: nat, j: nat)
    requires Consecutive(log, nextId) && i < j < |log|
    ensures log[i].base + |log[i].segment.instrs| <= log[j].base
  {
    if i < j - 1 { BasesOrdered(log, nextId, i, j - 1); }
  }

  /** Instruction ids are unique across the whole recovered function. */
  lemma IdsGloballyUnique(w: VmWorklist, b: nat, i: nat, d: nat, j: nat)
    requires w.Settled()
    requires forall k :: 0 <= k < |w.log| ==> UniqueIds(w.log[k].segment.instrs)
    requires b < |w.cfg.blocks| && i < |w.cfg.blocks[b].instrs| && d < |w.cfg.blocks| && j < |w.cfg.blocks[d].instrs|
    requires w.cfg.blocks[b].instrs[i].resultId == w.cfg.blocks[d].instrs[j].resultId
    ensures b == d && i == j
  {
    hide IndexTable, EdgesFor, OnceEach, EntryFits, Renumbered, IdMap, UniqueIds, KeysOf, TermFor;
    var m := Logged(w, b);
    var n := Logged(w, d);
    NewIds(w.log[m].segment.instrs, w.log[m].base, i);
    NewIds(w.log[n].segment.instrs, w.log[n].base, j);
    if m < n { BasesOrdered(w.log, w.nextId, m, n); }
    if n < m { BasesOrdered(w.log, w.nextId, n, m); }
  }

  /** A block with instructions is that of a processed segment. */
  lemma Logged(w: VmWorklist, b: nat) returns (m: nat)
    requires w.Settled() && b < |w.cfg.blocks| && |w.cfg.blocks[b].instrs| > 0
    ensures m < |w.log| && w.log[m].item.bid == b && w.cfg.blocks[b] == BlockFor(w.log[m])
  {
    hide IndexTable, EdgesFor, OnceEach, Renumbered, IdMap, TermFor, Consecutive;
    assert w.keys[b] in KeysOf(w.log);
    m :| 0 <= m < |w.log| && w.log[m].item.key == w.keys[b];
    assert EntryFits(w.log[m], w.keys, w.oracle, w.vpcReg, w.entryVa);
  }

  /** In its own block every recorded condition denotes what it denoted in its segment, and the
      block has the segment's effects. */
  lemma BranchConditionKept(w: VmWorklist, m: nat, env: Env, s: State, t: State)
    requires w.Settled() && m < |w.log|
    requires s.mem == t.mem && s.events == t.events && s.calls == t.calls
    requires var seg := w.log[m].segment;
             UniqueIds(seg.instrs) && Closed(seg.instrs) && seg.condition.Some?
             && RefersWithin(seg.instrs, |seg.instrs|, seg.condition.value)
    ensures var seg := w.log[m].segment;
            var bid := w.log[m].item.bid;
            && bid < |w.cfg.blocks| && w.cfg.blocks[bid].term.condition.Some?
            && Eval(w.cfg.blocks[bid].term.condition.value, env, Run(w.cfg.blocks[bid].instrs, env, t).vals)
            == Eval(seg.condition.value, env, Run(seg.instrs, env, s).vals)
            && Run(w.cfg.blocks[bid].instrs, env, t).mem == Run(seg.instrs, env, s).mem
            && Run(w.cfg.blocks[bid].instrs, env, t).events == Run(seg.instrs, env, s).events
  {
    hide IndexTable, EdgesFor, OnceEach, EntryFits, Renumbered, IdMap, UniqueIds, KeysOf, Closed, RefersWithin, Run,
         RemapValue, Consecutive;
    var seg := w.log[m].segment;
    ConditionKept(seg.instrs, w.log[m].base, seg.condition.value, env, s, t);
  }

  // ----- back edges -----

  /** The bookkeeping that the flags rest on. */
  ghost predicate Ledger(keys: seq<Vpc>, log: seq<Processed>) {
    && Distinct(keys) && OnceEach(log)
    && (forall i :: 0 <= i < |log| ==> log[i].item.bid < |keys| && keys[log[i].item.bid] == log[i].item.key)
    && (forall i :: 0 <= i < |log| && Branches(log[i].segment) ==>
          && log[i].taken < |keys| && keys[log[i].taken] == log[i].segment.vpcTaken.value
          && log[i].notTaken < |keys| && keys[log[i].notTaken] == log[i].segment.vpcNotTaken.value)
  }

  lemma SettledLedger(w: VmWorklist)
    requires w.Settled()
    ensures Ledger(w.keys, w.log)
  {
    hide IndexTable, EdgesFor, Consecutive, BlocksFit, KeysOf, Distinct, OnceEach;
    forall i | 0 <= i < |w.log| ensures EntryFits(w.log[i], w.keys, w.oracle, w.vpcReg, w.entryVa) {}
  }

  /** Block `b` was processed as number `i`. */
  predicate ProcessedAs(log: seq<Processed>, i: nat, b: nat) { i < |log| && log[i].item.bid == b }

  lemma {:induction false} EdgeSource(log: seq<Processed>, n: nat, e: Edge) returns (i: nat, v: Vpc)
    requires n <= |log| && e in EdgesFor(log, n)
    ensures i < n && e.from == log[i].item.bid && Branches(log[i].segment)
    ensures (e.to == log[i].taken && v == log[i].segment.vpcTaken.value)
         || (e.to == log[i].notTaken && v == log[i].segment.vpcNotTaken.value)
    ensures e.isBackedge == (v in KeysOf(log[..i + 1]))
  {
    hide KeysOf;
    if e in EdgesFor(log, n - 1) {
      i, v := EdgeSource(log, n - 1, e);
    } else {
      i := n - 1;
      v := if e == Edge(log[i].item.bid, log[i].taken, log[i].segment.vpcTaken.value in KeysOf(log[..n]))
           then log[i].segment.vpcTaken.value else log[i].segment.vpcNotTaken.value;
    }
  }

  /** An edge is flagged if and only if its target was processed no later than its source. */
  lemma {:induction false} VmEdgeFlag(keys: seq<Vpc>, log: seq<Processed>, e: Edge)
    requires Ledger(keys, log) && e in EdgesFor(log, |log|)
    ensures exists i: nat :: ProcessedAs(log, i, e.from)
    ensures forall i: nat :: ProcessedAs(log, i, e.from) ==>
              (e.isBackedge <==> exists m: nat :: m <= i && ProcessedAs(log, m, e.to))
  {
    var i, v := EdgeSource(log, |log|, e);
    assert ProcessedAs(log, i, e.from) && e.to < |keys| && keys[e.to] == v;
    forall l: nat | ProcessedAs(log, l, e.from) ensures l == i {}
    if e.isBackedge {
      var m :| 0 <= m < |log[..i + 1]| && log[..i + 1][m].item.key == v;
      assert ProcessedAs(log, m, e.to);
    }
    if m: nat :| m <= i && ProcessedAs(log, m, e.to) {
      assert log[..i + 1][m].item.key == v;
      assert v in KeysOf(log[..i + 1]);
    }
  }

  ghost predicate VmPath(log: seq<Processed>, c: seq<nat>) {
    |c| > 0 && forall j :: 0 <= j < |c| - 1 ==> VmEdge(log, c[j], c[j + 1])
  }

  ghost predicate VmEdge(log: seq<Processed>, a: nat, b: nat) {
    Edge(a, b, true) in EdgesFor(log, |log|) || Edge(a, b, false) in EdgesFor(log, |log|)
  }

  /** Unflagged edges follow processing order. */
  lemma {:induction false} VmForward(keys: seq<Vpc>, log: seq<Processed>, c: seq<nat>, first: nat, last: nat)
    requires Ledger(keys, log) && VmPath(log, c)
    requires forall j :: 0 <= j < |c| - 1 ==> Edge(c[j], c[j + 1], true) !in EdgesFor(log, |log|)
    requires ProcessedAs(log, first, c[0]) && ProcessedAs(log, last, c[|c| - 1])
    ensures first <= last && (|c| > 1 ==> first < last)
  {
    hide EdgesFor, Ledger;
    SameNumber(keys, log);
    if |c| > 1 {
      assert VmEdge(log, c[0], c[1]);
      var e := Edge(c[0], c[1], false);
      VmEdgeFlag(keys, log, e);
      var rest := c[1..];
      forall j | 0 <= j < |rest| - 1
        ensures VmEdge(log, rest[j], rest[j + 1]) && Edge(rest[j], rest[j + 1], true) !in EdgesFor(log, |log|)
      {
        assert VmEdge(log, c[j + 1], c[j + 2]);
      }
      var next := last;
      if |c| > 2 {
        assert VmEdge(log, c[1], c[2]);
        VmEdgeFlag(keys, log, Edge(c[1], c[2], false));
        var n: nat :| ProcessedAs(log, n, c[1]);
        next := n;
      }
      VmForward(keys, log, rest, next, last);
      assert !(next <= first);
    }
  }

  lemma SameNumber(keys: seq<Vpc>, log: seq<Processed>)
    requires Ledger(keys, log)
    ensures forall i: nat, j: nat, b: nat :: ProcessedAs(log, i, b) && ProcessedAs(log, j, b) ==> i == j
  {}

  /** Every cycle of the recovered function goes through a flagged edge. */
  lemma VmCyclesAreCut(w: VmWorklist, c: seq<nat>)
    requires w.Settled() && VmPath(w.log, c) && |c| > 1 && c[0] == c[|c| - 1]
    ensures exists j :: 0 <= j < |c| - 1 && Edge(c[j], c[j + 1], true) in w.cfg.edges
  {
    hide EdgesFor, Ledger, EntryFits, Consecutive, OnceEach, BlocksFit, IndexTable, KeysOf, Distinct;
    SettledLedger(w);
    assert VmEdge(w.log, c[0], c[1]);
    if forall j :: 0 <= j < |c| - 1 ==> Edge(c[j], c[j + 1], true) !in w.cfg.edges {
      VmEdgeFlag(w.keys, w.log, Edge(c[0], c[1], false));
      var first: nat :| ProcessedAs(w.log, first, c[0]);
      VmForward(w.keys, w.log, c, first, first);
    }
  }

  // ----- closure -----

  /** The segment of `u` names `v` as an arm. */
  ghost predicate Names(log: seq<Processed>, u: Vpc, v: Vpc) {
    exists i :: 0 <= i < |log| && log[i].item.key == u && Branches(log[i].segment)
             && (log[i].segment.vpcTaken.value == v || log[i].segment.vpcNotTaken.value == v)
  }

  /** A walk from the entry along arms that processed segments name. */
  ghost predicate VmWalk(log: seq<Processed>, entry: Vpc, p: seq<Vpc>) {
    |p| > 0 && p[0] == entry && forall j :: 0 <= j < |p| - 1 ==> Names(log, p[j], p[j + 1])
  }

  lemma {:induction false} EdgeListed(log: seq<Processed>, n: nat, i: nat, e: Edge)
    requires i < n <= |log| && e in ArmEdges(log[i], KeysOf(log[..i + 1]))
    ensures e in EdgesFor(log, n)
  {
    hide KeysOf, ArmEdges;
    if i < n - 1 { EdgeListed(log, n - 1, i, e); }
  }

  /** Every block is reached from the entry by unflagged edges alone, and by a walk. */
  lemma {:induction false} VmReachedForward(w: VmWorklist, b: nat) returns (c: seq<nat>, p: seq<Vpc>)
    requires w.Settled() && b < |w.keys|
    ensures |c| > 0 && c[0] == 0 && c[|c| - 1] == b
    ensures forall j :: 0 <= j < |c| - 1 ==> Edge(c[j], c[j + 1], false) in w.cfg.edges
    ensures VmWalk(w.log, Vpc(w.entryVa), p) && p[|p| - 1] == w.keys[b]
    decreases b
  {
    hide EdgesFor, EntryFits, Consecutive, OnceEach, BlocksFit, IndexTable, KeysOf, Distinct;
    if b == 0 {
      c, p := [0], [w.keys[0]];
    } else {
      assert Born(w.log, b);
      var i: nat :| BornFrom(w.log, i, b);
      var pred := w.log[i].item.bid;
      SettledLedger(w);
      c, p := VmReachedForward(w, pred);
      EdgeListed(w.log, |w.log|, i, Edge(pred, b, false));
      assert Names(w.log, w.keys[pred], w.keys[b]);
      c, p := c + [b], p + [w.keys[b]];
    }
  }

  lemma {:induction false} VmWalksStayInside(w: VmWorklist, p: seq<Vpc>)
    requires w.Settled() && VmWalk(w.log, Vpc(w.entryVa), p)
    ensures p[|p| - 1] in w.keys
  {
    hide EdgesFor, EntryFits, Consecutive, OnceEach, BlocksFit, IndexTable, KeysOf, Distinct, AllBorn;
    if |p| > 1 {
      SettledLedger(w);
      assert Names(w.log, p[|p| - 2], p[|p| - 1]);
      var i :| 0 <= i < |w.log| && w.log[i].item.key == p[|p| - 2] && Branches(w.log[i].segment)
            && (w.log[i].segment.vpcTaken.value == p[|p| - 1] || w.log[i].segment.vpcNotTaken.value == p[|p| - 1]);
    }
  }

  /** When the queue is empty, every block's segment has been evaluated, and the blocks are exactly
      the VPCs that walks from the entry reach. */
  lemma VmClosed(w: VmWorklist, v: Vpc)
    requires w.Settled() && w.Queued() && w.worklist == []
    ensures |w.cfg.blocks| == |w.keys| && KeysOf(w.log) == SetOf(w.keys)
    ensures v in w.vpcToBlock <==> exists p :: VmWalk(w.log, Vpc(w.entryVa), p) && p[|p| - 1] == v
  {
    hide EdgesFor, EntryFits, Consecutive, OnceEach, IndexTable, Distinct, AllBorn, Names;
    SettledLedger(w);
    KeyTable(w.keys, v);
    forall u ensures u in KeysOf(w.log) <==> u in SetOf(w.keys) {
      if u in SetOf(w.keys) { assert exists b :: 0 <= b < |w.keys| && w.keys[b] == u; }
    }
    if v in w.keys {
      var b :| 0 <= b < |w.keys| && w.keys[b] == v;
      var c, p := VmReachedForward(w, b);
    }
    forall p | VmWalk(w.log, Vpc(w.entryVa), p) ensures p[|p| - 1] in w.keys { VmWalksStayInside(w, p); }
  }

  // ----- where segments are resumed, and how blocks end -----

  /** The entry runs first, from its own address. Every other segment runs with its VPC injected, from
      the dispatcher of the first segment that has one, up to and including the segment that was the
      first to name it; from 0 if none of those has one. */
  lemma ResumedAt(w: VmWorklist, m: nat) returns (parent: nat)
    requires w.Settled() && m < |w.log|
    ensures w.log[m].segment == w.oracle(w.log[m].item.startVa, w.log[m].item.inject)
    ensures m == 0 ==> w.log[m].item.key == Vpc(w.entryVa) && w.log[m].item.startVa == w.entryVa
                       && w.log[m].item.inject == map[]
    ensures m > 0 ==>
              var item := w.log[m].item;
              && item.inject == map[w.vpcReg := Const(item.key.addr, 64)]
              && parent < m && NamesKey(w.log[parent].segment, item.key)
              && (forall l :: 0 <= l < parent ==> !NamesKey(w.log[l].segment, item.key))
              && (|| (item.startVa == 0 && forall l :: 0 <= l <= parent ==> w.log[l].segment.dispatcherVa == 0)
                  || (exists j :: 0 <= j <= parent && w.log[j].segment.dispatcherVa == item.startVa != 0
                               && forall l :: 0 <= l < j ==> w.log[l].segment.dispatcherVa == 0))
  {
    hide EdgesFor, Consecutive, BlocksFit, IndexTable, KeysOf, Distinct, AllBorn, NamesKey;
    parent := 0;
    var item := w.log[m].item;
    assert EntryFits(w.log[m], w.keys, w.oracle, w.vpcReg, w.entryVa);
    EntryFirst(w);
    assert Ready(w.log[..m], item, w.entryVa);
    if m > 0 {
      NotEntry(w, m);
      var i: nat :| QueuedBy(w.log[..m], i, item);
      parent := i;
      QueuedFacts(w.log, m, i, item);
    }
  }

  lemma QueuedFacts(log: seq<Processed>, m: nat, i: nat, w: WorkItem)
    requires m <= |log| && QueuedBy(log[..m], i, w)
    ensures i < m && NamesKey(log[i].segment, w.key) && forall l :: 0 <= l < i ==> !NamesKey(log[l].segment, w.key)
    ensures || (w.startVa == 0 && forall l :: 0 <= l <= i ==> log[l].segment.dispatcherVa == 0)
            || (exists j :: 0 <= j <= i && log[j].segment.dispatcherVa == w.startVa != 0
                         && forall l :: 0 <= l < j ==> log[l].segment.dispatcherVa == 0)
  {
    hide NamesKey;
    assert forall l :: 0 <= l < m ==> log[..m][l] == log[l];
    if w.startVa != 0 {
      var j :| 0 <= j < i + 1 && log[..m][j].segment.dispatcherVa == w.startVa
            && forall l :: 0 <= l < j ==> log[..m][l].segment.dispatcherVa == 0;
      assert log[j].segment.dispatcherVa == w.startVa;
    }
  }

  lemma EntryFirst(w: VmWorklist)
    requires w.Settled() && |w.log| > 0
    ensures w.log[0].item.key == Vpc(w.entryVa) && w.log[0].item.startVa == w.entryVa
         && w.log[0].item.inject == map[]
  {
    hide EdgesFor, Booked, BlocksFit, IndexTable, KeysOf, Distinct;
    assert Ready(w.log[..0], w.log[0].item, w.entryVa);
  }

  lemma NotEntry(w: VmWorklist, m: nat)
    requires w.Settled() && 0 < m < |w.log|
    ensures w.log[m].item.key != Vpc(w.entryVa)
    ensures w.log[m].item.inject == map[w.vpcReg := Const(w.log[m].item.key.addr, 64)]
  {
    hide EdgesFor, Consecutive, BlocksFit, IndexTable, KeysOf, AllBorn, Resumed, DispatchesAt;
    EntryFirst(w);
    assert EntryFits(w.log[m], w.keys, w.oracle, w.vpcReg, w.entryVa);
  }

  /** The block of `v`. */
  ghost predicate BlockIsOf(w: VmWorklist, b: nat, v: Vpc)
    reads w
  {
    v in w.vpcToBlock && w.vpcToBlock[v] == b && b < |w.keys| && w.keys[b] == v
  }

  /** Each evaluated block ends as its segment says: the taken VPC's block is the target, the other
      VPC's the fallthrough; its out-edges are these, in that order. */
  lemma BlockEnds(w: VmWorklist, m: nat)
    requires w.Settled() && m < |w.log|
    ensures w.log[m].item.bid < |w.cfg.blocks| && BlockIsOf(w, w.log[m].item.bid, w.log[m].item.key)
    ensures var seg := w.log[m].segment;
            var bb := w.cfg.blocks[w.log[m].item.bid];
            && (seg.kind.VmRet? ==> bb.term.kind == RETURN)
            && (seg.kind.VmBranch? && seg.vpcTaken.Some? && seg.vpcNotTaken.Some? ==>
                  && bb.term.kind == CJUMP && bb.term.target.Some? && bb.term.fallthrough.Some?
                  && BlockIsOf(w, bb.term.target.value, seg.vpcTaken.value)
                  && BlockIsOf(w, bb.term.fallthrough.value, seg.vpcNotTaken.value))
            && (seg.kind.VmUnresolved? ==> bb.term.kind == UNREACHABLE)
            && (!seg.kind.VmBranch? ==> bb.term.target.None? && bb.term.fallthrough.None?)
            && (bb.term.condition.Some? <==> seg.condition.Some?) && |bb.instrs| == |seg.instrs|
            && Targets(w.cfg.edges, w.log[m].item.bid) == GraphFacts.TermTargets(bb.term)
  {
    hide IndexTable, Consecutive, EdgesFor, KeysOf, AllBorn, Resumed, DispatchesAt, Renumbered, IdMap, Targets,
         Distinct;
    var q := w.log[m];
    SettledLedger(w);
    assert EntryFits(q, w.keys, w.oracle, w.vpcReg, w.entryVa);
    KeyAt(w.keys, q.item.bid);
    if Branches(q.segment) {
      KeyAt(w.keys, q.taken);
      KeyAt(w.keys, q.notTaken);
    }
    TargetsLogged(w.keys, w.log, |w.log|, m);
  }

  lemma KeyAt(keys: seq<Vpc>, b: nat)
    requires Distinct(keys) && b < |keys|
    ensures keys[b] in IndexTable(keys) && IndexTable(keys)[keys[b]] == b
  {
    hide IndexTable;
    IndexTableFacts(keys);
  }

  lemma {:induction false} TargetsLogged(keys: seq<Vpc>, log: seq<Processed>, n: nat, m: nat)
    requires Ledger(keys, log) && m < |log| && n <= |log|
    ensures Targets(EdgesFor(log, n), log[m].item.bid)
         == if m < n && Branches(log[m].segment) then [log[m].taken, log[m].notTaken] else []
  {
    hide KeysOf, Targets;
    var b := log[m].item.bid;
    GraphFacts.NoTargets(b);
    if n > 0 {
      TargetsLogged(keys, log, n - 1, m);
      var last := ArmEdges(log[n - 1], KeysOf(log[..n]));
      GraphFacts.TargetsAppend(EdgesFor(log, n - 1), last, b);
      if Branches(log[n - 1].segment) {
        assert last[..1] == [last[0]] && last[..1][..0] == [];
        GraphFacts.LastTarget(last, b);
        GraphFacts.LastTarget(last[..1], b);
      }
      if m != n - 1 { assert log[n - 1].item.bid != b; }
    }
  }

  // ----- the classification, exactly -----

  /** A segment returns if the evaluator stopped at a return. It branches if the evaluator stopped
      unresolved, the last SELECT has three operands and both targets are found. In no other case. */
  lemma ClassifyExact(h: Host, g: Trace, stop: Stop, stopVa: Word)
    requires WellFormed(g)
    ensures var seg := Classify(h, g, stop, stopVa);
            && seg.instrs == g && seg.dispatcherVa == stopVa
            && (seg.kind.VmRet? <==> stop.StoppedAtReturn?)
            && (seg.kind.VmBranch? <==>
                  stop.StoppedUnresolved?
                  && exists k :: 0 <= k < |g| && g[k].op == SELECT && (forall j :: k < j < |g| ==> g[j].op != SELECT)
                              && |g[k].operands| == 3
                              && ExtractTargets(h, g, g[k].Ref(), g[k].operands[0]).Some?)
            && (!seg.kind.VmBranch? ==> seg.condition.None? && seg.vpcTaken.None? && seg.vpcNotTaken.None?)
  {
    hide WellFormed, ExtractTargets;
    var sel := LastSelect(g, |g|);
  }
}
