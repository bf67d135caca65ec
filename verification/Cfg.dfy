/** The recovered control-flow graph and the operations that build and query it. */
module Cfg {
  import opened Ir

  datatype TermKind = FALLTHROUGH | JUMP | CJUMP | RETURN | UNREACHABLE

  datatype Terminator = Terminator(kind: TermKind, target: Option<nat>, fallthrough: Option<nat>,
                                   condition: Option<Value>)

  const NO_TERMINATOR := Terminator(UNREACHABLE, None, None, None)

  /** One incoming value of a phi: the predecessor block and the value along its edge. */
  datatype PhiInput = PhiInput(pred: nat, value: Value)

  datatype PhiNode = PhiNode(resultId: nat, reg: string, incoming: seq<PhiInput>)

  datatype BasicBlock = BasicBlock(id: nat, phis: seq<PhiNode>, instrs: Trace, term: Terminator)

  datatype Edge = Edge(from: nat, to: nat, isBackedge: bool)

  /** The targets, in order, of the edges that leave `id`. */
  function Targets(edges: seq<Edge>, id: nat): seq<nat> {
    if |edges| == 0 then []
    else
      var e := edges[|edges| - 1];
      Targets(edges[..|edges| - 1], id) + if e.from == id then [e.to] else []
  }

  /** The sources, in order, of the edges that enter `id`. */
  function Sources(edges: seq<Edge>, id: nat): seq<nat> {
    if |edges| == 0 then []
    else
      var e := edges[|edges| - 1];
      Sources(edges[..|edges| - 1], id) + if e.to == id then [e.from] else []
  }

  lemma {:induction false} TargetsAreEdges(edges: seq<Edge>, a: nat, b: nat)
    ensures b in Targets(edges, a) <==> exists i :: 0 <= i < |edges| && edges[i].from == a && edges[i].to == b
    ensures a in Sources(edges, b) <==> b in Targets(edges, a)
  {
    if |edges| > 0 {
      TargetsAreEdges(edges[..|edges| - 1], a, b);
      assert forall i :: 0 <= i < |edges| - 1 ==> edges[..|edges| - 1][i] == edges[i];
    }
  }

  class CFGFunction {
    var blocks: seq<BasicBlock>
    var edges: seq<Edge>
    var entryBlock: nat
    var nextBlockId: nat

    /** Ids are dense: block `i` has id `i`. */
    ghost predicate Valid()
      reads this
    {
      && nextBlockId == |blocks|
      && forall i :: 0 <= i < |blocks| ==> blocks[i].id == i
    }

    constructor ()
      ensures Valid() && blocks == [] && edges == [] && entryBlock == 0
    {
      blocks, edges, entryBlock, nextBlockId := [], [], 0, 0;
    }

    method AddBlock() returns (id: nat)
      requires Valid()
      modifies this`blocks, this`nextBlockId
      ensures Valid() && id == |old(blocks)|
      ensures blocks == old(blocks) + [BasicBlock(id, [], [], NO_TERMINATOR)]
    {
      id := nextBlockId;
      nextBlockId := nextBlockId + 1;
      blocks := blocks + [BasicBlock(id, [], [], NO_TERMINATOR)];
    }

    method AddEdge(from: nat, to: nat, backedge: bool)
      modifies this`edges
      ensures edges == old(edges) + [Edge(from, to, backedge)]
    {
      edges := edges + [Edge(from, to, backedge)];
    }

    /** The position of the first block with the id, if any. */
    method BlockById(id: nat) returns (pos: Option<nat>)
      ensures pos.Some? ==> pos.value < |blocks| && blocks[pos.value].id == id
      ensures pos.None? ==> forall i :: 0 <= i < |blocks| ==> blocks[i].id != id
      ensures Valid() && id < |blocks| ==> pos == Some(id)
    {
      for i := 0 to |blocks|
        invariant forall k :: 0 <= k < i ==> blocks[k].id != id
        invariant Valid() && id < |blocks| ==> i <= id
      {
        if blocks[i].id == id { return Some(i); }
      }
      return None;
    }

    method Successors(id: nat) returns (result: seq<nat>)
      ensures result == Targets(edges, id)
      ensures forall b :: b in result <==> exists i :: 0 <= i < |edges| && edges[i].from == id && edges[i].to == b
    {
      result := [];
      for i := 0 to |edges|
        invariant result == Targets(edges[..i], id)
      {
        assert edges[..i + 1][..i] == edges[..i];
        if edges[i].from == id { result := result + [edges[i].to]; }
      }
      assert edges[..|edges|] == edges;
      forall b ensures b in result <==> exists i :: 0 <= i < |edges| && edges[i].from == id && edges[i].to == b {
        TargetsAreEdges(edges, id, b);
      }
    }

    method Predecessors(id: nat) returns (result: seq<nat>)
      ensures result == Sources(edges, id)
      ensures forall a :: a in result <==> exists i :: 0 <= i < |edges| && edges[i].from == a && edges[i].to == id
    {
      result := [];
      for i := 0 to |edges|
        invariant result == Sources(edges[..i], id)
      {
        assert edges[..i + 1][..i] == edges[..i];
        if edges[i].to == id { result := result + [edges[i].from]; }
      }
      assert edges[..|edges|] == edges;
      forall a ensures a in result <==> exists i :: 0 <= i < |edges| && edges[i].from == a && edges[i].to == id {
        TargetsAreEdges(edges, a, id);
      }
    }
  }
}
