// The edges of an undirected unweighted graph (FastUndirectedUnweightedEdges): an edge
// between two different nodes is stored in both directions, a self-loop once, and the
// count is the number of undirected edges.

module UndirectedEdges {
  import opened Common
  import opened SortedLists
  import opened RelationLists
  import opened UnweightedRelations
  import opened WeightedRelations
  import opened Edges

  /** A symmetric relation: every pair is held in both directions. */
  ghost predicate Symmetric(rel: UnweightedRelation)
    reads rel
  {
    forall f, s :: rel.Related(f, s) ==> rel.Related(s, f)
  }

  /**
   * The edge half of addEdge for two different nodes: the pair goes into the symmetric
   * edge relation in both directions, two more pairs and no new self-pair.
   */
  method AddBothWays(rel: UnweightedRelation, a: int, b: int) returns (ok: bool)
    requires rel.Valid() && |rel.firstIdxList| == |rel.secondIdxList| && Symmetric(rel) && a != b
    modifies rel
    ensures rel.Valid() && |rel.firstIdxList| == |rel.secondIdxList| && Symmetric(rel)
    ensures ok <==> 0 <= a < |rel.secondIdxList| && 0 <= b < |rel.secondIdxList| && !old(rel.Related(a, b))
    ensures |rel.secondIdxList| == old(|rel.secondIdxList|)
    ensures forall f, s :: rel.Related(f, s) <==> old(rel.Related(f, s)) || (ok && ((f == a && s == b) || (f == b && s == a)))
    ensures TotalSize(rel.secondIdxList) == old(TotalSize(rel.secondIdxList)) + if ok then 2 else 0
    ensures SelfPairs(rel.secondIdxList) == old(SelfPairs(rel.secondIdxList))
  {
    ghost var before := rel.secondIdxList;
    ok := rel.AddRelation(a, b);
    if ok {
      ok := rel.AddRelation(b, a);
    }
    forall x ensures Has(before, x, x) <==> Has(rel.secondIdxList, x, x) {
      assert Has(before, x, x) == old(rel.Related(x, x));
    }
    SelfPairsSame(before, rel.secondIdxList);
  }

  /**
   * The type half of addEdge for two different nodes: the type is stored in both
   * directions, which the edge half has found free.
   */
  method AddTypesBothWays(rel: WeightedRelation<int>, a: int, b: int, typ: int) returns (ok: bool)
    requires rel.Valid() && |rel.firstIdxList| == |rel.secondIdxList| && a != b
    requires 0 <= a < |rel.secondIdxList| && 0 <= b < |rel.secondIdxList|
    requires rel.Weight(a, b).None? && rel.Weight(b, a).None?
    modifies rel
    ensures rel.Valid() && |rel.firstIdxList| == |rel.secondIdxList| && ok
    ensures |rel.secondIdxList| == old(|rel.secondIdxList|)
    ensures forall f, s :: rel.Weight(f, s) == if (f == a && s == b) || (f == b && s == a) then Some(typ) else old(rel.Weight(f, s))
  {
    ok := rel.AddRelation(a, b, typ);
    if ok {
      ok := rel.AddRelation(b, a, typ);
    }
  }

  /**
   * The edge half of removeEdge for two different nodes: the pair leaves the symmetric
   * edge relation in both directions, two pairs fewer and the same self-pairs.
   */
  method RemoveBothWays(rel: UnweightedRelation, a: int, b: int) returns (ok: bool)
    requires rel.Valid() && |rel.firstIdxList| == |rel.secondIdxList| && Symmetric(rel) && a != b
    modifies rel
    ensures rel.Valid() && |rel.firstIdxList| == |rel.secondIdxList| && Symmetric(rel)
    ensures ok <==> old(rel.Related(a, b))
    ensures |rel.secondIdxList| == old(|rel.secondIdxList|)
    ensures forall f, s :: rel.Related(f, s) <==> old(rel.Related(f, s)) && !((f == a && s == b) || (f == b && s == a))
    ensures TotalSize(rel.secondIdxList) == old(TotalSize(rel.secondIdxList)) - if ok then 2 else 0
    ensures SelfPairs(rel.secondIdxList) == old(SelfPairs(rel.secondIdxList))
  {
    ghost var before := rel.secondIdxList;
    ok := rel.RemovePair(a, b);
    if ok {
      ok := rel.RemovePair(b, a);
    }
    forall x ensures Has(before, x, x) <==> Has(rel.secondIdxList, x, x) {
      assert Has(before, x, x) == old(rel.Related(x, x));
    }
    SelfPairsSame(before, rel.secondIdxList);
  }

  /**
   * The type half of removeEdge for two different nodes: both directions' types go,
   * which the edge half has found present.
   */
  method RemoveTypesBothWays(rel: WeightedRelation<int>, a: int, b: int) returns (ok: bool)
    requires rel.Valid() && |rel.firstIdxList| == |rel.secondIdxList| && a != b
    requires rel.Weight(a, b).Some? && rel.Weight(b, a).Some?
    modifies rel
    ensures rel.Valid() && |rel.firstIdxList| == |rel.secondIdxList| && ok
    ensures |rel.secondIdxList| == old(|rel.secondIdxList|)
    ensures forall f, s :: rel.Weight(f, s) == if (f == a && s == b) || (f == b && s == a) then None else old(rel.Weight(f, s))
  {
    ok := rel.RemovePair(a, b);
    if ok {
      ok := rel.RemovePair(b, a);
    }
  }

  class UndirectedUnweightedEdges {
    const edges: FastEdges

    /**
     * The relations are consistent, every edge is stored in both directions, and twice
     * the count is the number of stored pairs plus the self-loops (stored once each).
     */
    ghost predicate Valid()
      reads this, edges, edges.weights, edges.weights.rel, edges.types, edges.types.rel
    {
      && edges.Valid()
      && Symmetric(edges.weights.rel)
      && 2 * edges.numEdges == TotalSize(edges.weights.rel.secondIdxList) + SelfPairs(edges.weights.rel.secondIdxList)
    }

    constructor ()
      ensures Valid() && fresh(edges) && fresh(edges.weights.rel) && fresh(edges.types.rel)
      ensures edges.Size() == 0 && edges.numEdges == 0
    {
      edges := new FastEdges();
      new;
      assert Diagonal(edges.weights.rel.secondIdxList) == [];
    }

    /** In a symmetric relation a node's two lists are the same list. */
    lemma SameNeighbours(a: int)
      requires Valid() && 0 <= a < edges.Size()
      ensures edges.weights.rel.firstIdxList[a] == edges.weights.rel.secondIdxList[a]
    {
      var rel := edges.weights.rel;
      forall x ensures x in rel.firstIdxList[a] <==> x in rel.secondIdxList[a] {
        assert Has(rel.firstIdxList, a, x) <==> edges.Edge(x, a);
        assert edges.Edge(x, a) <==> edges.Edge(a, x);
      }
      SortedUnique(rel.firstIdxList[a], rel.secondIdxList[a]);
    }

    /** getNeighbourNodes: the node's neighbours, in increasing order. */
    function NeighbourNodes(node: int): (r: seq<int>)
      reads this, edges, edges.weights, edges.weights.rel, edges.types, edges.types.rel
      requires Valid() && 0 <= node < edges.Size()
      ensures StrictlySorted(r)
      ensures forall x :: x in r <==> edges.Edge(node, x)
      ensures forall x :: x in r <==> edges.Edge(x, node)
    {
      assert forall x :: Has(edges.weights.rel.firstIdxList, node, x) <==> edges.Edge(x, node);
      edges.weights.rel.firstIdxList[node]
    }

    /** getNeighbourWeights: every neighbour, in increasing order, with the default weight 1.0. */
    function NeighbourWeights(node: int): (r: seq<Entry<real>>)
      reads this, edges, edges.weights, edges.weights.rel, edges.types, edges.types.rel
      requires Valid() && 0 <= node < edges.Size()
      ensures Keys(r) == NeighbourNodes(node)
      ensures forall k :: 0 <= k < |r| ==> r[k].val == DefaultWeight
    {
      var l := NeighbourNodes(node);
      seq(|l|, k requires 0 <= k < |l| => Entry(l[k], DefaultWeight))
    }

    /** addUser: the node is added without edges, so the count stays right. */
    method AddUser(node: int) returns (ok: bool)
      requires Valid() && node >= 0
      modifies edges.weights.rel, edges.types.rel
      ensures Valid()
      ensures ok <==> node == old(edges.Size())
      ensures edges.Size() == old(edges.Size()) + if ok then 1 else 0
      ensures forall f, s :: edges.Edge(f, s) <==> old(edges.Edge(f, s))
    {
      ok := edges.AddUser(node);
    }

    /**
     * addEdge: a missing edge between existing nodes is stored in both directions in
     * both relations (a self-loop once) and counted once; otherwise nothing changes.
     */
    method AddEdge(orig: int, dest: int, weight: real, typ: int) returns (ok: bool)
      requires Valid()
      modifies edges, edges.weights.rel, edges.types.rel
      ensures Valid()
      ensures ok <==> 0 <= orig < edges.Size() && 0 <= dest < edges.Size() && !old(edges.Edge(orig, dest))
      ensures edges.Size() == old(edges.Size())
      ensures forall f, s :: edges.Edge(f, s) <==>
                old(edges.Edge(f, s)) || (ok && ((f == orig && s == dest) || (f == dest && s == orig)))
      ensures ok ==> edges.types.rel.Weight(orig, dest) == Some(typ) && edges.types.rel.Weight(dest, orig) == Some(typ)
      ensures edges.numEdges == old(edges.numEdges) + if ok then 1 else 0
    {
      if orig == dest {
        ok := AddSelfLoop(orig, typ);
        return;
      }
      ok := AddBothWays(edges.weights.rel, orig, dest);
      if ok {
        ok := AddTypesBothWays(edges.types.rel, orig, dest, typ);
        if ok {
          edges.numEdges := edges.numEdges + 1;
        }
      }
    }

    /** addEdge for an edge from a node to itself: the single pair is stored once. */
    method AddSelfLoop(node: int, typ: int) returns (ok: bool)
      requires Valid()
      modifies edges, edges.weights.rel, edges.types.rel
      ensures Valid()
      ensures ok <==> 0 <= node < edges.Size() && !old(edges.Edge(node, node))
      ensures edges.Size() == old(edges.Size())
      ensures forall f, s :: edges.Edge(f, s) <==> old(edges.Edge(f, s)) || (ok && f == node && s == node)
      ensures ok ==> edges.types.rel.Weight(node, node) == Some(typ)
      ensures edges.numEdges == old(edges.numEdges) + if ok then 1 else 0
    {
      ghost var before := edges.weights.rel.secondIdxList;
      ok := edges.weights.rel.AddRelation(node, node);
      if ok {
        forall x ensures Has(edges.weights.rel.secondIdxList, x, x) <==> Has(before, x, x) || x == node {
          assert Has(before, x, x) == old(edges.Edge(x, x));
        }
        SelfPairsAdd(before, edges.weights.rel.secondIdxList, node);
        ok := edges.types.rel.AddRelation(node, node, typ);
        if ok {
          edges.numEdges := edges.numEdges + 1;
        }
      }
    }

    /** updateEdgeWeight: there is no weight to change; it reports whether the edge exists. */
    function UpdateEdgeWeight(orig: int, dest: int, weight: real): (b: bool)
      reads this, edges, edges.weights, edges.weights.rel
      requires edges.weights.Valid()
      ensures b <==> edges.Edge(orig, dest)
    {
      edges.ContainsEdge(orig, dest)
    }

    /**
     * removeEdge as inherited: only the direction asked for goes, and the count drops by
     * one. For an edge between two different nodes the other direction stays, so the
     * graph is no longer symmetric.
     */
    method RemoveEdgeAsWritten(orig: int, dest: int) returns (ok: bool)
      requires Valid()
      modifies edges, edges.weights.rel, edges.types.rel
      ensures ok <==> old(edges.Edge(orig, dest))
      ensures forall f, s :: edges.Edge(f, s) <==> old(edges.Edge(f, s)) && !(f == orig && s == dest)
      ensures edges.numEdges == old(edges.numEdges) - if ok then 1 else 0
      ensures ok && orig != dest ==> edges.Edge(dest, orig) && !edges.Edge(orig, dest) && !Valid()
    {
      ok := edges.RemoveEdge(orig, dest);
    }

    /**
     * removeEdge as an undirected graph needs it: both directions go from both relations
     * (a self-loop's one pair), and the count drops by one.
     */
    method RemoveEdge(orig: int, dest: int) returns (ok: bool)
      requires Valid()
      modifies edges, edges.weights.rel, edges.types.rel
      ensures Valid()
      ensures ok <==> old(edges.Edge(orig, dest))
      ensures edges.Size() == old(edges.Size())
      ensures forall f, s :: edges.Edge(f, s) <==>
                old(edges.Edge(f, s)) && !((f == orig && s == dest) || (f == dest && s == orig))
      ensures edges.numEdges == old(edges.numEdges) - if ok then 1 else 0
    {
      if orig == dest {
        ok := RemoveSelfLoop(orig);
        return;
      }
      ok := RemoveBothWays(edges.weights.rel, orig, dest);
      if ok {
        ok := RemoveTypesBothWays(edges.types.rel, orig, dest);
        if ok {
          edges.numEdges := edges.numEdges - 1;
        }
      }
    }

    /** removeEdge for an edge from a node to itself: the single pair goes from both relations. */
    method RemoveSelfLoop(node: int) returns (ok: bool)
      requires Valid()
      modifies edges, edges.weights.rel, edges.types.rel
      ensures Valid()
      ensures ok <==> old(edges.Edge(node, node))
      ensures edges.Size() == old(edges.Size())
      ensures forall f, s :: edges.Edge(f, s) <==> old(edges.Edge(f, s)) && !(f == node && s == node)
      ensures edges.numEdges == old(edges.numEdges) - if ok then 1 else 0
    {
      ghost var before := edges.weights.rel.secondIdxList;
      ok := edges.weights.rel.RemovePair(node, node);
      if ok {
        forall x ensures Has(edges.weights.rel.secondIdxList, x, x) <==> Has(before, x, x) && x != node {
          assert Has(before, x, x) == old(edges.Edge(x, x));
        }
        SelfPairsDrop(before, edges.weights.rel.secondIdxList, node);
        ok := edges.types.rel.RemovePair(node, node);
        if ok {
          edges.numEdges := edges.numEdges - 1;
        }
      }
    }

    /**
     * removeNode, over the relations' corrected removals: the node and its edges go, the
     * later nodes move down by one, and the count loses one edge per neighbour. An index
     * out of range makes the source's count lookup throw.
     */
    method RemoveNode(idx: int) returns (ok: bool)
      requires Valid() && 0 <= idx < edges.Size()
      modifies edges, edges.weights.rel, edges.types.rel
      ensures Valid() && ok
      ensures edges.Size() == old(edges.Size()) - 1
      ensures forall f, s :: edges.Edge(f, s) <==> 0 <= f < edges.Size() && old(edges.Edge(Up(f, idx), Up(s, idx)))
      ensures edges.numEdges == old(edges.numEdges) - old(|NeighbourNodes(idx)|)
    {
      var toDel := edges.GetAdjacentCount(idx);
      ghost var seconds := edges.weights.rel.secondIdxList;
      ghost var incident := edges.GetIncidentCount(idx);
      SameNeighbours(idx);
      TotalSizeRemoved(seconds, idx);
      CountSorted(seconds[idx], idx);
      SelfPairsRemoved(seconds, idx);
      ok := edges.weights.Remove(idx);
      if ok {
        ok := edges.types.Remove(idx);
      }
      if ok {
        edges.numEdges := edges.numEdges - toDel;
      }
      forall f, s | edges.Edge(f, s) ensures edges.Edge(s, f) {
        assert old(edges.Edge(Up(f, idx), Up(s, idx)));
        assert old(edges.Edge(Up(s, idx), Up(f, idx)));
      }
    }

    /** getNodesWithEdges: the nodes with some edge, in increasing order. */
    function NodesWithEdges(): (r: seq<int>)
      reads this, edges, edges.weights, edges.weights.rel, edges.types, edges.types.rel
      requires Valid()
      ensures StrictlySorted(r) && forall x :: x in r <==> edges.HasEdges(x)
    {
      edges.weights.rel.FirstsWithSeconds()
    }

    /** getNodesWithMutualEdges: the same list, since every neighbour is mutual. */
    function NodesWithMutualEdges(): (r: seq<int>)
      reads this, edges, edges.weights, edges.weights.rel, edges.types, edges.types.rel
      requires Valid()
      ensures StrictlySorted(r) && forall x :: x in r <==> edges.Mutual(x)
    {
      var r := edges.weights.rel.FirstsWithSeconds();
      assert forall x :: x in r ==> edges.Mutual(x) by {
        forall x | x in r ensures edges.Mutual(x) {
          var o :| edges.weights.rel.Related(x, o);
          assert edges.Edge(o, x) && edges.Edge(x, o);
        }
      }
      r
    }
  }
}
