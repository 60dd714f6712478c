// The edges of a graph over integer node indices (FastEdges): an unweighted
// auto-relation holding the edges themselves and a weighted auto-relation holding each
// edge's type, both over the same nodes and the same pairs, and a count of the edges.
// The directed and the undirected graphs each wrap one of these.

module Edges {
  import opened Common
  import opened SortedLists
  import opened RelationLists
  import opened UnweightedRelations
  import opened WeightedRelations
  import Combiner
  import Neighbours

  /** The weight of every edge of an unweighted graph. */
  const DefaultWeight: real := 1.0
  /** The type reported for a missing edge. */
  const ErrorType: int := -1

  class FastEdges {
    /** The edges: a pair (orig, dest) is related when there is an edge from orig to dest. */
    const weights: UnweightedAutoRelation
    /** The type of every edge, stored for the same pairs. */
    const types: WeightedAutoRelation<int>
    var numEdges: int

    /** Both relations are well formed, over the same nodes, and hold the same pairs. */
    ghost predicate Valid()
      reads this, weights, weights.rel, types, types.rel
    {
      && weights.Valid() && types.Valid()
      && |weights.rel.secondIdxList| == |types.rel.secondIdxList|
      && (forall f, s :: weights.rel.Related(f, s) <==> types.rel.Weight(f, s).Some?)
    }

    /** The number of nodes. */
    function Size(): nat
      reads this, weights, weights.rel
    {
      |weights.rel.secondIdxList|
    }

    /** Whether there is an edge from `orig` to `dest`. */
    predicate Edge(orig: int, dest: int)
      reads this, weights, weights.rel
    {
      weights.rel.Related(orig, dest)
    }

    /** Whether some node has edges both to and from `node`. */
    ghost predicate Mutual(node: int)
      reads this, weights, weights.rel
    {
      exists other :: Edge(other, node) && Edge(node, other)
    }

    /** The graph without nodes or edges, as the subclasses' constructors build it. */
    constructor ()
      ensures Valid() && fresh(weights) && fresh(weights.rel) && fresh(types) && fresh(types.rel)
      ensures Size() == 0 && numEdges == 0 && TotalSize(weights.rel.secondIdxList) == 0
    {
      weights := new UnweightedAutoRelation([]);
      types := new WeightedAutoRelation([]);
      numEdges := 0;
    }

    /** Both relations store the same lists of nodes, so the types' counts are the edges' counts. */
    lemma SameLists(a: int)
      requires Valid() && 0 <= a < Size()
      ensures Keys(types.rel.secondIdxList[a]) == weights.rel.secondIdxList[a]
      ensures Keys(types.rel.firstIdxList[a]) == weights.rel.firstIdxList[a]
    {
      var ws, wf := weights.rel.secondIdxList[a], weights.rel.firstIdxList[a];
      var ts, tf := types.rel.secondIdxList[a], types.rel.firstIdxList[a];
      forall x ensures x in Keys(ts) <==> x in ws {
        LookupSorted(ts, x);
        assert weights.rel.Related(a, x) <==> types.rel.Weight(a, x).Some?;
      }
      forall x ensures x in Keys(tf) <==> x in wf {
        LookupSorted(tf, x);
        assert weights.rel.Related(x, a) <==> types.rel.Weight(x, a).Some?;
        assert Get(types.rel.secondIdxList, x, a) == Get(types.rel.firstIdxList, a, x);
        assert Has(weights.rel.secondIdxList, x, a) <==> Has(weights.rel.firstIdxList, a, x);
      }
      SortedUnique(Keys(ts), ws);
      SortedUnique(Keys(tf), wf);
    }

    /** containsEdge: whether the edge relation holds the pair. */
    function ContainsEdge(orig: int, dest: int): (b: bool)
      reads this, weights, weights.rel
      requires weights.Valid()
      ensures b <==> Edge(orig, dest)
    {
      weights.rel.ContainsPair(orig, dest)
    }

    /**
     * getEdgeWeight: the unweighted relation stores no weight, so an existing edge weighs
     * the default 1.0 and a missing one gets the error weight, NaN.
     */
    function GetEdgeWeight(orig: int, dest: int): (w: Double)
      reads this, weights, weights.rel
      requires weights.Valid()
      ensures w == Fin(DefaultWeight) <==> Edge(orig, dest)
      ensures w == NaN <==> !Edge(orig, dest)
    {
      if ContainsEdge(orig, dest) then Fin(DefaultWeight) else NaN
    }

    /**
     * getEdgeType: the stored type of an existing edge, -1 for a missing one. An index
     * past the nodes (with the other one non-negative) makes the source throw: the search
     * then finds no list and returns null, which getValue unboxes into an int.
     */
    function GetEdgeType(orig: int, dest: int): (t: int)
      reads this, weights, weights.rel, types, types.rel
      requires Valid()
      requires orig < 0 || dest < 0 || (orig < Size() && dest < Size())
      ensures Edge(orig, dest) ==> Some(t) == types.rel.Weight(orig, dest)
      ensures !Edge(orig, dest) ==> t == ErrorType
    {
      match types.rel.GetValue(orig, dest)
      case Some(t) => t
      case None => ErrorType
    }

    /**
     * addUser: a node is added only at the next free index, to both relations, with no
     * edges; a negative index makes the source throw.
     */
    method AddUser(node: int) returns (ok: bool)
      requires Valid() && node >= 0
      modifies weights.rel, types.rel
      ensures Valid()
      ensures ok <==> node == old(Size())
      ensures Size() == old(Size()) + if ok then 1 else 0
      ensures forall f, s :: Edge(f, s) <==> old(Edge(f, s))
      ensures forall f, s :: types.rel.Weight(f, s) == old(types.rel.Weight(f, s))
      ensures TotalSize(weights.rel.secondIdxList) == old(TotalSize(weights.rel.secondIdxList))
      ensures SelfPairs(weights.rel.secondIdxList) == old(SelfPairs(weights.rel.secondIdxList))
    {
      AppendEmptyCounts(weights.rel.secondIdxList);
      ok := weights.rel.AddFirstItem(node);
      if ok {
        ok := types.AddFirstItem(node);
      }
    }

    /**
     * removeEdge: the pair leaves both relations and the count drops by one; a missing
     * edge changes nothing.
     */
    method RemoveEdge(orig: int, dest: int) returns (ok: bool)
      requires Valid()
      modifies this, weights.rel, types.rel
      ensures Valid()
      ensures ok <==> old(Edge(orig, dest))
      ensures Size() == old(Size())
      ensures forall f, s :: Edge(f, s) <==> old(Edge(f, s)) && !(f == orig && s == dest)
      ensures forall f, s :: types.rel.Weight(f, s) == if f == orig && s == dest then None else old(types.rel.Weight(f, s))
      ensures numEdges == old(numEdges) - if ok then 1 else 0
      ensures TotalSize(weights.rel.secondIdxList) == old(TotalSize(weights.rel.secondIdxList)) - if ok then 1 else 0
    {
      ok := weights.rel.RemovePair(orig, dest);
      if ok {
        ok := types.rel.RemovePair(orig, dest);
      }
      if ok {
        numEdges := numEdges - 1;
      }
    }

    /** getIncidentCount: the length of the node's list of incident nodes, the edges into it. */
    function GetIncidentCount(node: int): (n: nat)
      reads this, weights, weights.rel, types, types.rel
      requires Valid() && 0 <= node < Size()
      ensures n == |weights.rel.firstIdxList[node]|
      ensures n == Column(weights.rel.secondIdxList, node)
    {
      SameLists(node);
      MirroredSymmetric(weights.rel.secondIdxList, weights.rel.firstIdxList);
      MirroredColumn(weights.rel.firstIdxList, weights.rel.secondIdxList, node);
      |types.rel.firstIdxList[node]|
    }

    /** getAdjacentCount: the length of the node's list of adjacent nodes, the edges out of it. */
    function GetAdjacentCount(node: int): (n: nat)
      reads this, weights, weights.rel, types, types.rel
      requires Valid() && 0 <= node < Size()
      ensures n == |weights.rel.secondIdxList[node]|
      ensures n == Column(weights.rel.firstIdxList, node)
    {
      SameLists(node);
      MirroredColumn(weights.rel.secondIdxList, weights.rel.firstIdxList, node);
      |types.rel.secondIdxList[node]|
    }

    /** getIsolatedNodes: the nodes with no edge in or out, in increasing order. */
    function GetIsolatedNodes(): (r: seq<int>)
      reads this, weights, weights.rel
      requires weights.Valid()
      ensures StrictlySorted(r)
      ensures forall a :: a in r <==> 0 <= a < Size() && forall b :: !Edge(a, b) && !Edge(b, a)
    {
      assert forall a, b :: Edge(a, b) <==> weights.rel.Related(a, b);
      weights.GetIsolated()
    }

    /** hasAdjacentEdges: whether some edge leaves the node. */
    function HasAdjacentEdges(node: int): (b: bool)
      reads this, weights, weights.rel
      requires weights.Valid()
      ensures b <==> exists dest :: Edge(node, dest)
    {
      assert forall a, b :: Edge(a, b) <==> weights.rel.Related(a, b);
      weights.rel.HasSeconds(node)
    }

    /** hasIncidentEdges: whether some edge reaches the node. */
    function HasIncidentEdges(node: int): (b: bool)
      reads this, weights, weights.rel
      requires weights.Valid()
      ensures b <==> exists orig :: Edge(orig, node)
    {
      assert forall a, b :: Edge(a, b) <==> weights.rel.Related(a, b);
      weights.rel.HasFirsts(node)
    }

    /** hasEdges: whether some edge reaches or leaves the node. */
    function HasEdges(node: int): (b: bool)
      reads this, weights, weights.rel
      requires weights.Valid()
      ensures b <==> exists other :: Edge(other, node) || Edge(node, other)
    {
      assert forall a, b :: Edge(a, b) <==> weights.rel.Related(a, b);
      weights.rel.HasFirsts(node) || weights.rel.HasSeconds(node)
    }

    /**
     * hasMutualEdges: whether the node's incident and adjacent lists share a node, that
     * is, whether some node has edges both to and from it. The lists are read at the
     * node's index, which must exist.
     */
    method HasMutualEdges(node: int) returns (b: bool)
      requires weights.Valid() && 0 <= node < Size()
      ensures b <==> Mutual(node)
    {
      var incident, adjacent := weights.rel.firstIdxList[node], weights.rel.secondIdxList[node];
      b := Combiner.IntersectionHasElements(incident, adjacent, Neighbours.Identity);
      Combiner.SharedKey(incident, adjacent, Neighbours.Identity);
      forall other ensures other in incident <==> Edge(other, node) {
        assert Has(weights.rel.firstIdxList, node, other) <==> Has(weights.rel.secondIdxList, other, node);
      }
    }
  }
}
