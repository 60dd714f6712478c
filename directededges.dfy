// The edges of a directed unweighted graph (FastDirectedUnweightedEdges): every pair of
// the edge relation is one edge, so the edge count is the total length of the lists of
// adjacent nodes.

module DirectedEdges {
  import opened Common
  import opened SortedLists
  import opened RelationLists
  import opened UnweightedRelations
  import opened WeightedRelations
  import opened Edges
  import opened Neighbours
  import Combiner

  /** The elements of `s` that belong to `m`, in their order in `s`. */
  ghost function Among(s: seq<int>, m: iset<int>): (r: seq<int>)
    ensures forall x :: x in r <==> x in s && x in m
    ensures StrictlySorted(s) ==> StrictlySorted(r)
  {
    if s == [] then []
    else
      var n := |s| - 1;
      var front := Among(s[..n], m);
      assert s == s[..n] + [s[n]];
      if s[n] !in m then front
      else
        assert StrictlySorted(s) ==> forall j :: 0 <= j < |front| ==> front[j] < s[n] by {
          if StrictlySorted(s) {
            forall j | 0 <= j < |front| ensures front[j] < s[n] {
              assert front[j] in s[..n];
            }
          }
        }
        if StrictlySorted(s) then SortedSnoc(front, s[n]); front + [s[n]] else front + [s[n]]
  }

  /** Whether some node is related to `node` and `node` to it, in the rows `lists`. */
  ghost predicate MutualIn(lists: seq<seq<int>>, node: int)
  {
    exists other :: Has(lists, other, node) && Has(lists, node, other)
  }

  /** Extending the prefix by one element extends the selection by that element when it belongs. */
  lemma AmongStep(s: seq<int>, k: int, m: iset<int>)
    requires 0 <= k < |s|
    ensures Among(s[..k + 1], m) == if s[k] in m then Among(s[..k], m) + [s[k]] else Among(s[..k], m)
  {
    assert s[..k + 1][..k] == s[..k];
  }

  /** The combination the nodes-with-edges merge uses: keep the first of two equal nodes. */
  function KeepFirst(x: int, y: int): int
  {
    x
  }

  class DirectedUnweightedEdges {
    const edges: FastEdges

    /** The relations are consistent and the count is the number of pairs. */
    ghost predicate Valid()
      reads this, edges, edges.weights, edges.weights.rel, edges.types, edges.types.rel
    {
      edges.Valid() && edges.numEdges == TotalSize(edges.weights.rel.secondIdxList)
    }

    constructor ()
      ensures Valid() && fresh(edges) && fresh(edges.weights.rel) && fresh(edges.types.rel)
      ensures edges.Size() == 0 && edges.numEdges == 0
    {
      edges := new FastEdges();
    }

    /** getIncidentNodes: the nodes with an edge to `node`, in increasing order. */
    function IncidentNodes(node: int): (r: seq<int>)
      reads this, edges, edges.weights, edges.weights.rel
      requires edges.weights.Valid() && 0 <= node < edges.Size()
      ensures StrictlySorted(r) && forall x :: x in r <==> edges.Edge(x, node)
    {
      assert forall x :: Has(edges.weights.rel.firstIdxList, node, x) <==> edges.Edge(x, node);
      edges.weights.rel.firstIdxList[node]
    }

    /** getAdjacentNodes: the nodes `node` has an edge to, in increasing order. */
    function AdjacentNodes(node: int): (r: seq<int>)
      reads this, edges, edges.weights, edges.weights.rel
      requires edges.weights.Valid() && 0 <= node < edges.Size()
      ensures StrictlySorted(r) && forall x :: x in r <==> edges.Edge(node, x)
    {
      edges.weights.rel.secondIdxList[node]
    }

    /** Node indices are never negative. */
    lemma NodesInRange(node: int)
      requires edges.weights.Valid() && 0 <= node < edges.Size()
      ensures forall x :: x in IncidentNodes(node) ==> 0 <= x < edges.Size()
      ensures forall x :: x in AdjacentNodes(node) ==> 0 <= x < edges.Size()
    {
      forall x | x in AdjacentNodes(node) ensures 0 <= x < edges.Size() {
        assert Has(edges.weights.rel.firstIdxList, x, node);
      }
    }

    /** addUser: the node is added without edges, so the count stays right. */
    method AddUser(node: int) returns (ok: bool)
      requires Valid() && node >= 0
      modifies edges.weights.rel, edges.types.rel
      ensures Valid()
      ensures ok <==> node == old(edges.Size())
      ensures edges.Size() == old(edges.Size()) + if ok then 1 else 0
      ensures forall f, s :: edges.Edge(f, s) <==> old(edges.Edge(f, s))
    {
      ok := edges.AddUser(node);
    }

    /**
     * addEdge: an edge between existing nodes that is not there yet goes into both
     * relations, with its type, and is counted; otherwise nothing changes. The weight is
     * not stored: the graph is unweighted.
     */
    method AddEdge(orig: int, dest: int, weight: real, typ: int) returns (ok: bool)
      requires Valid()
      modifies edges, edges.weights.rel, edges.types.rel
      ensures Valid()
      ensures ok <==> 0 <= orig < edges.Size() && 0 <= dest < edges.Size() && !old(edges.Edge(orig, dest))
      ensures edges.Size() == old(edges.Size())
      ensures forall f, s :: edges.Edge(f, s) <==> old(edges.Edge(f, s)) || (ok && f == orig && s == dest)
      ensures ok ==> edges.types.rel.Weight(orig, dest) == Some(typ)
      ensures edges.numEdges == old(edges.numEdges) + if ok then 1 else 0
    {
      ok := edges.weights.rel.AddRelation(orig, dest);
      if ok {
        ok := edges.types.rel.AddRelation(orig, dest, typ);
      }
      if ok {
        edges.numEdges := edges.numEdges + 1;
      }
    }

    /** removeEdge: the inherited removal keeps the count right. */
    method RemoveEdge(orig: int, dest: int) returns (ok: bool)
      requires Valid()
      modifies edges, edges.weights.rel, edges.types.rel
      ensures Valid()
      ensures ok <==> old(edges.Edge(orig, dest))
      ensures forall f, s :: edges.Edge(f, s) <==> old(edges.Edge(f, s)) && !(f == orig && s == dest)
      ensures edges.numEdges == old(edges.numEdges) - if ok then 1 else 0
    {
      ok := edges.RemoveEdge(orig, dest);
    }

    /** updateEdgeWeight: there is no weight to change; it reports whether the edge exists. */
    function UpdateEdgeWeight(orig: int, dest: int, weight: real): (b: bool)
      reads this, edges, edges.weights, edges.weights.rel
      requires edges.weights.Valid()
      ensures b <==> edges.Edge(orig, dest)
    {
      edges.ContainsEdge(orig, dest)
    }

    /**
     * removeNode, over the relations' corrected removals: the node and its edges go, the
     * later nodes move down by one, and the count loses the node's adjacent and incident
     * edges, its self-loop counted once. An index out of range makes the source's count
     * lookups throw.
     */
    method RemoveNode(idx: int) returns (ok: bool)
      requires Valid() && 0 <= idx < edges.Size()
      modifies edges, edges.weights.rel, edges.types.rel
      ensures Valid() && ok
      ensures edges.Size() == old(edges.Size()) - 1
      ensures forall f, s :: edges.Edge(f, s) <==> 0 <= f < edges.Size() && old(edges.Edge(Up(f, idx), Up(s, idx)))
      ensures edges.numEdges == old(edges.numEdges)
        - (old(|edges.weights.rel.secondIdxList[idx]|) + old(|edges.weights.rel.firstIdxList[idx]|)
           - if old(edges.Edge(idx, idx)) then 1 else 0)
    {
      var toDel := 0;
      if edges.weights.rel.ContainsPair(idx, idx) {
        toDel := toDel - 1;
      }
      toDel := toDel + edges.GetAdjacentCount(idx) + edges.GetIncidentCount(idx);
      ghost var seconds := edges.weights.rel.secondIdxList;
      TotalSizeRemoved(seconds, idx);
      CountSorted(seconds[idx], idx);
      ok := edges.weights.Remove(idx);
      if ok {
        ok := edges.types.Remove(idx);
      }
      if ok {
        edges.numEdges := edges.numEdges - toDel;
      }
    }

    /** getNodesWithIncidentEdges: the nodes some edge reaches, in increasing order. */
    function NodesWithIncidentEdges(): (r: seq<int>)
      reads this, edges, edges.weights, edges.weights.rel
      requires edges.weights.Valid()
      ensures StrictlySorted(r) && forall x :: x in r <==> edges.HasIncidentEdges(x)
    {
      edges.weights.rel.SecondsWithFirsts()
    }

    /** getNodesWithAdjacentEdges: the nodes some edge leaves, in increasing order. */
    function NodesWithAdjacentEdges(): (r: seq<int>)
      reads this, edges, edges.weights, edges.weights.rel
      requires edges.weights.Valid()
      ensures StrictlySorted(r) && forall x :: x in r <==> edges.HasAdjacentEdges(x)
    {
      edges.weights.rel.FirstsWithSeconds()
    }

    /** getNodesWithEdges: the merge of the two lists above, each node once, in increasing order. */
    method NodesWithEdges() returns (users: seq<int>)
      requires edges.weights.Valid()
      ensures StrictlySorted(users) && forall x :: x in users <==> edges.HasEdges(x)
    {
      var adjacentWith, incidentWith := NodesWithAdjacentEdges(), NodesWithIncidentEdges();
      users := Combiner.MergeLists(adjacentWith, incidentWith, Identity, KeepFirst);
      Combiner.MergeSorted(adjacentWith, incidentWith, Identity, KeepFirst);
      assert forall x :: x in users <==> x in Combiner.KeySet(users, Identity);
      assert forall x :: x in adjacentWith <==> x in Combiner.KeySet(adjacentWith, Identity);
      assert forall x :: x in incidentWith <==> x in Combiner.KeySet(incidentWith, Identity);
    }

    /** getNodesWithMutualEdges: the nodes with some node both reaching and reached by them, in increasing order. */
    method NodesWithMutualEdges() returns (users: seq<int>)
      requires edges.weights.Valid()
      ensures StrictlySorted(users) && forall x :: x in users <==> edges.Mutual(x)
    {
      var incidentWith := NodesWithIncidentEdges();
      ghost var lists := edges.weights.rel.secondIdxList;
      ghost var mutual := iset x | MutualIn(lists, x);
      IncidentInRange(incidentWith);
      users := [];
      var k := 0;
      while k < |incidentWith|
        invariant 0 <= k <= |incidentWith|
        invariant users == Among(incidentWith[..k], mutual)
      {
        var idx := incidentWith[k];
        var value := edges.HasMutualEdges(idx);
        MutualIsIn(lists, idx);
        AmongStep(incidentWith, k, mutual);
        if value {
          users := users + [idx];
        }
        k := k + 1;
      }
      assert incidentWith[..k] == incidentWith;
      MutualAmong(incidentWith, lists, mutual);
    }

    /** Mutual edges of a node, read off the graph's rows. */
    lemma MutualIsIn(lists: seq<seq<int>>, node: int)
      requires lists == edges.weights.rel.secondIdxList
      ensures edges.Mutual(node) <==> MutualIn(lists, node)
    {
      if edges.Mutual(node) {
        var other :| edges.Edge(other, node) && edges.Edge(node, other);
        assert Has(lists, other, node) && Has(lists, node, other);
      }
      if MutualIn(lists, node) {
        var other :| Has(lists, other, node) && Has(lists, node, other);
        assert edges.Edge(other, node) && edges.Edge(node, other);
      }
    }

    /** Selecting the nodes with mutual edges among the nodes some edge reaches yields exactly those nodes, in order. */
    lemma MutualAmong(incidentWith: seq<int>, lists: seq<seq<int>>, mutual: iset<int>)
      requires edges.weights.Valid() && incidentWith == NodesWithIncidentEdges()
      requires lists == edges.weights.rel.secondIdxList && mutual == iset x | MutualIn(lists, x)
      ensures StrictlySorted(Among(incidentWith, mutual))
      ensures forall x :: x in Among(incidentWith, mutual) <==> edges.Mutual(x)
    {
      IncidentInRange(incidentWith);
      forall x ensures x in Among(incidentWith, mutual) <==> edges.Mutual(x) {
        MutualIsIn(lists, x);
      }
    }

    /** The nodes some edge reaches are nodes of the graph, and they include every node with mutual edges. */
    lemma IncidentInRange(incidentWith: seq<int>)
      requires edges.weights.Valid() && incidentWith == NodesWithIncidentEdges()
      ensures forall j :: 0 <= j < |incidentWith| ==> 0 <= incidentWith[j] < edges.Size()
      ensures forall x :: edges.Mutual(x) ==> x in incidentWith
    {
      forall j | 0 <= j < |incidentWith|
        ensures 0 <= incidentWith[j] < edges.Size()
      {
        assert incidentWith[j] in incidentWith && edges.HasIncidentEdges(incidentWith[j]);
        var orig :| edges.Edge(orig, incidentWith[j]);
        assert Has(edges.weights.rel.firstIdxList, incidentWith[j], orig);
      }
      forall x | edges.Mutual(x) ensures x in incidentWith {
        assert edges.HasIncidentEdges(x);
      }
    }

    /**
     * getNeighbourWeights as the source writes it: a later node polled while node 0 is
     * being counted does not close node 0's count, so node 0 is not reported and its
     * count goes to that node (NodeZeroMerged); node 0 as the only neighbour is still
     * reported by the final step. Without node 0 among the neighbours it gives the
     * intended list.
     */
    method NeighbourWeightsAsWritten(node: int) returns (neighbors: seq<Entry<real>>)
      requires edges.weights.Valid() && 0 <= node < edges.Size()
      ensures neighbors == Reported(Values(Combiner.Polls(IncidentNodes(node), AdjacentNodes(node), Identity, 0, 0, 1)), true)
      ensures !edges.Edge(0, node) && !edges.Edge(node, 0) ==>
                neighbors == Reported(Values(Combiner.Polls(IncidentNodes(node), AdjacentNodes(node), Identity, 0, 0, 1)), false)
    {
      var incident, adjacent := IncidentNodes(node), AdjacentNodes(node);
      neighbors := ScanNeighbours(incident, adjacent, true);
      var vs := Values(Combiner.Polls(incident, adjacent, Identity, 0, 0, 1));
      PollsValues(incident, adjacent, 0, 0, 1);
      NodesInRange(node);
      if !edges.Edge(0, node) && !edges.Edge(node, 0) {
        assert incident[0..] == incident && adjacent[0..] == adjacent;
        forall v | v in vs ensures 0 < v {
          assert v in multiset(vs);
          assert v in multiset(incident) || v in multiset(adjacent);
          assert v in incident || v in adjacent;
        }
        ReportedAgreesWithoutZero(vs);
      }
    }

    /**
     * getNeighbourWeights with the intended guard: every node with an edge to or from
     * `node`, once, in increasing order, weighted by the number of those two edges it has.
     */
    method NeighbourWeights(node: int) returns (neighbors: seq<Entry<real>>)
      requires edges.weights.Valid() && 0 <= node < edges.Size()
      ensures neighbors == Reported(Values(Combiner.Polls(IncidentNodes(node), AdjacentNodes(node), Identity, 0, 0, 1)), false)
      ensures StrictlySorted(Keys(neighbors))
      ensures forall x :: x in Keys(neighbors) <==> edges.Edge(x, node) || edges.Edge(node, x)
      ensures forall k :: 0 <= k < |neighbors| ==>
                neighbors[k].val == (if edges.Edge(neighbors[k].idx, node) then 1.0 else 0.0)
                                    + (if edges.Edge(node, neighbors[k].idx) then 1.0 else 0.0)
    {
      var incident, adjacent := IncidentNodes(node), AdjacentNodes(node);
      neighbors := ScanNeighbours(incident, adjacent, false);
      NodesInRange(node);
      NeighbourWeightsCounted(incident, adjacent);
    }
  }
}
