// The neighbour weights of a node in a directed unweighted graph
// (FastDirectedUnweightedEdges.getNeighbourWeights): the node's incident and adjacent
// lists, both sorted, are merged through a two-element priority queue, and every
// neighbour is reported once, in increasing order, with the number of lists it is in
// (1.0 or 2.0, each edge counting with the default weight 1.0).

module Neighbours {
  import opened SortedLists
  import opened RelationLists
  import Combiner

  /** Nodes are compared by their own index. */
  function Identity(x: int): int
  {
    x
  }

  /** The nodes the queue releases, without the list each came from. */
  function Values(ps: seq<(int, int)>): (vs: seq<int>)
    ensures |vs| == |ps| && forall k :: 0 <= k < |ps| ==> vs[k] == ps[k].0
  {
    seq(|ps|, k requires 0 <= k < |ps| => ps[k].0)
  }

  lemma ValuesCons(p: (int, int), ps: seq<(int, int)>)
    ensures Values([p] + ps) == [p.0] + Values(ps)
  {
  }

  /** Polling one more pair moves its node from the pairs still to come to those already done. */
  lemma DoneCons(done: seq<int>, p: (int, int), ps: seq<(int, int)>)
    ensures done + Values([p] + ps) == (done + [p.0]) + Values(ps)
  {
    ValuesCons(p, ps);
  }

  lemma ValuesAppend(ps: seq<(int, int)>, qs: seq<(int, int)>)
    ensures Values(ps + qs) == Values(ps) + Values(qs)
  {
  }

  /**
   * The state of the loop: the neighbours reported so far, the neighbour being counted
   * (-1 before the first poll) and its count so far.
   */
  datatype Scan = Scan(neighbors: seq<Entry<real>>, currentNeigh: int, currentValue: real)

  const Start: Scan := Scan([], -1, 0.0)

  /**
   * One polled node `v`. A new node closes the one being counted and starts a fresh count,
   * but only when the guard lets it: the source's guard is `currentNeigh > 0`, and the
   * evidently intended one is `currentNeigh != -1`, which only the first poll fails. When
   * the guard fails, the new node takes over the count so far.
   */
  function Step(s: Scan, v: int, asWritten: bool): Scan
  {
    if s.currentNeigh != v then
      if (if asWritten then s.currentNeigh > 0 else s.currentNeigh != -1) then
        Scan(s.neighbors + [Entry(s.currentNeigh, s.currentValue)], v, 1.0)
      else
        Scan(s.neighbors, v, s.currentValue + 1.0)
    else
      Scan(s.neighbors, s.currentNeigh, s.currentValue + 1.0)
  }

  /** The state after polling the nodes `vs`, in order. */
  function Sweep(vs: seq<int>, asWritten: bool): Scan
  {
    if vs == [] then Start else Step(Sweep(vs[..|vs| - 1], asWritten), vs[|vs| - 1], asWritten)
  }

  lemma SweepSnoc(vs: seq<int>, v: int, asWritten: bool)
    ensures Sweep(vs + [v], asWritten) == Step(Sweep(vs, asWritten), v, asWritten)
  {
    assert (vs + [v])[..|vs|] == vs;
  }

  /** After the loop, the node still being counted is reported too. */
  function Finish(s: Scan): seq<Entry<real>>
  {
    if s.currentNeigh != -1 then s.neighbors + [Entry(s.currentNeigh, s.currentValue)] else s.neighbors
  }

  /** The list getNeighbourWeights returns for the polled nodes `vs`. */
  function Reported(vs: seq<int>, asWritten: bool): seq<Entry<real>>
  {
    Finish(Sweep(vs, asWritten))
  }

  // ---------------------------------------------------------------------------------
  // What the queue releases

  lemma SortedCons(h: int, t: seq<int>)
    requires Sorted(t) && (t != [] ==> h <= t[0])
    ensures Sorted([h] + t)
  {
    var l := [h] + t;
    forall a, b | 0 <= a < b < |l| ensures l[a] <= l[b] {
      if a == 0 {
        assert t[0] <= t[b - 1];
      }
    }
  }

  /**
   * From two strictly sorted lists, the queue releases every node of both, in
   * non-decreasing order: a node in both lists comes out twice in a row.
   */
  lemma PollsValues(xs: seq<int>, ys: seq<int>, i: int, j: int, older: int)
    requires StrictlySorted(xs) && StrictlySorted(ys)
    requires 0 <= i <= |xs| && 0 <= j <= |ys|
    ensures multiset(Values(Combiner.Polls(xs, ys, Identity, i, j, older))) == multiset(xs[i..]) + multiset(ys[j..])
    ensures Sorted(Values(Combiner.Polls(xs, ys, Identity, i, j, older)))
  {
    PollsCount(xs, ys, i, j, older);
    PollsSorted(xs, ys, i, j, older);
  }

  /** The queue releases every node of both lists, each as often as the lists hold it. */
  lemma {:induction false} PollsCount(xs: seq<int>, ys: seq<int>, i: int, j: int, older: int)
    requires 0 <= i <= |xs| && 0 <= j <= |ys|
    ensures multiset(Values(Combiner.Polls(xs, ys, Identity, i, j, older))) == multiset(xs[i..]) + multiset(ys[j..])
    decreases |xs| - i + |ys| - j
  {
    var ps := Combiner.Polls(xs, ys, Identity, i, j, older);
    if i == |xs| && j == |ys| {
      assert xs[i..] == [] && ys[j..] == [];
    } else if Combiner.PollsFirst(xs, ys, Identity, i, j, older) {
      var rest := Combiner.Polls(xs, ys, Identity, i + 1, j, 2);
      assert ps == [(xs[i], 1)] + rest;
      ValuesCons((xs[i], 1), rest);
      PollsCount(xs, ys, i + 1, j, 2);
      assert xs[i..] == [xs[i]] + xs[i + 1..];
      calc {
        multiset(Values(ps));
        multiset([xs[i]] + Values(rest));
        multiset([xs[i]]) + multiset(Values(rest));
        multiset([xs[i]]) + multiset(xs[i + 1..]) + multiset(ys[j..]);
        multiset(xs[i..]) + multiset(ys[j..]);
      }
    } else {
      var rest := Combiner.Polls(xs, ys, Identity, i, j + 1, 1);
      assert ps == [(ys[j], 2)] + rest;
      ValuesCons((ys[j], 2), rest);
      PollsCount(xs, ys, i, j + 1, 1);
      assert ys[j..] == [ys[j]] + ys[j + 1..];
      calc {
        multiset(Values(ps));
        multiset([ys[j]] + Values(rest));
        multiset([ys[j]]) + multiset(Values(rest));
        multiset(xs[i..]) + (multiset([ys[j]]) + multiset(ys[j + 1..]));
        multiset(xs[i..]) + multiset(ys[j..]);
      }
    }
  }

  /** The queue releases the nodes in non-decreasing order. */
  lemma {:induction false} PollsSorted(xs: seq<int>, ys: seq<int>, i: int, j: int, older: int)
    requires StrictlySorted(xs) && StrictlySorted(ys)
    requires 0 <= i <= |xs| && 0 <= j <= |ys|
    ensures Sorted(Values(Combiner.Polls(xs, ys, Identity, i, j, older)))
    decreases |xs| - i + |ys| - j
  {
    var ps := Combiner.Polls(xs, ys, Identity, i, j, older);
    if i == |xs| && j == |ys| {
    } else if Combiner.PollsFirst(xs, ys, Identity, i, j, older) {
      var rest := Combiner.Polls(xs, ys, Identity, i + 1, j, 2);
      assert ps == [(xs[i], 1)] + rest;
      ValuesCons((xs[i], 1), rest);
      PollsSorted(xs, ys, i + 1, j, 2);
      if rest != [] {
        assert Values(rest)[0] == if Combiner.PollsFirst(xs, ys, Identity, i + 1, j, 2) then xs[i + 1] else ys[j];
      }
      SortedCons(xs[i], Values(rest));
    } else {
      var rest := Combiner.Polls(xs, ys, Identity, i, j + 1, 1);
      assert ps == [(ys[j], 2)] + rest;
      ValuesCons((ys[j], 2), rest);
      PollsSorted(xs, ys, i, j + 1, 1);
      if rest != [] {
        assert Values(rest)[0] == if Combiner.PollsFirst(xs, ys, Identity, i, j + 1, 1) then xs[i] else ys[j + 1];
      }
      SortedCons(ys[j], Values(rest));
    }
  }

  // ---------------------------------------------------------------------------------
  // The count the intended guard gives

  /** What the loop keeps over a non-decreasing run of polled nodes, with the intended guard. */
  ghost predicate Counting(vs: seq<int>, s: Scan)
  {
    var nb := s.neighbors;
    && (vs == [] ==> s == Start)
    && (vs != [] ==>
          && s.currentNeigh == vs[|vs| - 1]
          && s.currentValue == multiset(vs)[s.currentNeigh] as real
          && StrictlySorted(Keys(nb))
          && (forall k :: 0 <= k < |nb| ==> nb[k].idx < s.currentNeigh && nb[k].val == multiset(vs)[nb[k].idx] as real)
          && (forall x :: x in Keys(nb) <==> x in vs && x != s.currentNeigh))
  }

  lemma {:induction false} SweepCounting(vs: seq<int>)
    requires Sorted(vs) && forall v :: v in vs ==> 0 <= v
    ensures Counting(vs, Sweep(vs, false))
  {
    if vs != [] {
      var n := |vs| - 1;
      var front, v := vs[..n], vs[n];
      assert vs == front + [v];
      assert forall x :: x in front ==> x in vs;
      SweepCounting(front);
      var s := Sweep(front, false);
      if front == [] {
        assert vs == [v] && s == Start;
      } else {
        assert vs[n - 1] in vs && vs[n - 1] <= vs[n];
        if s.currentNeigh == v {
          CountingRepeat(front, v, s);
        } else {
          assert forall x :: x in front ==> x <= s.currentNeigh by {
            forall x | x in front ensures x <= s.currentNeigh {
              var k :| 0 <= k < n && front[k] == x;
              assert vs[k] <= vs[n - 1];
            }
          }
          CountingNew(front, v, s);
        }
      }
    }
  }

  /** The node polled again adds one to its own count. */
  lemma CountingRepeat(front: seq<int>, v: int, s: Scan)
    requires front != [] && Counting(front, s) && s.currentNeigh == v
    ensures Counting(front + [v], Step(s, v, false))
  {
    var vs := front + [v];
    assert multiset(vs) == multiset(front) + multiset{v};
    assert forall x :: x in vs <==> x in front || x == v;
  }

  /** A larger node closes the count of the current one and starts its own. */
  lemma CountingNew(front: seq<int>, v: int, s: Scan)
    requires front != [] && Counting(front, s) && 0 <= s.currentNeigh < v
    requires forall x :: x in front ==> x <= s.currentNeigh
    ensures Counting(front + [v], Step(s, v, false))
  {
    var vs := front + [v];
    var cur := s.currentNeigh;
    assert multiset(vs) == multiset(front) + multiset{v};
    assert forall x :: x in vs <==> x in front || x == v;
    assert v !in front;
    var nb := s.neighbors + [Entry(cur, s.currentValue)];
    assert Step(s, v, false) == Scan(nb, v, 1.0);
    assert Keys(nb) == Keys(s.neighbors) + [cur];
    assert front[|front| - 1] in front;
  }

  /**
   * With the intended guard, the report over non-decreasing node indices lists every node
   * once, in increasing order, with the number of times it was polled.
   */
  lemma ReportedCounts(vs: seq<int>)
    requires Sorted(vs) && forall v :: v in vs ==> 0 <= v
    ensures StrictlySorted(Keys(Reported(vs, false)))
    ensures forall x :: x in Keys(Reported(vs, false)) <==> x in vs
    ensures forall k :: 0 <= k < |Reported(vs, false)| ==>
              Reported(vs, false)[k].val == multiset(vs)[Reported(vs, false)[k].idx] as real
  {
    SweepCounting(vs);
    var s := Sweep(vs, false);
    if vs != [] {
      assert vs[|vs| - 1] in vs;
      assert Keys(Reported(vs, false)) == Keys(s.neighbors) + [s.currentNeigh];
    }
  }

  /**
   * The neighbour weights of a node with incident list `incident` and adjacent list
   * `adjacent`: each node in either list exactly once, in increasing order, weighted by
   * the number of the two lists it is in.
   */
  lemma NeighbourWeightsCounted(incident: seq<int>, adjacent: seq<int>)
    requires StrictlySorted(incident) && StrictlySorted(adjacent)
    requires forall v :: v in incident ==> 0 <= v
    requires forall v :: v in adjacent ==> 0 <= v
    ensures var r := Reported(Values(Combiner.Polls(incident, adjacent, Identity, 0, 0, 1)), false);
            && StrictlySorted(Keys(r))
            && (forall x :: x in Keys(r) <==> x in incident || x in adjacent)
            && (forall k :: 0 <= k < |r| ==>
                  r[k].val == (if r[k].idx in incident then 1.0 else 0.0) + (if r[k].idx in adjacent then 1.0 else 0.0))
  {
    var vs := Values(Combiner.Polls(incident, adjacent, Identity, 0, 0, 1));
    PollsValues(incident, adjacent, 0, 0, 1);
    assert incident[0..] == incident && adjacent[0..] == adjacent;
    assert forall v :: v in vs <==> v in incident || v in adjacent by {
      forall v ensures v in vs <==> v in incident || v in adjacent {
        assert v in vs <==> v in multiset(vs);
      }
    }
    ReportedCounts(vs);
    forall x
      ensures multiset(vs)[x] as real == (if x in incident then 1.0 else 0.0) + (if x in adjacent then 1.0 else 0.0)
    {
      CountSorted(incident, x);
      CountSorted(adjacent, x);
    }
  }

  // ---------------------------------------------------------------------------------
  // The source's guard

  /** Away from node 0 the two guards agree, and so do the reports. */
  lemma {:induction false} SweepAgreesWithoutZero(vs: seq<int>)
    requires forall v :: v in vs ==> 0 < v
    ensures Sweep(vs, true) == Sweep(vs, false)
    ensures Sweep(vs, false).currentNeigh == -1 || Sweep(vs, false).currentNeigh > 0
  {
    if vs != [] {
      var n := |vs| - 1;
      assert forall x :: x in vs[..n] ==> x in vs;
      assert vs[n] in vs;
      SweepAgreesWithoutZero(vs[..n]);
    }
  }

  lemma ReportedAgreesWithoutZero(vs: seq<int>)
    requires forall v :: v in vs ==> 0 < v
    ensures Reported(vs, true) == Reported(vs, false)
  {
    SweepAgreesWithoutZero(vs);
  }

  /**
   * A node whose only incident neighbour is 0 and whose only adjacent neighbour is 1:
   * node 0 is not reported, and its count is added to node 1's.
   */
  lemma NodeZeroMerged()
    ensures Values(Combiner.Polls([0], [1], Identity, 0, 0, 1)) == [0, 1]
    ensures Reported([0, 1], true) == [Entry(1, 2.0)]
    ensures Reported([0, 1], false) == [Entry(0, 1.0), Entry(1, 1.0)]
  {
    assert Combiner.PollsFirst([0], [1], Identity, 0, 0, 1);
    assert Combiner.Polls([0], [1], Identity, 1, 1, 1) == [];
    assert Combiner.Polls([0], [1], Identity, 1, 0, 2) == [(1, 2)] + Combiner.Polls([0], [1], Identity, 1, 1, 1);
    assert [0, 1][..1] == [0] && [0][..0] == [];
    assert Sweep([0], true) == Scan([], 0, 1.0);
    assert Sweep([0], false) == Scan([], 0, 1.0);
  }
  // ---------------------------------------------------------------------------------
  // The loop

  /** The loop body of getNeighbourWeights for one polled node `t`. */
  method Count(neighbors: seq<Entry<real>>, currentNeigh: int, currentValue: real, t: int, asWritten: bool)
    returns (neighbors': seq<Entry<real>>, currentNeigh': int, currentValue': real)
    ensures Scan(neighbors', currentNeigh', currentValue') == Step(Scan(neighbors, currentNeigh, currentValue), t, asWritten)
  {
    neighbors', currentNeigh', currentValue' := neighbors, currentNeigh, currentValue;
    if currentNeigh' != t {
      if (if asWritten then currentNeigh' > 0 else currentNeigh' != -1) {
        neighbors' := neighbors' + [Entry(currentNeigh', currentValue')];
        currentValue' := 0.0;
        currentNeigh' := t;
      } else {
        currentNeigh' := t;
      }
    }
    currentValue' := currentValue' + 1.0;
  }

  /**
   * The loop of getNeighbourWeights over the incident and adjacent lists of a node: the
   * queue starts with the head of the incident list, then the adjacent one, and every
   * poll puts back the next node of the list it came from.
   */
  method ScanNeighbours(incident: seq<int>, adjacent: seq<int>, asWritten: bool) returns (neighbors: seq<Entry<real>>)
    ensures neighbors == Reported(Values(Combiner.Polls(incident, adjacent, Identity, 0, 0, 1)), asWritten)
  {
    neighbors := [];
    var currentValue := 0.0;
    var currentNeigh := -1;
    var i, j, older := 0, 0, 1;
    ghost var done: seq<int> := [];
    ghost var all := Values(Combiner.Polls(incident, adjacent, Identity, 0, 0, 1));
    ghost var left := Combiner.Polls(incident, adjacent, Identity, 0, 0, 1);
    while i < |incident| || j < |adjacent|
      invariant 0 <= i <= |incident| && 0 <= j <= |adjacent|
      invariant left == Combiner.Polls(incident, adjacent, Identity, i, j, older)
      invariant all == done + Values(left)
      invariant Sweep(done, asWritten) == Scan(neighbors, currentNeigh, currentValue)
      decreases |incident| - i + |adjacent| - j
    {
      var t, q;
      t, q, i, j, older := Combiner.Poll(incident, adjacent, Identity, i, j, older);
      DoneCons(done, (t, q), Combiner.Polls(incident, adjacent, Identity, i, j, older));
      SweepSnoc(done, t, asWritten);
      neighbors, currentNeigh, currentValue := Count(neighbors, currentNeigh, currentValue, t, asWritten);
      done, left := done + [t], Combiner.Polls(incident, adjacent, Identity, i, j, older);
    }
    assert left == [] && done + [] == done;
    if currentNeigh != -1 {
      neighbors := neighbors + [Entry(currentNeigh, currentValue)];
    }
  }
}
