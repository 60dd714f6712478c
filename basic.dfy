// The three non-personalised strategies: the average rating of each item, its
// popularity, and a uniform random choice. The first two keep one score per item
// and recommend a best-scored item still available to the user.

module Basic {
  import opened Common
  import opened Preferences
  import opened Recommender
  import opened Argmax
  import opened SortedLists

  /** The ratings the ground truth holds for item `i`, user by user. */
  function ColumnValues(rows: seq<Row>, i: int): (vs: seq<real>)
    ensures |vs| <= |rows|
    ensures forall v :: v in vs ==> exists u :: 0 <= u < |rows| && Get(rows, u, i) == Some(v)
  {
    if rows == [] then []
    else
      var n := |rows| - 1;
      var front := ColumnValues(rows[..n], i);
      assert forall u :: 0 <= u < n ==> Get(rows[..n], u, i) == Get(rows, u, i);
      match RowGet(rows[n], i)
      case Some(v) =>
        assert Get(rows, n, i) == Some(v);
        front + [v]
      case None => front
  }

  /** The ground-truth ratings of every item. */
  function TruthColumns(rows: seq<Row>, n: nat): (cs: seq<seq<real>>)
    ensures |cs| == n && forall i :: 0 <= i < n ==> cs[i] == ColumnValues(rows, i)
  {
    if n == 0 then [] else TruthColumns(rows, n - 1) + [ColumnValues(rows, n - 1)]
  }

  /** Each rating of `calls` appended to the list of its item. */
  function Observe(obs: seq<seq<real>>, calls: seq<Rating>): (r: seq<seq<real>>)
    requires forall c :: c in calls ==> 0 <= c.i < |obs|
    ensures |r| == |obs|
  {
    if calls == [] then obs
    else
      var n := |calls| - 1;
      assert calls[n] in calls;
      var o := Observe(obs, calls[..n]);
      o[calls[n].i := o[calls[n].i] + [calls[n].v]]
  }

  /** Observing a rating adds it to its own item's list and leaves the others alone. */
  lemma {:induction false} ObserveCounts(obs: seq<seq<real>>, calls: seq<Rating>, i: int)
    requires forall c :: c in calls ==> 0 <= c.i < |obs|
    requires 0 <= i < |obs|
    ensures |Observe(obs, calls)[i]| == |obs[i]| + |ItemCalls(calls, i)|
  {
    if calls != [] {
      var n := |calls| - 1;
      assert forall c :: c in calls[..n] ==> c in calls;
      ObserveCounts(obs, calls[..n], i);
    }
  }

  /** The calls of `calls` about item `i`. */
  function ItemCalls(calls: seq<Rating>, i: int): (r: seq<Rating>)
    ensures |r| <= |calls|
    ensures forall c :: c in r <==> c in calls && c.i == i
  {
    if calls == [] then []
    else
      var n := |calls| - 1;
      var front := ItemCalls(calls[..n], i);
      assert forall c :: c in calls <==> c in calls[..n] || c == calls[n];
      if calls[n].i == i then front + [calls[n]] else front
  }

  /** The ratings in an item's training list that are positive. */
  function PositiveCount(row: Row): (n: nat)
    ensures n <= RowSize(row)
  {
    if row.None? then 0 else Positives(row.value)
  }

  function Positives(es: seq<Entry<real>>): (n: nat)
    ensures n <= |es|
    ensures n == 0 <==> forall k :: 0 <= k < |es| ==> es[k].val <= 0.0
  {
    if es == [] then 0
    else
      var m := |es| - 1;
      assert forall k :: 0 <= k < m ==> es[..m][k] == es[k];
      Positives(es[..m]) + if es[m].val > 0.0 then 1 else 0
  }

  /** The scores of the candidates, in order, as the scan sees them. */
  function Scores(list: seq<int>, vals: seq<real>): (ss: seq<Double>)
    requires forall k :: 0 <= k < |list| ==> 0 <= list[k] < |vals|
    ensures |ss| == |list| && forall k :: 0 <= k < |list| ==> ss[k] == Fin(vals[list[k]])
  {
    seq(|list|, k requires 0 <= k < |list| => Fin(vals[list[k]]))
  }

  /**
   * next(u) of the score-based strategies: -1 for a user with nothing left, otherwise
   * an available item of maximum score (the only one, or any of the tied ones).
   */
  method SelectBest(list: seq<int>, vals: seq<real>) returns (r: int)
    requires forall k :: 0 <= k < |list| ==> 0 <= list[k] < |vals|
    ensures r == -1 <==> list == []
    ensures r != -1 ==> r in list && forall x :: x in list ==> vals[x] <= vals[r]
    ensures forall k :: 0 <= k < |list| && (forall j :: 0 <= j < |list| && j != k ==> vals[list[j]] < vals[list[k]])
                        ==> r == list[k]
  {
    if list == [] {
      return -1;
    }
    var ss := Scores(list, vals);
    var top, best := TopTies(list, ss);
    TiesNonEmpty(list, ss, 0);
    r := PickTie(top);
    BestScore(list, vals, r);
    UniqueScore(list, vals);
  }

  /** A tied candidate scores at least as much as every candidate. */
  lemma BestScore(list: seq<int>, vals: seq<real>, r: int)
    requires forall k :: 0 <= k < |list| ==> 0 <= list[k] < |vals|
    requires r in Ties(list, Scores(list, vals), MaxOf(Scores(list, vals)))
    ensures r in list && forall x :: x in list ==> vals[x] <= vals[r]
  {
    var ss := Scores(list, vals);
    var m := MaxOf(ss);
    var k :| 0 <= k < |list| && list[k] == r && Same(ss[k], m);
    assert m == Fin(vals[r]);
    forall x | x in list ensures vals[x] <= vals[r] {
      var j :| 0 <= j < |list| && list[j] == x;
      assert ss[j] == Fin(vals[x]);
      assert !Greater(ss[j], m);
    }
  }

  /** A candidate scoring strictly more than all others is the only tie. */
  lemma UniqueScore(list: seq<int>, vals: seq<real>)
    requires forall k :: 0 <= k < |list| ==> 0 <= list[k] < |vals|
    ensures forall k :: 0 <= k < |list| && (forall j :: 0 <= j < |list| && j != k ==> vals[list[j]] < vals[list[k]])
                        ==> Ties(list, Scores(list, vals), MaxOf(Scores(list, vals))) == [list[k]]
  {
    forall k | 0 <= k < |list| && (forall j :: 0 <= j < |list| && j != k ==> vals[list[j]] < vals[list[k]])
      ensures Ties(list, Scores(list, vals), MaxOf(Scores(list, vals))) == [list[k]]
    {
      UniqueMax(list, Scores(list, vals), k);
    }
  }

  /** Average rating: each item scores the mean of the ratings it received. */
  class AvgRecommender {
    const base: InteractiveRecommender
    const values: array<real>
    const numTimes: array<real>
    /** For each item, the ratings its score is the mean of. */
    ghost var observed: seq<seq<real>>

    ghost predicate Valid()
      reads this, base, base.trainData, values, numTimes
    {
      && base.Valid()
      && values != numTimes
      && values.Length == base.numItems && numTimes.Length == base.numItems
      && |observed| == base.numItems
      && forall i :: 0 <= i < base.numItems ==>
           values[i] == Mean(observed[i]) && numTimes[i] == |observed[i]| as real
    }

    /** Every score starts at 0, with no rating seen. */
    constructor (base: InteractiveRecommender)
      requires base.Valid()
      ensures Valid() && this.base == base && fresh(values) && fresh(numTimes)
      ensures observed == seq(base.numItems, _ => [])
    {
      this.base := base;
      values := new real[base.numItems](_ => 0.0);
      numTimes := new real[base.numItems](_ => 0.0);
      observed := seq(base.numItems, _ => []);
    }

    /** next(u): an available item of highest mean, -1 when none is left. */
    method Next(u: int) returns (r: int)
      requires Valid() && 0 <= u < |base.availability|
      ensures r == -1 <==> base.availability[u] == []
      ensures r != -1 ==> r in base.availability[u]
      ensures r != -1 ==> forall x :: x in base.availability[u] ==> values[x] <= values[r]
      ensures forall x :: x in base.availability[u] && (forall y :: y in base.availability[u] && y != x ==> values[y] < values[x])
                          ==> r == x
    {
      var list := base.availability[u];
      assert forall k :: 0 <= k < |list| ==> list[k] in list;
      r := SelectBest(list, values[..]);
    }

    /** updateMethod(u, i, v): the rating joins item `i`'s mean. */
    method Record(u: int, i: int, v: real)
      requires Valid() && 0 <= i < values.Length
      modifies this, values, numTimes
      ensures Valid()
      ensures observed == old(observed)[i := old(observed)[i] + [v]]
    {
      var oldValue := values[i];
      if numTimes[i] <= 0.0 {
        values[i] := v;
      } else {
        values[i] := oldValue + (v - oldValue) / (numTimes[i] + 1.0);
      }
      numTimes[i] := numTimes[i] + 1.0;
      MeanAppend(observed[i], v);
      observed := observed[i := observed[i] + [v]];
    }

    /**
     * The updateMethod(u, i, v) calls that update(u, i) makes for the ratings it passes
     * on (the pair, and the reverse pair of an accepted link), one by one.
     */
    method RecordAll(calls: seq<Rating>)
      requires Valid() && forall c :: c in calls ==> 0 <= c.i < values.Length
      modifies this, values, numTimes
      ensures Valid()
      ensures observed == Observe(old(observed), calls)
    {
      var k := 0;
      while k < |calls|
        invariant 0 <= k <= |calls| && Valid()
        invariant observed == Observe(old(observed), calls[..k])
      {
        assert calls[..k + 1][..k] == calls[..k];
        assert calls[k] in calls;
        Record(calls[k].u, calls[k].i, calls[k].v);
        k := k + 1;
      }
      assert calls[..k] == calls;
    }

    /** update(u, i), then each rating it passes on joins its item's mean. */
    method Update(u: int, i: int)
      requires Valid() && 0 <= u < |base.availability| && i in base.availability[u]
      requires base.MirrorBack(u, i) ==> 0 <= i < |base.availability| && u in base.availability[i]
      requires base.FeedsBack(u, i) ==> u < base.numItems
      modifies this, base, base.trainData, values, numTimes
      ensures Valid()
      ensures observed == Observe(old(observed), base.Feedback(u, i))
      ensures base.availability == base.Accepted(old(base.availability), u, i)
      ensures forall a, b :: base.trainData.Pref(a, b) == base.Stored(base.Feedback(u, i), a, b, old(base.trainData.Pref(a, b)))
    {
      var calls, raters := base.Update(u, i);
      RecordAll(calls);
    }

    /**
     * update(train), whose updateMethod here discards the collected feedback and sets
     * every item's score to the mean of all its ground-truth ratings.
     */
    method UpdateBatch(train: seq<(int, int)>)
      requires Valid()
      requires forall t :: t in train ==> 0 <= t.0 < |base.availability|
      requires base.notReciprocal ==> forall t :: t in train ==> 0 <= t.1 < |base.availability|
      modifies this, base, base.trainData, values, numTimes
      ensures Valid()
      ensures observed == TruthColumns(base.truth, base.numItems)
      ensures |base.availability| == |old(base.availability)|
      ensures forall a :: 0 <= a < |base.availability| ==>
                base.availability[a] == Without(old(base.availability)[a], base.Retired(train, a))
      ensures forall a, b :: base.trainData.Pref(a, b) == base.Stored(base.BatchRatings(train), a, b, old(base.trainData.Pref(a, b)))
    {
      var tuples := base.UpdateBatch(train);
      FromTruth();
    }

    /** Every item's score becomes the mean of its ground-truth ratings. */
    method FromTruth()
      requires base.Valid() && values != numTimes
      requires values.Length == base.numItems && numTimes.Length == base.numItems
      modifies this, values, numTimes
      ensures Valid()
      ensures observed == TruthColumns(base.truth, base.numItems)
    {
      var i := 0;
      while i < base.numItems
        invariant 0 <= i <= base.numItems
        invariant forall j :: 0 <= j < i ==>
                    values[j] == Mean(ColumnValues(base.truth, j))
                    && numTimes[j] == |ColumnValues(base.truth, j)| as real
      {
        var column := ColumnValues(base.truth, i);
        values[i] := RealSum(column);
        numTimes[i] := |column| as real;
        if numTimes[i] > 0.0 {
          values[i] := values[i] / numTimes[i];
        }
        i := i + 1;
      }
      observed := TruthColumns(base.truth, base.numItems);
    }
  }

  /** Popularity: each item scores how many relevant ratings it received. */
  class PopularityRecommender {
    const base: InteractiveRecommender
    const values: array<real>
    const threshold: real

    ghost predicate Valid()
      reads this, base, base.trainData, values
    {
      && base.Valid()
      && values.Length == base.numItems
      && forall i :: 0 <= i < base.numItems ==> values[i] >= 0.0
    }

    constructor (base: InteractiveRecommender, threshold: real)
      requires base.Valid()
      ensures Valid() && this.base == base && this.threshold == threshold && fresh(values)
      ensures forall i :: 0 <= i < values.Length ==> values[i] == 0.0
    {
      this.base := base;
      this.threshold := threshold;
      values := new real[base.numItems](_ => 0.0);
    }

    /** next(u): an available item of highest popularity, -1 when none is left. */
    method Next(u: int) returns (r: int)
      requires Valid() && 0 <= u < |base.availability|
      ensures r == -1 <==> base.availability[u] == []
      ensures r != -1 ==> r in base.availability[u]
      ensures r != -1 ==> forall x :: x in base.availability[u] ==> values[x] <= values[r]
      ensures forall x :: x in base.availability[u] && (forall y :: y in base.availability[u] && y != x ==> values[y] < values[x])
                          ==> r == x
    {
      var list := base.availability[u];
      assert forall k :: 0 <= k < |list| ==> list[k] in list;
      r := SelectBest(list, values[..]);
    }

    /** updateMethod(u, i, v): a rating at or above the threshold counts once more. */
    method Record(u: int, i: int, v: real)
      requires Valid() && 0 <= i < values.Length
      modifies values
      ensures Valid()
      ensures values[..] == old(values[..])[i := old(values[i]) + if v >= threshold then 1.0 else 0.0]
    {
      values[i] := values[i] + (if v >= threshold then 1.0 else 0.0);
    }

    /**
     * The updateMethod(u, i, v) calls that update(u, i) makes for the ratings it passes
     * on (the pair, and the reverse pair of an accepted link), one by one.
     */
    method RecordAll(calls: seq<Rating>)
      requires Valid() && forall c :: c in calls ==> 0 <= c.i < values.Length
      modifies values
      ensures Valid()
      ensures values[..] == Relevant(old(values[..]), calls, threshold)
    {
      var k := 0;
      while k < |calls|
        invariant 0 <= k <= |calls| && Valid()
        invariant values[..] == Relevant(old(values[..]), calls[..k], threshold)
      {
        assert calls[..k + 1][..k] == calls[..k];
        assert calls[k] in calls;
        Record(calls[k].u, calls[k].i, calls[k].v);
        k := k + 1;
      }
      assert calls[..k] == calls;
    }

    /** update(u, i), then each rating it passes on counts for its item if relevant. */
    method Update(u: int, i: int)
      requires Valid() && 0 <= u < |base.availability| && i in base.availability[u]
      requires base.MirrorBack(u, i) ==> 0 <= i < |base.availability| && u in base.availability[i]
      requires base.FeedsBack(u, i) ==> u < base.numItems
      modifies base, base.trainData, values
      ensures Valid()
      ensures values[..] == Relevant(old(values[..]), base.Feedback(u, i), threshold)
      ensures base.availability == base.Accepted(old(base.availability), u, i)
      ensures forall a, b :: base.trainData.Pref(a, b) == base.Stored(base.Feedback(u, i), a, b, old(base.trainData.Pref(a, b)))
    {
      var calls, raters := base.Update(u, i);
      RecordAll(calls);
    }

    /**
     * update(train), whose updateMethod here sets every item's score to the number of
     * positive ratings in its training list.
     */
    method UpdateBatch(train: seq<(int, int)>)
      requires Valid()
      requires forall t :: t in train ==> 0 <= t.0 < |base.availability|
      requires base.notReciprocal ==> forall t :: t in train ==> 0 <= t.1 < |base.availability|
      modifies base, base.trainData, values
      ensures Valid()
      ensures forall i :: 0 <= i < values.Length ==> values[i] == PositiveCount(base.Column(i)) as real
      ensures |base.availability| == |old(base.availability)|
      ensures forall a :: 0 <= a < |base.availability| ==>
                base.availability[a] == Without(old(base.availability)[a], base.Retired(train, a))
      ensures forall a, b :: base.trainData.Pref(a, b) == base.Stored(base.BatchRatings(train), a, b, old(base.trainData.Pref(a, b)))
    {
      var tuples := base.UpdateBatch(train);
      FromTraining();
    }

    /** Every item's score becomes the number of positive ratings in its training list. */
    method FromTraining()
      requires base.Valid() && values.Length == base.numItems
      modifies values
      ensures Valid()
      ensures forall i :: 0 <= i < values.Length ==> values[i] == PositiveCount(base.Column(i)) as real
    {
      var i := 0;
      while i < base.numItems
        invariant 0 <= i <= base.numItems
        invariant forall j :: 0 <= j < i ==> values[j] == PositiveCount(base.Column(j)) as real
      {
        values[i] := PositiveCount(base.Column(i)) as real;
        i := i + 1;
      }
    }
  }

  /** The scores after counting the relevant ratings of `calls`, one by one. */
  function Relevant(vals: seq<real>, calls: seq<Rating>, threshold: real): (r: seq<real>)
    requires forall c :: c in calls ==> 0 <= c.i < |vals|
    ensures |r| == |vals|
  {
    if calls == [] then vals
    else
      var n := |calls| - 1;
      assert calls[n] in calls;
      var o := Relevant(vals, calls[..n], threshold);
      o[calls[n].i := o[calls[n].i] + if calls[n].v >= threshold then 1.0 else 0.0]
  }

  /** The number of ratings in `calls` about item `x` at or above the threshold. */
  function RelevantCount(calls: seq<Rating>, x: int, threshold: real): nat
  {
    if calls == [] then 0
    else
      var n := |calls| - 1;
      RelevantCount(calls[..n], x, threshold) + if calls[n].i == x && calls[n].v >= threshold then 1 else 0
  }

  /** Counting the relevant ratings one by one adds to each item exactly its relevant ratings. */
  lemma {:induction false} RelevantCounts(vals: seq<real>, calls: seq<Rating>, threshold: real, x: int)
    requires forall c :: c in calls ==> 0 <= c.i < |vals|
    requires 0 <= x < |vals|
    ensures Relevant(vals, calls, threshold)[x] == vals[x] + RelevantCount(calls, x, threshold) as real
  {
    if calls != [] {
      var n := |calls| - 1;
      assert forall c :: c in calls[..n] ==> c in calls;
      RelevantCounts(vals, calls[..n], threshold, x);
    }
  }

  /** Random: any available item, uniformly; feedback changes nothing but the base. */
  class RandomRecommender {
    const base: InteractiveRecommender

    constructor (base: InteractiveRecommender)
      ensures this.base == base
    {
      this.base := base;
    }

    /** next(u): -1 when nothing is left, otherwise some available item. */
    method Next(u: int) returns (r: int)
      requires base.Valid() && 0 <= u < |base.availability|
      ensures r == -1 <==> base.availability[u] == []
      ensures r != -1 ==> r in base.availability[u]
    {
      var list := base.availability[u];
      if list == [] {
        r := -1;
      } else {
        r := PickAny(list);
        assert r in list;
      }
    }
  }
}
