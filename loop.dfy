// The simulation loop: a pool of users that still can be recommended something. Each
// iteration draws a user from the pool, asks the recommender for an item, retires the
// user if there is none, and otherwise feeds the accepted pair back to the recommender
// and to every metric.

module Loop {
  import opened Common
  import opened Preferences
  import opened Recommender
  import opened Argmax
  import opened Metrics

  /** The users the ground truth holds at least one rating for, in index order. */
  function RatedUsers(truth: seq<Row>): (r: seq<int>)
    ensures forall k :: 0 <= k < |r| ==> 0 <= r[k] < |truth|
    ensures forall u :: u in r <==> 0 <= u < |truth| && RowSize(truth[u]) > 0
    ensures Distinct(r)
  {
    if truth == [] then []
    else
      var n := |truth| - 1;
      var front := RatedUsers(truth[..n]);
      if RowSize(truth[n]) > 0 then front + [n] else front
  }

  /** A metric the loop keeps up to date. */
  datatype Metric = Recall(r: CumulativeRecall) | Gini(g: CumulativeGini)

  function Obj(m: Metric): object
  {
    match m
    case Recall(r) => r
    case Gini(g) => g
  }

  function Objects(ms: seq<Metric>): set<object>
  {
    set k | 0 <= k < |ms| :: Obj(ms[k])
  }

  /** Every metric is consistent, the Gini ones cover the `n` items, and no object is shared. */
  ghost predicate MetricsValid(ms: seq<Metric>, n: nat)
    reads Objects(ms)
  {
    && (forall a, b :: 0 <= a < b < |ms| ==> Obj(ms[a]) != Obj(ms[b]))
    && forall k :: 0 <= k < |ms| ==> MetricValid(ms[k], n)
  }

  /** The part of a metric's state an update changes. */
  datatype Snapshot = RecallSnap(seen: seq<(int, int)>, current: nat)
                    | GiniSnap(frequencies: map<int, int>, freqSum: int)

  ghost function Snap(m: Metric): Snapshot
    reads Obj(m)
  {
    match m
    case Recall(r) => RecallSnap(r.seen, r.current)
    case Gini(g) => GiniSnap(g.frequencies, g.freqSum)
  }

  /**
   * The metric took note of (`u`, `i`) since `before`: recall logged the pair and
   * counted it if relevant; Gini counted one more recommendation of `i`.
   */
  ghost predicate Took(m: Metric, before: Snapshot, u: int, i: int)
    reads Obj(m)
  {
    match m
    case Recall(r) =>
      && before.RecallSnap?
      && r.seen == before.seen + [(u, i)]
      && r.current == before.current + (if Relevant(r.truth, r.threshold, u, i) then 1 else 0)
    case Gini(g) =>
      && before.GiniSnap? && i in before.frequencies
      && g.frequencies == before.frequencies[i := before.frequencies[i] + 1]
      && g.freqSum == before.freqSum + 1
  }

  /** One metric's consistency: the Gini ones cover the `n` items. */
  ghost predicate MetricValid(m: Metric, n: nat)
    reads Obj(m)
  {
    match m
    case Recall(r) => r.Valid()
    case Gini(g) => g.Valid() && g.numItems == n
  }

  /** One metric takes note of (`u`, `i`). */
  method UpdateOne(m: Metric, n: nat, u: int, i: int)
    requires MetricValid(m, n) && 0 <= i < n
    modifies Obj(m)
    ensures MetricValid(m, n)
    ensures Took(m, old(Snap(m)), u, i)
  {
    match m {
      case Recall(r) => r.Update(u, i);
      case Gini(g) => g.Update(u, i);
    }
  }

  /** Every metric takes note of the accepted pair (`u`, `i`). */
  method UpdateMetrics(ms: seq<Metric>, n: nat, u: int, i: int)
    requires MetricsValid(ms, n) && 0 <= i < n
    modifies Objects(ms)
    ensures MetricsValid(ms, n)
    ensures forall k :: 0 <= k < |ms| ==> Took(ms[k], old(Snap(ms[k])), u, i)
  {
    ghost var before := seq(|ms|, j requires 0 <= j < |ms| reads Objects(ms) => Snap(ms[j]));
    var k := 0;
    while k < |ms|
      invariant 0 <= k <= |ms|
      invariant MetricsValid(ms, n)
      invariant forall j :: 0 <= j < k ==> Took(ms[j], before[j], u, i)
      invariant forall j :: k <= j < |ms| ==> Snap(ms[j]) == before[j]
    {
      assert Obj(ms[k]) in Objects(ms);
      label Before:
      UpdateOne(ms[k], n, u, i);
      forall j | 0 <= j < |ms| && j != k
        ensures Snap(ms[j]) == old@Before(Snap(ms[j]))
        ensures MetricValid(ms[j], n)
        ensures Took(ms[j], before[j], u, i) == old@Before(Took(ms[j], before[j], u, i))
      {
        assert Obj(ms[j]) != Obj(ms[k]);
        assert old@Before(MetricValid(ms[j], n));
      }
      k := k + 1;
    }
  }

  class RecommendationLoop {
    const base: InteractiveRecommender
    const metrics: seq<Metric>
    /** The number of iterations to run; 0 runs until the pool is empty. */
    const nIter: int
    /** The users still in the pool. */
    var userList: seq<int>
    var numUsers: int
    var iteration: int

    ghost predicate Valid()
      reads this, base, base.trainData, Objects(metrics)
    {
      && base.Valid()
      && MetricsValid(metrics, base.numItems)
      && this !in Objects(metrics) && base !in Objects(metrics) && base.trainData !in Objects(metrics)
      && numUsers == |userList|
      && Distinct(userList)
      && (forall k :: 0 <= k < |userList| ==> 0 <= userList[k] < |base.availability|)
      && iteration >= 0
    }

    /** The pool starts as every user with a ground-truth rating; no iteration has run. */
    constructor (base: InteractiveRecommender, metrics: seq<Metric>, nIter: int)
      requires base.Valid() && MetricsValid(metrics, base.numItems)
      requires base !in Objects(metrics) && base.trainData !in Objects(metrics)
      ensures Valid() && this.base == base && this.metrics == metrics && this.nIter == nIter
      ensures userList == RatedUsers(base.truth) && iteration == 0
    {
      this.base := base;
      this.metrics := metrics;
      this.nIter := nIter;
      userList := RatedUsers(base.truth);
      numUsers := |RatedUsers(base.truth)|;
      iteration := 0;
    }

    /** hasEnded: the pool is empty, or a positive iteration budget is used up. */
    predicate HasEnded()
      reads this
    {
      numUsers == 0 || (nIter > 0 && iteration >= nIter)
    }

    /**
     * The people-to-people precondition of the source's update: accepting a link the
     * other side rated above 1 also retires the reverse pair, which must then still be
     * available (the source's list removal fails otherwise).
     */
    ghost predicate MirrorAvailable()
      reads this, base, base.trainData
      requires base.Valid()
    {
      forall u, i :: 0 <= u < |base.availability| && i in base.availability[u] && base.MirrorBack(u, i)
                     ==> 0 <= i < |base.availability| && u in base.availability[i]
    }

    /**
     * update(u, i) when a run is replayed: the base recommender and every metric take
     * the pair and the iteration count rises by one; the pool of users is left as it is.
     * The strategy's own updateMethod is not part of this model of the loop.
     */
    method Replay(u: int, i: int)
      requires Valid() && 0 <= u < |base.availability| && i in base.availability[u]
      requires base.MirrorBack(u, i) ==> 0 <= i < |base.availability| && u in base.availability[i]
      modifies this, base, base.trainData, Objects(metrics)
      ensures Valid()
      ensures iteration == old(iteration) + 1 && userList == old(userList) && numUsers == old(numUsers)
      ensures base.availability == base.Accepted(old(base.availability), u, i)
      ensures forall a, b :: base.trainData.Pref(a, b) == base.Stored(base.Feedback(u, i), a, b, old(base.trainData.Pref(a, b)))
      ensures forall k :: 0 <= k < |metrics| ==> Took(metrics[k], old(Snap(metrics[k])), u, i)
    {
      var calls, raters := base.Update(u, i);
      forall k | 0 <= k < |metrics|
        ensures Snap(metrics[k]) == old(Snap(metrics[k])) && MetricValid(metrics[k], base.numItems)
      {
        assert Obj(metrics[k]) in Objects(metrics);
        assert old(MetricValid(metrics[k], base.numItems));
      }
      label Fed:
      UpdateMetrics(metrics, base.numItems, u, i);
      iteration := iteration + 1;
      forall k | 0 <= k < |metrics| ensures Took(metrics[k], old(Snap(metrics[k])), u, i) {
        assert Obj(metrics[k]) in Objects(metrics);
        assert old@Fed(Snap(metrics[k])) == old(Snap(metrics[k]));
      }
    }

    /**
     * nextIteration: draw users from the pool until one gets an item, retiring every
     * user that gets none; `None` once the pool is empty, otherwise the accepted pair,
     * fed back to the base recommender and the metrics. The recommender is driven through
     * what every strategy's next guarantees: -1 exactly when the user has nothing left,
     * otherwise one of the user's available items.
     */
    method NextIteration() returns (res: Option<(int, int)>)
      requires Valid() && MirrorAvailable()
      modifies this, base, base.trainData, Objects(metrics)
      ensures Valid()
      ensures res.None? <==> numUsers == 0
      ensures res.None? ==> iteration == old(iteration) && HasEnded()
      ensures res.None? ==> unchanged(base) && forall x :: x in old(userList) ==> old(base.availability)[x] == []
      ensures multiset(userList) <= multiset(old(userList))
      ensures forall x :: x in old(userList) && x !in userList ==> old(base.availability)[x] == []
      ensures res.Some? ==>
                var (u, i) := res.value;
                && u in userList && i in old(base.availability)[u]
                && iteration == old(iteration) + 1
                && base.availability == base.Accepted(old(base.availability), u, i)
      ensures res.Some? ==> forall k :: 0 <= k < |metrics| ==> Took(metrics[k], old(Snap(metrics[k])), res.value.0, res.value.1)
    {
      if numUsers == 0 {
        return None;
      }
      var pool, uidx, iidx := Draw(userList, base.availability);
      res := Advance(pool, uidx, iidx);
    }

    /** The end of an iteration once the pool is drawn: the run ends on an empty pool, else the pair is replayed. */
    method Advance(pool: seq<int>, u: int, i: int) returns (res: Option<(int, int)>)
      requires Valid() && MirrorAvailable()
      requires Distinct(pool) && forall k :: 0 <= k < |pool| ==> 0 <= pool[k] < |base.availability|
      requires pool != [] ==> u in pool && i in base.availability[u]
      modifies this, base, base.trainData, Objects(metrics)
      ensures Valid()
      ensures res.None? <==> pool == []
      ensures res.None? ==> iteration == old(iteration) && HasEnded() && unchanged(base) && userList == []
      ensures res.Some? ==>
                && res.value == (u, i) && userList == pool && iteration == old(iteration) + 1
                && base.availability == base.Accepted(old(base.availability), u, i)
      ensures res.Some? ==> forall k :: 0 <= k < |metrics| ==> Took(metrics[k], old(Snap(metrics[k])), u, i)
    {
      if pool == [] {
        Exhaust();
        return None;
      }
      userList, numUsers := pool, |pool|;
      Replay(u, i);
      res := Some((u, i));
    }

    /** Every user has been retired: the pool is empty. */
    method Exhaust()
      requires Valid()
      modifies this
      ensures Valid() && userList == [] && numUsers == 0 && iteration == old(iteration)
    {
      userList, numUsers := [], 0;
    }
  }

  /**
   * The do-while loop of nextIteration on the pool: pick a user at random, ask for an
   * item, and retire the user when there is none; stop at the first item or when the
   * pool is empty. Each retirement shrinks the pool, so the loop ends.
   */
  method Draw(pool: seq<int>, av: seq<seq<int>>) returns (rest: seq<int>, u: int, i: int)
    requires Distinct(pool) && forall k :: 0 <= k < |pool| ==> 0 <= pool[k] < |av|
    requires forall a, x :: 0 <= a < |av| && x in av[a] ==> x >= 0
    ensures Distinct(rest) && multiset(rest) <= multiset(pool)
    ensures forall k :: 0 <= k < |rest| ==> 0 <= rest[k] < |av|
    ensures forall x :: x in pool && x !in rest ==> av[x] == []
    ensures rest != [] ==> u in rest && i in av[u]
  {
    rest := pool;
    u, i := -1, -1;
    if rest == [] {
      return;
    }
    var cont := false;
    while !cont && |rest| > 0
      invariant Distinct(rest) && multiset(rest) <= multiset(pool)
      invariant forall k :: 0 <= k < |rest| ==> 0 <= rest[k] < |av|
      invariant forall x :: x in pool && x !in rest ==> av[x] == []
      invariant cont ==> u in rest && i in av[u]
      decreases |rest| + (if cont then 0 else 1)
    {
      var index :| 0 <= index < |rest|;
      u := rest[index];
      i := NextItem(av[u]);
      if i != -1 {
        cont := true;
      } else {
        RemoveAt(rest, index);
        rest := rest[..index] + rest[index + 1..];
      }
    }
  }

  /** What every strategy's next(u) guarantees: -1 when nothing is left, otherwise an available item. */
  method NextItem(list: seq<int>) returns (r: int)
    requires forall x :: x in list ==> x >= 0
    ensures r == -1 <==> list == []
    ensures r != -1 ==> r in list
  {
    if list == [] {
      r := -1;
    } else {
      r := PickAny(list);
    }
  }

  /** Removing the element at `k` takes exactly one copy of it out of the list. */
  lemma RemoveAt(s: seq<int>, k: int)
    requires 0 <= k < |s| && Distinct(s)
    ensures multiset(s[..k] + s[k + 1..]) <= multiset(s)
    ensures Distinct(s[..k] + s[k + 1..])
    ensures forall x :: x in s[..k] + s[k + 1..] <==> x in s && x != s[k]
  {
    var t := s[..k] + s[k + 1..];
    assert s == s[..k] + [s[k]] + s[k + 1..];
    assert multiset(s) == multiset(t) + multiset{s[k]};
    forall j | 0 <= j < |t|
      ensures t[j] == s[Skip(j, k)]
    {
    }
    forall a, b | 0 <= a < b < |t|
      ensures t[a] != t[b]
    {
      assert Skip(a, k) < Skip(b, k);
    }
    assert s[k] !in multiset(t) by {
      forall j | 0 <= j < |t|
        ensures t[j] != s[k]
      {
        assert Skip(j, k) != k;
      }
    }
  }

  /** The position in a list of element `j` of the same list with position `k` taken out. */
  function Skip(j: int, k: int): (r: int)
    ensures r == j || r == j + 1
    ensures r != k
  {
    if j < k then j else j + 1
  }
}
