// The state every interactive recommender shares: the ground-truth ratings (read only),
// the training ratings revealed so far, and for each user the list of items that may
// still be recommended to them. Each strategy adds its own scores on top of this base.

module Recommender {
  import opened Common
  import opened SortedLists
  import opened Preferences

  /** `0, 1, ..., n - 1`: every item index, in order (getIidx). */
  function Range(n: nat): (r: seq<int>)
    ensures |r| == n && forall k :: 0 <= k < n ==> r[k] == k
  {
    seq(n, k => k)
  }

  ghost predicate Distinct(s: seq<int>)
  {
    forall a, b :: 0 <= a < b < |s| ==> s[a] != s[b]
  }

  /** The elements of `s` not in `xs`, in their order in `s`. */
  function Without(s: seq<int>, xs: set<int>): (r: seq<int>)
    ensures |r| <= |s|
    ensures forall x :: x in r <==> x in s && x !in xs
  {
    if s == [] then []
    else
      var n := |s| - 1;
      var front := Without(s[..n], xs);
      assert forall x :: x in s <==> x in s[..n] || x == s[n];
      if s[n] in xs then front else front + [s[n]]
  }

  /** The first position of `x` in `s`, -1 when absent (indexOf). */
  function IndexOf(s: seq<int>, x: int): (k: int)
    ensures -1 <= k < |s|
    ensures k == -1 <==> x !in s
    ensures k >= 0 ==> s[k] == x && x !in s[..k]
  {
    if s == [] then -1
    else if s[0] == x then 0
    else
      var k := IndexOf(s[1..], x);
      if k == -1 then -1
      else
        assert s[..k + 1] == [s[0]] + s[1..][..k];
        k + 1
  }

  /** removeInt(indexOf(x)): the list without the first occurrence of `x`. */
  function RemoveFirst(s: seq<int>, x: int): (r: seq<int>)
    requires x in s
    ensures |r| == |s| - 1
  {
    var k := IndexOf(s, x);
    s[..k] + s[k + 1..]
  }

  /** In a list without repetitions, removing the first occurrence removes the element. */
  lemma RemoveFirstWithout(s: seq<int>, x: int)
    requires Distinct(s) && x in s
    ensures RemoveFirst(s, x) == Without(s, {x})
    ensures Distinct(RemoveFirst(s, x))
  {
    var k := IndexOf(s, x);
    var pre, post := s[..k], s[k + 1..];
    assert s == pre + [x] + post;
    WithoutSplit(pre + [x], post, {x});
    WithoutSplit(pre, [x], {x});
    assert Without([x], {x}) == [];
    assert x !in post by {
      forall j | 0 <= j < |post|
        ensures post[j] != x
      {
        assert post[j] == s[k + 1 + j];
      }
    }
    WithoutNone(pre, {x});
    WithoutNone(post, {x});
    WithoutDistinct(s, {x});
  }

  lemma {:induction false} WithoutSplit(s: seq<int>, t: seq<int>, xs: set<int>)
    ensures Without(s + t, xs) == Without(s, xs) + Without(t, xs)
  {
    if t == [] {
      assert s + t == s;
    } else {
      var n := |t| - 1;
      assert (s + t)[..|s + t| - 1] == s + t[..n];
      WithoutSplit(s, t[..n], xs);
    }
  }

  lemma {:induction false} WithoutNone(s: seq<int>, xs: set<int>)
    requires forall y :: y in s ==> y !in xs
    ensures Without(s, xs) == s
  {
    if s != [] {
      var n := |s| - 1;
      assert forall y :: y in s[..n] ==> y in s;
      var last := s[n];
      assert last in s;
      assert last !in xs;
      WithoutNone(s[..n], xs);
      calc {
        Without(s, xs);
        Without(s[..n], xs) + [s[n]];
        s[..n] + [s[n]];
        s;
      }
    }
  }

  /** Removing two sets one after the other removes their union. */
  lemma {:induction false} WithoutTwice(s: seq<int>, xs: set<int>, ys: set<int>)
    ensures Without(Without(s, xs), ys) == Without(s, xs + ys)
  {
    if s != [] {
      var n := |s| - 1;
      WithoutTwice(s[..n], xs, ys);
      if s[n] !in xs {
        var front := Without(s[..n], xs);
        assert (front + [s[n]])[..|front|] == front;
      }
    }
  }

  lemma {:induction false} WithoutDistinct(s: seq<int>, xs: set<int>)
    requires Distinct(s)
    ensures Distinct(Without(s, xs))
  {
    if s != [] {
      var n := |s| - 1;
      assert Distinct(s[..n]);
      WithoutDistinct(s[..n], xs);
      var front := Without(s[..n], xs);
      if s[n] !in xs {
        assert s[n] !in s[..n];
        forall a, b | 0 <= a < b < |front| + 1 ensures (front + [s[n]])[a] != (front + [s[n]])[b] {
          if b == |front| {
            assert front[a] in front;
          }
        }
      }
    }
  }

  /** The most recent rating of the pair (`a`, `b`) in `calls`, if there is one. */
  function LastRating(calls: seq<Rating>, a: int, b: int): (r: Option<real>)
    ensures r.Some? <==> exists k :: 0 <= k < |calls| && calls[k].u == a && calls[k].i == b
  {
    if calls == [] then None
    else
      var n := |calls| - 1;
      var c := calls[n];
      assert forall k :: 0 <= k < n ==> calls[..n][k] == calls[k];
      if c.u == a && c.i == b then Some(c.v) else LastRating(calls[..n], a, b)
  }

  lemma LastRatingAppend(calls: seq<Rating>, more: seq<Rating>, a: int, b: int)
    ensures LastRating(calls + more, a, b) ==
            (if LastRating(more, a, b).Some? then LastRating(more, a, b) else LastRating(calls, a, b))
    decreases |more|
  {
    if more != [] {
      var n := |more| - 1;
      assert (calls + more)[..|calls + more| - 1] == calls + more[..n];
      LastRatingAppend(calls, more[..n], a, b);
    } else {
      assert calls + more == calls;
    }
  }

  /** Only list `u` changes, and it loses `x` (a `u` outside the lists changes nothing). */
  lemma RetiredOne(av: seq<seq<int>>, av': seq<seq<int>>, u: int, x: int)
    requires |av'| == |av|
    requires 0 <= u < |av| ==> av'[u] == Without(av[u], {x})
    requires forall a :: 0 <= a < |av| && a != u ==> av'[a] == av[a]
    ensures forall a :: 0 <= a < |av| ==> av'[a] == Without(av[a], if a == u then {x} else {})
  {
    forall a | 0 <= a < |av| && a != u {
      WithoutNone(av[a], {});
    }
  }

  class InteractiveRecommender {
    /** The ground-truth ratings (prefData), one list per user. */
    const truth: seq<Row>
    const numItems: nat
    /** The ratings revealed to the recommender so far. */
    const trainData: PreferenceStore
    /** For each user, the items that may still be recommended to them. */
    var availability: seq<seq<int>>
    /** Whether a recommended pair without a ground-truth rating is skipped (rather than read as 0). */
    const ignoreUnknown: bool
    /** Whether accepting a link also retires the reverse link (people-to-people mode). */
    const notReciprocal: bool
    ghost const Repr: set<object>

    ghost predicate Valid()
      reads this, trainData
    {
      && Repr == {this, trainData}
      && trainData.Valid()
      && |trainData.uidxList| == |truth| && |trainData.iidxList| == numItems
      && |availability| == |truth|
      && (forall u :: 0 <= u < |availability| ==> Distinct(availability[u]))
      && (forall u, x :: 0 <= u < |availability| && x in availability[u] ==> 0 <= x < numItems)
      && (notReciprocal ==> forall u :: 0 <= u < |availability| ==> u !in availability[u])
    }

    /** The rating fed back for (`u`, `i`): the ground truth, or 0 when there is none. */
    function Value(u: int, i: int): real
    {
      var r := Get(truth, u, i);
      if r.Some? then r.value else 0.0
    }

    /** Whether feedback on (`u`, `i`) reaches the strategy and the training data. */
    predicate Known(u: int, i: int)
    {
      !ignoreUnknown || Get(truth, u, i).Some?
    }

    /** Whether accepting (`u`, `i`) also retires the reverse pair. */
    predicate MirrorBack(u: int, i: int)
    {
      notReciprocal && Value(u, i) > 1.0
    }

    /** Whether the reverse pair (`i`, `u`) is fed back as well. */
    predicate FeedsBack(u: int, i: int)
    {
      MirrorBack(u, i) && 0 <= i < |truth| && RowSize(truth[i]) > 0 && Known(i, u)
    }

    /** The training ratings of item `i` (getIidxPreferences), `None` outside the matrix. */
    function Column(i: int): Row
      reads this, trainData
    {
      if 0 <= i < |trainData.iidxList| then trainData.iidxList[i] else None
    }

    /** Whether (`a`, `b`) lies inside the training matrix, where updateRating has an effect. */
    predicate InMatrix(a: int, b: int)
    {
      0 <= a < |truth| && 0 <= b < numItems
    }

    /** The rating training data holds for (`a`, `b`) after storing `calls` over `before`. */
    function Stored(calls: seq<Rating>, a: int, b: int, before: Option<real>): Option<real>
    {
      if InMatrix(a, b) && LastRating(calls, a, b).Some? then LastRating(calls, a, b) else before
    }

    /** Every user may be recommended every item; training data is empty. */
    constructor (truth: seq<Row>, numItems: nat, ignoreUnknown: bool)
      ensures Valid() && fresh(Repr)
      ensures this.truth == truth && this.numItems == numItems
      ensures this.ignoreUnknown == ignoreUnknown && !notReciprocal
      ensures availability == seq(|truth|, _ => Range(numItems))
      ensures forall a, b :: trainData.Pref(a, b) == None
    {
      this.truth := truth;
      this.numItems := numItems;
      this.ignoreUnknown := ignoreUnknown;
      notReciprocal := false;
      var store := new PreferenceStore.Load(|truth|, numItems, []);
      trainData := store;
      availability := seq(|truth|, _ => Range(numItems));
      Repr := {this, store};
    }

    /** People-to-people mode: a user is never offered themself. */
    constructor People(truth: seq<Row>, numItems: nat, ignoreUnknown: bool, notReciprocal: bool)
      ensures Valid() && fresh(Repr)
      ensures this.truth == truth && this.numItems == numItems
      ensures this.ignoreUnknown == ignoreUnknown && this.notReciprocal == notReciprocal
      ensures availability == seq(|truth|, u => Without(Range(numItems), {u}))
      ensures forall a, b :: trainData.Pref(a, b) == None
    {
      this.truth := truth;
      this.numItems := numItems;
      this.ignoreUnknown := ignoreUnknown;
      this.notReciprocal := notReciprocal;
      var store := new PreferenceStore.Load(|truth|, numItems, []);
      trainData := store;
      availability := seq(|truth|, u => Without(Range(numItems), {u}));
      Repr := {this, store};
      new;
      forall u | 0 <= u < |truth| ensures Distinct(availability[u]) {
        WithoutDistinct(Range(numItems), {u});
      }
    }

    /**
     * Feedback on (`u`, `i`) after the feedback `done` was given: when it is used, it is
     * recorded and stored in training data; only item `i`'s training list changes.
     */
    method Feed(done: seq<Rating>, ghost start: seq<Row>, u: int, i: int) returns (all: seq<Rating>)
      requires Valid()
      requires forall a, b :: trainData.Pref(a, b) == Stored(done, a, b, Get(start, a, b))
      modifies trainData
      ensures Valid()
      ensures all == done + if Known(u, i) then [Rating(u, i, Value(u, i))] else []
      ensures forall a, b :: trainData.Pref(a, b) == Stored(all, a, b, Get(start, a, b))
      ensures forall c :: c != i ==> Column(c) == old(Column(c))
    {
      all := done;
      var value := Value(u, i);
      if Known(u, i) {
        all := done + [Rating(u, i, value)];
        trainData.UpdateRating(u, i, value);
        forall a, b ensures trainData.Pref(a, b) == Stored(all, a, b, Get(start, a, b)) {
          StoredAppend(done, Rating(u, i, value), a, b, Get(start, a, b));
        }
      }
    }

    /** `x` leaves user `u`'s list, where it is. */
    method Drop(u: int, x: int)
      requires Valid() && 0 <= u < |availability| && x in availability[u]
      modifies this
      ensures Valid()
      ensures availability == old(availability)[u := Without(old(availability)[u], {x})]
    {
      RemoveFirstWithout(availability[u], x);
      availability := availability[u := RemoveFirst(availability[u], x)];
    }

    /** The feedback a single update passes on for (`u`, `i`): the pair, then possibly its reverse. */
    function Feedback(u: int, i: int): seq<Rating>
    {
      (if Known(u, i) then [Rating(u, i, Value(u, i))] else [])
      + (if FeedsBack(u, i) then [Rating(i, u, Value(i, u))] else [])
    }

    /** The lists after a single update of (`u`, `i`): `i` leaves `u`'s list, and `u` leaves `i`'s on an accepted link. */
    function Accepted(av: seq<seq<int>>, u: int, i: int): seq<seq<int>>
      requires 0 <= u < |av| && (MirrorBack(u, i) ==> 0 <= i < |av|)
    {
      if MirrorBack(u, i)
      then av[u := Without(av[u], {i})][i := Without(av[i], {u})]
      else av[u := Without(av[u], {i})]
    }

    /**
     * update(u, i): the feedback on (`u`, `i`) goes to the strategy (`calls`, each with
     * the training ratings of its item as they were when it was made) and to training
     * data, `i` is retired from `u`'s list and, when the link is accepted in
     * people-to-people mode, the reverse pair is handled the same way.
     */
    method Update(u: int, i: int) returns (calls: seq<Rating>, raters: seq<Row>)
      requires Valid() && 0 <= u < |availability| && i in availability[u]
      requires MirrorBack(u, i) ==> 0 <= i < |availability| && u in availability[i]
      modifies Repr
      ensures Valid()
      ensures calls == Feedback(u, i)
      ensures raters == (if Known(u, i) then [old(Column(i))] else [])
                        + (if FeedsBack(u, i) then [old(Column(u))] else [])
      ensures availability == Accepted(old(availability), u, i)
      ensures forall a, b :: trainData.Pref(a, b) == Stored(calls, a, b, old(trainData.Pref(a, b)))
    {
      calls, raters := [], [];
      if Known(u, i) {
        raters := [Column(i)];
      }
      calls := Feed([], trainData.uidxList, u, i);
      Drop(u, i);
      var value := Value(u, i);
      if notReciprocal && value > 1.0 {
        if RowSize(truth[i]) > 0 {
          if Known(i, u) {
            raters := raters + [Column(u)];
          }
          calls := Feed(calls, old(trainData.uidxList), i, u);
        }
        Drop(i, u);
      }
    }

    /** The feedback a batch update collects for one pair: the pair, then (people-to-people) its reverse. */
    function PairRatings(u: int, i: int): seq<Rating>
      requires notReciprocal ==> 0 <= i < |truth|
    {
      (if Known(u, i) then [Rating(u, i, Value(u, i))] else [])
      + (if notReciprocal && RowSize(truth[i]) > 0 && Known(i, u) then [Rating(i, u, Value(i, u))] else [])
    }

    /** The feedback a batch update collects for `train`, in order. */
    function BatchRatings(train: seq<(int, int)>): seq<Rating>
      requires notReciprocal ==> forall t :: t in train ==> 0 <= t.1 < |truth|
    {
      if train == [] then []
      else
        var n := |train| - 1;
        assert train[n] in train;
        BatchRatings(train[..n]) + PairRatings(train[n].0, train[n].1)
    }

    /** The items pair (`u`, `i`) retires from user `a`'s list. */
    function PairRetired(u: int, i: int, a: int): set<int>
    {
      (if u == a then {i} else {}) + (if notReciprocal && i == a then {u} else {})
    }

    /** The items a batch update retires from user `a`'s list. */
    function Retired(train: seq<(int, int)>, a: int): (r: set<int>)
      ensures forall x :: x in r <==> (exists k :: 0 <= k < |train| && x in PairRetired(train[k].0, train[k].1, a))
    {
      if train == [] then {}
      else
        var n := |train| - 1;
        assert forall k :: 0 <= k < n ==> train[..n][k] == train[k];
        Retired(train[..n], a) + PairRetired(train[n].0, train[n].1, a)
    }

    /**
     * One pair of a batch update: its feedback is stored and collected, and it is retired
     * from the user's list if still there (and, people-to-people, the reverse pair too).
     */
    method UpdatePair(u: int, i: int) returns (more: seq<Rating>)
      requires Valid() && 0 <= u < |availability|
      requires notReciprocal ==> 0 <= i < |availability|
      modifies Repr
      ensures Valid()
      ensures more == PairRatings(u, i)
      ensures |availability| == |old(availability)|
      ensures forall a :: 0 <= a < |availability| ==> availability[a] == Without(old(availability)[a], PairRetired(u, i, a))
      ensures forall a, b :: trainData.Pref(a, b) == Stored(more, a, b, old(trainData.Pref(a, b)))
    {
      ghost var av0 := availability;
      more := Feed([], trainData.uidxList, u, i);
      Retire(u, i);
      ghost var av1 := availability;
      if notReciprocal {
        if RowSize(truth[i]) > 0 {
          more := Feed(more, old(trainData.uidxList), i, u);
        }
        Retire(i, u);
      }
      RetiredPair(av0, av1, availability, u, i);
    }

    /** Retiring `i` from `u`'s list, then (people-to-people) `u` from `i`'s, retires the pair's items. */
    lemma RetiredPair(av0: seq<seq<int>>, av1: seq<seq<int>>, av2: seq<seq<int>>, u: int, i: int)
      requires |av1| == |av0| && forall a :: 0 <= a < |av1| ==> av1[a] == Without(av0[a], if a == u then {i} else {})
      requires notReciprocal ==> |av2| == |av1| && forall a :: 0 <= a < |av2| ==> av2[a] == Without(av1[a], if a == i then {u} else {})
      requires !notReciprocal ==> av2 == av1
      ensures |av2| == |av0| && forall a :: 0 <= a < |av2| ==> av2[a] == Without(av0[a], PairRetired(u, i, a))
    {
      forall a | 0 <= a < |av2| ensures av2[a] == Without(av0[a], PairRetired(u, i, a)) {
        WithoutTwice(av0[a], if a == u then {i} else {}, if notReciprocal && a == i then {u} else {});
        if !notReciprocal {
          WithoutNone(Without(av0[a], if a == u then {i} else {}), {});
        }
      }
    }

    /** The batch removal: `x` leaves user `u`'s list if it is still there. */
    method Retire(u: int, x: int)
      requires Valid() && 0 <= u < |availability|
      modifies this
      ensures Valid()
      ensures |availability| == |old(availability)|
      ensures forall a :: 0 <= a < |availability| ==>
                availability[a] == Without(old(availability)[a], if a == u then {x} else {})
    {
      ghost var av := availability;
      if x in availability[u] {
        RemoveFirstWithout(availability[u], x);
        availability := availability[u := RemoveFirst(availability[u], x)];
      } else {
        WithoutNone(availability[u], {x});
      }
      RetiredOne(av, availability, u, x);
    }

    /**
     * update(train): every pair is fed back and retired as in a single update (the
     * reverse pair whatever the rating, each removal only if still available), then the
     * strategy receives all the collected feedback at once (`tuples`).
     */
    method UpdateBatch(train: seq<(int, int)>) returns (tuples: seq<Rating>)
      requires Valid()
      requires forall t :: t in train ==> 0 <= t.0 < |availability|
      requires notReciprocal ==> forall t :: t in train ==> 0 <= t.1 < |availability|
      modifies Repr
      ensures Valid()
      ensures tuples == BatchRatings(train)
      ensures |availability| == |old(availability)|
      ensures forall a :: 0 <= a < |availability| ==> availability[a] == Without(old(availability)[a], Retired(train, a))
      ensures forall a, b :: trainData.Pref(a, b) == Stored(tuples, a, b, old(trainData.Pref(a, b)))
    {
      tuples := [];
      ghost var av0 := availability;
      forall a | 0 <= a < |av0| ensures av0[a] == Without(av0[a], Retired([], a)) {
        WithoutNone(av0[a], {});
      }
      var k := 0;
      while k < |train|
        invariant 0 <= k <= |train| && Valid()
        invariant tuples == BatchRatings(train[..k])
        invariant |availability| == |av0|
        invariant forall a :: 0 <= a < |availability| ==> availability[a] == Without(av0[a], Retired(train[..k], a))
        invariant forall a, b :: trainData.Pref(a, b) == Stored(tuples, a, b, old(trainData.Pref(a, b)))
      {
        assert train[..k + 1][..k] == train[..k];
        assert train[k] in train;
        ghost var av := availability;
        ghost var us := trainData.uidxList;
        ghost var ts := tuples;
        var more := UpdatePair(train[k].0, train[k].1);
        tuples := tuples + more;
        forall a, b ensures trainData.Pref(a, b) == Stored(tuples, a, b, old(trainData.Pref(a, b))) {
          StoredConcat(ts, more, a, b, old(trainData.Pref(a, b)));
          assert Get(us, a, b) == Stored(ts, a, b, old(trainData.Pref(a, b)));
        }
        forall a | 0 <= a < |availability|
          ensures availability[a] == Without(av0[a], Retired(train[..k + 1], a))
        {
          WithoutTwice(av0[a], Retired(train[..k], a), PairRetired(train[k].0, train[k].1, a));
        }
        k := k + 1;
      }
      assert train[..k] == train;
    }

    /** Storing one more rating changes only that pair, and only inside the matrix. */
    lemma StoredAppend(ts: seq<Rating>, r: Rating, a: int, b: int, p: Option<real>)
      ensures Stored(ts + [r], a, b, p) ==
              if InMatrix(a, b) && a == r.u && b == r.i then Some(r.v) else Stored(ts, a, b, p)
    {
      LastRatingAppend(ts, [r], a, b);
    }

    /** Storing two batches of ratings one after the other. */
    lemma StoredConcat(ts: seq<Rating>, more: seq<Rating>, a: int, b: int, p: Option<real>)
      ensures Stored(ts + more, a, b, p) == Stored(more, a, b, Stored(ts, a, b, p))
    {
      LastRatingAppend(ts, more, a, b);
    }

    /** usesAll: whether feedback without a ground-truth rating is used too. */
    function UsesAll(): (r: bool)
      ensures r <==> forall u, i :: Known(u, i)
    {
      if ignoreUnknown then
        assert !Known(-1, 0);
        false
      else true
    }
  }
}
