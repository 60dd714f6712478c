// Matrix factorisation: items are ranked by the scores a factorisation of the
// training data predicts, and the factorisation is recomputed after every hundred
// positive ratings. The factoriser itself is an external library: the model receives
// the factorisations it would produce as parameters and says when one is taken.

module MatrixFactorization {
  import opened Common
  import opened Preferences
  import opened Recommender
  import opened Argmax

  /** How many positive ratings trigger a new factorisation. */
  const LimitCounter := 100

  /**
   * The part of a factorisation the strategy reads: for each user that has a latent
   * vector, the predicted score of every item (the item matrix times that vector).
   */
  datatype Factorization = Factorization(users: map<int, seq<Double>>)

  /** Every predicted score vector covers the `n` items. */
  ghost predicate Covers(f: Factorization, n: nat)
  {
    forall u :: u in f.users ==> |f.users[u]| == n
  }

  /** The score the scan uses: NaN counts as -Infinity. */
  function Clean(d: Double): (r: Double)
    ensures r != NaN
    ensures d != NaN ==> r == d
  {
    if d == NaN then NegInf else d
  }

  /** The cleaned scores of the candidates, in order. */
  function Scores(list: seq<int>, vec: seq<Double>): (ss: seq<Double>)
    requires forall x :: x in list ==> 0 <= x < |vec|
    ensures |ss| == |list|
    ensures forall k :: 0 <= k < |list| ==> list[k] in list && ss[k] == Clean(vec[list[k]]) && ss[k] != NaN
  {
    assert forall k :: 0 <= k < |list| ==> list[k] in list;
    seq(|list|, k requires 0 <= k < |list| => Clean(vec[list[k]]))
  }

  /**
   * One call of the single-rating updateMethod on the counter: a positive rating
   * counts, and reaching the limit resets the counter and asks for a new
   * factorisation (the second component).
   */
  function Tick(counter: int, v: real): (r: (int, bool))
    requires 0 <= counter < LimitCounter
    ensures 0 <= r.0 < LimitCounter
    ensures r.1 <==> v > 0.0 && counter == LimitCounter - 1
    ensures !r.1 ==> r.0 == counter + (if v > 0.0 then 1 else 0)
    ensures r.1 ==> r.0 == 0
  {
    var c := if v > 0.0 then counter + 1 else counter;
    if c >= LimitCounter then (0, true) else (c, false)
  }

  /** The counter and the number of new factorisations after a run of ratings. */
  function Run(counter: int, vs: seq<real>): (r: (int, nat))
    requires 0 <= counter < LimitCounter
    ensures 0 <= r.0 < LimitCounter
  {
    if vs == [] then (counter, 0)
    else
      var n := |vs| - 1;
      var front := Run(counter, vs[..n]);
      var t := Tick(front.0, vs[n]);
      (t.0, front.1 + if t.1 then 1 else 0)
  }

  /** How many of the ratings are positive. */
  function PositiveCount(vs: seq<real>): (n: nat)
    ensures n <= |vs|
  {
    if vs == [] then 0 else PositiveCount(vs[..|vs| - 1]) + if vs[|vs| - 1] > 0.0 then 1 else 0
  }

  /**
   * The counter only counts positive ratings, and a new factorisation is taken each
   * time their running total passes a multiple of the limit.
   */
  lemma {:induction false} RunCounts(counter: int, vs: seq<real>)
    requires 0 <= counter < LimitCounter
    ensures Run(counter, vs).0 == (counter + PositiveCount(vs)) % LimitCounter
    ensures Run(counter, vs).1 == (counter + PositiveCount(vs)) / LimitCounter
  {
    if vs != [] {
      var n := |vs| - 1;
      RunCounts(counter, vs[..n]);
      var total := counter + PositiveCount(vs[..n]);
      assert Run(counter, vs[..n]).0 == total % LimitCounter;
      assert Run(counter, vs[..n]).1 == total / LimitCounter;
      if vs[n] > 0.0 {
        DivModNext(total);
      }
    }
  }

  lemma DivModNext(t: nat)
    ensures (t + 1) % LimitCounter == if t % LimitCounter == LimitCounter - 1 then 0 else t % LimitCounter + 1
    ensures (t + 1) / LimitCounter == t / LimitCounter + if t % LimitCounter == LimitCounter - 1 then 1 else 0
  {
  }

  /** The values of a list of ratings. */
  function Values(calls: seq<Rating>): (vs: seq<real>)
    ensures |vs| == |calls| && forall k :: 0 <= k < |calls| ==> vs[k] == calls[k].v
  {
    seq(|calls|, k requires 0 <= k < |calls| => calls[k].v)
  }

  class InteractiveMF {
    const base: InteractiveRecommender
    /** The number of latent factors the refits use: the given one, or the number of users when it is not positive. */
    const k: int
    /** Positive ratings seen since the last factorisation. */
    var counter: int
    var factorization: Factorization

    ghost predicate Valid()
      reads this, base, base.trainData
    {
      && base.Valid()
      && 0 <= counter < LimitCounter
      && Covers(factorization, base.numItems)
    }

    /** The first factorisation is the one the factoriser gives for the training data at hand. */
    constructor (base: InteractiveRecommender, k: int, initial: Factorization)
      requires base.Valid() && Covers(initial, base.numItems)
      ensures Valid() && this.base == base
      ensures this.k == if k > 0 then k else |base.truth|
      ensures counter == 0 && factorization == initial
    {
      this.base := base;
      this.k := if k > 0 then k else |base.truth|;
      counter := 0;
      factorization := initial;
    }

    /**
     * next(u): -1 for a user with nothing left; any available item for a user without
     * a latent vector; otherwise an item of maximum predicted score, NaN counting as
     * -Infinity, taken without a draw when it is the only one.
     */
    method Next(u: int) returns (r: int)
      requires Valid() && 0 <= u < |base.availability|
      ensures r == -1 <==> base.availability[u] == []
      ensures r != -1 ==> r in base.availability[u]
      ensures r != -1 && u in factorization.users ==>
                Maximises(base.availability[u], Scores(base.availability[u], factorization.users[u]), r)
      ensures base.availability[u] != [] && u in factorization.users ==>
                var ss := Scores(base.availability[u], factorization.users[u]);
                forall j :: 0 <= j < |ss| && (forall m :: 0 <= m < |ss| && m != j ==> Greater(ss[j], ss[m]))
                  ==> r == base.availability[u][j]
    {
      var list := base.availability[u];
      if list == [] {
        return -1;
      }
      if u !in factorization.users {
        r := PickAny(list);
        return;
      }
      var vec := factorization.users[u];
      var ss := Scores(list, vec);
      assert ss[0] != NaN;
      r := BestOf(list, ss);
      assert r in list;
      forall j | 0 <= j < |ss| && (forall m :: 0 <= m < |ss| && m != j ==> Greater(ss[j], ss[m]))
        ensures r == list[j]
      {
        UniqueMax(list, ss, j);
      }
    }

    /**
     * updateMethod(u, i, v): a positive rating counts; at the limit the counter
     * restarts and `refit`, the factoriser's result on the current training data,
     * replaces the factorisation.
     */
    method Record(v: real, refit: Factorization)
      requires Valid() && Covers(refit, base.numItems)
      modifies this
      ensures Valid()
      ensures counter == Tick(old(counter), v).0
      ensures factorization == if Tick(old(counter), v).1 then refit else old(factorization)
    {
      if v > 0.0 {
        counter := counter + 1;
      }
      if counter >= LimitCounter {
        counter := 0;
        factorization := refit;
      }
    }

    /** The ratings of one update, in order; `refits[j]` is what a refit at rating `j` would give. */
    method RecordAll(calls: seq<Rating>, refits: seq<Factorization>)
      requires Valid() && |refits| == |calls|
      requires forall j :: 0 <= j < |refits| ==> Covers(refits[j], base.numItems)
      modifies this
      ensures Valid()
      ensures counter == Run(old(counter), Values(calls)).0
      ensures Run(old(counter), Values(calls)).1 == 0 ==> factorization == old(factorization)
      ensures Run(old(counter), Values(calls)).1 > 0 ==> factorization in refits
    {
      var j := 0;
      ghost var vs := Values(calls);
      while j < |calls|
        invariant 0 <= j <= |calls| && Valid()
        invariant counter == Run(old(counter), vs[..j]).0
        invariant Run(old(counter), vs[..j]).1 == 0 ==> factorization == old(factorization)
        invariant Run(old(counter), vs[..j]).1 > 0 ==> factorization in refits
      {
        assert vs[..j + 1][..j] == vs[..j];
        Record(calls[j].v, refits[j]);
        j := j + 1;
      }
      assert vs[..j] == vs;
    }

    /** update(u, i), then the counter sees each rating it passes on. */
    method Update(u: int, i: int, refits: seq<Factorization>)
      requires Valid() && 0 <= u < |base.availability| && i in base.availability[u]
      requires base.MirrorBack(u, i) ==> 0 <= i < |base.availability| && u in base.availability[i]
      requires |refits| == |base.Feedback(u, i)|
      requires forall j :: 0 <= j < |refits| ==> Covers(refits[j], base.numItems)
      modifies this, base, base.trainData
      ensures Valid()
      ensures counter == Run(old(counter), Values(base.Feedback(u, i))).0
      ensures Run(old(counter), Values(base.Feedback(u, i))).1 == 0 ==> factorization == old(factorization)
      ensures base.availability == base.Accepted(old(base.availability), u, i)
      ensures forall a, b :: base.trainData.Pref(a, b) == base.Stored(base.Feedback(u, i), a, b, old(base.trainData.Pref(a, b)))
    {
      var calls, raters := base.Update(u, i);
      RecordAll(calls, refits);
    }

    /**
     * update(train): the batch updateMethod asks the factoriser for a new
     * factorisation but does not keep it; only the counter restarts.
     */
    method UpdateBatch(train: seq<(int, int)>)
      requires Valid()
      requires forall t :: t in train ==> 0 <= t.0 < |base.availability|
      requires base.notReciprocal ==> forall t :: t in train ==> 0 <= t.1 < |base.availability|
      modifies this, base, base.trainData
      ensures Valid()
      ensures counter == 0 && factorization == old(factorization)
      ensures |base.availability| == |old(base.availability)|
      ensures forall a :: 0 <= a < |base.availability| ==>
                base.availability[a] == Without(old(base.availability)[a], base.Retired(train, a))
      ensures forall a, b :: base.trainData.Pref(a, b) == base.Stored(base.BatchRatings(train), a, b, old(base.trainData.Pref(a, b)))
    {
      var tuples := base.UpdateBatch(train);
      counter := 0;
    }
  }
}
