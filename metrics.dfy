// The cumulative metrics the recommendation loop updates after every recommendation:
// cumulative recall (a counter of relevant hits) and the cumulative Gini index of how
// often each item has been recommended, kept up to date in constant time per update.

module Metrics {
  import opened Common
  import opened Preferences

  /** Whether the ground truth holds a rating of at least `threshold` for (`u`, `i`). */
  predicate Relevant(truth: seq<Row>, threshold: real, u: int, i: int)
  {
    Get(truth, u, i).Some? && Get(truth, u, i).value >= threshold
  }

  /** The relevant pairs among `pairs`, counted with multiplicity. */
  function Hits(truth: seq<Row>, threshold: real, pairs: seq<(int, int)>): (n: nat)
    ensures n <= |pairs|
  {
    if pairs == [] then 0
    else
      var p := pairs[|pairs| - 1];
      Hits(truth, threshold, pairs[..|pairs| - 1]) + (if Relevant(truth, threshold, p.0, p.1) then 1 else 0)
  }

  /** Recommending the same relevant pair twice counts it twice: there is no deduplication. */
  lemma HitsRepeat(truth: seq<Row>, threshold: real, pairs: seq<(int, int)>, u: int, i: int)
    requires Relevant(truth, threshold, u, i)
    ensures Hits(truth, threshold, pairs + [(u, i), (u, i)]) == Hits(truth, threshold, pairs) + 2
  {
    var ps := pairs + [(u, i), (u, i)];
    assert ps[..|ps| - 1] == pairs + [(u, i)];
    assert (pairs + [(u, i)])[..|pairs|] == pairs;
  }

  class CumulativeRecall {
    const truth: seq<Row>
    const numRel: int
    const threshold: real
    var current: nat
    /** The pairs this metric has been updated with since the last reset. */
    ghost var seen: seq<(int, int)>

    ghost predicate Valid()
      reads this
    {
      current == Hits(truth, threshold, seen)
    }

    constructor (truth: seq<Row>, numRel: int, threshold: real)
      ensures Valid() && seen == [] && current == 0
      ensures this.truth == truth && this.numRel == numRel && this.threshold == threshold
    {
      this.truth := truth;
      this.numRel := numRel;
      this.threshold := threshold;
      current := 0;
      seen := [];
    }

    /** compute: 0 when there are no relevant pairs, otherwise the fraction found so far. */
    function Compute(): (r: real)
      reads this
      ensures numRel == 0 ==> r == 0.0
      ensures numRel != 0 ==> r * (numRel as real) == current as real
    {
      if numRel == 0 then 0.0 else (current as real) / (numRel as real)
    }

    /** update: one more hit exactly when the ground truth rates the pair at least `threshold`. */
    method Update(u: int, i: int)
      requires Valid()
      modifies this
      ensures Valid() && seen == old(seen) + [(u, i)]
      ensures current == old(current) + (if Relevant(truth, threshold, u, i) then 1 else 0)
    {
      var value := Get(truth, u, i);
      if value.Some? && value.value >= threshold {
        current := current + 1;
      }
      seen := seen + [(u, i)];
      assert seen[..|seen| - 1] == old(seen);
    }

    method Reset()
      modifies this
      ensures Valid() && seen == [] && current == 0
    {
      current := 0;
      seen := [];
    }
  }

  // ---------------------------------------------------------------------------
  // Cumulative Gini

  ghost predicate SortedInts(s: seq<int>)
  {
    forall a, b :: 0 <= a < b < |s| ==> s[a] <= s[b]
  }

  function Sum(s: seq<int>): int
  {
    if s == [] then 0 else Sum(s[..|s| - 1]) + s[|s| - 1]
  }

  /**
   * The Gini numerator: the sum over ranks j = 1..n of (2j - n - 1) times the j-th
   * smallest frequency, for a vector `s` already sorted ascending.
   */
  function GiniSum(s: seq<int>, n: int): int
  {
    if s == [] then 0 else GiniSum(s[..|s| - 1], n) + (2 * |s| - n - 1) * s[|s| - 1]
  }

  /** Raising one rank's value by one changes the numerator by that rank's weight. */
  lemma {:induction false} GiniSumUpdate(s: seq<int>, n: int, p: int)
    requires 0 <= p < |s|
    ensures GiniSum(s[p := s[p] + 1], n) == GiniSum(s, n) + 2 * (p + 1) - n - 1
    ensures Sum(s[p := s[p] + 1]) == Sum(s) + 1
  {
    var m := |s| - 1;
    if p < m {
      assert s[p := s[p] + 1][..m] == s[..m][p := s[..m][p] + 1];
      GiniSumUpdate(s[..m], n, p);
    } else {
      assert s[p := s[p] + 1][..m] == s[..m];
      assert (2 * |s| - n - 1) * (s[m] + 1) == (2 * |s| - n - 1) * s[m] + 2 * |s| - n - 1;
    }
  }

  lemma {:induction false} GiniSumZeros(n: nat, N: int)
    ensures GiniSum(seq(n, _ => 0), N) == 0 && Sum(seq(n, _ => 0)) == 0
  {
    if n > 0 {
      assert seq(n, _ => 0)[..n - 1] == seq(n - 1, _ => 0);
      GiniSumZeros(n - 1, N);
    }
  }

  /**
   * `[lo, hi]` (1-based ranks) is exactly the run of `g` in `s`: it holds `g` at both
   * ends and the ranks just outside it do not.
   */
  ghost predicate Run(s: seq<int>, lo: int, hi: int, g: int)
  {
    && 1 <= lo <= hi <= |s|
    && s[lo - 1] == g && s[hi - 1] == g
    && (lo == 1 || s[lo - 2] != g)
    && (hi == |s| || s[hi] != g)
  }

  /** The rank maps: every frequency value present in `s`, and only those, has its run. */
  ghost predicate Buckets(s: seq<int>, mins: map<int, int>, maxs: map<int, int>)
  {
    && (forall f {:trigger f in mins} :: f in mins <==> f in s)
    && (forall f {:trigger f in maxs} :: f in maxs <==> f in s)
    && (forall f {:trigger mins[f]} :: f in mins && f in maxs ==> Run(s, mins[f], maxs[f], f))
  }

  /** In a sorted vector the run of a value starts at one place only. */
  lemma FirstUnique(s: seq<int>, a: int, b: int)
    requires SortedInts(s) && 0 <= a < |s| && 0 <= b < |s| && s[a] == s[b]
    requires a == 0 || s[a - 1] != s[a]
    requires b == 0 || s[b - 1] != s[b]
    ensures a == b
  {
  }

  /** In a sorted vector the run of a value ends at one place only. */
  lemma LastUnique(s: seq<int>, a: int, b: int)
    requires SortedInts(s) && 0 <= a < |s| && 0 <= b < |s| && s[a] == s[b]
    requires a == |s| - 1 || s[a + 1] != s[a]
    requires b == |s| - 1 || s[b + 1] != s[b]
    ensures a == b
  {
  }

  /** With sorted frequencies, a bucket's width is the number of items at that frequency. */
  lemma BucketWidth(s: seq<int>, mins: map<int, int>, maxs: map<int, int>, f: int, k: int)
    requires SortedInts(s) && Buckets(s, mins, maxs) && f in mins && 0 <= k < |s|
    ensures s[k] == f <==> mins[f] - 1 <= k <= maxs[f] - 1
  {
    if mins[f] - 1 <= k <= maxs[f] - 1 {
      assert s[mins[f] - 1] <= s[k] <= s[maxs[f] - 1];
    }
  }

  /** Every item of `0..n-1` recommended zero times. */
  function ZeroCounts(n: int): (m: map<int, int>)
    ensures forall i :: i in m <==> 0 <= i < n
    ensures forall i :: i in m ==> m[i] == 0
  {
    if n <= 0 then map[] else ZeroCounts(n - 1)[n - 1 := 0]
  }

  /** The counts of items `0..n-1`, item by item. */
  function CountVector(m: map<int, int>, n: nat): (v: seq<int>)
    requires forall i :: 0 <= i < n ==> i in m
    ensures |v| == n && forall i :: 0 <= i < n ==> v[i] == m[i]
  {
    seq(n, i requires 0 <= i < n => m[i])
  }

  class CumulativeGini {
    const numItems: nat
    /** How many times each item has been recommended. */
    var frequencies: map<int, int>
    /** For each frequency present, its first and last rank in ascending frequency order. */
    var mins: map<int, int>
    var maxs: map<int, int>
    var freqSum: int
    var numSum: int
    /** The frequencies sorted ascending: the order the rank maps describe. */
    ghost var sorted: seq<int>

    ghost predicate Valid()
      reads this
    {
      GiniState(numItems, frequencies, mins, maxs, freqSum, numSum, sorted)
    }

    constructor (numItems: nat)
      ensures Valid() && this.numItems == numItems
      ensures frequencies == ZeroCounts(numItems)
      ensures mins == map[0 := 1] && maxs == map[0 := numItems]
      ensures freqSum == 0 && numSum == 0
    {
      this.numItems := numItems;
      freqSum := 0;
      numSum := 0;
      mins := map[0 := 1];
      maxs := map[0 := numItems];
      frequencies := ZeroCounts(numItems);
      sorted := seq(numItems, _ => 0);
      new;
      GiniInit(numItems);
    }

    /** compute: NaN for at most one item or no recommendation yet, else the Gini index. */
    function Compute(): (r: Double)
      reads this
      requires Valid()
      ensures r == NaN <==> numItems <= 1 || freqSum == 0
      ensures r != NaN ==> r.Fin? && r.r * ((numItems - 1) as real) * (Sum(sorted) as real)
                                     == GiniSum(sorted, numItems) as real
    {
      if numItems <= 1 then NaN
      else if freqSum == 0 then NaN
      else Fin((numSum as real) / ((numItems as real - 1.0) * (freqSum as real)))
    }

    /**
     * update: item `iidx` moves from the last rank of its frequency's range to the first
     * rank of the next frequency's range, and the numerator changes by that rank's weight.
     */
    method Update(uidx: int, iidx: int)
      requires Valid() && 0 <= iidx < numItems
      modifies this
      ensures Valid()
      ensures frequencies == old(frequencies)[iidx := old(frequencies)[iidx] + 1]
      ensures freqSum == old(freqSum) + 1
      ensures var f := old(frequencies)[iidx];
              && f in old(mins) && f in old(maxs)
              && mins == NextMins(old(mins), old(maxs), f) && maxs == NextMaxs(old(mins), old(maxs), f)
              && sorted == old(sorted)[old(maxs)[f] - 1 := f + 1]
    {
      var freq := frequencies[iidx];
      ghost var fr, mi, mx, fs, ns, so := frequencies, mins, maxs, freqSum, numSum, sorted;
      StepRun(numItems, fr, mi, mx, fs, ns, so, iidx);
      var newMins, newMaxs, increment := MoveRank(numItems, mins, maxs, freq);
      freqSum, numSum := freqSum + 1, numSum + increment;
      frequencies, sorted := frequencies[iidx := freq + 1], sorted[maxs[freq] - 1 := freq + 1];
      mins, maxs := newMins, newMaxs;
      GiniStepTo(numItems, fr, mi, mx, fs, ns, so, iidx, frequencies, mins, maxs, freqSum, numSum, sorted);
    }

    /**
     * The bookkeeping of update on the rank maps: `f`'s run gives up its last rank
     * (disappearing when that was its only one) to the run of `f + 1`, which starts there
     * or is created there; `increment` is computed by the source's two-case formula.
     */
    static method MoveRank(numItems: int, mins: map<int, int>, maxs: map<int, int>, freq: int)
      returns (mins': map<int, int>, maxs': map<int, int>, increment: int)
      requires freq in mins && freq in maxs && 1 <= mins[freq] <= maxs[freq]
      requires freq + 1 in mins ==> mins[freq + 1] == maxs[freq] + 1
      ensures mins' == NextMins(mins, maxs, freq) && maxs' == NextMaxs(mins, maxs, freq)
      ensures increment == 2 * maxs[freq] - numItems - 1
    {
      var minFreq := mins[freq];
      var maxFreq := maxs[freq];
      var minNewFreq := if freq + 1 in mins then mins[freq + 1] else maxFreq;
      increment := (numItems + 1 - 2 * maxFreq) * freq;
      if minNewFreq == maxFreq {
        increment := increment + (2 * maxFreq - numItems - 1) * (freq + 1);
      } else {
        increment := increment + (2 * minNewFreq - numItems - 3) * (freq + 1);
      }
      IncrementIdentity(numItems, maxFreq, freq);
      mins', maxs' := mins, maxs;
      if minFreq == maxFreq {
        mins' := mins' - {freq};
        maxs' := maxs' - {freq};
      } else {
        maxs' := maxs'[freq := maxFreq - 1];
      }
      if minNewFreq == maxFreq {
        mins' := mins'[freq + 1 := maxFreq];
        maxs' := maxs'[freq + 1 := maxFreq];
      } else {
        mins' := mins'[freq + 1 := minNewFreq - 1];
      }
    }

    /** reset: back to the constructor's state. */
    method Reset()
      modifies this
      ensures Valid()
      ensures frequencies == ZeroCounts(numItems)
      ensures mins == map[0 := 1] && maxs == map[0 := numItems]
      ensures freqSum == 0 && numSum == 0
    {
      mins := map[0 := 1];
      maxs := map[0 := numItems];
      frequencies := ZeroCounts(numItems);
      freqSum := 0;
      numSum := 0;
      sorted := seq(numItems, _ => 0);
      GiniInit(numItems);
    }
  }

  /**
   * What the metric's fields mean: `sorted` is the frequency vector in ascending order,
   * the rank maps delimit its runs, `freqSum` is its total and `numSum` its Gini numerator.
   */
  ghost predicate GiniState(n: nat, freqs: map<int, int>, mins: map<int, int>, maxs: map<int, int>,
                            freqSum: int, numSum: int, sorted: seq<int>)
  {
    && (forall i :: i in freqs <==> 0 <= i < n)
    && |sorted| == n
    && SortedInts(sorted)
    && multiset(sorted) == multiset(CountVector(freqs, n))
    && (n == 0 || Buckets(sorted, mins, maxs))
    && freqSum == Sum(sorted)
    && numSum == GiniSum(sorted, n)
  }

  /** The constructor's state: every item at frequency zero, one run over all ranks. */
  lemma GiniInit(n: nat)
    ensures GiniState(n, ZeroCounts(n), map[0 := 1], map[0 := n], 0, 0, seq(n, _ => 0))
  {
    GiniSumZeros(n, n);
    ZerosBag(n);
    if n > 0 {
      ZerosBuckets(n);
    }
  }

  lemma ZerosBag(n: nat)
    ensures multiset(seq(n, _ => 0)) == multiset(CountVector(ZeroCounts(n), n))
  {
    assert CountVector(ZeroCounts(n), n) == seq(n, _ => 0);
  }

  /** All-zero frequencies form one run of zeros over every rank. */
  lemma ZerosBuckets(n: nat)
    requires n > 0
    ensures Buckets(seq(n, _ => 0), map[0 := 1], map[0 := n])
  {
    var s := seq(n, _ => 0);
    assert s[0] == 0;
    forall f ensures f in s <==> f == 0 {
      if f in s {
        var k :| 0 <= k < n && s[k] == f;
      }
    }
  }

  /**
   * One update keeps the meaning of the fields: the item's frequency goes up by one, the
   * last rank of its run moves to the next run, and the numerator changes by the weight
   * `2 * rank - n - 1` of that rank.
   */
  lemma GiniStep(n: nat, freqs: map<int, int>, mins: map<int, int>, maxs: map<int, int>,
                 freqSum: int, numSum: int, s: seq<int>, i: int)
    requires GiniState(n, freqs, mins, maxs, freqSum, numSum, s) && 0 <= i < n
    ensures freqs[i] in mins && freqs[i] in maxs && 1 <= mins[freqs[i]] <= maxs[freqs[i]] <= n
    ensures freqs[i] + 1 in mins ==> mins[freqs[i] + 1] == maxs[freqs[i]] + 1
    ensures GiniState(n, freqs[i := freqs[i] + 1], NextMins(mins, maxs, freqs[i]), NextMaxs(mins, maxs, freqs[i]),
                      freqSum + 1, numSum + 2 * maxs[freqs[i]] - n - 1, s[maxs[freqs[i]] - 1 := freqs[i] + 1])
  {
    StepRun(n, freqs, mins, maxs, freqSum, numSum, s, i);
    StepOrder(s, mins, maxs, freqs[i]);
    StepBag(n, freqs, mins, maxs, freqSum, numSum, s, i);
    GiniSumUpdate(s, n, maxs[freqs[i]] - 1);
  }

  /** The updated item's frequency has a run, whose last rank holds it, followed by the next frequency's. */
  lemma StepRun(n: nat, freqs: map<int, int>, mins: map<int, int>, maxs: map<int, int>,
                freqSum: int, numSum: int, s: seq<int>, i: int)
    requires GiniState(n, freqs, mins, maxs, freqSum, numSum, s) && 0 <= i < n
    ensures freqs[i] in mins && freqs[i] in maxs && 1 <= mins[freqs[i]] <= maxs[freqs[i]] <= n
    ensures s[maxs[freqs[i]] - 1] == freqs[i]
    ensures freqs[i] + 1 in mins ==> mins[freqs[i] + 1] == maxs[freqs[i]] + 1
  {
    var f := freqs[i];
    var fr := CountVector(freqs, n);
    assert fr[i] == f;
    assert f in multiset(fr);
    assert f in s && f in mins && f in maxs;
    assert Run(s, mins[f], maxs[f], f);
    if f + 1 in mins {
      NextRunStart(s, mins, maxs, f);
    }
  }

  /** After the update the vector is still sorted and the rank maps describe its runs. */
  lemma StepOrder(s: seq<int>, mins: map<int, int>, maxs: map<int, int>, f: int)
    requires SortedInts(s) && Buckets(s, mins, maxs)
    requires f in mins && f in maxs
    ensures SortedInts(s[maxs[f] - 1 := f + 1])
    ensures Buckets(s[maxs[f] - 1 := f + 1], NextMins(mins, maxs, f), NextMaxs(mins, maxs, f))
  {
    assert Run(s, mins[f], maxs[f], f);
    UpdateSorted(s, mins[f], maxs[f], f);
    UpdateBuckets(s, mins, maxs, f);
  }

  /** After the update the vector still holds the bag of item frequencies. */
  lemma StepBag(n: nat, freqs: map<int, int>, mins: map<int, int>, maxs: map<int, int>,
                freqSum: int, numSum: int, s: seq<int>, i: int)
    requires GiniState(n, freqs, mins, maxs, freqSum, numSum, s) && 0 <= i < n
    requires freqs[i] in maxs && 1 <= maxs[freqs[i]] <= n && s[maxs[freqs[i]] - 1] == freqs[i]
    ensures multiset(s[maxs[freqs[i]] - 1 := freqs[i] + 1]) == multiset(CountVector(freqs[i := freqs[i] + 1], n))
  {
    var f := freqs[i];
    var fr := CountVector(freqs, n);
    assert CountVector(freqs[i := f + 1], n) == fr[i := f + 1];
    UpdateBag(fr, fr[i := f + 1], s, i, maxs[f] - 1, f);
  }

  /** GiniStep with the updated fields passed by name, as update assigns them. */
  lemma GiniStepTo(n: nat, freqs: map<int, int>, mins: map<int, int>, maxs: map<int, int>,
                 freqSum: int, numSum: int, s: seq<int>, i: int,
                 freqs': map<int, int>, mins': map<int, int>, maxs': map<int, int>,
                 freqSum': int, numSum': int, s': seq<int>)
    requires GiniState(n, freqs, mins, maxs, freqSum, numSum, s) && 0 <= i < n
    requires freqs[i] in mins && freqs[i] in maxs
    requires freqs' == freqs[i := freqs[i] + 1] && freqSum' == freqSum + 1
    requires mins' == NextMins(mins, maxs, freqs[i]) && maxs' == NextMaxs(mins, maxs, freqs[i])
    requires numSum' == numSum + 2 * maxs[freqs[i]] - n - 1 && s' == s[maxs[freqs[i]] - 1 := freqs[i] + 1]
    ensures GiniState(n, freqs', mins', maxs', freqSum', numSum', s')
  {
    GiniStep(n, freqs, mins, maxs, freqSum, numSum, s, i);
  }

  /** The source's two-term increment is the weight of the rank that moves. */
  lemma IncrementIdentity(n: int, maxF: int, f: int)
    ensures (n + 1 - 2 * maxF) * f + (2 * maxF - n - 1) * (f + 1) == 2 * maxF - n - 1
  {
    calc {
      (n + 1 - 2 * maxF) * f + (2 * maxF - n - 1) * (f + 1);
      (n + 1 - 2 * maxF) * f + (2 * maxF - n - 1) * f + (2 * maxF - n - 1);
      { assert (n + 1 - 2 * maxF) * f + (2 * maxF - n - 1) * f == 0 * f; }
      2 * maxF - n - 1;
    }
  }

  /** When the next frequency is present, its range starts right after `f`'s range. */
  lemma NextRunStart(s: seq<int>, mins: map<int, int>, maxs: map<int, int>, f: int)
    requires SortedInts(s) && Buckets(s, mins, maxs) && f in mins && f + 1 in mins
    ensures mins[f + 1] == maxs[f] + 1
  {
    var p := maxs[f] - 1;
    var q := mins[f + 1] - 1;
    assert s[q] == f + 1;
    if q <= p {
      assert false;
    }
    assert s[p] <= s[p + 1] && s[p + 1] != f;
    assert s[p + 1] <= s[q];
    FirstUnique(s, p + 1, q);
  }

  /** Raising the last element of `f`'s run by one keeps the vector sorted. */
  lemma UpdateSorted(s: seq<int>, lo: int, hi: int, f: int)
    requires SortedInts(s) && Run(s, lo, hi, f)
    ensures SortedInts(s[hi - 1 := f + 1])
  {
    var p := hi - 1;
    var s' := s[p := f + 1];
    forall a, b | 0 <= a < b < |s'| ensures s'[a] <= s'[b] {
      if b == p {
        assert s[a] <= s[p];
      } else if a == p {
        assert s[p] <= s[p + 1] <= s[b];
      }
    }
  }

  /** The rank map of first ranks as update leaves it. */
  function NextMins(mins: map<int, int>, maxs: map<int, int>, f: int): map<int, int>
    requires f in mins && f in maxs
  {
    var m0 := if mins[f] == maxs[f] then mins - {f} else mins;
    m0[f + 1 := if f + 1 in mins then mins[f + 1] - 1 else maxs[f]]
  }

  /** The rank map of last ranks as update leaves it. */
  function NextMaxs(mins: map<int, int>, maxs: map<int, int>, f: int): map<int, int>
    requires f in mins && f in maxs
  {
    var x0 := if mins[f] == maxs[f] then maxs - {f} else maxs[f := maxs[f] - 1];
    if f + 1 in mins then x0 else x0[f + 1 := maxs[f]]
  }

  /** A run of any other value is untouched by raising the last element of `f`'s run. */
  lemma RunOther(s: seq<int>, lo: int, hi: int, f: int, a: int, b: int, g: int)
    requires Run(s, lo, hi, f) && Run(s, a, b, g) && g != f && g != f + 1
    ensures Run(s[hi - 1 := f + 1], a, b, g)
  {
  }

  /** `f`'s run loses its last rank. */
  lemma RunShrinks(s: seq<int>, lo: int, hi: int, f: int)
    requires SortedInts(s) && Run(s, lo, hi, f) && lo < hi
    ensures Run(s[hi - 1 := f + 1], lo, hi - 1, f)
  {
    assert s[lo - 1] <= s[hi - 2] <= s[hi - 1];
  }

  /** The run of `f + 1`, if any, gains the rank just before it. */
  lemma RunGrows(s: seq<int>, lo: int, hi: int, f: int, hi': int)
    requires SortedInts(s) && Run(s, lo, hi, f) && Run(s, hi + 1, hi', f + 1)
    ensures Run(s[hi - 1 := f + 1], hi, hi', f + 1)
  {
    if hi > 1 {
      assert s[hi - 2] <= s[hi - 1];
    }
  }

  /** Otherwise `f + 1` gets a run of one rank. */
  lemma RunNew(s: seq<int>, lo: int, hi: int, f: int)
    requires Run(s, lo, hi, f) && f + 1 !in s
    ensures Run(s[hi - 1 := f + 1], hi, hi, f + 1)
  {
    if hi < |s| {
      assert s[hi] != f + 1;
    }
  }

  /** After the update, the values present are those with a run. */
  lemma UpdateKeys(s: seq<int>, mins: map<int, int>, maxs: map<int, int>, f: int)
    requires SortedInts(s) && Buckets(s, mins, maxs) && f in mins
    ensures var s' := s[maxs[f] - 1 := f + 1];
            && (forall g :: g in NextMins(mins, maxs, f) <==> g in s')
            && (forall g :: g in NextMaxs(mins, maxs, f) <==> g in s')
  {
    forall g ensures (g in NextMins(mins, maxs, f) <==> g in s[maxs[f] - 1 := f + 1])
                     && (g in NextMaxs(mins, maxs, f) <==> g in s[maxs[f] - 1 := f + 1]) {
      UpdateKey(s, mins, maxs, f, g);
    }
  }

  /** One value: it has ranks after the update exactly when the updated vector holds it. */
  lemma UpdateKey(s: seq<int>, mins: map<int, int>, maxs: map<int, int>, f: int, g: int)
    requires SortedInts(s) && Buckets(s, mins, maxs) && f in mins
    ensures g in NextMins(mins, maxs, f) <==> g in s[maxs[f] - 1 := f + 1]
    ensures g in NextMaxs(mins, maxs, f) <==> g in s[maxs[f] - 1 := f + 1]
  {
    var p := maxs[f] - 1;
    var s' := s[p := f + 1];
    if g == f && mins[f] != maxs[f] {
      assert s'[maxs[f] - 2] == f;
    }
    if g == f && mins[f] == maxs[f] && g in s' {
      var k :| 0 <= k < |s'| && s'[k] == g;
      BucketWidth(s, mins, maxs, f, k);
    }
    if g != f && g != f + 1 && g in s {
      var k :| 0 <= k < |s| && s[k] == g;
      assert s'[k] == g;
    }
    if g != f && g != f + 1 && g in s' {
      var k :| 0 <= k < |s'| && s'[k] == g;
      assert s[k] == g;
    }
    if g == f + 1 {
      assert s'[p] == g;
    }
  }

  /** The rank maps as update leaves them describe the updated vector. */
  lemma UpdateBuckets(s: seq<int>, mins: map<int, int>, maxs: map<int, int>, f: int)
    requires SortedInts(s) && Buckets(s, mins, maxs) && f in mins
    ensures Buckets(s[maxs[f] - 1 := f + 1], NextMins(mins, maxs, f), NextMaxs(mins, maxs, f))
  {
    var s' := s[maxs[f] - 1 := f + 1];
    var mins', maxs' := NextMins(mins, maxs, f), NextMaxs(mins, maxs, f);
    UpdateKeys(s, mins, maxs, f);
    forall g | g in mins' && g in maxs' ensures Run(s', mins'[g], maxs'[g], g) {
      UpdateRun(s, mins, maxs, f, g);
    }
  }

  /** Every value with a rank range after the update has its run there. */
  lemma UpdateRun(s: seq<int>, mins: map<int, int>, maxs: map<int, int>, f: int, g: int)
    requires SortedInts(s) && Buckets(s, mins, maxs) && f in mins
    requires g in NextMins(mins, maxs, f) && g in NextMaxs(mins, maxs, f)
    ensures Run(s[maxs[f] - 1 := f + 1], NextMins(mins, maxs, f)[g], NextMaxs(mins, maxs, f)[g], g)
  {
    var mins', maxs' := NextMins(mins, maxs, f), NextMaxs(mins, maxs, f);
    if g == f {
      assert mins[f] != maxs[f] && mins'[g] == mins[f] && maxs'[g] == maxs[f] - 1;
      RunShrinks(s, mins[f], maxs[f], f);
    } else if g == f + 1 {
      if f + 1 in mins {
        NextRunStart(s, mins, maxs, f);
        assert mins'[g] == maxs[f] && maxs'[g] == maxs[f + 1];
        RunGrows(s, mins[f], maxs[f], f, maxs[f + 1]);
      } else {
        assert mins'[g] == maxs[f] && maxs'[g] == maxs[f];
        RunNew(s, mins[f], maxs[f], f);
      }
    } else {
      assert g in mins && g in maxs && mins'[g] == mins[g] && maxs'[g] == maxs[g];
      RunOther(s, mins[f], maxs[f], f, mins[g], maxs[g], g);
    }
  }

  /** Raising one item's frequency raises one rank of the sorted vector: same bag of values. */
  lemma UpdateBag(fr: seq<int>, fr': seq<int>, s: seq<int>, i: int, p: int, f: int)
    requires 0 <= i < |fr| && 0 <= p < |s| && fr[i] == f && s[p] == f
    requires fr' == fr[i := f + 1] && multiset(s) == multiset(fr)
    ensures multiset(s[p := f + 1]) == multiset(fr')
  {
    assert multiset(fr') == multiset(fr) - multiset{f} + multiset{f + 1};
    assert multiset(s[p := f + 1]) == multiset(s) - multiset{f} + multiset{f + 1};
  }
}
