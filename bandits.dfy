// Non-personalised multi-armed bandits over items: every item is an arm, one bandit
// is shared by all users, and a recommendation is an arm pulled among the items the
// user still has available. The random coins and samples are parameters.

module Bandits {
  import opened Common
  import opened Preferences
  import opened Recommender
  import opened Argmax
  import opened Basic
  import opened Distributions

  /** A value function: the effective score of arm `i` for user `u` given its value and pulls. */
  type ValueFunction = (int, int, Double, real) -> Double

  /** The four ways an epsilon-greedy arm folds a reward into its value. */
  datatype UpdateFunction = Stationary | NonStationary(alpha: real) | UseAll | Count

  /**
   * The update rule applied to (oldValue, reward, oldSum, increment, numTimes): the
   * running mean, an exponential average, a value shared with the other arms, a sum.
   */
  function Apply(f: UpdateFunction, oldValue: Double, reward: real, oldSum: Double, increment: real, numTimes: real): (r: Double)
    ensures !f.UseAll? && oldValue.Fin? ==> r.Fin?
    ensures f.NonStationary? && f.alpha == 0.0 && oldValue.Fin? ==> r == oldValue
    ensures f.NonStationary? && f.alpha == 1.0 && oldValue.Fin? ==> r == Fin(reward)
  {
    match f
    case Stationary =>
      if numTimes == 0.0 then Fin(reward) else Add(oldValue, Quot(Sub(Fin(reward), oldValue), Fin(numTimes)))
    case NonStationary(alpha) => Add(oldValue, Mul(Fin(alpha), Sub(Fin(reward), oldValue)))
    case UseAll => Quot(Add(Mul(oldValue, oldSum), Fin(reward)), Add(oldSum, Fin(increment)))
    case Count => Add(oldValue, Fin(reward))
  }

  /** The value an arm reaches from 0 after the rewards `rs`, for the rules that only look at the arm. */
  function ArmValue(f: UpdateFunction, rs: seq<real>): (v: Double)
    requires !f.UseAll?
    ensures v.Fin?
  {
    if rs == [] then Fin(0.0)
    else
      var n := |rs| - 1;
      Apply(f, ArmValue(f, rs[..n]), rs[n], Fin(0.0), rs[n], (n + 1) as real)
  }

  /** The stationary rule keeps the arm at the mean of its rewards. */
  lemma {:induction false} StationaryMean(rs: seq<real>)
    ensures ArmValue(Stationary, rs) == Fin(Mean(rs))
  {
    if rs != [] {
      var n := |rs| - 1;
      StationaryMean(rs[..n]);
      MeanAppend(rs[..n], rs[n]);
      assert rs[..n] + [rs[n]] == rs;
    }
  }

  /** The count rule keeps the arm at the sum of its rewards. */
  lemma {:induction false} CountSum(rs: seq<real>)
    ensures ArmValue(Count, rs) == Fin(RealSum(rs))
  {
    if rs != [] {
      var n := |rs| - 1;
      CountSum(rs[..n]);
    }
  }

  /** The shared-value rule turns an arm into NaN when its first reward, from the initial state, is 0. */
  lemma UseAllFirstZero()
    ensures Apply(UseAll, Fin(0.0), 0.0, Fin(0.0), 0.0, 1.0) == NaN
  {
  }

  /** The sum of the finite values of `vs`. */
  function FinSum(vs: seq<Double>): real
  {
    if vs == [] then 0.0
    else FinSum(vs[..|vs| - 1]) + (if vs[|vs| - 1].Fin? then vs[|vs| - 1].r else 0.0)
  }

  lemma {:induction false} FinSumUpdate(vs: seq<Double>, i: int, x: Double)
    requires 0 <= i < |vs| && vs[i].Fin? && x.Fin?
    ensures FinSum(vs[i := x]) == FinSum(vs) - vs[i].r + x.r
  {
    var n := |vs| - 1;
    if i < n {
      FinSumUpdate(vs[..n], i, x);
      assert vs[i := x][..n] == vs[..n][i := x];
    } else {
      assert vs[i := x][..n] == vs[..n];
    }
  }

  /**
   * The bookkeeping of an epsilon-greedy bandit: each arm's pulls count its rewards, its
   * value is its rule applied to them (except for the shared-value rule), and the sum
   * of values is exact as long as it is a number (it is, except with the shared-value rule).
   */
  ghost predicate Arms(f: UpdateFunction, vals: seq<Double>, times: seq<real>, sum: Double, rewards: seq<seq<real>>)
  {
    && |vals| == |times| == |rewards|
    && (forall i :: 0 <= i < |times| ==> times[i] == |rewards[i]| as real)
    && (!f.UseAll? ==> forall i :: 0 <= i < |vals| ==> vals[i] == ArmValue(f, rewards[i]))
    && (!f.UseAll? ==> sum.Fin?)
    && (sum.Fin? ==> (forall i :: 0 <= i < |vals| ==> vals[i].Fin?) && sum.r == FinSum(vals))
  }

  lemma {:induction false} FinSumZeros(n: nat)
    ensures FinSum(seq(n, _ => Fin(0.0))) == 0.0
  {
    if n > 0 {
      assert seq(n, _ => Fin(0.0))[..n - 1] == seq(n - 1, _ => Fin(0.0));
      FinSumZeros(n - 1);
    }
  }

  lemma ArmsInit(f: UpdateFunction, n: nat)
    ensures Arms(f, seq(n, _ => Fin(0.0)), seq(n, _ => 0.0), Fin(0.0), seq(n, _ => []))
  {
    FinSumZeros(n);
  }

  /** One update of arm `i` with reward `v`, as both epsilon-greedy bandits perform it. */
  lemma ArmsStep(f: UpdateFunction, vals: seq<Double>, times: seq<real>, sum: Double, rewards: seq<seq<real>>, i: int, v: real)
    requires Arms(f, vals, times, sum, rewards) && 0 <= i < |vals|
    ensures var x := Apply(f, vals[i], v, sum, v, times[i] + 1.0);
            Arms(f, vals[i := x], times[i := times[i] + 1.0], Add(sum, Sub(x, vals[i])), rewards[i := rewards[i] + [v]])
  {
    var x := Apply(f, vals[i], v, sum, v, times[i] + 1.0);
    var sum' := Add(sum, Sub(x, vals[i]));
    if !f.UseAll? {
      var rs := rewards[i] + [v];
      assert rs[..|rs| - 1] == rewards[i];
      assert ArmValue(f, rs) == x;
    }
    if sum'.Fin? {
      FinSumUpdate(vals, i, x);
    }
  }

  /** The score the exploit step gives each available arm. */
  function ArmScores(u: int, available: seq<int>, valF: ValueFunction, vals: seq<Double>, times: seq<real>): (ss: seq<Double>)
    requires |vals| == |times| && forall k :: 0 <= k < |available| ==> 0 <= available[k] < |vals|
    ensures |ss| == |available|
    ensures forall k :: 0 <= k < |available| ==> ss[k] == valF(u, available[k], vals[available[k]], times[available[k]])
  {
    seq(|available|, k requires 0 <= k < |available| => valF(u, available[k], vals[available[k]], times[available[k]]))
  }

  /** Whether the exploit scan has some number to compare (otherwise the tie draw throws). */
  predicate Scorable(ss: seq<Double>)
  {
    exists k :: 0 <= k < |ss| && ss[k] != NaN
  }

  /** Whether every candidate is an arm of a bandit with `n` arms. */
  predicate AllArms(available: seq<int>, n: int)
  {
    forall k :: 0 <= k < |available| ==> 0 <= available[k] < n
  }

  /**
   * The arm update shared by both epsilon-greedy bandits: one more pull of arm `i`, its
   * value moved by the rule, and the new sum of values returned.
   */
  method PullArm(f: UpdateFunction, values: array<Double>, numTimes: array<real>, sumValues: Double, i: int, value: real)
    returns (newSum: Double)
    requires values.Length == numTimes.Length && 0 <= i < values.Length
    modifies values, numTimes
    ensures values[..] == old(values[..])[i := Apply(f, old(values[i]), value, sumValues, value, old(numTimes[i]) + 1.0)]
    ensures numTimes[..] == old(numTimes[..])[i := old(numTimes[i]) + 1.0]
    ensures newSum == Add(sumValues, Sub(values[i], old(values[i])))
  {
    var oldSum := sumValues;
    var increment := value;
    var nTimes := numTimes[i] + 1.0;
    var oldVal := values[i];
    numTimes[i] := numTimes[i] + 1.0;
    var newVal := Apply(f, oldVal, value, oldSum, increment, nTimes);
    values[i] := newVal;
    newSum := Add(sumValues, Sub(newVal, oldVal));
  }

  /** Epsilon-greedy: explore with a fixed probability, otherwise pull a best arm. */
  class EpsilonGreedyItemBandit {
    const epsilon: real
    const numItems: nat
    const values: array<Double>
    const numTimes: array<real>
    var sumValues: Double
    const updateFunction: UpdateFunction
    /** The rewards each arm received, in order. */
    ghost var rewards: seq<seq<real>>
    ghost var Repr: set<object>

    ghost predicate Valid()
      reads this, Repr
    {
      && Repr == {this, values, numTimes}
      && values.Length == numItems && numTimes.Length == numItems
      && Arms(updateFunction, values[..], numTimes[..], sumValues, rewards)
    }

    constructor (epsilon: real, numItems: nat, updateFunction: UpdateFunction)
      ensures Valid() && fresh(Repr - {this})
      ensures this.epsilon == epsilon && this.numItems == numItems && this.updateFunction == updateFunction
      ensures rewards == seq(numItems, _ => [])
      ensures values[..] == seq(numItems, _ => Fin(0.0)) && sumValues == Fin(0.0)
    {
      this.epsilon := epsilon;
      this.numItems := numItems;
      this.updateFunction := updateFunction;
      sumValues := Fin(0.0);
      values := new Double[numItems](_ => Fin(0.0));
      numTimes := new real[numItems](_ => 0.0);
      rewards := seq(numItems, _ => []);
      new;
      Repr := {this, values, numTimes};
      assert values[..] == seq(numItems, _ => Fin(0.0)) && numTimes[..] == seq(numItems, _ => 0.0);
      ArmsInit(updateFunction, numItems);
    }

    /**
     * next(u, available, valF): -1 for no arm, the only arm when there is one, a random
     * arm when the coin falls under epsilon, otherwise a best-scored arm.
     */
    method Next(u: int, available: seq<int>, valF: ValueFunction, coin: real) returns (r: int)
      requires Valid() && AllArms(available, numItems)
      requires |available| > 1 && coin >= epsilon ==> Scorable(ArmScores(u, available, valF, values[..], numTimes[..]))
      ensures r == -1 <==> available == []
      ensures available != [] ==> r in available
      ensures |available| == 1 ==> r == available[0]
      ensures |available| > 1 && coin >= epsilon ==> Maximises(available, ArmScores(u, available, valF, values[..], numTimes[..]), r)
    {
      if available == [] {
        return -1;
      }
      if |available| == 1 {
        return available[0];
      }
      if coin < epsilon {
        r := PickAny(available);
      } else {
        r := BestOf(available, ArmScores(u, available, valF, values[..], numTimes[..]));
      }
    }

    /** update(i, value): one more pull of arm `i`, its value moved by the rule, the sum kept. */
    method Update(i: int, value: real)
      requires Valid() && 0 <= i < numItems
      modifies this, values, numTimes
      ensures Valid()
      ensures rewards == old(rewards)[i := old(rewards)[i] + [value]]
      ensures values[..] == old(values[..])[i := Apply(updateFunction, old(values[i]), value, old(sumValues), value, old(numTimes[i]) + 1.0)]
      ensures numTimes[..] == old(numTimes[..])[i := old(numTimes[i]) + 1.0]
      ensures sumValues == Add(old(sumValues), Sub(values[i], old(values[i])))
    {
      ArmsStep(updateFunction, values[..], numTimes[..], sumValues, rewards, i, value);
      sumValues := PullArm(updateFunction, values, numTimes, sumValues, i, value);
      rewards := rewards[i := rewards[i] + [value]];
    }
  }

  /** min(1, alpha * numItems / numIter): the decaying exploration probability. */
  function EpsilonSchedule(alpha: real, numItems: nat, numIter: int): (e: real)
    requires numIter >= 1
    ensures e <= 1.0
    ensures alpha >= 0.0 ==> e >= 0.0
  {
    var x := alpha * (numItems as real) / (numIter as real);
    if x < 1.0 then x else 1.0
  }

  /** With a non-negative alpha, more iterations never raise the exploration probability. */
  lemma EpsilonDecreasing(alpha: real, numItems: nat, n: int, m: int)
    requires alpha >= 0.0 && 1 <= n <= m
    ensures EpsilonSchedule(alpha, numItems, m) <= EpsilonSchedule(alpha, numItems, n)
  {
    var a := alpha * (numItems as real);
    assert a >= 0.0;
    assert a / (m as real) <= a / (n as real) by {
      assert a / (m as real) * (m as real) == a;
      assert a / (n as real) * (n as real) == a;
      assert a / (m as real) * (n as real) <= a / (m as real) * (m as real);
    }
  }

  /** Epsilon-t-greedy: as epsilon-greedy, with epsilon shrinking as updates accumulate. */
  class EpsilonTGreedyItemBandit {
    const alpha: real
    const numItems: nat
    const values: array<Double>
    const numTimes: array<real>
    var sumValues: Double
    var numIter: int
    const updateFunction: UpdateFunction
    ghost var rewards: seq<seq<real>>
    ghost var Repr: set<object>

    ghost predicate Valid()
      reads this, Repr
    {
      && Repr == {this, values, numTimes}
      && values.Length == numItems && numTimes.Length == numItems
      && numIter >= 1
      && Arms(updateFunction, values[..], numTimes[..], sumValues, rewards)
    }

    constructor (alpha: real, numItems: nat, updateFunction: UpdateFunction)
      ensures Valid() && fresh(Repr - {this})
      ensures this.alpha == alpha && this.numItems == numItems && this.updateFunction == updateFunction
      ensures numIter == 1 && rewards == seq(numItems, _ => [])
      ensures values[..] == seq(numItems, _ => Fin(0.0)) && sumValues == Fin(0.0)
    {
      this.alpha := alpha;
      this.numItems := numItems;
      this.updateFunction := updateFunction;
      sumValues := Fin(0.0);
      numIter := 1;
      values := new Double[numItems](_ => Fin(0.0));
      numTimes := new real[numItems](_ => 0.0);
      rewards := seq(numItems, _ => []);
      new;
      Repr := {this, values, numTimes};
      assert values[..] == seq(numItems, _ => Fin(0.0)) && numTimes[..] == seq(numItems, _ => 0.0);
      ArmsInit(updateFunction, numItems);
    }

    /** The current exploration probability. */
    function Epsilon(): (e: real)
      requires Valid()
      reads this, Repr
      ensures e <= 1.0 && (alpha >= 0.0 ==> e >= 0.0)
    {
      EpsilonSchedule(alpha, numItems, numIter)
    }

    /** next(u, available, valF), exploring when the coin falls under the current epsilon. */
    method Next(u: int, available: seq<int>, valF: ValueFunction, coin: real) returns (r: int)
      requires Valid() && AllArms(available, numItems)
      requires |available| > 1 && coin >= Epsilon() ==> Scorable(ArmScores(u, available, valF, values[..], numTimes[..]))
      ensures r == -1 <==> available == []
      ensures available != [] ==> r in available
      ensures |available| == 1 ==> r == available[0]
      ensures |available| > 1 && coin >= Epsilon() ==> Maximises(available, ArmScores(u, available, valF, values[..], numTimes[..]), r)
    {
      if available == [] {
        return -1;
      }
      if |available| == 1 {
        return available[0];
      }
      var epsilon := EpsilonSchedule(alpha, numItems, numIter);
      if coin < epsilon {
        r := PickAny(available);
      } else {
        r := BestOf(available, ArmScores(u, available, valF, values[..], numTimes[..]));
      }
    }

    /** update(i, value): as epsilon-greedy, and one more iteration. */
    method Update(i: int, value: real)
      requires Valid() && 0 <= i < numItems
      modifies this, values, numTimes
      ensures Valid()
      ensures numIter == old(numIter) + 1
      ensures alpha >= 0.0 ==> EpsilonSchedule(alpha, numItems, numIter) <= EpsilonSchedule(alpha, numItems, old(numIter))
      ensures rewards == old(rewards)[i := old(rewards)[i] + [value]]
      ensures values[..] == old(values[..])[i := Apply(updateFunction, old(values[i]), value, old(sumValues), value, old(numTimes[i]) + 1.0)]
      ensures numTimes[..] == old(numTimes[..])[i := old(numTimes[i]) + 1.0]
      ensures sumValues == Add(old(sumValues), Sub(values[i], old(values[i])))
    {
      ArmsStep(updateFunction, values[..], numTimes[..], sumValues, rewards, i, value);
      sumValues := PullArm(updateFunction, values, numTimes, sumValues, i, value);
      numIter, rewards := numIter + 1, rewards[i := rewards[i] + [value]];
      if alpha >= 0.0 {
        EpsilonDecreasing(alpha, numItems, old(numIter), numIter);
      }
    }
  }

  /** The total number of rewards over all arms. */
  function Pulls(rewards: seq<seq<real>>): nat
  {
    if rewards == [] then 0 else Pulls(rewards[..|rewards| - 1]) + |rewards[|rewards| - 1]|
  }

  lemma {:induction false} PullsUpdate(rewards: seq<seq<real>>, i: int, v: real)
    requires 0 <= i < |rewards|
    ensures Pulls(rewards[i := rewards[i] + [v]]) == Pulls(rewards) + 1
  {
    var n := |rewards| - 1;
    if i < n {
      assert rewards[i := rewards[i] + [v]][..n] == rewards[..n][i := rewards[i] + [v]];
      PullsUpdate(rewards[..n], i, v);
    } else {
      assert rewards[i := rewards[i] + [v]][..n] == rewards[..n];
    }
  }

  lemma {:induction false} PullsEmpty(n: nat)
    ensures Pulls(seq<seq<real>>(n, _ => [])) == 0
  {
    if n > 0 {
      var none: seq<seq<real>> := seq(n, _ => []);
      assert none[..n - 1] == seq(n - 1, _ => []);
      PullsEmpty(n - 1);
    }
  }

  /** The score UCB1 gives arm `i`: +Infinity untried, otherwise its mean plus the exploration bonus. */
  function UcbScore(u: int, i: int, valF: ValueFunction, bonus: (int, real) -> real, vals: seq<real>, times: seq<real>, numIter: int): Double
    requires 0 <= i < |vals| == |times|
  {
    if times[i] == 0.0 then PosInf else valF(u, i, Fin(vals[i] + bonus(numIter, times[i])), times[i])
  }

  function UcbScores(u: int, available: seq<int>, valF: ValueFunction, bonus: (int, real) -> real, vals: seq<real>, times: seq<real>, numIter: int): (ss: seq<Double>)
    requires |vals| == |times| && AllArms(available, |vals|)
    ensures |ss| == |available|
    ensures forall k :: 0 <= k < |available| ==> ss[k] == UcbScore(u, available[k], valF, bonus, vals, times, numIter)
  {
    seq(|available|, k requires 0 <= k < |available| => UcbScore(u, available[k], valF, bonus, vals, times, numIter))
  }

  /** Each arm's value is the mean of its rewards, its count their number, and the iterations their total. */
  ghost predicate MeanArms(vals: seq<real>, times: seq<real>, numIter: int, rewards: seq<seq<real>>)
  {
    && |vals| == |times| == |rewards|
    && (forall i :: 0 <= i < |vals| ==> vals[i] == Mean(rewards[i]) && times[i] == |rewards[i]| as real)
    && numIter == Pulls(rewards)
  }

  /** The incremental-mean step of UCB1 keeps each arm at the mean of its rewards. */
  lemma MeanArmsStep(vals: seq<real>, times: seq<real>, numIter: int, rewards: seq<seq<real>>, i: int, v: real,
                     vals': seq<real>, times': seq<real>, rewards': seq<seq<real>>)
    requires MeanArms(vals, times, numIter, rewards) && 0 <= i < |vals|
    requires times' == times[i := times[i] + 1.0]
    requires vals' == vals[i := vals[i] + 1.0 / (times[i] + 1.0) * (v - vals[i])]
    requires rewards' == rewards[i := rewards[i] + [v]]
    ensures MeanArms(vals', times', numIter + 1, rewards')
  {
    var t := times[i] + 1.0;
    MeanStep(rewards[i], v);
    forall j | 0 <= j < |vals'| ensures vals'[j] == Mean(rewards'[j]) && times'[j] == |rewards'[j]| as real {
      if j != i {
        assert vals'[j] == vals[j] && rewards'[j] == rewards[j];
      }
    }
    PullsUpdate(rewards, i, v);
  }

  /** The running mean moved by 1 / (count + 1) of the distance to a new reward is the mean with it. */
  lemma MeanStep(s: seq<real>, v: real)
    ensures Mean(s) + 1.0 / (|s| as real + 1.0) * (v - Mean(s)) == Mean(s + [v])
  {
    MeanAppend(s, v);
    var t := |s| as real + 1.0;
    assert 1.0 / t * (v - Mean(s)) == (v - Mean(s)) / t;
  }

  /** A maximiser of scores that include +Infinity scores +Infinity itself. */
  lemma MaximiserInfinite(items: seq<int>, ss: seq<Double>, r: int, j: int)
    requires |items| == |ss| && Maximises(items, ss, r) && 0 <= j < |ss| && ss[j] == PosInf
    ensures exists k :: 0 <= k < |items| && items[k] == r && ss[k] == PosInf
  {
    var k :| 0 <= k < |items| && items[k] == r && ss[k] != NaN && forall j :: 0 <= j < |ss| ==> !Greater(ss[j], ss[k]);
    assert !Greater(ss[j], ss[k]);
  }

  /** While some available arm is untried, the chosen arm is an untried one. */
  lemma UntriedFirst(u: int, available: seq<int>, valF: ValueFunction, bonus: (int, real) -> real,
                     vals: seq<real>, times: seq<real>, numIter: int, r: int)
    requires |vals| == |times| && AllArms(available, |vals|)
    requires Maximises(available, UcbScores(u, available, valF, bonus, vals, times, numIter), r)
    requires exists x :: x in available && times[x] == 0.0
    ensures UcbScore(u, r, valF, bonus, vals, times, numIter) == PosInf
  {
    var ss := UcbScores(u, available, valF, bonus, vals, times, numIter);
    var x :| x in available && times[x] == 0.0;
    var j :| 0 <= j < |available| && available[j] == x;
    MaximiserInfinite(available, ss, r, j);
    var k :| 0 <= k < |available| && available[k] == r && ss[k] == PosInf;
  }

  /** UCB1: pull the arm of highest upper confidence bound, untried arms first. */
  class UCB1ItemBandit {
    const numItems: nat
    const values: array<real>
    const numTimes: array<real>
    var numIter: int
    ghost var rewards: seq<seq<real>>
    ghost var Repr: set<object>

    ghost predicate Valid()
      reads this, Repr
    {
      && Repr == {this, values, numTimes}
      && values.Length == numItems && numTimes.Length == numItems && values != numTimes
      && MeanArms(values[..], numTimes[..], numIter, rewards)
    }

    constructor (numItems: nat)
      ensures Valid() && fresh(Repr - {this}) && this.numItems == numItems
      ensures numIter == 0 && rewards == seq(numItems, _ => [])
    {
      this.numItems := numItems;
      values := new real[numItems](_ => 0.0);
      numTimes := new real[numItems](_ => 0.0);
      numIter := 0;
      rewards := seq(numItems, _ => []);
      new;
      Repr := {this, values, numTimes};
      PullsEmpty(numItems);
    }

    /**
     * next(u, available, valF): -1 for no arm, the only arm when there is one, otherwise
     * a best-scored arm; `bonus(numIter, pulls)` stands for sqrt(2 ln(numIter + 1) / pulls).
     */
    method Next(u: int, available: seq<int>, valF: ValueFunction, bonus: (int, real) -> real) returns (r: int)
      requires Valid() && AllArms(available, numItems)
      requires |available| > 1 ==> Scorable(UcbScores(u, available, valF, bonus, values[..], numTimes[..], numIter))
      ensures r == -1 <==> available == []
      ensures available != [] ==> r in available
      ensures |available| == 1 ==> r == available[0]
      ensures |available| > 1 ==> Maximises(available, UcbScores(u, available, valF, bonus, values[..], numTimes[..], numIter), r)
      ensures |available| > 1 && (exists x :: x in available && numTimes[x] == 0.0)
              ==> UcbScore(u, r, valF, bonus, values[..], numTimes[..], numIter) == PosInf
    {
      if available == [] {
        return -1;
      }
      if |available| == 1 {
        return available[0];
      }
      ghost var vals, times := values[..], numTimes[..];
      var ss := UcbScores(u, available, valF, bonus, values[..], numTimes[..], numIter);
      r := BestOf(available, ss);
      if exists x :: x in available && numTimes[x] == 0.0 {
        UntriedFirst(u, available, valF, bonus, vals, times, numIter, r);
      }
    }

    /** update(i, value): one more pull of arm `i`, whose value stays the mean of its rewards. */
    method Update(i: int, value: real)
      requires Valid() && 0 <= i < numItems
      modifies this, values, numTimes
      ensures Valid()
      ensures rewards == old(rewards)[i := old(rewards)[i] + [value]]
      ensures numIter == old(numIter) + 1
      ensures numTimes[..] == old(numTimes[..])[i := old(numTimes[i]) + 1.0]
      ensures values[..] == old(values[..])[i := Mean(rewards[i])]
    {
      ghost var vals, times := values[..], numTimes[..];
      assert vals[i] == values[i] && times[i] == numTimes[i];
      var t := numTimes[i] + 1.0;
      var mean := values[i] + 1.0 / t * (value - values[i]);
      assert mean == vals[i] + 1.0 / (times[i] + 1.0) * (value - vals[i]);
      numTimes[i] := t;
      values[i] := mean;
      numIter, rewards := numIter + 1, rewards[i := rewards[i] + [value]];
      assert numTimes[..] == times[i := t];
      assert values[..] == vals[i := mean];
      MeanArmsStep(vals, times, old(numIter), old(rewards), i, value, values[..], numTimes[..], rewards);
    }
  }

  /** Thompson sampling: each arm holds a Beta posterior; pull the arm of best sample. */
  class ThompsonSamplingItemBandit {
    const numItems: nat
    const betas: array<BetaDistribution>
    /** The initial parameters of each arm. */
    ghost const alpha0: seq<real>
    ghost const beta0: seq<real>
    ghost var rewards: seq<seq<real>>
    ghost const Arms: set<BetaDistribution>
    ghost var Repr: set<object>

    ghost predicate Valid()
      reads this, Repr
    {
      && Repr == {this, betas} + Arms
      && betas.Length == numItems && |alpha0| == numItems && |beta0| == numItems && |rewards| == numItems
      && (forall k :: 0 <= k < numItems ==> betas[k] in Arms)
      && (forall a, b :: 0 <= a < b < numItems ==> betas[a] != betas[b])
      && (forall k :: 0 <= k < numItems ==>
            betas[k].alpha == alpha0[k] + RealSum(rewards[k])
            && betas[k].beta == beta0[k] + |rewards[k]| as real - RealSum(rewards[k]))
    }

    /** One Beta(alphas[k], betas[k]) per arm (the other constructors pass (1, 1) or one pair for all). */
    constructor (initialAlphas: seq<real>, initialBetas: seq<real>)
      requires |initialAlphas| == |initialBetas|
      ensures Valid() && fresh(Repr - {this})
      ensures numItems == |initialAlphas| && alpha0 == initialAlphas && beta0 == initialBetas
      ensures rewards == seq(numItems, _ => [])
    {
      var arms, objs := MakeArms(initialAlphas, initialBetas);
      numItems := |initialAlphas|;
      betas := arms;
      alpha0 := initialAlphas;
      beta0 := initialBetas;
      rewards := seq(|initialAlphas|, _ => []);
      Arms := objs;
      Repr := {this, arms} + objs;
    }

    static method MakeArms(alphas: seq<real>, betas: seq<real>) returns (arms: array<BetaDistribution>, ghost objs: set<BetaDistribution>)
      requires |alphas| == |betas|
      ensures fresh(arms) && fresh(objs) && arms.Length == |alphas|
      ensures forall k :: 0 <= k < arms.Length ==> arms[k] in objs && arms[k].alpha == alphas[k] && arms[k].beta == betas[k]
      ensures forall a, b :: 0 <= a < b < arms.Length ==> arms[a] != arms[b]
    {
      var made: seq<BetaDistribution> := [];
      objs := {};
      while |made| < |alphas|
        invariant |made| <= |alphas| && fresh(objs)
        invariant forall k :: 0 <= k < |made| ==> made[k] in objs && made[k].alpha == alphas[k] && made[k].beta == betas[k]
        invariant forall a, b :: 0 <= a < b < |made| ==> made[a] != made[b]
      {
        var arm := new BetaDistribution(alphas[|made|], betas[|made|]);
        made := made + [arm];
        objs := objs + {arm};
      }
      arms := new BetaDistribution[|made|](k requires 0 <= k < |made| => made[k]);
    }

    /** next(u, available, valF): `sample(i)` is the draw from arm `i`'s Beta distribution. */
    method Next(u: int, available: seq<int>, valF: ValueFunction, sample: int -> real) returns (r: int)
      requires Valid() && AllArms(available, numItems)
      requires |available| > 1 ==> Scorable(SampleScores(u, available, valF, sample))
      ensures r == -1 <==> available == []
      ensures available != [] ==> r in available
      ensures |available| == 1 ==> r == available[0]
      ensures |available| > 1 ==> Maximises(available, SampleScores(u, available, valF, sample), r)
    {
      if available == [] {
        return -1;
      }
      if |available| == 1 {
        return available[0];
      }
      r := BestOf(available, SampleScores(u, available, valF, sample));
    }

    /** update(i, value): the reward counts as `value` successes and `1 - value` failures of arm `i`. */
    method Update(i: int, value: real)
      requires Valid() && 0 <= i < numItems
      modifies betas[i], this
      ensures Valid()
      ensures rewards == old(rewards)[i := old(rewards)[i] + [value]]
      ensures betas[i].alpha + betas[i].beta == old(betas[i].alpha + betas[i].beta) + 1.0
      ensures forall k :: 0 <= k < numItems && k != i ==> betas[k].alpha == old(betas[k].alpha) && betas[k].beta == old(betas[k].beta)
    {
      betas[i].UpdateAdd(value, 1.0 - value);
      ghost var rs := rewards[i] + [value];
      assert rs[..|rs| - 1] == rewards[i];
      rewards := rewards[i := rs];
    }
  }

  function SampleScores(u: int, available: seq<int>, valF: ValueFunction, sample: int -> real): (ss: seq<Double>)
    ensures |ss| == |available|
    ensures forall k :: 0 <= k < |available| ==> ss[k] == valF(u, available[k], Fin(sample(available[k])), 0.0)
  {
    seq(|available|, k requires 0 <= k < |available| => valF(u, available[k], Fin(sample(available[k])), 0.0))
  }

  /** One of the four item bandits. */
  datatype ItemBandit =
    | EpsilonGreedy(eg: EpsilonGreedyItemBandit)
    | EpsilonTGreedy(et: EpsilonTGreedyItemBandit)
    | UCB1(ucb: UCB1ItemBandit)
    | ThompsonSampling(ts: ThompsonSamplingItemBandit)

  function Obj(b: ItemBandit): object
  {
    match b
    case EpsilonGreedy(x) => x
    case EpsilonTGreedy(x) => x
    case UCB1(x) => x
    case ThompsonSampling(x) => x
  }

  ghost function BanditRepr(b: ItemBandit): set<object>
    reads Obj(b)
  {
    match b
    case EpsilonGreedy(x) => x.Repr
    case EpsilonTGreedy(x) => x.Repr
    case UCB1(x) => x.Repr
    case ThompsonSampling(x) => x.Repr
  }

  ghost predicate BanditValid(b: ItemBandit)
    reads Obj(b), BanditRepr(b)
  {
    match b
    case EpsilonGreedy(x) => x.Valid()
    case EpsilonTGreedy(x) => x.Valid()
    case UCB1(x) => x.Valid()
    case ThompsonSampling(x) => x.Valid()
  }

  function NumArms(b: ItemBandit): nat
  {
    match b
    case EpsilonGreedy(x) => x.numItems
    case EpsilonTGreedy(x) => x.numItems
    case UCB1(x) => x.numItems
    case ThompsonSampling(x) => x.numItems
  }

  /** The rewards each arm of the bandit received, in order. */
  ghost function Rewards(b: ItemBandit): seq<seq<real>>
    reads Obj(b)
  {
    match b
    case EpsilonGreedy(x) => x.rewards
    case EpsilonTGreedy(x) => x.rewards
    case UCB1(x) => x.rewards
    case ThompsonSampling(x) => x.rewards
  }

  lemma BanditShape(b: ItemBandit)
    requires BanditValid(b)
    ensures |Rewards(b)| == NumArms(b)
    ensures forall o: object :: o in BanditRepr(b) ==> !(o is InteractiveRecommender) && !(o is PreferenceStore)
    ensures Obj(b) in BanditRepr(b)
  {
  }

  /** When every candidate is an arm and the bandit's exploit step has a number to compare, as its own `next` demands. */
  ghost predicate Decides(b: ItemBandit, u: int, available: seq<int>, valF: ValueFunction, coin: real, bonus: (int, real) -> real, sample: int -> real)
    reads Obj(b), BanditRepr(b)
    requires BanditValid(b)
  {
    AllArms(available, NumArms(b)) &&
    match b
    case EpsilonGreedy(x) =>
      |available| > 1 && coin >= x.epsilon ==> Scorable(ArmScores(u, available, valF, x.values[..], x.numTimes[..]))
    case EpsilonTGreedy(x) =>
      |available| > 1 && coin >= x.Epsilon() ==> Scorable(ArmScores(u, available, valF, x.values[..], x.numTimes[..]))
    case UCB1(x) =>
      |available| > 1 ==> Scorable(UcbScores(u, available, valF, bonus, x.values[..], x.numTimes[..], x.numIter))
    case ThompsonSampling(x) =>
      |available| > 1 ==> Scorable(SampleScores(u, available, valF, sample))
  }

  /**
   * What each kind's next promises beyond membership: the exploit branch of both
   * epsilon-greedy bandits, UCB1 and Thompson sampling all return a maximiser of their
   * own scores, and UCB1 an untried arm while there is one.
   */
  ghost predicate Chooses(b: ItemBandit, u: int, available: seq<int>, valF: ValueFunction, coin: real, bonus: (int, real) -> real, sample: int -> real, r: int)
    reads Obj(b), BanditRepr(b)
    requires BanditValid(b) && AllArms(available, NumArms(b))
  {
    match b
    case EpsilonGreedy(x) =>
      |available| > 1 && coin >= x.epsilon ==> Maximises(available, ArmScores(u, available, valF, x.values[..], x.numTimes[..]), r)
    case EpsilonTGreedy(x) =>
      |available| > 1 && coin >= x.Epsilon() ==> Maximises(available, ArmScores(u, available, valF, x.values[..], x.numTimes[..]), r)
    case UCB1(x) =>
      && (|available| > 1 ==> Maximises(available, UcbScores(u, available, valF, bonus, x.values[..], x.numTimes[..], x.numIter), r))
      && (|available| > 1 && (exists y :: y in available && x.numTimes[y] == 0.0)
          ==> 0 <= r < x.numItems && UcbScore(u, r, valF, bonus, x.values[..], x.numTimes[..], x.numIter) == PosInf)
    case ThompsonSampling(x) =>
      |available| > 1 ==> Maximises(available, SampleScores(u, available, valF, sample), r)
  }

  /** The bandit's next: `coin`, `bonus` and `sample` are the random draws and the maths each kind uses. */
  method Pick(b: ItemBandit, u: int, available: seq<int>, valF: ValueFunction, coin: real, bonus: (int, real) -> real, sample: int -> real)
    returns (r: int)
    requires BanditValid(b) && Decides(b, u, available, valF, coin, bonus, sample)
    ensures r == -1 <==> available == []
    ensures available != [] ==> r in available
    ensures |available| == 1 ==> r == available[0]
    ensures Chooses(b, u, available, valF, coin, bonus, sample, r)
  {
    match b
    case EpsilonGreedy(x) => r := x.Next(u, available, valF, coin);
    case EpsilonTGreedy(x) => r := x.Next(u, available, valF, coin);
    case UCB1(x) => r := x.Next(u, available, valF, bonus);
    case ThompsonSampling(x) => r := x.Next(u, available, valF, sample);
  }

  /** The bandit's update(i, value). */
  method Pull(b: ItemBandit, i: int, value: real)
    requires BanditValid(b) && 0 <= i < NumArms(b)
    modifies BanditRepr(b)
    ensures BanditValid(b) && BanditRepr(b) == old(BanditRepr(b))
    ensures Rewards(b) == old(Rewards(b))[i := old(Rewards(b))[i] + [value]]
  {
    match b
    case EpsilonGreedy(x) => x.Update(i, value);
    case EpsilonTGreedy(x) => x.Update(i, value);
    case UCB1(x) => x.Update(i, value);
    case ThompsonSampling(x) => x.Update(i, value);
  }

  /** A recommender that asks one item bandit, shared by every user, for the next item. */
  class ItemBanditRecommender {
    const base: InteractiveRecommender
    const bandit: ItemBandit
    const valF: ValueFunction

    ghost predicate Valid()
      reads this, base, base.trainData, Obj(bandit), BanditRepr(bandit)
    {
      && base.Valid() && BanditValid(bandit)
      && NumArms(bandit) == base.numItems
      && base !in BanditRepr(bandit) && base.trainData !in BanditRepr(bandit)
    }

    constructor (base: InteractiveRecommender, bandit: ItemBandit, valF: ValueFunction)
      requires base.Valid() && BanditValid(bandit) && NumArms(bandit) == base.numItems
      ensures Valid() && this.base == base && this.bandit == bandit && this.valF == valF
    {
      BanditShape(bandit);
      this.base := base;
      this.bandit := bandit;
      this.valF := valF;
    }

    /** next(u): the bandit's choice among exactly the user's available items. */
    method Next(u: int, coin: real, bonus: (int, real) -> real, sample: int -> real) returns (r: int)
      requires Valid() && 0 <= u < |base.availability|
      requires Decides(bandit, u, base.availability[u], valF, coin, bonus, sample)
      ensures r == -1 <==> base.availability[u] == []
      ensures r != -1 ==> r in base.availability[u]
      ensures |base.availability[u]| == 1 ==> r == base.availability[u][0]
      ensures Chooses(bandit, u, base.availability[u], valF, coin, bonus, sample, r)
    {
      var available := base.availability[u];
      assert forall k :: 0 <= k < |available| ==> available[k] in available;
      r := Pick(bandit, u, available, valF, coin, bonus, sample);
    }

    /** updateMethod(u, i, v): arm `i` is rewarded with `v`, whoever the user. */
    method Record(u: int, i: int, v: real)
      requires Valid() && 0 <= i < base.numItems
      modifies BanditRepr(bandit)
      ensures Valid()
      ensures Rewards(bandit) == old(Rewards(bandit))[i := old(Rewards(bandit))[i] + [v]]
    {
      Pull(bandit, i, v);
    }

    /** The default batch updateMethod: every rating, one by one. */
    method RecordAll(calls: seq<Rating>)
      requires Valid() && forall c :: c in calls ==> 0 <= c.i < base.numItems
      modifies BanditRepr(bandit)
      ensures Valid()
      ensures |old(Rewards(bandit))| == base.numItems
      ensures Rewards(bandit) == Observe(old(Rewards(bandit)), calls)
    {
      BanditShape(bandit);
      var k := 0;
      while k < |calls|
        invariant 0 <= k <= |calls| && Valid()
        invariant BanditRepr(bandit) == old(BanditRepr(bandit))
        invariant Rewards(bandit) == Observe(old(Rewards(bandit)), calls[..k])
      {
        assert calls[..k + 1][..k] == calls[..k];
        assert calls[k] in calls;
        Record(calls[k].u, calls[k].i, calls[k].v);
        k := k + 1;
      }
      assert calls[..k] == calls;
    }

    /** update(u, i), then each rating it passes on rewards the arm of its item. */
    method Update(u: int, i: int)
      requires Valid() && 0 <= u < |base.availability| && i in base.availability[u]
      requires base.MirrorBack(u, i) ==> 0 <= i < |base.availability| && u in base.availability[i]
      requires base.FeedsBack(u, i) ==> u < base.numItems
      modifies base, base.trainData, BanditRepr(bandit)
      ensures Valid()
      ensures |old(Rewards(bandit))| == base.numItems
      ensures Rewards(bandit) == Observe(old(Rewards(bandit)), base.Feedback(u, i))
      ensures base.availability == base.Accepted(old(base.availability), u, i)
      ensures forall a, b :: base.trainData.Pref(a, b) == base.Stored(base.Feedback(u, i), a, b, old(base.trainData.Pref(a, b)))
    {
      BanditShape(bandit);
      ghost var before := Rewards(bandit);
      var calls, raters := base.Update(u, i);
      assert Rewards(bandit) == before;
      RecordAll(calls);
      assert calls == base.Feedback(u, i);
    }

    /** update(train): the batch update of the lists and the training data, then every collected rating. */
    method UpdateBatch(train: seq<(int, int)>)
      requires Valid()
      requires forall t :: t in train ==> 0 <= t.0 < |base.availability|
      requires base.notReciprocal ==> forall t :: t in train ==> 0 <= t.1 < |base.availability|
      requires forall c :: c in base.BatchRatings(train) ==> 0 <= c.i < base.numItems
      modifies base, base.trainData, BanditRepr(bandit)
      ensures Valid()
      ensures |old(Rewards(bandit))| == base.numItems
      ensures Rewards(bandit) == Observe(old(Rewards(bandit)), base.BatchRatings(train))
      ensures forall a :: 0 <= a < |base.availability| ==>
                base.availability[a] == Without(old(base.availability)[a], base.Retired(train, a))
      ensures forall a, b :: base.trainData.Pref(a, b) == base.Stored(base.BatchRatings(train), a, b, old(base.trainData.Pref(a, b)))
    {
      var tuples := base.UpdateBatch(train);
      RecordAll(tuples);
    }
  }
}
