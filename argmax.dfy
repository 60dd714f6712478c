// The selection step every recommender and bandit repeats: scan the candidates in
// order, keep the best score seen so far (starting from -Infinity) and the list of
// candidates that tie with it, then return the single best or a random tied one.

module Argmax {
  import opened Common

  /** The running maximum of a scan that starts at -Infinity and only moves on `>`. */
  function MaxOf(ss: seq<Double>): (m: Double)
    ensures m != NaN
    ensures forall k :: 0 <= k < |ss| ==> !Greater(ss[k], m)
    ensures m == NegInf || exists k :: 0 <= k < |ss| && ss[k] == m
  {
    if ss == [] then NegInf
    else
      var m0 := MaxOf(ss[..|ss| - 1]);
      var last := ss[|ss| - 1];
      if Greater(last, m0) then
        assert forall k :: 0 <= k < |ss| - 1 ==> ss[k] == ss[..|ss| - 1][k];
        forall k | 0 <= k < |ss| - 1 ensures !Greater(ss[k], last) {
          if Greater(ss[k], last) {
            GreaterTransitive(ss[k], last, m0);
          }
        }
        last
      else
        assert forall k :: 0 <= k < |ss| - 1 ==> ss[k] == ss[..|ss| - 1][k];
        m0
  }

  /** The candidates, in scan order, whose score equals `m` (NaN equals nothing). */
  function Ties(items: seq<int>, ss: seq<Double>, m: Double): (top: seq<int>)
    requires |items| == |ss|
    ensures |top| <= |items|
    ensures forall x :: x in top ==> exists k :: 0 <= k < |items| && items[k] == x && Same(ss[k], m)
    ensures forall k :: 0 <= k < |items| && Same(ss[k], m) ==> items[k] in top
  {
    if items == [] then []
    else
      var n := |items| - 1;
      var front := Ties(items[..n], ss[..n], m);
      assert forall k :: 0 <= k < n ==> items[k] == items[..n][k] && ss[k] == ss[..n][k];
      if Same(ss[n], m) then front + [items[n]] else front
  }

  /** No score ties with a value strictly above every score. */
  lemma NoTiesAbove(items: seq<int>, ss: seq<Double>, m: Double, v: Double)
    requires |items| == |ss|
    requires forall k :: 0 <= k < |ss| ==> !Greater(ss[k], m)
    requires m != NaN && Greater(v, m)
    ensures Ties(items, ss, v) == []
  {
  }

  /**
   * The scan itself: `top` ends as the candidates tied at the maximum score, in scan
   * order; an all-NaN scan leaves it empty.
   */
  method TopTies(items: seq<int>, ss: seq<Double>) returns (top: seq<int>, best: Double)
    requires |items| == |ss|
    ensures best == MaxOf(ss)
    ensures top == Ties(items, ss, best)
  {
    best := NegInf;
    top := [];
    var k := 0;
    while k < |items|
      invariant 0 <= k <= |items|
      invariant best == MaxOf(ss[..k])
      invariant top == Ties(items[..k], ss[..k], best)
    {
      assert items[..k + 1][..k] == items[..k] && ss[..k + 1][..k] == ss[..k];
      var v := ss[k];
      if Greater(v, best) {
        NoTiesAbove(items[..k], ss[..k], best, v);
        best := v;
        top := [items[k]];
      } else if Same(v, best) {
        top := top + [items[k]];
      }
      k := k + 1;
    }
    assert items[..k] == items && ss[..k] == ss;
  }

  /** Every tied candidate scores at least as much as every candidate. */
  lemma TiesAreMaximal(items: seq<int>, ss: seq<Double>, k: int)
    requires |items| == |ss| && 0 <= k < |ss|
    requires Same(ss[k], MaxOf(ss))
    ensures items[k] in Ties(items, ss, MaxOf(ss))
    ensures forall j :: 0 <= j < |ss| ==> !Greater(ss[j], ss[k])
  {
  }

  /** As soon as one score is a number, some candidate reaches the maximum. */
  lemma {:induction false} TiesNonEmpty(items: seq<int>, ss: seq<Double>, k: int)
    requires |items| == |ss| && 0 <= k < |ss| && ss[k] != NaN
    ensures Ties(items, ss, MaxOf(ss)) != []
  {
    var m := MaxOf(ss);
    if m == NegInf {
      GreaterTotal(ss[k], m);
      assert Same(ss[k], m);
    } else {
      var j :| 0 <= j < |ss| && ss[j] == m;
      assert Same(ss[j], m);
    }
  }

  /** With no NaN score, a unique best candidate is the only tie. */
  lemma UniqueMax(items: seq<int>, ss: seq<Double>, k: int)
    requires |items| == |ss| && 0 <= k < |ss|
    requires ss[k] != NaN
    requires forall j :: 0 <= j < |ss| && j != k ==> Greater(ss[k], ss[j])
    ensures Ties(items, ss, MaxOf(ss)) == [items[k]]
  {
    var m := MaxOf(ss);
    GreaterTotal(ss[k], m);
    TiesUnique(items, ss, m, k);
  }

  /** Candidates other than `k` do not tie: the tie list is `items[k]` alone, once. */
  lemma {:induction false} TiesUnique(items: seq<int>, ss: seq<Double>, m: Double, k: int)
    requires |items| == |ss| && 0 <= k < |ss| && Same(ss[k], m)
    requires forall j :: 0 <= j < |ss| && j != k ==> !Same(ss[j], m)
    ensures Ties(items, ss, m) == [items[k]]
  {
    var n := |items| - 1;
    assert forall j :: 0 <= j < n ==> items[j] == items[..n][j] && ss[j] == ss[..n][j];
    if k == n {
      TiesNone(items[..n], ss[..n], m);
    } else {
      TiesUnique(items[..n], ss[..n], m, k);
    }
  }

  lemma {:induction false} TiesNone(items: seq<int>, ss: seq<Double>, m: Double)
    requires |items| == |ss|
    requires forall j :: 0 <= j < |ss| ==> !Same(ss[j], m)
    ensures Ties(items, ss, m) == []
  {
    if items != [] {
      var n := |items| - 1;
      assert forall j :: 0 <= j < n ==> ss[j] == ss[..n][j];
      TiesNone(items[..n], ss[..n], m);
    }
  }

  /**
   * The final draw: the only tied candidate when there is one, otherwise any of them
   * (the source draws a uniformly random position).
   */
  method PickTie(top: seq<int>) returns (r: int)
    requires top != []
    ensures r in top
    ensures |top| == 1 ==> r == top[0]
  {
    if |top| == 1 {
      r := top[0];
    } else {
      var j :| 0 <= j < |top|;
      r := top[j];
    }
  }

  /** Any element of a non-empty list, standing for `list.get(rng.nextInt(list.size()))`. */
  method PickAny(list: seq<int>) returns (r: int)
    requires list != []
    ensures r in list
  {
    var j :| 0 <= j < |list|;
    r := list[j];
  }

  /** `r` is a candidate whose score is a number no other score exceeds. */
  ghost predicate Maximises(items: seq<int>, ss: seq<Double>, r: int)
    requires |items| == |ss|
  {
    exists k :: 0 <= k < |items| && items[k] == r && ss[k] != NaN
                && forall j :: 0 <= j < |ss| ==> !Greater(ss[j], ss[k])
  }

  /**
   * The exploit step of every bandit: the scan, then a draw among the ties. With every
   * score NaN the tie list is empty and the source's draw throws, hence the requirement.
   */
  method BestOf(items: seq<int>, ss: seq<Double>) returns (r: int)
    requires |items| == |ss| && exists k :: 0 <= k < |ss| && ss[k] != NaN
    ensures r in Ties(items, ss, MaxOf(ss))
    ensures Maximises(items, ss, r)
    ensures (exists k :: 0 <= k < |ss| && ss[k] != NaN && forall j :: 0 <= j < |ss| && j != k ==> Greater(ss[k], ss[j]))
            ==> |Ties(items, ss, MaxOf(ss))| == 1 && r == Ties(items, ss, MaxOf(ss))[0]
  {
    var top, best := TopTies(items, ss);
    var k0 :| 0 <= k0 < |ss| && ss[k0] != NaN;
    TiesNonEmpty(items, ss, k0);
    r := PickTie(top);
    var k :| 0 <= k < |items| && items[k] == r && Same(ss[k], best);
    assert forall j :: 0 <= j < |ss| ==> !Greater(ss[j], ss[k]);
    if exists k :: 0 <= k < |ss| && ss[k] != NaN && forall j :: 0 <= j < |ss| && j != k ==> Greater(ss[k], ss[j]) {
      var u :| 0 <= u < |ss| && ss[u] != NaN && forall j :: 0 <= j < |ss| && j != u ==> Greater(ss[u], ss[j]);
      UniqueMax(items, ss, u);
    }
  }
}

