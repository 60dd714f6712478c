// Merging and intersecting two lists sorted by a key (the index of an adjacency
// entry): elements with the same key in both lists are combined into one. The
// merges run a two-element priority queue over the list heads; the intersections
// walk both lists with two cursors.

module Combiner {
  import opened Common

  /** Strictly increasing keys: the order of the source's sorted adjacency lists. */
  ghost predicate Increasing<T>(xs: seq<T>, key: T -> int)
  {
    forall a, b :: 0 <= a < b < |xs| ==> key(xs[a]) < key(xs[b])
  }

  /** The combination keeps the key of the elements it combines. */
  ghost predicate KeepsKey<T(!new)>(key: T -> int, combine: (T, T) -> T)
  {
    forall a, b :: key(a) == key(b) ==> key(combine(a, b)) == key(a)
  }

  // ---------------------------------------------------------------------------
  // What the operations compute

  /** The union, in key order; an element of both lists becomes `combine(first's, second's)`. */
  function Merge<T>(xs: seq<T>, ys: seq<T>, key: T -> int, combine: (T, T) -> T): seq<T>
    decreases |xs| + |ys|
  {
    if xs == [] then ys
    else if ys == [] then xs
    else if key(xs[0]) < key(ys[0]) then [xs[0]] + Merge(xs[1..], ys, key, combine)
    else if key(xs[0]) > key(ys[0]) then [ys[0]] + Merge(xs, ys[1..], key, combine)
    else [combine(xs[0], ys[0])] + Merge(xs[1..], ys[1..], key, combine)
  }

  /** The size of the union. */
  function MergeSize<T>(xs: seq<T>, ys: seq<T>, key: T -> int): nat
    decreases |xs| + |ys|
  {
    if xs == [] then |ys|
    else if ys == [] then |xs|
    else if key(xs[0]) < key(ys[0]) then 1 + MergeSize(xs[1..], ys, key)
    else if key(xs[0]) > key(ys[0]) then 1 + MergeSize(xs, ys[1..], key)
    else 1 + MergeSize(xs[1..], ys[1..], key)
  }

  /** The elements of both lists, in key order, each as `combine(first's, second's)`. */
  function Intersect<T>(xs: seq<T>, ys: seq<T>, key: T -> int, combine: (T, T) -> T): seq<T>
    decreases |xs| + |ys|
  {
    if xs == [] || ys == [] then []
    else if key(xs[0]) < key(ys[0]) then Intersect(xs[1..], ys, key, combine)
    else if key(xs[0]) > key(ys[0]) then Intersect(xs, ys[1..], key, combine)
    else [combine(xs[0], ys[0])] + Intersect(xs[1..], ys[1..], key, combine)
  }

  /** The size of the intersection. */
  function IntersectSize<T>(xs: seq<T>, ys: seq<T>, key: T -> int): nat
    decreases |xs| + |ys|
  {
    if xs == [] || ys == [] then 0
    else if key(xs[0]) < key(ys[0]) then IntersectSize(xs[1..], ys, key)
    else if key(xs[0]) > key(ys[0]) then IntersectSize(xs, ys[1..], key)
    else 1 + IntersectSize(xs[1..], ys[1..], key)
  }

  /**
   * The intersection as the merge-and-intersect scan builds it: each common pair is
   * combined in the order the queue released them, which is `(first's, second's)`
   * only when the first list's head has waited longer (`older == 1`).
   */
  function Crossed<T>(xs: seq<T>, ys: seq<T>, key: T -> int, combine: (T, T) -> T, older: int): seq<T>
    decreases |xs| + |ys|
  {
    if xs == [] || ys == [] then []
    else if key(xs[0]) < key(ys[0]) then Crossed(xs[1..], ys, key, combine, 2)
    else if key(xs[0]) > key(ys[0]) then Crossed(xs, ys[1..], key, combine, 1)
    else [if older == 1 then combine(xs[0], ys[0]) else combine(ys[0], xs[0])]
         + Crossed(xs[1..], ys[1..], key, combine, older)
  }

  // ---------------------------------------------------------------------------
  // Properties of the specification

  lemma {:induction false} MergeLength<T>(xs: seq<T>, ys: seq<T>, key: T -> int, combine: (T, T) -> T)
    ensures |Merge(xs, ys, key, combine)| == MergeSize(xs, ys, key)
    decreases |xs| + |ys|
  {
    if xs != [] && ys != [] {
      if key(xs[0]) < key(ys[0]) {
        MergeLength(xs[1..], ys, key, combine);
      } else if key(xs[0]) > key(ys[0]) {
        MergeLength(xs, ys[1..], key, combine);
      } else {
        MergeLength(xs[1..], ys[1..], key, combine);
      }
    }
  }

  lemma {:induction false} IntersectLength<T>(xs: seq<T>, ys: seq<T>, key: T -> int, combine: (T, T) -> T, older: int)
    ensures |Intersect(xs, ys, key, combine)| == IntersectSize(xs, ys, key)
    ensures |Crossed(xs, ys, key, combine, older)| == IntersectSize(xs, ys, key)
    decreases |xs| + |ys|
  {
    if xs != [] && ys != [] {
      if key(xs[0]) < key(ys[0]) {
        IntersectLength(xs[1..], ys, key, combine, 2);
        IntersectLength(xs[1..], ys, key, combine, older);
      } else if key(xs[0]) > key(ys[0]) {
        IntersectLength(xs, ys[1..], key, combine, 1);
        IntersectLength(xs, ys[1..], key, combine, older);
      } else {
        IntersectLength(xs[1..], ys[1..], key, combine, older);
      }
    }
  }

  /** Each element is in the union or the intersection once: |union| + |intersection| == |xs| + |ys|. */
  lemma {:induction false} UnionPlusIntersection<T>(xs: seq<T>, ys: seq<T>, key: T -> int)
    ensures MergeSize(xs, ys, key) + IntersectSize(xs, ys, key) == |xs| + |ys|
    decreases |xs| + |ys|
  {
    if xs != [] && ys != [] {
      if key(xs[0]) < key(ys[0]) {
        UnionPlusIntersection(xs[1..], ys, key);
      } else if key(xs[0]) > key(ys[0]) {
        UnionPlusIntersection(xs, ys[1..], key);
      } else {
        UnionPlusIntersection(xs[1..], ys[1..], key);
      }
    }
  }

  /** The keys of a list. */
  function KeySet<T(==)>(xs: seq<T>, key: T -> int): set<int>
  {
    set x | x in xs :: key(x)
  }

  lemma KeySetCons<T>(h: T, t: seq<T>, key: T -> int)
    ensures KeySet([h] + t, key) == {key(h)} + KeySet(t, key)
  {
    assert forall x :: x in [h] + t <==> x == h || x in t;
  }

  /** An element of a strictly increasing list is its head or comes after it with a greater key. */
  lemma HeadLeast<T>(xs: seq<T>, key: T -> int, x: T)
    requires Increasing(xs, key) && x in xs
    ensures x == xs[0] || (x in xs[1..] && key(xs[0]) < key(x))
  {
    var a :| 0 <= a < |xs| && xs[a] == x;
    if a > 0 {
      assert xs[1..][a - 1] == x;
    }
  }

  /** Every key of `ks` is above `k`. */
  ghost predicate Below(k: int, ks: set<int>)
  {
    forall k' :: k' in ks ==> k < k'
  }

  /** A list is strictly increasing when its tail is and its head's key is below the tail's keys. */
  lemma IncreasingCons<T>(h: T, t: seq<T>, key: T -> int)
    requires Increasing(t, key) && Below(key(h), KeySet(t, key))
    ensures Increasing([h] + t, key)
  {
    var s := [h] + t;
    forall a, b | 0 <= a < b < |s| ensures key(s[a]) < key(s[b]) {
      assert s[b] == t[b - 1];
      if a > 0 {
        assert s[a] == t[a - 1];
      } else {
        assert t[b - 1] in t && key(t[b - 1]) in KeySet(t, key);
      }
    }
  }

  /** The tail of a strictly increasing list is strictly increasing, with keys above the head's. */
  lemma IncreasingTail<T>(xs: seq<T>, key: T -> int)
    requires Increasing(xs, key) && xs != []
    ensures Increasing(xs[1..], key)
    ensures Below(key(xs[0]), KeySet(xs[1..], key))
    ensures KeySet(xs, key) == {key(xs[0])} + KeySet(xs[1..], key)
  {
    assert xs == [xs[0]] + xs[1..];
    KeySetCons(xs[0], xs[1..], key);
    forall k | k in KeySet(xs[1..], key) ensures key(xs[0]) < k {
      var x :| x in xs[1..] && key(x) == k;
      var a :| 0 <= a < |xs[1..]| && xs[1..][a] == x;
      assert xs[a + 1] == x;
    }
  }

  /** The keys of a non-empty strictly increasing list are above anything below its head's. */
  lemma BelowAll<T>(k: int, xs: seq<T>, key: T -> int)
    requires Increasing(xs, key) && xs != [] && k <= key(xs[0])
    ensures Below(k, KeySet(xs[1..], key))
    ensures k < key(xs[0]) ==> Below(k, KeySet(xs, key))
  {
    IncreasingTail(xs, key);
  }

  /** Putting an element below the keys of a sorted list in front of it. */
  lemma ConsSorted<T>(h: T, rest: seq<T>, key: T -> int, ka: set<int>, kb: set<int>)
    requires Increasing(rest, key) && KeySet(rest, key) == ka + kb && Below(key(h), ka) && Below(key(h), kb)
    ensures Increasing([h] + rest, key) && KeySet([h] + rest, key) == {key(h)} + ka + kb
  {
    KeySetCons(h, rest, key);
    IncreasingCons(h, rest, key);
  }

  /**
   * For strictly increasing lists and a key-keeping combination, the merge is strictly
   * increasing and holds exactly the keys of either list.
   */
  lemma {:induction false} MergeSorted<T(!new)>(xs: seq<T>, ys: seq<T>, key: T -> int, combine: (T, T) -> T)
    requires Increasing(xs, key) && Increasing(ys, key) && KeepsKey(key, combine)
    ensures Increasing(Merge(xs, ys, key, combine), key)
    ensures KeySet(Merge(xs, ys, key, combine), key) == KeySet(xs, key) + KeySet(ys, key)
    decreases |xs| + |ys|, 1
  {
    if xs == [] {
      assert Merge(xs, ys, key, combine) == ys;
      assert KeySet(xs, key) == {};
    } else if ys == [] {
      assert Merge(xs, ys, key, combine) == xs;
      assert KeySet(ys, key) == {};
    } else if key(xs[0]) != key(ys[0]) {
      MergeSortedApart(xs, ys, key, combine);
    } else {
      MergeSortedBoth(xs, ys, key, combine);
    }
  }

  lemma {:induction false} MergeSortedApart<T(!new)>(xs: seq<T>, ys: seq<T>, key: T -> int, combine: (T, T) -> T)
    requires Increasing(xs, key) && Increasing(ys, key) && KeepsKey(key, combine)
    requires xs != [] && ys != [] && key(xs[0]) != key(ys[0])
    ensures Increasing(Merge(xs, ys, key, combine), key)
    ensures KeySet(Merge(xs, ys, key, combine), key) == KeySet(xs, key) + KeySet(ys, key)
    decreases |xs| + |ys|, 0
  {
    IncreasingTail(xs, key);
    IncreasingTail(ys, key);
    if key(xs[0]) < key(ys[0]) {
      var h := xs[0];
      BelowAll(key(h), ys, key);
      MergeSorted(xs[1..], ys, key, combine);
      ConsSorted(h, Merge(xs[1..], ys, key, combine), key, KeySet(xs[1..], key), KeySet(ys, key));
      assert Merge(xs, ys, key, combine) == [h] + Merge(xs[1..], ys, key, combine);
    } else {
      var h := ys[0];
      BelowAll(key(h), xs, key);
      MergeSorted(xs, ys[1..], key, combine);
      ConsSorted(h, Merge(xs, ys[1..], key, combine), key, KeySet(xs, key), KeySet(ys[1..], key));
      assert Merge(xs, ys, key, combine) == [h] + Merge(xs, ys[1..], key, combine);
    }
  }

  lemma {:induction false} MergeSortedBoth<T(!new)>(xs: seq<T>, ys: seq<T>, key: T -> int, combine: (T, T) -> T)
    requires Increasing(xs, key) && Increasing(ys, key) && KeepsKey(key, combine)
    requires xs != [] && ys != [] && key(xs[0]) == key(ys[0])
    ensures Increasing(Merge(xs, ys, key, combine), key)
    ensures KeySet(Merge(xs, ys, key, combine), key) == KeySet(xs, key) + KeySet(ys, key)
    decreases |xs| + |ys|, 0
  {
    IncreasingTail(xs, key);
    IncreasingTail(ys, key);
    var h := combine(xs[0], ys[0]);
    assert key(h) == key(xs[0]);
    MergeSorted(xs[1..], ys[1..], key, combine);
    ConsSorted(h, Merge(xs[1..], ys[1..], key, combine), key, KeySet(xs[1..], key), KeySet(ys[1..], key));
    assert Merge(xs, ys, key, combine) == [h] + Merge(xs[1..], ys[1..], key, combine);
  }

  /**
   * For strictly increasing lists, the intersection holds exactly the combinations of
   * the pairs of elements, one from each list, that share a key.
   */
  lemma {:induction false} IntersectPairs<T>(xs: seq<T>, ys: seq<T>, key: T -> int, combine: (T, T) -> T)
    requires Increasing(xs, key) && Increasing(ys, key)
    ensures forall e :: e in Intersect(xs, ys, key, combine) ==>
              exists x, y :: x in xs && y in ys && key(x) == key(y) && e == combine(x, y)
    ensures forall x, y :: x in xs && y in ys && key(x) == key(y) ==> combine(x, y) in Intersect(xs, ys, key, combine)
    decreases |xs| + |ys|
  {
    if xs != [] && ys != [] {
      IncreasingTail(xs, key);
      IncreasingTail(ys, key);
      var r := Intersect(xs, ys, key, combine);
      var xs', ys' := if key(xs[0]) <= key(ys[0]) then xs[1..] else xs, if key(xs[0]) >= key(ys[0]) then ys[1..] else ys;
      IntersectPairs(xs', ys', key, combine);
      var rest := Intersect(xs', ys', key, combine);
      assert key(xs[0]) != key(ys[0]) ==> r == rest;
      assert key(xs[0]) == key(ys[0]) ==> r == [combine(xs[0], ys[0])] + rest;
      forall e | e in r ensures exists x, y :: x in xs && y in ys && key(x) == key(y) && e == combine(x, y) {
        if e in rest {
          var x, y :| x in xs' && y in ys' && key(x) == key(y) && e == combine(x, y);
          assert x in xs && y in ys;
        } else {
          assert xs[0] in xs && ys[0] in ys;
        }
      }
      forall x, y | x in xs && y in ys && key(x) == key(y) ensures combine(x, y) in r {
        HeadLeast(xs, key, x);
        HeadLeast(ys, key, y);
      }
    }
  }

  /** For strictly increasing lists the intersection is empty exactly when no key is shared. */
  lemma SharedKey<T>(xs: seq<T>, ys: seq<T>, key: T -> int)
    requires Increasing(xs, key) && Increasing(ys, key)
    ensures IntersectSize(xs, ys, key) > 0 <==> exists x, y :: x in xs && y in ys && key(x) == key(y)
  {
    var first := (a: T, b: T) => a;
    IntersectLength(xs, ys, key, first, 1);
    IntersectPairs(xs, ys, key, first);
    if IntersectSize(xs, ys, key) > 0 {
      assert Intersect(xs, ys, key, first)[0] in Intersect(xs, ys, key, first);
    }
  }

  // ---------------------------------------------------------------------------
  // The two-element priority queue of the merges

  /**
   * The order in which the queue releases the list heads, each tagged with its list
   * (1 or 2). The queue holds the current head of each list; the lower key comes
   * out first, and on equal keys the head that has waited longer (`older`) does.
   * After a poll the list's next head joins the queue, so the other head becomes
   * the older one.
   */
  function Polls<T>(xs: seq<T>, ys: seq<T>, key: T -> int, i: int, j: int, older: int): (ps: seq<(T, int)>)
    requires 0 <= i <= |xs| && 0 <= j <= |ys|
    ensures |ps| == |xs| - i + |ys| - j
    decreases |xs| - i + |ys| - j
  {
    if i == |xs| && j == |ys| then []
    else if PollsFirst(xs, ys, key, i, j, older) then [(xs[i], 1)] + Polls(xs, ys, key, i + 1, j, 2)
    else [(ys[j], 2)] + Polls(xs, ys, key, i, j + 1, 1)
  }

  /** Whether the next poll takes the first list's head. */
  predicate PollsFirst<T>(xs: seq<T>, ys: seq<T>, key: T -> int, i: int, j: int, older: int)
    requires 0 <= i <= |xs| && 0 <= j <= |ys|
  {
    i < |xs| && (j == |ys| || key(xs[i]) < key(ys[j]) || (key(xs[i]) == key(ys[j]) && older == 1))
  }

  /** Only the first list's head is left, or it has the lower key: it comes out alone. */
  lemma StepFirst<T>(xs: seq<T>, ys: seq<T>, key: T -> int, combine: (T, T) -> T, i: int, j: int, older: int)
    requires 0 <= i < |xs| && 0 <= j <= |ys| && (j == |ys| || key(xs[i]) < key(ys[j]))
    ensures Polls(xs, ys, key, i, j, older) == [(xs[i], 1)] + Polls(xs, ys, key, i + 1, j, 2)
    ensures Merge(xs[i..], ys[j..], key, combine) == [xs[i]] + Merge(xs[i + 1..], ys[j..], key, combine)
    ensures Crossed(xs[i..], ys[j..], key, combine, older) == Crossed(xs[i + 1..], ys[j..], key, combine, 2)
    ensures Intersect(xs[i..], ys[j..], key, combine) == Intersect(xs[i + 1..], ys[j..], key, combine)
  {
    assert xs[i..] == [xs[i]] + xs[i + 1..];
    if j == |ys| {
      assert ys[j..] == [];
      assert Merge(xs[i + 1..], ys[j..], key, combine) == xs[i + 1..];
    }
  }

  /** Only the second list's head is left, or it has the lower key: it comes out alone. */
  lemma StepSecond<T>(xs: seq<T>, ys: seq<T>, key: T -> int, combine: (T, T) -> T, i: int, j: int, older: int)
    requires 0 <= i <= |xs| && 0 <= j < |ys| && (i == |xs| || key(xs[i]) > key(ys[j]))
    ensures Polls(xs, ys, key, i, j, older) == [(ys[j], 2)] + Polls(xs, ys, key, i, j + 1, 1)
    ensures Merge(xs[i..], ys[j..], key, combine) == [ys[j]] + Merge(xs[i..], ys[j + 1..], key, combine)
    ensures Crossed(xs[i..], ys[j..], key, combine, older) == Crossed(xs[i..], ys[j + 1..], key, combine, 1)
    ensures Intersect(xs[i..], ys[j..], key, combine) == Intersect(xs[i..], ys[j + 1..], key, combine)
  {
    assert ys[j..] == [ys[j]] + ys[j + 1..];
    if i == |xs| {
      assert xs[i..] == [];
    }
  }

  /** Both heads share a key: the older comes out, then the other, and the queue is as before. */
  lemma StepBoth<T>(xs: seq<T>, ys: seq<T>, key: T -> int, combine: (T, T) -> T, i: int, j: int, older: int)
    requires Increasing(xs, key) && Increasing(ys, key)
    requires 0 <= i < |xs| && 0 <= j < |ys| && key(xs[i]) == key(ys[j]) && (older == 1 || older == 2)
    ensures Polls(xs, ys, key, i, j, older)
            == [if older == 1 then (xs[i], 1) else (ys[j], 2)]
               + ([if older == 1 then (ys[j], 2) else (xs[i], 1)] + Polls(xs, ys, key, i + 1, j + 1, older))
    ensures Merge(xs[i..], ys[j..], key, combine)
            == [combine(xs[i], ys[j])] + Merge(xs[i + 1..], ys[j + 1..], key, combine)
    ensures Crossed(xs[i..], ys[j..], key, combine, older)
            == [if older == 1 then combine(xs[i], ys[j]) else combine(ys[j], xs[i])]
               + Crossed(xs[i + 1..], ys[j + 1..], key, combine, older)
    ensures Intersect(xs[i..], ys[j..], key, combine)
            == [combine(xs[i], ys[j])] + Intersect(xs[i + 1..], ys[j + 1..], key, combine)
  {
    assert xs[i..] == [xs[i]] + xs[i + 1..] && ys[j..] == [ys[j]] + ys[j + 1..];
    if older == 1 {
      assert !PollsFirst(xs, ys, key, i + 1, j, 2) by {
        if i + 1 < |xs| {
          assert key(xs[i]) < key(xs[i + 1]);
        }
      }
    } else {
      assert PollsFirst(xs, ys, key, i, j + 1, 1) by {
        if j + 1 < |ys| {
          assert key(ys[j]) < key(ys[j + 1]);
        }
      }
    }
  }

  /**
   * What a scan over released elements keeps: the merged list; the intersection as
   * mergeAndIntersectLists builds it (`crossed`) and as intended (`inter`); the last
   * element kept as new, with its list; the number of new keys and of repeated ones.
   */
  datatype Scan<T> = Scan(comb: seq<T>, crossed: seq<T>, inter: seq<T>, last: Option<(T, int)>, news: nat, repeats: nat)

  /**
   * The loop body of the merges over a sequence of polls: an element whose key
   * differs from the last new one is appended; otherwise the last element is replaced
   * by the combination (the first list's element first), which is also the intended
   * intersection element, and the written intersection receives `combine(last, current)`.
   */
  function Scanned<T>(ps: seq<(T, int)>, key: T -> int, combine: (T, T) -> T): (s: Scan<T>)
    ensures s.last.Some? ==> s.comb != []
  {
    if ps == [] then Scan([], [], [], None, 0, 0)
    else
      var s := Scanned(ps[..|ps| - 1], key, combine);
      var (t, q) := ps[|ps| - 1];
      if s.last.None? || key(s.last.value.0) != key(t) then
        Scan(s.comb + [t], s.crossed, s.inter, Some((t, q)), s.news + 1, s.repeats)
      else
        var (lastVisited, lastQueue) := s.last.value;
        var joined := if q > lastQueue then combine(lastVisited, t) else combine(t, lastVisited);
        Scan(s.comb[..|s.comb| - 1] + [joined], s.crossed + [combine(lastVisited, t)], s.inter + [joined],
             s.last, s.news, s.repeats + 1)
  }

  /** A poll with a new key is appended and becomes the last one. */
  lemma ScanNew<T>(pre: seq<(T, int)>, p: (T, int), key: T -> int, combine: (T, T) -> T)
    requires Scanned(pre, key, combine).last.None? || key(Scanned(pre, key, combine).last.value.0) != key(p.0)
    ensures var s := Scanned(pre, key, combine);
            Scanned(pre + [p], key, combine) == Scan(s.comb + [p.0], s.crossed, s.inter, Some(p), s.news + 1, s.repeats)
  {
    assert (pre + [p])[..|pre|] == pre;
  }

  /** A poll with the last key is combined into the last element and into the intersections. */
  lemma ScanRepeat<T>(pre: seq<(T, int)>, p: (T, int), key: T -> int, combine: (T, T) -> T)
    requires Scanned(pre, key, combine).last.Some? && key(Scanned(pre, key, combine).last.value.0) == key(p.0)
    ensures var s := Scanned(pre, key, combine);
            var (lastVisited, lastQueue) := s.last.value;
            var joined := if p.1 > lastQueue then combine(lastVisited, p.0) else combine(p.0, lastVisited);
            Scanned(pre + [p], key, combine)
            == Scan(s.comb[..|s.comb| - 1] + [joined], s.crossed + [combine(lastVisited, p.0)], s.inter + [joined],
                    s.last, s.news, s.repeats + 1)
  {
    assert (pre + [p])[..|pre|] == pre;
  }

  /** The counters track the lengths of the lists. */
  lemma {:induction false} ScannedCounts<T>(ps: seq<(T, int)>, key: T -> int, combine: (T, T) -> T)
    ensures Scanned(ps, key, combine).news == |Scanned(ps, key, combine).comb|
    ensures Scanned(ps, key, combine).repeats == |Scanned(ps, key, combine).inter|
    ensures Scanned(ps, key, combine).repeats == |Scanned(ps, key, combine).crossed|
  {
    if ps != [] {
      ScannedCounts(ps[..|ps| - 1], key, combine);
    }
  }

  /** No element still to come has the key of the last new one. */
  ghost predicate Clean<T>(last: Option<(T, int)>, xs: seq<T>, ys: seq<T>, key: T -> int, i: int, j: int)
    requires 0 <= i <= |xs| && 0 <= j <= |ys|
  {
    last.None? || ((i < |xs| ==> key(last.value.0) < key(xs[i])) && (j < |ys| ==> key(last.value.0) < key(ys[j])))
  }

  /** Scanning on from `s` to `s'` appended `m` to the merge, `c` and `n` to the two intersections. */
  ghost predicate Appends<T>(s: Scan<T>, s': Scan<T>, m: seq<T>, c: seq<T>, n: seq<T>)
  {
    s'.comb == s.comb + m && s'.crossed == s.crossed + c && s'.inter == s.inter + n
  }

  lemma AppendsChain<T>(s: Scan<T>, s1: Scan<T>, s': Scan<T>, m1: seq<T>, c1: seq<T>, n1: seq<T>,
                        m: seq<T>, c: seq<T>, n: seq<T>)
    requires Appends(s, s1, m1, c1, n1) && Appends(s1, s', m, c, n)
    ensures Appends(s, s', m1 + m, c1 + c, n1 + n)
  {
  }

  /**
   * The queue scan computes the merge and both intersections: from a clean state,
   * scanning the rest of the polls appends the merge and the intersections of what
   * is left.
   */
  lemma {:induction false} ScanRest<T>(xs: seq<T>, ys: seq<T>, key: T -> int, combine: (T, T) -> T,
                                       pre: seq<(T, int)>, i: int, j: int, older: int)
    requires Increasing(xs, key) && Increasing(ys, key)
    requires 0 <= i <= |xs| && 0 <= j <= |ys| && (older == 1 || older == 2)
    requires Clean(Scanned(pre, key, combine).last, xs, ys, key, i, j)
    ensures Appends(Scanned(pre, key, combine), Scanned(pre + Polls(xs, ys, key, i, j, older), key, combine),
                    Merge(xs[i..], ys[j..], key, combine), Crossed(xs[i..], ys[j..], key, combine, older),
                    Intersect(xs[i..], ys[j..], key, combine))
    decreases |xs| - i + |ys| - j, 1
  {
    if i == |xs| && j == |ys| {
      assert pre + [] == pre;
      assert xs[i..] == [] && ys[j..] == [];
    } else if j == |ys| || (i < |xs| && key(xs[i]) < key(ys[j])) {
      ScanFirst(xs, ys, key, combine, pre, i, j, older);
    } else if i == |xs| || key(xs[i]) > key(ys[j]) {
      ScanSecond(xs, ys, key, combine, pre, i, j, older);
    } else {
      ScanBoth(xs, ys, key, combine, pre, i, j, older);
    }
  }

  lemma {:induction false} ScanFirst<T>(xs: seq<T>, ys: seq<T>, key: T -> int, combine: (T, T) -> T,
                                        pre: seq<(T, int)>, i: int, j: int, older: int)
    requires Increasing(xs, key) && Increasing(ys, key)
    requires 0 <= i < |xs| && 0 <= j <= |ys| && (older == 1 || older == 2)
    requires j == |ys| || key(xs[i]) < key(ys[j])
    requires Clean(Scanned(pre, key, combine).last, xs, ys, key, i, j)
    ensures Appends(Scanned(pre, key, combine), Scanned(pre + Polls(xs, ys, key, i, j, older), key, combine),
                    Merge(xs[i..], ys[j..], key, combine), Crossed(xs[i..], ys[j..], key, combine, older),
                    Intersect(xs[i..], ys[j..], key, combine))
    decreases |xs| - i + |ys| - j, 0
  {
    var p := (xs[i], 1);
    StepFirst(xs, ys, key, combine, i, j, older);
    var rest := Polls(xs, ys, key, i + 1, j, 2);
    RegroupOne(pre, p, rest);
    ScanHead(pre, p, key, combine);
    CleanPastFirst(xs, ys, key, i, j);
    ScanRest(xs, ys, key, combine, pre + [p], i + 1, j, 2);
    AppendsHead(Scanned(pre, key, combine), Scanned(pre + [p], key, combine),
                Scanned((pre + [p]) + rest, key, combine), xs[i],
                Merge(xs[i + 1..], ys[j..], key, combine), Crossed(xs[i + 1..], ys[j..], key, combine, 2),
                Intersect(xs[i + 1..], ys[j..], key, combine));
  }

  lemma {:induction false} ScanSecond<T>(xs: seq<T>, ys: seq<T>, key: T -> int, combine: (T, T) -> T,
                                         pre: seq<(T, int)>, i: int, j: int, older: int)
    requires Increasing(xs, key) && Increasing(ys, key)
    requires 0 <= i <= |xs| && 0 <= j < |ys| && (older == 1 || older == 2)
    requires i == |xs| || key(xs[i]) > key(ys[j])
    requires Clean(Scanned(pre, key, combine).last, xs, ys, key, i, j)
    ensures Appends(Scanned(pre, key, combine), Scanned(pre + Polls(xs, ys, key, i, j, older), key, combine),
                    Merge(xs[i..], ys[j..], key, combine), Crossed(xs[i..], ys[j..], key, combine, older),
                    Intersect(xs[i..], ys[j..], key, combine))
    decreases |xs| - i + |ys| - j, 0
  {
    var p := (ys[j], 2);
    StepSecond(xs, ys, key, combine, i, j, older);
    var rest := Polls(xs, ys, key, i, j + 1, 1);
    RegroupOne(pre, p, rest);
    ScanHead(pre, p, key, combine);
    CleanPastSecond(xs, ys, key, i, j);
    ScanRest(xs, ys, key, combine, pre + [p], i, j + 1, 1);
    AppendsHead(Scanned(pre, key, combine), Scanned(pre + [p], key, combine),
                Scanned((pre + [p]) + rest, key, combine), ys[j],
                Merge(xs[i..], ys[j + 1..], key, combine), Crossed(xs[i..], ys[j + 1..], key, combine, 1),
                Intersect(xs[i..], ys[j + 1..], key, combine));
  }

  lemma {:induction false} ScanBoth<T>(xs: seq<T>, ys: seq<T>, key: T -> int, combine: (T, T) -> T,
                                       pre: seq<(T, int)>, i: int, j: int, older: int)
    requires Increasing(xs, key) && Increasing(ys, key)
    requires 0 <= i < |xs| && 0 <= j < |ys| && (older == 1 || older == 2)
    requires key(xs[i]) == key(ys[j])
    requires Clean(Scanned(pre, key, combine).last, xs, ys, key, i, j)
    ensures Appends(Scanned(pre, key, combine), Scanned(pre + Polls(xs, ys, key, i, j, older), key, combine),
                    Merge(xs[i..], ys[j..], key, combine), Crossed(xs[i..], ys[j..], key, combine, older),
                    Intersect(xs[i..], ys[j..], key, combine))
    decreases |xs| - i + |ys| - j, 0
  {
    var x, y := xs[i], ys[j];
    var p1, p2 := if older == 1 then (x, 1) else (y, 2), if older == 1 then (y, 2) else (x, 1);
    StepBoth(xs, ys, key, combine, i, j, older);
    var rest := Polls(xs, ys, key, i + 1, j + 1, older);
    var pre2 := pre + [p1] + [p2];
    Regroup(pre, p1, p2, rest);
    ScanHeads(pre, x, y, older, key, combine);
    var s, s2 := Scanned(pre, key, combine), Scanned(pre2, key, combine);
    CleanPast(s2.last, xs, ys, key, i, j);
    ScanRest(xs, ys, key, combine, pre2, i + 1, j + 1, older);
    AppendsChain(s, s2, Scanned(pre2 + rest, key, combine), [combine(x, y)],
                 [if older == 1 then combine(x, y) else combine(y, x)], [combine(x, y)],
                 Merge(xs[i + 1..], ys[j + 1..], key, combine), Crossed(xs[i + 1..], ys[j + 1..], key, combine, older),
                 Intersect(xs[i + 1..], ys[j + 1..], key, combine));
  }

  lemma RegroupOne<P>(pre: seq<P>, p: P, rest: seq<P>)
    ensures pre + ([p] + rest) == (pre + [p]) + rest
  {
  }

  /** A poll with a new key adds its element to the merge only, and becomes the last one. */
  lemma ScanHead<T>(pre: seq<(T, int)>, p: (T, int), key: T -> int, combine: (T, T) -> T)
    requires Scanned(pre, key, combine).last.None? || key(Scanned(pre, key, combine).last.value.0) != key(p.0)
    ensures Appends(Scanned(pre, key, combine), Scanned(pre + [p], key, combine), [p.0], [], [])
    ensures Scanned(pre + [p], key, combine).last == Some(p)
  {
    ScanNew(pre, p, key, combine);
    var s := Scanned(pre, key, combine);
    assert s.crossed + [] == s.crossed && s.inter + [] == s.inter;
  }

  lemma AppendsHead<T>(s: Scan<T>, s1: Scan<T>, s': Scan<T>, x: T, m: seq<T>, c: seq<T>, n: seq<T>)
    requires Appends(s, s1, [x], [], []) && Appends(s1, s', m, c, n)
    ensures Appends(s, s', [x] + m, c, n)
  {
    assert s'.crossed == s.crossed + c && s'.inter == s.inter + n;
  }

  /** After the first list's lower head is released, it is below both remaining heads. */
  lemma CleanPastFirst<T>(xs: seq<T>, ys: seq<T>, key: T -> int, i: int, j: int)
    requires Increasing(xs, key)
    requires 0 <= i < |xs| && 0 <= j <= |ys| && (j == |ys| || key(xs[i]) < key(ys[j]))
    ensures Clean(Some((xs[i], 1)), xs, ys, key, i + 1, j)
  {
  }

  /** After the second list's lower head is released, it is below both remaining heads. */
  lemma CleanPastSecond<T>(xs: seq<T>, ys: seq<T>, key: T -> int, i: int, j: int)
    requires Increasing(ys, key)
    requires 0 <= i <= |xs| && 0 <= j < |ys| && (i == |xs| || key(xs[i]) > key(ys[j]))
    ensures Clean(Some((ys[j], 2)), xs, ys, key, i, j + 1)
  {
  }

  lemma Regroup<P>(pre: seq<P>, p1: P, p2: P, rest: seq<P>)
    ensures pre + ([p1] + ([p2] + rest)) == pre + [p1] + [p2] + rest
  {
  }

  /** After both heads of equal key are released, the scan's last element is below both remaining heads. */
  lemma CleanPast<T>(last: Option<(T, int)>, xs: seq<T>, ys: seq<T>, key: T -> int, i: int, j: int)
    requires Increasing(xs, key) && Increasing(ys, key)
    requires 0 <= i < |xs| && 0 <= j < |ys| && key(xs[i]) == key(ys[j])
    requires last.Some? && key(last.value.0) == key(xs[i])
    ensures Clean(last, xs, ys, key, i + 1, j + 1)
  {
  }

  /** Two heads of equal key, released older first, add one combined element to each list. */
  lemma ScanHeads<T>(pre: seq<(T, int)>, x: T, y: T, older: int, key: T -> int, combine: (T, T) -> T)
    requires key(x) == key(y) && (older == 1 || older == 2)
    requires Scanned(pre, key, combine).last.None? || key(Scanned(pre, key, combine).last.value.0) != key(x)
    ensures var p1, p2 := if older == 1 then (x, 1) else (y, 2), if older == 1 then (y, 2) else (x, 1);
            var s2 := Scanned(pre + [p1] + [p2], key, combine);
            && Appends(Scanned(pre, key, combine), s2, [combine(x, y)],
                       [if older == 1 then combine(x, y) else combine(y, x)], [combine(x, y)])
            && s2.last == Some(p1)
  {
    var p1, p2 := if older == 1 then (x, 1) else (y, 2), if older == 1 then (y, 2) else (x, 1);
    ScanNew(pre, p1, key, combine);
    ScanRepeat(pre + [p1], p2, key, combine);
    var s, s2 := Scanned(pre, key, combine), Scanned(pre + [p1] + [p2], key, combine);
    assert s2.comb == s.comb + [combine(x, y)];
  }

  /** The whole scan: the merge, and the intersection with its queue-order combinations. */
  lemma ScanAll<T>(xs: seq<T>, ys: seq<T>, key: T -> int, combine: (T, T) -> T)
    requires Increasing(xs, key) && Increasing(ys, key)
    ensures var s := Scanned(Polls(xs, ys, key, 0, 0, 1), key, combine);
            && s.comb == Merge(xs, ys, key, combine)
            && s.crossed == Crossed(xs, ys, key, combine, 1)
            && s.inter == Intersect(xs, ys, key, combine)
            && s.news == MergeSize(xs, ys, key)
            && s.repeats == IntersectSize(xs, ys, key)
  {
    ScanRest(xs, ys, key, combine, [], 0, 0, 1);
    assert [] + Polls(xs, ys, key, 0, 0, 1) == Polls(xs, ys, key, 0, 0, 1);
    assert xs[0..] == xs && ys[0..] == ys;
    ScannedCounts(Polls(xs, ys, key, 0, 0, 1), key, combine);
    MergeLength(xs, ys, key, combine);
    IntersectLength(xs, ys, key, combine, 1);
  }

  // ---------------------------------------------------------------------------
  // The merges

  /** One poll of the queue: the element released, its list, and the queue that is left. */
  method Poll<T>(xs: seq<T>, ys: seq<T>, key: T -> int, i: int, j: int, older: int)
    returns (t: T, q: int, i': int, j': int, older': int)
    requires 0 <= i <= |xs| && 0 <= j <= |ys| && (i < |xs| || j < |ys|)
    ensures 0 <= i' <= |xs| && 0 <= j' <= |ys|
    ensures Polls(xs, ys, key, i, j, older) == [(t, q)] + Polls(xs, ys, key, i', j', older')
    ensures |xs| - i' + |ys| - j' == |xs| - i + |ys| - j - 1
  {
    if PollsFirst(xs, ys, key, i, j, older) {
      t, q, i', j', older' := xs[i], 1, i + 1, j, 2;
    } else {
      t, q, i', j', older' := ys[j], 2, i, j + 1, 1;
    }
  }

  /** The state every merge loop keeps agrees with the scan of the polls so far. */
  ghost predicate Tracks<T>(s: Scan<T>, lastVisited: Option<T>)
  {
    (lastVisited.None? <==> s.last.None?) && (s.last.Some? ==> lastVisited.value == s.last.value.0)
  }

  /** mergeLists: the union of two sorted lists, elements of both combined first-list first. */
  method MergeLists<T>(xs: seq<T>, ys: seq<T>, key: T -> int, combine: (T, T) -> T) returns (combination: seq<T>)
    requires Increasing(xs, key) && Increasing(ys, key)
    ensures combination == Merge(xs, ys, key, combine)
  {
    combination := [];
    var lastVisited: Option<T> := None;
    var lastVisitedQueue := 0;
    var i, j, older := 0, 0, 1;
    ghost var done: seq<(T, int)> := [];
    while i < |xs| || j < |ys|
      invariant 0 <= i <= |xs| && 0 <= j <= |ys|
      invariant Polls(xs, ys, key, 0, 0, 1) == done + Polls(xs, ys, key, i, j, older)
      invariant var s := Scanned(done, key, combine);
                combination == s.comb && Tracks(s, lastVisited) && (s.last.Some? ==> lastVisitedQueue == s.last.value.1)
      decreases |xs| - i + |ys| - j
    {
      var t, q;
      ghost var before := Polls(xs, ys, key, i, j, older);
      t, q, i, j, older := Poll(xs, ys, key, i, j, older);
      assert done + before == (done + [(t, q)]) + Polls(xs, ys, key, i, j, older);
      if lastVisited.None? || key(lastVisited.value) != key(t) {
        ScanNew(done, (t, q), key, combine);
        combination := combination + [t];
        lastVisited := Some(t);
        lastVisitedQueue := q;
      } else if q > lastVisitedQueue {
        ScanRepeat(done, (t, q), key, combine);
        combination := combination[..|combination| - 1] + [combine(lastVisited.value, t)];
      } else {
        ScanRepeat(done, (t, q), key, combine);
        combination := combination[..|combination| - 1] + [combine(t, lastVisited.value)];
      }
      done := done + [(t, q)];
    }
    assert done + [] == done;
    ScanAll(xs, ys, key, combine);
  }

  /** mergeListsSize: the number of distinct keys of the two lists. */
  method MergeListsSize<T>(xs: seq<T>, ys: seq<T>, key: T -> int) returns (counter: int)
    requires Increasing(xs, key) && Increasing(ys, key)
    ensures counter == MergeSize(xs, ys, key)
  {
    ghost var first := (a: T, b: T) => a;
    counter := 0;
    var lastVisited: Option<T> := None;
    var i, j, older := 0, 0, 1;
    ghost var done: seq<(T, int)> := [];
    while i < |xs| || j < |ys|
      invariant 0 <= i <= |xs| && 0 <= j <= |ys|
      invariant Polls(xs, ys, key, 0, 0, 1) == done + Polls(xs, ys, key, i, j, older)
      invariant var s := Scanned(done, key, first);
                counter == s.news && Tracks(s, lastVisited)
      decreases |xs| - i + |ys| - j
    {
      var t, q;
      ghost var before := Polls(xs, ys, key, i, j, older);
      t, q, i, j, older := Poll(xs, ys, key, i, j, older);
      assert done + before == (done + [(t, q)]) + Polls(xs, ys, key, i, j, older);
      if lastVisited.None? || key(lastVisited.value) != key(t) {
        ScanNew(done, (t, q), key, first);
        counter := counter + 1;
        lastVisited := Some(t);
      } else {
        ScanRepeat(done, (t, q), key, first);
      }
      done := done + [(t, q)];
    }
    assert done + [] == done;
    ScanAll(xs, ys, key, first);
  }

  /**
   * mergeAndIntersectLists as written: the merge is right, but each common pair enters
   * the intersection as combine(lastVisited, current), in whatever order the queue
   * released the two elements.
   */
  method MergeAndIntersectLists<T>(xs: seq<T>, ys: seq<T>, key: T -> int, combine: (T, T) -> T)
    returns (combination: seq<T>, intersection: seq<T>)
    requires Increasing(xs, key) && Increasing(ys, key)
    ensures combination == Merge(xs, ys, key, combine)
    ensures intersection == Crossed(xs, ys, key, combine, 1)
  {
    combination, intersection := [], [];
    var lastVisited: Option<T> := None;
    var lastVisitedQueue := 0;
    var i, j, older := 0, 0, 1;
    ghost var done: seq<(T, int)> := [];
    while i < |xs| || j < |ys|
      invariant 0 <= i <= |xs| && 0 <= j <= |ys|
      invariant Polls(xs, ys, key, 0, 0, 1) == done + Polls(xs, ys, key, i, j, older)
      invariant var s := Scanned(done, key, combine);
                combination == s.comb && intersection == s.crossed
                && Tracks(s, lastVisited) && (s.last.Some? ==> lastVisitedQueue == s.last.value.1)
      decreases |xs| - i + |ys| - j
    {
      var t, q;
      ghost var before := Polls(xs, ys, key, i, j, older);
      t, q, i, j, older := Poll(xs, ys, key, i, j, older);
      assert done + before == (done + [(t, q)]) + Polls(xs, ys, key, i, j, older);
      if lastVisited.None? || key(lastVisited.value) != key(t) {
        ScanNew(done, (t, q), key, combine);
        combination := combination + [t];
        lastVisited := Some(t);
        lastVisitedQueue := q;
      } else if q > lastVisitedQueue {
        ScanRepeat(done, (t, q), key, combine);
        combination := combination[..|combination| - 1] + [combine(lastVisited.value, t)];
        intersection := intersection + [combine(lastVisited.value, t)];
      } else {
        ScanRepeat(done, (t, q), key, combine);
        combination := combination[..|combination| - 1] + [combine(t, lastVisited.value)];
        intersection := intersection + [combine(lastVisited.value, t)];
      }
      done := done + [(t, q)];
    }
    assert done + [] == done;
    ScanAll(xs, ys, key, combine);
  }

  /**
   * The written intersection can differ from the intersection: with first list
   * [0, 1] and second list [1] (keys), the queue releases the second list's 1 first,
   * so the pair is combined second-list first.
   */
  lemma CrossedDiffers()
    ensures var key := (p: (int, int)) => p.0;
            var keepFirst := (a: (int, int), b: (int, int)) => a;
            Crossed([(0, 0), (1, 0)], [(1, 1)], key, keepFirst, 1) == [(1, 1)]
            && Intersect([(0, 0), (1, 0)], [(1, 1)], key, keepFirst) == [(1, 0)]
  {
    var key := (p: (int, int)) => p.0;
    var keepFirst := (a: (int, int), b: (int, int)) => a;
    var xs: seq<(int, int)>, ys: seq<(int, int)> := [(0, 0), (1, 0)], [(1, 1)];
    assert xs[1..] == [(1, 0)] && |xs[1..][1..]| == 0 && |ys[1..]| == 0;
    assert Crossed(xs[1..][1..], ys[1..], key, keepFirst, 2) == [];
    assert Crossed(xs[1..], ys, key, keepFirst, 2) == [(1, 1)];
    assert Intersect(xs[1..], ys, key, keepFirst) == [(1, 0)];
  }

  /** mergeAndIntersectLists as intended: the intersection combines first-list first too. */
  method MergeAndIntersectListsIntended<T>(xs: seq<T>, ys: seq<T>, key: T -> int, combine: (T, T) -> T)
    returns (combination: seq<T>, intersection: seq<T>)
    requires Increasing(xs, key) && Increasing(ys, key)
    ensures combination == Merge(xs, ys, key, combine)
    ensures intersection == Intersect(xs, ys, key, combine)
  {
    combination, intersection := [], [];
    var lastVisited: Option<T> := None;
    var lastVisitedQueue := 0;
    var i, j, older := 0, 0, 1;
    ghost var done: seq<(T, int)> := [];
    while i < |xs| || j < |ys|
      invariant 0 <= i <= |xs| && 0 <= j <= |ys|
      invariant Polls(xs, ys, key, 0, 0, 1) == done + Polls(xs, ys, key, i, j, older)
      invariant var s := Scanned(done, key, combine);
                combination == s.comb && intersection == s.inter
                && Tracks(s, lastVisited) && (s.last.Some? ==> lastVisitedQueue == s.last.value.1)
      decreases |xs| - i + |ys| - j
    {
      var t, q;
      ghost var before := Polls(xs, ys, key, i, j, older);
      t, q, i, j, older := Poll(xs, ys, key, i, j, older);
      assert done + before == (done + [(t, q)]) + Polls(xs, ys, key, i, j, older);
      if lastVisited.None? || key(lastVisited.value) != key(t) {
        ScanNew(done, (t, q), key, combine);
        combination := combination + [t];
        lastVisited := Some(t);
        lastVisitedQueue := q;
      } else {
        ScanRepeat(done, (t, q), key, combine);
        var joined := if q > lastVisitedQueue then combine(lastVisited.value, t) else combine(t, lastVisited.value);
        combination := combination[..|combination| - 1] + [joined];
        intersection := intersection + [joined];
      }
      done := done + [(t, q)];
    }
    assert done + [] == done;
    ScanAll(xs, ys, key, combine);
  }

  /** mergeAndIntersectListsSize: the sizes of the union and of the intersection. */
  method MergeAndIntersectListsSize<T>(xs: seq<T>, ys: seq<T>, key: T -> int) returns (combination: int, intersection: int)
    requires Increasing(xs, key) && Increasing(ys, key)
    ensures combination == MergeSize(xs, ys, key) && intersection == IntersectSize(xs, ys, key)
  {
    ghost var first := (a: T, b: T) => a;
    combination, intersection := 0, 0;
    var lastVisited: Option<T> := None;
    var i, j, older := 0, 0, 1;
    ghost var done: seq<(T, int)> := [];
    while i < |xs| || j < |ys|
      invariant 0 <= i <= |xs| && 0 <= j <= |ys|
      invariant Polls(xs, ys, key, 0, 0, 1) == done + Polls(xs, ys, key, i, j, older)
      invariant var s := Scanned(done, key, first);
                combination == s.news && intersection == s.repeats && Tracks(s, lastVisited)
      decreases |xs| - i + |ys| - j
    {
      var t, q;
      ghost var before := Polls(xs, ys, key, i, j, older);
      t, q, i, j, older := Poll(xs, ys, key, i, j, older);
      assert done + before == (done + [(t, q)]) + Polls(xs, ys, key, i, j, older);
      if lastVisited.None? || key(lastVisited.value) != key(t) {
        ScanNew(done, (t, q), key, first);
        combination := combination + 1;
        lastVisited := Some(t);
      } else {
        ScanRepeat(done, (t, q), key, first);
        intersection := intersection + 1;
      }
      done := done + [(t, q)];
    }
    assert done + [] == done;
    ScanAll(xs, ys, key, first);
  }

  // ---------------------------------------------------------------------------
  // The two-cursor intersections

  /** intersectLists: walk both lists, keeping combine(first's, second's) for each shared key. */
  method IntersectLists<T>(xs: seq<T>, ys: seq<T>, key: T -> int, combine: (T, T) -> T) returns (intersection: seq<T>)
    ensures intersection == Intersect(xs, ys, key, combine)
  {
    intersection := [];
    if xs == [] || ys == [] {
      return;
    }
    var i, j := 0, 0;
    var flag := true;
    while flag
      invariant 0 <= i <= |xs| && 0 <= j <= |ys|
      invariant flag ==> i < |xs| && j < |ys|
      invariant flag ==> intersection + Intersect(xs[i..], ys[j..], key, combine) == Intersect(xs, ys, key, combine)
      invariant !flag ==> intersection == Intersect(xs, ys, key, combine)
      decreases |xs| - i + |ys| - j + (if flag then 1 else 0)
    {
      var first, second := xs[i], ys[j];
      assert xs[i..] == [first] + xs[i + 1..] && ys[j..] == [second] + ys[j + 1..];
      if key(first) == key(second) {
        intersection := intersection + [combine(first, second)];
        if i + 1 < |xs| && j + 1 < |ys| {
          i, j := i + 1, j + 1;
        } else {
          flag := false;
        }
      } else if key(first) < key(second) {
        if i + 1 < |xs| {
          i := i + 1;
        } else {
          flag := false;
        }
      } else {
        if j + 1 < |ys| {
          j := j + 1;
        } else {
          flag := false;
        }
      }
    }
  }

  /** intersectListsSize: the number of shared keys. */
  method IntersectListsSize<T>(xs: seq<T>, ys: seq<T>, key: T -> int) returns (counter: int)
    ensures counter == IntersectSize(xs, ys, key)
  {
    counter := 0;
    if xs == [] || ys == [] {
      return;
    }
    var i, j := 0, 0;
    var flag := true;
    while flag
      invariant 0 <= i <= |xs| && 0 <= j <= |ys|
      invariant flag ==> i < |xs| && j < |ys|
      invariant flag ==> counter + IntersectSize(xs[i..], ys[j..], key) == IntersectSize(xs, ys, key)
      invariant !flag ==> counter == IntersectSize(xs, ys, key)
      decreases |xs| - i + |ys| - j + (if flag then 1 else 0)
    {
      var first, second := xs[i], ys[j];
      assert xs[i..] == [first] + xs[i + 1..] && ys[j..] == [second] + ys[j + 1..];
      if key(first) == key(second) {
        counter := counter + 1;
        if i + 1 < |xs| && j + 1 < |ys| {
          i, j := i + 1, j + 1;
        } else {
          flag := false;
        }
      } else if key(first) < key(second) {
        if i + 1 < |xs| {
          i := i + 1;
        } else {
          flag := false;
        }
      } else {
        if j + 1 < |ys| {
          j := j + 1;
        } else {
          flag := false;
        }
      }
    }
  }

  /** intersectionHasElements: whether some key is in both lists, stopping at the first. */
  method IntersectionHasElements<T>(xs: seq<T>, ys: seq<T>, key: T -> int) returns (b: bool)
    ensures b <==> IntersectSize(xs, ys, key) > 0
  {
    if xs == [] || ys == [] {
      return false;
    }
    var i, j := 0, 0;
    while true
      invariant 0 <= i < |xs| && 0 <= j < |ys|
      invariant IntersectSize(xs[i..], ys[j..], key) > 0 <==> IntersectSize(xs, ys, key) > 0
      decreases |xs| - i + |ys| - j
    {
      var first, second := xs[i], ys[j];
      assert xs[i..] == [first] + xs[i + 1..] && ys[j..] == [second] + ys[j + 1..];
      if key(first) == key(second) {
        return true;
      } else if key(first) < key(second) {
        if i + 1 < |xs| {
          i := i + 1;
        } else {
          return false;
        }
      } else {
        if j + 1 < |ys| {
          j := j + 1;
        } else {
          return false;
        }
      }
    }
  }
}
