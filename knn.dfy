// The interactive user-based kNN recommender: the k most similar users of the target
// are kept in a bounded heap, their training ratings weighted by similarity are added
// up per item, and the best-scored available item is recommended. Feedback is pushed
// into the similarity one training rater at a time; a batch update recomputes it.

module Knn {
  import opened Common
  import opened SortedLists
  import opened Preferences
  import opened Recommender
  import opened Argmax
  import opened Similarities

  /** A neighbour: a user and its similarity to the target user. */
  type Neighbour = (int, real)

  // ---------------------------------------------------------------- the neighbour heap

  /** Every non-empty heap has a least similar neighbour. */
  lemma {:induction false} MinExists(heap: seq<Neighbour>)
    requires heap != []
    ensures exists p :: LeastAt(heap, p)
  {
    if |heap| > 1 {
      var front := heap[..|heap| - 1];
      MinExists(front);
      var p :| LeastAt(front, p);
      if heap[|heap| - 1].1 < heap[p].1 {
        assert LeastAt(heap, |heap| - 1);
      } else {
        assert LeastAt(heap, p);
      }
    } else {
      assert LeastAt(heap, 0);
    }
  }

  /** Every neighbour in `heap` is at least `v` similar. */
  ghost predicate AtLeast(v: real, heap: seq<Neighbour>)
  {
    forall y :: y in heap ==> v <= y.1
  }

  /** No neighbour in `dropped` is more similar than any neighbour in `heap`. */
  ghost predicate Outranked(dropped: seq<Neighbour>, heap: seq<Neighbour>)
  {
    forall x :: x in dropped ==> AtLeast(x.1, heap)
  }

  /** Position `p` holds a least similar neighbour of the heap. */
  predicate LeastAt(heap: seq<Neighbour>, p: int)
  {
    0 <= p < |heap| && forall q :: 0 <= q < |heap| ==> heap[p].1 <= heap[q].1
  }

  lemma LeastBelowAll(heap: seq<Neighbour>, p: int)
    requires LeastAt(heap, p)
    ensures AtLeast(heap[p].1, heap)
  {
    forall y | y in heap ensures heap[p].1 <= y.1 {
      var q :| 0 <= q < |heap| && heap[q] == y;
    }
  }

  lemma RemoveAtMultiset(heap: seq<Neighbour>, p: int)
    requires 0 <= p < |heap|
    ensures multiset(heap) == multiset(heap[..p] + heap[p + 1..]) + multiset{heap[p]}
  {
    assert heap == heap[..p] + [heap[p]] + heap[p + 1..];
  }

  lemma RemoveAtSubset(heap: seq<Neighbour>, p: int)
    requires 0 <= p < |heap|
    ensures forall y :: y in heap[..p] + heap[p + 1..] ==> y in heap
  {
    forall y | y in heap[..p] + heap[p + 1..] ensures y in heap {
      if y in heap[..p] {
        var q :| 0 <= q < p && heap[..p][q] == y;
        assert heap[q] == y;
      } else {
        var q :| 0 <= q < |heap| - p - 1 && heap[p + 1..][q] == y;
        assert heap[p + 1 + q] == y;
      }
    }
  }

  /** Replacing the least similar neighbour by a candidate at least as similar keeps the top-k shape. */
  lemma {:induction false} ReplaceLeast(heap: seq<Neighbour>, dropped: seq<Neighbour>, p: int, e: Neighbour)
    requires LeastAt(heap, p)
    requires heap[p].1 <= e.1
    requires Outranked(dropped, heap)
    ensures Outranked(dropped + [heap[p]], heap[..p] + heap[p + 1..] + [e])
  {
    var least := heap[p];
    var rest := heap[..p] + heap[p + 1..] + [e];
    LeastBelowAll(heap, p);
    RemoveAtSubset(heap, p);
    assert AtLeast(least.1, rest);
    forall x | x in dropped + [least] ensures AtLeast(x.1, rest) {
      if x in dropped {
        assert least in heap;
      }
    }
  }

  /** A candidate below the least similar neighbour stays out. */
  lemma {:induction false} KeepOut(heap: seq<Neighbour>, dropped: seq<Neighbour>, p: int, e: Neighbour)
    requires LeastAt(heap, p)
    requires e.1 < heap[p].1
    requires Outranked(dropped, heap)
    ensures Outranked(dropped + [e], heap)
  {
    LeastBelowAll(heap, p);
  }

  /** The heap pass, with the candidates it leaves out (`dropped`). */
  method HeapPass(elems: seq<Neighbour>, k: nat) returns (heap: seq<Neighbour>, ghost dropped: seq<Neighbour>)
    requires k >= 1 || elems == []
    ensures |heap| == if |elems| < k then |elems| else k
    ensures multiset(heap) + multiset(dropped) == multiset(elems)
    ensures Outranked(dropped, heap)
  {
    heap, dropped := [], [];
    var j := 0;
    while j < |elems|
      invariant 0 <= j <= |elems|
      invariant |heap| == if j < k then j else k
      invariant multiset(heap) + multiset(dropped) == multiset(elems[..j])
      invariant Outranked(dropped, heap)
      invariant |heap| < k ==> dropped == []
    {
      assert elems[..j + 1] == elems[..j] + [elems[j]];
      heap, dropped := Offer(heap, dropped, elems[j], k);
      j := j + 1;
    }
    assert elems[..j] == elems;
  }

  /**
   * One candidate of the heap pass: it goes in while the heap has room; after that it
   * replaces a least similar neighbour when at least as similar, and stays out otherwise.
   */
  method Offer(heap: seq<Neighbour>, ghost dropped: seq<Neighbour>, e: Neighbour, k: nat)
    returns (heap': seq<Neighbour>, ghost dropped': seq<Neighbour>)
    requires 1 <= k && |heap| <= k && Outranked(dropped, heap)
    requires |heap| < k ==> dropped == []
    ensures |heap'| == if |heap| < k then |heap| + 1 else k
    ensures multiset(heap') + multiset(dropped') == multiset(heap) + multiset(dropped) + multiset{e}
    ensures Outranked(dropped', heap')
    ensures |heap'| < k ==> dropped' == []
  {
    if |heap| < k {
      heap', dropped' := heap + [e], dropped;
    } else {
      MinExists(heap);
      var p :| LeastAt(heap, p);
      if heap[p].1 <= e.1 {
        ReplaceLeast(heap, dropped, p, e);
        RemoveAtMultiset(heap, p);
        heap', dropped' := heap[..p] + heap[p + 1..] + [e], dropped + [heap[p]];
      } else {
        KeepOut(heap, dropped, p, e);
        heap', dropped' := heap, dropped + [e];
      }
    }
  }

  /**
   * The heap pass of next: the first k candidates go in; after that a candidate at least
   * as similar as the heap's least similar neighbour replaces it. Which of several least
   * similar neighbours leaves depends on the shuffled user order, so it is left open.
   * The heap ends with the top min(k, n) candidates by similarity.
   */
  method TopK(elems: seq<Neighbour>, k: nat) returns (heap: seq<Neighbour>)
    requires k >= 1 || elems == []
    ensures IsTopK(elems, k, heap)
  {
    ghost var dropped;
    heap, dropped := HeapPass(elems, k);
    TopKIsTopK(elems, k, heap, dropped);
  }

  // ---------------------------------------------------------------- item scores

  /** What one training rating of a neighbour adds: its similarity-weighted value, unless ignored as non-positive. */
  function Contribution(n: Neighbour, e: Entry<real>, ignoreZeros: bool): seq<(int, real)>
  {
    if !ignoreZeros || Weighted(n, e) > 0.0 then [(e.idx, Weighted(n, e))] else []
  }

  /** score(sim, rating): the neighbour's rating weighted by its similarity. */
  function Weighted(n: Neighbour, e: Entry<real>): real
  {
    n.1 * e.val
  }

  /** The weighted ratings one neighbour contributes, in list order. */
  function RowKept(n: Neighbour, row: seq<Entry<real>>, ignoreZeros: bool): seq<(int, real)>
  {
    if row == [] then []
    else RowKept(n, row[..|row| - 1], ignoreZeros) + Contribution(n, row[|row| - 1], ignoreZeros)
  }

  /** Every weighted rating the neighbours contribute, neighbour by neighbour. */
  function Kept(heap: seq<Neighbour>, rows: seq<Row>, ignoreZeros: bool): seq<(int, real)>
  {
    if heap == [] then []
    else
      var n := heap[|heap| - 1];
      Kept(heap[..|heap| - 1], rows, ignoreZeros) + RowKept(n, ListOf(rows, n.0), ignoreZeros)
  }

  /** The item score map after adding each contribution to its item (from a default of 0). */
  function Tally(cs: seq<(int, real)>): map<int, real>
  {
    if cs == [] then map[]
    else
      var m := Tally(cs[..|cs| - 1]);
      var c := cs[|cs| - 1];
      m[c.0 := (if c.0 in m then m[c.0] else 0.0) + c.1]
  }

  /** The scored items, in the order they first received a score. */
  function FirstSeen(cs: seq<(int, real)>): seq<int>
  {
    if cs == [] then []
    else
      var ks := FirstSeen(cs[..|cs| - 1]);
      var c := cs[|cs| - 1];
      if c.0 in ks then ks else ks + [c.0]
  }

  /** Exactly the items some contribution names are scored, each listed once. */
  lemma {:induction false} TallyKeys(cs: seq<(int, real)>)
    ensures forall x :: x in Tally(cs) <==> exists j :: 0 <= j < |cs| && cs[j].0 == x
    ensures forall x :: x in FirstSeen(cs) <==> x in Tally(cs)
    ensures forall a, b :: 0 <= a < b < |FirstSeen(cs)| ==> FirstSeen(cs)[a] != FirstSeen(cs)[b]
  {
    if cs != [] {
      var n := |cs| - 1;
      TallyKeys(cs[..n]);
      assert forall j :: 0 <= j < n ==> cs[..n][j] == cs[j];
    }
  }

  /** Adding one contribution updates its item's score and, the first time, the key order. */
  lemma {:induction false} Snoc(cs: seq<(int, real)>, c: (int, real))
    ensures Tally(cs + [c]) == Tally(cs)[c.0 := (if c.0 in Tally(cs) then Tally(cs)[c.0] else 0.0) + c.1]
    ensures FirstSeen(cs + [c]) == if c.0 in FirstSeen(cs) then FirstSeen(cs) else FirstSeen(cs) + [c.0]
  {
    assert (cs + [c])[..|cs|] == cs;
  }

  /** One more training rating of the neighbour adds at most one contribution. */
  lemma {:induction false} RowKeptSnoc(n: Neighbour, row: seq<Entry<real>>, t: int, ignoreZeros: bool)
    requires 0 <= t < |row|
    ensures RowKept(n, row[..t + 1], ignoreZeros) == RowKept(n, row[..t], ignoreZeros) + Contribution(n, row[t], ignoreZeros)
  {
    var r := row[..t + 1];
    assert r[..|r| - 1] == row[..t] && r[|r| - 1] == row[t];
  }

  lemma {:induction false} AccStep(before: seq<(int, real)>, n: Neighbour, row: seq<Entry<real>>, t: int, ignoreZeros: bool)
    requires 0 <= t < |row|
    ensures before + RowKept(n, row[..t + 1], ignoreZeros) == before + RowKept(n, row[..t], ignoreZeros) + Contribution(n, row[t], ignoreZeros)
  {
    RowKeptSnoc(n, row, t, ignoreZeros);
  }

  /** itemScores.addTo: one contribution added to its item's score (from a default of 0). */
  method AddTo(scores: map<int, real>, keys: seq<int>, ghost cs: seq<(int, real)>, c: (int, real))
    returns (scores': map<int, real>, keys': seq<int>)
    requires scores == Tally(cs) && keys == FirstSeen(cs)
    ensures scores' == Tally(cs + [c]) && keys' == FirstSeen(cs + [c])
  {
    Snoc(cs, c);
    var prior := if c.0 in scores then scores[c.0] else 0.0;
    scores' := scores[c.0 := prior + c.1];
    keys' := if c.0 in keys then keys else keys + [c.0];
  }

  /** The scoring of one neighbour's training ratings, continuing from contributions `before`. */
  method ScoreRow(scores: map<int, real>, keys: seq<int>, ghost before: seq<(int, real)>, n: Neighbour, row: seq<Entry<real>>, ignoreZeros: bool)
    returns (scores': map<int, real>, keys': seq<int>)
    requires scores == Tally(before) && keys == FirstSeen(before)
    ensures scores' == Tally(before + RowKept(n, row, ignoreZeros))
    ensures keys' == FirstSeen(before + RowKept(n, row, ignoreZeros))
  {
    scores', keys' := scores, keys;
    var t := 0;
    ghost var acc := before;
    assert row[..0] == [];
    while t < |row|
      invariant 0 <= t <= |row|
      invariant acc == before + RowKept(n, row[..t], ignoreZeros)
      invariant scores' == Tally(acc) && keys' == FirstSeen(acc)
    {
      var e := row[t];
      var p := Weighted(n, e);
      AccStep(before, n, row, t, ignoreZeros);
      if !ignoreZeros || p > 0.0 {
        assert Contribution(n, e, ignoreZeros) == [(e.idx, p)];
        scores', keys' := AddTo(scores', keys', acc, (e.idx, p));
        assert acc + Contribution(n, e, ignoreZeros) == acc + [(e.idx, p)];
      } else {
        assert Contribution(n, e, ignoreZeros) == [];
        assert acc + Contribution(n, e, ignoreZeros) == acc;
      }
      acc := acc + Contribution(n, e, ignoreZeros);
      t := t + 1;
    }
    assert row[..t] == row;
  }

  /** The scoring pass of next: itemScores and the order its keys appeared in. */
  method ScoreItems(heap: seq<Neighbour>, rows: seq<Row>, ignoreZeros: bool) returns (scores: map<int, real>, keys: seq<int>)
    ensures scores == Tally(Kept(heap, rows, ignoreZeros))
    ensures keys == FirstSeen(Kept(heap, rows, ignoreZeros))
  {
    scores, keys := map[], [];
    var j := 0;
    assert heap[..0] == [];
    while j < |heap|
      invariant 0 <= j <= |heap|
      invariant scores == Tally(Kept(heap[..j], rows, ignoreZeros))
      invariant keys == FirstSeen(Kept(heap[..j], rows, ignoreZeros))
    {
      assert heap[..j + 1][..j] == heap[..j];
      var n := heap[j];
      scores, keys := ScoreRow(scores, keys, Kept(heap[..j], rows, ignoreZeros), n, ListOf(rows, n.0), ignoreZeros);
      j := j + 1;
    }
    assert heap[..j] == heap;
  }

  /**
   * The selection pass of next: over the scored items that are still available, in key
   * order, keep the best score and every item tied with it.
   */
  method SelectScored(list: seq<int>, scores: map<int, real>, keys: seq<int>) returns (top: seq<int>, max: real)
    requires forall x :: x in keys ==> x in scores
    ensures top == [] <==> forall x :: x in keys ==> x !in list
    ensures forall x :: x in top ==> x in list && x in keys && scores[x] == max
    ensures forall x :: x in keys && x in list ==> scores[x] <= max
    ensures forall x :: x in keys && x in list && scores[x] == max ==> x in top
  {
    top, max := [], 0.0;
    var j := 0;
    while j < |keys|
      invariant 0 <= j <= |keys|
      invariant top == [] <==> forall x :: x in keys[..j] ==> x !in list
      invariant forall x :: x in top ==> x in list && x in keys[..j] && scores[x] == max
      invariant forall x :: x in keys[..j] && x in list ==> scores[x] <= max
      invariant forall x :: x in keys[..j] && x in list && scores[x] == max ==> x in top
    {
      assert keys[..j + 1] == keys[..j] + [keys[j]];
      var x := keys[j];
      if x in list {
        var v := scores[x];
        if top == [] || v > max {
          top, max := [x], v;
        } else if v == max {
          top := top + [x];
        }
      }
      j := j + 1;
    }
    assert keys[..j] == keys;
  }

  /** The heap holds min(k, n) of the candidates, and a candidate it holds fewer times than offered is at most as similar as any it keeps. */
  ghost predicate IsTopK(elems: seq<Neighbour>, k: nat, heap: seq<Neighbour>)
  {
    && |heap| == (if |elems| < k then |elems| else k)
    && multiset(heap) <= multiset(elems)
    && forall x :: x in elems && multiset(heap)[x] < multiset(elems)[x] ==> AtLeast(x.1, heap)
  }

  /** The heap pass keeps the top k candidates. */
  lemma {:induction false} TopKIsTopK(elems: seq<Neighbour>, k: nat, heap: seq<Neighbour>, dropped: seq<Neighbour>)
    requires |heap| == (if |elems| < k then |elems| else k)
    requires multiset(heap) + multiset(dropped) == multiset(elems)
    requires Outranked(dropped, heap)
    ensures IsTopK(elems, k, heap)
  {
    forall x | x in elems && multiset(heap)[x] < multiset(elems)[x] ensures AtLeast(x.1, heap) {
      assert multiset(dropped)[x] > 0;
      assert x in dropped;
    }
  }

  /** A candidate strictly more similar than some neighbour the heap keeps is kept itself. */
  lemma {:induction false} TopKKeepsBetter(elems: seq<Neighbour>, k: nat, heap: seq<Neighbour>, x: Neighbour, y: Neighbour)
    requires IsTopK(elems, k, heap)
    requires x in elems && y in heap && x.1 > y.1
    ensures x in heap
  {
  }

  /** With room for every candidate, the heap keeps them all. */
  lemma {:induction false} TopKAll(elems: seq<Neighbour>, k: nat, heap: seq<Neighbour>)
    requires IsTopK(elems, k, heap) && |elems| <= k
    ensures multiset(heap) == multiset(elems)
  {
    assert |multiset(heap)| == |multiset(elems)|;
    var extra := multiset(elems) - multiset(heap);
    assert multiset(elems) == multiset(heap) + extra;
    assert |extra| == 0;
  }

  // ---------------------------------------------------------------- the similarity

  /** The updateable similarity behind the recommender. */
  datatype Similarity =
    | Cosine(c: VectorCosineSimilarity)
    | Beta(b: BetaStochasticSimilarity)

  function SimObj(s: Similarity): object
  {
    match s
    case Cosine(c) => c
    case Beta(b) => b
  }

  /** The pair matrix: scalar products, or co-rating counts. */
  function Matrix(s: Similarity): array2<real>
  {
    match s
    case Cosine(c) => c.num
    case Beta(b) => b.sims
  }

  /** The per-user vector: squared norms, or positive-rating counts. */
  function Vector(s: Similarity): array<real>
  {
    match s
    case Cosine(c) => c.norm
    case Beta(b) => b.usercount
  }

  function SimUsers(s: Similarity): nat
  {
    match s
    case Cosine(c) => c.numUsers
    case Beta(b) => b.numUsers
  }

  ghost predicate SimValid(s: Similarity)
    reads SimObj(s)
  {
    && (match s
        case Cosine(c) => c.Valid()
        case Beta(b) => b.Valid())
    && Matrix(s).Length0 == SimUsers(s) && Matrix(s).Length1 == SimUsers(s) && Vector(s).Length == SimUsers(s)
  }

  /** The (user, item) pair of the last update, which decides whether the vector grows. */
  function Cursor(s: Similarity): (int, int)
    reads SimObj(s)
  {
    match s
    case Cosine(c) => (c.lastUser, c.lastItem)
    case Beta(b) => (b.lastu, b.lasti)
  }

  /** similarity(u)(v): the cosine, or a draw from the Beta distribution of the pair. */
  function SimValue(s: Similarity, u: int, v: int, root: real -> real, draw: (real, real) -> real): real
    requires SimValid(s) && 0 <= u < SimUsers(s) && 0 <= v < SimUsers(s)
    reads SimObj(s), Matrix(s), Vector(s)
  {
    match s
    case Cosine(c) => c.Similarity(u, v, root)
    case Beta(b) => b.Sampled(u, v, draw)
  }

  /** The similarity values of a neighbour list whose values are all numbers. */
  function Numbers(elems: seq<(int, Double)>): (r: seq<Neighbour>)
    requires forall k :: 0 <= k < |elems| ==> elems[k].1.Fin?
    ensures |r| == |elems|
    ensures forall k :: 0 <= k < |r| ==> r[k].0 == elems[k].0 && Fin(r[k].1) == elems[k].1
  {
    seq(|elems|, k requires 0 <= k < |elems| => (elems[k].0, elems[k].1.r))
  }

  /** similarElems(u): every other user of positive similarity, once, with that similarity. */
  function Candidates(s: Similarity, u: int, root: real -> real, draw: (real, real) -> real): (r: seq<Neighbour>)
    requires SimValid(s) && 0 <= u < SimUsers(s)
    reads SimObj(s), Matrix(s), Vector(s)
    ensures forall k :: 0 <= k < |r| ==>
              0 <= r[k].0 < SimUsers(s) && r[k].0 != u && r[k].1 == SimValue(s, u, r[k].0, root, draw) && r[k].1 > 0.0
    ensures forall v :: 0 <= v < SimUsers(s) && v != u && SimValue(s, u, v, root, draw) > 0.0 ==> exists k :: 0 <= k < |r| && r[k].0 == v
  {
    match s
    case Cosine(c) => Numbers(c.SimilarElems(u, root))
    case Beta(b) => Numbers(b.SampledElems(u, draw))
  }

  /** One update(u, v, i, uval, vval) call on the similarity. */
  datatype Pair = Pair(u: int, v: int, i: int, uval: real, vval: real)

  /** What one update call adds to entry (a, b) of the pair matrix: to (u, v) and to (v, u). */
  function Delta(s: Similarity, p: Pair, a: int, b: int): real
  {
    var w := if s.Cosine? then p.uval * p.vval else if p.uval * p.vval > 0.0 then 1.0 else 0.0;
    (if a == p.u && b == p.v then w else 0.0) + (if a == p.v && b == p.u then w else 0.0)
  }

  /** What a sequence of update calls adds to entry (a, b). */
  function Deltas(s: Similarity, ps: seq<Pair>, a: int, b: int): real
  {
    if ps == [] then 0.0 else Deltas(s, ps[..|ps| - 1], a, b) + Delta(s, ps[|ps| - 1], a, b)
  }

  /** The calls add the same to (a, b) as to (b, a). */
  lemma {:induction false} DeltasSymmetric(s: Similarity, ps: seq<Pair>, a: int, b: int)
    ensures Deltas(s, ps, a, b) == Deltas(s, ps, b, a)
  {
    if ps != [] {
      DeltasSymmetric(s, ps[..|ps| - 1], a, b);
    }
  }

  /**
   * The cursor and the vector after one update call: the vector entry of the call's
   * user grows (by uval squared, or by one for a positive uval) only when the call
   * moves the cursor to a new (user, item) pair.
   */
  function Step(s: Similarity, p: Pair, cursor: (int, int), vec: seq<real>): (r: ((int, int), seq<real>))
    requires 0 <= p.u < |vec|
    ensures |r.1| == |vec| && forall a :: 0 <= a < |vec| && a != p.u ==> r.1[a] == vec[a]
    ensures r.0 == (p.u, p.i)
    ensures cursor == (p.u, p.i) ==> r.1 == vec
  {
    if cursor == (p.u, p.i) then (cursor, vec)
    else if s.Cosine? then ((p.u, p.i), vec[p.u := vec[p.u] + Square(p.uval)])
    else if p.uval > 0.0 then ((p.u, p.i), vec[p.u := vec[p.u] + 1.0])
    else ((p.u, p.i), vec)
  }

  /** The cursor and the vector after a sequence of update calls. */
  function Steps(s: Similarity, ps: seq<Pair>, cursor: (int, int), vec: seq<real>): (r: ((int, int), seq<real>))
    requires forall p :: p in ps ==> 0 <= p.u < |vec|
    ensures |r.1| == |vec|
    ensures forall a :: 0 <= a < |vec| && (forall p :: p in ps ==> p.u != a) ==> r.1[a] == vec[a]
  {
    if ps == [] then (cursor, vec)
    else
      var n := |ps| - 1;
      assert forall p :: p in ps[..n] ==> p in ps;
      var st := Steps(s, ps[..n], cursor, vec);
      Step(s, ps[n], st.0, st.1)
  }

  /** One update call, on whichever similarity. */
  method Feed(s: Similarity, p: Pair)
    requires SimValid(s) && 0 <= p.u < SimUsers(s) && 0 <= p.v < SimUsers(s)
    modifies SimObj(s), Matrix(s), Vector(s)
    ensures SimValid(s)
    ensures forall a, b :: 0 <= a < SimUsers(s) && 0 <= b < SimUsers(s) ==>
              Matrix(s)[a, b] == old(Matrix(s)[a, b]) + Delta(s, p, a, b)
    ensures old(Symmetric(Matrix(s))) ==> Symmetric(Matrix(s))
    ensures (Cursor(s), Vector(s)[..]) == Step(s, p, old(Cursor(s)), old(Vector(s)[..]))
  {
    match s
    case Cosine(c) => c.Update(p.u, p.v, p.i, p.uval, p.vval);
    case Beta(b) => b.Update(p.u, p.v, p.i, p.uval, p.vval);
  }

  /** The update calls in order. */
  method FeedAll(s: Similarity, ps: seq<Pair>)
    requires SimValid(s) && forall p :: p in ps ==> 0 <= p.u < SimUsers(s) && 0 <= p.v < SimUsers(s)
    modifies SimObj(s), Matrix(s), Vector(s)
    ensures SimValid(s)
    ensures forall a, b :: 0 <= a < SimUsers(s) && 0 <= b < SimUsers(s) ==>
              Matrix(s)[a, b] == old(Matrix(s)[a, b]) + Deltas(s, ps, a, b)
    ensures old(Symmetric(Matrix(s))) ==> Symmetric(Matrix(s))
    ensures (Cursor(s), Vector(s)[..]) == Steps(s, ps, old(Cursor(s)), old(Vector(s)[..]))
  {
    var j := 0;
    while j < |ps|
      invariant 0 <= j <= |ps| && SimValid(s)
      invariant forall a, b :: 0 <= a < SimUsers(s) && 0 <= b < SimUsers(s) ==>
                  Matrix(s)[a, b] == old(Matrix(s)[a, b]) + Deltas(s, ps[..j], a, b)
      invariant old(Symmetric(Matrix(s))) ==> Symmetric(Matrix(s))
      invariant (Cursor(s), Vector(s)[..]) == Steps(s, ps[..j], old(Cursor(s)), old(Vector(s)[..]))
    {
      assert ps[..j + 1][..j] == ps[..j];
      assert ps[j] in ps;
      Feed(s, ps[j]);
      j := j + 1;
    }
    assert ps[..j] == ps;
  }

  /** The product and the per-rating weight the bulk update of the similarity adds up. */
  function Product(s: Similarity): Product
  {
    if s.Cosine? then Times else One
  }

  function Norm(s: Similarity): real -> real
  {
    if s.Cosine? then Square else Unit
  }

  /** The similarity as update(prefData) leaves it for the user lists `rows` and item lists `cols`. */
  ghost predicate Rebuilt(s: Similarity, rows: seq<Row>, cols: seq<Row>)
    reads Matrix(s), Vector(s)
  {
    && Matrix(s).Length0 == |rows| && Matrix(s).Length1 == |rows| && Vector(s).Length == |rows|
    && (forall a, b :: 0 <= a < |rows| && 0 <= b < |rows| ==> Matrix(s)[a, b] == Cross(ListOf(rows, a), cols, b, Product(s)))
    && (forall a :: 0 <= a < |rows| ==> Vector(s)[a] == Weight(ListOf(rows, a), Norm(s)))
  }

  /** update(prefData) on whichever similarity. */
  method Rebuild(s: Similarity, rows: seq<Row>, cols: seq<Row>)
    requires SimValid(s) && |rows| == SimUsers(s) && Consistent(rows, cols)
    modifies Matrix(s), Vector(s)
    ensures SimValid(s) && Rebuilt(s, rows, cols) && Symmetric(Matrix(s))
  {
    ConsistentKeys(rows, cols);
    match s
    case Cosine(c) => c.UpdateAll(rows, cols);
    case Beta(b) => b.UpdateAll(rows, cols);
  }

  /** After a rebuild, each matrix entry adds up the product over the items both users rated. */
  lemma RebuiltCoRated(s: Similarity, rows: seq<Row>, cols: seq<Row>, a: int, b: int)
    requires Rebuilt(s, rows, cols) && Consistent(rows, cols) && 0 <= a < |rows| && 0 <= b < |rows|
    ensures Matrix(s)[a, b] == CoRated(rows, a, b, Product(s), |cols|)
  {
    BulkNumerator(rows, cols, a, b, Product(s));
  }

  /** After a rebuild, the Beta similarity counts each user's ratings. */
  lemma RebuiltCounts(s: Similarity, rows: seq<Row>, cols: seq<Row>, a: int)
    requires Rebuilt(s, rows, cols) && s.Beta? && 0 <= a < |rows|
    ensures Vector(s)[a] == |ListOf(rows, a)| as real
  {
    WeightUnit(ListOf(rows, a));
  }

  // ---------------------------------------------------------------- the recommender

  /** The update calls updateMethod makes for one rating: one per training rater of its item. */
  function RowPairs(c: Rating, col: seq<Entry<real>>): (ps: seq<Pair>)
    ensures |ps| == |col|
    ensures forall t :: 0 <= t < |col| ==> ps[t] == Pair(c.u, col[t].idx, c.i, c.v, col[t].val)
  {
    seq(|col|, t requires 0 <= t < |col| => Pair(c.u, col[t].idx, c.i, c.v, col[t].val))
  }

  /** The update calls for a sequence of ratings, each with its item's raters as they stood. */
  function Pairs(calls: seq<Rating>, raters: seq<Row>): seq<Pair>
    requires |calls| == |raters|
  {
    if calls == [] then []
    else
      var n := |calls| - 1;
      Pairs(calls[..n], raters[..n]) + RowPairs(calls[n], Entries(raters[n]))
  }

  /** Every update call is for a rating's user and one of its raters. */
  lemma {:induction false} PairsFrom(calls: seq<Rating>, raters: seq<Row>, p: Pair)
    requires |calls| == |raters| && p in Pairs(calls, raters)
    ensures exists k, t :: 0 <= k < |calls| && 0 <= t < |Entries(raters[k])| && p.u == calls[k].u && p.v == Entries(raters[k])[t].idx
  {
    var n := |calls| - 1;
    var front := Pairs(calls[..n], raters[..n]);
    if p in front {
      PairsFrom(calls[..n], raters[..n], p);
      var k, t :| 0 <= k < n && 0 <= t < |Entries(raters[..n][k])| && p.u == calls[..n][k].u && p.v == Entries(raters[..n][k])[t].idx;
      assert calls[..n][k] == calls[k] && raters[..n][k] == raters[k];
    } else {
      var col := Entries(raters[n]);
      var t :| 0 <= t < |col| && RowPairs(calls[n], col)[t] == p;
      assert p.u == calls[n].u && p.v == col[t].idx;
    }
  }

  /**
   * The rest of next once the neighbours are known: an available item of the highest
   * score when some available item has one, otherwise any available item.
   */
  method Recommend(list: seq<int>, heap: seq<Neighbour>, rows: seq<Row>, ignoreZeros: bool) returns (r: int)
    requires list != []
    ensures r in list
    ensures var scores := Tally(Kept(heap, rows, ignoreZeros));
            (exists x :: x in list && x in scores) ==> r in scores && forall x :: x in list && x in scores ==> scores[x] <= scores[r]
  {
    var scores, keys := ScoreItems(heap, rows, ignoreZeros);
    TallyKeys(Kept(heap, rows, ignoreZeros));
    if heap == [] {
      assert Kept(heap, rows, ignoreZeros) == [];
      r := PickAny(list);
      return;
    }
    var top, max := SelectScored(list, scores, keys);
    if top == [] {
      r := PickAny(list);
    } else {
      r := PickTie(top);
    }
  }

  /** next for a non-empty list, given the candidate neighbours: the heap, then the scored choice. */
  method Choose(elems: seq<Neighbour>, k: nat, list: seq<int>, rows: seq<Row>, ignoreZeros: bool) returns (r: int, heap: seq<Neighbour>)
    requires (k >= 1 || elems == []) && list != []
    ensures r in list
    ensures IsTopK(elems, k, heap)
    ensures var scores := Tally(Kept(heap, rows, ignoreZeros));
            (exists x :: x in list && x in scores) ==> r in scores && forall x :: x in list && x in scores ==> scores[x] <= scores[r]
  {
    heap := TopK(elems, k);
    r := Recommend(list, heap, rows, ignoreZeros);
  }

  /** The interactive user-based kNN recommender, scoring a neighbour's rating by the rating itself. */
  class UserBasedKNN {
    const base: InteractiveRecommender
    const sim: Similarity
    /** The number of neighbours. */
    const k: nat
    /** Whether non-positive weighted ratings are left out of the item scores. */
    const ignoreZeros: bool

    ghost predicate Valid()
      reads this, base, base.trainData, SimObj(sim)
    {
      && base.Valid() && SimValid(sim)
      && SimUsers(sim) == |base.truth|
      && (k >= 1 || |base.truth| == 0)
    }

    /** A non-positive k means every user. */
    constructor (base: InteractiveRecommender, sim: Similarity, k: int, ignoreZeros: bool)
      requires base.Valid() && SimValid(sim) && SimUsers(sim) == |base.truth|
      ensures Valid() && this.base == base && this.sim == sim && this.ignoreZeros == ignoreZeros
      ensures this.k == if k > 0 then k else |base.truth|
    {
      this.base := base;
      this.sim := sim;
      this.k := if k > 0 then k else |base.truth|;
      this.ignoreZeros := ignoreZeros;
    }

    /** Every training rater of an item is a user of the similarity. */
    lemma ColumnKeys()
      requires Valid()
      ensures forall i, t :: 0 <= t < |Entries(base.Column(i))| ==> 0 <= Entries(base.Column(i))[t].idx < SimUsers(sim)
    {
      ConsistentKeys(base.trainData.uidxList, base.trainData.iidxList);
      forall i, t | 0 <= t < |Entries(base.Column(i))|
        ensures 0 <= Entries(base.Column(i))[t].idx < SimUsers(sim)
      {
        assert Entries(base.Column(i)) == ListOf(base.trainData.iidxList, i);
      }
    }

    /**
     * next(u): -1 for an empty list. Otherwise the top k candidate neighbours go into
     * `heap`, their training ratings weighted by similarity are added up per item, and
     * an available item of the highest score is chosen; when no available item has a
     * score, any available item is.
     */
    method Next(u: int, root: real -> real, draw: (real, real) -> real) returns (r: int, ghost heap: seq<Neighbour>, ghost elems: seq<Neighbour>)
      requires Valid() && 0 <= u < |base.availability|
      ensures r == -1 <==> base.availability[u] == []
      ensures r != -1 ==> r in base.availability[u]
      ensures base.availability[u] != [] ==> elems == Candidates(sim, u, root, draw) && IsTopK(elems, k, heap)
      ensures var scores := Tally(Kept(heap, base.trainData.uidxList, ignoreZeros));
              (exists x :: x in base.availability[u] && x in scores) ==>
                r in scores && forall x :: x in base.availability[u] && x in scores ==> scores[x] <= scores[r]
    {
      var list := base.availability[u];
      heap, elems := [], [];
      if list == [] {
        return -1, heap, elems;
      }
      var candidates := Candidates(sim, u, root, draw);
      r, heap := Choose(candidates, k, list, base.trainData.uidxList, ignoreZeros);
      assert candidates == Candidates(sim, u, root, draw) by {
        assert unchanged(SimObj(sim), Matrix(sim), Vector(sim));
      }
      elems := candidates;
    }

    /**
     * update(u, i): the base update; each rating it passes on updates the similarity once
     * per training rater of its item, as the raters stood before that rating was stored.
     */
    method Update(u: int, i: int) returns (ghost pairs: seq<Pair>)
      requires Valid() && 0 <= u < |base.availability| && i in base.availability[u]
      requires base.MirrorBack(u, i) ==> 0 <= i < |base.availability| && u in base.availability[i]
      modifies base, base.trainData, SimObj(sim), Matrix(sim), Vector(sim)
      ensures Valid()
      ensures pairs == Pairs(base.Feedback(u, i),
                             (if base.Known(u, i) then [old(base.Column(i))] else [])
                             + (if base.FeedsBack(u, i) then [old(base.Column(u))] else []))
      ensures forall p :: p in pairs ==> 0 <= p.u < SimUsers(sim) && 0 <= p.v < SimUsers(sim)
      ensures forall a, b :: 0 <= a < SimUsers(sim) && 0 <= b < SimUsers(sim) ==>
                Matrix(sim)[a, b] == old(Matrix(sim)[a, b]) + Deltas(sim, pairs, a, b)
      ensures old(Symmetric(Matrix(sim))) ==> Symmetric(Matrix(sim))
      ensures (Cursor(sim), Vector(sim)[..]) == Steps(sim, pairs, old(Cursor(sim)), old(Vector(sim)[..]))
      ensures base.availability == base.Accepted(old(base.availability), u, i)
      ensures forall a, b :: base.trainData.Pref(a, b) == base.Stored(base.Feedback(u, i), a, b, old(base.trainData.Pref(a, b)))
    {
      var ps := Record(u, i);
      FeedAll(sim, ps);
      pairs := ps;
    }

    /** The base update of update(u, i), and the pairs whose similarity its ratings change. */
    method Record(u: int, i: int) returns (ps: seq<Pair>)
      requires Valid() && 0 <= u < |base.availability| && i in base.availability[u]
      requires base.MirrorBack(u, i) ==> 0 <= i < |base.availability| && u in base.availability[i]
      modifies base, base.trainData
      ensures Valid()
      ensures ps == Pairs(base.Feedback(u, i),
                          (if base.Known(u, i) then [old(base.Column(i))] else [])
                          + (if base.FeedsBack(u, i) then [old(base.Column(u))] else []))
      ensures forall p :: p in ps ==> 0 <= p.u < SimUsers(sim) && 0 <= p.v < SimUsers(sim)
      ensures base.availability == base.Accepted(old(base.availability), u, i)
      ensures forall a, b :: base.trainData.Pref(a, b) == base.Stored(base.Feedback(u, i), a, b, old(base.trainData.Pref(a, b)))
    {
      ColumnKeys();
      ghost var ci, cu := base.Column(i), base.Column(u);
      var calls, raters := base.Update(u, i);
      assert raters == (if base.Known(u, i) then [ci] else []) + (if base.FeedsBack(u, i) then [cu] else []);
      assert |calls| == |raters|;
      ps := Pairs(calls, raters);
      forall p | p in ps ensures 0 <= p.u < SimUsers(sim) && 0 <= p.v < SimUsers(sim) {
        PairsFrom(calls, raters, p);
      }
    }

    /** update(train): the base batch update, then the similarity is rebuilt from the training data. */
    method UpdateBatch(train: seq<(int, int)>)
      requires Valid()
      requires forall t :: t in train ==> 0 <= t.0 < |base.availability|
      requires base.notReciprocal ==> forall t :: t in train ==> 0 <= t.1 < |base.availability|
      modifies base, base.trainData, Matrix(sim), Vector(sim)
      ensures Valid()
      ensures Rebuilt(sim, base.trainData.uidxList, base.trainData.iidxList) && Symmetric(Matrix(sim))
      ensures forall a :: 0 <= a < |base.availability| ==>
                base.availability[a] == Without(old(base.availability)[a], base.Retired(train, a))
      ensures forall a, b :: base.trainData.Pref(a, b) == base.Stored(base.BatchRatings(train), a, b, old(base.trainData.Pref(a, b)))
    {
      var tuples := base.UpdateBatch(train);
      Rebuild(sim, base.trainData.uidxList, base.trainData.iidxList);
    }
  }
}
