// The incrementally updated user-user similarities of the kNN recommender: vector
// cosine (a matrix of dot products plus squared norms) and the Beta stochastic
// similarity (a matrix of co-rating counts plus rating counts). Each is fed one rating
// pair at a time, or recomputed in bulk from the sparse user and item lists.

module Similarities {
  import opened Common
  import opened SortedLists
  import opened Preferences

  /** How a pair of ratings of the same item contributes to a similarity numerator. */
  type Product = (real, real) -> real

  /** The cosine numerator: the product of both ratings. */
  function Times(x: real, y: real): real
  {
    x * y
  }

  /** The Beta numerator: one per co-rated item, whatever the ratings. */
  function One(x: real, y: real): real
  {
    1.0
  }

  /** The entries of a list, none for a `null` list. */
  function Entries(r: Row): seq<Entry<real>>
  {
    if r.Some? then r.value else []
  }

  /** The entries of list `a` of `rows`, none outside the matrix. */
  function ListOf(rows: seq<Row>, a: int): seq<Entry<real>>
  {
    if 0 <= a < |rows| then Entries(rows[a]) else []
  }

  /** Every index stored in `rows` is below `n`. */
  ghost predicate KeysBelow(rows: seq<Row>, n: int)
  {
    forall a, k :: 0 <= a < |rows| && 0 <= k < |Entries(rows[a])| ==> 0 <= Entries(rows[a])[k].idx < n
  }

  /** The user and item lists of a consistent preference matrix. */
  ghost predicate Consistent(rows: seq<Row>, cols: seq<Row>)
  {
    RowsSorted(rows) && RowsSorted(cols) && Mirror(rows, cols)
  }

  lemma ConsistentKeys(rows: seq<Row>, cols: seq<Row>)
    requires Consistent(rows, cols)
    ensures KeysBelow(rows, |cols|) && KeysBelow(cols, |rows|)
  {
    forall a, k | 0 <= a < |rows| && 0 <= k < |Entries(rows[a])|
      ensures 0 <= Entries(rows[a])[k].idx < |cols|
    {
      var e := Entries(rows[a])[k];
      LookupAt(rows[a].value, k);
      assert Get(rows, a, e.idx) == Some(e.val);
    }
    forall b, k | 0 <= b < |cols| && 0 <= k < |Entries(cols[b])|
      ensures 0 <= Entries(cols[b])[k].idx < |rows|
    {
      var e := Entries(cols[b])[k];
      LookupAt(cols[b].value, k);
      assert Get(cols, b, e.idx) == Some(e.val);
    }
  }

  /** What the inner loop adds for a rating `x` and the entries of `col` under index `v`. */
  function ColSum(col: seq<Entry<real>>, v: int, x: real, prod: Product): real
  {
    if col == [] then 0.0
    else
      var n := |col| - 1;
      ColSum(col[..n], v, x, prod) + (if col[n].idx == v then prod(x, col[n].val) else 0.0)
  }

  /** What the bulk update adds to the numerator of (u, v), `row` being u's list and `cols` the item lists. */
  function Cross(row: seq<Entry<real>>, cols: seq<Row>, v: int, prod: Product): real
  {
    if row == [] then 0.0
    else
      var n := |row| - 1;
      Cross(row[..n], cols, v, prod) + ColSum(ListOf(cols, row[n].idx), v, row[n].val, prod)
  }

  /** The sum of `w` over the ratings of a list. */
  function Weight(row: seq<Entry<real>>, w: real -> real): real
  {
    if row == [] then 0.0 else Weight(row[..|row| - 1], w) + w(row[|row| - 1].val)
  }

  function Square(x: real): real
  {
    x * x
  }

  function Unit(x: real): real
  {
    1.0
  }

  /** The contribution of item `i` when `x` is one user's rating of it, if any, and `y` the other's. */
  function Both(x: Option<real>, y: Option<real>, prod: Product): real
  {
    if x.Some? && y.Some? then prod(x.value, y.value) else 0.0
  }

  /** The sum over items 0..n-1 that users `u` and `v` both rated of `prod` of their ratings. */
  function CoRated(rows: seq<Row>, u: int, v: int, prod: Product, n: nat): real
  {
    if n == 0 then 0.0 else CoRated(rows, u, v, prod, n - 1) + Both(Get(rows, u, n - 1), Get(rows, v, n - 1), prod)
  }

  /** The same sum, with user `u`'s ratings read from the list `row`. */
  function Dense(row: seq<Entry<real>>, rows: seq<Row>, v: int, prod: Product, n: nat): real
  {
    if n == 0 then 0.0 else Dense(row, rows, v, prod, n - 1) + Both(Lookup(row, n - 1), Get(rows, v, n - 1), prod)
  }

  /** In a sorted list at most one entry has index `v`, so the inner loop adds one product at most. */
  lemma {:induction false} ColSumLookup(col: seq<Entry<real>>, v: int, x: real, prod: Product)
    requires StrictlySorted(Keys(col))
    ensures ColSum(col, v, x, prod) == Both(Some(x), Lookup(col, v), prod)
  {
    if col != [] {
      var n := |col| - 1;
      var p := col[..n];
      assert p + [col[n]] == col;
      assert Keys(p) == Keys(col)[..n];
      ColSumLookup(p, v, x, prod);
      LookupAppend(p, [col[n]], v);
      if col[n].idx == v {
        assert v !in Keys(p) by {
          forall k | 0 <= k < n ensures Keys(p)[k] != v {
            assert Keys(col)[k] < Keys(col)[n];
          }
        }
        LookupAbsent(p, v);
      }
    }
  }

  /** Appending an entry with a new index adds its one product to the dense sum. */
  lemma {:induction false} DenseAppend(p: seq<Entry<real>>, e: Entry<real>, rows: seq<Row>, v: int, prod: Product, n: nat)
    requires e.idx !in Keys(p)
    ensures Dense(p + [e], rows, v, prod, n)
            == Dense(p, rows, v, prod, n) + (if 0 <= e.idx < n then Both(Some(e.val), Get(rows, v, e.idx), prod) else 0.0)
  {
    if n > 0 {
      DenseAppend(p, e, rows, v, prod, n - 1);
      LookupAppend(p, [e], n - 1);
      assert [e][1..] == [];
      if e.idx == n - 1 {
        LookupAbsent(p, n - 1);
        assert Lookup(p + [e], n - 1) == Some(e.val);
      } else {
        assert Lookup([e], n - 1) == None;
        assert Lookup(p + [e], n - 1) == Lookup(p, n - 1);
      }
    }
  }

  lemma {:induction false} DenseEmpty(rows: seq<Row>, v: int, prod: Product, n: nat)
    ensures Dense([], rows, v, prod, n) == 0.0
  {
    if n > 0 {
      DenseEmpty(rows, v, prod, n - 1);
    }
  }

  /** Over a consistent matrix, the bulk numerator of a sorted list is the dense sum over co-rated items. */
  lemma {:induction false} CrossDense(row: seq<Entry<real>>, rows: seq<Row>, cols: seq<Row>, v: int, prod: Product)
    requires Consistent(rows, cols) && StrictlySorted(Keys(row))
    requires forall k :: 0 <= k < |row| ==> 0 <= row[k].idx < |cols|
    ensures Cross(row, cols, v, prod) == Dense(row, rows, v, prod, |cols|)
  {
    if row != [] {
      var n := |row| - 1;
      var p := row[..n];
      var e := row[n];
      assert p + [e] == row;
      assert Keys(p) == Keys(row)[..n];
      CrossDense(p, rows, cols, v, prod);
      assert e.idx !in Keys(p) by {
        forall k | 0 <= k < n ensures Keys(p)[k] != e.idx {
          assert Keys(row)[k] < Keys(row)[n];
        }
      }
      DenseAppend(p, e, rows, v, prod, |cols|);
      var col := ListOf(cols, e.idx);
      if cols[e.idx].Some? {
        assert StrictlySorted(Keys(col));
      }
      ColSumLookup(col, v, e.val, prod);
      assert Lookup(col, v) == Get(cols, e.idx, v) == Get(rows, v, e.idx);
    } else {
      DenseEmpty(rows, v, prod, |cols|);
    }
  }

  lemma {:induction false} DenseRows(rows: seq<Row>, u: int, v: int, prod: Product, n: nat)
    requires 0 <= u < |rows|
    ensures Dense(ListOf(rows, u), rows, v, prod, n) == CoRated(rows, u, v, prod, n)
  {
    if n > 0 {
      DenseRows(rows, u, v, prod, n - 1);
    }
  }

  /** With a symmetric product, the co-rated sum does not depend on the order of the two users. */
  lemma {:induction false} CoRatedSymmetric(rows: seq<Row>, u: int, v: int, prod: Product, n: nat)
    requires forall x, y :: prod(x, y) == prod(y, x)
    ensures CoRated(rows, u, v, prod, n) == CoRated(rows, v, u, prod, n)
  {
    if n > 0 {
      CoRatedSymmetric(rows, u, v, prod, n - 1);
      var x, y := Get(rows, u, n - 1), Get(rows, v, n - 1);
      if x.Some? && y.Some? {
        assert prod(x.value, y.value) == prod(y.value, x.value);
      }
    }
  }

  /**
   * The bulk numerator of users `u` and `v` over a consistent matrix is their co-rated
   * sum: the dot product of their rating vectors for cosine, the number of items both
   * rated for Beta.
   */
  lemma BulkNumerator(rows: seq<Row>, cols: seq<Row>, u: int, v: int, prod: Product)
    requires Consistent(rows, cols) && 0 <= u < |rows|
    ensures Cross(ListOf(rows, u), cols, v, prod) == CoRated(rows, u, v, prod, |cols|)
  {
    ConsistentKeys(rows, cols);
    var row := ListOf(rows, u);
    if rows[u].Some? {
      assert StrictlySorted(Keys(row));
    }
    CrossDense(row, rows, cols, v, prod);
    DenseRows(rows, u, v, prod, |cols|);
  }

  /** Hence the bulk numerators are symmetric for both products. */
  lemma BulkSymmetric(rows: seq<Row>, cols: seq<Row>, u: int, v: int, prod: Product)
    requires Consistent(rows, cols) && 0 <= u < |rows| && 0 <= v < |rows|
    requires prod == Times || prod == One
    ensures Cross(ListOf(rows, u), cols, v, prod) == Cross(ListOf(rows, v), cols, u, prod)
  {
    BulkNumerator(rows, cols, u, v, prod);
    BulkNumerator(rows, cols, v, u, prod);
    CoRatedSymmetric(rows, u, v, prod, |cols|);
  }

  /** Beyond the indices the item lists hold, the bulk numerator is 0. */
  lemma {:induction false} CrossOutside(row: seq<Entry<real>>, cols: seq<Row>, v: int, prod: Product, n: int)
    requires KeysBelow(cols, n) && !(0 <= v < n)
    ensures Cross(row, cols, v, prod) == 0.0
  {
    if row != [] {
      var k := |row| - 1;
      CrossOutside(row[..k], cols, v, prod, n);
      ColSumOutside(ListOf(cols, row[k].idx), v, row[k].val, prod);
    }
  }

  lemma {:induction false} ColSumOutside(col: seq<Entry<real>>, v: int, x: real, prod: Product)
    requires forall k :: 0 <= k < |col| ==> col[k].idx != v
    ensures ColSum(col, v, x, prod) == 0.0
  {
    if col != [] {
      ColSumOutside(col[..|col| - 1], v, x, prod);
    }
  }

  /** A square matrix equal to its transpose. */
  ghost predicate Symmetric(m: array2<real>)
    reads m
  {
    forall a, b :: 0 <= a < m.Length0 && 0 <= b < m.Length0 && a < m.Length1 && b < m.Length1 ==> m[a, b] == m[b, a]
  }

  /** The inner loop of the bulk update: every entry of `col` adds `prod(x, rating)` to row `u`. */
  method AddColumn(m: array2<real>, u: int, x: real, col: seq<Entry<real>>, prod: Product)
    requires 0 <= u < m.Length0 && forall k :: 0 <= k < |col| ==> 0 <= col[k].idx < m.Length1
    modifies m
    ensures forall a, b :: 0 <= a < m.Length0 && 0 <= b < m.Length1 ==>
              m[a, b] == old(m[a, b]) + (if a == u then ColSum(col, b, x, prod) else 0.0)
  {
    var j := 0;
    assert col[..0] == [];
    assert forall b :: ColSum(col[..0], b, x, prod) == 0.0;
    while j < |col|
      invariant 0 <= j <= |col|
      invariant forall a, b :: 0 <= a < m.Length0 && 0 <= b < m.Length1 ==>
                  m[a, b] == old(m[a, b]) + (if a == u then ColSum(col[..j], b, x, prod) else 0.0)
    {
      assert col[..j + 1][..j] == col[..j];
      var e := col[j];
      m[u, e.idx] := m[u, e.idx] + prod(x, e.val);
      j := j + 1;
    }
    assert col[..j] == col;
  }

  /**
   * One user of the bulk update: for each rating of `row`, the item's list feeds row `u`
   * of `m`; the result is the sum of `w` over the ratings (what the user's norm becomes).
   */
  method AddRow(m: array2<real>, u: int, row: seq<Entry<real>>, cols: seq<Row>, prod: Product, w: real -> real)
    returns (total: real)
    requires 0 <= u < m.Length0 && KeysBelow(cols, m.Length1)
    modifies m
    ensures total == Weight(row, w)
    ensures forall a, b :: 0 <= a < m.Length0 && 0 <= b < m.Length1 ==>
              m[a, b] == old(m[a, b]) + (if a == u then Cross(row, cols, b, prod) else 0.0)
  {
    total := 0.0;
    var k := 0;
    assert row[..0] == [];
    assert forall b :: Cross(row[..0], cols, b, prod) == 0.0;
    while k < |row|
      invariant 0 <= k <= |row| && total == Weight(row[..k], w)
      invariant forall a, b :: 0 <= a < m.Length0 && 0 <= b < m.Length1 ==>
                  m[a, b] == old(m[a, b]) + (if a == u then Cross(row[..k], cols, b, prod) else 0.0)
    {
      assert row[..k + 1][..k] == row[..k];
      var e := row[k];
      AddColumn(m, u, e.val, ListOf(cols, e.idx), prod);
      total := total + w(e.val);
      k := k + 1;
    }
    assert row[..k] == row;
  }

  /** The bulk update over the users of `rows`: their block of `m` zeroed, then refilled user by user. */
  method Recompute(m: array2<real>, weights: array<real>, rows: seq<Row>, cols: seq<Row>, prod: Product, w: real -> real)
    requires |rows| <= m.Length0 && |rows| <= m.Length1 && |rows| <= weights.Length
    requires KeysBelow(cols, |rows|)
    modifies m, weights
    ensures forall a, b :: 0 <= a < m.Length0 && 0 <= b < m.Length1 ==>
              m[a, b] == if a < |rows| && b < |rows| then Cross(ListOf(rows, a), cols, b, prod) else old(m[a, b])
    ensures forall a :: 0 <= a < weights.Length ==>
              weights[a] == if a < |rows| then Weight(ListOf(rows, a), w) else old(weights[a])
  {
    var a := 0;
    while a < |rows|
      modifies m
      invariant 0 <= a <= |rows|
      invariant forall x, y :: 0 <= x < m.Length0 && 0 <= y < m.Length1 ==>
                  m[x, y] == if x < a && y < |rows| then 0.0 else old(m[x, y])
    {
      var b := 0;
      while b < |rows|
        modifies m
        invariant 0 <= b <= |rows|
        invariant forall x, y :: 0 <= x < m.Length0 && 0 <= y < m.Length1 ==>
                    m[x, y] == if (x < a && y < |rows|) || (x == a && y < b) then 0.0 else old(m[x, y])
      {
        m[a, b] := 0.0;
        b := b + 1;
      }
      a := a + 1;
    }
    var u := 0;
    while u < |rows|
      invariant 0 <= u <= |rows|
      invariant forall x, y :: 0 <= x < m.Length0 && 0 <= y < m.Length1 ==>
                  m[x, y] == if x < |rows| && y < |rows| then (if x < u then Cross(ListOf(rows, x), cols, y, prod) else 0.0) else old(m[x, y])
      invariant forall x :: 0 <= x < weights.Length ==>
                  weights[x] == if x < u then Weight(ListOf(rows, x), w) else old(weights[x])
    {
      forall y | 0 <= y < m.Length1 && !(y < |rows|)
        ensures Cross(ListOf(rows, u), cols, y, prod) == 0.0
      {
        CrossOutside(ListOf(rows, u), cols, y, prod, |rows|);
      }
      var total := AddRow(m, u, ListOf(rows, u), cols, prod, w);
      weights[u] := total;
      u := u + 1;
    }
  }

  /** A similarity that similarElems keeps: a number above 0. */
  predicate Positive(d: Double)
  {
    d.PosInf? || (d.Fin? && d.r > 0.0)
  }

  /**
   * The users other than `u`, in index order, whose similarity in `sims` is a number
   * above 0, each with that similarity (similarElems).
   */
  function Neighbours(sims: seq<Double>, u: int, n: nat): (r: seq<(int, Double)>)
    requires n <= |sims|
    ensures forall k :: 0 <= k < |r| ==> 0 <= r[k].0 < n && r[k].0 != u && r[k].1 == sims[r[k].0] && Positive(r[k].1)
    ensures forall j, k :: 0 <= j < k < |r| ==> r[j].0 < r[k].0
  {
    if n == 0 then []
    else
      var front := Neighbours(sims, u, n - 1);
      if n - 1 != u && Positive(sims[n - 1]) then front + [(n - 1, sims[n - 1])] else front
  }

  /** Every other user of positive similarity is listed. */
  lemma {:induction false} NeighboursComplete(sims: seq<Double>, u: int, n: nat, v: int)
    requires n <= |sims| && 0 <= v < n && v != u && Positive(sims[v])
    ensures exists k :: 0 <= k < |Neighbours(sims, u, n)| && Neighbours(sims, u, n)[k].0 == v
  {
    var front := Neighbours(sims, u, n - 1);
    if v < n - 1 {
      NeighboursComplete(sims, u, n - 1, v);
      var k :| 0 <= k < |front| && front[k].0 == v;
      assert Neighbours(sims, u, n)[k] == front[k];
    } else {
      assert Neighbours(sims, u, n)[|front|].0 == v;
    }
  }

  /** Vector cosine similarity, kept up to date one rating pair at a time. */
  class VectorCosineSimilarity {
    const numUsers: nat
    /** The scalar products of each pair of users. */
    const num: array2<real>
    /** The squared norms of each user. */
    const norm: array<real>
    var lastUser: int
    var lastItem: int

    ghost predicate Valid()
      reads this
    {
      num.Length0 == numUsers && num.Length1 == numUsers && norm.Length == numUsers
    }

    constructor (numUsers: nat)
      ensures Valid() && this.numUsers == numUsers && fresh(num) && fresh(norm)
      ensures lastUser == -1 && lastItem == -1
      ensures forall a, b :: 0 <= a < numUsers && 0 <= b < numUsers ==> num[a, b] == 0.0
      ensures forall a :: 0 <= a < numUsers ==> norm[a] == 0.0
      ensures Symmetric(num)
    {
      this.numUsers := numUsers;
      num := new real[numUsers, numUsers]((a, b) => 0.0);
      norm := new real[numUsers](_ => 0.0);
      lastUser := -1;
      lastItem := -1;
    }

    /**
     * update(u, v, i, uval, vval): the product of both ratings joins num[u][v] and num[v][u]
     * (twice num[u][u] when u = v); uval^2 joins u's norm once per new (user, item) cursor.
     */
    method Update(u: int, v: int, i: int, uval: real, vval: real)
      requires Valid() && 0 <= u < numUsers && 0 <= v < numUsers
      modifies this, num, norm
      ensures Valid()
      ensures forall a, b :: 0 <= a < numUsers && 0 <= b < numUsers ==>
                num[a, b] == old(num[a, b]) + (if a == u && b == v then uval * vval else 0.0)
                                            + (if a == v && b == u then uval * vval else 0.0)
      ensures old(Symmetric(num)) ==> Symmetric(num)
      ensures var moved := old(lastUser) != u || old(lastItem) != i;
              && norm[..] == (if moved then old(norm[..])[u := old(norm[u]) + Square(uval)] else old(norm[..]))
              && (lastUser, lastItem) == (if moved then (u, i) else (old(lastUser), old(lastItem)))
    {
      num[u, v] := num[u, v] + uval * vval;
      num[v, u] := num[v, u] + uval * vval;
      if lastUser != u || lastItem != i {
        norm[u] := norm[u] + uval * uval;
        lastUser := u;
        lastItem := i;
      }
    }

    /**
     * similarity(u)(v) with `root` standing for the square root: 0 when the product of
     * the roots of both norms is 0, otherwise the scalar product divided by it.
     */
    function Similarity(u: int, v: int, root: real -> real): (r: real)
      requires Valid() && 0 <= u < numUsers && 0 <= v < numUsers
      reads this, num, norm
      ensures root(norm[u]) * root(norm[v]) != 0.0 ==> r * (root(norm[u]) * root(norm[v])) == num[u, v]
      ensures root(0.0) == 0.0 && (norm[u] == 0.0 || norm[v] == 0.0) ==> r == 0.0
    {
      var sum := root(norm[u]) * root(norm[v]);
      if sum == 0.0 then 0.0 else num[u, v] / sum
    }

    /** On a symmetric matrix of products the similarity is symmetric. */
    lemma SimilaritySymmetric(u: int, v: int, root: real -> real)
      requires Valid() && 0 <= u < numUsers && 0 <= v < numUsers && Symmetric(num)
      ensures Similarity(u, v, root) == Similarity(v, u, root)
    {
      assert root(norm[u]) * root(norm[v]) == root(norm[v]) * root(norm[u]);
    }

    /** similarElems(u): the other users of positive similarity, in index order. */
    function SimilarElems(u: int, root: real -> real): (r: seq<(int, Double)>)
      requires Valid() && 0 <= u < numUsers
      reads this, num, norm
      ensures forall k :: 0 <= k < |r| ==>
                0 <= r[k].0 < numUsers && r[k].0 != u && r[k].1 == Fin(Similarity(u, r[k].0, root)) && Similarity(u, r[k].0, root) > 0.0
      ensures forall v :: 0 <= v < numUsers && v != u && Similarity(u, v, root) > 0.0 ==> exists k :: 0 <= k < |r| && r[k].0 == v
    {
      var sims := seq(numUsers, v requires 0 <= v < numUsers reads this, num, norm => Fin(Similarity(u, v, root)));
      assert forall v :: 0 <= v < numUsers && v != u && Similarity(u, v, root) > 0.0 ==>
        exists k :: 0 <= k < |Neighbours(sims, u, numUsers)| && Neighbours(sims, u, numUsers)[k].0 == v by {
        forall v | 0 <= v < numUsers && v != u && Similarity(u, v, root) > 0.0 {
          NeighboursComplete(sims, u, numUsers, v);
        }
      }
      Neighbours(sims, u, numUsers)
    }

    /**
     * update(prefData): for the users of `rows` (the training user lists, `cols` the item
     * lists), num becomes the bulk scalar products and norm the sums of squared ratings.
     */
    method UpdateAll(rows: seq<Row>, cols: seq<Row>)
      requires Valid() && |rows| <= numUsers && KeysBelow(cols, |rows|)
      modifies num, norm
      ensures forall a, b :: 0 <= a < numUsers && 0 <= b < numUsers ==>
                num[a, b] == if a < |rows| && b < |rows| then Cross(ListOf(rows, a), cols, b, Times) else old(num[a, b])
      ensures forall a :: 0 <= a < numUsers ==>
                norm[a] == if a < |rows| then Weight(ListOf(rows, a), Square) else old(norm[a])
      ensures Consistent(rows, cols) && |rows| == numUsers ==> Symmetric(num)
    {
      Recompute(num, norm, rows, cols, Times, Square);
      if Consistent(rows, cols) && |rows| == numUsers {
        forall a, b | 0 <= a < numUsers && 0 <= b < numUsers
          ensures num[a, b] == num[b, a]
        {
          BulkSymmetric(rows, cols, a, b, Times);
        }
      }
    }
  }

  /** Beta stochastic similarity: co-rating counts, turned into Beta parameters. */
  class BetaStochasticSimilarity {
    const numUsers: nat
    /** How many items each pair of users both rated positively (the alpha counts). */
    const sims: array2<real>
    /** How many items each user rated positively. */
    const usercount: array<real>
    const alpha: real
    const beta: real
    var lastu: int
    var lasti: int

    ghost predicate Valid()
      reads this
    {
      sims.Length0 == numUsers && sims.Length1 == numUsers && usercount.Length == numUsers
    }

    /** All counts 0; the other constructor passes alpha = beta = 1. */
    constructor (numUsers: nat, alpha: real, beta: real)
      ensures Valid() && this.numUsers == numUsers && this.alpha == alpha && this.beta == beta
      ensures fresh(sims) && fresh(usercount) && lastu == -1 && lasti == -1
      ensures forall a, b :: 0 <= a < numUsers && 0 <= b < numUsers ==> sims[a, b] == 0.0
      ensures forall a :: 0 <= a < numUsers ==> usercount[a] == 0.0
      ensures Symmetric(sims)
    {
      this.numUsers := numUsers;
      this.alpha := alpha;
      this.beta := beta;
      sims := new real[numUsers, numUsers]((a, b) => 0.0);
      usercount := new real[numUsers](_ => 0.0);
      lastu := -1;
      lasti := -1;
    }

    /**
     * update(u, v, i, uval, vval): a pair of ratings of the same sign counts once for
     * (u, v) and once for (v, u); a positive uval counts for u once per new cursor.
     */
    method Update(u: int, v: int, i: int, uval: real, vval: real)
      requires Valid() && 0 <= u < numUsers && 0 <= v < numUsers
      modifies this, sims, usercount
      ensures Valid()
      ensures forall a, b :: 0 <= a < numUsers && 0 <= b < numUsers ==>
                sims[a, b] == old(sims[a, b]) + (if uval * vval > 0.0 && a == u && b == v then 1.0 else 0.0)
                                              + (if uval * vval > 0.0 && a == v && b == u then 1.0 else 0.0)
      ensures old(Symmetric(sims)) ==> Symmetric(sims)
      ensures var moved := old(lastu) != u || old(lasti) != i;
              && usercount[..] == (if moved && uval > 0.0 then old(usercount[..])[u := old(usercount[u]) + 1.0] else old(usercount[..]))
              && (lastu, lasti) == (if moved then (u, i) else (old(lastu), old(lasti)))
    {
      if uval * vval > 0.0 {
        sims[u, v] := sims[u, v] + 1.0;
        sims[v, u] := sims[v, u] + 1.0;
      }
      if lastu != u || lasti != i {
        lastu := u;
        lasti := i;
        if uval > 0.0 {
          usercount[u] := usercount[u] + 1.0;
        }
      }
    }

    /** exactSimilarity(u)(v): the mean-like ratio (sims[u][v] + alpha) / (usercount[v] + beta), in Java division. */
    function ExactSimilarity(u: int, v: int): (r: Double)
      requires Valid() && 0 <= u < numUsers && 0 <= v < numUsers
      reads this, sims, usercount
      ensures usercount[v] + beta != 0.0 ==> r == Fin((sims[u, v] + alpha) / (usercount[v] + beta))
      ensures usercount[v] + beta == 0.0 ==> !r.Fin?
      ensures sims[u, v] + alpha > 0.0 && usercount[v] + beta > 0.0 ==> Positive(r)
    {
      Div(sims[u, v] + alpha, usercount[v] + beta)
    }

    /** exactSimilarElems(u): the other users whose exact similarity is above 0, in index order. */
    function ExactSimilarElems(u: int): (r: seq<(int, Double)>)
      requires Valid() && 0 <= u < numUsers
      reads this, sims, usercount
      ensures forall k :: 0 <= k < |r| ==>
                0 <= r[k].0 < numUsers && r[k].0 != u && r[k].1 == ExactSimilarity(u, r[k].0) && Positive(r[k].1)
      ensures forall v :: 0 <= v < numUsers && v != u && Positive(ExactSimilarity(u, v)) ==> exists k :: 0 <= k < |r| && r[k].0 == v
    {
      var ss := seq(numUsers, v requires 0 <= v < numUsers reads this, sims, usercount => ExactSimilarity(u, v));
      assert forall v :: 0 <= v < numUsers && v != u && Positive(ExactSimilarity(u, v)) ==>
        exists k :: 0 <= k < |Neighbours(ss, u, numUsers)| && Neighbours(ss, u, numUsers)[k].0 == v by {
        forall v | 0 <= v < numUsers && v != u && Positive(ExactSimilarity(u, v)) {
          NeighboursComplete(ss, u, numUsers, v);
        }
      }
      Neighbours(ss, u, numUsers)
    }

    /**
     * similarity(u)(v): a draw from Beta(sims[u][v] + alpha, usercount[v] - sims[u][v] + beta);
     * `draw` stands for the random Beta sampler, given both parameters.
     */
    function Sampled(u: int, v: int, draw: (real, real) -> real): real
      requires Valid() && 0 <= u < numUsers && 0 <= v < numUsers
      reads this, sims, usercount
    {
      draw(sims[u, v] + alpha, usercount[v] - sims[u, v] + beta)
    }

    /** similarElems(u): the other users whose sampled similarity is above 0, in index order. */
    function SampledElems(u: int, draw: (real, real) -> real): (r: seq<(int, Double)>)
      requires Valid() && 0 <= u < numUsers
      reads this, sims, usercount
      ensures forall k :: 0 <= k < |r| ==>
                0 <= r[k].0 < numUsers && r[k].0 != u && r[k].1 == Fin(Sampled(u, r[k].0, draw)) && Sampled(u, r[k].0, draw) > 0.0
      ensures forall v :: 0 <= v < numUsers && v != u && Sampled(u, v, draw) > 0.0 ==> exists k :: 0 <= k < |r| && r[k].0 == v
    {
      var ss := seq(numUsers, v requires 0 <= v < numUsers reads this, sims, usercount => Fin(Sampled(u, v, draw)));
      assert forall v :: 0 <= v < numUsers && v != u && Sampled(u, v, draw) > 0.0 ==>
        exists k :: 0 <= k < |Neighbours(ss, u, numUsers)| && Neighbours(ss, u, numUsers)[k].0 == v by {
        forall v | 0 <= v < numUsers && v != u && Sampled(u, v, draw) > 0.0 {
          NeighboursComplete(ss, u, numUsers, v);
        }
      }
      Neighbours(ss, u, numUsers)
    }

    /**
     * update(prefData): every rating counts, whatever its sign; usercount becomes the
     * length of each user's list and sims the number of items both users rated.
     */
    method UpdateAll(rows: seq<Row>, cols: seq<Row>)
      requires Valid() && |rows| <= numUsers && KeysBelow(cols, |rows|)
      modifies sims, usercount
      ensures forall a, b :: 0 <= a < numUsers && 0 <= b < numUsers ==>
                sims[a, b] == if a < |rows| && b < |rows| then Cross(ListOf(rows, a), cols, b, One) else old(sims[a, b])
      ensures forall a :: 0 <= a < numUsers ==>
                usercount[a] == if a < |rows| then Weight(ListOf(rows, a), Unit) else old(usercount[a])
      ensures Consistent(rows, cols) && |rows| == numUsers ==> Symmetric(sims)
    {
      Recompute(sims, usercount, rows, cols, One, Unit);
      if Consistent(rows, cols) && |rows| == numUsers {
        forall a, b | 0 <= a < numUsers && 0 <= b < numUsers
          ensures sims[a, b] == sims[b, a]
        {
          BulkSymmetric(rows, cols, a, b, One);
        }
      }
    }
  }

  /** Each rating of a list counts 1 toward usercount, so the bulk count is the list's length. */
  lemma {:induction false} WeightUnit(row: seq<Entry<real>>)
    ensures Weight(row, Unit) == |row| as real
  {
    if row != [] {
      WeightUnit(row[..|row| - 1]);
    }
  }
}
