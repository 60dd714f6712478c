// The list algebra behind the graph relations (the Fast*Relation classes). A relation
// between "first" and "second" elements keeps, for every first element, the sorted
// list of the second elements it relates to (secondIdxList) and, for every second
// element, the sorted list of the first elements relating to it (firstIdxList). This
// module holds what the relation classes share: lookups over those lists of lists, the
// mirror condition tying the two sides, the renumbering an auto-relation performs when
// an element is removed, the counts that removal relies on, and the inverse lists the
// constructors build.

module RelationLists {
  import opened Common
  import opened SortedLists

  /** Whether list `a` of `lists` holds `b`; false when there is no list `a`. */
  predicate Has(lists: seq<seq<int>>, a: int, b: int)
  {
    0 <= a < |lists| && b in lists[a]
  }

  /** The weight row `a` of `rows` stores for index `b`, if any. */
  function Get<W>(rows: seq<seq<Entry<W>>>, a: int, b: int): Option<W>
  {
    if 0 <= a < |rows| then Lookup(rows[a], b) else None
  }

  ghost predicate ListsSorted(lists: seq<seq<int>>)
  {
    forall a :: 0 <= a < |lists| ==> StrictlySorted(lists[a])
  }

  ghost predicate RowsSorted<W>(rows: seq<seq<Entry<W>>>)
  {
    forall a :: 0 <= a < |rows| ==> StrictlySorted(Keys(rows[a]))
  }

  /** The lists of first elements hold exactly the transposed lists of second elements. */
  ghost predicate Mirrored(seconds: seq<seq<int>>, firsts: seq<seq<int>>)
  {
    forall f, s :: Has(seconds, f, s) <==> Has(firsts, s, f)
  }

  /** The same for weighted rows: both sides store the same weight for every pair. */
  ghost predicate MirroredRows<W>(seconds: seq<seq<Entry<W>>>, firsts: seq<seq<Entry<W>>>)
  {
    forall f, s :: Get(seconds, f, s) == Get(firsts, s, f)
  }

  predicate Distinct(l: seq<int>)
  {
    forall a, b :: 0 <= a < b < |l| ==> l[a] != l[b]
  }

  lemma SortedIsDistinct(l: seq<int>)
    requires StrictlySorted(l)
    ensures Distinct(l)
  {
  }

  /** In a strictly sorted list an element occurs at most once. */
  lemma CountSorted(l: seq<int>, x: int)
    requires StrictlySorted(l)
    ensures multiset(l)[x] == if x in l then 1 else 0
  {
    if x in l {
      var p :| 0 <= p < |l| && l[p] == x;
      assert l == l[..p] + [x] + l[p + 1..];
      forall q | 0 <= q < |l| && q != p ensures l[q] != x {
        if q < p { assert l[q] < l[p]; } else { assert l[p] < l[q]; }
      }
      assert x !in l[..p];
      assert x !in l[p + 1..];
    }
  }

  lemma InsertMembers<T>(l: seq<T>, p: nat, x: T)
    requires p <= |l|
    ensures forall k :: k in InsertAt(l, p, x) <==> k == x || k in l
  {
    assert l == l[..p] + l[p..];
    forall k ensures k in InsertAt(l, p, x) <==> k == x || k in l {
      assert k in InsertAt(l, p, x) <==> k in l[..p] || k == x || k in l[p..];
    }
  }

  /** Removing a position from a strictly sorted list removes exactly the element held there. */
  lemma RemoveMembers(l: seq<int>, p: nat)
    requires StrictlySorted(l) && p < |l|
    ensures forall k :: k in RemoveAt(l, p) <==> k != l[p] && k in l
  {
    RemoveKeepsSorted(l, p);
    CountSorted(l, l[p]);
    forall k ensures k in RemoveAt(l, p) <==> k != l[p] && k in l {
      assert k in RemoveAt(l, p) <==> k in multiset(RemoveAt(l, p));
      assert k in l <==> k in multiset(l);
    }
  }

  /**
   * Replacing list `a0` by one that differs only in whether it holds `b0` changes only
   * that membership.
   */
  lemma ListsPut(lists: seq<seq<int>>, a0: int, l: seq<int>, b0: int, present: bool)
    requires 0 <= a0 < |lists|
    requires forall k :: k in l <==> if k == b0 then present else k in lists[a0]
    ensures forall a, b :: Has(lists[a0 := l], a, b) <==> if a == a0 && b == b0 then present else Has(lists, a, b)
  {
    var ls := lists[a0 := l];
    forall a, b ensures Has(ls, a, b) <==> if a == a0 && b == b0 then present else Has(lists, a, b) {
      if a == a0 {
        assert Has(ls, a, b) <==> b in l;
        assert b in l <==> if b == b0 then present else b in lists[a0];
      } else {
        assert Has(ls, a, b) <==> Has(lists, a, b);
      }
    }
  }

  /** Changing the pair (f, s) on both sides in the same way keeps the sides mirrored. */
  lemma MirrorPut(seconds: seq<seq<int>>, firsts: seq<seq<int>>, f: int, s: int, lf: seq<int>, ls: seq<int>, present: bool)
    requires Mirrored(seconds, firsts) && 0 <= f < |seconds| && 0 <= s < |firsts|
    requires forall k :: k in lf <==> if k == s then present else k in seconds[f]
    requires forall k :: k in ls <==> if k == f then present else k in firsts[s]
    ensures Mirrored(seconds[f := lf], firsts[s := ls])
    ensures forall a, b :: Has(seconds[f := lf], a, b) <==> if a == f && b == s then present else Has(seconds, a, b)
  {
    ListsPut(seconds, f, lf, s, present);
    ListsPut(firsts, s, ls, f, present);
    var seconds', firsts' := seconds[f := lf], firsts[s := ls];
    forall a, b ensures Has(seconds', a, b) <==> Has(firsts', b, a) {
      assert Has(seconds, a, b) <==> Has(firsts, b, a);
    }
  }

  /** The weighted counterpart of ListsPut. */
  lemma RowsPut<W>(rows: seq<seq<Entry<W>>>, a0: int, r: seq<Entry<W>>, b0: int, x: Option<W>)
    requires 0 <= a0 < |rows|
    requires forall k :: Lookup(r, k) == if k == b0 then x else Lookup(rows[a0], k)
    ensures forall a, b :: Get(rows[a0 := r], a, b) == if a == a0 && b == b0 then x else Get(rows, a, b)
  {
    var rs := rows[a0 := r];
    forall a, b ensures Get(rs, a, b) == if a == a0 && b == b0 then x else Get(rows, a, b) {
      if a == a0 {
        assert Get(rs, a, b) == Lookup(r, b);
      }
    }
  }

  /** The weighted counterpart of MirrorPut. */
  lemma MirrorRowsPut<W>(seconds: seq<seq<Entry<W>>>, firsts: seq<seq<Entry<W>>>, f: int, s: int,
                         rf: seq<Entry<W>>, rs: seq<Entry<W>>, x: Option<W>)
    requires MirroredRows(seconds, firsts) && 0 <= f < |seconds| && 0 <= s < |firsts|
    requires RowsSorted(seconds) && RowsSorted(firsts) && StrictlySorted(Keys(rf)) && StrictlySorted(Keys(rs))
    requires forall k :: Lookup(rf, k) == if k == s then x else Lookup(seconds[f], k)
    requires forall k :: Lookup(rs, k) == if k == f then x else Lookup(firsts[s], k)
    ensures RowsSorted(seconds[f := rf]) && RowsSorted(firsts[s := rs])
    ensures MirroredRows(seconds[f := rf], firsts[s := rs])
    ensures forall a, b :: Get(seconds[f := rf], a, b) == if a == f && b == s then x else Get(seconds, a, b)
  {
    RowsPut(seconds, f, rf, s, x);
    RowsPut(firsts, s, rs, f, x);
    var seconds', firsts' := seconds[f := rf], firsts[s := rs];
    forall a, b ensures Get(seconds', a, b) == Get(firsts', b, a) {
      assert Get(seconds, a, b) == Get(firsts, b, a);
    }
  }

  // ---------------------------------------------------------------------------------
  // Removing an element from an auto-relation

  /** The index an element had before element `idx` was removed. */
  function Up(k: int, idx: int): int
  {
    if k < idx then k else k + 1
  }

  /**
   * One unweighted list after element `idx` is removed, built entry by entry: entries
   * below `idx` are kept, entries above it are lowered by one, and `idx` itself is dropped.
   */
  function RenumberList(l: seq<int>, idx: int): seq<int>
  {
    if l == [] then []
    else
      var n := |l| - 1;
      RenumberList(l[..n], idx) + (if l[n] < idx then [l[n]] else if l[n] > idx then [l[n] - 1] else [])
  }

  /** The renumbered list holds `k` exactly when the old list held the element `k` stood for. */
  lemma {:induction false} RenumberListMembers(l: seq<int>, idx: int)
    ensures forall k :: k in RenumberList(l, idx) <==> Up(k, idx) in l
  {
    if l != [] {
      var n := |l| - 1;
      RenumberListMembers(l[..n], idx);
      assert l == l[..n] + [l[n]];
    }
  }

  /** Renumbering drops exactly the occurrences of `idx`. */
  lemma {:induction false} RenumberListLength(l: seq<int>, idx: int)
    ensures |RenumberList(l, idx)| == |l| - multiset(l)[idx]
  {
    if l != [] {
      var n := |l| - 1;
      RenumberListLength(l[..n], idx);
      assert l == l[..n] + [l[n]];
      assert multiset(l) == multiset(l[..n]) + multiset{l[n]};
    }
  }

  lemma SortedSnoc(l: seq<int>, x: int)
    requires StrictlySorted(l) && forall j :: 0 <= j < |l| ==> l[j] < x
    ensures StrictlySorted(l + [x])
  {
  }

  /** Renumbering keeps a list strictly sorted. */
  lemma {:induction false} RenumberListSorted(l: seq<int>, idx: int)
    requires StrictlySorted(l)
    ensures StrictlySorted(RenumberList(l, idx))
  {
    if l != [] {
      var n := |l| - 1;
      var front := RenumberList(l[..n], idx);
      RenumberListSorted(l[..n], idx);
      RenumberListMembers(l[..n], idx);
      if l[n] != idx {
        var t := if l[n] < idx then l[n] else l[n] - 1;
        forall j | 0 <= j < |front| ensures front[j] < t {
          assert front[j] in front;
          var q :| 0 <= q < n && l[..n][q] == Up(front[j], idx);
          assert l[q] < l[n];
        }
        SortedSnoc(front, t);
      }
    }
  }

  /** The same renumbering on a weighted list; weights travel with their entries. */
  function Renumber<W>(row: seq<Entry<W>>, idx: int): seq<Entry<W>>
  {
    if row == [] then []
    else
      var n := |row| - 1;
      var e := row[n];
      Renumber(row[..n], idx) + (if e.idx < idx then [e] else if e.idx > idx then [Entry(e.idx - 1, e.val)] else [])
  }

  lemma {:induction false} RenumberKeys<W>(row: seq<Entry<W>>, idx: int)
    ensures Keys(Renumber(row, idx)) == RenumberList(Keys(row), idx)
  {
    if row != [] {
      var n := |row| - 1;
      RenumberKeys(row[..n], idx);
      assert Keys(row)[..n] == Keys(row[..n]);
    }
  }

  /** The renumbered row stores under `k` what the old row stored under the element `k` stood for. */
  lemma {:induction false} RenumberLookup<W>(row: seq<Entry<W>>, idx: int, k: int)
    ensures Lookup(Renumber(row, idx), k) == Lookup(row, Up(k, idx))
  {
    if row != [] {
      var n := |row| - 1;
      var e := row[n];
      var tail := if e.idx < idx then [e] else if e.idx > idx then [Entry(e.idx - 1, e.val)] else [];
      RenumberLookup(row[..n], idx, k);
      LookupAppend(Renumber(row[..n], idx), tail, k);
      assert row == row[..n] + [e];
      LookupAppend(row[..n], [e], Up(k, idx));
      assert [e][1..] == [] && tail != [] ==> tail[1..] == [];
    }
  }

  /** Every list renumbered for the removal of `idx`. */
  function RenumberAll(lists: seq<seq<int>>, idx: int): (r: seq<seq<int>>)
    ensures |r| == |lists|
    ensures forall i :: 0 <= i < |lists| ==> r[i] == RenumberList(lists[i], idx)
  {
    seq(|lists|, i requires 0 <= i < |lists| => RenumberList(lists[i], idx))
  }

  /** The lists of one side of an auto-relation once element `idx` has been removed. */
  function RemovedLists(lists: seq<seq<int>>, idx: int): (r: seq<seq<int>>)
    requires 0 <= idx < |lists|
    ensures |r| == |lists| - 1
  {
    RenumberAll(RemoveAt(lists, idx), idx)
  }

  function RemovedRows<W>(rows: seq<seq<Entry<W>>>, idx: int): (r: seq<seq<Entry<W>>>)
    requires 0 <= idx < |rows|
    ensures |r| == |rows| - 1
  {
    seq(|rows| - 1, i requires 0 <= i < |rows| - 1 => Renumber(rows[Up(i, idx)], idx))
  }

  lemma RemoveAtUp<T>(s: seq<T>, p: nat, i: nat)
    requires p < |s| && i < |s| - 1
    ensures RemoveAt(s, p)[i] == s[Up(i, p)]
  {
  }

  /** After removing element `idx`, the pair (f, s) is the old pair of the elements they stood for. */
  lemma RemovedHas(lists: seq<seq<int>>, idx: int)
    requires 0 <= idx < |lists|
    ensures forall a, b :: Has(RemovedLists(lists, idx), a, b) <==> 0 <= a < |lists| - 1 && Has(lists, Up(a, idx), Up(b, idx))
  {
    forall a, b | 0 <= a < |lists| - 1
      ensures Has(RemovedLists(lists, idx), a, b) <==> Has(lists, Up(a, idx), Up(b, idx))
    {
      RemoveAtUp(lists, idx, a);
      RenumberListMembers(lists[Up(a, idx)], idx);
    }
  }

  lemma RemovedGet<W>(rows: seq<seq<Entry<W>>>, idx: int)
    requires 0 <= idx < |rows|
    ensures forall a, b :: Get(RemovedRows(rows, idx), a, b) == if 0 <= a < |rows| - 1 then Get(rows, Up(a, idx), Up(b, idx)) else None
  {
    forall a, b | 0 <= a < |rows| - 1 ensures Get(RemovedRows(rows, idx), a, b) == Get(rows, Up(a, idx), Up(b, idx)) {
      RenumberLookup(rows[Up(a, idx)], idx, b);
    }
  }

  /**
   * Removing element `idx` from both sides of a mirrored auto-relation (as many first as
   * second elements) leaves the sides sorted and mirrored.
   */
  lemma RemovedMirrored(seconds: seq<seq<int>>, firsts: seq<seq<int>>, idx: int)
    requires ListsSorted(seconds) && ListsSorted(firsts) && Mirrored(seconds, firsts)
    requires |seconds| == |firsts| && 0 <= idx < |seconds|
    ensures ListsSorted(RemovedLists(seconds, idx)) && ListsSorted(RemovedLists(firsts, idx))
    ensures Mirrored(RemovedLists(seconds, idx), RemovedLists(firsts, idx))
  {
    RemovedHas(seconds, idx);
    RemovedHas(firsts, idx);
    forall a | 0 <= a < |seconds| - 1
      ensures StrictlySorted(RemovedLists(seconds, idx)[a]) && StrictlySorted(RemovedLists(firsts, idx)[a])
    {
      RemoveAtUp(seconds, idx, a);
      RemoveAtUp(firsts, idx, a);
      RenumberListSorted(seconds[Up(a, idx)], idx);
      RenumberListSorted(firsts[Up(a, idx)], idx);
    }
  }

  lemma RemovedRowsMirrored<W>(seconds: seq<seq<Entry<W>>>, firsts: seq<seq<Entry<W>>>, idx: int)
    requires RowsSorted(seconds) && RowsSorted(firsts) && MirroredRows(seconds, firsts)
    requires |seconds| == |firsts| && 0 <= idx < |seconds|
    ensures RowsSorted(RemovedRows(seconds, idx)) && RowsSorted(RemovedRows(firsts, idx))
    ensures MirroredRows(RemovedRows(seconds, idx), RemovedRows(firsts, idx))
  {
    RemovedGet(seconds, idx);
    RemovedGet(firsts, idx);
    forall a | 0 <= a < |seconds| - 1
      ensures StrictlySorted(Keys(RemovedRows(seconds, idx)[a])) && StrictlySorted(Keys(RemovedRows(firsts, idx)[a]))
    {
      RenumberKeys(seconds[Up(a, idx)], idx);
      RenumberListSorted(Keys(seconds[Up(a, idx)]), idx);
      RenumberKeys(firsts[Up(a, idx)], idx);
      RenumberListSorted(Keys(firsts[Up(a, idx)]), idx);
    }
  }

  // ---------------------------------------------------------------------------------
  // Counting entries

  /** How often `x` occurs across the lists: what removing `x` drops from them. */
  function Column(lists: seq<seq<int>>, x: int): nat
  {
    if lists == [] then 0 else Column(lists[..|lists| - 1], x) + multiset(lists[|lists| - 1])[x]
  }

  /** The number of entries over all lists. */
  function TotalSize(lists: seq<seq<int>>): nat
  {
    if lists == [] then 0 else TotalSize(lists[..|lists| - 1]) + |lists[|lists| - 1]|
  }

  /** The index lists of weighted rows. */
  function KeyLists<W>(rows: seq<seq<Entry<W>>>): (r: seq<seq<int>>)
    ensures |r| == |rows| && forall a :: 0 <= a < |rows| ==> r[a] == Keys(rows[a])
  {
    seq(|rows|, a requires 0 <= a < |rows| => Keys(rows[a]))
  }

  lemma {:induction false} ColumnAppend(xs: seq<seq<int>>, ys: seq<seq<int>>, x: int)
    ensures Column(xs + ys, x) == Column(xs, x) + Column(ys, x)
    ensures TotalSize(xs + ys) == TotalSize(xs) + TotalSize(ys)
  {
    if ys == [] {
      assert xs + ys == xs;
    } else {
      var n := |ys| - 1;
      ColumnAppend(xs, ys[..n], x);
      assert (xs + ys)[..|xs + ys| - 1] == xs + ys[..n];
    }
  }

  lemma ColumnRemoveAt(lists: seq<seq<int>>, p: nat, x: int)
    requires p < |lists|
    ensures Column(RemoveAt(lists, p), x) == Column(lists, x) - multiset(lists[p])[x]
    ensures TotalSize(RemoveAt(lists, p)) == TotalSize(lists) - |lists[p]|
  {
    var front, back := lists[..p], lists[p + 1..];
    assert lists == front + [lists[p]] + back;
    ColumnAppend(front, [lists[p]], x);
    ColumnAppend(front + [lists[p]], back, x);
    ColumnAppend(front, back, x);
    assert [lists[p]][..0] == [];
  }

  lemma BelowUnique(ks: seq<int>, k: int, p: nat)
    requires StrictlySorted(ks) && p <= |ks|
    requires forall j :: 0 <= j < p ==> ks[j] < k
    requires p < |ks| ==> ks[p] >= k
    ensures Below(ks, k) == p
  {
  }

  /** The insertion point moves past `k` exactly when `k` is in the list. */
  lemma BelowStep(ks: seq<int>, k: int)
    requires StrictlySorted(ks)
    ensures Below(ks, k + 1) == Below(ks, k) + if k in ks then 1 else 0
  {
    var p := Below(ks, k);
    if k in ks {
      var q :| 0 <= q < |ks| && ks[q] == k;
      BelowUnique(ks, k, q);
      BelowUnique(ks, k + 1, p + 1);
    } else {
      BelowUnique(ks, k + 1, p);
    }
  }

  lemma {:induction false} ColumnPrefix(cols: seq<seq<int>>, x: int, row: seq<int>, k: nat)
    requires ListsSorted(cols) && StrictlySorted(row) && k <= |cols|
    requires forall s :: 0 <= s < |cols| ==> (x in cols[s] <==> s in row)
    requires forall v :: v in row ==> 0 <= v
    ensures Column(cols[..k], x) == Below(row, k)
  {
    if k == 0 {
      assert cols[..0] == [];
      if row != [] {
        assert row[0] in row;
      }
    } else {
      ColumnPrefix(cols, x, row, k - 1);
      assert cols[..k][..k - 1] == cols[..k - 1];
      CountSorted(cols[k - 1], x);
      BelowStep(row, k - 1);
    }
  }

  /**
   * When list `s` of `cols` holds `x` exactly for the elements `s` of `row`, `x` occurs in
   * `cols` as often as `row` is long: in a mirrored relation, the lists of one side that
   * hold an element are as many as that element's own list on the other side.
   */
  lemma ColumnCount(cols: seq<seq<int>>, x: int, row: seq<int>)
    requires ListsSorted(cols) && StrictlySorted(row)
    requires forall s :: 0 <= s < |cols| ==> (x in cols[s] <==> s in row)
    requires forall v :: v in row ==> 0 <= v < |cols|
    ensures Column(cols, x) == |row|
  {
    ColumnPrefix(cols, x, row, |cols|);
    assert cols[..|cols|] == cols;
    assert forall j :: 0 <= j < |row| ==> row[j] in row;
    BelowUnique(row, |cols|, |row|);
  }

  /** In a mirrored relation, `x` occurs in the other side's lists as often as its own list is long. */
  lemma MirroredColumn(seconds: seq<seq<int>>, firsts: seq<seq<int>>, x: int)
    requires ListsSorted(seconds) && ListsSorted(firsts) && Mirrored(seconds, firsts)
    requires 0 <= x < |seconds|
    ensures Column(firsts, x) == |seconds[x]|
  {
    assert forall s :: 0 <= s < |firsts| ==> (x in firsts[s] <==> Has(seconds, x, s));
    forall v | v in seconds[x] ensures 0 <= v < |firsts| {
      assert Has(seconds, x, v);
    }
    ColumnCount(firsts, x, seconds[x]);
  }

  lemma MirroredRowsColumn<W>(seconds: seq<seq<Entry<W>>>, firsts: seq<seq<Entry<W>>>, x: int)
    requires RowsSorted(seconds) && RowsSorted(firsts) && MirroredRows(seconds, firsts)
    requires 0 <= x < |seconds|
    ensures Column(KeyLists(firsts), x) == |seconds[x]|
  {
    var cols := KeyLists(firsts);
    forall s | 0 <= s < |firsts| ensures x in cols[s] <==> s in Keys(seconds[x]) {
      LookupSorted(firsts[s], x);
      LookupSorted(seconds[x], s);
      assert Get(seconds, x, s) == Get(firsts, s, x);
    }
    forall v | v in Keys(seconds[x]) ensures 0 <= v < |firsts| {
      LookupSorted(seconds[x], v);
      assert Get(seconds, x, v) == Get(firsts, v, x);
    }
    ColumnCount(cols, x, Keys(seconds[x]));
  }

  /** Renumbering every list drops the occurrences of `idx` from the total. */
  lemma {:induction false} TotalSizeRenumbered(lists: seq<seq<int>>, idx: int)
    ensures TotalSize(RenumberAll(lists, idx)) == TotalSize(lists) - Column(lists, idx)
  {
    if lists != [] {
      var n := |lists| - 1;
      TotalSizeRenumbered(lists[..n], idx);
      assert RenumberAll(lists, idx)[..n] == RenumberAll(lists[..n], idx);
      RenumberListLength(lists[n], idx);
    }
  }

  /**
   * Removing element `idx` from one side of an auto-relation loses its own list and every
   * occurrence of `idx` in the others.
   */
  lemma TotalSizeRemoved(lists: seq<seq<int>>, idx: int)
    requires 0 <= idx < |lists|
    ensures TotalSize(RemovedLists(lists, idx))
      == TotalSize(lists) - |lists[idx]| - (Column(lists, idx) - multiset(lists[idx])[idx])
  {
    TotalSizeRenumbered(RemoveAt(lists, idx), idx);
    ColumnRemoveAt(lists, idx, idx);
  }

  // ---------------------------------------------------------------------------------
  // The inverse lists the constructors build

  /**
   * The first elements the constructor has appended to the list of second element `s`
   * after visiting lists 0..i-1 of `ws` and the first `j` entries of list `i`.
   */
  function Collected(ws: seq<seq<int>>, i: nat, j: nat, s: int): seq<int>
    requires i <= |ws| && (i < |ws| ==> j <= |ws[i]|) && (i == |ws| ==> j == 0)
    decreases i, j
  {
    if j == 0 then (if i == 0 then [] else Collected(ws, i - 1, |ws[i - 1]|, s))
    else Collected(ws, i, j - 1, s) + (if ws[i][j - 1] == s then [i] else [])
  }

  lemma {:induction false} CollectedMembers(ws: seq<seq<int>>, i: nat, j: nat, s: int)
    requires i <= |ws| && (i < |ws| ==> j <= |ws[i]|) && (i == |ws| ==> j == 0)
    ensures forall v :: v in Collected(ws, i, j, s) <==>
      (0 <= v < i && s in ws[v]) || (i < |ws| && v == i && s in ws[i][..j])
    decreases i, j
  {
    if j == 0 {
      if i > 0 {
        CollectedMembers(ws, i - 1, |ws[i - 1]|, s);
        assert ws[i - 1][..|ws[i - 1]|] == ws[i - 1];
      }
    } else {
      CollectedMembers(ws, i, j - 1, s);
      assert ws[i][..j] == ws[i][..j - 1] + [ws[i][j - 1]];
    }
  }

  lemma {:induction false} CollectedSorted(ws: seq<seq<int>>, i: nat, j: nat, s: int)
    requires i <= |ws| && (i < |ws| ==> j <= |ws[i]|) && (i == |ws| ==> j == 0)
    requires forall v :: 0 <= v < |ws| ==> Distinct(ws[v])
    ensures StrictlySorted(Collected(ws, i, j, s))
    decreases i, j
  {
    if j == 0 {
      if i > 0 {
        CollectedSorted(ws, i - 1, |ws[i - 1]|, s);
      }
    } else {
      var front := Collected(ws, i, j - 1, s);
      CollectedSorted(ws, i, j - 1, s);
      CollectedMembers(ws, i, j - 1, s);
      if ws[i][j - 1] == s {
        forall q | 0 <= q < |front| ensures front[q] < i {
          assert front[q] in front;
        }
        SortedSnoc(front, i);
      }
    }
  }

  /** Java's `List.sort` on a list of indices, as an insertion sort. */
  function SortList(l: seq<int>): (r: seq<int>)
    ensures Sorted(r) && multiset(r) == multiset(l)
  {
    if l == [] then []
    else
      var rest := SortList(l[1..]);
      var p := Below(rest, l[0]);
      assert l == [l[0]] + l[1..];
      InsertKeepsOrder(rest, l[0]);
      InsertAtMultiset(rest, p, l[0]);
      InsertAt(rest, p, l[0])
  }

  lemma {:induction false} SortListStrict(l: seq<int>)
    requires Distinct(l)
    ensures StrictlySorted(SortList(l))
    ensures forall k :: k in SortList(l) <==> k in l
  {
    if l != [] {
      var rest := SortList(l[1..]);
      SortListStrict(l[1..]);
      assert l[0] !in l[1..];
      assert l[0] !in rest;
      InsertKeepsSorted(rest, l[0]);
      assert forall k :: k in SortList(l) <==> k in multiset(SortList(l));
    }
  }

  /** The weighted counterpart of Collected: entries (i, weight) appended to the list of `s`. */
  function CollectedRows<W>(ws: seq<seq<Entry<W>>>, i: nat, j: nat, s: int): seq<Entry<W>>
    requires i <= |ws| && (i < |ws| ==> j <= |ws[i]|) && (i == |ws| ==> j == 0)
    decreases i, j
  {
    if j == 0 then (if i == 0 then [] else CollectedRows(ws, i - 1, |ws[i - 1]|, s))
    else CollectedRows(ws, i, j - 1, s) + (if ws[i][j - 1].idx == s then [Entry(i, ws[i][j - 1].val)] else [])
  }

  lemma {:induction false} CollectedRowsKeys<W>(ws: seq<seq<Entry<W>>>, i: nat, j: nat, s: int)
    requires i <= |ws| && (i < |ws| ==> j <= |ws[i]|) && (i == |ws| ==> j == 0)
    ensures Keys(CollectedRows(ws, i, j, s)) == Collected(KeyLists(ws), i, j, s)
    decreases i, j
  {
    if j == 0 {
      if i > 0 {
        CollectedRowsKeys(ws, i - 1, |ws[i - 1]|, s);
      }
    } else {
      CollectedRowsKeys(ws, i, j - 1, s);
    }
  }

  /** The collected rows find, for every first element already visited, its weight for `s`. */
  lemma {:induction false} CollectedRowsLookup<W>(ws: seq<seq<Entry<W>>>, i: nat, j: nat, s: int, f: int)
    requires i <= |ws| && (i < |ws| ==> j <= |ws[i]|) && (i == |ws| ==> j == 0)
    ensures Lookup(CollectedRows(ws, i, j, s), f) ==
      if 0 <= f < i then Lookup(ws[f], s) else if i < |ws| && f == i then Lookup(ws[i][..j], s) else None
    decreases i, j
  {
    if j == 0 {
      if i > 0 {
        CollectedRowsLookup(ws, i - 1, |ws[i - 1]|, s, f);
        assert ws[i - 1][..|ws[i - 1]|] == ws[i - 1];
      }
      assert i < |ws| ==> ws[i][..0] == [];
    } else {
      var e := ws[i][j - 1];
      var tail := if e.idx == s then [Entry(i, e.val)] else [];
      CollectedRowsLookup(ws, i, j - 1, s, f);
      LookupAppend(CollectedRows(ws, i, j - 1, s), tail, f);
      assert ws[i][..j] == ws[i][..j - 1] + [e];
      LookupAppend(ws[i][..j - 1], [e], s);
      assert [e][1..] == [] && (tail != [] ==> tail[1..] == []);
    }
  }

  // ---------------------------------------------------------------------------------
  // Index queries

  /** The indices of the non-empty lists, in increasing order (firstsWithSeconds and the like). */
  function NonEmpty(lists: seq<seq<int>>): (r: seq<int>)
    ensures StrictlySorted(r)
    ensures forall a :: a in r <==> 0 <= a < |lists| && lists[a] != []
  {
    if lists == [] then []
    else
      var n := |lists| - 1;
      var front := NonEmpty(lists[..n]);
      assert forall j :: 0 <= j < |front| ==> front[j] < n by {
        forall j | 0 <= j < |front| ensures front[j] < n {
          assert front[j] in front;
        }
      }
      if lists[n] != [] then front + [n] else front
  }

  /** The indices at which both sides hold an empty list (getIsolated), in increasing order. */
  function BothEmpty<T, U>(xs: seq<seq<T>>, ys: seq<seq<U>>): (r: seq<int>)
    requires |xs| == |ys|
    ensures StrictlySorted(r)
    ensures forall a :: a in r <==> 0 <= a < |xs| && xs[a] == [] && ys[a] == []
  {
    if xs == [] then []
    else
      var n := |xs| - 1;
      var front := BothEmpty(xs[..n], ys[..n]);
      assert forall j :: 0 <= j < |front| ==> front[j] < n by {
        forall j | 0 <= j < |front| ensures front[j] < n {
          assert front[j] in front;
        }
      }
      if xs[n] == [] && ys[n] == [] then front + [n] else front
  }

  /** Java's parallel sort of every list, as the constructors apply it. */
  function SortAll(lists: seq<seq<int>>): (r: seq<seq<int>>)
    ensures |r| == |lists| && forall a :: 0 <= a < |lists| ==> r[a] == SortList(lists[a])
  {
    seq(|lists|, a requires 0 <= a < |lists| => SortList(lists[a]))
  }

  function SortAllRows<W>(rows: seq<seq<Entry<W>>>): (r: seq<seq<Entry<W>>>)
    ensures |r| == |rows| && forall a :: 0 <= a < |rows| ==> r[a] == SortByIdx(rows[a])
  {
    seq(|rows|, a requires 0 <= a < |rows| => SortByIdx(rows[a]))
  }

  /** Appending an empty list adds no pair and keeps every list sorted. */
  lemma AppendEmpty(lists: seq<seq<int>>)
    ensures forall a, b :: Has(lists + [[]], a, b) <==> Has(lists, a, b)
    ensures ListsSorted(lists) ==> ListsSorted(lists + [[]])
  {
    forall a, b ensures Has(lists + [[]], a, b) <==> Has(lists, a, b) {
      if 0 <= a < |lists| {
        assert (lists + [[]])[a] == lists[a];
      }
    }
  }
  /** Replacing one list changes the total by the difference of the two lengths. */
  lemma TotalSizePut(lists: seq<seq<int>>, a: int, l: seq<int>)
    requires 0 <= a < |lists|
    ensures TotalSize(lists[a := l]) == TotalSize(lists) - |lists[a]| + |l|
  {
    var front, back := lists[..a], lists[a + 1..];
    assert lists == front + [lists[a]] + back;
    assert lists[a := l] == front + [l] + back;
    ColumnAppend(front + [lists[a]], back, 0);
    ColumnAppend(front, [lists[a]], 0);
    ColumnAppend(front + [l], back, 0);
    ColumnAppend(front, [l], 0);
    assert [l][..0] == [] && [lists[a]][..0] == [];
  }

  /** Appending an empty list leaves the total and the self-pairs as they are. */
  lemma AppendEmptyCounts(lists: seq<seq<int>>)
    ensures TotalSize(lists + [[]]) == TotalSize(lists)
    ensures SelfPairs(lists + [[]]) == SelfPairs(lists)
  {
    assert (lists + [[]])[..|lists|] == lists;
    assert Diagonal(lists + [[]]) == Diagonal(lists) + [false];
  }

  /** Two strictly sorted lists with the same members are the same list. */
  lemma {:induction false} SortedUnique(xs: seq<int>, ys: seq<int>)
    requires StrictlySorted(xs) && StrictlySorted(ys)
    requires forall x :: x in xs <==> x in ys
    ensures xs == ys
    decreases |xs|
  {
    assert xs == [] <==> ys == [] by {
      if xs != [] {
        assert xs[0] in xs;
      }
      if ys != [] {
        assert ys[0] in ys;
      }
    }
    if xs != [] {
      assert xs[0] == ys[0] by {
        assert xs[0] in xs && ys[0] in ys;
        var i :| 0 <= i < |xs| && xs[i] == ys[0];
        var j :| 0 <= j < |ys| && ys[j] == xs[0];
        assert xs[0] <= xs[i] && ys[0] <= ys[j];
      }
      forall x ensures x in xs[1..] <==> x in ys[1..] {
        assert x in xs[1..] <==> x in xs && x != xs[0];
        assert x in ys[1..] <==> x in ys && x != ys[0];
      }
      SortedUnique(xs[1..], ys[1..]);
      assert xs == [xs[0]] + xs[1..] && ys == [ys[0]] + ys[1..];
    }
  }

  /** Mirrored lists hold the same pairs read from the other side. */
  lemma MirroredSymmetric(seconds: seq<seq<int>>, firsts: seq<seq<int>>)
    requires Mirrored(seconds, firsts)
    ensures Mirrored(firsts, seconds)
  {
  }

  /** For every element, whether its own list holds it: where the self-pairs are. */
  function Diagonal(lists: seq<seq<int>>): (d: seq<bool>)
    ensures |d| == |lists| && forall a :: 0 <= a < |lists| ==> (d[a] <==> Has(lists, a, a))
  {
    seq(|lists|, a requires 0 <= a < |lists| => a in lists[a])
  }

  /** The number of self-pairs. */
  function SelfPairs(lists: seq<seq<int>>): nat
  {
    multiset(Diagonal(lists))[true]
  }

  /** Lists with the same self-pairs have as many of them. */
  lemma SelfPairsSame(xs: seq<seq<int>>, ys: seq<seq<int>>)
    requires |xs| == |ys| && forall a :: Has(xs, a, a) <==> Has(ys, a, a)
    ensures SelfPairs(xs) == SelfPairs(ys)
  {
    assert Diagonal(xs) == Diagonal(ys);
  }

  /** A new self-pair for `a`, and no other change on the diagonal, adds one. */
  lemma SelfPairsAdd(xs: seq<seq<int>>, ys: seq<seq<int>>, a: int)
    requires |xs| == |ys| && 0 <= a < |xs| && !Has(xs, a, a) && Has(ys, a, a)
    requires forall b :: b != a ==> (Has(xs, b, b) <==> Has(ys, b, b))
    ensures SelfPairs(ys) == SelfPairs(xs) + 1
  {
    assert Diagonal(ys) == Diagonal(xs)[a := true];
  }

  /** Losing the self-pair of `a`, and no other change on the diagonal, takes one away. */
  lemma SelfPairsDrop(xs: seq<seq<int>>, ys: seq<seq<int>>, a: int)
    requires |xs| == |ys| && 0 <= a < |xs| && Has(xs, a, a) && !Has(ys, a, a)
    requires forall b :: b != a ==> (Has(xs, b, b) <==> Has(ys, b, b))
    ensures SelfPairs(ys) == SelfPairs(xs) - 1
  {
    assert Diagonal(xs) == Diagonal(ys)[a := true];
  }

  /** Removing element `idx` loses its self-pair, if it has one, and keeps the others. */
  lemma SelfPairsRemoved(lists: seq<seq<int>>, idx: int)
    requires 0 <= idx < |lists|
    ensures SelfPairs(RemovedLists(lists, idx)) == SelfPairs(lists) - if idx in lists[idx] then 1 else 0
  {
    var r := RemovedLists(lists, idx);
    RemovedHas(lists, idx);
    var d := Diagonal(lists);
    forall a | 0 <= a < |r| ensures Diagonal(r)[a] == RemoveAt(d, idx)[a] {
      assert Has(r, a, a) <==> Has(lists, Up(a, idx), Up(a, idx));
      RemoveAtUp(d, idx, a);
    }
    assert Diagonal(r) == RemoveAt(d, idx);
    assert d == d[..idx] + [d[idx]] + d[idx + 1..];
  }
}
