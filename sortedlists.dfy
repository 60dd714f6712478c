// Index-sorted lists, the storage pattern shared by the preference store and the
// relations: each list holds (index, value) entries kept in strictly increasing
// index order, searched with Java's Collections.binarySearch and changed by
// inserting at the search's insertion point, overwriting, or removing.

module SortedLists {
  import opened Common

  /** An (index, value) entry: `IdxPref` of the preference store, `IdxValue` of the relations. */
  datatype Entry<W> = Entry(idx: int, val: W)

  function Keys<W>(row: seq<Entry<W>>): (ks: seq<int>)
    ensures |ks| == |row|
    ensures forall k :: 0 <= k < |row| ==> ks[k] == row[k].idx
  {
    seq(|row|, k requires 0 <= k < |row| => row[k].idx)
  }

  predicate StrictlySorted(ks: seq<int>)
  {
    forall a, b :: 0 <= a < b < |ks| ==> ks[a] < ks[b]
  }

  function InsertAt<T>(s: seq<T>, p: nat, x: T): (r: seq<T>)
    requires p <= |s|
    ensures |r| == |s| + 1
  {
    s[..p] + [x] + s[p..]
  }

  function RemoveAt<T>(s: seq<T>, p: nat): (r: seq<T>)
    requires p < |s|
    ensures |r| == |s| - 1
  {
    s[..p] + s[p + 1..]
  }

  /** The length of the prefix of `ks` below `k`: the insertion point of `k` in a sorted list. */
  function Below(ks: seq<int>, k: int): (p: nat)
    ensures p <= |ks|
    ensures forall j :: 0 <= j < p ==> ks[j] < k
    ensures p < |ks| ==> ks[p] >= k
  {
    if ks == [] || ks[0] >= k then 0 else 1 + Below(ks[1..], k)
  }

  /**
   * Collections.binarySearch on a strictly sorted list: the position of `k` when it is
   * present, and otherwise -(insertion point) - 1, which is negative.
   */
  function BinarySearch(ks: seq<int>, k: int): (r: int)
    requires StrictlySorted(ks)
    ensures r >= 0 <==> k in ks
    ensures r >= 0 ==> r < |ks| && ks[r] == k
    ensures r < 0 ==> -(r + 1) <= |ks|
    ensures r < 0 ==> forall j :: 0 <= j < -(r + 1) ==> ks[j] < k
    ensures r < 0 ==> forall j :: -(r + 1) <= j < |ks| ==> ks[j] > k
  {
    var p := Below(ks, k);
    if p < |ks| && ks[p] == k then p else -(p + 1)
  }

  /** The value stored under index `k` (the first entry with that index), if any. */
  function Lookup<W>(row: seq<Entry<W>>, k: int): Option<W>
  {
    if row == [] then None
    else if row[0].idx == k then Some(row[0].val)
    else Lookup(row[1..], k)
  }

  lemma {:induction false} LookupAt<W>(row: seq<Entry<W>>, p: int)
    requires StrictlySorted(Keys(row)) && 0 <= p < |row|
    ensures Lookup(row, row[p].idx) == Some(row[p].val)
  {
    if p > 0 {
      assert Keys(row)[0] < Keys(row)[p];
      assert Keys(row[1..]) == Keys(row)[1..];
      LookupAt(row[1..], p - 1);
    }
  }

  lemma {:induction false} LookupAbsent<W>(row: seq<Entry<W>>, k: int)
    requires k !in Keys(row)
    ensures Lookup(row, k) == None
  {
    if row != [] {
      assert Keys(row)[0] == row[0].idx;
      assert Keys(row[1..]) == Keys(row)[1..];
      LookupAbsent(row[1..], k);
    }
  }

  /** In a strictly sorted row, Lookup is decided by the positions holding the index. */
  lemma LookupSorted<W>(row: seq<Entry<W>>, k: int)
    requires StrictlySorted(Keys(row))
    ensures Lookup(row, k).Some? <==> k in Keys(row)
    ensures forall p :: 0 <= p < |row| && row[p].idx == k ==> Lookup(row, k) == Some(row[p].val)
  {
    if k in Keys(row) {
      var p :| 0 <= p < |row| && Keys(row)[p] == k;
      LookupAt(row, p);
      forall q | 0 <= q < |row| && row[q].idx == k
        ensures q == p
      {
        assert Keys(row)[q] == Keys(row)[p];
      }
    } else {
      LookupAbsent(row, k);
    }
  }

  /** Inserting a new index at its insertion point keeps the row strictly sorted. */
  lemma InsertKeepsSorted(ks: seq<int>, k: int)
    requires StrictlySorted(ks) && k !in ks
    ensures StrictlySorted(InsertAt(ks, Below(ks, k), k))
  {
    var p := Below(ks, k);
    var r := InsertAt(ks, p, k);
    forall a, b | 0 <= a < b < |r| ensures r[a] < r[b] {
      if b < p {
      } else if a < p && b == p {
      } else if a < p {
        assert r[b] == ks[b - 1];
        assert ks[p] > k by { assert ks[p] != k; }
      } else if a == p {
        assert r[b] == ks[b - 1];
        assert ks[p] > k by { assert ks[p] != k; }
        assert ks[p] <= ks[b - 1];
      } else {
        assert r[a] == ks[a - 1] && r[b] == ks[b - 1];
      }
    }
  }

  lemma RemoveKeepsSorted(ks: seq<int>, p: nat)
    requires StrictlySorted(ks) && p < |ks|
    ensures StrictlySorted(RemoveAt(ks, p))
    ensures multiset(RemoveAt(ks, p)) == multiset(ks) - multiset{ks[p]}
  {
    var r := RemoveAt(ks, p);
    forall a, b | 0 <= a < b < |r| ensures r[a] < r[b] {
      var a' := if a < p then a else a + 1;
      var b' := if b < p then b else b + 1;
      assert r[a] == ks[a'] && r[b] == ks[b'];
    }
    assert ks == ks[..p] + [ks[p]] + ks[p + 1..];
  }

  /** Inserting an element adds exactly that element to the multiset. */
  lemma InsertAtMultiset<T>(s: seq<T>, p: nat, x: T)
    requires p <= |s|
    ensures multiset(InsertAt(s, p, x)) == multiset(s) + multiset{x}
  {
    assert s == s[..p] + s[p..];
  }

  lemma KeysInsertAt<W>(row: seq<Entry<W>>, p: nat, e: Entry<W>)
    requires p <= |row|
    ensures Keys(InsertAt(row, p, e)) == InsertAt(Keys(row), p, e.idx)
  {
  }

  lemma KeysRemoveAt<W>(row: seq<Entry<W>>, p: nat)
    requires p < |row|
    ensures Keys(RemoveAt(row, p)) == RemoveAt(Keys(row), p)
  {
  }

  /**
   * Inserting an entry whose index is absent at the binary-search insertion point keeps
   * the row strictly sorted, adds exactly that index, and leaves every other lookup alone.
   */
  lemma {:induction false} InsertEntry<W>(row: seq<Entry<W>>, e: Entry<W>)
    requires StrictlySorted(Keys(row)) && e.idx !in Keys(row)
    ensures Below(Keys(row), e.idx) <= |row|
    ensures var r := InsertAt(row, Below(Keys(row), e.idx), e);
      && StrictlySorted(Keys(r))
      && (forall k :: Lookup(r, k) == if k == e.idx then Some(e.val) else Lookup(row, k))
  {
    var p := Below(Keys(row), e.idx);
    var r := InsertAt(row, p, e);
    KeysInsertAt(row, p, e);
    InsertKeepsSorted(Keys(row), e.idx);
    forall k ensures Lookup(r, k) == if k == e.idx then Some(e.val) else Lookup(row, k) {
      LookupSorted(r, k);
      LookupSorted(row, k);
      if k == e.idx {
        assert r[p] == e;
      } else if k in Keys(row) {
        var q :| 0 <= q < |row| && Keys(row)[q] == k;
        assert r[if q < p then q else q + 1] == row[q];
      } else {
        assert k !in Keys(r);
      }
    }
  }

  /** Overwriting the entry at a position with the same index changes only that lookup. */
  lemma {:induction false} SetEntry<W>(row: seq<Entry<W>>, p: nat, e: Entry<W>)
    requires StrictlySorted(Keys(row)) && p < |row| && row[p].idx == e.idx
    ensures Keys(row[p := e]) == Keys(row)
    ensures forall k {:trigger Lookup(row[p := e], k)} {:trigger Lookup(row, k)} ::
      Lookup(row[p := e], k) == if k == e.idx then Some(e.val) else Lookup(row, k)
  {
    var r := row[p := e];
    assert Keys(r) == Keys(row);
    forall k ensures Lookup(r, k) == if k == e.idx then Some(e.val) else Lookup(row, k) {
      LookupSorted(r, k);
      LookupSorted(row, k);
      if k == e.idx {
        assert r[p] == e;
      } else if k in Keys(row) {
        var q :| 0 <= q < |row| && Keys(row)[q] == k;
        assert r[q] == row[q];
      }
    }
  }

  /** The row with entry `e` stored at its index: overwritten where the index is, inserted in order where it is not. */
  function PutEntry<W>(row: seq<Entry<W>>, e: Entry<W>): (r: seq<Entry<W>>)
    requires StrictlySorted(Keys(row))
    ensures StrictlySorted(Keys(r))
    ensures forall k :: Lookup(r, k) == if k == e.idx then Some(e.val) else Lookup(row, k)
  {
    var value := BinarySearch(Keys(row), e.idx);
    if value < 0 then
      InsertEntry(row, e);
      InsertAt(row, -(value + 1), e)
    else
      SetEntry(row, value, e);
      row[value := e]
  }

  /** Removing the entry at a position makes its index absent and changes no other lookup. */
  lemma {:induction false} RemoveEntry<W>(row: seq<Entry<W>>, p: nat)
    requires StrictlySorted(Keys(row)) && p < |row|
    ensures StrictlySorted(Keys(RemoveAt(row, p)))
    ensures forall k :: Lookup(RemoveAt(row, p), k) == if k == row[p].idx then None else Lookup(row, k)
  {
    var r := RemoveAt(row, p);
    KeysRemoveAt(row, p);
    RemoveKeepsSorted(Keys(row), p);
    forall k ensures Lookup(r, k) == if k == row[p].idx then None else Lookup(row, k) {
      LookupSorted(r, k);
      LookupSorted(row, k);
      if k == row[p].idx {
        forall q | 0 <= q < |r| ensures Keys(r)[q] != k {
          var q' := if q < p then q else q + 1;
          assert Keys(r)[q] == Keys(row)[q'] && q' != p;
        }
      } else if k in Keys(row) {
        var q :| 0 <= q < |row| && Keys(row)[q] == k;
        assert q != p;
        assert r[if q < p then q else q - 1] == row[q];
      } else {
        assert k !in Keys(r);
      }
    }
  }

  predicate Sorted(ks: seq<int>)
  {
    forall a, b :: 0 <= a < b < |ks| ==> ks[a] <= ks[b]
  }

  /**
   * Java's stable `List.sort` by index: insertion sort that puts each entry before the
   * entries of a larger index and after those of an equal one.
   */
  function SortByIdx<W>(row: seq<Entry<W>>): (r: seq<Entry<W>>)
    ensures Sorted(Keys(r))
    ensures multiset(r) == multiset(row)
  {
    if row == [] then []
    else
      var rest := SortByIdx(row[1..]);
      var p := Below(Keys(rest), row[0].idx);
      assert row == [row[0]] + row[1..];
      InsertKeepsOrder(Keys(rest), row[0].idx);
      KeysInsertAt(rest, p, row[0]);
      InsertAtMultiset(rest, p, row[0]);
      InsertAt(rest, p, row[0])
  }

  /** Entries whose indices are pairwise distinct come out of the sort strictly sorted. */
  lemma {:induction false} SortByIdxStrict<W>(row: seq<Entry<W>>)
    requires forall a, b :: 0 <= a < b < |row| ==> row[a].idx != row[b].idx
    ensures StrictlySorted(Keys(SortByIdx(row)))
  {
    if row != [] {
      var rest := SortByIdx(row[1..]);
      SortByIdxStrict(row[1..]);
      assert row[0].idx !in Keys(row[1..]);
      SameKeys(rest, row[1..]);
      KeysInsertAt(rest, Below(Keys(rest), row[0].idx), row[0]);
      InsertKeepsSorted(Keys(rest), row[0].idx);
    }
  }

  lemma InsertKeepsOrder(ks: seq<int>, k: int)
    requires Sorted(ks)
    ensures Sorted(InsertAt(ks, Below(ks, k), k))
  {
    var p := Below(ks, k);
    var r := InsertAt(ks, p, k);
    forall a, b | 0 <= a < b < |r| ensures r[a] <= r[b] {
      if b < p {
      } else if a < p && b == p {
      } else if a < p {
        assert r[b] == ks[b - 1];
      } else if a == p {
        assert r[b] == ks[b - 1];
        assert ks[p] <= ks[b - 1];
      } else {
        assert r[a] == ks[a - 1] && r[b] == ks[b - 1];
      }
    }
  }

  /** The stable sort finds the same first entry for every index as the unsorted row. */
  lemma {:induction false} SortByIdxLookup<W>(row: seq<Entry<W>>, k: int)
    ensures Lookup(SortByIdx(row), k) == Lookup(row, k)
  {
    if row != [] {
      var rest := SortByIdx(row[1..]);
      var p := Below(Keys(rest), row[0].idx);
      SortByIdxLookup(row[1..], k);
      LookupInsertBelow(rest, p, row[0], k);
    }
  }

  /** Inserting at the insertion point puts an entry before every other entry of its index. */
  lemma {:induction false} LookupInsertBelow<W>(row: seq<Entry<W>>, p: nat, e: Entry<W>, k: int)
    requires p == Below(Keys(row), e.idx)
    ensures Lookup(InsertAt(row, p, e), k) == if k == e.idx then Some(e.val) else Lookup(row, k)
  {
    if p == 0 {
      assert InsertAt(row, p, e) == [e] + row;
      assert ([e] + row)[1..] == row;
    } else {
      assert row[0].idx < e.idx;
      assert Keys(row[1..]) == Keys(row)[1..];
      LookupInsertBelow(row[1..], p - 1, e, k);
      assert InsertAt(row, p, e) == [row[0]] + InsertAt(row[1..], p - 1, e);
      assert (([row[0]] + InsertAt(row[1..], p - 1, e)))[1..] == InsertAt(row[1..], p - 1, e);
    }
  }

  /** A sorted list whose elements are pairwise distinct is strictly sorted. */
  lemma SortedDistinct(ks: seq<int>)
    requires Sorted(ks)
    requires forall a, b :: 0 <= a < b < |ks| ==> ks[a] != ks[b]
    ensures StrictlySorted(ks)
  {
  }

  /** Rows holding the same entries hold the same indices. */
  lemma SameKeys<W>(r: seq<Entry<W>>, row: seq<Entry<W>>)
    requires multiset(r) == multiset(row)
    ensures forall k :: k in Keys(r) <==> k in Keys(row)
  {
    forall k | k in Keys(r) ensures k in Keys(row) {
      var j :| 0 <= j < |r| && Keys(r)[j] == k;
      assert r[j] in multiset(row);
      var j' :| 0 <= j' < |row| && row[j'] == r[j];
      assert Keys(row)[j'] == k;
    }
    forall k | k in Keys(row) ensures k in Keys(r) {
      var j :| 0 <= j < |row| && Keys(row)[j] == k;
      assert row[j] in multiset(r);
      var j' :| 0 <= j' < |r| && r[j'] == row[j];
      assert Keys(r)[j'] == k;
    }
  }

  /** Lookup in a concatenation finds the first part's entry before the second's. */
  lemma {:induction false} LookupAppend<W>(xs: seq<Entry<W>>, ys: seq<Entry<W>>, k: int)
    ensures Lookup(xs + ys, k) == if Lookup(xs, k).Some? then Lookup(xs, k) else Lookup(ys, k)
  {
    if xs != [] {
      assert (xs + ys)[1..] == xs[1..] + ys;
      LookupAppend(xs[1..], ys, k);
    } else {
      assert xs + ys == ys;
    }
  }
}
