// The updateable user-item rating matrix (SimpleFastUpdateablePreferenceData): one
// index-sorted list of (item, rating) per user and one of (user, rating) per item,
// kept as mirror images of each other, plus a count of the stored ratings.

module Preferences {
  import opened Common
  import opened SortedLists

  /** A user's or an item's list of preferences; `None` stands for a `null` list (nothing stored yet). */
  type Row = Option<seq<Entry<real>>>

  /** A rating as the loader reads it: user index, item index, value. */
  datatype Rating = Rating(u: int, i: int, v: real)

  function RowGet(r: Row, k: int): Option<real>
  {
    if r.Some? then Lookup(r.value, k) else None
  }

  function RowSize(r: Row): nat
  {
    if r.Some? then |r.value| else 0
  }

  /** The value that row `a` of `rows` holds under index `b`. */
  function Get(rows: seq<Row>, a: int, b: int): Option<real>
  {
    if 0 <= a < |rows| then RowGet(rows[a], b) else None
  }

  function TotalSize(rows: seq<Row>): nat
  {
    if rows == [] then 0 else TotalSize(rows[..|rows| - 1]) + RowSize(rows[|rows| - 1])
  }

  ghost predicate RowsSorted(rows: seq<Row>)
  {
    forall a :: 0 <= a < |rows| && rows[a].Some? ==> StrictlySorted(Keys(rows[a].value))
  }

  /** The item lists hold exactly the user lists' ratings, transposed. */
  ghost predicate Mirror(us: seq<Row>, cols: seq<Row>)
  {
    forall a, b :: Get(us, a, b) == Get(cols, b, a)
  }

  lemma {:induction false} TotalSizeUpdate(rows: seq<Row>, a: nat, r: Row)
    requires a < |rows|
    ensures TotalSize(rows[a := r]) == TotalSize(rows) - RowSize(rows[a]) + RowSize(r)
  {
    var n := |rows| - 1;
    if a < n {
      assert rows[a := r][..n] == rows[..n][a := r];
      TotalSizeUpdate(rows[..n], a, r);
    } else {
      assert rows[a := r][..n] == rows[..n];
    }
  }

  /** Replacing one row changes only the lookups of that row, as the new row says. */
  lemma RowsPut(rows: seq<Row>, a0: int, r: Row, b0: int, x: Option<real>)
    requires 0 <= a0 < |rows|
    requires forall k :: RowGet(r, k) == (if k == b0 then x else RowGet(rows[a0], k))
    ensures forall a, b :: Get(rows[a0 := r], a, b) == (if a == a0 && b == b0 then x else Get(rows, a, b))
  {
    var rs := rows[a0 := r];
    forall a, b ensures Get(rs, a, b) == (if a == a0 && b == b0 then x else Get(rows, a, b)) {
      if a == a0 {
        assert Get(rs, a, b) == RowGet(r, b);
      }
    }
  }

  lemma LookupSingle<W>(e: Entry<W>)
    ensures forall k :: Lookup([e], k) == (if k == e.idx then Some(e.val) else None)
    ensures StrictlySorted(Keys([e]))
  {
    assert [e][1..] == [];
  }

  lemma {:induction false} TotalSizeEmpty(rows: seq<Row>)
    requires forall a :: 0 <= a < |rows| ==> rows[a].None?
    ensures TotalSize(rows) == 0
  {
    if rows != [] {
      TotalSizeEmpty(rows[..|rows| - 1]);
    }
  }

  lemma MirrorPut(us: seq<Row>, cols: seq<Row>, us': seq<Row>, cols': seq<Row>, u: int, i: int, x: Option<real>)
    requires Mirror(us, cols)
    requires forall a, b :: Get(us', a, b) == if a == u && b == i then x else Get(us, a, b)
    requires forall b, a :: Get(cols', b, a) == if a == u && b == i then x else Get(cols, b, a)
    ensures Mirror(us', cols')
  {
  }

  /**
   * Storing row `ru` for user `u` and row `ri` for item `i`, which differ from the old rows
   * only in the pair (`u`, `i`), keeps both sides sorted and mirrored.
   */
  lemma PutPair(us: seq<Row>, cols: seq<Row>, u: int, i: int, ru: Row, ri: Row, x: Option<real>)
    requires RowsSorted(us) && RowsSorted(cols) && Mirror(us, cols)
    requires 0 <= u < |us| && 0 <= i < |cols|
    requires ru.Some? ==> StrictlySorted(Keys(ru.value))
    requires ri.Some? ==> StrictlySorted(Keys(ri.value))
    requires forall k :: RowGet(ru, k) == (if k == i then x else RowGet(us[u], k))
    requires forall k :: RowGet(ri, k) == (if k == u then x else RowGet(cols[i], k))
    ensures RowsSorted(us[u := ru]) && RowsSorted(cols[i := ri]) && Mirror(us[u := ru], cols[i := ri])
    ensures forall a, b :: Get(us[u := ru], a, b) == (if a == u && b == i then x else Get(us, a, b))
    ensures TotalSize(us[u := ru]) == TotalSize(us) - RowSize(us[u]) + RowSize(ru)
  {
    RowsPut(us, u, ru, i, x);
    RowsPut(cols, i, ri, u, x);
    MirrorPut(us, cols, us[u := ru], cols[i := ri], u, i, x);
    TotalSizeUpdate(us, u, ru);
  }

  /**
   * The private updatePreference: binary search for `idx`; when absent insert the entry at
   * the insertion point and report true, otherwise overwrite it and report false.
   */
  function UpdatePreference(row: seq<Entry<real>>, idx: int, value: real): (res: (seq<Entry<real>>, bool))
    requires StrictlySorted(Keys(row))
    ensures StrictlySorted(Keys(res.0))
    ensures res.1 <==> Lookup(row, idx).None?
    ensures |res.0| == |row| + (if res.1 then 1 else 0)
    ensures forall k :: Lookup(res.0, k) == if k == idx then Some(value) else Lookup(row, k)
  {
    var pos := BinarySearch(Keys(row), idx);
    LookupSorted(row, idx);
    if pos < 0 then
      InsertEntry(row, Entry(idx, value));
      (InsertAt(row, -(pos + 1), Entry(idx, value)), true)
    else
      SetEntry(row, pos, Entry(idx, value));
      (row[pos := Entry(idx, value)], false)
  }

  /**
   * One side of updateRating: a `null` list becomes the one-entry list, otherwise
   * updatePreference stores the rating; reports whether the entry is new.
   */
  function RatedRow(row: Row, idx: int, value: real): (res: (seq<Entry<real>>, bool))
    requires row.Some? ==> StrictlySorted(Keys(row.value))
    ensures StrictlySorted(Keys(res.0))
    ensures res.1 <==> RowGet(row, idx).None?
    ensures |res.0| == RowSize(row) + (if res.1 then 1 else 0)
    ensures forall k :: Lookup(res.0, k) == if k == idx then Some(value) else RowGet(row, k)
  {
    if row.None? then
      LookupSingle(Entry(idx, value));
      ([Entry(idx, value)], true)
    else
      UpdatePreference(row.value, idx, value)
  }

  /**
   * The private updateDelete on one list: a `null` list is left alone and reports false;
   * otherwise the entry for `idx` is removed when present, reporting whether it was.
   */
  function DeletePreference(row: Row, idx: int): (res: (Row, bool))
    requires row.Some? ==> StrictlySorted(Keys(row.value))
    ensures res.1 <==> RowGet(row, idx).Some?
    ensures res.0.Some? <==> row.Some?
    ensures res.0.Some? ==> StrictlySorted(Keys(res.0.value))
    ensures RowSize(res.0) == RowSize(row) - (if res.1 then 1 else 0)
    ensures forall k :: RowGet(res.0, k) == if k == idx then None else RowGet(row, k)
  {
    if row.None? then (row, false)
    else
      var pos := BinarySearch(Keys(row.value), idx);
      LookupSorted(row.value, idx);
      if pos >= 0 then
        RemoveEntry(row.value, pos);
        (Some(RemoveAt(row.value, pos)), true)
      else
        (row, false)
  }

  /** The indices of the non-null rows, in increasing order (getUidxWithPreferences). */
  function NonNull(rows: seq<Row>): (r: seq<int>)
    ensures StrictlySorted(r)
    ensures forall a :: a in r <==> 0 <= a < |rows| && rows[a].Some?
  {
    if rows == [] then []
    else
      var n := |rows| - 1;
      var front := NonNull(rows[..n]);
      assert forall j :: 0 <= j < |front| ==> front[j] < n by {
        forall j | 0 <= j < |front| ensures front[j] < n {
          assert front[j] in front;
        }
      }
      if rows[n].Some? then front + [n] else front
  }

  /** The entries the loader appends to user `u`'s list, in input order. */
  function UserEntries(ts: seq<Rating>, u: int): seq<Entry<real>>
  {
    if ts == [] then []
    else
      var t := ts[|ts| - 1];
      UserEntries(ts[..|ts| - 1], u) + if t.u == u then [Entry(t.i, t.v)] else []
  }

  /** The entries the loader appends to item `i`'s list, in input order. */
  function ItemEntries(ts: seq<Rating>, i: int): seq<Entry<real>>
  {
    if ts == [] then []
    else
      var t := ts[|ts| - 1];
      ItemEntries(ts[..|ts| - 1], i) + if t.i == i then [Entry(t.u, t.v)] else []
  }

  /** The first rating of item `i` by user `u` in the input, if any. */
  function FirstRating(ts: seq<Rating>, u: int, i: int): Option<real>
  {
    if ts == [] then None
    else
      var first := FirstRating(ts[..|ts| - 1], u, i);
      var t := ts[|ts| - 1];
      if first.Some? then first else if t.u == u && t.i == i then Some(t.v) else None
  }

  /** A loaded list: `null` when the input has nothing for it, else the stably sorted entries. */
  function Loaded(es: seq<Entry<real>>): Row
  {
    if es == [] then None else Some(SortByIdx(es))
  }

  ghost predicate DistinctPairs(ts: seq<Rating>)
  {
    forall a, b :: 0 <= a < b < |ts| ==> ts[a].u != ts[b].u || ts[a].i != ts[b].i
  }

  /** Both loaded lists find, for a pair, the first rating of that pair in the input. */
  lemma {:induction false} EntriesFirstRating(ts: seq<Rating>, u: int, i: int)
    ensures Lookup(UserEntries(ts, u), i) == FirstRating(ts, u, i)
    ensures Lookup(ItemEntries(ts, i), u) == FirstRating(ts, u, i)
  {
    if ts != [] {
      var n := |ts| - 1;
      var t := ts[n];
      EntriesFirstRating(ts[..n], u, i);
      LookupAppend(UserEntries(ts[..n], u), if t.u == u then [Entry(t.i, t.v)] else [], i);
      LookupAppend(ItemEntries(ts[..n], i), if t.i == i then [Entry(t.u, t.v)] else [], u);
    }
  }

  lemma {:induction false} UserEntriesFrom(ts: seq<Rating>, u: int, k: int)
    requires k in Keys(UserEntries(ts, u))
    ensures exists j :: 0 <= j < |ts| && ts[j].u == u && ts[j].i == k
  {
    var n := |ts| - 1;
    var t := ts[n];
    var tail := if t.u == u then [Entry(t.i, t.v)] else [];
    assert Keys(UserEntries(ts, u)) == Keys(UserEntries(ts[..n], u)) + Keys(tail);
    if k in Keys(UserEntries(ts[..n], u)) {
      UserEntriesFrom(ts[..n], u, k);
      var j :| 0 <= j < n && ts[..n][j].u == u && ts[..n][j].i == k;
      assert ts[j] == ts[..n][j];
    } else {
      assert ts[n].u == u && ts[n].i == k;
    }
  }

  lemma {:induction false} ItemEntriesFrom(ts: seq<Rating>, i: int, k: int)
    requires k in Keys(ItemEntries(ts, i))
    ensures exists j :: 0 <= j < |ts| && ts[j].i == i && ts[j].u == k
  {
    var n := |ts| - 1;
    var t := ts[n];
    var tail := if t.i == i then [Entry(t.u, t.v)] else [];
    assert Keys(ItemEntries(ts, i)) == Keys(ItemEntries(ts[..n], i)) + Keys(tail);
    if k in Keys(ItemEntries(ts[..n], i)) {
      ItemEntriesFrom(ts[..n], i, k);
      var j :| 0 <= j < n && ts[..n][j].i == i && ts[..n][j].u == k;
      assert ts[j] == ts[..n][j];
    } else {
      assert ts[n].i == i && ts[n].u == k;
    }
  }

  /** Without repeated pairs, no list receives the same index twice. */
  lemma {:induction false} EntriesDistinct(ts: seq<Rating>, u: int, i: int)
    requires DistinctPairs(ts)
    ensures forall a, b :: 0 <= a < b < |UserEntries(ts, u)| ==> UserEntries(ts, u)[a].idx != UserEntries(ts, u)[b].idx
    ensures forall a, b :: 0 <= a < b < |ItemEntries(ts, i)| ==> ItemEntries(ts, i)[a].idx != ItemEntries(ts, i)[b].idx
  {
    if ts != [] {
      var n := |ts| - 1;
      var t := ts[n];
      assert DistinctPairs(ts[..n]);
      EntriesDistinct(ts[..n], u, i);
      var ue := UserEntries(ts[..n], u);
      if t.u == u && t.i in Keys(ue) {
        UserEntriesFrom(ts[..n], u, t.i);
        assert false;
      }
      var ie := ItemEntries(ts[..n], i);
      if t.i == i && t.u in Keys(ie) {
        ItemEntriesFrom(ts[..n], i, t.u);
        assert false;
      }
      var es := UserEntries(ts, u);
      forall a, b | 0 <= a < b < |es| ensures es[a].idx != es[b].idx {
        if b == |ue| { assert es[b].idx == t.i && es[a] == ue[a] && Keys(ue)[a] == ue[a].idx; }
      }
      var fs := ItemEntries(ts, i);
      forall a, b | 0 <= a < b < |fs| ensures fs[a].idx != fs[b].idx {
        if b == |ie| { assert fs[b].idx == t.u && fs[a] == ie[a] && Keys(ie)[a] == ie[a].idx; }
      }
    }
  }

  class PreferenceStore {
    var numPreferences: int
    var uidxList: seq<Row>
    var iidxList: seq<Row>

    ghost predicate Valid()
      reads this
    {
      && RowsSorted(uidxList) && RowsSorted(iidxList)
      && Mirror(uidxList, iidxList)
      && numPreferences == TotalSize(uidxList)
    }

    /** The rating user `u` gave item `i`, if any. */
    function Pref(u: int, i: int): Option<real>
      reads this
    {
      Get(uidxList, u, i)
    }

    /**
     * The static load: one (initially null) list per user and per item, every rating
     * appended to both sides and counted, then every list sorted by index.
     */
    constructor Load(numUsers: nat, numItems: nat, ts: seq<Rating>)
      requires forall t :: t in ts ==> 0 <= t.u < numUsers && 0 <= t.i < numItems
      ensures numPreferences == |ts|
      ensures uidxList == LoadedUsers(numUsers, ts) && iidxList == LoadedItems(numItems, ts)
      ensures forall u, i :: Pref(u, i) == FirstRating(ts, u, i)
      ensures DistinctPairs(ts) ==> Valid()
    {
      var us, cols, count := ReadAll(numUsers, numItems, ts);
      SortAllSize(us);
      SortAllUnsorted(numUsers, numItems, ts);
      uidxList := SortAll(us);
      iidxList := SortAll(cols);
      numPreferences := count;
      new;
      LoadFirstRating(numUsers, numItems, ts);
      if DistinctPairs(ts) {
        LoadSorted(numUsers, numItems, ts);
      }
    }

    /** getPreference: binary search in user `u`'s list; an empty answer for a `null` list. */
    function GetPreference(u: int, i: int): (r: Option<Entry<real>>)
      reads this
      requires Valid() && 0 <= u < |uidxList|
      ensures r.Some? <==> Pref(u, i).Some?
      ensures r.Some? ==> r.value == Entry(i, Pref(u, i).value)
    {
      if uidxList[u].None? then None
      else
        var row := uidxList[u].value;
        var pos := BinarySearch(Keys(row), i);
        LookupSorted(row, i);
        if pos >= 0 then Some(row[pos]) else None
    }

    /** numItems(uidx): the length of user `u`'s list, 0 for a `null` list. */
    function NumItems(u: int): (n: nat)
      reads this
      requires 0 <= u < |uidxList|
    {
      RowSize(uidxList[u])
    }

    /** getUidxWithPreferences: the users whose list is not `null`, in increasing order. */
    function UidxWithPreferences(): (r: seq<int>)
      reads this
      ensures StrictlySorted(r)
      ensures forall u :: u in r <==> 0 <= u < |uidxList| && uidxList[u].Some?
    {
      NonNull(uidxList)
    }

    /**
     * addUser, given the index the user index assigned: a `null` list is appended only
     * when that index is one past the last list.
     */
    method AddUser(uidx: int) returns (r: int)
      requires Valid()
      modifies this
      ensures Valid() && r == uidx
      ensures uidxList == if uidx == |old(uidxList)| then old(uidxList) + [None] else old(uidxList)
      ensures iidxList == old(iidxList) && numPreferences == old(numPreferences)
      ensures forall u, i :: Pref(u, i) == old(Pref(u, i))
    {
      if |uidxList| == uidx {
        assert TotalSize(uidxList + [None]) == TotalSize(uidxList) by {
          assert (uidxList + [None])[..|uidxList|] == uidxList;
        }
        uidxList := uidxList + [None];
      }
      r := uidx;
    }

    /** addItem: the item-side counterpart of addUser. */
    method AddItem(iidx: int) returns (r: int)
      requires Valid()
      modifies this
      ensures Valid() && r == iidx
      ensures iidxList == if iidx == |old(iidxList)| then old(iidxList) + [None] else old(iidxList)
      ensures uidxList == old(uidxList) && numPreferences == old(numPreferences)
    {
      if |iidxList| == iidx {
        iidxList := iidxList + [None];
      }
      r := iidx;
    }

    /**
     * updateRating: a no-op outside the matrix; otherwise user `u` rates item `i` with
     * `rating` on both sides, and the count grows only when the pair was new.
     */
    method UpdateRating(u: int, i: int, rating: real)
      requires Valid()
      modifies this
      ensures Valid()
      ensures |uidxList| == |old(uidxList)| && |iidxList| == |old(iidxList)|
      ensures !(0 <= u < |uidxList| && 0 <= i < |iidxList|) ==>
        uidxList == old(uidxList) && iidxList == old(iidxList) && numPreferences == old(numPreferences)
      ensures 0 <= u < |uidxList| && 0 <= i < |iidxList| ==>
        && (forall a, b :: Pref(a, b) == if a == u && b == i then Some(rating) else old(Pref(a, b)))
        && numPreferences == old(numPreferences) + (if old(Pref(u, i)).None? then 1 else 0)
        && uidxList[u].Some? && iidxList[i].Some?
      ensures forall a :: 0 <= a < |uidxList| && a != u ==> uidxList[a] == old(uidxList[a])
      ensures forall b :: 0 <= b < |iidxList| && b != i ==> iidxList[b] == old(iidxList[b])
    {
      if u < 0 || |uidxList| <= u || i < 0 || |iidxList| <= i {
        return;
      }
      var res := RatedRow(uidxList[u], i, rating);
      var newU, added := res.0, res.1;
      var newI := RatedRow(iidxList[i], u, rating).0;
      PutPair(uidxList, iidxList, u, i, Some(newU), Some(newI), Some(rating));
      uidxList := uidxList[u := Some(newU)];
      iidxList := iidxList[i := Some(newI)];
      if added {
        numPreferences := numPreferences + 1;
      }
    }

    /**
     * updateDelete: a no-op outside the matrix; otherwise the pair is removed from user
     * `u`'s list and, only if it was there, from item `i`'s list with the count lowered.
     */
    method UpdateDelete(u: int, i: int)
      requires Valid()
      modifies this
      ensures Valid()
      ensures |uidxList| == |old(uidxList)| && |iidxList| == |old(iidxList)|
      ensures !(0 <= u < |uidxList| && 0 <= i < |iidxList|) ==>
        uidxList == old(uidxList) && iidxList == old(iidxList) && numPreferences == old(numPreferences)
      ensures forall a, b :: Pref(a, b) == if a == u && b == i then None else old(Pref(a, b))
      ensures numPreferences == old(numPreferences) - (if old(Pref(u, i)).Some? then 1 else 0)
      ensures forall a :: 0 <= a < |uidxList| ==> (uidxList[a].Some? <==> old(uidxList[a]).Some?)
    {
      if u < 0 || |uidxList| <= u || i < 0 || |iidxList| <= i {
        return;
      }
      var res := DeletePreference(uidxList[u], i);
      if res.1 {
        var resI := DeletePreference(iidxList[i], u);
        PutPair(uidxList, iidxList, u, i, res.0, resI.0, None);
        uidxList := uidxList[u := res.0];
        iidxList := iidxList[i := resI.0];
        numPreferences := numPreferences - 1;
      }
    }
  }

  /** A list being loaded, before sorting: `null` until something is appended. */
  function Appended(es: seq<Entry<real>>): Row
  {
    if es == [] then None else Some(es)
  }

  /** The parallel sort of every non-null list at the end of loading. */
  function SortAll(rows: seq<Row>): (r: seq<Row>)
    ensures |r| == |rows|
    ensures forall a :: 0 <= a < |rows| ==> r[a] == if rows[a].None? then None else Some(SortByIdx(rows[a].value))
  {
    seq(|rows|, a requires 0 <= a < |rows| => if rows[a].None? then None else Some(SortByIdx(rows[a].value)))
  }

  /** Sorting every list keeps each list's length, hence the total count. */
  lemma {:induction false} SortAllSize(rows: seq<Row>)
    ensures TotalSize(SortAll(rows)) == TotalSize(rows)
  {
    if rows != [] {
      var n := |rows| - 1;
      assert SortAll(rows)[..n] == SortAll(rows[..n]);
      SortAllSize(rows[..n]);
      if rows[n].Some? {
        assert |SortByIdx(rows[n].value)| == |multiset(SortByIdx(rows[n].value))| == |rows[n].value|;
      }
    }
  }

  /** The input names no user or item outside the matrix, so those lookups are empty. */
  lemma NoEntriesOutside(ts: seq<Rating>, u: int, i: int, numUsers: nat, numItems: nat)
    requires forall t :: t in ts ==> 0 <= t.u < numUsers && 0 <= t.i < numItems
    ensures !(0 <= u < numUsers && 0 <= i < numItems) ==> FirstRating(ts, u, i) == None
    ensures !(0 <= u < numUsers) ==> UserEntries(ts, u) == []
    ensures !(0 <= i < numItems) ==> ItemEntries(ts, i) == []
  {
    if ts != [] {
      var n := |ts| - 1;
      assert forall t :: t in ts[..n] ==> t in ts;
      NoEntriesOutside(ts[..n], u, i, numUsers, numItems);
      assert ts[n] in ts;
    }
  }

  /** The loop of the static load: every rating appended, unsorted, to both of its lists and counted. */
  method ReadAll(numUsers: nat, numItems: nat, ts: seq<Rating>) returns (us: seq<Row>, cols: seq<Row>, count: int)
    requires forall t :: t in ts ==> 0 <= t.u < numUsers && 0 <= t.i < numItems
    ensures count == |ts| && TotalSize(us) == |ts|
    ensures us == UnsortedUsers(numUsers, ts) && cols == UnsortedItems(numItems, ts)
  {
    us := seq(numUsers, _ => None);
    cols := seq(numItems, _ => None);
    count := 0;
    var k := 0;
    TotalSizeEmpty(us);
    assert ts[..0] == [];
    while k < |ts|
      invariant 0 <= k <= |ts| && count == k
      invariant us == UnsortedUsers(numUsers, ts[..k]) && cols == UnsortedItems(numItems, ts[..k])
      invariant TotalSize(us) == k
    {
      var t := ts[k];
      assert t in ts;
      UnsortedUsersStep(numUsers, ts, k);
      UnsortedItemsStep(numItems, ts, k);
      count := count + 1;
      var uList := if us[t.u].None? then [] else us[t.u].value;
      TotalSizeUpdate(us, t.u, Some(uList + [Entry(t.i, t.v)]));
      us := us[t.u := Some(uList + [Entry(t.i, t.v)])];
      var iList := if cols[t.i].None? then [] else cols[t.i].value;
      cols := cols[t.i := Some(iList + [Entry(t.u, t.v)])];
      k := k + 1;
    }
    assert ts[..k] == ts;
  }

  /** The user lists the loader produces. */
  function LoadedUsers(numUsers: nat, ts: seq<Rating>): (r: seq<Row>)
    ensures |r| == numUsers
  {
    seq(numUsers, u requires 0 <= u < numUsers => Loaded(UserEntries(ts, u)))
  }

  /** The item lists the loader produces. */
  function LoadedItems(numItems: nat, ts: seq<Rating>): (r: seq<Row>)
    ensures |r| == numItems
  {
    seq(numItems, i requires 0 <= i < numItems => Loaded(ItemEntries(ts, i)))
  }

  /** Loaded lists look up, on both sides, the first rating of each pair in the input. */
  lemma LoadFirstRating(numUsers: nat, numItems: nat, ts: seq<Rating>)
    requires forall t :: t in ts ==> 0 <= t.u < numUsers && 0 <= t.i < numItems
    ensures forall u, i :: Get(LoadedUsers(numUsers, ts), u, i) == FirstRating(ts, u, i)
    ensures forall u, i :: Get(LoadedItems(numItems, ts), i, u) == FirstRating(ts, u, i)
  {
    var us, cols := LoadedUsers(numUsers, ts), LoadedItems(numItems, ts);
    forall u, i
      ensures Get(us, u, i) == FirstRating(ts, u, i)
      ensures Get(cols, i, u) == FirstRating(ts, u, i)
    {
      EntriesFirstRating(ts, u, i);
      NoEntriesOutside(ts, u, i, numUsers, numItems);
      if 0 <= u < numUsers && UserEntries(ts, u) != [] {
        SortByIdxLookup(UserEntries(ts, u), i);
      }
      if 0 <= i < numItems && ItemEntries(ts, i) != [] {
        SortByIdxLookup(ItemEntries(ts, i), u);
      }
    }
  }

  /** Without repeated pairs every loaded list is strictly sorted and the two sides mirror. */
  lemma LoadSorted(numUsers: nat, numItems: nat, ts: seq<Rating>)
    requires forall t :: t in ts ==> 0 <= t.u < numUsers && 0 <= t.i < numItems
    requires DistinctPairs(ts)
    ensures RowsSorted(LoadedUsers(numUsers, ts)) && RowsSorted(LoadedItems(numItems, ts))
    ensures Mirror(LoadedUsers(numUsers, ts), LoadedItems(numItems, ts))
  {
    var us, cols := LoadedUsers(numUsers, ts), LoadedItems(numItems, ts);
    forall u | 0 <= u < numUsers && us[u].Some?
      ensures StrictlySorted(Keys(us[u].value))
    {
      EntriesDistinct(ts, u, 0);
      SortByIdxStrict(UserEntries(ts, u));
    }
    forall i | 0 <= i < numItems && cols[i].Some?
      ensures StrictlySorted(Keys(cols[i].value))
    {
      EntriesDistinct(ts, 0, i);
      SortByIdxStrict(ItemEntries(ts, i));
    }
    LoadFirstRating(numUsers, numItems, ts);
  }

  /** Reading one more rating appends it to its user's and its item's entries only. */
  lemma EntriesStep(ts: seq<Rating>, k: nat)
    requires k < |ts|
    ensures forall u :: (UserEntries(ts[..k + 1], u)
      == UserEntries(ts[..k], u) + (if ts[k].u == u then [Entry(ts[k].i, ts[k].v)] else []))
    ensures forall i :: (ItemEntries(ts[..k + 1], i)
      == ItemEntries(ts[..k], i) + (if ts[k].i == i then [Entry(ts[k].u, ts[k].v)] else []))
  {
    assert ts[..k + 1][..k] == ts[..k] && ts[..k + 1][k] == ts[k];
  }

  /** The lists as the loader holds them before sorting: ratings in input order. */
  function UnsortedUsers(numUsers: nat, ts: seq<Rating>): (r: seq<Row>)
    ensures |r| == numUsers
  {
    seq(numUsers, u requires 0 <= u < numUsers => Appended(UserEntries(ts, u)))
  }

  function UnsortedItems(numItems: nat, ts: seq<Rating>): (r: seq<Row>)
    ensures |r| == numItems
  {
    seq(numItems, i requires 0 <= i < numItems => Appended(ItemEntries(ts, i)))
  }

  /** Loading one more rating appends it to the end of its user's list ... */
  lemma UnsortedUsersStep(numUsers: nat, ts: seq<Rating>, k: nat)
    requires k < |ts| && 0 <= ts[k].u < numUsers
    ensures var us := UnsortedUsers(numUsers, ts[..k]); var t := ts[k];
      UnsortedUsers(numUsers, ts[..k + 1])
        == us[t.u := Some((if us[t.u].None? then [] else us[t.u].value) + [Entry(t.i, t.v)])]
  {
    EntriesStep(ts, k);
    var t := ts[k];
    var us, us' := UnsortedUsers(numUsers, ts[..k]), UnsortedUsers(numUsers, ts[..k + 1]);
    var uList := if us[t.u].None? then [] else us[t.u].value;
    assert UserEntries(ts[..k], t.u) == uList;
    forall a | 0 <= a < numUsers
      ensures us'[a] == us[t.u := Some(uList + [Entry(t.i, t.v)])][a]
    {
      if a != t.u {
        assert UserEntries(ts[..k + 1], a) == UserEntries(ts[..k], a) + [];
        assert UserEntries(ts[..k + 1], a) == UserEntries(ts[..k], a);
      } else {
        assert UserEntries(ts[..k + 1], a) == uList + [Entry(t.i, t.v)];
      }
    }
  }

  /** ... and to the end of its item's list. */
  lemma UnsortedItemsStep(numItems: nat, ts: seq<Rating>, k: nat)
    requires k < |ts| && 0 <= ts[k].i < numItems
    ensures var cols := UnsortedItems(numItems, ts[..k]); var t := ts[k];
      UnsortedItems(numItems, ts[..k + 1])
        == cols[t.i := Some((if cols[t.i].None? then [] else cols[t.i].value) + [Entry(t.u, t.v)])]
  {
    EntriesStep(ts, k);
    var t := ts[k];
    var cols, cols' := UnsortedItems(numItems, ts[..k]), UnsortedItems(numItems, ts[..k + 1]);
    var iList := if cols[t.i].None? then [] else cols[t.i].value;
    assert ItemEntries(ts[..k], t.i) == iList;
    forall b | 0 <= b < numItems
      ensures cols'[b] == cols[t.i := Some(iList + [Entry(t.u, t.v)])][b]
    {
      if b != t.i {
        assert ItemEntries(ts[..k + 1], b) == ItemEntries(ts[..k], b) + [];
        assert ItemEntries(ts[..k + 1], b) == ItemEntries(ts[..k], b);
      } else {
        assert ItemEntries(ts[..k + 1], b) == iList + [Entry(t.u, t.v)];
      }
    }
  }

  /** Sorting the loaded lists gives the loader's result. */
  lemma SortAllUnsorted(numUsers: nat, numItems: nat, ts: seq<Rating>)
    ensures SortAll(UnsortedUsers(numUsers, ts)) == LoadedUsers(numUsers, ts)
    ensures SortAll(UnsortedItems(numItems, ts)) == LoadedItems(numItems, ts)
  {
  }
}
