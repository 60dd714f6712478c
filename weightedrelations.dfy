// Weighted relations (FastWeightedRelation and its auto and pairwise variants): every
// pair carries a weight, stored in an (index, weight) entry on both sides. The graphs
// keep their edge types in a weighted auto-relation.

module WeightedRelations {
  import opened Common
  import opened SortedLists
  import opened RelationLists

  /** Appending an empty row stores no new weight and keeps every row sorted. */
  lemma AppendEmptyRow<W>(rows: seq<seq<Entry<W>>>)
    ensures forall a, b :: Get(rows + [[]], a, b) == Get(rows, a, b)
    ensures RowsSorted(rows) ==> RowsSorted(rows + [[]])
  {
    forall a, b ensures Get(rows + [[]], a, b) == Get(rows, a, b) {
      if 0 <= a < |rows| {
        assert (rows + [[]])[a] == rows[a];
      }
    }
  }

  /**
   * The constructors' inversion loop: for every row `i` of `ws` and every entry (s, w)
   * in it, the entry (i, w) is appended to the row of `s`.
   */
  method InvertRows<W>(ws: seq<seq<Entry<W>>>) returns (firsts: seq<seq<Entry<W>>>)
    requires forall i, j :: 0 <= i < |ws| && 0 <= j < |ws[i]| ==> 0 <= ws[i][j].idx < |ws|
    ensures |firsts| == |ws|
    ensures forall s :: 0 <= s < |ws| ==> firsts[s] == CollectedRows(ws, |ws|, 0, s)
  {
    firsts := seq(|ws|, _ => []);
    var i := 0;
    while i < |ws|
      invariant 0 <= i <= |ws| && |firsts| == |ws|
      invariant forall s :: 0 <= s < |ws| ==> firsts[s] == CollectedRows(ws, i, 0, s)
    {
      var list := ws[i];
      var j := 0;
      while j < |list|
        invariant 0 <= j <= |list| && |firsts| == |ws|
        invariant forall s :: 0 <= s < |ws| ==> firsts[s] == CollectedRows(ws, i, j, s)
      {
        var s := list[j].idx;
        firsts := firsts[s := firsts[s] + [Entry(i, list[j].val)]];
        j := j + 1;
      }
      i := i + 1;
    }
  }

  /**
   * Sorting the given rows and their inverse gives a valid relation storing exactly the
   * given weights.
   */
  lemma InverseRowsValid<W>(ws: seq<seq<Entry<W>>>, firsts: seq<seq<Entry<W>>>)
    requires forall i, j :: 0 <= i < |ws| && 0 <= j < |ws[i]| ==> 0 <= ws[i][j].idx < |ws|
    requires forall i :: 0 <= i < |ws| ==> Distinct(Keys(ws[i]))
    requires |firsts| == |ws|
    requires forall s :: 0 <= s < |ws| ==> firsts[s] == CollectedRows(ws, |ws|, 0, s)
    ensures RowsSorted(SortAllRows(firsts)) && RowsSorted(SortAllRows(ws))
    ensures MirroredRows(SortAllRows(ws), SortAllRows(firsts))
    ensures forall f, s :: Get(SortAllRows(ws), f, s) == Get(ws, f, s)
  {
    InverseRowsSorted(ws, firsts);
    InverseRowsWeights(ws, firsts);
    InverseRowsMirrored(ws, firsts);
  }

  /** Every sorted row, given or inverse, is strictly increasing by index. */
  lemma InverseRowsSorted<W>(ws: seq<seq<Entry<W>>>, firsts: seq<seq<Entry<W>>>)
    requires forall i, j :: 0 <= i < |ws| && 0 <= j < |ws[i]| ==> 0 <= ws[i][j].idx < |ws|
    requires forall i :: 0 <= i < |ws| ==> Distinct(Keys(ws[i]))
    requires |firsts| == |ws|
    requires forall s :: 0 <= s < |ws| ==> firsts[s] == CollectedRows(ws, |ws|, 0, s)
    ensures RowsSorted(SortAllRows(firsts)) && RowsSorted(SortAllRows(ws))
  {
    var F, S := SortAllRows(firsts), SortAllRows(ws);
    forall f | 0 <= f < |ws| ensures StrictlySorted(Keys(S[f])) {
      assert Distinct(Keys(ws[f]));
      SortByIdxStrict(ws[f]);
    }
    forall s | 0 <= s < |ws| ensures StrictlySorted(Keys(F[s])) {
      assert forall v :: 0 <= v < |ws| ==> KeyLists(ws)[v] == Keys(ws[v]);
      CollectedRowsKeys(ws, |ws|, 0, s);
      CollectedSorted(KeyLists(ws), |ws|, 0, s);
      SortByIdxStrict(firsts[s]);
    }
  }

  /** Sorting the given rows keeps every stored weight. */
  lemma InverseRowsWeights<W>(ws: seq<seq<Entry<W>>>, firsts: seq<seq<Entry<W>>>)
    requires forall i, j :: 0 <= i < |ws| && 0 <= j < |ws[i]| ==> 0 <= ws[i][j].idx < |ws|
    requires forall i :: 0 <= i < |ws| ==> Distinct(Keys(ws[i]))
    requires |firsts| == |ws|
    requires forall s :: 0 <= s < |ws| ==> firsts[s] == CollectedRows(ws, |ws|, 0, s)
    ensures forall f, s :: Get(SortAllRows(ws), f, s) == Get(ws, f, s)
  {
    var S := SortAllRows(ws);
    forall f, s ensures Get(S, f, s) == Get(ws, f, s) {
      if 0 <= f < |ws| {
        SortByIdxLookup(ws[f], s);
      }
    }
  }

  /** The sorted inverse rows store, for every pair, the weight the sorted given rows store. */
  lemma InverseRowsMirrored<W>(ws: seq<seq<Entry<W>>>, firsts: seq<seq<Entry<W>>>)
    requires forall i, j :: 0 <= i < |ws| && 0 <= j < |ws[i]| ==> 0 <= ws[i][j].idx < |ws|
    requires forall i :: 0 <= i < |ws| ==> Distinct(Keys(ws[i]))
    requires |firsts| == |ws|
    requires forall s :: 0 <= s < |ws| ==> firsts[s] == CollectedRows(ws, |ws|, 0, s)
    ensures MirroredRows(SortAllRows(ws), SortAllRows(firsts))
  {
    var F, S := SortAllRows(firsts), SortAllRows(ws);
    forall f, s ensures Get(S, f, s) == Get(F, s, f) {
      if 0 <= f < |ws| {
        SortByIdxLookup(ws[f], s);
      }
      if 0 <= s < |ws| {
        SortByIdxLookup(firsts[s], f);
        CollectedRowsLookup(ws, |ws|, 0, s, f);
      } else if 0 <= f < |ws| {
        assert s !in Keys(ws[f]);
        LookupAbsent(ws[f], s);
      }
    }
  }

  /**
   * One step of the removal's renumbering: a row rebuilt without index `idx` and with
   * larger indices lowered, together with how many entries for `idx` it dropped.
   */
  method RenumberRow<W>(row: seq<Entry<W>>, idx: int) returns (aux: seq<Entry<W>>, c: nat)
    ensures aux == Renumber(row, idx)
    ensures c == multiset(Keys(row))[idx]
  {
    aux := [];
    c := 0;
    var j := 0;
    while j < |row|
      invariant 0 <= j <= |row|
      invariant aux == Renumber(row[..j], idx)
      invariant c == multiset(Keys(row[..j]))[idx]
    {
      assert row[..j + 1][..j] == row[..j];
      assert Keys(row[..j + 1]) == Keys(row[..j]) + [row[j].idx];
      if row[j].idx < idx {
        aux := aux + [row[j]];
      } else if row[j].idx > idx {
        aux := aux + [Entry(row[j].idx - 1, row[j].val)];
      } else {
        c := c + 1;
      }
      j := j + 1;
    }
    assert row[..j] == row;
  }

  lemma ColumnKeysStep<W>(rows: seq<seq<Entry<W>>>, i: nat, x: int)
    requires i < |rows|
    ensures Column(KeyLists(rows[..i + 1]), x) == Column(KeyLists(rows[..i]), x) + multiset(Keys(rows[i]))[x]
  {
    var ks := KeyLists(rows[..i + 1]);
    assert ks[..i] == KeyLists(rows[..i]);
  }

  /**
   * The loop of remove over the remaining rows of both sides: each is renumbered, and the
   * entries for `idx` dropped from them are counted.
   */
  method RenumberRows<W>(firsts: seq<seq<Entry<W>>>, seconds: seq<seq<Entry<W>>>, idx: int)
    returns (fs: seq<seq<Entry<W>>>, ss: seq<seq<Entry<W>>>, totalc: nat)
    requires |firsts| == |seconds|
    ensures |fs| == |firsts| && |ss| == |seconds|
    ensures forall j :: 0 <= j < |fs| ==> fs[j] == Renumber(firsts[j], idx) && ss[j] == Renumber(seconds[j], idx)
    ensures totalc == Column(KeyLists(firsts), idx) + Column(KeyLists(seconds), idx)
  {
    fs, ss := firsts, seconds;
    totalc := 0;
    var i := 0;
    while i < |ss|
      invariant 0 <= i <= |seconds| && |fs| == |firsts| == |seconds| == |ss|
      invariant forall j :: 0 <= j < i ==> fs[j] == Renumber(firsts[j], idx) && ss[j] == Renumber(seconds[j], idx)
      invariant fs[i..] == firsts[i..] && ss[i..] == seconds[i..]
      invariant totalc == Column(KeyLists(firsts[..i]), idx) + Column(KeyLists(seconds[..i]), idx)
    {
      assert fs[i] == fs[i..][0] && ss[i] == ss[i..][0];
      assert fs[i + 1..] == fs[i..][1..] && ss[i + 1..] == ss[i..][1..];
      var fList, c1 := RenumberRow(fs[i], idx);
      var sList, c2 := RenumberRow(ss[i], idx);
      ColumnKeysStep(firsts, i, idx);
      ColumnKeysStep(seconds, i, idx);
      fs, ss, totalc, i := fs[i := fList], ss[i := sList], totalc + c1 + c2, i + 1;
    }
    assert firsts[..i] == firsts && seconds[..i] == seconds;
  }

  /** Rows renumbered one by one after removing row `idx` are the removed rows. */
  lemma RenumberedRows<W>(rows: seq<seq<Entry<W>>>, idx: int, done: seq<seq<Entry<W>>>)
    requires 0 <= idx < |rows| && |done| == |rows| - 1
    requires forall j :: 0 <= j < |done| ==> done[j] == Renumber(RemoveAt(rows, idx)[j], idx)
    ensures done == RemovedRows(rows, idx)
  {
    forall j | 0 <= j < |done| ensures done[j] == RemovedRows(rows, idx)[j] {
      RemoveAtUp(rows, idx, j);
    }
  }

  /**
   * What removing element `idx` drops from the other rows of a valid auto-relation: its
   * number of incident and outgoing pairs, with a self-pair counted on both sides.
   */
  lemma RemovedCount<W>(seconds: seq<seq<Entry<W>>>, firsts: seq<seq<Entry<W>>>, idx: int)
    requires RowsSorted(seconds) && RowsSorted(firsts) && MirroredRows(seconds, firsts)
    requires |seconds| == |firsts| && 0 <= idx < |seconds|
    ensures Column(KeyLists(RemoveAt(firsts, idx)), idx) + Column(KeyLists(RemoveAt(seconds, idx)), idx)
      == |firsts[idx]| + |seconds[idx]| - if Get(seconds, idx, idx).Some? then 2 else 0
  {
    assert KeyLists(RemoveAt(firsts, idx)) == RemoveAt(KeyLists(firsts), idx);
    assert KeyLists(RemoveAt(seconds, idx)) == RemoveAt(KeyLists(seconds), idx);
    ColumnRemoveAt(KeyLists(firsts), idx, idx);
    ColumnRemoveAt(KeyLists(seconds), idx, idx);
    MirroredRowsColumn(seconds, firsts, idx);
    assert MirroredRows(firsts, seconds) by {
      forall a, b ensures Get(firsts, a, b) == Get(seconds, b, a) {
        assert Get(seconds, b, a) == Get(firsts, a, b);
      }
    }
    MirroredRowsColumn(firsts, seconds, idx);
    CountSorted(Keys(firsts[idx]), idx);
    CountSorted(Keys(seconds[idx]), idx);
    LookupSorted(firsts[idx], idx);
    LookupSorted(seconds[idx], idx);
    assert Get(seconds, idx, idx) == Get(firsts, idx, idx);
  }

  /**
   * FastWeightedRelation: for every first element the index-sorted row of its second
   * elements with their weights (secondIdxList), and for every second element the row
   * of its first elements (firstIdxList).
   */
  class WeightedRelation<W> {
    /** Indexed by second element: (first element, weight) entries. */
    var firstIdxList: seq<seq<Entry<W>>>
    /** Indexed by first element: (second element, weight) entries. */
    var secondIdxList: seq<seq<Entry<W>>>

    ghost predicate Valid()
      reads this
    {
      RowsSorted(firstIdxList) && RowsSorted(secondIdxList) && MirroredRows(secondIdxList, firstIdxList)
    }

    /** The weight of pair (f, s), if `f` relates to `s`. */
    function Weight(f: int, s: int): Option<W>
      reads this
    {
      Get(secondIdxList, f, s)
    }

    constructor Of(firstIdxList: seq<seq<Entry<W>>>, secondIdxList: seq<seq<Entry<W>>>)
      ensures this.firstIdxList == firstIdxList && this.secondIdxList == secondIdxList
    {
      this.firstIdxList := firstIdxList;
      this.secondIdxList := secondIdxList;
    }

    /**
     * addFirstItem: accepted only for the index one past the last first element; an empty
     * row is then inserted at that index on both sides. A negative index, or a side of
     * second elements shorter than that index, makes the source throw. The relation stays
     * valid when both sides had the same length, as in an auto-relation.
     */
    method AddFirstItem(f: int) returns (ok: bool)
      requires Valid() && f >= 0
      requires f == |secondIdxList| ==> f <= |firstIdxList|
      modifies this
      ensures ok <==> f == old(|secondIdxList|)
      ensures firstIdxList == if ok then InsertAt(old(firstIdxList), f, []) else old(firstIdxList)
      ensures secondIdxList == if ok then old(secondIdxList) + [[]] else old(secondIdxList)
      ensures forall a, b :: Weight(a, b) == old(Weight(a, b))
      ensures old(|firstIdxList|) == old(|secondIdxList|) ==> Valid()
    {
      var size := |secondIdxList|;
      if f < size {
        return false;
      }
      if f > size {
        return false;
      }
      AppendEmptyRow(secondIdxList);
      if |firstIdxList| == size {
        AppendEmptyRow(firstIdxList);
        assert InsertAt(firstIdxList, f, []) == firstIdxList + [[]];
      }
      firstIdxList := InsertAt(firstIdxList, f, []);
      secondIdxList := secondIdxList + [[]];
      ok := true;
    }

    /**
     * addRelation: rejects negative or out-of-range indices and pairs already present;
     * otherwise stores the weight on both sides, each entry at its binary-search
     * insertion point.
     */
    method AddRelation(f: int, s: int, weight: W) returns (ok: bool)
      requires Valid()
      modifies this
      ensures Valid()
      ensures ok <==> 0 <= f < |secondIdxList| && 0 <= s < |firstIdxList| && old(Weight(f, s)).None?
      ensures |firstIdxList| == old(|firstIdxList|) && |secondIdxList| == old(|secondIdxList|)
      ensures forall a, b :: Weight(a, b) == if ok && a == f && b == s then Some(weight) else old(Weight(a, b))
      ensures !ok ==> firstIdxList == old(firstIdxList) && secondIdxList == old(secondIdxList)
    {
      if f < 0 || s < 0 {
        return false;
      } else if f >= |secondIdxList| || s >= |firstIdxList| {
        return false;
      }
      LookupSorted(firstIdxList[s], f);
      LookupSorted(secondIdxList[f], s);
      assert Weight(f, s) == Lookup(firstIdxList[s], f);
      var value := BinarySearch(Keys(firstIdxList[s]), f);
      if value >= 0 {
        return false;
      }
      var idx := -(value + 1);
      InsertEntry(firstIdxList[s], Entry(f, weight));
      var newFirsts := InsertAt(firstIdxList[s], idx, Entry(f, weight));
      value := BinarySearch(Keys(secondIdxList[f]), s);
      assert value < 0;
      idx := -(value + 1);
      InsertEntry(secondIdxList[f], Entry(s, weight));
      var newSeconds := InsertAt(secondIdxList[f], idx, Entry(s, weight));
      MirrorRowsPut(secondIdxList, firstIdxList, f, s, newSeconds, newFirsts, Some(weight));
      firstIdxList := firstIdxList[s := newFirsts];
      secondIdxList := secondIdxList[f := newSeconds];
      return true;
    }

    /**
     * getValue: no weight for a negative index, otherwise the weight found in the row of
     * `s`. A non-negative index out of range makes the source throw.
     */
    function GetValue(f: int, s: int): (r: Option<W>)
      reads this
      requires Valid()
      requires f < 0 || s < 0 || (f < |secondIdxList| && s < |firstIdxList|)
      ensures r == Weight(f, s)
    {
      if f < 0 || s < 0 then
        None
      else
        var idx := BinarySearch(Keys(firstIdxList[s]), f);
        LookupSorted(firstIdxList[s], f);
        assert Weight(f, s) == Lookup(firstIdxList[s], f);
        if idx < 0 then None else Some(firstIdxList[s][idx].val)
    }

    /** containsPair: false out of range, otherwise whether the search finds `f` in the row of `s`. */
    function ContainsPair(f: int, s: int): (b: bool)
      reads this
      requires Valid()
      ensures b <==> Weight(f, s).Some?
    {
      if f < 0 || s < 0 then false
      else if f >= |secondIdxList| || s >= |firstIdxList| then
        assert Weight(f, s) == Get(firstIdxList, s, f);
        false
      else
        LookupSorted(firstIdxList[s], f);
        assert Weight(f, s) == Lookup(firstIdxList[s], f);
        BinarySearch(Keys(firstIdxList[s]), f) >= 0
    }

    /**
     * updatePair: out of range, or for a missing pair when `createRelation` is off, it
     * reports false and changes nothing; otherwise the pair gets the new weight on both
     * sides, overwriting the entries in place when it exists and inserting them when not.
     */
    method UpdatePair(f: int, s: int, weight: W, createRelation: bool) returns (ok: bool)
      requires Valid()
      modifies this
      ensures Valid()
      ensures ok <==> 0 <= f < |secondIdxList| && 0 <= s < |firstIdxList| && (old(Weight(f, s)).Some? || createRelation)
      ensures |firstIdxList| == old(|firstIdxList|) && |secondIdxList| == old(|secondIdxList|)
      ensures forall a, b :: Weight(a, b) == if ok && a == f && b == s then Some(weight) else old(Weight(a, b))
      ensures !ok ==> firstIdxList == old(firstIdxList) && secondIdxList == old(secondIdxList)
    {
      if f < 0 || s < 0 {
        return false;
      } else if f >= |secondIdxList| || s >= |firstIdxList| {
        return false;
      }
      LookupSorted(firstIdxList[s], f);
      LookupSorted(secondIdxList[f], s);
      assert Weight(f, s) == Lookup(firstIdxList[s], f);
      var value := BinarySearch(Keys(firstIdxList[s]), f);
      if value < 0 && !createRelation {
        return false;
      }
      var newFirsts := PutEntry(firstIdxList[s], Entry(f, weight));
      var newSeconds := PutEntry(secondIdxList[f], Entry(s, weight));
      MirrorRowsPut(secondIdxList, firstIdxList, f, s, newSeconds, newFirsts, Some(weight));
      firstIdxList := firstIdxList[s := newFirsts];
      secondIdxList := secondIdxList[f := newSeconds];
      return true;
    }

    /** removePair: removes the pair's entries from both sides, reporting whether it was there. */
    method RemovePair(f: int, s: int) returns (ok: bool)
      requires Valid()
      modifies this
      ensures Valid()
      ensures ok <==> old(Weight(f, s)).Some?
      ensures |firstIdxList| == old(|firstIdxList|) && |secondIdxList| == old(|secondIdxList|)
      ensures forall a, b :: Weight(a, b) == if a == f && b == s then None else old(Weight(a, b))
      ensures !ok ==> firstIdxList == old(firstIdxList) && secondIdxList == old(secondIdxList)
    {
      if f < 0 || s < 0 {
        return false;
      } else if f >= |secondIdxList| || s >= |firstIdxList| {
        assert Weight(f, s) == Get(firstIdxList, s, f);
        return false;
      }
      LookupSorted(firstIdxList[s], f);
      LookupSorted(secondIdxList[f], s);
      assert Weight(f, s) == Lookup(firstIdxList[s], f);
      var value := BinarySearch(Keys(firstIdxList[s]), f);
      if value < 0 {
        return false;
      }
      RemoveEntry(firstIdxList[s], value);
      var newFirsts := RemoveAt(firstIdxList[s], value);
      value := BinarySearch(Keys(secondIdxList[f]), s);
      assert value >= 0;
      RemoveEntry(secondIdxList[f], value);
      var newSeconds := RemoveAt(secondIdxList[f], value);
      MirrorRowsPut(secondIdxList, firstIdxList, f, s, newSeconds, newFirsts, None);
      firstIdxList := firstIdxList[s := newFirsts];
      secondIdxList := secondIdxList[f := newSeconds];
      return true;
    }

    /** hasSeconds: false out of range, otherwise whether the row of `f` is non-empty. */
    function HasSeconds(f: int): (b: bool)
      reads this
      requires Valid()
      ensures b <==> exists s :: Weight(f, s).Some?
    {
      if f < 0 || |secondIdxList| <= f then false
      else
        assert secondIdxList[f] != [] ==> Weight(f, secondIdxList[f][0].idx).Some?;
        assert forall s :: Weight(f, s).Some? ==> secondIdxList[f] != [];
        secondIdxList[f] != []
    }

    /** hasFirsts: false out of range, otherwise whether the row of `s` is non-empty. */
    function HasFirsts(s: int): (b: bool)
      reads this
      requires Valid()
      ensures b <==> exists f :: Weight(f, s).Some?
    {
      if s < 0 || |firstIdxList| <= s then
        assert forall f :: Weight(f, s) == Get(firstIdxList, s, f);
        false
      else
        assert forall f :: Weight(f, s) == Lookup(firstIdxList[s], f);
        assert firstIdxList[s] != [] ==> Weight(firstIdxList[s][0].idx, s).Some?;
        firstIdxList[s] != []
    }
  }

  /**
   * FastWeightedAutoRelation: a weighted relation of a set of nodes with itself, so that
   * both sides have one row per node.
   */
  class WeightedAutoRelation<W> {
    const rel: WeightedRelation<W>

    ghost predicate Valid()
      reads this, rel
    {
      rel.Valid() && |rel.firstIdxList| == |rel.secondIdxList|
    }

    /**
     * The constructor from the rows of second elements: the rows of first elements are
     * their inverse, and every row is then sorted by index.
     */
    constructor (weightsList: seq<seq<Entry<W>>>)
      requires forall i, j :: 0 <= i < |weightsList| && 0 <= j < |weightsList[i]| ==> 0 <= weightsList[i][j].idx < |weightsList|
      requires forall i :: 0 <= i < |weightsList| ==> Distinct(Keys(weightsList[i]))
      ensures Valid() && fresh(rel)
      ensures |rel.secondIdxList| == |weightsList|
      ensures forall f, s :: rel.Weight(f, s) == Get(weightsList, f, s)
    {
      var firsts := InvertRows(weightsList);
      InverseRowsValid(weightsList, firsts);
      rel := new WeightedRelation.Of(SortAllRows(firsts), SortAllRows(weightsList));
    }

    /**
     * addFirstItem on an auto-relation: the new node gets an empty row on both sides.
     */
    method AddFirstItem(f: int) returns (ok: bool)
      requires Valid() && f >= 0
      modifies rel
      ensures Valid()
      ensures ok <==> f == old(|rel.secondIdxList|)
      ensures |rel.secondIdxList| == old(|rel.secondIdxList|) + if ok then 1 else 0
      ensures forall a, b :: rel.Weight(a, b) == old(rel.Weight(a, b))
    {
      ok := rel.AddFirstItem(f);
    }

    /**
     * The renumbering step of remove: the rows of `idx` go, every other row is rebuilt
     * without `idx` and with larger indices lowered, and the entries dropped are counted.
     */
    method DropAndRenumber(idx: int) returns (totalc: nat)
      requires |rel.firstIdxList| == |rel.secondIdxList| && 0 <= idx < |rel.secondIdxList|
      modifies rel
      ensures rel.firstIdxList == RemovedRows(old(rel.firstIdxList), idx)
      ensures rel.secondIdxList == RemovedRows(old(rel.secondIdxList), idx)
      ensures totalc == Column(KeyLists(RemoveAt(old(rel.firstIdxList), idx)), idx) + Column(KeyLists(RemoveAt(old(rel.secondIdxList), idx)), idx)
    {
      var fs, ss;
      fs, ss, totalc := RenumberRows(RemoveAt(rel.firstIdxList, idx), RemoveAt(rel.secondIdxList, idx), idx);
      RenumberedRows(rel.firstIdxList, idx, fs);
      RenumberedRows(rel.secondIdxList, idx, ss);
      rel.firstIdxList := fs;
      rel.secondIdxList := ss;
    }

    /**
     * remove as the source writes it: the expected number of dropped entries is the
     * node's two row lengths minus one for a self-pair. A self-pair sits only in the
     * node's own rows, which go before the other rows are scanned, so the scan drops it
     * from neither side and falls short by one: the call reports false although the
     * node has been removed.
     */
    method RemoveAsWritten(idx: int) returns (ok: bool)
      requires Valid()
      modifies rel
      ensures Valid()
      ensures ok <==> 0 <= idx < old(|rel.secondIdxList|) && old(rel.Weight(idx, idx)).None?
      ensures !(0 <= idx < old(|rel.secondIdxList|)) ==> rel.firstIdxList == old(rel.firstIdxList) && rel.secondIdxList == old(rel.secondIdxList)
      ensures 0 <= idx < old(|rel.secondIdxList|) ==>
        rel.firstIdxList == RemovedRows(old(rel.firstIdxList), idx) && rel.secondIdxList == RemovedRows(old(rel.secondIdxList), idx)
    {
      if idx < 0 || idx >= |rel.secondIdxList| {
        return false;
      }
      var count := |rel.firstIdxList[idx]| + |rel.secondIdxList[idx]|;
      if rel.ContainsPair(idx, idx) {
        count := count - 1;
      }
      RemovedCount(rel.secondIdxList, rel.firstIdxList, idx);
      RemovedRowsMirrored(rel.secondIdxList, rel.firstIdxList, idx);
      var totalc := DropAndRenumber(idx);
      ok := count == totalc;
    }

    /**
     * remove with the self-pair discounted on both sides: out of range it reports false;
     * otherwise the node is removed, every pair involving it is dropped, larger node
     * indices are lowered by one, and the count always matches.
     */
    method Remove(idx: int) returns (ok: bool)
      requires Valid()
      modifies rel
      ensures Valid()
      ensures ok <==> 0 <= idx < old(|rel.secondIdxList|)
      ensures !ok ==> rel.firstIdxList == old(rel.firstIdxList) && rel.secondIdxList == old(rel.secondIdxList)
      ensures ok ==> rel.firstIdxList == RemovedRows(old(rel.firstIdxList), idx) && rel.secondIdxList == RemovedRows(old(rel.secondIdxList), idx)
      ensures ok ==> forall f, s :: rel.Weight(f, s) == if 0 <= f < |rel.secondIdxList| then old(rel.Weight(Up(f, idx), Up(s, idx))) else None
    {
      if idx < 0 || idx >= |rel.secondIdxList| {
        return false;
      }
      var count := |rel.firstIdxList[idx]| + |rel.secondIdxList[idx]|;
      if rel.ContainsPair(idx, idx) {
        count := count - 2;
      }
      RemovedCount(rel.secondIdxList, rel.firstIdxList, idx);
      RemovedRowsMirrored(rel.secondIdxList, rel.firstIdxList, idx);
      RemovedGet(rel.secondIdxList, idx);
      var totalc := DropAndRenumber(idx);
      ok := count == totalc;
    }

    /** getIsolated: the nodes with no pair on either side, in increasing order. */
    function GetIsolated(): (r: seq<int>)
      reads this, rel
      requires Valid()
      ensures StrictlySorted(r)
      ensures forall a :: a in r <==> 0 <= a < |rel.secondIdxList| && !rel.HasSeconds(a) && !rel.HasFirsts(a)
    {
      BothEmpty(rel.firstIdxList, rel.secondIdxList)
    }
  }

  /**
   * A single node with a weighted self-pair is a valid auto-relation on which the
   * source's remove reports false.
   */
  lemma SelfPairRemoval<W>(w: W)
    ensures var rows := [[Entry(0, w)]];
      RowsSorted(rows) && MirroredRows(rows, rows) && Get(rows, 0, 0).Some?
  {
    var rows := [[Entry(0, w)]];
    assert rows[0][1..] == [];
    forall f, s ensures Get(rows, f, s) == Get(rows, s, f) {
      if f == 0 && s != 0 {
        LookupAbsent(rows[0], s);
      } else if s == 0 && f != 0 {
        LookupAbsent(rows[0], f);
      }
    }
  }

  /**
   * FastWeightedPairwiseRelation: a weighted relation between two different sets, whose
   * number of second elements is the number of rows of first elements.
   */
  class WeightedPairwiseRelation<W> {
    const rel: WeightedRelation<W>

    ghost predicate Valid()
      reads this, rel
    {
      rel.Valid()
    }

    /** The constructor from the rows of second elements, which fix both sets' sizes. */
    constructor (weightsList: seq<seq<Entry<W>>>)
      requires forall i, j :: 0 <= i < |weightsList| && 0 <= j < |weightsList[i]| ==> 0 <= weightsList[i][j].idx < |weightsList|
      requires forall i :: 0 <= i < |weightsList| ==> Distinct(Keys(weightsList[i]))
      ensures Valid() && fresh(rel)
      ensures |rel.secondIdxList| == |rel.firstIdxList| == |weightsList|
      ensures forall f, s :: rel.Weight(f, s) == Get(weightsList, f, s)
    {
      var firsts := InvertRows(weightsList);
      InverseRowsValid(weightsList, firsts);
      rel := new WeightedRelation.Of(SortAllRows(firsts), SortAllRows(weightsList));
    }

    /** numSecond: the number of rows of first elements, which bounds every second element. */
    function NumSecond(): (n: nat)
      reads this, rel
      requires Valid()
      ensures n == |rel.firstIdxList|
      ensures forall f, s :: rel.Weight(f, s).Some? ==> 0 <= s < n
    {
      assert forall f, s :: rel.Weight(f, s) == Get(rel.firstIdxList, s, f);
      |rel.firstIdxList|
    }

    /** getAllSecond: the second elements 0 .. numSecond() - 1, in order. */
    method GetAllSecond() returns (r: seq<int>)
      requires Valid()
      ensures |r| == NumSecond()
      ensures forall k :: 0 <= k < |r| ==> r[k] == k
    {
      r := [];
      var size := |rel.firstIdxList|;
      var i := 0;
      while i < size
        invariant 0 <= i <= size && |r| == i
        invariant forall k :: 0 <= k < i ==> r[k] == k
      {
        r := r + [i];
        i := i + 1;
      }
    }

    /** addSecondItem: accepted only for the next index, which gets an empty row of first elements. */
    method AddSecondItem(s: int) returns (ok: bool)
      requires Valid() && s >= 0
      modifies rel
      ensures Valid()
      ensures ok <==> s == old(|rel.firstIdxList|)
      ensures rel.firstIdxList == if ok then old(rel.firstIdxList) + [[]] else old(rel.firstIdxList)
      ensures rel.secondIdxList == old(rel.secondIdxList)
      ensures forall a, b :: rel.Weight(a, b) == old(rel.Weight(a, b))
    {
      var size := |rel.firstIdxList|;
      if s < size {
        return false;
      }
      if s > size {
        return false;
      }
      AppendEmptyRow(rel.firstIdxList);
      assert InsertAt(rel.firstIdxList, s, []) == rel.firstIdxList + [[]];
      rel.firstIdxList := InsertAt(rel.firstIdxList, s, []);
      ok := true;
    }

    /**
     * addFirstItem as inherited: it also inserts an empty row of first elements at the new
     * first element's index, which adds a second element or shifts the existing ones.
     */
    method AddFirstItemAsWritten(f: int) returns (ok: bool)
      requires Valid() && f >= 0
      requires f == |rel.secondIdxList| ==> f <= |rel.firstIdxList|
      modifies rel
      ensures ok <==> f == old(|rel.secondIdxList|)
      ensures rel.firstIdxList == if ok then InsertAt(old(rel.firstIdxList), f, []) else old(rel.firstIdxList)
      ensures rel.secondIdxList == if ok then old(rel.secondIdxList) + [[]] else old(rel.secondIdxList)
    {
      ok := rel.AddFirstItem(f);
    }

    /** addFirstItem as the unweighted pairwise relation does it: a new row on the first elements' side only. */
    method AddFirstItem(f: int) returns (ok: bool)
      requires Valid() && f >= 0
      modifies rel
      ensures Valid()
      ensures ok <==> f == old(|rel.secondIdxList|)
      ensures rel.secondIdxList == if ok then old(rel.secondIdxList) + [[]] else old(rel.secondIdxList)
      ensures rel.firstIdxList == old(rel.firstIdxList)
      ensures forall a, b :: rel.Weight(a, b) == old(rel.Weight(a, b))
    {
      var size := |rel.secondIdxList|;
      if f < size {
        return false;
      }
      if f > size {
        return false;
      }
      AppendEmptyRow(rel.secondIdxList);
      rel.secondIdxList := rel.secondIdxList + [[]];
      ok := true;
    }
  }

  /**
   * One first element related to second elements 0 and 1: a valid pairwise relation with
   * more second than first elements, in which the inherited addFirstItem(1) shifts second
   * element 1 to index 2 on one side only, so that the sides no longer agree.
   */
  lemma FirstItemShiftsSeconds<W>(w: W)
    ensures var seconds, firsts := [[Entry(0, w), Entry(1, w)]], [[Entry(0, w)], [Entry(0, w)]];
      && RowsSorted(seconds) && RowsSorted(firsts) && MirroredRows(seconds, firsts)
      && !MirroredRows(seconds + [[]], InsertAt(firsts, 1, []))
  {
    var seconds, firsts := [[Entry(0, w), Entry(1, w)]], [[Entry(0, w)], [Entry(0, w)]];
    assert Keys(seconds[0]) == [0, 1];
    forall f, s ensures Get(seconds, f, s) == Get(firsts, s, f) {
      if f == 0 {
        if s == 0 || s == 1 {
          LookupAt(seconds[0], s);
          LookupAt(firsts[s], 0);
        } else {
          LookupAbsent(seconds[0], s);
        }
      } else if s == 0 || s == 1 {
        LookupAbsent(firsts[s], f);
      }
    }
    assert Get(seconds + [[]], 0, 1) == Some(w) by {
      assert (seconds + [[]])[0] == seconds[0];
      LookupAt(seconds[0], 1);
    }
    assert Get(InsertAt(firsts, 1, []), 1, 0) == None;
  }
}
