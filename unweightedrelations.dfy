// Unweighted relations between first and second elements (FastUnweightedRelation and
// its auto and pairwise variants). The directed graphs use an unweighted auto-relation,
// in which first and second elements are the same nodes, to store their edges.

module UnweightedRelations {
  import opened SortedLists
  import opened RelationLists

  /**
   * The constructors' inversion loop: for every list `i` of `ws` and every element `s`
   * in it, `i` is appended to the list of `s`.
   */
  method Invert(ws: seq<seq<int>>) returns (firsts: seq<seq<int>>)
    requires forall i, j :: 0 <= i < |ws| && 0 <= j < |ws[i]| ==> 0 <= ws[i][j] < |ws|
    ensures |firsts| == |ws|
    ensures forall s :: 0 <= s < |ws| ==> firsts[s] == Collected(ws, |ws|, 0, s)
    ensures forall s, f :: Has(firsts, s, f) <==> Has(ws, f, s)
  {
    firsts := seq(|ws|, _ => []);
    var i := 0;
    while i < |ws|
      invariant 0 <= i <= |ws| && |firsts| == |ws|
      invariant forall s :: 0 <= s < |ws| ==> firsts[s] == Collected(ws, i, 0, s)
    {
      var list := ws[i];
      var j := 0;
      while j < |list|
        invariant 0 <= j <= |list| && |firsts| == |ws|
        invariant forall s :: 0 <= s < |ws| ==> firsts[s] == Collected(ws, i, j, s)
      {
        firsts := firsts[list[j] := firsts[list[j]] + [i]];
        j := j + 1;
      }
      i := i + 1;
    }
    forall s, f ensures Has(firsts, s, f) <==> Has(ws, f, s) {
      if 0 <= s < |ws| {
        CollectedMembers(ws, |ws|, 0, s);
      }
      if Has(ws, f, s) {
        var j :| 0 <= j < |ws[f]| && ws[f][j] == s;
        CollectedMembers(ws, |ws|, 0, s);
      }
    }
  }

  /**
   * Sorting the given lists and their inverse gives a valid relation holding exactly
   * the given pairs.
   */
  lemma InverseValid(ws: seq<seq<int>>, firsts: seq<seq<int>>)
    requires forall i, j :: 0 <= i < |ws| && 0 <= j < |ws[i]| ==> 0 <= ws[i][j] < |ws|
    requires forall i :: 0 <= i < |ws| ==> Distinct(ws[i])
    requires |firsts| == |ws|
    requires forall s :: 0 <= s < |ws| ==> firsts[s] == Collected(ws, |ws|, 0, s)
    requires forall s, f :: Has(firsts, s, f) <==> Has(ws, f, s)
    ensures ListsSorted(SortAll(firsts)) && ListsSorted(SortAll(ws))
    ensures Mirrored(SortAll(ws), SortAll(firsts))
    ensures forall f, s :: Has(SortAll(ws), f, s) <==> Has(ws, f, s)
  {
    forall s | 0 <= s < |ws| ensures StrictlySorted(SortAll(firsts)[s]) && (forall f :: f in SortAll(firsts)[s] <==> f in firsts[s]) {
      CollectedSorted(ws, |ws|, 0, s);
      SortedIsDistinct(firsts[s]);
      SortListStrict(firsts[s]);
    }
    forall f | 0 <= f < |ws| ensures StrictlySorted(SortAll(ws)[f]) && (forall s :: s in SortAll(ws)[f] <==> s in ws[f]) {
      SortListStrict(ws[f]);
    }
    var F, S := SortAll(firsts), SortAll(ws);
    forall f, s ensures Has(S, f, s) <==> Has(ws, f, s) {
    }
    forall f, s ensures Has(S, f, s) <==> Has(F, s, f) {
      assert Has(F, s, f) <==> Has(firsts, s, f);
    }
  }

  /**
   * A pairwise relation's test for `x` in a sorted list: Collections.binarySearch
   * compared with `> 0`, so that `x` stored at position 0 counts as absent.
   */
  function FoundAfterHead(l: seq<int>, x: int): (b: bool)
    requires StrictlySorted(l)
    ensures b <==> x in l && l[0] != x
  {
    BinarySearch(l, x) > 0
  }

  /**
   * A pairwise relation's insertion step: rejected when the search answers `> 0`,
   * otherwise `x` goes in at position |answer + 1|. When `x` is already at position 0
   * the answer is 0 and `x` is inserted a second time at position 1.
   */
  function InsertUnlessAfterHead(l: seq<int>, x: int): (r: seq<int>)
    requires StrictlySorted(l)
    ensures FoundAfterHead(l, x) ==> r == l
    ensures x !in l ==> r == InsertAt(l, Below(l, x), x)
    ensures l != [] && l[0] == x ==> r == [x, x] + l[1..]
  {
    var value := BinarySearch(l, x);
    if value > 0 then l
    else
      var idx := if value < 0 then -(value + 1) else value + 1;
      InsertAt(l, idx, x)
  }

  /**
   * FastUnweightedRelation: for every first element the sorted list of its second
   * elements (secondIdxList) and for every second element the sorted list of its first
   * elements (firstIdxList).
   */
  class UnweightedRelation {
    /** Indexed by second element: the first elements related to it (e.g. incident edges). */
    var firstIdxList: seq<seq<int>>
    /** Indexed by first element: the second elements it relates to (e.g. outgoing edges). */
    var secondIdxList: seq<seq<int>>

    ghost predicate Valid()
      reads this
    {
      ListsSorted(firstIdxList) && ListsSorted(secondIdxList) && Mirrored(secondIdxList, firstIdxList)
    }

    /** Whether first element `f` is related to second element `s`. */
    predicate Related(f: int, s: int)
      reads this
    {
      Has(secondIdxList, f, s)
    }

    /** The constructor that takes both sides as given. */
    constructor Of(firstIdxList: seq<seq<int>>, secondIdxList: seq<seq<int>>)
      ensures this.firstIdxList == firstIdxList && this.secondIdxList == secondIdxList
    {
      this.firstIdxList := firstIdxList;
      this.secondIdxList := secondIdxList;
    }

    /**
     * addFirstItem: accepted only for the index one past the last first element, which
     * then gets an empty list on both sides; a negative index makes the source throw.
     */
    method AddFirstItem(f: int) returns (ok: bool)
      requires Valid() && f >= 0
      modifies this
      ensures Valid()
      ensures ok <==> f == old(|secondIdxList|)
      ensures ok ==> firstIdxList == old(firstIdxList) + [[]] && secondIdxList == old(secondIdxList) + [[]]
      ensures !ok ==> firstIdxList == old(firstIdxList) && secondIdxList == old(secondIdxList)
      ensures forall a, b :: Related(a, b) <==> old(Related(a, b))
    {
      var size := |secondIdxList|;
      if f < size {
        return false;
      }
      if f > size {
        return false;
      }
      AppendEmpty(firstIdxList);
      AppendEmpty(secondIdxList);
      firstIdxList := firstIdxList + [[]];
      secondIdxList := secondIdxList + [[]];
      ok := true;
    }

    /**
     * addRelation: rejects negative or out-of-range indices and pairs already related;
     * otherwise inserts `f` into the list of `s` and `s` into the list of `f`, each at its
     * binary-search insertion point.
     */
    method AddRelation(f: int, s: int) returns (ok: bool)
      requires Valid()
      modifies this
      ensures Valid()
      ensures ok <==> 0 <= f < |secondIdxList| && 0 <= s < |firstIdxList| && !old(Related(f, s))
      ensures |firstIdxList| == old(|firstIdxList|) && |secondIdxList| == old(|secondIdxList|)
      ensures forall a, b :: Related(a, b) <==> old(Related(a, b)) || (ok && a == f && b == s)
      ensures ok ==> firstIdxList == old(firstIdxList)[s := InsertAt(old(firstIdxList[s]), Below(old(firstIdxList[s]), f), f)]
      ensures ok ==> secondIdxList == old(secondIdxList)[f := InsertAt(old(secondIdxList[f]), Below(old(secondIdxList[f]), s), s)]
      ensures !ok ==> firstIdxList == old(firstIdxList) && secondIdxList == old(secondIdxList)
      ensures TotalSize(secondIdxList) == old(TotalSize(secondIdxList)) + if ok then 1 else 0
    {
      if f < 0 || s < 0 {
        return false;
      }
      if f >= |secondIdxList| || s >= |firstIdxList| {
        return false;
      }
      var value := BinarySearch(firstIdxList[s], f);
      if value >= 0 {
        assert Has(firstIdxList, s, f);
        return false;
      }
      assert !Has(secondIdxList, f, s);
      var idx := -(value + 1);
      var newFirsts := InsertAt(firstIdxList[s], idx, f);
      InsertKeepsSorted(firstIdxList[s], f);
      InsertMembers(firstIdxList[s], idx, f);
      firstIdxList := firstIdxList[s := newFirsts];
      value := BinarySearch(secondIdxList[f], s);
      assert value < 0;
      idx := -(value + 1);
      var newSeconds := InsertAt(secondIdxList[f], idx, s);
      InsertKeepsSorted(secondIdxList[f], s);
      InsertMembers(secondIdxList[f], idx, s);
      MirrorPut(old(secondIdxList), old(firstIdxList), f, s, newSeconds, newFirsts, true);
      TotalSizePut(secondIdxList, f, newSeconds);
      secondIdxList := secondIdxList[f := newSeconds];
      return true;
    }

    /** containsPair: a binary search of `f` in the list of `s`, false outside the relation's range. */
    function ContainsPair(f: int, s: int): (b: bool)
      reads this
      requires Valid()
      ensures b <==> Related(f, s)
    {
      if f < 0 || s < 0 || f >= |secondIdxList| || s >= |firstIdxList| then false
      else
        assert Related(f, s) <==> Has(firstIdxList, s, f);
        BinarySearch(firstIdxList[s], f) >= 0
    }

    /**
     * updatePair: a no-op reporting false outside the range or for a missing pair when
     * `createRelation` is off; a pair already present is left as it is (there is no
     * weight to change) and reported true; a missing pair is created when asked.
     */
    method UpdatePair(f: int, s: int, createRelation: bool) returns (ok: bool)
      requires Valid()
      modifies this
      ensures Valid()
      ensures ok <==> 0 <= f < |secondIdxList| && 0 <= s < |firstIdxList| && (old(Related(f, s)) || createRelation)
      ensures |firstIdxList| == old(|firstIdxList|) && |secondIdxList| == old(|secondIdxList|)
      ensures forall a, b :: Related(a, b) <==> old(Related(a, b)) || (ok && a == f && b == s)
      ensures old(Related(f, s)) || !ok ==> firstIdxList == old(firstIdxList) && secondIdxList == old(secondIdxList)
      ensures TotalSize(secondIdxList) == old(TotalSize(secondIdxList)) + if ok && !old(Related(f, s)) then 1 else 0
    {
      if f < 0 || s < 0 {
        return false;
      }
      if f >= |secondIdxList| || s >= |firstIdxList| {
        return false;
      }
      var value := BinarySearch(firstIdxList[s], f);
      assert value >= 0 <==> Related(f, s);
      if value < 0 && !createRelation {
        return false;
      } else if value >= 0 {
        return true;
      }
      var idx := -(value + 1);
      var newFirsts := InsertAt(firstIdxList[s], idx, f);
      InsertKeepsSorted(firstIdxList[s], f);
      InsertMembers(firstIdxList[s], idx, f);
      firstIdxList := firstIdxList[s := newFirsts];
      value := BinarySearch(secondIdxList[f], s);
      idx := -(value + 1);
      var newSeconds := InsertAt(secondIdxList[f], idx, s);
      InsertKeepsSorted(secondIdxList[f], s);
      InsertMembers(secondIdxList[f], idx, s);
      MirrorPut(old(secondIdxList), old(firstIdxList), f, s, newSeconds, newFirsts, true);
      TotalSizePut(secondIdxList, f, newSeconds);
      secondIdxList := secondIdxList[f := newSeconds];
      return true;
    }

    /**
     * removePair: removes `f` from the list of `s` and `s` from the list of `f`, reporting
     * whether the pair was there; outside the range the search gives null and nothing happens.
     */
    method RemovePair(f: int, s: int) returns (ok: bool)
      requires Valid()
      modifies this
      ensures Valid()
      ensures ok <==> old(Related(f, s))
      ensures |firstIdxList| == old(|firstIdxList|) && |secondIdxList| == old(|secondIdxList|)
      ensures forall a, b :: Related(a, b) <==> old(Related(a, b)) && !(a == f && b == s)
      ensures !ok ==> firstIdxList == old(firstIdxList) && secondIdxList == old(secondIdxList)
      ensures TotalSize(secondIdxList) == old(TotalSize(secondIdxList)) - if ok then 1 else 0
    {
      if f < 0 || s < 0 || f >= |secondIdxList| || s >= |firstIdxList| {
        return false;
      }
      var value := BinarySearch(firstIdxList[s], f);
      assert value >= 0 <==> Related(f, s);
      if value < 0 {
        return false;
      }
      var newFirsts := RemoveAt(firstIdxList[s], value);
      RemoveKeepsSorted(firstIdxList[s], value);
      RemoveMembers(firstIdxList[s], value);
      firstIdxList := firstIdxList[s := newFirsts];
      value := BinarySearch(secondIdxList[f], s);
      assert value >= 0;
      var newSeconds := RemoveAt(secondIdxList[f], value);
      RemoveKeepsSorted(secondIdxList[f], value);
      RemoveMembers(secondIdxList[f], value);
      MirrorPut(old(secondIdxList), old(firstIdxList), f, s, newSeconds, newFirsts, false);
      TotalSizePut(secondIdxList, f, newSeconds);
      secondIdxList := secondIdxList[f := newSeconds];
      return true;
    }

    /** hasSeconds: false outside the range, otherwise whether the list of `f` is non-empty. */
    function HasSeconds(f: int): (b: bool)
      reads this
      requires Valid()
      ensures b <==> exists s :: Related(f, s)
    {
      if f < 0 || |secondIdxList| <= f then false
      else
        assert secondIdxList[f] != [] ==> Related(f, secondIdxList[f][0]);
        secondIdxList[f] != []
    }

    /**
     * hasFirsts: false outside the range, otherwise whether the list of `s` is non-empty.
     * The range is numSecond(), the number of lists of first elements in every subclass
     * that stores its pairs here.
     */
    function HasFirsts(s: int): (b: bool)
      reads this
      requires Valid()
      ensures b <==> exists f :: Related(f, s)
    {
      if s < 0 || |firstIdxList| <= s then false
      else
        assert firstIdxList[s] != [] ==> Has(firstIdxList, s, firstIdxList[s][0]);
        assert forall f :: Related(f, s) <==> Has(firstIdxList, s, f);
        firstIdxList[s] != []
    }

    /** firstsWithSeconds: the first elements relating to something, in increasing order. */
    function FirstsWithSeconds(): (r: seq<int>)
      reads this
      requires Valid()
      ensures StrictlySorted(r)
      ensures forall f :: f in r <==> HasSeconds(f)
    {
      NonEmpty(secondIdxList)
    }

    /** secondsWithFirsts: the second elements something relates to, in increasing order. */
    function SecondsWithFirsts(): (r: seq<int>)
      reads this
      requires Valid()
      ensures StrictlySorted(r)
      ensures forall s :: s in r <==> HasFirsts(s)
    {
      NonEmpty(firstIdxList)
    }
  }

  /**
   * FastUnweightedAutoRelation: a relation of a set of nodes with itself, so that both
   * sides have one list per node.
   */
  class UnweightedAutoRelation {
    const rel: UnweightedRelation

    ghost predicate Valid()
      reads this, rel
    {
      rel.Valid() && |rel.firstIdxList| == |rel.secondIdxList|
    }

    /**
     * The constructor from the lists of second elements: the lists of first elements are
     * their inverse, and every list is then sorted.
     */
    constructor (weightList: seq<seq<int>>)
      requires forall i, j :: 0 <= i < |weightList| && 0 <= j < |weightList[i]| ==> 0 <= weightList[i][j] < |weightList|
      requires forall i :: 0 <= i < |weightList| ==> Distinct(weightList[i])
      ensures Valid() && fresh(rel)
      ensures |rel.secondIdxList| == |weightList|
      ensures forall f, s :: rel.Related(f, s) <==> Has(weightList, f, s)
    {
      var firsts := Invert(weightList);
      InverseValid(weightList, firsts);
      rel := new UnweightedRelation.Of(SortAll(firsts), SortAll(weightList));
    }

    /**
     * remove, with each list renumbered entry by entry: out of range it reports false;
     * otherwise the node's two lists go, every entry for the node is dropped and every
     * larger node index is lowered by one.
     */
    method Remove(idx: int) returns (ok: bool)
      requires Valid()
      modifies rel
      ensures Valid()
      ensures ok <==> 0 <= idx < old(|rel.secondIdxList|)
      ensures !ok ==> rel.firstIdxList == old(rel.firstIdxList) && rel.secondIdxList == old(rel.secondIdxList)
      ensures ok ==> rel.firstIdxList == RemovedLists(old(rel.firstIdxList), idx)
      ensures ok ==> rel.secondIdxList == RemovedLists(old(rel.secondIdxList), idx)
      ensures ok ==> forall f, s :: rel.Related(f, s) <==> 0 <= f < |rel.secondIdxList| && old(rel.Related(Up(f, idx), Up(s, idx)))
    {
      if idx < 0 || idx >= |rel.secondIdxList| {
        return false;
      }
      RemovedMirrored(rel.secondIdxList, rel.firstIdxList, idx);
      RemovedHas(rel.secondIdxList, idx);
      var firsts, seconds := RemoveAt(rel.firstIdxList, idx), RemoveAt(rel.secondIdxList, idx);
      rel.firstIdxList := firsts;
      rel.secondIdxList := seconds;
      var i := 0;
      while i < |rel.secondIdxList|
        invariant 0 <= i <= |seconds| && |rel.firstIdxList| == |firsts| == |seconds| == |rel.secondIdxList|
        invariant forall j :: 0 <= j < i ==> rel.firstIdxList[j] == RenumberList(firsts[j], idx)
        invariant forall j :: 0 <= j < i ==> rel.secondIdxList[j] == RenumberList(seconds[j], idx)
        invariant forall j :: i <= j < |seconds| ==> rel.firstIdxList[j] == firsts[j] && rel.secondIdxList[j] == seconds[j]
      {
        rel.firstIdxList := rel.firstIdxList[i := RenumberList(rel.firstIdxList[i], idx)];
        rel.secondIdxList := rel.secondIdxList[i := RenumberList(rel.secondIdxList[i], idx)];
        i := i + 1;
      }
      assert rel.firstIdxList == RenumberAll(firsts, idx);
      assert rel.secondIdxList == RenumberAll(seconds, idx);
      return true;
    }

    /**
     * remove as the source writes it: each list is rebuilt from its positions other
     * than `idx` (`filter(j -> j != idx)` runs over positions, not over entries), then
     * renumbered.
     */
    method RemoveAsWritten(idx: int) returns (ok: bool)
      requires Valid()
      modifies rel
      ensures ok <==> 0 <= idx < old(|rel.secondIdxList|)
      ensures !ok ==> rel.firstIdxList == old(rel.firstIdxList) && rel.secondIdxList == old(rel.secondIdxList)
      ensures ok ==> rel.firstIdxList == SkippingRemoved(old(rel.firstIdxList), idx)
      ensures ok ==> rel.secondIdxList == SkippingRemoved(old(rel.secondIdxList), idx)
    {
      if idx < 0 || idx >= |rel.secondIdxList| {
        return false;
      }
      var firsts, seconds := RemoveAt(rel.firstIdxList, idx), RemoveAt(rel.secondIdxList, idx);
      rel.firstIdxList := firsts;
      rel.secondIdxList := seconds;
      var i := 0;
      while i < |rel.secondIdxList|
        invariant 0 <= i <= |seconds| && |rel.firstIdxList| == |firsts| == |seconds| == |rel.secondIdxList|
        invariant forall j :: 0 <= j < i ==> rel.firstIdxList[j] == RenumberList(SkipPosition(firsts[j], idx), idx)
        invariant forall j :: 0 <= j < i ==> rel.secondIdxList[j] == RenumberList(SkipPosition(seconds[j], idx), idx)
        invariant forall j :: i <= j < |seconds| ==> rel.firstIdxList[j] == firsts[j] && rel.secondIdxList[j] == seconds[j]
      {
        rel.firstIdxList := rel.firstIdxList[i := RenumberList(SkipPosition(rel.firstIdxList[i], idx), idx)];
        rel.secondIdxList := rel.secondIdxList[i := RenumberList(SkipPosition(rel.secondIdxList[i], idx), idx)];
        i := i + 1;
      }
      return true;
    }

    /** getIsolated: the nodes with neither outgoing nor incoming pairs, in increasing order. */
    function GetIsolated(): (r: seq<int>)
      reads this, rel
      requires Valid()
      ensures StrictlySorted(r)
      ensures forall a :: a in r <==> 0 <= a < |rel.secondIdxList| && !rel.HasSeconds(a) && !rel.HasFirsts(a)
    {
      BothEmpty(rel.firstIdxList, rel.secondIdxList)
    }
  }

  /** A list without its entry at position `idx`, when it has one. */
  function SkipPosition(l: seq<int>, idx: int): seq<int>
  {
    if 0 <= idx < |l| then RemoveAt(l, idx) else l
  }

  /** The lists the source's remove leaves on one side. */
  function SkippingRemoved(lists: seq<seq<int>>, idx: int): (r: seq<seq<int>>)
    requires 0 <= idx < |lists|
    ensures |r| == |lists| - 1
  {
    var rest := RemoveAt(lists, idx);
    seq(|rest|, i requires 0 <= i < |rest| => RenumberList(SkipPosition(rest[i], idx), idx))
  }

  /**
   * Node 0 with edges to nodes 1 and 2: removing node 1 should leave the edge to node 2,
   * renumbered as an edge to node 1, but the source's remove skips position 1 of node 0's
   * list, which holds that edge, and loses it.
   */
  lemma RemoveLosesEdge()
    ensures RemovedLists([[1, 2], [], []], 1) == [[1], []]
    ensures SkippingRemoved([[1, 2], [], []], 1) == [[], []]
  {
    assert RemoveAt([[1, 2], [], []], 1) == [[1, 2], []];
    assert [1, 2][..1] == [1] && [1][..0] == [];
    assert RenumberList([1, 2], 1) == [1];
    assert SkipPosition([1, 2], 1) == [1];
    assert RenumberList([1], 1) == [];
  }

  /**
   * FastUnweightedPairwiseRelation: a relation between two different sets. It keeps its
   * own pair of lists, which hide the ones of the class it extends; only its own
   * operations read them.
   */
  class UnweightedPairwiseRelation {
    /** Indexed by second element: the first elements related to it. */
    var firstIdxList: seq<seq<int>>
    /** Indexed by first element: the second elements it relates to. */
    var secondIdxList: seq<seq<int>>

    ghost predicate Valid()
      reads this
    {
      ListsSorted(firstIdxList) && ListsSorted(secondIdxList) && Mirrored(secondIdxList, firstIdxList)
    }

    predicate Related(f: int, s: int)
      reads this
    {
      Has(secondIdxList, f, s)
    }

    constructor ()
      ensures Valid() && firstIdxList == [] && secondIdxList == []
    {
      firstIdxList := [];
      secondIdxList := [];
    }

    /** numFirst: the number of first elements. */
    function NumFirst(): (n: nat)
      reads this
      ensures n == |secondIdxList|
      ensures forall f, s :: Related(f, s) ==> f < n
    {
      |secondIdxList|
    }

    /** numSecond: the number of second elements. */
    function NumSecond(): (n: nat)
      reads this
      requires Valid()
      ensures n == |firstIdxList|
      ensures forall f, s :: Related(f, s) ==> s < n
    {
      assert forall f, s :: Related(f, s) ==> Has(firstIdxList, s, f);
      |firstIdxList|
    }

    /** addFirstItem: a new first element gets an empty list on its own side only. */
    method AddFirstItem(f: int) returns (ok: bool)
      requires Valid() && f >= 0
      modifies this
      ensures Valid()
      ensures ok <==> f == old(|secondIdxList|)
      ensures secondIdxList == if ok then old(secondIdxList) + [[]] else old(secondIdxList)
      ensures firstIdxList == old(firstIdxList)
      ensures forall a, b :: Related(a, b) <==> old(Related(a, b))
    {
      var size := |secondIdxList|;
      if f < size {
        return false;
      }
      if f > size {
        return false;
      }
      AppendEmpty(secondIdxList);
      secondIdxList := secondIdxList + [[]];
      ok := true;
    }

    /** addSecondItem: a new second element gets an empty list at its index. */
    method AddSecondItem(s: int) returns (ok: bool)
      requires Valid() && s >= 0
      modifies this
      ensures Valid()
      ensures ok <==> s == old(|firstIdxList|)
      ensures firstIdxList == if ok then old(firstIdxList) + [[]] else old(firstIdxList)
      ensures secondIdxList == old(secondIdxList)
      ensures forall a, b :: Related(a, b) <==> old(Related(a, b))
    {
      var size := |firstIdxList|;
      if s < size {
        return false;
      }
      if s > size {
        return false;
      }
      AppendEmpty(firstIdxList);
      firstIdxList := InsertAt(firstIdxList, s, []);
      ok := true;
      assert firstIdxList == old(firstIdxList) + [[]];
    }

    /**
     * containsPair as the source writes it: the search's answer is compared with `> 0`,
     * so a pair whose first element heads the list of its second element is reported
     * absent. Out of range the search gives null and the comparison throws.
     */
    function ContainsPairAsWritten(f: int, s: int): (b: bool)
      reads this
      requires Valid() && 0 <= f < |secondIdxList| && 0 <= s < |firstIdxList|
      ensures b <==> Related(f, s) && firstIdxList[s][0] != f
    {
      assert Related(f, s) <==> f in firstIdxList[s];
      FoundAfterHead(firstIdxList[s], f)
    }

    /** containsPair with the comparison the other relations use, `>= 0`. */
    function ContainsPair(f: int, s: int): (b: bool)
      reads this
      requires Valid() && 0 <= f < |secondIdxList| && 0 <= s < |firstIdxList|
      ensures b <==> Related(f, s)
    {
      assert Related(f, s) <==> f in firstIdxList[s];
      BinarySearch(firstIdxList[s], f) >= 0
    }

    /**
     * addRelation as the source writes it: each side's search is compared with `> 0`, so
     * a pair found at position 0 of a list is inserted there again at position 1; when
     * only the second search finds it past position 0, the call reports false after
     * having changed the list of `s`.
     */
    method AddRelationAsWritten(f: int, s: int) returns (ok: bool)
      requires Valid()
      modifies this
      ensures !(0 <= f < old(|secondIdxList|) && 0 <= s < old(|firstIdxList|)) ==>
        !ok && firstIdxList == old(firstIdxList) && secondIdxList == old(secondIdxList)
      ensures 0 <= f < old(|secondIdxList|) && 0 <= s < old(|firstIdxList|) ==>
        && firstIdxList == old(firstIdxList)[s := InsertUnlessAfterHead(old(firstIdxList[s]), f)]
        && (ok <==> !FoundAfterHead(old(firstIdxList[s]), f) && !FoundAfterHead(old(secondIdxList[f]), s))
        && secondIdxList == old(secondIdxList)[f := if ok then InsertUnlessAfterHead(old(secondIdxList[f]), s) else old(secondIdxList[f])]
    {
      if f < 0 || s < 0 {
        return false;
      }
      if f >= |secondIdxList| || s >= |firstIdxList| {
        return false;
      }
      ghost var firsts, seconds := firstIdxList, secondIdxList;
      var value := BinarySearch(firstIdxList[s], f);
      assert value > 0 <==> FoundAfterHead(firsts[s], f);
      if value > 0 {
        return false;
      }
      var idx := if value < 0 then -(value + 1) else value + 1;
      firstIdxList := firstIdxList[s := InsertAt(firstIdxList[s], idx, f)];
      assert firstIdxList == firsts[s := InsertUnlessAfterHead(firsts[s], f)];
      value := BinarySearch(secondIdxList[f], s);
      assert value > 0 <==> FoundAfterHead(seconds[f], s);
      if value > 0 {
        return false;
      }
      idx := if value < 0 then -(value + 1) else value + 1;
      secondIdxList := secondIdxList[f := InsertAt(secondIdxList[f], idx, s)];
      assert secondIdxList == seconds[f := InsertUnlessAfterHead(seconds[f], s)];
      return true;
    }

    /** addRelation with the `>= 0` comparison of the other relations. */
    method AddRelation(f: int, s: int) returns (ok: bool)
      requires Valid()
      modifies this
      ensures Valid()
      ensures ok <==> 0 <= f < |secondIdxList| && 0 <= s < |firstIdxList| && !old(Related(f, s))
      ensures |firstIdxList| == old(|firstIdxList|) && |secondIdxList| == old(|secondIdxList|)
      ensures forall a, b :: Related(a, b) <==> old(Related(a, b)) || (ok && a == f && b == s)
      ensures !ok ==> firstIdxList == old(firstIdxList) && secondIdxList == old(secondIdxList)
    {
      if f < 0 || s < 0 {
        return false;
      }
      if f >= |secondIdxList| || s >= |firstIdxList| {
        return false;
      }
      var value := BinarySearch(firstIdxList[s], f);
      if value >= 0 {
        assert Has(firstIdxList, s, f);
        return false;
      }
      assert !Has(secondIdxList, f, s);
      var idx := -(value + 1);
      var newFirsts := InsertAt(firstIdxList[s], idx, f);
      InsertKeepsSorted(firstIdxList[s], f);
      InsertMembers(firstIdxList[s], idx, f);
      firstIdxList := firstIdxList[s := newFirsts];
      value := BinarySearch(secondIdxList[f], s);
      assert value < 0;
      idx := -(value + 1);
      var newSeconds := InsertAt(secondIdxList[f], idx, s);
      InsertKeepsSorted(secondIdxList[f], s);
      InsertMembers(secondIdxList[f], idx, s);
      MirrorPut(old(secondIdxList), old(firstIdxList), f, s, newSeconds, newFirsts, true);
      secondIdxList := secondIdxList[f := newSeconds];
      return true;
    }

    /**
     * updatePair as the source writes it: a pair found past position 0 is reported true;
     * a pair found at position 0 falls into the creation branch, whatever
     * `createRelation` says, and is inserted a second time on both sides.
     */
    method UpdatePairAsWritten(f: int, s: int, createRelation: bool) returns (ok: bool)
      requires Valid()
      modifies this
      ensures !(0 <= f < old(|secondIdxList|) && 0 <= s < old(|firstIdxList|)) ==>
        !ok && firstIdxList == old(firstIdxList) && secondIdxList == old(secondIdxList)
      ensures 0 <= f < old(|secondIdxList|) && 0 <= s < old(|firstIdxList|) ==>
        var created := !FoundAfterHead(old(firstIdxList[s]), f) && (old(Related(f, s)) || createRelation);
        && (ok <==> old(Related(f, s)) || createRelation)
        && firstIdxList == (if created then old(firstIdxList)[s := InsertUnlessAfterHead(old(firstIdxList[s]), f)] else old(firstIdxList))
        && secondIdxList == (if created then old(secondIdxList)[f := InsertAt(old(secondIdxList[f]), AfterSearch(old(secondIdxList[f]), s), s)] else old(secondIdxList))
    {
      if f < 0 || s < 0 {
        return false;
      }
      if f >= |secondIdxList| || s >= |firstIdxList| {
        return false;
      }
      ghost var firsts, seconds := firstIdxList, secondIdxList;
      var value := BinarySearch(firstIdxList[s], f);
      assert value >= 0 <==> Related(f, s);
      assert value > 0 <==> FoundAfterHead(firsts[s], f);
      if value < 0 && !createRelation {
        return false;
      } else if value > 0 {
        return true;
      } else {
        var idx := if value < 0 then -(value + 1) else value + 1;
        firstIdxList := firstIdxList[s := InsertAt(firstIdxList[s], idx, f)];
        assert firstIdxList == firsts[s := InsertUnlessAfterHead(firsts[s], f)];
      }
      value := BinarySearch(secondIdxList[f], s);
      var idx := if value < 0 then -(value + 1) else value + 1;
      assert idx == AfterSearch(seconds[f], s);
      secondIdxList := secondIdxList[f := InsertAt(secondIdxList[f], idx, s)];
      return true;
    }

    /** updatePair with the `>= 0` comparison: a pair already present is left alone. */
    method UpdatePair(f: int, s: int, createRelation: bool) returns (ok: bool)
      requires Valid()
      modifies this
      ensures Valid()
      ensures ok <==> 0 <= f < |secondIdxList| && 0 <= s < |firstIdxList| && (old(Related(f, s)) || createRelation)
      ensures forall a, b :: Related(a, b) <==> old(Related(a, b)) || (ok && a == f && b == s)
      ensures old(Related(f, s)) || !ok ==> firstIdxList == old(firstIdxList) && secondIdxList == old(secondIdxList)
    {
      if f < 0 || s < 0 {
        return false;
      }
      if f >= |secondIdxList| || s >= |firstIdxList| {
        return false;
      }
      var value := BinarySearch(firstIdxList[s], f);
      assert value >= 0 <==> Related(f, s);
      if value < 0 && !createRelation {
        return false;
      } else if value >= 0 {
        return true;
      }
      var idx := -(value + 1);
      var newFirsts := InsertAt(firstIdxList[s], idx, f);
      InsertKeepsSorted(firstIdxList[s], f);
      InsertMembers(firstIdxList[s], idx, f);
      firstIdxList := firstIdxList[s := newFirsts];
      value := BinarySearch(secondIdxList[f], s);
      idx := -(value + 1);
      var newSeconds := InsertAt(secondIdxList[f], idx, s);
      InsertKeepsSorted(secondIdxList[f], s);
      InsertMembers(secondIdxList[f], idx, s);
      MirrorPut(old(secondIdxList), old(firstIdxList), f, s, newSeconds, newFirsts, true);
      secondIdxList := secondIdxList[f := newSeconds];
      return true;
    }

    /** removePair: removes the pair from both sides when present (this one compares with `< 0`). */
    method RemovePair(f: int, s: int) returns (ok: bool)
      requires Valid()
      modifies this
      ensures Valid()
      ensures ok <==> old(Related(f, s))
      ensures |firstIdxList| == old(|firstIdxList|) && |secondIdxList| == old(|secondIdxList|)
      ensures forall a, b :: Related(a, b) <==> old(Related(a, b)) && !(a == f && b == s)
      ensures !ok ==> firstIdxList == old(firstIdxList) && secondIdxList == old(secondIdxList)
    {
      if f < 0 || s < 0 || f >= |secondIdxList| || s >= |firstIdxList| {
        return false;
      }
      var value := BinarySearch(firstIdxList[s], f);
      assert value >= 0 <==> Related(f, s);
      if value < 0 {
        return false;
      }
      var newFirsts := RemoveAt(firstIdxList[s], value);
      RemoveKeepsSorted(firstIdxList[s], value);
      RemoveMembers(firstIdxList[s], value);
      firstIdxList := firstIdxList[s := newFirsts];
      value := BinarySearch(secondIdxList[f], s);
      assert value >= 0;
      var newSeconds := RemoveAt(secondIdxList[f], value);
      RemoveKeepsSorted(secondIdxList[f], value);
      RemoveMembers(secondIdxList[f], value);
      MirrorPut(old(secondIdxList), old(firstIdxList), f, s, newSeconds, newFirsts, false);
      secondIdxList := secondIdxList[f := newSeconds];
      return true;
    }
  }

  /** The position |answer + 1| the pairwise relation inserts at after a search. */
  function AfterSearch(l: seq<int>, x: int): (p: nat)
    requires StrictlySorted(l)
    ensures p <= |l|
    ensures x !in l ==> p == Below(l, x)
  {
    var value := BinarySearch(l, x);
    if value < 0 then -(value + 1) else value + 1
  }

  /**
   * The single pair (0, 0): the pairwise containsPair reports it absent, and the
   * pairwise addRelation and updatePair store it a second time.
   */
  lemma PairAtHeadMishandled()
    ensures Has([[0]], 0, 0) && !FoundAfterHead([0], 0)
    ensures InsertUnlessAfterHead([0], 0) == [0, 0] && !StrictlySorted([0, 0])
    ensures AfterSearch([0], 0) == 1
  {
    assert BinarySearch([0], 0) == 0;
    assert InsertAt([0], 1, 0) == [0, 0];
    assert [0, 0][0] == [0, 0][1];
  }
}
