// The indexes that give objects (users, items, graph nodes) consecutive integer
// identifiers: a map from object to index and a list from index to object, kept inverse
// to each other.

module Indexes {
  import opened Common
  import opened SortedLists

  /**
   * The two directions agree: every mapped object sits at its index in the list, every
   * listed object is mapped to its position, and both hold the same number of objects.
   */
  ghost predicate Inverse<T>(t2i: map<T, int>, i2t: seq<T>)
  {
    && |t2i| == |i2t|
    && (forall t :: t in t2i ==> 0 <= t2i[t] < |i2t| && i2t[t2i[t]] == t)
    && (forall i :: 0 <= i < |i2t| ==> i2t[i] in t2i && t2i[i2t[i]] == i)
  }

  /** Appending a new object at the next index keeps the two directions inverse. */
  lemma InverseAppend<T>(t2i: map<T, int>, i2t: seq<T>, t: T)
    requires Inverse(t2i, i2t) && t !in t2i
    ensures Inverse(t2i[t := |i2t|], i2t + [t])
  {
    var m, l := t2i[t := |i2t|], i2t + [t];
    forall i | 0 <= i < |l| ensures l[i] in m && m[l[i]] == i {
      if i < |i2t| {
        assert l[i] == i2t[i];
      }
    }
  }

  /**
   * Removing the object at `idx` from the list, dropping it from the map and moving every
   * later index down by one keeps the two directions inverse.
   */
  lemma InverseRemove<T>(t2i: map<T, int>, i2t: seq<T>, shifted: map<T, int>, idx: int)
    requires Inverse(t2i, i2t) && 0 <= idx < |i2t|
    requires shifted.Keys == t2i.Keys
    requires forall u :: u in shifted ==> shifted[u] == t2i[u] - if t2i[u] > idx then 1 else 0
    ensures Inverse(shifted - {i2t[idx]}, RemoveAt(i2t, idx))
  {
    var t := i2t[idx];
    var m, l := shifted - {t}, RemoveAt(i2t, idx);
    assert m.Keys == t2i.Keys - {t};
    assert |t2i.Keys| == |t2i|;
    forall u | u in m ensures 0 <= m[u] < |l| && l[m[u]] == u {
      var k := t2i[u];
      assert k != idx;
      if k < idx {
        assert l[k] == i2t[k];
      } else {
        assert l[k - 1] == i2t[k];
      }
    }
    forall j | 0 <= j < |l| ensures l[j] in m && m[l[j]] == j {
      var k := if j < idx then j else j + 1;
      assert l[j] == i2t[k];
      assert t2i[i2t[k]] == k;
    }
  }

  /** What an index lookup answers, with an exception as a separate outcome. */
  datatype Answer<T> = Null | Obj(t: T) | Thrown

  /**
   * FastIndex: the index of a graph's nodes, which can also remove an object and renumber
   * the ones after it.
   */
  class FastIndex<T(==)> {
    var t2imap: map<T, int>
    var i2tmap: seq<T>
    var numObjects: int

    ghost predicate Valid()
      reads this
    {
      Inverse(t2imap, i2tmap) && numObjects == |i2tmap|
    }

    constructor ()
      ensures Valid() && t2imap == map[] && i2tmap == []
    {
      t2imap := map[];
      i2tmap := [];
      numObjects := 0;
    }

    /** containsObject: whether the object has an index. */
    predicate ContainsObject(t: T)
      reads this
    {
      t in t2imap
    }

    /** object2idx: the object's index, or the map's default -1 for an unknown object. */
    function Object2idx(t: T): (r: int)
      reads this
      requires Valid()
      ensures r == -1 <==> !ContainsObject(t)
      ensures r != -1 ==> 0 <= r < numObjects && i2tmap[r] == t
    {
      if t in t2imap then t2imap[t] else -1
    }

    /**
     * idx2object as the source writes it: the bound check is `idx > size`, so the index
     * equal to the size passes it and the list access throws.
     */
    function Idx2objectAsWritten(idx: int): (r: Answer<T>)
      reads this
      requires Valid()
      ensures r == Thrown <==> idx == numObjects
      ensures r.Obj? <==> 0 <= idx < numObjects
      ensures r.Obj? ==> Object2idx(r.t) == idx
    {
      if idx > |i2tmap| || idx < 0 then Null
      else if idx == |i2tmap| then Thrown
      else Obj(i2tmap[idx])
    }

    /** idx2object with the bound the list access needs: null for every index out of range. */
    function Idx2object(idx: int): (r: Option<T>)
      reads this
      requires Valid()
      ensures r.Some? <==> 0 <= idx < numObjects
      ensures r.Some? ==> Object2idx(r.value) == idx
    {
      if idx >= |i2tmap| || idx < 0 then None else Some(i2tmap[idx])
    }

    /**
     * addObject: an object already present keeps its index; a new one gets the next
     * index, numObjects.
     */
    method AddObject(t: T) returns (idx: int)
      requires Valid()
      modifies this
      ensures Valid()
      ensures old(ContainsObject(t)) ==> idx == old(t2imap[t]) && t2imap == old(t2imap) && i2tmap == old(i2tmap)
      ensures !old(ContainsObject(t)) ==>
        idx == old(numObjects) && t2imap == old(t2imap)[t := idx] && i2tmap == old(i2tmap) + [t]
      ensures Object2idx(t) == idx && Idx2object(idx) == Some(t)
    {
      idx := if t in t2imap then t2imap[t] else -1;
      if idx == -1 {
        idx := |t2imap|;
        InverseAppend(t2imap, i2tmap, t);
        t2imap := t2imap[t := idx];
        i2tmap := i2tmap + [t];
        numObjects := numObjects + 1;
      }
    }

    /**
     * removeObject: -1 and no change for an unknown object; otherwise the object loses
     * its index, every later object moves down by one, and its old index is returned.
     */
    method RemoveObject(t: T) returns (idx: int)
      requires Valid()
      modifies this
      ensures Valid()
      ensures idx == old(Object2idx(t))
      ensures idx == -1 ==> t2imap == old(t2imap) && i2tmap == old(i2tmap) && numObjects == old(numObjects)
      ensures idx != -1 ==> i2tmap == RemoveAt(old(i2tmap), idx)
      ensures forall u :: u in t2imap <==> u in old(t2imap) && u != t
      ensures idx != -1 ==> forall u :: u in t2imap ==> t2imap[u] == old(t2imap[u]) - if old(t2imap[u]) > idx then 1 else 0
    {
      idx := if t in t2imap then t2imap[t] else -1;
      if idx == -1 {
        return -1;
      }
      ghost var before := t2imap;
      var shifted := ShiftDown(idx);
      InverseRemove(before, i2tmap, shifted, idx);
      t2imap := shifted - {t};
      i2tmap := RemoveAt(i2tmap, idx);
      numObjects := numObjects - 1;
    }

    /** The loop of removeObject: every object after `idx` gets an index one lower. */
    method ShiftDown(idx: int) returns (shifted: map<T, int>)
      requires Valid() && 0 <= idx < numObjects
      ensures shifted.Keys == t2imap.Keys
      ensures forall u :: u in shifted ==> shifted[u] == t2imap[u] - if t2imap[u] > idx then 1 else 0
    {
      shifted := t2imap;
      var i := idx + 1;
      while i < numObjects
        invariant idx + 1 <= i <= numObjects
        invariant shifted.Keys == t2imap.Keys
        invariant forall u :: u in shifted ==> shifted[u] == t2imap[u] - if idx < t2imap[u] < i then 1 else 0
      {
        var aux := i2tmap[i];
        shifted := shifted[aux := shifted[aux] - 1];
        i := i + 1;
      }
    }
  }

  /**
   * GenericIndex: the bi-map behind the preference data's user and item indexes. It only
   * grows.
   */
  class GenericIndex<T(==)> {
    var t2imap: map<T, int>
    var i2tmap: seq<T>

    ghost predicate Valid()
      reads this
    {
      Inverse(t2imap, i2tmap)
    }

    constructor ()
      ensures Valid() && t2imap == map[] && i2tmap == []
    {
      t2imap := map[];
      i2tmap := [];
    }

    /** add: an element already present keeps its index; a new one gets the next, size(). */
    method Add(t: T) returns (idx: int)
      requires Valid()
      modifies this
      ensures Valid()
      ensures old(t in t2imap) ==> idx == old(t2imap[t]) && t2imap == old(t2imap) && i2tmap == old(i2tmap)
      ensures old(t !in t2imap) ==> idx == old(Size()) && t2imap == old(t2imap)[t := idx] && i2tmap == old(i2tmap) + [t]
      ensures t2imap.Keys == old(t2imap.Keys) + {t}
      ensures GetIdx(t) == idx && GetObject(idx) == t
    {
      idx := if t in t2imap then t2imap[t] else -1;
      if idx == -1 {
        idx := |t2imap|;
        InverseAppend(t2imap, i2tmap, t);
        t2imap := t2imap[t := idx];
        i2tmap := i2tmap + [t];
      }
    }

    /** getIdx: the element's index, or -1 for an unknown element. */
    function GetIdx(t: T): (r: int)
      reads this
      requires Valid()
      ensures r == -1 <==> !ContainsId(t)
      ensures r != -1 ==> 0 <= r < Size() && i2tmap[r] == t
    {
      if t in t2imap then t2imap[t] else -1
    }

    /** getObject: the element at an index; an index out of range makes the list access throw. */
    function GetObject(idx: int): (t: T)
      reads this
      requires Valid() && 0 <= idx < Size()
      ensures GetIdx(t) == idx
    {
      i2tmap[idx]
    }

    /** containsId: whether the element has an index. */
    predicate ContainsId(t: T)
      reads this
    {
      t in t2imap
    }

    /** size: the number of elements added, each counted once. */
    function Size(): (n: nat)
      reads this
      requires Valid()
      ensures n == |t2imap.Keys| == |i2tmap|
    {
      |t2imap|
    }
  }

  /**
   * Adding a sequence of elements to an empty index gives each distinct one an index, so
   * that getObject(getIdx(t)) == t for every element added and size() counts them once.
   */
  method AddAll<T(==)>(ts: seq<T>) returns (index: GenericIndex<T>)
    ensures fresh(index) && index.Valid()
    ensures index.t2imap.Keys == set t | t in ts
    ensures index.Size() == |set t | t in ts|
    ensures forall t :: t in ts ==> index.GetObject(index.GetIdx(t)) == t
  {
    index := new GenericIndex();
    var k := 0;
    while k < |ts|
      invariant 0 <= k <= |ts| && index.Valid()
      invariant index.t2imap.Keys == set t | t in ts[..k]
      modifies index
    {
      assert ts[..k + 1] == ts[..k] + [ts[k]];
      assert forall t :: t in ts[..k + 1] <==> t in ts[..k] || t == ts[k];
      var _ := index.Add(ts[k]);
      k := k + 1;
    }
    assert ts[..k] == ts;
  }
}
