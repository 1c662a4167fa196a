/** Linear search from the end: what every index of the metadata must agree with. */
module Search {
  import opened Lists
  import opened Options

  /** The position of the last item with key `k`. */
  function LastIndex<T, I(==)>(key: T -> I, items: seq<T>, k: I): (found: Option<nat>)
    ensures found.Some? ==> found.value < |items| && key(items[found.value]) == k
    ensures found.Some? ==> forall j :: found.value < j < |items| ==> key(items[j]) != k
    ensures found.None? ==> forall j :: 0 <= j < |items| ==> key(items[j]) != k
  {
    if items == [] then None
    else
      var n := |items| - 1;
      if key(items[n]) == k then Some(n) else LastIndex(key, items[..n], k)
  }

  function LastWith<T, I(==)>(key: T -> I, items: seq<T>, k: I): (x: Option<T>)
    ensures x.Some? ==> x.value in items && key(x.value) == k
    ensures x.None? ==> forall y :: y in items ==> key(y) != k
  {
    if items == [] then None
    else
      var n := |items| - 1;
      if key(items[n]) == k then Some(items[n]) else LastWith(key, items[..n], k)
  }

  lemma {:induction false} LastWithIsAtLastIndex<T, I>(key: T -> I, items: seq<T>, k: I)
    ensures LastWith(key, items, k)
         == match LastIndex(key, items, k) case None => None case Some(i) => Some(items[i])
    decreases |items|
  {
    if items != [] {
      LastWithIsAtLastIndex(key, items[..|items| - 1], k);
    }
  }

  // ---- no key twice ----

  ghost predicate DistinctKeys<T, I>(key: T -> I, items: seq<T>) {
    Distinct(Map(key, items))
  }

  lemma KeysApart<T, I>(key: T -> I, items: seq<T>, i: nat, j: nat)
    requires DistinctKeys(key, items) && i < j < |items|
    ensures key(items[i]) != key(items[j])
  {
    assert Map(key, items)[i] != Map(key, items)[j];
  }

  lemma SameKeySameItem<T, I>(key: T -> I, items: seq<T>, x: T, y: T)
    requires DistinctKeys(key, items) && x in items && y in items && key(x) == key(y)
    ensures x == y
  {
    var i :| 0 <= i < |items| && items[i] == x;
    var j :| 0 <= j < |items| && items[j] == y;
    assert Map(key, items)[i] == Map(key, items)[j];
  }

  lemma FoundByKey<T, I>(key: T -> I, items: seq<T>, x: T)
    requires DistinctKeys(key, items) && x in items
    ensures LastWith(key, items, key(x)) == Some(x)
  {
    var found := LastWith(key, items, key(x));
    SameKeySameItem(key, items, x, found.value);
  }

  lemma InKeys<T, I(!new)>(key: T -> I, items: seq<T>)
    ensures forall k :: k in Map(key, items) <==> exists x :: x in items && key(x) == k
  {
    forall k | k in Map(key, items)
      ensures exists x :: x in items && key(x) == k
    {
      var i :| 0 <= i < |items| && Map(key, items)[i] == k;
      assert items[i] in items;
    }
    forall x | x in items
      ensures key(x) in Map(key, items)
    {
      var i :| 0 <= i < |items| && items[i] == x;
      assert Map(key, items)[i] == key(x);
    }
  }
}
