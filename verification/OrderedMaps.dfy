/** A list of values in insertion order together with a hash map from keys to positions. A key
    may be pushed again: the value stays in the list, and the key leads to the latest one. */
module OrderedMaps {
  import opened Options
  import opened Search

  function PairKey<K, V>(pair: (K, V)): K {
    pair.0
  }

  /** The positions are those of the last items with their keys. */
  ghost predicate Indexes<T, I(!new)>(key: T -> I, items: seq<T>, positions: map<I, nat>) {
    forall k :: LastIndex(key, items, k) == if k in positions then Some(positions[k]) else None
  }

  lemma IndexesSnoc<T, I(!new)>(key: T -> I, items: seq<T>, positions: map<I, nat>, item: T)
    requires Indexes(key, items, positions)
    ensures Indexes(key, items + [item], positions[key(item) := |items|])
  {
    assert (items + [item])[..|items|] == items;
  }

  class OrderedMap<K(==, !new), V> {
    var values: seq<V>
    var positions: map<K, nat>
    ghost var pushed: seq<(K, V)>

    ghost predicate Valid()
      reads this
    {
      && |values| == |pushed| && (forall i :: 0 <= i < |values| ==> values[i] == pushed[i].1)
      && Indexes(PairKey, pushed, positions)
    }

    constructor ()
      ensures Valid() && pushed == []
    {
      values := [];
      positions := map[];
      pushed := [];
    }

    method PushInsert(key: K, value: V)
      requires Valid()
      modifies this
      ensures Valid() && pushed == old(pushed) + [(key, value)]
    {
      var idx := |values|;
      IndexesSnoc(PairKey, pushed, positions, (key, value));
      values := values + [value];
      positions := positions[key := idx];
      pushed := pushed + [(key, value)];
    }

    /** The value pushed last under the key. */
    function GetByKey(key: K): (found: Option<V>)
      requires Valid()
      reads this
      ensures found == match LastWith(PairKey, pushed, key) case None => None case Some(pair) => Some(pair.1)
    {
      LastWithIsAtLastIndex(PairKey, pushed, key);
      assert LastIndex(PairKey, pushed, key) == if key in positions then Some(positions[key]) else None;
      if key in positions then GetByIndex(positions[key]) else None
    }

    function GetByIndex(i: nat): Option<V>
      reads this
    {
      if i < |values| then Some(values[i]) else None
    }

    constructor FromIter(items: seq<(K, V)>)
      ensures Valid() && pushed == items
    {
      values := [];
      positions := map[];
      pushed := [];
      new;
      for i := 0 to |items|
        invariant Valid() && pushed == items[..i]
      {
        PushInsert(items[i].0, items[i].1);
      }
    }
  }
}
