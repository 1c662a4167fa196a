/** Sequences: mapping, filtering, removal, and lists without repetition. */
module Lists {
  function Map<A, B>(f: A -> B, items: seq<A>): (out: seq<B>)
    ensures |out| == |items|
  {
    seq(|items|, i requires 0 <= i < |items| => f(items[i]))
  }

  lemma MappedIn<A, B>(f: A -> B, items: seq<A>, i: nat)
    requires i < |items|
    ensures f(items[i]) in Map(f, items)
  {
    assert Map(f, items)[i] == f(items[i]);
  }

  lemma MappedSame<A, B>(f: A -> B, items: seq<A>, i: nat, x: A)
    requires i < |items| && f(x) == f(items[i])
    ensures Map(f, items[i := x]) == Map(f, items)
  {
  }

  function Filter<A>(keep: A -> bool, items: seq<A>): seq<A> {
    if items == [] then []
    else
      var rest := Filter(keep, items[..|items| - 1]);
      if keep(items[|items| - 1]) then rest + [items[|items| - 1]] else rest
  }

  function Remove<T>(s: seq<T>, i: nat): (r: seq<T>)
    requires i < |s|
    ensures |r| == |s| - 1
    ensures forall k :: 0 <= k < |r| ==> r[k] == s[if k < i then k else k + 1]
  {
    s[..i] + s[i + 1..]
  }

  lemma RemoveFromMultiset<T>(s: seq<T>, i: nat)
    requires i < |s|
    ensures multiset(Remove(s, i)) == multiset(s) - multiset{s[i]}
  {
    assert s == s[..i] + [s[i]] + s[i + 1..];
  }

  lemma SameRest<K>(keys: seq<K>, keys': seq<K>, j: nat)
    requires multiset(keys) == multiset(keys') && |keys| > 0 && j < |keys'| && keys'[j] == keys[|keys| - 1]
    ensures multiset(keys[..|keys| - 1]) == multiset(Remove(keys', j))
  {
    RemoveFromMultiset(keys', j);
    RemoveFromMultiset(keys, |keys| - 1);
    assert Remove(keys, |keys| - 1) == keys[..|keys| - 1];
  }

  lemma Occurs<K>(key: K, keys: seq<K>) returns (j: nat)
    requires key in multiset(keys)
    ensures j < |keys| && keys[j] == key
  {
    j :| 0 <= j < |keys| && keys[j] == key;
  }

  lemma {:induction false} FilterKeepsAll<A>(keep: A -> bool, items: seq<A>)
    requires forall i :: 0 <= i < |items| ==> keep(items[i])
    ensures Filter(keep, items) == items
    decreases |items|
  {
    if items != [] {
      FilterKeepsAll(keep, items[..|items| - 1]);
    }
  }

  lemma {:induction false} FilterIn<A>(keep: A -> bool, items: seq<A>)
    ensures forall x :: x in Filter(keep, items) <==> x in items && keep(x)
    decreases |items|
  {
    if items != [] {
      var n := |items| - 1;
      FilterIn(keep, items[..n]);
      assert items == items[..n] + [items[n]];
    }
  }

  lemma {:induction false} FilterAppend<A>(keep: A -> bool, a: seq<A>, b: seq<A>)
    ensures Filter(keep, a + b) == Filter(keep, a) + Filter(keep, b)
    decreases |b|
  {
    if b == [] {
      assert a + b == a;
    } else {
      var n := |b| - 1;
      FilterAppend(keep, a, b[..n]);
      assert (a + b)[..|a + b| - 1] == a + b[..n];
    }
  }

  lemma FilterOne<A>(keep: A -> bool, x: A)
    ensures Filter(keep, [x]) == if keep(x) then [x] else []
  {
    assert Filter(keep, [x][..0]) == [];
  }

  lemma {:induction false} FilterNone<A>(keep: A -> bool, items: seq<A>)
    requires forall x :: x in items ==> !keep(x)
    ensures Filter(keep, items) == []
    decreases |items|
  {
    if items != [] {
      var n := |items| - 1;
      assert items[n] in items;
      FilterNone(keep, items[..n]);
    }
  }

  /** Where an item of the filtered list came from. */
  lemma {:induction false} FilterFrom<A>(keep: A -> bool, items: seq<A>, i: nat) returns (k: nat)
    requires i < |Filter(keep, items)|
    ensures k < |items| && items[k] == Filter(keep, items)[i] && keep(items[k])
    decreases |items|
  {
    var n := |items| - 1;
    if i < |Filter(keep, items[..n])| {
      k := FilterFrom(keep, items[..n], i);
    } else {
      k := n;
    }
  }

  ghost predicate Distinct<A>(names: seq<A>) {
    forall i, j :: 0 <= i < j < |names| ==> names[i] != names[j]
  }

  lemma {:induction false} DistinctMultiplicity<A>(names: seq<A>)
    requires Distinct(names)
    ensures forall x :: x in names ==> multiset(names)[x] == 1
    decreases |names|
  {
    if names != [] {
      var n := |names| - 1;
      DistinctMultiplicity(names[..n]);
      assert names == names[..n] + [names[n]];
      assert names[n] !in names[..n];
    }
  }

  lemma SameElementsSameMultiset<A(!new)>(names: seq<A>, names': seq<A>)
    requires Distinct(names) && Distinct(names')
    requires forall x :: x in names <==> x in names'
    ensures multiset(names) == multiset(names')
  {
    DistinctMultiplicity(names);
    DistinctMultiplicity(names');
    forall x
      ensures multiset(names)[x] == multiset(names')[x]
    {
      if x in names {
      } else {
        assert x !in multiset(names) && x !in multiset(names');
      }
    }
  }

  lemma {:induction false} FilterDistinct<A, B>(keep: A -> bool, name: A -> B, items: seq<A>)
    requires Distinct(Map(name, items))
    ensures Distinct(Map(name, Filter(keep, items)))
    decreases |items|
  {
    if items != [] {
      var n := |items| - 1;
      assert Map(name, items[..n]) == Map(name, items)[..n];
      FilterDistinct(keep, name, items[..n]);
      var rest := Filter(keep, items[..n]);
      if keep(items[n]) {
        forall i | 0 <= i < |rest|
          ensures name(rest[i]) != name(items[n])
        {
          var k := FilterFrom(keep, items[..n], i);
          assert Map(name, items)[k] != Map(name, items)[n];
        }
        var all := rest + [items[n]];
        forall i, j | 0 <= i < j < |all|
          ensures Map(name, all)[i] != Map(name, all)[j]
        {
          if j < |rest| {
            assert Map(name, rest)[i] != Map(name, rest)[j];
          }
        }
      }
    }
  }

  lemma {:induction false} SubsetSize<T>(a: set<T>, b: set<T>)
    requires a <= b
    ensures |a| <= |b|
  {
    if a != {} {
      var x :| x in a;
      SubsetSize(a - {x}, b - {x});
    }
  }
}
