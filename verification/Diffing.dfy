/** The two-pass merge that compares two lists of keyed items: items are gathered in a hash map
    by key, a pair with equal hashes is taken out again, and what is left is sorted by key. */
module Diffing {
  import opened Lists
  import opened Options
  import opened Search

  datatype Difference<T> = Added(item: T) | Changed(from: T, to: T) | Removed(item: T)

  /** What the hash map holds under one key. */
  datatype Entry<T> = Entry(before: Option<T>, after: Option<T>)

  datatype Differ<!T, !C, !I> = Differ(hashA: T -> C, hashB: T -> C, key: T -> I, less: (I, I) -> bool)

  ghost predicate TotalOrder<I(!new)>(less: (I, I) -> bool) {
    && (forall x, y :: less(x, y) ==> !less(y, x))
    && (forall x, y :: less(x, y) || less(y, x) || x == y)
    && (forall x, y, z :: less(x, y) && less(y, z) ==> less(x, z))
  }

  // ---- what happens to one key ----

  /** The entry under the key of `y` when `y` arrives from the second list; `None` is no entry. */
  function Meet<T, C(==), I>(d: Differ<T, C, I>, found: Option<Entry<T>>, y: T): Option<Entry<T>> {
    var entry := if found.Some? then found.value else Entry(None, None);
    if entry.before.Some? && d.hashA(entry.before.value) == d.hashB(y) then None
    else Some(entry.(after := Some(y)))
  }

  /** The entry under key `k` in the end. It depends on the items with that key alone, and
      never is the pair that the source panics on. */
  function EntryAt<T, C(==), I(==)>(d: Differ<T, C, I>, a: seq<T>, b: seq<T>, k: I): (found: Option<Entry<T>>)
    ensures found.Some? ==> found.value.before.Some? || found.value.after.Some?
    ensures found.Some? && found.value.before.Some? ==> found.value.before == LastWith(d.key, a, k)
    ensures found.Some? && found.value.after.Some? ==> found.value.after == LastWith(d.key, b, k)
    ensures found.Some? && found.value.before.Some? && found.value.after.Some? ==>
              d.hashA(found.value.before.value) != d.hashB(found.value.after.value)
    decreases |b|
  {
    if b == [] then
      var x := LastWith(d.key, a, k);
      if x.Some? then Some(Entry(x, None)) else None
    else
      var n := |b| - 1;
      var earlier := EntryAt(d, a, b[..n], k);
      if d.key(b[n]) == k then Meet(d, earlier, b[n]) else earlier
  }

  function Classify<T>(entry: Entry<T>): Difference<T>
    requires entry.before.Some? || entry.after.Some?
  {
    match (entry.before, entry.after)
    case (Some(x), None) => Removed(x)
    case (None, Some(y)) => Added(y)
    case (Some(x), Some(y)) => Changed(x, y)
  }

  function Outcome<T, C(==), I(==)>(d: Differ<T, C, I>, a: seq<T>, b: seq<T>, k: I): Option<Difference<T>> {
    match EntryAt(d, a, b, k)
    case None => None
    case Some(entry) => Some(Classify(entry))
  }

  function KeyOf<T, I>(key: T -> I, x: Difference<T>): I {
    if x.Changed? then key(x.from) else key(x.item)
  }

  ghost predicate StrictlySorted<T, I>(key: T -> I, less: (I, I) -> bool, out: seq<Difference<T>>) {
    forall i, j :: 0 <= i < j < |out| ==> less(KeyOf(key, out[i]), KeyOf(key, out[j]))
  }

  /** The result, whatever the two lists are: sorted by key, one difference for each key whose
      entry is left. */
  ghost predicate IsDiff<T(!new), C, I>(d: Differ<T, C, I>, a: seq<T>, b: seq<T>, out: seq<Difference<T>>) {
    && StrictlySorted(d.key, d.less, out)
    && forall x :: x in out <==> Outcome(d, a, b, KeyOf(d.key, x)) == Some(x)
  }

  // ---- the algorithm ----

  ghost predicate Holds<T, C, I(!new)>(d: Differ<T, C, I>, a: seq<T>, b: seq<T>, entries: map<I, Entry<T>>) {
    forall k :: EntryAt(d, a, b, k) == if k in entries then Some(entries[k]) else None
  }

  function Insert<I, E>(less: (I, I) -> bool, items: seq<(I, E)>, item: (I, E)): seq<(I, E)> {
    if items == [] || less(items[|items| - 1].0, item.0) then items + [item]
    else Insert(less, items[..|items| - 1], item) + [items[|items| - 1]]
  }

  /** Stands for the library's sort. */
  function SortByKey<I, E>(less: (I, I) -> bool, items: seq<(I, E)>): seq<(I, E)> {
    if items == [] then []
    else Insert(less, SortByKey(less, items[..|items| - 1]), items[|items| - 1])
  }

  ghost predicate KeysSorted<I, E>(less: (I, I) -> bool, items: seq<(I, E)>) {
    forall i, j :: 0 <= i < j < |items| ==> less(items[i].0, items[j].0)
  }

  ghost predicate KeysDiffer<I, E>(items: seq<(I, E)>) {
    forall i, j :: 0 <= i < j < |items| ==> items[i].0 != items[j].0
  }

  /** The pairs are those of the map. */
  ghost predicate PairsOf<I(!new), E(!new)>(entries: map<I, E>, items: seq<(I, E)>) {
    forall p :: p in items <==> p.0 in entries && p.1 == entries[p.0]
  }

  lemma SortedSnoc<I(!new), E>(less: (I, I) -> bool, items: seq<(I, E)>, item: (I, E))
    requires KeysSorted(less, items) && forall i :: 0 <= i < |items| ==> less(items[i].0, item.0)
    ensures KeysSorted(less, items + [item])
  {
  }

  lemma AllBelow<I(!new), E>(less: (I, I) -> bool, items: seq<(I, E)>, k: I)
    requires TotalOrder(less) && KeysSorted(less, items) && items != [] && less(items[|items| - 1].0, k)
    ensures forall i :: 0 <= i < |items| ==> less(items[i].0, k)
  {
    forall i | 0 <= i < |items|
      ensures less(items[i].0, k)
    {
      assert i == |items| - 1 || less(items[i].0, items[|items| - 1].0);
    }
  }

  lemma NotBelow<I(!new)>(less: (I, I) -> bool, k: I, k': I)
    requires TotalOrder(less) && k != k' && !less(k, k')
    ensures less(k', k)
  {
  }

  lemma {:induction false} InsertSorts<I(!new), E>(less: (I, I) -> bool, items: seq<(I, E)>, item: (I, E))
    requires TotalOrder(less) && KeysSorted(less, items) && forall i :: 0 <= i < |items| ==> items[i].0 != item.0
    ensures KeysSorted(less, Insert(less, items, item))
    ensures multiset(Insert(less, items, item)) == multiset(items) + multiset{item}
    decreases |items|
  {
    hide TotalOrder;
    if items == [] {
    } else if less(items[|items| - 1].0, item.0) {
      AllBelow(less, items, item.0);
      SortedSnoc(less, items, item);
    } else {
      var n := |items| - 1;
      NotBelow(less, items[n].0, item.0);
      InsertSorts(less, items[..n], item);
      var inner := Insert(less, items[..n], item);
      InsertedBelow(less, items, item, inner);
      SortedSnoc(less, inner, items[n]);
      assert items == items[..n] + [items[n]];
    }
  }

  lemma InsertedBelow<I(!new), E>(less: (I, I) -> bool, items: seq<(I, E)>, item: (I, E), inner: seq<(I, E)>)
    requires TotalOrder(less) && KeysSorted(less, items) && items != []
    requires less(item.0, items[|items| - 1].0) && multiset(inner) == multiset(items[..|items| - 1]) + multiset{item}
    ensures forall i :: 0 <= i < |inner| ==> less(inner[i].0, items[|items| - 1].0)
  {
    forall i | 0 <= i < |inner|
      ensures less(inner[i].0, items[|items| - 1].0)
    {
      assert inner[i] in multiset(inner);
      assert inner[i] == item || inner[i] in items[..|items| - 1];
    }
  }

  lemma KeyAbsent<I, E>(items: seq<(I, E)>, sorted: seq<(I, E)>)
    requires KeysDiffer(items) && items != [] && multiset(sorted) == multiset(items[..|items| - 1])
    ensures forall i :: 0 <= i < |sorted| ==> sorted[i].0 != items[|items| - 1].0
  {
    forall i | 0 <= i < |sorted|
      ensures sorted[i].0 != items[|items| - 1].0
    {
      assert sorted[i] in multiset(sorted);
      assert sorted[i] in items[..|items| - 1];
    }
  }

  lemma {:induction false} SortByKeySorts<I(!new), E>(less: (I, I) -> bool, items: seq<(I, E)>)
    requires TotalOrder(less) && KeysDiffer(items)
    ensures KeysSorted(less, SortByKey(less, items))
    ensures multiset(SortByKey(less, items)) == multiset(items)
    decreases |items|
  {
    hide TotalOrder, Insert;
    if items != [] {
      var n := |items| - 1;
      SortByKeySorts(less, items[..n]);
      var sorted := SortByKey(less, items[..n]);
      KeyAbsent(items, sorted);
      InsertSorts(less, sorted, items[n]);
      assert items == items[..n] + [items[n]];
    }
  }

  lemma ArrivalOfOld<T, C, I(!new)>(d: Differ<T, C, I>, a: seq<T>, i: nat, entries: map<I, Entry<T>>)
    requires i < |a| && Holds(d, a[..i], [], entries)
    ensures Holds(d, a[..i + 1], [], entries[d.key(a[i]) := Entry(Some(a[i]), None)])
    ensures d.key(a[i]) in entries ==> entries[d.key(a[i])].after.None?
  {
    assert a[..i + 1][..i] == a[..i];
    assert EntryAt(d, a[..i], [], d.key(a[i])) == if d.key(a[i]) in entries then Some(entries[d.key(a[i])]) else None;
    forall k
      ensures EntryAt(d, a[..i + 1], [], k)
           == if k == d.key(a[i]) then Some(Entry(Some(a[i]), None)) else EntryAt(d, a[..i], [], k)
    {
    }
  }

  lemma ArrivalOfNew<T, C, I(!new)>(d: Differ<T, C, I>, a: seq<T>, b: seq<T>, i: nat, entries: map<I, Entry<T>>)
    requires i < |b| && Holds(d, a, b[..i], entries)
    ensures
      var k := d.key(b[i]);
      match Meet(d, if k in entries then Some(entries[k]) else None, b[i])
      case None => Holds(d, a, b[..i + 1], entries - {k})
      case Some(entry) => Holds(d, a, b[..i + 1], entries[k := entry])
  {
    assert b[..i + 1][..i] == b[..i];
    var k := d.key(b[i]);
    var met := Meet(d, if k in entries then Some(entries[k]) else None, b[i]);
    forall k'
      ensures EntryAt(d, a, b[..i + 1], k') == if k' == k then met else EntryAt(d, a, b[..i], k')
    {
    }
  }

  /** The entries of a map in some order: which one is up to the map. */
  method IntoPairs<I(==, !new), E(!new)>(entries: map<I, E>) returns (items: seq<(I, E)>)
    ensures PairsOf(entries, items) && KeysDiffer(items)
  {
    items := [];
    var left := entries;
    while left.Keys != {}
      invariant forall k :: k in left ==> k in entries && left[k] == entries[k]
      invariant forall p :: p in items <==> p.0 in entries && p.0 !in left && p.1 == entries[p.0]
      invariant KeysDiffer(items)
      decreases |left.Keys|
    {
      var k :| k in left.Keys;
      forall i | 0 <= i < |items|
        ensures items[i].0 != k
      {
        assert items[i] in items;
      }
      items := items + [(k, left[k])];
      left := left - {k};
    }
  }

  /** The two loops over the hash map. */
  method Merge<T, C(==), I(==, !new)>(d: Differ<T, C, I>, a: seq<T>, b: seq<T>) returns (entries: map<I, Entry<T>>)
    ensures Holds(d, a, b, entries)
  {
    entries := map[];
    for i := 0 to |a|
      invariant Holds(d, a[..i], [], entries)
    {
      var key := d.key(a[i]);
      ArrivalOfOld(d, a, i, entries);
      var entry := if key in entries then entries[key] else Entry(None, None);
      entries := entries[key := entry.(before := Some(a[i]))];
    }
    assert a[..|a|] == a;
    for i := 0 to |b|
      invariant Holds(d, a, b[..i], entries)
    {
      var key := d.key(b[i]);
      ArrivalOfNew(d, a, b, i, entries);
      var entry := if key in entries then entries[key] else Entry(None, None);
      if entry.before.Some? && d.hashA(entry.before.value) == d.hashB(b[i]) {
        entries := entries - {key};
        continue;
      }
      entries := entries[key := entry.(after := Some(b[i]))];
    }
    assert b[..|b|] == b;
  }

  method Diff<T(!new), C(==), I(==, !new)>(d: Differ<T, C, I>, a: seq<T>, b: seq<T>) returns (out: seq<Difference<T>>)
    requires TotalOrder(d.less)
    ensures IsDiff(d, a, b, out)
  {
    hide IsDiff, Outcome, EntryAt, PairsOf, Holds, TotalOrder, SortByKey, KeysSorted, KeysDiffer;
    var entries := Merge(d, a, b);
    var vec := IntoPairs(entries);
    SortByKeySorts(d.less, vec);
    var sorted := SortByKey(d.less, vec);
    SortedPairs(entries, vec, sorted);
    SortedPairsHold(d, a, b, entries, sorted);
    out := [];
    for i := 0 to |sorted|
      invariant |out| == i
      invariant forall j :: 0 <= j < i ==> out[j] == Classify(sorted[j].1)
    {
      match sorted[i].1 {
        case Entry(None, None) => assert false;
        case Entry(Some(x), None) => out := out + [Removed(x)];
        case Entry(None, Some(y)) => out := out + [Added(y)];
        case Entry(Some(x), Some(y)) => out := out + [Changed(x, y)];
      }
    }
    ClassifiedIsDiff(d, a, b, entries, sorted, out);
  }

  lemma SortedPairsHold<T(!new), C, I(!new)>(
      d: Differ<T, C, I>, a: seq<T>, b: seq<T>, entries: map<I, Entry<T>>, sorted: seq<(I, Entry<T>)>)
    requires Holds(d, a, b, entries) && PairsOf(entries, sorted)
    ensures forall i :: 0 <= i < |sorted| ==>
      EntryAt(d, a, b, sorted[i].0) == Some(sorted[i].1) && (sorted[i].1.before.Some? || sorted[i].1.after.Some?)
  {
    forall i | 0 <= i < |sorted|
      ensures EntryAt(d, a, b, sorted[i].0) == Some(sorted[i].1)
    {
      assert sorted[i] in sorted;
    }
  }

  lemma SortedPairs<I(!new), E(!new)>(entries: map<I, E>, vec: seq<(I, E)>, sorted: seq<(I, E)>)
    requires PairsOf(entries, vec) && multiset(vec) == multiset(sorted)
    ensures PairsOf(entries, sorted)
  {
    forall p
      ensures p in sorted <==> p in vec
    {
      assert p in multiset(sorted) <==> p in multiset(vec);
    }
  }

  lemma OutcomeKey<T, C, I>(d: Differ<T, C, I>, a: seq<T>, b: seq<T>, k: I)
    requires Outcome(d, a, b, k).Some?
    ensures KeyOf(d.key, Outcome(d, a, b, k).value) == k
  {
  }

  lemma ClassifiedIsDiff<T(!new), C, I(!new)>(
      d: Differ<T, C, I>, a: seq<T>, b: seq<T>, entries: map<I, Entry<T>>, sorted: seq<(I, Entry<T>)>,
      out: seq<Difference<T>>)
    requires Holds(d, a, b, entries) && PairsOf(entries, sorted) && KeysSorted(d.less, sorted)
    requires |out| == |sorted| && forall j :: 0 <= j < |out| ==> EntryAt(d, a, b, sorted[j].0) == Some(sorted[j].1)
    requires forall j :: 0 <= j < |out| ==> out[j] == Classify(sorted[j].1)
    ensures IsDiff(d, a, b, out)
  {
    assert forall j :: 0 <= j < |out| ==> Outcome(d, a, b, sorted[j].0) == Some(out[j]);
    forall j | 0 <= j < |out|
      ensures KeyOf(d.key, out[j]) == sorted[j].0
    {
      OutcomeKey(d, a, b, sorted[j].0);
    }
    forall x | Outcome(d, a, b, KeyOf(d.key, x)) == Some(x)
      ensures x in out
    {
      var k := KeyOf(d.key, x);
      assert EntryAt(d, a, b, k) == if k in entries then Some(entries[k]) else None;
      assert (k, entries[k]) in sorted;
      var j :| 0 <= j < |sorted| && sorted[j] == (k, entries[k]);
      assert out[j] == x;
    }
  }

  // ---- the result is unique ----

  lemma {:induction false} SortedOnce<T(!new), I(!new)>(
      key: T -> I, less: (I, I) -> bool, xs: seq<Difference<T>>, ys: seq<Difference<T>>)
    requires TotalOrder(less) && StrictlySorted(key, less, xs) && StrictlySorted(key, less, ys)
    requires forall x :: x in xs <==> x in ys
    ensures xs == ys
    decreases |xs|
  {
    if xs == [] {
      if ys != [] {
        var y := First(ys);
      }
    } else {
      var n, m := |xs| - 1, |ys| - 1;
      assert xs[n] in ys;
      LastIsGreatest(key, less, xs, ys[m]);
      LastIsGreatest(key, less, ys, xs[n]);
      forall x
        ensures x in xs[..n] <==> x in ys[..m]
      {
        FrontOfSorted(key, less, xs, x);
        FrontOfSorted(key, less, ys, x);
      }
      SortedOnce(key, less, xs[..n], ys[..m]);
    }
  }

  lemma First<T>(xs: seq<T>) returns (x: T)
    requires xs != []
    ensures x in xs
  {
    x := xs[0];
  }

  lemma LastIsGreatest<T(!new), I>(key: T -> I, less: (I, I) -> bool, xs: seq<Difference<T>>, x: Difference<T>)
    requires StrictlySorted(key, less, xs) && x in xs
    ensures x == xs[|xs| - 1] || less(KeyOf(key, x), KeyOf(key, xs[|xs| - 1]))
  {
    var i :| 0 <= i < |xs| && xs[i] == x;
  }

  lemma FrontOfSorted<T(!new), I(!new)>(key: T -> I, less: (I, I) -> bool, xs: seq<Difference<T>>, x: Difference<T>)
    requires TotalOrder(less) && StrictlySorted(key, less, xs) && xs != []
    ensures x in xs[..|xs| - 1] <==> x in xs && x != xs[|xs| - 1]
  {
    var n := |xs| - 1;
    assert xs == xs[..n] + [xs[n]];
  }

  /** Whatever order the hash map yields its entries in, the result is the same list. */
  lemma DiffIsUnique<T(!new), C, I(!new)>(
      d: Differ<T, C, I>, a: seq<T>, b: seq<T>, out: seq<Difference<T>>, out': seq<Difference<T>>)
    requires TotalOrder(d.less) && IsDiff(d, a, b, out) && IsDiff(d, a, b, out')
    ensures out == out'
  {
    SortedOnce(d.key, d.less, out, out');
  }

  // ---- lists without repeated keys ----

  function Expected<T, C(==)>(hashA: T -> C, hashB: T -> C, x: Option<T>, y: Option<T>): Option<Difference<T>> {
    match (x, y)
    case (None, None) => None
    case (Some(x), None) => Some(Removed(x))
    case (None, Some(y)) => Some(Added(y))
    case (Some(x), Some(y)) => if hashA(x) == hashB(y) then None else Some(Changed(x, y))
  }

  /** Some `b[i]` with key `k` hashes like `x`, and a later item of `b` has the key as well. */
  ghost predicate MatchedBefore<T, C, I>(d: Differ<T, C, I>, x: T, b: seq<T>, k: I, i: nat, j: nat) {
    i < j < |b| && d.key(b[i]) == k && d.key(b[j]) == k && d.hashA(x) == d.hashB(b[i])
  }

  /** The entry of `a` is taken out again before the last item of `b` with the key arrives. */
  ghost predicate MatchedEarly<T, C, I>(d: Differ<T, C, I>, a: seq<T>, b: seq<T>, k: I) {
    && LastWith(d.key, a, k).Some?
    && exists i: nat, j: nat :: MatchedBefore(d, LastWith(d.key, a, k).value, b, k, i, j)
  }

  /** Some item of `b` with the key hashes like `x`. */
  ghost predicate Matched<T, C, I>(d: Differ<T, C, I>, x: T, b: seq<T>, k: I) {
    exists i :: 0 <= i < |b| && d.key(b[i]) == k && d.hashA(x) == d.hashB(b[i])
  }

  /** The entry as the two last items with the key give it. */
  function Pair<T, C, I(==)>(d: Differ<T, C, I>, a: seq<T>, b: seq<T>, k: I): Option<Entry<T>> {
    var x, y := LastWith(d.key, a, k), LastWith(d.key, b, k);
    if x.None? && y.None? then None else Some(Entry(x, y))
  }

  lemma {:induction false} EntryUnmatched<T, C, I>(d: Differ<T, C, I>, a: seq<T>, b: seq<T>, k: I)
    requires LastWith(d.key, a, k).Some? ==> !Matched(d, LastWith(d.key, a, k).value, b, k)
    ensures EntryAt(d, a, b, k) == Pair(d, a, b, k)
    decreases |b|
  {
    if b != [] {
      EntryUnmatched(d, a, b[..|b| - 1], k);
    }
  }

  lemma MatchedInFront<T, C, I>(d: Differ<T, C, I>, x: T, b: seq<T>, k: I, i: nat, j: nat)
    requires MatchedBefore(d, x, b, k, i, j)
    ensures Matched(d, x, b[..|b| - 1], k)
  {
    assert b[..|b| - 1][i] == b[i];
  }

  /** Once an item has matched, the entry is that of the later items with the key alone. */
  lemma {:induction false} EntryMatched<T, C, I>(d: Differ<T, C, I>, a: seq<T>, b: seq<T>, k: I)
    requires LastWith(d.key, a, k).Some? && Matched(d, LastWith(d.key, a, k).value, b, k)
    ensures EntryAt(d, a, b, k)
         == if MatchedEarly(d, a, b, k) then Some(Entry(None, LastWith(d.key, b, k))) else None
    decreases |b|
  {
    var x, n := LastWith(d.key, a, k).value, |b| - 1;
    var front := b[..n];
    if Matched(d, x, front, k) {
      EntryMatched(d, a, front, k);
      var i :| 0 <= i < n && d.key(front[i]) == k && d.hashA(x) == d.hashB(front[i]);
      if d.key(b[n]) == k {
        assert MatchedBefore(d, x, b, k, i, n);
      } else {
        SameMatches(d, a, b, k);
      }
    } else {
      EntryUnmatched(d, a, front, k);
      assert d.key(b[n]) == k && d.hashA(x) == d.hashB(b[n]);
      if i: nat, j: nat :| MatchedBefore(d, x, b, k, i, j) {
        MatchedInFront(d, x, b, k, i, j);
      }
    }
  }

  /** An item with another key changes no match. */
  lemma SameMatches<T, C, I>(d: Differ<T, C, I>, a: seq<T>, b: seq<T>, k: I)
    requires b != [] && d.key(b[|b| - 1]) != k && LastWith(d.key, a, k).Some?
    ensures MatchedEarly(d, a, b, k) <==> MatchedEarly(d, a, b[..|b| - 1], k)
  {
    var x, front := LastWith(d.key, a, k).value, b[..|b| - 1];
    if i: nat, j: nat :| MatchedBefore(d, x, b, k, i, j) {
      assert MatchedBefore(d, x, front, k, i, j);
    }
    if i: nat, j: nat :| MatchedBefore(d, x, front, k, i, j) {
      assert MatchedBefore(d, x, b, k, i, j);
    }
  }

  /** Main result: for all inputs, what is reported under a key is the difference of the last
      items with that key, exactly when the item of `a` was not matched early. When it was,
      the last item of `b` is reported as added, whether it has changed or not. */
  lemma OutcomeExactlyWhen<T, C, I>(d: Differ<T, C, I>, a: seq<T>, b: seq<T>, k: I)
    ensures Outcome(d, a, b, k) == Expected(d.hashA, d.hashB, LastWith(d.key, a, k), LastWith(d.key, b, k))
       <==> !MatchedEarly(d, a, b, k)
    ensures MatchedEarly(d, a, b, k) ==>
      LastWith(d.key, b, k).Some? && Outcome(d, a, b, k) == Some(Added(LastWith(d.key, b, k).value))
  {
    var x, y := LastWith(d.key, a, k), LastWith(d.key, b, k);
    if x.Some? && Matched(d, x.value, b, k) {
      EntryMatched(d, a, b, k);
      if !MatchedEarly(d, a, b, k) {
        MatchedLast(d, a, b, k);
      }
    } else {
      EntryUnmatched(d, a, b, k);
      if x.Some? && y.Some? {
        var i :| 0 <= i < |b| && b[i] == y.value;
      }
    }
  }

  lemma MatchedLast<T, C, I>(d: Differ<T, C, I>, a: seq<T>, b: seq<T>, k: I)
    requires LastWith(d.key, a, k).Some? && Matched(d, LastWith(d.key, a, k).value, b, k) && !MatchedEarly(d, a, b, k)
    ensures LastWith(d.key, b, k).Some?
    ensures d.hashA(LastWith(d.key, a, k).value) == d.hashB(LastWith(d.key, b, k).value)
  {
    var x := LastWith(d.key, a, k).value;
    var i :| 0 <= i < |b| && d.key(b[i]) == k && d.hashA(x) == d.hashB(b[i]);
    LastWithIsAtLastIndex(d.key, b, k);
    var j := LastIndex(d.key, b, k).value;
    assert i < j ==> MatchedBefore(d, x, b, k, i, j);
  }

  lemma OutcomeOfDistinct<T, C, I>(d: Differ<T, C, I>, a: seq<T>, b: seq<T>, k: I)
    requires DistinctKeys(d.key, b)
    ensures Outcome(d, a, b, k) == Expected(d.hashA, d.hashB, LastWith(d.key, a, k), LastWith(d.key, b, k))
  {
    OutcomeExactlyWhen(d, a, b, k);
    if MatchedEarly(d, a, b, k) {
      var i: nat, j: nat :| MatchedBefore(d, LastWith(d.key, a, k).value, b, k, i, j);
      KeysApart(d.key, b, i, j);
    }
  }

  /** Main result: with distinct keys on each side the differences are the set-theoretic ones. */
  lemma DiffOfDistinct<T(!new), C, I(!new)>(d: Differ<T, C, I>, a: seq<T>, b: seq<T>, out: seq<Difference<T>>)
    requires IsDiff(d, a, b, out) && DistinctKeys(d.key, a) && DistinctKeys(d.key, b)
    ensures forall x :: Removed(x) in out <==> x in a && forall y :: y in b ==> d.key(y) != d.key(x)
    ensures forall y :: Added(y) in out <==> y in b && forall x :: x in a ==> d.key(x) != d.key(y)
    ensures forall x, y :: Changed(x, y) in out
              <==> x in a && y in b && d.key(x) == d.key(y) && d.hashA(x) != d.hashB(y)
  {
    forall x
      ensures Removed(x) in out <==> x in a && forall y :: y in b ==> d.key(y) != d.key(x)
    {
      RemovedOfDistinct(d, a, b, x);
    }
    forall y
      ensures Added(y) in out <==> y in b && forall x :: x in a ==> d.key(x) != d.key(y)
    {
      AddedOfDistinct(d, a, b, y);
    }
    forall x, y
      ensures Changed(x, y) in out <==> x in a && y in b && d.key(x) == d.key(y) && d.hashA(x) != d.hashB(y)
    {
      ChangedOfDistinct(d, a, b, x, y);
    }
  }

  lemma RemovedOfDistinct<T(!new), C, I(!new)>(d: Differ<T, C, I>, a: seq<T>, b: seq<T>, x: T)
    requires DistinctKeys(d.key, a) && DistinctKeys(d.key, b)
    ensures Outcome(d, a, b, d.key(x)) == Some(Removed(x)) <==> x in a && forall y :: y in b ==> d.key(y) != d.key(x)
  {
    OutcomeOfDistinct(d, a, b, d.key(x));
    if x in a {
      FoundByKey(d.key, a, x);
    }
  }

  lemma AddedOfDistinct<T(!new), C, I(!new)>(d: Differ<T, C, I>, a: seq<T>, b: seq<T>, y: T)
    requires DistinctKeys(d.key, a) && DistinctKeys(d.key, b)
    ensures Outcome(d, a, b, d.key(y)) == Some(Added(y)) <==> y in b && forall x :: x in a ==> d.key(x) != d.key(y)
  {
    OutcomeOfDistinct(d, a, b, d.key(y));
    if y in b {
      FoundByKey(d.key, b, y);
    }
  }

  lemma ChangedOfDistinct<T(!new), C, I(!new)>(d: Differ<T, C, I>, a: seq<T>, b: seq<T>, x: T, y: T)
    requires DistinctKeys(d.key, a) && DistinctKeys(d.key, b)
    ensures Outcome(d, a, b, d.key(x)) == Some(Changed(x, y))
       <==> x in a && y in b && d.key(x) == d.key(y) && d.hashA(x) != d.hashB(y)
  {
    OutcomeOfDistinct(d, a, b, d.key(x));
    if x in a {
      FoundByKey(d.key, a, x);
    }
    if y in b {
      FoundByKey(d.key, b, y);
    }
  }

  /** Even with repeated keys, a change is reported between the last items with its key, and
      only when their hashes differ. */
  lemma ChangedItems<T(!new), C, I>(d: Differ<T, C, I>, a: seq<T>, b: seq<T>, out: seq<Difference<T>>, x: T, y: T)
    requires IsDiff(d, a, b, out) && Changed(x, y) in out
    ensures LastWith(d.key, a, d.key(x)) == Some(x) && LastWith(d.key, b, d.key(x)) == Some(y)
    ensures d.key(x) == d.key(y) && d.hashA(x) != d.hashB(y)
  {
    assert Outcome(d, a, b, d.key(x)) == Some(Changed(x, y));
  }

  /** An item that is on both sides, but twice on the second, is reported as added; and so is
      a real change whose key was matched by an earlier item. */
  lemma RepeatedKeyIsReported<T, C, I>(d: Differ<T, C, I>, x: T, y: T, z: T)
    requires d.key(x) == d.key(y) == d.key(z) && d.hashA(x) == d.hashB(y)
    ensures Outcome(d, [x], [y, z], d.key(x)) == Some(Added(z))
  {
    var k := d.key(x);
    assert LastWith(d.key, [x], k) == Some(x) && LastWith(d.key, [y, z], k) == Some(z);
    assert MatchedBefore(d, x, [y, z], k, 0, 1);
    OutcomeExactlyWhen(d, [x], [y, z], k);
  }

  /** Nothing to report, exactly when both sides have the same keys with equal hashes. */
  lemma EmptyDiff<T(!new), C, I(!new)>(d: Differ<T, C, I>, a: seq<T>, b: seq<T>, out: seq<Difference<T>>)
    requires IsDiff(d, a, b, out) && DistinctKeys(d.key, a) && DistinctKeys(d.key, b)
    ensures out == []
       <==> && (forall k :: k in Map(d.key, a) <==> k in Map(d.key, b))
            && (forall x, y :: x in a && y in b && d.key(x) == d.key(y) ==> d.hashA(x) == d.hashB(y))
  {
    DiffOfDistinct(d, a, b, out);
    InKeys(d.key, a);
    InKeys(d.key, b);
    if out != [] {
      var x := out[0];
      assert x in out;
      match x {
        case Removed(item) => assert d.key(item) in Map(d.key, a);
        case Added(item) => assert d.key(item) in Map(d.key, b);
        case Changed(from, to) => assert d.key(from) == d.key(to);
      }
    } else {
      forall k
        ensures k in Map(d.key, a) <==> k in Map(d.key, b)
      {
        if k in Map(d.key, a) {
          var i :| 0 <= i < |a| && d.key(a[i]) == k;
          assert Removed(a[i]) !in out;
        }
        if k in Map(d.key, b) {
          var i :| 0 <= i < |b| && d.key(b[i]) == k;
          assert Added(b[i]) !in out;
        }
      }
      forall x, y | x in a && y in b && d.key(x) == d.key(y)
        ensures d.hashA(x) == d.hashB(y)
      {
        assert Changed(x, y) !in out;
      }
    }
  }

  // ---- swapping the sides ----

  function Swap<T, C, I>(d: Differ<T, C, I>): Differ<T, C, I> {
    Differ(d.hashB, d.hashA, d.key, d.less)
  }

  function Mirror<T>(x: Difference<T>): Difference<T> {
    match x
    case Added(item) => Removed(item)
    case Removed(item) => Added(item)
    case Changed(from, to) => Changed(to, from)
  }

  lemma MirroredOutcome<T, C, I>(d: Differ<T, C, I>, a: seq<T>, b: seq<T>, k: I)
    requires DistinctKeys(d.key, a) && DistinctKeys(d.key, b)
    ensures Outcome(Swap(d), b, a, k)
         == match Outcome(d, a, b, k) case None => None case Some(x) => Some(Mirror(x))
  {
    OutcomeOfDistinct(d, a, b, k);
    OutcomeOfDistinct(Swap(d), b, a, k);
  }

  function Mirrored<T>(out: seq<Difference<T>>): seq<Difference<T>> {
    seq(|out|, i requires 0 <= i < |out| => Mirror(out[i]))
  }

  /** Swapping the two sides mirrors the result, in the same order. */
  lemma DiffMirrors<T(!new), C, I(!new)>(d: Differ<T, C, I>, a: seq<T>, b: seq<T>, out: seq<Difference<T>>)
    requires IsDiff(d, a, b, out) && DistinctKeys(d.key, a) && DistinctKeys(d.key, b)
    ensures IsDiff(Swap(d), b, a, Mirrored(out))
  {
    var back := Mirrored(out);
    forall i | 0 <= i < |out|
      ensures KeyOf(d.key, back[i]) == KeyOf(d.key, out[i])
      ensures Outcome(Swap(d), b, a, KeyOf(d.key, back[i])) == Some(back[i])
    {
      assert out[i] in out;
      MirroredOutcome(d, a, b, KeyOf(d.key, out[i]));
      OutcomeKey(Swap(d), b, a, KeyOf(d.key, out[i]));
    }
    forall x | Outcome(Swap(d), b, a, KeyOf(d.key, x)) == Some(x)
      ensures x in back
    {
      MirroredOutcome(d, a, b, KeyOf(d.key, x));
      OutcomeKey(d, a, b, KeyOf(d.key, x));
      assert Mirror(x) in out;
      var i :| 0 <= i < |out| && out[i] == Mirror(x);
      assert back[i] == x;
    }
  }

  // ---- applying a diff ----

  function Touched<T, I>(key: T -> I, out: seq<Difference<T>>): seq<I> {
    seq(|out|, i requires 0 <= i < |out| => KeyOf(key, out[i]))
  }

  /** What a diff brings in. */
  function Arrivals<T>(out: seq<Difference<T>>): seq<T> {
    if out == [] then []
    else
      var earlier := Arrivals(out[..|out| - 1]);
      match out[|out| - 1]
      case Removed(_) => earlier
      case Added(y) => earlier + [y]
      case Changed(_, y) => earlier + [y]
  }

  function Untouched<T, I(==)>(key: T -> I, out: seq<Difference<T>>): T -> bool {
    (x: T) => key(x) !in Touched(key, out)
  }

  function Patch<T, I(==)>(key: T -> I, a: seq<T>, out: seq<Difference<T>>): seq<T> {
    Filter(Untouched(key, out), a) + Arrivals(out)
  }

  lemma {:induction false} InArrivals<T(!new)>(out: seq<Difference<T>>)
    ensures forall y :: y in Arrivals(out) <==> Added(y) in out || exists x :: Changed(x, y) in out
    decreases |out|
  {
    if out != [] {
      var n := |out| - 1;
      InArrivals(out[..n]);
      assert out == out[..n] + [out[n]];
      forall y
        ensures y in Arrivals(out) <==> Added(y) in out || exists x :: Changed(x, y) in out
      {
        if Added(y) !in out[..n] {
          if x :| Changed(x, y) in out[..n] {
            assert Changed(x, y) in out;
          }
          if x :| Changed(x, y) in out && Changed(x, y) !in out[..n] {
            assert out[n] == Changed(x, y);
          }
        }
      }
    }
  }

  ghost predicate KeepsKeys<T, I>(key: T -> I, out: seq<Difference<T>>) {
    forall i :: 0 <= i < |out| && out[i].Changed? ==> key(out[i].from) == key(out[i].to)
  }

  lemma {:induction false} ArrivalsDistinct<T, I>(key: T -> I, out: seq<Difference<T>>)
    requires KeepsKeys(key, out) && Distinct(Touched(key, out))
    ensures DistinctKeys(key, Arrivals(out))
    ensures forall i :: 0 <= i < |Arrivals(out)| ==> key(Arrivals(out)[i]) in Touched(key, out)
    decreases |out|
  {
    if out != [] {
      var n, keys := |out| - 1, Touched(key, out);
      assert Touched(key, out[..n]) == keys[..n];
      ArrivalsDistinct(key, out[..n]);
      assert keys == keys[..n] + [keys[n]];
      assert keys[n] !in keys[..n];
      var earlier, all := Arrivals(out[..n]), Arrivals(out);
      if |all| > |earlier| {
        assert Map(key, all) == Map(key, earlier) + [keys[n]];
      }
    }
  }

  lemma DistinctConcat<A>(xs: seq<A>, ys: seq<A>)
    requires Distinct(xs) && Distinct(ys) && forall i, j :: 0 <= i < |xs| && 0 <= j < |ys| ==> xs[i] != ys[j]
    ensures Distinct(xs + ys)
  {
  }

  lemma TouchedFacts<T(!new), C, I(!new)>(d: Differ<T, C, I>, a: seq<T>, b: seq<T>, out: seq<Difference<T>>)
    requires TotalOrder(d.less) && IsDiff(d, a, b, out)
    ensures KeepsKeys(d.key, out) && Distinct(Touched(d.key, out))
    ensures forall k :: k in Touched(d.key, out) <==> Outcome(d, a, b, k).Some?
  {
    forall i | 0 <= i < |out| && out[i].Changed?
      ensures d.key(out[i].from) == d.key(out[i].to)
    {
      assert out[i] in out;
    }
    forall k
      ensures k in Touched(d.key, out) <==> Outcome(d, a, b, k).Some?
    {
      if k in Touched(d.key, out) {
        var i :| 0 <= i < |out| && Touched(d.key, out)[i] == k;
        assert out[i] in out;
      }
      if Outcome(d, a, b, k).Some? {
        OutcomeKey(d, a, b, k);
        var i :| 0 <= i < |out| && out[i] == Outcome(d, a, b, k).value;
        assert Touched(d.key, out)[i] == k;
      }
    }
  }

  lemma PatchDistinct<T(!new), C, I(!new)>(d: Differ<T, C, I>, a: seq<T>, b: seq<T>, out: seq<Difference<T>>)
    requires TotalOrder(d.less) && IsDiff(d, a, b, out) && DistinctKeys(d.key, a)
    ensures DistinctKeys(d.key, Patch(d.key, a, out))
  {
    hide IsDiff, TotalOrder;
    TouchedFacts(d, a, b, out);
    ArrivalsDistinct(d.key, out);
    var keep, arrivals := Filter(Untouched(d.key, out), a), Arrivals(out);
    FilterDistinct(Untouched(d.key, out), d.key, a);
    forall i, j | 0 <= i < |keep| && 0 <= j < |arrivals|
      ensures d.key(keep[i]) != d.key(arrivals[j])
    {
      var k := FilterFrom(Untouched(d.key, out), a, i);
    }
    DistinctConcat(Map(d.key, keep), Map(d.key, arrivals));
    assert Map(d.key, keep + arrivals) == Map(d.key, keep) + Map(d.key, arrivals);
  }

  /** The item of `b` that a patched item stands for. */
  lemma PatchedItem<T(!new), C, I(!new)>(d: Differ<T, C, I>, a: seq<T>, b: seq<T>, out: seq<Difference<T>>, x: T)
    returns (y: T)
    requires TotalOrder(d.less) && IsDiff(d, a, b, out) && DistinctKeys(d.key, a) && DistinctKeys(d.key, b)
    requires x in Patch(d.key, a, out)
    ensures y in b && d.key(y) == d.key(x) && (x == y || (x in a && d.hashA(x) == d.hashB(y)))
  {
    if x in Arrivals(out) {
      InArrivals(out);
      DiffOfDistinct(d, a, b, out);
      y := x;
    } else {
      FilterIn(Untouched(d.key, out), a);
      TouchedFacts(d, a, b, out);
      OutcomeOfDistinct(d, a, b, d.key(x));
      FoundByKey(d.key, a, x);
      y := LastWith(d.key, b, d.key(x)).value;
    }
  }

  /** The patched item under the key of an item of `b`. */
  lemma PatchedTo<T(!new), C, I(!new)>(d: Differ<T, C, I>, a: seq<T>, b: seq<T>, out: seq<Difference<T>>, y: T)
    returns (x: T)
    requires TotalOrder(d.less) && IsDiff(d, a, b, out) && DistinctKeys(d.key, a) && DistinctKeys(d.key, b) && y in b
    ensures x in Patch(d.key, a, out) && d.key(x) == d.key(y)
  {
    TouchedFacts(d, a, b, out);
    OutcomeOfDistinct(d, a, b, d.key(y));
    FoundByKey(d.key, b, y);
    if Outcome(d, a, b, d.key(y)).Some? {
      InArrivals(out);
      OutcomeKey(d, a, b, d.key(y));
      assert Outcome(d, a, b, d.key(y)).value in out;
      x := y;
    } else {
      x := LastWith(d.key, a, d.key(y)).value;
      FilterIn(Untouched(d.key, out), a);
    }
  }

  lemma PatchKeys<T(!new), C, I(!new)>(d: Differ<T, C, I>, a: seq<T>, b: seq<T>, out: seq<Difference<T>>, k: I)
    requires TotalOrder(d.less) && IsDiff(d, a, b, out) && DistinctKeys(d.key, a) && DistinctKeys(d.key, b)
    ensures k in Map(d.key, Patch(d.key, a, out)) <==> k in Map(d.key, b)
  {
    InKeys(d.key, b);
    InKeys(d.key, Patch(d.key, a, out));
    if k in Map(d.key, b) {
      var y :| y in b && d.key(y) == k;
      var x := PatchedTo(d, a, b, out, y);
    } else if k in Map(d.key, Patch(d.key, a, out)) {
      var x :| x in Patch(d.key, a, out) && d.key(x) == k;
      var y := PatchedItem(d, a, b, out, x);
    }
  }

  /** Main result: patching the first list by the diff gives the second: no key twice, the
      keys of `b`, and under each key the item of `b` itself or one of `a` with an equal hash. */
  lemma PatchGivesNew<T(!new), C, I(!new)>(d: Differ<T, C, I>, a: seq<T>, b: seq<T>, out: seq<Difference<T>>)
    requires TotalOrder(d.less) && IsDiff(d, a, b, out) && DistinctKeys(d.key, a) && DistinctKeys(d.key, b)
    ensures DistinctKeys(d.key, Patch(d.key, a, out))
    ensures forall k :: k in Map(d.key, Patch(d.key, a, out)) <==> k in Map(d.key, b)
    ensures forall x, y :: x in Patch(d.key, a, out) && y in b && d.key(x) == d.key(y) ==>
              x == y || (x in a && d.hashA(x) == d.hashB(y))
  {
    PatchDistinct(d, a, b, out);
    forall k
      ensures k in Map(d.key, Patch(d.key, a, out)) <==> k in Map(d.key, b)
    {
      PatchKeys(d, a, b, out, k);
    }
    forall x, y | x in Patch(d.key, a, out) && y in b && d.key(x) == d.key(y)
      ensures x == y || (x in a && d.hashA(x) == d.hashB(y))
    {
      var y' := PatchedItem(d, a, b, out, x);
      SameKeySameItem(d.key, b, y, y');
    }
  }
}
