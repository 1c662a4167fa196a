/** Types from which no cycle can be reached, possibly past a set of ids whose hashes are taken
    as given: their memoised hash is the plain structural hash. */
module Structure {
  import opened Hashes
  import opened Lists
  import opened Registry
  import opened TypeHashing
  import opened Reachability

  /** Unfolding the type `id`, but not the types in `stop`, ends within `n` levels. */
  ghost predicate Unfolds(types: Types, stop: set<TypeId>, id: TypeId, n: nat)
    decreases n, 0
  {
    id < |types| && (id in stop || (n > 0 && AllUnfold(types, stop, Children(types[id].def), n - 1)))
  }

  ghost predicate AllUnfold(types: Types, stop: set<TypeId>, ids: seq<TypeId>, n: nat)
    decreases n, 1
  {
    forall i :: 0 <= i < |ids| ==> Unfolds(types, stop, ids[i], n)
  }

  lemma {:induction false} UnfoldsMore(types: Types, stop: set<TypeId>, id: TypeId, n: nat, m: nat)
    requires Unfolds(types, stop, id, n) && n <= m
    ensures Unfolds(types, stop, id, m)
    decreases n
  {
    if id !in stop {
      var ids := Children(types[id].def);
      forall i | 0 <= i < |ids|
        ensures Unfolds(types, stop, ids[i], m - 1)
      {
        UnfoldsMore(types, stop, ids[i], n - 1, m - 1);
      }
    }
  }

  lemma {:induction false} UnfoldsSooner(types: Types, stop: set<TypeId>, stop': set<TypeId>, id: TypeId, n: nat)
    requires Unfolds(types, stop, id, n) && stop <= stop'
    ensures Unfolds(types, stop', id, n)
    decreases n
  {
    if id !in stop' {
      var ids := Children(types[id].def);
      forall i | 0 <= i < |ids|
        ensures Unfolds(types, stop', ids[i], n - 1)
      {
        UnfoldsSooner(types, stop, stop', ids[i], n - 1);
      }
    }
  }

  // ---- unfolding ends exactly when no path from the type repeats an id ----

  /** No path from `id` that avoids `stop` repeats an id. */
  ghost predicate AcyclicPast(types: Types, stop: set<TypeId>, id: TypeId) {
    forall p: seq<TypeId>, i, j :: IsPath(types, stop, p) && p[0] == id && 0 <= i < j < |p| ==> p[i] != p[j]
  }

  ghost predicate Acyclic(types: Types, id: TypeId) {
    AcyclicPast(types, {}, id)
  }

  lemma {:induction false} UnfoldsAlongPath(types: Types, stop: set<TypeId>, p: seq<TypeId>, n: nat)
    requires IsPath(types, stop, p) && Unfolds(types, stop, p[0], n)
    ensures |p| <= n && Unfolds(types, stop, p[|p| - 1], n - |p| + 1)
    decreases |p|
  {
    if |p| > 1 {
      var q := p[..|p| - 1];
      UnfoldsAlongPath(types, stop, q, n);
      assert Edge(types, p[|p| - 2], p[|p| - 1]);
      assert AllUnfold(types, stop, Children(types[p[|p| - 2]].def), n - |p| + 1);
    }
  }

  lemma {:induction false} NoCycleThrough(types: Types, stop: set<TypeId>, p: seq<TypeId>, n: nat)
    requires IsPath(types, stop, p) && |p| > 1 && p[0] == p[|p| - 1]
    ensures !Unfolds(types, stop, p[0], n)
    decreases n
  {
    if Unfolds(types, stop, p[0], n) {
      UnfoldsAlongPath(types, stop, p, n);
      NoCycleThrough(types, stop, p, n - |p| + 1);
    }
  }

  /** If unfolding does not end within `n` levels there is a path of `n + 1` ids. */
  lemma {:induction false} LongPath(types: Types, stop: set<TypeId>, id: TypeId, n: nat) returns (p: seq<TypeId>)
    requires Closed(types) && id < |types| && !Unfolds(types, stop, id, n)
    ensures IsPath(types, stop, p) && p[0] == id && |p| == n + 1
    decreases n
  {
    if n == 0 {
      p := [id];
    } else {
      var ids := Children(types[id].def);
      var i :| 0 <= i < |ids| && !Unfolds(types, stop, ids[i], n - 1);
      var child := ids[i];
      var q := LongPath(types, stop, child, n - 1);
      p := [id] + q;
      forall k | 0 < k < |p|
        ensures Edge(types, p[k - 1], p[k])
      {
        if k > 1 {
          assert Edge(types, q[k - 2], q[k - 1]);
        }
      }
    }
  }

  lemma {:induction false} Pigeonhole(p: seq<TypeId>, bound: nat) returns (i: nat, j: nat)
    requires |p| > bound && forall k :: 0 <= k < |p| ==> p[k] < bound
    ensures i < j < |p| && p[i] == p[j]
  {
    var seen: set<TypeId> := {};
    j := 0;
    while j < |p| && p[j] !in seen
      invariant j <= |p|
      invariant forall x :: x in seen <==> exists k :: 0 <= k < j && p[k] == x
      invariant |seen| == j
    {
      seen := seen + {p[j]};
      j := j + 1;
    }
    if j == |p| {
      assert seen <= IdsBelow(bound);
      IdsBelowSize(bound);
      SubsetSize(seen, IdsBelow(bound));
      assert false;
    }
    i :| 0 <= i < j && p[i] == p[j];
  }

  lemma {:induction false} IdsBelowSize(n: nat)
    ensures |IdsBelow(n)| == n
  {
    if n > 0 {
      IdsBelowSize(n - 1);
    }
  }

  lemma NoRepeatOnPath(types: Types, stop: set<TypeId>, p: seq<TypeId>, i: nat, j: nat, n: nat)
    requires IsPath(types, stop, p) && Unfolds(types, stop, p[0], n) && i < j < |p|
    ensures p[i] != p[j]
  {
    UnfoldsAlongPath(types, stop, p[..i + 1], n);
    var cycle := p[i..j + 1];
    forall k | 0 < k < |cycle|
      ensures Edge(types, cycle[k - 1], cycle[k])
    {
      assert Edge(types, p[i + k - 1], p[i + k]);
    }
    if p[i] == p[j] {
      NoCycleThrough(types, stop, cycle, n - i);
    }
  }

  /** Acyclicity, as a property of paths, is the same as unfolding within `|types|` levels. */
  lemma AcyclicIffUnfolds(types: Types, stop: set<TypeId>, id: TypeId)
    requires Closed(types) && id < |types|
    ensures AcyclicPast(types, stop, id) <==> Unfolds(types, stop, id, |types|)
  {
    if Unfolds(types, stop, id, |types|) {
      forall p: seq<TypeId>, i, j | IsPath(types, stop, p) && p[0] == id && 0 <= i < j < |p|
        ensures p[i] != p[j]
      {
        NoRepeatOnPath(types, stop, p, i, j, |types|);
      }
    } else {
      var p := LongPath(types, stop, id, |types|);
      var i, j := Pigeonhole(p, |types|);
      assert p[i] == p[j];
    }
  }

  // ---- the structural hash ----

  /** The cache-free recursive hash of a type whose unfolding ends; the hashes of the types in
      `base` are taken from there. */
  ghost function StructuralHash(tw: Digest, types: Types, base: Cache, id: TypeId, n: nat): Hash
    requires Unfolds(types, base.Keys, id, n)
    decreases n
  {
    if id in base then base[id].Value()
    else
      var ids := Children(types[id].def);
      assert AllUnfold(types, base.Keys, ids, n - 1);
      Combine(tw, types[id].def,
              seq(|ids|, i requires 0 <= i < |ids| => StructuralHash(tw, types, base, ids[i], n - 1)))
  }

  ghost function StructuralHashes(tw: Digest, types: Types, base: Cache, ids: seq<TypeId>, n: nat): (hs: seq<Hash>)
    requires AllUnfold(types, base.Keys, ids, n)
    ensures |hs| == |ids|
  {
    seq(|ids|, i requires 0 <= i < |ids| => StructuralHash(tw, types, base, ids[i], n))
  }

  lemma {:induction false} StructuralHashUnfolded(tw: Digest, types: Types, base: Cache, id: TypeId, n: nat)
    requires Unfolds(types, base.Keys, id, n) && id !in base
    ensures n > 0 && AllUnfold(types, base.Keys, Children(types[id].def), n - 1)
    ensures StructuralHash(tw, types, base, id, n)
         == Combine(tw, types[id].def, StructuralHashes(tw, types, base, Children(types[id].def), n - 1))
  {
    var ids := Children(types[id].def);
    assert seq(|ids|, i requires 0 <= i < |ids| => StructuralHash(tw, types, base, ids[i], n - 1))
        == StructuralHashes(tw, types, base, ids, n - 1);
  }

  lemma {:induction false} StructuralHashStable(tw: Digest, types: Types, base: Cache, id: TypeId, n: nat, m: nat)
    requires Unfolds(types, base.Keys, id, n) && Unfolds(types, base.Keys, id, m)
    ensures StructuralHash(tw, types, base, id, n) == StructuralHash(tw, types, base, id, m)
    decreases n
  {
    if id !in base {
      var ids := Children(types[id].def);
      StructuralHashUnfolded(tw, types, base, id, n);
      StructuralHashUnfolded(tw, types, base, id, m);
      var hs, hs' := StructuralHashes(tw, types, base, ids, n - 1), StructuralHashes(tw, types, base, ids, m - 1);
      forall i | 0 <= i < |ids|
        ensures hs[i] == hs'[i]
      {
        StructuralHashStable(tw, types, base, ids[i], n - 1, m - 1);
      }
      assert hs == hs';
    }
  }

  ghost predicate KeepsBase(base: Cache, cache: Cache) {
    forall x :: x in base ==> x in cache && cache[x] == base[x]
  }

  ghost predicate EntryCorrect(tw: Digest, types: Types, base: Cache, cache: Cache, x: TypeId, n: nat) {
    x in cache && x !in base && Unfolds(types, base.Keys, x, n) ==>
      cache[x] == Done(StructuralHash(tw, types, base, x, n))
  }

  /** The base is there, and every other entry for a type that unfolds within `n` levels is its
      structural hash. */
  ghost predicate CorrectBelow(tw: Digest, types: Types, base: Cache, cache: Cache, n: nat) {
    KeepsBase(base, cache) && forall x :: x in cache ==> EntryCorrect(tw, types, base, cache, x, n)
  }

  /** Everything added to the cache unfolds within `n` levels and is correct. */
  ghost predicate AddsCorrect(tw: Digest, types: Types, base: Cache, before: Cache, after: Cache, n: nat) {
    forall x :: x in after && x !in before ==>
      Unfolds(types, base.Keys, x, n) && EntryCorrect(tw, types, base, after, x, n)
  }

  lemma CorrectBelowFewer(tw: Digest, types: Types, base: Cache, cache: Cache, n: nat, m: nat)
    requires CorrectBelow(tw, types, base, cache, n) && m <= n
    ensures CorrectBelow(tw, types, base, cache, m)
  {
    forall x | x in cache && x !in base && Unfolds(types, base.Keys, x, m)
      ensures cache[x] == Done(StructuralHash(tw, types, base, x, m))
    {
      UnfoldsMore(types, base.Keys, x, m, n);
      assert EntryCorrect(tw, types, base, cache, x, n);
      StructuralHashStable(tw, types, base, x, m, n);
    }
  }

  lemma AddsCorrectMore(tw: Digest, types: Types, base: Cache, before: Cache, after: Cache, m: nat, n: nat)
    requires AddsCorrect(tw, types, base, before, after, m) && m <= n
    ensures AddsCorrect(tw, types, base, before, after, n)
  {
    forall x | x in after && x !in before
      ensures Unfolds(types, base.Keys, x, n) && EntryCorrect(tw, types, base, after, x, n)
    {
      assert EntryCorrect(tw, types, base, after, x, m);
      UnfoldsMore(types, base.Keys, x, m, n);
      StructuralHashStable(tw, types, base, x, m, n);
    }
  }

  /** Main result: on a type from which no cycle can be reached past the base, memoised hashing
      returns the structural hash, from every cache that keeps the base and whose other
      entries are correct, and keeps it so. */
  lemma {:induction false} VisitIsStructural(tw: Digest, types: Types, base: Cache, id: TypeId, n: nat, cache: Cache)
    requires Closed(types) && Unfolds(types, base.Keys, id, n) && CorrectBelow(tw, types, base, cache, n)
    ensures var (h, after) := Visit(tw, types, id, cache);
      && h == StructuralHash(tw, types, base, id, n)
      && AddsCorrect(tw, types, base, cache, after, n) && CorrectBelow(tw, types, base, after, n)
    decreases n, 0, 0
  {
    hide StructuralHash, AddsCorrect, EntryCorrect, CorrectBelow, Visit;
    VisitExtends(tw, types, id, cache);
    if id in base || id in cache {
      CachedIsStructural(tw, types, base, id, n, cache);
    } else {
      var after := Visit(tw, types, id, cache).1;
      CorrectBelowFewer(tw, types, base, cache, n, n - 1);
      if Unfolds(types, base.Keys, id, n - 1) {
        VisitIsStructural(tw, types, base, id, n - 1, cache);
        StructuralHashStable(tw, types, base, id, n - 1, n);
        AddsCorrectMore(tw, types, base, cache, after, n - 1, n);
      } else {
        VisitDeepest(tw, types, base, id, n, cache);
      }
      StaysCorrect(tw, types, base, cache, after, n);
    }
  }

  lemma CachedIsStructural(tw: Digest, types: Types, base: Cache, id: TypeId, n: nat, cache: Cache)
    requires Closed(types) && Unfolds(types, base.Keys, id, n) && CorrectBelow(tw, types, base, cache, n)
    requires id in base || id in cache
    ensures var (h, after) := Visit(tw, types, id, cache);
      h == StructuralHash(tw, types, base, id, n) && after == cache && AddsCorrect(tw, types, base, cache, after, n)
  {
    hide StructuralHash;
    if id in base {
      BaseHash(tw, types, base, id, n);
    } else {
      assert EntryCorrect(tw, types, base, cache, id, n);
    }
  }

  lemma BaseHash(tw: Digest, types: Types, base: Cache, id: TypeId, n: nat)
    requires Unfolds(types, base.Keys, id, n) && id in base
    ensures StructuralHash(tw, types, base, id, n) == base[id].Value()
  {
  }

  /** The case of an uncached type that needs all `n` levels: no type below it does. */
  lemma {:induction false} VisitDeepest(tw: Digest, types: Types, base: Cache, id: TypeId, n: nat, cache: Cache)
    requires Closed(types) && Unfolds(types, base.Keys, id, n) && n > 0 && !Unfolds(types, base.Keys, id, n - 1)
    requires id !in cache && CorrectBelow(tw, types, base, cache, n - 1)
    ensures var (h, after) := Visit(tw, types, id, cache);
      h == StructuralHash(tw, types, base, id, n) && AddsCorrect(tw, types, base, cache, after, n)
    decreases n - 1, 2, 0
  {
    var ids, started := Children(types[id].def), cache[id := Recursive];
    StartedCorrect(tw, types, base, id, n - 1, cache);
    VisitAllIsStructural(tw, types, base, ids, n - 1, started);
    FinishedCorrect(tw, types, base, id, n, cache, VisitAll(tw, types, ids, started).1);
    StructuralHashUnfolded(tw, types, base, id, n);
  }

  /** Entering the finished hash of `id` after its children were added. */
  lemma FinishedCorrect(tw: Digest, types: Types, base: Cache, id: TypeId, n: nat, cache: Cache, filled: Cache)
    requires Unfolds(types, base.Keys, id, n) && n > 0
    requires AddsCorrect(tw, types, base, cache[id := Recursive], filled, n - 1)
    ensures AddsCorrect(tw, types, base, cache, filled[id := Done(StructuralHash(tw, types, base, id, n))], n)
  {
    var started, after := cache[id := Recursive], filled[id := Done(StructuralHash(tw, types, base, id, n))];
    AddsCorrectMore(tw, types, base, started, filled, n - 1, n);
    forall x | x in after && x !in cache
      ensures Unfolds(types, base.Keys, x, n) && EntryCorrect(tw, types, base, after, x, n)
    {
      assert x != id ==> x in filled && x !in started && EntryCorrect(tw, types, base, filled, x, n);
    }
  }

  /** Marking a type `Recursive` does no harm to types that unfold in fewer levels. */
  lemma StartedCorrect(tw: Digest, types: Types, base: Cache, id: TypeId, n: nat, cache: Cache)
    requires id !in base && !Unfolds(types, base.Keys, id, n) && CorrectBelow(tw, types, base, cache, n)
    ensures CorrectBelow(tw, types, base, cache[id := Recursive], n)
  {
    var started := cache[id := Recursive];
    forall x | x in started
      ensures EntryCorrect(tw, types, base, started, x, n)
    {
      assert x != id ==> EntryCorrect(tw, types, base, cache, x, n);
    }
  }

  lemma StaysCorrect(tw: Digest, types: Types, base: Cache, before: Cache, after: Cache, n: nat)
    requires Extends(before, after) && AddsCorrect(tw, types, base, before, after, n)
    requires CorrectBelow(tw, types, base, before, n)
    ensures CorrectBelow(tw, types, base, after, n)
  {
    forall x | x in after
      ensures EntryCorrect(tw, types, base, after, x, n)
    {
      if x in before {
        assert EntryCorrect(tw, types, base, before, x, n);
      }
    }
  }

  lemma {:induction false} VisitAllIsStructural(
      tw: Digest, types: Types, base: Cache, ids: seq<TypeId>, n: nat, cache: Cache)
    requires Closed(types) && InRange(types, ids) && CorrectBelow(tw, types, base, cache, n)
    requires AllUnfold(types, base.Keys, ids, n)
    ensures var (hs, after) := VisitAll(tw, types, ids, cache);
      && hs == StructuralHashes(tw, types, base, ids, n)
      && AddsCorrect(tw, types, base, cache, after, n) && CorrectBelow(tw, types, base, after, n)
    decreases n, 1, |ids|
  {
    if ids != [] {
      var k := |ids| - 1;
      VisitAllIsStructural(tw, types, base, ids[..k], n, cache);
      var before := VisitAll(tw, types, ids[..k], cache).1;
      VisitIsStructural(tw, types, base, ids[k], n, before);
      var after := Visit(tw, types, ids[k], before).1;
      VisitExtends(tw, types, ids[k], before);
      AddsCorrectTwice(tw, types, base, cache, before, after, n);
      StructuralHashesSnoc(tw, types, base, ids, n);
    }
  }

  lemma AddsCorrectTwice(tw: Digest, types: Types, base: Cache, a: Cache, b: Cache, c: Cache, n: nat)
    requires AddsCorrect(tw, types, base, a, b, n) && AddsCorrect(tw, types, base, b, c, n) && Extends(b, c)
    ensures AddsCorrect(tw, types, base, a, c, n)
  {
    forall x | x in c && x !in a
      ensures Unfolds(types, base.Keys, x, n) && EntryCorrect(tw, types, base, c, x, n)
    {
      assert x in b ==> EntryCorrect(tw, types, base, b, x, n);
    }
  }

  lemma {:induction false} StructuralHashesSnoc(tw: Digest, types: Types, base: Cache, ids: seq<TypeId>, n: nat)
    requires |ids| > 0 && AllUnfold(types, base.Keys, ids, n)
    ensures var k := |ids| - 1;
      && AllUnfold(types, base.Keys, ids[..k], n)
      && StructuralHashes(tw, types, base, ids, n)
         == StructuralHashes(tw, types, base, ids[..k], n) + [StructuralHash(tw, types, base, ids[k], n)]
  {
    hide StructuralHash, Unfolds;
  }

  // ---- the placeholder is not read ----

  ghost predicate Finished(base: Cache) {
    forall x :: x in base ==> base[x].Done?
  }

  /** Nor is the placeholder of a `Recursive` entry ever taken on the way, unless it is in the
      base. In particular never when hashing an acyclic type from an empty cache. */
  lemma {:induction false} NoPlaceholderRead(tw: Digest, types: Types, base: Cache, id: TypeId, n: nat, cache: Cache)
    requires Closed(types) && Unfolds(types, base.Keys, id, n) && CorrectBelow(tw, types, base, cache, n)
    requires Finished(base)
    ensures PlaceholderReads(tw, types, id, cache) == 0
    decreases n, 0, 0
  {
    hide StructuralHash;
    if id in base {
    } else if id in cache {
      assert EntryCorrect(tw, types, base, cache, id, n);
    } else {
      CorrectBelowFewer(tw, types, base, cache, n, n - 1);
      if Unfolds(types, base.Keys, id, n - 1) {
        NoPlaceholderRead(tw, types, base, id, n - 1, cache);
      } else {
        StartedCorrect(tw, types, base, id, n - 1, cache);
        NoneReadsPlaceholder(tw, types, base, Children(types[id].def), n - 1, cache[id := Recursive]);
      }
    }
  }

  lemma {:induction false} NoneReadsPlaceholder(
      tw: Digest, types: Types, base: Cache, ids: seq<TypeId>, n: nat, cache: Cache)
    requires Closed(types) && InRange(types, ids) && CorrectBelow(tw, types, base, cache, n)
    requires AllUnfold(types, base.Keys, ids, n) && Finished(base)
    ensures AllPlaceholderReads(tw, types, ids, cache) == 0
    decreases n, 1, |ids|
  {
    hide StructuralHash;
    if ids != [] {
      var k := |ids| - 1;
      assert Unfolds(types, base.Keys, ids[k], n);
      NoneReadsPlaceholder(tw, types, base, ids[..k], n, cache);
      VisitAllIsStructural(tw, types, base, ids[..k], n, cache);
      NoPlaceholderRead(tw, types, base, ids[k], n, VisitAll(tw, types, ids[..k], cache).1);
    }
  }
}
