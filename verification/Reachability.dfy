/** Which cache entries hashing a type creates: exactly the types reachable from it without
    passing through a type that was cached before. */
module Reachability {
  import opened Hashes
  import opened Registry
  import opened TypeHashing

  ghost predicate Edge(types: Types, a: TypeId, b: TypeId) {
    a < |types| && b in Children(types[a].def)
  }

  ghost predicate IsPath(types: Types, avoid: set<TypeId>, p: seq<TypeId>) {
    && |p| > 0
    && (forall i :: 0 <= i < |p| ==> p[i] < |types| && p[i] !in avoid)
    && (forall i :: 0 < i < |p| ==> Edge(types, p[i - 1], p[i]))
  }

  ghost predicate Connects(types: Types, avoid: set<TypeId>, p: seq<TypeId>, a: TypeId, b: TypeId) {
    IsPath(types, avoid, p) && p[0] == a && p[|p| - 1] == b
  }

  /** There is a path from `a` to `b` on which no id, `a` and `b` included, is in `avoid`. */
  ghost predicate Reaches(types: Types, avoid: set<TypeId>, a: TypeId, b: TypeId) {
    exists p: seq<TypeId> :: Connects(types, avoid, p, a, b)
  }

  ghost predicate ReachedFromAny(types: Types, avoid: set<TypeId>, ids: seq<TypeId>, b: TypeId) {
    exists i :: 0 <= i < |ids| && Reaches(types, avoid, ids[i], b)
  }

  lemma AvoidLess(types: Types, avoid: set<TypeId>, avoid': set<TypeId>, a: TypeId, b: TypeId)
    requires avoid' <= avoid && Reaches(types, avoid, a, b)
    ensures Reaches(types, avoid', a, b)
  {
    var p: seq<TypeId> :| Connects(types, avoid, p, a, b);
    assert Connects(types, avoid', p, a, b);
  }

  lemma ReachesFromParent(types: Types, avoid: set<TypeId>, parent: TypeId, a: TypeId, b: TypeId)
    requires Edge(types, parent, a) && parent !in avoid && Reaches(types, avoid, a, b)
    ensures Reaches(types, avoid, parent, b)
  {
    var p: seq<TypeId> :| Connects(types, avoid, p, a, b);
    var q := [parent] + p;
    forall i | 0 < i < |q|
      ensures Edge(types, q[i - 1], q[i])
    {
      assert i > 1 ==> Edge(types, p[i - 2], p[i - 1]);
    }
    assert Connects(types, avoid, q, parent, b);
  }

  /** Old entries are untouched, even those still marked `Recursive`, and every entry that
      is added is finished. */
  ghost predicate Extends(before: Cache, after: Cache) {
    && (forall x :: x in before ==> x in after && after[x] == before[x])
    && (forall x :: x in after && x !in before ==> after[x].Done?)
  }

  /** Whatever was added has all its children cached as well. */
  ghost predicate AddsClosed(types: Types, before: Cache, after: Cache) {
    forall x, y :: x in after && x !in before && Edge(types, x, y) ==> y in after
  }

  ghost predicate AddsBounded(types: Types, before: Cache, after: Cache) {
    forall x :: x in after && x !in before ==> x < |types|
  }

  lemma {:induction false} VisitExtends(tw: Digest, types: Types, id: TypeId, cache: Cache)
    requires Closed(types) && id < |types|
    ensures var after := Visit(tw, types, id, cache).1;
      Extends(cache, after) && AddsClosed(types, cache, after) && AddsBounded(types, cache, after)
    decreases AllIds(types) - cache.Keys, 0, 0
  {
    if id !in cache {
      var started := cache[id := Recursive];
      assert id in AllIds(types) - cache.Keys && id !in AllIds(types) - started.Keys;
      VisitAllExtends(tw, types, Children(types[id].def), started);
      var after := Visit(tw, types, id, cache).1;
      var filled := VisitAll(tw, types, Children(types[id].def), started).1;
      forall x, y | x in after && x !in cache && Edge(types, x, y)
        ensures y in after
      {
        if x != id {
          assert x in filled && x !in started;
        }
      }
    }
  }

  lemma {:induction false} VisitAllExtends(tw: Digest, types: Types, ids: seq<TypeId>, cache: Cache)
    requires Closed(types) && InRange(types, ids)
    ensures var after := VisitAll(tw, types, ids, cache).1;
      Extends(cache, after) && AddsClosed(types, cache, after) && AddsBounded(types, cache, after)
    decreases AllIds(types) - cache.Keys, 1, |ids|
  {
    if ids != [] {
      var n := |ids| - 1;
      var before := VisitAll(tw, types, ids[..n], cache).1;
      VisitAllExtends(tw, types, ids[..n], cache);
      assert AllIds(types) - before.Keys == AllIds(types) - cache.Keys
          || AllIds(types) - before.Keys < AllIds(types) - cache.Keys;
      VisitExtends(tw, types, ids[n], before);
      var after := Visit(tw, types, ids[n], before).1;
      forall x, y | x in after && x !in cache && Edge(types, x, y)
        ensures y in after
      {
        if x in before {
          assert y in before;
        }
      }
    }
  }

  lemma {:induction false} VisitAddsReached(tw: Digest, types: Types, id: TypeId, cache: Cache, x: TypeId)
    requires Closed(types) && id < |types|
    requires x in Visit(tw, types, id, cache).1 && x !in cache
    ensures Reaches(types, cache.Keys, id, x)
    decreases AllIds(types) - cache.Keys, 0, 0
  {
    var started := cache[id := Recursive];
    if x == id {
      assert Connects(types, cache.Keys, [id], id, x);
    } else {
      var ids := Children(types[id].def);
      assert id in AllIds(types) - cache.Keys && id !in AllIds(types) - started.Keys;
      VisitAllAddsReached(tw, types, ids, started, x);
      var i :| 0 <= i < |ids| && Reaches(types, started.Keys, ids[i], x);
      AvoidLess(types, started.Keys, cache.Keys, ids[i], x);
      ReachesFromParent(types, cache.Keys, id, ids[i], x);
    }
  }

  lemma {:induction false} VisitAllAddsReached(tw: Digest, types: Types, ids: seq<TypeId>, cache: Cache, x: TypeId)
    requires Closed(types) && InRange(types, ids)
    requires x in VisitAll(tw, types, ids, cache).1 && x !in cache
    ensures ReachedFromAny(types, cache.Keys, ids, x)
    decreases AllIds(types) - cache.Keys, 1, |ids|
  {
    var n := |ids| - 1;
    var before := VisitAll(tw, types, ids[..n], cache).1;
    if x in before {
      VisitAllAddsReached(tw, types, ids[..n], cache, x);
      var i :| 0 <= i < n && Reaches(types, cache.Keys, ids[..n][i], x);
      assert ids[..n][i] == ids[i];
    } else {
      assert AllIds(types) - before.Keys == AllIds(types) - cache.Keys
          || AllIds(types) - before.Keys < AllIds(types) - cache.Keys;
      VisitAddsReached(tw, types, ids[n], before, x);
      AvoidLess(types, before.Keys, cache.Keys, ids[n], x);
    }
  }

  /** A path that avoids the old keys and starts at a new key stays inside the new keys. */
  lemma {:induction false} PathStaysInside(types: Types, before: Cache, after: Cache, p: seq<TypeId>)
    requires AddsClosed(types, before, after)
    requires IsPath(types, before.Keys, p) && p[0] in after
    ensures p[|p| - 1] in after
    decreases |p|
  {
    if |p| > 1 {
      var q := p[..|p| - 1];
      PathStaysInside(types, before, after, q);
      assert Edge(types, p[|p| - 2], p[|p| - 1]);
    }
  }

  /** Main result: the keys after hashing `id` are the old keys and the ids reachable from
      `id` by paths that avoid them; old entries keep their value, new ones are finished. */
  lemma VisitCachesReachable(tw: Digest, types: Types, id: TypeId, cache: Cache)
    requires Closed(types) && id < |types|
    ensures var after := Visit(tw, types, id, cache).1;
      && Extends(cache, after)
      && forall x :: x in after <==> x in cache || Reaches(types, cache.Keys, id, x)
  {
    var after := Visit(tw, types, id, cache).1;
    VisitExtends(tw, types, id, cache);
    forall x | x in after && x !in cache
      ensures Reaches(types, cache.Keys, id, x)
    {
      VisitAddsReached(tw, types, id, cache, x);
    }
    forall x | Reaches(types, cache.Keys, id, x)
      ensures x in after
    {
      var p: seq<TypeId> :| Connects(types, cache.Keys, p, id, x);
      PathStaysInside(types, cache, after, p);
    }
  }

  /** From an empty cache: one finished entry per reachable type and nothing else. */
  lemma TypeHashCachesReachable(tw: Digest, types: Types, id: TypeId)
    requires Closed(types) && id < |types|
    ensures var after := Visit(tw, types, id, map[]).1;
      && (forall x :: x in after <==> Reaches(types, {}, id, x))
      && (forall x :: x in after ==> after[x].Done?)
      && after[id] == Done(TypeHash(tw, types, id))
  {
    var empty: Cache := map[];
    VisitCachesReachable(tw, types, id, empty);
    assert empty.Keys == {};
  }
}
