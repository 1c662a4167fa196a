/** The children of one definition, visited in any order. It is irrelevant when any two different
    ones share only types from which no cycle can be reached, not counting paths through what
    was cached before: then no child can find in the cache what another one left unfinished or
    entered from elsewhere. */
module ChildOrder {
  import opened CycleGates
  import opened Hashes
  import opened Reachability
  import opened Registry
  import opened Structure
  import opened TypeHashing

  // ---- two caches that agree on what lies in a region ----

  ghost predicate RegionClosed(types: Types, base: Cache, region: set<TypeId>) {
    forall x, y :: x in region && x !in base && Edge(types, x, y) ==> y in region
  }

  /** Beyond the base, the caches hold the same entries for types that reach a cycle. For all
      others they may differ, since a correct entry is as good as none. */
  ghost predicate Alike(types: Types, base: Cache, region: set<TypeId>, left: Cache, right: Cache) {
    forall x :: x in region && x !in base && !Unfolds(types, base.Keys, x, |types|) ==>
      (x in left <==> x in right) && (x in left ==> left[x] == right[x])
  }

  ghost predicate Correct(tw: Digest, types: Types, base: Cache, cache: Cache) {
    CorrectBelow(tw, types, base, cache, |types|)
  }

  lemma AlikeAfterCorrect(
      tw: Digest, types: Types, base: Cache, region: set<TypeId>, left: Cache, right: Cache,
      left': Cache, right': Cache)
    requires Alike(types, base, region, left, right) && Extends(left, left') && Extends(right, right')
    requires AddsCorrect(tw, types, base, left, left', |types|) && AddsCorrect(tw, types, base, right, right', |types|)
    ensures Alike(types, base, region, left', right')
  {
  }

  lemma CorrectAfterInsert(tw: Digest, types: Types, base: Cache, cache: Cache, id: TypeId, entry: CachedHash)
    requires Correct(tw, types, base, cache) && id !in base && !Unfolds(types, base.Keys, id, |types|)
    ensures Correct(tw, types, base, cache[id := entry])
  {
    hide Unfolds, StructuralHash;
    var after := cache[id := entry];
    forall x | x in after
      ensures EntryCorrect(tw, types, base, after, x, |types|)
    {
      assert x != id ==> EntryCorrect(tw, types, base, cache, x, |types|);
    }
  }

  /** Hashing from alike caches gives the same hash and alike caches. */
  lemma {:induction false} VisitAlike(
      tw: Digest, types: Types, base: Cache, region: set<TypeId>, id: TypeId, left: Cache, right: Cache)
    requires Closed(types) && id < |types| && id in region && RegionClosed(types, base, region)
    requires Correct(tw, types, base, left) && Correct(tw, types, base, right)
    requires Alike(types, base, region, left, right)
    ensures
      var (h, left') := Visit(tw, types, id, left);
      var (h', right') := Visit(tw, types, id, right);
      && h == h' && Correct(tw, types, base, left') && Correct(tw, types, base, right')
      && Alike(types, base, region, left', right')
    decreases AllIds(types) - left.Keys, 0, 0
  {
    hide Unfolds, Combine, CorrectBelow, Alike, VisitAll;
    if Unfolds(types, base.Keys, id, |types|) {
      VisitAlikeAcyclic(tw, types, base, region, id, left, right);
    } else {
      AlikeAt(tw, types, base, region, left, right, id);
      if id !in left {
        var ids, started, started' := Children(types[id].def), left[id := Recursive], right[id := Recursive];
        assert id in AllIds(types) - left.Keys && id !in AllIds(types) - started.Keys;
        AlikeAfterInsert(tw, types, base, region, left, right, id, Recursive);
        assert forall i :: 0 <= i < |ids| ==> Edge(types, id, ids[i]);
        VisitAllAlike(tw, types, base, region, ids, started, started');
        var (hs, filled) := VisitAll(tw, types, ids, started);
        var filled' := VisitAll(tw, types, ids, started').1;
        AlikeAfterInsert(tw, types, base, region, filled, filled', id, Done(Combine(tw, types[id].def, hs)));
      }
    }
  }

  /** What alike caches hold for one type. */
  lemma AlikeAt(
      tw: Digest, types: Types, base: Cache, region: set<TypeId>, left: Cache, right: Cache, id: TypeId)
    requires id < |types| && id in region && !Unfolds(types, base.Keys, id, |types|)
    requires Correct(tw, types, base, left) && Correct(tw, types, base, right)
    requires Alike(types, base, region, left, right)
    ensures (id in left <==> id in right) && (id in left ==> left[id] == right[id]) && (id in base ==> id in left)
  {
  }

  lemma AlikeAfterInsert(
      tw: Digest, types: Types, base: Cache, region: set<TypeId>, left: Cache, right: Cache, id: TypeId,
      entry: CachedHash)
    requires id !in base && !Unfolds(types, base.Keys, id, |types|)
    requires Correct(tw, types, base, left) && Correct(tw, types, base, right)
    requires Alike(types, base, region, left, right)
    ensures Correct(tw, types, base, left[id := entry]) && Correct(tw, types, base, right[id := entry])
    ensures Alike(types, base, region, left[id := entry], right[id := entry])
  {
    hide Unfolds, CorrectBelow;
    CorrectAfterInsert(tw, types, base, left, id, entry);
    CorrectAfterInsert(tw, types, base, right, id, entry);
  }

  lemma VisitAlikeAcyclic(
      tw: Digest, types: Types, base: Cache, region: set<TypeId>, id: TypeId, left: Cache, right: Cache)
    requires Closed(types) && id < |types| && Unfolds(types, base.Keys, id, |types|)
    requires Correct(tw, types, base, left) && Correct(tw, types, base, right)
    requires Alike(types, base, region, left, right)
    ensures
      var (h, left') := Visit(tw, types, id, left);
      var (h', right') := Visit(tw, types, id, right);
      && h == h' && Correct(tw, types, base, left') && Correct(tw, types, base, right')
      && Alike(types, base, region, left', right')
  {
    hide Visit, Unfolds, Alike, StructuralHash;
    VisitIsStructural(tw, types, base, id, |types|, left);
    VisitIsStructural(tw, types, base, id, |types|, right);
    VisitExtends(tw, types, id, left);
    VisitExtends(tw, types, id, right);
    AlikeAfterCorrect(tw, types, base, region, left, right,
                      Visit(tw, types, id, left).1, Visit(tw, types, id, right).1);
  }

  lemma {:induction false} VisitAllAlike(
      tw: Digest, types: Types, base: Cache, region: set<TypeId>, ids: seq<TypeId>, left: Cache, right: Cache)
    requires Closed(types) && InRange(types, ids) && RegionClosed(types, base, region)
    requires forall i :: 0 <= i < |ids| ==> ids[i] in region
    requires Correct(tw, types, base, left) && Correct(tw, types, base, right)
    requires Alike(types, base, region, left, right)
    ensures
      var (hs, left') := VisitAll(tw, types, ids, left);
      var (hs', right') := VisitAll(tw, types, ids, right);
      && hs == hs' && Correct(tw, types, base, left') && Correct(tw, types, base, right')
      && Alike(types, base, region, left', right')
    decreases AllIds(types) - left.Keys, 1, |ids|
  {
    hide Visit, Unfolds, CorrectBelow, Alike;
    if ids != [] {
      var n := |ids| - 1;
      VisitAllAlike(tw, types, base, region, ids[..n], left, right);
      var before := VisitAll(tw, types, ids[..n], left).1;
      assert AllIds(types) - before.Keys == AllIds(types) - left.Keys
          || AllIds(types) - before.Keys < AllIds(types) - left.Keys;
      VisitAlike(tw, types, base, region, ids[n], before, VisitAll(tw, types, ids[..n], right).1);
    }
  }

  // ---- the children of one definition, visited in any order ----

  lemma ReachesChild(types: Types, avoid: set<TypeId>, a: TypeId, x: TypeId, y: TypeId)
    requires Reaches(types, avoid, a, x) && Edge(types, x, y) && y < |types| && y !in avoid
    ensures Reaches(types, avoid, a, y)
  {
    var p: seq<TypeId> :| Connects(types, avoid, p, a, x);
    var q := p + [y];
    forall i | 0 < i < |q|
      ensures Edge(types, q[i - 1], q[i])
    {
      assert i < |p| ==> Edge(types, p[i - 1], p[i]);
    }
    assert Connects(types, avoid, q, a, y);
  }

  /** The base and whatever is reached past it. */
  ghost function Region(types: Types, base: Cache, id: TypeId): (region: set<TypeId>)
    ensures forall x :: x in region <==> x in base || (x in AllIds(types) && Reaches(types, base.Keys, id, x))
  {
    base.Keys + set x | x in AllIds(types) && Reaches(types, base.Keys, id, x)
  }

  lemma RegionIsClosed(types: Types, base: Cache, id: TypeId)
    requires Closed(types)
    ensures RegionClosed(types, base, Region(types, base, id))
  {
    forall x, y | x in Region(types, base, id) && x !in base && Edge(types, x, y)
      ensures y in Region(types, base, id)
    {
      assert InRange(types, Children(types[x].def));
      if y !in base {
        ReachesChild(types, base.Keys, id, x, y);
      }
    }
  }

  /** A type that two different children reach is acyclic past the base. */
  lemma SharedUnfolds(types: Types, stop: set<TypeId>, base: Cache, ids: seq<TypeId>, a: TypeId, b: TypeId, x: TypeId)
    requires Closed(types) && stop <= base.Keys && ShareOnlyAcyclic(types, stop, ids) && a in ids && b in ids && a != b
    requires x < |types| && Reaches(types, base.Keys, a, x) && Reaches(types, base.Keys, b, x)
    ensures Unfolds(types, base.Keys, x, |types|)
  {
    AvoidLess(types, base.Keys, stop, a, x);
    AvoidLess(types, base.Keys, stop, b, x);
    assert AcyclicPast(types, stop, x);
    AcyclicIffUnfolds(types, stop, x);
    UnfoldsSooner(types, stop, base.Keys, x, |types|);
  }

  /** Where an entry comes from: visiting one child alone leaves the same. */
  ghost predicate FromChild(tw: Digest, types: Types, base: Cache, ids: seq<TypeId>, after: Cache, x: TypeId, i: nat)
    requires Closed(types) && InRange(types, ids)
  {
    && i < |ids| && x in after
    && x in Visit(tw, types, ids[i], base).1 && Visit(tw, types, ids[i], base).1[x] == after[x]
  }

  /** A child that got the hash it gets alone, and is cached with it. */
  ghost predicate HashedAsAlone(tw: Digest, types: Types, base: Cache, c: TypeId, h: Hash, after: Cache)
    requires Closed(types) && c < |types|
  {
    h == Visit(tw, types, c, base).0 && c in after && after[c].Value() == h
  }

  /** What visiting children one after the other leaves, in terms of visiting each alone. */
  ghost predicate AsAlone(tw: Digest, types: Types, base: Cache, ids: seq<TypeId>, hs: seq<Hash>, after: Cache)
    requires Closed(types) && InRange(types, ids)
  {
    && |hs| == |ids| && Correct(tw, types, base, after)
    && (forall i :: 0 <= i < |ids| ==> HashedAsAlone(tw, types, base, ids[i], hs[i], after))
    && (forall x :: x in after && x !in base && !Unfolds(types, base.Keys, x, |types|) ==>
          exists i :: FromChild(tw, types, base, ids, after, x, i))
  }

  /** The cache that earlier children left is alike to the base, as far as the next one sees. */
  lemma NextIsAlike(
      tw: Digest, types: Types, stop: set<TypeId>, base: Cache, ids: seq<TypeId>, all: seq<TypeId>, c: TypeId)
    requires Closed(types) && InRange(types, ids) && stop <= base.Keys && ShareOnlyAcyclic(types, stop, all)
    requires c in all && c !in ids && forall i :: 0 <= i < |ids| ==> ids[i] in all
    ensures Alike(types, base, Region(types, base, c), VisitAll(tw, types, ids, base).1, base)
  {
    var before := VisitAll(tw, types, ids, base).1;
    forall x | x in Region(types, base, c) && x !in base && !Unfolds(types, base.Keys, x, |types|)
      ensures x !in before
    {
      if x in before {
        VisitAllAddsReached(tw, types, ids, base, x);
        var i :| 0 <= i < |ids| && Reaches(types, base.Keys, ids[i], x);
        SharedUnfolds(types, stop, base, all, ids[i], c, x);
      }
    }
  }

  lemma {:induction false} ChildrenAsAlone(
      tw: Digest, types: Types, stop: set<TypeId>, base: Cache, ids: seq<TypeId>, all: seq<TypeId>)
    requires Closed(types) && InRange(types, ids) && stop <= base.Keys && ShareOnlyAcyclic(types, stop, all)
    requires forall i :: 0 <= i < |ids| ==> ids[i] in all
    ensures var (hs, after) := VisitAll(tw, types, ids, base); AsAlone(tw, types, base, ids, hs, after)
    decreases |ids|
  {
    if ids != [] {
      var n := |ids| - 1;
      ChildrenAsAlone(tw, types, stop, base, ids[..n], all);
      var (hs, before) := VisitAll(tw, types, ids[..n], base);
      VisitExtends(tw, types, ids[n], before);
      if ids[n] in base || ids[n] in ids[..n] {
        SeenChild(tw, types, base, ids, hs, before);
      } else {
        NewChild(tw, types, stop, base, ids, all, hs, before);
      }
    }
  }

  lemma FromEarlierChild(
      tw: Digest, types: Types, base: Cache, ids: seq<TypeId>, before: Cache, after: Cache, x: TypeId, i: nat)
    requires Closed(types) && InRange(types, ids) && ids != [] && Extends(before, after)
    requires FromChild(tw, types, base, ids[..|ids| - 1], before, x, i)
    ensures FromChild(tw, types, base, ids, after, x, i)
  {
    hide Visit;
  }

  lemma StillHashed(tw: Digest, types: Types, base: Cache, c: TypeId, h: Hash, before: Cache, after: Cache)
    requires Closed(types) && c < |types| && Extends(before, after) && HashedAsAlone(tw, types, base, c, h, before)
    ensures HashedAsAlone(tw, types, base, c, h, after)
  {
  }

  lemma FromSomeChild(
      tw: Digest, types: Types, base: Cache, ids: seq<TypeId>, hs: seq<Hash>, before: Cache, after: Cache, x: TypeId)
    requires Closed(types) && InRange(types, ids) && ids != [] && Extends(before, after)
    requires AsAlone(tw, types, base, ids[..|ids| - 1], hs, before)
    requires x in after && x !in base && !Unfolds(types, base.Keys, x, |types|)
    requires x !in before ==> FromChild(tw, types, base, ids, after, x, |ids| - 1)
    ensures exists i :: FromChild(tw, types, base, ids, after, x, i)
  {
    hide Visit, Unfolds, Correct, FromChild;
    if x in before {
      var i: nat :| FromChild(tw, types, base, ids[..|ids| - 1], before, x, i);
      FromEarlierChild(tw, types, base, ids, before, after, x, i);
    }
  }

  lemma AsAloneSnoc(
      tw: Digest, types: Types, base: Cache, ids: seq<TypeId>, hs: seq<Hash>, before: Cache, h: Hash, after: Cache)
    requires Closed(types) && InRange(types, ids) && ids != [] && Extends(before, after)
    requires AsAlone(tw, types, base, ids[..|ids| - 1], hs, before) && Correct(tw, types, base, after)
    requires HashedAsAlone(tw, types, base, ids[|ids| - 1], h, after)
    requires forall x :: x in after && x !in before && !Unfolds(types, base.Keys, x, |types|) ==>
      FromChild(tw, types, base, ids, after, x, |ids| - 1)
    ensures AsAlone(tw, types, base, ids, hs + [h], after)
  {
    hide Visit, Unfolds, Correct, FromChild, Closed, HashedAsAlone, Extends;
    var n := |ids| - 1;
    forall i | 0 <= i < n
      ensures HashedAsAlone(tw, types, base, ids[i], (hs + [h])[i], after)
    {
      assert ids[..n][i] == ids[i];
      StillHashed(tw, types, base, ids[i], hs[i], before, after);
    }
    forall x | x in after && x !in base && !Unfolds(types, base.Keys, x, |types|)
      ensures exists i :: FromChild(tw, types, base, ids, after, x, i)
    {
      FromSomeChild(tw, types, base, ids, hs, before, after, x);
    }
  }

  lemma SeenChild(tw: Digest, types: Types, base: Cache, ids: seq<TypeId>, hs: seq<Hash>, before: Cache)
    requires Closed(types) && InRange(types, ids) && ids != []
    requires AsAlone(tw, types, base, ids[..|ids| - 1], hs, before)
    requires ids[|ids| - 1] in base || ids[|ids| - 1] in ids[..|ids| - 1]
    ensures
      var (h, after) := Visit(tw, types, ids[|ids| - 1], before);
      AsAlone(tw, types, base, ids, hs + [h], after)
  {
    hide Unfolds, FromChild;
    var n := |ids| - 1;
    var c := ids[n];
    assert c in before && before[c].Value() == Visit(tw, types, c, base).0 by {
      if c !in base {
        var j :| 0 <= j < n && ids[..n][j] == c;
      }
    }
    AsAloneSnoc(tw, types, base, ids, hs, before, before[c].Value(), before);
  }

  lemma NextAsAlone(tw: Digest, types: Types, base: Cache, c: TypeId, before: Cache)
    requires Closed(types) && c < |types| && c !in base && Correct(tw, types, base, before)
    requires Alike(types, base, Region(types, base, c), before, base)
    ensures
      var (h, after) := Visit(tw, types, c, before);
      var (h', alone) := Visit(tw, types, c, base);
      h == h' && Correct(tw, types, base, after) && Alike(types, base, Region(types, base, c), after, alone)
  {
    hide Visit, Unfolds, Alike;
    assert Connects(types, base.Keys, [c], c, c);
    RegionIsClosed(types, base, c);
    VisitAlike(tw, types, base, Region(types, base, c), c, before, base);
  }

  lemma NewChild(
      tw: Digest, types: Types, stop: set<TypeId>, base: Cache, ids: seq<TypeId>, all: seq<TypeId>, hs: seq<Hash>,
      before: Cache)
    requires Closed(types) && InRange(types, ids) && ids != []
    requires stop <= base.Keys && ShareOnlyAcyclic(types, stop, all)
    requires forall i :: 0 <= i < |ids| ==> ids[i] in all
    requires (hs, before) == VisitAll(tw, types, ids[..|ids| - 1], base)
    requires AsAlone(tw, types, base, ids[..|ids| - 1], hs, before)
    requires ids[|ids| - 1] !in base && ids[|ids| - 1] !in ids[..|ids| - 1]
    ensures
      var (h, after) := Visit(tw, types, ids[|ids| - 1], before);
      AsAlone(tw, types, base, ids, hs + [h], after)
  {
    hide Visit, VisitAll, Unfolds, Alike, ShareOnlyAcyclic, FromChild;
    var n := |ids| - 1;
    var c := ids[n];
    var (h, after) := Visit(tw, types, c, before);
    NextIsAlike(tw, types, stop, base, ids[..n], all, c);
    NextAsAlone(tw, types, base, c, before);
    VisitExtends(tw, types, c, before);
    ValueInCache(tw, types, c, before);
    forall x | x in after && x !in before && !Unfolds(types, base.Keys, x, |types|)
      ensures FromChild(tw, types, base, ids, after, x, n)
    {
      NewEntry(tw, types, base, ids, before, x);
    }
    AsAloneSnoc(tw, types, base, ids, hs, before, h, after);
  }

  lemma ValueInCache(tw: Digest, types: Types, id: TypeId, cache: Cache)
    requires Closed(types) && id < |types|
    ensures var (h, after) := Visit(tw, types, id, cache); id in after && after[id].Value() == h
  {
  }

  lemma NewEntry(tw: Digest, types: Types, base: Cache, ids: seq<TypeId>, before: Cache, x: TypeId)
    requires Closed(types) && InRange(types, ids) && ids != [] && KeepsBase(base, before)
    requires
      var c := ids[|ids| - 1];
      && Alike(types, base, Region(types, base, c), Visit(tw, types, c, before).1, Visit(tw, types, c, base).1)
      && x in Visit(tw, types, c, before).1 && x !in before && !Unfolds(types, base.Keys, x, |types|)
    ensures FromChild(tw, types, base, ids, Visit(tw, types, ids[|ids| - 1], before).1, x, |ids| - 1)
  {
    hide Visit, Unfolds;
    var c := ids[|ids| - 1];
    VisitAddsReached(tw, types, c, before, x);
    VisitExtends(tw, types, c, before);
    assert base.Keys <= before.Keys;
    AvoidLess(types, before.Keys, base.Keys, c, x);
  }

  /** Past the base, whatever a child reaches is cached afterwards. */
  lemma ReachedIsCached(tw: Digest, types: Types, base: Cache, ids: seq<TypeId>, i: nat, x: TypeId)
    requires Closed(types) && InRange(types, ids) && i < |ids| && Reaches(types, base.Keys, ids[i], x)
    ensures x in VisitAll(tw, types, ids, base).1
  {
    var after := VisitAll(tw, types, ids, base).1;
    VisitAllExtends(tw, types, ids, base);
    var p: seq<TypeId> :| Connects(types, base.Keys, p, ids[i], x);
    assert ids[i] in ids;
    PathStaysInside(types, base, after, p);
  }

  lemma SameKeysInAnyOrder(tw: Digest, types: Types, base: Cache, ids: seq<TypeId>, ids': seq<TypeId>, x: TypeId)
    requires Closed(types) && InRange(types, ids) && InRange(types, ids')
    requires forall y :: y in ids ==> y in ids'
    requires x in VisitAll(tw, types, ids, base).1
    ensures x in VisitAll(tw, types, ids', base).1
  {
    hide Visit, VisitAll;
    VisitAllExtends(tw, types, ids', base);
    if x !in base {
      VisitAllAddsReached(tw, types, ids, base, x);
      var i :| 0 <= i < |ids| && Reaches(types, base.Keys, ids[i], x);
      assert ids[i] in ids;
      var j :| 0 <= j < |ids'| && ids'[j] == ids[i];
      ReachedIsCached(tw, types, base, ids', j, x);
    }
  }

  /** An entry that one child alone leaves is for a type that this child reaches. */
  lemma AloneReaches(tw: Digest, types: Types, base: Cache, c: TypeId, x: TypeId)
    requires Closed(types) && c < |types| && x in Visit(tw, types, c, base).1 && x !in base
    ensures x < |types| && Reaches(types, base.Keys, c, x)
  {
    hide Visit;
    VisitAddsReached(tw, types, c, base, x);
    VisitExtends(tw, types, c, base);
  }

  lemma SameOrigin(
      tw: Digest, types: Types, stop: set<TypeId>, base: Cache, ids: seq<TypeId>, after: Cache, i: nat,
      ids': seq<TypeId>, after': Cache, j: nat, x: TypeId)
    requires Closed(types) && InRange(types, ids) && InRange(types, ids')
    requires stop <= base.Keys && ShareOnlyAcyclic(types, stop, ids) && forall y :: y in ids' ==> y in ids
    requires FromChild(tw, types, base, ids, after, x, i) && FromChild(tw, types, base, ids', after', x, j)
    requires x !in base && !Unfolds(types, base.Keys, x, |types|)
    ensures ids[i] == ids'[j] && after[x] == after'[x]
  {
    hide Visit, Unfolds, ShareOnlyAcyclic;
    if ids[i] != ids'[j] {
      AloneReaches(tw, types, base, ids[i], x);
      AloneReaches(tw, types, base, ids'[j], x);
      assert ids[i] in ids && ids'[j] in ids';
      SharedUnfolds(types, stop, base, ids, ids[i], ids'[j], x);
    }
  }

  lemma SameEntryInAnyOrder(
      tw: Digest, types: Types, stop: set<TypeId>, base: Cache, ids: seq<TypeId>, hs: seq<Hash>, after: Cache,
      ids': seq<TypeId>, hs': seq<Hash>, after': Cache, x: TypeId)
    requires Closed(types) && InRange(types, ids) && InRange(types, ids')
    requires stop <= base.Keys && ShareOnlyAcyclic(types, stop, ids) && forall y :: y in ids' ==> y in ids
    requires AsAlone(tw, types, base, ids, hs, after) && AsAlone(tw, types, base, ids', hs', after')
    requires x in after && x in after'
    ensures after[x] == after'[x]
  {
    hide Visit, Unfolds, StructuralHash, ShareOnlyAcyclic, FromChild;
    if x in base {
    } else if Unfolds(types, base.Keys, x, |types|) {
      assert EntryCorrect(tw, types, base, after, x, |types|) && EntryCorrect(tw, types, base, after', x, |types|);
    } else {
      var i: nat :| FromChild(tw, types, base, ids, after, x, i);
      var j: nat :| FromChild(tw, types, base, ids', after', x, j);
      SameOrigin(tw, types, stop, base, ids, after, i, ids', after', j, x);
    }
  }

  lemma SameCacheInAnyOrder(
      tw: Digest, types: Types, stop: set<TypeId>, base: Cache, ids: seq<TypeId>, ids': seq<TypeId>)
    requires Closed(types) && InRange(types, ids) && InRange(types, ids') && stop <= base.Keys
    requires ShareOnlyAcyclic(types, stop, ids) && forall y :: y in ids <==> y in ids'
    requires
      var (hs, after) := VisitAll(tw, types, ids, base);
      var (hs', after') := VisitAll(tw, types, ids', base);
      AsAlone(tw, types, base, ids, hs, after) && AsAlone(tw, types, base, ids', hs', after')
    ensures VisitAll(tw, types, ids, base).1 == VisitAll(tw, types, ids', base).1
  {
    hide VisitAll, ShareOnlyAcyclic, AsAlone, InRange, Closed;
    var (hs, after) := VisitAll(tw, types, ids, base);
    var (hs', after') := VisitAll(tw, types, ids', base);
    forall x
      ensures x in after <==> x in after'
      ensures x in after ==> after[x] == after'[x]
    {
      if x in after {
        SameKeysInAnyOrder(tw, types, base, ids, ids', x);
        SameEntryInAnyOrder(tw, types, stop, base, ids, hs, after, ids', hs', after', x);
      } else if x in after' {
        SameKeysInAnyOrder(tw, types, base, ids', ids, x);
      }
    }
    assert after == after';
  }

  /** The same children in any order, and any number of times: each gets the hash it gets alone,
      and the same cache is left. */
  lemma AnyOrder(tw: Digest, types: Types, stop: set<TypeId>, base: Cache, ids: seq<TypeId>, ids': seq<TypeId>)
    requires Closed(types) && InRange(types, ids) && InRange(types, ids') && stop <= base.Keys
    requires ShareOnlyAcyclic(types, stop, ids) && forall y :: y in ids <==> y in ids'
    ensures
      var (hs, after) := VisitAll(tw, types, ids, base);
      var (hs', after') := VisitAll(tw, types, ids', base);
      && after == after'
      && forall i, j :: 0 <= i < |ids| && 0 <= j < |ids'| && ids[i] == ids'[j] ==> hs[i] == hs'[j]
  {
    hide Visit, VisitAll, Unfolds, ShareOnlyAcyclic, FromChild, Correct;
    ChildrenAsAlone(tw, types, stop, base, ids, ids);
    ChildrenAsAlone(tw, types, stop, base, ids', ids);
    SameCacheInAnyOrder(tw, types, stop, base, ids, ids');
  }
}
