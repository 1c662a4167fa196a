/** Children that share cycles, visited in any order. It is irrelevant as long as those cycles lie
    behind gates: visiting a gate before the children changes none of their hashes, and once it is
    cached its cycles can no longer be entered from elsewhere. */
module GatedOrder {
  import opened ChildOrder
  import opened CycleGates
  import opened Hashes
  import opened Reachability
  import opened Registry
  import opened Structure
  import opened TypeHashing

  lemma GateLater(
      types: Types, stop: set<TypeId>, stop': set<TypeId>, ids: seq<TypeId>, e: TypeId, c: TypeId, x: TypeId)
    requires Closed(types) && Gate(types, stop, ids, e) && stop <= stop' && c in ids && x < |types|
    requires Reaches(types, stop', e, x) && !Unfolds(types, stop', x, |types|)
    ensures !Reaches(types, stop' + {e}, c, x)
  {
    AvoidLess(types, stop', stop, e, x);
    AcyclicIffUnfolds(types, stop, x);
    if Unfolds(types, stop, x, |types|) {
      UnfoldsSooner(types, stop, stop', x, |types|);
    }
    if Reaches(types, stop' + {e}, c, x) {
      AvoidLess(types, stop' + {e}, stop + {e}, c, x);
    }
  }

  // ---- caches that differ in whether the gate was visited ----

  /** `left` holds what visiting the gate leaves and `right` nothing of it; about types with a
      cycle ahead that the gate does not reach they agree. */
  ghost predicate Ahead(tw: Digest, types: Types, base: Cache, e: TypeId, left: Cache, right: Cache)
    requires Closed(types) && e < |types|
  {
    var visited := Visit(tw, types, e, base).1;
    forall x :: x in AllIds(types) && x !in base && !Unfolds(types, base.Keys, x, |types|) ==>
      if Reaches(types, base.Keys, e, x) then x !in right && x in left && x in visited && left[x] == visited[x]
      else (x in left <==> x in right) && (x in left ==> left[x] == right[x])
  }

  /** The same, unless the gate has been visited on the right too. */
  ghost predicate Near(tw: Digest, types: Types, base: Cache, e: TypeId, left: Cache, right: Cache)
    requires Closed(types) && e < |types|
  {
    && Correct(tw, types, base, left) && Correct(tw, types, base, right)
    && (Ahead(tw, types, base, e, left, right) || Alike(types, base, AllIds(types), left, right))
  }

  /** What can be met: the base, the gate, and what the children reach past them. */
  ghost predicate Met(types: Types, base: Cache, e: TypeId, ids: seq<TypeId>, y: TypeId) {
    y in base || y == e || Reached(types, base.Keys + {e}, ids, y)
  }

  ghost predicate AllMet(types: Types, base: Cache, e: TypeId, ids: seq<TypeId>, some: seq<TypeId>) {
    forall i :: 0 <= i < |some| ==> Met(types, base, e, ids, some[i])
  }

  lemma ChildrenMet(types: Types, base: Cache, e: TypeId, ids: seq<TypeId>, y: TypeId)
    requires Closed(types) && y < |types| && y !in base && y != e && Met(types, base, e, ids, y)
    ensures AllMet(types, base, e, ids, Children(types[y].def))
  {
    var some, past := Children(types[y].def), base.Keys + {e};
    var c :| c in ids && Reaches(types, past, c, y);
    forall i | 0 <= i < |some|
      ensures Met(types, base, e, ids, some[i])
    {
      if some[i] !in past {
        ReachesChild(types, past, c, y, some[i]);
      }
    }
  }

  /** At the start: the gate visited on the left alone. */
  lemma AheadAtStart(tw: Digest, types: Types, base: Cache, e: TypeId)
    requires Closed(types) && e < |types| && Correct(tw, types, base, Visit(tw, types, e, base).1)
    ensures Near(tw, types, base, e, Visit(tw, types, e, base).1, base)
  {
    VisitCachesReachable(tw, types, e, base);
  }

  lemma AllIdsClosed(types: Types, base: Cache)
    requires Closed(types)
    ensures RegionClosed(types, base, AllIds(types))
  {
    forall x, y | x in AllIds(types) && x !in base && Edge(types, x, y)
      ensures y in AllIds(types)
    {
      assert InRange(types, Children(types[x].def));
    }
  }

  lemma VisitedIsCorrect(tw: Digest, types: Types, base: Cache, ids: seq<TypeId>)
    requires Closed(types) && InRange(types, ids)
    ensures Correct(tw, types, base, base) && Correct(tw, types, base, VisitAll(tw, types, ids, base).1)
  {
    AllIdsClosed(types, base);
    VisitAllAlike(tw, types, base, AllIds(types), ids, base, base);
  }

  lemma GateIsCorrect(tw: Digest, types: Types, base: Cache, e: TypeId)
    requires Closed(types) && e < |types|
    ensures Correct(tw, types, base, base) && Correct(tw, types, base, Visit(tw, types, e, base).1)
  {
    AllIdsClosed(types, base);
    VisitAlike(tw, types, base, AllIds(types), e, base, base);
  }

  lemma AheadAfterInsert(
      tw: Digest, types: Types, base: Cache, e: TypeId, left: Cache, right: Cache, y: TypeId, entry: CachedHash)
    requires Closed(types) && e < |types| && Near(tw, types, base, e, left, right)
    requires y !in base && !Unfolds(types, base.Keys, y, |types|) && !Reaches(types, base.Keys, e, y)
    ensures Near(tw, types, base, e, left[y := entry], right[y := entry])
  {
    hide Visit, Unfolds, Reaches, CorrectBelow;
    CorrectAfterInsert(tw, types, base, left, y, entry);
    CorrectAfterInsert(tw, types, base, right, y, entry);
  }

  /** The gate's own visit meets the same as from the base. */
  lemma GateVisitedLater(tw: Digest, types: Types, base: Cache, e: TypeId, left: Cache, right: Cache)
    requires Closed(types) && e < |types| && e !in base
    requires Correct(tw, types, base, right) && Ahead(tw, types, base, e, left, right)
    ensures
      var (h, visited) := Visit(tw, types, e, base);
      var (h', after) := Visit(tw, types, e, right);
      h == h' && Correct(tw, types, base, after) && Alike(types, base, Region(types, base, e), after, visited)
  {
    hide Visit, Unfolds;
    GateOnItself(types, base, e);
    RegionIsClosed(types, base, e);
    GateIsCorrect(tw, types, base, e);
    assert Alike(types, base, Region(types, base, e), right, base);
    VisitAlike(tw, types, base, Region(types, base, e), e, right, base);
  }

  /** So the right cache catches up with the left one. */
  lemma CatchesUp(tw: Digest, types: Types, base: Cache, e: TypeId, left: Cache, right: Cache, after: Cache)
    requires Closed(types) && e < |types| && KeepsBase(base, right) && Ahead(tw, types, base, e, left, right)
    requires Alike(types, base, Region(types, base, e), after, Visit(tw, types, e, base).1)
    requires after == Visit(tw, types, e, right).1
    ensures Alike(types, base, AllIds(types), left, after)
  {
    hide Visit, Unfolds;
    VisitExtends(tw, types, e, right);
    assert base.Keys <= right.Keys;
    forall x | x in AllIds(types) && x !in base && !Unfolds(types, base.Keys, x, |types|)
      ensures (x in left <==> x in after) && (x in left ==> left[x] == after[x])
    {
      if Reaches(types, base.Keys, e, x) {
        assert x in Region(types, base, e);
      } else if x in after && x !in right {
        VisitAddsReached(tw, types, e, right, x);
        AvoidLess(types, right.Keys, base.Keys, e, x);
      }
    }
  }

  /** Meeting the gate: on the right it is visited now, with the result it has on the left. */
  lemma VisitGate(tw: Digest, types: Types, base: Cache, e: TypeId, left: Cache, right: Cache)
    requires Closed(types) && e < |types| && e !in base && !Unfolds(types, base.Keys, e, |types|)
    requires Correct(tw, types, base, left) && Correct(tw, types, base, right)
    requires Ahead(tw, types, base, e, left, right)
    ensures
      var (h, left') := Visit(tw, types, e, left);
      var (h', right') := Visit(tw, types, e, right);
      h == h' && Near(tw, types, base, e, left', right')
  {
    hide Visit, Unfolds;
    GateOnItself(types, base, e);
    assert e in left && left[e] == Visit(tw, types, e, base).1[e];
    GateIsCached(tw, types, base, e, left);
    GateVisitedLater(tw, types, base, e, left, right);
    CatchesUp(tw, types, base, e, left, right, Visit(tw, types, e, right).1);
  }

  lemma GateOnItself(types: Types, base: Cache, e: TypeId)
    requires e < |types| && e !in base
    ensures Reaches(types, base.Keys, e, e)
  {
    assert Connects(types, base.Keys, [e], e, e);
  }

  lemma GateIsCached(tw: Digest, types: Types, base: Cache, e: TypeId, left: Cache)
    requires Closed(types) && e < |types| && e in left && e in Visit(tw, types, e, base).1
    requires left[e] == Visit(tw, types, e, base).1[e]
    ensures Visit(tw, types, e, left) == (Visit(tw, types, e, base).0, left)
  {
  }

  lemma AheadAfterAcyclic(
      tw: Digest, types: Types, base: Cache, e: TypeId, left: Cache, right: Cache, left': Cache, right': Cache)
    requires Closed(types) && e < |types| && Ahead(tw, types, base, e, left, right)
    requires Extends(left, left') && AddsCorrect(tw, types, base, left, left', |types|)
    requires Extends(right, right') && AddsCorrect(tw, types, base, right, right', |types|)
    ensures Ahead(tw, types, base, e, left', right')
  {
    hide Visit, Unfolds, Reaches;
  }

  lemma VisitAheadAcyclic(
      tw: Digest, types: Types, base: Cache, e: TypeId, y: TypeId, left: Cache, right: Cache)
    requires Closed(types) && e < |types| && y < |types| && Unfolds(types, base.Keys, y, |types|)
    requires Correct(tw, types, base, left) && Correct(tw, types, base, right)
    requires Ahead(tw, types, base, e, left, right)
    ensures
      var (h, left') := Visit(tw, types, y, left);
      var (h', right') := Visit(tw, types, y, right);
      h == h' && Near(tw, types, base, e, left', right')
  {
    hide Visit, Unfolds, StructuralHash, Ahead;
    VisitIsStructural(tw, types, base, y, |types|, left);
    VisitIsStructural(tw, types, base, y, |types|, right);
    VisitExtends(tw, types, y, left);
    VisitExtends(tw, types, y, right);
    AheadAfterAcyclic(tw, types, base, e, left, right, Visit(tw, types, y, left).1, Visit(tw, types, y, right).1);
  }

  lemma VisitAlikeAnywhere(tw: Digest, types: Types, base: Cache, e: TypeId, y: TypeId, left: Cache, right: Cache)
    requires Closed(types) && e < |types| && y < |types|
    requires Correct(tw, types, base, left) && Correct(tw, types, base, right)
    requires Alike(types, base, AllIds(types), left, right)
    ensures
      var (h, left') := Visit(tw, types, y, left);
      var (h', right') := Visit(tw, types, y, right);
      h == h' && Near(tw, types, base, e, left', right')
  {
    hide Visit, Unfolds;
    AllIdsClosed(types, base);
    VisitAlike(tw, types, base, AllIds(types), y, left, right);
  }

  /** A type behind which a cycle lies, met past the gate, is out of the gate's reach. */
  lemma MetIsBefore(types: Types, stop: set<TypeId>, base: Cache, e: TypeId, ids: seq<TypeId>, y: TypeId)
    requires Closed(types) && Gate(types, stop, ids, e) && stop <= base.Keys
    requires y < |types| && y !in base && y != e && Met(types, base, e, ids, y)
    requires !Unfolds(types, base.Keys, y, |types|)
    ensures !Reaches(types, base.Keys, e, y)
  {
    var c :| c in ids && Reaches(types, base.Keys + {e}, c, y);
    if Reaches(types, base.Keys, e, y) {
      GateLater(types, stop, base.Keys, ids, e, c, y);
    }
  }

  /** Whether or not the gate was visited before, what can be met gets the same hash. */
  lemma {:induction false} VisitNear(
      tw: Digest, types: Types, stop: set<TypeId>, base: Cache, e: TypeId, ids: seq<TypeId>, y: TypeId,
      left: Cache, right: Cache)
    requires Closed(types) && Gate(types, stop, ids, e) && stop <= base.Keys && e !in base
    requires y < |types| && Met(types, base, e, ids, y) && Near(tw, types, base, e, left, right)
    ensures
      var (h, left') := Visit(tw, types, y, left);
      var (h', right') := Visit(tw, types, y, right);
      h == h' && Near(tw, types, base, e, left', right')
    decreases AllIds(types) - left.Keys, 0, 0
  {
    assert e < |types|;
    hide Unfolds, Gate, Met, Ahead, Alike, CorrectBelow, Combine, VisitAll;
    if Alike(types, base, AllIds(types), left, right) {
      VisitAlikeAnywhere(tw, types, base, e, y, left, right);
    } else if Unfolds(types, base.Keys, y, |types|) {
      VisitAheadAcyclic(tw, types, base, e, y, left, right);
    } else if y == e {
      VisitGate(tw, types, base, e, left, right);
    } else if y in base {
      KeepsBoth(tw, types, base, left, right, y);
    } else {
      MetIsBefore(types, stop, base, e, ids, y);
      AheadAt(tw, types, base, e, left, right, y);
      if y !in left {
        var some, started, started' := Children(types[y].def), left[y := Recursive], right[y := Recursive];
        assert y in AllIds(types) - left.Keys && y !in AllIds(types) - started.Keys;
        AheadAfterInsert(tw, types, base, e, left, right, y, Recursive);
        ChildrenMet(types, base, e, ids, y);
        VisitAllNear(tw, types, stop, base, e, ids, some, started, started');
        var (hs, filled) := VisitAll(tw, types, some, started);
        var filled' := VisitAll(tw, types, some, started').1;
        AheadAfterInsert(tw, types, base, e, filled, filled', y, Done(Combine(tw, types[y].def, hs)));
      }
    }
  }

  lemma KeepsBoth(tw: Digest, types: Types, base: Cache, left: Cache, right: Cache, y: TypeId)
    requires Correct(tw, types, base, left) && Correct(tw, types, base, right) && y in base
    ensures y in left && y in right && left[y] == right[y]
  {
  }

  lemma AheadAt(tw: Digest, types: Types, base: Cache, e: TypeId, left: Cache, right: Cache, y: TypeId)
    requires Closed(types) && e < |types| && y < |types| && Ahead(tw, types, base, e, left, right)
    requires y !in base && !Unfolds(types, base.Keys, y, |types|) && !Reaches(types, base.Keys, e, y)
    ensures (y in left <==> y in right) && (y in left ==> left[y] == right[y])
  {
  }

  lemma {:induction false} VisitAllNear(
      tw: Digest, types: Types, stop: set<TypeId>, base: Cache, e: TypeId, ids: seq<TypeId>, some: seq<TypeId>,
      left: Cache, right: Cache)
    requires Closed(types) && Gate(types, stop, ids, e) && stop <= base.Keys && e !in base
    requires InRange(types, some) && AllMet(types, base, e, ids, some) && Near(tw, types, base, e, left, right)
    ensures
      var (hs, left') := VisitAll(tw, types, some, left);
      var (hs', right') := VisitAll(tw, types, some, right);
      hs == hs' && Near(tw, types, base, e, left', right')
    decreases AllIds(types) - left.Keys, 1, |some|
  {
    hide Visit, Unfolds, Gate, Met, Near;
    if some != [] {
      var n := |some| - 1;
      VisitAllNear(tw, types, stop, base, e, ids, some[..n], left, right);
      var before := VisitAll(tw, types, some[..n], left).1;
      assert AllIds(types) - before.Keys == AllIds(types) - left.Keys
          || AllIds(types) - before.Keys < AllIds(types) - left.Keys;
      VisitNear(tw, types, stop, base, e, ids, some[n], before, VisitAll(tw, types, some[..n], right).1);
    }
  }

  /** What the first cache holds past the base, for types with a cycle ahead, the second does too. */
  ghost predicate LeavesNoMore(types: Types, base: Cache, after: Cache, after': Cache) {
    forall x :: x in after && x < |types| && x !in base && !Unfolds(types, base.Keys, x, |types|) ==>
      x in after' && after'[x] == after[x]
  }

  lemma NearLeavesNoMore(tw: Digest, types: Types, base: Cache, e: TypeId, left: Cache, right: Cache)
    requires Closed(types) && e < |types| && Near(tw, types, base, e, left, right)
    ensures LeavesNoMore(types, base, right, left)
  {
    hide Visit, Unfolds, Reaches;
  }

  /** Visiting a gate first changes no hash of the children, and what they leave they leave
      after it too. */
  lemma VisitGateFirst(
      tw: Digest, types: Types, stop: set<TypeId>, base: Cache, e: TypeId, ids: seq<TypeId>, some: seq<TypeId>)
    requires Closed(types) && InRange(types, some) && Gate(types, stop, ids, e) && stop <= base.Keys
    requires forall y :: y in some ==> y in ids
    ensures
      var (hs, after) := VisitAll(tw, types, some, base);
      var (hs', after') := VisitAll(tw, types, some, Visit(tw, types, e, base).1);
      hs == hs' && LeavesNoMore(types, base, after, after')
  {
    hide VisitAll, Unfolds, Near;
    if e !in base {
      GateIsCorrect(tw, types, base, e);
      AheadAtStart(tw, types, base, e);
      InitiallyMet(types, base, e, ids, some);
      VisitAllNear(tw, types, stop, base, e, ids, some, Visit(tw, types, e, base).1, base);
      NearLeavesNoMore(tw, types, base, e, VisitAll(tw, types, some, Visit(tw, types, e, base).1).1,
                       VisitAll(tw, types, some, base).1);
    }
  }

  lemma InitiallyMet(types: Types, base: Cache, e: TypeId, ids: seq<TypeId>, some: seq<TypeId>)
    requires InRange(types, some) && forall y :: y in some ==> y in ids
    ensures AllMet(types, base, e, ids, some)
  {
    var past := base.Keys + {e};
    forall i | 0 <= i < |some|
      ensures Met(types, base, e, ids, some[i])
    {
      var c := some[i];
      assert c in some;
      if c !in past {
        assert Connects(types, past, [c], c, c);
      }
    }
  }

  // ---- any order ----

  /** The same children in any order: each gets the same hash, and the same cache is left. */
  ghost predicate OrderFree(tw: Digest, types: Types, base: Cache, ids: seq<TypeId>, ids': seq<TypeId>)
    requires Closed(types) && InRange(types, ids) && InRange(types, ids')
  {
    var (hs, after) := VisitAll(tw, types, ids, base);
    var (hs', after') := VisitAll(tw, types, ids', base);
    && after == after'
    && forall i, j :: 0 <= i < |ids| && 0 <= j < |ids'| && ids[i] == ids'[j] ==> hs[i] == hs'[j]
  }

  /** Two caches left by the same children agree if all they leave is in a third one too. */
  lemma SameCache(
      tw: Digest, types: Types, base: Cache, ids: seq<TypeId>, ids': seq<TypeId>, both: Cache)
    requires Closed(types) && InRange(types, ids) && InRange(types, ids') && forall y :: y in ids <==> y in ids'
    requires LeavesNoMore(types, base, VisitAll(tw, types, ids, base).1, both)
    requires LeavesNoMore(types, base, VisitAll(tw, types, ids', base).1, both)
    ensures VisitAll(tw, types, ids, base).1 == VisitAll(tw, types, ids', base).1
  {
    hide VisitAll, Unfolds, StructuralHash;
    var after, after' := VisitAll(tw, types, ids, base).1, VisitAll(tw, types, ids', base).1;
    VisitedIsCorrect(tw, types, base, ids);
    VisitedIsCorrect(tw, types, base, ids');
    VisitAllExtends(tw, types, ids, base);
    forall x
      ensures x in after <==> x in after'
      ensures x in after ==> after[x] == after'[x]
    {
      if x in after {
        SameKeysInAnyOrder(tw, types, base, ids, ids', x);
        assert EntryCorrect(tw, types, base, after, x, |types|) && EntryCorrect(tw, types, base, after', x, |types|);
      } else if x in after' {
        SameKeysInAnyOrder(tw, types, base, ids', ids, x);
      }
    }
    assert after == after';
  }

  /** Main result: behind gates, cycles may be shared. */
  lemma {:induction false} AnyOrderGated(
      tw: Digest, types: Types, stop: set<TypeId>, base: Cache, ids: seq<TypeId>, ids': seq<TypeId>,
      gates: seq<TypeId>)
    requires Closed(types) && InRange(types, ids) && InRange(types, ids') && stop <= base.Keys
    requires Gated(types, stop, ids, gates) && forall y :: y in ids <==> y in ids'
    ensures OrderFree(tw, types, base, ids, ids')
    decreases gates
  {
    if gates == [] {
      AnyOrder(tw, types, stop, base, ids, ids');
    } else {
      hide VisitAll, Gate, LeavesNoMore;
      var e := gates[0];
      var visited := Visit(tw, types, e, base).1;
      AnyOrderGated(tw, types, stop + {e}, visited, ids, ids', gates[1..]);
      VisitGateFirst(tw, types, stop, base, e, ids, ids);
      VisitGateFirst(tw, types, stop, base, e, ids, ids');
      SameCache(tw, types, base, ids, ids', VisitAll(tw, types, ids, visited).1);
    }
  }
}
