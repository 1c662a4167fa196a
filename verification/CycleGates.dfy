/** Where the cycles that several children of a definition share can be entered. A gate is a type
    through which every way from the children to the cycles behind it leads. */
module CycleGates {
  import opened Reachability
  import opened Registry
  import opened Structure

  /** What two different ids of the list both reach, past `stop`, reaches no cycle past `stop`. */
  ghost predicate ShareOnlyAcyclic(types: Types, stop: set<TypeId>, ids: seq<TypeId>) {
    forall a, b, x :: a in ids && b in ids && a != b && Reaches(types, stop, a, x) && Reaches(types, stop, b, x) ==>
      AcyclicPast(types, stop, x)
  }

  /** Whatever `e` reaches and has a cycle ahead is reached from the list through `e` alone. */
  ghost predicate Gate(types: Types, stop: set<TypeId>, ids: seq<TypeId>, e: TypeId) {
    e < |types| &&
    forall c, x :: c in ids && Reaches(types, stop, e, x) && !AcyclicPast(types, stop, x) ==>
      !Reaches(types, stop + {e}, c, x)
  }

  /** One gate after the other, after which only acyclic types are shared. */
  ghost predicate Gated(types: Types, stop: set<TypeId>, ids: seq<TypeId>, gates: seq<TypeId>)
    decreases gates
  {
    if gates == [] then ShareOnlyAcyclic(types, stop, ids)
    else Gate(types, stop, ids, gates[0]) && Gated(types, stop + {gates[0]}, ids, gates[1..])
  }

  // ---- paths ----

  lemma ReachesThrough(types: Types, stop: set<TypeId>, a: TypeId, b: TypeId, c: TypeId)
    requires Reaches(types, stop, a, b) && Reaches(types, stop, b, c)
    ensures Reaches(types, stop, a, c)
  {
    var p: seq<TypeId> :| Connects(types, stop, p, a, b);
    var q: seq<TypeId> :| Connects(types, stop, q, b, c);
    var r := p + q[1..];
    forall i | 0 < i < |r|
      ensures Edge(types, r[i - 1], r[i])
    {
      if i >= |p| {
        assert r[i] == q[i - |p| + 1] && r[i - 1] == q[i - |p|];
      }
    }
    assert Connects(types, stop, r, a, c);
  }

  lemma Segment(types: Types, stop: set<TypeId>, p: seq<TypeId>, i: nat, j: nat)
    requires IsPath(types, stop, p) && i <= j < |p|
    ensures Reaches(types, stop, p[i], p[j])
  {
    var q := p[i..j + 1];
    forall k | 0 < k < |q|
      ensures Edge(types, q[k - 1], q[k])
    {
      assert Edge(types, p[i + k - 1], p[i + k]);
    }
    assert Connects(types, stop, q, p[i], p[j]);
  }

  lemma ReachesBoth(types: Types, stop: set<TypeId>, a: TypeId, b: TypeId)
    requires Reaches(types, stop, a, b)
    ensures a < |types| && b < |types| && a !in stop && b !in stop
    ensures Reaches(types, stop, a, a) && Reaches(types, stop, b, b)
  {
    var p: seq<TypeId> :| Connects(types, stop, p, a, b);
    Segment(types, stop, p, 0, 0);
    Segment(types, stop, p, |p| - 1, |p| - 1);
  }

  // ---- cycles and their entries ----

  ghost predicate Mutual(types: Types, stop: set<TypeId>, x: TypeId, y: TypeId) {
    Reaches(types, stop, x, y) && Reaches(types, stop, y, x)
  }

  ghost predicate OnCycle(types: Types, stop: set<TypeId>, x: TypeId) {
    exists y :: Edge(types, x, y) && Reaches(types, stop, y, x)
  }

  ghost predicate Reached(types: Types, stop: set<TypeId>, ids: seq<TypeId>, x: TypeId) {
    exists c :: c in ids && Reaches(types, stop, c, x)
  }

  ghost predicate Shared(types: Types, stop: set<TypeId>, ids: seq<TypeId>, x: TypeId) {
    exists a, b :: a in ids && b in ids && a != b && Reaches(types, stop, a, x) && Reaches(types, stop, b, x)
  }

  ghost predicate EntersFrom(types: Types, stop: set<TypeId>, ids: seq<TypeId>, w: TypeId, y: TypeId) {
    Reached(types, stop, ids, w) && Edge(types, w, y) && !Reaches(types, stop, y, w)
  }

  /** The type is one of the list, or referred to from a type outside its cycles. */
  ghost predicate Entry(types: Types, stop: set<TypeId>, ids: seq<TypeId>, y: TypeId) {
    y in ids || exists w :: EntersFrom(types, stop, ids, w, y)
  }

  ghost predicate SharedEntry(types: Types, stop: set<TypeId>, ids: seq<TypeId>, y: TypeId) {
    OnCycle(types, stop, y) && Shared(types, stop, ids, y) && Entry(types, stop, ids, y)
  }

  /** Every cycle that two different children share is entered, from outside it, at one type. */
  ghost predicate EnteredOnce(types: Types, stop: set<TypeId>, ids: seq<TypeId>) {
    forall y, z :: SharedEntry(types, stop, ids, y) && Entry(types, stop, ids, z) && Mutual(types, stop, y, z) ==>
      y == z
  }

  lemma MutualThrough(types: Types, stop: set<TypeId>, x: TypeId, y: TypeId, z: TypeId)
    requires Mutual(types, stop, x, y) && Mutual(types, stop, y, z)
    ensures Mutual(types, stop, x, z)
  {
    ReachesThrough(types, stop, x, y, z);
    ReachesThrough(types, stop, z, y, x);
  }

  lemma MutualOnCycle(types: Types, stop: set<TypeId>, x: TypeId, y: TypeId)
    requires Mutual(types, stop, x, y) && OnCycle(types, stop, x)
    ensures OnCycle(types, stop, y)
  {
    if x != y {
      var p: seq<TypeId> :| Connects(types, stop, p, y, x);
      Segment(types, stop, p, 1, |p| - 1);
      ReachesThrough(types, stop, p[1], x, y);
      assert Edge(types, p[0], p[1]);
    }
  }

  lemma ReachedAhead(types: Types, stop: set<TypeId>, ids: seq<TypeId>, x: TypeId, y: TypeId)
    requires Reached(types, stop, ids, x) && Reaches(types, stop, x, y)
    ensures Reached(types, stop, ids, y)
  {
    var c :| c in ids && Reaches(types, stop, c, x);
    ReachesThrough(types, stop, c, x, y);
  }

  lemma SharedAhead(types: Types, stop: set<TypeId>, ids: seq<TypeId>, x: TypeId, y: TypeId)
    requires Shared(types, stop, ids, x) && Reaches(types, stop, x, y)
    ensures Shared(types, stop, ids, y)
  {
    var a, b :| a in ids && b in ids && a != b && Reaches(types, stop, a, x) && Reaches(types, stop, b, x);
    ReachesThrough(types, stop, a, x, y);
    ReachesThrough(types, stop, b, x, y);
  }

  /** A type that is not acyclic reaches a type on a cycle. */
  lemma CycleAhead(types: Types, stop: set<TypeId>, x: TypeId) returns (z: TypeId)
    requires !AcyclicPast(types, stop, x)
    ensures Reaches(types, stop, x, z) && OnCycle(types, stop, z)
  {
    var p: seq<TypeId>, i, j :| IsPath(types, stop, p) && p[0] == x && 0 <= i < j < |p| && p[i] == p[j];
    z := p[i];
    Segment(types, stop, p, 0, i);
    Segment(types, stop, p, i + 1, j);
    assert Edge(types, p[i], p[i + 1]);
  }

  lemma OnCycleLess(types: Types, stop: set<TypeId>, stop': set<TypeId>, z: TypeId)
    requires OnCycle(types, stop, z) && stop' <= stop
    ensures OnCycle(types, stop', z)
  {
    var y :| Edge(types, z, y) && Reaches(types, stop, y, z);
    AvoidLess(types, stop, stop', y, z);
  }

  /** A path from outside into the cycles of its last type passes an entry of them. */
  lemma PathPassesEntry(types: Types, stop: set<TypeId>, ids: seq<TypeId>, p: seq<TypeId>) returns (i: nat)
    requires IsPath(types, stop, p)
    requires
      var w, x := p[0], p[|p| - 1];
      w in ids || (Reached(types, stop, ids, w) && !Reaches(types, stop, x, w))
    ensures i < |p| && Entry(types, stop, ids, p[i]) && Mutual(types, stop, p[i], p[|p| - 1])
  {
    var w, x := p[0], p[|p| - 1];
    i := FirstBack(types, stop, p);
    Segment(types, stop, p, i, |p| - 1);
    if i > 0 {
      Segment(types, stop, p, 0, i - 1);
      Segment(types, stop, p, 0, 0);
      assert Reached(types, stop, ids, w);
      ReachedAhead(types, stop, ids, w, p[i - 1]);
      if Reaches(types, stop, p[i], p[i - 1]) {
        ReachesThrough(types, stop, x, p[i], p[i - 1]);
      }
      assert Edge(types, p[i - 1], p[i]);
      assert EntersFrom(types, stop, ids, p[i - 1], p[i]);
    }
  }

  /** The first type on the path that its last type leads back to. */
  lemma FirstBack(types: Types, stop: set<TypeId>, p: seq<TypeId>) returns (i: nat)
    requires IsPath(types, stop, p)
    ensures i < |p| && Reaches(types, stop, p[|p| - 1], p[i])
    ensures forall k :: 0 <= k < i ==> !Reaches(types, stop, p[|p| - 1], p[k])
  {
    Segment(types, stop, p, |p| - 1, |p| - 1);
    i := 0;
    while !Reaches(types, stop, p[|p| - 1], p[i])
      invariant i < |p|
      invariant forall k :: 0 <= k < i ==> !Reaches(types, stop, p[|p| - 1], p[k])
      decreases |p| - i
    {
      i := i + 1;
    }
  }

  // ---- cycles that are entered once have gates ----

  ghost function SharedEntries(types: Types, stop: set<TypeId>, ids: seq<TypeId>): (entries: set<TypeId>)
    ensures forall y :: y in entries <==> y in AllIds(types) && SharedEntry(types, stop, ids, y)
  {
    set y | y in AllIds(types) && SharedEntry(types, stop, ids, y)
  }

  /** The entry of a shared cycle that a path from outside passes. */
  lemma PassesSharedEntry(types: Types, start: set<TypeId>, stop: set<TypeId>, ids: seq<TypeId>, w: TypeId, z: TypeId)
    returns (f: TypeId)
    requires start <= stop && Reaches(types, stop, w, z) && OnCycle(types, start, z) && Shared(types, start, ids, z)
    requires w in ids || (Reached(types, start, ids, w) && !Reaches(types, start, z, w))
    ensures f in SharedEntries(types, start, ids) && f !in stop
    ensures Mutual(types, start, f, z) && Reaches(types, start, w, f)
  {
    var p: seq<TypeId> :| Connects(types, stop, p, w, z);
    assert IsPath(types, start, p);
    var i := PathPassesEntry(types, start, ids, p);
    f := p[i];
    Segment(types, start, p, 0, i);
    MutualOnCycle(types, start, z, f);
    SharedAhead(types, start, ids, z, f);
  }

  /** An entry of a shared cycle is a gate, once the entries that it reaches are. */
  lemma EntryIsGate(types: Types, start: set<TypeId>, ids: seq<TypeId>, done: set<TypeId>, e: TypeId)
    requires EnteredOnce(types, start, ids) && e in SharedEntries(types, start, ids)
    requires forall f :: f in SharedEntries(types, start, ids) && f != e && Reaches(types, start, e, f) ==> f in done
    ensures Gate(types, start + done, ids, e)
  {
    var stop := start + done;
    forall c, x | c in ids && Reaches(types, stop, e, x) && !AcyclicPast(types, stop, x)
      ensures !Reaches(types, stop + {e}, c, x)
    {
      if Reaches(types, stop + {e}, c, x) {
        NoOtherWay(types, start, ids, done, e, c, x);
      }
    }
  }

  lemma NoOtherWay(
      types: Types, start: set<TypeId>, ids: seq<TypeId>, done: set<TypeId>, e: TypeId, c: TypeId, x: TypeId)
    requires EnteredOnce(types, start, ids) && e in SharedEntries(types, start, ids)
    requires forall f :: f in SharedEntries(types, start, ids) && f != e && Reaches(types, start, e, f) ==> f in done
    requires c in ids && Reaches(types, start + done, e, x) && !AcyclicPast(types, start + done, x)
    ensures !Reaches(types, start + done + {e}, c, x)
  {
    hide Reaches, Reached, Shared, OnCycle, Entry, AcyclicPast, EntersFrom;
    var stop := start + done;
    var z := CycleAhead(types, stop, x);
    ReachesThrough(types, stop, e, x, z);
    AvoidLess(types, stop, start, e, x);
    AvoidLess(types, stop, start, x, z);
    AvoidLess(types, stop, start, e, z);
    OnCycleLess(types, stop, start, z);
    SharedAhead(types, start, ids, e, z);
    if Reaches(types, start, z, e) {
      if Reaches(types, stop + {e}, c, x) {
        OnlyThroughEntry(types, start, stop + {e}, ids, e, c, x, z);
      }
    } else {
      EntryReached(types, start, ids, e);
      var f := PassesSharedEntry(types, start, stop, ids, e, z);
    }
  }

  lemma EntryReached(types: Types, stop: set<TypeId>, ids: seq<TypeId>, e: TypeId)
    requires Shared(types, stop, ids, e)
    ensures Reached(types, stop, ids, e)
  {
  }

  /** A type on the cycles of `e` cannot be reached past `e`. */
  lemma OnlyThroughEntry(
      types: Types, start: set<TypeId>, stop: set<TypeId>, ids: seq<TypeId>, e: TypeId, c: TypeId, x: TypeId, z: TypeId)
    requires EnteredOnce(types, start, ids) && e in SharedEntries(types, start, ids) && e in stop && start <= stop
    requires Reaches(types, start, e, x) && Reaches(types, start, x, z) && Reaches(types, start, z, e) && c in ids
    ensures !Reaches(types, stop, c, x)
  {
    if Reaches(types, stop, c, x) {
      ReachesThrough(types, start, x, z, e);
      MutualOnCycle(types, start, e, x);
      SharedAhead(types, start, ids, e, x);
      var f := PassesSharedEntry(types, start, stop, ids, c, x);
      MutualThrough(types, start, e, x, f);
    }
  }

  ghost function ConeOf(types: Types, stop: set<TypeId>, e: TypeId): (cone: set<TypeId>)
    ensures forall x :: x in cone <==> x in AllIds(types) && Reaches(types, stop, e, x)
  {
    set x | x in AllIds(types) && Reaches(types, stop, e, x)
  }

  /** Among some entries, one that reaches no other. */
  lemma MinimalEntry(types: Types, stop: set<TypeId>, ids: seq<TypeId>, rest: set<TypeId>, e: TypeId)
    returns (least: TypeId)
    requires EnteredOnce(types, stop, ids) && rest <= SharedEntries(types, stop, ids) && e in rest
    ensures least in rest && forall f :: f in rest && f != least ==> !Reaches(types, stop, least, f)
    decreases ConeOf(types, stop, e)
  {
    if f :| f in rest && f != e && Reaches(types, stop, e, f) {
      ConeShrinks(types, stop, ids, e, f);
      least := MinimalEntry(types, stop, ids, rest, f);
    } else {
      least := e;
    }
  }

  /** Two entries of shared cycles are not on a common cycle. */
  lemma EntriesApart(types: Types, stop: set<TypeId>, ids: seq<TypeId>, e: TypeId, f: TypeId)
    requires EnteredOnce(types, stop, ids) && f != e && Reaches(types, stop, e, f)
    requires e in SharedEntries(types, stop, ids) && f in SharedEntries(types, stop, ids)
    ensures !Reaches(types, stop, f, e)
  {
    assert SharedEntry(types, stop, ids, e) && Entry(types, stop, ids, f);
    assert Mutual(types, stop, e, f) <==> Reaches(types, stop, f, e);
  }

  lemma ConeShrinks(types: Types, stop: set<TypeId>, ids: seq<TypeId>, e: TypeId, f: TypeId)
    requires EnteredOnce(types, stop, ids) && f != e && Reaches(types, stop, e, f)
    requires e in SharedEntries(types, stop, ids) && f in SharedEntries(types, stop, ids)
    ensures ConeOf(types, stop, f) < ConeOf(types, stop, e)
  {
    ReachesBoth(types, stop, e, f);
    EntriesApart(types, stop, ids, e, f);
    forall x | x in ConeOf(types, stop, f)
      ensures x in ConeOf(types, stop, e)
    {
      ReachesThrough(types, stop, e, f, x);
    }
    assert e in ConeOf(types, stop, e) && e !in ConeOf(types, stop, f);
  }

  lemma EntriesShutCycles(types: Types, start: set<TypeId>, ids: seq<TypeId>)
    ensures ShareOnlyAcyclic(types, start + SharedEntries(types, start, ids), ids)
  {
    var stop := start + SharedEntries(types, start, ids);
    forall a, b, x | a in ids && b in ids && a != b && Reaches(types, stop, a, x) && Reaches(types, stop, b, x)
      ensures AcyclicPast(types, stop, x)
    {
      if !AcyclicPast(types, stop, x) {
        var z := CycleAhead(types, stop, x);
        ReachesThrough(types, stop, a, x, z);
        ReachesThrough(types, stop, b, x, z);
        AvoidLess(types, stop, start, a, z);
        AvoidLess(types, stop, start, b, z);
        OnCycleLess(types, stop, start, z);
        var f := PassesSharedEntry(types, start, stop, ids, a, z);
      }
    }
  }

  /** Cycles that are entered once have gates: their entries, those further ahead first. */
  lemma {:induction false} EntriesAreGates(
      types: Types, start: set<TypeId>, ids: seq<TypeId>, done: set<TypeId>, rest: set<TypeId>)
    returns (gates: seq<TypeId>)
    requires EnteredOnce(types, start, ids) && done + rest == SharedEntries(types, start, ids) && done !! rest
    requires forall e, f :: e in done && f in rest ==> !Reaches(types, start, e, f)
    ensures Gated(types, start + done, ids, gates)
    decreases rest
  {
    hide Reaches, Gate, ShareOnlyAcyclic, EnteredOnce, SharedEntry;
    if rest == {} {
      gates := [];
      assert done == SharedEntries(types, start, ids);
      EntriesShutCycles(types, start, ids);
    } else {
      var some :| some in rest;
      var e := MinimalEntry(types, start, ids, rest, some);
      EntryIsGate(types, start, ids, done, e);
      var more := EntriesAreGates(types, start, ids, done + {e}, rest - {e});
      assert start + (done + {e}) == start + done + {e};
      gates := [e] + more;
    }
  }

  lemma EnteredOnceIsGated(types: Types, stop: set<TypeId>, ids: seq<TypeId>) returns (gates: seq<TypeId>)
    requires EnteredOnce(types, stop, ids)
    ensures Gated(types, stop, ids, gates)
  {
    gates := EntriesAreGates(types, stop, ids, {}, SharedEntries(types, stop, ids));
    assert stop + {} == stop;
  }
}
