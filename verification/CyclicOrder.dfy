/** Field order can matter when two fields share a cycle: a concrete registry whose hash, for
    every digest and field names, is the same in both orders exactly when one equation between
    two digests holds, and a digest for which it does not. The first field entered decides which
    type of the cycle is met while it is still marked `Recursive`. `FieldOrder.TypeHashReordered`
    says when this cannot happen, and a second registry shows that sharing a cycle alone is
    harmless. */
module CyclicOrder {
  import opened CycleGates
  import opened DefViews
  import opened FieldOrder
  import opened Hashes
  import opened Options
  import opened Reachability
  import opened Registry
  import opened Structure
  import opened TypeHashing
  import opened TypeHasher

  const FIRST: Field := Field(Some([0]), 1)
  const SECOND: Field := Field(Some([1]), 2)

  /** A structure with two fields whose types 1 and 2 refer to each other. */
  function Example(fields: seq<Field>): Types {
    [Type([], [], Composite(fields)),
     Type([], [], Composite([Field(Some([0]), 2)])),
     Type([], [], Composite([Field(Some([0]), 1)]))]
  }

  lemma ExampleClosed(fields: seq<Field>)
    requires forall i :: 0 <= i < |fields| ==> fields[i].ty < 3
    ensures Closed(Example(fields))
  {
  }

  /** The hash of type 1 or 2, given the hash of the other. */
  function Link(tw: Digest, other: Hash): Hash {
    ConcatHash(tw, [Repeat(COMPOSITE), FieldHash(tw, Some([0]), other)])
  }

  /** The type of the cycle that is entered second meets the placeholder for the first. */
  function Inner(tw: Digest): Hash {
    Link(tw, Repeat(123))
  }

  function Outer(tw: Digest): Hash {
    Link(tw, Inner(tw))
  }

  lemma CombineOne(tw: Digest, a: Field, x: Hash)
    ensures Combine(tw, Composite([a]), [x]) == ConcatHash(tw, [Repeat(COMPOSITE), FieldHash(tw, a.name, x)])
  {
    var h := FieldHash(tw, a.name, x);
    assert FieldHashes(tw, [a], [x]) == [h];
    assert [h][..0] == [] && XorFold([h]) == Xor(XorFold([]), h) == h;
  }

  lemma FoldTwo(a: Hash, b: Hash)
    ensures XorFold([a, b]) == Xor(a, b)
  {
    assert [a, b][..1] == [a] && [a][..0] == [];
    assert Xor(Zero(), a) == a;
    assert XorFold([a]) == Xor(XorFold([]), a);
  }

  lemma CombineTwo(tw: Digest, a: Field, b: Field, x: Hash, y: Hash)
    ensures Combine(tw, Composite([a, b]), [x, y])
         == ConcatHash(tw, [Repeat(COMPOSITE), Xor(FieldHash(tw, a.name, x), FieldHash(tw, b.name, y))])
  {
    assert FieldHashes(tw, [a, b], [x, y]) == [FieldHash(tw, a.name, x), FieldHash(tw, b.name, y)];
    FoldTwo(FieldHash(tw, a.name, x), FieldHash(tw, b.name, y));
  }

  lemma VisitOneChild(tw: Digest, types: Types, id: TypeId, child: TypeId, cache: Cache)
    requires Closed(types) && id < |types| && id !in cache && Children(types[id].def) == [child]
    ensures child < |types|
    ensures
      var (h, c) := Visit(tw, types, child, cache[id := Recursive]);
      Visit(tw, types, id, cache) == (Combine(tw, types[id].def, [h]), c[id := Done(Combine(tw, types[id].def, [h]))])
  {
    assert Children(types[id].def)[0] == child;
    VisitAllOne(tw, types, child, cache[id := Recursive]);
  }

  lemma VisitTwoChildren(tw: Digest, types: Types, id: TypeId, a: TypeId, b: TypeId, cache: Cache)
    requires Closed(types) && id < |types| && id !in cache && Children(types[id].def) == [a, b]
    ensures a < |types| && b < |types|
    ensures
      var (ha, ca) := Visit(tw, types, a, cache[id := Recursive]);
      Visit(tw, types, id, cache).0 == Combine(tw, types[id].def, [ha, Visit(tw, types, b, ca).0])
  {
    assert Children(types[id].def)[0] == a && Children(types[id].def)[1] == b;
    VisitAllTwo(tw, types, a, b, cache[id := Recursive]);
  }

  /** Entering the cycle at `x`: `x` gets the outer hash and its partner `y` the inner one. */
  lemma EnterCycle(tw: Digest, fields: seq<Field>, x: TypeId, y: TypeId, cache: Cache)
    requires Closed(Example(fields)) && ((x == 1 && y == 2) || (x == 2 && y == 1))
    requires x !in cache && y !in cache
    ensures Visit(tw, Example(fields), x, cache)
         == (Outer(tw), cache[x := Recursive][y := Recursive][y := Done(Inner(tw))][x := Done(Outer(tw))])
  {
    hide Link;
    var types, c := Example(fields), cache[x := Recursive];
    assert Children(types[y].def) == [x] && Children(types[x].def) == [y];
    VisitOneChild(tw, types, y, x, c);
    LinkIsCombine(tw, x, Repeat(123));
    VisitOneChild(tw, types, x, y, cache);
    LinkIsCombine(tw, y, Inner(tw));
  }

  lemma LinkIsCombine(tw: Digest, id: TypeId, h: Hash)
    ensures Combine(tw, Composite([Field(Some([0]), id)]), [h]) == Link(tw, h)
  {
    CombineOne(tw, Field(Some([0]), id), h);
  }

  /** After that, a visit of `y` finds the inner hash in the cache. */
  lemma MeetCycle(tw: Digest, fields: seq<Field>, x: TypeId, y: TypeId, cache: Cache)
    requires Closed(Example(fields)) && ((x == 1 && y == 2) || (x == 2 && y == 1))
    requires x !in cache && y !in cache
    ensures
      var (h, c) := Visit(tw, Example(fields), x, cache);
      h == Outer(tw) && Visit(tw, Example(fields), y, c).0 == Inner(tw)
  {
    EnterCycle(tw, fields, x, y, cache);
  }

  /** What is hashed last: the field that comes first has the outer hash. */
  function RootInput(tw: Digest, first: Field, second: Field): Bytes {
    Flatten([Repeat(COMPOSITE), Xor(FieldHash(tw, first.name, Outer(tw)), FieldHash(tw, second.name, Inner(tw)))])
  }

  lemma HashOfExample(tw: Digest, a: Field, b: Field)
    requires (a.ty == 1 && b.ty == 2) || (a.ty == 2 && b.ty == 1)
    ensures Closed(Example([a, b]))
    ensures TypeHash(tw, Example([a, b]), 0) == tw(RootInput(tw, a, b))
  {
    hide Visit;
    var types := Example([a, b]);
    ExampleClosed([a, b]);
    assert Children(types[0].def) == [a.ty, b.ty];
    VisitTwoChildren(tw, types, 0, a.ty, b.ty, map[]);
    MeetCycle(tw, [a, b], a.ty, b.ty, map[][0 := Recursive]);
    CombineTwo(tw, a, b, Outer(tw), Inner(tw));
  }

  /** For every digest: the order of the two fields is irrelevant exactly when these two inputs
      have the same digest. */
  lemma OrderIrrelevantExactlyWhen(tw: Digest, name: Option<Name>, name': Option<Name>)
    ensures
      var a, b := Field(name, 1), Field(name', 2);
      && Closed(Example([a, b])) && Closed(Example([b, a]))
      && (TypeHash(tw, Example([a, b]), 0) == TypeHash(tw, Example([b, a]), 0)
          <==> tw(RootInput(tw, a, b)) == tw(RootInput(tw, b, a)))
  {
    HashOfExample(tw, Field(name, 1), Field(name', 2));
    HashOfExample(tw, Field(name', 2), Field(name, 1));
  }

  /** Type 0 reaches a cycle. */
  lemma ExampleIsCyclic(fields: seq<Field>)
    requires FieldIds(fields) == [1, 2]
    ensures !Acyclic(Example(fields), 0)
  {
    var types, p := Example(fields), [0, 1, 2, 1];
    ExampleEdges(fields);
    assert IsPath(types, {}, p) && p[1] == p[3];
  }

  /** No gates shut that cycle off: past one of its types it is entered at the other. */
  lemma {:induction false} ExampleHasNoGates(fields: seq<Field>, gates: seq<TypeId>)
    requires FieldIds(fields) == [1, 2]
    ensures !Gated(Example(fields), {0}, [1, 2], gates)
    decreases gates
  {
    hide AcyclicPast;
    var types := Example(fields);
    ExampleEdges(fields);
    CycleHasNoEnd(fields);
    assert Connects(types, {0}, [1], 1, 1) && Connects(types, {0}, [2, 1], 2, 1) && Connects(types, {0}, [1, 2], 1, 2);
    assert 1 in [1, 2] && 2 in [1, 2];
    if gates != [] {
      var e := gates[0];
      if e == 0 {
        assert {0} + {e} == {0};
        ExampleHasNoGates(fields, gates[1..]);
      } else if e == 1 {
        assert Connects(types, {0} + {e}, [2], 2, 2);
      } else if e == 2 {
        assert Connects(types, {0} + {e}, [1], 1, 1);
      }
    }
  }

  lemma CycleHasNoEnd(fields: seq<Field>)
    requires FieldIds(fields) == [1, 2]
    ensures !AcyclicPast(Example(fields), {0}, 1) && !AcyclicPast(Example(fields), {0}, 2)
  {
    var types, p, q := Example(fields), [1, 2, 1], [2, 1, 2];
    ExampleEdges(fields);
    assert IsPath(types, {0}, p) && p[0] == p[2];
    assert IsPath(types, {0}, q) && q[0] == q[2];
  }

  lemma ExampleEdges(fields: seq<Field>)
    requires FieldIds(fields) == [1, 2]
    ensures
      var types := Example(fields);
      Edge(types, 0, 1) && Edge(types, 1, 2) && Edge(types, 2, 1)
  {
    var types := Example(fields);
    assert Children(types[0].def)[0] == 1 && Children(types[1].def)[0] == 2 && Children(types[2].def)[0] == 1;
  }

  /** Having gates is not necessary: under one name the order of the two fields never matters. */
  lemma EqualNamesInAnyOrder(tw: Digest, name: Option<Name>)
    ensures
      var a, b := Field(name, 1), Field(name, 2);
      && (forall gates :: !Gated(Example([a, b]), {0}, [1, 2], gates))
      && Closed(Example([a, b])) && Closed(Example([b, a]))
      && TypeHash(tw, Example([a, b]), 0) == TypeHash(tw, Example([b, a]), 0)
  {
    hide TypeHash, Gated;
    var a, b := Field(name, 1), Field(name, 2);
    assert FieldIds([a, b]) == [1, 2];
    forall gates
      ensures !Gated(Example([a, b]), {0}, [1, 2], gates)
    {
      ExampleHasNoGates([a, b], gates);
    }
    OrderIrrelevantExactlyWhen(tw, name, name);
  }

  // ---- a digest for which they differ ----

  /** Mixes the first bytes of the two halves of a 64-byte input. */
  function Mixer(): Digest {
    (data: Bytes) =>
      if |data| == 64 then Repeat(Mix(data[0], data[32]))
      else if |data| == 1 then Repeat(data[0])
      else Zero()
  }

  function Mix(p: bv8, q: bv8): bv8 {
    if p == 0 then q + 1 else q
  }

  lemma MixerOfTwo(p: bv8, q: bv8)
    ensures ConcatHash(Mixer(), [Repeat(p), Repeat(q)]) == Repeat(Mix(p, q))
    ensures Mixer()(Flatten([Repeat(p), Repeat(q)])) == Repeat(Mix(p, q))
  {
    var a: Bytes, b: Bytes := Repeat(p), Repeat(q);
    assert [Repeat(p), Repeat(q)][..1] == [Repeat(p)] && [Repeat(p)][..0] == [];
    assert Flatten([Repeat(p)]) == [] + a == a;
    assert Flatten([Repeat(p), Repeat(q)]) == a + b;
  }

  lemma LinkOfRepeat(q: bv8)
    ensures Link(Mixer(), Repeat(q)) == Repeat(q + 2)
  {
    MixerOfTwo(0, q);
    MixerOfTwo(COMPOSITE, q + 1);
  }

  lemma RootInputOfMixer(a: Field, b: Field, na: bv8, nb: bv8)
    requires a.name == Some([na]) && b.name == Some([nb])
    ensures Mixer()(RootInput(Mixer(), a, b)) == Repeat(Mix(0, Mix(na, 127) ^ Mix(nb, 125)))
  {
    LinkOfRepeat(123);
    LinkOfRepeat(125);
    MixerOfTwo(na, 127);
    MixerOfTwo(nb, 125);
    var p, q := Mix(na, 127), Mix(nb, 125);
    assert Xor(Repeat(p), Repeat(q)) == Repeat(p ^ q);
    MixerOfTwo(COMPOSITE, p ^ q);
  }

  /** Swapping the two fields of type 0 changes its hash. */
  lemma FieldOrderMattersOnCycles()
    ensures Closed(Example([FIRST, SECOND])) && Closed(Example([SECOND, FIRST]))
    ensures multiset([FIRST, SECOND]) == multiset([SECOND, FIRST])
    ensures TypeHash(Mixer(), Example([FIRST, SECOND]), 0) != TypeHash(Mixer(), Example([SECOND, FIRST]), 0)
  {
    hide TypeHash, RootInput, Mixer;
    OrderIrrelevantExactlyWhen(Mixer(), FIRST.name, SECOND.name);
    RootInputOfMixer(FIRST, SECOND, 0, 1);
    RootInputOfMixer(SECOND, FIRST, 1, 0);
    assert Repeat(254)[0] != Repeat(2)[0];
  }

  // ---- two fields that wrap one recursive type ----

  const WRAPPED: Field := Field(None, 3)

  /** Types 1 and 2 each wrap type 3, which refers to itself. */
  function Wrappers(fields: seq<Field>): Types {
    [Type([], [], Composite(fields)),
     Type([], [], Composite([WRAPPED])),
     Type([], [], Composite([WRAPPED])),
     Type([], [], Sequence(3))]
  }

  lemma {:induction false} OnlyItself(fields: seq<Field>, p: seq<TypeId>)
    requires IsPath(Wrappers(fields), {0}, p) && p[0] == 3
    ensures p[|p| - 1] == 3
    decreases |p|
  {
    if |p| > 1 {
      OnlyItself(fields, p[..|p| - 1]);
      assert Edge(Wrappers(fields), p[|p| - 2], p[|p| - 1]);
    }
  }

  /** Types 1 and 2 are on no cycle, so that 3 is. */
  lemma CyclesAreAtThree(fields: seq<Field>, y: TypeId)
    requires FieldIds(fields) == [1, 2] && OnCycle(Wrappers(fields), {0}, y)
    ensures y == 3
  {
    var next :| Edge(Wrappers(fields), y, next) && Reaches(Wrappers(fields), {0}, next, y);
    var p: seq<TypeId> :| Connects(Wrappers(fields), {0}, p, next, y);
    assert next == 3;
    OnlyItself(fields, p);
  }

  lemma WrappersEnteredOnce(fields: seq<Field>)
    requires FieldIds(fields) == [1, 2]
    ensures EnteredOnce(Wrappers(fields), {0}, [1, 2])
  {
    hide OnCycle, Shared, Entry, IsPath;
    var types := Wrappers(fields);
    forall y, z | SharedEntry(types, {0}, [1, 2], y) && Mutual(types, {0}, y, z)
      ensures y == z
    {
      CyclesAreAtThree(fields, y);
      var q: seq<TypeId> :| Connects(types, {0}, q, y, z);
      OnlyItself(fields, q);
    }
  }

  lemma WrappersReordered()
    ensures Reordered(Composite([FIRST, SECOND]), Composite([SECOND, FIRST]))
    ensures Reorder(Wrappers([FIRST, SECOND]), 0, Composite([SECOND, FIRST])) == Wrappers([SECOND, FIRST])
  {
    SwappedKeys();
  }

  lemma SwappedKeys()
    ensures multiset(FieldKeys([FIRST, SECOND], FieldIds([FIRST, SECOND])))
         == multiset(FieldKeys([SECOND, FIRST], FieldIds([SECOND, FIRST])))
  {
    var keys: seq<FieldKey<TypeId>> := FieldKeys([FIRST, SECOND], FieldIds([FIRST, SECOND]));
    var keys': seq<FieldKey<TypeId>> := FieldKeys([SECOND, FIRST], FieldIds([SECOND, FIRST]));
    assert keys == [keys[0]] + [keys[1]] && keys' == [keys[1]] + [keys[0]];
  }

  /** They share a cycle, and still their order never matters. */
  lemma WrappersInAnyOrder(tw: Digest)
    ensures Closed(Wrappers([FIRST, SECOND])) && Closed(Wrappers([SECOND, FIRST]))
    ensures TypeHash(tw, Wrappers([FIRST, SECOND]), 0) == TypeHash(tw, Wrappers([SECOND, FIRST]), 0)
  {
    hide TypeHash, EnteredOnce;
    var types := Wrappers([FIRST, SECOND]);
    WrappersEnteredOnce([FIRST, SECOND]);
    WrappersReordered();
    assert Children(types[0].def) == [1, 2];
    TypeHashReorderedOnce(tw, types, 0, Composite([SECOND, FIRST]), 0);
  }
}
