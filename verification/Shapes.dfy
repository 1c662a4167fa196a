/** The shape of an acyclic type: its unfolding, without ids, with composite fields, variants and
    variant fields as multisets. The hash depends on the shape alone. */
module Shapes {
  import opened DefViews
  import opened Hashes
  import opened Registry
  import opened Structure
  import opened TypeHashing

  datatype Shape = Shape(view: DefView<Shape>)

  const NO_BASE: Cache := map[]

  ghost function ShapeOf(types: Types, id: TypeId, n: nat): Shape
    requires Unfolds(types, NO_BASE.Keys, id, n)
    decreases n
  {
    var ids := Children(types[id].def);
    assert AllUnfold(types, NO_BASE.Keys, ids, n - 1);
    Shape(ViewDef(types[id].def, seq(|ids|, i requires 0 <= i < |ids| => ShapeOf(types, ids[i], n - 1))))
  }

  ghost function ShapesOf(types: Types, ids: seq<TypeId>, n: nat): (shapes: seq<Shape>)
    requires AllUnfold(types, NO_BASE.Keys, ids, n)
    ensures |shapes| == |ids|
  {
    seq(|ids|, i requires 0 <= i < |ids| => ShapeOf(types, ids[i], n))
  }

  lemma {:induction false} ShapeUnfolded(types: Types, id: TypeId, n: nat)
    requires Unfolds(types, NO_BASE.Keys, id, n)
    ensures n > 0 && AllUnfold(types, NO_BASE.Keys, Children(types[id].def), n - 1)
    ensures ShapeOf(types, id, n) == Shape(ViewDef(types[id].def, ShapesOf(types, Children(types[id].def), n - 1)))
  {
    var ids := Children(types[id].def);
    assert seq(|ids|, i requires 0 <= i < |ids| => ShapeOf(types, ids[i], n - 1)) == ShapesOf(types, ids, n - 1);
  }

  /** The structural hash is a function of the shape. */
  lemma {:induction false} StructuralHashByShape(tw: Digest, types: Types, id: TypeId, n: nat,
                                                 types': Types, id': TypeId, n': nat)
    requires Unfolds(types, NO_BASE.Keys, id, n) && Unfolds(types', NO_BASE.Keys, id', n')
    requires ShapeOf(types, id, n) == ShapeOf(types', id', n')
    ensures StructuralHash(tw, types, NO_BASE, id, n) == StructuralHash(tw, types', NO_BASE, id', n')
    decreases n
  {
    ShapeUnfolded(types, id, n);
    ShapeUnfolded(types', id', n');
    StructuralHashUnfolded(tw, types, NO_BASE, id, n);
    StructuralHashUnfolded(tw, types', NO_BASE, id', n');
    var ids, ids' := Children(types[id].def), Children(types'[id'].def);
    var shapes, shapes' := ShapesOf(types, ids, n - 1), ShapesOf(types', ids', n' - 1);
    var hs := StructuralHashes(tw, types, NO_BASE, ids, n - 1);
    var hs' := StructuralHashes(tw, types', NO_BASE, ids', n' - 1);
    forall i, j | 0 <= i < |shapes| && 0 <= j < |shapes'| && shapes[i] == shapes'[j]
      ensures hs[i] == hs'[j]
    {
      StructuralHashByShape(tw, types, ids[i], n - 1, types', ids'[j], n' - 1);
    }
    CombineByView(tw, types[id].def, shapes, hs, types'[id'].def, shapes', hs');
  }

  /** The shape of a type from which no cycle can be reached. */
  ghost function AcyclicShape(types: Types, id: TypeId): Shape
    requires Closed(types) && id < |types| && Acyclic(types, id)
  {
    AcyclicIffUnfolds(types, {}, id);
    assert NO_BASE.Keys == {};
    ShapeOf(types, id, |types|)
  }

  /** Main result: two acyclic types of the same shape, in whatever registries and under
      whatever ids, have the same hash; reordering fields or variants at any depth, or
      sharing or duplicating type entries, cannot change it. */
  lemma TypeHashByShape(tw: Digest, types: Types, id: TypeId, types': Types, id': TypeId)
    requires Closed(types) && id < |types| && Acyclic(types, id)
    requires Closed(types') && id' < |types'| && Acyclic(types', id')
    requires AcyclicShape(types, id) == AcyclicShape(types', id')
    ensures TypeHash(tw, types, id) == TypeHash(tw, types', id')
  {
    AcyclicIffUnfolds(types, {}, id);
    AcyclicIffUnfolds(types', {}, id');
    assert NO_BASE.Keys == {};
    VisitIsStructural(tw, types, NO_BASE, id, |types|, NO_BASE);
    VisitIsStructural(tw, types', NO_BASE, id', |types'|, NO_BASE);
    StructuralHashByShape(tw, types, id, |types|, types', id', |types'|);
  }

  /** Hashing an acyclic type from scratch never takes the placeholder for a hash. */
  lemma TypeHashReadsNoPlaceholder(tw: Digest, types: Types, id: TypeId)
    requires Closed(types) && id < |types| && Acyclic(types, id)
    ensures PlaceholderReads(tw, types, id, NO_BASE) == 0
  {
    AcyclicIffUnfolds(types, {}, id);
    assert NO_BASE.Keys == {};
    NoPlaceholderRead(tw, types, NO_BASE, id, |types|, NO_BASE);
  }
}
