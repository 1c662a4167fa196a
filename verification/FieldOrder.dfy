/** Reordering fields and variants in a registry with cycles. It is safe when the cycles that two
    different types the definition refers to share lie behind gates, as they do when each is
    entered, from outside it, at one type only. Paths through the reordered type itself do not
    count. */
module FieldOrder {
  import opened CycleGates
  import opened DefViews
  import opened GatedOrder
  import opened Hashes
  import opened Registry
  import opened TypeHashing

  // ---- definitions up to order ----

  /** The same definition up to the order of composite fields, variants and variant fields, and
      up to variant indexes. */
  ghost predicate Reordered(def: TypeDef, def': TypeDef) {
    ViewDef(def, Children(def)) == ViewDef(def', Children(def'))
  }

  /** Each id of a variant list stands in the part of some variant. */
  lemma {:induction false} InSomePart(variants: seq<Variant>, ids: seq<TypeId>, k: nat) returns (i: nat, m: nat)
    requires |VariantIds(variants)| == |ids| && k < |ids|
    ensures i < |variants| && m < |variants[i].fields| && Parts(variants, ids)[i][m] == ids[k]
    decreases |variants|
  {
    var n := |variants| - 1;
    var split := |ids| - |variants[n].fields|;
    if k < split {
      i, m := InSomePart(variants[..n], ids[..split], k);
    } else {
      i, m := n, k - split;
    }
  }

  lemma InFieldKeys(fields: seq<Field>, ids: seq<TypeId>, fields': seq<Field>, ids': seq<TypeId>, m: nat)
    requires |fields| == |ids| && |fields'| == |ids'| && m < |ids|
    requires multiset(FieldKeys(fields, ids)) == multiset(FieldKeys(fields', ids'))
    ensures exists m' :: 0 <= m' < |ids'| && ids'[m'] == ids[m]
  {
    var keys, keys' := FieldKeys(fields, ids), FieldKeys(fields', ids');
    assert keys[m] in multiset(keys');
    var m' :| 0 <= m' < |keys'| && keys'[m'] == keys[m];
    assert ids'[m'] == ids[m];
  }

  lemma ReorderedVariantIds(vs: seq<Variant>, ids: seq<TypeId>, vs': seq<Variant>, ids': seq<TypeId>, k: nat)
    requires |VariantIds(vs)| == |ids| && |VariantIds(vs')| == |ids'| && k < |ids|
    requires multiset(VariantKeys(vs, ids)) == multiset(VariantKeys(vs', ids'))
    ensures ids[k] in ids'
  {
    hide FieldKeys;
    var i, m := InSomePart(vs, ids, k);
    var keys, keys' := VariantKeys(vs, ids), VariantKeys(vs', ids');
    assert keys[i] in multiset(keys');
    var i' :| 0 <= i' < |keys'| && keys'[i'] == keys[i];
    var part, part' := Parts(vs, ids)[i], Parts(vs', ids')[i'];
    InFieldKeys(vs[i].fields, part, vs'[i'].fields, part', m);
    var m' :| 0 <= m' < |part'| && part'[m'] == ids[k];
    var q := PartsAligned(vs', ids', ids', i', m');
  }

  lemma ReorderedChildren(def: TypeDef, def': TypeDef, y: TypeId)
    requires Reordered(def, def') && y in Children(def)
    ensures y in Children(def')
  {
    hide FieldKeys, VariantKeys;
    var ids, ids' := Children(def), Children(def');
    var k :| 0 <= k < |ids| && ids[k] == y;
    match def
    case Composite(fields) => InFieldKeys(fields, ids, def'.fields, ids', k);
    case Variants(variants) => ReorderedVariantIds(variants, ids, def'.variants, ids', k);
    case _ =>
  }

  // ---- the reordered registry ----

  function Reorder(types: Types, id: TypeId, def: TypeDef): Types
    requires id < |types|
  {
    types[id := types[id].(def := def)]
  }

  /** As long as the changed type is cached, the change is not noticed. */
  lemma {:induction false} ChangeUnseen(tw: Digest, types: Types, id: TypeId, def: TypeDef, x: TypeId, cache: Cache)
    requires id < |types| && Closed(types) && Closed(Reorder(types, id, def)) && x < |types| && id in cache
    ensures Visit(tw, Reorder(types, id, def), x, cache) == Visit(tw, types, x, cache)
    decreases AllIds(types) - cache.Keys, 0, 0
  {
    if x !in cache {
      var started := cache[x := Recursive];
      assert x in AllIds(types) - cache.Keys && x !in AllIds(types) - started.Keys;
      ChangeUnseenByAll(tw, types, id, def, Children(types[x].def), started);
    }
  }

  lemma {:induction false} ChangeUnseenByAll(
      tw: Digest, types: Types, id: TypeId, def: TypeDef, ids: seq<TypeId>, cache: Cache)
    requires id < |types| && Closed(types) && Closed(Reorder(types, id, def)) && InRange(types, ids) && id in cache
    ensures VisitAll(tw, Reorder(types, id, def), ids, cache) == VisitAll(tw, types, ids, cache)
    decreases AllIds(types) - cache.Keys, 1, |ids|
  {
    if ids != [] {
      var n := |ids| - 1;
      ChangeUnseenByAll(tw, types, id, def, ids[..n], cache);
      var before := VisitAll(tw, types, ids[..n], cache).1;
      assert AllIds(types) - before.Keys == AllIds(types) - cache.Keys
          || AllIds(types) - before.Keys < AllIds(types) - cache.Keys;
      ChangeUnseen(tw, types, id, def, ids[n], before);
    }
  }

  lemma ReorderedAtRoot(
      tw: Digest, types: Types, id: TypeId, def: TypeDef, gates: seq<TypeId>, cache: Cache)
    requires id < |types| && Closed(types) && Closed(Reorder(types, id, def)) && id !in cache
    requires Reordered(types[id].def, def) && Gated(types, {id}, Children(types[id].def), gates)
    ensures Visit(tw, Reorder(types, id, def), id, cache) == Visit(tw, types, id, cache)
  {
    hide VisitAll, Gated;
    var types', base := Reorder(types, id, def), cache[id := Recursive];
    var ids, ids' := Children(types[id].def), Children(def);
    assert InRange(types', Children(types'[id].def));
    forall y
      ensures y in ids <==> y in ids'
    {
      if y in ids {
        ReorderedChildren(types[id].def, def, y);
      } else if y in ids' {
        ReorderedChildren(def, types[id].def, y);
      }
    }
    AnyOrderGated(tw, types, {id}, base, ids, ids', gates);
    ChangeUnseenByAll(tw, types, id, def, ids', base);
    var hs, hs' := VisitAll(tw, types, ids, base).0, VisitAll(tw, types, ids', base).0;
    CombineByView(tw, types[id].def, ids, hs, def, ids', hs');
  }

  /** Main result: the reordered registry gives every type the same hash, from every cache, and
      leaves the same cache, whether or not the type reaches a cycle. */
  lemma {:induction false} VisitReordered(
      tw: Digest, types: Types, id: TypeId, def: TypeDef, gates: seq<TypeId>, x: TypeId, cache: Cache)
    requires id < |types| && Closed(types) && Closed(Reorder(types, id, def)) && x < |types|
    requires Reordered(types[id].def, def) && Gated(types, {id}, Children(types[id].def), gates)
    ensures Visit(tw, Reorder(types, id, def), x, cache) == Visit(tw, types, x, cache)
    decreases AllIds(types) - cache.Keys, 0, 0
  {
    if x !in cache {
      if x == id {
        ReorderedAtRoot(tw, types, id, def, gates, cache);
      } else {
        var started := cache[x := Recursive];
        assert x in AllIds(types) - cache.Keys && x !in AllIds(types) - started.Keys;
        VisitAllReordered(tw, types, id, def, gates, Children(types[x].def), started);
      }
    }
  }

  lemma {:induction false} VisitAllReordered(
      tw: Digest, types: Types, id: TypeId, def: TypeDef, gates: seq<TypeId>, ids: seq<TypeId>, cache: Cache)
    requires id < |types| && Closed(types) && Closed(Reorder(types, id, def)) && InRange(types, ids)
    requires Reordered(types[id].def, def) && Gated(types, {id}, Children(types[id].def), gates)
    ensures VisitAll(tw, Reorder(types, id, def), ids, cache) == VisitAll(tw, types, ids, cache)
    decreases AllIds(types) - cache.Keys, 1, |ids|
  {
    hide Visit, Reordered, Gated, Reorder;
    if ids != [] {
      var n := |ids| - 1;
      VisitAllReordered(tw, types, id, def, gates, ids[..n], cache);
      var before := VisitAll(tw, types, ids[..n], cache).1;
      assert AllIds(types) - before.Keys == AllIds(types) - cache.Keys
          || AllIds(types) - before.Keys < AllIds(types) - cache.Keys;
      VisitReordered(tw, types, id, def, gates, ids[n], before);
    }
  }

  lemma ReorderClosed(types: Types, id: TypeId, def: TypeDef)
    requires id < |types| && Closed(types) && Reordered(types[id].def, def)
    ensures Closed(Reorder(types, id, def))
  {
    var types', ids := Reorder(types, id, def), Children(def);
    forall x | 0 <= x < |types'|
      ensures InRange(types', Children(types'[x].def))
    {
      assert InRange(types, Children(types[x].def));
      if x == id {
        forall i | 0 <= i < |ids|
          ensures ids[i] < |types'|
        {
          ReorderedChildren(def, types[id].def, ids[i]);
        }
      }
    }
  }

  /** Hence `get_type_hash` is the same for every type of the registry. */
  lemma TypeHashReordered(tw: Digest, types: Types, id: TypeId, def: TypeDef, gates: seq<TypeId>, x: TypeId)
    requires id < |types| && Closed(types) && x < |types|
    requires Reordered(types[id].def, def) && Gated(types, {id}, Children(types[id].def), gates)
    ensures Closed(Reorder(types, id, def))
    ensures TypeHash(tw, Reorder(types, id, def), x) == TypeHash(tw, types, x)
  {
    ReorderClosed(types, id, def);
    VisitReordered(tw, types, id, def, gates, x, map[]);
  }

  /** In particular if every cycle that two different children share is entered at one type. */
  lemma TypeHashReorderedOnce(tw: Digest, types: Types, id: TypeId, def: TypeDef, x: TypeId)
    requires id < |types| && Closed(types) && x < |types|
    requires Reordered(types[id].def, def) && EnteredOnce(types, {id}, Children(types[id].def))
    ensures Closed(Reorder(types, id, def))
    ensures TypeHash(tw, Reorder(types, id, def), x) == TypeHash(tw, types, x)
  {
    var gates := EnteredOnceIsGated(types, {id}, Children(types[id].def));
    TypeHashReordered(tw, types, id, def, gates, x);
  }
}
