/** The recursive hashing procedures, which share one mutable cache, proved equal to the
    functions of module TypeHashing. */
module TypeHasher {
  import opened Hashes
  import opened Registry
  import opened TypeHashing

  class HashCache {
    var entries: Cache
    /** How often a definition was hashed (`get_type_def_hash`). */
    ghost var expansions: nat
    /** How often the placeholder of an entry marked `Recursive` was taken for a hash. */
    ghost var placeholderReads: nat

    constructor ()
      ensures entries == map[] && expansions == 0 && placeholderReads == 0
    {
      entries := map[];
      expansions := 0;
      placeholderReads := 0;
    }

    /** One more expansion for each key that was added since `before`. */
    ghost predicate ExpandedOncePerKey(before: Cache, count: nat)
      reads this
    {
      expansions - count == |entries.Keys| - |before.Keys|
    }
  }

  /** The decreasing set of every procedure below: ids that are not cached yet. */
  ghost function Unvisited(types: Types, cache: Cache): set<TypeId> {
    AllIds(types) - cache.Keys
  }

  lemma UnvisitedShrinks(types: Types, before: Cache, after: Cache)
    requires before.Keys <= after.Keys
    ensures Unvisited(types, after) == Unvisited(types, before) || Unvisited(types, after) < Unvisited(types, before)
  {
  }

  method GetTypeHash(tw: Digest, types: Types, id: TypeId) returns (h: Hash)
    requires Closed(types) && id < |types|
    ensures h == TypeHash(tw, types, id)
  {
    var cache := new HashCache();
    h := GetTypeHashRecurse(tw, types, id, cache);
  }

  method GetTypeHashRecurse(tw: Digest, types: Types, id: TypeId, cache: HashCache) returns (h: Hash)
    requires Closed(types) && id < |types|
    modifies cache
    ensures (h, cache.entries) == Visit(tw, types, id, old(cache.entries))
    ensures cache.ExpandedOncePerKey(old(cache.entries), old(cache.expansions))
    ensures cache.placeholderReads == old(cache.placeholderReads) + PlaceholderReads(tw, types, id, old(cache.entries))
    decreases Unvisited(types, cache.entries), 0
  {
    if id in cache.entries {
      if cache.entries[id].Recursive? {
        cache.placeholderReads := cache.placeholderReads + 1;
      }
      return cache.entries[id].Value();
    }
    ghost var before := cache.entries;
    cache.entries := cache.entries[id := Recursive];
    assert cache.entries.Keys == before.Keys + {id};
    assert id in Unvisited(types, before) && id !in Unvisited(types, cache.entries);
    ghost var ids := Children(types[id].def);
    ghost var (hs, c) := VisitAll(tw, types, ids, cache.entries);
    h := GetTypeDefHash(tw, types, types[id].def, cache);
    assert cache.entries.Keys == (cache.entries[id := Done(h)]).Keys;
    cache.entries := cache.entries[id := Done(h)];
  }

  method GetTypeDefHash(tw: Digest, types: Types, def: TypeDef, cache: HashCache) returns (h: Hash)
    requires Closed(types) && InRange(types, Children(def))
    modifies cache
    ensures h == Combine(tw, def, VisitAll(tw, types, Children(def), old(cache.entries)).0)
    ensures cache.entries == VisitAll(tw, types, Children(def), old(cache.entries)).1
    ensures cache.ExpandedOncePerKey(old(cache.entries), old(cache.expansions) + 1)
    ensures cache.placeholderReads == old(cache.placeholderReads)
      + AllPlaceholderReads(tw, types, Children(def), old(cache.entries))
    decreases Unvisited(types, cache.entries), 5
  {
    hide Visit, VisitAll, PlaceholderReads, AllPlaceholderReads, Closed, FieldIds, VariantIds;
    hide ConcatHash, FieldHashes, VariantHashes, XorFold, TupleHash, ArrayTag, PrimitiveCode, Repeat;
    assert forall k :: 0 <= k < |Children(def)| ==> Children(def)[k] < |types|;
    cache.expansions := cache.expansions + 1;
    match def
    case Composite(fields) =>
      var bytes := FoldFieldHashes(tw, types, fields, cache);
      h := ConcatHash(tw, [Repeat(COMPOSITE), bytes]);
    case Variants(variants) =>
      h := GetTypeDefVariantHash(tw, types, variants, cache);
    case Sequence(param) =>
      assert Children(def) == [param] && Children(def)[0] == param;
      var p := GetElementHash(tw, types, param, cache);
      h := ConcatHash(tw, [Repeat(SEQUENCE), p]);
    case Array(len, param) =>
      assert Children(def) == [param] && Children(def)[0] == param;
      var p := GetElementHash(tw, types, param, cache);
      h := ConcatHash(tw, [ArrayTag(len), p]);
    case Tuple(ids) =>
      h := FoldTupleHashes(tw, types, ids, cache);
    case Prim(p) =>
      VisitNone(tw, types, cache.entries);
      h := tw([PRIMITIVE, PrimitiveCode(p)]);
    case Compact(param) =>
      assert Children(def) == [param] && Children(def)[0] == param;
      var p := GetElementHash(tw, types, param, cache);
      h := ConcatHash(tw, [Repeat(COMPACT), p]);
    case BitSequence(order, store) =>
      assert Children(def) == [order, store] && Children(def)[0] == order && Children(def)[1] == store;
      var o, s := GetOrderAndStoreHash(tw, types, order, store, cache);
      h := ConcatHash(tw, [Repeat(BIT_SEQUENCE), o, s]);
  }

  /** The one child of a sequence, an array or a compact. */
  method GetElementHash(tw: Digest, types: Types, param: TypeId, cache: HashCache) returns (h: Hash)
    requires Closed(types) && param < |types|
    modifies cache
    ensures ([h], cache.entries) == VisitAll(tw, types, [param], old(cache.entries))
    ensures cache.ExpandedOncePerKey(old(cache.entries), old(cache.expansions))
    ensures cache.placeholderReads
         == old(cache.placeholderReads) + AllPlaceholderReads(tw, types, [param], old(cache.entries))
    decreases Unvisited(types, cache.entries), 1
  {
    hide Visit, VisitAll;
    VisitAllOne(tw, types, param, cache.entries);
    h := GetTypeHashRecurse(tw, types, param, cache);
  }

  /** The two children of a bit sequence. */
  method GetOrderAndStoreHash(tw: Digest, types: Types, order: TypeId, store: TypeId, cache: HashCache)
    returns (o: Hash, s: Hash)
    requires Closed(types) && order < |types| && store < |types|
    modifies cache
    ensures ([o, s], cache.entries) == VisitAll(tw, types, [order, store], old(cache.entries))
    ensures cache.ExpandedOncePerKey(old(cache.entries), old(cache.expansions))
    ensures cache.placeholderReads
         == old(cache.placeholderReads) + AllPlaceholderReads(tw, types, [order, store], old(cache.entries))
    decreases Unvisited(types, cache.entries), 1
  {
    hide Visit, VisitAll;
    ghost var start := cache.entries;
    VisitAllTwo(tw, types, order, store, start);
    o := GetTypeHashRecurse(tw, types, order, cache);
    UnvisitedShrinks(types, start, cache.entries);
    s := GetTypeHashRecurse(tw, types, store, cache);
  }

  lemma VisitNone(tw: Digest, types: Types, cache: Cache)
    requires Closed(types)
    ensures VisitAll(tw, types, [], cache) == ([], cache) && AllPlaceholderReads(tw, types, [], cache) == 0
  {
  }

  lemma VisitAllOne(tw: Digest, types: Types, id: TypeId, cache: Cache)
    requires Closed(types) && id < |types|
    ensures var (h, c) := Visit(tw, types, id, cache); VisitAll(tw, types, [id], cache) == ([h], c)
    ensures AllPlaceholderReads(tw, types, [id], cache) == PlaceholderReads(tw, types, id, cache)
  {
    var (h, c) := Visit(tw, types, id, cache);
    assert VisitAll(tw, types, [id][..0], cache) == ([], cache);
    assert [] + [h] == [h];
  }

  lemma VisitAllTwo(tw: Digest, types: Types, a: TypeId, b: TypeId, cache: Cache)
    requires Closed(types) && a < |types| && b < |types|
    ensures
      var (ha, ca) := Visit(tw, types, a, cache);
      var (hb, cb) := Visit(tw, types, b, ca);
      && VisitAll(tw, types, [a, b], cache) == ([ha, hb], cb)
      && AllPlaceholderReads(tw, types, [a, b], cache)
         == PlaceholderReads(tw, types, a, cache) + PlaceholderReads(tw, types, b, ca)
  {
    var (ha, ca) := Visit(tw, types, a, cache);
    VisitAllOne(tw, types, a, cache);
    VisitAllOne(tw, types, b, ca);
    assert [ha] + [Visit(tw, types, b, ca).0] == [ha, Visit(tw, types, b, ca).0];
    assert [a] + [b] == [a, b];
    VisitAllAppend(tw, types, [a], [b], cache);
    AllPlaceholderReadsAppend(tw, types, [a], [b], cache);
  }

  /** Folding the hashes of a field list together with XOR. */
  method FoldFieldHashes(tw: Digest, types: Types, fields: seq<Field>, cache: HashCache) returns (bytes: Hash)
    requires Closed(types) && InRange(types, FieldIds(fields))
    modifies cache
    ensures bytes == XorFold(FieldHashes(tw, fields, VisitAll(tw, types, FieldIds(fields), old(cache.entries)).0))
    ensures cache.entries == VisitAll(tw, types, FieldIds(fields), old(cache.entries)).1
    ensures cache.ExpandedOncePerKey(old(cache.entries), old(cache.expansions))
    ensures cache.placeholderReads == old(cache.placeholderReads)
      + AllPlaceholderReads(tw, types, FieldIds(fields), old(cache.entries))
    decreases Unvisited(types, cache.entries), 2
  {
    ghost var start := cache.entries;
    ghost var ids := FieldIds(fields);
    bytes := Zero();
    for i := 0 to |fields|
      invariant cache.entries == VisitAll(tw, types, ids[..i], start).1
      invariant bytes == FoldOfFields(tw, types, fields, i, start)
      invariant cache.ExpandedOncePerKey(start, old(cache.expansions))
      invariant cache.placeholderReads
        == old(cache.placeholderReads) + AllPlaceholderReads(tw, types, ids[..i], start)
    {
      FieldFoldStep(tw, types, fields, i, start);
      UnvisitedShrinks(types, start, cache.entries);
      var f := GetFieldHash(tw, types, fields[i], cache);
      bytes := Xor(bytes, f);
    }
    assert fields[..|fields|] == fields && ids[..|fields|] == ids;
  }

  /** What the field loop has accumulated after the first `i` fields. */
  ghost function FoldOfFields(tw: Digest, types: Types, fields: seq<Field>, i: nat, start: Cache): Hash
    requires Closed(types) && InRange(types, FieldIds(fields)) && i <= |fields|
  {
    XorFold(FieldHashes(tw, fields[..i], VisitAll(tw, types, FieldIds(fields)[..i], start).0))
  }

  lemma FieldFoldStep(tw: Digest, types: Types, fields: seq<Field>, i: nat, start: Cache)
    requires Closed(types) && i < |fields| && InRange(types, FieldIds(fields))
    ensures fields[i].ty < |types|
    ensures
      var before := VisitAll(tw, types, FieldIds(fields)[..i], start).1;
      var (h, after) := Visit(tw, types, fields[i].ty, before);
      && VisitAll(tw, types, FieldIds(fields)[..i + 1], start).1 == after
      && AllPlaceholderReads(tw, types, FieldIds(fields)[..i + 1], start)
         == AllPlaceholderReads(tw, types, FieldIds(fields)[..i], start)
            + PlaceholderReads(tw, types, fields[i].ty, before)
      && FoldOfFields(tw, types, fields, i + 1, start)
         == Xor(FoldOfFields(tw, types, fields, i, start), FieldHash(tw, fields[i].name, h))
  {
    var ids := FieldIds(fields);
    assert ids[i] == fields[i].ty;
    assert ids[..i + 1][..i] == ids[..i];
    var (hs, before) := VisitAll(tw, types, ids[..i], start);
    var h := Visit(tw, types, ids[i], before).0;
    var hashes, f := FieldHashes(tw, fields[..i], hs), FieldHash(tw, fields[i].name, h);
    assert FieldHashes(tw, fields[..i + 1], hs + [h]) == hashes + [f];
    XorFoldSnoc(hashes, f);
  }

  method GetFieldHash(tw: Digest, types: Types, field: Field, cache: HashCache) returns (h: Hash)
    requires Closed(types) && field.ty < |types|
    modifies cache
    ensures h == FieldHash(tw, field.name, Visit(tw, types, field.ty, old(cache.entries)).0)
    ensures cache.entries == Visit(tw, types, field.ty, old(cache.entries)).1
    ensures cache.ExpandedOncePerKey(old(cache.entries), old(cache.expansions))
    ensures cache.placeholderReads == old(cache.placeholderReads)
      + PlaceholderReads(tw, types, field.ty, old(cache.entries))
    decreases Unvisited(types, cache.entries), 1
  {
    var nameBytes := match field.name case Some(name) => tw(name) case None => Zero();
    var typeHash := GetTypeHashRecurse(tw, types, field.ty, cache);
    h := ConcatHash(tw, [nameBytes, typeHash]);
  }

  method GetVariantHash(tw: Digest, types: Types, v: Variant, cache: HashCache) returns (h: Hash)
    requires Closed(types) && InRange(types, FieldIds(v.fields))
    modifies cache
    ensures h == VariantHash(tw, v, VisitAll(tw, types, FieldIds(v.fields), old(cache.entries)).0)
    ensures cache.entries == VisitAll(tw, types, FieldIds(v.fields), old(cache.entries)).1
    ensures cache.ExpandedOncePerKey(old(cache.entries), old(cache.expansions))
    ensures cache.placeholderReads == old(cache.placeholderReads)
      + AllPlaceholderReads(tw, types, FieldIds(v.fields), old(cache.entries))
    decreases Unvisited(types, cache.entries), 3
  {
    var bytes := FoldFieldHashes(tw, types, v.fields, cache);
    h := ConcatHash(tw, [tw(v.name), bytes]);
  }

  method GetTypeDefVariantHash(tw: Digest, types: Types, variants: seq<Variant>, cache: HashCache) returns (h: Hash)
    requires Closed(types) && InRange(types, VariantIds(variants))
    modifies cache
    ensures h == Combine(tw, Variants(variants), VisitAll(tw, types, VariantIds(variants), old(cache.entries)).0)
    ensures cache.entries == VisitAll(tw, types, VariantIds(variants), old(cache.entries)).1
    ensures cache.ExpandedOncePerKey(old(cache.entries), old(cache.expansions))
    ensures cache.placeholderReads == old(cache.placeholderReads)
      + AllPlaceholderReads(tw, types, VariantIds(variants), old(cache.entries))
    decreases Unvisited(types, cache.entries), 4
  {
    ghost var start := cache.entries;
    var bytes := Zero();
    for i := 0 to |variants|
      invariant InRange(types, VariantIds(variants[..i]))
      invariant cache.entries == VisitAll(tw, types, VariantIds(variants[..i]), start).1
      invariant bytes == FoldOfPrefix(tw, types, variants[..i], start)
      invariant cache.ExpandedOncePerKey(start, old(cache.expansions))
      invariant cache.placeholderReads
        == old(cache.placeholderReads) + AllPlaceholderReads(tw, types, VariantIds(variants[..i]), start)
    {
      VariantLoopStep(tw, types, variants, i, start);
      UnvisitedShrinks(types, start, cache.entries);
      var v := GetVariantHash(tw, types, variants[i], cache);
      bytes := Xor(bytes, v);
    }
    assert variants[..|variants|] == variants;
    h := ConcatHash(tw, [Repeat(VARIANT), bytes]);
  }

  /** What the variant loop has accumulated after the variants `prefix`. */
  ghost function FoldOfPrefix(tw: Digest, types: Types, prefix: seq<Variant>, start: Cache): Hash
    requires Closed(types) && InRange(types, VariantIds(prefix))
  {
    XorFold(VariantHashes(tw, prefix, VisitAll(tw, types, VariantIds(prefix), start).0))
  }

  lemma VariantFoldStep(tw: Digest, types: Types, prefix: seq<Variant>, v: Variant, start: Cache)
    requires Closed(types) && InRange(types, VariantIds(prefix)) && InRange(types, FieldIds(v.fields))
    requires InRange(types, VariantIds(prefix + [v]))
    ensures
      var before := VisitAll(tw, types, VariantIds(prefix), start).1;
      var (hv, after) := VisitAll(tw, types, FieldIds(v.fields), before);
      && VisitAll(tw, types, VariantIds(prefix + [v]), start).1 == after
      && AllPlaceholderReads(tw, types, VariantIds(prefix + [v]), start)
         == AllPlaceholderReads(tw, types, VariantIds(prefix), start)
            + AllPlaceholderReads(tw, types, FieldIds(v.fields), before)
      && FoldOfPrefix(tw, types, prefix + [v], start)
         == Xor(FoldOfPrefix(tw, types, prefix, start), VariantHash(tw, v, hv))
  {
    var ids, idsV := VariantIds(prefix), FieldIds(v.fields);
    var (hs, before) := VisitAll(tw, types, ids, start);
    var hv := VisitAll(tw, types, idsV, before).0;
    VisitAllAppend(tw, types, ids, idsV, start);
    VariantHashesSnoc(tw, prefix, v, hs, hv);
    AllPlaceholderReadsAppend(tw, types, ids, idsV, start);
    var hashes := VariantHashes(tw, prefix, hs);
    XorFoldSnoc(hashes, VariantHash(tw, v, hv));
  }

  lemma VariantLoopStep(tw: Digest, types: Types, variants: seq<Variant>, i: nat, start: Cache)
    requires Closed(types) && i < |variants| && InRange(types, VariantIds(variants))
    requires InRange(types, VariantIds(variants[..i]))
    ensures InRange(types, FieldIds(variants[i].fields)) && InRange(types, VariantIds(variants[..i + 1]))
    ensures
      var before := VisitAll(tw, types, VariantIds(variants[..i]), start).1;
      var (hv, after) := VisitAll(tw, types, FieldIds(variants[i].fields), before);
      && VisitAll(tw, types, VariantIds(variants[..i + 1]), start).1 == after
      && AllPlaceholderReads(tw, types, VariantIds(variants[..i + 1]), start)
         == AllPlaceholderReads(tw, types, VariantIds(variants[..i]), start)
            + AllPlaceholderReads(tw, types, FieldIds(variants[i].fields), before)
      && FoldOfPrefix(tw, types, variants[..i + 1], start)
         == Xor(FoldOfPrefix(tw, types, variants[..i], start), VariantHash(tw, variants[i], hv))
  {
    VariantIdsPrefix(variants, i);
    InRangeParts(types, VariantIds(variants[..i]), FieldIds(variants[i].fields), VariantIds(variants));
    assert variants[..i + 1] == variants[..i] + [variants[i]];
    VariantFoldStep(tw, types, variants[..i], variants[i], start);
  }

  lemma XorFoldSnoc(hashes: seq<Hash>, h: Hash)
    ensures XorFold(hashes + [h]) == Xor(XorFold(hashes), h)
  {
    assert (hashes + [h])[..|hashes|] == hashes;
  }

  lemma InRangeParts(types: Types, a: seq<TypeId>, b: seq<TypeId>, all: seq<TypeId>)
    requires InRange(types, all) && a + b <= all
    ensures InRange(types, a + b) && InRange(types, b)
  {
    assert forall k :: 0 <= k < |b| ==> b[k] == all[|a| + k];
    assert forall k :: 0 <= k < |a + b| ==> (a + b)[k] == all[k];
  }

  /** The ids of one variant, and of every prefix, are among the ids of the whole list. */
  lemma {:induction false} VariantIdsPrefix(variants: seq<Variant>, i: nat)
    requires i < |variants|
    ensures VariantIds(variants[..i + 1]) == VariantIds(variants[..i]) + FieldIds(variants[i].fields)
    ensures VariantIds(variants[..i + 1]) <= VariantIds(variants)
    decreases |variants| - i
  {
    assert variants[..i + 1][..i] == variants[..i];
    if i + 1 < |variants| {
      VariantIdsPrefix(variants, i + 1);
    } else {
      assert variants[..i + 1] == variants;
    }
  }

  lemma VariantHashesSnoc(tw: Digest, variants: seq<Variant>, v: Variant, hs: seq<Hash>, hv: seq<Hash>)
    requires |VariantIds(variants)| == |hs| && |v.fields| == |hv|
    ensures VariantIds(variants + [v]) == VariantIds(variants) + FieldIds(v.fields)
    ensures VariantHashes(tw, variants + [v], hs + hv) == VariantHashes(tw, variants, hs) + [VariantHash(tw, v, hv)]
  {
    assert (variants + [v])[..|variants|] == variants;
    assert (hs + hv)[..|hs|] == hs && (hs + hv)[|hs|..] == hv;
    assert Parts(variants + [v], hs + hv) == Parts(variants, hs) + [hv];
  }

  method FoldTupleHashes(tw: Digest, types: Types, ids: seq<TypeId>, cache: HashCache) returns (bytes: Hash)
    requires Closed(types) && InRange(types, ids)
    modifies cache
    ensures bytes == TupleHash(tw, VisitAll(tw, types, ids, old(cache.entries)).0)
    ensures cache.entries == VisitAll(tw, types, ids, old(cache.entries)).1
    ensures cache.ExpandedOncePerKey(old(cache.entries), old(cache.expansions))
    ensures cache.placeholderReads == old(cache.placeholderReads)
      + AllPlaceholderReads(tw, types, ids, old(cache.entries))
    decreases Unvisited(types, cache.entries), 2
  {
    hide Visit, PlaceholderReads, ConcatHash, Closed;
    ghost var start := cache.entries;
    bytes := tw([TUPLE]);
    ghost var hs: seq<Hash> := [];
    for i := 0 to |ids|
      invariant (hs, cache.entries) == VisitAll(tw, types, ids[..i], start)
      invariant bytes == TupleHash(tw, hs)
      invariant cache.ExpandedOncePerKey(start, old(cache.expansions))
      invariant cache.placeholderReads
        == old(cache.placeholderReads) + AllPlaceholderReads(tw, types, ids[..i], start)
    {
      UnvisitedShrinks(types, start, cache.entries);
      var f := GetTypeHashRecurse(tw, types, ids[i], cache);
      assert ids[..i + 1][..i] == ids[..i];
      bytes := ConcatHash(tw, [bytes, f]);
      assert (hs + [f])[..|hs|] == hs;
      hs := hs + [f];
    }
    assert ids[..|ids|] == ids;
  }
}
