/** Type ids do not matter: renumbering a registry by an injection, even one with cycles,
    leaves every type hash unchanged. */
module Renumbering {
  import opened Hashes
  import opened Lists
  import opened Registry
  import opened TypeHashing
  import opened TypeHasher

  function SeenFields(f: TypeId -> TypeId, fields: seq<Field>): (out: seq<Field>)
    ensures |out| == |fields|
  {
    seq(|fields|, i requires 0 <= i < |fields| => Field(fields[i].name, f(fields[i].ty)))
  }

  function SeenVariants(f: TypeId -> TypeId, variants: seq<Variant>): (out: seq<Variant>)
    ensures |out| == |variants|
  {
    seq(|variants|, i requires 0 <= i < |variants| =>
      Variant(variants[i].name, SeenFields(f, variants[i].fields), 0))
  }

  /** A definition as hashing sees it: ids passed through `f`, variant indexes dropped. */
  function Seen(f: TypeId -> TypeId, def: TypeDef): TypeDef {
    match def
    case Composite(fields) => Composite(SeenFields(f, fields))
    case Variants(variants) => Variants(SeenVariants(f, variants))
    case Sequence(param) => Sequence(f(param))
    case Array(len, param) => Array(len, f(param))
    case Tuple(ids) => Tuple(Map(f, ids))
    case Prim(p) => Prim(p)
    case Compact(param) => Compact(f(param))
    case BitSequence(order, store) => BitSequence(f(order), f(store))
  }

  function Identity(): TypeId -> TypeId {
    (id: TypeId) => id
  }

  ghost predicate Within(dom: set<TypeId>, ids: seq<TypeId>) {
    forall i :: 0 <= i < |ids| ==> ids[i] in dom
  }

  ghost predicate Injective(f: TypeId -> TypeId, dom: set<TypeId>) {
    forall a, b :: a in dom && b in dom && f(a) == f(b) ==> a == b
  }

  /** `dom` is a set of types of `types` that only refer to each other, and `types'` holds
      them at the renumbered positions with their ids renumbered. Everything else in either
      registry is arbitrary, and so are paths, docs and variant indexes. */
  ghost predicate Renumbers(f: TypeId -> TypeId, dom: set<TypeId>, types: Types, types': Types) {
    && Injective(f, dom)
    && forall id :: id in dom ==>
        && id < |types| && Within(dom, Children(types[id].def))
        && f(id) < |types'| && Seen(Identity(), types'[f(id)].def) == Seen(f, types[id].def)
  }

  /** The two caches hold the same entries at corresponding ids. */
  ghost predicate CachesAgree(f: TypeId -> TypeId, dom: set<TypeId>, cache: Cache, cache': Cache) {
    forall id :: id in dom ==>
      && (id in cache <==> f(id) in cache')
      && (id in cache ==> cache[id] == cache'[f(id)])
  }

  lemma {:induction false} SeenVariantIds(f: TypeId -> TypeId, variants: seq<Variant>)
    ensures VariantIds(SeenVariants(f, variants)) == Map(f, VariantIds(variants))
    decreases |variants|
  {
    if variants != [] {
      var n := |variants| - 1;
      SeenVariantIds(f, variants[..n]);
      assert SeenVariants(f, variants)[..n] == SeenVariants(f, variants[..n]);
      var fs := variants[n].fields;
      assert FieldIds(SeenFields(f, fs)) == Map(f, FieldIds(fs));
    }
  }

  lemma SeenChildren(f: TypeId -> TypeId, def: TypeDef)
    ensures Children(Seen(f, def)) == Map(f, Children(def))
  {
    match def
    case Variants(variants) => SeenVariantIds(f, variants);
    case _ =>
  }

  lemma {:induction false} SeenParts<T>(f: TypeId -> TypeId, variants: seq<Variant>, items: seq<T>)
    requires |VariantIds(variants)| == |items|
    ensures |VariantIds(SeenVariants(f, variants))| == |items|
    ensures Parts(SeenVariants(f, variants), items) == Parts(variants, items)
    decreases |variants|
  {
    SeenVariantIds(f, variants);
    if variants != [] {
      var n := |variants| - 1;
      SeenParts(f, variants[..n], items[..|items| - |variants[n].fields|]);
      assert SeenVariants(f, variants)[..n] == SeenVariants(f, variants[..n]);
    }
  }

  lemma SeenVariantHashes(tw: Digest, f: TypeId -> TypeId, variants: seq<Variant>, hs: seq<Hash>)
    requires |VariantIds(variants)| == |hs|
    ensures |VariantIds(SeenVariants(f, variants))| == |hs|
    ensures VariantHashes(tw, SeenVariants(f, variants), hs) == VariantHashes(tw, variants, hs)
  {
    SeenParts(f, variants, hs);
    forall i | 0 <= i < |variants|
      ensures VariantHashes(tw, SeenVariants(f, variants), hs)[i] == VariantHashes(tw, variants, hs)[i]
    {
      var fs, part := variants[i].fields, Parts(variants, hs)[i];
      assert FieldHashes(tw, SeenFields(f, fs), part) == FieldHashes(tw, fs, part);
    }
  }

  /** Combining child hashes never looks at ids or variant indexes. */
  lemma CombineIgnoresIds(tw: Digest, f: TypeId -> TypeId, def: TypeDef, hs: seq<Hash>)
    requires |hs| == |Children(def)|
    ensures |Children(Seen(f, def))| == |hs|
    ensures Combine(tw, Seen(f, def), hs) == Combine(tw, def, hs)
  {
    SeenChildren(f, def);
    match def
    case Composite(fields) =>
      assert FieldHashes(tw, SeenFields(f, fields), hs) == FieldHashes(tw, fields, hs);
    case Variants(variants) => SeenVariantHashes(tw, f, variants, hs);
    case _ =>
  }

  lemma RenamedInRange(f: TypeId -> TypeId, dom: set<TypeId>, types: Types, types': Types, ids: seq<TypeId>)
    requires Renumbers(f, dom, types, types') && Within(dom, ids)
    ensures InRange(types, ids) && InRange(types', Map(f, ids))
  {
  }

  lemma SeenAlike(tw: Digest, f: TypeId -> TypeId, def: TypeDef, def': TypeDef, hs: seq<Hash>)
    requires Seen(Identity(), def') == Seen(f, def) && |hs| == |Children(def)|
    ensures Children(def') == Map(f, Children(def))
    ensures Combine(tw, def', hs) == Combine(tw, def, hs)
  {
    SeenChildren(f, def);
    SeenChildren(Identity(), def');
    assert Map(Identity(), Children(def')) == Children(def');
    CombineIgnoresIds(tw, f, def, hs);
    CombineIgnoresIds(tw, Identity(), def', hs);
  }

  lemma AgreeAfterInsert(
      f: TypeId -> TypeId, dom: set<TypeId>, cache: Cache, cache': Cache, id: TypeId, entry: CachedHash)
    requires Injective(f, dom) && id in dom && CachesAgree(f, dom, cache, cache')
    ensures CachesAgree(f, dom, cache[id := entry], cache'[f(id) := entry])
  {
  }

  /** Simulation: from agreeing caches the two visits give the same hash and agreeing caches. */
  lemma {:induction false} VisitRenumbered(
      tw: Digest, f: TypeId -> TypeId, dom: set<TypeId>, types: Types, types': Types, id: TypeId, cache: Cache,
      cache': Cache)
    requires Closed(types) && Closed(types') && Renumbers(f, dom, types, types')
    requires id in dom && CachesAgree(f, dom, cache, cache')
    ensures
      var (h, c) := Visit(tw, types, id, cache);
      var (h', c') := Visit(tw, types', f(id), cache');
      h == h' && CachesAgree(f, dom, c, c')
    decreases AllIds(types) - cache.Keys, 0, 0
  {
    if id !in cache {
      var def, def' := types[id].def, types'[f(id)].def;
      var started, started' := cache[id := Recursive], cache'[f(id) := Recursive];
      assert id in AllIds(types) - cache.Keys && id !in AllIds(types) - started.Keys;
      AgreeAfterInsert(f, dom, cache, cache', id, Recursive);
      VisitAllRenumbered(tw, f, dom, types, types', Children(def), started, started');
      var (hs, filled) := VisitAll(tw, types, Children(def), started);
      SeenAlike(tw, f, def, def', hs);
      var filled' := VisitAll(tw, types', Children(def'), started').1;
      var h := Combine(tw, def, hs);
      AgreeAfterInsert(f, dom, filled, filled', id, Done(h));
      assert Visit(tw, types, id, cache) == (h, filled[id := Done(h)]);
      assert Visit(tw, types', f(id), cache') == (h, filled'[f(id) := Done(h)]);
    }
  }

  lemma {:induction false} VisitAllRenumbered(
      tw: Digest, f: TypeId -> TypeId, dom: set<TypeId>, types: Types, types': Types, ids: seq<TypeId>,
      cache: Cache, cache': Cache)
    requires Closed(types) && Closed(types') && Renumbers(f, dom, types, types')
    requires Within(dom, ids) && CachesAgree(f, dom, cache, cache')
    ensures InRange(types, ids) && InRange(types', Map(f, ids))
    ensures
      var (hs, c) := VisitAll(tw, types, ids, cache);
      var (hs', c') := VisitAll(tw, types', Map(f, ids), cache');
      hs == hs' && CachesAgree(f, dom, c, c')
    decreases AllIds(types) - cache.Keys, 1, |ids|
  {
    hide Visit, Renumbers, CachesAgree;
    RenamedInRange(f, dom, types, types', ids);
    if ids != [] {
      var n := |ids| - 1;
      VisitAllRenumbered(tw, f, dom, types, types', ids[..n], cache, cache');
      assert Map(f, ids)[..n] == Map(f, ids[..n]);
      var before := VisitAll(tw, types, ids[..n], cache).1;
      var before' := VisitAll(tw, types', Map(f, ids[..n]), cache').1;
      UnvisitedShrinks(types, cache, before);
      VisitRenumbered(tw, f, dom, types, types', ids[n], before, before');
    }
  }

  /** Main result: `get_type_hash` does not depend on how types are numbered, nor on paths,
      docs, or types that are not referred to. Holds for cyclic types too. */
  lemma TypeHashRenumbered(tw: Digest, f: TypeId -> TypeId, dom: set<TypeId>, types: Types, types': Types, id: TypeId)
    requires Closed(types) && Closed(types') && Renumbers(f, dom, types, types') && id in dom
    ensures TypeHash(tw, types, id) == TypeHash(tw, types', f(id))
  {
    VisitRenumbered(tw, f, dom, types, types', id, map[], map[]);
  }

  /** Pushing types onto a registry, as the conversion of old metadata does to add an outer
      error enum, changes no hash of a type that was there before. */
  lemma AppendingKeepsHashes(tw: Digest, types: Types, extra: Types, id: TypeId)
    requires Closed(types) && Closed(types + extra) && id < |types|
    ensures TypeHash(tw, types + extra, id) == TypeHash(tw, types, id)
  {
    var f := Identity();
    TypeHashRenumbered(tw, f, AllIds(types), types, types + extra, id);
  }
}
