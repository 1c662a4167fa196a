/** What hashing a type means, as a function of the registry and the cache it starts from.

    The hash of a definition is a pure combination of the hashes of the types it refers to
    (`Combine`), and those are obtained one after the other while the two-stage cache is
    passed along (`Visit`, `VisitAll`). The recursive, cache-updating procedures of the
    source are proved equal to these functions in module TypeHasher. */
module TypeHashing {
  import opened Hashes
  import opened Options
  import opened Registry

  /** `Recursive`: hashing of the type has started and not finished. */
  datatype CachedHash = Recursive | Done(hash: Hash) {
    function Value(): Hash {
      match this
      case Done(h) => h
      case Recursive => Repeat(123)
    }
  }

  type Cache = map<TypeId, CachedHash>

  const COMPOSITE: bv8 := 0
  const VARIANT: bv8 := 1
  const SEQUENCE: bv8 := 2
  const ARRAY: bv8 := 3
  const TUPLE: bv8 := 4
  const PRIMITIVE: bv8 := 5
  const COMPACT: bv8 := 6
  const BIT_SEQUENCE: bv8 := 7

  function PrimitiveCode(p: Primitive): bv8 {
    match p
    case Bool => 0 case Char => 1 case Str => 2
    case U8 => 3 case U16 => 4 case U32 => 5 case U64 => 6 case U128 => 7 case U256 => 8
    case I8 => 9 case I16 => 10 case I32 => 11 case I64 => 12 case I128 => 13 case I256 => 14
  }

  /** The array tag followed by the length in big-endian order, padded with zeros. */
  function ArrayTag(len: bv32): Hash {
    [ARRAY, ((len >> 24) & 0xff) as bv8, ((len >> 16) & 0xff) as bv8,
     ((len >> 8) & 0xff) as bv8, (len & 0xff) as bv8] + seq(27, _ => 0 as bv8)
  }

  function NameHash(tw: Digest, name: Option<Name>): Hash {
    match name
    case Some(n) => tw(n)
    case None => Zero()
  }

  function FieldHash(tw: Digest, name: Option<Name>, typeHash: Hash): Hash {
    ConcatHash(tw, [NameHash(tw, name), typeHash])
  }

  function FieldHashes(tw: Digest, fields: seq<Field>, typeHashes: seq<Hash>): (hs: seq<Hash>)
    requires |fields| == |typeHashes|
    ensures |hs| == |fields|
  {
    seq(|fields|, i requires 0 <= i < |fields| => FieldHash(tw, fields[i].name, typeHashes[i]))
  }

  function VariantHash(tw: Digest, v: Variant, typeHashes: seq<Hash>): Hash
    requires |v.fields| == |typeHashes|
  {
    ConcatHash(tw, [tw(v.name), XorFold(FieldHashes(tw, v.fields, typeHashes))])
  }

  /** One hash per variant; `typeHashes` lists the field type hashes of all variants in order. */
  function VariantHashes(tw: Digest, variants: seq<Variant>, typeHashes: seq<Hash>): (hs: seq<Hash>)
    requires |VariantIds(variants)| == |typeHashes|
    ensures |hs| == |variants|
  {
    var parts := Parts(variants, typeHashes);
    seq(|variants|, i requires 0 <= i < |variants| => VariantHash(tw, variants[i], parts[i]))
  }

  function TupleHash(tw: Digest, typeHashes: seq<Hash>): Hash {
    if typeHashes == [] then tw([TUPLE])
    else ConcatHash(tw, [TupleHash(tw, typeHashes[..|typeHashes| - 1]), typeHashes[|typeHashes| - 1]])
  }

  /** The hash of a definition, given the hashes of `Children(def)`. */
  function Combine(tw: Digest, def: TypeDef, typeHashes: seq<Hash>): Hash
    requires |typeHashes| == |Children(def)|
  {
    match def
    case Composite(fields) =>
      ConcatHash(tw, [Repeat(COMPOSITE), XorFold(FieldHashes(tw, fields, typeHashes))])
    case Variants(variants) =>
      ConcatHash(tw, [Repeat(VARIANT), XorFold(VariantHashes(tw, variants, typeHashes))])
    case Sequence(_) => ConcatHash(tw, [Repeat(SEQUENCE), typeHashes[0]])
    case Array(len, _) => ConcatHash(tw, [ArrayTag(len), typeHashes[0]])
    case Tuple(_) => TupleHash(tw, typeHashes)
    case Prim(p) => tw([PRIMITIVE, PrimitiveCode(p)])
    case Compact(_) => ConcatHash(tw, [Repeat(COMPACT), typeHashes[0]])
    case BitSequence(_, _) => ConcatHash(tw, [Repeat(BIT_SEQUENCE), typeHashes[0], typeHashes[1]])
  }

  /** Hash one type, starting from `cache`. Terminates on cyclic registries because every
      uncached visit shrinks the set of ids not yet cached. */
  function Visit(tw: Digest, types: Types, id: TypeId, cache: Cache): (out: (Hash, Cache))
    requires Closed(types) && id < |types|
    ensures cache.Keys <= out.1.Keys && id in out.1
    decreases AllIds(types) - cache.Keys, 0, 0
  {
    if id in cache then (cache[id].Value(), cache)
    else
      var started := cache[id := Recursive];
      assert id in AllIds(types) - cache.Keys && id !in AllIds(types) - started.Keys;
      var (hs, filled) := VisitAll(tw, types, Children(types[id].def), started);
      var h := Combine(tw, types[id].def, hs);
      (h, filled[id := Done(h)])
  }

  /** Hash a list of types from left to right, passing the cache along. */
  function VisitAll(tw: Digest, types: Types, ids: seq<TypeId>, cache: Cache): (out: (seq<Hash>, Cache))
    requires Closed(types) && InRange(types, ids)
    ensures |out.0| == |ids| && cache.Keys <= out.1.Keys
    ensures forall id :: id in ids ==> id in out.1
    decreases AllIds(types) - cache.Keys, 1, |ids|
  {
    if ids == [] then ([], cache)
    else
      var n := |ids| - 1;
      assert ids == ids[..n] + [ids[n]];
      var (hs, before) := VisitAll(tw, types, ids[..n], cache);
      assert AllIds(types) - before.Keys <= AllIds(types) - cache.Keys;
      assert AllIds(types) - before.Keys == AllIds(types) - cache.Keys
          || AllIds(types) - before.Keys < AllIds(types) - cache.Keys;
      var (h, after) := Visit(tw, types, ids[n], before);
      (hs + [h], after)
  }

  /** `get_type_hash`: hashing starts from an empty cache. */
  function TypeHash(tw: Digest, types: Types, id: TypeId): Hash
    requires Closed(types) && id < |types|
  {
    Visit(tw, types, id, map[]).0
  }

  /** Visiting a concatenation is visiting its parts in turn. */
  lemma {:induction false} VisitAllAppend(tw: Digest, types: Types, a: seq<TypeId>, b: seq<TypeId>, cache: Cache)
    requires Closed(types) && InRange(types, a) && InRange(types, b)
    ensures InRange(types, a + b)
    ensures
      var (ha, ca) := VisitAll(tw, types, a, cache);
      var (hb, cb) := VisitAll(tw, types, b, ca);
      VisitAll(tw, types, a + b, cache) == (ha + hb, cb)
    decreases |b|
  {
    hide Visit, Closed;
    if b == [] {
      assert a + b == a;
      var (ha, ca) := VisitAll(tw, types, a, cache);
      assert ha + [] == ha;
    } else {
      var n := |b| - 1;
      assert b == b[..n] + [b[n]];
      VisitAllAppend(tw, types, a, b[..n], cache);
      assert (a + b)[..|a + b| - 1] == a + b[..n];
      var (ha, ca) := VisitAll(tw, types, a, cache);
      var (hb, cb) := VisitAll(tw, types, b[..n], ca);
      var (h, c) := Visit(tw, types, b[n], cb);
      assert ha + (hb + [h]) == (ha + hb) + [h];
    }
  }

  // ---- how often the placeholder is read ----

  /** How often hashing one type, starting from `cache`, meets a type that is still marked
      `Recursive` and takes the placeholder for its hash. */
  ghost function PlaceholderReads(tw: Digest, types: Types, id: TypeId, cache: Cache): nat
    requires Closed(types) && id < |types|
    decreases AllIds(types) - cache.Keys, 0, 0
  {
    if id in cache then if cache[id].Recursive? then 1 else 0
    else
      var started := cache[id := Recursive];
      assert id in AllIds(types) - cache.Keys && id !in AllIds(types) - started.Keys;
      AllPlaceholderReads(tw, types, Children(types[id].def), started)
  }

  ghost function AllPlaceholderReads(tw: Digest, types: Types, ids: seq<TypeId>, cache: Cache): nat
    requires Closed(types) && InRange(types, ids)
    decreases AllIds(types) - cache.Keys, 1, |ids|
  {
    if ids == [] then 0
    else
      var n := |ids| - 1;
      var before := VisitAll(tw, types, ids[..n], cache).1;
      assert AllIds(types) - before.Keys == AllIds(types) - cache.Keys
          || AllIds(types) - before.Keys < AllIds(types) - cache.Keys;
      AllPlaceholderReads(tw, types, ids[..n], cache) + PlaceholderReads(tw, types, ids[n], before)
  }

  lemma {:induction false} AllPlaceholderReadsAppend(
      tw: Digest, types: Types, a: seq<TypeId>, b: seq<TypeId>, cache: Cache)
    requires Closed(types) && InRange(types, a) && InRange(types, b) && InRange(types, a + b)
    ensures AllPlaceholderReads(tw, types, a + b, cache)
         == AllPlaceholderReads(tw, types, a, cache)
            + AllPlaceholderReads(tw, types, b, VisitAll(tw, types, a, cache).1)
    decreases |b|
  {
    hide Visit, PlaceholderReads;
    if b == [] {
      assert a + b == a;
    } else {
      var n := |b| - 1;
      assert InRange(types, a + b[..n]) by {
        assert a + b[..n] == (a + b)[..|a| + n];
      }
      AllPlaceholderReadsAppend(tw, types, a, b[..n], cache);
      VisitAllAppend(tw, types, a, b[..n], cache);
      assert (a + b)[..|a + b| - 1] == a + b[..n] && (a + b)[|a + b| - 1] == b[n];
    }
  }
}
