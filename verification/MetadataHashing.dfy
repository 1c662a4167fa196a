/** Hashing metadata on top of type hashes: chained hashes where order matters, XOR folds
    where it must not, and the filters of the metadata hasher. */
module MetadataHashing {
  import opened Hashes
  import opened Lists
  import opened Options
  import opened Registry
  import opened RuntimeMetadata
  import opened TypeHashing
  import TypeHasher

  /** Type hashes by id. An id that is not registered makes the source panic, except for
      custom values, where the caller checks first; the default is never used otherwise. */
  function TypeHashes(tw: Digest, types: Types): TypeId -> Hash
    requires Closed(types)
  {
    (id: TypeId) => if id < |types| then TypeHash(tw, types, id) else Zero()
  }

  /** The fold of the metadata hasher: items that are filtered out leave the bytes alone. */
  function FoldKept<A>(keep: A -> bool, h: A -> Hash, items: seq<A>): Hash {
    if items == [] then Zero()
    else
      var bytes := FoldKept(keep, h, items[..|items| - 1]);
      if keep(items[|items| - 1]) then Xor(bytes, h(items[|items| - 1])) else bytes
  }

  // ---- chained hashes ----

  function ParamsHash(tw: Digest, th: TypeId -> Hash, start: Hash, params: seq<Param>): Hash {
    if params == [] then start
    else
      var last := params[|params| - 1];
      ConcatHash(tw, [ParamsHash(tw, th, start, params[..|params| - 1]), tw(last.name), th(last.id)])
  }

  function MethodHash(tw: Digest, th: TypeId -> Hash, api: Name, m: ApiMethod): Hash {
    ConcatHash(tw, [ParamsHash(tw, th, ConcatHash(tw, [tw(api), tw(m.name)]), m.inputs), th(m.output)])
  }

  function ViewFunctionHash(tw: Digest, th: TypeId -> Hash, v: ViewFunction): Hash {
    ConcatHash(tw, [ParamsHash(tw, th, v.queryId, v.inputs), th(v.output)])
  }

  function DefaultBytes(e: StorageEntry): Bytes {
    match e.defaultValue case Some(bytes) => bytes case None => []
  }

  function KeysHash(tw: Digest, th: TypeId -> Hash, start: Hash, keys: seq<StorageKey>): Hash {
    if keys == [] then start
    else
      var last := keys[|keys| - 1];
      ConcatHash(tw, [KeysHash(tw, th, start, keys[..|keys| - 1]), Repeat(last.hasher), th(last.keyId)])
  }

  function StorageEntryHash(tw: Digest, th: TypeId -> Hash, e: StorageEntry): Hash {
    KeysHash(tw, th, ConcatHash(tw, [tw(e.name), th(e.valueId), tw(DefaultBytes(e))]), e.keys)
  }

  function VersionBytes(versions: seq<bv8>): Hash
    requires |versions| <= HASH_LEN
  {
    versions + seq(HASH_LEN - |versions|, _ => 0)
  }

  function ExtensionsHash(tw: Digest, th: TypeId -> Hash, start: Hash, extensions: seq<Extension>): Hash {
    if extensions == [] then start
    else
      var last := extensions[|extensions| - 1];
      ConcatHash(tw, [ExtensionsHash(tw, th, start, extensions[..|extensions| - 1]),
                      tw(last.identifier), th(last.extraTy), th(last.additionalTy)])
  }

  function ExtrinsicHash(tw: Digest, th: TypeId -> Hash, e: Extrinsic): Hash
    requires |e.versions| <= HASH_LEN
  {
    ExtensionsHash(tw, th, ConcatHash(tw, [th(e.addressTy), th(e.signatureTy), VersionBytes(e.versions)]), e.extensions)
  }

  // ---- folds ----

  function OptionHash(th: TypeId -> Hash, id: Option<TypeId>): Hash {
    match id case Some(ty) => th(ty) case None => Zero()
  }

  function ConstantHasher(tw: Digest, th: TypeId -> Hash): Constant -> Hash {
    (c: Constant) => ConcatHash(tw, [tw(c.name), th(c.ty)])
  }

  function EntryHasher(tw: Digest, th: TypeId -> Hash): StorageEntry -> Hash {
    (e: StorageEntry) => StorageEntryHash(tw, th, e)
  }

  function ViewFunctionHasher(tw: Digest, th: TypeId -> Hash): ViewFunction -> Hash {
    (v: ViewFunction) => ViewFunctionHash(tw, th, v)
  }

  function MethodHasher(tw: Digest, th: TypeId -> Hash, api: Name): ApiMethod -> Hash {
    (m: ApiMethod) => MethodHash(tw, th, api, m)
  }

  function StorageHash(tw: Digest, th: TypeId -> Hash, storage: Option<Storage>): Hash {
    match storage
    case Some(s) => ConcatHash(tw, [tw(s.prefix), XorFold(Map(EntryHasher(tw, th), s.entries))])
    case None => Zero()
  }

  function PalletHash(tw: Digest, th: TypeId -> Hash, p: Pallet): Hash {
    ConcatHash(tw, [
      OptionHash(th, p.callTy), OptionHash(th, p.eventTy), OptionHash(th, p.errorTy),
      XorFold(Map(ConstantHasher(tw, th), p.constants)),
      StorageHash(tw, th, p.storage),
      XorFold(Map(ViewFunctionHasher(tw, th), p.viewFunctions))])
  }

  function ApiHash(tw: Digest, th: TypeId -> Hash, a: RuntimeApi): Hash {
    XorFold(Map(MethodHasher(tw, th, a.name), a.methods))
  }

  function CustomHash(tw: Digest, name: Name, typeHash: Option<Hash>): Hash {
    match typeHash
    case None => tw(tw(name))
    case Some(h) => ConcatHash(tw, [tw(name), h])
  }

  function PalletHasher(tw: Digest, th: TypeId -> Hash): Pallet -> Hash {
    (p: Pallet) => PalletHash(tw, th, p)
  }

  function ApiHasher(tw: Digest, th: TypeId -> Hash): RuntimeApi -> Hash {
    (a: RuntimeApi) => ApiHash(tw, th, a)
  }

  function CustomHasher(tw: Digest, types: Types, th: TypeId -> Hash): CustomValue -> Hash {
    (c: CustomValue) => CustomHash(tw, c.name, if c.typeId < |types| then Some(th(c.typeId)) else None)
  }

  // ---- the metadata hash and its filters ----

  /** `None` lets everything through. */
  datatype Filters = Filters(pallets: Option<seq<Name>>, apis: Option<seq<Name>>, customValues: bool)

  const EVERYTHING := Filters(None, None, true)

  predicate Listed(only: Option<seq<Name>>, name: Name) {
    only.Some? ==> name in only.value
  }

  function KeepPallet(filters: Filters): Pallet -> bool {
    (p: Pallet) => Listed(filters.pallets, p.name)
  }

  function KeepApi(filters: Filters): RuntimeApi -> bool {
    (a: RuntimeApi) => Listed(filters.apis, a.name)
  }

  function OuterEnumsHash(tw: Digest, th: TypeId -> Hash, o: OuterEnums): Hash {
    ConcatHash(tw, [th(o.callTy), th(o.eventTy), th(o.errorTy)])
  }

  function PalletsHash(tw: Digest, th: TypeId -> Hash, pallets: seq<Pallet>, filters: Filters): Hash {
    FoldKept(KeepPallet(filters), PalletHasher(tw, th), pallets)
  }

  function ApisHash(tw: Digest, th: TypeId -> Hash, apis: seq<RuntimeApi>, filters: Filters): Hash {
    FoldKept(KeepApi(filters), ApiHasher(tw, th), apis)
  }

  function CustomValuesHash(
      tw: Digest, types: Types, th: TypeId -> Hash, custom: seq<CustomValue>, filters: Filters): Hash
  {
    if filters.customValues then XorFold(Map(CustomHasher(tw, types, th), custom)) else Zero()
  }

  function Components(tw: Digest, m: Metadata, filters: Filters): (parts: seq<Hash>)
    requires WellFormed(m)
    ensures |parts| == 5
  {
    var th := TypeHashes(tw, m.types);
    [PalletsHash(tw, th, m.pallets, filters), ApisHash(tw, th, m.apis, filters),
     OuterEnumsHash(tw, th, m.outerEnums), ExtrinsicHash(tw, th, m.extrinsic),
     CustomValuesHash(tw, m.types, th, m.custom, filters)]
  }

  function MetadataHash(tw: Digest, m: Metadata, filters: Filters): Hash
    requires WellFormed(m)
  {
    ConcatHash(tw, Components(tw, m, filters))
  }

  class MetadataHasher {
    const metadata: Metadata
    var specificPallets: Option<seq<Name>>
    var specificRuntimeApis: Option<seq<Name>>
    var includeCustomValues: bool

    constructor (metadata: Metadata)
      ensures this.metadata == metadata && CurrentFilters() == EVERYTHING
    {
      this.metadata := metadata;
      specificPallets := None;
      specificRuntimeApis := None;
      includeCustomValues := true;
    }

    function CurrentFilters(): Filters
      reads this
    {
      Filters(specificPallets, specificRuntimeApis, includeCustomValues)
    }

    method OnlyThesePallets(names: seq<Name>)
      modifies this
      ensures CurrentFilters() == old(CurrentFilters()).(pallets := Some(names))
    {
      specificPallets := Some(names);
    }

    method OnlyTheseRuntimeApis(names: seq<Name>)
      modifies this
      ensures CurrentFilters() == old(CurrentFilters()).(apis := Some(names))
    {
      specificRuntimeApis := Some(names);
    }

    method IgnoreCustomValues()
      modifies this
      ensures CurrentFilters() == old(CurrentFilters()).(customValues := false)
    {
      includeCustomValues := false;
    }

    function Hash(tw: Digest): Hash
      requires WellFormed(metadata)
      reads this
    {
      MetadataHash(tw, metadata, CurrentFilters())
    }
  }

  // ---- the loops of the chained hashes ----

  method HashType(tw: Digest, types: Types, id: TypeId) returns (h: Hash)
    requires Closed(types) && id < |types|
    ensures h == TypeHashes(tw, types)(id)
  {
    h := TypeHasher.GetTypeHash(tw, types, id);
  }

  method GetStorageEntryHash(tw: Digest, types: Types, entry: StorageEntry) returns (bytes: Hash)
    requires Closed(types) && EntryInRange(|types|, entry)
    ensures bytes == StorageEntryHash(tw, TypeHashes(tw, types), entry)
  {
    hide ConcatHash, TypeHashes, Closed, Flatten;
    var valueHash := HashType(tw, types, entry.valueId);
    bytes := ConcatHash(tw, [tw(entry.name), valueHash, tw(DefaultBytes(entry))]);
    ghost var start := bytes;
    for i := 0 to |entry.keys|
      invariant bytes == KeysHash(tw, TypeHashes(tw, types), start, entry.keys[..i])
    {
      var key := entry.keys[i];
      var keyHash := HashType(tw, types, key.keyId);
      assert entry.keys[..i + 1][..i] == entry.keys[..i];
      bytes := ConcatHash(tw, [bytes, Repeat(key.hasher), keyHash]);
    }
    assert entry.keys[..|entry.keys|] == entry.keys;
  }

  method HashParams(tw: Digest, types: Types, start: Hash, params: seq<Param>) returns (bytes: Hash)
    requires Closed(types) && ParamsInRange(|types|, params)
    ensures bytes == ParamsHash(tw, TypeHashes(tw, types), start, params)
  {
    hide ConcatHash, TypeHashes, Closed, Flatten;
    bytes := start;
    for i := 0 to |params|
      invariant bytes == ParamsHash(tw, TypeHashes(tw, types), start, params[..i])
    {
      var typeHash := HashType(tw, types, params[i].id);
      assert params[..i + 1][..i] == params[..i];
      bytes := ConcatHash(tw, [bytes, tw(params[i].name), typeHash]);
    }
    assert params[..|params|] == params;
  }

  method GetRuntimeApiHash(tw: Digest, types: Types, api: Name, m: ApiMethod) returns (bytes: Hash)
    requires Closed(types) && m.output < |types| && ParamsInRange(|types|, m.inputs)
    ensures bytes == MethodHash(tw, TypeHashes(tw, types), api, m)
  {
    bytes := HashParams(tw, types, ConcatHash(tw, [tw(api), tw(m.name)]), m.inputs);
    var outputHash := HashType(tw, types, m.output);
    bytes := ConcatHash(tw, [bytes, outputHash]);
  }

  method GetViewFunctionHash(tw: Digest, types: Types, v: ViewFunction) returns (bytes: Hash)
    requires Closed(types) && v.output < |types| && ParamsInRange(|types|, v.inputs)
    ensures bytes == ViewFunctionHash(tw, TypeHashes(tw, types), v)
  {
    bytes := HashParams(tw, types, v.queryId, v.inputs);
    var outputHash := HashType(tw, types, v.output);
    bytes := ConcatHash(tw, [bytes, outputHash]);
  }

  method GetExtrinsicHash(tw: Digest, types: Types, e: Extrinsic) returns (bytes: Hash)
    requires Closed(types) && ExtrinsicInRange(|types|, e) && |e.versions| <= HASH_LEN
    ensures bytes == ExtrinsicHash(tw, TypeHashes(tw, types), e)
  {
    hide ConcatHash, TypeHash;
    var addressHash := HashType(tw, types, e.addressTy);
    var signatureHash := HashType(tw, types, e.signatureTy);
    bytes := ConcatHash(tw, [addressHash, signatureHash, VersionBytes(e.versions)]);
    ghost var start := bytes;
    for i := 0 to |e.extensions|
      invariant bytes == ExtensionsHash(tw, TypeHashes(tw, types), start, e.extensions[..i])
    {
      var x := e.extensions[i];
      var extraHash := HashType(tw, types, x.extraTy);
      var additionalHash := HashType(tw, types, x.additionalTy);
      assert e.extensions[..i + 1][..i] == e.extensions[..i];
      bytes := ConcatHash(tw, [bytes, tw(x.identifier), extraHash, additionalHash]);
    }
    assert e.extensions[..|e.extensions|] == e.extensions;
  }

  // ---- filtering, then folding ----

  lemma {:induction false} FoldKeptIsFoldOfFiltered<A>(keep: A -> bool, h: A -> Hash, items: seq<A>)
    ensures FoldKept(keep, h, items) == XorFold(Map(h, Filter(keep, items)))
    decreases |items|
  {
    if items != [] {
      var n := |items| - 1;
      FoldKeptIsFoldOfFiltered(keep, h, items[..n]);
      var rest := Filter(keep, items[..n]);
      if keep(items[n]) {
        assert Map(h, rest + [items[n]])[..|rest|] == Map(h, rest);
      }
    }
  }

  /** The metadata with everything removed that the filters skip. */
  function Trim(m: Metadata, filters: Filters): Metadata {
    m.(pallets := Filter(KeepPallet(filters), m.pallets),
       apis := Filter(KeepApi(filters), m.apis),
       custom := if filters.customValues then m.custom else [])
  }

  lemma TrimWellFormed(m: Metadata, filters: Filters)
    requires WellFormed(m)
    ensures WellFormed(Trim(m, filters))
  {
    var t, n := Trim(m, filters), |m.types|;
    FilterIn(KeepPallet(filters), m.pallets);
    FilterIn(KeepApi(filters), m.apis);
    forall i | 0 <= i < |t.pallets|
      ensures PalletInRange(n, t.pallets[i])
    {
      assert t.pallets[i] in m.pallets;
    }
    forall i | 0 <= i < |t.apis|
      ensures ApiInRange(n, t.apis[i])
    {
      assert t.apis[i] in m.apis;
    }
  }

  lemma {:induction false} FoldKeptOfFiltered<A(!new)>(keep: A -> bool, all: A -> bool, h: A -> Hash, items: seq<A>)
    requires forall x :: all(x)
    ensures FoldKept(keep, h, items) == FoldKept(all, h, Filter(keep, items))
    decreases |items|
  {
    if items != [] {
      var n := |items| - 1;
      FoldKeptOfFiltered(keep, all, h, items[..n]);
      var rest := Filter(keep, items[..n]);
      assert (rest + [items[n]])[..|rest|] == rest;
    }
  }

  /** Hashing through filters is hashing the trimmed metadata without filters. */
  lemma FilteredHashIsTrimmedHash(tw: Digest, m: Metadata, filters: Filters)
    requires WellFormed(m)
    ensures WellFormed(Trim(m, filters))
    ensures Components(tw, m, filters) == Components(tw, Trim(m, filters), EVERYTHING)
    ensures MetadataHash(tw, m, filters) == MetadataHash(tw, Trim(m, filters), EVERYTHING)
  {
    TrimWellFormed(m, filters);
    var th := TypeHashes(tw, m.types);
    FoldKeptOfFiltered(KeepPallet(filters), KeepPallet(EVERYTHING), PalletHasher(tw, th), m.pallets);
    FoldKeptOfFiltered(KeepApi(filters), KeepApi(EVERYTHING), ApiHasher(tw, th), m.apis);
    assert Map(CustomHasher(tw, m.types, th), []) == [];
  }
}
