/** What the metadata hash cannot see: the numbering of types, and the order of pallets,
    constants, storage entries, view functions, runtime APIs and their methods. */
module MetadataInvariance {
  import opened Hashes
  import opened Lists
  import opened Options
  import opened Registry
  import opened RuntimeMetadata
  import opened MetadataHashing
  import opened TypeHashing
  import CycleGates
  import FieldOrder
  import Renumbering
  import Shapes
  import Structure

  // ---- metadata with its unordered lists as multisets, and ids replaced by keys ----

  datatype EntryView<K> = EntryView(name: Name, keys: seq<(bv8, K)>, value: K, defaultValue: Bytes)

  datatype FunctionView<K> = FunctionView(tag: Bytes, inputs: seq<(Name, K)>, output: K)

  datatype StorageView<K(==)> = StorageView(prefix: Name, entries: multiset<EntryView<K>>)

  datatype PalletView<K(==)> = PalletView(
    callTy: Option<K>, eventTy: Option<K>, errorTy: Option<K>,
    constants: multiset<(Name, K)>, storage: Option<StorageView<K>>, viewFunctions: multiset<FunctionView<K>>)

  datatype ApiView<K(==)> = ApiView(name: Name, methods: multiset<FunctionView<K>>)

  datatype ExtrinsicView<K> = ExtrinsicView(addressTy: K, signatureTy: K, versions: Hash, extensions: seq<(Name, K, K)>)

  datatype MetadataView<K(==)> = MetadataView(
    pallets: multiset<PalletView<K>>, apis: multiset<ApiView<K>>, extrinsic: ExtrinsicView<K>,
    outerEnums: (K, K, K), custom: multiset<(Name, K)>)

  type Keying<K> = TypeId -> K

  ghost function ViewKey<K>(g: Keying<K>): StorageKey -> (bv8, K) {
    (k: StorageKey) => (k.hasher, g(k.keyId))
  }

  ghost function ViewParam<K>(g: Keying<K>): Param -> (Name, K) {
    (p: Param) => (p.name, g(p.id))
  }

  ghost function ViewConstant<K>(g: Keying<K>): Constant -> (Name, K) {
    (c: Constant) => (c.name, g(c.ty))
  }

  ghost function ViewEntry<K>(g: Keying<K>): StorageEntry -> EntryView<K> {
    (e: StorageEntry) => EntryView(e.name, Map(ViewKey(g), e.keys), g(e.valueId), DefaultBytes(e))
  }

  ghost function ViewFunction'<K>(g: Keying<K>): ViewFunction -> FunctionView<K> {
    (v: ViewFunction) => FunctionView(v.queryId, Map(ViewParam(g), v.inputs), g(v.output))
  }

  ghost function ViewMethod<K>(g: Keying<K>): ApiMethod -> FunctionView<K> {
    (m: ApiMethod) => FunctionView(m.name, Map(ViewParam(g), m.inputs), g(m.output))
  }

  ghost function ViewOption<K>(g: Keying<K>, id: Option<TypeId>): Option<K> {
    match id case Some(ty) => Some(g(ty)) case None => None
  }

  ghost function ViewStorage<K>(g: Keying<K>, storage: Option<Storage>): Option<StorageView<K>> {
    match storage
    case Some(s) => Some(StorageView(s.prefix, multiset(Map(ViewEntry(g), s.entries))))
    case None => None
  }

  ghost function ViewPallet<K>(g: Keying<K>): Pallet -> PalletView<K> {
    (p: Pallet) => PalletView(
      ViewOption(g, p.callTy), ViewOption(g, p.eventTy), ViewOption(g, p.errorTy),
      multiset(Map(ViewConstant(g), p.constants)), ViewStorage(g, p.storage),
      multiset(Map(ViewFunction'(g), p.viewFunctions)))
  }

  ghost function ViewApi<K>(g: Keying<K>): RuntimeApi -> ApiView<K> {
    (a: RuntimeApi) => ApiView(a.name, multiset(Map(ViewMethod(g), a.methods)))
  }

  ghost function ViewExtension<K>(g: Keying<K>): Extension -> (Name, K, K) {
    (x: Extension) => (x.identifier, g(x.extraTy), g(x.additionalTy))
  }

  ghost function ViewCustom<K>(g: Keying<K>): CustomValue -> (Name, K) {
    (c: CustomValue) => (c.name, g(c.typeId))
  }

  ghost function ViewExtrinsic<K>(g: Keying<K>, e: Extrinsic): ExtrinsicView<K>
    requires |e.versions| <= HASH_LEN
  {
    ExtrinsicView(g(e.addressTy), g(e.signatureTy), VersionBytes(e.versions), Map(ViewExtension(g), e.extensions))
  }

  ghost function View<K>(g: Keying<K>, m: Metadata): MetadataView<K>
    requires |m.extrinsic.versions| <= HASH_LEN
  {
    MetadataView(
      multiset(Map(ViewPallet(g), m.pallets)), multiset(Map(ViewApi(g), m.apis)), ViewExtrinsic(g, m.extrinsic),
      (g(m.outerEnums.callTy), g(m.outerEnums.eventTy), g(m.outerEnums.errorTy)),
      multiset(Map(ViewCustom(g), m.custom)))
  }

  // ---- equal views have equal hashes ----

  /** Types with equal keys have equal hashes. */
  ghost predicate Decides<K>(g: Keying<K>, th: TypeId -> Hash, g': Keying<K>, th': TypeId -> Hash) {
    forall a: TypeId, b: TypeId :: g(a) == g'(b) ==> th(a) == th'(b)
  }

  /** XOR folds over two lists agree when the lists have the same views up to order and
      items with equal views have equal hashes. */
  lemma FoldByView<A(!new), V>(view: A -> V, h: A -> Hash, items: seq<A>, view': A -> V, h': A -> Hash, items': seq<A>)
    requires multiset(Map(view, items)) == multiset(Map(view', items'))
    requires forall x, y :: view(x) == view'(y) ==> h(x) == h'(y)
    ensures XorFold(Map(h, items)) == XorFold(Map(h', items'))
  {
    XorFoldByKeys(Map(view, items), Map(h, items), Map(view', items'), Map(h', items'));
  }

  lemma {:induction false} ParamsByView<K>(
      tw: Digest, g: Keying<K>, th: TypeId -> Hash, g': Keying<K>, th': TypeId -> Hash, start: Hash,
      params: seq<Param>, params': seq<Param>)
    requires Decides(g, th, g', th') && Map(ViewParam(g), params) == Map(ViewParam(g'), params')
    ensures ParamsHash(tw, th, start, params) == ParamsHash(tw, th', start, params')
    decreases |params|
  {
    assert |params| == |Map(ViewParam(g), params)| == |params'|;
    if params != [] {
      var n := |params| - 1;
      assert Map(ViewParam(g), params)[..n] == Map(ViewParam(g), params[..n]);
      assert Map(ViewParam(g'), params')[..n] == Map(ViewParam(g'), params'[..n]);
      ParamsByView(tw, g, th, g', th', start, params[..n], params'[..n]);
      assert ViewParam(g)(params[n]) == Map(ViewParam(g), params)[n] == ViewParam(g')(params'[n]);
    }
  }

  lemma {:induction false} KeysByView<K>(
      tw: Digest, g: Keying<K>, th: TypeId -> Hash, g': Keying<K>, th': TypeId -> Hash, start: Hash,
      keys: seq<StorageKey>, keys': seq<StorageKey>)
    requires Decides(g, th, g', th') && Map(ViewKey(g), keys) == Map(ViewKey(g'), keys')
    ensures KeysHash(tw, th, start, keys) == KeysHash(tw, th', start, keys')
    decreases |keys|
  {
    assert |keys| == |Map(ViewKey(g), keys)| == |keys'|;
    if keys != [] {
      var n := |keys| - 1;
      assert Map(ViewKey(g), keys)[..n] == Map(ViewKey(g), keys[..n]);
      assert Map(ViewKey(g'), keys')[..n] == Map(ViewKey(g'), keys'[..n]);
      KeysByView(tw, g, th, g', th', start, keys[..n], keys'[..n]);
      assert ViewKey(g)(keys[n]) == Map(ViewKey(g), keys)[n] == ViewKey(g')(keys'[n]);
    }
  }

  lemma {:induction false} ExtensionsByView<K>(
      tw: Digest, g: Keying<K>, th: TypeId -> Hash, g': Keying<K>, th': TypeId -> Hash, start: Hash,
      xs: seq<Extension>, xs': seq<Extension>)
    requires Decides(g, th, g', th') && Map(ViewExtension(g), xs) == Map(ViewExtension(g'), xs')
    ensures ExtensionsHash(tw, th, start, xs) == ExtensionsHash(tw, th', start, xs')
    decreases |xs|
  {
    assert |xs| == |Map(ViewExtension(g), xs)| == |xs'|;
    if xs != [] {
      var n := |xs| - 1;
      assert Map(ViewExtension(g), xs)[..n] == Map(ViewExtension(g), xs[..n]);
      assert Map(ViewExtension(g'), xs')[..n] == Map(ViewExtension(g'), xs'[..n]);
      ExtensionsByView(tw, g, th, g', th', start, xs[..n], xs'[..n]);
      assert ViewExtension(g)(xs[n]) == Map(ViewExtension(g), xs)[n] == ViewExtension(g')(xs'[n]);
    }
  }

  lemma EntryByView<K>(tw: Digest, g: Keying<K>, th: TypeId -> Hash, g': Keying<K>, th': TypeId -> Hash,
                       e: StorageEntry, e': StorageEntry)
    requires Decides(g, th, g', th') && ViewEntry(g)(e) == ViewEntry(g')(e')
    ensures StorageEntryHash(tw, th, e) == StorageEntryHash(tw, th', e')
  {
    var start := ConcatHash(tw, [tw(e.name), th(e.valueId), tw(DefaultBytes(e))]);
    KeysByView(tw, g, th, g', th', start, e.keys, e'.keys);
  }

  lemma StorageByView<K>(tw: Digest, g: Keying<K>, th: TypeId -> Hash, g': Keying<K>, th': TypeId -> Hash,
                         s: Option<Storage>, s': Option<Storage>)
    requires Decides(g, th, g', th') && ViewStorage(g, s) == ViewStorage(g', s')
    ensures StorageHash(tw, th, s) == StorageHash(tw, th', s')
  {
    if s.Some? {
      forall e, e' | ViewEntry(g)(e) == ViewEntry(g')(e')
        ensures EntryHasher(tw, th)(e) == EntryHasher(tw, th')(e')
      {
        EntryByView(tw, g, th, g', th', e, e');
      }
      FoldByView(ViewEntry(g), EntryHasher(tw, th), s.value.entries,
                 ViewEntry(g'), EntryHasher(tw, th'), s'.value.entries);
    }
  }

  lemma ViewFunctionsByView<K>(tw: Digest, g: Keying<K>, th: TypeId -> Hash, g': Keying<K>, th': TypeId -> Hash,
                               vs: seq<ViewFunction>, vs': seq<ViewFunction>)
    requires Decides(g, th, g', th') && multiset(Map(ViewFunction'(g), vs)) == multiset(Map(ViewFunction'(g'), vs'))
    ensures XorFold(Map(ViewFunctionHasher(tw, th), vs)) == XorFold(Map(ViewFunctionHasher(tw, th'), vs'))
  {
    forall v, v' | ViewFunction'(g)(v) == ViewFunction'(g')(v')
      ensures ViewFunctionHasher(tw, th)(v) == ViewFunctionHasher(tw, th')(v')
    {
      ParamsByView(tw, g, th, g', th', v.queryId, v.inputs, v'.inputs);
    }
    FoldByView(ViewFunction'(g), ViewFunctionHasher(tw, th), vs, ViewFunction'(g'), ViewFunctionHasher(tw, th'), vs');
  }

  lemma ConstantsByView<K>(tw: Digest, g: Keying<K>, th: TypeId -> Hash, g': Keying<K>, th': TypeId -> Hash,
                           cs: seq<Constant>, cs': seq<Constant>)
    requires Decides(g, th, g', th') && multiset(Map(ViewConstant(g), cs)) == multiset(Map(ViewConstant(g'), cs'))
    ensures XorFold(Map(ConstantHasher(tw, th), cs)) == XorFold(Map(ConstantHasher(tw, th'), cs'))
  {
    FoldByView(ViewConstant(g), ConstantHasher(tw, th), cs, ViewConstant(g'), ConstantHasher(tw, th'), cs');
  }

  lemma PalletByView<K>(tw: Digest, g: Keying<K>, th: TypeId -> Hash, g': Keying<K>, th': TypeId -> Hash,
                        p: Pallet, p': Pallet)
    requires Decides(g, th, g', th') && ViewPallet(g)(p) == ViewPallet(g')(p')
    ensures PalletHash(tw, th, p) == PalletHash(tw, th', p')
  {
    hide ConcatHash, XorFold;
    StorageByView(tw, g, th, g', th', p.storage, p'.storage);
    ViewFunctionsByView(tw, g, th, g', th', p.viewFunctions, p'.viewFunctions);
    ConstantsByView(tw, g, th, g', th', p.constants, p'.constants);
  }

  lemma ApiByView<K>(tw: Digest, g: Keying<K>, th: TypeId -> Hash, g': Keying<K>, th': TypeId -> Hash,
                     a: RuntimeApi, a': RuntimeApi)
    requires Decides(g, th, g', th') && ViewApi(g)(a) == ViewApi(g')(a')
    ensures ApiHash(tw, th, a) == ApiHash(tw, th', a')
  {
    forall m, m' | ViewMethod(g)(m) == ViewMethod(g')(m')
      ensures MethodHasher(tw, th, a.name)(m) == MethodHasher(tw, th', a'.name)(m')
    {
      ParamsByView(tw, g, th, g', th', ConcatHash(tw, [tw(a.name), tw(m.name)]), m.inputs, m'.inputs);
    }
    FoldByView(ViewMethod(g), MethodHasher(tw, th, a.name), a.methods,
               ViewMethod(g'), MethodHasher(tw, th', a'.name), a'.methods);
  }

  lemma PalletsByView<K>(tw: Digest, g: Keying<K>, th: TypeId -> Hash, g': Keying<K>, th': TypeId -> Hash,
                         ps: seq<Pallet>, ps': seq<Pallet>)
    requires Decides(g, th, g', th') && multiset(Map(ViewPallet(g), ps)) == multiset(Map(ViewPallet(g'), ps'))
    ensures PalletsHash(tw, th, ps, EVERYTHING) == PalletsHash(tw, th', ps', EVERYTHING)
  {
    forall p, p' | ViewPallet(g)(p) == ViewPallet(g')(p')
      ensures PalletHasher(tw, th)(p) == PalletHasher(tw, th')(p')
    {
      PalletByView(tw, g, th, g', th', p, p');
    }
    FoldByView(ViewPallet(g), PalletHasher(tw, th), ps, ViewPallet(g'), PalletHasher(tw, th'), ps');
    AllKept(PalletHasher(tw, th), ps, PalletHasher(tw, th'), ps', KeepPallet(EVERYTHING));
  }

  lemma ApisByView<K>(tw: Digest, g: Keying<K>, th: TypeId -> Hash, g': Keying<K>, th': TypeId -> Hash,
                      as0: seq<RuntimeApi>, as1: seq<RuntimeApi>)
    requires Decides(g, th, g', th') && multiset(Map(ViewApi(g), as0)) == multiset(Map(ViewApi(g'), as1))
    ensures ApisHash(tw, th, as0, EVERYTHING) == ApisHash(tw, th', as1, EVERYTHING)
  {
    forall a, a' | ViewApi(g)(a) == ViewApi(g')(a')
      ensures ApiHasher(tw, th)(a) == ApiHasher(tw, th')(a')
    {
      ApiByView(tw, g, th, g', th', a, a');
    }
    FoldByView(ViewApi(g), ApiHasher(tw, th), as0, ViewApi(g'), ApiHasher(tw, th'), as1);
    AllKept(ApiHasher(tw, th), as0, ApiHasher(tw, th'), as1, KeepApi(EVERYTHING));
  }

  lemma ExtrinsicByView<K>(tw: Digest, g: Keying<K>, th: TypeId -> Hash, g': Keying<K>, th': TypeId -> Hash,
                           e: Extrinsic, e': Extrinsic)
    requires |e.versions| <= HASH_LEN && |e'.versions| <= HASH_LEN
    requires Decides(g, th, g', th') && ViewExtrinsic(g, e) == ViewExtrinsic(g', e')
    ensures ExtrinsicHash(tw, th, e) == ExtrinsicHash(tw, th', e')
  {
    var start := ConcatHash(tw, [th(e.addressTy), th(e.signatureTy), VersionBytes(e.versions)]);
    ExtensionsByView(tw, g, th, g', th', start, e.extensions, e'.extensions);
  }

  /** Keys also tell registered types from unregistered ones. */
  ghost predicate DecidesRegistered<K>(g: Keying<K>, types: Types, g': Keying<K>, types': Types) {
    forall a: TypeId, b: TypeId :: g(a) == g'(b) ==> (a < |types| <==> b < |types'|)
  }

  lemma CustomByView<K>(tw: Digest, g: Keying<K>, types: Types, th: TypeId -> Hash,
                        g': Keying<K>, types': Types, th': TypeId -> Hash, cs: seq<CustomValue>, cs': seq<CustomValue>)
    requires Decides(g, th, g', th') && DecidesRegistered(g, types, g', types')
    requires multiset(Map(ViewCustom(g), cs)) == multiset(Map(ViewCustom(g'), cs'))
    ensures CustomValuesHash(tw, types, th, cs, EVERYTHING) == CustomValuesHash(tw, types', th', cs', EVERYTHING)
  {
    forall c, c' | ViewCustom(g)(c) == ViewCustom(g')(c')
      ensures CustomHasher(tw, types, th)(c) == CustomHasher(tw, types', th')(c')
    {
      assert g(c.typeId) == g'(c'.typeId);
    }
    FoldByView(ViewCustom(g), CustomHasher(tw, types, th), cs, ViewCustom(g'), CustomHasher(tw, types', th'), cs');
  }

  /** Main result, for any way of keying types whose keys decide registration and hash:
      metadata with equal views has equal hashes. */
  lemma MetadataHashByView<K>(tw: Digest, g: Keying<K>, m: Metadata, g': Keying<K>, m': Metadata)
    requires WellFormed(m) && WellFormed(m')
    requires Decides(g, TypeHashes(tw, m.types), g', TypeHashes(tw, m'.types))
    requires DecidesRegistered(g, m.types, g', m'.types)
    requires View(g, m) == View(g', m')
    ensures Components(tw, m, EVERYTHING) == Components(tw, m', EVERYTHING)
    ensures MetadataHash(tw, m, EVERYTHING) == MetadataHash(tw, m', EVERYTHING)
  {
    hide ViewPallet, ViewApi, ViewExtrinsic, ViewCustom, Flatten, XorFold;
    var th, th' := TypeHashes(tw, m.types), TypeHashes(tw, m'.types);
    PalletsByView(tw, g, th, g', th', m.pallets, m'.pallets);
    ApisByView(tw, g, th, g', th', m.apis, m'.apis);
    ExtrinsicByView(tw, g, th, g', th', m.extrinsic, m'.extrinsic);
    CustomByView(tw, g, m.types, th, g', m'.types, th', m.custom, m'.custom);
    assert Components(tw, m, EVERYTHING) == Components(tw, m', EVERYTHING);
  }

  lemma AllKept<A>(h: A -> Hash, items: seq<A>, h': A -> Hash, items': seq<A>, keep: A -> bool)
    requires (forall i :: 0 <= i < |items| ==> keep(items[i])) && (forall i :: 0 <= i < |items'| ==> keep(items'[i]))
    requires XorFold(Map(h, items)) == XorFold(Map(h', items'))
    ensures FoldKept(keep, h, items) == FoldKept(keep, h', items')
  {
    FoldKeptIsFoldOfFiltered(keep, h, items);
    FoldKeptIsFoldOfFiltered(keep, h', items');
    FilterKeepsAll(keep, items);
    FilterKeepsAll(keep, items');
  }

  // ---- keying types ----

  /** `Apart` is for types that nothing on the other side corresponds to. */
  datatype TypeKey = Unregistered | Number(id: TypeId) | OfShape(shape: Shapes.Shape) | Apart(left: bool, id: TypeId)

  /** Types in `dom` by their number under `f`. */
  ghost function NumberKey(types: Types, dom: set<TypeId>, f: TypeId -> TypeId, left: bool): Keying<TypeKey> {
    (id: TypeId) =>
      if id >= |types| then Unregistered else if id in dom then Number(f(id)) else Apart(left, id)
  }

  /** Acyclic types by their shape, the others in `dom` by their number under `f`. */
  ghost function MixedKey(types: Types, dom: set<TypeId>, f: TypeId -> TypeId, left: bool): Keying<TypeKey>
    requires Closed(types)
  {
    (id: TypeId) =>
      if id >= |types| then Unregistered
      else if Structure.Acyclic(types, id) then OfShape(Shapes.AcyclicShape(types, id))
      else if id in dom then Number(f(id)) else Apart(left, id)
  }

  ghost function Image(f: TypeId -> TypeId, dom: set<TypeId>): set<TypeId> {
    set id | id in dom :: f(id)
  }

  lemma NumberKeyDecides(tw: Digest, f: TypeId -> TypeId, dom: set<TypeId>, types: Types, types': Types)
    requires Closed(types) && Closed(types') && Renumbering.Renumbers(f, dom, types, types')
    ensures
      var g, g' := NumberKey(types, dom, f, true), NumberKey(types', Image(f, dom), Renumbering.Identity(), false);
      Decides(g, TypeHashes(tw, types), g', TypeHashes(tw, types')) && DecidesRegistered(g, types, g', types')
  {
    var g, g' := NumberKey(types, dom, f, true), NumberKey(types', Image(f, dom), Renumbering.Identity(), false);
    forall a: TypeId, b: TypeId | g(a) == g'(b)
      ensures TypeHashes(tw, types)(a) == TypeHashes(tw, types')(b)
    {
      if g(a).Number? {
        Renumbering.TypeHashRenumbered(tw, f, dom, types, types', a);
      }
    }
  }

  lemma MixedKeyDecides(tw: Digest, f: TypeId -> TypeId, dom: set<TypeId>, types: Types, types': Types)
    requires Closed(types) && Closed(types') && Renumbering.Renumbers(f, dom, types, types')
    ensures
      var g, g' := MixedKey(types, dom, f, true), MixedKey(types', Image(f, dom), Renumbering.Identity(), false);
      Decides(g, TypeHashes(tw, types), g', TypeHashes(tw, types')) && DecidesRegistered(g, types, g', types')
  {
    hide Structure.Acyclic, Shapes.AcyclicShape, TypeHash, Closed, Renumbering.Renumbers;
    var g, g' := MixedKey(types, dom, f, true), MixedKey(types', Image(f, dom), Renumbering.Identity(), false);
    forall a: TypeId, b: TypeId | g(a) == g'(b)
      ensures TypeHashes(tw, types)(a) == TypeHashes(tw, types')(b)
    {
      if g(a).Number? {
        Renumbering.TypeHashRenumbered(tw, f, dom, types, types', a);
      } else if g(a).OfShape? {
        Shapes.TypeHashByShape(tw, types, a, types', b);
      }
    }
  }

  // ---- through any filters ----

  lemma FilteredByView<K>(tw: Digest, g: Keying<K>, m: Metadata, g': Keying<K>, m': Metadata, filters: Filters)
    requires WellFormed(m) && WellFormed(m')
    requires Decides(g, TypeHashes(tw, m.types), g', TypeHashes(tw, m'.types))
    requires DecidesRegistered(g, m.types, g', m'.types)
    requires View(g, Trim(m, filters)) == View(g', Trim(m', filters))
    ensures MetadataHash(tw, m, filters) == MetadataHash(tw, m', filters)
  {
    FilteredHashIsTrimmedHash(tw, m, filters);
    FilteredHashIsTrimmedHash(tw, m', filters);
    MetadataHashByView(tw, g, Trim(m, filters), g', Trim(m', filters));
  }

  /** The metadata hash, through any filters, is unchanged when types are renumbered (cyclic
      ones included) and what passes the filters is reordered. `dom` has to hold the types of
      what passes only, since a type outside it has a key of its own. Docs, paths, and
      everything else that the filters skip, with its types, may differ freely. */
  lemma MetadataHashRenumbered(
      tw: Digest, f: TypeId -> TypeId, dom: set<TypeId>, m: Metadata, m': Metadata, filters: Filters)
    requires WellFormed(m) && WellFormed(m') && Renumbering.Renumbers(f, dom, m.types, m'.types)
    requires View(NumberKey(m.types, dom, f, true), Trim(m, filters))
          == View(NumberKey(m'.types, Image(f, dom), Renumbering.Identity(), false), Trim(m', filters))
    ensures MetadataHash(tw, m, filters) == MetadataHash(tw, m', filters)
  {
    NumberKeyDecides(tw, f, dom, m.types, m'.types);
    FilteredByView(tw, NumberKey(m.types, dom, f, true), m,
                   NumberKey(m'.types, Image(f, dom), Renumbering.Identity(), false), m', filters);
  }

  /** Of acyclic types only the shapes matter: on top of the above, their fields and variants may
      be reordered at any depth, and equal types may be shared or repeated. Types that reach a
      cycle correspond by number, in the same metadata. */
  lemma MetadataHashByShape(
      tw: Digest, f: TypeId -> TypeId, dom: set<TypeId>, m: Metadata, m': Metadata, filters: Filters)
    requires WellFormed(m) && WellFormed(m') && Renumbering.Renumbers(f, dom, m.types, m'.types)
    requires View(MixedKey(m.types, dom, f, true), Trim(m, filters))
          == View(MixedKey(m'.types, Image(f, dom), Renumbering.Identity(), false), Trim(m', filters))
    ensures MetadataHash(tw, m, filters) == MetadataHash(tw, m', filters)
  {
    MixedKeyDecides(tw, f, dom, m.types, m'.types);
    FilteredByView(tw, MixedKey(m.types, dom, f, true), m,
                   MixedKey(m'.types, Image(f, dom), Renumbering.Identity(), false), m', filters);
  }

  /** And a type that reaches a cycle may be reordered when the cycles that its children share lie
      behind gates. */
  lemma MetadataHashReordered(
      tw: Digest, m: Metadata, id: TypeId, def: TypeDef, gates: seq<TypeId>, filters: Filters)
    requires WellFormed(m) && id < |m.types| && FieldOrder.Reordered(m.types[id].def, def)
    requires CycleGates.Gated(m.types, {id}, Children(m.types[id].def), gates)
    ensures
      var m' := m.(types := FieldOrder.Reorder(m.types, id, def));
      WellFormed(m') && MetadataHash(tw, m', filters) == MetadataHash(tw, m, filters)
  {
    hide MetadataHash, Components, View, Trim, NumberKey, TypeHash;
    hide Decides, DecidesRegistered, CycleGates.Gated, FieldOrder.Reordered;
    var m' := m.(types := FieldOrder.Reorder(m.types, id, def));
    FieldOrder.ReorderClosed(m.types, id, def);
    var g := NumberKey(m.types, AllIds(m.types), Renumbering.Identity(), true);
    forall x: TypeId | x < |m.types|
      ensures TypeHash(tw, m'.types, x) == TypeHash(tw, m.types, x)
    {
      FieldOrder.TypeHashReordered(tw, m.types, id, def, gates, x);
    }
    NumberKeyAcross(tw, m'.types, m.types);
    ViewIgnoresTypes(g, m, m'.types, filters);
    FilteredByView(tw, g, m', g, m, filters);
  }

  lemma NumberKeyAcross(tw: Digest, types: Types, types': Types)
    requires Closed(types) && Closed(types') && |types| == |types'|
    requires forall x: TypeId :: x < |types| ==> TypeHash(tw, types, x) == TypeHash(tw, types', x)
    ensures
      var g := NumberKey(types', AllIds(types'), Renumbering.Identity(), true);
      Decides(g, TypeHashes(tw, types), g, TypeHashes(tw, types')) && DecidesRegistered(g, types, g, types')
  {
    hide TypeHash, Closed;
  }

  lemma ViewIgnoresTypes<K>(g: Keying<K>, m: Metadata, types: Types, filters: Filters)
    requires |m.extrinsic.versions| <= HASH_LEN
    ensures View(g, Trim(m.(types := types), filters)) == View(g, Trim(m, filters))
  {
  }
}
