/** Metadata stripped of pallets and runtime APIs, and of the types that are then unused. How the
    registry numbers the types it retains is a parameter. */
module Stripping {
  import opened Codegen
  import opened Hashes
  import opened Lists
  import opened MetadataHashing
  import opened MetadataInvariance
  import opened Options
  import opened Registry
  import opened RuntimeMetadata
  import Renumbering

  // ---- every id found in the metadata is mapped to its new one ----

  type Renaming = TypeId -> TypeId

  /** Ids without a new one, such as unregistered ids of custom values, stay. */
  function NewIds(f: Renaming, retained: set<TypeId>): Renaming {
    (id: TypeId) => if id in retained then f(id) else id
  }

  function NewOption(r: Renaming, id: Option<TypeId>): Option<TypeId> {
    match id case Some(ty) => Some(r(ty)) case None => None
  }

  function NewParam(r: Renaming): Param -> Param {
    (p: Param) => p.(id := r(p.id))
  }

  function NewConstant(r: Renaming): Constant -> Constant {
    (c: Constant) => c.(ty := r(c.ty))
  }

  function NewKey(r: Renaming): StorageKey -> StorageKey {
    (k: StorageKey) => k.(keyId := r(k.keyId))
  }

  function NewEntry(r: Renaming): StorageEntry -> StorageEntry {
    (e: StorageEntry) => e.(keys := Map(NewKey(r), e.keys), valueId := r(e.valueId))
  }

  function NewStorage(r: Renaming, storage: Option<Storage>): Option<Storage> {
    match storage case Some(s) => Some(s.(entries := Map(NewEntry(r), s.entries))) case None => None
  }

  function NewFunction(r: Renaming): ViewFunction -> ViewFunction {
    (v: ViewFunction) => v.(inputs := Map(NewParam(r), v.inputs), output := r(v.output))
  }

  function NewPallet(r: Renaming): Pallet -> Pallet {
    (p: Pallet) => p.(
      callTy := NewOption(r, p.callTy), eventTy := NewOption(r, p.eventTy), errorTy := NewOption(r, p.errorTy),
      constants := Map(NewConstant(r), p.constants), storage := NewStorage(r, p.storage),
      viewFunctions := Map(NewFunction(r), p.viewFunctions))
  }

  function NewMethod(r: Renaming): ApiMethod -> ApiMethod {
    (m: ApiMethod) => m.(inputs := Map(NewParam(r), m.inputs), output := r(m.output))
  }

  function NewApi(r: Renaming): RuntimeApi -> RuntimeApi {
    (a: RuntimeApi) => a.(methods := Map(NewMethod(r), a.methods))
  }

  function NewExtension(r: Renaming): Extension -> Extension {
    (x: Extension) => x.(extraTy := r(x.extraTy), additionalTy := r(x.additionalTy))
  }

  function NewExtrinsic(r: Renaming, e: Extrinsic): Extrinsic {
    e.(addressTy := r(e.addressTy), signatureTy := r(e.signatureTy),
       extensions := Map(NewExtension(r), e.extensions))
  }

  function NewEnums(r: Renaming, o: OuterEnums): OuterEnums {
    OuterEnums(r(o.callTy), r(o.eventTy), r(o.errorTy))
  }

  function NewCustom(r: Renaming): CustomValue -> CustomValue {
    (c: CustomValue) => c.(typeId := r(c.typeId))
  }

  function RetainTypes(m: Metadata, r: Renaming, types: Types): Metadata {
    Metadata(types, Map(NewPallet(r), m.pallets), Map(NewApi(r), m.apis), NewExtrinsic(r, m.extrinsic),
             NewEnums(r, m.outerEnums), Map(NewCustom(r), m.custom))
  }

  /** Stripping keeps custom values and the pallets and runtime APIs with the given names. */
  function Strip(m: Metadata, kept: Filters, r: Renaming, types: Types): Metadata {
    RetainTypes(Trim(m, kept), r, types)
  }

  /** Nothing but ids is touched: if none changes, nothing does. */
  lemma RetainingAllKeepsAll(m: Metadata)
    ensures RetainTypes(m, Renumbering.Identity(), m.types) == m
  {
    var r := Renumbering.Identity();
    forall i | 0 <= i < |m.pallets|
      ensures NewPallet(r)(m.pallets[i]) == m.pallets[i]
    {
      SamePalletRetained(m.pallets[i]);
    }
    forall i | 0 <= i < |m.apis|
      ensures NewApi(r)(m.apis[i]) == m.apis[i]
    {
      SameApiRetained(m.apis[i]);
    }
    MappedToItself(NewPallet(r), m.pallets);
    MappedToItself(NewApi(r), m.apis);
    MappedToItself(NewExtension(r), m.extrinsic.extensions);
    MappedToItself(NewCustom(r), m.custom);
  }

  lemma MappedToItself<A>(f: A -> A, items: seq<A>)
    requires forall i :: 0 <= i < |items| ==> f(items[i]) == items[i]
    ensures Map(f, items) == items
  {
  }

  lemma SamePalletRetained(p: Pallet)
    ensures NewPallet(Renumbering.Identity())(p) == p
  {
    var r := Renumbering.Identity();
    MappedToItself(NewConstant(r), p.constants);
    forall i | 0 <= i < |p.viewFunctions|
      ensures NewFunction(r)(p.viewFunctions[i]) == p.viewFunctions[i]
    {
      MappedToItself(NewParam(r), p.viewFunctions[i].inputs);
    }
    MappedToItself(NewFunction(r), p.viewFunctions);
    if p.storage.Some? {
      SameEntriesRetained(p.storage.value.entries);
    }
  }

  lemma SameEntriesRetained(entries: seq<StorageEntry>)
    ensures Map(NewEntry(Renumbering.Identity()), entries) == entries
  {
    var r := Renumbering.Identity();
    forall i | 0 <= i < |entries|
      ensures NewEntry(r)(entries[i]) == entries[i]
    {
      MappedToItself(NewKey(r), entries[i].keys);
    }
    MappedToItself(NewEntry(r), entries);
  }

  lemma SameApiRetained(a: RuntimeApi)
    ensures NewApi(Renumbering.Identity())(a) == a
  {
    var r := Renumbering.Identity();
    forall i | 0 <= i < |a.methods|
      ensures NewMethod(r)(a.methods[i]) == a.methods[i]
    {
      MappedToItself(NewParam(r), a.methods[i].inputs);
    }
    MappedToItself(NewMethod(r), a.methods);
  }

  // ---- the ids that are found ----

  ghost predicate OptionUses(ids: set<TypeId>, id: Option<TypeId>) {
    id.Some? ==> id.value in ids
  }

  ghost predicate ParamsUse(ids: set<TypeId>, params: seq<Param>) {
    forall i :: 0 <= i < |params| ==> params[i].id in ids
  }

  ghost predicate EntryUses(ids: set<TypeId>, e: StorageEntry) {
    e.valueId in ids && forall i :: 0 <= i < |e.keys| ==> e.keys[i].keyId in ids
  }

  ghost predicate FunctionUses(ids: set<TypeId>, v: ViewFunction) {
    v.output in ids && ParamsUse(ids, v.inputs)
  }

  ghost predicate PalletUses(ids: set<TypeId>, p: Pallet) {
    && OptionUses(ids, p.callTy) && OptionUses(ids, p.eventTy) && OptionUses(ids, p.errorTy)
    && (forall i :: 0 <= i < |p.constants| ==> p.constants[i].ty in ids)
    && (p.storage.Some? ==>
          forall i :: 0 <= i < |p.storage.value.entries| ==> EntryUses(ids, p.storage.value.entries[i]))
    && (forall i :: 0 <= i < |p.viewFunctions| ==> FunctionUses(ids, p.viewFunctions[i]))
  }

  ghost predicate MethodUses(ids: set<TypeId>, m: ApiMethod) {
    m.output in ids && ParamsUse(ids, m.inputs)
  }

  ghost predicate ApiUses(ids: set<TypeId>, a: RuntimeApi) {
    forall i :: 0 <= i < |a.methods| ==> MethodUses(ids, a.methods[i])
  }

  ghost predicate ExtrinsicUses(ids: set<TypeId>, e: Extrinsic) {
    && e.addressTy in ids && e.signatureTy in ids
    && (forall i :: 0 <= i < |e.extensions| ==> e.extensions[i].extraTy in ids && e.extensions[i].additionalTy in ids)
  }

  ghost predicate EnumsUse(ids: set<TypeId>, o: OuterEnums) {
    o.callTy in ids && o.eventTy in ids && o.errorTy in ids
  }

  /** All registered ids that the metadata mentions beside the outer enums are in the set. */
  ghost predicate UsesBesideEnums(ids: set<TypeId>, m: Metadata) {
    && (forall i :: 0 <= i < |m.pallets| ==> PalletUses(ids, m.pallets[i]))
    && (forall i :: 0 <= i < |m.apis| ==> ApiUses(ids, m.apis[i]))
    && ExtrinsicUses(ids, m.extrinsic)
    && (forall i :: 0 <= i < |m.custom| ==> m.custom[i].typeId < |m.types| ==> m.custom[i].typeId in ids)
  }

  ghost predicate Uses(ids: set<TypeId>, m: Metadata) {
    UsesBesideEnums(ids, m) && EnumsUse(ids, m.outerEnums)
  }

  // ---- the renamed metadata has the view of the original ----

  /** The key `g` of a used id is the key `h` of its new id. */
  ghost predicate Follows<K>(g: Keying<K>, r: Renaming, h: Keying<K>, ids: set<TypeId>) {
    forall id :: id in ids ==> h(r(id)) == g(id)
  }

  lemma NewParamsView<K>(g: Keying<K>, r: Renaming, h: Keying<K>, ids: set<TypeId>, params: seq<Param>)
    requires Follows(g, r, h, ids) && ParamsUse(ids, params)
    ensures Map(ViewParam(h), Map(NewParam(r), params)) == Map(ViewParam(g), params)
  {
  }

  lemma NewEntryView<K>(g: Keying<K>, r: Renaming, h: Keying<K>, ids: set<TypeId>, e: StorageEntry)
    requires Follows(g, r, h, ids) && EntryUses(ids, e)
    ensures ViewEntry(h)(NewEntry(r)(e)) == ViewEntry(g)(e)
  {
    assert Map(ViewKey(h), Map(NewKey(r), e.keys)) == Map(ViewKey(g), e.keys);
  }

  lemma NewFunctionView<K>(g: Keying<K>, r: Renaming, h: Keying<K>, ids: set<TypeId>, v: ViewFunction)
    requires Follows(g, r, h, ids) && FunctionUses(ids, v)
    ensures ViewFunction'(h)(NewFunction(r)(v)) == ViewFunction'(g)(v)
  {
    NewParamsView(g, r, h, ids, v.inputs);
  }

  lemma NewPalletView<K>(g: Keying<K>, r: Renaming, h: Keying<K>, ids: set<TypeId>, p: Pallet)
    requires Follows(g, r, h, ids) && PalletUses(ids, p)
    ensures ViewPallet(h)(NewPallet(r)(p)) == ViewPallet(g)(p)
  {
    assert Map(ViewConstant(h), Map(NewConstant(r), p.constants)) == Map(ViewConstant(g), p.constants);
    NewStorageView(g, r, h, ids, p.storage);
    forall i | 0 <= i < |p.viewFunctions|
      ensures ViewFunction'(h)(NewFunction(r)(p.viewFunctions[i])) == ViewFunction'(g)(p.viewFunctions[i])
    {
      NewFunctionView(g, r, h, ids, p.viewFunctions[i]);
    }
    assert Map(ViewFunction'(h), Map(NewFunction(r), p.viewFunctions)) == Map(ViewFunction'(g), p.viewFunctions);
  }

  lemma NewStorageView<K>(g: Keying<K>, r: Renaming, h: Keying<K>, ids: set<TypeId>, storage: Option<Storage>)
    requires Follows(g, r, h, ids)
    requires storage.Some? ==> forall i :: 0 <= i < |storage.value.entries| ==> EntryUses(ids, storage.value.entries[i])
    ensures ViewStorage(h, NewStorage(r, storage)) == ViewStorage(g, storage)
  {
    if storage.Some? {
      var entries := storage.value.entries;
      forall i | 0 <= i < |entries|
        ensures ViewEntry(h)(NewEntry(r)(entries[i])) == ViewEntry(g)(entries[i])
      {
        NewEntryView(g, r, h, ids, entries[i]);
      }
      assert Map(ViewEntry(h), Map(NewEntry(r), entries)) == Map(ViewEntry(g), entries);
    }
  }

  lemma NewApiView<K>(g: Keying<K>, r: Renaming, h: Keying<K>, ids: set<TypeId>, a: RuntimeApi)
    requires Follows(g, r, h, ids) && ApiUses(ids, a)
    ensures ViewApi(h)(NewApi(r)(a)) == ViewApi(g)(a)
  {
    forall i | 0 <= i < |a.methods|
      ensures ViewMethod(h)(NewMethod(r)(a.methods[i])) == ViewMethod(g)(a.methods[i])
    {
      NewParamsView(g, r, h, ids, a.methods[i].inputs);
    }
    assert Map(ViewMethod(h), Map(NewMethod(r), a.methods)) == Map(ViewMethod(g), a.methods);
  }

  lemma NewExtrinsicView<K>(g: Keying<K>, r: Renaming, h: Keying<K>, ids: set<TypeId>, e: Extrinsic)
    requires Follows(g, r, h, ids) && ExtrinsicUses(ids, e) && |e.versions| <= HASH_LEN
    ensures ViewExtrinsic(h, NewExtrinsic(r, e)) == ViewExtrinsic(g, e)
  {
    assert Map(ViewExtension(h), Map(NewExtension(r), e.extensions)) == Map(ViewExtension(g), e.extensions);
  }

  lemma NewListsView<K>(g: Keying<K>, r: Renaming, h: Keying<K>, ids: set<TypeId>, m: Metadata)
    requires Follows(g, r, h, ids) && Uses(ids, m)
    ensures Map(ViewPallet(h), Map(NewPallet(r), m.pallets)) == Map(ViewPallet(g), m.pallets)
    ensures Map(ViewApi(h), Map(NewApi(r), m.apis)) == Map(ViewApi(g), m.apis)
  {
    hide ViewPallet, NewPallet, PalletUses, ViewApi, NewApi, ApiUses, ExtrinsicUses;
    forall i | 0 <= i < |m.pallets|
      ensures ViewPallet(h)(NewPallet(r)(m.pallets[i])) == ViewPallet(g)(m.pallets[i])
    {
      NewPalletView(g, r, h, ids, m.pallets[i]);
    }
    forall i | 0 <= i < |m.apis|
      ensures ViewApi(h)(NewApi(r)(m.apis[i])) == ViewApi(g)(m.apis[i])
    {
      NewApiView(g, r, h, ids, m.apis[i]);
    }
  }

  /** No unregistered id of a custom value is registered in the new registry, as none is if that
      one is no longer than the old one. */
  ghost predicate StayUnregistered(m: Metadata, types: Types) {
    forall i :: 0 <= i < |m.custom| && m.custom[i].typeId >= |m.types| ==> m.custom[i].typeId >= |types|
  }

  /** The registered ids of custom values are among the used ones, and the others stay unregistered. */
  lemma NewView(g: Keying<TypeKey>, r: Renaming, h: Keying<TypeKey>, ids: set<TypeId>, m: Metadata, types: Types)
    requires Follows(g, r, h, ids) && Uses(ids, m) && |m.extrinsic.versions| <= HASH_LEN
    requires StayUnregistered(m, types)
    requires forall id: TypeId :: id >= |m.types| && id >= |types| ==> g(id) == h(r(id))
    ensures View(h, RetainTypes(m, r, types)) == View(g, m)
  {
    NewListsView(g, r, h, ids, m);
    NewExtrinsicView(g, r, h, ids, m.extrinsic);
    assert Map(ViewCustom(h), Map(NewCustom(r), m.custom)) == Map(ViewCustom(g), m.custom);
  }

  // ---- stripping keeps the hash ----

  /** The new registry holds the retained types, which refer to each other only, under their new
      ids, and custom values without a type are still without one. */
  ghost predicate Retains(f: Renaming, retained: set<TypeId>, m: Metadata, types: Types) {
    Closed(types) && Renumbering.Renumbers(f, retained, m.types, types) && StayUnregistered(m, types)
  }

  lemma NewPalletInRange(r: Renaming, ids: set<TypeId>, n: nat, p: Pallet)
    requires PalletUses(ids, p) && forall id :: id in ids ==> r(id) < n
    ensures PalletInRange(n, NewPallet(r)(p))
  {
  }

  lemma NewApiInRange(r: Renaming, ids: set<TypeId>, n: nat, a: RuntimeApi)
    requires ApiUses(ids, a) && forall id :: id in ids ==> r(id) < n
    ensures ApiInRange(n, NewApi(r)(a))
  {
  }

  lemma NewExtrinsicInRange(r: Renaming, ids: set<TypeId>, n: nat, e: Extrinsic)
    requires ExtrinsicUses(ids, e) && forall id :: id in ids ==> r(id) < n
    ensures ExtrinsicInRange(n, NewExtrinsic(r, e))
  {
  }

  lemma StrippedWellFormed(f: Renaming, retained: set<TypeId>, m: Metadata, types: Types)
    requires WellFormed(m) && Retains(f, retained, m, types) && Uses(retained, m)
    ensures WellFormed(RetainTypes(m, NewIds(f, retained), types))
  {
    hide PalletUses, PalletInRange, NewPallet, ApiUses, ApiInRange, NewApi, ExtrinsicUses, ExtrinsicInRange;
    hide Closed, Renumbering.Seen, Renumbering.Injective, Children;
    var r := NewIds(f, retained);
    forall i | 0 <= i < |m.pallets|
      ensures PalletInRange(|types|, NewPallet(r)(m.pallets[i]))
    {
      NewPalletInRange(r, retained, |types|, m.pallets[i]);
    }
    forall i | 0 <= i < |m.apis|
      ensures ApiInRange(|types|, NewApi(r)(m.apis[i]))
    {
      NewApiInRange(r, retained, |types|, m.apis[i]);
    }
    NewExtrinsicInRange(r, retained, |types|, m.extrinsic);
  }

  lemma KeysFollow(f: Renaming, retained: set<TypeId>, types: Types, types': Types)
    requires Renumbering.Renumbers(f, retained, types, types')
    ensures
      var g := NumberKey(types, retained, f, true);
      var h := NumberKey(types', Image(f, retained), Renumbering.Identity(), false);
      var r := NewIds(f, retained);
      && Follows(g, r, h, retained)
      && forall id: TypeId :: id >= |types| && id >= |types'| ==> g(id) == h(r(id))
  {
  }

  lemma RetainedHash(tw: Digest, m: Metadata, f: Renaming, retained: set<TypeId>, types: Types)
    requires WellFormed(m) && Retains(f, retained, m, types) && Uses(retained, m)
    ensures
      var stripped := RetainTypes(m, NewIds(f, retained), types);
      && WellFormed(stripped) && Components(tw, stripped, EVERYTHING) == Components(tw, m, EVERYTHING)
      && MetadataHash(tw, stripped, EVERYTHING) == MetadataHash(tw, m, EVERYTHING)
  {
    hide WellFormed, Components, StayUnregistered, Uses, MetadataHash, View;
    hide NumberKey, NewIds, Follows, Decides, DecidesRegistered;
    StrippedWellFormed(f, retained, m, types);
    WellFormedParts(m);
    WellFormedParts(RetainTypes(m, NewIds(f, retained), types));
    var g := NumberKey(m.types, retained, f, true);
    var h := NumberKey(types, Image(f, retained), Renumbering.Identity(), false);
    NumberKeyDecides(tw, f, retained, m.types, types);
    KeysFollow(f, retained, m.types, types);
    NewView(g, NewIds(f, retained), h, retained, m, types);
    MetadataHashByView(tw, g, m, h, RetainTypes(m, NewIds(f, retained), types));
  }

  /** Main result: the stripped metadata hashes to what the original hashes to through the kept
      names. */
  lemma StrippedHash(tw: Digest, m: Metadata, kept: Filters, f: Renaming, retained: set<TypeId>, types: Types)
    requires WellFormed(m) && kept.customValues
    requires Retains(f, retained, Trim(m, kept), types) && Uses(retained, Trim(m, kept))
    ensures
      var stripped := Strip(m, kept, NewIds(f, retained), types);
      WellFormed(stripped) && MetadataHash(tw, stripped, EVERYTHING) == MetadataHash(tw, m, kept)
  {
    hide WellFormed, Retains, Uses, MetadataHash, NewIds, RetainTypes;
    assert Trim(m, kept).types == m.types;
    TrimWellFormed(m, kept);
    RetainedHash(tw, Trim(m, kept), f, retained, types);
    FilteredHashIsTrimmedHash(tw, m, kept);
  }

  lemma NamesKept(m: Metadata, r: Renaming, types: Types)
    ensures Map(PalletName, RetainTypes(m, r, types).pallets) == Map(PalletName, m.pallets)
    ensures Map(ApiName, RetainTypes(m, r, types).apis) == Map(ApiName, m.apis)
  {
    forall i | 0 <= i < |m.pallets|
      ensures PalletName(NewPallet(r)(m.pallets[i])) == PalletName(m.pallets[i])
    {
    }
    forall i | 0 <= i < |m.apis|
      ensures ApiName(NewApi(r)(m.apis[i])) == ApiName(m.apis[i])
    {
    }
  }

  /** Code generated from metadata with the kept names accepts the original exactly when its hash
      is that of the original through those names. */
  lemma NamesDecideValidity(tw: Digest, m: Metadata, kept: Filters, stripped: Metadata)
    requires WellFormed(m) && WellFormed(stripped) && kept.customValues
    requires Map(PalletName, stripped.pallets) == Map(PalletName, Trim(m, kept).pallets)
    requires Map(ApiName, stripped.apis) == Map(ApiName, Trim(m, kept).apis)
    ensures Valid(tw, Generate(tw, stripped), m)
       <==> MetadataHash(tw, stripped, EVERYTHING) == MetadataHash(tw, m, kept)
  {
    hide WellFormed, MetadataHash;
    var only := ListedOnly(Generate(tw, stripped));
    FilterByNames(PalletName, KeepPallet(kept), KeepPallet(only), m.pallets);
    FilterByNames(ApiName, KeepApi(kept), KeepApi(only), m.apis);
    assert Trim(m, only) == Trim(m, kept);
    FilteredHashIsTrimmedHash(tw, m, only);
    FilteredHashIsTrimmedHash(tw, m, kept);
  }

  /** Hence code generated from stripped metadata accepts the original. */
  lemma StrippedCodeAcceptsOriginal(
      tw: Digest, m: Metadata, kept: Filters, f: Renaming, retained: set<TypeId>, types: Types)
    requires WellFormed(m) && kept.customValues
    requires Retains(f, retained, Trim(m, kept), types) && Uses(retained, Trim(m, kept))
    ensures
      var stripped := Strip(m, kept, NewIds(f, retained), types);
      WellFormed(stripped) && Valid(tw, Generate(tw, stripped), m)
  {
    hide WellFormed, Retains, Uses, MetadataHash, NewIds;
    StrippedHash(tw, m, kept, f, retained, types);
    NamesKept(Trim(m, kept), NewIds(f, retained), types);
    NamesDecideValidity(tw, m, kept, Strip(m, kept, NewIds(f, retained), types));
  }

  /** Filtering by the names of what a filter on names keeps is the same filter. */
  lemma FilterByNames<A(!new)>(name: A -> Name, keep: A -> bool, only: A -> bool, items: seq<A>)
    requires forall x, y :: name(x) == name(y) ==> keep(x) == keep(y)
    requires forall x :: only(x) <==> name(x) in Map(name, Filter(keep, items))
    ensures Filter(only, items) == Filter(keep, items)
  {
    FilterIn(keep, items);
    var kept := Filter(keep, items);
    forall i | 0 <= i < |kept|
      ensures keep(kept[i])
    {
      assert kept[i] in kept;
    }
    forall x | x in items
      ensures only(x) == keep(x)
    {
      if keep(x) {
        var i :| 0 <= i < |kept| && kept[i] == x;
        assert Map(name, kept)[i] == name(x);
      }
    }
    FilterAlike(keep, only, items);
  }

  lemma {:induction false} FilterAlike<A>(keep: A -> bool, only: A -> bool, items: seq<A>)
    requires forall x :: x in items ==> only(x) == keep(x)
    ensures Filter(only, items) == Filter(keep, items)
    decreases |items|
  {
    if items != [] {
      assert items[|items| - 1] in items;
      FilterAlike(keep, only, items[..|items| - 1]);
    }
  }
}
