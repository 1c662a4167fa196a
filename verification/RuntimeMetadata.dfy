/** The parts of runtime metadata that hashing, diffing and lookups read. Every list is in
    the order in which the source's ordered map, slice or B-tree yields it. */
module RuntimeMetadata {
  import opened Hashes
  import opened Options
  import opened Registry

  datatype Constant = Constant(name: Name, ty: TypeId, value: Bytes, docs: seq<Name>)

  /** `hasher` is the discriminant of the storage hasher. */
  datatype StorageKey = StorageKey(hasher: bv8, keyId: TypeId)

  datatype StorageEntry = StorageEntry(
    name: Name, keys: seq<StorageKey>, valueId: TypeId, defaultValue: Option<Bytes>, docs: seq<Name>)

  datatype Storage = Storage(prefix: Name, entries: seq<StorageEntry>)

  datatype Param = Param(name: Name, id: TypeId)

  datatype ViewFunction = ViewFunction(
    name: Name, queryId: Hash, inputs: seq<Param>, output: TypeId, docs: seq<Name>)

  datatype Pallet = Pallet(
    name: Name, callTy: Option<TypeId>, eventTy: Option<TypeId>, errorTy: Option<TypeId>,
    constants: seq<Constant>, storage: Option<Storage>, viewFunctions: seq<ViewFunction>, docs: seq<Name>)

  datatype ApiMethod = ApiMethod(name: Name, inputs: seq<Param>, output: TypeId, docs: seq<Name>)

  datatype RuntimeApi = RuntimeApi(name: Name, methods: seq<ApiMethod>, docs: seq<Name>)

  datatype Extension = Extension(identifier: Name, extraTy: TypeId, additionalTy: TypeId)

  datatype Extrinsic = Extrinsic(
    addressTy: TypeId, signatureTy: TypeId, versions: seq<bv8>, extensions: seq<Extension>)

  datatype OuterEnums = OuterEnums(callTy: TypeId, eventTy: TypeId, errorTy: TypeId)

  datatype CustomValue = CustomValue(name: Name, typeId: TypeId)

  datatype Metadata = Metadata(
    types: Types, pallets: seq<Pallet>, apis: seq<RuntimeApi>, extrinsic: Extrinsic,
    outerEnums: OuterEnums, custom: seq<CustomValue>)

  function PalletName(p: Pallet): Name {
    p.name
  }

  function ApiName(a: RuntimeApi): Name {
    a.name
  }

  // ---- every id that hashing resolves is registered ----

  predicate OptionInRange(n: nat, id: Option<TypeId>) {
    id.Some? ==> id.value < n
  }

  predicate ParamsInRange(n: nat, params: seq<Param>) {
    forall i :: 0 <= i < |params| ==> params[i].id < n
  }

  predicate EntryInRange(n: nat, e: StorageEntry) {
    e.valueId < n && forall i :: 0 <= i < |e.keys| ==> e.keys[i].keyId < n
  }

  predicate PalletInRange(n: nat, p: Pallet) {
    && OptionInRange(n, p.callTy) && OptionInRange(n, p.eventTy) && OptionInRange(n, p.errorTy)
    && (forall i :: 0 <= i < |p.constants| ==> p.constants[i].ty < n)
    && (p.storage.Some? ==>
          forall i :: 0 <= i < |p.storage.value.entries| ==> EntryInRange(n, p.storage.value.entries[i]))
    && (forall i :: 0 <= i < |p.viewFunctions| ==>
          p.viewFunctions[i].output < n && ParamsInRange(n, p.viewFunctions[i].inputs))
  }

  predicate ApiInRange(n: nat, a: RuntimeApi) {
    forall i :: 0 <= i < |a.methods| ==> a.methods[i].output < n && ParamsInRange(n, a.methods[i].inputs)
  }

  predicate ExtrinsicInRange(n: nat, e: Extrinsic) {
    && e.addressTy < n && e.signatureTy < n
    && (forall i :: 0 <= i < |e.extensions| ==> e.extensions[i].extraTy < n && e.extensions[i].additionalTy < n)
  }

  /** What the source expects of metadata it hashes: type ids resolve (those of custom values
      need not), and there are at most 32 extrinsic versions. Otherwise it panics. */
  predicate WellFormed(m: Metadata) {
    var n := |m.types|;
    && Closed(m.types)
    && (forall i :: 0 <= i < |m.pallets| ==> PalletInRange(n, m.pallets[i]))
    && (forall i :: 0 <= i < |m.apis| ==> ApiInRange(n, m.apis[i]))
    && ExtrinsicInRange(n, m.extrinsic) && |m.extrinsic.versions| <= HASH_LEN
    && m.outerEnums.callTy < n && m.outerEnums.eventTy < n && m.outerEnums.errorTy < n
  }

  lemma WellFormedParts(m: Metadata)
    requires WellFormed(m)
    ensures Closed(m.types) && |m.extrinsic.versions| <= HASH_LEN
  {
  }
}
