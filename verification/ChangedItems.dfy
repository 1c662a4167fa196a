/** What one changed item does to the hashes that fold over it: of runtime APIs, pallets, and custom
    values. As long as the digest does not collide on what is fed to it, which is written out in
    bytes, a hash stays the same exactly when the item does, as far as it is hashed. */
module ChangedItems {
  import opened HashBinding
  import opened Hashes
  import opened Lists
  import opened MetadataBinding
  import opened MetadataHashing
  import opened Options
  import opened Registry
  import opened RuntimeMetadata

  // ---- one item ----

  function ConstantBytes(tw: Digest, th: TypeId -> Hash, c: Constant): Bytes {
    tw(c.name) + th(c.ty)
  }

  function ConstantInputs(tw: Digest, th: TypeId -> Hash, c: Constant): set<Bytes> {
    {c.name, ConstantBytes(tw, th, c)}
  }

  /** A constant: its name and the hash of its type, and not its value. */
  lemma ConstantBinds(tw: Digest, th: TypeId -> Hash, c: Constant, th': TypeId -> Hash, c': Constant)
    requires InjectiveOn(tw, ConstantInputs(tw, th, c) + ConstantInputs(tw, th', c'))
    ensures ConstantHasher(tw, th)(c) == ConstantHasher(tw, th')(c') <==> c.name == c'.name && th(c.ty) == th'(c'.ty)
  {
    Joined2(tw(c.name), th(c.ty));
    Joined2(tw(c'.name), th'(c'.ty));
    var x, x' := ConstantBytes(tw, th, c), ConstantBytes(tw, th', c');
    assert x[..32] == tw(c.name) && x[32..] == th(c.ty) && x'[..32] == tw(c'.name) && x'[32..] == th'(c'.ty);
  }

  function CustomBytes(tw: Digest, types: Types, th: TypeId -> Hash, c: CustomValue): Bytes {
    if c.typeId < |types| then tw(c.name) + th(c.typeId) else tw(c.name)
  }

  function CustomInputs(tw: Digest, types: Types, th: TypeId -> Hash, c: CustomValue): set<Bytes> {
    {c.name, CustomBytes(tw, types, th, c)}
  }

  /** The same name, and types with equal hashes or on neither side. */
  ghost predicate SameCustom(
      types: Types, th: TypeId -> Hash, c: CustomValue, types': Types, th': TypeId -> Hash, c': CustomValue)
  {
    && c.name == c'.name && (c.typeId < |types| <==> c'.typeId < |types'|)
    && (c.typeId < |types| && c'.typeId < |types'| ==> th(c.typeId) == th'(c'.typeId))
  }

  /** A custom value: its name, whether its type is registered, and the hash of that type. */
  lemma CustomBinds(
      tw: Digest, types: Types, th: TypeId -> Hash, c: CustomValue, types': Types, th': TypeId -> Hash, c': CustomValue)
    requires InjectiveOn(tw, CustomInputs(tw, types, th, c) + CustomInputs(tw, types', th', c'))
    ensures CustomHasher(tw, types, th)(c) == CustomHasher(tw, types', th')(c')
       <==> SameCustom(types, th, c, types', th', c')
  {
    Joined2(tw(c.name), th(c.typeId));
    Joined2(tw(c'.name), th'(c'.typeId));
    var x, x' := CustomBytes(tw, types, th, c), CustomBytes(tw, types', th', c');
    assert CustomHasher(tw, types, th)(c) == tw(x) && CustomHasher(tw, types', th')(c') == tw(x');
    assert x[..32] == tw(c.name) && x'[..32] == tw(c'.name);
    assert c.typeId < |types| ==> x[32..] == th(c.typeId);
    assert c'.typeId < |types'| ==> x'[32..] == th'(c'.typeId);
  }

  /** Equal names, value types and defaults, where none is like an empty one, and the same hashers and
      key types one by one. */
  ghost predicate SameEntry(th: TypeId -> Hash, e: StorageEntry, e': StorageEntry) {
    && e.name == e'.name && th(e.valueId) == th(e'.valueId)
    && (if e.defaultValue.Some? then e.defaultValue.value else [])
       == (if e'.defaultValue.Some? then e'.defaultValue.value else [])
    && |e.keys| == |e'.keys|
    && (forall i :: 0 <= i < |e.keys| ==> e.keys[i].hasher == e'.keys[i].hasher)
    && (forall i :: 0 <= i < |e.keys| ==> th(e.keys[i].keyId) == th(e'.keys[i].keyId))
  }

  /** A storage entry, among those with as many keys. */
  lemma EntriesBind(tw: Digest, th: TypeId -> Hash, e: StorageEntry, e': StorageEntry)
    requires |e.keys| == |e'.keys|
    requires InjectiveOn(tw, EntryInputs(tw, th, e) + EntryInputs(tw, th, e'))
    ensures StorageEntryHash(tw, th, e) == StorageEntryHash(tw, th, e') <==> SameEntry(th, e, e')
  {
    hide InjectiveOn, EntryInputs, StorageEntryHash, EntryContinues;
    StorageEntryBinds(tw, th, e, th, e');
    if SameEntry(th, e, e') {
      SameEntrySameHash(tw, th, e, e');
    }
  }

  lemma SameEntrySameHash(tw: Digest, th: TypeId -> Hash, e: StorageEntry, e': StorageEntry)
    requires SameEntry(th, e, e')
    ensures StorageEntryHash(tw, th, e) == StorageEntryHash(tw, th, e')
  {
    hide ConcatHash;
    var start := ConcatHash(tw, [tw(e.name), th(e.valueId), tw(DefaultBytes(e))]);
    assert e.keys[0..] == e.keys && e.keys[..0] == [];
    SameKeysRest(tw, th, start, e.keys, 0, th, e'.keys);
  }

  // ---- one item of a list ----

  /** One method of a runtime API is changed. */
  lemma MethodChanged(tw: Digest, th: TypeId -> Hash, a: RuntimeApi, i: nat, m: ApiMethod)
    requires i < |a.methods|
    requires InjectiveOn(tw, MethodInputs(tw, th, a.name, a.methods[i]) + MethodInputs(tw, th, a.name, m))
    ensures ApiHash(tw, th, a) == ApiHash(tw, th, a.(methods := a.methods[i := m]))
       <==> SameMethod(th, a.methods[i], m)
  {
    hide MethodHash, InjectiveOn, MethodInputs, SameParams;
    var h := MethodHasher(tw, th, a.name);
    FoldOneChanged(h, a.methods, i, m);
    MethodsBind(tw, th, a.name, a.methods[i], m);
  }

  /** Equal names, the same parameters in order, and outputs with equal hashes. */
  ghost predicate SameMethod(th: TypeId -> Hash, m: ApiMethod, m': ApiMethod) {
    m.name == m'.name && SameParams(th, m.inputs, th, m'.inputs) && th(m.output) == th(m'.output)
  }

  lemma MethodsBind(tw: Digest, th: TypeId -> Hash, api: Name, m: ApiMethod, m': ApiMethod)
    requires InjectiveOn(tw, MethodInputs(tw, th, api, m) + MethodInputs(tw, th, api, m'))
    ensures MethodHash(tw, th, api, m) == MethodHash(tw, th, api, m') <==> SameMethod(th, m, m')
  {
    hide InjectiveOn, MethodInputs;
    if MethodHash(tw, th, api, m) == MethodHash(tw, th, api, m') {
      MethodBinds(tw, th, api, m, th, api, m');
    } else if SameMethod(th, m, m') {
      var start := ConcatHash(tw, [tw(api), tw(m.name)]);
      assert m.inputs[0..] == m.inputs && m.inputs[..0] == [];
      SameParamsHash(tw, th, start, m.inputs, 0, th, m'.inputs);
    }
  }

  /** One custom value is changed. */
  lemma CustomValueChanged(
      tw: Digest, types: Types, th: TypeId -> Hash, custom: seq<CustomValue>, i: nat, c: CustomValue)
    requires i < |custom|
    requires InjectiveOn(tw, CustomInputs(tw, types, th, custom[i]) + CustomInputs(tw, types, th, c))
    ensures CustomValuesHash(tw, types, th, custom, EVERYTHING)
         == CustomValuesHash(tw, types, th, custom[i := c], EVERYTHING)
       <==> SameCustom(types, th, custom[i], types, th, c)
  {
    FoldOneChanged(CustomHasher(tw, types, th), custom, i, c);
    CustomBinds(tw, types, th, custom[i], types, th, c);
  }

  // ---- one part of a pallet ----

  /** The three enum types, the fold over the constants, the storage and the fold over the view
      functions, each 32 bytes. */
  function PalletBytes(tw: Digest, th: TypeId -> Hash, p: Pallet): Bytes {
    TypeBytes(th, p.callTy) + TypeBytes(th, p.eventTy) + TypeBytes(th, p.errorTy)
    + XorFold(Map(ConstantHasher(tw, th), p.constants)) + StorageHash(tw, th, p.storage)
    + XorFold(Map(ViewFunctionHasher(tw, th), p.viewFunctions))
  }

  /** 32 zeros where there is no such type. */
  function TypeBytes(th: TypeId -> Hash, id: Option<TypeId>): Hash {
    match id case None => seq(32, _ => 0) case Some(ty) => th(ty)
  }

  lemma PalletHashIsDigest(tw: Digest, th: TypeId -> Hash, p: Pallet)
    ensures PalletHash(tw, th, p) == tw(PalletBytes(tw, th, p))
  {
    var a, b, c := TypeBytes(th, p.callTy), TypeBytes(th, p.eventTy), TypeBytes(th, p.errorTy);
    var d, e := XorFold(Map(ConstantHasher(tw, th), p.constants)), StorageHash(tw, th, p.storage);
    var f := XorFold(Map(ViewFunctionHasher(tw, th), p.viewFunctions));
    assert Zero() == seq(32, _ => 0);
    Joined6(a, b, c, d, e, f);
  }

  lemma Joined6(a: Hash, b: Hash, c: Hash, d: Hash, e: Hash, f: Hash)
    ensures Flatten([a, b, c, d, e, f]) == a + b + c + d + e + f
  {
    Joined3(a, b, c);
    assert [a, b, c, d][..3] == [a, b, c];
    assert Flatten([a, b, c, d]) == a + b + c + d;
    assert [a, b, c, d, e][..4] == [a, b, c, d];
    assert Flatten([a, b, c, d, e]) == a + b + c + d + e;
    assert [a, b, c, d, e, f][..5] == [a, b, c, d, e];
  }

  /** What is compared of two pallets. */
  ghost predicate SamePallet(tw: Digest, th: TypeId -> Hash, p: Pallet, p': Pallet) {
    && TypeBytes(th, p.callTy) == TypeBytes(th, p'.callTy) && TypeBytes(th, p.eventTy) == TypeBytes(th, p'.eventTy)
    && TypeBytes(th, p.errorTy) == TypeBytes(th, p'.errorTy)
    && XorFold(Map(ConstantHasher(tw, th), p.constants)) == XorFold(Map(ConstantHasher(tw, th), p'.constants))
    && StorageHash(tw, th, p.storage) == StorageHash(tw, th, p'.storage)
    && XorFold(Map(ViewFunctionHasher(tw, th), p.viewFunctions))
       == XorFold(Map(ViewFunctionHasher(tw, th), p'.viewFunctions))
  }

  lemma PalletsBind(tw: Digest, th: TypeId -> Hash, p: Pallet, p': Pallet)
    requires InjectiveOn(tw, {PalletBytes(tw, th, p), PalletBytes(tw, th, p')})
    ensures PalletHash(tw, th, p) == PalletHash(tw, th, p') <==> SamePallet(tw, th, p, p')
  {
    PalletHashIsDigest(tw, th, p);
    PalletHashIsDigest(tw, th, p');
    SixParts(TypeBytes(th, p.callTy), TypeBytes(th, p.eventTy), TypeBytes(th, p.errorTy),
             XorFold(Map(ConstantHasher(tw, th), p.constants)), StorageHash(tw, th, p.storage),
             XorFold(Map(ViewFunctionHasher(tw, th), p.viewFunctions)),
             TypeBytes(th, p'.callTy), TypeBytes(th, p'.eventTy), TypeBytes(th, p'.errorTy),
             XorFold(Map(ConstantHasher(tw, th), p'.constants)), StorageHash(tw, th, p'.storage),
             XorFold(Map(ViewFunctionHasher(tw, th), p'.viewFunctions)));
  }

  lemma SixParts(
      a: Hash, b: Hash, c: Hash, d: Hash, e: Hash, f: Hash, a': Hash, b': Hash, c': Hash, d': Hash, e': Hash, f': Hash)
    ensures a + b + c + d + e + f == a' + b' + c' + d' + e' + f'
       <==> a == a' && b == b' && c == c' && d == d' && e == e' && f == f'
  {
    if a + b + c + d + e + f == a' + b' + c' + d' + e' + f' {
      Joined6(a, b, c, d, e, f);
      Joined6(a', b', c', d', e', f');
      Six(a, b, c, d, e, f, a', b', c', d', e', f');
    }
  }

  /** The enum types of a pallet are changed. */
  lemma PalletTypesChanged(
      tw: Digest, th: TypeId -> Hash, p: Pallet, call: Option<TypeId>, event: Option<TypeId>, error: Option<TypeId>)
    requires
      var p' := p.(callTy := call, eventTy := event, errorTy := error);
      InjectiveOn(tw, {PalletBytes(tw, th, p), PalletBytes(tw, th, p')})
    ensures
      var p' := p.(callTy := call, eventTy := event, errorTy := error);
      PalletHash(tw, th, p) == PalletHash(tw, th, p')
      <==> TypeBytes(th, p.callTy) == TypeBytes(th, call) && TypeBytes(th, p.eventTy) == TypeBytes(th, event)
           && TypeBytes(th, p.errorTy) == TypeBytes(th, error)
  {
    PalletsBind(tw, th, p, p.(callTy := call, eventTy := event, errorTy := error));
  }

  /** One constant of a pallet is changed. */
  lemma ConstantChanged(tw: Digest, th: TypeId -> Hash, p: Pallet, i: nat, c: Constant)
    requires i < |p.constants|
    requires InjectiveOn(tw, ConstantInputs(tw, th, p.constants[i]) + ConstantInputs(tw, th, c))
    requires InjectiveOn(tw, {PalletBytes(tw, th, p), PalletBytes(tw, th, p.(constants := p.constants[i := c]))})
    ensures PalletHash(tw, th, p) == PalletHash(tw, th, p.(constants := p.constants[i := c]))
       <==> p.constants[i].name == c.name && th(p.constants[i].ty) == th(c.ty)
  {
    hide InjectiveOn, ConstantHasher, PalletHash, PalletBytes, ConstantInputs;
    PalletsBind(tw, th, p, p.(constants := p.constants[i := c]));
    FoldOneChanged(ConstantHasher(tw, th), p.constants, i, c);
    ConstantBinds(tw, th, p.constants[i], th, c);
  }

  /** One view function of a pallet is changed. */
  lemma ViewFunctionChanged(tw: Digest, th: TypeId -> Hash, p: Pallet, i: nat, v: ViewFunction)
    requires i < |p.viewFunctions|
    requires InjectiveOn(tw, ViewFunctionInputs(tw, th, p.viewFunctions[i]) + ViewFunctionInputs(tw, th, v))
    requires
      InjectiveOn(tw, {PalletBytes(tw, th, p), PalletBytes(tw, th, p.(viewFunctions := p.viewFunctions[i := v]))})
    ensures PalletHash(tw, th, p) == PalletHash(tw, th, p.(viewFunctions := p.viewFunctions[i := v]))
       <==> Continues(tw, th, p.viewFunctions[i], th, v) || Continues(tw, th, v, th, p.viewFunctions[i])
  {
    hide InjectiveOn, ViewFunctionHash, PalletHash, PalletBytes, ViewFunctionInputs, Continues;
    PalletsBind(tw, th, p, p.(viewFunctions := p.viewFunctions[i := v]));
    FoldOneChanged(ViewFunctionHasher(tw, th), p.viewFunctions, i, v);
    ViewFunctionBinds(tw, th, p.viewFunctions[i], th, v);
  }

  /** The prefix, and then the fold over the entries. */
  function StorageBytes(tw: Digest, th: TypeId -> Hash, s: Storage): Bytes {
    tw(s.prefix) + XorFold(Map(EntryHasher(tw, th), s.entries))
  }

  lemma StoragesBind(tw: Digest, th: TypeId -> Hash, s: Storage, s': Storage)
    requires InjectiveOn(tw, {s.prefix, s'.prefix, StorageBytes(tw, th, s), StorageBytes(tw, th, s')})
    ensures StorageHash(tw, th, Some(s)) == StorageHash(tw, th, Some(s'))
       <==> s.prefix == s'.prefix
            && XorFold(Map(EntryHasher(tw, th), s.entries)) == XorFold(Map(EntryHasher(tw, th), s'.entries))
  {
    var fold, fold' := XorFold(Map(EntryHasher(tw, th), s.entries)), XorFold(Map(EntryHasher(tw, th), s'.entries));
    Joined2(tw(s.prefix), fold);
    Joined2(tw(s'.prefix), fold');
    var x, x' := StorageBytes(tw, th, s), StorageBytes(tw, th, s');
    assert x[..32] == tw(s.prefix) && x[32..] == fold && x'[..32] == tw(s'.prefix) && x'[32..] == fold';
  }

  /** One storage entry of a pallet is changed. */
  lemma EntryChanged(tw: Digest, th: TypeId -> Hash, p: Pallet, s: Storage, i: nat, e: StorageEntry)
    requires p.storage == Some(s) && i < |s.entries|
    requires InjectiveOn(tw, EntryInputs(tw, th, s.entries[i]) + EntryInputs(tw, th, e))
    requires
      var s' := s.(entries := s.entries[i := e]);
      && InjectiveOn(tw, {s.prefix, StorageBytes(tw, th, s), StorageBytes(tw, th, s')})
      && InjectiveOn(tw, {PalletBytes(tw, th, p), PalletBytes(tw, th, p.(storage := Some(s')))})
    ensures PalletHash(tw, th, p) == PalletHash(tw, th, p.(storage := Some(s.(entries := s.entries[i := e]))))
       <==> EntryContinues(tw, th, s.entries[i], th, e) || EntryContinues(tw, th, e, th, s.entries[i])
  {
    hide InjectiveOn, StorageEntryHash, StorageHash, PalletHash, PalletBytes, StorageBytes, EntryInputs, EntryContinues;
    var s' := s.(entries := s.entries[i := e]);
    PalletsBind(tw, th, p, p.(storage := Some(s')));
    assert {s.prefix, s'.prefix, StorageBytes(tw, th, s), StorageBytes(tw, th, s')}
        == {s.prefix, StorageBytes(tw, th, s), StorageBytes(tw, th, s')};
    StoragesBind(tw, th, s, s');
    FoldOneChanged(EntryHasher(tw, th), s.entries, i, e);
    StorageEntryBinds(tw, th, s.entries[i], th, e);
  }

  /** The prefix of a pallet's storage is changed. */
  lemma PrefixChanged(tw: Digest, th: TypeId -> Hash, p: Pallet, s: Storage, prefix: Name)
    requires p.storage == Some(s)
    requires
      var s' := s.(prefix := prefix);
      && InjectiveOn(tw, {s.prefix, prefix, StorageBytes(tw, th, s), StorageBytes(tw, th, s')})
      && InjectiveOn(tw, {PalletBytes(tw, th, p), PalletBytes(tw, th, p.(storage := Some(s')))})
    ensures PalletHash(tw, th, p) == PalletHash(tw, th, p.(storage := Some(s.(prefix := prefix))))
       <==> s.prefix == prefix
  {
    hide InjectiveOn, StorageHash, PalletHash, PalletBytes, StorageBytes;
    PalletsBind(tw, th, p, p.(storage := Some(s.(prefix := prefix))));
    StoragesBind(tw, th, s, s.(prefix := prefix));
  }
}
