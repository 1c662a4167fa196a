/** Whether generated code accepts metadata in which one item differs: as long as the digest does not
    collide on what is fed to it, exactly when the item is the same, as far as it is hashed. */
module CodeChanges {
  import opened ChangedItems
  import opened Codegen
  import opened HashBinding
  import opened Hashes
  import opened Lists
  import opened MetadataBinding
  import opened MetadataHashing
  import opened Options
  import opened Registry
  import opened RuntimeMetadata

  // ---- the five components ----

  function PalletsFold(tw: Digest, m: Metadata): Hash
    requires WellFormed(m)
  {
    XorFold(Map(PalletHasher(tw, TypeHashes(tw, m.types)), m.pallets))
  }

  function ApisFold(tw: Digest, m: Metadata): Hash
    requires WellFormed(m)
  {
    XorFold(Map(ApiHasher(tw, TypeHashes(tw, m.types)), m.apis))
  }

  function EnumsBytes(tw: Digest, m: Metadata): Bytes
    requires WellFormed(m)
  {
    var th := TypeHashes(tw, m.types);
    th(m.outerEnums.callTy) + th(m.outerEnums.eventTy) + th(m.outerEnums.errorTy)
  }

  function CustomFold(tw: Digest, m: Metadata): Hash
    requires WellFormed(m)
  {
    XorFold(Map(CustomHasher(tw, m.types, TypeHashes(tw, m.types)), m.custom))
  }

  /** Pallets, runtime APIs, outer enums, extrinsic and custom values, 32 bytes each. */
  function MetadataBytes(tw: Digest, m: Metadata): Bytes
    requires WellFormed(m)
  {
    PalletsFold(tw, m) + ApisFold(tw, m) + tw(EnumsBytes(tw, m))
    + ExtrinsicHash(tw, TypeHashes(tw, m.types), m.extrinsic) + CustomFold(tw, m)
  }

  lemma Joined5(a: Hash, b: Hash, c: Hash, d: Hash, e: Hash)
    ensures Flatten([a, b, c, d, e]) == a + b + c + d + e
  {
    Joined3(a, b, c);
    assert [a, b, c, d][..3] == [a, b, c];
    assert Flatten([a, b, c, d]) == a + b + c + d;
    assert [a, b, c, d, e][..4] == [a, b, c, d];
  }

  lemma NothingFiltered<A>(h: A -> Hash, keep: A -> bool, items: seq<A>)
    requires forall i :: 0 <= i < |items| ==> keep(items[i])
    ensures FoldKept(keep, h, items) == XorFold(Map(h, items))
  {
    FoldKeptIsFoldOfFiltered(keep, h, items);
    FilterKeepsAll(keep, items);
  }

  lemma ComponentsLayout(tw: Digest, m: Metadata)
    requires WellFormed(m)
    ensures Components(tw, m, EVERYTHING)
         == [PalletsFold(tw, m), ApisFold(tw, m), tw(EnumsBytes(tw, m)),
             ExtrinsicHash(tw, TypeHashes(tw, m.types), m.extrinsic), CustomFold(tw, m)]
  {
    hide ExtrinsicHash, PalletHasher, ApiHasher, CustomHasher, TypeHashes;
    var th := TypeHashes(tw, m.types);
    NothingFiltered(PalletHasher(tw, th), KeepPallet(EVERYTHING), m.pallets);
    NothingFiltered(ApiHasher(tw, th), KeepApi(EVERYTHING), m.apis);
    Joined3(th(m.outerEnums.callTy), th(m.outerEnums.eventTy), th(m.outerEnums.errorTy));
  }

  lemma MetadataHashIsDigest(tw: Digest, m: Metadata)
    requires WellFormed(m)
    ensures MetadataHash(tw, m, EVERYTHING) == tw(MetadataBytes(tw, m))
  {
    hide WellFormed, Components, PalletsFold, ApisFold, EnumsBytes, ExtrinsicHash, CustomFold;
    WellFormedParts(m);
    ComponentsLayout(tw, m);
    Joined5(PalletsFold(tw, m), ApisFold(tw, m), tw(EnumsBytes(tw, m)),
            ExtrinsicHash(tw, TypeHashes(tw, m.types), m.extrinsic), CustomFold(tw, m));
  }

  /** Equal folds over pallets, runtime APIs and custom values, equal enums and extrinsic hashes. */
  ghost predicate SameComponents(tw: Digest, m: Metadata, m': Metadata)
    requires WellFormed(m) && WellFormed(m')
  {
    && PalletsFold(tw, m) == PalletsFold(tw, m') && ApisFold(tw, m) == ApisFold(tw, m')
    && tw(EnumsBytes(tw, m)) == tw(EnumsBytes(tw, m'))
    && ExtrinsicHash(tw, TypeHashes(tw, m.types), m.extrinsic)
       == ExtrinsicHash(tw, TypeHashes(tw, m'.types), m'.extrinsic)
    && CustomFold(tw, m) == CustomFold(tw, m')
  }

  lemma MetadataBinds(tw: Digest, m: Metadata, m': Metadata)
    requires WellFormed(m) && WellFormed(m') && InjectiveOn(tw, {MetadataBytes(tw, m), MetadataBytes(tw, m')})
    ensures MetadataHash(tw, m, EVERYTHING) == MetadataHash(tw, m', EVERYTHING) <==> SameComponents(tw, m, m')
  {
    hide WellFormed, PalletsFold, ApisFold, EnumsBytes, ExtrinsicHash, CustomFold, MetadataHash;
    WellFormedParts(m);
    WellFormedParts(m');
    MetadataHashIsDigest(tw, m);
    MetadataHashIsDigest(tw, m');
    FiveParts(PalletsFold(tw, m), ApisFold(tw, m), tw(EnumsBytes(tw, m)),
              ExtrinsicHash(tw, TypeHashes(tw, m.types), m.extrinsic), CustomFold(tw, m),
              PalletsFold(tw, m'), ApisFold(tw, m'), tw(EnumsBytes(tw, m')),
              ExtrinsicHash(tw, TypeHashes(tw, m'.types), m'.extrinsic), CustomFold(tw, m'));
  }

  lemma FiveParts(
      a: Hash, b: Hash, c: Hash, d: Hash, e: Hash, a': Hash, b': Hash, c': Hash, d': Hash, e': Hash)
    ensures a + b + c + d + e == a' + b' + c' + d' + e' <==> a == a' && b == b' && c == c' && d == d' && e == e'
  {
    if a + b + c + d + e == a' + b' + c' + d' + e' {
      var parts, parts' := [a, b, c, d, e], [a', b', c', d', e'];
      Joined5(a, b, c, d, e);
      Joined5(a', b', c', d', e');
      FlattenInjective(parts, parts');
      assert parts[0] == parts'[0] && parts[1] == parts'[1] && parts[2] == parts'[2];
      assert parts[3] == parts'[3] && parts[4] == parts'[4];
    }
  }

  // ---- metadata with the same names ----

  ghost predicate SameNames(m: Metadata, m': Metadata) {
    Map(PalletName, m.pallets) == Map(PalletName, m'.pallets) && Map(ApiName, m.apis) == Map(ApiName, m'.apis)
  }

  /** Code generated from metadata accepts other metadata with the same names exactly when the five
      components agree. */
  lemma SameNamesAccepted(tw: Digest, m: Metadata, m': Metadata)
    requires WellFormed(m) && WellFormed(m') && SameNames(m, m')
    requires InjectiveOn(tw, {MetadataBytes(tw, m), MetadataBytes(tw, m')})
    ensures Valid(tw, Generate(tw, m), m') <==> SameComponents(tw, m, m')
  {
    hide WellFormed, SameComponents, MetadataHash, InjectiveOn, MetadataBytes;
    var only := ListedOnly(Generate(tw, m));
    forall i | 0 <= i < |m'.pallets|
      ensures KeepPallet(only)(m'.pallets[i])
    {
      MappedIn(PalletName, m'.pallets, i);
    }
    forall i | 0 <= i < |m'.apis|
      ensures KeepApi(only)(m'.apis[i])
    {
      MappedIn(ApiName, m'.apis, i);
    }
    FilterKeepsAll(KeepPallet(only), m'.pallets);
    FilterKeepsAll(KeepApi(only), m'.apis);
    assert Trim(m', only) == m';
    FilteredHashIsTrimmedHash(tw, m', only);
    MetadataBinds(tw, m, m');
  }

  // ---- one item differs ----

  /** One runtime API differs. */
  lemma ApiDiffers(tw: Digest, m: Metadata, i: nat, a: RuntimeApi)
    requires i < |m.apis| && a.name == m.apis[i].name && WellFormed(m) && WellFormed(m.(apis := m.apis[i := a]))
    requires InjectiveOn(tw, {MetadataBytes(tw, m), MetadataBytes(tw, m.(apis := m.apis[i := a]))})
    ensures
      var th := TypeHashes(tw, m.types);
      Valid(tw, Generate(tw, m), m.(apis := m.apis[i := a])) <==> ApiHash(tw, th, m.apis[i]) == ApiHash(tw, th, a)
  {
    hide WellFormed, InjectiveOn, MetadataBytes, Valid, ApiHash, ExtrinsicHash, CustomHasher, PalletHasher, TypeHashes;
    WellFormedParts(m);
    var m' := m.(apis := m.apis[i := a]);
    MappedSame(ApiName, m.apis, i, a);
    SameNamesAccepted(tw, m, m');
    FoldOneChanged(ApiHasher(tw, TypeHashes(tw, m.types)), m.apis, i, a);
  }

  /** One pallet differs. */
  lemma PalletDiffers(tw: Digest, m: Metadata, i: nat, p: Pallet)
    requires i < |m.pallets| && p.name == m.pallets[i].name
    requires WellFormed(m) && WellFormed(m.(pallets := m.pallets[i := p]))
    requires InjectiveOn(tw, {MetadataBytes(tw, m), MetadataBytes(tw, m.(pallets := m.pallets[i := p]))})
    ensures
      var th := TypeHashes(tw, m.types);
      Valid(tw, Generate(tw, m), m.(pallets := m.pallets[i := p]))
      <==> PalletHash(tw, th, m.pallets[i]) == PalletHash(tw, th, p)
  {
    hide WellFormed, InjectiveOn, MetadataBytes, Valid, PalletHash, ExtrinsicHash, CustomHasher, ApiHasher, TypeHashes;
    WellFormedParts(m);
    var m' := m.(pallets := m.pallets[i := p]);
    MappedSame(PalletName, m.pallets, i, p);
    SameNamesAccepted(tw, m, m');
    FoldOneChanged(PalletHasher(tw, TypeHashes(tw, m.types)), m.pallets, i, p);
  }

  /** Main result: code rejects metadata in which one method of one runtime API has another name,
      other parameters or another output type, and accepts any other change of it. */
  lemma MethodDiffers(tw: Digest, m: Metadata, i: nat, j: nat, x: ApiMethod)
    requires i < |m.apis| && j < |m.apis[i].methods|
    requires
      var a := m.apis[i];
      var m' := m.(apis := m.apis[i := a.(methods := a.methods[j := x])]);
      && WellFormed(m) && WellFormed(m') && InjectiveOn(tw, {MetadataBytes(tw, m), MetadataBytes(tw, m')})
      && InjectiveOn(tw, MethodInputs(tw, TypeHashes(tw, m.types), a.name, a.methods[j])
                         + MethodInputs(tw, TypeHashes(tw, m.types), a.name, x))
    ensures
      var a := m.apis[i];
      Valid(tw, Generate(tw, m), m.(apis := m.apis[i := a.(methods := a.methods[j := x])]))
      <==> SameMethod(TypeHashes(tw, m.types), a.methods[j], x)
  {
    hide WellFormed, InjectiveOn, MetadataBytes, MethodInputs, Valid, ApiHash, TypeHashes, SameMethod, Generate;
    WellFormedParts(m);
    var a := m.apis[i];
    ApiDiffers(tw, m, i, a.(methods := a.methods[j := x]));
    MethodChanged(tw, TypeHashes(tw, m.types), a, j, x);
  }

  /** One constant of one pallet differs. */
  lemma ConstantDiffers(tw: Digest, m: Metadata, i: nat, j: nat, c: Constant)
    requires i < |m.pallets| && j < |m.pallets[i].constants| && WellFormed(m)
    requires
      var p, th := m.pallets[i], TypeHashes(tw, m.types);
      var p' := p.(constants := p.constants[j := c]);
      var m' := m.(pallets := m.pallets[i := p']);
      && WellFormed(m') && InjectiveOn(tw, {MetadataBytes(tw, m), MetadataBytes(tw, m')})
      && InjectiveOn(tw, {PalletBytes(tw, th, p), PalletBytes(tw, th, p')})
      && InjectiveOn(tw, ConstantInputs(tw, th, p.constants[j]) + ConstantInputs(tw, th, c))
    ensures
      var p, th := m.pallets[i], TypeHashes(tw, m.types);
      Valid(tw, Generate(tw, m), m.(pallets := m.pallets[i := p.(constants := p.constants[j := c])]))
      <==> p.constants[j].name == c.name && th(p.constants[j].ty) == th(c.ty)
  {
    hide WellFormed, InjectiveOn, MetadataBytes, PalletBytes, ConstantInputs, Valid, PalletHash, TypeHashes, Generate;
    WellFormedParts(m);
    var p := m.pallets[i];
    PalletDiffers(tw, m, i, p.(constants := p.constants[j := c]));
    ConstantChanged(tw, TypeHashes(tw, m.types), p, j, c);
  }

  /** One view function of one pallet differs. */
  lemma ViewFunctionDiffers(tw: Digest, m: Metadata, i: nat, j: nat, v: ViewFunction)
    requires i < |m.pallets| && j < |m.pallets[i].viewFunctions| && WellFormed(m)
    requires
      var p, th := m.pallets[i], TypeHashes(tw, m.types);
      var p' := p.(viewFunctions := p.viewFunctions[j := v]);
      var m' := m.(pallets := m.pallets[i := p']);
      && WellFormed(m') && InjectiveOn(tw, {MetadataBytes(tw, m), MetadataBytes(tw, m')})
      && InjectiveOn(tw, {PalletBytes(tw, th, p), PalletBytes(tw, th, p')})
      && InjectiveOn(tw, ViewFunctionInputs(tw, th, p.viewFunctions[j]) + ViewFunctionInputs(tw, th, v))
    ensures
      var p, th := m.pallets[i], TypeHashes(tw, m.types);
      Valid(tw, Generate(tw, m), m.(pallets := m.pallets[i := p.(viewFunctions := p.viewFunctions[j := v])]))
      <==> Continues(tw, th, p.viewFunctions[j], th, v) || Continues(tw, th, v, th, p.viewFunctions[j])
  {
    hide WellFormed, InjectiveOn, MetadataBytes, PalletBytes, ViewFunctionInputs, Valid, PalletHash, TypeHashes;
    hide Continues, Generate;
    WellFormedParts(m);
    var p := m.pallets[i];
    PalletDiffers(tw, m, i, p.(viewFunctions := p.viewFunctions[j := v]));
    ViewFunctionChanged(tw, TypeHashes(tw, m.types), p, j, v);
  }

  /** One storage entry of one pallet differs. */
  lemma EntryDiffers(tw: Digest, m: Metadata, i: nat, s: Storage, j: nat, e: StorageEntry)
    requires i < |m.pallets| && m.pallets[i].storage == Some(s) && j < |s.entries| && WellFormed(m)
    requires
      var p, th, s' := m.pallets[i], TypeHashes(tw, m.types), s.(entries := s.entries[j := e]);
      var p' := p.(storage := Some(s'));
      var m' := m.(pallets := m.pallets[i := p']);
      && WellFormed(m') && InjectiveOn(tw, {MetadataBytes(tw, m), MetadataBytes(tw, m')})
      && InjectiveOn(tw, {PalletBytes(tw, th, p), PalletBytes(tw, th, p')})
      && InjectiveOn(tw, {s.prefix, StorageBytes(tw, th, s), StorageBytes(tw, th, s')})
      && InjectiveOn(tw, EntryInputs(tw, th, s.entries[j]) + EntryInputs(tw, th, e))
    ensures
      var p, th, s' := m.pallets[i], TypeHashes(tw, m.types), s.(entries := s.entries[j := e]);
      Valid(tw, Generate(tw, m), m.(pallets := m.pallets[i := p.(storage := Some(s'))]))
      <==> EntryContinues(tw, th, s.entries[j], th, e) || EntryContinues(tw, th, e, th, s.entries[j])
  {
    hide WellFormed, InjectiveOn, MetadataBytes, PalletBytes, StorageBytes, EntryInputs, Valid, PalletHash, TypeHashes;
    hide EntryContinues, Generate;
    WellFormedParts(m);
    var p, s' := m.pallets[i], s.(entries := s.entries[j := e]);
    PalletDiffers(tw, m, i, p.(storage := Some(s')));
    EntryChanged(tw, TypeHashes(tw, m.types), p, s, j, e);
  }

  /** One custom value differs. */
  lemma CustomValueDiffers(tw: Digest, m: Metadata, i: nat, c: CustomValue)
    requires i < |m.custom| && WellFormed(m) && WellFormed(m.(custom := m.custom[i := c]))
    requires InjectiveOn(tw, {MetadataBytes(tw, m), MetadataBytes(tw, m.(custom := m.custom[i := c]))})
    requires
      var th := TypeHashes(tw, m.types);
      InjectiveOn(tw, CustomInputs(tw, m.types, th, m.custom[i]) + CustomInputs(tw, m.types, th, c))
    ensures
      var th := TypeHashes(tw, m.types);
      Valid(tw, Generate(tw, m), m.(custom := m.custom[i := c]))
      <==> SameCustom(m.types, th, m.custom[i], m.types, th, c)
  {
    hide WellFormed, InjectiveOn, MetadataBytes, CustomInputs, Valid, CustomHash, ExtrinsicHash, ApiHasher;
    hide PalletHasher, TypeHashes, SameCustom, Generate;
    WellFormedParts(m);
    var m' := m.(custom := m.custom[i := c]);
    SameNamesAccepted(tw, m, m');
    CustomValueChanged(tw, m.types, TypeHashes(tw, m.types), m.custom, i, c);
  }

  /** The outer enums differ. */
  lemma OuterEnumsDiffer(tw: Digest, m: Metadata, o: OuterEnums)
    requires WellFormed(m) && WellFormed(m.(outerEnums := o))
    requires InjectiveOn(tw, {MetadataBytes(tw, m), MetadataBytes(tw, m.(outerEnums := o))})
    requires InjectiveOn(tw, {EnumsBytes(tw, m), EnumsBytes(tw, m.(outerEnums := o))})
    ensures
      var th, was := TypeHashes(tw, m.types), m.outerEnums;
      Valid(tw, Generate(tw, m), m.(outerEnums := o))
      <==> th(was.callTy) == th(o.callTy) && th(was.eventTy) == th(o.eventTy) && th(was.errorTy) == th(o.errorTy)
  {
    hide WellFormed, MetadataBytes, Valid, ExtrinsicHash, CustomHasher, ApiHasher, PalletHasher, TypeHashes, Generate;
    WellFormedParts(m);
    var th, was := TypeHashes(tw, m.types), m.outerEnums;
    SameNamesAccepted(tw, m, m.(outerEnums := o));
    ThreeParts(th(was.callTy), th(was.eventTy), th(was.errorTy), th(o.callTy), th(o.eventTy), th(o.errorTy));
  }

  lemma ThreeParts(a: Hash, b: Hash, c: Hash, a': Hash, b': Hash, c': Hash)
    ensures a + b + c == a' + b' + c' <==> a == a' && b == b' && c == c'
  {
    if a + b + c == a' + b' + c' {
      Joined3(a, b, c);
      Joined3(a', b', c');
      Three(a, b, c, a', b', c');
    }
  }

  // ---- the extrinsic differs ----

  /** Byte `i` of the supported versions, zero where there are fewer. */
  function VersionAt(versions: seq<bv8>, i: nat): bv8 {
    if i < |versions| then versions[i] else 0
  }

  /** The same versions up to trailing zeros. */
  ghost predicate SameVersions(versions: seq<bv8>, versions': seq<bv8>) {
    forall i :: 0 <= i < 32 ==> VersionAt(versions, i) == VersionAt(versions', i)
  }

  lemma VersionsBind(versions: seq<bv8>, versions': seq<bv8>)
    requires |versions| <= HASH_LEN && |versions'| <= HASH_LEN
    ensures VersionBytes(versions) == VersionBytes(versions') <==> SameVersions(versions, versions')
  {
    var x, x' := VersionBytes(versions), VersionBytes(versions');
    assert forall i :: 0 <= i < 32 ==> x[i] == VersionAt(versions, i) && x'[i] == VersionAt(versions', i);
  }

  ghost predicate SameExtrinsic(th: TypeId -> Hash, e: Extrinsic, e': Extrinsic) {
    && th(e.addressTy) == th(e'.addressTy) && th(e.signatureTy) == th(e'.signatureTy)
    && SameVersions(e.versions, e'.versions) && SameExtensions(th, e.extensions, th, e'.extensions)
  }

  lemma {:induction false} SameExtensionsHash(
      tw: Digest, th: TypeId -> Hash, start: Hash, xs: seq<Extension>, xs': seq<Extension>)
    requires SameExtensions(th, xs, th, xs')
    ensures ExtensionsHash(tw, th, start, xs) == ExtensionsHash(tw, th, start, xs')
    decreases |xs|
  {
    hide ConcatHash;
    if xs != [] {
      SameExtensionsHash(tw, th, start, xs[..|xs| - 1], xs'[..|xs| - 1]);
    }
  }

  lemma ExtrinsicsBind(tw: Digest, th: TypeId -> Hash, e: Extrinsic, e': Extrinsic)
    requires |e.versions| <= HASH_LEN && |e'.versions| <= HASH_LEN
    requires InjectiveOn(tw, ExtrinsicInputs(tw, th, e) + ExtrinsicInputs(tw, th, e'))
    ensures ExtrinsicHash(tw, th, e) == ExtrinsicHash(tw, th, e') <==> SameExtrinsic(th, e, e')
  {
    hide InjectiveOn, ExtrinsicInputs, ExtensionsHash, SameExtensions, SameVersions, VersionBytes, ConcatHash;
    VersionsBind(e.versions, e'.versions);
    if ExtrinsicHash(tw, th, e) == ExtrinsicHash(tw, th, e') {
      ExtrinsicBinds(tw, th, e, th, e');
    } else if SameExtrinsic(th, e, e') {
      var start := ConcatHash(tw, [th(e.addressTy), th(e.signatureTy), VersionBytes(e.versions)]);
      SameExtensionsHash(tw, th, start, e.extensions, e'.extensions);
    }
  }

  /** The extrinsic differs. */
  lemma ExtrinsicDiffers(tw: Digest, m: Metadata, e: Extrinsic)
    requires WellFormed(m) && WellFormed(m.(extrinsic := e))
    requires InjectiveOn(tw, {MetadataBytes(tw, m), MetadataBytes(tw, m.(extrinsic := e))})
    requires
      var th := TypeHashes(tw, m.types);
      && |m.extrinsic.versions| <= HASH_LEN && |e.versions| <= HASH_LEN
      && InjectiveOn(tw, ExtrinsicInputs(tw, th, m.extrinsic) + ExtrinsicInputs(tw, th, e))
    ensures
      Valid(tw, Generate(tw, m), m.(extrinsic := e)) <==> SameExtrinsic(TypeHashes(tw, m.types), m.extrinsic, e)
  {
    hide WellFormed, InjectiveOn, MetadataBytes, ExtrinsicInputs, Valid, ExtrinsicHash, CustomHasher, ApiHasher;
    hide PalletHasher, TypeHashes, SameExtrinsic, Generate;
    WellFormedParts(m);
    SameNamesAccepted(tw, m, m.(extrinsic := e));
    ExtrinsicsBind(tw, TypeHashes(tw, m.types), m.extrinsic, e);
  }

  // ---- custom values left out ----

  /** Once custom values are ignored, the hash does not depend on them, whatever the other filters. */
  lemma CustomValuesIgnored(tw: Digest, m: Metadata, custom: seq<CustomValue>, filters: Filters)
    requires WellFormed(m) && WellFormed(m.(custom := custom)) && !filters.customValues
    ensures MetadataHash(tw, m.(custom := custom), filters) == MetadataHash(tw, m, filters)
  {
    hide FoldKept, OuterEnumsHash, ExtrinsicHash, CustomHasher;
    assert Components(tw, m.(custom := custom), filters) == Components(tw, m, filters);
  }
}
