/** What stripping does beyond that in version 14, whose outer enums are found again or generated
    afterwards, and in version 16, which keeps the System pallet but empties it. In both, code
    generated from the stripped metadata need not accept the original. */
module StrippedVersions {
  import opened ChangedItems
  import opened Codegen
  import opened Hashes
  import opened Lists
  import opened MetadataHashing
  import opened Options
  import opened Registry
  import opened RuntimeMetadata
  import opened Search
  import opened Stripping

  // ---- version 14 ----

  /** The outer enums are looked up in the new registry, to which a generated one may have been
      added; stripping itself does not keep them. */
  function Strip14(m: Metadata, kept: Filters, r: Renaming, types: Types, enums: OuterEnums): Metadata {
    Strip(m, kept, r, types).(outerEnums := enums)
  }

  /** With outer enums that are certainly retained. */
  function Stand(m: Metadata): Metadata {
    var a := m.extrinsic.addressTy;
    m.(outerEnums := OuterEnums(a, a, a))
  }

  lemma EnumsAreOneComponent(tw: Digest, m: Metadata, enums: OuterEnums, filters: Filters, i: nat)
    requires WellFormed(m) && WellFormed(m.(outerEnums := enums)) && i < 5 && i != 2
    ensures Components(tw, m.(outerEnums := enums), filters)[i] == Components(tw, m, filters)[i]
  {
  }

  lemma StandIsUsable(m: Metadata, f: Renaming, retained: set<TypeId>, types: Types)
    requires WellFormed(m) && Retains(f, retained, m, types) && UsesBesideEnums(retained, m)
    ensures WellFormed(Stand(m)) && Retains(f, retained, Stand(m), types) && Uses(retained, Stand(m))
  {
  }

  lemma EnumsChanged(m: Metadata, enums: OuterEnums)
    requires WellFormed(m) && EnumsUse(IdsBelow(|m.types|), enums)
    ensures WellFormed(m.(outerEnums := enums))
  {
    hide PalletInRange, ApiInRange, ExtrinsicInRange, Closed;
  }

  lemma EnumsComponent(tw: Digest, m: Metadata, filters: Filters)
    requires WellFormed(m)
    ensures Components(tw, m, filters)[2] == OuterEnumsHash(tw, TypeHashes(tw, m.types), m.outerEnums)
  {
  }

  lemma Strip14Components(
      tw: Digest, m: Metadata, kept: Filters, f: Renaming, retained: set<TypeId>, types: Types, enums: OuterEnums)
    requires WellFormed(m) && Retains(f, retained, Trim(m, kept), types)
    requires UsesBesideEnums(retained, Trim(m, kept)) && EnumsUse(IdsBelow(|types|), enums)
    ensures
      var stripped := Strip14(m, kept, NewIds(f, retained), types, enums);
      && WellFormed(stripped)
      && AgreeBut(Components(tw, stripped, EVERYTHING), Components(tw, m, kept), 2)
  {
    hide WellFormed, Components, Retains, Uses, UsesBesideEnums, NewIds, EnumsUse, Trim;
    TrimWellFormed(m, kept);
    FilteredHashIsTrimmedHash(tw, m, kept);
    var trimmed, r := Trim(m, kept), NewIds(f, retained);
    StandIsUsable(trimmed, f, retained, types);
    RetainedHash(tw, Stand(trimmed), f, retained, types);
    var standing := RetainTypes(Stand(trimmed), r, types);
    EnumsChanged(standing, enums);
    assert standing.(outerEnums := enums) == Strip14(m, kept, r, types, enums);
    assert Stand(trimmed).(outerEnums := trimmed.outerEnums) == trimmed;
    forall i | 0 <= i < 5 && i != 2
      ensures Components(tw, standing.(outerEnums := enums), EVERYTHING)[i] == Components(tw, m, kept)[i]
    {
      EnumsAreOneComponent(tw, standing, enums, EVERYTHING, i);
      EnumsAreOneComponent(tw, Stand(trimmed), trimmed.outerEnums, EVERYTHING, i);
    }
  }

  /** Exactly when the stripped metadata keeps the hash and its code accepts the original: the
      outer enums that are found or generated afterwards have the hash of the original ones. */
  lemma Strip14ExactlyWhen(
      tw: Digest, m: Metadata, kept: Filters, f: Renaming, retained: set<TypeId>, types: Types, enums: OuterEnums)
    requires WellFormed(m) && kept.customValues && Retains(f, retained, Trim(m, kept), types)
    requires UsesBesideEnums(retained, Trim(m, kept)) && EnumsUse(IdsBelow(|types|), enums)
    ensures
      var stripped := Strip14(m, kept, NewIds(f, retained), types, enums);
      && WellFormed(stripped)
      && var parts, parts' := Components(tw, stripped, EVERYTHING), Components(tw, m, kept);
         var same := OuterEnumsHash(tw, TypeHashes(tw, types), enums)
                  == OuterEnumsHash(tw, TypeHashes(tw, m.types), m.outerEnums);
         && (MetadataHash(tw, stripped, EVERYTHING) == MetadataHash(tw, m, kept)
             <==> same || Collide(tw, Flatten(parts), Flatten(parts')))
         && (Valid(tw, Generate(tw, stripped), m) <==> same || Collide(tw, Flatten(parts), Flatten(parts')))
  {
    hide WellFormed, Retains, UsesBesideEnums, NewIds, EnumsUse, Trim, Flatten, Collide, Components, MetadataHash;
    hide OuterEnumsHash;
    var stripped := Strip14(m, kept, NewIds(f, retained), types, enums);
    Strip14Components(tw, m, kept, f, retained, types, enums);
    HashesApart(tw, stripped, EVERYTHING, m, kept, 2);
    EnumsComponent(tw, stripped, EVERYTHING);
    EnumsComponent(tw, m, kept);
    NamesKept(Trim(m, kept), NewIds(f, retained), types);
    NamesDecideValidity(tw, m, kept, stripped);
  }

  // ---- version 16 ----

  const SYSTEM: Name := [0x53, 0x79, 0x73, 0x74, 0x65, 0x6d]

  function WithSystem(kept: Filters): Filters {
    match kept.pallets case None => kept case Some(names) => kept.(pallets := Some(names + [SYSTEM]))
  }

  /** The first pallet with the name. */
  function FirstNamed(name: Name, pallets: seq<Pallet>): (found: Option<nat>)
    ensures found.Some? ==> found.value < |pallets| && pallets[found.value].name == name
    ensures found.Some? ==> forall i :: 0 <= i < found.value ==> pallets[i].name != name
    ensures found.None? ==> forall i :: 0 <= i < |pallets| ==> pallets[i].name != name
  {
    if pallets == [] then None
    else
      var n := |pallets| - 1;
      match FirstNamed(name, pallets[..n])
      case Some(i) => Some(i)
      case None => if pallets[n].name == name then Some(n) else None
  }

  function Emptied(p: Pallet): Pallet {
    Pallet(p.name, None, None, None, [], None, [], [])
  }

  /** A System pallet that was only kept for its associated types loses everything else. */
  function EmptySystem(kept: Filters, pallets: seq<Pallet>): seq<Pallet> {
    var found := FirstNamed(SYSTEM, pallets);
    if Listed(kept.pallets, SYSTEM) || found.None? then pallets
    else pallets[found.value := Emptied(pallets[found.value])]
  }

  lemma EmptySystemNames(kept: Filters, pallets: seq<Pallet>)
    ensures Map(PalletName, EmptySystem(kept, pallets)) == Map(PalletName, pallets)
  {
    forall i | 0 <= i < |pallets|
      ensures PalletName(EmptySystem(kept, pallets)[i]) == PalletName(pallets[i])
    {
    }
  }

  function Trim16(m: Metadata, kept: Filters): Metadata {
    var trimmed := Trim(m, WithSystem(kept));
    trimmed.(pallets := EmptySystem(kept, trimmed.pallets))
  }

  function Strip16(m: Metadata, kept: Filters, r: Renaming, types: Types): Metadata {
    RetainTypes(Trim16(m, kept), r, types)
  }

  lemma Trim16WellFormed(m: Metadata, kept: Filters)
    requires WellFormed(m)
    ensures WellFormed(Trim16(m, kept))
  {
    hide Closed;
    TrimWellFormed(m, WithSystem(kept));
  }

  /** Nothing is emptied, or emptying the System pallet does not show in its hash. */
  ghost predicate SystemUnchanged(tw: Digest, m: Metadata, kept: Filters)
    requires Closed(m.types)
  {
    var pallets, th := Trim(m, WithSystem(kept)).pallets, TypeHashes(tw, m.types);
    var found := FirstNamed(SYSTEM, pallets);
    Listed(kept.pallets, SYSTEM) || found.None?
    || PalletHash(tw, th, pallets[found.value]) == PalletHash(tw, th, Emptied(pallets[found.value]))
  }

  lemma EmptySystemFold(tw: Digest, m: Metadata, kept: Filters)
    requires WellFormed(m)
    ensures
      var th, pallets := TypeHashes(tw, m.types), Trim(m, WithSystem(kept)).pallets;
      PalletsHash(tw, th, EmptySystem(kept, pallets), EVERYTHING) == PalletsHash(tw, th, pallets, EVERYTHING)
      <==> SystemUnchanged(tw, m, kept)
  {
    hide PalletHash;
    var h, pallets := PalletHasher(tw, TypeHashes(tw, m.types)), Trim(m, WithSystem(kept)).pallets;
    var emptied := EmptySystem(kept, pallets);
    FoldKeptIsFoldOfFiltered(KeepPallet(EVERYTHING), h, pallets);
    FoldKeptIsFoldOfFiltered(KeepPallet(EVERYTHING), h, emptied);
    FilterKeepsAll(KeepPallet(EVERYTHING), pallets);
    FilterKeepsAll(KeepPallet(EVERYTHING), emptied);
    var found := FirstNamed(SYSTEM, pallets);
    if !Listed(kept.pallets, SYSTEM) && found.Some? {
      FoldOneChanged(h, pallets, found.value, Emptied(pallets[found.value]));
    }
  }

  /** Exactly when code generated from the stripped metadata accepts the original: the System
      pallet was kept, or is missing, or its hash is that of an empty pallet. */
  lemma Strip16ExactlyWhen(
      tw: Digest, m: Metadata, kept: Filters, f: Renaming, retained: set<TypeId>, types: Types)
    requires WellFormed(m) && kept.customValues
    requires Retains(f, retained, Trim16(m, kept), types) && Uses(retained, Trim16(m, kept))
    ensures
      var stripped := Strip16(m, kept, NewIds(f, retained), types);
      && WellFormed(stripped)
      && var parts, parts' := Components(tw, stripped, EVERYTHING), Components(tw, m, WithSystem(kept));
         Valid(tw, Generate(tw, stripped), m)
         <==> SystemUnchanged(tw, m, kept) || Collide(tw, Flatten(parts), Flatten(parts'))
  {
    hide WellFormed, Retains, Uses, NewIds, Flatten, Collide, SystemUnchanged, EmptySystem, Components, MetadataHash;
    var stripped := Strip16(m, kept, NewIds(f, retained), types);
    Trim16WellFormed(m, kept);
    RetainedHash(tw, Trim16(m, kept), f, retained, types);
    EmptiedComponents(tw, m, kept);
    HashesApart(tw, stripped, EVERYTHING, m, WithSystem(kept), 0);
    EmptySystemNames(kept, Trim(m, WithSystem(kept)).pallets);
    NamesKept(Trim16(m, kept), NewIds(f, retained), types);
    NamesDecideValidity(tw, m, WithSystem(kept), stripped);
  }

  lemma EmptiedComponents(tw: Digest, m: Metadata, kept: Filters)
    requires WellFormed(m) && WellFormed(Trim16(m, kept))
    ensures
      var parts, parts' := Components(tw, Trim16(m, kept), EVERYTHING), Components(tw, m, WithSystem(kept));
      && (parts[0] == parts'[0] <==> SystemUnchanged(tw, m, kept))
      && AgreeBut(parts, parts', 0)
  {
    hide WellFormed, SystemUnchanged, EmptySystem, FoldKept, OuterEnumsHash, ExtrinsicHash, CustomValuesHash;
    FilteredHashIsTrimmedHash(tw, m, WithSystem(kept));
    EmptySystemFold(tw, m, kept);
  }

  /** Of an emptied pallet nothing is hashed: six times 32 zeros. */
  lemma EmptiedIsZeros(tw: Digest, th: TypeId -> Hash, p: Pallet)
    ensures PalletHash(tw, th, Emptied(p)) == tw(seq(192, _ => 0)) && Emptied(p).name == p.name
  {
    var q := Emptied(p);
    assert Map(ConstantHasher(tw, th), q.constants) == [] && Map(ViewFunctionHasher(tw, th), q.viewFunctions) == [];
    PalletHashIsDigest(tw, th, q);
    var z: Hash := seq(32, _ => 0);
    assert Zero() == z;
    assert PalletBytes(tw, th, q) == z + z + z + z + z + z == seq(192, _ => 0);
  }

  lemma SystemIsSystem(name: Name)
    ensures IsSystem(name) <==> name == SYSTEM
  {
    var text := "System";
    assert |SYSTEM| == |text| == 6;
    assert forall i :: 0 <= i < 6 ==> SYSTEM[i] as int == text[i] as int;
    if IsSystem(name) {
      forall i | 0 <= i < 6
        ensures name[i] == SYSTEM[i]
      {
        assert name[i] as int == text[i] as int == SYSTEM[i] as int;
      }
    }
  }

  lemma TrimmedNames(m: Metadata, filters: Filters, name: Name)
    ensures name in Map(PalletName, Trim(m, filters).pallets)
       <==> name in Map(PalletName, m.pallets) && Listed(filters.pallets, name)
  {
    FilterIn(KeepPallet(filters), m.pallets);
    InKeys(PalletName, m.pallets);
    InKeys(PalletName, Trim(m, filters).pallets);
  }

  /** The pallets that are left: those with the kept names, and one called System. */
  lemma Strip16Names(m: Metadata, kept: Filters, f: Renaming, retained: set<TypeId>, types: Types, name: Name)
    ensures name in Map(PalletName, Strip16(m, kept, NewIds(f, retained), types).pallets)
       <==> name in Map(PalletName, m.pallets) && (Listed(kept.pallets, name) || IsSystem(name))
  {
    EmptySystemNames(kept, Trim(m, WithSystem(kept)).pallets);
    NamesKept(Trim16(m, kept), NewIds(f, retained), types);
    TrimmedNames(m, WithSystem(kept), name);
    SystemIsSystem(name);
  }

  /** The bytes of the name, one per character. */
  ghost predicate IsSystem(name: Name) {
    var text := "System";
    |name| == |text| && forall i :: 0 <= i < |text| ==> name[i] as int == text[i] as int
  }
}
