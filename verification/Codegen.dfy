/** The validity check of generated code: the names of all pallets and runtime APIs and the
    full metadata hash are baked in, and other metadata is valid when hashing just the
    listed parts of it gives that hash. */
module Codegen {
  import opened Hashes
  import opened Lists
  import opened Options
  import opened Registry
  import opened RuntimeMetadata
  import opened MetadataHashing

  datatype Generated = Generated(pallets: seq<Name>, runtimeApis: seq<Name>, metadataHash: Hash)

  function Generate(tw: Digest, m: Metadata): Generated
    requires WellFormed(m)
  {
    Generated(Map(PalletName, m.pallets), Map(ApiName, m.apis), MetadataHash(tw, m, EVERYTHING))
  }

  function ListedOnly(code: Generated): Filters {
    Filters(Some(code.pallets), Some(code.runtimeApis), true)
  }

  method IsCodegenValidFor(tw: Digest, code: Generated, m: Metadata) returns (valid: bool)
    requires WellFormed(m)
    ensures valid == (MetadataHash(tw, m, ListedOnly(code)) == code.metadataHash)
  {
    var hasher := new MetadataHasher(m);
    hasher.OnlyThesePallets(code.pallets);
    hasher.OnlyTheseRuntimeApis(code.runtimeApis);
    valid := hasher.Hash(tw) == code.metadataHash;
  }

  ghost predicate Valid(tw: Digest, code: Generated, m: Metadata)
    requires WellFormed(m)
  {
    MetadataHash(tw, m, ListedOnly(code)) == code.metadataHash
  }

  // ---- extra pallets and runtime APIs ----

  /** `items` all occur in `items'` under their names, with equal hashes. */
  ghost predicate KeepsNamed<A>(name: A -> Name, h: A -> Hash, items: seq<A>, h': A -> Hash, items': seq<A>) {
    forall i :: 0 <= i < |items| ==>
      exists j :: 0 <= j < |items'| && name(items'[j]) == name(items[i]) && h'(items'[j]) == h(items[i])
  }

  ghost predicate KeepsListed<A(!new)>(name: A -> Name, keep: A -> bool, items: seq<A>) {
    forall x :: keep(x) <==> name(x) in Map(name, items)
  }

  /** The names of what is kept are the listed ones, each once. */
  lemma KeptNames<A(!new)>(
      name: A -> Name, keep: A -> bool, h: A -> Hash, items: seq<A>, h': A -> Hash, items': seq<A>)
    requires Distinct(Map(name, items)) && Distinct(Map(name, items'))
    requires KeepsListed(name, keep, items) && KeepsNamed(name, h, items, h', items')
    ensures multiset(Map(name, Filter(keep, items'))) == multiset(Map(name, items))
  {
    var kept := Filter(keep, items');
    FilterIn(keep, items');
    FilterDistinct(keep, name, items');
    var names, names' := Map(name, items), Map(name, kept);
    forall x
      ensures x in names <==> x in names'
    {
      if x in names {
        var i :| 0 <= i < |names| && names[i] == x;
        var j :| 0 <= j < |items'| && name(items'[j]) == name(items[i]) && h'(items'[j]) == h(items[i]);
        assert items'[j] in items' && keep(items'[j]);
        assert items'[j] in kept;
        var k :| 0 <= k < |kept| && kept[k] == items'[j];
        assert names'[k] == x;
      }
      if x in names' {
        var k :| 0 <= k < |names'| && names'[k] == x;
        assert kept[k] in kept && keep(kept[k]);
      }
    }
    SameElementsSameMultiset(names', names);
  }

  /** An item that is kept has the hash of the listed one with its name. */
  lemma KeptHash<A(!new)>(
      name: A -> Name, keep: A -> bool, h: A -> Hash, items: seq<A>, h': A -> Hash, items': seq<A>, k: nat, i: nat)
    requires Distinct(Map(name, items')) && KeepsNamed(name, h, items, h', items')
    requires k < |Filter(keep, items')| && i < |items| && name(Filter(keep, items')[k]) == name(items[i])
    ensures h'(Filter(keep, items')[k]) == h(items[i])
  {
    var j :| 0 <= j < |items'| && name(items'[j]) == name(items[i]) && h'(items'[j]) == h(items[i]);
    var l := FilterFrom(keep, items', k);
    assert Map(name, items')[l] == Map(name, items')[j];
  }

  /** Extra items under new names do not disturb the fold over the listed names. */
  lemma FoldOfListed<A(!new)>(name: A -> Name, keep: A -> bool, all: A -> bool,
                              h: A -> Hash, items: seq<A>, h': A -> Hash, items': seq<A>)
    requires Distinct(Map(name, items)) && Distinct(Map(name, items'))
    requires KeepsListed(name, keep, items) && forall x :: all(x)
    requires KeepsNamed(name, h, items, h', items')
    ensures FoldKept(keep, h', items') == FoldKept(all, h, items)
  {
    hide KeepsListed, KeepsNamed, Distinct, Filter, XorFold;
    var kept := Filter(keep, items');
    var names, names' := Map(name, items), Map(name, kept);
    KeptNames(name, keep, h, items, h', items');
    forall k, i | 0 <= k < |names'| && 0 <= i < |names| && names'[k] == names[i]
      ensures Map(h', kept)[k] == Map(h, items)[i]
    {
      KeptHash(name, keep, h, items, h', items', k, i);
    }
    XorFoldByKeys(names', Map(h', kept), names, Map(h, items));
    FoldKeptIsFoldOfFiltered(keep, h', items');
    FoldKeptIsFoldOfFiltered(all, h, items);
    FilterKeepsAll(all, items);
  }

  /** `m'` still has every pallet and runtime API of `m`, by name and with the same hash, and
      agrees on the hashes of outer enums, extrinsic and custom values. */
  ghost predicate StillOffers(tw: Digest, m: Metadata, m': Metadata)
    requires WellFormed(m) && WellFormed(m')
  {
    var th, th' := TypeHashes(tw, m.types), TypeHashes(tw, m'.types);
    && KeepsNamed(PalletName, PalletHasher(tw, th), m.pallets, PalletHasher(tw, th'), m'.pallets)
    && KeepsNamed(ApiName, ApiHasher(tw, th), m.apis, ApiHasher(tw, th'), m'.apis)
    && OuterEnumsHash(tw, th, m.outerEnums) == OuterEnumsHash(tw, th', m'.outerEnums)
    && ExtrinsicHash(tw, th, m.extrinsic) == ExtrinsicHash(tw, th', m'.extrinsic)
    && CustomValuesHash(tw, m.types, th, m.custom, EVERYTHING)
       == CustomValuesHash(tw, m'.types, th', m'.custom, EVERYTHING)
  }

  ghost predicate DistinctNames(m: Metadata) {
    Distinct(Map(PalletName, m.pallets)) && Distinct(Map(ApiName, m.apis))
  }

  lemma PalletsStillFold(tw: Digest, m: Metadata, m': Metadata)
    requires WellFormed(m) && WellFormed(m') && DistinctNames(m) && DistinctNames(m') && StillOffers(tw, m, m')
    ensures Components(tw, m', ListedOnly(Generate(tw, m)))[0] == Components(tw, m, EVERYTHING)[0]
  {
    hide FoldKept, KeepsNamed, MetadataHash, OuterEnumsHash, ExtrinsicHash, CustomValuesHash;
    FoldOfListed(PalletName, KeepPallet(ListedOnly(Generate(tw, m))), KeepPallet(EVERYTHING),
                 PalletHasher(tw, TypeHashes(tw, m.types)), m.pallets,
                 PalletHasher(tw, TypeHashes(tw, m'.types)), m'.pallets);
  }

  lemma ApisStillFold(tw: Digest, m: Metadata, m': Metadata)
    requires WellFormed(m) && WellFormed(m') && DistinctNames(m) && DistinctNames(m') && StillOffers(tw, m, m')
    ensures Components(tw, m', ListedOnly(Generate(tw, m)))[1] == Components(tw, m, EVERYTHING)[1]
  {
    hide FoldKept, KeepsNamed, MetadataHash, OuterEnumsHash, ExtrinsicHash, CustomValuesHash;
    FoldOfListed(ApiName, KeepApi(ListedOnly(Generate(tw, m))), KeepApi(EVERYTHING),
                 ApiHasher(tw, TypeHashes(tw, m.types)), m.apis,
                 ApiHasher(tw, TypeHashes(tw, m'.types)), m'.apis);
  }

  lemma OthersStillSame(tw: Digest, m: Metadata, m': Metadata, i: nat)
    requires WellFormed(m) && WellFormed(m') && StillOffers(tw, m, m') && 2 <= i < 5
    ensures Components(tw, m', ListedOnly(Generate(tw, m)))[i] == Components(tw, m, EVERYTHING)[i]
  {
    hide WellFormed, FoldKept, KeepsNamed, MetadataHash, OuterEnumsHash, ExtrinsicHash;
  }

  /** Generated code accepts metadata that still offers what the code was generated from,
      however many pallets and runtime APIs were added under new names. */
  lemma AcceptsExtensions(tw: Digest, m: Metadata, m': Metadata)
    requires WellFormed(m) && WellFormed(m') && DistinctNames(m) && DistinctNames(m')
    requires StillOffers(tw, m, m')
    ensures Valid(tw, Generate(tw, m), m')
  {
    hide WellFormed, Components, StillOffers, DistinctNames;
    var parts, parts' := Components(tw, m, EVERYTHING), Components(tw, m', ListedOnly(Generate(tw, m)));
    PalletsStillFold(tw, m, m');
    ApisStillFold(tw, m, m');
    forall i | 2 <= i < 5
      ensures parts'[i] == parts[i]
    {
      OthersStillSame(tw, m, m', i);
    }
    assert parts' == parts;
  }

  /** Generated code accepts the metadata it was generated from, even if names repeat. */
  lemma AcceptsItsOrigin(tw: Digest, m: Metadata)
    requires WellFormed(m)
    ensures Valid(tw, Generate(tw, m), m)
  {
    hide MetadataHash, Components;
    var filters := ListedOnly(Generate(tw, m));
    forall i | 0 <= i < |m.pallets|
      ensures KeepPallet(filters)(m.pallets[i])
    {
      MappedIn(PalletName, m.pallets, i);
    }
    forall i | 0 <= i < |m.apis|
      ensures KeepApi(filters)(m.apis[i])
    {
      MappedIn(ApiName, m.apis, i);
    }
    FilterKeepsAll(KeepPallet(filters), m.pallets);
    FilterKeepsAll(KeepApi(filters), m.apis);
    assert Trim(m, filters) == m;
    FilteredHashIsTrimmedHash(tw, m, filters);
  }

  ghost predicate Collide(tw: Digest, x: Bytes, y: Bytes) {
    x != y && tw(x) == tw(y)
  }

  /** Two hashes of five components that agree but in one. */
  lemma OneComponentApart(tw: Digest, parts: seq<Hash>, parts': seq<Hash>, k: nat)
    requires k < |parts| && AgreeBut(parts, parts', k)
    ensures ConcatHash(tw, parts) == ConcatHash(tw, parts')
       <==> parts[k] == parts'[k] || Collide(tw, Flatten(parts), Flatten(parts'))
  {
    if parts[k] == parts'[k] {
      assert parts == parts';
    } else if Flatten(parts) == Flatten(parts') {
      FlattenInjective(parts, parts');
    }
  }

  ghost predicate AgreeBut(parts: seq<Hash>, parts': seq<Hash>, k: nat) {
    |parts| == |parts'| && forall i :: 0 <= i < |parts| && i != k ==> parts[i] == parts'[i]
  }

  lemma HashesApart(tw: Digest, m: Metadata, filters: Filters, m': Metadata, filters': Filters, k: nat)
    requires WellFormed(m) && WellFormed(m') && k < 5
    requires AgreeBut(Components(tw, m, filters), Components(tw, m', filters'), k)
    ensures
      var parts, parts' := Components(tw, m, filters), Components(tw, m', filters');
      MetadataHash(tw, m, filters) == MetadataHash(tw, m', filters')
      <==> parts[k] == parts'[k] || Collide(tw, Flatten(parts), Flatten(parts'))
  {
    hide WellFormed, Components;
    OneComponentApart(tw, Components(tw, m, filters), Components(tw, m', filters'), k);
  }

  /** Exactly when code is valid: each of the five component hashes of the listed parts is
      unchanged, or the digest collides on the two concatenations. */
  lemma ValidIffComponentsMatch(tw: Digest, m: Metadata, m': Metadata)
    requires WellFormed(m) && WellFormed(m')
    ensures
      var parts, parts' := Components(tw, m, EVERYTHING), Components(tw, m', ListedOnly(Generate(tw, m)));
      Valid(tw, Generate(tw, m), m') <==> parts == parts' || Collide(tw, Flatten(parts), Flatten(parts'))
  {
    var parts, parts' := Components(tw, m, EVERYTHING), Components(tw, m', ListedOnly(Generate(tw, m)));
    if Flatten(parts) == Flatten(parts') {
      FlattenInjective(parts, parts');
    }
  }
}
