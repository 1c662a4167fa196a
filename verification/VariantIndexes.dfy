/** Looking up the variants of an enum type by name or by index, through two hash maps that
    hold positions. */
module VariantIndexes {
  import opened Integers
  import opened OrderedMaps
  import opened Options
  import opened Registry
  import opened Search

  datatype VariantIndex = VariantIndex(byName: map<Name, nat>, byIndex: map<u8, nat>)

  function VariantName(v: Variant): Name {
    v.name
  }

  function VariantByte(v: Variant): u8 {
    v.index
  }

  function Get(variantId: Option<TypeId>, types: Types): Option<seq<Variant>> {
    match variantId
    case None => None
    case Some(id) =>
      if id < |types| && types[id].def.Variants? then Some(types[id].def.variants) else None
  }

  /** The variants to search through; none when the id does not lead to an enum. */
  function VariantsOf(variantId: Option<TypeId>, types: Types): seq<Variant> {
    match Get(variantId, types) case None => [] case Some(variants) => variants
  }

  ghost predicate IndexOf(vi: VariantIndex, variants: seq<Variant>) {
    Indexes(VariantName, variants, vi.byName) && Indexes(VariantByte, variants, vi.byIndex)
  }

  method Build(variantId: Option<TypeId>, types: Types) returns (vi: VariantIndex)
    ensures IndexOf(vi, VariantsOf(variantId, types))
  {
    var found := Get(variantId, types);
    if found.None? {
      return VariantIndex(map[], map[]);
    }
    var variants := found.value;
    var byName: map<Name, nat>, byIndex: map<u8, nat> := map[], map[];
    for pos := 0 to |variants|
      invariant Indexes(VariantName, variants[..pos], byName) && Indexes(VariantByte, variants[..pos], byIndex)
    {
      var variant := variants[pos];
      assert variants[..pos + 1] == variants[..pos] + [variant];
      IndexesSnoc(VariantName, variants[..pos], byName, variant);
      IndexesSnoc(VariantByte, variants[..pos], byIndex, variant);
      byName := byName[variant.name := pos];
      byIndex := byIndex[variant.index := pos];
    }
    assert variants[..|variants|] == variants;
    vi := VariantIndex(byName, byIndex);
  }

  function LookupByName(vi: VariantIndex, name: Name, variantId: Option<TypeId>, types: Types): Option<Variant> {
    if name !in vi.byName then None
    else
      match Get(variantId, types)
      case None => None
      case Some(variants) => if vi.byName[name] < |variants| then Some(variants[vi.byName[name]]) else None
  }

  function LookupByIndex(vi: VariantIndex, index: u8, variantId: Option<TypeId>, types: Types): Option<Variant> {
    if index !in vi.byIndex then None
    else
      match Get(variantId, types)
      case None => None
      case Some(variants) => if vi.byIndex[index] < |variants| then Some(variants[vi.byIndex[index]]) else None
  }

  /** Both lookups are the linear search for the last match. */
  lemma LookupsAreLastMatch(vi: VariantIndex, variantId: Option<TypeId>, types: Types, name: Name, index: u8)
    requires IndexOf(vi, VariantsOf(variantId, types))
    ensures LookupByName(vi, name, variantId, types) == LastWith(VariantName, VariantsOf(variantId, types), name)
    ensures LookupByIndex(vi, index, variantId, types) == LastWith(VariantByte, VariantsOf(variantId, types), index)
  {
    var variants := VariantsOf(variantId, types);
    LastWithIsAtLastIndex(VariantName, variants, name);
    LastWithIsAtLastIndex(VariantByte, variants, index);
    assert LastIndex(VariantName, variants, name) == if name in vi.byName then Some(vi.byName[name]) else None;
    assert LastIndex(VariantByte, variants, index) == if index in vi.byIndex then Some(vi.byIndex[index]) else None;
  }
}
