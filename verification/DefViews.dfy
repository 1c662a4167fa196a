/** Type definitions up to the order of fields and variants: what hashing combines, with a key
    of any kind in place of each type that is referred to. */
module DefViews {
  import opened Hashes
  import opened Options
  import opened Registry
  import opened TypeHashing

  type FieldKey<+K> = (Option<Name>, K)

  datatype DefView<+K(==)> =
    | VComposite(fields: multiset<FieldKey<K>>)
    | VVariants(variants: multiset<(Name, multiset<FieldKey<K>>)>)
    | VSequence(item: K)
    | VArray(len: bv32, item: K)
    | VTuple(items: seq<K>)
    | VPrim(primitive: Primitive)
    | VCompact(item: K)
    | VBitSequence(order: K, store: K)

  ghost function FieldKeys<K>(fields: seq<Field>, keys: seq<K>): (named: seq<FieldKey<K>>)
    requires |fields| == |keys|
    ensures |named| == |fields|
  {
    seq(|fields|, i requires 0 <= i < |fields| => (fields[i].name, keys[i]))
  }

  ghost function VariantKeys<K>(variants: seq<Variant>, keys: seq<K>): (named: seq<(Name, multiset<FieldKey<K>>)>)
    requires |VariantIds(variants)| == |keys|
    ensures |named| == |variants|
  {
    var parts := Parts(variants, keys);
    seq(|variants|, i requires 0 <= i < |variants| =>
      (variants[i].name, multiset(FieldKeys(variants[i].fields, parts[i]))))
  }

  /** The view of a definition, given the keys of `Children(def)`. */
  ghost function ViewDef<K>(def: TypeDef, keys: seq<K>): DefView<K>
    requires |keys| == |Children(def)|
  {
    match def
    case Composite(fields) => VComposite(multiset(FieldKeys(fields, keys)))
    case Variants(variants) => VVariants(multiset(VariantKeys(variants, keys)))
    case Sequence(_) => VSequence(keys[0])
    case Array(len, _) => VArray(len, keys[0])
    case Tuple(_) => VTuple(keys)
    case Prim(p) => VPrim(p)
    case Compact(_) => VCompact(keys[0])
    case BitSequence(_, _) => VBitSequence(keys[0], keys[1])
  }

  lemma FieldFoldByKeys<K>(tw: Digest, fields: seq<Field>, keys: seq<K>, hs: seq<Hash>,
                        fields': seq<Field>, keys': seq<K>, hs': seq<Hash>)
    requires |fields| == |keys| && |fields'| == |keys'| && KeysDecide(keys, hs, keys', hs')
    requires multiset(FieldKeys(fields, keys)) == multiset(FieldKeys(fields', keys'))
    ensures XorFold(FieldHashes(tw, fields, hs)) == XorFold(FieldHashes(tw, fields', hs'))
  {
    XorFoldByKeys(FieldKeys(fields, keys), FieldHashes(tw, fields, hs),
                  FieldKeys(fields', keys'), FieldHashes(tw, fields', hs'));
  }

  lemma PartsKeysDecide<K>(variants: seq<Variant>, i: nat, keys: seq<K>, hs: seq<Hash>,
                         variants': seq<Variant>, j: nat, keys': seq<K>, hs': seq<Hash>)
    requires |VariantIds(variants)| == |keys| && |VariantIds(variants')| == |keys'|
    requires KeysDecide(keys, hs, keys', hs')
    requires i < |variants| && j < |variants'|
    ensures KeysDecide(Parts(variants, keys)[i], Parts(variants, hs)[i],
                        Parts(variants', keys')[j], Parts(variants', hs')[j])
  {
    var ss, gs := Parts(variants, keys)[i], Parts(variants, hs)[i];
    var ss', gs' := Parts(variants', keys')[j], Parts(variants', hs')[j];
    forall k, l | 0 <= k < |ss| && 0 <= l < |ss'| && ss[k] == ss'[l]
      ensures gs[k] == gs'[l]
    {
      var m := PartsAligned(variants, keys, hs, i, k);
      var m' := PartsAligned(variants', keys', hs', j, l);
      assert keys[m] == keys'[m'];
    }
  }

  lemma VariantByKey<K>(tw: Digest, variants: seq<Variant>, i: nat, keys: seq<K>, hs: seq<Hash>,
                     variants': seq<Variant>, j: nat, keys': seq<K>, hs': seq<Hash>)
    requires |VariantIds(variants)| == |keys| && |VariantIds(variants')| == |keys'|
    requires KeysDecide(keys, hs, keys', hs')
    requires i < |variants| && j < |variants'|
    requires VariantKeys(variants, keys)[i] == VariantKeys(variants', keys')[j]
    ensures VariantHashes(tw, variants, hs)[i] == VariantHashes(tw, variants', hs')[j]
  {
    PartsKeysDecide(variants, i, keys, hs, variants', j, keys', hs');
    FieldFoldByKeys(tw, variants[i].fields, Parts(variants, keys)[i], Parts(variants, hs)[i],
                    variants'[j].fields, Parts(variants', keys')[j], Parts(variants', hs')[j]);
  }

  lemma VariantFoldByKeys<K>(tw: Digest, variants: seq<Variant>, keys: seq<K>, hs: seq<Hash>,
                          variants': seq<Variant>, keys': seq<K>, hs': seq<Hash>)
    requires |VariantIds(variants)| == |keys| && |VariantIds(variants')| == |keys'|
    requires KeysDecide(keys, hs, keys', hs')
    requires multiset(VariantKeys(variants, keys)) == multiset(VariantKeys(variants', keys'))
    ensures XorFold(VariantHashes(tw, variants, hs)) == XorFold(VariantHashes(tw, variants', hs'))
  {
    var named, named' := VariantKeys(variants, keys), VariantKeys(variants', keys');
    var vhs, vhs' := VariantHashes(tw, variants, hs), VariantHashes(tw, variants', hs');
    forall i, j | 0 <= i < |named| && 0 <= j < |named'| && named[i] == named'[j]
      ensures vhs[i] == vhs'[j]
    {
      VariantByKey(tw, variants, i, keys, hs, variants', j, keys', hs');
    }
    XorFoldByKeys(named, vhs, named', vhs');
  }

  lemma {:induction false} CombineByView<K>(tw: Digest, def: TypeDef, keys: seq<K>, hs: seq<Hash>,
                       def': TypeDef, keys': seq<K>, hs': seq<Hash>)
    requires |keys| == |Children(def)| && |keys'| == |Children(def')|
    requires KeysDecide(keys, hs, keys', hs')
    requires ViewDef(def, keys) == ViewDef(def', keys')
    ensures Combine(tw, def, hs) == Combine(tw, def', hs')
  {
    match def
    case Composite(fields) => FieldFoldByKeys(tw, fields, keys, hs, def'.fields, keys', hs');
    case Variants(variants) => VariantFoldByKeys(tw, variants, keys, hs, def'.variants, keys', hs');
    case Tuple(ids) => assert hs == hs';
    case _ =>
  }
}
