/** The portable type registry: a vector of type definitions that refer to each other by
    position, possibly in cycles. */
module Registry {
  import opened Hashes
  import opened Integers
  import opened Options

  /** The UTF-8 bytes of a Rust string. */
  type Name = Bytes

  type TypeId = nat

  datatype Field = Field(name: Option<Name>, ty: TypeId)

  datatype Variant = Variant(name: Name, fields: seq<Field>, index: u8)

  datatype Primitive =
    | Bool | Char | Str
    | U8 | U16 | U32 | U64 | U128 | U256
    | I8 | I16 | I32 | I64 | I128 | I256

  datatype TypeDef =
    | Composite(fields: seq<Field>)
    | Variants(variants: seq<Variant>)
    | Sequence(param: TypeId)
    | Array(len: bv32, param: TypeId)
    | Tuple(ids: seq<TypeId>)
    | Prim(primitive: Primitive)
    | Compact(param: TypeId)
    | BitSequence(order: TypeId, store: TypeId)

  /** `path` and `docs` are carried so that it can be said that no hash looks at them. */
  datatype Type = Type(path: seq<Name>, docs: seq<Name>, def: TypeDef)

  type Types = seq<Type>

  function FieldIds(fields: seq<Field>): (ids: seq<TypeId>)
    ensures |ids| == |fields|
  {
    seq(|fields|, i requires 0 <= i < |fields| => fields[i].ty)
  }

  function VariantIds(variants: seq<Variant>): seq<TypeId> {
    if variants == [] then []
    else VariantIds(variants[..|variants| - 1]) + FieldIds(variants[|variants| - 1].fields)
  }

  /** Cuts a list with one item per field of each variant, as `VariantIds` is, into one list
      per variant. */
  function Parts<T>(variants: seq<Variant>, items: seq<T>): (parts: seq<seq<T>>)
    requires |VariantIds(variants)| == |items|
    ensures |parts| == |variants|
    ensures forall i :: 0 <= i < |parts| ==> |parts[i]| == |variants[i].fields|
  {
    if variants == [] then []
    else
      var split := |items| - |variants[|variants| - 1].fields|;
      Parts(variants[..|variants| - 1], items[..split]) + [items[split..]]
  }

  /** Two lists are cut at the same places. */
  lemma {:induction false} PartsAligned<S, T>(variants: seq<Variant>, xs: seq<S>, ys: seq<T>, i: nat, k: nat)
    returns (m: nat)
    requires |VariantIds(variants)| == |xs| == |ys|
    requires i < |variants| && k < |variants[i].fields|
    ensures m < |xs| && Parts(variants, xs)[i][k] == xs[m] && Parts(variants, ys)[i][k] == ys[m]
    decreases |variants|
  {
    hide FieldIds;
    var n := |variants| - 1;
    var split := |xs| - |variants[n].fields|;
    if i < n {
      m := PartsAligned(variants[..n], xs[..split], ys[..split], i, k);
    } else {
      m := split + k;
    }
  }

  /** The ids a definition refers to, in the order in which hashing visits them. */
  function Children(def: TypeDef): seq<TypeId> {
    match def
    case Composite(fields) => FieldIds(fields)
    case Variants(variants) => VariantIds(variants)
    case Sequence(param) => [param]
    case Array(_, param) => [param]
    case Tuple(ids) => ids
    case Prim(_) => []
    case Compact(param) => [param]
    case BitSequence(order, store) => [order, store]
  }

  predicate InRange(types: Types, ids: seq<TypeId>) {
    forall i :: 0 <= i < |ids| ==> ids[i] < |types|
  }

  /** Every id that occurs in the registry resolves in it. The source relies on this
      wherever it calls `expect("... is registered; qed")`. */
  predicate Closed(types: Types) {
    forall id :: 0 <= id < |types| ==> InRange(types, Children(types[id].def))
  }

  function IdsBelow(n: nat): (ids: set<TypeId>)
    ensures forall id :: id in ids <==> 0 <= id < n
  {
    if n == 0 then {} else IdsBelow(n - 1) + {n - 1}
  }

  function AllIds(types: Types): set<TypeId> {
    IdsBelow(|types|)
  }
}
