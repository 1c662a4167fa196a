/** Version 14 metadata may lack the outer error enum; the conversion then builds one and
    pushes it onto the registry. */
module OuterErrorEnum {
  import opened Hashes
  import opened Lists
  import opened MetadataIndex
  import opened Options
  import opened Registry
  import opened Renumbering
  import opened TypeHashing

  function ErrorVariant(p: RawPallet, error: TypeId): Variant {
    Variant(p.name, [Field(None, error)], p.index)
  }

  ghost predicate IsErrorVariant(p: RawPallet, v: Variant) {
    v.name == p.name && v.index == p.index && exists ty :: p.errorTy == Some(ty) && v.fields == [Field(None, ty)]
  }

  /** One variant for each pallet that has an error type, in the order of the pallets. */
  function ErrorVariants(pallets: seq<RawPallet>): seq<Variant> {
    if pallets == [] then []
    else
      var last := pallets[|pallets| - 1];
      var earlier := ErrorVariants(pallets[..|pallets| - 1]);
      match last.errorTy
      case None => earlier
      case Some(error) => earlier + [ErrorVariant(last, error)]
  }

  function ErrorEnum(path: seq<Name>, pallets: seq<RawPallet>): Type {
    Type(path, [], Variants(ErrorVariants(pallets)))
  }

  predicate ErrorsInRange(types: Types, pallets: seq<RawPallet>) {
    forall i :: 0 <= i < |pallets| ==> (pallets[i].errorTy.Some? ==> pallets[i].errorTy.value < |types|)
  }

  class Metadata14 {
    var types: Types
    const pallets: seq<RawPallet>

    /** Returns the id of the new type. */
    method GenerateOuterErrorEnumType(path: seq<Name>) returns (id: TypeId)
      requires Closed(types) && ErrorsInRange(types, pallets)
      modifies this
      ensures id == |old(types)| && types == old(types) + [ErrorEnum(path, pallets)]
      ensures Closed(types) && types[id].path == path
    {
      var variants: seq<Variant> := [];
      for i := 0 to |pallets|
        invariant variants == ErrorVariants(pallets[..i])
      {
        assert pallets[..i + 1][..i] == pallets[..i];
        if pallets[i].errorTy.Some? {
          variants := variants + [ErrorVariant(pallets[i], pallets[i].errorTy.value)];
        }
      }
      assert pallets[..|pallets|] == pallets;
      ErrorEnumKeepsClosed(types, path, pallets);
      id := |types|;
      types := types + [Type(path, [], Variants(variants))];
    }
  }

  lemma {:induction false} ErrorVariantIds(types: Types, pallets: seq<RawPallet>)
    requires ErrorsInRange(types, pallets)
    ensures InRange(types, VariantIds(ErrorVariants(pallets)))
    decreases |pallets|
  {
    if pallets != [] {
      var n := |pallets| - 1;
      ErrorVariantIds(types, pallets[..n]);
      var earlier := ErrorVariants(pallets[..n]);
      if pallets[n].errorTy.Some? {
        assert (earlier + [ErrorVariant(pallets[n], pallets[n].errorTy.value)])[..|earlier|] == earlier;
      }
    }
  }

  lemma ErrorEnumKeepsClosed(types: Types, path: seq<Name>, pallets: seq<RawPallet>)
    requires Closed(types) && ErrorsInRange(types, pallets)
    ensures Closed(types + [ErrorEnum(path, pallets)])
  {
    ErrorVariantIds(types, pallets);
    var all := types + [ErrorEnum(path, pallets)];
    forall id | 0 <= id < |all|
      ensures InRange(all, Children(all[id].def))
    {
      assert id < |types| ==> all[id] == types[id];
    }
  }

  /** The variants are those of the pallets with an error type: name, index and error type of
      the pallet, and nothing else. */
  lemma {:induction false} ErrorVariantsAreThePallets(pallets: seq<RawPallet>, v: Variant)
    ensures v in ErrorVariants(pallets)
       <==> exists i :: 0 <= i < |pallets| && IsErrorVariant(pallets[i], v)
    decreases |pallets|
  {
    if pallets != [] {
      var n := |pallets| - 1;
      ErrorVariantsAreThePallets(pallets[..n], v);
      if v in ErrorVariants(pallets[..n]) {
        var i :| 0 <= i < n && IsErrorVariant(pallets[..n][i], v);
        assert IsErrorVariant(pallets[i], v);
      }
    }
  }

  /** One after the other, in the order of the pallets. */
  lemma {:induction false} ErrorVariantsInOrder(pallets: seq<RawPallet>)
    ensures
      var failing := Filter((p: RawPallet) => p.errorTy.Some?, pallets);
      && |ErrorVariants(pallets)| == |failing|
      && forall i :: 0 <= i < |failing| ==> IsErrorVariant(failing[i], ErrorVariants(pallets)[i])
    decreases |pallets|
  {
    if pallets != [] {
      ErrorVariantsInOrder(pallets[..|pallets| - 1]);
    }
  }

  /** Adding the enum changes no hash of a type that was there before. */
  lemma ErrorEnumKeepsHashes(tw: Digest, types: Types, path: seq<Name>, pallets: seq<RawPallet>, id: TypeId)
    requires Closed(types) && ErrorsInRange(types, pallets) && id < |types|
    ensures Closed(types + [ErrorEnum(path, pallets)])
    ensures TypeHash(tw, types + [ErrorEnum(path, pallets)], id) == TypeHash(tw, types, id)
  {
    ErrorEnumKeepsClosed(types, path, pallets);
    AppendingKeepsHashes(tw, types, [ErrorEnum(path, pallets)], id);
  }
}
