/** What the hash of a definition takes into account of its fields and variants, as long as the
    digest does not collide on what is fed to it. Every input is written out in bytes. */
module TypeBinding {
  import opened FieldOrder
  import opened HashBinding
  import opened Hashes
  import opened Options
  import opened Registry
  import opened TypeHashing

  // ---- folds over nothing and over one item ----

  /** A composite or an enum without items hashes its tag and 32 zeros; with one item, its tag and the
      hash of that item. */
  lemma SmallFolds(tw: Digest, h: Hash)
    ensures XorFold([]) == seq(32, _ => 0) && XorFold([h]) == h
  {
    assert [h][..0] == [];
    XorTwice(Zero(), h);
    XorCommutes(Zero(), h);
    forall i | 0 <= i < HASH_LEN
      ensures Xor(Zero(), h)[i] == h[i]
    {
      assert 0 ^ h[i] == h[i];
    }
  }

  // ---- fields ----

  /** The hash of a name, or 32 zeros without one, and then the type hash. */
  function FieldBytes(tw: Digest, name: Option<Name>, typeHash: Hash): Bytes {
    match name
    case Some(n) => tw(n) + typeHash
    case None => seq(32, _ => 0) + typeHash
  }

  function FieldInputs(tw: Digest, name: Option<Name>, typeHash: Hash): set<Bytes> {
    {FieldBytes(tw, name, typeHash)} + if name.Some? then {name.value} else {}
  }

  /** Equal names; a field without one is told from a named one unless the name hashes to zeros. */
  ghost predicate SameFieldName(tw: Digest, name: Option<Name>, name': Option<Name>) {
    match (name, name')
    case (Some(n), Some(n')) => n == n'
    case (Some(n), None) => tw(n) == seq(32, _ => 0)
    case (None, Some(n')) => tw(n') == seq(32, _ => 0)
    case (None, None) => true
  }

  lemma FieldHashIsDigest(tw: Digest, name: Option<Name>, h: Hash)
    ensures FieldHash(tw, name, h) == tw(FieldBytes(tw, name, h))
  {
    match name
    case Some(n) => Joined2(tw(n), h);
    case None =>
      Joined2(Zero(), h);
      assert Zero() == seq(32, _ => 0);
  }

  /** A field: its name and the hash of its type. */
  lemma FieldBinds(tw: Digest, name: Option<Name>, h: Hash, name': Option<Name>, h': Hash)
    requires InjectiveOn(tw, FieldInputs(tw, name, h) + FieldInputs(tw, name', h'))
    ensures FieldHash(tw, name, h) == FieldHash(tw, name', h') <==> h == h' && SameFieldName(tw, name, name')
  {
    FieldHashIsDigest(tw, name, h);
    FieldHashIsDigest(tw, name', h');
    var x, x' := FieldBytes(tw, name, h), FieldBytes(tw, name', h');
    assert x[32..] == h && x'[32..] == h';
    assert x[..32] == (if name.Some? then tw(name.value) else seq(32, _ => 0));
    assert x'[..32] == (if name'.Some? then tw(name'.value) else seq(32, _ => 0));
  }

  // ---- variants ----

  function VariantBytes(tw: Digest, name: Name, fold: Hash): Bytes {
    tw(name) + fold
  }

  lemma VariantHashIsDigest(tw: Digest, v: Variant, hs: seq<Hash>)
    requires |v.fields| == |hs|
    ensures VariantHash(tw, v, hs) == tw(VariantBytes(tw, v.name, XorFold(FieldHashes(tw, v.fields, hs))))
  {
    Joined2(tw(v.name), XorFold(FieldHashes(tw, v.fields, hs)));
  }

  /** A variant: its name, and the fold over its fields. */
  lemma VariantBinds(tw: Digest, v: Variant, hs: seq<Hash>, v': Variant, hs': seq<Hash>)
    requires |v.fields| == |hs| && |v'.fields| == |hs'|
    requires
      var fold, fold' := XorFold(FieldHashes(tw, v.fields, hs)), XorFold(FieldHashes(tw, v'.fields, hs'));
      InjectiveOn(tw, {v.name, v'.name, VariantBytes(tw, v.name, fold), VariantBytes(tw, v'.name, fold')})
    ensures VariantHash(tw, v, hs) == VariantHash(tw, v', hs')
       <==> v.name == v'.name
            && XorFold(FieldHashes(tw, v.fields, hs)) == XorFold(FieldHashes(tw, v'.fields, hs'))
  {
    VariantHashIsDigest(tw, v, hs);
    VariantHashIsDigest(tw, v', hs');
    var fold, fold' := XorFold(FieldHashes(tw, v.fields, hs)), XorFold(FieldHashes(tw, v'.fields, hs'));
    var x, x' := VariantBytes(tw, v.name, fold), VariantBytes(tw, v'.name, fold');
    assert x[..32] == tw(v.name) && x[32..] == fold && x'[..32] == tw(v'.name) && x'[32..] == fold';
  }

  // ---- definitions in which one item differs ----

  /** In a list of fields of which one is changed, the fold stays the same exactly when that field
      keeps its name and the hash of its type. */
  lemma OneFieldChanged(tw: Digest, fields: seq<Field>, hs: seq<Hash>, i: nat, f: Field, h: Hash)
    requires |fields| == |hs| && i < |fields|
    requires InjectiveOn(tw, FieldInputs(tw, fields[i].name, hs[i]) + FieldInputs(tw, f.name, h))
    ensures XorFold(FieldHashes(tw, fields, hs)) == XorFold(FieldHashes(tw, fields[i := f], hs[i := h]))
       <==> hs[i] == h && SameFieldName(tw, fields[i].name, f.name)
  {
    hide FieldHash, XorFold, SameFieldName;
    var all := FieldHashes(tw, fields, hs);
    assert FieldHashes(tw, fields[i := f], hs[i := h]) == all[i := FieldHash(tw, f.name, h)];
    XorFoldOneChanged(all, i, FieldHash(tw, f.name, h));
    FieldBinds(tw, fields[i].name, hs[i], f.name, h);
  }

  /** The tag of the kind, and then the fold over the items. */
  function TaggedBytes(tag: bv8, fold: Hash): Bytes {
    seq(32, _ => tag) + fold
  }

  lemma TaggedIsDigest(tw: Digest, def: TypeDef, hs: seq<Hash>)
    requires |hs| == |Children(def)|
    ensures def.Composite? ==> Combine(tw, def, hs) == tw(TaggedBytes(0, XorFold(FieldHashes(tw, def.fields, hs))))
    ensures def.Variants? ==> Combine(tw, def, hs) == tw(TaggedBytes(1, XorFold(VariantHashes(tw, def.variants, hs))))
  {
    if def.Composite? {
      Joined2(Repeat(COMPOSITE), XorFold(FieldHashes(tw, def.fields, hs)));
      assert Repeat(COMPOSITE) == seq(32, _ => 0);
    } else if def.Variants? {
      Joined2(Repeat(VARIANT), XorFold(VariantHashes(tw, def.variants, hs)));
      assert Repeat(VARIANT) == seq(32, _ => 1);
    }
  }

  lemma TaggedBinds(tw: Digest, tag: bv8, fold: Hash, fold': Hash)
    requires InjectiveOn(tw, {TaggedBytes(tag, fold), TaggedBytes(tag, fold')})
    ensures tw(TaggedBytes(tag, fold)) == tw(TaggedBytes(tag, fold')) <==> fold == fold'
  {
    assert TaggedBytes(tag, fold)[32..] == fold && TaggedBytes(tag, fold')[32..] == fold';
  }

  /** A composite in which one field is changed keeps its hash exactly when that field keeps its
      name and the hash of its type. */
  lemma CompositeOneChanged(tw: Digest, fields: seq<Field>, hs: seq<Hash>, i: nat, f: Field, h: Hash)
    requires |fields| == |hs| && i < |fields|
    requires InjectiveOn(tw, FieldInputs(tw, fields[i].name, hs[i]) + FieldInputs(tw, f.name, h))
    requires InjectiveOn(tw, {TaggedBytes(0, XorFold(FieldHashes(tw, fields, hs))),
                              TaggedBytes(0, XorFold(FieldHashes(tw, fields[i := f], hs[i := h])))})
    ensures Combine(tw, Composite(fields), hs) == Combine(tw, Composite(fields[i := f]), hs[i := h])
       <==> hs[i] == h && SameFieldName(tw, fields[i].name, f.name)
  {
    hide XorFold, FieldHashes, SameFieldName, TaggedBytes;
    TaggedIsDigest(tw, Composite(fields), hs);
    TaggedIsDigest(tw, Composite(fields[i := f]), hs[i := h]);
    TaggedBinds(tw, 0, XorFold(FieldHashes(tw, fields, hs)), XorFold(FieldHashes(tw, fields[i := f], hs[i := h])));
    OneFieldChanged(tw, fields, hs, i, f, h);
  }

  /** All variants but one get the same child hashes. */
  ghost predicate OthersKeepHashes(vs: seq<Variant>, hs: seq<Hash>, i: nat, v: Variant, hs': seq<Hash>)
    requires |VariantIds(vs)| == |hs| && i < |vs| && |VariantIds(vs[i := v])| == |hs'|
  {
    forall j :: 0 <= j < |vs| && j != i ==> Parts<Hash>(vs[i := v], hs')[j] == Parts<Hash>(vs, hs)[j]
  }

  /** An enum in which one variant is changed keeps its hash exactly when that variant keeps its name
      and the fold over its fields. */
  lemma VariantsOneChanged(tw: Digest, vs: seq<Variant>, hs: seq<Hash>, i: nat, v: Variant, hs': seq<Hash>)
    requires |VariantIds(vs)| == |hs| && i < |vs| && |VariantIds(vs[i := v])| == |hs'|
    requires OthersKeepHashes(vs, hs, i, v, hs')
    requires
      var fold := XorFold(FieldHashes(tw, vs[i].fields, Parts<Hash>(vs, hs)[i]));
      var fold' := XorFold(FieldHashes(tw, v.fields, Parts<Hash>(vs[i := v], hs')[i]));
      InjectiveOn(tw, {vs[i].name, v.name, VariantBytes(tw, vs[i].name, fold), VariantBytes(tw, v.name, fold')})
    requires InjectiveOn(tw, {TaggedBytes(1, XorFold(VariantHashes(tw, vs, hs))),
                              TaggedBytes(1, XorFold(VariantHashes(tw, vs[i := v], hs')))})
    ensures Combine(tw, Variants(vs), hs) == Combine(tw, Variants(vs[i := v]), hs')
       <==> vs[i].name == v.name
            && XorFold(FieldHashes(tw, vs[i].fields, Parts<Hash>(vs, hs)[i]))
               == XorFold(FieldHashes(tw, v.fields, Parts<Hash>(vs[i := v], hs')[i]))
  {
    hide XorFold, FieldHashes, VariantHash, TaggedBytes;
    var all, h := VariantHashes(tw, vs, hs), VariantHash(tw, v, Parts<Hash>(vs[i := v], hs')[i]);
    assert VariantHashes(tw, vs[i := v], hs') == all[i := h];
    XorFoldOneChanged(all, i, h);
    VariantBinds(tw, vs[i], Parts<Hash>(vs, hs)[i], v, Parts<Hash>(vs[i := v], hs')[i]);
    TaggedIsDigest(tw, Variants(vs), hs);
    TaggedIsDigest(tw, Variants(vs[i := v]), hs');
    TaggedBinds(tw, 1, XorFold(all), XorFold(all[i := h]));
  }

  /** An enum in which one field of one variant is changed keeps its hash exactly when that field
      keeps its name and the hash of its type. */
  lemma VariantFieldChanged(
      tw: Digest, vs: seq<Variant>, hs: seq<Hash>, i: nat, k: nat, f: Field, h: Hash, hs': seq<Hash>)
    requires |VariantIds(vs)| == |hs| && i < |vs| && k < |vs[i].fields|
    requires
      var v := vs[i].(fields := vs[i].fields[k := f]);
      && |VariantIds(vs[i := v])| == |hs'| && OthersKeepHashes(vs, hs, i, v, hs')
      && Parts<Hash>(vs[i := v], hs')[i] == Parts<Hash>(vs, hs)[i][k := h]
    requires
      var fold := XorFold(FieldHashes(tw, vs[i].fields, Parts<Hash>(vs, hs)[i]));
      var fold' := XorFold(FieldHashes(tw, vs[i].fields[k := f], Parts<Hash>(vs, hs)[i][k := h]));
      InjectiveOn(tw, {vs[i].name, VariantBytes(tw, vs[i].name, fold), VariantBytes(tw, vs[i].name, fold')})
    requires
      var v := vs[i].(fields := vs[i].fields[k := f]);
      InjectiveOn(tw, {TaggedBytes(1, XorFold(VariantHashes(tw, vs, hs))),
                       TaggedBytes(1, XorFold(VariantHashes(tw, vs[i := v], hs')))})
    requires
      var was := vs[i].fields[k];
      InjectiveOn(tw, FieldInputs(tw, was.name, Parts<Hash>(vs, hs)[i][k]) + FieldInputs(tw, f.name, h))
    ensures
      var v := vs[i].(fields := vs[i].fields[k := f]);
      Combine(tw, Variants(vs), hs) == Combine(tw, Variants(vs[i := v]), hs')
      <==> Parts<Hash>(vs, hs)[i][k] == h && SameFieldName(tw, vs[i].fields[k].name, f.name)
  {
    hide XorFold, FieldHashes, VariantHashes, TaggedBytes, VariantBytes, FieldInputs, SameFieldName, Combine;
    var v, part := vs[i].(fields := vs[i].fields[k := f]), Parts<Hash>(vs, hs)[i];
    var fold, fold' := XorFold(FieldHashes(tw, vs[i].fields, part)), XorFold(FieldHashes(tw, v.fields, part[k := h]));
    assert {vs[i].name, v.name, VariantBytes(tw, vs[i].name, fold), VariantBytes(tw, v.name, fold')}
        == {vs[i].name, VariantBytes(tw, vs[i].name, fold), VariantBytes(tw, vs[i].name, fold')};
    VariantsOneChanged(tw, vs, hs, i, v, hs');
    OneFieldChanged(tw, vs[i].fields, part, k, f, h);
  }

  // ---- the other kinds of definitions ----

  const PRIMITIVES: seq<Primitive> := [
    Bool, Char, Str, U8, U16, U32, U64, U128, U256, I8, I16, I32, I64, I128, I256]

  /** The number whose big-endian bytes these are. */
  function BigEndian(b: seq<bv8>): bv32
    requires |b| == 4
  {
    (b[0] as bv32 << 24) | (b[1] as bv32 << 16) | (b[2] as bv32 << 8) | (b[3] as bv32)
  }

  lemma BytesOf(len: bv32)
    ensures
      var a, b, c, d := ((len >> 24) & 0xff) as bv8, ((len >> 16) & 0xff) as bv8, ((len >> 8) & 0xff) as bv8,
                        (len & 0xff) as bv8;
      (a as bv32 << 24) | (b as bv32 << 16) | (c as bv32 << 8) | (d as bv32) == len
  {
  }

  lemma ArrayTagLayout(len: bv32)
    ensures ArrayTag(len)[0] == 3 && BigEndian(ArrayTag(len)[1..5]) == len
    ensures ArrayTag(len)[5..] == seq(27, _ => 0 as bv8)
  {
    var tag := ArrayTag(len);
    assert tag[1] == ((len >> 24) & 0xff) as bv8 && tag[2] == ((len >> 16) & 0xff) as bv8;
    assert tag[3] == ((len >> 8) & 0xff) as bv8 && tag[4] == (len & 0xff) as bv8;
    BytesOf(len);
  }

  /** What is fed to the digest for the kinds without names: a tag for the kind, the length of an
      array or the position of a primitive, and the hashes of the types referred to, in order. */
  lemma UnnamedLayout(tw: Digest, def: TypeDef, hs: seq<Hash>)
    requires |hs| == |Children(def)|
    ensures match def
      case Sequence(_) => Combine(tw, def, hs) == tw(seq(32, _ => 2) + hs[0])
      case Array(len, _) => Combine(tw, def, hs) == tw(ArrayTag(len) + hs[0])
      case Prim(p) => exists i :: 0 <= i < 15 && PRIMITIVES[i] == p && Combine(tw, def, hs) == tw([5, i as bv8])
      case Compact(_) => Combine(tw, def, hs) == tw(seq(32, _ => 6) + hs[0])
      case BitSequence(_, _) => Combine(tw, def, hs) == tw(seq(32, _ => 7) + hs[0] + hs[1])
      case Tuple(_) => Combine(tw, def, hs) == ChainHash(tw, tw([4]), TupleLinks(hs))
      case _ => true
  {
    hide Flatten, XorFold, FieldHashes, VariantHashes, TupleHash, ArrayTag, VariantIds, FieldIds;
    match def
    case Sequence(_) =>
      Joined2(Repeat(SEQUENCE), hs[0]);
      assert Repeat(SEQUENCE) == seq(32, _ => 2);
    case Array(len, _) => Joined2(ArrayTag(len), hs[0]);
    case Prim(p) => assert PRIMITIVES[PrimitiveCode(p) as nat] == p;
    case Compact(_) =>
      Joined2(Repeat(COMPACT), hs[0]);
      assert Repeat(COMPACT) == seq(32, _ => 6);
    case BitSequence(_, _) =>
      Joined3(Repeat(BIT_SEQUENCE), hs[0], hs[1]);
      assert Repeat(BIT_SEQUENCE) == seq(32, _ => 7);
    case Tuple(_) => TupleIsChain(tw, hs);
    case _ =>
  }

  // ---- a registry in which one definition differs ----

  /** The hashes of what a type refers to, as they are when it is hashed itself. */
  function ChildHashes(tw: Digest, types: Types, id: TypeId): (hs: seq<Hash>)
    requires Closed(types) && id < |types|
    ensures |hs| == |Children(types[id].def)|
  {
    assert InRange(types, Children(types[id].def));
    VisitAll(tw, types, Children(types[id].def), map[id := Recursive]).0
  }

  /** A definition that refers to the same types is combined from the same hashes, even if they
      lead back to it. */
  lemma ChangedAtRoot(tw: Digest, types: Types, id: TypeId, def: TypeDef)
    requires Closed(types) && id < |types| && Children(def) == Children(types[id].def)
    ensures Closed(Reorder(types, id, def))
    ensures TypeHash(tw, types, id) == Combine(tw, types[id].def, ChildHashes(tw, types, id))
    ensures TypeHash(tw, Reorder(types, id, def), id) == Combine(tw, def, ChildHashes(tw, types, id))
  {
    hide Combine, VisitAll;
    var types', ids, started := Reorder(types, id, def), Children(def), map[][id := Recursive];
    assert InRange(types, ids);
    forall x | 0 <= x < |types'|
      ensures InRange(types', Children(types'[x].def))
    {
      assert InRange(types, Children(types[x].def));
    }
    ChangeUnseenByAll(tw, types, id, def, ids, started);
    assert map[id := Recursive] == started;
  }

  function Renamed(vs: seq<Variant>, i: nat, name: Name): (out: seq<Variant>)
    requires i < |vs|
    ensures |out| == |vs|
  {
    vs[i := vs[i].(name := name)]
  }

  lemma {:induction false} RenamedIds(vs: seq<Variant>, i: nat, name: Name)
    requires i < |vs|
    ensures VariantIds(Renamed(vs, i, name)) == VariantIds(vs)
    decreases |vs|
  {
    hide FieldIds;
    var n := |vs| - 1;
    if i < n {
      RenamedIds(vs[..n], i, name);
      assert Renamed(vs, i, name)[..n] == Renamed(vs[..n], i, name);
    } else {
      assert Renamed(vs, i, name)[..n] == vs[..n];
    }
  }

  lemma {:induction false} RenamedParts<T>(vs: seq<Variant>, i: nat, name: Name, items: seq<T>)
    requires i < |vs| && |VariantIds(vs)| == |items|
    ensures |VariantIds(Renamed(vs, i, name))| == |items|
    ensures Parts(Renamed(vs, i, name), items) == Parts(vs, items)
    decreases |vs|
  {
    hide FieldIds;
    var n := |vs| - 1;
    var vs', split := Renamed(vs, i, name), |items| - |vs[n].fields|;
    RenamedIds(vs, i, name);
    assert |vs'[n].fields| == |vs[n].fields|;
    if i < n {
      RenamedParts(vs[..n], i, name, items[..split]);
      assert vs'[..n] == Renamed(vs[..n], i, name);
    } else {
      assert vs'[..n] == vs[..n];
    }
    assert Parts(vs'[..n], items[..split]) == Parts(vs[..n], items[..split]);
  }

  /** Main result: in every registry, cyclic or not, renaming a variant changes the hash of the enum
      as long as the digest does not collide. */
  lemma RenamedVariantIsSeen(tw: Digest, types: Types, id: TypeId, vs: seq<Variant>, i: nat, name: Name)
    requires Closed(types) && id < |types| && types[id].def == Variants(vs) && i < |vs|
    requires
      var hs, v := ChildHashes(tw, types, id), vs[i].(name := name);
      var fold := XorFold(FieldHashes(tw, v.fields, Parts<Hash>(vs, hs)[i]));
      InjectiveOn(tw, {vs[i].name, name, VariantBytes(tw, vs[i].name, fold), VariantBytes(tw, name, fold)})
    requires
      var hs, vs' := ChildHashes(tw, types, id), Renamed(vs, i, name);
      && |VariantIds(vs')| == |hs|
      && InjectiveOn(tw, {TaggedBytes(1, XorFold(VariantHashes(tw, vs, hs))),
                          TaggedBytes(1, XorFold(VariantHashes(tw, vs', hs)))})
    ensures
      var types' := Reorder(types, id, Variants(Renamed(vs, i, name)));
      Closed(types') && (TypeHash(tw, types', id) == TypeHash(tw, types, id) <==> name == vs[i].name)
  {
    hide TypeHash, Combine, XorFold, VariantHashes, ChildHashes, Reorder, VariantIds;
    var hs, v := ChildHashes(tw, types, id), vs[i].(name := name);
    RenamedParts(vs, i, name, hs);
    RenamedIds(vs, i, name);
    ChangedAtRoot(tw, types, id, Variants(vs[i := v]));
    VariantsOneChanged(tw, vs, hs, i, v, hs);
  }

  /** And renaming a field changes the hash of the composite. */
  lemma RenamedFieldIsSeen(tw: Digest, types: Types, id: TypeId, fields: seq<Field>, i: nat, name: Option<Name>)
    requires Closed(types) && id < |types| && types[id].def == Composite(fields) && i < |fields|
    requires
      var hs := ChildHashes(tw, types, id);
      InjectiveOn(tw, FieldInputs(tw, fields[i].name, hs[i]) + FieldInputs(tw, name, hs[i]))
    requires
      var hs, fields' := ChildHashes(tw, types, id), fields[i := fields[i].(name := name)];
      InjectiveOn(tw, {TaggedBytes(0, XorFold(FieldHashes(tw, fields, hs))),
                       TaggedBytes(0, XorFold(FieldHashes(tw, fields', hs)))})
    ensures
      var types' := Reorder(types, id, Composite(fields[i := fields[i].(name := name)]));
      && Closed(types')
      && (TypeHash(tw, types', id) == TypeHash(tw, types, id) <==> SameFieldName(tw, fields[i].name, name))
  {
    hide TypeHash, Combine, XorFold, FieldHashes, ChildHashes, Reorder, SameFieldName;
    var hs, f := ChildHashes(tw, types, id), fields[i].(name := name);
    assert FieldIds(fields[i := f]) == FieldIds(fields);
    assert hs[i := hs[i]] == hs;
    ChangedAtRoot(tw, types, id, Composite(fields[i := f]));
    CompositeOneChanged(tw, fields, hs, i, f, hs[i]);
  }
}
