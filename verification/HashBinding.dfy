/** What a chained hash takes into account: when the digest does not collide on the inputs that
    two computations feed to it, equal results come from equal parts, one by one. Nothing of
    the kind holds for XOR folds, in which a part can cancel out another. */
module HashBinding {
  import opened Hashes
  import opened Options
  import opened Registry
  import opened TypeHashing

  ghost predicate InjectiveOn(tw: Digest, inputs: set<Bytes>) {
    forall x, y :: x in inputs && y in inputs && tw(x) == tw(y) ==> x == y
  }

  lemma InjectiveOnFewer(tw: Digest, inputs: set<Bytes>, fewer: set<Bytes>)
    requires InjectiveOn(tw, inputs) && fewer <= inputs
    ensures InjectiveOn(tw, fewer)
  {
  }

  /** Every chained hash of the source has this form: the hash so far, and a fixed number of
      further hashes per item. */
  function ChainHash(tw: Digest, start: Hash, links: seq<seq<Hash>>): Hash {
    if links == [] then start
    else ConcatHash(tw, [ChainHash(tw, start, links[..|links| - 1])] + links[|links| - 1])
  }

  function ChainInputs(tw: Digest, start: Hash, links: seq<seq<Hash>>): set<Bytes> {
    if links == [] then {}
    else
      var earlier := links[..|links| - 1];
      ChainInputs(tw, start, earlier) + {Flatten([ChainHash(tw, start, earlier)] + links[|links| - 1])}
  }

  predicate LinksWide(links: seq<seq<Hash>>, width: nat) {
    forall i :: 0 <= i < |links| ==> |links[i]| == width
  }

  lemma LastLinkBinds(tw: Digest, start: Hash, links: seq<seq<Hash>>, start': Hash, links': seq<seq<Hash>>, width: nat)
    requires links != [] && links' != [] && LinksWide(links, width) && LinksWide(links', width)
    requires InjectiveOn(tw, ChainInputs(tw, start, links) + ChainInputs(tw, start', links'))
    requires ChainHash(tw, start, links) == ChainHash(tw, start', links')
    ensures ChainHash(tw, start, links[..|links| - 1]) == ChainHash(tw, start', links'[..|links'| - 1])
    ensures links[|links| - 1] == links'[|links'| - 1]
  {
    var n, n' := |links| - 1, |links'| - 1;
    var parts := [ChainHash(tw, start, links[..n])] + links[n];
    var parts' := [ChainHash(tw, start', links'[..n'])] + links'[n'];
    assert Flatten(parts) in ChainInputs(tw, start, links) && Flatten(parts') in ChainInputs(tw, start', links');
    FlattenInjective(parts, parts');
    assert parts[0] == parts'[0] && parts[1..] == parts'[1..];
  }

  /** Links are peeled off both chains until the shorter one is used up: what it starts from is
      then an earlier value of the longer one. */
  lemma {:induction false} LongerContinues(
      tw: Digest, start: Hash, links: seq<seq<Hash>>, start': Hash, links': seq<seq<Hash>>, width: nat)
    requires |links'| <= |links| && LinksWide(links, width) && LinksWide(links', width)
    requires InjectiveOn(tw, ChainInputs(tw, start, links) + ChainInputs(tw, start', links'))
    requires ChainHash(tw, start, links) == ChainHash(tw, start', links')
    ensures start' == ChainHash(tw, start, links[..|links| - |links'|]) && links[|links| - |links'|..] == links'
    decreases |links'|
  {
    hide ConcatHash, Flatten, InjectiveOn, ChainInputs;
    var n, n', k := |links| - 1, |links'| - 1, |links| - |links'|;
    if links' == [] {
      assert links[..|links|] == links;
    } else {
      LastLinkBinds(tw, start, links, start', links', width);
      FrontInputs(tw, start, links, n);
      FrontInputs(tw, start', links', n');
      InjectiveOnFewer(tw, ChainInputs(tw, start, links) + ChainInputs(tw, start', links'),
                       ChainInputs(tw, start, links[..n]) + ChainInputs(tw, start', links'[..n']));
      LongerContinues(tw, start, links[..n], start', links'[..n'], width);
      assert links[..n][..k] == links[..k];
      assert links[k..] == links[..n][k..] + [links[n]] && links' == links'[..n'] + [links'[n']];
    }
  }

  /** The inputs of the front of a chain are inputs of the chain. */
  lemma {:induction false} FrontInputs(tw: Digest, start: Hash, links: seq<seq<Hash>>, k: nat)
    requires k <= |links|
    ensures ChainInputs(tw, start, links[..k]) <= ChainInputs(tw, start, links)
    decreases |links|
  {
    if k == |links| {
      assert links[..k] == links;
    } else {
      FrontInputs(tw, start, links[..|links| - 1], k);
      assert links[..|links| - 1][..k] == links[..k];
    }
  }

  lemma SameLengthBinds(
      tw: Digest, start: Hash, links: seq<seq<Hash>>, start': Hash, links': seq<seq<Hash>>, width: nat)
    requires |links| == |links'| && LinksWide(links, width) && LinksWide(links', width)
    requires InjectiveOn(tw, ChainInputs(tw, start, links) + ChainInputs(tw, start', links'))
    requires ChainHash(tw, start, links) == ChainHash(tw, start', links')
    ensures start == start' && links == links'
  {
    LongerContinues(tw, start, links, start', links', width);
    assert links[0..] == links && links[..0] == [];
  }

  lemma LastInput(tw: Digest, start: Hash, links: seq<seq<Hash>>, width: nat) returns (x: Bytes)
    requires links != [] && LinksWide(links, width)
    ensures x == Flatten([ChainHash(tw, start, links[..|links| - 1])] + links[|links| - 1])
    ensures x in ChainInputs(tw, start, links) && |x| == HASH_LEN * (width + 1) && tw(x) == ChainHash(tw, start, links)
  {
    x := Flatten([ChainHash(tw, start, links[..|links| - 1])] + links[|links| - 1]);
  }

  /** A longer chain continues past the start of the shorter one, so that start has the width
      of what is hashed per link. */
  lemma LongerStart(tw: Digest, start: Hash, links: seq<seq<Hash>>, s': Bytes, links': seq<seq<Hash>>, width: nat)
    returns (front: seq<seq<Hash>>)
    requires |links'| < |links| && LinksWide(links, width) && LinksWide(links', width)
    requires InjectiveOn(tw, {s'} + ChainInputs(tw, start, links) + ChainInputs(tw, tw(s'), links'))
    requires ChainHash(tw, start, links) == ChainHash(tw, tw(s'), links')
    ensures front != [] && front <= links
    ensures s' == Flatten([ChainHash(tw, start, front[..|front| - 1])] + front[|front| - 1])
    ensures |s'| == HASH_LEN * (width + 1)
  {
    LongerContinues(tw, start, links, tw(s'), links', width);
    var k := |links| - |links'|;
    front := links[..k];
    FrontInputs(tw, start, links, k);
    var x := LastInput(tw, start, front, width);
    assert x == s';
  }

  /** Chains of different lengths are told apart when what they start from has another width
      than what is hashed per link. */
  lemma LengthsAgree(tw: Digest, s: Bytes, links: seq<seq<Hash>>, s': Bytes, links': seq<seq<Hash>>, width: nat)
    requires LinksWide(links, width) && LinksWide(links', width)
    requires |s| != HASH_LEN * (width + 1) && |s'| != HASH_LEN * (width + 1)
    requires InjectiveOn(tw, {s, s'} + ChainInputs(tw, tw(s), links) + ChainInputs(tw, tw(s'), links'))
    requires ChainHash(tw, tw(s), links) == ChainHash(tw, tw(s'), links')
    ensures |links| == |links'|
  {
    hide ChainHash, ChainInputs, Flatten, InjectiveOn;
    var all := {s, s'} + ChainInputs(tw, tw(s), links) + ChainInputs(tw, tw(s'), links');
    if |links'| < |links| {
      InjectiveOnFewer(tw, all, {s'} + ChainInputs(tw, tw(s), links) + ChainInputs(tw, tw(s'), links'));
      var front := LongerStart(tw, tw(s), links, s', links', width);
    } else if |links| < |links'| {
      InjectiveOnFewer(tw, all, {s} + ChainInputs(tw, tw(s'), links') + ChainInputs(tw, tw(s), links));
      var front := LongerStart(tw, tw(s'), links', s, links, width);
    }
  }

  lemma ChainBinds(tw: Digest, s: Bytes, links: seq<seq<Hash>>, s': Bytes, links': seq<seq<Hash>>, width: nat)
    requires LinksWide(links, width) && LinksWide(links', width)
    requires |s| != HASH_LEN * (width + 1) && |s'| != HASH_LEN * (width + 1)
    requires InjectiveOn(tw, {s, s'} + ChainInputs(tw, tw(s), links) + ChainInputs(tw, tw(s'), links'))
    requires ChainHash(tw, tw(s), links) == ChainHash(tw, tw(s'), links')
    ensures s == s' && links == links'
  {
    LengthsAgree(tw, s, links, s', links', width);
    SameLengthBinds(tw, tw(s), links, tw(s'), links', width);
  }

  // ---- tuples ----

  function TupleLinks(hs: seq<Hash>): (links: seq<seq<Hash>>)
    ensures |links| == |hs|
  {
    seq(|hs|, i requires 0 <= i < |hs| => [hs[i]])
  }

  lemma {:induction false} TupleIsChain(tw: Digest, hs: seq<Hash>)
    ensures TupleHash(tw, hs) == ChainHash(tw, tw([TUPLE]), TupleLinks(hs))
    decreases |hs|
  {
    if hs != [] {
      var n := |hs| - 1;
      TupleIsChain(tw, hs[..n]);
      assert TupleLinks(hs)[..n] == TupleLinks(hs[..n]);
      assert [TupleHash(tw, hs[..n])] + [hs[n]] == [TupleHash(tw, hs[..n]), hs[n]];
    }
  }

  function TupleInputs(tw: Digest, hs: seq<Hash>): set<Bytes> {
    {[TUPLE]} + ChainInputs(tw, tw([TUPLE]), TupleLinks(hs))
  }

  /** Tuples: the number, the order and the hashes of all fields. */
  lemma TupleBinds(tw: Digest, hs: seq<Hash>, hs': seq<Hash>)
    requires InjectiveOn(tw, TupleInputs(tw, hs) + TupleInputs(tw, hs'))
    requires TupleHash(tw, hs) == TupleHash(tw, hs')
    ensures hs == hs'
  {
    hide ChainHash, ChainInputs, TupleHash;
    TupleIsChain(tw, hs);
    TupleIsChain(tw, hs');
    ChainBinds(tw, [TUPLE], TupleLinks(hs), [TUPLE], TupleLinks(hs'), 1);
    forall i | 0 <= i < |hs|
      ensures hs[i] == hs'[i]
    {
      assert TupleLinks(hs)[i][0] == TupleLinks(hs')[i][0];
    }
  }

  // ---- type definitions ----

  /** What the hash of a definition is the digest of. */
  function DefInput(tw: Digest, def: TypeDef, hs: seq<Hash>): Bytes
    requires |hs| == |Children(def)|
  {
    match def
    case Composite(fields) => Flatten([Repeat(COMPOSITE), XorFold(FieldHashes(tw, fields, hs))])
    case Variants(variants) => Flatten([Repeat(VARIANT), XorFold(VariantHashes(tw, variants, hs))])
    case Sequence(_) => Flatten([Repeat(SEQUENCE), hs[0]])
    case Array(len, _) => Flatten([ArrayTag(len), hs[0]])
    case Tuple(_) => TupleInput(tw, hs)
    case Prim(p) => [PRIMITIVE, PrimitiveCode(p)]
    case Compact(_) => Flatten([Repeat(COMPACT), hs[0]])
    case BitSequence(_, _) => Flatten([Repeat(BIT_SEQUENCE), hs[0], hs[1]])
  }

  function TupleInput(tw: Digest, hs: seq<Hash>): Bytes {
    if hs == [] then [TUPLE] else Flatten([TupleHash(tw, hs[..|hs| - 1]), hs[|hs| - 1]])
  }

  /** The same kind of definition, and what hashing it takes into account is the same. Two
      tuples agree in their last field and in the hash of the fields before it. */
  ghost predicate SameDef(tw: Digest, def: TypeDef, hs: seq<Hash>, def': TypeDef, hs': seq<Hash>)
    requires |hs| == |Children(def)| && |hs'| == |Children(def')|
  {
    match (def, def')
    case (Composite(fields), Composite(fields')) =>
      XorFold(FieldHashes(tw, fields, hs)) == XorFold(FieldHashes(tw, fields', hs'))
    case (Variants(vs), Variants(vs')) => XorFold(VariantHashes(tw, vs, hs)) == XorFold(VariantHashes(tw, vs', hs'))
    case (Sequence(_), Sequence(_)) => hs == hs'
    case (Array(len, _), Array(len', _)) => len == len' && hs == hs'
    case (Tuple(_), Tuple(_)) =>
      (hs == [] <==> hs' == [])
      && (hs != [] ==>
            && hs[|hs| - 1] == hs'[|hs'| - 1]
            && TupleHash(tw, hs[..|hs| - 1]) == TupleHash(tw, hs'[..|hs'| - 1]))
    case (Prim(p), Prim(p')) => p == p'
    case (Compact(_), Compact(_)) => hs == hs'
    case (BitSequence(_, _), BitSequence(_, _)) => hs == hs'
    case _ => false
  }

  /** The tag that the hashes of this kind start with, where one more hash follows it. */
  function Tag(def: TypeDef): Option<Hash> {
    match def
    case Composite(_) => Some(Repeat(COMPOSITE))
    case Variants(_) => Some(Repeat(VARIANT))
    case Sequence(_) => Some(Repeat(SEQUENCE))
    case Array(len, _) => Some(ArrayTag(len))
    case Compact(_) => Some(Repeat(COMPACT))
    case _ => None
  }

  /** A tuple carries no tag, so the one way for it to pass for another kind of definition is
      that the hash of all its fields but the last is exactly that kind's tag. */
  ghost predicate PassesFor(tw: Digest, def: TypeDef, hs: seq<Hash>, def': TypeDef) {
    def.Tuple? && hs != [] && Tag(def') == Some(TupleHash(tw, hs[..|hs| - 1]))
  }

  lemma FlattenStarts(parts: seq<Hash>)
    requires |parts| > 0
    ensures parts[0] <= Flatten(parts)
    decreases |parts|
  {
    if |parts| > 1 {
      FlattenStarts(parts[..|parts| - 1]);
    }
  }

  /** The first byte is the kind of the definition, unless that is a tuple. */
  lemma DefInputStarts(tw: Digest, def: TypeDef, hs: seq<Hash>)
    requires |hs| == |Children(def)| && !def.Tuple?
    ensures |DefInput(tw, def, hs)| > 0
    ensures DefInput(tw, def, hs)[0] == KindCode(def)
  {
    match def
    case Composite(fields) => FlattenStarts([Repeat(COMPOSITE), XorFold(FieldHashes(tw, fields, hs))]);
    case Variants(variants) => FlattenStarts([Repeat(VARIANT), XorFold(VariantHashes(tw, variants, hs))]);
    case Sequence(_) => FlattenStarts([Repeat(SEQUENCE), hs[0]]);
    case Array(len, _) => FlattenStarts([ArrayTag(len), hs[0]]);
    case Prim(p) =>
    case Compact(_) => FlattenStarts([Repeat(COMPACT), hs[0]]);
    case BitSequence(_, _) => FlattenStarts([Repeat(BIT_SEQUENCE), hs[0], hs[1]]);
  }

  function KindCode(def: TypeDef): bv8 {
    match def
    case Composite(_) => COMPOSITE
    case Variants(_) => VARIANT
    case Sequence(_) => SEQUENCE
    case Array(_, _) => ARRAY
    case Tuple(_) => TUPLE
    case Prim(_) => PRIMITIVE
    case Compact(_) => COMPACT
    case BitSequence(_, _) => BIT_SEQUENCE
  }

  lemma ArrayTagInjective(a: bv32, b: bv32)
    requires ArrayTag(a) == ArrayTag(b)
    ensures a == b
  {
    assert forall i :: 0 <= i < HASH_LEN ==> ArrayTag(a)[i] == ArrayTag(b)[i];
    assert ArrayTag(a)[1] == ArrayTag(b)[1] && ArrayTag(a)[2] == ArrayTag(b)[2];
    assert ArrayTag(a)[3] == ArrayTag(b)[3] && ArrayTag(a)[4] == ArrayTag(b)[4];
  }

  /** Kinds of definitions, lengths of arrays, primitives and element types are told apart, up
      to a tuple that passes for a tagged kind. */
  lemma CombineBinds(tw: Digest, def: TypeDef, hs: seq<Hash>, def': TypeDef, hs': seq<Hash>)
    requires |hs| == |Children(def)| && |hs'| == |Children(def')|
    requires InjectiveOn(tw, {DefInput(tw, def, hs), DefInput(tw, def', hs')})
    requires Combine(tw, def, hs) == Combine(tw, def', hs')
    ensures SameDef(tw, def, hs, def', hs') || PassesFor(tw, def, hs, def') || PassesFor(tw, def', hs', def)
  {
    CombineIsDigest(tw, def, hs);
    CombineIsDigest(tw, def', hs');
    if def.Tuple? {
      TupleOrTag(tw, def, hs, def', hs');
    } else if def'.Tuple? {
      TupleOrTag(tw, def', hs', def, hs);
    } else {
      DefInputStarts(tw, def, hs);
      DefInputStarts(tw, def', hs');
      SameInputSameDef(tw, def, hs, def', hs');
    }
  }

  lemma CombineIsDigest(tw: Digest, def: TypeDef, hs: seq<Hash>)
    requires |hs| == |Children(def)|
    ensures Combine(tw, def, hs) == tw(DefInput(tw, def, hs))
  {
  }

  lemma TupleOrTag(tw: Digest, def: TypeDef, hs: seq<Hash>, def': TypeDef, hs': seq<Hash>)
    requires |hs| == |Children(def)| && |hs'| == |Children(def')| && def.Tuple?
    requires DefInput(tw, def, hs) == DefInput(tw, def', hs')
    ensures SameDef(tw, def, hs, def', hs') || PassesFor(tw, def, hs, def')
  {
    if hs != [] {
      var before, last := TupleHash(tw, hs[..|hs| - 1]), hs[|hs| - 1];
      match def'
      case Composite(fields) => Two(before, last, Repeat(COMPOSITE), XorFold(FieldHashes(tw, fields, hs')));
      case Variants(vs) => Two(before, last, Repeat(VARIANT), XorFold(VariantHashes(tw, vs, hs')));
      case Sequence(_) => Two(before, last, Repeat(SEQUENCE), hs'[0]);
      case Array(len, _) => Two(before, last, ArrayTag(len), hs'[0]);
      case Compact(_) => Two(before, last, Repeat(COMPACT), hs'[0]);
      case Tuple(_) =>
        if hs' != [] {
          Two(before, last, TupleHash(tw, hs'[..|hs'| - 1]), hs'[|hs'| - 1]);
        }
      case _ =>
    }
  }

  lemma SameInputSameDef(tw: Digest, def: TypeDef, hs: seq<Hash>, def': TypeDef, hs': seq<Hash>)
    requires |hs| == |Children(def)| && |hs'| == |Children(def')| && !def.Tuple? && !def'.Tuple?
    requires DefInput(tw, def, hs) == DefInput(tw, def', hs') && KindCode(def) == KindCode(def')
    ensures SameDef(tw, def, hs, def', hs')
  {
    hide Flatten, XorFold, FieldHashes, VariantHashes, Repeat, ArrayTag;
    match def
    case Composite(fields) =>
      var fold, fold' := XorFold(FieldHashes(tw, fields, hs)), XorFold(FieldHashes(tw, def'.fields, hs'));
      Two(Repeat(COMPOSITE), fold, Repeat(COMPOSITE), fold');
    case Variants(vs) =>
      var fold, fold' := XorFold(VariantHashes(tw, vs, hs)), XorFold(VariantHashes(tw, def'.variants, hs'));
      Two(Repeat(VARIANT), fold, Repeat(VARIANT), fold');
    case Sequence(_) => Two(Repeat(SEQUENCE), hs[0], Repeat(SEQUENCE), hs'[0]);
    case Array(len, _) =>
      Two(ArrayTag(len), hs[0], ArrayTag(def'.len), hs'[0]);
      ArrayTagInjective(len, def'.len);
    case Prim(p) =>
    case Compact(_) => Two(Repeat(COMPACT), hs[0], Repeat(COMPACT), hs'[0]);
    case BitSequence(_, _) =>
      FlattenInjective([Repeat(BIT_SEQUENCE), hs[0], hs[1]], [Repeat(BIT_SEQUENCE), hs'[0], hs'[1]]);
  }

  lemma Two(a: Hash, b: Hash, a': Hash, b': Hash)
    requires Flatten([a, b]) == Flatten([a', b'])
    ensures a == a' && b == b'
  {
    FlattenInjective([a, b], [a', b']);
    assert [a, b][0] == [a', b'][0] && [a, b][1] == [a', b'][1];
  }
}
