/** What the chained hashes of storage entries, runtime API methods, view functions and the
    extrinsic take into account, as long as the digest does not collide on their inputs. */
module MetadataBinding {
  import opened Hashes
  import opened HashBinding
  import opened Lists
  import opened MetadataHashing
  import opened Options
  import opened Registry
  import opened RuntimeMetadata

  // ---- storage entries ----

  predicate KeyPartsSame(th: TypeId -> Hash, th': TypeId -> Hash, keys: seq<StorageKey>, keys': seq<StorageKey>) {
    && |keys| == |keys'|
    && forall i :: 0 <= i < |keys| ==> keys[i].hasher == keys'[i].hasher && th(keys[i].keyId) == th'(keys'[i].keyId)
  }

  function KeyLinks(th: TypeId -> Hash, keys: seq<StorageKey>): (links: seq<seq<Hash>>)
    ensures |links| == |keys| && LinksWide(links, 2)
  {
    seq(|keys|, i requires 0 <= i < |keys| => [Repeat(keys[i].hasher), th(keys[i].keyId)])
  }

  lemma {:induction false} KeysAreChain(tw: Digest, th: TypeId -> Hash, start: Hash, keys: seq<StorageKey>)
    ensures KeysHash(tw, th, start, keys) == ChainHash(tw, start, KeyLinks(th, keys))
    decreases |keys|
  {
    if keys != [] {
      var n := |keys| - 1;
      KeysAreChain(tw, th, start, keys[..n]);
      assert KeyLinks(th, keys)[..n] == KeyLinks(th, keys[..n]);
      var before := KeysHash(tw, th, start, keys[..n]);
      assert [before] + KeyLinks(th, keys)[n] == [before, Repeat(keys[n].hasher), th(keys[n].keyId)];
    }
  }

  function EntryStart(tw: Digest, th: TypeId -> Hash, e: StorageEntry): Bytes {
    Flatten([tw(e.name), th(e.valueId), tw(DefaultBytes(e))])
  }

  /** Everything that is fed to the digest for a storage entry. */
  function EntryInputs(tw: Digest, th: TypeId -> Hash, e: StorageEntry): set<Bytes> {
    {e.name, DefaultBytes(e), EntryStart(tw, th, e)} + ChainInputs(tw, tw(EntryStart(tw, th, e)), KeyLinks(th, e.keys))
  }

  /** A value of a chain is the digest of what it starts from or of an input of the chain. */
  lemma ChainDigest(tw: Digest, s: Bytes, links: seq<seq<Hash>>, front: seq<seq<Hash>>, width: nat) returns (x: Bytes)
    requires LinksWide(links, width) && front <= links && |s| == HASH_LEN * (width + 1)
    ensures tw(x) == ChainHash(tw, tw(s), front) && |x| == HASH_LEN * (width + 1)
    ensures x in {s} + ChainInputs(tw, tw(s), links)
  {
    if front == [] {
      x := s;
    } else {
      x := LastInput(tw, tw(s), front, width);
      assert links[..|front|] == front;
      FrontInputs(tw, tw(s), links, |front|);
    }
  }

  /** Were there fewer keys, the entry's name would be the input of an earlier step, of which
      each is as long as three hashes. */
  lemma FewerKeysLongName(tw: Digest, th: TypeId -> Hash, e: StorageEntry, th': TypeId -> Hash, e': StorageEntry)
    requires InjectiveOn(tw, EntryInputs(tw, th, e) + EntryInputs(tw, th', e'))
    requires StorageEntryHash(tw, th, e) == StorageEntryHash(tw, th', e') && |e'.keys| < |e.keys|
    ensures |e'.name| == 3 * HASH_LEN
  {
    hide ChainHash, ChainInputs, KeyLinks, KeysHash, DefaultBytes;
    var s, s' := EntryStart(tw, th, e), EntryStart(tw, th', e');
    var links := KeyLinks(th, e.keys);
    KeysAreChain(tw, th, tw(s), e.keys);
    KeysAreChain(tw, th', tw(s'), e'.keys);
    var front := LongerStart(tw, tw(s), links, s', KeyLinks(th', e'.keys), 2);
    var n := |front| - 1;
    var before, link := ChainHash(tw, tw(s), front[..n]), front[n];
    assert link == links[n];
    assert [before] + link == [before, link[0], link[1]];
    Three(tw(e'.name), th'(e'.valueId), tw(DefaultBytes(e')), before, link[0], link[1]);
    var x := ChainDigest(tw, s, links, front[..n], 2);
    assert x == e'.name;
  }

  /** The start of `e'` has the digest that hashing `e` has come to after some keys, and the rest
      is the same. Without keys in between, the two starts have one digest. */
  ghost predicate EntryContinues(
      tw: Digest, th: TypeId -> Hash, e: StorageEntry, th': TypeId -> Hash, e': StorageEntry) {
    && |e'.keys| <= |e.keys|
    && var k := |e.keys| - |e'.keys|;
       && tw(EntryStart(tw, th', e')) == KeysHash(tw, th, tw(EntryStart(tw, th, e)), e.keys[..k])
       && KeyPartsSame(th, th', e.keys[k..], e'.keys)
  }

  /** Name, value type, default bytes and all keys agree. */
  ghost predicate EntryPartsSame(th: TypeId -> Hash, e: StorageEntry, th': TypeId -> Hash, e': StorageEntry) {
    && e.name == e'.name && th(e.valueId) == th'(e'.valueId) && DefaultBytes(e) == DefaultBytes(e')
    && KeyPartsSame(th, th', e.keys, e'.keys)
  }

  lemma LinksDecideKeys(th: TypeId -> Hash, keys: seq<StorageKey>, th': TypeId -> Hash, keys': seq<StorageKey>)
    requires KeyLinks(th, keys) == KeyLinks(th', keys')
    ensures KeyPartsSame(th, th', keys, keys')
  {
    assert |keys| == |KeyLinks(th, keys)| == |keys'|;
    forall i | 0 <= i < |keys|
      ensures keys[i].hasher == keys'[i].hasher && th(keys[i].keyId) == th'(keys'[i].keyId)
    {
      var link, link' := KeyLinks(th, keys)[i], KeyLinks(th', keys')[i];
      assert link[0] == link'[0] && link[1] == link'[1];
      assert Repeat(keys[i].hasher)[0] == Repeat(keys'[i].hasher)[0];
    }
  }

  lemma CutKeys(th: TypeId -> Hash, keys: seq<StorageKey>, k: nat)
    requires k <= |keys|
    ensures KeyLinks(th, keys[..k]) == KeyLinks(th, keys)[..k]
    ensures KeyLinks(th, keys[k..]) == KeyLinks(th, keys)[k..]
  {
  }

  lemma LongerEntryContinues(tw: Digest, th: TypeId -> Hash, e: StorageEntry, th': TypeId -> Hash, e': StorageEntry)
    requires InjectiveOn(tw, EntryInputs(tw, th, e) + EntryInputs(tw, th', e'))
    requires StorageEntryHash(tw, th, e) == StorageEntryHash(tw, th', e') && |e'.keys| <= |e.keys|
    ensures EntryContinues(tw, th, e, th', e')
  {
    hide ChainHash, ChainInputs, KeyLinks, KeysHash, DefaultBytes;
    var k := |e.keys| - |e'.keys|;
    var start, start' := tw(EntryStart(tw, th, e)), tw(EntryStart(tw, th', e'));
    KeysAreChain(tw, th, start, e.keys);
    KeysAreChain(tw, th', start', e'.keys);
    LongerContinues(tw, start, KeyLinks(th, e.keys), start', KeyLinks(th', e'.keys), 2);
    CutKeys(th, e.keys, k);
    KeysAreChain(tw, th, start, e.keys[..k]);
    LinksDecideKeys(th, e.keys[k..], th', e'.keys);
  }

  lemma {:induction false} SameKeysRest(
      tw: Digest, th: TypeId -> Hash, start: Hash, keys: seq<StorageKey>, k: nat, th': TypeId -> Hash,
      keys': seq<StorageKey>)
    requires k <= |keys| && KeyPartsSame(th, th', keys[k..], keys')
    ensures KeysHash(tw, th, start, keys) == KeysHash(tw, th', KeysHash(tw, th, start, keys[..k]), keys')
    decreases |keys'|
  {
    hide ConcatHash;
    var n, n' := |keys| - 1, |keys'| - 1;
    if keys' == [] {
      assert keys[..k] == keys;
    } else {
      assert keys[k..][n'] == keys[n];
      assert keys[..n][..k] == keys[..k] && keys[..n][k..] == keys[k..][..n'];
      SameKeysRest(tw, th, start, keys[..n], k, th', keys'[..n']);
    }
  }

  lemma EntryContinuesSameHash(tw: Digest, th: TypeId -> Hash, e: StorageEntry, th': TypeId -> Hash, e': StorageEntry)
    requires EntryContinues(tw, th, e, th', e')
    ensures StorageEntryHash(tw, th, e) == StorageEntryHash(tw, th', e')
  {
    hide KeysHash, KeyPartsSame;
    SameKeysRest(tw, th, tw(EntryStart(tw, th, e)), e.keys, |e.keys| - |e'.keys|, th', e'.keys);
  }

  /** Entries hash alike exactly when one continues the other. With equally many keys all their
      parts agree; otherwise the name of the one with fewer keys is 96 bytes long, which is
      what each step of hashing takes. */
  lemma StorageEntryBinds(tw: Digest, th: TypeId -> Hash, e: StorageEntry, th': TypeId -> Hash, e': StorageEntry)
    requires InjectiveOn(tw, EntryInputs(tw, th, e) + EntryInputs(tw, th', e'))
    ensures StorageEntryHash(tw, th, e) == StorageEntryHash(tw, th', e')
       <==> EntryContinues(tw, th, e, th', e') || EntryContinues(tw, th', e', th, e)
    ensures StorageEntryHash(tw, th, e) == StorageEntryHash(tw, th', e') ==>
      if |e'.keys| < |e.keys| then |e'.name| == 3 * HASH_LEN
      else if |e.keys| < |e'.keys| then |e.name| == 3 * HASH_LEN
      else EntryPartsSame(th, e, th', e')
  {
    hide EntryContinues, EntryInputs, KeyPartsSame, KeysHash, EntryStart;
    if StorageEntryHash(tw, th, e) == StorageEntryHash(tw, th', e') {
      if |e'.keys| < |e.keys| {
        FewerKeysLongName(tw, th, e, th', e');
        LongerEntryContinues(tw, th, e, th', e');
      } else {
        LongerEntryContinues(tw, th', e', th, e);
        if |e.keys| < |e'.keys| {
          FewerKeysLongName(tw, th', e', th, e);
        } else {
          SameKeyCountBinds(tw, th, e, th', e');
        }
      }
    } else if EntryContinues(tw, th, e, th', e') {
      EntryContinuesSameHash(tw, th, e, th', e');
    } else if EntryContinues(tw, th', e', th, e) {
      EntryContinuesSameHash(tw, th', e', th, e);
    }
  }

  lemma SameKeyCountBinds(tw: Digest, th: TypeId -> Hash, e: StorageEntry, th': TypeId -> Hash, e': StorageEntry)
    requires |e.keys| == |e'.keys| && InjectiveOn(tw, EntryInputs(tw, th, e) + EntryInputs(tw, th', e'))
    requires StorageEntryHash(tw, th, e) == StorageEntryHash(tw, th', e')
    ensures EntryPartsSame(th, e, th', e')
  {
    hide ChainHash, ChainInputs, KeyLinks, KeysHash, DefaultBytes;
    var s, s' := EntryStart(tw, th, e), EntryStart(tw, th', e');
    KeysAreChain(tw, th, tw(s), e.keys);
    KeysAreChain(tw, th', tw(s'), e'.keys);
    SameLengthBinds(tw, tw(s), KeyLinks(th, e.keys), tw(s'), KeyLinks(th', e'.keys), 2);
    Three(tw(e.name), th(e.valueId), tw(DefaultBytes(e)), tw(e'.name), th'(e'.valueId), tw(DefaultBytes(e')));
    LinksDecideKeys(th, e.keys, th', e'.keys);
  }

  lemma Three(a: Hash, b: Hash, c: Hash, a': Hash, b': Hash, c': Hash)
    requires Flatten([a, b, c]) == Flatten([a', b', c'])
    ensures a == a' && b == b' && c == c'
  {
    FlattenInjective([a, b, c], [a', b', c']);
    assert [a, b, c][0] == [a', b', c'][0] && [a, b, c][1] == [a', b', c'][1] && [a, b, c][2] == [a', b', c'][2];
  }

  // ---- parameters ----

  function ParamLinks(tw: Digest, th: TypeId -> Hash, params: seq<Param>): (links: seq<seq<Hash>>)
    ensures |links| == |params| && LinksWide(links, 2)
  {
    seq(|params|, i requires 0 <= i < |params| => [tw(params[i].name), th(params[i].id)])
  }

  function ParamNames(params: seq<Param>): set<Bytes> {
    set i | 0 <= i < |params| :: params[i].name
  }

  lemma {:induction false} ParamsAreChain(tw: Digest, th: TypeId -> Hash, start: Hash, params: seq<Param>)
    ensures ParamsHash(tw, th, start, params) == ChainHash(tw, start, ParamLinks(tw, th, params))
    decreases |params|
  {
    if params != [] {
      var n := |params| - 1;
      ParamsAreChain(tw, th, start, params[..n]);
      assert ParamLinks(tw, th, params)[..n] == ParamLinks(tw, th, params[..n]);
      var before := ParamsHash(tw, th, start, params[..n]);
      assert [before] + ParamLinks(tw, th, params)[n] == [before, tw(params[n].name), th(params[n].id)];
    }
  }

  /** The same parameter names, in order, with equal type hashes. */
  predicate SameParams(th: TypeId -> Hash, params: seq<Param>, th': TypeId -> Hash, params': seq<Param>) {
    && |params| == |params'|
    && forall i :: 0 <= i < |params| ==> params[i].name == params'[i].name && th(params[i].id) == th'(params'[i].id)
  }

  lemma LinksDecideParams(tw: Digest, th: TypeId -> Hash, params: seq<Param>, th': TypeId -> Hash, params': seq<Param>)
    requires InjectiveOn(tw, ParamNames(params) + ParamNames(params'))
    requires ParamLinks(tw, th, params) == ParamLinks(tw, th', params')
    ensures SameParams(th, params, th', params')
  {
    assert |params| == |ParamLinks(tw, th, params)| == |params'|;
    forall i | 0 <= i < |params|
      ensures params[i].name == params'[i].name && th(params[i].id) == th'(params'[i].id)
    {
      var link, link' := ParamLinks(tw, th, params)[i], ParamLinks(tw, th', params')[i];
      assert link[0] == link'[0] && link[1] == link'[1];
      assert params[i].name in ParamNames(params) && params'[i].name in ParamNames(params');
    }
  }

  // ---- runtime API methods ----

  function MethodStart(tw: Digest, api: Name, m: ApiMethod): Bytes {
    Flatten([tw(api), tw(m.name)])
  }

  function MethodEnd(tw: Digest, th: TypeId -> Hash, api: Name, m: ApiMethod): Bytes {
    Flatten([ParamsHash(tw, th, tw(MethodStart(tw, api, m)), m.inputs), th(m.output)])
  }

  function MethodInputs(tw: Digest, th: TypeId -> Hash, api: Name, m: ApiMethod): set<Bytes> {
    {api, m.name, MethodStart(tw, api, m), MethodEnd(tw, th, api, m)} + ParamNames(m.inputs)
    + ChainInputs(tw, tw(MethodStart(tw, api, m)), ParamLinks(tw, th, m.inputs))
  }

  /** Methods: the API's and the method's name, the parameters one by one, and the output. */
  lemma MethodBinds(
      tw: Digest, th: TypeId -> Hash, api: Name, m: ApiMethod, th': TypeId -> Hash, api': Name, m': ApiMethod)
    requires InjectiveOn(tw, MethodInputs(tw, th, api, m) + MethodInputs(tw, th', api', m'))
    requires MethodHash(tw, th, api, m) == MethodHash(tw, th', api', m')
    ensures api == api' && m.name == m'.name && th(m.output) == th'(m'.output)
    ensures SameParams(th, m.inputs, th', m'.inputs)
  {
    hide ChainHash, ChainInputs, ParamLinks, ParamsHash;
    var s, s' := MethodStart(tw, api, m), MethodStart(tw, api', m');
    Two(ParamsHash(tw, th, tw(s), m.inputs), th(m.output), ParamsHash(tw, th', tw(s'), m'.inputs), th'(m'.output));
    ParamsAreChain(tw, th, tw(s), m.inputs);
    ParamsAreChain(tw, th', tw(s'), m'.inputs);
    ChainBinds(tw, s, ParamLinks(tw, th, m.inputs), s', ParamLinks(tw, th', m'.inputs), 2);
    Two(tw(api), tw(m.name), tw(api'), tw(m'.name));
    LinksDecideParams(tw, th, m.inputs, th', m'.inputs);
  }

  // ---- view functions ----

  function ViewFunctionEnd(tw: Digest, th: TypeId -> Hash, v: ViewFunction): Bytes {
    Flatten([ParamsHash(tw, th, v.queryId, v.inputs), th(v.output)])
  }

  function ViewFunctionInputs(tw: Digest, th: TypeId -> Hash, v: ViewFunction): set<Bytes> {
    {ViewFunctionEnd(tw, th, v)} + ParamNames(v.inputs) + ChainInputs(tw, v.queryId, ParamLinks(tw, th, v.inputs))
  }

  /** The query id of `v'` is what hashing `v` has come to after some parameters, and the rest
      is the same. Without parameters in between these are equal view functions. */
  ghost predicate Continues(tw: Digest, th: TypeId -> Hash, v: ViewFunction, th': TypeId -> Hash, v': ViewFunction) {
    && |v'.inputs| <= |v.inputs| && th(v.output) == th'(v'.output)
    && var k := |v.inputs| - |v'.inputs|;
       && v'.queryId == ParamsHash(tw, th, v.queryId, v.inputs[..k])
       && SameParams(th, v.inputs[k..], th', v'.inputs)
  }

  lemma {:induction false} SameParamsHash(
      tw: Digest, th: TypeId -> Hash, start: Hash, params: seq<Param>, k: nat, th': TypeId -> Hash, params': seq<Param>)
    requires k <= |params| && SameParams(th, params[k..], th', params')
    ensures ParamsHash(tw, th, start, params)
         == ParamsHash(tw, th', ParamsHash(tw, th, start, params[..k]), params')
    decreases |params'|
  {
    hide ConcatHash;
    var n, n' := |params| - 1, |params'| - 1;
    if params' == [] {
      assert params[..k] == params;
    } else {
      assert params[k..][n'] == params[n];
      assert params[..n][..k] == params[..k] && params[..n][k..] == params[k..][..n'];
      SameParamsHash(tw, th, start, params[..n], k, th', params'[..n']);
    }
  }

  lemma LongerViewFunctionBinds(tw: Digest, th: TypeId -> Hash, v: ViewFunction, th': TypeId -> Hash, v': ViewFunction)
    requires InjectiveOn(tw, ViewFunctionInputs(tw, th, v) + ViewFunctionInputs(tw, th', v'))
    requires ViewFunctionHash(tw, th, v) == ViewFunctionHash(tw, th', v') && |v'.inputs| <= |v.inputs|
    ensures Continues(tw, th, v, th', v')
  {
    hide ChainHash, ChainInputs, ParamLinks, ParamsHash;
    var k, links := |v.inputs| - |v'.inputs|, ParamLinks(tw, th, v.inputs);
    Two(ParamsHash(tw, th, v.queryId, v.inputs), th(v.output),
        ParamsHash(tw, th', v'.queryId, v'.inputs), th'(v'.output));
    ParamsAreChain(tw, th, v.queryId, v.inputs);
    ParamsAreChain(tw, th', v'.queryId, v'.inputs);
    LongerContinues(tw, v.queryId, links, v'.queryId, ParamLinks(tw, th', v'.inputs), 2);
    CutParams(tw, th, v.inputs, k);
    ParamsAreChain(tw, th, v.queryId, v.inputs[..k]);
    LinksDecideParams(tw, th, v.inputs[k..], th', v'.inputs);
  }

  lemma CutParams(tw: Digest, th: TypeId -> Hash, params: seq<Param>, k: nat)
    requires k <= |params|
    ensures ParamLinks(tw, th, params[..k]) == ParamLinks(tw, th, params)[..k]
    ensures ParamLinks(tw, th, params[k..]) == ParamLinks(tw, th, params)[k..]
    ensures ParamNames(params[k..]) <= ParamNames(params)
  {
    forall i | 0 <= i < |params[k..]|
      ensures params[k..][i].name in ParamNames(params)
    {
      assert params[k..][i] == params[i + k];
    }
  }

  lemma ContinuesSameHash(tw: Digest, th: TypeId -> Hash, v: ViewFunction, th': TypeId -> Hash, v': ViewFunction)
    requires Continues(tw, th, v, th', v')
    ensures ViewFunctionHash(tw, th, v) == ViewFunctionHash(tw, th', v')
  {
    SameParamsHash(tw, th, v.queryId, v.inputs, |v.inputs| - |v'.inputs|, th', v'.inputs);
  }

  /** View functions hash alike exactly when one continues the other. The query id starts the
      chain unhashed, so that this is more than equality: see `ParameterForQueryId`. */
  lemma ViewFunctionBinds(tw: Digest, th: TypeId -> Hash, v: ViewFunction, th': TypeId -> Hash, v': ViewFunction)
    requires InjectiveOn(tw, ViewFunctionInputs(tw, th, v) + ViewFunctionInputs(tw, th', v'))
    ensures ViewFunctionHash(tw, th, v) == ViewFunctionHash(tw, th', v')
       <==> Continues(tw, th, v, th', v') || Continues(tw, th', v', th, v)
    ensures ViewFunctionHash(tw, th, v) == ViewFunctionHash(tw, th', v') && |v.inputs| == |v'.inputs| ==>
      v.queryId == v'.queryId && th(v.output) == th'(v'.output) && SameParams(th, v.inputs, th', v'.inputs)
  {
    if ViewFunctionHash(tw, th, v) == ViewFunctionHash(tw, th', v') {
      if |v'.inputs| <= |v.inputs| {
        LongerViewFunctionBinds(tw, th, v, th', v');
        assert v.inputs[..0] == [] && v.inputs[0..] == v.inputs;
      } else {
        LongerViewFunctionBinds(tw, th', v', th, v);
      }
    } else if Continues(tw, th, v, th', v') {
      ContinuesSameHash(tw, th, v, th', v');
    } else if Continues(tw, th', v', th, v) {
      ContinuesSameHash(tw, th', v', th, v);
    }
  }

  /** For every digest, a parameter can be traded for another query id. */
  lemma ParameterForQueryId(tw: Digest, th: TypeId -> Hash, v: ViewFunction, p: Param)
    requires v.inputs == [p]
    ensures
      var v' := v.(queryId := ParamsHash(tw, th, v.queryId, [p]), inputs := []);
      ViewFunctionHash(tw, th, v) == ViewFunctionHash(tw, th, v')
  {
  }

  // ---- the extrinsic ----

  function ExtensionLinks(tw: Digest, th: TypeId -> Hash, xs: seq<Extension>): (links: seq<seq<Hash>>)
    ensures |links| == |xs| && LinksWide(links, 3)
  {
    seq(|xs|, i requires 0 <= i < |xs| => [tw(xs[i].identifier), th(xs[i].extraTy), th(xs[i].additionalTy)])
  }

  lemma {:induction false} ExtensionsAreChain(tw: Digest, th: TypeId -> Hash, start: Hash, xs: seq<Extension>)
    ensures ExtensionsHash(tw, th, start, xs) == ChainHash(tw, start, ExtensionLinks(tw, th, xs))
    decreases |xs|
  {
    if xs != [] {
      var n := |xs| - 1;
      ExtensionsAreChain(tw, th, start, xs[..n]);
      assert ExtensionLinks(tw, th, xs)[..n] == ExtensionLinks(tw, th, xs[..n]);
      var before := ExtensionsHash(tw, th, start, xs[..n]);
      assert [before] + ExtensionLinks(tw, th, xs)[n]
          == [before, tw(xs[n].identifier), th(xs[n].extraTy), th(xs[n].additionalTy)];
    }
  }

  function Identifiers(xs: seq<Extension>): set<Bytes> {
    set i | 0 <= i < |xs| :: xs[i].identifier
  }

  /** The same extensions, in order, with equal type hashes. */
  predicate SameExtensions(th: TypeId -> Hash, xs: seq<Extension>, th': TypeId -> Hash, xs': seq<Extension>) {
    && |xs| == |xs'|
    && forall i :: 0 <= i < |xs| ==>
         && xs[i].identifier == xs'[i].identifier
         && th(xs[i].extraTy) == th'(xs'[i].extraTy) && th(xs[i].additionalTy) == th'(xs'[i].additionalTy)
  }

  lemma LinksDecideExtensions(
      tw: Digest, th: TypeId -> Hash, xs: seq<Extension>, th': TypeId -> Hash, xs': seq<Extension>)
    requires InjectiveOn(tw, Identifiers(xs) + Identifiers(xs'))
    requires ExtensionLinks(tw, th, xs) == ExtensionLinks(tw, th', xs')
    ensures SameExtensions(th, xs, th', xs')
  {
    assert |xs| == |ExtensionLinks(tw, th, xs)| == |xs'|;
    forall i | 0 <= i < |xs|
      ensures xs[i].identifier == xs'[i].identifier
      ensures th(xs[i].extraTy) == th'(xs'[i].extraTy) && th(xs[i].additionalTy) == th'(xs'[i].additionalTy)
    {
      var link, link' := ExtensionLinks(tw, th, xs)[i], ExtensionLinks(tw, th', xs')[i];
      assert link[0] == link'[0] && link[1] == link'[1] && link[2] == link'[2];
      assert xs[i].identifier in Identifiers(xs) && xs'[i].identifier in Identifiers(xs');
    }
  }

  function ExtrinsicStart(th: TypeId -> Hash, e: Extrinsic): Bytes
    requires |e.versions| <= HASH_LEN
  {
    Flatten([th(e.addressTy), th(e.signatureTy), VersionBytes(e.versions)])
  }

  function ExtrinsicInputs(tw: Digest, th: TypeId -> Hash, e: Extrinsic): set<Bytes>
    requires |e.versions| <= HASH_LEN
  {
    {ExtrinsicStart(th, e)} + Identifiers(e.extensions)
    + ChainInputs(tw, tw(ExtrinsicStart(th, e)), ExtensionLinks(tw, th, e.extensions))
  }

  /** The extrinsic: address and signature types, the padded versions, and the transaction
      extensions in order. */
  lemma ExtrinsicBinds(tw: Digest, th: TypeId -> Hash, e: Extrinsic, th': TypeId -> Hash, e': Extrinsic)
    requires |e.versions| <= HASH_LEN && |e'.versions| <= HASH_LEN
    requires InjectiveOn(tw, ExtrinsicInputs(tw, th, e) + ExtrinsicInputs(tw, th', e'))
    requires ExtrinsicHash(tw, th, e) == ExtrinsicHash(tw, th', e')
    ensures th(e.addressTy) == th'(e'.addressTy) && th(e.signatureTy) == th'(e'.signatureTy)
    ensures VersionBytes(e.versions) == VersionBytes(e'.versions)
    ensures SameExtensions(th, e.extensions, th', e'.extensions)
  {
    hide ChainHash, ChainInputs, ExtensionLinks, ExtensionsHash, VersionBytes;
    var s, s' := ExtrinsicStart(th, e), ExtrinsicStart(th', e');
    ExtensionsAreChain(tw, th, tw(s), e.extensions);
    ExtensionsAreChain(tw, th', tw(s'), e'.extensions);
    ChainBinds(tw, s, ExtensionLinks(tw, th, e.extensions), s', ExtensionLinks(tw, th', e'.extensions), 3);
    Three(th(e.addressTy), th(e.signatureTy), VersionBytes(e.versions),
          th'(e'.addressTy), th'(e'.signatureTy), VersionBytes(e'.versions));
    LinksDecideExtensions(tw, th, e.extensions, th', e'.extensions);
  }

  // ---- pallets ----

  function PalletInput(tw: Digest, th: TypeId -> Hash, p: Pallet): Bytes {
    Flatten([
      OptionHash(th, p.callTy), OptionHash(th, p.eventTy), OptionHash(th, p.errorTy),
      XorFold(Map(ConstantHasher(tw, th), p.constants)), StorageHash(tw, th, p.storage),
      XorFold(Map(ViewFunctionHasher(tw, th), p.viewFunctions))])
  }

  function StorageInputs(tw: Digest, th: TypeId -> Hash, s: Storage): set<Bytes> {
    {s.prefix, Flatten([tw(s.prefix), XorFold(Map(EntryHasher(tw, th), s.entries))])}
  }

  /** Pallets: the three enum types, the folds over constants and view functions, and the
      storage, of which the prefix and the fold over the entries. */
  lemma PalletBinds(tw: Digest, th: TypeId -> Hash, p: Pallet, th': TypeId -> Hash, p': Pallet)
    requires InjectiveOn(tw, {PalletInput(tw, th, p), PalletInput(tw, th', p')})
    requires PalletHash(tw, th, p) == PalletHash(tw, th', p')
    ensures OptionHash(th, p.callTy) == OptionHash(th', p'.callTy)
    ensures OptionHash(th, p.eventTy) == OptionHash(th', p'.eventTy)
    ensures OptionHash(th, p.errorTy) == OptionHash(th', p'.errorTy)
    ensures XorFold(Map(ConstantHasher(tw, th), p.constants)) == XorFold(Map(ConstantHasher(tw, th'), p'.constants))
    ensures StorageHash(tw, th, p.storage) == StorageHash(tw, th', p'.storage)
    ensures XorFold(Map(ViewFunctionHasher(tw, th), p.viewFunctions))
         == XorFold(Map(ViewFunctionHasher(tw, th'), p'.viewFunctions))
  {
    Six(OptionHash(th, p.callTy), OptionHash(th, p.eventTy), OptionHash(th, p.errorTy),
        XorFold(Map(ConstantHasher(tw, th), p.constants)), StorageHash(tw, th, p.storage),
        XorFold(Map(ViewFunctionHasher(tw, th), p.viewFunctions)),
        OptionHash(th', p'.callTy), OptionHash(th', p'.eventTy), OptionHash(th', p'.errorTy),
        XorFold(Map(ConstantHasher(tw, th'), p'.constants)), StorageHash(tw, th', p'.storage),
        XorFold(Map(ViewFunctionHasher(tw, th'), p'.viewFunctions)));
  }

  lemma Six(
      a: Hash, b: Hash, c: Hash, d: Hash, e: Hash, f: Hash, a': Hash, b': Hash, c': Hash, d': Hash, e': Hash, f': Hash)
    requires Flatten([a, b, c, d, e, f]) == Flatten([a', b', c', d', e', f'])
    ensures a == a' && b == b' && c == c' && d == d' && e == e' && f == f'
  {
    var parts, parts' := [a, b, c, d, e, f], [a', b', c', d', e', f'];
    FlattenInjective(parts, parts');
    assert parts[0] == parts'[0] && parts[1] == parts'[1] && parts[2] == parts'[2];
    assert parts[3] == parts'[3] && parts[4] == parts'[4] && parts[5] == parts'[5];
  }

  lemma StorageBinds(tw: Digest, th: TypeId -> Hash, s: Storage, th': TypeId -> Hash, s': Storage)
    requires InjectiveOn(tw, StorageInputs(tw, th, s) + StorageInputs(tw, th', s'))
    requires StorageHash(tw, th, Some(s)) == StorageHash(tw, th', Some(s'))
    ensures s.prefix == s'.prefix
    ensures XorFold(Map(EntryHasher(tw, th), s.entries)) == XorFold(Map(EntryHasher(tw, th'), s'.entries))
  {
    Two(tw(s.prefix), XorFold(Map(EntryHasher(tw, th), s.entries)),
        tw(s'.prefix), XorFold(Map(EntryHasher(tw, th'), s'.entries)));
  }
}
