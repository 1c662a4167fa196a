/** Building the pallet indexes of the metadata, and finding a call by name or by index. */
module MetadataIndex {
  import opened Integers
  import opened Options
  import opened OrderedMaps
  import opened Registry
  import opened Search
  import opened VariantIndexes

  /** A pallet as the versioned metadata lists it. */
  datatype RawPallet = RawPallet(
    name: Name, index: u8, callTy: Option<TypeId>, eventTy: Option<TypeId>, errorTy: Option<TypeId>)

  datatype PalletInner = PalletInner(
    name: Name, callIndex: u8, eventIndex: u8, errorIndex: u8,
    callTy: Option<TypeId>, callVariantIndex: VariantIndex,
    eventTy: Option<TypeId>, eventVariantIndex: VariantIndex,
    errorTy: Option<TypeId>, errorVariantIndex: VariantIndex)

  function RawName(p: RawPallet): Name {
    p.name
  }

  function RawIndex(p: RawPallet): u8 {
    p.index
  }

  ghost predicate Built(types: Types, raw: RawPallet, p: PalletInner) {
    && p.name == raw.name && p.callIndex == p.eventIndex == p.errorIndex == raw.index
    && p.callTy == raw.callTy && IndexOf(p.callVariantIndex, VariantsOf(raw.callTy, types))
    && p.eventTy == raw.eventTy && IndexOf(p.eventVariantIndex, VariantsOf(raw.eventTy, types))
    && p.errorTy == raw.errorTy && IndexOf(p.errorVariantIndex, VariantsOf(raw.errorTy, types))
  }

  datatype CallInfo = CallInfo(
    callIndex: u8, palletIndex: u8, palletName: Name, callName: Name, args: seq<(Name, TypeId)>)

  datatype CallError =
    | PalletNotFound(index: u8)
    | CallNotFound(callIndex: u8, palletIndex: u8, palletName: Name)
    | PalletNotFoundByName(name: Name)
    | CallNotFoundByName(palletIndex: u8, palletName: Name, callName: Name)

  datatype CallResult = Found(info: CallInfo) | Missing(error: CallError)

  function CallArgs(call: Variant): seq<(Name, TypeId)> {
    seq(|call.fields|, i requires 0 <= i < |call.fields| =>
      (match call.fields[i].name case Some(name) => name case None => [], call.fields[i].ty))
  }

  class PalletIndex {
    const types: Types
    const pallets: OrderedMap<Name, PalletInner>
    var palletsByCallIndex: map<u8, nat>
    var palletsByErrorIndex: map<u8, nat>
    var palletsByEventIndex: map<u8, nat>

    /** The map of pallets, the map of positions and the list they come from are in step. */
    ghost predicate Represents(raw: seq<RawPallet>)
      reads this, pallets
    {
      && InStep(types, raw, pallets)
      && Indexes(RawIndex, raw, palletsByCallIndex)
      && palletsByCallIndex == palletsByErrorIndex == palletsByEventIndex
    }

    constructor (types: Types, raw: seq<RawPallet>)
      ensures this.types == types && Represents(raw) && fresh(pallets)
    {
      this.types := types;
      var pallets := new OrderedMap();
      var palletsByIndex: map<u8, nat> := map[];
      for pos := 0 to |raw|
        invariant fresh(pallets) && InStep(types, raw[..pos], pallets)
        invariant Indexes(RawIndex, raw[..pos], palletsByIndex)
      {
        var p := raw[pos];
        var callVariantIndex := Build(p.callTy, types);
        var errorVariantIndex := Build(p.errorTy, types);
        var eventVariantIndex := Build(p.eventTy, types);
        var inner := PalletInner(p.name, p.index, p.index, p.index, p.callTy, callVariantIndex,
                                 p.eventTy, eventVariantIndex, p.errorTy, errorVariantIndex);
        assert raw[..pos + 1] == raw[..pos] + [p];
        IndexesSnoc(RawIndex, raw[..pos], palletsByIndex, p);
        palletsByIndex := palletsByIndex[p.index := pos];
        pallets.PushInsert(p.name, inner);
      }
      assert raw[..|raw|] == raw;
      this.pallets := pallets;
      palletsByCallIndex := palletsByIndex;
      palletsByErrorIndex := palletsByIndex;
      palletsByEventIndex := palletsByIndex;
    }

    function PalletByCallIndex(index: u8): Option<PalletInner>
      reads this, pallets
    {
      if index in palletsByCallIndex then pallets.GetByIndex(palletsByCallIndex[index]) else None
    }

    function PalletByErrorIndex(index: u8): Option<PalletInner>
      reads this, pallets
    {
      if index in palletsByErrorIndex then pallets.GetByIndex(palletsByErrorIndex[index]) else None
    }

    function PalletByEventIndex(index: u8): Option<PalletInner>
      reads this, pallets
    {
      if index in palletsByEventIndex then pallets.GetByIndex(palletsByEventIndex[index]) else None
    }

    function PalletByName(name: Name): Option<PalletInner>
      requires pallets.Valid()
      reads this, pallets
    {
      pallets.GetByKey(name)
    }

    function CallVariantByIndex(p: PalletInner, index: u8): Option<Variant> {
      LookupByIndex(p.callVariantIndex, index, p.callTy, types)
    }

    function CallVariantByName(p: PalletInner, name: Name): Option<Variant> {
      LookupByName(p.callVariantIndex, name, p.callTy, types)
    }

    function ExtrinsicCallInfoByIndex(palletIndex: u8, callIndex: u8): CallResult
      reads this, pallets
    {
      match PalletByCallIndex(palletIndex)
      case None => Missing(PalletNotFound(palletIndex))
      case Some(pallet) =>
        match CallVariantByIndex(pallet, callIndex)
        case None => Missing(CallNotFound(callIndex, palletIndex, pallet.name))
        case Some(call) => Found(CallInfo(callIndex, palletIndex, pallet.name, call.name, CallArgs(call)))
    }

    function ExtrinsicCallInfoByName(palletName: Name, callName: Name): CallResult
      requires pallets.Valid()
      reads this, pallets
    {
      match PalletByName(palletName)
      case None => Missing(PalletNotFoundByName(palletName))
      case Some(pallet) =>
        match CallVariantByName(pallet, callName)
        case None => Missing(CallNotFoundByName(pallet.callIndex, pallet.name, callName))
        case Some(call) => Found(CallInfo(call.index, pallet.callIndex, pallet.name, call.name, CallArgs(call)))
    }
  }

  ghost predicate InStep(types: Types, raw: seq<RawPallet>, pallets: OrderedMap<Name, PalletInner>)
    reads pallets
  {
    && pallets.Valid() && |pallets.pushed| == |raw|
    && forall i :: 0 <= i < |raw| ==> pallets.pushed[i].0 == raw[i].name && Built(types, raw[i], pallets.pushed[i].1)
  }

  // ---- the indexes agree with linear search ----

  lemma PalletPositions(m: PalletIndex, raw: seq<RawPallet>, name: Name, index: u8)
    requires m.Represents(raw)
    ensures m.PalletByName(name)
         == match LastIndex(RawName, raw, name) case None => None case Some(i) => Some(m.pallets.pushed[i].1)
    ensures m.PalletByCallIndex(index)
         == match LastIndex(RawIndex, raw, index) case None => None case Some(i) => Some(m.pallets.pushed[i].1)
    ensures m.PalletByErrorIndex(index) == m.PalletByEventIndex(index) == m.PalletByCallIndex(index)
  {
    hide VariantsOf;
    var pushed := m.pallets.pushed;
    LastWithIsAtLastIndex(PairKey, pushed, name);
    SameLastIndex(raw, pushed, name);
    assert LastIndex(RawIndex, raw, index)
        == if index in m.palletsByCallIndex then Some(m.palletsByCallIndex[index]) else None;
  }

  lemma SameLastIndex(raw: seq<RawPallet>, pushed: seq<(Name, PalletInner)>, name: Name)
    requires |raw| == |pushed| && forall i :: 0 <= i < |raw| ==> pushed[i].0 == raw[i].name
    ensures LastIndex(RawName, raw, name) == LastIndex(PairKey, pushed, name)
  {
    var i, j := LastIndex(RawName, raw, name), LastIndex(PairKey, pushed, name);
    if i.Some? {
      assert PairKey(pushed[i.value]) == name;
    }
    if j.Some? {
      assert RawName(raw[j.value]) == name;
    }
  }

  function CallOf(palletIndex: u8, palletName: Name, call: Variant): CallInfo {
    CallInfo(call.index, palletIndex, palletName, call.name, CallArgs(call))
  }

  /** A call found by searching the listed pallets and the variants themselves. */
  function SearchByName(types: Types, raw: seq<RawPallet>, palletName: Name, callName: Name): CallResult {
    match LastWith(RawName, raw, palletName)
    case None => Missing(PalletNotFoundByName(palletName))
    case Some(p) =>
      match LastWith(VariantName, VariantsOf(p.callTy, types), callName)
      case None => Missing(CallNotFoundByName(p.index, p.name, callName))
      case Some(call) => Found(CallOf(p.index, p.name, call))
  }

  function SearchByIndex(types: Types, raw: seq<RawPallet>, palletIndex: u8, callIndex: u8): CallResult {
    match LastWith(RawIndex, raw, palletIndex)
    case None => Missing(PalletNotFound(palletIndex))
    case Some(p) =>
      match LastWith(VariantByte, VariantsOf(p.callTy, types), callIndex)
      case None => Missing(CallNotFound(callIndex, palletIndex, p.name))
      case Some(call) => Found(CallOf(palletIndex, p.name, call))
  }

  /** Main result: through the indexes, a call is found by name exactly as by searching. */
  lemma NameLookupIsSearch(m: PalletIndex, raw: seq<RawPallet>, palletName: Name, callName: Name)
    requires m.Represents(raw)
    ensures m.ExtrinsicCallInfoByName(palletName, callName) == SearchByName(m.types, raw, palletName, callName)
  {
    PalletPositions(m, raw, palletName, 0);
    LastWithIsAtLastIndex(RawName, raw, palletName);
    var i := LastIndex(RawName, raw, palletName);
    if i.Some? {
      var p := m.pallets.pushed[i.value].1;
      assert Built(m.types, raw[i.value], p);
      LookupsAreLastMatch(p.callVariantIndex, p.callTy, m.types, callName, 0);
    }
  }

  lemma IndexLookupIsSearch(m: PalletIndex, raw: seq<RawPallet>, palletIndex: u8, callIndex: u8)
    requires m.Represents(raw)
    ensures m.ExtrinsicCallInfoByIndex(palletIndex, callIndex) == SearchByIndex(m.types, raw, palletIndex, callIndex)
  {
    PalletPositions(m, raw, [], palletIndex);
    LastWithIsAtLastIndex(RawIndex, raw, palletIndex);
    var i := LastIndex(RawIndex, raw, palletIndex);
    if i.Some? {
      var p := m.pallets.pushed[i.value].1;
      assert Built(m.types, raw[i.value], p);
      LookupsAreLastMatch(p.callVariantIndex, p.callTy, m.types, [], callIndex);
    }
  }

  // ---- by name and by index ----

  ghost predicate NoneAfter<T, I>(key: T -> I, items: seq<T>, i: nat)
    requires i < |items|
  {
    forall k :: i < k < |items| ==> key(items[k]) != key(items[i])
  }

  /** The item found under one key is found under another exactly when no later item shares that
      other key: one that does hides it, and is told apart by the first key. */
  lemma FoundAgain<T, I, N>(key: T -> I, name: T -> N, items: seq<T>, n: N)
    requires LastIndex(name, items, n).Some?
    ensures
      var i := LastIndex(name, items, n).value;
      var again := LastWith(key, items, key(items[i]));
      && again.Some? && LastWith(name, items, n) == Some(items[i])
      && (NoneAfter(key, items, i) ==> again.value == items[i])
      && (!NoneAfter(key, items, i) ==> name(again.value) != n)
  {
    var i := LastIndex(name, items, n).value;
    LastWithIsAtLastIndex(name, items, n);
    LastWithIsAtLastIndex(key, items, key(items[i]));
  }

  /** Exactly when the round trip through the indexes works: no later pallet takes the index of
      the pallet that was found, and no later call of that pallet the index of the call. */
  lemma SameCallExactlyWhen(m: PalletIndex, raw: seq<RawPallet>, palletName: Name, callName: Name)
    requires m.Represents(raw) && m.ExtrinsicCallInfoByName(palletName, callName).Found?
    ensures
      var info := m.ExtrinsicCallInfoByName(palletName, callName).info;
      var i := LastIndex(RawName, raw, palletName);
      && i.Some?
      && var calls := VariantsOf(raw[i.value].callTy, m.types);
         var j := LastIndex(VariantName, calls, callName);
         && j.Some?
         && var same := m.ExtrinsicCallInfoByIndex(info.palletIndex, info.callIndex) == Found(info);
            same <==> NoneAfter(RawIndex, raw, i.value) && NoneAfter(VariantByte, calls, j.value)
  {
    hide LastIndex, NoneAfter, VariantsOf, PalletIndex.Represents;
    hide PalletIndex.ExtrinsicCallInfoByName, PalletIndex.ExtrinsicCallInfoByIndex;
    NameLookupIsSearch(m, raw, palletName, callName);
    FoundAgain(RawIndex, RawName, raw, palletName);
    var p := raw[LastIndex(RawName, raw, palletName).value];
    var calls := VariantsOf(p.callTy, m.types);
    FoundAgain(VariantByte, VariantName, calls, callName);
    IndexLookupIsSearch(m, raw, p.index, calls[LastIndex(VariantName, calls, callName).value].index);
  }

  /** And the other way round, through the names. */
  lemma SameNamesExactlyWhen(m: PalletIndex, raw: seq<RawPallet>, palletIndex: u8, callIndex: u8)
    requires m.Represents(raw) && m.ExtrinsicCallInfoByIndex(palletIndex, callIndex).Found?
    ensures
      var info := m.ExtrinsicCallInfoByIndex(palletIndex, callIndex).info;
      var i := LastIndex(RawIndex, raw, palletIndex);
      && i.Some?
      && var calls := VariantsOf(raw[i.value].callTy, m.types);
         var j := LastIndex(VariantByte, calls, callIndex);
         && j.Some?
         && var same := m.ExtrinsicCallInfoByName(info.palletName, info.callName) == Found(info);
            same <==> NoneAfter(RawName, raw, i.value) && NoneAfter(VariantName, calls, j.value)
  {
    hide LastIndex, NoneAfter, VariantsOf, PalletIndex.Represents;
    hide PalletIndex.ExtrinsicCallInfoByName, PalletIndex.ExtrinsicCallInfoByIndex;
    IndexLookupIsSearch(m, raw, palletIndex, callIndex);
    FoundAgain(RawName, RawIndex, raw, palletIndex);
    var p := raw[LastIndex(RawIndex, raw, palletIndex).value];
    var calls := VariantsOf(p.callTy, m.types);
    FoundAgain(VariantName, VariantByte, calls, callIndex);
    NameLookupIsSearch(m, raw, p.name, calls[LastIndex(VariantByte, calls, callIndex).value].name);
  }

  // ---- without repetitions ----

  ghost predicate CallNamesDistinct(types: Types, raw: seq<RawPallet>) {
    forall i :: 0 <= i < |raw| ==> DistinctKeys(VariantName, VariantsOf(raw[i].callTy, types))
  }

  ghost predicate CallIndexesDistinct(types: Types, raw: seq<RawPallet>) {
    forall i :: 0 <= i < |raw| ==> DistinctKeys(VariantByte, VariantsOf(raw[i].callTy, types))
  }

  lemma DistinctNoneAfter<T, I>(key: T -> I, items: seq<T>, i: nat)
    requires i < |items| && DistinctKeys(key, items)
    ensures NoneAfter(key, items, i)
  {
    forall k | i < k < |items|
      ensures key(items[k]) != key(items[i])
    {
      KeysApart(key, items, i, k);
    }
  }

  /** With distinct indexes, whatever is found by name is found, identically, under the indexes
      it reports. */
  lemma NameThenIndex(m: PalletIndex, raw: seq<RawPallet>, palletName: Name, callName: Name)
    requires m.Represents(raw) && DistinctKeys(RawIndex, raw) && CallIndexesDistinct(m.types, raw)
    requires m.ExtrinsicCallInfoByName(palletName, callName).Found?
    ensures
      var info := m.ExtrinsicCallInfoByName(palletName, callName).info;
      m.ExtrinsicCallInfoByIndex(info.palletIndex, info.callIndex) == Found(info)
  {
    SameCallExactlyWhen(m, raw, palletName, callName);
    var i := LastIndex(RawName, raw, palletName).value;
    var calls := VariantsOf(raw[i].callTy, m.types);
    DistinctNoneAfter(RawIndex, raw, i);
    DistinctNoneAfter(VariantByte, calls, LastIndex(VariantName, calls, callName).value);
  }

  /** With distinct names, the other way round. */
  lemma IndexThenName(m: PalletIndex, raw: seq<RawPallet>, palletIndex: u8, callIndex: u8)
    requires m.Represents(raw) && DistinctKeys(RawName, raw) && CallNamesDistinct(m.types, raw)
    requires m.ExtrinsicCallInfoByIndex(palletIndex, callIndex).Found?
    ensures
      var info := m.ExtrinsicCallInfoByIndex(palletIndex, callIndex).info;
      m.ExtrinsicCallInfoByName(info.palletName, info.callName) == Found(info)
  {
    SameNamesExactlyWhen(m, raw, palletIndex, callIndex);
    var i := LastIndex(RawIndex, raw, palletIndex).value;
    var calls := VariantsOf(raw[i].callTy, m.types);
    DistinctNoneAfter(RawName, raw, i);
    DistinctNoneAfter(VariantName, calls, LastIndex(VariantByte, calls, callIndex).value);
  }

  // ---- what a lookup returns ----

  /** Pallet `i` is the last one with the name. */
  ghost predicate LastNamed(raw: seq<RawPallet>, name: Name, i: nat) {
    i < |raw| && raw[i].name == name && forall j :: i < j < |raw| ==> raw[j].name != name
  }

  ghost predicate LastIndexed(raw: seq<RawPallet>, index: u8, i: nat) {
    i < |raw| && raw[i].index == index && forall j :: i < j < |raw| ==> raw[j].index != index
  }

  /** The calls of a pallet are the variants of its call type, if that is an enum. */
  ghost predicate CallsAre(types: Types, p: RawPallet, calls: seq<Variant>) {
    match p.callTy
    case Some(id) =>
      if id < |types| && types[id].def.Variants? then calls == types[id].def.variants else calls == []
    case None => calls == []
  }

  ghost predicate LastCallNamed(calls: seq<Variant>, name: Name, k: nat) {
    k < |calls| && calls[k].name == name && forall j :: k < j < |calls| ==> calls[j].name != name
  }

  ghost predicate LastCallIndexed(calls: seq<Variant>, index: u8, k: nat) {
    k < |calls| && calls[k].index == index && forall j :: k < j < |calls| ==> calls[j].index != index
  }

  /** The indexes and names of pallet and call, and one argument per field in the order of the
      fields: its name, empty if it has none, and its type. */
  ghost predicate Describes(info: CallInfo, p: RawPallet, call: Variant) {
    && info.palletIndex == p.index && info.palletName == p.name
    && info.callIndex == call.index && info.callName == call.name
    && |info.args| == |call.fields|
    && (forall k :: 0 <= k < |info.args| ==> info.args[k].1 == call.fields[k].ty)
    && (forall k :: 0 <= k < |info.args| ==>
          info.args[k].0 == if call.fields[k].name.Some? then call.fields[k].name.value else [])
  }

  /** By name: the last call with the name in the last pallet with the name. */
  lemma FoundByName(
      m: PalletIndex, raw: seq<RawPallet>, palletName: Name, callName: Name, i: nat, calls: seq<Variant>, k: nat)
    requires m.Represents(raw) && LastNamed(raw, palletName, i) && CallsAre(m.types, raw[i], calls)
    requires LastCallNamed(calls, callName, k)
    ensures
      var found := m.ExtrinsicCallInfoByName(palletName, callName);
      found.Found? && Describes(found.info, raw[i], calls[k])
  {
    hide PalletIndex.Represents, PalletIndex.ExtrinsicCallInfoByName;
    NameLookupIsSearch(m, raw, palletName, callName);
    LastWithIsAtLastIndex(RawName, raw, palletName);
    assert LastIndex(RawName, raw, palletName) == Some(i);
    assert VariantsOf(raw[i].callTy, m.types) == calls;
    LastWithIsAtLastIndex(VariantName, calls, callName);
    assert LastIndex(VariantName, calls, callName) == Some(k);
  }

  /** Otherwise the error says what is missing: the pallet... */
  lemma PalletMissingByName(m: PalletIndex, raw: seq<RawPallet>, palletName: Name, callName: Name)
    requires m.Represents(raw) && forall i :: 0 <= i < |raw| ==> raw[i].name != palletName
    ensures m.ExtrinsicCallInfoByName(palletName, callName) == Missing(PalletNotFoundByName(palletName))
  {
    NameLookupIsSearch(m, raw, palletName, callName);
    LastWithIsAtLastIndex(RawName, raw, palletName);
  }

  /** ... or the call in the pallet that was found. */
  lemma CallMissingByName(
      m: PalletIndex, raw: seq<RawPallet>, palletName: Name, callName: Name, i: nat, calls: seq<Variant>)
    requires m.Represents(raw) && LastNamed(raw, palletName, i) && CallsAre(m.types, raw[i], calls)
    requires forall k :: 0 <= k < |calls| ==> calls[k].name != callName
    ensures m.ExtrinsicCallInfoByName(palletName, callName)
         == Missing(CallNotFoundByName(raw[i].index, palletName, callName))
  {
    hide PalletIndex.Represents, PalletIndex.ExtrinsicCallInfoByName, LastIndex;
    NameLookupIsSearch(m, raw, palletName, callName);
    LastWithIsAtLastIndex(RawName, raw, palletName);
    assert LastIndex(RawName, raw, palletName) == Some(i);
    assert VariantsOf(raw[i].callTy, m.types) == calls;
    LastWithIsAtLastIndex(VariantName, calls, callName);
  }

  /** By index: the last call with the index in the last pallet with the index. */
  lemma FoundByIndex(
      m: PalletIndex, raw: seq<RawPallet>, palletIndex: u8, callIndex: u8, i: nat, calls: seq<Variant>, k: nat)
    requires m.Represents(raw) && LastIndexed(raw, palletIndex, i) && CallsAre(m.types, raw[i], calls)
    requires LastCallIndexed(calls, callIndex, k)
    ensures
      var found := m.ExtrinsicCallInfoByIndex(palletIndex, callIndex);
      found.Found? && Describes(found.info, raw[i], calls[k])
  {
    hide PalletIndex.Represents, PalletIndex.ExtrinsicCallInfoByIndex;
    IndexLookupIsSearch(m, raw, palletIndex, callIndex);
    LastWithIsAtLastIndex(RawIndex, raw, palletIndex);
    assert LastIndex(RawIndex, raw, palletIndex) == Some(i);
    assert VariantsOf(raw[i].callTy, m.types) == calls;
    LastWithIsAtLastIndex(VariantByte, calls, callIndex);
    assert LastIndex(VariantByte, calls, callIndex) == Some(k);
  }

  lemma PalletMissingByIndex(m: PalletIndex, raw: seq<RawPallet>, palletIndex: u8, callIndex: u8)
    requires m.Represents(raw) && forall i :: 0 <= i < |raw| ==> raw[i].index != palletIndex
    ensures m.ExtrinsicCallInfoByIndex(palletIndex, callIndex) == Missing(PalletNotFound(palletIndex))
  {
    IndexLookupIsSearch(m, raw, palletIndex, callIndex);
    LastWithIsAtLastIndex(RawIndex, raw, palletIndex);
  }

  lemma CallMissingByIndex(
      m: PalletIndex, raw: seq<RawPallet>, palletIndex: u8, callIndex: u8, i: nat, calls: seq<Variant>)
    requires m.Represents(raw) && LastIndexed(raw, palletIndex, i) && CallsAre(m.types, raw[i], calls)
    requires forall k :: 0 <= k < |calls| ==> calls[k].index != callIndex
    ensures m.ExtrinsicCallInfoByIndex(palletIndex, callIndex)
         == Missing(CallNotFound(callIndex, palletIndex, raw[i].name))
  {
    hide PalletIndex.Represents, PalletIndex.ExtrinsicCallInfoByIndex, LastIndex;
    IndexLookupIsSearch(m, raw, palletIndex, callIndex);
    LastWithIsAtLastIndex(RawIndex, raw, palletIndex);
    assert LastIndex(RawIndex, raw, palletIndex) == Some(i);
    assert VariantsOf(raw[i].callTy, m.types) == calls;
    LastWithIsAtLastIndex(VariantByte, calls, callIndex);
  }
}
