/** Comparing two metadata: pallets and runtime APIs by hash, storage entries by hash and then
    by the reasons why they differ. */
module MetadataDiff {
  import opened Diffing
  import opened HashBinding
  import opened Hashes
  import opened Lists
  import opened MetadataBinding
  import opened MetadataHashing
  import opened Options
  import opened Registry
  import opened RuntimeMetadata
  import opened Search

  // ---- names are ordered by their bytes ----

  predicate NameLess(a: Name, b: Name) {
    if b == [] then false
    else if a == [] then true
    else a[0] < b[0] || (a[0] == b[0] && NameLess(a[1..], b[1..]))
  }

  lemma {:induction false} NameLessAntisymmetric(a: Name, b: Name)
    ensures !(NameLess(a, b) && NameLess(b, a))
    ensures NameLess(a, b) || NameLess(b, a) || a == b
  {
    if a != [] && b != [] {
      NameLessAntisymmetric(a[1..], b[1..]);
      if a[0] == b[0] && a[1..] == b[1..] {
        assert a == [a[0]] + a[1..] == b;
      }
    }
  }

  lemma {:induction false} NameLessTransitive(a: Name, b: Name, c: Name)
    requires NameLess(a, b) && NameLess(b, c)
    ensures NameLess(a, c)
  {
    if a != [] && b != [] && c != [] && a[0] == b[0] == c[0] {
      NameLessTransitive(a[1..], b[1..], c[1..]);
    }
  }

  lemma NamesOrdered()
    ensures TotalOrder(NameLess)
  {
    forall a, b
      ensures NameLess(a, b) ==> !NameLess(b, a)
      ensures NameLess(a, b) || NameLess(b, a) || a == b
    {
      NameLessAntisymmetric(a, b);
    }
    forall a, b, c | NameLess(a, b) && NameLess(b, c)
      ensures NameLess(a, c)
    {
      NameLessTransitive(a, b, c);
    }
  }

  // ---- pallets and runtime APIs ----

  function PalletDiffer(tw: Digest, m: Metadata, m': Metadata): Differ<Pallet, Hash, Name>
    requires WellFormed(m) && WellFormed(m')
  {
    Differ(PalletHasher(tw, TypeHashes(tw, m.types)), PalletHasher(tw, TypeHashes(tw, m'.types)), PalletName, NameLess)
  }

  function ApiDiffer(tw: Digest, m: Metadata, m': Metadata): Differ<RuntimeApi, Hash, Name>
    requires WellFormed(m) && WellFormed(m')
  {
    Differ(ApiHasher(tw, TypeHashes(tw, m.types)), ApiHasher(tw, TypeHashes(tw, m'.types)), ApiName, NameLess)
  }

  datatype MetadataDiff = MetadataDiff(pallets: seq<Difference<Pallet>>, runtimeApis: seq<Difference<RuntimeApi>>) {
    predicate IsEmpty() {
      pallets == [] && runtimeApis == []
    }
  }

  ghost predicate IsMetadataDiff(tw: Digest, m: Metadata, m': Metadata, diff: MetadataDiff)
    requires WellFormed(m) && WellFormed(m')
  {
    && IsDiff(PalletDiffer(tw, m, m'), m.pallets, m'.pallets, diff.pallets)
    && IsDiff(ApiDiffer(tw, m, m'), m.apis, m'.apis, diff.runtimeApis)
  }

  method Construct(tw: Digest, m: Metadata, m': Metadata) returns (diff: MetadataDiff)
    requires WellFormed(m) && WellFormed(m')
    ensures IsMetadataDiff(tw, m, m', diff)
  {
    NamesOrdered();
    var pallets := Diff(PalletDiffer(tw, m, m'), m.pallets, m'.pallets);
    var runtimeApis := Diff(ApiDiffer(tw, m, m'), m.apis, m'.apis);
    diff := MetadataDiff(pallets, runtimeApis);
  }

  /** Same keys, and equal hashes under equal keys: equal folds, whatever the order and
      whichever keys are let through. */
  lemma FoldsAgree<T(!new), I(!new)>(
      key: T -> I, keep: T -> bool, h: T -> Hash, h': T -> Hash, a: seq<T>, b: seq<T>)
    requires DistinctKeys(key, a) && DistinctKeys(key, b)
    requires forall k :: k in Map(key, a) <==> k in Map(key, b)
    requires forall x, y :: x in a && y in b && key(x) == key(y) ==> h(x) == h'(y) && keep(x) == keep(y)
    ensures FoldKept(keep, h, a) == FoldKept(keep, h', b)
  {
    var a', b' := Filter(keep, a), Filter(keep, b);
    FoldKeptIsFoldOfFiltered(keep, h, a);
    FoldKeptIsFoldOfFiltered(keep, h', b);
    FilterDistinct(keep, key, a);
    FilterDistinct(keep, key, b);
    FilterIn(keep, a);
    FilterIn(keep, b);
    forall k
      ensures k in Map(key, a') <==> k in Map(key, b')
    {
      KeptKey(key, keep, a, b, k);
      KeptKey(key, keep, b, a, k);
    }
    SameElementsSameMultiset(Map(key, a'), Map(key, b'));
    forall i, j | 0 <= i < |a'| && 0 <= j < |b'| && Map(key, a')[i] == Map(key, b')[j]
      ensures Map(h, a')[i] == Map(h', b')[j]
    {
      assert a'[i] in a' && b'[j] in b';
    }
    XorFoldByKeys(Map(key, a'), Map(h, a'), Map(key, b'), Map(h', b'));
  }

  lemma KeptKey<T(!new), I(!new)>(key: T -> I, keep: T -> bool, a: seq<T>, b: seq<T>, k: I)
    requires k in Map(key, a) ==> k in Map(key, b)
    requires forall x, y :: x in a && y in b && key(x) == key(y) ==> keep(x) == keep(y)
    ensures k in Map(key, Filter(keep, a)) ==> k in Map(key, Filter(keep, b))
  {
    if k in Map(key, Filter(keep, a)) {
      var i := IndexWithKey(key, Filter(keep, a), k);
      var j := FilterFrom(keep, a, i);
      MappedIn(key, a, j);
      var n := IndexWithKey(key, b, k);
      FilterIn(keep, b);
      assert b[n] in Filter(keep, b);
      var q :| 0 <= q < |Filter(keep, b)| && Filter(keep, b)[q] == b[n];
      MappedIn(key, Filter(keep, b), q);
    }
  }

  lemma IndexWithKey<T, I>(key: T -> I, items: seq<T>, k: I) returns (i: nat)
    requires k in Map(key, items)
    ensures i < |items| && key(items[i]) == k
  {
    i :| 0 <= i < |items| && Map(key, items)[i] == k;
  }

  lemma EmptyDiffFoldsAgree<T(!new), I(!new)>(
      d: Differ<T, Hash, I>, keep: T -> bool, a: seq<T>, b: seq<T>)
    requires IsDiff(d, a, b, []) && DistinctKeys(d.key, a) && DistinctKeys(d.key, b)
    requires forall x, y :: d.key(x) == d.key(y) ==> keep(x) == keep(y)
    ensures FoldKept(keep, d.hashA, a) == FoldKept(keep, d.hashB, b)
  {
    EmptyDiff(d, a, b, []);
    FoldsAgree(d.key, keep, d.hashA, d.hashB, a, b);
  }

  /** Main result: when the diff of two metadata is empty, the pallet and runtime API parts of
      their hashes agree, under any filters. */
  lemma EmptyDiffHashesAgree(tw: Digest, m: Metadata, m': Metadata, filters: Filters, diff: MetadataDiff)
    requires WellFormed(m) && WellFormed(m') && IsMetadataDiff(tw, m, m', diff) && diff.IsEmpty()
    requires DistinctKeys(PalletName, m.pallets) && DistinctKeys(PalletName, m'.pallets)
    requires DistinctKeys(ApiName, m.apis) && DistinctKeys(ApiName, m'.apis)
    ensures Components(tw, m, filters)[0] == Components(tw, m', filters)[0]
    ensures Components(tw, m, filters)[1] == Components(tw, m', filters)[1]
  {
    hide FoldKept, IsDiff, OuterEnumsHash, ExtrinsicHash, CustomValuesHash, PalletHasher, ApiHasher, TypeHashes;
    EmptyDiffFoldsAgree(PalletDiffer(tw, m, m'), KeepPallet(filters), m.pallets, m'.pallets);
    EmptyDiffFoldsAgree(ApiDiffer(tw, m, m'), KeepApi(filters), m.apis, m'.apis);
  }

  /** So an empty diff leaves three things that can make the metadata hashes differ. */
  lemma EmptyDiffSameHash(tw: Digest, m: Metadata, m': Metadata, filters: Filters, diff: MetadataDiff)
    requires WellFormed(m) && WellFormed(m') && IsMetadataDiff(tw, m, m', diff) && diff.IsEmpty()
    requires DistinctKeys(PalletName, m.pallets) && DistinctKeys(PalletName, m'.pallets)
    requires DistinctKeys(ApiName, m.apis) && DistinctKeys(ApiName, m'.apis)
    requires Components(tw, m, filters)[2..] == Components(tw, m', filters)[2..]
    ensures MetadataHash(tw, m, filters) == MetadataHash(tw, m', filters)
  {
    hide IsMetadataDiff, OuterEnumsHash, ExtrinsicHash, CustomValuesHash;
    EmptyDiffHashesAgree(tw, m, m', filters, diff);
    var c, c' := Components(tw, m, filters), Components(tw, m', filters);
    assert c == c[..2] + c[2..] && c' == c'[..2] + c'[2..];
    assert c[..2] == c'[..2];
  }

  // ---- storage entries ----

  function EntryName(e: StorageEntry): Name {
    e.name
  }

  function Entries(p: Pallet): seq<StorageEntry> {
    match p.storage case None => [] case Some(s) => s.entries
  }

  /** `storage_hash`: the entry is looked up by name first. The caller only passes names of
      entries that exist, so the default is never used. */
  function HashByName(tw: Digest, th: TypeId -> Hash, p: Pallet): StorageEntry -> Hash {
    (e: StorageEntry) =>
      match LastWith(EntryName, Entries(p), e.name)
      case Some(found) => StorageEntryHash(tw, th, found)
      case None => Zero()
  }

  function StorageDiffer(tw: Digest, th: TypeId -> Hash, th': TypeId -> Hash, p: Pallet, p': Pallet)
    : Differ<StorageEntry, Hash, Name>
  {
    Differ(HashByName(tw, th, p), HashByName(tw, th', p'), EntryName, NameLess)
  }

  datatype StorageEntryDiff = StorageEntryDiff(keyDifferent: bool, valueDifferent: bool, defaultDifferent: bool) {
    function Reasons(): seq<string> {
      (if keyDifferent then ["key type"] else [])
      + (if valueDifferent then ["value type"] else [])
      + (if defaultDifferent then ["default value"] else [])
    }

    method ToStrings() returns (strings: seq<string>)
      ensures strings == Reasons()
      ensures strings == [] <==> this == StorageEntryDiff(false, false, false)
    {
      strings := [];
      if keyDifferent {
        strings := strings + ["key type"];
      }
      if valueDifferent {
        strings := strings + ["value type"];
      }
      if defaultDifferent {
        strings := strings + ["default value"];
      }
    }
  }

  function CompareEntries(
      th: TypeId -> Hash, th': TypeId -> Hash, e: StorageEntry, e': StorageEntry): StorageEntryDiff
  {
    StorageEntryDiff(!KeyPartsSame(th, th', e.keys, e'.keys), th(e.valueId) != th'(e'.valueId),
                     e.defaultValue != e'.defaultValue)
  }

  lemma {:induction false} SameKeysHash(
      tw: Digest, th: TypeId -> Hash, th': TypeId -> Hash, start: Hash, keys: seq<StorageKey>, keys': seq<StorageKey>)
    requires KeyPartsSame(th, th', keys, keys')
    ensures KeysHash(tw, th, start, keys) == KeysHash(tw, th', start, keys')
    decreases |keys|
  {
    if keys != [] {
      SameKeysHash(tw, th, th', start, keys[..|keys| - 1], keys'[..|keys| - 1]);
    }
  }

  /** When no reason is given, the chained hashes of two entries of one name are equal. */
  lemma NoReasonSameHash(tw: Digest, th: TypeId -> Hash, th': TypeId -> Hash, e: StorageEntry, e': StorageEntry)
    requires e.name == e'.name && CompareEntries(th, th', e, e') == StorageEntryDiff(false, false, false)
    ensures StorageEntryHash(tw, th, e) == StorageEntryHash(tw, th', e')
  {
    SameKeysHash(tw, th, th', ConcatHash(tw, [tw(e.name), th(e.valueId), tw(DefaultBytes(e))]), e.keys, e'.keys);
  }

  /** Main result: every storage entry reported as changed has a reason, even when a name
      occurs twice in a pallet. */
  lemma ChangedEntryHasReason(
      tw: Digest, th: TypeId -> Hash, th': TypeId -> Hash, p: Pallet, p': Pallet,
      out: seq<Difference<StorageEntry>>, e: StorageEntry, e': StorageEntry)
    requires IsDiff(StorageDiffer(tw, th, th', p, p'), Entries(p), Entries(p'), out) && Changed(e, e') in out
    ensures CompareEntries(th, th', e, e') != StorageEntryDiff(false, false, false)
  {
    var d := StorageDiffer(tw, th, th', p, p');
    ChangedItems(d, Entries(p), Entries(p'), out, e, e');
    assert d.hashA(e) == StorageEntryHash(tw, th, e);
    assert d.hashB(e') == StorageEntryHash(tw, th', e');
    if CompareEntries(th, th', e, e') == StorageEntryDiff(false, false, false) {
      NoReasonSameHash(tw, th, th', e, e');
    }
  }

  /** Conversely, while the digest does not collide, entries that hash alike differ for no reason
      but a default value that is empty on one side and absent on the other; unless one has
      fewer keys, and then a name that is exactly 96 bytes long. */
  lemma SameHashNoReason(tw: Digest, th: TypeId -> Hash, th': TypeId -> Hash, e: StorageEntry, e': StorageEntry)
    requires InjectiveOn(tw, EntryInputs(tw, th, e) + EntryInputs(tw, th', e'))
    requires StorageEntryHash(tw, th, e) == StorageEntryHash(tw, th', e')
    ensures
      var diff := CompareEntries(th, th', e, e');
      if |e.keys| == |e'.keys| then
        && !diff.keyDifferent && !diff.valueDifferent
        && (diff.defaultDifferent ==> DefaultBytes(e) == DefaultBytes(e') == [])
      else diff.keyDifferent && |(if |e.keys| < |e'.keys| then e else e').name| == 3 * HASH_LEN
  {
    hide InjectiveOn, EntryContinues, StorageEntryHash;
    StorageEntryBinds(tw, th, e, th', e');
  }

  // ---- what is reported ----

  /** With distinct names: what one side alone has is removed or added, and what both have is changed
      exactly when the hashes differ. */
  ghost predicate Reports<T(!new)>(
      name: T -> Name, h: T -> Hash, h': T -> Hash, a: seq<T>, b: seq<T>, out: seq<Difference<T>>)
  {
    && (forall x :: Removed(x) in out <==> x in a && forall y :: y in b ==> name(y) != name(x))
    && (forall y :: Added(y) in out <==> y in b && forall x :: x in a ==> name(x) != name(y))
    && (forall x, y :: Changed(x, y) in out <==> x in a && y in b && name(x) == name(y) && h(x) != h'(y))
  }

  /** Of pallets and runtime APIs. */
  lemma MetadataDiffReports(tw: Digest, m: Metadata, m': Metadata, diff: MetadataDiff)
    requires WellFormed(m) && WellFormed(m') && IsMetadataDiff(tw, m, m', diff)
    requires DistinctKeys(PalletName, m.pallets) && DistinctKeys(PalletName, m'.pallets)
    requires DistinctKeys(ApiName, m.apis) && DistinctKeys(ApiName, m'.apis)
    ensures
      var th, th' := TypeHashes(tw, m.types), TypeHashes(tw, m'.types);
      && Reports((p: Pallet) => p.name, (p: Pallet) => PalletHash(tw, th, p), (p: Pallet) => PalletHash(tw, th', p),
                 m.pallets, m'.pallets, diff.pallets)
      && Reports((a: RuntimeApi) => a.name, (a: RuntimeApi) => ApiHash(tw, th, a),
                 (a: RuntimeApi) => ApiHash(tw, th', a), m.apis, m'.apis, diff.runtimeApis)
  {
    hide WellFormed, PalletHash, ApiHash, TypeHashes, IsDiff;
    WellFormedParts(m);
    WellFormedParts(m');
    DiffOfDistinct(PalletDiffer(tw, m, m'), m.pallets, m'.pallets, diff.pallets);
    DiffOfDistinct(ApiDiffer(tw, m, m'), m.apis, m'.apis, diff.runtimeApis);
  }

  /** And of the storage entries of two pallets. */
  lemma StorageDiffReports(
      tw: Digest, th: TypeId -> Hash, th': TypeId -> Hash, p: Pallet, s: Storage, p': Pallet, s': Storage,
      out: seq<Difference<StorageEntry>>)
    requires p.storage == Some(s) && p'.storage == Some(s')
    requires IsDiff(StorageDiffer(tw, th, th', p, p'), Entries(p), Entries(p'), out)
    requires DistinctKeys(EntryName, s.entries) && DistinctKeys(EntryName, s'.entries)
    ensures Reports((e: StorageEntry) => e.name, (e: StorageEntry) => StorageEntryHash(tw, th, e),
                    (e: StorageEntry) => StorageEntryHash(tw, th', e), s.entries, s'.entries, out)
  {
    hide StorageEntryHash, IsDiff;
    var d := StorageDiffer(tw, th, th', p, p');
    DiffOfDistinct(d, s.entries, s'.entries, out);
    forall e | e in s.entries
      ensures d.hashA(e) == StorageEntryHash(tw, th, e)
    {
      FoundByKey(EntryName, s.entries, e);
    }
    forall e | e in s'.entries
      ensures d.hashB(e) == StorageEntryHash(tw, th', e)
    {
      FoundByKey(EntryName, s'.entries, e);
    }
  }

  // ---- each reason names the part that changed ----

  /** As many keys, with the same hashers and equal type hashes one by one. */
  ghost predicate KeysAgree(th: TypeId -> Hash, th': TypeId -> Hash, e: StorageEntry, e': StorageEntry) {
    && |e.keys| == |e'.keys|
    && (forall i :: 0 <= i < |e.keys| ==> e.keys[i].hasher == e'.keys[i].hasher)
    && (forall i :: 0 <= i < |e.keys| ==> th(e.keys[i].keyId) == th'(e'.keys[i].keyId))
  }

  /** Main result: of any two entries, each reason is given exactly when its part differs, once, and
      in this order. */
  lemma ReasonsAreExact(th: TypeId -> Hash, th': TypeId -> Hash, e: StorageEntry, e': StorageEntry)
    ensures
      var reasons := CompareEntries(th, th', e, e').Reasons();
      && ("key type" in reasons <==> !KeysAgree(th, th', e, e'))
      && ("value type" in reasons <==> th(e.valueId) != th'(e'.valueId))
      && ("default value" in reasons <==> e.defaultValue != e'.defaultValue)
      && (forall i :: 0 <= i < |reasons| ==> reasons[i] in {"key type", "value type", "default value"})
      && (forall i, j :: 0 <= i < j < |reasons| ==>
            (reasons[i] == "key type" && reasons[j] != "key type")
            || (reasons[i] == "value type" && reasons[j] == "default value"))
  {
    var diff := CompareEntries(th, th', e, e');
    var key, value, default := "key type", "value type", "default value";
    assert |key| == 8 && |value| == 10 && |default| == 13;
    assert diff.keyDifferent <==> !KeysAgree(th, th', e, e');
    var head := (if diff.keyDifferent then [key] else []) + (if diff.valueDifferent then [value] else []);
    assert diff.Reasons() == head + (if diff.defaultDifferent then [default] else []);
  }

  /** When the value type alone is replaced, that is the one reason given, if its hash differs... */
  lemma ValueAloneChanged(th: TypeId -> Hash, e: StorageEntry, valueId: TypeId)
    ensures CompareEntries(th, th, e, e.(valueId := valueId)).Reasons()
         == if th(valueId) == th(e.valueId) then [] else ["value type"]
  {
  }

  /** ... the default value... */
  lemma DefaultAloneChanged(th: TypeId -> Hash, e: StorageEntry, defaultValue: Option<Bytes>)
    ensures CompareEntries(th, th, e, e.(defaultValue := defaultValue)).Reasons()
         == if defaultValue == e.defaultValue then [] else ["default value"]
  {
  }

  /** ... or one key. */
  lemma KeyAloneChanged(th: TypeId -> Hash, e: StorageEntry, i: nat, key: StorageKey)
    requires i < |e.keys|
    ensures CompareEntries(th, th, e, e.(keys := e.keys[i := key])).Reasons()
         == if key.hasher == e.keys[i].hasher && th(key.keyId) == th(e.keys[i].keyId) then [] else ["key type"]
  {
    var keys := e.keys[i := key];
    assert keys[i] == key;
    if key.hasher == e.keys[i].hasher && th(key.keyId) == th(e.keys[i].keyId) {
      assert KeyPartsSame(th, th, e.keys, keys);
    }
  }

  /** The order of names is that of their bytes: a proper prefix is less, and otherwise the first
      byte that differs decides. */
  ghost predicate BytesLess(a: Name, b: Name) {
    a < b || exists k: nat :: LessAt(a, b, k)
  }

  ghost predicate LessAt(a: Name, b: Name, k: nat) {
    k < |a| && k < |b| && a[..k] == b[..k] && a[k] < b[k]
  }

  lemma {:induction false} NameLessIsByteOrder(a: Name, b: Name)
    ensures NameLess(a, b) <==> BytesLess(a, b)
    decreases |a|
  {
    hide LessAt;
    if a != [] && b != [] {
      assert a == [a[0]] + a[1..] && b == [b[0]] + b[1..];
      if a[0] == b[0] {
        NameLessIsByteOrder(a[1..], b[1..]);
        assert a < b <==> a[1..] < b[1..];
        LessAhead(a, b);
      } else {
        LessAtFirst(a, b);
      }
    } else {
      LessNowhere(a, b);
    }
  }

  lemma LessNowhere(a: Name, b: Name)
    requires a == [] || b == []
    ensures !exists k: nat :: LessAt(a, b, k)
  {
  }

  lemma LessAhead(a: Name, b: Name)
    requires a != [] && b != [] && a[0] == b[0]
    ensures (exists k: nat :: LessAt(a, b, k)) <==> exists k: nat :: LessAt(a[1..], b[1..], k)
  {
    hide LessAt;
    if k: nat :| LessAt(a[1..], b[1..], k) {
      LessLater(a, b, k + 1);
    }
    if k: nat :| LessAt(a, b, k) {
      LessNotFirst(a, b, k);
      LessLater(a, b, k);
    }
  }

  lemma LessNotFirst(a: Name, b: Name, k: nat)
    requires a != [] && b != [] && a[0] == b[0] && LessAt(a, b, k)
    ensures k > 0
  {
  }

  lemma LessLater(a: Name, b: Name, k: nat)
    requires a != [] && b != [] && a[0] == b[0] && k > 0
    ensures LessAt(a, b, k) <==> LessAt(a[1..], b[1..], k - 1)
  {
    if k < |a| && k < |b| {
      assert a[..k] == [a[0]] + a[1..][..k - 1] && b[..k] == [b[0]] + b[1..][..k - 1];
      assert a[..k][1..] == a[1..][..k - 1] && b[..k][1..] == b[1..][..k - 1];
    }
  }

  lemma LessAtFirst(a: Name, b: Name)
    requires a != [] && b != [] && a[0] != b[0]
    ensures (exists k: nat :: LessAt(a, b, k)) <==> a[0] < b[0]
  {
    if a[0] < b[0] {
      assert LessAt(a, b, 0);
    }
    if k: nat :| LessAt(a, b, k) {
      if k > 0 {
        SameFirst(a, b, k);
      }
    }
  }

  lemma SameFirst(a: Name, b: Name, k: nat)
    requires 0 < k <= |a| && k <= |b| && a[..k] == b[..k]
    ensures a[0] == b[0]
  {
    assert a[..k][0] == b[..k][0];
  }
}
