# Verified core of Subxt

A Dafny model of the parts of Subxt whose correctness is not visible from one function body,
with proofs that hold for every input, every run or every reachable state:

- **Metadata hashing** (`metadata/src/utils/validation.rs`): a memoised depth-first hash over
  a possibly cyclic type registry, and the metadata hash on top of it, which generated code
  compares (`is_codegen_valid_for`). The recursive procedures share one mutable cache and are
  proved equal to functions; about those it is proved which entries they create, that type
  ids and the order of unordered parts do not matter, that memoisation is invisible on
  acyclic types, when fields of cyclic types may be reordered, what equal hashes say about the
  hashed parts, that generated code notices every single change of an item, and when stripped
  metadata (`utils/strip-metadata/src/lib.rs`) keeps its hash.
- **The light client's background task** (`lightclient/src/background.rs`): a JSON-RPC
  multiplexer against an environment that answers anything in any order. A ledger of messages
  and a journal of subscriptions, both defined without the task's maps, say what it does over
  every run, and the members of a received object say who gets what.
- **Event decoding** (`subxt/src/events.rs`): a cursor over one shared buffer and an iterator,
  with a round trip, an exact description of the byte strings that decode, and of which error
  every other one gives.
- **The metadata diff** (`cli/src/commands/diff.rs`): a hash-map merge that is proved to be the
  set-theoretic difference, to patch one side into the other, and to agree with hashing.
- **Lookup tables and unique names** (`metadata/src/utils`, `metadata/src/from`,
  `metadata/src/lib.rs`, `codegen/src/api`): indexes that agree with linear search, and
  renaming loops that end and never produce the same name twice.

Code that the repository writes with mutable state or loops is a method or a class here, and
is proved against a function; the lemmas are about those functions. Purely computed things are
functions. `twox_256` is a parameter everywhere: no property depends on a particular digest,
and the counterexample in `CyclicOrder` supplies its own.

Some names: a registry is *closed* when every id in it resolves; `Visit` hashes one type from
a given cache; a *ticket* follows one message to the background task, a *track* one activated
subscription; `WellBehaved` is what is assumed of the type-directed skipper of event fields.

Where the code does less than one may expect, with the condition under which it does meet the
property:

- Reordering fields or variants changes no hash when every cycle that two different types the
  definition refers to share is entered, from outside it, at one type only, not counting paths
  through the definition itself (`FieldOrder.TypeHashReorderedOnce`). This covers acyclic types,
  cycles that only one field reaches, and several fields that are, or wrap, one recursive type.
  More generally the shared cycles may lie behind *gates*, types that every way to them passes
  (`FieldOrder.TypeHashReordered`, `CycleGates.EnteredOnceIsGated`). Without gates anything can
  happen: `CyclicOrder` has one registry without gates in which, for every digest, the order is
  irrelevant if the two fields have one name, and otherwise exactly when one equation between two
  digests holds; an artificial digest violates it. Nothing is shown for `twox_256` itself.
- The task and the ledger agree all along a run exactly when no message gets an id that a waiting
  message of its own kind has, and no response carries an id that two messages wait for
  (`LightClientReplies.AgreesThroughoutExactlyWhen`). The first message of that sort drops a
  waiting sender; the first response of that sort leaves a subscription without an outcome
  (`ReusedIdDrops`, `SharedIdStrands`). Runs with at most 2^64 issued ids (the width of `usize`)
  meet the condition, and a longer one need not (`FewIdsAreClear`, `OneIdTooMany`).
- Code generated from stripped version 15 metadata accepts the original
  (`Stripping.StrippedCodeAcceptsOriginal`). While the digest does not collide, code from version 14
  does so exactly when the outer enums found or generated after stripping have the hash of the
  original ones (`StrippedVersions.Strip14ExactlyWhen`), and code from version 16 exactly when the
  System pallet was kept, is missing, or hashes like an empty one (`Strip16ExactlyWhen`): a System
  pallet that is stripped is emptied but still listed, so that the check compares it.
- What a diff reports under a key is the difference of the last items with that key exactly
  when no item of the second side with an equal hash was followed by another one with the key.
  Otherwise the last item is reported as added, whether it is unchanged or has changed
  (`Diffing.OutcomeExactlyWhen`, `Diffing.RepeatedKeyIsReported`).
- While the digest does not collide, view functions hash alike exactly when one's query id is
  what hashing the other has come to after some parameters and the rest is the same
  (`MetadataBinding.ViewFunctionBinds`). Storage entries hash alike exactly when the start of one
  has the digest that hashing the other has come to after some keys and the rest is the same, which
  with different numbers of keys takes a name of 96 bytes (`MetadataBinding.StorageEntryBinds`).
- A call found by name is found again by the indexes it reports exactly when no later pallet
  or call takes the same index, whether or not names repeat
  (`MetadataIndex.SameCallExactlyWhen`).
- A parameter called `_1st` or `_0` gets a name that starts with a digit, which is no
  identifier (`UniqueNames.NameStartsWithDigitExactlyWhen`).

Where the repository's comments and code differ, the code is followed: the comment on
`get_type_hash` speaks of an `outer_enum_hashes` argument that does not exist, the one on
`get_custom_value_hash` of bytes that are not hashed, and the comment on parameter names numbers
them from one, while the code numbers them from zero.

## Model

| member | source | states |
|---|---|---|
| Hashes.ComputeXor | metadata/src/utils/validation.rs:40-46 | the array-filling loop computes the byte-wise XOR |
| Hashes.ComputeConcatHash | metadata/src/utils/validation.rs:54-72 | filling one buffer part by part and hashing it is the digest of the concatenation, for every arity |
| Hashes.XorFoldByKeys | metadata/src/utils/validation.rs:98-102 | folds agree when the keys are the same up to order and equal keys carry equal hashes |
| Hashes.FlattenInjective | metadata/src/utils/validation.rs:54-67 | concatenations of equally many hashes determine the parts |
| TypeHasher.GetTypeHash | metadata/src/utils/validation.rs:217-219 | terminates on every closed registry, cyclic ones included, and returns the type hash |
| TypeHasher.GetTypeHashRecurse | metadata/src/utils/validation.rs:222-250 | the procedure on the shared mutable cache returns and leaves exactly what `Visit` says, hashing one definition per added key and taking the `Recursive` placeholder as often as `PlaceholderReads` counts |
| TypeHasher.GetTypeDefHash | metadata/src/utils/validation.rs:131-189 | all eight kinds of definition: the hash is a pure combination of the children's hashes, which are visited in order through the cache |
| TypeHasher.FoldFieldHashes | metadata/src/utils/validation.rs:139-147 | the field loop is the XOR fold over the field hashes, the cache being passed from field to field |
| TypeHasher.GetFieldHash | metadata/src/utils/validation.rs:75-89 | a field's hash from its name and the visit of its type |
| TypeHasher.GetVariantHash | metadata/src/utils/validation.rs:92-105 | a variant's hash from its name and the visits of its fields |
| TypeHasher.GetTypeDefVariantHash | metadata/src/utils/validation.rs:107-128 | the nested loops over variants and fields are one visit of all field types in order |
| TypeHasher.FoldTupleHashes | metadata/src/utils/validation.rs:168-174 | the tuple loop chains the hashes in order |
| Reachability.VisitCachesReachable | metadata/src/utils/validation.rs:222-250 | from any cache, the added keys are exactly the ids reachable by paths that avoid the old keys; they are finished, and no old entry changes |
| Reachability.TypeHashCachesReachable | metadata/src/utils/validation.rs:217-250 | from an empty cache: one finished entry for each reachable id and nothing else |
| Renumbering.VisitRenumbered | metadata/src/utils/validation.rs:222-250 | simulation: caches that correspond under an injection of ids stay so, with equal hashes, even on cycles |
| Renumbering.TypeHashRenumbered | metadata/src/utils/validation.rs:217-250 | the type hash does not depend on the numbering of types, nor on paths, docs, variant indexes or unrelated types |
| Renumbering.AppendingKeepsHashes | metadata/src/from/v14.rs:234-241 | pushing types onto a registry changes no hash of an existing type |
| Structure.AcyclicIffUnfolds | metadata/src/utils/validation.rs:227-243 | no path from a type that avoids given types repeats an id if and only if its unfolding, stopped at those, ends within as many levels as there are types |
| Structure.VisitIsStructural | metadata/src/utils/validation.rs:200-250 | on types that reach no cycle past given cache entries, memoised hashing is the cache-free recursive hash, from every cache that is correct beyond those, and keeps it so |
| Structure.NoPlaceholderRead | metadata/src/utils/validation.rs:200-233 | and it never takes the `Recursive` placeholder on the way, if the given entries are finished |
| Shapes.StructuralHashByShape | metadata/src/utils/validation.rs:75-189 | the structural hash is a function of the shape, in which fields and variants are multisets |
| Shapes.TypeHashByShape | metadata/src/utils/validation.rs:75-250 | acyclic types of the same shape have the same hash, whatever their ids, the order of fields and variants at any depth, and the sharing of entries |
| Shapes.TypeHashReadsNoPlaceholder | metadata/src/utils/validation.rs:200-233 | hashing an acyclic type from an empty cache never takes the placeholder |
| ChildOrder.VisitAlike | metadata/src/utils/validation.rs:222-250 | caches that agree on the cyclic types reached, and are correct elsewhere, give the same hash and stay so |
| ChildOrder.AnyOrder | metadata/src/utils/validation.rs:139-147 | children that share only acyclic types: each gets the hash it gets alone, and the same cache is left, in any order |
| CycleGates.EnteredOnceIsGated | metadata/src/utils/validation.rs:222-250 | when every cycle that two children share is entered at one type, those entry types are gates, in an order in which each shuts off all cycles behind it |
| GatedOrder.VisitGateFirst | metadata/src/utils/validation.rs:227-249 | visiting a gate before the children changes none of their hashes, and for types with a cycle ahead they leave no entry that they would not leave after it |
| GatedOrder.AnyOrderGated | metadata/src/utils/validation.rs:139-147 | children whose shared cycles lie behind gates: in any order each gets the same hash, and the same cache is left |
| FieldOrder.VisitReordered | metadata/src/utils/validation.rs:222-250 | reordering the fields and variants of a definition with gates leaves the hash of every type and the cache after it unchanged, from every cache, cycles or not |
| FieldOrder.TypeHashReordered | metadata/src/utils/validation.rs:98-149 | hence no type hash of the registry changes |
| FieldOrder.TypeHashReorderedOnce | metadata/src/utils/validation.rs:98-149 | in particular when every cycle that two different children share is entered, from outside it, at one type only |
| CyclicOrder.OrderIrrelevantExactlyWhen | metadata/src/utils/validation.rs:136-149 | for a concrete cyclic registry, any two field names and every digest, swapping two fields keeps the hash exactly when two given inputs have the same digest |
| CyclicOrder.FieldOrderMattersOnCycles | metadata/src/utils/validation.rs:136-149 | an artificial digest for which they do not |
| CyclicOrder.ExampleHasNoGates | metadata/src/utils/validation.rs:227-243 | the two fields of that registry share a cycle that no gates shut off |
| CyclicOrder.EqualNamesInAnyOrder | metadata/src/utils/validation.rs:136-149 | gates are not necessary: there, fields of one name may be swapped for every digest |
| CyclicOrder.WrappersInAnyOrder | metadata/src/utils/validation.rs:136-149 | two fields that wrap one self-referring type share its cycle, and for every digest their order does not matter |
| HashBinding.CombineBinds | metadata/src/utils/validation.rs:131-189 | while the digest does not collide on the two inputs, equal hashes come from the same kind of definition, the same array length or primitive, and equal element hashes, or from a tuple whose fields but the last hash to exactly another kind's tag |
| HashBinding.TupleBinds | metadata/src/utils/validation.rs:168-174 | likewise for tuples: number, order and hashes of all fields |
| HashBinding.ChainBinds | metadata/src/utils/validation.rs:276-283 | equal chained hashes have equal starts and equal links, of which there are equally many |
| TypeBinding.FieldBinds | metadata/src/utils/validation.rs:75-89 | while the digest does not collide on the bytes fed to it, a field's hash tells its name and the hash of its type; a field without a name passes for a named one only if that name hashes to zeros |
| TypeBinding.VariantBinds | metadata/src/utils/validation.rs:92-105 | a variant's hash tells its name and the fold over its fields |
| TypeBinding.CompositeOneChanged | metadata/src/utils/validation.rs:136-149 | a composite in which one field is changed keeps its hash exactly when that field keeps its name and the hash of its type |
| TypeBinding.VariantsOneChanged | metadata/src/utils/validation.rs:107-128 | an enum in which one variant is changed keeps its hash exactly when that variant keeps its name and the fold over its fields |
| TypeBinding.VariantFieldChanged | metadata/src/utils/validation.rs:92-128 | and, when one field of one variant is changed, exactly when that field keeps its name and the hash of its type |
| TypeBinding.UnnamedLayout | metadata/src/utils/validation.rs:151-189 | for the kinds without names, what is fed to the digest in bytes: tag, length or position of the primitive, and the hashes referred to, in order |
| TypeBinding.ArrayTagLayout | metadata/src/utils/validation.rs:155-161 | an array's tag holds its length in big-endian order |
| TypeBinding.RenamedVariantIsSeen | metadata/src/utils/validation.rs:107-250 | in every registry, cyclic or not, renaming a variant changes the type hash of the enum |
| TypeBinding.RenamedFieldIsSeen | metadata/src/utils/validation.rs:136-250 | and renaming a field that of the composite |
| MetadataHashing.GetStorageEntryHash | metadata/src/utils/validation.rs:289-305 | the loop over the keys chains hasher and type hash of each key onto name, value type and default |
| MetadataHashing.HashParams | metadata/src/utils/validation.rs:370-376 | the parameter loop of runtime APIs and view functions |
| MetadataHashing.GetRuntimeApiHash | metadata/src/utils/validation.rs:358-381 | the method hash, from loops over freshly hashed types |
| MetadataHashing.GetViewFunctionHash | metadata/src/utils/validation.rs:399-418 | the view function hash, from loops over freshly hashed types |
| MetadataHashing.GetExtrinsicHash | metadata/src/utils/validation.rs:253-286 | the extrinsic hash, from the loop over the transaction extensions |
| MetadataBinding.StorageEntryBinds | metadata/src/utils/validation.rs:289-305 | while the digest does not collide, entries hash alike exactly when one continues the other; with equally many keys they have the same name, value type, default bytes, and hasher and type of each key, and with fewer keys than the other an entry has a name of exactly 96 bytes |
| MetadataBinding.MethodBinds | metadata/src/utils/validation.rs:358-381 | the same for methods: trait and method name, every parameter in order, output |
| MetadataBinding.ViewFunctionBinds | metadata/src/utils/validation.rs:399-418 | while the digest does not collide, view functions hash alike exactly when one continues the other; with equally many parameters they have the same query id, parameters and output |
| MetadataBinding.ParameterForQueryId | metadata/src/utils/validation.rs:402-413 | for every digest, a parameter can be traded for another query id |
| MetadataBinding.ExtrinsicBinds | metadata/src/utils/validation.rs:253-286 | the same for the extrinsic: address, signature, padded versions, every extension in order |
| MetadataBinding.PalletBinds | metadata/src/utils/validation.rs:436-486 | equal pallet hashes have six equal parts |
| MetadataBinding.StorageBinds | metadata/src/utils/validation.rs:460-472 | equal storage hashes have equal prefixes and equal folds over the entries |
| ChangedItems.ConstantBinds | metadata/src/utils/validation.rs:451-459 | a constant's hash tells its name and the hash of its type |
| ChangedItems.CustomBinds | metadata/src/utils/validation.rs:307-329 | a custom value's hash tells its name, whether its type is registered, and the hash of that type |
| ChangedItems.EntriesBind | metadata/src/utils/validation.rs:289-305 | among storage entries with as many keys the hash tells name, value type, default, and hasher and type of each key |
| ChangedItems.MethodChanged | metadata/src/utils/validation.rs:384-396 | a runtime API of which one method is changed keeps its hash exactly when that method keeps its name, its parameters in order and its output type |
| ChangedItems.ConstantChanged | metadata/src/utils/validation.rs:451-459 | a pallet of which one constant is changed keeps its hash exactly when the constant keeps its name and type hash |
| ChangedItems.EntryChanged | metadata/src/utils/validation.rs:460-473 | the same for a storage entry, up to one entry continuing the other |
| ChangedItems.ViewFunctionChanged | metadata/src/utils/validation.rs:422-433 | the same for a view function, up to one continuing the other |
| ChangedItems.PalletTypesChanged | metadata/src/utils/validation.rs:436-450 | the same for the call, event and error types, where no type is 32 zeros |
| ChangedItems.PrefixChanged | metadata/src/utils/validation.rs:460-462 | the same for the storage prefix |
| MetadataHashing.MetadataHasher.constructor | metadata/src/utils/validation.rs:499-506 | a new hasher lets everything through |
| MetadataHashing.MetadataHasher.OnlyThesePallets | metadata/src/utils/validation.rs:509-512 | replaces the pallet filter and no other |
| MetadataHashing.MetadataHasher.OnlyTheseRuntimeApis | metadata/src/utils/validation.rs:515-522 | replaces the runtime API filter and no other |
| MetadataHashing.MetadataHasher.IgnoreCustomValues | metadata/src/utils/validation.rs:525-528 | switches custom values off and nothing else |
| MetadataHashing.FoldKeptIsFoldOfFiltered | metadata/src/utils/validation.rs:534-548 | skipping items while folding is folding the filtered list |
| MetadataHashing.FilteredHashIsTrimmedHash | metadata/src/utils/validation.rs:531-589 | hashing through filters is hashing, without filters, the metadata from which the skipped parts were removed |
| MetadataInvariance.EntryByView | metadata/src/utils/validation.rs:289-305 | a storage entry's hash depends on the keys of its types only, for any keying that decides type hashes |
| MetadataInvariance.PalletByView | metadata/src/utils/validation.rs:436-486 | a pallet's hash ignores the order of constants, storage entries and view functions |
| MetadataInvariance.ApiByView | metadata/src/utils/validation.rs:384-396 | a runtime API's hash ignores the order of its methods |
| MetadataInvariance.ExtrinsicByView | metadata/src/utils/validation.rs:253-286 | the extrinsic hash depends on the keys of its types only |
| MetadataInvariance.CustomByView | metadata/src/utils/validation.rs:307-329 | the custom value hash ignores order and tells registered type ids from others |
| MetadataInvariance.MetadataHashByView | metadata/src/utils/validation.rs:531-589 | metadata that agrees up to the order of its unordered parts, under any keying of types that decides their hashes, has the same hash |
| MetadataInvariance.MetadataHashRenumbered | metadata/src/utils/validation.rs:531-589 | through any filters, the hash is unchanged by renumbering the types of what passes, cyclic ones included, together with reordering; paths, docs, and skipped parts with their types are free |
| MetadataInvariance.MetadataHashByShape | metadata/src/utils/validation.rs:531-589 | fields and variants of acyclic types may be reordered at any depth as well, next to cyclic types that correspond by number |
| MetadataInvariance.MetadataHashReordered | metadata/src/utils/validation.rs:531-589 | and the fields and variants of a cyclic type whose children share only cycles behind gates |
| Stripping.StrippedHash | utils/strip-metadata/src/lib.rs:51-67 | version 15 metadata stripped of pallets and runtime APIs by name and of unused types, with its ids renumbered, hashes to what the original hashes to through the kept names |
| Stripping.StrippedCodeAcceptsOriginal | utils/strip-metadata/src/lib.rs:51-67 | code generated from stripped version 15 metadata accepts the original, even if names repeat |
| Stripping.RetainingAllKeepsAll | utils/strip-metadata/src/lib.rs:113-132 | nothing but type ids is touched: if none changes, nothing does |
| StrippedVersions.Strip14ExactlyWhen | metadata/src/from/v14.rs:161-196 | version 14 metadata keeps its hash under stripping, and its code accepts the original, exactly when the outer enums that the conversion finds or generates afterwards have the hash of the original ones, or the digest collides on the two concatenations |
| StrippedVersions.Strip16ExactlyWhen | utils/strip-metadata/src/lib.rs:70-110 | code generated from stripped version 16 metadata accepts the original exactly when the System pallet was kept, is missing, or hashes like an empty pallet, or the digest collides on the two concatenations |
| StrippedVersions.Strip16Names | utils/strip-metadata/src/lib.rs:79-83 | the pallets left are those with kept names and System |
| StrippedVersions.EmptiedIsZeros | utils/strip-metadata/src/lib.rs:86-107 | an emptied pallet hashes 192 zeros |
| Codegen.IsCodegenValidFor | codegen/src/api/mod.rs:352-359 | the generated check, with its chained setters, compares the hash filtered by the listed names |
| Codegen.FoldOfListed | metadata/src/utils/validation.rs:534-566 | items under new names do not disturb the fold over the listed names |
| Codegen.AcceptsItsOrigin | codegen/src/api/mod.rs:147-159 | generated code accepts the metadata it was generated from, even if names repeat |
| Codegen.AcceptsExtensions | codegen/src/api/mod.rs:352-359 | it accepts metadata with any further pallets and runtime APIs under new names that keeps the listed hashes, outer enums, extrinsic and custom values |
| Codegen.ValidIffComponentsMatch | codegen/src/api/mod.rs:244-359 | exactly when code is valid: the five component hashes of the listed parts are unchanged, or the digest collides on the two concatenations |
| CodeChanges.SameNamesAccepted | codegen/src/api/mod.rs:352-362 | while the digest does not collide, code accepts metadata with the same names exactly when pallet, runtime API and custom folds, outer enums and extrinsic hash agree |
| CodeChanges.MethodDiffers | codegen/src/api/mod.rs:352-362 | code accepts metadata in which one runtime API method is changed exactly when its name, parameters and output type hash alike |
| CodeChanges.ConstantDiffers | codegen/src/api/mod.rs:352-362 | the same for one constant: name and type |
| CodeChanges.EntryDiffers | codegen/src/api/mod.rs:352-362 | the same for one storage entry |
| CodeChanges.ViewFunctionDiffers | codegen/src/api/mod.rs:352-362 | the same for one view function |
| CodeChanges.CustomValueDiffers | codegen/src/api/mod.rs:352-362 | the same for one custom value: name, registration and type |
| CodeChanges.OuterEnumsDiffer | codegen/src/api/mod.rs:352-362 | the same for the outer enums: all three types |
| CodeChanges.ExtrinsicDiffers | codegen/src/api/mod.rs:352-362 | the same for the extrinsic: address, signature, versions up to trailing zeros, and every extension in order |
| CodeChanges.CustomValuesIgnored | metadata/src/utils/validation.rs:576-580 | once custom values are ignored the hash does not depend on them |
| LightClient.FromStr | lightclient/src/rpc.rs:42-132 | of the four formats, tried in order, the one that fits, with what each reads given member by member; an object without an id can only be a notification |
| LightClient.ParsedExactlyWhen | lightclient/src/rpc.rs:95-130 | exactly which objects are read as which response |
| RpcIds.EchoedIdParses | lightclient/src/background.rs:376-380 | a response that echoes the id of a request (section 5 of JSON-RPC 2.0) is read back as that id |
| RpcIds.ParsesExactlyWhen | lightclient/src/background.rs:376-378 | exactly the digit strings, with or without a plus sign, of numbers below the modulus are ids |
| RpcIds.DecimalIsShortest | lightclient/src/background.rs:276-279 | an id is rendered in decimal without leading zeros |
| LightClient.BackgroundTaskData.constructor | lightclient/src/background.rs:129-136 | the task starts with empty maps and id zero |
| LightClient.BackgroundTaskData.NextRequestId | lightclient/src/background.rs:260-263 | the counter is incremented modulo the width of `usize`, and returned |
| LightClient.BackgroundTaskData.HandleRequests | lightclient/src/background.rs:266-368 | the whole state and output after a message, accepted or rejected by smoldot |
| LightClient.BackgroundTaskData.HandleRpcResponse | lightclient/src/background.rs:371-503 | the whole state and output after any response, including unreadable ids, untracked ids, subscription ids that are no strings, and dropped receivers |
| LightClient.BackgroundTaskData.UnsubscribeFrom | lightclient/src/background.rs:506-528 | removes the subscription and sends one unsubscribe request under a new id |
| LightClient.BackgroundTaskData.Turn | lightclient/src/background.rs:158-188 | one turn of the loop is one step of the transition function |
| LightClient.RunTask | lightclient/src/background.rs:147-192 | the loop computes the run over all its events |
| LightClientReplies.TaskAgreesWithLedger | lightclient/src/background.rs:266-458 | over every run in which no message got an id that a waiting one of its kind had and no response carried an id that two waited for, each reply channel was used exactly as its ticket says and is held under its id just while the ticket waits |
| LightClientReplies.FewIdsAreClear | lightclient/src/background.rs:260-263 | every run with at most as many issued ids as there are is such a run |
| LightClientReplies.AgreesExactlyWhen | lightclient/src/background.rs:266-458 | a turn keeps the task in agreement with the ledger exactly when it is neither a message under the id of a waiting one of its kind nor a response under an id that two wait for |
| LightClientReplies.AgreesThroughoutExactlyWhen | lightclient/src/background.rs:147-192 | the same over whole runs |
| LightClientReplies.ReusedIdDrops | lightclient/src/background.rs:284-338 | a message under the id of a waiting one of its kind drops that one's sender while its ticket waits |
| LightClientReplies.SharedIdStrands | lightclient/src/background.rs:383-390 | of a request and a subscription that wait under one id, the next response settles the request alone |
| LightClientReplies.ChannelInOnePlace | lightclient/src/background.rs:207-217 | a reply channel is in exactly one place: one of the two maps under one id, answered once, or dropped once |
| LightClientReplies.ShutdownDropsTheRest | lightclient/src/background.rs:152-192 | the channels dropped with the maps are exactly those without an outcome |
| LightClientReplies.FateByFirstCarrier | lightclient/src/background.rs:376-458 | a ticket waits until the first later response that carries its id, and that response alone decides its fate; a rejected message is settled at once |
| LightClientReplies.DroppedOnlyForNonString | lightclient/src/background.rs:390-397 | while the task runs, a channel is dropped only when the first later response to its subscription request is no JSON string |
| LightClientReplies.EchoSettles | lightclient/src/background.rs:376-424 | a response that echoes the id of a waiting message settles that message exactly when the message is a request or waits alone under the id |
| LightClientReplies.CallReturns | lightclient/src/background.rs:67-104 | what `request` and `subscribe` return to their caller, in terms of the first response with the id, smoldot's refusal, or the end of the task |
| LightClientReplies.OneIdTooMany | lightclient/src/background.rs:260-263 | the bound on issued ids cannot be raised: one more id and a caller can be dropped although no response carried its id |
| LightClientObjects.NotificationArrives | lightclient/src/background.rs:459-478 | an object with a result under a subscription id gives exactly that result to the receiver of the active subscription, or drops the subscription and unsubscribes if the receiver is gone, or does nothing without one |
| LightClientObjects.ErrorNotificationArrives | lightclient/src/background.rs:479-500 | the same for an error |
| LightClientObjects.ResultArrives | lightclient/src/background.rs:376-430 | an object with a result under the id of a message that waits alone: what its caller is told |
| LightClientObjects.ErrorArrives | lightclient/src/background.rs:431-458 | the same for an error |
| LightClientObjects.MessageIsSubmitted | lightclient/src/background.rs:266-345 | a message is submitted under the next id with its method and parameters, or its caller is told of smoldot's refusal |
| LightClientSubscriptions.TaskMatchesJournal | lightclient/src/background.rs:390-503 | over every run without such an ambiguous turn, each activation is followed by exactly the items of its track, in order and tagged, then by an unsubscribe request if its receiver was found gone; the subscription map holds exactly the open tracks |
| LightClientSubscriptions.TrackSpans | lightclient/src/background.rs:416-498 | a track holds everything received for its id from its activation up to the first notification that finds the receiver gone or the next activation of the id |
| LightClientSubscriptions.AtMostOneUnsubscribe | lightclient/src/background.rs:471-477 | an activation causes at most one unsubscribe request, and nothing after it |
| LightClientSubscriptions.UnsubscribeResponseIsIgnored | lightclient/src/background.rs:506-528 | the response to an unsubscribe request changes nothing exactly when no message waits for its id |
| LightClientSubscriptions.UnsubscribeIdIsItsOwn | lightclient/src/background.rs:506-528 | with at most as many issued ids as there are, that id was never given to a message |
| Scale.CompactRoundTrip | subxt/src/events.rs:46 | compact decoding undoes encoding, whatever follows |
| Scale.CompactCanonical | subxt/src/events.rs:46 | only canonical compact encodings decode |
| Scale.CompactForms | subxt/src/events.rs:46 | the four forms of a compact number, in little-endian order |
| Scale.VecRoundTrip | subxt/src/events.rs:271-273 | decoding a vector of topics undoes encoding, whatever follows |
| Scale.VecCanonical | subxt/src/events.rs:271-273 | whatever decodes as topics is the encoding of those topics |
| Events.ComputeDecodeFrom | subxt/src/events.rs:214-292 | the cursor form of event decoding, with its loop over fields and all its errors, computes the specified result |
| Events.RecordDecodes | subxt/src/events.rs:214-292 | at the start of an encoded record decoding yields that record's event, with the right five offsets, whatever follows |
| Events.DecodedIsRecord | subxt/src/events.rs:214-292 | whatever decodes is the encoding of a well-formed record |
| Events.DecodesIffEncoded | subxt/src/events.rs:214-292 | decoding succeeds if and only if an encoded well-formed record starts at that place |
| Events.FailsExactlyWhen | subxt/src/events.rs:214-292 | each error is reported exactly when the bytes fit an encoded record up to its point and no further |
| Events.EventIsConsistent | subxt/src/events.rs:300-340 | the offsets of a decoded event are ordered and in bounds, the index bytes are where the accessors read them, and the repeated lookups of `event_metadata` succeed |
| Events.EventIter.constructor | subxt/src/events.rs:119-126 | a new iterator has all events of the bytes ahead of it |
| Events.EventIter.Next | subxt/src/events.rs:127-149 | yields the remaining items one by one; after an error, or at the end, only `None` |
| Events.EventsTile | subxt/src/events.rs:119-150 | on arbitrary bytes the events tile a contiguous prefix, carry consecutive indexes below the announced count, and only the last item can be an error |
| Events.AllEventsTile | subxt/src/events.rs:38-58 | from the start: no events if the count is unreadable, and otherwise at most as many items as it says, tiling the bytes behind it |
| Events.EventsRoundTrip | subxt/src/events.rs:38-58 | iterating over the encoding of any list of well-formed records yields exactly their events in order, whatever trails |
| Diffing.EntryAt | cli/src/commands/diff.rs:392-424 | for all inputs, an entry is never the pair that panics, and holds the last items with its key, whose hashes differ if both are there |
| Diffing.Merge | cli/src/commands/diff.rs:392-413 | the two loops leave under each key what the items with that key alone decide |
| Diffing.IntoPairs | cli/src/commands/diff.rs:416 | the entries in whatever order the map yields them |
| Diffing.SortByKeySorts | cli/src/commands/diff.rs:417 | sorting yields the same pairs in strictly increasing order of keys |
| Diffing.Diff | cli/src/commands/diff.rs:385-427 | the result is sorted strictly by key and holds one difference for each key whose entry is left; the panic is not reached |
| Diffing.DiffIsUnique | cli/src/commands/diff.rs:415-427 | the result does not depend on the order of the hash map |
| Diffing.DiffOfDistinct | cli/src/commands/diff.rs:385-427 | with distinct keys: Removed is what only `a` has, Added what only `b` has, Changed what both have with different hashes, and nothing else |
| Diffing.ChangedItems | cli/src/commands/diff.rs:400-413 | even with repeated keys a change is between the last items with the key, and their hashes differ |
| Diffing.OutcomeExactlyWhen | cli/src/commands/diff.rs:400-413 | for all inputs, the outcome under a key is the difference of the last items with it exactly when the item of `a` was not matched before the last item of `b`; otherwise that item is reported as added |
| Diffing.RepeatedKeyIsReported | cli/src/commands/diff.rs:400-413 | in particular an item repeated on the second side, or a real change after a match, is reported as added |
| Diffing.EmptyDiff | cli/src/commands/diff.rs:385-427 | with distinct keys nothing is reported if and only if the keys are the same and the hashes equal |
| Diffing.DiffMirrors | cli/src/commands/diff.rs:385-427 | swapping the sides mirrors the result, in the same order |
| Diffing.PatchGivesNew | cli/src/commands/diff.rs:378-427 | patching `a` by the diff gives `b` up to equal hashes, without repeated keys |
| MetadataDiff.NamesOrdered | cli/src/commands/diff.rs:417 | names compare by their bytes, which is a total order |
| MetadataDiff.NameLessIsByteOrder | cli/src/commands/diff.rs:417 | a proper prefix is less, and otherwise the first byte that differs decides |
| MetadataDiff.Construct | cli/src/commands/diff.rs:177-184 | both lists of a metadata diff are diffs by name and hash |
| MetadataDiff.MetadataDiffReports | cli/src/commands/diff.rs:177-184 | with distinct names, pallets and runtime APIs are removed or added by name, and changed exactly when their hashes differ |
| MetadataDiff.StorageDiffReports | cli/src/commands/diff.rs:283-308 | the same for the storage entries of two pallets |
| MetadataDiff.EmptyDiffHashesAgree | cli/src/commands/diff.rs:186-188 | an empty diff means equal pallet and runtime API parts of the metadata hash, under any filters |
| MetadataDiff.EmptyDiffSameHash | metadata/src/utils/validation.rs:531-589 | with an empty diff and equal outer enums, extrinsic and custom values the metadata hashes are equal |
| MetadataDiff.StorageEntryDiff.ToStrings | cli/src/commands/diff.rs:256-268 | the list of reasons: key type, value type, default value, each if and only if its flag is set |
| MetadataDiff.ReasonsAreExact | cli/src/commands/diff.rs:220-268 | of any two entries each reason is given exactly when its part differs, once and in order |
| MetadataDiff.ValueAloneChanged | cli/src/commands/diff.rs:220-268 | if the value type alone is replaced, it is the one reason, when its hash differs |
| MetadataDiff.DefaultAloneChanged | cli/src/commands/diff.rs:220-268 | the same for the default value |
| MetadataDiff.KeyAloneChanged | cli/src/commands/diff.rs:220-268 | the same for one key |
| MetadataDiff.NoReasonSameHash | cli/src/commands/diff.rs:220-254 | when no flag is set the chained hashes of the two entries are equal |
| MetadataDiff.ChangedEntryHasReason | cli/src/commands/diff.rs:283-308 | every storage entry reported as changed has a reason, even when names repeat |
| MetadataDiff.SameHashNoReason | cli/src/commands/diff.rs:220-254 | conversely, while the digest does not collide, entries with equal hashes and equally many keys leave no reason but an absent against an empty default; otherwise the keys differ and the entry with fewer has a name of exactly 96 bytes |
| OrderedMaps.OrderedMap.constructor | metadata/src/utils/ordered_map.rs:33-35 | a new map is empty |
| OrderedMaps.OrderedMap.PushInsert | metadata/src/utils/ordered_map.rs:48-52 | appends, and the positions stay those of the last items with their keys |
| OrderedMaps.OrderedMap.GetByKey | metadata/src/utils/ordered_map.rs:55-61 | finds what linear search from the end finds |
| OrderedMaps.OrderedMap.FromIter | metadata/src/utils/ordered_map.rs:73-81 | holds the pairs of the iterator in order |
| VariantIndexes.Build | metadata/src/utils/variant_index.rs:24-37 | both maps hold the positions of the last variants with their name or index, and nothing for other types |
| VariantIndexes.LookupsAreLastMatch | metadata/src/utils/variant_index.rs:60-85 | lookups by name and by index are linear search from the end; stored positions are in range |
| MetadataIndex.PalletIndex.constructor | metadata/src/from/v16.rs:25-107 | the pallet-building loop keeps the ordered map, the positions by index and the list in step |
| MetadataIndex.PalletPositions | metadata/src/lib.rs:552-598 | pallets are found by name and by each index as by linear search from the end |
| MetadataIndex.NameLookupIsSearch | metadata/src/lib.rs:137-170 | call information by name, errors included, is what searching pallets and variants gives |
| MetadataIndex.IndexLookupIsSearch | metadata/src/lib.rs:102-135 | call information by index, errors included, is what searching pallets and variants gives |
| MetadataIndex.FoundByName | metadata/src/lib.rs:137-170 | the result describes the last call with the name in the last pallet with the name: indexes, names, and each field's name and type in order |
| MetadataIndex.FoundByIndex | metadata/src/lib.rs:102-135 | the same by index |
| MetadataIndex.PalletMissingByName | metadata/src/lib.rs:142-146 | without such a pallet the error names it |
| MetadataIndex.CallMissingByName | metadata/src/lib.rs:148-154 | without such a call the error names it and the pallet found |
| MetadataIndex.PalletMissingByIndex | metadata/src/lib.rs:107-111 | the same by index, for the pallet |
| MetadataIndex.CallMissingByIndex | metadata/src/lib.rs:113-119 | and for the call |
| MetadataIndex.NameThenIndex | metadata/src/lib.rs:102-170 | with distinct indexes, what is found by name is found identically under the indexes it reports |
| MetadataIndex.IndexThenName | metadata/src/lib.rs:102-170 | with distinct names, what is found by index is found identically under the names it reports |
| MetadataIndex.SameCallExactlyWhen | metadata/src/lib.rs:102-170 | for every call found by name, names repeated or not, the round trip through its indexes works if and only if no later pallet and no later call takes the same index |
| MetadataIndex.SameNamesExactlyWhen | metadata/src/lib.rs:102-170 | and the round trip from indexes through the names if and only if no later pallet and no later call has the same name |
| OuterErrorEnum.Metadata14.GenerateOuterErrorEnumType | metadata/src/from/v14.rs:199-242 | pushes one enum type, returns its id, and leaves the registry closed |
| OuterErrorEnum.ErrorVariantsAreThePallets | metadata/src/from/v14.rs:203-223 | the variants are those of the pallets with an error type, by name, index and type |
| OuterErrorEnum.ErrorVariantsInOrder | metadata/src/from/v14.rs:203-223 | one variant for each pallet with an error type, in the order of the pallets |
| OuterErrorEnum.ErrorEnumKeepsHashes | metadata/src/from/v14.rs:225-241 | adding the enum changes no hash of an existing type |
| UniqueNames.InsertUnique | codegen/src/api/runtime_apis.rs:106-108 | the renaming loop ends, by the number of taken names at least as long as the candidate |
| UniqueNames.RenameCount | codegen/src/api/runtime_apis.rs:106-108 | the result is the base with the least number of suffixes that makes it free, at most one per taken name |
| UniqueNames.StrippedExactly | codegen/src/api/runtime_apis.rs:98-101 | trimming takes off all underscores in front and nothing else |
| UniqueNames.AliasOf | codegen/src/api/runtime_apis.rs:112-119 | the alias of one name, prefixed when casing leaves a digit in front |
| UniqueNames.GenerateInputs | codegen/src/api/runtime_apis.rs:91-134 | the loop over all inputs computes the specified names and aliases |
| UniqueNames.NamesDistinct | codegen/src/api/runtime_apis.rs:98-108 | no two parameters share a name |
| UniqueNames.AliasesDistinct | codegen/src/api/runtime_apis.rs:112-119 | no two parameters share an alias |
| UniqueNames.NameRenames | codegen/src/api/runtime_apis.rs:102-108 | name `idx` is the input without leading underscores, or `_idx` if nothing is left, renamed at most `idx` times with the suffix `_param` and the index, and no more often than needed |
| UniqueNames.AliasRenames | codegen/src/api/pallet_view_functions.rs:96-103 | alias `idx` is the cased name, behind `Param` if that starts with a digit, renamed likewise with `Param` and the index; in both generators |
| UniqueNames.AliasStartsNoDigit | codegen/src/api/runtime_apis.rs:112-119 | no alias starts with a digit |
| UniqueNames.NameStartsWithDigitExactlyWhen | codegen/src/api/runtime_apis.rs:102-108 | a name starts with a digit if and only if its input does after the underscores |
| UniqueNames.IdentifiersAreNameable | codegen/src/api/pallet_view_functions.rs:95-100 | inputs that are identifiers never make the access to the alias's first byte panic |

## Left out

- CyclicOrder.FieldOrderMattersOnCycles: the digest is an artificial one, since `twox_256` stays uninterpreted; for any given digest `CyclicOrder.OrderIrrelevantExactlyWhen` leaves two values to compare.
- FieldOrder.TypeHashReordered: the condition is sufficient, not necessary (`CyclicOrder.EqualNamesInAnyOrder`); which reorderings outside it keep the hash for every digest is not settled.
- HashBinding.CombineBinds: a tuple carries no tag, so that a tuple which passes for another kind is not excluded but described.
- LightClient.FromStr: starts from the members of the received object; objects written as positional arrays, which the deserializer also reads, and duplicate members are not modelled.
- CodeChanges.MethodDiffers: one item is changed at a time; what several changes do to one fold is not said, since equal hashes cancel out.
- `twox_256`: an arbitrary total function from bytes to 32 bytes.
- `get_type_def_variant_hash`'s filter on variants: every caller passes `None`.
- `get_constant_hash`, `get_call_hash` and the constant and call lists of a pallet diff: the generic diff applies to them unchanged.
- StorageHasher is represented by its discriminant; the value bytes of constants and custom values are not hashed by the source.
- The type-directed skipping of event fields: a function that stays within the input and depends only on the bytes it takes; decoding fields into values (`decode_as`, `find`) is not modelled.
- The start offset when the event count is unreadable: the source keeps whatever the failed decoder consumed, which is never used because the count is then zero.
- Field names inside event errors: the position of the field is reported instead.
- The text of a JSON-RPC request: the output records its id, method and parameters; a method name or subscription id with quotes in it is not escaped by the source.
- Messages still queued when the task ends: they were never handled, and their callers get `BackgroundTaskDropped`.
- Closing every node-side subscription: the source does not unsubscribe when the caller is gone before the activation.
- The library sort of the diff: an insertion sort stands in for it.
- UniqueNames.GenerateInputs: upper camel casing is an arbitrary function; that it leaves something of every name with a letter or digit is assumed where panics are excluded.
- The rest of the version 14, 15 and 16 conversions (storage, constants, view functions, runtime APIs, extrinsic), which copy fields; the version 14 and 15 pallet loops are the same loop.
- Aliasing between the cache and other objects: the cache is passed by reference and owned by one call of `get_type_hash`.
- `PortableRegistry::retain`, which is in another crate: that it keeps the used types with all they refer to, renumbered without clashes, is assumed (`Stripping.Retains`).
- StrippedVersions.Strip14ExactlyWhen: the look-up of the outer enums by path is a parameter, and that it can fail after stripping is not modelled.
- `decode_runtime_metadata`, token streams, transports, signers, transaction submission, the command line and printing.
