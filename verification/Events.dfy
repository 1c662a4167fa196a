/** Decoding the events of a block: a cursor over one byte buffer, five offsets per event, and
    an iterator that stops for good at the first error.

    How many bytes a field of a given type takes is decided outside (by the type-directed
    visitor that skips over it). */
module Events {
  import opened Integers
  import opened Options
  import opened Scale

  datatype Phase = ApplyExtrinsic(index: nat) | Finalization | Initialization

  datatype EventVariant = EventVariant(name: string, fields: seq<nat>)

  datatype EventPallet = EventPallet(name: string, variants: map<u8, EventVariant>)

  /** `None` is a decoding error; otherwise the number of bytes the value takes. */
  type Skipper = (nat, Input) -> Option<nat>

  /** What decoding consults: pallets by event index, the skipper, and the width of a hash. */
  datatype Context = Context(pallets: map<u8, EventPallet>, skip: Skipper, topicWidth: nat)

  datatype EventsError =
    | CannotDecodePhase
    | CannotDecodePalletIndex
    | CannotDecodeVariantIndex
    | CannotFindPalletWithIndex(index: u8)
    | CannotFindVariantWithIndex(palletName: string, variantIndex: u8)
    | CannotDecodeFieldInEvent(palletName: string, eventName: string, field: nat)
    | CannotDecodeEventTopics

  datatype Event = Event(
    palletName: string, eventName: string, phase: Phase, index: nat,
    startIdx: nat, eventStartIdx: nat, fieldsStartIdx: nat, fieldsEndIdx: nat, endIdx: nat, topics: seq<Input>)

  datatype Result = Good(event: Event) | Bad(error: EventsError)

  function DecodePhase(input: Input): Decoded<Phase> {
    if input == [] then Fail
    else if input[0] == 0 then
      match DecodeU32(input[1..])
      case Fail => Fail
      case Ok(n, rest) => Ok(ApplyExtrinsic(n), rest)
    else if input[0] == 1 then Ok(Finalization, input[1..])
    else if input[0] == 2 then Ok(Initialization, input[1..])
    else Fail
  }

  ghost predicate IgnoresSuffix(skip: Skipper, ty: nat, input: Input, tail: Input)
    requires skip(ty, input).Some? ==> skip(ty, input).value <= |input|
  {
    skip(ty, input).Some? ==> skip(ty, input[..skip(ty, input).value] + tail) == skip(ty, input)
  }

  /** What is assumed of the skipper: it stays within the input, and what it takes depends on
      the bytes taken alone. */
  ghost predicate WellBehaved(skip: Skipper) {
    && (forall ty, input :: skip(ty, input).Some? ==> skip(ty, input).value <= |input|)
    && (forall ty, input, tail :: IgnoresSuffix(skip, ty, input, tail))
  }

  datatype Skipped = Rest(rest: Input) | BadField(field: nat)

  /** The cursor after the fields, or the first field that cannot be skipped. */
  function SkipFields(skip: Skipper, fields: seq<nat>, input: Input): (out: Skipped)
    requires WellBehaved(skip)
    ensures out.Rest? ==> |out.rest| <= |input|
  {
    if fields == [] then Rest(input)
    else
      var n := |fields| - 1;
      match SkipFields(skip, fields[..n], input)
      case BadField(i) => BadField(i)
      case Rest(rest) =>
        match skip(fields[n], rest)
        case None => BadField(n)
        case Some(taken) => Rest(rest[taken..])
  }

  function DecodeFrom(ctx: Context, bytes: Input, start: nat, index: nat): (out: Result)
    requires WellBehaved(ctx.skip) && start <= |bytes|
    ensures out.Good? ==> out.event.startIdx == start < out.event.endIdx <= |bytes|
  {
    match DecodePhase(bytes[start..])
    case Fail => Bad(CannotDecodePhase)
    case Ok(phase, atEvent) =>
      if |atEvent| < 1 then Bad(CannotDecodePalletIndex)
      else if |atEvent| < 2 then Bad(CannotDecodeVariantIndex)
      else DecodeEvent(ctx, |bytes|, start, index, phase, atEvent)
  }

  /** The part after the phase; `atEvent` is what the cursor still has in front of it. */
  function DecodeEvent(ctx: Context, len: nat, start: nat, index: nat, phase: Phase, atEvent: Input): (out: Result)
    requires WellBehaved(ctx.skip) && start <= len && 2 <= |atEvent| <= len - start
    ensures out.Good? ==> out.event.startIdx == start < out.event.endIdx <= len
  {
    if atEvent[0] !in ctx.pallets then Bad(CannotFindPalletWithIndex(atEvent[0]))
    else
      var pallet := ctx.pallets[atEvent[0]];
      if atEvent[1] !in pallet.variants then Bad(CannotFindVariantWithIndex(pallet.name, atEvent[1]))
      else
        var variant := pallet.variants[atEvent[1]];
        match SkipFields(ctx.skip, variant.fields, atEvent[2..])
        case BadField(i) => Bad(CannotDecodeFieldInEvent(pallet.name, variant.name, i))
        case Rest(atTopics) =>
          match DecodeVec(ctx.topicWidth, atTopics)
          case Fail => Bad(CannotDecodeEventTopics)
          case Ok(topics, after) =>
            Good(Event(pallet.name, variant.name, phase, index, start, len - |atEvent|, len - |atEvent| + 2,
                       len - |atTopics|, len - |after|, topics))
  }

  /** The cursor form: one input that every step shortens. */
  method ComputeDecodeFrom(ctx: Context, bytes: Input, start: nat, index: nat) returns (out: Result)
    requires WellBehaved(ctx.skip) && start <= |bytes|
    ensures out == DecodeFrom(ctx, bytes, start, index)
  {
    hide IgnoresSuffix;
    var input := bytes[start..];
    var phase := DecodePhase(input);
    if phase.Fail? { return Bad(CannotDecodePhase); }
    input := phase.rest;
    var eventStartIdx := |bytes| - |input|;
    ghost var atEvent := input;
    if |input| < 1 { return Bad(CannotDecodePalletIndex); }
    var palletIndex := input[0];
    input := input[1..];
    if |input| < 1 { return Bad(CannotDecodeVariantIndex); }
    var variantIndex := input[0];
    input := input[1..];
    assert input == atEvent[2..];
    var fieldsStartIdx := |bytes| - |input|;
    if palletIndex !in ctx.pallets { return Bad(CannotFindPalletWithIndex(palletIndex)); }
    var pallet := ctx.pallets[palletIndex];
    if variantIndex !in pallet.variants { return Bad(CannotFindVariantWithIndex(pallet.name, variantIndex)); }
    var variant := pallet.variants[variantIndex];
    for i := 0 to |variant.fields|
      invariant |input| <= |atEvent| - 2
      invariant SkipFields(ctx.skip, variant.fields[..i], atEvent[2..]) == Rest(input)
    {
      var taken := ctx.skip(variant.fields[i], input);
      assert variant.fields[..i + 1][..i] == variant.fields[..i];
      if taken.None? {
        BadFieldStays(ctx.skip, variant.fields, i + 1, atEvent[2..]);
        return Bad(CannotDecodeFieldInEvent(pallet.name, variant.name, i));
      }
      input := input[taken.value..];
    }
    assert variant.fields[..|variant.fields|] == variant.fields;
    var fieldsEndIdx := |bytes| - |input|;
    var topics := DecodeVec(ctx.topicWidth, input);
    if topics.Fail? { return Bad(CannotDecodeEventTopics); }
    out := Good(Event(pallet.name, variant.name, phase.value, index, start, eventStartIdx, fieldsStartIdx,
                      fieldsEndIdx, |bytes| - |topics.rest|, topics.value));
  }

  lemma {:induction false} BadFieldStays(skip: Skipper, fields: seq<nat>, k: nat, input: Input)
    requires WellBehaved(skip) && k <= |fields| && SkipFields(skip, fields[..k], input).BadField?
    ensures SkipFields(skip, fields, input) == SkipFields(skip, fields[..k], input)
    decreases |fields| - k
  {
    if k < |fields| {
      assert fields[..k + 1][..k] == fields[..k];
      BadFieldStays(skip, fields, k + 1, input);
    } else {
      assert fields[..k] == fields;
    }
  }

  // ---- records and their encoding ----

  datatype Record = Record(phase: Phase, pallet: u8, variant: u8, fields: seq<Input>, topics: seq<Input>)

  predicate PhaseFits(phase: Phase) {
    phase.ApplyExtrinsic? ==> phase.index < U32_MODULUS
  }

  function PhaseBytes(phase: Phase): (b: Input)
    requires PhaseFits(phase)
    ensures |b| > 0
  {
    match phase
    case ApplyExtrinsic(n) => [0] + U32Bytes(n)
    case Finalization => [1]
    case Initialization => [2]
  }

  /** Each field is one value of its type, with nothing left over. */
  predicate FieldsFit(skip: Skipper, types: seq<nat>, fields: seq<Input>) {
    |types| == |fields| && forall i :: 0 <= i < |types| ==> skip(types[i], fields[i]) == Some(|fields[i]|)
  }

  predicate WellFormed(ctx: Context, r: Record) {
    && PhaseFits(r.phase)
    && r.pallet in ctx.pallets && r.variant in ctx.pallets[r.pallet].variants
    && FieldsFit(ctx.skip, ctx.pallets[r.pallet].variants[r.variant].fields, r.fields)
    && |r.topics| < U32_MODULUS && AllWide(r.topics, ctx.topicWidth)
  }

  function HeadBytes(r: Record): Input
    requires PhaseFits(r.phase)
  {
    PhaseBytes(r.phase) + [r.pallet, r.variant]
  }

  function RecordBytes(ctx: Context, r: Record): (b: Input)
    requires WellFormed(ctx, r)
    ensures |b| > 0
  {
    HeadBytes(r) + Concat(r.fields) + VecBytes(r.topics)
  }

  /** The event that the encoding of a record at offset `start` stands for. */
  function EventOf(ctx: Context, r: Record, start: nat, index: nat): Event
    requires WellFormed(ctx, r)
  {
    var pallet := ctx.pallets[r.pallet];
    var fieldsStart := start + |HeadBytes(r)|;
    Event(pallet.name, pallet.variants[r.variant].name, r.phase, index, start, fieldsStart - 2, fieldsStart,
          fieldsStart + |Concat(r.fields)|, start + |RecordBytes(ctx, r)|, r.topics)
  }

  lemma PhaseRoundTrip(phase: Phase, tail: Input)
    requires PhaseFits(phase)
    ensures DecodePhase(PhaseBytes(phase) + tail) == Ok(phase, tail)
  {
    var input := PhaseBytes(phase) + tail;
    match phase
    case ApplyExtrinsic(n) =>
      assert input[1..] == U32Bytes(n) + tail;
      U32RoundTrip(n, tail);
    case _ => assert input[1..] == tail;
  }

  lemma PhaseCanonical(input: Input)
    requires DecodePhase(input).Ok?
    ensures
      var Ok(phase, rest) := DecodePhase(input);
      PhaseFits(phase) && input == PhaseBytes(phase) + rest
  {
    if input[0] == 0 {
      U32Canonical(input[1..]);
      assert input == [0] + input[1..][..4] + input[1..][4..];
    }
  }

  lemma {:induction false} FieldsRoundTrip(skip: Skipper, types: seq<nat>, fields: seq<Input>, tail: Input)
    requires WellBehaved(skip) && FieldsFit(skip, types, fields)
    ensures SkipFields(skip, types, Concat(fields) + tail) == Rest(tail)
    decreases |fields|
  {
    if fields != [] {
      var n := |fields| - 1;
      FieldsRoundTrip(skip, types[..n], fields[..n], fields[n] + tail);
      Associates(Concat(fields[..n]), fields[n], tail);
      assert IgnoresSuffix(skip, types[n], fields[n], tail);
      assert fields[n][..|fields[n]|] == fields[n];
      assert (fields[n] + tail)[|fields[n]|..] == tail;
    } else {
      assert Concat(fields) + tail == tail;
    }
  }

  lemma {:induction false} FieldsCanonical(skip: Skipper, types: seq<nat>, input: Input) returns (fields: seq<Input>)
    requires WellBehaved(skip) && SkipFields(skip, types, input).Rest?
    ensures FieldsFit(skip, types, fields) && input == Concat(fields) + SkipFields(skip, types, input).rest
    decreases |types|
  {
    hide Concat;
    ConcatNothing();
    if types == [] {
      fields := [];
    } else {
      var n := |types| - 1;
      var before := FieldsCanonical(skip, types[..n], input);
      var rest := SkipFields(skip, types[..n], input).rest;
      var taken := skip(types[n], rest).value;
      var piece := rest[..taken];
      assert IgnoresSuffix(skip, types[n], rest, []);
      assert piece + [] == piece;
      fields := before + [piece];
      ConcatSnoc(before, piece);
      assert rest == piece + rest[taken..];
      Associates(Concat(before), piece, rest[taken..]);
    }
  }

  /** Decoding at the start of an encoded record gives its event, whatever comes after. */
  lemma RecordDecodes(ctx: Context, r: Record, bytes: Input, start: nat, index: nat, tail: Input)
    requires WellBehaved(ctx.skip) && WellFormed(ctx, r)
    requires start <= |bytes| && bytes[start..] == RecordBytes(ctx, r) + tail
    ensures DecodeFrom(ctx, bytes, start, index) == Good(EventOf(ctx, r, start, index))
  {
    hide PhaseBytes, VecBytes, Concat, DecodePhase, DecodeVec;
    var types := ctx.pallets[r.pallet].variants[r.variant].fields;
    var atTopics := VecBytes(r.topics) + tail;
    var atFields := Concat(r.fields) + atTopics;
    var atEvent := [r.pallet, r.variant] + atFields;
    Associates(HeadBytes(r) + Concat(r.fields), VecBytes(r.topics), tail);
    Associates(HeadBytes(r), Concat(r.fields), atTopics);
    Associates(PhaseBytes(r.phase), [r.pallet, r.variant], atFields);
    assert bytes[start..] == PhaseBytes(r.phase) + atEvent;
    PhaseRoundTrip(r.phase, atEvent);
    assert atEvent[2..] == atFields;
    FieldsRoundTrip(ctx.skip, types, r.fields, atTopics);
    VecRoundTrip(r.topics, ctx.topicWidth, tail);
    assert |bytes| == start + |PhaseBytes(r.phase)| + |atEvent|;
  }

  /** Conversely, whatever decodes is the encoding of a well-formed record. */
  lemma DecodedIsRecord(ctx: Context, bytes: Input, start: nat, index: nat) returns (r: Record)
    requires WellBehaved(ctx.skip) && start <= |bytes| && DecodeFrom(ctx, bytes, start, index).Good?
    ensures WellFormed(ctx, r)
    ensures DecodeFrom(ctx, bytes, start, index).event == EventOf(ctx, r, start, index)
    ensures RecordBytes(ctx, r) <= bytes[start..]
  {
    hide PhaseBytes, VecBytes, Concat, DecodeVec;
    PhaseCanonical(bytes[start..]);
    var Ok(phase, atEvent) := DecodePhase(bytes[start..]);
    var variant := ctx.pallets[atEvent[0]].variants[atEvent[1]];
    var fields := FieldsCanonical(ctx.skip, variant.fields, atEvent[2..]);
    var atTopics := SkipFields(ctx.skip, variant.fields, atEvent[2..]).rest;
    VecCanonical(ctx.topicWidth, atTopics);
    var Ok(topics, after) := DecodeVec(ctx.topicWidth, atTopics);
    r := Record(phase, atEvent[0], atEvent[1], fields, topics);
    RecordPrefix(ctx, r, bytes[start..], atEvent, atTopics, after);
  }

  lemma RecordPrefix(ctx: Context, r: Record, input: Input, atEvent: Input, atTopics: Input, after: Input)
    requires WellFormed(ctx, r)
    requires input == PhaseBytes(r.phase) + atEvent && |atEvent| >= 2 && atEvent[..2] == [r.pallet, r.variant]
    requires atEvent[2..] == Concat(r.fields) + atTopics && atTopics == VecBytes(r.topics) + after
    ensures input == RecordBytes(ctx, r) + after
  {
    assert atEvent == [r.pallet, r.variant] + atEvent[2..];
    Associates(PhaseBytes(r.phase), [r.pallet, r.variant], atEvent[2..]);
    Associates(HeadBytes(r), Concat(r.fields), atTopics);
    Associates(HeadBytes(r) + Concat(r.fields), VecBytes(r.topics), after);
  }

  /** Exactly when decoding succeeds: some well-formed record is encoded at that place. */
  lemma DecodesIffEncoded(ctx: Context, bytes: Input, start: nat, index: nat)
    requires WellBehaved(ctx.skip) && start <= |bytes|
    ensures DecodeFrom(ctx, bytes, start, index).Good?
      <==> exists r: Record :: WellFormed(ctx, r) && RecordBytes(ctx, r) <= bytes[start..]
  {
    if DecodeFrom(ctx, bytes, start, index).Good? {
      var r := DecodedIsRecord(ctx, bytes, start, index);
    }
    if r: Record :| WellFormed(ctx, r) && RecordBytes(ctx, r) <= bytes[start..] {
      var tail := bytes[start..][|RecordBytes(ctx, r)|..];
      RecordDecodes(ctx, r, bytes, start, index, tail);
    }
  }

  /** The offsets of every decoded event are in order, the two index bytes are where the
      accessors look for them, and the lookups repeated by `event_metadata` succeed. */
  lemma EventIsConsistent(ctx: Context, bytes: Input, start: nat, index: nat)
    requires WellBehaved(ctx.skip) && start <= |bytes| && DecodeFrom(ctx, bytes, start, index).Good?
    ensures
      var e := DecodeFrom(ctx, bytes, start, index).event;
      && e.index == index
      && start == e.startIdx < e.eventStartIdx && e.fieldsStartIdx == e.eventStartIdx + 2
      && e.fieldsStartIdx <= e.fieldsEndIdx < e.endIdx <= |bytes|
      && var palletIndex, variantIndex := bytes[e.fieldsStartIdx - 2], bytes[e.fieldsStartIdx - 1];
         && palletIndex in ctx.pallets && ctx.pallets[palletIndex].name == e.palletName
         && variantIndex in ctx.pallets[palletIndex].variants
         && ctx.pallets[palletIndex].variants[variantIndex].name == e.eventName
  {
    var e := DecodeFrom(ctx, bytes, start, index).event;
    var r := DecodedIsRecord(ctx, bytes, start, index);
    var b, n := RecordBytes(ctx, r), |HeadBytes(r)|;
    assert e.fieldsStartIdx == start + n;
    assert b[n - 2] == r.pallet && b[n - 1] == r.variant;
    assert bytes[start..][n - 2] == b[n - 2] && bytes[start..][n - 1] == b[n - 1];
  }

  // ---- which error is reported ----

  /** A phase, the two index bytes, and the rest. */
  ghost predicate Head(input: Input, phase: Phase, pallet: u8, variant: u8, rest: Input) {
    PhaseFits(phase) && input == PhaseBytes(phase) + ([pallet, variant] + rest)
  }

  ghost predicate StartsWithPhase(input: Input, phase: Phase) {
    PhaseFits(phase) && PhaseBytes(phase) <= input
  }

  /** The first fields take these bytes, and the rest is left. */
  ghost predicate Taken(skip: Skipper, types: seq<nat>, input: Input, fields: seq<Input>, rest: Input) {
    FieldsFit(skip, types, fields) && input == Concat(fields) + rest
  }

  ghost predicate StartsWithTopics(input: Input, width: nat, topics: seq<Input>) {
    |topics| < U32_MODULUS && AllWide(topics, width) && VecBytes(topics) <= input
  }

  /** The bytes fit up to a certain point, and what comes next does not. */
  ghost predicate FailsWith(ctx: Context, input: Input, error: EventsError) {
    match error
    case CannotDecodePhase => forall phase :: !StartsWithPhase(input, phase)
    case CannotDecodePalletIndex => exists phase :: StartsWithPhase(input, phase) && |input| == |PhaseBytes(phase)|
    case CannotDecodeVariantIndex => exists phase :: StartsWithPhase(input, phase) && |input| == |PhaseBytes(phase)| + 1
    case CannotFindPalletWithIndex(i) =>
      i !in ctx.pallets && exists phase, v, rest :: Head(input, phase, i, v, rest)
    case CannotFindVariantWithIndex(name, v) =>
      exists phase, i, rest :: Head(input, phase, i, v, rest)
        && i in ctx.pallets && ctx.pallets[i].name == name && v !in ctx.pallets[i].variants
    case CannotDecodeFieldInEvent(name, eventName, k) =>
      exists phase, i, v, rest, fields, left :: FieldDoesNotFit(ctx, input, phase, i, v, rest, fields, left, k)
        && ctx.pallets[i].name == name && ctx.pallets[i].variants[v].name == eventName
    case CannotDecodeEventTopics =>
      exists phase, i, v, rest, fields, left :: TopicsDoNotFit(ctx, input, phase, i, v, rest, fields, left)
  }

  ghost predicate FieldDoesNotFit(
      ctx: Context, input: Input, phase: Phase, i: u8, v: u8, rest: Input, fields: seq<Input>, left: Input, k: nat)
  {
    && Head(input, phase, i, v, rest) && i in ctx.pallets && v in ctx.pallets[i].variants
    && k < |ctx.pallets[i].variants[v].fields|
    && Taken(ctx.skip, ctx.pallets[i].variants[v].fields[..k], rest, fields, left)
    && ctx.skip(ctx.pallets[i].variants[v].fields[k], left).None?
  }

  ghost predicate TopicsDoNotFit(
      ctx: Context, input: Input, phase: Phase, i: u8, v: u8, rest: Input, fields: seq<Input>, left: Input)
  {
    && Head(input, phase, i, v, rest) && i in ctx.pallets && v in ctx.pallets[i].variants
    && Taken(ctx.skip, ctx.pallets[i].variants[v].fields, rest, fields, left)
    && forall topics :: !StartsWithTopics(left, ctx.topicWidth, topics)
  }

  lemma PhaseMissing(input: Input)
    ensures DecodePhase(input).Fail? <==> forall phase :: !StartsWithPhase(input, phase)
  {
    if DecodePhase(input).Ok? {
      PhaseCanonical(input);
      assert StartsWithPhase(input, DecodePhase(input).value);
    }
    if phase :| StartsWithPhase(input, phase) {
      PhaseRoundTrip(phase, input[|PhaseBytes(phase)|..]);
      assert input == PhaseBytes(phase) + input[|PhaseBytes(phase)|..];
    }
  }

  lemma TopicsMissing(input: Input, width: nat)
    ensures DecodeVec(width, input).Fail? <==> forall topics :: !StartsWithTopics(input, width, topics)
  {
    hide DecodeVec, VecBytes, AllWide, CompactBytes, Concat;
    if DecodeVec(width, input).Ok? {
      VecCanonical(width, input);
      assert StartsWithTopics(input, width, DecodeVec(width, input).value);
    }
    if topics :| StartsWithTopics(input, width, topics) {
      VecRoundTrip(topics, width, input[|VecBytes(topics)|..]);
      assert input == VecBytes(topics) + input[|VecBytes(topics)|..];
    }
  }

  /** Where decoding gets to past a phase. */
  lemma AfterPhase(ctx: Context, bytes: Input, start: nat, index: nat, phase: Phase)
    requires WellBehaved(ctx.skip) && start <= |bytes| && StartsWithPhase(bytes[start..], phase)
    ensures
      var atEvent := bytes[start..][|PhaseBytes(phase)|..];
      && DecodePhase(bytes[start..]) == Ok(phase, atEvent)
      && DecodeFrom(ctx, bytes, start, index)
         == if |atEvent| < 1 then Bad(CannotDecodePalletIndex)
            else if |atEvent| < 2 then Bad(CannotDecodeVariantIndex)
            else DecodeEvent(ctx, |bytes|, start, index, phase, atEvent)
  {
    var input := bytes[start..];
    PhaseRoundTrip(phase, input[|PhaseBytes(phase)|..]);
    assert input == PhaseBytes(phase) + input[|PhaseBytes(phase)|..];
  }

  lemma {:induction false} BadFieldMeans(skip: Skipper, types: seq<nat>, input: Input, k: nat)
    requires WellBehaved(skip) && SkipFields(skip, types, input) == BadField(k)
    ensures k < |types| && SkipFields(skip, types[..k], input).Rest?
    ensures skip(types[k], SkipFields(skip, types[..k], input).rest).None?
    decreases |types|
  {
    var n := |types| - 1;
    if SkipFields(skip, types[..n], input).BadField? {
      BadFieldMeans(skip, types[..n], input, k);
      assert types[..n][..k] == types[..k];
    }
  }

  lemma BadFieldMet(skip: Skipper, types: seq<nat>, input: Input, k: nat, fields: seq<Input>, left: Input)
    requires WellBehaved(skip) && k < |types| && Taken(skip, types[..k], input, fields, left)
    requires skip(types[k], left).None?
    ensures SkipFields(skip, types, input) == BadField(k)
  {
    FieldsRoundTrip(skip, types[..k], fields, left);
    assert types[..k + 1][..k] == types[..k];
    BadFieldStays(skip, types, k + 1, input);
  }

  /** What decoding does past the head of a record. */
  lemma AfterHead(
      ctx: Context, bytes: Input, start: nat, index: nat, phase: Phase, pallet: u8, variant: u8, rest: Input)
    requires WellBehaved(ctx.skip) && start <= |bytes| && Head(bytes[start..], phase, pallet, variant, rest)
    ensures
      var out := DecodeFrom(ctx, bytes, start, index);
      if pallet !in ctx.pallets then out == Bad(CannotFindPalletWithIndex(pallet))
      else
        var p := ctx.pallets[pallet];
        if variant !in p.variants then out == Bad(CannotFindVariantWithIndex(p.name, variant))
        else match SkipFields(ctx.skip, p.variants[variant].fields, rest)
          case BadField(k) => out == Bad(CannotDecodeFieldInEvent(p.name, p.variants[variant].name, k))
          case Rest(left) =>
            if DecodeVec(ctx.topicWidth, left).Fail? then out == Bad(CannotDecodeEventTopics) else out.Good?
  {
    var atEvent := [pallet, variant] + rest;
    assert bytes[start..][|PhaseBytes(phase)|..] == atEvent;
    AfterPhase(ctx, bytes, start, index, phase);
    assert atEvent[2..] == rest && atEvent[0] == pallet && atEvent[1] == variant;
  }

  lemma HeadOf(input: Input, phase: Phase) returns (pallet: u8, variant: u8, rest: Input)
    requires StartsWithPhase(input, phase) && |input| >= |PhaseBytes(phase)| + 2
    ensures Head(input, phase, pallet, variant, rest)
  {
    var atEvent := input[|PhaseBytes(phase)|..];
    pallet, variant, rest := atEvent[0], atEvent[1], atEvent[2..];
    assert atEvent == [pallet, variant] + rest;
  }

  /** Main result: each error is reported exactly when the bytes fit up to its point and no further. */
  lemma FailsExactlyWhen(ctx: Context, bytes: Input, start: nat, index: nat, error: EventsError)
    requires WellBehaved(ctx.skip) && start <= |bytes|
    ensures DecodeFrom(ctx, bytes, start, index) == Bad(error) <==> FailsWith(ctx, bytes[start..], error)
  {
    hide DecodeFrom, FailsWith;
    if DecodeFrom(ctx, bytes, start, index) == Bad(error) {
      FailureFits(ctx, bytes, start, index, error);
    }
    if FailsWith(ctx, bytes[start..], error) {
      FitFails(ctx, bytes, start, index, error);
    }
  }

  lemma FailureFits(ctx: Context, bytes: Input, start: nat, index: nat, error: EventsError)
    requires WellBehaved(ctx.skip) && start <= |bytes| && DecodeFrom(ctx, bytes, start, index) == Bad(error)
    ensures FailsWith(ctx, bytes[start..], error)
  {
    hide SkipFields, DecodeVec, PhaseBytes, DecodePhase, Taken, DecodeEvent;
    var input := bytes[start..];
    PhaseMissing(input);
    if DecodePhase(input).Ok? {
      var phase :| StartsWithPhase(input, phase);
      AfterPhase(ctx, bytes, start, index, phase);
      if |input| >= |PhaseBytes(phase)| + 2 {
        var pallet, variant, rest := HeadOf(input, phase);
        AfterHead(ctx, bytes, start, index, phase, pallet, variant, rest);
        if pallet in ctx.pallets && variant in ctx.pallets[pallet].variants {
          PastHeadFits(ctx, bytes, start, index, error, phase, pallet, variant, rest);
        }
      }
    }
  }

  lemma PastHeadFits(
      ctx: Context, bytes: Input, start: nat, index: nat, error: EventsError,
      phase: Phase, pallet: u8, variant: u8, rest: Input)
    requires WellBehaved(ctx.skip) && start <= |bytes| && DecodeFrom(ctx, bytes, start, index) == Bad(error)
    requires Head(bytes[start..], phase, pallet, variant, rest)
    requires pallet in ctx.pallets && variant in ctx.pallets[pallet].variants
    ensures FailsWith(ctx, bytes[start..], error)
  {
    hide SkipFields, DecodeVec, DecodeFrom, DecodeEvent, PhaseBytes, Head;
    AfterHead(ctx, bytes, start, index, phase, pallet, variant, rest);
    var types := ctx.pallets[pallet].variants[variant].fields;
    match SkipFields(ctx.skip, types, rest)
    case BadField(k) =>
      BadFieldMeans(ctx.skip, types, rest, k);
      var fields := FieldsCanonical(ctx.skip, types[..k], rest);
      var left := SkipFields(ctx.skip, types[..k], rest).rest;
      assert FieldDoesNotFit(ctx, bytes[start..], phase, pallet, variant, rest, fields, left, k);
    case Rest(left) =>
      var fields := FieldsCanonical(ctx.skip, types, rest);
      TopicsMissing(left, ctx.topicWidth);
      assert TopicsDoNotFit(ctx, bytes[start..], phase, pallet, variant, rest, fields, left);
  }

  lemma FitFails(ctx: Context, bytes: Input, start: nat, index: nat, error: EventsError)
    requires WellBehaved(ctx.skip) && start <= |bytes| && FailsWith(ctx, bytes[start..], error)
    ensures DecodeFrom(ctx, bytes, start, index) == Bad(error)
  {
    hide SkipFields, DecodeVec, DecodeEvent, PhaseBytes, DecodePhase, Head, Taken, WellBehaved;
    var input := bytes[start..];
    match error
    case CannotDecodePhase => PhaseMissing(input);
    case CannotDecodePalletIndex =>
      var phase :| StartsWithPhase(input, phase) && |input| == |PhaseBytes(phase)|;
      AfterPhase(ctx, bytes, start, index, phase);
    case CannotDecodeVariantIndex =>
      var phase :| StartsWithPhase(input, phase) && |input| == |PhaseBytes(phase)| + 1;
      AfterPhase(ctx, bytes, start, index, phase);
    case CannotFindPalletWithIndex(i) =>
      var phase, v, rest :| Head(input, phase, i, v, rest);
      AfterHead(ctx, bytes, start, index, phase, i, v, rest);
    case CannotFindVariantWithIndex(name, v) =>
      var phase, i, rest :| Head(input, phase, i, v, rest)
        && i in ctx.pallets && ctx.pallets[i].name == name && v !in ctx.pallets[i].variants;
      AfterHead(ctx, bytes, start, index, phase, i, v, rest);
    case CannotDecodeFieldInEvent(name, eventName, k) =>
      FitFailsAtField(ctx, bytes, start, index, name, eventName, k);
    case CannotDecodeEventTopics => FitFailsAtTopics(ctx, bytes, start, index);
  }

  lemma FitFailsAtField(
      ctx: Context, bytes: Input, start: nat, index: nat, name: string, eventName: string, k: nat)
    requires WellBehaved(ctx.skip) && start <= |bytes|
    requires FailsWith(ctx, bytes[start..], CannotDecodeFieldInEvent(name, eventName, k))
    ensures DecodeFrom(ctx, bytes, start, index) == Bad(CannotDecodeFieldInEvent(name, eventName, k))
  {
    hide DecodeFrom, Head, Taken, StartsWithPhase, StartsWithTopics, TopicsDoNotFit, WellBehaved, PhaseBytes;
    var phase, i, v, rest, fields, left :| FieldDoesNotFit(ctx, bytes[start..], phase, i, v, rest, fields, left, k)
      && ctx.pallets[i].name == name && ctx.pallets[i].variants[v].name == eventName;
    FieldFails(ctx, bytes, start, index, phase, i, v, rest, k, fields, left);
  }

  lemma FitFailsAtTopics(ctx: Context, bytes: Input, start: nat, index: nat)
    requires WellBehaved(ctx.skip) && start <= |bytes|
    requires FailsWith(ctx, bytes[start..], CannotDecodeEventTopics)
    ensures DecodeFrom(ctx, bytes, start, index) == Bad(CannotDecodeEventTopics)
  {
    hide DecodeFrom, Head, Taken, StartsWithPhase, StartsWithTopics, FieldDoesNotFit, TopicsDoNotFit, WellBehaved;
    var phase, i, v, rest, fields, left :| TopicsDoNotFit(ctx, bytes[start..], phase, i, v, rest, fields, left);
    TopicsFail(ctx, bytes, start, index, phase, i, v, rest, fields, left);
  }

  lemma FieldFails(
      ctx: Context, bytes: Input, start: nat, index: nat, phase: Phase, i: u8, v: u8, rest: Input,
      k: nat, fields: seq<Input>, left: Input)
    requires WellBehaved(ctx.skip) && start <= |bytes|
    requires FieldDoesNotFit(ctx, bytes[start..], phase, i, v, rest, fields, left, k)
    ensures DecodeFrom(ctx, bytes, start, index)
         == Bad(CannotDecodeFieldInEvent(ctx.pallets[i].name, ctx.pallets[i].variants[v].name, k))
  {
    hide SkipFields, DecodeFrom, Head, Taken, WellBehaved;
    AfterHead(ctx, bytes, start, index, phase, i, v, rest);
    BadFieldMet(ctx.skip, ctx.pallets[i].variants[v].fields, rest, k, fields, left);
  }

  lemma TopicsFail(
      ctx: Context, bytes: Input, start: nat, index: nat, phase: Phase, i: u8, v: u8, rest: Input,
      fields: seq<Input>, left: Input)
    requires WellBehaved(ctx.skip) && start <= |bytes|
    requires TopicsDoNotFit(ctx, bytes[start..], phase, i, v, rest, fields, left)
    ensures DecodeFrom(ctx, bytes, start, index) == Bad(CannotDecodeEventTopics)
  {
    hide SkipFields, DecodeFrom, Head, Taken, WellBehaved, DecodeVec, StartsWithTopics;
    AfterHead(ctx, bytes, start, index, phase, i, v, rest);
    AllTaken(ctx.skip, ctx.pallets[i].variants[v].fields, rest, fields, left);
    TopicsMissing(left, ctx.topicWidth);
  }

  lemma AllTaken(skip: Skipper, types: seq<nat>, input: Input, fields: seq<Input>, left: Input)
    requires WellBehaved(skip) && Taken(skip, types, input, fields, left)
    ensures SkipFields(skip, types, input) == Rest(left)
  {
    FieldsRoundTrip(skip, types, fields, left);
  }

  // ---- iterating ----

  /** Where the events start and how many there are. An unreadable count means no events;
      the start offset is then never used. */
  function CountAndStart(bytes: Input): (out: (nat, nat))
    ensures out.1 <= |bytes|
  {
    match DecodeCompact(bytes)
    case Fail => (0, 0)
    case Ok(n, rest) => (n, |bytes| - |rest|)
  }

  /** Everything that an iterator at `pos` still yields. */
  function EventsFrom(ctx: Context, bytes: Input, count: nat, pos: nat, index: nat): (out: seq<Result>)
    requires WellBehaved(ctx.skip)
    decreases |bytes| - pos
  {
    if |bytes| <= pos || count == index then []
    else
      var item := DecodeFrom(ctx, bytes, pos, index);
      match item
      case Good(e) => [item] + EventsFrom(ctx, bytes, count, e.endIdx, index + 1)
      case Bad(_) => [item]
  }

  function AllEvents(ctx: Context, bytes: Input): seq<Result>
    requires WellBehaved(ctx.skip)
  {
    var (count, start) := CountAndStart(bytes);
    EventsFrom(ctx, bytes, count, start, 0)
  }

  class EventIter {
    const ctx: Context
    const bytes: Input
    const numEvents: nat
    var pos: nat
    var index: nat

    constructor (ctx: Context, bytes: Input)
      requires WellBehaved(ctx.skip)
      ensures this.ctx == ctx && Remaining() == AllEvents(ctx, bytes)
    {
      var (count, start) := CountAndStart(bytes);
      this.ctx := ctx;
      this.bytes := bytes;
      numEvents := count;
      pos := start;
      index := 0;
    }

    ghost function Remaining(): seq<Result>
      requires WellBehaved(ctx.skip)
      reads this
    {
      EventsFrom(ctx, bytes, numEvents, pos, index)
    }

    /** Yields the remaining items one by one, then `None` for ever. An error is the last item. */
    method Next() returns (item: Option<Result>)
      requires WellBehaved(ctx.skip)
      modifies this
      ensures match item
        case None => old(Remaining()) == [] && Remaining() == []
        case Some(x) => old(Remaining()) == [x] + Remaining() && (x.Bad? ==> Remaining() == [])
    {
      hide DecodeFrom;
      if |bytes| <= pos || numEvents == index {
        return None;
      }
      var decoded := ComputeDecodeFrom(ctx, bytes, pos, index);
      if decoded.Bad? {
        EventsFromBad(ctx, bytes, numEvents, pos, index, decoded.error);
        pos := |bytes|;
      } else {
        EventsFromGood(ctx, bytes, numEvents, pos, index, decoded.event);
        pos := pos + (decoded.event.endIdx - decoded.event.startIdx);
        index := index + 1;
      }
      item := Some(decoded);
    }
  }

  lemma EventsFromGood(ctx: Context, bytes: Input, count: nat, pos: nat, index: nat, e: Event)
    requires WellBehaved(ctx.skip) && pos < |bytes| && count != index && DecodeFrom(ctx, bytes, pos, index) == Good(e)
    ensures EventsFrom(ctx, bytes, count, pos, index) == [Good(e)] + EventsFrom(ctx, bytes, count, e.endIdx, index + 1)
  {
  }

  lemma EventsFromBad(ctx: Context, bytes: Input, count: nat, pos: nat, index: nat, error: EventsError)
    requires WellBehaved(ctx.skip) && pos < |bytes| && count != index
    requires DecodeFrom(ctx, bytes, pos, index) == Bad(error)
    ensures EventsFrom(ctx, bytes, count, pos, index) == [Bad(error)]
    ensures EventsFrom(ctx, bytes, count, |bytes|, index) == []
  {
  }

  /** The items that iteration yields over arbitrary bytes: good events tile the buffer from
      `pos` on without gaps, carry consecutive indexes, and stay below the announced count;
      only the last item can be an error. */
  ghost predicate Tiles(items: seq<Result>, len: nat, pos: nat, index: nat) {
    && (forall i :: 0 <= i < |items| - 1 ==> items[i].Good?)
    && (forall i :: 0 <= i < |items| && items[i].Good? ==>
          items[i].event.index == index + i && items[i].event.startIdx < items[i].event.endIdx <= len)
    && (|items| > 0 && items[0].Good? ==> items[0].event.startIdx == pos)
    && (forall i :: 0 < i < |items| && items[i].Good? ==> items[i].event.startIdx == items[i - 1].event.endIdx)
  }

  lemma TilesCons(e: Event, rest: seq<Result>, len: nat)
    requires e.startIdx < e.endIdx <= len && Tiles(rest, len, e.endIdx, e.index + 1)
    ensures Tiles([Good(e)] + rest, len, e.startIdx, e.index)
  {
    var items := [Good(e)] + rest;
    forall i | 0 < i < |items|
      ensures i < |items| - 1 ==> items[i].Good?
      ensures items[i].Good? ==> items[i].event.startIdx == items[i - 1].event.endIdx
    {
      assert items[i] == rest[i - 1];
      if i > 1 {
        assert items[i - 1] == rest[i - 2];
      }
    }
  }

  lemma {:induction false} EventsTile(ctx: Context, bytes: Input, count: nat, pos: nat, index: nat)
    requires WellBehaved(ctx.skip) && index <= count
    ensures index + |EventsFrom(ctx, bytes, count, pos, index)| <= count
    ensures Tiles(EventsFrom(ctx, bytes, count, pos, index), |bytes|, pos, index)
    decreases |bytes| - pos
  {
    hide DecodeFrom;
    var items := EventsFrom(ctx, bytes, count, pos, index);
    if |bytes| <= pos || count == index {
      assert items == [];
    } else {
      var item := DecodeFrom(ctx, bytes, pos, index);
      match item
      case Bad(_) => assert items == [item];
      case Good(e) =>
        var rest := EventsFrom(ctx, bytes, count, e.endIdx, index + 1);
        EventsTile(ctx, bytes, count, e.endIdx, index + 1);
        EventIsConsistent(ctx, bytes, pos, index);
        TilesCons(e, rest, |bytes|);
        EventsFromGood(ctx, bytes, count, pos, index, e);
        assert items == [Good(e)] + rest;
    }
  }

  /** From the start: nothing if the count is unreadable, and otherwise what tiles the bytes after it,
      at most as many items as it says. */
  lemma AllEventsTile(ctx: Context, bytes: Input)
    requires WellBehaved(ctx.skip)
    ensures match DecodeCompact(bytes)
      case Fail => AllEvents(ctx, bytes) == []
      case Ok(n, rest) =>
        |AllEvents(ctx, bytes)| <= n && Tiles(AllEvents(ctx, bytes), |bytes|, |bytes| - |rest|, 0)
  {
    hide DecodeCompact, DecodeFrom, Tiles;
    match DecodeCompact(bytes)
    case Fail =>
    case Ok(n, rest) => EventsTile(ctx, bytes, n, |bytes| - |rest|, 0);
  }

  // ---- the round trip ----

  predicate AllWellFormed(ctx: Context, records: seq<Record>) {
    forall i :: 0 <= i < |records| ==> WellFormed(ctx, records[i])
  }

  function Encodings(ctx: Context, records: seq<Record>): (parts: seq<Input>)
    requires AllWellFormed(ctx, records)
    ensures |parts| == |records|
  {
    seq(|records|, i requires 0 <= i < |records| => RecordBytes(ctx, records[i]))
  }

  /** The storage value: the number of records, then the records. */
  function EncodeEvents(ctx: Context, records: seq<Record>): Input
    requires AllWellFormed(ctx, records) && |records| < U32_MODULUS
  {
    CompactBytes(|records|) + Concat(Encodings(ctx, records))
  }

  /** Where record `i` starts. */
  function StartOf(ctx: Context, records: seq<Record>, i: nat): nat
    requires AllWellFormed(ctx, records) && |records| < U32_MODULUS && i <= |records|
  {
    |CompactBytes(|records|)| + |Concat(Encodings(ctx, records)[..i])|
  }

  function ExpectedEvents(ctx: Context, records: seq<Record>, i: nat): (out: seq<Result>)
    requires AllWellFormed(ctx, records) && |records| < U32_MODULUS && i <= |records|
    ensures |out| == |records| - i
  {
    seq(|records| - i, k requires 0 <= k < |records| - i =>
      Good(EventOf(ctx, records[i + k], StartOf(ctx, records, i + k), i + k)))
  }

  lemma DropPrefix<T>(head: seq<T>, before: seq<T>, r: seq<T>, after: seq<T>, trailing: seq<T>)
    ensures (head + (before + (r + after)) + trailing)[|head| + |before|..] == r + (after + trailing)
  {
    var tail := r + (after + trailing);
    assert head + (before + (r + after)) + trailing == (head + before) + tail;
    assert ((head + before) + tail)[|head| + |before|..] == tail;
  }

  lemma RecordAtStart(ctx: Context, records: seq<Record>, trailing: Input, i: nat)
    requires WellBehaved(ctx.skip) && AllWellFormed(ctx, records) && |records| < U32_MODULUS && i < |records|
    ensures
      var bytes, start := EncodeEvents(ctx, records) + trailing, StartOf(ctx, records, i);
      && start < |bytes|
      && DecodeFrom(ctx, bytes, start, i) == Good(EventOf(ctx, records[i], start, i))
      && StartOf(ctx, records, i + 1) == start + |RecordBytes(ctx, records[i])|
  {
    hide DecodeFrom, RecordBytes;
    var bytes, start, parts := EncodeEvents(ctx, records) + trailing, StartOf(ctx, records, i), Encodings(ctx, records);
    ConcatAt(parts, i);
    var after := Concat(parts[i + 1..]);
    DropPrefix(CompactBytes(|records|), Concat(parts[..i]), parts[i], after, trailing);
    RecordDecodes(ctx, records[i], bytes, start, i, after + trailing);
  }

  lemma {:induction false} EventsFromRecord(ctx: Context, records: seq<Record>, trailing: Input, i: nat)
    requires WellBehaved(ctx.skip) && AllWellFormed(ctx, records) && |records| < U32_MODULUS && i <= |records|
    ensures
      var bytes := EncodeEvents(ctx, records) + trailing;
      EventsFrom(ctx, bytes, |records|, StartOf(ctx, records, i), i) == ExpectedEvents(ctx, records, i)
    decreases |records| - i
  {
    hide DecodeFrom, EncodeEvents, RecordBytes;
    if i < |records| {
      var bytes, start := EncodeEvents(ctx, records) + trailing, StartOf(ctx, records, i);
      RecordAtStart(ctx, records, trailing, i);
      EventsFromRecord(ctx, records, trailing, i + 1);
      ExpectedCons(ctx, records, i);
      EventsFromGood(ctx, bytes, |records|, start, i, EventOf(ctx, records[i], start, i));
    }
  }

  lemma ExpectedCons(ctx: Context, records: seq<Record>, i: nat)
    requires AllWellFormed(ctx, records) && |records| < U32_MODULUS && i < |records|
    ensures ExpectedEvents(ctx, records, i)
         == [Good(EventOf(ctx, records[i], StartOf(ctx, records, i), i))] + ExpectedEvents(ctx, records, i + 1)
  {
    var a, b := ExpectedEvents(ctx, records, i), ExpectedEvents(ctx, records, i + 1);
    forall k | 0 < k < |a|
      ensures a[k] == b[k - 1]
    {
      assert i + k == (i + 1) + (k - 1);
    }
  }

  /** Main result: iterating over the encoding of any list of well-formed records yields their
      events, all of them, in order, whatever trails the encoding. */
  lemma EventsRoundTrip(ctx: Context, records: seq<Record>, trailing: Input)
    requires WellBehaved(ctx.skip) && AllWellFormed(ctx, records) && |records| < U32_MODULUS
    ensures AllEvents(ctx, EncodeEvents(ctx, records) + trailing) == ExpectedEvents(ctx, records, 0)
  {
    var bytes := EncodeEvents(ctx, records) + trailing;
    var body := Concat(Encodings(ctx, records));
    assert bytes == CompactBytes(|records|) + (body + trailing);
    CompactRoundTrip(|records|, body + trailing);
    assert Encodings(ctx, records)[..0] == [];
    EventsFromRecord(ctx, records, trailing, 0);
  }
}
