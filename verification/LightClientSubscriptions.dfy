/** Subscriptions, over every run of the background task. The reference is a journal with one
    track per activation, filled from the ledger and the received notifications alone: a
    track collects what arrives for its subscription id until a notification finds the
    receiver gone or a later activation takes over the id. */
module LightClientSubscriptions {
  import opened Lists
  import opened Options
  import opened RpcIds
  import opened LightClient
  import opened LightClientReplies

  datatype Status = Open | Replaced | Unsubscribed(serial: nat, id: nat)

  datatype Track = Track(subscriptionId: string, unsubscribeMethod: string, items: seq<Item>, status: Status)

  /** The waiting ticket with this id. */
  function FindWaiting(ledger: seq<Ticket>, id: nat): Option<nat> {
    if ledger == [] then None
    else
      var n := |ledger| - 1;
      if ledger[n].fate.Waiting? && ledger[n].id == id then Some(n) else FindWaiting(ledger[..n], id)
  }

  /** The subscription id and unsubscribe method of the subscription an event activates: a
      string result for a waiting subscription request whose caller still listens. */
  function Activation(p: Platform, ledger: seq<Ticket>, e: Event): Option<(string, string)> {
    if e.FromBack? && e.alive && e.response.Some? && e.response.value.Method? then
      match ParseUsize(e.response.value.id, p.modulus)
      case None => None
      case Some(id) =>
        match FindWaiting(ledger, id)
        case None => None
        case Some(c) =>
          if c < |ledger| && ledger[c].message.Subscription? then
            match p.asString(e.response.value.result)
            case None => None
            case Some(subscriptionId) => Some((subscriptionId, ledger[c].message.unsubscribeMethod))
          else None
    else None
  }

  /** The subscription id and content of a notification. */
  function NoteOf(e: Event): Option<(string, Item)> {
    if e.FromBack? && e.response.Some? then
      match e.response.value
      case Notification(_, subscriptionId, result) => Some((subscriptionId, OkItem(result)))
      case NotificationError(_, subscriptionId, error) => Some((subscriptionId, ErrItem(error)))
      case _ => None
    else None
  }

  /** `serial` is the number that the next issued id has. */
  function Follow(p: Platform, serial: nat, t: Track, e: Event): Track
    requires p.modulus > 0
  {
    match NoteOf(e)
    case None => t
    case Some((subscriptionId, item)) =>
      if !t.status.Open? || t.subscriptionId != subscriptionId then t
      else if e.alive then t.(items := t.items + [item])
      else t.(status := Unsubscribed(serial, serial % p.modulus))
  }

  function FollowAll(p: Platform, serial: nat, journal: seq<Track>, e: Event): (out: seq<Track>)
    requires p.modulus > 0
    ensures |out| == |journal|
    ensures forall a :: 0 <= a < |journal| ==> out[a] == Follow(p, serial, journal[a], e)
  {
    seq(|journal|, a requires 0 <= a < |journal| => Follow(p, serial, journal[a], e))
  }

  function Replace(t: Track, subscriptionId: string): Track {
    if t.status.Open? && t.subscriptionId == subscriptionId then t.(status := Replaced) else t
  }

  function ReplaceAll(journal: seq<Track>, subscriptionId: string): (out: seq<Track>)
    ensures |out| == |journal|
    ensures forall a :: 0 <= a < |journal| ==> out[a] == Replace(journal[a], subscriptionId)
  {
    seq(|journal|, a requires 0 <= a < |journal| => Replace(journal[a], subscriptionId))
  }

  function ExtendJournal(p: Platform, s: State, ledger: seq<Ticket>, journal: seq<Track>, e: Event): seq<Track>
    requires p.modulus > 0
  {
    match Activation(p, ledger, e)
    case Some((subscriptionId, unsubscribeMethod)) =>
      ReplaceAll(journal, subscriptionId) + [Track(subscriptionId, unsubscribeMethod, [], Open)]
    case None => FollowAll(p, s.issued + 1, journal, e)
  }

  function Journal(p: Platform, events: seq<Event>): seq<Track>
    requires p.modulus > 0
  {
    if events == [] then []
    else
      var before := events[..|events| - 1];
      ExtendJournal(p, Run(p, before), Ledger(p, before), Journal(p, before), events[|events| - 1])
  }

  function Concerns(a: nat): Output -> bool {
    (o: Output) => (o.Activated? || o.Notified? || o.Unsubscribing?) && o.activation == a
  }

  /** Everything the task did for one activation, in order. */
  function History(log: seq<Output>, a: nat): seq<Output> {
    Filter(Concerns(a), log)
  }

  function Notes(a: nat, items: seq<Item>): seq<Output> {
    seq(|items|, i requires 0 <= i < |items| => Notified(a, items[i]))
  }

  /** What a track says the history is: the activation, then each item in arrival order,
      then one unsubscribe request if the receiver was found gone. */
  function Story(a: nat, t: Track): seq<Output> {
    [Activated(a, t.subscriptionId)] + Notes(a, t.items) +
    (if t.status.Unsubscribed?
     then [Unsubscribing(a, Decimal(t.status.id), t.unsubscribeMethod, t.subscriptionId)] else [])
  }

  /** The subscription map holds the open tracks under their ids, and nothing else. */
  ghost predicate Serves(s: State, journal: seq<Track>) {
    && (forall a :: 0 <= a < |journal| && journal[a].status.Open? ==>
          && journal[a].subscriptionId in s.subscriptions
          && s.subscriptions[journal[a].subscriptionId] == Active(a, journal[a].unsubscribeMethod))
    && (forall id :: id in s.subscriptions ==>
          var a := s.subscriptions[id].activation;
          a < |journal| && journal[a].status.Open? && journal[a].subscriptionId == id)
  }

  ghost predicate Told(s: State, journal: seq<Track>) {
    && s.activations == |journal|
    && (forall a :: 0 <= a < |journal| ==> History(s.log, a) == Story(a, journal[a]))
    && (forall a :: a >= |journal| ==> History(s.log, a) == [])
  }

  /** Unsubscribe requests used ids of their own. */
  ghost predicate SeparateSerials(p: Platform, s: State, ledger: seq<Ticket>, journal: seq<Track>)
    requires p.modulus > 0
  {
    && (forall a :: 0 <= a < |journal| && journal[a].status.Unsubscribed? ==>
          && 1 <= journal[a].status.serial <= s.issued
          && journal[a].status.id == journal[a].status.serial % p.modulus)
    && (forall a, c :: 0 <= a < |journal| && journal[a].status.Unsubscribed? && 0 <= c < |ledger| ==>
          journal[a].status.serial != ledger[c].serial)
    && (forall a, b :: 0 <= a < b < |journal| && journal[a].status.Unsubscribed? && journal[b].status.Unsubscribed? ==>
          journal[a].status.serial != journal[b].status.serial)
  }

  ghost predicate Matches(p: Platform, s: State, ledger: seq<Ticket>, journal: seq<Track>)
    requires p.modulus > 0
  {
    Serves(s, journal) && Told(s, journal) && SeparateSerials(p, s, ledger, journal)
  }

  // ---- histories ----

  lemma HistoryAppend(log: seq<Output>, more: seq<Output>, a: nat)
    ensures History(log + more, a) == History(log, a) + History(more, a)
  {
    FilterAppend(Concerns(a), log, more);
  }

  lemma HistoryOne(o: Output, a: nat)
    ensures History([o], a)
         == if (o.Activated? || o.Notified? || o.Unsubscribing?) && o.activation == a then [o] else []
  {
    FilterOne(Concerns(a), o);
  }

  lemma NotesSnoc(a: nat, items: seq<Item>, item: Item)
    ensures Notes(a, items + [item]) == Notes(a, items) + [Notified(a, item)]
  {
  }

  // ---- one step ----

  lemma {:induction false} FindWaitingFinds(ledger: seq<Ticket>, id: nat)
    ensures match FindWaiting(ledger, id)
      case Some(c) => c < |ledger| && ledger[c].fate.Waiting? && ledger[c].id == id
      case None => forall c :: 0 <= c < |ledger| && ledger[c].fate.Waiting? ==> ledger[c].id != id
    decreases |ledger|
  {
    if ledger != [] {
      FindWaitingFinds(ledger[..|ledger| - 1], id);
    }
  }

  /** The ledger knows which responses activate a subscription. */
  lemma ActivationMatches(p: Platform, s: State, ledger: seq<Ticket>, id: nat, idText: string, result: Raw, alive: bool)
    requires p.modulus > 0 && Agrees(p, s, ledger) && ParseUsize(idText, p.modulus) == Some(id)
    requires AtMostOneWaits(ledger, id)
    ensures Activation(p, ledger, FromBack(Some(Method(idText, result)), alive)) ==
      if alive && id !in s.requests && id in s.pendingSubscriptions && p.asString(result).Some?
      then Some((p.asString(result).value, s.pendingSubscriptions[id].unsubscribeMethod)) else None
  {
    FindWaitingFinds(ledger, id);
    if id in s.requests || id in s.pendingSubscriptions {
      var c := FindWaiting(ledger, id).value;
      OneMapOnly(p, s, ledger, id);
      if ledger[c].message.Request? {
        assert WaitsAsRequest(s, ledger[c], c);
      } else {
        assert WaitsAsSubscription(s, ledger[c], c);
      }
    }
  }

  /** A turn that concerns no subscription. */
  lemma NothingTold(p: Platform, s: State, s': State, ledger: seq<Ticket>, ledger': seq<Ticket>,
                    journal: seq<Track>, outputs: seq<Output>)
    requires p.modulus > 0 && Matches(p, s, ledger, journal)
    requires s'.subscriptions == s.subscriptions && s'.activations == s.activations && s.issued <= s'.issued
    requires s'.log == s.log + outputs
    requires forall o :: o in outputs ==> !o.Activated? && !o.Notified? && !o.Unsubscribing?
    requires |ledger| <= |ledger'| && forall c :: 0 <= c < |ledger'| ==>
      if c < |ledger| then ledger'[c].serial == ledger[c].serial else ledger'[c].serial > s.issued
    ensures Matches(p, s', ledger', journal)
  {
    forall a: nat
      ensures History(s'.log, a) == History(s.log, a)
    {
      HistoryAppend(s.log, outputs, a);
      FilterNone(Concerns(a), outputs);
    }
  }

  lemma FollowNothing(p: Platform, serial: nat, journal: seq<Track>, e: Event)
    requires p.modulus > 0
    requires match NoteOf(e)
      case None => true
      case Some((subscriptionId, _)) =>
        forall a :: 0 <= a < |journal| && journal[a].status.Open? ==> journal[a].subscriptionId != subscriptionId
    ensures FollowAll(p, serial, journal, e) == journal
  {
  }

  /** A notification is followed by the one open track with its id. */
  lemma FollowOne(p: Platform, s: State, journal: seq<Track>, e: Event)
    requires p.modulus > 0 && Serves(s, journal)
    requires NoteOf(e).Some? && NoteOf(e).value.0 in s.subscriptions
    ensures
      var a := s.subscriptions[NoteOf(e).value.0].activation;
      FollowAll(p, s.issued + 1, journal, e) == journal[a := Follow(p, s.issued + 1, journal[a], e)]
  {
    var id := NoteOf(e).value.0;
    var a := s.subscriptions[id].activation;
    var followed := FollowAll(p, s.issued + 1, journal, e);
    var expected := journal[a := Follow(p, s.issued + 1, journal[a], e)];
    forall b | 0 <= b < |journal|
      ensures followed[b] == expected[b]
    {
      if b != a && journal[b].status.Open? {
        assert s.subscriptions[journal[b].subscriptionId].activation == b;
      }
    }
  }

  lemma OneToldMore(s: State, s': State, journal: seq<Track>, a: nat, t: Track, o: Output)
    requires Told(s, journal) && a < |journal| && s'.activations == s.activations && s'.log == s.log + [o]
    requires (o.Notified? || o.Unsubscribing?) && o.activation == a
    requires Story(a, t) == Story(a, journal[a]) + [o]
    ensures Told(s', journal[a := t])
  {
    forall b: nat
      ensures History(s'.log, b) == History(s.log, b) + (if b == a then [o] else [])
    {
      HistoryAppend(s.log, [o], b);
      HistoryOne(o, b);
    }
  }

  lemma TellDelivery(p: Platform, s: State, ledger: seq<Ticket>, journal: seq<Track>, e: Event)
    requires p.modulus > 0 && Matches(p, s, ledger, journal) && e.FromBack? && e.alive
    requires NoteOf(e).Some? && NoteOf(e).value.0 in s.subscriptions
    ensures Matches(p, Step(p, s, e), ledger, FollowAll(p, s.issued + 1, journal, e))
  {
    hide Agrees;
    var (id, item) := NoteOf(e).value;
    var a, s' := s.subscriptions[id].activation, Step(p, s, e);
    var t := journal[a].(items := journal[a].items + [item]);
    FollowOne(p, s, journal, e);
    NotesSnoc(a, journal[a].items, item);
    assert s' == Emit(s, [Notified(a, item)]);
    assert Story(a, t) == Story(a, journal[a]) + [Notified(a, item)];
    OneToldMore(s, s', journal, a, t, Notified(a, item));
  }

  lemma TellUnsubscribe(p: Platform, s: State, ledger: seq<Ticket>, journal: seq<Track>, e: Event)
    requires p.modulus > 0 && Agrees(p, s, ledger) && Matches(p, s, ledger, journal) && e.FromBack? && !e.alive
    requires NoteOf(e).Some? && NoteOf(e).value.0 in s.subscriptions
    ensures Matches(p, Step(p, s, e), ledger, FollowAll(p, s.issued + 1, journal, e))
  {
    var id := NoteOf(e).value.0;
    var a, s', serial := s.subscriptions[id].activation, Step(p, s, e), s.issued + 1;
    IncrementModulo(s.issued, p.modulus);
    var t := journal[a].(status := Unsubscribed(serial, serial % p.modulus));
    var o := Unsubscribing(a, Decimal(serial % p.modulus), t.unsubscribeMethod, id);
    FollowOne(p, s, journal, e);
    assert s' == Unsubscribe(p, s, id);
    assert s'.log == s.log + [o];
    assert Story(a, t) == Story(a, journal[a]) + [o];
    OneToldMore(s, s', journal, a, t, o);
    UnsubscribedServes(s, s', journal, a, t, id);
    UnsubscribedSeparate(p, s, s', ledger, journal, a, t);
  }

  lemma UnsubscribedServes(s: State, s': State, journal: seq<Track>, a: nat, t: Track, id: string)
    requires Serves(s, journal) && id in s.subscriptions && a == s.subscriptions[id].activation
    requires s'.subscriptions == s.subscriptions - {id} && !t.status.Open?
    ensures Serves(s', journal[a := t])
  {
    var journal' := journal[a := t];
    forall b | 0 <= b < |journal'| && journal'[b].status.Open?
      ensures journal'[b].subscriptionId in s'.subscriptions
      ensures s'.subscriptions[journal'[b].subscriptionId] == Active(b, journal'[b].unsubscribeMethod)
    {
      assert b != a && journal'[b] == journal[b];
      assert s.subscriptions[journal[b].subscriptionId].activation == b;
    }
  }

  lemma UnsubscribedSeparate(
      p: Platform, s: State, s': State, ledger: seq<Ticket>, journal: seq<Track>, a: nat, t: Track)
    requires p.modulus > 0 && Numbered(p, s, ledger) && SeparateSerials(p, s, ledger, journal) && a < |journal|
    requires s'.issued == s.issued + 1 && journal[a].status.Open?
    requires t.status == Unsubscribed(s'.issued, s'.issued % p.modulus)
    ensures SeparateSerials(p, s', ledger, journal[a := t])
  {
  }

  lemma TellNotification(p: Platform, s: State, ledger: seq<Ticket>, journal: seq<Track>, e: Event)
    requires p.modulus > 0 && Agrees(p, s, ledger) && Matches(p, s, ledger, journal) && NoteOf(e).Some?
    ensures Matches(p, Step(p, s, e), ledger, FollowAll(p, s.issued + 1, journal, e))
  {
    if NoteOf(e).value.0 !in s.subscriptions {
      FollowNothing(p, s.issued + 1, journal, e);
    } else if e.alive {
      TellDelivery(p, s, ledger, journal, e);
    } else {
      TellUnsubscribe(p, s, ledger, journal, e);
    }
  }

  // ---- an activation ----

  lemma ActivatedServes(s: State, s': State, journal: seq<Track>, id: string, unsubscribeMethod: string)
    requires Serves(s, journal) && s.activations == |journal|
    requires s'.subscriptions == s.subscriptions[id := Active(s.activations, unsubscribeMethod)]
    ensures Serves(s', ReplaceAll(journal, id) + [Track(id, unsubscribeMethod, [], Open)])
  {
    var journal' := ReplaceAll(journal, id) + [Track(id, unsubscribeMethod, [], Open)];
    forall a | 0 <= a < |journal'| && journal'[a].status.Open?
      ensures journal'[a].subscriptionId in s'.subscriptions
      ensures s'.subscriptions[journal'[a].subscriptionId] == Active(a, journal'[a].unsubscribeMethod)
    {
      if a < |journal| {
        assert journal'[a] == journal[a] && journal[a].subscriptionId != id;
      }
    }
    forall x | x in s'.subscriptions
      ensures
        var a := s'.subscriptions[x].activation;
        a < |journal'| && journal'[a].status.Open? && journal'[a].subscriptionId == x
    {
      if x != id {
        var a := s.subscriptions[x].activation;
        assert journal'[a] == journal[a];
      }
    }
  }

  lemma ActivatedTold(s: State, s': State, journal: seq<Track>, id: string, unsubscribeMethod: string, first: Output)
    requires Told(s, journal) && first.Answered?
    requires s'.activations == s.activations + 1 && s'.log == s.log + [first] + [Activated(s.activations, id)]
    ensures Told(s', ReplaceAll(journal, id) + [Track(id, unsubscribeMethod, [], Open)])
  {
    var n, o := |journal|, Activated(s.activations, id);
    forall a: nat
      ensures History(s'.log, a) == History(s.log, a) + (if a == n then [o] else [])
    {
      HistoryAppend(s.log + [first], [o], a);
      HistoryAppend(s.log, [first], a);
      HistoryOne(first, a);
      HistoryOne(o, a);
    }
    var journal' := ReplaceAll(journal, id) + [Track(id, unsubscribeMethod, [], Open)];
    forall a | 0 <= a < |journal'|
      ensures History(s'.log, a) == Story(a, journal'[a])
    {
      if a < n {
        assert Story(a, journal'[a]) == Story(a, journal[a]);
      } else {
        assert Story(n, journal'[n]) == [o];
      }
    }
  }

  lemma ActivationEffect(p: Platform, s: State, id: nat, result: Raw)
    requires id !in s.requests && id in s.pendingSubscriptions && p.asString(result).Some?
    ensures
      var s', subscriptionId := HandleMethod(p, s, id, result, true), p.asString(result).value;
      var pending := s.pendingSubscriptions[id];
      && s'.subscriptions == s.subscriptions[subscriptionId := Active(s.activations, pending.unsubscribeMethod)]
      && s'.activations == s.activations + 1 && s'.issued == s.issued
      && s'.log == s.log + [Answered(pending.channel, Subscribed(subscriptionId), true)]
                   + [Activated(s.activations, subscriptionId)]
  {
  }

  lemma ToldCounts(s: State, journal: seq<Track>)
    requires Told(s, journal)
    ensures s.activations == |journal|
  {
  }

  lemma TellActivation(p: Platform, s: State, ledger: seq<Ticket>, journal: seq<Track>, id: nat, result: Raw)
    requires p.modulus > 0 && Matches(p, s, ledger, journal)
    requires id !in s.requests && id in s.pendingSubscriptions && p.asString(result).Some?
    ensures
      var subscriptionId := p.asString(result).value;
      Matches(p, HandleMethod(p, s, id, result, true), ledger,
              ReplaceAll(journal, subscriptionId)
              + [Track(subscriptionId, s.pendingSubscriptions[id].unsubscribeMethod, [], Open)])
  {
    hide Serves, Told, HandleMethod;
    ToldCounts(s, journal);
    ActivationEffect(p, s, id, result);
    var s' := HandleMethod(p, s, id, result, true);
    var subscriptionId, pending := p.asString(result).value, s.pendingSubscriptions[id];
    ActivatedServes(s, s', journal, subscriptionId, pending.unsubscribeMethod);
    ActivatedTold(s, s', journal, subscriptionId, pending.unsubscribeMethod,
                  Answered(pending.channel, Subscribed(subscriptionId), true));
  }

  /** Settling tickets leaves serials alone. */
  lemma AdvancedSeparate(p: Platform, s: State, ledger: seq<Ticket>, journal: seq<Track>, e: Event)
    requires p.modulus > 0 && Matches(p, s, ledger, journal)
    ensures Matches(p, s, AdvanceAll(p, ledger, e), journal)
  {
  }

  lemma ReplyTellsNothing(p: Platform, s: State, ledger: seq<Ticket>, journal: seq<Track>, e: Event)
    requires p.modulus > 0 && Agrees(p, s, ledger) && Matches(p, s, ledger, journal)
    requires e.FromBack? && NoteOf(e).None? && Activation(p, ledger, e).None? && Clear(p, s, ledger, e)
    ensures Matches(p, Step(p, s, e), ExtendLedger(p, s, ledger, e), ExtendJournal(p, s, ledger, journal, e))
  {
    FollowNothing(p, s.issued + 1, journal, e);
    assert ExtendLedger(p, s, ledger, e) == AdvanceAll(p, ledger, e);
    assert ExtendJournal(p, s, ledger, journal, e) == journal;
    if ResponseId(p, e.response).Some? {
      ReplyEffect(p, s, ledger, e);
      ReplyNothingTold(p, s, Step(p, s, e), ledger, AdvanceAll(p, ledger, e), journal);
    } else {
      assert Step(p, s, e) == s;
      AdvancedSeparate(p, s, ledger, journal, e);
    }
  }

  lemma ReplyNothingTold(
      p: Platform, s: State, s': State, ledger: seq<Ticket>, ledger': seq<Ticket>, journal: seq<Track>)
    requires p.modulus > 0 && Matches(p, s, ledger, journal)
    requires ReportsAtMost(s, s')
    requires |ledger'| == |ledger| && forall c :: 0 <= c < |ledger| ==> ledger'[c].serial == ledger[c].serial
    ensures Matches(p, s', ledger', journal)
  {
    NothingTold(p, s, s', ledger, ledger', journal, s'.log[|s.log|..]);
  }

  /** No subscription is touched, and at most one outcome is reported. */
  ghost predicate ReportsAtMost(s: State, s': State) {
    && s'.subscriptions == s.subscriptions && s'.activations == s.activations && s'.issued == s.issued
    && s.log <= s'.log && |s'.log| <= |s.log| + 1
    && (|s'.log| > |s.log| ==> s'.log[|s.log|].Answered? || s'.log[|s.log|].Dropped?)
  }

  lemma MethodEffect(p: Platform, s: State, id: nat, result: Raw, alive: bool)
    requires !(alive && id !in s.requests && id in s.pendingSubscriptions && p.asString(result).Some?)
    ensures ReportsAtMost(s, HandleMethod(p, s, id, result, alive))
  {
  }

  /** A response that activates nothing. */
  lemma ReplyEffect(p: Platform, s: State, ledger: seq<Ticket>, e: Event)
    requires p.modulus > 0 && Agrees(p, s, ledger)
    requires e.FromBack? && Clear(p, s, ledger, e) && ResponseId(p, e.response).Some? && Activation(p, ledger, e).None?
    ensures ReportsAtMost(s, Step(p, s, e))
  {
    hide Agrees, AtMostOneWaits, Activation, HandleMethod;
    var id := ResponseId(p, e.response).value;
    match e.response.value
    case Method(idText, result) =>
      ActivationMatches(p, s, ledger, id, idText, result, e.alive);
      MethodEffect(p, s, id, result, e.alive);
    case MethodError(_, _) =>
  }

  lemma TellActivating(p: Platform, s: State, ledger: seq<Ticket>, journal: seq<Track>, e: Event)
    requires p.modulus > 0 && Agrees(p, s, ledger) && Matches(p, s, ledger, journal)
    requires e.FromBack? && Clear(p, s, ledger, e) && Activation(p, ledger, e).Some?
    ensures Matches(p, Step(p, s, e), ExtendLedger(p, s, ledger, e), ExtendJournal(p, s, ledger, journal, e))
  {
    var result, id := e.response.value.result, ResponseId(p, e.response).value;
    ActivationMatches(p, s, ledger, id, e.response.value.id, result, e.alive);
    AdvancedSeparate(p, s, ledger, journal, e);
    TellActivation(p, s, AdvanceAll(p, ledger, e), journal, id, result);
  }

  lemma TellNoting(p: Platform, s: State, ledger: seq<Ticket>, journal: seq<Track>, e: Event)
    requires p.modulus > 0 && Agrees(p, s, ledger) && Matches(p, s, ledger, journal)
    requires e.FromBack? && NoteOf(e).Some?
    ensures Matches(p, Step(p, s, e), ExtendLedger(p, s, ledger, e), ExtendJournal(p, s, ledger, journal, e))
  {
    AdvanceUntracked(p, s, ledger, e);
    NoteActivatesNothing(p, ledger, e);
    assert ExtendLedger(p, s, ledger, e) == ledger;
    assert ExtendJournal(p, s, ledger, journal, e) == FollowAll(p, s.issued + 1, journal, e);
    TellNotification(p, s, ledger, journal, e);
  }

  lemma NoteActivatesNothing(p: Platform, ledger: seq<Ticket>, e: Event)
    requires NoteOf(e).Some?
    ensures Activation(p, ledger, e).None?
  {
  }

  lemma TellBack(p: Platform, s: State, ledger: seq<Ticket>, journal: seq<Track>, e: Event)
    requires p.modulus > 0 && Agrees(p, s, ledger) && Matches(p, s, ledger, journal)
    requires e.FromBack? && Clear(p, s, ledger, e)
    ensures Matches(p, Step(p, s, e), ExtendLedger(p, s, ledger, e), ExtendJournal(p, s, ledger, journal, e))
  {
    if Activation(p, ledger, e).Some? {
      TellActivating(p, s, ledger, journal, e);
    } else if NoteOf(e).Some? {
      TellNoting(p, s, ledger, journal, e);
    } else {
      ReplyTellsNothing(p, s, ledger, journal, e);
    }
  }

  lemma TellFront(p: Platform, s: State, ledger: seq<Ticket>, journal: seq<Track>, e: Event)
    requires p.modulus > 0 && Agrees(p, s, ledger) && Matches(p, s, ledger, journal)
    requires e.FromFront? && FreeId(p, s, ledger, e)
    ensures Matches(p, Step(p, s, e), ExtendLedger(p, s, ledger, e), ExtendJournal(p, s, ledger, journal, e))
  {
    hide Reported, Numbered, Tracks;
    var s' := Step(p, s, e);
    FreeIdInMaps(p, s, ledger, e);
    FrontOfFresh(p, s, e);
    FrontKeepsSubscriptions(p, s, e);
    FollowNothing(p, s.issued + 1, journal, e);
    NothingTold(p, s, s', ledger, ledger + [NewTicket(p, s, e)], journal, [s'.log[|s.log|]]);
  }

  lemma FrontKeepsSubscriptions(p: Platform, s: State, e: Event)
    requires p.modulus > 0 && e.FromFront?
    ensures Step(p, s, e).subscriptions == s.subscriptions && Step(p, s, e).activations == s.activations
  {
    match e.message
    case Request(_, _) =>
    case Subscription(_, _, _) =>
  }

  // ---- every run ----

  /** Main result: over every run without an ambiguous turn, what the task did for
      each activation is what its track says, and the map of active subscriptions holds
      exactly the open tracks. */
  lemma {:induction false} TaskMatchesJournal(p: Platform, events: seq<Event>)
    requires p.modulus > 0 && AllClear(p, events)
    ensures Matches(p, Run(p, events), Ledger(p, events), Journal(p, events))
    decreases |events|
  {
    if events != [] {
      var before, e := events[..|events| - 1], events[|events| - 1];
      TaskMatchesJournal(p, before);
      TaskAgreesWithLedger(p, before);
      if e.FromFront? {
        TellFront(p, Run(p, before), Ledger(p, before), Journal(p, before), e);
      } else {
        TellBack(p, Run(p, before), Ledger(p, before), Journal(p, before), e);
      }
    } else {
      assert History([], 0) == [];
    }
  }

  /** Each activation causes at most one unsubscribe request, and it is the last thing done
      for that activation. */
  lemma AtMostOneUnsubscribe(p: Platform, events: seq<Event>, a: nat, i: nat)
    requires p.modulus > 0 && AllClear(p, events) && a < |Journal(p, events)|
    requires i < |History(Run(p, events).log, a)| && History(Run(p, events).log, a)[i].Unsubscribing?
    ensures i == |History(Run(p, events).log, a)| - 1
    ensures Journal(p, events)[a].status.Unsubscribed?
  {
    TaskMatchesJournal(p, events);
    assert History(Run(p, events).log, a) == Story(a, Journal(p, events)[a]);
  }

  // ---- the journal in plain words ----

  /** The contents of all notifications for a subscription id, in order. */
  function Heard(events: seq<Event>, subscriptionId: string): seq<Item> {
    if events == [] then []
    else
      var rest, note := Heard(events[..|events| - 1], subscriptionId), NoteOf(events[|events| - 1]);
      if note.Some? && note.value.0 == subscriptionId then rest + [note.value.1] else rest
  }

  predicate Notifies(e: Event, subscriptionId: string) {
    NoteOf(e).Some? && NoteOf(e).value.0 == subscriptionId
  }

  /** The subscription id that each event activates, if it activates one. */
  function ActivatedIds(p: Platform, events: seq<Event>): (out: seq<Option<string>>)
    requires p.modulus > 0
    ensures |out| == |events|
  {
    if events == [] then []
    else
      var before := events[..|events| - 1];
      ActivatedIds(p, before) + [IdOf(Activation(p, Ledger(p, before), events[|events| - 1]))]
  }

  /** The track was open for the events between `from` and `to`; `ids` lists what each event
      activates. In between, nothing takes over the id or finds the receiver gone. */
  ghost predicate Spans(events: seq<Event>, ids: seq<Option<string>>, t: Track, from: nat, to: nat) {
    && from < to <= |events| == |ids|
    && ids[from] == Some(t.subscriptionId)
    && t.items == Heard(events[from + 1..to], t.subscriptionId)
    && (forall i :: from < i < to ==>
          ids[i] != Some(t.subscriptionId) && (Notifies(events[i], t.subscriptionId) ==> events[i].alive))
    && match t.status
       case Open => to == |events|
       case Replaced => to < |events| && ids[to] == Some(t.subscriptionId)
       case Unsubscribed(_, _) => to < |events| && Notifies(events[to], t.subscriptionId) && !events[to].alive
  }

  lemma SpansLater(
      events: seq<Event>, ids: seq<Option<string>>, e: Event, id: Option<string>, t: Track, from: nat, to: nat)
    requires Spans(events, ids, t, from, to) && !t.status.Open?
    ensures Spans(events + [e], ids + [id], t, from, to)
  {
    assert (events + [e])[from + 1..to] == events[from + 1..to];
  }

  /** A track begins with the event that activates its id. */
  lemma SpansFrom(events: seq<Event>, ids: seq<Option<string>>, e: Event, id: Option<string>, t: Track)
    requires |events| == |ids| && id == Some(t.subscriptionId) && t.items == [] && t.status.Open?
    ensures Spans(events + [e], ids + [id], t, |events|, |events| + 1)
  {
  }

  /** One more event for an open track, which stays open... */
  lemma SpansOn(
      events: seq<Event>, ids: seq<Option<string>>, e: Event, id: Option<string>, t: Track, t': Track, from: nat)
    requires Spans(events, ids, t, from, |events|) && t.status.Open?
    requires id != Some(t.subscriptionId) && (Notifies(e, t.subscriptionId) ==> e.alive)
    requires t' == t.(items := t.items + if Notifies(e, t.subscriptionId) then [NoteOf(e).value.1] else [])
    ensures Spans(events + [e], ids + [id], t', from, |events| + 1)
  {
    var heard := events[from + 1..];
    assert (events + [e])[from + 1..|events| + 1] == heard + [e];
    assert (heard + [e])[..|heard|] == heard && events[from + 1..|events|] == heard;
  }

  /** ... or is closed by it. */
  lemma SpansUntil(
      events: seq<Event>, ids: seq<Option<string>>, e: Event, id: Option<string>, t: Track, t': Track, from: nat)
    requires Spans(events, ids, t, from, |events|) && t.status.Open?
    requires t' == t.(status := t'.status)
    requires match t'.status
      case Open => false
      case Replaced => id == Some(t.subscriptionId)
      case Unsubscribed(_, _) => Notifies(e, t.subscriptionId) && !e.alive
    ensures Spans(events + [e], ids + [id], t', from, |events|)
  {
    assert (events + [e])[from + 1..|events|] == events[from + 1..|events|];
  }

  function IdOf(activation: Option<(string, string)>): Option<string> {
    if activation.Some? then Some(activation.value.0) else None
  }

  lemma ExtendedTrack(p: Platform, s: State, ledger: seq<Ticket>, journal: seq<Track>, e: Event, a: nat)
    requires p.modulus > 0 && a < |ExtendJournal(p, s, ledger, journal, e)|
    ensures
      var t', id := ExtendJournal(p, s, ledger, journal, e)[a], IdOf(Activation(p, ledger, e));
      if a < |journal| then
        t' == match id case Some(x) => Replace(journal[a], x) case None => Follow(p, s.issued + 1, journal[a], e)
      else id == Some(t'.subscriptionId) && t'.items == [] && t'.status.Open?
    ensures IdOf(Activation(p, ledger, e)).Some? ==> NoteOf(e).None?
  {
  }

  /** What each track has collected, without reference to any state: everything heard for its
      id from its activation on, up to the first notification that finds the receiver gone or
      the next activation of the same id, whichever comes first. */
  lemma {:induction false} TrackSpans(p: Platform, events: seq<Event>, a: nat) returns (from: nat, to: nat)
    requires p.modulus > 0 && a < |Journal(p, events)|
    ensures Spans(events, ActivatedIds(p, events), Journal(p, events)[a], from, to)
    decreases |events|
  {
    hide Run, Ledger, Spans, ExtendLedger, Step, Activation, ExtendJournal, IdOf, Follow, Replace;
    var n := |events| - 1;
    var before, e := events[..n], events[n];
    var s, ledger, journal, ids := Run(p, before), Ledger(p, before), Journal(p, before), ActivatedIds(p, before);
    var id, t' := IdOf(Activation(p, ledger, e)), Journal(p, events)[a];
    assert events == before + [e] && ActivatedIds(p, events) == ids + [id];
    ExtendedTrack(p, s, ledger, journal, e, a);
    if a < |journal| {
      from, to := TrackSpans(p, before, a);
      to := TrackSpansNext(p, s.issued + 1, before, ids, e, id, journal[a], t', from, to);
    } else {
      from, to := n, n + 1;
      SpansFrom(before, ids, e, id, t');
    }
  }

  lemma TrackSpansNext(
      p: Platform, serial: nat, events: seq<Event>, ids: seq<Option<string>>, e: Event, id: Option<string>,
      t: Track, t': Track, from: nat, to: nat)
    returns (to': nat)
    requires p.modulus > 0 && Spans(events, ids, t, from, to)
    requires id.Some? ==> NoteOf(e).None?
    requires t' == match id case Some(x) => Replace(t, x) case None => Follow(p, serial, t, e)
    ensures Spans(events + [e], ids + [id], t', from, to')
  {
    to' := to;
    if !t.status.Open? {
      SpansLater(events, ids, e, id, t, from, to);
    } else if t'.status.Open? {
      SpansOn(events, ids, e, id, t, t', from);
      to' := to + 1;
    } else {
      SpansUntil(events, ids, e, id, t, t', from);
    }
  }

  /** A response changes nothing exactly when no message waits for its id. */
  lemma IgnoredExactlyWhen(p: Platform, s: State, ledger: seq<Ticket>, e: Event, id: nat)
    requires p.modulus > 0 && Agrees(p, s, ledger) && Carries(p, e, id)
    ensures Step(p, s, e) == s <==> FindWaiting(ledger, id).None?
  {
    hide Reported, Numbered;
    FindWaitingFinds(ledger, id);
    if FindWaiting(ledger, id).Some? {
      var c := FindWaiting(ledger, id).value;
      if ledger[c].message.Request? {
        assert WaitsAsRequest(s, ledger[c], c);
      } else {
        assert WaitsAsSubscription(s, ledger[c], c);
      }
      assert |Step(p, s, e).log| > |s.log|;
    } else {
      assert id !in s.requests && id !in s.pendingSubscriptions;
    }
  }

  /** A response to an unsubscribe request settles nothing and activates nothing, exactly as
      long as no message waits for the id of that request. */
  lemma UnsubscribeResponseIsIgnored(p: Platform, events: seq<Event>, a: nat, e: Event)
    requires p.modulus > 0 && AllClear(p, events) && a < |Journal(p, events)|
    requires Journal(p, events)[a].status.Unsubscribed?
    requires Carries(p, e, Journal(p, events)[a].status.id)
    ensures Step(p, Run(p, events), e) == Run(p, events)
       <==> FindWaiting(Ledger(p, events), Journal(p, events)[a].status.id).None?
  {
    TaskAgreesWithLedger(p, events);
    IgnoredExactlyWhen(p, Run(p, events), Ledger(p, events), e, Journal(p, events)[a].status.id);
  }

  lemma SeparateSerialsSeparateIds(p: Platform, s: State, ledger: seq<Ticket>, journal: seq<Track>, a: nat)
    requires p.modulus > 0 && s.issued <= p.modulus && Numbered(p, s, ledger) && SeparateSerials(p, s, ledger, journal)
    requires a < |journal| && journal[a].status.Unsubscribed?
    ensures forall c :: 0 <= c < |ledger| ==> ledger[c].id != journal[a].status.id
  {
    forall c | 0 <= c < |ledger|
      ensures ledger[c].id != journal[a].status.id
    {
      var x, y := ledger[c].serial, journal[a].status.serial;
      SerialsDecideIds(if x < y then x else y, if x < y then y else x, p.modulus);
    }
  }

  /** While ids do not wrap around none does: the id was never given to a message. */
  lemma UnsubscribeIdIsItsOwn(p: Platform, events: seq<Event>, a: nat)
    requires p.modulus > 0 && Run(p, events).issued <= p.modulus && a < |Journal(p, events)|
    requires Journal(p, events)[a].status.Unsubscribed?
    ensures forall c :: 0 <= c < |Ledger(p, events)| ==> Ledger(p, events)[c].id != Journal(p, events)[a].status.id
    ensures FindWaiting(Ledger(p, events), Journal(p, events)[a].status.id).None?
  {
    hide Run, Ledger, Journal;
    FewIdsAreClear(p, events);
    TaskMatchesJournal(p, events);
    TaskAgreesWithLedger(p, events);
    SeparateSerialsSeparateIds(p, Run(p, events), Ledger(p, events), Journal(p, events), a);
    FindWaitingFinds(Ledger(p, events), Journal(p, events)[a].status.id);
  }
}
