/** Replies, over every run of the background task. The reference is a ledger with one ticket
    per message, which knows nothing of the task's maps: a ticket waits until the first
    response that carries its id, and that response alone settles it. As long as no id
    is reused while a message waits for it, the task does exactly what the ledger says. */
module LightClientReplies {
  import opened Lists
  import opened Options
  import opened RpcIds
  import opened LightClient

  datatype Fate = Waiting | Settled(answer: Answer, received: bool) | Lost

  /** `serial` counts the ids issued up to and including this one. */
  datatype Ticket = Ticket(message: Message, id: nat, serial: nat, fate: Fate)

  /** The id a response carries, if it carries a readable one. */
  function ResponseId(p: Platform, response: Option<RpcResponse>): Option<nat> {
    match response
    case Some(Method(id, _)) => ParseUsize(id, p.modulus)
    case Some(MethodError(id, _)) => ParseUsize(id, p.modulus)
    case _ => None
  }

  /** What a response means for the message whose id it carries. */
  function Settle(p: Platform, message: Message, response: RpcResponse, alive: bool): Fate
    requires response.Method? || response.MethodError?
  {
    match response
    case MethodError(_, error) => Settled(JsonRpcError(error), alive)
    case Method(_, result) =>
      if message.Request? then Settled(Value(result), alive)
      else match p.asString(result)
        case Some(subscriptionId) => Settled(Subscribed(subscriptionId), alive)
        case None => Lost
  }

  function Advance(p: Platform, t: Ticket, e: Event): Ticket {
    if t.fate.Waiting? && e.FromBack? && ResponseId(p, e.response) == Some(t.id)
    then t.(fate := Settle(p, t.message, e.response.value, e.alive))
    else t
  }

  function AdvanceAll(p: Platform, ledger: seq<Ticket>, e: Event): (out: seq<Ticket>)
    ensures |out| == |ledger|
    ensures forall c :: 0 <= c < |ledger| ==> out[c] == Advance(p, ledger[c], e)
  {
    seq(|ledger|, c requires 0 <= c < |ledger| => Advance(p, ledger[c], e))
  }

  function NewTicket(p: Platform, s: State, e: Event): Ticket
    requires p.modulus > 0 && e.FromFront?
  {
    var t := NextId(p, s);
    Ticket(e.message, t.lastRequestId, t.issued,
           if e.rejection.Some? then Settled(SmoldotError(e.rejection.value), e.alive) else Waiting)
  }

  function ExtendLedger(p: Platform, s: State, ledger: seq<Ticket>, e: Event): seq<Ticket>
    requires p.modulus > 0
  {
    if e.FromFront? then ledger + [NewTicket(p, s, e)] else AdvanceAll(p, ledger, e)
  }

  function Ledger(p: Platform, events: seq<Event>): seq<Ticket>
    requires p.modulus > 0
  {
    if events == [] then []
    else
      var before := events[..|events| - 1];
      ExtendLedger(p, Run(p, before), Ledger(p, before), events[|events| - 1])
  }

  function IsOutcomeOf(channel: nat): Output -> bool {
    (o: Output) => (o.Answered? || o.Dropped?) && o.channel == channel
  }

  /** Everything the task did with one reply channel, in order. */
  function Outcomes(log: seq<Output>, channel: nat): seq<Output> {
    Filter(IsOutcomeOf(channel), log)
  }

  function Implied(channel: nat, fate: Fate): seq<Output> {
    match fate
    case Waiting => []
    case Settled(answer, received) => [Answered(channel, answer, received)]
    case Lost => [Dropped(channel)]
  }

  ghost predicate WaitsAsRequest(s: State, t: Ticket, c: nat) {
    t.id in s.requests && s.requests[t.id] == c
  }

  ghost predicate WaitsAsSubscription(s: State, t: Ticket, c: nat) {
    && t.message.Subscription?
    && t.id in s.pendingSubscriptions
    && s.pendingSubscriptions[t.id] == Pending(c, t.message.unsubscribeMethod)
  }

  /** The maps of the task hold the waiting tickets under their ids, and nothing else. */
  ghost predicate Tracks(s: State, ledger: seq<Ticket>) {
    && (forall c :: 0 <= c < |ledger| && ledger[c].fate.Waiting? ==>
          if ledger[c].message.Request? then WaitsAsRequest(s, ledger[c], c) else WaitsAsSubscription(s, ledger[c], c))
    && (forall id :: id in s.requests ==>
          var c := s.requests[id];
          c < |ledger| && ledger[c].fate.Waiting? && ledger[c].message.Request? && ledger[c].id == id)
    && (forall id :: id in s.pendingSubscriptions ==>
          var c := s.pendingSubscriptions[id].channel;
          c < |ledger| && ledger[c].fate.Waiting? && ledger[c].message.Subscription? && ledger[c].id == id)
  }

  /** Serials grow along the ledger, and ids are serials modulo the width of an id. */
  ghost predicate Numbered(p: Platform, s: State, ledger: seq<Ticket>)
    requires p.modulus > 0
  {
    && s.lastRequestId == s.issued % p.modulus
    && (forall c :: 0 <= c < |ledger| ==>
          1 <= ledger[c].serial <= s.issued && ledger[c].id == ledger[c].serial % p.modulus)
    && (forall c, d :: 0 <= c < d < |ledger| ==> ledger[c].serial < ledger[d].serial)
  }

  ghost predicate Reported(s: State, ledger: seq<Ticket>) {
    && s.handled == |ledger|
    && (forall c :: 0 <= c < |ledger| ==> Outcomes(s.log, c) == Implied(c, ledger[c].fate))
    && (forall c :: c >= |ledger| ==> Outcomes(s.log, c) == [])
  }

  ghost predicate Agrees(p: Platform, s: State, ledger: seq<Ticket>)
    requires p.modulus > 0
  {
    Tracks(s, ledger) && Numbered(p, s, ledger) && Reported(s, ledger)
  }

  // ---- reused ids ----

  /** The message gets an id that no waiting message of its own kind has. */
  ghost predicate FreeId(p: Platform, s: State, ledger: seq<Ticket>, e: Event)
    requires p.modulus > 0 && e.FromFront?
  {
    forall c :: 0 <= c < |ledger| && ledger[c].fate.Waiting? && ledger[c].message.Request? == e.message.Request? ==>
      ledger[c].id != NextId(p, s).lastRequestId
  }

  ghost predicate AtMostOneWaits(ledger: seq<Ticket>, id: nat) {
    forall c, d :: 0 <= c < d < |ledger| && ledger[c].fate.Waiting? && ledger[d].fate.Waiting? ==>
      ledger[c].id != id || ledger[d].id != id
  }

  /** No id is ambiguous in this turn: a message gets a free one, and a response carries one that
      at most one message waits for. */
  ghost predicate Clear(p: Platform, s: State, ledger: seq<Ticket>, e: Event)
    requires p.modulus > 0
  {
    if e.FromFront? then FreeId(p, s, ledger, e)
    else match ResponseId(p, e.response)
      case Some(id) => AtMostOneWaits(ledger, id)
      case None => true
  }

  /** No turn of the run was ambiguous. */
  ghost predicate AllClear(p: Platform, events: seq<Event>)
    requires p.modulus > 0
  {
    events == [] ||
    var before, e := events[..|events| - 1], events[|events| - 1];
    AllClear(p, before) && Clear(p, Run(p, before), Ledger(p, before), e)
  }

  // ---- ids ----

  lemma IncrementModulo(n: nat, m: nat)
    requires m > 0
    ensures (n % m + 1) % m == (n + 1) % m
  {
    var q, r := n / m, n % m;
    assert n == q * m + r;
    if r + 1 < m {
      Residue(n + 1, m, q, r + 1);
      Residue(r + 1, m, 0, r + 1);
    } else {
      assert n + 1 == (q + 1) * m;
      Residue(n + 1, m, q + 1, 0);
      Residue(r + 1, m, 1, 0);
    }
  }

  lemma Residue(n: nat, m: nat, q: nat, r: nat)
    requires m > 0 && r < m && n == q * m + r
    ensures n % m == r
  {
    var q' := n / m;
    assert n == q' * m + n % m;
    assert (q' - q) * m == r - n % m;
    SmallMultiple(q' - q, m);
  }

  /** The only multiple of `m` strictly between `-m` and `m` is zero. */
  lemma SmallMultiple(k: int, m: int)
    requires -m < k * m < m
    ensures k == 0
  {
  }

  /** Among the first `modulus` serials no two have the same id. */
  lemma SerialsDecideIds(a: nat, b: nat, m: nat)
    requires 1 <= a < b <= m
    ensures a % m != b % m
  {
    Residue(a, m, 0, a);
    if b == m {
      Residue(b, m, 1, 0);
    } else {
      Residue(b, m, 0, b);
    }
  }

  // ---- outcomes ----

  lemma OutcomesAppend(log: seq<Output>, more: seq<Output>, c: nat)
    ensures Outcomes(log + more, c) == Outcomes(log, c) + Outcomes(more, c)
  {
    FilterAppend(IsOutcomeOf(c), log, more);
  }

  lemma OutcomesOne(o: Output, c: nat)
    ensures Outcomes([o], c) == if (o.Answered? || o.Dropped?) && o.channel == c then [o] else []
  {
    FilterOne(IsOutcomeOf(c), o);
  }

  // ---- one step ----

  /** A turn that touches neither the reply maps nor the ledger. */
  lemma NothingSettled(p: Platform, s: State, s': State, ledger: seq<Ticket>, outputs: seq<Output>)
    requires p.modulus > 0 && Agrees(p, s, ledger)
    requires s'.requests == s.requests && s'.pendingSubscriptions == s.pendingSubscriptions
    requires s'.handled == s.handled && s'.log == s.log + outputs
    requires s'.issued >= s.issued && s'.lastRequestId == s'.issued % p.modulus
    requires forall o :: o in outputs ==> !o.Answered? && !o.Dropped?
    ensures Agrees(p, s', ledger)
  {
    forall c: nat
      ensures Outcomes(s'.log, c) == Outcomes(s.log, c)
    {
      OutcomesAppend(s.log, outputs, c);
      NoOutcomes(outputs, c);
    }
  }

  lemma NoOutcomes(outputs: seq<Output>, c: nat)
    requires forall o :: o in outputs ==> !o.Answered? && !o.Dropped?
    ensures Outcomes(outputs, c) == []
  {
    FilterNone(IsOutcomeOf(c), outputs);
  }

  /** A response settles the one waiting ticket that has its id. */
  lemma AdvanceTracked(p: Platform, s: State, ledger: seq<Ticket>, e: Event, c: nat)
    requires p.modulus > 0 && Agrees(p, s, ledger)
    requires c < |ledger| && ledger[c].fate.Waiting? && e.FromBack? && ResponseId(p, e.response) == Some(ledger[c].id)
    requires AtMostOneWaits(ledger, ledger[c].id)
    ensures AdvanceAll(p, ledger, e) == ledger[c := Advance(p, ledger[c], e)]
  {
    forall d | 0 <= d < |ledger|
      ensures AdvanceAll(p, ledger, e)[d] == ledger[c := Advance(p, ledger[c], e)][d]
    {
      assert d != c && ledger[d].fate.Waiting? ==> ledger[d].id != ledger[c].id;
    }
  }

  lemma AdvanceUntracked(p: Platform, s: State, ledger: seq<Ticket>, e: Event)
    requires p.modulus > 0 && Agrees(p, s, ledger)
    requires e.FromBack? ==>
      match ResponseId(p, e.response)
      case Some(n) => n !in s.requests && n !in s.pendingSubscriptions
      case None => true
    requires e.FromBack?
    ensures AdvanceAll(p, ledger, e) == ledger
  {
  }

  lemma SettledTracks(p: Platform, s: State, s': State, ledger: seq<Ticket>, c: nat, fate: Fate)
    requires p.modulus > 0 && Tracks(s, ledger)
    requires c < |ledger| && ledger[c].fate.Waiting? && !fate.Waiting? && AtMostOneWaits(ledger, ledger[c].id)
    requires s'.requests == s.requests - {ledger[c].id}
    requires s'.pendingSubscriptions == s.pendingSubscriptions - {ledger[c].id}
    ensures Tracks(s', ledger[c := ledger[c].(fate := fate)])
  {
    var ledger' := ledger[c := ledger[c].(fate := fate)];
    forall d | 0 <= d < |ledger'| && ledger'[d].fate.Waiting?
      ensures ledger'[d].id != ledger[c].id
    {
      assert ledger'[d] == ledger[d];
    }
    forall d | 0 <= d < |ledger'| && ledger'[d].fate.Waiting?
      ensures
        if ledger'[d].message.Request? then WaitsAsRequest(s', ledger'[d], d)
        else WaitsAsSubscription(s', ledger'[d], d)
    {
      assert ledger'[d] == ledger[d];
    }
  }

  lemma SettledReported(s: State, s': State, ledger: seq<Ticket>, c: nat, fate: Fate, more: seq<Output>)
    requires Reported(s, ledger) && c < |ledger| && ledger[c].fate.Waiting?
    requires s'.handled == s.handled && s'.log == s.log + (Implied(c, fate) + more)
    requires forall o :: o in more ==> !o.Answered? && !o.Dropped?
    ensures Reported(s', ledger[c := ledger[c].(fate := fate)])
  {
    forall d: nat
      ensures Outcomes(s'.log, d) == if d == c then Implied(c, fate) else Outcomes(s.log, d)
    {
      OutcomesAppend(s.log, Implied(c, fate) + more, d);
      OutcomesAppend(Implied(c, fate), more, d);
      NoOutcomes(more, d);
      OutcomesImplied(c, fate, d);
    }
  }

  lemma OutcomesImplied(c: nat, fate: Fate, d: nat)
    ensures Outcomes(Implied(c, fate), d) == if d == c then Implied(c, fate) else []
  {
    match fate
    case Waiting =>
    case Settled(answer, received) => OutcomesOne(Answered(c, answer, received), d);
    case Lost => OutcomesOne(Dropped(c), d);
  }

  /** The ticket's entry leaves its map and its fate is reported. */
  lemma TicketSettled(p: Platform, s: State, s': State, ledger: seq<Ticket>, c: nat, fate: Fate, more: seq<Output>)
    requires p.modulus > 0 && Agrees(p, s, ledger)
    requires c < |ledger| && ledger[c].fate.Waiting? && !fate.Waiting? && AtMostOneWaits(ledger, ledger[c].id)
    requires s'.lastRequestId == s.lastRequestId && s'.issued == s.issued && s'.handled == s.handled
    requires s'.requests == s.requests - {ledger[c].id}
    requires s'.pendingSubscriptions == s.pendingSubscriptions - {ledger[c].id}
    requires s'.log == s.log + (Implied(c, fate) + more)
    requires forall o :: o in more ==> !o.Answered? && !o.Dropped?
    ensures Agrees(p, s', ledger[c := ledger[c].(fate := fate)])
  {
    SettledTracks(p, s, s', ledger, c, fate);
    SettledReported(s, s', ledger, c, fate, more);
  }

  /** An id that at most one message waits for is in at most one of the two reply maps. */
  lemma OneMapOnly(p: Platform, s: State, ledger: seq<Ticket>, id: nat)
    requires p.modulus > 0 && Agrees(p, s, ledger) && AtMostOneWaits(ledger, id)
    ensures !(id in s.requests && id in s.pendingSubscriptions)
  {
    if id in s.requests && id in s.pendingSubscriptions {
      OnlyOneHasId(ledger, id, s.requests[id], s.pendingSubscriptions[id].channel);
    }
  }

  lemma OnlyOneHasId(ledger: seq<Ticket>, id: nat, c: nat, d: nat)
    requires AtMostOneWaits(ledger, id) && c < |ledger| && d < |ledger| && c != d
    requires ledger[c].fate.Waiting? && ledger[d].fate.Waiting?
    ensures ledger[c].id != id || ledger[d].id != id
  {
  }

  lemma RequestSettled(p: Platform, s: State, ledger: seq<Ticket>, id: nat, answer: Answer, alive: bool)
    requires p.modulus > 0 && Agrees(p, s, ledger) && AtMostOneWaits(ledger, id) && id in s.requests
    ensures
      var c := s.requests[id];
      Agrees(p, Emit(s.(requests := s.requests - {id}), [Answered(c, answer, alive)]),
             ledger[c := ledger[c].(fate := Settled(answer, alive))])
  {
    OneMapOnly(p, s, ledger, id);
    var c, fate := s.requests[id], Settled(answer, alive);
    assert Implied(c, fate) + [] == [Answered(c, answer, alive)];
    assert s.pendingSubscriptions - {id} == s.pendingSubscriptions;
    TicketSettled(p, s, Emit(s.(requests := s.requests - {id}), [Answered(c, answer, alive)]), ledger, c, fate, []);
  }

  lemma SubscriptionSettled(
      p: Platform, s: State, s': State, ledger: seq<Ticket>, id: nat, fate: Fate, more: seq<Output>)
    requires p.modulus > 0 && Agrees(p, s, ledger) && AtMostOneWaits(ledger, id)
    requires id in s.pendingSubscriptions && !fate.Waiting?
    requires s'.lastRequestId == s.lastRequestId && s'.issued == s.issued && s'.handled == s.handled
    requires s'.requests == s.requests && s'.pendingSubscriptions == s.pendingSubscriptions - {id}
    requires s'.log == s.log + (Implied(s.pendingSubscriptions[id].channel, fate) + more)
    requires forall o :: o in more ==> !o.Answered? && !o.Dropped?
    ensures var c := s.pendingSubscriptions[id].channel; Agrees(p, s', ledger[c := ledger[c].(fate := fate)])
  {
    OneMapOnly(p, s, ledger, id);
    assert s.requests - {id} == s.requests;
    TicketSettled(p, s, s', ledger, s.pendingSubscriptions[id].channel, fate, more);
  }

  lemma StepMethod(p: Platform, s: State, ledger: seq<Ticket>, id: nat, result: Raw, alive: bool)
    requires p.modulus > 0 && Agrees(p, s, ledger) && AtMostOneWaits(ledger, id)
    requires id in s.requests || id in s.pendingSubscriptions
    ensures
      var c := if id in s.requests then s.requests[id] else s.pendingSubscriptions[id].channel;
      Agrees(p, HandleMethod(p, s, id, result, alive),
             ledger[c := ledger[c].(fate := Settle(p, ledger[c].message, Method("", result), alive))])
  {
    if id in s.requests {
      RequestSettled(p, s, ledger, id, Value(result), alive);
    } else {
      var c, s' := s.pendingSubscriptions[id].channel, HandleMethod(p, s, id, result, alive);
      var fate := Settle(p, ledger[c].message, Method("", result), alive);
      var more := if fate.Settled? && alive then [Activated(s.activations, p.asString(result).value)] else [];
      assert s'.log == s.log + (Implied(c, fate) + more);
      SubscriptionSettled(p, s, s', ledger, id, fate, more);
    }
  }

  lemma StepMethodError(p: Platform, s: State, ledger: seq<Ticket>, id: nat, error: Raw, alive: bool)
    requires p.modulus > 0 && Agrees(p, s, ledger) && AtMostOneWaits(ledger, id)
    requires id in s.requests || id in s.pendingSubscriptions
    ensures
      var c := if id in s.requests then s.requests[id] else s.pendingSubscriptions[id].channel;
      Agrees(p, HandleMethodError(s, id, error, alive),
             ledger[c := ledger[c].(fate := Settled(JsonRpcError(error), alive))])
  {
    if id in s.requests {
      RequestSettled(p, s, ledger, id, JsonRpcError(error), alive);
    } else {
      var c, fate := s.pendingSubscriptions[id].channel, Settled(JsonRpcError(error), alive);
      assert Implied(c, fate) + [] == [Answered(c, JsonRpcError(error), alive)];
      SubscriptionSettled(p, s, HandleMethodError(s, id, error, alive), ledger, id, fate, []);
    }
  }

  lemma StepReply(p: Platform, s: State, ledger: seq<Ticket>, e: Event)
    requires p.modulus > 0 && Agrees(p, s, ledger)
    requires e.FromBack? && ResponseId(p, e.response).Some? && Clear(p, s, ledger, e)
    ensures Agrees(p, Step(p, s, e), AdvanceAll(p, ledger, e))
  {
    hide Reported, Numbered;
    var id := ResponseId(p, e.response).value;
    if id !in s.requests && id !in s.pendingSubscriptions {
      AdvanceUntracked(p, s, ledger, e);
    } else {
      var c := if id in s.requests then s.requests[id] else s.pendingSubscriptions[id].channel;
      AdvanceTracked(p, s, ledger, e, c);
      match e.response.value
      case Method(_, result) => StepMethod(p, s, ledger, id, result, e.alive);
      case MethodError(_, error) => StepMethodError(p, s, ledger, id, error, e.alive);
    }
  }

  lemma StepOther(p: Platform, s: State, ledger: seq<Ticket>, e: Event)
    requires p.modulus > 0 && Agrees(p, s, ledger)
    requires e.FromBack? && ResponseId(p, e.response).None?
    ensures Agrees(p, Step(p, s, e), AdvanceAll(p, ledger, e))
  {
    AdvanceUntracked(p, s, ledger, e);
    if e.response.Some? {
      match e.response.value
      case Notification(_, subscriptionId, result) =>
        StepNotification(p, s, ledger, subscriptionId, OkItem(result), e.alive);
      case NotificationError(_, subscriptionId, error) =>
        StepNotification(p, s, ledger, subscriptionId, ErrItem(error), e.alive);
      case _ =>
    }
  }

  lemma StepNotification(p: Platform, s: State, ledger: seq<Ticket>, subscriptionId: string, item: Item, alive: bool)
    requires p.modulus > 0 && Agrees(p, s, ledger)
    ensures Agrees(p, HandleNotification(p, s, subscriptionId, item, alive), ledger)
  {
    if subscriptionId in s.subscriptions {
      var s' := HandleNotification(p, s, subscriptionId, item, alive);
      IncrementModulo(s.issued, p.modulus);
      NothingSettled(p, s, s', ledger, [s'.log[|s.log|]]);
    }
  }

  // ---- a new message ----

  /** A free id is not in the map that the message is put into. */
  lemma FreeIdInMaps(p: Platform, s: State, ledger: seq<Ticket>, e: Event)
    requires p.modulus > 0 && Agrees(p, s, ledger) && e.FromFront? && FreeId(p, s, ledger, e)
    ensures
      var id := NextId(p, s).lastRequestId;
      && id == (s.issued + 1) % p.modulus
      && if e.message.Request? then id !in s.requests else id !in s.pendingSubscriptions
  {
    IncrementModulo(s.issued, p.modulus);
  }

  /** As long as ids do not wrap around, no turn is ambiguous. */
  lemma FewIdsAreUnused(p: Platform, s: State, ledger: seq<Ticket>, e: Event)
    requires p.modulus > 0 && Numbered(p, s, ledger) && (if e.FromFront? then s.issued + 1 else s.issued) <= p.modulus
    ensures Clear(p, s, ledger, e)
  {
    IncrementModulo(s.issued, p.modulus);
    if e.FromFront? {
      forall c | 0 <= c < |ledger|
        ensures ledger[c].id != NextId(p, s).lastRequestId
      {
        SerialsDecideIds(ledger[c].serial, s.issued + 1, p.modulus);
      }
    } else {
      forall c, d | 0 <= c < d < |ledger|
        ensures ledger[c].id != ledger[d].id
      {
        SerialsDecideIds(ledger[c].serial, ledger[d].serial, p.modulus);
      }
    }
  }

  /** What a message does whose id its map does not hold. */
  lemma FrontOfFresh(p: Platform, s: State, e: Event)
    requires p.modulus > 0 && e.FromFront?
    requires
      var id := NextId(p, s).lastRequestId;
      if e.message.Request? then id !in s.requests else id !in s.pendingSubscriptions
    ensures
      var s', id := Step(p, s, e), NextId(p, s).lastRequestId;
      && s'.lastRequestId == id && s'.issued == s.issued + 1 && s'.handled == s.handled + 1
      && s'.requests == (if e.rejection.None? && e.message.Request? then s.requests[id := s.handled] else s.requests)
      && s'.pendingSubscriptions ==
         (if e.rejection.None? && e.message.Subscription?
          then s.pendingSubscriptions[id := Pending(s.handled, e.message.unsubscribeMethod)]
          else s.pendingSubscriptions)
      && s'.log == s.log +
         [if e.rejection.Some? then Answered(s.handled, SmoldotError(e.rejection.value), e.alive)
          else Submitted(Decimal(id), e.message.rpc, ParamsText(e.message.params))]
  {
    var id := NextId(p, s).lastRequestId;
    match e.message
    case Request(_, _) =>
      assert s.requests[id := s.handled] - {id} == s.requests;
    case Subscription(_, unsubscribeMethod, _) =>
      assert s.pendingSubscriptions[id := Pending(s.handled, unsubscribeMethod)] - {id} == s.pendingSubscriptions;
  }

  lemma TracksAppended(s: State, s': State, ledger: seq<Ticket>, t: Ticket)
    requires Tracks(s, ledger)
    requires t.fate.Waiting? ==> if t.message.Request? then t.id !in s.requests else t.id !in s.pendingSubscriptions
    requires s'.requests == if t.fate.Waiting? && t.message.Request? then s.requests[t.id := |ledger|] else s.requests
    requires s'.pendingSubscriptions ==
      if t.fate.Waiting? && t.message.Subscription?
      then s.pendingSubscriptions[t.id := Pending(|ledger|, t.message.unsubscribeMethod)] else s.pendingSubscriptions
    ensures Tracks(s', ledger + [t])
  {
    var ledger' := ledger + [t];
    forall d | 0 <= d < |ledger'| && ledger'[d].fate.Waiting?
      ensures
        if ledger'[d].message.Request? then WaitsAsRequest(s', ledger'[d], d)
        else WaitsAsSubscription(s', ledger'[d], d)
    {
      assert d < |ledger| ==> ledger'[d] == ledger[d];
    }
  }

  lemma NewTracks(p: Platform, s: State, ledger: seq<Ticket>, e: Event)
    requires p.modulus > 0 && Agrees(p, s, ledger) && e.FromFront? && FreeId(p, s, ledger, e)
    ensures Tracks(Step(p, s, e), ledger + [NewTicket(p, s, e)])
  {
    hide HandleFront, Outcomes, Tracks, FreeId, Numbered;
    FreeIdInMaps(p, s, ledger, e);
    FrontOfFresh(p, s, e);
    TracksAppended(s, Step(p, s, e), ledger, NewTicket(p, s, e));
  }

  lemma ReportedAppended(s: State, s': State, ledger: seq<Ticket>, t: Ticket, o: Output)
    requires Reported(s, ledger) && s'.handled == s.handled + 1 && s'.log == s.log + [o]
    requires match o
      case Submitted(_, _, _) => t.fate.Waiting?
      case Answered(channel, answer, received) => channel == s.handled && t.fate == Settled(answer, received)
      case _ => false
    ensures Reported(s', ledger + [t])
  {
    forall d: nat
      ensures Outcomes(s'.log, d) == if d == s.handled then Implied(d, t.fate) else Outcomes(s.log, d)
    {
      OutcomesAppend(s.log, [o], d);
      OutcomesOne(o, d);
    }
  }

  lemma NumberedAppended(p: Platform, s: State, s': State, ledger: seq<Ticket>, t: Ticket)
    requires p.modulus > 0 && Numbered(p, s, ledger)
    requires s'.issued == t.serial == s.issued + 1 && s'.lastRequestId == t.id == t.serial % p.modulus
    ensures Numbered(p, s', ledger + [t])
  {
  }

  lemma StepFront(p: Platform, s: State, ledger: seq<Ticket>, e: Event)
    requires p.modulus > 0 && Agrees(p, s, ledger) && e.FromFront? && FreeId(p, s, ledger, e)
    ensures Agrees(p, Step(p, s, e), ledger + [NewTicket(p, s, e)])
  {
    hide HandleFront, Tracks, FreeId, Numbered, Outcomes;
    FreeIdInMaps(p, s, ledger, e);
    FrontOfFresh(p, s, e);
    NewTracks(p, s, ledger, e);
    NumberedAppended(p, s, Step(p, s, e), ledger, NewTicket(p, s, e));
    var s' := Step(p, s, e);
    ReportedAppended(s, s', ledger, NewTicket(p, s, e), s'.log[|s.log|]);
  }

  // ---- every run ----

  /** Every message takes a new id, and no turn gives one back. */
  lemma StepIssues(p: Platform, s: State, e: Event)
    requires p.modulus > 0
    ensures s.issued <= Step(p, s, e).issued
    ensures e.FromFront? ==> Step(p, s, e).issued == s.issued + 1
  {
    match e
    case FromFront(message, rejection, alive) =>
      match message {
        case Request(_, _) =>
        case Subscription(_, _, _) =>
      }
    case FromBack(response, alive) =>
      if response.Some? {
        match response.value
        case Notification(_, _, _) =>
        case NotificationError(_, _, _) =>
        case _ =>
      }
  }

  lemma StepAgrees(p: Platform, s: State, ledger: seq<Ticket>, e: Event)
    requires p.modulus > 0 && Agrees(p, s, ledger) && Clear(p, s, ledger, e)
    ensures Agrees(p, Step(p, s, e), ExtendLedger(p, s, ledger, e))
  {
    if e.FromFront? {
      StepFront(p, s, ledger, e);
    } else if ResponseId(p, e.response).Some? {
      StepReply(p, s, ledger, e);
    } else {
      StepOther(p, s, ledger, e);
    }
  }

  /** Main result: over every run without an ambiguous turn the task agrees with the ledger. Each
      message's reply channel was used exactly as its ticket says, and it is still held, under
      its id, just while the ticket waits. */
  lemma {:induction false} TaskAgreesWithLedger(p: Platform, events: seq<Event>)
    requires p.modulus > 0 && AllClear(p, events)
    ensures Agrees(p, Run(p, events), Ledger(p, events))
    decreases |events|
  {
    if events != [] {
      var before, e := events[..|events| - 1], events[|events| - 1];
      TaskAgreesWithLedger(p, before);
      StepAgrees(p, Run(p, before), Ledger(p, before), e);
    }
  }

  /** In particular over every run that issues no more ids than there are. */
  lemma {:induction false} FewIdsAreClear(p: Platform, events: seq<Event>)
    requires p.modulus > 0 && Run(p, events).issued <= p.modulus
    ensures AllClear(p, events)
    decreases |events|
  {
    if events != [] {
      var before, e := events[..|events| - 1], events[|events| - 1];
      StepIssues(p, Run(p, before), e);
      FewIdsAreClear(p, before);
      TaskAgreesWithLedger(p, before);
      FewIdsAreUnused(p, Run(p, before), Ledger(p, before), e);
    }
  }

  // ---- and no others ----

  lemma EvictsHolder(p: Platform, s: State, e: Event)
    requires p.modulus > 0 && e.FromFront?
    requires
      var id := NextId(p, s).lastRequestId;
      if e.message.Request? then id in s.requests else id in s.pendingSubscriptions
    ensures
      var id := NextId(p, s).lastRequestId;
      var c := if e.message.Request? then s.requests[id] else s.pendingSubscriptions[id].channel;
      Dropped(c) in Outcomes(Step(p, s, e).log, c)
  {
    var id := NextId(p, s).lastRequestId;
    var c := if e.message.Request? then s.requests[id] else s.pendingSubscriptions[id].channel;
    var o := Step(p, s, e).log[|s.log| + 1];
    assert Step(p, s, e).log == s.log + [Dropped(c)] + [o];
    OutcomesAppend(s.log + [Dropped(c)], [o], c);
    OutcomesAppend(s.log, [Dropped(c)], c);
    OutcomesOne(Dropped(c), c);
  }

  /** A message that gets the id of a waiting one of its own kind drops that one's sender, while
      its ticket still waits. */
  lemma ReusedIdDrops(p: Platform, s: State, ledger: seq<Ticket>, e: Event, c: nat)
    requires p.modulus > 0 && Agrees(p, s, ledger) && e.FromFront? && c < |ledger|
    requires ledger[c].fate.Waiting? && ledger[c].id == NextId(p, s).lastRequestId
    requires ledger[c].message.Request? == e.message.Request?
    ensures Dropped(c) in Outcomes(Step(p, s, e).log, c)
    ensures ExtendLedger(p, s, ledger, e)[c].fate.Waiting?
  {
    if ledger[c].message.Request? {
      assert WaitsAsRequest(s, ledger[c], c);
    } else {
      assert WaitsAsSubscription(s, ledger[c], c);
    }
    EvictsHolder(p, s, e);
  }

  /** Two messages that wait under one id are of different kinds. */
  lemma KindsDiffer(s: State, ledger: seq<Ticket>, c: nat, d: nat)
    requires Tracks(s, ledger) && c < |ledger| && d < |ledger| && c != d
    requires ledger[c].fate.Waiting? && ledger[d].fate.Waiting? && ledger[c].id == ledger[d].id
    ensures ledger[c].message.Request? != ledger[d].message.Request?
  {
    assert if ledger[c].message.Request? then WaitsAsRequest(s, ledger[c], c) else WaitsAsSubscription(s, ledger[c], c);
    assert if ledger[d].message.Request? then WaitsAsRequest(s, ledger[d], d) else WaitsAsSubscription(s, ledger[d], d);
  }

  /** Once two messages wait under one id, which they can do in different maps only, the next
      response with that id settles the request alone: the subscription is left without. */
  lemma SharedIdStrands(p: Platform, s: State, ledger: seq<Ticket>, c: nat, d: nat, e: Event)
    requires p.modulus > 0 && Tracks(s, ledger) && Reported(s, ledger) && c < |ledger| && d < |ledger| && c != d
    requires ledger[c].fate.Waiting? && ledger[d].fate.Waiting? && ledger[c].id == ledger[d].id
    requires e.FromBack? && ResponseId(p, e.response) == Some(ledger[c].id)
    ensures exists k :: 0 <= k < |ledger| && !ExtendLedger(p, s, ledger, e)[k].fate.Waiting?
              && Outcomes(Step(p, s, e).log, k) == []
  {
    hide Outcomes, ParseUsize;
    KindsDiffer(s, ledger, c, d);
    var request, k := if ledger[c].message.Request? then c else d, if ledger[c].message.Request? then d else c;
    assert WaitsAsRequest(s, ledger[request], request);
    var o := Step(p, s, e).log[|s.log|];
    assert Step(p, s, e).log == s.log + [o] && o.channel == request;
    OutcomesAppend(s.log, [o], k);
    OutcomesOne(o, k);
    assert Outcomes(s.log, k) == Implied(k, ledger[k].fate);
    assert !ExtendLedger(p, s, ledger, e)[k].fate.Waiting?;
  }

  /** Exactly when a turn keeps the task in agreement with the ledger. Otherwise a sender was
      dropped while its ticket waits, or one is left whose ticket is settled. */
  lemma AgreesExactlyWhen(p: Platform, s: State, ledger: seq<Ticket>, e: Event)
    requires p.modulus > 0 && Agrees(p, s, ledger)
    ensures Agrees(p, Step(p, s, e), ExtendLedger(p, s, ledger, e)) <==> Clear(p, s, ledger, e)
  {
    hide Agrees, Clear;
    if Clear(p, s, ledger, e) {
      StepAgrees(p, s, ledger, e);
    } else {
      AmbiguousDisagrees(p, s, ledger, e);
    }
  }

  lemma AmbiguousDisagrees(p: Platform, s: State, ledger: seq<Ticket>, e: Event)
    requires p.modulus > 0 && Agrees(p, s, ledger) && !Clear(p, s, ledger, e)
    ensures !Agrees(p, Step(p, s, e), ExtendLedger(p, s, ledger, e))
  {
    hide Tracks, Numbered, Outcomes, Step, ParseUsize;
    if e.FromFront? {
      var c :| 0 <= c < |ledger| && ledger[c].fate.Waiting? && ledger[c].message.Request? == e.message.Request?
        && ledger[c].id == NextId(p, s).lastRequestId;
      ReusedIdDrops(p, s, ledger, e, c);
      assert Implied(c, ExtendLedger(p, s, ledger, e)[c].fate) == [];
    } else {
      var id := ResponseId(p, e.response).value;
      var c, d :| 0 <= c < d < |ledger| && ledger[c].fate.Waiting? && ledger[d].fate.Waiting?
        && ledger[c].id == ledger[d].id == id;
      SharedIdStrands(p, s, ledger, c, d, e);
    }
  }

  ghost predicate AgreesThroughout(p: Platform, events: seq<Event>)
    requires p.modulus > 0
  {
    && Agrees(p, Run(p, events), Ledger(p, events))
    && (events != [] ==> AgreesThroughout(p, events[..|events| - 1]))
  }

  /** Over whole runs: the task agrees with the ledger all along exactly when no turn was
      ambiguous. */
  lemma {:induction false} AgreesThroughoutExactlyWhen(p: Platform, events: seq<Event>)
    requires p.modulus > 0
    ensures AgreesThroughout(p, events) <==> AllClear(p, events)
    decreases |events|
  {
    if events == [] {
      TaskAgreesWithLedger(p, events);
    } else {
      var before, e := events[..|events| - 1], events[|events| - 1];
      AgreesThroughoutExactlyWhen(p, before);
      if AllClear(p, before) {
        TaskAgreesWithLedger(p, before);
        AgreesExactlyWhen(p, Run(p, before), Ledger(p, before), e);
      }
    }
  }

  // ---- consequences ----

  ghost predicate HeldAsRequest(s: State, c: nat) {
    exists id :: id in s.requests && s.requests[id] == c
  }

  ghost predicate HeldAsSubscription(s: State, c: nat) {
    exists id :: id in s.pendingSubscriptions && s.pendingSubscriptions[id].channel == c
  }

  /** Each message's reply channel is in exactly one place: held by one of the two maps under
      one id, answered once, or dropped once. */
  lemma ChannelInOnePlace(p: Platform, events: seq<Event>, c: nat)
    requires p.modulus > 0 && AllClear(p, events) && c < Run(p, events).handled
    ensures
      var s := Run(p, events);
      && |Outcomes(s.log, c)| <= 1
      && (Outcomes(s.log, c) == [] <==> HeldAsRequest(s, c) || HeldAsSubscription(s, c))
      && !(HeldAsRequest(s, c) && HeldAsSubscription(s, c))
      && (forall i, j :: i in s.requests && j in s.requests && s.requests[i] == s.requests[j] ==> i == j)
      && (forall i, j :: (i in s.pendingSubscriptions && j in s.pendingSubscriptions
            && s.pendingSubscriptions[i].channel == s.pendingSubscriptions[j].channel) ==> i == j)
  {
    TaskAgreesWithLedger(p, events);
    var s, ledger := Run(p, events), Ledger(p, events);
    assert Outcomes(s.log, c) == Implied(c, ledger[c].fate);
    if ledger[c].fate.Waiting? {
      if ledger[c].message.Request? {
        assert WaitsAsRequest(s, ledger[c], c);
      } else {
        assert WaitsAsSubscription(s, ledger[c], c);
      }
    }
  }

  /** When the task ends its maps are dropped, and with them exactly the channels that had
      no outcome yet. */
  lemma ShutdownDropsTheRest(p: Platform, events: seq<Event>)
    requires p.modulus > 0 && AllClear(p, events)
    ensures
      var s := Run(p, events);
      forall c: nat :: c < s.handled ==>
        (Outcomes(s.log, c) == [] <==>
         c in s.requests.Values || c in set x | x in s.pendingSubscriptions.Values :: x.channel)
  {
    var s := Run(p, events);
    forall c: nat | c < s.handled
      ensures Outcomes(s.log, c) == [] <==>
        c in s.requests.Values || c in set x | x in s.pendingSubscriptions.Values :: x.channel
    {
      ChannelInOnePlace(p, events, c);
      assert c in s.requests.Values <==> HeldAsRequest(s, c);
    }
  }

  predicate Carries(p: Platform, e: Event, id: nat) {
    e.FromBack? && ResponseId(p, e.response) == Some(id)
  }

  /** Where message `c` was handled. */
  function PositionOf(events: seq<Event>, c: nat): Option<nat> {
    if events == [] then None
    else
      var before := events[..|events| - 1];
      match PositionOf(before, c)
      case Some(k) => Some(k)
      case None => if events[|events| - 1].FromFront? && CountFront(before) == c then Some(|events| - 1) else None
  }

  function CountFront(events: seq<Event>): nat {
    if events == [] then 0
    else CountFront(events[..|events| - 1]) + if events[|events| - 1].FromFront? then 1 else 0
  }

  /** The first event after position `k` that carries `id` is at `j`. */
  ghost predicate FirstCarrier(p: Platform, events: seq<Event>, id: nat, k: nat, j: int) {
    k < j < |events| && Carries(p, events[j], id) && forall i :: k < i < j ==> !Carries(p, events[i], id)
  }

  /** The ticket of a message handled at position `k`, in plain words: a rejected message is
      settled at once; any other waits as long as no later response carries its id, and the
      first that does decides its fate. */
  ghost predicate FateExplained(p: Platform, events: seq<Event>, t: Ticket, k: nat) {
    && k < |events| && events[k].FromFront? && t.message == events[k].message
    && match events[k].rejection
       case Some(reason) => t.fate == Settled(SmoldotError(reason), events[k].alive)
       case None =>
         if t.fate.Waiting? then forall j :: k < j < |events| ==> !Carries(p, events[j], t.id)
         else exists j :: FirstCarrier(p, events, t.id, k, j)
                && t.fate == Settle(p, t.message, events[j].response.value, events[j].alive)
  }

  lemma FateExplainedOn(p: Platform, events: seq<Event>, e: Event, t: Ticket, k: nat)
    requires FateExplained(p, events, t, k)
    ensures FateExplained(p, events + [e], Advance(p, t, e), k)
  {
    var events', n := events + [e], |events|;
    if events[k].rejection.None? {
      if !t.fate.Waiting? {
        var j :| FirstCarrier(p, events, t.id, k, j)
          && t.fate == Settle(p, t.message, events[j].response.value, events[j].alive);
        assert FirstCarrier(p, events', t.id, k, j);
      } else if Carries(p, e, t.id) {
        assert FirstCarrier(p, events', t.id, k, n);
      }
    }
  }

  /** Every ticket of every run is explained that way. */
  lemma {:induction false} FateByFirstCarrier(p: Platform, events: seq<Event>, c: nat)
    requires p.modulus > 0 && c < |Ledger(p, events)|
    ensures PositionOf(events, c).Some? && FateExplained(p, events, Ledger(p, events)[c], PositionOf(events, c).value)
    decreases |events|
  {
    LedgerLength(p, events);
    var n := |events| - 1;
    var before, e := events[..n], events[n];
    assert events == before + [e];
    LedgerLength(p, before);
    if c < |Ledger(p, before)| {
      FateByFirstCarrier(p, before, c);
      var t, k := Ledger(p, before)[c], PositionOf(before, c).value;
      FateExplainedOn(p, before, e, t, k);
      assert Ledger(p, events)[c] == Advance(p, t, e);
    } else {
      NoPosition(before, c);
    }
  }

  lemma {:induction false} LedgerLength(p: Platform, events: seq<Event>)
    requires p.modulus > 0
    ensures |Ledger(p, events)| == CountFront(events)
    decreases |events|
  {
    if events != [] {
      LedgerLength(p, events[..|events| - 1]);
    }
  }

  lemma {:induction false} NoPosition(events: seq<Event>, c: nat)
    requires c >= CountFront(events)
    ensures PositionOf(events, c).None?
    decreases |events|
  {
    if events != [] {
      NoPosition(events[..|events| - 1], c);
    }
  }

  /** The first response to the ticket's subscription request, which was made at position `k`,
      is not a JSON string. */
  ghost predicate GotNonString(p: Platform, events: seq<Event>, t: Ticket, k: nat) {
    && t.message.Subscription?
    && exists j :: FirstCarrier(p, events, t.id, k, j)
         && events[j].response.value.Method? && p.asString(events[j].response.value.result).None?
  }

  lemma LostExplained(p: Platform, events: seq<Event>, t: Ticket, k: nat)
    requires FateExplained(p, events, t, k) && t.fate == Lost
    ensures GotNonString(p, events, t, k)
  {
    var j :| FirstCarrier(p, events, t.id, k, j)
      && t.fate == Settle(p, t.message, events[j].response.value, events[j].alive);
  }

  /** While the task runs, a reply channel is dropped only because the first response to its
      subscription request was not a JSON string. */
  lemma DroppedOnlyForNonString(p: Platform, events: seq<Event>, c: nat)
    requires p.modulus > 0 && AllClear(p, events) && c < |Ledger(p, events)|
    requires Dropped(c) in Outcomes(Run(p, events).log, c)
    ensures PositionOf(events, c).Some?
    ensures GotNonString(p, events, Ledger(p, events)[c], PositionOf(events, c).value)
  {
    TaskAgreesWithLedger(p, events);
    FateByFirstCarrier(p, events, c);
    assert Outcomes(Run(p, events).log, c) == Implied(c, Ledger(p, events)[c].fate);
    LostExplained(p, events, Ledger(p, events)[c], PositionOf(events, c).value);
  }

  /** The matching rule of section 5 of JSON-RPC 2.0: a response that echoes the id under which
      a waiting message was submitted settles that message, exactly when the message is a request
      or no other one waits under the id. */
  lemma EchoSettles(p: Platform, events: seq<Event>, c: nat, result: Raw, alive: bool)
    requires p.modulus > 0 && AllClear(p, events)
    requires c < |Ledger(p, events)| && Ledger(p, events)[c].fate.Waiting?
    ensures
      var t := Ledger(p, events)[c];
      var response := Method(Decimal(t.id), result);
      var after := events + [FromBack(Some(response), alive)];
      && (AllClear(p, after) <==> AtMostOneWaits(Ledger(p, events), t.id))
      && (Outcomes(Run(p, after).log, c) == Implied(c, Settle(p, t.message, response, alive))
          <==> t.message.Request? || AtMostOneWaits(Ledger(p, events), t.id))
  {
    TaskAgreesWithLedger(p, events);
    var s, ledger, t := Run(p, events), Ledger(p, events), Ledger(p, events)[c];
    var e := FromBack(Some(Method(Decimal(t.id), result)), alive);
    RunSnoc(p, events, e);
    EchoIsCarrier(p, s, ledger, c, result, alive);
    assert (events + [e])[..|events|] == events;
    hide Run, Ledger, Agrees, AtMostOneWaits, Step, Outcomes, Implied, Settle;
    EchoEffect(p, s, ledger, c, result, alive);
  }

  lemma EchoIsCarrier(p: Platform, s: State, ledger: seq<Ticket>, c: nat, result: Raw, alive: bool)
    requires p.modulus > 0 && Agrees(p, s, ledger) && c < |ledger|
    ensures Carries(p, FromBack(Some(Method(Decimal(ledger[c].id), result)), alive), ledger[c].id)
  {
    assert ledger[c].id < p.modulus;
    EchoedIdParses(ledger[c].id, p.modulus);
  }

  lemma EchoEffect(p: Platform, s: State, ledger: seq<Ticket>, c: nat, result: Raw, alive: bool)
    requires p.modulus > 0 && Agrees(p, s, ledger) && c < |ledger| && ledger[c].fate.Waiting?
    ensures
      var t := ledger[c];
      var response := Method(Decimal(t.id), result);
      Outcomes(Step(p, s, FromBack(Some(response), alive)).log, c) == Implied(c, Settle(p, t.message, response, alive))
      <==> t.message.Request? || AtMostOneWaits(ledger, t.id)
  {
    hide Tracks, Numbered, Outcomes, ParseUsize, HandleMethod, AtMostOneWaits;
    var e := FromBack(Some(Method(Decimal(ledger[c].id), result)), alive);
    EchoIsCarrier(p, s, ledger, c, result, alive);
    if AtMostOneWaits(ledger, ledger[c].id) {
      StepReply(p, s, ledger, e);
      assert AdvanceAll(p, ledger, e)[c].fate == Settle(p, ledger[c].message, e.response.value, alive);
    } else {
      SharedIdReply(p, s, ledger, c, result, alive);
    }
  }

  /** A response under an id that a request and a subscription wait for answers the request. */
  lemma SharedIdReply(p: Platform, s: State, ledger: seq<Ticket>, c: nat, result: Raw, alive: bool)
    requires p.modulus > 0 && Agrees(p, s, ledger) && c < |ledger| && ledger[c].fate.Waiting?
    requires !AtMostOneWaits(ledger, ledger[c].id)
    ensures
      Outcomes(HandleMethod(p, s, ledger[c].id, result, alive).log, c)
      == if ledger[c].message.Request? then [Answered(c, Value(result), alive)] else []
  {
    var id := ledger[c].id;
    RequestWaits(p, s, ledger, id);
    var o := Answered(s.requests[id], Value(result), alive);
    assert ledger[c].message.Request? ==> WaitsAsRequest(s, ledger[c], c);
    OutcomesAppend(s.log, [o], c);
    OutcomesOne(o, c);
  }

  /** Of two messages that wait under one id, one is a request. */
  lemma RequestWaits(p: Platform, s: State, ledger: seq<Ticket>, id: nat)
    requires p.modulus > 0 && Agrees(p, s, ledger) && !AtMostOneWaits(ledger, id)
    ensures id in s.requests
  {
    var c, d :| 0 <= c < d < |ledger| && ledger[c].fate.Waiting? && ledger[d].fate.Waiting?
      && ledger[c].id == ledger[d].id == id;
    assert if ledger[c].message.Request? then WaitsAsRequest(s, ledger[c], c) else WaitsAsSubscription(s, ledger[c], c);
    assert if ledger[d].message.Request? then WaitsAsRequest(s, ledger[d], d) else WaitsAsSubscription(s, ledger[d], d);
  }

  lemma RunSnoc(p: Platform, events: seq<Event>, e: Event)
    requires p.modulus > 0
    ensures Run(p, events + [e]) == Step(p, Run(p, events), e)
  {
    assert (events + [e])[..|events|] == events;
  }

  // ---- what the caller gets ----

  datatype Return = Got(answer: Answer) | BackgroundTaskDropped

  /** What awaiting the receiving half of a reply channel yields: the answer that was sent, an
      error once the sending half is gone, and nothing yet otherwise. */
  function AwaitReply(outcomes: seq<Output>, ended: bool): Option<Return> {
    if outcomes == [] then if ended then Some(BackgroundTaskDropped) else None
    else match outcomes[0]
      case Answered(_, answer, _) => Some(Got(answer))
      case _ => Some(BackgroundTaskDropped)
  }

  function ReturnOf(fate: Fate, ended: bool): Option<Return> {
    match fate
    case Waiting => if ended then Some(BackgroundTaskDropped) else None
    case Settled(answer, _) => Some(Got(answer))
    case Lost => Some(BackgroundTaskDropped)
  }

  /** Seen from the caller: a call returns what the first response with its id says, smoldot's
      refusal at once, and `BackgroundTaskDropped` only after a subscription id that is no
      string or when the task has ended first. */
  lemma CallReturns(p: Platform, events: seq<Event>, c: nat, ended: bool)
    requires p.modulus > 0 && AllClear(p, events) && c < |Ledger(p, events)|
    ensures
      var t := Ledger(p, events)[c];
      && PositionOf(events, c).Some? && FateExplained(p, events, t, PositionOf(events, c).value)
      && AwaitReply(Outcomes(Run(p, events).log, c), ended) == ReturnOf(t.fate, ended)
  {
    TaskAgreesWithLedger(p, events);
    FateByFirstCarrier(p, events, c);
    assert Outcomes(Run(p, events).log, c) == Implied(c, Ledger(p, events)[c].fate);
  }

  // ---- the bound on issued ids is tight ----

  /** `n` requests that smoldot accepts and never answers. */
  function Unanswered(n: nat): seq<Event> {
    seq(n, _ => FromFront(Request("", None), None, true))
  }

  lemma {:induction false} AfterUnanswered(p: Platform, n: nat)
    requires 0 < n <= p.modulus
    ensures
      var s := Run(p, Unanswered(n));
      && s.issued == n && s.handled == n && s.lastRequestId == n % p.modulus
      && 1 % p.modulus in s.requests && s.requests[1 % p.modulus] == 0
    decreases n
  {
    var events := Unanswered(n);
    assert events[..n - 1] == Unanswered(n - 1);
    if n > 1 {
      AfterUnanswered(p, n - 1);
      IncrementModulo(n - 1, p.modulus);
      SerialsDecideIds(1, n, p.modulus);
    } else {
      assert events[..0] == [];
    }
  }

  /** One id more and the result fails: the first message is dropped without an answer, though
      no response ever carried its id. */
  lemma OneIdTooMany(p: Platform)
    requires p.modulus > 0
    ensures
      var events := Unanswered(p.modulus + 1);
      && Run(p, events).issued == p.modulus + 1
      && Dropped(0) in Outcomes(Run(p, events).log, 0)
      && (forall j, id :: 0 <= j < |events| ==> !Carries(p, events[j], id))
  {
    hide Outcomes;
    var m := p.modulus;
    AfterUnanswered(p, m);
    var e, s := FromFront(Request("", None), None, true), Run(p, Unanswered(m));
    assert Unanswered(m + 1) == Unanswered(m) + [e];
    RunSnoc(p, Unanswered(m), e);
    Residue(m, m, 1, 0);
    assert NextId(p, s).lastRequestId == 1 % m;
    EvictsHolder(p, s, e);
    StepIssues(p, s, e);
  }
}
