/** From the members of a received object to what the task does: who gets what is in it. */
module LightClientObjects {
  import opened LightClient
  import opened LightClientReplies
  import opened Options
  import opened RpcIds

  function Received(o: Object, alive: bool): Event {
    FromBack(Parse(o), alive)
  }

  // ---- notifications ----

  ghost predicate IsNotification(o: Object, subscriptionId: string, result: Raw) {
    && o.jsonrpc.Some? && o.rpc.Some? && o.subscription == Some(subscriptionId) && o.paramsResult == Some(result)
    && (o.id.None? || o.result.None?)
  }

  ghost predicate IsErrorNotification(o: Object, subscriptionId: string, error: Raw) {
    && o.jsonrpc.Some? && o.rpc.Some? && o.subscription == Some(subscriptionId) && o.paramsError == Some(error)
    && o.paramsResult.None? && (o.id.None? || (o.result.None? && o.error.None?))
  }

  /** What becomes of an item for a subscription: the receiver of the active subscription with that id
      gets it; if it is gone the subscription is dropped and an unsubscribe request made under a new
      id; and without such a subscription nothing happens. */
  ghost predicate Delivers(p: Platform, s: State, s': State, subscriptionId: string, item: Item, alive: bool)
    requires p.modulus > 0
  {
    if subscriptionId !in s.subscriptions then s' == s
    else
      var active, id := s.subscriptions[subscriptionId], (s.lastRequestId + 1) % p.modulus;
      if alive then s' == s.(log := s.log + [Notified(active.activation, item)])
      else
        var o := Unsubscribing(active.activation, Decimal(id), active.unsubscribeMethod, subscriptionId);
        s' == s.(subscriptions := s.subscriptions - {subscriptionId}, lastRequestId := id, issued := s.issued + 1,
                 log := s.log + [o])
  }

  lemma NotificationArrives(p: Platform, s: State, o: Object, subscriptionId: string, result: Raw, alive: bool)
    requires p.modulus > 0 && IsNotification(o, subscriptionId, result)
    ensures Delivers(p, s, Step(p, s, Received(o, alive)), subscriptionId, OkItem(result), alive)
  {
    ParsedExactlyWhen(o, Notification(o.rpc.value, subscriptionId, result));
  }

  lemma ErrorNotificationArrives(p: Platform, s: State, o: Object, subscriptionId: string, error: Raw, alive: bool)
    requires p.modulus > 0 && IsErrorNotification(o, subscriptionId, error)
    ensures Delivers(p, s, Step(p, s, Received(o, alive)), subscriptionId, ErrItem(error), alive)
  {
    ParsedExactlyWhen(o, NotificationError(o.rpc.value, subscriptionId, error));
  }

  // ---- responses ----

  ghost predicate IsResult(o: Object, idText: string, result: Raw) {
    o.jsonrpc.Some? && o.id == Some(idText) && o.result == Some(result)
  }

  ghost predicate IsError(o: Object, idText: string, error: Raw) {
    && o.jsonrpc.Some? && o.id == Some(idText) && o.error == Some(error) && o.result.None?
    && (o.rpc.None? || o.subscription.None? || o.paramsResult.None?)
  }

  /** What the caller is told about a result: the result itself for a request; for a subscription the
      id in it, and nothing more if it is no string. */
  function ToldOfResult(p: Platform, message: Message, channel: nat, result: Raw, alive: bool): seq<Output> {
    if message.Request? then [Answered(channel, Value(result), alive)]
    else match p.asString(result)
      case Some(subscriptionId) => [Answered(channel, Subscribed(subscriptionId), alive)]
      case None => [Dropped(channel)]
  }

  /** A result under the id of a message that waits alone is what that message's caller is told. */
  lemma ResultArrives(
      p: Platform, s: State, ledger: seq<Ticket>, o: Object, idText: string, result: Raw, c: nat, alive: bool)
    requires p.modulus > 0 && Agrees(p, s, ledger) && IsResult(o, idText, result)
    requires c < |ledger| && ledger[c].fate.Waiting? && ParseUsize(idText, p.modulus) == Some(ledger[c].id)
    requires AtMostOneWaits(ledger, ledger[c].id)
    ensures Outcomes(Step(p, s, Received(o, alive)).log, c) == ToldOfResult(p, ledger[c].message, c, result, alive)
  {
    hide ParseUsize, Step, Outcomes, Tracks, Numbered;
    ParsedExactlyWhen(o, Method(idText, result));
    ReplyArrives(p, s, ledger, Method(idText, result), c, alive);
  }

  /** And so is an error. */
  lemma ErrorArrives(
      p: Platform, s: State, ledger: seq<Ticket>, o: Object, idText: string, error: Raw, c: nat, alive: bool)
    requires p.modulus > 0 && Agrees(p, s, ledger) && IsError(o, idText, error)
    requires c < |ledger| && ledger[c].fate.Waiting? && ParseUsize(idText, p.modulus) == Some(ledger[c].id)
    requires AtMostOneWaits(ledger, ledger[c].id)
    ensures Outcomes(Step(p, s, Received(o, alive)).log, c) == [Answered(c, JsonRpcError(error), alive)]
  {
    hide ParseUsize, Step, Outcomes, Tracks, Numbered;
    ParsedExactlyWhen(o, MethodError(idText, error));
    ReplyArrives(p, s, ledger, MethodError(idText, error), c, alive);
  }

  lemma ReplyArrives(p: Platform, s: State, ledger: seq<Ticket>, r: RpcResponse, c: nat, alive: bool)
    requires p.modulus > 0 && Agrees(p, s, ledger) && (r.Method? || r.MethodError?)
    requires c < |ledger| && ledger[c].fate.Waiting? && ParseUsize(r.id, p.modulus) == Some(ledger[c].id)
    requires AtMostOneWaits(ledger, ledger[c].id)
    ensures Outcomes(Step(p, s, FromBack(Some(r), alive)).log, c)
         == Implied(c, Settle(p, ledger[c].message, r, alive))
  {
    hide ParseUsize, Step, Outcomes, Tracks, Numbered;
    var e := FromBack(Some(r), alive);
    StepReply(p, s, ledger, e);
    assert AdvanceAll(p, ledger, e)[c].fate == Settle(p, ledger[c].message, r, alive);
  }

  // ---- messages ----

  /** A message is submitted under the next id with its method and parameters, `null` standing for
      none; or its caller is told that smoldot refused. */
  lemma MessageIsSubmitted(p: Platform, s: State, message: Message, rejection: Option<string>, alive: bool)
    requires p.modulus > 0
    ensures
      var log := Step(p, s, FromFront(message, rejection, alive)).log;
      && |log| > |s.log|
      && log[|log| - 1] ==
         match rejection
         case Some(reason) => Answered(s.handled, SmoldotError(reason), alive)
         case None =>
           Submitted(Decimal((s.lastRequestId + 1) % p.modulus), message.rpc,
                     if message.params.Some? then message.params.value else "null")
  {
    match message
    case Request(_, _) =>
    case Subscription(_, _, _) =>
  }
}
