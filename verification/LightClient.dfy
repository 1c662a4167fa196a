/** The light client's background task: it numbers requests, remembers who waits for which
    id, turns answered subscription requests into active subscriptions, and unsubscribes
    when a notification finds its receiver gone. */
module LightClient {
  import opened Options
  import opened RpcIds

  /** Raw JSON text. */
  type Raw = string

  datatype Message =
    | Request(rpc: string, params: Option<Raw>)
    | Subscription(rpc: string, unsubscribeMethod: string, params: Option<Raw>)

  datatype RpcResponse =
    | Method(id: string, result: Raw)
    | MethodError(id: string, error: Raw)
    | Notification(rpc: string, subscriptionId: string, result: Raw)
    | NotificationError(rpc: string, subscriptionId: string, error: Raw)

  /** The members of a received JSON object that classification looks at, each present only
      if it has the expected type; `subscription`, `paramsResult` and `paramsError` are
      members of `params`. */
  datatype Object = Object(
    jsonrpc: Option<string>, id: Option<string>, result: Option<Raw>, error: Option<Raw>, rpc: Option<string>,
    subscription: Option<string>, paramsResult: Option<Raw>, paramsError: Option<Raw>)

  // The four formats a received object may have.

  function AsResponse(o: Object): Option<RpcResponse> {
    if o.jsonrpc.Some? && o.id.Some? && o.result.Some? then Some(Method(o.id.value, o.result.value)) else None
  }

  function AsResponseError(o: Object): Option<RpcResponse> {
    if o.jsonrpc.Some? && o.id.Some? && o.error.Some? then Some(MethodError(o.id.value, o.error.value)) else None
  }

  function AsNotification(o: Object): Option<RpcResponse> {
    if o.jsonrpc.Some? && o.rpc.Some? && o.subscription.Some? && o.paramsResult.Some?
    then Some(Notification(o.rpc.value, o.subscription.value, o.paramsResult.value)) else None
  }

  function AsNotificationError(o: Object): Option<RpcResponse> {
    if o.jsonrpc.Some? && o.rpc.Some? && o.subscription.Some? && o.paramsError.Some?
    then Some(NotificationError(o.rpc.value, o.subscription.value, o.paramsError.value)) else None
  }

  /** The formats are tried in a fixed order and the first that fits wins. */
  function Parse(o: Object): Option<RpcResponse> {
    if AsResponse(o).Some? then AsResponse(o)
    else if AsNotification(o).Some? then AsNotification(o)
    else if AsResponseError(o).Some? then AsResponseError(o)
    else AsNotificationError(o)
  }

  /** What an object is read as, member by member. An object with an id and a result is a response,
      whatever else it has; a notification with a result comes before an error response, and an error
      response before a notification with an error. */
  ghost predicate Reads(o: Object, r: RpcResponse) {
    && o.jsonrpc.Some?
    && match r
       case Method(id, result) => o.id == Some(id) && o.result == Some(result)
       case Notification(rpc, subscriptionId, result) =>
         && o.rpc == Some(rpc) && o.subscription == Some(subscriptionId) && o.paramsResult == Some(result)
         && (o.id.None? || o.result.None?)
       case MethodError(id, error) =>
         && o.id == Some(id) && o.error == Some(error)
         && o.result.None? && (o.rpc.None? || o.subscription.None? || o.paramsResult.None?)
       case NotificationError(rpc, subscriptionId, error) =>
         && o.rpc == Some(rpc) && o.subscription == Some(subscriptionId) && o.paramsError == Some(error)
         && o.paramsResult.None? && (o.id.None? || (o.result.None? && o.error.None?))
  }

  lemma ParsedExactlyWhen(o: Object, r: RpcResponse)
    ensures Parse(o) == Some(r) <==> Reads(o, r)
  {
  }

  /** In particular an object without an id can only be a notification. */
  method FromStr(o: Object) returns (response: Option<RpcResponse>)
    ensures response == Parse(o)
    ensures response.Some? ==> Reads(o, response.value)
    ensures response.None? ==> forall r :: !Reads(o, r)
    ensures o.id.None? && response.Some? ==> response.value.Notification? || response.value.NotificationError?
  {
    forall r
      ensures Parse(o) == Some(r) <==> Reads(o, r)
    {
      ParsedExactlyWhen(o, r);
    }
    response := AsResponse(o);
    if response.Some? { return; }
    response := AsNotification(o);
    if response.Some? { return; }
    response := AsResponseError(o);
    if response.Some? { return; }
    response := AsNotificationError(o);
  }

  /** What is sent back for a message. */
  datatype Answer =
    | Value(result: Raw)
    | Subscribed(subscriptionId: string)
    | JsonRpcError(error: Raw)
    | SmoldotError(reason: string)

  datatype Item = OkItem(result: Raw) | ErrItem(error: Raw)

  /** What the task does to the outside, in order. The reply channel of a message is known by
      the position of the message among all messages, the notification channel of a
      subscription by its position among all activations. */
  datatype Output =
    | Submitted(idText: string, rpc: string, params: Raw)
    | Answered(channel: nat, answer: Answer, received: bool)
    | Dropped(channel: nat)
    | Activated(activation: nat, subscriptionId: string)
    | Notified(activation: nat, item: Item)
    | Unsubscribing(activation: nat, idText: string, rpc: string, subscriptionId: string)

  datatype Pending = Pending(channel: nat, unsubscribeMethod: string)

  datatype Active = Active(activation: nat, unsubscribeMethod: string)

  /** `modulus` is one more than the largest `usize`; `asString` reads a JSON string. */
  datatype Platform = Platform(modulus: nat, asString: Raw -> Option<string>)

  /** One turn of the task. `rejection` is smoldot's refusal of the request made in this
      turn, if it refuses; `alive` tells whether the receiver addressed in it still exists. */
  datatype Event =
    | FromFront(message: Message, rejection: Option<string>, alive: bool)
    | FromBack(response: Option<RpcResponse>, alive: bool)

  datatype State = State(
    lastRequestId: nat,
    requests: map<nat, nat>,
    pendingSubscriptions: map<nat, Pending>,
    subscriptions: map<string, Active>,
    issued: nat, handled: nat, activations: nat, log: seq<Output>)

  const INITIAL := State(0, map[], map[], map[], 0, 0, 0, [])

  function ParamsText(params: Option<Raw>): Raw {
    match params case Some(p) => p case None => "null"
  }

  function NextId(p: Platform, s: State): State
    requires p.modulus > 0
  {
    s.(lastRequestId := (s.lastRequestId + 1) % p.modulus, issued := s.issued + 1)
  }

  function Emit(s: State, outputs: seq<Output>): State {
    s.(log := s.log + outputs)
  }

  /** A sender that an insertion pushes out of the map is dropped. */
  function Evicted(requests: map<nat, nat>, id: nat): seq<Output> {
    if id in requests then [Dropped(requests[id])] else []
  }

  function EvictedPending(pending: map<nat, Pending>, id: nat): seq<Output> {
    if id in pending then [Dropped(pending[id].channel)] else []
  }

  function HandleFront(p: Platform, s: State, message: Message, rejection: Option<string>, alive: bool): State
    requires p.modulus > 0
  {
    var t := NextId(p, s).(handled := s.handled + 1);
    var id, channel := t.lastRequestId, s.handled;
    match message
    case Request(rpc, params) =>
      var u := Emit(t.(requests := t.requests[id := channel]), Evicted(t.requests, id));
      (match rejection
       case Some(reason) => Emit(u.(requests := u.requests - {id}), [Answered(channel, SmoldotError(reason), alive)])
       case None => Emit(u, [Submitted(Decimal(id), rpc, ParamsText(params))]))
    case Subscription(rpc, unsubscribeMethod, params) =>
      var u := Emit(t.(pendingSubscriptions := t.pendingSubscriptions[id := Pending(channel, unsubscribeMethod)]),
                    EvictedPending(t.pendingSubscriptions, id));
      match rejection
      case Some(reason) =>
        Emit(u.(pendingSubscriptions := u.pendingSubscriptions - {id}),
             [Answered(channel, SmoldotError(reason), alive)])
      case None => Emit(u, [Submitted(Decimal(id), rpc, ParamsText(params))])
  }

  function Unsubscribe(p: Platform, s: State, subscriptionId: string): State
    requires p.modulus > 0
  {
    if subscriptionId !in s.subscriptions then s
    else
      var active := s.subscriptions[subscriptionId];
      var t := NextId(p, s.(subscriptions := s.subscriptions - {subscriptionId}));
      Emit(t, [Unsubscribing(active.activation, Decimal(t.lastRequestId), active.unsubscribeMethod, subscriptionId)])
  }

  function HandleNotification(p: Platform, s: State, subscriptionId: string, item: Item, alive: bool): State
    requires p.modulus > 0
  {
    if subscriptionId !in s.subscriptions then s
    else if alive then Emit(s, [Notified(s.subscriptions[subscriptionId].activation, item)])
    else Unsubscribe(p, s, subscriptionId)
  }

  function HandleMethod(p: Platform, s: State, id: nat, result: Raw, alive: bool): State {
    if id in s.requests then
      Emit(s.(requests := s.requests - {id}), [Answered(s.requests[id], Value(result), alive)])
    else if id in s.pendingSubscriptions then
      var pending := s.pendingSubscriptions[id];
      var t := s.(pendingSubscriptions := s.pendingSubscriptions - {id});
      match p.asString(result)
      case None => Emit(t, [Dropped(pending.channel)])
      case Some(subscriptionId) =>
        var u := Emit(t, [Answered(pending.channel, Subscribed(subscriptionId), alive)]);
        if !alive then u
        else
          Emit(u.(subscriptions := u.subscriptions[subscriptionId := Active(u.activations, pending.unsubscribeMethod)],
                  activations := u.activations + 1),
               [Activated(u.activations, subscriptionId)])
    else s
  }

  function HandleMethodError(s: State, id: nat, error: Raw, alive: bool): State {
    if id in s.requests then
      Emit(s.(requests := s.requests - {id}), [Answered(s.requests[id], JsonRpcError(error), alive)])
    else if id in s.pendingSubscriptions then
      Emit(s.(pendingSubscriptions := s.pendingSubscriptions - {id}),
           [Answered(s.pendingSubscriptions[id].channel, JsonRpcError(error), alive)])
    else s
  }

  function HandleBack(p: Platform, s: State, response: Option<RpcResponse>, alive: bool): State
    requires p.modulus > 0
  {
    match response
    case None => s
    case Some(Method(id, result)) =>
      (match ParseUsize(id, p.modulus) case None => s case Some(n) => HandleMethod(p, s, n, result, alive))
    case Some(MethodError(id, error)) =>
      (match ParseUsize(id, p.modulus) case None => s case Some(n) => HandleMethodError(s, n, error, alive))
    case Some(Notification(_, subscriptionId, result)) =>
      HandleNotification(p, s, subscriptionId, OkItem(result), alive)
    case Some(NotificationError(_, subscriptionId, error)) =>
      HandleNotification(p, s, subscriptionId, ErrItem(error), alive)
  }

  function Step(p: Platform, s: State, e: Event): State
    requires p.modulus > 0
  {
    match e
    case FromFront(message, rejection, alive) => HandleFront(p, s, message, rejection, alive)
    case FromBack(response, alive) => HandleBack(p, s, response, alive)
  }

  /** Only messages from the front are counted. */
  lemma StepCounts(p: Platform, s: State, e: Event)
    requires p.modulus > 0
    ensures Step(p, s, e).handled == if e.FromFront? then s.handled + 1 else s.handled
  {
    hide ParseUsize, Evicted, EvictedPending, Decimal, ParamsText;
  }

  function Run(p: Platform, events: seq<Event>): State
    requires p.modulus > 0
  {
    if events == [] then INITIAL else Step(p, Run(p, events[..|events| - 1]), events[|events| - 1])
  }

  // ---- the task as the source writes it ----

  class BackgroundTaskData {
    const platform: Platform
    var lastRequestId: nat
    var requests: map<nat, nat>
    var pendingSubscriptions: map<nat, Pending>
    var subscriptions: map<string, Active>
    ghost var issued: nat
    ghost var handled: nat
    var activations: nat
    ghost var log: seq<Output>

    constructor (platform: Platform)
      ensures this.platform == platform && Abstract() == INITIAL
    {
      this.platform := platform;
      lastRequestId := 0;
      requests, pendingSubscriptions, subscriptions := map[], map[], map[];
      issued, handled, activations, log := 0, 0, 0, [];
    }

    ghost function Abstract(): State
      reads this
    {
      State(lastRequestId, requests, pendingSubscriptions, subscriptions, issued, handled, activations, log)
    }

    method NextRequestId() returns (id: nat)
      requires platform.modulus > 0
      modifies this
      ensures Abstract() == NextId(platform, old(Abstract())) && id == lastRequestId
    {
      lastRequestId := (lastRequestId + 1) % platform.modulus;
      issued := issued + 1;
      id := lastRequestId;
    }

    /** `sender` is the reply channel that was created for this message. */
    method HandleRequests(message: Message, sender: nat, rejection: Option<string>, alive: bool)
      requires platform.modulus > 0 && sender == handled
      modifies this
      ensures Abstract() == HandleFront(platform, old(Abstract()), message, rejection, alive)
    {
      hide Decimal, ParamsText, Evicted, EvictedPending;
      handled := handled + 1;
      match message
      case Request(rpc, params) =>
        var id := NextRequestId();
        log := log + Evicted(requests, id);
        requests := requests[id := sender];
        if rejection.Some? {
          var channel := requests[id];
          requests := requests - {id};
          log := log + [Answered(channel, SmoldotError(rejection.value), alive)];
        } else {
          log := log + [Submitted(Decimal(id), rpc, ParamsText(params))];
        }
      case Subscription(rpc, unsubscribeMethod, params) =>
        var id := NextRequestId();
        log := log + EvictedPending(pendingSubscriptions, id);
        pendingSubscriptions := pendingSubscriptions[id := Pending(sender, unsubscribeMethod)];
        if rejection.Some? {
          var pending := pendingSubscriptions[id];
          pendingSubscriptions := pendingSubscriptions - {id};
          log := log + [Answered(pending.channel, SmoldotError(rejection.value), alive)];
        } else {
          log := log + [Submitted(Decimal(id), rpc, ParamsText(params))];
        }
    }

    method HandleRpcResponse(response: Option<RpcResponse>, alive: bool)
      requires platform.modulus > 0
      modifies this
      ensures Abstract() == HandleBack(platform, old(Abstract()), response, alive)
    {
      match response
      case None =>
      case Some(Method(idText, result)) =>
        var id := ParseUsize(idText, platform.modulus);
        if id.None? { return; }
        if id.value in requests {
          var sender := requests[id.value];
          requests := requests - {id.value};
          log := log + [Answered(sender, Value(result), alive)];
        } else if id.value in pendingSubscriptions {
          var pending := pendingSubscriptions[id.value];
          pendingSubscriptions := pendingSubscriptions - {id.value};
          var subscriptionId := platform.asString(result);
          if subscriptionId.None? {
            log := log + [Dropped(pending.channel)];
            return;
          }
          log := log + [Answered(pending.channel, Subscribed(subscriptionId.value), alive)];
          if !alive { return; }
          subscriptions := subscriptions[subscriptionId.value := Active(activations, pending.unsubscribeMethod)];
          log := log + [Activated(activations, subscriptionId.value)];
          activations := activations + 1;
        }
      case Some(MethodError(idText, error)) =>
        var id := ParseUsize(idText, platform.modulus);
        if id.None? { return; }
        if id.value in requests {
          var sender := requests[id.value];
          requests := requests - {id.value};
          log := log + [Answered(sender, JsonRpcError(error), alive)];
        } else if id.value in pendingSubscriptions {
          var pending := pendingSubscriptions[id.value];
          pendingSubscriptions := pendingSubscriptions - {id.value};
          log := log + [Answered(pending.channel, JsonRpcError(error), alive)];
        }
      case Some(Notification(_, subscriptionId, result)) =>
        if subscriptionId !in subscriptions { return; }
        if alive {
          log := log + [Notified(subscriptions[subscriptionId].activation, OkItem(result))];
        } else {
          UnsubscribeFrom(subscriptionId);
        }
      case Some(NotificationError(_, subscriptionId, error)) =>
        if subscriptionId !in subscriptions { return; }
        if alive {
          log := log + [Notified(subscriptions[subscriptionId].activation, ErrItem(error))];
        } else {
          UnsubscribeFrom(subscriptionId);
        }
    }

    method Turn(e: Event, sender: nat)
      requires platform.modulus > 0 && sender == handled
      modifies this
      ensures Abstract() == Step(platform, old(Abstract()), e)
      ensures handled == if e.FromFront? then sender + 1 else sender
    {
      hide HandleFront, HandleBack;
      StepCounts(platform, Abstract(), e);
      match e
      case FromFront(message, rejection, alive) =>
        HandleRequests(message, sender, rejection, alive);
      case FromBack(response, alive) =>
        HandleRpcResponse(response, alive);
    }

    method UnsubscribeFrom(subscriptionId: string)
      requires platform.modulus > 0
      modifies this
      ensures Abstract() == Unsubscribe(platform, old(Abstract()), subscriptionId)
    {
      if subscriptionId !in subscriptions { return; }
      var active := subscriptions[subscriptionId];
      subscriptions := subscriptions - {subscriptionId};
      var id := NextRequestId();
      log := log + [Unsubscribing(active.activation, Decimal(id), active.unsubscribeMethod, subscriptionId)];
    }
  }

  /** The `run` loop on the events that arrive before either channel closes. */
  method RunTask(platform: Platform, events: seq<Event>) returns (data: BackgroundTaskData)
    requires platform.modulus > 0
    ensures fresh(data) && data.platform == platform
    ensures data.Abstract() == Run(platform, events)
  {
    data := new BackgroundTaskData(platform);
    var sender := 0;
    for i := 0 to |events|
      invariant fresh(data) && data.platform == platform
      invariant data.Abstract() == Run(platform, events[..i]) && sender == data.handled
    {
      assert events[..i + 1][..i] == events[..i];
      data.Turn(events[i], sender);
      sender := if events[i].FromFront? then sender + 1 else sender;
    }
    assert events[..|events|] == events;
  }
}
