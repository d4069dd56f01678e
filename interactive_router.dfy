/**
 * The interactive-component router (omnibot_receiver/router.py,
 * `OmnibotInteractiveRouter`).
 *
 * Callbacks are registered by callback id into buckets keyed by the
 * component's event type; callbacks registered without an event type go to
 * the bucket `__all`.  An event is routed to the callback with its callback id
 * in the bucket of its type, else in `__all`, else to the default route, else
 * `NoMatchedRouteError` is raised.
 */
module InteractiveRouting {
  import opened Options
  import opened Events

  /** The bucket for callbacks registered without an event type. */
  const AllTypes := "__all"

  /** A registered callback. */
  datatype Callback = Callback(callbackId: string, handler: Handler)

  /** The buckets of callbacks by event type (`self.routes`). */
  type Callbacks = map<string, seq<Callback>>

  /** `bucket` holds a callback registered as `callbackId`. */
  predicate Defines(bucket: seq<Callback>, callbackId: string) {
    exists k :: 0 <= k < |bucket| && bucket[k].callbackId == callbackId
  }

  /** No callback id twice in one bucket. */
  predicate BucketValid(bucket: seq<Callback>) {
    forall i, j :: 0 <= i < j < |bucket| ==> bucket[i].callbackId != bucket[j].callbackId
  }

  /** The `__all` bucket exists, and every bucket is as registration keeps it. */
  predicate CallbacksValid(routes: Callbacks) {
    && AllTypes in routes
    && forall t :: t in routes ==> BucketValid(routes[t])
  }

  /** The bucket a registration goes to. */
  function BucketOf(eventType: Option<string>): string {
    eventType.GetOr(AllTypes)
  }

  /**
   * `add_event_callback` as a function of the buckets: the bucket of the event
   * type is created when it is missing, a callback id already in it is
   * refused, and otherwise the callback is appended.
   */
  function AddCallback(routes: Callbacks, callbackId: string, f: Handler, eventType: Option<string>): (Status, Callbacks) {
    var t := BucketOf(eventType);
    var bucket := if t in routes then routes[t] else [];
    if Defines(bucket, callbackId) then (Failed(RouteAlreadyDefined), routes[t := bucket])
    else (Ok, routes[t := bucket + [Callback(callbackId, f)]])
  }

  /**
   * Registration keeps the buckets valid; a success appends to its own bucket
   * only, and a refusal changes no registered callback.
   */
  lemma AddCallbackKeepsValid(routes: Callbacks, callbackId: string, f: Handler, eventType: Option<string>)
    requires CallbacksValid(routes)
    ensures CallbacksValid(AddCallback(routes, callbackId, f, eventType).1)
    ensures var (st, routes') := AddCallback(routes, callbackId, f, eventType);
            && routes'.Keys == routes.Keys + {BucketOf(eventType)}
            && (forall t :: t in routes && t != BucketOf(eventType) ==> routes'[t] == routes[t])
            && (st == Ok ==> routes'[BucketOf(eventType)] == (if BucketOf(eventType) in routes then routes[BucketOf(eventType)] else []) + [Callback(callbackId, f)])
            && (st != Ok ==> st == Failed(RouteAlreadyDefined) && routes'[BucketOf(eventType)] == routes[BucketOf(eventType)])
  {
    var t := BucketOf(eventType);
    var bucket := if t in routes then routes[t] else [];
    if !Defines(bucket, callbackId) {
      var b := bucket + [Callback(callbackId, f)];
      assert forall i :: 0 <= i < |bucket| ==> b[i] == bucket[i];
    }
  }

  /** Registering one callback id twice for one event type fails the second time. */
  lemma AddCallbackTwiceFails(routes: Callbacks, callbackId: string, f: Handler, g: Handler, eventType: Option<string>)
    requires AddCallback(routes, callbackId, f, eventType).0 == Ok
    ensures AddCallback(AddCallback(routes, callbackId, f, eventType).1, callbackId, g, eventType).0 == Failed(RouteAlreadyDefined)
  {
    var b := AddCallback(routes, callbackId, f, eventType).1[BucketOf(eventType)];
    assert b[|b| - 1].callbackId == callbackId;
  }

  /** The same callback id may be registered once per event type. */
  lemma AddCallbackPerType(routes: Callbacks, callbackId: string, f: Handler, g: Handler, t1: Option<string>, t2: Option<string>)
    requires BucketOf(t1) != BucketOf(t2)
    requires AddCallback(routes, callbackId, f, t1).0 == Ok
    ensures AddCallback(AddCallback(routes, callbackId, f, t1).1, callbackId, g, t2).0 == AddCallback(routes, callbackId, g, t2).0
  {
  }

  // ---------------------------------------------------------------------------
  // Finding the callback of an event.

  /** The index of the callback registered as `callbackId` in `bucket`. */
  function FindCallback(bucket: seq<Callback>, callbackId: string): (r: Option<nat>)
    ensures r.Some? ==> r.value < |bucket| && bucket[r.value].callbackId == callbackId
    ensures r.None? <==> !Defines(bucket, callbackId)
    ensures r.Some? ==> forall k :: 0 <= k < r.value ==> bucket[k].callbackId != callbackId
  {
    if bucket == [] then None
    else if bucket[0].callbackId == callbackId then Some(0)
    else
      match FindCallback(bucket[1..], callbackId)
      case Some(i) => Some(i + 1)
      case None =>
        assert forall k :: 1 <= k < |bucket| ==> bucket[k] == bucket[1..][k - 1];
        None
  }

  /** In a valid bucket the callback of an id is the only one with that id. */
  lemma FindCallbackUnique(bucket: seq<Callback>, callbackId: string, k: nat)
    requires BucketValid(bucket) && k < |bucket| && bucket[k].callbackId == callbackId
    ensures FindCallback(bucket, callbackId) == Some(k)
  {
  }

  /** The first callback of an id is the one `FindCallback` finds. */
  lemma FirstCallback(bucket: seq<Callback>, callbackId: string, k: nat)
    requires k < |bucket| && bucket[k].callbackId == callbackId
    requires forall j :: 0 <= j < k ==> bucket[j].callbackId != callbackId
    ensures FindCallback(bucket, callbackId) == Some(k)
  {
    assert Defines(bucket, callbackId);
  }

  /** The bucket of an event's type, or none. */
  function TypeBucket(routes: Callbacks, eventType: Option<string>): seq<Callback> {
    if eventType.Some? && eventType.value in routes then routes[eventType.value] else []
  }

  /**
   * `_get_route_match`: the callback of the event's id in the bucket of its
   * type, else in `__all`.  An event without a callback id matches nothing.
   */
  function InteractiveMatch(routes: Callbacks, callbackId: Option<string>, eventType: Option<string>): Option<Handler>
    requires AllTypes in routes
  {
    if callbackId.None? then None
    else
      var own := TypeBucket(routes, eventType);
      match FindCallback(own, callbackId.value)
      case Some(i) => Some(own[i].handler)
      case None =>
        match FindCallback(routes[AllTypes], callbackId.value)
        case Some(j) => Some(routes[AllTypes][j].handler)
        case None => None
  }

  /**
   * A callback registered for the event's type overrides one registered for
   * all types, and the match is always a callback registered under the
   * event's id.
   */
  lemma InteractiveMatchSpec(routes: Callbacks, callbackId: string, eventType: Option<string>)
    requires AllTypes in routes
    ensures Defines(TypeBucket(routes, eventType), callbackId) ==>
            exists k :: 0 <= k < |TypeBucket(routes, eventType)|
                     && InteractiveMatch(routes, Some(callbackId), eventType) == Some(TypeBucket(routes, eventType)[k].handler)
                     && TypeBucket(routes, eventType)[k].callbackId == callbackId
    ensures !Defines(TypeBucket(routes, eventType), callbackId) && Defines(routes[AllTypes], callbackId) ==>
            exists k :: 0 <= k < |routes[AllTypes]|
                     && InteractiveMatch(routes, Some(callbackId), eventType) == Some(routes[AllTypes][k].handler)
                     && routes[AllTypes][k].callbackId == callbackId
    ensures InteractiveMatch(routes, Some(callbackId), eventType).None?
        <==> !Defines(TypeBucket(routes, eventType), callbackId) && !Defines(routes[AllTypes], callbackId)
  {
  }

  /** After a registration, an event of its type and id goes to its function. */
  lemma RegisteredCallbackMatches(routes: Callbacks, callbackId: string, f: Handler, eventType: string)
    requires CallbacksValid(routes)
    requires AddCallback(routes, callbackId, f, Some(eventType)).0 == Ok
    ensures InteractiveMatch(AddCallback(routes, callbackId, f, Some(eventType)).1, Some(callbackId), Some(eventType)) == Some(f)
  {
    AddCallbackKeepsValid(routes, callbackId, f, Some(eventType));
    var b := AddCallback(routes, callbackId, f, Some(eventType)).1[eventType];
    FindCallbackUnique(b, callbackId, |b| - 1);
  }

  /** The router's fields as one value. */
  datatype InteractiveConfig = InteractiveConfig(defaultRoute: Option<Handler>, routes: Callbacks)

  /** `handle_interactive_component`: how an event is routed. */
  function InteractiveOutcome(cfg: InteractiveConfig, ev: Event): Outcome
    requires AllTypes in cfg.routes
  {
    match InteractiveMatch(cfg.routes, ev.callbackId, ev.eventType)
    case Some(h) => Invoke(h, map[])
    case None =>
      if cfg.defaultRoute.Some? then Invoke(cfg.defaultRoute.value, map[])
      else Raise(NoMatchedRoute)
  }

  /**
   * Routing calls the matched callback, else the default; it raises
   * `NoMatchedRouteError` only when neither exists, and never passes captures.
   */
  lemma InteractiveOutcomeSpec(cfg: InteractiveConfig, ev: Event)
    requires AllTypes in cfg.routes
    ensures InteractiveOutcome(cfg, ev) == Raise(NoMatchedRoute)
        <==> InteractiveMatch(cfg.routes, ev.callbackId, ev.eventType).None? && cfg.defaultRoute.None?
    ensures InteractiveOutcome(cfg, ev).Invoke? ==> InteractiveOutcome(cfg, ev).captures == map[]
    ensures InteractiveOutcome(cfg, ev).Invoke? ==>
            || Some(InteractiveOutcome(cfg, ev).handler) == cfg.defaultRoute
            || exists t, k :: t in cfg.routes && 0 <= k < |cfg.routes[t]| && cfg.routes[t][k].handler == InteractiveOutcome(cfg, ev).handler
    ensures !InteractiveOutcome(cfg, ev).AutoHelp?
    ensures InteractiveMatch(cfg.routes, ev.callbackId, ev.eventType).Some? ==>
            InteractiveOutcome(cfg, ev) == Invoke(InteractiveMatch(cfg.routes, ev.callbackId, ev.eventType).value, map[])
    ensures InteractiveMatch(cfg.routes, ev.callbackId, ev.eventType).None? && cfg.defaultRoute.Some? ==>
            InteractiveOutcome(cfg, ev) == Invoke(cfg.defaultRoute.value, map[])
  {
    if ev.callbackId.Some? {
      var own := TypeBucket(cfg.routes, ev.eventType);
      match FindCallback(own, ev.callbackId.value)
      case Some(i) =>
        assert ev.eventType.value in cfg.routes && cfg.routes[ev.eventType.value][i] == own[i];
      case None =>
        match FindCallback(cfg.routes[AllTypes], ev.callbackId.value)
        case Some(j) =>
        case None =>
    }
  }

  // ---------------------------------------------------------------------------
  // The router object.

  class InteractiveRouter {
    var defaultRoute: Option<Handler>
    var routes: Callbacks

    ghost predicate Valid()
      reads this
    {
      CallbacksValid(routes)
    }

    /** The fields as one value. */
    function Config(): InteractiveConfig
      reads this
    {
      InteractiveConfig(defaultRoute, routes)
    }

    constructor ()
      ensures Valid()
      ensures defaultRoute == None && routes == map[AllTypes := []]
    {
      defaultRoute := None;
      routes := map[AllTypes := []];
    }

    /** `set_default`: registers the default route, once. */
    method SetDefault(f: Handler) returns (st: Status)
      requires Valid()
      modifies this
      ensures Valid()
      ensures old(defaultRoute).Some? ==> st == Failed(RouteAlreadyDefined) && defaultRoute == old(defaultRoute)
      ensures old(defaultRoute).None? ==> st == Ok && defaultRoute == Some(f)
      ensures routes == old(routes)
    {
      if defaultRoute.Some? {
        return Failed(RouteAlreadyDefined);
      }
      defaultRoute := Some(f);
      return Ok;
    }

    /** `add_event_callback`: registers `routeFunc` for events with `callbackId`. */
    method AddEventCallback(callbackId: string, routeFunc: Handler, eventType: Option<string> := None) returns (st: Status)
      requires Valid()
      modifies this
      ensures Valid()
      ensures (st, routes) == AddCallback(old(routes), callbackId, routeFunc, eventType)
      ensures defaultRoute == old(defaultRoute)
    {
      AddCallbackKeepsValid(routes, callbackId, routeFunc, eventType);
      var t := if eventType.None? then AllTypes else eventType.value;
      ghost var before := routes;
      if t !in routes {
        routes := routes[t := []];
      }
      var bucket := routes[t];
      var i := 0;
      while i < |bucket|
        invariant 0 <= i <= |bucket|
        invariant forall k :: 0 <= k < i ==> bucket[k].callbackId != callbackId
      {
        if bucket[i].callbackId == callbackId {
          assert Defines(bucket, callbackId) && routes == before[t := bucket];
          return Failed(RouteAlreadyDefined);
        }
        i := i + 1;
      }
      assert !Defines(bucket, callbackId);
      routes := routes[t := bucket + [Callback(callbackId, routeFunc)]];
      assert routes == before[t := bucket + [Callback(callbackId, routeFunc)]];
      return Ok;
    }

    /** The `route` decorator: `add_event_callback` with the event type when one is given. */
    method Route(callbackId: string, f: Handler, eventType: Option<string> := None) returns (st: Status)
      requires Valid()
      modifies this
      ensures Valid()
      ensures (st, routes) == AddCallback(old(routes), callbackId, f, eventType)
      ensures defaultRoute == old(defaultRoute)
    {
      st := AddEventCallback(callbackId, f, eventType);
    }

    /** `_get_route_match`: searches the bucket of the event's type, then `__all`. */
    method GetRouteMatch(callbackId: Option<string>, eventType: Option<string>) returns (r: Option<Handler>)
      requires Valid()
      ensures r == InteractiveMatch(routes, callbackId, eventType)
    {
      var own := if eventType.Some? && eventType.value in routes then routes[eventType.value] else [];
      assert own == TypeBucket(routes, eventType);
      var i := 0;
      while i < |own|
        invariant 0 <= i <= |own|
        invariant forall k :: 0 <= k < i ==> Some(own[k].callbackId) != callbackId
      {
        if Some(own[i].callbackId) == callbackId {
          FirstCallback(own, callbackId.value, i);
          return Some(own[i].handler);
        }
        i := i + 1;
      }
      if callbackId.Some? {
        assert FindCallback(own, callbackId.value).None? by {
          assert !Defines(own, callbackId.value);
        }
      }
      var all := routes[AllTypes];
      var j := 0;
      while j < |all|
        invariant 0 <= j <= |all|
        invariant forall k :: 0 <= k < j ==> Some(all[k].callbackId) != callbackId
      {
        if Some(all[j].callbackId) == callbackId {
          FirstCallback(all, callbackId.value, j);
          return Some(all[j].handler);
        }
        j := j + 1;
      }
      if callbackId.Some? {
        assert FindCallback(all, callbackId.value).None? by {
          assert !Defines(all, callbackId.value);
        }
      }
      return None;
    }

    /** `handle_interactive_component`: routes an event as `InteractiveOutcome` says. */
    method HandleInteractiveComponent(ev: Event) returns (o: Outcome)
      requires Valid()
      ensures o == InteractiveOutcome(Config(), ev)
    {
      var viewFunction := GetRouteMatch(ev.callbackId, ev.eventType);
      if viewFunction.Some? {
        return Invoke(viewFunction.value, map[]);
      }
      if defaultRoute.Some? {
        return Invoke(defaultRoute.value, map[]);
      }
      return Raise(NoMatchedRoute);
    }
  }
}
