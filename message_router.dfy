/**
 * The message router (omnibot_receiver/router.py, `OmnibotMessageRouter`).
 *
 * Routes are kept in two buckets, `command` and `regex`, in registration
 * order.  A message is routed by its `match_type` to one bucket, and its
 * `args` go to the first route of that bucket whose compiled pattern matches;
 * the function of that route is called with the pattern's named groups.  A
 * message no route matches goes to the default route, else (when help is the
 * default) to the help function or the built-in help document, else raises
 * `NoMatchedRouteError`.
 *
 * The registration and routing rules are stated as functions of the router's
 * fields (`AddRule`, `RouteMatchOf`, `HelpDocument`, `MessageOutcome`); the
 * methods of `MessageRouter` update and read the fields as the source does and
 * are proved to agree with those functions.
 */
module MessageRouting {
  import opened Options
  import opened Pattern
  import opened Response
  import opened Events
  import TemplateMatch

  /** A registered route: compiled pattern, help text `rule:help`, and function. */
  datatype RouteEntry = RouteEntry(pattern: string, helpText: string, handler: Handler)

  /** The buckets of routes by match type (`self.routes`). */
  type Routes = map<string, seq<RouteEntry>>

  /** The routes of a new router: both buckets empty. */
  function NoRoutes(): Routes {
    map["command" := [], "regex" := []]
  }

  /** `bucket` holds a route with `pattern`. */
  predicate Defines(bucket: seq<RouteEntry>, pattern: string) {
    exists k :: 0 <= k < |bucket| && bucket[k].pattern == pattern
  }

  /** A bucket as registration keeps it: no pattern twice, and a `:` in every help text. */
  predicate BucketValid(bucket: seq<RouteEntry>) {
    && (forall i, j :: 0 <= i < j < |bucket| ==> bucket[i].pattern != bucket[j].pattern)
    && HelpsSplit(bucket)
  }

  /** Every help text of the bucket has a `:` to split at. */
  predicate HelpsSplit(bucket: seq<RouteEntry>) {
    forall i :: 0 <= i < |bucket| ==> ':' in bucket[i].helpText
  }

  /** Exactly the two buckets, each as registration keeps it. */
  predicate RoutesValid(routes: Routes) {
    && routes.Keys == {"command", "regex"}
    && BucketValid(routes["command"])
    && BucketValid(routes["regex"])
  }

  // ---------------------------------------------------------------------------
  // Registration.

  /**
   * `add_message_rule` as a function of the routes: an unknown match type is a
   * `KeyError`, a pattern already in the bucket is refused, and otherwise the
   * route is appended to its bucket.
   */
  function AddRule(routes: Routes, rule: string, matchType: string, f: Handler, help: string): (Status, Routes) {
    if matchType !in routes then (Failed(KeyError(matchType)), routes)
    else if Defines(routes[matchType], GetRoutePattern(rule)) then (Failed(RouteAlreadyDefined), routes)
    else (Ok, routes[matchType := routes[matchType] + [RouteEntry(GetRoutePattern(rule), rule + ":" + help, f)]])
  }

  /** Registration keeps the buckets valid, and changes nothing when it fails. */
  lemma AddRuleKeepsValid(routes: Routes, rule: string, matchType: string, f: Handler, help: string)
    requires RoutesValid(routes)
    ensures RoutesValid(AddRule(routes, rule, matchType, f, help).1)
    ensures AddRule(routes, rule, matchType, f, help).0 != Ok ==> AddRule(routes, rule, matchType, f, help).1 == routes
  {
    var (st, routes') := AddRule(routes, rule, matchType, f, help);
    if st == Ok {
      var b := routes[matchType] + [RouteEntry(GetRoutePattern(rule), rule + ":" + help, f)];
      assert forall i :: 0 <= i < |b| - 1 ==> b[i] == routes[matchType][i];
      assert ':' in b[|b| - 1].helpText by {
        assert (rule + ":" + help)[|rule|] == ':';
      }
    }
  }

  /** A successful registration touches only its own bucket, and only by appending its route. */
  lemma AddRuleAppends(routes: Routes, rule: string, matchType: string, f: Handler, help: string)
    requires AddRule(routes, rule, matchType, f, help).0 == Ok
    ensures matchType in routes
    ensures AddRule(routes, rule, matchType, f, help).1.Keys == routes.Keys
    ensures AddRule(routes, rule, matchType, f, help).1[matchType]
         == routes[matchType] + [RouteEntry(GetRoutePattern(rule), rule + ":" + help, f)]
    ensures forall t :: t in routes && t != matchType ==> AddRule(routes, rule, matchType, f, help).1[t] == routes[t]
  {
  }

  /** Registering the same rule twice under one match type fails the second time. */
  lemma AddRuleTwiceFails(routes: Routes, rule: string, matchType: string, f: Handler, g: Handler, help: string, help2: string)
    requires AddRule(routes, rule, matchType, f, help).0 == Ok
    ensures AddRule(AddRule(routes, rule, matchType, f, help).1, rule, matchType, g, help2).0 == Failed(RouteAlreadyDefined)
  {
    var b := AddRule(routes, rule, matchType, f, help).1[matchType];
    assert b[|b| - 1].pattern == GetRoutePattern(rule);
  }

  /**
   * A registration does not get in the way of a different plain template:
   * after one succeeds, registering another template fares as it would have
   * without it.
   */
  lemma AddRuleIndependent(routes: Routes, r1: string, r2: string, matchType: string, f: Handler, g: Handler, h1: string, h2: string)
    requires AddRule(routes, r1, matchType, f, h1).0 == Ok
    requires r1 != r2
    requires TemplateMatch.PlainTemplate(Tokenize(r1)) && TemplateMatch.PlainTemplate(Tokenize(r2))
    ensures AddRule(AddRule(routes, r1, matchType, f, h1).1, r2, matchType, g, h2).0 == AddRule(routes, r2, matchType, g, h2).0
  {
    var b := routes[matchType];
    var b' := AddRule(routes, r1, matchType, f, h1).1[matchType];
    if GetRoutePattern(r1) == GetRoutePattern(r2) {
      TemplateMatch.RoutePatternInjective(r1, r2);
    }
    assert forall k :: 0 <= k < |b| ==> b'[k] == b[k];
    if Defines(b', GetRoutePattern(r2)) {
      var k :| 0 <= k < |b'| && b'[k].pattern == GetRoutePattern(r2);
      assert k < |b|;
    }
  }

  // ---------------------------------------------------------------------------
  // Finding the route for a text.

  /** The index of the first route of `bucket` whose pattern matches `text`. */
  function FirstMatch(bucket: seq<RouteEntry>, text: string, matches: Matcher): (r: Option<nat>)
    ensures r.Some? ==> r.value < |bucket| && matches(bucket[r.value].pattern, text).Some?
    ensures forall k :: 0 <= k < |bucket| && (r.None? || k < r.value) ==> matches(bucket[k].pattern, text).None?
  {
    if bucket == [] then None
    else if matches(bucket[0].pattern, text).Some? then Some(0)
    else
      match FirstMatch(bucket[1..], text, matches)
      case Some(i) => Some(i + 1)
      case None => None
  }

  /** What `_get_route_match` comes to. */
  datatype RouteMatch =
    | Matched(handler: Handler, captures: Captures)
    | NoMatch
    | UnknownMatchType(key: string)   // `self.routes[match_type]` raises KeyError

  /** The route for `text` among the routes of `matchType`: the first one that matches. */
  function RouteMatchOf(routes: Routes, text: string, matchType: string, matches: Matcher): RouteMatch {
    if matchType !in routes then UnknownMatchType(matchType)
    else
      match FirstMatch(routes[matchType], text, matches)
      case Some(i) => Matched(routes[matchType][i].handler, matches(routes[matchType][i].pattern, text).value)
      case None => NoMatch
  }

  /** The first match is the earliest matching route: no route before it matches. */
  lemma RouteMatchIsFirst(routes: Routes, text: string, matchType: string, matches: Matcher, i: nat)
    requires matchType in routes && i < |routes[matchType]|
    requires matches(routes[matchType][i].pattern, text).Some?
    requires forall k :: 0 <= k < i ==> matches(routes[matchType][k].pattern, text).None?
    ensures RouteMatchOf(routes, text, matchType, matches)
         == Matched(routes[matchType][i].handler, matches(routes[matchType][i].pattern, text).value)
  {
    var r := FirstMatch(routes[matchType], text, matches);
    assert r == Some(i);
  }

  /** Matching finds nothing exactly when no route of the bucket matches. */
  lemma NoMatchIffNoneMatches(routes: Routes, text: string, matchType: string, matches: Matcher)
    requires matchType in routes
    ensures RouteMatchOf(routes, text, matchType, matches) == NoMatch
        <==> forall k :: 0 <= k < |routes[matchType]| ==> matches(routes[matchType][k].pattern, text).None?
  {
    if FirstMatch(routes[matchType], text, matches).Some? {
      var i := FirstMatch(routes[matchType], text, matches).value;
      assert matches(routes[matchType][i].pattern, text).Some?;
    }
  }

  /**
   * Earlier routes win: after a registration, a text any older route matches
   * is routed as before, and only a text none of them matches can reach the
   * new route.
   */
  lemma RoutingAfterAddRule(routes: Routes, rule: string, matchType: string, f: Handler, help: string, text: string, matches: Matcher)
    requires AddRule(routes, rule, matchType, f, help).0 == Ok
    ensures RouteMatchOf(AddRule(routes, rule, matchType, f, help).1, text, matchType, matches)
         == if RouteMatchOf(routes, text, matchType, matches).Matched? then RouteMatchOf(routes, text, matchType, matches)
            else if matches(GetRoutePattern(rule), text).Some? then Matched(f, matches(GetRoutePattern(rule), text).value)
            else NoMatch
  {
    var b := routes[matchType];
    var b' := AddRule(routes, rule, matchType, f, help).1[matchType];
    assert forall k :: 0 <= k < |b| ==> b'[k] == b[k];
    match FirstMatch(b, text, matches)
    case Some(i) =>
      RouteMatchIsFirst(AddRule(routes, rule, matchType, f, help).1, text, matchType, matches, i);
    case None =>
      if matches(GetRoutePattern(rule), text).Some? {
        RouteMatchIsFirst(AddRule(routes, rule, matchType, f, help).1, text, matchType, matches, |b|);
      } else {
        NoMatchIffNoneMatches(AddRule(routes, rule, matchType, f, help).1, text, matchType, matches);
      }
  }

  // ---------------------------------------------------------------------------
  // The built-in help document.

  /** The index of the first `:` of `s`. */
  function FirstColon(s: string): (i: nat)
    requires ':' in s
    ensures i < |s| && s[i] == ':' && ':' !in s[..i]
  {
    if s[0] == ':' then 0
    else
      var i := 1 + FirstColon(s[1..]);
      assert s[..i] == [s[0]] + s[1..][..i - 1];
      i
  }

  /** `s.split(':', 1)` of a text that holds a `:`: the text before the first `:`, and the rest. */
  function SplitAtColon(s: string): (r: (string, string))
    requires ':' in s
    ensures s == r.0 + ":" + r.1 && ':' !in r.0
  {
    var i := FirstColon(s);
    assert s == s[..i] + ":" + s[i + 1..];
    (s[..i], s[i + 1..])
  }

  /** The split is the only one with no `:` before the separator. */
  lemma SplitAtColonUnique(a: string, b: string)
    requires ':' !in a
    ensures SplitAtColon(a + ":" + b) == (a, b)
  {
    var s := a + ":" + b;
    var (x, y) := SplitAtColon(s);
    assert s[|a|] == ':' && s[|x|] == ':';
    assert forall i :: 0 <= i < |a| ==> s[i] == a[i];
    assert forall i :: 0 <= i < |x| ==> s[i] == x[i];
    assert |x| == |a|;
    assert x == s[..|x|] == a;
    assert y == s[|a| + 1..] == b;
  }

  /** The help of a rule with a `:` in it is shown split at the rule's first `:`. */
  lemma SplitAtColonInRule(rule: string, help: string)
    requires ':' in rule
    ensures SplitAtColon(rule + ":" + help).0 == SplitAtColon(rule).0 == rule[..FirstColon(rule)]
    ensures SplitAtColon(rule + ":" + help).1 == rule[FirstColon(rule) + 1..] + ":" + help
  {
    var (a, b) := SplitAtColon(rule);
    assert a == rule[..FirstColon(rule)] && b == rule[FirstColon(rule) + 1..];
    ColonAssoc(a, b, help);
    SplitAtColonUnique(a, b + ":" + help);
  }

  lemma ColonAssoc(a: string, b: string, c: string)
    ensures (a + ":" + b) + ":" + c == a + ":" + (b + ":" + c)
  {
  }

  /** One entry of the help document: title, text, and `short` false. */
  function HelpField(title: string, text: string): Value {
    Object(map["title" := Str(title), "value" := Str(text), "short" := Bool(false)])
  }

  /** The entry of one route. */
  function RouteField(route: RouteEntry): Value
    requires ':' in route.helpText
  {
    var (action, text) := SplitAtColon(route.helpText);
    HelpField(action, text)
  }

  /** The entries of a bucket, in registration order. */
  function BucketFields(bucket: seq<RouteEntry>): (fields: seq<Value>)
    requires HelpsSplit(bucket)
    ensures |fields| == |bucket|
    ensures forall i :: 0 <= i < |bucket| ==> fields[i] == RouteField(bucket[i])
  {
    seq(|bucket|, i requires 0 <= i < |bucket| => RouteField(bucket[i]))
  }

  function Attachment(title: string, fields: seq<Value>): Value {
    Object(map["title" := Str(title), "fields" := List(fields)])
  }

  /** One attachment per non-empty bucket: commands first, then regular expressions. */
  function Attachments(routes: Routes): seq<Value>
    requires RoutesValid(routes)
  {
    (if |routes["command"]| > 0 then [Attachment("Commands:", BucketFields(routes["command"]))] else [])
    + (if |routes["regex"]| > 0 then [Attachment("Regex matches:", BucketFields(routes["regex"]))] else [])
  }

  /** The document `get_help` returns. */
  function HelpDocument(helpMessage: string, routes: Routes): Envelope
    requires RoutesValid(routes)
  {
    Actions([Action("chat.postMessage", map["text" := Str(helpMessage), "attachments" := List(Attachments(routes))])])
  }

  /**
   * The help document is one post of the help message, with one attachment
   * for each non-empty bucket; an entry shows a route's rule and help when the
   * rule has no `:`.
   */
  lemma HelpDocumentShape(helpMessage: string, routes: Routes)
    requires RoutesValid(routes)
    ensures |HelpDocument(helpMessage, routes).actions| == 1
    ensures HelpDocument(helpMessage, routes).actions[0].action == "chat.postMessage"
    ensures HelpDocument(helpMessage, routes).actions[0].kwargs.Keys == {"text", "attachments"}
    ensures HelpDocument(helpMessage, routes).actions[0].kwargs["text"] == Str(helpMessage)
    ensures HelpDocument(helpMessage, routes).actions[0].kwargs["attachments"] == List(Attachments(routes))
    ensures |Attachments(routes)| == (if |routes["command"]| > 0 then 1 else 0) + (if |routes["regex"]| > 0 then 1 else 0)
    ensures |routes["command"]| > 0 ==> Attachments(routes)[0] == Attachment("Commands:", BucketFields(routes["command"]))
    ensures |routes["regex"]| > 0 ==>
            Attachments(routes)[|Attachments(routes)| - 1] == Attachment("Regex matches:", BucketFields(routes["regex"]))
  {
  }

  /** A route registered from a rule without `:` is listed with that rule and its help. */
  lemma RegisteredRouteListed(routes: Routes, rule: string, matchType: string, f: Handler, help: string)
    requires RoutesValid(routes) && ':' !in rule
    requires AddRule(routes, rule, matchType, f, help).0 == Ok
    ensures RoutesValid(AddRule(routes, rule, matchType, f, help).1)
    ensures var b := AddRule(routes, rule, matchType, f, help).1[matchType];
            BucketFields(b)[|b| - 1] == HelpField(rule, help)
  {
    AddRuleKeepsValid(routes, rule, matchType, f, help);
    SplitAtColonUnique(rule, help);
  }

  // ---------------------------------------------------------------------------
  // Routing a message.

  /** The router's fields as one value. */
  datatype MessageConfig = MessageConfig(
    helpMessage: string,
    helpAsDefault: bool,
    helpRoute: Option<Handler>,
    defaultRoute: Option<Handler>,
    routes: Routes)

  /** `handle_message`: how a message is routed. */
  function MessageOutcome(cfg: MessageConfig, ev: Event, matches: Matcher): Outcome
    requires RoutesValid(cfg.routes)
  {
    if ev.matchType.None? then Raise(KeyError("match_type"))
    else
      match RouteMatchOf(cfg.routes, ev.args.GetOr(""), ev.matchType.value, matches)
      case UnknownMatchType(key) => Raise(KeyError(key))
      case Matched(h, captures) => Invoke(h, captures)
      case NoMatch =>
        if cfg.defaultRoute.Some? then Invoke(cfg.defaultRoute.value, map[])
        else if !cfg.helpAsDefault then Raise(NoMatchedRoute)
        else if cfg.helpRoute.Some? then Invoke(cfg.helpRoute.value, map[])
        else AutoHelp(HelpDocument(cfg.helpMessage, cfg.routes))
  }

  /** A registered function of the router. */
  predicate Registered(cfg: MessageConfig, h: Handler) {
    || cfg.defaultRoute == Some(h)
    || cfg.helpRoute == Some(h)
    || exists t, k :: t in cfg.routes && 0 <= k < |cfg.routes[t]| && cfg.routes[t][k].handler == h
  }

  /**
   * Routing calls only registered functions; captures go only to message
   * routes, and a message's function gets them exactly as its pattern matched.
   */
  lemma OutcomeInvokesRegistered(cfg: MessageConfig, ev: Event, matches: Matcher)
    requires RoutesValid(cfg.routes)
    ensures MessageOutcome(cfg, ev, matches).Invoke? ==> Registered(cfg, MessageOutcome(cfg, ev, matches).handler)
    ensures MessageOutcome(cfg, ev, matches).Invoke? && MessageOutcome(cfg, ev, matches).captures != map[] ==>
            exists k :: 0 <= k < |cfg.routes[ev.matchType.value]|
                     && cfg.routes[ev.matchType.value][k].handler == MessageOutcome(cfg, ev, matches).handler
                     && matches(cfg.routes[ev.matchType.value][k].pattern, ev.args.GetOr("")) == Some(MessageOutcome(cfg, ev, matches).captures)
  {
    if ev.matchType.Some? && ev.matchType.value in cfg.routes {
      var b := cfg.routes[ev.matchType.value];
      var r := FirstMatch(b, ev.args.GetOr(""), matches);
      if r.Some? {
        assert b[r.value].handler == MessageOutcome(cfg, ev, matches).handler;
      }
    }
  }

  /**
   * A message no route matches: the default route if there is one; otherwise
   * the help when help is the default; otherwise `NoMatchedRouteError`.
   */
  lemma UnmatchedMessage(cfg: MessageConfig, ev: Event, matches: Matcher)
    requires RoutesValid(cfg.routes)
    requires ev.matchType.Some? && RouteMatchOf(cfg.routes, ev.args.GetOr(""), ev.matchType.value, matches) == NoMatch
    ensures MessageOutcome(cfg, ev, matches) == Raise(NoMatchedRoute) <==> cfg.defaultRoute.None? && !cfg.helpAsDefault
    ensures MessageOutcome(cfg, ev, matches).AutoHelp? <==> cfg.defaultRoute.None? && cfg.helpAsDefault && cfg.helpRoute.None?
    ensures cfg.defaultRoute.Some? ==> MessageOutcome(cfg, ev, matches) == Invoke(cfg.defaultRoute.value, map[])
    ensures cfg.defaultRoute.None? && cfg.helpAsDefault && cfg.helpRoute.Some? ==>
            MessageOutcome(cfg, ev, matches) == Invoke(cfg.helpRoute.value, map[])
    ensures cfg.defaultRoute.None? && cfg.helpAsDefault && cfg.helpRoute.None? ==>
            MessageOutcome(cfg, ev, matches) == AutoHelp(HelpDocument(cfg.helpMessage, cfg.routes))
  {
  }

  /**
   * A message some route matches goes to the first such route with its
   * captures, whatever the default and help routes are.
   */
  lemma MatchedMessage(cfg: MessageConfig, ev: Event, matches: Matcher, h: Handler, captures: Captures)
    requires RoutesValid(cfg.routes)
    requires ev.matchType.Some? && RouteMatchOf(cfg.routes, ev.args.GetOr(""), ev.matchType.value, matches) == Matched(h, captures)
    ensures MessageOutcome(cfg, ev, matches) == Invoke(h, captures)
    ensures forall d, hr :: MessageOutcome(cfg.(defaultRoute := d, helpRoute := hr), ev, matches) == Invoke(h, captures)
  {
  }

  /** A new router answers every message of a known match type with its help. */
  lemma NewRouterAnswersWithHelp(helpMessage: string, ev: Event, matches: Matcher)
    requires ev.matchType == Some("command") || ev.matchType == Some("regex")
    ensures MessageOutcome(MessageConfig(helpMessage, true, None, None, NoRoutes()), ev, matches)
         == AutoHelp(Actions([Action("chat.postMessage", map["text" := Str(helpMessage), "attachments" := List([])])]))
  {
    assert RouteMatchOf(NoRoutes(), ev.args.GetOr(""), ev.matchType.value, matches) == NoMatch;
    assert Attachments(NoRoutes()) == [] + [];
  }

  // ---------------------------------------------------------------------------
  // The router object.

  class MessageRouter {
    const helpMessage: string
    const helpAsDefault: bool
    var helpRoute: Option<Handler>
    var defaultRoute: Option<Handler>
    var routes: Routes

    ghost predicate Valid()
      reads this
    {
      RoutesValid(routes)
    }

    /** The fields as one value. */
    function Config(): MessageConfig
      reads this
    {
      MessageConfig(helpMessage, helpAsDefault, helpRoute, defaultRoute, routes)
    }

    constructor (help: string := "", helpAsDefault: bool := true)
      ensures Valid()
      ensures Config() == MessageConfig(help, helpAsDefault, None, None, NoRoutes())
    {
      this.helpMessage := help;
      this.helpAsDefault := helpAsDefault;
      this.helpRoute := None;
      this.defaultRoute := None;
      this.routes := NoRoutes();
    }

    /** `set_help`: registers the help function, once. */
    method SetHelp(f: Handler) returns (st: Status)
      requires Valid()
      modifies this
      ensures Valid()
      ensures old(helpRoute).Some? ==> st == Failed(RouteAlreadyDefined) && helpRoute == old(helpRoute)
      ensures old(helpRoute).None? ==> st == Ok && helpRoute == Some(f)
      ensures defaultRoute == old(defaultRoute) && routes == old(routes)
    {
      if helpRoute.Some? {
        return Failed(RouteAlreadyDefined);
      }
      helpRoute := Some(f);
      return Ok;
    }

    /** `set_default`: registers the default route, once. */
    method SetDefault(f: Handler) returns (st: Status)
      requires Valid()
      modifies this
      ensures Valid()
      ensures old(defaultRoute).Some? ==> st == Failed(RouteAlreadyDefined) && defaultRoute == old(defaultRoute)
      ensures old(defaultRoute).None? ==> st == Ok && defaultRoute == Some(f)
      ensures helpRoute == old(helpRoute) && routes == old(routes)
    {
      if defaultRoute.Some? {
        return Failed(RouteAlreadyDefined);
      }
      defaultRoute := Some(f);
      return Ok;
    }

    /** `add_message_rule`: registers `routeFunc` for texts matching the template `rule`. */
    method AddMessageRule(rule: string, matchType: string, routeFunc: Handler, help: string := "") returns (st: Status)
      requires Valid()
      modifies this
      ensures Valid()
      ensures (st, routes) == AddRule(old(routes), rule, matchType, routeFunc, help)
      ensures helpRoute == old(helpRoute) && defaultRoute == old(defaultRoute)
    {
      var helpText := rule + ":" + help;
      var routePattern := GetRoutePattern(rule);
      if matchType !in routes {
        return Failed(KeyError(matchType));
      }
      var bucket := routes[matchType];
      var i := 0;
      while i < |bucket|
        invariant 0 <= i <= |bucket|
        invariant forall k :: 0 <= k < i ==> bucket[k].pattern != routePattern
      {
        if bucket[i].pattern == routePattern {
          return Failed(RouteAlreadyDefined);
        }
        i := i + 1;
      }
      AddRuleKeepsValid(routes, rule, matchType, routeFunc, help);
      routes := routes[matchType := bucket + [RouteEntry(routePattern, helpText, routeFunc)]];
      return Ok;
    }

    /** The `route` decorator: `add_message_rule` with match type `command` and empty help by default. */
    method Route(rule: string, f: Handler, matchType: string := "command", help: string := "") returns (st: Status)
      requires Valid()
      modifies this
      ensures Valid()
      ensures (st, routes) == AddRule(old(routes), rule, matchType, f, help)
      ensures helpRoute == old(helpRoute) && defaultRoute == old(defaultRoute)
    {
      st := AddMessageRule(rule, matchType, f, help);
    }

    /** `_get_route_match`: the first route of the match type's bucket that matches `text`. */
    method GetRouteMatch(text: string, matchType: string, matches: Matcher) returns (r: RouteMatch)
      requires Valid()
      ensures r == RouteMatchOf(routes, text, matchType, matches)
    {
      if matchType !in routes {
        return UnknownMatchType(matchType);
      }
      var bucket := routes[matchType];
      var i := 0;
      while i < |bucket|
        invariant 0 <= i <= |bucket|
        invariant forall k :: 0 <= k < i ==> matches(bucket[k].pattern, text).None?
      {
        var m := matches(bucket[i].pattern, text);
        if m.Some? {
          RouteMatchIsFirst(routes, text, matchType, matches, i);
          return Matched(bucket[i].handler, m.value);
        }
        i := i + 1;
      }
      NoMatchIffNoneMatches(routes, text, matchType, matches);
      return NoMatch;
    }

    /** The help entries of one bucket, built as `get_help` builds them. */
    static method HelpFields(bucket: seq<RouteEntry>) returns (fields: seq<Value>)
      requires HelpsSplit(bucket)
      ensures fields == BucketFields(bucket)
    {
      ghost var all := BucketFields(bucket);
      fields := [];
      var i := 0;
      while i < |bucket|
        invariant 0 <= i <= |bucket|
        invariant fields == all[..i]
      {
        var (action, text) := SplitAtColon(bucket[i].helpText);
        assert HelpField(action, text) == RouteField(bucket[i]) == all[i];
        assert all[..i + 1] == all[..i] + [all[i]];
        fields := fields + [HelpField(action, text)];
        i := i + 1;
      }
      assert all[..|bucket|] == all;
    }

    /** `get_help`: the built-in help document. */
    method GetHelp() returns (r: Envelope)
      requires Valid()
      ensures r == HelpDocument(helpMessage, routes)
    {
      var commands: seq<Value> := [];
      if |routes["command"]| > 0 {
        var fields := HelpFields(routes["command"]);
        commands := [Attachment("Commands:", fields)];
      }
      var regexes: seq<Value> := [];
      if |routes["regex"]| > 0 {
        var fields := HelpFields(routes["regex"]);
        regexes := [Attachment("Regex matches:", fields)];
      }
      var attachments := commands + regexes;
      r := Actions([Action("chat.postMessage", map["text" := Str(helpMessage), "attachments" := List(attachments)])]);
    }

    /** `handle_message`: routes a message as `MessageOutcome` says. */
    method HandleMessage(ev: Event, matches: Matcher) returns (o: Outcome)
      requires Valid()
      ensures o == MessageOutcome(Config(), ev, matches)
    {
      if ev.matchType.None? {
        return Raise(KeyError("match_type"));
      }
      var matchType := ev.matchType.value;
      var args := ev.args.GetOr("");
      var routeMatch := GetRouteMatch(args, matchType, matches);
      match routeMatch
      case UnknownMatchType(key) =>
        o := Raise(KeyError(key));
      case Matched(h, captures) =>
        o := Invoke(h, captures);
      case NoMatch =>
        if defaultRoute.Some? {
          o := Invoke(defaultRoute.value, map[]);
        } else if helpAsDefault {
          if helpRoute.Some? {
            o := Invoke(helpRoute.value, map[]);
          } else {
            var doc := GetHelp();
            o := AutoHelp(doc);
          }
        } else {
          o := Raise(NoMatchedRoute);
        }
    }
  }
}
