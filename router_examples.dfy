/**
 * Test functions of tests/unit/omnibot_receiver/router_test.py: each
 * registers routes on a new router, with the template matcher standing for
 * Python's `re`, and states how events are routed, as a lemma about the
 * routing functions or as a method that drives the router objects.  The
 * tests that register `ping .*` or `123.*abc` need regular-expression syntax
 * the template matcher does not read, and have no counterpart here.
 */
module RouterExamples {
  import opened Options
  import opened Pattern
  import opened TemplateMatch
  import opened TemplateExamples
  import opened Events
  import opened MessageRouting
  import opened InteractiveRouting
  import opened Dispatch
  import opened Response

  const F := Handler(1)
  const G := Handler(2)
  const Ping := "ping"
  const DialogSubmission := "dialog_submission"

  /** A `command` message with `args`. */
  function Command(args: string): Event {
    Event(Some(MessagePayload), Some("command"), Some(args), None, None)
  }

  /** An interactive component with a callback id and an event type. */
  function Component(callbackId: string, eventType: Option<string>): Event {
    Event(Some(InteractivePayload), None, None, Some(callbackId), eventType)
  }

  /** A new message router with one `command` route for `rule`. */
  function OneCommand(rule: string, f: Handler): MessageConfig {
    MessageConfig("", true, None, None, AddRule(NoRoutes(), rule, "command", f, "").1)
  }

  /** The first registration on a new router succeeds, and the router is valid. */
  lemma FirstRule(rule: string, f: Handler)
    ensures AddRule(NoRoutes(), rule, "command", f, "").0 == Ok
    ensures RoutesValid(OneCommand(rule, f).routes)
    ensures OneCommand(rule, f).routes["command"] == [RouteEntry(GetRoutePattern(rule), rule + ":", f)]
  {
    assert RoutesValid(NoRoutes()) && NoRoutes()["command"] == [];
    assert !MessageRouting.Defines(NoRoutes()["command"], GetRoutePattern(rule));
    AddRuleKeepsValid(NoRoutes(), rule, "command", f, "");
    AddRuleAppends(NoRoutes(), rule, "command", f, "");
    assert rule + ":" + "" == rule + ":";
    assert [] + [RouteEntry(GetRoutePattern(rule), rule + ":", f)] == [RouteEntry(GetRoutePattern(rule), rule + ":", f)];
  }

  /** A command matching the only route goes to it with its captures. */
  lemma OnlyRouteRouted(rule: string, f: Handler, args: string)
    requires FragmentMatch(GetRoutePattern(rule), args).Some?
    ensures RoutesValid(OneCommand(rule, f).routes)
    ensures MessageOutcome(OneCommand(rule, f), Command(args), FragmentMatch)
         == Invoke(f, FragmentMatch(GetRoutePattern(rule), args).value)
  {
    FirstRule(rule, f);
    RouteMatchIsFirst(OneCommand(rule, f).routes, args, "command", FragmentMatch, 0);
  }

  /** `find <user>` called with `find testuser` gets `user` as `testuser`. */
  lemma CommandWithArgument()
    ensures RoutesValid(OneCommand(FindRoute, F).routes)
    ensures MessageOutcome(OneCommand(FindRoute, F), Command(FindText), FragmentMatch)
         == Invoke(F, map[User := TestUser])
  {
    FindExamples();
    OnlyRouteRouted(FindRoute, F, FindText);
  }

  /** A greedy first group takes all it can and a lazy one as little as it can. */
  lemma GreedyAndLazyRoutes()
    ensures RoutesValid(OneCommand(GreedyRoute, F).routes) && RoutesValid(OneCommand(LazyRoute, F).routes)
    ensures MessageOutcome(OneCommand(GreedyRoute, F), Command(LongText), FragmentMatch)
         == Invoke(F, map["a" := ShortText, "b" := Three])
    ensures MessageOutcome(OneCommand(GreedyRoute, F), Command(ShortText), FragmentMatch)
         == Invoke(F, map["a" := One, "b" := Two])
    ensures MessageOutcome(OneCommand(LazyRoute, F), Command(LongText), FragmentMatch)
         == Invoke(F, map["a" := One, "b" := LongTail])
    ensures MessageOutcome(OneCommand(LazyRoute, F), Command(ShortText), FragmentMatch)
         == Invoke(F, map["a" := One, "b" := Two])
  {
    GreedyRoutes();
    LazyRoutes();
  }

  lemma GreedyRoutes()
    ensures RoutesValid(OneCommand(GreedyRoute, F).routes)
    ensures MessageOutcome(OneCommand(GreedyRoute, F), Command(LongText), FragmentMatch)
         == Invoke(F, map["a" := ShortText, "b" := Three])
    ensures MessageOutcome(OneCommand(GreedyRoute, F), Command(ShortText), FragmentMatch)
         == Invoke(F, map["a" := One, "b" := Two])
  {
    GreedyTemplateExamples();
    OnlyRouteRouted(GreedyRoute, F, LongText);
    OnlyRouteRouted(GreedyRoute, F, ShortText);
  }

  lemma LazyRoutes()
    ensures RoutesValid(OneCommand(LazyRoute, F).routes)
    ensures MessageOutcome(OneCommand(LazyRoute, F), Command(LongText), FragmentMatch)
         == Invoke(F, map["a" := One, "b" := LongTail])
    ensures MessageOutcome(OneCommand(LazyRoute, F), Command(ShortText), FragmentMatch)
         == Invoke(F, map["a" := One, "b" := Two])
  {
    LazyTemplateExamples();
    OnlyRouteRouted(LazyRoute, F, LongText);
    OnlyRouteRouted(LazyRoute, F, ShortText);
  }

  /** `ping` registered for all types on a new router. */
  lemma NewCallback(f: Handler)
    ensures AddCallback(map[AllTypes := []], Ping, f, None) == (Ok, map[AllTypes := [Callback(Ping, f)]])
    ensures CallbacksValid(map[AllTypes := [Callback(Ping, f)]])
    ensures FindCallback([Callback(Ping, f)], Ping) == Some(0)
  {
    var r0: Callbacks := map[AllTypes := []];
    assert BucketOf(None) == AllTypes;
    assert !InteractiveRouting.Defines(r0[AllTypes], Ping);
    assert [] + [Callback(Ping, f)] == [Callback(Ping, f)];
    assert r0[AllTypes := [Callback(Ping, f)]] == map[AllTypes := [Callback(Ping, f)]];
  }

  function OneCallback(f: Handler): Callbacks {
    AddCallback(map[AllTypes := []], Ping, f, None).1
  }

  /**
   * `ping` registered for all types and again for `dialog_submission`: a
   * third registration for that type fails, a dialog submission goes to the
   * second function and any other event to the first.
   */
  lemma OverriddenCallback(otherType: Option<string>)
    requires otherType != Some(DialogSubmission)
    ensures var r1 := OneCallback(F);
            var (s2, r2) := AddCallback(r1, Ping, G, Some(DialogSubmission));
            && s2 == Ok
            && CallbacksValid(r2)
            && AddCallback(r2, Ping, F, Some(DialogSubmission)).0 == Failed(RouteAlreadyDefined)
            && InteractiveOutcome(InteractiveConfig(None, r2), Component(Ping, Some(DialogSubmission))) == Invoke(G, map[])
            && InteractiveOutcome(InteractiveConfig(None, r2), Component(Ping, otherType)) == Invoke(F, map[])
  {
    NewCallback(F);
    var r1 := OneCallback(F);
    assert DialogSubmission != AllTypes by {
      assert DialogSubmission[0] != AllTypes[0];
    }
    var (s2, r2) := AddCallback(r1, Ping, G, Some(DialogSubmission));
    assert !InteractiveRouting.Defines([], Ping);
    assert [] + [Callback(Ping, G)] == [Callback(Ping, G)];
    AddCallbackKeepsValid(r1, Ping, G, Some(DialogSubmission));
    assert r2 == map[AllTypes := [Callback(Ping, F)], DialogSubmission := [Callback(Ping, G)]];
    AddCallbackTwiceFails(r1, Ping, G, F, Some(DialogSubmission));
    assert FindCallback(r2[AllTypes], Ping) == Some(0);
    assert FindCallback(r2[DialogSubmission], Ping) == Some(0);
    if otherType.Some? && otherType.value in r2 {
      assert otherType.value == AllTypes;
    }
  }

  /**
   * Unknown callback ids go to the default route, and raise
   * `NoMatchedRouteError` without one.
   */
  lemma InteractiveDefault(callbackId: string, eventType: Option<string>)
    requires callbackId != Ping
    ensures var routes := OneCallback(F);
            && InteractiveOutcome(InteractiveConfig(Some(G), routes), Component(callbackId, eventType)) == Invoke(G, map[])
            && InteractiveOutcome(InteractiveConfig(None, routes), Component(callbackId, eventType)) == Raise(NoMatchedRoute)
  {
    NewCallback(F);
    var routes := OneCallback(F);
    assert !InteractiveRouting.Defines(routes[AllTypes], callbackId);
    assert !InteractiveRouting.Defines(TypeBucket(routes, eventType), callbackId);
  }

  /** `ping` as a message and as an interactive component reach the router of each. */
  lemma HandleEventRoutesByPayload()
    ensures var message := OneCommand(Ping, F);
            var interactive := InteractiveConfig(None, OneCallback(G));
            && RoutersValid(Some(message), Some(interactive))
            && EventOutcome(Some(message), Some(interactive), Command(Ping), FragmentMatch) == Invoke(F, map[])
            && EventOutcome(Some(message), Some(interactive), Component(Ping, None), FragmentMatch) == Invoke(G, map[])
  {
    PingMessage();
    PingComponent();
  }

  lemma PingMessage()
    ensures RoutesValid(OneCommand(Ping, F).routes)
    ensures MessageOutcome(OneCommand(Ping, F), Command(Ping), FragmentMatch) == Invoke(F, map[])
  {
    PingMatchesItself();
    OnlyRouteRouted(Ping, F, Ping);
  }

  lemma PingComponent()
    ensures AllTypes in OneCallback(G)
    ensures InteractiveOutcome(InteractiveConfig(None, OneCallback(G)), Component(Ping, None)) == Invoke(G, map[])
  {
    NewCallback(G);
  }

  lemma HelpMatchesItself()
    ensures FragmentMatch(GetRoutePattern(HelpCommand), HelpCommand) == Some(map[])
  {
    LiteralMatchesItself(HelpCommand);
  }

  lemma PingMatchesItself()
    ensures FragmentMatch(GetRoutePattern(Ping), Ping) == Some(map[])
  {
    LiteralMatchesItself(Ping);
  }

  // ---------------------------------------------------------------------------
  // The default route and the help document (router_test.py:81-219).

  const H := Handler(3)
  const K := Handler(4)
  const Extra := Handler(5)
  const Example := "example message"
  const PingHelp := "A route to respond to pings."
  const Unknown := "unknown"
  const TestRegex := ".*test.*"
  const TestRegexHelp := "A test regex route."
  const HelpCommand := "help"
  const HelpDocs := "Help docs for this bot."

  /** A `regex` message with `args`. */
  function RegexMessage(args: string): Event {
    Event(Some(MessagePayload), Some("regex"), Some(args), None, None)
  }

  /** The help entry of `ping`, as the tests spell it out. */
  const PingEntry: Value :=
    Object(map["title" := Str("ping"), "value" := Str("A route to respond to pings."), "short" := Bool(false)])

  /** The help document of a router with `ping` as its only route. */
  const PingHelpDocument: Envelope :=
    Actions([Action("chat.postMessage", map[
      "text" := Str("example message"),
      "attachments" := List([Object(map["title" := Str("Commands:"), "fields" := List([PingEntry])])])])])

  /** The help document of a router with `ping` and `.*test.*`. */
  const FullHelpDocument: Envelope :=
    Actions([Action("chat.postMessage", map[
      "text" := Str("example message"),
      "attachments" := List([
        Object(map["title" := Str("Commands:"), "fields" := List([PingEntry])]),
        Object(map["title" := Str("Regex matches:"), "fields" := List([
          Object(map["title" := Str(".*test.*"), "value" := Str("A test regex route."), "short" := Bool(false)])])])])])])

  /** The routes after registering `ping` with its help on a new router. */
  function PingRoutes(f: Handler): Routes {
    AddRule(NoRoutes(), Ping, "command", f, PingHelp).1
  }

  /** The routes after also registering `.*test.*` as a regular expression. */
  function TestRoutes(f: Handler, g: Handler): Routes {
    AddRule(PingRoutes(f), TestRegex, "regex", g, TestRegexHelp).1
  }

  lemma NoColons()
    ensures ':' !in Ping && ':' !in TestRegex && ':' !in HelpCommand
  {
  }

  lemma PingEntryField()
    ensures HelpField(Ping, PingHelp) == PingEntry
  {
  }

  /** `ping` registered with its help on a new router is its only route. */
  lemma PingRegistered(f: Handler)
    ensures AddRule(NoRoutes(), Ping, "command", f, PingHelp).0 == Ok
    ensures RoutesValid(PingRoutes(f))
    ensures PingRoutes(f)["regex"] == []
    ensures PingRoutes(f)["command"] == [RouteEntry(GetRoutePattern(Ping), Ping + ":" + PingHelp, f)]
  {
    var r0 := NoRoutes();
    assert RoutesValid(r0) && r0["command"] == [] && r0["regex"] == [];
    assert !MessageRouting.Defines(r0["command"], GetRoutePattern(Ping));
    AddRuleKeepsValid(r0, Ping, "command", f, PingHelp);
    AddRuleAppends(r0, Ping, "command", f, PingHelp);
  }

  /** The only route, `ping`, is listed with its help. */
  lemma PingRoutesListed(f: Handler)
    ensures AddRule(NoRoutes(), Ping, "command", f, PingHelp).0 == Ok
    ensures RoutesValid(PingRoutes(f))
    ensures PingRoutes(f)["regex"] == [] && |PingRoutes(f)["command"]| == 1
    ensures BucketFields(PingRoutes(f)["command"]) == [PingEntry]
  {
    PingRegistered(f);
    NoColons();
    OneRouteListed(RouteEntry(GetRoutePattern(Ping), Ping + ":" + PingHelp, f), Ping, PingHelp);
    PingEntryField();
  }

  /** A bucket of one route from a rule without `:` lists that rule and its help. */
  lemma OneRouteListed(e: RouteEntry, rule: string, help: string)
    requires ':' !in rule && e.helpText == rule + ":" + help
    ensures HelpsSplit([e]) && BucketFields([e]) == [HelpField(rule, help)]
  {
    assert ':' in e.helpText by {
      assert e.helpText[|rule|] == ':';
    }
    SplitAtColonUnique(rule, help);
    var fields := BucketFields([e]);
    assert fields == [fields[0]];
  }

  /** `.*test.*` registered next as a regular expression is the only one of its bucket. */
  lemma TestRegistered(f: Handler, g: Handler)
    ensures AddRule(PingRoutes(f), TestRegex, "regex", g, TestRegexHelp).0 == Ok
    ensures RoutesValid(TestRoutes(f, g))
    ensures TestRoutes(f, g)["command"] == PingRoutes(f)["command"]
    ensures TestRoutes(f, g)["regex"] == [RouteEntry(GetRoutePattern(TestRegex), TestRegex + ":" + TestRegexHelp, g)]
  {
    PingRegistered(f);
    var r1 := PingRoutes(f);
    assert !MessageRouting.Defines(r1["regex"], GetRoutePattern(TestRegex));
    AddRuleKeepsValid(r1, TestRegex, "regex", g, TestRegexHelp);
    AddRuleAppends(r1, TestRegex, "regex", g, TestRegexHelp);
  }

  /** ... and is listed with its help. */
  lemma TestRoutesListed(f: Handler, g: Handler)
    ensures AddRule(PingRoutes(f), TestRegex, "regex", g, TestRegexHelp).0 == Ok
    ensures RoutesValid(TestRoutes(f, g))
    ensures TestRoutes(f, g)["command"] == PingRoutes(f)["command"] && |TestRoutes(f, g)["regex"]| == 1
    ensures BucketFields(TestRoutes(f, g)["regex"]) == [HelpField(TestRegex, TestRegexHelp)]
  {
    TestRegistered(f, g);
    NoColons();
    OneRouteListed(RouteEntry(GetRoutePattern(TestRegex), TestRegex + ":" + TestRegexHelp, g), TestRegex, TestRegexHelp);
  }

  /** No route of an empty `regex` bucket matches, whatever the matcher. */
  lemma EmptyRegexUnmatched(routes: Routes, args: string, matches: Matcher)
    requires RoutesValid(routes) && routes["regex"] == []
    ensures RouteMatchOf(routes, args, "regex", matches) == NoMatch
  {
  }

  /** The document of buckets listing only `ping`. */
  lemma PingDocument(routes: Routes)
    requires RoutesValid(routes) && |routes["command"]| > 0 && routes["regex"] == []
    requires BucketFields(routes["command"]) == [PingEntry]
    ensures HelpDocument(Example, routes) == PingHelpDocument
  {
    var commands := Attachment("Commands:", [PingEntry]);
    assert Attachments(routes) == [commands] + [];
    assert [commands] + [] == [commands];
    assert commands == Object(map["title" := Str("Commands:"), "fields" := List([PingEntry])]);
  }

  /** The document of buckets listing `ping` and `.*test.*`. */
  lemma FullDocument(routes: Routes)
    requires RoutesValid(routes) && |routes["command"]| > 0 && |routes["regex"]| > 0
    requires BucketFields(routes["command"]) == [PingEntry]
    requires BucketFields(routes["regex"]) == [HelpField(TestRegex, TestRegexHelp)]
    ensures HelpDocument(Example, routes) == FullHelpDocument
  {
    var commands := Attachment("Commands:", [PingEntry]);
    var regexes := Attachment("Regex matches:", [HelpField(TestRegex, TestRegexHelp)]);
    assert Attachments(routes) == [commands] + [regexes] == [commands, regexes];
  }

  /** `unknown` sent to a router with only `ping` gets the help document of `ping`. */
  lemma PingRouterAnswersWithHelp(f: Handler, matches: Matcher)
    ensures RoutesValid(PingRoutes(f))
    ensures MessageOutcome(MessageConfig(Example, true, None, None, PingRoutes(f)), RegexMessage(Unknown), matches)
         == AutoHelp(PingHelpDocument)
  {
    PingRoutesListed(f);
    EmptyRegexUnmatched(PingRoutes(f), Unknown, matches);
    UnmatchedMessage(MessageConfig(Example, true, None, None, PingRoutes(f)), RegexMessage(Unknown), matches);
    PingDocument(PingRoutes(f));
  }

  /** `help` is not `ping`. */
  lemma PingRejectsHelp()
    ensures FragmentMatch(GetRoutePattern(Ping), HelpCommand).None?
  {
    assert HelpCommand[..|Ping|][0] != Ping[0];
    LiteralRejectsOther(Ping, HelpCommand);
  }

  /** `help` sent to the router with `ping` and `.*test.*` matches no command. */
  lemma HelpUnmatched(f: Handler, g: Handler)
    ensures RoutesValid(TestRoutes(f, g))
    ensures RouteMatchOf(TestRoutes(f, g), HelpCommand, "command", FragmentMatch) == NoMatch
  {
    PingRoutesListed(f);
    TestRoutesListed(f, g);
    AddRuleAppends(NoRoutes(), Ping, "command", f, PingHelp);
    PingRejectsHelp();
    NoMatchIffNoneMatches(TestRoutes(f, g), HelpCommand, "command", FragmentMatch);
  }

  /** Without a help route the built-in document lists both routes; with one, the help route answers. */
  lemma TestRouterAnswersWithHelp(f: Handler, g: Handler, helpRoute: Option<Handler>)
    ensures RoutesValid(TestRoutes(f, g))
    ensures MessageOutcome(MessageConfig(Example, true, helpRoute, None, TestRoutes(f, g)), Command(HelpCommand), FragmentMatch)
         == if helpRoute.Some? then Invoke(helpRoute.value, map[]) else AutoHelp(FullHelpDocument)
  {
    HelpUnmatched(f, g);
    PingRoutesListed(f);
    TestRoutesListed(f, g);
    UnmatchedMessage(MessageConfig(Example, true, helpRoute, None, TestRoutes(f, g)), Command(HelpCommand), FragmentMatch);
    FullDocument(TestRoutes(f, g));
  }

  /** The routes after registering `help` as a command on a new router. */
  function HelpCommandRoutes(f: Handler): Routes {
    AddRule(NoRoutes(), HelpCommand, "command", f, HelpDocs).1
  }

  lemma HelpCommandRegistered(f: Handler)
    ensures RoutesValid(HelpCommandRoutes(f))
    ensures |HelpCommandRoutes(f)["command"]| == 1
    ensures HelpCommandRoutes(f)["command"][0] == RouteEntry(GetRoutePattern(HelpCommand), HelpCommand + ":" + HelpDocs, f)
  {
    var r0 := NoRoutes();
    assert RoutesValid(r0) && r0["command"] == [];
    assert !MessageRouting.Defines(r0["command"], GetRoutePattern(HelpCommand));
    AddRuleKeepsValid(r0, HelpCommand, "command", f, HelpDocs);
    AddRuleAppends(r0, HelpCommand, "command", f, HelpDocs);
  }

  /** A `help` command route is a route like any other: `help` goes to it. */
  lemma HelpCommandRouted(f: Handler, helpRoute: Option<Handler>)
    ensures RoutesValid(HelpCommandRoutes(f))
    ensures MessageOutcome(MessageConfig(Example, true, helpRoute, None, HelpCommandRoutes(f)), Command(HelpCommand), FragmentMatch)
         == Invoke(f, map[])
  {
    HelpMatchesHelpRoute(f);
    MatchedMessage(MessageConfig(Example, true, helpRoute, None, HelpCommandRoutes(f)), Command(HelpCommand), FragmentMatch, f, map[]);
  }

  lemma HelpMatchesHelpRoute(f: Handler)
    ensures RoutesValid(HelpCommandRoutes(f))
    ensures RouteMatchOf(HelpCommandRoutes(f), HelpCommand, "command", FragmentMatch) == Matched(f, map[])
  {
    HelpCommandRegistered(f);
    var route := HelpCommandRoutes(f)["command"][0];
    HelpMatchesItself();
    assert FragmentMatch(route.pattern, HelpCommand) == Some(map[]);
    RouteMatchIsFirst(HelpCommandRoutes(f), HelpCommand, "command", FragmentMatch, 0);
  }

  /**
   * `test_default_route`: a router with `ping` answers `unknown` with its help
   * document; without help as the default and without a default route it
   * raises; a second default route is refused; and the default route answers,
   * also when a command route is registered beside it.
   */
  method DefaultRouteTest(matches: Matcher)
    returns (help: Outcome, missing: Outcome, again: Status, routed: Outcome, routedWithCommand: Outcome)
    ensures help == AutoHelp(PingHelpDocument)
    ensures missing == Raise(NoMatchedRoute)
    ensures again == Failed(RouteAlreadyDefined)
    ensures routed == Invoke(G, map[])
    ensures routedWithCommand == Invoke(H, map[])
  {
    var router := new MessageRouter(Example);
    var st := router.Route(Ping, F, "command", PingHelp);
    PingRouterAnswersWithHelp(F, matches);
    help := router.HandleMessage(RegexMessage(Unknown), matches);

    var strict := new MessageRouter(Example, false);
    EmptyRegexUnmatched(NoRoutes(), Unknown, matches);
    UnmatchedMessage(strict.Config(), RegexMessage(Unknown), matches);
    missing := strict.HandleMessage(RegexMessage(Unknown), matches);
    st := strict.SetDefault(G);
    again := strict.SetDefault(Extra);
    UnmatchedMessage(strict.Config(), RegexMessage(Unknown), matches);
    routed := strict.HandleMessage(RegexMessage(Unknown), matches);

    var both := new MessageRouter(Example);
    st := both.SetDefault(H);
    st := both.Route(Ping, H, "command", PingHelp);
    PingRoutesListed(H);
    EmptyRegexUnmatched(both.routes, Unknown, matches);
    UnmatchedMessage(both.Config(), RegexMessage(Unknown), matches);
    routedWithCommand := both.HandleMessage(RegexMessage(Unknown), matches);
  }

  /**
   * `test_get_help`: `help` gets the document listing `ping` and `.*test.*`;
   * once a help route is set it answers instead, and a second one is refused;
   * a command route named `help` answers `help` too.
   */
  method GetHelpTest() returns (help: Outcome, again: Status, overridden: Outcome, overriddenWithCommand: Outcome)
    ensures help == AutoHelp(FullHelpDocument)
    ensures again == Failed(RouteAlreadyDefined)
    ensures overridden == Invoke(H, map[])
    ensures overriddenWithCommand == Invoke(K, map[])
  {
    var router := new MessageRouter(Example);
    var st := router.Route(Ping, F, "command", PingHelp);
    PingRoutesListed(F);
    st := router.Route(TestRegex, G, "regex", TestRegexHelp);
    TestRouterAnswersWithHelp(F, G, None);
    help := router.HandleMessage(Command(HelpCommand), FragmentMatch);
    st := router.SetHelp(H);
    again := router.SetHelp(Extra);
    TestRouterAnswersWithHelp(F, G, Some(H));
    overridden := router.HandleMessage(Command(HelpCommand), FragmentMatch);

    var withCommand := new MessageRouter(Example);
    st := withCommand.SetHelp(K);
    st := withCommand.Route(HelpCommand, K, "command", HelpDocs);
    HelpCommandRouted(K, Some(K));
    overriddenWithCommand := withCommand.HandleMessage(Command(HelpCommand), FragmentMatch);
  }

  // ---------------------------------------------------------------------------
  // Interactive routes (router_test.py:292-325).

  const Id123 := "123"
  const Id345 := "345"

  /** `test_interactive_route`: a second `ping` is refused, and `ping` reaches the first. */
  method InteractiveRouteTest() returns (again: Status, routed: Outcome)
    ensures again == Failed(RouteAlreadyDefined)
    ensures routed == Invoke(F, map[])
  {
    var router := new InteractiveRouter();
    var st := router.Route(Ping, F);
    NewCallback(F);
    AddCallbackTwiceFails(map[AllTypes := []], Ping, F, Extra, None);
    again := router.Route(Ping, Extra);
    routed := router.HandleInteractiveComponent(Component(Ping, None));
  }

  /** `test_multiple_route`: one function registered under two ids answers both. */
  method MultipleCallbackTest() returns (first: Outcome, second: Outcome)
    ensures first == Invoke(F, map[])
    ensures second == Invoke(F, map[])
  {
    var router := new InteractiveRouter();
    var st := router.Route(Id345, F);
    assert Id345 != Id123;
    st := router.Route(Id123, F);
    assert router.routes[AllTypes] == [Callback(Id345, F), Callback(Id123, F)];
    FirstCallback(router.routes[AllTypes], Id123, 1);
    FirstCallback(router.routes[AllTypes], Id345, 0);
    first := router.HandleInteractiveComponent(Component(Id123, None));
    second := router.HandleInteractiveComponent(Component(Id345, None));
  }

  /** `test_default_route`: a second default is refused, and an unknown id goes to the first. */
  method InteractiveDefaultTest() returns (again: Status, routed: Outcome)
    ensures again == Failed(RouteAlreadyDefined)
    ensures routed == Invoke(G, map[])
  {
    var router := new InteractiveRouter();
    var st := router.Route(Ping, F);
    NewCallback(F);
    st := router.SetDefault(G);
    again := router.SetDefault(Extra);
    InteractiveDefault(Unknown, None);
    routed := router.HandleInteractiveComponent(Component(Unknown, None));
  }
}
