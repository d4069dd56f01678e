# omnibot-receiver routing and responses, modelled in Dafny

This project models the `omnibot_receiver` library. Omnibot passes chat
events to a bot, and the library routes each event to a function the bot
registered. It also builds the response documents those functions return.

## What is modelled

- **Template compiler** (`Pattern`): `_get_route_pattern` turns a route
  template such as `find <user>` into an anchored regular expression.
  `<name>` becomes a greedy named group and `<name?>` becomes a lazy one.
  The two `re.sub` passes are modelled exactly (`SubGreedy`, `SubLazy`). They
  are proved equal to a one-pass reading of the template into literal
  characters and placeholders.
- **Template matcher** (`TemplateMatch`): a matcher for compiled templates.
  It reads the expression back into pieces and matches them in the
  backtracking order of Python's `re.match`: greedy groups longest first,
  lazy groups shortest first, `.` stopping at a newline, and `$` allowing one
  final newline. Its soundness, its completeness and the routers' greedy and
  lazy test cases are proved (`TemplateExamples`).
- **Events and outcomes** (`Events`): registered functions are opaque
  `Handler`s. Routing an event ends in one of three ways:
  - a function is invoked with the captures;
  - the built-in help document is returned;
  - one of the library's exceptions is raised (or a `KeyError`).

  Regular-expression matching is a parameter (`Matcher`), so every routing
  property holds for any matcher.
- **Message router** (`MessageRouting.MessageRouter`): a class with the
  source's fields. Its methods are proved against functions of those fields:
  - `AddRule` for registration;
  - `RouteMatchOf` / `FirstMatch` for the first route that matches;
  - `HelpDocument` for `get_help`;
  - `MessageOutcome` for `handle_message`.
- **Interactive router** (`InteractiveRouting.InteractiveRouter`): callbacks
  in buckets by event type, with the reserved bucket `__all`. Registration is
  `AddCallback`, lookup is `InteractiveMatch`, and dispatch is
  `InteractiveOutcome`.
- **Dispatcher** (`Dispatch.OmnibotRouter`): `handle_event` forwards
  `message` payloads to the message router and `interactive_component`
  payloads to the interactive router.
- **Response builders** (`Response`): `extend_response` works in place on an
  `ActionsResponse` object. `get_simple_post_message` and
  `get_simple_response` are functions. Python's `None` is `Null`.
- **Router tests** (`RouterExamples`): test functions of
  tests/unit/omnibot_receiver/router_test.py, stated as lemmas about new
  routers that use the template matcher, or as methods that drive the router
  objects as the test does. Covered are the message router's
  `test_add_message_rule_with_arg`, `test_command_route_with_arg`,
  `test_default_route`, `test_get_help`, `test_greedy_pattern_match` and
  `test_non_greedy_pattern_match`; the interactive router's
  `test_interactive_route`, `test_overriden_interactive_route`,
  `test_multiple_route` and `test_default_route`; and the dispatcher's
  `test_handle_event`. The message router's `test_command_route`,
  `test_regex_route` and `test_multiple_route` register `ping .*` and
  `123.*abc`, which lie outside the template matcher (see "Left out").

Where the specification and the code differ, the model follows the code:

- There is no `reaction` match type and no `reaction` payload. The message
  router has only the `command` and `regex` buckets. An unknown match type
  raises `KeyError`.
- The interactive router's "any type" bucket is the string key `__all`.
  An event whose type is literally `__all` therefore searches that bucket.

## Model

| member | source | states |
|---|---|---|
| Pattern.TokenizeRoundTrip | omnibot_receiver/router.py:277-278 | reading a template into literal characters and placeholders loses nothing: spelling the pieces back gives the template |
| Pattern.TokenizeWellFormed | omnibot_receiver/router.py:277-278 | every placeholder read from a template is named by a non-empty word (`\w+`) |
| Pattern.SubGreedyUnparse | omnibot_receiver/router.py:277 | the first `re.sub` pass rewrites exactly the greedy placeholders `<w>` into `(?P<w>.+)`, leaving `<w?>` and all other text as it is |
| Pattern.SubLazyHalf | omnibot_receiver/router.py:278 | the second pass rewrites exactly the remaining `<w?>` into `(?P<w>.+?)` and copies everything else |
| Pattern.GetRoutePatternRewrites | omnibot_receiver/router.py:265-279 | the compiled pattern is `^` + the template with each placeholder rewritten and all other text copied + `$` |
| Pattern.WordRun | omnibot_receiver/router.py:277-278 | the length of the longest prefix that `\w+` consumes: a word, followed by a non-word character or the end |
| TemplateMatch.ParseRegex | omnibot_receiver/router.py:277-279 | a regular expression that is read back into pieces is exactly the rewriting of those pieces, and the pieces form a plain template |
| TemplateMatch.ParseRewrite | omnibot_receiver/router.py:277-279 | reading the compiled expression of a plain template gives its pieces back |
| TemplateMatch.RoutePatternInjective | omnibot_receiver/router.py:358-364 | two plain templates compile to equal patterns only if they are the same template, so the duplicate check compares template text |
| TemplateMatch.FragmentMatchesTemplate | omnibot_receiver/router.py:415-418 | on a plain template with valid group names, `re.match` of the compiled pattern is the matching of the template's pieces |
| TemplateMatch.LongestPicksLongest | omnibot_receiver/router.py:277 | a greedy group takes the longest capture after which the rest of the pattern matches |
| TemplateMatch.LongestFails | omnibot_receiver/router.py:277 | a greedy group fails iff no capture length lets the rest match |
| TemplateMatch.ShortestPicksShortest | omnibot_receiver/router.py:278 | a lazy group takes the shortest capture after which the rest of the pattern matches |
| TemplateMatch.ShortestFails | omnibot_receiver/router.py:278 | a lazy group fails iff no capture length lets the rest match |
| TemplateMatch.MatchTexts | omnibot_receiver/router.py:415-418 | literal template text matches exactly itself |
| TemplateMatch.MatchSound | omnibot_receiver/router.py:415-418 | a successful match captures exactly the template's groups, and putting them in place spells the text (up to one final newline) |
| TemplateMatch.MatchComplete | omnibot_receiver/router.py:415-418 | whenever non-empty, newline-free captures spell the text, the match succeeds |
| TemplateExamples.GreedyTemplateExamples | tests/unit/omnibot_receiver/router_test.py:221-232 | `<a> to <b>` captures a=`1 to 2`, b=`3` from `1 to 2 to 3`, and a=`1`, b=`2` from `1 to 2` |
| TemplateExamples.LazyTemplateExamples | tests/unit/omnibot_receiver/router_test.py:234-245 | `<a?> to <b>` captures a=`1`, b=`2 to 3` from `1 to 2 to 3`, and a=`1`, b=`2` from `1 to 2` |
| TemplateExamples.FindExamples | tests/unit/omnibot_receiver/router_test.py:47-55 | `find <user>` captures user=`testuser` from `find testuser` and does not match `find ` |
| TemplateExamples.LiteralMatchesItself | tests/unit/omnibot_receiver/router_test.py:14-34 | a template of plain literal text matches its own text with no captures |
| TemplateExamples.LiteralRejectsOther | omnibot_receiver/router.py:414-416 | a template of plain literal text does not match a text that does not start with it |
| MessageRouting.AddRuleKeepsValid | omnibot_receiver/router.py:358-368 | registration keeps the buckets exactly `command` and `regex`, with distinct patterns and a `:` in every help text; a failed registration changes nothing |
| MessageRouting.AddRuleAppends | omnibot_receiver/router.py:358-368 | a successful registration appends exactly `(pattern, rule:help, func)` to its bucket and leaves the other bucket unchanged |
| MessageRouting.AddRuleTwiceFails | omnibot_receiver/router.py:360-366 | registering the same rule twice under one match type raises `RouteAlreadyDefinedError` |
| MessageRouting.AddRuleIndependent | omnibot_receiver/router.py:358-368 | after a success, registering a different plain template fares as it would have without the first |
| MessageRouting.FirstMatch | omnibot_receiver/router.py:415-420 | the index of a matching route, with no earlier route matching; none only when no route matches |
| MessageRouting.RouteMatchIsFirst | omnibot_receiver/router.py:415-420 | the earliest-registered matching route is returned, with its captures |
| MessageRouting.NoMatchIffNoneMatches | omnibot_receiver/router.py:415-420 | `_get_route_match` finds nothing iff no route of the bucket matches |
| MessageRouting.RoutingAfterAddRule | omnibot_receiver/router.py:368 | earlier routes win: after a registration, texts older routes match are routed as before, and only unmatched texts can reach the new route |
| MessageRouting.FirstColon | omnibot_receiver/router.py:464 | the index of the first `:` of a text that has one |
| MessageRouting.SplitAtColon | omnibot_receiver/router.py:464 | `split(':', 1)` gives the text before the first `:` (which has no `:`) and the rest |
| MessageRouting.SplitAtColonUnique | omnibot_receiver/router.py:464 | for a rule without `:`, splitting `rule:help` gives back `(rule, help)` |
| MessageRouting.SplitAtColonInRule | omnibot_receiver/router.py:464 | for a rule with a `:`, the title is the rule up to its first `:`, and the rest of the rule joins the value |
| MessageRouting.BucketFields | omnibot_receiver/router.py:461-486 | one help entry per route, in registration order (the loop `HelpFields` builds exactly this list, and `RegisteredRouteListed` states what an entry shows) |
| MessageRouting.HelpDocumentShape | omnibot_receiver/router.py:456-487 | one `chat.postMessage` action with exactly `text` = help message and `attachments`; a `Commands:` attachment first and a `Regex matches:` attachment last, each only for a non-empty bucket |
| MessageRouting.RegisteredRouteListed | omnibot_receiver/router.py:461-486 | a route registered from a rule without `:` is listed last in its bucket's entries as title = rule, value = help, `short` false |
| MessageRouting.OutcomeInvokesRegistered | omnibot_receiver/router.py:527-547 | routing calls only registered functions; non-empty captures come only from a route of the message's bucket whose pattern matched |
| MessageRouting.UnmatchedMessage | omnibot_receiver/router.py:533-547 | with no match: the default route (no captures) if set; else, when help is the default, the help route (no captures) if set, else the help document `HelpDocument` of the help message and the routes; else `NoMatchedRouteError` |
| MessageRouting.MatchedMessage | omnibot_receiver/router.py:527-532 | a message the first matching route accepts invokes that route's function with its captures, whatever the default and help routes are |
| MessageRouting.NewRouterAnswersWithHelp | omnibot_receiver/router.py:456-487 | a new router answers every `command` or `regex` message with a help document that has no attachments |
| MessageRouting.MessageRouter.constructor | omnibot_receiver/router.py:240-262 | the help message and flag as given (defaults `''` and true), no help or default route, both buckets empty |
| MessageRouting.MessageRouter.SetHelp | omnibot_receiver/router.py:281-295 | the first help function is kept; a second raises `RouteAlreadyDefinedError` and changes nothing |
| MessageRouting.MessageRouter.SetDefault | omnibot_receiver/router.py:297-312 | the first default route is kept; a second raises `RouteAlreadyDefinedError` and changes nothing |
| MessageRouting.MessageRouter.AddMessageRule | omnibot_receiver/router.py:314-368 | the status and new buckets are those of `AddRule`; nothing else changes |
| MessageRouting.MessageRouter.Route | omnibot_receiver/router.py:370-402 | `add_message_rule` with match type `command` and help `''` by default |
| MessageRouting.MessageRouter.GetRouteMatch | omnibot_receiver/router.py:404-420 | the scan returns `RouteMatchOf`: the first matching route, no match, or `KeyError` for an unknown match type |
| MessageRouting.MessageRouter.HelpFields | omnibot_receiver/router.py:462-472 | the loop builds exactly the entries of `BucketFields` |
| MessageRouting.MessageRouter.GetHelp | omnibot_receiver/router.py:422-487 | the built-in help document is `HelpDocument` of the help message and the buckets |
| MessageRouting.MessageRouter.HandleMessage | omnibot_receiver/router.py:489-547 | routing follows `MessageOutcome`: `KeyError` without `match_type`, `args` defaulting to `''`, then match, default, help, or `NoMatchedRouteError` |
| InteractiveRouting.AddCallbackKeepsValid | omnibot_receiver/router.py:695-704 | registration keeps `__all` and distinct ids per bucket; a success appends to its bucket (created on demand, `__all` for no type) and to no other; a refusal raises `RouteAlreadyDefinedError` and changes no callback |
| InteractiveRouting.AddCallbackTwiceFails | omnibot_receiver/router.py:699-703 | the same id twice for one event type raises `RouteAlreadyDefinedError` |
| InteractiveRouting.AddCallbackPerType | omnibot_receiver/router.py:695-704 | an id may be registered once per bucket: a registration in one bucket does not affect another |
| InteractiveRouting.FindCallback | omnibot_receiver/router.py:739-746 | the index of a callback with the id, the first one; none iff the bucket has no such callback |
| InteractiveRouting.FindCallbackUnique | omnibot_receiver/router.py:739-746 | in a valid bucket the callback found is the one registered with the id |
| InteractiveRouting.InteractiveMatchSpec | omnibot_receiver/router.py:739-748 | a callback for the event's type overrides one in `__all`; the match is always registered under the event's id; none iff neither bucket has the id |
| InteractiveRouting.RegisteredCallbackMatches | omnibot_receiver/router.py:695-704 | after a registration, an event of its type and id goes to its function |
| InteractiveRouting.InteractiveOutcomeSpec | omnibot_receiver/router.py:782-797 | a matched callback's function is invoked with no captures; with no match, the default route if set; `NoMatchedRouteError` iff no callback and no default; only registered functions are invoked |
| InteractiveRouting.InteractiveRouter.constructor | omnibot_receiver/router.py:637-646 | no default route, and only an empty `__all` bucket |
| InteractiveRouting.InteractiveRouter.SetDefault | omnibot_receiver/router.py:648-663 | the first default route is kept; a second raises `RouteAlreadyDefinedError` |
| InteractiveRouting.InteractiveRouter.AddEventCallback | omnibot_receiver/router.py:665-704 | the status and new buckets are those of `AddCallback` |
| InteractiveRouting.InteractiveRouter.Route | omnibot_receiver/router.py:706-727 | `add_event_callback` with the event type when one is given |
| InteractiveRouting.InteractiveRouter.GetRouteMatch | omnibot_receiver/router.py:729-748 | the two scans return `InteractiveMatch` |
| InteractiveRouting.InteractiveRouter.HandleInteractiveComponent | omnibot_receiver/router.py:750-797 | routing follows `InteractiveOutcome` |
| Dispatch.EventOutcomeSpec | omnibot_receiver/router.py:87-96 | `UnsupportedPayloadError` iff no present router takes the payload type; otherwise the payload is routed by its router alone |
| Dispatch.MessageNeverUnsupported | omnibot_receiver/router.py:87-96 | the message router never raises `UnsupportedPayloadError` |
| Dispatch.EmptyRouterRefuses | omnibot_receiver/router.py:87-96 | a router with no sub-router refuses every payload |
| Dispatch.OmnibotRouter.constructor | omnibot_receiver/router.py:44-53 | both routers as given, absent by default |
| Dispatch.OmnibotRouter.HandleEvent | omnibot_receiver/router.py:55-96 | the result is `EventOutcome` of the event, which is `MessageOutcome` or `InteractiveOutcome` of the matching sub-router's configuration; the method itself calls the sub-routers' `HandleMessage` and `HandleInteractiveComponent` |
| RouterExamples.FirstRule | omnibot_receiver/router.py:358-368 | the first registration on a new router succeeds and yields a single route `(pattern, rule:, f)` |
| RouterExamples.OnlyRouteRouted | omnibot_receiver/router.py:527-532 | a command that the only route matches goes to that route with its captures |
| RouterExamples.CommandWithArgument | tests/unit/omnibot_receiver/router_test.py:47-55 | `find <user>` called with `find testuser` is invoked with user=`testuser` |
| RouterExamples.GreedyAndLazyRoutes | tests/unit/omnibot_receiver/router_test.py:221-245 | on `1 to 2 to 3` the greedy route captures `1 to 2` and `3`, the lazy one `1` and `2 to 3`; on `1 to 2` both capture `1` and `2` |
| RouterExamples.NewCallback | omnibot_receiver/router.py:695-704 | registering `ping` for all types on a new router gives one callback in `__all` |
| RouterExamples.OverriddenCallback | tests/unit/omnibot_receiver/router_test.py:266-290 | `ping` for all types and for `dialog_submission`: a dialog submission reaches the second function, other events the first, and a repeat registration fails |
| RouterExamples.InteractiveDefault | tests/unit/omnibot_receiver/router_test.py:305-326 | an unknown callback id reaches the default route, or raises `NoMatchedRouteError` without one |
| RouterExamples.PingRouterAnswersWithHelp | tests/unit/omnibot_receiver/router_test.py:81-112 | `unknown` sent to a router with only `ping` gets the document with text `example message` and one `Commands:` attachment whose one field is `ping` / `A route to respond to pings.` / short false |
| RouterExamples.TestRouterAnswersWithHelp | tests/unit/omnibot_receiver/router_test.py:147-207 | `help` sent to a router with `ping` and `.*test.*` gets the document with both attachments and their fields, or the help route's function once one is set |
| RouterExamples.HelpCommandRouted | tests/unit/omnibot_receiver/router_test.py:209-219 | a command route named `help` answers `help`, whatever the help route is |
| RouterExamples.DefaultRouteTest | tests/unit/omnibot_receiver/router_test.py:81-145 | the help document; `NoMatchedRouteError` without help as default or a default route; a second default refused; the default route answers, also beside a command route |
| RouterExamples.GetHelpTest | tests/unit/omnibot_receiver/router_test.py:147-219 | the two-attachment help document; a set help route answers instead and a second one is refused; a `help` command route answers `help` |
| RouterExamples.InteractiveRouteTest | tests/unit/omnibot_receiver/router_test.py:250-264 | `ping` registered twice is refused the second time, and an event with id `ping` reaches the first function |
| RouterExamples.MultipleCallbackTest | tests/unit/omnibot_receiver/router_test.py:292-303 | one function registered under `345` and `123` answers events with either id |
| RouterExamples.InteractiveDefaultTest | tests/unit/omnibot_receiver/router_test.py:305-326 | a second interactive default is refused, and an unknown id reaches the first |
| RouterExamples.HandleEventRoutesByPayload | tests/unit/omnibot_receiver/router_test.py:331-357 | `ping` as a message and as an interactive component reaches each router's function |
| Response.ExtendResponse | omnibot_receiver/response.py:7-39 | the actions become the old actions followed by the other document's actions, in order (their own actions twice when both are the same document) |
| Response.GetSimplePostMessage | omnibot_receiver/response.py:42-95 | exactly one post action; the keyword keys are `text`, plus `omnibot_parse` iff one is given, plus `thread_ts` iff not in thread; `text` holds the text, `omnibot_parse` the given value and `thread_ts` is `None` |
| Response.SimplePostRoundTrip | omnibot_receiver/response.py:79-95 | the text, thread flag, `omnibot_parse` (verbatim) and ephemeral flag all read back from the document; the action is `chat.postEphemeral` iff ephemeral |
| Response.SimplePostInjective | omnibot_receiver/response.py:79-95 | different arguments build different documents |
| Response.SimplePostExamples | tests/unit/omnibot_receiver/response_test.py:20-51 | the documents the tests expect, for the default, `omnibot_parse` and unthreaded cases |
| Response.GetSimpleResponse | omnibot_receiver/response.py:98-151 | one reply: `ephemeral` or `in_channel` as flagged, text and `replace_original` passed through, `omnibot_parse` never absent |
| Response.SimpleResponseDefaultParse | omnibot_receiver/response.py:139-140 | a missing `omnibot_parse` becomes the empty mapping |
| Response.SimpleResponseKeepsParse | omnibot_receiver/response.py:139-147 | any given `omnibot_parse` is passed through verbatim |

## Left out

- Python's `re` engine outside the compiled-template fragment. The routers
  take matching as a parameter. `FragmentMatch` answers `None` for a pattern
  whose literal text holds regular-expression syntax (such as `ping .*` or
  `123.*abc`), where Python would match it.
- `re.compile` errors. Python raises when a group name is invalid or
  repeated. The model registers such a route anyway, and `FragmentMatch`
  never matches it.
- Non-ASCII `\w`: word characters are ASCII letters, digits and `_`.
- Calling the registered functions, what they return, and the exceptions they
  raise. Routing ends in an `Outcome` that names the function and its
  captures.
- Decorator and closure plumbing (`route`, `set_help`, `set_default` return
  decorators that return `f`). Each is one method call taking the function.
  The `kwargs.pop` reuse of the interactive `route` decorator is not modelled.
- Python truthiness of handlers and routers. Presence is `Option` or `null`.
- The text of exception messages.
- Dict values that are not strings: a message whose `args` is present but
  `None`, and a callback registered with an id of `None`. An event without a
  `callback_id` matches no callback.
- Response.ExtendResponse: models only the `actions` list of each document. A
  document without `actions` (a `KeyError` in Python) is not modelled, and
  neither is the sharing of one actions list between two distinct documents.
- The arguments `get_help` ignores (`message`, `**kwargs`).
- Aliasing between the routers' inner lists and callers. Buckets are values
  the methods replace.
- The Flask examples in docstrings, setup.py and the Sphinx search index.
