/**
 * What the routers of omnibot_receiver/router.py read from an omnibot event
 * and what routing an event comes to.
 *
 * Registered Python functions are known by identity only (`Handler`).  Routing
 * an event ends in one of three ways: a registered function is called with the
 * event (and, for message routes, with the groups its pattern captured), the
 * message router's built-in help document is returned, or an exception is
 * raised.  Regular-expression matching is a parameter of the routers
 * (`Matcher`); module TemplateMatch gives one for compiled route templates.
 */
module Events {
  import opened Options
  import opened Pattern
  import opened Response

  /** A registered function, by identity. */
  datatype Handler = Handler(id: nat)

  /**
   * The keys of an omnibot event the routers look at; `None` is a key the
   * event does not have.
   */
  datatype Event = Event(
    payloadType: Option<string>,  // 'omnibot_payload_type'
    matchType: Option<string>,    // 'match_type'
    args: Option<string>,         // 'args'
    callbackId: Option<string>,   // 'callback_id'
    eventType: Option<string>     // 'type'
  )

  /** The exceptions routing raises. */
  datatype Error =
    | RouteAlreadyDefined          // RouteAlreadyDefinedError
    | NoMatchedRoute               // NoMatchedRouteError
    | UnsupportedPayload           // UnsupportedPayloadError
    | KeyError(key: string)        // a missing key of a dict

  /** How routing an event ends. */
  datatype Outcome =
    | Invoke(handler: Handler, captures: Captures)  // handler(event, **captures)
    | AutoHelp(document: Envelope)                  // the built-in get_help's document
    | Raise(error: Error)

  /** How a registration ends. */
  datatype Status = Ok | Failed(error: Error)

  /**
   * `re.match` of a compiled pattern, given by its regular-expression text,
   * against a text: the match's named groups, or `None`.
   */
  type Matcher = (string, string) -> Option<Captures>
}
