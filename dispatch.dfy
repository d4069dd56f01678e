/**
 * The generic router (omnibot_receiver/router.py, `OmnibotRouter`): hands a
 * message payload to the message router and an interactive-component payload
 * to the interactive router, when it has one of each.
 */
module Dispatch {
  import opened Options
  import opened Events
  import opened MessageRouting
  import opened InteractiveRouting

  /** The payload type of a message. */
  const MessagePayload := "message"

  /** The payload type of an interactive component. */
  const InteractivePayload := "interactive_component"

  /** The routers present, each with its fields, and each as registration keeps it. */
  predicate RoutersValid(message: Option<MessageConfig>, interactive: Option<InteractiveConfig>) {
    && (message.Some? ==> RoutesValid(message.value.routes))
    && (interactive.Some? ==> AllTypes in interactive.value.routes)
  }

  /** `handle_event`: how a payload is routed. */
  function EventOutcome(message: Option<MessageConfig>, interactive: Option<InteractiveConfig>, ev: Event, matches: Matcher): Outcome
    requires RoutersValid(message, interactive)
  {
    if message.Some? && ev.payloadType == Some(MessagePayload) then MessageOutcome(message.value, ev, matches)
    else if interactive.Some? && ev.payloadType == Some(InteractivePayload) then InteractiveOutcome(interactive.value, ev)
    else Raise(UnsupportedPayload)
  }

  /**
   * `UnsupportedPayloadError` is raised exactly for a payload no present
   * router takes; every other payload is routed by its own router alone.
   */
  lemma EventOutcomeSpec(message: Option<MessageConfig>, interactive: Option<InteractiveConfig>, ev: Event, matches: Matcher)
    requires RoutersValid(message, interactive)
    ensures EventOutcome(message, interactive, ev, matches) == Raise(UnsupportedPayload)
        <==> (!(message.Some? && ev.payloadType == Some(MessagePayload))
              && !(interactive.Some? && ev.payloadType == Some(InteractivePayload)))
    ensures message.Some? && ev.payloadType == Some(MessagePayload) ==>
            EventOutcome(message, interactive, ev, matches) == EventOutcome(message, None, ev, matches)
    ensures interactive.Some? && ev.payloadType == Some(InteractivePayload) ==>
            EventOutcome(message, interactive, ev, matches) == EventOutcome(None, interactive, ev, matches)
  {
    if message.Some? && ev.payloadType == Some(MessagePayload) {
      MessageNeverUnsupported(message.value, ev, matches);
    } else if interactive.Some? && ev.payloadType == Some(InteractivePayload) {
      InteractiveOutcomeSpec(interactive.value, ev);
    }
  }

  /** The message router never raises `UnsupportedPayloadError`. */
  lemma MessageNeverUnsupported(cfg: MessageConfig, ev: Event, matches: Matcher)
    requires RoutesValid(cfg.routes)
    ensures MessageOutcome(cfg, ev, matches) != Raise(UnsupportedPayload)
  {
  }

  /** A router with neither a message nor an interactive router refuses every payload. */
  lemma EmptyRouterRefuses(ev: Event, matches: Matcher)
    ensures EventOutcome(None, None, ev, matches) == Raise(UnsupportedPayload)
  {
  }

  class OmnibotRouter {
    const messageRouter: MessageRouter?
    const interactiveRouter: InteractiveRouter?

    ghost predicate Valid()
      reads this, messageRouter, interactiveRouter
    {
      && (messageRouter != null ==> messageRouter.Valid())
      && (interactiveRouter != null ==> interactiveRouter.Valid())
    }

    /** The message router's fields, when there is one. */
    function MessageConfigOf(): Option<MessageConfig>
      reads this, messageRouter
    {
      if messageRouter == null then None else Some(messageRouter.Config())
    }

    /** The interactive router's fields, when there is one. */
    function InteractiveConfigOf(): Option<InteractiveConfig>
      reads this, interactiveRouter
    {
      if interactiveRouter == null then None else Some(interactiveRouter.Config())
    }

    constructor (messageRouter: MessageRouter? := null, interactiveRouter: InteractiveRouter? := null)
      ensures this.messageRouter == messageRouter && this.interactiveRouter == interactiveRouter
    {
      this.messageRouter := messageRouter;
      this.interactiveRouter := interactiveRouter;
    }

    /** `handle_event`: routes a payload as `EventOutcome` says. */
    method HandleEvent(ev: Event, matches: Matcher) returns (o: Outcome)
      requires Valid()
      ensures RoutersValid(MessageConfigOf(), InteractiveConfigOf())
      ensures o == EventOutcome(MessageConfigOf(), InteractiveConfigOf(), ev, matches)
    {
      if messageRouter != null && ev.payloadType == Some(MessagePayload) {
        o := messageRouter.HandleMessage(ev, matches);
      } else if interactiveRouter != null && ev.payloadType == Some(InteractivePayload) {
        o := interactiveRouter.HandleInteractiveComponent(ev);
      } else {
        o := Raise(UnsupportedPayload);
      }
    }
  }
}
