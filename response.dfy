/**
 * Omnibot response documents and the helpers that build them
 * (omnibot_receiver/response.py).
 *
 * A handler answers omnibot with either an actions document,
 * `{'actions': [{'action': <Slack API method>, 'kwargs': {...}}, ...]}`, or a
 * responses document, `{'responses': [{'response_type': ..., 'text': ...,
 * 'omnibot_parse': ..., 'replace_original': ...}]}`.  Keyword arguments are
 * JSON-like values; Python's `None` is `Null`.
 */
module Response {
  import opened Options

  /** A JSON-like value; `Null` is Python's `None`. */
  datatype Value =
    | Null
    | Bool(b: bool)
    | Str(s: string)
    | List(items: seq<Value>)
    | Object(entries: map<string, Value>)

  /** One Slack API call for omnibot to make. */
  datatype Action = Action(action: string, kwargs: map<string, Value>)

  /** One reply to a slash command or an interactive component. */
  datatype Reply = Reply(responseType: string, text: string, omnibotParse: Value, replaceOriginal: bool)

  /** A whole response document. */
  datatype Envelope = Actions(actions: seq<Action>) | Responses(responses: seq<Reply>)

  /** An actions document whose list of actions is updated in place. */
  class ActionsResponse {
    var actions: seq<Action>

    constructor (actions: seq<Action>)
      ensures this.actions == actions
    {
      this.actions := actions;
    }
  }

  /**
   * `extend_response`: appends the actions of `extendResp` to those of
   * `resp`, in place.  When both are the same document its actions are
   * doubled, as Python's `list.extend` does with its own list.
   */
  method ExtendResponse(resp: ActionsResponse, extendResp: ActionsResponse)
    modifies resp
    ensures resp.actions == old(resp.actions) + old(extendResp.actions)
  {
    resp.actions := resp.actions + extendResp.actions;
  }

  /** The Slack method that posts a message, to the channel or to one user only. */
  function PostAction(ephemeral: bool): string {
    if ephemeral then "chat.postEphemeral" else "chat.postMessage"
  }

  /**
   * `get_simple_post_message`: an actions document with a single post of
   * `text`.  The keyword arguments carry `omnibot_parse` only when one is
   * given, and carry `thread_ts: None` when the message is not to be posted in
   * the thread.
   */
  function GetSimplePostMessage(text: string, thread: bool := true, omnibotParse: Value := Null, ephemeral: bool := false): (r: Envelope)
    ensures r.Actions? && |r.actions| == 1
    ensures r.actions[0].action in {"chat.postMessage", "chat.postEphemeral"}
    ensures r.actions[0].kwargs.Keys
         == {"text"} + (if omnibotParse != Null then {"omnibot_parse"} else {}) + (if thread then {} else {"thread_ts"})
    ensures r.actions[0].kwargs["text"] == Str(text)
    ensures omnibotParse != Null ==> r.actions[0].kwargs["omnibot_parse"] == omnibotParse
    ensures !thread ==> r.actions[0].kwargs["thread_ts"] == Null
  {
    var withText := map["text" := Str(text)];
    var withParse := if omnibotParse != Null then withText["omnibot_parse" := omnibotParse] else withText;
    var kwargs := if !thread then withParse["thread_ts" := Null] else withParse;
    Actions([Action(PostAction(ephemeral), kwargs)])
  }

  /**
   * The arguments a simple post was built from, read back from the document,
   * or `None` when the document is not a simple post.
   */
  function ReadSimplePost(r: Envelope): Option<(string, bool, Value, bool)> {
    if r.Actions? && |r.actions| == 1 && r.actions[0].action in {"chat.postMessage", "chat.postEphemeral"} then
      var kw := r.actions[0].kwargs;
      if "text" in kw && kw["text"].Str? then
        Some((kw["text"].s,
              "thread_ts" !in kw,
              if "omnibot_parse" in kw then kw["omnibot_parse"] else Null,
              r.actions[0].action == "chat.postEphemeral"))
      else None
    else None
  }

  /** A simple post loses none of its arguments: reading it back gives them all. */
  lemma SimplePostRoundTrip(text: string, thread: bool, omnibotParse: Value, ephemeral: bool)
    ensures ReadSimplePost(GetSimplePostMessage(text, thread, omnibotParse, ephemeral))
         == Some((text, thread, omnibotParse, ephemeral))
  {
  }

  /** Two simple posts are the same document only when built from the same arguments. */
  lemma SimplePostInjective(t1: string, th1: bool, p1: Value, e1: bool, t2: string, th2: bool, p2: Value, e2: bool)
    requires GetSimplePostMessage(t1, th1, p1, e1) == GetSimplePostMessage(t2, th2, p2, e2)
    ensures t1 == t2 && th1 == th2 && p1 == p2 && e1 == e2
  {
    SimplePostRoundTrip(t1, th1, p1, e1);
    SimplePostRoundTrip(t2, th2, p2, e2);
  }

  /**
   * `get_simple_response`: a responses document with a single reply of
   * `text`; a missing `omnibot_parse` becomes the empty object.
   */
  function GetSimpleResponse(text: string, omnibotParse: Value := Null, ephemeral: bool := false, replaceOriginal: bool := false): (r: Envelope)
    ensures r.Responses? && |r.responses| == 1
    ensures r.responses[0].responseType == (if ephemeral then "ephemeral" else "in_channel")
    ensures r.responses[0].text == text && r.responses[0].replaceOriginal == replaceOriginal
    ensures r.responses[0].omnibotParse != Null
  {
    var responseType := if ephemeral then "ephemeral" else "in_channel";
    var parse := if omnibotParse == Null then Object(map[]) else omnibotParse;
    Responses([Reply(responseType, text, parse, replaceOriginal)])
  }

  /** Omitting `omnibot_parse` and giving the empty object build the same reply. */
  lemma SimpleResponseDefaultParse(text: string, ephemeral: bool, replaceOriginal: bool)
    ensures GetSimpleResponse(text, Null, ephemeral, replaceOriginal)
         == GetSimpleResponse(text, Object(map[]), ephemeral, replaceOriginal)
  {
  }

  /** Any other `omnibot_parse` is passed through unchanged. */
  lemma SimpleResponseKeepsParse(text: string, omnibotParse: Value, ephemeral: bool, replaceOriginal: bool)
    requires omnibotParse != Null
    ensures GetSimpleResponse(text, omnibotParse, ephemeral, replaceOriginal).responses[0].omnibotParse == omnibotParse
  {
  }

  /** The documents the helpers' tests expect. */
  lemma SimplePostExamples()
    ensures GetSimplePostMessage("test") == Actions([Action("chat.postMessage", map["text" := Str("test")])])
    ensures GetSimplePostMessage("test", omnibotParse := List([Str("all")]))
         == Actions([Action("chat.postMessage", map["text" := Str("test"), "omnibot_parse" := List([Str("all")])])])
    ensures GetSimplePostMessage("test", thread := false)
         == Actions([Action("chat.postMessage", map["text" := Str("test"), "thread_ts" := Null])])
  {
  }
}
