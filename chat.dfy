/**
 * The chat widget's request logic: where questions are posted, which
 * questions are sent at all, and what the widget shows as the answer.
 */
module Chat {
  import opened Wrappers
  import opened JsText

  const ChatPath := "/api/chat"
  const FallbackAnswer := "I'm sorry, \U{02BF}\U{0100}dil hasn't provided that information on his portfolio."
  const UnreachableGuidance := "Backend not reachable. Define window.CHAT_API_BASE with your server URL."
  const TroubleGuidance := "Sorry, I'm having trouble connecting right now."

  /** `replace(/\/$/, '')`: drop one trailing slash, if there is one. */
  function StripTrailingSlash(s: string): (r: string)
    ensures s == r || s == r + "/"
    ensures s == r + "/" <==> s != [] && s[|s| - 1] == '/'
  {
    if s != [] && s[|s| - 1] == '/' then s[..|s| - 1] else s
  }

  /**
   * `API_BASE`: a configured, non-empty `CHAT_API_BASE` loses at most one
   * trailing slash; otherwise the base is empty (on the local development
   * server and everywhere else alike).
   */
  function ApiBase(configured: Option<string>): (base: string)
    ensures configured.Some? && configured.value != "" ==>
              base == StripTrailingSlash(configured.value)
    ensures configured.None? || configured.value == "" ==> base == ""
  {
    if configured.Some? && configured.value != "" then StripTrailingSlash(configured.value) else ""
  }

  /** The URL questions are posted to: the base followed by `/api/chat`, or the relative path. */
  function Endpoint(base: string): (url: string)
    ensures |url| >= |ChatPath| && url[|url| - |ChatPath|..] == ChatPath
    ensures url[..|url| - |ChatPath|] == base
  {
    if base != "" then base + ChatPath else ChatPath
  }

  /**
   * A base configured with one trailing slash yields an endpoint without a
   * doubled slash: the base's own text, then `/api/chat`.
   */
  lemma ConfiguredEndpoint(configured: string)
    requires configured != "" && configured[|configured| - 1] == '/'
    requires |configured| < 2 || configured[|configured| - 2] != '/'
    ensures Endpoint(ApiBase(Some(configured))) == configured[..|configured| - 1] + ChatPath
    ensures var base := ApiBase(Some(configured)); base == [] || base[|base| - 1] != '/'
  {
  }

  /** What the server's reply amounts to. */
  datatype ChatReply =
    | Answered(answer: Option<string>) // a 2xx reply whose JSON has this `answer`
    | Failed                           // a non-2xx status, a network error, or bad JSON

  /** One submit of the chat form. */
  datatype ChatTurn =
    | Ignored                                          // a blank question: nothing happens
    | Exchange(question: string, endpoint: string, shown: string)

  /** `data.answer || fallback`. */
  function AnswerText(answer: Option<string>): (text: string)
    ensures text != ""
    ensures answer.Some? && answer.value != "" ==> text == answer.value
    ensures answer.None? || answer.value == "" ==> text == FallbackAnswer
  {
    if answer.Some? && answer.value != "" then answer.value else FallbackAnswer
  }

  /**
   * The submit handler. `input` is the text field's value, `base` the
   * resolved `API_BASE`, `sameOriginDev` whether the page is served from
   * `localhost:3000`, and `reply` what the post brings back.
   */
  function Submit(input: string, base: string, sameOriginDev: bool, reply: ChatReply): (t: ChatTurn)
    ensures t.Ignored? <==> AllWhitespace(input)
    ensures t.Exchange? ==> t.question == Trim(input) && t.question != "" && t.endpoint == Endpoint(base)
    ensures t.Exchange? ==> t.shown != ""
    ensures t.Exchange? && reply.Answered? ==> t.shown == AnswerText(reply.answer)
    ensures t.Exchange? && reply.Failed? ==>
              (t.shown == UnreachableGuidance <==> base == "" && !sameOriginDev)
    ensures t.Exchange? && reply.Failed? ==>
              (t.shown == TroubleGuidance <==> base != "" || sameOriginDev)
  {
    var q := Trim(input);
    if q == "" then Ignored
    else
      var shown :=
        match reply
        case Answered(a) => AnswerText(a)
        case Failed => if base == "" && !sameOriginDev then UnreachableGuidance else TroubleGuidance;
      Exchange(q, Endpoint(base), shown)
  }
}
