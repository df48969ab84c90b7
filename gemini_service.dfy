/**
 * The client side of the reply service: post the reader's text to the proxy endpoint and
 * turn whatever comes back into the string the chat shows. It never fails: a network
 * error, a missing configuration, an error status and an unusable body each map to a
 * fixed message. `fetch` and `response.json()` are inputs, as the outcome they produce.
 */
module GeminiService {
  import opened Wrappers
  import opened Js
  import GeminiProxy

  const NOT_CONFIGURED: string := "AI 功能未启用：未配置 GEMINI_API_KEY（或未部署 /api/gemini）。"
  const APOLOGY: string := "抱歉，我现在无法倾听。请稍后再试。"
  const CONNECTION_LOST: string := "连接断开... 就像我们与睡眠的连接一样。请检查网络稍后再试。"

  /**
   * What `fetch` and `response.json()` produce: a network error, or a status with the
   * parsed body (None when parsing rejects, which the source turns into null).
   */
  datatype FetchOutcome = NetworkError | Fetched(status: nat, json: Option<JsValue>)

  /** `response.ok`: a status in the range 200-299. */
  predicate IsOk(status: nat)
  {
    200 <= status <= 299
  }

  /** `data && typeof data.text === 'string' && data.text.trim()`. */
  predicate HasUsableText(json: Option<JsValue>)
  {
    json.Some? && Truthy(json.value) && Prop(json.value, "text").Str? && Trim(Prop(json.value, "text").s) != ""
  }

  /** `generateEmpathyResponse` on the outcome of its request. */
  function GenerateEmpathyResponse(outcome: FetchOutcome): (r: string)
    ensures r != ""
    ensures outcome.NetworkError? ==> r == CONNECTION_LOST
    ensures outcome.Fetched? && outcome.status == 503 ==> r == NOT_CONFIGURED
    ensures outcome.Fetched? && outcome.status != 503 && !IsOk(outcome.status) ==> r == APOLOGY
    ensures r == CONNECTION_LOST || r == NOT_CONFIGURED || r == APOLOGY ||
      (outcome.Fetched? && IsOk(outcome.status) && outcome.json.Some? && Prop(outcome.json.value, "text") == Str(r) && !IsBlank(r))
  {
    match outcome
    case NetworkError => CONNECTION_LOST
    case Fetched(status, json) =>
      if status == 503 then NOT_CONFIGURED
      else if !IsOk(status) then APOLOGY
      else if HasUsableText(json) then
        TrimEmptyIffBlank(Prop(json.value, "text").s);
        Prop(json.value, "text").s
      else APOLOGY
  }

  /** An ok response with usable text is shown unchanged; an unusable body gives the apology. */
  lemma OkResponses(status: nat, json: Option<JsValue>)
    requires IsOk(status)
    ensures HasUsableText(json) ==> GenerateEmpathyResponse(Fetched(status, json)) == Prop(json.value, "text").s
    ensures !HasUsableText(json) ==> GenerateEmpathyResponse(Fetched(status, json)) == APOLOGY
    ensures json.None? || json == Some(Null) ==> GenerateEmpathyResponse(Fetched(status, json)) == APOLOGY
  {
  }

  /** The JSON the proxy's response body parses to. */
  function BodyJson(body: GeminiProxy.ResponseBody): JsValue
  {
    match body
    case KeyStatus(ok) => Obj(map["ok" := Bool(ok)])
    case ErrorBody(error) => Obj(map["error" := Str(error)])
    case ReplyBody(text) => Obj(map["text" := Str(text)])
  }

  /**
   * What the reader sees for one message, read straight off the two sources' guards:
   * no key, the configuration notice; a blank or over-long text, or an upstream failure or
   * blank reply, the apology; otherwise the generated text itself.
   */
  function ExpectedReply(userVent: string, env: Option<string>, upstream: GeminiProxy.Upstream): string
  {
    if GeminiProxy.ApiKey(env) == "" then NOT_CONFIGURED
    else if IsBlank(userVent) || Utf16Length(userVent) > GeminiProxy.MAX_TEXT_LENGTH then APOLOGY
    else match upstream
      case UpstreamThrew => APOLOGY
      case Generated(text) => if text.Some? && !IsBlank(text.value) then text.value else APOLOGY
  }

  /**
   * The whole round trip of one chat message: the client posts `{ text: userVent }`, the
   * proxy answers (its key, when configured, and the upstream outcome are inputs), and the
   * client maps the answer to the string the chat shows.
   */
  method RoundTrip(userVent: string, env: Option<string>, upstream: GeminiProxy.Upstream) returns (shown: string)
    ensures shown == ExpectedReply(userVent, env, upstream)
  {
    var request := GeminiProxy.Request("POST", Obj(map["text" := Str(userVent)]));
    assert GeminiProxy.ReadText(request.body) == userVent;
    var res, _ := GeminiProxy.Handler(request, env, upstream);
    if res.body.ReplyBody? {
      ShownReply(res.status, res.body.text);
    }
    shown := GenerateEmpathyResponse(Fetched(res.status, Some(BodyJson(res.body))));
  }

  /** A 200 answer carrying `text` shows that text unless it is blank. */
  lemma ShownReply(status: nat, text: string)
    ensures status == 200 ==>
      GenerateEmpathyResponse(Fetched(status, Some(BodyJson(GeminiProxy.ReplyBody(text))))) ==
      if IsBlank(text) then APOLOGY else text
  {
    var json := Some(BodyJson(GeminiProxy.ReplyBody(text)));
    assert Truthy(json.value);
    assert Prop(json.value, "text") == Str(text);
    TrimEmptyIffBlank(text);
    assert HasUsableText(json) <==> !IsBlank(text);
  }

  /**
   * The reader always sees a non-empty string, and the generated text reaches the chat
   * exactly when every guard passes and the upstream reply is not blank.
   */
  lemma ExpectedReplyShape(userVent: string, env: Option<string>, upstream: GeminiProxy.Upstream)
    ensures ExpectedReply(userVent, env, upstream) != ""
    ensures upstream.UpstreamThrew? ==>
      ExpectedReply(userVent, env, upstream) in {NOT_CONFIGURED, APOLOGY}
    ensures upstream.Generated? && upstream.text.Some? && !IsBlank(upstream.text.value)
            && GeminiProxy.ApiKey(env) != "" && !IsBlank(userVent)
            && Utf16Length(userVent) <= GeminiProxy.MAX_TEXT_LENGTH ==>
      ExpectedReply(userVent, env, upstream) == upstream.text.value
  {
    if upstream.Generated? && upstream.text.Some? && !IsBlank(upstream.text.value) {
      assert upstream.text.value[0] in upstream.text.value;
    }
  }
}
