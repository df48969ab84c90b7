/**
 * The serverless endpoint that forwards a reader's text to the generative-text service.
 * The handler writes exactly one response, chosen by a chain of early-return guards on the
 * method, the configured key, and the text's presence and length; only a request past
 * every guard reaches the upstream service. The environment variable and the upstream
 * call's outcome are inputs; the response the handler writes onto `res` is its result.
 */
module GeminiProxy {
  import opened Wrappers
  import opened Js

  /** Longest accepted text, in UTF-16 code units (`text.length`). */
  const MAX_TEXT_LENGTH: nat := 4000

  datatype Request = Request(httpMethod: string, body: JsValue)

  /** The JSON bodies the handler sends. */
  datatype ResponseBody =
    | KeyStatus(ok: bool)
    | ErrorBody(error: string)
    | ReplyBody(text: string)

  /** Status, the `Allow` header when one was set, and the JSON body. */
  datatype Response = Response(status: nat, allow: Option<string>, body: ResponseBody)

  /** What the upstream call does when made: resolves with an optional `text`, or throws. */
  datatype Upstream = Generated(text: Option<string>) | UpstreamThrew

  /** `getApiKey()`: `process.env.GEMINI_API_KEY || ''`. */
  function ApiKey(env: Option<string>): (key: string)
    ensures env.None? ==> key == ""
    ensures env.Some? ==> key == env.value
  {
    if env.Some? && env.value != "" then env.value else ""
  }

  /**
   * `readText(body)`: the body itself when it is a string, else its `text` field, else its
   * `userVent` field, when those are strings; '' for anything else.
   */
  function ReadText(body: JsValue): (r: string)
    ensures r == "" || body == Str(r) || Prop(body, "text") == Str(r) || Prop(body, "userVent") == Str(r)
    ensures body.Str? ==> r == body.s
  {
    if !Truthy(body) then ""
    else if body.Str? then body.s
    else if Prop(body, "text").Str? then Prop(body, "text").s
    else if Prop(body, "userVent").Str? then Prop(body, "userVent").s
    else ""
  }

  /** `text` wins over `userVent` when both are strings; `userVent` is read only when `text` is not a string. */
  lemma ReadTextPrefersText(fields: map<string, JsValue>)
    ensures "text" in fields && fields["text"].Str? ==> ReadText(Obj(fields)) == fields["text"].s
    ensures ("text" !in fields || !fields["text"].Str?) && "userVent" in fields && fields["userVent"].Str? ==>
      ReadText(Obj(fields)) == fields["userVent"].s
    ensures ("text" !in fields || !fields["text"].Str?) && ("userVent" !in fields || !fields["userVent"].Str?) ==>
      ReadText(Obj(fields)) == ""
  {
  }

  /** A falsy body and a body that is neither a string nor an object both read as ''. */
  lemma ReadTextOfOtherBodies(body: JsValue)
    requires !body.Str? && !body.Obj?
    ensures ReadText(body) == ""
  {
  }

  /**
   * `handler(req, res)`. `forwarded` is the text passed to the upstream call, None when no
   * call is made; `upstream` is what that call would do.
   */
  method Handler(req: Request, env: Option<string>, upstream: Upstream) returns (res: Response, forwarded: Option<string>)
    ensures req.httpMethod == "GET" ==>
      res == Response(200, None, KeyStatus(ApiKey(env) != "")) && forwarded == None
    ensures req.httpMethod != "GET" && req.httpMethod != "POST" ==>
      res == Response(405, Some("GET, POST"), ErrorBody("Method Not Allowed")) && forwarded == None
    ensures req.httpMethod == "POST" && ApiKey(env) == "" ==>
      res == Response(503, None, ErrorBody("AI not configured")) && forwarded == None
    ensures req.httpMethod == "POST" && ApiKey(env) != "" && IsBlank(ReadText(req.body)) ==>
      res == Response(400, None, ErrorBody("Missing text")) && forwarded == None
    ensures req.httpMethod == "POST" && ApiKey(env) != "" && !IsBlank(ReadText(req.body))
            && Utf16Length(ReadText(req.body)) > MAX_TEXT_LENGTH ==>
      res == Response(413, None, ErrorBody("Text too long")) && forwarded == None
    ensures forwarded.Some? <==>
      req.httpMethod == "POST" && ApiKey(env) != "" && !IsBlank(ReadText(req.body))
      && Utf16Length(ReadText(req.body)) <= MAX_TEXT_LENGTH
    ensures forwarded.Some? ==> forwarded.value == ReadText(req.body)
    ensures forwarded.Some? && upstream.Generated? ==>
      res == Response(200, None, ReplyBody(if upstream.text.Some? then upstream.text.value else ""))
    ensures forwarded.Some? && upstream.UpstreamThrew? ==>
      res == Response(502, None, ErrorBody("Upstream error"))
  {
    var apiKey := ApiKey(env);

    if req.httpMethod == "GET" {
      return Response(200, None, KeyStatus(apiKey != "")), None;
    }

    if req.httpMethod != "POST" {
      return Response(405, Some("GET, POST"), ErrorBody("Method Not Allowed")), None;
    }

    if apiKey == "" {
      return Response(503, None, ErrorBody("AI not configured")), None;
    }

    var text := ReadText(req.body);
    if Trim(text) == "" {
      TrimEmptyIffBlank(text);
      return Response(400, None, ErrorBody("Missing text")), None;
    }
    TrimEmptyIffBlank(text);

    if Utf16Length(text) > MAX_TEXT_LENGTH {
      return Response(413, None, ErrorBody("Text too long")), None;
    }

    forwarded := Some(text);
    match upstream
    case Generated(generated) =>
      res := Response(200, None, ReplyBody(if generated.Some? then generated.value else ""));
    case UpstreamThrew =>
      res := Response(502, None, ErrorBody("Upstream error"));
  }
}
