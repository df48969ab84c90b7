/**
 * The single-file build: take the built page, drop its module-preload links, inline every
 * local stylesheet and every local script from the build output directory, refuse the
 * result if a script `src` or a link `href` is still in it, and otherwise write it out.
 *
 * The page is a sequence of tokens: the tags the script's regular expressions pick out and
 * the markup between them. Reading the page and writing the output are not modelled: the
 * page is the input and the written text is the result. The build output directory is a
 * map from cleaned relative paths to file contents; a path it lacks is a failed read. The
 * final check runs over the whole text about to be written, as the script's does. The
 * script pass acts on the page's own tokens only: a `<script src=...></script>` element
 * inside a style sheet inlined by the first pass stays text here, where the script's own
 * pass, which searches the page after the first pass, would inline that element too.
 */
module SingleHtml {
  import opened Wrappers
  import opened Js
  import opened SingleHtmlText
  import opened LeftoverPattern

  datatype LinkRel = ModulePreload | Stylesheet | OtherRel

  datatype Node =
    /** Text holding no `<link>` and no `<script>` opening tag. */
    | Markup(text: string)
    /** A `<link ...>` tag and what its `rel` attribute says. */
    | Link(tag: string, rel: LinkRel)
    /**
     * `<script ... src="..." ...></script>` with nothing but white space inside, as the
     * script pass matches it: the whole text and the three captured groups.
     */
    | ScriptSrc(tag: string, beforeSrc: string, src: string, afterSrc: string)
    /** Any other script element, with its opening tag and body. */
    | ScriptOther(tag: string)
    /** What an inlined stylesheet becomes. */
    | InlineStyle(css: string)
    /** What an inlined script becomes. */
    | InlineScript(attrs: string, js: string)

  function Render(n: Node): string
  {
    match n
    case Markup(text) => text
    case Link(tag, _) => tag
    case ScriptSrc(tag, _, _, _) => tag
    case ScriptOther(tag) => tag
    case InlineStyle(css) => "<style>\n" + css + "\n</style>"
    case InlineScript(attrs, js) => "<script" + attrs + ">\n" + js + "\n</script>"
  }

  function RenderAll(doc: seq<Node>): string
  {
    if doc == [] then "" else Render(doc[0]) + RenderAll(doc[1..])
  }

  datatype BuildError =
    /** The file for a local reference is not in the build output. */
    | MissingFile(path: string)
    /**
     * The text about to be written still references a file: which check fired, and where
     * in the text its leftmost match starts.
     */
    | LeftoverReference(pattern: Leftover, at: nat)

  /** The two leftover checks, in the order they run. */
  datatype Leftover = ScriptSrcLeftover | LinkHrefLeftover

  predicate IsModulePreload(n: Node)
  {
    n.Link? && n.rel == ModulePreload
  }

  /** The white space after a dropped preload link goes with it. */
  function TrimLeadingMarkup(rest: seq<Node>): (r: seq<Node>)
    ensures |r| == |rest|
    ensures forall n: Node :: !n.Markup? ==> (n in r <==> n in rest)
    ensures rest != [] && rest[0].Markup? ==> r[0] == Markup(TrimStart(rest[0].text)) && r[1..] == rest[1..]
    ensures rest != [] && !rest[0].Markup? ==> r == rest
  {
    if rest != [] && rest[0].Markup? then
      var r := [Markup(TrimStart(rest[0].text))] + rest[1..];
      assert rest == [rest[0]] + rest[1..];
      r
    else rest
  }

  /**
   * `html.replace(/<link\b[^>]*rel=["']modulepreload["'][^>]*>\s*\/gi, '')`: every preload
   * link disappears with the white space after it; every other tag stays, in order.
   */
  function DropModulePreloads(doc: seq<Node>): (r: seq<Node>)
    ensures forall n :: n in r ==> !IsModulePreload(n)
    ensures forall n: Node :: !n.Markup? ==> (n in r <==> n in doc && !IsModulePreload(n))
    ensures |r| <= |doc|
    decreases |doc|
  {
    if doc == [] then []
    else
      assert doc == [doc[0]] + doc[1..];
      if IsModulePreload(doc[0]) then DropModulePreloads(TrimLeadingMarkup(doc[1..]))
      else [doc[0]] + DropModulePreloads(doc[1..])
  }

  /** A stylesheet link with a local `href`: the one kind of link the stylesheet pass inlines. */
  predicate IsLocalStylesheet(n: Node)
  {
    n.Link? && n.rel == Stylesheet && ExtractAttr(n.tag, "href").Some? && !IsExternalUrl(ExtractAttr(n.tag, "href").value)
  }

  /** A script with a local `src`: the one kind of script the script pass inlines. */
  predicate IsLocalScript(n: Node)
  {
    n.ScriptSrc? && n.src != "" && !IsExternalUrl(n.src)
  }

  /**
   * One matched stylesheet link: one with a local `href` is replaced by a style element
   * holding the escaped file, or fails when the file is missing; anything else is left alone.
   */
  function InlineStylesheet(n: Node, dist: map<string, string>): (r: Result<Node, BuildError>)
    ensures r == Ok(n) <==> !IsLocalStylesheet(n)
    ensures r.Err? <==> IsLocalStylesheet(n) && CleanDistPath(ExtractAttr(n.tag, "href").value) !in dist
    ensures r.Err? ==> r.error == MissingFile(CleanDistPath(ExtractAttr(n.tag, "href").value))
    ensures r.Ok? && r.value != n ==> r.value.InlineStyle? && !ContainsIgnoringCase(r.value.css, "</style>")
  {
    if IsLocalStylesheet(n) then
      var path := CleanDistPath(ExtractAttr(n.tag, "href").value);
      if path in dist then Ok(InlineStyle(EscapeInlineStyleText(dist[path])))
      else Err(MissingFile(path))
    else Ok(n)
  }

  /**
   * One matched script: one with a local `src` is replaced by an inline script keeping
   * the other attributes and holding the escaped file, or fails when the file is missing;
   * anything else is left alone.
   */
  function InlineScriptFile(n: Node, dist: map<string, string>): (r: Result<Node, BuildError>)
    ensures r == Ok(n) <==> !IsLocalScript(n)
    ensures r.Err? <==> IsLocalScript(n) && CleanDistPath(n.src) !in dist
    ensures r.Err? ==> r.error == MissingFile(CleanDistPath(n.src))
    ensures r.Ok? && r.value != n ==>
      r.value.InlineScript? && r.value.attrs == PreservedAttrs(n.beforeSrc, n.afterSrc) &&
      !ContainsIgnoringCase(r.value.js, "</script>")
  {
    if IsLocalScript(n) then
      var path := CleanDistPath(n.src);
      if path in dist then Ok(InlineScript(PreservedAttrs(n.beforeSrc, n.afterSrc), EscapeInlineScriptText(dist[path])))
      else Err(MissingFile(path))
    else Ok(n)
  }

  /** What a pass does to one token: the token it becomes, or the read that failed. */
  type TokenStep = Node -> Result<Node, BuildError>

  /** The stylesheet pass's work on one token. */
  function StylesheetPass(dist: map<string, string>): TokenStep
  {
    n => InlineStylesheet(n, dist)
  }

  /** The script pass's work on one token. */
  function ScriptPass(dist: map<string, string>): TokenStep
  {
    n => InlineScriptFile(n, dist)
  }

  /** One pass over the page, in document order; the first failed read ends it. */
  function MapPass(step: TokenStep, doc: seq<Node>): Result<seq<Node>, BuildError>
    decreases |doc|
  {
    if doc == [] then Ok([])
    else
      match MapPass(step, doc[..|doc| - 1])
      case Err(e) => Err(e)
      case Ok(done) =>
        match step(doc[|doc| - 1])
        case Err(e) => Err(e)
        case Ok(m) => Ok(done + [m])
  }

  /** The element and the attribute each leftover check looks for. */
  function CheckedTag(pattern: Leftover): string
  {
    match pattern
    case ScriptSrcLeftover => "script"
    case LinkHrefLeftover => "link"
  }

  function CheckedAttr(pattern: Leftover): string
  {
    match pattern
    case ScriptSrcLeftover => "src"
    case LinkHrefLeftover => "href"
  }

  /** The check's regular expression matches somewhere in `html`. */
  predicate Leaves(html: string, pattern: Leftover)
  {
    HasLeftover(html, CheckedTag(pattern), CheckedAttr(pattern))
  }

  /** `html.match(re)` for one check: where its leftmost match starts. */
  function FirstMatch(html: string, pattern: Leftover): Option<nat>
  {
    FirstLeftover(html, CheckedTag(pattern), CheckedAttr(pattern))
  }

  /** Two passes, one after the other; a failure in the first skips the second. */
  function Pipeline(first: TokenStep, second: TokenStep, doc: seq<Node>): Result<seq<Node>, BuildError>
  {
    match MapPass(first, doc)
    case Err(e) => Err(e)
    case Ok(mid) => MapPass(second, mid)
  }

  /** The page after dropping the preload links and both inlining passes. */
  function Inline(doc: seq<Node>, dist: map<string, string>): Result<seq<Node>, BuildError>
  {
    Pipeline(StylesheetPass(dist), ScriptPass(dist), DropModulePreloads(doc))
  }

  /**
   * The leftover checks, in order, on the text about to be written: that text, or the
   * first check that matches in it.
   */
  function Finish(inlined: Result<seq<Node>, BuildError>): Result<string, BuildError>
  {
    match inlined
    case Err(e) => Err(e)
    case Ok(out) =>
      var html := RenderAll(out);
      match FirstMatch(html, ScriptSrcLeftover)
      case Some(at) => Err(LeftoverReference(ScriptSrcLeftover, at))
      case None =>
        match FirstMatch(html, LinkHrefLeftover)
        case Some(at) => Err(LeftoverReference(LinkHrefLeftover, at))
        case None => Ok(html)
  }

  /** The whole build: the text written out, or why nothing is written. */
  function Build(doc: seq<Node>, dist: map<string, string>): Result<string, BuildError>
  {
    Finish(Inline(doc, dist))
  }

  /** The build script's top level: the two passes, then the checks. */
  method MakeSingleHtml(doc: seq<Node>, dist: map<string, string>) returns (r: Result<string, BuildError>)
    ensures r == Build(doc, dist)
  {
    var inlined := InlineAssets(doc, dist);
    r := CheckLeftovers(inlined);
  }

  /** Dropping the preload links, then the stylesheet pass, then the script pass. */
  method InlineAssets(doc: seq<Node>, dist: map<string, string>) returns (r: Result<seq<Node>, BuildError>)
    ensures r == Inline(doc, dist)
  {
    var html := DropModulePreloads(doc);
    var styled := RunPass(StylesheetPass(dist), html);
    if styled.Err? {
      return Err(styled.error);
    }
    r := RunPass(ScriptPass(dist), styled.value);
  }

  /** The `for (const re of leftovers)` loop over the text, and that text when it finds nothing. */
  method CheckLeftovers(inlined: Result<seq<Node>, BuildError>) returns (r: Result<string, BuildError>)
    ensures r == Finish(inlined)
  {
    if inlined.Err? {
      return Err(inlined.error);
    }
    var html := RenderAll(inlined.value);
    var checks := [ScriptSrcLeftover, LinkHrefLeftover];
    for c := 0 to |checks|
      invariant forall k :: 0 <= k < c ==> FirstMatch(html, checks[k]).None?
    {
      var found := FindLeftover(html, checks[c]);
      if c == 1 {
        assert FirstMatch(html, checks[0]).None?;
      }
      if found.Some? {
        return Err(LeftoverReference(checks[c], found.value));
      }
    }
    assert FirstMatch(html, checks[0]).None? && FirstMatch(html, checks[1]).None?;
    return Ok(html);
  }

  /** The `for (const match of matches)` loop of one pass. */
  method RunPass(step: TokenStep, doc: seq<Node>) returns (r: Result<seq<Node>, BuildError>)
    ensures r == MapPass(step, doc)
  {
    var result: seq<Node> := [];
    var i := 0;
    while i < |doc|
      invariant 0 <= i <= |doc|
      invariant MapPass(step, doc[..i]) == Ok(result)
    {
      assert doc[..i + 1][..i] == doc[..i];
      var next := step(doc[i]);
      if next.Err? {
        MapPassStopsAtFailure(step, doc, i + 1);
        return Err(next.error);
      }
      result := result + [next.value];
      i := i + 1;
    }
    assert doc[..|doc|] == doc;
    return Ok(result);
  }

  /** `html.match(re)` for one check: a scan for the leftmost position where it matches. */
  method FindLeftover(html: string, pattern: Leftover) returns (r: Option<nat>)
    ensures r == FirstMatch(html, pattern)
  {
    var tag, attr := CheckedTag(pattern), CheckedAttr(pattern);
    for p := 0 to |html|
      invariant FirstLeftoverFrom(html, tag, attr, p) == FirstMatch(html, pattern)
    {
      if LeftoverAt(html, p, tag, attr) {
        return Some(p);
      }
    }
    return None;
  }

  /** A failed read in a prefix of the page is the failure of the whole pass. */
  lemma {:induction false} MapPassStopsAtFailure(step: TokenStep, doc: seq<Node>, i: nat)
    requires i <= |doc|
    requires MapPass(step, doc[..i]).Err?
    ensures MapPass(step, doc) == MapPass(step, doc[..i])
    decreases |doc| - i
  {
    if i < |doc| {
      var front := doc[..|doc| - 1];
      assert front[..i] == doc[..i];
      MapPassStopsAtFailure(step, front, i);
    } else {
      assert doc[..i] == doc;
    }
  }

  /**
   * A pass succeeds exactly when it succeeds on every token, and it then replaces each
   * token in place: same length, same order, nothing added or lost.
   */
  lemma {:induction false} MapPassPointwise(step: TokenStep, doc: seq<Node>)
    ensures MapPass(step, doc).Ok? <==> forall i :: 0 <= i < |doc| ==> step(doc[i]).Ok?
    ensures MapPass(step, doc).Ok? ==>
      |MapPass(step, doc).value| == |doc| &&
      forall i :: 0 <= i < |doc| ==> step(doc[i]) == Ok(MapPass(step, doc).value[i])
    decreases |doc|
  {
    if doc != [] {
      var front := doc[..|doc| - 1];
      MapPassPointwise(step, front);
      assert forall i :: 0 <= i < |front| ==> front[i] == doc[i];
    }
  }

  /** Two passes succeed exactly when both succeed on every token, and then act token by token. */
  lemma PipelinePointwise(first: TokenStep, second: TokenStep, doc: seq<Node>)
    ensures Pipeline(first, second, doc).Ok? <==>
      forall i :: 0 <= i < |doc| ==> first(doc[i]).Ok? && second(first(doc[i]).value).Ok?
    ensures Pipeline(first, second, doc).Ok? ==>
      |Pipeline(first, second, doc).value| == |doc| &&
      forall i :: 0 <= i < |doc| ==> Pipeline(first, second, doc).value[i] == second(first(doc[i]).value).value
  {
    MapPassPointwise(first, doc);
    if MapPass(first, doc).Ok? {
      MapPassPointwise(second, MapPass(first, doc).value);
    } else {
      var i :| 0 <= i < |doc| && first(doc[i]).Err?;
    }
  }

  lemma {:induction false} RenderAllAppend(a: seq<Node>, b: seq<Node>)
    ensures RenderAll(a + b) == RenderAll(a) + RenderAll(b)
    decreases |a|
  {
    if a == [] {
      assert a + b == b;
    } else {
      assert (a + b)[1..] == a[1..] + b;
      RenderAllAppend(a[1..], b);
    }
  }

  /** The written text holds each token's text, between those of the tokens around it. */
  lemma TokenInPage(out: seq<Node>, i: nat)
    requires i < |out|
    ensures RenderAll(out) == RenderAll(out[..i]) + Render(out[i]) + RenderAll(out[i + 1..])
  {
    var before, rest := out[..i], out[i..];
    assert out == before + rest;
    RenderAllAppend(before, rest);
    assert rest[1..] == out[i + 1..];
    assert RenderAll(rest) == Render(out[i]) + RenderAll(out[i + 1..]);
  }

  /** A match inside one token's text is a match in the written text. */
  lemma TokenLeftoverInPage(out: seq<Node>, i: nat, pattern: Leftover)
    requires i < |out|
    ensures Leaves(Render(out[i]), pattern) ==> Leaves(RenderAll(out), pattern)
  {
    TokenInPage(out, i);
    if Leaves(Render(out[i]), pattern) {
      HasLeftoverInContext(RenderAll(out[..i]), Render(out[i]), RenderAll(out[i + 1..]),
        CheckedTag(pattern), CheckedAttr(pattern));
    }
  }

  /** What becomes of one token in the two passes: the token written in its place, or the failed read. */
  function Inlined(n: Node, dist: map<string, string>): Result<Node, BuildError>
  {
    match InlineStylesheet(n, dist)
    case Err(e) => Err(e)
    case Ok(m) => InlineScriptFile(m, dist)
  }

  /** One token lets the page through: its file is read, and what stands in its place matches neither check. */
  predicate TokenPasses(n: Node, dist: map<string, string>)
  {
    && Inlined(n, dist).Ok?
    && !Leaves(Render(Inlined(n, dist).value), ScriptSrcLeftover)
    && !Leaves(Render(Inlined(n, dist).value), LinkHrefLeftover)
  }

  /**
   * The page is written only if every token passes on its own: every local stylesheet and
   * script is in the build output, and no tag left in place and no inlined file matches
   * either check.
   */
  lemma BuildOkOnlyIfTokensPass(doc: seq<Node>, dist: map<string, string>)
    ensures Build(doc, dist).Ok? ==> forall n :: n in DropModulePreloads(doc) ==> TokenPasses(n, dist)
    ensures Build(doc, dist).Ok? ==> forall n :: n in doc && !n.Markup? && !IsModulePreload(n) ==> TokenPasses(n, dist)
  {
    var d0 := DropModulePreloads(doc);
    PipelinePointwise(StylesheetPass(dist), ScriptPass(dist), d0);
    if Build(doc, dist).Ok? {
      var out := Inline(doc, dist).value;
      forall n | n in d0
        ensures TokenPasses(n, dist)
      {
        var i :| 0 <= i < |d0| && d0[i] == n;
        assert StylesheetPass(dist)(n) == InlineStylesheet(n, dist);
        assert ScriptPass(dist)(InlineStylesheet(n, dist).value) == InlineScriptFile(InlineStylesheet(n, dist).value, dist);
        assert out[i] == Inlined(n, dist).value;
        TokenLeftoverInPage(out, i, ScriptSrcLeftover);
        TokenLeftoverInPage(out, i, LinkHrefLeftover);
      }
    }
  }

  /** One token that does not pass is enough to stop the build. */
  lemma FailingTokenStopsBuild(doc: seq<Node>, dist: map<string, string>, n: Node)
    requires n in doc && !n.Markup? && !IsModulePreload(n)
    ensures !TokenPasses(n, dist) ==> Build(doc, dist).Err?
  {
    BuildOkOnlyIfTokensPass(doc, dist);
  }

  /**
   * A script with an external `src` or any other script or link that the checks catch,
   * and a local stylesheet or script whose file is missing, each stop the build.
   */
  lemma ExternalOrMissingStopsBuild(doc: seq<Node>, dist: map<string, string>, n: Node)
    requires n in doc
    ensures n.ScriptSrc? && IsExternalUrl(n.src) && Leaves(n.tag, ScriptSrcLeftover) ==> Build(doc, dist).Err?
    ensures n.ScriptOther? && Leaves(n.tag, ScriptSrcLeftover) ==> Build(doc, dist).Err?
    ensures IsLocalScript(n) && CleanDistPath(n.src) !in dist ==> Build(doc, dist).Err?
    ensures n.Link? && n.rel != ModulePreload && !IsLocalStylesheet(n) && Leaves(n.tag, LinkHrefLeftover) ==>
      Build(doc, dist).Err?
    ensures IsLocalStylesheet(n) && CleanDistPath(ExtractAttr(n.tag, "href").value) !in dist ==> Build(doc, dist).Err?
  {
    BuildOkOnlyIfTokensPass(doc, dist);
  }

  /** A local script whose file is present and free of closing tags is inlined verbatim. */
  lemma InlinedScriptVerbatim(n: Node, dist: map<string, string>)
    requires IsLocalScript(n) && CleanDistPath(n.src) in dist
    requires !ContainsIgnoringCase(dist[CleanDistPath(n.src)], "</script>")
    ensures Inlined(n, dist).Ok?
    ensures Render(Inlined(n, dist).value) ==
      "<script" + PreservedAttrs(n.beforeSrc, n.afterSrc) + ">\n" + dist[CleanDistPath(n.src)] + "\n</script>"
  {
    var js := dist[CleanDistPath(n.src)];
    assert EscapeInlineScriptText(js) == js;
    assert InlineStylesheet(n, dist) == Ok(n);
    assert Inlined(n, dist) == Ok(InlineScript(PreservedAttrs(n.beforeSrc, n.afterSrc), js));
  }

  /** A local style sheet whose file is present and free of closing tags is inlined verbatim. */
  lemma InlinedStylesheetVerbatim(n: Node, dist: map<string, string>)
    requires IsLocalStylesheet(n) && CleanDistPath(ExtractAttr(n.tag, "href").value) in dist
    requires !ContainsIgnoringCase(dist[CleanDistPath(ExtractAttr(n.tag, "href").value)], "</style>")
    ensures Inlined(n, dist).Ok?
    ensures Render(Inlined(n, dist).value) ==
      "<style>\n" + dist[CleanDistPath(ExtractAttr(n.tag, "href").value)] + "\n</style>"
  {
    var css := dist[CleanDistPath(ExtractAttr(n.tag, "href").value)];
    assert EscapeInlineStyleText(css) == css;
    assert InlineStylesheet(n, dist) == Ok(InlineStyle(css));
    assert Inlined(n, dist) == Ok(InlineStyle(css));
  }

  /** A local script whose file, free of closing tags, matches a check does not pass. */
  lemma InlinedScriptLeaves(n: Node, dist: map<string, string>, pattern: Leftover)
    ensures (&& IsLocalScript(n) && CleanDistPath(n.src) in dist
             && !ContainsIgnoringCase(dist[CleanDistPath(n.src)], "</script>")
             && Leaves(dist[CleanDistPath(n.src)], pattern)) ==> !TokenPasses(n, dist)
  {
    if && IsLocalScript(n) && CleanDistPath(n.src) in dist
       && !ContainsIgnoringCase(dist[CleanDistPath(n.src)], "</script>")
    {
      var js := dist[CleanDistPath(n.src)];
      InlinedScriptVerbatim(n, dist);
      var open, close := "<script" + PreservedAttrs(n.beforeSrc, n.afterSrc) + ">\n", "\n</script>";
      if Leaves(js, pattern) {
        HasLeftoverInContext(open, js, close, CheckedTag(pattern), CheckedAttr(pattern));
        if pattern == ScriptSrcLeftover {} else {}
      }
    }
  }

  /** A local stylesheet whose file, free of closing tags, matches a check does not pass. */
  lemma InlinedStylesheetLeaves(n: Node, dist: map<string, string>, pattern: Leftover)
    ensures (&& IsLocalStylesheet(n) && CleanDistPath(ExtractAttr(n.tag, "href").value) in dist
             && !ContainsIgnoringCase(dist[CleanDistPath(ExtractAttr(n.tag, "href").value)], "</style>")
             && Leaves(dist[CleanDistPath(ExtractAttr(n.tag, "href").value)], pattern)) ==> !TokenPasses(n, dist)
  {
    if && IsLocalStylesheet(n) && CleanDistPath(ExtractAttr(n.tag, "href").value) in dist
       && !ContainsIgnoringCase(dist[CleanDistPath(ExtractAttr(n.tag, "href").value)], "</style>")
    {
      var css := dist[CleanDistPath(ExtractAttr(n.tag, "href").value)];
      InlinedStylesheetVerbatim(n, dist);
      var open, close := "<style>\n", "\n</style>";
      if Leaves(css, pattern) {
        HasLeftoverInContext(open, css, close, CheckedTag(pattern), CheckedAttr(pattern));
        if pattern == ScriptSrcLeftover {} else {}
      }
    }
  }

  /**
   * The check runs over the inlined text too: a local script whose file mentions a
   * `<script src=...>` or `<link href=...>` tag, and a local stylesheet whose file mentions a
   * `<link href=...>` tag but no `<script src=...>` tag, stop the build once inlined.
   */
  lemma InlinedReferenceStopsBuild(doc: seq<Node>, dist: map<string, string>, n: Node, pattern: Leftover)
    requires n in doc
    ensures (&& IsLocalScript(n) && CleanDistPath(n.src) in dist
             && !ContainsIgnoringCase(dist[CleanDistPath(n.src)], "</script>")
             && Leaves(dist[CleanDistPath(n.src)], pattern)) ==> Build(doc, dist).Err?
    ensures (&& IsLocalStylesheet(n) && CleanDistPath(ExtractAttr(n.tag, "href").value) in dist
             && !ContainsIgnoringCase(dist[CleanDistPath(ExtractAttr(n.tag, "href").value)], "</style>")
             && Leaves(dist[CleanDistPath(ExtractAttr(n.tag, "href").value)], LinkHrefLeftover)
             && !Leaves(dist[CleanDistPath(ExtractAttr(n.tag, "href").value)], ScriptSrcLeftover)) ==> Build(doc, dist).Err?
  {
    InlinedScriptLeaves(n, dist, pattern);
    InlinedStylesheetLeaves(n, dist, LinkHrefLeftover);
    if IsLocalScript(n) || IsLocalStylesheet(n) {
      FailingTokenStopsBuild(doc, dist, n);
    }
  }

  /**
   * On success the written text is the rendered page, neither check's regular expression
   * matches anywhere in it, inlined files included, and no code inlined from the build
   * output holds `</script>` or `</style>` in any letter case.
   */
  lemma WrittenPageIsSelfContained(doc: seq<Node>, dist: map<string, string>)
    requires forall n :: n in doc ==> !n.InlineScript? && !n.InlineStyle?
    requires Build(doc, dist).Ok?
    ensures Inline(doc, dist).Ok? && Build(doc, dist).value == RenderAll(Inline(doc, dist).value)
    ensures !Leaves(Build(doc, dist).value, ScriptSrcLeftover) && !Leaves(Build(doc, dist).value, LinkHrefLeftover)
    ensures forall n :: n in Inline(doc, dist).value && n.InlineScript? ==> !ContainsIgnoringCase(n.js, "</script>")
    ensures forall n :: n in Inline(doc, dist).value && n.InlineStyle? ==> !ContainsIgnoringCase(n.css, "</style>")
  {
    InlinedPageIsEscaped(doc, dist);
  }

  /** No script element of an inlined page holds `</script>`, and no style element `</style>`, in any letter case. */
  lemma InlinedPageIsEscaped(doc: seq<Node>, dist: map<string, string>)
    requires forall n :: n in doc ==> !n.InlineScript? && !n.InlineStyle?
    requires Inline(doc, dist).Ok?
    ensures forall n :: n in Inline(doc, dist).value && n.InlineScript? ==> !ContainsIgnoringCase(n.js, "</script>")
    ensures forall n :: n in Inline(doc, dist).value && n.InlineStyle? ==> !ContainsIgnoringCase(n.css, "</style>")
  {
    var out := Inline(doc, dist).value;
    forall n | n in out
      ensures (n.InlineScript? ==> !ContainsIgnoringCase(n.js, "</script>"))
      ensures (n.InlineStyle? ==> !ContainsIgnoringCase(n.css, "</style>"))
    {
      var i :| 0 <= i < |out| && out[i] == n;
      InlinedTokenIsEscaped(doc, dist, i);
    }
  }

  lemma InlinedTokenIsEscaped(doc: seq<Node>, dist: map<string, string>, i: nat)
    requires forall n :: n in doc ==> !n.InlineScript? && !n.InlineStyle?
    requires Inline(doc, dist).Ok? && i < |Inline(doc, dist).value|
    ensures var o := Inline(doc, dist).value[i];
      (o.InlineScript? ==> !ContainsIgnoringCase(o.js, "</script>")) &&
      (o.InlineStyle? ==> !ContainsIgnoringCase(o.css, "</style>"))
  {
    var d0 := DropModulePreloads(doc);
    PipelinePointwise(StylesheetPass(dist), ScriptPass(dist), d0);
    var m := d0[i];
    assert m in d0;
    assert !m.InlineScript? && !m.InlineStyle?;
    InlinedCodeIsEscaped(m, dist);
  }

  /**
   * A match starts at a `<` followed by the first letter of the element name, the
   * character after the name is not a `>`, and the attribute and its quoted value fit.
   */
  lemma MatchShape(s: string, p: nat, pattern: Leftover)
    ensures LeftoverAt(s, p, CheckedTag(pattern), CheckedAttr(pattern)) ==>
      && p + |CheckedTag(pattern)| + |CheckedAttr(pattern)| + 6 < |s|
      && s[p] == '<' && AsciiLower(s[p + 1]) == CheckedTag(pattern)[0]
      && s[p + |CheckedTag(pattern)| + 1] != '>'
  {
    if LeftoverAt(s, p, CheckedTag(pattern), CheckedAttr(pattern)) {
      MatchOpening(s, p, pattern);
    }
  }

  lemma MatchOpening(s: string, p: nat, pattern: Leftover)
    requires LeftoverAt(s, p, CheckedTag(pattern), CheckedAttr(pattern))
    ensures p + |CheckedTag(pattern)| + |CheckedAttr(pattern)| + 6 < |s|
    ensures s[p] == '<' && AsciiLower(s[p + 1]) == CheckedTag(pattern)[0]
  {
    var tag, attr := CheckedTag(pattern), CheckedAttr(pattern);
    var w := "<" + tag;
    assert s[p..][..|w|][0] == s[p] && s[p..][..|w|][1] == s[p + 1];
    assert AsciiLower(s[p]) == AsciiLower(w[0]);
    assert AsciiLower(s[p + 1]) == AsciiLower(w[1]);
    AttrFromFits(s, p + |tag| + 2, attr);
  }

  /** A script element whose body sets an image's `src` property. */
  const SCRIPT_SETTING_SRC: string := "<script>img.src=\"a.png\"</script>"

  lemma OpensOnlyAtStart(p: nat)
    requires 0 < p < 18
    ensures SCRIPT_SETTING_SRC[p] != '<'
  {
    assert |SCRIPT_SETTING_SRC| == 32;
    if p < 6 {} else if p < 12 {} else {}
  }

  /** Neither check matches it: its only opening tag has no attributes. */
  lemma ScriptSettingSrcLeavesNothing(pattern: Leftover)
    ensures !Leaves(SCRIPT_SETTING_SRC, pattern)
  {
    var page := SCRIPT_SETTING_SRC;
    assert page[1] == 's' && page[7] == '>';
    forall p | 0 <= p < |page|
      ensures !LeftoverAt(page, p, CheckedTag(pattern), CheckedAttr(pattern))
    {
      MatchShape(page, p, pattern);
      if 0 < p < 18 {
        OpensOnlyAtStart(p);
      }
    }
  }

  /**
   * Only opening tags are searched, up to their first `>`: a script whose body sets a
   * `src` property is written out unchanged.
   */
  lemma ScriptBodyIsNotSearched()
    ensures Build([ScriptOther(SCRIPT_SETTING_SRC)], map[]) == Ok(SCRIPT_SETTING_SRC)
  {
    var n := ScriptOther(SCRIPT_SETTING_SRC);
    var dist: map<string, string> := map[];
    assert DropModulePreloads([n]) == [n];
    PipelinePointwise(StylesheetPass(dist), ScriptPass(dist), [n]);
    assert StylesheetPass(dist)(n) == Ok(n) && ScriptPass(dist)(n) == Ok(n);
    assert Inline([n], dist).Ok? && Inline([n], dist).value[0] == n;
    assert Inline([n], dist).value == [n];
    assert RenderAll([n]) == SCRIPT_SETTING_SRC;
    ScriptSettingSrcLeavesNothing(ScriptSrcLeftover);
    ScriptSettingSrcLeavesNothing(LinkHrefLeftover);
  }

  /** A script the build inlines holds no `</script>`, and a style sheet no `</style>`, in any letter case. */
  lemma InlinedCodeIsEscaped(m: Node, dist: map<string, string>)
    requires !m.InlineScript? && !m.InlineStyle?
    requires StylesheetPass(dist)(m).Ok? && ScriptPass(dist)(StylesheetPass(dist)(m).value).Ok?
    ensures var o := ScriptPass(dist)(StylesheetPass(dist)(m).value).value;
      (o.InlineScript? ==> !ContainsIgnoringCase(o.js, "</script>")) &&
      (o.InlineStyle? ==> !ContainsIgnoringCase(o.css, "</style>"))
  {
  }
}
