# SilentScream: a model of the interactive core

SilentScream is a single-page site about sleep deprivation. Most of it is static markup.
The parts that decide something are modelled here:

- the breakable "iron house" surface, which the reader strikes until it breaks;
- the page gate, which locks scrolling while the surface is engaged and reveals the later
  sections once it breaks;
- the manifesto, with its typewriter reveal and its one-shot signature counter;
- the chat widget ("AI listener"), with its guarded send and append-only transcript;
- the serverless proxy that validates a chat message before forwarding it to the text
  generation service;
- the client mapping from the proxy's answer to the text shown in the chat;
- the build script that turns the built page into one self-contained HTML file.

Each React component is a `class` holding the component's state. Its event handlers are
methods whose `ensures` ties the new state to a pure step function on a value datatype
(`Model() == Strike(old(Model()))`). The properties are proved as lemmas about those step
functions and about runs over sequences of events (`Run`). Timers, `Date.now()`,
`localStorage`, environment variables, `fetch` and the upstream service become parameters
or explicit events.

The proxy handler, the client mapping and the build script are methods without state. Their
`ensures` state the result outright, or tie it to a reference function (`Build`,
`ExpectedReply`) whose properties are proved separately.

Shared modules:

- `Wrappers` holds `Option` and `Result`.
- `Js` holds the JavaScript semantics the sources rely on:
  - truthiness and property lookup;
  - the white-space set of `String.prototype.trim` and of `\s`;
  - `length` in UTF-16 code units;
  - ASCII case folding for the `i` regular-expression flag;
  - `Number.prototype.toString` on naturals.

Behaviour of the code worth knowing, which the model keeps:

- **The hit counter can pass 15.** `isBroken` is set only when the 500 ms timer fires.
  Strikes made while that timer is pending keep counting past the break threshold of 15
  (`IronHouseComponent.OnBreakCanRunTwice` reaches 16).
- **`onBreak` can run more than once.** The code schedules one timer, and so one `onBreak`
  call, for every strike at or past 15 made before the first timer fires
  (`IronHouseComponent.OnBreakCanRunTwice`).
- **There are no shards or particles.** The iron house only draws random cracks on a
  canvas.
- **`onEngage` is never called.** `App.tsx` passes it, but the component's props declare
  only `onBreak`. Engage and break are therefore modelled as independent operations.
- **The final check reads the whole written text.** Its two regular expressions run over
  the page after inlining, so a script file that mentions a `<script src="...">` or
  `<link href="...">` tag stops the build, and so does a style sheet file that mentions a
  `<link href="...">` tag but no `<script src="...">` tag. They look only inside
  opening tags, up to the first `>`, so a script body that assigns a `src` property does
  not.

## Model

| member | source | states |
|---|---|---|
| IronHouseComponent.DialogueIndex | components/IronHouse.tsx:91-94 | the dialogue stage after a strike is `min(floor(hits/3), 4)`: always a valid index into the five dialogues, the largest stage whose three-hit threshold has been reached |
| IronHouseComponent.DialogueIndexMonotone | components/IronHouse.tsx:91-94 | more hits never select an earlier dialogue stage |
| IronHouseComponent.ProgressPercent | components/IronHouse.tsx:184 | the progress fill lies in 0..100, is exactly 100 from 15 hits on, and below 15 is `hits/15*100` and under 100 |
| IronHouseComponent.Overlay | components/IronHouse.tsx:136-141 | the dialogue overlay is shown exactly while some hits were made and the surface is not broken, and the line shown is one of the five dialogues |
| IronHouseComponent.InitialInv | components/IronHouse.tsx:16-19 | the mounted surface (0 hits, stage -1, not broken, nothing pending) satisfies the surface invariant |
| IronHouseComponent.StrikeStep | components/IronHouse.tsx:58-94 | a strike on a broken surface changes nothing; otherwise it adds exactly one hit, sets the stage from the new hit count and keeps the invariant |
| IronHouseComponent.FireBreakStep | components/IronHouse.tsx:96-102 | a firing break timer sets `isBroken`, calls `onBreak` once when one was supplied, leaves the hit count alone and keeps the invariant |
| IronHouseComponent.RunKeepsInv | components/IronHouse.tsx:58-103 | every sequence of strikes and timer firings keeps the invariant: stage matches hits, a break is pending exactly for the strikes at or past 15 |
| IronHouseComponent.DialogueNeverDecreases | components/IronHouse.tsx:91-94 | the dialogue stage never goes back, whatever events follow |
| IronHouseComponent.BrokenIsFinal | components/IronHouse.tsx:58-101 | once broken, the surface stays broken and its hit count and stage are frozen |
| IronHouseComponent.ClicksBelowThreshold | components/IronHouse.tsx:96-97 | fewer than 15 strikes from mount schedule no break and leave the surface whole |
| IronHouseComponent.ClicksFrom | components/IronHouse.tsx:87-97 | strikes that stay below 15 add one hit each and schedule nothing |
| IronHouseComponent.FifteenClicksThenBreak | components/IronHouse.tsx:96-102 | the fifteenth strike schedules exactly one break; the surface is whole until it fires, and broken after it fires, with one `onBreak` call |
| IronHouseComponent.OnBreakCanRunTwice | components/IronHouse.tsx:96-102 | a sixteenth strike before the timer fires makes the count 16 and leads to two `onBreak` calls |
| IronHouseComponent.RunAppend | components/IronHouse.tsx:58-103 | running two event sequences one after the other is running their concatenation |
| IronHouseComponent.IronHouse.constructor | components/IronHouse.tsx:16-19 | the component mounts in the initial surface state |
| IronHouseComponent.IronHouse.HandleStrike | components/IronHouse.tsx:58-103 | the click handler updates the fields exactly as the strike step does |
| IronHouseComponent.IronHouse.FireBreakTimer | components/IronHouse.tsx:98-101 | the break timer's callback updates the fields exactly as the break step does |
| IronHouseComponent.IronHouse.Progress | components/IronHouse.tsx:180-185 | the drawn progress never exceeds 100 and is full from 15 hits on |
| Site.RenderedSections | App.tsx:36-70 | the always-visible sections come first, and each later section is rendered if and only if the page is awakened |
| Site.EngageThenBreak | App.tsx:19-27 | engaging locks the page only before awakening and is a no-op after; breaking always awakens the page and clears the lock |
| Site.AwakeIsFinal | App.tsx:19-27 | an awakened, unlocked page is unchanged by any later engage or break |
| Site.RunFromStart | App.tsx:13-27 | from a page not yet awakened, it is awakened iff a break was reported, and scroll-locked iff no break was reported and it was locked or an engage came |
| Site.NeverLockedAfterAwakening | App.tsx:17-32 | from the initial page, an awakened page is never scroll-locked |
| Site.App.constructor | App.tsx:13-14 | the page starts neither awakened nor locked |
| Site.App.HandleIronhouseEngage | App.tsx:19-22 | the engage callback updates the flags exactly as the engage step does |
| Site.App.HandleIronhouseBreak | App.tsx:24-27 | the break callback updates the flags exactly as the break step does |
| Site.App.ScrollLocked | App.tsx:17-32 | scrolling is locked exactly when the iron-house lock flag is set, and never once the reader is awake (the handlers keep awake pages unlocked) |
| Site.App.Sections | App.tsx:48-70 | each later section is rendered if and only if the page is awakened |
| ManifestoComponent.LineVisible | components/Manifesto.tsx:75-81 | no line shows before the first tick, and all eight show once the counter reaches eight |
| ManifestoComponent.LinesShownAfterTicks | components/Manifesto.tsx:75-81 | from no lines, after `n` ticks line `i` is visible exactly when `i < n`: the lines appear in order, one per tick |
| ManifestoComponent.SignStep | components/Manifesto.tsx:40-51 | signing when signed is a no-op; a first signing sets the flag, adds exactly one to the count, writes the storage flag and leaves the lines alone; signing twice is signing once |
| ManifestoComponent.LoadStep | components/Manifesto.tsx:31-38 | loading with the stored flag sets `hasSigned` and reveals all eight lines; loading never changes the count |
| ManifestoComponent.RunKeepsInv | components/Manifesto.tsx:16-51 | every sequence of ticks, loads and signings keeps at most eight lines, and a count at most one above the seed 14892 that is raised only together with the flag and the stored flag |
| ManifestoComponent.SignatureCountedOnce | components/Manifesto.tsx:40-51 | from mount, any number of signings raises the count by at most one above 14892, and at most eight lines show |
| ManifestoComponent.TypewriterReveal | components/Manifesto.tsx:21-28 | `n` ticks reveal `min(visible + n, 8)` lines and leave the count alone |
| ManifestoComponent.RevisitAfterSigning | components/Manifesto.tsx:31-45 | a later visit over the storage a signing wrote loads as signed and fully revealed, with the count back at its seed |
| ManifestoComponent.Manifesto.constructor | components/Manifesto.tsx:16-18 | the panel mounts with no lines, not signed, and the count at its seed |
| ManifestoComponent.Manifesto.LoadStoredFlag | components/Manifesto.tsx:31-38 | the storage effect updates the fields exactly as the load step does |
| ManifestoComponent.Manifesto.TypewriterTick | components/Manifesto.tsx:21-28 | one interval tick updates the fields exactly as the tick step does |
| ManifestoComponent.Manifesto.HandleSign | components/Manifesto.tsx:40-51 | the sign handler updates the fields exactly as the sign step does |
| AIListenerComponent.SendGuards | components/AIListener.tsx:28-30 | send does nothing when AI is disabled, the input is empty or white space only, or a reply is loading |
| AIListenerComponent.SendAppendsUserMessage | components/AIListener.tsx:32-41 | a send past the guards appends exactly one user message holding the untrimmed input, keeps the earlier messages, clears the box and starts loading |
| AIListenerComponent.EnterSends | components/AIListener.tsx:59-64 | Enter without Shift sends; Shift+Enter does nothing |
| AIListenerComponent.CompletionSteps | components/AIListener.tsx:44-56 | a reply to a pending send appends exactly one model message with the service's text and ends loading; a thrown error appends nothing and ends loading |
| AIListenerComponent.ReplyIdDiffersFromSendId | components/AIListener.tsx:33-46 | the reply's id `now + 1` never equals the id of the message it answers, provided the clock has not been set back between the send and the reply |
| AIListenerComponent.TranscriptAppendOnly | components/AIListener.tsx:39-51 | no sequence of events removes, changes or reorders a message: the old transcript is a prefix of the new one |
| AIListenerComponent.RunKeepsInv | components/AIListener.tsx:9-57 | every event sequence keeps the greeting first and a user message last while a reply is loading |
| AIListenerComponent.GreetingStaysFirst | components/AIListener.tsx:9-17 | from mount, the transcript always opens with the one model greeting with id `init`, and while loading it ends with the reader's message |
| AIListenerComponent.DisabledNeverSends | components/AIListener.tsx:28-30 | with AI disabled the widget's state never changes |
| AIListenerComponent.AIListener.constructor | components/AIListener.tsx:9-17 | the widget mounts with the greeting alone, an empty box and nothing loading |
| AIListenerComponent.AIListener.SetInput | components/AIListener.tsx:122-126 | typing updates the box exactly as the type step does |
| AIListenerComponent.AIListener.HandleSend | components/AIListener.tsx:28-43 | the synchronous part of `handleSend` updates the state as the send step does, and hands the service the input exactly when the guards pass |
| AIListenerComponent.AIListener.CompleteReply | components/AIListener.tsx:44-56 | the awaited reply updates the state exactly as the reply step does |
| AIListenerComponent.AIListener.FailReply | components/AIListener.tsx:52-56 | a thrown service call updates the state exactly as the failure step does |
| AIListenerComponent.AIListener.HandleKeyPress | components/AIListener.tsx:59-64 | a key press updates the state as the key step does, and hands the typed input to the reply service exactly when the key is Enter without Shift and the send guards pass |
| GeminiProxy.ApiKey | api/gemini.js:13-15 | an unset variable gives the empty key; a set one gives its value |
| GeminiProxy.ReadText | api/gemini.js:17-23 | the text read is empty, the body itself, or the body's `text` or `userVent` string field; a string body is read as itself |
| GeminiProxy.ReadTextPrefersText | api/gemini.js:17-23 | `text` wins when it is a string; `userVent` is read only when `text` is not a string; neither gives the empty text |
| GeminiProxy.ReadTextOfOtherBodies | api/gemini.js:17-23 | a body that is neither a string nor an object reads as the empty text |
| GeminiProxy.Handler | api/gemini.js:25-71 | GET answers 200 with whether a key is set; other non-POST methods answer 405 with `Allow: GET, POST`; POST answers 503 without a key, 400 for blank text, 413 above 4000 UTF-16 units; only a request past every guard reaches upstream, with the text read, and gets 200 with the reply (or empty text) or 502 when upstream throws |
| GeminiService.GenerateEmpathyResponse | services/geminiService.ts:1-23 | the shown text is never empty: a network error gives the connection message, 503 the not-configured notice, any other non-ok status the apology, and otherwise it is the answer's non-blank `text` or the apology |
| GeminiService.OkResponses | services/geminiService.ts:17-18 | an ok answer with non-blank string `text` is shown unchanged; an unparseable, null or text-less body gives the apology |
| GeminiService.RoundTrip | services/geminiService.ts:1-23 | posting a message through the proxy and mapping its answer gives exactly the reference decision table `ExpectedReply` |
| GeminiService.ShownReply | services/geminiService.ts:17-18 | a 200 answer carrying `text` shows that text unless it is blank, in which case it shows the apology |
| GeminiService.ExpectedReplyShape | services/geminiService.ts:9-22 | the shown reply is never empty, is a fixed notice when upstream throws, and is the generated text whenever every guard passes and the reply is not blank |
| SingleHtmlText.IndexOf | scripts/make-single-html.mjs:8 | `indexOf` is -1 exactly when the argument is absent, and otherwise the first position holding it |
| SingleHtmlText.ReadArgValue | scripts/make-single-html.mjs:7-11 | no value when the flag is absent or is the last argument; otherwise the argument right after the flag's first occurrence |
| SingleHtmlText.InputFileName | scripts/make-single-html.mjs:13 | the input page is `index.html` exactly when `--in` gives no value, and otherwise that value |
| SingleHtmlText.OutputFileName | scripts/make-single-html.mjs:14 | the output page is `silent-scream.html` exactly when `--out` gives no value, and otherwise that value |
| SingleHtmlText.IsExternalUrl | scripts/make-single-html.mjs:16-18 | a URL is external exactly when it starts with `http://` or `https://` in any letter case |
| SingleHtmlText.StripLeadingDotsAndSlashes | scripts/make-single-html.mjs:21 | the first replacement removes the whole leading run of `.` and `/`: the result is a suffix, starts with neither, and is the input when it starts with neither |
| SingleHtmlText.StripLeadingSlashes | scripts/make-single-html.mjs:21 | the second replacement removes the whole leading run of `/`: the result is a suffix, only slashes were removed, it does not start with `/`, and text not starting with `/` is left alone |
| SingleHtmlText.CleanDistPath | scripts/make-single-html.mjs:20-21 | the cleaned path is a suffix of the URL path, only dots and slashes were removed, it starts with neither, it is the path itself when that starts with neither, and the second replacement never changes anything |
| SingleHtmlText.SkipWhitespace | scripts/make-single-html.mjs:26 | `\s*` consumes the longest run of white space |
| SingleHtmlText.SkipNonQuotes | scripts/make-single-html.mjs:26 | `[^"']+` consumes the longest run of non-quote characters |
| SingleHtmlText.AttrValueAt | scripts/make-single-html.mjs:26 | a match of the attribute pattern at one position captures a non-empty value with no quote |
| SingleHtmlText.ExtractFromIsLeftmost | scripts/make-single-html.mjs:26-27 | the scan finds nothing exactly when no position from the start matches, and otherwise returns the capture at the leftmost match |
| SingleHtmlText.ExtractAttr | scripts/make-single-html.mjs:25-28 | an extracted value is non-empty and holds no `'` or `"` |
| SingleHtmlText.ExtractAttrIsLeftmostMatch | scripts/make-single-html.mjs:25-28 | `extractAttr` is null exactly when the pattern matches nowhere in the tag, and otherwise the capture of the leftmost match |
| SingleHtmlText.EscapeInlineScriptText | scripts/make-single-html.mjs:30-32 | the escaped script holds no `</script>` in any letter case, and a script without one is returned unchanged |
| SingleHtmlText.EscapeInlineStyleText | scripts/make-single-html.mjs:34-36 | the escaped style sheet holds no `</style>` in any letter case, and one without it is returned unchanged |
| SingleHtmlText.EscapedPrefix | scripts/make-single-html.mjs:30-36 | text the escaped output starts with, if it has no `<` after its first character, was already at the start of the input |
| SingleHtmlText.EscapeRemovesCloseTags | scripts/make-single-html.mjs:30-36 | replacing every closing tag of a lowercase name leaves none, in any letter case |
| SingleHtmlText.FrontMatchWasThere | scripts/make-single-html.mjs:30-36 | a closing tag at the front of the escaped output was already at the front of the input |
| SingleHtmlText.EscapeKeepsCleanText | scripts/make-single-html.mjs:30-36 | text without the closing tag is unchanged by the replacement |
| SingleHtmlText.PreservedAttrs | scripts/make-single-html.mjs:75 | the kept attributes are the before-`src` and after-`src` attributes concatenated with only trailing white space removed |
| LeftoverPattern.AttrFromIsSearch | scripts/make-single-html.mjs:86-87 | the scan for `[^>]*\battr=...` finds the attribute exactly when some later position with no `>` before it starts a match of the attribute part |
| LeftoverPattern.AttrFromFits | scripts/make-single-html.mjs:86-87 | an attribute the scan finds leaves room for `=`, a quoted value and a closing `>` |
| LeftoverPattern.FirstLeftoverFrom | scripts/make-single-html.mjs:85-91 | a position the scan returns is one at or after its start where the pattern matches |
| LeftoverPattern.FirstLeftoverFromIsLeftmost | scripts/make-single-html.mjs:85-91 | the scan finds nothing exactly when no position from its start matches, and otherwise stops at the leftmost match |
| LeftoverPattern.FirstLeftover | scripts/make-single-html.mjs:85-91 | `s.match(re)` for `<tag\b[^>]*\battr=["'][^"']+["'][^>]*>` with the `i` flag: nothing exactly when the pattern matches nowhere, and otherwise the leftmost match start |
| LeftoverPattern.QuotedValueInContext | scripts/make-single-html.mjs:86-87 | the quoted value and its closing `>` still match at the same place in any text containing them |
| LeftoverPattern.AttrInContext | scripts/make-single-html.mjs:86-87 | the `\battr=` part still matches at the same place in any text containing it |
| LeftoverPattern.AttrFromInContext | scripts/make-single-html.mjs:86-87 | the attribute scan still succeeds at the same place of any text containing the scanned text |
| LeftoverPattern.LeftoverInContext | scripts/make-single-html.mjs:86-87 | a match in a piece of text is a match at the same place of any text that contains the piece |
| LeftoverPattern.HasLeftoverInContext | scripts/make-single-html.mjs:86-91 | whatever text surrounds a text in which the pattern matches, it still matches |
| SingleHtml.TrimLeadingMarkup | scripts/make-single-html.mjs:40 | the `\s*` after a dropped preload trims only the start of the markup that follows, keeping every tag |
| SingleHtml.DropModulePreloads | scripts/make-single-html.mjs:40 | no module-preload link remains, and every other tag stays exactly when it was there |
| SingleHtml.MakeSingleHtml | scripts/make-single-html.mjs:38-99 | the script's top level writes exactly the text, or fails with exactly the error, that the reference `Build` gives; `Build`'s properties are the lemmas below. `Build` differs from the script for script elements inside inlined style sheets (see Left out) |
| SingleHtml.InlineAssets | scripts/make-single-html.mjs:40-83 | dropping preloads, then the stylesheet pass, then the script pass over the page's own tags give the reference `Inline` |
| SingleHtml.CheckLeftovers | scripts/make-single-html.mjs:85-97 | the leftover loop renders the inlined page, runs the script check and then the link check over that whole text, fails with the first check that matches and where its leftmost match starts, and otherwise returns the text |
| SingleHtml.RunPass | scripts/make-single-html.mjs:47-80 | one pass's loop gives the reference `MapPass`: each tag replaced in order, the first failed read ending the pass |
| SingleHtml.FindLeftover | scripts/make-single-html.mjs:91 | `html.match(re)`: the scan returns the leftmost position of the whole text where the check's regular expression matches, and nothing exactly when it matches nowhere |
| SingleHtml.MapPassStopsAtFailure | scripts/make-single-html.mjs:53-74 | a failed read in a prefix of the page is the failure of the whole pass |
| SingleHtml.MapPassPointwise | scripts/make-single-html.mjs:47-80 | a pass succeeds exactly when every tag's step succeeds, and then replaces each tag by its own result and keeps the length |
| SingleHtml.PipelinePointwise | scripts/make-single-html.mjs:42-83 | the two passes together succeed exactly when both succeed on every tag of the page, and then act tag by tag |
| SingleHtml.InlineStylesheet | scripts/make-single-html.mjs:47-55 | a stylesheet link is left alone exactly when it has no local `href`; one with a local `href` fails with its cleaned path exactly when that file is missing, and otherwise becomes a style element whose escaped text holds no `</style>` |
| SingleHtml.InlineScriptFile | scripts/make-single-html.mjs:66-80 | a script is left alone exactly when it has no local `src`; one with a local `src` fails with its cleaned path exactly when that file is missing, and otherwise becomes an inline script keeping the other attributes, whose escaped text holds no `</script>` |
| SingleHtml.RenderAllAppend | scripts/make-single-html.mjs:38-99 | the text of two token runs one after the other is the concatenation of their texts |
| SingleHtml.TokenInPage | scripts/make-single-html.mjs:38-99 | the written text holds each token's text between those of the tokens around it |
| SingleHtml.TokenLeftoverInPage | scripts/make-single-html.mjs:85-97 | a check that matches inside one token's text matches in the whole written text |
| SingleHtml.BuildOkOnlyIfTokensPass | scripts/make-single-html.mjs:38-97 | in the model, a written page has every local file present, and no tag left in place and no inlined file whose text matches a check |
| SingleHtml.InlinedScriptVerbatim | scripts/make-single-html.mjs:66-80 | a local script whose file is present and holds no `</script>` is written as `<script` + kept attributes + `>`, the file's text unchanged, and `</script>` |
| SingleHtml.InlinedStylesheetVerbatim | scripts/make-single-html.mjs:47-55 | a local style sheet whose file is present and holds no `</style>` is written as `<style>`, the file's text unchanged, and `</style>` |
| SingleHtml.InlinedScriptLeaves | scripts/make-single-html.mjs:66-97 | a local script whose file, free of `</script>`, matches a check does not pass on its own |
| SingleHtml.InlinedStylesheetLeaves | scripts/make-single-html.mjs:47-97 | a local style sheet whose file, free of `</style>`, matches a check does not pass on its own |
| SingleHtml.FailingTokenStopsBuild | scripts/make-single-html.mjs:38-97 | in the model, one tag that does not pass on its own is enough to stop the build |
| SingleHtml.InlinedReferenceStopsBuild | scripts/make-single-html.mjs:47-97 | a local script whose file mentions a tag the checks catch, and a local style sheet whose file mentions a `<link href>` tag but no `<script src>` tag, stop the build once inlined |
| SingleHtml.MatchShape | scripts/make-single-html.mjs:86-87 | a match starts at `<` and the element's first letter, the character after the name is not `>`, and the attribute with its quoted value fits after it |
| SingleHtml.ScriptSettingSrcLeavesNothing | scripts/make-single-html.mjs:86-87 | neither check matches `<script>img.src="a.png"</script>`: only opening tags are searched |
| SingleHtml.ScriptBodyIsNotSearched | scripts/make-single-html.mjs:85-99 | a page holding only a script whose body assigns a `src` property is written out unchanged |
| SingleHtml.ExternalOrMissingStopsBuild | scripts/make-single-html.mjs:47-97 | an external script or other script whose tag matches the script check, a link left in place whose tag matches the link check, and a local file missing from the build output each stop the build |
| SingleHtml.WrittenPageIsSelfContained | scripts/make-single-html.mjs:85-99 | a written text is the rendering of the inlined page, neither check's regular expression matches anywhere in it (inlined files included), and no inlined script holds `</script>`, nor style sheet `</style>`, in any letter case |
| SingleHtml.InlinedPageIsEscaped | scripts/make-single-html.mjs:47-83 | no script element of an inlined page holds `</script>`, and no style element `</style>`, in any letter case |
| SingleHtml.InlinedCodeIsEscaped | scripts/make-single-html.mjs:53-78 | a script the build inlines holds no `</script>`, and a style sheet no `</style>`, in any letter case |

## Left out

- The canvas crack drawing, the shake and vibration effects and console logging in the iron house are cosmetic. They use floating point, `Math.random` and browser APIs.
- The other components are static presentation: the share card, hero, timeline, data charts, footer and guestbook, together with all text outside the modelled constants.
- The database client and the bundler configuration are not part of this model.
- The system instruction, model name and generation parameters of the upstream call are left out. The call is one abstract outcome: a reply, possibly without text, or a thrown error.
- The 500 ms break timer and the 800 ms typewriter interval are explicit events (`TimerFires`, `Ticked`). Real time is not modelled, and neither is the interval's clean-up on unmount.
- `Date.now()` is a parameter of each event that reads it. Two reads within one handler are the same instant.
- JavaScript values have no `NaN`, fractional numbers or prototype properties. Property lookup sees only own keys.
- Reading the page and writing the output file are not modelled. The build takes the page as input and returns the text it would write.
- `path.resolve` is not modelled: the build output directory is a map keyed by the cleaned relative path, and a `MissingFile` error carries that cleaned path.
- The page is a sequence of tokens, namely the tags the build script's regular expressions pick out and the markup between them. The HTML tokenizer that splits it is not modelled: `Markup` is assumed to hold no `<link>` or `<script>` tag.
- `result.replace(tag, ...)` replaces the first occurrence of the tag's text in the page as rewritten so far. That may be an earlier identical tag, or the same text inside a file inlined earlier. The model replaces each matched token in place.
- SingleHtmlText.ExtractAttr: the attribute name is matched literally rather than compiled into a regular expression. The build only passes `href` and `src`, which contain no pattern characters.
- SingleHtml.Finish: the thrown message, which quotes the pattern and the matched text, is not modelled. The error carries the check that fired and where its leftmost match starts.
- SingleHtml.BuildOkOnlyIfTokensPass: only the direction "written implies every token passes" is stated. A page whose every token passes on its own can still be refused, when a match starts in one token and ends in a later one (for instance a quoted value opened at the end of an inlined file and closed in later markup).
- SingleHtml.InlinedReferenceStopsBuild: stated only for files without their element's closing tag. For the others the escaping rewrites the text before the check reads it. For style sheets it is stated only for a `<link href>` mention in a file that mentions no `<script src>` tag, because the script's own script pass inlines a `<script src></script>` element found inside an inlined style sheet.
- SingleHtml.MakeSingleHtml: the script pass of the script runs over the page after the style sheets are inlined, so a local `<script src="..."></script>` element inside an inlined style sheet file is inlined too, and the page may be written. The model's script pass sees only the page's own tags, so `Build` refuses such a page, because the element is still in the text the check reads.
- SingleHtml.InlineAssets: the script pass sees only the page's own tags, not script elements inside inlined style sheets; see the MakeSingleHtml line.
- SingleHtml.PipelinePointwise: the two passes act tag by tag on the page's own tags only. The script's script pass can also act on text brought in by the first pass, which the model does not capture.
- SingleHtml.BuildOkOnlyIfTokensPass: for the same reason, the script can write a page holding an inlined style sheet whose file text matches the script check (it held a local script element the script pass inlined); in the model that style sheet does not pass and the page is refused.
- SingleHtml.FailingTokenStopsBuild: a statement about the model. In the script, a style sheet whose file holds a local script element does not stop the build once the script pass has inlined that element.
- SingleHtmlText.EscapeInlineScriptText: only the exact spelling `</script>` (any letter case) is escaped, as in the script; an HTML parser also ends the element at `</script >`, `</script/>` or `</script` followed by a line break, which stay in the inlined text. The same holds for `</style>` and SingleHtmlText.EscapeInlineStyleText, and for the contracts of SingleHtml.InlinedCodeIsEscaped, SingleHtml.InlinedPageIsEscaped and SingleHtml.WrittenPageIsSelfContained.
- IronHouseComponent.ProgressPercent: computed over exact rationals, not IEEE doubles, so rounding in `(hits / 15) * 100` is not modelled.
- AIListenerComponent.AIListener.FailReply: the reply service used by the widget never throws, since it catches every error itself (`GeminiService.GenerateEmpathyResponse` is total). So this path is unreachable when the two are composed. It is kept because the widget handles it.
