/**
 * The string helpers of the single-file build script: command-line lookup, the
 * external-URL test, the cleaning of a root-relative asset path, attribute extraction from
 * a tag, and the escaping that keeps inlined code from closing its own element early.
 * Each regular expression of the script is written out as the string function it
 * denotes.
 */
module SingleHtmlText {
  import opened Wrappers
  import opened Js

  /** `xs.indexOf(x)`: the first position of `x`, or -1. */
  function IndexOf(xs: seq<string>, x: string): (i: int)
    ensures -1 <= i < |xs|
    ensures i == -1 <==> x !in xs
    ensures 0 <= i ==> xs[i] == x && x !in xs[..i]
  {
    if xs == [] then -1
    else if xs[0] == x then 0
    else
      var j := IndexOf(xs[1..], x);
      assert xs == [xs[0]] + xs[1..];
      if j == -1 then -1
      else
        assert xs[..j + 1] == [xs[0]] + xs[1..][..j];
        j + 1
  }

  /**
   * `readArgValue(name)` over the argument vector: the argument right after the first
   * occurrence of `name`, or null when `name` is absent or is the last argument.
   */
  function ReadArgValue(argv: seq<string>, name: string): (r: Option<string>)
    ensures r.None? <==> name !in argv || IndexOf(argv, name) == |argv| - 1
    ensures r.Some? ==> exists i :: 0 <= i < |argv| - 1 && argv[i] == name && name !in argv[..i] && r.value == argv[i + 1]
  {
    var idx := IndexOf(argv, name);
    if idx == -1 then None
    else if idx + 1 < |argv| then Some(argv[idx + 1])
    else None
  }

  /** The input file: `readArgValue('--in') ?? 'index.html'`. */
  function InputFileName(argv: seq<string>): (name: string)
    ensures ReadArgValue(argv, "--in").None? ==> name == "index.html"
    ensures ReadArgValue(argv, "--in").Some? ==> name == ReadArgValue(argv, "--in").value
  {
    match ReadArgValue(argv, "--in")
    case Some(v) => v
    case None => "index.html"
  }

  /** The output file: `readArgValue('--out') ?? 'silent-scream.html'`. */
  function OutputFileName(argv: seq<string>): (name: string)
    ensures ReadArgValue(argv, "--out").None? ==> name == "silent-scream.html"
    ensures ReadArgValue(argv, "--out").Some? ==> name == ReadArgValue(argv, "--out").value
  {
    match ReadArgValue(argv, "--out")
    case Some(v) => v
    case None => "silent-scream.html"
  }

  /**
   * `/^https?:\/\//i.test(url)`, matched the way the pattern reads: "http" in any case,
   * an optional "s" in any case, then "://".
   */
  function IsExternalUrl(url: string): (r: bool)
    ensures r <==> StartsWithIgnoringAsciiCase(url, "http://") || StartsWithIgnoringAsciiCase(url, "https://")
  {
    if !StartsWithIgnoringAsciiCase(url, "http") then
      assert !StartsWithIgnoringAsciiCase(url, "http://") by {
        if StartsWithIgnoringAsciiCase(url, "http://") { PrefixIgnoringCase(url, "http", "://"); }
      }
      assert !StartsWithIgnoringAsciiCase(url, "https://") by {
        if StartsWithIgnoringAsciiCase(url, "https://") { PrefixIgnoringCase(url, "http", "s://"); }
      }
      false
    else
      var hasS := |url| > 4 && AsciiLower(url[4]) == 's';
      var rest := if hasS then url[5..] else url[4..];
      var r := |rest| >= 3 && rest[..3] == "://";
      assert r <==> StartsWithIgnoringAsciiCase(url, "http://") || StartsWithIgnoringAsciiCase(url, "https://") by {
        if hasS {
          assert !StartsWithIgnoringAsciiCase(url, "http://") by {
            if |url| >= 7 { assert AsciiLower(url[..7][4]) != AsciiLower("http://"[4]); }
          }
          if |rest| >= 3 { assert url[..8][5..] == rest[..3]; }
          if StartsWithIgnoringAsciiCase(url, "https://") {
            assert rest[..3] == url[..8][5..];
          }
        } else {
          assert !StartsWithIgnoringAsciiCase(url, "https://") by {
            if |url| >= 8 { assert AsciiLower(url[..8][4]) == AsciiLower(url[4]); }
          }
          if |rest| >= 3 { assert url[..7][4..] == rest[..3]; }
          if StartsWithIgnoringAsciiCase(url, "http://") {
            assert rest[..3] == url[..7][4..];
          }
        }
      }
      r
  }

  /** A prefix of a case-insensitive prefix is itself a case-insensitive prefix. */
  lemma PrefixIgnoringCase(s: string, p: string, q: string)
    requires StartsWithIgnoringAsciiCase(s, p + q)
    ensures StartsWithIgnoringAsciiCase(s, p)
  {
    assert forall i :: 0 <= i < |p| ==> s[..|p + q|][i] == s[..|p|][i] && (p + q)[i] == p[i];
  }

  predicate IsDotOrSlash(c: char)
  {
    c == '.' || c == '/'
  }

  /** `replace(/^[./]+/, '')`. */
  function StripLeadingDotsAndSlashes(s: string): (r: string)
    ensures |r| <= |s| && r == s[|s| - |r|..]
    ensures forall i :: 0 <= i < |s| - |r| ==> IsDotOrSlash(s[i])
    ensures r == "" || !IsDotOrSlash(r[0])
    ensures s == "" || !IsDotOrSlash(s[0]) ==> r == s
  {
    if s != "" && IsDotOrSlash(s[0]) then
      var r := StripLeadingDotsAndSlashes(s[1..]);
      assert s[1..][|s| - 1 - |r|..] == s[|s| - |r|..];
      assert forall i :: 1 <= i < |s| - |r| ==> s[i] == s[1..][i - 1];
      r
    else s
  }

  /** `replace(/^\/+/, '')`. */
  function StripLeadingSlashes(s: string): (r: string)
    ensures |r| <= |s| && r == s[|s| - |r|..]
    ensures forall i :: 0 <= i < |s| - |r| ==> s[i] == '/'
    ensures r == "" || r[0] != '/'
    ensures s == "" || s[0] != '/' ==> r == s
  {
    if s != "" && s[0] == '/' then
      var r := StripLeadingSlashes(s[1..]);
      assert s[1..][|s| - 1 - |r|..] == s[|s| - |r|..];
      assert forall i :: 1 <= i < |s| - |r| ==> s[i] == s[1..][i - 1];
      r
    else s
  }

  /**
   * The cleaning step of `resolveDistFile`: the whole leading run of '.' and '/' goes, the
   * rest of the path is kept as it is, and the second replacement never finds anything.
   */
  function CleanDistPath(urlPath: string): (r: string)
    ensures |r| <= |urlPath| && r == urlPath[|urlPath| - |r|..]
    ensures forall i :: 0 <= i < |urlPath| - |r| ==> IsDotOrSlash(urlPath[i])
    ensures r == "" || !IsDotOrSlash(r[0])
    ensures urlPath == "" || !IsDotOrSlash(urlPath[0]) ==> r == urlPath
    ensures r == StripLeadingDotsAndSlashes(urlPath)
  {
    var stripped := StripLeadingDotsAndSlashes(urlPath);
    assert stripped == "" || stripped[0] != '/';
    var r := StripLeadingSlashes(stripped);
    assert r == stripped;
    r
  }

  predicate IsQuote(c: char)
  {
    c == '"' || c == '\''
  }

  /** The end of the run of `\s` starting at `i`. */
  function SkipWhitespace(s: string, i: nat): (j: nat)
    requires i <= |s|
    ensures i <= j <= |s|
    ensures forall k :: i <= k < j ==> IsWhitespace(s[k])
    ensures j == |s| || !IsWhitespace(s[j])
    decreases |s| - i
  {
    if i < |s| && IsWhitespace(s[i]) then SkipWhitespace(s, i + 1) else i
  }

  /** The end of the run of `[^"']` starting at `i`. */
  function SkipNonQuotes(s: string, i: nat): (j: nat)
    requires i <= |s|
    ensures i <= j <= |s|
    ensures forall k :: i <= k < j ==> !IsQuote(s[k])
    ensures j == |s| || IsQuote(s[j])
    decreases |s| - i
  {
    if i < |s| && !IsQuote(s[i]) then SkipNonQuotes(s, i + 1) else i
  }

  /**
   * Whether `name\s*=\s*["']([^"']+)["']` (case-insensitively) matches at position `p`,
   * and the captured value if so. Each part is forced: white space cannot be '=' or a
   * quote, and the value run stops exactly at the first quote.
   */
  function AttrValueAt(tag: string, p: nat, name: string): (r: Option<string>)
    requires p <= |tag|
    ensures r.Some? ==> r.value != "" && forall i :: 0 <= i < |r.value| ==> !IsQuote(r.value[i])
  {
    if p + |name| <= |tag| && SameIgnoringAsciiCase(tag[p..p + |name|], name) then
      var eq := SkipWhitespace(tag, p + |name|);
      if eq < |tag| && tag[eq] == '=' then
        var open := SkipWhitespace(tag, eq + 1);
        if open < |tag| && IsQuote(tag[open]) then
          var close := SkipNonQuotes(tag, open + 1);
          if close > open + 1 && close < |tag| then
            assert IsQuote(tag[close]);
            Some(tag[open + 1..close])
          else None
        else None
      else None
    else None
  }

  /** The leftmost match at or after `p`. */
  function ExtractFrom(tag: string, name: string, p: nat): (r: Option<string>)
    requires p <= |tag|
    ensures r.Some? ==> r.value != "" && forall i :: 0 <= i < |r.value| ==> !IsQuote(r.value[i])
    decreases |tag| - p
  {
    var here := AttrValueAt(tag, p, name);
    if here.Some? then here
    else if p == |tag| then None
    else ExtractFrom(tag, name, p + 1)
  }

  /** The scan from `p` finds nothing exactly when nothing matches there, else the leftmost match. */
  lemma {:induction false} ExtractFromIsLeftmost(tag: string, name: string, p: nat)
    requires p <= |tag|
    ensures ExtractFrom(tag, name, p).None? <==> forall q :: p <= q <= |tag| ==> AttrValueAt(tag, q, name).None?
    ensures ExtractFrom(tag, name, p).Some? ==> exists q :: (p <= q <= |tag| && AttrValueAt(tag, q, name) == ExtractFrom(tag, name, p) &&
      forall q' :: p <= q' < q ==> AttrValueAt(tag, q', name).None?)
    decreases |tag| - p
  {
    var here := AttrValueAt(tag, p, name);
    if here.Some? {
      assert ExtractFrom(tag, name, p) == here;
    } else if p < |tag| {
      ExtractFromIsLeftmost(tag, name, p + 1);
      var r := ExtractFrom(tag, name, p + 1);
      assert ExtractFrom(tag, name, p) == r;
      if r.Some? {
        var q :| p + 1 <= q <= |tag| && AttrValueAt(tag, q, name) == r &&
          forall q' :: p + 1 <= q' < q ==> AttrValueAt(tag, q', name).None?;
        forall q' | p <= q' < q
          ensures AttrValueAt(tag, q', name).None?
        {
          if q' != p {
            assert p + 1 <= q';
          }
        }
      } else {
        forall q | p <= q <= |tag|
          ensures AttrValueAt(tag, q, name).None?
        {
          if q != p {
            assert p + 1 <= q;
          }
        }
      }
    }
  }

  /**
   * `extractAttr(tag, attrName)`: the quoted value of the leftmost match, or null. The
   * value is never empty and holds no quote.
   */
  function ExtractAttr(tag: string, attrName: string): (r: Option<string>)
    ensures r.Some? ==> r.value != "" && forall i :: 0 <= i < |r.value| ==> !IsQuote(r.value[i])
  {
    ExtractFrom(tag, attrName, 0)
  }

  /** `extractAttr` returns null exactly when the pattern matches nowhere, else the leftmost match. */
  lemma ExtractAttrIsLeftmostMatch(tag: string, attrName: string)
    ensures ExtractAttr(tag, attrName).None? <==> forall p :: 0 <= p <= |tag| ==> AttrValueAt(tag, p, attrName).None?
    ensures ExtractAttr(tag, attrName).Some? ==> exists p :: (0 <= p <= |tag| && AttrValueAt(tag, p, attrName) == ExtractAttr(tag, attrName) &&
      forall q :: 0 <= q < p ==> AttrValueAt(tag, q, attrName).None?)
  {
    ExtractFromIsLeftmost(tag, attrName, 0);
  }

  /** A lower-case HTML element name such as "script" or "style". */
  predicate IsTagName(name: string)
  {
    name != "" && forall i :: 0 <= i < |name| ==> 'a' <= name[i] <= 'z'
  }

  function CloseTag(name: string): string
  {
    "</" + name + ">"
  }

  /** What the escaping writes instead: `<\/name>`. */
  function EscapedCloseTag(name: string): string
  {
    "<\\/" + name + ">"
  }

  /** `w` occurs, in any letter case, at position `i` of `s`. */
  predicate MatchesAt(s: string, w: string, i: int)
  {
    0 <= i && i + |w| <= |s| && SameIgnoringAsciiCase(s[i..i + |w|], w)
  }

  predicate ContainsIgnoringCase(s: string, w: string)
  {
    exists i | 0 <= i <= |s| :: MatchesAt(s, w, i)
  }

  /**
   * `s.replace(/<\/name>/gi, '<\\/name>')`: scan from the left, rewrite each
   * case-insensitive occurrence of the closing tag and continue after it.
   */
  function EscapeCloseTags(s: string, name: string): string
    requires IsTagName(name)
    decreases |s|
  {
    if StartsWithIgnoringAsciiCase(s, CloseTag(name)) then
      EscapedCloseTag(name) + EscapeCloseTags(s[|CloseTag(name)|..], name)
    else if s == "" then ""
    else [s[0]] + EscapeCloseTags(s[1..], name)
  }

  /** `escapeInlineScriptText(js)`. */
  function EscapeInlineScriptText(js: string): (r: string)
    ensures !ContainsIgnoringCase(r, "</script>")
    ensures !ContainsIgnoringCase(js, "</script>") ==> r == js
  {
    assert CloseTag("script") == "</script>";
    EscapeRemovesCloseTags(js, "script");
    if !ContainsIgnoringCase(js, "</script>") then
      EscapeKeepsCleanText(js, "script");
      EscapeCloseTags(js, "script")
    else EscapeCloseTags(js, "script")
  }

  /** `escapeInlineStyleText(css)`. */
  function EscapeInlineStyleText(css: string): (r: string)
    ensures !ContainsIgnoringCase(r, "</style>")
    ensures !ContainsIgnoringCase(css, "</style>") ==> r == css
  {
    assert CloseTag("style") == "</style>";
    EscapeRemovesCloseTags(css, "style");
    if !ContainsIgnoringCase(css, "</style>") then
      EscapeKeepsCleanText(css, "style");
      EscapeCloseTags(css, "style")
    else EscapeCloseTags(css, "style")
  }

  /** `'<'` folds only to itself. */
  lemma LowerIsAngle(c: char)
    ensures AsciiLower(c) == '<' <==> c == '<'
  {
  }

  /** Both tag spellings have their only '<' in front. */
  lemma TagShapes(name: string)
    requires IsTagName(name)
    ensures |CloseTag(name)| == |name| + 3 && |EscapedCloseTag(name)| == |name| + 4
    ensures CloseTag(name)[0] == '<' && CloseTag(name)[1] == '/'
    ensures EscapedCloseTag(name)[1] == '\\'
    ensures forall i :: 1 <= i < |CloseTag(name)| ==> CloseTag(name)[i] != '<'
    ensures forall i :: 1 <= i < |EscapedCloseTag(name)| ==> EscapedCloseTag(name)[i] != '<'
  {
    var w := CloseTag(name);
    var r := EscapedCloseTag(name);
    forall i | 1 <= i < |w| ensures w[i] != '<' {
      if 2 <= i < |w| - 1 { assert w[i] == name[i - 2]; }
    }
    forall i | 1 <= i < |r| ensures r[i] != '<' {
      if 3 <= i < |r| - 1 { assert r[i] == name[i - 3]; }
    }
  }

  /** A match inside the right part of a concatenation is a match in that part. */
  lemma MatchInRightPart(a: string, b: string, w: string, i: int)
    requires i >= |a|
    ensures MatchesAt(a + b, w, i) ==> MatchesAt(b, w, i - |a|)
  {
    if i + |w| <= |a + b| {
      assert (a + b)[i..i + |w|] == b[i - |a|..i - |a| + |w|];
    }
  }

  /** Where the text starts with a closing tag, its escaping starts with '<'. */
  lemma EscapeFront(t: string, name: string)
    requires IsTagName(name)
    ensures StartsWithIgnoringAsciiCase(t, CloseTag(name)) ==>
      |EscapeCloseTags(t, name)| > 0 && EscapeCloseTags(t, name)[0] == '<'
  {
  }

  /**
   * Text that starts (case-insensitively) with `w`, a string without '<', after escaping
   * already started with `w` before: escaping only ever writes a '<' where it rewrites.
   */
  lemma {:induction false} EscapedPrefix(t: string, name: string, w: string)
    requires IsTagName(name)
    requires forall i :: 0 <= i < |w| ==> w[i] != '<'
    requires StartsWithIgnoringAsciiCase(EscapeCloseTags(t, name), w)
    ensures StartsWithIgnoringAsciiCase(t, w)
    decreases |w|
  {
    var e := EscapeCloseTags(t, name);
    if w != "" {
      EscapeFront(t, name);
      assert AsciiLower(e[0]) == AsciiLower(w[0]) by { assert e[..|w|][0] == e[0]; }
      LowerIsAngle(w[0]);
      LowerIsAngle(e[0]);
      assert !StartsWithIgnoringAsciiCase(t, CloseTag(name));
      {
        assert t != "";
        var tail := EscapeCloseTags(t[1..], name);
        assert e == [t[0]] + tail;
        assert AsciiLower(t[0]) == AsciiLower(w[0]) by { assert e[..|w|][0] == t[0]; }
        assert StartsWithIgnoringAsciiCase(tail, w[1..]) by {
          forall i | 0 <= i < |w| - 1
            ensures AsciiLower(tail[..|w| - 1][i]) == AsciiLower(w[1..][i])
          {
            assert tail[..|w| - 1][i] == e[..|w|][i + 1];
          }
        }
        EscapedPrefix(t[1..], name, w[1..]);
        forall i | 0 <= i < |w|
          ensures AsciiLower(t[..|w|][i]) == AsciiLower(w[i])
        {
          if i > 0 {
            assert t[..|w|][i] == t[1..][..|w| - 1][i - 1];
          }
        }
      }
    }
  }

  /** After escaping, no closing tag of that element is left, in any letter case. */
  lemma {:induction false} EscapeRemovesCloseTags(s: string, name: string)
    requires IsTagName(name)
    ensures !ContainsIgnoringCase(EscapeCloseTags(s, name), CloseTag(name))
    decreases |s|
  {
    var w := CloseTag(name);
    var e := EscapeCloseTags(s, name);
    var k := |w|;
    TagShapes(name);
    if StartsWithIgnoringAsciiCase(s, w) {
      var r := EscapedCloseTag(name);
      var tail := EscapeCloseTags(s[k..], name);
      EscapeRemovesCloseTags(s[k..], name);
      assert e == r + tail;
      forall i | 0 <= i <= |e|
        ensures !MatchesAt(e, w, i)
      {
        if i >= |r| {
          MatchInRightPart(r, tail, w, i);
        } else {
          assert e[i] == r[i];
          LowerIsAngle(r[i]);
          if i == 0 {
            assert e[1] == r[1];
          }
        }
      }
    } else if s != "" {
      var tail := EscapeCloseTags(s[1..], name);
      EscapeRemovesCloseTags(s[1..], name);
      assert e == [s[0]] + tail;
      forall i | 0 <= i <= |e|
        ensures !MatchesAt(e, w, i)
      {
        if i > 0 {
          MatchInRightPart([s[0]], tail, w, i);
        } else {
          FrontMatchWasThere(s[0], s[1..], name);
          assert [s[0]] + s[1..] == s;
        }
      }
    }
  }

  /**
   * A closing tag at the front of `c` followed by escaped text was already there before
   * the escaping: the character in front is kept and the rest could only match where the
   * text did.
   */
  lemma FrontMatchWasThere(c: char, t: string, name: string)
    requires IsTagName(name)
    ensures MatchesAt([c] + EscapeCloseTags(t, name), CloseTag(name), 0) ==>
      StartsWithIgnoringAsciiCase([c] + t, CloseTag(name))
  {
    var w := CloseTag(name);
    var k := |w|;
    var tail := EscapeCloseTags(t, name);
    var e := [c] + tail;
    TagShapes(name);
    if MatchesAt(e, w, 0) {
      LowerIsAngle(c);
      assert c == '<' by { assert e[0..k][0] == c; }
      var w' := w[1..];
      assert StartsWithIgnoringAsciiCase(tail, w') by {
        forall j | 0 <= j < k - 1
          ensures AsciiLower(tail[..k - 1][j]) == AsciiLower(w'[j])
        {
          assert tail[..k - 1][j] == e[0..k][j + 1];
        }
      }
      EscapedPrefix(t, name, w');
      var s := [c] + t;
      forall j | 0 <= j < k
        ensures AsciiLower(s[..k][j]) == AsciiLower(w[j])
      {
        if j > 0 {
          assert s[..k][j] == t[..k - 1][j - 1];
        }
      }
    }
  }

  /** Text without a closing tag comes through escaping unchanged. */
  lemma {:induction false} EscapeKeepsCleanText(s: string, name: string)
    requires IsTagName(name)
    requires !ContainsIgnoringCase(s, CloseTag(name))
    ensures EscapeCloseTags(s, name) == s
    decreases |s|
  {
    var w := CloseTag(name);
    if |w| <= |s| {
      assert s[0..0 + |w|] == s[..|w|];
    }
    assert !MatchesAt(s, w, 0);
    if s != "" {
      assert !ContainsIgnoringCase(s[1..], w) by {
        forall i | 0 <= i <= |s| - 1
          ensures !MatchesAt(s[1..], w, i)
        {
          if i + |w| <= |s| - 1 {
            assert s[1..][i..i + |w|] == s[i + 1..i + 1 + |w|];
          }
          assert !MatchesAt(s, w, i + 1);
        }
      }
      EscapeKeepsCleanText(s[1..], name);
      assert s == [s[0]] + s[1..];
    }
  }

  /**
   * The attributes an inlined script keeps: those before and after `src`, joined and
   * stripped of trailing white space only.
   */
  function PreservedAttrs(beforeSrc: string, afterSrc: string): (r: string)
    ensures |r| <= |beforeSrc + afterSrc| && r == (beforeSrc + afterSrc)[..|r|]
    ensures IsBlank((beforeSrc + afterSrc)[|r|..])
    ensures r == "" || !IsWhitespace(r[|r| - 1])
  {
    TrimEnd(beforeSrc + afterSrc)
  }
}
