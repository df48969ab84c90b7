/**
 * The two regular expressions the build's final check runs over the whole written page,
 * `/<script\b[^>]*\bsrc=["'][^"']+["'][^>]*>/i` and `/<link\b[^>]*\bhref=["'][^"']+["'][^>]*>/i`,
 * written out as predicates on a string: one match start at a time, then the leftmost
 * match. Both have the shape `<tag\b[^>]*\battr=["'][^"']+["'][^>]*>`, so they are one
 * predicate with the element name and the attribute name as parameters.
 */
module LeftoverPattern {
  import opened Wrappers
  import opened Js
  import opened SingleHtmlText

  /** `\w`: the characters a `\b` boundary separates from the others. */
  predicate IsWordChar(c: char)
  {
    'a' <= c <= 'z' || 'A' <= c <= 'Z' || '0' <= c <= '9' || c == '_'
  }

  /** `[^>]*>` after position `k`: some `>` follows. */
  predicate CloseAfter(s: string, k: nat)
  {
    exists g | k < g < |s| :: s[g] == '>'
  }

  /**
   * `["'][^"']+["'][^>]*>` at `v`: an opening quote, at least one character that is not a
   * quote, and a later quote with a `>` after it. The run `[^"']+` ends at the first quote
   * after `v`; a `>` after any later quote is also after that first one.
   */
  predicate QuotedValueThenClose(s: string, v: nat)
  {
    && v + 1 < |s|
    && IsQuote(s[v])
    && !IsQuote(s[v + 1])
    && exists k | v + 1 < k < |s| :: IsQuote(s[k]) && CloseAfter(s, k)
  }

  /** `\battr=["'][^"']+["'][^>]*>` at `j`. */
  predicate AttrAt(s: string, j: nat, attr: string)
  {
    && 0 < j
    && j + |attr| < |s|
    && !IsWordChar(s[j - 1])
    && SameIgnoringAsciiCase(s[j..j + |attr|], attr)
    && s[j + |attr|] == '='
    && QuotedValueThenClose(s, j + |attr| + 1)
  }

  /** `[^>]*` from `m` up to `j`. */
  predicate NoCloseBetween(s: string, m: nat, j: nat)
    requires m <= j <= |s|
  {
    forall i | m <= i < j :: s[i] != '>'
  }

  /**
   * `[^>]*\battr=["'][^"']+["'][^>]*>` once `[^>]*` has reached `j - 1`: the character
   * before `j` is not a `>`, and the attribute either starts at `j` or further on.
   */
  predicate AttrFrom(s: string, j: nat, attr: string)
    decreases |s| - j
  {
    && 0 < j < |s|
    && s[j - 1] != '>'
    && (AttrAt(s, j, attr) || AttrFrom(s, j + 1, attr))
  }

  /** The scan finds the attribute exactly at the positions the regular expression allows. */
  lemma {:induction false} AttrFromIsSearch(s: string, m: nat, j: nat, attr: string)
    requires m < j <= |s| && NoCloseBetween(s, m, j - 1)
    ensures AttrFrom(s, j, attr) <==> exists k | j <= k < |s| :: NoCloseBetween(s, m, k) && AttrAt(s, k, attr)
    decreases |s| - j
  {
    if j < |s| && s[j - 1] != '>' {
      AttrFromIsSearch(s, m, j + 1, attr);
      assert NoCloseBetween(s, m, j);
    } else if j < |s| {
      forall k | j <= k < |s|
        ensures !NoCloseBetween(s, m, k)
      {
        assert m <= j - 1 < k;
      }
    }
  }

  /** An attribute the scan finds leaves room for its `=`, a quoted value and the closing `>`. */
  lemma {:induction false} AttrFromFits(s: string, j: nat, attr: string)
    ensures AttrFrom(s, j, attr) ==> j + |attr| + 4 < |s|
    decreases |s| - j
  {
    if AttrFrom(s, j, attr) {
      if AttrAt(s, j, attr) {
        var v := j + |attr| + 1;
        var k :| v + 1 < k < |s| && IsQuote(s[k]) && CloseAfter(s, k);
      } else {
        AttrFromFits(s, j + 1, attr);
      }
    }
  }

  /**
   * `/<tag\b[^>]*\battr=["'][^"']+["'][^>]*>/i` matches starting at `p`: the attribute
   * sits inside the opening tag, before its first `>`, after a character that ends the
   * element name.
   */
  predicate LeftoverAt(s: string, p: nat, tag: string, attr: string)
  {
    var m := p + |tag| + 1;
    && m < |s|
    && StartsWithIgnoringAsciiCase(s[p..], "<" + tag)
    && !IsWordChar(s[m])
    && AttrFrom(s, m + 1, attr)
  }

  /** `re.test(s)`: the pattern matches somewhere in `s`. */
  predicate HasLeftover(s: string, tag: string, attr: string)
  {
    exists p | 0 <= p < |s| :: LeftoverAt(s, p, tag, attr)
  }

  /** The scan for the leftmost match at or after `from`: a position where the pattern matches, if it finds one. */
  function FirstLeftoverFrom(s: string, tag: string, attr: string, from: nat): (r: Option<nat>)
    requires from <= |s|
    ensures r.Some? ==> from <= r.value < |s| && LeftoverAt(s, r.value, tag, attr)
    decreases |s| - from
  {
    if from == |s| then None
    else if LeftoverAt(s, from, tag, attr) then Some(from)
    else FirstLeftoverFrom(s, tag, attr, from + 1)
  }

  /** The scan finds nothing exactly when nothing matches from `from` on, and otherwise stops at the leftmost match. */
  lemma {:induction false} FirstLeftoverFromIsLeftmost(s: string, tag: string, attr: string, from: nat)
    requires from <= |s|
    ensures FirstLeftoverFrom(s, tag, attr, from).None? <==> forall p :: from <= p < |s| ==> !LeftoverAt(s, p, tag, attr)
    ensures FirstLeftoverFrom(s, tag, attr, from).Some? ==>
      forall p :: from <= p < FirstLeftoverFrom(s, tag, attr, from).value ==> !LeftoverAt(s, p, tag, attr)
    decreases |s| - from
  {
    if from < |s| && !LeftoverAt(s, from, tag, attr) {
      FirstLeftoverFromIsLeftmost(s, tag, attr, from + 1);
      var r := FirstLeftoverFrom(s, tag, attr, from + 1);
      assert FirstLeftoverFrom(s, tag, attr, from) == r;
      forall p | from <= p < (if r.Some? then r.value else |s|)
        ensures !LeftoverAt(s, p, tag, attr)
      {
        if p == from {
        } else {
          assert from + 1 <= p;
        }
      }
    }
  }

  /** The start of `s.match(re)`: the leftmost match, None exactly when there is none. */
  function FirstLeftover(s: string, tag: string, attr: string): (r: Option<nat>)
    ensures r.None? <==> !HasLeftover(s, tag, attr)
    ensures r.Some? ==> r.value < |s| && LeftoverAt(s, r.value, tag, attr)
    ensures r.Some? ==> forall p :: 0 <= p < r.value ==> !LeftoverAt(s, p, tag, attr)
  {
    FirstLeftoverFromIsLeftmost(s, tag, attr, 0);
    FirstLeftoverFrom(s, tag, attr, 0)
  }

  /** `t` occurs in `s` at offset `o`. */
  predicate OccursAt(s: string, t: string, o: nat)
  {
    o + |t| <= |s| && s[o..o + |t|] == t
  }

  lemma CharsOfOccurrence(s: string, t: string, o: nat)
    requires OccursAt(s, t, o)
    ensures forall i :: 0 <= i < |t| ==> s[o + i] == t[i]
  {
    forall i | 0 <= i < |t|
      ensures s[o + i] == t[i]
    {
      assert s[o..o + |t|][i] == s[o + i];
    }
  }

  /** The quoted value and the closing `>` are found at the same place in a longer text. */
  lemma QuotedValueInContext(s: string, t: string, o: nat, v: nat)
    requires OccursAt(s, t, o) && QuotedValueThenClose(t, v)
    ensures QuotedValueThenClose(s, o + v)
  {
    CharsOfOccurrence(s, t, o);
    var k :| v + 1 < k < |t| && IsQuote(t[k]) && CloseAfter(t, k);
    var g :| k < g < |t| && t[g] == '>';
    assert s[o + g] == '>';
    assert CloseAfter(s, o + k);
    assert IsQuote(s[o + k]);
  }

  /** A match of the attribute part inside `t` is one inside any text containing `t`. */
  lemma AttrInContext(s: string, t: string, o: nat, j: nat, attr: string)
    requires OccursAt(s, t, o) && AttrAt(t, j, attr)
    ensures AttrAt(s, o + j, attr)
  {
    CharsOfOccurrence(s, t, o);
    var inS, inT := s[o + j..o + j + |attr|], t[j..j + |attr|];
    forall i | 0 <= i < |attr|
      ensures inS[i] == inT[i]
    {
      assert inS[i] == s[o + (j + i)];
    }
    assert inS == inT;
    assert s[o + (j - 1)] == t[j - 1];
    assert s[o + (j + |attr|)] == t[j + |attr|];
    QuotedValueInContext(s, t, o, j + |attr| + 1);
  }

  /** `<tag` in any letter case still starts at the same place of any text containing it. */
  lemma OpeningInContext(s: string, t: string, o: nat, p: nat, w: string)
    requires OccursAt(s, t, o) && p <= |t| && StartsWithIgnoringAsciiCase(t[p..], w)
    ensures StartsWithIgnoringAsciiCase(s[o + p..], w)
  {
    CharsOfOccurrence(s, t, o);
    var headS, headT := s[o + p..][..|w|], t[p..][..|w|];
    forall i | 0 <= i < |w|
      ensures headS[i] == headT[i]
    {
      assert headS[i] == s[o + (p + i)];
    }
    assert headS == headT;
  }

  /** The attribute scan finds the same attribute at the same place of any text containing `t`. */
  lemma {:induction false} AttrFromInContext(s: string, t: string, o: nat, j: nat, attr: string)
    requires OccursAt(s, t, o) && AttrFrom(t, j, attr)
    ensures AttrFrom(s, o + j, attr)
    decreases |t| - j
  {
    CharsOfOccurrence(s, t, o);
    assert s[o + (j - 1)] == t[j - 1];
    if AttrAt(t, j, attr) {
      AttrInContext(s, t, o, j, attr);
    } else {
      AttrFromInContext(s, t, o, j + 1, attr);
    }
  }

  /**
   * The pattern looks only at the text it matches and the `>` after it: a match at `p`
   * of a piece of the page is a match at the same place of the whole page.
   */
  lemma LeftoverInContext(s: string, t: string, o: nat, p: nat, tag: string, attr: string)
    requires OccursAt(s, t, o) && LeftoverAt(t, p, tag, attr)
    ensures LeftoverAt(s, o + p, tag, attr)
  {
    var m := p + |tag| + 1;
    AttrFromInContext(s, t, o, m + 1, attr);
    OpeningInContext(s, t, o, p, "<" + tag);
    assert s[o + m] == t[m] by {
      CharsOfOccurrence(s, t, o);
    }
  }

  /** Whatever surrounds a text in which the pattern matches, it still matches. */
  lemma HasLeftoverInContext(a: string, t: string, b: string, tag: string, attr: string)
    requires HasLeftover(t, tag, attr)
    ensures HasLeftover(a + t + b, tag, attr)
  {
    var p :| 0 <= p < |t| && LeftoverAt(t, p, tag, attr);
    assert (a + t + b)[|a|..|a| + |t|] == t;
    LeftoverInContext(a + t + b, t, |a|, p, tag, attr);
  }
}
