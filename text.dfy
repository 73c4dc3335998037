/**
 * String helpers shared by the server and the page scripts: the two notions
 * of "whitespace" (Python's `str.strip()` and JavaScript's `String.trim()`),
 * trimming parameterised by one of them, and a prefix test.
 */
module Text {

  /** What Python's `str.isspace()` accepts, so what `str.strip()` with no
      argument removes: tab to carriage return, the four information
      separators U+001C..U+001F, space, NEL, no-break space and the Unicode
      space separators and line/paragraph separators. */
  predicate PyIsSpace(c: char) {
    || c == ' '
    || '\t' <= c <= '\r'
    || '\U{1C}' <= c <= '\U{1F}'
    || c == '\U{85}'
    || c == '\U{A0}'
    || c == '\U{1680}'
    || '\U{2000}' <= c <= '\U{200A}'
    || c == '\U{2028}' || c == '\U{2029}'
    || c == '\U{202F}' || c == '\U{205F}' || c == '\U{3000}'
  }

  /** ECMAScript WhiteSpace and LineTerminator, what `String.prototype.trim`
      removes. Unlike Python it strips the byte order mark U+FEFF and keeps
      U+001C..U+001F and NEL. */
  predicate JsIsSpace(c: char) {
    || c == ' '
    || '\t' <= c <= '\r'
    || c == '\U{A0}'
    || c == '\U{FEFF}'
    || c == '\U{1680}'
    || '\U{2000}' <= c <= '\U{200A}'
    || c == '\U{2028}' || c == '\U{2029}'
    || c == '\U{202F}' || c == '\U{205F}' || c == '\U{3000}'
  }

  /** True when every character of `s` is a space in the sense of `isSpace`. */
  predicate AllSpace(s: string, isSpace: char -> bool) {
    forall i :: 0 <= i < |s| ==> isSpace(s[i])
  }

  /** The number of spaces `s` starts with. */
  function Leading(s: string, isSpace: char -> bool): (n: nat)
    ensures n <= |s| && (n < |s| ==> !isSpace(s[n]))
  {
    if s != [] && isSpace(s[0]) then
      var m := Leading(s[1..], isSpace);
      assert m < |s| - 1 ==> s[1..][m] == s[m + 1];
      1 + m
    else 0
  }

  /** The number of spaces `s` ends with. */
  function Trailing(s: string, isSpace: char -> bool): (n: nat)
    ensures n <= |s| && (n < |s| ==> !isSpace(s[|s| - 1 - n]))
  {
    if s != [] && isSpace(s[|s| - 1]) then
      var m := Trailing(s[..|s| - 1], isSpace);
      assert m < |s| - 1 ==> s[..|s| - 1][|s| - 2 - m] == s[|s| - 2 - m];
      1 + m
    else 0
  }

  /** Every character Leading counts is a space. */
  lemma {:induction false} LeadingAreSpaces(s: string, isSpace: char -> bool)
    ensures forall i :: 0 <= i < Leading(s, isSpace) ==> isSpace(s[i])
    decreases |s|
  {
    if s != [] && isSpace(s[0]) {
      LeadingAreSpaces(s[1..], isSpace);
      forall i | 1 <= i < Leading(s, isSpace) ensures isSpace(s[i]) {
        assert s[i] == s[1..][i - 1];
      }
    }
  }

  /** Every character Trailing counts is a space. */
  lemma {:induction false} TrailingAreSpaces(s: string, isSpace: char -> bool)
    ensures forall i :: |s| - Trailing(s, isSpace) <= i < |s| ==> isSpace(s[i])
    decreases |s|
  {
    if s != [] && isSpace(s[|s| - 1]) {
      TrailingAreSpaces(s[..|s| - 1], isSpace);
      forall i | |s| - Trailing(s, isSpace) <= i < |s| - 1 ensures isSpace(s[i]) {
        assert s[i] == s[..|s| - 1][i];
      }
    }
  }

  /** When `s` is not all spaces, its trailing spaces stop after its leading
      ones. */
  lemma TrailingAfterLeading(s: string, isSpace: char -> bool)
    requires Leading(s, isSpace) < |s|
    ensures Leading(s, isSpace) + Trailing(s, isSpace) < |s|
  {
    TrailingAreSpaces(s, isSpace);
  }

  /** `s` without its leading and trailing spaces: "" when `s` is all spaces,
      and otherwise the part between its leading and its trailing spaces,
      which starts and ends with a non-space. */
  function Trim(s: string, isSpace: char -> bool): (r: string)
    ensures r == [] <==> Leading(s, isSpace) == |s|
    ensures r != [] ==>
      && Leading(s, isSpace) + |r| + Trailing(s, isSpace) == |s|
      && r == s[Leading(s, isSpace)..|s| - Trailing(s, isSpace)]
      && !isSpace(r[0]) && !isSpace(r[|r| - 1])
  {
    var a := Leading(s, isSpace);
    if a == |s| then []
    else
      TrailingAfterLeading(s, isSpace);
      s[a..|s| - Trailing(s, isSpace)]
  }

  /** Trimming leaves "" exactly when `s` is all spaces, and everything it
      drops, before and after what it keeps, is space. */
  lemma TrimDropsOnlySpace(s: string, isSpace: char -> bool)
    ensures Trim(s, isSpace) == [] <==> AllSpace(s, isSpace)
    ensures Trim(s, isSpace) != [] ==>
      && (forall k :: 0 <= k < Leading(s, isSpace) ==> isSpace(s[k]))
      && (forall k :: |s| - Trailing(s, isSpace) <= k < |s| ==> isSpace(s[k]))
  {
    LeadingAreSpaces(s, isSpace);
    TrailingAreSpaces(s, isSpace);
  }

  /** Python `str.strip()` with no argument. */
  function PyStrip(s: string): (r: string)
    ensures r == [] <==> forall i :: 0 <= i < |s| ==> PyIsSpace(s[i])
    ensures r != [] ==> !PyIsSpace(r[0]) && !PyIsSpace(r[|r| - 1])
  {
    TrimDropsOnlySpace(s, PyIsSpace);
    Trim(s, PyIsSpace)
  }

  /** JavaScript `String.prototype.trim()`. */
  function JsTrim(s: string): (r: string)
    ensures r == [] <==> forall i :: 0 <= i < |s| ==> JsIsSpace(s[i])
    ensures r != [] ==> !JsIsSpace(r[0]) && !JsIsSpace(r[|r| - 1])
  {
    TrimDropsOnlySpace(s, JsIsSpace);
    Trim(s, JsIsSpace)
  }

  /** Python `str.startswith` / JavaScript `String.startsWith`. */
  predicate StartsWith(s: string, prefix: string) {
    prefix <= s
  }

  /** Spaces in front add to the leading count. */
  lemma {:induction false} LeadingAfterSpaces(pre: string, s: string, isSpace: char -> bool)
    requires AllSpace(pre, isSpace)
    ensures Leading(pre + s, isSpace) == |pre| + Leading(s, isSpace)
    decreases |pre|
  {
    if pre == [] {
      assert pre + s == s;
    } else {
      assert (pre + s)[0] == pre[0];
      assert (pre + s)[1..] == pre[1..] + s;
      LeadingAfterSpaces(pre[1..], s, isSpace);
    }
  }

  /** Text after a non-space does not change the leading count. */
  lemma {:induction false} LeadingBeforeText(s: string, post: string, isSpace: char -> bool)
    requires Leading(s, isSpace) < |s|
    ensures Leading(s + post, isSpace) == Leading(s, isSpace)
    decreases |s|
  {
    assert (s + post)[0] == s[0];
    if isSpace(s[0]) {
      assert (s + post)[1..] == s[1..] + post;
      LeadingBeforeText(s[1..], post, isSpace);
    }
  }

  /** Spaces behind add to the trailing count. */
  lemma {:induction false} TrailingBeforeSpaces(s: string, post: string, isSpace: char -> bool)
    requires AllSpace(post, isSpace)
    ensures Trailing(s + post, isSpace) == Trailing(s, isSpace) + |post|
    decreases |post|
  {
    if post == [] {
      assert s + post == s;
    } else {
      var p := post[..|post| - 1];
      assert (s + post)[|s + post| - 1] == post[|post| - 1];
      assert (s + post)[..|s + post| - 1] == s + p;
      TrailingBeforeSpaces(s, p, isSpace);
    }
  }

  /** Text before a non-space does not change the trailing count. */
  lemma {:induction false} TrailingAfterText(pre: string, s: string, isSpace: char -> bool)
    requires Trailing(s, isSpace) < |s|
    ensures Trailing(pre + s, isSpace) == Trailing(s, isSpace)
    decreases |s|
  {
    assert (pre + s)[|pre + s| - 1] == s[|s| - 1];
    if isSpace(s[|s| - 1]) {
      assert (pre + s)[..|pre + s| - 1] == pre + s[..|s| - 1];
      TrailingAfterText(pre, s[..|s| - 1], isSpace);
    }
  }

  /** The counts for a padded string that is all space. */
  lemma PaddedBlankCounts(pre: string, s: string, post: string, isSpace: char -> bool)
    requires AllSpace(pre, isSpace) && AllSpace(post, isSpace)
    requires Leading(s, isSpace) == |s|
    ensures Leading(pre + s + post, isSpace) == |pre + s + post|
  {
    LeadingAreSpaces(s, isSpace);
    assert pre + s + post == pre + (s + (post + []));
    LeadingAfterSpaces(post, [], isSpace);
    LeadingAfterSpaces(s, post + [], isSpace);
    LeadingAfterSpaces(pre, s + (post + []), isSpace);
  }

  /** The counts for a padded string with some non-space in `s`. */
  lemma PaddedTextCounts(pre: string, s: string, post: string, isSpace: char -> bool)
    requires AllSpace(pre, isSpace) && AllSpace(post, isSpace)
    requires Leading(s, isSpace) < |s|
    ensures Leading(pre + s + post, isSpace) == |pre| + Leading(s, isSpace)
    ensures Trailing(pre + s + post, isSpace) == Trailing(s, isSpace) + |post|
  {
    assert pre + s + post == pre + (s + post);
    LeadingBeforeText(s, post, isSpace);
    LeadingAfterSpaces(pre, s + post, isSpace);
    TrailingAfterLeading(s, isSpace);
    TrailingAfterText(pre, s, isSpace);
    TrailingBeforeSpaces(pre + s, post, isSpace);
  }

  /** Surrounding `s` with further spaces does not change what trimming leaves:
      "  alice " and "alice" trim to the same string. */
  lemma TrimPadded(pre: string, s: string, post: string, isSpace: char -> bool)
    requires AllSpace(pre, isSpace) && AllSpace(post, isSpace)
    ensures Trim(pre + s + post, isSpace) == Trim(s, isSpace)
  {
    if Leading(s, isSpace) == |s| {
      PaddedBlankCounts(pre, s, post, isSpace);
    } else {
      var whole := pre + s + post;
      var a, b := Leading(s, isSpace), |s| - Trailing(s, isSpace);
      PaddedTextCounts(pre, s, post, isSpace);
      TrailingAfterLeading(s, isSpace);
      assert Leading(whole, isSpace) == |pre| + a < |whole|;
      assert |whole| - Trailing(whole, isSpace) == |pre| + b;
      InfixSlice(pre, s, post, a, b);
      calc {
        Trim(whole, isSpace);
        whole[|pre| + a..|pre| + b];
        s[a..b];
        Trim(s, isSpace);
      }
    }
  }

  /** A slice of the middle part of `pre + s + post`. */
  lemma InfixSlice<T>(pre: seq<T>, s: seq<T>, post: seq<T>, a: nat, b: nat)
    requires a <= b <= |s|
    ensures (pre + s + post)[|pre| + a..|pre| + b] == s[a..b]
  {
    var whole := pre + s + post;
    forall k | 0 <= k < b - a
      ensures whole[|pre| + a..|pre| + b][k] == s[a..b][k]
    {
      assert whole[|pre| + a + k] == s[a + k];
    }
  }

  /** Trimming is idempotent. */
  lemma TrimIdempotent(s: string, isSpace: char -> bool)
    ensures Trim(Trim(s, isSpace), isSpace) == Trim(s, isSpace)
  {
    var r := Trim(s, isSpace);
    if r != [] {
      assert Leading(r, isSpace) == 0;
      assert Trailing(r, isSpace) == 0;
      assert r[0..|r|] == r;
    }
  }
}
