/**
 * The text rule shared by adding a task and saving an edit: the input is
 * trimmed as JavaScript's String.prototype.trim does, and the trimmed text is
 * accepted only when it holds between 1 and 100 characters.
 */
module TextRules {

  /** Longest task text the list accepts, in characters. */
  const MaxLength: nat := 100

  /**
   * The characters String.prototype.trim strips: the ECMAScript WhiteSpace
   * set (tab, vertical tab, form feed, space, no-break space, byte order
   * mark and the Unicode space separators) and the LineTerminator set.
   */
  predicate IsWhitespace(c: char)
  {
    c == '\t' || c == '\n' || c == '\U{000B}' || c == '\U{000C}' || c == '\r' ||
    c == ' ' || c == '\U{00A0}' || c == '\U{1680}' ||
    ('\U{2000}' <= c <= '\U{200A}') ||
    c == '\U{2028}' || c == '\U{2029}' || c == '\U{202F}' || c == '\U{205F}' ||
    c == '\U{3000}' || c == '\U{FEFF}'
  }

  /** Drops the leading whitespace of `s`. */
  function TrimStart(s: string): (r: string)
    ensures |r| <= |s| && r == s[|s| - |r|..]
    ensures forall k :: 0 <= k < |s| - |r| ==> IsWhitespace(s[k])
    ensures r == [] || !IsWhitespace(r[0])
    decreases |s|
  {
    if s != [] && IsWhitespace(s[0]) then TrimStart(s[1..]) else s
  }

  /** Drops the trailing whitespace of `s`. */
  function TrimEnd(s: string): (r: string)
    ensures |r| <= |s| && r == s[..|r|]
    ensures forall k :: |r| <= k < |s| ==> IsWhitespace(s[k])
    ensures r == [] || !IsWhitespace(r[|r| - 1])
    decreases |s|
  {
    if s != [] && IsWhitespace(s[|s| - 1]) then TrimEnd(s[..|s| - 1]) else s
  }

  /** String.prototype.trim: whitespace removed from both ends. */
  function Trim(s: string): (r: string)
    ensures |r| <= |s|
    ensures r == [] || (!IsWhitespace(r[0]) && !IsWhitespace(r[|r| - 1]))
    ensures r == [] <==> forall k :: 0 <= k < |s| ==> IsWhitespace(s[k])
  {
    var t := TrimStart(s);
    var r := TrimEnd(t);
    assert r != [] ==> !IsWhitespace(r[0]) by {
      if r != [] {
        assert r[0] == t[0];
      }
    }
    r
  }

  /** A text as the list stores it: 1 to 100 characters, no whitespace at either end. */
  predicate IsStoredText(t: string)
  {
    0 < |t| <= MaxLength && !IsWhitespace(t[0]) && !IsWhitespace(t[|t| - 1])
  }

  /** Why a text was refused; the first check made wins. */
  datatype Rejection = Empty | TooLong

  /** Outcome of the length rule on raw input. */
  datatype Checked = Accept(text: string) | Reject(reason: Rejection)

  /**
   * The validation in handleSubmit and saveEdit: trim, refuse an empty
   * result, then refuse one longer than 100 characters.
   */
  function Validate(input: string): (c: Checked)
    ensures c == Reject(Empty) <==> Trim(input) == []
    ensures c == Reject(TooLong) <==> |Trim(input)| > MaxLength
    ensures c.Accept? ==> c.text == Trim(input) && IsStoredText(c.text)
  {
    var t := Trim(input);
    if |t| == 0 then Reject(Empty)
    else if |t| > MaxLength then Reject(TooLong)
    else Accept(t)
  }

  /** Trimming twice is trimming once. */
  lemma TrimFixedPoint(s: string)
    ensures Trim(Trim(s)) == Trim(s)
  {
    var r := Trim(s);
    if r != [] {
      assert TrimStart(r) == r;
      assert TrimEnd(r) == r;
    }
  }

  /** A stored text passes the rule unchanged, so re-saving it is a no-op on the text. */
  lemma StoredTextRevalidates(t: string)
    requires IsStoredText(t)
    ensures Trim(t) == t
    ensures Validate(t) == Accept(t)
  {
    PaddingIsIgnored([], t, []);
    assert [] + t + [] == t;
  }

  /**
   * Padding a text with whitespace on either side does not change what is
   * accepted: the rule depends on the trimmed text only.
   */
  lemma {:induction false} PaddingIsIgnored(pre: string, t: string, post: string)
    requires forall k :: 0 <= k < |pre| ==> IsWhitespace(pre[k])
    requires forall k :: 0 <= k < |post| ==> IsWhitespace(post[k])
    requires t == [] || (!IsWhitespace(t[0]) && !IsWhitespace(t[|t| - 1]))
    ensures Trim(pre + t + post) == t
  {
    if t == [] {
      assert pre + t + post == pre + post;
    } else {
      TrimStartPadding(pre, t + post);
      assert pre + t + post == pre + (t + post);
      TrimEndPadding(t, post);
    }
  }

  lemma {:induction false} TrimStartPadding(pre: string, s: string)
    requires forall k :: 0 <= k < |pre| ==> IsWhitespace(pre[k])
    requires s != [] && !IsWhitespace(s[0])
    ensures TrimStart(pre + s) == s
    decreases |pre|
  {
    if pre != [] {
      assert (pre + s)[1..] == pre[1..] + s;
      TrimStartPadding(pre[1..], s);
    }
  }

  lemma {:induction false} TrimEndPadding(s: string, post: string)
    requires forall k :: 0 <= k < |post| ==> IsWhitespace(post[k])
    requires s != [] && !IsWhitespace(s[|s| - 1])
    ensures TrimEnd(s + post) == s
    decreases |post|
  {
    if post != [] {
      assert (s + post)[..|s + post| - 1] == s + post[..|post| - 1];
      TrimEndPadding(s, post[..|post| - 1]);
    }
  }
}
