/**
 * The JavaScript string operations the form and the filter use: `trim`,
 * `toLowerCase` (letters A to Z only) and `includes`.
 */
module Text {

  /** JavaScript's WhiteSpace and LineTerminator characters, which `String.prototype.trim` strips. */
  predicate IsWhitespace(c: char)
  {
    || ('\t' <= c <= '\r')
    || c == ' '
    || c == '\U{00A0}'
    || c == '\U{1680}'
    || ('\U{2000}' <= c <= '\U{200A}')
    || c == '\U{2028}'
    || c == '\U{2029}'
    || c == '\U{202F}'
    || c == '\U{205F}'
    || c == '\U{3000}'
    || c == '\U{FEFF}'
  }

  /** `s` with its leading white space removed. */
  function TrimStart(s: string): (r: string)
    ensures |r| <= |s| && r == s[|s| - |r|..]
    ensures forall i :: 0 <= i < |s| - |r| ==> IsWhitespace(s[i])
    ensures r == [] || !IsWhitespace(r[0])
    decreases |s|
  {
    if |s| > 0 && IsWhitespace(s[0]) then TrimStart(s[1..]) else s
  }

  /** `s` with its trailing white space removed. */
  function TrimEnd(s: string): (r: string)
    ensures |r| <= |s| && r == s[..|r|]
    ensures forall i :: |r| <= i < |s| ==> IsWhitespace(s[i])
    ensures r == [] || !IsWhitespace(r[|r| - 1])
    decreases |s|
  {
    if |s| > 0 && IsWhitespace(s[|s| - 1]) then TrimEnd(s[..|s| - 1]) else s
  }

  /** `String.prototype.trim`. */
  function Trim(s: string): (r: string)
    ensures r == [] || (!IsWhitespace(r[0]) && !IsWhitespace(r[|r| - 1]))
  {
    TrimEnd(TrimStart(s))
  }

  /** `t` is `s[k..k + |t|]` and everything of `s` around it is white space. */
  ghost predicate PaddedAt(s: string, t: string, k: int)
  {
    && 0 <= k <= |s| - |t|
    && s[k..k + |t|] == t
    && (forall i :: 0 <= i < k ==> IsWhitespace(s[i]))
    && (forall i :: k + |t| <= i < |s| ==> IsWhitespace(s[i]))
  }

  /** The trimmed string is the part of `s` between a white-space prefix and a white-space suffix. */
  lemma TrimIsInfix(s: string)
    ensures exists k :: PaddedAt(s, Trim(s), k)
  {
    var u := TrimStart(s);
    var t := TrimEnd(u);
    var k := |s| - |u|;
    assert u == s[k..] && t == u[..|t|];
    assert u[..|t|] == s[k..k + |t|];
    forall i | k + |t| <= i < |s| ensures IsWhitespace(s[i]) {
      assert s[i] == u[i - k];
    }
    assert t == Trim(s) && PaddedAt(s, t, k);
  }

  /** The trimmed string is empty exactly when `s` is white space only. */
  lemma TrimEmptyIff(s: string)
    ensures Trim(s) == [] <==> forall i :: 0 <= i < |s| ==> IsWhitespace(s[i])
  {
  }

  /** Trimming twice is trimming once. */
  lemma TrimIdempotent(s: string)
    ensures Trim(Trim(s)) == Trim(s)
  {
  }

  function LowerChar(c: char): (d: char)
  {
    if 'A' <= c <= 'Z' then (c as int + 32) as char else c
  }

  /** `String.prototype.toLowerCase`, for the letters A to Z. */
  function ToLower(s: string): (r: string)
    ensures |r| == |s|
    ensures forall i :: 0 <= i < |s| ==> r[i] == LowerChar(s[i]) && !('A' <= r[i] <= 'Z')
  {
    seq(|s|, i requires 0 <= i < |s| => LowerChar(s[i]))
  }

  predicate OccursAt(text: string, pattern: string, i: nat)
  {
    i + |pattern| <= |text| && text[i..i + |pattern|] == pattern
  }

  /** `String.prototype.includes`: `pattern` occurs in `text` at some position. */
  predicate Includes(text: string, pattern: string)
  {
    exists i: nat | i <= |text| :: OccursAt(text, pattern, i)
  }

  /** A text that lacks the first character of a non-empty pattern does not include it. */
  lemma MissingHeadExcludes(text: string, pattern: string)
    requires |pattern| > 0 && pattern[0] !in text
    ensures !Includes(text, pattern)
  {
  }
}
