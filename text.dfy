/**
 * Strings as JavaScript's String.prototype.trim sees them: the characters it
 * strips, the trim itself, and "blank", the test the add handler performs
 * with `!newTask.trim()` (an empty string is falsy).
 */
module Text {

  /** ECMAScript WhiteSpace and LineTerminator code points: the set `trim` strips. */
  predicate IsWhitespace(c: char) {
    // WhiteSpace: TAB, VT, FF, SPACE, NBSP, ZWNBSP and the Zs category
    c == '\t' || c == '\U{000B}' || c == '\U{000C}' || c == ' ' ||
    c == '\U{00A0}' || c == '\U{FEFF}' || c == '\U{1680}' ||
    ('\U{2000}' <= c <= '\U{200A}') ||
    c == '\U{202F}' || c == '\U{205F}' || c == '\U{3000}' ||
    // LineTerminator: LF, CR, LINE SEPARATOR, PARAGRAPH SEPARATOR
    c == '\n' || c == '\r' || c == '\U{2028}' || c == '\U{2029}'
  }

  /** A title is blank when it holds nothing but whitespace (the empty title included). */
  predicate IsBlank(s: string) {
    forall i :: 0 <= i < |s| ==> IsWhitespace(s[i])
  }

  /** Drops leading whitespace: the result is the longest suffix of `s` not starting with whitespace. */
  function TrimStart(s: string): (r: string)
    ensures |r| <= |s| && r == s[|s| - |r|..]
    ensures forall i :: 0 <= i < |s| - |r| ==> IsWhitespace(s[i])
    ensures r == [] || !IsWhitespace(r[0])
  {
    if |s| > 0 && IsWhitespace(s[0]) then TrimStart(s[1..]) else s
  }

  /** Drops trailing whitespace: the result is the longest prefix of `s` not ending in whitespace. */
  function TrimEnd(s: string): (r: string)
    ensures |r| <= |s| && r == s[..|r|]
    ensures forall i :: |r| <= i < |s| ==> IsWhitespace(s[i])
    ensures r == [] || !IsWhitespace(r[|r| - 1])
  {
    if |s| > 0 && IsWhitespace(s[|s| - 1]) then TrimEnd(s[..|s| - 1]) else s
  }

  /** What TrimStart drops is blank. */
  lemma TrimStartDropsBlank(s: string)
    ensures IsBlank(s[..|s| - |TrimStart(s)|])
  {
    // TrimStart's contract settles it
  }

  /** What TrimEnd drops is blank. */
  lemma TrimEndDropsBlank(t: string)
    ensures IsBlank(t[|TrimEnd(t)|..])
  {
    // TrimEnd's contract settles it
  }

  /** What TrimStart and TrimEnd drop, taken together, is whitespace on either side of a slice. */
  lemma TrimDropsWhitespace(s: string)
    ensures var r := TrimEnd(TrimStart(s));
      exists k :: (0 <= k <= |s| - |r| && r == s[k..][..|r|] &&
        IsBlank(s[..k]) && IsBlank(s[k + |r|..]))
  {
    var t := TrimStart(s);
    var r := TrimEnd(t);
    var k := |s| - |t|;
    TrimStartDropsBlank(s);
    TrimEndDropsBlank(t);
    assert s[k + |r|..] == t[|r|..];
    assert 0 <= k <= |s| - |r| && r == s[k..][..|r|] &&
      IsBlank(s[..k]) && IsBlank(s[k + |r|..]);
  }

  /** After both trims the text, unless empty, starts and ends with a non-whitespace character. */
  lemma TrimEndsVisible(s: string)
    ensures var r := TrimEnd(TrimStart(s));
      r == [] || (!IsWhitespace(r[0]) && !IsWhitespace(r[|r| - 1]))
  {
    // the contracts of TrimStart and TrimEnd settle it
  }

  /**
   * String.prototype.trim: the slice of `s` left once the whitespace at both
   * ends is dropped; it neither starts nor ends with whitespace.
   */
  function Trim(s: string): (r: string)
    ensures |r| <= |s|
    ensures exists k :: (0 <= k <= |s| - |r| && r == s[k..][..|r|] &&
      IsBlank(s[..k]) && IsBlank(s[k + |r|..]))
    ensures r == [] || (!IsWhitespace(r[0]) && !IsWhitespace(r[|r| - 1]))
  {
    TrimDropsWhitespace(s);
    TrimEndsVisible(s);
    TrimEnd(TrimStart(s))
  }

  /** `s.trim()` is the empty (falsy) string exactly when `s` is blank. */
  lemma TrimEmptyIffBlank(s: string)
    ensures Trim(s) == [] <==> IsBlank(s)
  {
    // TrimStart's and TrimEnd's contracts settle both directions.
  }
}
