/**
 * Character classes and the JavaScript string primitives the handlers use:
 * `toLowerCase`, `trim` and the `\s` class of regular expressions.
 * Strings are sequences of Unicode scalar values.
 */
module Text {

  /** JavaScript's WhiteSpace and LineTerminator code points: the set that both
      `String.prototype.trim` removes and the regular-expression class `\s` matches. */
  predicate IsSpace(c: char) {
    || c == '\t' || c == '\n' || c == '\U{000B}' || c == '\U{000C}' || c == '\r'
    || c == ' ' || c == '\U{00A0}' || c == '\U{1680}'
    || ('\U{2000}' <= c <= '\U{200A}')
    || c == '\U{2028}' || c == '\U{2029}' || c == '\U{202F}' || c == '\U{205F}'
    || c == '\U{3000}' || c == '\U{FEFF}'
  }

  predicate IsAsciiUpper(c: char) { 'A' <= c <= 'Z' }
  predicate IsAsciiLower(c: char) { 'a' <= c <= 'z' }
  predicate IsAsciiLetter(c: char) { IsAsciiUpper(c) || IsAsciiLower(c) }
  predicate IsDigit(c: char) { '0' <= c <= '9' }

  predicate NoSpaces(s: string) {
    forall i :: 0 <= i < |s| ==> !IsSpace(s[i])
  }

  /** `s` starts with `prefix`. */
  predicate StartsWith(s: string, prefix: string) {
    |prefix| <= |s| && s[..|prefix|] == prefix
  }

  /**
   * `toLowerCase` on one code point, as far as it can matter to the slug rules:
   * ASCII capitals, and the two non-ASCII code points whose lower-case form
   * contains an ASCII letter (U+0130 lowers to "i" followed by a combining dot,
   * which is not white space and is deleted by every caller; U+212A KELVIN SIGN
   * lowers to "k"). Every other code point is kept: its lower-case form, like
   * itself, is neither an ASCII letter, a digit, '-' nor white space.
   */
  function LowerChar(c: char): (d: char)
    ensures !IsAsciiUpper(d)
    ensures IsSpace(d) <==> IsSpace(c)
    ensures IsAsciiUpper(c) ==> IsAsciiLower(d) && d as int == c as int + 32
    ensures !IsAsciiUpper(c) && c != '\U{0130}' && c != '\U{212A}' ==> d == c
  {
    if IsAsciiUpper(c) then (c as int + 32) as char
    else if c == '\U{0130}' then 'i'
    else if c == '\U{212A}' then 'k'
    else c
  }

  function Lower(s: string): (r: string)
    ensures |r| == |s|
    ensures forall i :: 0 <= i < |s| ==> r[i] == LowerChar(s[i])
  {
    seq(|s|, i requires 0 <= i < |s| => LowerChar(s[i]))
  }

  /** Lower-casing a string that holds no ASCII capital and neither special code point changes nothing. */
  lemma LowerIdentity(s: string)
    requires forall i :: 0 <= i < |s| ==> !IsAsciiUpper(s[i]) && s[i] != '\U{0130}' && s[i] != '\U{212A}'
    ensures Lower(s) == s
  {
  }

  /** Removes the leading white space. */
  function TrimStart(s: string): (r: string)
    ensures |r| <= |s| && r == s[|s| - |r|..]
    ensures forall i :: 0 <= i < |s| - |r| ==> IsSpace(s[i])
    ensures |r| > 0 ==> !IsSpace(r[0])
    decreases |s|
  {
    if |s| > 0 && IsSpace(s[0]) then TrimStart(s[1..]) else s
  }

  /** Removes the trailing white space. */
  function TrimEnd(s: string): (r: string)
    ensures |r| <= |s| && r == s[..|r|]
    ensures forall i :: |r| <= i < |s| ==> IsSpace(s[i])
    ensures |r| > 0 ==> !IsSpace(r[|r| - 1])
    decreases |s|
  {
    if |s| > 0 && IsSpace(s[|s| - 1]) then TrimEnd(s[..|s| - 1]) else s
  }

  /** `String.prototype.trim`. */
  function Trim(s: string): string {
    TrimEnd(TrimStart(s))
  }

  /** Neither end of `s` is white space (the empty string qualifies). */
  predicate Trimmed(s: string) {
    |s| == 0 || (!IsSpace(s[0]) && !IsSpace(s[|s| - 1]))
  }

  /** Neither end of a trimmed string is white space. */
  lemma TrimTrimmed(s: string)
    ensures Trimmed(Trim(s))
  {
    var a := TrimStart(s);
    var b := TrimEnd(a);
    if |b| > 0 {
      assert b[0] == a[0];
    }
  }

  /** `Trim(s)` is the slice of `s` left after removing white space at both ends,
      and nothing but white space was removed. */
  lemma TrimIsSlice(s: string)
    ensures Trimmed(Trim(s))
    ensures exists i, j :: (0 <= i <= j <= |s| && Trim(s) == s[i..j]
      && (forall k :: 0 <= k < i ==> IsSpace(s[k]))
      && (forall k :: j <= k < |s| ==> IsSpace(s[k])))
  {
    var a := TrimStart(s);
    var i := |s| - |a|;
    var b := TrimEnd(a);
    var j := i + |b|;
    assert b == s[i..j];
    forall k | j <= k < |s| ensures IsSpace(s[k]) {
      assert s[k] == a[k - i];
    }
    if |b| > 0 {
      assert b[0] == a[0];
    }
  }

  /** Trimming a string whose ends are not white space changes nothing. */
  lemma {:induction false} TrimIdentity(s: string)
    requires Trimmed(s)
    ensures Trim(s) == s
  {
    if |s| > 0 {
      assert !IsSpace(s[0]);
      assert TrimStart(s) == s;
      assert !IsSpace(s[|s| - 1]);
      assert TrimEnd(s) == s;
    }
  }

  /** `trim` is idempotent. */
  lemma TrimIdempotent(s: string)
    ensures Trim(Trim(s)) == Trim(s)
  {
    TrimTrimmed(s);
    TrimIdentity(Trim(s));
  }
}
