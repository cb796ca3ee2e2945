/**
 * The image-URL normaliser. The HTTP route and the client form carry
 * textually identical copies, modelled by `Normalize`; the server action
 * inlines a third copy in its preprocess step, modelled separately by
 * `NormalizeInline` and proved equal to the first.
 *
 * A value that is not a string becomes null; a string is trimmed, and an
 * empty result becomes null; a result that starts with a letter, then any
 * letters, digits, '+', '-' or '.', then "://" is kept, anything else gets
 * "https://" in front.
 */
module ImageUrl {
  import opened Common
  import opened Text
  import opened Validation

  const HttpsPrefix: string := "https://"

  predicate IsSchemeChar(c: char) {
    IsAsciiLetter(c) || IsDigit(c) || c == '+' || c == '-' || c == '.'
  }

  /** The scheme pattern matches with its "://" at position `i`: a letter
      first, then scheme characters up to `i`. */
  predicate SchemeEndsAt(s: string, i: nat) {
    && 1 <= i && i + 3 <= |s|
    && IsAsciiLetter(s[0])
    && (forall j :: 1 <= j < i ==> IsSchemeChar(s[j]))
    && s[i] == ':' && s[i + 1] == '/' && s[i + 2] == '/'
  }

  /** Where the run of scheme characters starting at `i` ends. */
  function SchemeRunEnd(s: string, i: nat): (e: nat)
    requires i <= |s|
    ensures i <= e <= |s|
    ensures forall j :: i <= j < e ==> IsSchemeChar(s[j])
    ensures e < |s| ==> !IsSchemeChar(s[e])
    decreases |s| - i
  {
    if i < |s| && IsSchemeChar(s[i]) then SchemeRunEnd(s, i + 1) else i
  }

  /** The run starting at `i` ends at `e` when every character in between is a
      scheme character and the one at `e` is not. */
  lemma SchemeRunEndAt(s: string, i: nat, e: nat)
    requires i <= e < |s|
    requires forall j :: i <= j < e ==> IsSchemeChar(s[j])
    requires !IsSchemeChar(s[e])
    ensures SchemeRunEnd(s, i) == e
  {
  }

  /** The scheme test as the regular-expression engine performs it: a letter, the
      longest run of scheme characters, then "://" (':' is not a scheme
      character, so no shorter run can lead to a match). */
  predicate HasScheme(s: string) {
    && |s| >= 1 && IsAsciiLetter(s[0])
    && var e := SchemeRunEnd(s, 1);
    && e + 3 <= |s| && s[e] == ':' && s[e + 1] == '/' && s[e + 2] == '/'
  }

  /** The scan agrees with the regular expression on every string. */
  lemma HasSchemeIffMatch(s: string)
    ensures HasScheme(s) <==> exists i :: SchemeEndsAt(s, i)
  {
    if HasScheme(s) {
      assert SchemeEndsAt(s, SchemeRunEnd(s, 1));
    }
    if i: nat :| SchemeEndsAt(s, i) {
      var e := SchemeRunEnd(s, 1);
      assert !IsSchemeChar(s[i]);
      assert e == i;
    }
  }

  /** Every "https://" + t carries a scheme. */
  lemma HttpsPrefixHasScheme(t: string)
    ensures HasScheme(HttpsPrefix + t)
  {
    var s := HttpsPrefix + t;
    assert SchemeEndsAt(s, 5);
    HasSchemeIffMatch(s);
  }

  /** Prefixing "https://" to a trimmed non-empty string keeps it trimmed. */
  lemma HttpsPrefixTrimmed(t: string)
    requires Trimmed(t) && |t| > 0
    ensures Trimmed(HttpsPrefix + t)
  {
    var s := HttpsPrefix + t;
    assert s[|s| - 1] == t[|t| - 1];
  }

  /** The route's and the client's copy; None is the null it returns. */
  function Normalize(val: Field<string>): (r: Option<string>)
    ensures !val.Present? ==> r.None?
    ensures val.Present? ==> (r.None? <==> Trim(val.value) == "")
    ensures r.Some? ==> HasScheme(r.value) && Trimmed(r.value)
    ensures r.Some? ==> r.value == Trim(val.value) || r.value == HttpsPrefix + Trim(val.value)
    ensures r.Some? && HasScheme(Trim(val.value)) ==> r.value == Trim(val.value)
    ensures r.Some? && !HasScheme(Trim(val.value)) ==> r.value == HttpsPrefix + Trim(val.value)
  {
    match val
    case Present(v) =>
      var s := Trim(v);
      TrimTrimmed(v);
      if s == "" then None
      else if !HasScheme(s) then
        HttpsPrefixHasScheme(s);
        HttpsPrefixTrimmed(s);
        Some(HttpsPrefix + s)
      else Some(s)
    case _ => None
  }

  /** Feeds a normaliser result back in as the next request would send it:
      null, or the string. */
  function Resend(r: Option<string>): Field<string> {
    if r.Some? then Present(r.value) else Null
  }

  /** Normalising twice is normalising once. */
  lemma NormalizeIdempotent(val: Field<string>)
    ensures Normalize(Resend(Normalize(val))) == Normalize(val)
  {
    var r := Normalize(val);
    if r.Some? {
      TrimIdentity(r.value);
    }
  }

  /** A non-null result starts with a scheme followed by "://", in the sense of
      the regular expression. */
  lemma NormalizedHasScheme(val: Field<string>)
    requires Normalize(val).Some?
    ensures exists i :: SchemeEndsAt(Normalize(val).value, i)
  {
    HasSchemeIffMatch(Normalize(val).value);
  }

  /** The action's inline copy, which tests the trimmed string against the
      empty string and matches the scheme pattern directly. */
  ghost function NormalizeInline(val: Field<string>): (r: Option<string>)
    ensures r.Some? ==> val.Present? && Trim(val.value) != ""
  {
    match val
    case Present(v) =>
      var s := Trim(v);
      if s == "" then None
      else if !(exists i :: SchemeEndsAt(s, i)) then Some(HttpsPrefix + s)
      else Some(s)
    case _ => None
  }

  /** The three copies agree on every input. */
  lemma CopiesAgree(val: Field<string>)
    ensures NormalizeInline(val) == Normalize(val)
  {
    if val.Present? {
      HasSchemeIffMatch(Trim(val.value));
    }
  }
}
