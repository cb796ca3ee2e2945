/**
 * The slug normaliser of the menu-item create handlers (the HTTP route and
 * the server action carry identical copies) and the base slug the handlers
 * derive from the payload before probing for a free one.
 *
 * Slugify lower-cases, trims white space at both ends, deletes every
 * character other than a-z, 0-9, white space and '-', turns each run of
 * white space into one '-', merges runs of '-' and keeps the first 200
 * characters, in that order.
 */
module Slug {
  import opened Common
  import opened Text
  import Decimal

  /** The length bound of the last step. */
  const MaxSlugifyLength: nat := 200

  predicate IsSlugChar(c: char) { IsAsciiLower(c) || IsDigit(c) || c == '-' }

  /** A character the deletion step keeps. */
  predicate Kept(c: char) { IsAsciiLower(c) || IsDigit(c) || IsSpace(c) || c == '-' }

  predicate AllSlugChars(s: string) {
    forall i :: 0 <= i < |s| ==> IsSlugChar(s[i])
  }

  predicate AllKept(s: string) {
    forall i :: 0 <= i < |s| ==> Kept(s[i])
  }

  predicate NoDoubleHyphen(s: string) {
    forall i :: 0 <= i < |s| - 1 ==> !(s[i] == '-' && s[i + 1] == '-')
  }

  /** The shape of every string `slugify` can return. */
  predicate IsSlug(s: string) {
    AllSlugChars(s) && NoDoubleHyphen(s) && |s| <= MaxSlugifyLength
  }

  /** The deletion step: every character other than a-z, 0-9, white space and '-' goes. */
  function StripDisallowed(s: string): (r: string)
    ensures |r| <= |s|
    ensures AllKept(r)
    ensures AllKept(s) ==> r == s
    ensures NoSpaces(s) ==> NoSpaces(r)
  {
    if |s| == 0 then []
    else (if Kept(s[0]) then [s[0]] else []) + StripDisallowed(s[1..])
  }

  /** Every maximal run of white space becomes one '-'.
      A space followed by another space is dropped; the last one of a run becomes '-'. */
  function HyphenateSpaces(s: string): (r: string)
    ensures |r| <= |s|
    ensures NoSpaces(r)
    ensures |s| > 0 ==> |r| > 0 && r[0] == (if IsSpace(s[0]) then '-' else s[0])
    ensures AllKept(s) ==> AllSlugChars(r)
    ensures NoSpaces(s) ==> r == s
  {
    if |s| == 0 then []
    else
      var space := IsSpace(s[0]);
      var rest := HyphenateSpaces(s[1..]);
      if space && |s| > 1 && IsSpace(s[1]) then rest
      else [if space then '-' else s[0]] + rest
  }

  /** Every run of hyphens becomes one. */
  function CollapseHyphens(s: string): (r: string)
    ensures |r| <= |s|
    ensures NoDoubleHyphen(r)
    ensures |s| > 0 ==> |r| > 0 && r[0] == s[0]
    ensures AllSlugChars(s) ==> AllSlugChars(r)
    ensures NoDoubleHyphen(s) ==> r == s
  {
    if |s| == 0 then []
    else if s[0] == '-' && |s| > 1 && s[1] == '-' then CollapseHyphens(s[1..])
    else [s[0]] + CollapseHyphens(s[1..])
  }

  /** The first n characters, or all of them when there are fewer. */
  function Prefix(s: string, n: nat): (r: string)
    ensures r == s[..if |s| <= n then |s| else n]
  {
    if |s| <= n then s else s[..n]
  }

  /** A prefix of a string in slug shape, cut at the length bound, is a slug. */
  lemma PrefixOfSlugShape(s: string)
    requires AllSlugChars(s) && NoDoubleHyphen(s)
    ensures IsSlug(Prefix(s, MaxSlugifyLength))
  {
    var r := Prefix(s, MaxSlugifyLength);
    assert forall i :: 0 <= i < |r| ==> r[i] == s[i];
  }

  function Slugify(s: string): (r: string)
    ensures IsSlug(r)
  {
    var hyphenated := HyphenateSpaces(StripDisallowed(Trim(Lower(s))));
    var collapsed := CollapseHyphens(hyphenated);
    PrefixOfSlugShape(collapsed);
    Prefix(collapsed, MaxSlugifyLength)
  }

  /** A string already in slug shape is its own slug. */
  lemma SlugifyFixesSlugs(t: string)
    requires IsSlug(t)
    ensures Slugify(t) == t
  {
    forall i | 0 <= i < |t|
      ensures !IsAsciiUpper(t[i]) && t[i] != '\U{0130}' && t[i] != '\U{212A}'
      ensures !IsSpace(t[i]) && Kept(t[i])
    {
      SlugCharFacts(t[i]);
    }
    LowerIdentity(t);
    assert Lower(t) == t;
    TrimIdentity(t);
    assert StripDisallowed(t) == t;
    assert HyphenateSpaces(t) == t;
    assert CollapseHyphens(t) == t;
  }

  lemma SlugCharFacts(c: char)
    requires IsSlugChar(c)
    ensures !IsAsciiUpper(c) && c != '\U{0130}' && c != '\U{212A}'
    ensures !IsSpace(c) && Kept(c)
  {
  }

  /** Slugify is idempotent. */
  lemma SlugifyIdempotent(s: string)
    ensures Slugify(Slugify(s)) == Slugify(s)
  {
    SlugifyFixesSlugs(Slugify(s));
  }

  /** Upper bound on the clock: the largest JavaScript time value, 8.64e15 ms. */
  const MaxTimeValue: nat := 8_640_000_000_000_000

  /** A reading of `Date.now()` (milliseconds since the epoch; a clock set
      before 1970 is not modelled). */
  type Millis = n: nat | n <= MaxTimeValue

  /** "item-" followed by the clock reading, the slug used when slugify leaves nothing. */
  function FallbackSlug(now: Millis): (r: string)
    ensures IsSlug(r) && |r| > 0
    ensures |r| <= 21
  {
    var digits := Decimal.Show(now);
    assert Decimal.Pow10(8) == 100_000_000;
    Decimal.Pow10Add(8, 8);
    Decimal.ShowLength(now, 16);
    var r := "item-" + digits;
    assert forall i :: 5 <= i < |r| ==> r[i] == digits[i - 5];
    r
  }

  /** The text the base slug is derived from: a truthy `slug` field, else the name. */
  function SlugSource(slug: Option<string>, name: string): string {
    if slug.Some? && slug.value != "" then slug.value else name
  }

  /** The slugified source text, or the clock fallback when slugify leaves
      the empty string. */
  function BaseSlug(slug: Option<string>, name: string, now: Millis): (r: string)
    ensures IsSlug(r) && |r| > 0
  {
    var s := Slugify(SlugSource(slug, name));
    if s != "" then s else FallbackSlug(now)
  }

  /** Which text the base slug comes from: a non-empty given slug wins over the
      name, and the clock is used only when slugify erases the chosen text. */
  lemma BaseSlugChoice(slug: Option<string>, name: string, now: Millis)
    ensures slug.Some? && Slugify(slug.value) != "" ==> BaseSlug(slug, name, now) == Slugify(slug.value)
    ensures (slug.None? || slug.value == "") && Slugify(name) != "" ==> BaseSlug(slug, name, now) == Slugify(name)
    ensures BaseSlug(slug, name, now) == FallbackSlug(now) <==> Slugify(SlugSource(slug, name)) == "" || Slugify(SlugSource(slug, name)) == FallbackSlug(now)
  {
  }
}
