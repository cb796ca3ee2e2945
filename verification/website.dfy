/**
 * The `website` field of the supplier form: a transform that is deliberately
 * different from the image-URL normaliser. A falsy value becomes null, a value
 * starting with "http://" or "https://" in any letter case is kept, anything
 * else gets "https://" in front; nothing is trimmed.
 */
module SupplierWebsite {
  import opened Common
  import opened Text
  import ImageUrl
  import opened Validation

  /** ASCII case folding, as the `i` flag of a non-Unicode regular expression
      compares characters (a non-ASCII character never folds onto an ASCII one). */
  function FoldCase(c: char): char {
    if IsAsciiUpper(c) then (c as int + 32) as char else c
  }

  /** `s` starts with the lower-case `prefix`, ignoring ASCII letter case. */
  predicate StartsWithIgnoringCase(s: string, prefix: string) {
    |prefix| <= |s| && forall i :: 0 <= i < |prefix| ==> FoldCase(s[i]) == prefix[i]
  }

  /** Starts with "http://" or "https://", ignoring ASCII letter case. */
  predicate HasHttpScheme(s: string) {
    StartsWithIgnoringCase(s, "http://") || StartsWithIgnoringCase(s, "https://")
  }

  /** The transform, on the string, null or undefined zod hands it: a falsy
      value becomes null, a value with an http or https scheme is kept as it is,
      anything else gets "https://" in front. */
  function Normalize(val: Option<string>): (r: Option<string>)
    ensures r.None? <==> val.None? || val.value == ""
    ensures r.Some? ==> HasHttpScheme(r.value)
    ensures r.Some? && HasHttpScheme(val.value) ==> r.value == val.value
    ensures r.Some? && !HasHttpScheme(val.value) ==> r.value == ImageUrl.HttpsPrefix + val.value
  {
    if val.None? || val.value == "" then None
    else if !HasHttpScheme(val.value) then
      assert StartsWithIgnoringCase(ImageUrl.HttpsPrefix + val.value, "https://");
      Some(ImageUrl.HttpsPrefix + val.value)
    else val
  }

  /** The transform is idempotent. */
  lemma NormalizeIdempotent(val: Option<string>)
    ensures Normalize(Normalize(val)) == Normalize(val)
  {
  }

  /** The website rule does not trim: a value with leading white space keeps it
      behind the "https://" prefix, while the image rule drops it. */
  lemma NoTrimUnlikeImageUrl(s: string)
    requires |s| > 0 && IsSpace(s[0])
    ensures Normalize(Some(s)) == Some(ImageUrl.HttpsPrefix + s)
    ensures ImageUrl.Normalize(Present(s)) != Normalize(Some(s))
  {
    LeadingSpaceIsNotHttp(s);
    ImageUrlDropsLeadingSpace(s);
  }

  lemma LeadingSpaceIsNotHttp(s: string)
    requires |s| > 0 && IsSpace(s[0])
    ensures Normalize(Some(s)) == Some(ImageUrl.HttpsPrefix + s)
  {
    assert FoldCase(s[0]) == s[0];
    assert !HasHttpScheme(s);
  }

  lemma ImageUrlDropsLeadingSpace(s: string)
    requires |s| > 0 && IsSpace(s[0])
    ensures ImageUrl.Normalize(Present(s)) != Some(ImageUrl.HttpsPrefix + s)
  {
    var u := ImageUrl.Normalize(Present(s));
    if u.Some? {
      TrimIsSlice(s);
      if u.value == ImageUrl.HttpsPrefix + Trim(s) {
        assert Trim(s)[0] != s[0] || Trim(s) != s;
      }
    }
  }

  /** The website rule prefixes every scheme other than http and https, which
      the image rule keeps as it is. */
  lemma OnlyHttpUnlikeImageUrl(s: string)
    requires Trimmed(s) && ImageUrl.HasScheme(s) && !HasHttpScheme(s)
    ensures ImageUrl.Normalize(Present(s)) == Some(s)
    ensures Normalize(Some(s)) == Some(ImageUrl.HttpsPrefix + s)
  {
    TrimIdentity(s);
  }
}
