/**
 * The "complete onboarding" server action: validate the collected wizard data,
 * require a signed-in user, refuse a user who already owns a cafe, insert the
 * cafe, then mark the user as onboarded. Any failure throws before the store
 * changes.
 */
module Onboarding {
  import opened Common
  import opened Text
  import opened Validation
  import opened Schema
  import opened Store

  datatype Payload = Payload(
    name: Field<string>, slug: Field<string>, address: Field<string>, city: Field<string>,
    country: Field<string>, phone: Field<string>, timezone: Field<string>,
    openingHours: Field<string>, posEnabled: Field<bool>)

  /** One or more of a-z, 0-9 and '-', as the slug's regular expression demands. */
  predicate SlugPattern(s: string) {
    |s| >= 1 && forall i :: 0 <= i < |s| ==> IsAsciiLower(s[i]) || IsDigit(s[i]) || s[i] == '-'
  }

  const NameRule: StrRule := StrRule(2, Some(300), false, false)
  const SlugRule: StrRule := StrRule(2, Some(320), false, false)
  /** An optional, nullable string with no length bound. */
  const OptionalText: StrRule := StrRule(0, None, true, true)

  predicate Accepts(p: Payload) {
    && StrOk(NameRule, p.name)
    && StrOk(SlugRule, p.slug) && p.slug.Present? && SlugPattern(p.slug.value)
    && StrOk(OptionalText, p.address) && StrOk(OptionalText, p.city)
    && StrOk(OptionalText, p.country) && StrOk(OptionalText, p.phone)
    && StrOk(OptionalText, p.timezone) && StrOk(OptionalText, p.openingHours)
    && BoolOk(true, p.posEnabled)
  }

  /** A text field that is absent, null or a string. */
  predicate TextOrNothing(f: Field<string>) {
    !f.Mistyped?
  }

  /** The schema in plain terms: a name of 2..300 characters, a slug of 2..320
      characters from [a-z0-9-], any text or nothing for the rest. */
  predicate Valid(p: Payload) {
    && p.name.Present? && 2 <= |p.name.value| <= 300
    && p.slug.Present? && 2 <= |p.slug.value| <= 320 && SlugPattern(p.slug.value)
    && TextOrNothing(p.address) && TextOrNothing(p.city) && TextOrNothing(p.country)
    && TextOrNothing(p.phone) && TextOrNothing(p.timezone) && TextOrNothing(p.openingHours)
    && !p.posEnabled.Null? && !p.posEnabled.Mistyped?
  }

  lemma SchemaMeaning(p: Payload)
    ensures Accepts(p) <==> Valid(p)
  {
  }

  /** A nullable column written from an optional field: null when the field
      is missing or null, the string sent otherwise. */
  predicate Carried(col: Option<string>, f: Field<string>) {
    (col.None? <==> !f.Present?) && (col.Some? ==> col.value == f.value)
  }

  /** The row values for the signed-in `owner`: absent optional fields become
      null and `pos_enabled` defaults to true. */
  function Values(p: Payload, owner: UserId): (v: CafeValues)
    requires Valid(p)
    ensures v.ownerId == owner && v.name == p.name.value && v.slug == p.slug.value
    ensures v.posEnabled == (p.posEnabled.Absent? || p.posEnabled.value)
    ensures Carried(v.address, p.address) && Carried(v.city, p.city) && Carried(v.country, p.country)
    ensures Carried(v.phone, p.phone) && Carried(v.timezone, p.timezone) && Carried(v.openingHours, p.openingHours)
  {
    CafeValues(p.name.value, p.slug.value, owner, StrValue(p.address), StrValue(p.city),
               StrValue(p.country), StrValue(p.phone), StrValue(p.timezone), StrValue(p.openingHours),
               if p.posEnabled.Present? then p.posEnabled.value else DefaultPosEnabled)
  }

  datatype OnboardError = Invalid | NotAuthenticated | AlreadyHasCafe | StoreRejected(cause: DbError)

  /** The action's result: five columns of the new cafe. */
  datatype Created = Created(id: nat, name: string, slug: string, ownerId: UserId, createdAt: Time)

  /** What a successful completion leaves behind: one cafe for `owner` appended
      under the next id, the owner marked as onboarded, everything else as it was. */
  predicate Onboarded(st: Store, owner: UserId, c: Created, st': Store) {
    && CafeOfOwner(st, owner).None?
    && c.ownerId == owner && c.id == st.nextCafeId
    && |st'.cafes| == |st.cafes| + 1 && st'.cafes[..|st.cafes|] == st.cafes
    && st'.cafes[|st.cafes|].id == c.id && st'.cafes[|st.cafes|].ownerId == owner
    && st' == MarkOnboarded(st.(cafes := st'.cafes, nextCafeId := st.nextCafeId + 1), owner, st'.cafes[|st.cafes|].createdAt)
  }

  function Complete(p: Payload, session: Option<UserId>, st: Store, now: Time): (r: (Result<Created, OnboardError>, Store))
    ensures r.0 == Failure(Invalid) <==> !Valid(p)
    ensures r.0.Failure? ==> r.1 == st
    ensures r.0.Success? ==> Valid(p) && Authenticated(session) && Onboarded(st, session.value, r.0.value, r.1)
    ensures r.0.Success? ==> r.0.value.name == p.name.value && r.0.value.slug == p.slug.value
  {
    SchemaMeaning(p);
    if !Accepts(p) then (Failure(Invalid), st)
    else if !Authenticated(session) then (Failure(NotAuthenticated), st)
    else if CafeOfOwner(st, session.value).Some? then (Failure(AlreadyHasCafe), st)
    else match InsertCafe(st, Values(p, session.value), now)
      case Failure(err) => (Failure(StoreRejected(err)), st)
      case Success(res) =>
        var c := res.1;
        (Success(Created(c.id, c.name, c.slug, c.ownerId, c.createdAt)), MarkOnboarded(res.0, session.value, now))
  }

  /** The refusals in order: a missing session is reported only for a valid
      body, an existing cafe only for a signed-in user. */
  lemma CompleteRefusals(p: Payload, session: Option<UserId>, st: Store, now: Time)
    ensures var r := Complete(p, session, st, now).0;
      && (r == Failure(NotAuthenticated) <==> Valid(p) && !Authenticated(session))
      && (r == Failure(AlreadyHasCafe) <==>
            Valid(p) && Authenticated(session) && CafeOfOwner(st, session.value).Some?)
  {
    SchemaMeaning(p);
  }

  /** The insert fails only on a value its column cannot take: the schema
      bounds name and slug, but not city, country, phone or timezone, and those
      are refused only when they run past their width with more than spaces. */
  lemma CompleteRejected(p: Payload, session: Option<UserId>, st: Store, now: Time)
    requires Valid(p) && Authenticated(session) && CafeOfOwner(st, session.value).None?
    requires IsInt4(st.nextCafeId)
    ensures Complete(p, session, st, now).0.Failure? <==>
      !AssignableOpt(StrValue(p.city), CityWidth) || !AssignableOpt(StrValue(p.country), CountryWidth)
      || !AssignableOpt(StrValue(p.phone), PhoneWidth) || !AssignableOpt(StrValue(p.timezone), TimezoneWidth)
  {
    SchemaMeaning(p);
  }

  /** The cafe a successful completion stores: the values sent, with the
      timestamps set to `now` and over-wide trailing spaces cut off. Name and
      slug are within their columns already and are stored as sent. */
  lemma CompletedRow(p: Payload, session: Option<UserId>, st: Store, now: Time)
    requires Complete(p, session, st, now).0.Success?
    ensures Valid(p) && Authenticated(session)
    ensures var c := Complete(p, session, st, now).1.cafes[|st.cafes|];
      && c == AssignedCafe(CafeRow(st.nextCafeId, Values(p, session.value), now))
      && c.name == p.name.value && c.slug == p.slug.value
      && c.createdAt == now && c.updatedAt == now
  {
    SchemaMeaning(p);
  }

  /** Onboarding keeps the store consistent. */
  lemma CompleteConsistent(p: Payload, session: Option<UserId>, st: Store, now: Time)
    requires Consistent(st)
    ensures Consistent(Complete(p, session, st, now).1)
  {
    SchemaMeaning(p);
    if Accepts(p) && Authenticated(session) && CafeOfOwner(st, session.value).None? {
      var v := Values(p, session.value);
      if InsertCafe(st, v, now).Success? {
        InsertCafeConsistent(st, v, now);
        MarkOnboardedConsistent(InsertCafe(st, v, now).value.0, session.value, now);
      }
    }
  }

  lemma MarkOnboardedConsistent(st: Store, uid: UserId, now: Time)
    requires Consistent(st)
    ensures Consistent(MarkOnboarded(st, uid, now))
  {
  }

  /** Onboarding is single-use: once it succeeded, a second attempt by the same
      user is refused as "already has a cafe" (or earlier) and changes nothing. */
  lemma CompleteOnce(p: Payload, q: Payload, session: Option<UserId>, st: Store, now: Time, later: Time)
    requires Complete(p, session, st, now).0.Success?
    ensures var st1 := Complete(p, session, st, now).1;
      var second := Complete(q, session, st1, later);
      && second.0.Failure? && second.1 == st1
      && (Valid(q) ==> second.0 == Failure(AlreadyHasCafe))
  {
    var st1 := Complete(p, session, st, now).1;
    var owner := session.value;
    var i := |st.cafes|;
    assert st1.cafes[i].ownerId == owner;
    assert CafeOfOwner(st1, owner).Some?;
    CompleteRefusals(q, session, st1, later);
  }
}
