/**
 * Creating a menu item. The HTTP route and the server action run the same
 * steps in the same order and differ only in their schema and in how they
 * report failure:
 *   1. validate the body, 2. require a signed-in user, 3. find the user's
 *   cafe (the first row with that owner), 4. derive the base slug,
 *   5. allocate a slug not yet used in that cafe, 6. convert the price to
 *   cents, 7. insert the row with the defaults filled in.
 * The first failing step decides the outcome, and nothing is written unless
 * the insert succeeds.
 */
module MenuCreate {
  import opened Common
  import opened Validation
  import opened Schema
  import opened Store
  import Slug
  import SlugAllocator
  import MenuPayload
  import ImageUrl

  datatype Entry = Route | Action

  function SchemaOf(e: Entry): MenuPayload.MenuSchema {
    match e
    case Route => MenuPayload.RouteSchema
    case Action => MenuPayload.ActionSchema
  }

  predicate Valid(e: Entry, p: MenuPayload.Payload, isUrl: string -> bool) {
    match e
    case Route => MenuPayload.RouteValid(p, isUrl)
    case Action => MenuPayload.ActionValid(p, isUrl)
  }

  datatype CreateError = Invalid | NotAuthenticated | NoCafe | SlugExhausted | StoreRejected(cause: DbError)

  /** The price in cents, rounded to the nearest cent with halves rounding up. */
  function ToCents(price: real): (c: int)
    ensures price * 100.0 - 0.5 < c as real <= price * 100.0 + 0.5
    ensures price >= 0.0 ==> c >= 0
  {
    (price * 100.0 + 0.5).Floor
  }

  /** A price with at most two decimals survives the trip to cents and back
      (cents divided by 100). */
  lemma CentsRoundTrip(price: real)
    requires IsInteger(price * 100.0)
    ensures ToCents(price) as real / 100.0 == price
  {
    var n := (price * 100.0).Floor;
    assert n as real == price * 100.0;
    assert (price * 100.0 + 0.5).Floor == n;
  }

  /** The row values the handler builds from a parsed body, with the base slug
      in place of the slug still to be allocated. */
  function Values(cafeId: nat, parsed: MenuPayload.Parsed, now: Slug.Millis): (v: MenuItemValues)
    ensures v.cafeId == cafeId && v.name == parsed.name
    ensures v.slug == Slug.BaseSlug(parsed.slug, parsed.name, now)
    ensures v.currency == (if parsed.currency.Some? then parsed.currency.value else DefaultCurrency)
    ensures v.available == (parsed.available.None? || parsed.available.value)
  {
    MenuItemValues(cafeId, parsed.name, Slug.BaseSlug(parsed.slug, parsed.name, now), parsed.description,
                   ToCents(parsed.price), OrElse(parsed.currency, DefaultCurrency),
                   OrElse(parsed.available, DefaultAvailable), parsed.category, parsed.imageUrl)
  }

  /** Steps 1 to 3: the parsed body, the signed-in user and that user's cafe, or
      the first of the three checks that fails. */
  function Admit(e: Entry, p: MenuPayload.Payload, session: Option<UserId>, st: Store,
                 isUrl: string -> bool): (r: Result<(MenuPayload.Parsed, Cafe), CreateError>)
    ensures r == Failure(Invalid) <==> !Valid(e, p, isUrl)
    ensures r == Failure(NotAuthenticated) <==> Valid(e, p, isUrl) && !Authenticated(session)
    ensures r == Failure(NoCafe) <==>
      Valid(e, p, isUrl) && Authenticated(session) && CafeOfOwner(st, session.value).None?
    ensures r.Failure? ==> r.error in {Invalid, NotAuthenticated, NoCafe}
    ensures r.Success? ==>
      && Valid(e, p, isUrl) && Authenticated(session)
      && MenuPayload.Parse(SchemaOf(e), p, isUrl) == Some(r.value.0)
      && CafeOfOwner(st, session.value) == Some(r.value.1)
  {
    MenuPayload.RouteSchemaMeaning(p, isUrl);
    MenuPayload.ActionSchemaMeaning(p, isUrl);
    match MenuPayload.Parse(SchemaOf(e), p, isUrl)
    case None => Failure(Invalid)
    case Some(parsed) =>
      if !Authenticated(session) then Failure(NotAuthenticated)
      else match CafeOfOwner(st, session.value)
        case None => Failure(NoCafe)
        case Some(cafe) => Success((parsed, cafe))
  }

  /** The outcome of a successful create: `item` was appended to `st` under the
      next id, in cafe `cafeId`, with a slug that cafe did not use, drawn from the
      slug alphabet and at most 203 characters long, and with every value
      within its column. */
  predicate Appended(st: Store, cafeId: nat, item: MenuItem, st': Store) {
    && item.cafeId == cafeId
    && item.slug !in SlugsOfCafe(st, cafeId)
    && Slug.AllSlugChars(item.slug) && 0 < |item.slug| <= Slug.MaxSlugifyLength + 3
    && item.id == st.nextMenuItemId && MenuItemFits(item)
    && st' == st.(menuItems := st.menuItems + [item], nextMenuItemId := st.nextMenuItemId + 1)
  }

  lemma AppendedConsistent(st: Store, cafeId: nat, item: MenuItem, st': Store)
    requires Consistent(st) && Appended(st, cafeId, item, st')
    ensures Consistent(st')
  {
    AppendMenuItemConsistent(st, item);
  }

  /** Steps 5 and 7: allocate a slug from the base slug `v.slug`, then insert
      the row with that slug. */
  function Place(v: MenuItemValues, st: Store, now: Slug.Millis): (r: (Result<MenuItem, CreateError>, Store))
    requires Slug.IsSlug(v.slug) && v.slug != ""
    ensures r.0.Failure? ==> r.1 == st && r.0.error != Invalid && r.0.error != NotAuthenticated && r.0.error != NoCafe
    ensures r.0 == Failure(SlugExhausted) <==> SlugAllocator.Allocate(v.slug, SlugsOfCafe(st, v.cafeId)).Failure?
    ensures r.0.Success? ==>
      var item := r.0.value;
      && item.slug == SlugAllocator.Allocate(v.slug, SlugsOfCafe(st, v.cafeId)).value
      && MenuItemAssignable(MenuItemRow(st.nextMenuItemId, v.(slug := item.slug), now))
      && item == AssignedMenuItem(MenuItemRow(st.nextMenuItemId, v.(slug := item.slug), now))
      && Appended(st, v.cafeId, item, r.1)
  {
    var taken := SlugsOfCafe(st, v.cafeId);
    match SlugAllocator.Allocate(v.slug, taken)
    case Failure(_) => (Failure(SlugExhausted), st)
    case Success(slug) =>
      SlugAllocator.AllocatedLength(v.slug, taken);
      SlugAllocator.AllocatedSlugChars(v.slug, taken);
      match InsertMenuItem(st, v.(slug := slug), now)
      case Failure(err) => (Failure(StoreRejected(err)), st)
      case Success(res) => (Success(res.1), res.0)
  }

  /** The whole handler: the outcome and the store afterwards. `now` stands for
      both `Date.now()` and the database's `now()`. */
  function Create(e: Entry, p: MenuPayload.Payload, session: Option<UserId>, st: Store,
                  now: Slug.Millis, isUrl: string -> bool): (r: (Result<MenuItem, CreateError>, Store))
    ensures r.0 == Failure(Invalid) <==> !Valid(e, p, isUrl)
    ensures Admit(e, p, session, st, isUrl).Failure? ==> r.0 == Failure(Admit(e, p, session, st, isUrl).error)
    ensures r.0.Failure? && r.0.error in {NotAuthenticated, NoCafe} ==> Admit(e, p, session, st, isUrl).Failure?
    ensures r.0.Failure? ==> r.1 == st
    ensures r.0.Success? ==> Valid(e, p, isUrl) && Authenticated(session) && CafeOfOwner(st, session.value).Some?
    ensures r.0.Success? ==>
      Appended(st, CafeOfOwner(st, session.value).value.id, r.0.value, r.1) && r.0.value.name == p.name.value
  {
    match Admit(e, p, session, st, isUrl)
    case Failure(err) => (Failure(err), st)
    case Success(ok) => Place(Values(ok.1.id, ok.0, now), st, now)
  }

  /** The checks run in order and the first failing one decides: an invalid
      body is reported even without a session, a missing session even for a
      user without a cafe. */
  lemma CreateRefusals(e: Entry, p: MenuPayload.Payload, session: Option<UserId>, st: Store,
                       now: Slug.Millis, isUrl: string -> bool)
    ensures var r := Create(e, p, session, st, now, isUrl).0;
      && (r == Failure(NotAuthenticated) <==> Valid(e, p, isUrl) && !Authenticated(session))
      && (r == Failure(NoCafe) <==>
            Valid(e, p, isUrl) && Authenticated(session) && CafeOfOwner(st, session.value).None?)
  {
    var a := Admit(e, p, session, st, isUrl);
  }

  /** What the inserted row holds besides its slug: the description and
      category sent (null when missing or null), the defaults the handler fills
      in for absent fields, and a price in cents that is never negative. */
  lemma CreatedRow(e: Entry, p: MenuPayload.Payload, session: Option<UserId>, st: Store,
                   now: Slug.Millis, isUrl: string -> bool)
    requires Create(e, p, session, st, now, isUrl).0.Success?
    ensures var item := Create(e, p, session, st, now, isUrl).0.value;
      && item.priceCents == ToCents(Coerce(p.price).v) && item.priceCents >= 0
      && item.currency == (if p.currency.Present? then p.currency.value else DefaultCurrency)
      && item.available == (p.available.Absent? || p.available.value)
      && item.description == StrValue(p.description) && item.category == StrValue(p.category)
      && item.imageUrl == ImageUrl.Normalize(p.imageUrl)
  {
    var ok := Admit(e, p, session, st, isUrl).value;
    MenuPayload.RouteSchemaMeaning(p, isUrl);
    MenuPayload.ActionSchemaMeaning(p, isUrl);
  }

  /** The stored slug is the first of base, base-1 … base-50 that the cafe does
      not use yet, where the base is the slug sent, or else the name, put
      through slugify, with the clock as the last resort. */
  lemma CreatedSlug(e: Entry, p: MenuPayload.Payload, session: Option<UserId>, st: Store,
                    now: Slug.Millis, isUrl: string -> bool)
    requires Create(e, p, session, st, now, isUrl).0.Success?
    ensures Valid(e, p, isUrl) && Authenticated(session) && CafeOfOwner(st, session.value).Some?
    ensures var base := Slug.BaseSlug(StrValue(p.slug), p.name.value, now);
      var taken := SlugsOfCafe(st, CafeOfOwner(st, session.value).value.id);
      && SlugAllocator.Allocate(base, taken).Success?
      && Create(e, p, session, st, now, isUrl).0.value.slug == SlugAllocator.Allocate(base, taken).value
  {
    var ok := Admit(e, p, session, st, isUrl).value;
  }

  /** The slug allocator fails only when the base and all fifty suffixed
      candidates are used in the cafe. */
  lemma ExhaustedMeansAllTaken(e: Entry, p: MenuPayload.Payload, session: Option<UserId>, st: Store,
                               now: Slug.Millis, isUrl: string -> bool)
    requires Create(e, p, session, st, now, isUrl).0 == Failure(SlugExhausted)
    ensures Valid(e, p, isUrl) && Authenticated(session) && CafeOfOwner(st, session.value).Some?
    ensures var base := Slug.BaseSlug(StrValue(p.slug), p.name.value, now);
      forall k :: 0 <= k <= SlugAllocator.MaxCounter ==>
        SlugAllocator.Candidate(base, k) in SlugsOfCafe(st, CafeOfOwner(st, session.value).value.id)
  {
    var ok := Admit(e, p, session, st, isUrl).value;
  }

  /** A successful create keeps the store consistent. */
  lemma CreateConsistent(e: Entry, p: MenuPayload.Payload, session: Option<UserId>, st: Store,
                         now: Slug.Millis, isUrl: string -> bool)
    requires Consistent(st)
    ensures Consistent(Create(e, p, session, st, now, isUrl).1)
  {
    var r := Create(e, p, session, st, now, isUrl);
    if r.0.Success? {
      AppendedConsistent(st, CafeOfOwner(st, session.value).value.id, r.0.value, r.1);
    }
  }

  /** Creates keep slugs unique within each cafe: the allocator only hands out
      slugs the cafe does not use yet. */
  lemma CreateKeepsSlugsUnique(e: Entry, p: MenuPayload.Payload, session: Option<UserId>,
                                                  st: Store, now: Slug.Millis, isUrl: string -> bool)
    requires SlugsUniquePerCafe(st.menuItems)
    ensures SlugsUniquePerCafe(Create(e, p, session, st, now, isUrl).1.menuItems)
  {
    var r := Create(e, p, session, st, now, isUrl);
    if r.0.Success? {
      AppendFreshSlugKeepsUnique(st, r.0.value);
    }
  }

  /** With no slug, or a slug of 1..320 characters, the route and the action
      behave identically. */
  lemma RouteAndActionAgree(p: MenuPayload.Payload, session: Option<UserId>, st: Store,
                            now: Slug.Millis, isUrl: string -> bool)
    requires p.slug.Absent? || (p.slug.Present? && 1 <= |p.slug.value| <= 320)
    ensures Create(Route, p, session, st, now, isUrl) == Create(Action, p, session, st, now, isUrl)
  {
    MenuPayload.RouteIsActionWithSlugBounds(p, isUrl);
    MenuPayload.RouteSchemaMeaning(p, isUrl);
    MenuPayload.ActionSchemaMeaning(p, isUrl);
  }

  /** An empty slug: the route answers with a validation error, the action
      treats it as if no slug had been sent and derives the slug from the name. */
  lemma EmptySlugEntryPoints(p: MenuPayload.Payload, session: Option<UserId>, st: Store,
                             now: Slug.Millis, isUrl: string -> bool)
    requires p.slug == Present("")
    ensures Create(Route, p, session, st, now, isUrl).0 == Failure(Invalid)
    ensures Create(Action, p, session, st, now, isUrl) == Create(Action, p.(slug := Absent), session, st, now, isUrl)
  {
    MenuPayload.EmptySlug(p, isUrl);
    var a := Admit(Action, p, session, st, isUrl);
    AdmitEmptySlug(p, session, st, isUrl);
    if a.Success? {
      var parsed := a.value.0;
      assert Slug.SlugSource(parsed.slug, parsed.name) == Slug.SlugSource(None, parsed.name);
      assert Values(a.value.1.id, parsed, now) == Values(a.value.1.id, parsed.(slug := None), now);
    }
  }

  lemma AdmitEmptySlug(p: MenuPayload.Payload, session: Option<UserId>, st: Store, isUrl: string -> bool)
    requires p.slug == Present("")
    ensures var a := Admit(Action, p, session, st, isUrl);
      var b := Admit(Action, p.(slug := Absent), session, st, isUrl);
      && (a.Failure? ==> b == a)
      && (a.Success? ==> b == Success((a.value.0.(slug := None), a.value.1)))
  {
    MenuPayload.EmptySlug(p, isUrl);
    MenuPayload.ActionSchemaMeaning(p, isUrl);
    MenuPayload.ActionSchemaMeaning(p.(slug := Absent), isUrl);
  }

  /** Submitting the same item twice gives the second row a different slug in
      the same cafe (or fails): the first slug is now taken. */
  lemma RepeatCreateNewSlug(e: Entry, p: MenuPayload.Payload, session: Option<UserId>, st: Store,
                            now: Slug.Millis, isUrl: string -> bool)
    requires Create(e, p, session, st, now, isUrl).0.Success?
    ensures var first := Create(e, p, session, st, now, isUrl);
      var second := Create(e, p, session, first.1, now, isUrl);
      second.0.Success? ==>
        second.0.value.cafeId == first.0.value.cafeId && second.0.value.slug != first.0.value.slug
  {
    var first := Create(e, p, session, st, now, isUrl);
    var item := first.0.value;
    var st1 := first.1;
    assert st1.cafes == st.cafes;
    assert CafeOfOwner(st1, session.value) == CafeOfOwner(st, session.value);
    assert st1.menuItems[|st.menuItems|] == item;
    assert item.slug in SlugsOfCafe(st1, item.cafeId);
  }

  /** When the cafe used neither the base nor base-1, the first of two identical
      creates gets the base and the second base-1. */
  lemma RepeatCreateNextCandidate(e: Entry, p: MenuPayload.Payload, session: Option<UserId>, st: Store,
                                  now: Slug.Millis, isUrl: string -> bool)
    requires Create(e, p, session, st, now, isUrl).0.Success?
    ensures var first := Create(e, p, session, st, now, isUrl);
      var second := Create(e, p, session, first.1, now, isUrl);
      var base := Slug.BaseSlug(StrValue(p.slug), p.name.value, now);
      var taken := SlugsOfCafe(st, first.0.value.cafeId);
      base !in taken && SlugAllocator.Candidate(base, 1) !in taken ==>
        first.0.value.slug == base && (second.0.Success? ==> second.0.value.slug == SlugAllocator.Candidate(base, 1))
  {
    var first := Create(e, p, session, st, now, isUrl);
    var item := first.0.value;
    var st1 := first.1;
    var base := Slug.BaseSlug(StrValue(p.slug), p.name.value, now);
    var taken := SlugsOfCafe(st, item.cafeId);
    CreatedSlug(e, p, session, st, now, isUrl);
    if base !in taken && SlugAllocator.Candidate(base, 1) !in taken {
      SlugAllocator.AllocateFreeBase(base, taken);
      assert CafeOfOwner(st1, session.value) == CafeOfOwner(st, session.value) by {
        assert st1.cafes == st.cafes;
      }
      if Create(e, p, session, st1, now, isUrl).0.Success? {
        CreatedSlug(e, p, session, st1, now, isUrl);
        AppendedSlugs(st, item);
        SlugAllocator.AllocateAfterBase(base, taken);
      }
    }
  }

  // ---- replies ----

  /** The item both entry points return: the stored row with the price back in
      currency units (cents divided by 100) and without the description. */
  datatype ItemView = ItemView(
    id: nat, name: string, slug: string, price: real, currency: string, available: bool,
    category: Option<string>, imageUrl: Option<string>, createdAt: Time)

  function View(m: MenuItem): (v: ItemView)
    ensures v.price * 100.0 == m.priceCents as real
    ensures v.id == m.id && v.slug == m.slug && v.name == m.name
  {
    ItemView(m.id, m.name, m.slug, m.priceCents as real / 100.0, m.currency, m.available,
             m.category, m.imageUrl, m.createdAt)
  }

  /** The error text of a failed reply: a fixed code, or the database driver's
      own message for a rejected insert. */
  datatype ErrorText = Code(code: string) | DriverMessage(cause: DbError)

  /** The route's JSON reply: `{ ok: true, item }` with status 200, or
      `{ ok: false, error }` with a status. */
  datatype RouteReply = Ok(item: ItemView) | Err(status: nat, error: ErrorText)

  function ReplyOf(r: Result<MenuItem, CreateError>): (reply: RouteReply)
    ensures reply.Ok? <==> r.Success?
    ensures reply.Ok? ==> reply.item == View(r.value)
    ensures reply.Err? ==> reply.status in {400, 401, 500}
    ensures reply.Err? && reply.status == 401 <==> r == Failure(NotAuthenticated)
    ensures reply.Err? && reply.status == 400 <==> r == Failure(Invalid) || r == Failure(NoCafe)
    ensures reply.Err? && reply.status == 500 <==> r.Failure? && (r.error == SlugExhausted || r.error.StoreRejected?)
  {
    match r
    case Success(m) => Ok(View(m))
    case Failure(Invalid) => Err(400, Code("validation"))
    case Failure(NotAuthenticated) => Err(401, Code("not_authenticated"))
    case Failure(NoCafe) => Err(400, Code("no_cafe"))
    case Failure(SlugExhausted) => Err(500, Code("failed_to_generate_unique_slug"))
    case Failure(StoreRejected(err)) => Err(500, DriverMessage(err))
  }

  /** The server action returns the item or throws: the zod error for an
      invalid body, a fixed message for the other refusals, the driver's error
      for a rejected insert. */
  datatype Thrown = ValidationError | Message(text: string) | Driver(cause: DbError)

  function ActionOutcome(r: Result<MenuItem, CreateError>): (o: Result<ItemView, Thrown>)
    ensures o.Success? <==> r.Success?
    ensures o.Success? ==> o.value == View(r.value)
    ensures o == Failure(ValidationError) <==> r == Failure(Invalid)
    ensures o.Failure? && o.error.Driver? <==> r.Failure? && r.error.StoreRejected?
  {
    match r
    case Success(m) => Success(View(m))
    case Failure(Invalid) => Failure(ValidationError)
    case Failure(NotAuthenticated) => Failure(Message("Not authenticated"))
    case Failure(NoCafe) => Failure(Message("No cafe found for current user. Create a cafe first."))
    case Failure(SlugExhausted) => Failure(Message("Failed to generate unique slug"))
    case Failure(StoreRejected(err)) => Failure(Driver(err))
  }

  /** Each refusal has its own reply at either entry point, so a caller can
      tell them apart. */
  lemma RepliesIdentifyRefusal(a: CreateError, b: CreateError)
    ensures ReplyOf(Failure(a)) == ReplyOf(Failure(b)) <==> a == b
    ensures ActionOutcome(Failure(a)) == ActionOutcome(Failure(b)) <==> a == b
  {
  }

  /** A price with at most two decimals comes back unchanged in the reply. */
  lemma ReplyPrice(item: MenuItem, price: real)
    requires item.priceCents == ToCents(price)
    requires IsInteger(price * 100.0)
    ensures View(item).price == price
  {
    CentsRoundTrip(price);
  }
}
