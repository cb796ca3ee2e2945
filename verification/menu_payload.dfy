/**
 * The three zod schemas for a new menu item: the HTTP route's, the server
 * action's and the client form's. They differ in the name's upper bound, in
 * the slug rule, and in whether description and category admit null; the
 * rest (price, currency, availability, image URL) is shared.
 */
module MenuPayload {
  import opened Common
  import opened Validation
  import ImageUrl
  import Text
  import Schema

  /** A menu-item request body. */
  datatype Payload = Payload(
    name: Field<string>, slug: Field<string>, description: Field<string>,
    price: Field<Number>, currency: Field<string>, available: Field<bool>,
    category: Field<string>, imageUrl: Field<string>)

  /** The rules that differ between the three schemas; the name is always a
      non-empty string, with or without an upper bound. */
  datatype MenuSchema = MenuSchema(
    nameMax: Option<nat>, slug: StrRule, description: StrRule, category: StrRule,
    withDefaults: bool)

  /** The route: name 1..300, slug 1..320 when present, description and
      category nullable, currency defaulting to "EUR" and availability to true. */
  const RouteSchema: MenuSchema := MenuSchema(
    Some(300), StrRule(1, Some(320), true, false),
    StrRule(0, Some(5000), true, true), StrRule(0, Some(120), true, true), true)

  /** The action: as the route, but the slug is any string. */
  const ActionSchema: MenuSchema := RouteSchema.(slug := StrRule(0, None, true, false))

  /** The client form: no upper bound on the name, description and category not
      nullable, no defaults. */
  const ClientSchema: MenuSchema := MenuSchema(
    None, StrRule(0, None, true, false),
    StrRule(0, Some(5000), true, false), StrRule(0, Some(120), true, false), false)

  /** The price is coerced to a number and must not be negative. */
  const PriceRule: NumRule := NumRule(Some(0.0), false, false, false)

  /** The currency is an optional string of at most 10 characters. */
  const CurrencyRule: StrRule := StrRule(0, Some(10), true, false)

  /** The image URL is normalised first; the result must be null, undefined or
      a URL, where `isUrl` is zod's URL check. */
  predicate ImageOk(f: Field<string>, isUrl: string -> bool) {
    var n := ImageUrl.Normalize(f);
    n.None? || isUrl(n.value)
  }

  predicate Accepts(schema: MenuSchema, p: Payload, isUrl: string -> bool) {
    && StrOk(StrRule(1, schema.nameMax, false, false), p.name)
    && StrOk(schema.slug, p.slug)
    && StrOk(schema.description, p.description)
    && NumOk(PriceRule, p.price)
    && StrOk(CurrencyRule, p.currency)
    && BoolOk(true, p.available)
    && StrOk(schema.category, p.category)
    && ImageOk(p.imageUrl, isUrl)
  }

  /** The object zod hands to the handler. */
  datatype Parsed = Parsed(
    name: string, slug: Option<string>, description: Option<string>, price: real,
    currency: Option<string>, available: Option<bool>, category: Option<string>,
    imageUrl: Option<string>)

  function Parse(schema: MenuSchema, p: Payload, isUrl: string -> bool): (r: Option<Parsed>)
    ensures r.Some? <==> Accepts(schema, p, isUrl)
    ensures r.Some? ==> r.value.name == p.name.value && r.value.price >= 0.0
    ensures r.Some? ==> r.value.slug == StrValue(p.slug)
    ensures r.Some? ==> r.value.imageUrl == ImageUrl.Normalize(p.imageUrl)
    ensures r.Some? && schema.withDefaults ==> r.value.currency.Some? && r.value.available.Some?
  {
    if !Accepts(schema, p, isUrl) then None
    else
      var currency := if p.currency.Present? then Some(p.currency.value)
                      else if schema.withDefaults then Some(Schema.DefaultCurrency) else None;
      var available := if p.available.Present? then Some(p.available.value)
                       else if schema.withDefaults then Some(Schema.DefaultAvailable) else None;
      Some(Parsed(p.name.value, StrValue(p.slug), StrValue(p.description),
                  NumValue(PriceRule, p.price).value, currency, available,
                  StrValue(p.category), ImageUrl.Normalize(p.imageUrl)))
  }

  // ---- the three schemas in plain terms ----

  predicate PriceOk(f: Field<Number>) {
    Coerce(f).Finite? && Coerce(f).v >= 0.0
  }

  predicate SharedOk(p: Payload, isUrl: string -> bool) {
    && PriceOk(p.price)
    && (p.currency.Absent? || (p.currency.Present? && |p.currency.value| <= 10))
    && (p.available.Absent? || p.available.Present?)
    && ImageOk(p.imageUrl, isUrl)
  }

  predicate RouteValid(p: Payload, isUrl: string -> bool) {
    && p.name.Present? && 1 <= |p.name.value| <= 300
    && (p.slug.Absent? || (p.slug.Present? && 1 <= |p.slug.value| <= 320))
    && (p.description.Absent? || p.description.Null? || (p.description.Present? && |p.description.value| <= 5000))
    && (p.category.Absent? || p.category.Null? || (p.category.Present? && |p.category.value| <= 120))
    && SharedOk(p, isUrl)
  }

  predicate ActionValid(p: Payload, isUrl: string -> bool) {
    && p.name.Present? && 1 <= |p.name.value| <= 300
    && (p.slug.Absent? || p.slug.Present?)
    && (p.description.Absent? || p.description.Null? || (p.description.Present? && |p.description.value| <= 5000))
    && (p.category.Absent? || p.category.Null? || (p.category.Present? && |p.category.value| <= 120))
    && SharedOk(p, isUrl)
  }

  predicate ClientValid(p: Payload, isUrl: string -> bool) {
    && p.name.Present? && 1 <= |p.name.value|
    && (p.slug.Absent? || p.slug.Present?)
    && (p.description.Absent? || (p.description.Present? && |p.description.value| <= 5000))
    && (p.category.Absent? || (p.category.Present? && |p.category.value| <= 120))
    && SharedOk(p, isUrl)
  }

  lemma RouteSchemaMeaning(p: Payload, isUrl: string -> bool)
    ensures Accepts(RouteSchema, p, isUrl) <==> RouteValid(p, isUrl)
  {
  }

  lemma ActionSchemaMeaning(p: Payload, isUrl: string -> bool)
    ensures Accepts(ActionSchema, p, isUrl) <==> ActionValid(p, isUrl)
  {
  }

  lemma ClientSchemaMeaning(p: Payload, isUrl: string -> bool)
    ensures Accepts(ClientSchema, p, isUrl) <==> ClientValid(p, isUrl)
  {
  }

  /** The route rejects the empty slug; the action accepts it exactly when it
      accepts the same body without a slug. */
  lemma EmptySlug(p: Payload, isUrl: string -> bool)
    requires p.slug == Present("")
    ensures !RouteValid(p, isUrl)
    ensures ActionValid(p, isUrl) <==> ActionValid(p.(slug := Absent), isUrl)
  {
  }

  /** Where the route and the action differ: the route's slug bounds. */
  lemma RouteIsActionWithSlugBounds(p: Payload, isUrl: string -> bool)
    ensures RouteValid(p, isUrl) <==>
      ActionValid(p, isUrl) && (p.slug.Absent? || 1 <= |p.slug.value| <= 320)
  {
  }

  /** A body the client form accepts is accepted by the route only if its name
      fits 300 characters and its slug is absent or 1..320 long; with those, it is. */
  lemma ClientThenRoute(p: Payload, isUrl: string -> bool)
    requires ClientValid(p, isUrl)
    ensures RouteValid(p, isUrl) <==>
      |p.name.value| <= 300 && (p.slug.Absent? || 1 <= |p.slug.value| <= 320)
  {
  }

  /** The client form's default values. */
  const DefaultForm: Payload := Payload(
    Present(""), Present(""), Present(""), Present(Finite(0.0)), Present("EUR"),
    Present(true), Present(""), Present(""))

  /** The defaults fail the client schema only through the empty name; with any
      name of 1..300 characters they pass the client and the action, and still
      fail the route, whose slug rule refuses the default empty slug. */
  lemma DefaultFormOutcome(name: string, isUrl: string -> bool)
    requires 1 <= |name| <= 300
    ensures !ClientValid(DefaultForm, isUrl)
    ensures ClientValid(DefaultForm.(name := Present(name)), isUrl)
    ensures ActionValid(DefaultForm.(name := Present(name)), isUrl)
    ensures !RouteValid(DefaultForm.(name := Present(name)), isUrl)
  {
    DefaultNameMissing(isUrl);
    DefaultFormNamed(name, isUrl);
  }

  lemma DefaultNameMissing(isUrl: string -> bool)
    ensures !ClientValid(DefaultForm, isUrl)
  {
  }

  lemma DefaultFormNamed(name: string, isUrl: string -> bool)
    requires 1 <= |name| <= 300
    ensures ClientValid(DefaultForm.(name := Present(name)), isUrl)
    ensures ActionValid(DefaultForm.(name := Present(name)), isUrl)
    ensures !RouteValid(DefaultForm.(name := Present(name)), isUrl)
  {
    DefaultFormShared(name, isUrl);
  }

  lemma DefaultFormShared(name: string, isUrl: string -> bool)
    ensures SharedOk(DefaultForm.(name := Present(name)), isUrl)
  {
    EmptyImageOk(isUrl);
  }

  /** An empty image URL field normalises to no URL, which every schema accepts. */
  lemma EmptyImageOk(isUrl: string -> bool)
    ensures ImageOk(Present(""), isUrl)
  {
    assert Text.Trim("") == "";
  }

  /** What a route-valid body puts into the row fits the menu-item columns. */
  lemma RouteValidFits(p: Payload, isUrl: string -> bool)
    requires RouteValid(p, isUrl)
    ensures |p.name.value| <= Schema.ItemNameWidth
    ensures p.currency.Present? ==> |p.currency.value| <= Schema.CurrencyWidth
    ensures |Schema.DefaultCurrency| <= Schema.CurrencyWidth
    ensures p.category.Present? ==> |p.category.value| <= Schema.CategoryWidth
  {
  }
}
