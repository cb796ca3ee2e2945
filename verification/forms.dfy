/**
 * The client-side schema of the "add ingredient" form. Cost is a number the
 * browser coerces; the form posts the parsed values as JSON.
 */
module IngredientForm {
  import opened Common
  import opened Validation
  import Schema

  datatype Payload = Payload(
    name: Field<string>, quantity: Field<string>, unit: Field<string>,
    cost: Field<Number>, allergen: Field<bool>, notes: Field<string>)

  const NameRule: StrRule := StrRule(1, None, false, false)
  const QuantityRule: StrRule := StrRule(0, Some(100), true, true)
  const UnitRule: StrRule := StrRule(0, Some(50), true, true)
  const CostRule: NumRule := NumRule(Some(0.0), false, true, false)
  const NotesRule: StrRule := StrRule(0, Some(2000), true, true)

  predicate Accepts(p: Payload) {
    && StrOk(NameRule, p.name) && StrOk(QuantityRule, p.quantity) && StrOk(UnitRule, p.unit)
    && NumOk(CostRule, p.cost) && BoolOk(true, p.allergen) && StrOk(NotesRule, p.notes)
  }

  /** The schema in plain terms. */
  predicate Valid(p: Payload) {
    && p.name.Present? && |p.name.value| >= 1
    && (p.quantity.Absent? || p.quantity.Null? || (p.quantity.Present? && |p.quantity.value| <= 100))
    && (p.unit.Absent? || p.unit.Null? || (p.unit.Present? && |p.unit.value| <= 50))
    && (p.cost.Absent? || p.cost.Null? || (Coerce(p.cost).Finite? && Coerce(p.cost).v >= 0.0))
    && (p.allergen.Absent? || p.allergen.Present?)
    && (p.notes.Absent? || p.notes.Null? || (p.notes.Present? && |p.notes.value| <= 2000))
  }

  lemma SchemaMeaning(p: Payload)
    ensures Accepts(p) <==> Valid(p)
  {
  }

  datatype Values = Values(
    name: string, quantity: Option<string>, unit: Option<string>, cost: Option<real>,
    allergen: bool, notes: Option<string>)

  function Parse(p: Payload): (r: Option<Values>)
    ensures r.Some? <==> Valid(p)
    ensures r.Some? ==> r.value.name == p.name.value && |r.value.name| >= 1
    ensures r.Some? ==> r.value.cost.None? || r.value.cost.value >= 0.0
    ensures r.Some? ==> (r.value.allergen <==> p.allergen.Present? && p.allergen.value)
    ensures r.Some? ==> Schema.Within(r.value.quantity, Schema.QuantityWidth) && Schema.Within(r.value.unit, Schema.UnitWidth)
  {
    SchemaMeaning(p);
    if !Accepts(p) then None
    else Some(Values(p.name.value, StrValue(p.quantity), StrValue(p.unit), NumValue(CostRule, p.cost),
                     if p.allergen.Present? then p.allergen.value else Schema.DefaultAllergen,
                     StrValue(p.notes)))
  }

  /** A cost below zero is refused; leaving it out is not. */
  lemma NegativeCostRejected(p: Payload)
    requires Coerce(p.cost).Finite? && Coerce(p.cost).v < 0.0
    ensures !Valid(p)
    ensures Valid(p.(cost := Absent)) <==> Valid(p.(cost := Present(Finite(0.0))))
  {
  }

  /** The form's default values. */
  const DefaultForm: Payload := Payload(
    Present(""), Present(""), Present(""), Present(Finite(0.0)), Present(false), Present(""))

  /** The defaults are refused only for their empty name; with a name they parse
      to cost 0 and no allergen. */
  lemma DefaultFormOutcome(name: string)
    requires |name| >= 1
    ensures !Valid(DefaultForm)
    ensures Parse(DefaultForm.(name := Present(name))) ==
      Some(Values(name, Some(""), Some(""), Some(0.0), false, Some("")))
  {
  }
}

/**
 * The client-side schema of the "add supplier" form, with its website
 * transform and URL refinement.
 */
module SupplierForm {
  import opened Common
  import opened Validation
  import Schema
  import SupplierWebsite

  datatype Payload = Payload(
    name: Field<string>, contact: Field<string>, website: Field<string>,
    unitPrice: Field<Number>, unit: Field<string>, leadTimeDays: Field<Number>,
    preferred: Field<bool>, notes: Field<string>)

  const NameRule: StrRule := StrRule(1, None, false, false)
  const ContactRule: StrRule := StrRule(0, Some(300), true, true)
  const WebsiteRule: StrRule := StrRule(0, None, true, true)
  const UnitPriceRule: NumRule := NumRule(Some(0.0), false, true, false)
  const UnitRule: StrRule := StrRule(0, Some(50), true, true)
  const LeadTimeRule: NumRule := NumRule(Some(0.0), true, true, true)
  const NotesRule: StrRule := StrRule(0, Some(2000), true, true)

  /** The website after the transform: null for a falsy value, else a URL with
      an http(s) scheme. */
  function Website(f: Field<string>): (r: Option<string>)
    ensures r.None? <==> !Truthy(f) || f.Mistyped?
    ensures r.Some? ==> SupplierWebsite.HasHttpScheme(r.value)
  {
    if f.Present? then SupplierWebsite.Normalize(Some(f.value)) else None
  }

  /** The refinement: a null website passes, anything else must parse as a URL
      (`isUrl` stands for `new URL` succeeding). */
  predicate WebsiteOk(f: Field<string>, isUrl: string -> bool) {
    StrOk(WebsiteRule, f) && (Website(f).None? || isUrl(Website(f).value))
  }

  predicate Accepts(p: Payload, isUrl: string -> bool) {
    && StrOk(NameRule, p.name) && StrOk(ContactRule, p.contact) && WebsiteOk(p.website, isUrl)
    && NumOk(UnitPriceRule, p.unitPrice) && StrOk(UnitRule, p.unit)
    && NumOk(LeadTimeRule, p.leadTimeDays) && BoolOk(true, p.preferred) && StrOk(NotesRule, p.notes)
  }

  /** The schema in plain terms. */
  predicate Valid(p: Payload, isUrl: string -> bool) {
    && p.name.Present? && |p.name.value| >= 1
    && (p.contact.Absent? || p.contact.Null? || (p.contact.Present? && |p.contact.value| <= 300))
    && (p.website.Absent? || p.website.Null? || p.website == Present("")
        || (p.website.Present? && isUrl(SupplierWebsite.Normalize(Some(p.website.value)).value)))
    && (p.unitPrice.Absent? || (Coerce(p.unitPrice).Finite? && Coerce(p.unitPrice).v >= 0.0))
    && (p.unit.Absent? || p.unit.Null? || (p.unit.Present? && |p.unit.value| <= 50))
    && (p.leadTimeDays.Absent? || p.leadTimeDays.Null?
        || (Coerce(p.leadTimeDays).Finite? && IsInteger(Coerce(p.leadTimeDays).v) && Coerce(p.leadTimeDays).v >= 0.0))
    && (p.preferred.Absent? || p.preferred.Present?)
    && (p.notes.Absent? || p.notes.Null? || (p.notes.Present? && |p.notes.value| <= 2000))
  }

  lemma SchemaMeaning(p: Payload, isUrl: string -> bool)
    ensures Accepts(p, isUrl) <==> Valid(p, isUrl)
  {
  }

  datatype Values = Values(
    name: string, contact: Option<string>, website: Option<string>, unitPrice: Option<real>,
    unit: Option<string>, leadTimeDays: Option<int>, preferred: Option<bool>, notes: Option<string>)

  function Parse(p: Payload, isUrl: string -> bool): (r: Option<Values>)
    ensures r.Some? <==> Valid(p, isUrl)
    ensures r.Some? ==> r.value.name == p.name.value
    ensures r.Some? ==> r.value.unitPrice.None? || r.value.unitPrice.value >= 0.0
    ensures r.Some? ==> r.value.leadTimeDays.None? || r.value.leadTimeDays.value >= 0
    ensures r.Some? ==> r.value.website == Website(p.website)
    ensures r.Some? ==> Schema.Within(r.value.contact, Schema.ContactWidth) && Schema.Within(r.value.unit, Schema.UnitWidth)
  {
    SchemaMeaning(p, isUrl);
    if !Accepts(p, isUrl) then None
    else
      var lead := NumValue(LeadTimeRule, p.leadTimeDays);
      Some(Values(p.name.value, StrValue(p.contact), Website(p.website), NumValue(UnitPriceRule, p.unitPrice),
                  StrValue(p.unit), if lead.Some? then Some(lead.value.Floor) else None,
                  if p.preferred.Present? then Some(p.preferred.value) else None, StrValue(p.notes)))
  }

  /** A negative unit price and a fractional or negative lead time are refused. */
  lemma NumbersRejected(p: Payload, isUrl: string -> bool)
    ensures Coerce(p.unitPrice).Finite? && Coerce(p.unitPrice).v < 0.0 ==> !Valid(p, isUrl)
    ensures p.leadTimeDays.Present? && p.leadTimeDays.value.Finite? ==>
      (!IsInteger(p.leadTimeDays.value.v) || p.leadTimeDays.value.v < 0.0) ==> !Valid(p, isUrl)
  {
  }

  /** A whole lead time comes through as that integer. */
  lemma LeadTimeValue(p: Payload, isUrl: string -> bool, days: nat)
    requires Valid(p, isUrl) && p.leadTimeDays == Present(Finite(days as real))
    ensures Parse(p, isUrl).value.leadTimeDays == Some(days)
  {
  }

  /** The form's default values. */
  const DefaultForm: Payload := Payload(
    Present(""), Present(""), Present(""), Present(Finite(0.0)), Present(""),
    Present(Finite(0.0)), Present(false), Present(""))

  /** The defaults are refused only for their empty name; with a name they parse
      with no website, price 0 and lead time 0, whatever `isUrl` says. */
  lemma DefaultFormOutcome(name: string, isUrl: string -> bool)
    requires |name| >= 1
    ensures !Valid(DefaultForm, isUrl)
    ensures Parse(DefaultForm.(name := Present(name)), isUrl) ==
      Some(Values(name, Some(""), None, Some(0.0), Some(""), Some(0), Some(false), Some("")))
  {
  }
}
