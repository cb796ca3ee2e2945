/**
 * The relational schema: one record type per table the application owns, the
 * width of every bounded column, the column defaults and the 32-bit range of
 * the integer columns. Serial ids are `nat`, the user id is text, money is
 * stored as integer cents, timestamps are clock readings.
 *
 * The authentication tables other than `user` (session, account,
 * verification) belong to the authentication library and are not modelled.
 */
module Schema {
  import opened Common

  type UserId = string
  type Time = nat

  // varchar widths
  const CafeNameWidth: nat := 300
  const CafeSlugWidth: nat := 320
  const CityWidth: nat := 200
  const CountryWidth: nat := 100
  const PhoneWidth: nat := 50
  const TimezoneWidth: nat := 100
  const ItemNameWidth: nat := 300
  const ItemSlugWidth: nat := 320
  const CurrencyWidth: nat := 10
  const CategoryWidth: nat := 120
  const IngredientSlugWidth: nat := 320
  const IngredientNameWidth: nat := 300
  const QuantityWidth: nat := 100
  const UnitWidth: nat := 50
  const SupplierSlugWidth: nat := 320
  const SupplierNameWidth: nat := 300
  const ContactWidth: nat := 300
  const FirstNameWidth: nat := 100
  const LastNameWidth: nat := 100
  const EmailWidth: nat := 200
  const RoleWidth: nat := 50

  // the range of a Postgres `integer` column
  const Int4Min: int := -0x8000_0000
  const Int4Max: int := 0x7FFF_FFFF

  predicate IsInt4(n: int) { Int4Min <= n <= Int4Max }

  // column defaults
  const DefaultHasOnboarded: bool := false
  const DefaultPosEnabled: bool := true
  const DefaultCurrency: string := "EUR"
  const DefaultAvailable: bool := true
  const DefaultAllergen: bool := false
  const DefaultPreferred: bool := false
  const DefaultEmployeeActive: bool := true
  const DefaultCents: int := 0

  datatype User = User(
    id: UserId, name: string, email: string, emailVerified: bool, image: Option<string>,
    createdAt: Time, updatedAt: Time, hasOnboarded: bool)

  /** `owner_id` is unique: at most one cafe per owner. */
  datatype Cafe = Cafe(
    id: nat, name: string, slug: string, ownerId: UserId,
    address: Option<string>, city: Option<string>, country: Option<string>,
    phone: Option<string>, timezone: Option<string>, openingHours: Option<string>,
    posEnabled: bool, createdAt: Time, updatedAt: Time)

  /** `(cafe_id, slug)` carries a plain index, not a unique constraint. */
  datatype MenuItem = MenuItem(
    id: nat, cafeId: nat, name: string, slug: string, description: Option<string>,
    priceCents: int, currency: string, available: bool, category: Option<string>,
    imageUrl: Option<string>, createdAt: Time, updatedAt: Time)

  /** `menuItemSlug` is the column named "slug" in the table. */
  datatype Ingredient = Ingredient(
    id: nat, menuItemId: nat, menuItemSlug: string, name: string,
    quantity: Option<string>, unit: Option<string>, costCents: int, allergen: bool,
    notes: Option<string>, createdAt: Time, updatedAt: Time)

  datatype Supplier = Supplier(
    id: nat, slug: string, ingredientId: nat, name: string, contact: Option<string>,
    website: Option<string>, unitPriceCents: int, unit: Option<string>,
    leadTimeDays: Option<int>, preferred: bool, notes: Option<string>,
    createdAt: Time, updatedAt: Time)

  /** Every column but the id is nullable; no column refers to a cafe. */
  datatype Employee = Employee(
    id: nat, firstName: Option<string>, lastName: Option<string>, email: Option<string>,
    role: Option<string>, active: Option<bool>, createdAt: Option<Time>)

  predicate Within(v: Option<string>, width: nat) {
    v.None? || |v.value| <= width
  }

  /** Serial ids are int4 as well: the sequence stops at `Int4Max`. */
  predicate CafeFits(c: Cafe) {
    && IsInt4(c.id) && |c.name| <= CafeNameWidth && |c.slug| <= CafeSlugWidth
    && Within(c.city, CityWidth) && Within(c.country, CountryWidth)
    && Within(c.phone, PhoneWidth) && Within(c.timezone, TimezoneWidth)
  }

  predicate MenuItemFits(m: MenuItem) {
    && IsInt4(m.id) && IsInt4(m.cafeId) && |m.name| <= ItemNameWidth && |m.slug| <= ItemSlugWidth
    && IsInt4(m.priceCents) && |m.currency| <= CurrencyWidth
    && Within(m.category, CategoryWidth)
  }

  // ---- assignment to a varchar column ----

  /** Whether Postgres accepts `s` for a `varchar(width)` column: it fits, or
      every character past the width is a space. */
  predicate Assignable(s: string, width: nat) {
    |s| <= width || forall i :: width <= i < |s| ==> s[i] == ' '
  }

  /** What the column then holds: `s` itself when it fits, otherwise `s` cut to
      exactly the width, losing only spaces. */
  function Assign(s: string, width: nat): (r: string)
    requires Assignable(s, width)
    ensures |r| <= width && |r| <= |s| && r == s[..|r|]
    ensures |s| <= width ==> r == s
    ensures |s| > width ==> |r| == width
    ensures forall i :: |r| <= i < |s| ==> s[i] == ' '
  {
    if |s| <= width then s else s[..width]
  }

  predicate AssignableOpt(v: Option<string>, width: nat) {
    v.None? || Assignable(v.value, width)
  }

  /** A nullable varchar column: null stays null. */
  function AssignOpt(v: Option<string>, width: nat): (r: Option<string>)
    requires AssignableOpt(v, width)
    ensures Within(r, width)
    ensures r.None? <==> v.None?
    ensures r.Some? ==> r.value == Assign(v.value, width)
  {
    match v
    case None => None
    case Some(s) => Some(Assign(s, width))
  }

  /** Whether an insert of the row gets past the column types: the serial id in
      the int4 range, every varchar value assignable. */
  predicate CafeAssignable(c: Cafe) {
    && IsInt4(c.id) && Assignable(c.name, CafeNameWidth) && Assignable(c.slug, CafeSlugWidth)
    && AssignableOpt(c.city, CityWidth) && AssignableOpt(c.country, CountryWidth)
    && AssignableOpt(c.phone, PhoneWidth) && AssignableOpt(c.timezone, TimezoneWidth)
  }

  /** The row as stored: each varchar value cut to its width, nothing else
      changed. A row that already fits is stored as it is. */
  function AssignedCafe(c: Cafe): (r: Cafe)
    requires CafeAssignable(c)
    ensures CafeFits(r)
    ensures CafeFits(c) <==> r == c
    ensures r == c.(name := r.name, slug := r.slug, city := r.city, country := r.country,
                    phone := r.phone, timezone := r.timezone)
    ensures r.name == Assign(c.name, CafeNameWidth) && r.slug == Assign(c.slug, CafeSlugWidth)
    ensures r.city == AssignOpt(c.city, CityWidth) && r.country == AssignOpt(c.country, CountryWidth)
    ensures r.phone == AssignOpt(c.phone, PhoneWidth) && r.timezone == AssignOpt(c.timezone, TimezoneWidth)
  {
    c.(name := Assign(c.name, CafeNameWidth), slug := Assign(c.slug, CafeSlugWidth),
       city := AssignOpt(c.city, CityWidth), country := AssignOpt(c.country, CountryWidth),
       phone := AssignOpt(c.phone, PhoneWidth), timezone := AssignOpt(c.timezone, TimezoneWidth))
  }

  predicate MenuItemAssignable(m: MenuItem) {
    && IsInt4(m.id) && IsInt4(m.cafeId) && IsInt4(m.priceCents)
    && Assignable(m.name, ItemNameWidth) && Assignable(m.slug, ItemSlugWidth)
    && Assignable(m.currency, CurrencyWidth) && AssignableOpt(m.category, CategoryWidth)
  }

  function AssignedMenuItem(m: MenuItem): (r: MenuItem)
    requires MenuItemAssignable(m)
    ensures MenuItemFits(r)
    ensures MenuItemFits(m) <==> r == m
    ensures r == m.(name := r.name, slug := r.slug, currency := r.currency, category := r.category)
    ensures r.name == Assign(m.name, ItemNameWidth) && r.slug == Assign(m.slug, ItemSlugWidth)
    ensures r.currency == Assign(m.currency, CurrencyWidth) && r.category == AssignOpt(m.category, CategoryWidth)
  {
    m.(name := Assign(m.name, ItemNameWidth), slug := Assign(m.slug, ItemSlugWidth),
       currency := Assign(m.currency, CurrencyWidth), category := AssignOpt(m.category, CategoryWidth))
  }

  /** A value Postgres would cut: "a" followed by a space is stored in a
      `varchar(1)` column as "a", where a plain length check would refuse it. */
  lemma TrailingSpaceCut()
    ensures Assignable("a ", 1) && Assign("a ", 1) == "a"
    ensures !Assignable("ab", 1)
  {
    assert "a "[1] == ' ' && "ab"[1] == 'b';
  }

  predicate IngredientFits(g: Ingredient) {
    && IsInt4(g.menuItemId) && |g.menuItemSlug| <= IngredientSlugWidth
    && |g.name| <= IngredientNameWidth
    && Within(g.quantity, QuantityWidth) && Within(g.unit, UnitWidth)
    && IsInt4(g.costCents)
  }

  predicate SupplierFits(s: Supplier) {
    && |s.slug| <= SupplierSlugWidth && IsInt4(s.ingredientId)
    && |s.name| <= SupplierNameWidth && Within(s.contact, ContactWidth)
    && IsInt4(s.unitPriceCents) && Within(s.unit, UnitWidth)
    && (s.leadTimeDays.None? || IsInt4(s.leadTimeDays.value))
  }

  predicate EmployeeFits(e: Employee) {
    && Within(e.firstName, FirstNameWidth) && Within(e.lastName, LastNameWidth)
    && Within(e.email, EmailWidth) && Within(e.role, RoleWidth)
  }

  /** An ingredient row as the table fills it when only its required columns
      are given: cost 0 cents, not an allergen, no quantity, unit or notes. */
  function IngredientDefaults(id: nat, menuItemId: nat, menuItemSlug: string, name: string, now: Time): (g: Ingredient)
    ensures g.costCents == 0 && !g.allergen
    ensures g.quantity.None? && g.unit.None? && g.notes.None?
    ensures IsInt4(menuItemId) && |menuItemSlug| <= IngredientSlugWidth && |name| <= IngredientNameWidth
      ==> IngredientFits(g)
  {
    Ingredient(id, menuItemId, menuItemSlug, name, None, None, DefaultCents, DefaultAllergen, None, now, now)
  }

  /** A supplier row with only its required columns given: unit price 0 cents,
      not preferred, every optional column null. */
  function SupplierDefaults(id: nat, slug: string, ingredientId: nat, name: string, now: Time): (s: Supplier)
    ensures s.unitPriceCents == 0 && !s.preferred
    ensures s.contact.None? && s.website.None? && s.unit.None? && s.leadTimeDays.None? && s.notes.None?
    ensures |slug| <= SupplierSlugWidth && IsInt4(ingredientId) && |name| <= SupplierNameWidth
      ==> SupplierFits(s)
  {
    Supplier(id, slug, ingredientId, name, None, None, DefaultCents, None, None, DefaultPreferred, None, now, now)
  }

  /** An employee row with no column given: active, everything else null
      except the creation time. */
  function EmployeeDefaults(id: nat, now: Time): (e: Employee)
    ensures e.active == Some(true) && e.createdAt == Some(now)
    ensures EmployeeFits(e)
  {
    Employee(id, None, None, None, None, Some(DefaultEmployeeActive), Some(now))
  }

  /** A user row as the authentication library creates it: not onboarded yet. */
  function UserDefaults(id: UserId, name: string, email: string, now: Time): (u: User)
    ensures !u.hasOnboarded && !u.emailVerified && u.image.None?
  {
    User(id, name, email, false, None, now, now, DefaultHasOnboarded)
  }
}
