/**
 * The database as the handlers see it. The `user` table is keyed by its text
 * primary key; every serial-keyed table is a sequence of rows in insertion
 * order, with the next value of its serial counter. A `select ... limit 1`
 * returns the first matching row. An insert or update fails, changing
 * nothing, when a value exceeds its column's width by more than trailing
 * spaces (which are cut off), when a number leaves the 32-bit integer range,
 * or when it would break the unique constraint on `cafes.owner_id`.
 * There is no unique constraint on menu-item slugs and no foreign key.
 */
module Store {
  import opened Common
  import opened Schema

  datatype Store = Store(
    users: map<UserId, User>,
    cafes: seq<Cafe>,
    menuItems: seq<MenuItem>,
    ingredients: seq<Ingredient>,
    suppliers: seq<Supplier>,
    employees: seq<Employee>,
    nextCafeId: nat,
    nextMenuItemId: nat)

  /** Why the database refuses a write. */
  datatype DbError = ValueTooLong | OutOfRange | UniqueViolation

  /** Index of the first element satisfying `p`. */
  function FirstWhere<T>(s: seq<T>, p: T -> bool): (r: Option<nat>)
    ensures r.Some? ==> r.value < |s| && p(s[r.value])
    ensures r.Some? ==> forall i :: 0 <= i < r.value ==> !p(s[i])
    ensures r.None? ==> forall i :: 0 <= i < |s| ==> !p(s[i])
  {
    if |s| == 0 then None
    else if p(s[0]) then Some(0)
    else match FirstWhere(s[1..], p)
      case Some(i) => Some(i + 1)
      case None => None
  }

  /** Appending rows never changes which row a lookup found before. */
  lemma {:induction false} FirstWhereAppend<T>(s: seq<T>, t: seq<T>, p: T -> bool)
    requires FirstWhere(s, p).Some?
    ensures FirstWhere(s + t, p) == FirstWhere(s, p)
  {
    if !p(s[0]) {
      assert (s + t)[1..] == s[1..] + t;
      FirstWhereAppend(s[1..], t, p);
    }
  }

  // ---- lookups ----

  /** `select ... from cafes where owner_id = owner limit 1`. */
  function CafeOfOwner(st: Store, owner: UserId): (r: Option<Cafe>)
    ensures r.Some? ==> r.value in st.cafes && r.value.ownerId == owner
    ensures r.None? <==> forall i :: 0 <= i < |st.cafes| ==> st.cafes[i].ownerId != owner
  {
    match FirstWhere(st.cafes, (c: Cafe) => c.ownerId == owner)
    case Some(i) => Some(st.cafes[i])
    case None => None
  }

  /** The slugs of the cafe's menu items: the candidates `ensureUniqueSlug` finds taken. */
  function SlugsOfCafe(st: Store, cafeId: nat): (r: set<string>)
    ensures forall x :: x in r <==> exists i :: 0 <= i < |st.menuItems| && st.menuItems[i].cafeId == cafeId && st.menuItems[i].slug == x
  {
    set i | 0 <= i < |st.menuItems| && st.menuItems[i].cafeId == cafeId :: st.menuItems[i].slug
  }

  /** `select ... where id = id`: the row with that id, if any. */
  function FindCafe(st: Store, id: nat): (r: Option<Cafe>)
    ensures r.Some? ==> r.value in st.cafes && r.value.id == id
    ensures r.None? <==> forall i :: 0 <= i < |st.cafes| ==> st.cafes[i].id != id
  {
    match FirstWhere(st.cafes, (c: Cafe) => c.id == id)
    case Some(i) => Some(st.cafes[i])
    case None => None
  }

  /** `select ... where id = id`: the row with that id, if any. */
  function FindMenuItem(st: Store, id: nat): (r: Option<MenuItem>)
    ensures r.Some? ==> r.value in st.menuItems && r.value.id == id
    ensures r.None? <==> forall i :: 0 <= i < |st.menuItems| ==> st.menuItems[i].id != id
  {
    match FirstWhere(st.menuItems, (m: MenuItem) => m.id == id)
    case Some(i) => Some(st.menuItems[i])
    case None => None
  }

  /** `select ... where id = id`: the row with that id, if any. */
  function FindIngredient(st: Store, id: nat): (r: Option<Ingredient>)
    ensures r.Some? ==> r.value in st.ingredients && r.value.id == id
    ensures r.None? <==> forall i :: 0 <= i < |st.ingredients| ==> st.ingredients[i].id != id
  {
    match FirstWhere(st.ingredients, (g: Ingredient) => g.id == id)
    case Some(i) => Some(st.ingredients[i])
    case None => None
  }

  // ---- the ownership chain: cafe <- menu item <- ingredient <- supplier ----

  /** The owner a menu item answers to, through its cafe. */
  function OwnerOfMenuItem(st: Store, m: MenuItem): Option<UserId> {
    match FindCafe(st, m.cafeId)
    case Some(c) => Some(c.ownerId)
    case None => None
  }

  /** The owner an ingredient answers to, through its menu item. */
  function OwnerOfIngredient(st: Store, g: Ingredient): Option<UserId> {
    match FindMenuItem(st, g.menuItemId)
    case Some(m) => OwnerOfMenuItem(st, m)
    case None => None
  }

  /** The owner a supplier answers to, through its ingredient. */
  function OwnerOfSupplier(st: Store, s: Supplier): Option<UserId> {
    match FindIngredient(st, s.ingredientId)
    case Some(g) => OwnerOfIngredient(st, g)
    case None => None
  }

  /** A supplier's owner is reached by following ingredient, menu item and
      cafe ids, each of which names a stored row. */
  lemma OwnershipChain(st: Store, s: Supplier)
    requires OwnerOfSupplier(st, s).Some?
    ensures var g := FindIngredient(st, s.ingredientId);
      && g.Some? && g.value in st.ingredients
      && var m := FindMenuItem(st, g.value.menuItemId);
      && m.Some? && m.value in st.menuItems
      && var c := FindCafe(st, m.value.cafeId);
      && c.Some? && c.value in st.cafes && c.value.ownerId == OwnerOfSupplier(st, s).value
  {
  }

  /** A session names a signed-in user: `!session?.user?.id` treats a missing
      session and an empty id alike. */
  predicate Authenticated(session: Option<UserId>) {
    session.Some? && session.value != ""
  }

  // ---- invariants ----

  predicate OwnersUnique(cafes: seq<Cafe>) {
    forall i, j :: 0 <= i < j < |cafes| ==> cafes[i].ownerId != cafes[j].ownerId
  }

  /** Slug uniqueness within a cafe: no table constraint keeps it, only the allocator. */
  predicate SlugsUniquePerCafe(items: seq<MenuItem>) {
    forall i, j :: 0 <= i < j < |items| && items[i].cafeId == items[j].cafeId ==> items[i].slug != items[j].slug
  }

  /** What the constraints of the schema keep true of every stored state: users
      stored under their own id, one cafe per owner, serial ids below the next
      counter value, and every value within its column. */
  predicate Consistent(st: Store) {
    && (forall u :: u in st.users ==> st.users[u].id == u)
    && OwnersUnique(st.cafes)
    && (forall i :: 0 <= i < |st.cafes| ==> st.cafes[i].id < st.nextCafeId && CafeFits(st.cafes[i]))
    && (forall i :: 0 <= i < |st.menuItems| ==> st.menuItems[i].id < st.nextMenuItemId && MenuItemFits(st.menuItems[i]))
  }

  // ---- writes ----

  /** The columns the onboarding handler supplies for a new cafe. */
  datatype CafeValues = CafeValues(
    name: string, slug: string, ownerId: UserId,
    address: Option<string>, city: Option<string>, country: Option<string>,
    phone: Option<string>, timezone: Option<string>, openingHours: Option<string>,
    posEnabled: bool)

  function CafeRow(id: nat, v: CafeValues, now: Time): Cafe {
    Cafe(id, v.name, v.slug, v.ownerId, v.address, v.city, v.country, v.phone,
         v.timezone, v.openingHours, v.posEnabled, now, now)
  }

  /** `insert into cafes ... returning`: the next serial id, both timestamps set
      to now, each varchar value as `AssignedCafe` stores it. */
  function InsertCafe(st: Store, v: CafeValues, now: Time): (r: Result<(Store, Cafe), DbError>)
    ensures r.Failure? <==> !CafeAssignable(CafeRow(st.nextCafeId, v, now)) || CafeOfOwner(st, v.ownerId).Some?
    ensures r.Success? ==> r.value.1 == AssignedCafe(CafeRow(st.nextCafeId, v, now))
    ensures r.Success? ==> r.value.0 == st.(cafes := st.cafes + [r.value.1], nextCafeId := st.nextCafeId + 1)
  {
    var row := CafeRow(st.nextCafeId, v, now);
    if !CafeAssignable(row) then Failure(if IsInt4(row.id) then ValueTooLong else OutOfRange)
    else if CafeOfOwner(st, v.ownerId).Some? then Failure(UniqueViolation)
    else
      var stored := AssignedCafe(row);
      Success((st.(cafes := st.cafes + [stored], nextCafeId := st.nextCafeId + 1), stored))
  }

  /** The columns the create handlers supply for a new menu item. */
  datatype MenuItemValues = MenuItemValues(
    cafeId: nat, name: string, slug: string, description: Option<string>,
    priceCents: int, currency: string, available: bool, category: Option<string>,
    imageUrl: Option<string>)

  function MenuItemRow(id: nat, v: MenuItemValues, now: Time): MenuItem {
    MenuItem(id, v.cafeId, v.name, v.slug, v.description, v.priceCents, v.currency,
             v.available, v.category, v.imageUrl, now, now)
  }

  /** `insert into menu_items ... returning`. Nothing checks the slug against the
      cafe's other items. */
  function InsertMenuItem(st: Store, v: MenuItemValues, now: Time): (r: Result<(Store, MenuItem), DbError>)
    ensures r.Failure? <==> !MenuItemAssignable(MenuItemRow(st.nextMenuItemId, v, now))
    ensures r.Success? ==> r.value.1 == AssignedMenuItem(MenuItemRow(st.nextMenuItemId, v, now))
    ensures r.Success? ==> r.value.0 == st.(menuItems := st.menuItems + [r.value.1], nextMenuItemId := st.nextMenuItemId + 1)
  {
    var row := MenuItemRow(st.nextMenuItemId, v, now);
    if !MenuItemAssignable(row) then
      Failure(if IsInt4(row.id) && IsInt4(v.cafeId) && IsInt4(v.priceCents) then ValueTooLong else OutOfRange)
    else
      var stored := AssignedMenuItem(row);
      Success((st.(menuItems := st.menuItems + [stored], nextMenuItemId := st.nextMenuItemId + 1), stored))
  }

  /** The table accepts a second item with a slug the cafe already uses: slug
      uniqueness is not a database guarantee. */
  lemma DuplicateSlugAccepted(st: Store, v: MenuItemValues, now: Time)
    requires v.slug in SlugsOfCafe(st, v.cafeId)
    requires MenuItemFits(MenuItemRow(st.nextMenuItemId, v, now))
    ensures InsertMenuItem(st, v, now).Success?
    ensures !SlugsUniquePerCafe(InsertMenuItem(st, v, now).value.0.menuItems)
  {
    var i :| 0 <= i < |st.menuItems| && st.menuItems[i].cafeId == v.cafeId && st.menuItems[i].slug == v.slug;
    var items := InsertMenuItem(st, v, now).value.0.menuItems;
    assert items[i] == st.menuItems[i] && items[|st.menuItems|].slug == v.slug;
  }

  /** A row whose slug its cafe does not use yet keeps slugs unique per cafe. */
  lemma {:induction false} AppendFreshSlugKeepsUnique(st: Store, item: MenuItem)
    requires SlugsUniquePerCafe(st.menuItems)
    requires item.slug !in SlugsOfCafe(st, item.cafeId)
    ensures SlugsUniquePerCafe(st.menuItems + [item])
  {
    var items := st.menuItems + [item];
    forall i, j | 0 <= i < j < |items| && items[i].cafeId == items[j].cafeId
      ensures items[i].slug != items[j].slug
    {
      assert items[i] == st.menuItems[i];
      if j == |st.menuItems| {
        assert items[i].slug in SlugsOfCafe(st, item.cafeId);
      } else {
        assert items[j] == st.menuItems[j];
      }
    }
  }

  /** After an append, the item's cafe uses the slugs it used before and the new one. */
  lemma AppendedSlugs(st: Store, item: MenuItem)
    ensures SlugsOfCafe(st.(menuItems := st.menuItems + [item], nextMenuItemId := st.nextMenuItemId + 1), item.cafeId)
      == SlugsOfCafe(st, item.cafeId) + {item.slug}
  {
    var st1 := st.(menuItems := st.menuItems + [item], nextMenuItemId := st.nextMenuItemId + 1);
    forall x
      ensures x in SlugsOfCafe(st1, item.cafeId) <==> x in SlugsOfCafe(st, item.cafeId) + {item.slug}
    {
      if x in SlugsOfCafe(st1, item.cafeId) && x != item.slug {
        var i :| 0 <= i < |st1.menuItems| && st1.menuItems[i].cafeId == item.cafeId && st1.menuItems[i].slug == x;
        assert st1.menuItems[i] == st.menuItems[i];
      }
      if x in SlugsOfCafe(st, item.cafeId) {
        var i :| 0 <= i < |st.menuItems| && st.menuItems[i].cafeId == item.cafeId && st.menuItems[i].slug == x;
        assert st1.menuItems[i] == st.menuItems[i];
      }
      if x == item.slug {
        assert st1.menuItems[|st.menuItems|] == item;
      }
    }
  }

  /** A cafe insert keeps the store consistent, and so keeps at most one cafe per owner. */
  lemma InsertCafeConsistent(st: Store, v: CafeValues, now: Time)
    requires Consistent(st)
    requires InsertCafe(st, v, now).Success?
    ensures Consistent(InsertCafe(st, v, now).value.0)
  {
    var st' := InsertCafe(st, v, now).value.0;
    forall i, j | 0 <= i < j < |st'.cafes|
      ensures st'.cafes[i].ownerId != st'.cafes[j].ownerId
    {
      if j == |st.cafes| {
        assert st'.cafes[i] == st.cafes[i];
      }
    }
  }

  /** A menu-item insert keeps the store consistent. */
  lemma InsertMenuItemConsistent(st: Store, v: MenuItemValues, now: Time)
    requires Consistent(st)
    requires InsertMenuItem(st, v, now).Success?
    ensures Consistent(InsertMenuItem(st, v, now).value.0)
  {
    AppendMenuItemConsistent(st, InsertMenuItem(st, v, now).value.1);
  }

  /** Appending a fitting row under the next serial id keeps the store consistent. */
  lemma AppendMenuItemConsistent(st: Store, item: MenuItem)
    requires Consistent(st)
    requires item.id == st.nextMenuItemId && MenuItemFits(item)
    ensures Consistent(st.(menuItems := st.menuItems + [item], nextMenuItemId := st.nextMenuItemId + 1))
  {
    var items := st.menuItems + [item];
    forall i | 0 <= i < |items|
      ensures items[i].id < st.nextMenuItemId + 1 && MenuItemFits(items[i])
    {
      if i < |st.menuItems| {
        assert items[i] == st.menuItems[i];
      }
    }
  }

  /** `update "user" set has_onboarded = true where id = uid`: no row changes when
      there is no such user. */
  function MarkOnboarded(st: Store, uid: UserId, now: Time): (st': Store)
    ensures st'.users.Keys == st.users.Keys
    ensures uid in st.users ==> st'.users[uid] == st.users[uid].(hasOnboarded := true, updatedAt := now)
    ensures forall u :: u in st.users && u != uid ==> st'.users[u] == st.users[u]
    ensures st' == st.(users := st'.users)
  {
    if uid in st.users then
      st.(users := st.users[uid := st.users[uid].(hasOnboarded := true, updatedAt := now)])
    else st
  }
}
