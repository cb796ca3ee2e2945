# Café manager core, modelled in Dafny

This project models the checkable core of a small café-management web app
(Next.js handlers, zod schemas, a drizzle/Postgres schema). It covers:

- **Menu-item creation**, which has two entry points: the HTTP route
  `POST /api/internal/menu/create` and the server action `createMenuItemAction`.
  The model covers:
  - validation, then the session check, then the café lookup, in that order;
  - `slugify` and the base slug with its clock fallback;
  - the bounded unique-slug probe (`base`, `base-1` … `base-50`);
  - the conversion to integer cents, the insert, and the replies or thrown errors.
  
  The decision sequence is written once (`MenuCreate.Create`) and instantiated for
  both entry points. They differ only in the slug rule.
- **URL normalisers.**
  - The image-URL normaliser, with its three copies proved to agree.
  - The supplier-website transform, which keeps only `http(s)`, ignores case and does not trim.
- **Create-payload validators** for menu items (route, action and client
  form), ingredients and suppliers. Each is written twice:
  - as the zod rule records it is built from (`Accepts`);
  - as a plain predicate (`Valid` / `RouteValid` / …).
  
  A lemma proves the two agree, and the form defaults are checked against them.
- **Onboarding.**
  - The four-step wizard state (`setStep`, `next`, `back`, `update`, `reset`,
    `setCompletedStep`).
  - The single-use `completeOnboardingAction` transition: it inserts the cafe
    and sets the user's onboarded flag.
- **The owner-scoped café endpoint** (`GET` / `PUT /api/cafe`), with its frame:
  nothing but the owner's row changes.
- **The data model.** One datatype per table, the column widths and int4
  ranges, the column defaults, and the ownership chain
  café → menu item → ingredient → supplier.

The database is an immutable `Store`:
- `user` is a map keyed by its text id.
- Every serial table is a sequence in insertion order, with its next id.
- A `select … limit 1` is the first matching row.
- An insert or update fails when a value runs past its `varchar` width with
  anything but spaces, or leaves the int4 range. Trailing spaces past the
  width are cut off, as Postgres does on assignment.

The session is `Option<UserId>`. The clock is the `now` parameter. zod's URL
check and `new URL` are the `isUrl` parameter.

Files and modules:
- common.dfy (`Common`)
- text.dfy (`Text`: JavaScript white space, `toLowerCase`, `trim`)
- decimal.dfy (`Decimal`)
- validation.dfy (`Validation`: zod fields and rules)
- schema.dfy (`Schema`)
- store.dfy (`Store`)
- slug.dfy (`Slug`)
- slug_allocator.dfy (`SlugAllocator`)
- image_url.dfy (`ImageUrl`)
- website.dfy (`SupplierWebsite`)
- menu_payload.dfy (`MenuPayload`)
- menu_create.dfy (`MenuCreate`)
- forms.dfy (`IngredientForm`, `SupplierForm`)
- onboarding.dfy (`Onboarding`)
- wizard.dfy (`Wizard`)
- cafe_api.dfy (`CafeApi`)

## Model

| member | source | states |
|---|---|---|
| Text.LowerChar | app/api/internal/menu/create/route.ts:40 | the ASCII part of `toLowerCase` that slugify keeps: A–Z become a–z, no ASCII capital comes out, white space stays white space, U+0130 and U+212A give their ASCII letter, and other characters are kept |
| Text.Lower | app/api/internal/menu/create/route.ts:40 | that lowering applied character by character, keeping the length |
| Text.LowerIdentity | app/api/internal/menu/create/route.ts:40 | a string with no ASCII capital, U+0130 or U+212A is unchanged by that lowering |
| Text.TrimStart | app/api/internal/menu/create/route.ts:41 | drops exactly the leading white space, leaving a suffix that starts with a non-space |
| Text.TrimEnd | app/api/internal/menu/create/route.ts:41 | drops exactly the trailing white space, leaving a prefix that ends with a non-space |
| Text.TrimTrimmed | app/api/internal/menu/create/route.ts:41 | `trim` leaves no white space at either end |
| Text.TrimIsSlice | app/api/internal/menu/create/route.ts:41 | `trim` returns a slice of its input, and everything cut off is white space |
| Text.TrimIdentity | app/api/internal/menu/create/route.ts:41 | a string with no white space at either end is its own trim |
| Text.TrimIdempotent | app/api/internal/menu/create/route.ts:41 | trimming twice is trimming once |
| Slug.StripDisallowed | app/api/internal/menu/create/route.ts:42 | keeps only a–z, 0–9, white space and '-', and is the identity on strings made of those |
| Slug.HyphenateSpaces | app/api/internal/menu/create/route.ts:43 | leaves no white space; a leading space becomes '-'; the identity on space-free strings |
| Slug.CollapseHyphens | app/api/internal/menu/create/route.ts:44 | leaves no two consecutive hyphens, keeps the first character, and is the identity on strings without "--" |
| Slug.Prefix | app/api/internal/menu/create/route.ts:45 | `slice(0, n)` is the first min(n, length) characters |
| Slug.PrefixOfSlugShape | app/api/internal/menu/create/route.ts:45 | cutting a slug-shaped string at 200 keeps it a slug |
| Slug.Slugify | app/api/internal/menu/create/route.ts:38-46 | the output has only `[a-z0-9-]`, never "--", and length at most 200 |
| Slug.SlugifyFixesSlugs | app/api/internal/menu/create/route.ts:38-46 | every slug is a fixed point of slugify |
| Slug.SlugifyIdempotent | app/api/internal/menu/create/route.ts:38-46 | slugify(slugify(s)) == slugify(s) |
| Slug.FallbackSlug | app/api/internal/menu/create/route.ts:82 | "item-" plus the clock reading is a non-empty slug of at most 21 characters |
| Slug.BaseSlug | app/api/internal/menu/create/route.ts:81-82 | the base slug is always a non-empty slug |
| Slug.BaseSlugChoice | app/actions/menu.ts:66-67 | a truthy slug field is slugified, otherwise the name; the clock fallback is used exactly when that is empty |
| Decimal.Show | app/api/internal/menu/create/route.ts:96 | the counter prints as at least one digit with no leading zero |
| Decimal.ValueOfShow | app/api/internal/menu/create/route.ts:96 | reading the printed counter back gives the counter |
| Decimal.ShowInjective | app/api/internal/menu/create/route.ts:96 | different counters print differently |
| Decimal.ShowLength | app/api/internal/menu/create/route.ts:96 | a number below 10^d prints in at most d digits |
| SlugAllocator.CandidateInjective | app/api/internal/menu/create/route.ts:96 | different collision counts give different candidates |
| SlugAllocator.CandidateLength | app/api/internal/menu/create/route.ts:96 | a candidate is at most 3 characters longer than its base |
| SlugAllocator.CandidateSlugChars | app/api/internal/menu/create/route.ts:96 | candidates of a slug base consist of slug characters |
| SlugAllocator.FirstFreeFrom | app/api/internal/menu/create/route.ts:85-99 | the least counter from a start point whose candidate is free, or none when all up to 50 are taken |
| SlugAllocator.Allocate | app/api/internal/menu/create/route.ts:85-99 | the result is never taken; it is the first free one of base, base-1 … base-50; failure means all 51 are taken |
| SlugAllocator.AllocateFreeBase | app/api/internal/menu/create/route.ts:94 | a free base is returned unchanged |
| SlugAllocator.AllocateAfterBase | app/api/internal/menu/create/route.ts:94-96 | with the base taken and base-1 free, the allocator gives base-1 |
| SlugAllocator.FirstFreeUnique | app/actions/menu.ts:70-85 | any k whose candidate is free and all of whose predecessors are taken is the one found |
| SlugAllocator.AllocatedLength | app/lib/schema.ts:95 | an allocated slug is at most 3 longer than its base, so at most 203, within the 320-character column |
| SlugAllocator.AllocatedSlugChars | app/api/internal/menu/create/route.ts:96 | an allocated slug of a slug base has only slug characters |
| SlugAllocator.EnsureUniqueSlug | app/api/internal/menu/create/route.ts:85-99 | the loop returns Allocate's result after at most 51 probes, in candidate order; it never probes base-51; on failure it probes all 51 |
| SlugAllocator.FoundAt | app/api/internal/menu/create/route.ts:94 | leaving the loop after k collisions with a free candidate is Allocate's answer |
| SlugAllocator.NeverProbed | app/api/internal/menu/create/route.ts:97 | a trace of at most 51 candidates does not contain base-51 |
| ImageUrl.SchemeRunEnd | app/api/internal/menu/create/route.ts:21 | the end of a maximal run of scheme characters |
| ImageUrl.SchemeRunEndAt | app/api/internal/menu/create/route.ts:21 | any run that ends at a non-scheme character is the one found |
| ImageUrl.HasSchemeIffMatch | app/api/internal/menu/create/route.ts:21 | the scanner agrees with the scheme regular expression on every string |
| ImageUrl.HttpsPrefixHasScheme | app/api/internal/menu/create/route.ts:22 | anything prefixed with "https://" has a scheme |
| ImageUrl.HttpsPrefixTrimmed | app/api/internal/menu/create/route.ts:22 | prefixing a trimmed non-empty string keeps it trimmed |
| ImageUrl.Normalize | app/api/internal/menu/create/route.ts:17-25 | non-strings and blank strings give null; otherwise the trimmed string, kept when it has a scheme and prefixed with "https://" when not; the result has a scheme and is trimmed |
| ImageUrl.NormalizeIdempotent | components/menu/AddMenuItemForm.tsx:10-18 | normalising a normalised value changes nothing |
| ImageUrl.NormalizedHasScheme | components/menu/AddMenuItemForm.tsx:14-17 | a non-null result matches the scheme pattern |
| ImageUrl.NormalizeInline | app/actions/menu.ts:21-29 | the action's inline copy returns a value only for a non-blank string |
| ImageUrl.CopiesAgree | app/actions/menu.ts:21-29 | the action's copy equals the route's and the client's on every input |
| SupplierWebsite.Normalize | components/ingredients/AddSupplierForm.tsx:16-20 | a falsy website becomes null; one starting with http:// or https:// in any case is kept; anything else gets "https://" in front |
| SupplierWebsite.NormalizeIdempotent | components/ingredients/AddSupplierForm.tsx:16-20 | the transform is idempotent |
| SupplierWebsite.NoTrimUnlikeImageUrl | components/ingredients/AddSupplierForm.tsx:18 | leading white space is kept behind the prefix, and the image normaliser gives a different result |
| SupplierWebsite.LeadingSpaceIsNotHttp | components/ingredients/AddSupplierForm.tsx:18 | a value with leading white space is always prefixed |
| SupplierWebsite.ImageUrlDropsLeadingSpace | app/api/internal/menu/create/route.ts:19 | the image normaliser never keeps leading white space behind the prefix |
| SupplierWebsite.OnlyHttpUnlikeImageUrl | components/ingredients/AddSupplierForm.tsx:18 | a URL with another scheme is kept by the image normaliser but prefixed by the website transform |
| Validation.StrValue | app/api/internal/menu/create/route.ts:112 | a parsed optional string is present exactly when the field was |
| Validation.NumValue | app/api/internal/menu/create/route.ts:31 | a parsed number is missing exactly when optional-and-absent or nullable-and-null, and otherwise is the coerced value |
| MenuPayload.Parse | app/api/internal/menu/create/route.ts:27-36 | a body parses exactly when the schema accepts it; name kept, price ≥ 0, image URL normalised, and currency and availability filled when the schema has defaults |
| MenuPayload.RouteSchemaMeaning | app/api/internal/menu/create/route.ts:27-36 | the route accepts exactly: name 1..300, slug absent or 1..320, description ≤ 5000 or null, price ≥ 0, currency ≤ 10, category ≤ 120 or null, image URL null or a URL |
| MenuPayload.ActionSchemaMeaning | app/actions/menu.ts:13-30 | the action accepts the same, except that the slug is any string |
| MenuPayload.ClientSchemaMeaning | components/menu/AddMenuItemForm.tsx:20-29 | the client accepts name ≥ 1 with no upper bound, with description and category not nullable |
| MenuPayload.EmptySlug | app/actions/menu.ts:15 | the route rejects an empty slug, while the action treats it like a missing one |
| MenuPayload.RouteIsActionWithSlugBounds | app/api/internal/menu/create/route.ts:29 | route validity is action validity plus the slug bounds |
| MenuPayload.ClientThenRoute | components/menu/AddMenuItemForm.tsx:20-29 | a client-valid body is route-valid exactly when its name is at most 300 and its slug is absent or 1..320 |
| MenuPayload.DefaultFormOutcome | components/menu/AddMenuItemForm.tsx:53-62 | the defaults fail only for the empty name; once named they pass the client and the action but fail the route on the empty slug |
| MenuPayload.DefaultNameMissing | components/menu/AddMenuItemForm.tsx:54 | the unnamed defaults fail the client schema |
| MenuPayload.DefaultFormNamed | components/menu/AddMenuItemForm.tsx:53-62 | the named defaults pass client and action, and fail the route |
| MenuPayload.DefaultFormShared | components/menu/AddMenuItemForm.tsx:57-61 | the default price, currency, availability and image pass the shared rules |
| MenuPayload.EmptyImageOk | components/menu/AddMenuItemForm.tsx:61 | an empty image field is accepted, as null |
| MenuPayload.RouteValidFits | app/lib/schema.ts:94-101 | a route-valid name, currency and category fit their columns |
| MenuCreate.ToCents | app/api/internal/menu/create/route.ts:103 | cents are within half a cent of price×100, and non-negative for a non-negative price |
| MenuCreate.CentsRoundTrip | app/api/internal/menu/create/route.ts:140 | a price with at most two decimals survives the trip to cents and back |
| MenuCreate.Values | app/api/internal/menu/create/route.ts:106-118 | the row has the owner's cafe id, the name, the base slug, currency defaulting to EUR and availability defaulting to true |
| MenuCreate.Admit | app/api/internal/menu/create/route.ts:56-78 | an invalid body gives Invalid, then no session gives NotAuthenticated, then no cafe gives NoCafe; otherwise the parsed body and the owner's cafe |
| MenuCreate.AppendedConsistent | app/api/internal/menu/create/route.ts:106-118 | appending a created item keeps the store consistent |
| MenuCreate.Place | app/api/internal/menu/create/route.ts:85-118 | allocation failure gives SlugExhausted and no change; success appends the row, as the column types store it, under the next id with the allocated, previously unused slug |
| MenuCreate.Create | app/api/internal/menu/create/route.ts:48-152 | Invalid exactly when the body is invalid; every refusal leaves the store unchanged; success appends one row to the owner's cafe with a slug the cafe did not use |
| MenuCreate.CreateRefusals | app/actions/menu.ts:44-62 | NotAuthenticated exactly for a valid body without a session; NoCafe exactly for a valid, signed-in body whose owner has no cafe |
| MenuCreate.CreatedRow | app/actions/menu.ts:93-105 | the row stores ToCents of the price, EUR and true by default, the description and category as sent, null when missing or null, and the normalised image URL |
| MenuCreate.ExhaustedMeansAllTaken | app/api/internal/menu/create/route.ts:97 | SlugExhausted means base, base-1 … base-50 are all used in that cafe |
| MenuCreate.CreateConsistent | app/api/internal/menu/create/route.ts:106-118 | creating keeps the store consistent |
| MenuCreate.CreateKeepsSlugsUnique | app/lib/schema.ts:108 | if slugs are unique per cafe before a create, they still are after it |
| MenuCreate.RouteAndActionAgree | app/actions/menu.ts:43-132 | for a slug that is absent or 1..320 characters, the two entry points behave identically |
| MenuCreate.EmptySlugEntryPoints | app/actions/menu.ts:66 | an empty slug is refused by the route, while the action behaves as if the slug were absent |
| MenuCreate.AdmitEmptySlug | app/actions/menu.ts:15 | for the action, an empty slug is admitted exactly as an absent one |
| MenuCreate.RepeatCreateNewSlug | app/api/internal/menu/create/route.ts:85-100 | a second identical create in the same cafe gets a different slug |
| MenuCreate.RepeatCreateNextCandidate | app/api/internal/menu/create/route.ts:85-100 | when base and base-1 were free, the first of two identical creates gets the base and the second base-1 |
| MenuCreate.CreatedSlug | app/api/internal/menu/create/route.ts:81-100 | the stored slug is the first of base, base-1 … base-50 that the cafe did not use, with the base from the slug sent, the name, or the clock |
| MenuCreate.View | app/api/internal/menu/create/route.ts:134-147 | the reply's price times 100 is the stored cents, and id, name and slug are the row's |
| MenuCreate.ReplyOf | app/api/internal/menu/create/route.ts:58-77 | success → 200 with the item; 401 exactly for no session; 400 for invalid or no cafe; 500 for slug exhaustion or a store error |
| MenuCreate.ActionOutcome | app/actions/menu.ts:44-131 | the action returns the item exactly on success; it throws the zod error exactly for an invalid body, and the driver's error exactly for a store error |
| MenuCreate.RepliesIdentifyRefusal | app/api/internal/menu/create/route.ts:60-76 | different refusals give different replies at both entry points |
| MenuCreate.ReplyPrice | app/actions/menu.ts:125 | a two-decimal price comes back unchanged in the reply |
| IngredientForm.SchemaMeaning | components/menu/AddIngredientForm.tsx:10-17 | accepted exactly when: name non-empty, quantity ≤ 100 and unit ≤ 50 (each may be null), cost missing or ≥ 0, notes ≤ 2000 |
| IngredientForm.Parse | components/menu/AddIngredientForm.tsx:10-17 | parses exactly the valid bodies; cost ≥ 0 when given; allergen defaults to false; quantity and unit fit their columns |
| IngredientForm.NegativeCostRejected | components/menu/AddIngredientForm.tsx:14 | a negative cost is refused, while leaving the cost out is accepted exactly when a cost of 0 would be |
| IngredientForm.DefaultFormOutcome | components/menu/AddIngredientForm.tsx:29-37 | the defaults fail only for the empty name; once named they parse to cost 0 and no allergen |
| SupplierForm.Website | components/ingredients/AddSupplierForm.tsx:12-20 | the website after the transform is null exactly when falsy, and otherwise has an http(s) scheme |
| SupplierForm.SchemaMeaning | components/ingredients/AddSupplierForm.tsx:9-35 | accepted exactly when: name non-empty, contact ≤ 300, website falsy or a URL after the transform, unit price missing or ≥ 0, unit ≤ 50, lead time missing, null or an integer ≥ 0, notes ≤ 2000 |
| SupplierForm.Parse | components/ingredients/AddSupplierForm.tsx:9-35 | parses exactly the valid bodies; unit price ≥ 0, lead time ≥ 0, transformed website, and contact and unit fit their columns |
| SupplierForm.NumbersRejected | components/ingredients/AddSupplierForm.tsx:30-32 | a negative unit price, or a fractional or negative lead time, is refused |
| SupplierForm.LeadTimeValue | components/ingredients/AddSupplierForm.tsx:32 | a whole lead time comes through as that integer |
| SupplierForm.DefaultFormOutcome | components/ingredients/AddSupplierForm.tsx:50-59 | the defaults fail only for the empty name; once named they parse with no website, price 0 and lead time 0 |
| Onboarding.SchemaMeaning | app/actions/completeOnboarding.ts:11-22 | accepted exactly when: name 2..300; slug 2..320 and of a–z, 0–9 and '-'; the other texts strings, null or missing; the POS flag a boolean or missing |
| Onboarding.Values | app/actions/completeOnboarding.ts:49-60 | the row has the session owner, the name and slug; optional texts are null when missing and copied otherwise; pos_enabled defaults to true |
| Onboarding.Complete | app/actions/completeOnboarding.ts:24-79 | Invalid exactly for an invalid body; any failure leaves the store unchanged; success adds one cafe for the session owner, who had none, and marks that user onboarded |
| Onboarding.CompleteRefusals | app/actions/completeOnboarding.ts:29-44 | NotAuthenticated exactly for a valid body without a session; AlreadyHasCafe exactly when the signed-in owner already has a cafe |
| Onboarding.CompleteRejected | app/actions/completeOnboarding.ts:47-60 | for a fresh owner, the insert fails exactly when city, country, phone or timezone runs past its column with more than spaces |
| Onboarding.CompletedRow | app/actions/completeOnboarding.ts:47-67 | the stored cafe is the row built from the body and the session user, stamped now and stored as the column types allow; name and slug as sent |
| Onboarding.CompleteConsistent | app/actions/completeOnboarding.ts:47-73 | completing keeps at most one cafe per owner and every row within its columns |
| Onboarding.MarkOnboardedConsistent | app/actions/completeOnboarding.ts:70-73 | setting the flag keeps the store consistent |
| Onboarding.CompleteOnce | app/actions/completeOnboarding.ts:36-44 | a second completion by the same user fails and changes nothing; with a valid body it fails as AlreadyHasCafe |
| Store.FirstWhere | app/api/cafe/route.ts:37-38 | `limit 1`: the first row matching the condition, or none when no row matches |
| Store.FirstWhereAppend | app/api/internal/menu/create/route.ts:74 | appending rows does not change which row a lookup found |
| Store.CafeOfOwner | app/api/internal/menu/create/route.ts:74 | the cafe found belongs to the owner; none exactly when the owner has no cafe |
| Store.SlugsOfCafe | app/api/internal/menu/create/route.ts:89-93 | exactly the slugs of the menu items of that cafe |
| Store.FindCafe | app/lib/schema.ts:67 | the stored cafe with that id, or none when there is no such row |
| Store.FindMenuItem | app/lib/schema.ts:92 | the stored menu item with that id, or none when there is no such row |
| Store.FindIngredient | app/lib/schema.ts:116 | the stored ingredient with that id, or none when there is no such row |
| Store.OwnershipChain | app/lib/schema.ts:93-140 | a supplier's owner is reached through a stored ingredient, menu item and cafe |
| Store.InsertCafe | app/lib/schema.ts:64-87 | fails exactly when the id leaves int4, a varchar value runs past its width with more than spaces, or the owner already has a cafe (unique owner_id); otherwise appends the row under the next id, with trailing spaces past a width cut off |
| Store.InsertMenuItem | app/lib/schema.ts:89-111 | fails exactly when an integer leaves int4 or a varchar value runs past its width with more than spaces; otherwise appends the row under the next id, with trailing spaces past a width cut off |
| Store.AppendedSlugs | app/api/internal/menu/create/route.ts:89-93 | after an append, the cafe's slugs are its old slugs plus the new item's |
| Store.DuplicateSlugAccepted | app/lib/schema.ts:108 | the table itself accepts a duplicate slug in the same cafe, breaking slug uniqueness |
| Store.AppendFreshSlugKeepsUnique | app/lib/schema.ts:108 | appending an item whose slug its cafe does not use keeps slugs unique per cafe |
| Store.InsertCafeConsistent | app/lib/schema.ts:64-87 | a successful cafe insert keeps the store consistent |
| Store.InsertMenuItemConsistent | app/lib/schema.ts:89-111 | a successful menu-item insert keeps the store consistent |
| Store.AppendMenuItemConsistent | app/lib/schema.ts:89-111 | appending a fitting row under the next id keeps the store consistent |
| Store.MarkOnboarded | app/actions/completeOnboarding.ts:70-73 | sets that user's flag and refreshes its updated_at; every other user and every other table is unchanged |
| Schema.Assign | app/lib/schema.ts:68-75 | a varchar column stores a value that fits unchanged, and cuts a longer one to exactly the width, dropping only spaces |
| Schema.AssignOpt | app/lib/schema.ts:72-75 | a nullable varchar column keeps null and cuts a string as above, so the result fits |
| Schema.AssignedCafe | app/lib/schema.ts:66-87 | the stored cafe fits every column; a row that fits is stored unchanged, and only its varchar columns can change |
| Schema.AssignedMenuItem | app/lib/schema.ts:91-111 | the stored menu item fits every column; a row that fits is stored unchanged, and only its varchar columns can change |
| Schema.TrailingSpaceCut | app/lib/schema.ts:68 | "a" plus a space goes into a one-character column as "a", while "ab" is refused |
| Schema.IngredientDefaults | app/lib/schema.ts:113-133 | a new ingredient costs 0 cents, is not an allergen, has null optional columns, and fits when its keys do |
| Schema.SupplierDefaults | app/lib/schema.ts:135-157 | a new supplier costs 0 cents, is not preferred, has null optional columns, and fits when its keys do |
| Schema.EmployeeDefaults | app/lib/schema.ts:159-167 | a new employee is active and stamped now |
| Schema.UserDefaults | app/lib/schema.ts:3-15 | a new user has not onboarded, is not email-verified and has no image |
| Wizard.AllFalse | components/onboarding/OnboardingContext.tsx:39-41 | four completion flags, all false |
| Wizard.SetStep | components/onboarding/OnboardingContext.tsx:43-47 | clamps the step into 1..4 and touches nothing else |
| Wizard.Next | components/onboarding/OnboardingContext.tsx:49 | one step forward, staying put at step 4 |
| Wizard.Back | components/onboarding/OnboardingContext.tsx:50 | one step back, staying put at step 1 |
| Wizard.NextBack | components/onboarding/OnboardingContext.tsx:49-50 | back undoes next below the last step, and next undoes back above the first |
| Wizard.Update | components/onboarding/OnboardingContext.tsx:51 | patch keys are overwritten and every other key is kept |
| Wizard.UpdateIdempotent | components/onboarding/OnboardingContext.tsx:51 | applying a patch twice equals applying it once, and the empty patch changes nothing |
| Wizard.Reset | components/onboarding/OnboardingContext.tsx:52-56 | back to step 1, no data, four false flags |
| Wizard.SetCompletedStep | components/onboarding/OnboardingContext.tsx:58-64 | sets exactly position i; a negative index changes nothing; an index past the end extends the vector with holes |
| Wizard.ApplyKeepsInvariant | components/onboarding/OnboardingContext.tsx:43-64 | every operation keeps the step in 1..4 and at least four completion flags |
| Wizard.RunKeepsInvariant | components/onboarding/OnboardingContext.tsx:43-64 | any sequence of operations keeps that invariant |
| Wizard.InitialInvariant | components/onboarding/OnboardingContext.tsx:37-41 | the initial state satisfies the invariant |
| CafeApi.GetCafe | app/api/cafe/route.ts:10-50 | 401 exactly without a session; otherwise a cafe the user owns, or null exactly when the user owns none |
| CafeApi.GetTheCafe | app/api/cafe/route.ts:20-42 | with one cafe per owner, GET returns that owner's row |
| CafeApi.SetColumn | app/api/cafe/route.ts:66 | an undefined field keeps the column, null clears it, and a string replaces it |
| CafeApi.PhoneAfter | app/api/cafe/route.ts:66 | a phone sent replaces the column, cut to 50; otherwise as SetColumn; a fitting phone column stays fitting |
| CafeApi.Patched | app/api/cafe/route.ts:66 | only name, address and phone change, as the column types store them; updated_at and the rest are kept; a row that fitted still fits |
| CafeApi.UpdateOwned | app/api/cafe/route.ts:64-67 | the owner's rows are patched and every other row is unchanged |
| CafeApi.UpdateKeepsKeys | app/api/cafe/route.ts:64-67 | the update rewrites no id and no owner |
| CafeApi.UpdateIdempotent | app/api/cafe/route.ts:64-67 | patching twice is patching once |
| CafeApi.PutCafe | app/api/cafe/route.ts:52-75 | 401 exactly without a session; 400 name_required exactly for a falsy name; every error leaves the store unchanged; only cafes change, and only the owner's rows; a name or phone too wide fails even without a cafe; otherwise no cafe gives ok with nothing changed |
| CafeApi.OwnedRow | app/api/cafe/route.ts:67 | with one cafe per owner, the owner's row is the only row with that owner |
| CafeApi.PutRejected | app/api/cafe/route.ts:64-73 | for a cafe owner, PUT fails exactly when a field has the wrong JSON type, or the name or a phone sent runs past 300 or 50 characters with more than spaces |
| CafeApi.PutTooWide | app/api/cafe/route.ts:64-73 | for string fields, PUT fails exactly when the name or a phone sent runs past 300 or 50 characters with more than spaces, whether or not the user owns a cafe |
| CafeApi.PutConsistent | app/api/cafe/route.ts:64-71 | a successful PUT keeps the store consistent |
| CafeApi.UpdatedConsistent | app/api/cafe/route.ts:64-69 | an update that gets past the column types keeps a consistent store consistent |
| CafeApi.PutThenGet | app/api/cafe/route.ts:64-71 | after a successful PUT, both its reply and a following GET give the patched row |
| CafeApi.PutIdempotent | app/api/cafe/route.ts:52-75 | repeating a successful PUT changes nothing further |

## Left out

- Floating-point money.
  - Prices are exact reals, and `Math.round(price * 100)` is modelled as `floor(x·100 + 0.5)`.
  - Binary rounding of `price * 100` and of `price_cents / 100` is not modelled.
  - MenuCreate.CentsRoundTrip and MenuCreate.ReplyPrice therefore hold for exact decimals, not for every IEEE double.
- UTF-16 lengths. Strings are sequences of code points, so zod's `max(n)` and the column widths count code points.
- Infinity. A number is finite or NaN.
- Fractional or NaN wizard steps.
- Wizard.Next, Wizard.Back, Wizard.Run: React state batching. `next` and `back` compute from the step captured at render, so two calls in one event handler, or `setStep(3)` followed by `next()`, advance once from the rendered step. `Run` applies each operation to the previous result, as if every call came from a fresh render. Wizard.SetCompletedStep: a fractional index sets a property of the array, not an element; indices are integers here. Neither gap affects the step-range invariant.
- Time zones and the `Date` type. A timestamp is a number.
- URL validity (zod's `url()`, `new URL`). It is the `isUrl` parameter: the check belongs to a library whose source is not part of this model.
- `Date.now()` and the database's `now()`. Both are the `now` parameter.
- The race between the slug probe and the insert, and every other interleaving of concurrent requests. The model is sequential.
- Database I/O errors other than a value exceeding its column or int4 range, or a second cafe for an owner. A driver failure is `StoreRejected` with its cause, not its message text.
- Request bodies that are not JSON text. The route's and PUT's `catch` turns those into a 500, and the actions receive parsed values anyway. A JSON value that is not an object (`5`, `[]`, `"x"`) reads as a body whose fields are all missing, which the model covers: the schemas refuse it, and PUT answers 400 `name_required`. The exception is `null` on PUT: reading its fields throws, and the `catch` answers 500.
- Store.InsertCafe, Store.InsertMenuItem, Onboarding.Complete, MenuCreate.Create: a rejected insert leaves the serial counter where it was. In Postgres the `serial` default may already have drawn its value, depending on when the parameter casts are evaluated, so later rows can get higher ids than the model gives them. No handler relies on consecutive ids.
- Text.LowerChar, Text.Lower, Text.LowerIdentity: only the part of `toLowerCase` that survives slugify is modelled. Non-ASCII capitals such as 'Ä' are kept instead of lowered. 'İ' becomes the single character 'i', where JavaScript gives 'i' followed by a combining dot. slugify deletes every character outside a–z, 0–9, '-' and white space right after lowering, so its result is the same either way. The lemmas do not describe `toLowerCase` on the characters it deletes.
- Slug.Millis: the clock is a natural number below 8.64e15, so a clock set before 1970 (a negative `Date.now()`) is not modelled.
- CafeApi.PutCafe: the model refuses, with status 500, a PUT by a cafe owner whose name, address or phone is of another JSON type (a number, a boolean, an object). The program usually accepts that write: the database driver turns the value into text (an object into its JSON text) before Postgres sees it, and that text is stored.
- CafeApi.PutCafe, CafeApi.PutTooWide: a name or phone too wide for its column fails even when no row belongs to the user. That is what happens when Postgres works out the length casts of the bound parameters while planning, as it does for a one-off statement. Under a cached generic plan the casts run per matched row, and the zero-row update would answer ok.
- The server action's zod error detail and the route's `details` field. A validation failure is just `Invalid`.
- The authentication tables (session, account, verification) and email uniqueness of users. The handlers only read the session's user id.
- Cafe context, the employees route, the onboarding route wrapper, the onboarding step forms and the ingredient list. They are UI or library glue around the modelled operations.
- The ingredient and supplier server routes. Only their client forms are part of this model.
- The duplicated copies.
  - `slugify` and the unique-slug loop are written once, because the route's and the action's copies are character-for-character the same.
  - Their error messages are kept separately in MenuCreate.ReplyOf and MenuCreate.ActionOutcome.
