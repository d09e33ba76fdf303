# Storefront resource layer in Dafny

A functional model of the storefront's backend and of the small pieces of
client logic that decide what a shopper sees. Every modelled member is a pure
function of its inputs.

- **Key-value store** (`Kv`). The store is a `map<string, Value>`. Point
  get/set/delete are modelled directly. The prefix scan takes the store's
  enumeration order as a parameter, because the order in which the store
  lists records is not known.
- **Identity gate** (`Gate`). The second space-separated word of the
  `Authorization` header is verified by the identity provider. The provider is
  a parameter.
- **Catalog query engine** (`Catalog`). The nine `GET /products` filters are
  applied one after another. The model proves that the result is the
  order-preserving selection of the products that satisfy every supplied
  filter.
- **Resource handlers**:
  - signup and the profile (`Profiles`);
  - the product listing, the product page and reviews (`Products`);
  - orders and their per-user index (`Orders`);
  - the wishlist (`Wishlist`);
  - the route table with the gate in front of the protected routes
    (`Routes`).

  A handler returns a `Reply`: the HTTP status, the body, and the store after
  the request. Writes and their absence are therefore part of each contract.
- **Client state** (`Reducer`). The `appReducer` of the application context:
  theme, language, currency, cart, wishlist, user, search text and view mode.
- **Sign-in/sign-up form check** (`AuthForm`). `validateForm` is an ordered
  list of rules, and the first broken rule picks the message. The e-mail
  regular expression is modelled twice: as a checker, and as its literal
  reading. The two are proved equivalent.
- **Home page**:
  - the flash-sale countdown (`Countdown`);
  - the banner slider (`Slider`);
  - the flag-filtered product sections (`HomePage`).

Shared definitions live in `Wrappers` (Option/Result), `Json` (JSON values
and JavaScript truthiness), `Text` (trim, case folding, substring, split,
decimal rendering), `Seqs` (order-preserving filter and its lemmas) and
`Records` (stored values, key layout, replies).

The code only compares a review's rating with 1 and 5, so 4.5 would pass.
The model keeps those comparisons but takes ratings as integers (see Left
out). The store does not document the order of its prefix scan, so the model
takes that order as a parameter.

## Model

| member | source | states |
|---|---|---|
| Kv.Get | src/supabase/functions/server/index.tsx:223 | A point read returns the stored value exactly when the key is present. |
| Kv.Set | src/supabase/functions/server/index.tsx:274 | A write is an upsert: the key gains the value and no other key changes. |
| Kv.Del | src/supabase/functions/server/index.tsx:433 | A delete removes only that key, and deleting an absent key changes nothing. |
| Kv.SetIdempotent | src/supabase/functions/server/index.tsx:416 | Writing the same record twice leaves the same store as writing it once. |
| Kv.Scan | src/supabase/functions/server/index.tsx:174 | Every record a prefix scan returns is a stored record whose key starts with the prefix. |
| Kv.ScanFinds | src/supabase/functions/server/index.tsx:174 | Every enumerated key under the prefix appears in the scan. |
| Kv.ScanComplete | src/supabase/functions/server/index.tsx:174 | With the store's own enumeration, a scan finds every record under the prefix. |
| Kv.ScanKeysDistinct | src/supabase/functions/server/index.tsx:174 | A scan never lists a key twice. |
| Kv.ScanSkipThenTake | src/supabase/functions/server/index.tsx:230 | A scan keeps a record under the prefix and skips one outside it. |
| Gate.BearerToken | src/supabase/functions/server/index.tsx:59-62 | A token is found only as a non-empty, space-free second word of a present header. |
| Gate.Authenticate | src/supabase/functions/server/index.tsx:58-70 | No token gives no caller; otherwise the caller is whoever the provider says the token belongs to. |
| Gate.HeaderShape | src/supabase/functions/server/index.tsx:59 | The first two split words, rejoined with a space, begin the header. |
| Gate.WellFormedHeader | src/supabase/functions/server/index.tsx:59 | `<scheme> <token>` yields the token, whatever the scheme word is. |
| Gate.NoSecondWord | src/supabase/functions/server/index.tsx:59-62 | A header without a space authenticates nobody. |
| Gate.DoubleSpaceHasNoToken | src/supabase/functions/server/index.tsx:59-62 | Two spaces after the scheme leave an empty second word, so there is no token. |
| Catalog.SieveIsConjunction | src/supabase/functions/server/index.tsx:178-210 | Filtering step by step equals one filter by "passes every step". |
| Catalog.ConsPointwise | src/supabase/functions/server/index.tsx:178-210 | Passing the first step and then the rest is passing them all. |
| Catalog.PassesAllCons | src/supabase/functions/server/index.tsx:178-210 | Passing a list of steps means passing its head and its tail. |
| Catalog.PassesAllAppend | src/supabase/functions/server/index.tsx:178-210 | Passing two lists of steps back to back means passing each list. |
| Catalog.Criteria | src/supabase/functions/server/index.tsx:178-210 | The filter steps the handler runs for a query, in the handler's order: one step per supplied parameter, a flag step only for the literal `true`. |
| Catalog.ApplyFilters | src/supabase/functions/server/index.tsx:178-210 | Runs those steps one after another over the decoded products. `Catalog.ListingIsConjunction` characterises the result. |
| Catalog.Admits | src/supabase/functions/server/index.tsx:178-210 | The independent reference: every supplied filter holds field by field, and the search term matches any of name, description, category or brand. |
| Catalog.PassesStep | src/supabase/functions/server/index.tsx:178-210 | An absent parameter imposes nothing; a present one imposes its test. |
| Catalog.NineSteps | src/supabase/functions/server/index.tsx:178-210 | The nine conditional steps are passed exactly when each present step's test holds. |
| Catalog.Extend | src/supabase/functions/server/index.tsx:178-210 | Adding one conditional step to a list adds one conjunct to passing it. |
| Catalog.CriteriaAreStepwise | src/supabase/functions/server/index.tsx:178-210 | The steps built from a query are passed exactly when each supplied filter holds. |
| Catalog.CriteriaMeanAdmits | src/supabase/functions/server/index.tsx:178-210 | Passing the steps built from a query is the field-by-field reference condition. |
| Catalog.ListingIsConjunction | src/supabase/functions/server/index.tsx:174-212 | The listing keeps the scan order, lists only products meeting every filter, and omits none that meet them. |
| Catalog.NoFiltersKeepsAll | src/supabase/functions/server/index.tsx:178-210 | With no parameter supplied the whole catalog is returned unchanged. |
| Catalog.FlagNeedsLiteralTrue | src/supabase/functions/server/index.tsx:190-201 | A flag parameter other than the literal `true` has no effect. |
| Catalog.PriceBoundsInclusive | src/supabase/functions/server/index.tsx:184-189 | Both price bounds are inclusive, and a bound that parses to NaN admits nothing. |
| Catalog.BrandMatchIgnoresCase | src/supabase/functions/server/index.tsx:181-183 | The brand filter is a case-insensitive substring match, not equality. |
| Profiles.NewProfile | src/supabase/functions/server/index.tsx:102-108 | The new profile holds exactly the provider's id, email and name, an empty address list, and the request time as its creation time. |
| Profiles.Filled | src/supabase/functions/server/index.tsx:84 | A request field counts as given only when it is present and non-empty, as JavaScript truthiness treats a string. |
| Profiles.Signup | src/supabase/functions/server/index.tsx:80-122 | A missing field is refused with no write. The provider's refusal is passed on with its message and no write. When all three fields are filled and the provider accepts, the answer is 200 and exactly the new user's profile is written. |
| Profiles.SignupThenGetProfile | src/supabase/functions/server/index.tsx:80-142 | When all fields are filled and the provider accepts, the new user reads back the profile signup wrote. |
| Profiles.SignupExample | src/supabase/functions/server/index.tsx:80-122 | A concrete signup stores the given email and name with no addresses. |
| Profiles.GetProfile | src/supabase/functions/server/index.tsx:125-142 | The caller alone sees their own profile, and a stored profile is always answered with 200 and that profile. A missing record is 404. Nothing is written. |
| Profiles.Merge | src/supabase/functions/server/index.tsx:159 | The payload overrides stored fields, untouched fields survive, and the id is always the caller's. |
| Profiles.UpdateProfile | src/supabase/functions/server/index.tsx:145-167 | Only an existing profile is updated. A stored profile is always updated: the answer is 200 with the merge, and the merge is what is stored. |
| Profiles.UpdateCannotChangeId | src/supabase/functions/server/index.tsx:159 | Whatever id the payload carries, the stored profile keeps the caller's id. |
| Profiles.UpdateThenGet | src/supabase/functions/server/index.tsx:125-167 | With no profile stored the update is 404 and nothing is written. Otherwise a later read returns exactly the merge, carrying the caller's id. |
| Products.ProductsIn | src/supabase/functions/server/index.tsx:175 | The decoded products are exactly the product values among the scanned records. |
| Products.ReviewsIn | src/supabase/functions/server/index.tsx:231 | The decoded reviews are exactly the review values among the scanned records. |
| Products.ListProducts | src/supabase/functions/server/index.tsx:170-212 | The listing is an order-preserving selection of stored products that all meet the query; nothing is written. |
| Products.ListedProductsAreStored | src/supabase/functions/server/index.tsx:174-212 | Every listed product is a stored catalog record. |
| Products.AdmittedProductsAreListed | src/supabase/functions/server/index.tsx:174-212 | Every stored product the query admits is listed. |
| Products.PriceWindowExample | src/supabase/functions/server/index.tsx:184-189 | A 2000–3000 window over four prices keeps only the one inside. |
| Products.WindowSelection | src/supabase/functions/server/index.tsx:184-189 | Of four products only the one in the window is admitted. |
| Products.ReviewsUnderPrefix | src/supabase/functions/server/index.tsx:230-231 | Every listed review is stored under the product's review prefix. |
| Products.ScannedReviewStored | src/supabase/functions/server/index.tsx:230-231 | Every review a prefix scan decodes is stored under that prefix. |
| Products.PrefixReviewsListed | src/supabase/functions/server/index.tsx:230-231 | With the store's own enumeration, every stored review under the product's prefix is listed. |
| Products.GetProductAsWritten | src/supabase/functions/server/index.tsx:220-238 | As written: 404 exactly when the product is absent, and 200 whenever it is stored. The page carries the product with every review under its prefix. |
| Products.PrefixScanLeaksReviews | src/supabase/functions/server/index.tsx:230 | A review posted to product `1:x` is listed on product `1`. |
| Products.GetProduct | src/supabase/functions/server/index.tsx:220-238 | Corrected: 404 exactly when the product is absent, and 200 whenever it is stored. The page lists only reviews whose own product id is the requested one, in scan order. |
| Products.NoLeakAfterCorrection | src/supabase/functions/server/index.tsx:230 | In the same scenario, the corrected page of product `1` lists no reviews. |
| Products.OwnReviewsListed | src/supabase/functions/server/index.tsx:220-238 | With the store's own enumeration, every stored review of an existing product appears on its corrected page. |
| Products.AuthorName | src/supabase/functions/server/index.tsx:267 | The author is the profile's truthy name, else "Anonymous". |
| Products.ReviewId | src/supabase/functions/server/index.tsx:261 | A review id is the decimal submission time, a dash, and the author's id. |
| Products.ReviewIdInjective | src/supabase/functions/server/index.tsx:261 | Two review ids are equal exactly when their times and authors are. |
| Products.ShorterTimeDiffers | src/supabase/functions/server/index.tsx:261 | Times with digit strings of different lengths never give the same review id. |
| Products.AddReview | src/supabase/functions/server/index.tsx:246-281 | Refused without a caller or a rating in 1..5, with no write; otherwise exactly one review record under the product's prefix, carrying the caller, rating, comment and time. |
| Products.RatingBounds | src/supabase/functions/server/index.tsx:256-258 | Ratings 0 and 6 and a missing rating are refused; 1 and 5 are accepted. |
| Products.ReviewAppearsOnItsProduct | src/supabase/functions/server/index.tsx:220-281 | A review of an existing product appears on that product's page. |
| Orders.Take | src/supabase/functions/server/index.tsx:297 | The slice is a prefix of the id, at most 8 characters long. |
| Orders.OrderId | src/supabase/functions/server/index.tsx:297 | An order id starts with `ORDER-`. |
| Orders.OrderIdParts | src/supabase/functions/server/index.tsx:297 | An order id decodes to the `ORDER-` tag, the placement time, a dash and at most the first 8 characters of the user id. |
| Orders.DistinctTimesDistinctIds | src/supabase/functions/server/index.tsx:297 | One user's orders placed at different milliseconds get different ids. |
| Orders.Complete | src/supabase/functions/server/index.tsx:293 | An order request is complete when `items` is present with a truthy length and the address and payment method are truthy. |
| Orders.CreateOrder | src/supabase/functions/server/index.tsx:284-319 | Refused without a caller or complete data, with no write. Otherwise a pending order of the caller is stored under the id built from the time and the caller, with its index record, and nothing else changes. |
| Orders.ItemsNeedLength | src/supabase/functions/server/index.tsx:293 | An empty item array or a plain number is refused; a one-item array is accepted. |
| Orders.ResolveOrders | src/supabase/functions/server/index.tsx:329-338 | Every index record naming a stored order yields that order. |
| Orders.ResolvedFromEntry | src/supabase/functions/server/index.tsx:329-338 | Every resolved order is the stored order some index record names. |
| Orders.Insert | src/supabase/functions/server/index.tsx:341 | Insertion keeps the list newest-first and adds exactly the one order. |
| Orders.SortNewestFirst | src/supabase/functions/server/index.tsx:341 | The sort is a newest-first permutation of its input. |
| Orders.InsertKeepsTies | src/supabase/functions/server/index.tsx:341 | An inserted order goes after the orders of its millisecond already present. |
| Orders.NewerGoesFirst | src/supabase/functions/server/index.tsx:341 | An order newer than the whole list goes in front without reordering any millisecond's orders. |
| Orders.OlderGoesLater | src/supabase/functions/server/index.tsx:341 | Inserting behind the head keeps each millisecond's order. |
| Orders.SortIsStable | src/supabase/functions/server/index.tsx:341 | Orders of the same millisecond keep their scan order. |
| Orders.History | src/supabase/functions/server/index.tsx:329-341 | The caller's history is newest first and holds exactly the orders resolved from their index records. |
| Orders.ListOrders | src/supabase/functions/server/index.tsx:322-348 | 401 exactly without a caller. A caller always gets 200 and their resolved orders, newest first, none lost or added. |
| Orders.IndexedOrdersListed | src/supabase/functions/server/index.tsx:329-338 | With the store's own enumeration, every stored order named by one of the caller's index records is listed. |
| Orders.GetOrder | src/supabase/functions/server/index.tsx:351-374 | 404 exactly when the order is absent, then 403 exactly when it is another user's. The owner always gets 200 and the stored order. |
| Orders.CreateThenGet | src/supabase/functions/server/index.tsx:284-374 | The owner can fetch a new order, pending and with its items; any other user gets 403. |
| Orders.CreateThenList | src/supabase/functions/server/index.tsx:284-348 | A new order appears in its owner's history. |
| Wishlist.ResolveProducts | src/supabase/functions/server/index.tsx:385-392 | Every wishlist record naming a stored product yields that product. |
| Wishlist.ResolvedFromEntry | src/supabase/functions/server/index.tsx:385-392 | Every resolved product is the stored product some wishlist record names. |
| Wishlist.ListWishlist | src/supabase/functions/server/index.tsx:377-400 | 401 exactly without a caller. A caller always gets 200, and every listed item is a stored product the caller saved. Nothing is written. |
| Wishlist.ResolvedProductSaved | src/supabase/functions/server/index.tsx:385-392 | A product resolved from the caller's scan is one the caller saved. |
| Wishlist.SavedProductsListed | src/supabase/functions/server/index.tsx:384-392 | With the store's own enumeration, every stored product the caller saved is listed. |
| Wishlist.AddToWishlist | src/supabase/functions/server/index.tsx:402-423 | 404 with no write exactly when the product is not stored. A caller adding a stored product always gets 200, and only the caller's link record is written. |
| Wishlist.RemoveFromWishlist | src/supabase/functions/server/index.tsx:425-440 | Always succeeds for a caller, deletes only the link, and changes nothing when the link is absent. |
| Wishlist.AddIsIdempotent | src/supabase/functions/server/index.tsx:402-423 | Saving a product twice equals saving it once. |
| Wishlist.AddThenRemove | src/supabase/functions/server/index.tsx:402-440 | Saving a product that was not saved and then removing it restores the store. |
| Wishlist.AddThenList | src/supabase/functions/server/index.tsx:377-423 | A saved product appears in its owner's wishlist. |
| Wishlist.UnknownProductRefused | src/supabase/functions/server/index.tsx:409-414 | An unknown product is refused with 404 and nothing is written. |
| Routes.CatalogKeyInitial | src/supabase/functions/server/index.tsx:174 | Every catalog key begins with `p`. |
| Routes.ChangedOutside | src/supabase/functions/server/index.tsx:274 | A write confined to keys not starting with `p` keeps every catalog record. |
| Routes.SignupKeepsCatalog | src/supabase/functions/server/index.tsx:102-108 | Signup keeps every catalog record. |
| Routes.UpdateKeepsCatalog | src/supabase/functions/server/index.tsx:159-160 | A profile update keeps every catalog record. |
| Routes.ReviewKeepsCatalog | src/supabase/functions/server/index.tsx:274 | Posting a review keeps every catalog record. |
| Routes.OrderKeepsCatalog | src/supabase/functions/server/index.tsx:311-312 | Placing an order keeps every catalog record. |
| Routes.SaveKeepsCatalog | src/supabase/functions/server/index.tsx:416 | Saving to the wishlist keeps every catalog record. |
| Routes.RemoveKeepsCatalog | src/supabase/functions/server/index.tsx:433 | Removing from the wishlist keeps every catalog record. |
| Routes.CatalogUntouched | src/supabase/functions/server/index.tsx:80-440 | No route writes or deletes a catalog record. |
| Routes.Dispatch | src/supabase/functions/server/index.tsx:58-440 | Every protected handler refuses a request with no caller with 401 before reading or writing anything. |
| Routes.Serve | src/supabase/functions/server/index.tsx:58-440 | A protected route with no valid token is 401 with no write; only success writes; read routes never write; the catalog is kept. |
| Routes.ProductPageIsCorrected | src/supabase/functions/server/index.tsx:220-238 | The served product page has the as-written page's status and store, and its reviews are the as-written reviews of that product alone, in the same order. |
| Routes.PublicRoutesIgnoreToken | src/supabase/functions/server/index.tsx:170-243 | The listing and the product page answer the same with any header. |
| Routes.TokenSelectsProfile | src/supabase/functions/server/index.tsx:58-142 | A valid bearer token reads exactly its own user's profile. |
| Reducer.Toggle | src/contexts/AppContext.tsx:115-116 | Toggling always changes the theme. |
| Reducer.FirstWithKey | src/contexts/AppContext.tsx:125-129 | Finds the first cart line of the product, size and colour, or reports that there is none. |
| Reducer.AddQuantity | src/contexts/AppContext.tsx:131-139 | Only the matched line's quantity grows by the added amount. |
| Reducer.NewLineId | src/contexts/AppContext.tsx:143 | A new cart line's id is the product id, size, colour and clock reading joined by dashes. |
| Reducer.AddLine | src/contexts/AppContext.tsx:124-151 | A matching line absorbs the quantity with no new line; otherwise one new line is appended and earlier lines are kept. |
| Reducer.MergeTouchesOneLine | src/contexts/AppContext.tsx:131-139 | With distinct line ids, a merge leaves every other line unchanged. |
| Reducer.RemoveLine | src/contexts/AppContext.tsx:153-154 | The cart keeps its order, loses every line with that id, and keeps every other line. |
| Reducer.AddLineKeepsLinesUnique | src/contexts/AppContext.tsx:124-151 | Adding to the cart never creates two lines with the same product, size and colour. |
| Reducer.SetQuantity | src/contexts/AppContext.tsx:156-164 | Only the targeted line's quantity is replaced; ids and keys are unchanged. |
| Reducer.Wish | src/contexts/AppContext.tsx:169-173 | An already listed product changes nothing; otherwise it is appended; either way it is listed. |
| Reducer.WishKeepsIdsUnique | src/contexts/AppContext.tsx:169-173 | The wishlist never lists a product id twice. |
| Reducer.WishIsIdempotent | src/contexts/AppContext.tsx:169-173 | Adding the same product twice equals adding it once. |
| Reducer.Unwish | src/contexts/AppContext.tsx:175-176 | The wishlist keeps its order, no longer lists that id, and keeps every other product. |
| Reducer.WishThenUnwish | src/contexts/AppContext.tsx:169-176 | Saving a product that is not listed and then removing it restores the wishlist. |
| Reducer.Reduce | src/contexts/AppContext.tsx:113-190 | Each setter replaces exactly its own field. Adding to the cart applies the merge-or-append rule, a quantity update rewrites the named line, and adding to the wishlist applies the no-duplicate rule. Every action changes only its own part of the state. Removals keep the order and drop exactly the named entries. |
| Reducer.ToggleTwiceIsIdentity | src/contexts/AppContext.tsx:115-116 | Toggling the theme twice restores the state. |
| Reducer.ReducePreservesValid | src/contexts/AppContext.tsx:113-190 | Every action keeps cart keys and wishlist ids unique, and keeps the authenticated flag matching the user. |
| Reducer.ReachableIsValid | src/contexts/AppContext.tsx:95-190 | Every state reachable from the initial state satisfies those invariants. |
| AuthForm.AtIndex | src/components/AuthDialog.tsx:104 | The first `@` of the address, or its length when there is none. |
| AuthForm.AtIndexFinds | src/components/AuthDialog.tsx:104 | The first `@` is found where it is. |
| AuthForm.IsEmail | src/components/AuthDialog.tsx:104-105 | The executable reading of the e-mail pattern: no whitespace, one `@` with something before it, and a domain with an inner dot. `AuthForm.EmailCheckIsPattern` proves it equals the literal pattern. |
| AuthForm.EmailCheckIsPattern | src/components/AuthDialog.tsx:104-105 | The executable check accepts exactly the strings the regular expression matches. |
| AuthForm.PatternShape | src/components/AuthDialog.tsx:104-105 | Any string of the regular expression's shape passes the check. |
| AuthForm.FirstBroken | src/components/AuthDialog.tsx:83-111 | Accepts exactly when every rule holds; otherwise names the first broken rule. |
| AuthForm.Validate | src/components/AuthDialog.tsx:83-111 | Accepts exactly when every rule of the mode holds. |
| AuthForm.ValidateForm | src/components/AuthDialog.tsx:83-111 | `validateForm`'s boolean: true exactly when no rule of the mode is broken. |
| AuthForm.Toast | src/components/AuthDialog.tsx:83-111 | An error toast is raised exactly when the form is refused. |
| AuthForm.ToastNamesRule | src/components/AuthDialog.tsx:85-107 | The toast shows a rule's message exactly when that rule is the first one broken, so the message identifies the rule. |
| AuthForm.MessagesDiffer | src/components/AuthDialog.tsx:85-107 | No two rules share a message. |
| AuthForm.AcceptedMeans | src/components/AuthDialog.tsx:83-111 | A form is accepted exactly when its fields meet the mode's conditions, including the literal e-mail pattern. |
| AuthForm.BlankNameRejected | src/components/AuthDialog.tsx:85-88 | A blank name is signup's first complaint. |
| AuthForm.SignupPasswordChecks | src/components/AuthDialog.tsx:89-96 | A mismatched confirmation comes next, then a short password. |
| AuthForm.LoginIgnoresSignupFields | src/components/AuthDialog.tsx:83-111 | Login ignores the name and the confirmation. |
| AuthForm.BlankCredentialsRejected | src/components/AuthDialog.tsx:99-102 | A blank email or password is refused in both modes. |
| AuthForm.SignupStricterThanLogin | src/components/AuthDialog.tsx:83-111 | Whatever signup accepts, login accepts. |
| AuthForm.EmailAccepted | src/components/AuthDialog.tsx:104-105 | `a@b.co` passes the check. |
| AuthForm.EmailRejected | src/components/AuthDialog.tsx:104-105 | `a@b`, `a@.co`, `a b@c.d` and `a@b@c.d` fail the check. |
| Countdown.Tick | src/components/HomePage.tsx:28-37 | A running countdown loses exactly one second and stays non-negative; zero stays zero. |
| Countdown.TickKeepsClockFace | src/components/HomePage.tsx:28-37 | Minutes and seconds stay in 0..59. |
| Countdown.RunsDownToZero | src/components/HomePage.tsx:15-37 | The countdown reaches 0:0:0 after exactly its seconds, not sooner, and stays there. |
| Countdown.NotYet | src/components/HomePage.tsx:28-37 | Before its seconds have run out the countdown never shows 0:0:0. |
| Countdown.Drains | src/components/HomePage.tsx:28-37 | At least as many ticks as seconds left empty the countdown. |
| Countdown.NothingLeft | src/components/HomePage.tsx:36 | No seconds left means 0:0:0. |
| Countdown.StartTotal | src/components/HomePage.tsx:15 | The starting value 23:45:32 is a valid clock face, 85532 seconds from zero. |
| Slider.Next | src/components/HomePage.tsx:20 | The next slide is in range and wraps from the last slide to the first. |
| Slider.Prev | src/components/HomePage.tsx:233 | The previous slide is in range and wraps from the first slide to the last. |
| Slider.PrevUndoesNext | src/components/HomePage.tsx:233-241 | The two arrows undo each other. |
| Slider.Advance | src/components/HomePage.tsx:18-23 | Repeated advancing stays non-negative. |
| Slider.AdvanceWithinOneTurn | src/components/HomePage.tsx:18-23 | Within one turn, k advances move k slides forward, wrapping past the last. |
| Slider.FullTurn | src/components/HomePage.tsx:18-23 | As many advances as there are banners return to the start. |
| HomePage.Sectioned | src/components/HomePage.tsx:313-345 | Each section lists, in catalog order, exactly the products carrying its flag. |
| HomePage.TrendingMatchesServerFilter | src/components/HomePage.tsx:329 | The trending section equals the server's `trending=true` listing. |
| Text.ToLower | src/supabase/functions/server/index.tsx:179 | Case folding keeps the length and maps each character on its own. |
| Text.ToLowerIdempotent | src/supabase/functions/server/index.tsx:179 | Folding twice equals folding once. |
| Text.Includes | src/supabase/functions/server/index.tsx:179 | `includes` holds exactly when the needle occurs at some position. |
| Text.Trim | src/components/AuthDialog.tsx:85 | The result is a slice of the input with only whitespace cut from either side. It is empty exactly for blank input, and otherwise neither end is whitespace. |
| Text.TrimIdempotent | src/components/AuthDialog.tsx:85 | Trimming a trimmed string changes nothing. |
| Text.Split | src/supabase/functions/server/index.tsx:59 | No split piece contains the separator. |
| Text.JoinSplit | src/supabase/functions/server/index.tsx:59 | Joining the split pieces with the separator restores the string. |
| Text.NatToString | src/supabase/functions/server/index.tsx:261 | The decimal rendering of a clock reading is a non-empty string of digits. |
| Text.NatToStringRoundTrip | src/supabase/functions/server/index.tsx:261 | The decimal rendering of a time reads back as the same number. |
| Seqs.Filter | src/supabase/functions/server/index.tsx:179 | The filter keeps only satisfying elements and keeps every satisfying one. |
| Seqs.FilterIsSubsequence | src/supabase/functions/server/index.tsx:179 | The filter keeps the relative order. |
| Seqs.FilterCompose | src/supabase/functions/server/index.tsx:178-210 | Two filters in a row equal one filter by both tests. |

## Left out

- The identity provider's token check and account creation are parameters
  (`verify`, `createUser`). Password hashing and sessions are not modelled.
- Object-storage bucket setup, the demo data seeding route, the health route,
  the web framework, CORS, and every 500 "internal error" path are not part of
  this model. The 500 paths arise only when a collaborator throws.
- Timestamps are integer milliseconds. Their ISO-8601 rendering is not
  modelled. Orders are sorted on the millisecond value, which orders them the
  same way as their ISO strings.
- Case folding covers ASCII letters only. The JavaScript `toLowerCase` maps
  all of Unicode.
- `parseFloat` is replaced by its outcome, a whole number or NaN
  (`Catalog.Bound`). Fractional prices are not modelled.
- Text.Trim: the whitespace set is the ECMAScript one. Lengths count
  characters, not UTF-16 code units, so the 6-character password minimum
  differs from JavaScript for characters outside the Basic Multilingual
  Plane.
- The client's currency conversion and price formatting, the persistence of
  the cart to the browser's local storage, the display of toasts and
  rendering are not part of this model.
- Display-only product fields (images, rating, review count) are not modelled.
  No handler reads them.
- Stored values are typed by kind (`Records.Value`). A record of another
  kind where one kind is expected reads as absent, so the handlers answer 404
  or skip it, whereas the code would pass on whatever JSON is stored there.
  No write in the code produces such a store: each key prefix is only ever
  written with its own kind. The `user:` prefix holds both profiles and order
  index records, and they stay apart because provider-issued user ids contain
  no `:order:`.
- Kv.Scan: the order in which the store lists records is a parameter. Its
  completeness (`Kv.ScanComplete`) is proved for the store's own enumeration.
- Products.AddReview: the rating is an integer. The code compares a JSON
  number with 1 and 5, so a fractional rating such as 4.5 would also be
  stored. The code does not check that the product exists, and neither does
  the model.
- Slider.Next, Slider.Prev: require at least one banner. With no banners the
  code computes `NaN`. The page's banner list is fixed demo data with two
  entries (src/data/mockData.ts:142-159).
- Orders.CreateOrder: order ids are not proved unique. The id keeps only the
  first 8 characters of the user id. Two orders in the same millisecond share
  an id when they are by the same user, or by two users whose ids share their
  first 8 characters. The second order then overwrites the first.
- Reducer.Reduce: the clock reading that names a new cart line is a
  parameter. Line ids are not proved unique.
- Routes.Serve: the product route is served by the corrected handler
  (`Products.GetProduct`). The handler as written is
  `Products.GetProductAsWritten`, and `Routes.ProductPageIsCorrected` states
  how the two pages differ.
- The wishlist's and the order index's two writes are not atomic in the code.
  The model treats each request as one step, so crash interleavings are not
  modelled. The listings' skipping of dangling references is modelled.

## Findings

| source | as written | input that shows it | evidently intended | confidence | as-written member | corrected member |
|---|---|---|---|---|---|---|
| src/supabase/functions/server/index.tsx:230 | The product page lists every record under `review:product:<id>:`. Product ids are free text, so that prefix also covers `review:product:<id>:<more>:…`, the reviews of product `<id>:<more>`, written at line 274. | With product `1` stored, POST `/products/1:x/reviews` with rating 5, then GET `/products/1`. The review of `1:x` is listed on product `1`. | A product page lists only reviews whose product id is that product. | not executed | Products.PrefixScanLeaksReviews | Products.NoLeakAfterCorrection |
