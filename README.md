# Grocery price backend — a verified model of its request rules

The system is an Express/Prisma/Redis backend for comparing grocery prices.
Users register and sign in, VERIFIED and ADMIN users maintain products,
supermarkets and inventory listings (a price for a product in a
supermarket), and any signed-in user can ask for a shopping list priced at
the cheapest in-stock listing in a city. This project models the rules the
request handlers apply. It covers:

- the role check of every route, kept file by file: the TypeScript
  controllers and their compiled JavaScript twins under `dist/` disagree in
  places, and both are modelled as written;
- the shopping-list loop;
- the cheapest-listing and per-category price queries;
- the product, supermarket and inventory writes;
- the user-profile handlers, with `calculateAge` and `removeNullFields`;
- the promote and demote role changes;
- the refresh-token slot of the token service;
- the bearer-header parsing of the authentication guard.

How the stores are represented:

- The database is a set of Dafny values. Listings are a `seq<Listing>` in
  store order. Products, supermarkets and users are `map`s keyed by id or by
  email.
- A handler is a function from the caller's principal, the tables and the
  request fields to a status and the new table (`Write`), or to a status and
  a body (`Reply`).
- Prices are integer cents.
- The Redis cache is a `map` from key to value and expiry second, held in
  the `AuthService` class.
- The JWT library is a pair of functions given to the service.
- The request the guard sees is an `Exchange` object whose `user`, `status`
  and `nextCalled` fields the guard updates.
- A JavaScript object is its sequence of entries in insertion order
  (module `JsObject`). Property read and write follow JavaScript rules.
  `Written` applies an update object to a stored row the way the store does:
  an `undefined` value leaves the column alone.

Modules and files:

| module | file | models |
|---|---|---|
| `Entities` | entities.dfy | roles, principals, statuses, calendar dates, product, supermarket and listing rows |
| `Access` | access.dfy | the gate of every route in each file |
| `Listings` | listings.dfy | the shared price-query filter and the cheapest-listing selection |
| `ShoppingList` | shopping_list.dfy | POST `/shopping-list` (both twins) |
| `InventoryControllerDist` | inventory_controller_dist.dfy | dist/controllers/inventoryController.js |
| `InventoryController` | inventory_controller.dfy | controllers/inventoryController.ts |
| `ProductController` | product_controller.dfy | controllers/productController.ts |
| `ProductControllerDist` | product_controller_dist.dfy | dist/controllers/productController.js |
| `SupermarketController` | supermarket_controller.dfy | both supermarket controllers (same branches) |
| `JsObject` | js_object.dfy | object entries, property read/write, `removeNullFields`, store updates |
| `UserController` | user_controller.dfy | both user controllers; promote and demote exist only in dist |
| `Auth` | auth_service.dfy | `AuthService` (both twins) |
| `AuthGuard` | auth_guard.dfy | `authGuard` (both twins) |

## Model

| member | source | states |
|---|---|---|
| Access.FilesDisagreeOnlyOnProductDelete | controllers/productController.ts:113-116 | among routes present in both files, product DELETE is the only one whose gates differ: VERIFIED passes in the TypeScript file and not in the compiled one |
| Access.AdminPassesEveryRoute | dist/controllers/inventoryController.js:18-21 | every route that exists in either file admits ADMIN |
| Access.GatesAreUpwardClosed | controllers/supermarketController.ts:12-13 | although every route lists its roles explicitly, in both files a role that passes implies every higher role passes |
| Access.BasicIsReadOnly | dist/controllers/inventoryController.js:103-106 | among compiled routes with a role check, BASIC passes exactly the supermarket list, supermarket get and cheapest-listing routes |
| Listings.CheapestListing | controllers/shoppingListController.ts:18-33 | None exactly when no listing is for the product, in stock and in the city; otherwise a matching listing no matching listing undercuts |
| Listings.CheapestPriceIsDetermined | dist/controllers/inventoryController.js:117-119 | whichever cheapest row the store picks among equal prices, the price is the same |
| Listings.RemoveKey | controllers/inventoryController.ts:113-120 | delete by the (supermarketId, productId) pair keeps exactly the rows of other pairs |
| Listings.RemoveKeyAbsent | controllers/inventoryController.ts:113-120 | deleting a pair no row has changes nothing |
| Listings.RemoveKeyDropsOneRow | controllers/inventoryController.ts:113-120 | with the pair as a primary key, deleting a present pair removes exactly one row |
| Listings.RemoveKeyKeepsUnique | controllers/inventoryController.ts:113-120 | deleting a pair keeps the pairs of the remaining rows unique |
| Listings.AppendNewPairKeepsUnique | controllers/inventoryController.ts:19-31 | appending a row whose pair is absent keeps the pairs unique |
| ShoppingList.CreateShoppingList | controllers/shoppingListController.ts:15-66 | the loop yields one line per requested item in request order, each line being the line for that item; the receipt echoes the caller's email, the date and the city; the total is the fold of the subtotals |
| ShoppingList.LinesAt | dist/controllers/shoppingListController.js:19-54 | line i of the answer belongs to item i, and there are as many lines as items |
| ShoppingList.HitLine | controllers/shoppingListController.ts:35-42 | with a matching listing, the line is priced from a cheapest matching listing, echoes the quantity, and its subtotal is price times quantity |
| ShoppingList.MissLine | controllers/shoppingListController.ts:43-51 | without a matching listing, the line is the placeholder naming product and city, with supermarket "N/A", price 0, subtotal 0 and the echoed quantity |
| ShoppingList.TotalAppend | controllers/shoppingListController.ts:54-58 | the left-fold total of a concatenation is the sum of the totals |
| ShoppingList.Resolvable | controllers/shoppingListController.ts:18-35 | an item is kept exactly when some in-stock listing in the city serves it |
| ShoppingList.TotalCountsOnlyResolvedItems | controllers/shoppingListController.ts:43-58 | placeholder lines add nothing: the total equals the total over the resolvable items alone |
| InventoryControllerDist.ToProductCategory | dist/controllers/inventoryController.js:11-16 | returns its argument exactly when it is a value of the category enumeration, otherwise None |
| InventoryControllerDist.Cheapest | dist/controllers/inventoryController.js:102-140 | no role is refused; 404 exactly when no listing matches; otherwise the view of a cheapest matching listing, carrying `updatedAt` and `updatedBy` exactly when the caller is ADMIN |
| InventoryControllerDist.InCategory | dist/controllers/inventoryController.js:193-204 | a product is selected exactly when it has the category and some in-stock listing in the city |
| InventoryControllerDist.ByCategory | dist/controllers/inventoryController.js:182-229 | 403 exactly for BASIC; 400 exactly for a name outside the enumeration, before any lookup; otherwise 200 with one entry per selected product with its name and exactly one offer, the price and supermarket of a cheapest in-stock listing in the city |
| InventoryControllerDist.ListAll | dist/controllers/inventoryController.js:67-94 | one summary per row, in order, with that row's product name, supermarket name, price, stock flag and update time |
| InventoryControllerDist.OfSupermarket | dist/controllers/inventoryController.js:151-154 | keeps exactly the rows of the supermarket |
| InventoryControllerDist.BySupermarket | dist/controllers/inventoryController.js:148-174 | 404 exactly when the supermarket has no rows; otherwise exactly its rows |
| InventoryControllerDist.Create | dist/controllers/inventoryController.js:18-59 | 403 exactly for BASIC; created exactly when product and supermarket exist and the pair has no row, otherwise a store error; the appended row is the whole new listing: the pair, the product name, the supermarket name and city, the price, the default stock flag, the caller as creator and updater, and the time; earlier rows unchanged, and the table unchanged on failure |
| InventoryControllerDist.Update | dist/controllers/inventoryController.js:237-262 | 403 exactly for BASIC; 200 exactly when the pair has a row; that row gets the body's price and stock flag when given, the time and the caller; every other row is unchanged |
| InventoryControllerDist.Delete | dist/controllers/inventoryController.js:270-284 | 403 exactly for non-ADMIN; 204 exactly when the pair has a row, which is then gone while every other row stays |
| InventoryControllerDist.CreateKeepsPairsUnique | dist/controllers/inventoryController.js:18-59 | a create never gives two rows the same (supermarketId, productId) pair |
| InventoryControllerDist.DeleteRemovesOneRow | dist/controllers/inventoryController.js:270-284 | with unique pairs, a successful delete removes exactly one row and keeps the pairs unique |
| InventoryControllerDist.UpdateStockFlagReachesQueries | dist/controllers/inventoryController.js:242-254 | a stock-flag patch succeeds and makes the row visible to the price queries exactly when the flag is true, keeping its price |
| InventoryController.Create | controllers/inventoryController.ts:10-44 | 403 exactly for BASIC, before any store access; created exactly when product and supermarket exist and the pair is new, otherwise a store error; the appended row is the whole new listing: the pair, the product name, the supermarket name and city, the price, the default stock flag, the caller as creator and updater, and the time; earlier rows unchanged |
| InventoryController.Update | controllers/inventoryController.ts:70-97 | 403 exactly for BASIC; 200 exactly when the pair has a row; only that row changes, and only in price (when given), time and updater; no row's stock flag changes |
| InventoryController.Delete | controllers/inventoryController.ts:105-122 | 403 exactly for non-ADMIN; 204 exactly when the pair has a row, which is then gone |
| InventoryController.CreateKeepsPairsUnique | controllers/inventoryController.ts:10-44 | a create never gives two rows the same (supermarketId, productId) pair |
| InventoryController.DeleteRemovesOneRow | controllers/inventoryController.ts:105-122 | with unique pairs, a successful delete removes exactly one row and keeps the pairs unique |
| InventoryController.UpdateKeepsQueryMatches | controllers/inventoryController.ts:86-94 | a TypeScript price update never changes which rows the price queries match |
| ProductController.Create | controllers/productController.ts:11-37 | 403 exactly for BASIC; otherwise, under the fresh id the store generates, exactly the new product row: the fresh id, the body's name, category and comments, the caller as creator and last updater, and `updatedAt` as now; every existing row unchanged |
| ProductController.Get | controllers/productController.ts:61-76 | no role check; the product, or 404 exactly when the id is absent |
| ProductController.Replace | controllers/productController.ts:83-106 | 403 exactly for BASIC; 200 exactly when the id exists; each given field is written, the others kept, `updatedAt` is now and the caller is the updater; the id, the creator and the other rows are kept |
| ProductController.Delete | controllers/productController.ts:113-124 | VERIFIED or ADMIN; the row goes when it exists, the rest stays |
| ProductControllerDist.Create | dist/controllers/productController.js:14-47 | 403 exactly for BASIC; 400 exactly when the name is already taken; otherwise, under the fresh id, exactly the new product row (name, category, comments, the caller as creator and updater, the time), every existing row unchanged |
| ProductControllerDist.CreateKeepsNamesUnique | dist/controllers/productController.js:20-29 | starting from a table with unique names, a create never leaves two products with the same name |
| ProductControllerDist.Get | dist/controllers/productController.js:71-88 | the product, or 404 exactly when the id is absent |
| ProductControllerDist.Patch | dist/controllers/productController.js:95-139 | 403 exactly for BASIC; 200 exactly when the id exists; only that row changes, and it changes as the role-dependent update says |
| ProductControllerDist.VerifiedPatchOnlyAttributes | dist/controllers/productController.js:102-108 | a VERIFIED caller's PATCH changes nothing but the updater |
| ProductControllerDist.AdminPatchCopiesTruthyFields | dist/controllers/productController.js:109-119 | an ADMIN's PATCH writes exactly the truthy fields among name, category and comments, keeps the creator and sets the caller as updater |
| ProductControllerDist.PatchIgnoresPrice | dist/controllers/productController.js:100-124 | the body's price has no effect on the answer or the table |
| ProductControllerDist.Delete | dist/controllers/productController.js:147-156 | 403 exactly for non-ADMIN; the row goes when it exists |
| SupermarketController.Create | controllers/supermarketController.ts:11-49 | 403 exactly for non-ADMIN; otherwise, under the fresh id, the new supermarket with the body's fields, created and last updated by the caller; every existing row unchanged |
| SupermarketController.List | controllers/supermarketController.ts:57-70 | every role passes; the answer holds exactly the id, name and city of every supermarket |
| SupermarketController.Get | controllers/supermarketController.ts:78-100 | every role passes; the projection, or 404 exactly when the id is absent |
| SupermarketController.Update | controllers/supermarketController.ts:108-133 | 403 exactly for non-ADMIN; 200 exactly when the id exists; each given field is written, the others and the creator kept, the caller is the updater; other rows unchanged |
| SupermarketController.Delete | controllers/supermarketController.ts:141-153 | 403 exactly for non-ADMIN; the row goes when it exists |
| SupermarketController.OnlyAdminWrites | dist/controllers/supermarketController.js:11-13 | for a non-ADMIN caller every write answers 403 and leaves the table as it was |
| JsObject.Get | controllers/userController.ts:168 | reading a property gives the stored value of the key, or `undefined` when there is none |
| JsObject.SetReads | controllers/userController.ts:171-172 | after an assignment the key reads as the new value and every other key as before |
| JsObject.SetKeys | controllers/userController.ts:171-172 | after an assignment the keys are the old ones plus the assigned key; a new key is appended at the end |
| JsObject.SetKeepsUniqueKeys | controllers/userController.ts:171-172 | an assignment never duplicates a key |
| JsObject.RemoveNullFields | controllers/userController.ts:204-206 | keeps exactly the entries whose value is not `null`, values unchanged, `undefined` kept |
| JsObject.RemoveNullFieldsKeepsUniqueKeys | dist/controllers/userController.js:155-157 | filtering keeps keys unique |
| JsObject.RemoveNullFieldsAppend | controllers/userController.ts:204-206 | the filter distributes over concatenation, so kept entries keep their order |
| JsObject.RemoveNullFieldsKeepsNullFree | controllers/userController.ts:204-206 | an object without `null` values comes back unchanged |
| JsObject.GetRemoveNullFields | controllers/userController.ts:226-228 | after filtering, a `null` property reads as absent and every other property as before |
| JsObject.Fields | controllers/userController.ts:153-166 | the object literal lists exactly the given fields, in order, each with its value |
| JsObject.GetFields | controllers/userController.ts:153-166 | a listed field reads as its value, any other as absent |
| JsObject.WrittenKeys | controllers/userController.ts:175-178 | after an update, a column is present exactly when the row had it or the data gives it a value |
| JsObject.GetWritten | controllers/userController.ts:175-178 | after an update, a column the data gives a value reads as that value, every other column as before |
| UserController.CalculateAge | controllers/userController.ts:112-120 | the result is the number of years whose anniversary has come by today while the next one has not |
| UserController.AgeIsTheWholeYears | dist/controllers/userController.js:88-96 | only one year count has that property, so it determines the age |
| UserController.AgeOnBirthday | controllers/userController.ts:116 | on the birthday the age is the full year difference; the day before, one less |
| UserController.AgeNeverDecreases | controllers/userController.ts:112-120 | a later date never gives a smaller age |
| UserController.ProfileCreate | controllers/userController.ts:42-105 | 404 exactly for an unknown email; a store error when the user already has a profile; otherwise the user keeps every field but gets role VERIFIED and the new profile row (each column from the body, `dob` and `age` from the birthday, `userId`, `null` for the rest), other users are unchanged, and the answer has no `null` entry |
| UserController.ProfileFieldsDistinct | controllers/userController.ts:45-58 | the twelve destructured field names are pairwise distinct |
| UserController.ProfileColumnNames | controllers/userController.ts:45-58 | the destructured field names are distinct and include `dob`; the columns are those fields plus `age` and `userId`, and none is `role` or `email` |
| UserController.CreateDataColumns | controllers/userController.ts:69-85 | the create's data has each body field, with `dob` the parsed birthday, `age` its age and `userId` the owner, and unique keys |
| UserController.CreatedRowColumns | controllers/userController.ts:69-86 | every profile column is present in the stored row, as the data's value when given and `null` otherwise |
| UserController.ProfileCreateBody | controllers/userController.ts:93-105 | for a known user without a profile, the answer is the stored row followed by `role` VERIFIED and the user's `email`, with the `null` entries removed |
| UserController.ProfileCreateResponse | controllers/userController.ts:93-105 | the answer reads `dob` as the birthday, `age` as its age, `role` as VERIFIED, `email` as the user's, and each other field as the body's value, or absent when the body's value is `null` or missing |
| UserController.ProfilePatch | controllers/userController.ts:122-180 | 404 exactly for an unknown email or a user without a profile; otherwise only that user's profile changes, to the row answered |
| UserController.ProfilePatchColumns | controllers/userController.ts:153-178 | a truthy `dob` sets `dob` and `age` from the birthday; any other field that is neither `null` nor `undefined` is written as given; every other column keeps its value |
| UserController.GetByEmail | dist/controllers/userController.js:158-177 | 404 exactly for an unknown email; otherwise the user's id, email and role, with the profile stripped of exactly its `null` entries, or no profile when there is none |
| UserController.Promote | dist/controllers/userController.js:233-248 | 403 exactly for non-ADMIN; with a known id the target's role becomes ADMIN and nothing else changes; an unknown id is a store error |
| UserController.Demote | dist/controllers/userController.js:251-266 | 403 exactly for non-ADMIN; with a known id the target's role becomes VERIFIED and nothing else changes |
| UserController.DemoteAfterPromote | dist/controllers/userController.js:240-261 | promote then demote takes a BASIC user to VERIFIED, not back to BASIC |
| Auth.RefreshKeyInjective | auth/auth.service.ts:37 | distinct users have distinct `refreshToken:<userId>` keys |
| Auth.Lookup | auth/auth.service.ts:58 | a cache read gives the stored value exactly when the key is set and its TTL has not run out |
| Auth.StoreRefresh | auth/auth.service.ts:37 | the user's slot holds the token with a 604800-second TTL and every other key is unchanged |
| Auth.RefreshOutcome | auth/auth.service.ts:52-69 | the payload exactly when the token verifies and equals the live value of its user's slot, otherwise None |
| Auth.AuthService.constructor | auth/auth.service.ts:27-28 | the service holds the JWT functions, both secrets and the shared cache |
| Auth.AuthService.GenerateTokens | auth/auth.service.ts:30-40 | both tokens are signed over the same payload, with 2-hour and 7-day lifetimes; the cache becomes the old cache with the user's slot overwritten |
| Auth.AuthService.VerifyAccessToken | auth/auth.service.ts:42-50 | the verifier's result, with every failure as None |
| Auth.AuthService.VerifyRefreshToken | auth/auth.service.ts:52-69 | returns `RefreshOutcome`: the payload exactly when the token verifies and equals the live value of its user's slot, None in every other case |
| Auth.StoreTouchesOnlyOwnSlot | dist/auth/auth.service.js:36 | storing one user's token leaves every other user's refresh outcome unchanged |
| Auth.LatestTokenSupersedes | auth/auth.service.ts:37-64 | after a second store for a user, an earlier token of that user verifies only if it equals the newer one |
| Auth.RefreshRoundTrip | auth/auth.service.ts:34-37 | with a JWT library that round-trips, a freshly stored refresh token verifies to its payload until it expires, and an older one of the same user no longer does unless it is the same string |
| Auth.AccessRoundTrip | auth/auth.service.ts:33 | with a JWT library that round-trips, the access token verifies to its payload for two hours |
| AuthGuard.Split | auth/auth.guard.ts:10 | `split(' ')` yields at least one space-free piece, and a space-free string yields itself |
| AuthGuard.JoinSplit | auth/auth.guard.ts:10 | joining the pieces with spaces gives the header back |
| AuthGuard.SplitAfterWord | auth/auth.guard.ts:10 | splitting `word + " " + rest` gives the word, then the pieces of the rest |
| AuthGuard.HeaderToken | auth/auth.guard.ts:9-12 | a token exactly when there is a header whose second piece is non-empty, and it is that piece |
| AuthGuard.SchemeWordIgnored | dist/auth/auth.guard.js:10 | any scheme word works: `"Token abc"` yields `abc` like `"Bearer abc"` |
| AuthGuard.LaterWordsIgnored | auth/auth.guard.ts:10 | pieces after the second are ignored: `"Bearer a b"` yields `a` |
| AuthGuard.NoTokenRejected | auth/auth.guard.ts:10-14 | a header with no space, or ending in its only space, has no token |
| AuthGuard.Decide | auth/auth.guard.ts:12-23 | 401 exactly when there is no token; never 403; otherwise proceed with the verifier's result as the user |
| AuthGuard.InvalidTokenProceeds | auth/auth.guard.ts:16-23 | a token that fails verification proceeds with no user |
| AuthGuard.DecideIntended | auth/auth.guard.ts:16-27 | 401 exactly when there is no token, 403 exactly when it fails verification, otherwise proceed with the verified user |
| AuthGuard.IntendedAgreesOnValidTokens | auth/auth.guard.ts:12-23 | both versions agree whenever the token is missing or verifies |
| AuthGuard.Exchange.constructor | auth/auth.guard.ts:8 | a fresh request carries its header, no user and no status, and `next` has not been called |
| AuthGuard.Guard | dist/auth/auth.guard.js:8-19 | with no token the status becomes 401 and the user and `next` flag are untouched; otherwise `req.user` becomes the verifier's result, `next` is called and the status is untouched |

## Left out

- Prisma and the database: tables are values, and joins are replaced by listing rows that carry the product name, supermarket name and city.
- Copied join columns: those three columns are copied into a listing row when it is inserted and never refreshed. SupermarketController.Update, ProductController.Replace and ProductControllerDist.Patch do not rewrite listing rows, and the product and supermarket deletes do not remove them or refuse because of them. So in the model a renamed or moved supermarket, a renamed product and a deleted product or supermarket are not seen by `InventoryControllerDist.Cheapest`, `InventoryControllerDist.ByCategory`, `Listings.CheapestListing` and `ShoppingList.CreateShoppingList`, whereas the store's relations make those queries read the current rows. What the store does on such a delete depends on the database schema, which is not part of this model.
- The 500 branches: only the store refusals a handler can provoke are modelled, namely an absent id on update or delete, a pair that already has a listing, a missing product or supermarket on listing create, a second profile for a user, and an unknown user id on promote or demote. Other database failures and unique constraints (a duplicate product name in the TypeScript create) are not.
- JWT cryptography: signing and verification are functions given to the service. `RoundTrips` is a hypothesis of two lemmas, never an axiom.
- Auth.AuthService.VerifyAccessToken: the contract only says it returns the verifier's answer with every failure as None, because the verifier is abstract.
- The Redis client: the cache is a map with expiry seconds, and connection errors are not modelled.
- argon2, registration, login, password update, user listing and user deletion: these are foreign calls, or handlers with no rule beyond a store call.
- Floating point: prices are integer cents, so `toFixed(2)` rounding is the identity. ShoppingList.CreateShoppingList states exact subtotals and totals in cents.
- Express plumbing: routing, JSON shapes, `console` logging and the app wiring.
- Handlers take a non-null principal, which is what `AuthGuard.DecideIntended` guarantees. The guard as written can pass them a null `req.user` (see Findings), and the crash that follows in a handler is not modelled.
- Wall-clock values: `new Date()` becomes a parameter (`now`, `today`), and `new Date(dob)` becomes the parameter `birthday`. An unparsable date, which gives NaN, is not modelled.
- Stored timestamps the store fills in (`createdAt`, a profile's `profileId`, `createdAt` and `updatedAt`) are not modelled. UserController.ProfileCreate therefore answers without them. The `updatedAt` of a new product or listing, which the store also fills in, is the parameter `now`.
- Listings.CheapestListing: the contract promises some listing of least price, not a particular one, because `orderBy: price` leaves ties open.
- The default stock flag the store gives a new listing is the parameter `inStockDefault` of both inventory creates.
- Store-generated ids: the id a product or supermarket create receives is the parameter `newId`, required to be absent from the table, as the store's id generator guarantees.
- InventoryControllerDist.BySupermarket: it answers with whole listing rows rather than the selected fields, and the contract fixes their membership but not their order.
- SupermarketController.List: the answer is the set of projections rather than a list in store order.
- The GET `/` routes of products and users only read a table. They are not modelled beyond their gate in `Access`.
- async/await: each request runs to completion, with no interleaving.

## Findings

| source | as written | input that shows it | evidently intended | confidence | as-written member | corrected member |
|---|---|---|---|---|---|---|
| auth/auth.guard.ts:16-27 | `verifyAccessToken` turns every verification error into `null` and never throws, so the `catch` that answers 403 cannot be reached: an invalid token sets `req.user` to null and calls `next()` | header `Authorization: Bearer x`, where `x` fails verification | answer 403 "Invalid token." and do not call the handler | not executed | AuthGuard.Decide (with AuthGuard.InvalidTokenProceeds) | AuthGuard.DecideIntended (with AuthGuard.IntendedAgreesOnValidTokens) |
