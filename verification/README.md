# EcoFinds domain model in Dafny

EcoFinds is a second-hand marketplace prototype kept entirely in the
browser's `localStorage`. This project models its data layer as pure
functions over one explicit store value. The store holds:

- the users;
- the products (listings);
- a map from user id to that user's cart lines (`{productId, qty}`);
- a map from user id to that user's purchase history;
- the optional id of the logged-in user.

It models the following operations:

- saving a user or a product (replace in place or append);
- looking up and deleting products;
- reading and writing one user's cart;
- adding to the cart;
- the cart page's quantity change, line removal and total;
- checkout;
- sign-up and log-in;
- seeding the demo data on first use;
- the feed's search by category and title, newest first.

Each operation leaves every other part of the store as it was, and the
contracts say so.

Modules:

- `ArrayOps`: the array idioms the source relies on, over a key function:
  - `findIndex` is `IndexOfKey`;
  - `find` is `FindByKey`;
  - the replace-or-push upsert is `Upsert`;
  - `filter` is `FilterWhere`, and filtering out one key is `RemoveKey`.
- `Text`: the string operations the source relies on:
  - `trim` is `Trim`;
  - `toLowerCase` is `Lower`;
  - `includes` is `Includes`;
  - a total string order, `StrLe`, used for the sort.
- `Domain`: users, products, cart lines, purchases, the store, errors.
- `Repository`: `saveUser`, `productById`, `saveProduct`, `deleteProduct`,
  `userCart`, `setUserCart`, and the write of one user's purchase history.
- `Auth`: the session (`requireAuth`, `currentUser`, `logOut`) and the
  sign-up and log-in forms.
- `Cart`: the line edits on one cart, the store-level `addToCart`,
  `changeQty` and `removeItem`, and the cart total.
- `Checkout`: `checkout`.
- `Catalog`: the `db()` seeding and the feed page's filter and sort.

Fresh ids (`uid()`) and timestamps (`now()`) are parameters of the
operations that use them.

Three behaviours of the code are narrower than one might expect:

- Two single-unit adds leave one line with quantity 2 only when the product
  was not in the cart before (`Cart.AddTwice`). With an existing line the
  quantity grows by 2 from wherever it was (`Cart.AddTwiceGrows`).
- Taking away a product's whole quantity removes its line only while the
  cart holds one line per product (`Cart.ChangeToZeroRemoves`). `changeQty`
  edits the first matching line only.
- Seeding is idempotent only while some product exists
  (`Catalog.SeedIdempotent`). The guard looks at the product list alone, so
  deleting every product and loading a page again seeds a second demo user
  with the same e-mail (`Catalog.SeedRepeatsDemoEmail`).

## Model

| member | source | states |
|---|---|---|
| ArrayOps.IndexOfKey | script.js:63 | `findIndex` by id: a returned index is in range, matches, and no earlier element matches; no index exactly when no element carries the key |
| ArrayOps.FindByKey | script.js:75 | `find` by id: a returned element is in the array, carries the key, and no earlier element does; nothing exactly when no element carries the key |
| ArrayOps.Upsert | script.js:61-66 | replace-or-push: with a match, the first matching element is replaced and the length kept; without one, the element is appended; non-matching elements keep their places; the lookup of the key then returns the new element; unique keys stay unique |
| ArrayOps.FilterWhere | script.js:87 | `filter`: an element survives exactly when it was in the input and passes the test; the result is no longer than the input, and equals it when every element passes |
| ArrayOps.RemoveKey | script.js:87 | `filter(p => p.id !== id)`: no element with the key remains, every other element is kept, nothing changes when the key is absent, and the array shrinks when it was present |
| ArrayOps.FilterWhereConcat | script.js:87 | filtering a concatenation filters each part, so survivors keep their relative order |
| ArrayOps.FindByKeyRemoveOther | script.js:420 | removing one key does not change the lookup of any other key |
| Repository.SaveUser | script.js:61-66 | the user list is upserted by id; afterwards the lookup by id yields the saved user; unique ids stay unique; products, carts, purchases and session are unchanged |
| Repository.ProductById | script.js:73-76 | the first product with the id, which is a stored product with that id; none exactly when no product has the id |
| Repository.SaveProduct | script.js:78-83 | the product list is upserted by id; afterwards `productById` returns the saved product; unique ids stay unique; nothing else changes |
| Repository.DeleteProduct | script.js:85-89 | no product with the id remains; exactly the other products remain; deleting an absent id changes nothing; nothing else in the store changes |
| Repository.DeleteProductKeepsOrder | script.js:85-89 | deleting from a split product list deletes from each part, so the remaining products keep their order |
| Repository.SaveThenDelete | script.js:78-89 | a saved product is found, and after deleting its id it is gone |
| Repository.UserCartAfterSet | script.js:91-99 | reading a cart back after `setUserCart` gives the lines written for that user and the previous cart for every other user |
| Repository.SetUserPurchases | script.js:114-118 | the user's history becomes the given purchases; every other user's history, the carts, users, products and session are unchanged |
| Repository.UserPurchasesAfterSet | script.js:114-118 | reading a history back after writing one gives the history written for that user and the previous history for every other user |
| Repository.SetUserCart | script.js:95-99 | the user's cart becomes the given lines; every other user's cart and the rest of the store are unchanged |
| Auth.CurrentUser | script.js:55-59 | the session's user if the id resolves: a stored user whose id is the session's; none without a session or when the id does not resolve |
| Auth.RequireAuth | script.js:47-53 | succeeds exactly when the session id is present and non-empty, and returns that id; otherwise the log-in redirect condition |
| Auth.LogOut | script.js:68-71 | afterwards there is no session and no current user; users, products, carts and purchases are unchanged |
| Auth.NormalizeEmail | script.js:173 | the trimmed, lower-cased e-mail: no longer than the input, no upper-case letters, no surrounding white space, empty exactly when the input is all white space |
| Auth.NormalizeEmailIdempotent | script.js:187 | normalising a normalised e-mail changes nothing |
| Auth.Signup | script.js:185-198 | refused exactly when a field is empty (missing fields) or the normalised e-mail is registered (e-mail exists); otherwise exactly one user with the normalised e-mail and trimmed name is appended and logged in; unique e-mails and ids stay unique; the rest is unchanged |
| Auth.Login | script.js:171-183 | succeeds exactly when some user has the normalised e-mail and the password, and then the first such user becomes the session's user; otherwise invalid credentials |
| Auth.SignupThenLogin | script.js:171-198 | right after signing up, logging in with the same e-mail (as typed or as stored) and password succeeds and changes nothing further |
| Auth.SignupTwiceRefused | script.js:190-192 | a second sign-up with an e-mail that normalises the same is refused |
| Text.Trim | script.js:189 | the input with surrounding white space cut off: a contiguous part of the input, with non-space ends, empty exactly when the input is all white space |
| Text.TrimIdempotent | script.js:189 | trimming twice is trimming once |
| Text.Lower | script.js:173 | same length, each character lower-cased, no upper-case letter left |
| Text.LowerIdempotent | script.js:173 | lower-casing twice is lower-casing once |
| Text.Includes | script.js:222 | true exactly when the query occurs at some position of the text |
| Text.StrLeTotal | script.js:223 | the string order compares any two strings |
| Text.StrLeTransitive | script.js:223 | the string order is transitive |
| Text.StrLeAntisymmetric | script.js:223 | strings ordered both ways are equal |
| Cart.AddLine | script.js:104-105 | with a line for the product, the first such line's quantity grows by qty in place; otherwise a new line is appended at the end |
| Cart.AddLineSpec | script.js:103-106 | adding raises the product's quantity by qty, keeps the length when a line existed and adds one otherwise, keeps every other line in place and order, and keeps one line per product |
| Cart.AddLineOthers | script.js:104-105 | adding leaves every other product's quantity unchanged |
| Cart.AddTwice | script.js:104-105 | adding one unit of a new product twice gives a single line with quantity 2 at the end |
| Cart.AddTwiceGrows | script.js:104-105 | adding one unit twice to a product already in the cart raises its quantity by 2 and adds no line |
| Cart.ChangeLine | script.js:408-417 | no line for the product means nothing is written; otherwise the first line's quantity moves by delta and the line is spliced out when that leaves it at 0 or below |
| Cart.ChangeLineSpec | script.js:410-414 | a positive result sets the product's quantity and keeps the length; a non-positive one shortens the cart by one and, with one line per product, leaves no line for it; other lines keep place and order; one line per product is kept |
| Cart.ChangeLineOthers | script.js:410-414 | changing one product's quantity leaves every other product's quantity unchanged |
| Cart.ChangeToZeroRemoves | script.js:412-413 | taking away the whole quantity removes the product's line |
| Cart.RemoveLine | script.js:418-423 | no line for the product remains, every other line is kept, an absent product leaves the cart equal, and one line per product is kept |
| Cart.RemoveLineOthers | script.js:420 | removing a product leaves every other product's quantity unchanged |
| Cart.ComputeTotal | script.js:381-386 | the running total equals the line-by-line sum of price times quantity |
| Cart.CartTotalConcat | script.js:381-386 | the total of two carts laid end to end is the sum of their totals |
| Cart.CartTotalUnresolved | script.js:383-385 | lines for a product that no longer resolves contribute nothing: removing them leaves the total unchanged |
| Cart.CartTotalNonNegative | script.js:381-386 | with non-negative prices and quantities the total is non-negative |
| Cart.AddToCart | script.js:101-108 | refused without a session; otherwise the session user's cart gets the line edit, the product's quantity grows by qty, and no other cart or part of the store changes |
| Cart.ChangeQty | script.js:408-417 | without a line for the product the store is unchanged; otherwise that user's cart gets the edit; only that user's cart can change |
| Cart.RemoveItem | script.js:418-423 | the user's cart has no line for the product and keeps every other line; an absent product leaves it equal; only that user's cart can change |
| Checkout.Stamp | script.js:117 | one purchase per cart line, in order, same product and quantity, all with the one checkout time |
| Checkout.Checkout | script.js:110-122 | refused without a session; an empty cart is reported and changes nothing; otherwise the history is the old history followed by the stamped lines, the cart becomes empty, and every other user's cart and history, the users, products and session are unchanged |
| Checkout.CheckoutTwice | script.js:112-119 | a second checkout right after a successful one finds the cart empty |
| Checkout.CheckoutAppendOnly | script.js:114-117 | every user's history before checkout is a prefix of that user's history after |
| Catalog.Seed | script.js:26-45 | with products present nothing changes; with none, one demo user is appended and the product list becomes the three demo listings, owned by that user, with the fixed titles, prices and categories; the carts, purchases and session are unchanged |
| Catalog.SeedIdempotent | script.js:34-41 | seeding a second time adds nothing |
| Catalog.SeedRepeatsDemoEmail | script.js:34-37 | once every product is deleted, seeding appends a second demo user with the same e-mail, so e-mails stop being unique |
| Catalog.InsertByDate | script.js:223 | inserting into a newest-first list keeps it newest first and adds exactly the one product |
| Catalog.SortByDate | script.js:223 | the sorted list is newest first and a permutation of the input |
| Catalog.SortByDateStable | script.js:223 | products with equal creation times keep their input order |
| Catalog.Feed | script.js:216-223 | the feed lists exactly the products matching the category and the lower-cased query, each as often as stored, newest first |
| Catalog.FeedUnfiltered | script.js:217-222 | with no category and an empty search the feed lists every product |
| Catalog.FeedStable | script.js:220-223 | matching products with equal creation times appear in the order they are stored |

## Left out

- `localStorage` and the `get`/`set` JSON round trip with its parse-failure fallback (script.js:22-23). The store is a value, and a missing cart or history entry reads as empty.
- `db()` creating empty `carts` and `purchases` maps when they are missing (script.js:42-43). The model's maps always exist, and absent keys read as empty.
- `uid()` randomness and the `now()` clock (script.js:21, script.js:24). Fresh ids and timestamps are parameters.
- DOM rendering, event wiring, `alert`, and `window.location` redirects. They have no effect on the store.
- Auth.RequireAuth: the source only starts the redirect and keeps running with a missing id. The model stops the operation with `Unauthenticated` instead, so writes under a `null` user id are not modelled.
- Cart.ComputeTotal: prices are integers. The source converts them with `Number(...)` and adds floating-point values.
- Catalog.SortByDate: `localeCompare` is modelled as code-point lexicographic order (`Text.StrLe`), a total order. Locale-specific collation is not modelled. The sort is stable, as `Array.prototype.sort` is.
- Text.Trim and Text.Lower: only ASCII white space and ASCII letters are handled. JavaScript's Unicode white space and case mapping are not modelled.
- Checkout.Checkout: the source writes purchases and then the cart in two steps; the model performs both as one transition.
- The add/edit listing form, its validation and ownership check, the dashboard profile form, the my-listings page and the purchases page. They are page logic outside the modelled data layer.
- Plaintext password storage. It is a security concern with no effect on the behaviour modelled here.
