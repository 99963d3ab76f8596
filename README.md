# Bakery kiosk: cart, day and order engine

A Dafny model of the self-service kiosk of a bakery (app-panaderia). A
customer fills a cart from the product catalogue and pays; the operator
starts the day, ends it, looks at the end-of-day summary and closes the app,
and manages categories and products. The model covers:

- the cart arithmetic (`src/domain/cart.ts`): add one unit, remove one unit,
  clear, total;
- the text normalisers (`src/domain/normalize.ts`, `src/domain/text.ts`):
  whitespace collapsing, the display name and the key of a category, the
  capitalisation of a product name;
- the kiosk hook (`src/hooks/useKioskStore.ts`) as the class
  `UseKioskStore.KioskStore`. Its fields are the hook's state. Its methods do
  each action as one atomic step. The browser database is a value field
  `db`. Each object store is a sequence kept in ascending key order (the order
  `getAll` returns), with `put` and `delete` in module `Store`. The pure
  parts of the hook (lookups, the product filter, the category names, the
  order lines, `deriveCategories`) are in module `KioskHelpers`;
- the earlier lifecycle in the top-level component (`src/app/App.tsx`) as
  the class `App.AppState`. Its local-storage keys are three fields, and the
  order list in memory is mirrored into them;
- the end-of-day summary values (`src/components/EndOfDay/EndOfDayScreen.tsx`)
  in module `EndOfDay`: the takings, the reversed numbered listing and
  `fmtLocal`.

Modelling conventions:

- Money is an integer count of minor units.
- Timestamps (`new Date().toISOString()`) and fresh ids
  (`crypto.randomUUID()`) are parameters `now` and `newId`.
- The locale rendering of a timestamp is the parameter `formatted`.
- `localeCompare` is the lexicographic order on character codes
  (`Ordering.LexLess`). The sort is a stable insertion sort.
- Strings are ASCII as far as case and whitespace go (`Ascii`).
- JavaScript truthiness of `string | null` is `Types.Truthy`: `null` and
  `""` are both false.

Where the two engines differ:

- The hook reads the orders back from the database after each payment, so
  they come in id order. `App.tsx` appends them.
- `App.tsx` builds orders without `lines`, although `src/domain/types.ts:29`
  requires them. There they are modelled with an empty `lines` sequence.
- Only `App.tsx` picks the screen from a persisted day. The hook always
  starts on the welcome screen.

## Model

| member | source | states |
|---|---|---|
| Cart.FindIndex | src/domain/cart.ts:4 | -1 exactly when no line carries the id; otherwise the first line carrying it |
| Cart.FindIndexUnique | src/domain/cart.ts:4 | in a cart with one line per product, the line carrying the id is the one found |
| Cart.AddToCart | src/domain/cart.ts:3-9 | a present id keeps length and positions, only that line's quantity goes up by one and its stored product is kept; a new id is appended with quantity 1 after the unchanged prefix |
| Cart.Decrement | src/domain/cart.ts:13 | lines carrying the id lose one unit, all others are unchanged, products are unchanged |
| Cart.RemoveFromCart | src/domain/cart.ts:11-15 | never longer than the input, and every remaining quantity is positive |
| Cart.RemovePresent | src/domain/cart.ts:11-15 | in a well-formed cart the matching line loses one unit in place, or disappears when it had one; lines before and after it are untouched |
| Cart.RemoveAbsent | src/domain/cart.ts:11-15 | removing an absent id from a cart whose quantities are all at least 1 gives the same cart |
| Cart.RemoveKeepsOthers | src/domain/cart.ts:11-15 | the lines of all other products survive a removal unchanged and in their order |
| Cart.AddKeepsWellFormed | src/domain/cart.ts:3-9 | adding keeps "ids unique, every quantity at least 1" |
| Cart.RemoveKeepsWellFormed | src/domain/cart.ts:11-15 | removing keeps "ids unique, every quantity at least 1" |
| Cart.AddThenRemove | src/domain/cart.ts:3-15 | removing the product just added gives back a well-formed cart exactly |
| Cart.ClearCart | src/domain/cart.ts:17-19 | the cleared cart is empty |
| Cart.LineTotal | src/domain/cart.ts:22 | a line's price times its quantity; summed by Cart.TotalOf |
| Cart.TotalOf | src/domain/cart.ts:21-23 | the left fold of price times quantity over the lines; its properties are in Cart.TotalOfClear, Cart.TotalOfAppend, Cart.TotalOfUpdate, Cart.TotalAfterAdd and KioskHelpers.LinesTotal |
| Cart.TotalOfClear | src/domain/cart.ts:17-23 | the total of a cleared cart is 0 |
| Cart.TotalOfAppend | src/domain/cart.ts:21-23 | the total of two runs of lines is the sum of their totals |
| Cart.TotalOfUpdate | src/domain/cart.ts:21-23 | replacing one line changes the total by the difference of the two line totals |
| Cart.TotalAfterAdd | src/domain/cart.ts:3-8 | adding grows the total by `p.price` for a new id, and by the price in the stored line's product for a present id |
| Cart.Without | src/hooks/useKioskStore.ts:264 | no remaining line carries the id |
| Cart.WithoutMembership | src/hooks/useKioskStore.ts:264 | a line survives exactly when it was in the cart and carries another id |
| Cart.WithoutKeepsWellFormed | src/hooks/useKioskStore.ts:264 | dropping a product's lines keeps the cart invariant |
| Seqs.FilterMembership | src/domain/cart.ts:14 | an element survives `filter` exactly when it was present and passes the test |
| Seqs.FilterAppend | src/domain/cart.ts:14 | `filter` distributes over concatenation |
| Normalize.Collapse | src/domain/normalize.ts:2 | the `/\s+/g` to " " replacement, never longer than the input; its shape is in Normalize.CollapseShape |
| Normalize.NormalizeSpaces | src/domain/normalize.ts:1-3 | collapse, then trim, never longer than the input; its properties are in the Normalize.Normalize* rows and Normalize.WordPadded |
| Normalize.CollapseShape | src/domain/normalize.ts:2 | after collapsing, no two whitespace characters are adjacent, and the only whitespace is the plain space; it starts with whitespace exactly when the input does |
| Normalize.NormalizeShape | src/domain/normalize.ts:1-3 | the result has no whitespace at the ends, no whitespace pair, and only plain spaces |
| Normalize.NormalizeKeepsVisible | src/domain/normalize.ts:1-3 | the non-whitespace characters are kept, in order |
| Normalize.NormalizeOfNormalized | src/domain/normalize.ts:1-3 | a string of the normalised shape is left unchanged |
| Normalize.NormalizeIdempotent | src/domain/normalize.ts:1-3 | normalising twice is normalising once |
| Normalize.WordPadded | src/domain/normalize.ts:1-3 | a word without whitespace, padded with whitespace on both sides, normalises to the word |
| Normalize.LowerNormalize | src/domain/normalize.ts:14-16 | lowercasing and normalising commute |
| Normalize.LowerIdempotent | src/domain/normalize.ts:15 | lowercasing twice is lowercasing once |
| Normalize.PrettyCategoryName | src/domain/normalize.ts:6-11 | as long as the normalised input, so "" exactly when the normalised input is "" |
| Normalize.CategoryKey | src/domain/normalize.ts:14-16 | as long as the normalised input, with no uppercase letter |
| Normalize.PrettyShape | src/domain/normalize.ts:6-11 | the display name has the normalised whitespace shape |
| Normalize.KeyShape | src/domain/normalize.ts:14-16 | the key has the normalised whitespace shape |
| Normalize.PrettyEmptyIffKeyEmpty | src/domain/normalize.ts:6-16 | the display name is empty exactly when the key is |
| Normalize.PrettyFromKey | src/domain/normalize.ts:6-16 | a non-empty display name is the key with its first character uppercased |
| Normalize.LowerOfPretty | src/domain/normalize.ts:6-16 | lowercasing the display name gives the key |
| Normalize.KeyIgnoresCase | src/domain/normalize.ts:14-16 | inputs equal up to case have the same key |
| Normalize.KeyOfPretty | src/domain/normalize.ts:6-16 | a display name and its input have the same key |
| Normalize.KeyIdempotent | src/domain/normalize.ts:14-16 | the key of a key is itself |
| Normalize.PrettyIdempotent | src/domain/normalize.ts:6-11 | the display name of a display name is itself |
| NormalizeExamples.ExampleKeys | src/domain/normalize.ts:13-16 | "Dulces" and "dulces" both have key "dulces" |
| NormalizeExamples.ExampleMixedCase | src/domain/normalize.ts:5-11 | "dULceS" is shown as "Dulces" |
| NormalizeExamples.ExamplePadded | src/domain/normalize.ts:5-11 | "  pies  " is shown as "Pies" |
| Text.CapitalizeFirst | src/domain/text.ts:1-5 | the result is as long as the normalised input |
| Text.CapitalizeEmpty | src/domain/text.ts:2-3 | the result is "" exactly when the input has no non-whitespace character |
| Text.CapitalizeKeepsRest | src/domain/text.ts:4 | only the first character is uppercased; the rest is the normalised input as it was, not lowercased |
| Text.CapitalizeKeepsLower | src/domain/text.ts:1-5 | up to case, the result is the normalised input |
| Text.CapitalizeShape | src/domain/text.ts:1-5 | the result has the normalised whitespace shape |
| Text.CapitalizeIdempotent | src/domain/text.ts:1-5 | capitalising twice is capitalising once |
| Text.PrettyIsCapitalizedLower | src/domain/normalize.ts:6-11 | a category's display name is the product-name capitalisation of the lowercased input |
| Ordering.LexLessIrreflexive | src/hooks/useKioskStore.ts:94 | no name sorts before itself |
| Ordering.LexLessTransitive | src/hooks/useKioskStore.ts:94 | the name order is transitive |
| Ordering.LexTotal | src/hooks/useKioskStore.ts:94 | any two names are equal or ordered one way |
| Ordering.SortBy | src/hooks/useKioskStore.ts:94 | the sorted list is a permutation of the input, ordered by the key |
| Ordering.SortByMembership | src/hooks/useKioskStore.ts:94 | sorting keeps exactly the same elements |
| Store.Put | src/domain/idb.ts:70 | `put` grows the store by at most one record; its meaning is in Store.PutKeyed, Store.PutMembership and Store.PutLength |
| Store.PutKeyed | src/domain/idb.ts:68-71 | `put` keeps the store in strictly ascending key order |
| Store.PutMembership | src/domain/idb.ts:68-71 | after `put` the store holds the new record and the old records with other keys |
| Store.PutLength | src/domain/idb.ts:90-93 | `put` adds one record for a new key and none for a present key |
| Store.Delete | src/domain/idb.ts:74 | `delete` never grows the store; its meaning is in Store.DeleteMembership, Store.DeleteKeyed and Store.DeleteLength |
| Store.DeleteMembership | src/domain/idb.ts:72-75 | after `delete` the store holds the old records with other keys |
| Store.DeleteKeyed | src/domain/idb.ts:72-75 | `delete` keeps the store in strictly ascending key order |
| Store.DeleteLength | src/domain/idb.ts:72-75 | `delete` removes one record for a present key and none for an absent key |
| Store.KeyedUnique | src/domain/idb.ts:77-80 | a store's records have distinct keys |
| Store.PutAll | src/domain/idb.ts:58-67 | the `put` of each record in turn, as `setProducts` does; its meaning is in Store.PutAllMembership and UseKioskStore.UpsertAll |
| Store.PutAllMembership | src/domain/idb.ts:58-67 | putting records with distinct keys one by one leaves them and the old records whose keys none of them has |
| KioskHelpers.Find | src/hooks/useKioskStore.ts:103 | `find` by a field (the product id here and in `App.tsx`, the category key at line 189): `None` exactly when no element carries the key; otherwise the first element carrying it |
| KioskHelpers.FindAppend | src/hooks/useKioskStore.ts:324-328 | a key found in a list is still found after more entries are appended, which the first-seen map relies on |
| KioskHelpers.OfCategory | src/hooks/useKioskStore.ts:85-86 | the category filter, never longer than its input; its contents are in KioskHelpers.OfCategoryMembership |
| KioskHelpers.OfCategoryMembership | src/hooks/useKioskStore.ts:86 | a product survives the category filter exactly when it was listed and carries the selected category |
| KioskHelpers.SearchText | src/hooks/useKioskStore.ts:91 | the lowercased "name category" text searched in; used by KioskHelpers.MatchingMembership |
| KioskHelpers.SearchTerm | src/hooks/useKioskStore.ts:88 | the trimmed, lowercased query; used by KioskHelpers.FilterProductsMembership |
| KioskHelpers.Matching | src/hooks/useKioskStore.ts:89-92 | the search filter, never longer than its input; its contents are in KioskHelpers.MatchingMembership |
| KioskHelpers.MatchingMembership | src/hooks/useKioskStore.ts:90-92 | a product survives the search filter exactly when it was listed and its search text contains the term |
| KioskHelpers.FilterProducts | src/hooks/useKioskStore.ts:82-95 | the listing is sorted by name and no longer than the catalogue |
| KioskHelpers.FilterProductsMembership | src/hooks/useKioskStore.ts:82-95 | a product is listed exactly when it is in the catalogue, in the selected category (any for "Todos"), and the lowercased text "name category" (the name, a space, the category) contains the trimmed, lowercased query (a query shorter than 3 does not filter) |
| KioskHelpers.FilterProductsAll | src/hooks/useKioskStore.ts:85-89 | "Todos" with a short query lists every product |
| KioskHelpers.CategoryNames | src/hooks/useKioskStore.ts:80 | "Todos" first, then each category's name in list order |
| KioskHelpers.LineOf | src/hooks/useKioskStore.ts:143 | a line's subtotal is the cart line's price times quantity |
| KioskHelpers.LinesOf | src/hooks/useKioskStore.ts:137-144 | one order line per cart line, in cart order, copying id, name, category, price and quantity |
| KioskHelpers.LinesTotal | src/hooks/useKioskStore.ts:137-151 | the subtotals of an order's lines add up to the cart total it is paid with |
| KioskHelpers.SumSubtotals | src/hooks/useKioskStore.ts:137-151 | the sum of an order's line subtotals; related to the cart total by KioskHelpers.LinesTotal |
| KioskHelpers.ProductCategory | src/hooks/useKioskStore.ts:221 | the display name, or "Otros" when it is empty; its properties are in KioskHelpers.ProductCategoryShape |
| KioskHelpers.ProductCategoryShape | src/hooks/useKioskStore.ts:221 | a product's category is never empty; one from a non-blank name is in display form and has that name's key |
| KioskHelpers.DeriveCategories | src/hooks/useKioskStore.ts:321-331 | the result is the first-seen-per-key entries, sorted by name |
| KioskHelpers.FirstByKey | src/hooks/useKioskStore.ts:322-328 | the map's values in insertion order, one entry per key from its first product; its properties are in KioskHelpers.FirstByKeyUnique, KioskHelpers.FirstByKeyCovers and KioskHelpers.FirstByKeyFromFirst, and KioskHelpers.DeriveCategories computes it with the loop |
| KioskHelpers.FirstByKeyUnique | src/hooks/useKioskStore.ts:324-328 | the map never holds a key twice |
| KioskHelpers.FirstByKeyCovers | src/hooks/useKioskStore.ts:324-328 | every product's key has an entry |
| KioskHelpers.FirstByKeyFromFirst | src/hooks/useKioskStore.ts:324-328 | every entry is that of the first product with its key |
| KioskHelpers.DeriveCategoriesSpec | src/hooks/useKioskStore.ts:321-331 | one category per distinct key among the products, each named after the first product with that key, none twice, sorted by name |
| KioskHelpers.HasProductsIn | src/hooks/useKioskStore.ts:204 | some product carries the category's name; it is the guard in UseKioskStore.KioskStore.DeleteCategory |
| KioskHelpers.DropKey | src/hooks/useKioskStore.ts:209 | the filter by key, never longer than its input; its contents are in KioskHelpers.DropKeyMembership, KioskHelpers.DropKeyMultiplicity and KioskHelpers.DropKeyUnique |
| KioskHelpers.DropKeyMultiplicity | src/hooks/useKioskStore.ts:209 | the filter never adds a copy of a category |
| KioskHelpers.DropKeyMembership | src/hooks/useKioskStore.ts:209 | a category stays exactly when its key differs |
| KioskHelpers.DropKeyUnique | src/hooks/useKioskStore.ts:209 | dropping a key keeps keys unique |
| UseKioskStore.KioskStore.Load | src/hooks/useKioskStore.ts:44-76 | welcome screen, empty cart, "Todos", empty query; day and orders as stored; stored products or the defaults (then stored); stored categories or the derived ones (then stored); the class invariant holds |
| UseKioskStore.LoadCatalog | src/hooks/useKioskStore.ts:54-70 | the catalogue part of the load, with the categories shown agreeing with those stored |
| UseKioskStore.SeedCategories | src/hooks/useKioskStore.ts:64-67 | the derived categories, and the store after upserting them, hold the same categories, one per key |
| UseKioskStore.UpsertAll | src/hooks/useKioskStore.ts:66 | the loop of upserts equals putting the records in turn, and keeps key order |
| UseKioskStore.KioskStore.SetScreen | src/hooks/useKioskStore.ts:27 | the exported `setScreen`: only the screen changes, to the one given |
| UseKioskStore.KioskStore.SetSelectedCategory | src/hooks/useKioskStore.ts:38 | the exported `setSelectedCategory`: only the selected category changes, to the name given |
| UseKioskStore.KioskStore.SetQuery | src/hooks/useKioskStore.ts:39 | the exported `setQuery`: only the query changes, to the text given |
| UseKioskStore.KioskStore.AddProductToCart | src/hooks/useKioskStore.ts:98-100 | only the cart changes, by `addToCart` |
| UseKioskStore.KioskStore.AddById | src/hooks/useKioskStore.ts:102-106 | an unknown id leaves the cart unchanged; otherwise the found product is added |
| UseKioskStore.KioskStore.RemoveById | src/hooks/useKioskStore.ts:108-110 | only the cart changes, by `removeFromCart` |
| UseKioskStore.KioskStore.ClearCartNow | src/hooks/useKioskStore.ts:112-114 | the cart is empty and the total 0 |
| UseKioskStore.KioskStore.StartDay | src/hooks/useKioskStore.ts:117-130 | day starts at `now`, no end, no orders, empty cart, order screen; stored orders cleared and day rows replaced by the start |
| UseKioskStore.KioskStore.ConfirmPaid | src/hooks/useKioskStore.ts:132-158 | a total of 0 or less changes nothing; otherwise the order is `put` and read back, it is among the orders, the count grows by one exactly for a fresh id, its lines add up to its total, the cart is empty and the order screen shown |
| UseKioskStore.KioskStore.EndDay | src/hooks/useKioskStore.ts:160-165 | only the day end (in memory and stored) and the screen change |
| UseKioskStore.KioskStore.CloseApp | src/hooks/useKioskStore.ts:167-176 | welcome screen, empty cart, no day, no orders; stored orders and day rows cleared |
| UseKioskStore.KioskStore.CreateCategory | src/hooks/useKioskStore.ts:183-198 | "empty" exactly for a blank name or key; "exists" with the existing name exactly when the key is taken; both leave list and store alone; otherwise `{key, name}` is stored and the list becomes the old list plus it, sorted by name, keys staying unique |
| UseKioskStore.KioskStore.InsertCategory | src/hooks/useKioskStore.ts:192-195 | a new key is stored and inserted into the name-sorted list, keeping the invariant |
| UseKioskStore.KioskStore.DeleteCategory | src/hooks/useKioskStore.ts:200-213 | an unknown key or a category in use is a no-op; otherwise exactly that key leaves list and store, and the filter resets to "Todos" exactly when it was that name |
| UseKioskStore.KioskStore.RemoveCategory | src/hooks/useKioskStore.ts:207-210 | the key leaves the store and the list, keeping the invariant |
| UseKioskStore.AddCategoryKeepsInvariant | src/hooks/useKioskStore.ts:192-195 | adding a new key to list and store keeps keys unique and the two in agreement |
| UseKioskStore.DropCategoryKeepsInvariant | src/hooks/useKioskStore.ts:207-210 | dropping a key from list and store keeps keys unique and the two in agreement |
| UseKioskStore.KioskStore.PutProduct | src/hooks/useKioskStore.ts:226-227 | the product is stored, the products are read back and include it |
| UseKioskStore.KioskStore.AddNewProduct | src/hooks/useKioskStore.ts:216-228 | the product under `newId` with the capitalised name and the display-form category ("Otros" when blank) is stored and listed |
| UseKioskStore.KioskStore.UpdateExistingProduct | src/hooks/useKioskStore.ts:230-259 | an unknown id changes nothing; otherwise the product keeps its id, gets the new name, price and category, and is stored and listed |
| UseKioskStore.KioskStore.DeleteProduct | src/hooks/useKioskStore.ts:261-265 | no listed product has the id, and the cart loses exactly that product's lines |
| App.LoadOrders | src/app/App.tsx:24-31 | a missing, empty or unparseable value reads as no orders |
| App.AppState.Products | src/app/App.tsx:37 | the catalogue is a permutation of the bundled products, sorted by name |
| App.AppState.Restore | src/app/App.tsx:47-61 | day and orders read back; start set and end unset gives the order screen, both set the summary, no start the welcome screen (also with only an end) |
| App.AppState.HandleAdd | src/app/App.tsx:65-67 | only the cart changes, by `addToCart` |
| App.AppState.HandleAddById | src/app/App.tsx:69-73 | an unknown id leaves the cart unchanged; otherwise the found product is added |
| App.AppState.HandleRemove | src/app/App.tsx:75-77 | only the cart changes, by `removeFromCart` |
| App.AppState.HandleClear | src/app/App.tsx:79-81 | the cart is empty and the total 0 |
| App.AppState.SetScreen | src/app/App.tsx:153-179 | the back button at line 153 (to the order screen) and the checkout button at line 179 (to the checkout screen): only the screen changes, to the one given |
| App.AppState.StartDay | src/app/App.tsx:83-93 | day starts at `now`, no end, no orders, empty cart, order screen; start stored, end removed, empty order list saved |
| App.AppState.ConfirmPaid | src/app/App.tsx:95-113 | a total of 0 or less changes nothing; otherwise exactly one order with the cart total is appended and saved, the day's takings grow by that total, the cart is empty and the order screen shown |
| App.AppState.EndDay | src/app/App.tsx:115-120 | only the day end (also stored) and the screen change |
| App.AppState.CloseApp | src/app/App.tsx:122-132 | welcome screen, empty cart, no day, no orders; all three keys removed, which still reads back as the state in memory |
| EndOfDay.TotalDay | src/components/EndOfDay/EndOfDayScreen.tsx:21 | the left fold of the order totals; its properties are in EndOfDay.TotalDayAppend, EndOfDay.TotalDayPositive and EndOfDay.TotalDayReversed, and App.AppState.ConfirmPaid states its growth |
| EndOfDay.TotalDayAppend | src/components/EndOfDay/EndOfDayScreen.tsx:21 | the takings of two runs of orders add up |
| EndOfDay.TotalDayPositive | src/components/EndOfDay/EndOfDayScreen.tsx:21 | with positive totals, the takings are 0 exactly for no orders (the bound by the count of orders comes from integral money) |
| EndOfDay.Reversed | src/components/EndOfDay/EndOfDayScreen.tsx:48-50 | a new list, the last order first |
| EndOfDay.ReversedTwice | src/components/EndOfDay/EndOfDayScreen.tsx:48-50 | reversing twice gives back the list |
| EndOfDay.TotalDayReversed | src/components/EndOfDay/EndOfDayScreen.tsx:21 | listing newest first does not change the takings |
| EndOfDay.Listing | src/components/EndOfDay/EndOfDayScreen.tsx:36 | one row per order, so the count shown equals the listing's length |
| EndOfDay.ListingNumbering | src/components/EndOfDay/EndOfDayScreen.tsx:51-54 | each row's number is its order's position counted from 1, numbers strictly decrease down the list, and the newest order comes first numbered with the count |
| EndOfDay.FmtLocal | src/components/EndOfDay/EndOfDayScreen.tsx:4-8 | "-" for a missing or empty timestamp, otherwise the locale rendering |

## Left out

- Persistence I/O, `async`/`await` and the database connection are not modelled. Every action is one atomic step on the `db` field, or on the three local-storage fields.
- JSON is not modelled. A stored order list is already parsed, or marked unparseable. A stored value that parses to something other than an array (including `null`, `{}` or `5`) is returned as it is by `loadOrders`, and a later payment then fails; that case is left out.
- The contents of `products.json` are left out. The defaults are a parameter.
- Images are left out: file reading, `image`, `imageDataUrl`, `keepExistingImage`, and the payment QR (`yapeQrDataUrl`, `setYapeQrFromFile`, `getSetting`).
- `formatPEN` and floating-point prices are left out. Money is integral.
- `localeCompare` and `toLocaleString` are left out. The first is the code-point order; the second is a parameter of `FmtLocal`.
- Unicode case mapping and whitespace are left out. `\s`, `trim`, `toLowerCase` and `toUpperCase` are modelled on ASCII: whitespace is codes 9-13 and 32.
- React rendering is left out.
- `src/domain/idb.ts` defines no `deleteCategory`, `getSetting` or `setSetting`, though the hook calls them. `deleteCategory` is modelled as a `delete` by key on the category store.
- `src/domain/storage.ts` (`loadProducts`, `saveProducts`) is not part of this model. Neither engine modelled here calls it.
- Ordering.SortBy: stability (equal names keep their order) is implemented but not stated.
- UseKioskStore.KioskStore.Load: the `products` field is not tied to `db.products` by the invariant. When the defaults are used, the hook keeps them in file order while the store holds them in id order. Defaults sharing an id collapse in the store.
- App.AppState.ConfirmPaid: ids are not required to be fresh, since the list is appended to; `App.tsx` orders carry an empty `lines`.
- EndOfDay.TotalDayPositive: the bound "takings at least the number of orders" holds only because money is integral here; with fractional prices only the zero-exactly-for-no-orders half carries over.
