# Car-parts inventory: a Dafny model of the products data layer

This project models `convex/products.ts`, the server functions of a car-parts
inventory kept in a Convex `products` table. It covers five operations.

- `getProducts` lists products. It:
  - filters by stock status ("available" or "out_of_stock");
  - filters by a case-insensitive search over five text fields;
  - resolves each image reference to a URL;
  - sorts by `last_update`, newest first.
- `addProduct` creates a product. It:
  - assigns the product number, with one fallback when the generated number is taken;
  - fills in the defaults: original quantity, status and timestamp.
- `updateProduct` merges the supplied fields. It also re-derives the status from the quantity, stamps the time, and regenerates an empty product number.
- `deleteProduct` removes a product.
- `getStats` computes the overview counters. It also groups the products by part type and by car name.

The table is a sequence of documents in creation order (`Inventory.Store`).
Each document has a distinct id. Convex scans return documents in this order, and
JavaScript's sort is stable, so the order shows through whenever two products
share a `last_update`.

Each mutation is a pure function. It returns either the table after its single
write or the error it throws. The random code, the code derived from the clock,
the current time and the storage URL resolver are all parameters.

Modules:

- `Wrappers`: `Option` and `Result`.
- `Strings`: ASCII lower-casing, substring search and its reference
  definition, and the lexicographic order used for timestamps.
- `Inventory`: the product record, the status strings, and id lookup.
- `Listing`: `getProducts`.
- `Mutations`: `addProduct`, `updateProduct` and `deleteProduct`.
- `Stats`: `getStats`, plus the grouping exactly as written (see Findings).
- `Agreement`: how the statistics relate to the filtered listings.

### Behaviour of `convex/products.ts` worth knowing

- The stored statuses are the Arabic strings "متوفر" (in stock) and "نفذ" (sold out).
- On create, a caller-supplied `status` is stored as given, even when it
  contradicts the quantity. Only an absent status is derived.
- On create, a caller-supplied `last_update` is stored as given.
- The listing's "out_of_stock" filter keeps quantity 0 only. The statistics
  count every quantity that is not positive as out of stock.
  `Agreement.StatsAgreeWithListing` states exactly when the two agree.
- On create, the timestamp fallback number is not checked again.
- On update, no product number is checked for uniqueness.
- A regenerated (empty) number on update is not guaranteed to differ from the
  previous one.

## Model

| member | source | states |
|---|---|---|
| Inventory.DerivedStatus | convex/products.ts:119 | the derived status is the in-stock string exactly when the quantity is positive, and otherwise the sold-out string |
| Inventory.FreshId | convex/products.ts:86 | the id given to an inserted document belongs to no stored document |
| Strings.ContainsIffOccurs | convex/products.ts:26-30 | the left-to-right `includes` scan answers true exactly when the needle occurs at some position of the text |
| Strings.LowerIsLowerAndIdempotent | convex/products.ts:24 | lower-casing leaves no ASCII upper-case letter, and lower-casing twice equals lower-casing once |
| Strings.StrLeTotal | convex/products.ts:44 | any two timestamps are comparable by the sort's order |
| Strings.StrLeTransitive | convex/products.ts:44 | the sort's order is transitive |
| Strings.StrLeAntisymmetric | convex/products.ts:44 | two timestamps that each sort no later than the other are equal |
| Listing.ByStatus | convex/products.ts:15-21 | the status filter keeps each document exactly as often as it is stored when it passes the status test, and drops it otherwise |
| Listing.BySearch | convex/products.ts:23-32 | the search filter keeps each document exactly as often as it is stored when one of its five lower-cased fields contains the lower-cased query, and drops it otherwise |
| Listing.KeepKeepsBefore | convex/products.ts:15-31 | a filter pass keeps two passing documents in the order they had: one before the other in the input stays before it in the output |
| Listing.ImageUrl | convex/products.ts:36-39 | a missing or empty image gives no URL; an image starting with "http" is its own URL; any other image is looked up in storage |
| Listing.ResolverOnlyForReferences | convex/products.ts:37-38 | storage is never consulted for a missing, empty or "http" image |
| Listing.AnnotateAll | convex/products.ts:35-41 | URL resolution keeps the number and order of products and adds each product's own URL |
| Listing.SortDesc | convex/products.ts:44 | the sort returns a permutation of its input, ordered by `last_update` from newest to oldest |
| Listing.SortKeepsTies | convex/products.ts:44 | the sort is stable: products sharing a `last_update` keep their relative order |
| Listing.GetProducts | convex/products.ts:7-47 | the listing is sorted newest first; it holds every stored product that passes both filters, as often as it is stored, and nothing else |
| Listing.ListingEntries | convex/products.ts:12-45 | every listed entry is a stored document that passes the status filter and the search, carrying its resolved image URL |
| Listing.StatusFilterExact | convex/products.ts:15-21 | "available" lists a stored product iff its quantity is positive; "out_of_stock" iff its quantity is zero; any other status lists every product |
| Listing.SearchExact | convex/products.ts:23-32 | a non-empty search lists a stored product iff the lower-cased query occurs in one of its five lower-cased searchable fields |
| Listing.SearchIgnoresQueryCase | convex/products.ts:24 | two queries with the same lower-case form give the same listing |
| Listing.NoStatusKeepsAll | convex/products.ts:15-21 | an absent or empty status, or any status other than "available" and "out_of_stock", keeps the whole snapshot in order |
| Listing.NoSearchKeepsAll | convex/products.ts:23 | an absent or empty search keeps every document in order |
| Listing.UnfilteredListing | convex/products.ts:13-45 | with neither filter, the listing is the whole collection, annotated and sorted |
| Listing.ListingTiesKeepStoreOrder | convex/products.ts:35-44 | among products sharing a `last_update`, the sorted listing keeps the order in which the filters and URL resolution produced them |
| Listing.TiesListedInStoreOrder | convex/products.ts:13-44 | two selected products with the same `last_update` are listed in the order they are stored: the one stored first comes first |
| Listing.SortReversesAscending | convex/products.ts:44 | sorting products whose timestamps strictly increase reverses them |
| Listing.NewestFirst | convex/products.ts:43-45 | when products were stored with strictly increasing timestamps, the listing shows them newest first, in exactly the reverse order |
| Mutations.AssignNumber | convex/products.ts:66-84 | a requested non-empty number is used, or is a duplicate error iff some product already has it; without one the number is "PROD-" plus the random code, or "PROD-" plus the time code when the random one is taken |
| Mutations.AddProduct | convex/products.ts:49-94 | the create fails only on a taken requested number; on success it appends one document under a fresh id whose product number is the one `AssignNumber` chose, copies the arguments, and defaults `original_quantity` to the quantity, `status` to the derived status and `last_update` to the current time |
| Mutations.AddThenGet | convex/products.ts:86-92 | after a create, the returned id finds the new document at the end, and ids stay distinct |
| Mutations.AddThenDelete | convex/products.ts:86-138 | deleting the product just created restores the collection |
| Mutations.AddKeepsNumbersUnique | convex/products.ts:72-84 | after a create, product numbers stay unique iff the assigned number was free; this always holds for a caller-supplied number and for a first-try generated one |
| Mutations.FallbackIsNotRechecked | convex/products.ts:72-84 | for every collection with unique numbers in which both the random and the time-derived numbers are taken, a create without a number succeeds and leaves two products with the same number |
| Mutations.UpdatedNumber | convex/products.ts:121-129 | a supplied empty product number becomes "PROD-" plus the random code, with no time-derived fallback; a non-empty one is used; an absent one keeps the stored number |
| Mutations.UpdateProduct | convex/products.ts:114-131 | an update fails with not-found iff the id is missing. Otherwise it rewrites only that document: the supplied fields overlay the stored ones; the status is re-derived from the resulting quantity; `last_update` is the current time; `original_quantity` is kept; an emptied product number becomes "PROD-" plus the random code |
| Mutations.UpdateIdempotent | convex/products.ts:118-131 | repeating an update with the same arguments and time changes nothing further |
| Mutations.UpdateKeepsIdsDistinct | convex/products.ts:131 | a patch keeps every document's id, so ids stay distinct |
| Mutations.EmptyUpdateTouchesOnlyStatusAndTime | convex/products.ts:118-125 | an update with no fields only re-derives the status and stamps the time |
| Mutations.UpdateMayDuplicateNumber | convex/products.ts:121-131 | an update can give a product the number another product already has |
| Mutations.DeleteProduct | convex/products.ts:135-140 | a delete fails with not-found iff the id is missing; otherwise it removes exactly one occurrence of that document |
| Mutations.DeleteRemovesExactlyOne | convex/products.ts:138 | after a delete the id is gone, ids stay distinct, and every other document remains |
| Stats.Available | convex/products.ts:147 | the in-stock count equals the number of products exactly when every quantity is positive, and is zero exactly when no quantity is positive |
| Stats.GetStats | convex/products.ts:142-177 | `total_products` is the number of products; available plus out of stock is the total; an empty collection gives zero counters and no groups |
| Stats.TallyExact | convex/products.ts:149-164 | a group exists exactly for each key that occurs, and holds that key's count, total quantity and total value |
| Stats.TallySums | convex/products.ts:149-156 | over all groups, the counts sum to the number of products, the quantities to the total items, and the values to the total value |
| Stats.StatsGroupsAddUp | convex/products.ts:144-176 | the `by_type` counts, quantities and values, and the `by_car` counts and quantities, add up to the overview totals |
| Stats.StatsKeysVerbatim | convex/products.ts:149-164 | `by_type` and `by_car` have one group per distinct stored string, with no case folding, holding exactly that key's products |
| Stats.FilterGroupExample | convex/products.ts:149-156 | two "Filter" parts with quantities 3 and 5 at prices 1000 and 2000 form one group of count 2, quantity 8 and value 13000 |
| Stats.AsWrittenDropsInheritedKeys | convex/products.ts:150-164 | the grouping as written equals the intended grouping minus every group keyed on an inherited object property name |
| Stats.AsWrittenLosesConstructorGroup | convex/products.ts:150-156 | as written, a single product of type "constructor" yields no group, so the counts sum to 0 instead of 1 |
| Stats.StatsAgreeWithSourceGrouping | convex/products.ts:150-164 | when no part type or car name is an inherited object property name, the `by_type` and `by_car` groups equal the grouping as written |
| Agreement.StatsAgreeWithListing | convex/products.ts:147-170 | `available_products` equals the length of the "available" listing; `out_of_stock` is at least the length of the "out_of_stock" listing, with equality iff no quantity is negative |

## Left out

- The Convex runtime is not modelled. That covers `async`/`await`, `Promise.all`, the argument validators and the generated types. The argument records stand for the validated arguments.
- Concurrency is not modelled. In particular, two creates may race between the `by_product_number` lookup and the insert. Each mutation is one atomic step over a snapshot.
- JavaScript numbers are modelled as unbounded integers. Fractions, NaN, infinities and rounding in `price_iqd * quantity` and in the sums are not modelled.
- `Math.random().toString(36)…` and `Date.now().toString(36)…` become the parameters `randomCode` and `timestampCode`. They are arbitrary strings: the model does not restrict their length or alphabet.
- `new Date().toISOString()` becomes the parameter `now`.
- `ctx.storage.getUrl` becomes the parameter `resolve`, a pure function. Storage failures are not modelled.
- `toLowerCase` is modelled for ASCII letters only. Unicode case mapping is not modelled.
- `localeCompare` is modelled as code-point lexicographic order. This agrees with it on the fixed-width ISO-8601 timestamps the code writes. Locale collation of other strings is not modelled.
- The `by_product_number` index lookup is modelled as a scan for any product with that number. This matches `.first()` being non-null.
- `ctx.db.delete` on an id whose document is missing is left to Convex, which rejects it. The model treats this as a not-found error with no write.
- Fields of the arguments beyond those the validators list are not modelled.
- The search's `|| ""` fallback for a missing field is not modelled. The five searchable fields are required strings, and every created product gets a product number.
- Stats.GetStats: its `by_type` and `by_car` follow the intended grouping (`Stats.Tally`), one group per distinct key. The code as written (`Stats.TallyAsWritten`) differs for the 12 inherited property names such as "constructor" (see Findings). `Stats.StatsAgreeWithSourceGrouping` shows the two agree whenever no key is one of those names.
- Inventory.FreshId: the new id is one more than the largest stored id, so after a delete the model can give the deleted document's id to the next created product. Convex never reissues a document id, so a client still holding the old id would reach the new product through an update or delete, where the store reports it missing. The model promises only that a new id differs from every id currently stored.
- The Convex schema and the other server files are not part of this model.

## Findings

| source | as written | input that shows it | evidently intended | confidence | as-written member | corrected member |
|---|---|---|---|---|---|---|
| convex/products.ts:150-164 | `by_type` and `by_car` are plain object literals and are tested with `if (!by_type[p.type])`. For a key such as "constructor", "toString" or "__proto__", the lookup finds the truthy inherited property, so no own group is created and the increments land on the inherited value. | One product with `type` "constructor": `by_type` has no "constructor" group, and the `by_type` counts sum to 0 while `total_products` is 1. | Every distinct type and car name has its own group, and the group counts add up to `total_products`. | high; not executed | Stats.AsWrittenDropsInheritedKeys | Stats.TallySums |
