# External-link product catalog: a Dafny model of its catalog core

This project models the core of a small catalog web application. The
application lists products, each linking to an external marketplace, and has
an admin screen to add, edit and delete them. The model covers three parts:

- **The catalog** (`products.dfy`, module `Catalog`). This is the in-memory
  `products` list and its persistence to a browser object store keyed by
  `id`. It covers the six seed records, `loadProducts`, `saveInitialProducts`,
  `saveProducts`, `getCategories`, `addProduct`, `updateProduct` and
  `deleteProduct`.
  - Class `Catalog` holds the list (`products: seq<Product>`) and the object
    store (`store: map<string, Product>`).
  - Each operation takes a `Faults` value saying whether opening the database
    fails and whether a request fails. The model's error paths are those two
    faults plus a repeated id.
  - A write transaction is specified by the function `Commit`. It opens the
    database, adds records with keyed `add`, and commits. Any failure,
    including an `add` that meets an existing key, rolls the whole transaction
    back. So a failed `saveProducts` leaves even its `clear` undone.
- **The product grid filter** (`product_grid.dfy`, module `ProductGrid`). The
  token `all` shows every product. Any other token shows exactly the products
  of that category, in list order.
- **The admin list** (`product_management.dfy`, module `AdminPanel`). Class
  `ProductManagement` holds the three state fields `productList`,
  `editingProduct` and `showForm`. Its methods are the edit, delete, add-new,
  submit and cancel handlers. An edit submits the old record with the form's
  title, description, image and category. Its `id` and `externalUrl` always
  come from the old record.

`sequences.dfy` (module `Sequences`) holds generic helpers. `Select` is an
order-keeping filter, `FirstIndexWhere` finds the first match, and
`IsSubsequence` states that order is kept.

Where the code and the intended design differ, the model follows the code:

- `addProduct` does not check that the id is new. A repeated id is appended,
  and every later save fails with a constraint error until the repeated
  record is deleted (`AddDuplicateBlocksSave`, `ReplacedKeepsIds`).
- `updateProduct` on an unknown id changes nothing and reports no error.
- The in-memory list changes before the save. It is not rolled back when the
  save fails.
- `loadProducts` returns the seed records whenever the store cannot be
  opened. A failed `getAll` is not caught: it rejects the returned promise.
- A category literally named `all` cannot be selected on its own. The filter
  reads that token as "every category".

## Model

| member | source | states |
|---|---|---|
| `Catalog.SeedIds` | src/data/products.ts:5-60 | the seed list has six records, with ids "1" to "6", all distinct |
| `Catalog.SeedCategories` | src/data/products.ts:5-60 | the seed list's categories, in first-seen order, are Home, Accessories, Clothing, Kitchen, Art |
| `Catalog.Catalog.constructor` | src/data/products.ts:63 | at module load the in-memory list is empty and the store holds what was persisted |
| `Catalog.StageAdds` | src/data/products.ts:160-165 | the keyed-add loop of a transaction computes `AddAll`: it fails at the first id already present |
| `Catalog.AddAllSucceedsIff` | src/data/products.ts:163-165 | keyed adds succeed exactly when the added ids are distinct and none is already stored |
| `Catalog.AddAllContents` | src/data/products.ts:163-165 | after successful adds, the store holds the old records plus each added record under its own id, and nothing else |
| `Catalog.AddAllToEmptyLists` | src/data/products.ts:160-165 | clearing and then adding records with distinct ids stores exactly those records |
| `Catalog.Catalog.SaveProducts` | src/data/products.ts:153-175 | the outcome and the new store are those of `Save`: a transaction that clears and then adds every in-memory record; a failure leaves the store unchanged |
| `Catalog.SaveSpec` | src/data/products.ts:153-175 | a save succeeds iff the database opens, no request fails and the in-memory ids are distinct; a repeated id gives a constraint error; after a success the store maps each id to its record and holds nothing else; after a failure it is unchanged |
| `Catalog.Catalog.SaveInitialProducts` | src/data/products.ts:128-145 | the outcome and the new store are those of adding the seed records to the current store in one transaction |
| `Catalog.SeedIntoEmptyStore` | src/data/products.ts:128-145 | seeding an empty store succeeds unless opening or a request fails; then it holds exactly the seed records, otherwise it stays empty |
| `Catalog.Catalog.GetAll` | src/data/products.ts:100 | reading the store yields every stored record exactly once and nothing else, in some order |
| `Catalog.ListingsAgree` | src/data/products.ts:100-113 | two readings of the same store have the same length and the same records |
| `Catalog.ListedOnce` | src/data/products.ts:100-113 | in a reading of the store, a stored record occurs once and any other record never |
| `Catalog.Catalog.LoadProducts` | src/data/products.ts:94-125 | if opening fails: the seed records, store untouched; if the read fails: a rejection; if the store is empty: the seed records, whether or not seeding succeeds, and the store is seeded exactly when seeding succeeds; otherwise: a reading of the unchanged store |
| `Catalog.FirstRunThenReload` | src/data/products.ts:102-113 | a first load on an empty store returns the seed records; a second load returns the same six records |
| `Catalog.Catalog.GetCategories` | src/data/products.ts:178-184 | the loop over the records computes `Categories(products)` |
| `Catalog.CategoriesComplete` | src/data/products.ts:178-184 | a string is returned exactly when it is some record's category |
| `Catalog.CategoriesDistinct` | src/data/products.ts:178-184 | no category is returned twice |
| `Catalog.CategoriesInFirstSeenOrder` | src/data/products.ts:178-184 | each returned category's first record comes before the next category's first record |
| `Catalog.Catalog.AddProduct` | src/data/products.ts:187-190 | the list becomes the old list plus the new record, with no id check, even when the save fails; the store is as `Save` of the new list gives |
| `Catalog.AddThenReload` | src/data/products.ts:187-190 | adding a record with a new id to a list of distinct ids saves, and every later reading holds that record exactly once |
| `Catalog.AddDuplicateBlocksSave` | src/data/products.ts:187-190 | adding a record whose id is already listed makes the save fail with a constraint error and leaves the store unchanged |
| `Catalog.Replaced` | src/data/products.ts:194-196 | the update keeps length and order; each record with the updated id becomes the update, every other record is unchanged |
| `Catalog.ReplacedMissingIsNoOp` | src/data/products.ts:193-196 | updating an id that no record has leaves the list unchanged |
| `Catalog.ReplacedKeepsIds` | src/data/products.ts:194-196 | an update keeps every id in place, so ids are distinct after it iff they were before |
| `Catalog.Catalog.UpdateProduct` | src/data/products.ts:193-198 | the list becomes `Replaced(old list, update)`, even when the save fails; the store is as `Save` of the new list gives |
| `Catalog.UpdateThenReload` | src/data/products.ts:193-198 | updating a stored id and saving stores the update under that id and keeps every other record |
| `Catalog.WithoutSpec` | src/data/products.ts:202 | deletion keeps each record with another id as often as before and drops every record with that id, in the original order |
| `Catalog.WithoutIdempotent` | src/data/products.ts:202 | deleting the same id twice equals deleting it once |
| `Catalog.WithoutKeepsUniqueIds` | src/data/products.ts:202 | deletion keeps distinct ids distinct |
| `Catalog.Catalog.DeleteProduct` | src/data/products.ts:201-204 | the list becomes `Without(old list, id)`, even when the save fails; the store is as `Save` of the new list gives |
| `Catalog.DeleteThenReload` | src/data/products.ts:201-204 | deleting an id from a list of distinct ids and saving leaves no stored record under that id |
| `ProductGrid.Filter` | src/components/ProductGrid.tsx:11-13 | the grid never shows more products than the list holds |
| `ProductGrid.FilterAll` | src/components/ProductGrid.tsx:11-12 | the token `all` shows the list unchanged |
| `ProductGrid.FilterByCategory` | src/components/ProductGrid.tsx:13 | any other token shows each product of exactly that category as often as listed, and no other product |
| `ProductGrid.FilterKeepsOrder` | src/components/ProductGrid.tsx:11-13 | what is shown is a subsequence of the list |
| `ProductGrid.ListedCategoryShowsProducts` | src/components/ProductGrid.tsx:11-13 | every category that `getCategories` offers shows a non-empty grid |
| `ProductGrid.SeedFilter` | src/components/ProductGrid.tsx:11-13 | on the seed list, `all` shows all six records and `Home` shows exactly the first two |
| `AdminPanel.MergeKeepsIdAndLink` | src/components/ProductManagement.tsx:70-77 | the edited record keeps its id and external link, and a link typed into the form is discarded; title, description, image and category come from the form |
| `AdminPanel.FindById` | src/components/ProductManagement.tsx:46 | gives nothing exactly when no listed record has the id; otherwise gives the first listed record with that id |
| `AdminPanel.EditThenReload` | src/components/ProductManagement.tsx:69-79 | submitting an edit of a stored record and saving stores the merged record under the edited id, with the old external link |
| `AdminPanel.ProductManagement.constructor` | src/components/ProductManagement.tsx:33-43 | the list starts as the catalog's products, with no record being edited and the form hidden |
| `AdminPanel.ProductManagement.HandleEdit` | src/components/ProductManagement.tsx:45-51 | if a listed record has the id, the first such record is being edited and the form is shown; otherwise nothing changes |
| `AdminPanel.ProductManagement.HandleDelete` | src/components/ProductManagement.tsx:53-55 | the catalog list loses that id, and the admin list equals the new catalog list; the edit state is unchanged |
| `AdminPanel.ProductManagement.HandleAddNewProduct` | src/components/ProductManagement.tsx:62-65 | no record is being edited and the form is shown |
| `AdminPanel.ProductManagement.HandleFormSubmit` | src/components/ProductManagement.tsx:67-89 | in edit mode the catalog is updated with the merged record; in add mode the catalog is untouched; either way the admin list equals the catalog list, the form is hidden and no record is being edited |
| `AdminPanel.ProductManagement.Cancel` | src/components/ProductManagement.tsx:99 | the form is hidden and the record being edited is kept |

## Left out

- Database mechanics: opening with a name and version, `onupgradeneeded`
  creating the store, request and transaction callbacks, and error logging.
  Each operation instead takes a `Faults` input: opening fails, or a request
  fails.
- Asynchrony: the model runs each save to completion inside the call. The
  source does not await the saves started by the admin handlers. It also
  loads the list through a fire-and-forget initialiser (src/data/products.ts:148-150).
  Until that load resolves, `products` stays empty. Both are scheduling
  matters and are not modelled.
- `Catalog.Catalog.SaveProducts`: has two simplifications.
  - A transaction aborted at commit, for example when the storage quota is
    exceeded, fires only `abort`, never `error`. The source's promise
    (src/data/products.ts:167-170) then never settles. So `addProduct`,
    `updateProduct` and `deleteProduct`, which await it, hang as well. The
    model has no outcome that never settles: it reports that case as
    `NotSaved(RequestFailed)`. Its "store unchanged" is right.
  - `ConstraintError`, `OpenFailed` and `RequestFailed` name the cause of the
    failure. They are not the value the caller receives. An open failure
    rejects with the open request's error (src/data/products.ts:77, re-thrown
    at :173). After opening, the source rejects with `transaction.error`,
    which is still null while a failed request's error reaches
    `transaction.onerror`.
- `AdminPanel.ProductManagement.constructor`: keeps a copy of the catalog's
  list. The source's `useState(products)` (src/components/ProductManagement.tsx:33)
  keeps a reference to the module array itself. `addProduct` grows that array
  in place with `push` (src/data/products.ts:188). Until the first
  `setProductList([...products])`, or until an update or delete reassigns
  `products`, the admin list therefore also shows every record added through
  the form. That includes an add whose save failed, which `handleEdit` can
  then find. The model does not capture this aliasing. Its `productList`
  changes only in the handlers.
- `Catalog.Catalog.GetAll`: returns the stored records in an unspecified
  order. The browser's object store returns them in ascending key order.
- `price` is not modelled. It is a floating-point value read with
  `parseFloat`, it is not part of the `Product` type, and no property of the
  core depends on it.
- `Catalog.Catalog.SaveInitialProducts`: `saveInitialProducts` resolves when
  its adds succeed, before the transaction commits. A commit failure after that point is modelled as a
  failed request, which leaves the store empty.
- The add form's validation and its timestamp ids, the admin password gate,
  toasts, routing, rendering, and the grid's animation delay are not part of
  this model.
