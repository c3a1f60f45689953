# Food storefront controller — Dafny model

This project models the request handlers of a food-ordering storefront
(`controller/foodcontroller.js`): the field checks run before a food record is
created or updated, the create, update and delete operations on the food
collection, the queries behind the "all foods", paginated list, filter,
related-foods, single-food and category pages, the photo endpoint, and the
cart total computed before a payment is submitted.

Modules:

- `Results` (`results.dfy`): `Option` and `Result`.
- `FoodModel` (`food_model.dfy`): the submitted form (every field a string or
  absent, as the multipart parser delivers it), uploaded photo, stored food
  record, category record and cart item.
- `Validation` (`validation.dfy`): the `switch (true)` chain of the create and
  update handlers as a function, an independent reference definition (an
  ordered list of named checks, first failure wins) and the lemmas that tie them
  together.
- `Store` (`store.dfy`): a class `FoodStore` holding the collection as a map
  from id to record, with `Create`, `Update` and `Delete` methods that change it
  in place and the photo endpoint as a function. The slug library and the
  schema's conversion of numeric fields are constant function fields of the
  store (deterministic, otherwise unknown); the save time is a parameter.
- `Queries` (`queries.dfy`): the read queries over the collection given as a
  sequence in the store's scan order, built from the store's primitives (sort
  by `createdAt` descending, `find` with a filter, `skip`/`limit`). Each is a
  function, except the filter handler, whose filter object is built up step by
  step and is therefore modelled by methods.
- `Payment` (`payment.dfy`): the loop that accumulates the sale amount, proved
  against a recursive sum.

## Model

| member | source | states |
|---|---|---|
| Validation.Validate | controller/foodcontroller.js:32-47 | a reported error is a check that fails; acceptance means name, description, price, category and quantity are all non-empty and the photo is not oversized |
| Validation.FirstFailureIsFirst | controller/foodcontroller.js:32-47 | the reference chain returns nothing exactly when no check fails, and otherwise a failing check with every earlier check passing |
| Validation.ValidateIsFirstFailure | controller/foodcontroller.js:165-180 | the handlers' chain equals the ordered list name, description, price, category, quantity, photo size with first failure winning |
| Validation.ValidateReportsFirstFailing | controller/foodcontroller.js:32-47 | exactly one error is reported and it is `e` if and only if check `e` fails and every check before it passes (e.g. missing name and price reports the name) |
| Validation.ValidatePassesIff | controller/foodcontroller.js:165-180 | a request is accepted if and only if no check fails |
| Validation.Message | controller/foodcontroller.js:34-46 | each error text begins with the name of the field whose check failed ("Name", "Description", "Price", "Category", "Quantity", "photo") |
| Validation.MessagesDistinct | controller/foodcontroller.js:34-46 | different failed checks send different error texts |
| Validation.PhotoBoundary | controller/foodcontroller.js:43-46 | with all fields filled, a missing photo passes and a photo passes exactly when its size is at most 1,000,000 bytes; otherwise the photo message is sent |
| Store.FoodStore.Create | controller/foodcontroller.js:32-54 | on a failed check the store is unchanged; otherwise exactly one record is added under a fresh id, carrying the submitted fields, `slug = slugify(name)`, the uploaded photo if any, and the save time |
| Store.FoodStore.Update | controller/foodcontroller.js:165-191 | on a failed check or unknown id the store is unchanged; otherwise only the record `pid` changes: submitted fields, `slug = slugify(name)`, shipping kept when absent, photo replaced only when uploaded, creation time kept |
| Store.FoodStore.Delete | controller/foodcontroller.js:142 | removes `pid` (a missing id is no error) and leaves every other record as it was |
| Store.FoodStore.PhotoOf | controller/foodcontroller.js:123-127 | the stored photo is sent when there is one; a record without photo gets no reply; an unknown id is an error |
| Queries.InsertNewestFirst | controller/foodcontroller.js:79 | inserting into a newest-first sequence keeps it newest-first and adds exactly that record |
| Queries.SortNewestFirst | controller/foodcontroller.js:79 | the sort is a permutation of the collection with non-increasing `createdAt` |
| Queries.SkipLimit | controller/foodcontroller.js:78 | `skip(n).limit(m)` returns min(m, length - n) records (none when n is past the end), the k-th being the record at position n + k |
| Queries.PrefixIsNewest | controller/foodcontroller.js:78-79 | a prefix of a newest-first order is newest-first, and nothing left after it is newer than anything in it |
| Queries.AllFoods | controller/foodcontroller.js:74-79 | at most 12 records (fewer only if the collection is smaller), newest first, drawn from the collection, and no record left out is newer than one returned |
| Queries.PageOf | controller/foodcontroller.js:261-262 | page `p` is the slice of the order from position (p-1)*6 up to p*6, clipped to its length |
| Queries.ListPage | controller/foodcontroller.js:256-263 | a page below 1 is refused; page `p` holds at most 6 records, exactly 6 when that many exist, the k-th being the record at position (p-1)*6+k of the newest-first order |
| Queries.PageNumber | controller/foodcontroller.js:257 | the page is the route parameter when given, and 1 otherwise |
| Queries.PageDefaultsToFirst | controller/foodcontroller.js:257 | without a page parameter the first page is served |
| Queries.PagesTile | controller/foodcontroller.js:261-262 | pages 1..k read in turn give exactly the first 6k records of the order, with no gap and no overlap |
| Queries.PagesDisjoint | controller/foodcontroller.js:261-262 | when each record occurs once, two different pages share no record |
| Queries.NewestFirstUnique | controller/foodcontroller.js:263 | when no two records share a `createdAt`, there is only one newest-first arrangement of a collection |
| Queries.PagesIndependentOfOrder | controller/foodcontroller.js:258-263 | when no two records share a `createdAt`, any newest-first order the store may produce is the modelled sort, and page `p` is that order's slice, so separate page requests tile one fixed order |
| Queries.Where | controller/foodcontroller.js:216 | a find returns each record that satisfies the filter exactly as many times as the collection holds it, and no other record |
| Queries.WhereAll | controller/foodcontroller.js:213-216 | a filter that every record satisfies returns the collection unchanged, in scan order |
| Queries.Find | controller/foodcontroller.js:216 | a find with the built filter returns each record meeting every added constraint exactly as often as the collection holds it, and no other record |
| Queries.BuildFilterArgs | controller/foodcontroller.js:213-215 | a category constraint is added if and only if `checked` is non-empty, a price constraint `[radio[0], radio[1]]` if and only if `radio` is non-empty |
| Queries.FoodFilters | controller/foodcontroller.js:212-216 | a record is returned if and only if it is in the collection, its category is in `checked` when that is non-empty, and `radio[0] <= price <= radio[1]` when `radio` is non-empty, as often as the collection holds it; with both empty, the whole collection |
| Queries.Related | controller/foodcontroller.js:309-315 | at most 3 records drawn from the collection (no record more often than it holds it), all of category `cid`, none with id `pid`; fewer than 3 only when every such record, with its multiplicity, is returned |
| Queries.SingleBySlug | controller/foodcontroller.js:100-103 | the first record in scan order with that slug, or none exactly when no record has it |
| Queries.CategoryBySlug | controller/foodcontroller.js:336 | a category whose slug equals the lower-cased requested slug (the schema declares the slug `lowercase`), or none exactly when no category has it |
| Queries.FoodsInCategory | controller/foodcontroller.js:336-337 | returns the category looked up by the lower-cased slug and each record referencing it as often as the collection holds it, and no other; no records when no category has the slug |
| Payment.SumAppend | controller/foodcontroller.js:377-380 | the total of two carts joined is the sum of their totals |
| Payment.SumPermutation | controller/foodcontroller.js:377-380 | the total does not depend on the order of the cart |
| Payment.SumBounds | controller/foodcontroller.js:377-380 | with non-negative prices the total is non-negative and at least each item's price |
| Payment.CartTotal | controller/foodcontroller.js:377-380 | the accumulated amount equals the sum of the cart's prices; an empty cart totals 0 |

## Left out

- The payment gateway: client construction, client-token generation and the sale transaction with its callback (controller/foodcontroller.js:17-22, 357-369, 381-401) are calls into an external SDK.
- Order recording after a successful sale (controller/foodcontroller.js:391-395): an unawaited save into the order collection; the order status enumeration is never changed by any code.
- Search (controller/foodcontroller.js:281-301): the keyword is used as a case-insensitive regular expression, whose semantics (and case folding) are not modelled.
- Count (controller/foodcontroller.js:236): the store's estimated document count is metadata of the store, not a computation over the records.
- HTTP status codes, response bodies and error logging; a failed storage operation (a failed save, a malformed id, a non-numeric price or quantity rejected by the schema) is not modelled: the numeric conversion `toNumber` is total.
- Reading the uploaded file from disk: an upload carries its bytes and size directly.
- Population of the category reference and the `-photo` projection: queries return whole records.
- Queries.BuildFilterArgs: requires `radio` to have zero or at least two elements; with exactly one, the `$lte` operand is `undefined` and its meaning is decided by the database driver's serialisation, which is not part of this model.
- Queries.FoodFilters: carries the same precondition on `radio`, for the same reason.
- A request body without `checked` or `radio` makes the filter handler throw and answer with an error; a body without `cart` makes the payment handler throw inside a block that only logs the error, so that request is never answered. The model takes these fields as always present.
- Queries run over the collection given as a sequence in the store's scan order; that this sequence lists the records of `FoodStore.foods` is not modelled. Records with equal `createdAt` may come in any order from the store; `SortNewestFirst` fixes one.
- Queries.PagesTile: holds for one fixed newest-first order. Across separate page requests the store may order records with equal `createdAt` differently, so pages then need not tile the collection; only when all `createdAt` values differ does `PagesIndependentOfOrder` make every request see the same order.
- Queries.PagesDisjoint: likewise holds across requests only when all `createdAt` values differ.
- Queries.CategoryBySlug: the store's lower-casing is a parameter `lower`, deterministic and otherwise unknown; its Unicode case mapping is not modelled.
- The page parameter is taken as an integer or absent; the conversion of the route's string to a number is not modelled.
- Prices are integers; floating-point addition of prices is not modelled.
- `shipping` is kept as the submitted text; its conversion to a boolean by the schema is not modelled.
- Update writes the record, then writes the photo in a second save; only the final state is modelled, not the state between the two writes, and not concurrent writers.
- `routes/foodRoute.js` (route wiring and authentication middleware) and the schema files are not part of this model.

## Where the code differs from its documented behaviour

The model follows the code in each case.

- Photo endpoint: for a record without a photo the handler sends no response at all (the documented behaviour is an empty response) — `PhotoOf` returns `NoReply`.
- Delete of a missing id succeeds; it is not a not-found error.
- Update of a missing id fails only because the handler then dereferences the missing result; nothing is written — `Update` returns `NotFound` with the store unchanged.
- Single food and category lookups with an unknown slug are not errors: the single-food handler returns no record, and the category handler queries for records with a null category, which finds none.
- The oversized-photo message says the photo is required, but a request without a photo passes.
