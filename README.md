# Product catalog: catalog service and request rate limiter

This project models the two stateful parts of a small product-catalog web
service and proves properties of them in Dafny.

* **Catalog service** (`ProductServiceImpl`). It gets, pages, creates,
  updates and deletes `Product` rows. The products table is a
  `map<int, Product>` field of the class `ProductCatalog.ProductServiceImpl`.
  The table's identity sequence is the field `nextId`. The clock is the
  parameter `now`. The class invariant `Valid()` says every row is stored
  under its own id, that id is below `nextId`, and every row has a creation
  instant.
  * The record transformations are functions in `Products`. `NewProduct`
    builds a product from a create request. `Merge` applies an update patch.
  * The methods apply them step by step, as the source does. `CreateProduct`
    checks the name, then builds and saves. `UpdateProduct` looks the row up,
    calls the setters one by one, stamps `updatedAt`, then saves. Each
    method's `ensures` ties the new table to the old one.
* **Rate-limited variant** (`ProductCatalog.RateLimitedProductService`).
  This is the variant the controller and the unit tests call. Create and
  update take the acting user's id and consult the limiter. On create the
  limiter runs after the duplicate-name check. On update it runs after the
  lookup. A refused name or a missing id therefore leaves the limiter's
  counters untouched.
* **Rate limiter** (`RequestRateLimiter`). It keeps a per-user counter in a
  key-value store with expiry. The store is a `map<int, Counter>` field of
  `RateLimiting.RequestRateLimiter`. An expired key reads as absent. The
  method `LimitRequestsByUserId` does INCR, then EXPIRE, then refuses when
  the count is over 10. It is proved equal to the declarative step function
  `Limit`. The lemmas are about `Limit` and about `Run`, a sequence of calls.

Errors are values of `Errors.Error`: `NotFound`, `BadRequest`,
`TooManyRequests`, and `IllegalArgument` for Spring's page-request check.
`Errors.Message` renders each one's message text as the source formats it.

Three points of the behaviour are worth stating on their own:

* Every call refreshes the expiry, because the guard `counter > 0` in
  `RequestRateLimiter.java` always holds after INCR. So the window runs one
  minute from the latest call, not from the first. A user who keeps calling
  at most a minute apart stays refused once over the limit
  (`RateLimiting.FirstTenAllowed`, `RateLimiting.SlidingWindowExample`).
* On create the name check runs before the limiter, and on update the
  lookup runs before the limiter. This is the order the unit tests fix.
* A duplicate name raises `BadRequestException`.

A key counts as expired only once the clock has passed its expiry instant,
which is Redis's rule; at the instant itself the key still exists.

## Model

The rows list the members that carry contracts. The definitions they are
stated about are `Errors.Message` (the message formats), `Products.NewProduct`
and `Products.Merge` (the record built on create and saved on update), and
`RateLimiting.Increment`, `RateLimiting.Expire` and `RateLimiting.Limit`
(INCR, EXPIRE and one whole limiter call).

| member | source | states |
|---|---|---|
| `Products.NewProductFromRequest` | src/main/java/com/merfonteen/productcatalog/service/impl/ProductServiceImpl.java:69-78 | a created product carries the request's name, price and optional fields exactly as given (the request is recovered from it), the id the store assigns, createdAt = now and no updatedAt |
| `Products.MergeOverwritesPresentFields` | src/main/java/com/merfonteen/productcatalog/service/impl/ProductServiceImpl.java:90-95 | each of name, description, category, stock and price is overwritten when the patch carries it and kept otherwise; updatedAt becomes now; id and createdAt are untouched |
| `Products.StockOnlyPatch` | src/main/java/com/merfonteen/productcatalog/service/impl/ProductServiceImpl.java:90-95 | a patch with only stock changes stock and updatedAt and no other field |
| `Products.MergeIdempotent` | src/main/java/com/merfonteen/productcatalog/service/impl/ProductServiceImpl.java:90-95 | applying the same patch twice at the same instant equals applying it once |
| `Products.MergeThen` | src/main/java/com/merfonteen/productcatalog/service/impl/ProductServiceImpl.java:90-95 | two successive updates equal one update with the combined patch at the later instant; the later value wins per field |
| `Products.InsertKeepsNamesUnique` | src/main/java/com/merfonteen/productcatalog/service/impl/ProductServiceImpl.java:63-79 | inserting a product whose name no row holds keeps names unique |
| `Products.MergeCanDuplicateNames` | src/main/java/com/merfonteen/productcatalog/service/impl/ProductServiceImpl.java:90 | update does not re-check names: there is a table with unique names that an update turns into one with a duplicate |
| `Errors.NotFoundMessageIdentifiesId` | src/main/java/com/merfonteen/productcatalog/service/impl/ProductServiceImpl.java:113 | the not-found message names its id: equal messages only for equal ids |
| `ProductCatalog.PageOf` | src/main/java/com/merfonteen/productcatalog/service/impl/ProductServiceImpl.java:47-57 | a negative page or a size below one is refused with IllegalArgument; otherwise the page holds the consecutive rows from page*size on, at most size of them and fewer only at the end of the listing; totalElements is the listing length; totalPages is non-negative and counts exactly the pages that start inside the listing (0 for an empty listing); isLastPage holds exactly when no row lies beyond this page |
| `ProductCatalog.ProductServiceImpl.FindProductByIdOrThrowException` | src/main/java/com/merfonteen/productcatalog/service/impl/ProductServiceImpl.java:111-114 | succeeds exactly when the id is stored and returns that row; otherwise NotFound for that id with message "Product not found by id: <id>" |
| `ProductCatalog.ProductServiceImpl.GetProduct` | src/main/java/com/merfonteen/productcatalog/service/impl/ProductServiceImpl.java:36-39 | returns the stored row when the id is present, NotFound otherwise, and changes nothing |
| `ProductCatalog.ProductServiceImpl.GetProducts` | src/main/java/com/merfonteen/productcatalog/service/impl/ProductServiceImpl.java:42-58 | any size above 100 gives exactly the page of size 100, smaller sizes pass through unchanged; the page has at most 100 rows, all stored, newest first; totalElements is the table size |
| `ProductCatalog.ProductServiceImpl.SaveNewProduct` | src/main/java/com/merfonteen/productcatalog/service/impl/ProductServiceImpl.java:69-82 | inserts the record built from the request under the next identity value, which no row held; nothing else changes |
| `ProductCatalog.ProductServiceImpl.CreateProduct` | src/main/java/com/merfonteen/productcatalog/service/impl/ProductServiceImpl.java:62-83 | a name already stored gives BadRequest for that name with the table and sequence unchanged; otherwise exactly one new row under a fresh id, existing rows unchanged; the invariant is kept |
| `ProductCatalog.ProductServiceImpl.SaveMerged` | src/main/java/com/merfonteen/productcatalog/service/impl/ProductServiceImpl.java:90-100 | the setters applied one at a time, then the save, equal storing `Merge` of the old row; no other row changes |
| `ProductCatalog.ProductServiceImpl.UpdateProduct` | src/main/java/com/merfonteen/productcatalog/service/impl/ProductServiceImpl.java:87-101 | a missing id gives NotFound and saves nothing; otherwise that row becomes the merge of the patch stamped now, and no other row changes |
| `ProductCatalog.ProductServiceImpl.DeleteProduct` | src/main/java/com/merfonteen/productcatalog/service/impl/ProductServiceImpl.java:105-109 | a present id removes exactly that row; an absent id gives NotFound and removes nothing |
| `ProductCatalog.RateLimitedProductService.CreateProduct` | src/test/java/com/merfonteen/productcatalog/service/impl/ProductServiceImplTest.java:177-206 | a duplicate name gives BadRequest without touching the limiter or the table; otherwise the limiter steps once; a refusal gives TooManyRequests with the table unchanged; else one new row as in CreateProduct |
| `ProductCatalog.RateLimitedProductService.UpdateProduct` | src/test/java/com/merfonteen/productcatalog/service/impl/ProductServiceImplTest.java:244-272 | a missing id gives NotFound without touching the limiter or the table; otherwise the limiter steps once; a refusal gives TooManyRequests with the table unchanged; else the row is merged as in UpdateProduct |
| `ProductCatalog.WidgetLifecycle` | src/main/java/com/merfonteen/productcatalog/service/impl/ProductServiceImpl.java:62-114 | create "Widget", then set stock 5, then delete, then get: the created row has createdAt, no updatedAt and the given price; the update sets stock 5 and keeps the price; the delete succeeds; the read gives NotFound |
| `ProductCatalog.CreateSameNameTwice` | src/main/java/com/merfonteen/productcatalog/service/impl/ProductServiceImpl.java:63-67 | two creates with one name: the first succeeds, the second fails with "Product with name 'Gadget' already exists", and one row remains |
| `ProductCatalog.RenameToTakenName` | src/main/java/com/merfonteen/productcatalog/service/impl/ProductServiceImpl.java:87-97 | renaming a product to another product's name succeeds, leaving two rows with one name |
| `RateLimiting.RequestRateLimiter.LimitRequestsByUserId` | src/main/java/com/merfonteen/productcatalog/util/RequestRateLimiter.java:19-30 | INCR then EXPIRE then the refusal equal the step `Limit`: the user's count grows by exactly 1, refused calls included; the key then expires at now + 60 s; other users' keys are unchanged; the call passes iff the new count is at most 10; a refusal carries the limit 10 |
| `RateLimiting.OtherUsersUntouched` | src/main/java/com/merfonteen/productcatalog/util/RequestRateLimiter.java:20 | a call for one user leaves what any other user's counter reads, at any instant, unchanged |
| `RateLimiting.WindowFromLatestCall` | src/main/java/com/merfonteen/productcatalog/util/RequestRateLimiter.java:23-25 | after a call at now, the user's count reads as the incremented value up to now + 60 s and as 0 after it |
| `RateLimiting.FreshCountAfterExpiry` | src/main/java/com/merfonteen/productcatalog/util/RequestRateLimiter.java:21-28 | once the clock has passed the key's expiry, the next call starts a new count at 1 and passes |
| `RateLimiting.OverLimitStaysRefused` | src/main/java/com/merfonteen/productcatalog/util/RequestRateLimiter.java:21-27 | once a count is over 10, the next call is refused and the count stays over 10 until the new expiry |
| `RateLimiting.RunWithinWindow` | src/main/java/com/merfonteen/productcatalog/util/RequestRateLimiter.java:21-29 | in a run of calls each at most 60 s after the previous, the call at position i sees count c + i + 1 (c what the first call finds) and passes exactly when that is at most 10 |
| `RateLimiting.FirstTenAllowed` | src/main/java/com/merfonteen/productcatalog/util/RequestRateLimiter.java:16-29 | from an absent or expired counter, such a run allows exactly the first 10 calls and refuses the 11th and every later one |
| `RateLimiting.SlidingWindowExample` | src/main/java/com/merfonteen/productcatalog/util/RequestRateLimiter.java:23-25 | calls every 59 s from a fresh start: the 11th, at 590 s, is refused, because the window slides with each call |
| `RateLimiting.RefusalNamesLimit` | src/main/java/com/merfonteen/productcatalog/util/RequestRateLimiter.java:28 | the refusal message is "You have exceeded the allowed number of actions, max: 10" |

## Left out

- HTTP routing, status codes and the `Location` header of `ProductController` are transport plumbing.
- The mapping of exceptions to error bodies with timestamps (`GlobalExceptionHandler`, `ErrorResponse`) is transport plumbing. Errors are the `Errors.Error` values instead.
- The MapStruct mapper (`toDto`, `toDtos`) is generated at build time and not in the repository. It is taken as the identity.
- Logging and Swagger annotations have no behaviour to model.
- `getProductsByCategory` is declared in `ProductService` but absent from the modelled implementation. It is not modelled.
- `ProductUpdateDto` and `ProductRepository` are not part of this model. The patch fields follow the getters the service calls. The repository is the `products` map plus the identity sequence `nextId`.
- The database's `ORDER BY created_at DESC` is not computed. `GetProducts` receives the table's listing, newest first, as the parameter `listing`. Ties are left in the order the listing gives.
- `PageOf` follows Spring Data's documented page arithmetic: offset page*size, total pages the ceiling of total/size, last page when no next page exists. That arithmetic is Spring Data library code outside the repository. PageImpl's correction of the total count for an inconsistent backend is not modelled.
- `ProductCatalog.ProductServiceImpl.CreateProduct`: when two rows already share the requested name (possible after a rename), Spring Data's single-result `findByName` raises a non-unique-result error, which the handler reports as an unexpected error. The model reports BadRequest in that case too. Either way the table is unchanged.
- `ProductCatalog.RateLimitedProductService.CreateProduct`: the same duplicate-row case as above.
- Transactions, the concurrent duplicate-name race, and the atomicity of Redis INCR are not modelled, because each call runs alone. INCR and EXPIRE are two separate store operations in this model.
- Redis outages are not modelled.
- `BigDecimal` prices are whole numbers (`int`). `LocalDateTime` values are milliseconds of an abstract clock (`nat`). `LocalDateTime.now()` is the parameter `now`.
- Java's `Long` and `Integer` widths are not modelled; integers are unbounded. A Redis counter reaches 2^63 only after 2^63 calls, each at most a minute after the one before.
- The bean-validation constraints (`@NotNull`, `@Positive`) are checked by the transport before the service runs. `ProductRequest` makes name and price non-optional. The `@Positive` constraints on price and stock are not modelled, since the service neither checks nor relies on them.
- The Redis key is `"limit::product::actions::user::" + userId`, which is injective in the user id. The counter store is therefore keyed by the user id itself.
