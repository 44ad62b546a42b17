# Order placement, modelled in Dafny

This project models the order-placement service of a small e-commerce backend.
The service is `CreateOrderService.execute`. Given a customer id and a list of
(product id, quantity) entries, it does five things in order:

1. It looks up the customer.
2. It looks up all requested products in one batch.
3. It rejects the request when the number of rows found differs from the number of entries.
4. It checks product by product that stock would not go negative.
5. It writes the order with its line items, and only after that writes the stock decrements.

Modules, one per part of the program:

- `Entities` (`entities.dfy`): the values: customers, products, request entries, line items (`OrderProduct`), stock updates (`QuantityUpdate`), the order aggregate (fields of the `orders` entity), the three error kinds and `Result`.
- `Repositories` (`repositories.dfy`): the customer, product and order repositories, as one `Database` class. It holds the customer table, the product table, the stored orders and a log of every repository call. The log is what makes "no write after a failure" and "order write before stock write" statable. The batched product lookup is not part of this model; `IsLookup` is its contract: the stored rows whose ids occur in the request, each once, in some order. `FindAll` is one implementation that promises only that contract.
- `CreateOrder` (`create_order.dfy`): the service. `PlanOrder` is the pure description of the outcome for a given lookup answer. `BuildOrderProducts` is the loop over the looked-up products, with early exit. `CreateOrderService.Execute` is the method. It returns the lookup answer it saw as a ghost out-parameter, and its postcondition ties the outcome, the new tables and the call log to `PlanOrder` for that answer.
- `OrderProperties` (`order_properties.dfy`): what the service guarantees, stated over the product table and the request, for every lookup answer that meets the lookup contract.
- `OrderExamples` (`order_examples.dfy`): the two worked examples (P1 at 10.00 with 5 on hand; ordering 3, then 6), and a client that places the same order twice.
- `Seqs` (`seqs.dfy`): counting distinct elements, used for the count comparison.

Behaviour of the code worth knowing, kept as it is:

- The ids are not de-duplicated before the count check. The check compares the lookup's row count with the number of request entries. So for a known customer, and a lookup that returns each stored row once, a request naming a product twice fails with `ProductNotFound` (`DuplicateRequestRejected`). Duplicate entries therefore never reach the quantity accounting.
- Nothing requires the request to be non-empty. A known customer with an empty request gets an order without line items (`EmptyRequestAccepted`).
- The count check tests for inequality. Under the lookup contract the lookup never returns more rows than there are entries, so inequality means "fewer rows".
- The code does not check the sign of a requested quantity. A negative quantity passes the stock check and raises the stock. The model keeps this: quantities are unbounded integers.

## Model

| member | source | states |
|---|---|---|
| `Repositories.FindAll` | src/modules/orders/services/CreateOrderService.ts:42 | the batched lookup returns each stored row whose id is requested exactly once, every row it returns is stored and requested, nothing else |
| `Repositories.ApplyUpdatesEffect` | src/modules/orders/services/CreateOrderService.ts:79 | a batch of stock updates with distinct ids sets exactly the listed quantities; other rows and other fields are unchanged; no row is added or removed |
| `Repositories.Database.FindCustomerById` | src/modules/orders/services/CreateOrderService.ts:33 | the customer lookup returns the stored customer exactly when the id is stored, and logs the call |
| `Repositories.Database.FindAllById` | src/modules/orders/services/CreateOrderService.ts:42 | the product lookup meets the lookup contract and logs the call with the requested ids |
| `Repositories.Database.Create` | src/modules/orders/services/CreateOrderService.ts:72-75 | the order write stores an order with the customer, its id as foreign key and the line items, under an id no earlier order has; it appends exactly that order and logs it |
| `Repositories.Database.UpdateQuantity` | src/modules/orders/services/CreateOrderService.ts:79 | the stock write leaves the product table equal to the updates applied in order, keeps every product stored under its own id, and logs the call |
| `CreateOrder.FindRequest` | src/modules/orders/services/CreateOrderService.ts:50 | the index found is the first request entry with that id; no index means no entry has it |
| `CreateOrder.RequestedQuantity` | src/modules/orders/services/CreateOrderService.ts:50-51 | the quantity used for a product is that of the first request entry with its id, and 0 when no entry has it |
| `OrderProperties.LookedUpRowsAreRequested` | src/modules/orders/services/CreateOrderService.ts:42-51 | under the lookup contract every looked-up row has a request entry with its id, so the 0 fallback is never used |
| `CreateOrder.FirstShort` | src/modules/orders/services/CreateOrderService.ts:49-58 | the index found is the first looked-up product whose stock would go negative; no index means every product passes the stock check |
| `CreateOrder.BuildOrderProducts` | src/modules/orders/services/CreateOrderService.ts:43-70 | the loop stops with the insufficient-inventory error for the first short product; otherwise it yields one line item and one stock update per looked-up product, in lookup order |
| `CreateOrder.CreateOrderService.Execute` | src/modules/orders/services/CreateOrderService.ts:32-82 | on every error: result is that error, and products and orders are unchanged; the log holds only the customer lookup, plus the product lookup when the customer exists. On success: the returned order has no customer id but still has the customer; the stored order keeps the customer id; the stock table is the updates applied; the log is customer lookup, product lookup, order write, then stock write |
| `OrderProperties.RequestedQuantityOfEntry` | src/modules/orders/services/CreateOrderService.ts:50-51 | when no id repeats, the quantity used for an entry's product is that entry's quantity |
| `OrderProperties.LookupCountMatches` | src/modules/orders/services/CreateOrderService.ts:39-47 | under the lookup contract, the row count equals the entry count if and only if every requested id is stored and no id repeats |
| `OrderProperties.CustomerNotFoundIff` | src/modules/orders/services/CreateOrderService.ts:33-37 | the outcome is the customer-missing error if and only if the customer is not stored |
| `OrderProperties.ProductNotFoundIff` | src/modules/orders/services/CreateOrderService.ts:39-47 | for a stored customer, the outcome is the product-not-found error if and only if some requested id is unknown or some id repeats |
| `OrderProperties.DuplicateRequestRejected` | src/modules/orders/services/CreateOrderService.ts:39-47 | a request naming the same product in two entries is refused as product-not-found |
| `OrderProperties.StockCheckMatchesRequest` | src/modules/orders/services/CreateOrderService.ts:49-58 | for known, distinct ids, the per-product stock check over the lookup passes if and only if no entry asks for more than is on hand; a failing product is one whose entry asks for too much |
| `OrderProperties.InsufficientInventoryIff` | src/modules/orders/services/CreateOrderService.ts:54-58 | the outcome is insufficient inventory if and only if the customer exists, the ids are known and distinct, and some entry asks for more than is on hand; the error names such a product |
| `OrderProperties.SucceedsIff` | src/modules/orders/services/CreateOrderService.ts:33-70 | the request succeeds if and only if the customer exists and the request is fulfillable: known ids, none twice, enough stock for each entry |
| `OrderProperties.OrderProductsFollowLookup` | src/modules/orders/services/CreateOrderService.ts:49-69 | on success the order is for the stored customer and has one line item per looked-up product, in the same order, with that product's id and a copy of its price |
| `OrderProperties.EveryEntryHasLineItem` | src/modules/orders/services/CreateOrderService.ts:49-69 | on success every request entry has a line item with its id, its quantity and the stored price |
| `OrderProperties.EveryLineItemRequested` | src/modules/orders/services/CreateOrderService.ts:49-69 | on success every line item is the line item of some request entry |
| `OrderProperties.UpdatesMatchOrderProducts` | src/modules/orders/services/CreateOrderService.ts:60-69 | stock updates and line items correspond one to one in the same order with the same ids; each new quantity is the old one less the line item's quantity, and is not negative |
| `OrderProperties.StockAfterOrder` | src/modules/orders/services/CreateOrderService.ts:60-79 | after a successful order each requested product's stock is exactly its old stock less the requested quantity; all its other fields and all unrequested products are unchanged |
| `OrderProperties.UpdatesOfLookup` | src/modules/orders/services/CreateOrderService.ts:60-63 | the stock updates built from a lookup of known, distinct ids lower each requested product by its entry's quantity and change no other product or field |
| `OrderProperties.StockStaysNonNegative` | src/modules/orders/services/CreateOrderService.ts:54-63 | if no stock was negative before a successful order, none is after it |
| `OrderProperties.EmptyRequestAccepted` | src/modules/orders/services/CreateOrderService.ts:39-75 | a stored customer with an empty request gets an order with no line items and no stock updates |
| `OrderExamples.LookupOfP1` | src/modules/orders/services/CreateOrderService.ts:42 | under the lookup contract, looking up P1 in the example table returns exactly P1's row |
| `OrderExamples.ThreeOfFivePlaced` | src/modules/orders/services/CreateOrderService.ts:49-79 | ordering 3 of P1 (5 on hand, 10.00) gives one line item (P1, 3, 10.00) and leaves 2 on hand |
| `OrderExamples.SixOfFiveRefused` | src/modules/orders/services/CreateOrderService.ts:54-58 | ordering 6 of P1 (5 on hand) fails with insufficient inventory naming P1 |
| `OrderExamples.OrderTwice` | src/modules/orders/services/CreateOrderService.ts:72-79 | placing the same order twice stores two orders with different ids and decrements the stock twice |

## Left out

- The `orders_products` table migration (src/shared/infra/typeorm/migrations/1596607760885-CreateOrdersProducts.ts) is left out. It only declares columns and foreign keys; SET NULL on delete and CASCADE on update are carried out by the database. No deletion path exists in the service.
- The `Order` entity's decorators are left out: eager loading, cascading line-item creation and timestamp columns belong to the ORM. Only its fields shape the `Order` datatype, without timestamps.
- `CreateOrder.RequestedQuantity`: ids are compared as exact strings, both by the lookup contract and by the first-match search. The stored ids are database `uuid` values, and a uuid lookup may match an id that differs only in letter case while the `===` search does not. The model does not capture that case, in which the code places an order line with quantity 0. Under the model's contract the 0 fallback is unreachable (`LookedUpRowsAreRequested`).
- The repository implementations are not part of this model; each is a method with a stated contract. The product lookup is stated as the contract `IsLookup`, and `Execute` and every property hold for any lookup answer meeting it. `FindAll` is one such answer, in request order. An update for an id that is not stored is ignored by assumption, but the service never produces one.
- Dependency injection and `async`/`await` are left out: the repositories are one object the service holds, and its calls are synchronous.
- Concurrency is left out. Races between simultaneous orders on the same product are not modelled. Neither is a crash or failed write between the order write and the stock write. The call log only fixes their order.
- Error message texts and the HTTP mapping of errors are left out: only the error kind and, for insufficient inventory, the product name are kept.
- Generated UUIDs are replaced by order ids numbered in creation order. Timestamps are omitted.
- JavaScript numbers are modelled as unbounded integers. NaN, fractions and floating-point rounding are not modelled. `prodImp?.quantity || 0` becomes "the first entry's quantity, or 0": for an integer quantity of 0 both give 0.
- Prices are copied and never computed with, so `Money` is a whole number of hundredths with no decimal(5,2) range check.
- Customer records carry only their id; the customer entity is not part of this model.
