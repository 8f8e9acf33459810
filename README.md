# EventCart order pipeline, modelled in Dafny

EventCart is a small shop. It has a FastAPI backend, an outbox worker and a web cart. This project models the backend's order pipeline as operations over an in-memory store, and proves what each operation promises.

- **The store.** `Db.Store` is a class whose fields are the tables: products (a map keyed by id), orders, order items, outbox events and idempotency records.
  - Each repository and service function becomes a method on that store. Its `modifies` clause names exactly the tables it writes.
  - Pure queries (`list_*`, `get_*`, `fetch_due_events`) become functions over table values.
  - `Valid()` is the invariant every method keeps:
    - ids equal table positions, and product rows sit under their own id;
    - `last_error` fits its 1024-character column;
    - idempotency keys fit their 128-character column and are unique per (user, key).
- **Order creation** (`OrderService.CreateOrderWithIdempotency`). The checks run in the source's order:
  1. empty request;
  2. stored key, with replay or conflict;
  3. duplicate ids;
  4. unknown products;
  5. stock, first short line first.

  Only then does it write: the order, one item per line with the price snapshotted, the stock decrements, and the record under the key. Every failure and every replay leaves all four tables as they were. A placed order never drives stock below zero.
- **Payment and outbox.**
  - `PaymentService.ConfirmPayment` moves a `PENDING_PAYMENT` order to `PAID` and appends one `order.paid` event, due at once.
  - The outbox module has the due-event query: pending and due, oldest first, limited. It also has the success and failure bookkeeping, the capped exponential backoff with jitter, and the dead-letter threshold.
- **Worker.** `Worker.WorkerPass` is one iteration of `worker_loop`. It claims up to ten due events and, in order, runs each handler. A handler that succeeds gets its event marked processed. A handler that fails gets one more failed attempt recorded, with the error cut to 1000 characters.
- **Two pure extras.**
  - The web cart reducer (`CartContext`): add, update quantity, clear, and the two totals.
  - The comma-separated origin list parser (`Settings.AllowedOriginsList`).
- **Whole flows** (`Flows`). Order, pay, claim and fulfil; a replayed request; a reused key with other items; a double confirmation. Each is run against a fresh store.

Two side effects become parameters:
- The clock is an explicit `now` (integer microseconds).
- `random.uniform` is a `draw` in `[0, DrawScale]` supplied by the caller; `DrawScale` stands for 1.0.

Two behaviours of the code worth knowing:
- **The handler has no status guard.** `handle_outbox_event` writes `FULFILLED` to whatever order an `order.paid` event names, whatever its current status (`Processor.Handle`).
- **One transaction per pass.** A worker pass runs every claimed event inside one transaction (`session.begin()` around the whole batch). Each event's outcome is still written one after the other, in batch order (`Worker.SettleAll`).

## Model

| member | source | states |
|---|---|---|
| Models.NewOutboxEvent | apps/api/src/eventcart/models/outbox.py:16-30 | a new event keeps the given id, aggregate type and id, event type and payload. Its column defaults are PENDING, attempt count 0, next attempt and creation time equal to now, and no processed time or error |
| OrderRepo.ListOrders | apps/api/src/eventcart/repo/order_repo.py:32-34 | an order is listed exactly when it is in the table and belongs to the user; the list is never longer than the table |
| OrderRepo.ListOrdersAppend | apps/api/src/eventcart/repo/order_repo.py:32-34 | the model's listing keeps table order: the listing of a split table is the listing of each part, concatenated |
| OrderRepo.GetOrder | apps/api/src/eventcart/repo/order_repo.py:37-41 | a result is a row with both the id and the owner asked for; no result means no row matches both, so another user's order is never returned |
| OrderRepo.GetOrderById | apps/api/src/eventcart/repo/order_repo.py:44-46 | a result is a row with that id, whoever owns it; no result means no row has that id |
| OrderRepo.GetOrderFindsRow | apps/api/src/eventcart/repo/order_repo.py:37-46 | on a table whose ids are positions, lookup by id returns exactly the row at that id (or none past the end); lookup by id and owner returns it only when the owner matches |
| OrderRepo.ListOrderItems | apps/api/src/eventcart/repo/order_repo.py:49-51 | an item is listed exactly when it is in the table and linked to the order |
| OrderRepo.ListOrderItemsAppend | apps/api/src/eventcart/repo/order_repo.py:49-51 | the model's item listing keeps table order: the listing of a split table is the listing of each part, concatenated |
| OrderRepo.CreateOrder | apps/api/src/eventcart/repo/order_repo.py:12-18 | appends exactly one order with the next id and the given user, status and total, created and updated now; the existing orders and every other table are untouched |
| OrderRepo.AddOrderItem | apps/api/src/eventcart/repo/order_repo.py:21-29 | appends exactly one item with the next id, linked to the order, carrying the given product, quantity and unit price |
| OrderRepo.UpdateOrderStatus | apps/api/src/eventcart/repo/order_repo.py:54-57 | only that order changes, and only its status and updated_at |
| IdempotencyRepo.GetIdempotencyKey | apps/api/src/eventcart/repo/idempotency_repo.py:9-15 | a result is a stored record with that user and key; there is no result exactly when no stored record has both |
| IdempotencyRepo.GetAfterAppend | apps/api/src/eventcart/repo/idempotency_repo.py:9-26 | round trip: after storing a record for a new (user, key) pair, a lookup of that pair returns it unchanged, and a lookup of any other pair returns what it did before |
| IdempotencyRepo.CreateIdempotencyKey | apps/api/src/eventcart/repo/idempotency_repo.py:18-26 | the insert succeeds exactly when the key fits 128 characters and the (user, key) pair is not yet stored. On success it appends exactly that record, and the pair then finds it; otherwise the table is unchanged. Records stay unique per pair |
| ProductRepo.ListProducts | apps/api/src/eventcart/repo/product_repo.py:9-11 | every stored product exactly once (a permutation of the catalog), sorted by name in code-point order |
| ProductRepo.GetProductsByIds | apps/api/src/eventcart/repo/product_repo.py:14-16 | exactly the stored products whose id is listed, each as stored |
| ProductRepo.AllFoundIffCountMatches | apps/api/src/eventcart/services/order_service.py:68-73 | for distinct ids, the number of rows found equals the number of ids exactly when every id is in the catalog (the count test behind "Invalid product") |
| ProductRepo.UpdateStock | apps/api/src/eventcart/repo/product_repo.py:19-21 | only that product changes, and only its stock quantity |
| OrderService.RequestHashInjective | apps/api/src/eventcart/services/order_service.py:19-21 | two requests have the same fingerprint exactly when their item lists are equal |
| OrderService.RequestHash | apps/api/src/eventcart/services/order_service.py:19-21 | the fingerprint of the request's item list. Its partner `OrderService.RequestHashInjective` states that equal fingerprints mean equal lists, which is the collision-freeness assumed of SHA-256 |
| OrderService.Replay | apps/api/src/eventcart/services/order_service.py:56-62 | a stored record answers with its stored response exactly when its fingerprint matches the request's, and with the conflict error otherwise |
| OrderService.ProductIds | apps/api/src/eventcart/services/order_service.py:64 | one id per line, in line order |
| OrderService.FirstShortage | apps/api/src/eventcart/services/order_service.py:77-84 | the index of a line asking for more than its product's stock with no such line before it; none exactly when every line fits |
| OrderService.Validate | apps/api/src/eventcart/services/order_service.py:64-84 | Duplicate items exactly when two lines name one product. Invalid product exactly when the ids are distinct but one is unknown. Insufficient stock exactly when all are known but one line is short. It passes exactly when none of these holds |
| OrderService.ReserveEffect | apps/api/src/eventcart/services/order_service.py:89-96 | for lines with distinct known products: each named product's stock drops by exactly its quantity, every other product is unchanged, and no other field changes. Stock that was non-negative and sufficient stays non-negative |
| OrderService.Reserve | apps/api/src/eventcart/services/order_service.py:90-92 | the catalog after each line's quantity has been taken from its product's stock, in line order; the set of products stays the same. `OrderService.ReserveEffect` states each product's new stock and `OrderService.PlaceOrder` that the loop reaches this catalog |
| OrderService.ReserveNonNegative | apps/api/src/eventcart/services/order_service.py:77-96 | when every line fits the stock, reserving keeps every stock level at or above zero |
| OrderService.ItemsFor | apps/api/src/eventcart/services/order_service.py:89-96 | one item per line, in line order, with consecutive ids, linked to the order, carrying the line's product and quantity and the product's price at that moment |
| OrderService.OrderResponseOf | apps/api/src/eventcart/services/order_service.py:24-40 | the response carries the order's id, status, total and timestamps, and one view per item, in order, with its id, product, quantity and unit price |
| OrderService.ResponseTotalMatchesItems | apps/api/src/eventcart/services/order_service.py:77-99 | the total in a new order's response equals the sum of unit price times quantity over the response's items |
| OrderService.PriceLines | apps/api/src/eventcart/services/order_service.py:77-85 | the loop fails with the name of the first short line's product, or returns the order total |
| OrderService.OrderTotal | apps/api/src/eventcart/services/order_service.py:77-85 | the sum of price times quantity over the lines, at the catalog's current prices; with no negative price or quantity it is not negative. `OrderService.PriceLines` proves the loop computes it and `OrderService.ResponseTotalMatchesItems` that the response's items add up to it |
| OrderService.CheckLines | apps/api/src/eventcart/services/order_service.py:64-85 | the checks of lines 64-85 fail with exactly the error of the validation, or return the order total when it passes |
| OrderService.PlaceOrder | apps/api/src/eventcart/services/order_service.py:87-96 | appends one PENDING_PAYMENT order with the total, appends its items and takes the stock of every line; the order id is the next one |
| OrderService.NewOrder | apps/api/src/eventcart/services/order_service.py:87-98 | the order row a validated request creates: PENDING_PAYMENT, the order total of the lines, created and updated now. `OrderService.PlaceOrder` states that exactly this row is appended, and `OrderService.ResponseTotalMatchesItems` that its total equals the sum over the items written |
| OrderService.ReserveLine | apps/api/src/eventcart/services/order_service.py:91-95 | one line: its product's stock drops by the quantity, and one item is appended with the price before the update |
| OrderService.CreateOrderWithIdempotency | apps/api/src/eventcart/services/order_service.py:43-104 | the branches in source order: no items; stored key replayed or conflicting; the validation error; a key too long for its column. Failures and replays write nothing. Otherwise the order, its items, the stock and, only under a non-empty key, the record are written, and the response returned. Stock never goes negative |
| OrderService.CreateNewOrder | apps/api/src/eventcart/services/order_service.py:64-104 | with no stored record: the validation error with nothing written, or the new order placed and recorded |
| OrderService.PlaceAndRecord | apps/api/src/eventcart/services/order_service.py:87-104 | an over-long key fails with every table restored; any other key places the order and stores the record when the key is non-empty |
| OrderService.ReplayAfterStore | apps/api/src/eventcart/services/order_service.py:54-102 | once a new order's record is stored under a non-empty key: the same items under that key replay the stored response, other items are a conflict, and other (user, key) pairs find what they found before |
| OrderService.MarkOrderPaid | apps/api/src/eventcart/services/order_service.py:107-108 | only that order changes: status PAID, updated now |
| OrderService.MarkOrderFulfilled | apps/api/src/eventcart/services/order_service.py:111-112 | only that order changes: status FULFILLED, updated now |
| PaymentService.PaidPayload | apps/api/src/eventcart/services/payment_service.py:22 | the payload has exactly the keys order_id and user_id, holding the order's id and owner |
| PaymentService.PaidEvent | apps/api/src/eventcart/services/payment_service.py:17-23 | the appended row is an `order.paid` event with aggregate type "order", the order's id and the order's payload. It is PENDING with no attempts, and due at its creation time |
| PaymentService.PaidEventDue | apps/api/src/eventcart/services/payment_service.py:17-23 | the event is due at the moment it is written, has type order.paid and aggregate ("order", order id), and names its order in the payload |
| PaymentService.ConfirmPayment | apps/api/src/eventcart/services/payment_service.py:11-23 | succeeds exactly when the order is PENDING_PAYMENT. On failure, "Invalid order state" with orders and outbox unchanged. On success the order becomes PAID, updated now, and exactly one order.paid event for it is appended |
| OutboxRepo.DueEvents | apps/api/src/eventcart/repo/outbox_repo.py:53 | an event is kept exactly when it is in the table, PENDING and due at now |
| OutboxRepo.IsDue | apps/api/src/eventcart/repo/outbox_repo.py:53 | an event is due exactly when it is PENDING and its next attempt is not after now. `OutboxRepo.DueEvents` and `OutboxRepo.FetchDueEvents` keep exactly such events, and `OutboxRepo.DeadNeverFetched` and `OutboxService.RetryWaitsForBackoff` state when an event is not due |
| OutboxRepo.DueOldestFirst | apps/api/src/eventcart/repo/outbox_repo.py:53-54 | exactly the due events, ordered by created_at ascending |
| OutboxRepo.FetchDueEvents | apps/api/src/eventcart/repo/outbox_repo.py:50-59 | every event returned is in the table, PENDING and due; the result is ordered by created_at and holds at most `limit` events |
| OutboxRepo.FetchDueEventsComplete | apps/api/src/eventcart/repo/outbox_repo.py:50-59 | fewer than `limit` results means every due event was returned; no due event left out is older than one returned |
| OutboxRepo.FetchDueEventsDistinct | apps/api/src/eventcart/repo/outbox_repo.py:50-59 | a batch never holds the same event twice |
| OutboxRepo.DeadNeverFetched | apps/api/src/eventcart/repo/outbox_repo.py:53 | a DEAD event is never returned, at any clock and any limit |
| OutboxRepo.CreateOutboxEvent | apps/api/src/eventcart/repo/outbox_repo.py:11-26 | appends exactly one event with the next id, the given aggregate, type and payload and the column defaults; it is due at once |
| OutboxRepo.MarkOutboxProcessed | apps/api/src/eventcart/repo/outbox_repo.py:29-32 | only that event changes: status PROCESSED and processed_at set, every other field kept |
| OutboxRepo.MarkOutboxFailed | apps/api/src/eventcart/repo/outbox_repo.py:35-47 | exactly attempt_count, next_attempt_at, last_error and status of that event are overwritten; an error longer than the 1024-character column makes the write fail with the table unchanged |
| OutboxService.CappedDelay | apps/api/src/eventcart/services/outbox_service.py:13 | the capped term is the smaller of the cap and base times 2^attempt |
| OutboxService.CappedDelayMonotone | apps/api/src/eventcart/services/outbox_service.py:12-13 | the capped term never decreases as the attempt number grows |
| OutboxService.DefaultCappedDelay | apps/api/src/eventcart/services/outbox_service.py:12-13 | with base 2 s and cap 60 s the term is 2 s times 2^attempt for attempts below 5 and 60 s from attempt 5 on |
| OutboxService.Jitter | apps/api/src/eventcart/services/outbox_service.py:14 | the jitter lies between zero and half the capped term; draw 0 gives 0, and the top draw gives half |
| OutboxService.ComputeBackoff | apps/api/src/eventcart/services/outbox_service.py:12-15 | the delay lies between the capped term and 1.5 times it, and never exceeds 1.5 times the cap |
| OutboxService.ProcessedEvent | apps/api/src/eventcart/services/outbox_service.py:23-24 | the event becomes PROCESSED at now; every other field is kept |
| OutboxService.FailedEvent | apps/api/src/eventcart/services/outbox_service.py:27-38 | the attempt number and the error are recorded. At or over the maximum the event is DEAD with the next attempt 365 days out; below it, PENDING after the backoff. Nothing else changes |
| OutboxService.RetryWaitsForBackoff | apps/api/src/eventcart/services/outbox_service.py:33-36 | a retried event is not due before the capped term has passed, and is due once 1.5 times the cap has passed |
| OutboxService.RepeatedFailures | apps/worker/src/eventcart_worker/main.py:30-38 | after n failures the attempt count has grown by n; the event is DEAD exactly when the count has reached the maximum, is never PROCESSED, and carries the last error |
| OutboxService.ClaimDueEvents | apps/api/src/eventcart/services/outbox_service.py:18-20 | the claim is the due-event query at the caller's clock with the batch size as limit |
| OutboxService.MarkProcessed | apps/api/src/eventcart/services/outbox_service.py:23-24 | only that event changes, to the processed event at now |
| OutboxService.MarkFailed | apps/api/src/eventcart/services/outbox_service.py:27-38 | only that event changes, to the failed event for this attempt; the write is refused, with the table unchanged, exactly when the error does not fit its column |
| Processor.Handle | apps/api/src/eventcart/services/processor.py:11-21 | it fails exactly for an order.paid event whose order id is missing or unknown, with "Order not found for outbox event". Any other type succeeds with no change. Success on order.paid sets only that order to FULFILLED, whatever its prior status |
| Processor.PaidOrder | apps/api/src/eventcart/services/processor.py:13-15 | a found order is in the table and has the id the payload names. There is no order exactly when the payload has no order_id, or no order has that id |
| Processor.HandleOutcomeStable | apps/api/src/eventcart/services/processor.py:13-16 | whether the handler succeeds depends only on which order ids exist, not on their statuses |
| Processor.HandleOutboxEvent | apps/api/src/eventcart/services/processor.py:11-21 | the method succeeds exactly when the handler does, and writes its new orders table; on failure it returns the handler's error and leaves the orders unchanged |
| Worker.HandleAllEffect | apps/worker/src/eventcart_worker/main.py:26-38 | after the batch's handlers ran, an order named by one of its order.paid events is FULFILLED, and an order no such event names is as it was |
| Worker.HandleAll | apps/worker/src/eventcart_worker/main.py:26-28 | the handlers of the batch, run in batch order, keep the orders table's length and shape. `Worker.HandleAllEffect` states what each order becomes, and `Worker.WorkerPass` that the pass leaves exactly this table |
| Worker.ClaimedRows | apps/worker/src/eventcart_worker/main.py:25 | a claimed batch consists of rows of the table, each equal to its stored row, with distinct ids |
| Worker.SettleAllEffect | apps/worker/src/eventcart_worker/main.py:26-38 | each claimed row is written once, with the outcome of its handler after the earlier ones in the batch ran, so a failing event does not stop the rest; every row outside the batch is unchanged |
| Worker.SettledOutcome | apps/worker/src/eventcart_worker/main.py:27-38 | a handler that succeeds leaves its event PROCESSED. One that fails leaves it with attempt count plus one and the handler's error. It then becomes DEAD exactly when that count reaches the maximum, and PENDING otherwise |
| Worker.Settled | apps/worker/src/eventcart_worker/main.py:27-38 | the row keeps its id, event type and payload, and is PROCESSED exactly when the handler succeeded; `Worker.SettledOutcome` gives the failed row in full |
| Worker.SettleAll | apps/worker/src/eventcart_worker/main.py:26-38 | settling a batch in order keeps the table's length; `Worker.SettleAllEffect` states what each row becomes |
| Worker.FailingEventFailsRepeatedly | apps/worker/src/eventcart_worker/main.py:27-38 | an order.paid event whose order does not exist, settled once per attempt, ends exactly as `OutboxService.FailRepeatedly` with the handler's error. After at least one attempt it is DEAD exactly when its count has reached the maximum |
| Worker.SettleEvent | apps/worker/src/eventcart_worker/main.py:27-38 | one event: the handler's orders on success, unchanged orders on failure, and the event's row replaced by its settled form |
| Worker.WorkerPass | apps/worker/src/eventcart_worker/main.py:22-38 | the batch is the due-event query with limit 10. Afterwards the orders are those the handlers produce in batch order, and the outbox is every claimed row settled in batch order |
| Worker.IdleDelay | apps/worker/src/eventcart_worker/main.py:39-42 | the loop sleeps no time after a non-empty batch, and never longer than the poll interval |
| Worker.IdleExactlyWhenNothingDue | apps/worker/src/eventcart_worker/main.py:39-42 | the loop sleeps the full poll interval exactly when no event in the table is due |
| Settings.Split | apps/api/src/eventcart/core/settings.py:27 | at least one piece, and no piece contains the separator |
| Settings.JoinSplit | apps/api/src/eventcart/core/settings.py:27 | splitting loses nothing: joining the pieces gives the string back |
| Settings.SplitJoin | apps/api/src/eventcart/core/settings.py:27 | pieces without separators come back unchanged from a join and split |
| Settings.Strip | apps/api/src/eventcart/core/settings.py:27 | the result is a slice of the input that starts and ends with a non-whitespace character, and everything outside it is whitespace |
| Settings.StripClean | apps/api/src/eventcart/core/settings.py:27 | a string with no whitespace at either end strips to itself |
| Settings.Kept | apps/api/src/eventcart/core/settings.py:27 | a piece contributes at most one origin, its stripped text, which is non-empty and trimmed |
| Settings.CleanOriginsTrimmed | apps/api/src/eventcart/core/settings.py:27 | every origin kept is non-empty and has no whitespace at either end |
| Settings.CleanOrigins | apps/api/src/eventcart/core/settings.py:27 | the comprehension over the pieces: each stripped, the empty ones dropped. Its partners `Settings.CleanOriginsTrimmed`, `Settings.CleanOriginsSingle` and `Settings.CleanOriginsAppend` state that every kept origin is trimmed, what one piece gives and that cleaning goes piece by piece |
| Settings.CleanOriginsAvoids | apps/api/src/eventcart/core/settings.py:27 | a character that no piece holds appears in no origin |
| Settings.CleanOriginsAppend | apps/api/src/eventcart/core/settings.py:27 | the output follows the order of the comma pieces: the result for a split list is the results for its parts, concatenated |
| Settings.CleanOriginsSingle | apps/api/src/eventcart/core/settings.py:27 | one piece contributes its stripped text, or nothing when that is empty (whitespace-only pieces are dropped) |
| Settings.AllowedOriginsList | apps/api/src/eventcart/core/settings.py:26-27 | every origin returned is non-empty, trimmed and free of commas |
| Settings.AllowedOriginsRoundTrip | apps/api/src/eventcart/core/settings.py:26-27 | a non-empty list of trimmed, comma-free origins comes back in order from its comma-joined form |
| Settings.CleanOriginsOfClean | apps/api/src/eventcart/core/settings.py:27 | pieces that are already trimmed and non-empty are kept as they are |
| Settings.DefaultOrigins | apps/api/src/eventcart/core/settings.py:15 | the default setting yields exactly ["http://localhost:3000"] |
| CartContext.Find | apps/web/components/cart-context.tsx:47 | no result exactly when no entry has the product; a result is an entry of the cart for that product |
| CartContext.FindUnique | apps/web/components/cart-context.tsx:47 | in a cart with one entry per product, finding an entry's product returns that entry |
| CartContext.AddItem | apps/web/components/cart-context.tsx:45-56 | the new list is the add of the item, and the bump counter rises by exactly one |
| CartContext.AddItems | apps/web/components/cart-context.tsx:46-53 | after the add the product has an entry, and the list is one entry longer exactly when the product had none. `CartContext.AddItemExisting` and `CartContext.AddItemNew` give the new list in each case |
| CartContext.AddQtyIds | apps/web/components/cart-context.tsx:49-51 | the quantity increment keeps the list's length and every entry's product, at the same position |
| CartContext.AddQty | apps/web/components/cart-context.tsx:49-51 | the entries for the product get the item's quantity added and the others stay. `CartContext.AddQtyIds` states that length and products stay in place, and `CartContext.AddItemExisting` that on a cart with unique ids only that entry changes, by the item's quantity |
| CartContext.AddItemExisting | apps/web/components/cart-context.tsx:47-51 | when the product is in the cart, only its entry changes, by adding the item's quantity |
| CartContext.AddItemNew | apps/web/components/cart-context.tsx:53 | when the product is not in the cart, the item is appended at the end |
| CartContext.AddItemWellFormed | apps/web/components/cart-context.tsx:47-53 | adding keeps one entry per product, and keeps every quantity positive when the item's is |
| CartContext.TotalsAppend | apps/web/components/cart-context.tsx:68-69 | both totals add up over a split of the list |
| CartContext.Total | apps/web/components/cart-context.tsx:68 | the sum of price times quantity over the entries. `CartContext.TotalsAppend`, `CartContext.TotalsUpdate` and `CartContext.TotalsNonNegative` state how it adds up, how it moves when one entry changes, and that it is not negative |
| CartContext.TotalItems | apps/web/components/cart-context.tsx:69 | the sum of the quantities, with the same partner lemmas as `CartContext.Total` |
| CartContext.TotalsNonNegative | apps/web/components/cart-context.tsx:68-69 | with no negative prices or quantities the total is not negative, and a cart of positive entries holds at least one unit per entry |
| CartContext.TotalsUpdate | apps/web/components/cart-context.tsx:68-69 | replacing one entry changes each total by the difference between the two entries' contributions |
| CartContext.AddItemTotals | apps/web/components/cart-context.tsx:45-69 | adding raises the unit count by the item's quantity. It raises the total by that quantity at the price of the receiving entry: the existing entry's price when the product is in the cart, the item's own price otherwise |
| CartContext.Positive | apps/web/components/cart-context.tsx:62 | the filter never lengthens the list and leaves only positive quantities |
| CartContext.UpdateQty | apps/web/components/cart-context.tsx:58-63 | afterwards no entry has a quantity of zero or below |
| CartContext.UpdateQtyFind | apps/web/components/cart-context.tsx:58-63 | afterwards the product is found with the new quantity when that is positive and the product was in the cart, and is not found otherwise |
| CartContext.UpdateQtyOthers | apps/web/components/cart-context.tsx:61-62 | the other products' entries stay as they were, in their relative order, except those already non-positive |
| CartContext.UpdateQtyPresent | apps/web/components/cart-context.tsx:58-63 | on a well-formed cart the update is one edit in place: the product's entry takes the new quantity, or is removed when the quantity is zero or below |
| CartContext.UpdateQtySplice | apps/web/components/cart-context.tsx:61-62 | on a well-formed cart the product's one entry is replaced, at its position, by its edited form or by nothing |
| CartContext.UpdateQtyAbsent | apps/web/components/cart-context.tsx:58-63 | updating a product that is not in a cart of positive quantities changes nothing |
| CartContext.UpdateQtyUnique | apps/web/components/cart-context.tsx:58-63 | the update keeps one entry per product |
| CartContext.UpdateQtyIds | apps/web/components/cart-context.tsx:58-63 | the update adds no product: every entry afterwards is for a product that was already in the cart |
| CartContext.UpdateQtyWellFormed | apps/web/components/cart-context.tsx:58-63 | a well-formed cart stays well-formed |
| CartContext.Clear | apps/web/components/cart-context.tsx:66 | the cart becomes empty, both totals are 0, and the bump counter is left alone |
| Flows.OneWidgetValid | apps/api/tests/test_outbox_integration.py:18-26 | one unit of a product priced 2500 with stock 10 passes validation, costs 2500 and leaves a stock of 9 |
| Flows.PlaceOne | apps/api/tests/test_outbox_integration.py:23-26 | the first request on a fresh store places the order, takes the stock and stores the response under the key |
| Flows.PayOne | apps/api/tests/test_outbox_integration.py:30-33 | confirming the pending order makes it PAID and writes its one event |
| Flows.WorkOne | apps/api/tests/test_outbox_integration.py:35-39 | one pass over the paid order's event fulfils the order and marks the event processed |
| Flows.PlacePayFulfil | apps/api/tests/test_outbox_integration.py:16-43 | order, pay and one worker pass end with the order FULFILLED at a total of 2500 and the event PROCESSED. The stock ends at 9 |
| Flows.ReplaySameRequest | apps/api/tests/test_idempotency.py:22-35 | the same request twice under one key returns the same response, and exactly one order exists afterwards |
| Flows.ReuseKeyOtherItems | apps/api/src/eventcart/services/order_service.py:54-61 | the same key with another item list is a conflict, and no second order is created |
| Flows.ConfirmTwice | apps/api/src/eventcart/services/payment_service.py:12-23 | a second confirmation fails with "Invalid order state" and leaves the order PAID with one event |

## Left out

- **Concurrency and transactions.** Row locks (`with_for_update`, `skip_locked`), concurrent workers and `session.begin()` are not modelled. The model is sequential, so nothing is proved about two workers claiming the same event.
  - A failed write is modelled as the method restoring or skipping its own writes: the over-long idempotency key, and the over-long `last_error`.
- **Time.** The model takes one clock value per call, which stands for every `datetime.now` inside that call. So a new order's `created_at` and `updated_at` (order_service.py:98) are equal, and a claim and its settlements share one instant.
- **Floating point.** Seconds are integer microseconds, so the backoff's float arithmetic is not modelled.
  - `random.uniform(0, 0.5 * exp)` becomes `exp * draw / (2 * DrawScale)`, rounded down, for a caller-supplied `draw`.
  - The poll interval of 1.5 s becomes 1 500 000 µs.
- **Hashing and serialisation.** SHA-256 over `json.dumps(sort_keys=True)` is a symbolic fingerprint of the item list, assumed collision-free.
  - `OrderService.RequestHashInjective`: restates that assumption. It does not prove a property of SHA-256.
  - The 128-character bound on `request_hash` is not checked; a SHA-256 hex digest is 64 characters.
  - `isoformat()` timestamps and `str(uuid)` ids in the response are kept as values, not as text.
- **Identifiers.** UUIDs are naturals equal to the row's position in its table. Product ids arrive as already-parsed ids, so a malformed UUID string is not modelled.
- **Column types.** The 32-bit `Integer` columns (stock, price, quantity, total, attempt count) are unbounded integers; overflow is not modelled.
  - Of the length limits, only `last_error` (1024) and the idempotency `key` (128) are enforced. The other `String(n)` limits are not: `aggregate_type`, `event_type` and `status`.
  - Foreign keys are not modelled.
- **Ordering ties.** `ORDER BY created_at` leaves the order of equal timestamps to PostgreSQL. The model returns ties in table order.
  - `ORDER BY name` leaves collation to the database. The model compares names by code point.
- OrderRepo.ListOrders and OrderRepo.ListOrderItems: the two queries have no ORDER BY, so the database may return the rows in any order. The model returns them in table order, and `OrderRepo.ListOrdersAppend` and `OrderRepo.ListOrderItemsAppend` state that model order, not a promise of the source.
- **The worker's outer loop.** The model covers one pass (`Worker.WorkerPass`) and the sleep length that follows it (`Worker.IdleDelay`). It does not cover `while True`, `asyncio.sleep` or logging.
  - The only handler modelled is `handle_outbox_event`, so the only errors a pass sees are its "Order not found for outbox event". No other exception is modelled.
- **The integration test's batch size.** The test claims with `batch_size=5`; `Flows.PlacePayFulfil` uses the worker's 10. With one event in the outbox the two give the same batch.
- **Authentication, HTTP and the rest of the app.** The routers, password hashing, JWTs, sessions, middleware, seeding and migrations are not part of this model.
- **The web app other than the cart reducer.** Rendering is not modelled.
  - The cart's `localStorage` effects (cart-context.tsx:28-42) are not modelled.
  - React's `useState` is replaced by passing the cart in and returning the new one.
  - JavaScript numbers are modelled as integers, so fractional prices or quantities are not covered.
- **Request validation.** `qty > 0` (schemas/order.py:10) is a precondition of order creation, as the request schema guarantees it before the service runs.
- OrderService.ReserveEffect: states what reserving does only for lines whose product ids are distinct and known. That is the only case the service reaches, because validation runs before the first write.
- Worker.HandleAll: its own contract states only that the table keeps its length and shape. What the handlers do to each order is stated by `Worker.HandleAllEffect`.
