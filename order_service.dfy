/** Idempotent order creation with stock reservation, and the order status
    helpers. */
module OrderService {
  import opened Wrappers
  import opened Models
  import opened Seqs
  import opened Db
  import opened OrderRepo
  import opened ProductRepo
  import opened IdempotencyRepo

  /** The failures of `create_order_with_idempotency`. */
  datatype OrderError =
    | NoItems                              // 400 "No items"
    | IdempotencyConflict                  // 409 "Idempotency key reuse with different payload"
    | DuplicateItems                       // 400 "Duplicate items"
    | InvalidProduct                       // 400 "Invalid product"
    | InsufficientStock(productName: string) // 400 "Insufficient stock for {name}"
    | KeyTooLong                           // the idempotency insert overflows VARCHAR(128); the transaction rolls back

  /** `_request_hash({"items": items_payload})`. */
  function RequestHash(lines: seq<OrderLine>): Fingerprint {
    Sha256OfItems(lines)
  }

  /** The fingerprint is a deterministic function of the item list, and the
      model assumes no collisions. */
  lemma RequestHashInjective(a: seq<OrderLine>, b: seq<OrderLine>)
    ensures RequestHash(a) == RequestHash(b) <==> a == b
  {
  }

  /** A truthy `Idempotency-Key`: `None` and the empty string both skip the
      idempotency path. */
  predicate UsesKey(key: Option<string>) {
    key.Some? && key.value != ""
  }

  /** The record a request under `key` would find, if any. */
  function StoredRecord(records: seq<IdempotencyRecord>, userId: UserId, key: Option<string>): Option<IdempotencyRecord> {
    if UsesKey(key) then GetIdempotencyKey(records, userId, key.value) else None
  }

  /** The dedup decision on a stored record: replay on a matching
      fingerprint, conflict otherwise. */
  function Replay(rec: IdempotencyRecord, lines: seq<OrderLine>): (r: Result<OrderResponse, OrderError>)
    ensures r.Success? <==> rec.requestHash == RequestHash(lines)
    ensures r.Success? ==> r.value == rec.response
    ensures r.Failure? ==> r.error == IdempotencyConflict
  {
    if rec.requestHash != RequestHash(lines) then Failure(IdempotencyConflict) else Success(rec.response)
  }

  function ProductIds(lines: seq<OrderLine>): (ids: seq<ProductId>)
    ensures |ids| == |lines|
    ensures forall i :: 0 <= i < |lines| ==> ids[i] == lines[i].productId
  {
    seq(|lines|, i requires 0 <= i < |lines| => lines[i].productId)
  }

  ghost predicate AllKnown(products: map<ProductId, Product>, lines: seq<OrderLine>) {
    forall i :: 0 <= i < |lines| ==> lines[i].productId in products
  }

  predicate Short(products: map<ProductId, Product>, line: OrderLine)
    requires line.productId in products
  {
    line.qty > products[line.productId].stockQty
  }

  ghost predicate EnoughStock(products: map<ProductId, Product>, lines: seq<OrderLine>)
    requires AllKnown(products, lines)
  {
    forall i :: 0 <= i < |lines| ==> !Short(products, lines[i])
  }

  /** The first line asking for more than its product's stock. */
  function FirstShortage(products: map<ProductId, Product>, lines: seq<OrderLine>): (r: Option<nat>)
    requires AllKnown(products, lines)
    ensures r.Some? ==> r.value < |lines| && Short(products, lines[r.value])
    ensures r.Some? ==> forall j :: 0 <= j < r.value ==> !Short(products, lines[j])
    ensures r.None? <==> EnoughStock(products, lines)
  {
    if lines == [] then None
    else if Short(products, lines[0]) then Some(0)
    else
      var rest := FirstShortage(products, lines[1..]);
      if rest.Some? then Some(rest.value + 1) else None
  }

  /** The validation phase (lines 64-85), which precedes every write: the
      first of duplicate ids, an unknown id or a short line, if any. */
  function Validate(products: map<ProductId, Product>, lines: seq<OrderLine>): (r: Outcome<OrderError>)
    ensures r == Fail(DuplicateItems) <==> !Distinct(ProductIds(lines))
    ensures r == Fail(InvalidProduct) <==> Distinct(ProductIds(lines)) && !AllKnown(products, lines)
    ensures r.Fail? && r.error.InsufficientStock? <==>
      Distinct(ProductIds(lines)) && AllKnown(products, lines) && !EnoughStock(products, lines)
    ensures r == Pass <==> Distinct(ProductIds(lines)) && AllKnown(products, lines) && EnoughStock(products, lines)
    ensures r.Fail? ==> r.error.DuplicateItems? || r.error.InvalidProduct? || r.error.InsufficientStock?
  {
    var ids := ProductIds(lines);
    DistinctIffSetSize(ids);
    if |Elements(ids)| != |ids| then Fail(DuplicateItems)
    else
      AllFoundIffCountMatches(products, ids);
      if |GetProductsByIds(products, ids)| != |ids| then Fail(InvalidProduct)
      else match FirstShortage(products, lines)
        case Some(i) => Fail(InsufficientStock(products[lines[i].productId].name))
        case None => Pass
  }

  /** Σ price_cents × qty over the lines, at current prices. */
  function OrderTotal(products: map<ProductId, Product>, lines: seq<OrderLine>): (r: int)
    requires AllKnown(products, lines)
    ensures (forall i :: 0 <= i < |lines| ==> lines[i].qty >= 0 && products[lines[i].productId].priceCents >= 0) ==> r >= 0
  {
    if lines == [] then 0
    else
      var last := lines[|lines| - 1];
      OrderTotal(products, lines[..|lines| - 1]) + products[last.productId].priceCents * last.qty
  }

  /** How much the lines reserve of product `id`. */
  function QtyOf(lines: seq<OrderLine>, id: ProductId): int {
    if lines == [] then 0
    else
      var last := lines[|lines| - 1];
      QtyOf(lines[..|lines| - 1], id) + (if last.productId == id then last.qty else 0)
  }

  lemma {:induction false} QtyOfAbsent(lines: seq<OrderLine>, id: ProductId)
    requires forall i :: 0 <= i < |lines| ==> lines[i].productId != id
    ensures QtyOf(lines, id) == 0
  {
    if lines != [] {
      QtyOfAbsent(lines[..|lines| - 1], id);
    }
  }

  /** With distinct ids, a line's product has exactly that line's quantity
      reserved. */
  lemma {:induction false} QtyOfDistinct(lines: seq<OrderLine>, k: nat)
    requires k < |lines| && Distinct(ProductIds(lines))
    ensures QtyOf(lines, lines[k].productId) == lines[k].qty
  {
    var n := |lines| - 1;
    var init := lines[..n];
    assert Distinct(ProductIds(init)) by {
      forall i, j | 0 <= i < |init| && 0 <= j < |init| && i != j ensures ProductIds(init)[i] != ProductIds(init)[j] {
        assert ProductIds(lines)[i] != ProductIds(lines)[j];
      }
    }
    if k == n {
      forall i | 0 <= i < |init| ensures init[i].productId != lines[k].productId {
        assert ProductIds(lines)[i] != ProductIds(lines)[k];
      }
      QtyOfAbsent(init, lines[k].productId);
    } else {
      assert ProductIds(lines)[k] != ProductIds(lines)[n];
      QtyOfDistinct(init, k);
    }
  }

  /** The catalog after each line's quantity has been taken, in line order,
      from its product's stock. */
  function Reserve(products: map<ProductId, Product>, lines: seq<OrderLine>): (r: map<ProductId, Product>)
    ensures r.Keys == products.Keys
  {
    if lines == [] then products
    else
      var n := |lines| - 1;
      var before := Reserve(products, lines[..n]);
      if lines[n].productId in before then
        before[lines[n].productId := before[lines[n].productId].(stockQty := before[lines[n].productId].stockQty - lines[n].qty)]
      else before
  }

  /** Pointwise, a reservation lowers each product's stock by the total
      quantity the lines ask of it and changes nothing else. */
  lemma {:induction false} ReserveAt(products: map<ProductId, Product>, lines: seq<OrderLine>, id: ProductId)
    ensures Reserve(products, lines).Keys == products.Keys
    ensures id in products ==>
      Reserve(products, lines)[id] == products[id].(stockQty := products[id].stockQty - QtyOf(lines, id))
  {
    if lines != [] {
      var n := |lines| - 1;
      ReserveAt(products, lines[..n], id);
      ReserveAt(products, lines[..n], lines[n].productId);
    }
  }

  ghost predicate StockNonNegative(products: map<ProductId, Product>) {
    forall id :: id in products ==> products[id].stockQty >= 0
  }

  /** Over the whole catalog: the keys stay and each product's stock drops
      by what the lines reserve of it. */
  lemma ReservePointwise(products: map<ProductId, Product>, lines: seq<OrderLine>)
    ensures Reserve(products, lines).Keys == products.Keys
    ensures forall id :: id in products ==>
      Reserve(products, lines)[id] == products[id].(stockQty := products[id].stockQty - QtyOf(lines, id))
  {
    ReserveAt(products, lines, 0);
    forall id | id in products
      ensures Reserve(products, lines)[id] == products[id].(stockQty := products[id].stockQty - QtyOf(lines, id))
    {
      ReserveAt(products, lines, id);
    }
  }

  /** A product no line names is reserved nothing. */
  lemma QtyOfUnnamed(lines: seq<OrderLine>, id: ProductId)
    requires id !in ProductIds(lines)
    ensures QtyOf(lines, id) == 0
  {
    var ids := ProductIds(lines);
    forall i | 0 <= i < |lines| ensures lines[i].productId != id {
      assert ids[i] == lines[i].productId;
    }
    QtyOfAbsent(lines, id);
  }

  /** A reservation of lines naming distinct, known products (as validated
      lines do) takes exactly each line's quantity from its own product,
      leaves every other product as it was, touches no other field, and
      keeps stock non-negative when no line is short. */
  lemma ReserveEffect(products: map<ProductId, Product>, lines: seq<OrderLine>)
    requires Distinct(ProductIds(lines)) && AllKnown(products, lines)
    ensures Reserve(products, lines).Keys == products.Keys
    ensures forall k :: 0 <= k < |lines| ==>
      Reserve(products, lines)[lines[k].productId].stockQty == products[lines[k].productId].stockQty - lines[k].qty
    ensures forall id :: id in products && id !in ProductIds(lines) ==> Reserve(products, lines)[id] == products[id]
    ensures forall id :: id in products ==>
      Reserve(products, lines)[id] == products[id].(stockQty := Reserve(products, lines)[id].stockQty)
    ensures StockNonNegative(products) && EnoughStock(products, lines) ==> StockNonNegative(Reserve(products, lines))
  {
    ReservePointwise(products, lines);
    forall k | 0 <= k < |lines|
      ensures Reserve(products, lines)[lines[k].productId].stockQty == products[lines[k].productId].stockQty - lines[k].qty
    {
      QtyOfDistinct(lines, k);
    }
    forall id | id in products && id !in ProductIds(lines) ensures Reserve(products, lines)[id] == products[id] {
      QtyOfUnnamed(lines, id);
    }
    if StockNonNegative(products) && EnoughStock(products, lines) {
      ReserveNonNegative(products, lines);
    }
  }

  /** A validated reservation never drives stock below zero. */
  lemma ReserveNonNegative(products: map<ProductId, Product>, lines: seq<OrderLine>)
    requires Distinct(ProductIds(lines)) && AllKnown(products, lines) && EnoughStock(products, lines)
    requires StockNonNegative(products)
    ensures StockNonNegative(Reserve(products, lines))
  {
    var r := Reserve(products, lines);
    var ids := ProductIds(lines);
    ReservePointwise(products, lines);
    forall id | id in r ensures r[id].stockQty >= 0 {
      if id in ids {
        var k :| 0 <= k < |ids| && ids[k] == id;
        QtyOfDistinct(lines, k);
        assert !Short(products, lines[k]);
      } else {
        QtyOfUnnamed(lines, id);
      }
    }
  }

  /** One item per line, in line order, each linked to the order and carrying
      the product's current price. */
  function ItemsFor(orderId: OrderId, firstId: OrderItemId, products: map<ProductId, Product>, lines: seq<OrderLine>)
    : (items: seq<OrderItem>)
    requires AllKnown(products, lines)
    ensures |items| == |lines|
    ensures forall k :: 0 <= k < |lines| ==>
      items[k] == OrderItem(firstId + k, orderId, lines[k].productId, lines[k].qty,
                            products[lines[k].productId].priceCents)
  {
    if lines == [] then []
    else
      var n := |lines| - 1;
      ItemsFor(orderId, firstId, products, lines[..n])
        + [OrderItem(firstId + n, orderId, lines[n].productId, lines[n].qty, products[lines[n].productId].priceCents)]
  }

  /** The order a validated request creates. */
  function NewOrder(id: OrderId, userId: UserId, products: map<ProductId, Product>, lines: seq<OrderLine>, now: Time): Order
    requires AllKnown(products, lines)
  {
    Order(id, userId, PendingPayment, OrderTotal(products, lines), now, now)
  }

  /** `_order_response`: the order's fields and one view per item, in order. */
  function OrderResponseOf(order: Order, items: seq<OrderItem>): (r: OrderResponse)
    ensures r.id == order.id && r.status == order.status && r.totalCents == order.totalCents
    ensures r.createdAt == order.createdAt && r.updatedAt == order.updatedAt
    ensures |r.items| == |items|
    ensures forall k :: 0 <= k < |items| ==>
      r.items[k] == ItemView(items[k].id, items[k].productId, items[k].qty, items[k].unitPriceCents)
  {
    OrderResponse(order.id, order.status, order.totalCents, order.createdAt, order.updatedAt,
      seq(|items|, k requires 0 <= k < |items| => ItemView(items[k].id, items[k].productId, items[k].qty, items[k].unitPriceCents)))
  }

  /** Σ unit_price_cents × qty over item views. */
  function ViewsTotal(views: seq<ItemView>): int {
    if views == [] then 0
    else ViewsTotal(views[..|views| - 1]) + views[|views| - 1].unitPriceCents * views[|views| - 1].qty
  }

  /** The total a response reports is the sum of its own items' snapshotted
      prices times quantities. */
  lemma {:induction false} ResponseTotalMatchesItems(
    orderId: OrderId, firstId: OrderItemId, userId: UserId, products: map<ProductId, Product>, lines: seq<OrderLine>, now: Time)
    requires AllKnown(products, lines)
    ensures var resp := OrderResponseOf(NewOrder(orderId, userId, products, lines, now), ItemsFor(orderId, firstId, products, lines));
      resp.totalCents == ViewsTotal(resp.items)
  {
    var views := OrderResponseOf(NewOrder(orderId, userId, products, lines, now), ItemsFor(orderId, firstId, products, lines)).items;
    if lines != [] {
      var n := |lines| - 1;
      ResponseTotalMatchesItems(orderId, firstId, userId, products, lines[..n], now);
      var initViews := OrderResponseOf(NewOrder(orderId, userId, products, lines[..n], now), ItemsFor(orderId, firstId, products, lines[..n])).items;
      assert views[..n] == initViews;
    }
  }

  /** The store's four order-side tables are as they were. */
  twostate predicate TablesUnchanged(db: Store)
    reads db
  {
    && db.products == old(db.products) && db.orders == old(db.orders)
    && db.orderItems == old(db.orderItems) && db.idempotencyKeys == old(db.idempotencyKeys)
  }

  /** The stock check and total of lines 76-85: the first short line's
      product name, or the order total. */
  method PriceLines(products: map<ProductId, Product>, lines: seq<OrderLine>) returns (r: Result<int, OrderError>)
    requires AllKnown(products, lines)
    ensures FirstShortage(products, lines).Some? ==>
      r == Failure(InsufficientStock(products[lines[FirstShortage(products, lines).value].productId].name))
    ensures FirstShortage(products, lines).None? ==> r == Success(OrderTotal(products, lines))
  {
    var total := 0;
    var i := 0;
    while i < |lines|
      invariant 0 <= i <= |lines|
      invariant total == OrderTotal(products, lines[..i])
      invariant forall j :: 0 <= j < i ==> !Short(products, lines[j])
    {
      assert lines[..i + 1][..i] == lines[..i];
      var product := products[lines[i].productId];
      if lines[i].qty > product.stockQty {
        assert FirstShortage(products, lines) == Some(i);
        return Failure(InsufficientStock(product.name));
      }
      total := total + product.priceCents * lines[i].qty;
      i := i + 1;
    }
    assert lines[..|lines|] == lines;
    return Success(total);
  }

  /** The validation phase of lines 64-85 as the code runs it: the
      duplicate test, the lookup count, then the stock loop that also sums the
      total. It agrees with `Validate`, and on success yields the total. */
  method CheckLines(products: map<ProductId, Product>, lines: seq<OrderLine>) returns (r: Result<int, OrderError>)
    ensures Validate(products, lines).Fail? ==> r == Failure(Validate(products, lines).error)
    ensures Validate(products, lines) == Pass ==> AllKnown(products, lines) && r == Success(OrderTotal(products, lines))
  {
    var productIds := ProductIds(lines);
    DistinctIffSetSize(productIds);
    if |Elements(productIds)| != |productIds| {
      return Failure(DuplicateItems);
    }
    var found := GetProductsByIds(products, productIds);
    AllFoundIffCountMatches(products, productIds);
    if |found| != |productIds| {
      return Failure(InvalidProduct);
    }
    assert AllKnown(products, lines);
    r := PriceLines(products, lines);
  }

  /** The write phase of lines 87-98: the order row, then per line the stock
      decrement and the item row at the current price. */
  method PlaceOrder(db: Store, userId: UserId, lines: seq<OrderLine>, total: int, now: Time)
    returns (orderId: OrderId, orderItems: seq<OrderItem>)
    requires db.Valid() && AllKnown(db.products, lines)
    requires total == OrderTotal(db.products, lines)
    modifies db`products, db`orders, db`orderItems
    ensures db.Valid()
    ensures orderId == |old(db.orders)|
    ensures db.orders == old(db.orders) + [NewOrder(orderId, userId, old(db.products), lines, now)]
    ensures orderItems == ItemsFor(orderId, |old(db.orderItems)|, old(db.products), lines)
    ensures db.orderItems == old(db.orderItems) + orderItems
    ensures db.products == Reserve(old(db.products), lines)
  {
    ghost var products0, items0 := db.products, db.orderItems;
    orderId := CreateOrder(db, userId, PendingPayment, total, now);
    orderItems := [];
    var i := 0;
    while i < |lines|
      invariant 0 <= i <= |lines|
      invariant db.Valid()
      invariant AllKnown(products0, lines)
      invariant db.orders == old(db.orders) + [NewOrder(orderId, userId, products0, lines, now)]
      invariant db.products == Reserve(products0, lines[..i])
      invariant orderItems == ItemsFor(orderId, |items0|, products0, lines[..i])
      invariant db.orderItems == items0 + orderItems
    {
      orderItems := PlaceNext(db, products0, items0, orderId, lines, orderItems, i);
      i := i + 1;
    }
    assert lines[..|lines|] == lines;
  }

  /** Writes line i once the lines before it are written. */
  method PlaceNext(db: Store, ghost products0: map<ProductId, Product>, ghost items0: seq<OrderItem>, orderId: OrderId,
                   lines: seq<OrderLine>, written: seq<OrderItem>, i: nat)
    returns (orderItems: seq<OrderItem>)
    requires db.Valid() && i < |lines| && AllKnown(products0, lines)
    requires db.products == Reserve(products0, lines[..i])
    requires written == ItemsFor(orderId, |items0|, products0, lines[..i])
    requires db.orderItems == items0 + written
    modifies db`products, db`orderItems
    ensures db.Valid()
    ensures db.products == Reserve(products0, lines[..i + 1])
    ensures orderItems == ItemsFor(orderId, |items0|, products0, lines[..i + 1])
    ensures db.orderItems == items0 + orderItems
  {
    ReserveStep(products0, lines, i);
    ItemsForStep(orderId, |items0|, products0, lines, i);
    var item := ReserveLine(db, orderId, lines[i]);
    orderItems := written + [item];
  }

  /** One iteration of the write phase: take the line's quantity from the
      product's stock and record the item at the product's price. */
  method ReserveLine(db: Store, orderId: OrderId, line: OrderLine) returns (item: OrderItem)
    requires db.Valid() && line.productId in db.products
    modifies db`products, db`orderItems
    ensures db.Valid()
    ensures item == OrderItem(|old(db.orderItems)|, orderId, line.productId, line.qty,
                              old(db.products)[line.productId].priceCents)
    ensures db.orderItems == old(db.orderItems) + [item]
    ensures db.products == old(db.products)[line.productId :=
      old(db.products)[line.productId].(stockQty := old(db.products)[line.productId].stockQty - line.qty)]
  {
    var product := db.products[line.productId];
    UpdateStock(db, product.id, product.stockQty - line.qty);
    var itemId := AddOrderItem(db, orderId, product.id, line.qty, product.priceCents);
    item := OrderItem(itemId, orderId, product.id, line.qty, product.priceCents);
  }

  /** `create_order_with_idempotency`, one call inside one transaction. */
  method CreateOrderWithIdempotency(db: Store, userId: UserId, lines: seq<OrderLine>, key: Option<string>, now: Time)
    returns (r: Result<OrderResponse, OrderError>)
    requires db.Valid() && PositiveQuantities(lines)
    modifies db`products, db`orders, db`orderItems, db`idempotencyKeys
    ensures db.Valid()
    // an empty request fails before any lookup
    ensures lines == [] ==> r == Failure(NoItems)
    // a stored record under the key is replayed or is a conflict
    ensures lines != [] && StoredRecord(old(db.idempotencyKeys), userId, key).Some? ==>
      r == Replay(StoredRecord(old(db.idempotencyKeys), userId, key).value, lines)
    // otherwise validation decides
    ensures lines != [] && StoredRecord(old(db.idempotencyKeys), userId, key).None? && Validate(old(db.products), lines).Fail? ==>
      r == Failure(Validate(old(db.products), lines).error)
    ensures lines != [] && StoredRecord(old(db.idempotencyKeys), userId, key).None? && Validate(old(db.products), lines) == Pass
            && UsesKey(key) && |key.value| > KeyMaxLength ==>
      r == Failure(KeyTooLong)
    // failures and replays write nothing
    ensures r.Failure? || (lines != [] && StoredRecord(old(db.idempotencyKeys), userId, key).Some?) ==> TablesUnchanged(db)
    // a new order: stock taken, items snapshotted, record stored under the key
    ensures lines != [] && StoredRecord(old(db.idempotencyKeys), userId, key).None? && Validate(old(db.products), lines) == Pass
            && !(UsesKey(key) && |key.value| > KeyMaxLength) ==>
      Placed(db, userId, lines, key, now, r)
    ensures StockNonNegative(old(db.products)) ==> StockNonNegative(db.products)
  {
    var payloadHash := RequestHash(lines);
    if lines == [] {
      return Failure(NoItems);
    }
    if UsesKey(key) {
      var existing := GetIdempotencyKey(db.idempotencyKeys, userId, key.value);
      if existing.Some? {
        if existing.value.requestHash != payloadHash {
          return Failure(IdempotencyConflict);
        }
        return Success(existing.value.response);
      }
    }
    r := CreateNewOrder(db, userId, lines, key, now);
  }

  /** What a newly placed order leaves behind: the order and its items
      appended, the stock taken, and the response stored under the key. */
  twostate predicate Placed(db: Store, userId: UserId, lines: seq<OrderLine>, key: Option<string>, now: Time,
                            new r: Result<OrderResponse, OrderError>)
    reads db
  {
    && AllKnown(old(db.products), lines)
    && var order := NewOrder(|old(db.orders)|, userId, old(db.products), lines, now);
       var items := ItemsFor(order.id, |old(db.orderItems)|, old(db.products), lines);
       && r == Success(OrderResponseOf(order, items))
       && db.orders == old(db.orders) + [order]
       && db.orderItems == old(db.orderItems) + items
       && db.products == Reserve(old(db.products), lines)
       && db.idempotencyKeys == old(db.idempotencyKeys) +
            (if UsesKey(key) then [IdempotencyRecord(userId, key.value, RequestHash(lines), r.value)] else [])
  }

  /** Once a new order's record is stored under a non-empty key, the same
      request under that key replays the stored response, and any other item
      list under it is a conflict. Records under other pairs are found as
      before. */
  lemma ReplayAfterStore(records: seq<IdempotencyRecord>, userId: UserId, key: Option<string>,
                         lines: seq<OrderLine>, resp: OrderResponse, otherUser: UserId, otherKey: Option<string>,
                         lines2: seq<OrderLine>)
    requires UsesKey(key) && StoredRecord(records, userId, key).None?
    ensures var after := records + [IdempotencyRecord(userId, key.value, RequestHash(lines), resp)];
      && StoredRecord(after, userId, key) == Some(IdempotencyRecord(userId, key.value, RequestHash(lines), resp))
      && Replay(StoredRecord(after, userId, key).value, lines2) ==
           (if lines2 == lines then Success(resp) else Failure(IdempotencyConflict))
      && (otherUser != userId || otherKey != key ==> StoredRecord(after, otherUser, otherKey) == StoredRecord(records, otherUser, otherKey))
  {
    var rec := IdempotencyRecord(userId, key.value, RequestHash(lines), resp);
    GetAfterAppend(records, rec, userId, key.value);
    if UsesKey(otherKey) {
      GetAfterAppend(records, rec, otherUser, otherKey.value);
    }
    RequestHashInjective(lines, lines2);
  }

  /** The path of a request with no stored record: validate, write, then
      store the response under the key. */
  method CreateNewOrder(db: Store, userId: UserId, lines: seq<OrderLine>, key: Option<string>, now: Time)
    returns (r: Result<OrderResponse, OrderError>)
    requires db.Valid() && lines != [] && StoredRecord(db.idempotencyKeys, userId, key).None?
    modifies db`products, db`orders, db`orderItems, db`idempotencyKeys
    ensures db.Valid()
    ensures Validate(old(db.products), lines).Fail? ==> r == Failure(Validate(old(db.products), lines).error)
    ensures Validate(old(db.products), lines) == Pass && UsesKey(key) && |key.value| > KeyMaxLength ==>
      r == Failure(KeyTooLong)
    ensures r.Failure? ==> TablesUnchanged(db)
    ensures Validate(old(db.products), lines) == Pass && !(UsesKey(key) && |key.value| > KeyMaxLength) ==>
      Placed(db, userId, lines, key, now, r)
    ensures StockNonNegative(old(db.products)) ==> StockNonNegative(db.products)
  {
    var checked := CheckLines(db.products, lines);
    if checked.Failure? {
      return Failure(checked.error);
    }
    ghost var products0 := db.products;
    r := PlaceAndRecord(db, userId, lines, key, now, checked.value);
    if StockNonNegative(products0) && r.Success? {
      ReserveNonNegative(products0, lines);
    }
  }

  /** Lines 87-104 once validation has passed: the writes, then the
      idempotency record, whose failed insert rolls the writes back. */
  method PlaceAndRecord(db: Store, userId: UserId, lines: seq<OrderLine>, key: Option<string>, now: Time, total: int)
    returns (r: Result<OrderResponse, OrderError>)
    requires db.Valid() && StoredRecord(db.idempotencyKeys, userId, key).None?
    requires AllKnown(db.products, lines) && total == OrderTotal(db.products, lines)
    modifies db`products, db`orders, db`orderItems, db`idempotencyKeys
    ensures db.Valid()
    ensures UsesKey(key) && |key.value| > KeyMaxLength ==> r == Failure(KeyTooLong) && TablesUnchanged(db)
    ensures !(UsesKey(key) && |key.value| > KeyMaxLength) ==> Placed(db, userId, lines, key, now, r)
  {
    var savedProducts, savedOrders, savedItems := db.products, db.orders, db.orderItems;
    var orderId, orderItems := PlaceOrder(db, userId, lines, total, now);
    assert db.orders[orderId] == NewOrder(orderId, userId, savedProducts, lines, now);
    var response := OrderResponseOf(db.orders[orderId], orderItems);
    if UsesKey(key) {
      var ok := CreateIdempotencyKey(db, userId, key.value, RequestHash(lines), response);
      if !ok {
        // The failed insert aborts the enclosing transaction.
        db.products, db.orders, db.orderItems := savedProducts, savedOrders, savedItems;
        return Failure(KeyTooLong);
      }
    }
    r := Success(response);
  }

  /** Taking one more line out of the reservation lowers only that line's
      product's stock. */
  lemma ReserveStep(products: map<ProductId, Product>, lines: seq<OrderLine>, i: nat)
    requires i < |lines| && lines[i].productId in products
    ensures lines[i].productId in Reserve(products, lines[..i])
    ensures Reserve(products, lines[..i])[lines[i].productId] ==
      products[lines[i].productId].(stockQty := Reserve(products, lines[..i])[lines[i].productId].stockQty)
    ensures Reserve(products, lines[..i + 1]) ==
      Reserve(products, lines[..i])[lines[i].productId :=
        Reserve(products, lines[..i])[lines[i].productId].(
          stockQty := Reserve(products, lines[..i])[lines[i].productId].stockQty - lines[i].qty)]
  {
    assert lines[..i + 1][..i] == lines[..i];
    ReserveAt(products, lines[..i], lines[i].productId);
  }

  /** One more line adds one more item, at the next id. */
  lemma ItemsForStep(orderId: OrderId, firstId: OrderItemId, products: map<ProductId, Product>, lines: seq<OrderLine>, i: nat)
    requires i < |lines| && AllKnown(products, lines)
    ensures AllKnown(products, lines[..i]) && AllKnown(products, lines[..i + 1])
    ensures ItemsFor(orderId, firstId, products, lines[..i + 1]) ==
      ItemsFor(orderId, firstId, products, lines[..i])
        + [OrderItem(firstId + i, orderId, lines[i].productId, lines[i].qty, products[lines[i].productId].priceCents)]
  {
    assert lines[..i + 1][..i] == lines[..i];
  }

  /** `mark_order_paid`. */
  method MarkOrderPaid(db: Store, orderId: OrderId, now: Time)
    requires db.Valid() && orderId < |db.orders|
    modifies db`orders
    ensures db.Valid()
    ensures db.orders == old(db.orders)[orderId := old(db.orders)[orderId].(status := Paid, updatedAt := now)]
  {
    UpdateOrderStatus(db, orderId, Paid, now);
  }

  /** `mark_order_fulfilled`. */
  method MarkOrderFulfilled(db: Store, orderId: OrderId, now: Time)
    requires db.Valid() && orderId < |db.orders|
    modifies db`orders
    ensures db.Valid()
    ensures db.orders == old(db.orders)[orderId := old(db.orders)[orderId].(status := Fulfilled, updatedAt := now)]
  {
    UpdateOrderStatus(db, orderId, Fulfilled, now);
  }
}
