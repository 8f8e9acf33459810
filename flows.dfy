/** Whole request flows through the store: an order placed, paid for and
    fulfilled by the worker; a replayed request; a repeated confirmation. */
module Flows {
  import opened Wrappers
  import opened Models
  import opened Seqs
  import opened Db
  import opened OrderRepo
  import opened OutboxRepo
  import opened OutboxService
  import opened OrderService
  import opened PaymentService
  import opened Processor
  import opened Worker
  import opened Settings

  const Buyer: UserId := 1
  const Widget: Product := Product(0, "Widget", 2500, 10)

  function Catalog(): (c: map<ProductId, Product>)
    ensures ProductsWellFormed(c)
  {
    map[0 := Widget]
  }

  function OneWidget(): seq<OrderLine> {
    [OrderLine(0, 1)]
  }

  /** One widget from a stock of ten is valid and costs 2500 cents. */
  lemma OneWidgetValid()
    ensures Validate(Catalog(), OneWidget()) == Pass
    ensures OrderTotal(Catalog(), OneWidget()) == 2500
    ensures Reserve(Catalog(), OneWidget())[0].stockQty == 9
  {
    var lines := OneWidget();
    assert ProductIds(lines) == [0];
    assert Distinct(ProductIds(lines));
    assert !Short(Catalog(), lines[0]);
    assert lines[..0] == [];
  }

  /** Ten draws in range, one per event a pass may claim. */
  function NoJitter(): (d: seq<nat>)
    ensures |d| == BatchSize && DrawsInRange(d)
  {
    seq(BatchSize, _ => 0)
  }

  /** A store holding only the catalog. */
  ghost predicate Fresh(db: Store)
    reads db
  {
    db.Valid() && db.products == Catalog() && db.orders == [] && db.orderItems == [] && db.outbox == []
    && db.idempotencyKeys == []
  }

  /** The first request against a fresh store: one order of 2500 cents, the
      stock down to nine, and the response stored under the key. */
  method PlaceOne(db: Store, key: Option<string>, now: Time) returns (r: Result<OrderResponse, OrderError>)
    requires Fresh(db) && (key.Some? ==> |key.value| <= KeyMaxLength)
    modifies db`products, db`orders, db`orderItems, db`idempotencyKeys
    ensures db.Valid()
    ensures Placed(db, Buyer, OneWidget(), key, now, r)
  {
    OneWidgetValid();
    r := CreateOrderWithIdempotency(db, Buyer, OneWidget(), key, now);
  }

  /** A store with one product; an order for one unit at a stock of ten and a
      price of 2500; the payment confirmed; one worker pass. The order ends
      FULFILLED, the event PROCESSED, the stock at nine and the total at
      2500. */
  method PlacePayFulfil(t0: Time, t1: Time, t2: Time)
    returns (order: Order, event: OutboxEvent, stock: int)
    requires t0 <= t1 <= t2
    ensures order.status == Fulfilled && order.totalCents == 2500 && order.userId == Buyer
    ensures event.status == Processed && event.eventType == "order.paid" && event.processedAt == Some(t2)
    ensures stock == 9
  {
    var db := new Store(Catalog());
    var placed := PlaceOne(db, Some("flow-1"), t0);
    PayOne(db, t0, t1);
    WorkOne(db, t0, t1, t2);
    order := db.orders[0];
    event := db.outbox[0];
    stock := db.products[0].stockQty;
  }

  /** The order as placed at `t0`. */
  function Placed0(t0: Time): Order {
    Order(0, Buyer, PendingPayment, 2500, t0, t0)
  }

  /** Confirming the one pending order: it becomes PAID and its event is
      written. */
  method PayOne(db: Store, t0: Time, t1: Time)
    requires db.Valid() && db.orders == [NewOrder(0, Buyer, Catalog(), OneWidget(), t0)] && db.outbox == []
    modifies db`orders, db`outbox
    ensures db.Valid()
    ensures db.orders == [Placed0(t0).(status := Paid, updatedAt := t1)]
    ensures db.outbox == [PaidEvent(0, Placed0(t0), t1)]
  {
    OneWidgetValid();
    assert db.orders[0] == Placed0(t0);
    var paid := ConfirmPayment(db, 0, t1);
  }

  /** One worker pass over the paid order's event: the order is fulfilled and
      the event processed. */
  method WorkOne(db: Store, t0: Time, t1: Time, t2: Time)
    requires t1 <= t2
    requires db.Valid() && db.orders == [Placed0(t0).(status := Paid, updatedAt := t1)]
    requires db.outbox == [PaidEvent(0, Placed0(t0), t1)]
    modifies db`orders, db`outbox
    ensures db.Valid() && |db.orders| == 1 && |db.outbox| == 1
    ensures db.orders[0] == Placed0(t0).(status := Fulfilled, updatedAt := t2)
    ensures db.outbox[0] == ProcessedEvent(PaidEvent(0, Placed0(t0), t1), t2)
  {
    ghost var orders1, outbox1 := db.orders, db.outbox;
    var e := PaidEvent(0, Placed0(t0), t1);
    PaidEventDue(0, Placed0(t0), t1);
    FetchOne(outbox1, e, t2);
    var batch := WorkerPass(db, t2, WorkerMaxAttempts, NoJitter());
    HandleOne(orders1, e, t2);
    SettleOne(outbox1, orders1, e, NoJitter(), t2, WorkerMaxAttempts);
  }

  /** The handler of a paid event for the only order fulfils it. */
  lemma HandleOne(orders: seq<Order>, e: OutboxEvent, now: Time)
    requires OrdersWellFormed(orders) && |orders| == 1
    requires e.eventType == "order.paid" && "order_id" in e.payload && e.payload["order_id"] == 0
    ensures HandleAll(orders, [e], now) == [orders[0].(status := Fulfilled, updatedAt := now)]
  {
    assert [e][..0] == [];
    GetOrderFindsRow(orders, 0, 0);
  }

  /** A pass over that one event marks it processed. */
  lemma SettleOne(outbox: seq<OutboxEvent>, orders: seq<Order>, e: OutboxEvent, draws: seq<nat>, now: Time, maxAttempts: nat)
    requires OrdersWellFormed(orders) && |orders| == 1 && outbox == [e] && e.id == 0
    requires e.eventType == "order.paid" && "order_id" in e.payload && e.payload["order_id"] == 0
    requires |draws| >= 1 && DrawsInRange(draws)
    ensures SettleAll(outbox, orders, [e], draws, now, maxAttempts) == [ProcessedEvent(e, now)]
  {
    assert [e][..0] == [];
    GetOrderFindsRow(orders, 0, 0);
  }

  /** An outbox holding one event due at `now` yields that event. */
  lemma FetchOne(outbox: seq<OutboxEvent>, e: OutboxEvent, now: Time)
    requires outbox == [e] && IsDue(e, now)
    ensures FetchDueEvents(outbox, now, BatchSize) == [e]
  {
    assert DueEvents(outbox, now) == [e];
  }

  /** The same request sent twice under one key returns the same response, and
      the second call writes nothing. */
  method ReplaySameRequest(now: Time, later: Time)
    returns (first: Result<OrderResponse, OrderError>, second: Result<OrderResponse, OrderError>,
             orderCount: nat, stock: int)
    ensures first.Success? && second == first
    ensures orderCount == 1 && stock == 9
  {
    var db := new Store(Catalog());
    first := PlaceOne(db, Some("flow-1"), now);
    assert StoredRecord(db.idempotencyKeys, Buyer, Some("flow-1")) == Some(db.idempotencyKeys[0]);
    second := CreateOrderWithIdempotency(db, Buyer, OneWidget(), Some("flow-1"), later);
    orderCount := |db.orders|;
    stock := db.products[0].stockQty;
  }

  /** The same key with a different item list is a conflict and writes
      nothing. */
  method ReuseKeyOtherItems(now: Time, later: Time)
    returns (second: Result<OrderResponse, OrderError>, orderCount: nat)
    ensures second == Failure(IdempotencyConflict)
    ensures orderCount == 1
  {
    var db := new Store(Catalog());
    var first := PlaceOne(db, Some("flow-1"), now);
    assert StoredRecord(db.idempotencyKeys, Buyer, Some("flow-1")) == Some(db.idempotencyKeys[0]);
    var two := [OrderLine(0, 2)];
    assert two != OneWidget();
    RequestHashInjective(two, OneWidget());
    second := CreateOrderWithIdempotency(db, Buyer, two, Some("flow-1"), later);
    orderCount := |db.orders|;
  }

  /** Confirming twice: the second confirmation fails and neither the order
      nor the outbox changes. */
  method ConfirmTwice(t0: Time, t1: Time, t2: Time)
    returns (first: Outcome<PaymentError>, second: Outcome<PaymentError>, status: OrderStatus, events: nat)
    ensures first == Pass && second == Fail(InvalidOrderState)
    ensures status == Paid && events == 1
  {
    var db := new Store(Catalog());
    var placed := PlaceOne(db, None, t0);
    first := ConfirmPayment(db, 0, t1);
    second := ConfirmPayment(db, 0, t2);
    status := db.orders[0].status;
    events := |db.outbox|;
  }
}
