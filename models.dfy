/** The persisted entities (the ORM models of the orders, order_items,
    products, outbox_events and idempotency_keys tables) and the request and
    response shapes the order service exchanges with its callers. */
module Models {
  import opened Wrappers

  /** UUID primary keys are modelled as naturals. */
  type UserId = nat
  type ProductId = nat
  type OrderId = nat
  type OrderItemId = nat
  type EventId = nat

  /** A timezone-aware instant, in microseconds (the resolution of Python's
      datetime). */
  type Time = int

  const MicrosPerSecond: nat := 1_000_000

  /** A catalog row; `stockQty` is the stock ledger. */
  datatype Product = Product(id: ProductId, name: string, priceCents: int, stockQty: int)

  datatype OrderStatus = PendingPayment | Paid | Fulfilled

  datatype Order = Order(
    id: OrderId, userId: UserId, status: OrderStatus, totalCents: int,
    createdAt: Time, updatedAt: Time)

  /** `unitPriceCents` is the product's price snapshotted at purchase time. */
  datatype OrderItem = OrderItem(
    id: OrderItemId, orderId: OrderId, productId: ProductId, qty: int, unitPriceCents: int)

  /** One line of an order request (`OrderItemCreate`). */
  datatype OrderLine = OrderLine(productId: ProductId, qty: int)

  /** `qty: int = Field(gt=0)`: the request schema admits only positive quantities. */
  predicate PositiveQuantities(lines: seq<OrderLine>) {
    forall i :: 0 <= i < |lines| ==> lines[i].qty > 0
  }

  /** The serialised order returned to the client and stored for replay. */
  datatype ItemView = ItemView(id: OrderItemId, productId: ProductId, qty: int, unitPriceCents: int)
  datatype OrderResponse = OrderResponse(
    id: OrderId, status: OrderStatus, totalCents: int,
    createdAt: Time, updatedAt: Time, items: seq<ItemView>)

  /** The request fingerprint: the SHA-256 hex digest of the key-sorted JSON
      encoding of `{"items": ...}`, kept symbolic. Two fingerprints are equal
      exactly when the item lists are (hash collisions are not modelled). */
  datatype Fingerprint = Sha256OfItems(items: seq<OrderLine>)

  /** A stored response for one (user, client key) pair. */
  datatype IdempotencyRecord = IdempotencyRecord(
    userId: UserId, key: string, requestHash: Fingerprint, response: OrderResponse)

  /** `key` is a VARCHAR(128) column. */
  const KeyMaxLength: nat := 128

  datatype EventStatus = Pending | Processed | Dead

  /** JSON payloads of the events this core writes: string keys, id values. */
  type Payload = map<string, nat>

  datatype OutboxEvent = OutboxEvent(
    id: EventId, aggregateType: string, aggregateId: nat, eventType: string,
    payload: Payload, status: EventStatus, attemptCount: nat, nextAttemptAt: Time,
    processedAt: Option<Time>, lastError: Option<string>, createdAt: Time)

  /** `last_error` is a VARCHAR(1024) column. */
  const LastErrorMaxLength: nat := 1024

  /** A new event row with the column defaults filled in at insertion time `now`. */
  function NewOutboxEvent(
    id: EventId, aggregateType: string, aggregateId: nat, eventType: string,
    payload: Payload, now: Time): (e: OutboxEvent)
    ensures e.id == id && e.aggregateType == aggregateType && e.aggregateId == aggregateId
    ensures e.eventType == eventType && e.payload == payload
    ensures e.status == Pending && e.attemptCount == 0
    ensures e.nextAttemptAt == now && e.createdAt == now
    ensures e.processedAt == None && e.lastError == None
  {
    OutboxEvent(id, aggregateType, aggregateId, eventType, payload, Pending, 0, now, None, None, now)
  }
}
