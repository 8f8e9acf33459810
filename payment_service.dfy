/** Payment confirmation: the PENDING_PAYMENT -> PAID transition and the
    `order.paid` event written in the same transaction. */
module PaymentService {
  import opened Wrappers
  import opened Models
  import opened Db
  import opened OrderRepo
  import opened OutboxRepo

  datatype PaymentError = InvalidOrderState   // 400 "Invalid order state"

  /** `{"order_id": ..., "user_id": ...}`. */
  function PaidPayload(order: Order): (p: Payload)
    ensures p.Keys == {"order_id", "user_id"}
    ensures p["order_id"] == order.id && p["user_id"] == order.userId
  {
    map["order_id" := order.id, "user_id" := order.userId]
  }

  /** The outbox row a confirmation appends: an `order.paid` event for the
      order, carrying its payload, pending and due at once. */
  function PaidEvent(id: EventId, order: Order, now: Time): (r: OutboxEvent)
    ensures r.id == id && r.eventType == "order.paid" && r.payload == PaidPayload(order)
    ensures r.aggregateType == "order" && r.aggregateId == order.id
    ensures r.status == Pending && r.attemptCount == 0 && IsDue(r, now)
  {
    NewOutboxEvent(id, "order", order.id, "order.paid", PaidPayload(order), now)
  }

  /** The event a confirmation writes is due at once, and names its order. */
  lemma PaidEventDue(id: EventId, order: Order, now: Time)
    ensures IsDue(PaidEvent(id, order, now), now)
    ensures PaidEvent(id, order, now).eventType == "order.paid"
    ensures PaidEvent(id, order, now).payload["order_id"] == order.id
    ensures PaidEvent(id, order, now).aggregateType == "order" && PaidEvent(id, order, now).aggregateId == order.id
  {
  }

  /** `confirm_payment` on a loaded order. */
  method ConfirmPayment(db: Store, orderId: OrderId, now: Time) returns (r: Outcome<PaymentError>)
    requires db.Valid() && orderId < |db.orders|
    modifies db`orders, db`outbox
    ensures db.Valid()
    ensures r.Pass? <==> old(db.orders[orderId].status) == PendingPayment
    ensures r.Fail? ==> r.error == InvalidOrderState && db.orders == old(db.orders) && db.outbox == old(db.outbox)
    ensures r.Pass? ==>
      && db.orders == old(db.orders)[orderId := old(db.orders[orderId]).(status := Paid, updatedAt := now)]
      && db.outbox == old(db.outbox) + [PaidEvent(|old(db.outbox)|, old(db.orders[orderId]), now)]
  {
    var order := db.orders[orderId];
    if order.status != PendingPayment {
      return Fail(InvalidOrderState);
    }
    UpdateOrderStatus(db, orderId, Paid, now);
    var _ := CreateOutboxEvent(db, "order", order.id, "order.paid", PaidPayload(order), now);
    r := Pass;
  }
}
