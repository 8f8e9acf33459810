/** The outbox event handler: `order.paid` fulfils its order, every other
    event type is ignored. */
module Processor {
  import opened Wrappers
  import opened Models
  import opened Db
  import opened OrderRepo

  const OrderNotFound: string := "Order not found for outbox event"

  /** `event.payload.get("order_id")`, then `get_order_by_id`: a missing
      key finds no order. */
  function PaidOrder(orders: seq<Order>, e: OutboxEvent): (r: Option<Order>)
    ensures r.Some? ==> "order_id" in e.payload && r.value in orders && r.value.id == e.payload["order_id"]
    ensures r.None? <==> "order_id" !in e.payload || forall o :: o in orders ==> o.id != e.payload["order_id"]
  {
    if "order_id" in e.payload then GetOrderById(orders, e.payload["order_id"]) else None
  }

  /** The orders table after handling `e`, or the handler's error. */
  function Handle(orders: seq<Order>, e: OutboxEvent, now: Time): (r: Result<seq<Order>, string>)
    requires OrdersWellFormed(orders)
    ensures r.Failure? <==> e.eventType == "order.paid" && PaidOrder(orders, e).None?
    ensures r.Failure? ==> r.error == OrderNotFound
    ensures e.eventType != "order.paid" ==> r == Success(orders)
    ensures r.Success? && e.eventType == "order.paid" ==>
      var id := e.payload["order_id"];
      && "order_id" in e.payload && id < |orders|
      && r.value == orders[id := orders[id].(status := Fulfilled, updatedAt := now)]
  {
    if e.eventType == "order.paid" then
      match PaidOrder(orders, e)
      case None => Failure(OrderNotFound)
      case Some(order) =>
        GetOrderFindsRow(orders, 0, order.id);
        Success(orders[order.id := order.(status := Fulfilled, updatedAt := now)])
    else Success(orders)
  }

  /** Whether the handler succeeds depends only on which order ids exist,
      so status updates made earlier in a pass do not change it. */
  lemma HandleOutcomeStable(a: seq<Order>, b: seq<Order>, e: OutboxEvent, now: Time)
    requires OrdersWellFormed(a) && OrdersWellFormed(b) && |a| == |b|
    ensures Handle(a, e, now).Success? == Handle(b, e, now).Success?
  {
    if "order_id" in e.payload {
      GetOrderFindsRow(a, 0, e.payload["order_id"]);
      GetOrderFindsRow(b, 0, e.payload["order_id"]);
    }
  }

  /** `handle_outbox_event`. */
  method HandleOutboxEvent(db: Store, e: OutboxEvent, now: Time) returns (r: Outcome<string>)
    requires db.Valid()
    modifies db`orders
    ensures db.Valid()
    ensures r.Pass? <==> Handle(old(db.orders), e, now).Success?
    ensures r.Pass? ==> db.orders == Handle(old(db.orders), e, now).value
    ensures r.Fail? ==> r.error == Handle(old(db.orders), e, now).error && db.orders == old(db.orders)
  {
    if e.eventType == "order.paid" {
      var orderId := if "order_id" in e.payload then Some(e.payload["order_id"]) else None;
      var order := if orderId.Some? then GetOrderById(db.orders, orderId.value) else None;
      if order.None? {
        return Fail(OrderNotFound);
      }
      GetOrderFindsRow(db.orders, 0, order.value.id);
      UpdateOrderStatus(db, order.value.id, Fulfilled, now);
      return Pass;
    }
    r := Pass;
  }
}
