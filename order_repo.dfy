/** Queries and writes on the orders and order_items tables. */
module OrderRepo {
  import opened Wrappers
  import opened Models
  import opened Db

  /** The user's orders. The query has no ORDER BY; the model lists them in
      table order. */
  function ListOrders(orders: seq<Order>, userId: UserId): (r: seq<Order>)
    ensures forall o :: o in r <==> o in orders && o.userId == userId
    ensures |r| <= |orders|
  {
    if orders == [] then []
    else (if orders[0].userId == userId then [orders[0]] else []) + ListOrders(orders[1..], userId)
  }

  /** The model's listing distributes over concatenation, so a newly created
      order shows up at the end of its owner's list and nowhere else. */
  lemma {:induction false} ListOrdersAppend(a: seq<Order>, b: seq<Order>, userId: UserId)
    ensures ListOrders(a + b, userId) == ListOrders(a, userId) + ListOrders(b, userId)
  {
    if a != [] {
      assert (a + b)[1..] == a[1..] + b;
      ListOrdersAppend(a[1..], b, userId);
    } else {
      assert a + b == b;
    }
  }

  /** `select(Order).where(Order.user_id == user_id, Order.id == order_id)`. */
  function GetOrder(orders: seq<Order>, userId: UserId, orderId: OrderId): (r: Option<Order>)
    ensures r.Some? ==> r.value in orders && r.value.id == orderId && r.value.userId == userId
    ensures r.None? ==> forall o :: o in orders ==> !(o.id == orderId && o.userId == userId)
  {
    if orders == [] then None
    else if orders[0].id == orderId && orders[0].userId == userId then Some(orders[0])
    else GetOrder(orders[1..], userId, orderId)
  }

  /** `select(Order).where(Order.id == order_id)`, whoever owns it. */
  function GetOrderById(orders: seq<Order>, orderId: OrderId): (r: Option<Order>)
    ensures r.Some? ==> r.value in orders && r.value.id == orderId
    ensures r.None? ==> forall o :: o in orders ==> o.id != orderId
  {
    if orders == [] then None
    else if orders[0].id == orderId then Some(orders[0])
    else GetOrderById(orders[1..], orderId)
  }

  /** In a well-formed table the lookups find the row at that id; the
      owner-scoped lookup never returns another user's order. */
  lemma GetOrderFindsRow(orders: seq<Order>, userId: UserId, orderId: OrderId)
    requires OrdersWellFormed(orders)
    ensures GetOrderById(orders, orderId) == if orderId < |orders| then Some(orders[orderId]) else None
    ensures GetOrder(orders, userId, orderId) ==
      if orderId < |orders| && orders[orderId].userId == userId then Some(orders[orderId]) else None
  {
    if orderId < |orders| {
      assert orders[orderId] in orders;
    }
  }

  /** The order's items. The query has no ORDER BY; the model lists them in
      table order. */
  function ListOrderItems(items: seq<OrderItem>, orderId: OrderId): (r: seq<OrderItem>)
    ensures forall it :: it in r <==> it in items && it.orderId == orderId
    ensures |r| <= |items|
  {
    if items == [] then []
    else (if items[0].orderId == orderId then [items[0]] else []) + ListOrderItems(items[1..], orderId)
  }

  /** The model's item listing distributes over concatenation. */
  lemma {:induction false} ListOrderItemsAppend(a: seq<OrderItem>, b: seq<OrderItem>, orderId: OrderId)
    ensures ListOrderItems(a + b, orderId) == ListOrderItems(a, orderId) + ListOrderItems(b, orderId)
  {
    if a != [] {
      assert (a + b)[1..] == a[1..] + b;
      ListOrderItemsAppend(a[1..], b, orderId);
    } else {
      assert a + b == b;
    }
  }

  /** Inserts one order; `created_at` and `updated_at` default to `now`. */
  method CreateOrder(db: Store, userId: UserId, status: OrderStatus, totalCents: int, now: Time)
    returns (id: OrderId)
    requires db.Valid()
    modifies db`orders
    ensures db.Valid()
    ensures id == |old(db.orders)|
    ensures db.orders == old(db.orders) + [Order(id, userId, status, totalCents, now, now)]
  {
    id := |db.orders|;
    db.orders := db.orders + [Order(id, userId, status, totalCents, now, now)];
  }

  /** Inserts one item of order `orderId`. */
  method AddOrderItem(db: Store, orderId: OrderId, productId: ProductId, qty: int, unitPriceCents: int)
    returns (id: OrderItemId)
    requires db.Valid()
    modifies db`orderItems
    ensures db.Valid()
    ensures id == |old(db.orderItems)|
    ensures db.orderItems == old(db.orderItems) + [OrderItem(id, orderId, productId, qty, unitPriceCents)]
  {
    id := |db.orderItems|;
    db.orderItems := db.orderItems + [OrderItem(id, orderId, productId, qty, unitPriceCents)];
  }

  /** Overwrites one loaded order's status and refreshes its `updated_at`. */
  method UpdateOrderStatus(db: Store, orderId: OrderId, status: OrderStatus, now: Time)
    requires db.Valid() && orderId < |db.orders|
    modifies db`orders
    ensures db.Valid()
    ensures db.orders == old(db.orders)[orderId := old(db.orders)[orderId].(status := status, updatedAt := now)]
  {
    db.orders := db.orders[orderId := db.orders[orderId].(status := status, updatedAt := now)];
  }
}
