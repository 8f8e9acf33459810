/** The in-memory store standing in for the database session: one field per
    table. Repository and service operations take the store as their first
    argument, as the source's functions take the session. */
module Db {
  import opened Wrappers
  import opened Models

  /** Each product row sits under its own id. */
  ghost predicate ProductsWellFormed(products: map<ProductId, Product>) {
    forall id :: id in products ==> products[id].id == id
  }

  /** Generated ids are the rows' positions, so ids are unique. */
  ghost predicate OrdersWellFormed(orders: seq<Order>) {
    forall i :: 0 <= i < |orders| ==> orders[i].id == i
  }

  ghost predicate OrderItemsWellFormed(items: seq<OrderItem>) {
    forall i :: 0 <= i < |items| ==> items[i].id == i
  }

  /** Ids are positions, and every `last_error` fits its column. */
  ghost predicate OutboxWellFormed(outbox: seq<OutboxEvent>) {
    forall i :: 0 <= i < |outbox| ==>
      && outbox[i].id == i
      && (outbox[i].lastError.Some? ==> |outbox[i].lastError.value| <= LastErrorMaxLength)
  }

  /** The `uq_user_idempotency` constraint and the `key` column width. */
  ghost predicate IdempotencyWellFormed(records: seq<IdempotencyRecord>) {
    && (forall i :: 0 <= i < |records| ==> |records[i].key| <= KeyMaxLength)
    && (forall i, j :: 0 <= i < j < |records| ==>
          records[i].userId != records[j].userId || records[i].key != records[j].key)
  }

  class Store {
    var products: map<ProductId, Product>
    var orders: seq<Order>
    var orderItems: seq<OrderItem>
    var outbox: seq<OutboxEvent>
    var idempotencyKeys: seq<IdempotencyRecord>

    ghost predicate Valid()
      reads this
    {
      && ProductsWellFormed(products)
      && OrdersWellFormed(orders)
      && OrderItemsWellFormed(orderItems)
      && OutboxWellFormed(outbox)
      && IdempotencyWellFormed(idempotencyKeys)
    }

    /** A store whose catalog is `catalog` and whose other tables are empty. */
    constructor (catalog: map<ProductId, Product>)
      requires ProductsWellFormed(catalog)
      ensures Valid()
      ensures products == catalog
      ensures orders == [] && orderItems == [] && outbox == [] && idempotencyKeys == []
    {
      products := catalog;
      orders, orderItems, outbox, idempotencyKeys := [], [], [], [];
    }
  }
}
