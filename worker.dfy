/** One pass of the outbox worker: claim a batch of due events and settle
    each one in the same transaction. */
module Worker {
  import opened Wrappers
  import opened Models
  import opened Seqs
  import opened Db
  import opened OutboxRepo
  import opened OutboxService
  import opened Processor
  import opened OrderRepo
  import opened Settings

  /** `claim_due_events(session, batch_size=10)`. */
  const BatchSize: nat := 10

  /** `str(exc)[:1000]`. */
  const ErrorPrefix: nat := 1000

  /** The orders table after the handlers of `batch` ran in order; a failing
      handler leaves it as it was. */
  function HandleAll(orders: seq<Order>, batch: seq<OutboxEvent>, now: Time): (r: seq<Order>)
    requires OrdersWellFormed(orders)
    ensures |r| == |orders| && OrdersWellFormed(r)
  {
    if batch == [] then orders
    else
      var n := |batch| - 1;
      var before := HandleAll(orders, batch[..n], now);
      var h := Handle(before, batch[n], now);
      if h.Success? then h.value else before
  }

  /** The row an event ends as once its handler ran against `orders`:
      processed on success, otherwise one more failed attempt recording the
      error's first 1000 characters. */
  function Settled(orders: seq<Order>, e: OutboxEvent, now: Time, maxAttempts: nat, draw: nat): (r: OutboxEvent)
    requires OrdersWellFormed(orders) && draw <= DrawScale
    ensures r.id == e.id && r.eventType == e.eventType && r.payload == e.payload
    ensures r.status == Processed <==> Handle(orders, e, now).Success?
  {
    var h := Handle(orders, e, now);
    if h.Success? then ProcessedEvent(e, now)
    else FailedEvent(e, e.attemptCount + 1, Take(h.error, ErrorPrefix), maxAttempts, now, draw)
  }

  ghost predicate DrawsInRange(draws: seq<nat>) {
    forall i :: 0 <= i < |draws| ==> draws[i] <= DrawScale
  }

  ghost predicate RowsOf(outbox: seq<OutboxEvent>, batch: seq<OutboxEvent>) {
    forall k :: 0 <= k < |batch| ==> batch[k].id < |outbox|
  }

  /** The outbox after every event of `batch` has been settled in order. */
  function SettleAll(outbox: seq<OutboxEvent>, orders: seq<Order>, batch: seq<OutboxEvent>, draws: seq<nat>,
                     now: Time, maxAttempts: nat): (r: seq<OutboxEvent>)
    requires OrdersWellFormed(orders) && |batch| <= |draws| && DrawsInRange(draws) && RowsOf(outbox, batch)
    ensures |r| == |outbox|
  {
    if batch == [] then outbox
    else
      var n := |batch| - 1;
      SettleAll(outbox, orders, batch[..n], draws, now, maxAttempts)[batch[n].id := SettledAt(orders, batch, draws, now, maxAttempts, n)]
  }

  /** How batch[k] is settled: after the handlers of the events before it. */
  function SettledAt(orders: seq<Order>, batch: seq<OutboxEvent>, draws: seq<nat>, now: Time, maxAttempts: nat, k: nat)
    : OutboxEvent
    requires OrdersWellFormed(orders) && k < |batch| <= |draws| && DrawsInRange(draws)
  {
    Settled(HandleAll(orders, batch[..k], now), batch[k], now, maxAttempts, draws[k])
  }

  lemma SettledAtPrefix(orders: seq<Order>, batch: seq<OutboxEvent>, draws: seq<nat>, now: Time, maxAttempts: nat,
                        n: nat, k: nat)
    requires OrdersWellFormed(orders) && k < n <= |batch| <= |draws| && DrawsInRange(draws)
    ensures SettledAt(orders, batch[..n], draws, now, maxAttempts, k) == SettledAt(orders, batch, draws, now, maxAttempts, k)
  {
    assert batch[..n][..k] == batch[..k];
  }

  ghost predicate DistinctIds(batch: seq<OutboxEvent>) {
    forall j, k :: 0 <= j < |batch| && 0 <= k < |batch| && j != k ==> batch[j].id != batch[k].id
  }

  /** A claimed batch consists of rows of the table, with distinct ids. */
  lemma ClaimedRows(outbox: seq<OutboxEvent>, now: Time, limit: nat)
    requires OutboxWellFormed(outbox)
    ensures var batch := FetchDueEvents(outbox, now, limit);
      && RowsOf(outbox, batch) && DistinctIds(batch)
      && forall k :: 0 <= k < |batch| ==> outbox[batch[k].id] == batch[k]
  {
    var batch := FetchDueEvents(outbox, now, limit);
    FetchDueEventsDistinct(outbox, now, limit);
    forall k | 0 <= k < |batch| ensures batch[k].id < |outbox| && outbox[batch[k].id] == batch[k] {
      assert batch[k] in batch;
      var i :| 0 <= i < |outbox| && outbox[i] == batch[k];
    }
  }

  /** Settling a batch with distinct ids writes each claimed row once, with
      the outcome of its handler after the earlier ones ran, and leaves every
      other row as it was. */
  lemma SettleAllEffect(outbox: seq<OutboxEvent>, orders: seq<Order>, batch: seq<OutboxEvent>,
                        draws: seq<nat>, now: Time, maxAttempts: nat)
    requires OrdersWellFormed(orders) && |batch| <= |draws| && DrawsInRange(draws) && RowsOf(outbox, batch)
    requires DistinctIds(batch)
    ensures forall k :: 0 <= k < |batch| ==>
      SettleAll(outbox, orders, batch, draws, now, maxAttempts)[batch[k].id]
        == Settled(HandleAll(orders, batch[..k], now), batch[k], now, maxAttempts, draws[k])
    ensures forall i :: 0 <= i < |outbox| && (forall k :: 0 <= k < |batch| ==> batch[k].id != i) ==>
      SettleAll(outbox, orders, batch, draws, now, maxAttempts)[i] == outbox[i]
  {
    SettleAllWritten(outbox, orders, batch, draws, now, maxAttempts);
    SettleAllUntouched(outbox, orders, batch, draws, now, maxAttempts);
  }

  lemma {:induction false} SettleAllWritten(outbox: seq<OutboxEvent>, orders: seq<Order>, batch: seq<OutboxEvent>,
                                            draws: seq<nat>, now: Time, maxAttempts: nat)
    requires OrdersWellFormed(orders) && |batch| <= |draws| && DrawsInRange(draws) && RowsOf(outbox, batch)
    requires DistinctIds(batch)
    ensures forall k :: 0 <= k < |batch| ==>
      SettleAll(outbox, orders, batch, draws, now, maxAttempts)[batch[k].id] == SettledAt(orders, batch, draws, now, maxAttempts, k)
  {
    if batch != [] {
      var n := |batch| - 1;
      var init := batch[..n];
      assert DistinctIds(init) by {
        forall j, k | 0 <= j < n && 0 <= k < n && j != k ensures init[j].id != init[k].id {
          assert init[j] == batch[j] && init[k] == batch[k];
        }
      }
      SettleAllWritten(outbox, orders, init, draws, now, maxAttempts);
      forall k | 0 <= k < n
        ensures SettleAll(outbox, orders, batch, draws, now, maxAttempts)[batch[k].id] == SettledAt(orders, batch, draws, now, maxAttempts, k)
      {
        SettledAtPrefix(orders, batch, draws, now, maxAttempts, n, k);
        assert init[k] == batch[k];
        assert batch[k].id != batch[n].id;
      }
    }
  }

  lemma {:induction false} SettleAllUntouched(outbox: seq<OutboxEvent>, orders: seq<Order>, batch: seq<OutboxEvent>,
                                              draws: seq<nat>, now: Time, maxAttempts: nat)
    requires OrdersWellFormed(orders) && |batch| <= |draws| && DrawsInRange(draws) && RowsOf(outbox, batch)
    ensures forall i :: 0 <= i < |outbox| && (forall k :: 0 <= k < |batch| ==> batch[k].id != i) ==>
      SettleAll(outbox, orders, batch, draws, now, maxAttempts)[i] == outbox[i]
  {
    if batch != [] {
      var n := |batch| - 1;
      var init := batch[..n];
      SettleAllUntouched(outbox, orders, init, draws, now, maxAttempts);
      forall i | 0 <= i < |outbox| && (forall k :: 0 <= k < |batch| ==> batch[k].id != i)
        ensures SettleAll(outbox, orders, batch, draws, now, maxAttempts)[i] == outbox[i]
      {
        assert batch[n].id != i;
        forall k | 0 <= k < n ensures init[k].id != i {
          assert init[k] == batch[k];
        }
      }
    }
  }

  /** An `order.paid` event fulfils the order it names. */
  predicate Fulfils(e: OutboxEvent, orderId: OrderId) {
    e.eventType == "order.paid" && "order_id" in e.payload && e.payload["order_id"] == orderId
  }

  /** After the handlers ran, an order named by some `order.paid` event of
      the batch is FULFILLED, and an order no such event names is as it
      was. */
  lemma {:induction false} HandleAllEffect(orders: seq<Order>, batch: seq<OutboxEvent>, now: Time, j: OrderId)
    requires OrdersWellFormed(orders) && j < |orders|
    ensures (exists k :: 0 <= k < |batch| && Fulfils(batch[k], j)) ==> HandleAll(orders, batch, now)[j].status == Fulfilled
    ensures (forall k :: 0 <= k < |batch| ==> !Fulfils(batch[k], j)) ==> HandleAll(orders, batch, now)[j] == orders[j]
  {
    if batch != [] {
      var n := |batch| - 1;
      var init := batch[..n];
      HandleAllEffect(orders, init, now, j);
      var before := HandleAll(orders, init, now);
      if Fulfils(batch[n], j) {
        GetOrderFindsRow(before, 0, j);
      }
      forall k | 0 <= k < n ensures init[k] == batch[k] {
      }
    }
  }

  /** How a claimed event ends: PROCESSED when its handler succeeds on the
      orders as the pass found them; otherwise its attempt count goes up by
      one, the handler's error is recorded, and it is DEAD exactly when the
      new count reaches `maxAttempts`. */
  lemma SettledOutcome(orders0: seq<Order>, orders: seq<Order>, e: OutboxEvent, now: Time, maxAttempts: nat, draw: nat)
    requires OrdersWellFormed(orders0) && OrdersWellFormed(orders) && |orders0| == |orders| && draw <= DrawScale
    ensures Handle(orders0, e, now).Success? ==> Settled(orders, e, now, maxAttempts, draw) == ProcessedEvent(e, now)
    ensures Handle(orders0, e, now).Failure? ==>
      var r := Settled(orders, e, now, maxAttempts, draw);
      && r.attemptCount == e.attemptCount + 1
      && r.lastError == Some(OrderNotFound)
      && (r.status == Dead <==> e.attemptCount + 1 >= maxAttempts)
      && (r.status == Pending <==> e.attemptCount + 1 < maxAttempts)
  {
    HandleOutcomeStable(orders0, orders, e, now);
  }

  /** The event after one settlement per attempt, each at that attempt's
      clock and draw, while the orders table stays as it is. */
  function SettleRepeatedly(orders: seq<Order>, e: OutboxEvent, attempts: seq<FailedAttempt>, maxAttempts: nat): OutboxEvent
    requires OrdersWellFormed(orders)
    requires forall i :: 0 <= i < |attempts| ==> attempts[i].draw <= DrawScale
    decreases attempts
  {
    if attempts == [] then e
    else SettleRepeatedly(orders, Settled(orders, e, attempts[0].at, maxAttempts, attempts[0].draw), attempts[1..], maxAttempts)
  }

  /** An `order.paid` event whose order does not exist fails on every pass
      that claims it: its settlements are the repeated failures of the
      outbox service, so it turns DEAD exactly when its count reaches
      `maxAttempts`. */
  lemma {:induction false} FailingEventFailsRepeatedly(orders: seq<Order>, e: OutboxEvent, attempts: seq<FailedAttempt>, maxAttempts: nat)
    requires OrdersWellFormed(orders)
    requires forall i :: 0 <= i < |attempts| ==> attempts[i].draw <= DrawScale
    requires e.eventType == "order.paid" && PaidOrder(orders, e).None?
    ensures SettleRepeatedly(orders, e, attempts, maxAttempts) == FailRepeatedly(e, attempts, OrderNotFound, maxAttempts)
    ensures |attempts| >= 1 ==>
      (SettleRepeatedly(orders, e, attempts, maxAttempts).status == Dead <==> e.attemptCount + |attempts| >= maxAttempts)
    decreases attempts
  {
    if attempts != [] {
      var a := attempts[0];
      var e1 := Settled(orders, e, a.at, maxAttempts, a.draw);
      assert Take(OrderNotFound, ErrorPrefix) == OrderNotFound;
      assert e1 == FailedEvent(e, e.attemptCount + 1, OrderNotFound, maxAttempts, a.at, a.draw);
      assert PaidOrder(orders, e1) == PaidOrder(orders, e);
      FailingEventFailsRepeatedly(orders, e1, attempts[1..], maxAttempts);
      RepeatedFailures(e, attempts, OrderNotFound, maxAttempts);
    }
  }

  /** Extending the settled prefix by one event. */
  lemma PassStep(outbox: seq<OutboxEvent>, orders: seq<Order>, batch: seq<OutboxEvent>, draws: seq<nat>,
                 now: Time, maxAttempts: nat, i: nat)
    requires OrdersWellFormed(orders) && i < |batch| <= |draws| && DrawsInRange(draws) && RowsOf(outbox, batch)
    ensures RowsOf(outbox, batch[..i]) && RowsOf(outbox, batch[..i + 1])
    ensures HandleAll(orders, batch[..i + 1], now) ==
      var h := Handle(HandleAll(orders, batch[..i], now), batch[i], now);
      if h.Success? then h.value else HandleAll(orders, batch[..i], now)
    ensures SettleAll(outbox, orders, batch[..i + 1], draws, now, maxAttempts) ==
      SettleAll(outbox, orders, batch[..i], draws, now, maxAttempts)
        [batch[i].id := Settled(HandleAll(orders, batch[..i], now), batch[i], now, maxAttempts, draws[i])]
  {
    assert batch[..i + 1][..i] == batch[..i];
  }

  /** The body of the loop over the claimed events, for one event that is
      still as claimed. */
  method SettleEvent(db: Store, event: OutboxEvent, now: Time, maxAttempts: nat, draw: nat)
    requires db.Valid() && event.id < |db.outbox| && db.outbox[event.id] == event && draw <= DrawScale
    modifies db`orders, db`outbox
    ensures db.Valid()
    ensures db.orders == if Handle(old(db.orders), event, now).Success? then Handle(old(db.orders), event, now).value
                         else old(db.orders)
    ensures db.outbox == old(db.outbox)[event.id := Settled(old(db.orders), event, now, maxAttempts, draw)]
  {
    var outcome := HandleOutboxEvent(db, event, now);
    if outcome.Pass? {
      MarkProcessed(db, event.id, now);
    } else {
      var _ := MarkFailed(db, event.id, event.attemptCount + 1, Take(outcome.error, ErrorPrefix), maxAttempts, now, draw);
    }
  }

  /** Writing the row of batch[i] keeps the rows of the later, distinct
      events as claimed. */
  lemma LaterRowsStay(outbox: seq<OutboxEvent>, batch: seq<OutboxEvent>, i: nat, row: OutboxEvent)
    requires i < |batch| && RowsOf(outbox, batch) && DistinctIds(batch)
    requires forall k :: i <= k < |batch| ==> outbox[batch[k].id] == batch[k]
    ensures forall k :: i + 1 <= k < |batch| ==> outbox[batch[i].id := row][batch[k].id] == batch[k]
  {
    forall k | i + 1 <= k < |batch| ensures outbox[batch[i].id := row][batch[k].id] == batch[k] {
      assert batch[k].id != batch[i].id;
    }
  }

  /** Settles batch[i], the next event of the pass, once the ones before it
      are settled. */
  method SettleNext(db: Store, ghost outbox0: seq<OutboxEvent>, ghost orders0: seq<Order>, batch: seq<OutboxEvent>,
                    draws: seq<nat>, now: Time, maxAttempts: nat, i: nat)
    requires db.Valid() && OrdersWellFormed(orders0)
    requires i < |batch| <= |draws| && DrawsInRange(draws) && RowsOf(outbox0, batch) && DistinctIds(batch)
    requires |db.outbox| == |outbox0|
    requires db.orders == HandleAll(orders0, batch[..i], now)
    requires db.outbox == SettleAll(outbox0, orders0, batch[..i], draws, now, maxAttempts)
    requires forall k :: i <= k < |batch| ==> db.outbox[batch[k].id] == batch[k]
    modifies db`orders, db`outbox
    ensures db.Valid() && |db.outbox| == |outbox0|
    ensures db.orders == HandleAll(orders0, batch[..i + 1], now)
    ensures db.outbox == SettleAll(outbox0, orders0, batch[..i + 1], draws, now, maxAttempts)
    ensures forall k :: i + 1 <= k < |batch| ==> db.outbox[batch[k].id] == batch[k]
  {
    PassStep(outbox0, orders0, batch, draws, now, maxAttempts, i);
    LaterRowsStay(db.outbox, batch, i, Settled(db.orders, batch[i], now, maxAttempts, draws[i]));
    SettleEvent(db, batch[i], now, maxAttempts, draws[i]);
  }

  /** One pass of `worker_loop`: claim up to ten due events and, in order,
      run each one's handler and mark it processed, or record the failure. */
  method WorkerPass(db: Store, now: Time, maxAttempts: nat, draws: seq<nat>) returns (batch: seq<OutboxEvent>)
    requires db.Valid() && |draws| == BatchSize && DrawsInRange(draws)
    modifies db`orders, db`outbox
    ensures db.Valid()
    ensures batch == FetchDueEvents(old(db.outbox), now, BatchSize)
    ensures RowsOf(old(db.outbox), batch) && DistinctIds(batch)
    ensures db.orders == HandleAll(old(db.orders), batch, now)
    ensures db.outbox == SettleAll(old(db.outbox), old(db.orders), batch, draws, now, maxAttempts)
  {
    batch := ClaimDueEvents(db, now, BatchSize);
    ClaimedRows(db.outbox, now, BatchSize);
    ghost var orders0, outbox0 := db.orders, db.outbox;
    var i := 0;
    while i < |batch|
      invariant 0 <= i <= |batch|
      invariant db.Valid()
      invariant |db.outbox| == |outbox0|
      invariant db.orders == HandleAll(orders0, batch[..i], now)
      invariant db.outbox == SettleAll(outbox0, orders0, batch[..i], draws, now, maxAttempts)
      invariant forall k :: i <= k < |batch| ==> db.outbox[batch[k].id] == batch[k]
    {
      SettleNext(db, outbox0, orders0, batch, draws, now, maxAttempts, i);
      i := i + 1;
    }
    assert batch[..|batch|] == batch;
  }

  /** How long the loop sleeps after a pass: the poll interval when the pass
      claimed nothing, otherwise no time at all. */
  function IdleDelay(batch: seq<OutboxEvent>): (d: nat)
    ensures d == 0 <==> batch != []
    ensures d <= PollIntervalMicros
  {
    if batch == [] then PollIntervalMicros else 0
  }

  /** The loop sleeps the poll interval exactly when no event is due. */
  lemma IdleExactlyWhenNothingDue(outbox: seq<OutboxEvent>, now: Time)
    ensures IdleDelay(FetchDueEvents(outbox, now, BatchSize)) == PollIntervalMicros <==>
      forall e :: e in outbox ==> !IsDue(e, now)
  {
    var batch := FetchDueEvents(outbox, now, BatchSize);
    FetchDueEventsComplete(outbox, now, BatchSize);
    if batch != [] {
      assert batch[0] in outbox && IsDue(batch[0], now);
    }
  }
}
