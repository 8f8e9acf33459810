/** Inserts, updates and the due-event query on the outbox_events table. */
module OutboxRepo {
  import opened Wrappers
  import opened Models
  import opened Seqs
  import opened Db

  /** `status == "PENDING" and next_attempt_at <= now`. */
  predicate IsDue(e: OutboxEvent, now: Time) {
    e.status == Pending && e.nextAttemptAt <= now
  }

  /** The due events, in table order. */
  function DueEvents(outbox: seq<OutboxEvent>, now: Time): (r: seq<OutboxEvent>)
    ensures forall e :: e in r <==> e in outbox && IsDue(e, now)
  {
    if outbox == [] then []
    else (if IsDue(outbox[0], now) then [outbox[0]] else []) + DueEvents(outbox[1..], now)
  }

  lemma {:induction false} DueEventsDistinct(outbox: seq<OutboxEvent>, now: Time)
    requires Distinct(outbox)
    ensures Distinct(DueEvents(outbox, now))
  {
    if outbox != [] {
      var rest := outbox[1..];
      assert Distinct(rest) by {
        forall i, j | 0 <= i < |rest| && 0 <= j < |rest| && i != j ensures rest[i] != rest[j] {
          assert rest[i] == outbox[i + 1] && rest[j] == outbox[j + 1];
        }
      }
      DueEventsDistinct(rest, now);
      forall j | 0 <= j < |rest| ensures rest[j] != outbox[0] {
        assert rest[j] == outbox[j + 1];
      }
    }
  }

  /** ORDER BY created_at. */
  predicate CreatedLeq(a: OutboxEvent, b: OutboxEvent) {
    a.createdAt <= b.createdAt
  }

  /** All due events, oldest first (ties in table order). */
  function DueOldestFirst(outbox: seq<OutboxEvent>, now: Time): (r: seq<OutboxEvent>)
    ensures forall e :: e in r <==> e in outbox && IsDue(e, now)
    ensures SortedBy(r, CreatedLeq)
  {
    var due := DueEvents(outbox, now);
    assert TotalPreorder(CreatedLeq);
    InsertionSortSorted(due, CreatedLeq);
    InsertionSortMembers(due, CreatedLeq);
    InsertionSort(due, CreatedLeq)
  }

  /** `fetch_due_events`: at most `limit` pending events whose retry time has
      come, oldest first. */
  function FetchDueEvents(outbox: seq<OutboxEvent>, now: Time, limit: nat): (r: seq<OutboxEvent>)
    ensures forall e :: e in r ==> e in outbox && IsDue(e, now)
    ensures SortedBy(r, CreatedLeq)
    ensures |r| <= limit
  {
    Take(DueOldestFirst(outbox, now), limit)
  }

  /** The result is the oldest-first prefix of all due events: when it is
      shorter than `limit` every due event is in it, and no due event left
      out is older than one returned. */
  lemma FetchDueEventsComplete(outbox: seq<OutboxEvent>, now: Time, limit: nat)
    ensures |FetchDueEvents(outbox, now, limit)| < limit ==>
      forall e :: e in outbox && IsDue(e, now) ==> e in FetchDueEvents(outbox, now, limit)
    ensures forall e, x ::
      e in outbox && IsDue(e, now) && e !in FetchDueEvents(outbox, now, limit) && x in FetchDueEvents(outbox, now, limit)
      ==> x.createdAt <= e.createdAt
  {
    var all := DueOldestFirst(outbox, now);
    var r := FetchDueEvents(outbox, now, limit);
    forall e, x | e in outbox && IsDue(e, now) && e !in r && x in r
      ensures x.createdAt <= e.createdAt
    {
      assert e in all;
      var j :| 0 <= j < |all| && all[j] == e;
      var i :| 0 <= i < |r| && r[i] == x;
      assert r == all[..limit];
      assert forall k :: 0 <= k < limit ==> r[k] == all[k];
      assert all[i] == x && i < j;
    }
  }

  /** Distinct rows in, distinct rows out: a batch never holds an event twice. */
  lemma FetchDueEventsDistinct(outbox: seq<OutboxEvent>, now: Time, limit: nat)
    requires OutboxWellFormed(outbox)
    ensures Distinct(FetchDueEvents(outbox, now, limit))
  {
    assert Distinct(outbox) by {
      forall i, j | 0 <= i < |outbox| && 0 <= j < |outbox| && i != j ensures outbox[i] != outbox[j] {
        assert outbox[i].id == i && outbox[j].id == j;
      }
    }
    var due := DueEvents(outbox, now);
    DueEventsDistinct(outbox, now);
    InsertionSortDistinct(due, CreatedLeq);
    var all := DueOldestFirst(outbox, now);
    var r := FetchDueEvents(outbox, now, limit);
    if limit < |all| {
      assert r == all[..limit];
      forall i, j | 0 <= i < |r| && 0 <= j < |r| && i != j ensures r[i] != r[j] {
        assert r[i] == all[i] && r[j] == all[j];
      }
    }
  }

  /** A dead event is never fetched again, whatever the clock says. */
  lemma DeadNeverFetched(outbox: seq<OutboxEvent>, e: OutboxEvent, now: Time, limit: nat)
    requires e.status == Dead
    ensures e !in FetchDueEvents(outbox, now, limit)
  {
  }

  /** Appends one event with the column defaults; it is due from `now` on. */
  method CreateOutboxEvent(db: Store, aggregateType: string, aggregateId: nat, eventType: string, payload: Payload, now: Time)
    returns (id: EventId)
    requires db.Valid()
    modifies db`outbox
    ensures db.Valid()
    ensures id == |old(db.outbox)|
    ensures db.outbox == old(db.outbox) + [NewOutboxEvent(id, aggregateType, aggregateId, eventType, payload, now)]
    ensures IsDue(db.outbox[id], now)
  {
    id := |db.outbox|;
    db.outbox := db.outbox + [NewOutboxEvent(id, aggregateType, aggregateId, eventType, payload, now)];
  }

  /** Marks one event PROCESSED at `processedAt`; its other fields stay. */
  method MarkOutboxProcessed(db: Store, id: EventId, processedAt: Time)
    requires db.Valid() && id < |db.outbox|
    modifies db`outbox
    ensures db.Valid()
    ensures db.outbox == old(db.outbox)[id := old(db.outbox)[id].(status := Processed, processedAt := Some(processedAt))]
  {
    db.outbox := db.outbox[id := db.outbox[id].(status := Processed, processedAt := Some(processedAt))];
  }

  /** Overwrites exactly the attempt count, retry time, last error and status
      of one event. An error longer than the VARCHAR(1024) column makes the
      write fail and leaves the table as it was. */
  method MarkOutboxFailed(db: Store, id: EventId, attemptCount: nat, nextAttemptAt: Time, lastError: string, status: EventStatus)
    returns (ok: bool)
    requires db.Valid() && id < |db.outbox|
    modifies db`outbox
    ensures db.Valid()
    ensures ok <==> |lastError| <= LastErrorMaxLength
    ensures db.outbox == if ok then old(db.outbox)[id := old(db.outbox)[id].(
                                     attemptCount := attemptCount, nextAttemptAt := nextAttemptAt,
                                     lastError := Some(lastError), status := status)]
                         else old(db.outbox)
  {
    ok := |lastError| <= LastErrorMaxLength;
    if ok {
      db.outbox := db.outbox[id := db.outbox[id].(
        attemptCount := attemptCount, nextAttemptAt := nextAttemptAt,
        lastError := Some(lastError), status := status)];
    }
  }
}
