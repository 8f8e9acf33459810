/** The retry policy over the outbox: claiming due events, recording success,
    and recording failure with capped exponential backoff or dead-lettering. */
module OutboxService {
  import opened Wrappers
  import opened Models
  import opened Db
  import opened OutboxRepo

  /** `base_seconds = 2.0` and `max_seconds = 60.0`, in microseconds. */
  const BaseDelay: nat := 2 * MicrosPerSecond
  const MaxDelay: nat := 60 * MicrosPerSecond

  /** `timedelta(days=365)`: how far a dead event's next attempt is pushed. */
  const DeadDelay: nat := 365 * 24 * 60 * 60 * MicrosPerSecond

  /** `random.uniform` is replaced by a draw in [0, DrawScale] supplied by the
      caller; DrawScale stands for 1.0. */
  const DrawScale: nat := 1_000_000

  function Pow2(n: nat): (r: nat)
    ensures r >= 1
  {
    if n == 0 then 1 else 2 * Pow2(n - 1)
  }

  lemma {:induction false} Pow2Monotone(a: nat, b: nat)
    requires a <= b
    ensures Pow2(a) <= Pow2(b)
  {
    if a < b {
      Pow2Monotone(a, b - 1);
    }
  }

  /** `min(max_seconds, base_seconds * 2 ** attempt)`. */
  function CappedDelay(attempt: nat, base: nat, cap: nat): (exp: nat)
    ensures exp <= cap && exp <= base * Pow2(attempt)
    ensures exp == cap || exp == base * Pow2(attempt)
  {
    var raw := base * Pow2(attempt);
    if raw <= cap then raw else cap
  }

  /** The capped term never decreases as the attempt number grows. */
  lemma CappedDelayMonotone(a: nat, b: nat, base: nat, cap: nat)
    requires a <= b
    ensures CappedDelay(a, base, cap) <= CappedDelay(b, base, cap)
  {
    Pow2Monotone(a, b);
    assert base * Pow2(a) <= base * Pow2(b) by {
      MulMonotone(base, Pow2(a), Pow2(b));
    }
  }

  lemma MulMonotone(k: nat, x: nat, y: nat)
    requires x <= y
    ensures k * x <= k * y
  {
  }

  /** With the default policy the delay doubles from 2 s and is capped at
      60 s from the fifth attempt on (2 * 2^5 = 64 > 60). */
  lemma DefaultCappedDelay(attempt: nat)
    ensures attempt < 5 ==> CappedDelay(attempt, BaseDelay, MaxDelay) == BaseDelay * Pow2(attempt)
    ensures attempt >= 5 ==> CappedDelay(attempt, BaseDelay, MaxDelay) == MaxDelay
  {
    assert Pow2(4) == 16 && Pow2(5) == 32;
    if attempt < 5 {
      Pow2Monotone(attempt, 4);
      MulMonotone(BaseDelay, Pow2(attempt), 16);
    } else {
      Pow2Monotone(5, attempt);
      MulMonotone(BaseDelay, 32, Pow2(attempt));
    }
  }

  /** `uniform(0.0, 0.5 * exp)`, scaled: a draw of 0 gives no jitter and a
      draw of DrawScale gives half the capped term. */
  function Jitter(exp: nat, draw: nat): (j: nat)
    requires draw <= DrawScale
    ensures 2 * j <= exp
    ensures draw == 0 ==> j == 0
    ensures draw == DrawScale ==> j == exp / 2
  {
    var j := exp * draw / (2 * DrawScale);
    MulMonotone(exp, draw, DrawScale);
    assert j * (2 * DrawScale) <= exp * draw;
    assert (2 * j) * DrawScale <= exp * DrawScale;
    DivideOutPositive(2 * j, exp, DrawScale);
    assert draw == DrawScale ==> exp * draw / (2 * DrawScale) == exp / 2 by {
      if draw == DrawScale {
        CancelScale(exp, DrawScale);
      }
    }
    j
  }

  lemma DivideOutPositive(a: nat, b: nat, k: nat)
    requires k > 0 && a * k <= b * k
    ensures a <= b
  {
    var d: int := b - a;
    assert d * k == b * k - a * k;
  }

  lemma CancelScale(x: nat, k: nat)
    requires k > 0
    ensures x * k / (2 * k) == x / 2
  {
    var q, r := x / 2, x % 2;
    assert x == 2 * q + r;
    assert r == 0 || r == 1;
    var rk := if r == 0 then 0 else k;
    assert x * k == (2 * q + r) * k;
    assert (2 * q + r) * k == (2 * k) * q + rk;
    DivUnique(x * k, 2 * k, q, rk);
  }

  lemma DivUnique(n: int, d: int, q: int, r: int)
    requires d > 0 && n == d * q + r && 0 <= r < d
    ensures n / d == q
  {
    var q0, r0 := n / d, n % d;
    assert n == d * q0 + r0 && 0 <= r0 < d;
    assert d * (q - q0) == r0 - r;
    MulSign(d, q - q0);
  }

  lemma MulSign(d: int, m: int)
    requires d > 0
    ensures m >= 1 ==> d * m >= d
    ensures m <= -1 ==> d * m <= -d
  {
    if m >= 1 {
      assert d * m == d + d * (m - 1);
      NonNegativeProduct(d, m - 1);
    } else if m <= -1 {
      assert d * m == -d - d * (-m - 1);
      NonNegativeProduct(d, -m - 1);
    }
  }

  lemma NonNegativeProduct(a: int, b: int)
    requires a >= 0 && b >= 0
    ensures a * b >= 0
  {
  }

  /** `compute_backoff`: the capped term plus a jitter of at most half of it. */
  function ComputeBackoff(attempt: nat, draw: nat, base: nat, cap: nat): (delay: nat)
    requires draw <= DrawScale
    ensures CappedDelay(attempt, base, cap) <= delay
    ensures 2 * delay <= 3 * CappedDelay(attempt, base, cap)
    ensures 2 * delay <= 3 * cap
  {
    var exp := CappedDelay(attempt, base, cap);
    exp + Jitter(exp, draw)
  }

  /** What `mark_processed` writes into an event. */
  function ProcessedEvent(e: OutboxEvent, now: Time): (r: OutboxEvent)
    ensures r.status == Processed && r.processedAt == Some(now)
    ensures r == e.(status := r.status, processedAt := r.processedAt)
  {
    e.(status := Processed, processedAt := Some(now))
  }

  /** What `mark_failed` writes into an event: the attempt number and error
      always; then DEAD a year out once `attempt` reaches `maxAttempts`, and
      otherwise PENDING after the backoff. Nothing else changes. */
  function FailedEvent(e: OutboxEvent, attempt: nat, error: string, maxAttempts: nat, now: Time, draw: nat): (r: OutboxEvent)
    requires draw <= DrawScale
    ensures r.attemptCount == attempt && r.lastError == Some(error)
    ensures r == e.(attemptCount := r.attemptCount, nextAttemptAt := r.nextAttemptAt,
                    lastError := r.lastError, status := r.status)
    ensures attempt >= maxAttempts ==> r.status == Dead && r.nextAttemptAt == now + DeadDelay
    ensures attempt < maxAttempts ==>
      r.status == Pending && r.nextAttemptAt == now + ComputeBackoff(attempt, draw, BaseDelay, MaxDelay)
  {
    if attempt >= maxAttempts then
      e.(attemptCount := attempt, nextAttemptAt := now + DeadDelay, lastError := Some(error), status := Dead)
    else
      e.(attemptCount := attempt, nextAttemptAt := now + ComputeBackoff(attempt, draw, BaseDelay, MaxDelay),
         lastError := Some(error), status := Pending)
  }

  /** A retried event is not due again before the capped backoff has passed,
      and is due once the full delay has passed. */
  lemma RetryWaitsForBackoff(e: OutboxEvent, attempt: nat, error: string, maxAttempts: nat, now: Time, draw: nat, t: Time)
    requires draw <= DrawScale && attempt < maxAttempts
    ensures t < now + CappedDelay(attempt, BaseDelay, MaxDelay) ==> !IsDue(FailedEvent(e, attempt, error, maxAttempts, now, draw), t)
    ensures t >= now + 3 * MaxDelay / 2 ==> IsDue(FailedEvent(e, attempt, error, maxAttempts, now, draw), t)
  {
  }

  /** One failure of a handler, as the worker records it. */
  datatype FailedAttempt = FailedAttempt(at: Time, draw: nat)

  /** The event after the worker has failed to handle it once per entry of
      `attempts`, each time recording `attemptCount + 1`. */
  function FailRepeatedly(e: OutboxEvent, attempts: seq<FailedAttempt>, error: string, maxAttempts: nat): OutboxEvent
    requires forall i :: 0 <= i < |attempts| ==> attempts[i].draw <= DrawScale
    decreases attempts
  {
    if attempts == [] then e
    else FailRepeatedly(FailedEvent(e, e.attemptCount + 1, error, maxAttempts, attempts[0].at, attempts[0].draw),
                        attempts[1..], error, maxAttempts)
  }

  /** After n failures the count has grown by n, and the event is dead exactly
      when the count has reached `maxAttempts`. */
  lemma {:induction false} RepeatedFailures(e: OutboxEvent, attempts: seq<FailedAttempt>, error: string, maxAttempts: nat)
    requires |attempts| >= 1
    requires forall i :: 0 <= i < |attempts| ==> attempts[i].draw <= DrawScale
    ensures FailRepeatedly(e, attempts, error, maxAttempts).attemptCount == e.attemptCount + |attempts|
    ensures FailRepeatedly(e, attempts, error, maxAttempts).status == Dead <==> e.attemptCount + |attempts| >= maxAttempts
    ensures FailRepeatedly(e, attempts, error, maxAttempts).status != Processed
    ensures FailRepeatedly(e, attempts, error, maxAttempts).lastError == Some(error)
    decreases attempts
  {
    var e1 := FailedEvent(e, e.attemptCount + 1, error, maxAttempts, attempts[0].at, attempts[0].draw);
    if |attempts| > 1 {
      RepeatedFailures(e1, attempts[1..], error, maxAttempts);
    }
  }

  /** `claim_due_events`: the due events at the caller's clock, at most
      `batchSize` of them, oldest first. */
  method ClaimDueEvents(db: Store, now: Time, batchSize: nat) returns (events: seq<OutboxEvent>)
    ensures events == FetchDueEvents(db.outbox, now, batchSize)
  {
    events := FetchDueEvents(db.outbox, now, batchSize);
  }

  method MarkProcessed(db: Store, id: EventId, now: Time)
    requires db.Valid() && id < |db.outbox|
    modifies db`outbox
    ensures db.Valid()
    ensures db.outbox == old(db.outbox)[id := ProcessedEvent(old(db.outbox)[id], now)]
  {
    MarkOutboxProcessed(db, id, now);
  }

  /** `ok` is false, and nothing is written, when `error` does not fit the
      `last_error` column. */
  method MarkFailed(db: Store, id: EventId, attempt: nat, error: string, maxAttempts: nat, now: Time, draw: nat)
    returns (ok: bool)
    requires db.Valid() && id < |db.outbox| && draw <= DrawScale
    modifies db`outbox
    ensures db.Valid()
    ensures ok <==> |error| <= LastErrorMaxLength
    ensures db.outbox == if ok then old(db.outbox)[id := FailedEvent(old(db.outbox)[id], attempt, error, maxAttempts, now, draw)]
                         else old(db.outbox)
  {
    var status: EventStatus;
    var nextAttempt: Time;
    if attempt >= maxAttempts {
      status := Dead;
      nextAttempt := now + DeadDelay;
    } else {
      status := Pending;
      var delay := ComputeBackoff(attempt, draw, BaseDelay, MaxDelay);
      nextAttempt := now + delay;
    }
    ok := MarkOutboxFailed(db, id, attempt, nextAttempt, error, status);
  }
}
