/** Lookups and inserts on the idempotency_keys table. */
module IdempotencyRepo {
  import opened Wrappers
  import opened Models
  import opened Db

  /** The record stored for (`userId`, `key`), if there is one. */
  function GetIdempotencyKey(records: seq<IdempotencyRecord>, userId: UserId, key: string): (r: Option<IdempotencyRecord>)
    ensures r.Some? ==> r.value in records && r.value.userId == userId && r.value.key == key
    ensures r.None? <==> forall rec :: rec in records ==> !(rec.userId == userId && rec.key == key)
  {
    if records == [] then None
    else if records[0].userId == userId && records[0].key == key then Some(records[0])
    else GetIdempotencyKey(records[1..], userId, key)
  }

  /** After appending a record whose pair was absent, a lookup of that pair
      returns it unchanged and a lookup of any other pair returns what it
      returned before. */
  lemma {:induction false} GetAfterAppend(records: seq<IdempotencyRecord>, rec: IdempotencyRecord, userId: UserId, key: string)
    requires GetIdempotencyKey(records, rec.userId, rec.key).None?
    ensures GetIdempotencyKey(records + [rec], userId, key) ==
      if userId == rec.userId && key == rec.key then Some(rec) else GetIdempotencyKey(records, userId, key)
  {
    if records == [] {
      assert records + [rec] == [rec];
    } else {
      assert (records + [rec])[1..] == records[1..] + [rec];
      if !(records[0].userId == userId && records[0].key == key) {
        assert records[0] in records;
        GetAfterAppend(records[1..], rec, userId, key);
      }
    }
  }

  /** Inserts a record. The unique constraint on (user_id, key) and the
      VARCHAR(128) key column make the insert fail, leaving the table as it
      was, when the pair already has a record or the key is too long. */
  method CreateIdempotencyKey(db: Store, userId: UserId, key: string, requestHash: Fingerprint, response: OrderResponse)
    returns (ok: bool)
    requires db.Valid()
    modifies db`idempotencyKeys
    ensures db.Valid()
    ensures ok <==> |key| <= KeyMaxLength && GetIdempotencyKey(old(db.idempotencyKeys), userId, key).None?
    ensures db.idempotencyKeys ==
      if ok then old(db.idempotencyKeys) + [IdempotencyRecord(userId, key, requestHash, response)]
      else old(db.idempotencyKeys)
    ensures ok ==> GetIdempotencyKey(db.idempotencyKeys, userId, key) == Some(IdempotencyRecord(userId, key, requestHash, response))
  {
    ok := |key| <= KeyMaxLength && GetIdempotencyKey(db.idempotencyKeys, userId, key).None?;
    if ok {
      var rec := IdempotencyRecord(userId, key, requestHash, response);
      var old_records := db.idempotencyKeys;
      db.idempotencyKeys := db.idempotencyKeys + [rec];
      forall i, j | 0 <= i < j < |db.idempotencyKeys|
        ensures db.idempotencyKeys[i].userId != db.idempotencyKeys[j].userId || db.idempotencyKeys[i].key != db.idempotencyKeys[j].key
      {
        if j == |old_records| {
          assert old_records[i] in old_records;
        }
      }
      GetAfterAppend(old_records, rec, userId, key);
    }
  }
}
