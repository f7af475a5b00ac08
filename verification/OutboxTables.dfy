/** The two tables of the outbox, and what each SQL statement of the
    repository does to them. */
module OutboxTables {
  import opened Wrappers
  import opened Uuid
  import opened Sets

  datatype Status = Pending | Processing | Completed | Failed

  datatype Row = Row(status: Status, retryCount: nat, nextRetryAt: Option<int>,
                     errorMessage: Option<string>, updatedAt: int)

  /** outbox_events */
  type Events = map<Id, Row>

  /** outbox_publisher_progress: each publisher's high-water mark */
  type Progress = map<string, Id>

  predicate Due(row: Row, now: int) {
    row.status.Pending? ||
    (row.status.Failed? && row.nextRetryAt.Some? && row.nextRetryAt.value <= now)
  }

  predicate Above(progress: Progress, publisher: string, id: Id) {
    publisher !in progress || progress[publisher] < id
  }

  predicate Qualifies(events: Events, progress: Progress, publisher: string, now: int, id: Id) {
    id in events && Due(events[id], now) && Above(progress, publisher, id)
  }

  /** The rows a publisher's query may return: the first `limit` qualifying ids
      in id order. */
  ghost predicate IsBatch(events: Events, progress: Progress, publisher: string,
                          limit: nat, now: int, ids: seq<Id>)
  {
    && Ascending(ids)
    && |ids| <= limit
    && (forall id | id in ids :: Qualifies(events, progress, publisher, now, id))
    && (forall id, other | Qualifies(events, progress, publisher, now, id) && id !in ids && other in ids ::
          other < id)
    && (forall id | Qualifies(events, progress, publisher, now, id) && id !in ids :: |ids| == limit)
  }

  /** ORDER BY id LIMIT n leaves no freedom: the batch is a function of the tables. */
  lemma BatchUnique(events: Events, progress: Progress, publisher: string,
                    limit: nat, now: int, a: seq<Id>, b: seq<Id>)
    requires IsBatch(events, progress, publisher, limit, now, a)
    requires IsBatch(events, progress, publisher, limit, now, b)
    ensures a == b
  {
    AscendingAgree(events, progress, publisher, limit, now, a, b, 0);
  }

  lemma {:induction false} AscendingAgree(events: Events, progress: Progress, publisher: string,
                                          limit: nat, now: int, a: seq<Id>, b: seq<Id>, k: nat)
    requires IsBatch(events, progress, publisher, limit, now, a)
    requires IsBatch(events, progress, publisher, limit, now, b)
    requires k <= |a| && k <= |b| && a[..k] == b[..k]
    ensures a == b
    decreases |a| - k
  {
    if k < |a| {
      NoSkippedRow(events, progress, publisher, limit, now, a, b, k);
      NoSkippedRow(events, progress, publisher, limit, now, b, a, k);
      assert a[..k + 1] == a[..k] + [a[k]] && b[..k + 1] == b[..k] + [b[k]];
      AscendingAgree(events, progress, publisher, limit, now, a, b, k + 1);
    } else {
      if k < |b| { NoSkippedRow(events, progress, publisher, limit, now, b, a, k); }
      assert a == a[..k] && b == b[..k];
    }
  }

  /** Past a common prefix, a batch goes on at least as early as the other. */
  lemma NoSkippedRow(events: Events, progress: Progress, publisher: string,
                     limit: nat, now: int, a: seq<Id>, b: seq<Id>, k: nat)
    requires IsBatch(events, progress, publisher, limit, now, a)
    requires IsBatch(events, progress, publisher, limit, now, b)
    requires k < |a| && k <= |b| && a[..k] == b[..k]
    ensures k < |b| && b[k] <= a[k]
  {
    assert a[k] in a;
    forall j | 0 <= j < k ensures b[j] < a[k] { assert b[j] == a[..k][j] == a[j]; }
    if a[k] !in b { assert b[k] in b; }
  }

  /** What the query's WHERE clause asks of a row, column by column. */
  predicate Offered(events: Events, progress: Progress, publisher: string, now: int, id: Id) {
    && id in events && (publisher in progress ==> progress[publisher] < id)
    && match events[id].status {
         case Pending => true
         case Failed => events[id].nextRetryAt.Some? && events[id].nextRetryAt.value <= now
         case Processing => false
         case Completed => false
       }
  }

  /** The WHERE clause takes the row, and fewer than `limit` rows with smaller ids. */
  predicate AmongFirst(events: Events, progress: Progress, publisher: string, limit: nat, now: int, id: Id) {
    && Offered(events, progress, publisher, now, id)
    && |set x | x in events && x < id && Offered(events, progress, publisher, now, x)| < limit
  }

  /** A row is fetched exactly when it is among the first that the WHERE clause takes:
      a failed one from its retry time on, and never without one. */
  lemma FetchedIff(events: Events, progress: Progress, publisher: string, limit: nat, now: int, ids: seq<Id>, id: Id)
    requires IsBatch(events, progress, publisher, limit, now, ids)
    ensures id in ids <==> AmongFirst(events, progress, publisher, limit, now, id)
  {
    assert forall x :: Offered(events, progress, publisher, now, x) <==> Qualifies(events, progress, publisher, now, x);
    hide Offered, Qualifies;
    var before := set x | x in events && x < id && Offered(events, progress, publisher, now, x);
    if id in ids {
      var k :| 0 <= k < |ids| && ids[k] == id;
      forall x | x in before ensures x in ids[..k] {
        assert x in ids;
        var j :| 0 <= j < |ids| && ids[j] == x;
        assert ids[..k][j] == x;
      }
      AtMost(ids[..k], before);
    } else if Offered(events, progress, publisher, now, id) {
      forall x | x in ids ensures x in before { assert Qualifies(events, progress, publisher, now, x); }
      AtLeast(ids, before);
    }
  }

  /** UPDATE ... SET status, error_message, updated_at WHERE id */
  function WithStatus(events: Events, id: Id, status: Status, message: Option<string>, now: int): Events {
    if id in events
    then events[id := events[id].(status := status, errorMessage := message, updatedAt := now)]
    else events
  }

  /** INSERT ... ON CONFLICT: a mark never moves back. */
  function Upserted(progress: Progress, publisher: string, id: Id): Progress {
    if Above(progress, publisher, id) then progress[publisher := id] else progress
  }

  /** A publisher's mark is at or past id. */
  predicate Past(progress: Progress, publisher: string, id: Id) {
    publisher in progress && id <= progress[publisher]
  }

  /** Every publisher's mark is at or past id. */
  predicate Reached(progress: Progress, id: Id, publishers: set<string>) {
    forall p | p in publishers :: Past(progress, p, id)
  }

  /** The event table after an acknowledgement whose reads found every mark at or
      past id, or did not. */
  function Acknowledged(events: Events, id: Id, all: bool, now: int): Events {
    if all then WithStatus(events, id, Completed, None, now) else events
  }

  predicate Requeueable(events: Events, id: Id) {
    id in events && events[id].status.Failed?
  }

  function Requeued(events: Events, id: Id): Events {
    if Requeueable(events, id)
    then events[id := events[id].(status := Pending, retryCount := 0, nextRetryAt := None, errorMessage := None)]
    else events
  }

  predicate Disposable(row: Row, olderThan: int) {
    row.status.Completed? && row.updatedAt < olderThan
  }

  function Cleaned(events: Events, olderThan: int): Events {
    map id | id in events && !Disposable(events[id], olderThan) :: events[id]
  }
}
