/** The per-tenant loader as it runs: queueing under the lock, and a dispatch
    that queries once and sends every waiter its result. */
module TenantLoader {
  import opened Wrappers
  import opened Loader

  /** Every waiter of a batch has a channel, and stands once, under the id it asked for. */
  ghost predicate Placed(b: Batch, asked: map<nat, string>, inbox: map<nat, seq<Outcome>>) {
    && inbox.Keys == asked.Keys
    && (forall id, i | id in b && 0 <= i < |b[id]| :: b[id][i] in asked && asked[b[id][i]] == id)
    && (forall id, i, j | id in b && 0 <= i < j < |b[id]| :: b[id][i] != b[id][j])
  }

  /** A new waiter has its place in the queue. */
  lemma PlacedQueued(b: Batch, asked: map<nat, string>, inbox: map<nat, seq<Outcome>>, id: string, waiter: nat)
    requires Placed(b, asked, inbox) && waiter !in inbox
    ensures Placed(Queued(b, id, waiter), asked[waiter := id], inbox[waiter := []])
  {
    var b' := Queued(b, id, waiter);
    forall k, i | k in b' && 0 <= i < |b'[k]|
      ensures b'[k][i] in asked[waiter := id] && asked[waiter := id][b'[k][i]] == k
      ensures forall j | i < j < |b'[k]| :: b'[k][i] != b'[k][j]
    {
    }
  }

  /** The rows of a batch query by id; a later row with the same id wins. */
  method IndexRows(rows: seq<Row>) returns (rowMap: map<string, Row>)
    ensures forall id | id in rowMap :: rowMap[id] in rows && rowMap[id].id == id
    ensures forall r | r in rows :: r.id in rowMap
  {
    rowMap := map[];
    for i := 0 to |rows|
      invariant forall id | id in rowMap :: rowMap[id] in rows && rowMap[id].id == id
      invariant forall k | 0 <= k < i :: rows[k].id in rowMap
    {
      rowMap := rowMap[rows[i].id := rows[i]];
    }
  }

  /** Whatever order the rows come in, looking an id up in them is a lookup in the table. */
  lemma IndexedIsLookup(rows: seq<Row>, rowMap: map<string, Row>, db: Table, tenant: string, ids: set<string>, id: string)
    requires IsResultSet(rows, db, tenant, ids) && id in ids
    requires forall k | k in rowMap :: rowMap[k] in rows && rowMap[k].id == k
    requires forall r | r in rows :: r.id in rowMap
    ensures (if id in rowMap then Found(rowMap[id]) else NotFound) == Lookup(db, tenant, id)
  {
  }

  function ResultOf(fails: bool, rowMap: map<string, Row>, id: string): Outcome {
    if fails then Failed else if id in rowMap then Found(rowMap[id]) else NotFound
  }

  class TenantQueue {
    const tenantID: string
    const maxBatch: int
    var pending: Batch
    var inbox: map<nat, seq<Outcome>>  // what each waiter's channel has received
    ghost var asked: map<nat, string>  // the id each waiter asked for

    constructor (tenantID: string, maxBatch: int)
      ensures this.tenantID == tenantID && this.maxBatch == maxBatch
      ensures pending == map[] && inbox == map[] && Placed(pending, asked, inbox)
    {
      this.tenantID, this.maxBatch, pending, inbox, asked := tenantID, maxBatch, map[], map[], map[];
    }

    /** Queues a waiter with a new channel; says whether to start the timer and
        whether to dispatch at once. */
    method Load(waiter: nat, id: string) returns (startTimer: bool, shouldDispatch: bool)
      requires waiter !in inbox && Placed(pending, asked, inbox)
      modifies this
      ensures Placed(pending, asked, inbox)
      ensures pending == Queued(old(pending), id, waiter)
      ensures inbox == old(inbox)[waiter := []] && asked == old(asked)[waiter := id]
      ensures startTimer <==> |pending| == 1
      ensures shouldDispatch <==> |pending| >= maxBatch
    {
      PlacedQueued(pending, asked, inbox, id, waiter);
      hide Placed;
      inbox, asked := inbox[waiter := []], asked[waiter := id];
      pending := pending[id := (if id in pending then pending[id] else []) + [waiter]];
      var count := |pending|;
      startTimer, shouldDispatch := count == 1, count >= maxBatch;
    }

    /** Takes the whole batch, queries once, and sends each of its waiters one
        result, the lookup of its id or the failure of the query; others get nothing. */
    method Dispatch(rows: seq<Row>, fails: bool, ghost db: Table)
      requires Placed(pending, asked, inbox)
      requires !fails ==> IsResultSet(rows, db, tenantID, pending.Keys)
      modifies this`pending, this`inbox
      ensures pending == map[] && inbox.Keys == old(inbox).Keys
      ensures forall x | x in inbox :: inbox[x] ==
                if Waits(old(pending), x, asked[x])
                then old(inbox)[x] + [if fails then Failed else Lookup(db, tenantID, asked[x])]
                else old(inbox)[x]
    {
      if |pending| == 0 { return; }
      var batch := pending;
      pending := map[];
      var rowMap: map<string, Row> := map[];
      if !fails { rowMap := IndexRows(rows); }
      forall id | id in batch && !fails
        ensures (if id in rowMap then Found(rowMap[id]) else NotFound) == Lookup(db, tenantID, id)
      {
        IndexedIsLookup(rows, rowMap, db, tenantID, batch.Keys, id);
      }
      Send(batch, fails, rowMap);
    }

    /** Sends every waiter of a batch the result for its id. */
    method Send(batch: Batch, fails: bool, rowMap: map<string, Row>)
      requires Placed(batch, asked, inbox)
      modifies this`inbox
      ensures inbox.Keys == old(inbox).Keys
      ensures forall x | x in inbox :: inbox[x] ==
                if Waits(batch, x, asked[x]) then old(inbox)[x] + [ResultOf(fails, rowMap, asked[x])] else old(inbox)[x]
    {
      hide ResultOf;
      var rest := batch.Keys;
      while rest != {}
        invariant rest <= batch.Keys && inbox.Keys == old(inbox).Keys
        invariant forall x | x in inbox :: inbox[x] ==
                    if asked[x] !in rest && Waits(batch, x, asked[x])
                    then old(inbox)[x] + [ResultOf(fails, rowMap, asked[x])] else old(inbox)[x]
        decreases rest
      {
        var id :| id in rest;
        rest := rest - {id};
        SendAll(batch[id], ResultOf(fails, rowMap, id));
        forall x | x in inbox ensures inbox[x] ==
                    if asked[x] !in rest && Waits(batch, x, asked[x])
                    then old(inbox)[x] + [ResultOf(fails, rowMap, asked[x])] else old(inbox)[x]
        {
          assert x in batch[id] ==> asked[x] == id;
        }
      }
    }

    /** Sends one result on each channel of a list. */
    method SendAll(chs: seq<nat>, res: Outcome)
      requires forall i | 0 <= i < |chs| :: chs[i] in inbox
      requires forall i, j | 0 <= i < j < |chs| :: chs[i] != chs[j]
      modifies this`inbox
      ensures inbox.Keys == old(inbox).Keys
      ensures forall x | x in inbox :: inbox[x] == if x in chs then old(inbox)[x] + [res] else old(inbox)[x]
    {
      for i := 0 to |chs|
        invariant inbox.Keys == old(inbox).Keys
        invariant forall x | x in inbox :: inbox[x] == if x in chs[..i] then old(inbox)[x] + [res] else old(inbox)[x]
      {
        var ch := chs[i];
        assert ch !in chs[..i];
        assert forall x :: x in chs[..i + 1] <==> x in chs[..i] || x == ch;
        inbox := inbox[ch := inbox[ch] + [res]];
      }
      assert chs[..|chs|] == chs;
    }
  }

  class RequestLoader {
    const maxBatch: int
    var subLoaders: map<string, TenantQueue>

    /** One queue per tenant, and no queue shared by two. */
    ghost predicate Valid()
      reads this
    {
      forall t | t in subLoaders :: subLoaders[t].tenantID == t
    }

    constructor (maxBatch: int)
      ensures Valid() && subLoaders == map[]
    {
      this.maxBatch, subLoaders := maxBatch, map[];
    }

    method GetOrCreateSubLoader(tenantID: string) returns (queue: TenantQueue)
      requires Valid()
      modifies this
      ensures Valid() && tenantID in subLoaders && queue == subLoaders[tenantID] && queue.tenantID == tenantID
      ensures tenantID in old(subLoaders) ==> subLoaders == old(subLoaders)
      ensures tenantID !in old(subLoaders) ==> fresh(queue) && subLoaders == old(subLoaders)[tenantID := queue]
      ensures forall t | t in subLoaders && t != tenantID :: subLoaders[t] != queue
    {
      if tenantID in subLoaders { return subLoaders[tenantID]; }
      queue := new TenantQueue(tenantID, maxBatch);
      subLoaders := subLoaders[tenantID := queue];
    }
  }
}
