/** Request batching: lookups of one tenant are queued and answered together.
    Loads, timers and dispatch calls interleave freely. */
module Loader {
  import opened Wrappers

  datatype Row = Row(id: string, tenant: string, body: string)

  /** The backend table; each row is stored under its id. */
  type Table = t: map<string, Row> | forall id | id in t :: t[id].id == id witness map[]

  datatype Outcome = Found(row: Row) | NotFound | Failed

  // ----- Batch lookups and single lookups -----

  predicate Visible(row: Row, tenant: string) {
    tenant == "" || row.tenant == tenant
  }

  /** What a batch query reports for one id; a query without a tenant sees every row. */
  function Lookup(db: Table, tenant: string, id: string): Outcome {
    if id in db && Visible(db[id], tenant) then Found(db[id]) else NotFound
  }

  /** The single lookup by id and tenant. */
  function Direct(db: Table, tenant: string, id: string): Outcome {
    if id in db && db[id].tenant == tenant then Found(db[id]) else NotFound
  }

  /** Batched and single lookups agree on every table exactly for named tenants. */
  lemma BatchIsDirectIff(tenant: string)
    ensures tenant != "" <==> forall db: Table, id :: Lookup(db, tenant, id) == Direct(db, tenant, id)
  {
    if tenant == "" {
      var db: Table := map["x" := Row("x", "t", "")];
      assert Lookup(db, tenant, "x") != Direct(db, tenant, "x");
    }
  }

  /** The rows a batch query may return, in any order. */
  ghost predicate IsResultSet(rows: seq<Row>, db: Table, tenant: string, ids: set<string>) {
    && (forall r | r in rows :: r.id in ids && Lookup(db, tenant, r.id) == Found(r))
    && (forall id | id in ids && Lookup(db, tenant, id).Found? :: Lookup(db, tenant, id).row in rows)
  }

  // ----- The protocol of one tenant's loader -----

  type Batch = map<string, seq<nat>>  // id -> the waiters for it

  datatype Call =
    | Entered                               // dispatch called, lock not yet taken
    | Taken(batch: Batch)                   // holds a batch, query not yet made
    | Answered(batch: Batch, seen: Option<Table>)  // the table the query saw; None if it failed

  datatype World = World(
    pending: Batch,
    timer: Option<nat>,          // the loader's current timer
    armed: set<nat>,             // timers that will still fire
    calls: map<nat, Call>,
    asked: map<nat, string>,     // every waiter so far, with the id it asked for
    inbox: map<nat, seq<Outcome>>,
    db: Table)

  datatype Step =
    | Load(waiter: nat, id: string, newTimer: nat, call: nat)
    | Fire(fired: nat, call: nat)
    | CallDispatch(call: nat)
    | Take(call: nat)
    | Query(call: nat, fails: bool)
    | Deliver(call: nat)
    | Write(table: Table)

  datatype Config = Config(tenant: string, maxBatch: int)

  function Initial(db: Table): World {
    World(map[], None, {}, map[], map[], map[], db)
  }

  predicate Enabled(w: World, step: Step) {
    match step
    case Load(waiter, _, newTimer, call) => waiter !in w.asked && newTimer !in w.armed && call !in w.calls
    case Fire(fired, call) => fired in w.armed && call !in w.calls
    case CallDispatch(call) => call !in w.calls
    case Take(call) => call in w.calls && w.calls[call].Entered?
    case Query(call, _) => call in w.calls && w.calls[call].Taken?
    case Deliver(call) => call in w.calls && w.calls[call].Answered?
    case Write(_) => true
  }

  function Queued(pending: Batch, id: string, waiter: nat): Batch {
    pending[id := (if id in pending then pending[id] else []) + [waiter]]
  }

  function Result(c: Config, seen: Option<Table>, id: string): Outcome {
    if seen.None? then Failed else Lookup(seen.value, c.tenant, id)
  }

  predicate Waits(b: Batch, waiter: nat, id: string) {
    id in b && waiter in b[id]
  }

  /** Each waiter of a batch receives the result for the id it asked for. */
  function Delivered(c: Config, w: World, b: Batch, seen: Option<Table>): map<nat, seq<Outcome>> {
    map x | x in w.inbox ::
      if x in w.asked && Waits(b, x, w.asked[x]) then w.inbox[x] + [Result(c, seen, w.asked[x])] else w.inbox[x]
  }

  function Apply(c: Config, w: World, step: Step): World
    requires Enabled(w, step)
  {
    match step
    case Load(waiter, id, newTimer, call) =>
      var pending := Queued(w.pending, id, waiter);
      var first := |pending| == 1;
      w.(pending := pending,
         timer := if first then Some(newTimer) else w.timer,
         armed := if first then w.armed + {newTimer} else w.armed,
         calls := if |pending| >= c.maxBatch then w.calls[call := Entered] else w.calls,
         asked := w.asked[waiter := id], inbox := w.inbox[waiter := []])
    case Fire(fired, call) => w.(armed := w.armed - {fired}, calls := w.calls[call := Entered])
    case CallDispatch(call) => w.(calls := w.calls[call := Entered])
    case Take(call) =>
      if w.pending == map[] then w.(calls := w.calls - {call})
      else w.(pending := map[], timer := None,
              armed := if w.timer.Some? then w.armed - {w.timer.value} else w.armed,
              calls := w.calls[call := Taken(w.pending)])
    case Query(call, fails) =>
      w.(calls := w.calls[call := Answered(w.calls[call].batch, if fails then None else Some(w.db))])
    case Deliver(call) =>
      w.(inbox := Delivered(c, w, w.calls[call].batch, w.calls[call].seen), calls := w.calls - {call})
    case Write(table) => w.(db := table)
  }

  // ----- What every step keeps -----

  predicate Holds(call: Call) {
    !call.Entered?
  }

  /** A batch's waiters asked for the ids they stand under, once each, and have
      no result yet. */
  ghost predicate Fresh(w: World, b: Batch) {
    && (forall id | id in b :: b[id] != [])
    && (forall id, i | id in b && 0 <= i < |b[id]| ::
          b[id][i] in w.asked && w.asked[b[id][i]] == id && b[id][i] in w.inbox && w.inbox[b[id][i]] == [])
    && (forall id, i, j | id in b && 0 <= i < j < |b[id]| :: b[id][i] != b[id][j])
  }

  ghost predicate Apart(a: Batch, b: Batch) {
    forall id, x | Waits(a, x, id) :: !Waits(b, x, id)
  }

  /** Where a waiter's request stands. */
  ghost predicate Outstanding(w: World, x: nat)
    requires x in w.asked
  {
    Waits(w.pending, x, w.asked[x]) ||
    exists call :: call in w.calls && Holds(w.calls[call]) && Waits(w.calls[call].batch, x, w.asked[x])
  }

  ghost predicate Inv(w: World) {
    && w.inbox.Keys == w.asked.Keys
    && Fresh(w, w.pending)
    && (forall call | call in w.calls && Holds(w.calls[call]) ::
          Fresh(w, w.calls[call].batch) && Apart(w.calls[call].batch, w.pending))
    && (forall a, b | a in w.calls && b in w.calls && a != b && Holds(w.calls[a]) && Holds(w.calls[b]) ::
          Apart(w.calls[a].batch, w.calls[b].batch))
  }

  /** Every waiter is outstanding with an empty inbox, or has exactly one result. */
  ghost predicate OneEach(w: World)
    requires w.inbox.Keys == w.asked.Keys
  {
    forall x | x in w.asked ::
      if Outstanding(w, x) then w.inbox[x] == [] else |w.inbox[x]| == 1
  }

  /** Work is never left behind: if something is pending, a timer is armed or a
      dispatch call is on its way to the lock. */
  ghost predicate DispatchDue(w: World) {
    w.pending != map[] ==>
      || (w.timer.Some? && w.timer.value in w.armed)
      || exists call :: call in w.calls && w.calls[call].Entered?
  }

  /** A batch stays fresh unless it is the one delivered. */
  lemma FreshKept(c: Config, w: World, step: Step, b: Batch)
    requires Inv(w) && Enabled(w, step) && Fresh(w, b)
    requires step.Deliver? ==> Apart(w.calls[step.call].batch, b)
    ensures Fresh(Apply(c, w, step), b)
  {
    var w' := Apply(c, w, step);
    forall id, i | id in b && 0 <= i < |b[id]|
      ensures && b[id][i] in w'.asked && w'.asked[b[id][i]] == id
              && b[id][i] in w'.inbox && w'.inbox[b[id][i]] == []
    {
      assert b[id][i] in w.asked && w.asked[b[id][i]] == id;
      if step.Deliver? { assert Waits(b, b[id][i], id); }
    }
  }

  lemma QueuedFresh(c: Config, w: World, step: Step)
    requires Inv(w) && Enabled(w, step) && step.Load?
    ensures Fresh(Apply(c, w, step), Apply(c, w, step).pending)
  {
    var w', b, b' := Apply(c, w, step), w.pending, Apply(c, w, step).pending;
    FreshKept(c, w, step, b);
    forall id, i | id in b' && 0 <= i < |b'[id]|
      ensures && b'[id][i] in w'.asked && w'.asked[b'[id][i]] == id
              && b'[id][i] in w'.inbox && w'.inbox[b'[id][i]] == []
    {
      if id != step.id || (id in b && i < |b[id]|) { assert b'[id][i] == b[id][i]; }
    }
    forall id, i, j | id in b' && 0 <= i < j < |b'[id]| ensures b'[id][i] != b'[id][j] {
      if id in b && i < |b[id]| { assert b'[id][i] == b[id][i] && b[id][i] in w.asked; }
    }
  }

  lemma QueuedApart(c: Config, w: World, step: Step, a: Batch)
    requires Inv(w) && Enabled(w, step) && step.Load? && Fresh(w, a) && Apart(a, w.pending)
    ensures Apart(a, Apply(c, w, step).pending)
  {
    var b' := Apply(c, w, step).pending;
    forall id, x | Waits(a, x, id) ensures !Waits(b', x, id) {
      var i :| 0 <= i < |a[id]| && a[id][i] == x;
      assert x in w.asked && !Waits(w.pending, x, id);
    }
  }

  lemma StepHeld(c: Config, w: World, step: Step, call: nat)
    requires Inv(w) && Enabled(w, step)
    requires call in Apply(c, w, step).calls && Holds(Apply(c, w, step).calls[call])
    ensures var w' := Apply(c, w, step);
            Fresh(w', w'.calls[call].batch) && Apart(w'.calls[call].batch, w'.pending)
  {
    hide Fresh, Apart, Queued, Delivered;
    var w' := Apply(c, w, step);
    if call in w.calls && Holds(w.calls[call]) {
      var b := w.calls[call].batch;
      FreshKept(c, w, step, b);
      if step.Load? { QueuedApart(c, w, step, b); } else if step.Take? { ApartEmpty(b); }
    } else {
      FreshKept(c, w, step, w.pending);
      ApartEmpty(w.pending);
    }
  }

  lemma ApartEmpty(b: Batch)
    ensures Apart(b, map[])
  {
  }

  lemma StepApart(c: Config, w: World, step: Step, a: nat, b: nat)
    requires Inv(w) && Enabled(w, step) && a != b
    requires a in Apply(c, w, step).calls && Holds(Apply(c, w, step).calls[a])
    requires b in Apply(c, w, step).calls && Holds(Apply(c, w, step).calls[b])
    ensures Apart(Apply(c, w, step).calls[a].batch, Apply(c, w, step).calls[b].batch)
  {
    hide Fresh, Queued, Delivered;
    assert a in w.calls && b in w.calls;
    if !Holds(w.calls[a]) {
      assert Apart(w.calls[b].batch, w.pending);
    }
  }

  lemma StepInv(c: Config, w: World, step: Step)
    requires Inv(w) && Enabled(w, step)
    ensures Inv(Apply(c, w, step))
  {
    hide Fresh, Apart, Queued, Delivered;
    var w' := Apply(c, w, step);
    if step.Load? { QueuedFresh(c, w, step); } else { StepPending(c, w, step); }
    forall call | call in w'.calls && Holds(w'.calls[call])
      ensures Fresh(w', w'.calls[call].batch) && Apart(w'.calls[call].batch, w'.pending)
    {
      StepHeld(c, w, step, call);
    }
    forall a, b | a in w'.calls && b in w'.calls && a != b && Holds(w'.calls[a]) && Holds(w'.calls[b])
      ensures Apart(w'.calls[a].batch, w'.calls[b].batch)
    {
      StepApart(c, w, step, a, b);
    }
    assert w'.inbox.Keys == w'.asked.Keys by { StepKeys(c, w, step); }
  }

  lemma StepPending(c: Config, w: World, step: Step)
    requires Inv(w) && Enabled(w, step) && !step.Load?
    ensures Fresh(Apply(c, w, step), Apply(c, w, step).pending)
  {
    if !step.Take? { FreshKept(c, w, step, w.pending); }
  }

  lemma StepKeys(c: Config, w: World, step: Step)
    requires Inv(w) && Enabled(w, step)
    ensures Apply(c, w, step).inbox.Keys == Apply(c, w, step).asked.Keys
  {
  }

  lemma StepDispatchDue(c: Config, w: World, step: Step)
    requires Inv(w) && DispatchDue(w) && Enabled(w, step)
    ensures DispatchDue(Apply(c, w, step))
  {
    var w' := Apply(c, w, step);
    if step.Load? {
      assert step.id in w'.pending;
      if w.pending == map[] { assert w'.pending.Keys == {step.id}; }
    }
    if call :| call in w.calls && w.calls[call].Entered? {
      assert !(step.Take? && step.call == call) ==> call in w'.calls && w'.calls[call].Entered?;
    }
    if step.Fire? || step.CallDispatch? { assert step.call in w'.calls && w'.calls[step.call].Entered?; }
  }

  lemma StepOneEach(c: Config, w: World, step: Step)
    requires Inv(w) && OneEach(w) && Enabled(w, step) && Inv(Apply(c, w, step))
    ensures OneEach(Apply(c, w, step))
  {
    var w' := Apply(c, w, step);
    forall x | x in w'.asked
      ensures if Outstanding(w', x) then w'.inbox[x] == [] else |w'.inbox[x]| == 1
    {
      StepWaiter(c, w, step, x);
    }
  }

  /** What a step does to one waiter: it is queued, or its batch is delivered,
      or it stays where it is. */
  lemma StepWaiter(c: Config, w: World, step: Step, x: nat)
    requires Inv(w) && OneEach(w) && Enabled(w, step) && Inv(Apply(c, w, step)) && x in Apply(c, w, step).asked
    ensures var w' := Apply(c, w, step);
            if Outstanding(w', x) then w'.inbox[x] == [] else |w'.inbox[x]| == 1
  {
    var w' := Apply(c, w, step);
    if x !in w.asked {
      assert Waits(w'.pending, x, w'.asked[x]);
    } else if step.Deliver? && Waits(w.calls[step.call].batch, x, w.asked[x]) {
      assert Outstanding(w, x) && !Outstanding(w', x);
    } else {
      OutstandingKept(c, w, step, x);
    }
  }

  lemma InboxKept(c: Config, w: World, step: Step, x: nat)
    requires Inv(w) && Enabled(w, step) && x in w.asked
    requires step.Deliver? ==> !Waits(w.calls[step.call].batch, x, w.asked[x])
    ensures var w' := Apply(c, w, step);
            x in w'.asked && w'.asked[x] == w.asked[x] && x in w'.inbox && w'.inbox[x] == w.inbox[x]
  {
    hide Fresh, Apart, Queued;
  }

  lemma QueuedWaits(b: Batch, id: string, waiter: nat, x: nat, y: string)
    requires x != waiter
    ensures Waits(Queued(b, id, waiter), x, y) <==> Waits(b, x, y)
  {
  }

  lemma OutstandingKept(c: Config, w: World, step: Step, x: nat)
    requires Inv(w) && Enabled(w, step) && x in w.asked
    requires step.Deliver? ==> !Waits(w.calls[step.call].batch, x, w.asked[x])
    ensures x in Apply(c, w, step).asked && (Outstanding(Apply(c, w, step), x) <==> Outstanding(w, x))
    ensures Apply(c, w, step).inbox[x] == w.inbox[x]
  {
    InboxKept(c, w, step, x);
    hide Fresh, Apart, Waits, Queued, Delivered, Enabled, Apply, Outstanding;
    if Outstanding(w, x) { StillOutstanding(c, w, step, x); }
    if Outstanding(Apply(c, w, step), x) { WasOutstanding(c, w, step, x); }
  }

  lemma StillOutstanding(c: Config, w: World, step: Step, x: nat)
    requires Inv(w) && Enabled(w, step) && x in w.asked && Outstanding(w, x)
    requires step.Deliver? ==> !Waits(w.calls[step.call].batch, x, w.asked[x])
    requires x in Apply(c, w, step).asked && Apply(c, w, step).asked[x] == w.asked[x]
    ensures Outstanding(Apply(c, w, step), x)
  {
    hide Fresh, Apart, Waits, Queued, Delivered;
    var w', id := Apply(c, w, step), w.asked[x];
    if Waits(w.pending, x, id) {
      if step.Load? { QueuedWaits(w.pending, step.id, step.waiter, x, id); }
      if step.Take? && w.pending != map[] { assert w'.calls[step.call].batch == w.pending; }
    } else {
      var call :| call in w.calls && Holds(w.calls[call]) && Waits(w.calls[call].batch, x, id);
      assert call in w'.calls && w'.calls[call].batch == w.calls[call].batch;
    }
  }

  lemma WasOutstanding(c: Config, w: World, step: Step, x: nat)
    requires Inv(w) && Enabled(w, step) && x in w.asked
    requires x in Apply(c, w, step).asked && Apply(c, w, step).asked[x] == w.asked[x]
    requires Outstanding(Apply(c, w, step), x)
    ensures Outstanding(w, x)
  {
    hide Fresh, Apart, Queued, Delivered;
    var w', id := Apply(c, w, step), w.asked[x];
    if Waits(w'.pending, x, id) {
      if step.Load? { QueuedWaits(w.pending, step.id, step.waiter, x, id); }
    } else {
      var call :| call in w'.calls && Holds(w'.calls[call]) && Waits(w'.calls[call].batch, x, id);
      assert (step.Take? && step.call == call) || (call in w.calls && Holds(w.calls[call]));
    }
  }

  // ----- Theorems -----

  predicate Legal(c: Config, w: World, steps: seq<Step>)
    decreases |steps|
  {
    steps == [] || (Enabled(w, steps[0]) && Legal(c, Apply(c, w, steps[0]), steps[1..]))
  }

  function After(c: Config, w: World, steps: seq<Step>): World
    requires Legal(c, w, steps)
    decreases |steps|
  {
    if steps == [] then w else After(c, Apply(c, w, steps[0]), steps[1..])
  }

  lemma {:induction false} RunKeeps(c: Config, w: World, steps: seq<Step>)
    requires Inv(w) && OneEach(w) && DispatchDue(w) && Legal(c, w, steps)
    ensures Inv(After(c, w, steps)) && OneEach(After(c, w, steps)) && DispatchDue(After(c, w, steps))
    decreases |steps|
  {
    hide Enabled, Apply, OneEach, DispatchDue;
    if steps != [] {
      StepInv(c, w, steps[0]);
      StepOneEach(c, w, steps[0]);
      StepDispatchDue(c, w, steps[0]);
      RunKeeps(c, Apply(c, w, steps[0]), steps[1..]);
    }
  }

  /** In every run no waiter is stranded: pending work always has a dispatch due,
      and every waiter is either still queued or in a batch, with nothing sent,
      or has been sent exactly one result. */
  lemma NoWaiterStranded(c: Config, db: Table, steps: seq<Step>)
    requires Legal(c, Initial(db), steps)
    ensures var w := After(c, Initial(db), steps);
            && DispatchDue(w) && w.inbox.Keys == w.asked.Keys
            && forall x | x in w.asked :: if Outstanding(w, x) then w.inbox[x] == [] else |w.inbox[x]| == 1
  {
    RunKeeps(c, Initial(db), steps);
  }

  /** What a load starts: a timer exactly when no other id is pending, which then
      is the loader's timer, and a dispatch exactly when the batch is full. */
  lemma LoadStarts(c: Config, w: World, step: Step)
    requires Enabled(w, step) && step.Load?
    ensures var w', ids := Apply(c, w, step), w.pending.Keys + {step.id};
            && w'.pending.Keys == ids
            && (if ids == {step.id} then w'.timer == Some(step.newTimer) && w'.armed == w.armed + {step.newTimer}
                else w'.timer == w.timer && w'.armed == w.armed)
            && w'.calls == if |ids| >= c.maxBatch then w.calls[step.call := Entered] else w.calls
  {
    var ids, pending := w.pending.Keys + {step.id}, Queued(w.pending, step.id, step.waiter);
    assert pending.Keys == ids && |pending| == |ids|;
    if |ids| == 1 { assert |ids - {step.id}| == 0; }
  }

  /** A dispatch that finds work takes all of it and stops the loader's timer; one
      that finds none is over. */
  lemma TakeStops(c: Config, w: World, step: Step)
    requires Enabled(w, step) && step.Take?
    ensures var w' := Apply(c, w, step);
            if w.pending == map[] then w' == w.(calls := w.calls - {step.call})
            else && w'.pending == map[] && w'.calls == w.calls[step.call := Taken(w.pending)]
                 && w'.timer == None && w'.armed == (if w.timer.Some? then w.armed - {w.timer.value} else w.armed)
  {
  }

  /** Other steps, writes to the table included, do not change what a call has seen. */
  lemma {:induction false} AnswerStays(c: Config, w: World, steps: seq<Step>, call: nat)
    requires Legal(c, w, steps) && call in w.calls && w.calls[call].Answered?
    requires forall s | s in steps :: s != Deliver(call)
    ensures call in After(c, w, steps).calls && After(c, w, steps).calls[call] == w.calls[call]
    decreases |steps|
  {
    if steps != [] {
      assert steps[0] in steps && forall s | s in steps[1..] :: s in steps;
      AnswerStays(c, Apply(c, w, steps[0]), steps[1..], call);
    }
  }

  lemma {:induction false} TableStays(c: Config, w: World, steps: seq<Step>)
    requires Legal(c, w, steps) && forall s | s in steps :: !s.Write?
    ensures After(c, w, steps).db == w.db
    decreases |steps|
  {
    if steps != [] {
      assert steps[0] in steps && forall s | s in steps[1..] :: s in steps;
      TableStays(c, Apply(c, w, steps[0]), steps[1..]);
    }
  }

  /** A batch that is queried sees the table as last written. */
  lemma QuerySeesLastWrite(c: Config, w: World, table: Table, steps: seq<Step>, call: nat)
    requires Legal(c, Apply(c, w, Write(table)), steps) && forall s | s in steps :: !s.Write?
    requires var w' := After(c, Apply(c, w, Write(table)), steps); call in w'.calls && w'.calls[call].Taken?
    ensures var w' := After(c, Apply(c, w, Write(table)), steps);
            Apply(c, w', Query(call, false)).calls[call].seen == Some(table)
  {
    TableStays(c, Apply(c, w, Write(table)), steps);
  }

  /** A batch's waiters are sent what a lookup of their id finds in the table as
      it was when the batch was queried, or that the query failed, however the steps
      in between interleave. */
  lemma DeliversLookups(c: Config, w: World, steps: seq<Step>, call: nat, x: nat, fails: bool)
    requires Inv(w) && OneEach(w) && DispatchDue(w)
    requires call in w.calls && w.calls[call].Taken? && x in w.asked && Waits(w.calls[call].batch, x, w.asked[x])
    requires Legal(c, Apply(c, w, Query(call, fails)), steps) && forall s | s in steps :: s != Deliver(call)
    ensures var w' := After(c, Apply(c, w, Query(call, fails)), steps);
            && Enabled(w', Deliver(call))
            && x in Apply(c, w', Deliver(call)).inbox
            && Apply(c, w', Deliver(call)).inbox[x] == [if fails then Failed else Lookup(w.db, c.tenant, w.asked[x])]
  {
    var w1, id := Apply(c, w, Query(call, fails)), w.asked[x];
    StepInv(c, w, Query(call, fails));
    StepOneEach(c, w, Query(call, fails));
    StepDispatchDue(c, w, Query(call, fails));
    RunKeeps(c, w1, steps);
    AnswerStays(c, w1, steps, call);
    var w' := After(c, w1, steps);
    var i :| 0 <= i < |w'.calls[call].batch[id]| && w'.calls[call].batch[id][i] == x;
    assert Fresh(w', w'.calls[call].batch);
  }
}
