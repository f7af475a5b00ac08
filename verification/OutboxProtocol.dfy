/** The outbox as a protocol: publishers drain one event table concurrently,
    each behind its own high-water mark, and their steps interleave freely. A
    repository call is one step, except an acknowledgement: its transaction reads
    the other marks one by one, each as committed at that moment, and shows its
    own writes to others when it commits. */
module OutboxProtocol {
  import opened Wrappers
  import opened Uuid
  import opened Sets
  import opened OutboxTables
  import opened OutboxRetry

  datatype Config = Config(publishers: set<string>, batchSize: int, maxRetries: int, factor: real)

  /** What happened, in order. */
  datatype Entry =
    | Published(publisher: string, id: Id)
    | Errored(publisher: string, id: Id, permanent: bool, deadLettered: bool)
    | Looked(publisher: string, id: Id, of: string)  // read another mark while acknowledging id
    | Acked(publisher: string, id: Id)
    | Restarted

  /** An open acknowledgement: the publishers whose marks it has found at or past
      the event, and whether it has found one that is not and stopped reading. */
  datatype Reads = Reads(reached: set<string>, short: bool)

  datatype World = World(
    events: Events,
    progress: Progress,
    backoff: map<string, Backoff>,  // absent: FRESH
    batch: map<string, seq<Id>>,    // fetched and not yet attempted; absent: none
    acks: map<string, Reads>,       // published the head of its batch, not yet acknowledged
    stored: map<Id, Status>,        // every id ever stored, with its initial status
    log: seq<Entry>)

  const INITIAL := World(map[], map[], map[], map[], map[], map[], [])

  datatype Step =
    | Store(id: Id, row: Row)
    | Fetch(publisher: string, limit: nat, now: int, ids: seq<Id>)
    | PublishOk(publisher: string)
    | Look(publisher: string, of: string)
    | Ack(publisher: string, now: int)
    | AckRolledBack(publisher: string)
    | PublishError(publisher: string, permanent: bool, message: string, now: int, saved: bool)
    | Abandon(publisher: string)  // the dispatcher's context ended during a publish
    | Restart
    | Requeue(id: Id)
    | Cleanup(olderThan: int)

  function BatchOf(w: World, publisher: string): seq<Id> {
    if publisher in w.batch then w.batch[publisher] else []
  }

  function BackoffOf(w: World, publisher: string): Backoff {
    if publisher in w.backoff then w.backoff[publisher] else FRESH
  }

  /** The reads are over: one mark was short, or all were at or past the event. */
  predicate Decided(c: Config, r: Reads) {
    r.short || c.publishers <= r.reached
  }

  /** What an acknowledgement of id reads: its own mark as it has set it, the
      other marks as committed. */
  predicate Sees(progress: Progress, publisher: string, of: string, id: Id) {
    of == publisher || Past(progress, of, id)
  }

  ghost predicate Enabled(c: Config, w: World, step: Step) {
    match step
    case Store(id, row) => id !in w.stored && !row.status.Completed?
    case Fetch(p, limit, now, ids) =>
      && p in c.publishers && p !in w.acks && BatchOf(w, p) == [] && limit == c.batchSize
      && !Waiting(BackoffOf(w, p), now)
      && IsBatch(w.events, w.progress, p, limit, now, ids)
    case PublishOk(p) => p in c.publishers && p !in w.acks && BatchOf(w, p) != []
    case Look(p, of) =>
      p in w.acks && BatchOf(w, p) != [] && of in c.publishers && !w.acks[p].short && of !in w.acks[p].reached
    case Ack(p, _) => p in w.acks && BatchOf(w, p) != [] && Decided(c, w.acks[p])
    case AckRolledBack(p) => p in w.acks && BatchOf(w, p) != []
    case PublishError(p, _, _, _, _) => p in c.publishers && p !in w.acks && BatchOf(w, p) != []
    case Abandon(p) => p in c.publishers && p !in w.acks
    case Restart => true
    case Requeue(_) => true
    case Cleanup(_) => true
  }

  function DropHead(w: World, publisher: string): map<string, seq<Id>>
    requires BatchOf(w, publisher) != []
  {
    w.batch[publisher := BatchOf(w, publisher)[1..]]
  }

  predicate DeadLetters(c: Config, w: World, publisher: string, permanent: bool) {
    permanent || GivesUp(BackoffOf(w, publisher), c.maxRetries)
  }

  function AfterError(c: Config, w: World, p: string, permanent: bool, message: string, now: int, saved: bool): World
    requires BatchOf(w, p) != []
  {
    var id := BatchOf(w, p)[0];
    var dead := DeadLetters(c, w, p, permanent);
    w.(events := if dead && saved then WithStatus(w.events, id, Failed, Some(message), now) else w.events,
       backoff := if permanent then w.backoff
                  else w.backoff[p := OnTransient(BackoffOf(w, p), c.maxRetries, c.factor, now)],
       batch := DropHead(w, p),
       log := w.log + [Errored(p, id, permanent, dead)])
  }

  ghost function Apply(c: Config, w: World, step: Step): World
    requires Enabled(c, w, step)
  {
    match step
    case Store(id, row) => w.(events := w.events[id := row], stored := w.stored[id := row.status])
    case Fetch(p, _, _, ids) => w.(batch := w.batch[p := ids])
    case PublishOk(p) =>
      w.(backoff := w.backoff[p := FRESH], acks := w.acks[p := Reads({}, false)],
         log := w.log + [Published(p, BatchOf(w, p)[0])])
    case Look(p, of) =>
      var id, r := BatchOf(w, p)[0], w.acks[p];
      w.(acks := w.acks[p := if Sees(w.progress, p, of, id) then Reads(r.reached + {of}, false) else Reads(r.reached, true)],
         log := w.log + [Looked(p, id, of)])
    case Ack(p, now) =>
      var id := BatchOf(w, p)[0];
      w.(events := Acknowledged(w.events, id, !w.acks[p].short, now),
         progress := Upserted(w.progress, p, id),
         batch := DropHead(w, p), acks := w.acks - {p},
         log := w.log + [Acked(p, id)])
    case AckRolledBack(p) => w.(batch := DropHead(w, p), acks := w.acks - {p})
    case PublishError(p, permanent, message, now, saved) =>
      AfterError(c, w, p, permanent, message, now, saved)
    case Abandon(p) => w.(batch := w.batch[p := []])
    case Restart => w.(backoff := map[], batch := map[], acks := map[], log := w.log + [Restarted])
    case Requeue(id) => w.(events := Requeued(w.events, id))
    case Cleanup(olderThan) => w.(events := Cleaned(w.events, olderThan))
  }

  /** A run: each step is enabled where it is taken. */
  ghost predicate Legal(c: Config, w: World, steps: seq<Step>)
    decreases |steps|
  {
    steps == [] || (Enabled(c, w, steps[0]) && Legal(c, Apply(c, w, steps[0]), steps[1..]))
  }

  ghost function After(c: Config, w: World, steps: seq<Step>): World
    requires Legal(c, w, steps)
    decreases |steps|
  {
    if steps == [] then w else After(c, Apply(c, w, steps[0]), steps[1..])
  }

  lemma RunCons(c: Config, w: World, step: Step, rest: seq<Step>)
    requires Enabled(c, w, step) && Legal(c, Apply(c, w, step), rest)
    ensures Legal(c, w, [step] + rest) && After(c, w, [step] + rest) == After(c, Apply(c, w, step), rest)
  {
    assert ([step] + rest)[1..] == rest;
  }

  lemma {:induction false} RunAppend(c: Config, w: World, steps: seq<Step>, more: seq<Step>)
    requires Legal(c, w, steps) && Legal(c, After(c, w, steps), more)
    ensures Legal(c, w, steps + more)
    ensures After(c, w, steps + more) == After(c, After(c, w, steps), more)
    decreases |steps|
  {
    if steps == [] {
      assert steps + more == more;
    } else {
      assert (steps + more)[0] == steps[0] && (steps + more)[1..] == steps[1..] + more;
      RunAppend(c, Apply(c, w, steps[0]), steps[1..], more);
    }
  }

  lemma RunSnoc(c: Config, w: World, steps: seq<Step>, step: Step)
    requires Legal(c, w, steps) && Enabled(c, After(c, w, steps), step)
    ensures Legal(c, w, steps + [step])
    ensures After(c, w, steps + [step]) == Apply(c, After(c, w, steps), step)
  {
    assert [step][1..] == [];
    RunAppend(c, w, steps, [step]);
  }

  // ----- What every step keeps -----

  /** A publisher's batch is ascending and lies beyond its mark. */
  ghost predicate BatchFresh(w: World, p: string) {
    && Ascending(BatchOf(w, p))
    && (forall id | id in BatchOf(w, p) :: id in w.stored && Above(w.progress, p, id))
    && (forall id | id in BatchOf(w, p) && id in w.events :: !w.events[id].status.Processing?)
    && (p in w.acks ==> BatchOf(w, p) != [] && Published(p, BatchOf(w, p)[0]) in w.log)
  }

  ghost predicate BatchesFresh(c: Config, w: World) {
    w.acks.Keys <= c.publishers && forall p | p in c.publishers :: BatchFresh(w, p)
  }

  /** The marks an open acknowledgement has found at or past its event still are. */
  ghost predicate ReadsHold(w: World, p: string)
    requires p in w.acks && BatchOf(w, p) != []
  {
    forall of | of in w.acks[p].reached :: Sees(w.progress, p, of, BatchOf(w, p)[0])
  }

  ghost predicate CompletedReached(c: Config, w: World) {
    && (forall id | id in w.events :: id in w.stored)
    && (forall id | id in w.events && w.events[id].status.Completed? :: Reached(w.progress, id, c.publishers))
  }

  /** Marks and log name stored ids only. */
  ghost predicate OnlyStored(w: World) {
    && (forall p | p in w.progress :: w.progress[p] in w.stored)
    && (forall e | e in w.log && !e.Restarted? :: e.id in w.stored)
  }

  /** Every acknowledgement is at or below its publisher's mark. */
  ghost predicate AcksMarked(w: World) {
    forall e | e in w.log && e.Acked? :: Past(w.progress, e.publisher, e.id)
  }

  ghost predicate AcksRecorded(w: World) {
    OnlyStored(w) && AcksMarked(w)
  }

  predicate IsAttempt(e: Entry) {
    e.Published? || e.Errored?
  }

  /** Whatever a publisher attempts after an acknowledgement lies beyond it. */
  ghost predicate AttemptsAdvance(log: seq<Entry>) {
    forall i, j | 0 <= i < j < |log| && log[i].Acked? && IsAttempt(log[j])
               && log[i].publisher == log[j].publisher :: log[i].id < log[j].id
  }

  ghost predicate Safe(c: Config, w: World) {
    && BatchesFresh(c, w) && (forall p | p in w.acks :: ReadsHold(w, p))
    && CompletedReached(c, w) && AcksRecorded(w) && AttemptsAdvance(w.log)
  }

  /** How a step changes one publisher's batch. */
  lemma StepBatch(c: Config, w: World, step: Step, p: string)
    requires Enabled(c, w, step)
    ensures var b, w' := BatchOf(w, p), Apply(c, w, step);
            var b' := BatchOf(w', p);
            || b' == b || b' == []
            || (b != [] && b' == b[1..] && (step.Ack? || step.AckRolledBack? || step.PublishError?)
                && step.publisher == p && p !in w'.acks)
            || (step.Fetch? && step.publisher == p && b' == step.ids && p !in w'.acks)
    ensures var b, w' := BatchOf(w, p), Apply(c, w, step);
            p in w'.acks && b != [] ==> BatchOf(w', p) == b
  {
  }

  /** An acknowledgement that is open after a step was before, or begins with it. */
  lemma StepOpen(c: Config, w: World, step: Step, p: string)
    requires Enabled(c, w, step)
    ensures var w' := Apply(c, w, step);
            p in w'.acks ==>
              || (p in w.acks && (w'.acks[p] == w.acks[p] || (step.Look? && step.publisher == p)))
              || (step == PublishOk(p) && p in c.publishers && BatchOf(w, p) != [] && w'.acks[p] == Reads({}, false)
                  && w'.log == w.log + [Published(p, BatchOf(w, p)[0])])
  {
  }

  /** How a step moves the marks. */
  lemma StepMarks(c: Config, w: World, step: Step)
    requires Enabled(c, w, step)
    ensures Apply(c, w, step).progress ==
            if step.Ack? then Upserted(w.progress, step.publisher, BatchOf(w, step.publisher)[0]) else w.progress
  {
  }

  /** A commit of an acknowledgement of id whose reads found every mark at or past id. */
  predicate Finishes(w: World, step: Step, id: Id) {
    && step.Ack? && step.publisher in w.acks && !w.acks[step.publisher].short
    && BatchOf(w, step.publisher) != [] && BatchOf(w, step.publisher)[0] == id
  }

  /** A step that may take an event from one status to another. */
  predicate Moves(c: Config, w: World, step: Step, id: Id, from: Status, to: Status) {
    match to
    case Pending => from.Failed? && step == Requeue(id)
    case Processing => false
    case Completed => Finishes(w, step, id)
    case Failed =>
      && step.PublishError? && BatchOf(w, step.publisher) != [] && BatchOf(w, step.publisher)[0] == id
      && DeadLetters(c, w, step.publisher, step.permanent)
  }

  /** How a step changes the row of one event. */
  lemma StepRow(c: Config, w: World, step: Step, id: Id)
    requires Enabled(c, w, step)
    ensures var w' := Apply(c, w, step);
            id in w'.events && id !in w.events ==>
              step.Store? && step.id == id && w'.events[id] == step.row
    ensures var w' := Apply(c, w, step);
            id in w'.events && id in w.events && (step.Store? ==> step.id != id) ==>
              var from, to := w.events[id].status, w'.events[id].status;
              to == from || Moves(c, w, step, id, from, to)
    ensures var w' := Apply(c, w, step);
            id in w'.events && id in w.events && (step.Store? ==> step.id != id) && step != Requeue(id) ==>
              w'.events[id].nextRetryAt == w.events[id].nextRetryAt && w'.events[id].retryCount == w.events[id].retryCount
    ensures var w' := Apply(c, w, step);
            id in w.events && id !in w'.events ==> w.events[id].status.Completed?
    ensures var w' := Apply(c, w, step);
            Finishes(w, step, id) && id in w.events ==> id in w'.events && w'.events[id].status.Completed?
  {
  }

  /** The whole row of an event after a step, column by column: a requeue empties
      its retry columns, a finishing acknowledgement completes it, a saved dead
      letter fails it with its message, and only an old completed row goes away. */
  lemma RowExactly(c: Config, w: World, step: Step, id: Id)
    requires Enabled(c, w, step) && id in w.events && (step.Store? ==> step.id != id)
    ensures var row, w' := w.events[id], Apply(c, w, step);
            && (id !in w'.events <==> step.Cleanup? && row.status.Completed? && row.updatedAt < step.olderThan)
            && (id in w'.events ==>
                  w'.events[id] == (
                    if step == Requeue(id) && row.status.Failed? then Row(Pending, 0, None, None, row.updatedAt)
                    else if Finishes(w, step, id) then Row(Completed, row.retryCount, row.nextRetryAt, None, step.now)
                    else if && step.PublishError? && step.saved && BatchOf(w, step.publisher)[0] == id
                            && DeadLetters(c, w, step.publisher, step.permanent)
                    then Row(Failed, row.retryCount, row.nextRetryAt, Some(step.message), step.now)
                    else row))
  {
  }

  /** How a step extends the log and the stored ids. */
  lemma StepLog(c: Config, w: World, step: Step)
    requires Enabled(c, w, step)
    ensures var w' := Apply(c, w, step);
            w'.log == w.log + match step {
              case PublishOk(p) => [Published(p, BatchOf(w, p)[0])]
              case PublishError(p, permanent, _, _, _) =>
                [Errored(p, BatchOf(w, p)[0], permanent, DeadLetters(c, w, p, permanent))]
              case Look(p, of) => [Looked(p, BatchOf(w, p)[0], of)]
              case Ack(p, _) => [Acked(p, BatchOf(w, p)[0])]
              case Restart => [Restarted]
              case _ => []
            }
    ensures Apply(c, w, step).stored == if step.Store? then w.stored[step.id := step.row.status] else w.stored
  {
  }

  lemma StepSafe(c: Config, w: World, step: Step)
    requires Safe(c, w) && Enabled(c, w, step)
    ensures Safe(c, Apply(c, w, step))
  {
    var w' := Apply(c, w, step);
    forall p | p in c.publishers ensures BatchFresh(w', p) { StepBatchFresh(c, w, step, p); }
    forall p | p in w'.acks ensures p in c.publishers && BatchOf(w', p) != [] && ReadsHold(w', p) {
      StepReadsHold(c, w, step, p);
    }
    assert CompletedReached(c, w') by { StepCompletedReached(c, w, step); }
    assert AcksRecorded(w') by { StepOnlyStored(c, w, step); StepAcksMarked(c, w, step); }
    assert AttemptsAdvance(w'.log) by { StepAttempts(c, w, step); }
  }

  lemma StepBatchFresh(c: Config, w: World, step: Step, p: string)
    requires BatchFresh(w, p) && Enabled(c, w, step)
    requires forall id | id in w.events :: id in w.stored
    ensures BatchFresh(Apply(c, w, step), p)
  {
    var w' := Apply(c, w, step);
    StepBatch(c, w, step, p);
    StepOpen(c, w, step, p);
    StepMarks(c, w, step);
    StepLog(c, w, step);
    forall id | id in BatchOf(w', p)
      ensures id in w'.stored && Above(w'.progress, p, id) && (id in w'.events ==> !w'.events[id].status.Processing?)
    {
      StepRow(c, w, step, id);
    }
    hide Apply;
    assert p in w.acks ==> Published(p, BatchOf(w, p)[0]) in w'.log;
  }

  lemma StepReadsHold(c: Config, w: World, step: Step, p: string)
    requires BatchesFresh(c, w) && (p in w.acks ==> ReadsHold(w, p))
    requires Enabled(c, w, step) && p in Apply(c, w, step).acks
    ensures p in c.publishers && BatchOf(Apply(c, w, step), p) != [] && ReadsHold(Apply(c, w, step), p)
  {
    assert p in w.acks ==> BatchFresh(w, p);
    StepBatch(c, w, step, p);
    StepOpen(c, w, step, p);
    StepMarks(c, w, step);
  }

  lemma StepCompletedReached(c: Config, w: World, step: Step)
    requires Safe(c, w) && Enabled(c, w, step)
    ensures CompletedReached(c, Apply(c, w, step))
  {
    if step.Ack? {
      assert BatchFresh(w, step.publisher) && ReadsHold(w, step.publisher);
    }
    StepMarks(c, w, step);
    StepLog(c, w, step);
    var w' := Apply(c, w, step);
    forall id | id in w'.events
      ensures id in w'.stored && (w'.events[id].status.Completed? ==> Reached(w'.progress, id, c.publishers))
    {
      StepRow(c, w, step, id);
    }
  }

  lemma StepOnlyStored(c: Config, w: World, step: Step)
    requires BatchesFresh(c, w) && OnlyStored(w) && Enabled(c, w, step)
    ensures OnlyStored(Apply(c, w, step))
  {
    StepMarks(c, w, step);
    StepLog(c, w, step);
    hide Apply, IsBatch;
    if step.PublishOk? || step.PublishError? || step.Look? || step.Ack? {
      assert BatchFresh(w, step.publisher) && BatchOf(w, step.publisher)[0] in BatchOf(w, step.publisher);
    }
  }

  lemma StepAcksMarked(c: Config, w: World, step: Step)
    requires AcksMarked(w) && Enabled(c, w, step)
    ensures AcksMarked(Apply(c, w, step))
  {
    StepMarks(c, w, step);
    StepLog(c, w, step);
    hide Apply, IsBatch, Enabled;
  }

  lemma StepAttempts(c: Config, w: World, step: Step)
    requires BatchesFresh(c, w) && AcksRecorded(w) && AttemptsAdvance(w.log) && Enabled(c, w, step)
    ensures AttemptsAdvance(Apply(c, w, step).log)
  {
    var w' := Apply(c, w, step);
    StepLog(c, w, step);
    hide Apply, IsBatch;
    if w'.log != w.log {
      if step.PublishOk? || step.PublishError? {
        assert BatchFresh(w, step.publisher) && BatchOf(w, step.publisher)[0] in BatchOf(w, step.publisher);
      }
      AdvanceSnoc(w.log, w'.log[|w.log|]);
    }
  }

  lemma AdvanceSnoc(log: seq<Entry>, e: Entry)
    requires AttemptsAdvance(log)
    requires IsAttempt(e) ==> forall a | a in log && a.Acked? && a.publisher == e.publisher :: a.id < e.id
    ensures AttemptsAdvance(log + [e])
  {
    var log' := log + [e];
    forall i, j | 0 <= i < j < |log'| && log'[i].Acked? && IsAttempt(log'[j]) && log'[i].publisher == log'[j].publisher
      ensures log'[i].id < log'[j].id
    {
      assert log'[i] == log[i] && log[i] in log;
    }
  }

  /** Other publishers' steps leave a publisher's work in hand, its open
      acknowledgement and its backoff alone, and its mark: whatever they do between
      its calls, only the tables it reads have changed. */
  lemma OthersKeepMine(c: Config, w: World, step: Step, p: string)
    requires Enabled(c, w, step) && !step.Restart?
    requires step.Store? || step.Requeue? || step.Cleanup? || step.publisher != p
    ensures var w' := Apply(c, w, step);
            && BatchOf(w', p) == BatchOf(w, p) && BackoffOf(w', p) == BackoffOf(w, p)
            && (p in w'.acks <==> p in w.acks) && (p in w.acks ==> w'.acks[p] == w.acks[p])
            && (forall id :: Past(w'.progress, p, id) <==> Past(w.progress, p, id))
  {
  }
}
