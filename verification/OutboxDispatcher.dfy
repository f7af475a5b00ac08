/** The repository and the dispatcher as they run: methods that update the
    tables and the failure counters, each proved to take protocol steps. */
module OutboxDispatcher {
  import opened Wrappers
  import opened Bytes
  import opened Uuid
  import opened Sets
  import opened OutboxTables
  import opened OutboxRetry
  import opened OutboxProtocol
  import opened OutboxRuns
  import opened Names

  /** The two tables as committed at some moment. */
  datatype Tables = Tables(events: Events, progress: Progress)

  /** In every world with these events a step can be taken, a store if its id is
      new there, and leads to those. */
  ghost predicate TakesStep(events: Events, step: Step, events': Events) {
    forall c: Config, w: World | w.events == events && (step.Store? ==> step.id !in w.stored) ::
      Enabled(c, w, step) && Apply(c, w, step).events == events'
  }

  lemma StoreStep(events: Events, id: Id, row: Row)
    requires !row.status.Completed?
    ensures TakesStep(events, Store(id, row), events[id := row])
  {
  }

  lemma RequeueStep(events: Events, id: Id)
    ensures TakesStep(events, Requeue(id), Requeued(events, id))
  {
    hide Requeued;
  }

  lemma CleanupStep(events: Events, olderThan: int)
    ensures TakesStep(events, Cleanup(olderThan), Cleaned(events, olderThan))
  {
    hide Cleaned;
  }

  /** Removing the disposable rows, and how many are left. */
  lemma CleanedBy(events: Events, doomed: set<Id>, olderThan: int)
    requires forall id :: id in doomed <==> id in events && Disposable(events[id], olderThan)
    ensures events - doomed == Cleaned(events, olderThan) && |doomed| + |events - doomed| == |events|
  {
    var kept := events - doomed;
    assert events.Keys == kept.Keys + doomed && kept.Keys !! doomed;
  }

  class Repository {
    var events: Events
    var progress: Progress

    constructor ()
      ensures events == map[] && progress == map[]
    {
      events, progress := map[], map[];
    }

    /** INSERT; fails on a duplicate primary key. */
    method Store(id: Id, row: Row) returns (ok: bool)
      modifies this`events
      ensures ok <==> id !in old(events)
      ensures events == if ok then old(events)[id := row] else old(events)
      ensures ok && !row.status.Completed? ==> TakesStep(old(events), Step.Store(id, row), events)
    {
      hide TakesStep;
      if !row.status.Completed? { StoreStep(events, id, row); }
      ok := id !in events;
      if ok { events := events[id := row]; }
    }

    method UpdateStatus(id: Id, status: Status, message: Option<string>, now: int)
      modifies this`events
      ensures events == WithStatus(old(events), id, status, message, now)
      ensures events.Keys == old(events).Keys
      ensures forall x | x in events ::
                events[x] == (if x != id then old(events)[x]
                              else Row(status, old(events)[x].retryCount, old(events)[x].nextRetryAt, message, now))
    {
      if id in events {
        events := events[id := events[id].(status := status, errorMessage := message, updatedAt := now)];
      }
    }

    /** The publisher's query, which may fail; a negative LIMIT is an SQL error. */
    method GetPendingEventsForPublisher(publisher: string, limit: int, now: int, fails: bool)
      returns (ok: bool, ids: seq<Id>)
      ensures ok <==> limit >= 0 && !fails
      ensures ok ==> IsBatch(events, progress, publisher, limit, now, ids)
      ensures ok ==> Ascending(ids) && forall id :: id in ids <==> AmongFirst(events, progress, publisher, limit, now, id)
      ensures !ok ==> ids == []
    {
      ids, ok := [], limit >= 0 && !fails;
      if !ok { return; }
      var rest := set id | id in events && Qualifies(events, progress, publisher, now, id);
      while |ids| < limit && rest != {}
        invariant Ascending(ids) && |ids| <= limit
        invariant forall id | id in ids :: Qualifies(events, progress, publisher, now, id)
        invariant forall id | id in rest :: Qualifies(events, progress, publisher, now, id)
        invariant forall id | Qualifies(events, progress, publisher, now, id) :: id in ids || id in rest
        invariant forall id, k | id in rest && 0 <= k < |ids| :: ids[k] < id
        decreases rest
      {
        var next := Least(rest);
        rest := rest - {next};
        ids := ids + [next];
      }
      forall id ensures id in ids <==> AmongFirst(events, progress, publisher, limit, now, id) {
        FetchedIff(events, progress, publisher, limit, now, ids, id);
      }
    }

    /** Reads the marks one by one, each as the transaction sees it at that moment,
        and compares them with the event id as text. Stops at the first that is short. */
    method PublisherProgressReached(publisher: string, id: Id, publishers: seq<string>, meanwhile: nat -> Tables)
      returns (all: bool, looks: nat)
      ensures looks <= |publishers|
      ensures all ==> looks == |publishers|
      ensures !all ==> looks > 0 && !Sees(meanwhile(looks - 1).progress, publisher, publishers[looks - 1], id)
      ensures forall i | 0 <= i < (if all then looks else looks - 1) ::
                Sees(meanwhile(i).progress, publisher, publishers[i], id)
    {
      hide Less, Text;
      looks := 0;
      while looks < |publishers|
        invariant looks <= |publishers|
        invariant forall i | 0 <= i < looks :: Sees(meanwhile(i).progress, publisher, publishers[i], id)
      {
        var of := publishers[looks];
        var seen := meanwhile(looks).progress;
        if of == publisher { seen := Upserted(seen, publisher, id); }
        looks := looks + 1;
        if of !in seen { return false, looks; }
        TextOrder(seen[of], id);
        if Less(Text(seen[of]), Text(id)) { return false, looks; }
      }
      return true, looks;
    }

    /** One transaction: advance the mark, read the marks, and complete the event
        when all are at or past it. Others may commit meanwhile; the tables before
        each read and before the commit are given. A failed transaction adds nothing. */
    method MarkPublished(publisher: string, id: Id, publishers: seq<string>, now: int, commits: bool,
                         meanwhile: nat -> Tables)
      returns (ok: bool, all: bool, looks: nat)
      modifies this
      ensures ok == commits && looks <= |publishers|
      ensures all ==> looks == |publishers|
      ensures !all ==> looks > 0 && !Sees(meanwhile(looks - 1).progress, publisher, publishers[looks - 1], id)
      ensures forall i | 0 <= i < (if all then looks else looks - 1) ::
                Sees(meanwhile(i).progress, publisher, publishers[i], id)
      ensures var last := meanwhile(looks);
              && progress == (if ok then Upserted(last.progress, publisher, id) else last.progress)
              && events == (if ok then Acknowledged(last.events, id, all, now) else last.events)
    {
      all, looks := PublisherProgressReached(publisher, id, publishers, meanwhile);
      var last := meanwhile(looks);
      events, progress, ok := last.events, last.progress, commits;
      if commits {
        if Above(progress, publisher, id) { progress := progress[publisher := id]; }
        if all { UpdateStatus(id, Completed, None, now); }
      }
    }

    method RequeueEvent(id: Id) returns (ok: bool)
      modifies this`events
      ensures ok <==> id in old(events) && old(events)[id].status.Failed?
      ensures events == Requeued(old(events), id)
      ensures events.Keys == old(events).Keys
      ensures forall x | x in events ::
                events[x] == (if x != id || !ok then old(events)[x]
                              else Row(Pending, 0, None, None, old(events)[x].updatedAt))
      ensures TakesStep(old(events), Requeue(id), events)
    {
      hide TakesStep;
      RequeueStep(events, id);
      ok := id in events && events[id].status.Failed?;
      if ok {
        events := events[id := events[id].(status := Pending, retryCount := 0, nextRetryAt := None, errorMessage := None)];
      }
    }

    method DeleteCompletedEvents(olderThan: int) returns (deleted: nat)
      modifies this`events
      ensures events == Cleaned(old(events), olderThan)
      ensures forall x | x in old(events) ::
                if old(events)[x].status.Completed? && old(events)[x].updatedAt < olderThan then x !in events
                else x in events && events[x] == old(events)[x]
      ensures TakesStep(old(events), Cleanup(olderThan), events)
      ensures deleted + |events| == |old(events)|
    {
      hide TakesStep;
      CleanupStep(events, olderThan);
      var doomed := set id | id in events && Disposable(events[id], olderThan);
      CleanedBy(events, doomed, olderThan);
      deleted, events := |doomed|, events - doomed;
    }
  }

  /** How one publish attempt ends, and when. */
  datatype Outcome =
    | Delivered(ackCommits: bool)
    | Rejected(permanent: bool, message: string, saved: bool)
    | Cancelled
  datatype Reply = Reply(outcome: Outcome, now: int)

  /** Steps that one attempt may consist of, given the outcome it meets. */
  ghost predicate Fits(name: string, reply: Reply, steps: seq<Step>) {
    match reply.outcome
    case Cancelled => steps == [Abandon(name)]
    case Rejected(permanent, message, saved) => steps == [PublishError(name, permanent, message, reply.now, saved)]
    case Delivered(commits) => exists order :: steps == AckSteps(name, order, commits, reply.now)
  }

  /** The steps of several attempts, one after the other. */
  function Joined(attempts: seq<seq<Step>>): seq<Step> {
    if attempts == [] then [] else Joined(attempts[..|attempts| - 1]) + attempts[|attempts| - 1]
  }

  /** One piece per attempt, each fitting its reply. */
  ghost predicate AllFit(name: string, replies: nat -> Reply, attempts: seq<seq<Step>>) {
    forall i | 0 <= i < |attempts| :: Fits(name, replies(i), attempts[i])
  }

  lemma OneMore(c: Config, w: World, name: string, replies: nat -> Reply, attempts: seq<seq<Step>>, steps: seq<Step>)
    requires Legal(c, w, Joined(attempts)) && Legal(c, After(c, w, Joined(attempts)), steps)
    requires AllFit(name, replies, attempts) && Fits(name, replies(|attempts|), steps)
    ensures var more := attempts + [steps];
            && AllFit(name, replies, more) && Legal(c, w, Joined(more))
            && After(c, w, Joined(more)) == After(c, After(c, w, Joined(attempts)), steps)
  {
    hide Legal, After, Fits;
    RunAppend(c, w, Joined(attempts), steps);
    assert (attempts + [steps])[..|attempts|] == attempts;
  }

  /** All of `total` attempts are made, unless one is cancelled. (None can follow
      a cancelled one, since it leaves the batch empty.) */
  predicate StopsAt(replies: nat -> Reply, total: nat, n: nat) {
    n <= total && (n < total ==> n > 0 && replies(n - 1).outcome.Cancelled?)
  }

  /** Reading the marks of the publishers by name, up to the first that is short. */
  lemma ReadsFit(c: Config, progress: Progress, p: string, id: Id, names: seq<string>, looks: nat, all: bool)
    requires Alphabetical(names) && Elements(names) == c.publishers && looks <= |names| && (all ==> looks == |names|)
    requires !all ==> looks > 0 && !Sees(progress, p, names[looks - 1], id)
    requires forall i | 0 <= i < (if all then looks else looks - 1) :: Sees(progress, p, names[i], id)
    ensures ReadsInOrder(c, progress, p, id, names[..looks], !all)
    ensures all ==> forall of | of in c.publishers :: of in names[..looks]
  {
    AlphabeticalDistinct(names);
    forall of | of in names[..looks] ensures of in c.publishers { assert of in Elements(names); }
    assert all ==> names[..looks] == names;
  }

  /** One publisher's entries in the two maps; Go's zero values when absent. */
  function View(fails: map<string, nat>, next: map<string, Option<int>>, p: string): Backoff {
    Backoff(if p in fails then fails[p] else 0, if p in next then next[p] else None)
  }

  ghost predicate Agree(fails: map<string, nat>, next: map<string, Option<int>>, backoff: map<string, Backoff>) {
    forall p :: View(fails, next, p) == if p in backoff then backoff[p] else FRESH
  }

  lemma AgreeUpdate(fails: map<string, nat>, next: map<string, Option<int>>, backoff: map<string, Backoff>,
                    p: string, b: Backoff)
    requires Agree(fails, next, backoff)
    ensures Agree(fails[p := b.fails], next[p := b.next], backoff[p := b])
  {
    var fails', next', backoff' := fails[p := b.fails], next[p := b.next], backoff[p := b];
    forall q ensures View(fails', next', q) == if q in backoff' then backoff'[q] else FRESH {
      assert View(fails, next, q) == if q in backoff then backoff[q] else FRESH;
    }
  }

  class Dispatcher {
    const repository: Repository
    const config: Config
    var publisherFailCount: map<string, nat>
    var publisherNextAttempt: map<string, Option<int>>

    constructor (repository: Repository, config: Config)
      ensures this.repository == repository && this.config == config
      ensures Agree(publisherFailCount, publisherNextAttempt, map[])
    {
      this.repository, this.config := repository, config;
      publisherFailCount, publisherNextAttempt := map[], map[];
    }

    /** The dispatcher and its repository are in the given world. */
    ghost predicate In(w: World)
      reads this, repository
    {
      && repository.events == w.events && repository.progress == w.progress
      && Agree(publisherFailCount, publisherNextAttempt, w.backoff)
    }

    /** The configured publishers in alphabetical order. */
    method PublisherNames() returns (names: seq<string>)
      ensures Elements(names) == config.publishers && Alphabetical(names)
    {
      names := [];
      var rest := config.publishers;
      while rest != {}
        invariant rest <= config.publishers && Alphabetical(names)
        invariant forall p | p in names :: p !in rest
        invariant forall p :: p in config.publishers <==> p in names || p in rest
        decreases rest
      {
        var p :| p in rest;
        names := Inserted(names, p);
        rest := rest - {p};
      }
    }

    method HandleDrainPublishError(name: string, id: Id, permanent: bool, message: string,
                                   now: int, saved: bool, ghost w: World)
      requires In(w) && BatchOf(w, name) != [] && BatchOf(w, name)[0] == id
      modifies this`publisherFailCount, this`publisherNextAttempt, repository`events
      ensures In(AfterError(config, w, name, permanent, message, now, saved))
    {
      if permanent {
        if saved { repository.UpdateStatus(id, Failed, Some(message), now); }
        return;
      }
      assert View(publisherFailCount, publisherNextAttempt, name) == BackoffOf(w, name);
      hide Delay, Agree, OnTransient, GivesUp;
      var dead := CountFailure(name, now, w.backoff);
      if dead && saved { repository.UpdateStatus(id, Failed, Some(message), now); }
    }

    /** Counts a transient failure: at the limit the event is given up and the
        counter starts again, below it the publisher backs off. */
    method CountFailure(name: string, now: int, ghost backoff: map<string, Backoff>) returns (dead: bool)
      requires Agree(publisherFailCount, publisherNextAttempt, backoff)
      modifies this`publisherFailCount, this`publisherNextAttempt
      ensures var b := View(old(publisherFailCount), old(publisherNextAttempt), name);
              && (dead <==> GivesUp(b, config.maxRetries))
              && Agree(publisherFailCount, publisherNextAttempt,
                       backoff[name := OnTransient(b, config.maxRetries, config.factor, now)])
    {
      hide Delay, Agree;
      var failCount := (if name in publisherFailCount then publisherFailCount[name] else 0) + 1;
      dead := failCount >= config.maxRetries;
      if dead {
        Record(name, FRESH, backoff);
      } else {
        Record(name, Backoff(failCount, Some(now + Delay(config.factor, failCount))), backoff);
      }
    }

    /** Stores a publisher's failure count and next attempt. */
    method Record(name: string, b: Backoff, ghost backoff: map<string, Backoff>)
      requires Agree(publisherFailCount, publisherNextAttempt, backoff)
      modifies this`publisherFailCount, this`publisherNextAttempt
      ensures Agree(publisherFailCount, publisherNextAttempt, backoff[name := b])
    {
      publisherFailCount := publisherFailCount[name := b.fails];
      publisherNextAttempt := publisherNextAttempt[name := b.next];
      AgreeUpdate(old(publisherFailCount), old(publisherNextAttempt), backoff, name, b);
    }

    /** One drain: from any world with no work in hand for this publisher, its
        calls form a run of the protocol, namely a fetch and then every fetched
        event in order, that leaves no work in hand. */
    method DrainOnceForPublisher(name: string, start: int, fetchFails: bool, replies: nat -> Reply, ghost w: World)
      returns (events: seq<Id>, attempted: nat, ghost steps: seq<Step>, ghost attempts: seq<seq<Step>>)
      requires In(w) && name in config.publishers && name !in w.acks && BatchOf(w, name) == []
      modifies this`publisherFailCount, this`publisherNextAttempt, repository
      ensures Legal(config, w, steps) && In(After(config, w, steps))
      ensures var w' := After(config, w, steps); BatchOf(w', name) == [] && w'.acks == w.acks
      ensures if Waiting(BackoffOf(w, name), start) || config.batchSize < 0 || fetchFails then steps == []
              else && IsBatch(w.events, w.progress, name, config.batchSize, start, events)
                   && StopsAt(replies, |events|, attempted) && |attempts| == attempted && AllFit(name, replies, attempts)
                   && steps == [Fetch(name, config.batchSize, start, events)] + Joined(attempts)
    {
      steps, attempts, events, attempted := [], [], [], 0;
      assert View(publisherFailCount, publisherNextAttempt, name) == BackoffOf(w, name);
      if Waiting(View(publisherFailCount, publisherNextAttempt, name), start) { return; }
      var ok;
      ok, events := repository.GetPendingEventsForPublisher(name, config.batchSize, start, fetchFails);
      if !ok { return; }
      ghost var fetch := Fetch(name, config.batchSize, start, events);
      ghost var fetched := Apply(config, w, fetch);
      hide Apply, Enabled, IsBatch, AllFit, Agree;
      attempted, attempts := DrainBatch(name, events, replies, fetched);
      steps := [fetch] + Joined(attempts);
      RunCons(config, w, fetch, Joined(attempts));
    }

    /** Attempts the events of a fetched batch in order. */
    method DrainBatch(name: string, events: seq<Id>, replies: nat -> Reply, ghost w: World)
      returns (attempted: nat, ghost attempts: seq<seq<Step>>)
      requires In(w) && name in config.publishers && name !in w.acks && BatchOf(w, name) == events
      modifies this`publisherFailCount, this`publisherNextAttempt, repository
      ensures StopsAt(replies, |events|, attempted) && |attempts| == attempted && AllFit(name, replies, attempts)
      ensures Legal(config, w, Joined(attempts))
      ensures var w' := After(config, w, Joined(attempts)); In(w') && BatchOf(w', name) == [] && w'.acks == w.acks
    {
      attempted, attempts := 0, [];
      assert AllFit(name, replies, []) && Joined([]) == [];
      ghost var cur := w;
      hide Apply, Enabled, Fits, Agree, AllFit, Joined, Legal, After;
      while attempted < |events|
        invariant attempted <= |events| && |attempts| == attempted && AllFit(name, replies, attempts)
        invariant In(cur) && BatchOf(cur, name) == events[attempted..] && cur.acks == w.acks
        invariant Legal(config, w, Joined(attempts)) && cur == After(config, w, Joined(attempts))
      {
        var reply := replies(attempted);
        ghost var steps := AttemptOne(name, events[attempted], reply, cur);
        OneMore(config, w, name, replies, attempts, steps);
        attempts, cur := attempts + [steps], After(config, cur, steps);
        attempted := attempted + 1;
        if reply.outcome.Cancelled? { return; }
      }
    }

    /** One attempt and what follows from its outcome. */
    method AttemptOne(name: string, event: Id, reply: Reply, ghost w: World) returns (ghost steps: seq<Step>)
      requires In(w) && name in config.publishers && name !in w.acks
      requires BatchOf(w, name) != [] && BatchOf(w, name)[0] == event
      modifies this`publisherFailCount, this`publisherNextAttempt, repository
      ensures Fits(name, reply, steps) && Legal(config, w, steps)
      ensures var w' := After(config, w, steps);
              && In(w') && w'.acks == w.acks
              && BatchOf(w', name) == if reply.outcome.Cancelled? then [] else BatchOf(w, name)[1..]
    {
      match reply.outcome {
        case Cancelled =>
          steps := [Abandon(name)];
          assert steps[1..] == [];
        case Rejected(permanent, message, saved) =>
          HandleDrainPublishError(name, event, permanent, message, reply.now, saved, w);
          steps := [PublishError(name, permanent, message, reply.now, saved)];
          assert steps[1..] == [];
        case Delivered(commits) =>
          steps := AcknowledgeOne(name, event, reply.now, commits, w);
      }
    }

    /** The success path of one attempt: reset the counters, then acknowledge. */
    method AcknowledgeOne(name: string, event: Id, now: int, commits: bool, ghost w: World) returns (ghost steps: seq<Step>)
      requires In(w) && name in config.publishers && name !in w.acks
      requires BatchOf(w, name) != [] && BatchOf(w, name)[0] == event
      modifies this`publisherFailCount, this`publisherNextAttempt, repository
      ensures (exists order :: steps == AckSteps(name, order, commits, now)) && Legal(config, w, steps)
      ensures var w' := After(config, w, steps);
              In(w') && w'.acks == w.acks && BatchOf(w', name) == BatchOf(w, name)[1..]
    {
      hide ReadsInOrder, Sees, Alphabetical, Legal, After, Agree, Upserted, Acknowledged, LookEntries;
      Record(name, FRESH, w.backoff);
      var names := PublisherNames();
      var tables := Tables(repository.events, repository.progress);
      var ok, all, looks := repository.MarkPublished(name, event, names, now, commits, _ => tables);
      ghost var order := names[..looks];
      ReadsFit(config, w.progress, name, event, names, looks, all);
      AckRun(config, w, name, order, !all, commits, now);
      steps := AckSteps(name, order, commits, now);
      assert w.acks - {name} == w.acks;
    }
  }
}
