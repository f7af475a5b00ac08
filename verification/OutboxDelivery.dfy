/** Delivery: exactly when a publisher's mark cannot pass an event that the
    publisher has not published. */
module OutboxDelivery {
  import opened Uuid
  import opened OutboxTables
  import opened OutboxProtocol
  import opened OutboxRuns

  /** Stored pending, never failed by this publisher, never given up by any. */
  ghost predicate CleanFor(w: World, p: string, id: Id) {
    && id in w.stored && w.stored[id].Pending?
    && forall e | e in w.log && e.Errored? && e.id == id :: e.publisher != p && !e.deadLettered
  }

  /** A mark at or past a clean event means that its publisher published it. */
  ghost predicate BehindMark(w: World, p: string, id: Id) {
    CleanFor(w, p, id) && !Above(w.progress, p, id) ==> Published(p, id) in w.log
  }

  /** A clean event before one in the batch is published or in the batch. */
  ghost predicate NoGap(w: World, p: string, id: Id) {
    CleanFor(w, p, id) ==>
      forall later | later in BatchOf(w, p) && id < later :: Published(p, id) in w.log || id in BatchOf(w, p)
  }

  /** A clean event stays in the table, pending or completed, until every mark has reached it. */
  ghost predicate Kept(c: Config, w: World, p: string, id: Id) {
    CleanFor(w, p, id) ==>
      || (id in w.events && (w.events[id].status.Pending? || w.events[id].status.Completed?))
      || Reached(w.progress, id, c.publishers)
  }

  ghost predicate Tracked(c: Config, w: World, p: string, id: Id) {
    Kept(c, w, p, id) && BehindMark(w, p, id) && NoGap(w, p, id)
  }

  /** The publisher's mark and everything it has in hand lie below id. */
  ghost predicate AheadOf(w: World, p: string, id: Id) {
    Above(w.progress, p, id) && forall x | x in BatchOf(w, p) :: x < id
  }

  /** If the run stores id, it does so ahead of the publisher. */
  ghost predicate StoredAhead(c: Config, w: World, steps: seq<Step>, p: string, id: Id)
    requires Legal(c, w, steps)
    decreases |steps|
  {
    steps == [] ||
    ( && (steps[0].Store? && steps[0].id == id ==> AheadOf(w, p, id))
      && StoredAhead(c, Apply(c, w, steps[0]), steps[1..], p, id))
  }

  // ----- What every step keeps -----

  /** Only storing makes an event clean; nothing else does. */
  lemma CleanBefore(c: Config, w: World, step: Step, p: string, id: Id)
    requires Enabled(c, w, step) && CleanFor(Apply(c, w, step), p, id)
    ensures CleanFor(w, p, id) || (step.Store? && step.id == id)
    ensures step.PublishError? && BatchOf(w, step.publisher)[0] == id ==>
              step.publisher != p && !DeadLetters(c, w, step.publisher, step.permanent)
  {
    var w' := Apply(c, w, step);
    StepLog(c, w, step);
    hide Apply, IsBatch;
    assert forall e | e in w.log :: e in w'.log;
    assert step.PublishError? ==> w'.log[|w.log|] in w'.log;
  }

  lemma StepKept(c: Config, w: World, step: Step, p: string, id: Id)
    requires Safe(c, w) && Kept(c, w, p, id) && Enabled(c, w, step)
    ensures Kept(c, Apply(c, w, step), p, id)
  {
    var w' := Apply(c, w, step);
    if CleanFor(w', p, id) {
      CleanBefore(c, w, step, p, id);
      StepRow(c, w, step, id);
      StepMarks(c, w, step);
      StepLog(c, w, step);
      if step.Store? && step.id == id { assert w'.events[id] == step.row; }
      hide Apply, IsBatch;
    }
  }

  /** A mark that passes a clean event with an acknowledgement leaves it published. */
  lemma AckBehindMark(w: World, p: string, id: Id)
    requires BatchFresh(w, p) && NoGap(w, p, id) && CleanFor(w, p, id) && p in w.acks
    requires Above(w.progress, p, id) && id <= BatchOf(w, p)[0]
    ensures Published(p, id) in w.log
  {
    hide CleanFor;
    var head := BatchOf(w, p)[0];
    assert head in BatchOf(w, p);
    assert forall x | x in BatchOf(w, p) :: head <= x;
  }

  lemma StepBehindMark(c: Config, w: World, step: Step, p: string, id: Id)
    requires BatchesFresh(c, w) && Tracked(c, w, p, id) && Enabled(c, w, step) && p in c.publishers
    requires step.Store? && step.id == id ==> AheadOf(w, p, id)
    ensures BehindMark(Apply(c, w, step), p, id)
  {
    var w' := Apply(c, w, step);
    assert BatchFresh(w, p);
    StepMarks(c, w, step);
    StepLog(c, w, step);
    if CleanFor(w', p, id) && !Above(w'.progress, p, id) {
      CleanBefore(c, w, step, p, id);
      hide Apply, IsBatch, CleanFor, BatchFresh;
      if step.Ack? && step.publisher == p && Above(w.progress, p, id) { AckBehindMark(w, p, id); }
    }
  }

  lemma StepNoGap(c: Config, w: World, step: Step, p: string, id: Id)
    requires Safe(c, w) && Tracked(c, w, p, id) && Enabled(c, w, step) && p in c.publishers
    requires step.Store? && step.id == id ==> AheadOf(w, p, id)
    ensures NoGap(Apply(c, w, step), p, id)
  {
    var w' := Apply(c, w, step);
    assert BatchFresh(w, p);
    StepBatch(c, w, step, p);
    StepLog(c, w, step);
    if CleanFor(w', p, id) {
      CleanBefore(c, w, step, p, id);
      forall later | later in BatchOf(w', p) && id < later
        ensures Published(p, id) in w'.log || id in BatchOf(w', p)
      {
        if step.Fetch? && step.publisher == p {
          FetchNoGap(c, w, p, step.limit, step.now, step.ids, id, later);
        } else {
          hide Apply, IsBatch;
          var b, b' := BatchOf(w, p), BatchOf(w', p);
          assert later in b;
          assert id in b ==> id in b' || id == b[0];
        }
      }
    }
  }

  /** A fetched batch skips no clean event. */
  lemma FetchNoGap(c: Config, w: World, p: string, limit: nat, now: int, ids: seq<Id>, id: Id, later: Id)
    requires Tracked(c, w, p, id) && p in c.publishers
    requires CompletedReached(c, w) && IsBatch(w.events, w.progress, p, limit, now, ids)
    requires CleanFor(w, p, id) && later in ids && id < later
    ensures Published(p, id) in w.log || id in ids
  {
    if Above(w.progress, p, id) && id !in ids {
      assert !Past(w.progress, p, id);
      assert Qualifies(w.events, w.progress, p, now, id);
    }
  }

  lemma StepTracked(c: Config, w: World, step: Step, p: string, id: Id)
    requires Safe(c, w) && Tracked(c, w, p, id) && Enabled(c, w, step) && p in c.publishers
    requires step.Store? && step.id == id ==> AheadOf(w, p, id)
    ensures Tracked(c, Apply(c, w, step), p, id)
  {
    StepKept(c, w, step, p, id);
    StepBehindMark(c, w, step, p, id);
    StepNoGap(c, w, step, p, id);
  }

  lemma {:induction false} RunTracked(c: Config, w: World, steps: seq<Step>, p: string, id: Id)
    requires Safe(c, w) && Tracked(c, w, p, id) && p in c.publishers
    requires Legal(c, w, steps) && StoredAhead(c, w, steps, p, id)
    ensures Tracked(c, After(c, w, steps), p, id)
    decreases |steps|
  {
    if steps != [] {
      StepTracked(c, w, steps[0], p, id);
      StepSafe(c, w, steps[0]);
      RunTracked(c, Apply(c, w, steps[0]), steps[1..], p, id);
    }
  }

  /** An id is stored once. */
  lemma {:induction false} StoredOnce(c: Config, w: World, steps: seq<Step>, p: string, id: Id)
    requires Legal(c, w, steps) && id in w.stored
    ensures StoredAhead(c, w, steps, p, id)
    decreases |steps|
  {
    if steps != [] {
      StepLog(c, w, steps[0]);
      StoredOnce(c, Apply(c, w, steps[0]), steps[1..], p, id);
    }
  }

  lemma {:induction false} StoredAheadAppend(c: Config, w: World, steps: seq<Step>, more: seq<Step>, p: string, id: Id)
    requires Legal(c, w, steps) && Legal(c, After(c, w, steps), more)
    requires StoredAhead(c, w, steps, p, id) && StoredAhead(c, After(c, w, steps), more, p, id)
    ensures Legal(c, w, steps + more) && StoredAhead(c, w, steps + more, p, id)
    decreases |steps|
  {
    RunAppend(c, w, steps, more);
    if steps == [] {
      assert steps + more == more;
    } else {
      assert (steps + more)[0] == steps[0] && (steps + more)[1..] == steps[1..] + more;
      StoredAheadAppend(c, Apply(c, w, steps[0]), steps[1..], more, p, id);
    }
  }

  // ----- Runs that pass an event by -----

  /** Only this publisher's own events in hand were touched, and none failed. */
  ghost predicate Quiet(w: World, w': World, p: string) {
    && w'.stored == w.stored
    && forall e | e in w'.log :: e in w.log || (!e.Errored? && !e.Restarted? && e.publisher == p && e.id in BatchOf(w, p))
  }

  /** A publisher with a later event in hand can move its mark past id without
      attempting it. */
  lemma {:induction false} PassRun(c: Config, w: World, p: string, id: Id, later: Id) returns (steps: seq<Step>)
    requires p in c.publishers && (p in w.acks ==> BatchOf(w, p) != [])
    requires later in BatchOf(w, p) && id < later
    ensures Legal(c, w, steps) && !Above(After(c, w, steps).progress, p, id) && Quiet(w, After(c, w, steps), p)
    decreases |BatchOf(w, p)|, p !in w.acks
  {
    var head := BatchOf(w, p)[0];
    if p !in w.acks {
      var w1 := Apply(c, w, PublishOk(p));
      var rest := PassRun(c, w1, p, id, later);
      RunCons(c, w, PublishOk(p), rest);
      steps := [PublishOk(p)] + rest;
    } else if id < head {
      steps := CommitRun(c, w, p);
    } else {
      var w1 := Apply(c, w, AckRolledBack(p));
      assert later in BatchOf(w1, p);
      var rest := PassRun(c, w1, p, id, later);
      RunCons(c, w, AckRolledBack(p), rest);
      steps := [AckRolledBack(p)] + rest;
    }
  }

  // ----- The exact condition -----

  /** A pending event about to be stored is safe with a publisher, in that no run
      moves its mark past the event unpublished unless an attempt fails, exactly
      when the publisher's mark and everything it has in hand lie below the event. */
  lemma DeliveredIff(c: Config, w: World, p: string, id: Id, row: Row)
    requires Safe(c, w) && p in c.publishers && Enabled(c, w, Store(id, row)) && row.status.Pending?
    ensures AheadOf(w, p, id) <==>
            forall steps | Legal(c, Apply(c, w, Store(id, row)), steps) ::
              BehindMark(After(c, Apply(c, w, Store(id, row)), steps), p, id)
  {
    var w1 := Apply(c, w, Store(id, row));
    StepSafe(c, w, Store(id, row));
    if AheadOf(w, p, id) {
      StepTracked(c, w, Store(id, row), p, id);
      forall steps | Legal(c, w1, steps) ensures BehindMark(After(c, w1, steps), p, id) {
        StoredOnce(c, w1, steps, p, id);
        RunTracked(c, w1, steps, p, id);
      }
    } else {
      var steps := NotAheadPasses(c, w, p, id, row);
    }
  }

  lemma NotAheadPasses(c: Config, w: World, p: string, id: Id, row: Row) returns (steps: seq<Step>)
    requires Safe(c, w) && p in c.publishers && Enabled(c, w, Store(id, row)) && row.status.Pending?
    requires !AheadOf(w, p, id)
    ensures var w1 := Apply(c, w, Store(id, row)); Legal(c, w1, steps) && !BehindMark(After(c, w1, steps), p, id)
  {
    var w1 := Apply(c, w, Store(id, row));
    assert BatchFresh(w, p) && BatchOf(w1, p) == BatchOf(w, p) && w1.log == w.log;
    if !Above(w.progress, p, id) {
      steps := [];
    } else {
      var later :| later in BatchOf(w, p) && id < later;
      steps := PassRun(c, w1, p, id, later);
    }
  }
}
