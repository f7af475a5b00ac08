/** Attempts: exactly when a publisher can still attempt an event, in particular
    one whose last attempt failed. */
module OutboxAttempts {
  import opened Uuid
  import opened OutboxTables
  import opened OutboxRetry
  import opened OutboxProtocol
  import opened OutboxRuns

  /** What the publisher has fetched and not yet attempted. */
  function Remaining(w: World, p: string): seq<Id> {
    if p in w.acks && BatchOf(w, p) != [] then BatchOf(w, p)[1..] else BatchOf(w, p)
  }

  /** The event is above the mark and pending or failed; if nobody is to requeue
      it, a failed one has a retry time. */
  predicate DueSoon(w: World, p: string, id: Id, aided: bool) {
    && id in w.events && Above(w.progress, p, id)
    && (w.events[id].status.Pending? || (w.events[id].status.Failed? && (aided || w.events[id].nextRetryAt.Some?)))
  }

  /** The event is in hand, or due soon with a batch size that lets fetches return
      anything. */
  predicate Attemptable(c: Config, w: World, p: string, id: Id, aided: bool) {
    id in Remaining(w, p) || (c.batchSize >= 1 && DueSoon(w, p, id, aided))
  }

  predicate IsAttemptOn(e: Entry, p: string, id: Id) {
    IsAttempt(e) && e.publisher == p && e.id == id
  }

  /** Between two worlds the publisher has attempted the event. */
  ghost predicate Attempted(w: World, w': World, p: string, id: Id) {
    exists k :: |w.log| <= k < |w'.log| && IsAttemptOn(w'.log[k], p, id)
  }

  /** A run in which the publisher attempts the event. */
  ghost predicate AttemptsIn(c: Config, w: World, steps: seq<Step>, p: string, id: Id) {
    Legal(c, w, steps) && Attempted(w, After(c, w, steps), p, id)
  }

  /** Such a run in which nobody requeues the event. */
  ghost predicate AttemptsUnaided(c: Config, w: World, steps: seq<Step>, p: string, id: Id) {
    Requeue(id) !in steps && AttemptsIn(c, w, steps, p, id)
  }

  // ----- What cannot be attempted never is -----

  lemma StepRemaining(c: Config, w: World, step: Step, p: string, id: Id)
    requires Enabled(c, w, step) && id in Remaining(Apply(c, w, step), p)
    ensures id in Remaining(w, p) || (step.Fetch? && step.publisher == p && id in step.ids)
  {
  }

  /** An event that is not due soon does not become so. */
  lemma StepNotDue(c: Config, w: World, step: Step, p: string, id: Id, aided: bool)
    requires Safe(c, w) && Enabled(c, w, step) && id in w.stored && !DueSoon(w, p, id, aided)
    requires aided || step != Requeue(id)
    ensures !DueSoon(Apply(c, w, step), p, id, aided)
  {
    StepRow(c, w, step, id);
    StepMarks(c, w, step);
    hide Apply, IsBatch;
    if step.PublishError? {
      assert BatchFresh(w, step.publisher) && BatchOf(w, step.publisher)[0] in BatchOf(w, step.publisher);
    }
  }

  lemma StepNoAttempt(c: Config, w: World, step: Step, p: string, id: Id)
    requires Enabled(c, w, step) && id !in Remaining(w, p)
    ensures !Attempted(w, Apply(c, w, step), p, id)
  {
    StepLog(c, w, step);
    hide Apply, IsBatch;
  }

  lemma StepUnattemptable(c: Config, w: World, step: Step, p: string, id: Id, aided: bool)
    requires Safe(c, w) && Enabled(c, w, step) && id in w.stored && !Attemptable(c, w, p, id, aided)
    requires aided || step != Requeue(id)
    ensures !Attemptable(c, Apply(c, w, step), p, id, aided)
    ensures !Attempted(w, Apply(c, w, step), p, id)
  {
    StepNoAttempt(c, w, step, p, id);
    if !DueSoon(w, p, id, aided) { StepNotDue(c, w, step, p, id, aided); }
    if id in Remaining(Apply(c, w, step), p) { StepFetched(c, w, step, p, id, aided); }
    hide Apply;
  }

  /** What comes into a publisher's hands was due. */
  lemma StepFetched(c: Config, w: World, step: Step, p: string, id: Id, aided: bool)
    requires Enabled(c, w, step) && id in Remaining(Apply(c, w, step), p)
    ensures Attemptable(c, w, p, id, aided)
  {
    StepRemaining(c, w, step, p, id);
    hide Apply;
  }

  lemma LogKept(c: Config, w: World, steps: seq<Step>)
    requires Legal(c, w, steps)
    ensures |w.log| <= |After(c, w, steps).log| && After(c, w, steps).log[..|w.log|] == w.log
    decreases |steps|
  {
    if steps != [] {
      var w' := Apply(c, w, steps[0]);
      StepLog(c, w, steps[0]);
      LogKept(c, w', steps[1..]);
      assert After(c, w', steps[1..]).log[..|w'.log|][..|w.log|] == w'.log[..|w.log|];
    }
  }

  lemma {:induction false} NeverAttempted(c: Config, w: World, steps: seq<Step>, p: string, id: Id, aided: bool)
    requires Safe(c, w) && Legal(c, w, steps) && p in c.publishers && id in w.stored && !Attemptable(c, w, p, id, aided)
    requires aided || Requeue(id) !in steps
    ensures !Attempted(w, After(c, w, steps), p, id)
    decreases |steps|
  {
    if steps != [] {
      var w', w'' := Apply(c, w, steps[0]), After(c, w, steps);
      StepSafe(c, w, steps[0]);
      StepUnattemptable(c, w, steps[0], p, id, aided);
      StepLog(c, w, steps[0]);
      NeverAttempted(c, w', steps[1..], p, id, aided);
      LogKept(c, w', steps[1..]);
      forall k | |w.log| <= k < |w'.log| ensures w''.log[k] == w'.log[k] {
        assert w''.log[..|w'.log|][k] == w'.log[k];
      }
    }
  }

  // ----- What can be attempted is, in some run -----

  /** A publisher whose next event is id can attempt it. */
  lemma AttemptNext(c: Config, w: World, steps: seq<Step>, p: string, id: Id) returns (steps': seq<Step>)
    requires Legal(c, w, steps)
    requires var w' := After(c, w, steps);
             p in c.publishers && p !in w'.acks && BatchOf(w', p) != [] && BatchOf(w', p)[0] == id
    ensures AttemptsIn(c, w, steps', p, id) && (NoRequeue(steps) ==> NoRequeue(steps'))
  {
    steps' := steps + [PublishOk(p)];
    RunSnoc(c, w, steps, PublishOk(p));
    LogKept(c, w, steps);
    assert IsAttemptOn(After(c, w, steps').log[|After(c, w, steps).log|], p, id);
  }

  /** A publisher can acknowledge what it has in hand until it attempts id. */
  lemma DrainTo(c: Config, w: World, p: string, id: Id) returns (steps: seq<Step>)
    requires p in c.publishers && BatchFresh(w, p) && id in Remaining(w, p)
    ensures AttemptsIn(c, w, steps, p, id) && NoRequeue(steps)
  {
    var first := [];
    if p in w.acks { first := CommitRun(c, w, p); }
    var w1 := After(c, w, first);
    assert BatchOf(w1, p) == Remaining(w, p);
    var rest := AckUpTo(c, w1, p, id);
    RunAppend(c, w, first, rest);
    steps := AttemptNext(c, w, first + rest, p, id);
  }

  /** An event above the mark that is pending, or failed with its retry time come,
      can be attempted after a restart. */
  lemma AttemptRun(c: Config, w: World, p: string, id: Id, now: int) returns (steps: seq<Step>)
    requires c.batchSize >= 1 && p in c.publishers && Offered(w.events, w.progress, p, now, id)
    ensures AttemptsIn(c, w, steps, p, id) && NoRequeue(steps)
  {
    var w1 := Apply(c, w, Restart);
    var rest := BringUp(c, w1, p, id, now);
    RunCons(c, w, Restart, rest);
    steps := AttemptNext(c, w, [Restart] + rest, p, id);
  }

  /** The time from which a row is fetched, if it is. */
  function DueAt(row: Row): int {
    if row.nextRetryAt.Some? then row.nextRetryAt.value else 0
  }

  lemma AttemptableRun(c: Config, w: World, p: string, id: Id, aided: bool) returns (steps: seq<Step>)
    requires BatchFresh(w, p) && p in c.publishers && Attemptable(c, w, p, id, aided)
    ensures AttemptsIn(c, w, steps, p, id) && (aided || Requeue(id) !in steps)
  {
    if id in Remaining(w, p) {
      steps := DrainTo(c, w, p, id);
    } else if DueSoon(w, p, id, false) {
      steps := AttemptRun(c, w, p, id, DueAt(w.events[id]));
    } else {
      var rest := AttemptRun(c, Apply(c, w, Requeue(id)), p, id, 0);
      RunCons(c, w, Requeue(id), rest);
      steps := [Requeue(id)] + rest;
      assert Apply(c, w, Requeue(id)).log == w.log;
    }
  }

  /** In any state, a publisher attempts a stored event in some continuation
      exactly when it has it in hand, or fetches can return something, its mark is
      below the event and the event is pending or failed. So a failed attempt can be
      repeated exactly until the publisher acknowledges a later event. */
  lemma AttemptedIff(c: Config, w: World, p: string, id: Id)
    requires Safe(c, w) && p in c.publishers && id in w.stored
    ensures (exists steps :: AttemptsIn(c, w, steps, p, id)) <==>
            || id in Remaining(w, p)
            || (&& c.batchSize >= 1 && id in w.events && (p in w.progress ==> w.progress[p] < id)
                && (w.events[id].status.Pending? || w.events[id].status.Failed?))
  {
    if Attemptable(c, w, p, id, true) {
      assert BatchFresh(w, p);
      var steps := AttemptableRun(c, w, p, id, true);
    } else {
      forall steps ensures !AttemptsIn(c, w, steps, p, id) {
        if Legal(c, w, steps) { NeverAttempted(c, w, steps, p, id, true); }
      }
    }
  }

  /** Without being requeued, a failed event is attempted again exactly when it also
      has a retry time. */
  lemma AttemptedUnaidedIff(c: Config, w: World, p: string, id: Id)
    requires Safe(c, w) && p in c.publishers && id in w.stored
    ensures (exists steps :: AttemptsUnaided(c, w, steps, p, id)) <==>
            || id in Remaining(w, p)
            || (&& c.batchSize >= 1 && id in w.events && (p in w.progress ==> w.progress[p] < id)
                && (|| w.events[id].status.Pending?
                    || (w.events[id].status.Failed? && w.events[id].nextRetryAt.Some?)))
  {
    if Attemptable(c, w, p, id, false) {
      assert BatchFresh(w, p);
      var steps := AttemptableRun(c, w, p, id, false);
      assert AttemptsUnaided(c, w, steps, p, id);
    } else {
      forall steps ensures !AttemptsUnaided(c, w, steps, p, id) {
        if Legal(c, w, steps) && Requeue(id) !in steps { NeverAttempted(c, w, steps, p, id, false); }
      }
    }
  }
}
