/** The outbox theorems: statements about every run from the empty tables. */
module OutboxTheorems {
  import opened Wrappers
  import opened Uuid
  import opened OutboxTables
  import opened OutboxRetry
  import opened OutboxProtocol
  import opened OutboxDelivery
  import opened OutboxCompletion
  import opened OutboxRetryLaw
  import opened OutboxAttempts
  import opened OutboxStranding

  // ----- Runs keep the invariants -----

  lemma {:induction false} RunKeeps(c: Config, w: World, steps: seq<Step>)
    requires Safe(c, w) && CompletedExactly(c, w) && CountsRetries(c, w) && Legal(c, w, steps)
    ensures Safe(c, After(c, w, steps))
    ensures CompletedExactly(c, After(c, w, steps))
    ensures CountsRetries(c, After(c, w, steps))
    decreases |steps|
  {
    if steps != [] {
      StepSafe(c, w, steps[0]);
      StepCompletedExactly(c, w, steps[0]);
      StepCountsRetries(c, w, steps[0]);
      RunKeeps(c, Apply(c, w, steps[0]), steps[1..]);
    }
  }

  lemma InitialKeeps(c: Config, steps: seq<Step>)
    requires Legal(c, INITIAL, steps)
    ensures Safe(c, After(c, INITIAL, steps))
    ensures CompletedExactly(c, After(c, INITIAL, steps))
    ensures CountsRetries(c, After(c, INITIAL, steps))
  {
    RunKeeps(c, INITIAL, steps);
  }

  // ----- Theorems -----

  /** In every run, for a publisher that an event was stored ahead of, that never
      failed it, and if none gave it up: a mark at or past the event means that the
      publisher published it, and so does its completion, whichever acknowledgements
      were lost. By DeliveredIff, being stored ahead is necessary too. */
  lemma CompletedWasPublished(c: Config, steps: seq<Step>, p: string, id: Id)
    requires Legal(c, INITIAL, steps) && p in c.publishers && StoredAhead(c, INITIAL, steps, p, id)
    requires CleanFor(After(c, INITIAL, steps), p, id)
    ensures var w := After(c, INITIAL, steps);
            && (!Above(w.progress, p, id) ==> Published(p, id) in w.log)
            && (id in w.events && w.events[id].status.Completed? ==> Published(p, id) in w.log)
  {
    InitialKeeps(c, steps);
    RunTracked(c, INITIAL, steps, p, id);
    var w := After(c, INITIAL, steps);
    assert id in w.events && w.events[id].status.Completed? ==> Past(w.progress, p, id);
  }

  /** Ids become visible in increasing order. */
  ghost predicate InOrder(c: Config, w: World, steps: seq<Step>)
    requires Legal(c, w, steps)
    decreases |steps|
  {
    steps == [] ||
    ( && (steps[0].Store? ==> forall id | id in w.stored :: id < steps[0].id)
      && InOrder(c, Apply(c, w, steps[0]), steps[1..]))
  }

  /** Then every event is stored ahead of every publisher. */
  lemma {:induction false} InOrderIsAhead(c: Config, w: World, steps: seq<Step>, p: string, id: Id)
    requires Safe(c, w) && Legal(c, w, steps) && InOrder(c, w, steps) && p in c.publishers
    ensures StoredAhead(c, w, steps, p, id)
    decreases |steps|
  {
    if steps != [] {
      assert BatchFresh(w, p);
      StepSafe(c, w, steps[0]);
      InOrderIsAhead(c, Apply(c, w, steps[0]), steps[1..], p, id);
    }
  }

  /** A completed event has every mark at or past it. */
  lemma CompletedIsReached(c: Config, steps: seq<Step>, id: Id)
    requires Legal(c, INITIAL, steps)
    requires id in After(c, INITIAL, steps).events && After(c, INITIAL, steps).events[id].status.Completed?
    ensures Reached(After(c, INITIAL, steps).progress, id, c.publishers)
  {
    InitialKeeps(c, steps);
  }

  /** Once completed, an event stays completed until cleanup removes its row: it
      never turns back to failed or pending. */
  lemma CompletedIsFinal(c: Config, steps: seq<Step>, more: seq<Step>, id: Id)
    requires Legal(c, INITIAL, steps) && Legal(c, After(c, INITIAL, steps), more)
    requires id in After(c, INITIAL, steps).events && After(c, INITIAL, steps).events[id].status.Completed?
    ensures var w := After(c, After(c, INITIAL, steps), more);
            id in w.events ==> w.events[id].status.Completed?
  {
    InitialKeeps(c, steps);
    CompletedStays(c, After(c, INITIAL, steps), more, id);
  }

  lemma {:induction false} CompletedStays(c: Config, w: World, steps: seq<Step>, id: Id)
    requires Safe(c, w) && Legal(c, w, steps)
    requires id in w.stored && (id in w.events ==> w.events[id].status.Completed?)
    ensures id in After(c, w, steps).events ==> After(c, w, steps).events[id].status.Completed?
    decreases |steps|
  {
    if steps != [] {
      StepSafe(c, w, steps[0]);
      StepStatus(c, w, steps[0], id);
      CompletedStays(c, Apply(c, w, steps[0]), steps[1..], id);
    }
  }

  /** After a publisher's ack of one event commits, all its later attempts are
      on later events: it never attempts that event again, requeued or not. */
  lemma NoAttemptAfterAck(c: Config, steps: seq<Step>, i: nat, j: nat)
    requires Legal(c, INITIAL, steps)
    requires i < j < |After(c, INITIAL, steps).log|
    requires After(c, INITIAL, steps).log[i].Acked? && IsAttempt(After(c, INITIAL, steps).log[j])
    requires After(c, INITIAL, steps).log[i].publisher == After(c, INITIAL, steps).log[j].publisher
    ensures After(c, INITIAL, steps).log[i].id < After(c, INITIAL, steps).log[j].id
  {
    InitialKeeps(c, steps);
  }

  /** An event in the table is completed exactly when one of its own
      acknowledgements committed whose publisher, while acknowledging it, read every
      other mark after that had been committed at or past the event. */
  lemma CompletedIff(c: Config, steps: seq<Step>, id: Id)
    requires Legal(c, INITIAL, steps) && id in After(c, INITIAL, steps).events
    ensures var w := After(c, INITIAL, steps);
            w.events[id].status.Completed? <==> exists k :: CompletesAt(c, w.log, k, id)
  {
    InitialKeeps(c, steps);
    assert CompletedById(c, After(c, INITIAL, steps), id);
  }

  /** A transient failure dead-letters exactly at every MaxRetries-th since the
      publisher's last success or restart, permanent ones always; the counter
      stays below the limit. */
  lemma DeadLettersExactly(c: Config, steps: seq<Step>, p: string)
    requires Legal(c, INITIAL, steps)
    ensures var w := After(c, INITIAL, steps);
            && (forall k | 0 <= k < |w.log| && w.log[k].Errored? :: JudgedRight(c, w.log, k))
            && BackoffOf(w, p).fails == TransientsIn(w.log, p) % Period(c) < Period(c)
  {
    InitialKeeps(c, steps);
  }

  // ----- Where completion fails -----

  /** Only configured publishers make attempts. */
  lemma {:induction false} AttemptsByPublishers(c: Config, w: World, steps: seq<Step>, k: nat)
    requires Legal(c, w, steps) && |w.log| <= k < |After(c, w, steps).log| && IsAttempt(After(c, w, steps).log[k])
    ensures After(c, w, steps).log[k].publisher in c.publishers
    decreases |steps|
  {
    if steps != [] {
      var w', w'' := Apply(c, w, steps[0]), After(c, w, steps);
      StepLog(c, w, steps[0]);
      LogKept(c, w', steps[1..]);
      if k < |w'.log| {
        assert w''.log[..|w'.log|][k] == w'.log[k];
      } else {
        AttemptsByPublishers(c, w', steps[1..], k);
      }
    }
  }

  /** An event that every mark has passed without completing it is stranded: no
      run completes it or attempts it again. */
  lemma PassedIsStranded(c: Config, w: World, steps: seq<Step>, id: Id)
    requires Safe(c, w) && Legal(c, w, steps)
    requires id in w.stored && Reached(w.progress, id, c.publishers)
    requires id in w.events ==> !w.events[id].status.Completed?
    ensures var w' := After(c, w, steps);
            && (id in w'.events ==> !w'.events[id].status.Completed?)
            && |w.log| <= |w'.log|
            && forall k | |w.log| <= k < |w'.log| && IsAttempt(w'.log[k]) :: w'.log[k].id != id
  {
    RunStranded(c, w, steps, id);
    LogKept(c, w, steps);
    var w' := After(c, w, steps);
    forall k | |w.log| <= k < |w'.log| && IsAttempt(w'.log[k]) ensures w'.log[k].id != id {
      var p := w'.log[k].publisher;
      AttemptsByPublishers(c, w, steps, k);
      assert BatchFresh(w, p) && Past(w.progress, p, id);
      NeverAttempted(c, w, steps, p, id, true);
      assert !IsAttemptOn(w'.log[k], p, id);
    }
  }
}
