/** Stranding: exactly when an event can no longer be completed. */
module OutboxStranding {
  import opened Wrappers
  import opened Uuid
  import opened OutboxTables
  import opened OutboxRetry
  import opened OutboxProtocol
  import opened OutboxRuns
  import opened OutboxCompletion
  import opened OutboxAttempts

  /** A run after which the event is completed. */
  ghost predicate CompletesIn(c: Config, w: World, steps: seq<Step>, id: Id) {
    Legal(c, w, steps) && id in After(c, w, steps).events && After(c, w, steps).events[id].status.Completed?
  }

  // ----- Passed by every mark, never completed -----

  /** Once every mark has reached a stored event that is not completed, no step completes it. */
  lemma StepStranded(c: Config, w: World, step: Step, id: Id)
    requires Safe(c, w) && Enabled(c, w, step)
    requires id in w.stored && Reached(w.progress, id, c.publishers)
    requires id in w.events ==> !w.events[id].status.Completed?
    ensures var w' := Apply(c, w, step);
            && id in w'.stored && Reached(w'.progress, id, c.publishers)
            && (id in w'.events ==> !w'.events[id].status.Completed?)
  {
    StepStatus(c, w, step, id);
    StepMarks(c, w, step);
    hide Apply, IsBatch;
    if step.Ack? {
      assert BatchFresh(w, step.publisher) && BatchOf(w, step.publisher)[0] in BatchOf(w, step.publisher);
    }
  }

  lemma {:induction false} RunStranded(c: Config, w: World, steps: seq<Step>, id: Id)
    requires Safe(c, w) && Legal(c, w, steps)
    requires id in w.stored && Reached(w.progress, id, c.publishers)
    requires id in w.events ==> !w.events[id].status.Completed?
    ensures id in After(c, w, steps).events ==> !After(c, w, steps).events[id].status.Completed?
    decreases |steps|
  {
    if steps != [] {
      StepSafe(c, w, steps[0]);
      StepStranded(c, w, steps[0], id);
      RunStranded(c, Apply(c, w, steps[0]), steps[1..], id);
    }
  }

  // ----- No batch, no completion -----

  /** No publisher has anything in hand. */
  ghost predicate Idle(c: Config, w: World) {
    forall p | p in c.publishers :: BatchOf(w, p) == []
  }

  /** With a batch size below one, idle publishers stay idle, and complete nothing. */
  lemma StepIdle(c: Config, w: World, step: Step, id: Id)
    requires Safe(c, w) && Enabled(c, w, step) && Idle(c, w) && c.batchSize < 1
    requires id in w.stored && (id in w.events ==> !w.events[id].status.Completed?)
    ensures var w' := Apply(c, w, step);
            && Idle(c, w') && id in w'.stored && (id in w'.events ==> !w'.events[id].status.Completed?)
  {
    StepStatus(c, w, step, id);
    forall p | p in c.publishers ensures BatchOf(Apply(c, w, step), p) == [] { StepBatch(c, w, step, p); }
    hide Apply;
  }

  lemma {:induction false} RunIdle(c: Config, w: World, steps: seq<Step>, id: Id)
    requires Safe(c, w) && Legal(c, w, steps) && Idle(c, w) && c.batchSize < 1
    requires id in w.stored && (id in w.events ==> !w.events[id].status.Completed?)
    ensures id in After(c, w, steps).events ==> !After(c, w, steps).events[id].status.Completed?
    decreases |steps|
  {
    if steps != [] {
      StepSafe(c, w, steps[0]);
      StepIdle(c, w, steps[0], id);
      RunIdle(c, Apply(c, w, steps[0]), steps[1..], id);
    }
  }

  // ----- Below some mark, completed in some run -----

  /** A publisher whose mark is below a pending event can acknowledge it. */
  lemma AckOne(c: Config, w: World, p: string, id: Id) returns (steps: seq<Step>)
    requires c.batchSize >= 1 && p in c.publishers
    requires id in w.events && w.events[id].status.Pending? && Above(w.progress, p, id)
    ensures Legal(c, w, steps)
    ensures var w' := After(c, w, steps);
            && Past(w'.progress, p, id) && w'.progress - {p} == w.progress - {p} && id in w'.events
            && (w'.events[id].status.Completed? || (w'.events[id] == w.events[id] && OtherBehind(c, w', p, id)))
  {
    var w1 := Apply(c, w, Restart);
    var up := BringUp(c, w1, p, id, 0);
    var w2 := After(c, w1, up);
    var ack := AckHead(c, w2, p);
    RunCons(c, w, Restart, up);
    RunAppend(c, w, [Restart] + up, ack);
    steps := [Restart] + up + ack;
    hide Apply, Enabled, Legal, After;
    var w3 := After(c, w2, ack);
    if OtherBehind(c, w2, p, id) {
      var of :| of in c.publishers && of != p && !Past(w2.progress, of, id);
      assert !Past(w3.progress, of, id);
    }
  }

  /** The publishers whose marks are below the event. */
  function Behind(c: Config, w: World, id: Id): set<string> {
    set p | p in c.publishers && !Past(w.progress, p, id)
  }

  /** Letting the publishers that are behind acknowledge it one by one completes a pending event. */
  lemma {:induction false} CompleteRun(c: Config, w: World, id: Id) returns (steps: seq<Step>)
    requires c.batchSize >= 1 && id in w.events && w.events[id].status.Pending? && Behind(c, w, id) != {}
    ensures CompletesIn(c, w, steps, id)
    decreases Behind(c, w, id)
  {
    var p :| p in Behind(c, w, id);
    var first := AckOne(c, w, p, id);
    var w1 := After(c, w, first);
    if w1.events[id].status.Completed? {
      steps := first;
    } else {
      forall q | q in Behind(c, w1, id) ensures q in Behind(c, w, id) {
        assert q != p && (q in w.progress <==> q in w.progress - {p}) && (q in w1.progress <==> q in w1.progress - {p});
      }
      var of :| of in c.publishers && of != p && !Past(w1.progress, of, id);
      assert of in Behind(c, w1, id) && p !in Behind(c, w1, id);
      var rest := CompleteRun(c, w1, id);
      RunAppend(c, w, first, rest);
      steps := first + rest;
    }
  }

  lemma CompletableRun(c: Config, w: World, id: Id) returns (steps: seq<Step>)
    requires id in w.events && (w.events[id].status.Pending? || w.events[id].status.Failed?)
    requires c.batchSize >= 1 && !Reached(w.progress, id, c.publishers)
    ensures CompletesIn(c, w, steps, id)
  {
    var p :| p in c.publishers && !Past(w.progress, p, id);
    assert p in Behind(c, w, id);
    if w.events[id].status.Pending? {
      steps := CompleteRun(c, w, id);
    } else {
      var w1 := Apply(c, w, Requeue(id));
      assert p in Behind(c, w1, id);
      var rest := CompleteRun(c, w1, id);
      RunCons(c, w, Requeue(id), rest);
      steps := [Requeue(id)] + rest;
    }
  }

  /** A pending or failed event can still be completed exactly when fetches can
      return something and some publisher's mark is below it. Passed by every mark,
      it is stranded. With a batch size below one nothing is completed beyond what
      is already in hand. */
  lemma CompletableIff(c: Config, w: World, id: Id)
    requires Safe(c, w) && id in w.events && (w.events[id].status.Pending? || w.events[id].status.Failed?)
    requires c.batchSize >= 1 || Idle(c, w)
    ensures (exists steps :: CompletesIn(c, w, steps, id)) <==>
            c.batchSize >= 1 && !Reached(w.progress, id, c.publishers)
  {
    if c.batchSize >= 1 && !Reached(w.progress, id, c.publishers) {
      var steps := CompletableRun(c, w, id);
    } else {
      forall steps ensures !CompletesIn(c, w, steps, id) {
        if Legal(c, w, steps) {
          if c.batchSize >= 1 { RunStranded(c, w, steps, id); } else { RunIdle(c, w, steps, id); }
        }
      }
    }
  }
}
