/** Completion: exactly which acknowledgements complete an event. */
module OutboxCompletion {
  import opened Uuid
  import opened OutboxTables
  import opened OutboxProtocol

  /** The marks that the acknowledgements of a log leave behind. */
  function MarksOf(log: seq<Entry>): Progress {
    if log == [] then map[]
    else
      var before := MarksOf(log[..|log| - 1]);
      var last := log[|log| - 1];
      if last.Acked? then Upserted(before, last.publisher, last.id) else before
  }

  lemma MarksSnoc(log: seq<Entry>, e: Entry)
    ensures MarksOf(log + [e]) == if e.Acked? then Upserted(MarksOf(log), e.publisher, e.id) else MarksOf(log)
  {
    assert (log + [e])[..|log|] == log;
  }

  /** Marks never move back. */
  lemma {:induction false} MarksGrow(log: seq<Entry>, r: nat, of: string, id: Id)
    requires r <= |log| && Past(MarksOf(log[..r]), of, id)
    ensures Past(MarksOf(log), of, id)
    decreases |log| - r
  {
    if r == |log| {
      assert log[..r] == log;
    } else {
      assert log[..r + 1] == log[..r] + [log[r]];
      MarksSnoc(log[..r], log[r]);
      MarksGrow(log, r + 1, of, id);
    }
  }

  /** While acknowledging id, p read the mark of another publisher when that had
      been committed at or past id. */
  ghost predicate SawPast(log: seq<Entry>, p: string, of: string, id: Id) {
    exists r :: 0 <= r < |log| && log[r] == Looked(p, id, of) && Past(MarksOf(log[..r]), of, id)
  }

  /** Entry k acknowledges id and its publisher has seen every other mark at or past id. */
  ghost predicate CompletesAt(c: Config, log: seq<Entry>, k: nat, id: Id) {
    && k < |log| && log[k].Acked? && log[k].id == id
    && forall of | of in c.publishers && of != log[k].publisher :: SawPast(log[..k], log[k].publisher, of, id)
  }

  /** What an open acknowledgement knows is what its reads saw. */
  ghost predicate ReadsExact(c: Config, w: World, p: string)
    requires p in w.acks && BatchOf(w, p) != []
  {
    var id := BatchOf(w, p)[0];
    && (forall of | of in w.acks[p].reached && of != p :: SawPast(w.log, p, of, id))
    && (w.acks[p].short ==> exists of :: of in c.publishers && of != p && !SawPast(w.log, p, of, id))
  }

  /** One of the acknowledgements of id completes it. */
  ghost predicate Completing(c: Config, log: seq<Entry>, id: Id) {
    exists k :: CompletesAt(c, log, k, id)
  }

  ghost predicate CompletedById(c: Config, w: World, id: Id) {
    && (id in w.events ==> (w.events[id].status.Completed? <==> Completing(c, w.log, id)))
    && (Completing(c, w.log, id) ==> id in w.stored)
  }

  ghost predicate CompletedExactly(c: Config, w: World) {
    && w.progress == MarksOf(w.log)
    && (forall p | p in w.acks :: BatchOf(w, p) != [] && ReadsExact(c, w, p))
    && forall id :: CompletedById(c, w, id)
  }

  lemma SawSnoc(log: seq<Entry>, e: Entry, p: string, of: string, id: Id)
    ensures SawPast(log + [e], p, of, id) <==>
            SawPast(log, p, of, id) || (e == Looked(p, id, of) && Past(MarksOf(log), of, id))
  {
    var log' := log + [e];
    assert log'[..|log|] == log;
    if r :| 0 <= r < |log| && log[r] == Looked(p, id, of) && Past(MarksOf(log[..r]), of, id) {
      assert log'[r] == log[r] && log'[..r] == log[..r];
    }
    if r :| 0 <= r < |log'| && log'[r] == Looked(p, id, of) && Past(MarksOf(log'[..r]), of, id) {
      if r < |log| { assert log'[r] == log[r] && log'[..r] == log[..r]; }
    }
    if e == Looked(p, id, of) && Past(MarksOf(log), of, id) { assert log'[|log|] == e; }
  }

  /** A mark that is short now was short at every earlier read. */
  lemma SawIsPast(log: seq<Entry>, p: string, of: string, id: Id)
    requires SawPast(log, p, of, id)
    ensures Past(MarksOf(log), of, id)
  {
    var r :| 0 <= r < |log| && log[r] == Looked(p, id, of) && Past(MarksOf(log[..r]), of, id);
    MarksGrow(log, r, of, id);
  }

  lemma CompletesAtSnoc(c: Config, log: seq<Entry>, e: Entry, k: nat, id: Id)
    ensures CompletesAt(c, log + [e], k, id) <==>
            || CompletesAt(c, log, k, id)
            || (k == |log| && e.Acked? && e.id == id
                && forall of | of in c.publishers && of != e.publisher :: SawPast(log, e.publisher, of, id))
  {
    var log' := log + [e];
    if k < |log| {
      assert log'[..k] == log[..k] && log'[k] == log[k];
    } else if k == |log| {
      assert log'[..k] == log;
    }
  }

  lemma StepMarksOf(c: Config, w: World, step: Step)
    requires w.progress == MarksOf(w.log) && Enabled(c, w, step)
    ensures var w' := Apply(c, w, step); w'.progress == MarksOf(w'.log)
  {
    var w' := Apply(c, w, step);
    StepLog(c, w, step);
    StepMarks(c, w, step);
    hide Apply;
    if w'.log != w.log { MarksSnoc(w.log, w'.log[|w.log|]); }
  }

  /** An open acknowledgement's knowledge stays exact. */
  lemma StepReadsExact(c: Config, w: World, step: Step, p: string)
    requires Safe(c, w) && w.progress == MarksOf(w.log) && Enabled(c, w, step)
    requires p in w.acks ==> ReadsExact(c, w, p)
    requires p in Apply(c, w, step).acks
    ensures BatchOf(Apply(c, w, step), p) != [] && ReadsExact(c, Apply(c, w, step), p)
  {
    var w' := Apply(c, w, step);
    assert p in w.acks ==> BatchFresh(w, p);
    StepBatch(c, w, step, p);
    StepOpen(c, w, step, p);
    StepLog(c, w, step);
    if w'.log != w.log {
      var e, id := w'.log[|w.log|], BatchOf(w', p)[0];
      forall of { SawSnoc(w.log, e, p, of, id); }
      if step.Look? && step.publisher == p {
        LookExact(c, w, step.of, p);
      }
    }
  }

  /** A read that finds a mark short leaves an unseen publisher behind. */
  lemma LookExact(c: Config, w: World, of: string, p: string)
    requires Enabled(c, w, Look(p, of)) && ReadsExact(c, w, p) && w.progress == MarksOf(w.log)
    ensures BatchOf(Apply(c, w, Look(p, of)), p) != [] && ReadsExact(c, Apply(c, w, Look(p, of)), p)
  {
    var w', id := Apply(c, w, Look(p, of)), BatchOf(w, p)[0];
    assert w'.log == w.log + [Looked(p, id, of)];
    forall q { SawSnoc(w.log, Looked(p, id, of), p, q, id); }
    if w'.acks[p].short {
      assert !Past(w.progress, of, id);
      assert SawPast(w.log, p, of, id) ==> Past(w.progress, of, id) by {
        if SawPast(w.log, p, of, id) { SawIsPast(w.log, p, of, id); }
      }
      assert !SawPast(w'.log, p, of, id);
    }
  }

  /** The entries that complete id after a step: those before, or this acknowledgement. */
  lemma StepCompletes(c: Config, w: World, step: Step, id: Id)
    requires Enabled(c, w, step)
    requires step.Ack? ==> BatchOf(w, step.publisher) != [] && ReadsExact(c, w, step.publisher)
    ensures Completing(c, Apply(c, w, step).log, id) <==> Completing(c, w.log, id) || Finishes(w, step, id)
  {
    var w' := Apply(c, w, step);
    StepLog(c, w, step);
    hide Apply;
    if w'.log != w.log {
      var e := w'.log[|w.log|];
      forall k: nat { CompletesAtSnoc(c, w.log, e, k, id); }
      if k :| CompletesAt(c, w.log, k, id) { assert CompletesAt(c, w'.log, k, id); }
      if Finishes(w, step, id) { assert CompletesAt(c, w'.log, |w.log|, id); }
    }
  }

  lemma StepCompletedById(c: Config, w: World, step: Step, id: Id)
    requires Safe(c, w) && CompletedById(c, w, id) && Enabled(c, w, step)
    requires step.Ack? ==> BatchOf(w, step.publisher) != [] && ReadsExact(c, w, step.publisher)
    ensures CompletedById(c, Apply(c, w, step), id)
  {
    StepCompletes(c, w, step, id);
    StepStatus(c, w, step, id);
    hide Apply, Enabled, Safe, Completing, ReadsExact;
  }

  lemma StepCompletedExactly(c: Config, w: World, step: Step)
    requires Safe(c, w) && CompletedExactly(c, w) && Enabled(c, w, step)
    ensures CompletedExactly(c, Apply(c, w, step))
  {
    var w' := Apply(c, w, step);
    StepMarksOf(c, w, step);
    forall p | p in w'.acks ensures BatchOf(w', p) != [] && ReadsExact(c, w', p) {
      StepReadsExact(c, w, step, p);
    }
    forall id ensures CompletedById(c, w', id) {
      assert CompletedById(c, w, id);
      StepCompletedById(c, w, step, id);
    }
  }

  /** How a step moves an event into or out of the completed state. */
  lemma StepStatus(c: Config, w: World, step: Step, id: Id)
    requires Safe(c, w) && Enabled(c, w, step)
    ensures var w' := Apply(c, w, step);
            && (id in w.stored ==> id in w'.stored)
            && (Finishes(w, step, id) ==> id in w'.stored)
            && (id in w'.events ==>
                  (w'.events[id].status.Completed? <==>
                   (id in w.events && w.events[id].status.Completed?) || Finishes(w, step, id)))
    ensures id in Apply(c, w, step).events && id !in w.events ==> id !in w.stored
  {
    StepRow(c, w, step, id);
    StepLog(c, w, step);
    hide Apply, IsBatch;
    if step.Ack? || step.PublishError? {
      assert BatchFresh(w, step.publisher) && BatchOf(w, step.publisher)[0] in BatchOf(w, step.publisher);
    }
  }
}
