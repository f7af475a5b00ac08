/** Runs that show why the premises of the outbox theorems are needed. */
module OutboxExamples {
  import opened Wrappers
  import opened Uuid
  import opened OutboxTables
  import opened OutboxRetry
  import opened OutboxProtocol
  import opened OutboxRuns
  import opened OutboxDelivery
  import opened OutboxTheorems

  const ONE: Id := 1
  const TWO: Id := 2
  const ROW := Row(Pending, 0, None, None, 0)

  /** A run and where it leads. */
  ghost predicate Run(c: Config, steps: seq<Step>, w: World) {
    Legal(c, INITIAL, steps) && w == After(c, INITIAL, steps)
  }

  /** A run that stores ONE, if at all, ahead of every publisher. */
  ghost predicate Ahead(c: Config, steps: seq<Step>) {
    Legal(c, INITIAL, steps) && forall p | p in c.publishers :: StoredAhead(c, INITIAL, steps, p, ONE)
  }

  /** One more step of a run. */
  lemma Extend(c: Config, steps: seq<Step>, w: World, step: Step) returns (steps': seq<Step>, w': World)
    requires Run(c, steps, w) && Enabled(c, w, step)
    ensures w' == Apply(c, w, step) && Run(c, steps', w')
    ensures Ahead(c, steps) && (step.Store? && step.id == ONE ==> forall p | p in c.publishers :: AheadOf(w, p, ONE))
            ==> Ahead(c, steps')
  {
    steps', w' := steps + [step], Apply(c, w, step);
    RunSnoc(c, INITIAL, steps, step);
    if Ahead(c, steps) && (step.Store? && step.id == ONE ==> forall p | p in c.publishers :: AheadOf(w, p, ONE)) {
      forall p | p in c.publishers ensures StoredAhead(c, INITIAL, steps', p, ONE) {
        assert [step][1..] == [];
        StoredAheadAppend(c, INITIAL, steps, [step], p, ONE);
      }
    }
  }

  /** An uninterrupted publish and acknowledgement of the head of a batch. */
  lemma ExtendAck(c: Config, steps: seq<Step>, w: World, p: string, order: seq<string>, short: bool, commits: bool)
    returns (steps': seq<Step>, w': World)
    requires Run(c, steps, w) && p in c.publishers && p !in w.acks && BatchOf(w, p) != []
    requires ReadsInOrder(c, w.progress, p, BatchOf(w, p)[0], order, short)
    requires commits && !short ==> forall of | of in c.publishers :: of in order
    requires ONE in w.stored
    ensures w' == Settled(w, p, order, short, commits, 0) && Run(c, steps', w')
    ensures Ahead(c, steps) ==> Ahead(c, steps')
  {
    var more := AckSteps(p, order, commits, 0);
    AckRun(c, w, p, order, short, commits, 0);
    RunAppend(c, INITIAL, steps, more);
    steps', w' := steps + more, Settled(w, p, order, short, commits, 0);
    if Ahead(c, steps) {
      forall q | q in c.publishers ensures StoredAhead(c, INITIAL, steps', q, ONE) {
        StoredOnce(c, w, more, q, ONE);
        StoredAheadAppend(c, INITIAL, steps, more, q, ONE);
      }
    }
  }

  lemma Begin(c: Config)
    ensures Run(c, [], INITIAL) && Ahead(c, [])
  {
  }

  /** Two events stored in order. */
  lemma StoreTwo(c: Config) returns (steps: seq<Step>, w: World)
    ensures w == INITIAL.(events := map[ONE := ROW, TWO := ROW], stored := map[ONE := Pending, TWO := Pending])
    ensures Run(c, steps, w) && Ahead(c, steps)
  {
    Begin(c);
    hide Run, Ahead;
    steps, w := Extend(c, [], INITIAL, Store(ONE, ROW));
    steps, w := Extend(c, steps, w, Store(TWO, ROW));
    assert w.events == map[ONE := ROW, TWO := ROW];
  }

  /** An event reached by every mark and not completed; by PassedIsStranded it
      stays so in every continuation. */
  ghost predicate Stranded(c: Config, w: World, id: Id) {
    && c.publishers != {} && (forall p | p in c.publishers :: CleanFor(w, p, id))
    && id in w.events && w.events[id].status.Pending? && Reached(w.progress, id, c.publishers)
  }

  /** Its acknowledgement is rolled back and the next event's commits. */
  lemma RolledBackAckStrands() returns (c: Config, steps: seq<Step>)
    ensures Ahead(c, steps) && Stranded(c, After(c, INITIAL, steps), ONE)
  {
    var w;
    c, steps, w := RollBack();
  }

  const SOLO := Config({"a"}, 10, 3, 2.0)

  /** A publisher with nothing in hand fetches the two pending events. */
  lemma FetchTwo(c: Config, steps: seq<Step>, w: World, p: string) returns (steps': seq<Step>, w': World)
    requires Run(c, steps, w) && p in c.publishers && w.events == map[ONE := ROW, TWO := ROW] && p !in w.progress
    requires c.batchSize == 10
    requires BatchOf(w, p) == [] && p !in w.acks && BackoffOf(w, p) == FRESH
    ensures Run(c, steps', w') && (Ahead(c, steps) ==> Ahead(c, steps'))
    ensures w' == w.(batch := w.batch[p := [ONE, TWO]])
  {
    hide Run, Ahead;
    assert IsBatch(w.events, w.progress, p, 10, 0, [ONE, TWO]);
    steps', w' := Extend(c, steps, w, Fetch(p, 10, 0, [ONE, TWO]));
  }

  lemma RollBack() returns (c: Config, steps: seq<Step>, w: World)
    ensures Run(c, steps, w) && Ahead(c, steps) && Stranded(c, w, ONE)
  {
    c := SOLO;
    steps, w := StoreTwo(c);
    steps, w := FetchTwo(c, steps, w, "a");
    hide Run, Ahead;
    steps, w := ExtendAck(c, steps, w, "a", [], false, false);
    assert [ONE, TWO][1..] == [TWO];
    steps, w := SoloAcks(steps, w);
  }

  lemma SoloAcks(steps: seq<Step>, w: World) returns (steps': seq<Step>, w': World)
    requires Run(SOLO, steps, w) && Ahead(SOLO, steps) && "a" !in w.acks && BatchOf(w, "a") == [TWO] && w.progress == map[]
    requires ONE in w.events && w.events[ONE] == ROW && CleanFor(w, "a", ONE)
    ensures Run(SOLO, steps', w') && Ahead(SOLO, steps') && Stranded(SOLO, w', ONE)
  {
    assert ["a"][..0] == [];
    assert LookEntries("a", TWO, ["a"]) == [Looked("a", TWO, "a")];
    assert ReadsInOrder(SOLO, w.progress, "a", TWO, ["a"], false);
    hide Run, Ahead, ReadsInOrder, LookEntries;
    steps', w' := ExtendAck(SOLO, steps, w, "a", ["a"], false, true);
    assert w'.progress == map["a" := TWO] && w'.events[ONE] == ROW;
    assert w'.log == w.log + [Published("a", TWO)] + [Looked("a", TWO, "a")] + [Acked("a", TWO)];
  }

  const PAIR := Config({"a", "b"}, 10, 3, 2.0)

  /** Both publishers acknowledge it at once: each reads the other's mark before
      the other commits, and both commit. */
  lemma OverlappingAcksStrand() returns (steps: seq<Step>)
    ensures Ahead(PAIR, steps) && Stranded(PAIR, After(PAIR, INITIAL, steps), ONE)
    ensures Acked("a", ONE) in After(PAIR, INITIAL, steps).log && Acked("b", ONE) in After(PAIR, INITIAL, steps).log
  {
    var w;
    steps, w := BothRead();
    steps, w := BothCommit(steps, w);
  }

  lemma BothFetch() returns (steps: seq<Step>, w: World)
    ensures Run(PAIR, steps, w) && Ahead(PAIR, steps)
    ensures w == INITIAL.(events := map[ONE := ROW], stored := map[ONE := Pending], batch := map["a" := [ONE], "b" := [ONE]])
  {
    assert "a" != "b";
    Begin(PAIR);
    hide Run, Ahead;
    steps, w := Extend(PAIR, [], INITIAL, Store(ONE, ROW));
    assert w.events == map[ONE := ROW];
    steps, w := Extend(PAIR, steps, w, Fetch("a", 10, 0, [ONE]));
    steps, w := Extend(PAIR, steps, w, Fetch("b", 10, 0, [ONE]));
  }

  lemma BothPublish() returns (steps: seq<Step>, w: World)
    ensures Run(PAIR, steps, w) && Ahead(PAIR, steps)
    ensures w.events == map[ONE := ROW] && w.progress == map[] && w.stored == map[ONE := Pending]
    ensures BatchOf(w, "a") == [ONE] && BatchOf(w, "b") == [ONE]
    ensures w.acks == map["a" := Reads({}, false), "b" := Reads({}, false)]
    ensures w.log == [Published("a", ONE), Published("b", ONE)]
  {
    assert "a" != "b";
    steps, w := BothFetch();
    hide Run, Ahead, IsBatch;
    steps, w := Extend(PAIR, steps, w, PublishOk("a"));
    steps, w := Extend(PAIR, steps, w, PublishOk("b"));
  }

  lemma ARead() returns (steps: seq<Step>, w: World)
    ensures Run(PAIR, steps, w) && Ahead(PAIR, steps)
    ensures w.events == map[ONE := ROW] && w.progress == map[] && w.stored == map[ONE := Pending]
    ensures BatchOf(w, "a") == [ONE] && BatchOf(w, "b") == [ONE]
    ensures w.acks == map["a" := Reads({"a"}, true), "b" := Reads({}, false)]
    ensures forall e | e in w.log :: !e.Errored?
  {
    assert "a" != "b";
    steps, w := BothPublish();
    hide Run, Ahead;
    steps, w := Extend(PAIR, steps, w, Look("a", "a"));
    assert w.acks["a"].reached == {"a"};
    assert w.acks == map["a" := Reads({"a"}, false), "b" := Reads({}, false)];
    steps, w := Extend(PAIR, steps, w, Look("a", "b"));
    assert w.acks == map["a" := Reads({"a"}, true), "b" := Reads({}, false)];
  }

  lemma BothRead() returns (steps: seq<Step>, w: World)
    ensures Run(PAIR, steps, w) && Ahead(PAIR, steps)
    ensures w.events == map[ONE := ROW] && w.progress == map[] && w.stored == map[ONE := Pending]
    ensures BatchOf(w, "a") == [ONE] && BatchOf(w, "b") == [ONE]
    ensures w.acks == map["a" := Reads({"a"}, true), "b" := Reads({}, true)]
    ensures forall e | e in w.log :: !e.Errored?
  {
    assert "a" != "b";
    steps, w := ARead();
    hide Run, Ahead;
    steps, w := Extend(PAIR, steps, w, Look("b", "a"));
    assert w.acks == map["a" := Reads({"a"}, true), "b" := Reads({}, true)];
  }

  lemma BothCommit(steps: seq<Step>, w: World) returns (steps': seq<Step>, w': World)
    requires Run(PAIR, steps, w) && Ahead(PAIR, steps)
    requires w.events == map[ONE := ROW] && w.progress == map[] && w.stored == map[ONE := Pending]
    requires BatchOf(w, "a") == [ONE] && BatchOf(w, "b") == [ONE]
    requires w.acks == map["a" := Reads({"a"}, true), "b" := Reads({}, true)]
    requires forall e | e in w.log :: !e.Errored?
    ensures Run(PAIR, steps', w') && Ahead(PAIR, steps') && Stranded(PAIR, w', ONE)
    ensures Acked("a", ONE) in w'.log && Acked("b", ONE) in w'.log
  {
    assert "a" != "b";
    hide Run, Ahead;
    var s1, w1 := Extend(PAIR, steps, w, Ack("a", 0));
    steps', w' := Extend(PAIR, s1, w1, Ack("b", 0));
    assert w'.log == w.log + [Acked("a", ONE)] + [Acked("b", ONE)];
    assert w'.progress == map["a" := ONE, "b" := ONE] && w'.events == map[ONE := ROW];
  }

  /** In a pair, reads go to "a" and then to "b". */
  lemma PairOrder(progress: Progress, p: string, id: Id, short: bool)
    requires p in PAIR.publishers && Sees(progress, p, "a", id) && (short <==> !Sees(progress, p, "b", id))
    ensures ReadsInOrder(PAIR, progress, p, id, ["a", "b"], short)
    ensures LookEntries(p, id, ["a", "b"]) == [Looked(p, id, "a"), Looked(p, id, "b")]
  {
    assert ["a", "b"][..1] == ["a"] && ["a"][..0] == [];
    assert LookEntries(p, id, ["a"]) == [Looked(p, id, "a")];
  }

  /** From a world where "a" is past both pending events, "b" completes the first. */
  lemma BCompletesFirst(steps: seq<Step>, w: World) returns (steps': seq<Step>, w': World)
    requires Run(PAIR, steps, w)
    requires w.events == map[ONE := ROW, TWO := ROW] && w.progress == map["a" := TWO] && ONE in w.stored
    requires BatchOf(w, "b") == [] && "b" !in w.acks && BackoffOf(w, "b") == FRESH
    ensures Run(PAIR, steps', w') && (Ahead(PAIR, steps) ==> Ahead(PAIR, steps'))
    ensures ONE in w'.events && w'.events[ONE].status.Completed? && w'.stored == w.stored
    ensures forall e | e in w'.log :: e in w.log || (!e.Restarted? && e.publisher == "b" && !e.Errored?)
  {
    assert "a" != "b";
    var s1, w1 := FetchTwo(PAIR, steps, w, "b");
    PairOrder(w.progress, "b", ONE, false);
    hide Run, Ahead, ReadsInOrder, LookEntries;
    steps', w' := ExtendAck(PAIR, s1, w1, "b", ["a", "b"], false, true);
    assert w'.log == w.log + [Published("b", ONE)] + [Looked("b", ONE, "a"), Looked("b", ONE, "b")] + [Acked("b", ONE)];
  }

  /** "a" acknowledges TWO while "b" has acknowledged nothing. */
  lemma APassesTwo(steps: seq<Step>, w: World) returns (steps': seq<Step>, w': World)
    requires Run(PAIR, steps, w) && ONE in w.stored && w.progress == map[]
    requires "a" !in w.acks && BatchOf(w, "a") == [TWO]
    ensures Run(PAIR, steps', w') && (Ahead(PAIR, steps) ==> Ahead(PAIR, steps'))
    ensures w' == w.(progress := map["a" := TWO], backoff := w.backoff["a" := FRESH], batch := w.batch["a" := []],
                     acks := w.acks - {"a"}, log := w'.log)
    ensures forall e | e in w'.log :: e in w.log || (!e.Restarted? && e.id == TWO && !e.Errored?)
  {
    assert "a" != "b";
    PairOrder(w.progress, "a", TWO, true);
    hide Run, Ahead, Apply, IsBatch, ReadsInOrder, LookEntries;
    steps', w' := ExtendAck(PAIR, steps, w, "a", ["a", "b"], true, true);
    assert w.progress["a" := TWO] == map["a" := TWO] && [TWO][1..] == [];
    assert w'.log == w.log + [Published("a", TWO)] + [Looked("a", TWO, "a"), Looked("a", TWO, "b")] + [Acked("a", TWO)];
  }

  /** One transient failure, below the retry limit, is enough to lose an event:
      "a" fails on the first event, publishes and acknowledges the next one of the
      same batch, and "b" completes the first. */
  lemma FailedAttemptBreaksDelivery() returns (steps: seq<Step>)
    ensures Ahead(PAIR, steps)
    ensures var w := After(PAIR, INITIAL, steps);
            && ONE in w.events && w.events[ONE].status.Completed?
            && Published("a", ONE) !in w.log
            && forall e | e in w.log && e.Errored? :: !e.permanent && !e.deadLettered
  {
    var w;
    steps, w := AFailsOnce();
    steps, w := APassesTwo(steps, w);
    steps, w := BCompletesFirst(steps, w);
  }

  lemma AFailsOnce() returns (steps: seq<Step>, w: World)
    ensures Run(PAIR, steps, w) && Ahead(PAIR, steps)
    ensures w.events == map[ONE := ROW, TWO := ROW] && w.progress == map[] && ONE in w.stored
    ensures BatchOf(w, "a") == [TWO] && w.acks == map[] && BatchOf(w, "b") == [] && BackoffOf(w, "b") == FRESH
    ensures w.log == [Errored("a", ONE, false, false)]
  {
    assert "a" != "b";
    steps, w := StoreTwo(PAIR);
    hide Run, Ahead;
    steps, w := FetchTwo(PAIR, steps, w, "a");
    steps, w := Extend(PAIR, steps, w, PublishError("a", false, "busy", 0, true));
  }

  /** An event not stored ahead is completed without being delivered, and nothing
      fails: the smaller id appears while "a" has a later one in hand. */
  lemma LateIdBreaksDelivery() returns (steps: seq<Step>)
    ensures Legal(PAIR, INITIAL, steps)
    ensures var w := After(PAIR, INITIAL, steps);
            && (forall p | p in PAIR.publishers :: CleanFor(w, p, ONE))
            && ONE in w.events && w.events[ONE].status.Completed?
            && Published("a", ONE) !in w.log
  {
    var w;
    steps, w := StoredLate();
    steps, w := APassesTwo(steps, w);
    steps, w := BCompletesFirst(steps, w);
  }

  lemma StoredLate() returns (steps: seq<Step>, w: World)
    ensures Run(PAIR, steps, w)
    ensures w.events == map[ONE := ROW, TWO := ROW] && w.progress == map[] && ONE in w.stored && w.stored[ONE].Pending?
    ensures BatchOf(w, "a") == [TWO] && w.acks == map[] && BatchOf(w, "b") == [] && BackoffOf(w, "b") == FRESH
    ensures w.log == []
  {
    assert "a" != "b";
    Begin(PAIR);
    hide Run, Ahead;
    steps, w := Extend(PAIR, [], INITIAL, Store(TWO, ROW));
    steps, w := Extend(PAIR, steps, w, Fetch("a", 10, 0, [TWO]));
    steps, w := Extend(PAIR, steps, w, Store(ONE, ROW));
    assert w.events == map[ONE := ROW, TWO := ROW];
  }
}
