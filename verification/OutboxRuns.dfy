/** Runs of one publisher: acknowledgements, their reads in some order up to the
    first mark that is short, and batches fetched and acknowledged one after the other. */
module OutboxRuns {
  import opened Wrappers
  import opened Uuid
  import opened Sets
  import opened OutboxTables
  import opened OutboxRetry
  import opened OutboxProtocol

  function Looks(p: string, order: seq<string>): seq<Step> {
    if order == [] then [] else Looks(p, order[..|order| - 1]) + [Look(p, order[|order| - 1])]
  }

  function LookEntries(p: string, id: Id, order: seq<string>): seq<Entry> {
    if order == [] then [] else LookEntries(p, id, order[..|order| - 1]) + [Looked(p, id, order[|order| - 1])]
  }

  /** The publishers read, without the last one if that was short. */
  function ReachedIn(order: seq<string>, short: bool): set<string> {
    if short && order != [] then Elements(order[..|order| - 1]) else Elements(order)
  }

  predicate Distinct(order: seq<string>) {
    forall i, j | 0 <= i < j < |order| :: order[i] != order[j]
  }

  /** Reading the marks in this order stops after the last, short or not. */
  ghost predicate ReadsInOrder(c: Config, progress: Progress, p: string, id: Id, order: seq<string>, short: bool) {
    && Distinct(order) && (forall of | of in order :: of in c.publishers)
    && (forall i | 0 <= i < |order| - 1 :: Sees(progress, p, order[i], id))
    && (if short then order != [] && !Sees(progress, p, order[|order| - 1], id)
        else forall of | of in order :: Sees(progress, p, of, id))
  }

  /** The reads before the last all found marks at or past the event. */
  lemma ReadsInit(c: Config, progress: Progress, p: string, id: Id, order: seq<string>, short: bool)
    requires order != [] && ReadsInOrder(c, progress, p, id, order, short)
    ensures var init, last := order[..|order| - 1], order[|order| - 1];
            && ReadsInOrder(c, progress, p, id, init, false)
            && last in c.publishers && last !in init && (short <==> !Sees(progress, p, last, id))
            && Elements(order) == Elements(init) + {last}
  {
    var init, last := order[..|order| - 1], order[|order| - 1];
    assert order == init + [last];
    forall i | 0 <= i < |init| ensures init[i] == order[i] && init[i] in order && init[i] != last {
    }
  }

  /** The world after the reads. */
  function Read(w: World, p: string, order: seq<string>, short: bool): World
    requires BatchOf(w, p) != []
  {
    w.(acks := w.acks[p := Reads(ReachedIn(order, short), short)],
       log := w.log + LookEntries(p, BatchOf(w, p)[0], order))
  }

  lemma LookLast(c: Config, w: World, p: string, order: seq<string>, short: bool)
    requires p in w.acks && BatchOf(w, p) != [] && order != []
    requires ReadsInOrder(c, w.progress, p, BatchOf(w, p)[0], order, short)
    ensures var init, last := order[..|order| - 1], order[|order| - 1];
            && Enabled(c, Read(w, p, init, false), Look(p, last))
            && Apply(c, Read(w, p, init, false), Look(p, last)) == Read(w, p, order, short)
  {
    var init, last, id := order[..|order| - 1], order[|order| - 1], BatchOf(w, p)[0];
    ReadsInit(c, w.progress, p, id, order, short);
    hide ReadsInOrder;
    assert w.log + LookEntries(p, id, init) + [Looked(p, id, last)] == w.log + LookEntries(p, id, order);
  }

  lemma {:induction false} LookRun(c: Config, w: World, p: string, order: seq<string>, short: bool)
    requires p in w.acks && w.acks[p] == Reads({}, false) && BatchOf(w, p) != []
    requires ReadsInOrder(c, w.progress, p, BatchOf(w, p)[0], order, short)
    ensures Legal(c, w, Looks(p, order)) && After(c, w, Looks(p, order)) == Read(w, p, order, short)
    decreases |order|
  {
    if order == [] {
      assert ReachedIn(order, short) == {} && !short;
      assert w.acks[p := Reads({}, false)] == w.acks && w.log + [] == w.log;
    } else {
      var init, last := order[..|order| - 1], order[|order| - 1];
      ReadsInit(c, w.progress, p, BatchOf(w, p)[0], order, short);
      LookRun(c, w, p, init, false);
      LookLast(c, w, p, order, short);
      hide ReadsInOrder, Apply, Enabled, Read;
      RunSnoc(c, w, Looks(p, init), Look(p, last));
    }
  }

  function AckSteps(p: string, order: seq<string>, commits: bool, now: int): seq<Step> {
    [PublishOk(p)] + (Looks(p, order) + [if commits then Ack(p, now) else AckRolledBack(p)])
  }

  /** The world after an acknowledgement that read in this order and committed or not. */
  function Settled(w: World, p: string, order: seq<string>, short: bool, commits: bool, now: int): World
    requires BatchOf(w, p) != []
  {
    var id := BatchOf(w, p)[0];
    w.(events := if commits then Acknowledged(w.events, id, !short, now) else w.events,
       progress := if commits then Upserted(w.progress, p, id) else w.progress,
       backoff := w.backoff[p := FRESH], batch := DropHead(w, p), acks := w.acks - {p},
       log := w.log + [Published(p, id)] + LookEntries(p, id, order) + (if commits then [Acked(p, id)] else []))
  }

  lemma AckRun(c: Config, w: World, p: string, order: seq<string>, short: bool, commits: bool, now: int)
    requires p in c.publishers && p !in w.acks && BatchOf(w, p) != []
    requires ReadsInOrder(c, w.progress, p, BatchOf(w, p)[0], order, short)
    requires commits && !short ==> forall of | of in c.publishers :: of in order
    ensures Legal(c, w, AckSteps(p, order, commits, now))
    ensures After(c, w, AckSteps(p, order, commits, now)) == Settled(w, p, order, short, commits, now)
  {
    var w1 := Apply(c, w, PublishOk(p));
    LookRun(c, w1, p, order, short);
    var last := if commits then Ack(p, now) else AckRolledBack(p);
    SettledLast(c, w, p, order, short, commits, now);
    hide ReadsInOrder, Apply, Enabled;
    RunSnoc(c, w1, Looks(p, order), last);
    RunCons(c, w, PublishOk(p), Looks(p, order) + [last]);
  }

  lemma SettledLast(c: Config, w: World, p: string, order: seq<string>, short: bool, commits: bool, now: int)
    requires p in c.publishers && p !in w.acks && BatchOf(w, p) != []
    requires commits && !short ==> forall of | of in c.publishers :: of in order
    ensures var w2 := Read(Apply(c, w, PublishOk(p)), p, order, short);
            var last := if commits then Ack(p, now) else AckRolledBack(p);
            Enabled(c, w2, last) && Apply(c, w2, last) == Settled(w, p, order, short, commits, now)
  {
    var w2 := Read(Apply(c, w, PublishOk(p)), p, order, short);
    assert w2.acks - {p} == w.acks - {p} && w2.log + [] == w2.log;
    assert commits && !short ==> c.publishers <= Elements(order);
  }

  // ----- Going through events -----

  predicate NoRequeue(steps: seq<Step>) {
    forall step | step in steps :: !step.Requeue?
  }

  /** Another publisher's mark is below id. */
  ghost predicate OtherBehind(c: Config, w: World, p: string, id: Id) {
    exists of :: of in c.publishers && of != p && !Past(w.progress, of, id)
  }

  /** What an acknowledgement of p's head does, whatever it read. */
  ghost predicate HeadAcked(c: Config, w: World, w': World, p: string)
    requires BatchOf(w, p) != []
  {
    var id := BatchOf(w, p)[0];
    && w' == w.(events := w'.events, progress := Upserted(w.progress, p, id), backoff := w'.backoff,
                batch := DropHead(w, p), acks := w.acks - {p}, log := w'.log)
    && (w'.events == w.events || w'.events == WithStatus(w.events, id, Completed, None, 0))
  }

  /** An open acknowledgement can be read to its end and committed. It completes
      its event, unless it found or finds another mark short. */
  lemma {:induction false} CommitRun(c: Config, w: World, p: string) returns (steps: seq<Step>)
    requires p in c.publishers && p in w.acks && BatchOf(w, p) != []
    ensures Legal(c, w, steps) && HeadAcked(c, w, After(c, w, steps), p) && NoRequeue(steps)
    ensures var w', id := After(c, w, steps), BatchOf(w, p)[0];
            && w'.backoff == w.backoff
            && (|| w'.events == WithStatus(w.events, id, Completed, None, 0)
                || (w'.events == w.events && (w.acks[p].short || OtherBehind(c, w, p, id))))
            && (forall e | e in w'.log :: e in w.log || e == Acked(p, id) || (e.Looked? && e.publisher == p && e.id == id))
    decreases c.publishers - w.acks[p].reached, !w.acks[p].short
  {
    if Decided(c, w.acks[p]) {
      steps := [Ack(p, 0)];
      assert steps[1..] == [];
    } else {
      var of :| of in c.publishers && of !in w.acks[p].reached;
      var w1 := Apply(c, w, Look(p, of));
      var rest := CommitRun(c, w1, p);
      RunCons(c, w, Look(p, of), rest);
      steps := [Look(p, of)] + rest;
      assert w1.acks - {p} == w.acks - {p};
      assert w1.acks[p].short ==> of != p && !Past(w.progress, of, BatchOf(w, p)[0]);
    }
  }

  /** A publisher can publish and acknowledge the head of its batch. */
  lemma AckHead(c: Config, w: World, p: string) returns (steps: seq<Step>)
    requires p in c.publishers && p !in w.acks && BatchOf(w, p) != []
    ensures Legal(c, w, steps) && HeadAcked(c, w, After(c, w, steps), p) && NoRequeue(steps)
    ensures var w', id := After(c, w, steps), BatchOf(w, p)[0];
            && w'.backoff == w.backoff[p := FRESH] && w'.acks == w.acks
            && (w'.events == WithStatus(w.events, id, Completed, None, 0) || OtherBehind(c, w, p, id))
  {
    var w1 := Apply(c, w, PublishOk(p));
    var rest := CommitRun(c, w1, p);
    RunCons(c, w, PublishOk(p), rest);
    steps := [PublishOk(p)] + rest;
    assert w1.acks - {p} == w.acks && w.acks - {p} == w.acks;
  }

  /** From w to w' the publisher has only gone on towards id: its own mark has
      grown and is below id, other marks and the row of id are as they were. */
  ghost predicate GoneOn(w: World, w': World, p: string, id: Id) {
    && w'.stored == w.stored && w'.acks == w.acks && w'.events.Keys == w.events.Keys
    && (id in w.events ==> w'.events[id] == w.events[id])
    && w'.progress - {p} == w.progress - {p}
    && (Above(w.progress, p, id) ==> Above(w'.progress, p, id))
    && (forall x | Above(w'.progress, p, x) :: Above(w.progress, p, x))
  }

  lemma HeadGoesOn(c: Config, w: World, w': World, p: string, id: Id)
    requires BatchOf(w, p) != [] && BatchOf(w, p)[0] < id && HeadAcked(c, w, w', p) && p !in w.acks
    ensures GoneOn(w, w', p, id) && BatchOf(w', p) == BatchOf(w, p)[1..] && !Above(w'.progress, p, BatchOf(w, p)[0])
  {
    assert w.acks - {p} == w.acks;
  }

  lemma GoneOnTwice(w: World, w1: World, w2: World, p: string, id: Id)
    requires GoneOn(w, w1, p, id) && GoneOn(w1, w2, p, id)
    ensures GoneOn(w, w2, p, id)
  {
  }

  /** A publisher can acknowledge what it has in hand below id. */
  lemma {:induction false} AckUpTo(c: Config, w: World, p: string, id: Id) returns (steps: seq<Step>)
    requires p in c.publishers && p !in w.acks && Ascending(BatchOf(w, p))
    ensures Legal(c, w, steps) && NoRequeue(steps)
    ensures var w' := After(c, w, steps);
            && GoneOn(w, w', p, id)
            && (BackoffOf(w, p) == FRESH ==> BackoffOf(w', p) == FRESH)
            && (forall x | x in BatchOf(w', p) :: x in BatchOf(w, p) && id <= x)
            && (forall x | x in BatchOf(w, p) && x < id :: !Above(w'.progress, p, x))
            && (id in BatchOf(w, p) ==> BatchOf(w', p) != [] && BatchOf(w', p)[0] == id)
    decreases |BatchOf(w, p)|
  {
    var b := BatchOf(w, p);
    if b == [] || id <= b[0] {
      steps := [];
      assert forall x | x in b :: b[0] <= x;
    } else {
      var first := AckHead(c, w, p);
      var w1 := After(c, w, first);
      HeadGoesOn(c, w, w1, p, id);
      hide Apply, Enabled, IsBatch;
      var rest := AckUpTo(c, w1, p, id);
      RunAppend(c, w, first, rest);
      steps := first + rest;
      GoneOnTwice(w, w1, After(c, w1, rest), p, id);
      assert forall x | x in b :: x == b[0] || x in b[1..];
    }
  }

  /** Every table has a batch of any size. */
  lemma FirstBatch(events: Events, progress: Progress, p: string, limit: nat, now: int) returns (ids: seq<Id>)
    ensures IsBatch(events, progress, p, limit, now, ids)
  {
    var due := set id | id in events && Qualifies(events, progress, p, now, id);
    var listed := Listed(due);
    assert forall i | 0 <= i < |listed| :: listed[i] in listed && listed[i] in due;
    var all: seq<Id> := listed;
    ids := if |all| <= limit then all else all[..limit];
    forall id, other | Qualifies(events, progress, p, now, id) && id !in ids && other in ids ensures other < id {
      assert id in all;
      var i, j :| 0 <= i < |all| && 0 <= j < |ids| && all[i] == id && ids[j] == other;
      assert all[j] == other && i >= |ids|;
    }
  }

  /** The events between a publisher's mark and id. */
  function Between(w: World, p: string, id: Id): set<Id> {
    set x | x in w.events && Above(w.progress, p, x) && x < id
  }

  /** Batch after batch, all fetched at the given time, a publisher with nothing in
      hand can go on until an event above its mark is next that is pending, or failed
      with its retry time come. */
  lemma {:induction false} BringUp(c: Config, w: World, p: string, id: Id, now: int) returns (steps: seq<Step>)
    requires c.batchSize >= 1 && p in c.publishers && p !in w.acks && BatchOf(w, p) == [] && BackoffOf(w, p) == FRESH
    requires Offered(w.events, w.progress, p, now, id)
    ensures Legal(c, w, steps) && NoRequeue(steps)
    ensures var w' := After(c, w, steps); GoneOn(w, w', p, id) && BatchOf(w', p) != [] && BatchOf(w', p)[0] == id
    decreases Between(w, p, id)
  {
    var ids := FirstBatch(w.events, w.progress, p, c.batchSize, now);
    var fetch := Fetch(p, c.batchSize, now, ids);
    var w1 := Apply(c, w, fetch);
    assert Qualifies(w.events, w.progress, p, now, id);
    var acks := AckUpTo(c, w1, p, id);
    var w2 := After(c, w1, acks);
    RunCons(c, w, fetch, acks);
    assert GoneOn(w, w2, p, id);
    assert BatchOf(w2, p) != [] ==> BatchOf(w2, p)[0] in BatchOf(w2, p);
    if id in ids {
      steps := [fetch] + acks;
    } else {
      assert |ids| >= 1 && ids[0] in ids && ids[0] in Between(w, p, id) && ids[0] !in Between(w2, p, id);
      hide Apply, Enabled, IsBatch;
      var rest := BringUp(c, w2, p, id, now);
      RunAppend(c, w, [fetch] + acks, rest);
      steps := [fetch] + acks + rest;
      GoneOnTwice(w, w2, After(c, w2, rest), p, id);
    }
  }
}
