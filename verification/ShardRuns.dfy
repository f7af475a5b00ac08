/** What the calls of one dispatcher do, as runs of the ownership protocol with no
    other step in between: the states and lock tables that the methods of
    ShardDispatcher promise. */
module ShardRuns {
  import opened Wrappers
  import opened ShardLocks
  import opened ShardDispatcher

  /** The world with one instance and the lock table replaced. */
  function With(w: World, i: nat, inst: Instance, locks: Locks): World {
    w.(instances := w.instances[i := inst], locks := locks)
  }

  /** An instance that has tried the first k shards of its list. */
  function Tried(inst: Instance, locks: Locks, session: nat, k: nat): Instance
    requires k <= |inst.list|
  {
    inst.(busy := Acquiring(k), ownedShards := Kept(locks, session, inst.list[..k], inst.ownedShards))
  }

  /** Trying one more shard. */
  lemma TriedNext(w1: World, inst: Instance, locks: Locks, session: nat, k: nat)
    requires inst.conn == Some(Conn(session, true)) && k < |inst.list|
    requires w1.locks == Acquired(locks, session, inst.list[..k])
    ensures AfterTry(w1, Tried(inst, locks, session, k)) == Tried(inst, locks, session, k + 1)
    ensures Locked(w1.locks, session, inst.list[k]) == Acquired(locks, session, inst.list[..k + 1])
  {
    assert inst.list[..k + 1] == inst.list[..k] + [inst.list[k]];
    hide Acquired, Kept, Locked;
    AcquiredSnoc(locks, session, inst.list[..k], inst.list[k]);
    KeptSnoc(locks, session, inst.list[..k], inst.ownedShards, inst.list[k]);
    var kept := Kept(locks, session, inst.list[..k], inst.ownedShards);
    assert kept - {} == kept;
  }

  lemma TryOne(w: World, i: nat, session: nat, k: nat)
    requires i in w.instances && w.instances[i].conn == Some(Conn(session, true)) && session !in w.dead
    requires k < |w.instances[i].list|
    ensures var inst := w.instances[i];
            var w1 := With(w, i, Tried(inst, w.locks, session, k), Acquired(w.locks, session, inst.list[..k]));
            && Enabled(w1, TryLock(i))
            && Apply(w1, TryLock(i)) ==
               With(w, i, Tried(inst, w.locks, session, k + 1), Acquired(w.locks, session, inst.list[..k + 1]))
  {
    hide Acquired, Kept, Locked, AfterTry;
    var inst := w.instances[i];
    var w1 := With(w, i, Tried(inst, w.locks, session, k), Acquired(w.locks, session, inst.list[..k]));
    TriedNext(w1, inst, w.locks, session, k);
  }

  lemma NothingTried(w: World, i: nat, session: nat)
    requires i in w.instances && w.instances[i].busy == Acquiring(0)
    ensures var inst := w.instances[i];
            w == With(w, i, Tried(inst, w.locks, session, 0), Acquired(w.locks, session, inst.list[..0]))
  {
    hide Acquired, Kept;
    AcquiredNone(w.locks, session, w.instances[i].ownedShards);
    assert w.instances[i].list[..0] == [] && w.instances[i := w.instances[i]] == w.instances;
  }

  /** Trying the first k shards of the list in turn. */
  lemma {:induction false} TryRun(w: World, i: nat, session: nat, k: nat) returns (steps: seq<Step>)
    requires i in w.instances && w.instances[i].conn == Some(Conn(session, true)) && session !in w.dead
    requires w.instances[i].busy == Acquiring(0) && k <= |w.instances[i].list|
    ensures Legal(w, steps)
    ensures After(w, steps) == With(w, i, Tried(w.instances[i], w.locks, session, k),
                                    Acquired(w.locks, session, w.instances[i].list[..k]))
  {
    if k == 0 {
      steps := [];
      NothingTried(w, i, session);
    } else {
      hide Enabled, Apply, Tried, With, Acquired, Legal, After;
      var before := TryRun(w, i, session, k - 1);
      TryOne(w, i, session, k - 1);
      RunSnoc(w, before, TryLock(i));
      steps := before + [TryLock(i)];
    }
  }

  /** The lock table after the first k shards of the list have been unlocked, if the
      session lives. */
  function Freed(w: World, inst: Instance, k: nat): Locks
    requires k <= |inst.list|
  {
    if Alive(w, inst) then Released(w.locks, inst.conn.value.session, inst.list[..k]) else w.locks
  }

  lemma UnlockOne(w: World, i: nat, k: nat)
    requires i in w.instances && w.instances[i].busy.Releasing? && k < |w.instances[i].list|
    ensures var inst := w.instances[i];
            var w1 := With(w, i, inst.(busy := inst.busy.(next := k)), Freed(w, inst, k));
            && Enabled(w1, UnlockNext(i))
            && Apply(w1, UnlockNext(i)) == With(w, i, inst.(busy := inst.busy.(next := k + 1)), Freed(w, inst, k + 1))
  {
    var inst := w.instances[i];
    assert inst.list[..k + 1] == inst.list[..k] + [inst.list[k]];
    hide Released, Unlocked;
    if Alive(w, inst) { ReleasedSnoc(w.locks, inst.conn.value.session, inst.list[..k], inst.list[k]); }
  }

  /** Unlocking the first k shards of the list in turn. */
  lemma {:induction false} UnlockRun(w: World, i: nat, k: nat) returns (steps: seq<Step>)
    requires i in w.instances && w.instances[i].busy.Releasing? && w.instances[i].busy.next == 0
    requires k <= |w.instances[i].list|
    ensures Legal(w, steps)
    ensures var inst := w.instances[i];
            After(w, steps) == With(w, i, inst.(busy := inst.busy.(next := k)), Freed(w, inst, k))
  {
    if k == 0 {
      steps := [];
      var inst := w.instances[i];
      assert inst.list[..0] == [] && w.instances[i := inst] == w.instances;
      assert Alive(w, inst) ==> Released(w.locks, inst.conn.value.session, []) == w.locks;
    } else {
      var before := UnlockRun(w, i, k - 1);
      UnlockOne(w, i, k - 1);
      hide Enabled, Apply, With, Freed, Legal, After;
      RunSnoc(w, before, UnlockNext(i));
      steps := before + [UnlockNext(i)];
    }
  }

  lemma First(w: World, step: Step) returns (steps: seq<Step>, w': World)
    requires Enabled(w, step)
    ensures w' == Apply(w, step) && Legal(w, steps) && w' == After(w, steps)
  {
    hide Enabled, Apply;
    steps, w' := Extend(w, [], w, step);
  }

  /** Continues a run. */
  lemma Onward(w: World, steps: seq<Step>, more: seq<Step>)
    requires Legal(w, steps) && Legal(After(w, steps), more)
    ensures Legal(w, steps + more) && After(w, steps + more) == After(After(w, steps), more)
    decreases |more|
  {
    hide Enabled, Apply;
    if more == [] {
      assert steps + more == steps;
    } else {
      RunSnoc(w, steps, more[0]);
      Onward(w, steps + [more[0]], more[1..]);
      assert steps + more == steps + [more[0]] + more[1..];
    }
  }

  /** Releasing in turn, within a stop or after a failed start. */
  lemma ReleaseInTurn(w: World, i: nat) returns (steps: seq<Step>)
    requires i in w.instances && w.instances[i].busy.Releasing? && w.instances[i].busy.next == 0
    requires w.instances[i].busy.inStop ==> w.instances[i].stops > 0
    ensures Legal(w, steps)
    ensures var inst := w.instances[i];
            After(w, steps) ==
            With(w, i,
                 if inst.busy.inStop then inst.(conn := None, busy := Free, stops := inst.stops - 1)
                 else inst.(conn := Closed(inst.conn), busy := Free),
                 if Alive(w, inst) then Released(w.locks, inst.conn.value.session, inst.list) else w.locks)
  {
    var inst := w.instances[i];
    var unlocks := UnlockRun(w, i, |inst.list|);
    assert inst.list[..|inst.list|] == inst.list;
    hide Released;
    RunSnoc(w, unlocks, FinishRelease(i));
    steps := unlocks + [FinishRelease(i)];
  }

  lemma StopBegins(w: World, i: nat) returns (steps: seq<Step>, w': World)
    requires i in w.instances && w.instances[i].running && w.instances[i].busy.Free?
    ensures Legal(w, steps) && w' == After(w, steps)
    ensures var inst := w.instances[i];
            w' == With(w, i, inst.(running := false, stops := inst.stops + 1, busy := Releasing(0, true)), w.locks)
  {
    hide Legal, After;
    var w1;
    steps, w1 := First(w, BeginStop(i));
    steps, w' := Extend(w, steps, w1, BeginRelease(i));
  }

  /** Stop: the instance no longer runs, has no connection, and its listed shards
      are unlocked if that was open. */
  lemma StopRefines(w: World, i: nat) returns (steps: seq<Step>)
    requires NoGhosts(w) && i in w.instances && w.instances[i].running && w.instances[i].busy.Free?
    ensures Legal(w, steps)
    ensures var inst := w.instances[i];
            After(w, steps) ==
            With(w, i, inst.(running := false, conn := None),
                 if inst.conn.Some? && inst.conn.value.open
                 then Released(w.locks, inst.conn.value.session, inst.list) else w.locks)
  {
    var inst := w.instances[i];
    if inst.conn.Some? && inst.conn.value.session in w.dead { ReleaseByDead(w, inst.conn.value.session, inst.list); }
    hide Released, NoGhosts, Enabled, Apply, Legal, After;
    var begin, w1 := StopBegins(w, i);
    var rest := ReleaseInTurn(w1, i);
    Onward(w, begin, rest);
    steps := begin + rest;
  }

  /** A session that has ended holds nothing to release. */
  lemma ReleaseByDead(w: World, session: nat, list: seq<nat>)
    requires NoGhosts(w) && session in w.dead
    ensures Released(w.locks, session, list) == w.locks
  {
  }

  /** A failed ping. */
  lemma PingRefines(w: World, i: nat) returns (steps: seq<Step>, w': World)
    requires i in w.instances && w.instances[i].busy.Free?
    ensures Legal(w, steps) && w' == After(w, steps)
    ensures w' == With(w, i, w.instances[i].(list := [], ownedShards := {}), w.locks)
  {
    hide Legal, After;
    steps, w' := First(w, LoseShards(i));
  }

  // ----- Starting -----

  /** An instance in the middle of a start that has tried k shards. */
  function Walking(inst: Instance, locks: Locks, session: nat, k: nat): Instance
    requires k <= |inst.list|
  {
    inst.(running := true, conn := Some(Conn(session, true)), busy := Acquiring(k), up := false,
          ownedShards := Kept(locks, session, inst.list[..k], inst.ownedShards))
  }

  predicate CanStart(w: World, i: nat, session: nat) {
    && i in w.instances && !w.instances[i].running && w.instances[i].busy.Free?
    && session !in w.dead && forall j | j in w.instances :: !Uses(w.instances[j], session)
  }

  lemma WalkRun(w: World, i: nat, session: nat, k: nat) returns (steps: seq<Step>, w': World)
    requires CanStart(w, i, session) && k <= |w.instances[i].list|
    ensures Legal(w, steps) && w' == After(w, steps)
    ensures w' == With(w, i, Walking(w.instances[i], w.locks, session, k),
                       Acquired(w.locks, session, w.instances[i].list[..k]))
  {
    hide Acquired, Kept, Legal, After;
    var begin, w1 := First(w, BeginStart(i, session));
    var tries := TryRun(w1, i, session, k);
    Onward(w, begin, tries);
    steps, w' := begin + tries, After(w1, tries);
  }

  /** A start whose query at `failAt` fails, after or before the server granted the
      lock: what was locked stays locked, on a connection that is closed. */
  lemma StartBreaks(w: World, i: nat, session: nat, failAt: nat, granted: bool) returns (steps: seq<Step>, w': World)
    requires CanStart(w, i, session) && failAt < |w.instances[i].list|
    ensures Legal(w, steps) && w' == After(w, steps)
    ensures var inst, list := w.instances[i], w.instances[i].list;
            w' == With(w, i, inst.(running := true, conn := Some(Conn(session, false)), up := false,
                                   ownedShards := Kept(w.locks, session, list[..failAt], inst.ownedShards)),
                       Acquired(w.locks, session, if granted then list[..failAt + 1] else list[..failAt]))
  {
    var list := w.instances[i].list;
    assert list[..failAt + 1] == list[..failAt] + [list[failAt]];
    hide Acquired, Kept, Locked, Legal, After;
    AcquiredSnoc(w.locks, session, list[..failAt], list[failAt]);
    var walk, w1 := WalkRun(w, i, session, failAt);
    steps, w' := Extend(w, walk, w1, TryLockError(i, granted));
  }

  /** A start that has tried every shard and rebuilt its list from those left. */
  lemma RebuildRun(w: World, i: nat, session: nat, rebuilt: seq<nat>) returns (steps: seq<Step>, w': World)
    requires CanStart(w, i, session)
    requires SameShards(rebuilt, Kept(w.locks, session, w.instances[i].list, w.instances[i].ownedShards))
    ensures Legal(w, steps) && w' == After(w, steps)
    ensures var inst, some := w.instances[i], rebuilt != [];
            w' == With(w, i, inst.(running := true, conn := Some(Conn(session, some)), up := false, list := rebuilt,
                                   busy := if some then Ensuring else Free,
                                   ownedShards := Kept(w.locks, session, inst.list, inst.ownedShards)),
                       Acquired(w.locks, session, inst.list))
  {
    var list := w.instances[i].list;
    assert list[..|list|] == list;
    steps, w' := WalkRun(w, i, session, |list|);
    hide Acquired, Kept, SameShards, Legal, After;
    steps, w' := Extend(w, steps, w', FinishAcquire(i, rebuilt));
  }

  /** The start is up if any shard is left and the table is there; otherwise its
      connection is closed, and if only the table was missing the rebuilt list is
      unlocked again. */
  lemma StartWalks(w: World, i: nat, session: nat, tableOk: bool, rebuilt: seq<nat>) returns (steps: seq<Step>, w': World)
    requires CanStart(w, i, session)
    requires SameShards(rebuilt, Kept(w.locks, session, w.instances[i].list, w.instances[i].ownedShards))
    ensures Legal(w, steps) && w' == After(w, steps)
    ensures var inst, held := w.instances[i], Acquired(w.locks, session, w.instances[i].list);
            var ok := rebuilt != [] && tableOk;
            w' == With(w, i, inst.(running := true, conn := Some(Conn(session, ok)), up := ok, list := rebuilt,
                                   ownedShards := Kept(w.locks, session, inst.list, inst.ownedShards)),
                       if rebuilt != [] && !tableOk then Released(held, session, rebuilt) else held)
  {
    steps, w' := RebuildRun(w, i, session, rebuilt);
    hide Acquired, Kept, Released, SameShards, Legal, After;
    if rebuilt != [] && tableOk {
      steps, w' := Extend(w, steps, w', TableEnsured(i));
    } else if rebuilt != [] {
      steps, w' := Extend(w, steps, w', TableFailed(i));
      hide Enabled, Apply;
      var rest := ReleaseInTurn(w', i);
      Onward(w, steps, rest);
      steps, w' := steps + rest, After(w', rest);
    }
  }

  /** A start without a connection. */
  lemma StartUnconnected(w: World, i: nat) returns (steps: seq<Step>, w': World)
    requires i in w.instances && !w.instances[i].running && w.instances[i].busy.Free?
    ensures Legal(w, steps) && w' == After(w, steps)
    ensures w' == With(w, i, w.instances[i].(running := true, conn := None, up := false), w.locks)
  {
    hide Legal, After;
    steps, w' := First(w, NoConnection(i));
  }

  /** Another dispatcher's rebuild, seen in the list that both were given. */
  lemma OverwriteRefines(w: World, i: nat, list: seq<nat>) returns (steps: seq<Step>, w': World)
    requires i in w.instances && |list| == |w.instances[i].list|
    ensures Legal(w, steps) && w' == After(w, steps)
    ensures w' == With(w, i, w.instances[i].(list := list), w.locks).(meddled := w.meddled + {i})
  {
    hide Legal, After;
    steps, w' := First(w, Overwrite(i, list));
  }
}
