/** Shard ownership through PostgreSQL session-level advisory locks: every
    interleaving of instances starting, stopping, checking their lock
    connection and losing it. */
module ShardLocks {
  import opened Wrappers

  // ----- Advisory locks -----

  /** A lock is held by one session, as many times as it was taken. */
  datatype Lock = Lock(session: nat, count: nat)
  type Locks = map<nat, Lock>

  predicate Holds(locks: Locks, session: nat, shard: nat) {
    shard in locks && locks[shard].session == session
  }

  /** pg_try_advisory_lock */
  predicate Grants(locks: Locks, session: nat, shard: nat) {
    shard !in locks || locks[shard].session == session
  }

  function Locked(locks: Locks, session: nat, shard: nat): Locks {
    if !Grants(locks, session, shard) then locks
    else locks[shard := Lock(session, 1 + if shard in locks then locks[shard].count else 0)]
  }

  /** pg_advisory_unlock */
  function Unlocked(locks: Locks, session: nat, shard: nat): Locks {
    if !Holds(locks, session, shard) then locks
    else if locks[shard].count <= 1 then locks - {shard}
    else locks[shard := Lock(session, locks[shard].count - 1)]
  }

  /** A session that ends gives up all its locks. */
  function Dropped(locks: Locks, session: nat): Locks {
    map shard | shard in locks && locks[shard].session != session :: locks[shard]
  }

  // ----- Instances -----

  /** A connection taken from the pool. Closing it gives its session back to the
      pool, alive and with whatever locks it still holds. */
  datatype Conn = Conn(session: nat, open: bool)

  /** What holds the instance's mutex. */
  datatype Busy = Free | Acquiring(next: nat) | Ensuring | Releasing(next: nat, inStop: bool)

  datatype Instance = Instance(
    running: bool,
    conn: Option<Conn>,
    ownedShards: set<nat>,
    list: seq<nat>,   // ownedShardsList
    busy: Busy,
    up: bool,         // the last Start succeeded
    stops: nat)       // Stop calls that have not released the locks yet

  datatype World = World(
    instances: map<nat, Instance>,
    locks: Locks,
    dead: set<nat>,      // sessions that have ended
    meddled: set<nat>)   // instances whose list another dispatcher has written into

  datatype Step =
    | BeginStart(i: nat, session: nat)
    | NoConnection(i: nat)                  // Start could not get a connection
    | TryLock(i: nat)
    | TryLockError(i: nat, granted: bool)   // the query failed, before or after it took the lock
    | FinishAcquire(i: nat, list: seq<nat>)
    | TableEnsured(i: nat)
    | TableFailed(i: nat)
    | BeginStop(i: nat)
    | BeginRelease(i: nat)                  // a Stop call takes the mutex again
    | UnlockNext(i: nat)
    | FinishRelease(i: nat)
    | LoseShards(i: nat)                    // a failed ping clears the list
    | LoseSession(session: nat)
    | Overwrite(i: nat, list: seq<nat>)     // another dispatcher rebuilds its list in the same array

  predicate Uses(inst: Instance, session: nat) {
    inst.conn.Some? && inst.conn.value.open && inst.conn.value.session == session
  }

  predicate Alive(w: World, inst: Instance) {
    inst.conn.Some? && inst.conn.value.open && inst.conn.value.session !in w.dead
  }

  predicate AtLock(w: World, i: nat) {
    && i in w.instances && w.instances[i].busy.Acquiring? && w.instances[i].busy.next < |w.instances[i].list|
    && w.instances[i].conn.Some? && w.instances[i].conn.value.open
  }

  ghost predicate SameShards(list: seq<nat>, shards: set<nat>) {
    forall s :: s in list <==> s in shards
  }

  ghost predicate Enabled(w: World, step: Step) {
    match step
    case BeginStart(i, session) =>
      && i in w.instances && !w.instances[i].running && w.instances[i].busy.Free?
      && session !in w.dead && forall j | j in w.instances :: !Uses(w.instances[j], session)
    case NoConnection(i) => i in w.instances && !w.instances[i].running && w.instances[i].busy.Free?
    case TryLock(i) => AtLock(w, i) && Alive(w, w.instances[i])
    case TryLockError(i, granted) => AtLock(w, i) && (granted ==> Alive(w, w.instances[i]))
    case FinishAcquire(i, list) =>
      && i in w.instances && w.instances[i].busy == Acquiring(|w.instances[i].list|)
      && w.instances[i].conn.Some? && SameShards(list, w.instances[i].ownedShards)
    case TableEnsured(i) => i in w.instances && w.instances[i].busy.Ensuring?
    case TableFailed(i) => i in w.instances && w.instances[i].busy.Ensuring?
    case BeginStop(i) => i in w.instances && w.instances[i].running && w.instances[i].busy.Free?
    case BeginRelease(i) => i in w.instances && w.instances[i].busy.Free? && w.instances[i].stops > 0
    case UnlockNext(i) =>
      i in w.instances && w.instances[i].busy.Releasing? && w.instances[i].busy.next < |w.instances[i].list|
    case FinishRelease(i) =>
      && i in w.instances && w.instances[i].busy.Releasing? && w.instances[i].busy.next == |w.instances[i].list|
      && (w.instances[i].busy.inStop ==> w.instances[i].stops > 0)
    case LoseShards(i) => i in w.instances && w.instances[i].busy.Free?
    case LoseSession(_) => true
    case Overwrite(i, list) => i in w.instances && |list| == |w.instances[i].list|
  }

  function Closed(conn: Option<Conn>): Option<Conn> {
    if conn.Some? then Some(conn.value.(open := false)) else None
  }

  /** The shard tried next is dropped from the owned set if its lock is refused. */
  function AfterTry(w: World, inst: Instance): Instance
    requires inst.busy.Acquiring? && inst.busy.next < |inst.list| && inst.conn.Some?
  {
    var shard := inst.list[inst.busy.next];
    inst.(busy := Acquiring(inst.busy.next + 1),
          ownedShards := if Grants(w.locks, inst.conn.value.session, shard) then inst.ownedShards
                         else inst.ownedShards - {shard})
  }

  /** The acting instance after a step. */
  ghost function Acted(w: World, step: Step): Instance
    requires !step.LoseSession? && Enabled(w, step)
  {
    var inst := w.instances[step.i];
    match step
    case BeginStart(_, session) => inst.(running := true, conn := Some(Conn(session, true)), busy := Acquiring(0), up := false)
    case NoConnection(_) => inst.(running := true, conn := None, up := false)
    case TryLock(_) => AfterTry(w, inst)
    case TryLockError(_, _) => inst.(conn := Closed(inst.conn), busy := Free)
    case FinishAcquire(_, list) =>
      if list == [] then inst.(list := list, conn := Closed(inst.conn), busy := Free)
      else inst.(list := list, busy := Ensuring)
    case TableEnsured(_) => inst.(busy := Free, up := true)
    case TableFailed(_) => inst.(busy := Releasing(0, false))
    case BeginStop(_) => inst.(running := false, stops := inst.stops + 1)
    case BeginRelease(_) => inst.(busy := Releasing(0, true))
    case UnlockNext(_) => inst.(busy := inst.busy.(next := inst.busy.next + 1))
    case FinishRelease(_) =>
      if inst.busy.inStop then inst.(conn := None, busy := Free, stops := inst.stops - 1)
      else inst.(conn := Closed(inst.conn), busy := Free)
    case LoseShards(_) => inst.(list := [], ownedShards := {})
    case Overwrite(_, list) => inst.(list := list)
  }

  ghost function LocksAfter(w: World, step: Step): Locks
    requires Enabled(w, step)
  {
    match step
    case TryLock(i) =>
      var inst := w.instances[i];
      Locked(w.locks, inst.conn.value.session, inst.list[inst.busy.next])
    case TryLockError(i, granted) =>
      var inst := w.instances[i];
      if granted then Locked(w.locks, inst.conn.value.session, inst.list[inst.busy.next]) else w.locks
    case UnlockNext(i) =>
      var inst := w.instances[i];
      if Alive(w, inst) then Unlocked(w.locks, inst.conn.value.session, inst.list[inst.busy.next]) else w.locks
    case LoseSession(session) => Dropped(w.locks, session)
    case _ => w.locks
  }

  ghost function Apply(w: World, step: Step): World
    requires Enabled(w, step)
  {
    if step.LoseSession? then w.(locks := LocksAfter(w, step), dead := w.dead + {step.session})
    else w.(instances := w.instances[step.i := Acted(w, step)], locks := LocksAfter(w, step),
            meddled := if step.Overwrite? then w.meddled + {step.i} else w.meddled)
  }

  ghost predicate Legal(w: World, steps: seq<Step>)
    decreases |steps|
  {
    steps == [] || (Enabled(w, steps[0]) && Legal(Apply(w, steps[0]), steps[1..]))
  }

  ghost function After(w: World, steps: seq<Step>): World
    requires Legal(w, steps)
    decreases |steps|
  {
    if steps == [] then w else After(Apply(w, steps[0]), steps[1..])
  }

  // ----- What every step keeps -----

  /** How far down its list an instance must hold the locks of its owned shards. */
  function Secured(inst: Instance): nat {
    match inst.busy
    case Acquiring(next) => if next <= |inst.list| then next else |inst.list|
    case Ensuring => |inst.list|
    case Free => if inst.up then |inst.list| else 0
    case Releasing(_, _) => 0
  }

  ghost predicate Sound(w: World, inst: Instance) {
    && (forall s | s in inst.ownedShards :: s in inst.list)
    && (inst.busy.Free? && !inst.up ==> inst.conn.Some? ==> !inst.conn.value.open)
    && (inst.busy.Acquiring? || inst.busy.Ensuring? || (inst.busy.Releasing? && !inst.busy.inStop) ==> !inst.up)
    && ((inst.up || inst.busy.Acquiring? || inst.busy.Ensuring?) && inst.conn.Some? ==> inst.conn.value.open)
    && (inst.up || inst.busy.Ensuring? ==> SameShards(inst.list, inst.ownedShards))
    && (Alive(w, inst) ==> forall k | 0 <= k < Secured(inst) && inst.list[k] in inst.ownedShards ::
          Holds(w.locks, inst.conn.value.session, inst.list[k]))
  }

  ghost predicate Exclusive(w: World) {
    forall i, j, session | i in w.instances && j in w.instances && i != j
                         && Uses(w.instances[i], session) :: !Uses(w.instances[j], session)
  }

  /** No lock belongs to a session that has ended. */
  ghost predicate NoGhosts(w: World) {
    forall s | s in w.locks :: w.locks[s].session !in w.dead
  }

  ghost predicate Inv(w: World) {
    Exclusive(w) && NoGhosts(w) && forall i | i in w.instances && i !in w.meddled :: Sound(w, w.instances[i])
  }

  /** Other instances' steps do not take away a lock that an open, live session holds. */
  lemma StepKeepsLocks(w: World, step: Step, session: nat, shard: nat)
    requires Enabled(w, step) && Holds(w.locks, session, shard)
    requires step.LoseSession? ==> step.session != session
    requires step.UnlockNext? ==> !Uses(w.instances[step.i], session)
    ensures Holds(LocksAfter(w, step), session, shard)
  {
  }

  lemma StepExclusive(w: World, step: Step)
    requires Inv(w) && Enabled(w, step)
    ensures Exclusive(Apply(w, step))
  {
    var w' := Apply(w, step);
    forall i, j, session | i in w'.instances && j in w'.instances && i != j && Uses(w'.instances[i], session)
      ensures !Uses(w'.instances[j], session)
    {
      if !step.BeginStart? || step.session != session {
        assert Uses(w.instances[i], session);
        assert Uses(w'.instances[j], session) ==> Uses(w.instances[j], session);
      }
    }
  }

  lemma StepNoGhosts(w: World, step: Step)
    requires NoGhosts(w) && Enabled(w, step)
    ensures NoGhosts(Apply(w, step))
  {
  }

  lemma StepBystander(w: World, step: Step, i: nat)
    requires Inv(w) && Enabled(w, step) && i in w.instances && i !in w.meddled && (step.LoseSession? || step.i != i)
    ensures Sound(Apply(w, step), w.instances[i])
  {
    var w', inst := Apply(w, step), w.instances[i];
    assert Sound(w, inst);
    if Alive(w', inst) {
      var session := inst.conn.value.session;
      forall k | 0 <= k < Secured(inst) && inst.list[k] in inst.ownedShards
        ensures Holds(w'.locks, session, inst.list[k])
      {
        assert Uses(inst, session);
        StepKeepsLocks(w, step, session, inst.list[k]);
      }
    }
  }

  lemma Listed(list: seq<nat>, shards: set<nat>, s: nat)
    requires SameShards(list, shards) && s in list
    ensures s in shards
  {
  }

  lemma StepActor(w: World, step: Step)
    requires Inv(w) && Enabled(w, step) && !step.LoseSession? && !step.Overwrite? && step.i !in w.meddled
    ensures Sound(Apply(w, step), Acted(w, step))
  {
    var inst, inst' := w.instances[step.i], Acted(w, step);
    assert Sound(w, inst);
    if step.FinishAcquire? && Alive(w, inst') {
      assert inst'.list == step.list && SameShards(step.list, inst.ownedShards);
      forall k | 0 <= k < |inst'.list| ensures Holds(w.locks, inst'.conn.value.session, inst'.list[k]) {
        Listed(step.list, inst.ownedShards, inst'.list[k]);
        var j :| 0 <= j < |inst.list| && inst.list[j] == inst'.list[k];
      }
    }
  }

  // ----- Theorems -----

  /** Dispatchers as constructed: not started, each with its own shard list. */
  ghost predicate Initial(w: World) {
    NoGhosts(w) && forall i | i in w.instances ::
      var inst := w.instances[i];
      && !inst.running && inst.conn == None && inst.busy == Free && !inst.up && inst.stops == 0
      && SameShards(inst.list, inst.ownedShards)
  }

  lemma {:induction false} RunKeeps(w: World, steps: seq<Step>)
    requires Inv(w) && Legal(w, steps)
    ensures Inv(After(w, steps))
    decreases |steps|
  {
    if steps != [] {
      var step, w' := steps[0], Apply(w, steps[0]);
      StepExclusive(w, step);
      StepNoGhosts(w, step);
      forall i | i in w'.instances && i !in w'.meddled ensures Sound(w', w'.instances[i]) {
        if !step.LoseSession? && step.i == i { StepActor(w, step); } else { StepBystander(w, step, i); }
      }
      RunKeeps(w', steps[1..]);
    }
  }

  /** Started, not stopped, between critical sections, its lock connection open and
      alive, and its list its own. */
  ghost predicate Serving(w: World, i: nat) {
    && i in w.instances && i !in w.meddled && w.instances[i].running && w.instances[i].up && w.instances[i].busy.Free?
    && Alive(w, w.instances[i])
  }

  /** In every run a serving instance lists only shards its session has locked,
      so no two serving instances list the same shard. */
  lemma ServingIsExclusive(w: World, steps: seq<Step>, i: nat, j: nat)
    requires Initial(w) && Legal(w, steps) && i != j
    requires Serving(After(w, steps), i) && Serving(After(w, steps), j)
    ensures var w' := After(w, steps);
            && (forall s | s in w'.instances[i].list :: Holds(w'.locks, w'.instances[i].conn.value.session, s))
            && (forall s | s in w'.instances[i].list :: s !in w'.instances[j].list)
  {
    RunKeeps(w, steps);
    var w' := After(w, steps);
    ServingHolds(w', i);
    ServingHolds(w', j);
    assert Uses(w'.instances[i], w'.instances[i].conn.value.session);
    assert !Uses(w'.instances[j], w'.instances[i].conn.value.session);
  }

  lemma ServingHolds(w: World, i: nat)
    requires Inv(w) && Serving(w, i)
    ensures forall s | s in w.instances[i].list :: Holds(w.locks, w.instances[i].conn.value.session, s)
  {
    var inst := w.instances[i];
    assert Sound(w, inst);
    forall s | s in inst.list ensures Holds(w.locks, inst.conn.value.session, s) {
      var k :| 0 <= k < |inst.list| && inst.list[k] == s;
    }
  }

  /** The instance lists only shards that its session has locked. */
  predicate Owns(w: World, inst: Instance) {
    inst.conn.Some? && forall s | s in inst.list :: Holds(w.locks, inst.conn.value.session, s)
  }

  /** In every run, an instance that has started and lists shards owns them all
      exactly while its lock connection is there and its session has not ended. */
  lemma OwnsIffAlive(w: World, steps: seq<Step>, i: nat)
    requires Initial(w) && Legal(w, steps) && i in After(w, steps).instances
    requires i !in After(w, steps).meddled
    requires var inst := After(w, steps).instances[i]; inst.up && inst.busy.Free? && inst.list != []
    ensures var w' := After(w, steps); Owns(w', w'.instances[i]) <==> Alive(w', w'.instances[i])
  {
    RunKeeps(w, steps);
    var w' := After(w, steps);
    var inst := w'.instances[i];
    assert Sound(w', inst);
    if Alive(w', inst) {
      forall s | s in inst.list ensures Holds(w'.locks, inst.conn.value.session, s) {
        var k :| 0 <= k < |inst.list| && inst.list[k] == s;
      }
    } else if inst.conn.Some? {
      assert inst.list[0] in inst.list;
    }
  }

  /** No start begins while an earlier stop has yet to release its locks. */
  ghost predicate StopsFirst(w: World, steps: seq<Step>)
    requires Legal(w, steps)
    decreases |steps|
  {
    steps == [] ||
    ( && (steps[0].BeginStart? || steps[0].NoConnection? ==> w.instances[steps[0].i].stops == 0)
      && StopsFirst(Apply(w, steps[0]), steps[1..]))
  }

  /** Then a running instance that has started keeps its connection. */
  predicate Connected(inst: Instance) {
    && (inst.running ==> inst.stops == 0 && (inst.up ==> inst.conn.Some?))
    && (inst.busy.Acquiring? || inst.busy.Ensuring? ==> inst.conn.Some?)
    && (inst.busy.Releasing? && inst.busy.inStop ==> !inst.running)
  }

  lemma {:induction false} RunConnected(w: World, steps: seq<Step>)
    requires Legal(w, steps) && StopsFirst(w, steps) && forall i | i in w.instances :: Connected(w.instances[i])
    ensures forall i | i in After(w, steps).instances :: Connected(After(w, steps).instances[i])
    decreases |steps|
  {
    if steps != [] { RunConnected(Apply(w, steps[0]), steps[1..]); }
  }

  /** If starts wait for stops, a running instance that has started and lists
      shards owns them all exactly until its session ends. */
  lemma OwnsIffSessionLives(w: World, steps: seq<Step>, i: nat)
    requires Initial(w) && Legal(w, steps) && StopsFirst(w, steps) && i in After(w, steps).instances
    requires i !in After(w, steps).meddled
    requires var inst := After(w, steps).instances[i]; inst.running && inst.up && inst.busy.Free? && inst.list != []
    ensures var w' := After(w, steps);
            && w'.instances[i].conn.Some?
            && (Owns(w', w'.instances[i]) <==> w'.instances[i].conn.value.session !in w'.dead)
  {
    RunKeeps(w, steps);
    RunConnected(w, steps);
    OwnsIffAlive(w, steps, i);
    var w' := After(w, steps);
    assert Sound(w', w'.instances[i]) && Connected(w'.instances[i]);
  }

  // ----- Why starts must wait for stops -----

  lemma {:induction false} RunSnoc(w: World, steps: seq<Step>, step: Step)
    requires Legal(w, steps) && Enabled(After(w, steps), step)
    ensures Legal(w, steps + [step]) && After(w, steps + [step]) == Apply(After(w, steps), step)
    decreases |steps|
  {
    hide Enabled, Apply;
    if steps == [] {
      assert steps + [step] == [step] && [step][1..] == [];
    } else {
      assert (steps + [step])[0] == steps[0] && (steps + [step])[1..] == steps[1..] + [step];
      RunSnoc(Apply(w, steps[0]), steps[1..], step);
    }
  }

  lemma Extend(w0: World, steps: seq<Step>, w: World, step: Step) returns (steps': seq<Step>, w': World)
    requires Legal(w0, steps) && w == After(w0, steps) && Enabled(w, step)
    ensures w' == Apply(w, step) && Legal(w0, steps') && w' == After(w0, steps')
  {
    hide Enabled, Apply;
    RunSnoc(w0, steps, step);
    steps', w' := steps + [step], Apply(w, step);
  }

  const SHARD: nat := 7

  /** A world with one instance, which owns one shard. */
  function Single(inst: Instance, locks: Locks, dead: set<nat>): World {
    World(map[0 := inst], locks, dead, {})
  }

  /** A start on a fresh session that gets the shard's lock. */
  lemma StartRun(w0: World, steps: seq<Step>, w: World, inst: Instance, session: nat)
    returns (steps': seq<Step>, w': World)
    requires Legal(w0, steps) && w == After(w0, steps)
    requires w == Single(inst, map[], w.dead) && session !in w.dead && !Uses(inst, session)
    requires !inst.running && inst.busy.Free? && inst.ownedShards == {SHARD} && inst.list == [SHARD]
    ensures Legal(w0, steps') && w' == After(w0, steps')
    ensures w' == Single(inst.(running := true, conn := Some(Conn(session, true)), up := true),
                         map[SHARD := Lock(session, 1)], w.dead)
  {
    var s1, w1 := Extend(w0, steps, w, BeginStart(0, session));
    var s2, w2 := Extend(w0, s1, w1, TryLock(0));
    var s3, w3 := Extend(w0, s2, w2, FinishAcquire(0, [SHARD]));
    steps', w' := Extend(w0, s3, w3, TableEnsured(0));
  }

  const FRESH := Instance(false, None, {SHARD}, [SHARD], Free, false, 0)
  const STOPPING := FRESH.(conn := Some(Conn(1, true)), up := true, stops := 1)

  /** A start, a stop that has not released yet, and the loss of the session. */
  lemma StopRun() returns (steps: seq<Step>, w: World)
    ensures Legal(Single(FRESH, map[], {}), steps) && w == After(Single(FRESH, map[], {}), steps)
    ensures w == Single(STOPPING, map[], {1})
  {
    var w0 := Single(FRESH, map[], {});
    steps, w := StartRun(w0, [], w0, FRESH, 1);
    steps, w := Extend(w0, steps, w, BeginStop(0));
    steps, w := Extend(w0, steps, w, LoseSession(1));
    assert w.locks == map[] && w.dead == {1};
  }

  /** Starts must wait for stops: a Stop call still waiting when the next Start
      succeeds goes on to release that run's lock, and the instance keeps listing a
      shard that nothing locks. */
  lemma LateReleaseBreaksOwnership() returns (w0: World, steps: seq<Step>)
    ensures Initial(w0) && Legal(w0, steps)
    ensures var w := After(w0, steps);
            && 0 in w.instances && w.instances[0].running && w.instances[0].up && w.instances[0].busy.Free?
            && w.instances[0].list == [SHARD] && SHARD !in w.locks
  {
    w0 := Single(FRESH, map[], {});
    var w;
    steps, w := StopRun();
    steps, w := StartRun(w0, steps, w, STOPPING, 2);
    steps, w := ReleaseRun(w0, steps, w);
  }

  const HELD := STOPPING.(running := true, conn := Some(Conn(2, true)))
  const LOCKED: Locks := map[SHARD := Lock(2, 1)]

  lemma ReleaseBegins()
    ensures Enabled(Single(HELD, LOCKED, {1}), BeginRelease(0))
    ensures Apply(Single(HELD, LOCKED, {1}), BeginRelease(0)) == Single(HELD.(busy := Releasing(0, true)), LOCKED, {1})
  {
  }

  lemma ReleaseUnlocks()
    ensures var w := Single(HELD.(busy := Releasing(0, true)), LOCKED, {1});
            Enabled(w, UnlockNext(0)) && Apply(w, UnlockNext(0)) == Single(HELD.(busy := Releasing(1, true)), map[], {1})
  {
    assert Unlocked(LOCKED, 2, SHARD) == map[];
  }

  lemma ReleaseRun(w0: World, steps: seq<Step>, w: World) returns (steps': seq<Step>, w': World)
    requires Legal(w0, steps) && w == After(w0, steps) && w == Single(HELD, LOCKED, {1})
    ensures Legal(w0, steps') && w' == After(w0, steps')
    ensures w' == Single(HELD.(conn := None, stops := 0), map[], {1})
  {
    ReleaseBegins();
    var s1, w1 := Extend(w0, steps, w, BeginRelease(0));
    ReleaseUnlocks();
    var s2, w2 := Extend(w0, s1, w1, UnlockNext(0));
    steps', w' := Extend(w0, s2, w2, FinishRelease(0));
  }
}
