/** The sharded dispatcher's lock handling as it runs against a lock server,
    and what one start and one stop do to the lock table. */
module ShardDispatcher {
  import opened Wrappers
  import opened ShardLocks
  import opened Sets

  function Count(locks: Locks, shard: nat): nat {
    if shard in locks then locks[shard].count else 0
  }

  /** The lock table after a session has tried every shard of a list in turn. */
  function Acquired(locks: Locks, session: nat, list: seq<nat>): Locks {
    map s | s in locks.Keys + Elements(list) ::
      if s in list && Grants(locks, session, s) then Lock(session, Count(locks, s) + Times(list, s))
      else locks[s]
  }

  /** The owned shards that remain: those not refused. */
  function Kept(locks: Locks, session: nat, list: seq<nat>, owned: set<nat>): set<nat> {
    set s | s in owned && (s in list ==> Grants(locks, session, s))
  }

  /** The lock table after a session has unlocked every shard of a list in turn. */
  function Released(locks: Locks, session: nat, list: seq<nat>): Locks {
    map s | s in locks && !(Holds(locks, session, s) && 0 < Times(list, s) && locks[s].count <= Times(list, s)) ::
      if Holds(locks, session, s) then Lock(session, locks[s].count - Times(list, s)) else locks[s]
  }

  function Times(list: seq<nat>, shard: nat): nat {
    multiset(list)[shard]
  }

  predicate WellFormed(locks: Locks) {
    forall s | s in locks :: locks[s].count >= 1
  }

  lemma AcquiredNone(locks: Locks, session: nat, owned: set<nat>)
    ensures Acquired(locks, session, []) == locks && Kept(locks, session, [], owned) == owned
  {
  }

  lemma KeptSnoc(locks: Locks, session: nat, list: seq<nat>, owned: set<nat>, shard: nat)
    ensures Kept(locks, session, list + [shard], owned) ==
            Kept(locks, session, list, owned) - (if Grants(locks, session, shard) then {} else {shard})
  {
    assert forall s :: s in list + [shard] <==> s in list || s == shard;
  }

  lemma AcquiredSnoc(locks: Locks, session: nat, list: seq<nat>, shard: nat)
    ensures Grants(Acquired(locks, session, list), session, shard) <==> Grants(locks, session, shard)
    ensures Acquired(locks, session, list + [shard]) == Locked(Acquired(locks, session, list), session, shard)
  {
    var before, after := Acquired(locks, session, list), Locked(Acquired(locks, session, list), session, shard);
    assert Grants(before, session, shard) <==> Grants(locks, session, shard);
    TimesSnoc(list, shard);
    assert Elements(list + [shard]) == Elements(list) + {shard};
    assert after.Keys == locks.Keys + Elements(list + [shard]);
    forall s | s in after ensures after[s] == Acquired(locks, session, list + [shard])[s] {
      assert s in list + [shard] <==> s in list || s == shard;
    }
  }

  lemma TimesIn(list: seq<nat>)
    ensures forall s :: s in list <==> Times(list, s) > 0
  {
    assert forall s :: s in list <==> s in multiset(list);
  }

  lemma TimesSnoc(list: seq<nat>, shard: nat)
    ensures forall s :: Times(list + [shard], s) == Times(list, s) + if s == shard then 1 else 0
  {
    assert multiset(list + [shard]) == multiset(list) + multiset{shard};
  }

  lemma ReleasedSnoc(locks: Locks, session: nat, list: seq<nat>, shard: nat)
    ensures Released(locks, session, list + [shard]) == Unlocked(Released(locks, session, list), session, shard)
  {
    var a, b := Released(locks, session, list + [shard]), Unlocked(Released(locks, session, list), session, shard);
    TimesSnoc(list, shard);
    hide Times;
    assert a.Keys == b.Keys;
  }

  /** Acquiring lists only locked shards, whatever the lock table, exactly when
      the owned set is contained in the list that is walked. It is when the two
      are built together; it need not be if two dispatchers are given the same
      OwnedShards slice, because the first one's rebuild writes into it. */
  lemma KeptAreLockedIff(session: nat, list: seq<nat>, owned: set<nat>)
    ensures (forall s | s in owned :: s in list) <==>
            forall locks: Locks, s | s in Kept(locks, session, list, owned) :: Holds(Acquired(locks, session, list), session, s)
  {
    if s :| s in owned && s !in list {
      var none: Locks := map[];
      assert s in Kept(none, session, list, owned) && s !in Acquired(none, session, list);
    }
  }

  /** An ascending list names each of its shards once. */
  lemma {:induction false} AscendingOnce(list: seq<nat>, shard: nat)
    requires Ascending(list) && shard in list
    ensures Times(list, shard) == 1
  {
    var init, last := list[..|list| - 1], list[|list| - 1];
    assert list == init + [last];
    assert multiset(list) == multiset(init) + multiset{last};
    TimesIn(init);
    if shard in init { AscendingOnce(init, shard); }
  }

  /** Releasing by any list undoes acquiring by another exactly when each shard
      that the session could lock is named as often in both; a shard that was not
      locked before may also be named more often. */
  lemma ReleaseUndoesIff(locks: Locks, session: nat, list: seq<nat>, atStop: seq<nat>)
    requires WellFormed(locks)
    ensures Released(Acquired(locks, session, list), session, atStop) == locks <==>
            forall s | Grants(locks, session, s) :: Undone(locks, list, atStop, s)
  {
    var held := Acquired(locks, session, list);
    var left := Released(held, session, atStop);
    TimesIn(list);
    TimesIn(atStop);
    forall s ensures (s in left <==> s in locks) && (s in left ==> left[s] == locks[s]) <==>
                     (Grants(locks, session, s) ==> Undone(locks, list, atStop, s))
    {
      ReleaseOne(locks, session, list, atStop, s);
    }
    if forall s | Grants(locks, session, s) :: Undone(locks, list, atStop, s) {
      assert left.Keys == locks.Keys;
    }
  }

  predicate Undone(locks: Locks, list: seq<nat>, atStop: seq<nat>, s: nat) {
    if s in locks then Times(atStop, s) == Times(list, s) else Times(atStop, s) >= Times(list, s)
  }

  lemma ReleaseOne(locks: Locks, session: nat, list: seq<nat>, atStop: seq<nat>, s: nat)
    requires WellFormed(locks)
    ensures var left := Released(Acquired(locks, session, list), session, atStop);
            (s in left <==> s in locks) && (s in left ==> left[s] == locks[s]) <==>
            (Grants(locks, session, s) ==> Undone(locks, list, atStop, s))
  {
    TimesIn(list);
    TimesIn(atStop);
    hide Times;
  }

  /** A stop that follows its start, and walks the list that the start rebuilt
      from the owned shards, undoes it exactly when each shard that was granted is
      owned and listed once, and no owned shard that is not listed was locked by the
      session before. */
  lemma StopUndoesStartIff(locks: Locks, session: nat, list: seq<nat>, owned: set<nat>, rebuilt: seq<nat>)
    requires WellFormed(locks)
    requires Ascending(rebuilt) && SameShards(rebuilt, Kept(locks, session, list, owned))
    ensures Released(Acquired(locks, session, list), session, rebuilt) == locks <==>
            && (forall s | s in list && Grants(locks, session, s) :: s in owned && Times(list, s) == 1)
            && (forall s | s in owned && s !in list :: !Holds(locks, session, s))
  {
    ReleaseUndoesIff(locks, session, list, rebuilt);
    TimesIn(list);
    TimesIn(rebuilt);
    hide Acquired, Released, Times;
    forall s | Grants(locks, session, s)
      ensures Undone(locks, list, rebuilt, s) <==>
              (s in list ==> s in owned && Times(list, s) == 1) && (s in owned && s !in list ==> !Holds(locks, session, s))
    {
      if s in rebuilt { AscendingOnce(rebuilt, s); }
    }
  }

  /** For a dispatcher that owns what it lists, as a new one does, that is when no
      shard that was granted is repeated in the list. */
  lemma FirstStopUndoesStartIff(locks: Locks, session: nat, list: seq<nat>, rebuilt: seq<nat>)
    requires WellFormed(locks)
    requires Ascending(rebuilt) && SameShards(rebuilt, Kept(locks, session, list, Elements(list)))
    ensures Released(Acquired(locks, session, list), session, rebuilt) == locks <==>
            forall s | s in list && Grants(locks, session, s) :: Times(list, s) == 1
  {
    StopUndoesStartIff(locks, session, list, Elements(list), rebuilt);
    hide Acquired, Released, Times;
  }

  /** A stop after a failed ping, which empties the list, undoes the start
      exactly when the start had been granted nothing; and a start that fails at a
      query, whose connection no stop uses, when nothing was granted up to there. */
  lemma StopAfterLostPingIff(locks: Locks, session: nat, list: seq<nat>)
    requires WellFormed(locks)
    ensures Released(Acquired(locks, session, list), session, []) == locks <==>
            forall s | s in list :: !Grants(locks, session, s)
  {
    ReleaseUndoesIff(locks, session, list, []);
    TimesIn(list);
    TimesIn([]);
    hide Acquired, Released, Times;
    forall s | Grants(locks, session, s) ensures Undone(locks, list, [], s) <==> s !in list {
    }
  }

  class LockServer {
    var locks: Locks

    constructor ()
      ensures locks == map[]
    {
      locks := map[];
    }

    method TryAdvisoryLock(session: nat, shard: nat) returns (acquired: bool)
      modifies this
      ensures acquired <==> Grants(old(locks), session, shard)
      ensures locks == Locked(old(locks), session, shard)
    {
      acquired := shard !in locks || locks[shard].session == session;
      if acquired { locks := locks[shard := Lock(session, Count(locks, shard) + 1)]; }
    }

    method AdvisoryUnlock(session: nat, shard: nat)
      modifies this
      ensures locks == Unlocked(old(locks), session, shard)
    {
      if shard in locks && locks[shard].session == session {
        if locks[shard].count <= 1 {
          locks := locks - {shard};
        } else {
          locks := locks[shard := Lock(session, locks[shard].count - 1)];
        }
      }
    }
  }

  /** The elements of a set in ascending order. */
  method SortedList(shards: set<nat>) returns (list: seq<nat>)
    ensures Ascending(list) && SameShards(list, shards) && |list| == |shards|
  {
    list := [];
    var rest := shards;
    while rest != {}
      invariant Ascending(list) && rest <= shards && |list| + |rest| == |shards|
      invariant forall s :: s in shards <==> s in list || s in rest
      invariant forall k, s | 0 <= k < |list| && s in rest :: list[k] < s
      decreases rest
    {
      var least := Least(rest);
      list, rest := list + [least], rest - {least};
    }
  }

  /** The last of an ascending list is its greatest, and the rest is below it. */
  lemma AscendingLast(a: seq<nat>)
    requires Ascending(a) && a != []
    ensures var init, last := a[..|a| - 1], a[|a| - 1];
            Ascending(init) && forall s :: (s in init <==> s in a && s < last) && (s in a ==> s <= last)
  {
    var init, last := a[..|a| - 1], a[|a| - 1];
    forall s ensures (s in init <==> s in a && s < last) && (s in a ==> s <= last) {
      if s in a {
        var k :| 0 <= k < |a| && a[k] == s;
        if k < |a| - 1 { assert init[k] == s; }
      }
      if s in init {
        var k :| 0 <= k < |init| && init[k] == s;
        assert a[k] == s;
      }
    }
  }

  /** An ascending list is determined by its elements. */
  lemma {:induction false} AscendingUnique(a: seq<nat>, b: seq<nat>)
    requires Ascending(a) && Ascending(b) && forall s :: s in a <==> s in b
    ensures a == b
    decreases |a|
  {
    assert a != [] ==> a[|a| - 1] in b;
    assert b != [] ==> b[|b| - 1] in a;
    if a != [] && b != [] {
      AscendingLast(a);
      AscendingLast(b);
      hide Ascending;
      AscendingUnique(a[..|a| - 1], b[..|b| - 1]);
      assert a == a[..|a| - 1] + [a[|a| - 1]] && b == b[..|b| - 1] + [b[|b| - 1]];
    }
  }

  /** Writes a list over the start of an array. */
  method WriteOver(a: array<int>, list: seq<nat>)
    requires |list| <= a.Length
    modifies a
    ensures a[..] == list + old(a[..])[|list|..]
  {
    for i := 0 to |list|
      invariant forall k | 0 <= k < i :: a[k] == list[k]
      invariant forall k | i <= k < a.Length :: a[k] == old(a[k])
    {
      a[i] := list[i];
    }
  }

  lemma {:induction false} ElementsSize(list: seq<nat>)
    ensures |Elements(list)| <= |list|
  {
    if list != [] {
      ElementsSize(list[1..]);
      assert list == [list[0]] + list[1..];
      assert Elements(list) == {list[0]} + Elements(list[1..]);
    }
  }

  class ShardedDispatcher {
    const server: LockServer
    const shards: array<int>    // the configured OwnedShards, which ownedShardsList starts
    var count: nat              // the length of ownedShardsList
    var running: bool
    var lockConn: Option<Conn>
    var ownedShards: set<nat>

    predicate Valid()
      reads this, shards
    {
      && count <= shards.Length && |ownedShards| <= shards.Length
      && forall k | 0 <= k < shards.Length :: shards[k] >= 0
    }

    /** ownedShardsList: a prefix of the configured array. */
    function List(): seq<nat>
      requires Valid()
      reads this, shards
    {
      shards[..count]
    }

    /** A dispatcher as the factory makes it from a validated configuration. */
    constructor (server: LockServer, shards: array<int>)
      requires forall k | 0 <= k < shards.Length :: shards[k] >= 0
      ensures this.server == server && this.shards == shards && !running && lockConn == None
      ensures Valid() && count == shards.Length && ownedShards == Elements(List())
    {
      var list: seq<nat> := shards[..];
      this.server, this.shards, count, running, lockConn := server, shards, shards.Length, false, None;
      ownedShards := Elements(list);
      new;
      ElementsSize(list);
      assert List() == list;
    }

    /** The factory: rejects a configuration without shards, with one out of range,
        or without a database. The dispatcher keeps the configured array itself. */
    static method NewShardedDispatcher(server: LockServer?, shardCount: int, shards: array<int>)
      returns (d: ShardedDispatcher?)
      ensures d != null <==>
                && shardCount > 0 && shards.Length > 0 && server != null
                && forall k | 0 <= k < shards.Length :: 0 <= shards[k] < shardCount
      ensures d != null ==> && fresh(d) && d.server == server && d.shards == shards && !d.running && d.lockConn == None
                            && d.Valid() && d.count == shards.Length && d.ownedShards == Elements(d.List())
    {
      if shardCount <= 0 || shards.Length == 0 || server == null { return null; }
      for i := 0 to shards.Length
        invariant forall k | 0 <= k < i :: 0 <= shards[k] < shardCount
      {
        if shards[i] < 0 || shards[i] >= shardCount { return null; }
      }
      d := new ShardedDispatcher(server, shards);
    }

    /** Tries the lock of each listed shard in turn, and drops the shards whose
        lock is refused. Ends early at a query that fails. */
    method WalkLocks(session: nat, failAt: nat) returns (ok: bool)
      requires Valid()
      modifies this`ownedShards, server
      ensures ok <==> failAt >= count
      ensures var walked := Walked(old(List()), failAt);
              && server.locks == Acquired(old(server.locks), session, walked)
              && ownedShards == Kept(old(server.locks), session, walked, old(ownedShards))
    {
      var list := List();
      AcquiredNone(server.locks, session, ownedShards);
      hide Acquired, Kept, Locked;
      for i := 0 to |list|
        invariant i <= failAt && server.locks == Acquired(old(server.locks), session, list[..i])
        invariant ownedShards == Kept(old(server.locks), session, list[..i], old(ownedShards))
      {
        if i == failAt { return false; }
        AcquiredSnoc(old(server.locks), session, list[..i], list[i]);
        KeptSnoc(old(server.locks), session, list[..i], old(ownedShards), list[i]);
        assert list[..i + 1] == list[..i] + [list[i]];
        var acquired := server.TryAdvisoryLock(session, list[i]);
        if !acquired { ownedShards := ownedShards - {list[i]}; }
      }
      assert list[..|list|] == list;
      ok := true;
    }

    /** Walks the list, and rebuilds it from the shards that are left, in place. A
        walk that ends early leaves the list as it was. */
    method AcquireShardLocks(session: nat, failAt: nat) returns (ok: bool)
      requires Valid()
      modifies this`ownedShards, this`count, shards, server
      ensures Valid()
      ensures var walked := Walked(old(List()), failAt);
              && server.locks == Acquired(old(server.locks), session, walked)
              && ownedShards == Kept(old(server.locks), session, walked, old(ownedShards))
      ensures if failAt < |old(List())| then !ok && count == old(count) && shards[..] == old(shards[..])
              else SameShards(List(), ownedShards) && Ascending(List()) && (ok <==> ownedShards != {})
                   && shards[..] == List() + old(shards[..])[|List()|..]
    {
      ok := WalkLocks(session, failAt);
      KeptSize(old(server.locks), session, Walked(old(List()), failAt), old(ownedShards));
      hide Acquired, Kept;
      if !ok { return; }
      var list := SortedList(ownedShards);
      WriteOver(shards, list);
      count := |list|;
      assert forall k | 0 <= k < shards.Length :: shards[k] == shards[..][k];
      assert List() == list;
      ok := count != 0;
      assert ok ==> list[0] in ownedShards;
    }

    /** Unlocks each listed shard in turn on the open connection. */
    method ReleaseAllLocks()
      requires Valid()
      modifies server
      ensures server.locks == if lockConn.Some? && lockConn.value.open
                              then Released(old(server.locks), lockConn.value.session, List())
                              else old(server.locks)
    {
      if lockConn.None? || !lockConn.value.open { return; }
      var session := lockConn.value.session;
      assert server.locks == Released(server.locks, session, []);
      hide Released, Unlocked;
      for i := 0 to count
        invariant server.locks == Released(old(server.locks), session, List()[..i])
      {
        ReleasedSnoc(old(server.locks), session, List()[..i], List()[i]);
        assert List()[..i + 1] == List()[..i] + [List()[i]];
        server.AdvisoryUnlock(session, List()[i]);
      }
      assert List()[..count] == List();
    }

    /** Start on the session it is given, if any. A dispatcher whose owned shards
        are in its list lists, once started, only shards its session has locked.
        A failed start leaves the dispatcher marked as running. */
    method Start(session: Option<nat>, failAt: nat, tableOk: bool) returns (ok: bool)
      requires Valid()
      modifies this, shards, server
      ensures Valid() && running
      ensures old(running) || session.None? ==>
                && server.locks == old(server.locks)
                && ownedShards == old(ownedShards) && count == old(count) && shards[..] == old(shards[..])
      ensures old(running) ==> ok && lockConn == old(lockConn)
      ensures !old(running) && session.None? ==> !ok && lockConn == None
      ensures !old(running) && session.Some? ==>
                var list := old(List());
                var walked := Walked(list, failAt);
                var kept := Kept(old(server.locks), session.value, walked, old(ownedShards));
                var held := Acquired(old(server.locks), session.value, walked);
                && ownedShards == kept && lockConn == Some(Conn(session.value, ok))
                && (ok <==> failAt >= |list| && kept != {} && tableOk)
                && (if failAt < |list| then count == old(count) && shards[..] == old(shards[..])
                    else && SameShards(List(), kept) && Ascending(List())
                         && shards[..] == List() + old(shards[..])[|List()|..])
                && server.locks == if failAt >= |list| && kept != {} && !tableOk
                                   then Released(held, session.value, List()) else held
      ensures !old(running) && (forall s | s in old(ownedShards) :: s in old(List())) && ok ==>
                && List() != []
                && forall s | s in List() :: Holds(server.locks, session.value, s)
    {
      if running { return true; }
      running := true;
      if session.None? {
        lockConn := None;
        return false;
      }
      lockConn := Some(Conn(session.value, true));
      ok := AcquireShardLocks(session.value, failAt);
      if ok && !tableOk {
        ReleaseAllLocks();
        ok := false;
      }
      if !ok { lockConn := Some(Conn(session.value, false)); }
      KeptAreLockedIff(session.value, old(List()), old(ownedShards));
      assert ok ==> Walked(old(List()), failAt) == old(List());
      hide Acquired, Kept, Released, Ascending;
    }

    method Stop()
      requires Valid()
      modifies this, server
      ensures !running && count == old(count) && ownedShards == old(ownedShards)
      ensures lockConn == if old(running) then None else old(lockConn)
      ensures server.locks == if old(running) && old(lockConn).Some? && old(lockConn).value.open
                              then Released(old(server.locks), old(lockConn).value.session, old(List()))
                              else old(server.locks)
    {
      if !running { return; }
      running := false;
      ReleaseAllLocks();
      lockConn := None;
    }

    /** A failed ping empties the list, in place, and the owned set. */
    method VerifyLockHealth(alive: bool)
      requires Valid()
      modifies this`ownedShards, this`count
      ensures Valid()
      ensures if lockConn.Some? && !alive then List() == [] && ownedShards == {}
              else count == old(count) && ownedShards == old(ownedShards)
    {
      if lockConn.Some? && !alive { count, ownedShards := 0, {}; }
    }
  }

  /** The part of a list walked before the query at `failAt` fails. */
  function Walked(list: seq<nat>, failAt: nat): seq<nat> {
    if failAt < |list| then list[..failAt] else list
  }

  lemma KeptSize(locks: Locks, session: nat, list: seq<nat>, owned: set<nat>)
    ensures |Kept(locks, session, list, owned)| <= |owned|
  {
    var kept := Kept(locks, session, list, owned);
    assert owned == kept + (owned - kept);
  }
}
