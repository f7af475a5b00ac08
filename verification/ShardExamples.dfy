/** Runs of the sharded dispatcher that leave locks behind, or list unlocked shards. */
module ShardExamples {
  import opened Wrappers
  import opened Sets
  import opened ShardLocks
  import opened ShardDispatcher

  const TAKEN: Locks := map[1 := Lock(9, 1)]  // another session has locked shard 1

  /** A dispatcher over the shards from `first` on, and a server of its own. */
  method NewOver(first: nat, n: nat) returns (d: ShardedDispatcher)
    ensures fresh(d) && fresh(d.shards) && fresh(d.server) && d.Valid() && d.shards.Length == n
    ensures !d.running && d.lockConn == None && d.server.locks == map[]
    ensures d.List() == seq(n, i => first + i) && d.ownedShards == Elements(d.List())
  {
    var server := new LockServer();
    var shards := new int[n](i => first + i);
    d := new ShardedDispatcher(server, shards);
  }

  /** A start that succeeds, with the list and the lock table it leads to. */
  method GoodStart(d: ShardedDispatcher, session: nat, ghost after: seq<nat>, ghost locks: Locks)
    requires d.Valid() && !d.running && Ascending(after) && after != []
    requires Kept(d.server.locks, session, d.List(), d.ownedShards) == Elements(after)
    requires Acquired(d.server.locks, session, d.List()) == locks
    modifies d, d.shards, d.server
    ensures d.Valid() && d.running && d.lockConn == Some(Conn(session, true))
    ensures d.List() == after && d.server.locks == locks
    ensures d.shards[..] == after + old(d.shards[..])[|after|..]
  {
    hide Acquired, Kept, Released;
    assert after[0] in Elements(after);
    var ok := d.Start(Some(session), d.count, true);
    AscendingUnique(d.List(), after);
  }

  // ----- Locks left behind -----

  /** A start, a failed ping and a stop leave the lock of the only shard held. */
  method FailedPingLeaksLock() returns (d: ShardedDispatcher)
    ensures !d.running && d.lockConn == None && Holds(d.server.locks, 1, 7)
  {
    d := NewOver(7, 1);
    assert d.List() == [7] && d.ownedShards == {7};
    OneStart();
    hide Acquired, Kept, Released;
    GoodStart(d, 1, [7], map[7 := Lock(1, 1)]);
    StopAfterLostPing(d);
  }

  method StopAfterLostPing(d: ShardedDispatcher)
    requires d.Valid() && d.running && d.lockConn == Some(Conn(1, true)) && d.server.locks == map[7 := Lock(1, 1)]
    modifies d, d.server
    ensures !d.running && d.lockConn == None && Holds(d.server.locks, 1, 7)
  {
    OneStart();
    hide Acquired, Kept, Released;
    d.VerifyLockHealth(false);
    d.Stop();
  }

  lemma OneStart()
    ensures Kept(map[], 1, [7], {7}) == {7} && Acquired(map[], 1, [7]) == map[7 := Lock(1, 1)]
    ensures Released(map[7 := Lock(1, 1)], 1, []) == map[7 := Lock(1, 1)]
  {
    assert Times([7], 7) == 1;
  }

  /** Refused shard 1 and failing at shard 2, a start leaves 1 listed and not owned. */
  method DisownedByFailedStart() returns (d: ShardedDispatcher)
    ensures fresh(d) && fresh(d.shards) && fresh(d.server) && d.Valid()
    ensures !d.running && d.lockConn == None && d.List() == [1, 2] && d.ownedShards == {2}
    ensures d.server.locks == TAKEN
  {
    d := NewOver(1, 2);
    assert d.List() == [1, 2] && d.ownedShards == {1, 2};
    var other := d.server.TryAdvisoryLock(9, 1);
    FailPartWay(d);
  }

  method FailPartWay(d: ShardedDispatcher)
    requires d.Valid() && d.List() == [1, 2] && d.ownedShards == {1, 2} && d.server.locks == TAKEN
    requires !d.running
    modifies d, d.shards, d.server
    ensures d.Valid() && !d.running && d.lockConn == None && d.List() == [1, 2] && d.ownedShards == {2}
    ensures d.server.locks == TAKEN
  {
    FirstTry();
    assert [1, 2][..1] == [1];
    hide Acquired, Kept, Released, Ascending, SameShards;
    var ok := d.Start(Some(1), 1, true);
    assert d.List() == [1, 2];
    d.Stop();
  }

  lemma FirstTry()
    ensures Kept(TAKEN, 1, [1], {1, 2}) == {2} && Acquired(TAKEN, 1, [1]) == TAKEN
  {
  }

  /** A start that fails part-way disowns a refused shard and keeps it listed. The
      next start locks it, does not list it again, and its stop leaves it locked. */
  method FailedStartLeaksLock() returns (d: ShardedDispatcher)
    ensures !d.running && d.lockConn == None && Holds(d.server.locks, 2, 1)
  {
    d := DisownedByFailedStart();
    d.server.AdvisoryUnlock(9, 1);
    assert d.server.locks == map[];
    SecondTry();
    hide Acquired, Kept, Released;
    GoodStart(d, 2, [2], map[1 := Lock(2, 1), 2 := Lock(2, 1)]);
    d.Stop();
    OneReleased();
  }

  lemma SecondTry()
    ensures Kept(map[], 2, [1, 2], {2}) == {2}
    ensures Acquired(map[], 2, [1, 2]) == map[1 := Lock(2, 1), 2 := Lock(2, 1)]
  {
    assert Times([1, 2], 1) == 1 && Times([1, 2], 2) == 1;
  }

  lemma OneReleased()
    ensures Holds(Released(map[1 := Lock(2, 1), 2 := Lock(2, 1)], 2, [2]), 2, 1)
  {
    assert Times([2], 1) == 0;
  }

  // ----- A shared array -----

  const AFTER: Locks := map[1 := Lock(9, 1), 2 := Lock(1, 1), 3 := Lock(1, 1)]

  /** The first of two dispatchers over one array, refused shard 1, moves shards 2
      and 3 down in it. */
  method FirstStarts(a: ShardedDispatcher, b: ShardedDispatcher)
    requires a != b && a.shards == b.shards && a.server == b.server && a.Valid() && b.Valid()
    requires a.List() == [1, 2, 3] && a.ownedShards == {1, 2, 3} && !a.running && a.shards.Length == 3
    requires b.count == 3 && b.ownedShards == {1, 2, 3} && !b.running && a.server.locks == TAKEN
    modifies a, a.shards, a.server
    ensures b.Valid() && b.List() == [2, 3, 3]
    ensures b.server.locks == AFTER
  {
    FirstStart();
    ghost var before := a.shards[..];
    assert before == [1, 2, 3];
    hide Acquired, Kept, Released;
    GoodStart(a, 1, [2, 3], AFTER);
    assert a.shards[..] == [2, 3] + before[2..] == [2, 3, 3];
  }

  /** The second then walks 2, 3, 3, is refused those, and is left listing shard
      1, which it never tried to lock. */
  method SharedArrayBreaksOwnership() returns (a: ShardedDispatcher, b: ShardedDispatcher)
    ensures a != b && a.shards == b.shards && a.server == b.server
    ensures b.Valid() && b.running && b.lockConn == Some(Conn(2, true)) && b.List() == [1]
    ensures !Holds(b.server.locks, 2, 1)
  {
    a := NewOver(1, 3);
    assert a.List() == [1, 2, 3] && a.ownedShards == {1, 2, 3};
    b := new ShardedDispatcher(a.server, a.shards);
    var other := a.server.TryAdvisoryLock(9, 1);
    FirstStarts(a, b);
    SecondStarts(b);
  }

  method SecondStarts(b: ShardedDispatcher)
    requires b.Valid() && b.List() == [2, 3, 3] && b.ownedShards == {1, 2, 3} && !b.running
    requires b.server.locks == AFTER
    modifies b, b.shards, b.server
    ensures b.Valid() && b.running && b.lockConn == Some(Conn(2, true)) && b.List() == [1]
    ensures !Holds(b.server.locks, 2, 1)
  {
    SecondStart();
    hide Acquired, Kept, Released;
    GoodStart(b, 2, [1], AFTER);
  }

  lemma FirstStart()
    ensures Kept(TAKEN, 1, [1, 2, 3], {1, 2, 3}) == {2, 3}
    ensures Acquired(TAKEN, 1, [1, 2, 3]) == AFTER
  {
    assert Times([1, 2, 3], 2) == 1 && Times([1, 2, 3], 3) == 1;
  }

  lemma SecondStart()
    ensures Kept(AFTER, 2, [2, 3, 3], {1, 2, 3}) == {1} && Acquired(AFTER, 2, [2, 3, 3]) == AFTER
  {
  }
}
