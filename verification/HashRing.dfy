/** Consistent hashing of tenants to partitions, with virtual nodes. */
module HashRing {
  import opened Bytes

  /** The hash is any function of the bytes; collisions are allowed. */
  type Hash = seq<byte> -> nat

  /** The bytes hashed for a virtual node: two big-endian 32-bit integers. */
  function NodeKey(partition: nat, replica: nat): seq<byte> {
    Big(partition % 0x1_0000_0000, 4) + Big(replica % 0x1_0000_0000, 4)
  }

  /** The first four bytes are the partition, the others the replica, so below
      2^32 no two virtual nodes share their bytes. */
  lemma NodeKeyParts(partition: nat, replica: nat)
    requires partition < 0x1_0000_0000 && replica < 0x1_0000_0000
    ensures var key := NodeKey(partition, replica);
            |key| == 8 && Value(key[..4]) == partition && Value(key[4..]) == replica
  {
    hide Big, Value, Span;
    Span4();
    ValueOfBig(partition, 4);
    ValueOfBig(replica, 4);
    assert NodeKey(partition, replica)[..4] == Big(partition, 4) && NodeKey(partition, replica)[4..] == Big(replica, 4);
  }

  lemma Span4()
    ensures Span(4) == 0x1_0000_0000
  {
  }

  lemma NodeKeyInjective(p: nat, i: nat, q: nat, j: nat)
    requires p < 0x1_0000_0000 && i < 0x1_0000_0000 && q < 0x1_0000_0000 && j < 0x1_0000_0000
    ensures NodeKey(p, i) == NodeKey(q, j) <==> p == q && i == j
  {
    NodeKeyParts(p, i);
    NodeKeyParts(q, j);
  }

  function Position(hash: Hash, partition: nat, replica: nat): nat {
    hash(NodeKey(partition, replica))
  }

  /** The ring after the first k virtual nodes of a partition are added; a node
      that collides with an earlier one takes its place. */
  function WithNodes(ring: map<nat, nat>, hash: Hash, partition: nat, k: nat): map<nat, nat> {
    if k == 0 then ring
    else WithNodes(ring, hash, partition, k - 1)[Position(hash, partition, k - 1) := partition]
  }

  function RingOf(hash: Hash, partitions: nat, replicas: nat): map<nat, nat> {
    if partitions == 0 then map[]
    else WithNodes(RingOf(hash, partitions - 1, replicas), hash, partitions - 1, replicas)
  }

  // ----- The nearest node clockwise -----

  /** s is the first position at or after h, or the first of all if none is. */
  ghost predicate IsSuccessor(positions: set<nat>, h: nat, s: nat) {
    && s in positions
    && if s >= h then forall t | t in positions && t >= h :: s <= t
       else forall t | t in positions :: t < h && s <= t
  }

  lemma SuccessorUnique(positions: set<nat>, h: nat, s: nat, t: nat)
    requires IsSuccessor(positions, h, s) && IsSuccessor(positions, h, t)
    ensures s == t
  {
  }

  /** How far clockwise from h to s, on a circle of 2^32 positions. */
  function Distance(h: nat, s: nat): nat
    requires h < 0x1_0000_0000 && s < 0x1_0000_0000
  {
    (s + 0x1_0000_0000 - h) % 0x1_0000_0000
  }

  /** It is the nearest position clockwise. */
  lemma SuccessorIsNearest(positions: set<nat>, h: nat, s: nat)
    requires h < 0x1_0000_0000 && s in positions && forall t | t in positions :: t < 0x1_0000_0000
    ensures IsSuccessor(positions, h, s) <==> forall t | t in positions :: Distance(h, s) <= Distance(h, t)
  {
    assert forall t | t in positions :: Distance(h, t) == if t >= h then t - h else t + 0x1_0000_0000 - h;
  }

  lemma {:induction false} SuccessorExists(positions: set<nat>, h: nat) returns (s: nat)
    requires positions != {}
    ensures IsSuccessor(positions, h, s)
    decreases positions
  {
    var p :| p in positions;
    if positions == {p} {
      s := p;
    } else {
      var rest := positions - {p};
      assert positions == rest + {p};
      var q := SuccessorExists(rest, h);
      assert forall t | t in positions :: t == p || t in rest;
      s := if (p >= h) == (q >= h) then (if p < q then p else q) else if p >= h then p else q;
    }
  }

  /** The partition that a key hashed to h belongs to. */
  ghost predicate Owns(ring: map<nat, nat>, h: nat, partition: nat) {
    exists s :: IsSuccessor(ring.Keys, h, s) && ring[s] == partition
  }

  lemma OwnerUnique(ring: map<nat, nat>, h: nat, p: nat, q: nat)
    requires Owns(ring, h, p) && Owns(ring, h, q)
    ensures p == q
  {
    var s :| IsSuccessor(ring.Keys, h, s) && ring[s] == p;
    var t :| IsSuccessor(ring.Keys, h, t) && ring[t] == q;
    SuccessorUnique(ring.Keys, h, s, t);
  }

  // ----- What adding a partition changes -----

  /** Adding nodes of a partition: the new positions hold it, the others are as before. */
  lemma {:induction false} WithNodesChanges(ring: map<nat, nat>, hash: Hash, partition: nat, k: nat)
    ensures var ring' := WithNodes(ring, hash, partition, k);
            && ring.Keys <= ring'.Keys
            && (forall s | s in ring' :: ring'[s] == partition || (s in ring && ring'[s] == ring[s]))
            && (k > 0 ==> Position(hash, partition, k - 1) in ring')
  {
    if k > 0 { WithNodesChanges(ring, hash, partition, k - 1); }
  }

  /** Some virtual node of the partition is at the position. */
  ghost predicate Places(hash: Hash, partition: nat, k: nat, s: nat) {
    exists i :: 0 <= i < k && hash(NodeKey(partition, i)) == s
  }

  lemma {:induction false} WithNodesExactly(ring: map<nat, nat>, hash: Hash, partition: nat, k: nat, s: nat)
    ensures var ring' := WithNodes(ring, hash, partition, k);
            && (s in ring' <==> s in ring || Places(hash, partition, k, s))
            && (s in ring' ==> ring'[s] == if Places(hash, partition, k, s) then partition else ring[s])
  {
    if k > 0 {
      WithNodesExactly(ring, hash, partition, k - 1, s);
      assert Position(hash, partition, k - 1) == s ==> Places(hash, partition, k, s);
    }
  }

  /** The ring holds exactly the positions of its virtual nodes, and where several
      partitions collide the last one has the position. */
  lemma {:induction false} RingExactly(hash: Hash, partitions: nat, replicas: nat, s: nat)
    ensures var ring := RingOf(hash, partitions, replicas);
            && (s in ring <==> exists p :: 0 <= p < partitions && Places(hash, p, replicas, s))
            && (s in ring ==> && ring[s] < partitions && Places(hash, ring[s], replicas, s)
                              && forall p | ring[s] < p < partitions :: !Places(hash, p, replicas, s))
  {
    if partitions > 0 {
      RingExactly(hash, partitions - 1, replicas, s);
      WithNodesExactly(RingOf(hash, partitions - 1, replicas), hash, partitions - 1, replicas, s);
    }
  }

  lemma {:induction false} RingInRange(hash: Hash, partitions: nat, replicas: nat)
    ensures forall s | s in RingOf(hash, partitions, replicas) :: RingOf(hash, partitions, replicas)[s] < partitions
    ensures partitions > 0 && replicas > 0 ==> RingOf(hash, partitions, replicas).Keys != {}
  {
    if partitions > 0 {
      RingInRange(hash, partitions - 1, replicas);
      WithNodesChanges(RingOf(hash, partitions - 1, replicas), hash, partitions - 1, replicas);
    }
  }

  /** Growing the ring by one partition leaves a key where it was or moves it to
      the new partition. */
  lemma GrowByOne(hash: Hash, n: nat, replicas: nat, h: nat, before: nat, after: nat)
    requires Owns(RingOf(hash, n, replicas), h, before)
    requires Owns(RingOf(hash, n + 1, replicas), h, after)
    ensures after == before || after == n
  {
    var ring, ring' := RingOf(hash, n, replicas), RingOf(hash, n + 1, replicas);
    WithNodesChanges(ring, hash, n, replicas);
    var s :| IsSuccessor(ring.Keys, h, s) && ring[s] == before;
    var t :| IsSuccessor(ring'.Keys, h, t) && ring'[t] == after;
    if ring'[t] != n {
      assert t in ring && IsSuccessor(ring.Keys, h, t);
      SuccessorUnique(ring.Keys, h, s, t);
    }
  }

  /** Growing from n to m partitions moves keys only to partitions from n on, so
      no key ever moves between two old partitions. */
  lemma {:induction false} Grow(hash: Hash, n: nat, m: nat, replicas: nat, h: nat, before: nat, after: nat)
    requires 0 < n <= m
    requires Owns(RingOf(hash, n, replicas), h, before)
    requires Owns(RingOf(hash, m, replicas), h, after)
    ensures after == before || n <= after < m
    decreases m
  {
    RingInRange(hash, m, replicas);
    if n == m {
      OwnerUnique(RingOf(hash, n, replicas), h, before, after);
    } else {
      var ring := RingOf(hash, m - 1, replicas);
      RingInRange(hash, m - 1, replicas);
      var s0 :| IsSuccessor(RingOf(hash, n, replicas).Keys, h, s0);
      KeysGrow(hash, n, m - 1, replicas);
      var s := SuccessorExists(ring.Keys, h);
      assert Owns(ring, h, ring[s]);
      Grow(hash, n, m - 1, replicas, h, before, ring[s]);
      GrowByOne(hash, m - 1, replicas, h, ring[s], after);
    }
  }

  lemma {:induction false} KeysGrow(hash: Hash, n: nat, m: nat, replicas: nat)
    requires n <= m
    ensures RingOf(hash, n, replicas).Keys <= RingOf(hash, m, replicas).Keys
    decreases m
  {
    if n < m {
      KeysGrow(hash, n, m - 1, replicas);
      WithNodesChanges(RingOf(hash, m - 1, replicas), hash, m - 1, replicas);
    }
  }

  // ----- The ring as built and searched -----

  predicate Sorted(s: seq<nat>) {
    forall i, j | 0 <= i < j < |s| :: s[i] <= s[j]
  }

  /** Go's sort.Slice: an ordered rearrangement. */
  method SortPositions(s: seq<nat>) returns (t: seq<nat>)
    ensures Sorted(t) && multiset(t) == multiset(s)
  {
    t := [];
    for i := 0 to |s|
      invariant Sorted(t) && multiset(t) == multiset(s[..i])
    {
      assert s[..i + 1] == s[..i] + [s[i]];
      t := InsertPosition(t, s[i]);
    }
    assert s[..|s|] == s;
  }

  method InsertPosition(s: seq<nat>, x: nat) returns (t: seq<nat>)
    requires Sorted(s)
    ensures Sorted(t) && multiset(t) == multiset(s) + multiset{x}
  {
    var k := 0;
    while k < |s| && s[k] <= x
      invariant 0 <= k <= |s| && forall j | 0 <= j < k :: s[j] <= x
    {
      k := k + 1;
    }
    assert forall j | k <= j < |s| :: x <= s[j];
    t := s[..k] + [x] + s[k..];
    InsertedOnce(s, k, x);
  }

  lemma InsertedOnce(s: seq<nat>, k: nat, x: nat)
    requires k <= |s|
    ensures multiset(s[..k] + [x] + s[k..]) == multiset(s) + multiset{x}
  {
    assert s == s[..k] + s[k..];
  }

  /** Go's sort.Search for the first position at or after h. */
  method Search(sorted: seq<nat>, h: nat) returns (idx: nat)
    requires Sorted(sorted)
    ensures idx <= |sorted|
    ensures forall i | 0 <= i < idx :: sorted[i] < h
    ensures forall i | idx <= i < |sorted| :: sorted[i] >= h
  {
    var lo, hi := 0, |sorted|;
    while lo < hi
      invariant 0 <= lo <= hi <= |sorted|
      invariant forall i | 0 <= i < lo :: sorted[i] < h
      invariant forall i | hi <= i < |sorted| :: sorted[i] >= h
    {
      var mid := (lo + hi) / 2;
      if sorted[mid] < h { lo := mid + 1; } else { hi := mid; }
    }
    idx := lo;
  }

  class ConsistentHashRing {
    const hash: Hash
    const partitions: nat
    const replicas: nat
    var ring: map<nat, nat>
    var sorted: seq<nat>

    ghost predicate Valid()
      reads this
    {
      && ring == RingOf(hash, partitions, replicas)
      && Sorted(sorted) && (set s | s in sorted) == ring.Keys
    }

    constructor (hash: Hash, partitions: int, replicas: int)
      ensures Valid() && this.hash == hash && this.partitions > 0 && this.replicas > 0
      ensures this.partitions == if partitions <= 0 then 1 else partitions
      ensures this.replicas == if replicas <= 0 then 150 else replicas
    {
      this.hash := hash;
      this.partitions := if partitions <= 0 then 1 else partitions;
      this.replicas := if replicas <= 0 then 150 else replicas;
      ring, sorted := map[], [];
      new;
      for p := 0 to this.partitions
        invariant ring == RingOf(hash, p, this.replicas) && (set s | s in sorted) == ring.Keys
      {
        AddPartition(p);
      }
      var ordered := SortPositions(sorted);
      assert forall s :: s in ordered <==> s in multiset(ordered);
      assert forall s :: s in sorted <==> s in multiset(sorted);
      sorted := ordered;
    }

    method AddPartition(partition: nat)
      requires (set s | s in sorted) == ring.Keys
      modifies this
      ensures ring == WithNodes(old(ring), hash, partition, replicas)
      ensures (set s | s in sorted) == ring.Keys
    {
      for i := 0 to replicas
        invariant ring == WithNodes(old(ring), hash, partition, i)
        invariant forall s :: s in sorted <==> s in ring
      {
        var position := hash(NodeKey(partition, i));
        ring := ring[position := partition];
        sorted := sorted + [position];
      }
    }

    /** The partition of a tenant is the one owning the nearest node clockwise. */
    method GetPartition(tenantID: seq<byte>) returns (partition: nat)
      requires Valid()
      ensures partitions > 0 && replicas > 0 ==>
                Owns(RingOf(hash, partitions, replicas), hash(tenantID), partition) && partition < partitions
      ensures ring.Keys == {} ==> partition == 0
    {
      RingInRange(hash, partitions, replicas);
      if |sorted| == 0 { return 0; }
      var h := hash(tenantID);
      var idx := Search(sorted, h);
      if idx >= |sorted| { idx := 0; }
      assert sorted[idx] in sorted;
      assert IsSuccessor(ring.Keys, h, sorted[idx]);
      partition := ring[sorted[idx]];
    }
  }
}
