/** The read-through subscription cache over a backend table. A read is served as
    the backend would serve it, although the cache may lose deletes and sets,
    unless it meets a stale entry that it cannot purge or a key shared by two rows. */
module CachedRepo {
  import opened Wrappers
  import opened Keys

  datatype Row = Row(tenant: string, status: string, version: int)

  /** What the cache holds for a key: the row, when it was stored, when it expires. */
  datatype Envelope = Envelope(data: Row, storedAt: int)
  datatype Item = Item(value: Envelope, exp: Option<int>)

  datatype Reply = Found(row: Row) | NotFound | BackendError

  // ----- Keys -----

  function CacheKey(id: string): string {
    "sub:byid:" + id
  }

  function TenantCacheKey(id: string, tenant: string): string {
    "sub:byidandtenant:" + Join(id, ':', tenant)
  }

  predicate TenantKind(key: string) {
    "sub:byidandtenant:" <= key
  }

  lemma CacheKeyInjective(a: string, b: string)
    requires CacheKey(a) == CacheKey(b)
    ensures a == b
  {
    assert CacheKey(a)[9..] == a && CacheKey(b)[9..] == b;
  }

  lemma KindsDiffer(id: string)
    ensures !TenantKind(CacheKey(id))
  {
    assert CacheKey(id)[8] == ':' && "sub:byidandtenant:"[8] == 'a';
  }

  lemma TenantKeysAreJoins(a: string, t: string, b: string, u: string)
    ensures TenantCacheKey(a, t) == TenantCacheKey(b, u) <==> Join(a, ':', t) == Join(b, ':', u)
  {
    assert TenantCacheKey(a, t)[18..] == Join(a, ':', t) && TenantCacheKey(b, u)[18..] == Join(b, ':', u);
  }

  // ----- The cache -----

  /** A clock that moves at every reading. */
  class Clock {
    var time: int

    constructor () { time := 0; }

    method Now() returns (t: int)
      modifies this
      ensures t == time > old(time)
    {
      time := time + 1;
      t := time;
    }
  }

  /** An entry that is there and has not expired by a time. */
  predicate Live(items: map<string, Item>, key: string, time: int) {
    key in items && (items[key].exp.Some? ==> time <= items[key].exp.value)
  }

  class InMemory {
    var items: map<string, Item>

    constructor ()
      ensures items == map[]
    {
      items := map[];
    }

    /** A hit returns the stored item; an expired item is dropped and missed. */
    method Get(key: string, now: int) returns (hit: Option<Envelope>)
      modifies this
      ensures hit.Some? <==> key in old(items) && (old(items)[key].exp.Some? ==> now <= old(items)[key].exp.value)
      ensures hit.Some? ==> hit.value == old(items)[key].value && items == old(items)
      ensures hit.None? ==> items == old(items) - {key}
    {
      if key !in items { return None; }
      var item := items[key];
      if item.exp.Some? && now > item.exp.value {
        items := items - {key};
        return None;
      }
      return Some(item.value);
    }

    method Set(key: string, value: Envelope, ttl: int, now: int)
      modifies this
      ensures items == old(items)[key := Item(value, if ttl > 0 then Some(now + ttl) else None)]
    {
      items := items[key := Item(value, if ttl > 0 then Some(now + ttl) else None)];
    }

    method Delete(key: string)
      modifies this
      ensures items == old(items) - {key}
    {
      items := items - {key};
    }
  }

  // ----- The repository -----

  /** An entry stored before its key was last invalidated. */
  predicate Stale(invalidatedAt: map<string, int>, key: string, env: Envelope) {
    key in invalidatedAt && env.storedAt < invalidatedAt[key]
  }

  /** What the backend answers. */
  function ById(rows: map<string, Row>, id: string): Reply {
    if id in rows then Found(rows[id]) else NotFound
  }

  function ByIdAndTenant(rows: map<string, Row>, id: string, tenant: string): Reply {
    if id in rows && rows[id].tenant == tenant then Found(rows[id]) else NotFound
  }

  /** A row after a status update, which counts up its version. */
  function WithStatus(row: Row, status: string): Row {
    row.(status := status, version := row.version + 1)
  }

  /** A row that is the backend's answer for some id and tenant with this key. */
  ghost predicate Backed(rows: map<string, Row>, key: string, row: Row) {
    exists b :: b in rows && TenantCacheKey(b, rows[b].tenant) == key && rows[b] == row
  }

  /** Every entry that is not stale is what the backend would answer for its key. */
  ghost predicate Coherent(rows: map<string, Row>, items: map<string, Item>, invalidatedAt: map<string, int>) {
    && (forall id | CacheKey(id) in items && !Stale(invalidatedAt, CacheKey(id), items[CacheKey(id)].value) ::
          ById(rows, id) == Found(items[CacheKey(id)].value.data))
    && (forall k | k in items && TenantKind(k) && !Stale(invalidatedAt, k, items[k].value) ::
          Backed(rows, k, items[k].value.data))
  }

  /** No other row has the key of this id and tenant. */
  ghost predicate Alone(rows: map<string, Row>, id: string, tenant: string) {
    forall b | b in rows && TenantCacheKey(b, rows[b].tenant) == TenantCacheKey(id, tenant) :: b == id
  }

  /** A stale entry is still there. */
  predicate Lingers(items: map<string, Item>, invalidatedAt: map<string, int>, key: string) {
    key in items && Stale(invalidatedAt, key, items[key].value)
  }

  /** Nothing is dated in the future. */
  ghost predicate Past(items: map<string, Item>, invalidatedAt: map<string, int>, time: int) {
    && (forall k | k in items :: items[k].value.storedAt <= time)
    && (forall k | k in invalidatedAt :: invalidatedAt[k] <= time)
  }

  /** Dropping entries keeps the rest coherent. */
  lemma DropKeepsCoherent(rows: map<string, Row>, items: map<string, Item>, invalidatedAt: map<string, int>, key: string)
    requires Coherent(rows, items, invalidatedAt)
    ensures Coherent(rows, items - {key}, invalidatedAt)
  {
  }

  /** A new entry under an id's key, holding the backend's answer. */
  lemma SetKeepsCoherentById(rows: map<string, Row>, items: map<string, Item>, invalidatedAt: map<string, int>,
                             id: string, item: Item)
    requires Coherent(rows, items, invalidatedAt) && ById(rows, id) == Found(item.value.data)
    ensures Coherent(rows, items[CacheKey(id) := item], invalidatedAt)
  {
    forall x | CacheKey(x) == CacheKey(id) ensures x == id { CacheKeyInjective(x, id); }
    KindsDiffer(id);
  }

  lemma SetKeepsCoherentByTenant(rows: map<string, Row>, items: map<string, Item>, invalidatedAt: map<string, int>,
                                 id: string, tenant: string, item: Item)
    requires Coherent(rows, items, invalidatedAt) && ByIdAndTenant(rows, id, tenant) == Found(item.value.data)
    ensures Coherent(rows, items[TenantCacheKey(id, tenant) := item], invalidatedAt)
  {
    assert Backed(rows, TenantCacheKey(id, tenant), item.value.data);
    forall x ensures CacheKey(x) != TenantCacheKey(id, tenant) { KindsDiffer(x); }
  }

  /** After a status update, dating the two keys of its row as invalidated is
      enough, even if their entries stay in the cache. */
  lemma UpdateKeepsCoherent(rows: map<string, Row>, items: map<string, Item>, invalidatedAt: map<string, int>,
                            id: string, tenant: string, status: string, time: int, now: int)
    requires Coherent(rows, items, invalidatedAt) && Past(items, invalidatedAt, time) && time < now
    requires id in rows && rows[id].tenant == tenant
    ensures Coherent(rows[id := WithStatus(rows[id], status)], items,
                     invalidatedAt[CacheKey(id) := now][TenantCacheKey(id, tenant) := now])
  {
    var rows' := rows[id := WithStatus(rows[id], status)];
    var marks := invalidatedAt[CacheKey(id) := now][TenantCacheKey(id, tenant) := now];
    forall k | k in items && !Stale(marks, k, items[k].value)
      ensures k != CacheKey(id) && k != TenantCacheKey(id, tenant) && !Stale(invalidatedAt, k, items[k].value)
    {
    }
    forall k | k in items && TenantKind(k) && !Stale(marks, k, items[k].value)
      ensures Backed(rows', k, items[k].value.data)
    {
      var b :| b in rows && TenantCacheKey(b, rows[b].tenant) == k && rows[b] == items[k].value.data;
      assert b in rows' && rows'[b] == rows[b];
    }
  }

  /** A fresh entry answers a read by id and tenant as the backend would, in
      every coherent cache, exactly when no other row has the same key. */
  lemma ServedRightIff(rows: map<string, Row>, id: string, tenant: string)
    ensures Alone(rows, id, tenant) <==>
            forall items: map<string, Item>, marks: map<string, int>
              | Coherent(rows, items, marks) && TenantCacheKey(id, tenant) in items
                && !Stale(marks, TenantCacheKey(id, tenant), items[TenantCacheKey(id, tenant)].value) ::
              ByIdAndTenant(rows, id, tenant) == Found(items[TenantCacheKey(id, tenant)].value.data)
  {
    var key := TenantCacheKey(id, tenant);
    if Alone(rows, id, tenant) {
      forall row | Backed(rows, key, row) ensures ByIdAndTenant(rows, id, tenant) == Found(row) {
        BackedAlone(rows, id, tenant, row);
      }
    } else {
      var b :| b in rows && TenantCacheKey(b, rows[b].tenant) == key && b != id;
      TenantKeysAreJoins(b, rows[b].tenant, id, tenant);
      SecondsDiffer(b, rows[b].tenant, id, tenant, ':');
      var items: map<string, Item> := map[key := Item(Envelope(rows[b], 0), None)];
      var marks: map<string, int> := map[];
      SetKeepsCoherentByTenant(rows, map[], marks, b, rows[b].tenant, items[key]);
      assert items == map[][key := items[key]];
      assert Coherent(rows, items, marks) && !Stale(marks, key, items[key].value);
    }
  }

  lemma BackedAlone(rows: map<string, Row>, id: string, tenant: string, row: Row)
    requires Alone(rows, id, tenant) && Backed(rows, TenantCacheKey(id, tenant), row)
    ensures ByIdAndTenant(rows, id, tenant) == Found(row)
  {
    var b :| b in rows && TenantCacheKey(b, rows[b].tenant) == TenantCacheKey(id, tenant) && rows[b] == row;
    TenantKeysAreJoins(id, rows[b].tenant, id, tenant);
    assert Join(id, ':', tenant)[|id| + 1..] == tenant && Join(id, ':', rows[b].tenant)[|id| + 1..] == rows[b].tenant;
  }

  /** Keys are never shared if the ids, or the tenants, are free of the separator. */
  lemma PlainPartsAreAlone(rows: map<string, Row>, id: string, tenant: string)
    requires || (':' !in id && forall b | b in rows :: ':' !in b)
             || (':' !in tenant && forall b | b in rows :: ':' !in rows[b].tenant)
    ensures Alone(rows, id, tenant)
  {
    forall b | b in rows && TenantCacheKey(b, rows[b].tenant) == TenantCacheKey(id, tenant) ensures b == id {
      TenantKeysAreJoins(b, rows[b].tenant, id, tenant);
      if ':' !in id && ':' !in b {
        JoinInjective(b, rows[b].tenant, id, tenant, ':');
      } else {
        JoinInjectiveLast(b, rows[b].tenant, id, tenant, ':');
      }
    }
  }

  class CachedSubscriptionRepo {
    var rows: map<string, Row>  // the backend
    const cache: InMemory
    const clock: Clock
    const ttl: int
    var invalidatedAt: map<string, int>
    var hits: nat
    var misses: nat
    var stales: nat

    ghost predicate Valid()
      reads this, cache, clock
    {
      && Coherent(rows, cache.items, invalidatedAt)
      && Past(cache.items, invalidatedAt, clock.time)
    }

    constructor (rows: map<string, Row>, cache: InMemory, clock: Clock, ttl: int)
      requires cache.items == map[]
      ensures Valid() && this.rows == rows && this.cache == cache && this.clock == clock
    {
      this.rows, this.cache, this.clock, this.ttl := rows, cache, clock, ttl;
      invalidatedAt, hits, misses, stales := map[], 0, 0, 0;
    }

    /** The part of a read before the backend is asked: a fresh hit, or nothing.
        Then no entry is left under the key, unless a stale one could not be purged. */
    method TryCache(key: string, purgeLost: bool) returns (hit: Option<Row>)
      requires Valid()
      modifies this`hits, this`stales, this`misses, cache, clock
      ensures Valid()
      ensures hit.Some? ==> && key in old(cache.items) && !Stale(invalidatedAt, key, old(cache.items)[key].value)
                            && (key in invalidatedAt ==> invalidatedAt[key] <= old(cache.items)[key].value.storedAt)
                            && hit.value == old(cache.items)[key].value.data && cache.items == old(cache.items)
      ensures Live(old(cache.items), key, clock.time) ==>
                (key in invalidatedAt ==> invalidatedAt[key] <= old(cache.items)[key].value.storedAt) ==> hit.Some?
      ensures hit.None? ==>
                || cache.items == old(cache.items) - {key}
                || (purgeLost && Lingers(old(cache.items), invalidatedAt, key) && cache.items == old(cache.items))
      ensures purgeLost && Live(old(cache.items), key, clock.time) ==> cache.items == old(cache.items)
      ensures hits + misses == old(hits) + old(misses) + 1 && (hit.Some? <==> hits == old(hits) + 1)
      ensures stales == old(stales) +
                if Lingers(old(cache.items), invalidatedAt, key) && Live(old(cache.items), key, clock.time) then 1 else 0
    {
      DropKeepsCoherent(rows, cache.items, invalidatedAt, key);
      hide Coherent;
      var now := clock.Now();
      var env := cache.Get(key, now);
      if env.Some? && !Stale(invalidatedAt, key, env.value) {
        hits := hits + 1;
        return Some(env.value.data);
      }
      now := clock.Now();
      env := cache.Get(key, now);
      if env.Some? && Stale(invalidatedAt, key, env.value) {
        stales := stales + 1;
        if !purgeLost { cache.Delete(key); }
      }
      misses := misses + 1;
      return None;
    }

    /** The guarded load: what the cache still holds, fresh or not, or else the
        backend's answer, which is stored. A failed store is not fatal. */
    method GetOrLoad(key: string, direct: Reply, setLost: bool) returns (r: Reply, ghost stored: Option<Item>)
      requires Past(cache.items, invalidatedAt, clock.time)
      modifies cache, clock
      ensures Past(cache.items, invalidatedAt, clock.time) && clock.time > old(clock.time)
      ensures key in old(cache.items) ==> r == direct || r == Found(old(cache.items)[key].value.data)
      ensures Live(old(cache.items), key, clock.time) ==> r == Found(old(cache.items)[key].value.data)
      ensures key !in old(cache.items) ==> r == direct && (stored.Some? <==> direct.Found? && !setLost)
      ensures stored.Some? ==> && direct.Found? && stored.value.value.data == direct.row
                               && cache.items == old(cache.items)[key := stored.value]
                               && old(clock.time) < stored.value.value.storedAt <= clock.time
                               && stored.value.exp == (if ttl > 0 then Some(clock.time + ttl) else None)
      ensures stored.None? ==> cache.items == old(cache.items) || cache.items == old(cache.items) - {key}
      ensures r.Found? && !setLost ==> key in cache.items && cache.items[key].value.data == r.row
    {
      stored := None;
      var now := clock.Now();
      var env := cache.Get(key, now);
      if env.Some? { return Found(env.value.data), None; }
      now := clock.Now();
      env := cache.Get(key, now);  // the second look, under the key's lock: reads are atomic, so it misses again
      if direct.Found? {
        var storedAt := clock.Now();
        now := clock.Now();
        if !setLost {
          cache.Set(key, Envelope(direct.row, storedAt), ttl, now);
          stored := Some(cache.items[key]);
        }
      }
      r := direct;
    }

    /** A read by id answers as the backend does, or fails if it has to ask a
        failing backend, unless it finds a stale entry and cannot purge it: then
        it answers with that entry, as long as it has not expired. */
    method FindByID(id: string, purgeLost: bool, setLost: bool, backendFails: bool) returns (r: Reply)
      requires Valid()
      modifies this`hits, this`stales, this`misses, cache, clock
      ensures Valid()
      ensures var key := CacheKey(id);
              && (!(purgeLost && Lingers(old(cache.items), invalidatedAt, key)) ==>
                    r == (if id in rows then Found(rows[id]) else NotFound) || (r == BackendError && backendFails))
              && (purgeLost && Lingers(old(cache.items), invalidatedAt, key) && Live(old(cache.items), key, clock.time) ==>
                    r == Found(old(cache.items)[key].value.data))
              && (r.Found? && !setLost ==> key in cache.items && cache.items[key].value.data == r.row)
      ensures hits + misses == old(hits) + old(misses) + 1
    {
      var hit := TryCache(CacheKey(id), purgeLost);
      if hit.Some? { return Found(hit.value); }
      label Missed:
      ghost var stored;
      r, stored := GetOrLoad(CacheKey(id), if backendFails then BackendError else ById(rows, id), setLost);
      DropKeepsCoherent(rows, old@Missed(cache.items), invalidatedAt, CacheKey(id));
      if stored.Some? { SetKeepsCoherentById(rows, old@Missed(cache.items), invalidatedAt, id, stored.value); }
    }

    /** A read by id and tenant likewise, unless another row has the same key:
        then it may answer with that row. */
    method FindByIDAndTenant(id: string, tenant: string, purgeLost: bool, setLost: bool, backendFails: bool) returns (r: Reply)
      requires Valid()
      modifies this`hits, this`stales, this`misses, cache, clock
      ensures Valid()
      ensures var key := TenantCacheKey(id, tenant);
              && (!(purgeLost && Lingers(old(cache.items), invalidatedAt, key)) ==>
                    || r == (if id in rows && rows[id].tenant == tenant then Found(rows[id]) else NotFound)
                    || (r == BackendError && backendFails)
                    || (r.Found? && !Alone(rows, id, tenant) && Backed(rows, key, r.row)))
              && (purgeLost && Lingers(old(cache.items), invalidatedAt, key) && Live(old(cache.items), key, clock.time) ==>
                    r == Found(old(cache.items)[key].value.data))
              && (r.Found? && !setLost ==> key in cache.items && cache.items[key].value.data == r.row)
      ensures hits + misses == old(hits) + old(misses) + 1
    {
      var key := TenantCacheKey(id, tenant);
      var hit := TryCache(key, purgeLost);
      if hit.Some? {
        if Alone(rows, id, tenant) { BackedAlone(rows, id, tenant, hit.value); }
        return Found(hit.value);
      }
      label Missed:
      ghost var stored;
      r, stored := GetOrLoad(key, if backendFails then BackendError else ByIdAndTenant(rows, id, tenant), setLost);
      DropKeepsCoherent(rows, old@Missed(cache.items), invalidatedAt, key);
      if stored.Some? { SetKeepsCoherentByTenant(rows, old@Missed(cache.items), invalidatedAt, id, tenant, stored.value); }
    }

    /** Clears both keys, either of which the cache may lose, and dates them. */
    method Delete(id: string, tenant: string, keyLost: bool, tenantKeyLost: bool)
      modifies this`invalidatedAt, cache, clock
      ensures clock.time > old(clock.time)
      ensures invalidatedAt == old(invalidatedAt)[CacheKey(id) := clock.time][TenantCacheKey(id, tenant) := clock.time]
      ensures cache.items == old(cache.items) - (if keyLost then {} else {CacheKey(id)})
                             - (if tenantKeyLost then {} else {TenantCacheKey(id, tenant)})
    {
      if !keyLost { cache.Delete(CacheKey(id)); }
      if !tenantKeyLost { cache.Delete(TenantCacheKey(id, tenant)); }
      var now := clock.Now();
      invalidatedAt := invalidatedAt[CacheKey(id) := now];
      invalidatedAt := invalidatedAt[TenantCacheKey(id, tenant) := now];
    }

    /** A status update: the backend changes one row or answers not found, and
        the cache stays coherent even if it loses both deletes. */
    method UpdateStatus(id: string, tenant: string, status: string, backendFails: bool, keyLost: bool, tenantKeyLost: bool)
      returns (ok: bool)
      requires Valid()
      modifies this`rows, this`invalidatedAt, cache, clock
      ensures Valid()
      ensures ok <==> !backendFails && id in old(rows) && old(rows)[id].tenant == tenant
      ensures !ok ==> rows == old(rows) && invalidatedAt == old(invalidatedAt) && cache.items == old(cache.items)
      ensures ok ==> && rows.Keys == old(rows).Keys && (forall x | x in rows && x != id :: rows[x] == old(rows)[x])
                     && rows[id].status == status && rows[id].tenant == tenant
                     && rows[id].version == old(rows)[id].version + 1
    {
      ok := !backendFails && id in rows && rows[id].tenant == tenant;
      if !ok { return; }
      rows := rows[id := WithStatus(rows[id], status)];
      ghost var time := clock.time;
      Delete(id, tenant, keyLost, tenantKeyLost);
      UpdateKeepsCoherent(old(rows), old(cache.items), old(invalidatedAt), id, tenant, status, time, clock.time);
      DropKeepsCoherent(rows, old(cache.items), invalidatedAt, CacheKey(id));
      DropKeepsCoherent(rows, old(cache.items), invalidatedAt, TenantCacheKey(id, tenant));
      DropKeepsCoherent(rows, old(cache.items) - {CacheKey(id)}, invalidatedAt, TenantCacheKey(id, tenant));
    }
  }

  /** Read-after-write: once a status update is accepted, a read that can purge and
      reach the backend sees it, whatever deletes and sets the cache loses; by
      tenant, if no other row has the key. */
  method UpdateThenRead(repo: CachedSubscriptionRepo, id: string, tenant: string, status: string, byTenant: bool,
                        keyLost: bool, tenantKeyLost: bool, setLost: bool)
    returns (ok: bool, r: Reply)
    requires repo.Valid()
    modifies repo, repo.cache, repo.clock
    ensures repo.Valid() && (ok <==> id in old(repo.rows) && old(repo.rows)[id].tenant == tenant)
    ensures ok && (byTenant ==> Alone(repo.rows, id, tenant)) ==>
              r == Found(Row(tenant, status, old(repo.rows)[id].version + 1))
  {
    ok := repo.UpdateStatus(id, tenant, status, false, keyLost, tenantKeyLost);
    if byTenant {
      r := repo.FindByIDAndTenant(id, tenant, false, setLost, false);
    } else {
      r := repo.FindByID(id, false, setLost, false);
    }
  }
}
