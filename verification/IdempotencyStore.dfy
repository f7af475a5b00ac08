/** The in-memory store and the middleware as they run. */
module IdempotencyStore {
  import opened Wrappers
  import opened Idempotency
  import opened IdempotencyMiddleware

  class InMemoryIdempotencyStore {
    var keys: Store

    constructor ()
      ensures keys == map[]
    {
      keys := map[];
    }

    /** An expired entry is deleted first; then a missing one is reserved. */
    method GetOrInsert(scope: string, key: string, bound: Fingerprint, ttl: int, now: int) returns (outcome: Outcome)
      modifies this
      ensures outcome == Answer(old(keys), MapKey(scope, key), bound, now)
      ensures keys == Inserted(old(keys), MapKey(scope, key), bound, now, ttl)
      ensures var k := MapKey(scope, key);
              if k !in old(keys) || old(keys)[k].expiresAt < now then
                outcome == Reserved && keys == old(keys)[k := Entry(bound, 0, "", now, now + ttl)]
              else
                && keys == old(keys)
                && outcome == (if old(keys)[k].statusCode == 0 then InFlight
                               else if old(keys)[k].bound == bound
                               then Replay(old(keys)[k].statusCode, old(keys)[k].responseBody)
                               else Mismatch)
    {
      var mapKey := MapKey(scope, key);
      if mapKey in keys && now > keys[mapKey].expiresAt { keys := keys - {mapKey}; }
      if mapKey !in keys {
        keys := keys[mapKey := Entry(bound, 0, "", now, now + ttl)];
        return Reserved;
      }
      var entry := keys[mapKey];
      if entry.statusCode == 0 { return InFlight; }
      if entry.bound != bound { return Mismatch; }
      return Replay(entry.statusCode, entry.responseBody);
    }

    method UpdateResponse(scope: string, key: string, statusCode: int, responseBody: string)
      modifies this
      ensures keys == Updated(old(keys), MapKey(scope, key), statusCode, responseBody)
      ensures var k := MapKey(scope, key);
              && keys.Keys == old(keys).Keys && (forall x | x in keys && x != k :: keys[x] == old(keys)[x])
              && (k in keys ==> && keys[k].statusCode == statusCode && keys[k].responseBody == responseBody
                                && keys[k].bound == old(keys)[k].bound && keys[k].expiresAt == old(keys)[k].expiresAt)
    {
      var mapKey := MapKey(scope, key);
      if mapKey in keys {
        keys := keys[mapKey := keys[mapKey].(statusCode := statusCode, responseBody := responseBody)];
      }
    }

    method Delete(scope: string, key: string)
      modifies this
      ensures keys == old(keys) - {MapKey(scope, key)}
    {
      keys := keys - {MapKey(scope, key)};
    }

    /** Deletes expired entries in map order until the batch is full: only expired
        ones, and all of them if the batch was not filled. */
    method DeleteExpiredBatch(batchSize: int, now: int) returns (deleted: nat, ghost victims: set<string>)
      modifies this
      ensures keys == old(keys) - victims && victims <= old(keys).Keys && |victims| == deleted
      ensures forall k | k in victims :: Expired(old(keys)[k], now)
      ensures batchSize >= 0 ==> deleted <= batchSize
      ensures deleted < batchSize ==> forall k | k in keys :: !Expired(keys[k], now)
      ensures forall w: World | w.store == old(keys) && w.now <= now :: Enabled(w, Step.Purge(victims, now))
    {
      deleted, victims := 0, {};
      var rest := keys.Keys;
      while rest != {}
        invariant rest <= old(keys).Keys && victims <= old(keys).Keys && victims !! rest
        invariant keys == old(keys) - victims && |victims| == deleted
        invariant forall k | k in victims :: Expired(old(keys)[k], now)
        invariant batchSize >= 0 ==> deleted <= batchSize
        invariant forall k | k in keys && k !in rest :: !Expired(keys[k], now)
        decreases rest
      {
        if deleted >= batchSize { break; }
        var k :| k in rest;
        rest := rest - {k};
        if now > keys[k].expiresAt {
          keys := keys - {k};
          victims, deleted := victims + {k}, deleted + 1;
        }
      }
    }

    method CountExpiredPending(now: int) returns (count: nat)
      ensures count == |set k | k in keys && Expired(keys[k], now)|
    {
      count := 0;
      var rest := keys.Keys;
      ghost var seen: set<string> := {};
      while rest != {}
        invariant rest <= keys.Keys
        invariant seen == (set k | k in keys && k !in rest && Expired(keys[k], now)) && count == |seen|
        decreases rest
      {
        var k :| k in rest;
        rest := rest - {k};
        if now > keys[k].expiresAt {
          count := count + 1;
          seen := seen + {k};
        }
      }
      assert seen == set k | k in keys && Expired(keys[k], now);
    }
  }

  // ----- The middleware -----

  datatype Served = Passed | Rejected(status: int) | Replayed(response: Response) | Handled(response: Response)

  const TTL := 86400

  /** A request that is looked up: mutating, with a key of admissible length. */
  predicate Checked(r: Request) {
    r.method_ !in {"GET", "HEAD", "OPTIONS"} && 0 < |r.key| <= 255
  }

  class Middleware {
    const store: InMemoryIdempotencyStore

    constructor (store: InMemoryIdempotencyStore)
      ensures this.store == store
    {
      this.store := store;
    }

    /** One request from arrival to response, given what the handler would answer,
        whether the body and the store can be read, and whether the store takes the
        outcome. */
    method Serve(r: Request, response: Response, now: int, bodyFails: bool, storeFails: bool, settleLost: bool)
      returns (served: Served)
      modifies store
      ensures r.method_ in {"GET", "HEAD", "OPTIONS"} ==> served == Passed && store.keys == old(store.keys)
      ensures r.method_ !in {"GET", "HEAD", "OPTIONS"} && (r.key == "" || |r.key| > 255) ==>
                served == Rejected(400) && store.keys == old(store.keys)
      ensures Checked(r) && (bodyFails || storeFails) ==> served == Rejected(500) && store.keys == old(store.keys)
      ensures Checked(r) && !bodyFails && !storeFails ==>
                var keys, k := old(store.keys), MapKey(r.scope, r.key);
                if k in keys && now <= keys[k].expiresAt then
                  && store.keys == keys
                  && served == (if keys[k].statusCode == 0 then Rejected(409)
                                else if && keys[k].bound.method_ == r.method_ && keys[k].bound.path == r.path
                                        && keys[k].bound.payloadHash == r.payloadHash
                                then Replayed(Response(keys[k].statusCode, keys[k].responseBody))
                                else Rejected(422))
                else
                  var reserved := Entry(Fingerprint(r.method_, r.path, r.payloadHash), 0, "", now, now + 86400);
                  && served == Handled(response)
                  && store.keys == (if settleLost then keys[k := reserved]
                                    else if 200 <= response.status < 300
                                    then keys[k := reserved.(statusCode := response.status, responseBody := response.body)]
                                    else keys - {k})
                  && (!settleLost ==> store.keys == Settled(Inserted(keys, k, Bound(r), now, TTL), k, response))
    {
      if r.method_ == "GET" || r.method_ == "HEAD" || r.method_ == "OPTIONS" { return Passed; }
      if r.key == "" { return Rejected(400); }
      if |r.key| > 255 { return Rejected(400); }
      if bodyFails { return Rejected(500); }
      if storeFails { return Rejected(500); }
      var outcome := store.GetOrInsert(r.scope, r.key, Bound(r), TTL, now);
      match outcome {
        case Mismatch => return Rejected(422);
        case InFlight => return Rejected(409);
        case Replay(status, body) => return Replayed(Response(status, body));
        case Reserved =>
          if settleLost {
          } else if 200 <= response.status < 300 {
            store.UpdateResponse(r.scope, r.key, response.status, response.body);
          } else {
            store.Delete(r.scope, r.key);
          }
          return Handled(response);
      }
    }
  }

  /** A request that failed leaves the store as if it had not been made, and one
      that succeeded is replayed, body and status, until its reservation ends. */
  lemma SettledAnswers(s: Store, k: string, bound: Fingerprint, response: Response, now: int, later: int)
    requires Answer(s, k, bound, now).Reserved? && now <= later <= now + TTL
    ensures var s' := Settled(Inserted(s, k, bound, now, TTL), k, response);
            && Answer(s', k, bound, later) ==
               (if Succeeded(response) then Replay(response.status, response.body) else Reserved)
            && (!Succeeded(response) ==> forall x, b, t | now <= t :: Answer(s', x, b, t) == Answer(s, x, b, t))
  {
  }
}
