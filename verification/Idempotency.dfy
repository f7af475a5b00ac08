/** The idempotency store: reservations, replays and expiry. */
module Idempotency {

  /** What binds a key to one request. */
  datatype Fingerprint = Fingerprint(method_: string, path: string, payloadHash: string)

  datatype Entry = Entry(bound: Fingerprint, statusCode: int, responseBody: string, createdAt: int, expiresAt: int)
  type Store = map<string, Entry>

  datatype Outcome = Reserved | InFlight | Mismatch | Replay(statusCode: int, responseBody: string)

  predicate Expired(e: Entry, now: int) {
    now > e.expiresAt
  }

  predicate Live(s: Store, k: string, now: int) {
    k in s && !Expired(s[k], now)
  }

  /** The answer to a request and the store it leaves. */
  function Answer(s: Store, k: string, bound: Fingerprint, now: int): Outcome {
    if !Live(s, k, now) then Reserved
    else if s[k].statusCode == 0 then InFlight
    else if s[k].bound != bound then Mismatch
    else Replay(s[k].statusCode, s[k].responseBody)
  }

  function Inserted(s: Store, k: string, bound: Fingerprint, now: int, ttl: int): Store {
    if Live(s, k, now) then s else s[k := Entry(bound, 0, "", now, now + ttl)]
  }

  function Updated(s: Store, k: string, statusCode: int, responseBody: string): Store {
    if k in s then s[k := s[k].(statusCode := statusCode, responseBody := responseBody)] else s
  }

  // ----- Purging -----

  /** The store as far as any request from now on can tell. */
  function LivePart(s: Store, now: int): Store {
    map k | k in s && !Expired(s[k], now) :: s[k]
  }

  datatype Op =
    | Get(k: string, bound: Fingerprint, now: int, ttl: int)
    | Update(k: string, statusCode: int, responseBody: string, now: int)
    | Remove(k: string, now: int)
    | Purge(victims: set<string>, now: int)

  function Do(s: Store, op: Op): Store {
    match op
    case Get(k, bound, now, ttl) => Inserted(s, k, bound, now, ttl)
    case Update(k, code, body, _) => Updated(s, k, code, body)
    case Remove(k, _) => s - {k}
    case Purge(victims, _) => s - victims
  }

  /** The answers of a run's requests. */
  function Answers(s: Store, ops: seq<Op>): seq<Outcome>
    decreases |ops|
  {
    if ops == [] then []
    else (if ops[0].Get? then [Answer(s, ops[0].k, ops[0].bound, ops[0].now)] else [])
         + Answers(Do(s, ops[0]), ops[1..])
  }

  /** Times do not go back, and purges remove only what has expired. */
  predicate WellTimed(s: Store, ops: seq<Op>, now: int)
    decreases |ops|
  {
    ops == [] ||
    ( && now <= ops[0].now
      && (ops[0].Purge? ==> forall k | k in ops[0].victims && k in s :: Expired(s[k], ops[0].now))
      && WellTimed(Do(s, ops[0]), ops[1..], ops[0].now))
  }

  function WithoutPurges(ops: seq<Op>): seq<Op> {
    if ops == [] then []
    else (if ops[0].Purge? then [] else [ops[0]]) + WithoutPurges(ops[1..])
  }

  /** Stores that agree on their live parts answer alike and go on agreeing,
      whether or not a purge is carried out: a bisimulation. */
  lemma AgreeStep(s: Store, t: Store, op: Op, now: int)
    requires LivePart(s, now) == LivePart(t, now) && now <= op.now
    requires op.Purge? ==> forall k | k in op.victims && k in s :: Expired(s[k], op.now)
    ensures LivePart(Do(s, op), op.now) == LivePart(if op.Purge? then t else Do(t, op), op.now)
    ensures op.Get? ==> Answer(s, op.k, op.bound, op.now) == Answer(t, op.k, op.bound, op.now)
  {
    assert LivePart(s, op.now) == LivePart(t, op.now) by { LiveLater(s, t, now, op.now); }
    if op.Get? || op.Update? || op.Remove? { AgreeAt(s, t, op.k, op.now); }
    var s', t' := Do(s, op), if op.Purge? then t else Do(t, op);
    forall k ensures k in LivePart(s', op.now) <==> k in LivePart(t', op.now)
             ensures k in LivePart(s', op.now) ==> LivePart(s', op.now)[k] == LivePart(t', op.now)[k]
    {
      AgreeAt(s, t, k, op.now);
    }
  }

  lemma LiveLater(s: Store, t: Store, now: int, later: int)
    requires LivePart(s, now) == LivePart(t, now) && now <= later
    ensures LivePart(s, later) == LivePart(t, later)
  {
    forall k ensures k in LivePart(s, later) <==> k in LivePart(t, later)
             ensures k in LivePart(s, later) ==> LivePart(s, later)[k] == LivePart(t, later)[k]
    {
      AgreeAt(s, t, k, now);
    }
  }

  lemma AgreeAt(s: Store, t: Store, k: string, now: int)
    requires LivePart(s, now) == LivePart(t, now)
    ensures Live(s, k, now) <==> Live(t, k, now)
    ensures Live(s, k, now) ==> s[k] == t[k]
  {
    assert Live(s, k, now) <==> k in LivePart(s, now);
    assert Live(t, k, now) <==> k in LivePart(t, now);
  }

  lemma {:induction false} AgreeRun(s: Store, t: Store, ops: seq<Op>, now: int)
    requires LivePart(s, now) == LivePart(t, now) && WellTimed(s, ops, now)
    ensures Answers(s, ops) == Answers(t, WithoutPurges(ops))
    decreases |ops|
  {
    if ops != [] {
      var op, rest := ops[0], ops[1..];
      AgreeStep(s, t, op, now);
      var t' := if op.Purge? then t else Do(t, op);
      AgreeRun(Do(s, op), t', rest, op.now);
      if !op.Purge? {
        assert WithoutPurges(ops) == [op] + WithoutPurges(rest);
        assert WithoutPurges(ops)[0] == op && WithoutPurges(ops)[1..] == WithoutPurges(rest);
      } else {
        assert WithoutPurges(ops) == WithoutPurges(rest);
      }
    }
  }

  /** Purges inserted anywhere in a run change none of its answers. */
  lemma PurgeIsInvisible(s: Store, ops: seq<Op>, now: int)
    requires WellTimed(s, ops, now)
    ensures Answers(s, ops) == Answers(s, WithoutPurges(ops))
  {
    AgreeRun(s, s, ops, now);
  }

  /** Removing entries at a time is invisible to every later request exactly
      when all of them have expired. */
  lemma RemovalInvisibleIff(s: Store, victims: set<string>, now: int)
    ensures (forall k | k in victims && k in s :: Expired(s[k], now)) <==>
            forall k, bound, t | now <= t :: Answer(s - victims, k, bound, t) == Answer(s, k, bound, t)
  {
    if k :| k in victims && k in s && !Expired(s[k], now) {
      assert Answer(s - victims, k, s[k].bound, now) == Reserved != Answer(s, k, s[k].bound, now);
    }
  }

  /** The SQL purge takes entries whose expiry is not after now, while a request
      still honours an entry at that instant. So it is invisible exactly when it
      takes no entry at the very instant that this expires. */
  lemma SqlPurgeInvisibleIff(s: Store, victims: set<string>, now: int)
    requires forall k | k in victims && k in s :: s[k].expiresAt <= now
    ensures (forall k | k in victims && k in s :: s[k].expiresAt != now) <==>
            forall k, bound, t | now <= t :: Answer(s - victims, k, bound, t) == Answer(s, k, bound, t)
  {
    RemovalInvisibleIff(s, victims, now);
    assert forall k | k in victims && k in s :: Expired(s[k], now) <==> s[k].expiresAt != now;
  }
}
