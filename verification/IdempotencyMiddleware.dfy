/** The idempotency middleware as a protocol: requests arrive and finish in any
    interleaving, over one store and a clock that does not go back. */
module IdempotencyMiddleware {
  import opened Wrappers
  import opened Keys
  import opened Idempotency

  function MapKey(scope: string, key: string): string {
    Join(scope, '/', key)
  }

  datatype Request = Request(method_: string, key: string, scope: string, path: string, payloadHash: string)

  datatype Response = Response(status: int, body: string)

  /** The parts of a request that its key is bound to. */
  function Bound(r: Request): Fingerprint {
    Fingerprint(r.method_, r.path, r.payloadHash)
  }

  /** Two requests that may share a key. */
  predicate SameCall(r: Request, q: Request) {
    r.method_ == q.method_ && r.path == q.path && r.payloadHash == q.payloadHash
  }

  predicate Succeeded(r: Response) {
    200 <= r.status < 300
  }

  /** A request that reached the handler, and how it ended, if it has. */
  datatype Job = Job(request: Request, expires: int, result: Option<Response>)

  function KeyOf(j: Job): string {
    MapKey(j.request.scope, j.request.key)
  }

  datatype World = World(
    now: int,
    store: Store,
    jobs: map<nat, Job>,
    owner: map<string, nat>)  // the last job to reserve each key

  /** An empty store at the time the service starts. */
  function Initial(start: int): World {
    World(start, map[], map[], map[])
  }

  datatype Step =
    | Arrive(job: nat, request: Request, now: int)
    | Finish(job: nat, response: Response, now: int)
    | Purge(victims: set<string>, now: int)

  predicate Enabled(w: World, step: Step) {
    w.now <= step.now &&
    match step
    case Arrive(job, _, _) => job !in w.jobs
    case Finish(job, _, _) => job in w.jobs && w.jobs[job].result.None?
    case Purge(victims, now) => forall k | k in victims && k in w.store :: Expired(w.store[k], now)
  }

  /** The store's answer to a request. */
  function Answered(s: Store, r: Request, now: int): Outcome {
    Answer(s, MapKey(r.scope, r.key), Bound(r), now)
  }

  /** The store once a handler has answered. */
  function Settled(s: Store, k: string, response: Response): Store {
    if Succeeded(response) then Updated(s, k, response.status, response.body) else s - {k}
  }

  function Apply(ttl: int, w: World, step: Step): World
    requires Enabled(w, step)
  {
    match step
    case Arrive(job, r, now) =>
      var k := MapKey(r.scope, r.key);
      if Answered(w.store, r, now).Reserved? then
        w.(now := now, store := Inserted(w.store, k, Bound(r), now, ttl),
           jobs := w.jobs[job := Job(r, now + ttl, None)], owner := w.owner[k := job])
      else w.(now := now)
    case Finish(job, response, now) =>
      var k := KeyOf(w.jobs[job]);
      w.(now := now,
         store := Settled(w.store, k, response),
         jobs := w.jobs[job := w.jobs[job].(result := Some(response))])
    case Purge(victims, now) => w.(now := now, store := w.store - victims)
  }

  predicate Legal(ttl: int, w: World, steps: seq<Step>)
    decreases |steps|
  {
    steps == [] || (Enabled(w, steps[0]) && Legal(ttl, Apply(ttl, w, steps[0]), steps[1..]))
  }

  function After(ttl: int, w: World, steps: seq<Step>): World
    requires Legal(ttl, w, steps)
    decreases |steps|
  {
    if steps == [] then w else After(ttl, Apply(ttl, w, steps[0]), steps[1..])
  }

  /** A step takes place at its time, and its effect on the store is that of the
      store call it stands for. */
  lemma StepsAreStoreCalls(ttl: int, w: World, step: Step)
    requires Enabled(w, step)
    ensures Apply(ttl, w, step).now == step.now
    ensures var keys := Apply(ttl, w, step).store;
            match step {
              case Arrive(_, r, now) =>
                var k := MapKey(r.scope, r.key);
                keys == (if k in w.store && now <= w.store[k].expiresAt then w.store
                         else w.store[k := Entry(Fingerprint(r.method_, r.path, r.payloadHash), 0, "", now, now + ttl)])
              case Finish(job, response, _) =>
                var k := KeyOf(w.jobs[job]);
                keys == (if response.status < 200 || response.status >= 300 then w.store - {k}
                         else if k !in w.store then w.store
                         else w.store[k := w.store[k].(statusCode := response.status, responseBody := response.body)])
              case Purge(victims, _) => keys == w.store - victims
            }
  {
  }

  // ----- What the answers should be -----

  /** A job that still counts: its reservation runs and it has not failed. */
  predicate Counts(j: Job, now: int) {
    now <= j.expires && (j.result.Some? ==> Succeeded(j.result.value))
  }

  ghost predicate Counting(jobs: map<nat, Job>, id: nat, k: string, now: int) {
    id in jobs && KeyOf(jobs[id]) == k && Counts(jobs[id], now)
  }

  /** The answer that the requests so far justify: a handler is reached only if
      no request with the key counts, a replay is the response of one that does. */
  ghost predicate RightAnswer(jobs: map<nat, Job>, r: Request, now: int, answer: Outcome) {
    var k := MapKey(r.scope, r.key);
    match answer
    case Reserved => forall id :: !Counting(jobs, id, k, now)
    case InFlight => exists id :: Counting(jobs, id, k, now) && jobs[id].result.None?
    case Mismatch =>
      exists id :: Counting(jobs, id, k, now) && jobs[id].result.Some? && !SameCall(jobs[id].request, r)
    case Replay(status, body) =>
      exists id :: Counting(jobs, id, k, now) && jobs[id].result == Some(Response(status, body))
                   && SameCall(jobs[id].request, r)
  }

  /** Every request from now on would be answered rightly. */
  ghost predicate Right(w: World) {
    forall r, now | w.now <= now :: RightAnswer(w.jobs, r, now, Answered(w.store, r, now))
  }

  ghost predicate RightThroughout(ttl: int, w: World, steps: seq<Step>)
    requires Legal(ttl, w, steps)
    decreases |steps|
  {
    Right(w) && (steps != [] ==> RightThroughout(ttl, Apply(ttl, w, steps[0]), steps[1..]))
  }

  // ----- When they are -----

  /** A finish that finds the key unreserved, or reserved by its own request, or
      already answered with the same response. */
  predicate Harmless(w: World, job: nat, response: Response, now: int)
    requires job in w.jobs
  {
    var k := KeyOf(w.jobs[job]);
    Live(w.store, k, now) && k in w.owner && w.owner[k] != job && w.owner[k] in w.jobs ==>
      w.jobs[w.owner[k]].result == Some(response)
  }

  /** Every finish of a run is harmless. */
  predicate Calm(ttl: int, w: World, steps: seq<Step>)
    requires Legal(ttl, w, steps)
    decreases |steps|
  {
    steps != [] ==>
      && (steps[0].Finish? ==> Harmless(w, steps[0].job, steps[0].response, steps[0].now))
      && Calm(ttl, Apply(ttl, w, steps[0]), steps[1..])
  }

  /** Every handler of a run finishes before its reservation expires. */
  predicate InTime(ttl: int, w: World, steps: seq<Step>)
    requires Legal(ttl, w, steps)
    decreases |steps|
  {
    steps != [] ==>
      && (steps[0].Finish? ==> steps[0].now <= w.jobs[steps[0].job].expires)
      && InTime(ttl, Apply(ttl, w, steps[0]), steps[1..])
  }

  // ----- What every step keeps -----

  /** The entry that a job's reservation and result leave in the store. */
  predicate Mirrors(e: Entry, j: Job) {
    && e.bound == Bound(j.request) && e.expiresAt == j.expires
    && match j.result
       case None => e.statusCode == 0
       case Some(r) => Succeeded(r) && e.statusCode == r.status && e.responseBody == r.body
  }

  ghost predicate Owned(w: World, k: string) {
    && k in w.store && k in w.owner && w.owner[k] in w.jobs
    && KeyOf(w.jobs[w.owner[k]]) == k && Mirrors(w.store[k], w.jobs[w.owner[k]])
  }

  ghost predicate Inv(w: World) {
    && (forall k | Live(w.store, k, w.now) :: Owned(w, k))
    && (forall id | id in w.jobs && Counts(w.jobs[id], w.now) ::
          Owned(w, KeyOf(w.jobs[id])) && w.owner[KeyOf(w.jobs[id])] == id)
  }

  lemma StepKeeps(ttl: int, w: World, step: Step)
    requires Inv(w) && Enabled(w, step)
    requires step.Finish? ==> Harmless(w, step.job, step.response, step.now)
    ensures Inv(Apply(ttl, w, step))
  {
    var w' := Apply(ttl, w, step);
    forall k | Live(w'.store, k, w'.now) ensures Owned(w', k) {
      if Live(w.store, k, w'.now) { assert Owned(w, k); }
    }
    forall id | id in w'.jobs && Counts(w'.jobs[id], w'.now)
      ensures Owned(w', KeyOf(w'.jobs[id])) && w'.owner[KeyOf(w'.jobs[id])] == id
    {
      if id in w.jobs {
        assert Counts(w.jobs[id], w.now);
        assert Owned(w, KeyOf(w.jobs[id]));
        assert Live(w.store, KeyOf(w.jobs[id]), w'.now);
      }
    }
  }

  lemma InvIsRight(w: World)
    requires Inv(w)
    ensures Right(w)
  {
    forall r, now | w.now <= now ensures RightAnswer(w.jobs, r, now, Answered(w.store, r, now)) {
      var k := MapKey(r.scope, r.key);
      if Live(w.store, k, now) {
        assert Owned(w, k) && Counting(w.jobs, w.owner[k], k, now);
      } else {
        forall id ensures !Counting(w.jobs, id, k, now) {
          assert id in w.jobs && Counts(w.jobs[id], now) ==> Counts(w.jobs[id], w.now);
        }
      }
    }
  }

  /** A finish that is not harmless makes the next request with its key, from
      whoever holds the reservation, wrongly answered. */
  lemma HarmIsVisible(ttl: int, w: World, job: nat, response: Response, now: int)
    requires Inv(w) && Enabled(w, Finish(job, response, now)) && !Harmless(w, job, response, now)
    ensures !Right(Apply(ttl, w, Finish(job, response, now)))
  {
    var w', k := Apply(ttl, w, Finish(job, response, now)), KeyOf(w.jobs[job]);
    var other := w.owner[k];
    var r := w.jobs[other].request;
    assert Owned(w, k) && Counting(w'.jobs, other, k, now);
    forall id | Counting(w'.jobs, id, k, now) ensures id == other {
      assert Counts(w.jobs[id], w.now);
    }
    assert !RightAnswer(w'.jobs, r, now, Answered(w'.store, r, now));
  }

  lemma {:induction false} RightIffCalm(ttl: int, w: World, steps: seq<Step>)
    requires Inv(w) && Legal(ttl, w, steps)
    ensures RightThroughout(ttl, w, steps) <==> Calm(ttl, w, steps)
    ensures Calm(ttl, w, steps) ==> Inv(After(ttl, w, steps))
    decreases |steps|
  {
    InvIsRight(w);
    if steps != [] {
      if steps[0].Finish? && !Harmless(w, steps[0].job, steps[0].response, steps[0].now) {
        HarmIsVisible(ttl, w, steps[0].job, steps[0].response, steps[0].now);
      } else {
        StepKeeps(ttl, w, steps[0]);
        RightIffCalm(ttl, Apply(ttl, w, steps[0]), steps[1..]);
      }
    }
  }

  lemma {:induction false} InTimeIsCalm(ttl: int, w: World, steps: seq<Step>)
    requires Inv(w) && Legal(ttl, w, steps) && InTime(ttl, w, steps)
    ensures Calm(ttl, w, steps)
    decreases |steps|
  {
    if steps != [] {
      if steps[0].Finish? {
        assert Counts(w.jobs[steps[0].job], w.now);
        assert Owned(w, KeyOf(w.jobs[steps[0].job]));
      }
      StepKeeps(ttl, w, steps[0]);
      InTimeIsCalm(ttl, Apply(ttl, w, steps[0]), steps[1..]);
    }
  }

  // ----- Theorems -----

  /** The answers are right at every point of a run exactly when no handler
      finishes while another request holds its key's reservation, other than
      with the response already there. It suffices that handlers finish in time. */
  lemma AnswersRightIff(ttl: int, start: int, steps: seq<Step>)
    requires Legal(ttl, Initial(start), steps)
    ensures RightThroughout(ttl, Initial(start), steps) <==> Calm(ttl, Initial(start), steps)
    ensures InTime(ttl, Initial(start), steps) ==> Calm(ttl, Initial(start), steps)
  {
    RightIffCalm(ttl, Initial(start), steps);
    if InTime(ttl, Initial(start), steps) { InTimeIsCalm(ttl, Initial(start), steps); }
  }

  lemma CalmIsInv(ttl: int, start: int, steps: seq<Step>)
    requires Legal(ttl, Initial(start), steps) && Calm(ttl, Initial(start), steps)
    ensures Inv(After(ttl, Initial(start), steps))
  {
    RightIffCalm(ttl, Initial(start), steps);
  }

  /** In every calm run, a request reaches the handler exactly when no earlier
      request with the same stored key that reached it is still within its
      reservation and has not failed. */
  lemma ReachesHandlerIff(ttl: int, start: int, steps: seq<Step>, r: Request, now: int)
    requires Legal(ttl, Initial(start), steps) && Calm(ttl, Initial(start), steps)
    requires After(ttl, Initial(start), steps).now <= now
    ensures var w := After(ttl, Initial(start), steps);
            Answered(w.store, r, now).Reserved? <==> forall id :: !Counting(w.jobs, id, MapKey(r.scope, r.key), now)
  {
    CalmIsInv(ttl, start, steps);
    var w := After(ttl, Initial(start), steps);
    InvIsRight(w);
    assert RightAnswer(w.jobs, r, now, Answered(w.store, r, now));
  }

  /** In every calm run, if an earlier request with the same stored key succeeded
      and its reservation still runs, a request is replayed its status and body
      exactly when method, path and body hash are the same, and is otherwise
      rejected as a misuse of the key. */
  lemma ReplayedIff(ttl: int, start: int, steps: seq<Step>, id: nat, r: Request, now: int)
    requires Legal(ttl, Initial(start), steps) && Calm(ttl, Initial(start), steps)
    requires var w := After(ttl, Initial(start), steps);
             w.now <= now && Counting(w.jobs, id, MapKey(r.scope, r.key), now) && w.jobs[id].result.Some?
    ensures var w := After(ttl, Initial(start), steps);
            var handled, response := w.jobs[id].request, w.jobs[id].result.value;
            Answered(w.store, r, now) ==
            if r.method_ == handled.method_ && r.path == handled.path && r.payloadHash == handled.payloadHash
            then Replay(response.status, response.body) else Mismatch
  {
    CalmIsInv(ttl, start, steps);
    var w := After(ttl, Initial(start), steps);
    assert Counts(w.jobs[id], w.now);
    assert Owned(w, KeyOf(w.jobs[id]));
  }

  /** In every calm run, a replay carries the status and body of a request with
      the same stored key, method, path and body hash that reached the handler,
      succeeded, and whose reservation still runs. With scopes free of the
      separator it is a request with the same scope and key. */
  lemma ReplaysAreGenuine(ttl: int, start: int, steps: seq<Step>, r: Request, now: int)
    requires Legal(ttl, Initial(start), steps) && Calm(ttl, Initial(start), steps)
    requires After(ttl, Initial(start), steps).now <= now
    requires Answered(After(ttl, Initial(start), steps).store, r, now).Replay?
    ensures var w := After(ttl, Initial(start), steps);
            var reply := Answered(w.store, r, now);
            exists id ::
              && Counting(w.jobs, id, MapKey(r.scope, r.key), now)
              && w.jobs[id].result == Some(Response(reply.statusCode, reply.responseBody))
              && w.jobs[id].request.method_ == r.method_ && w.jobs[id].request.path == r.path
              && w.jobs[id].request.payloadHash == r.payloadHash
              && ('/' !in r.scope && '/' !in w.jobs[id].request.scope ==>
                    w.jobs[id].request.scope == r.scope && w.jobs[id].request.key == r.key)
  {
    CalmIsInv(ttl, start, steps);
    var w, k := After(ttl, Initial(start), steps), MapKey(r.scope, r.key);
    InvIsRight(w);
    var reply := Answered(w.store, r, now);
    assert RightAnswer(w.jobs, r, now, reply);
    var id :| Counting(w.jobs, id, k, now) && w.jobs[id].result == Some(Response(reply.statusCode, reply.responseBody))
              && SameCall(w.jobs[id].request, r);
    var q := w.jobs[id].request;
    if '/' !in r.scope && '/' !in q.scope { JoinInjective(r.scope, r.key, q.scope, q.key, '/'); }
  }

  /** A run with a finish that is not harmless: the first handler outlives its
      reservation and writes its response over the second one's, so that the second
      request, still running, would be replayed the first one's response. */
  lemma LateFinishCorrupts(first: Request, second: Request) returns (steps: seq<Step>)
    requires first.scope == second.scope && first.key == second.key
    ensures Legal(1, Initial(0), steps) && !Calm(1, Initial(0), steps)
    ensures var w := After(1, Initial(0), steps);
            && 1 in w.jobs && w.jobs[1] == Job(second, 3, None)
            && Answered(w.store, second, w.now) == Replay(200, "one")
  {
    var k := MapKey(first.scope, first.key);
    var s1, s2, s3 := Arrive(0, first, 0), Arrive(1, second, 2), Finish(0, Response(200, "one"), 3);
    steps := [s1, s2, s3];
    var w1 := Apply(1, Initial(0), s1);
    var w2 := Apply(1, w1, s2);
    var w3 := Apply(1, w2, s3);
    assert w2.store == map[k := Entry(Bound(second), 0, "", 2, 3)] && w2.owner[k] == 1;
    assert w2.jobs[0] == Job(first, 1, None) && w2.jobs[1] == Job(second, 3, None);
    assert w3.store[k] == Entry(Bound(second), 200, "one", 2, 3);
    assert steps[1..] == [s2, s3] && [s2, s3][1..] == [s3] && [s3][1..] == [];
    LegalThree(w1, w2, w3, s1, s2, s3);
  }

  lemma LegalThree(w1: World, w2: World, w3: World, s1: Step, s2: Step, s3: Step)
    requires Enabled(Initial(0), s1) && w1 == Apply(1, Initial(0), s1)
    requires Enabled(w1, s2) && w2 == Apply(1, w1, s2) && Enabled(w2, s3) && w3 == Apply(1, w2, s3)
    requires s3.Finish? && !Harmless(w2, s3.job, s3.response, s3.now)
    ensures Legal(1, Initial(0), [s1, s2, s3]) && After(1, Initial(0), [s1, s2, s3]) == w3
    ensures !Calm(1, Initial(0), [s1, s2, s3])
  {
    hide Apply, Enabled, Harmless;
    assert [s1, s2, s3][1..] == [s2, s3] && [s2, s3][1..] == [s3] && [s3][1..] == [];
    assert Legal(1, w2, [s3]) && After(1, w2, [s3]) == w3 && !Calm(1, w2, [s3]);
    assert Legal(1, w1, [s2, s3]) && After(1, w1, [s2, s3]) == w3 && !Calm(1, w1, [s2, s3]);
  }
}
