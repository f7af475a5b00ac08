/** Retries: the failure counters, read off the log. */
module OutboxRetryLaw {
  import opened Wrappers
  import opened Uuid
  import opened OutboxTables
  import opened OutboxRetry
  import opened OutboxProtocol
  import opened OutboxRuns

  /** Transient failures of a publisher since its last success or restart. */
  function TransientsIn(log: seq<Entry>, p: string): nat {
    if log == [] then 0
    else
      var last := log[|log| - 1];
      if last.Restarted? || (last.Published? && last.publisher == p) then 0
      else TransientsIn(log[..|log| - 1], p)
           + (if last.Errored? && last.publisher == p && !last.permanent then 1 else 0)
  }

  function Period(c: Config): (n: nat)
    ensures n >= 1
  {
    if c.maxRetries < 1 then 1 else c.maxRetries
  }

  /** The failure at k dead-lettered its event exactly when it was permanent or
      completed a period of transient failures. */
  ghost predicate JudgedRight(c: Config, log: seq<Entry>, k: nat)
    requires k < |log| && log[k].Errored?
  {
    log[k].deadLettered <==>
    log[k].permanent || TransientsIn(log[..k + 1], log[k].publisher) % Period(c) == 0
  }

  /** Counters are the transient counts modulo the retry limit, and a transient
      failure dead-letters exactly when it completes a period. */
  ghost predicate CountsRetries(c: Config, w: World) {
    && (forall p :: BackoffOf(w, p).fails == TransientsIn(w.log, p) % Period(c))
    && forall k | 0 <= k < |w.log| && w.log[k].Errored? :: JudgedRight(c, w.log, k)
  }

  lemma NextInPeriod(n: nat, period: nat)
    requires period >= 1
    ensures (n + 1) % period == if n % period + 1 == period then 0 else n % period + 1
  {
    var q, r := n / period, n % period;
    assert n == period * q + r;
    if r + 1 == period {
      assert n + 1 == period * (q + 1);
      ModUnique(n + 1, period, q + 1, 0);
    } else {
      ModUnique(n + 1, period, q, r + 1);
    }
  }

  lemma ModUnique(n: nat, d: nat, q: nat, r: nat)
    requires r < d && n == d * q + r
    ensures n % d == r
  {
    var q', r' := n / d, n % d;
    assert n == d * q' + r';
    if q + 1 <= q' { MulMonotone(d, q + 1, q'); }
    if q' + 1 <= q { MulMonotone(d, q' + 1, q); }
  }

  lemma MulMonotone(d: nat, a: nat, b: nat)
    requires a <= b
    ensures d * a <= d * b
  {
    assert d * b == d * a + d * (b - a);
  }

  predicate Resets(step: Step, p: string) {
    step.Restart? || (step.PublishOk? && step.publisher == p)
  }

  predicate CountsFor(step: Step, p: string) {
    step.PublishError? && step.publisher == p && !step.permanent
  }

  lemma StepTransients(c: Config, w: World, step: Step, p: string)
    requires Enabled(c, w, step)
    ensures TransientsIn(Apply(c, w, step).log, p) ==
            if Resets(step, p) then 0
            else TransientsIn(w.log, p) + (if CountsFor(step, p) then 1 else 0)
  {
    StepLog(c, w, step);
    hide Apply, IsBatch;
    var w' := Apply(c, w, step);
    if w'.log != w.log { assert w'.log[..|w.log|] == w.log; }
  }

  lemma StepFails(c: Config, w: World, step: Step, p: string)
    requires Enabled(c, w, step)
    ensures BackoffOf(Apply(c, w, step), p).fails ==
            if Resets(step, p) || (CountsFor(step, p) && GivesUp(BackoffOf(w, p), c.maxRetries)) then 0
            else BackoffOf(w, p).fails + (if CountsFor(step, p) then 1 else 0)
  {
  }

  /** The counter of p after a step, from its value before. */
  lemma StepCounter(c: Config, w: World, step: Step, p: string)
    requires Enabled(c, w, step)
    requires BackoffOf(w, p).fails == TransientsIn(w.log, p) % Period(c)
    ensures BackoffOf(Apply(c, w, step), p).fails == TransientsIn(Apply(c, w, step).log, p) % Period(c)
    ensures CountsFor(step, p) ==>
              (GivesUp(BackoffOf(w, p), c.maxRetries) <==> TransientsIn(Apply(c, w, step).log, p) % Period(c) == 0)
  {
    var n, period := TransientsIn(w.log, p), Period(c);
    StepTransients(c, w, step, p);
    StepFails(c, w, step, p);
    NextInPeriod(n, period);
    assert n % period < period;
  }

  lemma StepCountsRetries(c: Config, w: World, step: Step)
    requires CountsRetries(c, w) && Enabled(c, w, step)
    ensures CountsRetries(c, Apply(c, w, step))
  {
    var w' := Apply(c, w, step);
    forall p ensures BackoffOf(w', p).fails == TransientsIn(w'.log, p) % Period(c) {
      StepCounter(c, w, step, p);
    }
    forall k | 0 <= k < |w'.log| && w'.log[k].Errored? ensures JudgedRight(c, w'.log, k) {
      if k < |w.log| {
        assert JudgedRight(c, w.log, k);
        assert w'.log[..k + 1] == w.log[..k + 1];
      } else {
        assert w'.log[..k + 1] == w'.log;
        StepCounter(c, w, step, step.publisher);
      }
    }
  }

  // ----- Backing off -----

  /** Steps that leave a publisher's backoff alone. */
  predicate Quiet(steps: seq<Step>, p: string) {
    forall step | step in steps :: !Resets(step, p) && !CountsFor(step, p)
  }

  lemma {:induction false} BackoffStays(c: Config, w: World, steps: seq<Step>, p: string)
    requires Legal(c, w, steps) && Quiet(steps, p)
    ensures BackoffOf(After(c, w, steps), p) == BackoffOf(w, p)
    decreases |steps|
  {
    if steps != [] {
      assert steps[0] in steps && forall s | s in steps[1..] :: s in steps;
      BackoffStays(c, Apply(c, w, steps[0]), steps[1..], p);
    }
  }

  /** A publisher with nothing in hand can fetch at a time. */
  ghost predicate CanFetch(c: Config, w: World, p: string, now: int) {
    c.batchSize >= 0 && exists ids :: Enabled(c, w, Fetch(p, c.batchSize, now, ids))
  }

  lemma CanFetchIff(c: Config, w: World, p: string, now: int)
    requires p in c.publishers && p !in w.acks && BatchOf(w, p) == [] && c.batchSize >= 0
    ensures CanFetch(c, w, p, now) <==> (BackoffOf(w, p).next.Some? ==> BackoffOf(w, p).next.value <= now)
  {
    var ids := FirstBatch(w.events, w.progress, p, c.batchSize, now);
    assert Enabled(c, w, Fetch(p, c.batchSize, now, ids)) <==> !Waiting(BackoffOf(w, p), now);
  }

  /** After the n-th transient failure in a row, counted modulo the limit, a
      publisher that has nothing in hand fetches again exactly from the delay for n
      on, and at once if the event was given up. */
  lemma BacksOffIff(c: Config, w: World, p: string, message: string, now: int, saved: bool, steps: seq<Step>, later: int)
    requires CountsRetries(c, w) && c.batchSize >= 0
    requires var failure := PublishError(p, false, message, now, saved);
             Enabled(c, w, failure) && Legal(c, Apply(c, w, failure), steps) && Quiet(steps, p)
    requires var w' := After(c, Apply(c, w, PublishError(p, false, message, now, saved)), steps);
             p !in w'.acks && BatchOf(w', p) == []
    ensures var failed := Apply(c, w, PublishError(p, false, message, now, saved));
            var n := TransientsIn(failed.log, p) % Period(c);
            CanFetch(c, After(c, failed, steps), p, later) <==> n == 0 || now + Delay(c.factor, n) <= later
  {
    var failure := PublishError(p, false, message, now, saved);
    var failed := Apply(c, w, failure);
    StepCounter(c, w, failure, p);
    FailureBackoff(c, w, p, message, now, saved);
    hide Apply, Enabled, TransientsIn, CountsRetries, CanFetch, Delay;
    BackoffStays(c, failed, steps, p);
    CanFetchIff(c, After(c, failed, steps), p, later);
  }

  lemma FailureBackoff(c: Config, w: World, p: string, message: string, now: int, saved: bool)
    requires Enabled(c, w, PublishError(p, false, message, now, saved))
    ensures BackoffOf(Apply(c, w, PublishError(p, false, message, now, saved)), p) ==
            OnTransient(BackoffOf(w, p), c.maxRetries, c.factor, now)
  {
  }
}
