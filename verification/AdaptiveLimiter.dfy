/** The adaptive concurrency limiter of the outbox publishers. */
module AdaptiveLimiter {

  datatype Config = Config(initial: real, min: real, max: real, smoothing: real)

  predicate Sensible(c: Config) {
    1.0 <= c.min <= c.initial <= c.max
  }

  datatype State = State(limit: real, rttNoLoad: int, outstanding: set<nat>)

  function Initial(c: Config): State {
    State(c.initial, 0, {})
  }

  function Max(a: real, b: real): real {
    if a < b then b else a
  }

  function Min(a: real, b: real): real {
    if b < a then b else a
  }

  function Clamped(c: Config, x: real): real {
    Min(Max(x, c.min), c.max)
  }

  function BestRtt(noLoad: int, rtt: int): int {
    if noLoad == 0 || rtt < noLoad then rtt else noLoad
  }

  function Gradient(noLoad: int, rtt: int): (g: real)
    ensures 0.5 <= g <= 1.0
  {
    if rtt > 0 then Max(0.5, Min(1.0, (2 * noLoad) as real / rtt as real)) else 1.0
  }

  function Scaled(limit: real, gradient: real): real {
    limit * gradient
  }

  /** Acquiring is possible while fewer than floor(limit) tokens are out; each
      token is given back once, with the round-trip time and whether it failed. */
  datatype Step = Acquire(token: nat) | Release(token: nat, rtt: int, failed: bool)

  predicate Grants(s: State) {
    |s.outstanding| < s.limit.Floor
  }

  predicate Enabled(s: State, step: Step) {
    match step
    case Acquire(token) => token !in s.outstanding && Grants(s)
    case Release(token, _, _) => token in s.outstanding
  }

  function LimitAfter(c: Config, s: State, rtt: int, failed: bool): real {
    if failed then Max(s.limit * 0.5, c.min)
    else Clamped(c, Scaled(s.limit, Gradient(BestRtt(s.rttNoLoad, rtt), rtt)) + c.smoothing)
  }

  function Apply(c: Config, s: State, step: Step): State
    requires Enabled(s, step)
  {
    match step
    case Acquire(token) => s.(outstanding := s.outstanding + {token})
    case Release(token, rtt, failed) =>
      State(LimitAfter(c, s, rtt, failed),
            if failed then s.rttNoLoad else BestRtt(s.rttNoLoad, rtt),
            s.outstanding - {token})
  }

  predicate Legal(c: Config, s: State, steps: seq<Step>)
    decreases |steps|
  {
    steps == [] || (Enabled(s, steps[0]) && Legal(c, Apply(c, s, steps[0]), steps[1..]))
  }

  function After(c: Config, s: State, steps: seq<Step>): State
    requires Legal(c, s, steps)
    decreases |steps|
  {
    if steps == [] then s else After(c, Apply(c, s, steps[0]), steps[1..])
  }

  predicate Bounded(c: Config, s: State) {
    c.min <= s.limit <= c.max && |s.outstanding| <= c.max.Floor
  }

  lemma FloorMonotone(a: real, b: real)
    requires a <= b
    ensures a.Floor <= b.Floor
  {
  }

  lemma StepBounded(c: Config, s: State, step: Step)
    requires Sensible(c) && Bounded(c, s) && Enabled(s, step)
    ensures Bounded(c, Apply(c, s, step))
  {
    hide Gradient, Scaled;
    FloorMonotone(s.limit, c.max);
  }

  lemma {:induction false} RunKeeps(c: Config, s: State, steps: seq<Step>)
    requires Sensible(c) && Bounded(c, s) && Legal(c, s, steps)
    ensures Bounded(c, After(c, s, steps))
    decreases |steps|
  {
    if steps != [] {
      StepBounded(c, s, steps[0]);
      RunKeeps(c, Apply(c, s, steps[0]), steps[1..]);
    }
  }

  /** In every run the limit stays between its bounds, no more than floor(max)
      tokens are ever out, and an idle limiter grants. */
  lemma StaysBounded(c: Config, steps: seq<Step>)
    requires Sensible(c) && Legal(c, Initial(c), steps)
    ensures var s := After(c, Initial(c), steps);
            && c.min <= s.limit <= c.max && |s.outstanding| <= c.max.Floor
            && (s.outstanding == {} ==> Grants(s))
  {
    FloorMonotone(1.0, c.max);
    RunKeeps(c, Initial(c), steps);
    FloorMonotone(1.0, After(c, Initial(c), steps).limit);
  }

  // ----- Decay and growth -----

  function Halved(x: real, k: nat): real {
    if k == 0 then x else Halved(x, k - 1) * 0.5
  }

  lemma {:induction false} HalvedTwice(x: real, k: nat)
    ensures Halved(x * 0.5, k) == Halved(x, k) * 0.5
  {
    if k > 0 { HalvedTwice(x, k - 1); }
  }

  lemma {:induction false} HalvedShrinks(x: real, min: real, k: nat)
    requires 0.0 < x <= min
    ensures Halved(x, k) <= min
  {
    if k > 0 { HalvedShrinks(x, min, k - 1); }
  }

  /** How many of the steps are releases. */
  function Releases(steps: seq<Step>): nat {
    if steps == [] then 0 else (if steps[0].Release? then 1 else 0) + Releases(steps[1..])
  }

  /** The releases among the steps all fail, or none does. */
  predicate ReleasesEnd(steps: seq<Step>, failed: bool) {
    forall i | 0 <= i < |steps| && steps[i].Release? :: steps[i].failed == failed
  }

  /** k failures without a success between them, tokens acquired meanwhile or
      not, bring the limit to max(min, limit / 2^k). */
  lemma {:induction false} FailuresHalve(c: Config, s: State, steps: seq<Step>)
    requires Sensible(c) && Bounded(c, s) && Legal(c, s, steps) && ReleasesEnd(steps, true)
    ensures After(c, s, steps).limit == Max(Halved(s.limit, Releases(steps)), c.min)
    decreases |steps|
  {
    if steps != [] {
      var s', k := Apply(c, s, steps[0]), Releases(steps[1..]);
      StepBounded(c, s, steps[0]);
      FailuresHalve(c, s', steps[1..]);
      if steps[0].Release? {
        HalvedTwice(s.limit, k);
        if s.limit * 0.5 < c.min {
          HalvedShrinks(s.limit * 0.5, c.min, k);
          HalvedShrinks(c.min, c.min, k);
        }
      }
    }
  }

  /** What k releases add at most. */
  function Growth(k: nat, smoothing: real): real {
    k as real * smoothing
  }

  predicate Fast(steps: seq<Step>, noLoad: int) {
    forall i | 0 <= i < |steps| && steps[i].Release? :: noLoad <= steps[i].rtt <= 2 * noLoad
  }

  /** k successes without a failure between them, within twice the best time, add
      k times the smoothing, up to the maximum. */
  lemma {:induction false} SuccessesGrow(c: Config, s: State, steps: seq<Step>)
    requires Sensible(c) && c.smoothing >= 0.0 && Bounded(c, s) && s.rttNoLoad > 0
    requires Legal(c, s, steps) && ReleasesEnd(steps, false) && Fast(steps, s.rttNoLoad)
    ensures After(c, s, steps).limit == Min(s.limit + Growth(Releases(steps), c.smoothing), c.max)
    decreases |steps|
  {
    if steps == [] {
      GrowthStep(0, c.smoothing);
    } else {
      var s', k := Apply(c, s, steps[0]), Releases(steps[1..]);
      StepBounded(c, s, steps[0]);
      GrowthStep(k + 1, c.smoothing);
      if steps[0].Release? {
        FastRelease(c, s, steps[0].rtt);
      }
      assert s'.rttNoLoad == s.rttNoLoad && Fast(steps[1..], s.rttNoLoad) && ReleasesEnd(steps[1..], false);
      hide LimitAfter, Growth, Fast, ReleasesEnd, Enabled;
      SuccessesGrow(c, s', steps[1..]);
    }
  }

  lemma GrowthStep(k: nat, smoothing: real)
    requires smoothing >= 0.0
    ensures Growth(0, smoothing) == 0.0 && Growth(k, smoothing) >= 0.0
    ensures k > 0 ==> Growth(k, smoothing) == smoothing + Growth(k - 1, smoothing) && Growth(k - 1, smoothing) >= 0.0
  {
  }

  lemma FastRelease(c: Config, s: State, rtt: int)
    requires Sensible(c) && Bounded(c, s) && 0 < s.rttNoLoad <= rtt <= 2 * s.rttNoLoad && c.smoothing >= 0.0
    ensures BestRtt(s.rttNoLoad, rtt) == s.rttNoLoad
    ensures LimitAfter(c, s, rtt, false) == Min(s.limit + c.smoothing, c.max)
  {
    FastGradient(s.rttNoLoad, rtt);
    hide Gradient;
  }

  lemma FastGradient(noLoad: int, rtt: int)
    requires 0 < noLoad <= rtt <= 2 * noLoad
    ensures BestRtt(noLoad, rtt) == noLoad && Gradient(noLoad, rtt) == 1.0
  {
    var n, d := (2 * noLoad) as real, rtt as real;
    assert n >= d > 0.0;
    assert n / d >= 1.0;
  }

  lemma Ratio(n: real, d: real, q: real)
    requires d > 0.0
    ensures n / d < q <==> n < q * d
    ensures n / d <= q <==> n <= q * d
  {
    assert (n / d) * d == n;
    assert (q - n / d) * d == q * d - n;
  }

  /** The limit after a success: unchanged up to the smoothing if it took at most
      twice the best time, halved from four times on, scaled in proportion between. */
  lemma SuccessLimit(c: Config, s: State, rtt: int)
    requires s.rttNoLoad >= 0 && rtt >= 0
    ensures var best := if s.rttNoLoad == 0 || rtt < s.rttNoLoad then rtt else s.rttNoLoad;
            var g := if rtt <= 2 * best then 1.0 else if rtt >= 4 * best then 0.5 else (2 * best) as real / rtt as real;
            var limit := s.limit * g + c.smoothing;
            LimitAfter(c, s, rtt, false) ==
            if c.max <= limit || c.max <= c.min then c.max else if limit <= c.min then c.min else limit
  {
    var best := BestRtt(s.rttNoLoad, rtt);
    if rtt > 0 {
      Ratio((2 * best) as real, rtt as real, 1.0);
      Ratio((2 * best) as real, rtt as real, 0.5);
    }
  }

  // ----- The best time -----

  /** The times of the successful releases, in order. */
  function Times(steps: seq<Step>): seq<int> {
    if steps == [] then []
    else (if steps[0].Release? && !steps[0].failed then [steps[0].rtt] else []) + Times(steps[1..])
  }

  predicate IsLeast(times: seq<int>, t: int) {
    t in times && forall x | x in times :: t <= x
  }

  /** The best time after more successes. */
  function BestAfter(noLoad: int, times: seq<int>): int {
    if times == [] then noLoad else BestRtt(BestAfter(noLoad, times[..|times| - 1]), times[|times| - 1])
  }

  lemma {:induction false} BestAfterCons(noLoad: int, first: int, times: seq<int>)
    ensures BestAfter(noLoad, [first] + times) == BestAfter(BestRtt(noLoad, first), times)
  {
    if times == [] {
      assert [first] + times == [first] && [first][..0] == [];
    } else {
      var all := [first] + times;
      assert all[..|all| - 1] == [first] + times[..|times| - 1];
      BestAfterCons(noLoad, first, times[..|times| - 1]);
    }
  }

  lemma {:induction false} RunBest(c: Config, s: State, steps: seq<Step>)
    requires Legal(c, s, steps)
    ensures After(c, s, steps).rttNoLoad == BestAfter(s.rttNoLoad, Times(steps))
    decreases |steps|
  {
    hide LimitAfter;
    if steps != [] {
      RunBest(c, Apply(c, s, steps[0]), steps[1..]);
      if steps[0].Release? && !steps[0].failed {
        BestAfterCons(s.rttNoLoad, steps[0].rtt, Times(steps[1..]));
      } else {
        assert Times(steps) == Times(steps[1..]);
      }
    }
  }

  lemma {:induction false} BestAfterLeast(times: seq<int>)
    requires times != [] && forall x | x in times :: x >= 0
    ensures BestAfter(0, times) >= 0 && (BestAfter(0, times) == 0 <==> times[|times| - 1] == 0)
    ensures 0 !in times ==> IsLeast(times, BestAfter(0, times))
  {
    var init, last := times[..|times| - 1], times[|times| - 1];
    assert times == init + [last] && forall x | x in init :: x in times;
    assert last in times && forall x | x in times :: x in init || x == last;
    if init != [] { BestAfterLeast(init); }
  }

  /** In every run the best time is the least of the successes so far, exactly if
      none of them took no time, or the last one did: a zero stands for none yet. */
  lemma BestIsLeastIff(c: Config, steps: seq<Step>)
    requires Legal(c, Initial(c), steps) && Times(steps) != [] && forall x | x in Times(steps) :: x >= 0
    ensures IsLeast(Times(steps), After(c, Initial(c), steps).rttNoLoad) <==>
            0 !in Times(steps) || Times(steps)[|Times(steps)| - 1] == 0
  {
    RunBest(c, Initial(c), steps);
    BestAfterLeast(Times(steps));
  }

  // ----- The limiter as it runs -----

  class Gradient2Limiter {
    const config: Config
    var inflight: int
    var limit: real
    var rttNoLoad: int
    ghost var outstanding: set<nat>  // the tokens handed out and not given back

    ghost function View(): State
      reads this
    {
      State(limit, rttNoLoad, outstanding)
    }

    /** The counter is the number of tokens that are out. */
    ghost predicate Valid()
      reads this
    {
      inflight == |outstanding|
    }

    constructor (config: Config)
      ensures Valid() && this.config == config && View() == Initial(config)
      ensures limit == config.initial && inflight == 0 && rttNoLoad == 0
    {
      this.config, inflight, limit, rttNoLoad := config, 0, config.initial, 0;
      outstanding := {};
    }

    /** One pass of the acquire loop. */
    method TryAcquire(ghost token: nat) returns (granted: bool)
      requires Valid() && token !in outstanding
      modifies this
      ensures Valid() && (granted <==> Enabled(old(View()), Acquire(token)))
      ensures granted <==> |old(outstanding)| < old(limit).Floor
      ensures outstanding == if granted then old(outstanding) + {token} else old(outstanding)
      ensures View() == if granted then Apply(config, old(View()), Acquire(token)) else old(View())
    {
      var currentLimit := limit.Floor;
      granted := inflight < currentLimit;
      if granted {
        inflight := inflight + 1;
        outstanding := outstanding + {token};
      }
    }

    method ReleaseToken(ghost token: nat, rtt: int, failed: bool)
      requires Valid() && token in outstanding
      modifies this
      ensures Valid() && View() == Apply(config, old(View()), Release(token, rtt, failed))
    {
      hide Gradient, Scaled;
      inflight := inflight - 1;
      outstanding := outstanding - {token};
      if failed {
        limit := limit * 0.5;
        if limit < config.min { limit := config.min; }
        return;
      }
      if rttNoLoad == 0 || rtt < rttNoLoad { rttNoLoad := rtt; }
      limit := Scaled(limit, Gradient(rttNoLoad, rtt)) + config.smoothing;
      if limit < config.min { limit := config.min; }
      if limit > config.max { limit := config.max; }
    }
  }
}
