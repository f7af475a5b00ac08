/** The token bucket behind rate limiting. Refilling and taking are separate
    critical sections, so their steps interleave. Times are in seconds. */
module TokenBucket {

  datatype Bucket = Bucket(burst: int, rate: int, tokens: int, lastRefill: real)

  function New(rate: int, burst: int, now: real): Bucket {
    Bucket(burst, rate, burst, now)
  }

  /** Go's conversion of a float to an integer: towards zero. */
  function Truncated(x: real): int {
    if x >= 0.0 then x.Floor else -((-x).Floor)
  }

  /** Tokens accruing over some seconds, before rounding. */
  function Gain(seconds: real, rate: int): real {
    seconds * rate as real
  }

  function Accrued(b: Bucket, now: real): real {
    Gain(now - b.lastRefill, b.rate)
  }

  function Min(a: int, b: int): int {
    if a < b then a else b
  }

  function Refilled(b: Bucket, now: real): Bucket {
    var n := Truncated(Accrued(b, now));
    if n > 0 then b.(tokens := Min(b.tokens + n, b.burst), lastRefill := now) else b
  }

  datatype Step = Refill(now: real) | Take

  function Apply(b: Bucket, step: Step): Bucket {
    match step
    case Refill(now) => Refilled(b, now)
    case Take => if b.tokens >= 1 then b.(tokens := b.tokens - 1) else b
  }

  function Run(b: Bucket, steps: seq<Step>): Bucket {
    if steps == [] then b else Apply(Run(b, steps[..|steps| - 1]), steps[|steps| - 1])
  }

  /** How many takes of a run are granted. */
  function Grants(b: Bucket, steps: seq<Step>): nat {
    if steps == [] then 0
    else
      var before := Run(b, steps[..|steps| - 1]);
      Grants(b, steps[..|steps| - 1])
      + (if steps[|steps| - 1].Take? && before.tokens >= 1 then 1 else 0)
  }

  predicate Valid(b: Bucket) {
    b.rate >= 0 && 0 <= b.tokens <= b.burst
  }

  /** No refill of the run happens after the given time. */
  predicate Until(steps: seq<Step>, end: real) {
    forall k | 0 <= k < |steps| && steps[k].Refill? :: steps[k].now <= end
  }

  // ----- Rounding -----

  lemma FloorBounds(x: real)
    ensures x.Floor as real <= x < x.Floor as real + 1.0
  {
  }

  lemma GainAdds(x: real, y: real, rate: int)
    ensures Gain(x + y, rate) == Gain(x, rate) + Gain(y, rate)
  {
  }

  lemma GainSign(x: real, rate: int)
    requires rate >= 0
    ensures x <= 0.0 ==> Gain(x, rate) <= 0.0
    ensures x >= 0.0 ==> Gain(x, rate) >= 0.0
  {
  }

  lemma GainMonotone(x: real, y: real, rate: int)
    requires x <= y && rate >= 0
    ensures Gain(x, rate) <= Gain(y, rate)
  {
    GainAdds(x, y - x, rate);
    GainSign(y - x, rate);
  }

  /** What one refill does to the bucket. */
  lemma RefillEffect(b: Bucket, now: real)
    requires Valid(b)
    ensures var b' := Refilled(b, now);
            && Valid(b') && b'.burst == b.burst && b'.rate == b.rate
            && b.lastRefill <= b'.lastRefill
            && (b'.lastRefill == b.lastRefill || b'.lastRefill == now)
            && b'.tokens as real <= b.tokens as real + Gain(b'.lastRefill - b.lastRefill, b.rate)
            && Accrued(b', now) < 1.0
  {
    GainSign(now - b.lastRefill, b.rate);
    GainSign(0.0, b.rate);
    hide Gain;
    FloorBounds(Accrued(b, now));
  }

  lemma GainIs(seconds: real, rate: int)
    ensures Gain(seconds, rate) == seconds * rate as real
  {
  }

  /** A refill adds the whole tokens accrued, up to the burst, and is dated exactly
      when there are any; a clock that went back changes nothing. */
  lemma RefillAdds(b: Bucket, now: real, elapsed: real)
    requires Valid(b) && elapsed == now - b.lastRefill
    ensures var b', whole := Refilled(b, now), (elapsed * b.rate as real).Floor;
            && b'.burst == b.burst && b'.rate == b.rate
            && b'.tokens == (if whole <= 0 then b.tokens
                             else if b.tokens + whole < b.burst then b.tokens + whole else b.burst)
            && b'.lastRefill == (if whole <= 0 then b.lastRefill else now)
  {
    var x := Accrued(b, now);
    GainIs(elapsed, b.rate);
    hide Gain;
    FloorBounds(x);
    FloorBounds(-x);
    assert x < 0.0 ==> x.Floor <= 0 && Truncated(x) <= 0;
  }

  /** A refill that adds tokens discards less than half of what had accrued. */
  lemma RoundingLosesLessThanHalf(b: Bucket, now: real)
    requires Truncated(Accrued(b, now)) > 0
    ensures 0.0 <= Accrued(b, now) - Truncated(Accrued(b, now)) as real < Accrued(b, now) / 2.0
  {
    FloorBounds(Accrued(b, now));
  }

  // ----- Rate bounds -----

  /** Along every run: the bucket stays within bounds, and every token handed out
      was there at the start or has accrued since. */
  lemma {:induction false} RunBalance(b: Bucket, steps: seq<Step>, end: real)
    requires Valid(b) && b.lastRefill <= end && Until(steps, end)
    ensures var b' := Run(b, steps);
            && Valid(b') && b'.burst == b.burst && b'.rate == b.rate && b.lastRefill <= b'.lastRefill <= end
            && b'.tokens as real + Grants(b, steps) as real
               <= b.tokens as real + Gain(b'.lastRefill - b.lastRefill, b.rate)
  {
    GainSign(0.0, b.rate);
    hide Refilled, Gain;
    if steps != [] {
      var front, last := steps[..|steps| - 1], steps[|steps| - 1];
      RunBalance(b, front, end);
      var mid := Run(b, front);
      if last.Refill? {
        RefillEffect(mid, last.now);
        var b' := Refilled(mid, last.now);
        GainAdds(mid.lastRefill - b.lastRefill, b'.lastRefill - mid.lastRefill, b.rate);
        assert mid.lastRefill - b.lastRefill + (b'.lastRefill - mid.lastRefill) == b'.lastRefill - b.lastRefill;
      }
    }
  }

  /** Grants since creation never exceed burst + rate * elapsed. */
  lemma TotalBound(rate: int, burst: int, start: real, steps: seq<Step>, end: real)
    requires rate >= 0 && burst >= 0 && start <= end && Until(steps, end)
    ensures Grants(New(rate, burst, start), steps) as real <= burst as real + Gain(end - start, rate)
  {
    hide Run, Grants, Gain;
    var b := New(rate, burst, start);
    RunBalance(b, steps, end);
    GainMonotone(Run(b, steps).lastRefill - start, end - start, rate);
  }

  /** Grants in any window that begins with a refill, whatever happened before
      it, stay below burst + rate * window + 1. */
  lemma WindowBound(b: Bucket, from: real, steps: seq<Step>, end: real)
    requires Valid(b) && b.lastRefill <= from <= end && Until(steps, end)
    ensures Grants(Refilled(b, from), steps) as real < b.burst as real + Gain(end - from, b.rate) + 1.0
  {
    hide Refilled, Run, Grants, Gain;
    RefillEffect(b, from);
    var b' := Refilled(b, from);
    RunBalance(b', steps, end);
    GainMonotone(Run(b', steps).lastRefill - b'.lastRefill, end - b'.lastRefill, b.rate);
    GainAdds(end - from, from - b'.lastRefill, b.rate);
    assert end - from + (from - b'.lastRefill) == end - b'.lastRefill;
  }

  // ----- What is granted at least -----

  /** Along every run that cannot fill the bucket, at least half of what accrues is
      handed out or still there. */
  lemma {:induction false} RunYields(b: Bucket, steps: seq<Step>, end: real)
    requires Valid(b) && b.lastRefill <= end && Until(steps, end)
    requires b.tokens as real + Gain(end - b.lastRefill, b.rate) <= b.burst as real
    ensures var b' := Run(b, steps);
            b'.tokens as real + Grants(b, steps) as real
            >= b.tokens as real + Gain(b'.lastRefill - b.lastRefill, b.rate) / 2.0
  {
    if steps == [] {
      GainSign(0.0, b.rate);
    } else {
      var front, last := steps[..|steps| - 1], steps[|steps| - 1];
      RunYields(b, front, end);
      RunBalance(b, front, end);
      var mid := Run(b, front);
      if last.Refill? {
        hide Run, Grants, Gain;
        RefillYields(mid, last.now, b, end);
        assert Run(b, steps) == Refilled(mid, last.now) && Grants(b, steps) == Grants(b, front) by { RunLast(b, steps); }
      }
    }
  }

  lemma RunLast(b: Bucket, steps: seq<Step>)
    requires steps != []
    ensures var front, last := steps[..|steps| - 1], steps[|steps| - 1];
            && Run(b, steps) == Apply(Run(b, front), last)
            && Grants(b, steps) == Grants(b, front) + (if last.Take? && Run(b, front).tokens >= 1 then 1 else 0)
  {
  }

  /** One refill of such a run. */
  lemma RefillYields(mid: Bucket, now: real, b: Bucket, end: real)
    requires Valid(mid) && mid.rate == b.rate && mid.burst == b.burst && b.lastRefill <= mid.lastRefill && now <= end
    requires mid.tokens as real <= b.tokens as real + Gain(mid.lastRefill - b.lastRefill, b.rate)
    requires b.tokens as real + Gain(end - b.lastRefill, b.rate) <= b.burst as real
    ensures var b' := Refilled(mid, now);
            && b'.tokens as real >= mid.tokens as real + Gain(b'.lastRefill - mid.lastRefill, b.rate) / 2.0
            && Gain(b'.lastRefill - b.lastRefill, b.rate)
               == Gain(mid.lastRefill - b.lastRefill, b.rate) + Gain(b'.lastRefill - mid.lastRefill, b.rate)
  {
    var b', n := Refilled(mid, now), Truncated(Accrued(mid, now));
    GainAdds(mid.lastRefill - b.lastRefill, b'.lastRefill - mid.lastRefill, b.rate);
    assert mid.lastRefill - b.lastRefill + (b'.lastRefill - mid.lastRefill) == b'.lastRefill - b.lastRefill;
    GainSign(0.0, b.rate);
    if n > 0 {
      RoundingLosesLessThanHalf(mid, now);
      GainMonotone(now - b.lastRefill, end - b.lastRefill, b.rate);
      hide Gain;
    }
  }

  /** A refill and a take for each request time. */
  function Requests(times: seq<real>): seq<Step> {
    if times == [] then [] else Requests(times[..|times| - 1]) + [Refill(times[|times| - 1]), Take]
  }

  /** The times leave at least the time in which one token accrues between them. */
  predicate Spaced(times: seq<real>, rate: int) {
    forall i | 0 < i < |times| :: Gain(times[i] - times[i - 1], rate) >= 1.0
  }

  /** Requests that leave enough time for one token to accrue are all granted. */
  lemma {:induction false} SpacedAreGranted(b: Bucket, times: seq<real>)
    requires Valid(b) && b.burst >= 1 && Spaced(times, b.rate)
    requires times != [] ==> Gain(times[0] - b.lastRefill, b.rate) >= 1.0
    ensures var b' := Run(b, Requests(times));
            && Grants(b, Requests(times)) == |times| && Valid(b') && b'.burst == b.burst && b'.rate == b.rate
            && (times != [] ==> b'.lastRefill == times[|times| - 1])
            && (times == [] ==> b' == b)
  {
    if times != [] {
      var init, now := times[..|times| - 1], times[|times| - 1];
      SpacedAreGranted(b, init);
      var mid := Run(b, Requests(init));
      assert init != [] ==> mid.lastRefill == times[|times| - 2];
      hide Gain, Run, Grants;
      OneGranted(b, Requests(init), now);
    }
  }

  lemma OneGranted(b: Bucket, steps: seq<Step>, now: real)
    requires var mid := Run(b, steps); Valid(mid) && mid.burst >= 1 && Gain(now - mid.lastRefill, mid.rate) >= 1.0
    ensures var mid, more := Run(b, steps), steps + [Refill(now), Take];
            && Grants(b, more) == Grants(b, steps) + 1
            && Run(b, more) == Apply(Refilled(mid, now), Take)
            && Valid(Run(b, more)) && Run(b, more).lastRefill == now
            && Run(b, more).burst == mid.burst && Run(b, more).rate == mid.rate
  {
    var mid, more := Run(b, steps), steps + [Refill(now), Take];
    var one := steps + [Refill(now)];
    FloorBounds(Accrued(mid, now));
    assert more[..|more| - 1] == one && one[..|one| - 1] == steps;
    RunLast(b, more);
    RunLast(b, one);
    hide Run, Grants, Gain;
  }

  // ----- The bucket as it runs -----

  lemma TwoSteps(b: Bucket, now: real)
    ensures Run(b, [Refill(now), Take]) == Apply(Refilled(b, now), Take)
    ensures Grants(b, [Refill(now), Take]) == if Refilled(b, now).tokens >= 1 then 1 else 0
  {
    hide Refilled;
    var one, two := [Refill(now)], [Refill(now), Take];
    assert two[..1] == one && one[..0] == [];
    assert Run(b, one) == Refilled(b, now) && Grants(b, one) == 0;
  }

  class LiveBucket {
    const capacity: int
    const refillRate: int
    const burstCapacity: int
    var tokens: int
    var lastRefill: real

    function View(): Bucket
      reads this
    {
      Bucket(burstCapacity, refillRate, tokens, lastRefill)
    }

    constructor (capacity: int, refillRate: int, burstCapacity: int, now: real)
      ensures View() == New(refillRate, burstCapacity, now) && this.capacity == capacity
      ensures tokens == burstCapacity && lastRefill == now
    {
      this.capacity, this.refillRate, this.burstCapacity := capacity, refillRate, burstCapacity;
      tokens, lastRefill := burstCapacity, now;
    }

    method RefillAt(now: real)
      modifies this
      ensures View() == Refilled(old(View()), now)
    {
      hide Gain;
      var elapsed := now - lastRefill;
      var tokensToAdd := Truncated(Gain(elapsed, refillRate));
      if tokensToAdd > 0 {
        tokens := tokens + tokensToAdd;
        if tokens > burstCapacity { tokens := burstCapacity; }
        lastRefill := now;
      }
    }

    method AllowRequest(now: real) returns (allowed: bool)
      modifies this
      ensures View() == Run(old(View()), [Refill(now), Take])
      ensures allowed <==> Grants(old(View()), [Refill(now), Take]) == 1
    {
      RefillAt(now);
      TwoSteps(old(View()), now);
      if tokens >= 1 {
        tokens := tokens - 1;
        return true;
      }
      return false;
    }
  }
}
