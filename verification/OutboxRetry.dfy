/** A publisher's failure counter and backoff. */
module OutboxRetry {
  import opened Wrappers

  /** publisherFailCount and publisherNextAttempt for one publisher (seconds). */
  datatype Backoff = Backoff(fails: nat, next: Option<int>)

  const FRESH := Backoff(0, None)

  function Pow(x: real, k: nat): real {
    if k == 0 then 1.0 else x * Pow(x, k - 1)
  }

  /** The delay in whole seconds after the given number of failures. */
  function Delay(factor: real, fails: nat): (seconds: int)
    ensures 1 <= seconds <= 3600
  {
    var backoff := Pow(factor, fails);
    var atLeast := if backoff < 1.0 then 1.0 else backoff;
    var atMost := if atLeast > 3600.0 then 3600.0 else atLeast;
    atMost.Floor
  }

  /** Powers multiply. */
  lemma {:induction false} PowAdds(x: real, i: nat, j: nat)
    ensures Pow(x, 1) == x && Pow(x, i + j) == Pow(x, i) * Pow(x, j)
  {
    assert Pow(x, 1) == x * Pow(x, 0);
    if i > 0 {
      PowAdds(x, i - 1, j);
      assert Pow(x, i + j) == x * Pow(x, i - 1 + j);
      assert x * (Pow(x, i - 1) * Pow(x, j)) == (x * Pow(x, i - 1)) * Pow(x, j);
    }
  }

  lemma {:induction false} PowGrows(x: real, i: nat, j: nat)
    requires x >= 1.0 && i <= j
    ensures 1.0 <= Pow(x, i) <= Pow(x, j)
    decreases j
  {
    if i < j {
      PowGrows(x, i, j - 1);
      Larger(x, Pow(x, j - 1));
    } else if i > 0 {
      PowGrows(x, i - 1, i - 1);
      Larger(x, Pow(x, i - 1));
    }
  }

  lemma Larger(x: real, y: real)
    requires x >= 1.0 && y >= 0.0
    ensures x * y >= y
  {
  }

  /** factor^fails whole seconds between one second and an hour, and with a factor
      of at least one no shorter after more failures. */
  lemma DelayLaw(factor: real, fails: nat, more: nat)
    ensures Pow(factor, fails) < 1.0 ==> Delay(factor, fails) == 1
    ensures Pow(factor, fails) > 3600.0 ==> Delay(factor, fails) == 3600
    ensures 1.0 <= Pow(factor, fails) <= 3600.0 ==> Delay(factor, fails) == Pow(factor, fails).Floor
    ensures factor >= 1.0 && fails <= more ==> Delay(factor, fails) <= Delay(factor, more)
  {
    if factor >= 1.0 && fails <= more { PowGrows(factor, fails, more); }
    hide Pow;
  }

  predicate GivesUp(b: Backoff, maxRetries: int) {
    b.fails + 1 >= maxRetries
  }

  function OnTransient(b: Backoff, maxRetries: int, factor: real, now: int): Backoff {
    if GivesUp(b, maxRetries) then FRESH
    else Backoff(b.fails + 1, Some(now + Delay(factor, b.fails + 1)))
  }

  predicate Waiting(b: Backoff, now: int) {
    b.next.Some? && now < b.next.value
  }
}
