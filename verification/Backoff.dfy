/** The retry schedule and the claim lease. Durations are integers in one fixed unit. */
module Backoff {
  import opened Wrappers

  function Min(a: int, b: int): int {
    if a < b then a else b
  }

  function Max(a: int, b: int): int {
    if a < b then b else a
  }

  function Pow2(n: nat): (p: nat)
    ensures p >= 1
  {
    if n == 0 then 1 else 2 * Pow2(n - 1)
  }

  lemma {:induction false} Pow2Monotone(m: nat, n: nat)
    requires m <= n
    ensures Pow2(m) <= Pow2(n)
  {
    if m < n { Pow2Monotone(m, n - 1); }
  }

  lemma Scale(k: int, a: int, b: int)
    requires 0 <= k && a <= b
    ensures k * a <= k * b
  {}

  datatype Policy = Policy(baseDelay: int, maxDelay: int, lease: int) {

    /** What the model's validator accepts. */
    predicate Valid() {
      0 < baseDelay <= maxDelay && 0 < lease
    }

    /** The wait after the n-th attempt, in closed form. */
    function Wait(attempts: nat): int
      requires attempts >= 1
    {
      Min(baseDelay * Pow2(attempts - 1), maxDelay)
    }

    /** The doubling loop. It stops doubling at the ceiling, so its working value never reaches
        twice the ceiling, and it still returns the closed form. */
    method Delay(attempts: int) returns (delay: Option<int>, ghost peak: int)
      requires Valid()
      ensures delay.None? <==> attempts < 1
      ensures delay.Some? ==> delay.value == Wait(attempts) && peak < 2 * maxDelay
    {
      peak := 0;
      if attempts < 1 {
        return None, peak;
      }
      var d := baseDelay;
      peak := d;
      var i := 0;
      while i < attempts - 1
        invariant 0 <= i <= attempts - 1
        invariant d == baseDelay * Pow2(i) && d <= peak < 2 * maxDelay
      {
        if d >= maxDelay {
          break;
        }
        d := d * 2;
        peak := d;
        i := i + 1;
      }
      Pow2Monotone(i, attempts - 1);
      Scale(baseDelay, Pow2(i), Pow2(attempts - 1));
      delay := Some(Min(d, maxDelay));
    }

    /** Waits double from the base until the ceiling caps them: they never shrink, stay within it and
        reach it. */
    lemma WaitShape(m: nat, n: nat)
      requires Valid() && 1 <= m <= n
      ensures Wait(1) == baseDelay
      ensures 0 < baseDelay <= Wait(m) <= Wait(n) <= maxDelay
      ensures maxDelay <= m ==> Wait(m) == maxDelay
      ensures Wait(m + 1) == Min(2 * Wait(m), maxDelay)
    {
      Pow2Monotone(m - 1, n - 1);
      Scale(baseDelay, Pow2(m - 1), Pow2(n - 1));
      Scale(baseDelay, 1, Pow2(m - 1));
      Pow2Exceeds(m - 1);
      Scale(Pow2(m - 1), 1, baseDelay);
    }
  }

  lemma {:induction false} Pow2Exceeds(n: nat)
    ensures Pow2(n) >= n + 1
  {
    if n > 0 { Pow2Exceeds(n - 1); }
  }
}
