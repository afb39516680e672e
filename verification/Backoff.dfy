/** The outbox worker's retry delay: exponential, capped, with jitter added on top. */
module Backoff {
  import opened Prelude

  /** retry_base and retry_max in seconds, as the worker's constructor admits them. */
  datatype Bounds = Bounds(base: real, max: real)

  predicate Admitted(b: Bounds) {
    0.0 < b.base <= b.max
  }

  function RealMin(x: real, y: real): real {
    if x <= y then x else y
  }

  function RealMax(x: real, y: real): real {
    if x <= y then y else x
  }

  function Exponent(attempt: int): nat {
    Min(Max(attempt - 1, 0), 10)
  }

  function Bounded(b: Bounds, attempt: int): real {
    RealMin(Doubled(b.base, Exponent(attempt)), b.max)
  }

  /** x * 2**times */
  function Doubled(x: real, times: nat): (r: real)
    ensures x > 0.0 ==> r >= x
  {
    if times == 0 then x else 2.0 * Doubled(x, times - 1)
  }

  function JitterCeiling(b: Bounds, attempt: int): real {
    RealMin(b.base, RealMax(b.max - Bounded(b, attempt), 0.0))
  }

  /** jitter is any function, also one that does not keep to its ceiling. */
  function Delay(b: Bounds, attempt: int, jitter: real -> real): real {
    var ceiling := JitterCeiling(b, attempt);
    Bounded(b, attempt) + RealMin(RealMax(jitter(ceiling), 0.0), ceiling)
  }

  lemma {:induction false} DoubledIs(x: real, n: nat)
    ensures Doubled(x, n) == x * (Pow2(n) as real)
  {
    if n > 0 {
      DoubledIs(x, n - 1);
      var p := Pow2(n - 1) as real;
      assert Pow2(n) as real == 2.0 * p;
      assert 2.0 * (x * p) == x * (2.0 * p);
    }
  }

  /** The largest factor is 1024. */
  lemma DoubledTenTimes(x: real)
    ensures Doubled(x, 10) == x * 1024.0
  {
    DoubledIs(x, 10);
    assert Pow2(10) == 1024;
  }

  /** The bounded delay, under the cap throughout: base up to the first attempt, then twice as much with each attempt until
      it is base times 1024 at the eleventh, where it stays. */
  lemma BoundedIs(b: Bounds, attempt: int)
    requires Admitted(b)
    ensures attempt <= 1 ==> Bounded(b, attempt) == b.base
    ensures 1 <= attempt <= 10 ==> Bounded(b, attempt + 1) == RealMin(2.0 * Bounded(b, attempt), b.max)
    ensures attempt >= 11 ==> Bounded(b, attempt) == RealMin(b.base * 1024.0, b.max)
  {
    if attempt <= 1 {
      assert Exponent(attempt) == 0;
    }
    if 1 <= attempt <= 10 {
      OneMoreDoubling(b, attempt);
    }
    if attempt >= 11 {
      assert Exponent(attempt) == 10;
      DoubledTenTimes(b.base);
    }
  }

  lemma OneMoreDoubling(b: Bounds, attempt: int)
    requires Admitted(b) && 1 <= attempt <= 10
    ensures Bounded(b, attempt + 1) == RealMin(2.0 * Bounded(b, attempt), b.max)
  {
    assert Exponent(attempt) == attempt - 1 && Exponent(attempt + 1) == attempt;
    assert Doubled(b.base, attempt) == 2.0 * Doubled(b.base, attempt - 1);
  }

  /** Every delay lies between the capped exponential and base more, within the cap, and reaches both ends where the jitter
      says so. */
  lemma DelayIsBounded(b: Bounds, attempt: int, jitter: real -> real)
    requires Admitted(b)
    ensures b.base <= Bounded(b, attempt) <= Delay(b, attempt, jitter) <= RealMin(Bounded(b, attempt) + b.base, b.max)
    ensures Delay(b, attempt, _ => 0.0) == Bounded(b, attempt)
    ensures Delay(b, attempt, ceiling => ceiling) == RealMin(Bounded(b, attempt) + b.base, b.max)
  {
  }

  predicate NotLonger(b: Bounds, attempt: int, j: real -> real, j': real -> real) {
    Delay(b, attempt, j) <= Delay(b, attempt + 1, j')
  }

  /** No delay after one attempt exceeds any delay after the next. */
  ghost predicate NeverShrinks(b: Bounds, attempt: int) {
    forall j, j' :: NotLonger(b, attempt, j, j')
  }

  /** From one attempt to the next delays never shrink, exactly while the exponent still grows or the cap already
      leaves no room for jitter. */
  lemma NeverShrinksIff(b: Bounds, attempt: int)
    requires Admitted(b) && attempt >= 1
    ensures NeverShrinks(b, attempt) <==> attempt <= 10 || b.base * 1024.0 >= b.max
  {
    if attempt <= 10 {
      Growing(b, attempt);
    } else if b.base * 1024.0 >= b.max {
      Capped(b, attempt);
    } else {
      Shrinking(b, attempt);
    }
  }

  lemma BoundedGrows(b: Bounds, attempt: int)
    requires Admitted(b) && 1 <= attempt <= 10
    ensures Bounded(b, attempt + 1) >= RealMin(Bounded(b, attempt) + b.base, b.max)
  {
    OneMoreDoubling(b, attempt);
    DelayIsBounded(b, attempt, x => x);
  }

  lemma Growing(b: Bounds, attempt: int)
    requires Admitted(b) && 1 <= attempt <= 10
    ensures NeverShrinks(b, attempt)
  {
    BoundedGrows(b, attempt);
    forall j, j' ensures NotLonger(b, attempt, j, j') {
      DelayIsBounded(b, attempt, j);
      DelayIsBounded(b, attempt + 1, j');
    }
  }

  lemma Capped(b: Bounds, attempt: int)
    requires Admitted(b) && attempt > 10 && b.base * 1024.0 >= b.max
    ensures NeverShrinks(b, attempt)
  {
    DoubledTenTimes(b.base);
    forall j, j' ensures NotLonger(b, attempt, j, j') {
      DelayIsBounded(b, attempt, j);
      DelayIsBounded(b, attempt + 1, j');
    }
  }

  /** Full jitter after one attempt and none after the next. */
  lemma Shrinking(b: Bounds, attempt: int)
    requires Admitted(b) && attempt > 10 && b.base * 1024.0 < b.max
    ensures !NeverShrinks(b, attempt)
  {
    var full, none := (ceiling: real) => ceiling, (ceiling: real) => 0.0;
    DoubledTenTimes(b.base);
    assert Bounded(b, attempt) == Bounded(b, attempt + 1) < b.max;
    assert JitterCeiling(b, attempt) > 0.0;
    assert !NotLonger(b, attempt, full, none);
  }
}
