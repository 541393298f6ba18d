/** Backoff delays of `clients/retry.rs`, over the reals: the rounding of floating point is left out, the
    final truncation to whole milliseconds is not. */
module Retry {

  const JITTER_MAX_FACTOR := 0.25

  /** The random factor of the jitter. */
  predicate IsDraw(draw: real) {
    0.0 <= draw < JITTER_MAX_FACTOR
  }

  datatype RetryConfig = RetryConfig(
      maxRetries: nat, initialDelay: nat, maxDelay: nat, backoffMultiplier: real, jitter: bool)

  function Power(base: real, n: nat): real {
    if n == 0 then 1.0 else base * Power(base, n - 1)
  }

  function MinReal(a: real, b: real): real {
    if b < a then b else a
  }

  function Uncapped(c: RetryConfig, attempt: nat): real {
    c.initialDelay as real * Power(c.backoffMultiplier, attempt)
  }

  /** The delay before jitter. */
  function Backoff(c: RetryConfig, attempt: nat): real {
    MinReal(Uncapped(c, attempt), c.maxDelay as real)
  }

  function Jittered(delay: real, draw: real): real {
    delay * (1.0 + draw)
  }

  function Whole(delay: real): nat {
    if delay < 0.0 then 0 else delay.Floor
  }

  /** `delay_for_attempt` in milliseconds; `draw` is the random factor. A negative delay is cast to zero. */
  function DelayForAttempt(c: RetryConfig, attempt: nat, draw: real): nat
    requires IsDraw(draw)
  {
    Whole(if c.jitter then Jittered(Backoff(c, attempt), draw) else Backoff(c, attempt))
  }

  /** No delay exceeds the maximum by more than the jitter. */
  lemma {:induction false} DelayIsCapped(c: RetryConfig, attempt: nat, draw: real)
    requires IsDraw(draw)
    ensures 4 * DelayForAttempt(c, attempt, draw) <= if c.jitter then 5 * c.maxDelay else 4 * c.maxDelay
  {
    var delay, cap := Backoff(c, attempt), c.maxDelay as real;
    assert delay <= cap;
    hide Backoff;
    if c.jitter && delay >= 0.0 {
      Product(delay, cap, draw);
    } else if c.jitter {
      ProductGrows(delay, 0.0, 1.0 + draw);
    }
    FourFold(DelayForAttempt(c, attempt, draw), c.maxDelay, c.jitter);
  }

  lemma {:induction false} FourFold(f: nat, maxDelay: nat, jitter: bool)
    requires f as real <= if jitter then maxDelay as real * 1.25 else maxDelay as real
    ensures 4 * f <= if jitter then 5 * maxDelay else 4 * maxDelay
  {
    assert (4 * f) as real == 4.0 * f as real;
    assert (5 * maxDelay) as real == 5.0 * maxDelay as real;
  }

  lemma {:induction false} ProductGrows(x: real, y: real, factor: real)
    requires x <= y && 0.0 <= factor
    ensures x * factor <= y * factor
  {
  }

  lemma {:induction false} FactorGrows(x: real, factor: real, larger: real)
    requires 0.0 <= x && factor <= larger
    ensures x * factor <= x * larger
  {
  }

  lemma {:induction false} Product(delay: real, cap: real, draw: real)
    requires 0.0 <= delay <= cap && 0.0 <= draw < 0.25
    ensures Jittered(delay, draw) <= cap * 1.25
  {
    FactorGrows(delay, 1.0 + draw, 1.25);
    ProductGrows(delay, cap, 1.25);
  }

  lemma {:induction false} BackoffGrows(c: RetryConfig, attempt: nat)
    requires c.backoffMultiplier >= 1.0
    ensures 0.0 <= Backoff(c, attempt) <= Backoff(c, attempt + 1)
  {
    UncappedGrows(c, attempt);
    hide Uncapped;
  }

  lemma {:induction false} UncappedGrows(c: RetryConfig, attempt: nat)
    requires c.backoffMultiplier >= 1.0
    ensures 0.0 <= Uncapped(c, attempt) <= Uncapped(c, attempt + 1)
  {
    if attempt == 0 {
      UncappedStarts(c);
    } else {
      UncappedGrows(c, attempt - 1);
    }
    UncappedSteps(c, attempt);
    hide Uncapped;
    FactorGrows(Uncapped(c, attempt), 1.0, c.backoffMultiplier);
  }

  /** The backoff starts with the initial delay and, for a multiplier of at least one, each is the one before times
      the multiplier; none is above the maximum. */
  lemma {:induction false} BackoffIsGeometric(c: RetryConfig, attempt: nat)
    ensures Backoff(c, 0) == MinReal(c.initialDelay as real, c.maxDelay as real)
    ensures c.backoffMultiplier >= 1.0 ==>
              Backoff(c, attempt + 1) == MinReal(Backoff(c, attempt) * c.backoffMultiplier, c.maxDelay as real)
  {
    UncappedStarts(c);
    UncappedSteps(c, attempt);
    hide Uncapped;
    if c.backoffMultiplier >= 1.0 {
      CapAgain(Uncapped(c, attempt), c.backoffMultiplier, c.maxDelay as real);
      hide MinReal;
    }
  }

  lemma {:induction false} UncappedStarts(c: RetryConfig)
    ensures Uncapped(c, 0) == c.initialDelay as real
  {
  }

  lemma {:induction false} UncappedSteps(c: RetryConfig, attempt: nat)
    ensures Uncapped(c, attempt + 1) == Uncapped(c, attempt) * c.backoffMultiplier
  {
    Reorder(c.initialDelay as real, c.backoffMultiplier, Power(c.backoffMultiplier, attempt));
  }

  lemma {:induction false} CapAgain(x: real, m: real, cap: real)
    requires m >= 1.0 && cap >= 0.0
    ensures MinReal(MinReal(x, cap) * m, cap) == MinReal(x * m, cap)
  {
    if x > cap {
      ProductGrows(cap, x, m);
      FactorGrows(cap, 1.0, m);
    }
  }

  lemma {:induction false} Reorder(d: real, m: real, p: real)
    ensures d * (m * p) == (d * p) * m
  {
  }

  lemma {:induction false} WholeGrows(x: real, y: real)
    requires x <= y
    ensures Whole(x) <= Whole(y)
  {
  }

  lemma {:induction false} JitteredGrows(x: real, y: real, draw: real, later: real)
    requires 0.0 <= x <= y && 0.0 <= draw <= later
    ensures Jittered(x, draw) <= Jittered(y, later)
  {
    FactorGrows(x, 1.0 + draw, 1.0 + later);
    ProductGrows(x, y, 1.0 + later);
  }

  /** Delays do not shrink from one attempt to the next for a multiplier of at least one, unless there is
      jitter and the later delay draws less of it. */
  lemma {:induction false} DelaysGrow(c: RetryConfig, attempt: nat, draw: real, later: real)
    requires c.backoffMultiplier >= 1.0
    requires IsDraw(draw) && IsDraw(later) && (c.jitter ==> draw <= later)
    ensures DelayForAttempt(c, attempt, draw) <= DelayForAttempt(c, attempt + 1, later)
  {
    BackoffGrows(c, attempt);
    var x, y := Backoff(c, attempt), Backoff(c, attempt + 1);
    hide Backoff, Whole, Jittered;
    if c.jitter {
      JitteredGrows(x, y, draw, later);
      WholeGrows(Jittered(x, draw), Jittered(y, later));
    } else {
      WholeGrows(x, y);
    }
  }

  /** Whatever is drawn, the delay after the next attempt is not shorter. */
  ghost predicate NeverShrinks(c: RetryConfig, attempt: nat) {
    forall draw, later :: IsDraw(draw) && IsDraw(later) ==>
      DelayForAttempt(c, attempt, draw) <= DelayForAttempt(c, attempt + 1, later)
  }

  /** With jitter and a multiplier of at least one, no draws make the next delay shorter exactly when this backoff
      and a quarter of it reach no further than the first whole millisecond above the next backoff. */
  lemma {:induction false} NeverShrinksExactly(c: RetryConfig, attempt: nat)
    requires c.jitter && c.backoffMultiplier >= 1.0
    ensures NeverShrinks(c, attempt) <==> Backoff(c, attempt) * 1.25 <= (Backoff(c, attempt + 1).Floor + 1) as real
  {
    BackoffGrows(c, attempt);
    var x, y := Backoff(c, attempt), Backoff(c, attempt + 1);
    hide Backoff, Jittered, Whole;
    if x * 1.25 <= (y.Floor + 1) as real {
      forall draw, later | IsDraw(draw) && IsDraw(later)
        ensures DelayForAttempt(c, attempt, draw) <= DelayForAttempt(c, attempt + 1, later)
      {
        StaysBelow(x, y, draw, later);
      }
    } else {
      var draw := Overtaking(x, y);
      NoJitter(y);
      assert IsDraw(draw) && IsDraw(0.0);
      assert DelayForAttempt(c, attempt, draw) > DelayForAttempt(c, attempt + 1, 0.0);
    }
  }

  lemma {:induction false} StaysBelow(x: real, y: real, draw: real, later: real)
    requires 0.0 <= x <= y && IsDraw(draw) && IsDraw(later) && x * 1.25 <= (y.Floor + 1) as real
    ensures Whole(Jittered(x, draw)) <= Whole(Jittered(y, later))
  {
    JitteredGrows(y, y, 0.0, later);
    NoJitter(y);
    WholeGrows(y, Jittered(y, later));
    JitterIsStrict(x, draw);
    JitteredGrows(0.0, x, draw, draw);
    hide Jittered;
  }

  lemma {:induction false} NoJitter(y: real)
    ensures Jittered(y, 0.0) == y
  {
  }

  lemma {:induction false} JitterIsStrict(x: real, draw: real)
    requires 0.0 <= x && IsDraw(draw)
    ensures Jittered(x, draw) < x * 1.25 || x == 0.0 == Jittered(x, draw)
  {
    assert x > 0.0 ==> x * (1.25 - (1.0 + draw)) > 0.0;
  }

  /** A draw that takes the delay to the next whole millisecond. */
  lemma {:induction false} Overtaking(x: real, y: real) returns (draw: real)
    requires 0.0 <= x <= y && x * 1.25 > (y.Floor + 1) as real
    ensures IsDraw(draw) && Whole(Jittered(x, draw)) == Whole(y) + 1
  {
    var next := (y.Floor + 1) as real;
    assert x > 0.0 && x < next;
    draw := next / x - 1.0;
    Quotient(next, x);
    assert Jittered(x, draw) == next;
  }

  lemma {:induction false} Quotient(n: real, x: real)
    requires 0.0 < x < n < x * 1.25
    ensures x * (1.0 + (n / x - 1.0)) == n && 1.0 < n / x < 1.25
  {
    var q := n / x;
    assert q * x == n;
    if q >= 1.25 {
      ProductGrows(1.25, q, x);
    }
    if q <= 1.0 {
      ProductGrows(q, 1.0, x);
    }
  }
}
