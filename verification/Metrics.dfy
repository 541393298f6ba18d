/** The counters of `clients/metrics.rs`: 64-bit wrapping atomics, told by the log of what was recorded. */
module Metrics {
  import opened Wrappers

  const U64: nat := 0x1_0000_0000_0000_0000
  const U64_MAX: nat := U64 - 1

  /** A 64-bit atomic after wrapping. */
  function Wrap(x: nat): nat {
    x % U64
  }

  function WrapAdd(a: nat, b: nat): nat {
    Wrap(a + b)
  }

  lemma {:induction false} WrapSum(x: nat, y: nat)
    ensures WrapAdd(Wrap(x), y) == Wrap(x + y)
  {
  }

  /** One call of a `record_*` method. */
  datatype Record = Requested | Succeeded(duration: nat) | Failed(duration: nat) | RateLimited | TimedOut

  function Count(log: seq<Record>, kind: Record -> bool): (n: nat)
    ensures n <= |log|
  {
    if log == [] then 0 else Count(log[..|log| - 1], kind) + if kind(log[|log| - 1]) then 1 else 0
  }

  predicate IsRequested(r: Record) { r.Requested? }
  predicate IsSucceeded(r: Record) { r.Succeeded? }
  predicate IsFailed(r: Record) { r.Failed? }
  predicate IsRateLimited(r: Record) { r.RateLimited? }
  predicate IsTimedOut(r: Record) { r.TimedOut? }

  /** What the failure counter counts: every rate limit and every timeout as well. */
  predicate IsFailure(r: Record) {
    r.Failed? || r.RateLimited? || r.TimedOut?
  }

  /** `u64::try_from(duration.as_millis())`, saturating. */
  function Millis(duration: nat): nat {
    if duration > U64_MAX then U64_MAX else duration
  }

  /** The latencies recorded, in order: those of finished requests, not of rate limits and timeouts. */
  function Latencies(log: seq<Record>): (ms: seq<nat>)
    ensures forall i :: 0 <= i < |ms| ==> ms[i] <= U64_MAX
  {
    if log == [] then [] else
    var before, r := Latencies(log[..|log| - 1]), log[|log| - 1];
    if r.Succeeded? || r.Failed? then before + [Millis(r.duration)] else before
  }

  function Sum(ms: seq<nat>): nat {
    if ms == [] then 0 else Sum(ms[..|ms| - 1]) + ms[|ms| - 1]
  }

  function Min(a: nat, b: nat): nat {
    if b < a then b else a
  }

  function Max(a: nat, b: nat): nat {
    if b > a then b else a
  }

  /** `u64::MAX` stands for "nothing recorded". */
  function Least(ms: seq<nat>): nat {
    if ms == [] then U64_MAX else Min(Least(ms[..|ms| - 1]), ms[|ms| - 1])
  }

  function Greatest(ms: seq<nat>): nat {
    if ms == [] then 0 else Max(Greatest(ms[..|ms| - 1]), ms[|ms| - 1])
  }

  /** What one more record does to everything that is told from the log. */
  lemma {:induction false} Logs(log: seq<Record>, r: Record)
    ensures var longer := log + [r];
            && Count(longer, IsRequested) == Count(log, IsRequested) + (if r.Requested? then 1 else 0)
            && Count(longer, IsSucceeded) == Count(log, IsSucceeded) + (if r.Succeeded? then 1 else 0)
            && Count(longer, IsFailed) == Count(log, IsFailed) + (if r.Failed? then 1 else 0)
            && Count(longer, IsRateLimited) == Count(log, IsRateLimited) + (if r.RateLimited? then 1 else 0)
            && Count(longer, IsTimedOut) == Count(log, IsTimedOut) + (if r.TimedOut? then 1 else 0)
            && Count(longer, IsFailure) == Count(log, IsFailure) + (if IsFailure(r) then 1 else 0)
    ensures Latencies(log + [r])
            == if r.Succeeded? || r.Failed? then Latencies(log) + [Millis(r.duration)] else Latencies(log)
    ensures WrapAdd(Wrap(Count(log, IsRequested)), 1) == Wrap(Count(log, IsRequested) + 1)
    ensures WrapAdd(Wrap(Count(log, IsSucceeded)), 1) == Wrap(Count(log, IsSucceeded) + 1)
    ensures WrapAdd(Wrap(Count(log, IsFailure)), 1) == Wrap(Count(log, IsFailure) + 1)
    ensures WrapAdd(Wrap(Count(log, IsRateLimited)), 1) == Wrap(Count(log, IsRateLimited) + 1)
    ensures WrapAdd(Wrap(Count(log, IsTimedOut)), 1) == Wrap(Count(log, IsTimedOut) + 1)
  {
    hide Wrap, WrapAdd;
    assert (log + [r])[..|log|] == log;
    WrapSum(Count(log, IsRequested), 1);
    WrapSum(Count(log, IsSucceeded), 1);
    WrapSum(Count(log, IsFailure), 1);
    WrapSum(Count(log, IsRateLimited), 1);
    WrapSum(Count(log, IsTimedOut), 1);
  }

  class ProviderMetrics {
    var totalRequests: nat
    var successfulRequests: nat
    var failedRequests: nat
    var rateLimitHits: nat
    var timeoutErrors: nat
    var totalDurationMs: nat
    var durationRequestCount: nat
    var minLatencyMs: nat
    var maxLatencyMs: nat
    ghost var log: seq<Record>

    /** Every counter is what the log says, modulo the width of the atomics. */
    ghost predicate Valid()
      reads this
    {
      && totalRequests == Wrap(Count(log, IsRequested))
      && successfulRequests == Wrap(Count(log, IsSucceeded))
      && failedRequests == Wrap(Count(log, IsFailure))
      && rateLimitHits == Wrap(Count(log, IsRateLimited))
      && timeoutErrors == Wrap(Count(log, IsTimedOut))
      && LatenciesKept()
    }

    ghost predicate LatenciesKept()
      reads this
    {
      && totalDurationMs == Wrap(Sum(Latencies(log)))
      && durationRequestCount == Wrap(|Latencies(log)|)
      && minLatencyMs == Least(Latencies(log)) && maxLatencyMs == Greatest(Latencies(log))
    }

    constructor ()
      ensures Valid() && log == []
    {
      totalRequests, successfulRequests, failedRequests, rateLimitHits, timeoutErrors := 0, 0, 0, 0, 0;
      totalDurationMs, durationRequestCount, minLatencyMs, maxLatencyMs := 0, 0, U64_MAX, 0;
      log := [];
    }

    method RecordRequest()
      requires Valid()
      modifies this
      ensures Valid() && log == old(log) + [Requested]
    {
      hide Wrap, WrapAdd, Count, Latencies, Sum, Least, Greatest;
      Logs(log, Requested);
      totalRequests := WrapAdd(totalRequests, 1);
      log := log + [Requested];
    }

    method RecordSuccess(duration: nat)
      requires Valid()
      modifies this
      ensures Valid() && log == old(log) + [Succeeded(duration)]
    {
      hide Wrap, WrapAdd, Count, Latencies, Sum, Least, Greatest;
      Logs(log, Succeeded(duration));
      successfulRequests := WrapAdd(successfulRequests, 1);
      RecordDuration(duration);
      log := log + [Succeeded(duration)];
    }

    method RecordFailure(duration: nat)
      requires Valid()
      modifies this
      ensures Valid() && log == old(log) + [Failed(duration)]
    {
      hide Wrap, WrapAdd, Count, Latencies, Sum, Least, Greatest;
      Logs(log, Failed(duration));
      failedRequests := WrapAdd(failedRequests, 1);
      RecordDuration(duration);
      log := log + [Failed(duration)];
    }

    method RecordRateLimit()
      requires Valid()
      modifies this
      ensures Valid() && log == old(log) + [RateLimited]
    {
      hide Wrap, WrapAdd, Count, Latencies, Sum, Least, Greatest;
      Logs(log, RateLimited);
      rateLimitHits := WrapAdd(rateLimitHits, 1);
      failedRequests := WrapAdd(failedRequests, 1);
      log := log + [RateLimited];
    }

    method RecordTimeout()
      requires Valid()
      modifies this
      ensures Valid() && log == old(log) + [TimedOut]
    {
      hide Wrap, WrapAdd, Count, Latencies, Sum, Least, Greatest;
      Logs(log, TimedOut);
      timeoutErrors := WrapAdd(timeoutErrors, 1);
      failedRequests := WrapAdd(failedRequests, 1);
      log := log + [TimedOut];
    }

    method RecordDuration(duration: nat)
      requires LatenciesKept()
      modifies this`totalDurationMs, this`durationRequestCount, this`minLatencyMs, this`maxLatencyMs
      ensures var ms := Latencies(log) + [Millis(duration)];
              && totalDurationMs == Wrap(Sum(ms)) && durationRequestCount == Wrap(|ms|)
              && minLatencyMs == Least(ms) && maxLatencyMs == Greatest(ms)
    {
      hide Wrap, WrapAdd;
      var ms := Millis(duration);
      ghost var before := Latencies(log);
      assert (before + [ms])[..|before|] == before;
      WrapSum(Sum(before), ms);
      WrapSum(|before|, 1);
      totalDurationMs := WrapAdd(totalDurationMs, ms);
      durationRequestCount := WrapAdd(durationRequestCount, 1);
      minLatencyMs := Min(minLatencyMs, ms);
      maxLatencyMs := Max(maxLatencyMs, ms);
    }

    function AvgLatencyMs(): Option<nat>
      reads this
    {
      if durationRequestCount > 0 then Some(totalDurationMs / durationRequestCount) else None
    }

    function MinLatencyMs(): Option<nat>
      reads this
    {
      if minLatencyMs != U64_MAX then Some(minLatencyMs) else None
    }

    function MaxLatencyMs(): Option<nat>
      reads this
    {
      if maxLatencyMs > 0 || durationRequestCount > 0 then Some(maxLatencyMs) else None
    }

    method Reset()
      modifies this
      ensures Valid() && log == []
    {
      totalRequests, successfulRequests, failedRequests, rateLimitHits, timeoutErrors := 0, 0, 0, 0, 0;
      totalDurationMs, durationRequestCount, minLatencyMs, maxLatencyMs := 0, 0, U64_MAX, 0;
      log := [];
    }
  }

  // --------------------------------------------------------------------------------------------
  // Latencies
  // --------------------------------------------------------------------------------------------

  lemma {:induction false} LeastAndGreatestBound(ms: seq<nat>)
    requires forall i :: 0 <= i < |ms| ==> ms[i] <= U64_MAX
    ensures forall i :: 0 <= i < |ms| ==> Least(ms) <= ms[i] <= Greatest(ms)
    ensures ms != [] ==> Least(ms) in ms && Greatest(ms) in ms
    ensures Least(ms) * |ms| <= Sum(ms) <= Greatest(ms) * |ms|
  {
    if ms != [] {
      var n, before, last := |ms|, ms[..|ms| - 1], ms[|ms| - 1];
      LeastAndGreatestBound(before);
      forall i | 0 <= i < n ensures Least(ms) <= ms[i] <= Greatest(ms) {
        if i < n - 1 {
          assert before[i] == ms[i];
        }
      }
      assert before != [] ==> Least(before) in ms && Greatest(before) in ms;
      assert last in ms;
      Scale(Least(ms), Least(before), n - 1);
      Scale(Greatest(before), Greatest(ms), n - 1);
    }
  }

  lemma {:induction false} Scale(a: nat, b: nat, n: nat)
    requires a <= b
    ensures a * n <= b * n
    ensures a * (n + 1) == a * n + a && b * (n + 1) == b * n + b
  {
  }

  lemma {:induction false} ScaleIf(a: int, b: int, n: nat)
    ensures a <= b ==> a * n <= b * n
  {
  }

  /** With anything recorded, the mean lies between the least and the greatest latency. */
  lemma {:induction false} MeanLiesBetween(ms: seq<nat>)
    requires ms != [] && forall i :: 0 <= i < |ms| ==> ms[i] <= U64_MAX
    ensures Least(ms) <= Sum(ms) / |ms| <= Greatest(ms)
  {
    LeastAndGreatestBound(ms);
    Quotient(Least(ms), Sum(ms), Greatest(ms), |ms|);
  }

  lemma {:induction false} Quotient(low: nat, sum: nat, high: nat, n: nat)
    requires n > 0 && low * n <= sum <= high * n
    ensures low <= sum / n <= high
  {
    var q := sum / n;
    assert sum == q * n + sum % n;
    ScaleIf(q + 1, low, n);
    ScaleIf(high + 1, q, n);
  }

  /** What the getters report on a log, when fewer than 2^64 latencies were recorded: the average is the
      true mean exactly when the durations did not overflow their 64-bit sum, and the least latency is
      reported exactly when some latency is below the value that stands for "nothing recorded". */
  lemma {:induction false} GettersAreExact(m: ProviderMetrics)
    requires m.Valid() && 0 < |Latencies(m.log)| < U64
    ensures var ms := Latencies(m.log);
            && (m.AvgLatencyMs() == Some(Sum(ms) / |ms|) <==> Sum(ms) < U64)
            && (m.MinLatencyMs() == Some(Least(ms)) <==> exists i :: 0 <= i < |ms| && ms[i] < U64_MAX)
            && m.MaxLatencyMs() == Some(Greatest(ms))
            && (forall i :: 0 <= i < |ms| ==> Least(ms) <= ms[i] <= Greatest(ms))
            && Least(ms) in ms && Greatest(ms) in ms
  {
    LeastAndGreatestBound(Latencies(m.log));
    hide Count, Latencies, Sum, Least, Greatest;
    var ms := Latencies(m.log);
    MeanOrLess(Sum(ms), |ms|);
    LeastIsReported(ms);
  }

  /** There is one latency for each success and each failure that is not a rate limit or a timeout. */
  lemma {:induction false} LatenciesAreCounted(log: seq<Record>)
    ensures |Latencies(log)| == Count(log, IsSucceeded) + Count(log, IsFailed)
  {
    if log != [] {
      LatenciesAreCounted(log[..|log| - 1]);
    }
  }

  lemma {:induction false} MeanOrLess(sum: nat, n: nat)
    requires 0 < n < U64
    ensures Wrap(n) == n && (Wrap(sum) / n == sum / n <==> sum < U64)
  {
    if sum >= U64 {
      WrappedMeanIsLess(sum, n);
    }
  }

  lemma {:induction false} LeastIsReported(ms: seq<nat>)
    requires ms != [] && forall i :: 0 <= i < |ms| ==> ms[i] <= U64_MAX
    ensures Least(ms) != U64_MAX <==> exists i :: 0 <= i < |ms| && ms[i] < U64_MAX
  {
    LeastAndGreatestBound(ms);
    var i :| 0 <= i < |ms| && ms[i] == Least(ms);
  }

  /** Hence min <= average <= max in every report whose durations did not overflow. */
  lemma {:induction false} ReportIsOrdered(m: ProviderMetrics)
    requires m.Valid() && 0 < |Latencies(m.log)| < U64 && Sum(Latencies(m.log)) < U64
    ensures m.AvgLatencyMs().Some? && m.MaxLatencyMs().Some?
    ensures m.AvgLatencyMs().value <= m.MaxLatencyMs().value
    ensures m.MinLatencyMs().Some? ==> m.MinLatencyMs().value <= m.AvgLatencyMs().value
  {
    GettersAreExact(m);
    MeanLiesBetween(Latencies(m.log));
  }

  lemma {:induction false} WrappedMeanIsLess(sum: nat, n: nat)
    requires 0 < n < U64 <= sum
    ensures Wrap(sum) / n < sum / n
  {
    var a := Wrap(sum);
    assert a + n <= sum by {
      assert sum == U64 * (sum / U64) + a && sum / U64 >= 1;
    }
    var d := a / n;
    assert a == d * n + a % n;
    DividesAtLeast(d + 1, sum, n);
  }

  lemma {:induction false} DividesAtLeast(low: nat, sum: nat, n: nat)
    requires n > 0 && low * n <= sum
    ensures low <= sum / n
  {
    var q := sum / n;
    assert sum == q * n + sum % n;
    ScaleIf(q + 1, low, n);
  }

  // --------------------------------------------------------------------------------------------
  // The timer
  // --------------------------------------------------------------------------------------------

  /** `RequestTimer`: consuming it records the outcome and then drops it; dropping it unconsumed records a
      failure. */
  class RequestTimer {
    const metrics: ProviderMetrics
    var recorded: bool

    constructor (metrics: ProviderMetrics)
      requires metrics.Valid()
      modifies metrics
      ensures this.metrics == metrics && !recorded
      ensures metrics.Valid() && metrics.log == old(metrics.log) + [Requested]
    {
      this.metrics := metrics;
      recorded := false;
      new;
      metrics.RecordRequest();
    }

    method Success(duration: nat)
      requires metrics.Valid() && !recorded
      modifies this, metrics
      ensures metrics.Valid() && recorded && metrics.log == old(metrics.log) + [Succeeded(duration)]
    {
      metrics.RecordSuccess(duration);
      recorded := true;
      Drop(duration);
    }

    method Fail(duration: nat)
      requires metrics.Valid() && !recorded
      modifies this, metrics
      ensures metrics.Valid() && recorded && metrics.log == old(metrics.log) + [Failed(duration)]
    {
      metrics.RecordFailure(duration);
      recorded := true;
      Drop(duration);
    }

    method Drop(duration: nat)
      requires metrics.Valid()
      modifies metrics
      ensures metrics.Valid()
      ensures metrics.log == if recorded then old(metrics.log) else old(metrics.log) + [Failed(duration)]
    {
      if !recorded {
        metrics.RecordFailure(duration);
      }
    }
  }
}
