/** The retry loop of `clients/resilience.rs`, driving the breaker and the metrics. */
module Resilience {
  import opened Wrappers
  import opened Retry
  import Breaker
  import Metrics

  const TOO_MANY_REQUESTS: nat := 429

  /** What one call of the operation gives. `saysTimeout` is whether the message mentions a timeout,
      `retryAfter` the delay in milliseconds that a rate-limit error carries. */
  datatype Attempt = Ok | Err(status: Option<nat>, retryable: bool, saysTimeout: bool, retryAfter: Option<nat>)

  datatype Config = Config(retry: RetryConfig, timeoutSecs: Option<nat>)

  predicate IsRateLimit(a: Attempt) {
    a.Err? && a.status == Some(TOO_MANY_REQUESTS)
  }

  /** Attempt number `n`, from one, is the last one. */
  predicate IsFinal(c: Config, a: Attempt, n: nat) {
    a.Ok? || n > c.retry.maxRetries || (!IsRateLimit(a) && !a.retryable)
  }

  /** What an attempt leaves in the metrics, besides the verdict on the whole request. */
  function AttemptRecords(c: Config, a: Attempt): seq<Metrics.Record> {
    if a.Ok? then []
    else (if c.timeoutSecs.Some? && a.status.None? && a.retryable && a.saysTimeout then [Metrics.TimedOut] else [])
         + if IsRateLimit(a) then [Metrics.RateLimited] else []
  }

  function RecordsUpTo(c: Config, attempts: nat -> Attempt, n: nat): seq<Metrics.Record> {
    if n == 0 then [] else RecordsUpTo(c, attempts, n - 1) + AttemptRecords(c, attempts(n))
  }

  /** The first attempt from number `n` on that is final. */
  function LastAttempt(c: Config, attempts: nat -> Attempt, n: nat): (k: nat)
    requires n <= c.retry.maxRetries + 1
    ensures n <= k <= c.retry.maxRetries + 1 && IsFinal(c, attempts(k), k)
    ensures forall j :: n <= j < k ==> !IsFinal(c, attempts(j), j)
    decreases c.retry.maxRetries + 1 - n
  {
    if IsFinal(c, attempts(n), n) then n else LastAttempt(c, attempts, n + 1)
  }

  /** The delay after attempt number `n`: what a rate-limit error asks for, or backoff. */
  function DelayAfter(c: Config, a: Attempt, n: nat, draw: real): nat
    requires n >= 1 && 0.0 <= draw < JITTER_MAX_FACTOR
  {
    if IsRateLimit(a) && a.retryAfter.Some? then a.retryAfter.value else DelayForAttempt(c.retry, n - 1, draw)
  }

  /** The random source gives each delay a factor of its own. */
  ghost predicate InRange(draw: nat -> real) {
    forall n :: 0.0 <= draw(n) < JITTER_MAX_FACTOR
  }

  function SleptUpTo(c: Config, attempts: nat -> Attempt, n: nat, draw: nat -> real): nat
    requires InRange(draw)
  {
    if n == 0 then 0 else SleptUpTo(c, attempts, n - 1, draw) + DelayAfter(c, attempts(n), n, draw(n))
  }

  /** What the breaker hears: nothing when the last attempt was rate limited. */
  datatype Verdict = Silence | Good | Bad

  function VerdictOn(a: Attempt): Verdict {
    if a.Ok? then Good else if IsRateLimit(a) then Silence else Bad
  }

  function VerdictEvents(v: Verdict, now: nat): seq<Breaker.Event> {
    match v
    case Silence => []
    case Good => [Breaker.Success]
    case Bad => [Breaker.Failure(now)]
  }

  function Hear(c: Breaker.Config, s: Breaker.State, v: Verdict, now: nat): Breaker.State {
    match v
    case Silence => s
    case Good => Breaker.Step(c, s, Breaker.Success)
    case Bad => Breaker.Step(c, s, Breaker.Failure(now))
  }

  /** What the clock and the random source say during one execution, and after how many completed awaits
      (calls and sleeps alternate) the caller drops it. */
  datatype Surroundings = Surroundings(
      check: nat, answer: nat, failedAt: nat, took: nat, draw: nat -> real, patience: Option<nat>)
  {
    ghost predicate Valid() {
      InRange(draw)
    }

    /** The caller waits for await number `n`. */
    predicate WaitsFor(n: nat) {
      patience.None? || n <= patience.value
    }
  }

  datatype Result = Refused(wait: nat) | Succeeded | Failed(error: Attempt) | Cancelled

  /** An admitted execution: its result, how often the operation was called, how long was slept, what it
      left in the metrics after the request itself, and what the breaker hears. */
  datatype Course = Course(result: Result, calls: nat, slept: nat, records: seq<Metrics.Record>, verdict: Verdict)

  /** The loop, from attempt number `n` on. */
  function Play(c: Config, attempts: nat -> Attempt, s: Surroundings, n: nat, slept: nat,
                records: seq<Metrics.Record>): Course
    requires s.Valid() && 1 <= n <= c.retry.maxRetries + 1
    decreases c.retry.maxRetries + 1 - n
  {
    if !s.WaitsFor(2 * n - 1) then Course(Cancelled, n, slept, records + [Metrics.Failed(s.took)], Silence) else
    var a := attempts(n);
    var noted := records + AttemptRecords(c, a);
    if a.Ok? then Course(Succeeded, n, slept, noted + [Metrics.Succeeded(s.took)], Good)
    else if IsFinal(c, a, n) then Course(Failed(a), n, slept, noted + [Metrics.Failed(s.took)], VerdictOn(a))
    else if !s.WaitsFor(2 * n) then Course(Cancelled, n, slept, noted + [Metrics.Failed(s.took)], Silence)
    else Play(c, attempts, s, n + 1, slept + DelayAfter(c, a, n, s.draw(n)), noted)
  }

  lemma {:induction false} PlayStep(c: Config, attempts: nat -> Attempt, s: Surroundings, n: nat, slept: nat,
                                    records: seq<Metrics.Record>)
    requires s.Valid() && 1 <= n <= c.retry.maxRetries + 1
    ensures var a := attempts(n);
            var noted := records + AttemptRecords(c, a);
            Play(c, attempts, s, n, slept, records)
            == if !s.WaitsFor(2 * n - 1) then Course(Cancelled, n, slept, records + [Metrics.Failed(s.took)], Silence)
               else if a.Ok? then Course(Succeeded, n, slept, records + [Metrics.Succeeded(s.took)], Good)
               else if IsFinal(c, a, n) then Course(Failed(a), n, slept, noted + [Metrics.Failed(s.took)], VerdictOn(a))
               else if !s.WaitsFor(2 * n) then Course(Cancelled, n, slept, noted + [Metrics.Failed(s.took)], Silence)
               else Play(c, attempts, s, n + 1, slept + DelayAfter(c, a, n, s.draw(n)), noted)
  {
  }

  lemma {:induction false} OneDraw(s: Surroundings, n: nat)
    requires s.Valid()
    ensures 0.0 <= s.draw(n) < JITTER_MAX_FACTOR
  {
  }

  /** The step in the terms of the loop. */
  lemma {:induction false} FinalMeans(c: Config, a: Attempt, n: nat)
    requires a.Err?
    ensures IsRateLimit(a) ==> (IsFinal(c, a, n) <==> n > c.retry.maxRetries) && VerdictOn(a) == Silence
    ensures !IsRateLimit(a) ==> (IsFinal(c, a, n) <==> !a.retryable || n > c.retry.maxRetries) && VerdictOn(a) == Bad
  {
  }

  lemma {:induction false} Heard(c: Breaker.Config, s: Breaker.State, now: nat)
    ensures Hear(c, s, Silence, now) == s
    ensures Hear(c, s, Good, now) == Breaker.Step(c, s, Breaker.Success)
    ensures Hear(c, s, Bad, now) == Breaker.Step(c, s, Breaker.Failure(now))
  {
  }

  class ResilientExecutor {
    const config: Config
    const breaker: Breaker.CircuitBreaker
    const metrics: Metrics.ProviderMetrics

    constructor (config: Config, breaker: Breaker.CircuitBreaker, metrics: Metrics.ProviderMetrics)
      ensures this.config == config && this.breaker == breaker && this.metrics == metrics
    {
      this.config, this.breaker, this.metrics := config, breaker, metrics;
    }

    method RecordStreamError(now: nat)
      requires metrics.Valid()
      modifies breaker, metrics
      ensures metrics.Valid() && metrics.log == old(metrics.log) + [Metrics.Failed(0)]
      ensures breaker.View() == Breaker.Step(breaker.config, old(breaker.View()), Breaker.Failure(now))
    {
      metrics.RecordFailure(0);
      breaker.RecordFailure(now);
    }

    /** `execute`: a refused request leaves nothing but the breaker's own state behind, an admitted one
        takes its course. */
    method Execute(attempts: nat -> Attempt, s: Surroundings) returns (r: Result, calls: nat, slept: nat)
      requires metrics.Valid() && s.Valid()
      modifies breaker, metrics
      ensures metrics.Valid()
      ensures var answer := Breaker.Answered(breaker.config, old(breaker.View()), s.check, s.answer);
              var admitted := Breaker.Step(breaker.config, old(breaker.View()), Breaker.Allow(s.check, s.answer));
              var course := Play(config, attempts, s, 1, 0, []);
              if answer.RetryAfter? then
                && r == Refused(answer.wait) && calls == 0 && slept == 0
                && metrics.log == old(metrics.log) && breaker.View() == admitted
              else
                && r == course.result && calls == course.calls && slept == course.slept
                && metrics.log == old(metrics.log) + [Metrics.Requested] + course.records
                && breaker.View() == Hear(breaker.config, admitted, course.verdict, s.failedAt)
    {
      hide Breaker.Step, Breaker.Answered, Play, Metrics.Count, Metrics.Latencies, Metrics.Sum;
      var allowed := breaker.AllowRequest(s.check, s.answer);
      if allowed.RetryAfter? {
        return Refused(allowed.wait), 0, 0;
      }
      var timer := new Metrics.RequestTimer(metrics);
      r, calls, slept := RetryLoop(attempts, s, timer);
    }

    method RetryLoop(attempts: nat -> Attempt, s: Surroundings, timer: Metrics.RequestTimer)
      returns (r: Result, calls: nat, slept: nat)
      requires metrics.Valid() && s.Valid() && timer.metrics == metrics && !timer.recorded
      modifies breaker, metrics, timer
      ensures metrics.Valid()
      ensures var course := Play(config, attempts, s, 1, 0, []);
              && r == course.result && calls == course.calls && slept == course.slept
              && metrics.log == old(metrics.log) + course.records
              && breaker.View() == Hear(breaker.config, old(breaker.View()), course.verdict, s.failedAt)
    {
      hide *;
      calls, slept := 0, 0;
      ghost var course, before := Play(config, attempts, s, 1, 0, []), metrics.log;
      ghost var noted: seq<Metrics.Record> := [];
      var attempt := 0;
      while true
        invariant 0 <= attempt <= config.retry.maxRetries && calls == attempt
        invariant !timer.recorded && metrics.Valid()
        invariant breaker.View() == old(breaker.View()) && metrics.log == before + noted
        invariant Play(config, attempts, s, attempt + 1, slept, noted) == course
        decreases config.retry.maxRetries - attempt
      {
        PlayStep(config, attempts, s, attempt + 1, slept, noted);
        Heard(breaker.config, breaker.View(), s.failedAt);
        attempt := attempt + 1;
        calls := calls + 1;
        if !s.WaitsFor(2 * attempt - 1) {
          timer.Drop(s.took);
          return Cancelled, calls, slept;
        }
        var outcome := attempts(attempt);
        if outcome.Ok? {
          timer.Success(s.took);
          breaker.RecordSuccess();
          return Succeeded, calls, slept;
        }
        FinalMeans(config, outcome, attempt);
        NoteFailedAttempt(outcome);
        noted := noted + AttemptRecords(config, outcome);
        if IsRateLimit(outcome) {
          if attempt > config.retry.maxRetries {
            timer.Fail(s.took);
            return Failed(outcome), calls, slept;
          }
        } else if !outcome.retryable || attempt > config.retry.maxRetries {
          timer.Fail(s.took);
          breaker.RecordFailure(s.failedAt);
          return Failed(outcome), calls, slept;
        }
        if !s.WaitsFor(2 * attempt) {
          timer.Drop(s.took);
          return Cancelled, calls, slept;
        }
        OneDraw(s, attempt);
        slept := slept + DelayAfter(config, outcome, attempt, s.draw(attempt));
      }
    }

    /** A timeout and a rate limit are counted at every attempt, not only the last. */
    method NoteFailedAttempt(outcome: Attempt)
      requires metrics.Valid() && outcome.Err?
      modifies metrics
      ensures metrics.Valid() && metrics.log == old(metrics.log) + AttemptRecords(config, outcome)
    {
      if config.timeoutSecs.Some? && outcome.status.None? && outcome.retryable && outcome.saysTimeout {
        metrics.RecordTimeout();
      }
      if IsRateLimit(outcome) {
        metrics.RecordRateLimit();
      }
    }
  }

  // --------------------------------------------------------------------------------------------
  // One execution
  // --------------------------------------------------------------------------------------------

  lemma {:induction false} PlayEnds(c: Config, attempts: nat -> Attempt, s: Surroundings, n: nat, slept: nat,
                                    records: seq<Metrics.Record>)
    requires s.Valid() && 1 <= n <= c.retry.maxRetries + 1 && s.WaitsFor(2 * (n - 1))
    requires slept == SleptUpTo(c, attempts, n - 1, s.draw) && records == RecordsUpTo(c, attempts, n - 1)
    ensures Play(c, attempts, s, n, slept, records) == Expected(c, attempts, s, LastAttempt(c, attempts, n))
    decreases c.retry.maxRetries + 1 - n
  {
    hide AttemptRecords, DelayAfter, Play;
    PlayStep(c, attempts, s, n, slept, records);
    if attempts(n).Ok? {
      NoRecordsWhenOk(c, records);
    }
    if s.WaitsFor(2 * n - 1) && !IsFinal(c, attempts(n), n) && s.WaitsFor(2 * n) {
      var later := slept + DelayAfter(c, attempts(n), n, s.draw(n));
      PlayEnds(c, attempts, s, n + 1, later, records + AttemptRecords(c, attempts(n)));
    }
  }

  lemma {:induction false} NoRecordsWhenOk(c: Config, records: seq<Metrics.Record>)
    ensures records + AttemptRecords(c, Ok) == records
  {
  }

  /** The course of an execution whose first final attempt is number `k`: the caller waits for it, or drops
      the execution at the await after the last one it waited for. */
  function Expected(c: Config, attempts: nat -> Attempt, s: Surroundings, k: nat): Course
    requires s.Valid() && k >= 1
  {
    if s.WaitsFor(2 * k - 1) then
      var a := attempts(k);
      Course(if a.Ok? then Succeeded else Failed(a), k, SleptUpTo(c, attempts, k - 1, s.draw),
             RecordsUpTo(c, attempts, k) + [if a.Ok? then Metrics.Succeeded(s.took) else Metrics.Failed(s.took)],
             VerdictOn(a))
    else
      var p := s.patience.value;
      Course(Cancelled, p / 2 + 1, SleptUpTo(c, attempts, p / 2, s.draw),
             RecordsUpTo(c, attempts, (p + 1) / 2) + [Metrics.Failed(s.took)], Silence)
  }

  /** An admitted execution calls the operation between once and `maxRetries + 1` times. Unless it is
      cancelled, it ends at the first final attempt, and that attempt alone decides the result and the one
      verdict the breaker hears, which is none for a rate limit; every earlier attempt was worth a retry.
      The timer records exactly one outcome, the last record. */
  lemma {:induction false} ExecutionContract(c: Config, attempts: nat -> Attempt, s: Surroundings)
    requires s.Valid()
    ensures var k := LastAttempt(c, attempts, 1);
            var course := Play(c, attempts, s, 1, 0, []);
            && course == Expected(c, attempts, s, k)
            && 1 <= course.calls <= k <= c.retry.maxRetries + 1
            && (course.result.Cancelled? <==> !s.WaitsFor(2 * k - 1))
            && (forall j :: 1 <= j < course.calls ==>
                  attempts(j).Err? && (IsRateLimit(attempts(j)) || attempts(j).retryable))
            && (course.result.Failed? && (IsRateLimit(attempts(k)) || attempts(k).retryable) ==>
                  course.calls == c.retry.maxRetries + 1)
            && (course.verdict == Bad <==> course.result.Failed? && !IsRateLimit(attempts(k)))
            && (course.verdict == Good <==> course.result.Succeeded?)
  {
    hide AttemptRecords, DelayAfter, RecordsUpTo, SleptUpTo, Play;
    assert SleptUpTo(c, attempts, 0, s.draw) == 0 && RecordsUpTo(c, attempts, 0) == [] by {
      ZeroAttempts(c, attempts, s.draw);
    }
    PlayEnds(c, attempts, s, 1, 0, []);
    assert forall j :: 1 <= j < LastAttempt(c, attempts, 1) ==> !IsFinal(c, attempts(j), j);
  }

  lemma {:induction false} ZeroAttempts(c: Config, attempts: nat -> Attempt, draw: nat -> real)
    requires InRange(draw)
    ensures SleptUpTo(c, attempts, 0, draw) == 0 && RecordsUpTo(c, attempts, 0) == []
  {
  }

  /** Without a delay announced by the provider, the time slept is bounded by the capped backoff. */
  lemma {:induction false} SleepIsBounded(c: Config, attempts: nat -> Attempt, n: nat, draw: nat -> real)
    requires InRange(draw)
    requires forall j :: 1 <= j <= n && IsRateLimit(attempts(j)) ==> attempts(j).retryAfter == None
    ensures 4 * SleptUpTo(c, attempts, n, draw) <= 5 * c.retry.maxDelay * n
    decreases n
  {
    hide DelayForAttempt;
    if n > 0 {
      SleepIsBounded(c, attempts, n - 1, draw);
      DelayIsCapped(c.retry, n - 1, draw(n));
      assert 5 * c.retry.maxDelay * n == 5 * c.retry.maxDelay * (n - 1) + 5 * c.retry.maxDelay;
    }
  }

  /** How many of the first `n` attempts were rate limited. */
  ghost function RateLimited(attempts: nat -> Attempt, n: nat): nat {
    if n == 0 then 0
    else RateLimited(attempts, n - 1) + if attempts(n).Err? && attempts(n).status == Some(429) then 1 else 0
  }

  /** How many of the first `n` attempts timed out: retryable, without a status, and saying so. */
  ghost function TimedOut(attempts: nat -> Attempt, n: nat): nat {
    if n == 0 then 0
    else
      var a := attempts(n);
      TimedOut(attempts, n - 1) + if a.Err? && a.status == None && a.retryable && a.saysTimeout then 1 else 0
  }

  /** Attempts leave one record for each rate limit and, where a timeout is configured, one for each timeout, and no
      other. */
  lemma {:induction false} RecordsAreCounted(c: Config, attempts: nat -> Attempt, n: nat)
    ensures var ms := multiset(RecordsUpTo(c, attempts, n));
            && ms[Metrics.RateLimited] == RateLimited(attempts, n)
            && ms[Metrics.TimedOut] == (if c.timeoutSecs.Some? then TimedOut(attempts, n) else 0)
            && |RecordsUpTo(c, attempts, n)| == ms[Metrics.RateLimited] + ms[Metrics.TimedOut]
  {
    hide *;
    if n == 0 {
      NoRecords(c, attempts);
    } else {
      RecordsAreCounted(c, attempts, n - 1);
      RecordsStep(c, attempts, n);
      RecordsOfOne(c, attempts(n));
      var before, here := RecordsUpTo(c, attempts, n - 1), AttemptRecords(c, attempts(n));
      CountsAdd(before, here, Metrics.RateLimited);
      CountsAdd(before, here, Metrics.TimedOut);
    }
  }

  lemma {:induction false} NoRecords(c: Config, attempts: nat -> Attempt)
    ensures RecordsUpTo(c, attempts, 0) == [] && RateLimited(attempts, 0) == TimedOut(attempts, 0) == 0
  {
  }

  lemma {:induction false} RecordsStep(c: Config, attempts: nat -> Attempt, n: nat)
    requires n > 0
    ensures RecordsUpTo(c, attempts, n) == RecordsUpTo(c, attempts, n - 1) + AttemptRecords(c, attempts(n))
    ensures RateLimited(attempts, n) == RateLimited(attempts, n - 1) +
              if attempts(n).Err? && attempts(n).status == Some(429) then 1 else 0
    ensures TimedOut(attempts, n) == TimedOut(attempts, n - 1) +
              var a := attempts(n); if a.Err? && a.status == None && a.retryable && a.saysTimeout then 1 else 0
  {
    hide AttemptRecords;
  }

  lemma {:induction false} CountsAdd(a: seq<Metrics.Record>, b: seq<Metrics.Record>, r: Metrics.Record)
    ensures multiset(a + b)[r] == multiset(a)[r] + multiset(b)[r] && |a + b| == |a| + |b|
  {
    assert multiset(a + b) == multiset(a) + multiset(b);
  }

  lemma {:induction false} RecordsOfOne(c: Config, a: Attempt)
    ensures var rs := AttemptRecords(c, a);
            && multiset(rs)[Metrics.RateLimited] == (if a.Err? && a.status == Some(429) then 1 else 0)
            && multiset(rs)[Metrics.TimedOut] ==
                 (if c.timeoutSecs.Some? && a.Err? && a.status == None && a.retryable && a.saysTimeout then 1 else 0)
            && |rs| == multiset(rs)[Metrics.RateLimited] + multiset(rs)[Metrics.TimedOut]
  {
    assert TOO_MANY_REQUESTS == 429;
  }

  /** A rate limit that announces a delay is slept off exactly. */
  lemma {:induction false} AnnouncedIsSlept(c: Config, attempts: nat -> Attempt, n: nat, draw: nat -> real, wait: nat)
    requires InRange(draw)
    requires attempts(n + 1).Err? && attempts(n + 1).status == Some(429) && attempts(n + 1).retryAfter == Some(wait)
    ensures SleptUpTo(c, attempts, n + 1, draw) == SleptUpTo(c, attempts, n, draw) + wait
  {
    hide DelayForAttempt;
  }

  /** Whatever announces no delay is slept off by backoff: with a multiplier of two, no jitter and no cap in reach, the
      first wait is the initial delay and each is twice the one before. */
  lemma {:induction false} BackoffDoubles(c: Config, attempts: nat -> Attempt, n: nat, draw: nat -> real)
    requires InRange(draw) && !c.retry.jitter && c.retry.backoffMultiplier == 2.0
    requires forall j :: 1 <= j <= n && IsRateLimit(attempts(j)) ==> attempts(j).retryAfter == None
    requires c.retry.initialDelay * Pow2(n) <= c.retry.maxDelay
    ensures SleptUpTo(c, attempts, n, draw) == c.retry.initialDelay * (Pow2(n) - 1)
    decreases n
  {
    if n > 0 {
      var d, p := c.retry.initialDelay, Pow2(n - 1);
      assert Pow2(n) == 2 * p;
      Doubling(d, p);
      BackoffDoubles(c, attempts, n - 1, draw);
      DoubledDelay(c.retry, n - 1, draw(n));
      SleptStep(c, attempts, n, draw);
      hide *;
    }
  }

  lemma {:induction false} SleptStep(c: Config, attempts: nat -> Attempt, n: nat, draw: nat -> real)
    requires InRange(draw) && n > 0 && (IsRateLimit(attempts(n)) ==> attempts(n).retryAfter == None)
    ensures IsDraw(draw(n))
    ensures SleptUpTo(c, attempts, n, draw)
         == SleptUpTo(c, attempts, n - 1, draw) + DelayForAttempt(c.retry, n - 1, draw(n))
  {
    hide DelayForAttempt;
  }

  lemma {:induction false} Doubling(d: nat, p: nat)
    requires p >= 1
    ensures d * (2 * p) == 2 * (d * p) && d * p <= d * (2 * p)
    ensures d * (2 * p - 1) == d * (p - 1) + d * p
  {
  }

  function Pow2(n: nat): (p: nat)
    ensures p >= 1
  {
    if n == 0 then 1 else 2 * Pow2(n - 1)
  }

  lemma {:induction false} DoubledDelay(c: RetryConfig, attempt: nat, draw: real)
    requires IsDraw(draw) && !c.jitter && c.backoffMultiplier == 2.0
    requires c.initialDelay * Pow2(attempt) <= c.maxDelay
    ensures DelayForAttempt(c, attempt, draw) == c.initialDelay * Pow2(attempt)
  {
    DoubledBackoff(c, attempt);
    hide Backoff, Pow2;
  }

  lemma {:induction false} DoubledBackoff(c: RetryConfig, attempt: nat)
    requires c.backoffMultiplier == 2.0 && c.initialDelay * Pow2(attempt) <= c.maxDelay
    ensures Backoff(c, attempt) == (c.initialDelay * Pow2(attempt)) as real
  {
    hide Backoff;
    if attempt == 0 {
      BackoffIsGeometric(c, 0);
    } else {
      var before := c.initialDelay * Pow2(attempt - 1);
      Doubling(c.initialDelay, Pow2(attempt - 1));
      assert c.initialDelay * Pow2(attempt) == 2 * before;
      hide Pow2;
      BackoffIsGeometric(c, attempt - 1);
      DoubledBackoff(c, attempt - 1);
      assert before as real * 2.0 == (2 * before) as real;
    }
  }

  // --------------------------------------------------------------------------------------------
  // Many executions and one breaker
  // --------------------------------------------------------------------------------------------

  /** What one call on the executor tells the breaker. */
  datatype Call = Executed(check: nat, answer: nat, verdict: Verdict, failedAt: nat) | StreamError(now: nat)

  predicate Hurts(call: Call) {
    call.StreamError? || call.verdict == Bad
  }

  function Events(call: Call): seq<Breaker.Event> {
    match call
    case Executed(check, answer, verdict, failedAt) => [Breaker.Allow(check, answer)] + VerdictEvents(verdict, failedAt)
    case StreamError(now) => [Breaker.Failure(now)]
  }

  function Trace(calls: seq<Call>): seq<Breaker.Event> {
    if calls == [] then [] else Trace(calls[..|calls| - 1]) + Events(calls[|calls| - 1])
  }

  function Hurting(calls: seq<Call>): nat {
    if calls == [] then 0 else Hurting(calls[..|calls| - 1]) + if Hurts(calls[|calls| - 1]) then 1 else 0
  }

  lemma {:induction false} FailuresConcat(a: seq<Breaker.Event>, b: seq<Breaker.Event>, n: nat)
    requires n <= |b|
    ensures Breaker.Failures(a + b, 0, |a| + n) == Breaker.Failures(a, 0, |a|) + Breaker.Failures(b, 0, n)
    decreases n
  {
    if n == 0 {
      FailuresPrefix(a, b, |a|);
    } else {
      FailuresConcat(a, b, n - 1);
    }
  }

  lemma {:induction false} FailuresPrefix(a: seq<Breaker.Event>, b: seq<Breaker.Event>, n: nat)
    requires n <= |a|
    ensures Breaker.Failures(a + b, 0, n) == Breaker.Failures(a, 0, n)
    decreases n
  {
    if n > 0 {
      FailuresPrefix(a, b, n - 1);
    }
  }

  /** The breaker hears of a failure once for each call that ended badly, and never otherwise. */
  lemma {:induction false} FailuresAreHurtingCalls(calls: seq<Call>)
    ensures Breaker.Failures(Trace(calls), 0, |Trace(calls)|) == Hurting(calls)
  {
    if calls != [] {
      var before, last := calls[..|calls| - 1], calls[|calls| - 1];
      FailuresAreHurtingCalls(before);
      var e := Events(last);
      FailuresConcat(Trace(before), e, |e|);
      assert Breaker.Failures(e, 0, 0) == 0;
      assert Breaker.Failures(e, 0, 1) == if e[0].Failure? then 1 else 0;
      assert |e| == 2 ==> Breaker.Failures(e, 0, 2) == Breaker.Failures(e, 0, 1) + if e[1].Failure? then 1 else 0;
    }
  }

  /** The breaker opens only over calls that ended in a real failure: when it does, at least
      `failureThreshold` calls of the run did. A run of executions that each succeed, end rate limited or
      are cancelled never opens it. */
  lemma {:induction false} OpeningTakesFailedCalls(c: Breaker.Config, calls: seq<Call>, n: nat)
    requires n <= |Trace(calls)| && Breaker.After(c, Trace(calls), n).state != Breaker.Closed
    ensures Hurting(calls) >= Breaker.AtLeastOne(c.failureThreshold)
  {
    var events := Trace(calls);
    var i := FirstOpening(c, events, n);
    var first := Breaker.WhyItOpened(c, events, i);
    FailuresGrow(events, 0, first, i + 1, |events|);
    FailuresAreHurtingCalls(calls);
  }

  lemma {:induction false} FirstOpening(c: Breaker.Config, events: seq<Breaker.Event>, n: nat) returns (i: nat)
    requires n <= |events| && Breaker.After(c, events, n).state != Breaker.Closed
    ensures i < n && Breaker.After(c, events, i).state == Breaker.Closed
    ensures Breaker.After(c, events, i + 1).state != Breaker.Closed
    decreases n
  {
    if Breaker.After(c, events, n - 1).state == Breaker.Closed {
      i := n - 1;
    } else {
      i := FirstOpening(c, events, n - 1);
    }
  }

  lemma {:induction false} FailuresGrow(events: seq<Breaker.Event>, a: nat, b: nat, i: nat, j: nat)
    requires a <= b <= i <= j <= |events|
    ensures Breaker.Failures(events, b, i) <= Breaker.Failures(events, a, j)
    decreases j
  {
    if i < j {
      FailuresGrow(events, a, b, i, j - 1);
    } else if b < i {
      FailuresGrow(events, a, b, i - 1, j - 1);
    }
  }
}
