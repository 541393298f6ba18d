/** Many executions at once: every interleaving of the retry loops of `clients/resilience.rs` on one set of
    counters, with callers giving up at any await and streams failing on their own. */
module Conservation {
  import opened Wrappers
  import opened Resilience
  import opened Retry
  import Metrics

  datatype Counter = TotalRequests | Successful | FailedRequests | RateLimitHits | TimeoutErrors

  /** One atomic increment, and the execution that made it; stream errors belong to none. `ends` marks the increment
      by which an execution says that it is over. */
  datatype Entry = Entry(owner: Option<nat>, counter: Counter, ends: bool)

  /** Where an execution is: waiting for its operation, incrementing counters with nothing awaited in between,
      or waiting for its delay. */
  datatype Phase =
    | Calling(attempt: nat)
    | Writing(attempt: nat, queue: seq<Counter>, outcome: Attempt)
    | Sleeping(attempt: nat)

  datatype System = System(log: seq<Entry>, live: map<nat, Phase>, started: nat, streamErrors: nat)

  /** One atomic move. An execution is dropped only at an await. */
  datatype Action =
    | Start | Return(id: nat, outcome: Attempt) | Write(id: nat) | Finish(id: nat)
    | Sleep(id: nat) | Wake(id: nat) | Drop(id: nat) | StreamFails

  /** The increments of a record, in the order they are made. */
  function Increments(records: seq<Metrics.Record>): seq<Counter> {
    if records == [] then []
    else (match records[0]
          case Requested => [TotalRequests]
          case Succeeded(_) => [Successful]
          case Failed(_) => [FailedRequests]
          case RateLimited => [RateLimitHits, FailedRequests]
          case TimedOut => [TimeoutErrors, FailedRequests])
         + Increments(records[1..])
  }

  function Logged(s: System, e: Entry): System {
    s.(log := s.log + [e])
  }

  function Moved(s: System, id: nat, p: Phase): System {
    s.(live := s.live[id := p])
  }

  function Ended(s: System, id: nat): System {
    s.(live := s.live - {id})
  }

  predicate Enabled(c: Config, s: System, a: Action) {
    match a
    case Start => true
    case StreamFails => true
    case Return(id, _) => id in s.live && s.live[id].Calling?
    case Write(id) => id in s.live && s.live[id].Writing? && s.live[id].queue != []
    case Finish(id) => AllWritten(s, id) && IsFinal(c, s.live[id].outcome, s.live[id].attempt)
    case Sleep(id) => AllWritten(s, id) && !IsFinal(c, s.live[id].outcome, s.live[id].attempt)
    case Wake(id) => id in s.live && s.live[id].Sleeping?
    case Drop(id) => id in s.live && !s.live[id].Writing?
  }

  predicate AllWritten(s: System, id: nat) {
    id in s.live && s.live[id].Writing? && s.live[id].queue == []
  }

  function Act(c: Config, s: System, a: Action): System
    requires Enabled(c, s, a)
  {
    match a
    case Start =>
      Logged(Moved(s, s.started, Calling(1)), Entry(Some(s.started), TotalRequests, false)).(started := s.started + 1)
    case Return(id, outcome) =>
      Moved(s, id, Writing(s.live[id].attempt, Increments(AttemptRecords(c, outcome)), outcome))
    case Write(id) =>
      var p := s.live[id];
      Logged(Moved(s, id, p.(queue := p.queue[1..])), Entry(Some(id), p.queue[0], false))
    case Finish(id) =>
      Logged(Ended(s, id), Entry(Some(id), if s.live[id].outcome.Ok? then Successful else FailedRequests, true))
    case Sleep(id) => Moved(s, id, Sleeping(s.live[id].attempt))
    case Wake(id) => Moved(s, id, Calling(s.live[id].attempt + 1))
    case Drop(id) => Logged(Ended(s, id), Entry(Some(id), FailedRequests, true))
    case StreamFails => Logged(s, Entry(None, FailedRequests, false)).(streamErrors := s.streamErrors + 1)
  }

  const IDLE := System([], map[], 0, 0)

  ghost predicate Reaches(c: Config, s: System, actions: seq<Action>, t: System)
    decreases |actions|
  {
    if actions == [] then t == s
    else Enabled(c, s, actions[0]) && Reaches(c, Act(c, s, actions[0]), actions[1..], t)
  }

  /** What a counter shows. */
  function Count(log: seq<Entry>, counter: Counter): nat {
    if log == [] then 0
    else Count(log[..|log| - 1], counter) + if log[|log| - 1].counter == counter then 1 else 0
  }

  /** How many executions said that they were over. */
  function AllEndings(log: seq<Entry>): nat {
    if log == [] then 0 else AllEndings(log[..|log| - 1]) + if log[|log| - 1].ends then 1 else 0
  }

  /** How many times execution `id` said so. */
  function Endings(log: seq<Entry>, id: nat): nat {
    if log == [] then 0
    else
      var e := log[|log| - 1];
      Endings(log[..|log| - 1], id) + if e.owner == Some(id) && e.ends then 1 else 0
  }

  /** The executions that have counted a rate limit or a timeout, but not yet the failure that goes with it. */
  function Halfway(s: System): set<nat> {
    set id | id in s.live && IsHalfway(s.live[id])
  }

  predicate IsHalfway(p: Phase) {
    p.Writing? && p.queue == [FailedRequests]
  }

  // --------------------------------------------------------------------------------------------
  // What every move keeps
  // --------------------------------------------------------------------------------------------

  ghost predicate Balanced(s: System) {
    BalanceOf(s.log, |s.live|, |Halfway(s)|, s.started, s.streamErrors)
  }

  /** Every started execution is live or over; every failure is that of an execution, a stream, a rate limit or a
      timeout, of which the last two come one increment early. */
  ghost predicate BalanceOf(log: seq<Entry>, live: nat, halfway: nat, started: nat, streamErrors: nat) {
    && Count(log, TotalRequests) == started
    && live + AllEndings(log) == started
    && Count(log, Successful) + Count(log, FailedRequests) + halfway
       == AllEndings(log) + Count(log, RateLimitHits) + Count(log, TimeoutErrors) + streamErrors
  }

  ghost predicate QueueFits(queue: seq<Counter>) {
    queue == [] || queue == [FailedRequests] || queue == [RateLimitHits, FailedRequests]
    || queue == [TimeoutErrors, FailedRequests]
  }

  ghost predicate PhasesFit(c: Config, s: System) {
    && (forall id :: id in s.live ==> id < s.started && 1 <= s.live[id].attempt <= c.retry.maxRetries + 1)
    && (forall id :: id in s.live && s.live[id].Sleeping? ==> s.live[id].attempt <= c.retry.maxRetries)
    && (forall id :: id in s.live && s.live[id].Writing? ==> QueueFits(s.live[id].queue))
  }

  /** Every execution that is over said so exactly once, every other never. */
  ghost predicate EndedOnce(s: System) {
    forall id: nat :: Endings(s.log, id) == if id < s.started && id !in s.live then 1 else 0
  }

  ghost predicate Invariant(c: Config, s: System) {
    Balanced(s) && PhasesFit(c, s) && EndedOnce(s)
  }

  lemma {:induction false} OneMoreEntry(log: seq<Entry>, e: Entry)
    ensures forall counter :: Count(log + [e], counter) == Count(log, counter) + if e.counter == counter then 1 else 0
    ensures AllEndings(log + [e]) == AllEndings(log) + if e.ends then 1 else 0
    ensures forall id: nat :: Endings(log + [e], id) == Endings(log, id) + if e.owner == Some(id)
            && e.ends then 1 else 0
  {
    assert (log + [e])[..|log|] == log;
  }

  lemma {:induction false} LiveSizes(s: System, id: nat, p: Phase)
    ensures var t := Moved(s, id, p);
            && |t.live| == |s.live| + (if id in s.live then 0 else 1)
            && |Halfway(t)| + (if id in s.live && IsHalfway(s.live[id]) then 1 else 0)
               == |Halfway(s)| + if IsHalfway(p) then 1 else 0
  {
    HalfwayMoved(s, id, p);
    hide Halfway, IsHalfway;
    var t := Moved(s, id, p);
    assert t.live.Keys == s.live.Keys + {id};
    assert |t.live| == |t.live.Keys| && |s.live| == |s.live.Keys|;
    WithAndWithout(Halfway(s), id);
    WithAndWithout(s.live.Keys, id);
  }

  lemma {:induction false} HalfwayMoved(s: System, id: nat, p: Phase)
    ensures var rest := Halfway(s) - {id};
            Halfway(Moved(s, id, p)) == if IsHalfway(p) then rest + {id} else rest
    ensures id in Halfway(s) <==> id in s.live && IsHalfway(s.live[id])
  {
    hide IsHalfway;
  }

  lemma {:induction false} WithAndWithout(ids: set<nat>, id: nat)
    ensures |ids - {id}| + (if id in ids then 1 else 0) == |ids|
    ensures |ids - {id} + {id}| == |ids - {id}| + 1
    ensures |ids + {id}| == |ids| + if id in ids then 0 else 1
  {
    assert id in ids ==> ids == ids - {id} + {id} && ids + {id} == ids;
    assert id !in ids ==> ids - {id} == ids;
  }

  lemma {:induction false} EndSizes(s: System, id: nat)
    requires id in s.live
    ensures var t := Ended(s, id);
            && |t.live| == |s.live| - 1
            && |Halfway(t)| + (if IsHalfway(s.live[id]) then 1 else 0) == |Halfway(s)|
  {
    var t := Ended(s, id);
    assert t.live.Keys == s.live.Keys - {id};
    assert |t.live| == |t.live.Keys| && |s.live| == |s.live.Keys|;
    assert Halfway(t) == Halfway(s) - {id};
  }

  lemma {:induction false} QueueOfAttempt(c: Config, a: Attempt)
    ensures QueueFits(Increments(AttemptRecords(c, a))) && !IsHalfway(Writing(1, Increments(AttemptRecords(c, a)), a))
  {
    var records := AttemptRecords(c, a);
    assert records == [] || records == [Metrics.RateLimited] || records == [Metrics.TimedOut];
    assert records != [] ==> records[1..] == [];
    assert Increments([]) == [];
  }

  lemma {:induction false} QueueStaysFit(queue: seq<Counter>)
    requires QueueFits(queue) && queue != []
    ensures QueueFits(queue[1..])
    ensures queue[1..] == [FailedRequests] <==> queue[0] != FailedRequests
    ensures queue == [FailedRequests] <==> queue[0] == FailedRequests
    ensures queue[0] == FailedRequests || queue[0] == RateLimitHits || queue[0] == TimeoutErrors
  {
  }

  lemma {:induction false} EntryBalances(
      log: seq<Entry>, e: Entry, live: nat, half: nat, started: nat, streams: nat,
      live': nat, half': nat, started': nat, streams': nat)
    requires BalanceOf(log, live, half, started, streams)
    requires started' == started + if e.counter == TotalRequests then 1 else 0
    requires live' + started + (if e.ends then 1 else 0) == live + started'
    requires half' + (if e.counter == Successful || e.counter == FailedRequests then 1 else 0) + streams
          == half + (if e.ends then 1 else 0)
             + (if e.counter == RateLimitHits || e.counter == TimeoutErrors then 1 else 0) + streams'
    ensures BalanceOf(log + [e], live', half', started', streams')
  {
    OneMoreEntry(log, e);
    hide Count, AllEndings, Endings;
  }

  lemma {:induction false} BalanceIsKept(c: Config, s: System, a: Action)
    requires Balanced(s) && PhasesFit(c, s) && Enabled(c, s, a)
    ensures Balanced(Act(c, s, a))
  {
    hide BalanceOf, IsFinal, Halfway, Increments, AttemptRecords, QueueFits;
    var t := Act(c, s, a);
    match a {
      case Start => LiveSizes(s, s.started, Calling(1));
      case StreamFails => SameHalfway(s, t);
      case Return(id, outcome) =>
        QueueOfAttempt(c, outcome);
        LiveSizes(s, id, t.live[id]);
      case Write(id) =>
        QueueStaysFit(s.live[id].queue);
        LiveSizes(s, id, t.live[id]);
      case Sleep(id) => LiveSizes(s, id, t.live[id]);
      case Wake(id) => LiveSizes(s, id, t.live[id]);
      case Finish(id) => EndSizes(s, id);
      case Drop(id) => EndSizes(s, id);
    }
    KeepsHalfway(c, s, a);
    if t.log != s.log {
      var e := t.log[|s.log|];
      assert t.log == s.log + [e];
      EntryBalances(s.log, e, |s.live|, |Halfway(s)|, s.started, s.streamErrors,
                    |t.live|, |Halfway(t)|, t.started, t.streamErrors);
    }
  }

  lemma {:induction false} SameHalfway(s: System, t: System)
    requires s.live == t.live
    ensures Halfway(s) == Halfway(t)
  {
  }

  /** Only the phases decide who is halfway. */
  lemma {:induction false} KeepsHalfway(c: Config, s: System, a: Action)
    requires Enabled(c, s, a)
    ensures var t := Act(c, s, a);
            match a
            case Start => Halfway(t) == Halfway(Moved(s, s.started, Calling(1)))
            case StreamFails => Halfway(t) == Halfway(s)
            case Finish(id) => Halfway(t) == Halfway(Ended(s, id))
            case Drop(id) => Halfway(t) == Halfway(Ended(s, id))
            case _ => Halfway(t) == Halfway(Moved(s, a.id, t.live[a.id]))
  {
    hide IsFinal, Increments, AttemptRecords;
  }

  lemma {:induction false} PhasesStayFit(c: Config, s: System, a: Action)
    requires PhasesFit(c, s) && Enabled(c, s, a)
    ensures PhasesFit(c, Act(c, s, a))
  {
    match a {
      case Return(id, outcome) => QueueOfAttempt(c, outcome);
      case Write(id) => QueueStaysFit(s.live[id].queue);
      case _ =>
    }
    hide QueueFits, Increments, AttemptRecords;
  }

  lemma {:induction false} EndingsStayOne(c: Config, s: System, a: Action)
    requires EndedOnce(s) && PhasesFit(c, s) && Enabled(c, s, a)
    ensures EndedOnce(Act(c, s, a))
  {
    hide Endings, IsFinal, AttemptRecords, Increments, Count, AllEndings;
    var t := Act(c, s, a);
    if t.log != s.log {
      var e := t.log[|s.log|];
      assert t.log == s.log + [e];
      OneMoreEntry(s.log, e);
    }
  }

  lemma {:induction false} InvariantHolds(c: Config, s: System, actions: seq<Action>, t: System)
    requires Invariant(c, s) && Reaches(c, s, actions, t)
    ensures Invariant(c, t)
    decreases |actions|
  {
    hide Act, Enabled, Balanced, PhasesFit, EndedOnce;
    if actions != [] {
      BalanceIsKept(c, s, actions[0]);
      PhasesStayFit(c, s, actions[0]);
      EndingsStayOne(c, s, actions[0]);
      InvariantHolds(c, Act(c, s, actions[0]), actions[1..], t);
    }
  }

  /** The five counters a report shows. */
  datatype Counters = Counters(total: nat, successful: nat, failed: nat, rateLimitHits: nat, timeoutErrors: nat)

  function CountersOf(s: System): Counters {
    Counters(Count(s.log, TotalRequests), Count(s.log, Successful), Count(s.log, FailedRequests),
             Count(s.log, RateLimitHits), Count(s.log, TimeoutErrors))
  }

  /** Between any two increments of every run, whatever the interleaving and whoever gives up: the requests are
      those in flight, those that succeeded, and those that failed; of the failure counter, the rate limits, the
      timeouts and the stream errors are not requests, and an execution halfway through one of the first two has
      its failure still to count. Every execution that is over said so exactly once, and none is at an attempt
      beyond the retry limit. */
  lemma {:induction false} CountersAreConserved(c: Config, actions: seq<Action>, s: System)
    requires Reaches(c, IDLE, actions, s)
    ensures var n := CountersOf(s);
            n.total == |s.live| + n.successful
                       + (n.failed + |Halfway(s)| - n.rateLimitHits - n.timeoutErrors - s.streamErrors)
    ensures forall id: nat :: id < s.started ==> Endings(s.log, id) == if id in s.live then 0 else 1
    ensures forall id :: id in s.live ==> s.live[id].attempt <= c.retry.maxRetries + 1
  {
    assert Halfway(IDLE) == {};
    InvariantHolds(c, IDLE, actions, s);
    hide Count, AllEndings, Endings, Halfway, Reaches;
  }

  /** When nothing is in flight, the failure counter overstates the requests that did not succeed by the rate
      limits, the timeouts and the stream errors, and exceeds the requests exactly when those exceed the
      successes. */
  lemma {:induction false} FailuresAreOverstated(c: Config, actions: seq<Action>, s: System)
    requires Reaches(c, IDLE, actions, s) && s.live == map[]
    ensures var n := CountersOf(s);
            && n.failed == (n.total - n.successful) + n.rateLimitHits + n.timeoutErrors + s.streamErrors
            && (n.failed > n.total <==> n.rateLimitHits + n.timeoutErrors + s.streamErrors > n.successful)
  {
    CountersAreConserved(c, actions, s);
    assert Halfway(s) == {};
  }

  // --------------------------------------------------------------------------------------------
  // One request, many failures
  // --------------------------------------------------------------------------------------------

  function Throttled(): Attempt {
    Err(Some(TOO_MANY_REQUESTS), true, false, None)
  }

  /** One attempt that is rate limited, with what is counted for it. */
  function ThrottledAttempt(): seq<Action> {
    [Return(0, Throttled()), Write(0), Write(0)]
  }

  /** The attempts that are left after `attempt` was called. */
  function ThrottledFrom(c: Config, attempt: nat): seq<Action>
    requires attempt <= c.retry.maxRetries + 1
    decreases c.retry.maxRetries + 1 - attempt
  {
    ThrottledAttempt()
    + if attempt > c.retry.maxRetries then [Finish(0)] else [Sleep(0), Wake(0)] + ThrottledFrom(c, attempt + 1)
  }

  /** Execution 0 alone, at `attempt`, with `hits` rate limits counted. */
  ghost predicate Alone(s: System, p: Phase, hits: nat) {
    && s.live == map[0 := p] && s.streamErrors == 0
    && CountersOf(s) == Counters(1, 0, hits, hits, 0)
  }

  lemma {:induction false} ReachesOn(c: Config, s: System, a: Action, more: seq<Action>, t: System)
    requires Enabled(c, s, a) && Reaches(c, Act(c, s, a), more, t)
    ensures Reaches(c, s, [a] + more, t)
  {
    assert ([a] + more)[1..] == more;
  }

  lemma {:induction false} QueueOfThrottled(c: Config)
    ensures Increments(AttemptRecords(c, Throttled())) == [RateLimitHits, FailedRequests]
  {
    var records := AttemptRecords(c, Throttled());
    assert records == [Metrics.RateLimited] && records[1..] == [];
    assert Increments([]) == [];
  }

  /** The state after a rate-limited attempt. */
  lemma {:induction false} AfterThrottled(c: Config, s: System, attempt: nat, hits: nat) returns (t: System)
    requires Alone(s, Calling(attempt), hits)
    ensures Alone(t, Writing(attempt, [], Throttled()), hits + 1)
    ensures forall more, end :: Reaches(c, t, more, end) ==> Reaches(c, s, ThrottledAttempt() + more, end)
  {
    QueueOfThrottled(c);
    hide Increments, AttemptRecords, Count;
    var a, w := Return(0, Throttled()), Write(0);
    var s1 := Act(c, s, a);
    var s2 := Act(c, s1, w);
    t := Act(c, s2, w);
    assert s1.live == map[0 := Writing(attempt, [RateLimitHits, FailedRequests], Throttled())] && s1.log == s.log;
    assert s2.live == map[0 := Writing(attempt, [FailedRequests], Throttled())];
    assert t.live == map[0 := Writing(attempt, [], Throttled())];
    OneMoreEntry(s.log, Entry(Some(0), RateLimitHits, false));
    OneMoreEntry(s2.log, Entry(Some(0), FailedRequests, false));
    assert Enabled(c, s, a) && Enabled(c, s1, w) && Enabled(c, s2, w);
    forall more, end | Reaches(c, t, more, end) ensures Reaches(c, s, ThrottledAttempt() + more, end) {
      hide Act, Enabled, Reaches;
      ReachesOn(c, s2, w, more, end);
      ReachesOn(c, s1, w, [w] + more, end);
      ReachesOn(c, s, a, [w] + ([w] + more), end);
      assert ThrottledAttempt() + more == [a] + ([w] + ([w] + more));
    }
  }

  lemma {:induction false} ThrottledRun(c: Config, s: System, attempt: nat, hits: nat) returns (t: System)
    requires Alone(s, Calling(attempt), hits) && attempt <= c.retry.maxRetries + 1
    ensures Reaches(c, s, ThrottledFrom(c, attempt), t)
    ensures t.live == map[] && CountersOf(t) == Counters(1, 0, hits + c.retry.maxRetries + 3 - attempt,
                                                         hits + c.retry.maxRetries + 2 - attempt, 0)
    decreases c.retry.maxRetries + 1 - attempt
  {
    var written := AfterThrottled(c, s, attempt, hits);
    hide Count, ThrottledAttempt, AttemptRecords;
    if attempt > c.retry.maxRetries {
      t := Act(c, written, Finish(0));
      assert t.live == map[];
      OneMoreEntry(written.log, Entry(Some(0), FailedRequests, true));
      ReachesOn(c, written, Finish(0), [], t);
      assert [Finish(0)] + [] == [Finish(0)];
    } else {
      var asleep := Act(c, written, Sleep(0));
      var again := Act(c, asleep, Wake(0));
      assert asleep.live == map[0 := Sleeping(attempt)] && again.live == map[0 := Calling(attempt + 1)];
      t := ThrottledRun(c, again, attempt + 1, hits + 1);
      var rest := ThrottledFrom(c, attempt + 1);
      ReachesOn(c, asleep, Wake(0), rest, t);
      ReachesOn(c, written, Sleep(0), [Wake(0)] + rest, t);
      assert [Sleep(0), Wake(0)] + rest == [Sleep(0)] + ([Wake(0)] + rest);
    }
  }

  /** Failures can outnumber requests without limit: whatever the configuration, one execution that is rate
      limited at every attempt leaves one request and `maxRetries + 2` failures. */
  lemma {:induction false} OneRequestManyFailures(c: Config) returns (s: System)
    ensures Reaches(c, IDLE, [Start] + ThrottledFrom(c, 1), s) && s.live == map[]
    ensures CountersOf(s) == Counters(1, 0, c.retry.maxRetries + 2, c.retry.maxRetries + 1, 0)
  {
    var first := Act(c, IDLE, Start);
    OneMoreEntry([], Entry(Some(0), TotalRequests, false));
    assert [] + [Entry(Some(0), TotalRequests, false)] == first.log;
    assert first.live == map[0 := Calling(1)];
    s := ThrottledRun(c, first, 1, 0);
    ReachesOn(c, IDLE, Start, ThrottledFrom(c, 1), s);
  }

  /** `error_rate`, the quotient of the failure and the request counter, has no bound. */
  lemma {:induction false} ErrorRateHasNoBound(bound: nat) returns (c: Config, s: System)
    ensures Reaches(c, IDLE, [Start] + ThrottledFrom(c, 1), s)
    ensures CountersOf(s).total > 0 && CountersOf(s).failed > bound * CountersOf(s).total
  {
    c := Config(RetryConfig(bound, 0, 0, 1.0, false), None);
    s := OneRequestManyFailures(c);
  }
}
