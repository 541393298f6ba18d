/** The circuit breaker of `clients/circuit_breaker.rs`: the class, its behaviour as a state machine, and
    what that machine guarantees over whole runs of serialised calls. */
module Breaker {
  import opened Wrappers
  import opened Numbers

  datatype CircuitState = Closed | Open | HalfOpen

  /** Durations and instants are in one unit of a monotone clock. */
  datatype Config = Config(failureThreshold: nat, successThreshold: nat, openDuration: nat, failureWindow: nat)

  datatype State = State(
      state: CircuitState, openedAt: Option<nat>, failureWindowStart: Option<nat>, failures: nat, successes: nat)

  const FRESH := State(Closed, None, None, 0, 0)

  function Elapsed(since: nat, now: nat): nat {
    if now < since then 0 else now - since
  }

  /** What happens to the breaker. `allow_request` reads the clock twice, a failure once. */
  datatype Event = Allow(check: nat, answer: nat) | Success | Failure(now: nat)

  /** `maybe_transition_to_half_open`. */
  function Thaw(c: Config, s: State, now: nat): State {
    if s.state == Open && s.openedAt.Some? && Elapsed(s.openedAt.value, now) >= c.openDuration
    then s.(state := HalfOpen, successes := 0, failures := 0)
    else s
  }

  function AfterSuccess(c: Config, s: State): State {
    match s.state
    case HalfOpen =>
      if s.successes + 1 >= c.successThreshold then FRESH else s.(successes := s.successes + 1)
    case Closed => s.(failures := 0, failureWindowStart := None)
    case Open => s
  }

  /** The first failure of a window, or the first after the window has expired, starts a new one. */
  function InWindow(c: Config, s: State, now: nat): State {
    if s.failureWindowStart.None? || Elapsed(s.failureWindowStart.value, now) > c.failureWindow
    then s.(failures := 0, failureWindowStart := Some(now))
    else s
  }

  function AfterFailure(c: Config, s: State, now: nat): State {
    match s.state
    case Closed =>
      var counted := InWindow(c, s, now);
      var counted := counted.(failures := counted.failures + 1);
      if counted.failures >= c.failureThreshold then counted.(state := Open, openedAt := Some(now)) else counted
    case HalfOpen => s.(state := Open, openedAt := Some(now), successes := 0)
    case Open => s
  }

  function Step(c: Config, s: State, e: Event): State {
    match e
    case Allow(check, _) => Thaw(c, s, check)
    case Success => AfterSuccess(c, s)
    case Failure(now) => AfterFailure(c, s, now)
  }

  /** The answer of `allow_request`: go ahead, or come back later. */
  datatype Answer = Go | RetryAfter(wait: nat)

  function Answered(c: Config, s: State, check: nat, answer: nat): Answer {
    var t := Thaw(c, s, check);
    if t.state != Open then Go
    else RetryAfter(if t.openedAt.Some? then SaturatingSub(c.openDuration, Elapsed(t.openedAt.value, answer))
                    else c.openDuration)
  }

  // --------------------------------------------------------------------------------------------
  // The class
  // --------------------------------------------------------------------------------------------

  class CircuitBreaker {
    const config: Config
    var state: CircuitState
    var openedAt: Option<nat>
    var failureWindowStart: Option<nat>
    var failures: nat
    var successes: nat

    function View(): State
      reads this
    {
      State(state, openedAt, failureWindowStart, failures, successes)
    }

    constructor (config: Config)
      ensures View() == FRESH && this.config == config
    {
      this.config := config;
      state, openedAt, failureWindowStart, failures, successes := Closed, None, None, 0, 0;
    }

    method MaybeTransitionToHalfOpen(now: nat)
      modifies this
      ensures View() == Thaw(config, old(View()), now)
    {
      if state == Open && openedAt.Some? && Elapsed(openedAt.value, now) >= config.openDuration {
        state := HalfOpen;
        successes := 0;
        failures := 0;
      }
    }

    method AllowRequest(check: nat, answer: nat) returns (r: Answer)
      modifies this
      ensures View() == Step(config, old(View()), Allow(check, answer))
      ensures r == Answered(config, old(View()), check, answer)
    {
      MaybeTransitionToHalfOpen(check);
      if state != Open {
        return Go;
      }
      r := RetryAfter(if openedAt.Some? then SaturatingSub(config.openDuration, Elapsed(openedAt.value, answer))
                      else config.openDuration);
    }

    method RecordSuccess()
      modifies this
      ensures View() == Step(config, old(View()), Success)
    {
      match state {
        case HalfOpen =>
          successes := successes + 1;
          if successes >= config.successThreshold {
            TransitionToClosed();
          }
        case Closed =>
          failures := 0;
          failureWindowStart := None;
        case Open =>
      }
    }

    method TransitionToClosed()
      modifies this
      ensures View() == FRESH
    {
      state, openedAt, failureWindowStart := Closed, None, None;
      failures, successes := 0, 0;
    }

    method RecordFailure(now: nat)
      modifies this
      ensures View() == Step(config, old(View()), Failure(now))
    {
      match state {
        case Closed => HandleClosedFailure(now);
        case HalfOpen =>
          state, openedAt := Open, Some(now);
          successes := 0;
        case Open =>
      }
    }

    method HandleClosedFailure(now: nat)
      requires state == Closed
      modifies this
      ensures View() == AfterFailure(config, old(View()), now)
    {
      if failureWindowStart.None? || Elapsed(failureWindowStart.value, now) > config.failureWindow {
        failures := 0;
        failureWindowStart := Some(now);
      }
      failures := failures + 1;
      if failures >= config.failureThreshold {
        state, openedAt := Open, Some(now);
      }
    }
  }

  // --------------------------------------------------------------------------------------------
  // Runs
  // --------------------------------------------------------------------------------------------

  /** The state after the first `n` events of a run. */
  function After(c: Config, events: seq<Event>, n: nat): State
    requires n <= |events|
  {
    if n == 0 then FRESH else Step(c, After(c, events, n - 1), events[n - 1])
  }

  function AtLeastOne(n: nat): nat {
    if n == 0 then 1 else n
  }

  /** The number of events of one kind in `events[from..end]`. */
  function Failures(events: seq<Event>, from: nat, end: nat): nat
    requires from <= end <= |events|
    decreases end
  {
    if from == end then 0 else Failures(events, from, end - 1) + if events[end - 1].Failure? then 1 else 0
  }

  function Successes(events: seq<Event>, from: nat, end: nat): nat
    requires from <= end <= |events|
    decreases end
  {
    if from == end then 0 else Successes(events, from, end - 1) + if events[end - 1].Success? then 1 else 0
  }

  ghost predicate StaysIn(c: Config, events: seq<Event>, from: nat, end: nat, state: CircuitState)
    requires from <= end <= |events|
  {
    forall n :: from <= n <= end ==> After(c, events, n).state == state
  }

  /** `events[first..n]` is the open failure window of a closed breaker: it starts with a failure, holds
      `count` failures, all within the window of the first, and no success. */
  ghost predicate FailureWindow(c: Config, events: seq<Event>, first: nat, n: nat, count: nat)
    requires n <= |events|
  {
    && first < n && events[first].Failure?
    && Failures(events, first, n) == count && Successes(events, first, n) == 0
    && forall k :: first <= k < n && events[k].Failure?
         ==> Elapsed(events[first].now, events[k].now) <= c.failureWindow
  }

  /** What the counters of a closed breaker mean. */
  ghost predicate ClosedMeans(c: Config, events: seq<Event>, n: nat, first: nat)
    requires n <= |events|
  {
    var s := After(c, events, n);
    && s.state == Closed && s.openedAt == None && s.failures < AtLeastOne(c.failureThreshold)
    && (s.failureWindowStart.None? ==> s.failures == 0)
    && (s.failureWindowStart.Some? ==> && FailureWindow(c, events, first, n, s.failures)
                                       && s.failureWindowStart == Some(events[first].now)
                                       && StaysIn(c, events, first, n, Closed))
  }

  lemma {:induction false} ClosedCounters(c: Config, events: seq<Event>, n: nat) returns (first: nat)
    requires n <= |events| && After(c, events, n).state == Closed
    ensures ClosedMeans(c, events, n, first)
    decreases n
  {
    first := 0;
    if n > 0 {
      var s, e := After(c, events, n - 1), events[n - 1];
      if s.state == Closed {
        first := ClosedCounters(c, events, n - 1);
        if e.Failure? && InWindow(c, s, e.now) != s {
          first := n - 1;
          assert Failures(events, n - 1, n - 1) == 0 && Successes(events, n - 1, n - 1) == 0;
        }
      }
    }
  }

  /** The breaker opens from closed only when its last `failureThreshold` failures, counting the one that
      opens it, all fell within `failureWindow` of the first of them, with no success in between and the
      breaker closed throughout; there are exactly that many. */
  lemma {:induction false} WhyItOpened(c: Config, events: seq<Event>, n: nat) returns (first: nat)
    requires n < |events| && After(c, events, n).state == Closed && After(c, events, n + 1).state != Closed
    ensures After(c, events, n + 1).state == Open && events[n].Failure?
    ensures first <= n && FailureWindow(c, events, first, n + 1, AtLeastOne(c.failureThreshold))
    ensures StaysIn(c, events, first, n, Closed)
  {
    first := ClosedCounters(c, events, n);
    var s := After(c, events, n);
    if InWindow(c, s, events[n].now) != s {
      first := n;
      assert Failures(events, n, n) == 0 && Successes(events, n, n) == 0;
    }
  }

  /** The failure that starts the window current after `n` events, told from the history alone: a success
      ends the window, a failure too late for it starts the next one. */
  function WindowStart(c: Config, events: seq<Event>, n: nat): (first: Option<nat>)
    requires n <= |events|
    ensures first.Some? ==> first.value < n && events[first.value].Failure?
  {
    if n == 0 then None else
    var before := WindowStart(c, events, n - 1);
    match events[n - 1]
    case Allow(_, _) => before
    case Success => None
    case Failure(now) =>
      if before.None? || Elapsed(events[before.value].now, now) > c.failureWindow then Some(n - 1) else before
  }

  ghost predicate TracksWindow(c: Config, events: seq<Event>, n: nat)
    requires n <= |events|
  {
    var s, w := After(c, events, n), WindowStart(c, events, n);
    if w.None? then s.failureWindowStart == None && s.failures == 0
    else s.failureWindowStart == Some(events[w.value].now) && s.failures == Failures(events, w.value, n)
  }

  lemma {:induction false} ClosedTracksWindow(c: Config, events: seq<Event>, n: nat)
    requires n <= |events| && After(c, events, n).state == Closed
    ensures TracksWindow(c, events, n)
    decreases n
  {
    if n > 0 {
      if After(c, events, n - 1).state == Closed {
        ClosedTracksWindow(c, events, n - 1);
        if events[n - 1].Failure? {
          assert Failures(events, n - 1, n - 1) == 0;
        }
      }
    }
  }

  /** Exactly when a closed breaker opens: at the failure that brings the current window to the
      threshold. */
  lemma {:induction false} WhenItOpens(c: Config, events: seq<Event>, n: nat)
    requires n < |events| && After(c, events, n).state == Closed
    ensures After(c, events, n + 1).state == Open
            <==> && events[n].Failure?
                 && var w := WindowStart(c, events, n + 1);
                    w.Some? && Failures(events, w.value, n + 1) >= c.failureThreshold
  {
    ClosedTracksWindow(c, events, n);
    if events[n].Failure? {
      assert Failures(events, n, n) == 0;
    }
  }

  /** The window does not slide: three failures within three units of a window of ten, and a threshold of
      three, do not open the breaker when an older failure had started the window. */
  lemma {:induction false} WindowDoesNotSlide()
    ensures var c := Config(3, 1, 30, 10);
            var events := [Failure(0), Failure(9), Failure(11), Failure(12)];
            && After(c, events, 4).state == Closed
            && Failures(events, 1, 4) == 3 && Elapsed(events[1].now, events[3].now) <= c.failureWindow
  {
    var c := Config(3, 1, 30, 10);
    var events := [Failure(0), Failure(9), Failure(11), Failure(12)];
    assert After(c, events, 1) == State(Closed, None, Some(0), 1, 0);
    assert After(c, events, 2) == State(Closed, None, Some(0), 2, 0);
    assert After(c, events, 3) == State(Closed, None, Some(11), 1, 0);
    assert After(c, events, 4) == State(Closed, None, Some(11), 2, 0);
    assert Failures(events, 1, 1) == 0 && Failures(events, 1, 2) == 1 && Failures(events, 1, 3) == 2;
  }

  // --------------------------------------------------------------------------------------------
  // The outage
  // --------------------------------------------------------------------------------------------

  /** The clock of a run does not run backwards. */
  ghost predicate ClockRuns(events: seq<Event>) {
    && (forall i :: 0 <= i < |events| && events[i].Allow? ==> events[i].check <= events[i].answer)
    && (forall i, j :: 0 <= i < j < |events| && !events[i].Success? && !events[j].Success?
          ==> End(events[i]) <= Begin(events[j]))
  }

  function Begin(e: Event): nat
    requires !e.Success?
  {
    if e.Allow? then e.check else e.now
  }

  function End(e: Event): nat
    requires !e.Success?
  {
    if e.Allow? then e.answer else e.now
  }

  /** The breaker opens at event `i`. */
  ghost predicate OpensAt(c: Config, events: seq<Event>, i: nat) {
    i < |events| && After(c, events, i).state != Open && After(c, events, i + 1).state == Open
  }

  lemma {:induction false} OpenHolds(c: Config, events: seq<Event>, i: nat, n: nat, k: nat)
    requires ClockRuns(events) && OpensAt(c, events, i) && i < n <= k < |events|
    requires events[k].Allow? && events[i].Failure? && events[k].check < events[i].now + c.openDuration
    ensures After(c, events, n) == After(c, events, i + 1)
    ensures After(c, events, n).openedAt == Some(events[i].now)
    decreases n
  {
    if n > i + 1 {
      OpenHolds(c, events, i, n - 1, k);
      if events[n - 1].Allow? {
        assert End(events[n - 1]) <= Begin(events[k]);
        assert End(events[i]) <= Begin(events[n - 1]);
      }
    }
  }

  /** Event `k` is refused while the breaker stays open, and told to wait for the rest of the outage that
      began at `since`. */
  ghost predicate Refuses(c: Config, events: seq<Event>, since: nat, k: nat)
    requires k < |events| && events[k].Allow?
  {
    var answer := events[k].answer;
    var r := Answered(c, After(c, events, k), events[k].check, answer);
    && After(c, events, k + 1).state == Open && r.RetryAfter?
    && since <= answer
    && if answer <= since + c.openDuration then r.wait + (answer - since) == c.openDuration else r.wait == 0
  }

  /** Once open, the breaker refuses every request of the next `openDuration`, whatever else is reported in
      between, and the wait it announces ends exactly when that time is over. */
  lemma {:induction false} OutageIsKept(c: Config, events: seq<Event>, i: nat, k: nat)
    requires ClockRuns(events) && OpensAt(c, events, i) && i < k < |events| && events[k].Allow?
    ensures events[i].Failure?
    ensures events[k].check < events[i].now + c.openDuration ==> Refuses(c, events, events[i].now, k)
  {
    if events[k].check < events[i].now + c.openDuration {
      OpenHolds(c, events, i, k, k);
      assert End(events[i]) <= Begin(events[k]);
    }
  }

  /** The breaker is open after `n` events, and has been since event `i`. */
  ghost predicate OpenSince(c: Config, events: seq<Event>, i: nat, n: nat) {
    OpensAt(c, events, i) && i < n <= |events| && StaysIn(c, events, i + 1, n, Open)
  }

  /** While it is open, nothing about the breaker changes. */
  lemma {:induction false} OpenKeepsItsInstant(c: Config, events: seq<Event>, i: nat, n: nat)
    requires OpenSince(c, events, i, n)
    ensures events[i].Failure? && After(c, events, n).openedAt == Some(events[i].now)
    ensures After(c, events, n) == After(c, events, i + 1)
    decreases n
  {
    if n > i + 1 {
      OpenKeepsItsInstant(c, events, i, n - 1);
    }
  }

  /** An outage lasts exactly `openDuration`: a request that meets an open breaker is refused if it comes before the
      time is over since the failure that opened it; otherwise it goes ahead, as the first probe. */
  lemma {:induction false} OutageEnds(c: Config, events: seq<Event>, i: nat, k: nat)
    requires ClockRuns(events) && OpenSince(c, events, i, k) && k < |events| && events[k].Allow?
    ensures events[i].Failure?
    ensures var s, s' := After(c, events, k), After(c, events, k + 1);
            var r := Answered(c, s, events[k].check, events[k].answer);
            if events[k].check < events[i].now + c.openDuration then r.RetryAfter? && s' == s
            else r == Go && s'.state == HalfOpen && s'.successes == 0
  {
    OpenKeepsItsInstant(c, events, i, k);
    assert End(events[i]) <= Begin(events[k]);
    hide StaysIn;
  }

  /** A request that meets a breaker that is closed or half-open goes ahead and changes nothing. */
  lemma {:induction false} OtherwiseGo(c: Config, events: seq<Event>, k: nat)
    requires k < |events| && events[k].Allow? && After(c, events, k).state != Open
    ensures Answered(c, After(c, events, k), events[k].check, events[k].answer) == Go
    ensures After(c, events, k + 1) == After(c, events, k)
  {
  }

  // --------------------------------------------------------------------------------------------
  // Recovery
  // --------------------------------------------------------------------------------------------

  /** `entered` is the request that made the breaker half-open; since then there were only successes, and
      `count` of them. */
  ghost predicate Probing(c: Config, events: seq<Event>, entered: nat, n: nat, count: nat)
    requires n <= |events|
  {
    && entered < n && events[entered].Allow? && After(c, events, entered).state == Open
    && StaysIn(c, events, entered + 1, n, HalfOpen)
    && Successes(events, entered + 1, n) == count && Failures(events, entered + 1, n) == 0
  }

  lemma {:induction false} HalfOpenCounters(c: Config, events: seq<Event>, n: nat) returns (entered: nat)
    requires n <= |events| && After(c, events, n).state == HalfOpen
    ensures Probing(c, events, entered, n, After(c, events, n).successes)
    decreases n
  {
    if After(c, events, n - 1).state == HalfOpen {
      entered := HalfOpenCounters(c, events, n - 1);
    } else {
      entered := n - 1;
      assert Failures(events, n, n) == 0 && Successes(events, n, n) == 0;
    }
  }

  /** A breaker closes only out of half-open, at a success, and only after exactly `successThreshold`
      successes since it became half-open, with no failure between them. */
  lemma {:induction false} WhyItClosed(c: Config, events: seq<Event>, n: nat) returns (entered: nat)
    requires n < |events| && After(c, events, n).state != Closed && After(c, events, n + 1).state == Closed
    ensures After(c, events, n).state == HalfOpen && events[n].Success?
    ensures Probing(c, events, entered, n, After(c, events, n).successes)
    ensures Successes(events, entered + 1, n + 1) == AtLeastOne(c.successThreshold)
    ensures Failures(events, entered + 1, n + 1) == 0
  {
    entered := HalfOpenCounters(c, events, n);
    SuccessesStayBelow(c, events, n);
  }

  /** What a half-open breaker does, told from the history since the request that made it so: a failure opens it
      again, from that instant; a success closes it if it is the last of `successThreshold`; nothing else moves it. */
  lemma {:induction false} WhatEndsProbing(c: Config, events: seq<Event>, entered: nat, n: nat)
    requires n < |events| && After(c, events, n).state == HalfOpen
    requires entered < n && Probing(c, events, entered, n, Successes(events, entered + 1, n))
    ensures var s := After(c, events, n + 1);
            match events[n]
            case Failure(now) => s.state == Open && s.openedAt == Some(now)
            case Success => s.state == if Successes(events, entered + 1, n + 1) >= c.successThreshold then Closed
                                       else HalfOpen
            case Allow(_, _) => s.state == HalfOpen
  {
    var e := HalfOpenCounters(c, events, n);
    ProbingSinceOnce(c, events, entered, e, n);
    hide StaysIn;
  }

  lemma {:induction false} ProbingSinceOnce(c: Config, events: seq<Event>, e: nat, f: nat, n: nat)
    requires e < n <= |events| && f < n
    requires After(c, events, e).state == Open == After(c, events, f).state
    requires StaysIn(c, events, e + 1, n, HalfOpen) && StaysIn(c, events, f + 1, n, HalfOpen)
    ensures e == f
  {
  }

  lemma {:induction false} SuccessesStayBelow(c: Config, events: seq<Event>, n: nat)
    requires n <= |events| && After(c, events, n).state == HalfOpen
    ensures After(c, events, n).successes < AtLeastOne(c.successThreshold)
    decreases n
  {
    if After(c, events, n - 1).state == HalfOpen {
      SuccessesStayBelow(c, events, n - 1);
    }
  }

  /** The event that opened a breaker that is open now. */
  lemma {:induction false} OpeningOf(c: Config, events: seq<Event>, n: nat) returns (i: nat)
    requires n <= |events| && After(c, events, n).state == Open
    ensures i < n && OpensAt(c, events, i) && events[i].Failure?
    ensures After(c, events, n).openedAt == Some(events[i].now) && StaysIn(c, events, i + 1, n, Open)
    decreases n
  {
    if After(c, events, n - 1).state == Open {
      i := OpeningOf(c, events, n - 1);
    } else {
      i := n - 1;
    }
  }

  /** A breaker becomes half-open only at a request, at least `openDuration` after the failure that opened it. */
  lemma {:induction false} HalfOpenAfterOutage(c: Config, events: seq<Event>, n: nat) returns (i: nat)
    requires n < |events| && After(c, events, n).state != HalfOpen && After(c, events, n + 1).state == HalfOpen
    requires ClockRuns(events)
    ensures events[n].Allow? && i < n && events[i].Failure?
    ensures OpensAt(c, events, i) && StaysIn(c, events, i + 1, n, Open)
    ensures events[i].now + c.openDuration <= events[n].check
  {
    i := OpeningOf(c, events, n);
    assert End(events[i]) <= Begin(events[n]);
  }

  // --------------------------------------------------------------------------------------------
  // Interleaved calls
  // --------------------------------------------------------------------------------------------

  /** The critical sections of the breaker, one by one. Between them any other thread may run; the
      counters are separate atomics and may take any value. */
  datatype Section =
    | ClearWindow | StartWindow(now: nat) | WriteClosed | WriteOpen(now: nat) | WriteHalfOpenIfOpen
    | Counters(failures: nat, successes: nat)

  function Enter(s: State, section: Section): State {
    match section
    case ClearWindow => s.(failureWindowStart := None)
    case StartWindow(now) => s.(failureWindowStart := Some(now))
    case WriteClosed => s.(state := Closed, openedAt := None, failureWindowStart := None)
    case WriteOpen(now) => s.(state := Open, openedAt := Some(now))
    case WriteHalfOpenIfOpen => if s.state == Open then s.(state := HalfOpen) else s
    case Counters(failures, successes) => s.(failures := failures, successes := successes)
  }

  function EnterAll(s: State, sections: seq<Section>): State
    decreases |sections|
  {
    if sections == [] then s else EnterAll(Enter(s, sections[0]), sections[1..])
  }

  /** Under every interleaving, the opening time is missing exactly when the breaker is closed. */
  lemma {:induction false} OpenedAtIffNotClosed(s: State, sections: seq<Section>)
    requires s.openedAt.None? <==> s.state == Closed
    ensures var t := EnterAll(s, sections); t.openedAt.None? <==> t.state == Closed
    decreases |sections|
  {
    if sections != [] {
      OpenedAtIffNotClosed(Enter(s, sections[0]), sections[1..]);
    }
  }

  /** What the check for half-open reads under the read lock. */
  predicate ShouldThaw(c: Config, s: State, now: nat) {
    s.state == Open && s.openedAt.Some? && Elapsed(s.openedAt.value, now) >= c.openDuration
  }

  /** The instant that the last opening among the sections writes. */
  function LastOpening(sections: seq<Section>): Option<nat> {
    if sections == [] then None
    else
      var last := sections[|sections| - 1];
      if last.WriteOpen? then Some(last.now) else LastOpening(sections[..|sections| - 1])
  }

  lemma {:induction false} EnterLast(s: State, sections: seq<Section>)
    requires sections != []
    ensures EnterAll(s, sections) == Enter(EnterAll(s, sections[..|sections| - 1]), sections[|sections| - 1])
    decreases |sections|
  {
    var n := |sections| - 1;
    if n > 0 {
      EnterLast(Enter(s, sections[0]), sections[1..]);
      assert sections[1..][..n - 1] == sections[..n][1..];
    } else {
      assert sections[..0] == [] && sections[1..] == [];
    }
  }

  /** An open breaker carries the instant of the last opening. */
  lemma {:induction false} OpenSinceLast(s: State, sections: seq<Section>)
    requires EnterAll(s, sections).state == Open
    ensures EnterAll(s, sections).openedAt
         == if LastOpening(sections).Some? then LastOpening(sections) else s.openedAt
    ensures LastOpening(sections).None? ==> s.state == Open
    decreases |sections|
  {
    if sections != [] {
      hide EnterAll;
      EnterLast(s, sections);
      if !sections[|sections| - 1].WriteOpen? {
        OpenSinceLast(s, sections[..|sections| - 1]);
      }
    }
  }

  /** The write lock re-reads only the state. If a check made at `now` said that the outage is over, the write
      ends an outage that is not over exactly when the breaker was opened again in between, at an instant less
      than `openDuration` before the check, or after it. */
  lemma {:induction false} StaleCheckCutsOutage(c: Config, read: State, now: nat, sections: seq<Section>)
    requires ShouldThaw(c, read, now) && EnterAll(read, sections).state == Open
    ensures var written, opening := EnterAll(read, sections), LastOpening(sections);
            && Enter(written, WriteHalfOpenIfOpen).state == HalfOpen && written.openedAt.Some?
            && (Elapsed(written.openedAt.value, now) < c.openDuration
                <==> c.openDuration > 0 && opening.Some? && now < opening.value + c.openDuration)
  {
    OpenSinceLast(read, sections);
    hide EnterAll, LastOpening;
  }

  /** Such an interleaving exists: a second thread half-opens the breaker and fails its probe between the
      check and the write of the first. */
  lemma {:induction false} StaleCheckHappens(c: Config, since: nat)
    requires c.openDuration > 0
    ensures var now := since + c.openDuration;
            var read := Enter(FRESH, WriteOpen(since));
            var written := EnterAll(read, [WriteHalfOpenIfOpen, WriteOpen(now)]);
            && ShouldThaw(c, read, now) && Enter(written, WriteHalfOpenIfOpen).state == HalfOpen
            && written.openedAt == Some(now) && Elapsed(now, now) < c.openDuration
  {
    var now := since + c.openDuration;
    var read := Enter(FRESH, WriteOpen(since));
    var half := Enter(read, WriteHalfOpenIfOpen);
    assert [WriteHalfOpenIfOpen, WriteOpen(now)][1..] == [WriteOpen(now)] && [WriteOpen(now)][1..] == [];
    assert EnterAll(half, [WriteOpen(now)]) == EnterAll(Enter(half, WriteOpen(now)), []);
  }
}
