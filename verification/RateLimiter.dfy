/** The sliding-window limiter of `clients/voyage_rate_limiter.rs`. Instants are milliseconds since the
    epoch of the clock. */
module RateLimiter {
  import opened Wrappers

  const WINDOW: nat := 60_000
  const POLL: nat := 100
  const U32: nat := 0x1_0000_0000

  datatype Config = Config(maxRpm: nat, maxTpm: nat, maxWait: nat) {
    predicate Valid() {
      maxRpm < U32 && maxTpm < U32
    }
  }

  /** `now.checked_sub(window).unwrap_or(now)`: within the first window of the clock the cutoff is `now`. */
  function Cutoff(now: nat): nat {
    if now >= WINDOW then now - WINDOW else now
  }

  /** Dropping entries from the front while they are older than the cutoff. */
  function Prune(times: seq<nat>, cutoff: nat): seq<nat> {
    if times != [] && times[0] < cutoff then Prune(times[1..], cutoff) else times
  }

  lemma {:induction false} PruneKeeps(times: seq<nat>, cutoff: nat)
    ensures var kept := Prune(times, cutoff);
            && |kept| <= |times| && kept == times[|times| - |kept|..]
            && (forall i :: 0 <= i < |times| - |kept| ==> times[i] < cutoff)
            && (kept != [] ==> kept[0] >= cutoff) && Prune(kept, cutoff) == kept
  {
    if times != [] && times[0] < cutoff {
      PruneKeeps(times[1..], cutoff);
    }
  }

  type Usage = (nat, nat)

  function PruneUsage(usage: seq<Usage>, cutoff: nat): seq<Usage> {
    if usage != [] && usage[0].0 < cutoff then PruneUsage(usage[1..], cutoff) else usage
  }

  lemma {:induction false} PruneUsageKeeps(usage: seq<Usage>, cutoff: nat)
    ensures var kept := PruneUsage(usage, cutoff);
            && |kept| <= |usage| && kept == usage[|usage| - |kept|..]
            && (kept != [] ==> kept[0].0 >= cutoff)
            && forall i :: 0 <= i < |usage| - |kept| ==> usage[i].0 < cutoff
  {
    if usage != [] && usage[0].0 < cutoff {
      PruneUsageKeeps(usage[1..], cutoff);
    }
  }

  function Sum(usage: seq<Usage>): nat {
    if usage == [] then 0 else usage[0].1 + Sum(usage[1..])
  }

  /** The 32-bit sum of a release build. */
  predicate TpmOk(usage: seq<Usage>, estimate: nat, maxTpm: nat) {
    (Sum(usage) % U32 + estimate) % U32 <= maxTpm
  }

  // --------------------------------------------------------------------------------------------
  // The request window as a system of steps
  // --------------------------------------------------------------------------------------------

  /** Grants are numbered in the order of their checks. `admitted` holds the instant each one read,
      `deque` the grants pushed so far and not yet pruned, in the order of their pushes, and `pending`
      the grants between their check and their push. */
  datatype Window = Window(admitted: seq<nat>, deque: seq<nat>, pending: set<nat>)

  /** A check reads the clock, prunes and compares in one step; `willing` is everything else that has to
      hold for a grant. A push appends the instant that was read. */
  datatype Step = Check(now: nat, willing: bool) | Push(id: nat)

  ghost predicate Numbered(w: Window) {
    && (forall id :: id in w.deque ==> id < |w.admitted|)
    && (forall id :: id in w.pending ==> id < |w.admitted|)
  }

  function Times(w: Window): (times: seq<nat>)
    requires Numbered(w)
    ensures |times| == |w.deque|
  {
    seq(|w.deque|, i requires 0 <= i < |w.deque| => assert w.deque[i] in w.deque; w.admitted[w.deque[i]])
  }

  function Pruned(w: Window, now: nat): (kept: seq<nat>)
    requires Numbered(w)
    ensures |kept| <= |w.deque| && kept == w.deque[|w.deque| - |kept|..]
  {
    PruneKeeps(Times(w), Cutoff(now));
    w.deque[|w.deque| - |Prune(Times(w), Cutoff(now))|..]
  }

  function Next(w: Window, maxRpm: nat, step: Step): Window
    requires Numbered(w)
  {
    match step
    case Push(id) =>
      if id in w.pending then Window(w.admitted, w.deque + [id], w.pending - {id}) else w
    case Check(now, willing) =>
      var kept := Pruned(w, now);
      if |kept| < maxRpm && willing then Window(w.admitted + [now], kept, w.pending + {|w.admitted|})
      else Window(w.admitted, kept, w.pending)
  }

  /** A reading the limiter handles: the very first instant, or at least one window after it. */
  predicate SafeReading(now: nat) {
    now == 0 || now >= WINDOW
  }

  /** A step that can happen: the clock does not run backwards, and at most `callers` grants are between
      their check and their push. */
  predicate Legal(w: Window, last: nat, callers: nat, step: Step) {
    step.Check? ==> last <= step.now && (step.willing ==> |w.pending| < callers)
  }

  /** Grants `j` to `e` were given within one closed window. */
  predicate Within(admitted: seq<nat>, j: nat, e: nat)
    requires j <= e < |admitted|
  {
    admitted[e] <= admitted[j] + WINDOW
  }

  /** No closed window of the whole history holds more than `limit` grants. */
  ghost predicate Bounded(admitted: seq<nat>, limit: int) {
    forall j, e :: 0 <= j <= e < |admitted| && Within(admitted, j, e) ==> e - j + 1 <= limit
  }

  ghost predicate Sorted(admitted: seq<nat>, last: nat) {
    && (forall i, j :: 0 <= i <= j < |admitted| ==> admitted[i] <= admitted[j])
    && (forall i :: 0 <= i < |admitted| ==> admitted[i] <= last)
  }

  /** What every step keeps. A grant that is neither queued nor pending is older than the last cutoff. */
  ghost predicate Invariant(w: Window, last: nat, maxRpm: nat, callers: nat) {
    && Numbered(w) && Sorted(w.admitted, last) && |w.pending| <= callers
    && (forall id :: 0 <= id < |w.admitted| ==> id in w.deque || id in w.pending || w.admitted[id] < Cutoff(last))
    && Bounded(w.admitted, maxRpm + callers - 1)
  }

  lemma {:induction false} PruneKeepsYoung(w: Window, now: nat, id: nat)
    requires Numbered(w) && id in w.deque && w.admitted[id] >= Cutoff(now)
    ensures id in Pruned(w, now)
  {
    hide *;
    PrunedAreOld(w, now);
    var i :| 0 <= i < |w.deque| && w.deque[i] == id;
    assert i >= |w.deque| - |Pruned(w, now)|;
    AtTheEnd(w.deque, Pruned(w, now), i);
  }

  lemma {:induction false} AtTheEnd(deque: seq<nat>, kept: seq<nat>, i: nat)
    requires |kept| <= |deque| && kept == deque[|deque| - |kept|..] && |deque| - |kept| <= i < |deque|
    ensures deque[i] in kept
  {
    assert kept[i - (|deque| - |kept|)] == deque[i];
  }

  /** A range of numbers that all occur in a sequence or a set is no longer than both together. */
  lemma {:induction false} RangeFits(j: nat, n: nat, queue: seq<nat>, pending: set<nat>)
    requires j <= n && forall id :: j <= id < n ==> id in queue || id in pending
    ensures n - j <= |queue| + |pending|
    decreases n
  {
    if j < n {
      var last := n - 1;
      if last in pending {
        RangeFits(j, last, queue, pending - {last});
      } else {
        var i :| 0 <= i < |queue| && queue[i] == last;
        var rest := queue[..i] + queue[i + 1..];
        forall id | j <= id < last ensures id in rest || id in pending {
          if id in queue {
            var k :| 0 <= k < |queue| && queue[k] == id;
            assert rest[if k < i then k else k - 1] == id;
          }
        }
        RangeFits(j, last, rest, pending);
      }
    }
  }

  lemma {:induction false} CutoffMonotone(last: nat, now: nat)
    requires last <= now && SafeReading(now) && SafeReading(last)
    ensures Cutoff(last) <= Cutoff(now)
  {
  }

  /** A new grant does not overfill any window that ends with it. */
  lemma {:induction false} GrantIsBounded(w: Window, last: nat, maxRpm: nat, callers: nat, now: nat, j: nat)
    requires Invariant(w, last, maxRpm, callers) && last <= now && SafeReading(now) && SafeReading(last)
    requires |Pruned(w, now)| < maxRpm && |w.pending| < callers
    requires j <= |w.admitted| && (j < |w.admitted| ==> now <= w.admitted[j] + WINDOW)
    ensures |w.admitted| - j + 1 <= maxRpm + callers - 1
  {
    CutoffMonotone(last, now);
    var n := |w.admitted|;
    forall id | j <= id < n ensures id in Pruned(w, now) || id in w.pending {
      assert w.admitted[j] <= w.admitted[id];
      assert w.admitted[id] >= Cutoff(now);
      if id !in w.pending {
        PruneKeepsYoung(w, now, id);
      }
    }
    RangeFits(j, n, Pruned(w, now), w.pending);
  }

  lemma {:induction false} CheckKeepsInvariant(w: Window, last: nat, maxRpm: nat, callers: nat, now: nat, willing: bool)
    requires Invariant(w, last, maxRpm, callers) && SafeReading(last) && SafeReading(now)
    requires Legal(w, last, callers, Check(now, willing))
    ensures Invariant(Next(w, maxRpm, Check(now, willing)), now, maxRpm, callers)
  {
    hide Pruned;
    var w' := Next(w, maxRpm, Check(now, willing));
    var n := |w.admitted|;
    CutoffMonotone(last, now);
    assert Numbered(w') by {
      assert forall id :: id in Pruned(w, now) ==> id in w.deque;
    }
    forall id | 0 <= id < |w'.admitted| ensures id in w'.deque || id in w'.pending || w'.admitted[id] < Cutoff(now) {
      if id < n && id in w.deque && w.admitted[id] >= Cutoff(now) {
        PruneKeepsYoung(w, now, id);
      }
    }
    forall j, e | 0 <= j <= e < |w'.admitted| && Within(w'.admitted, j, e) ensures e - j + 1 <= maxRpm + callers - 1 {
      if e == n {
        GrantIsBounded(w, last, maxRpm, callers, now, j);
      } else {
        assert Within(w.admitted, j, e);
      }
    }
  }

  lemma {:induction false} PushKeepsInvariant(w: Window, last: nat, maxRpm: nat, callers: nat, id: nat)
    requires Invariant(w, last, maxRpm, callers)
    ensures Invariant(Next(w, maxRpm, Push(id)), last, maxRpm, callers)
  {
    var w' := Next(w, maxRpm, Push(id));
    if id in w.pending {
      assert w'.deque[|w.deque|] == id;
      assert forall k :: k in w.deque ==> k in w'.deque;
    }
  }

  // --------------------------------------------------------------------------------------------
  // Whole runs
  // --------------------------------------------------------------------------------------------

  const EMPTY := Window([], [], {})

  function ClockAfter(last: nat, step: Step): nat {
    if step.Check? then step.now else last
  }

  /** The window after a run; every step of the run has to be legal. */
  ghost predicate Reaches(w: Window, last: nat, maxRpm: nat, callers: nat, steps: seq<Step>, w': Window)
    decreases |steps|
  {
    if steps == [] then w' == w
    else Numbered(w) && Legal(w, last, callers, steps[0])
         && Reaches(Next(w, maxRpm, steps[0]), ClockAfter(last, steps[0]), maxRpm, callers, steps[1..], w')
  }

  ghost predicate SafeReadings(steps: seq<Step>) {
    forall i :: 0 <= i < |steps| && steps[i].Check? ==> SafeReading(steps[i].now)
  }

  lemma {:induction false} RunIsBounded(w: Window, last: nat, maxRpm: nat, callers: nat, steps: seq<Step>, w': Window)
    requires Invariant(w, last, maxRpm, callers) && SafeReading(last) && SafeReadings(steps)
    requires Reaches(w, last, maxRpm, callers, steps, w')
    ensures Bounded(w'.admitted, maxRpm + callers - 1)
    decreases |steps|
  {
    if steps != [] {
      hide Invariant, Next;
      match steps[0] {
        case Check(now, willing) => CheckKeepsInvariant(w, last, maxRpm, callers, now, willing);
        case Push(id) => PushKeepsInvariant(w, last, maxRpm, callers, id);
      }
      RunIsBounded(Next(w, maxRpm, steps[0]), ClockAfter(last, steps[0]), maxRpm, callers, steps[1..], w');
    } else {
      assert Bounded(w.admitted, maxRpm + callers - 1);
    }
  }

  /** With at most `callers` grants between their check and their push, every closed 60-second interval of
      every run holds at most `maxRpm + callers - 1` grants; with one caller at a time, at most `maxRpm`. */
  lemma {:induction false} EveryWindowIsBounded(maxRpm: nat, callers: nat, steps: seq<Step>, w: Window)
    requires callers >= 1 && SafeReadings(steps) && Reaches(EMPTY, 0, maxRpm, callers, steps, w)
    ensures Bounded(w.admitted, maxRpm + callers - 1)
  {
    RunIsBounded(EMPTY, 0, maxRpm, callers, steps, w);
  }

  /** `n` grants in a row at the same instant. */
  function Burst(from: nat, n: nat, now: nat): seq<Step>
    decreases n
  {
    if n == 0 then [] else [Check(now, true), Push(from)] + Burst(from + 1, n - 1, now)
  }

  function Repeat(n: nat, now: nat): (times: seq<nat>)
    ensures |times| == n && forall i :: 0 <= i < n ==> times[i] == now
  {
    if n == 0 then [] else Repeat(n - 1, now) + [now]
  }

  function Ids(n: nat): (ids: seq<nat>)
    ensures |ids| == n && forall i :: 0 <= i < n ==> ids[i] == i
  {
    if n == 0 then [] else Ids(n - 1) + [n - 1]
  }

  function Filled(n: nat, now: nat): Window {
    Window(Repeat(n, now), Ids(n), {})
  }

  lemma {:induction false} NothingPruned(n: nat, now: nat)
    requires now < WINDOW
    ensures Numbered(Filled(n, now)) && Pruned(Filled(n, now), now) == Ids(n)
  {
    var w := Filled(n, now);
    var times := Times(w);
    assert n > 0 ==> times[0] == now;
    assert Prune(times, now) == times;
  }

  lemma {:induction false} BurstStep(n: nat, maxRpm: nat, now: nat)
    requires n < maxRpm && now < WINDOW
    ensures var checked := Next(Filled(n, now), maxRpm, Check(now, true));
            && Numbered(checked)
            && Next(checked, maxRpm, Push(n)) == Filled(n + 1, now)
  {
    hide Pruned;
    NothingPruned(n, now);
    var checked := Window(Repeat(n, now) + [now], Ids(n), {n});
    assert {} + {n} == {n} && {n} - {n} == {};
    assert Next(Filled(n, now), maxRpm, Check(now, true)) == checked;
    assert Next(checked, maxRpm, Push(n)) == Window(Repeat(n, now) + [now], Ids(n) + [n], {});
  }

  lemma {:induction false} ReachesOn(w: Window, last: nat, maxRpm: nat, callers: nat, step: Step, more: seq<Step>,
                                     w': Window)
    requires Numbered(w) && Legal(w, last, callers, step)
    requires Reaches(Next(w, maxRpm, step), ClockAfter(last, step), maxRpm, callers, more, w')
    ensures Reaches(w, last, maxRpm, callers, [step] + more, w')
  {
    hide Next, Numbered, Legal;
    assert ([step] + more)[1..] == more;
  }

  lemma {:induction false} BurstUnfold(from: nat, n: nat, now: nat, more: seq<Step>)
    ensures Burst(from, 0, now) + more == more
    ensures n > 0 ==> Burst(from, n, now) + more
                      == [Check(now, true)] + ([Push(from)] + (Burst(from + 1, n - 1, now) + more))
  {
  }

  lemma {:induction false} BurstFills(from: nat, n: nat, maxRpm: nat, last: nat, now: nat, more: seq<Step>, w': Window)
    requires from + n <= maxRpm && last <= now < WINDOW && (n == 0 ==> last == now)
    requires Reaches(Filled(from + n, now), now, maxRpm, 1, more, w')
    ensures Reaches(Filled(from, now), last, maxRpm, 1, Burst(from, n, now) + more, w')
    decreases n
  {
    hide Next, Pruned, Reaches, Burst, Times;
    BurstUnfold(from, n, now, more);
    if n > 0 {
      var rest := Burst(from + 1, n - 1, now) + more;
      BurstFills(from + 1, n - 1, maxRpm, now, now, more, w');
      BurstStep(from, maxRpm, now);
      NothingPruned(from, now);
      var checked := Next(Filled(from, now), maxRpm, Check(now, true));
      ReachesOn(checked, now, maxRpm, 1, Push(from), rest, w');
      ReachesOn(Filled(from, now), last, maxRpm, 1, Check(now, true), [Push(from)] + rest, w');
    }
  }

  lemma {:induction false} EarlyCheckForgets(n: nat, maxRpm: nat, now: nat)
    requires 0 < maxRpm && 0 < now < WINDOW
    ensures Next(Filled(n, now - 1), maxRpm, Check(now, true)) == Window(Repeat(n, now - 1) + [now], [], {n})
  {
    var w := Filled(n, now - 1);
    PruneAll(Times(w), now);
    assert {} + {n} == {n};
  }

  lemma {:induction false} PruneAll(times: seq<nat>, cutoff: nat)
    requires forall i :: 0 <= i < |times| ==> times[i] < cutoff
    ensures Prune(times, cutoff) == []
  {
    if times != [] {
      PruneAll(times[1..], cutoff);
    }
  }

  /** The readings excluded above have to be: at every instant in the first window of the clock, the
      cutoff forgets everything that came before, and a run with one caller at a time gives one grant too
      many within a millisecond. */
  lemma {:induction false} EveryUnsafeReadingOverfills(maxRpm: nat, now: nat)
    requires maxRpm > 0 && !SafeReading(now)
    ensures exists steps, w :: Reaches(EMPTY, 0, maxRpm, 1, steps, w)
                               && |w.admitted| == maxRpm + 1 && w.admitted[maxRpm] == w.admitted[0] + 1
                               && !Bounded(w.admitted, maxRpm)
  {
    hide Next;
    var last := [Check(now, true)];
    var full := Filled(maxRpm, now - 1);
    var w := Next(full, maxRpm, last[0]);
    EarlyCheckForgets(maxRpm, maxRpm, now);
    assert last[1..] == [];
    assert Reaches(full, now - 1, maxRpm, 1, last, w);
    BurstFills(0, maxRpm, maxRpm, 0, now - 1, last, w);
    assert Filled(0, now - 1) == EMPTY;
    var steps := Burst(0, maxRpm, now - 1) + last;
    assert Reaches(EMPTY, 0, maxRpm, 1, steps, w);
    assert Within(w.admitted, 0, maxRpm);
  }

  // --------------------------------------------------------------------------------------------
  // The token window
  // --------------------------------------------------------------------------------------------

  ghost predicate UsageSorted(recorded: seq<Usage>, last: nat) {
    && (forall i, j :: 0 <= i <= j < |recorded| ==> recorded[i].0 <= recorded[j].0)
    && (forall i :: 0 <= i < |recorded| ==> recorded[i].0 <= last)
  }

  /** The deque holds the newest records; what was dropped is older than the last cutoff. */
  ghost predicate UsageQueued(recorded: seq<Usage>, usage: seq<Usage>, last: nat) {
    && UsageSorted(recorded, last)
    && |usage| <= |recorded| && usage == recorded[|recorded| - |usage|..]
    && forall i :: 0 <= i < |recorded| - |usage| ==> recorded[i].0 < Cutoff(last)
  }

  /** No closed window of the whole history holds records of more than `limit` tokens. */
  ghost predicate TokensBounded(recorded: seq<Usage>, limit: nat) {
    forall j, e :: 0 <= j <= e < |recorded| && recorded[e].0 <= recorded[j].0 + WINDOW
      ==> Sum(recorded[j..e + 1]) <= limit
  }

  lemma {:induction false} SumConcat(a: seq<Usage>, b: seq<Usage>)
    ensures Sum(a + b) == Sum(a) + Sum(b)
  {
    if a == [] {
      assert a + b == b;
    } else {
      assert (a + b)[1..] == a[1..] + b;
      SumConcat(a[1..], b);
    }
  }

  lemma {:induction false} PruneKeepsQueue(recorded: seq<Usage>, usage: seq<Usage>, last: nat, now: nat)
    requires UsageQueued(recorded, usage, last) && last <= now && SafeReading(last) && SafeReading(now)
    ensures UsageQueued(recorded, PruneUsage(usage, Cutoff(now)), now)
  {
    hide *;
    CutoffMonotone(last, now);
    PruneUsageKeeps(usage, Cutoff(now));
    ShorterQueue(recorded, usage, PruneUsage(usage, Cutoff(now)), last, now);
  }

  lemma {:induction false} ShorterQueue(recorded: seq<Usage>, usage: seq<Usage>, kept: seq<Usage>, last: nat, now: nat)
    requires UsageQueued(recorded, usage, last) && last <= now && Cutoff(last) <= Cutoff(now)
    requires |kept| <= |usage| && kept == usage[|usage| - |kept|..]
    requires forall i :: 0 <= i < |usage| - |kept| ==> usage[i].0 < Cutoff(now)
    ensures UsageQueued(recorded, kept, now)
  {
    EndsTheQueue(recorded, usage, kept, (u: Usage) => u.0 < Cutoff(now));
    hide Cutoff;
  }

  /** A queue that ends a history still does so when old entries are dropped from its front. */
  lemma {:induction false} EndsTheQueue<T>(history: seq<T>, queue: seq<T>, kept: seq<T>, old_: T -> bool)
    requires |kept| <= |queue| <= |history| && queue == history[|history| - |queue|..]
    requires kept == queue[|queue| - |kept|..]
    requires forall i :: 0 <= i < |queue| - |kept| ==> old_(queue[i])
    ensures kept == history[|history| - |kept|..]
    ensures forall i :: |history| - |queue| <= i < |history| - |kept| ==> old_(history[i])
  {
    var d := |history| - |queue|;
    forall i | d <= i < |history| - |kept| ensures old_(history[i]) {
      assert queue[i - d] == history[i];
    }
  }

  // --------------------------------------------------------------------------------------------
  // What a check finds, told from the whole history
  // --------------------------------------------------------------------------------------------

  /** How many grants of the whole history lie in the closed window that ends now. */
  ghost function GrantsIn(admitted: seq<nat>, now: nat): nat {
    if admitted == [] then 0
    else (if now <= admitted[0] + WINDOW then 1 else 0) + GrantsIn(admitted[1..], now)
  }

  /** How many tokens the whole history records in the closed window that ends now. */
  ghost function TokensIn(recorded: seq<Usage>, now: nat): nat {
    if recorded == [] then 0
    else (if now <= recorded[0].0 + WINDOW then recorded[0].1 else 0) + TokensIn(recorded[1..], now)
  }

  /** The deque holds the newest grants; what was dropped is older than the last cutoff. */
  ghost predicate TimesQueued(admitted: seq<nat>, times: seq<nat>, last: nat) {
    && Sorted(admitted, last)
    && |times| <= |admitted| && times == admitted[|admitted| - |times|..]
    && forall i :: 0 <= i < |admitted| - |times| ==> admitted[i] < Cutoff(last)
  }

  lemma {:induction false} PruneKeepsTimes(admitted: seq<nat>, times: seq<nat>, last: nat, now: nat)
    requires TimesQueued(admitted, times, last) && last <= now && SafeReading(last) && SafeReading(now)
    ensures TimesQueued(admitted, Prune(times, Cutoff(now)), now)
  {
    CutoffMonotone(last, now);
    PruneKeeps(times, Cutoff(now));
    EndsTheQueue(admitted, times, Prune(times, Cutoff(now)), (t: nat) => t < Cutoff(now));
    hide Prune, Cutoff;
  }

  lemma {:induction false} GrantKeepsTimes(admitted: seq<nat>, times: seq<nat>, now: nat)
    requires TimesQueued(admitted, times, now)
    ensures TimesQueued(admitted + [now], times + [now], now)
  {
  }

  lemma {:induction false} WaitKeepsTimes(admitted: seq<nat>, times: seq<nat>, last: nat, now: nat)
    requires TimesQueued(admitted, times, last) && last <= now && SafeReading(last) && SafeReading(now)
    ensures TimesQueued(admitted, times, now)
  {
    CutoffMonotone(last, now);
  }

  lemma {:induction false} OldGrants(admitted: seq<nat>, now: nat, d: nat)
    requires d <= |admitted|
    requires forall i :: 0 <= i < d ==> admitted[i] + WINDOW < now
    requires forall i :: d <= i < |admitted| ==> now <= admitted[i] + WINDOW
    ensures GrantsIn(admitted, now) == |admitted| - d
  {
    if admitted != [] {
      OldGrants(admitted[1..], now, if d > 0 then d - 1 else 0);
    }
  }

  lemma {:induction false} OldRecords(recorded: seq<Usage>, now: nat, d: nat)
    requires d <= |recorded|
    requires forall i :: 0 <= i < d ==> recorded[i].0 + WINDOW < now
    requires forall i :: d <= i < |recorded| ==> now <= recorded[i].0 + WINDOW
    ensures TokensIn(recorded, now) == Sum(recorded[d..])
  {
    if recorded == [] {
      assert recorded[d..] == [];
    } else if d > 0 {
      OldRecords(recorded[1..], now, d - 1);
      assert recorded[1..][d - 1..] == recorded[d..];
    } else {
      OldRecords(recorded[1..], now, 0);
      assert recorded[1..][0..] == recorded[1..] && recorded[0..] == recorded;
    }
  }

  /** The queue just pruned holds exactly the grants of the window. */
  lemma {:induction false} PrunedIsWindow(admitted: seq<nat>, times: seq<nat>, last: nat, now: nat)
    requires TimesQueued(admitted, times, last) && last <= now && SafeReading(last) && SafeReading(now)
    ensures |Prune(times, Cutoff(now))| == GrantsIn(admitted, now)
  {
    hide *;
    PruneKeepsTimes(admitted, times, last, now);
    PruneKeeps(times, Cutoff(now));
    QueueIsWindow(admitted, Prune(times, Cutoff(now)), now);
  }

  lemma {:induction false} QueueIsWindow(admitted: seq<nat>, kept: seq<nat>, now: nat)
    requires TimesQueued(admitted, kept, now) && SafeReading(now) && (kept != [] ==> kept[0] >= Cutoff(now))
    ensures |kept| == GrantsIn(admitted, now)
  {
    var d := |admitted| - |kept|;
    forall i | d <= i < |admitted| ensures now <= admitted[i] + WINDOW {
      assert admitted[d] == kept[0];
    }
    OldGrants(admitted, now, d);
  }

  lemma {:induction false} PrunedUsageIsWindow(recorded: seq<Usage>, usage: seq<Usage>, last: nat, now: nat)
    requires UsageQueued(recorded, usage, last) && last <= now && SafeReading(last) && SafeReading(now)
    ensures Sum(PruneUsage(usage, Cutoff(now))) == TokensIn(recorded, now)
  {
    hide *;
    PruneKeepsQueue(recorded, usage, last, now);
    PruneUsageKeeps(usage, Cutoff(now));
    UsageIsWindow(recorded, PruneUsage(usage, Cutoff(now)), now);
  }

  lemma {:induction false} UsageIsWindow(recorded: seq<Usage>, kept: seq<Usage>, now: nat)
    requires UsageQueued(recorded, kept, now) && SafeReading(now) && (kept != [] ==> kept[0].0 >= Cutoff(now))
    ensures Sum(kept) == TokensIn(recorded, now)
  {
    var d := |recorded| - |kept|;
    forall i | d <= i < |recorded| ensures now <= recorded[i].0 + WINDOW {
      assert recorded[d] == kept[0];
    }
    OldRecords(recorded, now, d);
    hide Sum;
  }

  /** Both windows that end now have room, the sum of the tokens taken in 32 bits. */
  ghost predicate HasRoom(admitted: seq<nat>, recorded: seq<Usage>, c: Config, estimate: nat, now: nat) {
    GrantsIn(admitted, now) < c.maxRpm && TokensFit(recorded, c.maxTpm, estimate, now)
  }

  ghost predicate TokensFit(recorded: seq<Usage>, maxTpm: nat, estimate: nat, now: nat) {
    (TokensIn(recorded, now) + estimate) % U32 <= maxTpm
  }

  lemma {:induction false} TpmIsFit(recorded: seq<Usage>, usage: seq<Usage>, last: nat, now: nat, estimate: nat,
                                    maxTpm: nat)
    requires UsageQueued(recorded, usage, last) && last <= now && SafeReading(last) && SafeReading(now)
    ensures TpmOk(PruneUsage(usage, Cutoff(now)), estimate, maxTpm) <==> TokensFit(recorded, maxTpm, estimate, now)
  {
    PrunedUsageIsWindow(recorded, usage, last, now);
    AddInside(0, TokensIn(recorded, now), estimate);
    hide PruneUsage, Sum, TokensIn, UsageQueued, Cutoff;
  }

  /** The grants of a serialised run are queued in their order; at most the newest is not pushed yet. */
  ghost predicate Serial(w: Window, last: nat) {
    var n := |w.admitted| - |w.pending|;
    && Sorted(w.admitted, last)
    && (w.pending == {} || (w.admitted != [] && w.pending == {|w.admitted| - 1}))
    && |w.deque| <= n && (forall i :: 0 <= i < |w.deque| ==> w.deque[i] == n - |w.deque| + i)
    && forall i :: 0 <= i < n - |w.deque| ==> w.admitted[i] < Cutoff(last)
  }
  lemma {:induction false} SerialTimes(w: Window, last: nat)
    requires Serial(w, last) && Numbered(w) && w.pending == {}
    ensures TimesQueued(w.admitted, Times(w), last)
  {
    var n, d := |w.admitted|, |w.admitted| - |w.deque|;
    assert forall i :: 0 <= i < |w.deque| ==> Times(w)[i] == w.admitted[d..][i];
    assert Times(w) == w.admitted[d..];
  }

  lemma {:induction false} SerialNumbered(w: Window, last: nat)
    requires Serial(w, last)
    ensures Numbered(w)
  {
  }

  lemma {:induction false} CheckIsSerial(w: Window, last: nat, maxRpm: nat, step: Step)
    requires Serial(w, last) && Numbered(w) && SafeReading(last)
    requires step.Check? && Legal(w, last, 1, step) && SafeReading(step.now)
    ensures Serial(Next(w, maxRpm, step), step.now)
  {
    PrunedIsSerial(w, last, step.now);
    var kept := Pruned(w, step.now);
    hide Pruned;
    if |kept| < maxRpm && step.willing {
      NothingPending(w);
      GrantIsSerial(Window(w.admitted, kept, w.pending), step.now);
    }
  }

  lemma {:induction false} NothingPending(w: Window)
    requires |w.pending| < 1
    ensures w.pending == {}
  {
  }

  lemma {:induction false} GrantIsSerial(w: Window, now: nat)
    requires Serial(w, now) && w.pending == {}
    ensures Serial(Window(w.admitted + [now], w.deque, w.pending + {|w.admitted|}), now)
  {
    assert w.pending + {|w.admitted|} == {|w.admitted|};
  }

  lemma {:induction false} PrunedIsSerial(w: Window, last: nat, now: nat)
    requires Serial(w, last) && Numbered(w) && last <= now && SafeReading(last) && SafeReading(now)
    ensures Serial(Window(w.admitted, Pruned(w, now), w.pending), now)
  {
    CutoffMonotone(last, now);
    PrunedAreOld(w, now);
    hide Pruned, Cutoff, Numbered;
    var kept, n := Pruned(w, now), |w.admitted| - |w.pending|;
    forall i | 0 <= i < n - |kept| ensures w.admitted[i] < Cutoff(now) {
      if i >= n - |w.deque| {
        assert w.deque[i - (n - |w.deque|)] == i;
      }
    }
  }

  lemma {:induction false} PrunedAreOld(w: Window, now: nat)
    requires Numbered(w)
    ensures forall i :: 0 <= i < |w.deque| - |Pruned(w, now)| ==>
              w.deque[i] < |w.admitted| && w.admitted[w.deque[i]] < Cutoff(now)
  {
    PruneKeeps(Times(w), Cutoff(now));
    hide Prune, Cutoff;
    forall i | 0 <= i < |w.deque| - |Pruned(w, now)|
      ensures w.deque[i] < |w.admitted| && w.admitted[w.deque[i]] < Cutoff(now)
    {
      assert w.deque[i] in w.deque;
      assert Times(w)[i] < Cutoff(now);
    }
  }

  lemma {:induction false} PushIsSerial(w: Window, last: nat, maxRpm: nat, id: nat)
    requires Serial(w, last) && Numbered(w)
    ensures Serial(Next(w, maxRpm, Push(id)), last)
  {
    if id in w.pending {
      assert w.pending - {id} == {};
    }
  }

  lemma {:induction false} SerialRun(w: Window, last: nat, maxRpm: nat, steps: seq<Step>, w': Window)
    requires Serial(w, last) && SafeReading(last) && SafeReadings(steps)
    requires Reaches(w, last, maxRpm, 1, steps, w')
    ensures Serial(w', LastReading(last, steps)) && SafeReading(LastReading(last, steps))
    decreases |steps|
  {
    if steps != [] {
      var next := Next(w, maxRpm, steps[0]);
      match steps[0] {
        case Check(now, willing) => CheckIsSerial(w, last, maxRpm, steps[0]);
        case Push(id) => PushIsSerial(w, last, maxRpm, id);
      }
      hide Serial, Next, Legal;
      SerialRun(next, ClockAfter(last, steps[0]), maxRpm, steps[1..], w');
    }
  }

  /** The clock after a run. */
  function LastReading(last: nat, steps: seq<Step>): nat
    decreases |steps|
  {
    if steps == [] then last else LastReading(ClockAfter(last, steps[0]), steps[1..])
  }

  /** With one caller at a time, a call that is otherwise willing is refused exactly when `maxRpm` grants of the whole
      history lie in the closed window that ends now. */
  lemma {:induction false} RefusedExactly(maxRpm: nat, steps: seq<Step>, w: Window, now: nat)
    requires SafeReadings(steps) && Reaches(EMPTY, 0, maxRpm, 1, steps, w)
    requires LastReading(0, steps) <= now && SafeReading(now) && w.pending == {}
    ensures Numbered(w)
    ensures Next(w, maxRpm, Check(now, true)).admitted
            == if GrantsIn(w.admitted, now) >= maxRpm then w.admitted else w.admitted + [now]
  {
    var last := LastReading(0, steps);
    assert Serial(EMPTY, 0);
    SerialRun(EMPTY, 0, maxRpm, steps, w);
    SerialNumbered(w, last);
    SerialTimes(w, last);
    PrunedIsWindow(w.admitted, Times(w), last, now);
    TimesAfterCheck(w, maxRpm, now);
    hide Serial, Reaches, Prune, Times, GrantsIn;
  }

  // --------------------------------------------------------------------------------------------
  // The token window as a system of steps
  // --------------------------------------------------------------------------------------------

  /** A grant: when and for how much, how many records there were, and which grants were still unrecorded. */
  datatype Grant = Grant(at: nat, estimate: nat, seen: nat, overlapping: set<nat>)

  /** All records and whose they are, the records still queued, all grants in their order, and those granted but
      not recorded. */
  datatype Tokens = Tokens(recorded: seq<Usage>, owners: seq<nat>, usage: seq<Usage>, grants: seq<Grant>,
                           pending: set<nat>)

  /** A request for tokens, where `willing` is everything else that has to hold for a grant; a record of what a
      grant really used; a grant that ends without a record. */
  datatype TokenStep = Ask(now: nat, estimate: nat, willing: bool) | Record(id: nat, at: nat, actual: nat)
    | Abandon(id: nat)

  function TokenNext(s: Tokens, maxTpm: nat, step: TokenStep): Tokens {
    match step
    case Ask(now, estimate, willing) =>
      var kept := PruneUsage(s.usage, Cutoff(now));
      if TpmOk(kept, estimate, maxTpm) && willing then
        s.(usage := kept, grants := s.grants + [Grant(now, estimate, |s.recorded|, s.pending)],
           pending := s.pending + {|s.grants|})
      else s.(usage := kept)
    case Record(id, at, actual) =>
      if id in s.pending then
        Tokens(s.recorded + [(at, actual)], s.owners + [id], s.usage + [(at, actual)], s.grants, s.pending - {id})
      else s
    case Abandon(id) => s.(pending := s.pending - {id})
  }

  /** How many grants are unrecorded at most, the most that is asked for, and by how much a use can exceed that. */
  datatype Load = Load(callers: nat, most: nat, excess: nat)

  /** A step that can happen under the load, while the clock does not run backwards. */
  predicate TokenLegal(s: Tokens, last: nat, load: Load, step: TokenStep) {
    match step
    case Ask(now, estimate, willing) =>
      last <= now && SafeReading(now) && estimate <= load.most && (willing ==> |s.pending| < load.callers)
    case Record(id, at, actual) =>
      && last <= at && SafeReading(at)
      && (id in s.pending ==> id < |s.grants| && actual <= s.grants[id].estimate + load.excess)
    case Abandon(_) => true
  }

  function TokenClock(last: nat, step: TokenStep): nat {
    match step
    case Ask(now, _, _) => now
    case Record(_, at, _) => at
    case Abandon(_) => last
  }

  predicate TokenReaches(s: Tokens, last: nat, maxTpm: nat, load: Load, steps: seq<TokenStep>, s': Tokens)
    decreases |steps|
  {
    if steps == [] then s' == s
    else TokenLegal(s, last, load, steps[0])
         && TokenReaches(TokenNext(s, maxTpm, steps[0]), TokenClock(last, steps[0]), maxTpm, load,
                         steps[1..], s')
  }

  /** Records belong to different grants, made earlier and for as much but for the excess, and no longer pending. */
  ghost predicate Owned(s: Tokens, excess: nat) {
    && |s.owners| == |s.recorded|
    && (forall i :: 0 <= i < |s.owners| ==> s.owners[i] < |s.grants| && s.owners[i] !in s.pending)
    && (forall i, j :: 0 <= i < j < |s.owners| ==> s.owners[i] != s.owners[j])
    && (forall i :: 0 <= i < |s.owners| ==>
          var g := s.grants[s.owners[i]];
          g.seen <= i && g.at <= s.recorded[i].0 && s.recorded[i].1 <= g.estimate + excess)
    && (forall id :: id in s.pending ==> id < |s.grants|)
  }

  /** Whatever grant `g` did not see recorded, and is older, was unrecorded when it was made. */
  ghost predicate Overlaps(s: Tokens, g: nat)
    requires g < |s.grants| && |s.owners| == |s.recorded|
  {
    && (forall h :: h in s.grants[g].overlapping ==> h < g)
    && (forall i :: s.grants[g].seen <= i < |s.owners| && s.owners[i] < g ==> s.owners[i] in s.grants[g].overlapping)
    && (forall h :: h in s.pending && h < g ==> h in s.grants[g].overlapping)
  }

  /** What the check of grant `g` found in its window. */
  ghost predicate Checked(s: Tokens, g: nat, maxTpm: nat)
    requires g < |s.grants|
  {
    && s.grants[g].seen <= |s.recorded|
    && forall j :: 0 <= j <= s.grants[g].seen
                   && (j < s.grants[g].seen ==> s.recorded[j].0 >= Cutoff(s.grants[g].at))
         ==> Sum(s.recorded[j..s.grants[g].seen]) + s.grants[g].estimate <= maxTpm
  }

  ghost predicate GrantFits(s: Tokens, g: nat, last: nat, maxTpm: nat, load: Load)
    requires g < |s.grants| && |s.owners| == |s.recorded|
  {
    && s.grants[g].at <= last && SafeReading(s.grants[g].at)
    && s.grants[g].estimate <= load.most && |s.grants[g].overlapping| < load.callers
    && Overlaps(s, g) && Checked(s, g, maxTpm)
  }

  ghost predicate TokenInvariant(s: Tokens, last: nat, maxTpm: nat, load: Load) {
    && SafeReading(last) && UsageQueued(s.recorded, s.usage, last) && Owned(s, load.excess)
    && |s.pending| <= load.callers
    && forall g :: 0 <= g < |s.grants| ==> GrantFits(s, g, last, maxTpm, load)
  }

  /** What one closed window can hold. */
  function Limit(maxTpm: nat, load: Load): nat
    requires load.callers > 0
  {
    maxTpm + load.excess + (load.callers - 1) * (load.most + load.excess)
  }

  lemma {:induction false} OneMore(n: nat, most: nat)
    requires n > 0
    ensures (n - 1) * most + most == n * most
  {
  }

  lemma {:induction false} SumSnoc(recorded: seq<Usage>, j: nat, e: nat)
    requires j <= e < |recorded|
    ensures Sum(recorded[j..e + 1]) == Sum(recorded[j..e]) + recorded[e].1
  {
    assert recorded[j..e + 1] == recorded[j..e] + [recorded[e]];
    SumConcat(recorded[j..e], [recorded[e]]);
    assert Sum([recorded[e]]) == recorded[e].1 + Sum([]);
  }

  /** Records of different owners out of a set hold at most `most` tokens each. */
  lemma {:induction false} SumOfOwned(s: Tokens, j: nat, e: nat, owners: set<nat>, most: nat)
    requires |s.owners| == |s.recorded| && j <= e <= |s.recorded|
    requires forall i, k :: j <= i < k < e ==> s.owners[i] != s.owners[k]
    requires forall i :: j <= i < e ==> s.owners[i] in owners && s.recorded[i].1 <= most
    ensures Sum(s.recorded[j..e]) <= |owners| * most
    decreases e
  {
    if j < e {
      SumSnoc(s.recorded, j, e - 1);
      SumOfOwned(s, j, e - 1, owners - {s.owners[e - 1]}, most);
      OneMore(|owners|, most);
    } else {
      assert s.recorded[j..e] == [];
    }
  }

  /** The same with one owner `g` set apart, who has his own limit. */
  lemma {:induction false} SumOfOthers(s: Tokens, j: nat, e: nat, owners: set<nat>, most: nat, g: nat, own: nat)
    requires |s.owners| == |s.recorded| && j <= e <= |s.recorded|
    requires forall i, k :: j <= i < k < e ==> s.owners[i] != s.owners[k]
    requires forall i :: j <= i < e ==>
               if s.owners[i] == g then s.recorded[i].1 <= own else s.owners[i] in owners && s.recorded[i].1 <= most
    ensures Sum(s.recorded[j..e]) <= own + |owners| * most
    decreases e
  {
    if j < e {
      SumSnoc(s.recorded, j, e - 1);
      if s.owners[e - 1] == g {
        SumOfOwned(s, j, e - 1, owners, most);
      } else {
        SumOfOthers(s, j, e - 1, owners - {s.owners[e - 1]}, most, g, own);
        OneMore(|owners|, most);
      }
    } else {
      assert s.recorded[j..e] == [];
    }
  }

  /** The latest grant that has a record in `j..e`. */
  lemma {:induction false} LatestOwner(s: Tokens, j: nat, e: nat) returns (i: nat)
    requires |s.owners| == |s.recorded| && j < e <= |s.recorded|
    ensures j <= i < e && forall k :: j <= k < e ==> s.owners[k] <= s.owners[i]
    decreases e
  {
    i := e - 1;
    if j < e - 1 {
      var k := LatestOwner(s, j, e - 1);
      if s.owners[k] > s.owners[i] {
        i := k;
      }
    }
  }

  lemma {:induction false} LimitIs(maxTpm: nat, load: Load)
    requires load.callers > 0
    ensures Limit(maxTpm, load) == maxTpm + load.excess + (load.callers - 1) * (load.most + load.excess)
  {
  }

  lemma {:induction false} SmallerProduct(a: nat, b: nat, most: nat)
    requires a <= b
    ensures a * most <= b * most
  {
  }

  lemma {:induction false} LaterRecords(s: Tokens, last: nat, maxTpm: nat, load: Load, g: nat, k: nat)
    requires TokenInvariant(s, last, maxTpm, load)
    requires g < |s.grants| && s.grants[g].seen <= k < |s.owners| && s.owners[k] <= g
    ensures if s.owners[k] == g then s.recorded[k].1 <= s.grants[g].estimate + load.excess
            else s.owners[k] in s.grants[g].overlapping && s.recorded[k].1 <= load.most + load.excess
  {
    assert GrantFits(s, g, last, maxTpm, load);
    assert GrantFits(s, s.owners[k], last, maxTpm, load);
    hide Checked, UsageQueued;
  }

  lemma {:induction false} GrantOf(s: Tokens, last: nat, maxTpm: nat, load: Load, i: nat)
    requires TokenInvariant(s, last, maxTpm, load) && i < |s.recorded|
    ensures |s.owners| == |s.recorded| && s.owners[i] < |s.grants|
    ensures forall k, l :: 0 <= k < l < |s.owners| ==> s.owners[k] != s.owners[l]
    ensures var g := s.grants[s.owners[i]];
            && g.seen <= i && g.at <= s.recorded[i].0 && |g.overlapping| < load.callers
            && Checked(s, s.owners[i], maxTpm)
  {
    assert GrantFits(s, s.owners[i], last, maxTpm, load);
    hide Checked, Overlaps, UsageQueued;
  }

  /** The window is charged to its latest grant: what that grant saw, what it asked for, and what was
      unrecorded then. */
  lemma {:induction false} WindowIsBounded(s: Tokens, last: nat, maxTpm: nat, load: Load, j: nat, e: nat)
    requires TokenInvariant(s, last, maxTpm, load)
    requires j < e <= |s.recorded| && s.recorded[e - 1].0 <= s.recorded[j].0 + WINDOW
    requires load.callers > 0
    ensures Sum(s.recorded[j..e]) <= Limit(maxTpm, load)
  {
    hide *;
    GrantOf(s, last, maxTpm, load, j);
    var i := LatestOwner(s, j, e);
    GrantOf(s, last, maxTpm, load, i);
    InWindow(s, last, maxTpm, load, j, e, i);
    var grant := s.grants[s.owners[i]];
    var m, each := if grant.seen <= j then j else grant.seen, load.most + load.excess;
    WindowFrom(s, s.owners[i], maxTpm, j);
    LaterUses(s, last, maxTpm, load, e, s.owners[i], m);
    SumOfOthers(s, m, e, grant.overlapping, each, s.owners[i], grant.estimate + load.excess);
    SumSplit(s.recorded, j, m, e);
    SmallerProduct(|grant.overlapping|, load.callers - 1, each);
    LimitIs(maxTpm, load);
  }

  lemma {:induction false} InWindow(s: Tokens, last: nat, maxTpm: nat, load: Load, j: nat, e: nat, i: nat)
    requires TokenInvariant(s, last, maxTpm, load) && j <= i < e <= |s.recorded|
    requires s.recorded[e - 1].0 <= s.recorded[j].0 + WINDOW
    ensures |s.owners| == |s.recorded| && s.owners[i] < |s.grants|
    ensures s.recorded[j].0 >= Cutoff(s.grants[s.owners[i]].at)
  {
    GrantOf(s, last, maxTpm, load, i);
    assert UsageSorted(s.recorded, last);
    assert s.recorded[i].0 <= s.recorded[e - 1].0;
    assert GrantFits(s, s.owners[i], last, maxTpm, load);
    hide Owned, Checked, Overlaps;
  }

  lemma {:induction false} LaterUses(s: Tokens, last: nat, maxTpm: nat, load: Load, e: nat, g: nat, m: nat)
    requires TokenInvariant(s, last, maxTpm, load) && |s.owners| == |s.recorded| && e <= |s.recorded|
    requires g < |s.grants| && s.grants[g].seen <= m && forall k :: m <= k < e ==> s.owners[k] <= g
    ensures forall k :: m <= k < e ==>
              if s.owners[k] == g then s.recorded[k].1 <= s.grants[g].estimate + load.excess
              else s.owners[k] in s.grants[g].overlapping && s.recorded[k].1 <= load.most + load.excess
  {
    hide TokenInvariant;
    forall k | m <= k < e
      ensures if s.owners[k] == g then s.recorded[k].1 <= s.grants[g].estimate + load.excess
              else s.owners[k] in s.grants[g].overlapping && s.recorded[k].1 <= load.most + load.excess
    {
      LaterRecords(s, last, maxTpm, load, g, k);
    }
  }

  lemma {:induction false} SumSplit(recorded: seq<Usage>, j: nat, m: nat, e: nat)
    requires j <= m <= e <= |recorded|
    ensures Sum(recorded[j..e]) == Sum(recorded[j..m]) + Sum(recorded[m..e])
  {
    assert recorded[j..e] == recorded[j..m] + recorded[m..e];
    SumConcat(recorded[j..m], recorded[m..e]);
  }

  lemma {:induction false} WindowFrom(s: Tokens, g: nat, maxTpm: nat, j: nat)
    requires g < |s.grants| && j <= |s.recorded| && Checked(s, g, maxTpm)
    requires j < |s.recorded| ==> s.recorded[j].0 >= Cutoff(s.grants[g].at)
    ensures var m := if s.grants[g].seen <= j then j else s.grants[g].seen;
            Sum(s.recorded[j..m]) + s.grants[g].estimate <= maxTpm
  {
    var seen := s.grants[g].seen;
    assert Sum(s.recorded[seen..seen]) + s.grants[g].estimate <= maxTpm;
    assert s.recorded[j..j] == [] == s.recorded[seen..seen];
  }

  lemma {:induction false} InvariantBounds(s: Tokens, last: nat, maxTpm: nat, load: Load)
    requires TokenInvariant(s, last, maxTpm, load) && load.callers > 0
    ensures TokensBounded(s.recorded, Limit(maxTpm, load))
  {
    forall j, e | 0 <= j <= e < |s.recorded| && s.recorded[e].0 <= s.recorded[j].0 + WINDOW
      ensures Sum(s.recorded[j..e + 1]) <= Limit(maxTpm, load)
    {
      WindowIsBounded(s, last, maxTpm, load, j, e + 1);
    }
  }

  /** The queue just pruned is one closed window. */
  lemma {:induction false} PrunedIsBounded(recorded: seq<Usage>, kept: seq<Usage>, now: nat, limit: nat)
    requires UsageQueued(recorded, kept, now) && TokensBounded(recorded, limit) && SafeReading(now)
    requires kept != [] ==> kept[0].0 >= Cutoff(now)
    ensures Sum(kept) <= limit
  {
    if kept != [] {
      var n, d := |recorded|, |recorded| - |kept|;
      assert recorded[d] == kept[0];
      assert recorded[n - 1].0 <= recorded[d].0 + WINDOW;
      assert recorded[d..n - 1 + 1] == kept;
    }
  }

  lemma {:induction false} TpmMeans(kept: seq<Usage>, estimate: nat, maxTpm: nat)
    requires Sum(kept) + estimate < U32
    ensures TpmOk(kept, estimate, maxTpm) <==> Sum(kept) + estimate <= maxTpm
  {
    hide Sum;
  }

  /** Every window that reaches back no further than the cutoff is part of what was kept. */
  lemma {:induction false} KeptCovers(recorded: seq<Usage>, kept: seq<Usage>, now: nat, j: nat)
    requires UsageQueued(recorded, kept, now) && j <= |recorded|
    requires j < |recorded| ==> recorded[j].0 >= Cutoff(now)
    ensures Sum(recorded[j..]) <= Sum(kept)
  {
    var d := |recorded| - |kept|;
    assert j >= d;
    assert kept == recorded[d..j] + recorded[j..];
    SumConcat(recorded[d..j], recorded[j..]);
  }

  /** A grant leaves the window it looked at within the limit: the 32-bit sum has not wrapped. */
  lemma {:induction false} AskIsBounded(s: Tokens, last: nat, maxTpm: nat, load: Load, now: nat,
                                        estimate: nat)
    requires TokenInvariant(s, last, maxTpm, load) && load.callers > 0 && Limit(maxTpm, load) + load.most < U32
    requires last <= now && SafeReading(now) && estimate <= load.most
    ensures var kept := PruneUsage(s.usage, Cutoff(now));
            UsageQueued(s.recorded, kept, now) && (TpmOk(kept, estimate, maxTpm) ==> Sum(kept) + estimate <= maxTpm)
  {
    var kept := PruneUsage(s.usage, Cutoff(now));
    PruneKeepsQueue(s.recorded, s.usage, last, now);
    PruneUsageKeeps(s.usage, Cutoff(now));
    hide TokenInvariant, UsageQueued, TokensBounded, Limit, PruneUsage, Sum, Cutoff, TpmOk;
    InvariantBounds(s, last, maxTpm, load);
    PrunedIsBounded(s.recorded, kept, now, Limit(maxTpm, load));
    TpmMeans(kept, estimate, maxTpm);
  }

  lemma {:induction false} AskKeepsInvariant(s: Tokens, last: nat, maxTpm: nat, load: Load,
                                             step: TokenStep)
    requires TokenInvariant(s, last, maxTpm, load) && load.callers > 0 && Limit(maxTpm, load) + load.most < U32
    requires step.Ask? && TokenLegal(s, last, load, step)
    ensures TokenInvariant(TokenNext(s, maxTpm, step), step.now, maxTpm, load)
  {
    var kept := PruneUsage(s.usage, Cutoff(step.now));
    AskIsBounded(s, last, maxTpm, load, step.now, step.estimate);
    AskKeepsOwned(s, maxTpm, step, load.excess);
    hide UsageQueued, PruneUsage, TpmOk, Owned, Cutoff, Limit, GrantFits;
    if TpmOk(kept, step.estimate, maxTpm) && step.willing {
      AskGrants(s, last, maxTpm, load, step, kept);
    } else {
      PruningContinues(s, kept, load.excess);
      OldGrantsStay(s, s.(usage := kept), last, step.now, maxTpm, load);
    }
  }

  lemma {:induction false} PruningContinues(s: Tokens, kept: seq<Usage>, excess: nat)
    requires Owned(s, excess)
    ensures Continues(s, s.(usage := kept))
  {
  }

  lemma {:induction false} AskGrants(s: Tokens, last: nat, maxTpm: nat, load: Load, step: TokenStep,
                                     kept: seq<Usage>)
    requires TokenInvariant(s, last, maxTpm, load)
    requires step.Ask? && TokenLegal(s, last, load, step) && step.willing
    requires UsageQueued(s.recorded, kept, step.now) && Sum(kept) + step.estimate <= maxTpm
    ensures var s' := s.(usage := kept, pending := s.pending + {|s.grants|},
                         grants := s.grants + [Grant(step.now, step.estimate, |s.recorded|, s.pending)]);
            && |s'.pending| <= load.callers
            && forall g :: 0 <= g < |s'.grants| ==> GrantFits(s', g, step.now, maxTpm, load)
  {
    var s' := s.(usage := kept, pending := s.pending + {|s.grants|},
                 grants := s.grants + [Grant(step.now, step.estimate, |s.recorded|, s.pending)]);
    hide UsageQueued, GrantFits, Owned;
    assert Owned(s, load.excess);
    NewGrantFits(s, s', step, kept, maxTpm, load);
    GrantContinues(s, s', load.excess);
    OldGrantsStay(s, s', last, step.now, maxTpm, load);
  }

  lemma {:induction false} GrantContinues(s: Tokens, s': Tokens, excess: nat)
    requires Owned(s, excess) && s'.recorded == s.recorded && s'.owners == s.owners
    requires s'.pending == s.pending + {|s.grants|}
    requires |s'.grants| == |s.grants| + 1 && s'.grants[..|s.grants|] == s.grants
    ensures Continues(s, s')
  {
  }

  lemma {:induction false} AskKeepsOwned(s: Tokens, maxTpm: nat, step: TokenStep, excess: nat)
    requires Owned(s, excess) && step.Ask?
    ensures Owned(TokenNext(s, maxTpm, step), excess)
  {
    hide PruneUsage, TpmOk, Cutoff;
  }

  /** What a step may not do, and then every grant stays as it is. */
  ghost predicate Continues(s: Tokens, s': Tokens) {
    && |s.owners| == |s.recorded| <= |s'.recorded| == |s'.owners|
    && |s.grants| <= |s'.grants| && s'.grants[..|s.grants|] == s.grants
    && s'.recorded[..|s.recorded|] == s.recorded && s'.owners[..|s.owners|] == s.owners
    && (forall i :: |s.owners| <= i < |s'.owners| ==> s'.owners[i] in s.pending)
    && (forall h :: h in s'.pending && h < |s.grants| ==> h in s.pending)
  }

  lemma {:induction false} OldGrantsStay(s: Tokens, s': Tokens, last: nat, now: nat, maxTpm: nat, load: Load)
    requires TokenInvariant(s, last, maxTpm, load) && last <= now && Continues(s, s')
    ensures forall g :: 0 <= g < |s.grants| ==> GrantFits(s', g, now, maxTpm, load)
  {
    forall g | 0 <= g < |s.grants| ensures GrantFits(s', g, now, maxTpm, load) {
      assert s'.grants[..|s.grants|][g] == s.grants[g];
      assert GrantFits(s, g, last, maxTpm, load);
      hide GrantFits, TokenInvariant;
      GrantStays(s, s', g, last, now, maxTpm, load);
    }
  }

  lemma {:induction false} GrantStays(s: Tokens, s': Tokens, g: nat, last: nat, now: nat, maxTpm: nat, load: Load)
    requires |s.owners| == |s.recorded| && |s'.owners| == |s'.recorded| && last <= now
    requires g < |s.grants| <= |s'.grants| && s'.grants[g] == s.grants[g]
    requires |s.recorded| <= |s'.recorded| && s'.recorded[..|s.recorded|] == s.recorded
    requires s'.owners[..|s.owners|] == s.owners
    requires forall i :: |s.owners| <= i < |s'.owners| ==> s'.owners[i] in s.pending
    requires forall h :: h in s'.pending && h < g ==> h in s.pending
    requires GrantFits(s, g, last, maxTpm, load)
    ensures GrantFits(s', g, now, maxTpm, load)
  {
    OverlapsStay(s, s', g);
    CheckedStays(s, s', g, maxTpm);
    hide Overlaps, Checked;
  }

  lemma {:induction false} OverlapsStay(s: Tokens, s': Tokens, g: nat)
    requires |s.owners| == |s.recorded| && |s'.owners| == |s'.recorded|
    requires g < |s.grants| <= |s'.grants| && s'.grants[g] == s.grants[g]
    requires |s.owners| <= |s'.owners| && s'.owners[..|s.owners|] == s.owners
    requires forall i :: |s.owners| <= i < |s'.owners| ==> s'.owners[i] in s.pending
    requires forall h :: h in s'.pending && h < g ==> h in s.pending
    requires Overlaps(s, g)
    ensures Overlaps(s', g)
  {
    var seen := s.grants[g].seen;
    forall i | seen <= i < |s'.owners| && s'.owners[i] < g ensures s'.owners[i] in s.grants[g].overlapping {
      if i < |s.owners| {
        assert s'.owners[..|s.owners|][i] == s.owners[i];
      }
    }
  }

  lemma {:induction false} CheckedStays(s: Tokens, s': Tokens, g: nat, maxTpm: nat)
    requires g < |s.grants| <= |s'.grants| && s'.grants[g] == s.grants[g]
    requires |s.recorded| <= |s'.recorded| && s'.recorded[..|s.recorded|] == s.recorded
    requires Checked(s, g, maxTpm)
    ensures Checked(s', g, maxTpm)
  {
    var seen := s.grants[g].seen;
    hide Sum, Cutoff;
    forall j | 0 <= j <= seen && (j < seen ==> s'.recorded[j].0 >= Cutoff(s.grants[g].at))
      ensures Sum(s'.recorded[j..seen]) + s.grants[g].estimate <= maxTpm
    {
      SameFront(s.recorded, s'.recorded, j, seen);
    }
  }

  lemma {:induction false} SameFront(front: seq<Usage>, longer: seq<Usage>, j: nat, k: nat)
    requires |front| <= |longer| && longer[..|front|] == front && j <= k <= |front|
    ensures longer[j..k] == front[j..k] && (j < k ==> longer[j] == front[j])
  {
    assert forall i :: 0 <= i < |front| ==> longer[..|front|][i] == longer[i];
  }

  lemma {:induction false} NewGrantFits(s: Tokens, s': Tokens, step: TokenStep, kept: seq<Usage>, maxTpm: nat,
                                        load: Load)
    requires step.Ask? && SafeReading(step.now) && step.estimate <= load.most && |s.pending| < load.callers
    requires Owned(s, load.excess)
    requires UsageQueued(s.recorded, kept, step.now) && Sum(kept) + step.estimate <= maxTpm
    requires s' == s.(usage := kept, pending := s.pending + {|s.grants|},
                      grants := s.grants + [Grant(step.now, step.estimate, |s.recorded|, s.pending)])
    ensures GrantFits(s', |s.grants|, step.now, maxTpm, load)
  {
    forall j | 0 <= j <= |s.recorded| && (j < |s.recorded| ==> s.recorded[j].0 >= Cutoff(step.now))
      ensures Sum(s.recorded[j..|s.recorded|]) + step.estimate <= maxTpm
    {
      KeptCovers(s.recorded, kept, step.now, j);
      assert s.recorded[j..|s.recorded|] == s.recorded[j..];
    }
  }

  lemma {:induction false} RecordKeepsQueue(recorded: seq<Usage>, usage: seq<Usage>, last: nat, now: nat, actual: nat)
    requires UsageQueued(recorded, usage, last) && last <= now && SafeReading(last) && SafeReading(now)
    ensures UsageQueued(recorded + [(now, actual)], usage + [(now, actual)], now)
  {
    CutoffMonotone(last, now);
  }

  lemma {:induction false} RecordKeepsOwned(s: Tokens, maxTpm: nat, step: TokenStep, excess: nat)
    requires Owned(s, excess) && step.Record? && step.id in s.pending
    requires s.grants[step.id].seen <= |s.recorded| && s.grants[step.id].at <= step.at
    requires step.actual <= s.grants[step.id].estimate + excess
    ensures Owned(TokenNext(s, maxTpm, step), excess)
  {
  }

  lemma {:induction false} RecordFits(s: Tokens, last: nat, maxTpm: nat, load: Load, step: TokenStep)
    requires TokenInvariant(s, last, maxTpm, load)
    requires step.Record? && TokenLegal(s, last, load, step) && step.id in s.pending
    ensures Owned(TokenNext(s, maxTpm, step), load.excess)
  {
    assert GrantFits(s, step.id, last, maxTpm, load);
    hide Owned, UsageQueued, Overlaps;
    assert Checked(s, step.id, maxTpm);
    assert Owned(s, load.excess);
    RecordKeepsOwned(s, maxTpm, step, load.excess);
  }

  lemma {:induction false} NoRecordKeepsInvariant(s: Tokens, last: nat, maxTpm: nat, load: Load, now: nat)
    requires TokenInvariant(s, last, maxTpm, load) && last <= now && SafeReading(now)
    ensures TokenInvariant(s, now, maxTpm, load)
  {
    hide Owned;
    assert Owned(s, load.excess);
    ContinuesAlone(s, load.excess);
    OldGrantsStay(s, s, last, now, maxTpm, load);
    CutoffMonotone(last, now);
    hide GrantFits;
  }

  lemma {:induction false} ContinuesAlone(s: Tokens, excess: nat)
    requires Owned(s, excess)
    ensures Continues(s, s)
  {
  }

  lemma {:induction false} RecordContinues(s: Tokens, maxTpm: nat, step: TokenStep, excess: nat)
    requires Owned(s, excess) && step.Record? && step.id in s.pending
    ensures Continues(s, TokenNext(s, maxTpm, step))
    ensures |TokenNext(s, maxTpm, step).pending| <= |s.pending|
  {
    assert s.pending == s.pending - {step.id} + {step.id};
  }

  lemma {:induction false} RecordKeepsInvariant(s: Tokens, last: nat, maxTpm: nat, load: Load,
                                                step: TokenStep)
    requires TokenInvariant(s, last, maxTpm, load)
    requires step.Record? && TokenLegal(s, last, load, step)
    ensures TokenInvariant(TokenNext(s, maxTpm, step), step.at, maxTpm, load)
  {
    hide Owned, UsageQueued, GrantFits, Continues;
    if step.id in s.pending {
      var s' := TokenNext(s, maxTpm, step);
      RecordContinues(s, maxTpm, step, load.excess);
      OldGrantsStay(s, s', last, step.at, maxTpm, load);
      RecordFits(s, last, maxTpm, load, step);
      RecordKeepsQueue(s.recorded, s.usage, last, step.at, step.actual);
    } else {
      NoRecordKeepsInvariant(s, last, maxTpm, load, step.at);
    }
  }

  lemma {:induction false} AbandonKeepsInvariant(s: Tokens, last: nat, maxTpm: nat, load: Load, id: nat)
    requires TokenInvariant(s, last, maxTpm, load)
    ensures TokenInvariant(TokenNext(s, maxTpm, Abandon(id)), last, maxTpm, load)
  {
    var s' := TokenNext(s, maxTpm, Abandon(id));
    OldGrantsStay(s, s', last, last, maxTpm, load);
    hide GrantFits, UsageQueued;
    assert id in s.pending ==> s.pending == s'.pending + {id};
  }

  lemma {:induction false} TokenRun(s: Tokens, last: nat, maxTpm: nat, load: Load, steps: seq<TokenStep>,
                                    s': Tokens)
    requires TokenInvariant(s, last, maxTpm, load) && load.callers > 0 && Limit(maxTpm, load) + load.most < U32
    requires TokenReaches(s, last, maxTpm, load, steps, s')
    ensures exists now :: TokenInvariant(s', now, maxTpm, load)
    decreases |steps|
  {
    hide TokenInvariant, TokenNext, TokenLegal;
    if steps != [] {
      match steps[0] {
        case Ask(_, _, _) => AskKeepsInvariant(s, last, maxTpm, load, steps[0]);
        case Record(_, _, _) => RecordKeepsInvariant(s, last, maxTpm, load, steps[0]);
        case Abandon(id) => AbandonKeepsInvariant(s, last, maxTpm, load, id);
      }
      TokenRun(TokenNext(s, maxTpm, steps[0]), TokenClock(last, steps[0]), maxTpm, load, steps[1..], s');
    }
  }

  const IDLE := Tokens([], [], [], [], {})

  /** What every step keeps of the queue, whatever the load. */
  lemma {:induction false} QueueStep(s: Tokens, last: nat, maxTpm: nat, load: Load, step: TokenStep)
    requires UsageQueued(s.recorded, s.usage, last) && SafeReading(last) && TokenLegal(s, last, load, step)
    ensures var s' := TokenNext(s, maxTpm, step);
            && UsageQueued(s'.recorded, s'.usage, TokenClock(last, step)) && SafeReading(TokenClock(last, step))
  {
    match step
    case Ask(now, _, _) =>
      PruneKeepsQueue(s.recorded, s.usage, last, now);
      hide UsageQueued, PruneUsage, TpmOk;
    case Record(id, at, actual) =>
      RecordKeepsQueue(s.recorded, s.usage, last, at, actual);
      CutoffMonotone(last, at);
      hide Cutoff;
    case Abandon(_) =>
  }

  lemma {:induction false} QueueRun(s: Tokens, last: nat, maxTpm: nat, load: Load, steps: seq<TokenStep>, s': Tokens)
    requires UsageQueued(s.recorded, s.usage, last) && SafeReading(last)
    requires TokenReaches(s, last, maxTpm, load, steps, s')
    ensures UsageQueued(s'.recorded, s'.usage, LastTokenReading(last, steps))
    ensures SafeReading(LastTokenReading(last, steps))
    decreases |steps|
  {
    if steps != [] {
      QueueStep(s, last, maxTpm, load, steps[0]);
      hide UsageQueued, TokenNext, TokenLegal;
      QueueRun(TokenNext(s, maxTpm, steps[0]), TokenClock(last, steps[0]), maxTpm, load, steps[1..], s');
    }
  }

  function LastTokenReading(last: nat, steps: seq<TokenStep>): nat
    decreases |steps|
  {
    if steps == [] then last else LastTokenReading(TokenClock(last, steps[0]), steps[1..])
  }

  /** Under every load and interleaving, a request for tokens that is otherwise willing is refused exactly when it does
      not fit, in 32 bits, with the tokens that the whole history records in the closed window that ends now. */
  lemma {:induction false} TokensRefusedExactly(maxTpm: nat, load: Load, steps: seq<TokenStep>, s: Tokens, now: nat,
                                                estimate: nat)
    requires TokenReaches(IDLE, 0, maxTpm, load, steps, s)
    requires LastTokenReading(0, steps) <= now && SafeReading(now)
    ensures var s' := TokenNext(s, maxTpm, Ask(now, estimate, true));
            if (TokensIn(s.recorded, now) + estimate) % U32 > maxTpm then s'.grants == s.grants
            else s'.grants == s.grants + [Grant(now, estimate, |s.recorded|, s.pending)]
  {
    var last := LastTokenReading(0, steps);
    QueueRun(IDLE, 0, maxTpm, load, steps, s);
    TpmIsFit(s.recorded, s.usage, last, now, estimate, maxTpm);
    hide TokenReaches, UsageQueued, PruneUsage, TokensIn, TpmOk;
  }

  /** With at most `callers` grants not yet recorded, no request for more than `most` tokens and none that uses
      over `excess` more than it asked for, every closed 60-second interval of every run holds records of at most
      `maxTpm + excess + (callers - 1) * (most + excess)` tokens; with calls that do not overlap, and use no more
      than they asked for, at most `maxTpm`. */
  lemma {:induction false} EveryTokenWindowIsBounded(maxTpm: nat, load: Load, steps: seq<TokenStep>,
                                                     s: Tokens)
    requires load.callers > 0 && Limit(maxTpm, load) + load.most < U32
    requires TokenReaches(IDLE, 0, maxTpm, load, steps, s)
    ensures TokensBounded(s.recorded, Limit(maxTpm, load))
  {
    IdleIsFine(maxTpm, load);
    hide *;
    TokenRun(IDLE, 0, maxTpm, load, steps, s);
    var now :| TokenInvariant(s, now, maxTpm, load);
    InvariantBounds(s, now, maxTpm, load);
  }

  lemma {:induction false} IdleIsFine(maxTpm: nat, load: Load)
    ensures TokenInvariant(IDLE, 0, maxTpm, load)
  {
  }

  /** Four steps at one instant make a run. */
  lemma {:induction false} FourSteps(maxTpm: nat, load: Load, steps: seq<TokenStep>,
                                     s1: Tokens, s2: Tokens, s3: Tokens, s4: Tokens)
    requires |steps| == 4
    requires Follow(IDLE, maxTpm, load, steps[0], s1) && Follow(s1, maxTpm, load, steps[1], s2)
    requires Follow(s2, maxTpm, load, steps[2], s3) && Follow(s3, maxTpm, load, steps[3], s4)
    ensures TokenReaches(IDLE, 0, maxTpm, load, steps, s4)
  {
    hide TokenNext, TokenLegal;
    assert steps[1..][0] == steps[1] && steps[1..][1..] == steps[2..];
    assert steps[2..][0] == steps[2] && steps[2..][1..] == steps[3..];
    assert steps[3..][0] == steps[3] && steps[3..][1..] == [];
    assert TokenReaches(s3, 0, maxTpm, load, steps[3..], s4);
    assert TokenReaches(s2, 0, maxTpm, load, steps[2..], s4);
    assert TokenReaches(s1, 0, maxTpm, load, steps[1..], s4);
  }

  predicate Follow(s: Tokens, maxTpm: nat, load: Load, step: TokenStep, s': Tokens) {
    TokenLegal(s, 0, load, step) && TokenClock(0, step) == 0 && s' == TokenNext(s, maxTpm, step)
  }

  lemma {:induction false} OverlappingRun(maxTpm: nat, estimate: nat, excess: nat)
      returns (steps: seq<TokenStep>, s: Tokens)
    requires maxTpm < U32 && estimate <= maxTpm
    ensures TokenReaches(IDLE, 0, maxTpm, Load(2, estimate, excess), steps, s)
    ensures s.recorded == [(0, estimate + excess), (0, estimate + excess)]
  {
    var load, actual := Load(2, estimate, excess), estimate + excess;
    steps := [Ask(0, estimate, true), Ask(0, estimate, true), Record(0, 0, actual), Record(1, 0, actual)];
    AskOnEmpty(maxTpm, estimate);
    SmallSets();
    hide *;
    var s1 := AskGranted(IDLE, maxTpm, load, estimate);
    var s2 := AskGranted(s1, maxTpm, load, estimate);
    var s3 := RecordDone(s2, maxTpm, load, 0, actual);
    s := RecordDone(s3, maxTpm, load, 1, actual);
    FourSteps(maxTpm, load, steps, s1, s2, s3, s);
  }

  /** Overlap is what costs the bound: two calls that both look before either records overfill the window, for
      every estimate that fits once but not twice; where the estimate is the limit, they use up the larger bound,
      whatever they may use beyond what they asked for. */
  lemma {:induction false} OverlapOverfills(maxTpm: nat, estimate: nat, excess: nat)
    requires maxTpm < U32 && estimate <= maxTpm < 2 * estimate
    ensures exists steps: seq<TokenStep>, s: Tokens ::
              TokenReaches(IDLE, 0, maxTpm, Load(2, estimate, excess), steps, s) && !TokensBounded(s.recorded, maxTpm)
              && Sum(s.recorded) == 2 * (estimate + excess)
              && (estimate == maxTpm ==> Sum(s.recorded) == Limit(maxTpm, Load(2, estimate, excess)))
  {
    hide *;
    var steps, s := OverlappingRun(maxTpm, estimate, excess);
    TwoRecords(s.recorded, maxTpm);
    LimitIs(maxTpm, Load(2, estimate, excess));
  }

  lemma {:induction false} SmallSets()
    ensures {} + {0} == {0} && {0} + {1} == {0, 1} && {} + {1} == {1}
    ensures {0} - {0} == {} && {0, 1} - {0} == {1} && {1} - {1} == {}
  {
  }

  lemma {:induction false} AskGranted(s: Tokens, maxTpm: nat, load: Load,
                                      estimate: nat) returns (s': Tokens)
    requires TpmOk(s.usage, estimate, maxTpm) && estimate <= load.most && |s.pending| < load.callers
    ensures Follow(s, maxTpm, load, Ask(0, estimate, true), s')
    ensures s'.usage == s.usage && s'.recorded == s.recorded && s'.pending == s.pending + {|s.grants|}
    ensures |s'.grants| == |s.grants| + 1 && s'.grants[|s.grants|].estimate == estimate
    ensures forall i :: 0 <= i < |s.grants| ==> s'.grants[i] == s.grants[i]
  {
    assert PruneUsage(s.usage, Cutoff(0)) == s.usage;
    hide PruneUsage, TpmOk;
    s' := TokenNext(s, maxTpm, Ask(0, estimate, true));
  }

  lemma {:induction false} RecordDone(s: Tokens, maxTpm: nat, load: Load, id: nat, actual: nat)
    returns (s': Tokens)
    requires id in s.pending && id < |s.grants| && actual <= s.grants[id].estimate + load.excess
    ensures Follow(s, maxTpm, load, Record(id, 0, actual), s')
    ensures s'.usage == s.usage + [(0, actual)] && s'.recorded == s.recorded + [(0, actual)]
    ensures s'.pending == s.pending - {id} && s'.grants == s.grants
  {
    s' := TokenNext(s, maxTpm, Record(id, 0, actual));
  }

  lemma {:induction false} AskOnEmpty(maxTpm: nat, estimate: nat)
    requires estimate <= maxTpm < U32
    ensures TpmOk([], estimate, maxTpm)
  {
  }

  lemma {:induction false} TwoRecords(recorded: seq<Usage>, maxTpm: nat)
    requires |recorded| == 2 && recorded[0].0 == recorded[1].0 && recorded[0].1 + recorded[1].1 > maxTpm
    ensures Sum(recorded) == recorded[0].1 + recorded[1].1 && !TokensBounded(recorded, maxTpm)
  {
    assert recorded[1..][1..] == [];
    assert Sum(recorded[1..]) == recorded[1].1 + Sum(recorded[1..][1..]);
    assert recorded[0..1 + 1] == recorded;
    assert recorded[1].0 <= recorded[0].0 + WINDOW;
  }

  lemma {:induction false} WrappingRun(maxTpm: nat, room: nat, estimate: nat) returns (steps: seq<TokenStep>, s: Tokens)
    requires maxTpm < U32 && room + estimate == U32 && room <= maxTpm && 0 < estimate && 0 < room
    ensures TokenReaches(IDLE, 0, maxTpm, Load(1, U32, 0), steps, s) && s.recorded == [(0, room), (0, estimate)]
  {
    steps := [Ask(0, room, true), Record(0, 0, room), Ask(0, estimate, true), Record(1, 0, estimate)];
    AskOnEmpty(maxTpm, room);
    AskOnFull(maxTpm, room, estimate);
    SmallSets();
    hide *;
    var s1 := AskGranted(IDLE, maxTpm, Load(1, U32, 0), room);
    var s2 := RecordDone(s1, maxTpm, Load(1, U32, 0), 0, room);
    assert s2.usage == [(0, room)] && s2.pending == {};
    var s3 := AskGranted(s2, maxTpm, Load(1, U32, 0), estimate);
    s := RecordDone(s3, maxTpm, Load(1, U32, 0), 1, estimate);
    FourSteps(maxTpm, Load(1, U32, 0), steps, s1, s2, s3, s);
  }

  /** The bound on estimates is needed even for one caller: any estimate that can reach 2^32 together with the
      limit wraps the sum, is granted on a full window, and overfills it. */
  lemma {:induction false} EveryWrappingEstimateOverfills(maxTpm: nat, estimate: nat)
    requires maxTpm < U32 && estimate < U32 && estimate + maxTpm >= U32
    ensures exists steps: seq<TokenStep>, s: Tokens ::
              && TokenReaches(IDLE, 0, maxTpm, Load(1, U32, 0), steps, s) && !TokensBounded(s.recorded, maxTpm)
              && |s.recorded| == 2 && s.recorded[1].1 == estimate
  {
    var steps, s := WrappingRun(maxTpm, U32 - estimate, estimate);
    TwoRecords(s.recorded, maxTpm);
    hide *;
  }

  lemma {:induction false} AskOnFull(maxTpm: nat, room: nat, estimate: nat)
    requires room + estimate == U32 && 0 < estimate && 0 < room
    ensures TpmOk([(0, room)], estimate, maxTpm)
  {
    var usage: seq<Usage> := [(0, room)];
    assert usage[1..] == [];
    assert Sum(usage) == room;
  }

  // --------------------------------------------------------------------------------------------
  // The limiter
  // --------------------------------------------------------------------------------------------

  datatype Outcome = Granted(waited: nat) | TimedOut | Cancelled

  /** How long the front entry still blocks, seen from `now`. */
  function Wait(front: nat, now: nat): nat {
    if front > Cutoff(now) then (if front + WINDOW > now then front + WINDOW - now else 0) else POLL
  }

  function Min(a: nat, b: nat): nat {
    if a < b then a else b
  }

  /** How long to sleep before the next look. */
  function SleepFor(times: seq<nat>, usage: seq<Usage>, rpmOk: bool, tpmOk: bool, now: nat, remaining: nat): (d: nat)
    ensures d <= remaining
  {
    var rpmWait := if rpmOk || times == [] then None else Some(Wait(times[0], now));
    var tpmWait := if tpmOk || usage == [] then None else Some(Wait(usage[0].0, now));
    Min(match (rpmWait, tpmWait)
        case (Some(a), Some(b)) => Min(a, b)
        case (Some(a), None) => a
        case (None, Some(b)) => b
        case (None, None) => POLL,
        remaining)
  }

  /** The front entry of a window that refuses the call. */
  ghost predicate Blocks(front: nat, times: seq<nat>, usage: seq<Usage>, rpmOk: bool, tpmOk: bool) {
    (!rpmOk && times != [] && front == times[0]) || (!tpmOk && usage != [] && front == usage[0].0)
  }

  /** After pruning, the loop neither spins nor oversleeps. It sleeps for a positive time, for no longer than any
      blocking front entry still counts, or one poll if that entry is about to leave; and it wakes at the
      deadline, at the next poll, or exactly when a blocking front entry stops counting. */
  lemma {:induction false} SleepMakesProgress(times: seq<nat>, usage: seq<Usage>, rpmOk: bool, tpmOk: bool, now: nat,
                                              remaining: nat)
    requires remaining > 0
    requires times != [] ==> Cutoff(now) <= times[0] <= now
    requires usage != [] ==> Cutoff(now) <= usage[0].0 <= now
    ensures var d := SleepFor(times, usage, rpmOk, tpmOk, now, remaining);
            && 0 < d <= remaining
            && (forall f: nat :: Blocks(f, times, usage, rpmOk, tpmOk) ==>
                  if f == Cutoff(now) then d <= POLL else now + d <= f + WINDOW)
            && (d == remaining || d == POLL
                || exists f: nat :: Blocks(f, times, usage, rpmOk, tpmOk) && now + d == f + WINDOW)
  {
    assert !rpmOk && times != [] ==> Blocks(times[0], times, usage, rpmOk, tpmOk);
    assert !tpmOk && usage != [] ==> Blocks(usage[0].0, times, usage, rpmOk, tpmOk);
  }

  /** The first reading that settles the call, and how. */
  function Settles(times: seq<nat>, usage: seq<Usage>, c: Config, estimate: nat, start: nat, readings: seq<nat>,
                   i: nat): (r: (Outcome, nat))
    requires i <= |readings|
    ensures i <= r.1 <= |readings| && (!r.0.Cancelled? ==> r.1 < |readings|)
    decreases |readings| - i
  {
    if i == |readings| then (Cancelled, i) else
    var now := readings[i];
    if now >= start + c.maxWait then (TimedOut, i) else
    var times', usage' := Prune(times, Cutoff(now)), PruneUsage(usage, Cutoff(now));
    if |times'| < c.maxRpm && TpmOk(usage', estimate,
                                    c.maxTpm) then (Granted(if now >= start then now - start else 0), i)
    else Settles(times', usage', c, estimate, start, readings, i + 1)
  }

  lemma {:induction false} SettlesStep(times: seq<nat>, usage: seq<Usage>, c: Config, estimate: nat, start: nat,
                                       readings: seq<nat>, i: nat)
    requires i <= |readings| && (i < |readings| ==> start <= readings[i])
    ensures Settles(times, usage, c, estimate, start, readings, i)
            == if i == |readings| then (Cancelled, i)
               else if readings[i] - start >= c.maxWait then (TimedOut, i)
               else var times', usage' := Prune(times, Cutoff(readings[i])), PruneUsage(usage, Cutoff(readings[i]));
                    if |times'| < c.maxRpm && TpmOk(usage', estimate, c.maxTpm) then (Granted(readings[i] - start), i)
                    else Settles(times', usage', c, estimate, start, readings, i + 1)
  {
  }

  /** Clock readings that follow `last`, in order. */
  ghost predicate Follows(readings: seq<nat>, last: nat) {
    && (forall i :: 0 <= i < |readings| ==> last <= readings[i])
    && (forall i, j :: 0 <= i <= j < |readings| ==> readings[i] <= readings[j])
  }

  /** How a call ends, told from the history before it: at reading `i`, none before it having been past the deadline
      or found room. A reading past the deadline does not look for room. */
  ghost predicate EndsAt(admitted: seq<nat>, recorded: seq<Usage>, c: Config, estimate: nat, start: nat,
                         readings: seq<nat>, i: nat, r: Outcome) {
    && i <= |readings|
    && (forall k :: 0 <= k < i ==>
          readings[k] < start + c.maxWait && !HasRoom(admitted, recorded, c, estimate, readings[k]))
    && match r
       case Cancelled => i == |readings|
       case TimedOut => i < |readings| && readings[i] >= start + c.maxWait
       case Granted(waited) =>
         && i < |readings| && readings[i] == start + waited && waited < c.maxWait
         && HasRoom(admitted, recorded, c, estimate, readings[i])
  }

  lemma {:induction false} SettlesInHistory(
      times: seq<nat>, usage: seq<Usage>, admitted: seq<nat>, recorded: seq<Usage>, last: nat, lastUsage: nat,
      c: Config, estimate: nat, start: nat, readings: seq<nat>, i: nat)
    requires TimesQueued(admitted, times, last) && UsageQueued(recorded, usage, lastUsage)
    requires SafeReading(last) && SafeReading(lastUsage) && i <= |readings| && Follows(readings, start)
    requires forall k :: i <= k < |readings| ==> last <= readings[k] && lastUsage <= readings[k]
    requires forall k :: 0 <= k < |readings| ==> SafeReading(readings[k])
    requires forall k :: 0 <= k < i ==>
               readings[k] < start + c.maxWait && !HasRoom(admitted, recorded, c, estimate, readings[k])
    ensures var (r, e) := Settles(times, usage, c, estimate, start, readings, i);
            EndsAt(admitted, recorded, c, estimate, start, readings, e, r)
    decreases |readings| - i
  {
    hide Settles, Prune, PruneUsage, TimesQueued, UsageQueued, HasRoom, Cutoff, SafeReading, TpmOk;
    SettlesStep(times, usage, c, estimate, start, readings, i);
    if i < |readings| && readings[i] < start + c.maxWait {
      var now := readings[i];
      LookIsHistory(times, usage, admitted, recorded, last, lastUsage, c, estimate, now);
      PruneKeepsTimes(admitted, times, last, now);
      PruneKeepsQueue(recorded, usage, lastUsage, now);
      if !HasRoom(admitted, recorded, c, estimate, now) {
        SettlesInHistory(Prune(times, Cutoff(now)), PruneUsage(usage, Cutoff(now)), admitted, recorded, now, now,
                         c, estimate, start, readings, i + 1);
      }
    }
  }

  lemma {:induction false} LookIsHistory(
      times: seq<nat>, usage: seq<Usage>, admitted: seq<nat>, recorded: seq<Usage>, last: nat, lastUsage: nat,
      c: Config, estimate: nat, now: nat)
    requires TimesQueued(admitted, times, last) && UsageQueued(recorded, usage, lastUsage)
    requires SafeReading(last) && SafeReading(lastUsage) && last <= now && lastUsage <= now && SafeReading(now)
    ensures |Prune(times, Cutoff(now))| < c.maxRpm && TpmOk(PruneUsage(usage, Cutoff(now)), estimate, c.maxTpm)
       <==> HasRoom(admitted, recorded, c, estimate, now)
  {
    PrunedIsWindow(admitted, times, last, now);
    TpmIsFit(recorded, usage, lastUsage, now, estimate, c.maxTpm);
    hide TimesQueued, UsageQueued, Prune, PruneUsage, GrantsIn, TokensFit, TpmOk, Cutoff;
  }

  /** A call that finds itself past its deadline does not look: it times out with nothing granted or recorded before. */
  lemma {:induction false} DeadlineDoesNotLook(c: Config, estimate: nat, now: nat)
    requires c.maxWait == 0 && 0 < c.maxRpm && estimate <= c.maxTpm < U32
    ensures Settles([], [], c, estimate, now, [now], 0) == (TimedOut, 0) && HasRoom([], [], c, estimate, now)
  {
  }

  lemma {:induction false} AddInside(a: nat, b: nat, rest: nat)
    ensures ((a + b) % U32 + rest) % U32 == (a + (b + rest)) % U32
  {
  }

  /** The wrapping sum of the token counts. */
  method SumU32(usage: seq<Usage>) returns (current: nat)
    ensures current == Sum(usage) % U32
  {
    current := 0;
    assert usage[0..] == usage;
    for i := 0 to |usage|
      invariant current < U32 && (current + Sum(usage[i..])) % U32 == Sum(usage) % U32
    {
      assert usage[i..][1..] == usage[i + 1..];
      AddInside(current, usage[i].1, Sum(usage[i + 1..]));
      current := (current + usage[i].1) % U32;
    }
  }

  /** A call, the state it met, and how it will end. */
  datatype Call = Call(admitted: seq<nat>, recorded: seq<Usage>, last: nat, safe: bool, estimate: nat, start: nat,
                       readings: seq<nat>, settled: (Outcome, nat))

  /** As long as every reading was safe, the call ends as the history before it says. */
  ghost predicate SaysHistory(call: Call, c: Config) {
    call.safe && (forall k :: 0 <= k < |call.readings| ==> SafeReading(call.readings[k])) ==>
      EndsAt(call.admitted, call.recorded, c, call.estimate, call.start, call.readings, call.settled.1, call.settled.0)
  }

  class VoyageRateLimiter {
    const config: Config
    var requestTimes: seq<nat>
    var tokenUsage: seq<Usage>
    ghost var window: Window
    ghost var recorded: seq<Usage>
    ghost var last: nat
    ghost var lastUsage: nat
    ghost var safe: bool

    /** The deque is the request window with no grant pending. As long as every reading of the clock was safe,
        every closed 60-second interval of the whole history holds at most `maxRpm` grants. */
    ghost predicate Valid()
      reads this
    {
      && config.Valid() && lastUsage <= last
      && Numbered(window) && window.pending == {} && requestTimes == Times(window)
      && (safe ==> && SafeReading(last) && SafeReading(lastUsage)
                   && Invariant(window, last, config.maxRpm, 1)
                   && TimesQueued(window.admitted, requestTimes, last)
                   && UsageQueued(recorded, tokenUsage, lastUsage))
    }

    constructor (config: Config)
      requires config.Valid()
      ensures Valid() && this.config == config && last == 0 && safe
      ensures requestTimes == [] && tokenUsage == [] && window == EMPTY && recorded == []
    {
      this.config := config;
      requestTimes, tokenUsage := [], [];
      window, recorded, last, lastUsage, safe := EMPTY, [], 0, 0, true;
    }

    /** `acquire`. `start` and `readings` are what the clock says on entry and at each turn of the loop;
        the call is cancelled when they run out. A grant is counted at the reading that gave it. */
    method Acquire(estimate: nat, start: nat, readings: seq<nat>) returns (r: Outcome)
      requires Valid() && estimate < U32 && last <= start && Follows(readings, start)
      modifies this
      ensures Answered(old(AsCall(estimate, start, readings)), r)
    {
      ghost var call := AsCall(estimate, start, readings);
      hide *;
      CallBegins(estimate, start, readings);
      for i := 0 to |readings|
        invariant Waiting(call, i)
      {
        var now := readings[i];
        ReadingIsNext(call, i);
        if now - start >= config.maxWait {
          NotGranted(call, i, TimedOut);
          return TimedOut;
        }
        var rpmOk, tpmOk := Look(now, estimate, i, call);
        if rpmOk && tpmOk {
          Reserve(now);
          GrantAnswers(call, i);
          return Granted(now - start);
        }
        var remaining := config.maxWait - (now - start);
        var actualSleep := SleepFor(requestTimes, tokenUsage, rpmOk, tpmOk, now, remaining);
        assert actualSleep <= remaining;
      }
      NotGranted(call, |readings|, Cancelled);
      r := Cancelled;
    }

    /** A call on this state. */
    ghost function AsCall(estimate: nat, start: nat, readings: seq<nat>): Call
      reads this
    {
      Call(window.admitted, recorded, last, safe, estimate, start, readings,
           Settles(requestTimes, tokenUsage, config, estimate, start, readings, 0))
    }

    /** What the call leaves behind. It ends as the loop on its queues does, which is as the history before it says as
        long as every reading was safe. A grant counts at its reading, is within the deadline and fits the tokens;
        nothing else has changed, and every closed 60-second interval of the history still holds at most `maxRpm`. */
    ghost predicate Answered(call: Call, r: Outcome)
      reads this
    {
      && Valid() && recorded == call.recorded && call.last <= last
      && r == call.settled.0
      && window.admitted == call.admitted + (if r.Granted? then [last] else [])
      && (r.Granted? ==>
            && call.settled.1 < |call.readings| && last == call.readings[call.settled.1]
            && r.waited < config.maxWait && TpmOk(tokenUsage, call.estimate, config.maxTpm))
      && (call.safe && (forall k :: 0 <= k < |call.readings| ==> SafeReading(call.readings[k])) ==>
            && safe && Bounded(window.admitted, config.maxRpm)
            && EndsAt(call.admitted, call.recorded, config, call.estimate, call.start, call.readings,
                      call.settled.1, r))
    }

    /** The call goes on at reading `i`, with nothing granted or recorded. */
    ghost predicate Waiting(call: Call, i: nat)
      reads this
    {
      && Valid() && call.estimate < U32 && Follows(call.readings, call.start) && i <= |call.readings|
      && recorded == call.recorded && window.admitted == call.admitted
      && call.last <= call.start && call.last <= last <= (if i == 0 then call.start else call.readings[i - 1])
      && (call.safe && (forall k :: 0 <= k < i ==> SafeReading(call.readings[k])) ==> safe)
      && Settles(requestTimes, tokenUsage, config, call.estimate, call.start, call.readings, i) == call.settled
      && SaysHistory(call, config)
    }

    lemma {:induction false} CallBegins(estimate: nat, start: nat, readings: seq<nat>)
      requires Valid() && estimate < U32 && last <= start && Follows(readings, start)
      ensures Waiting(AsCall(estimate, start, readings), 0)
      ensures AsCall(estimate, start, readings).readings == readings
      ensures AsCall(estimate, start, readings).start == start && AsCall(estimate, start, readings).estimate == estimate
    {
      SettledInHistory(estimate, start, readings);
      hide Valid, EndsAt, Settles;
    }

    lemma {:induction false} ReadingIsNext(call: Call, i: nat)
      requires Waiting(call, i) && i < |call.readings|
      ensures call.start <= call.readings[i]
    {
    }

    lemma {:induction false} NotGranted(call: Call, i: nat, r: Outcome)
      requires Waiting(call, i)
      requires if i < |call.readings| then r == TimedOut && call.readings[i] >= call.start + config.maxWait
               else r == Cancelled
      ensures Answered(call, r)
    {
      SafeIsBounded();
      hide Valid, SafeReading, TpmOk, Bounded, Prune, PruneUsage, EndsAt;
      SettlesStep(requestTimes, tokenUsage, config, call.estimate, call.start, call.readings, i);
    }

    lemma {:induction false} GrantAnswers(call: Call, i: nat)
      requires Valid() && i < |call.readings| && last == call.readings[i] && call.last <= last && call.start <= last
      requires recorded == call.recorded && window.admitted == call.admitted + [last]
      requires last - call.start < config.maxWait && call.settled == (Granted(last - call.start), i)
      requires TpmOk(tokenUsage, call.estimate, config.maxTpm) && SaysHistory(call, config)
      requires call.safe && (forall k :: 0 <= k < |call.readings| ==> SafeReading(call.readings[k])) ==> safe
      ensures Answered(call, Granted(last - call.start))
    {
      SafeIsBounded();
      hide Valid, SafeReading, TpmOk, Bounded, EndsAt;
    }

    /** Both checks of one turn of the loop. */
    method Look(now: nat, estimate: nat, ghost i: nat, ghost call: Call) returns (rpmOk: bool, tpmOk: bool)
      requires Waiting(call, i) && i < |call.readings| && now == call.readings[i] && estimate == call.estimate
      requires now - call.start < config.maxWait
      modifies this
      ensures rpmOk && tpmOk ==>
                && Valid() && last == now && |requestTimes| < config.maxRpm
                && requestTimes == Prune(requestTimes, Cutoff(now)) && TpmOk(tokenUsage, estimate, config.maxTpm)
                && recorded == call.recorded && window.admitted == call.admitted && call.last <= now
                && (call.safe && (forall k :: 0 <= k < |call.readings| ==> SafeReading(call.readings[k])) ==> safe)
                && call.start <= now && call.settled == (Granted(now - call.start), i) && SaysHistory(call, config)
      ensures !(rpmOk && tpmOk) ==> Waiting(call, i + 1)
    {
      hide Valid, SafeReading, TpmOk, Settles, Prune, PruneUsage, Cutoff, Follows, SaysHistory;
      ReadingFollows(call.readings, call.start, i);
      SettlesStep(requestTimes, tokenUsage, config, estimate, call.start, call.readings, i);
      rpmOk := CheckRequests(now);
      tpmOk := CheckTokens(now, estimate);
    }

    lemma {:induction false} SettledInHistory(estimate: nat, start: nat, readings: seq<nat>)
      requires Valid() && last <= start && Follows(readings, start)
      ensures SaysHistory(AsCall(estimate, start, readings), config)
    {
      hide Settles, EndsAt, TimesQueued, UsageQueued, Invariant, HasRoom, SafeReading;
      if safe && forall k :: 0 <= k < |readings| ==> SafeReading(readings[k]) {
        SettlesInHistory(requestTimes, tokenUsage, window.admitted, recorded, last, lastUsage, config, estimate,
                         start, readings, 0);
      }
    }

    lemma {:induction false} SafeIsBounded()
      requires Valid()
      ensures safe ==> Bounded(window.admitted, config.maxRpm)
    {
      hide Numbered, Sorted, UsageQueued, TimesQueued;
    }

    /** The check of the request window: prune, then compare. */
    method CheckRequests(now: nat) returns (rpmOk: bool)
      requires Valid() && last <= now
      modifies this`requestTimes, this`window, this`last, this`safe
      ensures Valid() && last == now && window.admitted == old(window.admitted)
      ensures safe == (old(safe) && SafeReading(now))
      ensures requestTimes == Prune(old(requestTimes), Cutoff(now)) && (rpmOk <==> |requestTimes| < config.maxRpm)
      ensures Prune(requestTimes, Cutoff(now)) == requestTimes
      ensures safe ==> (rpmOk <==> GrantsIn(window.admitted, now) < config.maxRpm)
    {
      hide Invariant, UsageQueued, TimesQueued, Numbered, Times, Prune, Next, GrantsIn, Cutoff, SafeReading;
      RequestsChecked(now);
      PruneRequests(Cutoff(now));
      window := Next(window, config.maxRpm, Check(now, false));
      last, safe := now, safe && SafeReading(now);
      rpmOk := |requestTimes| < config.maxRpm;
    }

    lemma {:induction false} RequestsChecked(now: nat)
      requires Valid() && last <= now
      ensures Numbered(window)
      ensures var times, w := Prune(requestTimes, Cutoff(now)), Next(window, config.maxRpm, Check(now, false));
              && Numbered(w) && w.pending == {} && w.admitted == window.admitted && Times(w) == times
              && Prune(times, Cutoff(now)) == times
              && (safe && SafeReading(now) ==>
                    && Invariant(w, now, config.maxRpm, 1) && TimesQueued(window.admitted, times, now)
                    && |times| == GrantsIn(window.admitted, now))
    {
      TimesAfterCheck(window, config.maxRpm, now);
      PruneKeeps(requestTimes, Cutoff(now));
      hide Invariant, UsageQueued, TimesQueued, Numbered, Times, Prune, Next, GrantsIn, Cutoff, SafeReading;
      if safe && SafeReading(now) {
        PrunedIsWindow(window.admitted, requestTimes, last, now);
        PruneKeepsTimes(window.admitted, requestTimes, last, now);
        CheckedLegal(window, last, now);
        CheckKeepsInvariant(window, last, config.maxRpm, 1, now, false);
      }
    }

    method PruneRequests(cutoff: nat)
      modifies this`requestTimes
      ensures requestTimes == Prune(old(requestTimes), cutoff)
    {
      while requestTimes != [] && requestTimes[0] < cutoff
        invariant Prune(requestTimes, cutoff) == Prune(old(requestTimes), cutoff)
        decreases |requestTimes|
      {
        requestTimes := requestTimes[1..];
      }
    }

    /** The check of the token window: prune, sum in 32 bits, compare. */
    method CheckTokens(now: nat, estimate: nat) returns (tpmOk: bool)
      requires Valid() && last == now && estimate < U32
      modifies this`tokenUsage, this`lastUsage
      ensures Valid() && tokenUsage == PruneUsage(old(tokenUsage), Cutoff(now))
      ensures tpmOk <==> TpmOk(tokenUsage, estimate, config.maxTpm)
      ensures safe ==> (tpmOk <==> TokensFit(recorded, config.maxTpm, estimate, now))
    {
      hide Invariant, UsageQueued, TimesQueued, Numbered, Times, PruneUsage, Sum, TokensFit;
      if safe {
        TpmIsFit(recorded, tokenUsage, lastUsage, now, estimate, config.maxTpm);
        PruneKeepsQueue(recorded, tokenUsage, lastUsage, now);
      }
      PruneTokens(Cutoff(now));
      lastUsage := now;
      var current := SumU32(tokenUsage);
      tpmOk := (current + estimate) % U32 <= config.maxTpm;
    }

    method PruneTokens(cutoff: nat)
      modifies this`tokenUsage
      ensures tokenUsage == PruneUsage(old(tokenUsage), cutoff)
    {
      while tokenUsage != [] && tokenUsage[0].0 < cutoff
        invariant PruneUsage(tokenUsage, cutoff) == PruneUsage(old(tokenUsage), cutoff)
        decreases |tokenUsage|
      {
        tokenUsage := tokenUsage[1..];
      }
    }

    /** Taking the slot that the checks just found free. */
    method Reserve(now: nat)
      requires Valid() && last == now && |requestTimes| < config.maxRpm
      requires requestTimes == Prune(requestTimes, Cutoff(now))
      modifies this`requestTimes, this`window
      ensures Valid() && window.admitted == old(window.admitted) + [now]
      ensures requestTimes == old(requestTimes) + [now]
    {
      hide Invariant, UsageQueued, TimesQueued, Numbered, Times, Prune, Next, Pruned, Cutoff, SafeReading;
      TimesAfterPush(window, config.maxRpm, now);
      if safe {
        GrantKeepsTimes(window.admitted, requestTimes, now);
        GrantKeepsInvariant(window, config.maxRpm, now);
      }
      window := Next(Next(window, config.maxRpm, Check(now, true)), config.maxRpm, Push(|window.admitted|));
      requestTimes := requestTimes + [now];
    }

    /** `record_usage`: what a request really used. */
    method RecordUsage(now: nat, actual: nat)
      requires Valid() && last <= now
      modifies this`tokenUsage, this`recorded, this`last, this`lastUsage, this`safe
      ensures Valid() && last == now && safe == (old(safe) && SafeReading(now))
      ensures recorded == old(recorded) + [(now, actual)] && tokenUsage == old(tokenUsage) + [(now, actual)]
    {
      hide UsageQueued, TimesQueued, Times;
      if safe && SafeReading(now) {
        WaitKeepsTimes(window.admitted, requestTimes, last, now);
        RecordKeepsQueue(recorded, tokenUsage, lastUsage, now, actual);
        WaitingKeepsInvariant(window, last, config.maxRpm, now);
      }
      hide Invariant, Numbered;
      tokenUsage := tokenUsage + [(now, actual)];
      recorded := recorded + [(now, actual)];
      last, lastUsage, safe := now, now, safe && SafeReading(now);
    }
  }

  lemma {:induction false} CheckedLegal(w: Window, last: nat, now: nat)
    requires last <= now
    ensures Legal(w, last, 1, Check(now, false))
  {
  }

  lemma {:induction false} GrantKeepsInvariant(w: Window, maxRpm: nat, now: nat)
    requires Invariant(w, now, maxRpm, 1) && SafeReading(now) && w.pending == {} && Numbered(w)
    ensures Numbered(Next(w, maxRpm, Check(now, true)))
    ensures Invariant(Next(Next(w, maxRpm, Check(now, true)), maxRpm, Push(|w.admitted|)), now, maxRpm, 1)
  {
    CheckKeepsInvariant(w, now, maxRpm, 1, now, true);
    PushKeepsInvariant(Next(w, maxRpm, Check(now, true)), now, maxRpm, 1, |w.admitted|);
    hide Next, Sorted, Bounded;
  }

  lemma {:induction false} ReadingFollows(readings: seq<nat>, start: nat, i: nat)
    requires Follows(readings, start) && i < |readings|
    ensures start <= readings[i] && (i > 0 ==> readings[i - 1] <= readings[i])
  {
  }

  lemma {:induction false} WaitingKeepsInvariant(w: Window, last: nat, maxRpm: nat, now: nat)
    requires Invariant(w, last, maxRpm, 1) && last <= now && SafeReading(last) && SafeReading(now)
    ensures Invariant(w, now, maxRpm, 1)
  {
    CutoffMonotone(last, now);
    hide Bounded;
  }

  lemma {:induction false} TimesAfterCheck(w: Window, maxRpm: nat, now: nat)
    requires Numbered(w)
    ensures var w' := Next(w, maxRpm, Check(now, false));
            && Numbered(w') && Times(w') == Prune(Times(w), Cutoff(now))
            && w'.admitted == w.admitted && w'.pending == w.pending && w'.deque == Pruned(w, now)
  {
    var kept := Prune(Times(w), Cutoff(now));
    PruneKeeps(Times(w), Cutoff(now));
    hide Prune;
    var w' := Window(w.admitted, Pruned(w, now), w.pending);
    assert forall id :: id in w'.deque ==> id in w.deque;
    forall i | 0 <= i < |kept| ensures Times(w')[i] == kept[i] {
      assert kept[i] == Times(w)[|w.deque| - |kept| + i];
    }
  }

  lemma {:induction false} TimesAfterPush(w: Window, maxRpm: nat, now: nat)
    requires Numbered(w) && w.pending == {} && Prune(Times(w), Cutoff(now)) == Times(w) && |Times(w)| < maxRpm
    ensures var w' := Next(w, maxRpm, Check(now, true));
            && Numbered(w')
            && var w'' := Next(w', maxRpm, Push(|w.admitted|));
               && Numbered(w'') && w''.pending == {}
               && w''.admitted == w.admitted + [now] && Times(w'') == Times(w) + [now]
  {
    var id := |w.admitted|;
    assert Pruned(w, now) == w.deque;
    assert {} + {id} == {id} && {id} - {id} == {};
    var w'' := Window(w.admitted + [now], w.deque + [id], {});
    assert Next(Next(w, maxRpm, Check(now, true)), maxRpm, Push(id)) == w'';
    forall i | 0 <= i < |w.deque| + 1 ensures Times(w'')[i] == (Times(w) + [now])[i] {
      if i < |w.deque| {
        assert w.deque[i] in w.deque && w''.deque[i] == w.deque[i];
      }
    }
  }
}
