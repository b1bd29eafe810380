/**
 * The in-memory sliding-window limiter of asb_api/api/rate_limiter.py.
 *
 * `Decide` is one locked check of one key as a function of its deque; `SlidingWindowLimiter` keeps a deque
 * per key and updates it in place.  Runs of checks are compared with the log of everything ever admitted.
 */
module SlidingWindow {
  import opened Common

  datatype TierConfig = TierConfig(requests: Option<int>, windowSeconds: Option<int>)

  const DEFAULT_REQUESTS := 500
  const DEFAULT_WINDOW := 3600
  const UNLIMITED := -1

  /** `(max_requests, window_seconds)`: an unknown tier is `free`, missing entries take the defaults. */
  function GetLimits(limits: map<string, TierConfig>, tier: string): (r: (int, int))
    ensures tier in limits && limits[tier].requests.Some? ==> r.0 == limits[tier].requests.value
    ensures tier in limits && limits[tier].windowSeconds.Some? ==> r.1 == limits[tier].windowSeconds.value
    ensures tier in limits && limits[tier].requests == None ==> r.0 == DEFAULT_REQUESTS
    ensures tier in limits && limits[tier].windowSeconds == None ==> r.1 == DEFAULT_WINDOW
    ensures tier !in limits && "free" !in limits ==> r == (DEFAULT_REQUESTS, DEFAULT_WINDOW)
  {
    var cfg := if tier in limits then limits[tier]
               else if "free" in limits then limits["free"] else TierConfig(None, None);
    (if cfg.requests.Some? then cfg.requests.value else DEFAULT_REQUESTS,
     if cfg.windowSeconds.Some? then cfg.windowSeconds.value else DEFAULT_WINDOW)
  }

  /** An unknown tier is treated as `free`; an entry left out of a tier does not fall back to `free`. */
  lemma UnknownTierIsFree(limits: map<string, TierConfig>, tier: string)
    ensures tier !in limits ==> GetLimits(limits, tier) == GetLimits(limits, "free")
    ensures tier in limits && limits[tier] == TierConfig(None, None) ==> GetLimits(limits, tier) == (500, 3600)
    ensures tier !in limits && "free" !in limits ==> GetLimits(limits, tier) == (500, 3600)
  {
  }

  /** The answer of a check: the returned tuple, or the fields of RateLimitExceeded. */
  datatype Verdict =
    | Allowed(remaining: int, resetAt: int)
    | Exceeded(limit: int, remaining: int, resetAt: int)

  /** Stamps before the cutoff leave from the front of the deque. */
  function Evict(window: seq<real>, cutoff: real): (kept: seq<real>)
    ensures |kept| <= |window|
    ensures kept != [] ==> kept[0] >= cutoff
  {
    if window != [] && window[0] < cutoff then Evict(window[1..], cutoff) else window
  }

  /** What is kept is the tail of the deque; everything before it lies before the cutoff. */
  lemma {:induction false} EvictKeepsTail(window: seq<real>, cutoff: real)
    ensures var gone := |window| - |Evict(window, cutoff)|;
            Evict(window, cutoff) == window[gone..] && forall i :: 0 <= i < gone ==> window[i] < cutoff
  {
    if window != [] && window[0] < cutoff {
      EvictKeepsTail(window[1..], cutoff);
    }
  }

  function Repeat(t: real, n: nat): (s: seq<real>)
    ensures |s| == n && forall i :: 0 <= i < n ==> s[i] == t
  {
    seq(n, i => t)
  }

  /** One check of a finite tier. */
  function Decide(window: seq<real>, max: int, seconds: int, count: int, now: real): (r: (seq<real>, Verdict))
  {
    var n := Max(1, count);
    var kept := Evict(window, now - seconds as real);
    var before := max - |kept|;
    if before < n then
      (kept, Exceeded(max, Max(0, before), Trunc((if kept != [] then kept[0] else now) + seconds as real)))
    else
      (kept + Repeat(now, n), Allowed(before - n, Trunc(now + seconds as real)))
  }

  predicate Sorted(s: seq<real>) {
    forall i, j :: 0 <= i < j < |s| ==> s[i] <= s[j]
  }

  // ---------------------------------------------------------------- a whole run on one key

  /** A check of the key: the limits in force, the units asked for and the clock. */
  datatype Check = Check(max: int, seconds: int, count: int, now: real)

  /** One admitted unit with the limits under which it was admitted. */
  datatype Unit = Unit(at: real, max: int, seconds: int)

  datatype Run = Run(window: seq<real>, log: seq<Unit>)

  function Units(c: Check, n: nat): (us: seq<Unit>)
    ensures |us| == n && forall i :: 0 <= i < n ==> us[i] == Unit(c.now, c.max, c.seconds)
  {
    seq(n, i => Unit(c.now, c.max, c.seconds))
  }

  /** An unlimited tier returns before the deque is touched, and its requests are not counted. */
  function Step(r: Run, c: Check): Run {
    if c.max == UNLIMITED then r
    else
      var (window, verdict) := Decide(r.window, c.max, c.seconds, c.count, c.now);
      Run(window, if verdict.Allowed? then r.log + Units(c, Max(1, c.count)) else r.log)
  }

  function After(checks: seq<Check>): Run {
    if checks == [] then Run([], []) else Step(After(checks[..|checks| - 1]), checks[|checks| - 1])
  }

  function Cutoff(c: Check): real {
    c.now - c.seconds as real
  }

  /** The clock never runs backwards, and neither does the start of the window of the checks that are counted. */
  ghost predicate Forward(checks: seq<Check>) {
    forall i, j :: 0 <= i < j < |checks| ==>
      checks[i].now <= checks[j].now &&
      (checks[i].max != UNLIMITED && checks[j].max != UNLIMITED ==> Cutoff(checks[i]) <= Cutoff(checks[j]))
  }

  /** Nothing in the run is later than `now`, and no window of a counted check starts later than `cutoff`. */
  ghost predicate Before(checks: seq<Check>, cutoff: real, now: real) {
    forall i :: 0 <= i < |checks| ==>
      checks[i].now <= now && (checks[i].max != UNLIMITED ==> Cutoff(checks[i]) <= cutoff)
  }

  /** Stamps are in admission order and none lies in the future. */
  ghost predicate Ordered(log: seq<Unit>, now: real) {
    && (forall i :: 0 <= i < |log| ==> log[i].at <= now)
    && forall i, j :: 0 <= i < j < |log| ==> log[i].at <= log[j].at
  }

  /** When unit `j` was admitted, it and all units in its window before it were within its limit. */
  ghost predicate WithinLimits(log: seq<Unit>) {
    forall i, j :: 0 <= i <= j < |log| && log[i].at >= log[j].at - log[j].seconds as real ==> j - i < log[j].max
  }

  /** The deque is the tail of the log, and what left it lies before the cutoff. */
  ghost predicate Tracks(window: seq<real>, log: seq<Unit>, cutoff: real) {
    && |window| <= |log|
    && (forall k :: 0 <= k < |window| ==> window[k] == log[|log| - |window| + k].at)
    && forall i :: 0 <= i < |log| - |window| ==> log[i].at < cutoff
  }

  lemma EvictTracks(window: seq<real>, log: seq<Unit>, cutoff: real, later: real)
    requires Tracks(window, log, cutoff) && cutoff <= later
    ensures Tracks(Evict(window, later), log, later)
  {
    EvictKeepsTail(window, later);
    var gone := |log| - |window|;
    forall i | 0 <= i < |log| - |Evict(window, later)|
      ensures log[i].at < later
    {
      if i >= gone {
        assert window[i - gone] == log[gone + (i - gone)].at;
      }
    }
  }

  lemma AdmitTracks(window: seq<real>, log: seq<Unit>, c: Check, n: nat, cutoff: real)
    requires Tracks(window, log, cutoff)
    ensures Tracks(window + Repeat(c.now, n), log + Units(c, n), cutoff)
  {
  }

  lemma AdmitOrdered(log: seq<Unit>, c: Check, n: nat, now: real)
    requires Ordered(log, now) && now <= c.now
    ensures Ordered(log + Units(c, n), c.now)
  {
  }

  /** Admitting units that fit keeps every unit within the limit it was admitted under. */
  lemma AdmitWithin(window: seq<real>, log: seq<Unit>, c: Check, n: nat)
    requires |window| + n <= c.max && WithinLimits(log) && Tracks(window, log, c.now - c.seconds as real)
    ensures WithinLimits(log + Units(c, n))
  {
    var log' := log + Units(c, n);
    forall i, j | 0 <= i <= j < |log'| && log'[i].at >= log'[j].at - log'[j].seconds as real
      ensures j - i < log'[j].max
    {
      if j < |log| {
        assert log'[j] == log[j] && log'[i] == log[i];
      } else {
        assert log'[j] == Unit(c.now, c.max, c.seconds);
        assert i < |log| ==> log'[i] == log[i];
      }
    }
  }

  ghost predicate Sound(r: Run, cutoff: real, now: real) {
    Tracks(r.window, r.log, cutoff) && Ordered(r.log, now) && WithinLimits(r.log)
  }

  lemma StepIs(r: Run, c: Check)
    ensures var kept, n := Evict(r.window, c.now - c.seconds as real), Max(1, c.count);
            Step(r, c) == if c.max == UNLIMITED then r
                          else if |kept| + n <= c.max then Run(kept + Repeat(c.now, n), r.log + Units(c, n))
                          else Run(kept, r.log)
  {
  }

  lemma SoundLater(r: Run, cutoff: real, now: real, later: real, now': real)
    requires Sound(r, cutoff, now) && cutoff <= later && now <= now'
    ensures Sound(r, later, now')
  {
  }

  lemma StepTracks(r: Run, c: Check, cutoff: real)
    requires c.max != UNLIMITED && Tracks(r.window, r.log, cutoff) && cutoff <= Cutoff(c)
    ensures Tracks(Step(r, c).window, Step(r, c).log, Cutoff(c))
  {
    StepIs(r, c);
    EvictTracks(r.window, r.log, cutoff, Cutoff(c));
    AdmitTracks(Evict(r.window, Cutoff(c)), r.log, c, Max(1, c.count), Cutoff(c));
  }

  lemma StepOrdered(r: Run, c: Check, now: real)
    requires Ordered(r.log, now) && now <= c.now
    ensures Ordered(Step(r, c).log, c.now)
  {
    StepIs(r, c);
    AdmitOrdered(r.log, c, Max(1, c.count), now);
  }

  lemma StepWithin(r: Run, c: Check, cutoff: real)
    requires c.max != UNLIMITED && Tracks(r.window, r.log, cutoff) && cutoff <= Cutoff(c) && WithinLimits(r.log)
    ensures WithinLimits(Step(r, c).log)
  {
    var kept, n := Evict(r.window, Cutoff(c)), Max(1, c.count);
    StepIs(r, c);
    if |kept| + n <= c.max {
      EvictTracks(r.window, r.log, cutoff, Cutoff(c));
      AdmitWithin(kept, r.log, c, n);
    }
  }

  /** One counted check keeps the run sound, whether it is admitted or not. */
  lemma StepSound(r: Run, c: Check, cutoff: real, now: real)
    requires c.max != UNLIMITED && Sound(r, cutoff, now) && now <= c.now && cutoff <= Cutoff(c)
    ensures Sound(Step(r, c), Cutoff(c), c.now)
  {
    StepTracks(r, c, cutoff);
    StepOrdered(r, c, now);
    StepWithin(r, c, cutoff);
  }

  lemma PrefixForward(checks: seq<Check>)
    requires checks != [] && Forward(checks)
    ensures var c, before := checks[|checks| - 1], checks[..|checks| - 1];
            Forward(before) && (c.max != UNLIMITED ==> Before(before, Cutoff(c), c.now))
  {
    var before := checks[..|checks| - 1];
    assert forall i :: 0 <= i < |before| ==> before[i] == checks[i];
  }

  /** After every run the deque is the tail of the log, and every unit was within its limit when admitted. */
  lemma {:induction false} RunSound(checks: seq<Check>, cutoff: real, now: real)
    requires Forward(checks) && Before(checks, cutoff, now)
    ensures Sound(After(checks), cutoff, now)
  {
    if checks != [] {
      var c, before := checks[|checks| - 1], checks[..|checks| - 1];
      PrefixForward(checks);
      if c.max == UNLIMITED {
        assert forall i :: 0 <= i < |before| ==> before[i] == checks[i];
        RunSound(before, cutoff, now);
      } else {
        RunSound(before, Cutoff(c), c.now);
        StepSound(After(before), c, Cutoff(c), c.now);
        SoundLater(After(checks), Cutoff(c), c.now, cutoff, now);
      }
    }
  }

  /** The latest start of a window so far. */
  function LatestCutoff(checks: seq<Check>): real {
    if checks == [] then 0.0
    else if checks[|checks| - 1].max != UNLIMITED then Cutoff(checks[|checks| - 1])
    else LatestCutoff(checks[..|checks| - 1])
  }

  lemma {:induction false} LatestIsLast(checks: seq<Check>)
    requires checks != [] && Forward(checks)
    ensures Before(checks, LatestCutoff(checks), checks[|checks| - 1].now)
  {
    var c, before := checks[|checks| - 1], checks[..|checks| - 1];
    PrefixForward(checks);
    assert forall i :: 0 <= i < |before| ==> before[i] == checks[i];
    if c.max == UNLIMITED && before != [] {
      LatestIsLast(before);
    }
  }

  lemma LogSound(checks: seq<Check>)
    requires checks != [] && Forward(checks)
    ensures Ordered(After(checks).log, checks[|checks| - 1].now) && WithinLimits(After(checks).log)
  {
    LatestIsLast(checks);
    RunSound(checks, LatestCutoff(checks), checks[|checks| - 1].now);
  }

  /** Units of the log with a stamp in the closed interval. */
  function CountIn(log: seq<Unit>, from: real, to: real): nat {
    if log == [] then 0
    else CountIn(log[..|log| - 1], from, to) + if from <= log[|log| - 1].at <= to then 1 else 0
  }

  lemma {:induction false} CountFrom(log: seq<Unit>, from: real, to: real, first: nat)
    requires first <= |log| && forall i :: 0 <= i < first ==> log[i].at < from
    ensures CountIn(log, from, to) <= |log| - first
  {
    if first < |log| {
      CountFrom(log[..|log| - 1], from, to, first);
    } else if log != [] {
      assert log[|log| - 1].at < from;
      CountFrom(log[..|log| - 1], from, to, first - 1);
    }
  }

  lemma {:induction false} CountUpTo(log: seq<Unit>, from: real, to: real, last: nat)
    requires last <= |log| && forall i :: last <= i < |log| ==> log[i].at > to
    ensures CountIn(log, from, to) == CountIn(log[..last], from, to)
  {
    if last < |log| {
      CountUpTo(log[..|log| - 1], from, to, last);
      assert log[..|log| - 1][..last] == log[..last];
    } else {
      assert log[..last] == log;
    }
  }

  /** Index one past the last unit with a stamp at most `to`. */
  function EndAt(log: seq<Unit>, to: real): (k: nat)
    ensures k <= |log|
    ensures k > 0 ==> log[k - 1].at <= to
    ensures forall i :: k <= i < |log| ==> log[i].at > to
  {
    if log != [] && log[|log| - 1].at > to then EndAt(log[..|log| - 1], to) else |log|
  }

  function BeginAt(log: seq<Unit>, from: real): (k: nat)
    ensures k <= |log|
    ensures forall i :: 0 <= i < k ==> log[i].at < from
    ensures k < |log| ==> log[k].at >= from
  {
    if log != [] && log[0].at < from then 1 + BeginAt(log[1..], from) else 0
  }

  /** The interval holds no more units than the limit of the last of them, if that unit's window covers it. */
  ghost predicate IntervalWithin(log: seq<Unit>, from: real, to: real) {
    CountIn(log, from, to) > 0 ==>
      var last := EndAt(log, to) - 1;
      0 <= last && (to - from <= log[last].seconds as real ==> CountIn(log, from, to) <= log[last].max)
  }

  lemma IntervalIsWithin(log: seq<Unit>, from: real, to: real)
    requires WithinLimits(log)
    ensures IntervalWithin(log, from, to)
  {
    if CountIn(log, from, to) > 0 {
      var end := EndAt(log, to);
      CountUpTo(log, from, to, end);
      assert end > 0;
      var upto := log[..end];
      var first := BeginAt(upto, from);
      CountFrom(upto, from, to, first);
      if to - from <= log[end - 1].seconds as real {
        assert log[first].at >= log[end - 1].at - log[end - 1].seconds as real;
        assert end - 1 - first < log[end - 1].max;
      }
    }
  }

  /**
   * The rate limit over a whole run: with a forward clock, every closed interval that is no longer than the
   * window of its last admitted unit holds at most that unit's limit.
   */
  lemma EveryWindowIsBounded(checks: seq<Check>, from: real, to: real)
    requires Forward(checks)
    ensures IntervalWithin(After(checks).log, from, to)
  {
    if checks != [] {
      LogSound(checks);
      IntervalIsWithin(After(checks).log, from, to);
    }
  }

  ghost predicate ClockForward(checks: seq<Check>) {
    forall i, j :: 0 <= i < j < |checks| ==> checks[i].now <= checks[j].now
  }

  lemma {:induction false} LogOrdered(checks: seq<Check>, now: real)
    requires ClockForward(checks) && forall i :: 0 <= i < |checks| ==> checks[i].now <= now
    ensures Ordered(After(checks).log, now)
  {
    if checks != [] {
      var c, before := checks[|checks| - 1], checks[..|checks| - 1];
      assert forall i :: 0 <= i < |before| ==> before[i] == checks[i];
      LogOrdered(before, c.now);
      StepOrdered(After(before), c, c.now);
    }
  }

  /** Whatever the checks, the deque is the tail of the log. */
  ghost predicate IsTail(window: seq<real>, log: seq<Unit>) {
    |window| <= |log| && forall k :: 0 <= k < |window| ==> window[k] == log[|log| - |window| + k].at
  }

  lemma {:induction false} DequeIsTail(checks: seq<Check>)
    ensures IsTail(After(checks).window, After(checks).log)
  {
    if checks != [] {
      var c, before := checks[|checks| - 1], checks[..|checks| - 1];
      DequeIsTail(before);
      StepIs(After(before), c);
      EvictKeepsTail(After(before).window, Cutoff(c));
    }
  }

  /** With one window length throughout, a clock that never runs backwards is all that is asked. */
  lemma FixedWindowIsBounded(checks: seq<Check>, seconds: int, from: real, to: real)
    requires forall i :: 0 <= i < |checks| ==> checks[i].seconds == seconds
    requires ClockForward(checks) && to - from <= seconds as real && CountIn(After(checks).log, from, to) > 0
    ensures var log := After(checks).log;
            var last := EndAt(log, to) - 1;
            0 <= last && CountIn(log, from, to) <= log[last].max
  {
    EveryWindowIsBounded(checks, from, to);
    LoggedSeconds(checks, seconds);
  }

  lemma {:induction false} LoggedSeconds(checks: seq<Check>, seconds: int)
    requires forall i :: 0 <= i < |checks| ==> checks[i].seconds == seconds
    ensures forall i :: 0 <= i < |After(checks).log| ==> After(checks).log[i].seconds == seconds
  {
    if checks != [] {
      LoggedSeconds(checks[..|checks| - 1], seconds);
      StepIs(After(checks[..|checks| - 1]), checks[|checks| - 1]);
    }
  }

  lemma AfterAppend(checks: seq<Check>, c: Check)
    ensures After(checks + [c]) == Step(After(checks), c)
  {
    assert (checks + [c])[..|checks|] == checks;
  }

  // ---------------------------------------------------------------- exactly when the bound holds

  /**
   * Whether an admission keeps every unit within its limit is decided by the units of the log that lie in the
   * window of the check, whether or not the deque still has them.
   */
  lemma AdmissionKeepsIff(log: seq<Unit>, c: Check, n: nat, first: nat)
    requires Ordered(log, c.now) && WithinLimits(log) && c.seconds >= 0 && n >= 1
    requires first <= |log| && forall i :: 0 <= i < first ==> log[i].at < Cutoff(c)
    requires first < |log| ==> log[first].at >= Cutoff(c)
    ensures WithinLimits(log + Units(c, n)) <==> |log| - first + n <= c.max
  {
    var log' := log + Units(c, n);
    var last := |log'| - 1;
    assert log'[last] == Unit(c.now, c.max, c.seconds) && log'[first].at >= Cutoff(c);
    if |log| - first + n <= c.max {
      forall i, j | 0 <= i <= j < |log'| && log'[i].at >= log'[j].at - log'[j].seconds as real
        ensures j - i < log'[j].max
      {
        if j < |log| {
          assert log'[j] == log[j] && log'[i] == log[i];
        } else {
          assert log'[j] == Unit(c.now, c.max, c.seconds);
          assert i < |log| ==> log'[i] == log[i];
        }
      }
    }
  }

  lemma EvictOld(t: real, n: nat, cutoff: real)
    requires t < cutoff
    ensures Evict(Repeat(t, n), cutoff) == []
  {
    EvictKeepsTail(Repeat(t, n), cutoff);
  }

  /** The deque is filled, a denied check under a shorter window empties it, and one more unit is admitted. */
  function ForgetfulRun(max: int, long: int, max1: int, short: int, t0: real, t: real): seq<Check> {
    [Check(max, long, max, t0), Check(max1, short, max1 + 1, t), Check(max, long, 1, t)]
  }

  lemma FillFrom(log: seq<Unit>, c: Check)
    requires c.max >= 1 && 1 <= c.count <= c.max
    ensures Step(Run([], log), c) == Run(Repeat(c.now, c.count), log + Units(c, c.count))
  {
    StepIs(Run([], log), c);
    assert [] + Repeat(c.now, c.count) == Repeat(c.now, c.count);
  }

  lemma EmptiedBy(t: real, n: nat, log: seq<Unit>, c: Check)
    requires c.max != UNLIMITED && c.max < Max(1, c.count) && t < Cutoff(c)
    ensures Step(Run(Repeat(t, n), log), c) == Run([], log)
  {
    EvictOld(t, n, Cutoff(c));
    StepIs(Run(Repeat(t, n), log), c);
  }

  lemma ForgetfulLog(max: int, long: int, max1: int, short: int, t0: real, t: real)
    requires max >= 1 && max1 != UNLIMITED && t0 < t - short as real
    ensures var c0, c2 := Check(max, long, max, t0), Check(max, long, 1, t);
            After(ForgetfulRun(max, long, max1, short, t0, t)).log == Units(c0, max) + Units(c2, 1)
  {
    var c0, c1, c2 := Check(max, long, max, t0), Check(max1, short, max1 + 1, t), Check(max, long, 1, t);
    AfterAppend([], c0);
    AfterAppend([c0], c1);
    AfterAppend([c0, c1], c2);
    assert [] + [c0] == [c0] && [c0] + [c1] == [c0, c1];
    assert [c0, c1] + [c2] == ForgetfulRun(max, long, max1, short, t0, t);
    FillFrom([], c0);
    EmptiedBy(t0, max, [] + Units(c0, max), c1);
    FillFrom([] + Units(c0, max), c2);
    assert [] + Units(c0, max) == Units(c0, max);
  }

  /**
   * Any shorter window in between, for whatever limit, forgets stamps that a longer one still has to count:
   * `max` units fill the long window and another one is admitted into it.
   */
  lemma WindowChangeBreaksBound(max: int, long: int, max1: int, short: int, t0: real, t: real)
    requires max >= 1 && max1 != UNLIMITED && t0 + short as real < t <= t0 + long as real
    ensures !WithinLimits(After(ForgetfulRun(max, long, max1, short, t0, t)).log)
  {
    ForgetfulLog(max, long, max1, short, t0, t);
    var log := After(ForgetfulRun(max, long, max1, short, t0, t)).log;
    assert log[0].at == t0 && log[max] == Unit(t, max, long);
    assert log[0].at >= log[max].at - log[max].seconds as real;
  }

  datatype Tier = Tier(max: int, seconds: int)

  function TierOf(c: Check): Tier {
    Tier(c.max, c.seconds)
  }

  ghost predicate Configured(checks: seq<Check>, tiers: set<Tier>) {
    forall i :: 0 <= i < |checks| ==> TierOf(checks[i]) in tiers
  }

  /** Every run of a key checked under these tiers keeps every unit within the limit it was admitted under. */
  ghost predicate Safe(tiers: set<Tier>) {
    forall checks :: Configured(checks, tiers) && ClockForward(checks) ==> WithinLimits(After(checks).log)
  }

  /** A check under the first tier, which evicts, can forget stamps that one under the second, which admits, counts. */
  predicate Forgets(a: Tier, b: Tier) {
    a.max != UNLIMITED && b.max >= 1 && a.seconds < b.seconds && b.seconds >= 0
  }

  ghost predicate Forgetless(tiers: set<Tier>) {
    forall a, b :: a in tiers && b in tiers ==> !Forgets(a, b)
  }

  /** Whatever has left the deque also lies before the window of any tier that can still admit. */
  ghost predicate Remembered(tiers: set<Tier>, r: Run, now: real) {
    forall b :: b in tiers && b.max >= 1 && b.seconds >= 0 ==> Tracks(r.window, r.log, now - b.seconds as real)
  }

  lemma TracksLater(window: seq<real>, log: seq<Unit>, cutoff: real, later: real)
    requires Tracks(window, log, cutoff) && cutoff <= later
    ensures Tracks(window, log, later)
  {
  }

  lemma EvictLess(window: seq<real>, log: seq<Unit>, cutoff: real, later: real)
    requires Tracks(window, log, later) && cutoff <= later
    ensures Tracks(Evict(window, cutoff), log, later)
  {
    EvictKeepsTail(window, cutoff);
    var gone := |log| - |window|;
    forall i | 0 <= i < |log| - |Evict(window, cutoff)|
      ensures log[i].at < later
    {
      if i >= gone {
        assert window[i - gone] == log[gone + (i - gone)].at;
      }
    }
  }

  lemma StepTracksLater(r: Run, c: Check, later: real)
    requires Tracks(r.window, r.log, later) && (c.max == UNLIMITED || Cutoff(c) <= later)
    ensures Tracks(Step(r, c).window, Step(r, c).log, later)
  {
    StepIs(r, c);
    if c.max != UNLIMITED {
      EvictLess(r.window, r.log, Cutoff(c), later);
      AdmitTracks(Evict(r.window, Cutoff(c)), r.log, c, Max(1, c.count), later);
    }
  }

  lemma StepRemembered(tiers: set<Tier>, r: Run, c: Check, now: real)
    requires Forgetless(tiers) && TierOf(c) in tiers && Remembered(tiers, r, now) && now <= c.now
    ensures Remembered(tiers, Step(r, c), c.now)
  {
    forall b | b in tiers && b.max >= 1 && b.seconds >= 0
      ensures Tracks(Step(r, c).window, Step(r, c).log, c.now - b.seconds as real)
    {
      assert !Forgets(TierOf(c), b);
      TracksLater(r.window, r.log, now - b.seconds as real, c.now - b.seconds as real);
      StepTracksLater(r, c, c.now - b.seconds as real);
    }
  }

  /** A unit admitted under a negative window has no unit in it. */
  lemma AdmitNegative(log: seq<Unit>, c: Check, n: nat)
    requires c.seconds < 0 && Ordered(log, c.now) && WithinLimits(log)
    ensures WithinLimits(log + Units(c, n))
  {
    var log' := log + Units(c, n);
    forall i, j | 0 <= i <= j < |log'| && log'[i].at >= log'[j].at - log'[j].seconds as real
      ensures j < |log| && j - i < log'[j].max
    {
      assert i < |log| ==> log'[i] == log[i];
      assert j < |log| ==> log'[j] == log[j];
    }
  }

  lemma NegativeStepWithin(r: Run, c: Check)
    requires c.seconds < 0 && Ordered(r.log, c.now) && WithinLimits(r.log)
    ensures WithinLimits(Step(r, c).log)
  {
    StepIs(r, c);
    AdmitNegative(r.log, c, Max(1, c.count));
  }

  lemma StepDenied(r: Run, c: Check)
    requires c.max == UNLIMITED || c.max < 1
    ensures Step(r, c).log == r.log
  {
    StepIs(r, c);
  }

  lemma StepRememberedWithin(tiers: set<Tier>, r: Run, c: Check)
    requires TierOf(c) in tiers && Remembered(tiers, r, c.now) && Ordered(r.log, c.now) && WithinLimits(r.log)
    ensures WithinLimits(Step(r, c).log)
  {
    if c.max == UNLIMITED || c.max < 1 {
      StepDenied(r, c);
    } else if c.seconds >= 0 {
      assert Tracks(r.window, r.log, c.now - TierOf(c).seconds as real);
      StepWithin(r, c, Cutoff(c));
    } else {
      NegativeStepWithin(r, c);
    }
  }

  lemma {:induction false} ForgetlessRun(tiers: set<Tier>, checks: seq<Check>, now: real)
    requires Forgetless(tiers) && Configured(checks, tiers) && ClockForward(checks)
    requires forall i :: 0 <= i < |checks| ==> checks[i].now <= now
    ensures Remembered(tiers, After(checks), now) && Ordered(After(checks).log, now) && WithinLimits(After(checks).log)
  {
    if checks != [] {
      var c, before := checks[|checks| - 1], checks[..|checks| - 1];
      assert forall i :: 0 <= i < |before| ==> before[i] == checks[i];
      ForgetlessRun(tiers, before, c.now);
      StepRemembered(tiers, After(before), c, c.now);
      StepRememberedWithin(tiers, After(before), c);
      StepOrdered(After(before), c, c.now);
      RememberedLater(tiers, After(checks), c.now, now);
    }
  }

  lemma RememberedLater(tiers: set<Tier>, r: Run, now: real, later: real)
    requires Remembered(tiers, r, now) && now <= later
    ensures Remembered(tiers, r, later)
  {
    forall b | b in tiers && b.max >= 1 && b.seconds >= 0
      ensures Tracks(r.window, r.log, later - b.seconds as real)
    {
      TracksLater(r.window, r.log, now - b.seconds as real, later - b.seconds as real);
    }
  }

  /** Under such a table every interval is bounded, with no assumption on how the tiers of a key change. */
  lemma ForgetlessIsBounded(tiers: set<Tier>, checks: seq<Check>, from: real, to: real)
    requires Forgetless(tiers) && Configured(checks, tiers) && ClockForward(checks)
    ensures IntervalWithin(After(checks).log, from, to)
  {
    if checks != [] {
      ForgetlessRun(tiers, checks, checks[|checks| - 1].now);
      IntervalIsWithin(After(checks).log, from, to);
    }
  }

  /**
   * Exactly which tier tables are safe: over all runs with a clock that never runs backwards the limits hold if
   * and only if no finite tier has a shorter window than one that can admit something in a window of its own.
   */
  lemma SafeIff(tiers: set<Tier>)
    ensures Safe(tiers) <==> Forgetless(tiers)
  {
    if Forgetless(tiers) {
      forall checks: seq<Check> | Configured(checks, tiers) && ClockForward(checks)
        ensures WithinLimits(After(checks).log)
      {
        if checks != [] {
          ForgetlessRun(tiers, checks, checks[|checks| - 1].now);
        }
      }
    }
    forall a, b | a in tiers && b in tiers && Forgets(a, b)
      ensures !Safe(tiers)
    {
      var checks := ForgetfulRun(b.max, b.seconds, a.max, a.seconds, 0.0, b.seconds as real);
      WindowChangeBreaksBound(b.max, b.seconds, a.max, a.seconds, 0.0, b.seconds as real);
      assert TierOf(checks[0]) == b && TierOf(checks[1]) == a && TierOf(checks[2]) == b;
      assert Configured(checks, tiers) && ClockForward(checks);
    }
  }

  /** The tiers shipped with the service: `free` forgets what the paid tiers count, but not what `enterprise` does. */
  lemma ShippedTiers()
    ensures var free, starter, pro, enterprise :=
              Tier(500, 3600), Tier(25000, 86400), Tier(200000, 86400), Tier(UNLIMITED, 86400);
            && !Safe({free, starter, pro, enterprise})
            && Safe({free, enterprise}) && Safe({starter, pro, enterprise})
  {
    var free, starter, pro, enterprise :=
      Tier(500, 3600), Tier(25000, 86400), Tier(200000, 86400), Tier(UNLIMITED, 86400);
    assert Forgets(free, starter);
    SafeIff({free, starter, pro, enterprise});
    SafeIff({free, enterprise});
    SafeIff({starter, pro, enterprise});
  }

  // ---------------------------------------------------------------- batches

  /** `n` successive single checks at one instant; false once one of them is denied. */
  function Singles(window: seq<real>, max: int, seconds: int, n: nat, now: real): (seq<real>, bool) {
    if n == 0 then (window, true)
    else
      var (w, ok) := Singles(window, max, seconds, n - 1, now);
      if !ok then (w, false)
      else
        var (w', verdict) := Decide(w, max, seconds, 1, now);
        (w', verdict.Allowed?)
  }

  /** A check whose cutoff expires nothing. */
  lemma SingleOn(window: seq<real>, max: int, seconds: int, now: real)
    requires window == [] || window[0] >= now - seconds as real
    ensures var (w, verdict) := Decide(window, max, seconds, 1, now);
            (verdict.Allowed? <==> |window| < max) && (verdict.Allowed? ==> w == window + [now])
  {
    assert Repeat(now, 1) == [now];
  }

  lemma SinglesStep(window: seq<real>, max: int, seconds: int, n: nat, now: real)
    requires n >= 1
    ensures var (w, ok) := Singles(window, max, seconds, n - 1, now);
            Singles(window, max, seconds, n, now) ==
            if !ok then (w, false)
            else (Decide(w, max, seconds, 1, now).0, Decide(w, max, seconds, 1, now).1.Allowed?)
  {
  }

  lemma FirstOfFill(kept: seq<real>, n: nat, now: real, cutoff: real)
    requires n >= 1 && (if kept != [] then kept[0] >= cutoff else cutoff <= now)
    ensures (kept + Repeat(now, n))[0] >= cutoff
    ensures kept + Repeat(now, n) + [now] == kept + Repeat(now, n + 1)
  {
  }

  lemma FirstSingle(window: seq<real>, max: int, seconds: int, now: real)
    ensures var kept := Evict(window, now - seconds as real);
            var (w, verdict) := Decide(window, max, seconds, 1, now);
            (verdict.Allowed? <==> |kept| < max) && (verdict.Allowed? ==> w == kept + Repeat(now, 1))
  {
  }

  lemma {:induction false} SinglesFill(window: seq<real>, max: int, seconds: int, n: nat, now: real)
    requires n >= 1 && (seconds >= 0 || Evict(window, now - seconds as real) != [])
    ensures var kept := Evict(window, now - seconds as real);
            var r := Singles(window, max, seconds, n, now);
            (r.1 <==> |kept| + n <= max) && (r.1 ==> r.0 == kept + Repeat(now, n))
  {
    var cutoff := now - seconds as real;
    var kept := Evict(window, cutoff);
    SinglesStep(window, max, seconds, n, now);
    if n > 1 {
      SinglesFill(window, max, seconds, n - 1, now);
      FirstOfFill(kept, n - 1, now, cutoff);
      SingleOn(kept + Repeat(now, n - 1), max, seconds, now);
    } else {
      FirstSingle(window, max, seconds, now);
    }
  }

  /** Under a negative window each single check expires the stamp of the one before. */
  lemma {:induction false} SinglesExpire(window: seq<real>, max: int, seconds: int, n: nat, now: real)
    requires n >= 1 && seconds < 0 && Evict(window, now - seconds as real) == []
    ensures var r := Singles(window, max, seconds, n, now);
            (r.1 <==> max >= 1) && (r.1 ==> r.0 == [now])
  {
    SinglesStep(window, max, seconds, n, now);
    assert Repeat(now, 1) == [now];
    if n > 1 {
      SinglesExpire(window, max, seconds, n - 1, now);
      EvictOld(now, 1, now - seconds as real);
    }
  }

  /** The batch is admitted exactly when `n` single checks at that instant would be, and leaves the same deque. */
  ghost predicate BatchIsSingles(window: seq<real>, max: int, seconds: int, n: nat, now: real) {
    var (w, verdict) := Decide(window, max, seconds, n, now);
    var (w', ok) := Singles(window, max, seconds, n, now);
    (verdict.Allowed? <==> ok) && (ok ==> w == w')
  }

  /**
   * A batch is as good as its single checks, except that under a negative window with nothing kept the single
   * checks expire each other; a denied batch consumes nothing, it only drops expired stamps.
   */
  lemma BatchIsAllOrNothing(window: seq<real>, max: int, seconds: int, n: nat, now: real)
    requires n >= 1
    ensures BatchIsSingles(window, max, seconds, n, now) <==>
              seconds >= 0 || Evict(window, now - seconds as real) != [] || n == 1 || max < 1
    ensures var (w, verdict) := Decide(window, max, seconds, n, now);
            !verdict.Allowed? ==> w == Evict(window, now - seconds as real)
  {
    if seconds >= 0 || Evict(window, now - seconds as real) != [] {
      SinglesFill(window, max, seconds, n, now);
    } else {
      SinglesExpire(window, max, seconds, n, now);
      assert |Repeat(now, n)| == n && Repeat(now, 1) == [now];
    }
  }

  // ---------------------------------------------------------------- the reported reset time

  lemma {:induction false} EvictSorted(window: seq<real>, cutoff: real, m: nat)
    requires Sorted(window) && m < |window|
    ensures |Evict(window, cutoff)| < |window| - m <==> window[m] < cutoff
  {
    if window[0] < cutoff && m > 0 {
      EvictSorted(window[1..], cutoff, m - 1);
    }
  }

  /** When a denied batch is retried with no admission in between, one stamp of the deque decides. */
  lemma RetryDecidedBy(window: seq<real>, max: int, seconds: int, n: nat, retry: real)
    requires Sorted(window) && 1 <= n <= max < |window| + n
    ensures Decide(window, max, seconds, n, retry).1.Allowed? <==>
              window[|window| + n - max - 1] < retry - seconds as real
  {
    EvictSorted(window, retry - seconds as real, |window| + n - max - 1);
  }

  /**
   * For a single unit denied by a full deque that stamp is the oldest: a retry up to the reported reset time
   * is denied and a retry from one second after it is admitted.
   */
  lemma ResetTimeIsRight(window: seq<real>, max: int, seconds: int, now: real, retry: real)
    requires Sorted(window) && max >= 1 && now >= 0.0 && now <= retry
    requires var (kept, verdict) := Decide(window, max, seconds, 1, now); verdict.Exceeded? && |kept| == max
    ensures var (kept, verdict) := Decide(window, max, seconds, 1, now);
            && (retry <= verdict.resetAt as real ==> !Decide(kept, max, seconds, 1, retry).1.Allowed?)
            && (retry >= verdict.resetAt as real + 1.0 ==> Decide(kept, max, seconds, 1, retry).1.Allowed?)
  {
    var kept := Evict(window, now - seconds as real);
    EvictKeepsTail(window, now - seconds as real);
    RetryDecidedBy(kept, max, seconds, 1, retry);
  }

  /**
   * The reported time can be too early, for a batch or after the limit was lowered: it only frees the oldest
   * stamp.
   */
  lemma BatchResetTimeTooEarly(window: seq<real>, max: int, seconds: int, n: nat, now: real)
    requires Sorted(window) && 1 <= n <= max < |window| + n - 1 && now >= 0.0
    requires window[0] >= now - seconds as real && window[1] >= window[0] + 1.0
    ensures var (kept, verdict) := Decide(window, max, seconds, n, now);
            && kept == window && verdict.Exceeded?
            && forall retry: real :: verdict.resetAt as real <= retry <= window[1] + seconds as real ==>
                 !Decide(kept, max, seconds, n, retry).1.Allowed?
  {
    forall retry: real | retry <= window[1] + seconds as real
      ensures !Decide(window, max, seconds, n, retry).1.Allowed?
    {
      RetryDecidedBy(window, max, seconds, n, retry);
    }
  }

  // ---------------------------------------------------------------- the object

  /** `check_many` with the limits of its tier: an unlimited tier leaves the deque alone. */
  function Answer(limits: (int, int), window: seq<real>, count: int, now: real): (seq<real>, Verdict) {
    if limits.0 == UNLIMITED then (window, Allowed(-1, 0)) else Decide(window, limits.0, limits.1, count, now)
  }

  function CheckOf(limits: (int, int), count: int, now: real): Check {
    Check(limits.0, limits.1, count, now)
  }

  lemma AnswerIsStep(r: Run, limits: (int, int), count: int, now: real)
    ensures Step(r, CheckOf(limits, count, now)).window == Answer(limits, r.window, count, now).0
  {
  }

  /** `first` is the position of the first stamp that has not expired. */
  predicate StartsAt(window: seq<real>, cutoff: real, first: nat) {
    && first <= |window|
    && (forall i :: 0 <= i < first ==> window[i] < cutoff)
    && (first < |window| ==> window[first] >= cutoff)
  }

  /**
   * What a caller is told under a finite limit and what becomes of the deque, from the deque before: the request is
   * admitted exactly when it fits next to the stamps that have not expired.
   */
  ghost predicate Told(before: seq<real>, first: nat, max: int, seconds: int, count: int, now: real,
                       after: seq<real>, v: Verdict)
    requires first <= |before|
  {
    var n, held := Max(1, count), |before| - first;
    if held + n <= max then
      && v == Allowed(max - held - n, Trunc(now + seconds as real))
      && |after| == held + n && after[..held] == before[first..]
      && forall i :: held <= i < |after| ==> after[i] == now
    else
      && v == Exceeded(max, Max(0, max - held), Trunc((if held > 0 then before[first] else now) + seconds as real))
      && after == before[first..]
  }

  /** `(max, seconds)` are the limits; an unlimited tier is let through and leaves the deque alone. */
  ghost predicate ToldRight(limits: (int, int), before: seq<real>, count: int, now: real,
                           after: seq<real>, v: Verdict) {
    if limits.0 == -1 then v == Allowed(-1, 0) && after == before
    else exists first: nat ::
      StartsAt(before, now - limits.1 as real, first) &&
      Told(before, first, limits.0, limits.1, count, now, after, v)
  }

  lemma DecideTells(window: seq<real>, first: nat, max: int, seconds: int, count: int, now: real)
    requires first <= |window| && Evict(window, now - seconds as real) == window[first..]
    ensures var (after, v) := Decide(window, max, seconds, count, now);
            Told(window, first, max, seconds, count, now, after, v)
  {
  }

  /** The answer of a check, without reference to how it is computed. */
  lemma AnswerTells(limits: (int, int), window: seq<real>, count: int, now: real)
    ensures var (after, v) := Answer(limits, window, count, now); ToldRight(limits, window, count, now, after, v)
  {
    var cutoff := now - limits.1 as real;
    var first := |window| - |Evict(window, cutoff)|;
    EvictKeepsTail(window, cutoff);
    assert first < |window| ==> Evict(window, cutoff)[0] == window[first];
    assert StartsAt(window, cutoff, first);
    if limits.0 != -1 {
      DecideTells(window, first, limits.0, limits.1, count, now);
    }
  }

  /** There is only one such position, so the answer is determined. */
  lemma StartIsUnique(window: seq<real>, cutoff: real, i: nat, j: nat)
    requires StartsAt(window, cutoff, i) && StartsAt(window, cutoff, j)
    ensures i == j
  {
  }

  /**
   * The history of a key grows by this check, and the log of its admissions by the check's units exactly if the
   * caller was told that a counted check is allowed.
   */
  ghost predicate Logged(h: seq<Check>, h': seq<Check>, limits: (int, int), count: int, now: real, v: Verdict) {
    var c := Check(limits.0, limits.1, count, now);
    && h' == h + [c]
    && After(h').log == After(h).log + if limits.0 != -1 && v.Allowed? then Units(c, Max(1, count)) else []
  }

  lemma CheckLogged(h: seq<Check>, limits: (int, int), count: int, now: real)
    ensures var c := CheckOf(limits, count, now);
            var (after, v) := Answer(limits, After(h).window, count, now);
            After(h + [c]).window == after && Logged(h, h + [c], limits, count, now, v)
  {
    AnswerIsStep(After(h), limits, count, now);
    AfterAppend(h, CheckOf(limits, count, now));
  }

  function WindowOf(windows: map<string, seq<real>>, key: string): seq<real> {
    if key in windows then windows[key] else []
  }

  function HistoryOf(history: map<string, seq<Check>>, key: string): seq<Check> {
    if key in history then history[key] else []
  }

  /** The deque of the key is what the checks made for it leave. */
  ghost predicate Explained(windows: map<string, seq<real>>, history: map<string, seq<Check>>, key: string) {
    After(HistoryOf(history, key)).window == WindowOf(windows, key)
  }

  /** A check of one key leaves the others explained. */
  lemma OneKeyChanges(windows: map<string, seq<real>>, windows': map<string, seq<real>>,
                      history: map<string, seq<Check>>, history': map<string, seq<Check>>,
                      key: string, checks: seq<Check>)
    requires history' == history[key := checks] && forall k: string :: Explained(windows, history, k)
    requires forall k: string :: k != key ==> WindowOf(windows', k) == WindowOf(windows, k)
    requires WindowOf(windows', key) == After(checks).window
    ensures forall k: string :: Explained(windows', history', k)
    ensures forall k: string :: k != key ==> HistoryOf(history', k) == HistoryOf(history, k)
  {
    forall k: string
      ensures Explained(windows', history', k)
    {
      assert Explained(windows, history, k);
      assert HistoryOf(history', k) == if k == key then checks else HistoryOf(history, k);
    }
  }

  class SlidingWindowLimiter {
    const limitsByTier: map<string, TierConfig>
    var windows: map<string, seq<real>>
    ghost var history: map<string, seq<Check>>

    /** Every deque is what the checks made for its key leave. */
    ghost predicate Valid()
      reads this
    {
      forall k: string :: Explained(windows, history, k)
    }

    constructor (limitsByTier: map<string, TierConfig>)
      ensures Valid() && this.limitsByTier == limitsByTier && history == map[]
    {
      this.limitsByTier := limitsByTier;
      windows, history := map[], map[];
    }

    method CheckMany(key: string, tier: string, count: int, now: real) returns (v: Verdict)
      requires Valid()
      modifies this
      ensures Valid()
      ensures (WindowOf(windows, key), v) ==
              Answer(GetLimits(limitsByTier, tier), old(WindowOf(windows, key)), count, now)
      ensures ToldRight(GetLimits(limitsByTier, tier), old(WindowOf(windows, key)), count, now,
                        WindowOf(windows, key), v)
      ensures Logged(old(HistoryOf(history, key)), HistoryOf(history, key),
                     GetLimits(limitsByTier, tier), count, now, v)
      ensures forall k :: k != key ==>
                WindowOf(windows, k) == old(WindowOf(windows, k)) && HistoryOf(history, k) == old(HistoryOf(history, k))
    {
      var limits := GetLimits(limitsByTier, tier);
      ghost var before, h := windows, HistoryOf(history, key);
      ghost var checks := h + [CheckOf(limits, count, now)];
      assert Explained(windows, history, key);
      CheckLogged(h, limits, count, now);
      AnswerTells(limits, WindowOf(windows, key), count, now);
      v := CheckWithin(key, limits, count, now);
      OneKeyChanges(before, windows, history, history[key := checks], key, checks);
      history := history[key := checks];
    }

    /** `check_many` once the limits of the tier are known. */
    method CheckWithin(key: string, limits: (int, int), count: int, now: real) returns (v: Verdict)
      modifies this`windows
      ensures (WindowOf(windows, key), v) == Answer(limits, old(WindowOf(windows, key)), count, now)
      ensures forall k :: k != key ==> WindowOf(windows, k) == old(WindowOf(windows, k))
    {
      if limits.0 == UNLIMITED {
        return Allowed(-1, 0);
      }
      var window: seq<real>;
      window, v := Locked(WindowOf(windows, key), limits.0, limits.1, count, now);
      windows := windows[key := window];
    }

    /** The body of `async with self._lock`. */
    static method Locked(deque: seq<real>, max: int, seconds: int, count: int, now: real)
      returns (window: seq<real>, v: Verdict)
      ensures (window, v) == Decide(deque, max, seconds, count, now)
    {
      var n := Max(1, count);
      var cutoff := now - seconds as real;
      window := deque;
      while window != [] && window[0] < cutoff
        invariant Evict(window, cutoff) == Evict(deque, cutoff)
        decreases |window|
      {
        window := window[1..];
      }
      var remaining := max - |window|;
      if remaining < n {
        var base := if window != [] then window[0] else now;
        return window, Exceeded(max, Max(0, remaining), Trunc(base + seconds as real));
      }
      window := Fill(window, now, n);
      v := Allowed(max - |window|, Trunc(now + seconds as real));
    }

    static method Fill(deque: seq<real>, now: real, n: nat) returns (window: seq<real>)
      ensures window == deque + Repeat(now, n)
    {
      window := deque;
      for i := 0 to n
        invariant window == deque + Repeat(now, i)
      {
        window := window + [now];
      }
    }

    /** `_check_rate_limit_units` of the scrape routes: one batch check, or a single check for one unit. */
    method CheckUnits(key: string, tier: string, units: int, now: real) returns (v: Verdict)
      requires Valid()
      modifies this
      ensures Valid()
      ensures (WindowOf(windows, key), v) ==
              Answer(GetLimits(limitsByTier, tier), old(WindowOf(windows, key)), Max(1, units), now)
      ensures ToldRight(GetLimits(limitsByTier, tier), old(WindowOf(windows, key)), Max(1, units), now,
                        WindowOf(windows, key), v)
    {
      var n := Max(1, units);
      if n > 1 {
        v := CheckMany(key, tier, n, now);
      } else {
        v := CheckMany(key, tier, 1, now);
      }
    }
  }
}
