/**
 * The PostgreSQL-backed limiter of asb_api/db/rate_limiter.py: it counts the usage rows of a key, which are
 * only written after a scrape has run, so a check and the rows it leads to are apart in time.
 */
module UsageLimiter {
  import opened Common
  import opened SlidingWindow

  /** `SELECT COUNT(*) ... WHERE created_at > cutoff` */
  function CountSince(rows: seq<real>, cutoff: real): (n: nat)
    ensures n <= |rows|
  {
    if rows == [] then 0 else CountSince(rows[..|rows| - 1], cutoff) + if rows[|rows| - 1] > cutoff then 1 else 0
  }

  function IndicesSince(rows: seq<real>, cutoff: real): set<nat> {
    set i: nat | i < |rows| && rows[i] > cutoff
  }

  /** The count is the number of rows after the cutoff. */
  lemma {:induction false} CountIsCardinality(rows: seq<real>, cutoff: real)
    ensures CountSince(rows, cutoff) == |IndicesSince(rows, cutoff)|
  {
    if rows != [] {
      var before, last := rows[..|rows| - 1], |rows| - 1;
      CountIsCardinality(before, cutoff);
      assert IndicesSince(rows, cutoff) == IndicesSince(before, cutoff) + if rows[last] > cutoff then {last} else {};
    }
  }

  /** `... WHERE created_at > cutoff ORDER BY created_at ASC LIMIT 1` */
  function OldestSince(rows: seq<real>, cutoff: real): (oldest: Option<real>)
    ensures oldest.Some? ==> oldest.value in rows && oldest.value > cutoff
    ensures forall t :: t in rows && t > cutoff ==> oldest.Some? && oldest.value <= t
  {
    if rows == [] then None
    else
      var t, before := rows[|rows| - 1], OldestSince(rows[..|rows| - 1], cutoff);
      assert rows == rows[..|rows| - 1] + [t];
      if t > cutoff && (before == None || t < before.value) then Some(t) else before
  }

  /** The outcome of `usage_tracker.check_overage`, when a tracker is configured and answers. */
  datatype Overage = NoVerdict | Within | Over(cost: real)

  datatype Answer = Limited(verdict: Verdict) | OverageExceeded(cost: real)

  /** The section under the advisory lock; `locked` is whether one of the two attempts got it. */
  function Count(rows: seq<real>, max: int, seconds: int, count: int, now: real, locked: bool): Verdict {
    var requested := Max(1, count);
    var cutoff := now - seconds as real;
    var current, oldest := CountSince(rows, cutoff), OldestSince(rows, cutoff);
    var resetAt := Trunc((if oldest.Some? then oldest.value else now) + seconds as real);
    if !locked then Exceeded(max, 0, Trunc(now + seconds as real))
    else if max - current < requested then Exceeded(max, Max(0, max - current), resetAt)
    else Allowed(max - current - requested, Trunc(now + seconds as real))
  }

  /** `oldest` is the first row after the cutoff, by time. */
  predicate OldestOf(rows: seq<real>, cutoff: real, oldest: real) {
    oldest in rows && oldest > cutoff && forall t :: t in rows && t > cutoff ==> oldest <= t
  }

  /**
   * What a caller of a finite tier is told, from the rows: the request is admitted exactly when the lock was got
   * and it fits next to the rows after the cutoff.
   */
  ghost predicate RowsTell(rows: seq<real>, max: int, seconds: int, count: int, now: real, locked: bool, v: Verdict) {
    var cutoff, n := now - seconds as real, Max(1, count);
    var held := |set i: nat | i < |rows| && rows[i] > cutoff|;
    if !locked then v == Exceeded(max, 0, Trunc(now + seconds as real))
    else if held + n <= max then v == Allowed(max - held - n, Trunc(now + seconds as real))
    else
      && v.Exceeded? && v.limit == max && v.remaining == Max(0, max - held)
      && (held == 0 ==> v.resetAt == Trunc(now + seconds as real))
      && (held > 0 ==> exists oldest :: OldestOf(rows, cutoff, oldest) && v.resetAt == Trunc(oldest + seconds as real))
  }

  lemma CountTells(rows: seq<real>, max: int, seconds: int, count: int, now: real, locked: bool)
    ensures RowsTell(rows, max, seconds, count, now, locked, Count(rows, max, seconds, count, now, locked))
  {
    var cutoff := now - seconds as real;
    CountIsCardinality(rows, cutoff);
    var held := set i: nat | i < |rows| && rows[i] > cutoff;
    assert held == IndicesSince(rows, cutoff);
    if |held| > 0 {
      var i :| i in held;
      assert rows[i] in rows && OldestOf(rows, cutoff, OldestSince(rows, cutoff).value);
    }
    if OldestSince(rows, cutoff).Some? {
      OldestIsHeld(rows, cutoff);
    }
  }

  lemma OldestIsHeld(rows: seq<real>, cutoff: real)
    requires OldestSince(rows, cutoff).Some?
    ensures |IndicesSince(rows, cutoff)| > 0
  {
    var i: nat :| i < |rows| && rows[i] == OldestSince(rows, cutoff).value;
    assert i in IndicesSince(rows, cutoff);
  }

  /** A check without an overage denial lets the request in. */
  predicate Admits(rows: seq<real>, tier: Tier, count: int, now: real, locked: bool) {
    tier.max == UNLIMITED || Count(rows, tier.max, tier.seconds, count, now, locked).Allowed?
  }

  class PostgresRateLimiter {
    const limitsByTier: map<string, TierConfig>

    constructor (limitsByTier: map<string, TierConfig>)
      ensures this.limitsByTier == limitsByTier
    {
      this.limitsByTier := limitsByTier;
    }

    method CheckMany(tier: string, count: int, now: real, overage: Overage, locked: bool, rows: seq<real>)
      returns (a: Answer)
      ensures overage.Over? ==> a == OverageExceeded(overage.cost)
      ensures !overage.Over? ==>
                var (max, seconds) := GetLimits(limitsByTier, tier);
                a == Limited(if max == UNLIMITED then Allowed(-1, 0) else Count(rows, max, seconds, count, now, locked))
      ensures !overage.Over? ==>
                var (max, seconds) := GetLimits(limitsByTier, tier);
                a.Limited? && if max == -1 then a.verdict == Allowed(-1, 0)
                              else RowsTell(rows, max, seconds, count, now, locked, a.verdict)
      ensures !overage.Over? ==>
                var (max, seconds) := GetLimits(limitsByTier, tier);
                a.Limited? && (a.verdict.Allowed? <==> Admits(rows, Tier(max, seconds), count, now, locked))
    {
      var requested := Max(1, count);
      if overage.Over? {
        return OverageExceeded(overage.cost);
      }
      var limits := GetLimits(limitsByTier, tier);
      var max, seconds := limits.0, limits.1;
      CountTells(rows, max, seconds, count, now, locked);
      if max == UNLIMITED {
        return Limited(Allowed(-1, 0));
      }
      var resetAt := Trunc(now + seconds as real);
      if !locked {
        return Limited(Exceeded(max, 0, resetAt));
      }
      var cutoff := now - seconds as real;
      var current := CountSince(rows, cutoff);
      if current >= max {
        var oldest := OldestSince(rows, cutoff);
        if oldest.Some? {
          resetAt := Trunc(oldest.value + seconds as real);
        }
        return Limited(Exceeded(max, 0, resetAt));
      }
      var before := max - current;
      if before < requested {
        var oldest := OldestSince(rows, cutoff);
        if oldest.Some? {
          resetAt := Trunc(oldest.value + seconds as real);
        }
        return Limited(Exceeded(max, Max(0, before), resetAt));
      }
      return Limited(Allowed(Max(0, max - current - requested), resetAt));
    }
  }

  // ---------------------------------------------------------------- admitted now, recorded later

  /**
   * The rows of one key, the units admitted but neither recorded nor dropped yet, and the clock.  The rest is
   * history: for each row the limits in force at the last admission before it was written, and of the last
   * admission the rows present, its instant and its limits.
   */
  datatype State = State(
    rows: seq<real>,
    under: seq<Tier>,
    pending: nat,
    now: real,
    mark: nat,
    markAt: real,
    tier: Tier)

  datatype Event =
    | Ask(tier: Tier, count: int, now: real, locked: bool)
    | Record(now: real)   // an admitted unit has run and its usage row is inserted
    | Drop                // an admitted unit failed before its row was written

  predicate Enabled(s: State, e: Event) {
    match e
    case Ask(_, _, now, _) => s.now <= now
    case Record(now) => s.now <= now && s.pending > 0
    case Drop => s.pending > 0
  }

  function Next(s: State, e: Event): State
    requires Enabled(s, e)
  {
    match e
    case Ask(tier, count, now, locked) =>
      if Admits(s.rows, tier, count, now, locked)
      then State(s.rows, s.under, s.pending + Max(1, count), now, |s.rows|, now, tier)
      else s.(now := now)
    case Record(now) =>
      s.(rows := s.rows + [now], under := s.under + [s.tier], pending := s.pending - 1, now := now)
    case Drop => s.(pending := s.pending - 1)
  }

  /** A run in which no more than `p` units are ever unrecorded at once. */
  ghost predicate ValidRun(p: nat, s: State, events: seq<Event>)
    decreases |events|
  {
    s.pending <= p &&
    (events == [] || (Enabled(s, events[0]) && ValidRun(p, Next(s, events[0]), events[1..])))
  }

  ghost function Final(p: nat, s: State, events: seq<Event>): State
    requires ValidRun(p, s, events)
    decreases |events|
  {
    if events == [] then s else Final(p, Next(s, events[0]), events[1..])
  }

  predicate Initial(s: State) {
    s.rows == [] && s.under == [] && s.pending == 0 && s.mark == 0 && s.markAt == s.now
  }

  /**
   * A half-open window that ends at a row and is no longer than the finite limits that row was written under
   * allow holds at most their maximum and `p - 1` rows.
   */
  ghost predicate Bounded(rows: seq<real>, under: seq<Tier>, p: nat)
    requires |rows| == |under|
  {
    forall i, j :: 0 <= i <= j < |rows| && under[j].max != UNLIMITED && rows[j] - rows[i] < under[j].seconds as real ==>
      j - i + 1 <= under[j].max + p - 1
  }

  /** Fewer than `max` rows lie after the cutoff. */
  ghost predicate Room(rows: seq<real>, cutoff: real, max: int) {
    forall k :: 0 <= k < |rows| && rows[k] > cutoff ==> |rows| - k <= max - 1
  }

  /** What the last admission leaves behind. */
  ghost predicate Admitted(p: nat, s: State) {
    && s.mark <= |s.rows| && s.markAt <= s.now
    && |s.rows| - s.mark + s.pending <= p
    && (s.pending > 0 && s.tier.max != UNLIMITED ==>
          s.tier.max >= 1 && Room(s.rows[..s.mark], s.markAt - s.tier.seconds as real, s.tier.max))
  }

  ghost predicate Inv(p: nat, s: State) {
    && Sorted(s.rows) && (forall i :: 0 <= i < |s.rows| ==> s.rows[i] <= s.now)
    && |s.under| == |s.rows|
    && Admitted(p, s)
    && Bounded(s.rows, s.under, p)
  }

  lemma {:induction false} SortedCount(rows: seq<real>, cutoff: real, k: nat)
    requires Sorted(rows) && k < |rows| && rows[k] > cutoff
    ensures |rows| - k <= CountSince(rows, cutoff)
  {
    if k < |rows| - 1 {
      SortedCount(rows[..|rows| - 1], cutoff, k);
    }
  }

  lemma AdmissionLeavesRoom(rows: seq<real>, tier: Tier, count: int, now: real, locked: bool)
    requires Sorted(rows) && Count(rows, tier.max, tier.seconds, count, now, locked).Allowed?
    ensures tier.max >= 1 && Room(rows, now - tier.seconds as real, tier.max)
  {
    forall k | 0 <= k < |rows| && rows[k] > now - tier.seconds as real
      ensures |rows| - k <= tier.max - 1
    {
      SortedCount(rows, now - tier.seconds as real, k);
    }
  }

  lemma AskKeeps(p: nat, s: State, e: Event)
    requires Inv(p, s) && e.Ask? && Enabled(s, e) && Next(s, e).pending <= p
    ensures Inv(p, Next(s, e))
  {
    if Admits(s.rows, e.tier, e.count, e.now, e.locked) {
      assert s.rows[..|s.rows|] == s.rows;
      if e.tier.max != UNLIMITED {
        AdmissionLeavesRoom(s.rows, e.tier, e.count, e.now, e.locked);
      }
    }
  }

  /** A window that ends at the new row: rows before the last admission, rows since then, and the row itself. */
  lemma WindowAtNewRow(p: nat, s: State, now: real, i: nat)
    requires Inv(p, s) && s.pending > 0 && s.now <= now && i <= |s.rows| && s.tier.max != UNLIMITED
    requires i < |s.rows| ==> now - s.rows[i] < s.tier.seconds as real
    ensures |s.rows| - i + 1 <= s.tier.max + p - 1
  {
    if i < s.mark {
      assert s.rows[..s.mark][i] > s.markAt - s.tier.seconds as real;
    }
  }

  lemma RecordKeeps(p: nat, s: State, now: real)
    requires Inv(p, s) && Enabled(s, Record(now))
    ensures Inv(p, Next(s, Record(now)))
  {
    var rows, under := s.rows + [now], s.under + [s.tier];
    assert rows[..s.mark] == s.rows[..s.mark];
    forall i, j | 0 <= i <= j < |rows| && under[j].max != UNLIMITED && rows[j] - rows[i] < under[j].seconds as real
      ensures j - i + 1 <= under[j].max + p - 1
    {
      if j == |s.rows| {
        WindowAtNewRow(p, s, now, i);
      } else {
        assert rows[i] == s.rows[i] && rows[j] == s.rows[j] && under[j] == s.under[j];
      }
    }
  }

  lemma {:induction false} RunInv(p: nat, s: State, events: seq<Event>)
    requires Inv(p, s) && ValidRun(p, s, events)
    ensures Inv(p, Final(p, s, events))
    decreases |events|
  {
    if events != [] {
      var e := events[0];
      match e {
        case Ask(_, _, _, _) => AskKeeps(p, s, e);
        case Record(now) => RecordKeeps(p, s, now);
        case Drop =>
      }
      RunInv(p, Next(s, e), events[1..]);
    }
  }

  /**
   * The bound over whole runs, whatever tiers the key is checked under: with at most p units unrecorded at any
   * time, every half-open window that ends at a row holds at most max + p - 1 rows, for the limits in force at
   * the last admission before that row was written, if these are finite.
   */
  lemma EveryWindowIsBounded(p: nat, s: State, events: seq<Event>)
    requires Initial(s) && ValidRun(p, s, events)
    ensures var f := Final(p, s, events); |f.rows| == |f.under| && Bounded(f.rows, f.under, p)
  {
    RunInv(p, s, events);
  }

  /** Every check of the run is made under the tier. */
  predicate AllUnder(events: seq<Event>, tier: Tier) {
    forall i :: 0 <= i < |events| && events[i].Ask? ==> events[i].tier == tier
  }

  lemma {:induction false} RowsUnder(p: nat, s: State, events: seq<Event>, tier: Tier)
    requires ValidRun(p, s, events) && AllUnder(events, tier) && (s.pending > 0 ==> s.tier == tier)
    requires forall j :: 0 <= j < |s.under| ==> s.under[j] == tier
    ensures forall j :: 0 <= j < |Final(p, s, events).under| ==> Final(p, s, events).under[j] == tier
    decreases |events|
  {
    if events != [] {
      RowsUnder(p, Next(s, events[0]), events[1..], tier);
    }
  }

  /** Any half-open window of the length holds at most `bound` rows. */
  ghost predicate AtMost(rows: seq<real>, seconds: int, bound: int) {
    forall i, j :: 0 <= i <= j < |rows| && rows[j] - rows[i] < seconds as real ==> j - i + 1 <= bound
  }

  /** Under one finite tier: at most max + p - 1, and max if each unit is recorded or dropped before the next check. */
  lemma FixedTierIsBounded(p: nat, s: State, events: seq<Event>, tier: Tier)
    requires Initial(s) && ValidRun(p, s, events) && AllUnder(events, tier) && tier.max != UNLIMITED
    ensures AtMost(Final(p, s, events).rows, tier.seconds, tier.max + p - 1)
    ensures p == 1 ==> AtMost(Final(p, s, events).rows, tier.seconds, tier.max)
  {
    EveryWindowIsBounded(p, s, events);
    RowsUnder(p, s, events, tier);
  }

  // ---------------------------------------------------------------- the bound is reached

  lemma {:induction false} CountRepeat(t: real, n: nat, cutoff: real)
    requires t > cutoff
    ensures CountSince(Repeat(t, n), cutoff) == n
  {
    if n > 0 {
      assert Repeat(t, n)[..n - 1] == Repeat(t, n - 1);
      CountRepeat(t, n - 1, cutoff);
    }
  }

  /** `n` rows at instant `t` and `m` units pending: what is left of the worst case from here. */
  lemma {:induction false} BurstFrom(tier: Tier, p: nat, t: real, n: nat, m: nat, s: State) returns (events: seq<Event>)
    requires tier.max >= 1 && tier.seconds >= 1 && p >= 1
    requires s.rows == Repeat(t, n) && s.now == t && s.pending == m
    requires (m == 0 && n <= tier.max - 1) || (m <= p && n == tier.max - 1)
    ensures ValidRun(p, s, events) && AllUnder(events, tier) && Final(p, s, events).rows == Repeat(t, tier.max - 1 + p)
    decreases tier.max - n, p - m
  {
    if m == p {
      events := RecordAll(tier, p, t, n, m, s);
    } else {
      CountRepeat(t, n, t - tier.seconds as real);
      var s1 := Next(s, Ask(tier, 1, t, true));
      if n < tier.max - 1 {
        assert Repeat(t, n + 1) == Repeat(t, n) + [t];
        var rest := BurstFrom(tier, p, t, n + 1, 0, Next(s1, Record(t)));
        events := [Ask(tier, 1, t, true)] + ([Record(t)] + rest);
      } else {
        var rest := BurstFrom(tier, p, t, n, m + 1, s1);
        events := [Ask(tier, 1, t, true)] + rest;
      }
    }
  }

  lemma {:induction false} RecordAll(tier: Tier, p: nat, t: real, n: nat, m: nat, s: State) returns (events: seq<Event>)
    requires s.rows == Repeat(t, n) && s.now == t && s.pending == m <= p
    ensures ValidRun(p, s, events) && AllUnder(events, tier) && Final(p, s, events).rows == Repeat(t, n + m)
    decreases m
  {
    if m == 0 {
      events := [];
    } else {
      assert Repeat(t, n + 1) == Repeat(t, n) + [t];
      var rest := RecordAll(tier, p, t, n + 1, m - 1, Next(s, Record(t)));
      events := [Record(t)] + rest;
    }
  }

  /** No smaller bound holds: for every limit and every p some run writes max + p - 1 rows at one instant. */
  lemma BoundIsReached(tier: Tier, p: nat, t: real) returns (s: State, events: seq<Event>)
    requires tier.max >= 1 && tier.seconds >= 1 && p >= 1
    ensures Initial(s) && ValidRun(p, s, events) && AllUnder(events, tier)
    ensures Final(p, s, events).rows == Repeat(t, tier.max - 1 + p)
  {
    s := State([], [], 0, t, 0, t, tier);
    events := BurstFrom(tier, p, t, 0, 0, s);
  }

  lemma {:induction false} UnlimitedFrom(tier: Tier, t: real, n: nat, k: nat, s: State) returns (events: seq<Event>)
    requires tier.max == UNLIMITED && s.rows == Repeat(t, n) && s.now == t && s.pending == 0 && n <= k
    ensures ValidRun(1, s, events) && AllUnder(events, tier) && Final(1, s, events).rows == Repeat(t, k)
    decreases k - n
  {
    if n == k {
      events := [];
    } else {
      assert Repeat(t, n + 1) == Repeat(t, n) + [t];
      var s1 := Next(s, Ask(tier, 1, t, true));
      var rest := UnlimitedFrom(tier, t, n + 1, k, Next(s1, Record(t)));
      events := [Ask(tier, 1, t, true)] + ([Record(t)] + rest);
    }
  }

  /** An unlimited tier has no bound at all: any number of rows can fall on one instant. */
  lemma UnlimitedHasNoBound(tier: Tier, k: nat, t: real) returns (s: State, events: seq<Event>)
    requires tier.max == UNLIMITED
    ensures Initial(s) && ValidRun(1, s, events) && AllUnder(events, tier) && Final(1, s, events).rows == Repeat(t, k)
  {
    s := State([], [], 0, t, 0, t, tier);
    events := UnlimitedFrom(tier, t, 0, k, s);
  }

  // ---------------------------------------------------------------- agreement with the sliding window

  function At(rows: seq<real>, t: real): nat {
    multiset(rows)[t]
  }

  lemma {:induction false} CountTail(rows: seq<real>, cutoff: real, k: nat)
    requires k <= |rows|
    requires forall i :: 0 <= i < |rows| - k ==> rows[i] < cutoff
    requires forall i :: |rows| - k <= i < |rows| ==> rows[i] >= cutoff
    ensures k == CountSince(rows, cutoff) + At(rows, cutoff)
  {
    if rows != [] {
      var t := rows[|rows| - 1];
      assert rows == rows[..|rows| - 1] + [t];
      CountTail(rows[..|rows| - 1], cutoff, if k == 0 then 0 else k - 1);
    }
  }

  lemma {:induction false} CountAppend(a: seq<real>, b: seq<real>, cutoff: real)
    ensures CountSince(a + b, cutoff) == CountSince(a, cutoff) + CountSince(b, cutoff)
  {
    if b != [] {
      assert (a + b)[..|a + b| - 1] == a + b[..|b| - 1];
      CountAppend(a, b[..|b| - 1], cutoff);
    } else {
      assert a + b == a;
    }
  }

  /** The check under a finite tier, with the rows as they are. */
  predicate Granted(rows: seq<real>, c: SlidingWindow.Check) {
    Count(rows, c.max, c.seconds, c.count, c.now, true).Allowed?
  }

  /**
   * The rows of the key when every admitted unit is recorded at the instant of its admission: those of
   * unlimited tiers too, as every scrape writes a row.
   */
  function Rows(checks: seq<SlidingWindow.Check>): seq<real> {
    if checks == [] then []
    else
      var c, before := checks[|checks| - 1], Rows(checks[..|checks| - 1]);
      if c.max == UNLIMITED || Granted(before, c) then before + Repeat(c.now, Max(1, c.count)) else before
  }

  /** The rows written under an unlimited tier. */
  function FreeRows(checks: seq<SlidingWindow.Check>): seq<real> {
    if checks == [] then []
    else
      var c, before := checks[|checks| - 1], FreeRows(checks[..|checks| - 1]);
      if c.max == UNLIMITED then before + Repeat(c.now, Max(1, c.count)) else before
  }

  /** The rows written under a finite tier. */
  function LimitedRows(checks: seq<SlidingWindow.Check>): seq<real> {
    if checks == [] then []
    else
      var c, before := checks[|checks| - 1], LimitedRows(checks[..|checks| - 1]);
      if c.max != UNLIMITED && Granted(Rows(checks[..|checks| - 1]), c)
      then before + Repeat(c.now, Max(1, c.count)) else before
  }

  /** Every row is of one kind or the other. */
  lemma {:induction false} RowsSplit(checks: seq<SlidingWindow.Check>, cutoff: real)
    ensures CountSince(Rows(checks), cutoff) ==
            CountSince(LimitedRows(checks), cutoff) + CountSince(FreeRows(checks), cutoff)
    ensures forall t :: t in Rows(checks) <==> t in LimitedRows(checks) || t in FreeRows(checks)
  {
    if checks != [] {
      var c, before := checks[|checks| - 1], checks[..|checks| - 1];
      RowsSplit(before, cutoff);
      var more := Repeat(c.now, Max(1, c.count));
      CountAppend(Rows(before), more, cutoff);
      CountAppend(LimitedRows(before), more, cutoff);
      CountAppend(FreeRows(before), more, cutoff);
    }
  }

  function Stamps(log: seq<Unit>): (s: seq<real>)
    ensures |s| == |log| && forall i :: 0 <= i < |log| ==> s[i] == log[i].at
  {
    seq(|log|, i requires 0 <= i < |log| => log[i].at)
  }

  lemma NoneAfter(rows: seq<real>, cutoff: real)
    ensures CountSince(rows, cutoff) == 0 <==> forall i :: 0 <= i < |rows| ==> rows[i] <= cutoff
  {
    CountIsCardinality(rows, cutoff);
    forall i: nat | i < |rows| && CountSince(rows, cutoff) == 0
      ensures rows[i] <= cutoff
    {
      assert i !in IndicesSince(rows, cutoff);
    }
    assert (forall i :: 0 <= i < |rows| ==> rows[i] <= cutoff) ==> IndicesSince(rows, cutoff) == {};
  }

  lemma WindowOfLog(window: seq<real>, log: seq<Unit>, now: real)
    requires IsTail(window, log) && Ordered(log, now)
    ensures Stamps(log) == Stamps(log)[..|log| - |window|] + window && Sorted(window)
  {
  }

  lemma ExpiredNotCounted(window: seq<real>, cutoff: real)
    ensures CountSince(window, cutoff) == CountSince(Evict(window, cutoff), cutoff)
  {
    var kept := Evict(window, cutoff);
    var gone := |window| - |kept|;
    EvictKeepsTail(window, cutoff);
    assert window == window[..gone] + kept;
    CountAppend(window[..gone], kept, cutoff);
    NoneAfter(window[..gone], cutoff);
  }

  lemma KeptSorted(window: seq<real>, cutoff: real)
    requires Sorted(window)
    ensures var kept := Evict(window, cutoff); Sorted(kept) && forall t :: t in kept ==> t >= cutoff
  {
    EvictKeepsTail(window, cutoff);
    var kept := Evict(window, cutoff);
    assert forall k :: 0 < k < |kept| ==> kept[k] >= kept[0];
  }

  /** The deque before expiry counts for the stamps that are kept and do not lie exactly on the cutoff. */
  lemma DequeCounts(window: seq<real>, cutoff: real)
    requires Sorted(window)
    ensures CountSince(window, cutoff) == |Evict(window, cutoff)| - At(Evict(window, cutoff), cutoff)
  {
    var kept := Evict(window, cutoff);
    ExpiredNotCounted(window, cutoff);
    KeptSorted(window, cutoff);
    assert forall k :: 0 <= k < |kept| ==> kept[k] in kept;
    CountTail(kept, cutoff, |kept|);
  }

  /** Rows after the cutoff that left the deque before, because an earlier check had a later cutoff. */
  function ForgottenSince(window: seq<real>, log: seq<Unit>, cutoff: real): nat
    requires |window| <= |log|
  {
    CountSince(Stamps(log)[..|log| - |window|], cutoff)
  }

  /** The rows of the log that are counted: those the deque keeps, off the cutoff, and those it has forgotten. */
  lemma DequeCountsRows(window: seq<real>, log: seq<Unit>, now: real, cutoff: real)
    requires IsTail(window, log) && Ordered(log, now)
    ensures var kept := Evict(window, cutoff);
            CountSince(Stamps(log), cutoff) == |kept| - At(kept, cutoff) + ForgottenSince(window, log, cutoff)
  {
    WindowOfLog(window, log, now);
    CountAppend(Stamps(log)[..|log| - |window|], window, cutoff);
    DequeCounts(window, cutoff);
  }

  // ---------------------------------------------------------------- the same decisions

  /** The stamps check `i` leaves in the deque. */
  function KeptAt(checks: seq<SlidingWindow.Check>, i: nat): seq<real>
    requires i < |checks|
  {
    Evict(After(checks[..i]).window, Cutoff(checks[i]))
  }

  /** Of these, the stamps lying exactly at the start of the window, which rows are not counted from. */
  function OnCutoff(checks: seq<SlidingWindow.Check>, i: nat): nat
    requires i < |checks|
  {
    At(KeptAt(checks, i), Cutoff(checks[i]))
  }

  /** Rows in the window of check `i` whose stamps a check under a shorter window has expired. */
  function Forgotten(checks: seq<SlidingWindow.Check>, i: nat): nat
    requires i < |checks|
  {
    DequeIsTail(checks[..i]);
    ForgottenSince(After(checks[..i]).window, After(checks[..i]).log, Cutoff(checks[i]))
  }

  /** Rows of unlimited admissions that check `i` still counts. */
  function FreeInWindow(checks: seq<SlidingWindow.Check>, i: nat): nat
    requires i < |checks|
  {
    CountSince(FreeRows(checks[..i]), Cutoff(checks[i]))
  }

  /** The two limiters both admit check `i` or both deny it. */
  predicate DecidedAlike(checks: seq<SlidingWindow.Check>, i: nat)
    requires i < |checks|
  {
    var c := checks[i];
    c.max != UNLIMITED ==>
      (Decide(After(checks[..i]).window, c.max, c.seconds, c.count, c.now).1.Allowed? <==>
       Granted(Rows(checks[..i]), c))
  }

  /** The request fits what the deque holds if and only if it fits what the rows amount to. */
  predicate SameRoom(checks: seq<SlidingWindow.Check>, i: nat)
    requires i < |checks|
  {
    var c := checks[i];
    var kept, n := |KeptAt(checks, i)|, Max(1, c.count);
    c.max != UNLIMITED ==>
      (kept + n <= c.max <==>
       kept - OnCutoff(checks, i) + Forgotten(checks, i) + FreeInWindow(checks, i) + n <= c.max)
  }

  lemma PrefixOrdered(checks: seq<SlidingWindow.Check>, i: nat)
    requires ClockForward(checks) && i < |checks|
    ensures Ordered(After(checks[..i]).log, checks[i].now)
    ensures IsTail(After(checks[..i]).window, After(checks[..i]).log)
  {
    LogOrdered(checks[..i], checks[i].now);
    DequeIsTail(checks[..i]);
  }

  /** What the rows amount to at check `i`. */
  lemma RowsAmount(checks: seq<SlidingWindow.Check>, i: nat)
    requires ClockForward(checks) && i < |checks| && LimitedRows(checks[..i]) == Stamps(After(checks[..i]).log)
    ensures CountSince(Rows(checks[..i]), Cutoff(checks[i])) ==
            |KeptAt(checks, i)| - OnCutoff(checks, i) + Forgotten(checks, i) + FreeInWindow(checks, i)
  {
    PrefixOrdered(checks, i);
    DequeCountsRows(After(checks[..i]).window, After(checks[..i]).log, checks[i].now, Cutoff(checks[i]));
    RowsSplit(checks[..i], Cutoff(checks[i]));
  }

  /** Where the limited rows are the log so far, the next decision is alike exactly with the same room. */
  lemma NextDecision(checks: seq<SlidingWindow.Check>, i: nat)
    requires ClockForward(checks) && i < |checks| && LimitedRows(checks[..i]) == Stamps(After(checks[..i]).log)
    ensures DecidedAlike(checks, i) <==> SameRoom(checks, i)
  {
    RowsAmount(checks, i);
  }

  /** As long as all decisions are alike the rows of finite tiers are the sliding log. */
  lemma {:induction false} LimitedRowsAreLog(checks: seq<SlidingWindow.Check>, i: nat)
    requires i <= |checks| && forall k :: 0 <= k < i ==> DecidedAlike(checks, k)
    ensures LimitedRows(checks[..i]) == Stamps(After(checks[..i]).log)
  {
    if i > 0 {
      LimitedRowsAreLog(checks, i - 1);
      assert checks[..i][..i - 1] == checks[..i - 1];
      assert DecidedAlike(checks, i - 1);
      StepIs(After(checks[..i - 1]), checks[i - 1]);
    }
  }

  /** Roomy prefixes are decided alike. */
  lemma {:induction false} RoomDecides(checks: seq<SlidingWindow.Check>, i: nat)
    requires ClockForward(checks) && i <= |checks| && forall k :: 0 <= k < i ==> SameRoom(checks, k)
    ensures forall k :: 0 <= k < i ==> DecidedAlike(checks, k)
  {
    if i > 0 {
      RoomDecides(checks, i - 1);
      LimitedRowsAreLog(checks, i - 1);
      NextDecision(checks, i - 1);
    }
  }

  /**
   * Over whole runs, tiers and windows changing as they may: the two limiters take the same decisions throughout
   * exactly when at every check the request has the same room among the stamps as among the rows, that is with
   * stamps on the cutoff taken off and forgotten rows and rows of unlimited admissions put on.
   */
  lemma DecisionsAgreeIff(checks: seq<SlidingWindow.Check>)
    requires ClockForward(checks)
    ensures (forall i :: 0 <= i < |checks| ==> DecidedAlike(checks, i)) <==>
            (forall i :: 0 <= i < |checks| ==> SameRoom(checks, i))
  {
    if forall i :: 0 <= i < |checks| ==> SameRoom(checks, i) {
      RoomDecides(checks, |checks|);
    }
    if forall i :: 0 <= i < |checks| ==> DecidedAlike(checks, i) {
      forall i | 0 <= i < |checks|
        ensures SameRoom(checks, i)
      {
        LimitedRowsAreLog(checks, i);
        NextDecision(checks, i);
      }
    }
  }

  /**
   * A key that leaves an unlimited tier: its requests there are rows but no stamps, so the next check is
   * admitted in memory and denied by the rows whenever they leave no room in its window.
   */
  lemma DowngradeSplits(free: SlidingWindow.Check, c: SlidingWindow.Check)
    requires free.max == UNLIMITED && c.max != UNLIMITED && free.now <= c.now && Cutoff(c) < free.now
    ensures DecidedAlike([free, c], 1) <==> !(Max(1, c.count) <= c.max < Max(1, free.count) + Max(1, c.count))
  {
    var checks, n := [free, c], Max(1, free.count);
    assert checks[..1] == [free] && [free][..0] == [];
    assert After([free]) == Run([], []);
    assert LimitedRows([free]) == Stamps([]) && FreeRows([free]) == Repeat(free.now, n) by {
      assert [] + Repeat(free.now, n) == Repeat(free.now, n);
    }
    CountRepeat(free.now, n, Cutoff(c));
    NextDecision(checks, 1);
  }

  lemma RowsAppend(checks: seq<SlidingWindow.Check>, c: SlidingWindow.Check)
    ensures Rows(checks + [c]) ==
            if c.max == UNLIMITED || Granted(Rows(checks), c)
            then Rows(checks) + Repeat(c.now, Max(1, c.count)) else Rows(checks)
  {
    assert (checks + [c])[..|checks|] == checks;
  }

  /** `max` units fill the deque, a later check expires them all and is admitted. */
  lemma UpgradeStamps(c0: SlidingWindow.Check, c1: SlidingWindow.Check)
    requires c0.max == c0.count == c1.max >= 1 && c1.count == 1 && c0.now < Cutoff(c1)
    ensures After([] + [c0] + [c1]).window == [c1.now]
  {
    AfterAppend([], c0);
    AfterAppend([] + [c0], c1);
    StepIs(Run([], []), c0);
    assert After([] + [c0]).window == [] + Repeat(c0.now, c0.max) == Repeat(c0.now, c0.max);
    EvictOld(c0.now, c0.max, Cutoff(c1));
    StepIs(After([] + [c0]), c1);
    assert [] + Repeat(c1.now, 1) == [c1.now];
  }

  /** Their rows stay. */
  lemma UpgradeRows(c0: SlidingWindow.Check, c1: SlidingWindow.Check)
    requires c0.max == c0.count == c1.max >= 1 && c1.count == 1 && c0.now < Cutoff(c1)
    ensures Rows([] + [c0] + [c1]) == Repeat(c0.now, c0.max) + Repeat(c1.now, 1)
  {
    RowsAppend([], c0);
    RowsAppend([] + [c0], c1);
    assert [] + Repeat(c0.now, c0.max) == Repeat(c0.now, c0.max);
    NoneAfter(Repeat(c0.now, c0.max), Cutoff(c1));
  }

  lemma DecisionsFrom(window: seq<real>, rows: seq<real>, c: SlidingWindow.Check)
    ensures Decide(window, c.max, c.seconds, c.count, c.now).1.Allowed? <==>
              |Evict(window, Cutoff(c))| + Max(1, c.count) <= c.max
    ensures Granted(rows, c) <==> CountSince(rows, Cutoff(c)) + Max(1, c.count) <= c.max
  {
  }

  /**
   * A key that moves to a longer window: a check under the shorter one has expired stamps whose rows the longer
   * one counts, so after `max` and one requests the next check is admitted in memory and denied by the rows
   * whenever it fits after one request and not after all.
   */
  lemma UpgradeSplits(short: Tier, t0: real, t1: real, c: SlidingWindow.Check)
    requires short.max >= 1 && c.max != UNLIMITED && t0 < t1 - short.seconds as real && t1 <= c.now
    requires Cutoff(c) < t0 <= t1
    ensures var c0, c1 := Check(short.max, short.seconds, short.max, t0), Check(short.max, short.seconds, 1, t1);
            DecidedAlike([] + [c0] + [c1] + [c], 2) <==>
              !(1 + Max(1, c.count) <= c.max < short.max + 1 + Max(1, c.count))
  {
    var c0, c1 := Check(short.max, short.seconds, short.max, t0), Check(short.max, short.seconds, 1, t1);
    var before := [] + [c0] + [c1];
    assert (before + [c])[..2] == before && (before + [c])[2] == c;
    UpgradeStamps(c0, c1);
    UpgradeRows(c0, c1);
    CountAppend(Repeat(t0, short.max), Repeat(t1, 1), Cutoff(c));
    CountRepeat(t0, short.max, Cutoff(c));
    CountRepeat(t1, 1, Cutoff(c));
    DecisionsFrom(After(before).window, Rows(before), c);
  }

  // ---------------------------------------------------------------- the same answers

  /** Of a sequence only the rows after the cutoff decide the oldest one. */
  lemma OldestDecidedBy(a: seq<real>, b: seq<real>, cutoff: real)
    requires forall t :: t > cutoff ==> (t in a <==> t in b)
    ensures OldestSince(a, cutoff) == OldestSince(b, cutoff)
  {
  }

  lemma OldestInTail(rows: seq<real>, cutoff: real, first: nat)
    requires first <= |rows| && forall i :: 0 <= i < first ==> rows[i] <= cutoff
    requires forall i :: first <= i < |rows| ==> rows[i] >= rows[first] > cutoff
    ensures OldestSince(rows, cutoff) == if first == |rows| then None else Some(rows[first])
  {
    var oldest := OldestSince(rows, cutoff);
    if first < |rows| {
      assert rows[first] in rows;
    }
  }

  /** The rows of the window, counted and searched, are the deque after expiry. */
  ghost predicate Matches(window: seq<real>, rows: seq<real>, later: real) {
    var kept := Evict(window, later);
    && |kept| == CountSince(rows, later)
    && OldestSince(rows, later) == if kept == [] then None else Some(kept[0])
  }

  lemma VerdictFromCounts(window: seq<real>, rows: seq<real>, c: SlidingWindow.Check)
    requires Matches(window, rows, Cutoff(c))
    ensures Decide(window, c.max, c.seconds, c.count, c.now).1 == Count(rows, c.max, c.seconds, c.count, c.now, true)
  {
  }

  /** No stamp on the start of the check's window, no row in it that the deque forgot or that was never stamped. */
  predicate Clear(checks: seq<SlidingWindow.Check>, i: nat)
    requires i < |checks|
  {
    checks[i].max != UNLIMITED ==>
      Cutoff(checks[i]) !in KeptAt(checks, i) && Forgotten(checks, i) == 0 && FreeInWindow(checks, i) == 0
  }

  lemma SplitAt(s: seq<real>, k: nat, t: real)
    requires k <= |s|
    ensures t in s <==> t in s[..k] || t in s[k..]
  {
    assert s == s[..k] + s[k..];
  }

  lemma InDeque(window: seq<real>, cutoff: real, t: real)
    requires t > cutoff
    ensures t in window <==> t in Evict(window, cutoff)
  {
    var gone := |window| - |Evict(window, cutoff)|;
    EvictKeepsTail(window, cutoff);
    SplitAt(window, gone, t);
    assert forall k :: 0 <= k < gone ==> window[..gone][k] == window[k] < cutoff;
  }

  lemma InLog(window: seq<real>, log: seq<Unit>, now: real, t: real)
    requires IsTail(window, log) && Ordered(log, now)
    ensures t in Stamps(log) <==> t in Stamps(log)[..|log| - |window|] || t in window
  {
    WindowOfLog(window, log, now);
  }

  lemma InStamps(window: seq<real>, log: seq<Unit>, now: real, cutoff: real, t: real)
    requires IsTail(window, log) && Ordered(log, now) && ForgottenSince(window, log, cutoff) == 0 && t > cutoff
    ensures t in Stamps(log) <==> t in Evict(window, cutoff)
  {
    InLog(window, log, now, t);
    InDeque(window, cutoff, t);
    NoneAfter(Stamps(log)[..|log| - |window|], cutoff);
  }

  lemma KeptIsCounted(window: seq<real>, log: seq<Unit>, now: real, cutoff: real)
    requires IsTail(window, log) && Ordered(log, now) && cutoff !in Evict(window, cutoff)
    requires ForgottenSince(window, log, cutoff) == 0
    ensures |Evict(window, cutoff)| == CountSince(Stamps(log), cutoff)
  {
    DequeCountsRows(window, log, now, cutoff);
  }

  lemma KeptDecidesOldest(window: seq<real>, log: seq<Unit>, free: seq<real>, rows: seq<real>, now: real, cutoff: real)
    requires IsTail(window, log) && Ordered(log, now)
    requires ForgottenSince(window, log, cutoff) == 0 && CountSince(free, cutoff) == 0
    requires forall t :: t in rows <==> t in Stamps(log) || t in free
    ensures OldestSince(rows, cutoff) == OldestSince(Evict(window, cutoff), cutoff)
  {
    NoneAfter(free, cutoff);
    forall t | t > cutoff
      ensures t in rows <==> t in Evict(window, cutoff)
    {
      InStamps(window, log, now, cutoff, t);
    }
    OldestDecidedBy(rows, Evict(window, cutoff), cutoff);
  }

  /** With nothing else in the window than what is kept off the cutoff, rows and deque match. */
  lemma ClearMatches(window: seq<real>, log: seq<Unit>, free: seq<real>, rows: seq<real>, now: real, cutoff: real)
    requires IsTail(window, log) && Ordered(log, now) && cutoff !in Evict(window, cutoff)
    requires ForgottenSince(window, log, cutoff) == 0 && CountSince(free, cutoff) == 0
    requires CountSince(rows, cutoff) == CountSince(Stamps(log), cutoff) + CountSince(free, cutoff)
    requires forall t :: t in rows <==> t in Stamps(log) || t in free
    ensures Matches(window, rows, cutoff)
  {
    KeptIsCounted(window, log, now, cutoff);
    KeptDecidesOldest(window, log, free, rows, now, cutoff);
    WindowOfLog(window, log, now);
    KeptSorted(window, cutoff);
    KeptOldest(Evict(window, cutoff), cutoff);
  }

  lemma KeptOldest(kept: seq<real>, cutoff: real)
    requires Sorted(kept) && cutoff !in kept && forall t :: t in kept ==> t >= cutoff
    ensures OldestSince(kept, cutoff) == if kept == [] then None else Some(kept[0])
  {
    assert forall k :: 0 <= k < |kept| ==> kept[k] in kept && kept[k] >= kept[0];
    OldestInTail(kept, cutoff, 0);
  }

  /** The whole answers the two limiters give to check `i` are equal. */
  predicate Alike(checks: seq<SlidingWindow.Check>, i: nat)
    requires i < |checks|
  {
    var c := checks[i];
    c.max != UNLIMITED ==>
      Decide(After(checks[..i]).window, c.max, c.seconds, c.count, c.now).1
      == Count(Rows(checks[..i]), c.max, c.seconds, c.count, c.now, true)
  }

  lemma ClearIsAlike(checks: seq<SlidingWindow.Check>, i: nat)
    requires ClockForward(checks) && i < |checks| && Clear(checks, i)
    requires LimitedRows(checks[..i]) == Stamps(After(checks[..i]).log)
    ensures Alike(checks, i) && DecidedAlike(checks, i)
  {
    if checks[i].max != UNLIMITED {
      var r, cutoff := After(checks[..i]), Cutoff(checks[i]);
      PrefixOrdered(checks, i);
      RowsSplit(checks[..i], cutoff);
      ClearMatches(r.window, r.log, FreeRows(checks[..i]), Rows(checks[..i]), checks[i].now, cutoff);
      VerdictFromCounts(r.window, Rows(checks[..i]), checks[i]);
    }
  }

  lemma {:induction false} ClearDecides(checks: seq<SlidingWindow.Check>, i: nat)
    requires ClockForward(checks) && i <= |checks| && forall k :: 0 <= k < i ==> Clear(checks, k)
    ensures forall k :: 0 <= k < i ==> DecidedAlike(checks, k)
  {
    if i > 0 {
      ClearDecides(checks, i - 1);
      LimitedRowsAreLog(checks, i - 1);
      ClearIsAlike(checks, i - 1);
    }
  }

  /**
   * As long as no check has a stamp exactly at the start of its window, or in it a row the deque forgot or a row of
   * an unlimited tier, every check gets the same answer from both limiters: decision, remaining count and reset
   * time.
   */
  lemma {:induction false} LimitersAgree(checks: seq<SlidingWindow.Check>)
    requires ClockForward(checks) && forall i :: 0 <= i < |checks| ==> Clear(checks, i)
    ensures forall i :: 0 <= i < |checks| ==> Alike(checks, i)
  {
    ClearDecides(checks, |checks|);
    forall i | 0 <= i < |checks|
      ensures Alike(checks, i)
    {
      LimitedRowsAreLog(checks, i);
      ClearIsAlike(checks, i);
    }
  }
}
