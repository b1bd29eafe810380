/**
 * Usage accounting: the PostgreSQL tracker with its daily rollups (asb_api/db/usage.py and
 * asb_api/jobs/daily_rollup.py) and the in-memory tracker with its lazy daily reset (asb_api/api/usage.py).
 * Days are numbered; `today` is the day the clock shows.
 */
module Usage {
  datatype Record = Record(key: string, day: int, duration: int, blocked: bool)

  datatype Totals = Totals(requests: int, duration: int, blocks: int) {
    function Plus(t: Totals): Totals {
      Totals(requests + t.requests, duration + t.duration, blocks + t.blocks)
    }
  }

  const NOTHING := Totals(0, 0, 0)

  function Single(r: Record): Totals {
    Totals(1, r.duration, if r.blocked then 1 else 0)
  }

  /** `SELECT COUNT(*), SUM(duration_ms), SUM(block) ... WHERE key_id IN keys AND DATE(created_at) = day` */
  function Sum(records: seq<Record>, keys: set<string>, day: int): Totals {
    if records == [] then NOTHING
    else
      var r, before := records[|records| - 1], Sum(records[..|records| - 1], keys, day);
      if r.key in keys && r.day == day then before.Plus(Single(r)) else before
  }

  function Raw(records: seq<Record>, key: string, day: int): Totals {
    Sum(records, {key}, day)
  }

  /** The two tables. */
  datatype Tables = Tables(records: seq<Record>, daily: map<(string, int), Totals>) {
    function GetDailyUsage(key: string, day: int): Totals {
      if (key, day) in daily then daily[(key, day)] else Raw(records, key, day)
    }

    function KeysOn(day: int): set<string> {
      set r | r in records && r.day == day :: r.key
    }

    /** INSERT ... SELECT ... GROUP BY key_id ON CONFLICT DO UPDATE */
    function Rollup(day: int): Tables {
      this.(daily := daily + map k | k in KeysOn(day) :: (k, day) := Raw(records, k, day))
    }

    function Add(r: Record): Tables {
      this.(records := records + [r])
    }
  }

  lemma {:induction false} NoRecordsNothing(records: seq<Record>, keys: set<string>, day: int)
    requires forall r :: r in records && r.day == day ==> r.key !in keys
    ensures Sum(records, keys, day) == NOTHING
  {
    if records != [] {
      assert records[|records| - 1] in records;
      NoRecordsNothing(records[..|records| - 1], keys, day);
    }
  }

  lemma SumAppend(records: seq<Record>, r: Record, keys: set<string>, day: int)
    ensures Sum(records + [r], keys, day) ==
            if r.key in keys && r.day == day then Sum(records, keys, day).Plus(Single(r)) else Sum(records, keys, day)
  {
    assert (records + [r])[..|records|] == records;
  }

  /** The records of a key on a day, and those of them that were blocked. */
  function Matching(records: seq<Record>, key: string, day: int): set<nat> {
    set i: nat | i < |records| && records[i].key == key && records[i].day == day
  }

  function Blocked(records: seq<Record>, key: string, day: int): set<nat> {
    set i: nat | i < |records| && records[i].key == key && records[i].day == day && records[i].blocked
  }

  lemma MatchingAppend(before: seq<Record>, r: Record, key: string, day: int)
    ensures |Matching(before + [r], key, day)| ==
            |Matching(before, key, day)| + if r.key == key && r.day == day then 1 else 0
  {
    assert Matching(before + [r], key, day) ==
           Matching(before, key, day) + if r.key == key && r.day == day then {|before|} else {};
  }

  lemma BlockedAppend(before: seq<Record>, r: Record, key: string, day: int)
    ensures |Blocked(before + [r], key, day)| ==
            |Blocked(before, key, day)| + if r.key == key && r.day == day && r.blocked then 1 else 0
  {
    assert Blocked(before + [r], key, day) ==
           Blocked(before, key, day) + if r.key == key && r.day == day && r.blocked then {|before|} else {};
  }

  /** A record adds its duration to the figures of its own key and day and to no others. */
  lemma DurationAdds(before: seq<Record>, r: Record, key: string, day: int)
    ensures Raw([], key, day).duration == 0
    ensures Raw(before + [r], key, day).duration ==
            Raw(before, key, day).duration + if r.key == key && r.day == day then r.duration else 0
  {
    SumAppend(before, r, {key}, day);
  }

  /** The requests and blocks of a key and day are the numbers of its records and of its blocked records. */
  lemma {:induction false} RawIs(records: seq<Record>, key: string, day: int)
    ensures Raw(records, key, day).requests == |Matching(records, key, day)|
    ensures Raw(records, key, day).blocks == |Blocked(records, key, day)|
  {
    if records == [] {
      assert Matching(records, key, day) == {} && Blocked(records, key, day) == {};
    } else {
      var before, r := records[..|records| - 1], records[|records| - 1];
      assert records == before + [r];
      RawIs(before, key, day);
      MatchingAppend(before, r, key, day);
      BlockedAppend(before, r, key, day);
      SumAppend(before, r, {key}, day);
    }
  }

  // ---------------------------------------------------------------- runs

  datatype Event = Use(key: string, duration: int, blocked: bool) | Midnight | RunRollup(day: int)

  datatype State = State(tables: Tables, today: int)

  function Next(s: State, e: Event): State {
    match e
    case Use(key, duration, blocked) => s.(tables := s.tables.Add(Record(key, s.today, duration, blocked)))
    case Midnight => s.(today := s.today + 1)
    case RunRollup(day) => s.(tables := s.tables.Rollup(day))
  }

  /** Rollups only run for days that are over; the job always asks for yesterday. */
  ghost predicate ValidRun(s: State, events: seq<Event>)
    decreases |events|
  {
    events == [] ||
    ((events[0].RunRollup? ==> events[0].day < s.today) && ValidRun(Next(s, events[0]), events[1..]))
  }

  ghost function Final(s: State, events: seq<Event>): State
    decreases |events|
  {
    if events == [] then s else Final(Next(s, events[0]), events[1..])
  }

  /** Every daily figure, rolled up or not, is the sum over the raw records. */
  ghost predicate Consistent(t: Tables) {
    forall key, day :: t.GetDailyUsage(key, day) == Raw(t.records, key, day)
  }

  ghost predicate Closed(s: State) {
    Consistent(s.tables) && forall k, d :: (k, d) in s.tables.daily ==> d < s.today
  }

  /** Adding a record keeps the figures right exactly when the record's day is not rolled up for its key yet. */
  lemma AddKeepsIff(t: Tables, r: Record)
    requires Consistent(t)
    ensures Consistent(t.Add(r)) <==> (r.key, r.day) !in t.daily
  {
    var t' := t.Add(r);
    forall key, day
      ensures t'.GetDailyUsage(key, day) == Raw(t'.records, key, day) <==>
                !(key == r.key && day == r.day && (key, day) in t.daily)
    {
      SumAppend(t.records, r, {key}, day);
      assert t.GetDailyUsage(key, day) == Raw(t.records, key, day);
    }
  }

  /** A rollup, early or late, leaves its day right for every key and the other days as they were. */
  lemma RollupRepairs(t: Tables, day: int)
    requires forall key :: key !in t.KeysOn(day) ==> (key, day) !in t.daily
    ensures forall key :: t.Rollup(day).GetDailyUsage(key, day) == Raw(t.records, key, day)
    ensures forall key, d :: d != day ==> t.Rollup(day).GetDailyUsage(key, d) == t.GetDailyUsage(key, d)
  {
  }

  lemma RollupKeeps(t: Tables, day: int)
    requires Consistent(t)
    ensures Consistent(t.Rollup(day))
  {
    var t' := t.Rollup(day);
    forall key, d
      ensures t'.GetDailyUsage(key, d) == Raw(t'.records, key, d)
    {
      assert t.GetDailyUsage(key, d) == Raw(t.records, key, d);
    }
  }

  /** In every reachable state the daily figures are those of the raw records. */
  lemma {:induction false} DailyFiguresAreExact(s: State, events: seq<Event>)
    requires Closed(s) && ValidRun(s, events)
    ensures Closed(Final(s, events))
    ensures forall key, day :: var t := Final(s, events).tables; t.GetDailyUsage(key, day) == Raw(t.records, key, day)
    decreases |events|
  {
    if events != [] {
      match events[0] {
        case Use(key, duration, blocked) => AddKeepsIff(s.tables, Record(key, s.today, duration, blocked));
        case Midnight =>
        case RunRollup(day) => RollupKeeps(s.tables, day);
      }
      DailyFiguresAreExact(Next(s, events[0]), events[1..]);
    }
  }

  /** Rolling the current day up too early freezes the figure the next request should have raised. */
  lemma EarlyRollupGoesStale(s: State, key: string, duration: int)
    requires Closed(s) && key in s.tables.KeysOn(s.today)
    ensures !Consistent(Next(Next(s, RunRollup(s.today)), Use(key, duration, false)).tables)
  {
    RollupKeeps(s.tables, s.today);
    AddKeepsIff(s.tables.Rollup(s.today), Record(key, s.today, duration, false));
  }

  lemma RollupIdempotent(t: Tables, day: int)
    ensures t.Rollup(day).Rollup(day) == t.Rollup(day)
  {
    assert t.Rollup(day).KeysOn(day) == t.KeysOn(day);
  }

  lemma CommuteAt(t: Tables, d: int, e: int, row: (string, int))
    ensures var de, ed := t.Rollup(d).Rollup(e).daily, t.Rollup(e).Rollup(d).daily;
            (row in de <==> row in ed) && (row in de ==> de[row] == ed[row])
  {
    assert t.Rollup(d).KeysOn(e) == t.KeysOn(e) && t.Rollup(e).KeysOn(d) == t.KeysOn(d);
  }

  lemma RollupsCommute(t: Tables, d: int, e: int)
    ensures t.Rollup(d).Rollup(e) == t.Rollup(e).Rollup(d)
  {
    forall row: (string, int) {
      CommuteAt(t, d, e, row);
    }
    assert t.Rollup(d).Rollup(e).daily == t.Rollup(e).Rollup(d).daily;
  }

  // ---------------------------------------------------------------- nothing lost in grouping

  /** Sum of a day's rollup rows over a set of keys. */
  ghost function TotalOver(daily: map<(string, int), Totals>, keys: set<string>, day: int): Totals
    requires forall k :: k in keys ==> (k, day) in daily
  {
    if keys == {} then NOTHING
    else
      var k :| k in keys;
      daily[(k, day)].Plus(TotalOver(daily, keys - {k}, day))
  }

  lemma {:induction false} SumSplits(records: seq<Record>, keys: set<string>, k: string, day: int)
    requires k in keys
    ensures Sum(records, keys, day) == Raw(records, k, day).Plus(Sum(records, keys - {k}, day))
  {
    if records != [] {
      SumSplits(records[..|records| - 1], keys, k, day);
    }
  }

  lemma {:induction false} GroupsAddUp(t: Tables, keys: set<string>, day: int)
    requires forall k :: k in keys ==> (k, day) in t.daily && t.daily[(k, day)] == Raw(t.records, k, day)
    ensures TotalOver(t.daily, keys, day) == Sum(t.records, keys, day)
  {
    if keys == {} {
      NoRecordsNothing(t.records, {}, day);
    } else {
      var k :| k in keys && TotalOver(t.daily, keys, day) ==
          t.daily[(k, day)].Plus(TotalOver(t.daily, keys - {k}, day));
      GroupsAddUp(t, keys - {k}, day);
      SumSplits(t.records, keys, k, day);
    }
  }

  lemma {:induction false} SumCountsRecords(records: seq<Record>, keys: set<string>, day: int)
    requires forall r :: r in records && r.day == day ==> r.key in keys
    ensures Sum(records, keys, day).requests == |Filter(records, day)|
  {
    if records != [] {
      assert records[|records| - 1] in records;
      SumCountsRecords(records[..|records| - 1], keys, day);
    }
  }

  function Filter(records: seq<Record>, day: int): seq<Record> {
    if records == [] then []
    else
      var last := records[|records| - 1];
      Filter(records[..|records| - 1], day) + if last.day == day then [last] else []
  }

  /** After a rollup the day's rows, summed over all keys, count every record of the day once. */
  lemma RollupConserves(t: Tables, day: int)
    ensures forall k :: k in t.KeysOn(day) ==> (k, day) in t.Rollup(day).daily
    ensures TotalOver(t.Rollup(day).daily, t.KeysOn(day), day) == Sum(t.records, t.KeysOn(day), day)
    ensures TotalOver(t.Rollup(day).daily, t.KeysOn(day), day).requests == |Filter(t.records, day)|
    ensures forall k :: k in t.KeysOn(day) <==>
              exists i :: 0 <= i < |t.records| && t.records[i].key == k && t.records[i].day == day
  {
    GroupsAddUp(t.Rollup(day), t.KeysOn(day), day);
    SumCountsRecords(t.records, t.KeysOn(day), day);
  }

  // ---------------------------------------------------------------- overage

  const MONTHLY_REQUESTS: map<string, int> :=
    map["free" := 500, "starter" := 25000, "pro" := 200000, "enterprise" := 9999999999]

  const OVERAGE_RATE: map<string, real> := map["free" := 0.0, "starter" := 0.002, "pro" := 0.001, "enterprise" := 0.0]

  predicate Paid(tier: string) {
    tier != "free" && tier != "enterprise"
  }

  function Quota(tier: string): int {
    if tier in MONTHLY_REQUESTS then MONTHLY_REQUESTS[tier] else 0
  }

  function Rate(tier: string): real {
    if tier in OVERAGE_RATE then OVERAGE_RATE[tier] else 0.0
  }

  /** `check_overage`: the day's requests against the tier's quota; an unknown tier has none. */
  function Overage(t: Tables, key: string, tier: string, today: int): (bool, int, real) {
    var limit := Quota(tier);
    var rate := Rate(tier);
    var total := t.GetDailyUsage(key, today).requests;
    if !Paid(tier) || total <= limit then (false, 0, 0.0)
    else (true, total - limit, (total - limit) as real * rate)
  }

  /** Overage is measured on the raw records of the day, whether or not a rollup answers for them. */
  lemma OverageIff(s: State, key: string, tier: string)
    requires Closed(s)
    ensures var (over, excess, cost) := Overage(s.tables, key, tier, s.today);
            var made := Raw(s.tables.records, key, s.today).requests;
            && (over <==> tier != "free" && tier != "enterprise" && made > 0 &&
                          (tier in MONTHLY_REQUESTS ==> made > MONTHLY_REQUESTS[tier]))
            && (over && tier in MONTHLY_REQUESTS ==> excess == made - MONTHLY_REQUESTS[tier])
            && (over && tier == "starter" ==> cost == excess as real * 0.002)
            && (over && tier == "pro" ==> cost == excess as real * 0.001)
            && (!over ==> excess == 0 && cost == 0.0)
  {
    assert s.tables.GetDailyUsage(key, s.today) == Raw(s.tables.records, key, s.today);
  }

  /** The shipped quotas and rates, in numbers: when a key is over, by how much and at what cost. */
  lemma ShippedQuotas(s: State, key: string, tier: string)
    requires Closed(s)
    ensures var (over, excess, cost) := Overage(s.tables, key, tier, s.today);
            var made := |Matching(s.tables.records, key, s.today)|;
            && (tier == "free" || tier == "enterprise" ==> !over)
            && (tier == "starter" ==> (over <==> made > 25000) && (over ==> excess == made - 25000))
            && (tier == "pro" ==> (over <==> made > 200000) && (over ==> excess == made - 200000))
            && (tier !in {"free", "starter", "pro", "enterprise"} ==> (over <==> made > 0) && (over ==> excess == made))
            && (over ==> cost == if tier == "starter" then excess as real * 0.002
                                 else if tier == "pro" then excess as real * 0.001 else 0.0)
  {
    RawIs(s.tables.records, key, s.today);
    assert s.tables.GetDailyUsage(key, s.today) == Raw(s.tables.records, key, s.today);
  }

  /** A key over its quota stays over for the rest of the day, each request dearer by exactly the tier's rate. */
  lemma OverageIsSticky(s: State, key: string, tier: string, duration: int, blocked: bool)
    requires Closed(s) && Overage(s.tables, key, tier, s.today).0
    ensures var before := Overage(s.tables, key, tier, s.today);
            var after := Overage(Next(s, Use(key, duration, blocked)).tables, key, tier, s.today);
            after.0 && after.1 == before.1 + 1 && after.2 == before.2 + Rate(tier)
  {
    var r := Record(key, s.today, duration, blocked);
    AddKeepsIff(s.tables, r);
    SumAppend(s.tables.records, r, {key}, s.today);
    assert s.tables.Add(r).GetDailyUsage(key, s.today) == Raw(s.tables.Add(r).records, key, s.today);
  }

  // ---------------------------------------------------------------- a month's quota, a day's count

  /** Requests of the key from the first day of the month up to the given day. */
  function MonthTotal(records: seq<Record>, key: string, first: int, day: int): int
    decreases day - first
  {
    if day < first then 0 else MonthTotal(records, key, first, day - 1) + Raw(records, key, day).requests
  }

  lemma {:induction false} RequestsCount(records: seq<Record>, key: string, day: int)
    ensures Raw(records, key, day).requests >= 0
  {
    if records != [] {
      RequestsCount(records[..|records| - 1], key, day);
    }
  }

  lemma {:induction false} MonthCoversDay(records: seq<Record>, key: string, first: int, day: int)
    requires first <= day + 1
    ensures 0 <= MonthTotal(records, key, first, day)
    ensures first <= day ==> Raw(records, key, day).requests <= MonthTotal(records, key, first, day)
    decreases day - first
  {
    if first <= day {
      MonthCoversDay(records, key, first, day - 1);
      RequestsCount(records, key, day);
    }
  }

  /** What a monthly quota would say. */
  predicate MonthlyOver(t: Tables, key: string, tier: string, first: int, today: int) {
    Paid(tier) && MonthTotal(t.records, key, first, today) > Quota(tier)
  }

  /**
   * `check_overage` gives the verdict of a monthly quota exactly when the day alone exceeds the quota or the month
   * does not, or the tier is exempt; what it flags the month exceeds as well.
   */
  lemma DailyIsMonthlyIff(s: State, key: string, tier: string, first: int)
    requires Closed(s) && first <= s.today
    ensures var daily := Overage(s.tables, key, tier, s.today).0;
            var monthly := MonthlyOver(s.tables, key, tier, first, s.today);
            && (daily ==> monthly)
            && ((daily <==> monthly) <==>
                !Paid(tier) || Raw(s.tables.records, key, s.today).requests > Quota(tier) ||
                MonthTotal(s.tables.records, key, first, s.today) <= Quota(tier))
  {
    assert s.tables.GetDailyUsage(key, s.today) == Raw(s.tables.records, key, s.today);
    MonthCoversDay(s.tables.records, key, first, s.today);
  }

  function Uses(key: string, n: nat): (events: seq<Event>)
    ensures |events| == n && forall i :: 0 <= i < n ==> events[i] == Use(key, 0, false)
  {
    seq(n, i => Use(key, 0, false))
  }

  /** `n` requests of one key on one day raise that day's count by `n` and no other. */
  lemma {:induction false} UsesAddUp(s: State, key: string, n: nat, rest: seq<Event>)
    requires ValidRun(Final(s, Uses(key, n)), rest)
    ensures ValidRun(s, Uses(key, n) + rest)
    ensures Final(s, Uses(key, n) + rest) == Final(Final(s, Uses(key, n)), rest)
    ensures var f := Final(s, Uses(key, n));
            && f.today == s.today
            && forall d :: Raw(f.tables.records, key, d).requests ==
                           Raw(s.tables.records, key, d).requests + if d == s.today then n else 0
    decreases n
  {
    var all := Uses(key, n) + rest;
    if n == 0 {
      assert all == rest;
    } else {
      var e := Use(key, 0, false);
      assert all[0] == e && all[1..] == Uses(key, n - 1) + rest && Uses(key, n)[1..] == Uses(key, n - 1);
      UsesAddUp(Next(s, e), key, n - 1, rest);
      forall d
        ensures Raw(Next(s, e).tables.records, key, d).requests ==
                Raw(s.tables.records, key, d).requests + if d == s.today then 1 else 0
      {
        SumAppend(s.tables.records, Record(key, s.today, 0, false), {key}, d);
      }
    }
  }

  /** `a` requests of one key on one day and `b` on the next. */
  function TwoDays(key: string, a: nat, b: nat): seq<Event> {
    Uses(key, a) + ([Midnight] + (Uses(key, b) + []))
  }

  lemma TwoDaysRun(s: State, key: string, a: nat, b: nat)
    ensures ValidRun(s, TwoDays(key, a, b))
    ensures Final(s, TwoDays(key, a, b)) == Final(Next(Final(s, Uses(key, a)), Midnight), Uses(key, b))
  {
    var first := Final(s, Uses(key, a));
    var rest := [Midnight] + (Uses(key, b) + []);
    UsesAddUp(Next(first, Midnight), key, b, []);
    assert rest[0] == Midnight && rest[1..] == Uses(key, b) + [];
    assert ValidRun(first, rest) && Final(first, rest) == Final(Next(first, Midnight), rest[1..]);
    UsesAddUp(s, key, a, rest);
  }

  lemma UsesRaise(s: State, key: string, n: nat, day: int)
    ensures var f := Final(s, Uses(key, n));
            && f.today == s.today
            && Raw(f.tables.records, key, day).requests ==
               Raw(s.tables.records, key, day).requests + if day == s.today then n else 0
  {
    UsesAddUp(s, key, n, []);
  }

  lemma TwoDaysCount(key: string, a: nat, b: nat)
    ensures var f := Final(State(Tables([], map[]), 1), TwoDays(key, a, b));
            && f.today == 2
            && Raw(f.tables.records, key, 1).requests == a
            && Raw(f.tables.records, key, 2).requests == b
  {
    var s := State(Tables([], map[]), 1);
    var second := Next(Final(s, Uses(key, a)), Midnight);
    TwoDaysRun(s, key, a, b);
    UsesRaise(s, key, a, 1);
    UsesRaise(s, key, a, 2);
    UsesRaise(second, key, b, 1);
    UsesRaise(second, key, b, 2);
  }

  /**
   * Two days that together exceed the quota while the second alone does not are not flagged: for a starter
   * key 12501 requests on each will do.
   */
  lemma TwoDaysUnflagged(key: string, tier: string, a: nat, b: nat)
    requires Paid(tier) && b <= Quota(tier) < a + b
    ensures var s, events := State(Tables([], map[]), 1), TwoDays(key, a, b);
            && ValidRun(s, events)
            && Final(s, events).today == 2
            && !Overage(Final(s, events).tables, key, tier, 2).0
            && MonthlyOver(Final(s, events).tables, key, tier, 1, 2)
  {
    var s, events := State(Tables([], map[]), 1), TwoDays(key, a, b);
    TwoDaysRun(s, key, a, b);
    TwoDaysCount(key, a, b);
    DailyFiguresAreExact(s, events);
    var f := Final(s, events);
    assert MonthTotal(f.tables.records, key, 1, 1) == a;
    assert MonthTotal(f.tables.records, key, 1, 2) == a + b;
    DailyIsMonthlyIff(f, key, tier, 1);
  }

  class PostgresUsageTracker {
    var records: seq<Record>
    var daily: map<(string, int), Totals>

    function Model(): Tables
      reads this
    {
      Tables(records, daily)
    }

    constructor ()
      ensures Model() == Tables([], map[])
    {
      records, daily := [], map[];
    }

    method Insert(key: string, today: int, duration: int, blocked: bool)
      modifies this
      ensures Model() == old(Model()).Add(Record(key, today, duration, blocked))
    {
      records := records + [Record(key, today, duration, blocked)];
    }

    method GetDailyUsage(key: string, day: int) returns (t: Totals)
      ensures t == Model().GetDailyUsage(key, day)
    {
      if (key, day) in daily {
        return daily[(key, day)];
      }
      t := NOTHING;
      for i := 0 to |records|
        invariant t == Raw(records[..i], key, day)
      {
        assert records[..i + 1][..i] == records[..i];
        if records[i].key == key && records[i].day == day {
          t := t.Plus(Single(records[i]));
        }
      }
      assert records[..|records|] == records;
    }

    method CheckOverage(key: string, tier: string, today: int) returns (over: bool, excess: int, cost: real)
      ensures (over, excess, cost) == Overage(Model(), key, tier, today)
    {
      var limit := if tier in MONTHLY_REQUESTS then MONTHLY_REQUESTS[tier] else 0;
      if tier == "free" || tier == "enterprise" {
        return false, 0, 0.0;
      }
      var usage := GetDailyUsage(key, today);
      if usage.requests <= limit {
        return false, 0, 0.0;
      }
      excess := usage.requests - limit;
      cost := excess as real * if tier in OVERAGE_RATE then OVERAGE_RATE[tier] else 0.0;
      over := true;
    }

    method RollupDaily(day: int)
      modifies this
      ensures Model() == old(Model()).Rollup(day)
    {
      var keys := set r | r in records && r.day == day :: r.key;
      daily := daily + map k | k in keys :: (k, day) := Raw(records, k, day);
    }
  }

  // ---------------------------------------------------------------- the in-memory tracker

  datatype Counter = Counter(counts: map<string, int>, daily: map<string, int>) {
    function Normalize(key: string, today: int): Counter {
      if key in daily && daily[key] == today then this
      else Counter(counts[key := 0], daily[key := today])
    }

    function Value(key: string): int {
      if key in counts then counts[key] else 0
    }

    function Increment(key: string, today: int): Counter {
      var c := Normalize(key, today);
      c.(counts := c.counts[key := c.Value(key) + 1])
    }
  }

  /** One call on the tracker: an increment or a read. */
  datatype Call = Call(key: string, day: int, increments: bool)

  function AfterCalls(calls: seq<Call>): Counter {
    if calls == [] then Counter(map[], map[])
    else
      var c, call := AfterCalls(calls[..|calls| - 1]), calls[|calls| - 1];
      if call.increments then c.Increment(call.key, call.day) else c.Normalize(call.key, call.day)
  }

  /** Increments of the key on the day. */
  function Increments(calls: seq<Call>, key: string, day: int): nat {
    if calls == [] then 0
    else
      var call := calls[|calls| - 1];
      Increments(calls[..|calls| - 1], key, day) +
      if call.increments && call.key == key && call.day == day then 1 else 0
  }

  /** The calls that increment the key on the day. */
  function Incrementing(calls: seq<Call>, key: string, day: int): set<nat> {
    set i: nat | i < |calls| && calls[i].increments && calls[i].key == key && calls[i].day == day
  }

  lemma IncrementingAppend(before: seq<Call>, c: Call, key: string, day: int)
    ensures |Incrementing(before + [c], key, day)| ==
            |Incrementing(before, key, day)| + if c.increments && c.key == key && c.day == day then 1 else 0
  {
    assert Incrementing(before + [c], key, day) ==
           Incrementing(before, key, day) +
           if c.increments && c.key == key && c.day == day then {|before|} else {};
  }

  lemma {:induction false} IncrementsAreCounted(calls: seq<Call>, key: string, day: int)
    ensures Increments(calls, key, day) == |Incrementing(calls, key, day)|
  {
    if calls == [] {
      assert Incrementing(calls, key, day) == {};
    } else {
      var before, c := calls[..|calls| - 1], calls[|calls| - 1];
      assert calls == before + [c];
      IncrementsAreCounted(before, key, day);
      IncrementingAppend(before, c, key, day);
    }
  }

  ghost predicate DaysForward(calls: seq<Call>) {
    forall i, j :: 0 <= i < j < |calls| ==> calls[i].day <= calls[j].day
  }

  lemma {:induction false} NoneThatDay(calls: seq<Call>, key: string, day: int)
    requires forall i :: 0 <= i < |calls| && calls[i].key == key ==> calls[i].day != day
    ensures Increments(calls, key, day) == 0
  {
    if calls != [] {
      NoneThatDay(calls[..|calls| - 1], key, day);
    }
  }

  /** The stored count belongs to the stored day, which is the day of the key's last call. */
  lemma {:induction false} CountsAreOfTheirDay(calls: seq<Call>, key: string)
    requires DaysForward(calls)
    ensures var c := AfterCalls(calls);
            if key in c.daily
            then c.Value(key) == Increments(calls, key, c.daily[key]) &&
                 forall i :: 0 <= i < |calls| && calls[i].key == key ==> calls[i].day <= c.daily[key]
            else forall i :: 0 <= i < |calls| ==> calls[i].key != key
    ensures var c := AfterCalls(calls);
            key in c.daily ==> exists i :: 0 <= i < |calls| && calls[i].day == c.daily[key]
  {
    if calls != [] {
      var before, call := calls[..|calls| - 1], calls[|calls| - 1];
      CountsAreOfTheirDay(before, key);
      if call.key == key {
        var c := AfterCalls(before);
        if !(key in c.daily && c.daily[key] == call.day) {
          NoneThatDay(before, key, call.day);
        }
      }
    }
  }

  /** `get` returns exactly the increments of the key made on the current day. */
  lemma GetCountsToday(calls: seq<Call>, key: string, today: int)
    requires DaysForward(calls) && forall i :: 0 <= i < |calls| ==> calls[i].day <= today
    ensures AfterCalls(calls).Normalize(key, today).Value(key) == Increments(calls, key, today)
    ensures AfterCalls(calls).Normalize(key, today).Value(key) == |Incrementing(calls, key, today)|
  {
    IncrementsAreCounted(calls, key, today);
    CountsAreOfTheirDay(calls, key);
    var c := AfterCalls(calls);
    if !(key in c.daily && c.daily[key] == today) {
      NoneThatDay(calls, key, today);
    }
  }

  class UsageTracker {
    var counts: map<string, int>
    var daily: map<string, int>

    function Model(): Counter
      reads this
    {
      Counter(counts, daily)
    }

    constructor ()
      ensures Model() == AfterCalls([])
    {
      counts, daily := map[], map[];
    }

    method NormalizeDay(key: string, today: int)
      modifies this
      ensures Model() == old(Model()).Normalize(key, today)
    {
      if key !in daily || daily[key] != today {
        counts := counts[key := 0];
        daily := daily[key := today];
      }
    }

    method Increment(key: string, today: int)
      modifies this
      ensures Model() == old(Model()).Increment(key, today)
    {
      NormalizeDay(key, today);
      counts := counts[key := (if key in counts then counts[key] else 0) + 1];
    }

    method Get(key: string, today: int) returns (n: int)
      modifies this
      ensures Model() == old(Model()).Normalize(key, today) && n == Model().Value(key)
    {
      NormalizeDay(key, today);
      n := if key in counts then counts[key] else 0;
    }
  }
}
