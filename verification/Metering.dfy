/**
 * The PostgreSQL limiter in front of the scrape system, for one key: a batch is checked as a whole before its items
 * start, a single scrape once it has been looked at, and each item's usage row is written while its worker is still
 * held (asb_api/api/routes/scrape.py).
 */
module Metering {
  import L = UsageLimiter
  import S = ScrapeSystem
  import W = SlidingWindow

  /**
   * The scrapes of all keys, the limiter of one key, the batches of that key that were let in, and their tasks whose
   * unit has been neither recorded nor dropped yet.
   */
  datatype State = State(scrapes: S.State, limiter: L.State, admitted: set<nat>, due: set<nat>)

  /** The batches of the key. */
  datatype Setting = Setting(cfg: S.Config, mine: set<nat>)

  datatype Event =
    | Charge(batch: nat, tier: W.Tier, now: real, locked: bool)
    | Write(t: nat, now: real)  // the usage row of a scrape is inserted
    | Move(action: S.Action)

  function Members(ts: seq<S.Task>, b: nat): set<nat> {
    set t: nat | t < |ts| && ts[t].batch == b
  }

  /** Tasks that were let in and are not done. */
  function Open(s: State): set<nat> {
    set t: nat | t < |s.scrapes.tasks| && s.scrapes.tasks[t].batch in s.admitted && !s.scrapes.tasks[t].phase.Done?
  }

  predicate Waiting(ts: seq<S.Task>, b: nat) {
    forall t :: 0 <= t < |ts| && ts[t].batch == b ==>
      ts[t].phase.Queued? || (ts[t].phase.Admitted? && |Members(ts, b)| == 1)
  }

  /** A batch starts after it was let in; a single scrape may be validated, and rejected, before. */
  predicate MayMove(w: Setting, s: State, a: S.Action)
    requires a.Refresh? || a.t < |s.scrapes.tasks|
  {
    a.Refresh? ||
    var b := s.scrapes.tasks[a.t].batch;
    b !in w.mine || b in s.admitted || (|Members(s.scrapes.tasks, b)| == 1 && (a.Start? || a.Reject?))
  }

  predicate Enabled(w: Setting, s: State, e: Event)
    requires S.WellTyped(w.cfg, s.scrapes)
  {
    match e
    case Charge(b, _, now, _) =>
      && b in w.mine && b !in s.admitted && Members(s.scrapes.tasks, b) != {} && Waiting(s.scrapes.tasks, b)
      && s.limiter.now <= now
    case Write(t, now) =>
      t in s.due && t < |s.scrapes.tasks| && s.scrapes.tasks[t].phase.Scraped? && s.limiter.now <= now
    case Move(a) => S.Enabled(w.cfg, s.scrapes, a) && MayMove(w, s, a)
  }

  function AskFor(s: State, e: Event): L.Event
    requires e.Charge?
  {
    L.Ask(e.tier, |Members(s.scrapes.tasks, e.batch)|, e.now, e.locked)
  }

  function Charged(s: State, e: Event): State
    requires e.Charge? && s.limiter.now <= e.now
  {
    var ask := AskFor(s, e);
    var limiter := L.Next(s.limiter, ask);
    if L.Admits(s.limiter.rows, ask.tier, ask.count, ask.now, ask.locked)
    then State(s.scrapes, limiter, s.admitted + {e.batch}, s.due + Members(s.scrapes.tasks, e.batch))
    else s.(limiter := limiter)
  }

  /** A task that ends without its row, rejected or failed, takes its unit with it. */
  function Moved(s: State, scrapes: S.State, a: S.Action): State
    requires s.due != {} ==> s.limiter.pending > 0
  {
    if !a.Refresh? && a.t in s.due && a.t < |scrapes.tasks| && scrapes.tasks[a.t].phase.Done?
    then State(scrapes, L.Next(s.limiter, L.Drop), s.admitted, s.due - {a.t})
    else s.(scrapes := scrapes)
  }

  function Next(w: Setting, s: State, e: Event): State
    requires S.WellTyped(w.cfg, s.scrapes) && Enabled(w, s, e) && s.limiter.pending == |s.due|
  {
    match e
    case Charge(_, _, _, _) => Charged(s, e)
    case Write(t, now) => s.(limiter := L.Next(s.limiter, L.Record(now)), due := s.due - {t})
    case Move(a) => Moved(s, S.Next(w.cfg, s.scrapes, a), a)
  }

  /** Units unrecorded are the due tasks, and these are open. */
  ghost predicate Metered(s: State) {
    s.limiter.pending == |s.due| && s.due <= Open(s)
  }

  lemma SubsetSize<T>(a: set<T>, b: set<T>)
    requires a <= b
    ensures |a| <= |b|
  {
    assert b == a + (b - a);
  }

  lemma ChargeMetered(w: Setting, s: State, e: Event)
    requires S.WellTyped(w.cfg, s.scrapes) && Metered(s) && e.Charge? && Enabled(w, s, e)
    ensures Metered(Charged(s, e))
  {
    var members := Members(s.scrapes.tasks, e.batch);
    assert members !! s.due;
    assert |s.due + members| == |s.due| + |members|;
    var s' := Charged(s, e);
    forall t | t in s'.due
      ensures t in Open(s')
    {
      assert t in s.due ==> t in Open(s);
    }
  }

  lemma WriteMetered(w: Setting, s: State, t: nat, now: real)
    requires S.WellTyped(w.cfg, s.scrapes) && Metered(s) && Enabled(w, s, Write(t, now))
    ensures Metered(Next(w, s, Write(t, now)))
  {
    var s' := Next(w, s, Write(t, now));
    assert Open(s') == Open(s);
  }

  /** A step of the system leaves every other task, and its own task's batch, as they were. */
  lemma OthersStay(cfg: S.Config, s: S.State, a: S.Action, t: nat)
    requires S.WellTyped(cfg, s) && S.Enabled(cfg, s, a) && t < |s.tasks|
    ensures |S.Next(cfg, s, a).tasks| == |s.tasks| && S.Next(cfg, s, a).tasks[t].batch == s.tasks[t].batch
    ensures a.Refresh? || a.t != t ==> S.Next(cfg, s, a).tasks[t] == s.tasks[t]
  {
  }

  lemma MoveMetered(w: Setting, s: State, a: S.Action)
    requires S.WellTyped(w.cfg, s.scrapes) && Metered(s) && Enabled(w, s, Move(a))
    ensures Metered(Next(w, s, Move(a)))
  {
    var s' := Next(w, s, Move(a));
    forall t | t in s'.due
      ensures t in Open(s')
    {
      assert t in s.due && t in Open(s);
      OthersStay(w.cfg, s.scrapes, a, t);
    }
  }

  ghost predicate Inv(w: Setting, p: nat, s: State) {
    S.WellTyped(w.cfg, s.scrapes) && Metered(s) && L.Inv(p, s.limiter)
  }

  lemma ChargeInv(w: Setting, p: nat, s: State, e: Event)
    requires Inv(w, p, s) && e.Charge? && Enabled(w, s, e) && |Open(Charged(s, e))| <= p
    ensures Inv(w, p, Charged(s, e))
  {
    ChargeMetered(w, s, e);
    SubsetSize(Charged(s, e).due, Open(Charged(s, e)));
    L.AskKeeps(p, s.limiter, AskFor(s, e));
  }

  lemma WriteInv(w: Setting, p: nat, s: State, t: nat, now: real)
    requires Inv(w, p, s) && Enabled(w, s, Write(t, now))
    ensures Inv(w, p, Next(w, s, Write(t, now)))
  {
    WriteMetered(w, s, t, now);
    L.RecordKeeps(p, s.limiter, now);
  }

  lemma DropKeeps(p: nat, s: L.State)
    requires L.Inv(p, s) && L.Enabled(s, L.Drop)
    ensures L.Inv(p, L.Next(s, L.Drop))
  {
  }

  lemma MoveInv(w: Setting, p: nat, s: State, a: S.Action)
    requires Inv(w, p, s) && Enabled(w, s, Move(a))
    ensures Inv(w, p, Next(w, s, Move(a)))
  {
    MoveMetered(w, s, a);
    if s.limiter.pending > 0 {
      DropKeeps(p, s.limiter);
    }
  }

  lemma NextInv(w: Setting, p: nat, s: State, e: Event)
    requires Inv(w, p, s) && Enabled(w, s, e) && |Open(Next(w, s, e))| <= p
    ensures Inv(w, p, Next(w, s, e))
  {
    match e
    case Charge(_, _, _, _) => ChargeInv(w, p, s, e);
    case Write(t, now) => WriteInv(w, p, s, t, now);
    case Move(a) => MoveInv(w, p, s, a);
  }

  /** A run in which never more than `p` tasks of the key are open at once. */
  ghost predicate ValidRun(w: Setting, p: nat, s: State, events: seq<Event>)
    decreases |events|
  {
    |Open(s)| <= p &&
    (events == [] ||
     (S.WellTyped(w.cfg, s.scrapes) && Enabled(w, s, events[0]) && s.limiter.pending == |s.due| &&
      ValidRun(w, p, Next(w, s, events[0]), events[1..])))
  }

  ghost function Final(w: Setting, p: nat, s: State, events: seq<Event>): State
    requires ValidRun(w, p, s, events)
    decreases |events|
  {
    if events == [] then s else Final(w, p, Next(w, s, events[0]), events[1..])
  }

  lemma {:induction false} RunInv(w: Setting, p: nat, s: State, events: seq<Event>)
    requires Inv(w, p, s) && ValidRun(w, p, s, events)
    ensures Inv(w, p, Final(w, p, s, events))
    decreases |events|
  {
    if events != [] {
      NextInv(w, p, s, events[0]);
      RunInv(w, p, Next(w, s, events[0]), events[1..]);
    }
  }

  ghost predicate Init(w: Setting, s: State) {
    S.Init(w.cfg, s.scrapes) && L.Initial(s.limiter) && s.admitted == {} && s.due == {}
  }

  /**
   * The limit as a caller meets it: with at most p scrapes of the key let in and unfinished at any time, the units
   * not yet recorded are among them, and every half-open window that ends at a row holds at most max + p - 1 rows.
   */
  lemma RowsAreBoundedByOpenScrapes(w: Setting, p: nat, s: State, events: seq<Event>)
    requires Init(w, s) && ValidRun(w, p, s, events)
    ensures var f := Final(w, p, s, events);
            && f.limiter.pending == |f.due| && f.due <= Open(f)
            && |f.limiter.rows| == |f.limiter.under| && L.Bounded(f.limiter.rows, f.limiter.under, p)
  {
    assert Open(s) == {};
    RunInv(w, p, s, events);
  }
}
