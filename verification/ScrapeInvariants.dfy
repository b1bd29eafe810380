/** What every step of the scrape system keeps. */
module ScrapeInvariants {
  import opened Common
  import opened Decodo
  import opened Worker
  import opened WorkerPool
  import opened ScrapeSystem

  // ---------------------------------------------------------------- counting tasks

  datatype Kind = PermitAt(region: string) | SlotOf(batch: nat)

  predicate Counted(k: Kind, task: Task) {
    match k
    case PermitAt(r) => task.phase == Permitted(r)
    case SlotOf(b) => task.batch == b && task.phase.InBatch()
  }

  /** Tasks that hold a region permit but no worker yet, or tasks of a batch that are running. */
  function Tally(ts: seq<Task>, k: Kind): nat {
    if ts == [] then 0 else (if Counted(k, ts[0]) then 1 else 0) + Tally(ts[1..], k)
  }

  lemma {:induction false} TallyUpdate(ts: seq<Task>, t: nat, task: Task, k: Kind)
    requires t < |ts|
    ensures Tally(ts[t := task], k) ==
            Tally(ts, k) - (if Counted(k, ts[t]) then 1 else 0) + (if Counted(k, task) then 1 else 0)
  {
    if t > 0 {
      assert ts[t := task][1..] == ts[1..][t - 1 := task];
      TallyUpdate(ts[1..], t - 1, task, k);
    } else {
      assert ts[t := task][1..] == ts[1..];
    }
  }

  lemma {:induction false} TallyPositive(ts: seq<Task>, k: Kind)
    ensures Tally(ts, k) > 0 <==> exists t :: 0 <= t < |ts| && Counted(k, ts[t])
  {
    if ts != [] {
      TallyPositive(ts[1..], k);
      if t: nat :| t < |ts[1..]| && Counted(k, ts[1..][t]) {
        assert Counted(k, ts[t + 1]);
      }
      if t: nat :| t < |ts| && Counted(k, ts[t]) {
        assert t == 0 || Counted(k, ts[1..][t - 1]);
      }
    }
  }

  lemma PutBusy(pool: Pool, w: WorkerId, st: WorkerState)
    requires pool.WellFormed() && pool.Has(w)
    ensures Busy(pool.Put(w, st).workers[w.region]) ==
            Busy(pool.workers[w.region]) + (if st.busy then 1 else 0) - (if pool.At(w).busy then 1 else 0)
    ensures forall r :: r in pool.sizes && r != w.region ==> pool.Put(w, st).workers[r] == pool.workers[r]
  {
    BusyUpdate(pool.workers[w.region], w.index, st);
  }

  // ---------------------------------------------------------------- the invariant

  /** Per region: free permits, tasks between permit and worker, and busy workers add up to the size. */
  ghost predicate Conserved(s: State)
    requires s.pool.WellFormed()
  {
    forall r :: r in s.pool.sizes ==>
      s.pool.permits[r] + Tally(s.tasks, PermitAt(r)) + Busy(s.pool.workers[r]) == s.pool.sizes[r]
  }

  /** Per batch: free slots and running items add up to the effective concurrency. */
  ghost predicate Bounded(cfg: Config, s: State)
    requires |s.slots| == |cfg.requested|
  {
    forall b :: 0 <= b < |s.slots| ==> s.slots[b] + Tally(s.tasks, SlotOf(b)) == EffectiveConcurrency(cfg.requested[b])
  }

  predicate Holds(s: State, t: nat, w: WorkerId) {
    t < |s.tasks| && s.tasks[t].phase.Worker() == Some(w)
  }

  /** A busy worker has exactly one holder and remembers its own region; an idle one remembers nothing. */
  ghost predicate Owned(s: State)
    requires s.pool.WellFormed()
  {
    && (forall w, t :: s.pool.Has(w) && Holds(s, t, w) ==>
          s.pool.At(w).busy && s.pool.At(w).leaseRegion == Some(w.region))
    && (forall w, t, u :: s.pool.Has(w) && Holds(s, t, w) && Holds(s, u, w) ==> t == u)
    && (forall w :: s.pool.Has(w) && !s.pool.At(w).busy ==> s.pool.At(w) == IDLE)
    && (forall w :: s.pool.Has(w) && s.pool.At(w).busy ==> exists t :: Holds(s, t, w))
  }

  /** The proxy stage is over with `supply`, and the shared field names the side that granted the proxy. */
  predicate Supplied(cfg: Config, breaker: Option<Side>, task: Task) {
    var supply := ProxyStage(cfg.setup, task.seen);
    && task.seen.started
    && task.obtained == Borrowed(cfg.setup, task.seen)
    && task.released == []
    && task.proxy == (if supply.From? then Some(supply.lease.proxy) else None)
    && breaker == (if supply.From? then Some(supply.lease.side) else None)
    && task.used == ProviderName(cfg.setup, supply)
  }

  predicate Untouched(cfg: Config, task: Task) {
    task.proxy == None && task.used == cfg.setup.primary && task.obtained == [] && task.released == []
  }

  predicate Settled(cfg: Config, task: Task) {
    && task.obtained == task.released == Borrowed(cfg.setup, task.seen)
    && task.response == Respond(cfg.setup, task.seen)
  }

  /** Where a task stands in terms of the answers it has seen so far. */
  predicate Coherent(cfg: Config, breaker: Option<Side>, task: Task) {
    match task.phase
    case Queued => Untouched(cfg, task)
    case Admitted => Untouched(cfg, task)
    case Waiting(_) => Untouched(cfg, task)
    case Permitted(_) => Untouched(cfg, task)
    case Leased(_) => Untouched(cfg, task) && breaker == None
    case AskingFallback(_) => Untouched(cfg, task) && breaker == None && task.seen.started &&
                              task.seen.primary == Refused && cfg.setup.fallback.Some? && cfg.setup.primary != "null"
    case Fetched(_) => Supplied(cfg, breaker, task) && !ProxyStage(cfg.setup, task.seen).Unavailable?
    case Unwinding(_) => Supplied(cfg, breaker, task) && task.response == Respond(cfg.setup, task.seen)
    case Clearing(_) => Settled(cfg, task)
    case Scraped(_) => Settled(cfg, task) && breaker == None
    case Done(Responded(response)) => Settled(cfg, task) && response == task.response
    case Done(Failed) => task.obtained == task.released && |task.obtained| <= 1
  }

  predicate CoherentIn(cfg: Config, pool: Pool, task: Task)
    requires pool.WellFormed() && (task.phase.Worker().Some? ==> pool.Has(task.phase.Worker().value))
  {
    var w := task.phase.Worker();
    Coherent(cfg, if w.Some? then pool.At(w.value).lastBreaker else None, task)
  }

  ghost predicate CoherentTasks(cfg: Config, pool: Pool, batches: nat, ts: seq<Task>)
    requires pool.WellFormed()
  {
    forall t :: 0 <= t < |ts| ==> TaskTyped(pool, batches, ts[t]) && CoherentIn(cfg, pool, ts[t])
  }

  ghost predicate AllCoherent(cfg: Config, s: State)
    requires WellTyped(cfg, s)
  {
    CoherentTasks(cfg, s.pool, |s.slots|, s.tasks)
  }

  predicate Live(task: Task, side: Side) {
    |task.released| < |task.obtained| && task.obtained[0].side == side
  }

  /** Proxies of one side that tasks currently hold. */
  function LiveLeases(ts: seq<Task>, side: Side): map<nat, Proxy> {
    map t: nat | t < |ts| && Live(ts[t], side) :: ts[t].obtained[0].proxy
  }

  ghost predicate LeakFree(s: State) {
    forall side: Side :: s.providers.At(side).Leasing? ==>
      NoLeak(s.providers.At(side).pool, LiveLeases(s.tasks, side))
  }

  ghost predicate Exclusive(s: State) {
    forall side: Side :: s.providers.At(side).Leasing? ==>
      Exact(s.providers.At(side).pool, LiveLeases(s.tasks, side))
  }

  ghost predicate Inv(cfg: Config, s: State) {
    && WellTyped(cfg, s)
    && "" !in s.pool.sizes
    && Conserved(s)
    && Bounded(cfg, s)
    && Owned(s)
    && AllCoherent(cfg, s)
    && LeakFree(s)
  }

  // ---------------------------------------------------------------- preservation, one conjunct at a time

  /** While a task holds a permit some worker of the region is idle: the RuntimeError is unreachable. */
  lemma PermitFindsIdleWorker(cfg: Config, s: State, t: nat)
    requires WellTyped(cfg, s) && Conserved(s) && t < |s.tasks| && s.tasks[t].phase.Permitted?
    ensures var ws := s.pool.workers[s.tasks[t].phase.region]; FirstIdle(ws) < |ws| && Busy(ws) < |ws|
  {
    var r := s.tasks[t].phase.region;
    assert Counted(PermitAt(r), s.tasks[t]);
    TallyPositive(s.tasks, PermitAt(r));
    ScanFindsIdle(s.pool.workers[r]);
  }

  /** A returning task finds its region's semaphore below its bound, whatever region the caller names. */
  lemma ReturnIsBounded(cfg: Config, s: State, t: nat, caller: Option<string>)
    requires WellTyped(cfg, s) && "" !in s.pool.sizes && Conserved(s) && Owned(s)
    requires t < |s.tasks| && s.tasks[t].phase.Worker().Some?
    ensures var w := s.tasks[t].phase.Worker().value;
            && s.pool.ReleaseRegion(w, caller) == w.region
            && s.pool.permits[w.region] < s.pool.sizes[w.region]
            && s.pool.Release(w, caller).Some?
  {
    var w := s.tasks[t].phase.Worker().value;
    assert Holds(s, t, w);
    BusyUpdate(s.pool.workers[w.region], w.index, IDLE);
  }

  /** What one task and the pool contribute to a region's account. */
  function Account(pool: Pool, task: Task, r: string): int
    requires r in pool.permits && r in pool.workers
  {
    pool.permits[r] + Busy(pool.workers[r]) + if Counted(PermitAt(r), task) then 1 else 0
  }

  lemma ScanAccount(s: State, task: Task, r: string, q: string)
    requires s.pool.WellFormed() && r in s.pool.sizes && q in s.pool.sizes && task.batch < |s.slots|
    requires task.phase == Permitted(r) && Busy(s.pool.workers[r]) < s.pool.sizes[r]
    ensures Account(AfterScan(s, task, r).pool, AfterScan(s, task, r).task, q) == Account(s.pool, task, q)
  {
    ScanFindsIdle(s.pool.workers[r]);
    var i := FirstIdle(s.pool.workers[r]);
    PutBusy(s.pool, WorkerId(r, i), s.pool.workers[r][i].(busy := true, leaseRegion := Some(r)));
  }

  lemma ReturnAccount(s: State, task: Task, w: WorkerId, caller: Option<string>, failed: bool, q: string)
    requires s.pool.WellFormed() && s.pool.Has(w) && q in s.pool.sizes && task.batch < |s.slots|
    requires task.phase == Scraped(w) && s.pool.At(w).busy
    requires s.pool.ReleaseRegion(w, caller) == w.region && s.pool.Release(w, caller).Some?
    ensures var e := AfterReturn(s, task, w, caller, failed); Account(e.pool, e.task, q) == Account(s.pool, task, q)
  {
    PutBusy(s.pool, w, s.pool.At(w).(busy := false, leaseRegion := None));
  }

  lemma BreakerAccount(pool: Pool, w: WorkerId, side: Option<Side>)
    requires pool.WellFormed() && pool.Has(w)
    ensures SetBreaker(pool, w, side).permits == pool.permits
    ensures forall r :: r in pool.sizes ==> Busy(SetBreaker(pool, w, side).workers[r]) == Busy(pool.workers[r])
  {
    PutBusy(pool, w, pool.At(w).(lastBreaker := side));
  }

  lemma PrimaryAccount(cfg: Config, s: State, task: Task, w: WorkerId, reply: Reply, q: string)
    requires s.pool.WellFormed() && s.pool.Has(w) && q in s.pool.sizes && task.batch < |s.slots|
    requires task.phase.Worker() == Some(w)
    ensures var e := AfterPrimary(cfg, s, task, w, reply); Account(e.pool, e.task, q) == Account(s.pool, task, q)
  {
    BreakerAccount(s.pool, w, None);
    BreakerAccount(s.pool, w, Some(Primary));
    var e := AfterPrimary(cfg, s, task, w, reply);
    assert !e.task.phase.Permitted?;
    assert e.pool == s.pool || e.pool == SetBreaker(s.pool, w, None) || e.pool == SetBreaker(s.pool, w, Some(Primary));
  }

  lemma FallbackAccount(cfg: Config, s: State, task: Task, w: WorkerId, reply: Reply, q: string)
    requires s.pool.WellFormed() && s.pool.Has(w) && q in s.pool.sizes && task.batch < |s.slots|
    requires task.phase.Worker() == Some(w)
    ensures var e := AfterFallback(cfg, s, task, w, reply); Account(e.pool, e.task, q) == Account(s.pool, task, q)
  {
    BreakerAccount(s.pool, w, Some(Fallback));
    var e := AfterFallback(cfg, s, task, w, reply);
    assert !e.task.phase.Permitted?;
    assert e.pool == s.pool || e.pool == SetBreaker(s.pool, w, Some(Fallback));
  }

  /** What a task's phase guarantees about the pool when it scans for a worker or hands one back. */
  ghost predicate Ready(s: State, a: Action)
    requires s.pool.WellFormed() && !a.Refresh? && a.t < |s.tasks|
  {
    var phase := s.tasks[a.t].phase;
    && (a.LeaseWorker? && phase.Permitted? ==>
          && phase.region in s.pool.sizes
          && FirstIdle(s.pool.workers[phase.region]) < |s.pool.workers[phase.region]|
          && Busy(s.pool.workers[phase.region]) < s.pool.sizes[phase.region])
    && (a.Return? && phase.Scraped? ==>
          && s.pool.Has(phase.w) && s.pool.At(phase.w).busy
          && s.pool.ReleaseRegion(phase.w, a.caller) == phase.w.region
          && s.pool.Release(phase.w, a.caller).Some?)
  }

  lemma StepReady(cfg: Config, s: State, a: Action)
    requires WellTyped(cfg, s) && "" !in s.pool.sizes && Conserved(s) && Owned(s)
    requires !a.Refresh? && Enabled(cfg, s, a)
    ensures Ready(s, a)
  {
    assert TaskTyped(s.pool, |s.slots|, s.tasks[a.t]);
    if a.LeaseWorker? {
      PermitFindsIdleWorker(cfg, s, a.t);
    } else if a.Return? {
      assert Holds(s, a.t, s.tasks[a.t].phase.w);
      ReturnIsBounded(cfg, s, a.t, a.caller);
    }
  }

  lemma StepAccount(cfg: Config, s: State, a: Action, q: string)
    requires WellTyped(cfg, s) && !a.Refresh? && Enabled(cfg, s, a) && Ready(s, a) && q in s.pool.sizes
    ensures Account(Step(cfg, s, a).pool, Step(cfg, s, a).task, q) == Account(s.pool, s.tasks[a.t], q)
  {
    var task := s.tasks[a.t];
    assert TaskTyped(s.pool, |s.slots|, task);
    match a
    case LeaseWorker(t) => ScanAccount(s, task, task.phase.region, q);
    case AskPrimary(t, reply) => PrimaryAccount(cfg, s, task, task.phase.w, reply, q);
    case AskFallback(t, reply) => FallbackAccount(cfg, s, task, task.phase.w, reply, q);
    case ClearBreaker(t) => BreakerAccount(s.pool, task.phase.w, None);
    case Return(t, caller, failed) => ReturnAccount(s, task, task.phase.w, caller, failed, q);
    case _ =>
  }

  lemma NextConserved(cfg: Config, s: State, a: Action)
    requires WellTyped(cfg, s) && Enabled(cfg, s, a) && Conserved(s) && (!a.Refresh? ==> Ready(s, a))
    ensures Conserved(Next(cfg, s, a))
  {
    var s' := Next(cfg, s, a);
    if !a.Refresh? {
      forall r | r in s.pool.sizes
        ensures s'.pool.permits[r] + Tally(s'.tasks, PermitAt(r)) + Busy(s'.pool.workers[r]) == s.pool.sizes[r]
      {
        StepAccount(cfg, s, a, r);
        TallyUpdate(s.tasks, a.t, Step(cfg, s, a).task, PermitAt(r));
      }
    }
  }

  /** Only the stepping task's worker changes: leasing takes an idle one, returning resets its flags. */
  ghost predicate Moved(p: Pool, p': Pool, w0: Option<WorkerId>, w1: Option<WorkerId>)
    requires p.WellFormed() && p'.WellFormed() && p'.sizes == p.sizes
  {
    && (w0.Some? ==> p.Has(w0.value)) && (w1.Some? ==> p.Has(w1.value))
    && (w0 != w1 ==> w0 == None || w1 == None)
    && (w0 != w1 && w1.Some? ==>
          !p.At(w1.value).busy &&
          p'.At(w1.value) == p.At(w1.value).(busy := true, leaseRegion := Some(w1.value.region)))
    && (w0 != w1 && w0.Some? ==> p'.At(w0.value) == p.At(w0.value).(busy := false, leaseRegion := None))
    && (w0 == w1 && w0.Some? ==>
          p'.At(w0.value) == p.At(w0.value).(lastBreaker := p'.At(w0.value).lastBreaker))
    && (forall v :: p.Has(v) && Some(v) != w0 && Some(v) != w1 ==> p'.At(v) == p.At(v))
  }

  /** How far a task is from its end. */
  function Rank(phase: Phase): nat {
    match phase
    case Queued => 10
    case Admitted => 9
    case Waiting(_) => 8
    case Permitted(_) => 7
    case Leased(_) => 6
    case AskingFallback(_) => 5
    case Fetched(_) => 4
    case Unwinding(_) => 3
    case Clearing(_) => 2
    case Scraped(_) => 1
    case Done(_) => 0
  }

  lemma PrimaryMoved(cfg: Config, s: State, task: Task, w: WorkerId, reply: Reply)
    requires s.pool.WellFormed() && s.pool.Has(w) && task.batch < |s.slots| && task.phase == Leased(w)
    ensures Moved(s.pool, AfterPrimary(cfg, s, task, w, reply).pool, Some(w), Some(w))
    ensures var e := AfterPrimary(cfg, s, task, w, reply);
            e.task.phase.Worker() == Some(w) && e.slots == s.slots[task.batch] && Rank(e.task.phase) < Rank(task.phase)
  {
  }

  lemma FallbackMoved(cfg: Config, s: State, task: Task, w: WorkerId, reply: Reply)
    requires s.pool.WellFormed() && s.pool.Has(w) && task.batch < |s.slots| && task.phase == AskingFallback(w)
    ensures Moved(s.pool, AfterFallback(cfg, s, task, w, reply).pool, Some(w), Some(w))
    ensures var e := AfterFallback(cfg, s, task, w, reply);
            e.task.phase.Worker() == Some(w) && e.slots == s.slots[task.batch] && Rank(e.task.phase) < Rank(task.phase)
  {
  }

  lemma ScanMoved(s: State, task: Task, r: string)
    requires s.pool.WellFormed() && r in s.pool.sizes && task.batch < |s.slots| && task.phase == Permitted(r)
    requires FirstIdle(s.pool.workers[r]) < |s.pool.workers[r]|
    ensures Moved(s.pool, AfterScan(s, task, r).pool, None, AfterScan(s, task, r).task.phase.Worker())
    ensures var e := AfterScan(s, task, r); e.slots == s.slots[task.batch] && e.task.phase.Leased?
  {
  }

  lemma ReturnMoved(s: State, task: Task, w: WorkerId, caller: Option<string>, failed: bool)
    requires s.pool.WellFormed() && s.pool.Has(w) && task.batch < |s.slots|
    requires s.pool.ReleaseRegion(w, caller) == w.region && s.pool.Release(w, caller).Some?
    ensures Moved(s.pool, AfterReturn(s, task, w, caller, failed).pool, Some(w), None)
    ensures AfterReturn(s, task, w, caller, failed).task.phase.Worker() == None
  {
  }

  /** A step that takes or returns no worker leaves all flags but the breaker field of its own. */
  lemma KeepsMoved(cfg: Config, s: State, a: Action)
    requires WellTyped(cfg, s) && !a.Refresh? && Enabled(cfg, s, a) && !a.LeaseWorker? && !a.Return?
    ensures var e := Step(cfg, s, a);
            && Moved(s.pool, e.pool, s.tasks[a.t].phase.Worker(), e.task.phase.Worker())
            && s.tasks[a.t].phase.Worker() == e.task.phase.Worker()
  {
    var task := s.tasks[a.t];
    assert TaskTyped(s.pool, |s.slots|, task);
    match a
    case AskPrimary(t, reply) => PrimaryMoved(cfg, s, task, task.phase.w, reply);
    case AskFallback(t, reply) => FallbackMoved(cfg, s, task, task.phase.w, reply);
    case _ =>
  }

  lemma StepMoved(cfg: Config, s: State, a: Action)
    requires WellTyped(cfg, s) && !a.Refresh? && Enabled(cfg, s, a) && Ready(s, a)
    ensures var e := Step(cfg, s, a); Moved(s.pool, e.pool, s.tasks[a.t].phase.Worker(), e.task.phase.Worker())
    ensures s.tasks[a.t].phase.Worker().Some? && Step(cfg, s, a).task.phase.Worker() == None ==> a.Return?
  {
    var task := s.tasks[a.t];
    assert TaskTyped(s.pool, |s.slots|, task);
    if a.LeaseWorker? {
      ScanMoved(s, task, task.phase.region);
    } else if a.Return? {
      ReturnMoved(s, task, task.phase.w, a.caller, a.failed);
    } else {
      KeepsMoved(cfg, s, a);
    }
  }

  lemma ReturnEnds(s: State, task: Task, w: WorkerId, caller: Option<string>, failed: bool)
    requires s.pool.WellFormed() && s.pool.Has(w) && task.batch < |s.slots|
    ensures AfterReturn(s, task, w, caller, failed).task.phase.Done?
    ensures AfterReturn(s, task, w, caller, failed).slots == s.slots[task.batch] + 1
  {
  }

  lemma ReleaseStays(s: State, task: Task, w: WorkerId)
    requires s.pool.WellFormed() && s.pool.Has(w) && task.batch < |s.slots|
    ensures AfterRelease(s, task, w).task.phase == Clearing(w) && AfterRelease(s, task, w).slots == s.slots[task.batch]
  {
  }

  /** What a batch's free slots and one of its tasks amount to. */
  function Share(slots: nat, task: Task): nat {
    slots + if task.phase.InBatch() then 1 else 0
  }

  /** The phase a task can reach in one step: its region and its worker stay those it started with. */
  predicate Follows(pool: Pool, region: Option<string>, now: Phase, after: Phase) {
    match now
    case Queued => after.Admitted?
    case Admitted => after.Done? || after == Waiting(pool.Normalize(region))
    case Waiting(r) => after == Permitted(r)
    case Permitted(r) => after.Done? || (after.Leased? && after.w.region == r)
    case Leased(w) => after in {Scraped(w), AskingFallback(w), Fetched(w), Unwinding(w)}
    case AskingFallback(w) => after in {Fetched(w), Unwinding(w)}
    case Fetched(w) => after == Unwinding(w)
    case Unwinding(w) => after == Clearing(w)
    case Clearing(w) => after == Scraped(w)
    case Scraped(_) => after.Done?
    case Done(_) => false
  }

  /** A step takes its task to a phase that follows, and takes or frees a batch slot as that phase demands. */
  ghost predicate Advances(s: State, task: Task, e: Effect)
    requires task.batch < |s.slots|
  {
    && Follows(s.pool, task.region, task.phase, e.task.phase)
    && Share(e.slots, e.task) == Share(s.slots[task.batch], task)
  }

  lemma EntryAdvances(cfg: Config, s: State, a: Action)
    requires WellTyped(cfg, s) && Enabled(cfg, s, a) && (a.Start? || a.Reject? || a.Pass?)
    ensures s.tasks[a.t].batch < |s.slots| && Advances(s, s.tasks[a.t], Step(cfg, s, a))
  {
    assert TaskTyped(s.pool, |s.slots|, s.tasks[a.t]);
  }

  lemma PoolAdvances(cfg: Config, s: State, a: Action)
    requires WellTyped(cfg, s) && Enabled(cfg, s, a) && (a.TakePermit? || a.LeaseWorker? || a.NotStarted?)
    ensures s.tasks[a.t].batch < |s.slots| && Advances(s, s.tasks[a.t], Step(cfg, s, a))
  {
    assert TaskTyped(s.pool, |s.slots|, s.tasks[a.t]);
  }

  lemma ReturnAdvances(cfg: Config, s: State, a: Action)
    requires WellTyped(cfg, s) && Enabled(cfg, s, a) && a.Return?
    ensures s.tasks[a.t].batch < |s.slots| && Advances(s, s.tasks[a.t], Step(cfg, s, a))
  {
    var task := s.tasks[a.t];
    assert TaskTyped(s.pool, |s.slots|, task);
    ReturnEnds(s, task, task.phase.w, a.caller, a.failed);
  }

  lemma ScrapeAdvances(cfg: Config, s: State, a: Action)
    requires WellTyped(cfg, s) && Enabled(cfg, s, a)
    requires a.AskPrimary? || a.AskFallback? || a.Run? || a.ReleaseProxy? || a.ClearBreaker?
    ensures s.tasks[a.t].batch < |s.slots| && Advances(s, s.tasks[a.t], Step(cfg, s, a))
  {
    var task := s.tasks[a.t];
    assert TaskTyped(s.pool, |s.slots|, task);
    match a
    case AskPrimary(t, reply) => PrimaryMoved(cfg, s, task, task.phase.w, reply);
    case AskFallback(t, reply) => FallbackMoved(cfg, s, task, task.phase.w, reply);
    case ReleaseProxy(t) => ReleaseStays(s, task, task.phase.w);
    case _ =>
  }

  lemma StepAdvances(cfg: Config, s: State, a: Action)
    requires WellTyped(cfg, s) && !a.Refresh? && Enabled(cfg, s, a)
    ensures s.tasks[a.t].batch < |s.slots| && Advances(s, s.tasks[a.t], Step(cfg, s, a))
  {
    if a.Start? || a.Reject? || a.Pass? {
      EntryAdvances(cfg, s, a);
    } else if a.TakePermit? || a.LeaseWorker? || a.NotStarted? {
      PoolAdvances(cfg, s, a);
    } else if a.Return? {
      ReturnAdvances(cfg, s, a);
    } else {
      ScrapeAdvances(cfg, s, a);
    }
  }

  /** A step keeps its batch's account of slots. */
  lemma StepSlots(cfg: Config, s: State, a: Action)
    requires WellTyped(cfg, s) && !a.Refresh? && Enabled(cfg, s, a) && s.tasks[a.t].batch < |s.slots|
    ensures Share(Step(cfg, s, a).slots, Step(cfg, s, a).task) == Share(s.slots[s.tasks[a.t].batch], s.tasks[a.t])
    ensures Step(cfg, s, a).task.batch == s.tasks[a.t].batch
  {
    StepAdvances(cfg, s, a);
  }

  /** What a task has heard after a step of its own. */
  function Heard(a: Answers, act: Action): Answers {
    match act
    case NotStarted(_) => a.(started := false)
    case AskPrimary(_, reply) => a.(started := true, primary := reply)
    case AskFallback(_, reply) => a.(fallback := reply)
    case Run(_, run) => a.(run := run)
    case _ => a
  }

  lemma PrimaryHears(cfg: Config, s: State, task: Task, w: WorkerId, reply: Reply)
    requires s.pool.WellFormed() && s.pool.Has(w) && task.batch < |s.slots|
    ensures AfterPrimary(cfg, s, task, w, reply).task.seen == task.seen.(started := true, primary := reply)
  {
  }

  lemma FallbackHears(cfg: Config, s: State, task: Task, w: WorkerId, reply: Reply)
    requires s.pool.WellFormed() && s.pool.Has(w) && task.batch < |s.slots|
    ensures AfterFallback(cfg, s, task, w, reply).task.seen == task.seen.(fallback := reply)
  {
  }

  lemma ReturnKeeps(s: State, task: Task, w: WorkerId, caller: Option<string>, failed: bool)
    requires s.pool.WellFormed() && s.pool.Has(w) && task.batch < |s.slots|
    ensures AfterReturn(s, task, w, caller, failed).task.seen == task.seen
  {
  }

  lemma ReleaseKeepsSeen(s: State, task: Task, w: WorkerId)
    requires s.pool.WellFormed() && s.pool.Has(w) && task.batch < |s.slots|
    ensures AfterRelease(s, task, w).task.seen == task.seen
  {
  }

  lemma StepHears(cfg: Config, s: State, a: Action)
    requires WellTyped(cfg, s) && !a.Refresh? && Enabled(cfg, s, a)
    ensures Step(cfg, s, a).task.seen == Heard(s.tasks[a.t].seen, a)
  {
    var task := s.tasks[a.t];
    assert TaskTyped(s.pool, |s.slots|, task);
    match a
    case AskPrimary(t, reply) => PrimaryHears(cfg, s, task, task.phase.w, reply);
    case AskFallback(t, reply) => FallbackHears(cfg, s, task, task.phase.w, reply);
    case ReleaseProxy(t) => ReleaseKeepsSeen(s, task, task.phase.w);
    case Return(t, caller, failed) => ReturnKeeps(s, task, task.phase.w, caller, failed);
    case _ =>
  }

  /** What a step's task ends with: only a rejection, a failed return or a plain return ends it. */
  predicate EndsAs(task: Task, a: Action, after: Phase) {
    match a
    case Reject(_) => after == Done(Failed)
    case Return(_, _, failed) => after == Done(if failed then Failed else Responded(task.response))
    case _ => !after.Done?
  }

  lemma StepEnds(cfg: Config, s: State, a: Action)
    requires WellTyped(cfg, s) && !a.Refresh? && Enabled(cfg, s, a) && Ready(s, a)
    ensures EndsAs(s.tasks[a.t], a, Step(cfg, s, a).task.phase)
  {
    var task := s.tasks[a.t];
    assert TaskTyped(s.pool, |s.slots|, task);
    if !a.Reject? && !a.Return? && !a.LeaseWorker? {
      StepAdvances(cfg, s, a);
    } else if a.LeaseWorker? {
      ScanMoved(s, task, task.phase.region);
    }
  }

  lemma FollowsDescends(pool: Pool, region: Option<string>, now: Phase, after: Phase)
    requires Follows(pool, region, now, after)
    ensures Rank(after) < Rank(now)
  {
  }

  /** A step moves its task towards its end. */
  lemma StepDescends(cfg: Config, s: State, a: Action)
    requires WellTyped(cfg, s) && !a.Refresh? && Enabled(cfg, s, a)
    ensures Rank(Step(cfg, s, a).task.phase) < Rank(s.tasks[a.t].phase)
  {
    StepAdvances(cfg, s, a);
    FollowsDescends(s.pool, s.tasks[a.t].region, s.tasks[a.t].phase, Step(cfg, s, a).task.phase);
  }

  /** A task waits for, holds a permit of, or has a worker of the region it asked for, or else of the default one. */
  predicate Placed(pool: Pool, task: Task) {
    var r := pool.Normalize(task.region);
    && (task.phase.Waiting? || task.phase.Permitted? ==> task.phase.region == r)
    && (task.phase.Worker().Some? ==> task.phase.Worker().value.region == r)
  }

  lemma FollowsPlaced(pool: Pool, task: Task, after: Task)
    requires Placed(pool, task) && after.region == task.region && Follows(pool, task.region, task.phase, after.phase)
    ensures Placed(pool, after)
  {
  }

  lemma StepPlaced(cfg: Config, s: State, a: Action)
    requires WellTyped(cfg, s) && !a.Refresh? && Enabled(cfg, s, a) && Placed(s.pool, s.tasks[a.t])
    ensures Placed(s.pool, Step(cfg, s, a).task)
  {
    StepAdvances(cfg, s, a);
    FollowsPlaced(s.pool, s.tasks[a.t], Step(cfg, s, a).task);
  }

  lemma SamePlaces(p: Pool, q: Pool, task: Task)
    requires p.sizes == q.sizes && p.defaultRegion == q.defaultRegion && Placed(p, task)
    ensures Placed(q, task)
  {
  }

  lemma NextPlaced(cfg: Config, s: State, a: Action, t: nat)
    requires WellTyped(cfg, s) && Enabled(cfg, s, a) && t < |s.tasks| && Placed(s.pool, s.tasks[t])
    ensures Placed(Next(cfg, s, a).pool, Next(cfg, s, a).tasks[t])
  {
    var s' := Next(cfg, s, a);
    if !a.Refresh? && a.t == t {
      StepPlaced(cfg, s, a);
      assert s'.tasks[t] == Step(cfg, s, a).task;
    } else {
      assert s'.tasks[t] == s.tasks[t];
    }
    SamePlaces(s.pool, s'.pool, s'.tasks[t]);
  }

  lemma NextBounded(cfg: Config, s: State, a: Action)
    requires WellTyped(cfg, s) && Enabled(cfg, s, a) && Bounded(cfg, s)
    ensures Bounded(cfg, Next(cfg, s, a))
  {
    if !a.Refresh? {
      var task, s', e := s.tasks[a.t], Next(cfg, s, a), Step(cfg, s, a);
      assert TaskTyped(s.pool, |s.slots|, task) && Fits(s, task, e);
      StepSlots(cfg, s, a);
      forall b | 0 <= b < |s.slots|
        ensures s'.slots[b] + Tally(s'.tasks, SlotOf(b)) == EffectiveConcurrency(cfg.requested[b])
      {
        TallyUpdate(s.tasks, a.t, e.task, SlotOf(b));
      }
    }
  }

  lemma MovedOwned(s: State, s': State, t: nat)
    requires s.pool.WellFormed() && s'.pool.WellFormed() && s'.pool.sizes == s.pool.sizes
    requires t < |s.tasks| == |s'.tasks| && s'.tasks == s.tasks[t := s'.tasks[t]] && Owned(s)
    requires Moved(s.pool, s'.pool, s.tasks[t].phase.Worker(), s'.tasks[t].phase.Worker())
    requires s.tasks[t].phase.Worker().Some? && s'.tasks[t].phase.Worker() == None ==>
               s.pool.At(s.tasks[t].phase.Worker().value).lastBreaker == None
    ensures Owned(s')
  {
    var w0, w1 := s.tasks[t].phase.Worker(), s'.tasks[t].phase.Worker();
    assert w0.Some? ==> Holds(s, t, w0.value);
    assert forall w, u :: u != t ==> (Holds(s', u, w) <==> Holds(s, u, w));
    forall w | s.pool.Has(w) && s'.pool.At(w).busy
      ensures exists u :: Holds(s', u, w)
    {
      if w1 == Some(w) {
        assert Holds(s', t, w);
      } else {
        assert w0 != Some(w);
        var u :| Holds(s, u, w);
        assert Holds(s', u, w);
      }
    }
  }

  lemma ReturnIsClean(cfg: Config, s: State, a: Action)
    requires WellTyped(cfg, s) && a.Return? && Enabled(cfg, s, a) && AllCoherent(cfg, s)
    ensures s.pool.At(s.tasks[a.t].phase.w).lastBreaker == None
  {
    assert CoherentIn(cfg, s.pool, s.tasks[a.t]);
  }

  lemma SameHoldersOwned(s: State, s': State)
    requires s.pool.WellFormed() && s'.pool == s.pool && s'.tasks == s.tasks && Owned(s)
    ensures Owned(s')
  {
    assert forall w, u :: Holds(s', u, w) <==> Holds(s, u, w);
  }

  lemma NextOwned(cfg: Config, s: State, a: Action)
    requires WellTyped(cfg, s) && Enabled(cfg, s, a) && Owned(s) && AllCoherent(cfg, s) && (!a.Refresh? ==> Ready(s, a))
    ensures Owned(Next(cfg, s, a))
  {
    var s' := Next(cfg, s, a);
    if !a.Refresh? {
      StepMoved(cfg, s, a);
      if a.Return? {
        ReturnIsClean(cfg, s, a);
      }
      assert s'.pool == Step(cfg, s, a).pool && s'.tasks == s.tasks[a.t := Step(cfg, s, a).task];
      MovedOwned(s, s', a.t);
    } else {
      SameHoldersOwned(s, s');
    }
  }

  lemma PrimaryCoherent(cfg: Config, s: State, task: Task, w: WorkerId, reply: Reply)
    requires s.pool.WellFormed() && s.pool.Has(w) && task.batch < |s.slots| && task.phase == Leased(w)
    requires CoherentIn(cfg, s.pool, task)
    ensures var e := AfterPrimary(cfg, s, task, w, reply); CoherentIn(cfg, e.pool, e.task)
  {
  }

  lemma FallbackCoherent(cfg: Config, s: State, task: Task, w: WorkerId, reply: Reply)
    requires s.pool.WellFormed() && s.pool.Has(w) && task.batch < |s.slots| && task.phase == AskingFallback(w)
    requires CoherentIn(cfg, s.pool, task)
    ensures var e := AfterFallback(cfg, s, task, w, reply); CoherentIn(cfg, e.pool, e.task)
  {
  }

  lemma ReleaseCoherent(cfg: Config, s: State, task: Task, w: WorkerId)
    requires s.pool.WellFormed() && s.pool.Has(w) && task.batch < |s.slots| && task.phase == Unwinding(w)
    requires CoherentIn(cfg, s.pool, task)
    ensures var e := AfterRelease(s, task, w); CoherentIn(cfg, e.pool, e.task)
  {
  }

  lemma RunCoherent(cfg: Config, pool: Pool, task: Task, w: WorkerId, run: RunResult)
    requires pool.WellFormed() && pool.Has(w) && task.phase == Fetched(w) && CoherentIn(cfg, pool, task)
    ensures CoherentIn(cfg, pool, AfterRun(task, w, run))
  {
  }

  lemma ReturnCoherent(cfg: Config, s: State, task: Task, w: WorkerId, caller: Option<string>, failed: bool)
    requires s.pool.WellFormed() && s.pool.Has(w) && task.batch < |s.slots| && task.phase == Scraped(w)
    requires CoherentIn(cfg, s.pool, task) && s.pool.Release(w, caller).Some?
    ensures var e := AfterReturn(s, task, w, caller, failed); e.task.phase.Done? && CoherentIn(cfg, e.pool, e.task)
  {
  }

  lemma StepCoherent(cfg: Config, s: State, a: Action)
    requires WellTyped(cfg, s) && !a.Refresh? && Enabled(cfg, s, a) && Ready(s, a)
    requires CoherentIn(cfg, s.pool, s.tasks[a.t])
    requires forall w :: s.pool.Has(w) && !s.pool.At(w).busy ==> s.pool.At(w) == IDLE
    ensures CoherentIn(cfg, Step(cfg, s, a).pool, Step(cfg, s, a).task)
  {
    var task := s.tasks[a.t];
    assert TaskTyped(s.pool, |s.slots|, task);
    match a
    case AskPrimary(t, reply) => PrimaryCoherent(cfg, s, task, task.phase.w, reply);
    case AskFallback(t, reply) => FallbackCoherent(cfg, s, task, task.phase.w, reply);
    case ReleaseProxy(t) => ReleaseCoherent(cfg, s, task, task.phase.w);
    case LeaseWorker(t) => ScanMoved(s, task, task.phase.region);
    case Run(t, run) => RunCoherent(cfg, s.pool, task, task.phase.w, run);
    case Return(t, caller, failed) => ReturnCoherent(cfg, s, task, task.phase.w, caller, failed);
    case _ =>
  }

  /** A step leaves the worker, and so the breaker field, of every other task as it was. */
  lemma OthersUndisturbed(cfg: Config, p: Pool, p': Pool, w0: Option<WorkerId>, w1: Option<WorkerId>, task: Task)
    requires p.WellFormed() && p'.WellFormed() && p'.sizes == p.sizes && Moved(p, p', w0, w1)
    requires task.phase.Worker().Some? ==>
               p.Has(task.phase.Worker().value) && task.phase.Worker() != w0 && task.phase.Worker() != w1
    requires CoherentIn(cfg, p, task)
    ensures task.phase.Worker().Some? ==> p'.Has(task.phase.Worker().value)
    ensures CoherentIn(cfg, p', task)
  {
  }

  lemma HeldApart(s: State, t: nat, u: nat, w: WorkerId)
    requires s.pool.WellFormed() && Owned(s) && s.pool.Has(w) && Holds(s, u, w) && t != u
    ensures !Holds(s, t, w) && s.pool.At(w).busy
  {
  }

  /** All tasks after task `t` took a step with this effect. */
  lemma EffectCoherent(cfg: Config, s: State, t: nat, e: Effect, u: nat)
    requires s.pool.WellFormed() && Owned(s) && t < |s.tasks| && u < |s.tasks| && Fits(s, s.tasks[t], e)
    requires Moved(s.pool, e.pool, s.tasks[t].phase.Worker(), e.task.phase.Worker())
    requires CoherentIn(cfg, e.pool, e.task)
    requires TaskTyped(s.pool, |s.slots|, s.tasks[u]) && CoherentIn(cfg, s.pool, s.tasks[u])
    ensures TaskTyped(e.pool, |s.slots|, s.tasks[t := e.task][u])
    ensures CoherentIn(cfg, e.pool, s.tasks[t := e.task][u])
  {
    if t != u {
      var w := s.tasks[u].phase.Worker();
      if w.Some? {
        assert Holds(s, u, w.value);
        HeldApart(s, t, u, w.value);
      }
      OthersUndisturbed(cfg, s.pool, e.pool, s.tasks[t].phase.Worker(), e.task.phase.Worker(), s.tasks[u]);
    }
  }

  lemma StepEffectCoherent(cfg: Config, s: State, a: Action)
    requires WellTyped(cfg, s) && !a.Refresh? && Enabled(cfg, s, a) && Owned(s) && AllCoherent(cfg, s) && Ready(s, a)
    ensures var e := Step(cfg, s, a); CoherentTasks(cfg, e.pool, |s.slots|, s.tasks[a.t := e.task])
  {
    var e := Step(cfg, s, a);
    var ts := s.tasks[a.t := e.task];
    StepCoherent(cfg, s, a);
    StepMoved(cfg, s, a);
    forall u | 0 <= u < |ts|
      ensures TaskTyped(e.pool, |s.slots|, ts[u]) && CoherentIn(cfg, e.pool, ts[u])
    {
      assert TaskTyped(s.pool, |s.slots|, s.tasks[u]) && CoherentIn(cfg, s.pool, s.tasks[u]);
      EffectCoherent(cfg, s, a.t, e, u);
    }
  }

  lemma NextCoherent(cfg: Config, s: State, a: Action)
    requires WellTyped(cfg, s) && Enabled(cfg, s, a) && Owned(s) && AllCoherent(cfg, s) && (!a.Refresh? ==> Ready(s, a))
    ensures AllCoherent(cfg, Next(cfg, s, a))
  {
    if !a.Refresh? {
      StepEffectCoherent(cfg, s, a);
    }
  }

  // ---------------------------------------------------------------- proxy leases

  lemma LeasesSame(ts: seq<Task>, t: nat, task: Task, side: Side)
    requires t < |ts| && Live(ts[t], side) == Live(task, side)
    requires Live(task, side) ==> task.obtained[0].proxy == ts[t].obtained[0].proxy
    ensures LiveLeases(ts[t := task], side) == LiveLeases(ts, side)
  {
  }

  lemma LeaseAdded(ts: seq<Task>, t: nat, task: Task, side: Side)
    requires t < |ts| && !Live(ts[t], side) && Live(task, side)
    ensures t !in LiveLeases(ts, side)
    ensures LiveLeases(ts[t := task], side) == LiveLeases(ts, side)[t := task.obtained[0].proxy]
  {
  }

  lemma LeaseRemoved(ts: seq<Task>, t: nat, task: Task, side: Side)
    requires t < |ts| && Live(ts[t], side) && !Live(task, side)
    ensures t in LiveLeases(ts, side) && LiveLeases(ts, side)[t] == ts[t].obtained[0].proxy
    ensures LiveLeases(ts[t := task], side) == LiveLeases(ts, side) - {t}
  {
  }

  /** The three things a step can do to one side's leases and in-use set. */
  ghost predicate Accounted(s: State, task: Task, e: Effect, side: Side) {
    var p := s.providers.At(side);
    || (e.providers.At(side) == p && Live(task, side) == Live(e.task, side) &&
        (Live(task, side) ==> e.task.obtained[0].proxy == task.obtained[0].proxy))
    || (!Live(task, side) && Live(e.task, side) && e.providers.At(side) == Grant(p, task.region) &&
        CanReply(p, task.region, Granted(e.task.obtained[0].proxy)))
    || (Live(task, side) && !Live(e.task, side) && e.providers.At(side) == GiveBack(p, task.obtained[0].proxy))
  }

  lemma PrimaryAccounted(cfg: Config, s: State, task: Task, w: WorkerId, reply: Reply, side: Side)
    requires s.pool.WellFormed() && s.pool.Has(w) && task.batch < |s.slots|
    requires Untouched(cfg, task) && CanReply(s.providers.At(Primary), task.region, reply)
    ensures Accounted(s, task, AfterPrimary(cfg, s, task, w, reply), side)
  {
  }

  lemma FallbackAccounted(cfg: Config, s: State, task: Task, w: WorkerId, reply: Reply, side: Side)
    requires s.pool.WellFormed() && s.pool.Has(w) && task.batch < |s.slots|
    requires Untouched(cfg, task) && CanReply(s.providers.At(Fallback), task.region, reply)
    ensures Accounted(s, task, AfterFallback(cfg, s, task, w, reply), side)
  {
  }

  lemma ReleaseAccounted(cfg: Config, s: State, task: Task, w: WorkerId, side: Side)
    requires s.pool.WellFormed() && s.pool.Has(w) && task.batch < |s.slots|
    requires task.phase == Unwinding(w) && CoherentIn(cfg, s.pool, task)
    ensures Accounted(s, task, AfterRelease(s, task, w), side)
  {
  }

  lemma StepAccounted(cfg: Config, s: State, a: Action, side: Side)
    requires WellTyped(cfg, s) && !a.Refresh? && Enabled(cfg, s, a)
    requires TaskTyped(s.pool, |s.slots|, s.tasks[a.t]) && CoherentIn(cfg, s.pool, s.tasks[a.t])
    ensures Accounted(s, s.tasks[a.t], Step(cfg, s, a), side)
  {
    var task := s.tasks[a.t];
    match a
    case AskPrimary(t, reply) => PrimaryAccounted(cfg, s, task, task.phase.w, reply, side);
    case AskFallback(t, reply) => FallbackAccounted(cfg, s, task, task.phase.w, reply, side);
    case ReleaseProxy(t) => ReleaseAccounted(cfg, s, task, task.phase.w, side);
    case _ =>
  }

  lemma EffectLeases(s: State, t: nat, e: Effect, side: Side)
    requires t < |s.tasks| && s.providers.At(side).Leasing? && Accounted(s, s.tasks[t], e, side)
    ensures var pool, leases, leases' :=
              s.providers.At(side).pool, LiveLeases(s.tasks, side), LiveLeases(s.tasks[t := e.task], side);
            && e.providers.At(side).Leasing?
            && (NoLeak(pool, leases) ==> NoLeak(e.providers.At(side).pool, leases'))
            && (Exact(pool, leases) ==> Exact(e.providers.At(side).pool, leases'))
  {
    var task, pool, leases := s.tasks[t], s.providers.At(side).pool, LiveLeases(s.tasks, side);
    if Live(task, side) == Live(e.task, side) {
      LeasesSame(s.tasks, t, e.task, side);
    } else if Live(e.task, side) {
      LeaseAdded(s.tasks, t, e.task, side);
      GrantKeeps(pool, leases, t, task.region);
    } else {
      LeaseRemoved(s.tasks, t, e.task, side);
      ReleaseKeeps(pool, leases, t);
    }
  }

  lemma NextLeases(cfg: Config, s: State, a: Action, side: Side)
    requires WellTyped(cfg, s) && !a.Refresh? && Enabled(cfg, s, a) && AllCoherent(cfg, s)
    requires s.providers.At(side).Leasing?
    ensures var s' := Next(cfg, s, a);
            && s'.providers.At(side).Leasing?
            && (NoLeak(s.providers.At(side).pool, LiveLeases(s.tasks, side)) ==>
                  NoLeak(s'.providers.At(side).pool, LiveLeases(s'.tasks, side)))
            && (Exact(s.providers.At(side).pool, LiveLeases(s.tasks, side)) ==>
                  Exact(s'.providers.At(side).pool, LiveLeases(s'.tasks, side)))
  {
    StepAccounted(cfg, s, a, side);
    EffectLeases(s, a.t, Step(cfg, s, a), side);
  }

  lemma NextLeakFree(cfg: Config, s: State, a: Action)
    requires WellTyped(cfg, s) && Enabled(cfg, s, a) && AllCoherent(cfg, s) && LeakFree(s)
    ensures LeakFree(Next(cfg, s, a))
  {
    forall side: Side | Next(cfg, s, a).providers.At(side).Leasing?
      ensures NoLeak(Next(cfg, s, a).providers.At(side).pool, LiveLeases(Next(cfg, s, a).tasks, side))
    {
      if a.Refresh? {
        if side == a.side {
          RefreshKeeps(s.providers.At(side).pool, LiveLeases(s.tasks, side), a.pools);
        }
      } else {
        StepAccounted(cfg, s, a, side);
        NextLeases(cfg, s, a, side);
      }
    }
  }

  /** What coherence says about the proxies a task obtained and released. */
  lemma CoherentTrace(cfg: Config, breaker: Option<Side>, task: Task)
    requires Coherent(cfg, breaker, task)
    ensures task.released <= task.obtained && |task.obtained| <= 1
    ensures task.phase.Done? ==> task.released == task.obtained
    ensures task.phase.Done? && task.phase.result.Responded? ==>
              task.obtained == Borrowed(cfg.setup, task.seen) &&
              task.phase.result.response == Respond(cfg.setup, task.seen)
  {
  }
}
