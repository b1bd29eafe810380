/**
 * All scrapes of the service at once: asb_api/api/routes/scrape.py over the worker pool, the workers and
 * their proxy providers, as a transition system with one step for each stretch between two awaits.
 *
 * A single scrape is a batch of one.  The runner, the circuit breakers in front of the providers, the
 * session and usage stores and the caller's region argument are arbitrary inputs of the steps.
 */
module ScrapeSystem {
  import opened Common
  import opened Decodo
  import opened Worker
  import opened WorkerPool

  const MAX_BULK_CONCURRENCY := 16

  /** `max(1, min(payload.max_concurrency or 8, MAX_BULK_CONCURRENCY))` */
  function EffectiveConcurrency(requested: Option<int>): (n: nat)
    ensures 1 <= n <= 16
    ensures requested == None || requested == Some(0) ==> n == 8
    ensures requested.Some? && 1 <= requested.value <= 16 ==> n == requested.value
    ensures requested.Some? && requested.value > 16 ==> n == 16
    ensures requested.Some? && requested.value < 0 ==> n == 1
  {
    Max(1, Min(if requested.Some? && requested.value != 0 then requested.value else 8, MAX_BULK_CONCURRENCY))
  }

  /** A provider that keeps leases, or one whose release does nothing. */
  datatype Provider = Leasing(pool: ProxyPool) | Foreign

  datatype Providers = Providers(primary: Provider, fallback: Provider) {
    function At(side: Side): Provider {
      if side.Primary? then primary else fallback
    }

    function Put(side: Side, p: Provider): (r: Providers)
      ensures forall q: Side :: r.At(q) == if q == side then p else At(q)
    {
      if side.Primary? then this.(primary := p) else this.(fallback := p)
    }
  }

  datatype Config = Config(setup: Setup, requested: seq<Option<int>>)

  datatype Result = Responded(response: Response) | Failed

  datatype Phase =
    | Queued                        // waiting for the batch semaphore
    | Admitted                      // batch slot held; validation, rate limit and session lookups
    | Waiting(region: string)       // at the region semaphore
    | Permitted(region: string)     // region permit held, no worker yet
    | Leased(w: WorkerId)           // worker marked busy
    | AskingFallback(w: WorkerId)   // primary refused
    | Fetched(w: WorkerId)          // proxy stage over, page being fetched
    | Unwinding(w: WorkerId)        // response built, `finally` about to release the proxy
    | Clearing(w: WorkerId)         // proxy released, `_last_proxy_breaker` about to be reset
    | Scraped(w: WorkerId)          // session and usage bookkeeping
    | Done(result: Result)
  {
    function Worker(): Option<WorkerId> {
      match this
      case Leased(w) => Some(w)
      case AskingFallback(w) => Some(w)
      case Fetched(w) => Some(w)
      case Unwinding(w) => Some(w)
      case Clearing(w) => Some(w)
      case Scraped(w) => Some(w)
      case _ => None
    }

    predicate InBatch() {
      !Queued? && !Done?
    }
  }

  /** One item: its locals, the answers it has seen, and the proxies it obtained and gave back. */
  datatype Task = Task(
    batch: nat,
    region: Option<string>,
    phase: Phase,
    proxy: Option<Proxy>,
    used: string,
    response: Response,
    seen: Answers,
    obtained: seq<Lease>,
    released: seq<Lease>)

  datatype State = State(pool: Pool, providers: Providers, slots: seq<nat>, tasks: seq<Task>)

  datatype Action =
    | Start(t: nat)
    | Reject(t: nat)
    | Pass(t: nat)
    | TakePermit(t: nat)
    | LeaseWorker(t: nat)
    | NotStarted(t: nat)
    | AskPrimary(t: nat, reply: Reply)
    | AskFallback(t: nat, reply: Reply)
    | Run(t: nat, run: RunResult)
    | ReleaseProxy(t: nat)
    | ClearBreaker(t: nat)
    | Return(t: nat, caller: Option<string>, failed: bool)
    | Refresh(side: Side, pools: seq<RegionPool>)

  /** A provider can answer with a proxy only if it has that proxy to give; it may always fail. */
  predicate CanReply(p: Provider, region: Option<string>, reply: Reply) {
    reply.Granted? && p.Leasing? ==> p.pool.Get(region).1 == Some(reply.proxy)
  }

  function Grant(p: Provider, region: Option<string>): Provider {
    if p.Leasing? then Leasing(p.pool.Get(region).0) else p
  }

  function GiveBack(p: Provider, proxy: Proxy): Provider {
    if p.Leasing? then Leasing(p.pool.Release(proxy)) else p
  }

  predicate TaskTyped(pool: Pool, batches: nat, task: Task) {
    && task.batch < batches
    && (task.phase.Waiting? || task.phase.Permitted? ==> task.phase.region in pool.sizes)
    && (task.phase.Worker().Some? ==> pool.Has(task.phase.Worker().value))
  }

  predicate WellTyped(cfg: Config, s: State) {
    && s.pool.WellFormed()
    && |s.slots| == |cfg.requested|
    && forall t :: 0 <= t < |s.tasks| ==> TaskTyped(s.pool, |s.slots|, s.tasks[t])
  }

  predicate Enabled(cfg: Config, s: State, a: Action)
    requires WellTyped(cfg, s)
  {
    if a.Refresh? then s.providers.At(a.side).Leasing?
    else
      a.t < |s.tasks| &&
      var task := s.tasks[a.t];
      match a
      case Start(_) => task.phase.Queued? && s.slots[task.batch] > 0
      case Reject(_) => task.phase.Admitted?
      case Pass(_) => task.phase.Admitted?
      case TakePermit(_) =>
        assert TaskTyped(s.pool, |s.slots|, task);
        task.phase.Waiting? && s.pool.permits[task.phase.region] > 0
      case LeaseWorker(_) => task.phase.Permitted?
      case NotStarted(_) => task.phase.Leased?
      case AskPrimary(_, reply) => task.phase.Leased? && CanReply(s.providers.At(Primary), task.region, reply)
      case AskFallback(_, reply) => task.phase.AskingFallback? && CanReply(s.providers.At(Fallback), task.region, reply)
      case Run(_, _) => task.phase.Fetched?
      case ReleaseProxy(_) => task.phase.Unwinding?
      case ClearBreaker(_) => task.phase.Clearing?
      case Return(_, caller, _) => task.phase.Scraped?
  }

  /** What one step of a task leaves behind: the pool, the providers, its batch's free slots, and itself. */
  datatype Effect = Effect(pool: Pool, providers: Providers, slots: nat, task: Task)

  /** Every step keeps the shape of the state and the task's place in it. */
  predicate Fits(s: State, task: Task, e: Effect) {
    && e.pool.WellFormed() && e.pool.sizes == s.pool.sizes && e.pool.defaultRegion == s.pool.defaultRegion
    && e.task.batch == task.batch && e.task.region == task.region && TaskTyped(s.pool, |s.slots|, e.task)
  }

  function Only(s: State, task: Task): (e: Effect)
    requires task.batch < |s.slots|
  {
    Effect(s.pool, s.providers, s.slots[task.batch], task)
  }

  function SetBreaker(pool: Pool, w: WorkerId, side: Option<Side>): (p: Pool)
    requires pool.WellFormed() && pool.Has(w)
    ensures p.WellFormed() && p.sizes == pool.sizes && p.defaultRegion == pool.defaultRegion
  {
    pool.Put(w, pool.At(w).(lastBreaker := side))
  }

  /** A task ends: its batch slot is given back and its result recorded. */
  function Finish(s: State, pool: Pool, task: Task, result: Result): (e: Effect)
    requires task.batch < |s.slots|
    requires pool.WellFormed() && pool.sizes == s.pool.sizes && pool.defaultRegion == s.pool.defaultRegion
    ensures Fits(s, task, e)
  {
    Effect(pool, s.providers, s.slots[task.batch] + 1, task.(phase := Done(result)))
  }

  /** A proxy is granted by `side`: remember the breaker, the name and the lease. */
  function Accept(s: State, task: Task, w: WorkerId, side: Side, name: string, proxy: Proxy): (e: Effect)
    requires s.pool.WellFormed() && s.pool.Has(w) && task.batch < |s.slots|
    ensures Fits(s, task, e)
  {
    Effect(SetBreaker(s.pool, w, Some(side)),
           s.providers.Put(side, Grant(s.providers.At(side), task.region)),
           s.slots[task.batch],
           task.(phase := Fetched(w), proxy := Some(proxy), used := name,
                 obtained := task.obtained + [Lease(side, proxy)]))
  }

  /** The `except Exception` branch. */
  function Except(task: Task, w: WorkerId): Task {
    task.(phase := Unwinding(w), response := Response(WorkerError, task.used, false))
  }

  /** The first idle worker is leased; without one the permit goes back and RuntimeError is raised. */
  function AfterScan(s: State, task: Task, r: string): (e: Effect)
    requires s.pool.WellFormed() && r in s.pool.sizes && task.batch < |s.slots|
    ensures Fits(s, task, e)
  {
    var i := FirstIdle(s.pool.workers[r]);
    if i < |s.pool.workers[r]|
    then Only(s, task.(phase := Leased(WorkerId(r, i)))).(pool := s.pool.Lease(r))
    else Finish(s, if s.pool.GivePermit(r).Some? then s.pool.GivePermit(r).value else s.pool, task, Failed)
  }

  function AfterPrimary(cfg: Config, s: State, task0: Task, w: WorkerId, reply: Reply): (e: Effect)
    requires s.pool.WellFormed() && s.pool.Has(w) && task0.batch < |s.slots|
    ensures Fits(s, task0, e)
  {
    var task := task0.(seen := task0.seen.(started := true, primary := reply));
    if cfg.setup.primary == "null" then
      Only(s, task.(phase := Fetched(w))).(pool := SetBreaker(s.pool, w, None))
    else match reply
      case Granted(proxy) => Accept(s, task, w, Primary, task.used, proxy)
      case Refused => Only(s, if cfg.setup.fallback.Some? then task.(phase := AskingFallback(w)) else Except(task, w))
      case Broke => Only(s, Except(task, w))
  }

  function AfterFallback(cfg: Config, s: State, task0: Task, w: WorkerId, reply: Reply): (e: Effect)
    requires s.pool.WellFormed() && s.pool.Has(w) && task0.batch < |s.slots|
    ensures Fits(s, task0, e)
  {
    var task := task0.(seen := task0.seen.(fallback := reply));
    if reply.Granted? && cfg.setup.fallback.Some?
    then Accept(s, task, w, Fallback, cfg.setup.fallback.value, reply.proxy)
    else Only(s, Except(task, w))
  }

  function AfterRun(task0: Task, w: WorkerId, run: RunResult): Task {
    var task := task0.(seen := task0.seen.(run := run));
    if run.Page?
    then task.(phase := Unwinding(w), response := Response(Success, task.used, run.blocked))
    else Except(task, w)
  }

  /** Whoever the shared worker field names gets the proxy back. */
  function AfterRelease(s: State, task: Task, w: WorkerId): (e: Effect)
    requires s.pool.WellFormed() && s.pool.Has(w) && task.batch < |s.slots|
    ensures Fits(s, task, e)
  {
    var breaker := s.pool.At(w).lastBreaker;
    if task.proxy.Some? && breaker.Some? then
      Only(s, task.(phase := Clearing(w), released := task.released + [Lease(breaker.value, task.proxy.value)]))
        .(providers := s.providers.Put(breaker.value, GiveBack(s.providers.At(breaker.value), task.proxy.value)))
    else Only(s, task.(phase := Clearing(w)))
  }

  /** A full semaphore makes `release` raise ValueError after the worker's flags were reset. */
  function AfterReturn(s: State, task: Task, w: WorkerId, caller: Option<string>, failed: bool): (e: Effect)
    requires s.pool.WellFormed() && s.pool.Has(w) && task.batch < |s.slots|
    ensures Fits(s, task, e)
  {
    if s.pool.Release(w, caller).Some?
    then Finish(s, s.pool.Release(w, caller).value, task, if failed then Failed else Responded(task.response))
    else Finish(s, s.pool.Put(w, s.pool.At(w).(busy := false, leaseRegion := None)), task, Failed)
  }

  function Step(cfg: Config, s: State, a: Action): (e: Effect)
    requires WellTyped(cfg, s) && !a.Refresh? && Enabled(cfg, s, a)
    ensures Fits(s, s.tasks[a.t], e)
  {
    var task := s.tasks[a.t];
    assert TaskTyped(s.pool, |s.slots|, task);
    match a
    case Start(_) => Only(s, task.(phase := Admitted)).(slots := s.slots[task.batch] - 1)
    case Reject(_) => Finish(s, s.pool, task, Failed)
    case Pass(_) => Only(s, task.(phase := Waiting(s.pool.Normalize(task.region))))
    case TakePermit(_) =>
      Only(s, task.(phase := Permitted(task.phase.region))).(pool := s.pool.TakePermit(task.phase.region))
    case LeaseWorker(_) => AfterScan(s, task, task.phase.region)
    case NotStarted(_) =>
      Only(s, task.(phase := Scraped(task.phase.w), seen := task.seen.(started := false),
                    response := Response(WorkerNotStarted, task.used, false)))
    case AskPrimary(_, reply) => AfterPrimary(cfg, s, task, task.phase.w, reply)
    case AskFallback(_, reply) => AfterFallback(cfg, s, task, task.phase.w, reply)
    case Run(_, run) => Only(s, AfterRun(task, task.phase.w, run))
    case ReleaseProxy(_) => AfterRelease(s, task, task.phase.w)
    case ClearBreaker(_) =>
      Only(s, task.(phase := Scraped(task.phase.w))).(pool := SetBreaker(s.pool, task.phase.w, None))
    case Return(_, caller, failed) => AfterReturn(s, task, task.phase.w, caller, failed)
  }

  function Next(cfg: Config, s: State, a: Action): (s': State)
    requires WellTyped(cfg, s) && Enabled(cfg, s, a)
    ensures WellTyped(cfg, s') && s'.pool.sizes == s.pool.sizes && s'.pool.defaultRegion == s.pool.defaultRegion
    ensures |s'.tasks| == |s.tasks|
    ensures forall t :: 0 <= t < |s.tasks| ==>
              s'.tasks[t].region == s.tasks[t].region && s'.tasks[t].batch == s.tasks[t].batch
  {
    if a.Refresh? then
      s.(providers := s.providers.Put(a.side, Leasing(s.providers.At(a.side).pool.Replace(a.pools))))
    else
      var e := Step(cfg, s, a);
      assert forall t :: 0 <= t < |s.tasks| ==>
        TaskTyped(s.pool, |s.slots|, s.tasks[t]) && TaskTyped(e.pool, |s.slots|, s.tasks[t]);
      State(e.pool, e.providers, s.slots[s.tasks[a.t].batch := e.slots], s.tasks[a.t := e.task])
  }

  ghost predicate Init(cfg: Config, s: State) {
    && WellTyped(cfg, s)
    && "" !in s.pool.sizes
    && s.pool.permits == s.pool.sizes
    && (forall r, i :: r in s.pool.sizes && 0 <= i < s.pool.sizes[r] ==> s.pool.workers[r][i] == IDLE)
    && (forall side: Side :: s.providers.At(side).Leasing? ==> s.providers.At(side).pool.inUse == {})
    && (forall b :: 0 <= b < |s.slots| ==> s.slots[b] == EffectiveConcurrency(cfg.requested[b]))
    && forall t :: 0 <= t < |s.tasks| ==>
         && s.tasks[t].phase == Queued && s.tasks[t].proxy == None && s.tasks[t].used == cfg.setup.primary
         && s.tasks[t].obtained == [] && s.tasks[t].released == []
  }

  /** `actions` can be executed from `s`, one enabled action after another. */
  ghost predicate ValidRun(cfg: Config, s: State, actions: seq<Action>)
    decreases |actions|
  {
    actions == [] ||
    (WellTyped(cfg, s) && Enabled(cfg, s, actions[0]) && ValidRun(cfg, Next(cfg, s, actions[0]), actions[1..]))
  }

  ghost function Final(cfg: Config, s: State, actions: seq<Action>): State
    requires ValidRun(cfg, s, actions)
    decreases |actions|
  {
    if actions == [] then s else Final(cfg, Next(cfg, s, actions[0]), actions[1..])
  }
}
