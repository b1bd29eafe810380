/** What holds in every reachable state, and over every run, of the scrape system. */
module ScrapeTheorems {
  import opened Common
  import opened Decodo
  import opened Worker
  import opened WorkerPool
  import opened ScrapeSystem
  import opened ScrapeInvariants

  // ---------------------------------------------------------------- reachability

  lemma {:induction false} NothingCounted(ts: seq<Task>, k: Kind)
    requires forall t :: 0 <= t < |ts| ==> ts[t].phase.Queued?
    ensures Tally(ts, k) == 0
  {
    if ts != [] {
      NothingCounted(ts[1..], k);
    }
  }

  lemma InitInv(cfg: Config, s: State)
    requires Init(cfg, s)
    ensures Inv(cfg, s) && Exclusive(s)
  {
    forall r | r in s.pool.sizes
      ensures s.pool.permits[r] + Tally(s.tasks, PermitAt(r)) + Busy(s.pool.workers[r]) == s.pool.sizes[r]
    {
      NothingCounted(s.tasks, PermitAt(r));
      AllIdle(s.pool.workers[r]);
    }
    forall b | 0 <= b < |s.slots|
      ensures s.slots[b] + Tally(s.tasks, SlotOf(b)) == EffectiveConcurrency(cfg.requested[b])
    {
      NothingCounted(s.tasks, SlotOf(b));
    }
    forall t | 0 <= t < |s.tasks|
      ensures CoherentIn(cfg, s.pool, s.tasks[t]) && s.tasks[t].phase.Worker() == None
    {
      assert TaskTyped(s.pool, |s.slots|, s.tasks[t]);
    }
    forall side: Side
      ensures LiveLeases(s.tasks, side) == map[]
    {
    }
  }

  lemma NextInv(cfg: Config, s: State, a: Action)
    requires Inv(cfg, s) && Enabled(cfg, s, a)
    ensures Inv(cfg, Next(cfg, s, a))
  {
    if !a.Refresh? {
      StepReady(cfg, s, a);
    }
    NextConserved(cfg, s, a);
    NextBounded(cfg, s, a);
    NextOwned(cfg, s, a);
    NextCoherent(cfg, s, a);
    NextLeakFree(cfg, s, a);
  }

  /** The invariant holds in every state reachable by any interleaving of any number of scrapes. */
  lemma {:induction false} RunInv(cfg: Config, s: State, actions: seq<Action>)
    requires Inv(cfg, s) && ValidRun(cfg, s, actions)
    ensures Inv(cfg, Final(cfg, s, actions))
    decreases |actions|
  {
    if actions != [] {
      NextInv(cfg, s, actions[0]);
      RunInv(cfg, Next(cfg, s, actions[0]), actions[1..]);
    }
  }

  lemma {:induction false} RunKeepsShape(cfg: Config, s: State, actions: seq<Action>)
    requires ValidRun(cfg, s, actions)
    ensures Final(cfg, s, actions).pool.sizes == s.pool.sizes
    ensures |Final(cfg, s, actions).tasks| == |s.tasks|
    decreases |actions|
  {
    if actions != [] {
      RunKeepsShape(cfg, Next(cfg, s, actions[0]), actions[1..]);
    }
  }

  /** What reachability gives: the invariant, and the shape of the initial state. */
  lemma ReachInv(cfg: Config, s: State, actions: seq<Action>)
    requires Init(cfg, s) && ValidRun(cfg, s, actions)
    ensures Inv(cfg, Final(cfg, s, actions))
    ensures Final(cfg, s, actions).pool.sizes == s.pool.sizes
    ensures |Final(cfg, s, actions).tasks| == |s.tasks|
  {
    InitInv(cfg, s);
    RunInv(cfg, s, actions);
    RunKeepsShape(cfg, s, actions);
  }

  // ---------------------------------------------------------------- safety

  /** No worker is held by two tasks. */
  ghost predicate SingleHolders(s: State) {
    forall t: nat, u: nat, w :: Holds(s, t, w) && Holds(s, u, w) ==> t == u
  }

  /** A scan under a permit finds an idle worker. */
  ghost predicate ScansSucceed(s: State) {
    forall t :: 0 <= t < |s.tasks| && s.tasks[t].phase.Permitted? ==>
      var r := s.tasks[t].phase.region;
      r in s.pool.workers && FirstIdle(s.pool.workers[r]) < |s.pool.workers[r]|
  }

  /** Whatever region the caller names, a return frees the region its worker was leased from. */
  ghost predicate ReturnsRestore(s: State)
    requires s.pool.WellFormed()
  {
    forall t: nat, w, caller :: Holds(s, t, w) ==> Returnable(s.pool, w, caller)
  }

  predicate Returnable(pool: Pool, w: WorkerId, caller: Option<string>)
    requires pool.WellFormed()
  {
    pool.Has(w) && pool.ReleaseRegion(w, caller) == w.region && pool.Release(w, caller).Some?
  }

  lemma HoldersHave(cfg: Config, s: State, t: nat, w: WorkerId)
    requires WellTyped(cfg, s) && Holds(s, t, w)
    ensures s.pool.Has(w)
  {
    assert TaskTyped(s.pool, |s.slots|, s.tasks[t]);
  }

  lemma HoldersAreSingle(cfg: Config, s: State)
    requires WellTyped(cfg, s) && Owned(s)
    ensures SingleHolders(s)
  {
    forall t: nat, u: nat, w | Holds(s, t, w) && Holds(s, u, w)
      ensures t == u
    {
      HoldersHave(cfg, s, t, w);
    }
  }

  lemma PermitsMeanScans(cfg: Config, s: State)
    requires WellTyped(cfg, s) && Conserved(s)
    ensures ScansSucceed(s)
  {
    forall t | 0 <= t < |s.tasks| && s.tasks[t].phase.Permitted?
      ensures var r := s.tasks[t].phase.region;
              r in s.pool.workers && FirstIdle(s.pool.workers[r]) < |s.pool.workers[r]|
    {
      assert TaskTyped(s.pool, |s.slots|, s.tasks[t]);
      PermitFindsIdleWorker(cfg, s, t);
    }
  }

  lemma HoldersReturn(cfg: Config, s: State)
    requires WellTyped(cfg, s) && "" !in s.pool.sizes && Conserved(s) && Owned(s)
    ensures ReturnsRestore(s)
  {
    forall t: nat, w, caller | Holds(s, t, w)
      ensures Returnable(s.pool, w, caller)
    {
      HoldersHave(cfg, s, t, w);
      ReturnIsBounded(cfg, s, t, caller);
    }
  }

  /**
   * In every interleaving: the region accounts balance, no worker is held by two scrapes, a scan under a
   * permit always finds an idle worker, and returning a worker frees exactly the region it was leased from,
   * whatever region the caller names.
   */
  lemma WorkersAreExclusive(cfg: Config, s: State, actions: seq<Action>)
    requires Init(cfg, s) && ValidRun(cfg, s, actions)
    ensures var f := Final(cfg, s, actions);
            && f.pool.WellFormed() && f.pool.sizes == s.pool.sizes
            && Conserved(f) && SingleHolders(f) && ScansSucceed(f) && ReturnsRestore(f)
  {
    ReachInv(cfg, s, actions);
    var f := Final(cfg, s, actions);
    HoldersAreSingle(cfg, f);
    PermitsMeanScans(cfg, f);
    HoldersReturn(cfg, f);
  }

  /** Wherever a scrape stands, it stands in the region it asked for, or in the default one if that is no pool key. */
  lemma {:induction false} RegionsAreHonoured(cfg: Config, s: State, actions: seq<Action>, t: nat)
    requires ValidRun(cfg, s, actions) && t < |s.tasks| && Placed(s.pool, s.tasks[t])
    ensures |Final(cfg, s, actions).tasks| == |s.tasks|
    ensures Final(cfg, s, actions).tasks[t].region == s.tasks[t].region
    ensures Placed(Final(cfg, s, actions).pool, Final(cfg, s, actions).tasks[t])
    ensures forall region :: Final(cfg, s, actions).pool.Normalize(region) == s.pool.Normalize(region)
    decreases |actions|
  {
    if actions != [] {
      NextPlaced(cfg, s, actions[0], t);
      RegionsAreHonoured(cfg, Next(cfg, s, actions[0]), actions[1..], t);
    }
  }

  /** At most min(16, max_concurrency) items of one batch are past the batch semaphore at once. */
  lemma BatchesAreBounded(cfg: Config, s: State, actions: seq<Action>, b: nat)
    requires Init(cfg, s) && ValidRun(cfg, s, actions) && b < |cfg.requested|
    ensures Tally(Final(cfg, s, actions).tasks, SlotOf(b)) <=
              EffectiveConcurrency(cfg.requested[b]) <= 16
    ensures cfg.requested[b].Some? && cfg.requested[b].value >= 1 ==>
              Tally(Final(cfg, s, actions).tasks, SlotOf(b)) <= cfg.requested[b].value
  {
    ReachInv(cfg, s, actions);
    assert Bounded(cfg, Final(cfg, s, actions));
  }

  /** The task has released only what it obtained; if done, all of it, and it responded as `Respond` says. */
  predicate AsIfAlone(cfg: Config, task: Task) {
    && task.released <= task.obtained && |task.obtained| <= 1
    && (task.phase.Done? ==> task.released == task.obtained)
    && (task.phase.Done? && task.phase.result.Responded? ==>
          && task.obtained == Borrowed(cfg.setup, task.seen)
          && task.phase.result.response == Respond(cfg.setup, task.seen))
  }

  /**
   * Whatever the interleaving, a finished scrape did what an uninterrupted one does with the same answers:
   * it gave back exactly what it borrowed, to the side that granted it, and its response names that side.
   */
  lemma {:induction false} ScrapesAreAtomic(cfg: Config, s: State, actions: seq<Action>, t: nat)
    requires Init(cfg, s) && ValidRun(cfg, s, actions) && t < |s.tasks|
    ensures |Final(cfg, s, actions).tasks| == |s.tasks|
    ensures AsIfAlone(cfg, Final(cfg, s, actions).tasks[t])
  {
    ReachInv(cfg, s, actions);
    var f := Final(cfg, s, actions);
    assert TaskTyped(f.pool, |f.slots|, f.tasks[t]) && CoherentIn(cfg, f.pool, f.tasks[t]);
    var w := f.tasks[t].phase.Worker();
    CoherentTrace(cfg, if w.Some? then f.pool.At(w.value).lastBreaker else None, f.tasks[t]);
  }

  // ---------------------------------------------------------------- what the scrapes answer

  /** The answers task `t` received during the run, on top of what it had. */
  function AnswersOf(actions: seq<Action>, t: nat, a: Answers): Answers
    decreases |actions|
  {
    if actions == [] then a
    else
      var act := actions[0];
      AnswersOf(actions[1..], t, if !act.Refresh? && act.t == t then Heard(a, act) else a)
  }

  lemma NextHears(cfg: Config, s: State, a: Action, t: nat)
    requires WellTyped(cfg, s) && Enabled(cfg, s, a) && t < |s.tasks|
    ensures |Next(cfg, s, a).tasks| == |s.tasks|
    ensures Next(cfg, s, a).tasks[t].seen ==
            if !a.Refresh? && a.t == t then Heard(s.tasks[t].seen, a) else s.tasks[t].seen
  {
    if !a.Refresh? && a.t == t {
      StepHears(cfg, s, a);
    }
  }

  lemma {:induction false} RunHears(cfg: Config, s: State, actions: seq<Action>, t: nat)
    requires ValidRun(cfg, s, actions) && t < |s.tasks|
    ensures |Final(cfg, s, actions).tasks| == |s.tasks|
    ensures Final(cfg, s, actions).tasks[t].seen == AnswersOf(actions, t, s.tasks[t].seen)
    decreases |actions|
  {
    if actions != [] {
      NextHears(cfg, s, actions[0], t);
      RunHears(cfg, Next(cfg, s, actions[0]), actions[1..], t);
    }
  }

  /** The run rejects the task, or its session or usage bookkeeping raises. */
  predicate Spoiled(actions: seq<Action>, t: nat) {
    exists i :: 0 <= i < |actions| && Spoils(actions[i], t)
  }

  predicate Spoils(a: Action, t: nat) {
    (a.Reject? && a.t == t) || (a.Return? && a.t == t && a.failed)
  }

  lemma StepFails(cfg: Config, s: State, a: Action)
    requires Inv(cfg, s) && !a.Refresh? && Enabled(cfg, s, a)
    ensures Step(cfg, s, a).task.phase == Done(Failed) <==> Spoils(a, a.t)
    ensures !s.tasks[a.t].phase.Done?
  {
    StepReady(cfg, s, a);
    StepEnds(cfg, s, a);
    StepAdvances(cfg, s, a);
  }

  lemma NextFails(cfg: Config, s: State, a: Action, t: nat)
    requires Inv(cfg, s) && Enabled(cfg, s, a) && t < |s.tasks|
    ensures |Next(cfg, s, a).tasks| == |s.tasks|
    ensures Next(cfg, s, a).tasks[t].phase == Done(Failed) <==> s.tasks[t].phase == Done(Failed) || Spoils(a, t)
  {
    if !a.Refresh? && a.t == t {
      StepFails(cfg, s, a);
    }
  }

  /** A task fails exactly when the run spoils it; nothing else is answered with a failure. */
  lemma {:induction false} RunFails(cfg: Config, s: State, actions: seq<Action>, t: nat)
    requires Inv(cfg, s) && ValidRun(cfg, s, actions) && t < |s.tasks|
    ensures |Final(cfg, s, actions).tasks| == |s.tasks|
    ensures Final(cfg, s, actions).tasks[t].phase == Done(Failed) <==>
              s.tasks[t].phase == Done(Failed) || Spoiled(actions, t)
    decreases |actions|
  {
    if actions != [] {
      NextFails(cfg, s, actions[0], t);
      NextInv(cfg, s, actions[0]);
      RunFails(cfg, Next(cfg, s, actions[0]), actions[1..], t);
      SpoiledFirst(actions, t);
    }
  }

  lemma SpoiledFirst(actions: seq<Action>, t: nat)
    requires actions != []
    ensures Spoiled(actions, t) <==> Spoils(actions[0], t) || Spoiled(actions[1..], t)
  {
    if i: nat :| i < |actions| && Spoils(actions[i], t) {
      assert i > 0 ==> Spoils(actions[1..][i - 1], t);
    }
    if i: nat :| i < |actions[1..]| && Spoils(actions[1..][i], t) {
      assert Spoils(actions[i + 1], t);
    }
  }

  /**
   * Over whole runs, from what providers and runner answered: a finished scrape that was not rejected and whose
   * bookkeeping went through is answered, with success exactly if it was served, and it took and gave back
   * exactly the proxy it was granted; every other finished scrape failed.
   */
  lemma {:induction false} ScrapesTellTheTruth(cfg: Config, s: State, actions: seq<Action>, t: nat)
    requires Init(cfg, s) && ValidRun(cfg, s, actions) && t < |s.tasks|
    ensures |Final(cfg, s, actions).tasks| == |s.tasks|
    ensures var task, heard := Final(cfg, s, actions).tasks[t], AnswersOf(actions, t, s.tasks[t].seen);
            task.phase.Done? ==>
              && (task.phase.result == Failed <==> Spoiled(actions, t))
              && (task.phase.result.Responded? ==>
                    TrueTo(cfg.setup, heard, task.phase.result.response, task.obtained) &&
                    task.released == task.obtained)
  {
    InitInv(cfg, s);
    ScrapesAreAtomic(cfg, s, actions, t);
    RunHears(cfg, s, actions, t);
    RunFails(cfg, s, actions, t);
    RespondIsTrue(cfg.setup, Final(cfg, s, actions).tasks[t].seen);
  }

  // ---------------------------------------------------------------- progress

  /** Upper bound on the task steps still to come. */
  function Remaining(ts: seq<Task>): nat {
    if ts == [] then 0 else Rank(ts[0].phase) + Remaining(ts[1..])
  }

  lemma {:induction false} RemainingUpdate(ts: seq<Task>, t: nat, task: Task)
    requires t < |ts|
    ensures Remaining(ts[t := task]) == Remaining(ts) - Rank(ts[t].phase) + Rank(task.phase)
  {
    if t > 0 {
      assert ts[t := task][1..] == ts[1..][t - 1 := task];
      RemainingUpdate(ts[1..], t - 1, task);
    } else {
      assert ts[t := task][1..] == ts[1..];
    }
  }

  /** The number of task steps in a run; pool refreshes are the environment's. */
  function TaskSteps(actions: seq<Action>): nat {
    if actions == [] then 0 else (if actions[0].Refresh? then 0 else 1) + TaskSteps(actions[1..])
  }

  /** No livelock: from any state only so many task steps can ever be taken, refreshes notwithstanding. */
  lemma {:induction false} RunsAreShort(cfg: Config, s: State, actions: seq<Action>)
    requires ValidRun(cfg, s, actions)
    ensures TaskSteps(actions) + Remaining(Final(cfg, s, actions).tasks) <= Remaining(s.tasks)
    decreases |actions|
  {
    if actions != [] {
      var a := actions[0];
      if !a.Refresh? {
        assert TaskTyped(s.pool, |s.slots|, s.tasks[a.t]);
        StepDescends(cfg, s, a);
        RemainingUpdate(s.tasks, a.t, Step(cfg, s, a).task);
      }
      RunsAreShort(cfg, Next(cfg, s, a), actions[1..]);
    }
  }

  /** A step that some unfinished task can take, whatever its provider would answer. */
  ghost predicate CanStep(cfg: Config, s: State)
    requires WellTyped(cfg, s)
  {
    exists a: Action :: !a.Refresh? && Enabled(cfg, s, a)
  }

  /** Past the two semaphores no answer blocks the task: whatever comes, the step that takes it is enabled. */
  ghost predicate NeverBlocked(cfg: Config, s: State, t: nat)
    requires WellTyped(cfg, s) && t < |s.tasks|
  {
    var task := s.tasks[t];
    match task.phase
    case Permitted(_) => Enabled(cfg, s, LeaseWorker(t))
    case Leased(_) =>
      Enabled(cfg, s, NotStarted(t)) &&
      forall reply :: CanReply(s.providers.At(Primary), task.region, reply) ==> Enabled(cfg, s, AskPrimary(t, reply))
    case AskingFallback(_) =>
      forall reply :: CanReply(s.providers.At(Fallback), task.region, reply) ==> Enabled(cfg, s, AskFallback(t, reply))
    case Fetched(_) => forall run :: Enabled(cfg, s, Run(t, run))
    case Unwinding(_) => Enabled(cfg, s, ReleaseProxy(t))
    case Clearing(_) => Enabled(cfg, s, ClearBreaker(t))
    case Scraped(_) => forall caller, failed :: Enabled(cfg, s, Return(t, caller, failed))
    case _ => true
  }

  lemma HoldersCanStep(cfg: Config, s: State, t: nat)
    requires WellTyped(cfg, s) && t < |s.tasks|
    requires s.tasks[t].phase.Permitted? || s.tasks[t].phase.Worker().Some?
    ensures NeverBlocked(cfg, s, t) && CanStep(cfg, s)
  {
    match s.tasks[t].phase {
      case Permitted(_) => assert Enabled(cfg, s, LeaseWorker(t));
      case Leased(_) => assert Enabled(cfg, s, NotStarted(t));
      case AskingFallback(_) => assert Enabled(cfg, s, AskFallback(t, Refused));
      case Fetched(_) => assert Enabled(cfg, s, Run(t, RunnerError));
      case Unwinding(_) => assert Enabled(cfg, s, ReleaseProxy(t));
      case Clearing(_) => assert Enabled(cfg, s, ClearBreaker(t));
      case Scraped(_) => assert Enabled(cfg, s, Return(t, None, false));
      case _ =>
    }
  }

  /** A leasing primary with a free proxy for the task's region can be the one to answer, with that proxy. */
  lemma FreeProxyIsOffered(cfg: Config, s: State, t: nat) returns (proxy: Proxy)
    requires WellTyped(cfg, s) && t < |s.tasks| && s.tasks[t].phase.Leased? && s.providers.At(Primary).Leasing?
    requires var pool := s.providers.At(Primary).pool;
             exists p :: p in pool.Candidates(s.tasks[t].region) && ProxyKey(p) !in pool.inUse
    ensures Enabled(cfg, s, AskPrimary(t, Granted(proxy)))
    ensures var pool := s.providers.At(Primary).pool;
            proxy in pool.Candidates(s.tasks[t].region) && ProxyKey(proxy) !in pool.inUse
  {
    proxy := s.providers.At(Primary).pool.Get(s.tasks[t].region).1.value;
  }

  lemma NobodyBusy(s: State, r: string)
    requires s.pool.WellFormed() && Owned(s) && r in s.pool.sizes
    requires forall u :: 0 <= u < |s.tasks| ==> s.tasks[u].phase.Worker() == None
    ensures Busy(s.pool.workers[r]) == 0
    ensures forall i :: 0 <= i < |s.pool.workers[r]| ==> s.pool.workers[r][i] == IDLE
  {
    forall i | 0 <= i < |s.pool.workers[r]|
      ensures s.pool.workers[r][i] == IDLE
    {
      assert s.pool.Has(WorkerId(r, i)) && s.pool.At(WorkerId(r, i)) == s.pool.workers[r][i];
      assert forall u: nat :: !Holds(s, u, WorkerId(r, i));
    }
    AllIdle(s.pool.workers[r]);
  }

  /** With no task between the semaphores and the end, a waiting task finds a permit or a slot free. */
  lemma WaitersCanStep(cfg: Config, s: State, t: nat)
    requires Inv(cfg, s) && t < |s.tasks| && !s.tasks[t].phase.Done?
    requires forall u :: 0 <= u < |s.tasks| ==> !s.tasks[u].phase.Permitted? && s.tasks[u].phase.Worker() == None
    ensures CanStep(cfg, s)
    decreases s.tasks[t].phase.Queued?
  {
    assert TaskTyped(s.pool, |s.slots|, s.tasks[t]);
    match s.tasks[t].phase
    case Admitted => assert Enabled(cfg, s, Pass(t));
    case Waiting(r) =>
      NobodyBusy(s, r);
      TallyPositive(s.tasks, PermitAt(r));
      assert Enabled(cfg, s, TakePermit(t));
    case Queued =>
      var b := s.tasks[t].batch;
      TallyPositive(s.tasks, SlotOf(b));
      if Tally(s.tasks, SlotOf(b)) == 0 {
        assert Enabled(cfg, s, Start(t));
      } else {
        var u :| 0 <= u < |s.tasks| && Counted(SlotOf(b), s.tasks[u]);
        if s.tasks[u].phase.Admitted? {
          assert Enabled(cfg, s, Pass(u));
        } else {
          WaitersCanStep(cfg, s, u);
        }
      }
    case _ =>
  }

  ghost predicate AllDone(s: State) {
    forall t :: 0 <= t < |s.tasks| ==> s.tasks[t].phase.Done?
  }

  lemma UnfinishedCanStep(cfg: Config, s: State, t: nat)
    requires Inv(cfg, s) && t < |s.tasks| && !s.tasks[t].phase.Done?
    ensures CanStep(cfg, s)
  {
    if u :| 0 <= u < |s.tasks| && (s.tasks[u].phase.Permitted? || s.tasks[u].phase.Worker().Some?) {
      HoldersCanStep(cfg, s, u);
    } else {
      WaitersCanStep(cfg, s, t);
    }
  }

  lemma DoneMeansStill(cfg: Config, s: State, a: Action)
    requires WellTyped(cfg, s) && !a.Refresh? && Enabled(cfg, s, a)
    ensures !AllDone(s)
  {
    assert !s.tasks[a.t].phase.Done?;
  }

  /** Deadlock freedom: a reachable state is without an enabled task step exactly when every item is done. */
  lemma NeverDeadlocked(cfg: Config, s: State, actions: seq<Action>)
    requires Init(cfg, s) && ValidRun(cfg, s, actions)
    ensures WellTyped(cfg, Final(cfg, s, actions))
    ensures !CanStep(cfg, Final(cfg, s, actions)) <==> AllDone(Final(cfg, s, actions))
  {
    ReachInv(cfg, s, actions);
    var f := Final(cfg, s, actions);
    if t: nat :| t < |f.tasks| && !f.tasks[t].phase.Done? {
      UnfinishedCanStep(cfg, f, t);
    }
    if CanStep(cfg, f) {
      var a: Action :| !a.Refresh? && Enabled(cfg, f, a);
      DoneMeansStill(cfg, f, a);
    }
  }

  lemma FinishingStep(cfg: Config, s: State, t: nat) returns (a: Action)
    requires Inv(cfg, s) && t < |s.tasks| && !s.tasks[t].phase.Done?
    ensures !a.Refresh? && Enabled(cfg, s, a)
    ensures Inv(cfg, Next(cfg, s, a)) && Remaining(Next(cfg, s, a).tasks) < Remaining(s.tasks)
  {
    UnfinishedCanStep(cfg, s, t);
    a :| !a.Refresh? && Enabled(cfg, s, a);
    NextInv(cfg, s, a);
    StepDescends(cfg, s, a);
    RemainingUpdate(s.tasks, a.t, Step(cfg, s, a).task);
    assert Next(cfg, s, a).tasks == s.tasks[a.t := Step(cfg, s, a).task];
  }

  lemma {:induction false} CanFinish(cfg: Config, s: State) returns (actions: seq<Action>)
    requires Inv(cfg, s)
    ensures ValidRun(cfg, s, actions) && AllDone(Final(cfg, s, actions))
    ensures |actions| <= Remaining(s.tasks) && TaskSteps(actions) == |actions|
    decreases Remaining(s.tasks)
  {
    if t: nat :| t < |s.tasks| && !s.tasks[t].phase.Done? {
      var a := FinishingStep(cfg, s, t);
      var rest := CanFinish(cfg, Next(cfg, s, a));
      actions := [a] + rest;
    } else {
      actions := [];
    }
  }

  /**
   * From every reachable state every item can still finish, by task steps alone and within the bound; and
   * since a state without an enabled step is one where all is done, no choice of steps can avoid it.
   */
  lemma EveryItemFinishes(cfg: Config, s: State, prefix: seq<Action>) returns (actions: seq<Action>)
    requires Init(cfg, s) && ValidRun(cfg, s, prefix)
    ensures var f := Final(cfg, s, prefix);
            && ValidRun(cfg, f, actions) && AllDone(Final(cfg, f, actions))
            && TaskSteps(actions) == |actions| <= Remaining(f.tasks)
  {
    ReachInv(cfg, s, prefix);
    actions := CanFinish(cfg, Final(cfg, s, prefix));
  }

  // ---------------------------------------------------------------- quiescence

  lemma DonePool(cfg: Config, s: State, r: string)
    requires Inv(cfg, s) && r in s.pool.sizes && forall t :: 0 <= t < |s.tasks| ==> s.tasks[t].phase.Done?
    ensures s.pool.permits[r] == s.pool.sizes[r]
    ensures forall i :: 0 <= i < |s.pool.workers[r]| ==> s.pool.workers[r][i] == IDLE
  {
    NobodyBusy(s, r);
    TallyPositive(s.tasks, PermitAt(r));
  }

  lemma DoneLeases(cfg: Config, s: State, side: Side)
    requires Inv(cfg, s) && forall t :: 0 <= t < |s.tasks| ==> s.tasks[t].phase.Done?
    ensures LiveLeases(s.tasks, side) == map[]
  {
    forall t: nat | t < |s.tasks|
      ensures !Live(s.tasks[t], side)
    {
      assert CoherentIn(cfg, s.pool, s.tasks[t]);
    }
  }

  lemma DoneState(cfg: Config, s: State, f: State)
    requires Init(cfg, s) && Inv(cfg, f) && f.pool.sizes == s.pool.sizes
    requires forall t :: 0 <= t < |f.tasks| ==> f.tasks[t].phase.Done?
    ensures f.pool.permits == s.pool.permits && f.pool.workers == s.pool.workers && f.slots == s.slots
  {
    forall r | r in f.pool.sizes
      ensures f.pool.permits[r] == s.pool.permits[r] && f.pool.workers[r] == s.pool.workers[r]
    {
      DonePool(cfg, f, r);
    }
    forall b | 0 <= b < |f.slots|
      ensures f.slots[b] == s.slots[b]
    {
      TallyPositive(f.tasks, SlotOf(b));
    }
  }

  /** Once all items are done every permit, slot, worker and proxy lease is back where it started. */
  lemma EverythingComesBack(cfg: Config, s: State, actions: seq<Action>)
    requires Init(cfg, s) && ValidRun(cfg, s, actions)
    requires forall t :: 0 <= t < |Final(cfg, s, actions).tasks| ==> Final(cfg, s, actions).tasks[t].phase.Done?
    ensures var f := Final(cfg, s, actions);
            && f.pool.permits == s.pool.permits
            && f.pool.workers == s.pool.workers
            && f.slots == s.slots
            && forall side: Side :: f.providers.At(side).Leasing? ==> f.providers.At(side).pool.inUse == {}
  {
    ReachInv(cfg, s, actions);
    var f := Final(cfg, s, actions);
    DoneState(cfg, s, f);
    forall side: Side | f.providers.At(side).Leasing?
      ensures f.providers.At(side).pool.inUse == {}
    {
      DoneLeases(cfg, f, side);
    }
  }

  // ---------------------------------------------------------------- proxy leases over runs

  /** In every reachable state a provider's in-use keys are pool keys held by some scrape right now. */
  lemma LeasesNeverLeak(cfg: Config, s: State, actions: seq<Action>, side: Side)
    requires Init(cfg, s) && ValidRun(cfg, s, actions)
    requires var f := Final(cfg, s, actions); f.providers.At(side).Leasing?
    ensures var f := Final(cfg, s, actions);
            NoLeak(f.providers.At(side).pool, LiveLeases(f.tasks, side))
  {
    InitInv(cfg, s);
    RunInv(cfg, s, actions);
  }

  /** Every refresh of the run keeps all the keys leased at that moment. */
  ghost predicate Benign(cfg: Config, s: State, actions: seq<Action>)
    requires ValidRun(cfg, s, actions)
    decreases |actions|
  {
    actions == [] ||
    ((actions[0].Refresh? ==> LeasedKeys(LiveLeases(s.tasks, actions[0].side)) <= PoolKeys(actions[0].pools)) &&
     Benign(cfg, Next(cfg, s, actions[0]), actions[1..]))
  }

  lemma NextExclusive(cfg: Config, s: State, a: Action)
    requires Inv(cfg, s) && Enabled(cfg, s, a) && Exclusive(s)
    ensures !a.Refresh? ==> Exclusive(Next(cfg, s, a))
    ensures a.Refresh? ==> (Exclusive(Next(cfg, s, a)) <==>
              LeasedKeys(LiveLeases(s.tasks, a.side)) <= PoolKeys(a.pools))
  {
    var s' := Next(cfg, s, a);
    if a.Refresh? {
      RefreshKeeps(s.providers.At(a.side).pool, LiveLeases(s.tasks, a.side), a.pools);
      assert s'.tasks == s.tasks && forall side: Side :: side != a.side ==>
        s'.providers.At(side) == s.providers.At(side);
      assert s'.providers.At(a.side).Leasing?;
    } else {
      forall side: Side | s'.providers.At(side).Leasing?
        ensures Exact(s'.providers.At(side).pool, LiveLeases(s'.tasks, side))
      {
        StepAccounted(cfg, s, a, side);
        NextLeases(cfg, s, a, side);
      }
    }
  }

  /**
   * If every refresh keeps the leased keys, the in-use keys are exactly the leased ones and no two scrapes
   * hold proxies with the same endpoint.
   */
  lemma {:induction false} BenignRunsAreExclusive(cfg: Config, s: State, actions: seq<Action>)
    requires Inv(cfg, s) && Exclusive(s) && ValidRun(cfg, s, actions) && Benign(cfg, s, actions)
    ensures Exclusive(Final(cfg, s, actions))
    decreases |actions|
  {
    if actions != [] {
      NextInv(cfg, s, actions[0]);
      NextExclusive(cfg, s, actions[0]);
      BenignRunsAreExclusive(cfg, Next(cfg, s, actions[0]), actions[1..]);
    }
  }

  lemma ExclusiveLeases(s: State, side: Side, t: nat, u: nat)
    requires Exclusive(s) && s.providers.At(side).Leasing? && t < |s.tasks| && u < |s.tasks| && t != u
    requires Live(s.tasks[t], side) && Live(s.tasks[u], side)
    ensures var p, q := s.tasks[t].obtained[0].proxy, s.tasks[u].obtained[0].proxy; p.host != q.host || p.port != q.port
  {
    var leases := LiveLeases(s.tasks, side);
    assert t in leases && u in leases;
    ProxyKeyIdentifiesEndpoint(leases[t], leases[u]);
  }

  /** Two scrapes never hold the same endpoint of a leasing provider at once. */
  lemma ScrapesShareNoEndpoint(cfg: Config, s: State, actions: seq<Action>, side: Side, t: nat, u: nat)
    requires Init(cfg, s) && ValidRun(cfg, s, actions) && Benign(cfg, s, actions)
    requires Final(cfg, s, actions).providers.At(side).Leasing?
    requires t < |Final(cfg, s, actions).tasks| && u < |Final(cfg, s, actions).tasks| && t != u
    requires Live(Final(cfg, s, actions).tasks[t], side) && Live(Final(cfg, s, actions).tasks[u], side)
    ensures var p, q := Final(cfg, s, actions).tasks[t].obtained[0].proxy,
                        Final(cfg, s, actions).tasks[u].obtained[0].proxy;
            p.host != q.host || p.port != q.port
  {
    InitInv(cfg, s);
    BenignRunsAreExclusive(cfg, s, actions);
    ExclusiveLeases(Final(cfg, s, actions), side, t, u);
  }

  // ---------------------------------------------------------------- the bulk response

  /** The tasks of a batch, in the order of its items. */
  function BatchOf(ts: seq<Task>, b: nat): (members: seq<nat>)
    ensures forall t :: t in members <==> 0 <= t < |ts| && ts[t].batch == b
    ensures forall i, j :: 0 <= i < j < |members| ==> members[i] < members[j]
  {
    if ts == [] then []
    else
      var last := |ts| - 1;
      var before := BatchOf(ts[..last], b);
      assert forall i :: 0 <= i < |before| ==> before[i] in before;
      before + if ts[last].batch == b then [last] else []
  }

  lemma {:induction false} SameBatch(ts: seq<Task>, ts': seq<Task>, b: nat)
    requires |ts| == |ts'| && forall t :: 0 <= t < |ts| ==> ts[t].batch == ts'[t].batch
    ensures BatchOf(ts, b) == BatchOf(ts', b)
  {
    if ts != [] {
      SameBatch(ts[..|ts| - 1], ts'[..|ts| - 1], b);
    }
  }

  lemma {:induction false} RunKeepsBatches(cfg: Config, s: State, actions: seq<Action>, b: nat)
    requires ValidRun(cfg, s, actions)
    ensures BatchOf(Final(cfg, s, actions).tasks, b) == BatchOf(s.tasks, b)
    decreases |actions|
  {
    if actions != [] {
      var s' := Next(cfg, s, actions[0]);
      SameBatch(s.tasks, s'.tasks, b);
      RunKeepsBatches(cfg, s', actions[1..], b);
    }
  }

  datatype BulkItem = BulkItem(index: nat, result: Result)

  predicate Succeeded(r: Result) {
    r.Responded? && r.response.status == Success
  }

  /** The results of a batch that is done, as `gather` returns them. */
  function ResultsOf(ts: seq<Task>, b: nat): (results: seq<Result>)
    requires forall t :: 0 <= t < |ts| && ts[t].batch == b ==> ts[t].phase.Done?
  {
    if ts == [] then []
    else
      var last := ts[|ts| - 1];
      ResultsOf(ts[..|ts| - 1], b) + if last.batch == b then [last.phase.result] else []
  }

  /** The result of the batch's item `i` is that of its task. */
  predicate ResultAt(ts: seq<Task>, b: nat, results: seq<Result>, i: nat)
    requires i < |results| == |BatchOf(ts, b)|
  {
    var t := BatchOf(ts, b)[i];
    assert t in BatchOf(ts, b);
    ts[t].phase == Done(results[i])
  }

  lemma {:induction false} ResultsAreInOrder(ts: seq<Task>, b: nat)
    requires forall t :: 0 <= t < |ts| && ts[t].batch == b ==> ts[t].phase.Done?
    ensures |ResultsOf(ts, b)| == |BatchOf(ts, b)|
    ensures forall i :: 0 <= i < |ResultsOf(ts, b)| ==> ResultAt(ts, b, ResultsOf(ts, b), i)
  {
    if ts != [] {
      var before := ts[..|ts| - 1];
      ResultsAreInOrder(before, b);
      forall i | 0 <= i < |ResultsOf(ts, b)|
        ensures ResultAt(ts, b, ResultsOf(ts, b), i)
      {
        if i < |ResultsOf(before, b)| {
          assert ResultAt(before, b, ResultsOf(before, b), i);
          assert BatchOf(before, b)[i] in BatchOf(before, b);
        }
      }
    }
  }

  function Successes(results: seq<Result>): nat {
    if results == [] then 0
    else Successes(results[..|results| - 1]) + if Succeeded(results[|results| - 1]) then 1 else 0
  }

  /** The results that are responses with status success. */
  function Succeeding(results: seq<Result>): set<nat> {
    set i: nat | i < |results| && results[i].Responded? && results[i].response.status == Success
  }

  lemma SucceedingAppend(before: seq<Result>, r: Result)
    ensures |Succeeding(before + [r])| ==
            |Succeeding(before)| + if r.Responded? && r.response.status == Success then 1 else 0
  {
    assert Succeeding(before + [r]) ==
           Succeeding(before) + if r.Responded? && r.response.status == Success then {|before|} else {};
  }

  lemma {:induction false} SuccessesAreCounted(results: seq<Result>)
    ensures Successes(results) == |Succeeding(results)|
  {
    if results == [] {
      assert Succeeding(results) == {};
    } else {
      var before, r := results[..|results| - 1], results[|results| - 1];
      assert results == before + [r];
      SuccessesAreCounted(before);
      SucceedingAppend(before, r);
    }
  }

  /** Every item of the response is a success or a failure, and the items are in the order of the results. */
  method Summarize(results: seq<Result>) returns (items: seq<BulkItem>, total: nat, succeeded: nat, failed: nat)
    ensures |items| == |results| == total
    ensures forall i :: 0 <= i < |items| ==> items[i] == BulkItem(i, results[i])
    ensures succeeded == Successes(results) && total == succeeded + failed
    ensures succeeded == |Succeeding(results)|
    ensures failed == 0 <==> forall i :: 0 <= i < |results| ==> Succeeded(results[i])
  {
    SuccessesAreCounted(results);
    items, succeeded := [], 0;
    for i := 0 to |results|
      invariant |items| == i && forall k :: 0 <= k < i ==> items[k] == BulkItem(k, results[k])
      invariant succeeded == Successes(results[..i]) <= i
      invariant succeeded == i <==> forall k :: 0 <= k < i ==> Succeeded(results[k])
    {
      assert results[..i + 1][..i] == results[..i];
      items := items + [BulkItem(i, results[i])];
      if Succeeded(results[i]) {
        succeeded := succeeded + 1;
      }
    }
    assert results[..|results|] == results;
    total, failed := |results|, |results| - succeeded;
  }

  /** The bulk endpoint once all items of the batch are done. */
  method BulkResponse(ts: seq<Task>, b: nat) returns (items: seq<BulkItem>, total: nat, succeeded: nat, failed: nat)
    requires forall t :: 0 <= t < |ts| && ts[t].batch == b ==> ts[t].phase.Done?
    ensures |items| == |BatchOf(ts, b)| == |ResultsOf(ts, b)| == total
    ensures forall i :: 0 <= i < |items| ==>
              items[i] == BulkItem(i, ResultsOf(ts, b)[i]) && ResultAt(ts, b, ResultsOf(ts, b), i)
    ensures succeeded == Successes(ResultsOf(ts, b)) && total == succeeded + failed
    ensures failed == 0 <==> forall i :: 0 <= i < |items| ==> Succeeded(items[i].result)
  {
    ResultsAreInOrder(ts, b);
    var results: seq<Result> := [];
    for t := 0 to |ts|
      invariant results == ResultsOf(ts[..t], b)
    {
      assert ts[..t + 1][..t] == ts[..t];
      if ts[t].batch == b {
        results := results + [ts[t].phase.result];
      }
    }
    assert ts[..|ts|] == ts;
    items, total, succeeded, failed := Summarize(results);
  }

  /**
   * The bulk response over whole runs: its items are those the batch was submitted with, whatever was scheduled in
   * between, and an item of a finished batch counts as a success exactly if it was neither rejected nor failed in
   * its bookkeeping and its page was fetched with the proxy it needed.
   */
  lemma {:induction false} BulkResponseIsTrue(cfg: Config, s: State, actions: seq<Action>, b: nat, t: nat)
    requires Init(cfg, s) && ValidRun(cfg, s, actions) && t < |s.tasks|
    ensures BatchOf(Final(cfg, s, actions).tasks, b) == BatchOf(s.tasks, b)
    ensures |Final(cfg, s, actions).tasks| == |s.tasks|
    ensures var task := Final(cfg, s, actions).tasks[t];
            task.phase.Done? ==>
              (Succeeded(task.phase.result) <==>
               !Spoiled(actions, t) && Served(cfg.setup, AnswersOf(actions, t, s.tasks[t].seen)))
  {
    RunKeepsBatches(cfg, s, actions, b);
    ScrapesTellTheTruth(cfg, s, actions, t);
  }
}
