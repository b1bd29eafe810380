# Verified model of the ASB Cloud API

The service takes scrape requests, singly or in batches, admits them through a rate limiter, leases a browser
worker from a per-region pool and a proxy from a provider behind a circuit breaker, runs the page and records
sessions and usage. This project models that request path as a concurrent resource system, together with the
limiters, stores and billing protocols around it, and proves what holds in every interleaving and over every run.

`dafny verify dfyconfig.toml` checks everything.

| file | what it models |
|---|---|
| `Common.dfy`, `Text.dfy` | optional values; printing and parsing integers, splitting and joining text |
| `WorkerPool.dfy` | the per-region pool: as a value with one function per stretch between awaits, and as the object that updates its workers in place |
| `Worker.dfy` | one scrape on one worker: what it does as a function of the answers it gets, and the nested try/except/finally |
| `Decodo.dfy` | the proxy provider that keeps an in-use set under pool refreshes |
| `ScrapeSystem.dfy` | all scrapes of all batches at once, as a transition system |
| `ScrapeInvariants.dfy`, `ScrapeTheorems.dfy` | what every step keeps; what follows for every run |
| `Breaker.dfy` | the circuit breaker under overlapping calls and the health checker |
| `SlidingWindow.dfy`, `UsageLimiter.dfy` | the in-memory limiter against a log of all admissions; the PostgreSQL limiter as check-now, record-later; their agreement |
| `Metering.dfy` | the PostgreSQL limiter in front of the scrape system: what of a key is let in, unfinished and unrecorded |
| `Sessions.dfy` | the lazily evicting and the tombstone session store against a store that expires at once |
| `Usage.dfy` | usage records, daily rollups, overage, and the lazily reset counter |
| `License.dfy` | license keys: printing, parsing, verification, what a signature covers |
| `Webhooks.dfy` | at-most-once event effects on the key store |

## How it is modelled

* **Steps.** A task of asyncio runs without interruption from one await to the next, so each such stretch is one
  atomic step. The lease lock, the provider lock and the limiter and store locks are never held across a
  suspension, so a locked section is one step too. `ScrapeSystem.Action` lists the thirteen kinds of step:
  batch slot taken, rejected, passed to the pool, permit taken, worker scanned for, and so on up to the return of
  the worker; any number of tasks may be in any of them. A single scrape is a batch of one.
* **Environment.** What the runner, the providers, the breakers, the session and usage stores and the caller's region
  argument do are arbitrary inputs of the steps. A provider that keeps leases can only answer with a proxy it has
  free. Clocks are `real` arguments; runs assume they do not go backwards where the statement says so.
* **Objects.** Every object of the source that updates fields is a class here (`RegionWorkerPool`, `ASBWorker`,
  `DecodoProvider`, `CircuitBreaker`, `SlidingWindowLimiter`, both session stores, both usage trackers, the webhook
  route). Its methods are proved equal to functions on values, and the runs are about those functions.
* **Assumptions of the pool.** `default_region` is a pool key, sizes are at least one, and no region is named by the
  empty string; `ReleaseRestoresLease` shows that the last one matters. A worker released twice is the caller's error and makes the semaphore raise if it is full.
* **History.** The logs of admissions, the lists of proxies obtained and released by a task, the trailing run of
  failures and the list of applied webhook deliveries record what happened; no step reads them.

## What was found

Where the code does not do what its documentation or names suggest, the model follows the code.

* `CircuitBreaker.get_proxy` tests `self.last_failure and ...`: a failure stamped 0.0 counts as none, and without the
  health checker the breaker then never lets a call through again (`RecoveryOpens` says exactly when it does,
  `StuckAtClockZero` and `ClockZeroIsReached` that it stays so and gets there).
* "One failure while RECOVERING trips the breaker" is not what the code does: a failure trips a breaker exactly when it
  brings the failure counter to the threshold (`RecoveringTrips`), and RECOVERING can be reached with a lower one. The
  health checker, which the service always starts, gets there with 1 or 0 counted, so that with the shipped threshold of
  3 one failure does not trip it (`CheckerRecoversEarly`). Without the checker, a late success of an overlapping call
  clears the counter while DOWN (`OverlapForgetsFailures`); only with serial calls and no checker does the sentence hold
  (`SerialRecoveringTrips`).
* The `reset_at` of the in-memory limiter is right to the second for one unit (`ResetTimeIsRight`) and can be too early
  for a batch or after a limit was lowered (`BatchResetTimeTooEarly`); `RetryDecidedBy` names the stamp that decides.
* The sliding-window bound survives changing limits but not every change of window. It holds in a run whose window starts
  do not move back (`EveryWindowIsBounded`), and in all runs of a key if and only if no finite tier of its table has a
  shorter window than one that admits anything (`SafeIff`, through `WindowChangeBreaksBound`). The shipped table is not
  safe: `free` has 3600 seconds, the paid tiers 86400 (`ShippedTiers`).
* The PostgreSQL limiter counts rows that are written after the scrape has run. With at most p units admitted and
  unrecorded at once the bound is `max_requests + p - 1`, and it is reached for every p (`BoundIsReached`).
* The two limiters do not count the same requests: those of an unlimited tier write rows but leave no stamps, so a key
  that moves to a finite tier can be denied by the one and admitted by the other (`DowngradeSplits`). So can a key that
  moves to a longer window, whose rows are still there when its stamps have been expired (`UpgradeSplits`).
  `DecisionsAgreeIff` is the exact condition.
* A Decodo key that leaves the pool while leased and comes back is handed out twice (`DoubleLeaseAfterReturn`); a
  refresh keeps leases exclusive exactly when it keeps every leased key (`NextExclusive`), and once one is lost a
  double lease is one refresh and one request away (`CanDoubleIff`).
* `check_overage` compares the requests of the current day with a table named monthly quota
  (`asb_api/db/usage.py:114-131`, `asb_api/billing/__init__.py:62-67`). `DailyIsMonthlyIff` says exactly when the
  two agree, and `TwoDaysUnflagged` gives two days over the quota that are not flagged.
* A rollup of a day that is not over freezes that day's figure (`EarlyRollupGoesStale`); `AddKeepsIff` is the exact
  condition.
* The session stores differ on a lookup exactly at `now == expires_at` and for a live session with an empty region,
  which the PostgreSQL store answers as `jp` (`GetsAgreeIff`, `StoresAgreeIff`, `EmptyRegionDiffers`).
* A webhook event is recorded before its effect is applied, so an effect that raises is lost: the redelivery is a
  duplicate. Effects are applied at most once, and exactly once if and only if none was lost (`EffectIffNotLost`).
* The license payload joins its fields with colons, so a colon in `license_type` or in the domain lets another type and
  domain share it (`SharedIffColon`). Keys are safe for all domains exactly when no type in use is another one followed
  by a colon and more (`DeterminedIff`).

## Model

| member | source | states |
|---|---|---|
| `ScrapeTheorems.WorkersAreExclusive` | asb_api/workers/pool.py:81-114 | in every interleaving of any number of scrapes: per region permits + tasks between permit and worker + busy workers = size; no worker is held by two tasks; a scan under a permit finds an idle worker, so the RuntimeError is unreachable; a return frees exactly the leased region and never overfills the semaphore, whatever region the caller names |
| `ScrapeTheorems.RegionsAreHonoured` | asb_api/workers/pool.py:81-107 | in every run a task waits for, holds a permit of, or has a worker of the region its request names, or of the default region if that is no pool key |
| `ScrapeTheorems.ScrapesAreAtomic` | asb_api/workers/worker.py:60-143 | however scrapes interleave, a finished one released exactly what it obtained, at most one proxy, to the side that granted it, and its response is that of the uninterrupted scrape with the same answers, although the field naming the breaker is shared by all scrapes of the worker |
| `ScrapeTheorems.ScrapesTellTheTruth` | asb_api/workers/worker.py:42-143 | over whole runs, from what providers and runner answered: a finished scrape failed if and only if it was rejected or its bookkeeping raised; else it is answered with success if and only if its worker ran, its page came and it had the proxy it needed; it names its supplier, and it took and gave back exactly the proxy granted |
| `ScrapeTheorems.RunFails` | asb_api/api/routes/scrape.py:86-149 | a task fails in a run exactly when the run rejects it or its session or usage bookkeeping raises |
| `ScrapeTheorems.RunHears` | asb_api/workers/worker.py:62-119 | what a task goes by at the end of a run is what its provider and runner steps answered, the last answer of each kind |
| `ScrapeTheorems.FreeProxyIsOffered` | asb_api/providers/decodo.py:91-106 | a leasing primary with a free candidate for the task's region can answer with a free candidate |
| `ScrapeTheorems.NeverDeadlocked` | asb_api/api/routes/scrape.py:178-197 | a reachable state has no enabled task step if and only if every item of every batch is done |
| `ScrapeTheorems.EveryItemFinishes` | asb_api/api/routes/scrape.py:178-197 | from every reachable state some continuation of task steps alone, no longer than the measure, finishes every item |
| `ScrapeTheorems.CanFinish` | asb_api/api/routes/scrape.py:178-197 | the same from every state that satisfies the invariant |
| `ScrapeTheorems.UnfinishedCanStep` | asb_api/api/routes/scrape.py:178-197 | while an item is unfinished some task can step |
| `ScrapeTheorems.RunsAreShort` | asb_api/api/routes/scrape.py:182-197 | a measure falls at every task step, so any run has boundedly many of them, provider refreshes notwithstanding |
| `ScrapeTheorems.HoldersCanStep` | asb_api/api/routes/scrape.py:108-149 | past the semaphores a task can take its next step for every reply its provider can give, every runner result, every region the caller names and every failure of the bookkeeping |
| `ScrapeTheorems.WaitersCanStep` | asb_api/workers/pool.py:97-107 | with nobody past the semaphores, a waiting task finds a permit or a slot, or another waiting task does |
| `ScrapeTheorems.BatchesAreBounded` | asb_api/api/routes/scrape.py:178-185 | at no time are more than min(16, max_concurrency) items of one batch past the batch semaphore |
| `ScrapeTheorems.EverythingComesBack` | asb_api/api/routes/scrape.py:108-149 | once all items are done every permit, worker flag, batch slot and in-use key is as it was at the start |
| `ScrapeTheorems.LeasesNeverLeak` | asb_api/providers/decodo.py:51-111 | in every reachable state the in-use keys are pool keys held by some scrape at that moment, refreshes included |
| `ScrapeTheorems.NextExclusive` | asb_api/providers/decodo.py:58-62 | every step but a refresh keeps in-use = leased keys, one holder each; a refresh does so if and only if it keeps every leased key |
| `ScrapeTheorems.BenignRunsAreExclusive` | asb_api/providers/decodo.py:51-111 | a run whose refreshes keep the leased keys keeps that equality throughout |
| `ScrapeTheorems.ScrapesShareNoEndpoint` | asb_api/providers/decodo.py:88-111 | in such a run two scrapes never hold the same host and port at once, duplicate pool entries included |
| `ScrapeTheorems.Summarize` | asb_api/api/routes/scrape.py:196-209 | results keep their order and index; total is the number of results and succeeded + failed; succeeded is the number of results that are responses with status success |
| `ScrapeTheorems.SuccessesAreCounted` | asb_api/api/routes/scrape.py:199 | the running count of successes is that number, for any mix of results |
| `ScrapeTheorems.BulkResponse` | asb_api/api/routes/scrape.py:196-209 | the same for the results of the finished tasks of a batch: item i carries the result of the task of the batch's i-th item |
| `ScrapeTheorems.ResultsAreInOrder` | asb_api/api/routes/scrape.py:196-197 | the results gathered for a batch are those of its tasks, one each, in item order |
| `ScrapeTheorems.BulkResponseIsTrue` | asb_api/api/routes/scrape.py:182-209 | over whole runs a batch has the items it was submitted with, and a finished item counts as a success if and only if it was not rejected, its bookkeeping went through and its page was fetched with the proxy it needed |
| `ScrapeTheorems.InitInv` | asb_api/workers/pool.py:63-79 | a fresh pool with idle providers and queued tasks satisfies the invariant |
| `ScrapeTheorems.NextInv` | asb_api/api/routes/scrape.py:78-149 | every enabled step of any task keeps the whole invariant |
| `ScrapeTheorems.RunInv` | asb_api/api/routes/scrape.py:78-149 | the invariant holds at the end of every run |
| `ScrapeTheorems.NobodyBusy` | asb_api/workers/pool.py:109-114 | a region no task holds a worker of has all workers idle with no lease and no breaker remembered |
| `ScrapeTheorems.DoneState` | asb_api/workers/pool.py:109-114 | all tasks done: permits, workers and slots equal the initial ones |
| `ScrapeInvariants.PermitFindsIdleWorker` | asb_api/workers/pool.py:99-107 | while a task holds a permit its region has an idle worker |
| `ScrapeInvariants.ReturnIsBounded` | asb_api/workers/pool.py:109-114 | a returning task's region is its worker's own, whatever the caller passes, and its semaphore is below its bound |
| `ScrapeInvariants.StepAccount` | asb_api/workers/pool.py:97-114 | no step changes a region's permits + permit holders + busy workers |
| `ScrapeInvariants.NextConserved` | asb_api/workers/pool.py:97-114 | the region accounts balance after every step |
| `ScrapeInvariants.StepAdvances` | asb_api/api/routes/scrape.py:78-194 | each step takes its task to one of the few phases that follow, with the region and the worker it has, and takes or frees a batch slot exactly when that phase demands it |
| `ScrapeInvariants.StepHears` | asb_api/workers/worker.py:62-119 | a step changes what its task has heard by exactly the answer it brings |
| `ScrapeInvariants.StepEnds` | asb_api/api/routes/scrape.py:86-149 | a task ends by rejection or by returning its worker: failed in the first case and when the bookkeeping raised, with its response otherwise |
| `ScrapeInvariants.StepSlots` | asb_api/api/routes/scrape.py:178-185 | no step changes a batch's free slots + running items |
| `ScrapeInvariants.NextBounded` | asb_api/api/routes/scrape.py:178-185 | the batch accounts balance after every step |
| `ScrapeInvariants.StepPlaced` | asb_api/workers/pool.py:81-107 | no step moves a task out of its request's normalised region |
| `ScrapeInvariants.StepMoved` | asb_api/workers/pool.py:97-114 | a step changes only its own task's worker: leasing takes an idle one and notes its region, returning resets the flags |
| `ScrapeInvariants.NextOwned` | asb_api/workers/pool.py:97-114 | every busy worker has exactly one holder and remembers its own region; every idle one remembers nothing |
| `ScrapeInvariants.StepCoherent` | asb_api/workers/worker.py:60-143 | after each step a task's locals and the shared breaker field match the answers it has seen |
| `ScrapeInvariants.NextCoherent` | asb_api/workers/worker.py:138-143 | the same for every task at once, so no scrape disturbs another's breaker field |
| `ScrapeInvariants.StepAccounted` | asb_api/workers/worker.py:62-84 | a step touches a provider's in-use set only by taking a proxy its task then holds, or by giving back the one it held |
| `ScrapeInvariants.NextLeases` | asb_api/providers/decodo.py:91-111 | leak freedom and exclusiveness of a provider survive every step of a task |
| `ScrapeInvariants.NextLeakFree` | asb_api/providers/decodo.py:58-62 | leak freedom survives refreshes too |
| `ScrapeInvariants.StepDescends` | asb_api/api/routes/scrape.py:78-149 | each step moves its task strictly closer to its end |
| `ScrapeInvariants.CoherentTrace` | asb_api/workers/worker.py:138-143 | at every point a task has released a prefix of what it obtained; all of it when done |
| `ScrapeSystem.EffectiveConcurrency` | asb_api/api/routes/scrape.py:179 | between 1 and 16: the request if it is, 16 above, 1 when negative, 8 when absent or zero |
| `WorkerPool.Pool.Normalize` | asb_api/workers/pool.py:81-85 | the named region if it is a non-empty pool key, else the default one; a pool key either way |
| `WorkerPool.FirstIdle` | asb_api/workers/pool.py:101-105 | the first idle worker, all earlier ones being busy |
| `WorkerPool.ScanFindsIdle` | asb_api/workers/pool.py:101-107 | the scan succeeds if and only if fewer workers are busy than exist |
| `WorkerPool.BusyUpdate` | asb_api/workers/pool.py:103-111 | how one worker's flag moves the number of busy workers |
| `WorkerPool.ReleaseRestoresLease` | asb_api/workers/pool.py:109-114 | the permit goes to the leased region if and only if its name is not empty or the caller's region normalises to it |
| `WorkerPool.RegionWorkerPool.constructor` | asb_api/workers/pool.py:54-79 | all permits free and every worker idle, distinct objects throughout |
| `WorkerPool.RegionWorkerPool.TakePermit` | asb_api/workers/pool.py:97-99 | takes a permit of the normalised region if there is one, else changes nothing |
| `WorkerPool.RegionWorkerPool.LeaseWorker` | asb_api/workers/pool.py:100-107 | leases an idle worker of the region if and only if one exists, else hands the permit back |
| `WorkerPool.RegionWorkerPool.GivePermit` | asb_api/workers/pool.py:106-114 | one more permit in the region and nothing else, or, on a full semaphore, the error and no change |
| `WorkerPool.RegionWorkerPool.MarkIdle` | asb_api/workers/pool.py:111-113 | exactly that worker becomes idle and forgets its lease |
| `WorkerPool.RegionWorkerPool.Release` | asb_api/workers/pool.py:109-114 | idles the worker and frees a permit of its leased region; where that raises (semaphore full or unknown) the worker is idle all the same |
| `Worker.ResponseNamesSupplier` | asb_api/workers/worker.py:60-84 | at most one proxy; the response names the side that granted it; the fallback only after the primary refused and the fallback granted; success needs a page and a proxy, or the null provider |
| `Worker.RespondIsTrue` | asb_api/workers/worker.py:42-143 | `Respond` and `Borrowed` from the answers: not started if and only if the worker is not; success if and only if it is, a page came, and the primary is "null" or granted, or it refused and the configured fallback granted; the block flag is the page's on success; the proxy borrowed is that of the side that granted under those conditions |
| `Worker.ASBWorker.Scrape` | asb_api/workers/worker.py:35-143 | on every path the response and the proxies are as the answers demand, each granted proxy is released to its provider once, nothing else is, and the shared breaker field ends cleared |
| `Decodo.ProxyKeyIdentifiesEndpoint` | asb_api/providers/decodo.py:88-89 | two proxies have the same key if and only if they have the same host and port |
| `Decodo.LookupFinds` | asb_api/providers/decodo.py:94 | a region's list is that of the first entry of its name; it is empty if and only if there is no such entry or its list is empty |
| `Decodo.GetGrants` | asb_api/providers/decodo.py:91-106 | a request gets the first free proxy of the list of the region it names, or of the default region if it names none; only if that list is missing or empty, of the first list of the dictionary; none exactly if all are in use |
| `Decodo.KeptByRefresh` | asb_api/providers/decodo.py:51-62 | a key stays in use through a refresh if and only if some list of the new pool has a proxy with its host and port |
| `Decodo.ProxyPool.Candidates` | asb_api/providers/decodo.py:92-98 | the region's own list if it is not empty, else the first of the dictionary; only proxies of the pool; empty only if the region's list is |
| `Decodo.ProxyPool.Get` | asb_api/providers/decodo.py:91-106 | a proxy is granted if and only if some candidate is free; it is the first free one, its key is in the pool, was not in use and now is |
| `Decodo.GrantKeeps` | asb_api/providers/decodo.py:91-106 | a grant keeps leak freedom and exclusiveness |
| `Decodo.ReleaseKeeps` | asb_api/providers/decodo.py:108-111 | a release keeps leak freedom and exclusiveness |
| `Decodo.RefreshKeeps` | asb_api/providers/decodo.py:58-62 | a refresh keeps leak freedom always, exclusiveness if and only if all leased keys stay in the pool |
| `Decodo.DoubleLeaseAfterReturn` | asb_api/providers/decodo.py:58-62 | in any state, any leased proxy whose key leaves the pool in one refresh is granted again after a refresh that brings it back |
| `Decodo.CanDoubleIff` | asb_api/providers/decodo.py:58-106 | some refresh and request can grant a leased key again if and only if some leased key is not in use; with distinct leases, if and only if exactness is lost |
| `Decodo.DecodoProvider.GetProxy` | asb_api/providers/decodo.py:91-106 | the search loop with its fallback region is `ProxyPool.Get` |
| `Decodo.DecodoProvider.ReleaseProxy` | asb_api/providers/decodo.py:108-111 | the key leaves the in-use set; the pool is unchanged |
| `Decodo.DecodoProvider.ReplacePool` | asb_api/providers/decodo.py:58-62 | the pool is the new one, the in-use set keeps only its keys |
| `Breaker.FailuresTrackStreak` | asb_api/providers/health.py:17-74 | with overlapping calls and the health checker, `failures` is at most the trailing run of recorded failures + 1; for thresholds from 2, UP and DEGRADED have fewer failures than the threshold |
| `Breaker.FailuresAreCounted` | asb_api/providers/health.py:17-74 | in every run, calls overlapping and checker included, `failures` is 0 after a success, one more with each recorded failure and 1 after the checker degrades an UP breaker, and changes at nothing else |
| `Breaker.FailuresAreStreak` | asb_api/providers/health.py:17-43 | without the checker it is exactly the trailing run of recorded failures, and DOWN implies a failure time |
| `Breaker.TripNeedsStreak` | asb_api/providers/health.py:23-28 | DOWN reached from UP or DEGRADED by a finished call took a failure and at least threshold - 1 in a row, threshold without the checker |
| `Breaker.RecoveryNeedsSuccess` | asb_api/providers/health.py:17-43 | between DOWN or DEGRADED and a later UP lies a recorded success in RECOVERING, after which it stayed UP |
| `Breaker.RejectedCallsChangeNothing` | asb_api/providers/health.py:31-36 | calls are only turned away while DOWN, and any run without all its turned-away calls is still a run and ends in the same state, so they never prolong an outage |
| `Breaker.LastFailureIsLast` | asb_api/providers/health.py:23-28 | in every run `last_failure` is the time of the last failure recorded, None without one; successes and the checker do not move it |
| `Breaker.LastFailureIsOne` | asb_api/providers/health.py:23-28 | that time is one of a recorded failure after which none was recorded |
| `Breaker.RecoveryOpens` | asb_api/providers/health.py:31-38 | in every run, while DOWN, the provider is reached if and only if the call is more than the timeout after the last recorded failure and that failure is not stamped 0.0; the breaker is then RECOVERING |
| `Breaker.OpenUnlessDown` | asb_api/providers/health.py:30-38 | a call that finds any other state reaches the provider and changes nothing |
| `Breaker.OutcomeMoves` | asb_api/providers/health.py:17-43 | in every run: a success takes RECOVERING to UP and leaves the other states, a failure takes any state to DOWN exactly at the threshold, any other exception changes nothing |
| `Breaker.HealthMoves` | asb_api/providers/health.py:66-74 | for each of the four states, exactly from which states and answers a round of the checker leads there |
| `Breaker.StuckAtClockZero` | asb_api/providers/health.py:31-36 | without the checker, a breaker DOWN since a failure stamped 0.0 with no call under way stays exactly so for the rest of the run and turns every later call away |
| `Breaker.ClockZeroIsReached` | asb_api/providers/health.py:23-28 | for every threshold such a state is reached, by that many failing calls at 0.0 |
| `Breaker.RecoveringTrips` | asb_api/providers/health.py:23-74 | in every run, checker included, a failure brings a breaker that is not DOWN down if and only if it brings that count to the threshold, from RECOVERING as from UP |
| `Breaker.CheckerRecoversEarly` | asb_api/providers/health.py:66-74 | serial calls with the checker: a breaker it degraded or took down comes to RECOVERING, where the next failure trips it only for thresholds up to 2 or 1 |
| `Breaker.SerialRecoveringTrips` | asb_api/providers/health.py:17-43 | without overlap and checker, RECOVERING keeps a full counter and the next failure trips it |
| `Breaker.OverlapForgetsFailures` | asb_api/providers/health.py:17-43 | a run with three overlapping calls in which a failure in RECOVERING does not trip |
| `Breaker.CircuitBreaker.RecordSuccess` | asb_api/providers/health.py:17-21 | new state of all fields after a success |
| `Breaker.CircuitBreaker.RecordFailure` | asb_api/providers/health.py:23-28 | new state of all fields after a failure |
| `Breaker.CircuitBreaker.Enter` | asb_api/providers/health.py:31-36 | the gate: who passes and what changes |
| `Breaker.CircuitBreaker.GetProxy` | asb_api/providers/health.py:30-43 | an uninterrupted call: success and provider errors are recorded, other exceptions are not |
| `Breaker.CircuitBreaker.Check` | asb_api/providers/health.py:66-74 | one round of the health checker for one breaker |
| `SlidingWindow.GetLimits` | asb_api/api/rate_limiter.py:60-64 | a known tier's own limit and window, 500 and 3600 seconds for entries it leaves out; both without the tier and without `free` |
| `SlidingWindow.UnknownTierIsFree` | asb_api/api/rate_limiter.py:60-64 | an unknown tier gets the limits of `free`; entries left out of a known tier take the defaults, not those of `free` |
| `SlidingWindow.EveryWindowIsBounded` | asb_api/api/rate_limiter.py:69-95 | over a whole run with a forward clock in which the window starts of finite tiers do not move back, every closed interval no longer than the window holds at most as many admitted units as the limit in force at its last admission |
| `SlidingWindow.FixedWindowIsBounded` | asb_api/api/rate_limiter.py:69-95 | the same for one window length, asking only that the clock never runs backwards |
| `SlidingWindow.RunSound` | asb_api/api/rate_limiter.py:75-95 | after every run whose window starts do not move back the deque is the tail of the log of all admissions, sorted, what left it lies before the cutoff, and every unit was within its limit when admitted |
| `SlidingWindow.DequeIsTail` | asb_api/api/rate_limiter.py:79-92 | after any checks whatever the deque is the tail of the log of all admissions |
| `SlidingWindow.StepSound` | asb_api/api/rate_limiter.py:75-95 | one check keeps that |
| `SlidingWindow.EvictKeepsTail` | asb_api/api/rate_limiter.py:80-81 | expiry drops a prefix and only stamps before the cutoff |
| `SlidingWindow.WindowChangeBreaksBound` | asb_api/api/rate_limiter.py:60-81 | for every limit from 1 and every finite tier with a shorter window: after a denied check under that tier one unit more than the limit is admitted in the longer window |
| `SlidingWindow.SafeIff` | asb_api/api/rate_limiter.py:60-95 | for every tier table: all runs with a forward clock keep every unit within the limit it was admitted under if and only if no finite tier has a shorter window than a tier that admits anything and whose window is not negative |
| `SlidingWindow.ForgetlessIsBounded` | asb_api/api/rate_limiter.py:60-95 | under such a table every closed interval no longer than the window of its last admission holds at most the limit in force there, however the key changes tiers |
| `SlidingWindow.ShippedTiers` | asb_api/api/rate_limiter.py:60-64 | the four shipped tiers together are not safe; `free` with `enterprise`, and the three paid ones, are |
| `SlidingWindow.AdmissionKeepsIff` | asb_api/api/rate_limiter.py:80-92 | an admission keeps every unit within its limit if and only if the units of the log inside its window, in the deque or forgotten, leave room for it |
| `SlidingWindow.BatchIsAllOrNothing` | asb_api/api/rate_limiter.py:82-95 | a batch of n is admitted like n single checks at that instant and leaves the same deque, if and only if the window is not negative, or something is kept, or n is 1, or the limit admits nothing; denied, it only drops expired stamps |
| `SlidingWindow.RetryDecidedBy` | asb_api/api/rate_limiter.py:79-90 | a request of n units that does not fit is admitted on retry if and only if the stamp at position size + n - max - 1 has expired, also where the limit was lowered below the size |
| `SlidingWindow.ResetTimeIsRight` | asb_api/api/rate_limiter.py:83-90 | one unit denied by a full deque: denied up to `reset_at`, admitted from `reset_at + 1` on |
| `SlidingWindow.BatchResetTimeTooEarly` | asb_api/api/rate_limiter.py:83-90 | a request that needs a second stamp to expire, as a batch or under a lowered limit, is still denied from `reset_at` until it does |
| `SlidingWindow.AnswerTells` | asb_api/api/rate_limiter.py:70-95 | an unlimited tier is let through and the deque stays; under a finite limit the request is allowed if and only if it fits next to the stamps from the first unexpired one on; the remaining count, the limit and the reset time told, and the new deque, in terms of these |
| `SlidingWindow.CheckLogged` | asb_api/api/rate_limiter.py:82-95 | the log of admissions grows by the check's units exactly if the caller is told that a counted check is allowed |
| `SlidingWindow.SlidingWindowLimiter.CheckMany` | asb_api/api/rate_limiter.py:69-95 | the caller is told just that, the key's deque and history change accordingly, so the bounds over runs are about what callers were told, and other keys are untouched |
| `SlidingWindow.SlidingWindowLimiter.Locked` | asb_api/api/rate_limiter.py:75-95 | the two loops under the lock compute `Decide` |
| `SlidingWindow.SlidingWindowLimiter.CheckUnits` | asb_api/api/routes/scrape.py:52-61 | n units are one check of max(1, n) units |
| `UsageLimiter.CountIsCardinality` | asb_api/db/rate_limiter.py:72-77 | the count is the number of rows strictly after the cutoff |
| `UsageLimiter.OldestSince` | asb_api/db/rate_limiter.py:80-87 | the smallest row after the cutoff, if there is one |
| `UsageLimiter.CountTells` | asb_api/db/rate_limiter.py:61-103 | with the lock, a request is allowed if and only if it fits next to the rows after the cutoff; remaining count and reset time from their number and the oldest of them; without the lock it is denied |
| `UsageLimiter.PostgresRateLimiter.CheckMany` | asb_api/db/rate_limiter.py:30-107 | overage is decided first and needs no lock; unlimited tiers pass; otherwise the caller is told just that |
| `UsageLimiter.EveryWindowIsBounded` | asb_api/db/rate_limiter.py:30-105 | with at most p units admitted but unrecorded at once, and tiers changing as they may, every half-open window ending at a row holds at most max + p - 1 rows, for the limits in force at the last admission before that row, if finite |
| `UsageLimiter.FixedTierIsBounded` | asb_api/db/rate_limiter.py:58-105 | under one finite tier every half-open window holds at most max + p - 1 rows; at most max if each unit is recorded or dropped before the next check |
| `UsageLimiter.UnlimitedHasNoBound` | asb_api/db/rate_limiter.py:50-51 | under an unlimited tier any number of rows can fall on one instant, even with one unit unrecorded at a time |
| `UsageLimiter.BoundIsReached` | asb_api/api/routes/scrape.py:88-143 | for every limit and every p some run writes max + p - 1 rows at one instant, so the bound is the best possible |
| `UsageLimiter.AskKeeps` | asb_api/db/rate_limiter.py:30-105 | a check under any tier, unlimited ones included, keeps the run's invariant, admitted or not |
| `UsageLimiter.RecordKeeps` | asb_api/api/routes/scrape.py:122-143 | writing a row of an admitted unit keeps it |
| `UsageLimiter.RunInv` | asb_api/db/rate_limiter.py:30-105 | it holds at the end of every run |
| `UsageLimiter.DequeCountsRows` | asb_api/db/rate_limiter.py:71-77 | the rows of the log that are counted are as many as the stamps the deque keeps, less those lying on the cutoff, and the rows after it that the deque has forgotten |
| `UsageLimiter.RowsSplit` | asb_api/api/routes/scrape.py:122-143 | the rows counted for a key are those of its finite tiers and those of its unlimited ones |
| `UsageLimiter.NextDecision` | asb_api/db/rate_limiter.py:70-103 | with a forward clock, where the limited rows are the log so far, both limiters decide a check alike if and only if the request has the same room in the deque as among the rows: stamps on the cutoff taken off, forgotten rows and unlimited rows put on |
| `UsageLimiter.DecisionsAgreeIff` | asb_api/db/rate_limiter.py:50-103 | over all runs with a forward clock, limits and windows changing as they may, both limiters take all the same decisions if and only if that holds at every check |
| `UsageLimiter.DowngradeSplits` | asb_api/db/rate_limiter.py:50-92 | m requests under an unlimited tier and then a check of n under a limit: the limiters differ if and only if n fits the limit and m + n does not |
| `UsageLimiter.UpgradeSplits` | asb_api/db/rate_limiter.py:70-92 | a full window of m, one more request after it, then a check of n under a window that covers all: the limiters differ if and only if n fits the limit after one request and not after m + 1 |
| `UsageLimiter.LimitersAgree` | asb_api/db/rate_limiter.py:70-103 | in a run with a forward clock in which no check has a stamp on its cutoff, or in its window a row the deque forgot or a row of an unlimited tier, and units are recorded at their admission, all answers are equal: decision, remaining and reset time |
| `Metering.RowsAreBoundedByOpenScrapes` | asb_api/api/routes/scrape.py:52-209 | scrape system and limiter together: with at most p scrapes of a key let in and unfinished at any time, the units not yet recorded are among these, and every half-open window ending at a row holds at most max + p - 1 rows |
| `Metering.NextInv` | asb_api/api/routes/scrape.py:86-149 | every charge, row and step of a scrape keeps unrecorded units = due scrapes, all of them unfinished, and the limiter's bound |
| `Metering.ChargeMetered` | asb_api/api/routes/scrape.py:171-176 | letting a batch in adds exactly its items to the unrecorded units, a denied one adds none |
| `Metering.WriteMetered` | asb_api/api/routes/scrape.py:122-143 | writing a row takes exactly that scrape's unit off |
| `Metering.MoveMetered` | asb_api/api/routes/scrape.py:182-194 | a scrape that ends without its row takes its unit with it; no other step changes the units |
| `Sessions.LazyEvictionIsInvisible` | asb_api/session/store.py:49-92 | for every operation sequence with a forward clock the lazily evicting store gives the same answers as one that drops sessions the moment now > expires_at |
| `Sessions.MemKeepsSame` | asb_api/session/store.py:49-92 | one operation keeps the two stores equal on all sessions alive |
| `Sessions.MemReply` | asb_api/session/store.py:49-92 | and they answer it alike |
| `Sessions.GetsAgreeIff` | asb_api/db/session_store.py:48-86 | a lookup gets the same answer from both stores if and only if it is neither at the instant of expiry nor of a live session with an empty region |
| `Sessions.EmptyRegionDiffers` | asb_api/db/session_store.py:77 | a session created with an empty region is answered as it was by one store and as `jp` by the other |
| `Sessions.StoresAgreeIff` | asb_api/db/session_store.py:22-119 | with fresh ids both stores show the same sessions, regions, cookies and counts over the whole run if and only if no lookup of the run is one of those two kinds |
| `Sessions.MemSessionsLive` | asb_api/session/store.py:49-92 | over whole runs: a lookup answers a session if and only if one was created, not deleted since, and now <= creation + time to live; with the id, key, region and fingerprint it was created with, both times, the cookies of the last update and the number of increments since |
| `Sessions.PgSessionsLive` | asb_api/db/session_store.py:22-119 | the same for the PostgreSQL store and fresh ids, with now < creation + time to live, `jp` for an empty region, and `last_used` the time of the request before |
| `Sessions.CreationsAreAnswered` | asb_api/db/session_store.py:22-46 | what both stores answer to a creation, a conflict on a used id included |
| `Sessions.PgKeepsMirror` | asb_api/db/session_store.py:22-119 | one operation keeps rows and dictionary in correspondence: undeleted live rows are the sessions |
| `Sessions.PgReply` | asb_api/db/session_store.py:22-119 | and they answer it alike if and only if it is not such a lookup; rows are never removed |
| `Sessions.SessionStore.Create` | asb_api/session/store.py:49-65 | new dictionary and returned session |
| `Sessions.SessionStore.Get` | asb_api/session/store.py:67-76 | evicts an expired session, touches a live one, answers with its decoded cookies |
| `Sessions.SessionStore.UpdateCookies` | asb_api/session/store.py:78-82 | new dictionary; unknown ids change nothing |
| `Sessions.SessionStore.IncrementCount` | asb_api/session/store.py:84-88 | new dictionary; unknown ids change nothing |
| `Sessions.SessionStore.Delete` | asb_api/session/store.py:90-92 | the session is gone, if it was there |
| `Sessions.PostgresSessionStore.Create` | asb_api/db/session_store.py:22-46 | new row, or a conflict on a used id |
| `Sessions.PostgresSessionStore.Get` | asb_api/db/session_store.py:48-86 | only undeleted rows with expires_at > now are seen; last_used is updated after the row was read |
| `Sessions.PostgresSessionStore.UpdateCookies` | asb_api/db/session_store.py:88-98 | rows after the update, deleted and expired ones included |
| `Sessions.PostgresSessionStore.IncrementCount` | asb_api/db/session_store.py:100-109 | rows after the update |
| `Sessions.PostgresSessionStore.Delete` | asb_api/db/session_store.py:111-119 | the row gets a tombstone |
| `Usage.DailyFiguresAreExact` | asb_api/db/usage.py:47-77 | if rollups only run for days that are over, in every reachable state every daily figure equals count, duration sum and block count of the raw records, from the rollup or the fallback |
| `Usage.RawIs` | asb_api/db/usage.py:63-70 | requests and blocks of a key and day are the numbers of its records and of its blocked records |
| `Usage.DurationAdds` | asb_api/db/usage.py:63-70 | a record adds its duration to the figures of its own key and day and to no others |
| `Usage.AddKeepsIff` | asb_api/db/usage.py:8-27 | a new record keeps all figures right if and only if its day is not rolled up for its key yet |
| `Usage.RollupKeeps` | asb_api/db/usage.py:92-112 | a rollup keeps all figures right |
| `Usage.RollupRepairs` | asb_api/db/usage.py:92-112 | a rollup makes its day's figures right even after stale ones and leaves other days alone |
| `Usage.EarlyRollupGoesStale` | asb_api/jobs/daily_rollup.py:11-15 | a rollup of the current day makes the next request's figure wrong |
| `Usage.RollupIdempotent` | asb_api/db/usage.py:92-112 | a second rollup of a day changes nothing |
| `Usage.RollupsCommute` | asb_api/db/usage.py:92-112 | the order of rollups does not matter |
| `Usage.RollupConserves` | asb_api/db/usage.py:92-112 | a rolled-up day's rows, summed over all keys, are the totals of all its records, each counted once |
| `Usage.OverageIff` | asb_api/db/usage.py:114-131 | over if and only if the tier is neither free nor enterprise and the raw records of the current day exceed the quota; by how many, and at which cost |
| `Usage.ShippedQuotas` | asb_api/billing/__init__.py:62-74 | in numbers: a starter key is over from the 25001st request of the day, a pro key from the 200001st, free and enterprise keys never, any other from the first; at 0.002, 0.001 and 0 per request over |
| `Usage.OverageIsSticky` | asb_api/db/usage.py:114-131 | a key over its quota stays over for the day, each request dearer by exactly the tier's rate |
| `Usage.DailyIsMonthlyIff` | asb_api/db/usage.py:114-131 | the verdict equals that of a monthly quota if and only if the tier is exempt, today's requests exceed the quota, or the month's total does not; what is flagged is over for the month too |
| `Usage.TwoDaysUnflagged` | asb_api/db/usage.py:121-126 | a run of two days that together exceed the quota and is not flagged, for every split with the second day within it |
| `Usage.PostgresUsageTracker.Insert` | asb_api/db/usage.py:8-27 | one more record, rollups untouched |
| `Usage.PostgresUsageTracker.GetDailyUsage` | asb_api/db/usage.py:47-77 | the rollup row if there is one, else the sums over the raw records |
| `Usage.PostgresUsageTracker.CheckOverage` | asb_api/db/usage.py:114-131 | the early returns and the arithmetic give `Overage` of the two tables |
| `Usage.PostgresUsageTracker.RollupDaily` | asb_api/db/usage.py:92-112 | the day's groups replace its rollup rows, other rows stay |
| `Usage.CountsAreOfTheirDay` | asb_api/api/usage.py:14-28 | the stored count is the key's increments of the stored day, its last day of use |
| `Usage.GetCountsToday` | asb_api/api/usage.py:25-28 | for any increments and reads over any keys, `get` returns the number of the key's increments of the current day |
| `Usage.UsageTracker.NormalizeDay` | asb_api/api/usage.py:14-18 | the count is reset when the day changed, else nothing happens |
| `Usage.UsageTracker.Increment` | asb_api/api/usage.py:20-23 | new state of both dictionaries |
| `Usage.UsageTracker.Get` | asb_api/api/usage.py:25-28 | the normalised count |
| `License.ParseKeyIff` | asb_api/billing/license.py:53-67 | a text is accepted with given parts if and only if it is the printed form of them for some numeral of the expiry, token and signature being sixteen hexadecimal digits |
| `License.PrintedKeyParses` | asb_api/billing/license.py:19-67 | parsing a printed key gives back token, expiry and signature, for every integer expiry |
| `License.GeneratedKeyVerifies` | asb_api/billing/license.py:12-48 | a generated key is accepted up to its expiry and expired after it; plain verification accepts it for that expiry only |
| `License.VerifyFullIff` | asb_api/billing/license.py:21-48 | for every text, full verification accepts if and only if plain verification accepts for some expiry not yet past |
| `License.VerifyFullAnswers` | asb_api/billing/license.py:33-48 | which answer each text gets: malformed exactly if it does not parse, then expired exactly after its expiry, then a bad signature exactly if it is not that of the payload |
| `License.PayloadInjective` | asb_api/billing/license.py:50-51 | without colons in the type the payload determines type, domain, token and expiry |
| `License.SharedIffColon` | asb_api/billing/license.py:50-51 | some other type and domain share a payload if and only if its type or its domain contains a colon |
| `License.DeterminedIff` | asb_api/billing/license.py:50-51 | for any set of types in use, the payload determines type and domain for all domains if and only if no type of the set is another one followed by a colon and anything more |
| `License.SamePayloadIff` | asb_api/billing/license.py:50-51 | with one token and expiry, payloads are equal if and only if type, colon and domain read the same |
| `License.KeysDoNotTravel` | asb_api/billing/license.py:33-51 | a key accepted for two deployments needs two payloads with the same signature |
| `Text.IntRoundTrip` | asb_api/billing/license.py:19-64 | reading a printed integer gives it back |
| `Text.ParseIntIff` | asb_api/billing/license.py:64 | exactly the decimal numerals with an optional sign between ASCII blanks are read, at their decimal value |
| `Text.SplitJoin` | asb_api/billing/license.py:54 | splitting joined parts gives them back when none contains the separator |
| `Text.JoinSplit` | asb_api/billing/license.py:54 | joining split parts gives the text back |
| `Webhooks.AppliedAtMostOnce` | asb_api/api/routes/webhooks.py:20-35 | for any interleaving of deliveries, repeats and failures: the store is the fold of the applied effects, no delivery and no event id takes effect twice, and a lost event is never made up for |
| `Webhooks.EffectIffNotLost` | asb_api/api/routes/webhooks.py:55-102 | once all deliveries of an id are over its effect took place if and only if none of them lost it |
| `Webhooks.SequentialIsFold` | asb_api/api/routes/webhooks.py:55-102 | deliveries one after another leave the fold of the effects over the first occurrence of each id; events without id always apply |
| `Webhooks.StoreIsFold` | asb_api/api/routes/webhooks.py:55-102 | at every point of any run the key store is the fold of the applied deliveries |
| `Webhooks.NextInv` | asb_api/db/auth_store.py:125-137 | each step keeps: the recorded ids are exactly those owned by one accepted delivery each |
| `Webhooks.EffectsAreConfined` | asb_api/db/auth_store.py:104-191 | an event never re-addresses or revokes a key; a tier moves only by a checkout naming the key or its customer's deletion; a license lands only on its target |
| `Webhooks.CheckoutUpgrades` | asb_api/db/auth_store.py:104-123 | after a checkout naming a key and tier and any events but checkouts, the key has that tier and subscription if and only if its customer was not deleted since, and is active unless something else was announced |
| `Webhooks.LastEventDecides` | asb_api/api/routes/webhooks.py:83-102 | between checkouts a key shows the last status announced for its customer, and is free without subscription exactly from the first deletion on |
| `Webhooks.LicenseGoesToNewest` | asb_api/db/auth_store.py:147-169 | a license goes to the key named by id, or to the newest unrevoked key of the address |
| `Webhooks.LicenseHasTarget` | asb_api/api/routes/webhooks.py:76-81 | a purchase has a target if and only if it names a key id or an address some unrevoked key has |
| `Webhooks.LicenseLands` | asb_api/db/auth_store.py:147-169 | a completed purchase that is no upgrade gives license type and key text to the rows of its target and to no others |
| `Webhooks.BillingWords` | asb_api/api/routes/webhooks.py:83-102 | the status words and the tier each plain billing event writes, on the rows of its customer only |
| `Webhooks.NewestKey` | asb_api/db/auth_store.py:159-166 | an unrevoked key of the address, none of whose others is newer; none only if there is none |
| `Webhooks.WebhookRoute.RecordEventOnce` | asb_api/api/routes/webhooks.py:20-35 | true exactly for new ids and for events without one; the id is then recorded |
| `Webhooks.WebhookRoute.Receive` | asb_api/api/routes/webhooks.py:55-104 | one delivery handled: duplicates change nothing, others apply their effect; an update that raises leaves the event recorded and the keys as they were |

## Left out

- `WorkerPool` of asb_api/workers/pool.py:7-50 is the one-region case of the region pool and has no model of its own.
- Task cancellation and process crashes; start and stop of workers and providers; `get_status`, which only counts flags.
- Scheduling order of asyncio's semaphores: any waiter may be served next, so fairness between waiters is not stated.
- The browser runner, HTTP clients and provider fetches: arbitrary outcomes and arbitrary pools here.
- The breakers inside the scrape system: there each breaker may refuse at will, which covers every state it can be in; its own behaviour is in `Breaker.dfy`.
- URL validation, session ownership and cookie headers of a scrape: the step that passes or rejects an item is arbitrary.
- The limits on batch size (1 to 50 items) and the mapping of exceptions to error bodies: table lookups.
- Worker.ASBWorker.Scrape: does not model the runner's own data (html, headers, screenshot, cookies), ids and durations, nor a `release_proxy` that raises, which none of the repository's providers does; a primary and fallback that are one object count as no fallback, as in the source.
- Text.IntRoundTrip: covers ASCII text; Python's `int` also takes other Unicode digits, underscores and blanks, and refuses numerals beyond a configured length.
- Cryptography: the license signature is an arbitrary function of the payload, the cookie encryption any pair of inverses with non-empty output; failing decryption is not modelled.
- SQL: tables are sequences and maps, a statement is one step, `NOW()` and the process clock are read at the same instant, and timestamps are exact reals without microsecond rounding.
- UsageLimiter.PostgresRateLimiter.CheckMany: the advisory lock is a boolean input; the 50 ms wait between the two attempts and the hash of the key are not modelled, and neither are two keys sharing a lock id.
- UsageLimiter.LimitersAgree: speaks of checks that pass the overage check and get the lock; denials for want of either exist in the PostgreSQL limiter only.
- Sessions.StoresAgreeIff: leaves `last_used` out of the comparison, which the PostgreSQL store answers as it was before the lookup.
- Usage.OverageIsSticky: the cost is a real number; rounding of floats is not modelled.
- `get_usage_info` of both trackers, price lookup, tenants' administration, startup, the command line and the client SDKs: plumbing.
- Webhook signatures and payload parsing come before the model; a missing field of an event is one of the ways an effect is lost. A service without a key store accepts events and does nothing.
