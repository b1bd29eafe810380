/**
 * The per-region worker pool of asb_api/workers/pool.py.
 *
 * `Pool` is the pool as a value: semaphore permits and worker flags per region, with one function for
 * each stretch of the source between two awaits.  `RegionWorkerPool` is the pool as the source has it,
 * an object that updates its workers in place; its methods are specified by those functions.
 */
module WorkerPool {
  import opened Common
  import opened Worker

  datatype WorkerId = WorkerId(region: string, index: nat)

  datatype Pool = Pool(
    defaultRegion: string,
    sizes: map<string, nat>,
    permits: map<string, nat>,
    workers: map<string, seq<WorkerState>>)
  {
    /** The shape every operation keeps; `default_region` is a pool key and no region is empty. */
    predicate WellFormed() {
      && permits.Keys == sizes.Keys
      && workers.Keys == sizes.Keys
      && defaultRegion in sizes
      && (forall r :: r in sizes ==> sizes[r] >= 1 && |workers[r]| == sizes[r] && permits[r] <= sizes[r])
    }

    predicate Has(w: WorkerId) {
      w.region in sizes && w.index < sizes[w.region]
    }

    function At(w: WorkerId): WorkerState
      requires WellFormed() && Has(w)
    {
      workers[w.region][w.index]
    }

    function Put(w: WorkerId, st: WorkerState): (p: Pool)
      requires WellFormed() && Has(w)
      ensures p.WellFormed() && p.sizes == sizes && p.permits == permits && p.defaultRegion == defaultRegion
      ensures p.At(w) == st
      ensures forall v: WorkerId :: v != w && Has(v) ==> p.At(v) == At(v)
    {
      this.(workers := workers[w.region := workers[w.region][w.index := st]])
    }

    function Normalize(region: Option<string>): (r: string)
      ensures r == if region.Some? && region.value != "" && region.value in sizes then region.value else defaultRegion
      ensures defaultRegion in sizes ==> r in sizes
    {
      var r := OrElse(region, defaultRegion);
      if r in sizes then r else defaultRegion
    }

    function TakePermit(r: string): (p: Pool)
      requires WellFormed() && r in sizes && permits[r] > 0
      ensures p.WellFormed() && p.sizes == sizes && p.defaultRegion == defaultRegion
    {
      this.(permits := permits[r := permits[r] - 1])
    }

    /** `None` is the BoundedSemaphore's ValueError: more releases than acquisitions. */
    function GivePermit(r: string): (p: Option<Pool>)
      requires WellFormed() && r in sizes
      ensures p.Some? ==> p.value.WellFormed() && p.value.sizes == sizes && p.value.defaultRegion == defaultRegion
    {
      if permits[r] < sizes[r] then Some(this.(permits := permits[r := permits[r] + 1])) else None
    }

    /** The scan under the lease lock: the first idle worker of the region is marked busy. */
    function Lease(r: string): (p: Pool)
      requires WellFormed() && r in sizes
      ensures p.WellFormed() && p.sizes == sizes && p.defaultRegion == defaultRegion
    {
      var i := FirstIdle(workers[r]);
      if i < |workers[r]|
      then Put(WorkerId(r, i), workers[r][i].(busy := true, leaseRegion := Some(r)))
      else this
    }

    /** The region whose permit `release` hands back: the leased one, else what the caller passed. */
    function ReleaseRegion(w: WorkerId, caller: Option<string>): (r: string)
      requires WellFormed() && Has(w)
    {
      var st := At(w);
      if st.leaseRegion.Some? && st.leaseRegion.value != "" then st.leaseRegion.value else Normalize(caller)
    }

    /** `None` where the semaphore is unknown (KeyError) or already full (ValueError). */
    function Release(w: WorkerId, caller: Option<string>): (p: Option<Pool>)
      requires WellFormed() && Has(w)
      ensures p.Some? ==> p.value.WellFormed() && p.value.sizes == sizes && p.value.defaultRegion == defaultRegion
    {
      var r := ReleaseRegion(w, caller);
      if r in sizes then Put(w, At(w).(busy := false, leaseRegion := None)).GivePermit(r) else None
    }
  }

  /**
   * Whatever region the caller passes, the permit goes back to the region the worker was leased from, unless
   * that region's name is the empty string, which Python takes for a missing lease.
   */
  lemma ReleaseRestoresLease(p: Pool, w: WorkerId, caller: Option<string>)
    requires p.WellFormed() && p.Has(w) && p.At(w).leaseRegion == Some(w.region)
    ensures p.ReleaseRegion(w, caller) == w.region <==> w.region != "" || p.Normalize(caller) == ""
  {
  }

  /** Index of the first idle worker, or the length of the list when all are busy. */
  function FirstIdle(ws: seq<WorkerState>): (i: nat)
    ensures i <= |ws|
    ensures forall j :: 0 <= j < i ==> ws[j].busy
    ensures i < |ws| ==> !ws[i].busy
  {
    if ws == [] then 0 else if !ws[0].busy then 0 else 1 + FirstIdle(ws[1..])
  }

  function Busy(ws: seq<WorkerState>): (n: nat)
    ensures n <= |ws|
  {
    if ws == [] then 0 else (if ws[0].busy then 1 else 0) + Busy(ws[1..])
  }

  lemma {:induction false} BusyUpdate(ws: seq<WorkerState>, i: nat, st: WorkerState)
    requires i < |ws|
    ensures Busy(ws[i := st]) == Busy(ws) - (if ws[i].busy then 1 else 0) + (if st.busy then 1 else 0)
  {
    if i > 0 {
      assert ws[i := st][1..] == ws[1..][i - 1 := st];
      BusyUpdate(ws[1..], i - 1, st);
    } else {
      assert ws[i := st][1..] == ws[1..];
    }
  }

  /** While fewer workers are busy than exist, the scan finds an idle one, so `acquire` cannot raise. */
  lemma {:induction false} ScanFindsIdle(ws: seq<WorkerState>)
    ensures FirstIdle(ws) < |ws| <==> Busy(ws) < |ws|
  {
    if ws != [] {
      ScanFindsIdle(ws[1..]);
    }
  }

  ghost predicate Injective(workers: map<string, seq<ASBWorker>>) {
    forall r, i, q, j | r in workers && 0 <= i < |workers[r]| && q in workers && 0 <= j < |workers[q]| ::
      workers[r][i] == workers[q][j] ==> r == q && i == j
  }

  ghost predicate Covers(workers: map<string, seq<ASBWorker>>, all: set<ASBWorker>) {
    forall r, i :: r in workers && 0 <= i < |workers[r]| ==> workers[r][i] in all
  }

  method NewWorkers(n: nat) returns (ws: seq<ASBWorker>, all: set<ASBWorker>)
    ensures |ws| == n && fresh(all)
    ensures forall i :: 0 <= i < n ==> ws[i] in all && ws[i].State() == IDLE
    ensures forall i, j :: 0 <= i < j < n ==> ws[i] != ws[j]
  {
    ws, all := [], {};
    while |ws| < n
      invariant |ws| <= n && fresh(all)
      invariant forall i :: 0 <= i < |ws| ==> ws[i] in all && ws[i].State() == IDLE
      invariant forall i, j :: 0 <= i < j < |ws| ==> ws[i] != ws[j]
    {
      var w := new ASBWorker();
      ws, all := ws + [w], all + {w};
    }
  }

  method NewRegions(sizes: map<string, nat>) returns (workers: map<string, seq<ASBWorker>>, all: set<ASBWorker>)
    ensures workers.Keys == sizes.Keys && fresh(all)
    ensures Covers(workers, all) && Injective(workers)
    ensures forall r :: r in workers ==> |workers[r]| == sizes[r]
    ensures forall r, i :: r in workers && 0 <= i < |workers[r]| ==> workers[r][i].State() == IDLE
  {
    workers, all := map[], {};
    var left := sizes.Keys;
    while left != {}
      invariant left <= sizes.Keys && workers.Keys == sizes.Keys - left && fresh(all)
      invariant Covers(workers, all) && Injective(workers)
      invariant forall r :: r in workers ==> |workers[r]| == sizes[r]
      invariant forall r, i :: r in workers && 0 <= i < |workers[r]| ==> workers[r][i].State() == IDLE
      decreases left
    {
      var r :| r in left;
      var ws, more := NewWorkers(sizes[r]);
      workers, all, left := workers[r := ws], all + more, left - {r};
    }
  }

  class RegionWorkerPool {
    const defaultRegion: string
    const sizes: map<string, nat>
    const workers: map<string, seq<ASBWorker>>
    const allWorkers: set<ASBWorker>
    var permits: map<string, nat>
    ghost var state: Pool

    ghost predicate Valid()
      reads this, allWorkers
    {
      && state.WellFormed()
      && state.defaultRegion == defaultRegion && state.sizes == sizes && state.permits == permits
      && workers.Keys == sizes.Keys
      && (forall r :: r in sizes ==> |workers[r]| == sizes[r])
      && Covers(workers, allWorkers) && Injective(workers)
      && (forall r, i :: r in sizes && 0 <= i < sizes[r] ==> Tracks(r, i))
    }

    ghost predicate Tracks(r: string, i: nat)
      requires r in sizes && r in workers && r in state.workers
      requires i < |workers[r]| && i < |state.workers[r]|
      reads this, workers[r][i]
    {
      state.workers[r][i] == workers[r][i].State()
    }

    constructor (workersPerRegion: map<string, nat>, defaultRegion: string)
      requires defaultRegion in workersPerRegion
      requires forall r :: r in workersPerRegion ==> workersPerRegion[r] >= 1
      ensures Valid() && fresh(allWorkers)
      ensures state.sizes == workersPerRegion == state.permits && state.defaultRegion == defaultRegion
      ensures forall r :: r in workersPerRegion ==> Busy(state.workers[r]) == 0
    {
      var built, all := NewRegions(workersPerRegion);
      this.defaultRegion := defaultRegion;
      this.sizes := workersPerRegion;
      this.workers := built;
      this.allWorkers := all;
      this.permits := workersPerRegion;
      this.state := Pool(defaultRegion, workersPerRegion, workersPerRegion,
                         map r | r in workersPerRegion :: seq(workersPerRegion[r], i => IDLE));
      new;
      forall r | r in workersPerRegion
        ensures Busy(state.workers[r]) == 0
      {
        AllIdle(state.workers[r]);
      }
    }

    /** `await self.pools[region].acquire()`: false where the caller would be suspended. */
    method TakePermit(region: Option<string>) returns (r: string, ok: bool)
      requires Valid()
      modifies this
      ensures Valid() && unchanged(allWorkers)
      ensures r == old(state).Normalize(region)
      ensures ok <==> old(permits)[r] > 0
      ensures state == if ok then old(state).TakePermit(r) else old(state)
    {
      r := OrElse(region, defaultRegion);
      if r !in permits {
        r := defaultRegion;
      }
      ok := permits[r] > 0;
      if ok {
        permits := permits[r := permits[r] - 1];
        state := state.TakePermit(r);
        forall q, j | q in sizes && 0 <= j < sizes[q]
          ensures Tracks(q, j)
        {
          assert old(Tracks(q, j));
        }
      }
    }

    /** The rest of `acquire`: scan for an idle worker; `None` is the RuntimeError, permit given back. */
    method LeaseWorker(r: string) returns (w: Option<WorkerId>)
      requires Valid() && r in sizes
      requires permits[r] < sizes[r]
      modifies this, allWorkers
      ensures Valid()
      ensures w.Some? <==> Busy(old(state).workers[r]) < sizes[r]
      ensures w.Some? ==> old(state).Has(w.value) && w.value.region == r && !old(state).At(w.value).busy
      ensures w.Some? ==> state == old(state).Lease(r) && state.At(w.value).busy
      ensures w.None? ==> Some(state) == old(state).GivePermit(r)
    {
      ScanFindsIdle(state.workers[r]);
      var i := 0;
      while i < |workers[r]|
        invariant 0 <= i <= |workers[r]|
        invariant Valid() && state == old(state) && unchanged(this) && unchanged(allWorkers)
        invariant forall j :: 0 <= j < i ==> state.workers[r][j].busy
      {
        assert Tracks(r, i);
        if !workers[r][i].busy {
          FirstIdleIs(state.workers[r], i);
          workers[r][i].busy := true;
          workers[r][i].leaseRegion := Some(r);
          state := state.Lease(r);
          forall q, j | q in sizes && 0 <= j < sizes[q]
            ensures Tracks(q, j)
          {
            assert old(Tracks(q, j)) && (workers[q][j] == workers[r][i] ==> q == r && j == i);
          }
          return Some(WorkerId(r, i));
        }
        i := i + 1;
      }
      var freed := GivePermit(r);
      assert freed;
      return None;
    }

    /** `self.pools[region].release()`: false is the ValueError of a full semaphore. */
    method GivePermit(r: string) returns (ok: bool)
      requires Valid() && r in sizes
      modifies this
      ensures Valid()
      ensures ok <==> old(permits)[r] < sizes[r]
      ensures if ok then Some(state) == old(state).GivePermit(r) else state == old(state)
    {
      ok := permits[r] < sizes[r];
      if !ok {
        return;
      }
      permits := permits[r := permits[r] + 1];
      state := state.GivePermit(r).value;
      forall q, j | q in sizes && 0 <= j < sizes[q]
        ensures Tracks(q, j)
      {
        assert old(Tracks(q, j));
      }
    }

    method MarkIdle(w: WorkerId)
      requires Valid() && state.Has(w)
      modifies this, allWorkers
      ensures Valid() && permits == old(permits)
      ensures state == old(state).Put(w, old(state).At(w).(busy := false, leaseRegion := None))
    {
      var worker := workers[w.region][w.index];
      assert Tracks(w.region, w.index);
      worker.busy := false;
      worker.leaseRegion := None;
      state := state.Put(w, state.At(w).(busy := false, leaseRegion := None));
      forall q, j | q in sizes && 0 <= j < sizes[q]
        ensures Tracks(q, j)
      {
        assert old(Tracks(q, j)) && (workers[q][j] == worker ==> q == w.region && j == w.index);
      }
    }

    /** False where the release raises; the worker's flags are reset all the same. */
    method Release(w: WorkerId, region: Option<string>) returns (ok: bool)
      requires Valid() && state.Has(w)
      modifies this, allWorkers
      ensures Valid()
      ensures ok <==> old(state).Release(w, region).Some?
      ensures ok ==> Some(state) == old(state).Release(w, region)
      ensures !ok ==> state == old(state).Put(w, old(state).At(w).(busy := false, leaseRegion := None))
    {
      assert Tracks(w.region, w.index);
      var r := OrElse(workers[w.region][w.index].leaseRegion, "");
      if r == "" {
        r := OrElse(region, defaultRegion);
        if r !in permits {
          r := defaultRegion;
        }
      }
      MarkIdle(w);
      if r !in permits {
        return false;
      }
      ok := GivePermit(r);
    }
  }

  lemma {:induction false} AllIdle(ws: seq<WorkerState>)
    requires forall i :: 0 <= i < |ws| ==> !ws[i].busy
    ensures Busy(ws) == 0
  {
    if ws != [] {
      AllIdle(ws[1..]);
    }
  }

  lemma {:induction false} FirstIdleIs(ws: seq<WorkerState>, i: nat)
    requires i < |ws| && !ws[i].busy
    requires forall j :: 0 <= j < i ==> ws[j].busy
    ensures FirstIdle(ws) == i
  {
    if i > 0 {
      FirstIdleIs(ws[1..], i - 1);
    }
  }
}
