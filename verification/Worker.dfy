/**
 * One scrape on one worker: asb_api/workers/worker.py.
 *
 * `Borrowed` and `Respond` say what a scrape does as a function of the answers it receives;
 * `ASBWorker.Scrape` is the nested try/except/finally of the source, run without interruption.
 */
module Worker {
  import opened Common
  import opened Decodo

  /** The provider a proxy was borrowed from: the worker's primary or its fallback. */
  datatype Side = Primary | Fallback

  datatype Lease = Lease(side: Side, proxy: Proxy)

  /** A provider's answer: a proxy, PoolExhaustedError/ProviderError, or any other exception. */
  datatype Reply = Granted(proxy: Proxy) | Refused | Broke

  datatype RunResult = FingerprintError | RunnerError | Page(blocked: bool)

  /** Everything a scrape learns from the outside while it runs. */
  datatype Answers = Answers(started: bool, primary: Reply, fallback: Reply, run: RunResult)

  /** `fallback` is absent also when it is the same object as the primary. */
  datatype Setup = Setup(primary: string, fallback: Option<string>)

  datatype Status = Success | WorkerError | WorkerNotStarted

  datatype Response = Response(status: Status, provider: string, blocked: bool)

  /** What the proxy stage ends with. */
  datatype Supply = Unavailable | Direct | From(lease: Lease)

  function ProxyStage(setup: Setup, a: Answers): Supply {
    if setup.primary == "null" then Direct
    else match a.primary
      case Granted(p) => From(Lease(Primary, p))
      case Broke => Unavailable
      case Refused => if setup.fallback.Some? && a.fallback.Granted?
                      then From(Lease(Fallback, a.fallback.proxy)) else Unavailable
  }

  function Borrowed(setup: Setup, a: Answers): seq<Lease> {
    if a.started && ProxyStage(setup, a).From? then [ProxyStage(setup, a).lease] else []
  }

  function ProviderName(setup: Setup, supply: Supply): string {
    if supply.From? && supply.lease.side.Fallback? && setup.fallback.Some?
    then setup.fallback.value else setup.primary
  }

  function Respond(setup: Setup, a: Answers): Response {
    if !a.started then Response(WorkerNotStarted, setup.primary, false)
    else
      var supply := ProxyStage(setup, a);
      if !supply.Unavailable? && a.run.Page?
      then Response(Success, ProviderName(setup, supply), a.run.blocked)
      else Response(WorkerError, ProviderName(setup, supply), false)
  }

  /** The primary hands out a proxy. */
  predicate PrimaryServes(setup: Setup, a: Answers) {
    a.started && setup.primary != "null" && a.primary.Granted?
  }

  /** The primary has none to give and the configured fallback hands out one. */
  predicate FallbackServes(setup: Setup, a: Answers) {
    a.started && setup.primary != "null" && a.primary.Refused? && setup.fallback.Some? && a.fallback.Granted?
  }

  /** The worker runs, has the proxy it needs if any, and fetches the page. */
  predicate Served(setup: Setup, a: Answers) {
    && a.started && a.run.Page?
    && (setup.primary == "null" || PrimaryServes(setup, a) || FallbackServes(setup, a))
  }

  /** The response and the proxies of a scrape, from the answers it received. */
  predicate TrueTo(setup: Setup, a: Answers, r: Response, leases: seq<Lease>) {
    && (r.status == WorkerNotStarted <==> !a.started)
    && (r.status == Success <==> Served(setup, a))
    && r.blocked == (Served(setup, a) && a.run.blocked)
    && (if PrimaryServes(setup, a) then leases == [Lease(Primary, a.primary.proxy)] && r.provider == setup.primary
        else if FallbackServes(setup, a)
        then leases == [Lease(Fallback, a.fallback.proxy)] && r.provider == setup.fallback.value
        else leases == [] && r.provider == setup.primary)
  }

  /** `Respond` and `Borrowed` say that a served scrape succeeds and every other one is an error. */
  lemma RespondIsTrue(setup: Setup, a: Answers)
    ensures TrueTo(setup, a, Respond(setup, a), Borrowed(setup, a))
  {
  }

  /** Proxies of the leases on one side, in order. */
  function OnSide(leases: seq<Lease>, side: Side): seq<Proxy> {
    if leases == [] then []
    else (if leases[0].side == side then [leases[0].proxy] else []) + OnSide(leases[1..], side)
  }

  /**
   * The response names the supplier: with a proxy in hand, the side that granted it; the fallback is only
   * named after it granted one, and only when the primary refused.
   */
  lemma ResponseNamesSupplier(setup: Setup, a: Answers)
    ensures |Borrowed(setup, a)| <= 1
    ensures Borrowed(setup, a) == [] ==> Respond(setup, a).provider == setup.primary
    ensures forall p :: Borrowed(setup, a) == [Lease(Primary, p)] ==>
              a.primary == Granted(p) && Respond(setup, a).provider == setup.primary
    ensures forall p :: Borrowed(setup, a) == [Lease(Fallback, p)] ==>
              a.primary == Refused && a.fallback == Granted(p) && Some(Respond(setup, a).provider) == setup.fallback
    ensures Respond(setup, a).status == Success ==>
              a.run.Page? && (setup.primary == "null" || Borrowed(setup, a) != [])
  {
  }

  /** A proxy provider with a record of what it handed out and what came back. */
  class ProxySource {
    const name: string
    var granted: seq<Proxy>
    var released: seq<Proxy>

    constructor (name: string)
      ensures this.name == name && granted == [] && released == []
    {
      this.name := name;
      granted, released := [], [];
    }

    method GetProxy(reply: Reply) returns (r: Reply)
      modifies this
      ensures r == reply && released == old(released)
      ensures granted == old(granted) + if reply.Granted? then [reply.proxy] else []
    {
      if reply.Granted? {
        granted := granted + [reply.proxy];
      }
      r := reply;
    }

    method ReleaseProxy(p: Proxy)
      modifies this
      ensures granted == old(granted) && released == old(released) + [p]
    {
      released := released + [p];
    }
  }

  datatype WorkerState = WorkerState(busy: bool, leaseRegion: Option<string>, lastBreaker: Option<Side>)

  const IDLE := WorkerState(false, None, None)

  function SetupOf(primary: ProxySource, fallback: ProxySource?): (s: Setup)
    ensures s.primary == primary.name
    ensures s.fallback == None <==> fallback == null || fallback == primary
    ensures s.fallback.Some? ==> s.fallback.value == fallback.name
  {
    Setup(primary.name, if fallback != null && fallback != primary then Some(fallback.name) else None)
  }

  class ASBWorker {
    var busy: bool
    var leaseRegion: Option<string>
    var lastBreaker: Option<Side>

    constructor ()
      ensures State() == IDLE
    {
      busy, leaseRegion, lastBreaker := false, None, None;
    }

    function State(): WorkerState
      reads this
    {
      WorkerState(busy, leaseRegion, lastBreaker)
    }

    /** Every proxy granted during the scrape is handed back once, to the source that granted it. */
    method Scrape(primary: ProxySource, fallback: ProxySource?, a: Answers) returns (response: Response)
      modifies this`lastBreaker, primary, fallback
      ensures response == Respond(SetupOf(primary, fallback), a)
      ensures TrueTo(SetupOf(primary, fallback), a, response, Borrowed(SetupOf(primary, fallback), a))
      ensures lastBreaker == if a.started then None else old(lastBreaker)
      ensures var leases := Borrowed(SetupOf(primary, fallback), a);
              && primary.granted == old(primary.granted) + OnSide(leases, Primary)
              && primary.released == old(primary.released) + OnSide(leases, Primary)
              && (fallback != null && fallback != primary ==>
                    && fallback.granted == old(fallback.granted) + OnSide(leases, Fallback)
                    && fallback.released == old(fallback.released) + OnSide(leases, Fallback))
    {
      var used := primary.name;
      if !a.started {
        return Response(WorkerNotStarted, used, false);
      }
      var proxy: Option<Proxy> := None;
      var failed := false;
      if primary.name != "null" {
        var breaker := Primary;
        var reply := primary.GetProxy(a.primary);
        if reply.Refused? && fallback != null && fallback != primary {
          breaker := Fallback;
          reply := fallback.GetProxy(a.fallback);
          if reply.Granted? {
            used := fallback.name;
          }
        }
        if reply.Granted? {
          proxy := Some(reply.proxy);
          lastBreaker := Some(breaker);
        } else {
          failed := true;
        }
      } else {
        lastBreaker := None;
      }
      if failed || !a.run.Page? {
        response := Response(WorkerError, used, false);
      } else {
        response := Response(Success, used, a.run.blocked);
      }
      if proxy.Some? && lastBreaker == Some(Primary) {
        primary.ReleaseProxy(proxy.value);
      } else if proxy.Some? && lastBreaker == Some(Fallback) && fallback != null {
        fallback.ReleaseProxy(proxy.value);
      }
      lastBreaker := None;
    }
  }
}
