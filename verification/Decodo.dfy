/**
 * The leasing provider of asb_api/providers/decodo.py: proxies are handed out under a `host:port` key that
 * stays in the in-use set until released, while a background task replaces the whole pool.
 */
module Decodo {
  import opened Common
  import opened Text

  datatype Proxy = Proxy(host: string, port: int, username: Option<string>, password: Option<string>)

  function ProxyKey(p: Proxy): string {
    p.host + ":" + IntString(p.port)
  }

  /** One key per endpoint: the printed key determines host and port, colons in the host notwithstanding. */
  lemma ProxyKeyIdentifiesEndpoint(p: Proxy, q: Proxy)
    ensures ProxyKey(p) == ProxyKey(q) <==> p.host == q.host && p.port == q.port
  {
    if ProxyKey(p) == ProxyKey(q) {
      LastSeparator(p.host, IntString(p.port), q.host, IntString(q.port), ':');
      IntStringInjective(p.port, q.port);
    }
  }

  /** An entry of the pool dictionary; the sequence of entries is its insertion order. */
  datatype RegionPool = RegionPool(region: string, proxies: seq<Proxy>)

  function Lookup(pools: seq<RegionPool>, region: string): seq<Proxy> {
    if pools == [] then []
    else if pools[0].region == region then pools[0].proxies
    else Lookup(pools[1..], region)
  }

  function PoolKeys(pools: seq<RegionPool>): set<string> {
    set entry, p | entry in pools && p in entry.proxies :: ProxyKey(p)
  }

  /** Position of the first proxy whose key is free, or the length of the list. */
  function FirstFree(proxies: seq<Proxy>, inUse: set<string>): (i: nat)
    ensures i <= |proxies|
    ensures forall j :: 0 <= j < i ==> ProxyKey(proxies[j]) in inUse
    ensures i < |proxies| ==> ProxyKey(proxies[i]) !in inUse
  {
    if proxies == [] then 0
    else if ProxyKey(proxies[0]) !in inUse then 0
    else 1 + FirstFree(proxies[1..], inUse)
  }

  /** Entry `i` is the one a region's name finds: the first of that name. */
  predicate EntryOf(pools: seq<RegionPool>, region: string, i: nat) {
    i < |pools| && pools[i].region == region && forall j :: 0 <= j < i ==> pools[j].region != region
  }

  /** A region's list is that of its entry, and empty without one. */
  lemma {:induction false} LookupFinds(pools: seq<RegionPool>, region: string)
    ensures forall i: nat :: EntryOf(pools, region, i) ==> Lookup(pools, region) == pools[i].proxies
    ensures (forall i: nat :: !EntryOf(pools, region, i)) <==>
              forall i :: 0 <= i < |pools| ==> pools[i].region != region
    ensures Lookup(pools, region) == [] <==>
              (forall i :: 0 <= i < |pools| ==> pools[i].region != region) ||
              exists i: nat :: EntryOf(pools, region, i) && pools[i].proxies == []
  {
    if pools != [] {
      var rest := pools[1..];
      LookupFinds(rest, region);
      if pools[0].region == region {
        assert EntryOf(pools, region, 0);
      } else {
        EntryShifts(pools, region);
      }
    }
  }

  lemma EntryShifts(pools: seq<RegionPool>, region: string)
    requires pools != [] && pools[0].region != region
    ensures forall i: nat :: EntryOf(pools, region, i) <==> i > 0 && EntryOf(pools[1..], region, i - 1)
    ensures forall i: nat :: EntryOf(pools[1..], region, i) ==> EntryOf(pools, region, i + 1)
    ensures (forall i :: 0 <= i < |pools| ==> pools[i].region != region) <==>
            forall i :: 0 <= i < |pools[1..]| ==> pools[1..][i].region != region
  {
    forall i: nat
      ensures EntryOf(pools, region, i) <==> i > 0 && EntryOf(pools[1..], region, i - 1)
    {
      if i > 0 && EntryOf(pools, region, i) {
        assert forall j :: 0 <= j < i - 1 ==> pools[1..][j] == pools[j + 1];
      }
      if i > 0 && EntryOf(pools[1..], region, i - 1) {
        assert forall j :: 0 < j < i ==> pools[j] == pools[1..][j - 1];
      }
    }
    assert forall i :: 0 < i < |pools| ==> pools[i] == pools[1..][i - 1];
    assert forall i :: 0 <= i < |pools[1..]| ==> pools[1..][i] == pools[i + 1];
  }

  datatype ProxyPool = ProxyPool(defaultRegion: string, pools: seq<RegionPool>, inUse: set<string>) {
    /** An empty or unknown region falls back to the first region of the dictionary. */
    function Candidates(region: Option<string>): (ps: seq<Proxy>)
      ensures forall p :: p in ps ==> ProxyKey(p) in PoolKeys(pools)
      ensures Lookup(pools, OrElse(region, defaultRegion)) != [] ==> ps == Lookup(pools, OrElse(region, defaultRegion))
      ensures Lookup(pools, OrElse(region, defaultRegion)) == [] && pools != [] ==> ps == pools[0].proxies
      ensures ps == [] ==> Lookup(pools, OrElse(region, defaultRegion)) == []
    {
      LookupInPool(pools, OrElse(region, defaultRegion));
      var own := Lookup(pools, OrElse(region, defaultRegion));
      if own != [] then own else if pools != [] then pools[0].proxies else []
    }

    /** `get_proxy`: `None` is PoolExhaustedError. */
    function Get(region: Option<string>): (r: (ProxyPool, Option<Proxy>))
      ensures r.1.Some? <==> exists p :: p in Candidates(region) && ProxyKey(p) !in inUse
      ensures r.1.Some? ==> exists i :: 0 <= i < |Candidates(region)| && Candidates(region)[i] == r.1.value &&
                              forall j :: 0 <= j < i ==> ProxyKey(Candidates(region)[j]) in inUse
      ensures r.1.Some? ==> ProxyKey(r.1.value) in PoolKeys(pools) - inUse
      ensures r.0 == if r.1.Some? then this.(inUse := inUse + {ProxyKey(r.1.value)}) else this
    {
      var ps := Candidates(region);
      var i := FirstFree(ps, inUse);
      if i < |ps| then (this.(inUse := inUse + {ProxyKey(ps[i])}), Some(ps[i])) else (this, None)
    }

    function Release(p: Proxy): ProxyPool {
      this.(inUse := inUse - {ProxyKey(p)})
    }

    function Replace(newPools: seq<RegionPool>): ProxyPool {
      this.(pools := newPools, inUse := inUse * PoolKeys(newPools))
    }
  }

  /** The first proxy of the list whose key is not in use, if there is one. */
  predicate FirstFreeOf(ps: seq<Proxy>, inUse: set<string>, granted: Option<Proxy>) {
    if granted == None then forall k :: 0 <= k < |ps| ==> ProxyKey(ps[k]) in inUse
    else exists k :: 0 <= k < |ps| && IsFirstFree(ps, inUse, k) && ps[k] == granted.value
  }

  predicate IsFirstFree(ps: seq<Proxy>, inUse: set<string>, k: nat) {
    k < |ps| && ProxyKey(ps[k]) !in inUse && forall j :: 0 <= j < k ==> ProxyKey(ps[j]) in inUse
  }

  /**
   * Which proxy a request gets: the first free one of the list of the region it names, an empty name meaning the
   * default region; only if that region has no list or an empty one, of the first list of the dictionary.
   */
  ghost predicate Grants(d: ProxyPool, region: Option<string>, granted: Option<Proxy>) {
    var name := if region.Some? && region.value != "" then region.value else d.defaultRegion;
    && (forall i: nat :: EntryOf(d.pools, name, i) && d.pools[i].proxies != [] ==>
          FirstFreeOf(d.pools[i].proxies, d.inUse, granted))
    && ((forall i: nat :: EntryOf(d.pools, name, i) ==> d.pools[i].proxies == []) ==>
          FirstFreeOf(if d.pools == [] then [] else d.pools[0].proxies, d.inUse, granted))
  }

  lemma GetGrants(d: ProxyPool, region: Option<string>)
    ensures Grants(d, region, d.Get(region).1)
  {
    var ps, granted := d.Candidates(region), d.Get(region).1;
    assert FirstFreeOf(ps, d.inUse, granted) by {
      if granted.Some? {
        var k :| 0 <= k < |ps| && ps[k] == granted.value && forall j :: 0 <= j < k ==> ProxyKey(ps[j]) in d.inUse;
        assert IsFirstFree(ps, d.inUse, k);
      }
    }
    LookupFinds(d.pools, OrElse(region, d.defaultRegion));
  }

  /** A refresh keeps a key exactly when some list of the new pool has a proxy with that host and port. */
  lemma KeptByRefresh(d: ProxyPool, newPools: seq<RegionPool>, p: Proxy)
    ensures ProxyKey(p) in d.Replace(newPools).inUse <==>
              ProxyKey(p) in d.inUse &&
              exists i, k :: 0 <= i < |newPools| && 0 <= k < |newPools[i].proxies| &&
                             newPools[i].proxies[k].host == p.host && newPools[i].proxies[k].port == p.port
  {
    if ProxyKey(p) in PoolKeys(newPools) {
      var entry, q :| entry in newPools && q in entry.proxies && ProxyKey(q) == ProxyKey(p);
      ProxyKeyIdentifiesEndpoint(q, p);
      var i :| 0 <= i < |newPools| && newPools[i] == entry;
      var k :| 0 <= k < |entry.proxies| && entry.proxies[k] == q;
      assert newPools[i].proxies[k].host == p.host;
    }
    forall i, k | 0 <= i < |newPools| && 0 <= k < |newPools[i].proxies| &&
                  newPools[i].proxies[k].host == p.host && newPools[i].proxies[k].port == p.port
      ensures ProxyKey(p) in PoolKeys(newPools)
    {
      ProxyKeyIdentifiesEndpoint(newPools[i].proxies[k], p);
      assert newPools[i] in newPools && newPools[i].proxies[k] in newPools[i].proxies;
    }
  }

  lemma {:induction false} LookupInPool(pools: seq<RegionPool>, region: string)
    ensures forall p :: p in Lookup(pools, region) ==> ProxyKey(p) in PoolKeys(pools)
  {
    if pools != [] {
      LookupInPool(pools[1..], region);
      assert PoolKeys(pools[1..]) <= PoolKeys(pools);
    }
  }

  /** Keys of the leases currently held, by holder. */
  function LeasedKeys(leases: map<nat, Proxy>): set<string> {
    set t | t in leases :: ProxyKey(leases[t])
  }

  /** No key is in use unless it is in the pool and some live lease carries it. */
  ghost predicate NoLeak(d: ProxyPool, leases: map<nat, Proxy>) {
    d.inUse <= PoolKeys(d.pools) && d.inUse <= LeasedKeys(leases)
  }

  ghost predicate Distinct(leases: map<nat, Proxy>) {
    forall t, u :: t in leases && u in leases && t != u ==> ProxyKey(leases[t]) != ProxyKey(leases[u])
  }

  /** The in-use set is exactly the leased keys and no two leases share one. */
  ghost predicate Exact(d: ProxyPool, leases: map<nat, Proxy>) {
    d.inUse <= PoolKeys(d.pools) && d.inUse == LeasedKeys(leases) && Distinct(leases)
  }

  lemma LeaseMore(leases: map<nat, Proxy>, t: nat, p: Proxy)
    requires t !in leases
    ensures LeasedKeys(leases[t := p]) == LeasedKeys(leases) + {ProxyKey(p)}
    ensures Distinct(leases) && ProxyKey(p) !in LeasedKeys(leases) ==> Distinct(leases[t := p])
  {
    var after := leases[t := p];
    assert after[t] == p;
    forall k | k in LeasedKeys(leases)
      ensures k in LeasedKeys(after)
    {
      var u :| u in leases && ProxyKey(leases[u]) == k;
      assert u in after && after[u] == leases[u];
    }
    assert forall u :: u in leases ==> after[u] == leases[u] && ProxyKey(leases[u]) in LeasedKeys(leases);
  }

  lemma GrantKeeps(d: ProxyPool, leases: map<nat, Proxy>, t: nat, region: Option<string>)
    requires t !in leases && d.Get(region).1.Some?
    ensures NoLeak(d, leases) ==> NoLeak(d.Get(region).0, leases[t := d.Get(region).1.value])
    ensures Exact(d, leases) ==> Exact(d.Get(region).0, leases[t := d.Get(region).1.value])
  {
    var (d', granted) := d.Get(region);
    LeaseMore(leases, t, granted.value);
    assert d'.inUse == d.inUse + {ProxyKey(granted.value)} && d'.pools == d.pools;
  }

  lemma ReleaseKeeps(d: ProxyPool, leases: map<nat, Proxy>, t: nat)
    requires t in leases
    ensures NoLeak(d, leases) ==> NoLeak(d.Release(leases[t]), leases - {t})
    ensures Exact(d, leases) ==> Exact(d.Release(leases[t]), leases - {t})
  {
    var after := leases - {t};
    forall k | k in LeasedKeys(leases) && k != ProxyKey(leases[t])
      ensures k in LeasedKeys(after)
    {
      var u :| u in leases && ProxyKey(leases[u]) == k;
      assert u in after && after[u] == leases[u];
    }
  }

  /** A refresh never invents a leak, and it keeps leases exact just when it keeps every leased key. */
  lemma RefreshKeeps(d: ProxyPool, leases: map<nat, Proxy>, newPools: seq<RegionPool>)
    ensures NoLeak(d, leases) ==> NoLeak(d.Replace(newPools), leases)
    ensures Exact(d, leases) ==> (Exact(d.Replace(newPools), leases) <==> LeasedKeys(leases) <= PoolKeys(newPools))
  {
  }

  lemma OnlyProxy(d: ProxyPool, p: Proxy, region: Option<string>)
    ensures var pools := [RegionPool(OrElse(region, d.defaultRegion), [p])];
            d.Replace(pools).Get(region).1 == if ProxyKey(p) in d.inUse then None else Some(p)
  {
    var pools := [RegionPool(OrElse(region, d.defaultRegion), [p])];
    var d' := d.Replace(pools);
    assert Lookup(pools, OrElse(region, d.defaultRegion)) == [p] && d'.Candidates(region) == [p];
    assert p in pools[0].proxies && pools[0] in pools && ProxyKey(p) in PoolKeys(pools);
  }

  /** A leased key that leaves the pool in one refresh and returns in another is handed out a second time. */
  lemma DoubleLeaseAfterReturn(d: ProxyPool, leases: map<nat, Proxy>, t: nat,
                             without: seq<RegionPool>, region: Option<string>)
    requires t in leases && ProxyKey(leases[t]) !in PoolKeys(without)
    ensures var returned := [RegionPool(OrElse(region, d.defaultRegion), [leases[t]])];
            d.Replace(without).Replace(returned).Get(region).1 == Some(leases[t])
  {
    OnlyProxy(d.Replace(without), leases[t], region);
  }

  /** Some refresh followed by some request hands out an endpoint that is leased. */
  ghost predicate CanDouble(d: ProxyPool, leases: map<nat, Proxy>) {
    exists pools, region :: Regrants(d, leases, pools, region)
  }

  predicate Regrants(d: ProxyPool, leases: map<nat, Proxy>, pools: seq<RegionPool>, region: Option<string>) {
    var granted := d.Replace(pools).Get(region).1;
    granted.Some? && ProxyKey(granted.value) in LeasedKeys(leases)
  }

  /**
   * One refresh can lead to a double lease exactly when some leased key is not in use any more; for leases that
   * are still distinct, exactly when exactness is lost.
   */
  lemma CanDoubleIff(d: ProxyPool, leases: map<nat, Proxy>)
    ensures CanDouble(d, leases) <==> !(LeasedKeys(leases) <= d.inUse)
    ensures NoLeak(d, leases) && Distinct(leases) ==> (Exact(d, leases) <==> !CanDouble(d, leases))
  {
    if k :| k in LeasedKeys(leases) && k !in d.inUse {
      var t :| t in leases && ProxyKey(leases[t]) == k;
      OnlyProxy(d, leases[t], None);
      assert Regrants(d, leases, [RegionPool(OrElse(None, d.defaultRegion), [leases[t]])], None);
    }
    forall pools, region | Regrants(d, leases, pools, region)
      ensures !(LeasedKeys(leases) <= d.inUse)
    {
      var k := ProxyKey(d.Replace(pools).Get(region).1.value);
      assert k in PoolKeys(pools) && k !in d.inUse * PoolKeys(pools);
    }
  }

  class DecodoProvider {
    const defaultRegion: string
    var proxies: seq<RegionPool>
    var inUse: set<string>

    function State(): ProxyPool
      reads this
    {
      ProxyPool(defaultRegion, proxies, inUse)
    }

    constructor (defaultRegion: string)
      ensures State() == ProxyPool(defaultRegion, [], {})
    {
      this.defaultRegion := defaultRegion;
      proxies, inUse := [], {};
    }

    method GetProxy(region: Option<string>) returns (r: Option<Proxy>)
      modifies this
      ensures (State(), r) == old(State().Get(region))
      ensures proxies == old(proxies) && inUse == old(inUse) + if r.Some? then {ProxyKey(r.value)} else {}
    {
      var name := OrElse(region, defaultRegion);
      var regionProxies := Lookup(proxies, name);
      if regionProxies == [] && proxies != [] {
        regionProxies := proxies[0].proxies;
      }
      for i := 0 to |regionProxies|
        invariant State() == old(State())
        invariant forall j :: 0 <= j < i ==> ProxyKey(regionProxies[j]) in inUse
      {
        var key := ProxyKey(regionProxies[i]);
        if key !in inUse {
          FirstFreeIs(regionProxies, inUse, i);
          inUse := inUse + {key};
          return Some(regionProxies[i]);
        }
      }
      return None;
    }

    method ReleaseProxy(p: Proxy)
      modifies this
      ensures State() == old(State()).Release(p)
      ensures proxies == old(proxies) && inUse == old(inUse) - {ProxyKey(p)}
    {
      inUse := inUse - {ProxyKey(p)};
    }

    method ReplacePool(newPools: seq<RegionPool>)
      modifies this
      ensures State() == old(State()).Replace(newPools)
      ensures proxies == newPools && inUse <= old(inUse)
    {
      proxies := newPools;
      inUse := inUse * PoolKeys(newPools);
    }
  }

  lemma {:induction false} FirstFreeIs(proxies: seq<Proxy>, inUse: set<string>, i: nat)
    requires i < |proxies| && ProxyKey(proxies[i]) !in inUse
    requires forall j :: 0 <= j < i ==> ProxyKey(proxies[j]) in inUse
    ensures FirstFree(proxies, inUse) == i
  {
    if i > 0 {
      FirstFreeIs(proxies[1..], inUse, i - 1);
    }
  }
}
