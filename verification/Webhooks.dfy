/**
 * Billing webhooks: asb_api/api/routes/webhooks.py over the key store of asb_api/db/auth_store.py.  An event is
 * first recorded, atomically and once per id, and only then applied to the key store.
 */
module Webhooks {
  import opened Common

  datatype ApiKey = ApiKey(
    keyId: string,
    tier: string,
    email: Option<string>,
    revoked: bool,
    createdAt: real,
    customer: Option<string>,
    subscription: Option<string>,
    status: Option<string>,
    licenseType: Option<string>,
    licenseKey: Option<string>)

  datatype Body =
    | CheckoutCompleted(keyId: Option<string>, tier: Option<string>, licenseType: Option<string>,
                        subscription: Option<string>, customer: Option<string>, email: Option<string>)
    | SubscriptionUpdated(customerId: string, status: string)
    | SubscriptionDeleted(customerId: string)
    | PaymentFailed(customerId: string)
    | InvoicePaid(customerId: string)
    | OtherEvent

  /** One delivery of an event; `license` is the random key drawn if it turns out to be needed. */
  datatype Delivery = Delivery(id: Option<string>, body: Body, license: string)

  predicate HasId(d: Delivery) {
    d.id.Some? && d.id.value != ""
  }

  // ---------------------------------------------------------------- effects on the key store

  predicate Given(s: Option<string>) {
    s.Some? && s.value != ""
  }

  /** The newest key of the address that is not revoked. */
  function NewestKey(rows: seq<ApiKey>, email: string): (k: Option<ApiKey>)
    ensures k.Some? ==> k.value in rows && k.value.email == Some(email) && !k.value.revoked
    ensures forall r :: r in rows && r.email == Some(email) && !r.revoked ==>
              k.Some? && r.createdAt <= k.value.createdAt
  {
    if rows == [] then None
    else
      var r, before := rows[|rows| - 1], NewestKey(rows[..|rows| - 1], email);
      assert rows == rows[..|rows| - 1] + [r];
      if r.email == Some(email) && !r.revoked && (before == None || r.createdAt > before.value.createdAt)
      then Some(r) else before
  }

  /** The key a license goes to: named by id, or the newest key of an address. */
  function LicenseTarget(rows: seq<ApiKey>, b: Body): Option<string>
    requires b.CheckoutCompleted?
  {
    var ident := OrElse(b.keyId, OrElse(b.email, OrElse(b.customer, "")));
    if ident == "" then None
    else if "key_" <= ident then Some(ident)
    else
      var newest := NewestKey(rows, ident);
      if newest.Some? then Some(newest.value.keyId) else None
  }

  function SetStatus(r: ApiKey, customer: string, status: string): ApiKey {
    if r.customer == Some(customer) then r.(status := Some(status)) else r
  }

  /** What the event does to one key. */
  function Change(rows: seq<ApiKey>, r: ApiKey, d: Delivery): ApiKey {
    match d.body
    case CheckoutCompleted(keyId, tier, licenseType, subscription, customer, _) =>
      if Given(keyId) && Given(tier) then
        if r.keyId != keyId.value then r
        else r.(tier := tier.value, subscription := subscription, status := Some("active"),
                customer := if customer.Some? then customer else r.customer)
      else if Given(licenseType) && LicenseTarget(rows, d.body) == Some(r.keyId) then
        r.(licenseType := licenseType, licenseKey := Some(d.license))
      else r
    case SubscriptionUpdated(customer, status) => SetStatus(r, customer, status)
    case SubscriptionDeleted(customer) =>
      if r.customer == Some(customer)
      then r.(tier := "free", status := Some("canceled"), subscription := None) else r
    case PaymentFailed(customer) => SetStatus(r, customer, "past_due")
    case InvoicePaid(customer) => SetStatus(r, customer, "active")
    case OtherEvent => r
  }

  function Apply(rows: seq<ApiKey>, d: Delivery): (rows': seq<ApiKey>)
    ensures |rows'| == |rows|
  {
    seq(|rows|, i requires 0 <= i < |rows| => Change(rows, rows[i], d))
  }

  function ApplyAll(rows: seq<ApiKey>, ds: seq<Delivery>): (rows': seq<ApiKey>)
    ensures |rows'| == |rows|
  {
    if ds == [] then rows else Apply(ApplyAll(rows, ds[..|ds| - 1]), ds[|ds| - 1])
  }

  /**
   * An event never creates, drops, revokes or re-addresses a key; a tier moves only by a checkout naming the
   * key or the end of its customer's subscription; a license lands only on its target.
   */
  lemma EffectsAreConfined(rows: seq<ApiKey>, d: Delivery, i: nat)
    requires i < |rows|
    ensures var r, r' := rows[i], Apply(rows, d)[i];
            && r'.keyId == r.keyId && r'.email == r.email && r'.revoked == r.revoked && r'.createdAt == r.createdAt
            && (r'.tier != r.tier ==>
                  || (d.body.CheckoutCompleted? && d.body.keyId == Some(r.keyId) && d.body.tier == Some(r'.tier))
                  || (d.body.SubscriptionDeleted? && r.customer == Some(d.body.customerId) && r'.tier == "free"))
            && (r'.licenseKey != r.licenseKey ==>
                  d.body.CheckoutCompleted? && LicenseTarget(rows, d.body) == Some(r.keyId) &&
                  r'.licenseKey == Some(d.license))
            && (r.customer != r'.customer ==> d.body.CheckoutCompleted? && r'.customer == d.body.customer)
  {
  }

  /** Where a purchased license goes: to the key named by id, or to the newest live key of the address. */
  lemma LicenseGoesToNewest(rows: seq<ApiKey>, b: Body, k: string)
    requires b.CheckoutCompleted? && LicenseTarget(rows, b) == Some(k)
    ensures var ident := if Given(b.keyId) then b.keyId.value
                         else if Given(b.email) then b.email.value else OrElse(b.customer, "");
            if "key_" <= ident then k == ident
            else exists r :: r in rows && r.keyId == k && r.email == Some(ident) && !r.revoked &&
                             forall q :: q in rows && q.email == Some(ident) && !q.revoked ==>
                               q.createdAt <= r.createdAt
  {
    var ident := OrElse(b.keyId, OrElse(b.email, OrElse(b.customer, "")));
    if !("key_" <= ident) {
      var newest := NewestKey(rows, ident).value;
      assert newest in rows && newest.keyId == k;
    }
  }

  /**
   * Where it lands: a completed checkout that is no upgrade and names a license type gives it and the new key text
   * to every row of its target, and to no other; without a target nothing changes.
   */
  lemma LicenseLands(rows: seq<ApiKey>, d: Delivery, i: nat)
    requires i < |rows| && d.body.CheckoutCompleted? && !(Given(d.body.keyId) && Given(d.body.tier))
    requires Given(d.body.licenseType)
    ensures var r, r' := rows[i], Apply(rows, d)[i];
            if LicenseTarget(rows, d.body) == Some(r.keyId)
            then r' == r.(licenseType := d.body.licenseType, licenseKey := Some(d.license)) else r' == r
  {
  }

  /** There is a target exactly if the checkout names a key id or an address some live key has. */
  lemma LicenseHasTarget(rows: seq<ApiKey>, b: Body)
    requires b.CheckoutCompleted?
    ensures var ident := if Given(b.keyId) then b.keyId.value
                         else if Given(b.email) then b.email.value else OrElse(b.customer, "");
            && (LicenseTarget(rows, b).Some? <==>
                "key_" <= ident || (ident != "" && exists r :: r in rows && r.email == Some(ident) && !r.revoked))
            && ("key_" <= ident ==> LicenseTarget(rows, b) == Some(ident))
  {
  }

  /** The words and tiers of the plain billing events, for the rows of their customer and no others. */
  lemma BillingWords(rows: seq<ApiKey>, d: Delivery, i: nat)
    requires i < |rows|
    ensures var r, r' := rows[i], Apply(rows, d)[i];
            match d.body
            case SubscriptionUpdated(c, status) =>
              r' == if r.customer == Some(c) then r.(status := Some(status)) else r
            case SubscriptionDeleted(c) =>
              r' == if r.customer == Some(c) then r.(tier := "free", status := Some("canceled"), subscription := None)
                 else r
            case PaymentFailed(c) => r' == if r.customer == Some(c) then r.(status := Some("past_due")) else r
            case InvoicePaid(c) => r' == if r.customer == Some(c) then r.(status := Some("active")) else r
            case OtherEvent => r' == r
            case CheckoutCompleted(keyId, tier, licenseType, _, _, _) =>
              !(Given(keyId) && Given(tier)) && !Given(licenseType) ==> r' == r
  {
  }

  /** The status an event announces for a customer, if any. */
  function Announced(b: Body, customer: string): Option<string> {
    match b
    case SubscriptionUpdated(c, status) => if c == customer then Some(status) else None
    case SubscriptionDeleted(c) => if c == customer then Some("canceled") else None
    case PaymentFailed(c) => if c == customer then Some("past_due") else None
    case InvoicePaid(c) => if c == customer then Some("active") else None
    case _ => None
  }

  /** The last event of the sequence that says something about the customer decides the status. */
  function LastAnnounced(ds: seq<Delivery>, customer: string): Option<string> {
    if ds == [] then None
    else if Announced(ds[0].body, customer).Some? && LastAnnounced(ds[1..], customer) == None
    then Announced(ds[0].body, customer)
    else LastAnnounced(ds[1..], customer)
  }

  lemma {:induction false} LastAnnouncedAppend(ds: seq<Delivery>, d: Delivery, customer: string)
    ensures LastAnnounced(ds + [d], customer) ==
            if Announced(d.body, customer).Some? then Announced(d.body, customer) else LastAnnounced(ds, customer)
  {
    if ds != [] {
      assert (ds + [d])[1..] == ds[1..] + [d];
      LastAnnouncedAppend(ds[1..], d, customer);
    } else {
      assert (ds + [d])[1..] == [];
    }
  }

  predicate Canceled(ds: seq<Delivery>, customer: string) {
    exists d :: d in ds && d.body == SubscriptionDeleted(customer)
  }

  lemma CanceledAppend(ds: seq<Delivery>, d: Delivery, customer: string)
    ensures Canceled(ds + [d], customer) <==> Canceled(ds, customer) || d.body == SubscriptionDeleted(customer)
  {
    assert d in ds + [d] && forall e :: e in ds ==> e in ds + [d];
    assert forall e :: e in ds + [d] ==> e in ds || e == d;
  }

  /** What a key shows after the events so far, given what it showed before them. */
  predicate Shows(r: ApiKey, r': ApiKey, announced: Option<string>, canceled: bool) {
    && r'.customer == r.customer
    && r'.status == (if announced.Some? then announced else r.status)
    && (if canceled then r'.tier == "free" && r'.subscription == None
        else r'.tier == r.tier && r'.subscription == r.subscription)
  }

  lemma ChangeShows(rows: seq<ApiKey>, r: ApiKey, r': ApiKey, d: Delivery,
                    customer: string, announced: Option<string>, canceled: bool)
    requires r.customer == Some(customer) && !d.body.CheckoutCompleted? && Shows(r, r', announced, canceled)
    ensures var said := Announced(d.body, customer);
            Shows(r, Change(rows, r', d), if said.Some? then said else announced,
                  canceled || d.body == SubscriptionDeleted(customer))
  {
  }

  /**
   * Between checkouts a customer's key shows the last status announced for that customer, and it is on the
   * free tier without a subscription exactly from the first deletion on.
   */
  lemma {:induction false} LastEventDecides(rows: seq<ApiKey>, ds: seq<Delivery>, i: nat, customer: string)
    requires i < |rows| && rows[i].customer == Some(customer)
    requires forall d :: d in ds ==> !d.body.CheckoutCompleted?
    ensures Shows(rows[i], ApplyAll(rows, ds)[i], LastAnnounced(ds, customer), Canceled(ds, customer))
  {
    if ds != [] {
      var before, d := ds[..|ds| - 1], ds[|ds| - 1];
      assert ds == before + [d];
      LastEventDecides(rows, before, i, customer);
      LastAnnouncedAppend(before, d, customer);
      CanceledAppend(before, d, customer);
      var mid := ApplyAll(rows, before);
      ChangeShows(mid, rows[i], mid[i], d, customer, LastAnnounced(before, customer), Canceled(before, customer));
      assert ApplyAll(rows, ds)[i] == Change(mid, mid[i], d);
    }
  }

  lemma CheckoutSets(rows: seq<ApiKey>, d: Delivery, i: nat)
    requires i < |rows| && d.body.CheckoutCompleted? && Given(d.body.keyId) && Given(d.body.tier)
    ensures var r, r' := rows[i], Apply(rows, d)[i];
            if d.body.keyId == Some(r.keyId)
            then Some(r'.tier) == d.body.tier && r'.status == Some("active") &&
                 r'.subscription == d.body.subscription &&
                 r'.licenseKey == r.licenseKey &&
                 r'.customer == (if d.body.customer == None then r.customer else d.body.customer)
            else r' == r
  {
  }

  /**
   * An upgrade lasts: after a checkout naming a key and a tier, and whatever events follow short of another
   * checkout, the key is on that tier under that subscription if and only if its customer's subscription was not
   * deleted since (else it is free without one), and active unless something else was announced.
   */
  lemma CheckoutUpgrades(rows: seq<ApiKey>, d: Delivery, ds: seq<Delivery>, i: nat, customer: string)
    requires i < |rows| && d.body.CheckoutCompleted? && Given(d.body.tier) &&
             d.body.keyId == Some(rows[i].keyId) && rows[i].keyId != ""
    requires (if d.body.customer.Some? then d.body.customer else rows[i].customer) == Some(customer)
    requires forall e :: e in ds ==> !e.body.CheckoutCompleted?
    ensures var r, announced := ApplyAll(Apply(rows, d), ds)[i], LastAnnounced(ds, customer);
            && r.customer == Some(customer)
            && (if Canceled(ds, customer) then r.tier == "free" && r.subscription == None
                else r.tier == d.body.tier.value && r.subscription == d.body.subscription)
            && r.status == (if announced.Some? then announced else Some("active"))
  {
    CheckoutSets(rows, d, i);
    LastEventDecides(Apply(rows, d), ds, i, customer);
  }

  // ---------------------------------------------------------------- interleaved deliveries

  datatype Phase = Arrived | Accepted | Handled | Duplicate | Lost

  /** `applied` lists the deliveries whose effect took place, in that order. */
  datatype State = State(seen: set<string>, rows: seq<ApiKey>, phases: seq<Phase>, applied: seq<nat>)

  datatype Action =
    | Record(i: nat)   // `_record_event_once`
    | Perform(i: nat)  // the key-store update
    | Fail(i: nat)     // the key-store update raised

  predicate Enabled(ds: seq<Delivery>, s: State, a: Action) {
    && |s.phases| == |ds| && a.i < |ds|
    && s.phases[a.i] == if a.Record? then Arrived else Accepted
  }

  function Next(ds: seq<Delivery>, s: State, a: Action): State
    requires Enabled(ds, s, a)
  {
    var d := ds[a.i];
    match a
    case Record(i) =>
      if !HasId(d) then s.(phases := s.phases[i := Accepted])
      else if d.id.value in s.seen then s.(phases := s.phases[i := Duplicate])
      else s.(seen := s.seen + {d.id.value}, phases := s.phases[i := Accepted])
    case Perform(i) =>
      s.(rows := Apply(s.rows, d), phases := s.phases[i := Handled], applied := s.applied + [i])
    case Fail(i) => s.(phases := s.phases[i := Lost])
  }

  ghost predicate ValidRun(ds: seq<Delivery>, s: State, actions: seq<Action>)
    decreases |actions|
  {
    actions == [] || (Enabled(ds, s, actions[0]) && ValidRun(ds, Next(ds, s, actions[0]), actions[1..]))
  }

  ghost function Final(ds: seq<Delivery>, s: State, actions: seq<Action>): State
    requires ValidRun(ds, s, actions)
    decreases |actions|
  {
    if actions == [] then s else Final(ds, Next(ds, s, actions[0]), actions[1..])
  }

  ghost predicate Init(ds: seq<Delivery>, s: State) {
    s.seen == {} && s.applied == [] && |s.phases| == |ds| && forall i :: 0 <= i < |ds| ==> s.phases[i] == Arrived
  }

  /** Delivery `i` owns its event id: it was the one recorded. */
  predicate Owns(ds: seq<Delivery>, s: State, i: nat) {
    i < |ds| && i < |s.phases| && HasId(ds[i]) && s.phases[i] in {Accepted, Handled, Lost}
  }

  /** The recorded ids are exactly the owned ones, each owned once. */
  ghost predicate IdsOwned(ds: seq<Delivery>, s: State) {
    && |s.phases| == |ds|
    && (forall i: nat :: Owns(ds, s, i) ==> ds[i].id.value in s.seen)
    && (forall i: nat, j: nat :: Owns(ds, s, i) && Owns(ds, s, j) && ds[i].id == ds[j].id ==> i == j)
    && (forall id :: id in s.seen ==> exists i: nat :: Owns(ds, s, i) && ds[i].id == Some(id))
    && (forall i :: 0 <= i < |ds| && s.phases[i] == Duplicate ==> HasId(ds[i]) && ds[i].id.value in s.seen)
  }

  /** `applied` lists the handled deliveries, each once. */
  ghost predicate HandledOnce(ds: seq<Delivery>, s: State) {
    && |s.phases| == |ds|
    && (forall k :: 0 <= k < |s.applied| ==> s.applied[k] < |ds| && s.phases[s.applied[k]] == Handled)
    && (forall k, l :: 0 <= k < l < |s.applied| ==> s.applied[k] != s.applied[l])
    && (forall i :: 0 <= i < |ds| && s.phases[i] == Handled ==> i in s.applied)
  }

  ghost predicate Inv(ds: seq<Delivery>, s: State) {
    IdsOwned(ds, s) && HandledOnce(ds, s)
  }

  lemma RecordKeepsOwners(ds: seq<Delivery>, s: State, i: nat)
    requires IdsOwned(ds, s) && Enabled(ds, s, Record(i))
    ensures IdsOwned(ds, Next(ds, s, Record(i)))
  {
    var s' := Next(ds, s, Record(i));
    assert forall j: nat :: j != i ==> (Owns(ds, s', j) <==> Owns(ds, s, j));
    assert !Owns(ds, s, i);
    forall id | id in s'.seen
      ensures exists j: nat :: Owns(ds, s', j) && ds[j].id == Some(id)
    {
      if id in s.seen {
        var j: nat :| Owns(ds, s, j) && ds[j].id == Some(id);
        assert Owns(ds, s', j);
      } else {
        assert Owns(ds, s', i);
      }
    }
  }

  /** What becomes of the effect moves no ownership. */
  lemma OutcomeKeepsOwners(ds: seq<Delivery>, s: State, a: Action)
    requires IdsOwned(ds, s) && Enabled(ds, s, a) && !a.Record?
    ensures IdsOwned(ds, Next(ds, s, a))
  {
    var s' := Next(ds, s, a);
    assert forall j: nat :: Owns(ds, s', j) <==> Owns(ds, s, j);
    forall id | id in s'.seen
      ensures exists j: nat :: Owns(ds, s', j) && ds[j].id == Some(id)
    {
      var j: nat :| Owns(ds, s, j) && ds[j].id == Some(id);
      assert Owns(ds, s', j);
    }
  }

  lemma NextHandledOnce(ds: seq<Delivery>, s: State, a: Action)
    requires HandledOnce(ds, s) && Enabled(ds, s, a)
    ensures HandledOnce(ds, Next(ds, s, a))
  {
    var s' := Next(ds, s, a);
    assert |s'.phases| == |ds| && forall j :: 0 <= j < |ds| && j != a.i ==> s'.phases[j] == s.phases[j];
    assert a.i !in s.applied;
    if a.Perform? {
      assert s'.applied == s.applied + [a.i];
    } else {
      assert s'.applied == s.applied;
    }
  }

  lemma NextInv(ds: seq<Delivery>, s: State, a: Action)
    requires Inv(ds, s) && Enabled(ds, s, a)
    ensures Inv(ds, Next(ds, s, a))
  {
    if a.Record? {
      RecordKeepsOwners(ds, s, a.i);
    } else {
      OutcomeKeepsOwners(ds, s, a);
    }
    NextHandledOnce(ds, s, a);
  }

  lemma {:induction false} RunInv(ds: seq<Delivery>, s: State, actions: seq<Action>)
    requires Inv(ds, s) && ValidRun(ds, s, actions)
    ensures Inv(ds, Final(ds, s, actions))
    decreases |actions|
  {
    if actions != [] {
      NextInv(ds, s, actions[0]);
      RunInv(ds, Next(ds, s, actions[0]), actions[1..]);
    }
  }

  function Picked(ds: seq<Delivery>, order: seq<nat>): seq<Delivery>
    requires forall k :: 0 <= k < |order| ==> order[k] < |ds|
  {
    seq(|order|, k requires 0 <= k < |order| => ds[order[k]])
  }

  /** The key store is always the effects of `applied`, in order, on what it was. */
  lemma {:induction false} StoreIsFold(ds: seq<Delivery>, rows0: seq<ApiKey>, s: State, actions: seq<Action>)
    requires Inv(ds, s) && ValidRun(ds, s, actions) && s.rows == ApplyAll(rows0, Picked(ds, s.applied))
    ensures Inv(ds, Final(ds, s, actions))
    ensures Final(ds, s, actions).rows == ApplyAll(rows0, Picked(ds, Final(ds, s, actions).applied))
    decreases |actions|
  {
    if actions != [] {
      var s' := Next(ds, s, actions[0]);
      NextInv(ds, s, actions[0]);
      if actions[0].Perform? {
        var picked := Picked(ds, s'.applied);
        assert picked[..|picked| - 1] == Picked(ds, s.applied);
      }
      StoreIsFold(ds, rows0, s', actions[1..]);
    }
  }

  /**
   * However deliveries interleave, repeat and fail: no delivery's effect takes place twice and no event id's
   * effect takes place by more than one delivery; a lost effect is never made up for by a redelivery.
   */
  lemma AppliedAtMostOnce(ds: seq<Delivery>, s: State, actions: seq<Action>)
    requires Init(ds, s) && ValidRun(ds, s, actions)
    ensures var f := Final(ds, s, actions);
            && (forall k :: 0 <= k < |f.applied| ==> f.applied[k] < |ds|)
            && f.rows == ApplyAll(s.rows, Picked(ds, f.applied))
            && (forall k, l :: 0 <= k < l < |f.applied| ==>
                  var i, j := f.applied[k], f.applied[l]; i != j && (HasId(ds[i]) ==> ds[i].id != ds[j].id))
            && |f.phases| == |ds|
            && forall i, k :: 0 <= i < |ds| && 0 <= k < |f.applied| && HasId(ds[i]) && f.phases[i] == Lost ==>
                 ds[f.applied[k]].id != ds[i].id
  {
    assert Picked(ds, s.applied) == [];
    StoreIsFold(ds, s.rows, s, actions);
    var f := Final(ds, s, actions);
    forall k, l | 0 <= k < l < |f.applied|
      ensures var i, j := f.applied[k], f.applied[l]; i != j && (HasId(ds[i]) ==> ds[i].id != ds[j].id)
    {
      var i, j := f.applied[k], f.applied[l];
      assert HasId(ds[i]) && HasId(ds[j]) ==> Owns(ds, f, i) && Owns(ds, f, j);
    }
    forall i, k | 0 <= i < |ds| && 0 <= k < |f.applied| && HasId(ds[i]) && f.phases[i] == Lost
      ensures ds[f.applied[k]].id != ds[i].id
    {
      var j := f.applied[k];
      assert Owns(ds, f, i) && (ds[j].id == ds[i].id ==> Owns(ds, f, j));
    }
  }

  /**
   * Exactly when an event takes effect: once the deliveries of an id are over, its effect took place if and only
   * if none of them lost it; a delivery without an id took effect if and only if it was not lost itself.
   */
  lemma EffectIffNotLost(ds: seq<Delivery>, s: State, actions: seq<Action>, i: nat)
    requires Init(ds, s) && ValidRun(ds, s, actions) && i < |ds|
    requires var f := Final(ds, s, actions);
             |f.phases| == |ds| && forall j :: 0 <= j < |ds| && ds[j].id == ds[i].id ==>
               f.phases[j] in {Handled, Duplicate, Lost}
    ensures var f := Final(ds, s, actions);
            if HasId(ds[i]) then
              (exists j: nat :: j in f.applied && j < |ds| && ds[j].id == ds[i].id) <==>
              (forall j :: 0 <= j < |ds| && ds[j].id == ds[i].id ==> f.phases[j] != Lost)
            else i in f.applied <==> f.phases[i] != Lost
  {
    RunInv(ds, s, actions);
    var f := Final(ds, s, actions);
    if HasId(ds[i]) {
      assert f.phases[i] != Duplicate ==> Owns(ds, f, i);
      var owner: nat :| Owns(ds, f, owner) && ds[owner].id == Some(ds[i].id.value);
      assert f.phases[owner] == Handled ==> owner in f.applied;
      assert forall j: nat :: j < |ds| && ds[j].id == ds[i].id && f.phases[j] != Duplicate ==> Owns(ds, f, j);
    }
  }

  // ---------------------------------------------------------------- one delivery after another

  datatype Handler = Handler(seen: set<string>, rows: seq<ApiKey>)

  function Handle(h: Handler, d: Delivery): Handler {
    if HasId(d) && d.id.value in h.seen then h
    else Handler(if HasId(d) then h.seen + {d.id.value} else h.seen, Apply(h.rows, d))
  }

  function HandleAll(h: Handler, ds: seq<Delivery>): Handler {
    if ds == [] then h else Handle(HandleAll(h, ds[..|ds| - 1]), ds[|ds| - 1])
  }

  function Ids(ds: seq<Delivery>): set<string> {
    set d | d in ds && HasId(d) :: d.id.value
  }

  /** The deliveries without those whose id came before. */
  function FirstOccurrences(ds: seq<Delivery>): seq<Delivery> {
    if ds == [] then []
    else
      var d, before := ds[|ds| - 1], ds[..|ds| - 1];
      FirstOccurrences(before) + if HasId(d) && d.id.value in Ids(before) then [] else [d]
  }

  lemma IdsAppend(before: seq<Delivery>, d: Delivery)
    ensures Ids(before + [d]) == if HasId(d) then Ids(before) + {d.id.value} else Ids(before)
  {
    forall id | id in Ids(before + [d])
      ensures id in Ids(before) || (HasId(d) && id == d.id.value)
    {
      var e :| e in before + [d] && HasId(e) && e.id.value == id;
      assert e in before || e == d;
    }
    forall id | id in Ids(before)
      ensures id in Ids(before + [d])
    {
      var e :| e in before && HasId(e) && e.id.value == id;
      assert e in before + [d];
    }
    assert d in before + [d];
  }

  lemma ApplyAllAppend(rows: seq<ApiKey>, ds: seq<Delivery>, d: Delivery)
    ensures ApplyAll(rows, ds + [d]) == Apply(ApplyAll(rows, ds), d)
  {
    assert (ds + [d])[..|ds|] == ds;
  }

  lemma FirstOccurrencesAppend(before: seq<Delivery>, d: Delivery)
    ensures FirstOccurrences(before + [d]) ==
            if HasId(d) && d.id.value in Ids(before) then FirstOccurrences(before) else FirstOccurrences(before) + [d]
  {
    assert (before + [d])[..|before|] == before;
  }

  /** Handling deliveries in turn folds the effects over the first occurrence of each id. */
  lemma {:induction false} SequentialIsFold(rows: seq<ApiKey>, ds: seq<Delivery>)
    ensures HandleAll(Handler({}, rows), ds) == Handler(Ids(ds), ApplyAll(rows, FirstOccurrences(ds)))
  {
    if ds != [] {
      var d, before := ds[|ds| - 1], ds[..|ds| - 1];
      assert ds == before + [d];
      SequentialIsFold(rows, before);
      IdsAppend(before, d);
      FirstOccurrencesAppend(before, d);
      ApplyAllAppend(rows, FirstOccurrences(before), d);
    }
  }

  datatype Answer = Received | AlreadySeen | Raised

  class WebhookRoute {
    var processed: set<string>
    var rows: seq<ApiKey>

    function Model(): Handler
      reads this
    {
      Handler(processed, rows)
    }

    constructor (rows: seq<ApiKey>)
      ensures Model() == Handler({}, rows)
    {
      this.processed, this.rows := {}, rows;
    }

    method RecordEventOnce(d: Delivery) returns (first: bool)
      modifies this`processed
      ensures first <==> !(d.id.Some? && d.id.value != "" && d.id.value in old(processed))
      ensures processed == old(processed) + if d.id.Some? && d.id.value != "" then {d.id.value} else {}
    {
      if d.id == None || d.id.value == "" {
        return true;
      }
      if d.id.value in processed {
        return false;
      }
      processed := processed + {d.id.value};
      return true;
    }

    /** The response only tells duplicates apart; an update that raises leaves the event recorded and unapplied. */
    method Receive(d: Delivery, updateRaises: bool) returns (answer: Answer)
      modifies this
      ensures answer == if d.id.Some? && d.id.value != "" && d.id.value in old(processed) then AlreadySeen
                        else if updateRaises then Raised else Received
      ensures answer != Raised ==> Model() == Handle(old(Model()), d)
      ensures answer == Raised ==> Model() == Handle(old(Model()), d).(rows := old(rows))
    {
      var first := RecordEventOnce(d);
      if !first {
        return AlreadySeen;
      }
      if updateRaises {
        return Raised;
      }
      rows := Apply(rows, d);
      return Received;
    }
  }
}
