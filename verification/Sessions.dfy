/**
 * The two session stores, asb_api/session/store.py (a dictionary that evicts expired sessions when they are
 * next looked up) and asb_api/db/session_store.py (rows with tombstones, filtered when read), against an
 * ideal store that drops every session the moment it expires.
 */
module Sessions {
  import opened Common

  type Cookies = map<string, string>

  /** JSON and, with a key configured, Fernet; any pair of inverses whose output is not empty. */
  datatype Codec = Codec(seal: Cookies -> string, unseal: string -> Cookies)

  ghost predicate Faithful(c: Codec) {
    forall cookies: Cookies :: c.unseal(c.seal(cookies)) == cookies && c.seal(cookies) != ""
  }

  datatype Info = Info(
    id: string,
    keyId: string,
    region: string,
    fingerprint: Option<string>,
    cookies: Cookies,
    createdAt: real,
    lastUsed: real,
    requestCount: int,
    expiresAt: real)

  datatype Op =
    | Create(id: string, keyId: string, region: string, fingerprint: Option<string>)
    | Get(id: string)
    | UpdateCookies(id: string, cookies: Cookies)
    | Increment(id: string)
    | Delete(id: string)

  datatype Request = Request(op: Op, now: real)

  datatype Reply = Session(info: Info) | Missing | Conflict | Quiet

  function NewInfo(op: Op, now: real, ttl: int): Info
    requires op.Create?
  {
    Info(op.id, op.keyId, op.region, op.fingerprint, map[], now, now, 0, now + ttl as real)
  }

  // ---------------------------------------------------------------- the ideal store

  /** The sessions alive at `now`. */
  function Alive(s: map<string, Info>, now: real): map<string, Info> {
    map id | id in s && now <= s[id].expiresAt :: s[id]
  }

  /** Everything expired is gone before the operation looks. */
  function IdealStep(ttl: int, s0: map<string, Info>, r: Request): (map<string, Info>, Reply) {
    var s, now := Alive(s0, r.now), r.now;
    match r.op
    case Create(id, _, _, _) => (s[id := NewInfo(r.op, now, ttl)], Session(NewInfo(r.op, now, ttl)))
    case Get(id) =>
      if id !in s then (s, Missing)
      else (s[id := s[id].(lastUsed := now)], Session(s[id].(lastUsed := now)))
    case UpdateCookies(id, cookies) =>
      (if id in s then s[id := s[id].(cookies := cookies, lastUsed := now)] else s, Quiet)
    case Increment(id) =>
      (if id in s then s[id := s[id].(requestCount := s[id].requestCount + 1, lastUsed := now)] else s, Quiet)
    case Delete(id) => (s - {id}, Quiet)
  }

  // ---------------------------------------------------------------- the in-memory store

  datatype StoredCookies = Plain(cookies: Cookies) | Sealed(text: string)

  function StoreCookies(codec: Option<Codec>, cookies: Cookies): StoredCookies {
    if codec == None then Plain(cookies) else Sealed(codec.value.seal(cookies))
  }

  function LoadCookies(codec: Option<Codec>, stored: StoredCookies): Cookies {
    match stored
    case Plain(cookies) => cookies
    case Sealed(text) => if codec == None then map[] else codec.value.unseal(text)
  }

  /** A session record: its info with the cookies in stored form. */
  datatype Record = Record(info: Info, stored: StoredCookies)

  function Load(codec: Option<Codec>, r: Record): Info {
    r.info.(cookies := LoadCookies(codec, r.stored))
  }

  datatype MemConfig = MemConfig(codec: Option<Codec>, ttl: int)

  function MemStep(cfg: MemConfig, s: map<string, Record>, r: Request): (map<string, Record>, Reply) {
    var now := r.now;
    match r.op
    case Create(id, _, _, _) =>
      var record := Record(NewInfo(r.op, now, cfg.ttl), StoreCookies(cfg.codec, map[]));
      (s[id := record], Session(Load(cfg.codec, record)))
    case Get(id) =>
      if id !in s then (s, Missing)
      else if now > s[id].info.expiresAt then (s - {id}, Missing)
      else
        var record := s[id].(info := s[id].info.(lastUsed := now));
        (s[id := record], Session(Load(cfg.codec, record)))
    case UpdateCookies(id, cookies) =>
      (if id in s then s[id := Record(s[id].info.(lastUsed := now), StoreCookies(cfg.codec, cookies))] else s, Quiet)
    case Increment(id) =>
      (if id in s
       then s[id := s[id].(info := s[id].info.(requestCount := s[id].info.requestCount + 1, lastUsed := now))]
       else s, Quiet)
    case Delete(id) => (s - {id}, Quiet)
  }

  // ---------------------------------------------------------------- the PostgreSQL store

  /** A row: `cookies_enc` is NULL until the first update, `deleted_at` until the session is deleted. */
  datatype Row = Row(info: Info, cookiesEnc: Option<string>, deletedAt: Option<real>)

  datatype PgConfig = PgConfig(codec: Codec, ttl: int)

  /** What the row holds, cookies decoded. */
  function Held(cfg: PgConfig, row: Row): Info {
    row.info.(cookies := if row.cookiesEnc.Some? && row.cookiesEnc.value != ""
                         then cfg.codec.unseal(row.cookiesEnc.value) else map[])
  }

  /** What a lookup answers: `row["region"] or "jp"`. */
  function RowInfo(cfg: PgConfig, row: Row): Info {
    Held(cfg, row).(region := if row.info.region != "" then row.info.region else "jp")
  }

  predicate Visible(row: Row, now: real) {
    row.deletedAt == None && row.info.expiresAt > now
  }

  function PgStep(cfg: PgConfig, s: map<string, Row>, r: Request): (map<string, Row>, Reply) {
    var now := r.now;
    match r.op
    case Create(id, _, _, _) =>
      if id in s then (s, Conflict)
      else (s[id := Row(NewInfo(r.op, now, cfg.ttl), None, None)], Session(NewInfo(r.op, now, cfg.ttl)))
    case Get(id) =>
      if id !in s || !Visible(s[id], now) then (s, Missing)
      else (s[id := s[id].(info := s[id].info.(lastUsed := now))], Session(RowInfo(cfg, s[id])))
    case UpdateCookies(id, cookies) =>
      (if id in s
       then s[id := s[id].(cookiesEnc := Some(cfg.codec.seal(cookies)), info := s[id].info.(lastUsed := now))]
       else s, Quiet)
    case Increment(id) =>
      (if id in s
       then s[id := s[id].(info := s[id].info.(requestCount := s[id].info.requestCount + 1, lastUsed := now))]
       else s, Quiet)
    case Delete(id) =>
      (if id in s then s[id := s[id].(deletedAt := Some(now))] else s, Quiet)
  }

  // ---------------------------------------------------------------- runs

  function IdealRun(ttl: int, s: map<string, Info>, rs: seq<Request>): seq<Reply>
    decreases |rs|
  {
    if rs == [] then []
    else var (s', reply) := IdealStep(ttl, s, rs[0]); [reply] + IdealRun(ttl, s', rs[1..])
  }

  function MemRun(cfg: MemConfig, s: map<string, Record>, rs: seq<Request>): seq<Reply>
    decreases |rs|
  {
    if rs == [] then []
    else var (s', reply) := MemStep(cfg, s, rs[0]); [reply] + MemRun(cfg, s', rs[1..])
  }

  function PgRun(cfg: PgConfig, s: map<string, Row>, rs: seq<Request>): seq<Reply>
    decreases |rs|
  {
    if rs == [] then []
    else var (s', reply) := PgStep(cfg, s, rs[0]); [reply] + PgRun(cfg, s', rs[1..])
  }

  /** Requests come in clock order, none before `from`. */
  ghost predicate InOrder(rs: seq<Request>, from: real) {
    rs == [] || (from <= rs[0].now && InOrder(rs[1..], rs[0].now))
  }

  /** Created ids are new, as random ids are taken to be. */
  ghost predicate FreshIds(rs: seq<Request>, used: set<string>) {
    rs == [] ||
    (if rs[0].op.Create? then rs[0].op.id !in used && FreshIds(rs[1..], used + {rs[0].op.id})
     else FreshIds(rs[1..], used))
  }

  // ---------------------------------------------------------------- lazy eviction is invisible

  /** The records alive at `now`, decoded. */
  function Decoded(cfg: MemConfig, s: map<string, Record>, now: real): map<string, Info> {
    map id | id in s && now <= s[id].info.expiresAt :: Load(cfg.codec, s[id])
  }

  ghost predicate MemFaithful(cfg: MemConfig) {
    cfg.codec.Some? ==> Faithful(cfg.codec.value)
  }

  /** The dictionary and the ideal store agree on every session alive at `now`. */
  ghost predicate Same(cfg: MemConfig, s: map<string, Record>, ideal: map<string, Info>, now: real) {
    Alive(ideal, now) == Decoded(cfg, s, now)
  }

  lemma SameLater(cfg: MemConfig, s: map<string, Record>, ideal: map<string, Info>, now: real, later: real)
    requires Same(cfg, s, ideal, now) && now <= later
    ensures Same(cfg, s, ideal, later) && Same(cfg, s, Alive(ideal, later), later)
  {
    assert Alive(ideal, later) == Alive(Alive(ideal, now), later);
    assert Decoded(cfg, s, later) == Alive(Decoded(cfg, s, now), later);
    assert Alive(Alive(ideal, later), later) == Alive(ideal, later);
  }

  lemma MemReply(cfg: MemConfig, s: map<string, Record>, ideal: map<string, Info>, r: Request)
    requires MemFaithful(cfg) && Same(cfg, s, ideal, r.now)
    ensures MemStep(cfg, s, r).1 == IdealStep(cfg.ttl, ideal, r).1
  {
    var alive, id := Alive(ideal, r.now), r.op.id;
    assert id in alive <==> id in s && r.now <= s[id].info.expiresAt;
    assert id in alive ==> alive[id] == Load(cfg.codec, s[id]);
  }

  /** The operation's own session after the step, in both stores. */
  lemma OwnSessionSame(cfg: MemConfig, s: map<string, Record>, ideal: map<string, Info>, r: Request)
    requires MemFaithful(cfg) && Same(cfg, s, ideal, r.now)
    ensures var id, s', ideal' := r.op.id, MemStep(cfg, s, r).0, IdealStep(cfg.ttl, ideal, r).0;
            && (id in ideal' && r.now <= ideal'[id].expiresAt <==> id in s' && r.now <= s'[id].info.expiresAt)
            && (id in ideal' && r.now <= ideal'[id].expiresAt ==> ideal'[id] == Load(cfg.codec, s'[id]))
  {
    var alive, id := Alive(ideal, r.now), r.op.id;
    assert id in alive <==> id in s && r.now <= s[id].info.expiresAt;
    assert id in alive ==> alive[id] == Load(cfg.codec, s[id]);
  }

  lemma OthersKept(cfg: MemConfig, s: map<string, Record>, ideal: map<string, Info>, r: Request, k: string)
    requires k != r.op.id
    ensures var s', ideal' := MemStep(cfg, s, r).0, IdealStep(cfg.ttl, ideal, r).0;
            && (k in s' <==> k in s) && (k in s ==> s'[k] == s[k])
            && (k in ideal' <==> k in Alive(ideal, r.now)) && (k in ideal' ==> ideal'[k] == ideal[k])
  {
  }

  lemma MemKeepsSame(cfg: MemConfig, s: map<string, Record>, ideal: map<string, Info>, r: Request)
    requires MemFaithful(cfg) && Same(cfg, s, ideal, r.now)
    ensures Same(cfg, MemStep(cfg, s, r).0, IdealStep(cfg.ttl, ideal, r).0, r.now)
  {
    var s', ideal', now := MemStep(cfg, s, r).0, IdealStep(cfg.ttl, ideal, r).0, r.now;
    var after, alive := Alive(ideal', now), Decoded(cfg, s', now);
    forall k: string
      ensures (k in after <==> k in alive) && (k in after ==> after[k] == alive[k])
    {
      if k == r.op.id {
        OwnSessionSame(cfg, s, ideal, r);
      } else {
        OthersKept(cfg, s, ideal, r, k);
        assert k in Alive(ideal, now) <==> k in Decoded(cfg, s, now);
        assert k in Alive(ideal, now) ==> Alive(ideal, now)[k] == Decoded(cfg, s, now)[k];
      }
    }
  }

  /**
   * For every operation sequence with a clock that never runs backwards the lazily evicting store answers
   * exactly as the ideal one, cookies and timestamps included.
   */
  lemma {:induction false} LazyEvictionIsInvisible(cfg: MemConfig, s: map<string, Record>, ideal: map<string, Info>,
                                                   rs: seq<Request>, from: real)
    requires MemFaithful(cfg) && InOrder(rs, from) && Same(cfg, s, ideal, from)
    ensures MemRun(cfg, s, rs) == IdealRun(cfg.ttl, ideal, rs)
    decreases |rs|
  {
    if rs != [] {
      SameLater(cfg, s, ideal, from, rs[0].now);
      MemReply(cfg, s, ideal, rs[0]);
      MemKeepsSame(cfg, s, ideal, rs[0]);
      LazyEvictionIsInvisible(cfg, MemStep(cfg, s, rs[0]).0, IdealStep(cfg.ttl, ideal, rs[0]).0, rs[1..], rs[0].now);
    }
  }

  // ---------------------------------------------------------------- tombstones against the dictionary

  /** What callers compare: everything but `last_used`. */
  function View(info: Info): Info {
    info.(lastUsed := 0.0)
  }

  function ViewReply(r: Reply): Reply {
    if r.Session? then Session(View(r.info)) else r
  }

  function Views(rs: seq<Reply>): seq<Reply> {
    if rs == [] then [] else [ViewReply(rs[0])] + Views(rs[1..])
  }

  /** Sessions in the dictionary are undeleted rows; other rows are deleted or expired before `now`. */
  ghost predicate Mirrors(m: MemConfig, p: PgConfig, s: map<string, Record>, rows: map<string, Row>, now: real) {
    && (forall id :: id in s ==>
          id in rows && rows[id].deletedAt == None && View(Load(m.codec, s[id])) == View(Held(p, rows[id])))
    && (forall id :: id in rows && id !in s ==> rows[id].deletedAt.Some? || rows[id].info.expiresAt < now)
  }

  /** The lookup falls on the instant of expiry, or finds a live session created without a region. */
  predicate Differs(s: map<string, Record>, id: string, now: real) {
    id in s && now <= s[id].info.expiresAt && (now == s[id].info.expiresAt || s[id].info.region == "")
  }

  /**
   * The two stores answer a lookup differently exactly at the instant of expiry and for live sessions with an
   * empty region, which the PostgreSQL store reports as `jp`.
   */
  lemma GetsAgreeIff(m: MemConfig, p: PgConfig, s: map<string, Record>, rows: map<string, Row>, id: string, now: real)
    requires Mirrors(m, p, s, rows, now)
    ensures ViewReply(MemStep(m, s, Request(Get(id), now)).1) ==
            ViewReply(PgStep(p, rows, Request(Get(id), now)).1) <==>
              !Differs(s, id, now)
  {
    if id in s {
      var held, shown := Held(p, rows[id]), RowInfo(p, rows[id]);
      assert View(Load(m.codec, s[id])) == View(held);
      assert View(held).region == s[id].info.region && held.expiresAt == s[id].info.expiresAt;
      assert View(held) == View(shown) <==> held.region == shown.region;
    }
  }

  /** No lookup of the run is one the stores differ on. */
  ghost predicate NeverDiffers(m: MemConfig, s: map<string, Record>, rs: seq<Request>)
    decreases |rs|
  {
    rs == [] ||
    ((rs[0].op.Get? ==> !Differs(s, rs[0].op.id, rs[0].now)) && NeverDiffers(m, MemStep(m, s, rs[0]).0, rs[1..]))
  }

  lemma MirrorPut(m: MemConfig, p: PgConfig, s: map<string, Record>, rows: map<string, Row>, now: real,
                  id: string, record: Record, row: Row)
    requires Mirrors(m, p, s, rows, now)
    requires row.deletedAt == None && View(Load(m.codec, record)) == View(Held(p, row))
    ensures Mirrors(m, p, s[id := record], rows[id := row], now)
  {
  }

  lemma MirrorDrop(m: MemConfig, p: PgConfig, s: map<string, Record>, rows: map<string, Row>,
                   now: real, id: string, row: Row)
    requires Mirrors(m, p, s, rows, now)
    requires row.deletedAt.Some? || row.info.expiresAt < now
    ensures Mirrors(m, p, s - {id}, rows[id := row], now)
  {
  }

  ghost predicate Comparable(m: MemConfig, p: PgConfig, s: map<string, Record>, rows: map<string, Row>, r: Request) {
    && MemFaithful(m) && Faithful(p.codec) && m.ttl == p.ttl && Mirrors(m, p, s, rows, r.now)
    && (r.op.Create? ==> r.op.id !in rows)
  }

  lemma PgReply(m: MemConfig, p: PgConfig, s: map<string, Record>, rows: map<string, Row>, r: Request)
    requires Comparable(m, p, s, rows, r)
    ensures ViewReply(MemStep(m, s, r).1) == ViewReply(PgStep(p, rows, r).1) <==>
              !(r.op.Get? && Differs(s, r.op.id, r.now))
    ensures PgStep(p, rows, r).0.Keys == if r.op.Create? then rows.Keys + {r.op.id} else rows.Keys
  {
    if r.op.Get? {
      GetsAgreeIff(m, p, s, rows, r.op.id, r.now);
    }
  }

  /** After a step the record and the row of the operation's own session still correspond. */
  lemma OwnSessionMirrored(m: MemConfig, p: PgConfig, s: map<string, Record>, rows: map<string, Row>, r: Request)
    requires Comparable(m, p, s, rows, r)
    ensures var id, s', rows' := r.op.id, MemStep(m, s, r).0, PgStep(p, rows, r).0;
            if id in s'
            then id in rows' && rows'[id].deletedAt == None && View(Load(m.codec, s'[id])) == View(Held(p, rows'[id]))
            else id in rows' ==> rows'[id].deletedAt.Some? || rows'[id].info.expiresAt < r.now
  {
    if r.op.id in s {
      assert View(Load(m.codec, s[r.op.id])) == View(Held(p, rows[r.op.id]));
    }
  }

  lemma OtherSessionsKept(m: MemConfig, p: PgConfig, s: map<string, Record>, rows: map<string, Row>, r: Request)
    ensures var id, s', rows' := r.op.id, MemStep(m, s, r).0, PgStep(p, rows, r).0;
            && s' == (if id in s' then s[id := s'[id]] else s - {id})
            && (id in rows' ==> rows' == rows[id := rows'[id]])
            && (id !in rows' ==> rows' == rows && id !in rows)
  {
  }

  lemma PgKeepsMirror(m: MemConfig, p: PgConfig, s: map<string, Record>, rows: map<string, Row>, r: Request)
    requires Comparable(m, p, s, rows, r)
    ensures Mirrors(m, p, MemStep(m, s, r).0, PgStep(p, rows, r).0, r.now)
  {
    var id, s', rows' := r.op.id, MemStep(m, s, r).0, PgStep(p, rows, r).0;
    OwnSessionMirrored(m, p, s, rows, r);
    OtherSessionsKept(m, p, s, rows, r);
    if id in s' {
      MirrorPut(m, p, s, rows, r.now, id, s'[id], rows'[id]);
    } else if id in rows' {
      MirrorDrop(m, p, s, rows, r.now, id, rows'[id]);
    }
  }

  /**
   * With fresh ids the tombstone store shows the same sessions, regions, cookies and counts as the dictionary
   * throughout a run exactly when no lookup of the run falls on an instant of expiry or on a live session
   * without a region.
   */
  lemma {:induction false} StoresAgreeIff(m: MemConfig, p: PgConfig, s: map<string, Record>, rows: map<string, Row>,
                                          rs: seq<Request>, from: real)
    requires MemFaithful(m) && Faithful(p.codec) && m.ttl == p.ttl && Mirrors(m, p, s, rows, from)
    requires InOrder(rs, from) && FreshIds(rs, rows.Keys)
    ensures Views(PgRun(p, rows, rs)) == Views(MemRun(m, s, rs)) <==> NeverDiffers(m, s, rs)
    decreases |rs|
  {
    if rs != [] {
      assert Mirrors(m, p, s, rows, rs[0].now);
      PgReply(m, p, s, rows, rs[0]);
      PgKeepsMirror(m, p, s, rows, rs[0]);
      var s', rows' := MemStep(m, s, rs[0]).0, PgStep(p, rows, rs[0]).0;
      StoresAgreeIff(m, p, s', rows', rs[1..], rs[0].now);
      RunViews(m, p, s, rows, rs);
    }
  }

  lemma RunViews(m: MemConfig, p: PgConfig, s: map<string, Record>, rows: map<string, Row>, rs: seq<Request>)
    requires rs != []
    ensures Views(PgRun(p, rows, rs)) == Views(MemRun(m, s, rs)) <==>
              ViewReply(PgStep(p, rows, rs[0]).1) == ViewReply(MemStep(m, s, rs[0]).1) &&
              Views(PgRun(p, PgStep(p, rows, rs[0]).0, rs[1..])) == Views(MemRun(m, MemStep(m, s, rs[0]).0, rs[1..]))
  {
    var pg, mem := PgRun(p, rows, rs), MemRun(m, s, rs);
    assert pg[1..] == PgRun(p, PgStep(p, rows, rs[0]).0, rs[1..]) &&
      mem[1..] == MemRun(m, MemStep(m, s, rs[0]).0, rs[1..]);
    assert Views(pg)[0] == ViewReply(pg[0]) && Views(pg)[1..] == Views(pg[1..]);
    assert Views(mem)[0] == ViewReply(mem[0]) && Views(mem)[1..] == Views(mem[1..]);
    assert Views(pg) == [Views(pg)[0]] + Views(pg)[1..] && Views(mem) == [Views(mem)[0]] + Views(mem)[1..];
  }

  /** A session created without a region comes back as it was from the one store and as `jp` from the other. */
  lemma EmptyRegionDiffers(m: MemConfig, p: PgConfig, id: string, keyId: string, created: real, now: real)
    requires MemFaithful(m) && Faithful(p.codec) && m.ttl == p.ttl && created <= now < created + m.ttl as real
    ensures var rs := [Request(Create(id, keyId, "", None), created), Request(Get(id), now)];
            Views(PgRun(p, map[], rs)) != Views(MemRun(m, map[], rs))
  {
    var create, get := Request(Create(id, keyId, "", None), created), Request(Get(id), now);
    var rs := [create, get];
    var s := MemStep(m, map[], create).0;
    assert rs[1..] == [get] && [get][1..] == [];
    assert Differs(s, id, now);
    assert InOrder([get], created) && FreshIds([get], {id});
    assert InOrder(rs, created) && FreshIds(rs, {});
    assert !NeverDiffers(m, s, [get]);
    var rows: map<string, Row> := map[];
    assert rows.Keys == {};
    StoresAgreeIff(m, p, map[], rows, rs, created);
  }

  // ---------------------------------------------------------------- how long a session lives, and what it tells

  /** Request `i` creates a session that no later request creates again or deletes. */
  predicate Lives(rs: seq<Request>, i: nat) {
    i < |rs| && rs[i].op.Create? &&
    forall k :: i < k < |rs| && rs[k].op.id == rs[i].op.id ==> !rs[k].op.Create? && !rs[k].op.Delete?
  }

  predicate Updates(rs: seq<Request>, id: string, k: nat) {
    k < |rs| && rs[k].op.UpdateCookies? && rs[k].op.id == id
  }

  /** The cookies are those of the last update after request `i`, or none without one. */
  ghost predicate LastCookies(rs: seq<Request>, i: nat, id: string, cookies: Cookies) {
    if forall k: nat :: i < k ==> !Updates(rs, id, k) then cookies == map[]
    else exists k: nat ::
      i < k && Updates(rs, id, k) && rs[k].op.cookies == cookies && forall m: nat :: k < m ==> !Updates(rs, id, m)
  }

  /** The requests after `i` that count one use of the session. */
  function UsesSince(rs: seq<Request>, i: nat, id: string): set<nat> {
    set k: nat | i < k < |rs| && rs[k].op == Increment(id)
  }

  /** The session tells what was requested since request `i` created it; `last_used` aside. */
  ghost predicate Tells(rs: seq<Request>, i: nat, ttl: int, info: Info)
    requires i < |rs| && rs[i].op.Create?
  {
    var create, t := rs[i].op, rs[i].now;
    && info.id == create.id && info.keyId == create.keyId && info.region == create.region
    && info.fingerprint == create.fingerprint && info.createdAt == t && info.expiresAt == t + ttl as real
    && info.requestCount == |UsesSince(rs, i, create.id)|
    && LastCookies(rs, i, create.id, info.cookies)
  }

  /** `time` is that of the last request for the session from its creation on. */
  ghost predicate Touched(rs: seq<Request>, i: nat, time: real)
    requires i < |rs|
  {
    exists k: nat :: i <= k < |rs| && LastFor(rs, rs[i].op.id, k) && rs[k].now == time
  }

  predicate LastFor(rs: seq<Request>, id: string, k: nat) {
    k < |rs| && rs[k].op.id == id && forall m :: k < m < |rs| ==> rs[m].op.id != id
  }

  /** No request so far came later than the session lives. */
  predicate InTime(rs: seq<Request>, end: real) {
    forall k :: 0 <= k < |rs| ==> rs[k].now < end
  }

  lemma TouchedNext(rs: seq<Request>, r: Request, i: nat, time: real)
    requires i < |rs| && Touched(rs, i, time)
    ensures Touched(rs + [r], i, if r.op.id == rs[i].op.id then r.now else time)
  {
    var all := rs + [r];
    if r.op.id == rs[i].op.id {
      assert LastFor(all, all[i].op.id, |rs|);
    } else {
      var k: nat :| i <= k < |rs| && LastFor(rs, rs[i].op.id, k) && rs[k].now == time;
      assert LastFor(all, all[i].op.id, k);
    }
  }

  lemma TouchedFirst(rs: seq<Request>, r: Request)
    ensures Touched(rs + [r], |rs|, r.now)
  {
    assert LastFor(rs + [r], r.op.id, |rs|);
  }

  function MemAfter(cfg: MemConfig, rs: seq<Request>): map<string, Record> {
    if rs == [] then map[] else MemStep(cfg, MemAfter(cfg, rs[..|rs| - 1]), rs[|rs| - 1]).0
  }

  function PgAfter(cfg: PgConfig, rs: seq<Request>): map<string, Row> {
    if rs == [] then map[] else PgStep(cfg, PgAfter(cfg, rs[..|rs| - 1]), rs[|rs| - 1]).0
  }

  ghost predicate ClockForward(rs: seq<Request>) {
    forall j, k :: 0 <= j < k < |rs| ==> rs[j].now <= rs[k].now
  }

  lemma CookiesKept(rs: seq<Request>, r: Request, i: nat, id: string, cookies: Cookies)
    requires i < |rs| && LastCookies(rs, i, id, cookies) && !(r.op.UpdateCookies? && r.op.id == id)
    ensures LastCookies(rs + [r], i, id, cookies)
  {
    assert forall k: nat :: Updates(rs + [r], id, k) <==> Updates(rs, id, k);
  }

  lemma CookiesSet(rs: seq<Request>, r: Request, i: nat)
    requires i < |rs| && r.op.UpdateCookies?
    ensures LastCookies(rs + [r], i, r.op.id, r.op.cookies)
  {
    assert Updates(rs + [r], r.op.id, |rs|);
  }

  lemma CountKept(rs: seq<Request>, r: Request, i: nat, id: string)
    requires i < |rs|
    ensures |UsesSince(rs + [r], i, id)| == |UsesSince(rs, i, id)| + if r.op == Increment(id) then 1 else 0
  {
    assert UsesSince(rs + [r], i, id) == UsesSince(rs, i, id) + if r.op == Increment(id) then {|rs|} else {};
  }

  /** One more request: the story changes by exactly that request. */
  lemma TellsNext(rs: seq<Request>, r: Request, i: nat, ttl: int, info: Info, info': Info)
    requires i < |rs| && rs[i].op.Create? && Tells(rs, i, ttl, info)
    requires info' == info.(lastUsed := info'.lastUsed,
                            cookies := if r.op.UpdateCookies? && r.op.id == info.id then r.op.cookies else info.cookies,
                            requestCount := info.requestCount + if r.op == Increment(info.id) then 1 else 0)
    ensures Tells(rs + [r], i, ttl, info')
  {
    assert (rs + [r])[i] == rs[i];
    CountKept(rs, r, i, info.id);
    if r.op.UpdateCookies? && r.op.id == info.id {
      CookiesSet(rs, r, i);
    } else {
      CookiesKept(rs, r, i, info.id, info.cookies);
    }
  }

  lemma TellsFirst(rs: seq<Request>, r: Request, ttl: int, info: Info)
    requires r.op.Create?
    requires info == Info(r.op.id, r.op.keyId, r.op.region, r.op.fingerprint, map[], r.now, info.lastUsed, 0,
                          r.now + ttl as real)
    ensures Tells(rs + [r], |rs|, ttl, info)
  {
    assert UsesSince(rs + [r], |rs|, r.op.id) == {};
  }

  /** The dictionary holds the session with its story until a lookup finds it expired. */
  ghost predicate MemHolds(cfg: MemConfig, rs: seq<Request>, i: nat)
    requires Lives(rs, i)
  {
    var s, id := MemAfter(cfg, rs), rs[i].op.id;
    if id in s then
      && Tells(rs, i, cfg.ttl, Load(cfg.codec, s[id])) && s[id].info.expiresAt == rs[i].now + cfg.ttl as real
      && Touched(rs, i, s[id].info.lastUsed)
    else rs[|rs| - 1].now > rs[i].now + cfg.ttl as real
  }

  lemma MemHoldsNext(cfg: MemConfig, rs: seq<Request>, r: Request, i: nat)
    requires MemFaithful(cfg) && Lives(rs, i) && MemHolds(cfg, rs, i) && Lives(rs + [r], i) && rs[|rs| - 1].now <= r.now
    ensures MemHolds(cfg, rs + [r], i)
  {
    var id, s := rs[i].op.id, MemAfter(cfg, rs);
    var all := rs + [r];
    assert all[..|rs|] == rs && all[i] == rs[i] && all[|rs|] == r;
    var s' := MemStep(cfg, s, r).0;
    if id in s {
      if id in s' {
        TellsNext(rs, r, i, cfg.ttl, Load(cfg.codec, s[id]), Load(cfg.codec, s'[id]));
        TouchedNext(rs, r, i, s[id].info.lastUsed);
      }
    }
  }

  lemma {:induction false} MemHoldsAlways(cfg: MemConfig, rs: seq<Request>, i: nat)
    requires MemFaithful(cfg) && Lives(rs, i) && ClockForward(rs)
    ensures MemHolds(cfg, rs, i)
  {
    var before, r := rs[..|rs| - 1], rs[|rs| - 1];
    assert rs == before + [r];
    if i == |before| {
      MemHoldsFirst(cfg, before, r);
    } else {
      LivesBefore(before, r, i);
      MemHoldsAlways(cfg, before, i);
      MemHoldsNext(cfg, before, r, i);
    }
  }

  lemma MemHoldsFirst(cfg: MemConfig, rs: seq<Request>, r: Request)
    requires MemFaithful(cfg) && Lives(rs + [r], |rs|)
    ensures MemHolds(cfg, rs + [r], |rs|)
  {
    assert (rs + [r])[..|rs|] == rs && (rs + [r])[|rs|] == r;
    var s' := MemStep(cfg, MemAfter(cfg, rs), r).0;
    TellsFirst(rs, r, cfg.ttl, Load(cfg.codec, s'[r.op.id]));
    TouchedFirst(rs, r);
  }

  lemma LivesBefore(rs: seq<Request>, r: Request, i: nat)
    requires i < |rs| && Lives(rs + [r], i)
    ensures Lives(rs, i)
    ensures ClockForward(rs + [r]) ==> ClockForward(rs)
  {
    assert forall k :: 0 <= k < |rs| ==> rs[k] == (rs + [r])[k];
  }

  /** A session in the dictionary was created by some request and not deleted since. */
  lemma {:induction false} MemPresent(cfg: MemConfig, rs: seq<Request>, id: string)
    requires id in MemAfter(cfg, rs)
    ensures exists i: nat :: Lives(rs, i) && rs[i].op.id == id
  {
    var before, r := rs[..|rs| - 1], rs[|rs| - 1];
    if r.op.Create? && r.op.id == id {
      assert Lives(rs, |rs| - 1);
    } else {
      MemPresent(cfg, before, id);
      var i: nat :| Lives(before, i) && before[i].op.id == id;
      assert forall k :: 0 <= k < |before| ==> before[k] == rs[k];
      assert Lives(rs, i);
    }
  }

  /**
   * The in-memory store over whole runs: after these requests a lookup at `now` answers a session exactly if one was
   * created and not deleted since, no more than the time to live ago, and it tells what was requested since.
   */
  lemma MemSessionsLive(cfg: MemConfig, rs: seq<Request>, id: string, now: real)
    requires MemFaithful(cfg) && ClockForward(rs) && forall k :: 0 <= k < |rs| ==> rs[k].now <= now
    ensures var reply := MemStep(cfg, MemAfter(cfg, rs), Request(Get(id), now)).1;
            && (forall i: nat :: Lives(rs, i) && rs[i].op.id == id && now <= rs[i].now + cfg.ttl as real ==>
                  reply.Session? && reply.info.lastUsed == now && Tells(rs, i, cfg.ttl, reply.info))
            && (forall i: nat :: Lives(rs, i) && rs[i].op.id == id && now > rs[i].now + cfg.ttl as real ==>
                  reply == Missing)
            && ((forall i: nat :: Lives(rs, i) ==> rs[i].op.id != id) ==> reply == Missing)
  {
    var s := MemAfter(cfg, rs);
    forall i: nat | Lives(rs, i) && rs[i].op.id == id
      ensures MemHolds(cfg, rs, i)
      ensures id in s ==> Tells(rs, i, cfg.ttl, Load(cfg.codec, s[id]).(lastUsed := now))
    {
      MemHoldsAlways(cfg, rs, i);
    }
    if id in s {
      MemPresent(cfg, rs, id);
    }
  }

  /** No other request creates the session again. */
  predicate CreatedOnce(rs: seq<Request>, i: nat)
    requires i < |rs| && rs[i].op.Create?
  {
    forall k :: 0 <= k < |rs| && k != i && rs[k].op.Create? ==> rs[k].op.id != rs[i].op.id
  }

  /** The row of the session is there, without a tombstone, and holds its story. */
  ghost predicate PgHolds(cfg: PgConfig, rs: seq<Request>, i: nat)
    requires Lives(rs, i)
  {
    var rows, id := PgAfter(cfg, rs), rs[i].op.id;
    id in rows && rows[id].deletedAt == None && Tells(rs, i, cfg.ttl, Held(cfg, rows[id])) &&
    rows[id].info.expiresAt == rs[i].now + cfg.ttl as real && rows[id].info.region == rs[i].op.region &&
    (InTime(rs, rs[i].now + cfg.ttl as real) ==> Touched(rs, i, rows[id].info.lastUsed))
  }

  lemma PgHoldsNext(cfg: PgConfig, rs: seq<Request>, r: Request, i: nat)
    requires Faithful(cfg.codec) && Lives(rs, i) && PgHolds(cfg, rs, i) && Lives(rs + [r], i)
    ensures PgHolds(cfg, rs + [r], i)
  {
    var id, rows := rs[i].op.id, PgAfter(cfg, rs);
    var all := rs + [r];
    assert all[..|rs|] == rs && all[i] == rs[i] && all[|rs|] == r;
    var rows' := PgStep(cfg, rows, r).0;
    TellsNext(rs, r, i, cfg.ttl, Held(cfg, rows[id]), Held(cfg, rows'[id]));
    if InTime(all, rs[i].now + cfg.ttl as real) {
      assert forall k :: 0 <= k < |rs| ==> all[k] == rs[k];
      assert all[|rs|].now < rs[i].now + cfg.ttl as real;
      TouchedNext(rs, r, i, rows[id].info.lastUsed);
    }
  }

  /** Ids of rows come from creations. */
  lemma {:induction false} PgPresent(cfg: PgConfig, rs: seq<Request>, id: string)
    ensures id in PgAfter(cfg, rs) <==> exists k :: 0 <= k < |rs| && rs[k].op.Create? && rs[k].op.id == id
  {
    if rs != [] {
      var before, r := rs[..|rs| - 1], rs[|rs| - 1];
      PgPresent(cfg, before, id);
      assert rs == before + [r];
      if k :| 0 <= k < |before| && before[k].op.Create? && before[k].op.id == id {
        assert rs[k].op.id == id && rs[k].op.Create?;
      }
      if k :| 0 <= k < |rs| && rs[k].op.Create? && rs[k].op.id == id {
        assert k < |before| ==> before[k] == rs[k];
      }
    }
  }

  lemma {:induction false} PgHoldsAlways(cfg: PgConfig, rs: seq<Request>, i: nat)
    requires Faithful(cfg.codec) && Lives(rs, i) && CreatedOnce(rs, i)
    ensures PgHolds(cfg, rs, i)
  {
    var before, r := rs[..|rs| - 1], rs[|rs| - 1];
    assert rs == before + [r] && forall k :: 0 <= k < |before| ==> before[k] == rs[k];
    if i == |before| {
      PgPresent(cfg, before, r.op.id);
      var rows' := PgStep(cfg, PgAfter(cfg, before), r).0;
      TellsFirst(before, r, cfg.ttl, Held(cfg, rows'[r.op.id]));
      TouchedFirst(before, r);
    } else {
      PgHoldsAlways(cfg, before, i);
      PgHoldsNext(cfg, before, r, i);
    }
  }

  /** A row without a tombstone belongs to a session that was not deleted since its creation. */
  lemma {:induction false} PgUndeleted(cfg: PgConfig, rs: seq<Request>, id: string)
    requires id in PgAfter(cfg, rs) && PgAfter(cfg, rs)[id].deletedAt == None
    requires forall j, k :: 0 <= j < k < |rs| && rs[j].op.Create? && rs[k].op.Create? ==> rs[j].op.id != rs[k].op.id
    ensures exists i: nat :: Lives(rs, i) && rs[i].op.id == id
  {
    var before, r := rs[..|rs| - 1], rs[|rs| - 1];
    assert forall k :: 0 <= k < |before| ==> before[k] == rs[k];
    PgPresent(cfg, before, id);
    if id !in PgAfter(cfg, before) {
      assert Lives(rs, |rs| - 1);
    } else {
      PgUndeleted(cfg, before, id);
      var i: nat :| Lives(before, i) && before[i].op.id == id;
      assert Lives(rs, i);
    }
  }

  /**
   * The PostgreSQL store over whole runs with fresh ids: the same, except that a session is no longer answered at
   * the instant of expiry, an empty region is answered as `jp`, and `last_used` is the time of the request before.
   */
  lemma PgSessionsLive(cfg: PgConfig, rs: seq<Request>, id: string, now: real)
    requires Faithful(cfg.codec)
    requires forall j, k :: 0 <= j < k < |rs| && rs[j].op.Create? && rs[k].op.Create? ==> rs[j].op.id != rs[k].op.id
    ensures var reply := PgStep(cfg, PgAfter(cfg, rs), Request(Get(id), now)).1;
            && (forall i: nat :: Lives(rs, i) && rs[i].op.id == id && now < rs[i].now + cfg.ttl as real ==>
                  && reply.Session?
                  && reply.info.region == (if rs[i].op.region == "" then "jp" else rs[i].op.region)
                  && Tells(rs, i, cfg.ttl, reply.info.(region := rs[i].op.region))
                  && (InTime(rs, rs[i].now + cfg.ttl as real) ==> Touched(rs, i, reply.info.lastUsed)))
            && (forall i: nat :: Lives(rs, i) && rs[i].op.id == id && now >= rs[i].now + cfg.ttl as real ==>
                  reply == Missing)
            && ((forall i: nat :: Lives(rs, i) ==> rs[i].op.id != id) ==> reply == Missing)
  {
    var rows := PgAfter(cfg, rs);
    forall i: nat | Lives(rs, i) && rs[i].op.id == id
      ensures PgHolds(cfg, rs, i)
      ensures Held(cfg, rows[id]) == RowInfo(cfg, rows[id]).(region := rs[i].op.region)
    {
      PgHoldsAlways(cfg, rs, i);
    }
    if id in rows && rows[id].deletedAt == None {
      PgUndeleted(cfg, rs, id);
    }
  }

  /** What either store answers to a creation. */
  lemma CreationsAreAnswered(m: MemConfig, p: PgConfig, s: map<string, Record>, rows: map<string, Row>, r: Request)
    requires MemFaithful(m) && r.op.Create?
    ensures MemStep(m, s, r).1 == Session(Info(r.op.id, r.op.keyId, r.op.region, r.op.fingerprint, map[],
                                               r.now, r.now, 0,
                                               r.now + m.ttl as real))
    ensures PgStep(p, rows, r).1 ==
            if r.op.id in rows then Conflict
            else Session(Info(r.op.id, r.op.keyId, r.op.region, r.op.fingerprint, map[], r.now, r.now, 0,
                              r.now + p.ttl as real))
  {
  }

  // ---------------------------------------------------------------- the objects

  class SessionStore {
    const config: MemConfig
    var sessions: map<string, Record>

    constructor (codec: Option<Codec>, ttlSeconds: int)
      ensures config == MemConfig(codec, ttlSeconds) && sessions == map[]
    {
      config := MemConfig(codec, ttlSeconds);
      sessions := map[];
    }

    /** `id` is the fresh random id. */
    method Create(id: string, keyId: string, region: string, fingerprint: Option<string>, now: real)
      returns (info: Info)
      modifies this
      ensures (sessions, Session(info)) ==
              MemStep(config, old(sessions), Request(Op.Create(id, keyId, region, fingerprint), now))
    {
      var record := Record(Info(id, keyId, region, fingerprint, map[], now, now, 0, now + config.ttl as real),
                           StoreCookies(config.codec, map[]));
      sessions := sessions[id := record];
      info := Load(config.codec, record);
    }

    method Get(id: string, now: real) returns (info: Option<Info>)
      modifies this
      ensures (sessions, if info.Some? then Session(info.value) else Missing) ==
              MemStep(config, old(sessions), Request(Op.Get(id), now))
    {
      if id !in sessions {
        return None;
      }
      var record := sessions[id];
      if now > record.info.expiresAt {
        sessions := sessions - {id};
        return None;
      }
      record := record.(info := record.info.(lastUsed := now));
      sessions := sessions[id := record];
      return Some(Load(config.codec, record));
    }

    method UpdateCookies(id: string, cookies: Cookies, now: real)
      modifies this
      ensures sessions == MemStep(config, old(sessions), Request(Op.UpdateCookies(id, cookies), now)).0
    {
      if id in sessions {
        sessions := sessions[id := sessions[id].(stored := StoreCookies(config.codec, cookies))];
        sessions := sessions[id := sessions[id].(info := sessions[id].info.(lastUsed := now))];
      }
    }

    method IncrementCount(id: string, now: real)
      modifies this
      ensures sessions == MemStep(config, old(sessions), Request(Op.Increment(id), now)).0
    {
      if id in sessions {
        var info := sessions[id].info;
        sessions := sessions[id :=
          sessions[id].(info := info.(requestCount := info.requestCount + 1, lastUsed := now))];
      }
    }

    method Delete(id: string, now: real)
      modifies this
      ensures sessions == MemStep(config, old(sessions), Request(Op.Delete(id), now)).0
    {
      sessions := sessions - {id};
    }
  }

  class PostgresSessionStore {
    const config: PgConfig
    var rows: map<string, Row>

    constructor (codec: Codec, ttlSeconds: int)
      ensures config == PgConfig(codec, ttlSeconds) && rows == map[]
    {
      config := PgConfig(codec, ttlSeconds);
      rows := map[];
    }

    /** `None` where the primary key makes the INSERT fail. */
    method Create(id: string, keyId: string, region: string, fingerprint: Option<string>, now: real)
      returns (info: Option<Info>)
      modifies this
      ensures (rows, if info.Some? then Session(info.value) else Conflict) ==
              PgStep(config, old(rows), Request(Op.Create(id, keyId, region, fingerprint), now))
    {
      if id in rows {
        return None;
      }
      var created := Info(id, keyId, region, fingerprint, map[], now, now, 0, now + config.ttl as real);
      rows := rows[id := Row(created, None, None)];
      return Some(created);
    }

    method Get(id: string, now: real) returns (info: Option<Info>)
      modifies this
      ensures (rows, if info.Some? then Session(info.value) else Missing) ==
              PgStep(config, old(rows), Request(Op.Get(id), now))
    {
      if id !in rows || rows[id].deletedAt != None || rows[id].info.expiresAt <= now {
        return None;
      }
      var row := rows[id];
      var cookies: Cookies := map[];
      if row.cookiesEnc.Some? && row.cookiesEnc.value != "" {
        cookies := config.codec.unseal(row.cookiesEnc.value);
      }
      rows := rows[id := row.(info := row.info.(lastUsed := now))];
      return Some(row.info.(cookies := cookies, region := OrElse(Some(row.info.region), "jp")));
    }

    method UpdateCookies(id: string, cookies: Cookies, now: real)
      modifies this
      ensures rows == PgStep(config, old(rows), Request(Op.UpdateCookies(id, cookies), now)).0
    {
      if id in rows {
        rows := rows[id := rows[id].(cookiesEnc := Some(config.codec.seal(cookies)),
                                     info := rows[id].info.(lastUsed := now))];
      }
    }

    method IncrementCount(id: string, now: real)
      modifies this
      ensures rows == PgStep(config, old(rows), Request(Op.Increment(id), now)).0
    {
      if id in rows {
        var info := rows[id].info;
        rows := rows[id := rows[id].(info := info.(requestCount := info.requestCount + 1, lastUsed := now))];
      }
    }

    method Delete(id: string, now: real)
      modifies this
      ensures rows == PgStep(config, old(rows), Request(Op.Delete(id), now)).0
    {
      if id in rows {
        rows := rows[id := rows[id].(deletedAt := Some(now))];
      }
    }
  }
}
