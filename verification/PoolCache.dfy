/** The connection-pool cache of `service/pool_manager.go`. Every method below is one lock
    section, so that any interleaving of callers is some sequence of them. Pools are handles:
    0 is the default pool, and the cache opens 1, 2, 3, ... */
module PoolCache {
  import opened Wrappers
  import opened Strings

  const MAX_POOLS := 16
  const IDLE_TTL := 600_000_000_000   // ten minutes, in nanoseconds
  const DIRECT := "direct-postgres"
  const DEFAULT_DB := "(default)"

  // ---------------------------------------------------------------- keys

  function ProfileOr(profile: string): string {
    if profile == "" then DIRECT else profile
  }

  function DatabaseOr(db: string): string {
    if db == "" then DEFAULT_DB else db
  }

  function PoolKey(profile: string, db: string): string {
    Pair(ProfileOr(profile), '|', DatabaseOr(db))
  }

  lemma PoolKeyIsNotEmpty(profile: string, db: string)
    ensures PoolKey(profile, db) != ""
  {
  }

  /** Two profiles share a key for some pair of databases exactly when one is the other
      followed by a bar: nothing forbids '|' in a profile name. */
  lemma KeysClashExactly(p: string, q: string)
    requires ProfileOr(p) != ProfileOr(q)
    ensures (exists d, e :: PoolKey(p, d) == PoolKey(q, e)) <==>
            (ProfileOr(p) + "|" <= ProfileOr(q) || ProfileOr(q) + "|" <= ProfileOr(p))
  {
    var a, b := ProfileOr(p), ProfileOr(q);
    if d, e :| PoolKey(p, d) == PoolKey(q, e) {
      PairClashExtends(a, DatabaseOr(d), b, DatabaseOr(e), '|');
    }
    if a + "|" <= b {
      ExtensionClashes(p, q);
    }
    if b + "|" <= a {
      ExtensionClashes(q, p);
      var e, d :| PoolKey(q, e) == PoolKey(p, d);
      assert PoolKey(p, d) == PoolKey(q, e);
    }
  }

  lemma ExtensionClashes(p: string, q: string)
    requires ProfileOr(p) + "|" <= ProfileOr(q)
    ensures exists d, e :: PoolKey(p, d) == PoolKey(q, e)
  {
    var a, b := ProfileOr(p), ProfileOr(q);
    var d := b[|a| + 1..] + "|" + DEFAULT_DB;
    assert b == a + "|" + b[|a| + 1..];
    assert PoolKey(p, d) == PoolKey(q, "");
  }

  /** Profiles without '|' never share a key, and the database is part of the key. */
  lemma PlainProfilesAreApart(p: string, d: string, q: string, e: string)
    requires '|' !in ProfileOr(p) && '|' !in ProfileOr(q) && PoolKey(p, d) == PoolKey(q, e)
    ensures ProfileOr(p) == ProfileOr(q) && DatabaseOr(d) == DatabaseOr(e)
  {
    PairInjective(ProfileOr(p), DatabaseOr(d), ProfileOr(q), DatabaseOr(e), '|');
  }

  /** Where a request goes: to the default pool, or to the cache under a key. `currentDb` is
      the answer of the default pool, `profileDb` the database of the configured profile. */
  datatype Route = Default | Cached(key: string)

  function RouteOf(db: string, profile: string, currentDb: string, profileDb: string): Route {
    if profile == "" || profile == DIRECT then
      if db == "" || db == currentDb then Default else Cached(PoolKey(profile, db))
    else Cached(PoolKey(profile, if db == "" then profileDb else db))
  }

  /** Where a request goes, in terms of the request alone. */
  lemma RouteExactly(db: string, profile: string, currentDb: string, profileDb: string)
    ensures RouteOf(db, profile, currentDb, profileDb).Default? <==>
            (profile == "" || profile == "direct-postgres") && (db == "" || db == currentDb)
    ensures RouteOf(db, profile, currentDb, profileDb).Cached? ==>
              RouteOf(db, profile, currentDb, profileDb).key ==
              (if profile == "" then "direct-postgres" else profile) + "|"
              + (if db != "" then db else if profileDb != "" then profileDb else "(default)")
  {
  }

  /** A pool made for the key of one profile and database was not made for that of another, when
      the profiles have no bar: requests for different databases never share a cached pool. */
  lemma DatabasesNeverShare(made: seq<string>, pool: nat, p: string, d: string, q: string, e: string)
    requires '|' !in p && '|' !in q && 1 <= pool <= |made|
    requires made[pool - 1] == p + "|" + d && made[pool - 1] == q + "|" + e
    ensures p == q && d == e
  {
    assert Pair(p, '|', d) == p + "|" + d && Pair(q, '|', e) == q + "|" + e;
    PairInjective(p, d, q, e, '|');
  }

  // ---------------------------------------------------------------- state

  datatype Managed = Managed(pool: nat, lastUsed: int)

  /** `made` lists the keys for which pools were opened: the first entry is pool 1, and so on.
      `closes` has one entry per call of Close on a pool; `stopped` says that the stop channel
      is closed. */
  datatype Cache = Cache(pools: map<string, Managed>, made: seq<string>, closes: multiset<nat>, stopped: bool)

  const EMPTY := Cache(map[], [], multiset{}, false)

  /** How opening a pool can go: unknown or disabled profile or bad settings, no pool, a pool
      that does not answer (it is closed again), or a working pool. */
  datatype Opening = Refused | NotOpened | NoAnswer | Opened

  function Touch(c: Cache, key: string, now: int): Cache {
    if key in c.pools then c.(pools := c.pools[key := c.pools[key].(lastUsed := now)]) else c
  }

  function Remove(c: Cache, key: string): Cache
    requires key in c.pools
  {
    c.(pools := c.pools - {key}, closes := c.closes + multiset{c.pools[key].pool})
  }

  /** A least recently used entry. */
  predicate IsOldest(pools: map<string, Managed>, key: string) {
    key in pools && forall k | k in pools :: pools[key].lastUsed <= pools[k].lastUsed
  }

  /** Room is made before it is known whether the new pool can be opened at all. */
  function MakeRoom(c: Cache, victim: string): Cache
    requires |c.pools| >= MAX_POOLS ==> victim in c.pools
  {
    if |c.pools| >= MAX_POOLS then Remove(c, victim) else c
  }

  function OpenPool(c: Cache, key: string, opening: Opening, now: int): Cache {
    match opening
    case Refused => c
    case NotOpened => c
    case NoAnswer => c.(made := c.made + [key], closes := c.closes + multiset{|c.made| + 1})
    case Opened => c.(made := c.made + [key], pools := c.pools[key := Managed(|c.made| + 1, now)])
  }

  /** The write-locked second half of `GetPoolForProfile`. */
  function Create(c: Cache, key: string, opening: Opening, victim: string, now: int): Cache
    requires key !in c.pools && |c.pools| >= MAX_POOLS ==> victim in c.pools
  {
    if key in c.pools then Touch(c, key, now) else OpenPool(MakeRoom(c, victim), key, opening, now)
  }

  predicate Fresh(m: Managed, now: int) {
    now - m.lastUsed < IDLE_TTL
  }

  function Idle(pools: map<string, Managed>, now: int): set<string> {
    set k | k in pools && !Fresh(pools[k], now)
  }

  // ---------------------------------------------------------------- invariant

  /** A pool in the cache was opened for the key that holds it and is not closed, no pool was
      closed twice or without having been opened, and what was opened and is not closed is held.
      The default pool, 0, is never closed. */
  ghost predicate Accounts(c: Cache) {
    && (forall k | k in c.pools :: EntryOk(c.made, c.closes, k, c.pools[k].pool))
    && ClosesOk(|c.made|, c.closes)
    && |c.pools| == |c.made| - |c.closes|
  }

  predicate EntryOk(made: seq<string>, closes: multiset<nat>, k: string, pool: nat) {
    1 <= pool <= |made| && made[pool - 1] == k && pool !in closes
  }

  ghost predicate ClosesOk(n: nat, closes: multiset<nat>) {
    forall h | h in closes :: 1 <= h <= n && closes[h] == 1
  }

  ghost predicate Inv(c: Cache) {
    && |c.pools| <= MAX_POOLS
    && "" !in c.pools
    && Accounts(c)
  }

  lemma CloseOne(n: nat, closes: multiset<nat>, h: nat)
    requires ClosesOk(n, closes) && h !in closes && 1 <= h
    ensures ClosesOk(if h <= n then n else h, closes + multiset{h}) && |closes + multiset{h}| == |closes| + 1
  {
  }

  lemma WithoutKey(pools: map<string, Managed>, key: string)
    requires key in pools
    ensures |pools - {key}| == |pools| - 1
  {
    assert (pools - {key}).Keys == pools.Keys - {key};
    assert |(pools - {key}).Keys| == |pools - {key}| && |pools.Keys| == |pools|;
  }

  lemma WithKey(pools: map<string, Managed>, key: string, m: Managed)
    ensures |pools[key := m]| == if key in pools then |pools| else |pools| + 1
    ensures pools[key := m].Keys == pools.Keys + {key}
  {
    assert |pools[key := m].Keys| == |pools[key := m]| && |pools.Keys| == |pools|;
    if key in pools { assert pools.Keys + {key} == pools.Keys; }
  }

  lemma RemoveKeeps(c: Cache, key: string)
    requires Accounts(c) && key in c.pools
    ensures Accounts(Remove(c, key)) && |Remove(c, key).pools| == |c.pools| - 1
  {
    var h := c.pools[key].pool;
    assert EntryOk(c.made, c.closes, key, h);
    CloseOne(|c.made|, c.closes, h);
    WithoutKey(c.pools, key);
    forall k | k in c.pools && k != key ensures EntryOk(c.made, c.closes + multiset{h}, k, c.pools[k].pool) {
      assert EntryOk(c.made, c.closes, k, c.pools[k].pool);
    }
  }

  /** s is c after exactly the pools of `gone` were closed and removed. */
  ghost predicate Dropped(c: Cache, s: Cache, gone: set<string>) {
    && gone <= c.pools.Keys && s.pools == c.pools - gone
    && s.made == c.made && s.stopped == c.stopped
    && (forall k | k in gone :: c.pools[k].pool in s.closes)
    && c.closes <= s.closes
  }

  lemma DropOne(c: Cache, s: Cache, gone: set<string>, name: string)
    requires Dropped(c, s, gone) && Accounts(s) && name in s.pools
    ensures Dropped(c, Remove(s, name), gone + {name}) && Accounts(Remove(s, name))
  {
    RemoveKeeps(s, name);
    assert c.pools - (gone + {name}) == s.pools - {name};
  }

  lemma DropAll(c: Cache, s: Cache)
    requires Dropped(c, s, c.pools.Keys) && Accounts(s)
    ensures s.pools == map[] && |s.closes| == |s.made|
  {
    assert s.pools.Keys == {};
  }

  lemma TouchKeeps(c: Cache, key: string, now: int)
    requires Accounts(c)
    ensures Accounts(Touch(c, key, now)) && Touch(c, key, now).pools.Keys == c.pools.Keys
    ensures |Touch(c, key, now).pools| == |c.pools|
  {
    if key in c.pools {
      assert EntryOk(c.made, c.closes, key, c.pools[key].pool);
      WithKey(c.pools, key, c.pools[key].(lastUsed := now));
    }
  }

  lemma EntryStays(made: seq<string>, closes: multiset<nat>, k: string, pool: nat, key: string)
    requires EntryOk(made, closes, k, pool)
    ensures EntryOk(made + [key], closes, k, pool) && EntryOk(made + [key], closes + multiset{|made| + 1}, k, pool)
  {
  }

  lemma FailedOpenKeeps(c: Cache, key: string)
    requires Accounts(c)
    ensures Accounts(c.(made := c.made + [key], closes := c.closes + multiset{|c.made| + 1}))
  {
    CloseOne(|c.made|, c.closes, |c.made| + 1);
    forall k | k in c.pools
      ensures EntryOk(c.made + [key], c.closes + multiset{|c.made| + 1}, k, c.pools[k].pool)
    {
      EntryStays(c.made, c.closes, k, c.pools[k].pool, key);
    }
  }

  lemma GoodOpenKeeps(c: Cache, key: string, now: int)
    requires Accounts(c) && key !in c.pools
    ensures Accounts(c.(made := c.made + [key], pools := c.pools[key := Managed(|c.made| + 1, now)]))
  {
    WithKey(c.pools, key, Managed(|c.made| + 1, now));
    assert EntryOk(c.made + [key], c.closes, key, |c.made| + 1);
    forall k | k in c.pools ensures EntryOk(c.made + [key], c.closes, k, c.pools[k].pool) {
      EntryStays(c.made, c.closes, k, c.pools[k].pool, key);
    }
  }

  lemma OpenKeeps(c: Cache, key: string, opening: Opening, now: int)
    requires Accounts(c) && key !in c.pools
    ensures Accounts(OpenPool(c, key, opening, now))
    ensures |OpenPool(c, key, opening, now).pools| <= |c.pools| + 1
  {
    if opening == NoAnswer {
      FailedOpenKeeps(c, key);
    } else if opening == Opened {
      GoodOpenKeeps(c, key, now);
      WithKey(c.pools, key, Managed(|c.made| + 1, now));
    }
  }

  lemma RoomKeeps(c: Cache, victim: string)
    requires Inv(c) && (|c.pools| >= MAX_POOLS ==> victim in c.pools)
    ensures Inv(MakeRoom(c, victim)) && |MakeRoom(c, victim).pools| < MAX_POOLS
    ensures MakeRoom(c, victim).pools.Keys <= c.pools.Keys
  {
    if |c.pools| >= MAX_POOLS { RemoveKeeps(c, victim); }
  }

  lemma OpenKeepsInv(c: Cache, key: string, opening: Opening, now: int)
    requires Inv(c) && |c.pools| < MAX_POOLS && key !in c.pools && key != ""
    ensures Inv(OpenPool(c, key, opening, now))
  {
    OpenKeeps(c, key, opening, now);
  }

  lemma CreateKeeps(c: Cache, key: string, opening: Opening, victim: string, now: int)
    requires Inv(c) && key != "" && (key !in c.pools && |c.pools| >= MAX_POOLS ==> victim in c.pools)
    ensures Inv(Create(c, key, opening, victim, now))
  {
    if key in c.pools {
      TouchKeeps(c, key, now);
    } else {
      RoomKeeps(c, victim);
      OpenKeepsInv(MakeRoom(c, victim), key, opening, now);
    }
  }

  /** A live entry is never overwritten: `Create` either reuses it, or adds the key beside
      every other entry except the one it evicts. */
  lemma CreateOverwritesNothing(c: Cache, key: string, opening: Opening, victim: string, now: int, k: string)
    requires key !in c.pools && |c.pools| >= MAX_POOLS ==> victim in c.pools
    requires k in c.pools && (key !in c.pools && |c.pools| >= MAX_POOLS ==> k != victim)
    ensures var s := Create(c, key, opening, victim, now);
            k in s.pools && s.pools[k].pool == c.pools[k].pool && (k != key ==> s.pools[k] == c.pools[k])
    ensures key in c.pools ==> Create(c, key, opening, victim, now).made == c.made
  {
  }

  /** What the write-locked half leaves: no entry goes unless the cache held sixteen pools, and
      then only a least recently used one, which is closed; every other entry stays as it was. */
  lemma CreateExactly(c: Cache, key: string, opening: Opening, victim: string, now: int, k: string)
    requires Inv(c) && key != "" && (key !in c.pools && |c.pools| >= MAX_POOLS ==> IsOldest(c.pools, victim))
    ensures var s := Create(c, key, opening, victim, now);
            && |s.pools| <= 16
            && (k in c.pools && k != key ==>
                  (k in s.pools <==> key in c.pools || |c.pools| < 16 || k != victim)
                  && (k in s.pools ==> s.pools[k] == c.pools[k]))
            && (key !in c.pools && |c.pools| >= 16 ==>
                  && victim in c.pools && c.pools[victim].pool in s.closes
                  && forall j | j in c.pools :: c.pools[victim].lastUsed <= c.pools[j].lastUsed)
            && (key in s.pools <==> key in c.pools || opening == Opened)
            && (key in s.pools ==> s.pools[key].lastUsed == now)
  {
    CreateKeeps(c, key, opening, victim, now);
  }

  // ---------------------------------------------------------------- interleavings

  /** One lock section of some caller. Map iteration is an arbitrary order of the keys. */
  datatype Section =
    | TouchSection(key: string, now: int)
    | CreateSection(key: string, opening: Opening, victim: string, now: int)
    | SweepSection(order: seq<string>, now: int)
    | CloseSection(order: seq<string>)

  /** The keys of `ks`, each once. */
  ghost predicate Lists(order: seq<string>, ks: set<string>) {
    (forall i, j | 0 <= i < j < |order| :: order[i] != order[j]) && forall k :: k in order <==> k in ks
  }

  ghost predicate Possible(c: Cache, e: Section) {
    match e
    case TouchSection(_, _) => true
    case CreateSection(key, _, victim, _) =>
      key != "" && (key !in c.pools && |c.pools| >= MAX_POOLS ==> IsOldest(c.pools, victim))
    case SweepSection(order, now) => Lists(order, Idle(c.pools, now))
    case CloseSection(order) => !c.stopped && Lists(order, c.pools.Keys)
  }

  function DropList(c: Cache, order: seq<string>): Cache {
    if order == [] then c
    else
      var s := DropList(c, order[..|order| - 1]);
      if order[|order| - 1] in s.pools then Remove(s, order[|order| - 1]) else s
  }

  ghost function After(c: Cache, e: Section): Cache
    requires Possible(c, e)
  {
    match e
    case TouchSection(key, now) => Touch(c, key, now)
    case CreateSection(key, opening, victim, now) => Create(c, key, opening, victim, now)
    case SweepSection(order, now) => DropList(c, order)
    case CloseSection(order) => DropList(c, order).(stopped := true)
  }

  lemma RemoveKeepsInv(c: Cache, key: string)
    requires Inv(c) && key in c.pools
    ensures Inv(Remove(c, key)) && c.closes <= Remove(c, key).closes
  {
    RemoveKeeps(c, key);
  }

  lemma {:induction false} DropListKeeps(c: Cache, order: seq<string>)
    requires Inv(c)
    ensures Inv(DropList(c, order)) && c.closes <= DropList(c, order).closes
  {
    if order == [] {
    } else {
      var front, last := order[..|order| - 1], order[|order| - 1];
      DropListKeeps(c, front);
      if last in DropList(c, front).pools { RemoveKeepsInv(DropList(c, front), last); }
    }
  }

  /** After a sweep or a close exactly the listed pools are gone. */
  lemma {:induction false} DropListRemoves(c: Cache, order: seq<string>, k: string)
    ensures k in DropList(c, order).pools <==> k in c.pools && k !in order
  {
    if order == [] {
    } else {
      var front, last := order[..|order| - 1], order[|order| - 1];
      DropListRemoves(c, front, k);
      assert order == front + [last];
    }
  }

  lemma AfterKeepsInv(c: Cache, e: Section)
    requires Inv(c) && Possible(c, e)
    ensures Inv(After(c, e))
  {
    match e
    case TouchSection(key, now) => TouchKeeps(c, key, now);
    case CreateSection(key, opening, victim, now) => CreateKeeps(c, key, opening, victim, now);
    case SweepSection(order, now) => DropListKeeps(c, order);
    case CloseSection(order) =>
      DropListKeeps(c, order);
      StoppedIsAside(DropList(c, order));
  }

  lemma StoppedIsAside(c: Cache)
    requires Inv(c)
    ensures Inv(c.(stopped := true))
  {
  }

  lemma ClosesGrow(c: Cache, e: Section)
    requires Inv(c) && Possible(c, e)
    ensures c.closes <= After(c, e).closes
  {
    if e.SweepSection? || e.CloseSection? { DropListKeeps(c, e.order); }
  }

  /** What some interleaving of lock sections makes of an empty cache; None when a section
      was not possible. */
  ghost function Interleave(es: seq<Section>): Option<Cache> {
    if es == [] then Some(EMPTY)
    else
      var before := Interleave(es[..|es| - 1]);
      if before.None? || !Possible(before.value, es[|es| - 1]) then None
      else Some(After(before.value, es[|es| - 1]))
  }

  /** In every interleaving: at most MAX_POOLS pools, none closed while it is held, none closed
      twice, the default pool never closed, and every pool that was opened is held or closed. */
  lemma {:induction false} InterleavingsKeepInv(es: seq<Section>)
    requires Interleave(es).Some?
    ensures Inv(Interleave(es).value)
    ensures var c := Interleave(es).value;
            && |c.pools| <= 16 && |c.pools| == |c.made| - |c.closes|
            && (forall h | h in c.closes :: 1 <= h <= |c.made| && c.closes[h] == 1)
            && (forall k | k in c.pools :: 1 <= c.pools[k].pool <= |c.made| && c.pools[k].pool !in c.closes)
  {
    if es == [] {
    } else {
      InterleavingsKeepInv(es[..|es| - 1]);
      AfterKeepsInv(Interleave(es[..|es| - 1]).value, es[|es| - 1]);
    }
  }

  lemma ClosedStaysOut(c: Cache, e: Section, h: nat, k: string)
    requires Inv(c) && Possible(c, e) && h in c.closes
    ensures h in After(c, e).closes
    ensures k in After(c, e).pools ==> After(c, e).pools[k].pool != h
  {
    AfterKeepsInv(c, e);
    ClosesGrow(c, e);
    assert c.closes[h] <= After(c, e).closes[h];
    if k in After(c, e).pools {
      assert EntryOk(After(c, e).made, After(c, e).closes, k, After(c, e).pools[k].pool);
    }
  }

  /** A closed pool is never in the cache again, in any interleaving that follows. */
  lemma {:induction false} ClosedForEver(es: seq<Section>, more: seq<Section>, h: nat, k: string)
    requires Interleave(es).Some? && Interleave(es + more).Some? && h in Interleave(es).value.closes
    ensures h in Interleave(es + more).value.closes
    ensures k in Interleave(es + more).value.pools ==> Interleave(es + more).value.pools[k].pool != h
  {
    if more == [] {
      assert es + more == es;
      InterleavingsKeepInv(es);
      HeldIsOpen(Interleave(es).value, h, k);
    } else {
      var front := more[..|more| - 1];
      assert (es + more)[..|es + more| - 1] == es + front;
      ClosedForEver(es, front, h, k);
      InterleavingsKeepInv(es + front);
      ClosedStaysOut(Interleave(es + front).value, more[|more| - 1], h, k);
    }
  }

  lemma HeldIsOpen(c: Cache, h: nat, k: string)
    requires Inv(c) && h in c.closes
    ensures k in c.pools ==> c.pools[k].pool != h
  {
    if k in c.pools { assert EntryOk(c.made, c.closes, k, c.pools[k].pool); }
  }

  /** The loop of `Close` over the pools; `now` is the cache without the closed ones. */
  method CloseAll(pools: map<string, Managed>, closes: multiset<nat>, ghost first: Cache)
    returns (done: multiset<nat>, ghost now: Cache)
    requires Accounts(first) && first.pools == pools && first.closes == closes
    ensures Accounts(now) && Dropped(first, now, pools.Keys) && done == now.closes
  {
    done, now := closes, first;
    ghost var gone: set<string> := {};
    var left := pools.Keys;
    while left != {}
      invariant left <= pools.Keys && done == now.closes
      invariant Accounts(now) && Dropped(first, now, gone)
      invariant forall k :: k in gone <==> k in pools && k !in left
      decreases left
    {
      var name :| name in left;
      assert name in now.pools && now.pools[name] == pools[name];
      DropOne(first, now, gone, name);
      now, gone := Remove(now, name), gone + {name};
      left := left - {name};
      done := done + multiset{pools[name].pool};
    }
    assert gone == pools.Keys;
  }

  // ---------------------------------------------------------------- the manager

  class PoolManager {
    var pools: map<string, Managed>
    var made: seq<string>
    var closes: multiset<nat>
    var stopped: bool

    ghost function State(): Cache
      reads this
    {
      Cache(pools, made, closes, stopped)
    }

    constructor ()
      ensures State() == EMPTY && Inv(State())
    {
      pools, made, closes, stopped := map[], [], multiset{}, false;
    }

    /** The read-locked look into the cache: it finds a pool exactly when the key is cached, and
        what it finds was opened for this very key and is not closed. */
    method Lookup(key: string) returns (pool: Option<nat>)
      requires Inv(State())
      ensures pool.Some? <==> key in pools
      ensures pool.Some? ==> EntryOk(made, closes, key, pool.value) && pools[key].pool == pool.value
    {
      pool := if key in pools then Some(pools[key].pool) else None;
      assert pool.Some? ==> EntryOk(made, closes, key, pools[key].pool);
    }

    method TouchPool(key: string, now: int)
      requires Inv(State())
      modifies this
      ensures Inv(State()) && State() == Touch(old(State()), key, now)
    {
      TouchKeeps(State(), key, now);
      if key in pools {
        pools := pools[key := pools[key].(lastUsed := now)];
      }
    }

    /** The victim is a least recently used pool, in whatever order the map is walked: the
        empty string can stand for "none yet" because no key is empty. */
    method EvictOldestLocked() returns (victim: string)
      requires Inv(State()) && |pools| > 0
      modifies this
      ensures IsOldest(old(pools), victim) && State() == Remove(old(State()), victim)
      ensures Inv(State()) && |pools| == |old(pools)| - 1
    {
      var oldestName := "";
      var oldestTime := 0;
      var left := pools.Keys;
      while left != {}
        invariant left <= pools.Keys && pools == old(pools) && State() == old(State())
        invariant oldestName == "" ==> left == pools.Keys
        invariant oldestName != "" ==>
                    && oldestName in pools && oldestTime == pools[oldestName].lastUsed
                    && forall k | k in pools && k !in left :: oldestTime <= pools[k].lastUsed
        decreases left
      {
        var name :| name in left;
        left := left - {name};
        if oldestName == "" || pools[name].lastUsed < oldestTime {
          oldestName := name;
          oldestTime := pools[name].lastUsed;
        }
      }
      victim := oldestName;
      assert pools.Keys != {};
      CloseAndDelete(victim);
    }

    method CloseAndDelete(name: string)
      requires Inv(State()) && name in pools
      modifies this
      ensures State() == Remove(old(State()), name) && Inv(State()) && |pools| == |old(pools)| - 1
    {
      RemoveKeeps(State(), name);
      closes := closes + multiset{pools[name].pool};
      pools := pools - {name};
    }

    /** The write-locked half of `GetPoolForProfile`. */
    method CreatePool(key: string, opening: Opening, now: int) returns (pool: Option<nat>, victim: string)
      requires Inv(State()) && key != ""
      modifies this
      ensures key !in old(pools) && |old(pools)| >= MAX_POOLS ==> IsOldest(old(pools), victim)
      ensures State() == Create(old(State()), key, opening, victim, now) && Inv(State())
      ensures pool == if key in old(pools) || opening == Opened then Some(State().pools[key].pool) else None
    {
      victim := "";
      if key in pools {
        TouchPool(key, now);
        return Some(pools[key].pool), victim;
      }
      if |pools| >= MAX_POOLS {
        victim := EvictOldestLocked();
      }
      pool := Open(key, opening, now);
    }

    /** The sections of one undisturbed request: None is an error. The default pool, 0, answers
        exactly the requests without a profile or for "direct-postgres" that name no database or
        its own. Every other request has a key: the profile, a bar and the requested database, or
        that of the profile when none is requested. It gets the open pool made for this key, which
        counts as used now, and an error exactly when none was cached and none could be opened. */
    method GetPoolForProfile(db: string, profile: string, currentDb: string, profileDb: string, opening: Opening,
                             now: int)
      returns (pool: Option<nat>)
      requires Inv(State())
      modifies this
      ensures Inv(State())
      ensures pool == Some(0) <==> (profile == "" || profile == "direct-postgres") && (db == "" || db == currentDb)
      ensures pool == Some(0) ==> State() == old(State())
      ensures pool != Some(0) ==>
                var key := (if profile == "" then "direct-postgres" else profile) + "|"
                           + (if db != "" then db else if profileDb != "" then profileDb else "(default)");
                && (pool.Some? <==> key in old(pools) || opening == Opened)
                && (pool.Some? ==>
                      && 1 <= pool.value <= |made| && made[pool.value - 1] == key && pool.value !in closes
                      && key in pools && pools[key] == Managed(pool.value, now))
                && (key in old(pools) ==> pool == Some(old(pools)[key].pool) && made == old(made))
    {
      var route := RouteOf(db, profile, currentDb, profileDb);
      if route.Default? {
        return Some(0);
      }
      PoolKeyIsNotEmpty(profile, db);
      PoolKeyIsNotEmpty(profile, profileDb);
      RouteExactly(db, profile, currentDb, profileDb);
      pool := PoolFor(route.key, opening, now);
    }

    /** Looks into the cache, and creates the pool when it is not there. */
    method PoolFor(key: string, opening: Opening, now: int) returns (pool: Option<nat>)
      requires Inv(State()) && key != ""
      modifies this
      ensures Inv(State())
      ensures pool.Some? <==> key in old(pools) || opening == Opened
      ensures pool.Some? ==> key in pools && pools[key] == Managed(pool.value, now)
      ensures pool.Some? ==> EntryOk(made, closes, key, pool.value)
      ensures key in old(pools) ==> pool == Some(old(pools)[key].pool) && made == old(made)
    {
      pool := Lookup(key);
      if pool.Some? {
        TouchPool(key, now);
      } else {
        var victim;
        pool, victim := CreatePool(key, opening, now);
      }
      assert pool.Some? ==> EntryOk(made, closes, key, pools[key].pool);
    }

    /** Opens a pool, tries it, and keeps it. */
    method Open(key: string, opening: Opening, now: int) returns (pool: Option<nat>)
      requires Inv(State()) && |pools| < MAX_POOLS && key !in pools && key != ""
      modifies this
      ensures State() == OpenPool(old(State()), key, opening, now) && Inv(State())
      ensures pool == if opening == Opened then Some(State().pools[key].pool) else None
    {
      ghost var after := OpenPool(State(), key, opening, now);
      OpenKeepsInv(State(), key, opening, now);
      if opening == Refused || opening == NotOpened {
        return None;
      }
      made := made + [key];
      if opening == NoAnswer {
        closes := closes + multiset{|made|};
        assert State() == after;
        return None;
      }
      pools := pools[key := Managed(|made|, now)];
      assert State() == after;
      pool := Some(|made|);
    }

    /** Removes and closes exactly the pools that were idle for the whole period. */
    method SweepIdle(now: int)
      requires Inv(State())
      modifies this
      ensures Inv(State()) && Dropped(old(State()), State(), Idle(old(pools), now))
      ensures forall k :: k in pools <==> k in old(pools) && now - old(pools)[k].lastUsed < 600_000_000_000
      ensures forall k | k in old(pools) && now - old(pools)[k].lastUsed >= 600_000_000_000 ::
                old(pools)[k].pool in closes
    {
      var left := pools.Keys;
      ghost var gone: set<string> := {};
      while left != {}
        invariant left <= pools.Keys && Inv(State())
        invariant Dropped(old(State()), State(), gone)
        invariant forall k :: k in gone <==> k in Idle(old(pools), now) && k !in left
        decreases left
      {
        var name :| name in left;
        left := left - {name};
        if !Fresh(pools[name], now) {
          DropOne(old(State()), State(), gone, name);
          CloseAndDelete(name);
          gone := gone + {name};
        }
      }
      assert gone == Idle(old(pools), now);
    }

    /** The loop of `Close`: calls Close on every pool and leaves the map as it is; `now` is
        the cache without the closed pools. */
    method CloseEach() returns (ghost now: Cache)
      requires Accounts(State())
      modifies this`closes
      ensures Accounts(now) && Dropped(State().(closes := old(closes)), now, pools.Keys) && closes == now.closes
    {
      ghost var first := State();
      closes, now := CloseAll(pools, closes, first);
    }

    /** Closes every pool of the cache. A second call fails when it closes the stop channel
        again, before it comes to any pool. */
    method Close() returns (panics: bool)
      requires Inv(State())
      modifies this
      ensures panics == old(stopped) && Inv(State())
      ensures panics ==> State() == old(State())
      ensures !panics ==> Dropped(old(State()).(stopped := true), State(), old(pools).Keys) && |closes| == |made|
    {
      if stopped {
        return true;
      }
      panics := false;
      stopped := true;
      ghost var now := CloseEach();
      DropAll(State().(closes := old(closes)), now);
      pools := map[];
    }
  }
}
