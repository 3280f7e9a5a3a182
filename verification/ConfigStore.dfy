/** The stored configuration of `service/config_store.go` and the masked token of
    `handler/settings.go`. */
module ConfigStore {
  import opened Wrappers
  import opened Strings

  // ---------------------------------------------------------------- the configuration

  datatype Backup = Backup(
    enabled: bool, intervalHours: int, incrementalIntervalHours: int,
    fullWeekday: int, fullHour: int, retainCount: int, verifyEnabled: bool)

  datatype Thresholds = Thresholds(
    diskUsagePct: int, connectionsPct: int, replicationLagSec: int, backupMaxAgeHours: int)

  datatype Alerts = Alerts(
    enabled: bool, botToken: string, chatId: string, thresholds: Thresholds, cooldownMinutes: int)

  datatype Profile = Profile(
    name: string, caption: string, kind: string, host: string, port: int,
    database: string, sslMode: string, description: string, enabled: bool)

  /** `routes` is None for a nil map. */
  datatype Config = Config(
    backup: Backup, alerts: Alerts, profiles: seq<Profile>, routes: Option<map<string, string>>)

  const POSTGRES := "postgres"
  const CAPTION := "direct postgres"
  const POOLED := "pgbouncer-transaction"
  const PGBOUNCER := "pgbouncer"
  const DISABLE := "disable"
  const DIRECT := "direct-postgres"
  const COOLDOWN := 15

  const FEATURES: set<string> := {"sql", "queries", "maintenance", "drift"}

  /** What the defaults take from the environment, and the two descriptions, which nothing reads.
      `getConfigEnv` falls back on a constant for an empty variable, so the database is never empty. */
  datatype Environment = Environment(
    host: string, port: int, database: string, bouncerHost: string, bouncerPort: int,
    directText: string, pooledText: string)

  predicate Proper(env: Environment) {
    env.database != ""
  }

  function DefaultProfiles(env: Environment): (ps: seq<Profile>)
    ensures |ps| == 2
  {
    [Profile(DIRECT, CAPTION, POSTGRES, env.host, env.port, env.database, DISABLE, env.directText, true),
     Profile(POOLED, PGBOUNCER, PGBOUNCER, env.bouncerHost, env.bouncerPort, env.database, DISABLE,
             env.pooledText, true)]
  }

  function DefaultRoutes(): map<string, string> {
    map key | key in FEATURES :: DIRECT
  }

  function DefaultConfig(env: Environment): Config {
    Config(Backup(true, 1, 1, 1, 4, 7, true),
           Alerts(false, "", "", Thresholds(80, 80, 30, 24), COOLDOWN),
           DefaultProfiles(env), Some(DefaultRoutes()))
  }

  // ---------------------------------------------------------------- normal form

  /** Blank as `strings.TrimSpace` sees it; an absent key reads as the empty string. */
  predicate Blank(routes: map<string, string>, key: string) {
    key !in routes || TrimSpace(routes[key]) == ""
  }

  function NormalRoutes(routes: Option<map<string, string>>): map<string, string> {
    var given := routes.GetOr(DefaultRoutes());
    map key | key in given.Keys + FEATURES ::
      if key in FEATURES && Blank(given, key) then DIRECT else given[key]
  }

  function NormalProfile(p: Profile, env: Environment): Profile {
    p.(caption := if p.caption == "" then p.name else p.caption,
       kind := if p.kind == "" then POSTGRES else p.kind,
       port := if p.port == 0 then env.port else p.port,
       database := if p.database == "" then env.database else p.database,
       sslMode := if p.sslMode == "" then DISABLE else p.sslMode,
       enabled := p.enabled || p.name != "")
  }

  function GivenProfiles(ps: seq<Profile>, env: Environment): seq<Profile> {
    if ps == [] then DefaultProfiles(env) else ps
  }

  function NormalProfiles(ps: seq<Profile>, env: Environment): seq<Profile> {
    var given := GivenProfiles(ps, env);
    seq(|given|, i requires 0 <= i < |given| => NormalProfile(given[i], env))
  }

  function NormalCooldown(minutes: int): int {
    if minutes <= 0 then COOLDOWN else minutes
  }

  function Normal(c: Config, env: Environment): Config {
    c.(profiles := NormalProfiles(c.profiles, env),
       routes := Some(NormalRoutes(c.routes)),
       alerts := c.alerts.(cooldownMinutes := NormalCooldown(c.alerts.cooldownMinutes)))
  }

  /** What a normalised configuration promises to its readers. */
  ghost predicate IsNormal(c: Config, env: Environment) {
    && c.profiles != []
    && (forall i | 0 <= i < |c.profiles| :: ProfileIsNormal(c.profiles[i], env))
    && c.routes.Some?
    && (forall key | key in FEATURES :: !Blank(c.routes.value, key))
    && c.alerts.cooldownMinutes > 0
  }

  predicate ProfileIsNormal(p: Profile, env: Environment) {
    && (p.caption == "" ==> p.name == "")
    && p.kind != ""
    && (p.port == 0 ==> env.port == 0)
    && p.database != ""
    && p.sslMode != ""
    && (!p.enabled ==> p.name == "")
  }

  lemma DirectIsNotBlank()
    ensures TrimSpace(DIRECT) != ""
  {
    var l, r := TrimSpaceSplits(DIRECT);
    assert DIRECT[0] == 'd';
    assert !AllSpace(DIRECT);
  }

  lemma ProfileNormalExactly(p: Profile, env: Environment)
    requires Proper(env)
    ensures NormalProfile(p, env) == p <==> ProfileIsNormal(p, env)
    ensures ProfileIsNormal(NormalProfile(p, env), env)
  {
    assert POSTGRES[0] == 'p' && DISABLE[0] == 'd';
  }

  /** The configurations that normalising leaves alone are exactly the normal ones. */
  lemma NormalExactly(c: Config, env: Environment)
    requires Proper(env)
    ensures Normal(c, env) == c <==> IsNormal(c, env)
  {
    var n := Normal(c, env);
    NormalIsNormal(c, env);
    if IsNormal(c, env) {
      forall i | 0 <= i < |c.profiles|
        ensures NormalProfile(c.profiles[i], env) == c.profiles[i]
      {
        ProfileNormalExactly(c.profiles[i], env);
      }
      assert n.profiles == c.profiles;
      assert NormalRoutes(c.routes) == c.routes.value;
      assert n.alerts == c.alerts;
    }
  }


  /** Normalising makes every configuration normal. */
  lemma NormalIsNormal(c: Config, env: Environment)
    requires Proper(env)
    ensures IsNormal(Normal(c, env), env)
  {
    var n := Normal(c, env);
    forall i | 0 <= i < |n.profiles|
      ensures ProfileIsNormal(n.profiles[i], env)
    {
      ProfileNormalExactly(GivenProfiles(c.profiles, env)[i], env);
    }
    DirectIsNotBlank();
  }

  /** Normalising twice is normalising once, for every configuration. */
  lemma NormalIsIdempotent(c: Config, env: Environment)
    requires Proper(env)
    ensures Normal(Normal(c, env), env) == Normal(c, env)
  {
    NormalIsNormal(c, env);
    NormalExactly(Normal(c, env), env);
  }

  /** The defaults are normal exactly unless the pooled profile has port 0 and the direct one
      has not: normalising would then send the pooled profile to the direct one's port. */
  lemma DefaultsAreNormalExactly(env: Environment)
    requires Proper(env)
    ensures IsNormal(DefaultConfig(env), env) <==> env.bouncerPort != 0 || env.port == 0
    ensures env.bouncerPort == 0 ==> Normal(DefaultConfig(env), env).profiles[1].port == env.port
  {
    DirectIsNotBlank();
    var ps := DefaultProfiles(env);
    assert DIRECT[0] == 'd' && CAPTION[0] == 'd' && POOLED[0] == 'p' && PGBOUNCER[0] == 'p' && POSTGRES[0] == 'p';
    assert DISABLE[0] == 'd';
    assert ProfileIsNormal(ps[0], env);
    assert ProfileIsNormal(ps[1], env) <==> env.bouncerPort != 0 || env.port == 0;
  }

  /** A profile cannot be switched off by its flag: after normalising it is off exactly when it
      was off and has no name. */
  lemma DisabledExactly(ps: seq<Profile>, env: Environment, i: nat)
    requires i < |ps|
    ensures |NormalProfiles(ps, env)| == |ps|
    ensures !NormalProfiles(ps, env)[i].enabled <==> !ps[i].enabled && ps[i].name == ""
  {
    assert ps != [];
    assert NormalProfiles(ps, env)[i] == NormalProfile(ps[i], env);
  }

  /** Only the four features are given routes, only blank ones change, and no route is lost. */
  lemma RoutesAreKept(routes: map<string, string>, key: string)
    ensures key in NormalRoutes(Some(routes)) <==> key in routes || key in FEATURES
    ensures key in routes && !(key in FEATURES && Blank(routes, key)) ==> NormalRoutes(Some(routes))[key] == routes[key]
    ensures key in FEATURES && Blank(routes, key) ==> NormalRoutes(Some(routes))[key] == DIRECT
  {
  }

  // ---------------------------------------------------------------- the store

  /** A configuration in memory: the profiles are a slice that normalising overwrites. */
  class Store {
    var backup: Backup
    var alerts: Alerts
    var profiles: array<Profile>
    var routes: Option<map<string, string>>

    ghost function Contents(): Config
      reads this, profiles
    {
      Config(backup, alerts, profiles[..], routes)
    }

    constructor (env: Environment)
      ensures Contents() == DefaultConfig(env)
      ensures fresh(profiles)
    {
      var c := DefaultConfig(env);
      backup, alerts, routes := c.backup, c.alerts, c.routes;
      profiles := new Profile[|c.profiles|](i requires 0 <= i < |c.profiles| => c.profiles[i]);
    }

    /** `Update` takes over the slice it is given and normalises it in place. */
    method Update(b: Backup, a: Alerts, ps: array<Profile>, rs: Option<map<string, string>>, env: Environment)
      requires Proper(env)
      modifies this, ps
      ensures Contents() == Normal(Config(b, a, old(ps[..]), rs), env)
      ensures IsNormal(Contents(), env)
      ensures profiles == ps || (ps.Length == 0 && fresh(profiles))
    {
      backup, alerts, profiles, routes := b, a, ps, rs;
      ApplyConnectionDefaults(env);
      NormalIsNormal(Config(b, a, old(ps[..]), rs), env);
    }

    /** `applyConnectionDefaultsLocked` */
    method ApplyConnectionDefaults(env: Environment)
      modifies this, profiles
      ensures Contents() == Normal(old(Contents()), env)
      ensures profiles == old(profiles) || (old(profiles.Length) == 0 && fresh(profiles))
    {
      ghost var before := profiles[..];
      var defaults := DefaultProfiles(env);
      if profiles.Length == 0 {
        profiles := new Profile[|defaults|](i requires 0 <= i < |defaults| => defaults[i]);
        assert profiles[..] == defaults;
      }
      assert profiles[..] == GivenProfiles(before, env);
      if alerts.cooldownMinutes <= 0 {
        alerts := alerts.(cooldownMinutes := COOLDOWN);
      }
      var filled := FillRoutes(routes);
      routes := Some(filled);
      FillProfiles(profiles, env);
      assert profiles[..] == NormalProfiles(before, env);
    }
  }

  /** The loop over the profiles, each overwritten in place. */
  method FillProfiles(ps: array<Profile>, env: Environment)
    modifies ps
    ensures forall i | 0 <= i < ps.Length :: ps[i] == NormalProfile(old(ps[i]), env)
  {
    var i := 0;
    while i < ps.Length
      invariant 0 <= i <= ps.Length
      invariant forall k | 0 <= k < i :: ps[k] == NormalProfile(old(ps[k]), env)
      invariant forall k | i <= k < ps.Length :: ps[k] == old(ps[k])
    {
      var p := FillProfile(ps[i], env);
      ps[i] := p;
      i := i + 1;
    }
  }

  /** The fields of a profile, filled one after the other. */
  method FillProfile(given: Profile, env: Environment) returns (p: Profile)
    ensures p == NormalProfile(given, env)
  {
    p := given;
    if p.caption == "" {
      p := p.(caption := p.name);
    }
    if p.kind == "" {
      p := p.(kind := POSTGRES);
    }
    if p.port == 0 {
      p := p.(port := DefaultProfiles(env)[0].port);
    }
    if p.database == "" {
      p := p.(database := DefaultProfiles(env)[0].database);
    }
    if p.sslMode == "" {
      p := p.(sslMode := DISABLE);
    }
    if !p.enabled {
      p := p.(enabled := p.name != "");
    }
  }

  /** The loop over the default routes, in whatever order the map yields them. */
  method FillRoutes(given: Option<map<string, string>>) returns (routes: map<string, string>)
    ensures routes == NormalRoutes(given)
  {
    routes := given.GetOr(DefaultRoutes());
    ghost var start := routes;
    var left := FEATURES;
    while left != {}
      invariant left <= FEATURES
      invariant start.Keys <= routes.Keys <= start.Keys + FEATURES
      invariant forall key | key in FEATURES - left :: key in routes && routes[key] == NormalRoutes(given)[key]
      invariant forall key | key in routes && (key !in FEATURES || key in left) ::
                  key in start && routes[key] == start[key]
      decreases left
    {
      var key :| key in left;
      left := left - {key};
      if Blank(routes, key) {
        routes := routes[key := DIRECT];
      }
    }
    assert routes == NormalRoutes(given);
  }

  // ---------------------------------------------------------------- the masked token

  const MASK := "****"

  /** `GetSettings` */
  function Displayed(stored: Config): Config {
    if stored.alerts.botToken != "" then stored.(alerts := stored.alerts.(botToken := MASK)) else stored
  }

  /** The handler on the store: the token is masked in a copy, so the store keeps it. */
  method GetSettings(store: Store) returns (cfg: Config)
    ensures cfg == Displayed(store.Contents())
  {
    cfg := Config(store.backup, store.alerts, store.profiles[..], store.routes);
    if cfg.alerts.botToken != "" {
      cfg := cfg.(alerts := cfg.alerts.(botToken := MASK));
    }
  }

  /** `UpdateSettings`, up to the stored configuration */
  function Unmasked(posted: Config, existing: Config): Config {
    if posted.alerts.botToken == MASK
    then posted.(alerts := posted.alerts.(botToken := existing.alerts.botToken))
    else posted
  }

  function AfterPost(posted: Config, existing: Config, env: Environment): Config {
    Normal(Unmasked(posted, existing), env)
  }

  /** The handler on the store, undisturbed: it reads the stored token, then replaces the configuration. */
  method UpdateSettings(store: Store, b: Backup, a: Alerts, ps: array<Profile>, rs: Option<map<string, string>>,
                        env: Environment)
    requires Proper(env) && ps != store.profiles
    modifies store, ps
    ensures store.Contents() == AfterPost(Config(b, a, old(ps[..]), rs), old(store.Contents()), env)
  {
    var alerts := a;
    if alerts.botToken == MASK {
      alerts := alerts.(botToken := store.alerts.botToken);
    }
    store.Update(b, alerts, ps, rs, env);
  }

  /** Posting back what was displayed normalises the stored configuration and changes nothing
      else, so a normal one stays as it is; the token survives whatever it was. */
  lemma PostingBackKeeps(stored: Config, env: Environment)
    requires Proper(env)
    ensures AfterPost(Displayed(stored), stored, env) == Normal(stored, env)
    ensures AfterPost(Displayed(stored), stored, env) == stored <==> IsNormal(stored, env)
  {
    NormalExactly(stored, env);
  }

  /** What is displayed depends on the token only through whether there is one. */
  lemma DisplayHidesToken(c: Config, token: string, token': string)
    ensures Displayed(c.(alerts := c.alerts.(botToken := token)))
            == Displayed(c.(alerts := c.alerts.(botToken := token')))
            <==> (token == "" <==> token' == "")
  {
    var x, y := c.(alerts := c.alerts.(botToken := token)), c.(alerts := c.alerts.(botToken := token'));
    assert Displayed(x).alerts.botToken == if token == "" then "" else MASK;
    assert Displayed(y).alerts.botToken == if token' == "" then "" else MASK;
    if (token == "") == (token' == "") {
      assert Displayed(x) == Displayed(y);
    }
  }

  /** Every token but the mask itself can be entered, the empty one removes it, and the mask is
      stored only where it was stored before. */
  lemma TokenExactly(posted: Config, existing: Config, env: Environment)
    ensures AfterPost(posted, existing, env).alerts.botToken == posted.alerts.botToken <==>
            posted.alerts.botToken != MASK || existing.alerts.botToken == MASK
    ensures AfterPost(posted, existing, env).alerts.botToken == MASK ==>
            existing.alerts.botToken == MASK && posted.alerts.botToken == MASK
  {
  }

  /** Reading the stored token and storing the configuration are two lock sections. With another
      post in between the outcome is that of one post after the other exactly when this one
      brought its own token or the other one left the token alone; otherwise the token that the
      other post stored is lost. */
  lemma InterleavedExactly(posted: Config, other: Config, existing: Config, env: Environment)
    ensures var between := AfterPost(other, existing, env);
            Normal(Unmasked(posted, existing), env) == AfterPost(posted, between, env) <==>
            posted.alerts.botToken != MASK || between.alerts.botToken == existing.alerts.botToken
  {
    var between := AfterPost(other, existing, env);
    assert AfterPost(posted, between, env).alerts.botToken == Unmasked(posted, between).alerts.botToken;
    assert Normal(Unmasked(posted, existing), env).alerts.botToken == Unmasked(posted, existing).alerts.botToken;
    if posted.alerts.botToken != MASK || between.alerts.botToken == existing.alerts.botToken {
      assert Unmasked(posted, existing) == Unmasked(posted, between);
    }
  }

  /** Any number of posts, each of some configuration, on top of a stored one. */
  function Posts(stored: Config, posted: seq<Config>, env: Environment): Config {
    if posted == [] then stored
    else AfterPost(posted[|posted| - 1], Posts(stored, posted[..|posted| - 1], env), env)
  }

  /** After every run of posts on a normal configuration the stored one is normal, and its token
      is the last one posted that was not the mask, or the first one when all were. */
  lemma {:induction false} PostsKeep(stored: Config, posted: seq<Config>, env: Environment)
    requires Proper(env) && IsNormal(stored, env)
    ensures IsNormal(Posts(stored, posted, env), env)
    ensures Posts(stored, posted, env).alerts.botToken == LastToken(stored.alerts.botToken, posted)
  {
    if posted == [] {
    } else {
      var front, last := posted[..|posted| - 1], posted[|posted| - 1];
      PostsKeep(stored, front, env);
      NormalIsNormal(Unmasked(last, Posts(stored, front, env)), env);
    }
  }

  function LastToken(token: string, posted: seq<Config>): string {
    if posted == [] then token
    else if posted[|posted| - 1].alerts.botToken != MASK then posted[|posted| - 1].alerts.botToken
    else LastToken(token, posted[..|posted| - 1])
  }

  // ---------------------------------------------------------------- the texts and numbers

  /** What normalising writes into a profile: its name for a missing label, the type "postgres",
      port and database of the direct connection, no SSL; name, host and description stay. */
  lemma NormalProfileExactly(p: Profile, env: Environment)
    ensures var n := NormalProfile(p, env);
            && n.name == p.name && n.host == p.host && n.description == p.description
            && n.caption == (if p.caption == "" then p.name else p.caption)
            && n.kind == (if p.kind == "" then "postgres" else p.kind)
            && n.port == (if p.port == 0 then env.port else p.port)
            && n.database == (if p.database == "" then env.database else p.database)
            && n.sslMode == (if p.sslMode == "" then "disable" else p.sslMode)
            && (n.enabled <==> p.enabled || p.name != "")
  {
  }

  /** What normalising does to the rest: the four features go to the direct connection where they
      have no route, the cooldown is fifteen minutes where it is not positive, and everything else
      stays as it was. */
  lemma NormalExactlyWrites(c: Config, env: Environment, key: string)
    ensures var n := Normal(c, env);
            && n.backup == c.backup && n.alerts.enabled == c.alerts.enabled
            && n.alerts.botToken == c.alerts.botToken && n.alerts.chatId == c.alerts.chatId
            && n.alerts.thresholds == c.alerts.thresholds
            && n.alerts.cooldownMinutes == (if c.alerts.cooldownMinutes <= 0 then 15 else c.alerts.cooldownMinutes)
            && (c.profiles != [] ==> |n.profiles| == |c.profiles|) && n.routes.Some?
            && (key in ["sql", "queries", "maintenance", "drift"] ==>
                  && key in n.routes.value
                  && n.routes.value[key] ==
                     if c.routes.Some? && key in c.routes.value && TrimSpace(c.routes.value[key]) != ""
                     then c.routes.value[key] else "direct-postgres")
            && (key !in ["sql", "queries", "maintenance", "drift"] ==>
                  && (key in n.routes.value <==> c.routes.Some? && key in c.routes.value)
                  && (key in n.routes.value ==> n.routes.value[key] == c.routes.value[key]))
  {
    FeaturesExactly(key);
    DirectIsNotBlank();
  }

  lemma FeaturesExactly(key: string)
    ensures key in FEATURES <==> key in ["sql", "queries", "maintenance", "drift"]
  {
  }

  /** The two profiles of the defaults: the direct connection and the one through PgBouncer, each
      with its own host and port. */
  lemma DefaultProfilesExactly(env: Environment)
    ensures var ps := DefaultProfiles(env);
            && ps[0].name == "direct-postgres" && ps[0].kind == "postgres"
            && ps[0].host == env.host && ps[0].port == env.port
            && ps[1].name == "pgbouncer-transaction" && ps[1].kind == "pgbouncer"
            && ps[1].host == env.bouncerHost && ps[1].port == env.bouncerPort
            && ps[0].database == ps[1].database == env.database
            && ps[0].sslMode == ps[1].sslMode == "disable" && ps[0].enabled && ps[1].enabled
  {
  }

  lemma DefaultSettingsExactly(env: Environment)
    ensures var c := DefaultConfig(env);
            && c.backup.enabled && c.backup.verifyEnabled && c.backup.intervalHours == 1
            && c.backup.incrementalIntervalHours == 1 && c.backup.fullWeekday == 1 && c.backup.fullHour == 4
            && c.backup.retainCount == 7
            && !c.alerts.enabled && c.alerts.botToken == c.alerts.chatId == "" && c.alerts.cooldownMinutes == 15
            && c.alerts.thresholds.diskUsagePct == 80 && c.alerts.thresholds.connectionsPct == 80
            && c.alerts.thresholds.replicationLagSec == 30 && c.alerts.thresholds.backupMaxAgeHours == 24
  {
  }

  /** What is displayed, and what a post stores, in terms of the four stars. */
  lemma MaskExactly(stored: Config, posted: Config)
    ensures Displayed(stored) == stored.(alerts := stored.alerts.(botToken :=
              if stored.alerts.botToken == "" then "" else "****"))
    ensures Unmasked(posted, stored) == posted.(alerts := posted.alerts.(botToken :=
              if posted.alerts.botToken == "****" then stored.alerts.botToken else posted.alerts.botToken))
  {
  }
}
