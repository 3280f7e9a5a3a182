/** The alert states of `service/alerter.go` as values, with the full log of events behind
    the truncated history. Instants and durations are integers (nanoseconds). */
module AlertSpec {
  import opened Wrappers

  const HISTORY := 100

  datatype AlertEvent = AlertEvent(
    time: int, level: string, message: string, metric: string, value: string, key: string, open: bool)

  /** `lastFiredAt` is None while it is Go's zero time. */
  datatype AlertState = AlertState(
    key: string, metric: string, level: string, open: bool, message: string, value: string,
    openedAt: int, lastSeenAt: int, lastFiredAt: Option<int>, resolvedAt: Option<int>, count: nat)

  datatype Breach = Breach(key: string, level: string, metric: string, message: string, value: string)

  datatype Alerts = Alerts(active: map<string, AlertState>, log: seq<AlertEvent>)

  const EMPTY := Alerts(map[], [])

  // ---------------------------------------------------------------- operations

  function Seen(known: Option<AlertState>, b: Breach, now: int): AlertState {
    var s := if known.Some? then known.value
             else AlertState(b.key, b.metric, b.level, true, b.message, b.value, now, now, None, None, 0);
    s.(metric := b.metric, level := b.level, open := true, message := b.message, value := b.value,
       lastSeenAt := now, count := s.count + 1)
  }

  /** Inside the cooldown after the last open event. */
  predicate Suppressed(s: AlertState, now: int, cooldown: int) {
    cooldown > 0 && s.lastFiredAt.Some? && now - s.lastFiredAt.value < cooldown
  }

  function StateOf(a: Alerts, key: string): Option<AlertState> {
    if key in a.active then Some(a.active[key]) else None
  }

  /** A suppressed breach still opens the state, but leaves the event out and the time of
      resolution in. */
  function Fire(a: Alerts, b: Breach, now: int, cooldown: int): Alerts {
    var s := Seen(StateOf(a, b.key), b, now);
    if Suppressed(s, now, cooldown) then a.(active := a.active[b.key := s])
    else
      Alerts(a.active[b.key := s.(lastFiredAt := Some(now), resolvedAt := None)],
             a.log + [AlertEvent(now, b.level, b.message, b.metric, b.value, b.key, true)])
  }

  function Resolved(s: AlertState, now: int): AlertState {
    s.(open := false, resolvedAt := Some(now))
  }

  function ResolvedEvent(key: string, s: AlertState, now: int): AlertEvent {
    AlertEvent(now, "resolved", "Resolved: " + s.message, s.metric, s.value, key, false)
  }

  predicate Missing(a: Alerts, seen: set<string>, key: string) {
    key in a.active && a.active[key].open && key !in seen
  }

  /** One round of the loop in `resolveMissing`. */
  function ResolveKey(a: Alerts, seen: set<string>, key: string, now: int): Alerts {
    if !Missing(a, seen, key) then a
    else Alerts(a.active[key := Resolved(a.active[key], now)], a.log + [ResolvedEvent(key, a.active[key], now)])
  }

  /** The loop, with the keys in the order in which the map yields them. */
  function ResolveInOrder(a: Alerts, seen: set<string>, order: seq<string>, now: int): Alerts {
    if order == [] then a
    else ResolveKey(ResolveInOrder(a, seen, order[..|order| - 1], now), seen, order[|order| - 1], now)
  }

  /** The fires of one check, one clock reading each. */
  function FireAll(a: Alerts, bs: seq<Breach>, clock: nat -> int, cooldown: int): Alerts {
    if bs == [] then a
    else Fire(FireAll(a, bs[..|bs| - 1], clock, cooldown), bs[|bs| - 1], clock(|bs| - 1), cooldown)
  }

  function KeysOf(bs: seq<Breach>): set<string> {
    set b | b in bs :: b.key
  }

  function Tail(log: seq<AlertEvent>): seq<AlertEvent> {
    if |log| <= HISTORY then log else log[|log| - HISTORY..]
  }

  // ---------------------------------------------------------------- what is breached

  datatype Text = Text(message: string, value: string)

  datatype Thresholds = Thresholds(diskPct: int, connectionsPct: int, lagSec: int, backupHours: int)

  datatype Replica = Replica(addr: string, lagSeconds: int, text: Text)

  /** The outcome of the look for the newest backup; NoWalG when no backups are configured. */
  datatype Probe = NoWalG | Unavailable | NoBackups | Latest(age: int)

  /** One collection of measurements, with the texts that formatting makes of them. */
  datatype Stats = Stats(disk: real, diskText: Text, used: int, max: int, connText: Text,
                         replicas: seq<Replica>, backup: Probe, backupText: Text)

  const HOUR := 3_600_000_000_000

  function Alarm(key: string, level: string, metric: string, t: Text): Breach {
    Breach(key, level, metric, t.message, t.value)
  }

  predicate DiskBreached(th: Thresholds, s: Stats) {
    th.diskPct > 0 && s.disk > th.diskPct as real
  }

  /** Floating-point rounding of an exact result; it is left open. */
  type Rounding = real -> real

  /** The percentage as it is computed: the quotient is rounded, then the product. */
  function Percentage(used: int, max: int, round: Rounding): real
    requires max > 0
  {
    round(round(used as real / max as real) * 100.0)
  }

  predicate ConnectionsBreached(th: Thresholds, s: Stats, round: Rounding) {
    th.connectionsPct > 0 && s.max > 0 && Percentage(s.used, s.max, round) > th.connectionsPct as real
  }

  /** Rounding can decide: in double precision 7 of 100 connections exceed a threshold of 7. */
  lemma SevenOfHundred(th: Thresholds, s: Stats, round: Rounding)
    requires th.connectionsPct == 7 && s.used == 7 && s.max == 100
    requires round(0.07) == 1261007895663739.0 / 18014398509481984.0
    requires round(1261007895663739.0 / 18014398509481984.0 * 100.0) == 7881299347898369.0 / 1125899906842624.0
    ensures ConnectionsBreached(th, s, round) && !ConnectionsBreached(th, s, x => x)
  {
    assert s.used as real / s.max as real == 0.07;
  }

  predicate BackupBreached(th: Thresholds, s: Stats) {
    && th.backupHours > 0 && !s.backup.NoWalG?
    && (s.backup.Latest? ==> s.backup.age > th.backupHours * HOUR)
  }

  predicate Lagging(th: Thresholds, r: Replica) {
    th.lagSec > 0 && r.lagSeconds > th.lagSec
  }

  function LagKey(addr: string): string {
    "replication_lag:" + addr
  }

  function LagAlarms(th: Thresholds, replicas: seq<Replica>): seq<Breach> {
    if replicas == [] then []
    else
      var r := replicas[|replicas| - 1];
      LagAlarms(th, replicas[..|replicas| - 1])
      + if Lagging(th, r) then [Alarm(LagKey(r.addr), "warning", "replication_lag", r.text)] else []
  }

  /** The breaches of one check, in the order in which `check` fires them. */
  function Breaches(th: Thresholds, s: Stats, round: Rounding): seq<Breach> {
    (if DiskBreached(th, s) then [Alarm("disk_usage", "critical", "disk_usage", s.diskText)] else [])
    + (if ConnectionsBreached(th, s, round) then [Alarm("connections", "warning", "connections", s.connText)] else [])
    + LagAlarms(th, s.replicas)
    + (if BackupBreached(th, s)
       then [Alarm("backup_age", if s.backup.Unavailable? then "warning" else "critical", "backup_age", s.backupText)]
       else [])
  }

  // ---------------------------------------------------------------- one check

  lemma {:induction false} FireAllOpens(a: Alerts, bs: seq<Breach>, clock: nat -> int, cooldown: int, k: string)
    ensures var s := FireAll(a, bs, clock, cooldown);
            && (k in s.active <==> k in a.active || k in KeysOf(bs))
            && (k in KeysOf(bs) ==> s.active[k].open)
            && (k !in KeysOf(bs) && k in a.active ==> s.active[k] == a.active[k])
  {
    if bs == [] {
    } else {
      var front, last := bs[..|bs| - 1], bs[|bs| - 1];
      FireAllOpens(a, front, clock, cooldown, k);
      assert forall b :: b in bs <==> b in front || b == last;
      assert k in KeysOf(bs) <==> k in KeysOf(front) || k == last.key;
    }
  }

  /** What one round of resolving does to the state of a key. */
  function Settle(a: Alerts, seen: set<string>, key: string, now: int): AlertState
    requires key in a.active
  {
    if Missing(a, seen, key) then Resolved(a.active[key], now) else a.active[key]
  }

  lemma {:induction false} ResolveStates(a: Alerts, seen: set<string>, order: seq<string>, now: int, k: string)
    ensures var s := ResolveInOrder(a, seen, order, now);
            && (k in s.active <==> k in a.active)
            && (k in a.active ==> s.active[k] == if k in order then Settle(a, seen, k, now) else a.active[k])
  {
    if order == [] {
    } else {
      var front, last := order[..|order| - 1], order[|order| - 1];
      ResolveStates(a, seen, front, now, k);
      assert order == front + [last];
      assert k in order <==> k in front || k == last;
    }
  }

  /** After a completed check the open keys are exactly the keys that were breached in it,
      whatever the order of the map. */
  lemma OpenKeysAreBreached(a: Alerts, bs: seq<Breach>, clock: nat -> int, cooldown: int, order: seq<string>,
                            now: int, k: string)
    requires forall x | x in FireAll(a, bs, clock, cooldown).active :: x in order
    ensures var s := ResolveInOrder(FireAll(a, bs, clock, cooldown), KeysOf(bs), order, now);
            (k in s.active && s.active[k].open) <==> k in KeysOf(bs)
  {
    FireAllOpens(a, bs, clock, cooldown, k);
    ResolveStates(FireAll(a, bs, clock, cooldown), KeysOf(bs), order, now, k);
  }

  /** How many resolved events the log has for a key. */
  function Resolutions(log: seq<AlertEvent>, k: string): nat {
    if log == [] then 0
    else Resolutions(log[..|log| - 1], k) + if log[|log| - 1].key == k && !log[|log| - 1].open then 1 else 0
  }

  lemma ResolutionsOfAppend(log: seq<AlertEvent>, e: AlertEvent, k: string)
    ensures Resolutions(log + [e], k) == Resolutions(log, k) + if e.key == k && !e.open then 1 else 0
  {
    assert (log + [e])[..|log + [e]| - 1] == log;
  }

  /** Every state that was open and not seen gets exactly one resolved event, no other does. */
  lemma {:induction false} OneEventPerResolution(a: Alerts, seen: set<string>, order: seq<string>, now: int, k: string)
    requires forall i, j | 0 <= i < j < |order| :: order[i] != order[j]
    ensures Resolutions(ResolveInOrder(a, seen, order, now).log, k)
         == Resolutions(a.log, k) + if k in order && Missing(a, seen, k) then 1 else 0
  {
    if order == [] {
    } else {
      var front, last := order[..|order| - 1], order[|order| - 1];
      OneEventPerResolution(a, seen, front, now, k);
      ResolveStates(a, seen, front, now, last);
      assert last !in front;
      assert order == front + [last];
      var s := ResolveInOrder(a, seen, front, now);
      if Missing(s, seen, last) { ResolutionsOfAppend(s.log, ResolvedEvent(last, s.active[last], now), k); }
    }
  }

  /** Two orders of the same keys leave the same states. */
  lemma OrderDoesNotMatter(a: Alerts, seen: set<string>, order: seq<string>, order': seq<string>, now: int)
    requires forall k :: k in order <==> k in order'
    ensures ResolveInOrder(a, seen, order, now).active == ResolveInOrder(a, seen, order', now).active
  {
    var s, s' := ResolveInOrder(a, seen, order, now).active, ResolveInOrder(a, seen, order', now).active;
    forall k ensures (k in s <==> k in s') && (k in s && k in s' ==> s[k] == s'[k]) {
      ResolveStates(a, seen, order, now, k);
      ResolveStates(a, seen, order', now, k);
    }
    assert s.Keys == s'.Keys;
  }

  /** The events that resolving appends: one for every missing key, in the order of the keys. */
  function Block(a: Alerts, seen: set<string>, order: seq<string>, now: int): seq<AlertEvent> {
    if order == [] then []
    else
      var k := order[|order| - 1];
      Block(a, seen, order[..|order| - 1], now)
      + if Missing(a, seen, k) then [ResolvedEvent(k, a.active[k], now)] else []
  }

  lemma {:induction false} ResolveAppendsBlock(a: Alerts, seen: set<string>, order: seq<string>, now: int)
    requires forall i, j | 0 <= i < j < |order| :: order[i] != order[j]
    ensures ResolveInOrder(a, seen, order, now).log == a.log + Block(a, seen, order, now)
  {
    if order == [] {
    } else {
      var front, last := order[..|order| - 1], order[|order| - 1];
      ResolveAppendsBlock(a, seen, front, now);
      ResolveStates(a, seen, front, now, last);
      assert last !in front;
    }
  }

  lemma {:induction false} BlockHas(a: Alerts, seen: set<string>, order: seq<string>, now: int, e: AlertEvent)
    requires forall i, j | 0 <= i < j < |order| :: order[i] != order[j]
    ensures multiset(Block(a, seen, order, now))[e] ==
            if e.key in order && Missing(a, seen, e.key) && e == ResolvedEvent(e.key, a.active[e.key], now)
            then 1 else 0
  {
    if order == [] {
    } else {
      var front, last := order[..|order| - 1], order[|order| - 1];
      BlockHas(a, seen, front, now, e);
      assert order == front + [last] && last !in front;
    }
  }

  /** The order of the map shows in nothing but the order of the appended events. */
  lemma OnlyBlockOrderVaries(a: Alerts, seen: set<string>, order: seq<string>, order': seq<string>, now: int)
    requires forall i, j | 0 <= i < j < |order| :: order[i] != order[j]
    requires forall i, j | 0 <= i < j < |order'| :: order'[i] != order'[j]
    requires forall k :: k in order <==> k in order'
    ensures multiset(ResolveInOrder(a, seen, order, now).log) == multiset(ResolveInOrder(a, seen, order', now).log)
  {
    ResolveAppendsBlock(a, seen, order, now);
    ResolveAppendsBlock(a, seen, order', now);
    var b, b' := Block(a, seen, order, now), Block(a, seen, order', now);
    forall e ensures multiset(b)[e] == multiset(b')[e] {
      BlockHas(a, seen, order, now, e);
      BlockHas(a, seen, order', now, e);
    }
    assert multiset(b) == multiset(b');
  }

  // ---------------------------------------------------------------- runs

  /** What the program does to the alerts over time, with the cooldown fixed. */
  datatype Step = FireStep(b: Breach, now: int) | ResolveStep(seen: set<string>, order: seq<string>, now: int)

  function After(a: Alerts, e: Step, cooldown: int): Alerts {
    match e
    case FireStep(b, now) => Fire(a, b, now, cooldown)
    case ResolveStep(seen, order, now) => ResolveInOrder(a, seen, order, now)
  }

  function Replay(es: seq<Step>, cooldown: int): Alerts {
    if es == [] then EMPTY else After(Replay(es[..|es| - 1], cooldown), es[|es| - 1], cooldown)
  }

  function Fires(es: seq<Step>, k: string): nat {
    if es == [] then 0
    else Fires(es[..|es| - 1], k) + if es[|es| - 1].FireStep? && es[|es| - 1].b.key == k then 1 else 0
  }

  function CountOf(a: Alerts, k: string): nat {
    if k in a.active then a.active[k].count else 0
  }

  lemma ResolveKeepsState(a: Alerts, seen: set<string>, order: seq<string>, now: int, k: string)
    ensures CountOf(ResolveInOrder(a, seen, order, now), k) == CountOf(a, k)
    ensures var s := ResolveInOrder(a, seen, order, now);
            k in a.active ==> k in s.active && s.active[k].lastFiredAt == a.active[k].lastFiredAt
  {
    ResolveStates(a, seen, order, now, k);
  }

  /** The count of a key is the number of times it was fired, suppressed or not. */
  lemma {:induction false} CountIsFires(es: seq<Step>, cooldown: int, k: string)
    ensures CountOf(Replay(es, cooldown), k) == Fires(es, k)
  {
    if es == [] {
    } else {
      var before, e := Replay(es[..|es| - 1], cooldown), es[|es| - 1];
      CountIsFires(es[..|es| - 1], cooldown, k);
      if e.ResolveStep? { ResolveKeepsState(before, e.seen, e.order, e.now, k); }
    }
  }

  // ---------------------------------------------------------------- spacing

  /** The last event of a key that is an open event, or any event. */
  function LastOpen(log: seq<AlertEvent>, k: string): Option<int> {
    if log == [] then None
    else if log[|log| - 1].key == k && log[|log| - 1].open then Some(log[|log| - 1].time)
    else LastOpen(log[..|log| - 1], k)
  }

  function LastEvent(log: seq<AlertEvent>, k: string): Option<AlertEvent> {
    if log == [] then None
    else if log[|log| - 1].key == k then Some(log[|log| - 1])
    else LastEvent(log[..|log| - 1], k)
  }

  predicate OpenFor(e: AlertEvent, k: string) {
    e.key == k && e.open
  }

  /** Any two open events of the key are at least the cooldown apart. */
  ghost predicate Spaced(log: seq<AlertEvent>, k: string, cooldown: int) {
    forall i, j | 0 <= i < j < |log| && OpenFor(log[i], k) && OpenFor(log[j], k) ::
      log[j].time - log[i].time >= cooldown
  }

  /** No open event of the key is later than the last one. */
  ghost predicate Bounded(log: seq<AlertEvent>, k: string) {
    forall i | 0 <= i < |log| && OpenFor(log[i], k) :: LastOpen(log, k).Some? && log[i].time <= LastOpen(log, k).value
  }

  ghost predicate Remembered(a: Alerts, k: string) {
    LastOpen(a.log, k) == if k in a.active then a.active[k].lastFiredAt else None
  }

  lemma LastOfAppend(log: seq<AlertEvent>, e: AlertEvent, k: string)
    ensures LastOpen(log + [e], k) == if OpenFor(e, k) then Some(e.time) else LastOpen(log, k)
    ensures LastEvent(log + [e], k) == if e.key == k then Some(e) else LastEvent(log, k)
  {
    assert (log + [e])[..|log + [e]| - 1] == log;
  }

  lemma {:induction false} ResolveKeepsOpens(a: Alerts, seen: set<string>, order: seq<string>, now: int, k: string,
                                             cooldown: int)
    requires Spaced(a.log, k, cooldown) && Bounded(a.log, k)
    ensures var s := ResolveInOrder(a, seen, order, now);
            Spaced(s.log, k, cooldown) && Bounded(s.log, k) && LastOpen(s.log, k) == LastOpen(a.log, k)
  {
    if order == [] {
    } else {
      var front, last := order[..|order| - 1], order[|order| - 1];
      ResolveKeepsOpens(a, seen, front, now, k, cooldown);
      var s := ResolveInOrder(a, seen, front, now);
      if Missing(s, seen, last) { LastOfAppend(s.log, ResolvedEvent(last, s.active[last], now), k); }
    }
  }

  lemma FireKeepsSpacing(a: Alerts, b: Breach, now: int, cooldown: int, k: string)
    requires cooldown > 0 && Spaced(a.log, k, cooldown) && Bounded(a.log, k) && Remembered(a, k)
    ensures var s := Fire(a, b, now, cooldown);
            Spaced(s.log, k, cooldown) && Bounded(s.log, k) && Remembered(s, k)
  {
    var s := Seen(StateOf(a, b.key), b, now);
    if !Suppressed(s, now, cooldown) {
      LastOfAppend(a.log, AlertEvent(now, b.level, b.message, b.metric, b.value, b.key, true), k);
    }
  }

  /** With a fixed positive cooldown, any two open events of a key are at least the cooldown
      apart, across resolutions and whatever the clock does. */
  lemma {:induction false} OpenEventsAreSpaced(es: seq<Step>, cooldown: int, k: string)
    requires cooldown > 0
    ensures Spaced(Replay(es, cooldown).log, k, cooldown)
    ensures Bounded(Replay(es, cooldown).log, k) && Remembered(Replay(es, cooldown), k)
  {
    if es == [] {
    } else {
      var before, e := Replay(es[..|es| - 1], cooldown), es[|es| - 1];
      OpenEventsAreSpaced(es[..|es| - 1], cooldown, k);
      match e
      case FireStep(b, now) => FireKeepsSpacing(before, b, now, cooldown, k);
      case ResolveStep(seen, order, now) =>
        ResolveKeepsOpens(before, seen, order, now, k, cooldown);
        ResolveStates(before, seen, order, now, k);
    }
  }

  // ---------------------------------------------------------------- the time of resolution

  /** The state carries a time of resolution exactly when the last event about its key is a
      resolved one, and a closed state always does. */
  ghost predicate TimeOk(a: Alerts, k: string) {
    k in a.active ==>
      && (a.active[k].open || a.active[k].resolvedAt.Some?)
      && (var last := LastEvent(a.log, k);
          a.active[k].resolvedAt == if last.Some? && !last.value.open then Some(last.value.time) else None)
  }

  ghost predicate NoEventYet(a: Alerts, k: string) {
    k !in a.active ==> LastEvent(a.log, k) == None
  }

  lemma FireKeepsTime(a: Alerts, b: Breach, now: int, cooldown: int, k: string)
    requires TimeOk(a, k) && NoEventYet(a, k)
    ensures TimeOk(Fire(a, b, now, cooldown), k) && NoEventYet(Fire(a, b, now, cooldown), k)
  {
    LastOfAppend(a.log, AlertEvent(now, b.level, b.message, b.metric, b.value, b.key, true), k);
  }

  lemma {:induction false} ResolveKeepsTime(a: Alerts, seen: set<string>, order: seq<string>, now: int, k: string)
    requires TimeOk(a, k) && NoEventYet(a, k)
    ensures var s := ResolveInOrder(a, seen, order, now); TimeOk(s, k) && NoEventYet(s, k)
  {
    if order == [] {
    } else {
      var front, last := order[..|order| - 1], order[|order| - 1];
      ResolveKeepsTime(a, seen, front, now, k);
      var s := ResolveInOrder(a, seen, front, now);
      if Missing(s, seen, last) { LastOfAppend(s.log, ResolvedEvent(last, s.active[last], now), k); }
    }
  }

  lemma {:induction false} ResolutionTimeExactly(es: seq<Step>, cooldown: int, k: string)
    ensures TimeOk(Replay(es, cooldown), k) && NoEventYet(Replay(es, cooldown), k)
  {
    if es == [] {
    } else {
      var before, e := Replay(es[..|es| - 1], cooldown), es[|es| - 1];
      ResolutionTimeExactly(es[..|es| - 1], cooldown, k);
      match e
      case FireStep(b, now) => FireKeepsTime(before, b, now, cooldown, k);
      case ResolveStep(seen, order, now) => ResolveKeepsTime(before, seen, order, now, k);
    }
  }

  /** A breach that comes back inside the cooldown leaves an open alert with a time of resolution. */
  lemma OpenYetResolved(b: Breach)
    ensures var a := Replay([FireStep(b, 0), ResolveStep({}, [b.key], 60), FireStep(b, 120)], 900);
            a.active[b.key].open && a.active[b.key].resolvedAt == Some(60) && |a.log| == 2
  {
    var e1, e2, e3 := FireStep(b, 0), ResolveStep({}, [b.key], 60), FireStep(b, 120);
    ReplayMore([], e1, 900);
    ReplayMore([e1], e2, 900);
    ReplayMore([e1, e2], e3, 900);
    assert [] + [e1] == [e1] && [e1] + [e2] == [e1, e2] && [e1, e2] + [e3] == [e1, e2, e3];
    var a1 := Fire(EMPTY, b, 0, 900);
    assert Replay([e1], 900) == a1;
    assert [b.key][..0] == [];
    assert ResolveInOrder(a1, {}, [], 60) == a1;
    assert ResolveInOrder(a1, {}, [b.key], 60) == ResolveKey(a1, {}, b.key, 60);
  }

  lemma ReplayMore(es: seq<Step>, e: Step, cooldown: int)
    ensures Replay(es + [e], cooldown) == After(Replay(es, cooldown), e, cooldown)
  {
    assert (es + [e])[..|es + [e]| - 1] == es;
  }

  // ---------------------------------------------------------------- the keys of a check

  lemma {:induction false} LagKeysExactly(th: Thresholds, replicas: seq<Replica>, k: string)
    ensures k in KeysOf(LagAlarms(th, replicas)) <==> exists r | r in replicas :: Lagging(th, r) && k == LagKey(r.addr)
  {
    if replicas == [] {
    } else {
      var front, last := replicas[..|replicas| - 1], replicas[|replicas| - 1];
      LagKeysExactly(th, front, k);
      assert forall r :: r in replicas <==> r in front || r == last;
      var alarm := Alarm(LagKey(last.addr), "warning", "replication_lag", last.text);
      KeysOfAppend(LagAlarms(th, front), if Lagging(th, last) then [alarm] else [], k);
    }
  }

  lemma KeysOfAppend(bs: seq<Breach>, cs: seq<Breach>, k: string)
    ensures k in KeysOf(bs + cs) <==> k in KeysOf(bs) || k in KeysOf(cs)
  {
  }

  /** The breaches of the four kinds, one after the other. */
  lemma KeysOfFour(d: seq<Breach>, c: seq<Breach>, l: seq<Breach>, b: seq<Breach>, k: string)
    ensures k in KeysOf(d + c + l + b) <==> k in KeysOf(d) || k in KeysOf(c) || k in KeysOf(l) || k in KeysOf(b)
  {
    KeysOfAppend(d, c, k);
    KeysOfAppend(d + c, l, k);
    KeysOfAppend(d + c + l, b, k);
  }

  lemma KeyOfOne(cond: bool, b: Breach, k: string)
    ensures k in KeysOf(if cond then [b] else []) <==> cond && k == b.key
  {
    assert b in [b];
  }

  /** A key is breached exactly when its measurement exceeds its threshold: the disk's percentage;
      the percentage of connections as it is computed, each result rounded; the lag of the replica
      in the key; the age of the newest backup, or that there is none or it cannot be told. A
      threshold that is not positive switches its alarm off. */
  lemma BreachedKeysExactly(th: Thresholds, s: Stats, round: Rounding, k: string)
    ensures k in KeysOf(Breaches(th, s, round)) <==>
            || (k == "disk_usage" && 0 < th.diskPct && s.disk > th.diskPct as real)
            || (k == "connections" && 0 < th.connectionsPct && s.max > 0
                && round(round(s.used as real / s.max as real) * 100.0) > th.connectionsPct as real)
            || (exists r | r in s.replicas ::
                  0 < th.lagSec && r.lagSeconds > th.lagSec && k == "replication_lag:" + r.addr)
            || (k == "backup_age" && 0 < th.backupHours
                && (s.backup.Unavailable? || s.backup.NoBackups?
                    || (s.backup.Latest? && s.backup.age > th.backupHours * 3_600_000_000_000)))
  {
    LagKeysExactly(th, s.replicas, k);
    var level := if s.backup.Unavailable? then "warning" else "critical";
    var d, c := Alarm("disk_usage", "critical", "disk_usage", s.diskText),
                Alarm("connections", "warning", "connections", s.connText);
    var b := Alarm("backup_age", level, "backup_age", s.backupText);
    KeyOfOne(DiskBreached(th, s), d, k);
    KeyOfOne(ConnectionsBreached(th, s, round), c, k);
    KeyOfOne(BackupBreached(th, s), b, k);
    KeysOfFour(if DiskBreached(th, s) then [d] else [], if ConnectionsBreached(th, s, round) then [c] else [],
               LagAlarms(th, s.replicas), if BackupBreached(th, s) then [b] else [], k);
    assert forall r | r in s.replicas :: Lagging(th, r) <==> 0 < th.lagSec && r.lagSeconds > th.lagSec;
  }

  lemma {:induction false} LagAlarmSays(th: Thresholds, replicas: seq<Replica>, b: Breach)
    requires b in LagAlarms(th, replicas)
    ensures b.level == "warning" && b.metric == "replication_lag"
    ensures exists r | r in replicas ::
              r.lagSeconds > th.lagSec && b.key == "replication_lag:" + r.addr
              && b.message == r.text.message && b.value == r.text.value
  {
    var front, last := replicas[..|replicas| - 1], replicas[|replicas| - 1];
    assert last in replicas && forall r :: r in front ==> r in replicas;
    if b in LagAlarms(th, front) {
      LagAlarmSays(th, front, b);
    } else {
      assert last.lagSeconds > th.lagSec;
    }
  }

  /** What an alarm says: a full disk is critical, connections and lag are warnings, and backups are
      critical unless they could not be looked at; metric and texts are those of the measurement. */
  lemma AlarmSays(th: Thresholds, s: Stats, round: Rounding, b: Breach)
    requires b in Breaches(th, s, round)
    ensures || (b.key == b.metric == "disk_usage" && b.level == "critical"
                && b.message == s.diskText.message && b.value == s.diskText.value)
            || (b.key == b.metric == "connections" && b.level == "warning"
                && b.message == s.connText.message && b.value == s.connText.value)
            || (b.metric == "replication_lag" && b.level == "warning"
                && exists r | r in s.replicas :: r.lagSeconds > th.lagSec && b.key == "replication_lag:" + r.addr
                     && b.message == r.text.message && b.value == r.text.value)
            || (b.key == b.metric == "backup_age"
                && b.level == (if s.backup.Unavailable? then "warning" else "critical")
                && b.message == s.backupText.message && b.value == s.backupText.value)
  {
    if b in LagAlarms(th, s.replicas) { LagAlarmSays(th, s.replicas, b); }
  }

  // ---------------------------------------------------------------- what one fire does

  /** The state of the key takes over what the breach says, counts it, is open and seen now, and
      remembers when it was first opened; no other state changes. */
  lemma FireSays(a: Alerts, b: Breach, now: int, cooldown: int, k: string)
    ensures var s := Fire(a, b, now, cooldown);
            && b.key in s.active && (k != b.key ==> (k in s.active <==> k in a.active))
            && (k != b.key && k in a.active ==> s.active[k] == a.active[k])
            && var state := s.active[b.key];
               && state.open && state.lastSeenAt == now
               && state.level == b.level && state.metric == b.metric
               && state.message == b.message && state.value == b.value
               && (b.key in a.active ==>
                     && state.key == a.active[b.key].key && state.openedAt == a.active[b.key].openedAt
                     && state.count == a.active[b.key].count + 1)
               && (b.key !in a.active ==> state.key == b.key && state.openedAt == now && state.count == 1)
  {
  }

  /** An event is appended exactly when no cooldown is set or none is running since the last open
      event, and then the time of resolution goes; the event says what the breach says. */
  lemma FireAppends(a: Alerts, b: Breach, now: int, cooldown: int)
    ensures var s := Fire(a, b, now, cooldown);
            var last := if b.key in a.active then a.active[b.key].lastFiredAt else None;
            if cooldown > 0 && last.Some? && now - last.value < cooldown
            then s.log == a.log && s.active[b.key].lastFiredAt == last
                 && s.active[b.key].resolvedAt == a.active[b.key].resolvedAt
            else && |s.log| == |a.log| + 1 && s.log[..|a.log|] == a.log
                 && s.active[b.key].lastFiredAt == Some(now) && s.active[b.key].resolvedAt == None
                 && var e := s.log[|a.log|];
                    && e.time == now && e.key == b.key && e.open && e.level == b.level && e.metric == b.metric
                    && e.message == b.message && e.value == b.value
  {
  }

  /** In every run, with a fixed positive cooldown, a fire appends an event exactly when the last open
      event of its key is at least the cooldown old, or there is none. */
  lemma EventExactlyWhenDue(es: seq<Step>, b: Breach, now: int, cooldown: int)
    requires cooldown > 0
    ensures var a := Replay(es, cooldown);
            |Fire(a, b, now, cooldown).log| == |a.log| + 1 <==>
            (LastOpen(a.log, b.key).None? || now - LastOpen(a.log, b.key).value >= cooldown)
  {
    OpenEventsAreSpaced(es, cooldown, b.key);
    FireAppends(Replay(es, cooldown), b, now, cooldown);
  }

  /** Resolving closes a state that was open and not seen, dates it, and appends an event that
      repeats its last message. */
  lemma ResolveSays(a: Alerts, seen: set<string>, key: string, now: int)
    requires key in a.active && a.active[key].open && key !in seen
    ensures var s, before := ResolveKey(a, seen, key, now), a.active[key];
            && |s.log| == |a.log| + 1 && s.log[..|a.log|] == a.log
            && s.active == a.active[key := before.(open := false, resolvedAt := Some(now))]
            && var e := s.log[|a.log|];
               && e.time == now && e.key == key && !e.open && e.level == "resolved"
               && e.message == "Resolved: " + before.message && e.metric == before.metric && e.value == before.value
  {
  }
}
