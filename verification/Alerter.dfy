/** The alerter of `service/alerter.go` as an object: states and history changed in place. */
module Alerter {
  import opened Wrappers
  import opened AlertSpec

  class Alerter {
    var active: map<string, AlertState>
    var history: seq<AlertEvent>
    /** Every event ever appended; the history shows its end. */
    ghost var log: seq<AlertEvent>

    ghost predicate Valid()
      reads this
    {
      history == Tail(log)
    }

    ghost function State(): Alerts
      reads this
    {
      Alerts(active, log)
    }

    constructor ()
      ensures Valid() && State() == EMPTY
    {
      active, history, log := map[], [], [];
    }

    /** Appends an event and keeps the last HISTORY ones. */
    method Record(e: AlertEvent)
      requires Valid()
      modifies this`history, this`log
      ensures Valid() && log == old(log) + [e]
      ensures |history| == (if |log| < 100 then |log| else 100) && history == log[|log| - |history|..]
    {
      history := history + [e];
      if |history| > HISTORY {
        history := history[|history| - HISTORY..];
      }
      log := log + [e];
    }

    method Fire(b: Breach, now: int, cooldown: int)
      requires Valid()
      modifies this
      ensures Valid() && State() == AlertSpec.Fire(old(State()), b, now, cooldown)
    {
      if b.key !in active {
        var unseen := AlertState(b.key, b.metric, b.level, true, b.message, b.value, now, now, None, None, 0);
        active := active[b.key := unseen];
      }
      var s := active[b.key];
      s := s.(metric := b.metric, level := b.level, open := true, message := b.message, value := b.value);
      s := s.(lastSeenAt := now, count := s.count + 1);
      active := active[b.key := s];
      if cooldown > 0 && s.lastFiredAt.Some? && now - s.lastFiredAt.value < cooldown {
        assert active == old(active)[b.key := s];
        return;
      }
      active := active[b.key := s.(lastFiredAt := Some(now), resolvedAt := None)];
      assert active == old(active)[b.key := s.(lastFiredAt := Some(now), resolvedAt := None)];
      Record(AlertEvent(now, b.level, b.message, b.metric, b.value, b.key, true));
    }

    /** Walks the map in some order, which the caller does not choose. */
    method ResolveMissing(seen: set<string>, now: int) returns (ghost order: seq<string>)
      requires Valid()
      modifies this
      ensures Valid() && State() == ResolveInOrder(old(State()), seen, order, now)
      ensures forall k :: k in order <==> k in old(active)
      ensures forall i, j | 0 <= i < j < |order| :: order[i] != order[j]
    {
      order := [];
      var left := active.Keys;
      while left != {}
        invariant Valid() && left <= active.Keys == old(active).Keys
        invariant State() == ResolveInOrder(old(State()), seen, order, now)
        invariant forall k :: k in order <==> k in old(active) && k !in left
        invariant forall i, j | 0 <= i < j < |order| :: order[i] != order[j]
        decreases left
      {
        var key :| key in left;
        left := left - {key};
        assert (order + [key])[..|order|] == order;
        order := order + [key];
        var s := active[key];
        if s.open && key !in seen {
          active := active[key := s.(open := false, resolvedAt := Some(now))];
          Record(AlertEvent(now, "resolved", "Resolved: " + s.message, s.metric, s.value, key, false));
        }
      }
    }

    /** One check. Without measurements nothing happens; otherwise every breach is fired with
        its own clock reading, and afterwards the open keys are exactly the breached ones. */
    method Check(th: Thresholds, cooldown: int, stats: Option<Stats>, round: Rounding, clock: nat -> int)
      returns (ghost order: seq<string>)
      requires Valid()
      modifies this
      ensures Valid()
      ensures stats.None? ==> State() == old(State()) && history == old(history)
      ensures stats.Some? ==>
                var bs := Breaches(th, stats.value, round);
                State() == ResolveInOrder(FireAll(old(State()), bs, clock, cooldown), KeysOf(bs), order, clock(|bs|))
      ensures stats.Some? ==>
                forall k :: (k in active && active[k].open) <==> k in KeysOf(Breaches(th, stats.value, round))
    {
      order := [];
      if stats.None? {
        return;
      }
      order := FireAndResolve(Breaches(th, stats.value, round), cooldown, clock);
    }

    /** Fires every breach, then resolves what was not breached. */
    method FireAndResolve(bs: seq<Breach>, cooldown: int, clock: nat -> int) returns (ghost order: seq<string>)
      requires Valid()
      modifies this
      ensures Valid()
      ensures State() == ResolveInOrder(FireAll(old(State()), bs, clock, cooldown), KeysOf(bs), order, clock(|bs|))
      ensures forall k :: (k in active && active[k].open) <==> k in KeysOf(bs)
    {
      var seen: set<string> := {};
      var i := 0;
      while i < |bs|
        invariant 0 <= i <= |bs| && Valid()
        invariant seen == KeysOf(bs[..i])
        invariant State() == FireAll(old(State()), bs[..i], clock, cooldown)
      {
        assert bs[..i + 1][..i] == bs[..i];
        seen := seen + {bs[i].key};
        Fire(bs[i], clock(i), cooldown);
        i := i + 1;
      }
      assert bs[..i] == bs;
      order := ResolveMissing(seen, clock(|bs|));
      forall k ensures (k in active && active[k].open) <==> k in KeysOf(bs) {
        OpenKeysAreBreached(old(State()), bs, clock, cooldown, order, clock(|bs|), k);
      }
    }
  }
}
