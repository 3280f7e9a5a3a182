/** The weekly backup schedule of `service/scheduler.go`. Instants are nanoseconds since
    1970-01-01 00:00 UTC, a Thursday. */
module Scheduler {
  import opened Wrappers

  const HOUR := 3_600_000_000_000
  const DAY := 24 * HOUR
  const WEEK := 7 * DAY
  const OFFSET := 7 * HOUR      // GMT+7
  const EPOCH_WEEKDAY := 4      // Thursday; Sunday is 0

  // ---------------------------------------------------------------- the calendar

  function DayOf(t: int): int {
    (t + OFFSET) / DAY
  }

  function TimeOfDay(t: int): int {
    (t + OFFSET) % DAY
  }

  function Weekday(t: int): int {
    (DayOf(t) + EPOCH_WEEKDAY) % 7
  }

  /** t is the full hour `hour` of a day that is the given weekday, in GMT+7. */
  predicate IsSlot(t: int, weekday: int, hour: int) {
    Weekday(t) == weekday && TimeOfDay(t) == hour * HOUR
  }

  function ValidWeekday(weekday: int): int {
    if 0 <= weekday <= 6 then weekday else 0
  }

  function ValidHour(hour: int): int {
    if 0 <= hour <= 23 then hour else 4
  }

  /** `nextWeeklyRun` */
  function NextWeeklyRun(now: int, weekday: int, hour: int): int {
    var wd, hr := ValidWeekday(weekday), ValidHour(hour);
    var today := DayOf(now) * DAY + hr * HOUR - OFFSET;
    var next := today + (wd - Weekday(now) + 7) % 7 * DAY;
    if next <= now then next + WEEK else next
  }

  // ---------------------------------------------------------------- the next slot

  lemma DayParts(d: int, r: int)
    requires 0 <= r < DAY
    ensures DayOf(d * DAY + r - OFFSET) == d && TimeOfDay(d * DAY + r - OFFSET) == r
  {
  }

  lemma WeekdayAfter(d: int, k: int)
    ensures (d + k + EPOCH_WEEKDAY) % 7 == ((d + EPOCH_WEEKDAY) % 7 + k) % 7
  {
  }

  /** Slots of the same weekday and hour are whole weeks apart. */
  lemma SlotsAreWeeksApart(t: int, u: int, weekday: int, hour: int)
    requires IsSlot(t, weekday, hour) && IsSlot(u, weekday, hour) && t < u
    ensures u - t >= WEEK && (u - t) % WEEK == 0
  {
    var d := DayOf(u) - DayOf(t);
    assert t + OFFSET == DayOf(t) * DAY + TimeOfDay(t);
    assert u + OFFSET == DayOf(u) * DAY + TimeOfDay(u);
    assert u - t == d * DAY;
    assert d % 7 == 0;
    assert d == d / 7 * 7;
    assert u - t == d / 7 * WEEK;
    assert d > 0;
  }

  lemma WeeksLater(t: int, k: int, weekday: int, hour: int)
    requires IsSlot(t, weekday, hour)
    ensures IsSlot(t + k * WEEK, weekday, hour)
  {
    var d, r := DayOf(t), TimeOfDay(t);
    assert t == d * DAY + r - OFFSET;
    assert t + k * WEEK == (d + 7 * k) * DAY + r - OFFSET;
    DayParts(d + 7 * k, r);
    assert (d + 7 * k + EPOCH_WEEKDAY) % 7 == (d + EPOCH_WEEKDAY) % 7;
  }

  /** How many days from now's day to the next day of the weekday. */
  function DaysAhead(now: int, wd: int): int {
    (wd - Weekday(now) + 7) % 7
  }

  lemma CandidateIsASlot(now: int, wd: int, hr: int)
    requires 0 <= wd <= 6 && 0 <= hr <= 23
    ensures IsSlot((DayOf(now) + DaysAhead(now, wd)) * DAY + hr * HOUR - OFFSET, wd, hr)
  {
    var d, k := DayOf(now), DaysAhead(now, wd);
    DayParts(d + k, hr * HOUR);
    WeekdayAfter(d, k);
  }

  /** The result is a slot of the normalised weekday and hour, after now, at most a week away. */
  lemma NextIsASlot(now: int, weekday: int, hour: int)
    ensures var n := NextWeeklyRun(now, weekday, hour);
            now < n <= now + WEEK && IsSlot(n, ValidWeekday(weekday), ValidHour(hour))
  {
    var wd, hr := ValidWeekday(weekday), ValidHour(hour);
    var d, k := DayOf(now), DaysAhead(now, wd);
    var first := (d + k) * DAY + hr * HOUR - OFFSET;
    CandidateIsASlot(now, wd, hr);
    if first <= now {
      WeeksLater(first, 1, wd, hr);
      CandidateRange(d, TimeOfDay(now), k, hr);
    } else {
      CandidateRange(d, TimeOfDay(now), k, hr);
    }
  }

  lemma CandidateRange(d: int, r: int, k: int, hr: int)
    requires 0 <= r < DAY && 0 <= k <= 6 && 0 <= hr <= 23
    ensures var now, first := d * DAY + r - OFFSET, (d + k) * DAY + hr * HOUR - OFFSET;
            now - DAY < first < now + WEEK
  {
  }

  /** It is the least such instant. */
  lemma NextIsTheFirst(now: int, weekday: int, hour: int, t: int)
    requires now < t && IsSlot(t, ValidWeekday(weekday), ValidHour(hour))
    ensures NextWeeklyRun(now, weekday, hour) <= t
  {
    var n := NextWeeklyRun(now, weekday, hour);
    NextIsASlot(now, weekday, hour);
    if t < n { SlotsAreWeeksApart(t, n, ValidWeekday(weekday), ValidHour(hour)); }
  }

  /** Handling that ends at `end`, after the slot it was started for, is followed by the next
      slot that has not passed: one week later when it took less than a week. */
  lemma NextAfterSlot(slot: int, end: int, weekday: int, hour: int)
    requires IsSlot(slot, ValidWeekday(weekday), ValidHour(hour)) && slot <= end
    ensures NextWeeklyRun(end, weekday, hour) == slot + ((end - slot) / WEEK + 1) * WEEK
  {
    var wd, hr := ValidWeekday(weekday), ValidHour(hour);
    var q := (end - slot) / WEEK;
    var expected := slot + (q + 1) * WEEK;
    assert end - slot == q * WEEK + (end - slot) % WEEK;
    WeeksLater(slot, q + 1, wd, hr);
    NextIsASlot(end, weekday, hour);
    NextIsTheFirst(end, weekday, hour, expected);
    var n := NextWeeklyRun(end, weekday, hour);
    if n < expected {
      SlotsAreWeeksApart(n, expected, wd, hr);
      assert false;
    }
  }

  /** A slot in plain numbers: so many nanoseconds after the beginning of a week, which in GMT+7
      is Sunday, such as 1970-01-03 17:00 UTC. */
  lemma SlotExactly(t: int, weekday: int, hour: int)
    requires 0 <= weekday <= 6 && 0 <= hour <= 23
    ensures IsSlot(t, weekday, hour) <==>
            (t - 234_000_000_000_000) % 604_800_000_000_000
            == weekday * 86_400_000_000_000 + hour * 3_600_000_000_000
  {
    var d, r := DayOf(t), TimeOfDay(t);
    assert t == d * DAY + r - OFFSET;
    var e, f := (d - 3) / 7, (d - 3) % 7;
    assert d - 3 == 7 * e + f && 0 <= f <= 6;
    assert t - 234_000_000_000_000 == e * WEEK + (f * DAY + r);
    WithinWeek(e, f * DAY + r);
    assert Weekday(t) == f;
  }

  lemma WithinWeek(e: int, rest: int)
    requires 0 <= rest < WEEK
    ensures (e * WEEK + rest) % 604_800_000_000_000 == rest
  {
  }

  /** The next run is the least instant after now at which, in GMT+7, it is the full configured hour
      of the configured weekday, Sunday being 0; a weekday outside the week counts as Sunday and an
      hour outside the day as four o'clock. */
  lemma NextExactly(now: int, weekday: int, hour: int, t: int)
    ensures var wd, hr := if 0 <= weekday <= 6 then weekday else 0, if 0 <= hour <= 23 then hour else 4;
            var place := wd * 86_400_000_000_000 + hr * 3_600_000_000_000;
            var next := NextWeeklyRun(now, weekday, hour);
            && now < next <= now + 604_800_000_000_000
            && (next - 234_000_000_000_000) % 604_800_000_000_000 == place
            && (now < t && (t - 234_000_000_000_000) % 604_800_000_000_000 == place ==> next <= t)
  {
    var wd, hr := ValidWeekday(weekday), ValidHour(hour);
    NextIsASlot(now, weekday, hour);
    SlotExactly(NextWeeklyRun(now, weekday, hour), wd, hr);
    SlotExactly(t, wd, hr);
    if now < t && IsSlot(t, wd, hr) { NextIsTheFirst(now, weekday, hour, t); }
  }

  // ---------------------------------------------------------------- the timer loop

  /** The targets of the full-backup timer: the first is computed at the start, each later one
      when the handling of the one before ended. */
  function Target(start: int, ends: seq<int>, weekday: int, hour: int): int {
    NextWeeklyRun(if ends == [] then start else ends[|ends| - 1], weekday, hour)
  }

  /** Each handling ends after its target and within a week of it. */
  ghost predicate Prompt(start: int, ends: seq<int>, weekday: int, hour: int) {
    forall i | 0 <= i < |ends| ::
      Target(start, ends[..i], weekday, hour) <= ends[i] < Target(start, ends[..i], weekday, hour) + WEEK
  }

  lemma PromptNext(slot: int, end: int, weekday: int, hour: int)
    requires IsSlot(slot, ValidWeekday(weekday), ValidHour(hour)) && slot <= end < slot + WEEK
    ensures NextWeeklyRun(end, weekday, hour) == slot + WEEK
  {
    NextAfterSlot(slot, end, weekday, hour);
  }

  lemma PromptFront(start: int, ends: seq<int>, weekday: int, hour: int)
    requires Prompt(start, ends, weekday, hour) && ends != []
    ensures Prompt(start, ends[..|ends| - 1], weekday, hour)
  {
    var front := ends[..|ends| - 1];
    forall i | 0 <= i < |front|
      ensures Target(start, front[..i], weekday, hour) <= front[i] < Target(start, front[..i], weekday, hour) + WEEK
    {
      assert front[..i] == ends[..i] && front[i] == ends[i];
    }
  }

  lemma TargetIsASlot(start: int, ends: seq<int>, weekday: int, hour: int)
    ensures IsSlot(Target(start, ends, weekday, hour), ValidWeekday(weekday), ValidHour(hour))
  {
    NextIsASlot(if ends == [] then start else ends[|ends| - 1], weekday, hour);
  }

  /** As long as handling is prompt, the targets are exactly one week apart. */
  lemma {:induction false} TargetsAreWeekly(start: int, ends: seq<int>, weekday: int, hour: int)
    requires Prompt(start, ends, weekday, hour)
    ensures Target(start, ends, weekday, hour) == Target(start, [], weekday, hour) + |ends| * WEEK
  {
    if ends == [] {
    } else {
      var front := ends[..|ends| - 1];
      PromptFront(start, ends, weekday, hour);
      TargetsAreWeekly(start, front, weekday, hour);
      TargetIsASlot(start, front, weekday, hour);
      PromptNext(Target(start, front, weekday, hour), ends[|ends| - 1], weekday, hour);
    }
  }

  /** The status and the timer are computed from two clock readings; they show the same run
      exactly when no slot falls between the readings. */
  lemma StatusShowsTimerExactly(first: int, second: int, weekday: int, hour: int)
    requires first <= second
    ensures NextWeeklyRun(first, weekday, hour) == NextWeeklyRun(second, weekday, hour)
            <==> second < NextWeeklyRun(first, weekday, hour)
  {
    var n := NextWeeklyRun(first, weekday, hour);
    NextIsASlot(first, weekday, hour);
    NextIsASlot(second, weekday, hour);
    if second < n {
      NextIsTheFirst(second, weekday, hour, n);
      NextIsTheFirst(first, weekday, hour, NextWeeklyRun(second, weekday, hour));
    }
  }

  // ---------------------------------------------------------------- the scheduler

  datatype BackupConfig = BackupConfig(enabled: bool, intervalHours: int, incrementalIntervalHours: int,
                                       fullWeekday: int, fullHour: int)

  /** The incremental interval, or the older setting when it is missing. */
  function IncrementalHours(cfg: BackupConfig): int {
    if cfg.incrementalIntervalHours <= 0 then cfg.intervalHours else cfg.incrementalIntervalHours
  }

  /** A loop that was started: its ticker interval, its first target, whether it was cancelled. */
  datatype Loop = Loop(interval: int, firstFull: int, cancelled: bool)

  class Scheduler {
    /** Every loop ever started, and the one whose cancel function is kept. */
    var loops: seq<Loop>
    var cancel: Option<nat>
    var lastFullRun: Option<int>
    var nextFullRun: int
    var nextIncrementalRun: int

    /** Every loop but the one whose cancel function is kept has been cancelled. */
    ghost predicate Valid()
      reads this
    {
      && (cancel.Some? ==> cancel.value < |loops|)
      && forall i | 0 <= i < |loops| :: loops[i].cancelled || cancel == Some(i)
    }

    constructor ()
      ensures Valid() && loops == []
    {
      loops, cancel, lastFullRun, nextFullRun, nextIncrementalRun := [], None, None, 0, 0;
    }

    /** `Start`, also behind `Restart`: afterwards exactly one loop runs when backups are
        enabled with an interval, and none otherwise, however often it is called. */
    method Start(cfg: BackupConfig, now: int, later: int)
      requires Valid()
      modifies this
      ensures Valid()
      ensures !cfg.enabled || IncrementalHours(cfg) <= 0 ==>
                && |loops| == |old(loops)| && forall i | 0 <= i < |loops| :: loops[i].cancelled
      ensures cfg.enabled && IncrementalHours(cfg) > 0 ==>
                && |loops| == |old(loops)| + 1
                && (forall i | 0 <= i < |loops| - 1 :: loops[i].cancelled)
                && loops[|loops| - 1] == Loop(IncrementalHours(cfg) * HOUR,
                                              NextWeeklyRun(later, cfg.fullWeekday, cfg.fullHour), false)
                && nextFullRun == loops[|loops| - 1].firstFull
                && loops[|loops| - 1].interval == 3_600_000_000_000 *
                   (if cfg.incrementalIntervalHours > 0 then cfg.incrementalIntervalHours else cfg.intervalHours)
                && nextIncrementalRun == now + loops[|loops| - 1].interval
    {
      if cancel.Some? {
        loops := loops[cancel.value := loops[cancel.value].(cancelled := true)];
      }
      var hours := cfg.incrementalIntervalHours;
      if hours <= 0 {
        hours := cfg.intervalHours;
      }
      if !cfg.enabled || hours <= 0 {
        return;
      }
      cancel := Some(|loops|);
      nextIncrementalRun := now + hours * HOUR;
      nextFullRun := NextWeeklyRun(later, cfg.fullWeekday, cfg.fullHour);
      loops := loops + [Loop(hours * HOUR, nextFullRun, false)];
    }

    /** `runFullBackup` and the reset of the timer: three clock readings. */
    method FullTick(cfg: BackupConfig, done: int, status: int, reset: int) returns (target: int)
      requires Valid() && done <= status <= reset
      modifies this`lastFullRun, this`nextFullRun
      ensures Valid() && lastFullRun == Some(done)
      ensures target == NextWeeklyRun(reset, cfg.fullWeekday, cfg.fullHour)
      ensures nextFullRun == NextWeeklyRun(status, cfg.fullWeekday, cfg.fullHour)
      ensures nextFullRun == target <==> reset < nextFullRun
    {
      lastFullRun := Some(done);
      nextFullRun := NextWeeklyRun(status, cfg.fullWeekday, cfg.fullHour);
      target := NextWeeklyRun(reset, cfg.fullWeekday, cfg.fullHour);
      StatusShowsTimerExactly(status, reset, cfg.fullWeekday, cfg.fullHour);
    }
  }
}
