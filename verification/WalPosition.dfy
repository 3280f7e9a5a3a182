/** Write-ahead-log positions in `service/monitor.go`: reading them (section 8.20 of the
    PostgreSQL documentation, pg_lsn Type) and the rate computed from successive samples. */
module WalPosition {
  import opened Wrappers
  import opened Strings

  const HALF := 0x1_0000_0000

  // ---------------------------------------------------------------- reading

  /** `strconv.ParseUint(s, 16, 32)` */
  function ParseHex32(s: string): Result<nat> {
    var v := NumeralValue(s, 16);
    if v.None? then Err("invalid syntax")
    else if v.value >= HALF then Err("value out of range")
    else Ok(v.value)
  }

  /** `parseLSN` */
  function ParseLsn(lsn: string): Result<nat> {
    var parts := Split(TrimSpace(lsn), '/');
    if |parts| != 2 then Err("invalid LSN: " + lsn)
    else
      var hi := ParseHex32(parts[0]);
      var lo := ParseHex32(parts[1]);
      if hi.Err? then hi
      else if lo.Err? then lo
      else Ok(hi.value * HALF + lo.value)
  }

  /** How PostgreSQL writes a position; older servers write the second half without padding
      (width 0), newer ones with eight digits. */
  function Print(hi: nat, lo: nat, width: nat): string {
    Numeral(hi, 16) + "/" + Padded(lo, 16, width)
  }

  lemma HexHasNoSpace(s: string)
    requires s != "" && forall i | 0 <= i < |s| :: DigitValue(s[i]).Some?
    ensures Trimmed(s) && '/' !in s
  {
    assert forall i | 0 <= i < |s| :: !IsSpace(s[i]) && s[i] != '/';
  }

  lemma PrintSplits(hi: nat, lo: nat, width: nat, l: string, r: string)
    requires AllSpace(l) && AllSpace(r)
    ensures Split(TrimSpace(l + Print(hi, lo, width) + r), '/') == [Numeral(hi, 16), Padded(lo, 16, width)]
  {
    var a, b := Numeral(hi, 16), Padded(lo, 16, width);
    NumeralDigits(hi, 16);
    PaddedDigits(lo, 16, width);
    HexHasNoSpace(a);
    HexHasNoSpace(b);
    var p := Print(hi, lo, width);
    assert p[0] == a[0] && p[|p| - 1] == b[|b| - 1];
    TrimSpaceUnique(l, p, r);
    assert [a, b][1..] == [b];
    assert Join([a, b], '/') == a + ['/'] + b == p;
    SplitOfJoin([a, b], '/');
  }

  /** Reading undoes writing, for every position of 64 bits and whatever white space stands around it. */
  lemma ParseOfPrint(hi: nat, lo: nat, width: nat, l: string, r: string)
    requires hi < HALF && lo < HALF && AllSpace(l) && AllSpace(r)
    ensures ParseLsn(l + Print(hi, lo, width) + r) == Ok(hi * 0x1_0000_0000 + lo)
  {
    PrintSplits(hi, lo, width, l, r);
    NumeralRoundTrip(hi, 16, 0);
    assert Zeros(0) + Numeral(hi, 16) == Numeral(hi, 16);
    PaddedRoundTrip(lo, 16, width);
  }

  lemma HalvesFit(hi: nat, lo: nat)
    requires hi < HALF && lo < HALF
    ensures 0 <= hi * HALF + lo < 0x1_0000_0000_0000_0000
    ensures (hi * HALF + lo) / HALF == hi && (hi * HALF + lo) % HALF == lo
  {
  }

  /** What is read fits in 64 bits, and writing it again reads the same. */
  lemma PositionsFit(lsn: string)
    requires ParseLsn(lsn).Ok?
    ensures 0 <= ParseLsn(lsn).value < 0x1_0000_0000_0000_0000
    ensures ParseLsn(Print(ParseLsn(lsn).value / HALF, ParseLsn(lsn).value % HALF, 8)) == ParseLsn(lsn)
  {
    var parts := Split(TrimSpace(lsn), '/');
    var hi, lo := ParseHex32(parts[0]).value, ParseHex32(parts[1]).value;
    HalvesFit(hi, lo);
    ParseOfPrint(hi, lo, 8, "", "");
    var p := Print(hi, lo, 8);
    assert "" + p + "" == p;
  }

  /** Numbers too large for their half are refused. */
  lemma TooLargeIsRefused(hi: nat, lo: nat, width: nat)
    requires hi >= HALF || lo >= HALF
    ensures ParseLsn(Print(hi, lo, width)).Err?
  {
    PrintSplits(hi, lo, width, "", "");
    var p := Print(hi, lo, width);
    assert "" + p + "" == p;
    NumeralRoundTrip(hi, 16, 0);
    assert Zeros(0) + Numeral(hi, 16) == Numeral(hi, 16);
    PaddedRoundTrip(lo, 16, width);
  }

  /** The order of positions is the lexicographic order of their halves. */
  lemma PositionOrderExactly(hi: nat, lo: nat, hi': nat, lo': nat)
    requires lo < HALF && lo' < HALF
    ensures hi * HALF + lo < hi' * HALF + lo' <==> hi < hi' || (hi == hi' && lo < lo')
  {
  }

  /** A text is read exactly when, trimmed, it has one slash between two hexadecimal numbers that
      fit in 32 bits; anything else is an error. */
  lemma ReadableExactly(lsn: string)
    ensures var parts := Split(TrimSpace(lsn), '/');
            ParseLsn(lsn).Ok? <==>
            && |parts| == 2 && NumeralValue(parts[0], 16).Some? && NumeralValue(parts[1], 16).Some?
            && NumeralValue(parts[0], 16).value <= 0xFFFF_FFFF && NumeralValue(parts[1], 16).value <= 0xFFFF_FFFF
  {
  }

  // ---------------------------------------------------------------- the rate

  const NANOS := 1_000_000_000.0

  /** A sample that was read: the position and the instant, in nanoseconds. */
  datatype Sample = Sample(lsn: nat, at: int)

  function Seconds(from: Sample, to: Sample): real {
    (to.at - from.at) as real / NANOS
  }

  /** Bytes per second from one sample to the next; zero when the position dropped or no time passed. */
  function Rate(from: Sample, to: Sample): real {
    if to.lsn >= from.lsn && Seconds(from, to) > 0.0 then (to.lsn - from.lsn) as real / Seconds(from, to) else 0.0
  }

  datatype Stats = Stats(currentLsn: string, bytesPerSec: real, segmentsPerHour: real)

  class Monitor {
    /** None before the first sample. */
    var prev: Option<Sample>

    constructor ()
      ensures prev == None
    {
      prev := None;
    }

    /** `getWALStats` once the server has answered; a malformed answer changes nothing. */
    method GetWalStats(answer: string, now: int) returns (stats: Result<Stats>)
      modifies this
      ensures ParseLsn(answer).Err? ==> stats.Err? && prev == old(prev)
      ensures ParseLsn(answer).Ok? ==> prev == Some(Sample(ParseLsn(answer).value, now)) && stats.Ok?
      ensures stats.Ok? ==>
                && stats.value.bytesPerSec == (if old(prev).Some? then Rate(old(prev).value, prev.value) else 0.0)
                && stats.value.segmentsPerHour == stats.value.bytesPerSec * 3600.0 / 16777216.0
    {
      var parsed := ParseLsn(answer);
      if parsed.Err? {
        return Err(parsed.message);
      }
      var bytesPerSec := 0.0;
      if prev.Some? && parsed.value >= prev.value.lsn {
        var seconds := Seconds(prev.value, Sample(parsed.value, now));
        if seconds > 0.0 {
          bytesPerSec := (parsed.value - prev.value.lsn) as real / seconds;
        }
      }
      prev := Some(Sample(parsed.value, now));
      stats := Ok(Stats(answer, bytesPerSec, bytesPerSec * 3600.0 / 16777216.0));
    }
  }

  /** The bytes that a rate stands for over its interval. */
  function BytesShown(from: Sample, to: Sample): real {
    Rate(from, to) * Seconds(from, to)
  }

  lemma BytesShownExactly(from: Sample, to: Sample)
    ensures BytesShown(from, to) == if to.lsn >= from.lsn && to.at > from.at then (to.lsn - from.lsn) as real else 0.0
  {
    var s := Seconds(from, to);
    if to.at > from.at {
      assert s > 0.0;
      if to.lsn >= from.lsn { DivideBack((to.lsn - from.lsn) as real, s); }
    }
  }

  lemma DivideBack(x: real, s: real)
    requires s > 0.0
    ensures x / s * s == x
  {
  }

  function TotalShown(run: seq<Sample>): real {
    if |run| <= 1 then 0.0
    else TotalShown(run[..|run| - 1]) + BytesShown(run[|run| - 2], run[|run| - 1])
  }

  ghost predicate Grows(run: seq<Sample>) {
    forall i, j | 0 <= i < j < |run| :: run[i].lsn <= run[j].lsn
  }

  /** Bytes written between two samples taken at the same instant, or with a clock that went back. */
  predicate Unseen(from: Sample, to: Sample) {
    to.lsn > from.lsn && to.at <= from.at
  }

  lemma {:induction false} TotalAtMost(run: seq<Sample>)
    requires |run| > 0 && Grows(run)
    ensures TotalShown(run) <= (run[|run| - 1].lsn - run[0].lsn) as real
  {
    if |run| <= 1 {
    } else {
      TotalAtMost(run[..|run| - 1]);
      BytesShownExactly(run[|run| - 2], run[|run| - 1]);
    }
  }

  /** Over any run of growing positions the bytes shown add up to last minus first exactly when
      no bytes fell between two samples without time in between. */
  lemma {:induction false} TotalExactly(run: seq<Sample>)
    requires |run| > 0 && Grows(run)
    ensures TotalShown(run) == (run[|run| - 1].lsn - run[0].lsn) as real <==>
            forall i | 0 <= i < |run| - 1 :: !Unseen(run[i], run[i + 1])
  {
    if |run| <= 1 {
    } else {
      var n, front := |run| - 1, run[..|run| - 1];
      TotalExactly(front);
      TotalAtMost(front);
      BytesShownExactly(run[n - 1], run[n]);
      assert run[n - 1].lsn <= run[n].lsn;
      assert forall i | 0 <= i < n :: front[i] == run[i];
      if !Unseen(run[n - 1], run[n]) {
        assert BytesShown(run[n - 1], run[n]) == (run[n].lsn - run[n - 1].lsn) as real;
        if forall i | 0 <= i < |front| - 1 :: !Unseen(front[i], front[i + 1]) {
          forall i | 0 <= i < n ensures !Unseen(run[i], run[i + 1]) {
            if i < n - 1 { assert !Unseen(front[i], front[i + 1]); }
          }
        } else {
          var i :| 0 <= i < |front| - 1 && Unseen(front[i], front[i + 1]);
          assert Unseen(run[i], run[i + 1]);
        }
      } else {
        assert Unseen(run[n - 1], run[n - 1 + 1]);
      }
    }
  }

  /** With a clock that advances between samples, and drops counted as zero, the bytes shown
      never fall short of last minus first. */
  lemma {:induction false} DropsCountAsZero(run: seq<Sample>)
    requires |run| > 0 && forall i, j | 0 <= i < j < |run| :: run[i].at < run[j].at
    ensures TotalShown(run) >= (run[|run| - 1].lsn - run[0].lsn) as real
  {
    if |run| <= 1 {
    } else {
      DropsCountAsZero(run[..|run| - 1]);
      BytesShownExactly(run[|run| - 2], run[|run| - 1]);
    }
  }

  /** Two samples at one instant lose what was written between them. */
  lemma SameInstantLosesBytes()
    ensures TotalShown([Sample(0, 5), Sample(100, 5), Sample(150, 6)]) == 50.0
  {
    var run := [Sample(0, 5), Sample(100, 5), Sample(150, 6)];
    assert run[..2] == [Sample(0, 5), Sample(100, 5)];
    assert run[..2][..1] == [Sample(0, 5)];
    BytesShownExactly(run[0], run[1]);
    BytesShownExactly(run[1], run[2]);
    assert TotalShown([Sample(0, 5)]) == 0.0;
    assert TotalShown(run[..2]) == 0.0;
  }

  // ---------------------------------------------------------------- overlapping calls

  ghost predicate Ticks(run: seq<Sample>) {
    forall i, j | 0 <= i < j < |run| :: run[i].at < run[j].at
  }

  /** How far the kept position fell back, in all. */
  function Drops(run: seq<Sample>): nat {
    if |run| <= 1 then 0
    else
      var from, to := run[|run| - 2], run[|run| - 1];
      Drops(run[..|run| - 1]) + if from.lsn > to.lsn then from.lsn - to.lsn else 0
  }

  /** With a clock that advances between samples the bytes shown are last minus first, and what
      was dropped once more. */
  lemma {:induction false} TotalCountsDropsTwice(run: seq<Sample>)
    requires |run| > 0 && Ticks(run)
    ensures TotalShown(run) == (run[|run| - 1].lsn - run[0].lsn + Drops(run)) as real
  {
    if |run| == 1 {
    } else {
      TotalCountsDropsTwice(run[..|run| - 1]);
      BytesShownExactly(run[|run| - 2], run[|run| - 1]);
    }
  }

  lemma {:induction false} NoDropsExactly(run: seq<Sample>)
    ensures Drops(run) == 0 <==> Grows(run)
  {
    if |run| <= 1 {
    } else {
      var n, front := |run| - 1, run[..|run| - 1];
      NoDropsExactly(front);
      if Drops(run) == 0 {
        forall i, j | 0 <= i < j < |run| ensures run[i].lsn <= run[j].lsn {
          if j < n {
            assert front[i].lsn <= front[j].lsn;
          } else if i < n - 1 {
            assert front[i].lsn <= front[n - 1].lsn;
          }
        }
      }
      if Grows(run) {
        assert forall i | 0 <= i < n :: front[i] == run[i];
      }
    }
  }

  /** A call reads the position from the server, and later, under the lock, keeps it as a sample. */
  datatype CallEvent = Read(caller: nat, lsn: nat) | Keep(caller: nat, at: int)

  datatype Calls = Calls(pending: map<nat, nat>, kept: seq<Sample>)

  predicate Possible(c: Calls, e: CallEvent) {
    e.Read? <==> e.caller !in c.pending
  }

  function AfterCall(c: Calls, e: CallEvent): Calls
    requires Possible(c, e)
  {
    match e
    case Read(caller, lsn) => c.(pending := c.pending[caller := lsn])
    case Keep(caller, at) => Calls(c.pending - {caller}, c.kept + [Sample(c.pending[caller], at)])
  }

  /** What some interleaving of calls has kept; None when an event was not possible. */
  function Interleaved(es: seq<CallEvent>): Option<Calls> {
    if es == [] then Some(Calls(map[], []))
    else
      var before := Interleaved(es[..|es| - 1]);
      if before.None? || !Possible(before.value, es[|es| - 1]) then None
      else Some(AfterCall(before.value, es[|es| - 1]))
  }

  /** The server's position never goes back. */
  ghost predicate ServerGrows(es: seq<CallEvent>) {
    forall i, j | 0 <= i < j < |es| && es[i].Read? && es[j].Read? :: es[i].lsn <= es[j].lsn
  }

  /** No call reads while another one is between its reading and its keeping. */
  ghost predicate NoOverlap(es: seq<CallEvent>) {
    forall i | 0 <= i < |es| && es[i].Read? :: Interleaved(es[..i]).Some? && Interleaved(es[..i]).value.pending == map[]
  }

  function LastRead(es: seq<CallEvent>): nat {
    if es == [] then 0
    else if es[|es| - 1].Read? then es[|es| - 1].lsn
    else LastRead(es[..|es| - 1])
  }

  lemma {:induction false} LastReadIsRead(es: seq<CallEvent>, lsn: nat)
    requires forall i | 0 <= i < |es| && es[i].Read? :: es[i].lsn <= lsn
    ensures LastRead(es) <= lsn
  {
    if es == [] {
    } else {
      var front := es[..|es| - 1];
      assert forall i | 0 <= i < |front| :: front[i] == es[i];
      LastReadIsRead(front, lsn);
    }
  }

  ghost predicate KeptInOrder(c: Calls, last: nat) {
    && Grows(c.kept)
    && (forall i | 0 <= i < |c.kept| :: c.kept[i].lsn <= last)
    && (forall k | k in c.pending :: c.pending[k] == last)
  }

  lemma NoOverlapFront(es: seq<CallEvent>)
    requires es != [] && ServerGrows(es) && NoOverlap(es)
    ensures ServerGrows(es[..|es| - 1]) && NoOverlap(es[..|es| - 1])
  {
    var front := es[..|es| - 1];
    assert forall i | 0 <= i < |front| :: front[i] == es[i] && front[..i] == es[..i];
  }

  /** Calls that do not overlap keep their positions in the order in which they were read. */
  lemma {:induction false} NoOverlapKeepsOrder(es: seq<CallEvent>)
    requires Interleaved(es).Some? && ServerGrows(es) && NoOverlap(es)
    ensures KeptInOrder(Interleaved(es).value, LastRead(es))
  {
    if es == [] {
    } else {
      var n, front, e := |es| - 1, es[..|es| - 1], es[|es| - 1];
      NoOverlapFront(es);
      NoOverlapKeepsOrder(front);
      if e.Read? {
        forall i | 0 <= i < |front| && front[i].Read? ensures front[i].lsn <= e.lsn {
          assert es[i].lsn <= es[n].lsn;
        }
        LastReadIsRead(front, e.lsn);
        assert es[n].Read? && es[..n] == front;
      }
    }
  }

  /** In every interleaving of calls, with a clock that advances under the lock, the bytes shown
      are last minus first and the drops once more: they are right exactly when the samples were
      kept in the order of their positions, which they are when no calls overlap. */
  lemma OverlapsDecide(es: seq<CallEvent>)
    requires Interleaved(es).Some? && |Interleaved(es).value.kept| > 0 && Ticks(Interleaved(es).value.kept)
    ensures var run := Interleaved(es).value.kept;
            var span := run[|run| - 1].lsn - run[0].lsn;
            && TotalShown(run) == (span + Drops(run)) as real
            && (TotalShown(run) == span as real <==> Grows(run))
            && (ServerGrows(es) && NoOverlap(es) ==> Grows(run))
  {
    var run := Interleaved(es).value.kept;
    TotalCountsDropsTwice(run);
    NoDropsExactly(run);
    if ServerGrows(es) && NoOverlap(es) { NoOverlapKeepsOrder(es); }
  }

  lemma InterleavedMore(es: seq<CallEvent>, e: CallEvent)
    requires Interleaved(es).Some? && Possible(Interleaved(es).value, e)
    ensures Interleaved(es + [e]) == Some(AfterCall(Interleaved(es).value, e))
  {
    assert (es + [e])[..|es + [e]| - 1] == es;
  }

  lemma OverlapBegins()
    ensures Interleaved([Read(1, 0), Keep(1, 0)] + [Read(1, 100)] + [Read(2, 200)] + [Keep(2, 1)])
         == Some(Calls(map[1 := 100], [Sample(0, 0), Sample(200, 1)]))
  {
    var a := [Read(1, 0), Keep(1, 0)];
    assert [] + [Read(1, 0)] == [Read(1, 0)] && [Read(1, 0)] + [Keep(1, 0)] == a;
    InterleavedMore([], Read(1, 0));
    InterleavedMore([Read(1, 0)], Keep(1, 0));
    assert map[1 := 0] - {1} == map[] && [] + [Sample(0, 0)] == [Sample(0, 0)];
    assert Interleaved([Read(1, 0)]) == Some(Calls(map[1 := 0], []));
    assert Interleaved(a) == Some(Calls(map[], [Sample(0, 0)]));
    var b := a + [Read(1, 100)];
    InterleavedMore(a, Read(1, 100));
    var c := b + [Read(2, 200)];
    InterleavedMore(b, Read(2, 200));
    assert Interleaved(c) == Some(Calls(map[1 := 100, 2 := 200], [Sample(0, 0)]));
    InterleavedMore(c, Keep(2, 1));
    assert map[1 := 100, 2 := 200] - {2} == map[1 := 100];
    assert [Sample(0, 0)] + [Sample(200, 1)] == [Sample(0, 0), Sample(200, 1)];
  }

  /** Two overlapping calls: the one that read first keeps last, and 100 bytes are shown twice. */
  lemma OverlapCountsTwice()
    ensures var es := [Read(1, 0), Keep(1, 0)] + [Read(1, 100)] + [Read(2, 200)] + [Keep(2, 1)] + [Keep(1, 2)]
                      + [Read(1, 300)] + [Keep(1, 3)];
            && ServerGrows(es) && Interleaved(es).Some?
            && Interleaved(es).value.kept == [Sample(0, 0), Sample(200, 1), Sample(100, 2), Sample(300, 3)]
            && TotalShown(Interleaved(es).value.kept) == 400.0
  {
    OverlapBegins();
    var a := [Read(1, 0), Keep(1, 0)];
    var d := a + [Read(1, 100)] + [Read(2, 200)] + [Keep(2, 1)];
    var e := d + [Keep(1, 2)];
    InterleavedMore(d, Keep(1, 2));
    var f := e + [Read(1, 300)];
    InterleavedMore(e, Read(1, 300));
    InterleavedMore(f, Keep(1, 3));
    var run := [Sample(0, 0), Sample(200, 1), Sample(100, 2), Sample(300, 3)];
    assert Interleaved(f + [Keep(1, 3)]).value.kept == run;
    FourSamples(run);
  }

  lemma FourSamples(run: seq<Sample>)
    requires run == [Sample(0, 0), Sample(200, 1), Sample(100, 2), Sample(300, 3)]
    ensures TotalShown(run) == 400.0
  {
    assert run[..3] == [Sample(0, 0), Sample(200, 1), Sample(100, 2)];
    assert run[..3][..2] == [Sample(0, 0), Sample(200, 1)];
    assert run[..3][..2][..1] == [Sample(0, 0)];
    assert Drops(run[..3][..2]) == 0;
    assert Drops(run[..3]) == 100;
    assert Drops(run) == 100;
    TotalCountsDropsTwice(run);
  }

  /** The rate is in bytes per second, with the interval in nanoseconds. */
  lemma RateIsPerSecond(from: Sample, to: Sample)
    requires to.lsn >= from.lsn && to.at > from.at
    ensures Rate(from, to) * (to.at - from.at) as real == (to.lsn - from.lsn) as real * 1_000_000_000.0
  {
    BytesShownExactly(from, to);
    var n := (to.at - from.at) as real;
    assert Seconds(from, to) == n / 1_000_000_000.0;
    assert n == Seconds(from, to) * 1_000_000_000.0;
    Regroup(Rate(from, to), Seconds(from, to));
  }

  lemma Regroup(x: real, s: real)
    ensures x * (s * 1_000_000_000.0) == (x * s) * 1_000_000_000.0
  {
  }
}
