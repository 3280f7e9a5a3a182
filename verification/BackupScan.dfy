/** The two scans over the backup list in `service/walg.go`, and the size display. Instants
    are integers; 0 is Go's zero time. */
module BackupScan {

  datatype Backup = Backup(name: string, startTime: int, finishTime: int)

  /** The finishing time, or the starting time when it is unknown. */
  function Candidate(b: Backup): int {
    if b.finishTime == 0 then b.startTime else b.finishTime
  }

  predicate IsNewest(bs: seq<Backup>, i: int) {
    0 <= i < |bs| && forall j | 0 <= j < |bs| :: Candidate(bs[j]) <= Candidate(bs[i])
  }

  /** The backup `latestByTime` settles on; -1 for an empty list. An empty name counts as
      "nothing chosen yet". */
  function Chosen(bs: seq<Backup>): (c: int)
    ensures -1 <= c < |bs| && (bs != [] ==> c >= 0)
  {
    if bs == [] then -1
    else
      var c := Chosen(bs[..|bs| - 1]);
      if c == -1 || bs[c].name == "" || Candidate(bs[|bs| - 1]) > Candidate(bs[c]) then |bs| - 1 else c
  }

  method LatestByTime(backups: seq<Backup>) returns (latestName: string)
    ensures latestName == if backups == [] then "" else backups[Chosen(backups)].name
  {
    latestName := "";
    var latestTime := 0;
    for i := 0 to |backups|
      invariant i == 0 ==> latestName == ""
      invariant i > 0 ==>
                  && latestName == backups[Chosen(backups[..i])].name
                  && latestTime == Candidate(backups[Chosen(backups[..i])])
    {
      var b := backups[i];
      assert backups[..i + 1][..i] == backups[..i];
      var candidate := b.finishTime;
      if candidate == 0 {
        candidate := b.startTime;
      }
      if latestName == "" || candidate > latestTime {
        latestName := b.name;
        latestTime := candidate;
      }
    }
    assert backups[..|backups|] == backups;
  }

  /** The time of the newest backup, but never before the zero time. */
  method LatestBackupTime(backups: seq<Backup>) returns (latest: int)
    ensures latest >= 0 && forall i | 0 <= i < |backups| :: Candidate(backups[i]) <= latest
    ensures forall i | 0 <= i < |backups| ::
              if backups[i].finishTime != 0 then backups[i].finishTime <= latest else backups[i].startTime <= latest
    ensures latest == 0 || exists i :: IsNewest(backups, i) && Candidate(backups[i]) == latest
  {
    latest := 0;
    for i := 0 to |backups|
      invariant latest >= 0 && forall j | 0 <= j < i :: Candidate(backups[j]) <= latest
      invariant latest == 0 || exists j | 0 <= j < i :: Candidate(backups[j]) == latest
    {
      var candidate := backups[i].finishTime;
      if candidate == 0 {
        candidate := backups[i].startTime;
      }
      if candidate > latest {
        latest := candidate;
      }
    }
    if latest != 0 {
      var j :| 0 <= j < |backups| && Candidate(backups[j]) == latest;
      assert IsNewest(backups, j);
    }
  }

  /** Newest means: nothing finished, or where that is not known started, later. */
  lemma NewestExactly(bs: seq<Backup>, i: nat)
    requires i < |bs|
    ensures IsNewest(bs, i) <==>
            forall j | 0 <= j < |bs| ::
              (if bs[j].finishTime != 0 then bs[j].finishTime else bs[j].startTime)
              <= (if bs[i].finishTime != 0 then bs[i].finishTime else bs[i].startTime)
  {
  }

  /** A newest backup with a name wins. */
  lemma {:induction false} NamedNewestWins(bs: seq<Backup>, i: int)
    requires IsNewest(bs, i) && bs[i].name != ""
    ensures IsNewest(bs, Chosen(bs)) && bs[Chosen(bs)].name != ""
    decreases |bs|
  {
    var front, x := bs[..|bs| - 1], bs[|bs| - 1];
    if i < |front| {
      assert IsNewest(front, i);
      NamedNewestWins(front, i);
      assert Candidate(x) <= Candidate(bs[i]);
    } else if front != [] {
      var c := Chosen(front);
      if c >= 0 && bs[c].name != "" && Candidate(x) <= Candidate(bs[c]) {
        assert IsNewest(bs, c);
      }
    }
  }

  /** Of named backups that are equally new the first in the list wins. */
  lemma {:induction false} FirstNewestWins(bs: seq<Backup>, j: nat)
    requires forall i | 0 <= i < |bs| :: bs[i].name != ""
    requires j < Chosen(bs)
    ensures Candidate(bs[j]) < Candidate(bs[Chosen(bs)])
  {
    var front, n := bs[..|bs| - 1], |bs| - 1;
    if Chosen(bs) != n {
      FirstNewestWins(front, j);
    } else if front != [] {
      var c := Chosen(front);
      if j < c {
        FirstNewestWins(front, j);
      } else if j > c {
        LaterIsNotNewer(front, j);
      }
    }
  }

  lemma {:induction false} LaterIsNotNewer(bs: seq<Backup>, j: nat)
    requires forall i | 0 <= i < |bs| :: bs[i].name != ""
    requires j < |bs|
    ensures Candidate(bs[j]) <= Candidate(bs[Chosen(bs)])
  {
    var front := bs[..|bs| - 1];
    if j < |front| {
      LaterIsNotNewer(front, j);
    } else if front != [] {
      assert bs[Chosen(front)].name != "";
    }
  }

  /** Exactly when the chosen backup is a newest one: some newest backup has a name, or the
      last of the list is newest. */
  lemma ChosenIsNewestExactly(bs: seq<Backup>)
    requires bs != []
    ensures IsNewest(bs, Chosen(bs)) <==>
            (exists i :: IsNewest(bs, i) && bs[i].name != "") || IsNewest(bs, |bs| - 1)
  {
    if i :| IsNewest(bs, i) && bs[i].name != "" {
      NamedNewestWins(bs, i);
    } else {
      var c := Chosen(bs);
      assert c < |bs| - 1 ==> bs[c].name != "" && c == Chosen(bs[..|bs| - 1]);
    }
  }

  /** The name and the time agree exactly when, besides, the newest time is not before the zero time. */
  lemma ScansAgreeExactly(bs: seq<Backup>, latest: int)
    requires bs != []
    requires latest >= 0 && forall i | 0 <= i < |bs| :: Candidate(bs[i]) <= latest
    requires latest == 0 || exists i :: IsNewest(bs, i) && Candidate(bs[i]) == latest
    ensures Candidate(bs[Chosen(bs)]) == latest <==>
            && ((exists i :: IsNewest(bs, i) && bs[i].name != "") || IsNewest(bs, |bs| - 1))
            && (exists i | 0 <= i < |bs| :: Candidate(bs[i]) >= 0)
  {
    ChosenIsNewestExactly(bs);
    if latest != 0 {
      var i :| IsNewest(bs, i) && Candidate(bs[i]) == latest;
    }
  }

  /** A nameless newest backup in the middle of the list is passed over. */
  lemma NamelessBackupIsPassedOver()
    ensures var bs := [Backup("", 5, 0), Backup("old", 3, 0)];
            bs[Chosen(bs)].name == "old" && !IsNewest(bs, Chosen(bs))
  {
    var bs := [Backup("", 5, 0), Backup("old", 3, 0)];
    assert bs[..1] == [bs[0]];
    assert Chosen([bs[0]]) == 0;
    assert Candidate(bs[0]) > Candidate(bs[1]);
  }

  // ---------------------------------------------------------------- sizes

  const UNIT: int := 1024

  function Power(k: nat): int {
    if k == 0 then 1 else UNIT * Power(k - 1)
  }

  lemma {:induction false} PowerGrows(k: nat)
    ensures Power(k) >= 1 && (k >= 7 ==> Power(k) >= 0x8000_0000_0000_0000)
  {
    if k > 7 {
      PowerGrows(k - 1);
    } else if k == 7 {
      assert Power(1) == 0x400 && Power(2) == 0x10_0000 && Power(3) == 0x4000_0000;
      assert Power(4) == 0x100_0000_0000 && Power(5) == 0x4_0000_0000_0000 && Power(6) == 0x1000_0000_0000_0000;
    } else if k > 0 {
      PowerGrows(k - 1);
    }
  }

  lemma MulAtMost(a: int, b: int, c: int)
    requires a <= b && c >= 0
    ensures a * c <= b * c
  {
  }

  /** n is the whole number of times div goes into b. */
  predicate Quotient(b: int, n: int, div: int) {
    n * div <= b < (n + 1) * div
  }

  lemma QuotientStep(b: int, n: int, div: int)
    requires n >= UNIT && div >= 1 && Quotient(b, n, div)
    ensures n / UNIT >= 1 && Quotient(b, n / UNIT, div * UNIT)
  {
    var q := n / UNIT;
    assert q * UNIT <= n && n + 1 <= (q + 1) * UNIT;
    MulAtMost(q * UNIT, n, div);
    MulAtMost(n + 1, (q + 1) * UNIT, div);
    assert q * (div * UNIT) == q * UNIT * div;
    assert (q + 1) * (div * UNIT) == (q + 1) * UNIT * div;
  }

  lemma QuotientRange(b: int, n: int, div: int)
    requires 1 <= n < UNIT && div >= 1 && Quotient(b, n, div)
    ensures div <= b < UNIT * div
  {
    MulAtMost(1, n, div);
    MulAtMost(n + 1, UNIT, div);
  }

  lemma FirstQuotient(b: int)
    requires b >= UNIT
    ensures Quotient(b, b / UNIT, UNIT) && b / UNIT >= 1
  {
  }

  /** What `humanBytes` prints: the number itself, or b / div with the suffix at index exp. */
  datatype Size = Bytes(b: int) | Scaled(div: int, exp: nat)

  /** For every 64-bit size of at least one unit the quotient that is printed lies between 1
      and 1024, and the suffix index stays inside "KMGTPE". */
  method HumanBytes(b: int) returns (r: Size)
    requires -0x8000_0000_0000_0000 <= b < 0x8000_0000_0000_0000
    ensures b < UNIT ==> r == Bytes(b)
    ensures b >= UNIT ==> r.Scaled? && r.div == Power(r.exp + 1) && r.div <= b < UNIT * r.div && r.exp < |"KMGTPE"|
  {
    if b < UNIT {
      return Bytes(b);
    }
    var div, exp := UNIT, 0;
    var n := b / UNIT;
    FirstQuotient(b);
    assert Power(1) == UNIT * Power(0);
    while n >= UNIT
      invariant div == Power(exp + 1) && div >= 1 && n >= 1 && Quotient(b, n, div)
      decreases n
    {
      QuotientStep(b, n, div);
      div := div * UNIT;
      exp := exp + 1;
      n := n / UNIT;
    }
    QuotientRange(b, n, div);
    PowerGrows(exp + 1);
    r := Scaled(div, exp);
  }
}
