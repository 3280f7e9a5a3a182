/** The memory and connection arithmetic of `service/tuner.go`. */
module Tuner {
  import opened Wrappers
  import opened Strings

  const KIB := 1024
  const MIB := 1_048_576
  const GIB := 1_073_741_824

  /** `uint64` */
  const WORD := 0x1_0000_0000_0000_0000
  type Word = x: int | 0 <= x < WORD

  function Min(a: int, b: int): int {
    if a <= b then a else b
  }

  function Max(a: int, b: int): int {
    if a >= b then a else b
  }

  // ---------------------------------------------------------------- connections

  /** The division of the source truncates toward zero. */
  function Half(n: int): int {
    if n >= 0 then n / 2 else -(-n / 2)
  }

  function PgMaxConn(expected: int, cores: int): int {
    Min(Max(cores * 4, 50), Min(Max(Half(expected), 50), 500))
  }

  /** `calculatePGMaxConn` */
  method CalculatePgMaxConn(expected: int, cores: int) returns (pgConn: int)
    ensures pgConn == PgMaxConn(expected, cores)
  {
    pgConn := cores * 4;
    if pgConn < 50 {
      pgConn := 50;
    }
    var limit := Half(expected);
    if limit < 50 {
      limit := 50;
    }
    if limit > 500 {
      limit := 500;
    }
    if pgConn > limit {
      pgConn := limit;
    }
  }

  /** The result is the greatest number from 50 to 500 which, as far as it exceeds 50, neither
      four connections a core nor half of the expected connections forbid. */
  lemma MaxConnExactly(expected: int, cores: int, k: int)
    requires 50 < k
    ensures 50 <= PgMaxConn(expected, cores) <= 500
    ensures k <= PgMaxConn(expected, cores) <==> k <= 500 && k <= cores * 4 && 2 * k <= expected
  {
  }

  /** It stays within half of the expected connections exactly from 100 expected ones on. */
  lemma HalfOfExpectedExactly(expected: int, cores: int)
    ensures 2 * PgMaxConn(expected, cores) <= expected <==> expected >= 100
  {
  }

  datatype Connections = Connections(
    maxConnections: int, superuserReserved: int,
    maxClientConn: int, defaultPoolSize: int, minPoolSize: int, reservePoolSize: int, maxDbConnections: int,
    ratio: int)

  function Expected(requested: int): int {
    if requested <= 0 then 100 else requested
  }

  /** `calculateConnections`. None of its three lower bounds is ever reached. Two databases with
      full pools leave the reserved superuser connections free, and a third does not fit; the
      announced ratio is zero exactly when fewer connections are expected than PostgreSQL gets. */
  method CalculateConnections(requested: int, cores: int) returns (c: Connections)
    ensures c.maxConnections == PgMaxConn(Expected(requested), cores)
    ensures c.superuserReserved == 3 && c.maxClientConn == Expected(requested)
    ensures c.maxDbConnections + c.superuserReserved == c.maxConnections
    ensures 2 * c.defaultPoolSize <= c.maxDbConnections <= 2 * c.defaultPoolSize + 1
    ensures c.defaultPoolSize >= 23
    ensures c.maxDbConnections < 3 * c.defaultPoolSize
    ensures c.minPoolSize == c.reservePoolSize
    ensures 4 * c.minPoolSize <= c.defaultPoolSize < 4 * c.minPoolSize + 4
    ensures 2 * (c.defaultPoolSize + c.reservePoolSize) <= c.maxConnections + c.maxConnections / 4
    ensures c.ratio * c.maxConnections <= c.maxClientConn < (c.ratio + 1) * c.maxConnections
    ensures c.ratio == 0 <==> Expected(requested) < c.maxConnections
    ensures c.ratio == 0 ==> Expected(requested) < 50
  {
    var expected := requested;
    if expected <= 0 {
      expected := 100;
    }
    var n := CalculatePgMaxConn(expected, cores);
    MaxConnExactly(expected, cores, 51);
    var reserved := 3;
    var pool := (n - reserved) / 2;
    if pool < 5 {
      pool := 5;
    }
    var least := pool / 4;
    if least < 2 {
      least := 2;
    }
    var reserve := pool / 4;
    if reserve < 2 {
      reserve := 2;
    }
    RatioBounds(expected, n);
    c := Connections(n, reserved, expected, pool, least, reserve, n - reserved, expected / n);
  }

  lemma RatioBounds(expected: int, n: int)
    requires expected > 0 && n > 0
    ensures expected / n * n <= expected < (expected / n + 1) * n
    ensures expected / n == 0 <==> expected < n
  {
    assert expected == expected / n * n + expected % n;
    if expected / n >= 1 {
      assert expected / n * n >= 1 * n;
    }
  }

  // ---------------------------------------------------------------- memory

  /** `""` is Unset; an unknown name falls through every switch. */
  datatype Profile = Unset | Web | Olap | Mixed | Desktop | Unknown

  datatype Memory = Memory(shared: nat, effective: nat, work: nat, maintenance: nat, wal: nat)

  const WORK_FLOOR := 4 * MIB

  function SharedOf(profile: Profile, ram: nat): nat {
    if profile.Desktop? then ram / 16 else ram / 4
  }

  function EffectiveOf(profile: Profile, ram: nat): nat {
    if profile.Desktop? then ram / 4 else ram * 3 % WORD / 4
  }

  /** Integer division; the result is the greatest share that `parts` times fits into `total`. */
  function Share(total: nat, parts: nat): (q: nat)
    requires parts > 0
    ensures parts * q <= total < parts * (q + 1)
  {
    assert total == parts * (total / parts) + total % parts;
    total / parts
  }

  /** The share of one operation before the lower bound is applied. */
  function WorkShare(profile: Profile, ram: nat, n: nat): nat
    requires n > 0
  {
    match profile
    case Desktop => Share(ram / 16, n)
    case Olap => Share(ram - ram / 4, n * 3) * 2
    case _ => Share(ram - ram / 4, n * 3)
  }

  function WorkOf(profile: Profile, ram: nat, n: nat): nat
    requires n > 0
  {
    Max(WorkShare(profile, ram, n), WORK_FLOOR)
  }

  function MaintenanceOf(profile: Profile, ram: nat): nat {
    Min(ram / 16, if profile.Desktop? then 512 * MIB else 2 * GIB)
  }

  /** Whole mebibytes, from one to sixty-four. */
  function WalOf(shared: nat): nat {
    MIB * Max(1, Min(64, shared * 3 / 100 / MIB))
  }

  function MemoryOf(profile: Profile, ram: nat, n: nat): Memory
    requires n > 0
  {
    Memory(SharedOf(profile, ram), EffectiveOf(profile, ram), WorkOf(profile, ram, n),
           MaintenanceOf(profile, ram), WalOf(SharedOf(profile, ram)))
  }

  datatype Setting = SharedBuffers | EffectiveCacheSize | WorkMem | MaintenanceWorkMem | WalBuffers

  datatype Recommendation = Recommendation(name: Setting, value: PgMem)

  function Recommendations(m: Memory): seq<Recommendation> {
    [Recommendation(SharedBuffers, FormatMem(m.shared)),
     Recommendation(EffectiveCacheSize, FormatMem(m.effective)),
     Recommendation(WorkMem, FormatMem(m.work)),
     Recommendation(MaintenanceWorkMem, FormatMem(m.maintenance)),
     Recommendation(WalBuffers, FormatMem(m.wal))]
  }

  /** The memory part of `calculate`; the settings are computed one after the other and appended. */
  method Calculate(given: Profile, ram: Word, requested: int, cores: int) returns (recs: seq<Recommendation>)
    ensures PgMaxConn(Expected(requested), cores) > 0
    ensures recs == Recommendations(MemoryOf(given, ram, PgMaxConn(Expected(requested), cores)))
    ensures var m := MemoryOf(given, ram, PgMaxConn(Expected(requested), cores));
            && |recs| == 5
            && recs[0].name == SharedBuffers && recs[0].value == FormatMem(m.shared)
            && recs[1].name == EffectiveCacheSize && recs[1].value == FormatMem(m.effective)
            && recs[2].name == WorkMem && recs[2].value == FormatMem(m.work)
            && recs[3].name == MaintenanceWorkMem && recs[3].value == FormatMem(m.maintenance)
            && recs[4].name == WalBuffers && recs[4].value == FormatMem(m.wal)
  {
    var profile := given;
    if profile.Unset? {
      profile := Web;
    }
    recs := [];

    var shared: nat := ram / 4;
    if profile.Desktop? {
      shared := ram / 16;
    }
    recs := recs + [Recommendation(SharedBuffers, FormatMem(shared))];

    var effective: nat := ram * 3 % WORD / 4;
    if profile.Desktop? {
      effective := ram / 4;
    }
    recs := recs + [Recommendation(EffectiveCacheSize, FormatMem(effective))];

    var maxConn := requested;
    if maxConn <= 0 {
      maxConn := 100;
    }
    var n := CalculatePgMaxConn(maxConn, cores);
    MaxConnExactly(maxConn, cores, 51);
    var work := WorkMemFor(profile, ram, shared, n);
    recs := recs + [Recommendation(WorkMem, FormatMem(work))];

    var maintenance := MaintenanceFor(profile, ram);
    recs := recs + [Recommendation(MaintenanceWorkMem, FormatMem(maintenance))];

    var wal := WalBuffersFor(shared);
    recs := recs + [Recommendation(WalBuffers, FormatMem(wal))];
  }

  method WorkMemFor(profile: Profile, ram: nat, shared: nat, n: nat) returns (work: nat)
    requires n > 0 && shared == SharedOf(profile, ram)
    ensures work == WorkOf(profile, ram, n)
  {
    var rest: nat := ram - shared;
    work := Share(rest, n * 3);
    match profile {
      case Olap => work := work * 2;
      case Desktop => work := Share(ram / 16, n);
      case _ =>
    }
    if work < 4 * 1024 * 1024 {
      work := 4 * 1024 * 1024;
    }
  }

  method MaintenanceFor(profile: Profile, ram: nat) returns (maintenance: nat)
    ensures maintenance == MaintenanceOf(profile, ram)
  {
    maintenance := ram / 16;
    var most := 2 * 1024 * 1024 * 1024;
    if maintenance > most {
      maintenance := most;
    }
    if profile.Desktop? {
      maintenance := ram / 16;
      if maintenance > 512 * 1024 * 1024 {
        maintenance := 512 * 1024 * 1024;
      }
    }
  }

  /** Three percent of the shared buffers. The bound of 64 kB is never seen, because the last
      step raises everything below one mebibyte; what the source calls rounding to the nearest
      mebibyte goes down. */
  method WalBuffersFor(shared: nat) returns (wal: nat)
    requires shared * 3 < WORD
    ensures wal == WalOf(shared)
  {
    wal := shared * 3 / 100;
    if wal < 64 * 1024 {
      wal := 64 * 1024;
    }
    if wal > 64 * 1024 * 1024 {
      wal := 64 * 1024 * 1024;
    }
    wal := wal / (1024 * 1024) * 1024 * 1024;
    if wal < 1024 * 1024 {
      wal := 1024 * 1024;
    }
  }

  // ---------------------------------------------------------------- the budget

  lemma MulMonotone(n: nat, a: int, b: int)
    requires a <= b
    ensures n * a <= n * b
  {
  }

  /** The memory that the operations may take together: three for each connection, one on a desktop. */
  function WorkTotal(profile: Profile, n: nat, work: nat): nat {
    if profile.Desktop? then n * work else 3 * n * work
  }

  /** What is set aside for them. */
  function WorkBudget(profile: Profile, ram: nat): nat {
    match profile
    case Desktop => ram / 16
    case Olap => 2 * (ram - ram / 4)
    case _ => ram - ram / 4
  }

  /** The operations together keep to what is set aside for them exactly when the lower bound
      of 4 MiB did not raise their share. */
  lemma WorkFitsExactly(profile: Profile, ram: nat, n: nat)
    requires n > 0
    ensures WorkTotal(profile, n, WorkOf(profile, ram, n)) <= WorkBudget(profile, ram) <==>
            WorkShare(profile, ram, n) >= WORK_FLOOR
  {
    var w := WorkOf(profile, ram, n);
    if profile.Desktop? {
      if WorkShare(profile, ram, n) < WORK_FLOOR {
        MulMonotone(n, Share(ram / 16, n) + 1, w);
      }
    } else {
      var total := ram - ram / 4;
      var q := Share(total, n * 3);
      assert 3 * n * w == (n * 3) * w;
      if profile.Olap? {
        assert (n * 3) * (q * 2) == 2 * ((n * 3) * q);
        if q * 2 < WORK_FLOOR {
          MulMonotone(n * 3, (q + 1) * 2, w);
          assert (n * 3) * ((q + 1) * 2) == 2 * ((n * 3) * (q + 1));
        }
      } else if q < WORK_FLOOR {
        MulMonotone(n * 3, q + 1, w);
      }
    }
  }

  /** The same guard in terms of the machine: so much memory for each connection. */
  lemma FloorBindsExactly(profile: Profile, ram: nat, n: nat)
    requires n > 0
    ensures WorkShare(profile, ram, n) >= WORK_FLOOR <==>
            WorkTotal(profile, n, WORK_FLOOR) <= WorkBudget(profile, ram)
  {
    WorkFitsExactly(profile, ram, n);
    var share := WorkShare(profile, ram, n);
    if share >= WORK_FLOOR {
      if profile.Desktop? {
        MulMonotone(n, WORK_FLOOR, share);
      } else {
        MulMonotone(3 * n, WORK_FLOOR, share);
      }
    }
  }

  /** Shared buffers and all operations together: within the machine's memory (web, mixed),
      within the shared buffers and twice the rest (OLAP), within an eighth of it (desktop), as
      soon as the lower bound leaves the share alone; with `WorkFitsExactly`, for web and mixed
      and for OLAP only then. */
  lemma MemoryBudget(profile: Profile, ram: nat, n: nat)
    requires n > 0
    ensures var m := MemoryOf(profile, ram, n);
            var all := m.shared + WorkTotal(profile, n, m.work);
            var guard := WorkTotal(profile, n, WORK_FLOOR) <= WorkBudget(profile, ram);
            match profile
            case Desktop => (all <= 2 * (ram / 16) <==> guard) && (guard ==> all <= ram / 8)
            case Olap => all <= m.shared + 2 * (ram - m.shared) <==> guard
            case _ => all <= ram <==> guard
  {
    WorkFitsExactly(profile, ram, n);
    FloorBindsExactly(profile, ram, n);
  }

  /** The budget holds of the recommended texts as well, because formatting only rounds down. */
  lemma FormattedBudget(profile: Profile, ram: nat, n: nat)
    requires n > 0 && WorkTotal(profile, n, WORK_FLOOR) <= WorkBudget(profile, ram)
    ensures var m := MemoryOf(profile, ram, n);
            var all := Value(FormatMem(m.shared)) + WorkTotal(profile, n, Value(FormatMem(m.work)));
            match profile
            case Desktop => all <= ram / 8
            case Olap => all <= m.shared + 2 * (ram - m.shared)
            case _ => all <= ram
  {
    MemoryBudget(profile, ram, n);
    var m := MemoryOf(profile, ram, n);
    FormatRoundsDown(m.shared);
    FormatRoundsDown(m.work);
    if profile.Desktop? {
      MulMonotone(n, Value(FormatMem(m.work)), m.work);
    } else {
      MulMonotone(3 * n, Value(FormatMem(m.work)), m.work);
    }
  }

  /** The estimate of the cache is three quarters of the memory exactly when tripling it does
      not wrap around. */
  lemma EffectiveExactly(profile: Profile, ram: Word)
    requires !profile.Desktop?
    ensures EffectiveOf(profile, ram) == ram * 3 / 4 <==> ram * 3 < WORD
    ensures SharedOf(profile, ram) * 3 < WORD
  {
  }

  // ---------------------------------------------------------------- each setting in plain numbers

  lemma ShareExactly(total: nat, parts: nat, w: nat)
    requires parts > 0
    ensures w <= Share(total, parts) <==> parts * w <= total
  {
    var q := Share(total, parts);
    if w <= q {
      MulMonotone(parts, w, q);
    } else {
      MulMonotone(parts, q + 1, w);
    }
  }

  /** `shared_buffers` is the greatest size that fits into the memory four times, on a desktop
      sixteen times. */
  lemma SharedExactly(profile: Profile, ram: nat, k: nat)
    ensures k <= SharedOf(profile, ram) <==> (if profile.Desktop? then 16 * k else 4 * k) <= ram
  {
  }

  /** `work_mem` is at least 4 MiB. Above that it is the greatest size of which three for each
      connection fit into the memory beside the shared buffers, for OLAP twice that, and on a desktop
      the greatest of which one for each connection fits into a sixteenth of the memory. */
  lemma WorkExactly(profile: Profile, ram: nat, n: nat, w: nat)
    requires n > 0
    ensures WorkOf(profile, ram, n) >= 4_194_304
    ensures w > 4_194_304 ==>
              (w <= WorkOf(profile, ram, n) <==>
               match profile
               case Desktop => n * w <= ram / 16
               case Olap => (n * 3) * ((w + 1) / 2) <= ram - ram / 4
               case _ => (n * 3) * w <= ram - ram / 4)
  {
    match profile
    case Desktop => ShareExactly(ram / 16, n, w);
    case Olap => ShareExactly(ram - ram / 4, n * 3, (w + 1) / 2);
    case _ => ShareExactly(ram - ram / 4, n * 3, w);
  }

  /** `maintenance_work_mem` is the greatest size that fits into the memory sixteen times, up to
      2 GiB, on a desktop 512 MiB. */
  lemma MaintenanceExactly(profile: Profile, ram: nat, k: nat)
    ensures k <= MaintenanceOf(profile, ram) <==>
            16 * k <= ram && k <= if profile.Desktop? then 536_870_912 else 2_147_483_648
  {
  }

  /** `effective_cache_size` is the greatest size of which four fit into three times the memory, as
      long as that does not wrap around, and on a desktop into the memory. */
  lemma CacheExactly(profile: Profile, ram: nat, k: nat)
    requires ram * 3 < 0x1_0000_0000_0000_0000
    ensures k <= EffectiveOf(profile, ram) <==> 4 * k <= if profile.Desktop? then ram else 3 * ram
  {
  }

  /** `wal_buffers` is whole mebibytes: one, and each further one up to 64 while it stays within
      three percent of the shared buffers. */
  lemma WalExactly(shared: nat, k: nat)
    requires k > 0
    ensures WalOf(shared) % 1_048_576 == 0
    ensures k * 1_048_576 <= WalOf(shared) <==> k == 1 || (k <= 64 && 100 * (k * 1_048_576) <= 3 * shared)
  {
    var q := shared * 3 / 100 / MIB;
    assert k <= q <==> 100 * (k * 1_048_576) <= 3 * shared;
  }

  // ---------------------------------------------------------------- formatting

  datatype Unit = GB | MB | KB

  datatype PgMem = PgMem(amount: nat, unit: Unit)

  function Size(u: Unit): nat {
    match u
    case GB => GIB
    case MB => MIB
    case KB => KIB
  }

  function Value(m: PgMem): nat {
    m.amount * Size(m.unit)
  }

  /** At least one unit, and less than a hundredth of a unit above a whole number of them. */
  predicate NearlyWhole(bytes: nat, u: Unit) {
    bytes >= Size(u) && 100 * (bytes % Size(u)) < Size(u)
  }

  /** `formatPGMem`, with exact quotients. */
  function FormatMem(bytes: nat): PgMem {
    if NearlyWhole(bytes, GB) then PgMem(bytes / GIB, GB)
    else if NearlyWhole(bytes, MB) then PgMem(bytes / MIB, MB)
    else PgMem(bytes / KIB, KB)
  }

  /** What is lost is less than a kibibyte or less than one percent. */
  lemma FormatRoundsDown(bytes: nat)
    ensures Value(FormatMem(bytes)) <= bytes
    ensures bytes - Value(FormatMem(bytes)) < KIB || 100 * (bytes - Value(FormatMem(bytes))) < bytes
  {
    var m := FormatMem(bytes);
    assert bytes - Value(m) == bytes % Size(m.unit);
  }

  /** Two narrow windows, in which cutting off the last partial kibibyte brings the amount below
      a hundredth above a whole unit. */
  predicate InWindow(bytes: nat) {
    || (bytes >= GIB && 10_737_419 <= bytes % GIB < 10_486 * KIB)
    || (bytes >= MIB && 10_486 <= bytes % MIB < 11 * KIB && !NearlyWhole(bytes, GB))
  }

  /** Formatting what was formatted. */
  lemma FormatTwiceExactly(bytes: nat)
    ensures FormatMem(Value(FormatMem(bytes))) == FormatMem(bytes) <==> !InWindow(bytes)
  {
    if NearlyWhole(bytes, GB) {
      WholeGibibytesStay(bytes / GIB);
    } else if NearlyWhole(bytes, MB) {
      MebibytesStay(bytes);
    } else {
      KibibytesShow(bytes);
    }
  }

  lemma WholeGibibytesStay(k: nat)
    requires k > 0
    ensures FormatMem(k * GIB) == PgMem(k, GB)
  {
  }

  lemma MebibytesStay(bytes: nat)
    requires !NearlyWhole(bytes, GB) && NearlyWhole(bytes, MB)
    ensures FormatMem(bytes / MIB * MIB) == FormatMem(bytes)
    ensures bytes >= GIB ==> bytes % GIB >= 11 * MIB
  {
    MebibytesInGibibyte(bytes);
    var r := bytes % GIB;
    assert r == r / MIB * MIB + r % MIB;
    assert bytes == bytes / MIB * MIB + bytes % MIB;
  }

  /** When a number of kibibytes is displayed again. */
  lemma KibibytesShow(bytes: nat)
    requires !NearlyWhole(bytes, GB) && !NearlyWhole(bytes, MB)
    ensures FormatMem(bytes / KIB * KIB) == FormatMem(bytes) <==>
            !(bytes >= GIB && 10_737_419 <= bytes % GIB < 10_486 * KIB)
            && !(bytes >= MIB && 10_486 <= bytes % MIB < 11 * KIB)
  {
    NearlyWholeInKibibytes(bytes, GB);
    NearlyWholeInKibibytes(bytes, MB);
    WindowOf(bytes % GIB, 10_737_419, 10_486);
    WindowOf(bytes % MIB, 10_486, 11);
  }

  lemma NearlyWholeInKibibytes(bytes: nat, u: Unit)
    requires u != KB
    ensures NearlyWhole(bytes / KIB * KIB, u) <==> bytes >= Size(u) && 100 * (bytes % Size(u) / KIB * KIB) < Size(u)
  {
    KibibytesIn(bytes, Size(u));
    assert bytes == bytes / KIB * KIB + bytes % KIB;
  }

  lemma WindowOf(r: nat, least: nat, kib: nat)
    ensures r < kib * KIB <==> r / KIB < kib
  {
  }

  lemma MebibytesInGibibyte(bytes: nat)
    ensures bytes / MIB * MIB % GIB == bytes % GIB / MIB * MIB
    ensures bytes % GIB % MIB == bytes % MIB
  {
    var g := bytes / GIB;
    assert bytes == g * GIB + bytes % GIB;
    assert bytes / MIB == g * 1024 + bytes % GIB / MIB;
  }

  lemma KibibytesIn(bytes: nat, unit: nat)
    requires unit == GIB || unit == MIB
    ensures bytes / KIB * KIB % unit == bytes % unit / KIB * KIB
  {
    if unit == GIB {
      assert bytes == bytes / GIB * GIB + bytes % GIB;
      assert bytes / KIB == bytes / GIB * 1_048_576 + bytes % GIB / KIB;
    } else {
      assert bytes == bytes / MIB * MIB + bytes % MIB;
      assert bytes / KIB == bytes / MIB * 1024 + bytes % MIB / KIB;
    }
  }

  // ---------------------------------------------------------------- applied and displayed again

  /** What PostgreSQL counts a setting in: blocks of 8 kB, or kilobytes. */
  function Block(name: Setting): nat {
    match name
    case SharedBuffers => 8 * KIB
    case EffectiveCacheSize => 8 * KIB
    case WalBuffers => 8 * KIB
    case WorkMem => KIB
    case MaintenanceWorkMem => KIB
  }

  /** n is the number of blocks kept for a setting to which m was applied: the exact one, or one of
      the two next to it, whichever way the server rounds. */
  predicate StoredAs(name: Setting, m: PgMem, n: nat) {
    Value(m) - Block(name) < n * Block(name) < Value(m) + Block(name)
  }

  /** `formatCurrentSetting` for a setting kept as n blocks. */
  function CurrentSetting(name: Setting, n: nat): PgMem {
    FormatMem(n * Block(name))
  }

  lemma ExactWhenDivisible(name: Setting, m: PgMem, n: nat)
    requires StoredAs(name, m, n) && Value(m) % Block(name) == 0
    ensures n * Block(name) == Value(m)
  {
    if Block(name) == KIB {
      assert n * KIB == Value(m) / KIB * KIB;
    } else {
      assert n * (8 * KIB) == Value(m) / (8 * KIB) * (8 * KIB);
    }
  }

  lemma WholeKibibytes(m: PgMem)
    ensures Value(m) % KIB == 0
    ensures m.unit != KB ==> Value(m) % (8 * KIB) == 0
  {
    match m.unit
    case GB => assert Value(m) == m.amount * 1024 * MIB;
    case MB => assert Value(m) == m.amount * 128 * (8 * KIB);
    case KB =>
  }

  /** From blocks only whole numbers of blocks are displayed. */
  lemma BlocksShowBlocks(n: nat)
    ensures Value(FormatMem(n * (8 * KIB))) % (8 * KIB) == 0
  {
    var bytes := n * (8 * KIB);
    WholeKibibytes(FormatMem(bytes));
    assert bytes % (8 * KIB) == 0;
    assert bytes / KIB * KIB == bytes;
  }

  /** A recommendation that has been applied shows as itself exactly outside the windows and, for
      the settings kept in blocks of 8 kB, when its amount is a whole number of blocks. */
  lemma ShownAsItselfExactly(name: Setting, bytes: nat, n: nat)
    requires StoredAs(name, FormatMem(bytes), n)
    ensures CurrentSetting(name, n) == FormatMem(bytes) <==>
            !InWindow(bytes) && Value(FormatMem(bytes)) % Block(name) == 0
  {
    var m := FormatMem(bytes);
    WholeKibibytes(m);
    FormatTwiceExactly(bytes);
    if Value(m) % Block(name) == 0 {
      ExactWhenDivisible(name, m, n);
    } else {
      BlocksShowBlocks(n);
    }
  }

  /** A machine whose recommended `shared_buffers` is displayed as a different size once applied,
      whichever way the server rounds, although the size lies outside the windows. */
  lemma SharedBuffersShownDifferently()
    ensures var ram := 4 * 4_098_311 * KIB;
            var m := PgMem(4_098_311, KB);
            && Recommendations(MemoryOf(Web, ram, 50))[0] == Recommendation(SharedBuffers, m)
            && !InWindow(SharedOf(Web, ram))
            && StoredAs(SharedBuffers, m, 512_288) && CurrentSetting(SharedBuffers, 512_288) == PgMem(4_098_304, KB)
            && StoredAs(SharedBuffers, m, 512_289) && CurrentSetting(SharedBuffers, 512_289) == PgMem(4_098_312, KB)
  {
  }

  /** `wal_buffers` is whole mebibytes and always shows as itself. */
  lemma WalBuffersShownAsItself(shared: nat, n: nat)
    requires StoredAs(WalBuffers, FormatMem(WalOf(shared)), n)
    ensures CurrentSetting(WalBuffers, n) == FormatMem(WalOf(shared))
  {
    var k := WalOf(shared) / MIB;
    assert WalOf(shared) == k * MIB && 1 <= k <= 64;
    assert FormatMem(k * MIB) == PgMem(k, MB);
    WholeKibibytes(PgMem(k, MB));
    ShownAsItselfExactly(WalBuffers, WalOf(shared), n);
  }

  // ---------------------------------------------------------------- the text

  function UnitText(u: Unit): string {
    match u
    case GB => "GB"
    case MB => "MB"
    case KB => "kB"
  }

  function Text(m: PgMem): string {
    Numeral(m.amount, 10) + UnitText(m.unit)
  }

  /** A whole number and one of the three units, as PostgreSQL reads a memory setting. */
  function ParseMem(s: string): Option<PgMem> {
    if |s| < 2 then None
    else
      var n := NumeralValue(s[..|s| - 2], 10);
      if n.None? then None
      else if s[|s| - 2..] == "GB" then Some(PgMem(n.value, GB))
      else if s[|s| - 2..] == "MB" then Some(PgMem(n.value, MB))
      else if s[|s| - 2..] == "kB" then Some(PgMem(n.value, KB))
      else None
  }

  /** The text reads back as the amount and unit it was made from, so two texts are equal only
      when the amounts are. */
  lemma TextReadsBack(m: PgMem)
    ensures ParseMem(Text(m)) == Some(m)
  {
    var s, digits, suffix := Text(m), Numeral(m.amount, 10), UnitText(m.unit);
    assert |suffix| == 2;
    assert s[..|s| - 2] == digits && s[|s| - 2..] == suffix;
    NumeralValueOfNumeral(m.amount, 10);
    match m.unit {
      case GB =>
      case MB =>
        assert suffix[0] == 'M' && "GB"[0] == 'G';
      case KB =>
        assert suffix[0] == 'k' && "GB"[0] == 'G' && "MB"[0] == 'M';
    }
  }
}
