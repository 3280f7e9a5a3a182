/** The job table of `service/job_store.go` as a value, and what holds in every run of it.
    The operations are those of the store; `Machine` adds the one interleaving point inside
    `Start`, where the sequence number is drawn before the lock is taken. */
module JobSpec {
  import opened Wrappers
  import opened Strings
  import Sorting

  const MAX_JOBS := 200
  const DEFAULT_LIMIT := 50
  const NANOS_PER_SECOND := 1_000_000_000

  datatype Status = Running | Succeeded | Failed | Canceled

  datatype Artifact = Artifact(path: string, name: string, contentType: string, sizeBytes: int)

  /** The plain fields of a job. */
  datatype Info = Info(
    id: string, kind: string, target: string, database: string,
    status: Status, message: string, error: string, details: string,
    createdAt: int, startedAt: int, updatedAt: int)

  datatype Job = Job(info: Info, metadata: map<string, string>, finishedAt: Option<int>, artifact: Option<Artifact>)

  /** `cleaned` records the calls of the clean-up function, oldest first. */
  datatype Store = Store(jobs: map<string, Job>, order: seq<string>, cleaned: seq<Job>)

  const EMPTY := Store(map[], [], [])

  /** What the caller of `Start` says about a new job. */
  datatype Request = Request(kind: string, target: string, database: string, message: string,
                             metadata: map<string, string>)

  function NewJob(id: string, r: Request, now: int): Job {
    Job(Info(id, r.kind, r.target, r.database, Running, r.message, "", "", now, now, now), r.metadata, None, None)
  }

  // ---------------------------------------------------------------- operations

  /** `trimLocked`: drops the oldest jobs until at most MAX_JOBS are left. */
  function Trim(s: Store): Store
    decreases |s.order|
  {
    if |s.order| <= MAX_JOBS then s
    else
      var last, front := s.order[|s.order| - 1], s.order[..|s.order| - 1];
      Trim(if last in s.jobs then Store(s.jobs - {last}, front, s.cleaned + [s.jobs[last]])
           else Store(s.jobs, front, s.cleaned))
  }

  function Insert(s: Store, job: Job): Store {
    Trim(Store(s.jobs[job.info.id := job], [job.info.id] + s.order, s.cleaned))
  }

  function UpdatedInfo(i: Info, message: string, details: string, now: int): Info {
    i.(message := if message != "" then message else i.message,
       details := if details != "" then details else i.details,
       updatedAt := now)
  }

  function Updated(job: Job, message: string, details: string, now: int): Job {
    job.(info := UpdatedInfo(job.info, message, details, now))
  }

  function Update(s: Store, id: string, message: string, details: string, now: int): Store {
    if id !in s.jobs then s else s.(jobs := s.jobs[id := Updated(s.jobs[id], message, details, now)])
  }

  function FinishedInfo(i: Info, status: Status, message: string, details: string, now: int): Info {
    i.(status := status,
       message := message,
       error := if status == Failed then message else i.error,
       details := if details != "" then details else i.details,
       updatedAt := now)
  }

  function Finished(job: Job, status: Status, message: string, details: string,
                    artifact: Option<Artifact>, now: int): Job {
    Job(FinishedInfo(job.info, status, message, details, now), job.metadata, Some(now),
        if artifact.Some? then artifact else job.artifact)
  }

  /** `finish`; it does not look at the status the job already has. */
  function Finish(s: Store, id: string, status: Status, message: string, details: string,
                  artifact: Option<Artifact>, now: int): Store {
    if id !in s.jobs then s
    else s.(jobs := s.jobs[id := Finished(s.jobs[id], status, message, details, artifact, now)])
  }

  // ---------------------------------------------------------------- what the operations write

  /** A progress report: an empty text leaves the old one, the time is always renewed, and status,
      error, metadata, finishing time and artifact stay. */
  lemma UpdateWrites(s: Store, id: string, message: string, details: string, now: int)
    requires id in s.jobs
    ensures var s', before := Update(s, id, message, details, now), s.jobs[id];
            && s'.jobs.Keys == s.jobs.Keys && s'.order == s.order && s'.cleaned == s.cleaned
            && (forall k | k in s.jobs && k != id :: s'.jobs[k] == s.jobs[k])
            && var job := s'.jobs[id];
               && job.info.message == (if message == "" then before.info.message else message)
               && job.info.details == (if details == "" then before.info.details else details)
               && job.info.updatedAt == now
               && job.info.status == before.info.status && job.info.error == before.info.error
               && job.info.id == before.info.id && job.info.kind == before.info.kind
               && job.info.target == before.info.target && job.info.database == before.info.database
               && job.info.createdAt == before.info.createdAt && job.info.startedAt == before.info.startedAt
               && job.metadata == before.metadata && job.finishedAt == before.finishedAt
               && job.artifact == before.artifact
  {
  }

  /** The end of a job: status, message and both times are set, the error only for a failure, and
      details and artifact only when there are some. */
  lemma FinishWrites(s: Store, id: string, status: Status, message: string, details: string,
                     artifact: Option<Artifact>, now: int)
    requires id in s.jobs
    ensures var s', before := Finish(s, id, status, message, details, artifact, now), s.jobs[id];
            && s'.jobs.Keys == s.jobs.Keys && s'.order == s.order && s'.cleaned == s.cleaned
            && (forall k | k in s.jobs && k != id :: s'.jobs[k] == s.jobs[k])
            && var job := s'.jobs[id];
               && job.info.status == status && job.info.message == message
               && job.info.error == (if status == Failed then message else before.info.error)
               && job.info.details == (if details == "" then before.info.details else details)
               && job.info.updatedAt == now && job.finishedAt == Some(now)
               && job.info.id == before.info.id && job.info.kind == before.info.kind
               && job.info.target == before.info.target && job.info.database == before.info.database
               && job.info.createdAt == before.info.createdAt && job.info.startedAt == before.info.startedAt
               && job.metadata == before.metadata
               && job.artifact == (if artifact == None then before.artifact else artifact)
  {
  }

  /** A report about an unknown job changes nothing. */
  lemma UnknownIsIgnored(s: Store, id: string, status: Status, message: string, details: string,
                         artifact: Option<Artifact>, now: int)
    requires id !in s.jobs
    ensures Update(s, id, message, details, now) == s
    ensures Finish(s, id, status, message, details, artifact, now) == s
  {
  }

  // ---------------------------------------------------------------- identifiers

  function IntText(n: int): string {
    if n < 0 then "-" + Numeral(-n, 10) else Numeral(n, 10)
  }

  /** "job-%d-%06d" */
  function JobId(unix: int, ticket: nat): string {
    "job-" + IntText(unix) + "-" + Padded(ticket, 10, 6)
  }

  function AfterLastDash(s: string): string {
    if s == "" || s[|s| - 1] == '-' then "" else AfterLastDash(s[..|s| - 1]) + [s[|s| - 1]]
  }

  /** The sequence number inside a job identifier. */
  function TicketOf(id: string): Option<nat> {
    NumeralValue(AfterLastDash(id), 10)
  }

  lemma {:induction false} AfterLastDashOf(a: string, d: string)
    requires '-' !in d
    ensures AfterLastDash(a + "-" + d) == d
  {
    var s := a + "-" + d;
    if d == "" {
      assert s[|s| - 1] == '-';
    } else {
      var front := d[..|d| - 1];
      assert s[..|s| - 1] == a + "-" + front && s[|s| - 1] == d[|d| - 1];
      AfterLastDashOf(a, front);
    }
  }

  /** An identifier carries its number, so numbers drawn once give identifiers used once. */
  lemma TicketOfJobId(unix: int, ticket: nat)
    ensures TicketOf(JobId(unix, ticket)) == Some(ticket)
  {
    var d := Padded(ticket, 10, 6);
    PaddedDigits(ticket, 10, 6);
    assert '-' !in d;
    var a := "job-" + IntText(unix);
    assert JobId(unix, ticket) == a + "-" + d;
    AfterLastDashOf(a, d);
    PaddedRoundTrip(ticket, 10, 6);
  }

  lemma IntTextHasDigits(n: int)
    requires n >= 0
    ensures '-' !in IntText(n) && NumeralValue(IntText(n), 10) == Some(n)
  {
    NumeralDigits(n, 10);
    NumeralValueOfNumeral(n, 10);
  }

  /** An identifier is "job", the second in which the job was started, and the number in at least
      six digits, between dashes. */
  lemma JobIdExactly(unix: nat, ticket: nat) returns (u: string, t: string)
    ensures Split(JobId(unix, ticket), '-') == ["job", u, t]
    ensures NumeralValue(u, 10) == Some(unix) && NumeralValue(t, 10) == Some(ticket) && |t| >= 6
    ensures |t| > 6 ==> t == Numeral(ticket, 10)
  {
    u, t := IntText(unix), Padded(ticket, 10, 6);
    IntTextHasDigits(unix);
    PaddedDigits(ticket, 10, 6);
    PaddedRoundTrip(ticket, 10, 6);
    assert '-' !in t;
    assert JobId(unix, ticket) == "job-" + u + "-" + t;
    SplitAfterJob(u, t);
  }

  lemma SplitAfterJob(u: string, t: string)
    requires '-' !in u && '-' !in t
    ensures Split("job-" + u + "-" + t, '-') == ["job", u, t]
  {
    SplitThree("job", u, t, '-');
    assert "job-" == "job" + ['-'];
    assert "job-" + u + "-" + t == "job" + ['-'] + u + ['-'] + t;
  }

  // ---------------------------------------------------------------- runs

  /** What `Start` holds between drawing its number and entering its job. */
  datatype Ticket = Ticket(id: string, now: int)

  /** The store, the counter, the tickets drawn but not yet used, and every identifier ever
      inserted, oldest first. */
  datatype Machine = Machine(store: Store, counter: nat, pending: map<nat, Ticket>, inserted: seq<string>)

  const INITIAL := Machine(EMPTY, 0, map[], [])

  datatype Event =
    | Draw(now: int)
    | Commit(ticket: nat, request: Request)
    | DoUpdate(id: string, message: string, details: string, now: int)
    | DoFinish(id: string, status: Status, message: string, details: string,
               artifact: Option<Artifact>, now: int)

  predicate Enabled(m: Machine, e: Event) {
    e.Commit? ==> e.ticket in m.pending
  }

  function NewTicket(n: nat, now: int): Ticket {
    Ticket(JobId(now / NANOS_PER_SECOND, n), now)
  }

  function Next(m: Machine, e: Event): Machine
    requires Enabled(m, e)
  {
    match e
    case Draw(now) =>
      var n := m.counter + 1;
      m.(counter := n, pending := m.pending[n := NewTicket(n, now)])
    case Commit(n, request) =>
      var t := m.pending[n];
      Machine(Insert(m.store, NewJob(t.id, request, t.now)), m.counter, m.pending - {n}, m.inserted + [t.id])
    case DoUpdate(id, message, details, now) => m.(store := Update(m.store, id, message, details, now))
    case DoFinish(id, status, message, details, artifact, now) =>
      m.(store := Finish(m.store, id, status, message, details, artifact, now))
  }

  /** The identifier drawn at an instant carries its second and the next number. */
  lemma DrawsId(m: Machine, now: int)
    ensures var m', n := Next(m, Draw(now)), m.counter + 1;
            && m'.counter == n && n in m'.pending && m'.pending[n].now == now
            && m'.pending[n].id == JobId(now / 1_000_000_000, n) && m'.store == m.store
  {
  }

  /** The outcome of a run, or None when an event was not possible. */
  function Replay(es: seq<Event>): Option<Machine> {
    if es == [] then Some(INITIAL)
    else
      var before := Replay(es[..|es| - 1]);
      if before.None? || !Enabled(before.value, es[|es| - 1]) then None
      else Some(Next(before.value, es[|es| - 1]))
  }

  // ---------------------------------------------------------------- invariant

  function Min(a: int, b: int): int { if a < b then a else b }

  /** `order` lists the most recent insertions, newest first, and no more than MAX_JOBS. */
  ghost predicate ListsNewest(order: seq<string>, inserted: seq<string>) {
    && |order| == Min(|inserted|, MAX_JOBS)
    && forall i | 0 <= i < |order| :: order[i] == inserted[|inserted| - 1 - i]
  }

  /** The jobs handed to the clean-up function are the earlier insertions, once each, in order. */
  ghost predicate CleanedOldest(cleaned: seq<Job>, order: seq<string>, inserted: seq<string>) {
    && |cleaned| + |order| == |inserted|
    && forall i | 0 <= i < |cleaned| :: cleaned[i].info.id == inserted[i]
  }

  /** The table and its order list agree, and the table is not over-full. */
  ghost predicate StoreOk(s: Store) {
    && |s.order| <= MAX_JOBS
    && Sorting.NoDuplicates(s.order)
    && (forall id :: id in s.jobs <==> id in s.order)
    && (forall id | id in s.jobs :: s.jobs[id].info.id == id)
  }

  predicate Spent(counter: nat, pending: map<nat, Ticket>, id: string) {
    var t := TicketOf(id);
    t.Some? && 1 <= t.value <= counter && t.value !in pending
  }

  /** Numbers in hand and numbers inside identifiers are distinct and were all drawn. */
  ghost predicate TicketsOk(counter: nat, pending: map<nat, Ticket>, inserted: seq<string>) {
    && (forall i | 0 <= i < |inserted| :: Spent(counter, pending, inserted[i]))
    && (forall n | n in pending :: 1 <= n <= counter && TicketOf(pending[n].id) == Some(n))
  }

  ghost predicate Inv(m: Machine) {
    && StoreOk(m.store)
    && ListsNewest(m.store.order, m.inserted)
    && CleanedOldest(m.store.cleaned, m.store.order, m.inserted)
    && Sorting.NoDuplicates(m.inserted)
    && TicketsOk(m.counter, m.pending, m.inserted)
  }

  function Kept(order: seq<string>): seq<string> {
    if |order| < MAX_JOBS then order else order[..MAX_JOBS - 1]
  }

  /** A new job goes in front; when the table was full exactly the oldest goes, through the
      clean-up function. */
  lemma InsertShape(s: Store, job: Job)
    requires StoreOk(s) && job.info.id !in s.jobs
    ensures Insert(s, job).order == [job.info.id] + Kept(s.order)
    ensures |s.order| < MAX_JOBS ==>
              Insert(s, job) == Store(s.jobs[job.info.id := job], [job.info.id] + s.order, s.cleaned)
    ensures |s.order| == MAX_JOBS ==>
              var last := s.order[MAX_JOBS - 1];
              && last in s.jobs
              && Insert(s, job) == Store(s.jobs[job.info.id := job] - {last}, [job.info.id] + Kept(s.order),
                                         s.cleaned + [s.jobs[last]])
  {
    if |s.order| == MAX_JOBS {
      var t := Store(s.jobs[job.info.id := job], [job.info.id] + s.order, s.cleaned);
      var last := s.order[MAX_JOBS - 1];
      assert last in s.order;
      assert t.order[MAX_JOBS] == last;
      assert t.order[..MAX_JOBS] == [job.info.id] + Kept(s.order);
      var u := Store(t.jobs - {last}, t.order[..MAX_JOBS], t.cleaned + [t.jobs[last]]);
      assert Trim(t) == Trim(u) == u;
    }
  }

  lemma KeptElements(order: seq<string>, id: string)
    requires |order| <= MAX_JOBS && Sorting.NoDuplicates(order)
    ensures id in Kept(order) <==> id in order && !(|order| == MAX_JOBS && id == order[MAX_JOBS - 1])
  {
    if |order| == MAX_JOBS {
      assert order == Kept(order) + [order[MAX_JOBS - 1]];
      assert order[MAX_JOBS - 1] !in Kept(order);
    }
  }

  lemma InsertKeepsOk(s: Store, job: Job)
    requires StoreOk(s) && job.info.id !in s.jobs
    ensures StoreOk(Insert(s, job))
  {
    InsertShape(s, job);
    var s' := Insert(s, job);
    forall id ensures id in s'.jobs <==> id in s'.order {
      KeptElements(s.order, id);
      assert id in s'.order <==> id == job.info.id || id in Kept(s.order);
    }
  }

  lemma HistoryGrows(s: Store, job: Job, inserted: seq<string>)
    requires StoreOk(s) && job.info.id !in s.jobs
    requires ListsNewest(s.order, inserted) && CleanedOldest(s.cleaned, s.order, inserted)
    ensures ListsNewest(Insert(s, job).order, inserted + [job.info.id])
    ensures CleanedOldest(Insert(s, job).cleaned, Insert(s, job).order, inserted + [job.info.id])
  {
    InsertShape(s, job);
  }

  lemma TicketSpent(m: Machine, ticket: nat)
    requires TicketsOk(m.counter, m.pending, m.inserted) && ticket in m.pending
    ensures m.pending[ticket].id !in m.inserted
    ensures TicketsOk(m.counter, m.pending - {ticket}, m.inserted + [m.pending[ticket].id])
  {
    assert forall i | 0 <= i < |m.inserted| :: m.inserted[i] != m.pending[ticket].id;
  }

  lemma StoredWereInserted(m: Machine, id: string)
    requires Inv(m) && id in m.store.jobs
    ensures id in m.inserted
  {
    assert id in m.store.order;
    var i :| 0 <= i < |m.store.order| && m.store.order[i] == id;
    assert m.inserted[|m.inserted| - 1 - i] == id;
  }

  /** The identifier a `Commit` uses has never been used before. */
  lemma CommitIsNew(m: Machine, ticket: nat)
    requires Inv(m) && ticket in m.pending
    ensures m.pending[ticket].id !in m.inserted && m.pending[ticket].id !in m.store.jobs
  {
    TicketSpent(m, ticket);
    if m.pending[ticket].id in m.store.jobs { StoredWereInserted(m, m.pending[ticket].id); }
  }

  lemma CommitKeepsInv(m: Machine, ticket: nat, request: Request)
    requires Inv(m) && ticket in m.pending
    ensures Inv(Next(m, Commit(ticket, request)))
  {
    var job := NewJob(m.pending[ticket].id, request, m.pending[ticket].now);
    CommitIsNew(m, ticket);
    TicketSpent(m, ticket);
    InsertKeepsOk(m.store, job);
    HistoryGrows(m.store, job, m.inserted);
  }

  lemma DrawKeepsTickets(m: Machine, now: int)
    requires TicketsOk(m.counter, m.pending, m.inserted)
    ensures var m' := Next(m, Draw(now)); TicketsOk(m'.counter, m'.pending, m'.inserted)
  {
    TicketOfJobId(now / NANOS_PER_SECOND, m.counter + 1);
  }

  lemma PutKeepsOk(s: Store, id: string, job: Job)
    requires StoreOk(s) && id in s.jobs && job.info.id == id
    ensures StoreOk(s.(jobs := s.jobs[id := job]))
  {
  }

  lemma NextKeepsInv(m: Machine, e: Event)
    requires Inv(m) && Enabled(m, e)
    ensures Inv(Next(m, e))
  {
    match e
    case Commit(ticket, request) => CommitKeepsInv(m, ticket, request);
    case Draw(now) => DrawKeepsTickets(m, now);
    case DoUpdate(id, message, details, now) =>
      if id in m.store.jobs { PutKeepsOk(m.store, id, Updated(m.store.jobs[id], message, details, now)); }
    case DoFinish(id, status, message, details, artifact, now) =>
      if id in m.store.jobs {
        PutKeepsOk(m.store, id, Finished(m.store.jobs[id], status, message, details, artifact, now));
      }
  }

  /** In every run: the table holds exactly the latest MAX_JOBS insertions, in `order` newest
      first without repetition, and every older job was cleaned up once, oldest first. */
  lemma {:induction false} RunsKeepInv(es: seq<Event>)
    requires Replay(es).Some?
    ensures Inv(Replay(es).value)
    ensures var s, inserted := Replay(es).value.store, Replay(es).value.inserted;
            && |s.order| == (if |inserted| < 200 then |inserted| else 200)
            && (forall i | 0 <= i < |s.order| :: s.order[i] == inserted[|inserted| - 1 - i])
            && |s.cleaned| + |s.order| == |inserted|
            && (forall i | 0 <= i < |s.cleaned| :: s.cleaned[i].info.id == inserted[i])
  {
    if es == [] {
    } else {
      RunsKeepInv(es[..|es| - 1]);
      NextKeepsInv(Replay(es[..|es| - 1]).value, es[|es| - 1]);
    }
  }

  lemma EvictedStaysAway(m: Machine, e: Event, id: string)
    requires Inv(m) && Enabled(m, e) && id in m.inserted && id !in m.store.jobs
    ensures id in Next(m, e).inserted && id !in Next(m, e).store.jobs
  {
    if e.Commit? {
      CommitIsNew(m, e.ticket);
      InsertShape(m.store, NewJob(m.pending[e.ticket].id, e.request, m.pending[e.ticket].now));
    }
  }

  /** A job that was evicted never comes back, however the run goes on. */
  lemma {:induction false} EvictedForEver(es: seq<Event>, more: seq<Event>, id: string)
    requires Replay(es).Some? && Replay(es + more).Some?
    requires id in Replay(es).value.inserted && id !in Replay(es).value.store.jobs
    ensures id in Replay(es + more).value.inserted && id !in Replay(es + more).value.store.jobs
  {
    if more == [] {
      assert es + more == es;
    } else {
      var front := more[..|more| - 1];
      assert (es + more)[..|es + more| - 1] == es + front;
      EvictedForEver(es, front, id);
      RunsKeepInv(es + front);
      EvictedStaysAway(Replay(es + front).value, more[|more| - 1], id);
    }
  }

  /** The job an event is about. */
  function Subject(m: Machine, e: Event): Option<string>
    requires Enabled(m, e)
  {
    match e
    case Draw(_) => None
    case Commit(n, _) => Some(m.pending[n].id)
    case DoUpdate(id, _, _, _) => Some(id)
    case DoFinish(id, _, _, _, _, _) => Some(id)
  }

  /** An event about one job leaves every other job exactly as it was, or evicts it. */
  lemma OthersUntouched(m: Machine, e: Event, id: string)
    requires Inv(m) && Enabled(m, e) && Subject(m, e) != Some(id)
    ensures id in Next(m, e).store.jobs ==> id in m.store.jobs && Next(m, e).store.jobs[id] == m.store.jobs[id]
    ensures !e.Commit? && id in m.store.jobs ==> id in Next(m, e).store.jobs
  {
    if e.Commit? {
      CommitIsNew(m, e.ticket);
      InsertShape(m.store, NewJob(m.pending[e.ticket].id, e.request, m.pending[e.ticket].now));
    }
  }

  /** A new job is in the table, running. */
  lemma CommitEnters(m: Machine, ticket: nat, request: Request)
    requires Inv(m) && ticket in m.pending
    ensures var t, s := m.pending[ticket], Next(m, Commit(ticket, request)).store;
            && t.id in s.jobs && s.jobs[t.id] == NewJob(t.id, request, t.now)
            && var job := s.jobs[t.id];
               && job.info.id == t.id && job.info.kind == request.kind && job.info.target == request.target
               && job.info.database == request.database && job.info.message == request.message
               && job.metadata == request.metadata && job.info.status == Running
               && job.info.error == job.info.details == "" && job.finishedAt == None && job.artifact == None
               && job.info.createdAt == job.info.startedAt == job.info.updatedAt == t.now
  {
    CommitIsNew(m, ticket);
    var job := NewJob(m.pending[ticket].id, request, m.pending[ticket].now);
    InsertShape(m.store, job);
    if |m.store.order| == MAX_JOBS { assert m.store.order[MAX_JOBS - 1] in m.store.order; }
  }

  // ---------------------------------------------------------------- listing

  const NewerFirst: (Job, Job) -> bool := (a: Job, b: Job) => a.info.createdAt > b.info.createdAt

  lemma NewerFirstIsWeakOrder()
    ensures Sorting.StrictWeak(NewerFirst)
  {
  }

  /** The limit `List` works with. */
  function Limit(limit: int): nat {
    if limit <= 0 || limit > MAX_JOBS then DEFAULT_LIMIT else limit
  }

  /** The stored jobs of a kind (of any kind for ""), in table order. */
  function Matching(jobs: map<string, Job>, order: seq<string>, kind: string): seq<Job> {
    if order == [] then []
    else
      var rest := Matching(jobs, order[..|order| - 1], kind);
      var id := order[|order| - 1];
      if id in jobs && (kind == "" || jobs[id].info.kind == kind) then rest + [jobs[id]] else rest
  }

  function List(s: Store, kind: string, limit: int): seq<Job> {
    var found := Matching(s.jobs, s.order, kind);
    Sorting.StableSort(found[..Min(|found|, Limit(limit))], NewerFirst)
  }

  lemma {:induction false} MatchingMeaning(jobs: map<string, Job>, order: seq<string>, kind: string, job: Job)
    ensures job in Matching(jobs, order, kind) <==>
            exists id | id in order :: id in jobs && jobs[id] == job && (kind == "" || job.info.kind == kind)
  {
    if order == [] {
    } else {
      var front, last := order[..|order| - 1], order[|order| - 1];
      MatchingMeaning(jobs, front, kind, job);
      assert order == front + [last];
      assert forall id :: id in order <==> id in front || id == last;
    }
  }

  /** The matching jobs are those at certain places of the order, each place once and ascending,
      and these are exactly the places of stored jobs of the kind. */
  lemma {:induction false} MatchingInOrder(jobs: map<string, Job>, order: seq<string>, kind: string)
    returns (at: seq<nat>)
    ensures |at| == |Matching(jobs, order, kind)|
    ensures forall i, j | 0 <= i < j < |at| :: at[i] < at[j]
    ensures forall i | 0 <= i < |at| ::
              at[i] < |order| && order[at[i]] in jobs && Matching(jobs, order, kind)[i] == jobs[order[at[i]]]
    ensures forall p: nat :: p in at <==>
              p < |order| && order[p] in jobs && (kind == "" || jobs[order[p]].info.kind == kind)
  {
    if order == [] {
      at := [];
    } else {
      var front, last := order[..|order| - 1], order[|order| - 1];
      at := MatchingInOrder(jobs, front, kind);
      assert forall i | 0 <= i < |at| :: at[i] in at;
      if last in jobs && (kind == "" || jobs[last].info.kind == kind) {
        at := at + [|front|];
      }
    }
  }

  /** `List` returns the first matching jobs of the table, as many as a limit from 1 to 200 allows
      and at most 50 under any other limit, rearranged newest first; jobs created at the same
      instant keep their table order. */
  lemma ListMeaning(s: Store, kind: string, limit: int, tie: Job)
    ensures var found, r := Matching(s.jobs, s.order, kind), List(s, kind, limit);
            && |r| <= |found|
            && (1 <= limit <= 200 ==> |r| == if |found| < limit then |found| else limit)
            && (limit < 1 || limit > 200 ==> |r| == if |found| < 50 then |found| else 50)
            && multiset(r) == multiset(found[..|r|])
            && (forall i, j | 0 <= i < j < |r| :: r[i].info.createdAt >= r[j].info.createdAt)
            && Sorting.Ties(r, tie, NewerFirst) == Sorting.Ties(found[..|r|], tie, NewerFirst)
  {
    NewerFirstIsWeakOrder();
    var found := Matching(s.jobs, s.order, kind);
    var first := found[..Min(|found|, Limit(limit))];
    Sorting.StableSortSorts(first, NewerFirst);
    Sorting.StableSortIsStable(first, tie, NewerFirst);
    var r := List(s, kind, limit);
    assert found[..|r|] == first;
    forall i, j | 0 <= i < j < |r| ensures r[i].info.createdAt >= r[j].info.createdAt {
      assert !NewerFirst(r[j], r[i]);
    }
  }
}
