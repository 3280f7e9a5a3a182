/** What holds in every run of the backup and restore workers. */
module WalSafety {
  import opened Wrappers
  import J = JobSpec
  import opened RecoveryConf
  import opened WalProtocol

  // ---------------------------------------------------------------- job numbers

  /** A step changes neither the task nor the job of its worker. */
  lemma AdvanceShape(wk: Worker, env: Env)
    ensures var wk' := Advance(wk, env);
            wk'.task == wk.task && wk'.jobId == wk.jobId && Started(wk')
  {
  }

  lemma SpawnIsNew(m: J.Machine, workers: map<nat, Worker>)
    requires Numbered(m.counter, m.pending, m.inserted, workers)
    ensures m.counter + 1 !in workers
  {
  }

  lemma ReportKeepsTickets(m: J.Machine, workers: map<nat, Worker>, call: J.Event)
    requires TicketInv(m, workers) && (call.DoUpdate? || call.DoFinish?)
    ensures TicketInv(J.Next(m, call), workers)
  {
    J.NextKeepsInv(m, call);
  }

  /** Drawing and using numbers leaves the numbers of other workers alone. */
  lemma TicketStays(counter: nat, pending: map<nat, J.Ticket>, inserted: seq<string>, j: nat, wk: Worker,
                    counter': nat, pending': map<nat, J.Ticket>, inserted': seq<string>)
    requires TicketOk(counter, pending, inserted, j, wk)
    requires counter <= counter' && inserted <= inserted'
    requires (j in pending <==> j in pending') && (j in pending ==> pending[j] == pending'[j])
    ensures TicketOk(counter', pending', inserted', j, wk)
  {
  }

  lemma SpawnNumbers(counter: nat, pending: map<nat, J.Ticket>, inserted: seq<string>, workers: map<nat, Worker>,
                     task: Task, t: J.Ticket)
    requires Numbered(counter, pending, inserted, workers) && J.TicketOf(t.id) == Some(counter + 1)
    ensures Numbered(counter + 1, pending[counter + 1 := t], inserted, workers[counter + 1 := NewWorker(task, t.id)])
  {
    forall k | k in workers
      ensures k != counter + 1 && TicketOk(counter + 1, pending[counter + 1 := t], inserted, k, workers[k])
    {
      TicketStays(counter, pending, inserted, k, workers[k], counter + 1, pending[counter + 1 := t], inserted);
    }
  }

  lemma OthersAfterCommit(counter: nat, pending: map<nat, J.Ticket>, inserted: seq<string>, workers: map<nat, Worker>,
                          k: nat, id: string, j: nat)
    requires Numbered(counter, pending, inserted, workers) && j in workers && j != k
    ensures TicketOk(counter, pending - {k}, inserted + [id], j, workers[j])
  {
    TicketStays(counter, pending, inserted, j, workers[j], counter, pending - {k}, inserted + [id]);
  }

  lemma CommitNumbers(counter: nat, pending: map<nat, J.Ticket>, inserted: seq<string>, workers: map<nat, Worker>,
                      k: nat, wk: Worker)
    requires Numbered(counter, pending, inserted, workers) && k in workers && k in pending
    requires Started(wk) && wk.jobId == workers[k].jobId
    ensures Numbered(counter, pending - {k}, inserted + [wk.jobId], workers[k := wk])
  {
    CommittedTicket(counter, pending, inserted, k, workers[k], wk);
    forall j | j in workers && j != k ensures TicketOk(counter, pending - {k}, inserted + [wk.jobId], j, workers[j]) {
      OthersAfterCommit(counter, pending, inserted, workers, k, wk.jobId, j);
    }
  }

  lemma CommittedTicket(counter: nat, pending: map<nat, J.Ticket>, inserted: seq<string>, k: nat, before: Worker,
                        wk: Worker)
    requires TicketOk(counter, pending, inserted, k, before) && k in pending
    requires Started(wk) && wk.jobId == before.jobId
    ensures before.jobId == pending[k].id
    ensures TicketOk(counter, pending - {k}, inserted + [wk.jobId], k, wk)
  {
  }

  lemma CommitKeepsTickets(m: J.Machine, workers: map<nat, Worker>, k: nat, wk: Worker, r: J.Request)
    requires TicketInv(m, workers) && k in workers && k in m.pending
    requires Started(wk) && wk.jobId == workers[k].jobId
    ensures TicketInv(J.Next(m, J.Commit(k, r)), workers[k := wk])
  {
    J.NextKeepsInv(m, J.Commit(k, r));
    assert TicketOk(m.counter, m.pending, m.inserted, k, workers[k]);
    CommitNumbers(m.counter, m.pending, m.inserted, workers, k, wk);
  }

  /** Moving on a started worker keeps the correspondence. */
  lemma PutKeepsTickets(m: J.Machine, workers: map<nat, Worker>, k: nat, wk: Worker)
    requires TicketInv(m, workers) && k in workers
    requires Started(workers[k]) && Started(wk) && wk.jobId == workers[k].jobId
    ensures TicketInv(m, workers[k := wk])
  {
    assert TicketOk(m.counter, m.pending, m.inserted, k, workers[k]);
  }

  lemma StepKeepsTickets(w: World, k: nat, env: Env)
    requires TicketInv(w.machine, w.workers) && CanStep(w, k, env)
    ensures TicketInv(StepWorker(w, k, env).machine, StepWorker(w, k, env).workers)
  {
    var wk, wk' := w.workers[k], Advance(w.workers[k], env);
    AdvanceShape(wk, env);
    var call := TableCall(k, wk, env);
    if wk.phase.Starting? {
      CommitKeepsTickets(w.machine, w.workers, k, wk', RequestOf(wk.task));
    } else {
      PutKeepsTickets(w.machine, w.workers, k, wk');
      if call.Some? {
        ReportKeepsTickets(w.machine, w.workers[k := wk'], call.value);
      }
    }
  }

  lemma SpawnKeepsTickets(m: J.Machine, workers: map<nat, Worker>, task: Task, now: int)
    requires TicketInv(m, workers)
    ensures TicketInv(J.Next(m, J.Draw(now)),
                      workers[m.counter + 1 := NewWorker(task, J.NewTicket(m.counter + 1, now).id)])
  {
    var k := m.counter + 1;
    J.NextKeepsInv(m, J.Draw(now));
    J.TicketOfJobId(now / J.NANOS_PER_SECOND, k);
    SpawnNumbers(m.counter, m.pending, m.inserted, workers, task, J.NewTicket(k, now));
  }

  lemma NextKeepsTickets(w: World, e: Event)
    requires TicketInv(w.machine, w.workers) && Enabled(w, e)
    ensures TicketInv(Next(w, e).machine, Next(w, e).workers)
  {
    match e
    case Spawn(task, now) => SpawnKeepsTickets(w.machine, w.workers, task, now);
    case Step(k, env) => StepKeepsTickets(w, k, env);
    case Call(k, call) => ReportKeepsTickets(w.machine, w.workers, call);
    case Crash =>
    case Drift(_) =>
  }

  // ---------------------------------------------------------------- the mutex

  /** A step enters the section only by taking the mutex and leaves it only by the unlock. */
  lemma AdvanceSection(wk: Worker, env: Env)
    requires !wk.phase.Done?
    ensures InSection(Advance(wk, env)) <==>
            (wk.phase.Waiting? && UsesMutex(wk.task)) || (InSection(wk) && !wk.phase.Releasing?)
  {
  }

  lemma AdvancePc(wk: Worker, env: Env)
    requires PcOk(wk)
    ensures PcOk(Advance(wk, env))
    ensures wk.phase.Waiting? ==> Advance(wk, env).pc == 0
  {
  }

  lemma StepKeepsMutex(w: World, k: nat, env: Env)
    requires MutexInv(w.workers, w.holder) && CanStep(w, k, env) && PcOk(w.workers[k])
    ensures MutexInv(StepWorker(w, k, env).workers, StepWorker(w, k, env).holder)
  {
    AdvanceShape(w.workers[k], env);
    AdvanceSection(w.workers[k], env);
  }

  lemma StepKeepsPc(w: World, k: nat, env: Env)
    requires PcInv(w.workers) && CanStep(w, k, env)
    ensures PcInv(StepWorker(w, k, env).workers)
  {
    AdvancePc(w.workers[k], env);
  }

  // ---------------------------------------------------------------- the cluster during a restore

  /** The directory holds this backup, with the configuration it was fetched with. */
  predicate FetchedAs(dir: Dir, name: string) {
    dir.source.Fetched? && dir.source.name == name && dir.conf == dir.source.conf
  }

  /** The directory is ready for recovery: this backup, the signal, and a configuration that is
      the fetched one with the lines for this target behind it. */
  predicate Configured(dir: Dir, name: string, target: string) {
    && dir.source.Fetched? && dir.source.name == name && dir.signal
    && dir.conf == dir.source.conf + RecoveryLines(target)
  }

  /** What a restore standing at operation pc may rely on. */
  predicate RestoreReady(pg: Pg, dir: Dir, name: string, target: string, pc: nat) {
    && (3 <= pc <= 12 ==> pg == Down)
    && (5 <= pc <= 6 ==> dir == Dir(Empty, false, ""))
    && (7 <= pc <= 10 ==> FetchedAs(dir, name))
    && (9 <= pc <= 10 ==> dir.signal)
    && (11 <= pc <= 12 ==> Configured(dir, name, target))
  }

  predicate Restoring(wk: Worker) {
    wk.task.Restore? && wk.phase.Running?
  }

  predicate ReadyAt(pg: Pg, dir: Dir, wk: Worker) {
    Restoring(wk) ==> RestoreReady(pg, dir, wk.task.name, wk.task.target, wk.pc)
  }

  ghost predicate ClusterInv(workers: map<nat, Worker>, pg: Pg, dir: Dir) {
    forall k | k in workers :: ReadyAt(pg, dir, workers[k])
  }

  /** The commands of a restore, by position. */
  lemma RestoreProgram(wk: Worker)
    requires Restoring(wk)
    ensures |Program(wk.task)| == 13
    ensures Executing(wk) ==
            match wk.pc
            case 0 => Some(CheckDataDir)
            case 2 => Some(StopPg)
            case 4 => Some(CleanDir)
            case 6 => Some(FetchBackup)
            case 8 => Some(WriteSignal)
            case 9 => Some(OpenConf)
            case 10 => Some(WriteConf)
            case 12 => Some(StartPg)
            case _ => None
  {
  }

  lemma RestoreMovesOn(wk: Worker, env: Env)
    requires Restoring(wk) && Restoring(Advance(wk, env))
    ensures Advance(wk, env).pc == wk.pc + 1
    ensures Executing(wk).Some? ==> env.outcome == Good
  {
    RestoreProgram(wk);
  }

  /** One operation of a restore takes what it may rely on to what the next one may rely on. */
  lemma RestoreStep(pg: Pg, dir: Dir, wk: Worker, env: Env)
    requires Restoring(wk) && ReadyAt(pg, dir, wk)
    ensures ReadyAt(PgAfter(pg, Executing(wk), env), DirAfter(dir, wk.task, Executing(wk), env), Advance(wk, env))
  {
    RestoreProgram(wk);
    AdvanceShape(wk, env);
    if Restoring(Advance(wk, env)) {
      RestoreMovesOn(wk, env);
    }
  }

  predicate TouchesCluster(cmd: Command) {
    || cmd.StopPg? || cmd.CleanDir? || cmd.FetchBackup? || cmd.WriteSignal? || cmd.OpenConf? || cmd.WriteConf?
    || cmd.StartPg?
  }

  /** A worker that is not restoring runs no command that touches the cluster. */
  lemma NoClusterCommand(wk: Worker)
    requires !Restoring(wk)
    ensures Executing(wk).Some? ==> !TouchesCluster(Executing(wk).value)
  {
  }

  lemma NewRestoreIsAtStart(wk: Worker, env: Env)
    requires PcOk(wk) && !Restoring(wk)
    ensures Restoring(Advance(wk, env)) ==> Advance(wk, env).pc == 0
  {
  }

  lemma StepKeepsCluster(w: World, k: nat, env: Env)
    requires MutexInv(w.workers, w.holder) && PcInv(w.workers) && ClusterInv(w.workers, w.pg, w.dir)
    requires CanStep(w, k, env)
    ensures var w' := StepWorker(w, k, env); ClusterInv(w'.workers, w'.pg, w'.dir)
  {
    var wk := w.workers[k];
    assert ReadyAt(w.pg, w.dir, wk) && PcOk(wk);
    if Restoring(wk) {
      assert InSection(wk);
      RestoreStep(w.pg, w.dir, wk, env);
      forall j | j in w.workers && j != k ensures !Restoring(w.workers[j]) {
        if Restoring(w.workers[j]) { assert InSection(w.workers[j]); }
      }
    } else {
      NoClusterCommand(wk);
      NewRestoreIsAtStart(wk, env);
    }
  }

  // ---------------------------------------------------------------- all events

  ghost predicate Safe(w: World) {
    && TicketInv(w.machine, w.workers)
    && MutexInv(w.workers, w.holder)
    && PcInv(w.workers)
    && ClusterInv(w.workers, w.pg, w.dir)
  }

  lemma SpawnKeepsRest(workers: map<nat, Worker>, holder: Option<nat>, pg: Pg, dir: Dir, k: nat, task: Task, id: string)
    requires k !in workers && TaskOk(task) && MutexInv(workers, holder) && PcInv(workers)
             && ClusterInv(workers, pg, dir)
    ensures var workers' := workers[k := NewWorker(task, id)];
            MutexInv(workers', holder) && PcInv(workers') && ClusterInv(workers', pg, dir)
  {
  }

  lemma DriftKeepsCluster(w: World, dir: Dir)
    requires ClusterInv(w.workers, w.pg, w.dir) && w.pg == Up
    ensures ClusterInv(w.workers, w.pg, dir)
  {
    forall k | k in w.workers ensures ReadyAt(w.pg, dir, w.workers[k]) {
      assert ReadyAt(w.pg, w.dir, w.workers[k]);
    }
  }

  lemma CrashKeepsCluster(w: World)
    requires ClusterInv(w.workers, w.pg, w.dir)
    ensures ClusterInv(w.workers, Down, w.dir)
  {
    forall k | k in w.workers ensures ReadyAt(Down, w.dir, w.workers[k]) {
      assert ReadyAt(w.pg, w.dir, w.workers[k]);
    }
  }

  lemma NextKeepsSafe(w: World, e: Event)
    requires Safe(w) && Enabled(w, e)
    ensures Safe(Next(w, e))
  {
    NextKeepsTickets(w, e);
    match e
    case Spawn(task, now) =>
      SpawnIsNew(w.machine, w.workers);
      var k := w.machine.counter + 1;
      SpawnKeepsRest(w.workers, w.holder, w.pg, w.dir, k, task, J.NewTicket(k, now).id);
    case Step(k, env) =>
      StepKeepsMutex(w, k, env);
      StepKeepsPc(w, k, env);
      StepKeepsCluster(w, k, env);
    case Call(k, call) =>
    case Crash => CrashKeepsCluster(w);
    case Drift(dir) => DriftKeepsCluster(w, dir);
  }

  lemma {:induction false} RunIsSafe(blankDir: bool, pg: Pg, dir: Dir, es: seq<Event>)
    requires Run(Initial(blankDir, pg, dir), es).Some?
    ensures Safe(Run(Initial(blankDir, pg, dir), es).value)
  {
    if es == [] {
    } else {
      RunIsSafe(blankDir, pg, dir, es[..|es| - 1]);
      NextKeepsSafe(Run(Initial(blankDir, pg, dir), es[..|es| - 1]).value, es[|es| - 1]);
    }
  }

  lemma RunMore(w: World, es: seq<Event>, e: Event)
    requires Run(w, es).Some? && Enabled(Run(w, es).value, e)
    ensures Run(w, es + [e]) == Some(Next(Run(w, es).value, e))
  {
    assert (es + [e])[..|es + [e]| - 1] == es;
  }

  lemma {:induction false} RunAppend(w: World, a: seq<Event>, b: seq<Event>)
    requires Run(w, a).Some?
    ensures Run(w, a + b) == Run(Run(w, a).value, b)
  {
    if b == [] {
      assert a + b == a;
    } else {
      RunAppend(w, a, b[..|b| - 1]);
      assert (a + b)[..|a + b| - 1] == a + b[..|b| - 1];
    }
  }

  /** Whatever keeps happening, a safe world stays safe. */
  lemma {:induction false} StaysSafe(w: World, es: seq<Event>)
    requires Safe(w) && Run(w, es).Some?
    ensures Safe(Run(w, es).value)
  {
    if es == [] {
    } else {
      StaysSafe(w, es[..|es| - 1]);
      NextKeepsSafe(Run(w, es[..|es| - 1]).value, es[|es| - 1]);
    }
  }

  // ---------------------------------------------------------------- what it means

  /** Mutual exclusion. */
  lemma OneInSection(w: World, j: nat, k: nat)
    requires Safe(w) && j in w.workers && k in w.workers
    requires InSection(w.workers[j]) && InSection(w.workers[k])
    ensures j == k && w.holder == Some(k)
  {
  }

  /** In every run no two workers are between taking and releasing the mutex. */
  lemma NeverTwoInSection(blankDir: bool, pg: Pg, dir: Dir, es: seq<Event>, j: nat, k: nat)
    requires Run(Initial(blankDir, pg, dir), es).Some?
    ensures var w := Run(Initial(blankDir, pg, dir), es).value;
            j in w.workers && k in w.workers && InSection(w.workers[j]) && InSection(w.workers[k])
            ==> j == k && w.holder == Some(k)
  {
    RunIsSafe(blankDir, pg, dir, es);
  }

  /** While one worker pushes a backup, no worker stops or starts PostgreSQL or writes to its
      data directory, and no second push runs. */
  lemma NothingOverlapsPush(w: World, j: nat, k: nat)
    requires Safe(w) && j in w.workers && k in w.workers && j != k
    requires Executing(w.workers[j]) == Some(Push) && Executing(w.workers[k]).Some?
    ensures !TouchesCluster(Executing(w.workers[k]).value) && Executing(w.workers[k]) != Some(Push)
  {
    PushIsBackup(w.workers[j]);
    if TouchesCluster(Executing(w.workers[k]).value) {
      if !Restoring(w.workers[k]) { NoClusterCommand(w.workers[k]); }
      OneInSection(w, j, k);
    } else if Executing(w.workers[k]) == Some(Push) {
      PushIsBackup(w.workers[k]);
      OneInSection(w, j, k);
    }
  }

  lemma PushIsBackup(wk: Worker)
    requires Executing(wk) == Some(Push)
    ensures InSection(wk)
  {
  }

  /** The commands that write to the data directory. */
  predicate WritesDir(cmd: Command) {
    cmd.CleanDir? || cmd.FetchBackup? || cmd.WriteSignal? || cmd.OpenConf? || cmd.WriteConf?
  }

  /** The data directory is written only by the holder of the mutex, with PostgreSQL stopped. */
  lemma WritesOnlyWhenStopped(w: World, k: nat)
    requires Safe(w) && k in w.workers
    requires Executing(w.workers[k]).Some? && WritesDir(Executing(w.workers[k]).value)
    ensures w.pg == Down && w.holder == Some(k)
  {
    var wk := w.workers[k];
    if !Restoring(wk) { NoClusterCommand(wk); }
    RestoreProgram(wk);
    assert ReadyAt(w.pg, w.dir, wk) && InSection(wk);
  }

  /** PostgreSQL is started only on a directory that holds the requested backup and the recovery
      signal, with a configuration that is the fetched one and the lines of this request. */
  lemma StartsOnlyWhenReady(w: World, k: nat)
    requires Safe(w) && k in w.workers && Executing(w.workers[k]) == Some(StartPg)
    ensures var t := w.workers[k].task;
            t.Restore? && TaskOk(t) && w.pg == Down && w.holder == Some(k) && Configured(w.dir, t.name, t.target)
  {
    var wk := w.workers[k];
    if !Restoring(wk) { NoClusterCommand(wk); }
    RestoreProgram(wk);
    assert ReadyAt(w.pg, w.dir, wk) && InSection(wk) && PcOk(wk);
  }

  /** The settings in force then: the command to fetch segments is this request's, target time
      and action are if a target was given, and everything else is what the backup brought. */
  lemma StartsWithSettings(w: World, k: nat, name: string)
    requires Safe(w) && k in w.workers && Executing(w.workers[k]) == Some(StartPg)
    ensures var t, fetched := w.workers[k].task, w.dir.source;
            && t.Restore? && fetched.Fetched?
            && InForce(w.dir.conf, name) ==
               (if name == RESTORE_COMMAND then Some(FETCH)
                else if name == TARGET_TIME && t.target != "" then Some(t.target)
                else if name == TARGET_ACTION && t.target != "" then Some(PROMOTE)
                else InForce(fetched.conf, name))
            && (TimeInForce(w.dir.conf) == t.target <==> t.target != "" || TimeInForce(fetched.conf) == "")
  {
    StartsOnlyWhenReady(w, k);
    var t := w.workers[k].task;
    SettingsAfterAppend(w.dir.source.conf, t.target, name);
    RequestedTimeExactly(w.dir.source.conf, t.target);
  }
}
