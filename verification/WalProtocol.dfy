/** The background workers of `service/walg.go`: any number of backups, restores and
    verifications run at once over one mutex, one PostgreSQL process, one data directory and
    one job table. A state of the world holds, for every worker, the operation it is engaged
    in; each event lets one worker take one step. A command is in progress for as long as its
    worker stands at it, and whether it succeeds is decided when the step is taken. */
module WalProtocol {
  import opened Wrappers
  import J = JobSpec
  import opened RecoveryConf

  // ---------------------------------------------------------------- programs

  /** `Other` stands for the jobs of other parts of the program (vacuum, export, repack),
      which use the table but neither the mutex nor the cluster commands below. */
  datatype Task =
    | Backup(full: bool)
    | Restore(name: string, target: string)
    | Verify(name: string)
    | Other

  datatype Command =
    // backup
    | ListBackups | Push | Prune
    // restore
    | CheckDataDir | StopPg | CleanDir | FetchBackup | WriteSignal | OpenConf | WriteConf | StartPg
    // verification, in a scratch directory
    | MakeScratch | MakeRestoreDir | FetchScratch | ReadVersion | StatControl | ReadBase
    | CreateReport | WriteReport | CloseReport | StatReport

  /** A worker reports progress on its job, or runs a command. */
  datatype Op = Say | Do(cmd: Command)

  function Program(t: Task): seq<Op> {
    match t
    case Backup(full) => (if full then [] else [Do(ListBackups)]) + [Say, Do(Push), Do(Prune)]
    case Restore(_, _) =>
      [Do(CheckDataDir), Say, Do(StopPg), Say, Do(CleanDir), Say, Do(FetchBackup), Say,
       Do(WriteSignal), Do(OpenConf), Do(WriteConf), Say, Do(StartPg)]
    case Verify(_) =>
      [Do(MakeScratch), Do(MakeRestoreDir), Say, Do(FetchScratch), Do(ReadVersion), Do(StatControl), Do(ReadBase),
       Do(CreateReport), Do(WriteReport), Do(CloseReport), Do(StatReport)]
    case Other => []
  }

  function Kind(full: bool): string {
    if full then "full" else "incremental"
  }

  /** The progress message at a `Say`. */
  function Progress(t: Task, pc: nat): string {
    match t
    case Backup(full) => "running WAL-G " + Kind(full) + " backup"
    case Restore(_, _) =>
      if pc == 1 then "stopping PostgreSQL"
      else if pc == 3 then "cleaning data directory"
      else if pc == 5 then "fetching backup from storage"
      else if pc == 7 then "writing recovery configuration"
      else "starting PostgreSQL"
    case Verify(_) => "fetching backup into scratch directory"
    case Other => ""
  }

  /** The message with which the job fails when the command does. */
  function FailureMessage(cmd: Command): string {
    match cmd
    case ListBackups => "incremental backup could not inspect base backup"
    case Push => "backup failed"
    case CheckDataDir => "restore aborted"
    case StopPg => "restore failed while stopping PostgreSQL"
    case CleanDir => "restore failed while cleaning data directory"
    case FetchBackup => "restore failed while fetching backup"
    case WriteSignal => "restore failed while writing recovery.signal"
    case OpenConf => "restore failed while opening postgresql.auto.conf"
    case WriteConf => "restore failed while writing recovery configuration"
    case StartPg => "restore failed while starting PostgreSQL"
    case FetchScratch => "verification failed while fetching backup"
    case _ => "verification failed"
  }

  /** The details of the failure: fixed ones, or what the command printed. */
  function FailureDetails(cmd: Command, printed: string): string {
    match cmd
    case CheckDataDir => "data directory is not configured"
    case ReadVersion => "missing PG_VERSION in fetched backup"
    case StatControl => "missing global/pg_control in fetched backup"
    case ReadBase => "missing base directory in fetched backup"
    case _ => printed
  }

  function RequestOf(t: Task): J.Request {
    match t
    case Backup(full) =>
      J.Request("backup", "wal-g backup-push", "", Kind(full) + " backup queued", map["kind" := Kind(full)])
    case Restore(name, target) =>
      J.Request("restore", if target == "" then name else name + " (PITR → " + target + ")", "", "restore queued",
                map["backupName" := name])
    case Verify(name) =>
      J.Request("backup_verify", name, "", "verification queued", map["backupName" := name])
    case Other => J.Request("other", "", "", "queued", map[])
  }

  /** Only backups and restores take the mutex. */
  predicate UsesMutex(t: Task) {
    t.Backup? || t.Restore?
  }

  /** What is checked before a worker is started: a restore names its backup, and its target
      time is a timestamp, which needs no escaping between quotes. */
  predicate TaskOk(t: Task) {
    t.Restore? ==> t.name != "" && PlainText(t.target)
  }

  // ---------------------------------------------------------------- the world

  datatype Phase =
    | Starting        // the job has a number but is not in the table yet
    | Waiting         // queued for the mutex
    | Running         // at operation pc of the program, or past its end
    | Failing(cmd: Command, printed: string)
    | Cancelling
    | Releasing       // the job is finished, the deferred unlock is not done
    | Done

  /** `finishes` counts the calls that finished this worker's job. */
  datatype Worker = Worker(task: Task, jobId: string, phase: Phase, pc: nat, note: string, finishes: nat)

  datatype Pg = Up | Down

  /** Where the contents of the data directory come from; a fetched backup brings the text of its
      `postgresql.auto.conf` with it. */
  datatype Source = Unknown | Empty | Fetched(name: string, conf: string)

  /** `conf` is the text of `postgresql.auto.conf`. */
  datatype Dir = Dir(source: Source, signal: bool, conf: string)

  datatype Outcome = Good | Bad | Nothing

  /** A command that has ended. */
  datatype Act = Act(worker: nat, cmd: Command, outcome: Outcome)

  /** Workers are numbered by the sequence number of their job. `log` has the commands of backups
      and restores, `scratch` those of verifications, both in the order in which they ended. */
  datatype World = World(
    machine: J.Machine, workers: map<nat, Worker>, holder: Option<nat>,
    pg: Pg, dir: Dir, blankDir: bool, log: seq<Act>, scratch: seq<Act>)

  /** What the surroundings contribute to a step; `pg` and `dir` are what a failed command leaves,
      and the files of `dir` are what a successful fetch brings. */
  datatype Env = Env(outcome: Outcome, details: string, note: string, pg: Pg, dir: Dir,
                     artifact: J.Artifact, now: int)

  datatype Event =
    | Spawn(task: Task, now: int)
    | Step(worker: nat, env: Env)
    | Call(worker: nat, call: J.Event)   // another part of the program reports on its own job
    | Crash                              // PostgreSQL stops by itself
    | Drift(dir: Dir)                    // a running PostgreSQL writes to its directory

  function Initial(blankDir: bool, pg: Pg, dir: Dir): World {
    World(J.INITIAL, map[], None, pg, dir, blankDir, [], [])
  }

  /** The operation a running worker stands at; None past the end of its program. */
  function OpAt(wk: Worker): Option<Op> {
    if wk.phase.Running? && wk.pc < |Program(wk.task)| then Some(Program(wk.task)[wk.pc]) else None
  }

  /** The command that is in progress for this worker. */
  function Executing(wk: Worker): Option<Command> {
    var op := OpAt(wk);
    if op.Some? && op.value.Do? then Some(op.value.cmd) else None
  }

  /** A command can come back empty-handed only where the code tells that case apart, and a
      blank data directory is the only reason for the guard to refuse. */
  predicate Possible(blankDir: bool, cmd: Command, outcome: Outcome) {
    && (outcome == Nothing ==> cmd == ListBackups || cmd == Prune)
    && (cmd == CheckDataDir ==> (outcome == Good <==> !blankDir))
  }

  predicate CanStep(w: World, k: nat, env: Env) {
    && k in w.workers
    && var wk := w.workers[k];
       match wk.phase
       case Starting => k in w.machine.pending
       case Waiting => w.holder.None?
       case Running =>
         && wk.task != Other
         && (Executing(wk).Some? ==> Possible(w.blankDir, Executing(wk).value, env.outcome))
       case Done => false
       case _ => true
  }

  predicate Enabled(w: World, e: Event) {
    match e
    case Spawn(task, _) => TaskOk(task)
    case Step(k, env) => CanStep(w, k, env)
    case Call(k, call) =>
      && k in w.workers && w.workers[k].task == Other && w.workers[k].phase.Running?
      && ((call.DoUpdate? && call.id == w.workers[k].jobId) || (call.DoFinish? && call.id == w.workers[k].jobId))
    case Crash => true
    case Drift(_) => w.pg == Up
  }

  // ---------------------------------------------------------------- steps

  /** What a command does to PostgreSQL and to the data directory. */
  function PgAfter(pg: Pg, cmd: Option<Command>, env: Env): Pg {
    match cmd
    case Some(StopPg) => if env.outcome == Good then Down else env.pg
    case Some(StartPg) => if env.outcome == Good then Up else env.pg
    case _ => pg
  }

  function DirAfter(dir: Dir, t: Task, cmd: Option<Command>, env: Env): Dir {
    match cmd
    case Some(CleanDir) => if env.outcome == Good then Dir(Empty, false, "") else env.dir
    case Some(FetchBackup) =>
      if env.outcome == Good && t.Restore? then env.dir.(source := Fetched(t.name, env.dir.conf)) else env.dir
    case Some(WriteSignal) => if env.outcome == Good then dir.(signal := true) else env.dir
    case Some(OpenConf) => if env.outcome == Good then dir else env.dir
    case Some(WriteConf) =>
      if env.outcome == Good && t.Restore? then dir.(conf := dir.conf + RecoveryLines(t.target)) else env.dir
    case _ => dir
  }

  /** A failed prune does not fail the backup, it is only mentioned. */
  function AfterCommand(wk: Worker, cmd: Command, env: Env): Worker {
    if cmd == Prune then wk.(pc := wk.pc + 1, note := if env.outcome == Nothing then "" else env.note)
    else if env.outcome == Good then wk.(pc := wk.pc + 1)
    else if env.outcome == Nothing then wk.(phase := Cancelling)
    else wk.(phase := Failing(cmd, env.details))
  }

  /** The next step of this worker is the call that finishes its job. */
  predicate AboutToFinish(wk: Worker) {
    wk.phase.Failing? || wk.phase.Cancelling? || (wk.phase.Running? && wk.pc >= |Program(wk.task)|)
  }

  /** Where a step takes the worker that takes it. */
  function Advance(wk: Worker, env: Env): Worker {
    if AboutToFinish(wk) then wk.(phase := Releasing, finishes := wk.finishes + 1)
    else
      match wk.phase
      case Starting => wk.(phase := if UsesMutex(wk.task) then Waiting else Running)
      case Waiting => wk.(phase := Running)
      case Running =>
        (match Program(wk.task)[wk.pc]
         case Say => wk.(pc := wk.pc + 1)
         case Do(cmd) => AfterCommand(wk, cmd, env))
      case _ => wk.(phase := Done)
  }

  function SuccessMessage(wk: Worker): string {
    match wk.task
    case Backup(full) =>
      Kind(full) + " backup completed successfully" + if wk.note == "" then "" else "; " + wk.note
    case Restore(_, _) => "restore completed and PostgreSQL is starting"
    case Verify(_) => "backup verification completed"
    case Other => ""
  }

  /** The last call of a worker on its job. */
  function FinishCall(wk: Worker, env: Env): J.Event {
    match wk.phase
    case Failing(cmd, printed) =>
      J.DoFinish(wk.jobId, J.Failed, FailureMessage(cmd), FailureDetails(cmd, printed), None, env.now)
    case Cancelling =>
      J.DoFinish(wk.jobId, J.Canceled, "incremental backup skipped: no full base backup yet", "", None, env.now)
    case _ =>
      J.DoFinish(wk.jobId, J.Succeeded, SuccessMessage(wk), "",
                 if wk.task.Verify? then Some(env.artifact) else None, env.now)
  }

  /** The call on the job table that a step makes, if any. */
  function TableCall(k: nat, wk: Worker, env: Env): Option<J.Event> {
    if AboutToFinish(wk) then Some(FinishCall(wk, env))
    else if wk.phase.Starting? then Some(J.Commit(k, RequestOf(wk.task)))
    else
      match OpAt(wk)
      case Some(Say) => Some(J.DoUpdate(wk.jobId, Progress(wk.task, wk.pc), "", env.now))
      case _ => None
  }

  function HolderAfter(holder: Option<nat>, k: nat, wk: Worker): Option<nat> {
    if wk.phase.Waiting? then Some(k)
    else if wk.phase.Releasing? && UsesMutex(wk.task) then None
    else holder
  }

  function LogAfter(log: seq<Act>, k: nat, wk: Worker, env: Env): seq<Act> {
    if Executing(wk).Some? && UsesMutex(wk.task) then log + [Act(k, Executing(wk).value, env.outcome)] else log
  }

  function ScratchAfter(scratch: seq<Act>, k: nat, wk: Worker, env: Env): seq<Act> {
    if Executing(wk).Some? && !UsesMutex(wk.task)
    then scratch + [Act(k, Executing(wk).value, env.outcome)] else scratch
  }

  function StepWorker(w: World, k: nat, env: Env): World
    requires CanStep(w, k, env)
  {
    var wk := w.workers[k];
    var call := TableCall(k, wk, env);
    World(if call.Some? then J.Next(w.machine, call.value) else w.machine,
          w.workers[k := Advance(wk, env)],
          HolderAfter(w.holder, k, wk),
          PgAfter(w.pg, Executing(wk), env),
          DirAfter(w.dir, wk.task, Executing(wk), env),
          w.blankDir,
          LogAfter(w.log, k, wk, env),
          ScratchAfter(w.scratch, k, wk, env))
  }

  function NewWorker(task: Task, jobId: string): Worker {
    Worker(task, jobId, Starting, 0, "", 0)
  }

  function Next(w: World, e: Event): World
    requires Enabled(w, e)
  {
    match e
    case Spawn(task, now) =>
      var k := w.machine.counter + 1;
      w.(workers := w.workers[k := NewWorker(task, J.NewTicket(k, now).id)], machine := J.Next(w.machine, J.Draw(now)))
    case Step(k, env) => StepWorker(w, k, env)
    case Call(k, call) => w.(machine := J.Next(w.machine, call))
    case Crash => w.(pg := Down)
    case Drift(dir) => w.(dir := dir)
  }

  /** The world after a run, or None when an event was not possible. */
  function Run(start: World, es: seq<Event>): Option<World> {
    if es == [] then Some(start)
    else
      var before := Run(start, es[..|es| - 1]);
      if before.None? || !Enabled(before.value, es[|es| - 1]) then None
      else Some(Next(before.value, es[|es| - 1]))
  }

  // ---------------------------------------------------------------- tickets

  predicate Started(wk: Worker) {
    !wk.phase.Starting?
  }

  /** Workers, job numbers and job identifiers correspond. */
  ghost predicate TicketInv(m: J.Machine, workers: map<nat, Worker>) {
    J.Inv(m) && Numbered(m.counter, m.pending, m.inserted, workers)
  }

  ghost predicate Numbered(counter: nat, pending: map<nat, J.Ticket>, inserted: seq<string>,
                           workers: map<nat, Worker>) {
    && (forall k | k in workers :: TicketOk(counter, pending, inserted, k, workers[k]))
    && (forall k | k in pending :: k in workers)
  }

  ghost predicate TicketOk(counter: nat, pending: map<nat, J.Ticket>, inserted: seq<string>, k: nat, wk: Worker) {
    && k <= counter
    && J.TicketOf(wk.jobId) == Some(k)
    && (Started(wk) <==> k !in pending)
    && (if Started(wk) then wk.jobId in inserted else wk.jobId == pending[k].id)
  }

  // ---------------------------------------------------------------- the mutex

  /** Between Lock and the deferred Unlock. */
  predicate InSection(wk: Worker) {
    UsesMutex(wk.task) && !wk.phase.Starting? && !wk.phase.Waiting? && !wk.phase.Done?
  }

  ghost predicate MutexInv(workers: map<nat, Worker>, holder: Option<nat>) {
    && (forall k | k in workers && InSection(workers[k]) :: holder == Some(k))
    && (holder.Some? ==> holder.value in workers && InSection(workers[holder.value]))
  }

  /** Nobody stands beyond the end of a program, and nobody has begun before its turn. */
  ghost predicate PcInv(workers: map<nat, Worker>) {
    forall k | k in workers :: PcOk(workers[k])
  }

  predicate PcOk(wk: Worker) {
    && wk.pc <= |Program(wk.task)| && TaskOk(wk.task)
    && (wk.phase.Starting? || wk.phase.Waiting? ==> wk.pc == 0)
    && (wk.phase.Waiting? ==> UsesMutex(wk.task))
  }
}
