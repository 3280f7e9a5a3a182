/** Which commands a worker has run, in which order and with which outcomes, is what its job says:
    while it runs, by the message, and when it is finished, by status, error and artifact. */
module WalReports {
  import opened Wrappers
  import J = JobSpec
  import opened WalProtocol
  import opened WalSafety
  import opened WalJobs
  import opened WalTrace

  // ---------------------------------------------------------------- the commands of one worker

  function ActsOf(log: seq<Act>, k: nat): seq<Act> {
    if log == [] then []
    else ActsOf(log[..|log| - 1], k) + if log[|log| - 1].worker == k then [log[|log| - 1]] else []
  }

  lemma ActsOfAppend(log: seq<Act>, a: Act, k: nat)
    ensures ActsOf(log + [a], k) == ActsOf(log, k) + if a.worker == k then [a] else []
  {
    assert (log + [a])[..|log + [a]| - 1] == log;
  }

  lemma {:induction false} NoActs(log: seq<Act>, k: nat)
    requires forall i | 0 <= i < |log| :: log[i].worker != k
    ensures ActsOf(log, k) == []
  {
    if log == [] {
    } else {
      NoActs(log[..|log| - 1], k);
    }
  }

  /** The commands that worker k has ended. */
  function Acts(log: seq<Act>, scratch: seq<Act>, k: nat, t: Task): seq<Act> {
    ActsOf(if UsesMutex(t) then log else scratch, k)
  }

  /** All of these commands, in this order, each such that the worker went on. */
  ghost predicate Ran(acts: seq<Act>, k: nat, cmds: seq<Command>) {
    |acts| == |cmds| && forall i | 0 <= i < |acts| :: acts[i].worker == k && acts[i].cmd == cmds[i] && Passed(acts[i])
  }

  /** The first of these commands, and the last of them came out so that the worker stopped. */
  ghost predicate Stopped(acts: seq<Act>, k: nat, cmds: seq<Command>, outcome: Outcome) {
    && 0 < |acts| <= |cmds| && outcome != Good
    && Ran(acts[..|acts| - 1], k, cmds[..|acts| - 1])
    && acts[|acts| - 1] == Act(k, cmds[|acts| - 1], outcome) && cmds[|acts| - 1] != Prune
    && (outcome == Nothing ==> cmds[|acts| - 1] == ListBackups)
  }

  /** Where a worker stands tells which commands it has run. */
  ghost predicate StandActs(acts: seq<Act>, k: nat, wk: Worker) {
    match wk.phase
    case Starting => acts == []
    case Waiting => acts == []
    case Running => wk.pc <= |Program(wk.task)| && Ran(acts, k, Cmds(Program(wk.task)[..wk.pc]))
    case Failing(cmd, _) => Stopped(acts, k, Cmds(Program(wk.task)), Bad) && cmd == acts[|acts| - 1].cmd
    case Cancelling => Stopped(acts, k, Cmds(Program(wk.task)), Nothing)
    case _ =>
      || Ran(acts, k, Cmds(Program(wk.task)))
      || Stopped(acts, k, Cmds(Program(wk.task)), Bad)
      || Stopped(acts, k, Cmds(Program(wk.task)), Nothing)
  }

  lemma RanMore(acts: seq<Act>, k: nat, cmds: seq<Command>, a: Act)
    requires Ran(acts, k, cmds) && a.worker == k && Passed(a)
    ensures Ran(acts + [a], k, cmds + [a.cmd])
  {
  }

  lemma StoppedNow(acts: seq<Act>, k: nat, p: seq<Op>, pc: nat, outcome: Outcome)
    requires pc < |p| && p[pc].Do? && p[pc].cmd != Prune && outcome != Good && Ran(acts, k, Cmds(p[..pc]))
    requires outcome == Nothing ==> p[pc].cmd == ListBackups
    ensures Stopped(acts + [Act(k, p[pc].cmd, outcome)], k, Cmds(p), outcome)
  {
    CmdsStep(p, pc);
    CmdsPrefix(p, pc + 1);
    var done := Cmds(p[..pc]);
    assert (acts + [Act(k, p[pc].cmd, outcome)])[..|acts|] == acts;
    assert Cmds(p)[..|done|] == done;
  }

  lemma ActsAfterCommand(acts: seq<Act>, k: nat, wk: Worker, env: Env)
    requires Executing(wk).Some? && StandActs(acts, k, wk)
    requires env.outcome == Nothing ==> Executing(wk).value == ListBackups || Executing(wk).value == Prune
    ensures StandActs(acts + [Act(k, Executing(wk).value, env.outcome)], k, Advance(wk, env))
  {
    var p, a := Program(wk.task), Act(k, Executing(wk).value, env.outcome);
    if Passed(a) {
      CmdsStep(p, wk.pc);
      RanMore(acts, k, Cmds(p[..wk.pc]), a);
    } else {
      StoppedNow(acts, k, p, wk.pc, env.outcome);
      assert (acts + [a])[|acts|] == a;
    }
  }

  lemma ActsOtherwise(acts: seq<Act>, k: nat, wk: Worker, env: Env)
    requires Executing(wk).None? && !wk.phase.Done? && PcOk(wk) && StandActs(acts, k, wk)
    ensures StandActs(acts, k, Advance(wk, env))
  {
    var p := Program(wk.task);
    if wk.phase.Running? && wk.pc < |p| {
      CmdsStep(p, wk.pc);
    } else if wk.phase.Running? {
      assert p[..wk.pc] == p;
    } else if Advance(wk, env).phase.Running? {
      assert p[..0] == [];
    }
  }

  // ---------------------------------------------------------------- what the job says

  /** The message of a job whose worker stands at operation pc: the last progress it reported. */
  function Shown(t: Task, pc: nat): string {
    if pc == 0 then RequestOf(t).message
    else if pc <= |Program(t)| && Program(t)[pc - 1] == Say then Progress(t, pc - 1)
    else Shown(t, pc - 1)
  }

  predicate Unharmed(i: J.Info) {
    i.error == "" && i.details == ""
  }

  /** A finished job says which way the commands came out. */
  ghost predicate FinalSays(acts: seq<Act>, k: nat, wk: Worker, job: J.Job) {
    && (Ran(acts, k, Cmds(Program(wk.task))) ==>
          && job.info.status == J.Succeeded && job.info.message == SuccessMessage(wk) && job.info.error == ""
          && (job.artifact.Some? <==> wk.task.Verify?))
    && (Stopped(acts, k, Cmds(Program(wk.task)), Bad) ==>
          FailureSays(job, acts[|acts| - 1].cmd))
    && (Stopped(acts, k, Cmds(Program(wk.task)), Nothing) ==>
          && job.info.status == J.Canceled && job.info.error == "" && job.artifact == None
          && job.info.message == "incremental backup skipped: no full base backup yet")
  }

  /** A failed job names the command in its message and its error. */
  predicate FailureSays(job: J.Job, cmd: Command) {
    && job.info.status == J.Failed && job.artifact == None
    && job.info.message == job.info.error == FailureMessage(cmd)
    && (FailureDetails(cmd, "") != "" ==> job.info.details == FailureDetails(cmd, ""))
  }

  ghost predicate JobSays(acts: seq<Act>, k: nat, wk: Worker, job: J.Job) {
    match wk.phase
    case Starting => true
    case Waiting => job.info.message == Shown(wk.task, 0) && Unharmed(job.info) && job.artifact == None
    case Running => job.info.message == Shown(wk.task, wk.pc) && Unharmed(job.info) && job.artifact == None
    case Failing(_, _) => Unharmed(job.info) && job.artifact == None
    case Cancelling => Unharmed(job.info) && job.artifact == None
    case _ => FinalSays(acts, k, wk, job)
  }

  ghost predicate ReportOk(log: seq<Act>, scratch: seq<Act>, jobs: map<string, J.Job>, k: nat, wk: Worker) {
    wk.task != Other ==>
      && StandActs(Acts(log, scratch, k, wk.task), k, wk)
      && (wk.jobId in jobs && Started(wk) ==> JobSays(Acts(log, scratch, k, wk.task), k, wk, jobs[wk.jobId]))
  }

  ghost predicate AllReport(log: seq<Act>, scratch: seq<Act>, jobs: map<string, J.Job>, workers: map<nat, Worker>) {
    forall k | k in workers :: ReportOk(log, scratch, jobs, k, workers[k])
  }

  ghost predicate OfWorkers(log: seq<Act>, workers: map<nat, Worker>) {
    forall i | 0 <= i < |log| :: log[i].worker in workers
  }

  ghost predicate ReportInv(w: World) {
    && OfWorkers(w.log, w.workers) && OfWorkers(w.scratch, w.workers)
    && AllReport(w.log, w.scratch, w.machine.store.jobs, w.workers)
  }

  // ---------------------------------------------------------------- a step of the worker

  /** Full runs and the two ways of stopping exclude each other. */
  lemma OneEnd(acts: seq<Act>, k: nat, cmds: seq<Command>)
    ensures !(Ran(acts, k, cmds) && Stopped(acts, k, cmds, Bad))
    ensures !(Ran(acts, k, cmds) && Stopped(acts, k, cmds, Nothing))
    ensures !(Stopped(acts, k, cmds, Bad) && Stopped(acts, k, cmds, Nothing))
  {
  }

  /** The job after the last call of its worker. */
  function Ended(m: J.Machine, wk: Worker, env: Env): J.Job
    requires wk.jobId in m.store.jobs
  {
    var call, job := FinishCall(wk, env), m.store.jobs[wk.jobId];
    J.Finished(job, call.status, call.message, call.details, call.artifact, call.now)
  }

  lemma FinishEnds(m: J.Machine, wk: Worker, env: Env)
    requires wk.jobId in m.store.jobs
    ensures var jobs := J.Next(m, FinishCall(wk, env)).store.jobs;
            wk.jobId in jobs && jobs[wk.jobId] == Ended(m, wk, env)
  {
  }

  lemma SuccessSays(m: J.Machine, wk: Worker, env: Env)
    requires wk.phase.Running? && wk.jobId in m.store.jobs
    requires Unharmed(m.store.jobs[wk.jobId].info) && m.store.jobs[wk.jobId].artifact == None
    ensures var job := Ended(m, wk, env);
            && job.info.status == J.Succeeded && job.info.message == SuccessMessage(wk) && job.info.error == ""
            && (job.artifact.Some? <==> wk.task.Verify?)
  {
  }

  lemma BadSays(m: J.Machine, wk: Worker, env: Env)
    requires wk.phase.Failing? && wk.jobId in m.store.jobs && m.store.jobs[wk.jobId].artifact == None
    ensures FailureSays(Ended(m, wk, env), wk.phase.cmd)
  {
    var cmd, printed := wk.phase.cmd, wk.phase.printed;
    assert FailureDetails(cmd, "") != "" ==> FailureDetails(cmd, printed) == FailureDetails(cmd, "");
  }

  lemma NothingSays(m: J.Machine, wk: Worker, env: Env)
    requires wk.phase.Cancelling? && wk.jobId in m.store.jobs
    requires Unharmed(m.store.jobs[wk.jobId].info) && m.store.jobs[wk.jobId].artifact == None
    ensures var job := Ended(m, wk, env);
            && job.info.status == J.Canceled && job.info.error == "" && job.artifact == None
            && job.info.message == "incremental backup skipped: no full base backup yet"
  {
  }

  lemma FinishSays(acts: seq<Act>, m: J.Machine, k: nat, wk: Worker, env: Env)
    requires AboutToFinish(wk) && wk.task != Other && PcOk(wk) && StandActs(acts, k, wk)
    requires wk.jobId in m.store.jobs && JobSays(acts, k, wk, m.store.jobs[wk.jobId])
    ensures wk.jobId in J.Next(m, FinishCall(wk, env)).store.jobs
    ensures FinalSays(acts, k, wk, J.Next(m, FinishCall(wk, env)).store.jobs[wk.jobId])
  {
    var p := Program(wk.task);
    OneEnd(acts, k, Cmds(p));
    FinishEnds(m, wk, env);
    if wk.phase.Running? {
      assert p[..wk.pc] == p;
      SuccessSays(m, wk, env);
    } else if wk.phase.Failing? {
      BadSays(m, wk, env);
    } else {
      NothingSays(m, wk, env);
    }
  }

  lemma SameFinal(acts: seq<Act>, k: nat, wk: Worker, wk': Worker, job: J.Job)
    requires FinalSays(acts, k, wk, job) && wk'.task == wk.task && wk'.note == wk.note
    ensures FinalSays(acts, k, wk', job)
  {
  }

  /** The message after an operation that is not a report stays. */
  lemma ShownStays(t: Task, pc: nat)
    requires pc < |Program(t)| && Program(t)[pc] != Say
    ensures Shown(t, pc + 1) == Shown(t, pc)
  {
  }

  lemma ShownNew(t: Task, pc: nat)
    requires pc < |Program(t)| && Program(t)[pc] == Say
    ensures Shown(t, pc + 1) == Progress(t, pc) != ""
  {
  }

  lemma CommandLeads(wk: Worker, env: Env)
    requires Executing(wk).Some?
    ensures var wk' := Advance(wk, env);
            && wk'.task == wk.task
            && ((wk'.phase.Running? && wk'.pc == wk.pc + 1) || wk'.phase.Failing? || wk'.phase.Cancelling?)
  {
  }

  lemma JobAfterCommand(acts: seq<Act>, acts': seq<Act>, k: nat, wk: Worker, env: Env, job: J.Job)
    requires Executing(wk).Some? && JobSays(acts, k, wk, job)
    ensures JobSays(acts', k, Advance(wk, env), job)
  {
    ShownStays(wk.task, wk.pc);
    CommandLeads(wk, env);
  }

  lemma JobAfterSay(acts: seq<Act>, m: J.Machine, k: nat, wk: Worker, env: Env)
    requires OpAt(wk) == Some(Say) && wk.jobId in m.store.jobs && JobSays(acts, k, wk, m.store.jobs[wk.jobId])
    ensures var jobs := J.Next(m, J.DoUpdate(wk.jobId, Progress(wk.task, wk.pc), "", env.now)).store.jobs;
            wk.jobId in jobs && JobSays(acts, k, Advance(wk, env), jobs[wk.jobId])
  {
    ShownNew(wk.task, wk.pc);
  }

  /** The step's own worker: commands, position and job move together. */
  lemma OwnActs(w: World, k: nat, env: Env)
    requires CanStep(w, k, env) && PcOk(w.workers[k]) && w.workers[k].task != Other
    requires StandActs(Acts(w.log, w.scratch, k, w.workers[k].task), k, w.workers[k])
    ensures var w' := StepWorker(w, k, env);
            StandActs(Acts(w'.log, w'.scratch, k, w.workers[k].task), k, Advance(w.workers[k], env))
  {
    var wk := w.workers[k];
    var acts := Acts(w.log, w.scratch, k, wk.task);
    if Executing(wk).Some? {
      ActsOfAppend(if UsesMutex(wk.task) then w.log else w.scratch, Act(k, Executing(wk).value, env.outcome), k);
      ActsAfterCommand(acts, k, wk, env);
    } else {
      ActsOtherwise(acts, k, wk, env);
    }
  }

  lemma OwnJobStarts(m: J.Machine, acts: seq<Act>, k: nat, wk: Worker, env: Env)
    requires J.Inv(m) && wk.phase.Starting? && wk.task != Other && k in m.pending && m.pending[k].id == wk.jobId
    ensures var jobs := J.Next(m, J.Commit(k, RequestOf(wk.task))).store.jobs;
            wk.jobId in jobs && (wk.pc == 0 ==> JobSays(acts, k, Advance(wk, env), jobs[wk.jobId]))
  {
    J.CommitEnters(m, k, RequestOf(wk.task));
  }

  /** A started worker's own step on a job that is stored. */
  lemma OwnJobMoves(m: J.Machine, acts: seq<Act>, acts': seq<Act>, k: nat, wk: Worker, env: Env)
    requires wk.task != Other && Started(wk) && !wk.phase.Done? && PcOk(wk) && StandActs(acts, k, wk)
    requires wk.jobId in m.store.jobs && JobSays(acts, k, wk, m.store.jobs[wk.jobId])
    requires Executing(wk).None? ==> acts' == acts
    ensures var call := TableCall(k, wk, env);
            var jobs := if call.Some? then J.Next(m, call.value).store.jobs else m.store.jobs;
            wk.jobId in jobs && JobSays(acts', k, Advance(wk, env), jobs[wk.jobId])
  {
    if AboutToFinish(wk) {
      FinishSays(acts, m, k, wk, env);
      SameFinal(acts, k, wk, Advance(wk, env), J.Next(m, FinishCall(wk, env)).store.jobs[wk.jobId]);
    } else if Executing(wk).Some? {
      JobAfterCommand(acts, acts', k, wk, env, m.store.jobs[wk.jobId]);
    } else if wk.phase.Running? {
      JobAfterSay(acts, m, k, wk, env);
    } else if wk.phase.Releasing? {
      SameFinal(acts, k, wk, Advance(wk, env), m.store.jobs[wk.jobId]);
    }
  }

  /** A job that is gone does not come back by a report. */
  lemma GoneStaysGone(m: J.Machine, k: nat, wk: Worker, env: Env)
    requires Started(wk) && wk.jobId !in m.store.jobs && TableCall(k, wk, env).Some?
    ensures wk.jobId !in J.Next(m, TableCall(k, wk, env).value).store.jobs
  {
  }

  lemma OwnReport(w: World, k: nat, env: Env)
    requires TicketInv(w.machine, w.workers) && CanStep(w, k, env) && PcOk(w.workers[k])
    requires ReportOk(w.log, w.scratch, w.machine.store.jobs, k, w.workers[k])
    ensures var w' := StepWorker(w, k, env); ReportOk(w'.log, w'.scratch, w'.machine.store.jobs, k, w'.workers[k])
  {
    var wk, w' := w.workers[k], StepWorker(w, k, env);
    AdvanceShape(wk, env);
    if wk.task != Other {
      var acts, acts' := Acts(w.log, w.scratch, k, wk.task), Acts(w'.log, w'.scratch, k, wk.task);
      OwnActs(w, k, env);
      if wk.phase.Starting? {
        assert TicketOk(w.machine.counter, w.machine.pending, w.machine.inserted, k, wk);
        OwnJobStarts(w.machine, acts', k, wk, env);
      } else if wk.jobId in w.machine.store.jobs {
        OwnJobMoves(w.machine, acts, acts', k, wk, env);
      } else if TableCall(k, wk, env).Some? {
        GoneStaysGone(w.machine, k, wk, env);
      }
    }
  }

  lemma LogElsewhere(log: seq<Act>, j: nat, wj: Worker, env: Env, k: nat)
    requires j != k
    ensures ActsOf(LogAfter(log, j, wj, env), k) == ActsOf(log, k)
  {
    var op := Executing(wj);
    if op.Some? && UsesMutex(wj.task) { ActsOfAppend(log, Act(j, op.value, env.outcome), k); }
  }

  lemma ScratchElsewhere(scratch: seq<Act>, j: nat, wj: Worker, env: Env, k: nat)
    requires j != k
    ensures ActsOf(ScratchAfter(scratch, j, wj, env), k) == ActsOf(scratch, k)
  {
    var op := Executing(wj);
    if op.Some? && !UsesMutex(wj.task) { ActsOfAppend(scratch, Act(j, op.value, env.outcome), k); }
  }

  lemma ActsElsewhere(log: seq<Act>, scratch: seq<Act>, j: nat, wj: Worker, env: Env, k: nat, t: Task)
    requires j != k
    ensures Acts(LogAfter(log, j, wj, env), ScratchAfter(scratch, j, wj, env), k, t) == Acts(log, scratch, k, t)
  {
    LogElsewhere(log, j, wj, env, k);
    ScratchElsewhere(scratch, j, wj, env, k);
  }

  lemma OtherReport(w: World, j: nat, env: Env, k: nat)
    requires TicketInv(w.machine, w.workers) && CanStep(w, j, env) && k in w.workers && j != k
    requires ReportOk(w.log, w.scratch, w.machine.store.jobs, k, w.workers[k])
    ensures var w' := StepWorker(w, j, env); ReportOk(w'.log, w'.scratch, w'.machine.store.jobs, k, w.workers[k])
  {
    ActsElsewhere(w.log, w.scratch, j, w.workers[j], env, k, w.workers[k].task);
    StepSparesOthers(w, j, env, k);
  }

  lemma StepKeepsLogs(w: World, j: nat, env: Env)
    requires OfWorkers(w.log, w.workers) && OfWorkers(w.scratch, w.workers) && CanStep(w, j, env)
    ensures var w' := StepWorker(w, j, env); OfWorkers(w'.log, w'.workers) && OfWorkers(w'.scratch, w'.workers)
  {
  }

  lemma StepKeepsAll(w: World, j: nat, env: Env)
    requires TicketInv(w.machine, w.workers) && CanStep(w, j, env) && PcOk(w.workers[j])
    requires AllReport(w.log, w.scratch, w.machine.store.jobs, w.workers)
    ensures var w' := StepWorker(w, j, env); AllReport(w'.log, w'.scratch, w'.machine.store.jobs, w'.workers)
  {
    var w' := StepWorker(w, j, env);
    OwnReport(w, j, env);
    forall k | k in w.workers && k != j ensures ReportOk(w'.log, w'.scratch, w'.machine.store.jobs, k, w.workers[k]) {
      OtherReport(w, j, env, k);
    }
    AllAfter(w.workers, j, w'.workers[j], w'.log, w'.scratch, w'.machine.store.jobs);
  }

  lemma AllAfter(workers: map<nat, Worker>, j: nat, wj: Worker,
                 log: seq<Act>, scratch: seq<Act>, jobs: map<string, J.Job>)
    requires ReportOk(log, scratch, jobs, j, wj)
    requires forall k | k in workers && k != j :: ReportOk(log, scratch, jobs, k, workers[k])
    ensures AllReport(log, scratch, jobs, workers[j := wj])
  {
  }

  lemma StepKeepsReports(w: World, j: nat, env: Env)
    requires TicketInv(w.machine, w.workers) && PcInv(w.workers) && ReportInv(w) && CanStep(w, j, env)
    ensures ReportInv(StepWorker(w, j, env))
  {
    assert PcOk(w.workers[j]);
    StepKeepsLogs(w, j, env);
    StepKeepsAll(w, j, env);
  }

  lemma NewReport(log: seq<Act>, scratch: seq<Act>, jobs: map<string, J.Job>, k: nat, task: Task, id: string)
    requires forall i | 0 <= i < |log| :: log[i].worker != k
    requires forall i | 0 <= i < |scratch| :: scratch[i].worker != k
    ensures ReportOk(log, scratch, jobs, k, NewWorker(task, id))
  {
    NoActs(log, k);
    NoActs(scratch, k);
  }

  lemma SpawnKeepsAll(w: World, k: nat, task: Task, id: string)
    requires ReportInv(w) && k !in w.workers
    ensures AllReport(w.log, w.scratch, w.machine.store.jobs, w.workers[k := NewWorker(task, id)])
  {
    NewReport(w.log, w.scratch, w.machine.store.jobs, k, task, id);
    AllAfter(w.workers, k, NewWorker(task, id), w.log, w.scratch, w.machine.store.jobs);
  }

  lemma SpawnKeepsReports(w: World, task: Task, now: int)
    requires Numbered(w.machine.counter, w.machine.pending, w.machine.inserted, w.workers)
    requires ReportInv(w) && TaskOk(task)
    ensures ReportInv(Next(w, Spawn(task, now)))
  {
    SpawnIsNew(w.machine, w.workers);
    var k := w.machine.counter + 1;
    SpawnKeepsAll(w, k, task, J.NewTicket(k, now).id);
  }

  lemma CallKeepsReports(w: World, j: nat, call: J.Event)
    requires TicketInv(w.machine, w.workers) && ReportInv(w) && Enabled(w, Call(j, call))
    ensures ReportInv(Next(w, Call(j, call)))
  {
    var jobs' := J.Next(w.machine, call).store.jobs;
    forall k | k in w.workers ensures ReportOk(w.log, w.scratch, jobs', k, w.workers[k]) {
      assert ReportOk(w.log, w.scratch, w.machine.store.jobs, k, w.workers[k]);
      if k != j { CallSparesOthers(w, j, call, k); }
    }
  }

  lemma NextKeepsReports(w: World, e: Event)
    requires Safe(w) && ReportInv(w) && Enabled(w, e)
    ensures ReportInv(Next(w, e))
  {
    match e
    case Spawn(task, now) => SpawnKeepsReports(w, task, now);
    case Step(k, env) => StepKeepsReports(w, k, env);
    case Call(k, call) => CallKeepsReports(w, k, call);
    case Crash =>
    case Drift(dir) =>
  }

  lemma {:induction false} RunKeepsReports(blankDir: bool, pg: Pg, dir: Dir, es: seq<Event>)
    requires Run(Initial(blankDir, pg, dir), es).Some?
    ensures var w := Run(Initial(blankDir, pg, dir), es).value; Safe(w) && ReportInv(w)
  {
    RunIsSafe(blankDir, pg, dir, es);
    if es == [] {
    } else {
      RunKeepsReports(blankDir, pg, dir, es[..|es| - 1]);
      NextKeepsReports(Run(Initial(blankDir, pg, dir), es[..|es| - 1]).value, es[|es| - 1]);
    }
  }

  // ---------------------------------------------------------------- the commands, task by task

  lemma VerifyCommands(name: string)
    ensures Cmds(Program(Verify(name))) ==
            [MakeScratch, MakeRestoreDir, FetchScratch, ReadVersion, StatControl, ReadBase,
             CreateReport, WriteReport, CloseReport, StatReport]
  {
    var a, b := [Do(MakeScratch), Do(MakeRestoreDir), Say], [Do(FetchScratch), Do(ReadVersion), Do(StatControl)];
    var c, d := [Do(ReadBase), Do(CreateReport), Do(WriteReport)], [Do(CloseReport), Do(StatReport)];
    CmdsOfThree(Do(MakeScratch), Do(MakeRestoreDir), Say);
    CmdsOfThree(Do(FetchScratch), Do(ReadVersion), Do(StatControl));
    CmdsOfThree(Do(ReadBase), Do(CreateReport), Do(WriteReport));
    CmdsOfTwo(Do(CloseReport), Do(StatReport));
    CmdsOfFour(a, b, c, d);
    assert Program(Verify(name)) == a + b + c + d;
  }

  lemma CmdsOfTwo(a: Op, b: Op)
    ensures Cmds([a, b]) == (if a.Do? then [a.cmd] else []) + (if b.Do? then [b.cmd] else [])
  {
    CmdsOf([], a);
    CmdsOf([a], b);
    assert [] + [a] == [a] && [a] + [b] == [a, b];
  }

  lemma CmdsOfFour(a: seq<Op>, b: seq<Op>, c: seq<Op>, d: seq<Op>)
    ensures Cmds(a + b + c + d) == Cmds(a) + Cmds(b) + Cmds(c) + Cmds(d)
  {
    CmdsAppend(a, b);
    CmdsAppend(a + b, c);
    CmdsAppend(a + b + c, d);
  }

  lemma BackupCommands()
    ensures Cmds(Program(Backup(true))) == [Push, Prune]
    ensures Cmds(Program(Backup(false))) == [ListBackups, Push, Prune]
  {
    CmdsOfThree(Say, Do(Push), Do(Prune));
    assert Program(Backup(true)) == [Say, Do(Push), Do(Prune)];
    CmdsOf([], Do(ListBackups));
    CmdsAppend([Do(ListBackups)], [Say, Do(Push), Do(Prune)]);
    assert [] + [Do(ListBackups)] == [Do(ListBackups)];
    assert Program(Backup(false)) == [Do(ListBackups)] + [Say, Do(Push), Do(Prune)];
  }

  // ---------------------------------------------------------------- what it means

  /** Worker k of this run has made its last call and its job is stored. */
  ghost predicate Reports(w: World, k: nat) {
    && k in w.workers && (w.workers[k].phase.Releasing? || w.workers[k].phase.Done?)
    && w.workers[k].jobId in w.machine.store.jobs
  }

  lemma Reported(w: World, k: nat) returns (acts: seq<Act>, cmds: seq<Command>, job: J.Job)
    requires ReportInv(w) && Reports(w, k) && w.workers[k].task != Other
    ensures acts == Acts(w.log, w.scratch, k, w.workers[k].task) && cmds == Cmds(Program(w.workers[k].task))
    ensures job == w.machine.store.jobs[w.workers[k].jobId] && FinalSays(acts, k, w.workers[k], job)
    ensures Ran(acts, k, cmds) || Stopped(acts, k, cmds, Bad) || Stopped(acts, k, cmds, Nothing)
  {
    acts, cmds := Acts(w.log, w.scratch, k, w.workers[k].task), Cmds(Program(w.workers[k].task));
    job := w.machine.store.jobs[w.workers[k].jobId];
    assert ReportOk(w.log, w.scratch, w.machine.store.jobs, k, w.workers[k]);
  }

  /** A bad command of a worker ends its commands. */
  lemma BadIsLast(acts: seq<Act>, k: nat, cmds: seq<Command>)
    requires Ran(acts, k, cmds) || Stopped(acts, k, cmds, Bad) || Stopped(acts, k, cmds, Nothing)
    ensures Stopped(acts, k, cmds, Bad) <==>
            exists i | 0 <= i < |acts| :: acts[i].outcome == Bad && acts[i].cmd != Prune
    ensures Stopped(acts, k, cmds, Nothing) ==>
              exists i | 0 <= i < |acts| :: acts[i].outcome == Nothing && acts[i].cmd != Prune
  {
    if Stopped(acts, k, cmds, Bad) || Stopped(acts, k, cmds, Nothing) {
      assert acts[|acts| - 1].cmd != Prune;
      assert forall i | 0 <= i < |acts| - 1 :: acts[..|acts| - 1][i] == acts[i] && Passed(acts[i]);
    }
  }

  /** All of these commands, each with success. */
  ghost predicate AllGood(acts: seq<Act>, k: nat, cmds: seq<Command>) {
    |acts| == |cmds| && forall i | 0 <= i < |acts| :: acts[i] == Act(k, cmds[i], Good)
  }

  /** In every run a verification has succeeded if and only if its ten commands all ended well, in
      this order: nothing is reported sound that was not fetched and looked at. It has failed if and
      only if one of them failed, and it has a report to show if and only if it succeeded. */
  lemma VerificationExactly(blankDir: bool, pg: Pg, dir: Dir, es: seq<Event>, k: nat)
    requires Run(Initial(blankDir, pg, dir), es).Some?
    requires Reports(Run(Initial(blankDir, pg, dir), es).value, k)
    requires Run(Initial(blankDir, pg, dir), es).value.workers[k].task.Verify?
    ensures var w := Run(Initial(blankDir, pg, dir), es).value;
            var acts, job := ActsOf(w.scratch, k), w.machine.store.jobs[w.workers[k].jobId];
            && (job.info.status == J.Succeeded <==>
                  AllGood(acts, k, [MakeScratch, MakeRestoreDir, FetchScratch, ReadVersion, StatControl, ReadBase,
                                    CreateReport, WriteReport, CloseReport, StatReport]))
            && (job.info.status == J.Failed <==> exists i | 0 <= i < |acts| :: acts[i].outcome == Bad)
            && (job.info.status == J.Succeeded || job.info.status == J.Failed)
            && (job.artifact.Some? <==> job.info.status == J.Succeeded)
  {
    RunKeepsReports(blankDir, pg, dir, es);
    var w := Run(Initial(blankDir, pg, dir), es).value;
    var acts, cmds, job := Reported(w, k);
    VerifyCommands(w.workers[k].task.name);
    NotIn(cmds, Prune);
    NotIn(cmds, ListBackups);
    EndWithout(acts, k, cmds);
  }

  lemma NotIn(cmds: seq<Command>, cmd: Command)
    requires cmd == Prune || cmd == ListBackups
    requires cmds == [MakeScratch, MakeRestoreDir, FetchScratch, ReadVersion, StatControl, ReadBase,
                      CreateReport, WriteReport, CloseReport, StatReport]
             || cmds == RESTORE_COMMANDS
    ensures cmd !in cmds
  {
  }

  /** Without prune and listing there are only two ends: all good, or a last bad one. */
  lemma EndWithout(acts: seq<Act>, k: nat, cmds: seq<Command>)
    requires Ran(acts, k, cmds) || Stopped(acts, k, cmds, Bad) || Stopped(acts, k, cmds, Nothing)
    requires Prune !in cmds && ListBackups !in cmds
    ensures Ran(acts, k, cmds) <==> AllGood(acts, k, cmds)
    ensures Stopped(acts, k, cmds, Bad) <==> exists i | 0 <= i < |acts| :: acts[i].outcome == Bad
    ensures !Stopped(acts, k, cmds, Nothing)
  {
    assert forall i | 0 <= i < |cmds| :: cmds[i] != Prune && cmds[i] != ListBackups;
    BadIsLast(acts, k, cmds);
    OneEnd(acts, k, cmds);
  }

  /** The same for restores and their eight commands. */
  lemma RestoreExactly(blankDir: bool, pg: Pg, dir: Dir, es: seq<Event>, k: nat)
    requires Run(Initial(blankDir, pg, dir), es).Some?
    requires Reports(Run(Initial(blankDir, pg, dir), es).value, k)
    requires Run(Initial(blankDir, pg, dir), es).value.workers[k].task.Restore?
    ensures var w := Run(Initial(blankDir, pg, dir), es).value;
            var acts, job := ActsOf(w.log, k), w.machine.store.jobs[w.workers[k].jobId];
            && (job.info.status == J.Succeeded <==>
                  AllGood(acts, k, [CheckDataDir, StopPg, CleanDir, FetchBackup,
                                    WriteSignal, OpenConf, WriteConf, StartPg]))
            && (job.info.status == J.Failed <==> exists i | 0 <= i < |acts| :: acts[i].outcome == Bad)
            && (job.info.status == J.Succeeded || job.info.status == J.Failed) && job.artifact == None
  {
    RunKeepsReports(blankDir, pg, dir, es);
    var w := Run(Initial(blankDir, pg, dir), es).value;
    var acts, cmds, job := Reported(w, k);
    RestoreCommands(w.workers[k].task);
    NotIn(cmds, Prune);
    NotIn(cmds, ListBackups);
    EndWithout(acts, k, cmds);
  }

  /** A backup has succeeded if and only if it pushed, after a look at the earlier ones when it is
      incremental, and then tried to prune; it is canceled if and only if there was no earlier one,
      and has failed otherwise. */
  lemma BackupExactly(blankDir: bool, pg: Pg, dir: Dir, es: seq<Event>, k: nat)
    requires Run(Initial(blankDir, pg, dir), es).Some?
    requires Reports(Run(Initial(blankDir, pg, dir), es).value, k)
    requires Run(Initial(blankDir, pg, dir), es).value.workers[k].task.Backup?
    ensures var w := Run(Initial(blankDir, pg, dir), es).value;
            var acts, job := ActsOf(w.log, k), w.machine.store.jobs[w.workers[k].jobId];
            var full := w.workers[k].task.full;
            && (job.info.status == J.Succeeded <==>
                  |acts| > 0 && acts[|acts| - 1].cmd == Prune
                  && AllGood(acts[..|acts| - 1], k, if full then [Push] else [ListBackups, Push]))
            && (job.info.status == J.Canceled <==> !full && acts == [Act(k, ListBackups, Nothing)])
            && (job.info.status == J.Succeeded || job.info.status == J.Canceled || job.info.status == J.Failed)
            && job.artifact == None
  {
    RunKeepsReports(blankDir, pg, dir, es);
    var w := Run(Initial(blankDir, pg, dir), es).value;
    var acts, cmds, job := Reported(w, k);
    BackupCommands();
    OneEnd(acts, k, cmds);
    if w.workers[k].task.full {
      FullEnds(acts, k);
    } else {
      IncrementalEnds(acts, k);
    }
  }

  lemma FullEnds(acts: seq<Act>, k: nat)
    requires var c := [Push, Prune]; Ran(acts, k, c) || Stopped(acts, k, c, Bad) || Stopped(acts, k, c, Nothing)
    ensures Ran(acts, k, [Push, Prune]) <==>
            |acts| > 0 && acts[|acts| - 1].cmd == Prune && AllGood(acts[..|acts| - 1], k, [Push])
    ensures !Stopped(acts, k, [Push, Prune], Nothing)
  {
    if Ran(acts, k, [Push, Prune]) {
      assert acts[0].cmd == Push && acts[1].cmd == Prune;
    }
  }

  lemma IncrementalEnds(acts: seq<Act>, k: nat)
    requires var c := [ListBackups, Push, Prune];
             Ran(acts, k, c) || Stopped(acts, k, c, Bad) || Stopped(acts, k, c, Nothing)
    ensures Ran(acts, k, [ListBackups, Push, Prune]) <==>
            |acts| > 0 && acts[|acts| - 1].cmd == Prune && AllGood(acts[..|acts| - 1], k, [ListBackups, Push])
    ensures Stopped(acts, k, [ListBackups, Push, Prune], Nothing) <==> acts == [Act(k, ListBackups, Nothing)]
  {
    var c := [ListBackups, Push, Prune];
    if Ran(acts, k, c) {
      assert acts[0].cmd == ListBackups && acts[1].cmd == Push && acts[2].cmd == Prune;
    }
    if Stopped(acts, k, c, Nothing) {
      assert c[|acts| - 1] == ListBackups;
      assert c[1] == Push && c[2] == Prune;
    }
    if acts == [Act(k, ListBackups, Nothing)] {
      assert acts[..0] == [] && c[..0] == [];
    }
  }

  // ---------------------------------------------------------------- the texts

  /** In every run the stored job of a worker shows the phase it is in while a command runs. */
  lemma RunningShows(blankDir: bool, pg: Pg, dir: Dir, es: seq<Event>, k: nat)
    requires Run(Initial(blankDir, pg, dir), es).Some?
    requires var w := Run(Initial(blankDir, pg, dir), es).value;
             k in w.workers && Executing(w.workers[k]).Some? && w.workers[k].jobId in w.machine.store.jobs
    ensures var w := Run(Initial(blankDir, pg, dir), es).value;
            && w.machine.store.jobs[w.workers[k].jobId].info.message == Shown(w.workers[k].task, w.workers[k].pc)
            && w.machine.store.jobs[w.workers[k].jobId].info.error == ""
  {
    RunKeepsReports(blankDir, pg, dir, es);
    var w := Run(Initial(blankDir, pg, dir), es).value;
    assert ReportOk(w.log, w.scratch, w.machine.store.jobs, k, w.workers[k]);
  }

  lemma RestoreShows(t: Task)
    requires t.Restore?
    ensures Shown(t, 0) == "restore queued" && Shown(t, 2) == "stopping PostgreSQL"
    ensures Shown(t, 4) == "cleaning data directory" && Shown(t, 6) == "fetching backup from storage"
    ensures Shown(t, 8) == Shown(t, 9) == Shown(t, 10) == "writing recovery configuration"
    ensures Shown(t, 12) == "starting PostgreSQL"
  {
    assert Shown(t, 8) == Progress(t, 7) && Shown(t, 12) == Progress(t, 11);
    ShownStays(t, 8);
    ShownStays(t, 9);
  }

  /** In particular, while a restore is at work on the cluster its job names the phase. */
  lemma RestorePhaseShows(blankDir: bool, pg: Pg, dir: Dir, es: seq<Event>, k: nat)
    requires Run(Initial(blankDir, pg, dir), es).Some?
    requires var w := Run(Initial(blankDir, pg, dir), es).value;
             k in w.workers && Executing(w.workers[k]).Some? && TouchesCluster(Executing(w.workers[k]).value)
             && w.workers[k].jobId in w.machine.store.jobs
    ensures var w := Run(Initial(blankDir, pg, dir), es).value;
            var cmd, shown := Executing(w.workers[k]).value, w.machine.store.jobs[w.workers[k].jobId].info.message;
            && (cmd == StopPg ==> shown == "stopping PostgreSQL")
            && (cmd == CleanDir ==> shown == "cleaning data directory")
            && (cmd == FetchBackup ==> shown == "fetching backup from storage")
            && (cmd == WriteSignal || cmd == OpenConf || cmd == WriteConf ==>
                  shown == "writing recovery configuration")
            && (cmd == StartPg ==> shown == "starting PostgreSQL")
  {
    RunningShows(blankDir, pg, dir, es, k);
    var wk := Run(Initial(blankDir, pg, dir), es).value.workers[k];
    if !Restoring(wk) { NoClusterCommand(wk); }
    RestoreProgram(wk);
    RestoreShows(wk.task);
  }

  /** In every run a failed job names in its message and its error the command that failed. */
  lemma FailedNamesCommand(blankDir: bool, pg: Pg, dir: Dir, es: seq<Event>, k: nat)
    requires Run(Initial(blankDir, pg, dir), es).Some?
    requires Reports(Run(Initial(blankDir, pg, dir), es).value, k)
    requires var w := Run(Initial(blankDir, pg, dir), es).value;
             w.workers[k].task != Other && w.machine.store.jobs[w.workers[k].jobId].info.status == J.Failed
    ensures var w := Run(Initial(blankDir, pg, dir), es).value;
            var acts := Acts(w.log, w.scratch, k, w.workers[k].task);
            && |acts| > 0 && acts[|acts| - 1].outcome == Bad
            && FailureSays(w.machine.store.jobs[w.workers[k].jobId], acts[|acts| - 1].cmd)
  {
    RunKeepsReports(blankDir, pg, dir, es);
    var acts, cmds, job := Reported(Run(Initial(blankDir, pg, dir), es).value, k);
  }

  /** The texts by which a failed command of a restore is named. */
  lemma RestoreFailureTexts()
    ensures FailureMessage(StopPg) == "restore failed while stopping PostgreSQL"
    ensures FailureMessage(CleanDir) == "restore failed while cleaning data directory"
    ensures FailureMessage(FetchBackup) == "restore failed while fetching backup"
    ensures FailureMessage(StartPg) == "restore failed while starting PostgreSQL"
  {
  }

  lemma RecoveryFailureTexts()
    ensures FailureMessage(WriteSignal) == "restore failed while writing recovery.signal"
    ensures FailureMessage(OpenConf) == "restore failed while opening postgresql.auto.conf"
    ensures FailureMessage(WriteConf) == "restore failed while writing recovery configuration"
  {
  }

  lemma GuardFailureTexts()
    ensures FailureMessage(CheckDataDir) == "restore aborted"
    ensures FailureDetails(CheckDataDir, "") == "data directory is not configured"
  {
  }

  lemma BackupFailureTexts()
    ensures FailureMessage(Push) == "backup failed"
    ensures FailureMessage(ListBackups) == "incremental backup could not inspect base backup"
  {
  }

  lemma VerifyFailureTexts(cmd: Command)
    requires cmd in [MakeScratch, MakeRestoreDir, ReadVersion, StatControl, ReadBase,
                     CreateReport, WriteReport, CloseReport, StatReport]
    ensures FailureMessage(cmd) == "verification failed"
    ensures FailureMessage(FetchScratch) == "verification failed while fetching backup"
  {
  }

  lemma InspectionFailureTexts()
    ensures FailureDetails(ReadVersion, "") == "missing PG_VERSION in fetched backup"
    ensures FailureDetails(StatControl, "") == "missing global/pg_control in fetched backup"
    ensures FailureDetails(ReadBase, "") == "missing base directory in fetched backup"
  {
  }

  /** What the first message and the progress of backups and verifications say. */
  lemma OtherShows(full: bool, name: string)
    ensures var t := Backup(full);
            && Shown(t, 0) == (if full then "full backup queued" else "incremental backup queued")
            && (full ==> Shown(t, 1) == "running WAL-G full backup")
            && (!full ==> Shown(t, 2) == "running WAL-G incremental backup")
    ensures Shown(Verify(name), 0) == "verification queued"
    ensures Shown(Verify(name), 3) == "fetching backup into scratch directory"
  {
    BackupShows(full);
  }

  lemma BackupShows(full: bool)
    ensures Kind(full) + " backup queued" == if full then "full backup queued" else "incremental backup queued"
    ensures "running WAL-G " + Kind(full) + " backup" ==
            if full then "running WAL-G full backup" else "running WAL-G incremental backup"
  {
    if full {
      FullShows();
    } else {
      IncrementalShows();
    }
  }

  lemma FullShows()
    ensures "full" + " backup queued" == "full backup queued"
    ensures "running WAL-G " + "full" + " backup" == "running WAL-G full backup"
  {
  }

  lemma IncrementalShows()
    ensures "incremental" + " backup queued" == "incremental backup queued"
    ensures "running WAL-G " + "incremental" + " backup" == "running WAL-G incremental backup"
  {
  }

  /** What the table is told about a new job. */
  lemma RequestSays(name: string, target: string, full: bool)
    ensures var r := RequestOf(Restore(name, target));
            && r.kind == "restore" && r.database == "" && r.metadata == map["backupName" := name]
            && r.target == if target == "" then name else name + " (PITR → " + target + ")"
    ensures var r := RequestOf(Verify(name));
            r.kind == "backup_verify" && r.target == name && r.database == "" && r.metadata == map["backupName" := name]
    ensures var r := RequestOf(Backup(full));
            && r.kind == "backup" && r.target == "wal-g backup-push" && r.database == ""
            && r.metadata == map["kind" := if full then "full" else "incremental"]
  {
  }

  lemma SuccessTexts(wk: Worker)
    ensures wk.task.Restore? ==> SuccessMessage(wk) == "restore completed and PostgreSQL is starting"
    ensures wk.task.Verify? ==> SuccessMessage(wk) == "backup verification completed"
  {
  }

  lemma BackupSuccessTexts(wk: Worker)
    requires wk.task.Backup?
    ensures var kind := if wk.task.full then "full" else "incremental";
            SuccessMessage(wk) == kind + " backup completed successfully" + if wk.note == "" then "" else "; " + wk.note
  {
  }

  /** Unless the source has a fixed text for it, the job of a failed command shows what the command
      printed. */
  lemma FailureShowsOutput(m: J.Machine, wk: Worker, bad: Env, env: Env)
    requires Executing(wk).Some? && Executing(wk).value != Prune && bad.outcome == Bad && bad.details != ""
    requires Executing(wk).value !in [CheckDataDir, ReadVersion, StatControl, ReadBase] && wk.jobId in m.store.jobs
    ensures var wk' := Advance(wk, bad);
            && wk'.phase.Failing? && wk'.phase.cmd == Executing(wk).value && wk'.jobId == wk.jobId
            && Ended(m, wk', env).info.details == bad.details
  {
    PrintedIsDetails(Executing(wk).value, bad.details);
  }

  lemma PrintedIsDetails(cmd: Command, printed: string)
    requires cmd !in [CheckDataDir, ReadVersion, StatControl, ReadBase]
    ensures FailureDetails(cmd, printed) == printed
  {
  }
}
