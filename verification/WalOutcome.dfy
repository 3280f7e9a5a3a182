/** What the table says about a finished backup or restore is what its commands came to, in every
    interleaving with any number of other workers. */
module WalOutcome {
  import opened Wrappers
  import J = JobSpec
  import opened RecoveryConf
  import opened WalProtocol
  import opened WalSafety
  import opened WalJobs

  // ---------------------------------------------------------------- the verdict of the log

  /** The command whose success decides: the push of a backup, the start after a restore. */
  function Decisive(t: Task): Command {
    if t.Restore? then StartPg else Push
  }

  function DecisiveAt(t: Task): nat {
    match t
    case Restore(_, _) => 12
    case Backup(full) => if full then 1 else 2
    case _ => 0
  }

  /** The decisive command of this worker succeeded. */
  ghost predicate Won(log: seq<Act>, k: nat, t: Task) {
    exists i | 0 <= i < |log| :: log[i] == Act(k, Decisive(t), Good)
  }

  /** A failed prune does not count. */
  predicate Fails(a: Act, k: nat) {
    a.worker == k && a.outcome == Bad && a.cmd != Prune
  }

  ghost predicate Lost(log: seq<Act>, k: nat) {
    exists i | 0 <= i < |log| :: Fails(log[i], k)
  }

  lemma WonOfAppend(log: seq<Act>, a: Act, k: nat, t: Task)
    ensures Won(log + [a], k, t) <==> Won(log, k, t) || a == Act(k, Decisive(t), Good)
  {
    var log' := log + [a];
    assert log'[|log|] == a;
    if i :| 0 <= i < |log| && log[i] == Act(k, Decisive(t), Good) {
      assert log'[i] == log[i];
    }
  }

  lemma LostOfAppend(log: seq<Act>, a: Act, k: nat)
    ensures Lost(log + [a], k) <==> Lost(log, k) || Fails(a, k)
  {
    var log' := log + [a];
    assert log'[|log|] == a;
    if i :| 0 <= i < |log| && Fails(log[i], k) {
      assert log'[i] == log[i];
    }
  }

  // ---------------------------------------------------------------- invariant

  /** Where a worker stands tells what its commands came to so far. */
  ghost predicate StandOk(log: seq<Act>, k: nat, wk: Worker) {
    UsesMutex(wk.task) ==>
      match wk.phase
      case Starting => !Won(log, k, wk.task) && !Lost(log, k)
      case Waiting => !Won(log, k, wk.task) && !Lost(log, k)
      case Running => !Lost(log, k) && (Won(log, k, wk.task) <==> wk.pc > DecisiveAt(wk.task))
      case Failing(_, _) => !Won(log, k, wk.task) && Lost(log, k)
      case Cancelling => !Won(log, k, wk.task) && !Lost(log, k)
      case _ => !(Won(log, k, wk.task) && Lost(log, k))
  }

  ghost function Verdict(log: seq<Act>, k: nat, t: Task): J.Status {
    if Lost(log, k) then J.Failed else if Won(log, k, t) then J.Succeeded else J.Canceled
  }

  ghost predicate VerdictOk(log: seq<Act>, jobs: map<string, J.Job>, k: nat, wk: Worker) {
    UsesMutex(wk.task) && (wk.phase.Releasing? || wk.phase.Done?) && wk.jobId in jobs ==>
      jobs[wk.jobId].info.status == Verdict(log, k, wk.task)
  }

  ghost predicate AllStand(log: seq<Act>, jobs: map<string, J.Job>, workers: map<nat, Worker>) {
    forall k | k in workers :: StandOk(log, k, workers[k]) && VerdictOk(log, jobs, k, workers[k])
  }

  ghost predicate OutcomeInv(w: World) {
    && (forall i | 0 <= i < |w.log| :: w.log[i].worker in w.workers)
    && AllStand(w.log, w.machine.store.jobs, w.workers)
  }

  // ---------------------------------------------------------------- one worker

  /** The decisive command stands at one place of the program. */
  lemma DecisivePlace(wk: Worker)
    requires UsesMutex(wk.task) && Executing(wk).Some?
    ensures Executing(wk).value == Decisive(wk.task) <==> wk.pc == DecisiveAt(wk.task)
    ensures DecisiveAt(wk.task) < |Program(wk.task)| && Decisive(wk.task) != Prune
    ensures Executing(wk).value == Prune || Executing(wk).value == ListBackups ==> wk.task.Backup?
    ensures Executing(wk).value == ListBackups ==> wk.pc < DecisiveAt(wk.task)
  {
  }

  lemma DecisiveInside(t: Task)
    requires UsesMutex(t)
    ensures DecisiveAt(t) < |Program(t)| && Program(t)[DecisiveAt(t)] == Do(Decisive(t))
  {
  }

  lemma FailedBeforeDecisive(wk: Worker)
    requires UsesMutex(wk.task) && Executing(wk).Some? && Executing(wk).value != Prune
    ensures wk.pc <= DecisiveAt(wk.task)
  {
  }

  lemma StandAfterCommand(log: seq<Act>, k: nat, wk: Worker, env: Env)
    requires UsesMutex(wk.task) && Executing(wk).Some? && StandOk(log, k, wk)
    requires env.outcome == Nothing ==> Executing(wk).value == ListBackups || Executing(wk).value == Prune
    ensures StandOk(log + [Act(k, Executing(wk).value, env.outcome)], k, Advance(wk, env))
  {
    var a := Act(k, Executing(wk).value, env.outcome);
    DecisivePlace(wk);
    WonOfAppend(log, a, k, wk.task);
    LostOfAppend(log, a, k);
    if a.cmd != Prune { FailedBeforeDecisive(wk); }
  }

  lemma StandOtherwise(log: seq<Act>, k: nat, wk: Worker, env: Env)
    requires Executing(wk).None? && !wk.phase.Done? && StandOk(log, k, wk) && PcOk(wk)
    ensures StandOk(log, k, Advance(wk, env))
    ensures UsesMutex(wk.task) && AboutToFinish(wk) ==> FinishCall(wk, env).status == Verdict(log, k, wk.task)
  {
    if UsesMutex(wk.task) {
      DecisiveInside(wk.task);
    }
  }

  lemma StandElsewhere(log: seq<Act>, k: nat, wk: Worker, a: Act)
    requires StandOk(log, k, wk) && a.worker != k
    ensures StandOk(log + [a], k, wk)
    ensures Verdict(log + [a], k, wk.task) == Verdict(log, k, wk.task)
  {
    WonOfAppend(log, a, k, wk.task);
    LostOfAppend(log, a, k);
  }

  // ---------------------------------------------------------------- one event

  lemma OwnStand(w: World, k: nat, env: Env)
    requires CanStep(w, k, env) && PcOk(w.workers[k]) && StandOk(w.log, k, w.workers[k])
    ensures StandOk(StepWorker(w, k, env).log, k, StepWorker(w, k, env).workers[k])
  {
    var wk := w.workers[k];
    AdvanceShape(wk, env);
    if UsesMutex(wk.task) {
      if Executing(wk).Some? {
        StandAfterCommand(w.log, k, wk, env);
      } else {
        StandOtherwise(w.log, k, wk, env);
      }
    }
  }

  lemma FinishWrites(m: J.Machine, wk: Worker, env: Env)
    requires wk.jobId in J.Next(m, FinishCall(wk, env)).store.jobs
    ensures J.Next(m, FinishCall(wk, env)).store.jobs[wk.jobId].info.status == FinishCall(wk, env).status
  {
  }

  /** The call that finishes a job writes the verdict, and the unlock leaves it. */
  lemma OwnVerdict(w: World, k: nat, env: Env)
    requires CanStep(w, k, env) && PcOk(w.workers[k]) && StandOk(w.log, k, w.workers[k])
    requires VerdictOk(w.log, w.machine.store.jobs, k, w.workers[k])
    ensures var w' := StepWorker(w, k, env); VerdictOk(w'.log, w'.machine.store.jobs, k, w'.workers[k])
  {
    var wk, w' := w.workers[k], StepWorker(w, k, env);
    AdvanceShape(wk, env);
    if AboutToFinish(wk) {
      StandOtherwise(w.log, k, wk, env);
      if wk.jobId in w'.machine.store.jobs { FinishWrites(w.machine, wk, env); }
    }
  }

  lemma OtherOutcome(w: World, j: nat, env: Env, k: nat)
    requires TicketInv(w.machine, w.workers) && CanStep(w, j, env) && k in w.workers && j != k
    requires StandOk(w.log, k, w.workers[k]) && VerdictOk(w.log, w.machine.store.jobs, k, w.workers[k])
    ensures var w' := StepWorker(w, j, env);
            StandOk(w'.log, k, w.workers[k]) && VerdictOk(w'.log, w'.machine.store.jobs, k, w.workers[k])
  {
    StepSparesOthers(w, j, env, k);
    var wj := w.workers[j];
    if Executing(wj).Some? && UsesMutex(wj.task) {
      StandElsewhere(w.log, k, w.workers[k], Act(j, Executing(wj).value, env.outcome));
    }
  }

  lemma StepKeepsStands(w: World, j: nat, env: Env)
    requires TicketInv(w.machine, w.workers) && CanStep(w, j, env) && PcOk(w.workers[j])
    requires AllStand(w.log, w.machine.store.jobs, w.workers)
    ensures var w' := StepWorker(w, j, env); AllStand(w'.log, w'.machine.store.jobs, w'.workers)
  {
    var w' := StepWorker(w, j, env);
    OwnStand(w, j, env);
    OwnVerdict(w, j, env);
    forall k | k in w.workers && k != j
      ensures StandOk(w'.log, k, w.workers[k]) && VerdictOk(w'.log, w'.machine.store.jobs, k, w.workers[k])
    {
      OtherOutcome(w, j, env, k);
    }
    StandAfter(w.workers, j, w'.workers[j], w'.log, w'.machine.store.jobs);
  }

  lemma StandAfter(workers: map<nat, Worker>, j: nat, wj: Worker, log: seq<Act>, jobs: map<string, J.Job>)
    requires StandOk(log, j, wj) && VerdictOk(log, jobs, j, wj)
    requires forall k | k in workers && k != j :: StandOk(log, k, workers[k]) && VerdictOk(log, jobs, k, workers[k])
    ensures AllStand(log, jobs, workers[j := wj])
  {
  }

  lemma StepKeepsOutcomes(w: World, j: nat, env: Env)
    requires TicketInv(w.machine, w.workers) && PcInv(w.workers) && OutcomeInv(w) && CanStep(w, j, env)
    ensures OutcomeInv(StepWorker(w, j, env))
  {
    assert PcOk(w.workers[j]);
    StepKeepsStands(w, j, env);
  }

  lemma SpawnKeepsOutcomes(w: World, task: Task, now: int)
    requires Numbered(w.machine.counter, w.machine.pending, w.machine.inserted, w.workers)
    requires OutcomeInv(w) && TaskOk(task)
    ensures OutcomeInv(Next(w, Spawn(task, now)))
  {
    SpawnIsNew(w.machine, w.workers);
    var k := w.machine.counter + 1;
    assert !Lost(w.log, k) && !Won(w.log, k, task);
    StandAfter(w.workers, k, NewWorker(task, J.NewTicket(k, now).id), w.log, w.machine.store.jobs);
  }

  lemma CallKeepsOutcomes(w: World, j: nat, call: J.Event)
    requires TicketInv(w.machine, w.workers) && OutcomeInv(w) && Enabled(w, Call(j, call))
    ensures OutcomeInv(Next(w, Call(j, call)))
  {
    var jobs' := J.Next(w.machine, call).store.jobs;
    forall k | k in w.workers ensures VerdictOk(w.log, jobs', k, w.workers[k]) {
      assert VerdictOk(w.log, w.machine.store.jobs, k, w.workers[k]);
      if k != j { CallSparesOthers(w, j, call, k); }
    }
  }

  lemma NextKeepsOutcomes(w: World, e: Event)
    requires Safe(w) && OutcomeInv(w) && Enabled(w, e)
    ensures OutcomeInv(Next(w, e))
  {
    match e
    case Spawn(task, now) => SpawnKeepsOutcomes(w, task, now);
    case Step(k, env) => StepKeepsOutcomes(w, k, env);
    case Call(k, call) => CallKeepsOutcomes(w, k, call);
    case Crash =>
    case Drift(dir) =>
  }

  lemma {:induction false} RunKeepsOutcomes(blankDir: bool, pg: Pg, dir: Dir, es: seq<Event>)
    requires Run(Initial(blankDir, pg, dir), es).Some?
    ensures var w := Run(Initial(blankDir, pg, dir), es).value; Safe(w) && OutcomeInv(w)
  {
    RunIsSafe(blankDir, pg, dir, es);
    if es == [] {
    } else {
      RunKeepsOutcomes(blankDir, pg, dir, es[..|es| - 1]);
      NextKeepsOutcomes(Run(Initial(blankDir, pg, dir), es[..|es| - 1]).value, es[|es| - 1]);
    }
  }

  // ---------------------------------------------------------------- what it means

  /** In every run the stored job of a finished backup or restore has failed if and only if one of
      its commands failed, prune apart, has succeeded if and only if its push, or its start of
      PostgreSQL, succeeded, and is canceled otherwise. */
  lemma OutcomeExactly(blankDir: bool, pg: Pg, dir: Dir, es: seq<Event>, k: nat)
    requires Run(Initial(blankDir, pg, dir), es).Some?
    requires var w := Run(Initial(blankDir, pg, dir), es).value;
             && k in w.workers && UsesMutex(w.workers[k].task)
             && (w.workers[k].phase.Releasing? || w.workers[k].phase.Done?)
             && w.workers[k].jobId in w.machine.store.jobs
    ensures var w := Run(Initial(blankDir, pg, dir), es).value;
            var status := w.machine.store.jobs[w.workers[k].jobId].info.status;
            && (status == J.Failed <==> Lost(w.log, k))
            && (status == J.Succeeded <==> Won(w.log, k, w.workers[k].task))
            && (status == J.Canceled <==> !Lost(w.log, k) && !Won(w.log, k, w.workers[k].task))
  {
    RunKeepsOutcomes(blankDir, pg, dir, es);
    var w := Run(Initial(blankDir, pg, dir), es).value;
    assert StandOk(w.log, k, w.workers[k]) && VerdictOk(w.log, w.machine.store.jobs, k, w.workers[k]);
  }

  /** In whatever interleaving, the moment the start after a restore succeeds PostgreSQL is up on
      the requested backup, its configuration followed by the lines of the request. */
  lemma StartReachesGoal(w: World, k: nat, env: Env)
    requires Safe(w) && CanStep(w, k, env) && Executing(w.workers[k]) == Some(StartPg) && env.outcome == Good
    ensures var w', t := StepWorker(w, k, env), w.workers[k].task;
            t.Restore? && w'.pg == Up && Configured(w'.dir, t.name, t.target) && w'.holder == Some(k)
  {
    StartsOnlyWhenReady(w, k);
  }

  /** Past its last command: failed, canceled, or finished. */
  predicate Past(wk: Worker) {
    wk.phase.Failing? || wk.phase.Cancelling? || wk.phase.Releasing? || wk.phase.Done?
  }

  lemma PastStays(w: World, e: Event, k: nat)
    requires Numbered(w.machine.counter, w.machine.pending, w.machine.inserted, w.workers) && Enabled(w, e)
    requires k in w.workers && Past(w.workers[k])
    ensures k in Next(w, e).workers && Past(Next(w, e).workers[k])
    ensures w.log <= Next(w, e).log
    ensures forall i | |w.log| <= i < |Next(w, e).log| :: Next(w, e).log[i].worker != k
  {
    if e.Spawn? {
      SpawnIsNew(w.machine, w.workers);
    }
  }

  /** After a failed command no later command of that backup or restore ends, in any continuation
      of any run: all that is left is the report and the unlock. */
  lemma {:induction false} NoMoreCommands(w: World, es: seq<Event>, k: nat)
    requires Safe(w) && Run(w, es).Some? && k in w.workers && Past(w.workers[k])
    ensures var w' := Run(w, es).value;
            && k in w'.workers && Past(w'.workers[k]) && w.log <= w'.log
            && forall i | |w.log| <= i < |w'.log| :: w'.log[i].worker != k
  {
    if es == [] {
    } else {
      var front := es[..|es| - 1];
      NoMoreCommands(w, front, k);
      StaysSafe(w, front);
      PastStays(Run(w, front).value, es[|es| - 1], k);
    }
  }
}
