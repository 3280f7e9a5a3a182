/** Every worker finishes its job once, whatever happens around it. */
module WalJobs {
  import opened Wrappers
  import J = JobSpec
  import opened WalProtocol
  import opened WalSafety

  // ---------------------------------------------------------------- once

  /** Exactly the workers past their last call have finished their job, and exactly once. */
  predicate FinishedOnce(wk: Worker) {
    wk.task != Other ==> wk.finishes == if wk.phase.Releasing? || wk.phase.Done? then 1 else 0
  }

  lemma AdvanceFinishes(wk: Worker, env: Env)
    requires FinishedOnce(wk) && !wk.phase.Done?
    ensures FinishedOnce(Advance(wk, env))
    ensures Advance(wk, env).finishes == if AboutToFinish(wk) then wk.finishes + 1 else wk.finishes
  {
  }

  // ---------------------------------------------------------------- what the table says

  /** The stored job of a worker: running until the worker's last call, then terminal, with
      an artifact only after success. */
  predicate Reported(wk: Worker, job: J.Job) {
    && (wk.finishes == 0 ==> job.info.status == J.Running && job.artifact == None && job.finishedAt == None)
    && (wk.finishes > 0 ==>
          && job.info.status != J.Running && job.finishedAt.Some?
          && (job.artifact.Some? ==> job.info.status == J.Succeeded))
  }

  predicate JobOk(jobs: map<string, J.Job>, wk: Worker) {
    && FinishedOnce(wk)
    && (wk.task != Other && Started(wk) && wk.jobId in jobs ==> Reported(wk, jobs[wk.jobId]))
  }

  ghost predicate JobsInv(jobs: map<string, J.Job>, workers: map<nat, Worker>) {
    forall k | k in workers :: JobOk(jobs, workers[k])
  }

  /** Different workers have different jobs. */
  lemma JobsDiffer(m: J.Machine, workers: map<nat, Worker>, k: nat, j: nat)
    requires TicketInv(m, workers) && k in workers && j in workers && k != j
    ensures workers[k].jobId != workers[j].jobId
  {
    assert TicketOk(m.counter, m.pending, m.inserted, k, workers[k]);
    assert TicketOk(m.counter, m.pending, m.inserted, j, workers[j]);
  }

  /** An event about one job keeps what the table says about the jobs of other workers. */
  lemma OtherJobOk(m: J.Machine, e: J.Event, wk: Worker)
    requires J.Inv(m) && J.Enabled(m, e) && J.Subject(m, e) != Some(wk.jobId)
    requires JobOk(m.store.jobs, wk)
    ensures JobOk(J.Next(m, e).store.jobs, wk)
  {
    J.OthersUntouched(m, e, wk.jobId);
  }

  /** The call that a step makes is about the worker's own job. */
  lemma CallIsOwn(m: J.Machine, workers: map<nat, Worker>, k: nat, env: Env)
    requires TicketInv(m, workers) && k in workers && (workers[k].phase.Starting? ==> k in m.pending)
    requires TableCall(k, workers[k], env).Some?
    ensures J.Enabled(m, TableCall(k, workers[k], env).value)
    ensures J.Subject(m, TableCall(k, workers[k], env).value) == Some(workers[k].jobId)
  {
    assert TicketOk(m.counter, m.pending, m.inserted, k, workers[k]);
  }

  /** The last call of a worker makes its job terminal. */
  lemma FinishJobOk(m: J.Machine, wk: Worker, env: Env)
    requires JobOk(m.store.jobs, wk) && AboutToFinish(wk) && Started(wk)
    ensures JobOk(J.Next(m, FinishCall(wk, env)).store.jobs, Advance(wk, env))
  {
    AdvanceFinishes(wk, env);
  }

  /** A progress report leaves its job running. */
  lemma UpdateJobOk(m: J.Machine, wk: Worker, wk': Worker, message: string, now: int)
    requires JobOk(m.store.jobs, wk) && FinishedOnce(wk')
    requires wk'.task == wk.task && wk'.jobId == wk.jobId && wk'.finishes == wk.finishes && Started(wk) && Started(wk')
    ensures JobOk(m.store.jobs, wk')
    ensures JobOk(J.Next(m, J.DoUpdate(wk.jobId, message, "", now)).store.jobs, wk')
  {
  }

  /** The step's own worker: the job and the count of finishing calls move together. */
  lemma OwnJobOk(m: J.Machine, k: nat, wk: Worker, env: Env)
    requires JobOk(m.store.jobs, wk) && !wk.phase.Done? && Started(wk)
    ensures var call := TableCall(k, wk, env);
            JobOk(if call.Some? then J.Next(m, call.value).store.jobs else m.store.jobs, Advance(wk, env))
  {
    AdvanceFinishes(wk, env);
    AdvanceShape(wk, env);
    if AboutToFinish(wk) {
      FinishJobOk(m, wk, env);
    } else {
      UpdateJobOk(m, wk, Advance(wk, env), Progress(wk.task, wk.pc), env.now);
    }
  }

  lemma NewJobOk(m: J.Machine, k: nat, wk: Worker, env: Env)
    requires J.Inv(m) && JobOk(m.store.jobs, wk) && wk.phase.Starting? && k in m.pending && m.pending[k].id == wk.jobId
    ensures JobOk(J.Next(m, J.Commit(k, RequestOf(wk.task))).store.jobs, Advance(wk, env))
  {
    AdvanceFinishes(wk, env);
    J.CommitEnters(m, k, RequestOf(wk.task));
  }

  lemma StepKeepsJobs(w: World, k: nat, env: Env)
    requires TicketInv(w.machine, w.workers) && JobsInv(w.machine.store.jobs, w.workers) && CanStep(w, k, env)
    ensures JobsInv(StepWorker(w, k, env).machine.store.jobs, StepWorker(w, k, env).workers)
  {
    var wk, call, w' := w.workers[k], TableCall(k, w.workers[k], env), StepWorker(w, k, env);
    assert JobOk(w.machine.store.jobs, wk);
    if wk.phase.Starting? {
      assert TicketOk(w.machine.counter, w.machine.pending, w.machine.inserted, k, wk);
      NewJobOk(w.machine, k, wk, env);
    } else {
      OwnJobOk(w.machine, k, wk, env);
    }
    forall j | j in w.workers && j != k ensures JobOk(w'.machine.store.jobs, w.workers[j]) {
      assert JobOk(w.machine.store.jobs, w.workers[j]);
      if call.Some? {
        CallIsOwn(w.machine, w.workers, k, env);
        JobsDiffer(w.machine, w.workers, k, j);
        OtherJobOk(w.machine, call.value, w.workers[j]);
      }
    }
  }

  lemma CallKeepsJobs(w: World, k: nat, call: J.Event)
    requires TicketInv(w.machine, w.workers) && JobsInv(w.machine.store.jobs, w.workers) && Enabled(w, Call(k, call))
    ensures JobsInv(J.Next(w.machine, call).store.jobs, w.workers)
  {
    forall j | j in w.workers ensures JobOk(J.Next(w.machine, call).store.jobs, w.workers[j]) {
      assert JobOk(w.machine.store.jobs, w.workers[j]);
      if j != k {
        JobsDiffer(w.machine, w.workers, k, j);
        OtherJobOk(w.machine, call, w.workers[j]);
      }
    }
  }

  lemma NextKeepsJobs(w: World, e: Event)
    requires TicketInv(w.machine, w.workers) && JobsInv(w.machine.store.jobs, w.workers) && Enabled(w, e)
    ensures JobsInv(Next(w, e).machine.store.jobs, Next(w, e).workers)
  {
    match e
    case Spawn(task, now) =>
    case Step(k, env) => StepKeepsJobs(w, k, env);
    case Call(k, call) => CallKeepsJobs(w, k, call);
    case Crash =>
    case Drift(dir) =>
  }

  /** In every run, every backup, restore and verification has finished its job exactly once
      if it is past its last call and not at all before, and the table says so. */
  lemma {:induction false} RunReports(blankDir: bool, pg: Pg, dir: Dir, es: seq<Event>)
    requires Run(Initial(blankDir, pg, dir), es).Some?
    ensures var w := Run(Initial(blankDir, pg, dir), es).value;
            Safe(w) && JobsInv(w.machine.store.jobs, w.workers)
  {
    RunIsSafe(blankDir, pg, dir, es);
    if es == [] {
    } else {
      RunReports(blankDir, pg, dir, es[..|es| - 1]);
      NextKeepsJobs(Run(Initial(blankDir, pg, dir), es[..|es| - 1]).value, es[|es| - 1]);
    }
  }

  // ---------------------------------------------------------------- for ever

  /** The worker of this backup, restore or verification has finished its job. */
  predicate Settled(workers: map<nat, Worker>, k: nat, id: string) {
    k in workers && workers[k].task != Other && workers[k].finishes == 1 && workers[k].jobId == id
  }

  /** The job is as it was, or was evicted. */
  predicate SameOrGone(jobs: map<string, J.Job>, jobs': map<string, J.Job>, id: string) {
    id in jobs' ==> id in jobs && jobs'[id] == jobs[id]
  }

  lemma SettledStays(w: World, e: Event, k: nat, id: string)
    requires Numbered(w.machine.counter, w.machine.pending, w.machine.inserted, w.workers) && Enabled(w, e)
    requires Settled(w.workers, k, id) && FinishedOnce(w.workers[k])
    ensures Settled(Next(w, e).workers, k, id)
  {
    if e.Spawn? {
      SpawnIsNew(w.machine, w.workers);
    } else if e.Step? && e.worker == k {
      AdvanceShape(w.workers[k], e.env);
      AdvanceFinishes(w.workers[k], e.env);
    }
  }

  /** After its last call a worker does not touch the table. */
  lemma OwnStepIsSilent(m: J.Machine, wk: Worker, k: nat, env: Env)
    requires JobOk(m.store.jobs, wk) && wk.task != Other && wk.finishes == 1 && !wk.phase.Done?
    ensures TableCall(k, wk, env) == None
  {
  }

  /** Another part of the program reports on its own job only. */
  lemma CallSparesOthers(w: World, j: nat, call: J.Event, k: nat)
    requires TicketInv(w.machine, w.workers) && Enabled(w, Call(j, call)) && k in w.workers && j != k
    ensures SameOrGone(w.machine.store.jobs, J.Next(w.machine, call).store.jobs, w.workers[k].jobId)
  {
    JobsDiffer(w.machine, w.workers, j, k);
    J.OthersUntouched(w.machine, call, w.workers[k].jobId);
  }

  /** Nothing can happen any more to a finished job: it stays as it is or is evicted. */
  lemma FinishedStays(w: World, e: Event, k: nat, id: string)
    requires Safe(w) && JobsInv(w.machine.store.jobs, w.workers) && Enabled(w, e) && Settled(w.workers, k, id)
    ensures SameOrGone(w.machine.store.jobs, Next(w, e).machine.store.jobs, id)
  {
    match e
    case Spawn(task, now) =>
    case Step(j, env) =>
      if j == k {
        OwnStepIsSilent(w.machine, w.workers[k], k, env);
      } else {
        StepSparesOthers(w, j, env, k);
      }
    case Call(j, call) => CallSparesOthers(w, j, call, k);
    case Crash =>
    case Drift(dir) =>
  }

  /** A step of one worker leaves the job of another as it is, or evicts it. */
  lemma StepSparesOthers(w: World, j: nat, env: Env, k: nat)
    requires TicketInv(w.machine, w.workers) && CanStep(w, j, env) && k in w.workers && j != k
    ensures SameOrGone(w.machine.store.jobs, StepWorker(w, j, env).machine.store.jobs, w.workers[k].jobId)
  {
    if TableCall(j, w.workers[j], env).Some? {
      CallIsOwn(w.machine, w.workers, j, env);
      JobsDiffer(w.machine, w.workers, j, k);
      J.OthersUntouched(w.machine, TableCall(j, w.workers[j], env).value, w.workers[k].jobId);
    }
  }

  /** A terminal job never changes again, in any continuation of any run. */
  lemma {:induction false} TerminalForEver(w: World, es: seq<Event>, k: nat, id: string)
    requires Safe(w) && JobsInv(w.machine.store.jobs, w.workers) && Run(w, es).Some?
    requires Settled(w.workers, k, id)
    ensures var w' := Run(w, es).value;
            && Safe(w') && JobsInv(w'.machine.store.jobs, w'.workers) && Settled(w'.workers, k, id)
            && SameOrGone(w.machine.store.jobs, w'.machine.store.jobs, id)
  {
    if es == [] {
    } else {
      var e := es[|es| - 1];
      TerminalForEver(w, es[..|es| - 1], k, id);
      var before := Run(w, es[..|es| - 1]).value;
      NextKeepsSafe(before, e);
      NextKeepsJobs(before, e);
      assert JobOk(before.machine.store.jobs, before.workers[k]);
      SettledStays(before, e, k, id);
      FinishedStays(before, e, k, id);
    }
  }

  /** A call about a job that was evicted changes nothing. */
  lemma LateCallIsIgnored(m: J.Machine, call: J.Event)
    requires (call.DoUpdate? || call.DoFinish?) && call.id !in m.store.jobs
    ensures J.Next(m, call) == m
  {
  }

  lemma StartedStays(w: World, e: Event, k: nat)
    requires Numbered(w.machine.counter, w.machine.pending, w.machine.inserted, w.workers) && Enabled(w, e)
    requires k in w.workers && Started(w.workers[k])
    ensures k in Next(w, e).workers && Started(Next(w, e).workers[k])
    ensures Next(w, e).workers[k].jobId == w.workers[k].jobId
  {
    if e.Spawn? {
      SpawnIsNew(w.machine, w.workers);
    } else if e.Step? {
      AdvanceShape(w.workers[e.worker], e.env);
    }
  }

  lemma EvictedAtStep(w: World, j: nat, env: Env, id: string)
    requires TicketInv(w.machine, w.workers) && CanStep(w, j, env)
    requires id in w.machine.inserted && id !in w.machine.store.jobs
    ensures id !in StepWorker(w, j, env).machine.store.jobs
  {
    if TableCall(j, w.workers[j], env).Some? {
      CallIsOwn(w.machine, w.workers, j, env);
      J.EvictedStaysAway(w.machine, TableCall(j, w.workers[j], env).value, id);
    }
  }

  lemma EvictedAtEvent(w: World, e: Event, id: string)
    requires TicketInv(w.machine, w.workers) && Enabled(w, e)
    requires id in w.machine.inserted && id !in w.machine.store.jobs
    ensures id !in Next(w, e).machine.store.jobs
  {
    match e
    case Step(j, env) => EvictedAtStep(w, j, env, id);
    case Call(j, call) => J.EvictedStaysAway(w.machine, call, id);
    case _ =>
  }

  /** A job evicted while its worker still runs is gone for good: in no continuation of any run
      does it come back, whatever its worker goes on to report. */
  lemma {:induction false} EvictedStaysGone(w: World, es: seq<Event>, k: nat)
    requires Safe(w) && Run(w, es).Some? && k in w.workers && Started(w.workers[k])
    requires w.workers[k].jobId !in w.machine.store.jobs
    ensures var w' := Run(w, es).value;
            && k in w'.workers && Started(w'.workers[k]) && w'.workers[k].jobId == w.workers[k].jobId
            && w.workers[k].jobId !in w'.machine.store.jobs
  {
    if es == [] {
    } else {
      var front, e := es[..|es| - 1], es[|es| - 1];
      EvictedStaysGone(w, front, k);
      StaysSafe(w, front);
      var before := Run(w, front).value;
      assert TicketOk(before.machine.counter, before.machine.pending, before.machine.inserted, k, before.workers[k]);
      StartedStays(before, e, k);
      EvictedAtEvent(before, e, w.workers[k].jobId);
    }
  }
}
