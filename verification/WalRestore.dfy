/** What a restore achieves when its commands succeed, and when one of them fails. */
module WalRestore {
  import opened Wrappers
  import J = JobSpec
  import opened RecoveryConf
  import opened WalProtocol
  import opened WalSafety
  import opened WalProgress

  /** Worker k of w' is the restore it was in w, running, at operation n. */
  ghost predicate StandsAt(w: World, w': World, k: nat, n: nat) {
    && k in w.workers && k in w'.workers && w'.blankDir == w.blankDir
    && Restoring(w'.workers[k]) && w'.workers[k].pc == n
    && w'.workers[k].task == w.workers[k].task && w'.workers[k].jobId == w.workers[k].jobId
  }

  /** From the fetch on the directory comes from the requested backup, as it brought it. */
  predicate ComesFrom(dir: Dir, t: Task, n: nat, conf: string) {
    n >= 7 ==> t.Restore? && dir.source == Fetched(t.name, conf)
  }

  lemma SourceStays(dir: Dir, wk: Worker, env: Env)
    requires Restoring(wk) && wk.pc < 13 && env.outcome == Good && ComesFrom(dir, wk.task, wk.pc, env.dir.conf)
    ensures ComesFrom(DirAfter(dir, wk.task, Executing(wk), env), wk.task, wk.pc + 1, env.dir.conf)
  {
    RestoreProgram(wk);
  }

  /** A successful operation leads to the next one. */
  lemma GoodStep(w: World, w': World, k: nat, n: nat, env: Env)
    requires StandsAt(w, w', k, n) && n < 13 && env.outcome == Good && !w.blankDir
    requires ComesFrom(w'.dir, w.workers[k].task, n, env.dir.conf)
    ensures CanStep(w', k, env) && StandsAt(w, StepWorker(w', k, env), k, n + 1)
    ensures ComesFrom(StepWorker(w', k, env).dir, w.workers[k].task, n + 1, env.dir.conf)
  {
    SourceStays(w'.dir, w'.workers[k], env);
    RestoreProgram(w'.workers[k]);
    AdvanceShape(w'.workers[k], env);
  }

  lemma OneMore(w: World, front: seq<Event>, k: nat, n: nat, env: Env)
    requires Run(w, front).Some? && OnlySteps(front, k) && StandsAt(w, Run(w, front).value, k, n)
    requires n < 13 && env.outcome == Good && !w.blankDir
    requires ComesFrom(Run(w, front).value.dir, w.workers[k].task, n, env.dir.conf)
    ensures Run(w, front + [Step(k, env)]).Some? && OnlySteps(front + [Step(k, env)], k)
    ensures StandsAt(w, Run(w, front + [Step(k, env)]).value, k, n + 1)
    ensures ComesFrom(Run(w, front + [Step(k, env)]).value.dir, w.workers[k].task, n + 1, env.dir.conf)
  {
    GoodStep(w, Run(w, front).value, k, n, env);
    RunMore(w, front, Step(k, env));
    OnlyMore(front, k, env);
  }

  lemma {:induction false} GoodSteps(w: World, k: nat, n: nat, env: Env) returns (es: seq<Event>)
    requires StandsAt(w, w, k, 0) && n <= 13 && env.outcome == Good && !w.blankDir
    ensures Run(w, es).Some? && OnlySteps(es, k) && StandsAt(w, Run(w, es).value, k, n)
    ensures ComesFrom(Run(w, es).value.dir, w.workers[k].task, n, env.dir.conf)
  {
    es := [];
    if n == 0 {
    } else {
      var front := GoodSteps(w, k, n - 1, env);
      OneMore(w, front, k, n - 1, env);
      es := front + [Step(k, env)];
    }
  }

  /** The goal of a restore: PostgreSQL runs on the requested backup with the recovery signal,
      its configuration followed by the lines of the request. */
  predicate Restored(pg: Pg, dir: Dir, t: Task) {
    t.Restore? && pg == Up && Configured(dir, t.name, t.target)
  }

  /** The start leaves the directory as it found it. */
  lemma StartEffect(pg: Pg, dir: Dir, wk: Worker, env: Env)
    requires Restoring(wk) && wk.pc == 12 && ReadyAt(pg, dir, wk) && env.outcome == Good
    ensures Restored(PgAfter(pg, Executing(wk), env), DirAfter(dir, wk.task, Executing(wk), env), wk.task)
  {
    RestoreProgram(wk);
  }

  lemma StartRestores(w: World, w': World, k: nat, env: Env)
    requires Safe(w') && StandsAt(w, w', k, 12) && env.outcome == Good && CanStep(w', k, env)
    ensures Restored(StepWorker(w', k, env).pg, StepWorker(w', k, env).dir, w.workers[k].task)
  {
    assert ReadyAt(w'.pg, w'.dir, w'.workers[k]);
    StartEffect(w'.pg, w'.dir, w'.workers[k], env);
  }

  // ---------------------------------------------------------------- the last two steps

  function FinalStatus(wk: Worker): J.Status {
    if wk.phase.Failing? then J.Failed else if wk.phase.Cancelling? then J.Canceled else J.Succeeded
  }

  predicate SaysIfStored(jobs: map<string, J.Job>, id: string, status: J.Status) {
    id in jobs ==> jobs[id].info.status == status
  }

  lemma FinishSays(m: J.Machine, wk: Worker, env: Env)
    ensures SaysIfStored(J.Next(m, FinishCall(wk, env)).store.jobs, wk.jobId, FinalStatus(wk))
  {
  }

  /** The last call touches neither PostgreSQL nor the directory. */
  lemma ReportStep(w: World, k: nat, env: Env) returns (w': World)
    requires k in w.workers && AboutToFinish(w.workers[k]) && w.workers[k].task.Restore?
    ensures CanStep(w, k, env) && w' == StepWorker(w, k, env)
    ensures w'.pg == w.pg && w'.dir == w.dir && k in w'.workers
    ensures w'.workers[k] == w.workers[k].(phase := Releasing, finishes := w.workers[k].finishes + 1)
    ensures SaysIfStored(w'.machine.store.jobs, w.workers[k].jobId, FinalStatus(w.workers[k]))
  {
    FinishSays(w.machine, w.workers[k], env);
    w' := StepWorker(w, k, env);
  }

  lemma UnlockStep(w: World, k: nat, env: Env) returns (w': World)
    requires k in w.workers && w.workers[k].phase.Releasing? && w.workers[k].task.Restore?
    ensures CanStep(w, k, env) && w' == StepWorker(w, k, env)
    ensures w'.pg == w.pg && w'.dir == w.dir && w'.machine == w.machine && w'.holder == None
    ensures k in w'.workers && w'.workers[k].phase.Done? && w'.workers[k].task == w.workers[k].task
  {
    w' := StepWorker(w, k, env);
  }

  /** The end of a restore: reported, unlocked, and PostgreSQL and the directory as they were. */
  ghost predicate EndsAs(w: World, end: World, k: nat, status: J.Status) {
    && k in w.workers && k in end.workers && end.workers[k].phase.Done? && end.holder == None
    && end.pg == w.pg && end.dir == w.dir && end.workers[k].task == w.workers[k].task
    && SaysIfStored(end.machine.store.jobs, w.workers[k].jobId, status)
  }

  lemma LastSteps(w: World, es: seq<Event>, k: nat, env: Env) returns (es': seq<Event>)
    requires Run(w, es).Some? && OnlySteps(es, k)
    requires var w' := Run(w, es).value; k in w'.workers && AboutToFinish(w'.workers[k]) && w'.workers[k].task.Restore?
    ensures |es'| == |es| + 2 && Run(w, es').Some? && OnlySteps(es', k)
    ensures EndsAs(Run(w, es).value, Run(w, es').value, k, FinalStatus(Run(w, es).value.workers[k]))
  {
    var e := Step(k, env);
    var w1 := ReportStep(Run(w, es).value, k, env);
    RunMore(w, es, e);
    OnlyMore(es, k, env);
    var w2 := UnlockStep(w1, k, env);
    RunMore(w, es + [e], e);
    OnlyMore(es + [e], k, env);
    es' := es + [e] + [e];
  }

  /** The restore of worker k in w is done in `end`: its goal reached with the configuration `conf`
      that the backup brought, the mutex free, the job, unless evicted, succeeded. */
  ghost predicate Achieved(w: World, end: World, k: nat, conf: string) {
    && k in w.workers && k in end.workers && end.workers[k].phase.Done? && end.holder == None
    && end.workers[k].task == w.workers[k].task
    && Restored(end.pg, end.dir, w.workers[k].task) && end.dir.source.conf == conf
    && SaysIfStored(end.machine.store.jobs, w.workers[k].jobId, J.Succeeded)
  }

  /** From every safe world in which a restore has just taken the mutex, with PostgreSQL and the
      directory in any state: when its commands succeed it reaches its goal, frees the mutex, and
      its job, unless evicted, has succeeded. */
  lemma RestoreSucceeds(w: World, k: nat, env: Env) returns (es: seq<Event>)
    requires Safe(w) && StandsAt(w, w, k, 0) && env.outcome == Good && !w.blankDir
    ensures Run(w, es).Some? && OnlySteps(es, k)
    ensures Achieved(w, Run(w, es).value, k, env.dir.conf)
  {
    var started := RestoreStarts(w, k, env);
    RestoreProgram(Run(w, started).value.workers[k]);
    es := LastSteps(w, started, k, env);
  }

  lemma RestoreStarts(w: World, k: nat, env: Env) returns (es: seq<Event>)
    requires Safe(w) && StandsAt(w, w, k, 0) && env.outcome == Good && !w.blankDir
    ensures Run(w, es).Some? && OnlySteps(es, k) && StandsAt(w, Run(w, es).value, k, 13)
    ensures Restored(Run(w, es).value.pg, Run(w, es).value.dir, w.workers[k].task)
    ensures Run(w, es).value.dir.source.conf == env.dir.conf
  {
    var front := GoodSteps(w, k, 12, env);
    GoodStep(w, Run(w, front).value, k, 12, env);
    StaysSafe(w, front);
    StartRestores(w, Run(w, front).value, k, env);
    RunMore(w, front, Step(k, env));
    OnlyMore(front, k, env);
    es := front + [Step(k, env)];
  }

  /** When a command of a restore fails, nothing is left of it but to report the failure and to
      unlock: no later command of it runs, PostgreSQL and the directory stay as the failed command
      left them, and its job, unless evicted, has failed. */
  lemma FailureEndsRestore(w: World, k: nat, bad: Env, env: Env) returns (es: seq<Event>)
    requires k in w.workers && Restoring(w.workers[k]) && Executing(w.workers[k]).Some?
    requires CanStep(w, k, bad) && bad.outcome == Bad
    ensures |es| == 2 && Run(StepWorker(w, k, bad), es).Some? && OnlySteps(es, k)
    ensures EndsAs(StepWorker(w, k, bad), Run(StepWorker(w, k, bad), es).value, k, J.Failed)
  {
    var w1 := StepWorker(w, k, bad);
    FailedCommand(w.workers[k], bad);
    es := LastSteps(w1, [], k, env);
  }

  lemma FailedCommand(wk: Worker, bad: Env)
    requires Restoring(wk) && Executing(wk).Some? && bad.outcome == Bad
    ensures Advance(wk, bad).phase.Failing? && Advance(wk, bad).task == wk.task
  {
    RestoreProgram(wk);
  }

  lemma EntersTable(w: World, k: nat, env: Env) returns (w': World)
    requires k in w.workers && w.workers[k].phase.Starting? && w.workers[k].task.Restore? && k in w.machine.pending
    ensures CanStep(w, k, env) && w' == StepWorker(w, k, env)
    ensures k in w'.workers && w'.workers[k] == w.workers[k].(phase := Waiting)
    ensures w'.holder == w.holder && w'.pg == w.pg && w'.dir == w.dir && w'.blankDir == w.blankDir
  {
    w' := StepWorker(w, k, env);
  }

  lemma TakesMutex(w: World, k: nat, env: Env) returns (w': World)
    requires k in w.workers && w.workers[k].phase.Waiting? && w.workers[k].task.Restore? && w.holder == None
    ensures CanStep(w, k, env) && w' == StepWorker(w, k, env)
    ensures k in w'.workers && w'.workers[k] == w.workers[k].(phase := Running)
    ensures w'.pg == w.pg && w'.dir == w.dir && w'.blankDir == w.blankDir
  {
    w' := StepWorker(w, k, env);
  }

  /** While the mutex is free, a requested restore can get to where `RestoreSucceeds` begins. */
  lemma RestoreCanStart(w0: World, name: string, target: string, now: int, env: Env)
    returns (es: seq<Event>, w: World, k: nat)
    requires Safe(w0) && w0.holder == None && TaskOk(Restore(name, target))
    ensures Run(w0, es) == Some(w)
    ensures Safe(w) && StandsAt(w, w, k, 0) && w.workers[k].task == Restore(name, target)
    ensures w.blankDir == w0.blankDir && w.pg == w0.pg && w.dir == w0.dir
  {
    k := w0.machine.counter + 1;
    var spawn, e := Spawn(Restore(name, target), now), Step(k, env);
    RunMore(w0, [], spawn);
    var w1 := Next(w0, spawn);
    var w2 := EntersTable(w1, k, env);
    RunMore(w0, [] + [spawn], e);
    w := TakesMutex(w2, k, env);
    RunMore(w0, [] + [spawn] + [e], e);
    es := [] + [spawn] + [e] + [e];
    StaysSafe(w0, es);
  }

  /** A whole restore, from the request to the unlock. */
  lemma WholeRestore(w0: World, name: string, target: string, now: int, env: Env)
    returns (es: seq<Event>, w: World, k: nat)
    requires Safe(w0) && w0.holder == None && !w0.blankDir && TaskOk(Restore(name, target)) && env.outcome == Good
    ensures Run(w0, es) == Some(w) && Safe(w) && w.holder == None && !w.blankDir
    ensures k in w.workers && w.workers[k].task == Restore(name, target) && w.workers[k].phase.Done?
    ensures Restored(w.pg, w.dir, Restore(name, target)) && w.dir.source.conf == env.dir.conf
  {
    var es1, w1, k1 := RestoreCanStart(w0, name, target, now, env);
    var es2 := RestoreSucceeds(w1, k1, env);
    RunAppend(w0, es1, es2);
    es, w, k := es1 + es2, Run(w1, es2).value, k1;
    StaysSafe(w0, es);
    NeverBlank(w1, es2);
  }

  /** A restore to a target time, then a restore without one of a backup taken after it, which
      brings the configuration as the first restore left it: PostgreSQL is started with the old
      target time in force. */
  lemma OldTargetSurvives(w0: World, first: string, second: string, target: string, now: int, env: Env)
    returns (es: seq<Event>, w: World, k: nat)
    requires Safe(w0) && w0.holder == None && !w0.blankDir && env.outcome == Good
    requires first != "" && second != "" && target != "" && PlainText(target)
    ensures Run(w0, es) == Some(w) && k in w.workers
    ensures w.workers[k].task == Restore(second, "") && w.workers[k].phase.Done? && w.pg == Up
    ensures TimeInForce(w.dir.conf) == target != ""
  {
    var es1, w1, k1 := WholeRestore(w0, first, target, now, env);
    var es2, w2, k2 := WholeRestore(w1, second, "", now, env.(dir := w1.dir));
    RunAppend(w0, es1, es2);
    es, w, k := es1 + es2, w2, k2;
    OldTargetStays(env.dir.conf, target);
  }
}
