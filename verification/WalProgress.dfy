/** Nobody waits for ever: workers come to their end in a bounded number of steps, and the mutex
    is let go on every path. */
module WalProgress {
  import opened Wrappers
  import opened WalProtocol
  import opened WalSafety

  /** How many steps a worker has left at most. */
  function Remaining(wk: Worker): nat
    requires PcOk(wk)
  {
    var n := |Program(wk.task)|;
    match wk.phase
    case Starting => n + 4
    case Waiting => n + 3
    case Running => n - wk.pc + 2
    case Failing(_, _) => 2
    case Cancelling => 2
    case Releasing => 1
    case Done => 0
  }

  predicate Busy(wk: Worker) {
    !wk.phase.Done? && !(wk.task == Other && wk.phase.Running?)
  }

  lemma StepsCountDown(wk: Worker, env: Env)
    requires PcOk(wk) && Busy(wk)
    ensures PcOk(Advance(wk, env)) && Remaining(Advance(wk, env)) < Remaining(wk)
  {
    AdvancePc(wk, env);
  }

  function OutcomeFor(blankDir: bool, cmd: Option<Command>): Outcome {
    if cmd == Some(CheckDataDir) && blankDir then Bad else Good
  }

  /** Nobody is ever stuck: while some worker has work left, some worker can take a step. */
  lemma NeverStuck(w: World, k: nat, env: Env) returns (j: nat, env': Env)
    requires Safe(w) && k in w.workers && Busy(w.workers[k])
    ensures CanStep(w, j, env') && Busy(w.workers[j])
  {
    j := if w.workers[k].phase.Waiting? && w.holder.Some? then w.holder.value else k;
    env' := env.(outcome := OutcomeFor(w.blankDir, Executing(w.workers[j])));
    assert TicketOk(w.machine.counter, w.machine.pending, w.machine.inserted, j, w.workers[j]);
  }

  // ---------------------------------------------------------------- any interleaving

  /** The steps of worker k in a run. */
  function StepsOf(es: seq<Event>, k: nat): nat {
    if es == [] then 0
    else StepsOf(es[..|es| - 1], k) + if es[|es| - 1].Step? && es[|es| - 1].worker == k then 1 else 0
  }

  /** Only its own steps change a worker, and each brings it closer to its end. */
  lemma EventCountsDown(w: World, e: Event, k: nat)
    requires TicketInv(w.machine, w.workers) && PcInv(w.workers) && k in w.workers && Enabled(w, e)
    ensures k in Next(w, e).workers && PcOk(w.workers[k])
    ensures if e.Step? && e.worker == k
            then PcOk(Next(w, e).workers[k]) && Remaining(Next(w, e).workers[k]) < Remaining(w.workers[k])
            else Next(w, e).workers[k] == w.workers[k]
  {
    if e.Spawn? {
      SpawnIsNew(w.machine, w.workers);
    } else if e.Step? && e.worker == k {
      StepsCountDown(w.workers[k], e.env);
    }
  }

  /** In every interleaving a worker takes at most as many steps as it has left. */
  lemma {:induction false} StepsAreBounded(w: World, es: seq<Event>, k: nat)
    requires Safe(w) && k in w.workers && Run(w, es).Some?
    ensures k in Run(w, es).value.workers && PcOk(w.workers[k]) && PcOk(Run(w, es).value.workers[k])
    ensures Remaining(Run(w, es).value.workers[k]) + StepsOf(es, k) <= Remaining(w.workers[k])
  {
    if es == [] {
    } else {
      var front := es[..|es| - 1];
      StepsAreBounded(w, front, k);
      StaysSafe(w, front);
      EventCountsDown(Run(w, front).value, es[|es| - 1], k);
    }
  }

  /** The holder keeps the mutex, whatever anybody does, until it is done. */
  predicate HeldOrDone(workers: map<nat, Worker>, holder: Option<nat>, k: nat) {
    k in workers && UsesMutex(workers[k].task) && (holder == Some(k) <==> !workers[k].phase.Done?)
    && (InSection(workers[k]) || workers[k].phase.Done?)
  }

  lemma OwnStepHolds(w: World, k: nat, env: Env)
    requires HeldOrDone(w.workers, w.holder, k) && CanStep(w, k, env)
    ensures HeldOrDone(StepWorker(w, k, env).workers, StepWorker(w, k, env).holder, k)
    ensures StepWorker(w, k, env).workers[k].phase.Done? <==> w.workers[k].phase.Releasing?
    ensures StepWorker(w, k, env).workers[k].phase.Done? ==> StepWorker(w, k, env).holder == None
  {
    AdvanceShape(w.workers[k], env);
    AdvanceSection(w.workers[k], env);
  }

  lemma OtherStepHolds(w: World, j: nat, env: Env, k: nat)
    requires MutexInv(w.workers, w.holder) && HeldOrDone(w.workers, w.holder, k) && CanStep(w, j, env) && j != k
    ensures HeldOrDone(StepWorker(w, j, env).workers, StepWorker(w, j, env).holder, k)
  {
    if w.workers[j].phase.Releasing? && UsesMutex(w.workers[j].task) {
      assert InSection(w.workers[j]);
    }
  }

  lemma EventHolds(w: World, e: Event, k: nat)
    requires Safe(w) && Enabled(w, e) && HeldOrDone(w.workers, w.holder, k)
    ensures HeldOrDone(Next(w, e).workers, Next(w, e).holder, k)
  {
    if e.Spawn? {
      SpawnIsNew(w.machine, w.workers);
    } else if e.Step? && e.worker == k {
      OwnStepHolds(w, k, e.env);
    } else if e.Step? {
      OtherStepHolds(w, e.worker, e.env, k);
    }
  }

  /** In every interleaving the worker that has the mutex keeps it until its own unlock. */
  lemma {:induction false} HeldUntilUnlock(w: World, es: seq<Event>, k: nat)
    requires Safe(w) && w.holder == Some(k) && Run(w, es).Some?
    ensures HeldOrDone(Run(w, es).value.workers, Run(w, es).value.holder, k)
  {
    if es == [] {
      assert InSection(w.workers[k]);
    } else {
      HeldUntilUnlock(w, es[..|es| - 1], k);
      StaysSafe(w, es[..|es| - 1]);
      EventHolds(Run(w, es[..|es| - 1]).value, es[|es| - 1], k);
    }
  }

  // ---------------------------------------------------------------- every outcome

  predicate OnlySteps(es: seq<Event>, k: nat) {
    forall i | 0 <= i < |es| :: es[i].Step? && es[i].worker == k
  }

  lemma OnlyMore(es: seq<Event>, k: nat, env: Env)
    requires OnlySteps(es, k)
    ensures OnlySteps(es + [Step(k, env)], k)
  {
  }

  lemma {:induction false} OnlyCounts(es: seq<Event>, k: nat)
    requires OnlySteps(es, k)
    ensures StepsOf(es, k) == |es|
  {
    if es == [] {
    } else {
      OnlyCounts(es[..|es| - 1], k);
    }
  }

  /** What decides the outcomes: for the n-th step of the holder, and the command that it runs
      then, the contribution of the surroundings. */
  type Fate = (nat, Option<Command>) -> Env

  ghost predicate Fair(fate: Fate, blankDir: bool) {
    forall n: nat, cmd: Command :: Possible(blankDir, cmd, fate(n, Some(cmd)).outcome)
  }

  /** es are the next steps of worker k as this fate decides them. */
  ghost predicate Follows(w: World, es: seq<Event>, k: nat, fate: Fate)
    decreases |es|
  {
    es == []
    || (var front := es[..|es| - 1];
        && Follows(w, front, k, fate)
        && Run(w, front).Some? && k in Run(w, front).value.workers
        && es[|es| - 1] == Step(k, fate(|front|, Executing(Run(w, front).value.workers[k]))))
  }

  /** Whatever its command comes to, the holder can take the step. */
  lemma HolderCanStep(w: World, k: nat, env: Env)
    requires Safe(w) && w.holder == Some(k)
    requires k in w.workers && Executing(w.workers[k]).Some? ==>
               Possible(w.blankDir, Executing(w.workers[k]).value, env.outcome)
    ensures CanStep(w, k, env)
  {
    assert InSection(w.workers[k]);
  }

  /** One more step of the holder, as fate decides it. */
  lemma FateStep(w: World, front: seq<Event>, k: nat, fate: Fate) returns (es: seq<Event>)
    requires Safe(w) && w.holder == Some(k) && Fair(fate, w.blankDir)
    requires Run(w, front).Some? && Run(w, front).value.holder == Some(k)
    requires OnlySteps(front, k) && Follows(w, front, k, fate)
    ensures |es| == |front| + 1 && Run(w, es).Some? && OnlySteps(es, k) && Follows(w, es, k, fate)
  {
    var w' := Run(w, front).value;
    StaysSafe(w, front);
    NeverBlank(w, front);
    StepsAreBounded(w, front, k);
    var env := fate(|front|, Executing(w'.workers[k]));
    HolderCanStep(w', k, env);
    RunMore(w, front, Step(k, env));
    OnlyMore(front, k, env);
    es := front + [Step(k, env)];
    assert es[..|es| - 1] == front;
  }

  lemma {:induction false} NeverBlank(w: World, es: seq<Event>)
    requires Run(w, es).Some?
    ensures Run(w, es).value.blankDir == w.blankDir
  {
    if es == [] {
    } else {
      NeverBlank(w, es[..|es| - 1]);
    }
  }

  /** n steps, or fewer when the mutex is let go before. */
  lemma {:induction false} FateSteps(w: World, k: nat, fate: Fate, n: nat) returns (es: seq<Event>)
    requires Safe(w) && w.holder == Some(k) && Fair(fate, w.blankDir)
    ensures |es| <= n && Run(w, es).Some? && OnlySteps(es, k) && Follows(w, es, k, fate)
    ensures Run(w, es).value.holder == Some(k) ==> |es| == n
  {
    es := [];
    if n == 0 {
    } else {
      es := FateSteps(w, k, fate, n - 1);
      if Run(w, es).value.holder == Some(k) {
        es := FateStep(w, es, k, fate);
      }
    }
  }

  lemma NobodyHolds(w: World, es: seq<Event>, k: nat)
    requires Safe(w) && w.holder == Some(k) && Run(w, es).Some? && OnlySteps(es, k)
    requires Run(w, es).value.holder != Some(k)
    ensures Run(w, es).value.holder == None
  {
    var front := es[..|es| - 1];
    if Run(w, front).value.holder == Some(k) {
      HeldUntilUnlock(w, front, k);
      OwnStepHolds(Run(w, front).value, k, es[|es| - 1].env);
      HeldUntilUnlock(w, es, k);
    } else {
      HeldUntilUnlock(w, front, k);
      assert false;
    }
  }

  /** Every path frees the mutex. However the commands of the holder come out, its own steps are
      always possible, follow each other, and after at most as many as it has left the mutex is free. */
  lemma MutexIsFreed(w: World, k: nat, fate: Fate) returns (es: seq<Event>)
    requires Safe(w) && w.holder == Some(k) && Fair(fate, w.blankDir)
    ensures k in w.workers && PcOk(w.workers[k]) && |es| <= Remaining(w.workers[k])
    ensures Run(w, es).Some? && OnlySteps(es, k) && Follows(w, es, k, fate)
    ensures Run(w, es).value.holder == None
  {
    assert PcOk(w.workers[k]);
    es := FateSteps(w, k, fate, Remaining(w.workers[k]));
    StepsAreBounded(w, es, k);
    OnlyCounts(es, k);
    HeldUntilUnlock(w, es, k);
    NobodyHolds(w, es, k);
  }
}
