/** The commands of backups and restores, in the order in which they end: one undisturbed
    block per worker, each block a first part of that worker's program. */
module WalTrace {
  import opened Wrappers
  import opened WalProtocol
  import opened WalSafety

  /** The commands of a program, in order. */
  function Cmds(p: seq<Op>): seq<Command> {
    if p == [] then []
    else Cmds(p[..|p| - 1]) + (if p[|p| - 1].Do? then [p[|p| - 1].cmd] else [])
  }

  lemma CmdsStep(p: seq<Op>, pc: nat)
    requires pc < |p|
    ensures Cmds(p[..pc + 1]) == Cmds(p[..pc]) + (if p[pc].Do? then [p[pc].cmd] else [])
  {
    assert p[..pc + 1][..pc] == p[..pc];
  }

  lemma {:induction false} CmdsPrefix(p: seq<Op>, pc: nat)
    requires pc <= |p|
    ensures Cmds(p[..pc]) <= Cmds(p)
    decreases |p|
  {
    if pc < |p| {
      CmdsPrefix(p[..|p| - 1], pc);
      assert p[..|p| - 1][..pc] == p[..pc];
    } else {
      assert p[..pc] == p;
    }
  }

  /** The worker went on after this command. */
  predicate Passed(act: Act) {
    act.outcome == Good || act.cmd == Prune
  }

  /** The entries just before position `end` are these commands of worker k, all passed. */
  ghost predicate BlockBefore(log: seq<Act>, end: int, k: nat, cmds: seq<Command>) {
    && |cmds| <= end <= |log|
    && forall j | end - |cmds| <= j < end ::
         log[j].worker == k && log[j].cmd == cmds[j - (end - |cmds|)] && Passed(log[j])
  }

  ghost predicate NoneBefore(log: seq<Act>, end: int, k: nat) {
    forall i | 0 <= i < end && i < |log| :: log[i].worker != k
  }

  /** All entries of a worker stand next to each other. */
  ghost predicate Contiguous(log: seq<Act>) {
    forall i, j, l | 0 <= i < j < l < |log| && log[i].worker == log[l].worker :: log[j].worker == log[l].worker
  }

  /** The entry is the n-th command of its worker's program, and the earlier ones, all passed,
      stand immediately before it. */
  ghost predicate JustifiedAt(log: seq<Act>, i: int, cmds: seq<Command>, n: int) {
    0 <= i < |log| && 0 <= n < |cmds| && cmds[n] == log[i].cmd && BlockBefore(log, i, log[i].worker, cmds[..n])
  }

  ghost predicate Justified(log: seq<Act>, i: int, cmds: seq<Command>) {
    exists n :: JustifiedAt(log, i, cmds, n)
  }

  /** How far a worker has come and what it left in the log so far. */
  ghost predicate TraceOk(log: seq<Act>, k: nat, wk: Worker) {
    && (wk.phase.Starting? || wk.phase.Waiting? ==> NoneBefore(log, |log|, k))
    && (InSection(wk) && wk.phase.Running? && wk.pc <= |Program(wk.task)| ==>
          var done := Cmds(Program(wk.task)[..wk.pc]);
          BlockBefore(log, |log|, k, done) && NoneBefore(log, |log| - |done|, k))
  }

  ghost predicate EntriesOk(log: seq<Act>, workers: map<nat, Worker>) {
    forall i | 0 <= i < |log| ::
      log[i].worker in workers && Justified(log, i, Cmds(Program(workers[log[i].worker].task)))
  }

  ghost predicate TraceInv(log: seq<Act>, workers: map<nat, Worker>) {
    && Contiguous(log)
    && EntriesOk(log, workers)
    && (forall k | k in workers :: TraceOk(log, k, workers[k]))
  }

  // ---------------------------------------------------------------- appending

  lemma BlockGrows(log: seq<Act>, k: nat, cmds: seq<Command>, act: Act)
    requires BlockBefore(log, |log|, k, cmds) && act.worker == k && Passed(act)
    ensures BlockBefore(log + [act], |log| + 1, k, cmds + [act.cmd])
  {
  }

  lemma BlockStays(log: seq<Act>, end: int, k: nat, cmds: seq<Command>, act: Act)
    requires BlockBefore(log, end, k, cmds)
    ensures BlockBefore(log + [act], end, k, cmds)
  {
  }

  lemma JustifiedStays(log: seq<Act>, i: int, cmds: seq<Command>, act: Act)
    requires Justified(log, i, cmds)
    ensures Justified(log + [act], i, cmds)
  {
    var n :| JustifiedAt(log, i, cmds, n);
    BlockStays(log, i, log[i].worker, cmds[..n], act);
    assert JustifiedAt(log + [act], i, cmds, n);
  }

  /** A new entry of a worker whose entries so far all stand at the end. */
  lemma ContiguousGrows(log: seq<Act>, k: nat, done: seq<Command>, act: Act)
    requires Contiguous(log) && BlockBefore(log, |log|, k, done) && NoneBefore(log, |log| - |done|, k)
             && act.worker == k
    ensures Contiguous(log + [act])
  {
    var log' := log + [act];
    forall i, j, l | 0 <= i < j < l < |log'| && log'[i].worker == log'[l].worker
      ensures log'[j].worker == log'[l].worker
    {
      if l == |log| {
        assert i >= |log| - |done|;
        assert log'[j] == log[j] && log'[i] == log[i];
      }
    }
  }

  /** The entry a running worker appends is the next command of its program. */
  lemma NewEntryJustified(log: seq<Act>, k: nat, wk: Worker, outcome: Outcome)
    requires Executing(wk).Some? && InSection(wk) && PcOk(wk) && TraceOk(log, k, wk)
    ensures Justified(log + [Act(k, Executing(wk).value, outcome)], |log|, Cmds(Program(wk.task)))
  {
    var p, act := Program(wk.task), Act(k, Executing(wk).value, outcome);
    var done := Cmds(p[..wk.pc]);
    CmdsStep(p, wk.pc);
    CmdsPrefix(p, wk.pc + 1);
    CmdsPrefix(p, wk.pc);
    assert Cmds(p)[..|done|] == done;
    BlockStays(log, |log|, k, done, act);
    assert JustifiedAt(log + [act], |log|, Cmds(p), |done|);
  }

  lemma OwnTraceAfterCommand(log: seq<Act>, k: nat, wk: Worker, env: Env)
    requires Executing(wk).Some? && InSection(wk) && PcOk(wk) && TraceOk(log, k, wk)
    ensures TraceOk(log + [Act(k, Executing(wk).value, env.outcome)], k, Advance(wk, env))
  {
    var p, act, wk' := Program(wk.task), Act(k, Executing(wk).value, env.outcome), Advance(wk, env);
    if wk'.phase.Running? {
      CmdsStep(p, wk.pc);
      assert Passed(act) && wk'.pc == wk.pc + 1;
      BlockGrows(log, k, Cmds(p[..wk.pc]), act);
    }
  }

  /** Steps that are not commands leave the log alone. */
  lemma OwnTraceOtherwise(log: seq<Act>, k: nat, wk: Worker, env: Env)
    requires Executing(wk).None? && !wk.phase.Done? && PcOk(wk) && TraceOk(log, k, wk)
    ensures TraceOk(log, k, Advance(wk, env))
  {
    var p := Program(wk.task);
    if wk.phase.Running? && wk.pc < |p| {
      CmdsStep(p, wk.pc);
    } else if Advance(wk, env).phase.Running? {
      assert p[..0] == [];
    }
  }

  lemma OtherTrace(log: seq<Act>, j: nat, wk: Worker, act: Act)
    requires TraceOk(log, j, wk) && act.worker != j && !InSection(wk)
    ensures TraceOk(log + [act], j, wk)
  {
  }

  // ---------------------------------------------------------------- steps and runs

  lemma EntriesGrow(log: seq<Act>, workers: map<nat, Worker>, act: Act)
    requires EntriesOk(log, workers) && act.worker in workers
    requires Justified(log + [act], |log|, Cmds(Program(workers[act.worker].task)))
    ensures EntriesOk(log + [act], workers)
  {
    var log' := log + [act];
    forall i | 0 <= i < |log|
      ensures log'[i].worker in workers && Justified(log', i, Cmds(Program(workers[log'[i].worker].task)))
    {
      assert log'[i] == log[i];
      JustifiedStays(log, i, Cmds(Program(workers[log[i].worker].task)), act);
    }
  }

  lemma CommandKeepsEntries(w: World, k: nat, env: Env)
    requires TraceInv(w.log, w.workers) && PcInv(w.workers) && CanStep(w, k, env)
    requires Executing(w.workers[k]).Some? && UsesMutex(w.workers[k].task)
    ensures EntriesOk(StepWorker(w, k, env).log, StepWorker(w, k, env).workers)
  {
    var wk := w.workers[k];
    assert TraceOk(w.log, k, wk) && PcOk(wk);
    AdvanceShape(wk, env);
    NewEntryJustified(w.log, k, wk, env.outcome);
    EntriesGrow(w.log, w.workers, Act(k, Executing(wk).value, env.outcome));
    EntriesKeepTasks(w.log + [Act(k, Executing(wk).value, env.outcome)], w.workers, k, Advance(wk, env));
  }

  lemma CommandKeepsTrace(w: World, k: nat, env: Env)
    requires TraceInv(w.log, w.workers) && MutexInv(w.workers, w.holder) && PcInv(w.workers) && CanStep(w, k, env)
    requires Executing(w.workers[k]).Some? && UsesMutex(w.workers[k].task)
    ensures TraceInv(StepWorker(w, k, env).log, StepWorker(w, k, env).workers)
  {
    var wk := w.workers[k];
    var act := Act(k, Executing(wk).value, env.outcome);
    assert TraceOk(w.log, k, wk) && PcOk(wk);
    CommandKeepsEntries(w, k, env);
    ContiguousGrows(w.log, k, Cmds(Program(wk.task)[..wk.pc]), act);
    OwnTraceAfterCommand(w.log, k, wk, env);
    forall j | j in w.workers && j != k ensures TraceOk(w.log + [act], j, w.workers[j]) {
      OtherTrace(w.log, j, w.workers[j], act);
    }
  }

  lemma EntriesKeepTasks(log: seq<Act>, workers: map<nat, Worker>, k: nat, wk: Worker)
    requires EntriesOk(log, workers) && (k in workers ==> wk.task == workers[k].task)
    ensures EntriesOk(log, workers[k := wk])
  {
  }

  lemma StepKeepsTrace(w: World, k: nat, env: Env)
    requires TraceInv(w.log, w.workers) && MutexInv(w.workers, w.holder) && PcInv(w.workers) && CanStep(w, k, env)
    ensures TraceInv(StepWorker(w, k, env).log, StepWorker(w, k, env).workers)
  {
    var wk := w.workers[k];
    if Executing(wk).Some? && UsesMutex(wk.task) {
      CommandKeepsTrace(w, k, env);
    } else {
      assert TraceOk(w.log, k, wk) && PcOk(wk);
      AdvanceShape(wk, env);
      EntriesKeepTasks(w.log, w.workers, k, Advance(wk, env));
      if Executing(wk).None? { OwnTraceOtherwise(w.log, k, wk, env); }
    }
  }

  lemma SpawnKeepsTrace(log: seq<Act>, workers: map<nat, Worker>, k: nat, task: Task, id: string)
    requires TraceInv(log, workers) && k !in workers
    ensures TraceInv(log, workers[k := NewWorker(task, id)])
  {
    EntriesKeepTasks(log, workers, k, NewWorker(task, id));
  }

  lemma NextKeepsTrace(w: World, e: Event)
    requires Safe(w) && TraceInv(w.log, w.workers) && Enabled(w, e)
    ensures TraceInv(Next(w, e).log, Next(w, e).workers)
  {
    match e
    case Spawn(task, now) =>
      SpawnIsNew(w.machine, w.workers);
      SpawnKeepsTrace(w.log, w.workers, w.machine.counter + 1, task, Next(w, e).workers[w.machine.counter + 1].jobId);
    case Step(k, env) => StepKeepsTrace(w, k, env);
    case Call(k, call) =>
    case Crash =>
    case Drift(dir) =>
  }

  lemma {:induction false} RunKeepsTrace(blankDir: bool, pg: Pg, dir: Dir, es: seq<Event>)
    requires Run(Initial(blankDir, pg, dir), es).Some?
    ensures var w := Run(Initial(blankDir, pg, dir), es).value; Safe(w) && TraceInv(w.log, w.workers)
  {
    RunIsSafe(blankDir, pg, dir, es);
    if es == [] {
    } else {
      RunKeepsTrace(blankDir, pg, dir, es[..|es| - 1]);
      NextKeepsTrace(Run(Initial(blankDir, pg, dir), es[..|es| - 1]).value, es[|es| - 1]);
    }
  }

  // ---------------------------------------------------------------- what it means

  const RESTORE_COMMANDS: seq<Command> :=
    [CheckDataDir, StopPg, CleanDir, FetchBackup, WriteSignal, OpenConf, WriteConf, StartPg]

  /** Appending one operation at a time. */
  lemma CmdsOf(p: seq<Op>, op: Op)
    ensures Cmds(p + [op]) == Cmds(p) + (if op.Do? then [op.cmd] else [])
  {
    assert (p + [op])[..|p + [op]| - 1] == p;
  }

  lemma {:induction false} CmdsAppend(p: seq<Op>, q: seq<Op>)
    ensures Cmds(p + q) == Cmds(p) + Cmds(q)
  {
    if q == [] {
      assert p + q == p;
    } else {
      CmdsAppend(p, q[..|q| - 1]);
      CmdsOf(p + q[..|q| - 1], q[|q| - 1]);
      assert p + q == (p + q[..|q| - 1]) + [q[|q| - 1]];
    }
  }

  lemma CmdsOfThree(a: Op, b: Op, c: Op)
    ensures Cmds([a, b, c]) == (if a.Do? then [a.cmd] else []) + (if b.Do? then [b.cmd] else [])
            + (if c.Do? then [c.cmd] else [])
  {
    CmdsOf([], a);
    CmdsOf([a], b);
    CmdsOf([a, b], c);
    assert [] + [a] == [a] && [a] + [b] == [a, b] && [a, b] + [c] == [a, b, c];
  }

  lemma RestoreCommands(t: Task)
    requires t.Restore?
    ensures Cmds(Program(t)) == RESTORE_COMMANDS
  {
    var p := Program(t);
    var a, b := [Do(CheckDataDir), Say, Do(StopPg)], [Say, Do(CleanDir), Say];
    var c, d := [Do(FetchBackup), Say, Do(WriteSignal)], [Do(OpenConf), Do(WriteConf), Say];
    var e := [Do(StartPg)];
    assert p == a + b + c + d + e;
    CmdsOfThree(a[0], a[1], a[2]);
    CmdsOfThree(b[0], b[1], b[2]);
    CmdsOfThree(c[0], c[1], c[2]);
    CmdsOfThree(d[0], d[1], d[2]);
    CmdsOf([], e[0]);
    CmdsAppend(a, b);
    CmdsAppend(a + b, c);
    CmdsAppend(a + b + c, d);
    CmdsAppend(a + b + c + d, e);
  }

  lemma {:induction false} CmdsComeFromProgram(p: seq<Op>, n: nat)
    requires n < |Cmds(p)|
    ensures exists i | 0 <= i < |p| :: p[i] == Do(Cmds(p)[n])
  {
    var front := p[..|p| - 1];
    if n < |Cmds(front)| {
      CmdsComeFromProgram(front, n);
      var i :| 0 <= i < |front| && front[i] == Do(Cmds(front)[n]);
      assert p[i] == Do(Cmds(p)[n]);
    } else {
      assert p[|p| - 1] == Do(Cmds(p)[n]);
    }
  }

  /** In every run, whenever a command of a restore ends, all earlier commands of that restore
      have succeeded, in order, and nothing of any other backup or restore came in between.
      For the start of PostgreSQL these are the guard, the stop, the clean, the fetch, the
      recovery signal and the recovery lines. */
  lemma RestoreIsUndisturbed(w: World, i: int) returns (n: nat)
    requires TraceInv(w.log, w.workers) && 0 <= i < |w.log|
    requires w.workers[w.log[i].worker].task.Restore?
    ensures n < 8 && n <= i && w.log[i].cmd == RESTORE_COMMANDS[n]
    ensures forall m | 0 <= m < n :: w.log[i - n + m] == Act(w.log[i].worker, RESTORE_COMMANDS[m], Good)
  {
    RestoreCommands(w.workers[w.log[i].worker].task);
    n := JustifiedPosition(w.log, i);
  }

  lemma JustifiedPosition(log: seq<Act>, i: int) returns (n: nat)
    requires Justified(log, i, RESTORE_COMMANDS)
    ensures n < 8 && n <= i < |log| && log[i].cmd == RESTORE_COMMANDS[n]
    ensures forall m | 0 <= m < n :: log[i - n + m] == Act(log[i].worker, RESTORE_COMMANDS[m], Good)
  {
    n :| JustifiedAt(log, i, RESTORE_COMMANDS, n);
    forall m | 0 <= m < n ensures log[i - n + m] == Act(log[i].worker, RESTORE_COMMANDS[m], Good) {
      var j := i - n + m;
      assert log[j].cmd == RESTORE_COMMANDS[..n][m];
    }
  }

  /** Only restores touch the cluster. */
  lemma ClusterCommandsAreRestores(w: World, i: int)
    requires TraceInv(w.log, w.workers) && 0 <= i < |w.log| && TouchesCluster(w.log[i].cmd)
    ensures w.workers[w.log[i].worker].task.Restore?
  {
    var t := w.workers[w.log[i].worker].task;
    var n :| JustifiedAt(w.log, i, Cmds(Program(t)), n);
    CmdsComeFromProgram(Program(t), n);
  }

  /** A start of PostgreSQL stands right behind the seven commands that have to precede it. */
  lemma StartFollowsAll(w: World, i: int)
    requires TraceInv(w.log, w.workers) && 0 <= i < |w.log| && w.log[i].cmd == StartPg
    ensures i >= 7
    ensures forall m | 0 <= m < 7 :: w.log[i - 7 + m] == Act(w.log[i].worker, RESTORE_COMMANDS[m], Good)
  {
    ClusterCommandsAreRestores(w, i);
    var n := RestoreIsUndisturbed(w, i);
    assert n == 7;
  }
}
