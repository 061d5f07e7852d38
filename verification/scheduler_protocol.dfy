/** The running build scheduler as a transition system. The goroutines are the main one,
    which seeds the ready queue and later shuts down, a pool of workers, and one collector.
    Every event is one critical section or channel operation of one goroutine. */
module SchedulerProtocol {
  import opened Wrappers
  import opened Digraph
  import opened Kahn
  import opened TaskGraph

  datatype FailureMode = StopOnFailure | ContinueOnFailure

  /** What is fixed while the scheduler runs. */
  datatype Config = Config(deps: map<TaskId, seq<TaskId>>, dependents: map<TaskId, seq<TaskId>>, maxWorkers: nat, mode: FailureMode) {
    /** Both channels are made with room for twice the number of workers. */
    function Capacity(): nat { 2 * maxWorkers }

    function Tasks(): set<TaskId> { deps.Keys }

    ghost function Edges(): Graph<TaskId> {
      map t | t in deps :: Elems(deps[t])
    }

    predicate Valid() {
      && maxWorkers > 0
      && dependents.Keys == deps.Keys
      && (forall t, d :: t in deps && d in deps[t] ==> d in deps)
      && (forall d, t :: d in dependents && t in dependents[d] ==> t in deps)
      && (forall t, d :: t in deps && d in deps ==> (d in deps[t] <==> t in dependents[d]))
    }

    /** No dependency edge was added twice. */
    ghost predicate NoRepeats() {
      forall d :: d in dependents ==> NoDup(dependents[d])
    }

    /** Another dependency of `t` needs `d`, directly or not, and so is completed after it. */
    ghost predicate NotLast(t: TaskId, d: TaskId) {
      t in deps && exists e :: e in deps[t] && DependsOn(Edges(), e, d)
    }

    /** No edge was added twice, except to a dependency that cannot be the last one completed. */
    ghost predicate SendsOnce() {
      forall d, i, j :: d in dependents && 0 <= i < j < |dependents[d]| && dependents[d][i] == dependents[d][j]
                        ==> NotLast(dependents[d][i], d)
    }
  }

  ghost predicate NoDependencies(c: Config) {
    forall t :: t in c.deps ==> c.deps[t] == []
  }

  /** Tasks whose edges are recorded on both ends, as AddTask and AddDependency leave them,
      give a valid configuration with the same graph; it has repeats exactly if some edge was
      added twice. */
  lemma GraphGivesConfig(preds: Multi<TaskId>, c: Config)
    requires c.maxWorkers > 0 && Mirror(preds, c.dependents)
    requires preds.Keys == c.deps.Keys && forall t :: t in preds ==> preds[t] == multiset(c.deps[t])
    ensures c.Valid() && c.Edges() == Simple(preds)
    ensures c.NoRepeats() <==> forall t, d :: t in preds ==> preds[t][d] <= 1
    ensures c.NoRepeats() ==> c.SendsOnce()
  {
    GraphGivesValid(preds, c);
    RepeatsShow(preds, c);
    hide Mirror, Config.Valid, Config.NotLast;
    assert c.NoRepeats() ==> c.SendsOnce();
    hide Config.NoRepeats, Config.SendsOnce, NoDup;
    SameEdges(preds, c);
  }

  lemma GraphGivesValid(preds: Multi<TaskId>, c: Config)
    requires c.maxWorkers > 0 && Mirror(preds, c.dependents)
    requires preds.Keys == c.deps.Keys && forall t :: t in preds ==> preds[t] == multiset(c.deps[t])
    ensures c.Valid()
  {
    forall t, d | t in c.deps && d in c.deps
      ensures d in c.deps[t] <==> t in c.dependents[d]
    {
      assert preds[t][d] == multiset(c.dependents[d])[t];
    }
    forall t, d | t in c.deps && d in c.deps[t]
      ensures d in c.deps
    {
      assert d in preds[t];
    }
  }

  lemma SameEdges(preds: Multi<TaskId>, c: Config)
    requires preds.Keys == c.deps.Keys && forall t :: t in preds ==> preds[t] == multiset(c.deps[t])
    ensures c.Edges() == Simple(preds)
  {
    forall t | t in c.deps
      ensures c.Edges()[t] == Simple(preds)[t]
    {
      assert forall d :: d in c.deps[t] <==> d in preds[t];
    }
  }

  lemma RepeatsShow(preds: Multi<TaskId>, c: Config)
    requires Mirror(preds, c.dependents)
    ensures c.NoRepeats() <==> forall t, d :: t in preds ==> preds[t][d] <= 1
  {
    if c.NoRepeats() {
      forall t, d | t in preds
        ensures preds[t][d] <= 1
      {
        if d in preds[t] {
          assert d in preds;
          NoDupMultiset(c.dependents[d]);
          assert preds[t][d] == multiset(c.dependents[d])[t];
        }
      }
    } else {
      var d :| d in c.dependents && !NoDup(c.dependents[d]);
      NoDupMultiset(c.dependents[d]);
      var t :| multiset(c.dependents[d])[t] > 1;
      assert t in c.dependents[d];
      assert preds[t][d] == multiset(c.dependents[d])[t];
    }
  }

  datatype Status = Pending | Waiting | Running | Completed | Failed | Canceled

  datatype Worker = Idle | Pulled(task: TaskId) | Cleared(task: TaskId) | Building(task: TaskId) | Finished(task: TaskId) | Exited

  datatype Verdict = AllBuilt | BuildFailed(first: Option<TaskId>) | Interrupted

  datatype Collector = Receiving
                     | Judging(task: TaskId)
                     | Canceling(task: TaskId, rest: set<TaskId>)
                     | Overwriting(task: TaskId, rest: set<TaskId>, victim: TaskId)
                     | Marking(task: TaskId)
                     | Releasing(task: TaskId, next: nat)
                     | Returned(verdict: Verdict)

  datatype State = State(
    status: map<TaskId, Status>,
    unscanned: set<TaskId>,          // tasks the seeding loop has not ranged over
    sending: Option<TaskId>,         // task the seeding loop is about to send
    ready: seq<TaskId>,              // the readyQueue channel
    results: seq<TaskId>,            // the results channel
    workers: seq<Worker>,
    collector: Collector,
    pendingCount: int,
    completed: seq<TaskId>,          // completedSet, in order of insertion
    hasFailed: bool,
    failedTask: Option<TaskId>,
    interrupted: bool,               // ctx.Done()
    closed: bool,                    // readyQueue closed
    // history, read by no step
    sent: multiset<TaskId>,          // sends on readyQueue
    started: multiset<TaskId>,       // calls of BuildFunc
    succeeded: set<TaskId>,          // calls of BuildFunc that ended as Completed
    reported: multiset<TaskId>,      // receives by the collector
    dropped: set<TaskId>,            // tasks dropped because readyQueue was full
    overwritten: set<TaskId>)        // tasks whose Completed status was overwritten before the collector read it

  datatype MainEvent = Scan(task: TaskId) | SeedSend | Shutdown
  datatype WorkerEvent = Pull | CheckStop | CheckGo | Begin | Finish(ok: bool) | Deliver | Exit
  datatype CollectorEvent = Receive | JudgeFirst | JudgeFailed | JudgeOther
                          | CancelPick(task: TaskId) | CancelSkip(task: TaskId) | CancelWrite | CancelDone
                          | MarkCompleted | MarkOther | ReleaseSend | ReleaseDrop | ReleaseWait | ReleaseDone
                          | Return | Abort
  datatype Event = ByMain(main: MainEvent) | ByWorker(w: nat, work: WorkerEvent) | ByCollector(collect: CollectorEvent) | Interrupt

  function Init(c: Config): State {
    State(map t | t in c.deps :: Pending, c.Tasks(), None, [], [], seq(c.maxWorkers, _ => Idle), Receiving, |c.deps|,
          [], false, None, false, false, multiset{}, multiset{}, {}, multiset{}, {}, {})
  }

  /** All dependencies of `t` are in the completed set. */
  predicate DepsCompleted(c: Config, s: State, t: TaskId)
    requires t in c.deps
  {
    forall d :: d in c.deps[t] ==> d in s.completed
  }

  /** Setting the status of `t` loses a successful build the collector has not recorded yet. */
  predicate Loses(s: State, t: TaskId) {
    t in s.status && s.status[t] == Completed && t !in s.completed
  }

  // ----- the main goroutine: queueReadyTasks, then waiting for the collector -----

  predicate MainEnabled(c: Config, s: State, e: MainEvent) {
    match e
    case Scan(t) => t in s.unscanned && s.sending == None
    case SeedSend => s.sending.Some? && |s.ready| < c.Capacity()
    case Shutdown => s.unscanned == {} && s.sending == None && s.collector.Returned? && !s.closed
  }

  function MainStep(c: Config, s: State, e: MainEvent): State
    requires MainEnabled(c, s, e) && s.unscanned <= c.Tasks()
  {
    match e
    case Scan(t) =>
      s.(status := s.status[t := Waiting],
         overwritten := if Loses(s, t) then s.overwritten + {t} else s.overwritten,
         unscanned := s.unscanned - {t},
         sending := if c.deps[t] == [] then Some(t) else None)
    case SeedSend =>
      s.(ready := s.ready + [s.sending.value], sent := s.sent + multiset{s.sending.value}, sending := None)
    case Shutdown =>
      s.(interrupted := true, closed := true)
  }

  // ----- a worker goroutine, with executeBuild inlined -----

  predicate WorkerEnabled(c: Config, s: State, w: nat, e: WorkerEvent) {
    && w < |s.workers|
    && match e
       case Pull => s.workers[w].Idle? && |s.ready| > 0
       case CheckStop => s.workers[w].Pulled? && c.mode == StopOnFailure && s.hasFailed
       case CheckGo => s.workers[w].Pulled? && !(c.mode == StopOnFailure && s.hasFailed)
       case Begin => s.workers[w].Cleared?
       case Finish(_) => s.workers[w].Building?
       case Deliver => s.workers[w].Finished? && |s.results| < c.Capacity()
       case Exit => s.workers[w].Idle? && (s.interrupted || (s.closed && s.ready == []))
  }

  function WorkerStep(c: Config, s: State, w: nat, e: WorkerEvent): State
    requires WorkerEnabled(c, s, w, e)
  {
    match e
    case Pull =>
      s.(ready := s.ready[1..], workers := s.workers[w := Pulled(s.ready[0])])
    case CheckStop =>
      var t := s.workers[w].task;
      s.(status := s.status[t := Canceled], workers := s.workers[w := Finished(t)])
    case CheckGo =>
      s.(workers := s.workers[w := Cleared(s.workers[w].task)])
    case Begin =>
      var t := s.workers[w].task;
      s.(status := s.status[t := Running], started := s.started + multiset{t}, workers := s.workers[w := Building(t)])
    case Finish(ok) =>
      var t := s.workers[w].task;
      s.(status := s.status[t := if s.interrupted then Canceled else if !ok then Failed else Completed],
         succeeded := if ok && !s.interrupted then s.succeeded + {t} else s.succeeded,
         workers := s.workers[w := Finished(t)])
    case Deliver =>
      s.(results := s.results + [s.workers[w].task], workers := s.workers[w := Idle])
    case Exit =>
      s.(workers := s.workers[w := Exited])
  }

  // ----- the collector goroutine: collectResults, cancelRemainingTasks, queueReadyDependents -----

  /** The collector is about to look at the dependent number `next` of what it has recorded. */
  predicate Considering(c: Config, s: State) {
    s.collector.Releasing? && s.collector.task in c.dependents && s.collector.next < |c.dependents[s.collector.task]|
  }

  function Considered(c: Config, s: State): TaskId
    requires Considering(c, s)
  {
    c.dependents[s.collector.task][s.collector.next]
  }

  predicate IsFailed(s: State, t: TaskId) {
    t in s.status && s.status[t] == Failed
  }

  predicate IsCompleted(s: State, t: TaskId) {
    t in s.status && s.status[t] == Completed
  }

  predicate IsWaiting(s: State, t: TaskId) {
    t in s.status && (s.status[t] == Pending || s.status[t] == Waiting)
  }

  predicate CollectorEnabled(c: Config, s: State, e: CollectorEvent)
    requires c.Valid()
  {
    match e
    case Receive => s.collector.Receiving? && s.pendingCount > 0 && |s.results| > 0
    case JudgeFirst => s.collector.Judging? && IsFailed(s, s.collector.task) && !s.hasFailed && c.mode == StopOnFailure
    case JudgeFailed => s.collector.Judging? && IsFailed(s, s.collector.task) && !(!s.hasFailed && c.mode == StopOnFailure)
    case JudgeOther => s.collector.Judging? && !IsFailed(s, s.collector.task)
    case CancelPick(u) => s.collector.Canceling? && u in s.collector.rest && IsWaiting(s, u)
    case CancelSkip(u) => s.collector.Canceling? && u in s.collector.rest && !IsWaiting(s, u)
    case CancelWrite => s.collector.Overwriting?
    case CancelDone => s.collector.Canceling? && s.collector.rest == {}
    case MarkCompleted => s.collector.Marking? && IsCompleted(s, s.collector.task)
    case MarkOther => s.collector.Marking? && !IsCompleted(s, s.collector.task)
    case ReleaseWait => Considering(c, s) && !DepsCompleted(c, s, Considered(c, s))
    case ReleaseSend => Considering(c, s) && DepsCompleted(c, s, Considered(c, s)) && |s.ready| < c.Capacity()
    case ReleaseDrop => Considering(c, s) && DepsCompleted(c, s, Considered(c, s)) && |s.ready| >= c.Capacity()
    case ReleaseDone => s.collector.Releasing? && !Considering(c, s)
    case Return => s.collector.Receiving? && s.pendingCount <= 0
    case Abort => s.collector.Receiving? && s.pendingCount > 0 && s.interrupted
  }

  function CollectorStep(c: Config, s: State, e: CollectorEvent): State
    requires c.Valid() && CollectorEnabled(c, s, e)
  {
    match e
    case Receive =>
      s.(results := s.results[1..], pendingCount := s.pendingCount - 1, reported := s.reported + multiset{s.results[0]},
         collector := Judging(s.results[0]))
    case JudgeFirst =>
      s.(failedTask := if s.failedTask == None then Some(s.collector.task) else s.failedTask, hasFailed := true,
         collector := Canceling(s.collector.task, c.Tasks()))
    case JudgeFailed =>
      s.(failedTask := if s.failedTask == None then Some(s.collector.task) else s.failedTask, hasFailed := true,
         collector := Marking(s.collector.task))
    case JudgeOther =>
      s.(collector := Marking(s.collector.task))
    case CancelPick(u) =>
      s.(collector := Overwriting(s.collector.task, s.collector.rest - {u}, u))
    case CancelSkip(u) =>
      s.(collector := Canceling(s.collector.task, s.collector.rest - {u}))
    case CancelWrite =>
      s.(status := s.status[s.collector.victim := Canceled],
         overwritten := if Loses(s, s.collector.victim) then s.overwritten + {s.collector.victim} else s.overwritten,
         collector := Canceling(s.collector.task, s.collector.rest))
    case CancelDone =>
      s.(collector := Marking(s.collector.task))
    case MarkCompleted =>
      s.(completed := if s.collector.task in s.completed then s.completed else s.completed + [s.collector.task],
         collector := Releasing(s.collector.task, 0))
    case MarkOther =>
      s.(collector := Receiving)
    case ReleaseWait =>
      s.(collector := Releasing(s.collector.task, s.collector.next + 1))
    case ReleaseSend =>
      s.(collector := Releasing(s.collector.task, s.collector.next + 1),
         ready := s.ready + [Considered(c, s)], sent := s.sent + multiset{Considered(c, s)})
    case ReleaseDrop =>
      s.(collector := Releasing(s.collector.task, s.collector.next + 1), dropped := s.dropped + {Considered(c, s)})
    case ReleaseDone =>
      s.(collector := Receiving)
    case Return =>
      s.(collector := Returned(if s.hasFailed then BuildFailed(s.failedTask) else AllBuilt))
    case Abort =>
      s.(collector := Returned(Interrupted))
  }

  // ----- runs -----

  ghost predicate Typed(c: Config, s: State) {
    s.status.Keys == c.Tasks() && s.unscanned <= c.Tasks()
  }

  ghost predicate Enabled(c: Config, s: State, e: Event)
    requires c.Valid()
  {
    match e
    case ByMain(m) => MainEnabled(c, s, m)
    case ByWorker(w, we) => WorkerEnabled(c, s, w, we)
    case ByCollector(ce) => CollectorEnabled(c, s, ce)
    case Interrupt => !s.interrupted
  }

  ghost function Step(c: Config, s: State, e: Event): State
    requires c.Valid() && Typed(c, s) && Enabled(c, s, e)
  {
    match e
    case ByMain(m) => MainStep(c, s, m)
    case ByWorker(w, we) => WorkerStep(c, s, w, we)
    case ByCollector(ce) => CollectorStep(c, s, ce)
    case Interrupt => s.(interrupted := true)
  }

  /** An interleaving: the events in the order they happen. */
  datatype Run = Start | Then(before: Run, event: Event)

  ghost predicate Feasible(c: Config, run: Run)
    requires c.Valid()
    decreases run, 0
  {
    match run
    case Start => true
    case Then(before, e) => Feasible(c, before) && Typed(c, Final(c, before)) && Enabled(c, Final(c, before), e)
  }

  /** The state a run leads to. */
  ghost function Final(c: Config, run: Run): State
    requires c.Valid() && Feasible(c, run)
    decreases run, 1
  {
    match run
    case Start => Init(c)
    case Then(before, e) => Step(c, Final(c, before), e)
  }

  /** No goroutine can take a step. */
  ghost predicate Stuck(c: Config, s: State)
    requires c.Valid()
  {
    forall e: Event :: e == Interrupt || !Enabled(c, s, e)
  }
}
