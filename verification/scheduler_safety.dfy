/** What holds in every state the scheduler can reach: whatever builds succeed, fail or are
    canceled, and however the goroutines interleave, dependencies come first. */
module SchedulerSafety {
  import opened Wrappers
  import opened Digraph
  import opened TaskGraph
  import opened SchedulerProtocol

  // ----- the tasks in the hands of the workers -----

  /** Stage 0: any task held; stage 1: builds begun or done; stage 2: builds done. */
  function Load(w: Worker, stage: nat): multiset<TaskId> {
    match w
    case Pulled(t) => if stage == 0 then multiset{t} else multiset{}
    case Cleared(t) => if stage == 0 then multiset{t} else multiset{}
    case Building(t) => if stage <= 1 then multiset{t} else multiset{}
    case Finished(t) => if stage <= 2 then multiset{t} else multiset{}
    case _ => multiset{}
  }

  function Held(ws: seq<Worker>, stage: nat): multiset<TaskId> {
    if ws == [] then multiset{} else Held(ws[..|ws| - 1], stage) + Load(ws[|ws| - 1], stage)
  }

  lemma {:induction false} HeldUpdate(ws: seq<Worker>, w: nat, x: Worker, stage: nat, t: TaskId)
    requires w < |ws|
    ensures Held(ws[w := x], stage)[t] + Load(ws[w], stage)[t] == Held(ws, stage)[t] + Load(x, stage)[t]
    ensures Load(ws[w], stage)[t] <= Held(ws, stage)[t]
  {
    var last := |ws| - 1;
    var ws' := ws[w := x];
    if w == last {
      assert ws'[..last] == ws[..last];
    } else {
      assert ws'[..last] == ws[..last][w := x];
      HeldUpdate(ws[..last], w, x, stage, t);
    }
  }

  lemma {:induction false} HeldNothing(ws: seq<Worker>, stage: nat)
    requires forall w :: 0 <= w < |ws| ==> Load(ws[w], stage) == multiset{}
    ensures Held(ws, stage) == multiset{}
  {
    if ws != [] {
      HeldNothing(ws[..|ws| - 1], stage);
    }
  }

  lemma {:induction false} HeldStages(ws: seq<Worker>, t: TaskId)
    ensures Held(ws, 2)[t] <= Held(ws, 1)[t] <= Held(ws, 0)[t]
  {
    if ws != [] {
      HeldStages(ws[..|ws| - 1], t);
    }
  }

  // ----- the invariants -----

  /** The task the collector is working on. */
  function Current(s: State): set<TaskId> {
    match s.collector
    case Judging(t) => {t}
    case Canceling(t, _) => {t}
    case Overwriting(t, _, _) => {t}
    case Marking(t) => {t}
    case Releasing(t, _) => {t}
    case _ => {}
  }

  ghost predicate Shape(c: Config, s: State)
    requires c.Valid()
  {
    && Typed(c, s)
    && |s.workers| == c.maxWorkers
    && (s.sending.Some? ==> s.sending.value in c.deps && c.deps[s.sending.value] == [])
    && (forall t :: t in s.sent ==> t in c.deps)
    && (s.collector.Canceling? ==> s.collector.rest <= c.Tasks())
    && (s.collector.Overwriting? ==> s.collector.rest <= c.Tasks() && s.collector.victim in c.deps)
    && (forall t :: t in Current(s) ==> t in s.reported)
    && (s.collector.Releasing? ==>
          s.collector.task in s.completed && s.collector.task in c.deps && s.collector.next <= |c.dependents[s.collector.task]|)
  }

  /** How often `t` is in a channel, held by a worker that has reached `stage`, or reported. */
  ghost function Places(s: State, stage: nat, t: TaskId): nat {
    (if stage == 0 then multiset(s.ready)[t] else 0) + Held(s.workers, stage)[t] + multiset(s.results)[t] + s.reported[t]
  }

  /** Every send on the ready queue is in exactly one place. */
  ghost predicate Conserved(s: State) {
    forall t :: s.sent[t] == Places(s, 0, t)
  }

  /** Where the builds that began, and those that succeeded, have got to. */
  ghost predicate Traced(s: State) {
    && (forall t :: s.started[t] <= Places(s, 1, t))
    && (forall t :: t in s.succeeded ==> Places(s, 2, t) > 0)
  }

  ghost predicate DepsDone(c: Config, s: State) {
    forall t, d :: t in s.sent && t in c.deps && d in c.deps[t] ==> d in s.completed
  }

  /** Only builds that succeeded are recorded as completed. */
  ghost predicate Truthful(s: State) {
    && (forall t :: t in s.status && s.status[t] == Completed ==> t in s.succeeded)
    && (forall t :: t in s.completed ==> t in s.succeeded && t in s.reported)
  }

  ghost predicate Ordered(c: Config, s: State) {
    NoDup(s.completed) && InDependencyOrder(c.Edges(), s.completed)
  }

  /** The ready queue is closed only when nobody sends on it any more. */
  ghost predicate ClosedLast(s: State) {
    s.closed ==> s.collector.Returned? && s.sending == None && s.unscanned == {}
  }

  ghost predicate Safe(c: Config, s: State)
    requires c.Valid()
  {
    && Shape(c, s) && Conserved(s) && Traced(s) && DepsDone(c, s) && Truthful(s) && Ordered(c, s) && ClosedLast(s)
  }

  // ----- initially -----

  lemma SafeInit(c: Config)
    requires c.Valid()
    ensures Safe(c, Init(c))
  {
    hide Held, InDependencyOrder, Config.Valid;
    var s := Init(c);
    HeldNothing(s.workers, 0);
    HeldNothing(s.workers, 1);
    HeldNothing(s.workers, 2);
    assert InDependencyOrder(c.Edges(), []) by {
      EmptyInOrder(c.Edges());
    }
  }

  lemma EmptyInOrder(g: Graph<TaskId>)
    ensures InDependencyOrder(g, [])
  {
  }

  // ----- every event keeps them: places -----

  lemma Tail(q: seq<TaskId>)
    requires |q| > 0
    ensures multiset(q) == multiset{q[0]} + multiset(q[1..])
  {
    assert q == [q[0]] + q[1..];
  }

  lemma PlacesChange(s: State, s': State, w: nat, stage: nat, t: TaskId)
    requires w < |s.workers| && |s'.workers| == |s.workers| && s'.workers == s.workers[w := s'.workers[w]]
    requires s'.reported == s.reported
    ensures Places(s', stage, t) + (if stage == 0 then multiset(s.ready)[t] else 0) + Load(s.workers[w], stage)[t] + multiset(s.results)[t]
         == Places(s, stage, t) + (if stage == 0 then multiset(s'.ready)[t] else 0) + Load(s'.workers[w], stage)[t] + multiset(s'.results)[t]
  {
    hide Held, Load;
    HeldUpdate(s.workers, w, s'.workers[w], stage, t);
  }

  lemma WorkerFrame(c: Config, s: State, w: nat, e: WorkerEvent)
    requires WorkerEnabled(c, s, w, e)
    ensures var s' := WorkerStep(c, s, w, e);
            && |s'.workers| == |s.workers| && s'.workers == s.workers[w := s'.workers[w]]
            && s'.reported == s.reported && s'.sent == s.sent && s'.completed == s.completed
            && s'.collector == s.collector && s'.unscanned == s.unscanned && s'.sending == s.sending
            && s'.pendingCount == s.pendingCount && s'.dropped == s.dropped && s'.overwritten == s.overwritten
            && s'.interrupted == s.interrupted && s'.closed == s.closed && s'.hasFailed == s.hasFailed
            && s'.ready == (if e.Pull? then s.ready[1..] else s.ready)
            && s'.results == (if e.Deliver? then s.results + [s.workers[w].task] else s.results)
            && s'.started == (if e.Begin? then s.started + multiset{s.workers[w].task} else s.started)
            && s'.succeeded == (if e.Finish? && e.ok && !s.interrupted then s.succeeded + {s.workers[w].task} else s.succeeded)
            && s'.workers[w] == match e
                                case Pull => Pulled(s.ready[0])
                                case CheckStop => Finished(s.workers[w].task)
                                case CheckGo => Cleared(s.workers[w].task)
                                case Begin => Building(s.workers[w].task)
                                case Finish(_) => Finished(s.workers[w].task)
                                case Deliver => Idle
                                case Exit => Exited
  {
    match e
    case Finish(_) =>
    case _ =>
  }

  /** A worker step moves at most one task, from one place to the next. */
  lemma WorkerMoves(c: Config, s: State, w: nat, e: WorkerEvent, stage: nat, t: TaskId)
    requires WorkerEnabled(c, s, w, e)
    ensures var s' := WorkerStep(c, s, w, e);
            Places(s', stage, t) == Places(s, stage, t) +
            match e
            case Begin => if stage == 1 && t == s.workers[w].task then 1 else 0
            case Finish(_) => if stage == 2 && t == s.workers[w].task then 1 else 0
            case CheckStop => if 1 <= stage <= 2 && t == s.workers[w].task then 1 else 0
            case Deliver => if stage > 2 && t == s.workers[w].task then 1 else 0
            case _ => 0
  {
    hide WorkerStep, Held, Places;
    var s' := WorkerStep(c, s, w, e);
    WorkerFrame(c, s, w, e);
    PlacesChange(s, s', w, stage, t);
    match e
    case Pull => Tail(s.ready);
    case Finish(_) =>
    case _ =>
  }

  lemma ConservedWorker(c: Config, s: State, w: nat, e: WorkerEvent)
    requires Conserved(s) && WorkerEnabled(c, s, w, e)
    ensures Conserved(WorkerStep(c, s, w, e))
  {
    hide Places;
    var s' := WorkerStep(c, s, w, e);
    assert s'.sent == s.sent;
    forall t ensures s'.sent[t] == Places(s', 0, t) {
      WorkerMoves(c, s, w, e, 0, t);
    }
  }

  lemma TracedWorker(c: Config, s: State, w: nat, e: WorkerEvent)
    requires Traced(s) && WorkerEnabled(c, s, w, e)
    ensures Traced(WorkerStep(c, s, w, e))
  {
    hide Places;
    var s' := WorkerStep(c, s, w, e);
    forall t ensures s'.started[t] <= Places(s', 1, t) && (t in s'.succeeded ==> Places(s', 2, t) > 0) {
      WorkerMoves(c, s, w, e, 1, t);
      WorkerMoves(c, s, w, e, 2, t);
    }
  }

  lemma CollectorMoves(c: Config, s: State, e: CollectorEvent, stage: nat, t: TaskId)
    requires c.Valid() && CollectorEnabled(c, s, e)
    ensures var s' := CollectorStep(c, s, e);
            Places(s', stage, t) == Places(s, stage, t) + if stage == 0 && e.ReleaseSend? && t == Considered(c, s) then 1 else 0
  {
    hide Config.Valid, DepsCompleted, Loses, Held;
    match e
    case Receive => Tail(s.results);
    case CancelPick(_) =>
    case CancelSkip(_) =>
    case _ =>
  }

  lemma PlacesCollector(c: Config, s: State, e: CollectorEvent)
    requires c.Valid() && Conserved(s) && Traced(s) && CollectorEnabled(c, s, e)
    ensures Conserved(CollectorStep(c, s, e)) && Traced(CollectorStep(c, s, e))
  {
    var s' := CollectorStep(c, s, e);
    CollectorHistory(c, s, e);
    hide Places, Config.Valid, CollectorStep, CollectorEnabled;
    forall t ensures s'.sent[t] == Places(s', 0, t) && s'.started[t] <= Places(s', 1, t) && (t in s'.succeeded ==> Places(s', 2, t) > 0) {
      CollectorMoves(c, s, e, 0, t);
      CollectorMoves(c, s, e, 1, t);
      CollectorMoves(c, s, e, 2, t);
    }
  }

  lemma CollectorHistory(c: Config, s: State, e: CollectorEvent)
    requires c.Valid() && CollectorEnabled(c, s, e)
    ensures var s' := CollectorStep(c, s, e);
            && s'.started == s.started && s'.succeeded == s.succeeded
            && s'.sent == if e.ReleaseSend? then s.sent + multiset{Considered(c, s)} else s.sent
  {
    hide Config.Valid, DepsCompleted, Loses;
    match e
    case CancelPick(_) =>
    case CancelSkip(_) =>
    case _ =>
  }

  lemma PlacesMain(c: Config, s: State, e: MainEvent)
    requires c.Valid() && Shape(c, s) && Conserved(s) && Traced(s) && MainEnabled(c, s, e)
    ensures Conserved(MainStep(c, s, e)) && Traced(MainStep(c, s, e))
  {
    hide Held, Config.Valid, Loses;
    match e
    case Scan(_) =>
    case SeedSend =>
    case Shutdown =>
  }

  // ----- every event keeps them: the rest -----

  lemma HeldKnown(c: Config, s: State, w: nat)
    requires c.Valid() && Shape(c, s) && Conserved(s) && w < |s.workers|
    ensures forall t :: t in Load(s.workers[w], 0) ==> t in c.deps && t in s.sent
  {
    hide Held, Config.Valid;
    forall t | t in Load(s.workers[w], 0)
      ensures t in c.deps && t in s.sent
    {
      HeldUpdate(s.workers, w, Idle, 0, t);
      assert s.sent[t] == Places(s, 0, t) > 0;
    }
  }

  lemma ReportedKnown(c: Config, s: State, t: TaskId)
    requires c.Valid() && Shape(c, s) && Conserved(s) && t in s.reported
    ensures t in c.deps && t in s.sent
  {
    hide Held, Config.Valid;
    assert s.sent[t] == Places(s, 0, t) > 0;
  }

  lemma ShapeMain(c: Config, s: State, e: MainEvent)
    requires c.Valid() && Shape(c, s) && MainEnabled(c, s, e)
    ensures Shape(c, MainStep(c, s, e))
  {
    hide Config.Valid, Loses;
    match e
    case Scan(_) =>
    case SeedSend =>
    case Shutdown =>
  }

  lemma ShapeWorker(c: Config, s: State, w: nat, e: WorkerEvent)
    requires c.Valid() && Shape(c, s) && Conserved(s) && WorkerEnabled(c, s, w, e)
    ensures Shape(c, WorkerStep(c, s, w, e))
  {
    hide Config.Valid, Conserved, Current, WorkerStep, WorkerEnabled;
    var s' := WorkerStep(c, s, w, e);
    WorkerFrame(c, s, w, e);
    StatusKept(c, s, w, e);
    assert Current(s') == Current(s) by { CurrentSame(s, s'); }
  }

  lemma HeldTask(c: Config, s: State, w: nat)
    requires c.Valid() && Shape(c, s) && Conserved(s) && w < |s.workers|
    ensures !s.workers[w].Idle? && !s.workers[w].Exited? ==> s.workers[w].task in s.status
  {
    HeldKnown(c, s, w);
    hide Config.Valid, Conserved, Current;
    if !s.workers[w].Idle? && !s.workers[w].Exited? {
      assert s.workers[w].task in Load(s.workers[w], 0);
    }
  }

  lemma StatusKept(c: Config, s: State, w: nat, e: WorkerEvent)
    requires c.Valid() && Shape(c, s) && Conserved(s) && WorkerEnabled(c, s, w, e)
    ensures WorkerStep(c, s, w, e).status.Keys == s.status.Keys
  {
    HeldTask(c, s, w);
    hide Config.Valid, Conserved, Shape;
    match e
    case Finish(_) =>
    case _ =>
  }

  lemma CurrentSame(s: State, s': State)
    requires s'.collector == s.collector
    ensures Current(s') == Current(s)
  {
  }

  lemma ConsideredKnown(c: Config, s: State)
    requires c.Valid() && Considering(c, s)
    ensures Considered(c, s) in c.deps && s.collector.task in c.deps[Considered(c, s)]
  {
    assert Considered(c, s) in c.dependents[s.collector.task];
  }

  lemma SameKeys(c: Config)
    requires c.Valid()
    ensures c.dependents.Keys == c.deps.Keys
  {
  }

  lemma ShapeCollector(c: Config, s: State, e: CollectorEvent)
    requires c.Valid() && Shape(c, s) && Conserved(s) && CollectorEnabled(c, s, e)
    ensures Shape(c, CollectorStep(c, s, e))
  {
    hide Conserved, DepsCompleted, Loses, Config.Valid;
    assert c.dependents.Keys == c.deps.Keys by { SameKeys(c); }
    if e.ReleaseSend? || e.ReleaseDrop? || e.ReleaseWait? {
      ConsideredKnown(c, s);
    } else {
      if Current(s) != {} {
        var t :| t in Current(s);
        ReportedKnown(c, s, t);
      }
      ShapeOtherCollector(c, s, e);
    }
  }

  lemma ShapeOtherCollector(c: Config, s: State, e: CollectorEvent)
    requires c.Valid() && Shape(c, s) && CollectorEnabled(c, s, e) && c.dependents.Keys == c.deps.Keys
    requires !(e.ReleaseSend? || e.ReleaseDrop? || e.ReleaseWait?)
    requires forall t :: t in Current(s) ==> t in c.deps
    ensures Shape(c, CollectorStep(c, s, e))
  {
    hide DepsCompleted, Loses, Config.Valid, IsFailed, IsWaiting, IsCompleted;
    match e
    case CancelPick(_) => ShapeCanceling(c, s, e);
    case CancelSkip(_) => ShapeCanceling(c, s, e);
    case CancelWrite => ShapeCanceling(c, s, e);
    case CancelDone => ShapeCanceling(c, s, e);
    case JudgeFirst => ShapeCanceling(c, s, e);
    case _ =>
  }

  lemma ShapeCanceling(c: Config, s: State, e: CollectorEvent)
    requires c.Valid() && Shape(c, s) && CollectorEnabled(c, s, e)
    requires e.JudgeFirst? || e.CancelPick? || e.CancelSkip? || e.CancelWrite? || e.CancelDone?
    ensures Shape(c, CollectorStep(c, s, e))
  {
    hide DepsCompleted, Loses, Config.Valid, IsFailed, IsWaiting, IsCompleted;
    match e
    case CancelPick(_) =>
    case CancelSkip(_) =>
    case _ =>
  }

  lemma DepsDoneCollector(c: Config, s: State, e: CollectorEvent)
    requires c.Valid() && DepsDone(c, s) && CollectorEnabled(c, s, e)
    ensures DepsDone(c, CollectorStep(c, s, e))
  {
    hide Loses;
    var s' := CollectorStep(c, s, e);
    match e
    case MarkCompleted =>
      assert forall d :: d in s.completed ==> d in s'.completed;
    case ReleaseSend =>
    case CancelPick(_) =>
    case CancelSkip(_) =>
    case _ =>
  }

  /** A task is recorded after its dependencies. */
  lemma RecordInOrder(c: Config, s: State)
    requires c.Valid() && Shape(c, s) && Conserved(s) && DepsDone(c, s) && Ordered(c, s)
    requires s.collector.Marking? && s.collector.task !in s.completed
    ensures NoDup(s.completed + [s.collector.task]) && InDependencyOrder(c.Edges(), s.completed + [s.collector.task])
  {
    hide Held, InDependencyOrder;
    var t := s.collector.task;
    assert t in Current(s);
    ReportedKnown(c, s, t);
    OrderedAppend(c.Edges(), s.completed, t);
  }

  lemma OrderedAppend(g: Graph<TaskId>, done: seq<TaskId>, t: TaskId)
    requires NoDup(done) && InDependencyOrder(g, done) && t in g && t !in done
    requires forall d :: d in g[t] ==> d in done
    ensures NoDup(done + [t]) && InDependencyOrder(g, done + [t])
  {
    var done' := done + [t];
    forall i, d | 0 <= i < |done'| && d in g[done'[i]]
      ensures d in done'[..i]
    {
      if i < |done| {
        assert done'[..i] == done[..i];
      } else {
        assert done'[..i] == done;
      }
    }
  }

  lemma OrderedCollector(c: Config, s: State, e: CollectorEvent)
    requires c.Valid() && Shape(c, s) && Conserved(s) && DepsDone(c, s) && Ordered(c, s) && CollectorEnabled(c, s, e)
    ensures Ordered(c, CollectorStep(c, s, e))
  {
    if e.MarkCompleted? && s.collector.task !in s.completed {
      RecordInOrder(c, s);
    }
    hide InDependencyOrder, NoDup, Shape, Conserved, DepsDone, DepsCompleted, Loses, Config.Valid;
    match e
    case CancelPick(_) =>
    case CancelSkip(_) =>
    case _ =>
  }

  lemma TruthfulWorker(c: Config, s: State, w: nat, e: WorkerEvent)
    requires Truthful(s) && WorkerEnabled(c, s, w, e)
    ensures Truthful(WorkerStep(c, s, w, e))
  {
    match e
    case Finish(_) =>
    case _ =>
  }

  lemma TruthfulCollector(c: Config, s: State, e: CollectorEvent)
    requires c.Valid() && Truthful(s) && CollectorEnabled(c, s, e)
    requires s.collector.Marking? ==> s.collector.task in s.reported
    ensures Truthful(CollectorStep(c, s, e))
  {
    hide Config.Valid, DepsCompleted, Loses, Considering;
    match e
    case CancelPick(_) =>
    case CancelSkip(_) =>
    case _ =>
  }

  lemma MarkingReported(c: Config, s: State)
    requires c.Valid() && Shape(c, s)
    ensures s.collector.Marking? ==> s.collector.task in s.reported
  {
    assert s.collector.Marking? ==> s.collector.task in Current(s);
  }

  lemma SafeStep(c: Config, s: State, e: Event)
    requires c.Valid() && Safe(c, s) && Enabled(c, s, e)
    ensures Safe(c, Step(c, s, e))
  {
    hide Conserved, Traced, DepsDone, Truthful, Ordered, ClosedLast, MainStep, WorkerStep, CollectorStep, Config.Valid;
    match e
    case ByMain(m) => SafeMain(c, s, m);
    case ByWorker(w, we) => SafeWorker(c, s, w, we);
    case ByCollector(ce) => SafeCollector(c, s, ce);
    case Interrupt => SafeInterrupt(c, s);
  }

  lemma SafeInterrupt(c: Config, s: State)
    requires c.Valid() && Safe(c, s)
    ensures Safe(c, s.(interrupted := true))
  {
    hide Held, InDependencyOrder, NoDup, Config.Valid;
  }

  lemma SafeMain(c: Config, s: State, e: MainEvent)
    requires c.Valid() && Safe(c, s) && MainEnabled(c, s, e)
    ensures Safe(c, MainStep(c, s, e))
  {
    hide Shape, Conserved, Traced, InDependencyOrder, NoDup, Config.Valid, Loses;
    ShapeMain(c, s, e);
    PlacesMain(c, s, e);
    match e
    case Scan(_) =>
    case SeedSend => SendingDone(c, s);
    case Shutdown =>
  }

  lemma SendingDone(c: Config, s: State)
    requires c.Valid() && Shape(c, s) && s.sending.Some?
    ensures s.sending.value in c.deps && c.deps[s.sending.value] == []
  {
  }

  lemma SafeWorker(c: Config, s: State, w: nat, e: WorkerEvent)
    requires c.Valid() && Safe(c, s) && WorkerEnabled(c, s, w, e)
    ensures Safe(c, WorkerStep(c, s, w, e))
  {
    ShapeWorker(c, s, w, e);
    ConservedWorker(c, s, w, e);
    TracedWorker(c, s, w, e);
    TruthfulWorker(c, s, w, e);
    hide Shape, Conserved, Traced, Truthful, Config.Valid;
    RestWorker(c, s, w, e);
  }

  lemma RestWorker(c: Config, s: State, w: nat, e: WorkerEvent)
    requires c.Valid() && DepsDone(c, s) && Ordered(c, s) && ClosedLast(s) && WorkerEnabled(c, s, w, e)
    ensures var s' := WorkerStep(c, s, w, e); DepsDone(c, s') && Ordered(c, s') && ClosedLast(s')
  {
    hide InDependencyOrder, NoDup, Config.Valid;
    match e
    case Finish(_) =>
    case _ =>
  }

  lemma SafeCollector(c: Config, s: State, e: CollectorEvent)
    requires c.Valid() && Safe(c, s) && CollectorEnabled(c, s, e)
    ensures Safe(c, CollectorStep(c, s, e))
  {
    hide Shape, Conserved, Traced, DepsDone, Truthful, Ordered, DepsCompleted, Loses, Config.Valid;
    ShapeCollector(c, s, e);
    PlacesCollector(c, s, e);
    DepsDoneCollector(c, s, e);
    MarkingReported(c, s);
    TruthfulCollector(c, s, e);
    OrderedCollector(c, s, e);
    match e
    case CancelPick(_) =>
    case CancelSkip(_) =>
    case _ =>
  }

  lemma {:induction false} AlwaysSafe(c: Config, run: Run)
    requires c.Valid() && Feasible(c, run)
    ensures Safe(c, Final(c, run))
  {
    hide Safe, Step, Init, Config.Valid;
    match run
    case Start => SafeInit(c);
    case Then(before, e) =>
      AlwaysSafe(c, before);
      SafeStep(c, Final(c, before), e);
  }

  // ----- what the invariants mean for every run -----

  lemma CompletedIsClosed(c: Config, s: State, p: seq<TaskId>)
    requires c.Valid() && Ordered(c, s) && Path(c.Edges(), p) && p[0] in s.completed
    ensures p[|p| - 1] in s.completed
  {
    var g := c.Edges();
    forall v | v in Elems(s.completed) && v in g
      ensures g[v] <= Elems(s.completed)
    {
      var i :| 0 <= i < |s.completed| && s.completed[i] == v;
      assert forall d :: d in g[s.completed[i]] ==> d in s.completed[..i];
    }
    ClosedUnderPaths(g, Elems(s.completed), p);
  }

  lemma SentHasItsDependencies(c: Config, s: State, t: TaskId, u: TaskId)
    requires c.Valid() && Safe(c, s) && t in s.sent && DependsOn(c.Edges(), t, u)
    ensures u in s.completed && u in s.succeeded
  {
    hide Conserved, Traced, InDependencyOrder, NoDup;
    var g := c.Edges();
    var p :| PathFromTo(g, p, t, u) && |p| >= 2;
    assert p[0 + 1] in g[p[0]];
    TailIsPath(g, p);
    CompletedIsClosed(c, s, p[1..]);
  }

  lemma TailIsPath(g: Graph<TaskId>, p: seq<TaskId>)
    requires Path(g, p) && |p| >= 2
    ensures Path(g, p[1..])
  {
    forall i | 0 <= i < |p| - 2
      ensures p[1..][i + 1] in g[p[1..][i]]
    {
      assert p[1..][i] == p[i + 1] && p[1..][i + 1] == p[i + 1 + 1];
    }
  }

  /** In every interleaving, a build that is about to start has all its direct and
      transitive dependencies built successfully and recorded. */
  lemma StartsAfterDependencies(c: Config, run: Run, w: nat, u: TaskId)
    requires c.Valid() && Feasible(c, run) && Enabled(c, Final(c, run), ByWorker(w, Begin))
    requires DependsOn(c.Edges(), Final(c, run).workers[w].task, u)
    ensures u in Final(c, run).completed && u in Final(c, run).succeeded
  {
    hide Conserved, Traced, DependsOn, InDependencyOrder, NoDup;
    AlwaysSafe(c, run);
    var s := Final(c, run);
    HeldKnown(c, s, w);
    assert s.workers[w].task in Load(s.workers[w], 0);
    SentHasItsDependencies(c, s, s.workers[w].task, u);
  }

  /** No descendant of a task without a successful build ever starts. */
  lemma NothingStartsBelowAFailure(c: Config, run: Run, t: TaskId, u: TaskId)
    requires c.Valid() && Feasible(c, run) && DependsOn(c.Edges(), t, u)
    requires u !in Final(c, run).succeeded
    ensures t !in Final(c, run).started
  {
    hide DependsOn, InDependencyOrder, NoDup, Held;
    AlwaysSafe(c, run);
    var s := Final(c, run);
    if t in s.started {
      HeldStages(s.workers, t);
      assert s.sent[t] == Places(s, 0, t) >= Places(s, 1, t) > 0;
      SentHasItsDependencies(c, s, t, u);
    }
  }

  /** The completed set grows as a linear extension of the graph below it, and holds
      successful builds only. */
  lemma CompletionOrder(c: Config, run: Run)
    requires c.Valid() && Feasible(c, run)
    ensures var done := Final(c, run).completed;
            && NoDup(done) && InDependencyOrder(c.Edges(), done)
            && Elems(done) <= Final(c, run).succeeded
  {
    hide Conserved, Traced, Shape, DepsDone, InDependencyOrder, NoDup;
    AlwaysSafe(c, run);
  }

  /** Nothing is ever sent on the ready queue after it was closed. */
  lemma NoSendAfterClose(c: Config, run: Run, e: Event)
    requires c.Valid() && Feasible(c, run) && Enabled(c, Final(c, run), e)
    requires e == ByMain(SeedSend) || e == ByCollector(ReleaseSend)
    ensures !Final(c, run).closed
  {
    hide Conserved, Traced, Shape, DepsDone, Truthful, Ordered, DepsCompleted;
    AlwaysSafe(c, run);
  }
}
