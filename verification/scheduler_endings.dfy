/** What a finished run of the scheduler looks like, and when it finishes. */
module SchedulerEndings {
  import opened Digraph
  import opened TaskGraph
  import opened SchedulerProtocol
  import opened SchedulerSafety
  import opened SchedulerOnce
  import opened SchedulerOutcome

  ghost predicate NothingLost(s: State) {
    s.dropped == {} && s.overwritten == {}
  }

  lemma ReportedWhenReturned(c: Config, s: State, t: TaskId)
    requires c.Valid() && Safe(c, s) && Once(c, s) && Ended(c, s) && s.collector.Returned? && t in c.deps
    ensures t in s.reported
  {
    hide Safe, Once, Config.Valid;
    OnceMeans(c, s);
    var unknown := set u | u in c.Tasks() && u !in s.reported;
    assert |unknown| == 0;
    assert t !in unknown;
  }

  lemma UnreportedWhenWaiting(c: Config, s: State) returns (t: TaskId)
    requires c.Valid() && Safe(c, s) && Once(c, s) && s.pendingCount > 0
    ensures t in c.deps && t !in s.reported
  {
    hide Safe, Once, Config.Valid;
    OnceMeans(c, s);
    var unknown := set u | u in c.Tasks() && u !in s.reported;
    assert unknown != {};
    t :| t in unknown;
  }

  /** Successful builds are all reported at the end, and recorded unless they were overwritten. */
  lemma SuccessIsRecorded(c: Config, s: State, t: TaskId)
    requires c.Valid() && Safe(c, s) && Once(c, s) && Settling(c, s) && Stuck(c, s) && t in s.succeeded
    ensures t in s.reported && (t in s.completed <==> t !in s.overwritten)
  {
    hide Held, DepsDone, Truthful, Ordered, ClosedLast, Released, Config.Valid, Stuck;
    assert KeptAt(s, t) && LostAt(s, t);
    assert Places(s, 2, t) > 0;
    HeldStages(s.workers, t);
    assert s.sent[t] == Places(s, 0, t) > 0;
    if s.collector.Returned? {
      ReportedWhenReturned(c, s, t);
    } else {
      AllQuiet(c, s);
    }
  }

  /** What was reported had its dependencies recorded, and was not dropped. */
  lemma ReportedWasReady(c: Config, s: State, t: TaskId)
    requires c.Valid() && Safe(c, s) && Released(c, s) && t in s.reported
    ensures t in c.deps && DepsCompleted(c, s, t) && t !in s.dropped
  {
    hide Held, Traced, Ordered, ClosedLast, Config.Valid;
    ReportedKnown(c, s, t);
    assert SkippedAt(c, s, t);
  }

  /** Nobody waits for a task whose dependencies were all recorded, unless it was dropped. */
  lemma ReadyIsReported(c: Config, s: State, t: TaskId)
    requires c.Valid() && Safe(c, s) && Once(c, s) && Settling(c, s) && Stuck(c, s)
    requires t in c.deps && DepsCompleted(c, s, t) && t !in s.dropped
    ensures t in s.reported
  {
    hide Held, Shape, Traced, DepsDone, Truthful, Ordered, ClosedLast, Kept, Lost, Once, Config.Valid, Stuck, DepsCompleted;
    if s.collector.Returned? {
      ReportedWhenReturned(c, s, t);
    } else {
      AllQuiet(c, s);
      assert FairAt(c, s, t) && SeededAt(c, s, t);
      assert t in s.sent;
      assert s.sent[t] == Places(s, 0, t);
    }
  }

  /** `t` can be built: its dependencies are recorded, and it was not dropped. */
  ghost predicate Reached(c: Config, s: State, t: TaskId)
    requires t in c.deps
  {
    DepsCompleted(c, s, t) && t !in s.dropped
  }

  /** The end of any run that nobody interrupts, whatever builds failed and whatever was lost:
      the completed set is the set of successful builds less those that were overwritten, the
      tasks reported are those whose dependencies are in it and that were not dropped, and the
      collector has returned exactly if that is all of them. */
  lemma EndOfRun(c: Config, run: Run)
    requires c.Valid() && c.SendsOnce() && Feasible(c, run) && Uninterrupted(run) && Stuck(c, Final(c, run))
    ensures var s := Final(c, run);
            && Elems(s.completed) == s.succeeded - s.overwritten
            && (forall t :: t in c.deps ==> (t in s.reported <==> Reached(c, s, t)))
            && (s.collector.Returned? <==> forall t :: t in c.deps ==> Reached(c, s, t))
            && (s.collector.Returned? ==> s.collector.verdict == if s.hasFailed then BuildFailed(s.failedTask) else AllBuilt)
  {
    hide Once, Kept, Lost, Released, Stuck, DepsCompleted, Config.Valid, Config.SendsOnce, Shape, Conserved, Traced, DepsDone, Ordered, ClosedLast;
    AlwaysSettling(c, run);
    var s := Final(c, run);
    forall t | t in s.succeeded ensures t in s.completed <==> t !in s.overwritten {
      SuccessIsRecorded(c, s, t);
    }
    forall t | t in c.deps
      ensures t in s.reported <==> Reached(c, s, t)
    {
      if t in s.reported {
        ReportedWasReady(c, s, t);
      }
      if Reached(c, s, t) {
        ReadyIsReported(c, s, t);
      }
    }
    if s.collector.Returned? {
      forall t | t in c.deps ensures t in s.reported {
        ReportedWhenReturned(c, s, t);
      }
    } else {
      StillPending(c, s);
      var t := UnreportedWhenWaiting(c, s);
    }
  }

  lemma StillPending(c: Config, s: State)
    requires c.Valid() && Safe(c, s) && Stuck(c, s) && !s.collector.Returned?
    ensures s.pendingCount > 0
  {
    hide Conserved, Traced, DepsDone, Truthful, Ordered, ClosedLast, Stuck, Shape, Config.Valid;
    CollectorRests(c, s);
  }

  // ----- runs in which every build succeeds -----

  /** Nobody interrupts the run and every BuildFunc returns nil. */
  predicate Healthy(run: Run) {
    match run
    case Start => true
    case Then(before, e) => Healthy(before) && e != Interrupt && (e.ByWorker? && e.work.Finish? ==> e.work.ok)
  }

  /** No build fails and every build that is over was successful. */
  ghost predicate AllSucceed(s: State) {
    && !s.hasFailed
    && (forall t :: t in s.status ==> s.status[t] != Failed)
    && (forall t :: Places(s, 2, t) > 0 ==> t in s.succeeded)
    && !s.collector.Canceling? && !s.collector.Overwriting?
  }

  lemma AllSucceedMain(c: Config, s: State, e: MainEvent)
    requires c.Valid() && s.unscanned <= c.Tasks() && AllSucceed(s) && MainEnabled(c, s, e)
    ensures AllSucceed(MainStep(c, s, e))
  {
    hide Held, Config.Valid, Loses;
    match e
    case Scan(_) =>
    case SeedSend =>
    case Shutdown =>
  }

  lemma BuildingIsUnreported(c: Config, s: State, w: nat)
    requires c.Valid() && Safe(c, s) && SentOnce(s) && w < |s.workers|
    ensures s.workers[w].Building? ==> s.workers[w].task !in s.reported
  {
    hide Safe, SentOnce, Config.Valid;
    if s.workers[w].Building? {
      EarlyIsAlone(c, s, w);
    }
  }

  /** Once the collector has returned, no worker is building. */
  lemma NoneBuildingAfterReturn(c: Config, s: State, w: nat)
    requires c.Valid() && Safe(c, s) && Once(c, s) && Ended(c, s) && s.collector.Returned?
    requires w < |s.workers|
    ensures !s.workers[w].Building?
  {
    hide Held, Conserved, Traced, DepsDone, Truthful, Ordered, ClosedLast, Config.Valid;
    HeldKnown(c, s, w);
    forall t | t in Load(s.workers[w], 0) ensures t in s.reported {
      ReportedWhenReturned(c, s, t);
    }
    BuildingIsUnreported(c, s, w);
    assert s.workers[w].Building? ==> s.workers[w].task in Load(s.workers[w], 0);
  }

  lemma AllSucceedWorker(c: Config, s: State, w: nat, e: WorkerEvent)
    requires c.Valid() && AllSucceed(s) && WorkerEnabled(c, s, w, e)
    requires e.Finish? ==> e.ok && !s.interrupted
    ensures AllSucceed(WorkerStep(c, s, w, e))
  {
    var s' := WorkerStep(c, s, w, e);
    forall t | Places(s', 2, t) > 0 ensures t in s'.succeeded {
      hide Places, Config.Valid;
      WorkerMoves(c, s, w, e, 2, t);
    }
    hide Places;
    match e
    case Finish(_) =>
    case _ =>
  }

  lemma AllSucceedCollector(c: Config, s: State, e: CollectorEvent)
    requires c.Valid() && AllSucceed(s) && CollectorEnabled(c, s, e)
    ensures AllSucceed(CollectorStep(c, s, e)) && !e.CancelWrite?
  {
    var s' := CollectorStep(c, s, e);
    forall t ensures Places(s', 2, t) == Places(s, 2, t) {
      hide Places, Config.Valid, AllSucceed;
      CollectorMoves(c, s, e, 2, t);
    }
    hide Places, Config.Valid, DepsCompleted, Loses;
    match e
    case CancelPick(_) =>
    case CancelSkip(_) =>
    case _ =>
  }

  lemma AllSucceedStep(c: Config, s: State, e: Event)
    requires c.Valid() && Safe(c, s) && Once(c, s) && Ended(c, s) && AllSucceed(s) && Enabled(c, s, e)
    requires e != Interrupt && (e.ByWorker? && e.work.Finish? ==> e.work.ok)
    ensures AllSucceed(Step(c, s, e))
  {
    hide AllSucceed, Once, Conserved, Traced, DepsDone, Truthful, Ordered, ClosedLast, Config.Valid, MainStep, WorkerStep, CollectorStep;
    match e
    case ByMain(m) => AllSucceedMain(c, s, m);
    case ByWorker(w, we) =>
      if we.Finish? && s.interrupted {
        NoneBuildingAfterReturn(c, s, w);
      }
      AllSucceedWorker(c, s, w, we);
    case ByCollector(ce) => AllSucceedCollector(c, s, ce);
  }

  lemma AllSucceedInit(c: Config)
    requires c.Valid()
    ensures AllSucceed(Init(c))
  {
    hide Config.Valid;
    HeldNothing(Init(c).workers, 2);
  }

  lemma HealthyIsUninterrupted(run: Run)
    requires Healthy(run)
    ensures Uninterrupted(run)
  {
  }

  lemma {:induction false} AlwaysAllSucceed(c: Config, run: Run)
    requires c.Valid() && c.SendsOnce() && Feasible(c, run) && Healthy(run)
    ensures AllSucceed(Final(c, run))
  {
    hide Safe, Once, AllSucceed, Step, Init, Kept, Lost, Released, Ended, Config.Valid, Config.SendsOnce;
    match run
    case Start => AllSucceedInit(c);
    case Then(before, e) =>
      AlwaysAllSucceed(c, before);
      HealthyIsUninterrupted(before);
      AlwaysSettling(c, before);
      AllSucceedStep(c, Final(c, before), e);
  }

  lemma ReportedSucceeded(c: Config, s: State, t: TaskId)
    requires AllSucceed(s) && t in s.reported
    ensures t in s.succeeded
  {
    hide Held;
    assert Places(s, 2, t) > 0;
  }

  lemma LossIsForever(c: Config, s: State, t: TaskId)
    requires c.Valid() && Safe(c, s) && Lost(s) && Released(c, s) && (t in s.dropped || t in s.overwritten)
    ensures t in c.deps && t !in s.completed
  {
    hide Held, DepsDone, Ordered, ClosedLast, Config.Valid, DepsCompleted, Upcoming;
    assert LostAt(s, t) && SkippedAt(c, s, t);
    if t in s.completed {
      ReportedKnown(c, s, t);
    }
  }

  lemma NotFailed(s: State)
    requires AllSucceed(s)
    ensures !s.hasFailed
  {
  }

  lemma CompletedKnown(c: Config, s: State, t: TaskId)
    requires c.Valid() && Safe(c, s) && t in s.completed
    ensures t in c.deps && t in s.reported && DepsCompleted(c, s, t)
  {
    hide Held, Ordered, ClosedLast, Config.Valid, Traced;
    ReportedKnown(c, s, t);
  }

  ghost predicate WasLost(s: State, t: TaskId) {
    t in s.dropped || t in s.overwritten
  }

  /** `r` is `t`, or one that `t` depends on, directly or not. */
  ghost predicate Needs(c: Config, t: TaskId, r: TaskId) {
    r == t || DependsOn(c.Edges(), t, r)
  }

  /** A task that is not completed although every build succeeds was lost itself, or needs one
      that was. */
  lemma LossBelow(c: Config, s: State, t: TaskId) returns (r: TaskId)
    requires c.Valid() && Safe(c, s) && AllSucceed(s) && Acyclic(c.Edges()) && t in c.deps && t !in s.completed
    requires Elems(s.completed) == s.succeeded - s.overwritten
    requires forall u :: u in c.deps ==> (u in s.reported <==> Reached(c, s, u))
    ensures r in c.deps && WasLost(s, r) && Needs(c, t, r)
  {
    var g := c.Edges();
    EdgesClosed(c);
    AcyclicMeansNoNeed(g);
    hide Safe, AllSucceed, DependsOn, Acyclic, NeedsCycle;
    var done := set u | u in c.deps && (u in s.completed || !Needs(c, t, u));
    r := AcyclicHasReady(g, done, t);
    if r !in s.dropped {
      forall d | d in c.deps[r] ensures d in s.completed {
        assert d in g[r];
        DependsFurther(g, t, r, d);
      }
      assert Reached(c, s, r);
      ReportedSucceeded(c, s, r);
    }
  }

  /** And a completed one needs none that was lost. */
  lemma NoLossBelow(c: Config, s: State, t: TaskId, r: TaskId)
    requires c.Valid() && Safe(c, s) && Lost(s) && Released(c, s) && t in s.completed && WasLost(s, r)
    ensures !Needs(c, t, r)
  {
    hide DependsOn, Shape, Conserved, Traced, DepsDone, Ordered, ClosedLast, Lost, Released;
    LossIsForever(c, s, r);
    if DependsOn(c.Edges(), t, r) {
      CompletedWasSent(c, s, t);
      SentHasItsDependencies(c, s, t, r);
    }
  }

  lemma CompletedWasSent(c: Config, s: State, t: TaskId)
    requires c.Valid() && Safe(c, s) && t in s.completed
    ensures t in s.sent
  {
    hide Held, Traced, DepsDone, Ordered, ClosedLast, Config.Valid;
    ReportedKnown(c, s, t);
  }

  /** The end of any run on a graph without cycles in which every build succeeds and nobody
      interrupts: what is missing from the completed set is exactly what was lost and what
      needs something that was. The collector returns exactly if nothing was dropped and no
      task that was overwritten has a dependent. */
  lemma EndOfHealthyRun(c: Config, run: Run)
    requires c.Valid() && c.SendsOnce() && Acyclic(c.Edges()) && Feasible(c, run) && Healthy(run) && Stuck(c, Final(c, run))
    ensures var s := Final(c, run);
            && (forall t :: t in c.deps ==> (t in s.completed <==> !exists r :: WasLost(s, r) && Needs(c, t, r)))
            && (s.collector.Returned? <==> s.dropped == {} && forall t, d :: t in c.deps && d in c.deps[t] ==> d !in s.overwritten)
  {
    hide Acyclic, Stuck, Safe, Once, Ended, Kept, Lost, Released, Config.Valid, Config.SendsOnce, AllSucceed, Needs;
    HealthyIsUninterrupted(run);
    AlwaysSettling(c, run);
    AlwaysAllSucceed(c, run);
    EndOfRun(c, run);
    var s := Final(c, run);
    forall t | t in c.deps ensures t in s.completed <==> !exists r :: WasLost(s, r) && Needs(c, t, r) {
      MissingExactly(c, s, t);
    }
    ReachedExactly(c, s);
  }

  /** Deadlock freedom and its exact limit: every task is in the completed set exactly if
      nothing was dropped and no status overwritten; and then the collector has returned
      without an error. */
  lemma CompletesUnlessLost(c: Config, run: Run)
    requires c.Valid() && c.SendsOnce() && Acyclic(c.Edges()) && Feasible(c, run) && Healthy(run)
    requires Stuck(c, Final(c, run))
    ensures var s := Final(c, run);
            && (Elems(s.completed) == c.Tasks() <==> NothingLost(s))
            && (NothingLost(s) ==> s.collector == Returned(AllBuilt))
  {
    hide Acyclic, Stuck, Safe, Once, Ended, Kept, Lost, Released, Config.Valid, Config.SendsOnce, AllSucceed;
    EndOfHealthyRun(c, run);
    HealthyIsUninterrupted(run);
    AlwaysSettling(c, run);
    AlwaysAllSucceed(c, run);
    EndOfRun(c, run);
    var s := Final(c, run);
    NotFailed(s);
    forall t | t in s.completed ensures t in c.deps {
      CompletedKnown(c, s, t);
    }
    if !NothingLost(s) {
      var t :| t in s.dropped || t in s.overwritten;
      LossIsForever(c, s, t);
    }
  }

  lemma MissingExactly(c: Config, s: State, t: TaskId)
    requires c.Valid() && Safe(c, s) && Lost(s) && Released(c, s) && AllSucceed(s) && Acyclic(c.Edges()) && t in c.deps
    requires Elems(s.completed) == s.succeeded - s.overwritten
    requires forall u :: u in c.deps ==> (u in s.reported <==> Reached(c, s, u))
    ensures t in s.completed <==> !exists r :: WasLost(s, r) && Needs(c, t, r)
  {
    hide Acyclic, Safe, Lost, Released, Config.Valid, AllSucceed, Needs, Reached, WasLost;
    if t !in s.completed {
      var r := LossBelow(c, s, t);
    } else if r :| WasLost(s, r) && Needs(c, t, r) {
      NoLossBelow(c, s, t, r);
    }
  }

  lemma ReachedExactly(c: Config, s: State)
    requires c.Valid() && Safe(c, s) && Lost(s) && Released(c, s) && AllSucceed(s) && Acyclic(c.Edges())
    requires Elems(s.completed) == s.succeeded - s.overwritten
    requires forall u :: u in c.deps ==> (u in s.reported <==> Reached(c, s, u))
    ensures (forall t :: t in c.deps ==> Reached(c, s, t))
            <==> s.dropped == {} && forall t, d :: t in c.deps && d in c.deps[t] ==> d !in s.overwritten
  {
    hide Acyclic, Safe, Lost, Released, AllSucceed, DependsOn;
    if forall t :: t in c.deps ==> Reached(c, s, t) {
      forall t ensures t !in s.dropped {
        if t in s.dropped { LossIsForever(c, s, t); }
      }
    } else if s.dropped == {} && forall t, d :: t in c.deps && d in c.deps[t] ==> d !in s.overwritten {
      var t :| t in c.deps && !Reached(c, s, t);
      var d :| d in c.deps[t] && d !in s.completed;
      var r := LossBelow(c, s, d);
      if r != d {
        var x := LastEdge(c.Edges(), d, r);
      }
      assert false;
    }
  }

  lemma EdgesClosed(c: Config)
    requires c.Valid()
    ensures Closed(c.Edges())
  {
  }

  // ----- two ways to rule the losses out -----

  predicate Marked(run: Run) {
    match run
    case Start => false
    case Then(before, e) => Marked(before) || e == ByCollector(MarkCompleted)
  }

  /** The seeding loop is through before the collector records its first task. */
  predicate ScansFirst(run: Run) {
    match run
    case Start => true
    case Then(before, e) => ScansFirst(before) && (e.ByMain? && e.main.Scan? ==> !Marked(before))
  }

  lemma ScanLosesNothing(c: Config, s: State, t: TaskId)
    requires c.Valid() && Safe(c, s) && Once(c, s) && s.completed == [] && t in s.unscanned
    ensures !Loses(s, t)
  {
    hide Held, Shape, Ordered, ClosedLast, Config.Valid, Counted, MarksOnce;
    UnscannedKnown(c, s, t);
    if c.deps[t] != [] {
      var d := c.deps[t][0];
      assert d in c.deps[t] && d !in s.completed;
    }
    assert t !in s.sent;
    HeldStages(s.workers, t);
    assert s.sent[t] == Places(s, 0, t);
    assert Places(s, 2, t) == 0;
  }

  lemma UnscannedKnown(c: Config, s: State, t: TaskId)
    requires c.Valid() && Shape(c, s) && t in s.unscanned
    ensures t in c.deps
  {
  }

  lemma {:induction false} NothingOverwritten(c: Config, run: Run)
    requires c.Valid() && c.SendsOnce() && Feasible(c, run) && Healthy(run) && ScansFirst(run)
    ensures Final(c, run).overwritten == {}
    ensures !Marked(run) ==> Final(c, run).completed == []
  {
    match run
    case Start =>
    case Then(before, e) =>
      hide Safe, Once, AllSucceed, Config.Valid, Config.SendsOnce, DepsCompleted, Loses, Init;
      NothingOverwritten(c, before);
      AlwaysOnce(c, before);
      AlwaysAllSucceed(c, before);
      StepOverwritesNothing(c, Final(c, before), e);
      hide Step, Enabled;
  }

  lemma StepOverwritesNothing(c: Config, s: State, e: Event)
    requires c.Valid() && Safe(c, s) && Once(c, s) && AllSucceed(s) && Typed(c, s) && Enabled(c, s, e)
    requires e.ByMain? && e.main.Scan? ==> s.completed == []
    ensures Step(c, s, e).overwritten == s.overwritten
    ensures e != ByCollector(MarkCompleted) ==> Step(c, s, e).completed == s.completed
  {
    hide Safe, Once, AllSucceed, Config.Valid, DepsCompleted, Loses;
    match e {
      case ByCollector(collect) =>
        AllSucceedCollector(c, s, collect);
        CollectorFrame(c, s, collect);
        hide CollectorStep, CollectorEnabled;
      case ByWorker(w, work) =>
        WorkerFrame(c, s, w, work);
        hide WorkerStep, WorkerEnabled;
      case ByMain(main) =>
        if main.Scan? {
          ScanLosesNothing(c, s, main.task);
        }
      case Interrupt =>
    }
  }

  lemma CollectorFrame(c: Config, s: State, e: CollectorEvent)
    requires c.Valid() && CollectorEnabled(c, s, e)
    ensures var s' := CollectorStep(c, s, e);
            && (!e.CancelWrite? ==> s'.overwritten == s.overwritten)
            && (!e.MarkCompleted? ==> s'.completed == s.completed)
            && (!e.ReleaseDrop? ==> s'.dropped == s.dropped)
            && s'.unscanned == s.unscanned
  {
    hide Config.Valid, DepsCompleted, Loses;
    match e
    case CancelPick(_) =>
    case CancelSkip(_) =>
    case _ =>
  }

  lemma OnlyDropsDrop(c: Config, s: State, e: Event)
    requires c.Valid() && Typed(c, s) && Enabled(c, s, e) && e != ByCollector(ReleaseDrop)
    ensures Step(c, s, e).dropped == s.dropped
  {
    hide Config.Valid, DepsCompleted, Loses;
    match e
    case ByMain(m) =>
    case ByWorker(w, we) => WorkerFrame(c, s, w, we); hide WorkerStep;
    case ByCollector(ce) => CollectorFrame(c, s, ce); hide CollectorStep;
    case Interrupt =>
  }

  lemma {:induction false} NothingDropped(c: Config, run: Run)
    requires c.Valid() && c.SendsOnce() && Feasible(c, run) && Narrow(c)
    ensures Final(c, run).dropped == {}
  {
    hide Config.Valid, Config.SendsOnce, Narrow, Step, Enabled;
    match run
    case Start =>
    case Then(before, e) =>
      NothingDropped(c, before);
      NoDropWhenNarrow(c, before, e);
      OnlyDropsDrop(c, Final(c, before), e);
  }

  /** With at most twice as many independent tasks as workers, and seeding through before the
      first task is recorded, every maximal run in which all builds succeed builds everything. */
  lemma NarrowRunsComplete(c: Config, run: Run)
    requires c.Valid() && c.SendsOnce() && Acyclic(c.Edges()) && Feasible(c, run) && Healthy(run)
    requires Narrow(c) && ScansFirst(run)
    requires Stuck(c, Final(c, run))
    ensures Elems(Final(c, run).completed) == c.Tasks() && Final(c, run).collector == Returned(AllBuilt)
  {
    hide Acyclic, Stuck, Narrow, Config.Valid, Config.SendsOnce;
    NothingOverwritten(c, run);
    NothingDropped(c, run);
    CompletesUnlessLost(c, run);
  }
}
