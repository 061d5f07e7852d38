/** What the verdict of the collector is worth, and that the channels never overflow. */
module SchedulerVerdict {
  import opened Wrappers
  import opened TaskGraph
  import opened SchedulerProtocol
  import opened SchedulerSafety
  import opened SchedulerOnce
  import opened SchedulerOutcome
  import opened SchedulerEndings
  import opened SchedulerSteps
  import opened SchedulerRuns
  import opened SchedulerModes

  // ----- failures are real -----

  ghost predicate BuildingStarted(s: State) {
    forall w :: 0 <= w < |s.workers| && s.workers[w].Building? ==> s.started[s.workers[w].task] > 0
  }

  /** A status Failed, and the task held responsible, belong to builds that ran and failed. */
  ghost predicate FailedAt(s: State, t: TaskId) {
    IsFailed(s, t) ==> s.started[t] > 0 && t !in s.succeeded && Places(s, 2, t) > 0
  }

  ghost predicate Blamed(s: State) {
    if s.hasFailed then s.failedTask.Some? && FailedForGood(s, s.failedTask.value) else s.failedTask == None
  }

  ghost predicate FailedForGood(s: State, t: TaskId) {
    t in s.reported && s.started[t] > 0 && t !in s.succeeded && Places(s, 2, t) > 0
  }

  lemma StartedStep(c: Config, s: State, e: Event)
    requires c.Valid() && Typed(c, s) && Enabled(c, s, e) && BuildingStarted(s)
    ensures BuildingStarted(Step(c, s, e))
  {
    hide Config.Valid, Typed, DepsCompleted, Loses;
    match e {
      case ByMain(m) =>
        MainKeepsWorkers(c, s, m);
        hide MainStep, MainEnabled;
      case ByWorker(w, work) =>
        WorkerFrame(c, s, w, work);
        hide WorkerStep;
      case ByCollector(collect) =>
        CollectorKeepsWorkers(c, s, collect);
        CollectorHistory(c, s, collect);
        hide CollectorStep, CollectorEnabled;
      case Interrupt =>
    }
  }

  lemma MainKeepsWorkers(c: Config, s: State, m: MainEvent)
    requires c.Valid() && Typed(c, s) && MainEnabled(c, s, m)
    ensures MainStep(c, s, m).workers == s.workers && MainStep(c, s, m).started == s.started
  {
    hide Config.Valid, Loses;
    match m
    case Scan(_) =>
    case SeedSend =>
    case Shutdown =>
  }

  /** A build that begins or ends has not been over before. */
  lemma EarlyTouch(c: Config, s: State, e: Event, t: TaskId)
    requires c.Valid() && Safe(c, s) && SentOnce(s) && BuildingStarted(s) && Typed(c, s) && Enabled(c, s, e)
    ensures TouchOf(c, s, e, t).Begun? || TouchOf(c, s, e, t).Built? || TouchOf(c, s, e, t).Skipped? ==>
              Places(s, 2, t) == 0 && t !in s.reported && t !in s.succeeded
    ensures TouchOf(c, s, e, t).Built? ==> s.started[t] > 0
  {
    hide Config.Valid, Safe, SentOnce, Typed, Places;
    var touch := TouchOf(c, s, e, t);
    if touch.Begun? || touch.Built? || touch.Skipped? {
      EarlyIsAlone(c, s, e.w);
    }
  }

  lemma FailedStep(c: Config, s: State, e: Event, t: TaskId)
    requires c.Valid() && Safe(c, s) && SentOnce(s) && BuildingStarted(s) && Typed(c, s) && Enabled(c, s, e)
    requires FailedAt(s, t) && t in s.status
    ensures FailedAt(Step(c, s, e), t)
    ensures FailedForGood(s, t) ==> FailedForGood(Step(c, s, e), t)
  {
    hide Config.Valid, Safe, SentOnce, BuildingStarted, Typed, Places, Step, Enabled, TouchOf;
    StepEffect(c, s, e, t);
    EarlyTouch(c, s, e, t);
    FlagsEffect(c, s, e);
  }

  /** What always holds of failures. */
  ghost predicate Truth(c: Config, s: State) {
    BuildingStarted(s) && Blamed(s) && (forall t :: t in s.status ==> FailedAt(s, t))
  }

  lemma BlamedStep(c: Config, s: State, e: Event)
    requires c.Valid() && Safe(c, s) && SentOnce(s) && Truth(c, s) && Typed(c, s) && Enabled(c, s, e)
    ensures Blamed(Step(c, s, e))
  {
    FlagsEffect(c, s, e);
    hide Config.Valid, Conserved, Traced, DepsDone, Truthful, Ordered, ClosedLast, SentOnce, BuildingStarted, Step, Enabled, Places;
    var s' := Step(c, s, e);
    if s.hasFailed {
      var f := s.failedTask.value;
      ReportedIsKnown(c, s, f);
      FailedStep(c, s, e, f);
    } else if s'.hasFailed {
      var f := s.collector.task;
      assert f in Current(s);
      assert FailedForGood(s, f);
      FailedStep(c, s, e, f);
    }
  }

  lemma ReportedIsKnown(c: Config, s: State, t: TaskId)
    requires c.Valid() && Safe(c, s) && t in s.reported
    ensures t in s.status
  {
    hide Held, Traced, DepsDone, Truthful, Ordered, ClosedLast, Config.Valid;
    ReportedKnown(c, s, t);
  }

  lemma TruthStep(c: Config, s: State, e: Event)
    requires c.Valid() && Safe(c, s) && SentOnce(s) && Truth(c, s) && Typed(c, s) && Enabled(c, s, e) && Typed(c, Step(c, s, e))
    ensures Truth(c, Step(c, s, e))
  {
    BlamedStep(c, s, e);
    StartedStep(c, s, e);
    hide Config.Valid, Safe, SentOnce, BuildingStarted, Blamed, FailedAt, Enabled, Step;
    forall t | t in Step(c, s, e).status ensures FailedAt(Step(c, s, e), t) {
      FailedStep(c, s, e, t);
    }
  }

  lemma {:induction false} AlwaysTruth(c: Config, run: Run)
    requires c.Valid() && c.SendsOnce() && Feasible(c, run)
    ensures Truth(c, Final(c, run))
  {
    match run
    case Start =>
    case Then(before, e) =>
      ShapeKnown(c, run);
      hide Config.Valid, Config.SendsOnce, Truth, Step, Enabled, Init, Safe, SeedsUnsent, DependentsUnsent, MarksOnce, LastMarked, SentOnce, Counted;
      AlwaysTruth(c, before);
      AlwaysOnce(c, before);
      TruthStep(c, Final(c, before), e);
  }

  // ----- failures are seen, unless the seeding loop hides them -----

  /** The seeding loop came to a task whose status was Failed, and set it to Waiting. */
  ghost predicate HidesFailure(c: Config, run: Run)
    requires c.Valid() && Feasible(c, run)
  {
    match run
    case Start => false
    case Then(before, e) => HidesFailure(c, before) || HidesNow(Final(c, before), e)
  }

  ghost predicate HidesNow(s: State, e: Event) {
    e.ByMain? && e.main.Scan? && IsFailed(s, e.main.task)
  }

  /** A build that failed still says so until the collector has judged it, and then the flag is
      up. */
  ghost predicate SeenAt(s: State, t: TaskId) {
    Places(s, 2, t) > 0 && s.started[t] > 0 && t !in s.succeeded ==>
      s.hasFailed || (IsFailed(s, t) && (t in s.reported ==> s.collector == Judging(t)))
  }

  lemma SeenStep(c: Config, s: State, e: Event, t: TaskId)
    requires c.Valid() && Safe(c, s) && Once(c, s) && Ended(c, s) && BuildingStarted(s) && CanceledFor(c, s) && Typed(c, s) && Enabled(c, s, e)
    requires SeenAt(s, t) && t in s.status && !HidesNow(s, e) && e != Interrupt
    ensures SeenAt(Step(c, s, e), t)
  {
    JudgedInTurn(c, s, e, t);
    hide Config.Valid, Safe, Once, Ended, BuildingStarted, CanceledFor, Typed, Places, Step, Enabled, TouchOf;
    StepEffect(c, s, e, t);
    TouchIs(c, s, e, t);
    FlagsEffect(c, s, e);
  }

  lemma TouchIs(c: Config, s: State, e: Event, t: TaskId)
    requires c.Valid() && Safe(c, s) && Once(c, s) && Ended(c, s) && BuildingStarted(s) && CanceledFor(c, s) && Typed(c, s) && Enabled(c, s, e)
    ensures var touch := TouchOf(c, s, e, t);
            && (touch.Begun? || touch.Built? || touch.Skipped? ==> Places(s, 2, t) == 0 && t !in s.reported && t !in s.succeeded)
            && (touch.Overwritten? || touch.Skipped? ==> s.hasFailed)
            && (touch.Scanned? ==> e == ByMain(Scan(t)))
            && (touch.Built? ==> !s.interrupted)
  {
    assert SentOnce(s);
    hide Config.Valid, Safe, Once, SentOnce, Ended, BuildingStarted, CanceledFor, Typed, Places, Enabled, TouchOf;
    EarlyTouch(c, s, e, t);
    OverwritesAfterFailure(c, s, e, t);
    BuiltWithoutInterrupt(c, s, e, t);
  }

  lemma JudgedInTurn(c: Config, s: State, e: Event, t: TaskId)
    requires c.Valid() && Typed(c, s) && Enabled(c, s, e)
    ensures var s' := Step(c, s, e);
            && (t in s'.reported && t !in s.reported ==> s'.collector == Judging(t))
            && (t in s.reported ==> t in s'.reported)
            && (s.collector == Judging(t) && IsFailed(s, t) ==> s'.hasFailed || s'.collector == Judging(t))
  {
    hide Config.Valid, Typed, CollectorStep, CollectorEnabled, MainStep, WorkerStep;
    if e.ByCollector? {
      ReportsInTurn(c, s, e.collect, t);
    } else {
      OthersReportNothing(c, s, e);
    }
  }

  lemma OverwritesAfterFailure(c: Config, s: State, e: Event, t: TaskId)
    requires c.Valid() && CanceledFor(c, s) && Enabled(c, s, e)
    ensures TouchOf(c, s, e, t).Overwritten? || TouchOf(c, s, e, t).Skipped? ==> s.hasFailed
    ensures TouchOf(c, s, e, t).Scanned? ==> e == ByMain(Scan(t))
  {
    hide Config.Valid;
  }

  lemma BuiltWithoutInterrupt(c: Config, s: State, e: Event, t: TaskId)
    requires c.Valid() && Safe(c, s) && Once(c, s) && Ended(c, s) && Enabled(c, s, e)
    ensures TouchOf(c, s, e, t).Built? ==> !s.interrupted
  {
    hide Config.Valid, Safe, Once;
    if TouchOf(c, s, e, t).Built? && s.interrupted {
      NoneBuildingAfterReturn(c, s, e.w);
    }
  }

  /** What the collector receives it judges at once. */
  lemma ReportsInTurn(c: Config, s: State, e: CollectorEvent, t: TaskId)
    requires c.Valid() && CollectorEnabled(c, s, e)
    ensures var s' := CollectorStep(c, s, e);
            && (t in s'.reported && t !in s.reported ==> s'.collector == Judging(t))
            && (s.collector == Judging(t) && IsFailed(s, t) ==> s'.hasFailed)
            && (t in s.reported ==> t in s'.reported)
  {
    hide Config.Valid, DepsCompleted, Loses, IsWaiting, IsCompleted;
    match e
    case CancelPick(_) =>
    case CancelSkip(_) =>
    case _ =>
  }

  lemma OthersReportNothing(c: Config, s: State, e: Event)
    requires c.Valid() && Typed(c, s) && Enabled(c, s, e) && !e.ByCollector?
    ensures Step(c, s, e).reported == s.reported && Step(c, s, e).collector == s.collector
  {
    hide Config.Valid, Typed, Loses;
    match e {
      case ByMain(m) => MainKeepsCollector(c, s, m); MainKeepsReports(c, s, m); hide MainStep;
      case ByWorker(w, work) => WorkerFrame(c, s, w, work); hide WorkerStep;
      case Interrupt =>
    }
  }

  lemma MainKeepsReports(c: Config, s: State, m: MainEvent)
    requires c.Valid() && Typed(c, s) && MainEnabled(c, s, m)
    ensures MainStep(c, s, m).reported == s.reported
  {
    hide Config.Valid, Loses;
    match m
    case Scan(_) =>
    case SeedSend =>
    case Shutdown =>
  }

  lemma {:induction false} AlwaysSeen(c: Config, run: Run, t: TaskId)
    requires c.Valid() && c.SendsOnce() && Feasible(c, run) && Uninterrupted(run) && !HidesFailure(c, run) && t in c.deps
    ensures SeenAt(Final(c, run), t)
  {
    match run
    case Start =>
      hide Config.Valid;
      HeldNothing(Init(c).workers, 2);
    case Then(before, e) =>
      ShapeKnown(c, before);
      hide Config.Valid, Config.SendsOnce, SeenAt, Step, Enabled, Init, Safe, Once, Kept, Lost, Released, Ended, HidesNow, CanceledFor, BuildingStarted, Blamed;
      AlwaysSeen(c, before, t);
      AlwaysSettling(c, before);
      AlwaysTruth(c, before);
      AlwaysCanceledFor(c, before);
      SeenStep(c, Final(c, before), e, t);
  }

  // ----- a hidden failure stays one -----

  ghost predicate OverUnbuilt(s: State, t: TaskId) {
    Places(s, 2, t) > 0 && t !in s.succeeded
  }

  lemma {:induction false} HiddenIsUnbuilt(c: Config, run: Run) returns (t: TaskId)
    requires c.Valid() && c.SendsOnce() && Feasible(c, run) && HidesFailure(c, run)
    ensures t in c.deps && OverUnbuilt(Final(c, run), t)
  {
    var before, e := run.before, run.event;
    ShapeKnown(c, before);
    AlwaysOnce(c, before);
    AlwaysTruth(c, before);
    if HidesFailure(c, before) {
      t := HiddenIsUnbuilt(c, before);
    } else {
      t := e.main.task;
      assert t in c.deps && FailedAt(Final(c, before), t);
    }
    hide Config.Valid, Config.SendsOnce, HidesFailure, Step, Enabled, Safe, Places, BuildingStarted, Blamed, SeedsUnsent, DependentsUnsent, MarksOnce, LastMarked, SentOnce, Counted;
    StepEffect(c, Final(c, before), e, t);
    EarlyTouch(c, Final(c, before), e, t);
  }

  /** The end of a run that nobody interrupts. An error names a task that was started and did
      not succeed. If there is none, all tasks were built successfully, exactly unless the
      seeding loop overwrote the status of a failed build before the collector read it. */
  lemma VerdictIsRight(c: Config, run: Run)
    requires c.Valid() && c.SendsOnce() && Feasible(c, run) && Uninterrupted(run) && Final(c, run).collector.Returned?
    ensures var s := Final(c, run);
            && (s.collector.verdict.AllBuilt? ==> ((forall t :: t in c.deps ==> t in s.succeeded) <==> !HidesFailure(c, run)))
            && (s.collector.verdict.BuildFailed? ==>
                  s.collector.verdict.first.Some? &&
                  var f := s.collector.verdict.first.value; f in s.reported && s.started[f] > 0 && f !in s.succeeded)
            && !s.collector.verdict.Interrupted?
  {
    hide Config.Valid, Config.SendsOnce, Feasible, Final, HidesFailure, Safe, Once, Kept, Lost, Released, BuildingStarted, FailedAt, Held;
    AlwaysSettling(c, run);
    AlwaysTruth(c, run);
    var s := Final(c, run);
    if s.collector.verdict.AllBuilt? {
      if HidesFailure(c, run) {
        var t := HiddenIsUnbuilt(c, run);
      } else {
        forall t | t in c.deps ensures t in s.succeeded {
          ReturnedIsBuilt(c, run, t);
        }
      }
    }
  }

  lemma ReturnedIsBuilt(c: Config, run: Run, t: TaskId)
    requires c.Valid() && c.SendsOnce() && Feasible(c, run) && Uninterrupted(run) && !HidesFailure(c, run) && t in c.deps
    requires Final(c, run).collector.Returned? && !Final(c, run).hasFailed
    ensures t in Final(c, run).succeeded
  {
    hide Config.Valid, Config.SendsOnce, Feasible, Final, HidesFailure, Safe, Once, Kept, Lost, Released, Held;
    AlwaysSettling(c, run);
    ReportedWhenReturned(c, Final(c, run), t);
    ReportedWasStarted(c, run, t);
    AlwaysSeen(c, run, t);
    assert Places(Final(c, run), 2, t) > 0;
  }

  /** A run that seeds first hides nothing, and neither does any run of tasks without
      dependencies. */
  lemma {:induction false} SeedFirstHidesNothing(c: Config, run: Run)
    requires c.Valid() && c.SendsOnce() && Feasible(c, run) && (ScansFirst(run) || NoDependencies(c))
    ensures !HidesFailure(c, run)
  {
    hide Config.Valid, Config.SendsOnce, Enabled, Step, Init, HidesNow, NoDependencies;
    match run
    case Start =>
    case Then(before, e) =>
      SeedFirstHidesNothing(c, before);
      NoneCompletedYet(c, before);
      HidesNothingNow(c, before, e);
  }

  lemma {:induction false} NoneCompletedYet(c: Config, run: Run)
    requires c.Valid() && Feasible(c, run)
    ensures !Marked(run) ==> Final(c, run).completed == []
  {
    match run
    case Start =>
    case Then(before, e) =>
      hide Config.Valid, Enabled, Step, Init;
      NoneCompletedYet(c, before);
      if e != ByCollector(MarkCompleted) {
        CompletedStep(c, Final(c, before), e);
      }
  }

  lemma HidesNothingNow(c: Config, before: Run, e: Event)
    requires c.Valid() && c.SendsOnce() && Feasible(c, Then(before, e)) && (Final(c, before).completed == [] || !(e.ByMain? && e.main.Scan?) || NoDependencies(c))
    ensures !HidesNow(Final(c, before), e)
  {
    ShapeKnown(c, before);
    AlwaysOnce(c, before);
    AlwaysTruth(c, before);
    hide Config.Valid, Config.SendsOnce, Final, Feasible, Safe, Once, BuildingStarted, Blamed, FailedAt;
    var s := Final(c, before);
    if HidesNow(s, e) {
      ScannedIsKnown(c, before, e.main.task);
      FailedWasSent(c, s, e.main.task);
    }
  }

  lemma ScannedIsKnown(c: Config, before: Run, t: TaskId)
    requires c.Valid() && Feasible(c, Then(before, ByMain(Scan(t))))
    ensures t in Final(c, before).unscanned && t in c.deps
  {
    ShapeKnown(c, before);
    hide Config.Valid;
  }

  lemma CompletedStep(c: Config, s: State, e: Event)
    requires c.Valid() && Typed(c, s) && Enabled(c, s, e) && e != ByCollector(MarkCompleted)
    ensures Step(c, s, e).completed == s.completed
  {
    hide Config.Valid, Typed, Loses;
    match e {
      case ByMain(m) =>
      case ByWorker(w, work) => WorkerFrame(c, s, w, work); hide WorkerStep;
      case ByCollector(collect) => CollectorFrame(c, s, collect); hide CollectorStep, CollectorEnabled;
      case Interrupt =>
    }
  }

  lemma FailedWasSent(c: Config, s: State, t: TaskId)
    requires c.Valid() && Safe(c, s) && Once(c, s) && FailedAt(s, t) && IsFailed(s, t) && t in s.unscanned && t in c.deps
    ensures c.deps[t] != [] && s.completed != []
  {
    hide Held, Shape, Traced, Ordered, ClosedLast, Config.Valid, Counted, MarksOnce, LastMarked, DependentsUnsent;
    HeldStages(s.workers, t);
    assert s.sent[t] == Places(s, 0, t) > 0;
    assert t in s.sent && SeedsUnsent(c, s);
    assert c.deps[t] != [];
    assert c.deps[t][0] in c.deps[t];
    assert c.deps[t][0] in s.completed;
  }

  // ----- a failure that is hidden -----

  /** The build of `second` fails, the seeding loop sets it to Waiting, and the collector returns
      without an error. */
  lemma FailureHidden() returns (run: Run)
    ensures Pair().Valid() && Feasible(Pair(), run) && Uninterrupted(run)
    ensures var s := Final(Pair(), run);
            s.collector == Returned(AllBuilt) && s.started[TaskId("second")] > 0 && TaskId("second") !in s.succeeded
  {
    var c, first, second := Pair(), TaskId("first"), TaskId("second");
    PairIs();
    hide Pair, Feasible, Final, Config.Valid, Config.Capacity, Config.Tasks, Uninterrupted, IsWaiting, IsFailed;
    run := FirstBuilds(c, first, second);
    KeepsMeans(Start, run);
    StartIs(c);
    var longer := FirstReleasesSecond(c, run, first, second);
    KeepsMeans(run, longer);
    run := SecondFailsUnseen(c, longer, second);
  }

  lemma SecondFailsUnseen(c: Config, run: Run, second: TaskId) returns (run': Run)
    requires c.Valid() && Feasible(c, run) && Uninterrupted(run)
    requires var s := Final(c, run);
             && s.unscanned == {second} && second in c.deps && s.sending == None && s.ready == [second] && s.results == []
             && s.workers == [Idle] && s.collector == Receiving && s.pendingCount == 1 && !s.hasFailed && !s.interrupted && second !in s.succeeded
    ensures Feasible(c, run') && Uninterrupted(run')
    ensures var s := Final(c, run'); s.collector == Returned(AllBuilt) && s.started[second] > 0 && second !in s.succeeded
  {
    hide Feasible, Final, Config.Valid, Config.Capacity, Config.Tasks, Healthy, Uninterrupted, DepsCompleted;
    run' := PullNext(c, run, second);
    run' := GoNext(c, run', second);
    run' := BeginNext(c, run', second);
    run' := FailNext(c, run', second);
    run' := ScanNext(c, run', second);
    run' := ReportNext(c, run', second);
    run' := JudgeOtherNext(c, run', second);
    run' := MarkOtherNext(c, run', second);
    run' := ReturnNext(c, run');
  }

  // ----- the channels -----

  /** Neither channel ever holds more than twice as many tasks as there are workers. */
  ghost predicate Fitting(c: Config, s: State) {
    |s.ready| <= 2 * c.maxWorkers && |s.results| <= 2 * c.maxWorkers
  }

  lemma FittingStep(c: Config, s: State, e: Event)
    requires c.Valid() && Typed(c, s) && Enabled(c, s, e) && Fitting(c, s)
    ensures Fitting(c, Step(c, s, e))
  {
    hide Config.Valid, Typed, DepsCompleted, Loses, IsFailed, IsWaiting, IsCompleted;
    match e {
      case ByMain(m) =>
      case ByWorker(w, work) =>
        WorkerFrame(c, s, w, work);
        hide WorkerStep;
      case ByCollector(collect) => FittingCollector(c, s, collect);
      case Interrupt =>
    }
  }

  lemma FittingCollector(c: Config, s: State, e: CollectorEvent)
    requires c.Valid() && CollectorEnabled(c, s, e) && Fitting(c, s)
    ensures Fitting(c, CollectorStep(c, s, e))
  {
    hide Config.Valid, DepsCompleted, Loses, IsFailed, IsWaiting, IsCompleted;
    match e
    case CancelPick(_) =>
    case CancelSkip(_) =>
    case _ =>
  }

  lemma {:induction false} ChannelsNeverOverflow(c: Config, run: Run)
    requires c.Valid() && Feasible(c, run)
    ensures |Final(c, run).ready| <= 2 * c.maxWorkers && |Final(c, run).results| <= 2 * c.maxWorkers
  {
    match run
    case Start =>
    case Then(before, e) =>
      hide Config.Valid, Step, Enabled, Init;
      ChannelsNeverOverflow(c, before);
      FittingStep(c, Final(c, before), e);
  }
}
