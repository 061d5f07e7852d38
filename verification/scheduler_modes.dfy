/** What a failure or an interrupt does to the tasks not built yet, in either failure mode. */
module SchedulerModes {
  import opened Wrappers
  import opened TaskGraph
  import opened SchedulerProtocol
  import opened SchedulerSafety
  import opened SchedulerOnce
  import opened SchedulerOutcome
  import opened SchedulerSteps
  import opened SchedulerRuns

  // ----- what one event does to one task -----

  datatype Touch = Untouched | Scanned | Skipped | Begun | Built(ok: bool) | Overwritten

  function WorkerTouch(s: State, w: nat, e: WorkerEvent, t: TaskId): Touch
    requires w < |s.workers| && (e.CheckStop? || e.Begin? || e.Finish? ==> !s.workers[w].Idle? && !s.workers[w].Exited?)
  {
    match e
    case CheckStop => if s.workers[w].task == t then Skipped else Untouched
    case Begin => if s.workers[w].task == t then Begun else Untouched
    case Finish(ok) => if s.workers[w].task == t then Built(ok) else Untouched
    case _ => Untouched
  }

  ghost function TouchOf(c: Config, s: State, e: Event, t: TaskId): Touch
    requires c.Valid() && Enabled(c, s, e)
  {
    match e
    case ByMain(m) => if m == Scan(t) then Scanned else Untouched
    case ByWorker(w, work) => WorkerTouch(s, w, work, t)
    case ByCollector(collect) => if collect.CancelWrite? && s.collector.victim == t then Overwritten else Untouched
    case Interrupt => Untouched
  }

  function StatusAfter(s: State, touch: Touch, before: Status): Status {
    match touch
    case Untouched => before
    case Scanned => Waiting
    case Skipped => Canceled
    case Begun => Running
    case Built(ok) => if s.interrupted then Canceled else if ok then Completed else Failed
    case Overwritten => Canceled
  }

  /** The event's effect on the status of `t`, on how often it was started and built, and on
      what is known of it. */
  ghost predicate Effect(c: Config, s: State, e: Event, s': State, t: TaskId)
    requires c.Valid() && Enabled(c, s, e)
  {
    var touch := TouchOf(c, s, e, t);
    && (t in s.status ==> t in s'.status && s'.status[t] == StatusAfter(s, touch, s.status[t]))
    && s'.started[t] == s.started[t] + (if touch.Begun? then 1 else 0)
    && Places(s', 2, t) == Places(s, 2, t) + (if touch.Built? || touch.Skipped? then 1 else 0)
    && (t in s'.succeeded <==> t in s.succeeded || (touch.Built? && touch.ok && !s.interrupted))
    && (t in s'.unscanned <==> t in s.unscanned && !touch.Scanned?)
    && (touch.Scanned? ==> t in s.unscanned)
  }

  lemma MainEffect(c: Config, s: State, m: MainEvent, t: TaskId)
    requires c.Valid() && Typed(c, s) && MainEnabled(c, s, m)
    ensures Effect(c, s, ByMain(m), MainStep(c, s, m), t)
  {
    hide Held, Config.Valid, Loses;
    match m
    case Scan(_) =>
    case SeedSend =>
    case Shutdown =>
  }

  lemma WorkerEffect(c: Config, s: State, w: nat, work: WorkerEvent, t: TaskId)
    requires c.Valid() && WorkerEnabled(c, s, w, work)
    ensures Effect(c, s, ByWorker(w, work), WorkerStep(c, s, w, work), t)
  {
    hide Places, Config.Valid;
    WorkerMoves(c, s, w, work, 2, t);
    match work
    case Finish(_) =>
    case _ =>
  }

  lemma CollectorEffect(c: Config, s: State, collect: CollectorEvent, t: TaskId)
    requires c.Valid() && CollectorEnabled(c, s, collect)
    ensures Effect(c, s, ByCollector(collect), CollectorStep(c, s, collect), t)
  {
    hide Places, Config.Valid, DepsCompleted, Loses, IsFailed, IsWaiting, IsCompleted;
    CollectorMoves(c, s, collect, 2, t);
    match collect
    case CancelPick(_) =>
    case CancelSkip(_) =>
    case _ =>
  }

  lemma StepEffect(c: Config, s: State, e: Event, t: TaskId)
    requires c.Valid() && Typed(c, s) && Enabled(c, s, e)
    ensures Effect(c, s, e, Step(c, s, e), t)
  {
    match e
    case ByMain(m) => hide *; MainEffect(c, s, m, t);
    case ByWorker(w, work) => hide *; WorkerEffect(c, s, w, work, t);
    case ByCollector(collect) => hide *; CollectorEffect(c, s, collect, t);
    case Interrupt =>
  }

  /** The failure flag is never taken back, and raised only over a task whose status is Failed. */
  lemma FlagsEffect(c: Config, s: State, e: Event)
    requires c.Valid() && Typed(c, s) && Enabled(c, s, e)
    ensures var s' := Step(c, s, e);
            && (s.hasFailed ==> s'.hasFailed) && (s.interrupted ==> s'.interrupted)
            && (s.failedTask.Some? || !s'.hasFailed ==> s'.failedTask == s.failedTask)
            && s.reported <= s'.reported
            && (s'.hasFailed && !s.hasFailed ==>
                  && s.collector.Judging? && IsFailed(s, s.collector.task) && !s'.collector.Judging?
                  && (s.failedTask == None ==> s'.failedTask == Some(s.collector.task)))
  {
    hide Config.Valid, Typed, DepsCompleted, Loses, IsWaiting, IsCompleted;
    match e {
      case ByMain(m) =>
      case ByWorker(w, work) =>
        WorkerFrame(c, s, w, work);
        WorkerKeepsVerdict(c, s, w, work);
        hide WorkerStep;
      case ByCollector(collect) => FlagsCollector(c, s, collect);
      case Interrupt =>
    }
  }

  lemma FlagsCollector(c: Config, s: State, e: CollectorEvent)
    requires c.Valid() && CollectorEnabled(c, s, e)
    ensures var s' := CollectorStep(c, s, e);
            && (s.hasFailed ==> s'.hasFailed) && s'.interrupted == s.interrupted
            && (s.failedTask.Some? || !s'.hasFailed ==> s'.failedTask == s.failedTask)
            && s.reported <= s'.reported
            && (s'.hasFailed && !s.hasFailed ==>
                  && s.collector.Judging? && IsFailed(s, s.collector.task) && !s'.collector.Judging?
                  && (s.failedTask == None ==> s'.failedTask == Some(s.collector.task)))
  {
    hide Config.Valid, DepsCompleted, Loses, IsFailed, IsWaiting, IsCompleted;
    match e
    case CancelPick(_) =>
    case CancelSkip(_) =>
    case _ =>
  }

  // ----- nothing is skipped without a failure in stop mode -----

  /** Every build that was started is being run, finished, in a channel, or reported. */
  ghost predicate NothingSkipped(s: State) {
    forall t :: Places(s, 1, t) == s.started[t]
  }

  lemma SkipsNothing(c: Config, s: State, e: Event)
    requires c.Valid() && Typed(c, s) && Enabled(c, s, e) && NothingSkipped(s)
    requires c.mode == ContinueOnFailure || !s.hasFailed
    ensures NothingSkipped(Step(c, s, e))
  {
    hide Places, Config.Valid, Typed, MainStep, WorkerStep, CollectorStep;
    forall t ensures Places(Step(c, s, e), 1, t) == Step(c, s, e).started[t] {
      match e {
        case ByMain(m) => MainKeepsStage(c, s, m, t);
        case ByWorker(w, work) =>
          WorkerMoves(c, s, w, work, 1, t);
          WorkerFrame(c, s, w, work);
        case ByCollector(collect) =>
          CollectorMoves(c, s, collect, 1, t);
          CollectorHistory(c, s, collect);
        case Interrupt => InterruptKeepsStage(s, t);
      }
    }
  }

  lemma MainKeepsStage(c: Config, s: State, m: MainEvent, t: TaskId)
    requires c.Valid() && Typed(c, s) && MainEnabled(c, s, m)
    ensures Places(MainStep(c, s, m), 1, t) == Places(s, 1, t) && MainStep(c, s, m).started == s.started
  {
    hide Held, Config.Valid, Loses;
    match m
    case Scan(_) =>
    case SeedSend =>
    case Shutdown =>
  }

  lemma InterruptKeepsStage(s: State, t: TaskId)
    ensures Places(s.(interrupted := true), 1, t) == Places(s, 1, t)
  {
  }

  lemma {:induction false} AlwaysNothingSkipped(c: Config, run: Run)
    requires c.Valid() && Feasible(c, run) && (c.mode == ContinueOnFailure || !Final(c, run).hasFailed)
    ensures NothingSkipped(Final(c, run))
  {
    match run
    case Start =>
      hide Config.Valid;
      HeldNothing(Init(c).workers, 1);
    case Then(before, e) =>
      hide Config.Valid, NothingSkipped, Step, Enabled, Init;
      FlagsEffect(c, Final(c, before), e);
      AlwaysNothingSkipped(c, before);
      SkipsNothing(c, Final(c, before), e);
  }

  /** In a run of any kind, whatever has been reported was started as often, if the mode is to
      continue or no failure was noticed. */
  lemma ReportedWasStarted(c: Config, run: Run, t: TaskId)
    requires c.Valid() && Feasible(c, run) && (c.mode == ContinueOnFailure || !Final(c, run).hasFailed)
    ensures Final(c, run).reported[t] <= Final(c, run).started[t]
  {
    hide Config.Valid, Held, Feasible, Final;
    AlwaysNothingSkipped(c, run);
    assert Places(Final(c, run), 1, t) == Final(c, run).started[t];
  }

  // ----- after a failure in stop mode -----

  predicate Cleared1(s: State, t: TaskId) {
    exists w :: 0 <= w < |s.workers| && s.workers[w] == Cleared(t)
  }

  predicate Building1(s: State, t: TaskId) {
    exists w :: 0 <= w < |s.workers| && s.workers[w] == Building(t)
  }

  /** Nobody is past the check for `t`, after a failure. */
  ghost predicate Barred(c: Config, s: State, t: TaskId) {
    c.mode == StopOnFailure && s.hasFailed && !Cleared1(s, t)
  }

  lemma StaysBarred(c: Config, s: State, e: Event, t: TaskId)
    requires c.Valid() && Typed(c, s) && Enabled(c, s, e) && Barred(c, s, t)
    ensures Barred(c, Step(c, s, e), t) && !TouchOf(c, s, e, t).Begun?
    ensures !Building1(s, t) ==> !Building1(Step(c, s, e), t) && !TouchOf(c, s, e, t).Built?
  {
    FlagsEffect(c, s, e);
    hide Config.Valid, Typed, DepsCompleted, Loses, IsFailed, IsWaiting, IsCompleted;
    match e {
      case ByMain(m) =>
      case ByWorker(w, work) =>
        WorkerFrame(c, s, w, work);
        assert s.workers[w] == Cleared(t) ==> Cleared1(s, t);
        assert s.workers[w] == Building(t) ==> Building1(s, t);
        hide WorkerStep;
      case ByCollector(collect) =>
        CollectorKeepsWorkers(c, s, collect);
        hide CollectorStep, CollectorEnabled;
      case Interrupt =>
    }
  }

  lemma CollectorKeepsWorkers(c: Config, s: State, e: CollectorEvent)
    requires c.Valid() && CollectorEnabled(c, s, e)
    ensures CollectorStep(c, s, e).workers == s.workers
  {
    hide Config.Valid, DepsCompleted, Loses, IsFailed, IsWaiting, IsCompleted;
    match e
    case CancelPick(_) =>
    case CancelSkip(_) =>
    case _ =>
  }

  /** In stop mode, once the collector has noticed a failure, no build is started any more but
      those of the workers that had passed the check by then. */
  lemma {:induction false} NoneStartedAfterFailure(c: Config, run: Run, longer: Run, t: TaskId)
    requires c.Valid() && Feasible(c, run) && Feasible(c, longer) && Continues(run, longer)
    requires c.mode == StopOnFailure && Final(c, run).hasFailed
    requires forall w :: 0 <= w < |Final(c, run).workers| ==> Final(c, run).workers[w] != Cleared(t)
    ensures Final(c, longer).started[t] == Final(c, run).started[t]
    ensures Barred(c, Final(c, longer), t)
    decreases longer
  {
    hide Config.Valid, Enabled, Step, TouchOf;
    if longer != run {
      NoneStartedAfterFailure(c, run, longer.before, t);
      StaysBarred(c, Final(c, longer.before), longer.event, t);
      StepEffect(c, Final(c, longer.before), longer.event, t);
    }
  }

  /** `t` is past the check in no worker, and if it is over, it was skipped. */
  ghost predicate Skipping(c: Config, s: State, t: TaskId) {
    && Barred(c, s, t) && !Building1(s, t) && t !in s.unscanned && t in s.status
    && (Places(s, 2, t) > 0 ==> s.status[t] == Canceled)
  }

  lemma KeepsSkipping(c: Config, s: State, e: Event, t: TaskId)
    requires c.Valid() && Typed(c, s) && Enabled(c, s, e) && Skipping(c, s, t)
    ensures Skipping(c, Step(c, s, e), t)
  {
    StaysBarred(c, s, e, t);
    StepEffect(c, s, e, t);
    hide Config.Valid, Step, Enabled, TouchOf, Barred, Building1, Places;
  }

  lemma {:induction false} SkippingForever(c: Config, run: Run, longer: Run, t: TaskId)
    requires c.Valid() && Feasible(c, run) && Feasible(c, longer) && Continues(run, longer) && Skipping(c, Final(c, run), t)
    ensures Skipping(c, Final(c, longer), t)
    decreases longer
  {
    hide Config.Valid, Enabled, Step, Skipping;
    if longer != run {
      SkippingForever(c, run, longer.before, t);
      KeepsSkipping(c, Final(c, longer.before), longer.event, t);
    }
  }

  /** A task that no worker had passed the check with, that was not over and that the seeding
      loop had come to, when the failure was noticed: if it is reported later, its status is
      Canceled, and it was not started since. */
  lemma SkippedIsCanceled(c: Config, run: Run, longer: Run, t: TaskId)
    requires c.Valid() && Feasible(c, run) && Feasible(c, longer) && Continues(run, longer) && t in c.deps
    requires c.mode == StopOnFailure && Final(c, run).hasFailed && t !in Final(c, run).unscanned
    requires forall w :: 0 <= w < |Final(c, run).workers| ==> Final(c, run).workers[w] != Cleared(t) && Final(c, run).workers[w] != Building(t)
    requires Places(Final(c, run), 2, t) == 0
    ensures t in Final(c, longer).reported ==>
              t in Final(c, longer).status && Final(c, longer).status[t] == Canceled && Final(c, longer).started[t] == Final(c, run).started[t]
  {
    hide Config.Valid, Feasible, Final, Held;
    ShapeKnown(c, run);
    assert Skipping(c, Final(c, run), t);
    SkippingForever(c, run, longer, t);
    NoneStartedAfterFailure(c, run, longer, t);
    assert t in Final(c, longer).reported ==> Places(Final(c, longer), 2, t) > 0;
  }

  // ----- after an interrupt -----

  /** `t` is not built, and if it is over, it was canceled. */
  ghost predicate Stopped(s: State, t: TaskId) {
    && s.interrupted && t !in s.unscanned && t in s.status && t !in s.succeeded
    && (Places(s, 2, t) > 0 ==> s.status[t] == Canceled)
  }

  lemma KeepsStopped(c: Config, s: State, e: Event, t: TaskId)
    requires c.Valid() && Safe(c, s) && SentOnce(s) && Typed(c, s) && Enabled(c, s, e) && Stopped(s, t)
    ensures Stopped(Step(c, s, e), t)
  {
    FlagsEffect(c, s, e);
    StepEffect(c, s, e, t);
    if TouchOf(c, s, e, t).Begun? {
      EarlyIsAlone(c, s, e.w);
    }
    hide Config.Valid, Safe, SentOnce, Typed, Step, Places;
  }

  lemma {:induction false} StoppedForever(c: Config, run: Run, longer: Run, t: TaskId)
    requires c.Valid() && c.SendsOnce() && Feasible(c, run) && Feasible(c, longer) && Continues(run, longer) && Stopped(Final(c, run), t)
    ensures Stopped(Final(c, longer), t)
    decreases longer
  {
    hide Config.Valid, Config.SendsOnce, Enabled, Step, Stopped, Safe, SeedsUnsent, DependentsUnsent, MarksOnce, LastMarked, SentOnce, Counted;
    if longer != run {
      StoppedForever(c, run, longer.before, t);
      AlwaysOnce(c, longer.before);
      KeepsStopped(c, Final(c, longer.before), longer.event, t);
    }
  }

  /** A build that is not over when the interrupt comes never counts as successful, whatever it
      returns, and its status ends as Canceled once it is reported. */
  lemma InterruptedIsCanceled(c: Config, run: Run, longer: Run, t: TaskId)
    requires c.Valid() && c.SendsOnce() && Feasible(c, run) && Feasible(c, longer) && Continues(run, longer) && t in c.deps
    requires Final(c, run).interrupted && t !in Final(c, run).unscanned && Places(Final(c, run), 2, t) == 0
    ensures t !in Final(c, longer).succeeded && t !in Final(c, longer).completed
    ensures t in Final(c, longer).reported ==> t in Final(c, longer).status && Final(c, longer).status[t] == Canceled
  {
    hide Config.Valid, Config.SendsOnce, Feasible, Final, Held;
    ShapeKnown(c, run);
    NotOverNotBuilt(c, run, t);
    StoppedForever(c, run, longer, t);
    CompletionOrder(c, longer);
    assert t in Final(c, longer).reported ==> Places(Final(c, longer), 2, t) > 0;
  }

  lemma NotOverNotBuilt(c: Config, run: Run, t: TaskId)
    requires c.Valid() && Feasible(c, run) && Places(Final(c, run), 2, t) == 0
    ensures t !in Final(c, run).succeeded
  {
    hide Config.Valid, Feasible, Final, Places, Shape, Conserved, DepsDone, Truthful, Ordered, ClosedLast;
    AlwaysSafe(c, run);
  }

  // ----- who is canceled -----

  /** Only an interrupt, or a failure in stop mode, cancels anything. */
  ghost predicate CanceledFor(c: Config, s: State) {
    && ((exists t :: t in s.status && s.status[t] == Canceled) ==> s.interrupted || (c.mode == StopOnFailure && s.hasFailed))
    && (s.collector.Canceling? || s.collector.Overwriting? ==> c.mode == StopOnFailure && s.hasFailed)
  }

  lemma CanceledForStep(c: Config, s: State, e: Event)
    requires c.Valid() && Typed(c, s) && Enabled(c, s, e) && CanceledFor(c, s) && Typed(c, Step(c, s, e))
    ensures CanceledFor(c, Step(c, s, e))
  {
    hide Config.Valid, Step, Enabled, Effect;
    FlagsEffect(c, s, e);
    CancelingEffect(c, s, e);
    var s' := Step(c, s, e);
    forall t | t in s'.status && s'.status[t] == Canceled ensures s'.interrupted || (c.mode == StopOnFailure && s'.hasFailed) {
      CancelsFor(c, s, e, t);
    }
  }

  lemma CancelsFor(c: Config, s: State, e: Event, t: TaskId)
    requires c.Valid() && Typed(c, s) && Enabled(c, s, e) && CanceledFor(c, s)
    requires t in s.status && t in Step(c, s, e).status && Step(c, s, e).status[t] == Canceled
    ensures s.interrupted || (c.mode == StopOnFailure && s.hasFailed)
  {
    StepEffect(c, s, e, t);
    hide Config.Valid, Typed, Step, Places, MainEnabled, DepsCompleted;
  }

  lemma CancelingEffect(c: Config, s: State, e: Event)
    requires c.Valid() && Typed(c, s) && Enabled(c, s, e)
    ensures var s' := Step(c, s, e);
            s'.collector.Canceling? || s'.collector.Overwriting? ==>
              s.collector.Canceling? || s.collector.Overwriting? || (c.mode == StopOnFailure && s'.hasFailed)
  {
    hide Config.Valid, MainStep, WorkerStep, CollectorStep;
    match e {
      case ByMain(m) => MainKeepsCollector(c, s, m);
      case ByWorker(w, work) => WorkerFrame(c, s, w, work);
      case ByCollector(collect) => CancelingCollector(c, s, collect);
      case Interrupt =>
    }
  }

  lemma CancelingCollector(c: Config, s: State, e: CollectorEvent)
    requires c.Valid() && CollectorEnabled(c, s, e)
    ensures var s' := CollectorStep(c, s, e);
            s'.collector.Canceling? || s'.collector.Overwriting? ==>
              s.collector.Canceling? || s.collector.Overwriting? || (c.mode == StopOnFailure && s'.hasFailed)
  {
    hide Config.Valid, DepsCompleted, Loses, IsFailed, IsWaiting, IsCompleted;
    match e
    case CancelPick(_) =>
    case CancelSkip(_) =>
    case _ =>
  }

  lemma {:induction false} AlwaysCanceledFor(c: Config, run: Run)
    requires c.Valid() && Feasible(c, run)
    ensures CanceledFor(c, Final(c, run))
  {
    match run
    case Start =>
    case Then(before, e) =>
      ShapeKnown(c, run);
      hide Config.Valid, CanceledFor, Step, Enabled, Init;
      AlwaysCanceledFor(c, before);
      CanceledForStep(c, Final(c, before), e);
  }

  /** In continue mode, or before a failure is noticed, nothing is canceled without an interrupt. */
  lemma NothingCanceled(c: Config, run: Run, t: TaskId)
    requires c.Valid() && Feasible(c, run) && !Final(c, run).interrupted && t in Final(c, run).status
    requires c.mode == ContinueOnFailure || !Final(c, run).hasFailed
    ensures Final(c, run).status[t] != Canceled
  {
    hide Config.Valid, Feasible, Final;
    AlwaysCanceledFor(c, run);
  }

  /** In stop mode, the collector is about to cancel `t`, or it does not wait any more. */
  ghost predicate Sweeping(s: State, t: TaskId) {
    && t !in s.unscanned && t in s.status
    && (IsWaiting(s, t) ==>
          || (s.collector.Canceling? && t in s.collector.rest)
          || (s.collector.Overwriting? && (t in s.collector.rest || t == s.collector.victim)))
  }

  lemma KeepsSweeping(c: Config, s: State, e: Event, t: TaskId)
    requires c.Valid() && Typed(c, s) && Enabled(c, s, e) && Sweeping(s, t)
    ensures Sweeping(Step(c, s, e), t)
  {
    StepEffect(c, s, e, t);
    hide Config.Valid, Typed, DepsCompleted, Loses, Places, MainStep, WorkerStep, CollectorStep, CollectorEnabled, Sweeping;
    match e {
      case ByMain(m) =>
        MainKeepsCollector(c, s, m);
        SweepsOn(c, s, e, Step(c, s, e), t);
      case ByWorker(w, work) =>
        WorkerFrame(c, s, w, work);
        SweepsOn(c, s, e, Step(c, s, e), t);
      case ByCollector(collect) => SweepCollector(c, s, collect, t);
      case Interrupt => SweepsOn(c, s, e, Step(c, s, e), t);
    }
  }

  lemma MainKeepsCollector(c: Config, s: State, m: MainEvent)
    requires c.Valid() && Typed(c, s) && MainEnabled(c, s, m)
    ensures MainStep(c, s, m).collector == s.collector
  {
    hide Config.Valid, Loses;
    match m
    case Scan(_) =>
    case SeedSend =>
    case Shutdown =>
  }

  lemma SweepsOn(c: Config, s: State, e: Event, s': State, t: TaskId)
    requires c.Valid() && Enabled(c, s, e) && !e.ByCollector? && Effect(c, s, e, s', t) && Sweeping(s, t) && s'.collector == s.collector
    ensures Sweeping(s', t)
  {
    hide Config.Valid, Enabled, Places, TouchOf;
    OnlyScansWait(c, s, e, t);
  }

  lemma OnlyScansWait(c: Config, s: State, e: Event, t: TaskId)
    requires c.Valid() && Enabled(c, s, e)
    ensures TouchOf(c, s, e, t).Scanned? ==> t in s.unscanned
  {
    hide Config.Valid;
  }

  lemma SweepCollector(c: Config, s: State, e: CollectorEvent, t: TaskId)
    requires c.Valid() && CollectorEnabled(c, s, e) && Sweeping(s, t)
    ensures Sweeping(CollectorStep(c, s, e), t)
  {
    if s.collector.Canceling? || s.collector.Overwriting? {
      hide Config.Valid, DepsCompleted, Loses, IsFailed, IsCompleted;
    } else {
      CollectorKeepsStatus(c, s, e, t);
      hide Config.Valid, CollectorStep, CollectorEnabled;
    }
  }

  lemma CollectorKeepsStatus(c: Config, s: State, e: CollectorEvent, t: TaskId)
    requires c.Valid() && CollectorEnabled(c, s, e) && !s.collector.Canceling? && !s.collector.Overwriting?
    ensures CollectorStep(c, s, e).status == s.status && CollectorStep(c, s, e).unscanned == s.unscanned
  {
    hide Config.Valid, DepsCompleted, Loses, IsFailed, IsWaiting, IsCompleted;
    match e
    case CancelPick(_) =>
    case CancelSkip(_) =>
    case _ =>
  }

  lemma {:induction false} SweepingForever(c: Config, run: Run, longer: Run, t: TaskId)
    requires c.Valid() && Feasible(c, run) && Feasible(c, longer) && Continues(run, longer) && Sweeping(Final(c, run), t)
    ensures Sweeping(Final(c, longer), t)
    decreases longer
  {
    hide Config.Valid, Enabled, Step, Sweeping;
    if longer != run {
      SweepingForever(c, run, longer.before, t);
      KeepsSweeping(c, Final(c, longer.before), longer.event, t);
    }
  }

  /** In stop mode, after the first failure, every task the seeding loop had come to is canceled
      if it was still waiting: once the collector is through, none of them waits. */
  lemma FailureEndsWaiting(c: Config, before: Run, longer: Run, t: TaskId)
    requires c.Valid() && Feasible(c, Then(before, ByCollector(JudgeFirst))) && Feasible(c, longer)
    requires Continues(Then(before, ByCollector(JudgeFirst)), longer) && t in c.deps && t !in Final(c, before).unscanned
    ensures var s := Final(c, longer);
            !s.collector.Canceling? && !s.collector.Overwriting? ==> t in s.status && s.status[t] != Waiting && s.status[t] != Pending
  {
    var run := Then(before, ByCollector(JudgeFirst));
    ShapeKnown(c, before);
    JudgingSweeps(c, Final(c, before), t);
    assert Final(c, run) == CollectorStep(c, Final(c, before), JudgeFirst);
    hide Config.Valid, Feasible, Final;
    SweepingForever(c, run, longer, t);
  }

  lemma JudgingSweeps(c: Config, s: State, t: TaskId)
    requires c.Valid() && Typed(c, s) && CollectorEnabled(c, s, JudgeFirst) && t in c.deps && t !in s.unscanned
    ensures Sweeping(CollectorStep(c, s, JudgeFirst), t)
  {
    hide Config.Valid, DepsCompleted;
  }
}
