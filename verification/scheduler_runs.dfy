/** Runs that exist: every run can be continued to its end, and what can go wrong in a run does
    go wrong in some. */
module SchedulerRuns {
  import opened Wrappers
  import opened Digraph
  import opened TaskGraph
  import opened SchedulerProtocol
  import opened SchedulerSafety
  import opened SchedulerOnce
  import opened SchedulerRank
  import opened SchedulerOutcome
  import opened SchedulerEndings
  import opened SchedulerSteps

  // ----- every run has an end -----

  predicate Continues(run: Run, longer: Run) {
    longer == run || (longer.Then? && Continues(run, longer.before))
  }

  lemma {:induction false} ContinuesLater(run: Run, e: Event, longer: Run)
    requires Continues(Then(run, e), longer)
    ensures Continues(run, longer)
  {
    if longer != Then(run, e) {
      ContinuesLater(run, e, longer.before);
    } else {
      assert Continues(run, longer.before);
    }
  }

  /** Some goroutine moves, and if it ends a build, successfully. */
  lemma SomeMove(c: Config, s: State) returns (e: Event)
    requires c.Valid() && !Stuck(c, s)
    ensures e != Interrupt && Enabled(c, s, e) && (e.ByWorker? && e.work.Finish? ==> e.work.ok)
  {
    hide Config.Valid, CollectorEnabled, MainEnabled;
    e :| e != Interrupt && Enabled(c, s, e);
    if e.ByWorker? && e.work.Finish? {
      e := ByWorker(e.w, Finish(true));
    }
  }

  /** Every run can go on until nobody can move, without an interrupt, and without a failure
      if there was none. */
  lemma {:induction false} MaximalRunExists(c: Config, run: Run) returns (longer: Run)
    requires c.Valid() && Feasible(c, run)
    ensures Feasible(c, longer) && Continues(run, longer) && Stuck(c, Final(c, longer))
    ensures Healthy(run) ==> Healthy(longer)
    ensures Uninterrupted(run) ==> Uninterrupted(longer)
    decreases (3 * |c.deps| + 7 * Longest(c.dependents) + 13) * |c.deps| + c.maxWorkers + 3 - Length(run)
  {
    hide Feasible, Final, Stuck, Enabled, Keeps, Config.Valid;
    if Stuck(c, Final(c, run)) {
      longer := run;
    } else {
      var e := SomeMove(c, Final(c, run));
      var next := Extend(c, run, e);
      assert (Healthy(run) ==> Healthy(next)) && (Uninterrupted(run) ==> Uninterrupted(next)) by { KeepsMeans(run, next); }
      RunsAreFinite(c, next);
      longer := MaximalRunExists(c, next);
      ContinuesLater(run, e, longer);
    }
  }

  lemma KeepsMeans(run: Run, longer: Run)
    requires Keeps(run, longer)
    ensures (Healthy(run) ==> Healthy(longer)) && (Uninterrupted(run) ==> Uninterrupted(longer))
  {
  }

  /** The state in which every run begins. */
  lemma StartIs(c: Config)
    requires c.Valid()
    ensures Feasible(c, Start) && Healthy(Start) && Uninterrupted(Start)
    ensures var s := Final(c, Start);
            && s.unscanned == c.Tasks() && s.sending == None && s.ready == [] && s.results == [] && s.completed == []
            && s.workers != [] && (forall w :: 0 <= w < |s.workers| ==> s.workers[w] == Idle) && |s.workers| == c.maxWorkers
            && s.collector == Receiving && s.pendingCount == |c.deps| && !s.hasFailed && s.failedTask == None
            && !s.interrupted && !s.closed && s.succeeded == {} && s.overwritten == {} && s.dropped == {}
            && s.status.Keys == c.Tasks() && (forall t :: t in c.deps ==> s.status[t] == Pending)
  {
  }

  // ----- two tasks, `second` depending on `first`, and one worker -----

  function Pair(): Config {
    var first, second := TaskId("first"), TaskId("second");
    Config(map[first := [], second := [first]], map[first := [second], second := []], 1, StopOnFailure)
  }

  ghost predicate IsPair(c: Config, first: TaskId, second: TaskId) {
    && c.Valid() && c.maxWorkers == 1 && c.Capacity() == 2 && c.mode == StopOnFailure && first != second && |c.deps| == 2
    && c.Tasks() == {first, second} && first in c.deps && c.deps[first] == [] && second in c.deps && c.deps[second] == [first]
    && first in c.dependents && c.dependents[first] == [second]
  }

  lemma PairIs()
    ensures IsPair(Pair(), TaskId("first"), TaskId("second"))
  {
    var first, second := TaskId("first"), TaskId("second");
    assert first.text[0] == 'f' && second.text[0] == 's';
    assert Pair().deps.Keys == {first, second};
    assert |Pair().deps| == |Pair().deps.Keys|;
  }

  lemma SecondIsReady(c: Config, s: State, first: TaskId, second: TaskId)
    requires IsPair(c, first, second) && first in s.completed
    ensures DepsCompleted(c, s, second)
  {
  }

  lemma PairBegins(c: Config, first: TaskId, second: TaskId)
    requires IsPair(c, first, second)
    ensures c.Valid() && Feasible(c, Start) && first in c.deps && c.deps[first] == [] && first != second
    ensures var s := Final(c, Start);
            && s.unscanned == {first, second} && s.sending == None && s.ready == [] && s.results == [] && s.completed == []
            && s.workers == [Idle] && s.collector == Receiving && s.pendingCount == 2 && !s.hasFailed && s.failedTask == None
            && !s.interrupted && !s.closed && !Loses(s, first) && IsWaiting(s, second) && !Loses(s, second) && s.succeeded == {}
  {
    StartIs(c);
    hide Feasible, Final, Config.Valid;
  }

  /** `first` is seeded, built and about to be recorded before the seeding loop gets to `second`. */
  lemma FirstBuilds(c: Config, first: TaskId, second: TaskId) returns (run: Run)
    requires IsPair(c, first, second)
    ensures Feasible(c, run) && Keeps(Start, run)
    ensures var s := Final(c, run);
            && IsCompleted(s, first) && s.completed == [] && s.unscanned == {second} && s.sending == None && s.ready == [] && s.results == []
            && s.workers == [Idle] && s.collector == Judging(first) && s.pendingCount == 1 && !s.hasFailed && !s.interrupted
            && second !in s.succeeded
  {
    hide Feasible, Final, Config.Valid, Config.Capacity, Config.Tasks, Loses, IsWaiting, IsFailed, IsPair, Keeps, DepsCompleted;
    PairBegins(c, first, second);
    run := RootBuilds(c, Start, first);
    assert {first, second} - {first} == {second};
    var longer := ReportNext(c, run, first);
    KeepsBoth(Start, run, longer);
    run := longer;
  }

  /** The seeding loop comes to a task without dependencies, and a worker builds it. */
  lemma RootBuilds(c: Config, run: Run, t: TaskId) returns (run': Run)
    requires c.Valid() && Feasible(c, run)
    requires var s := Final(c, run);
             && t in s.unscanned && t in c.deps && c.deps[t] == [] && s.sending == None && s.ready == [] && !Loses(s, t)
             && s.workers != [] && s.workers[0] == Idle && !s.hasFailed && !s.interrupted
    ensures Feasible(c, run') && Keeps(run, run')
    ensures var s := Final(c, run);
            Final(c, run') == s.(status := s.status[t := Completed], unscanned := s.unscanned - {t}, workers := s.workers[0 := Finished(t)],
                                 sent := s.sent + multiset{t}, started := s.started + multiset{t}, succeeded := s.succeeded + {t})
  {
    hide *;
    run' := SeedOneNext(c, run, t);
    KeepsBoth(run, run, run');
    var r := BuildNext(c, run', t);
    KeepsBoth(run, run', r);
    run' := r;
    assert Final(c, run).status[t := Waiting][t := Completed] == Final(c, run).status[t := Completed];
  }

  /** It is recorded, and `second` is released. */
  lemma FirstReleasesSecond(c: Config, run: Run, first: TaskId, second: TaskId) returns (run': Run)
    requires IsPair(c, first, second) && Feasible(c, run)
    requires var s := Final(c, run); s.collector == Judging(first) && IsCompleted(s, first) && s.completed == [] && s.ready == []
    ensures Feasible(c, run') && Keeps(run, run')
    ensures var s, s' := Final(c, run), Final(c, run');
            s' == s.(collector := Receiving, completed := [first], ready := [second], sent := s.sent + multiset{second})
  {
    hide Feasible, Final, Config.Valid, Healthy, Uninterrupted, DepsCompleted;
    run' := JudgeOtherNext(c, run, first);
    run' := MarkNext(c, run', first);
    SecondIsReady(c, Final(c, run'), first, second);
    run' := ReleaseSendNext(c, run', first, 0, second);
    run' := ReleaseDoneNext(c, run', first, 1);
  }

  /** Every build succeeds and the collector returns without an error, yet `second` is not in
      the completed set: the seeding loop overwrote its status with Waiting. */
  lemma LostCompletion() returns (run: Run)
    ensures Pair().Valid() && Feasible(Pair(), run) && Healthy(run)
    ensures var second, s := TaskId("second"), Final(Pair(), run);
            s.collector == Returned(AllBuilt) && second in s.succeeded && second !in s.completed
  {
    var c, first, second := Pair(), TaskId("first"), TaskId("second");
    PairIs();
    hide Pair, Feasible, Final, Config.Valid, Config.Capacity, Config.Tasks, Uninterrupted, IsWaiting, IsFailed;
    run := FirstBuilds(c, first, second);
    run := FirstReleasesSecond(c, run, first, second);
    run := SecondIsLost(c, run, first, second);
  }

  lemma SecondIsLost(c: Config, run: Run, first: TaskId, second: TaskId) returns (run': Run)
    requires IsPair(c, first, second) && Feasible(c, run)
    requires var s := Final(c, run);
             && s.completed == [first] && s.unscanned == {second} && s.sending == None && s.ready == [second] && s.results == []
             && s.workers == [Idle] && s.collector == Receiving && s.pendingCount == 1 && !s.hasFailed && !s.interrupted
    ensures Feasible(c, run') && Keeps(run, run')
    ensures var s := Final(c, run'); s.collector == Returned(AllBuilt) && second in s.succeeded && second !in s.completed
  {
    hide Feasible, Final, Config.Valid, Config.Capacity, Config.Tasks, Healthy, Uninterrupted, IsWaiting;
    run' := BuildNext(c, run, second);
    run' := ScanLoses(c, run', second);
    run' := ReportNext(c, run', second);
    run' := JudgeOtherNext(c, run', second);
    run' := MarkOtherNext(c, run', second);
    run' := ReturnNext(c, run');
  }

  // ----- the collector that waits forever -----

  /** Both tasks are ranged over, and `first` is queued. */
  lemma BothSeeded(c: Config, first: TaskId, second: TaskId) returns (run: Run)
    requires IsPair(c, first, second)
    ensures Feasible(c, run) && Uninterrupted(run)
    ensures var s := Final(c, run);
            && IsWaiting(s, second) && s.unscanned == {} && s.sending == None && s.ready == [first] && s.results == [] && s.workers == [Idle]
            && s.collector == Receiving && s.pendingCount == 2 && !s.hasFailed && s.failedTask == None && !s.interrupted && !s.closed
  {
    hide Feasible, Final, Config.Valid, Config.Capacity, Config.Tasks, DepsCompleted, Healthy;
    PairBegins(c, first, second);
    run := SeedOneNext(c, Start, first);
    run := ScanNext(c, run, second);
    assert {first, second} - {first} - {second} == {};
  }

  /** A worker takes the only ready task, and its build fails. */
  lemma BuildFails(c: Config, run: Run, first: TaskId) returns (run': Run)
    requires c.Valid() && Feasible(c, run) && Uninterrupted(run)
    requires var s := Final(c, run); s.workers != [] && s.workers[0] == Idle && s.ready == [first] && !s.hasFailed && !s.interrupted
    ensures Feasible(c, run') && Uninterrupted(run')
    ensures var s, s' := Final(c, run), Final(c, run');
            && s' == s.(ready := [], workers := s.workers[0 := Finished(first)], status := s'.status, started := s'.started)
            && s'.status == s.status[first := Failed]
  {
    hide Feasible, Final, Config.Valid, Config.Capacity, Config.Tasks, DepsCompleted, Loses, Healthy, Uninterrupted;
    run' := PullNext(c, run, first);
    run' := GoNext(c, run', first);
    run' := BeginNext(c, run', first);
    run' := FailNext(c, run', first);
  }

  lemma FirstFails(c: Config, first: TaskId, second: TaskId) returns (run: Run)
    requires IsPair(c, first, second)
    ensures Feasible(c, run) && Uninterrupted(run)
    ensures var s := Final(c, run);
            && IsFailed(s, first) && IsWaiting(s, second)
            && s.unscanned == {} && s.sending == None && s.ready == [] && s.results == [] && s.workers == [Finished(first)]
            && s.collector == Receiving && s.pendingCount == 2 && !s.hasFailed && s.failedTask == None && !s.interrupted && !s.closed
  {
    assert c.Valid() && first != second;
    hide Feasible, Final, Config.Valid, Uninterrupted, IsPair;
    run := BothSeeded(c, first, second);
    run := BuildFails(c, run, first);
  }

  lemma FailureIsReported(c: Config, run: Run, first: TaskId) returns (run': Run)
    requires c.Valid() && c.mode == StopOnFailure && Feasible(c, run) && Uninterrupted(run)
    requires var s := Final(c, run);
             && IsFailed(s, first) && s.results == [] && s.workers == [Finished(first)]
             && s.collector == Receiving && s.pendingCount == 2 && !s.hasFailed && s.failedTask == None
    ensures Feasible(c, run') && Uninterrupted(run')
    ensures var s, s' := Final(c, run), Final(c, run');
            s' == s.(workers := [Idle], collector := Canceling(first, c.Tasks()), pendingCount := 1, failedTask := Some(first), hasFailed := true,
                     reported := s'.reported)
  {
    hide Feasible, Final, Config.Valid, Config.Capacity, Config.Tasks, DepsCompleted, Loses, Healthy, Uninterrupted;
    run' := ReportNext(c, run, first);
    run' := JudgeFirstNext(c, run', first);
  }

  /** The other task is canceled, and the collector goes back to receiving. */
  lemma FailureIsJudged(c: Config, run: Run, first: TaskId, second: TaskId) returns (run': Run)
    requires c.Valid() && first != second && Feasible(c, run) && Uninterrupted(run)
    requires var s := Final(c, run); IsFailed(s, first) && IsWaiting(s, second) && s.collector == Canceling(first, {first, second})
    ensures Feasible(c, run') && Uninterrupted(run')
    ensures var s, s' := Final(c, run), Final(c, run'); s' == s.(collector := Receiving, status := s'.status)
  {
    assert {first, second} - {first} == {second} && {second} - {second} == {};
    hide Feasible, Final, Config.Valid, Config.Capacity, Config.Tasks, DepsCompleted, Healthy, Uninterrupted;
    run' := CancelSkipNext(c, run, first, {first, second}, first);
    run' := CancelNext(c, run', first, {second}, second);
    run' := CancelWriteNext(c, run', first, {}, second);
    hide Loses, IsWaiting;
    run' := CancelDoneNext(c, run', first);
    run' := MarkOtherNext(c, run', first);
  }

  /** `first` fails, and nobody can move any more: the collector still waits for `second`, which
      is never queued. */
  lemma WaitsForever() returns (run: Run)
    ensures Pair().Valid() && Feasible(Pair(), run) && Uninterrupted(run)
    ensures var s := Final(Pair(), run);
            Stuck(Pair(), s) && s.collector == Receiving && s.failedTask == Some(TaskId("first")) && !s.closed
  {
    var c, first, second := Pair(), TaskId("first"), TaskId("second");
    PairIs();
    hide Pair, Feasible, Final, Config.Valid, Config.Capacity, Config.Tasks, Uninterrupted, Stuck;
    run := FirstFails(c, first, second);
    run := FailureIsReported(c, run, first);
    run := FailureIsJudged(c, run, first, second);
    NobodyMoves(c, Final(c, run));
  }

  /** Idle workers, empty channels, and a collector that expects more. */
  lemma NobodyMoves(c: Config, s: State)
    requires c.Valid() && s.unscanned == {} && s.sending == None && s.ready == [] && s.results == [] && s.workers == [Idle]
    requires s.collector == Receiving && s.pendingCount > 0 && !s.interrupted && !s.closed
    ensures Stuck(c, s)
  {
    hide Config.Valid, DepsCompleted;
    forall e: Event ensures e == Interrupt || !Enabled(c, s, e) {
    }
  }

  // ----- when Start returns -----

  /** At the end, a worker that has not left is stuck with a result that nobody receives. */
  lemma StuckWorkers(c: Config, s: State, w: nat)
    requires c.Valid() && Stuck(c, s) && s.closed && w < |s.workers|
    ensures s.workers[w].Exited? || (s.workers[w].Finished? && |s.results| >= c.Capacity())
  {
    hide Config.Valid;
    assert !Enabled(c, s, ByWorker(w, Pull)) && !Enabled(c, s, ByWorker(w, CheckStop)) && !Enabled(c, s, ByWorker(w, CheckGo));
    assert !Enabled(c, s, ByWorker(w, Begin)) && !Enabled(c, s, ByWorker(w, Finish(true)));
    assert !Enabled(c, s, ByWorker(w, Deliver)) && !Enabled(c, s, ByWorker(w, Exit));
  }

  lemma DoneOnce(c: Config, s: State, t: TaskId)
    requires c.Valid() && Safe(c, s) && SentOnce(s)
    ensures Places(s, 2, t) <= 1
  {
    hide Held, Shape, Traced, DepsDone, Truthful, Ordered, ClosedLast, Config.Valid;
    HeldStages(s.workers, t);
    assert s.sent[t] == Places(s, 0, t) <= 1;
  }

  lemma FinishedIsHeld(ws: seq<Worker>, w: nat)
    requires w < |ws| && ws[w].Finished?
    ensures Held(ws, 2)[ws[w].task] > 0
  {
    HeldUpdate(ws, w, Idle, 2, ws[w].task);
  }

  lemma ResultsAreOpen(c: Config, s: State)
    requires c.Valid() && Safe(c, s) && SentOnce(s)
    ensures NoDup(s.results) && forall t :: t in s.results ==> Open(c, s, t)
  {
    hide Held, Safe, SentOnce, Config.Valid, Open;
    forall t ensures multiset(s.results)[t] <= 1 {
      DoneOnce(c, s, t);
    }
    NoDupMultiset(s.results);
    forall t | t in s.results ensures Open(c, s, t) {
      assert multiset(s.results)[t] > 0;
      SentIsOpen(c, s, t, 2);
    }
  }

  /** A task that a worker has finished is independent of the results. */
  lemma HeldLeavesRoom(c: Config, s: State, w: nat)
    requires c.Valid() && Safe(c, s) && SentOnce(s) && Narrow(c) && w < |s.workers| && s.workers[w].Finished?
    ensures |s.results| < c.Capacity()
  {
    var u := s.workers[w].task;
    FinishedIsHeld(s.workers, w);
    hide Held, Safe, SentOnce, Config.Valid, Config.Capacity, Narrow, Open;
    DoneOnce(c, s, u);
    SentIsOpen(c, s, u, 2);
    ResultsAreOpen(c, s);
    assert multiset(s.results)[u] == 0;
    OpenFit(c, s, s.results, u);
  }

  ghost predicate StartReturns(s: State) {
    s.closed && forall w :: 0 <= w < |s.workers| ==> s.workers[w] == Exited
  }

  /** With at most twice as many independent tasks as workers, Start returns at the end of a run exactly if
      the collector has: the seeding loop and the workers always get through. */
  lemma NarrowStartReturns(c: Config, run: Run)
    requires c.Valid() && c.SendsOnce() && Feasible(c, run) && Narrow(c) && Stuck(c, Final(c, run))
    ensures StartReturns(Final(c, run)) <==> Final(c, run).collector.Returned?
  {
    hide Feasible, Final, Config.Valid, Config.SendsOnce, Config.Capacity, Safe, Once, Narrow;
    AlwaysOnce(c, run);
    AlwaysSafe(c, run);
    var s := Final(c, run);
    if s.collector.Returned? {
      MainLeaves(c, s);
      forall w | 0 <= w < |s.workers| ensures s.workers[w] == Exited {
        WorkerLeaves(c, s, w);
      }
    }
    if s.closed {
      ClosedMeans(c, s);
    }
  }

  lemma ClosedMeans(c: Config, s: State)
    requires c.Valid() && Safe(c, s) && s.closed
    ensures s.collector.Returned?
  {
  }

  lemma WorkerLeaves(c: Config, s: State, w: nat)
    requires c.Valid() && Safe(c, s) && Once(c, s) && Narrow(c) && Stuck(c, s) && s.closed && w < |s.workers|
    ensures s.workers[w] == Exited
  {
    hide Safe, Stuck, Narrow, Config.Valid, Config.Capacity, SentOnce, SeedsUnsent, DependentsUnsent, MarksOnce;
    StuckWorkers(c, s, w);
    if s.workers[w].Finished? {
      HeldLeavesRoom(c, s, w);
    }
  }

  lemma MainLeaves(c: Config, s: State)
    requires c.Valid() && Safe(c, s) && Once(c, s) && Narrow(c) && Stuck(c, s) && s.collector.Returned?
    ensures s.closed
  {
    hide Held, Conserved, Traced, DepsDone, Truthful, Ordered, ClosedLast, SentOnce, DependentsUnsent, MarksOnce, Config.Valid, Config.Capacity;
    hide Enabled, Narrow;
    if !s.closed {
      if s.sending.Some? {
        UnsentLeavesRoom(c, s, s.sending.value);
      }
      var e := MainNext(c, s);
    }
  }

  lemma MainNext(c: Config, s: State) returns (e: MainEvent)
    requires c.Valid() && s.collector.Returned? && !s.closed && (s.sending.Some? ==> |s.ready| < c.Capacity())
    ensures Enabled(c, s, ByMain(e))
  {
    hide Config.Valid, Config.Capacity;
    if s.sending.Some? {
      e := SeedSend;
    } else if s.unscanned != {} {
      var t :| t in s.unscanned;
      e := Scan(t);
    } else {
      e := Shutdown;
    }
  }

  /** The first worker is idle, the ready queue empty, the collector waits, and the tasks in
      `roots` are still to be seeded. */
  ghost predicate Delivering(c: Config, s: State, roots: set<TaskId>) {
    && s.sending == None && s.ready == [] && s.workers != [] && s.workers[0] == Idle && !s.hasFailed && !s.interrupted
    && s.collector == Receiving && s.pendingCount > 0
    && roots <= s.unscanned
    && forall t :: t in roots ==> t in c.deps && c.deps[t] == [] && !Loses(s, t)
  }

  lemma RootDelivers(c: Config, run: Run, roots: set<TaskId>, t: TaskId) returns (run': Run)
    requires c.Valid() && Feasible(c, run) && Delivering(c, Final(c, run), roots) && t in roots
    requires |Final(c, run).results| < c.Capacity()
    ensures Feasible(c, run') && Delivering(c, Final(c, run'), roots - {t})
    ensures |Final(c, run').results| == |Final(c, run).results| + 1
  {
    hide Feasible, Final, Config.Valid, Config.Capacity, DepsCompleted, Keeps;
    run' := RootBuilds(c, run, t);
    run' := DeliverNext(c, run', t);
  }

  /** An idle worker builds one task after the other while the collector receives nothing,
      until the results are full and the worker holds one more. */
  lemma {:induction false} ResultsFill(c: Config, run: Run, roots: set<TaskId>) returns (run': Run)
    requires c.Valid() && Feasible(c, run) && Delivering(c, Final(c, run), roots)
    requires |Final(c, run).results| <= c.Capacity() < |Final(c, run).results| + |roots|
    ensures Feasible(c, run')
    ensures var s := Final(c, run');
            && |s.results| >= c.Capacity() && s.workers != [] && s.workers[0].Finished?
            && s.collector == Receiving && s.pendingCount > 0 && !s.interrupted
    decreases |roots|
  {
    hide Feasible, Final, Config.Valid, Config.Capacity, DepsCompleted, Keeps;
    var t :| t in roots;
    if |Final(c, run).results| < c.Capacity() {
      hide Delivering, Loses;
      run' := RootDelivers(c, run, roots, t);
      run' := ResultsFill(c, run', roots - {t});
    } else {
      run' := RootBuilds(c, run, t);
    }
  }

  /** The collector has left with the results full, and a worker is stuck with one more. */
  ghost predicate Hung(c: Config, s: State) {
    s.collector.Returned? && |s.results| >= c.Capacity() && s.workers != [] && s.workers[0].Finished?
  }

  lemma StaysHung(c: Config, s: State, e: Event)
    requires c.Valid() && Typed(c, s) && Enabled(c, s, e) && Hung(c, s)
    ensures Hung(c, Step(c, s, e))
  {
    hide Config.Valid, Config.Capacity, DepsCompleted, Loses;
    match e {
      case ByWorker(w, work) =>
        WorkerFrame(c, s, w, work);
        hide WorkerStep;
      case _ =>
    }
  }

  lemma {:induction false} HungForever(c: Config, run: Run, longer: Run)
    requires c.Valid() && Feasible(c, run) && Feasible(c, longer) && Continues(run, longer) && Hung(c, Final(c, run))
    ensures Hung(c, Final(c, longer))
    decreases longer
  {
    hide Config.Valid, Enabled, Step, Hung;
    if longer != run {
      HungForever(c, run, longer.before);
      StaysHung(c, Final(c, longer.before), longer.event);
    }
  }

  /** When more than twice as many tasks as workers have no dependencies, an interrupt can make
      the collector leave with the results full: some worker never gets rid of its own, and
      Start waits for it forever. */
  lemma WideStartHangs(c: Config, roots: set<TaskId>) returns (run: Run)
    requires c.Valid() && |roots| > c.Capacity() && forall t :: t in roots ==> t in c.deps && c.deps[t] == []
    ensures Feasible(c, run) && Stuck(c, Final(c, run)) && Final(c, run).collector.Returned? && !StartReturns(Final(c, run))
  {
    StartDelivers(c, roots);
    var before := HungExists(c, roots);
    hide Feasible, Final, Stuck, Config.Valid, Config.Capacity;
    run := MaximalRunExists(c, before);
    HungForever(c, before, run);
    assert Final(c, run).workers[0] != Exited;
  }

  lemma HungExists(c: Config, roots: set<TaskId>) returns (run: Run)
    requires c.Valid() && Feasible(c, Start) && Delivering(c, Final(c, Start), roots)
    requires Final(c, Start).results == [] && |roots| > c.Capacity()
    ensures Feasible(c, run) && Hung(c, Final(c, run))
  {
    hide Feasible, Final, Config.Valid, Config.Capacity, Delivering;
    run := ResultsFill(c, Start, roots);
    run := InterruptNext(c, run);
    run := AbortNext(c, run);
  }

  lemma StartDelivers(c: Config, roots: set<TaskId>)
    requires c.Valid() && roots != {} && forall t :: t in roots ==> t in c.deps && c.deps[t] == []
    ensures Feasible(c, Start) && Delivering(c, Final(c, Start), roots) && Final(c, Start).results == []
  {
    StartIs(c);
    hide Feasible, Final, Config.Valid;
    var t :| t in roots;
    assert t in c.Tasks() && |c.deps| > 0;
    forall u | u in roots ensures !Loses(Final(c, Start), u) {
    }
  }

  /** Of tasks without dependencies: Start can wait forever after the collector has returned
      if and only if there are more than twice as many of them as workers. */
  lemma FlatHangsExactly(c: Config)
    requires c.Valid() && NoDependencies(c)
    ensures (exists run :: Feasible(c, run) && Stuck(c, Final(c, run)) && Final(c, run).collector.Returned? && !StartReturns(Final(c, run)))
            <==> |c.deps| > c.Capacity()
  {
    assert |c.deps| == |c.Tasks()|;
    assert c.SendsOnce() by { FlatHasNoRepeats(c); }
    hide Feasible, Final, Stuck, Config.Valid, Config.SendsOnce, StartReturns;
    if |c.deps| > c.Capacity() {
      var run := WideStartHangs(c, c.Tasks());
    } else {
      SmallIsNarrow(c);
      forall run | Feasible(c, run) && Stuck(c, Final(c, run)) && Final(c, run).collector.Returned?
        ensures StartReturns(Final(c, run))
      {
        NarrowStartReturns(c, run);
      }
    }
  }

  lemma FlatHasNoRepeats(c: Config)
    requires c.Valid() && NoDependencies(c)
    ensures c.SendsOnce()
  {
    hide Config.NotLast;
    forall d | d in c.dependents ensures NoDup(c.dependents[d]) {
      var list := c.dependents[d];
      forall t ensures multiset(list)[t] <= 1 {
        assert t in c.deps ==> (d in c.deps[t] <==> t in list);
        assert multiset(list)[t] > 0 <==> t in list;
      }
      NoDupMultiset(list);
    }
  }

  // ----- runs that seed first -----

  /** Only the seeding loop has moved. */
  ghost predicate Seeding(run: Run) {
    Healthy(run) && ScansFirst(run) && !Marked(run)
  }

  /** No worker and not the collector. */
  ghost predicate Unmoved(c: Config, s: State) {
    && (forall w :: 0 <= w < |s.workers| ==> s.workers[w] == Idle) && s.started == multiset{}
    && s.collector == Receiving && s.pendingCount == |c.deps| && !s.interrupted && !s.closed
  }

  lemma SeedMore(c: Config, run: Run, t: TaskId) returns (run': Run)
    requires c.Valid() && c.SendsOnce() && Narrow(c) && Feasible(c, run) && Seeding(run)
    requires var s := Final(c, run); s.sending == None && t in s.unscanned && Unmoved(c, s)
    ensures Feasible(c, run') && Seeding(run')
    ensures var s, s' := Final(c, run), Final(c, run'); s'.sending == None && Unmoved(c, s') && s'.unscanned == s.unscanned - {t}
  {
    hide Config.Valid, Config.SendsOnce, Config.Capacity, Narrow, Feasible, Final, Loses;
    ShapeIsTyped(c, run);
    run' := Extend(c, run, ByMain(Scan(t)));
    assert Seeding(run');
    if Final(c, run').sending.Some? {
      SendingHasRoom(c, run');
      run' := Extend(c, run', ByMain(SeedSend));
    }
  }

  lemma SendingHasRoom(c: Config, run: Run)
    requires c.Valid() && c.SendsOnce() && Narrow(c) && Feasible(c, run) && Final(c, run).sending.Some?
    ensures |Final(c, run).ready| < c.Capacity()
  {
    hide Config.SendsOnce, Config.Capacity, Narrow, Feasible, Final, Conserved, Traced, DepsDone, Truthful, Ordered, ClosedLast;
    AlwaysOnce(c, run);
    UnsentLeavesRoom(c, Final(c, run), Final(c, run).sending.value);
  }

  lemma {:induction false} SeedAll(c: Config, run: Run) returns (run': Run)
    requires c.Valid() && c.SendsOnce() && Narrow(c) && Feasible(c, run) && Seeding(run)
    requires var s := Final(c, run); s.sending == None && Unmoved(c, s)
    ensures Feasible(c, run') && Seeding(run')
    ensures var s' := Final(c, run'); s'.unscanned == {} && s'.sending == None && Unmoved(c, s')
    decreases |Final(c, run).unscanned|
  {
    hide Config.Valid, Config.SendsOnce, Narrow, Feasible, Final, Seeding, Unmoved;
    if Final(c, run).unscanned == {} {
      run' := run;
    } else {
      var t :| t in Final(c, run).unscanned;
      run' := SeedMore(c, run, t);
      run' := SeedAll(c, run');
    }
  }

  lemma StepScansLess(c: Config, s: State, e: Event)
    requires c.Valid() && Typed(c, s) && Enabled(c, s, e)
    ensures Step(c, s, e).unscanned <= s.unscanned
  {
    hide Config.Valid, DepsCompleted, Loses;
    match e {
      case ByCollector(collect) =>
        CollectorFrame(c, s, collect);
        hide CollectorStep, CollectorEnabled;
      case ByWorker(w, work) =>
        WorkerFrame(c, s, w, work);
        hide WorkerStep, WorkerEnabled;
      case ByMain(main) =>
      case Interrupt =>
    }
  }

  lemma {:induction false} NoScanLeft(c: Config, run: Run, longer: Run)
    requires c.Valid() && Feasible(c, run) && Feasible(c, longer) && Continues(run, longer)
    requires Final(c, run).unscanned == {} && ScansFirst(run)
    ensures Final(c, longer).unscanned == {} && ScansFirst(longer)
    decreases longer
  {
    hide Config.Valid, Step;
    if longer != run {
      NoScanLeft(c, run, longer.before);
      StepScansLess(c, Final(c, longer.before), longer.event);
      hide CollectorEnabled, WorkerEnabled;
    }
  }

  /** Runs that seed first exist whenever no more than twice as many tasks as workers are
      independent, and they complete everything if the graph has no cycle. */
  lemma SeedFirstRunExists(c: Config) returns (run: Run)
    requires c.Valid() && c.SendsOnce() && Narrow(c)
    ensures Feasible(c, run) && Healthy(run) && ScansFirst(run) && Stuck(c, Final(c, run))
    ensures Acyclic(c.Edges()) ==> Elems(Final(c, run).completed) == c.Tasks() && Final(c, run).collector == Returned(AllBuilt)
  {
    StartUnmoved(c);
    hide Feasible, Final, Stuck, Config.Valid, Config.SendsOnce, Narrow, Acyclic, Seeding, Unmoved;
    var before := SeedAll(c, Start);
    assert Healthy(before) && ScansFirst(before) by { SeedingMeans(before); }
    run := MaximalRunExists(c, before);
    NoScanLeft(c, before, run);
    if Acyclic(c.Edges()) {
      NarrowRunsComplete(c, run);
    }
  }

  lemma SeedingMeans(run: Run)
    requires Seeding(run)
    ensures Healthy(run) && ScansFirst(run)
  {
  }

  lemma StartUnmoved(c: Config)
    requires c.Valid()
    ensures Feasible(c, Start) && Seeding(Start)
    ensures Final(c, Start).sending == None && Unmoved(c, Final(c, Start))
  {
    hide Config.Valid;
  }

  // ----- an interrupt can leave everything undone -----

  /** The first `n` workers have left, and the others are idle. */
  ghost predicate LeftBefore(s: State, n: nat) {
    && n <= |s.workers| && s.interrupted && s.closed && s.started == multiset{}
    && forall w :: 0 <= w < |s.workers| ==> s.workers[w] == if w < n then Exited else Idle
  }

  lemma {:induction false} AllLeave(c: Config, run: Run, n: nat) returns (run': Run)
    requires c.Valid() && Feasible(c, run) && LeftBefore(Final(c, run), n)
    ensures Feasible(c, run') && StartReturns(Final(c, run')) && Final(c, run').started == multiset{}
    decreases |Final(c, run).workers| - n
  {
    hide Config.Valid, Feasible, Final, Keeps, MainStep, MainEnabled, CollectorStep, CollectorEnabled;
    if n == |Final(c, run).workers| {
      run' := run;
    } else {
      run' := Extend(c, run, ByWorker(n, Exit));
      run' := AllLeave(c, run', n + 1);
    }
  }

  /** Some run seeds its tasks and is interrupted before any worker takes one: the collector and
      all workers leave at once, whatever is in the ready queue, and Start returns with nothing
      started. */
  lemma InterruptAbandons(c: Config) returns (run: Run)
    requires c.Valid() && c.SendsOnce() && Narrow(c) && |c.deps| > 0
    ensures Feasible(c, run) && StartReturns(Final(c, run)) && Final(c, run).started == multiset{}
  {
    StartUnmoved(c);
    hide Feasible, Final, Config.Valid, Config.SendsOnce, Narrow, Seeding;
    run := SeedAll(c, Start);
    run := InterruptNext(c, run);
    run := AbortNext(c, run);
    run := ShutdownNext(c, run);
    run := AllLeave(c, run, 0);
  }
}
