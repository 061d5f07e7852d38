/** On which graphs a healthy scheduler can lose a build: on all that have a dependency. */
module SchedulerLosses {
  import opened Wrappers
  import opened Digraph
  import opened TaskGraph
  import opened SchedulerProtocol
  import opened SchedulerSafety
  import opened SchedulerOnce
  import opened SchedulerOutcome
  import opened SchedulerEndings
  import opened SchedulerSteps
  import opened SchedulerRuns

  // ----- without dependencies nothing is lost -----

  lemma RootScanLosesNothing(c: Config, s: State, t: TaskId)
    requires c.Valid() && Safe(c, s) && Once(c, s) && t in s.unscanned && t in c.deps && c.deps[t] == []
    ensures !Loses(s, t) && s.sent[t] == 0
  {
    hide Held, Shape, DepsDone, Ordered, ClosedLast, Config.Valid, Counted, MarksOnce;
    assert t !in s.sent;
    HeldStages(s.workers, t);
    assert s.sent[t] == Places(s, 0, t);
    assert Places(s, 2, t) == 0;
  }

  lemma StepKeepsRoots(c: Config, s: State, e: Event, t: TaskId)
    requires c.Valid() && Safe(c, s) && Once(c, s) && AllSucceed(s) && Typed(c, s) && Enabled(c, s, e)
    requires t in c.deps && c.deps[t] == [] && t !in s.overwritten
    ensures t !in Step(c, s, e).overwritten
  {
    hide Safe, Once, AllSucceed, Config.Valid, DepsCompleted, Loses;
    match e {
      case ByCollector(collect) =>
        AllSucceedCollector(c, s, collect);
        CollectorFrame(c, s, collect);
        hide CollectorStep, CollectorEnabled;
      case ByWorker(w, work) =>
        WorkerFrame(c, s, w, work);
        hide WorkerStep, WorkerEnabled;
      case ByMain(main) =>
        if main == Scan(t) {
          RootScanLosesNothing(c, s, t);
        }
      case Interrupt =>
    }
  }

  /** A task without dependencies is never overwritten in a healthy run. */
  lemma {:induction false} RootsKept(c: Config, run: Run, t: TaskId)
    requires c.Valid() && c.SendsOnce() && Feasible(c, run) && Healthy(run) && t in c.deps && c.deps[t] == []
    ensures t !in Final(c, run).overwritten
  {
    hide Safe, Once, AllSucceed, Config.Valid, Config.SendsOnce;
    match run
    case Start =>
    case Then(before, e) =>
      RootsKept(c, before, t);
      AlwaysOnce(c, before);
      AlwaysAllSucceed(c, before);
      StepKeepsRoots(c, Final(c, before), e, t);
      hide Step, Enabled;
  }

  lemma FlatLosesNothing(c: Config, run: Run)
    requires c.Valid() && c.SendsOnce() && NoDependencies(c) && Feasible(c, run) && Healthy(run)
    ensures NothingLost(Final(c, run))
  {
    hide Safe, Once, Ended, Kept, Config.Valid, Config.SendsOnce, DepsCompleted;
    HealthyIsUninterrupted(run);
    AlwaysSettling(c, run);
    var s := Final(c, run);
    forall t ensures t !in s.dropped && t !in s.overwritten {
      assert SkippedAt(c, s, t);
      if t in s.overwritten {
        LossIsForever(c, s, t);
        RootsKept(c, run, t);
      }
    }
  }

  // ----- a run that loses a given build -----

  /** The channels are empty, the first worker is idle, the seeding loop has come to the tasks
      completed and overwritten only, and just the former have no dependencies. */
  ghost predicate Calm(c: Config, s: State) {
    && s.results == [] && s.sending == None && s.workers != [] && s.workers[0] == Idle
    && !s.hasFailed && !s.interrupted
    && s.unscanned == c.Tasks() - Elems(s.completed) - s.overwritten
    && (forall t :: t in s.completed ==> t in c.deps && c.deps[t] == [])
    && (forall t :: t in s.overwritten ==> t in c.deps && c.deps[t] != [])
  }

  /** `x` has dependencies, and neither the collector nor the seeding loop has come to it. */
  ghost predicate Fresh(c: Config, s: State, x: TaskId) {
    x in c.deps && c.deps[x] != [] && x !in s.completed && x in s.unscanned
  }

  lemma DependentIs(c: Config, d: TaskId, i: nat)
    requires c.Valid() && d in c.dependents && i < |c.dependents[d]|
    ensures c.dependents[d][i] in c.deps && d in c.deps[c.dependents[d][i]]
  {
    assert c.dependents[d][i] in c.dependents[d];
  }

  /** What is in the ready queue is nowhere else. */
  lemma ReadyIsAlone(c: Config, run: Run, x: TaskId)
    requires c.Valid() && c.SendsOnce() && Feasible(c, run) && Uninterrupted(run) && x in Final(c, run).ready
    ensures var s := Final(c, run); x in c.deps && x !in s.overwritten && x !in s.reported && multiset(s.ready)[x] == 1 && s.pendingCount > 0
  {
    AlwaysSettling(c, run);
    var s := Final(c, run);
    hide Feasible, Final, Shape, Traced, DepsDone, Truthful, Ordered, ClosedLast, Config.Valid, Config.SendsOnce, Released, Kept, Ended, Held;
    assert multiset(s.ready)[x] > 0;
    assert s.sent[x] == Places(s, 0, x) && s.sent[x] <= 1;
    assert LostAt(s, x);
    HeldStages(s.workers, x);
    SentIsKnown(c, s, x);
    hide Once, Conserved;
    UnreportedIsPending(c, s, x);
  }

  lemma SentIsKnown(c: Config, s: State, x: TaskId)
    requires c.Valid() && Shape(c, s) && x in s.sent
    ensures x in c.deps
  {
  }

  /** The collector considers the dependents of `d` from number `i` on, until one is dropped. */
  lemma {:induction false} ReleaseInto(c: Config, run: Run, d: TaskId, i: nat) returns (run': Run)
    requires c.Valid() && Feasible(c, run) && d in c.dependents && i <= |c.dependents[d]|
    requires Final(c, run).collector == Releasing(d, i)
    ensures Feasible(c, run') && Keeps(run, run')
    ensures var s, s' := Final(c, run), Final(c, run');
            s'.dropped != {} ||
            (&& s' == s.(collector := Receiving, ready := s'.ready, sent := s'.sent)
             && s.ready <= s'.ready
             && (forall x :: x in s'.ready ==> x in s.ready || (x in c.deps && d in c.deps[x]))
             && (forall j :: i <= j < |c.dependents[d]| ==> Offered(c, s', c.dependents[d][j])))
    decreases |c.dependents[d]| - i
  {
    hide Feasible, Final, Config.Valid, Config.Capacity, Config.Tasks, Keeps;
    var s := Final(c, run);
    if i == |c.dependents[d]| {
      run' := ReleaseDoneNext(c, run, d, i);
    } else {
      var u := c.dependents[d][i];
      DependentIs(c, d, i);
      var r: Run;
      if !DepsCompleted(c, s, u) {
        r := ReleaseWaitNext(c, run, d, i, u);
      } else if |s.ready| < c.Capacity() {
        r := ReleaseSendNext(c, run, d, i, u);
      } else {
        run' := ReleaseDropNext(c, run, d, i, u);
        assert u in Final(c, run').dropped;
        return;
      }
      assert Offered(c, Final(c, r), u);
      run' := ReleaseInto(c, r, d, i + 1);
      KeepsBoth(run, r, run');
      if Final(c, run').dropped == {} {
        StillOffered(c, Final(c, r), Final(c, run'), u);
      }
    }
  }

  ghost predicate Offered(c: Config, s: State, u: TaskId) {
    u in c.deps && (DepsCompleted(c, s, u) ==> u in s.ready)
  }

  lemma StillOffered(c: Config, s: State, s': State, u: TaskId)
    requires Offered(c, s, u) && s'.completed == s.completed && s.ready <= s'.ready
    ensures Offered(c, s', u)
  {
  }

  ghost predicate Resting(c: Config, s: State) {
    Calm(c, s) && s.ready == [] && s.collector == Receiving
  }

  lemma StillCounted(c: Config, run: Run, d: TaskId)
    requires c.Valid() && c.SendsOnce() && Feasible(c, run) && d in c.deps && c.deps[d] == [] && d in Final(c, run).unscanned
    ensures Final(c, run).pendingCount > 0 && !Loses(Final(c, run), d)
  {
    hide Feasible, Final, Config.Valid, Config.SendsOnce, Safe, Once;
    AlwaysOnce(c, run);
    AlwaysSafe(c, run);
    ExactlyOnce(c, run, d);
    RootScanLosesNothing(c, Final(c, run), d);
    assert Final(c, run).reported[d] == 0;
    UnreportedIsPending(c, Final(c, run), d);
  }

  /** One task without dependencies is seeded, built and recorded. */
  lemma RootIsRecorded(c: Config, run: Run, d: TaskId) returns (run': Run)
    requires c.Valid() && c.SendsOnce() && Feasible(c, run) && Resting(c, Final(c, run))
    requires d in c.deps && c.deps[d] == [] && d !in Final(c, run).completed
    ensures Feasible(c, run') && Keeps(run, run') && Calm(c, Final(c, run')) && Final(c, run').ready == []
    ensures Final(c, run').completed == Final(c, run).completed + [d] && Final(c, run').collector == Releasing(d, 0)
    ensures Final(c, run').unscanned == Final(c, run).unscanned - {d} && d in Final(c, run).unscanned
  {
    assert d in Final(c, run).unscanned && d !in Final(c, run).overwritten;
    StillCounted(c, run, d);
    hide Feasible, Final, Config.Valid, Config.SendsOnce, Config.Tasks, Keeps, Loses, DepsCompleted, IsWaiting, Elems;
    var r := RootIsReported(c, run, d);
    run' := RootIsMarked(c, r, d);
    KeepsBoth(run, r, run');
    CalmAfter(c, Final(c, run), Final(c, run'), d);
  }

  lemma RootIsReported(c: Config, run: Run, d: TaskId) returns (run': Run)
    requires c.Valid() && Feasible(c, run) && Resting(c, Final(c, run))
    requires d in c.deps && c.deps[d] == [] && d in Final(c, run).unscanned && !Loses(Final(c, run), d) && Final(c, run).pendingCount > 0
    ensures Feasible(c, run') && Keeps(run, run')
    ensures var s, s' := Final(c, run), Final(c, run');
            && s'.ready == [] && s'.results == [] && s'.sending == None && s'.workers == s.workers && !s'.hasFailed && !s'.interrupted
            && s'.unscanned == s.unscanned - {d} && s'.completed == s.completed && s'.overwritten == s.overwritten
            && s'.collector == Judging(d) && IsCompleted(s', d)
  {
    hide Feasible, Final, Config.Valid, Config.Tasks, Keeps, Loses, DepsCompleted, IsWaiting, Elems;
    run' := RootBuilds(c, run, d);
    KeepsBoth(run, run, run');
    var r := ReportNext(c, run', d);
    KeepsBoth(run, run', r);
    run' := r;
    assert Final(c, run').workers == Final(c, run).workers;
  }

  lemma RootIsMarked(c: Config, run: Run, d: TaskId) returns (run': Run)
    requires c.Valid() && Feasible(c, run)
    requires var s := Final(c, run); s.collector == Judging(d) && IsCompleted(s, d) && d !in s.completed
    ensures Feasible(c, run') && Keeps(run, run')
    ensures var s := Final(c, run); Final(c, run') == s.(completed := s.completed + [d], collector := Releasing(d, 0))
  {
    hide Feasible, Final, Config.Valid, Config.Tasks, Keeps, Loses, DepsCompleted, IsWaiting;
    run' := JudgeOtherNext(c, run, d);
    KeepsBoth(run, run, run');
    var r := MarkNext(c, run', d);
    KeepsBoth(run, run', r);
    run' := r;
  }

  lemma CalmAfter(c: Config, s: State, s': State, d: TaskId)
    requires Calm(c, s) && d in c.deps && c.deps[d] == [] && d !in s.completed
    requires s'.results == [] && s'.sending == None && s'.workers == s.workers && !s'.hasFailed && !s'.interrupted
    requires s'.unscanned == s.unscanned - {d} && s'.completed == s.completed + [d] && s'.overwritten == s.overwritten
    ensures Calm(c, s')
  {
    assert Elems(s.completed + [d]) == Elems(s.completed) + {d};
  }

  /** The head of the ready queue is built before the seeding loop comes to it, and then the
      loop overwrites its status. */
  lemma HeadIsLost(c: Config, run: Run, x: TaskId) returns (run': Run)
    requires c.Valid() && Feasible(c, run) && Calm(c, Final(c, run)) && Fresh(c, Final(c, run), x)
    requires Final(c, run).ready != [] && Final(c, run).ready[0] == x
    ensures Feasible(c, run') && Keeps(run, run')
    ensures var s, s' := Final(c, run), Final(c, run');
            s' == s.(ready := s.ready[1..], workers := s.workers[0 := Finished(x)], unscanned := s.unscanned - {x},
                     overwritten := s.overwritten + {x}, status := s.status[x := Waiting],
                     started := s.started + multiset{x}, succeeded := s.succeeded + {x})
  {
    hide Feasible, Final, Config.Valid, Keeps, DepsCompleted, Elems;
    var r := BuildNext(c, run, x);
    run' := ScanLoses(c, r, x);
    KeepsBoth(run, r, run');
    assert Final(c, run).status[x := Completed][x := Waiting] == Final(c, run).status[x := Waiting];
  }

  /** It is reported, but not recorded. */
  lemma LostIsReported(c: Config, run: Run, x: TaskId) returns (run': Run)
    requires c.Valid() && Feasible(c, run)
    requires var s := Final(c, run);
             && s.workers != [] && s.workers[0] == Finished(x) && s.results == [] && s.collector == Receiving && s.pendingCount > 0
             && x in s.status && s.status[x] == Waiting
    ensures Feasible(c, run') && Keeps(run, run')
    ensures var s := Final(c, run);
            Final(c, run') == s.(workers := s.workers[0 := Idle], pendingCount := s.pendingCount - 1, reported := s.reported + multiset{x})
  {
    hide Feasible, Final, Config.Valid, Keeps, DepsCompleted;
    var r := ReportNext(c, run, x);
    run' := JudgeOtherNext(c, r, x);
    KeepsBoth(run, r, run');
    r := MarkOtherNext(c, run', x);
    KeepsBoth(run, run', r);
    run' := r;
  }

  ghost predicate AllFresh(c: Config, s: State) {
    forall x :: x in s.ready ==> Fresh(c, s, x)
  }

  /** All that is ready is lost one after the other, until it is the turn of `u`. */
  lemma {:induction false} LoseReady(c: Config, run: Run, u: TaskId) returns (run': Run)
    requires c.Valid() && c.SendsOnce() && Feasible(c, run) && Healthy(run)
    requires var s := Final(c, run); Calm(c, s) && s.collector == Receiving && AllFresh(c, s)
    ensures Feasible(c, run') && Healthy(run')
    ensures u in Final(c, run').overwritten || (u !in Final(c, run).ready && Resting(c, Final(c, run')))
    ensures Final(c, run').completed == Final(c, run).completed && Final(c, run').unscanned <= Final(c, run).unscanned
    decreases |Final(c, run).ready|
  {
    hide Feasible, Final, Config.Valid, Config.SendsOnce, Keeps, Calm, Fresh;
    var s := Final(c, run);
    if s.ready == [] {
      run' := run;
    } else {
      var x := s.ready[0];
      HealthyIsUninterrupted(run);
      ReadyIsAlone(c, run, x);
      var r := HeadIsLost(c, run, x);
      KeepsMeans(run, r);
      if x == u {
        run' := r;
      } else {
        LostIsWaiting(c, s, Final(c, r), x);
        run' := LostIsReported(c, r, x);
        KeepsMeans(r, run');
        CalmAfterLoss(c, s, Final(c, run'), x);
        run' := LoseReady(c, run', u);
      }
    }
  }

  lemma LostIsWaiting(c: Config, s: State, s': State, x: TaskId)
    requires Calm(c, s) && s'.workers == s.workers[0 := Finished(x)] && s'.results == s.results && s'.status == s.status[x := Waiting]
    ensures s'.workers != [] && s'.workers[0] == Finished(x) && s'.results == [] && x in s'.status && s'.status[x] == Waiting
  {
  }

  lemma CalmAfterLoss(c: Config, s: State, s': State, x: TaskId)
    requires Calm(c, s) && AllFresh(c, s) && s.ready != [] && s.ready[0] == x && multiset(s.ready)[x] == 1
    requires s'.ready == s.ready[1..] && s'.workers != [] && s'.workers[0] == Idle && s'.results == s.results && s'.sending == s.sending
    requires s'.unscanned == s.unscanned - {x} && s'.completed == s.completed && s'.overwritten == s.overwritten + {x}
    requires s'.hasFailed == s.hasFailed && s'.interrupted == s.interrupted
    ensures Calm(c, s') && AllFresh(c, s')
  {
    hide Elems;
    assert Fresh(c, s, x);
    Tail(s.ready);
    assert multiset(s'.ready)[x] == 0;
    assert x !in s'.ready;
    forall y | y in s'.ready ensures Fresh(c, s', y) {
      assert y in s.ready && Fresh(c, s, y);
    }
    hide Fresh;
    assert s'.unscanned == c.Tasks() - Elems(s'.completed) - s'.overwritten;
  }

  /** A task without dependencies is recorded, and what it makes ready is lost or dropped. */
  lemma LoseBelow(c: Config, run: Run, d: TaskId, u: TaskId) returns (run': Run)
    requires c.Valid() && c.SendsOnce() && Feasible(c, run) && Healthy(run) && Resting(c, Final(c, run))
    requires d in c.deps && c.deps[d] == [] && d !in Final(c, run).completed && u in c.deps && d in c.deps[u]
    ensures Feasible(c, run') && Healthy(run')
    ensures var s, s' := Final(c, run), Final(c, run');
            || s'.dropped != {} || u in s'.overwritten
            || (Resting(c, s') && !DepsCompleted(c, s', u) && |s'.unscanned| < |s.unscanned|)
  {
    hide Feasible, Final, Config.Valid, Config.SendsOnce, Keeps, Calm, DepsCompleted, Elems;
    var r := RootIsRecorded(c, run, d);
    KeepsMeans(run, r);
    RecordedKnown(c, d);
    run' := ReleaseInto(c, r, d, 0);
    KeepsMeans(r, run');
    if Final(c, run').dropped == {} {
      HealthyIsUninterrupted(run');
      forall x | x in Final(c, run').ready ensures Fresh(c, Final(c, run'), x) {
        ReadyIsAlone(c, run', x);
        ReleasedIsFresh(c, Final(c, r), Final(c, run'), d, x);
      }
      CalmStays(c, Final(c, r), Final(c, run'));
      var after := run';
      run' := LoseReady(c, after, u);
      if u !in Final(c, run').overwritten {
        UIsNotReady(c, Final(c, after), Final(c, run'), d, u);
        SmallerSet(Final(c, run').unscanned, Final(c, run).unscanned, d);
      }
    }
  }

  lemma RecordedKnown(c: Config, d: TaskId)
    requires c.Valid() && d in c.deps
    ensures d in c.dependents
  {
  }

  lemma SmallerSet(a: set<TaskId>, b: set<TaskId>, d: TaskId)
    requires a <= b - {d} && d in b
    ensures |a| < |b|
  {
    SubsetSize(a, b - {d});
  }

  lemma ReleasedIsFresh(c: Config, s: State, s': State, d: TaskId, x: TaskId)
    requires Calm(c, s) && s.ready == [] && x in c.deps && x !in s'.overwritten && d in c.deps[x]
    requires s'.completed == s.completed && s'.unscanned == s.unscanned && s'.overwritten == s.overwritten
    ensures Fresh(c, s', x)
  {
  }

  lemma UIsNotReady(c: Config, s: State, s': State, d: TaskId, u: TaskId)
    requires c.Valid() && d in c.dependents && u in c.deps && d in c.deps[u]
    requires forall j :: 0 <= j < |c.dependents[d]| ==> Offered(c, s, c.dependents[d][j])
    requires u !in s.ready && s'.completed == s.completed
    ensures !DepsCompleted(c, s', u)
  {
    assert u in c.dependents[d];
    var j :| 0 <= j < |c.dependents[d]| && c.dependents[d][j] == u;
    assert Offered(c, s, u);
  }

  lemma CalmStays(c: Config, s: State, s': State)
    requires Calm(c, s) && s' == s.(collector := Receiving, ready := s'.ready, sent := s'.sent)
    ensures Calm(c, s')
  {
  }

  /** The dependencies of `u` are completed one after the other, until it is released and lost,
      or something is dropped on the way. */
  lemma {:induction false} LoseThis(c: Config, run: Run, u: TaskId) returns (run': Run)
    requires c.Valid() && c.SendsOnce() && Feasible(c, run) && Healthy(run) && Resting(c, Final(c, run))
    requires u in c.deps && !DepsCompleted(c, Final(c, run), u) && forall d :: d in c.deps[u] ==> d in c.deps && c.deps[d] == []
    ensures Feasible(c, run') && Healthy(run') && (Final(c, run').dropped != {} || u in Final(c, run').overwritten)
    decreases |Final(c, run).unscanned|
  {
    hide Feasible, Final, Config.Valid, Config.SendsOnce, Calm, Resting, DepsCompleted;
    var d := OpenDependency(c, Final(c, run), u);
    run' := LoseBelow(c, run, d, u);
    if Final(c, run').dropped == {} && u !in Final(c, run').overwritten {
      run' := LoseThis(c, run', u);
    }
  }

  lemma OpenDependency(c: Config, s: State, u: TaskId) returns (d: TaskId)
    requires u in c.deps && !DepsCompleted(c, s, u)
    ensures d in c.deps[u] && d !in s.completed
  {
    d :| d in c.deps[u] && d !in s.completed;
  }

  lemma RestsAtStart(c: Config, u: TaskId)
    requires c.Valid() && u in c.deps && c.deps[u] != []
    ensures Feasible(c, Start) && Resting(c, Final(c, Start)) && !DepsCompleted(c, Final(c, Start), u)
  {
    StartIs(c);
    hide Feasible, Final, Config.Valid, Resting;
    var s := Final(c, Start);
    assert Resting(c, s) by { InitialRests(c, s); }
    assert c.deps[u][0] in c.deps[u];
  }

  lemma InitialRests(c: Config, s: State)
    requires s.unscanned == c.Tasks() && s.sending == None && s.ready == [] && s.results == [] && s.completed == [] && s.overwritten == {}
    requires s.workers != [] && s.workers[0] == Idle && s.collector == Receiving && !s.hasFailed && !s.interrupted
    ensures Resting(c, s)
  {
    assert c.Tasks() - Elems<TaskId>([]) - {} == c.Tasks();
  }

  /** A task with dependencies is, or needs, one whose dependencies have none themselves. */
  lemma LowestDependent(c: Config, t: TaskId) returns (u: TaskId)
    requires c.Valid() && Acyclic(c.Edges()) && t in c.deps && c.deps[t] != []
    ensures u in c.deps && c.deps[u] != [] && forall d :: d in c.deps[u] ==> d in c.deps && c.deps[d] == []
    ensures Needs(c, t, u)
  {
    var g := c.Edges();
    EdgesClosed(c);
    AcyclicMeansNoNeed(g);
    hide Acyclic, NeedsCycle, DependsOn;
    var done := set d | d in c.deps && (c.deps[d] == [] || !Needs(c, t, d));
    u := AcyclicHasReady(g, done, t);
    forall d | d in c.deps[u] ensures d in c.deps && c.deps[d] == [] {
      assert d in g[u];
      DependsFurther(g, t, u, d);
    }
  }

  // ----- what is lost stays lost -----

  lemma StepForgetsNoLoss(c: Config, s: State, e: Event)
    requires c.Valid() && Typed(c, s) && Enabled(c, s, e)
    ensures s.overwritten <= Step(c, s, e).overwritten && s.dropped <= Step(c, s, e).dropped
  {
    hide Config.Valid, DepsCompleted, Loses;
    match e {
      case ByCollector(collect) =>
        CollectorFrame(c, s, collect);
        if collect != CancelWrite && collect != ReleaseDrop { hide CollectorStep; }
      case ByWorker(w, work) =>
        WorkerFrame(c, s, w, work);
        hide WorkerStep, WorkerEnabled;
      case ByMain(main) =>
      case Interrupt =>
    }
  }

  lemma {:induction false} LossStays(c: Config, run: Run, longer: Run)
    requires c.Valid() && Feasible(c, run) && Feasible(c, longer) && Continues(run, longer)
    ensures Final(c, run).overwritten <= Final(c, longer).overwritten && Final(c, run).dropped <= Final(c, longer).dropped
    decreases longer
  {
    hide Config.Valid, Enabled, Step;
    if longer != run {
      LossStays(c, run, longer.before);
      StepForgetsNoLoss(c, Final(c, longer.before), longer.event);
    }
  }

  /** A run to the end in which `u` is lost, or something else is dropped. */
  lemma SomeRunLosesThis(c: Config, u: TaskId) returns (run: Run)
    requires c.Valid() && c.SendsOnce() && u in c.deps && c.deps[u] != [] && forall d :: d in c.deps[u] ==> d in c.deps && c.deps[d] == []
    ensures Feasible(c, run) && Healthy(run) && Stuck(c, Final(c, run))
    ensures Final(c, run).dropped != {} || u in Final(c, run).overwritten
  {
    hide Feasible, Final, Config.Valid, Config.SendsOnce, Stuck, Resting, DepsCompleted;
    RestsAtStart(c, u);
    assert Healthy(Start);
    var before := LoseThis(c, Start, u);
    run := MaximalRunExists(c, before);
    LossStays(c, before, run);
  }

  // ----- the exact condition -----

  ghost predicate Completes(c: Config, run: Run)
    requires c.Valid() && Feasible(c, run)
  {
    Elems(Final(c, run).completed) == c.Tasks()
  }

  /** A run that ends without having completed everything, although every build succeeds. */
  lemma SomeRunLoses(c: Config, t: TaskId) returns (run: Run)
    requires c.Valid() && c.SendsOnce() && Acyclic(c.Edges()) && t in c.deps && c.deps[t] != []
    ensures Feasible(c, run) && Healthy(run) && Stuck(c, Final(c, run)) && !Completes(c, run)
  {
    hide Feasible, Final, Config.Valid, Config.SendsOnce, Acyclic, Stuck;
    var u := LowestDependent(c, t);
    run := SomeRunLosesThis(c, u);
    CompletesUnlessLost(c, run);
  }

  /** Of any graph without cycles that sends once: every maximal run in which all builds
      succeed and nobody interrupts completes every task if and only if no task has a
      dependency. */
  lemma AlwaysCompletesExactly(c: Config)
    requires c.Valid() && c.SendsOnce() && Acyclic(c.Edges())
    ensures (forall run :: Feasible(c, run) && Healthy(run) && Stuck(c, Final(c, run)) ==> Completes(c, run))
            <==> NoDependencies(c)
  {
    hide Feasible, Final, Config.Valid, Config.SendsOnce, Acyclic, Stuck;
    if NoDependencies(c) {
      forall run | Feasible(c, run) && Healthy(run) && Stuck(c, Final(c, run)) ensures Completes(c, run) {
        FlatLosesNothing(c, run);
        CompletesUnlessLost(c, run);
      }
    } else {
      var t :| t in c.deps && c.deps[t] != [];
      var run := SomeRunLoses(c, t);
    }
  }
}
