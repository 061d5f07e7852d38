/** On which graphs the collector is sure to return, when nobody interrupts. */
module SchedulerReturns {
  import opened Digraph
  import opened TaskGraph
  import opened SchedulerProtocol
  import opened SchedulerSafety
  import opened SchedulerOnce
  import opened SchedulerOutcome
  import opened SchedulerEndings
  import opened SchedulerSteps
  import opened SchedulerRuns
  import opened SchedulerLosses

  // ----- a task that was not built keeps its dependents from being reached -----

  ghost predicate Unbuilt(s: State, d: TaskId) {
    d in s.reported && d !in s.succeeded
  }

  lemma StaysUnbuilt(c: Config, s: State, e: Event, d: TaskId)
    requires c.Valid() && Safe(c, s) && SentOnce(s) && Typed(c, s) && Enabled(c, s, e) && Unbuilt(s, d)
    ensures Unbuilt(Step(c, s, e), d)
  {
    hide Safe, SentOnce, Config.Valid, DepsCompleted, Loses;
    match e {
      case ByCollector(collect) =>
        CollectorKeepsReports(c, s, collect);
        hide CollectorStep, CollectorEnabled;
      case ByWorker(w, work) =>
        if work.Finish? {
          BuildingIsUnreported(c, s, w);
        }
        WorkerFrame(c, s, w, work);
        hide WorkerStep;
      case ByMain(main) =>
      case Interrupt =>
    }
  }

  lemma CollectorKeepsReports(c: Config, s: State, e: CollectorEvent)
    requires c.Valid() && CollectorEnabled(c, s, e)
    ensures s.reported <= CollectorStep(c, s, e).reported && CollectorStep(c, s, e).succeeded == s.succeeded
  {
    hide Config.Valid, DepsCompleted, Loses;
    match e
    case CancelPick(_) =>
    case CancelSkip(_) =>
    case _ =>
  }

  lemma {:induction false} UnbuiltForever(c: Config, run: Run, longer: Run, d: TaskId)
    requires c.Valid() && c.SendsOnce() && Feasible(c, run) && Feasible(c, longer) && Continues(run, longer) && Unbuilt(Final(c, run), d)
    ensures Unbuilt(Final(c, longer), d)
    decreases longer
  {
    hide Config.Valid, Config.SendsOnce, Enabled, Step, Unbuilt, Safe, SeedsUnsent, DependentsUnsent, MarksOnce, SentOnce, Counted;
    if longer != run {
      UnbuiltForever(c, run, longer.before, d);
      AlwaysOnce(c, longer.before);
      StaysUnbuilt(c, Final(c, longer.before), longer.event, d);
    }
  }

  lemma UnbuiltIsNotCompleted(c: Config, run: Run, d: TaskId)
    requires c.Valid() && Feasible(c, run) && Unbuilt(Final(c, run), d)
    ensures d !in Final(c, run).completed
  {
    hide Config.Valid, Feasible, Final;
    CompletionOrder(c, run);
  }

  /** A task without dependencies is seeded, and its build fails. */
  lemma RootFails(c: Config, d: TaskId) returns (run: Run)
    requires c.Valid() && d in c.deps && c.deps[d] == []
    ensures Feasible(c, run) && Uninterrupted(run) && Unbuilt(Final(c, run), d)
  {
    StartIs(c);
    assert d in c.Tasks() && |c.deps| > 0;
    assert !Loses(Final(c, Start), d);
    hide Feasible, Final, Config.Valid, Config.Tasks, Loses, Uninterrupted;
    run := SeedOneNext(c, Start, d);
    run := BuildFails(c, run, d);
    run := ReportNext(c, run, d);
  }

  // ----- whatever the builds do -----

  lemma CycleIsNeverReached(c: Config, s: State, t: TaskId)
    requires c.Valid() && Ordered(c, s) && t in c.deps && OnCycle(c.Edges(), t)
    ensures !DepsCompleted(c, s, t)
  {
    var g := c.Edges();
    var p :| PathFromTo(g, p, t, t) && |p| >= 2;
    assert p[0 + 1] in g[p[0]];
    TailIsPath(g, p);
    hide InDependencyOrder, NoDup, NeedsCycle;
    if DepsCompleted(c, s, t) {
      CompletedIsClosed(c, s, p[1..]);
      OrderedNeedsNoCycle(g, s.completed, t);
      CycleNeedsItself(g, t);
    }
  }

  /** With a dependency, some run that nobody interrupts ends with the collector waiting. */
  lemma SomeRunWaits(c: Config) returns (run: Run)
    requires c.Valid() && c.SendsOnce() && !NoDependencies(c)
    ensures Feasible(c, run) && Uninterrupted(run) && Stuck(c, Final(c, run)) && !Final(c, run).collector.Returned?
  {
    hide Feasible, Final, Stuck, Config.SendsOnce, Config.Valid, OnCycle, Unbuilt, Ordered;
    var t :| t in c.deps && c.deps[t] != [];
    if Acyclic(c.Edges()) {
      hide Acyclic;
      var u := LowestDependent(c, t);
      var d := c.deps[u][0];
      assert d in c.deps[u];
      var before := RootFails(c, d);
      run := MaximalRunExists(c, before);
      UnbuiltForever(c, before, run, d);
      UnbuiltIsNotCompleted(c, run, d);
      EndOfRun(c, run);
      assert !Reached(c, Final(c, run), u);
    } else {
      var v :| v in c.deps && OnCycle(c.Edges(), v);
      StartIs(c);
      run := MaximalRunExists(c, Start);
      RunIsOrdered(c, run);
      CycleIsNeverReached(c, Final(c, run), v);
      EndOfRun(c, run);
      assert !Reached(c, Final(c, run), v);
    }
  }

  lemma RunIsOrdered(c: Config, run: Run)
    requires c.Valid() && Feasible(c, run)
    ensures Ordered(c, Final(c, run))
  {
    hide Config.Valid, Feasible, Final, Shape, Conserved, Traced, DepsDone, Truthful, Ordered, ClosedLast;
    AlwaysSafe(c, run);
  }

  /** Of any graph that sends once: the collector returns at the end of every run that
      nobody interrupts if and only if no task has a dependency. */
  lemma AlwaysReturnsExactly(c: Config)
    requires c.Valid() && c.SendsOnce()
    ensures (forall run :: Feasible(c, run) && Uninterrupted(run) && Stuck(c, Final(c, run)) ==> Final(c, run).collector.Returned?)
            <==> NoDependencies(c)
  {
    hide Feasible, Final, Stuck, Config.SendsOnce, Config.Valid;
    if NoDependencies(c) {
      forall run | Feasible(c, run) && Uninterrupted(run) && Stuck(c, Final(c, run)) ensures Final(c, run).collector.Returned? {
        EndOfRun(c, run);
        forall t | t in c.deps ensures Reached(c, Final(c, run), t) {
          FlatIsReached(c, run, t);
        }
      }
    } else {
      var run := SomeRunWaits(c);
    }
  }

  lemma FlatIsReached(c: Config, run: Run, t: TaskId)
    requires c.Valid() && c.SendsOnce() && Feasible(c, run) && Uninterrupted(run) && NoDependencies(c) && t in c.deps
    ensures Reached(c, Final(c, run), t)
  {
    hide Safe, Once, Ended, Kept, Lost, Feasible, Final, Config.Valid, Config.SendsOnce;
    AlwaysSettling(c, run);
    assert SkippedAt(c, Final(c, run), t);
  }

  // ----- when every build succeeds -----

  /** Some task with a dependency has a dependent. */
  ghost predicate HasMiddle(c: Config) {
    exists t, d :: IsMiddle(c, t, d)
  }

  ghost predicate IsMiddle(c: Config, t: TaskId, d: TaskId) {
    t in c.deps && d in c.deps[t] && d in c.deps && c.deps[d] != []
  }

  /** A build with a dependent is lost, or a task is dropped: the collector waits forever,
      although nothing failed. */
  lemma SomeHealthyRunWaits(c: Config) returns (run: Run)
    requires c.Valid() && c.SendsOnce() && Acyclic(c.Edges()) && HasMiddle(c)
    ensures Feasible(c, run) && Healthy(run) && Stuck(c, Final(c, run)) && !Final(c, run).collector.Returned?
  {
    hide Feasible, Final, Stuck, Config.SendsOnce, Config.Valid, Acyclic, DependsOn;
    var t, d :| IsMiddle(c, t, d);
    var u := LowestDependent(c, d);
    var x := t;
    if u != d {
      x := LastEdge(c.Edges(), d, u);
      assert u in c.Edges()[x];
    }
    assert x in c.deps && u in c.deps[x];
    run := SomeRunLosesThis(c, u);
    EndOfHealthyRun(c, run);
  }

  /** Of any graph without cycles that sends once and in which no more than twice as many tasks
      as workers are independent: the collector returns at the end of every run in which all
      builds succeed and nobody interrupts if and only if no task with a dependency has a
      dependent. */
  lemma NarrowReturnsExactly(c: Config)
    requires c.Valid() && c.SendsOnce() && Acyclic(c.Edges()) && Narrow(c)
    ensures (forall run :: Feasible(c, run) && Healthy(run) && Stuck(c, Final(c, run)) ==> Final(c, run).collector.Returned?)
            <==> !HasMiddle(c)
  {
    hide Feasible, Final, Stuck, Config.SendsOnce, Config.Valid, Acyclic, Narrow;
    if HasMiddle(c) {
      var run := SomeHealthyRunWaits(c);
    } else {
      forall run | Feasible(c, run) && Healthy(run) && Stuck(c, Final(c, run)) ensures Final(c, run).collector.Returned? {
        EndOfHealthyRun(c, run);
        NothingDropped(c, run);
        forall t, d | t in c.deps && d in c.deps[t] ensures d !in Final(c, run).overwritten {
          EndIsKept(c, run, t, d);
        }
      }
    }
  }

  lemma EndIsKept(c: Config, run: Run, t: TaskId, d: TaskId)
    requires c.Valid() && c.SendsOnce() && Feasible(c, run) && Healthy(run) && !HasMiddle(c) && t in c.deps && d in c.deps[t]
    ensures d !in Final(c, run).overwritten
  {
    assert d in c.deps;
    assert !IsMiddle(c, t, d);
    hide Feasible, Final, Config.SendsOnce, Config.Valid;
    RootsKept(c, run, d);
  }
}
