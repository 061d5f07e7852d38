/** Runs one event longer: what each event of a healthy run does to the state it meets. The worker is
    always number 0. */
module SchedulerSteps {
  import opened Wrappers
  import opened TaskGraph
  import opened SchedulerProtocol
  import opened SchedulerSafety
  import opened SchedulerOutcome
  import opened SchedulerEndings

  /** The longer run is as healthy, and as free of interrupts, as the shorter one. */
  ghost predicate Keeps(run: Run, longer: Run) {
    (Healthy(run) ==> Healthy(longer)) && (Uninterrupted(run) ==> Uninterrupted(longer))
  }

  lemma ShapeKnown(c: Config, run: Run)
    requires c.Valid() && Feasible(c, run)
    ensures Typed(c, Final(c, run)) && |Final(c, run).workers| == c.maxWorkers
  {
    hide Conserved, Traced, DepsDone, Truthful, Ordered, ClosedLast, Typed, Config.Valid;
    AlwaysSafe(c, run);
  }

  lemma Extend(c: Config, run: Run, e: Event) returns (run': Run)
    requires c.Valid() && Feasible(c, run) && Enabled(c, Final(c, run), e)
    ensures run' == Then(run, e) && Feasible(c, run') && Typed(c, Final(c, run)) && Final(c, run') == Step(c, Final(c, run), e)
    ensures e != Interrupt && (e.ByWorker? && e.work.Finish? ==> e.work.ok) ==> Keeps(run, run')
    ensures Uninterrupted(run) && e != Interrupt ==> Uninterrupted(run')
  {
    hide Config.Valid, Enabled, Step;
    ShapeKnown(c, run);
    run' := Then(run, e);
  }

  lemma ShapeIsTyped(c: Config, run: Run)
    requires c.Valid() && Feasible(c, run)
    ensures Final(c, run).unscanned <= c.Tasks()
  {
    hide Config.Valid, Feasible, Final;
    ShapeKnown(c, run);
  }

  // ----- the main goroutine -----

  lemma ScanNext(c: Config, run: Run, t: TaskId) returns (run': Run)
    requires c.Valid() && Feasible(c, run)
    requires var s := Final(c, run); t in s.unscanned && t in c.deps && s.sending == None && !Loses(s, t)
    ensures Feasible(c, run') && Keeps(run, run')
    ensures var s := Final(c, run); Final(c, run') == s.(status := s.status[t := Waiting], unscanned := s.unscanned - {t}, sending := if c.deps[t] == [] then Some(t) else None)
  {
    hide Feasible, Final, Keeps, Uninterrupted, WorkerStep, WorkerEnabled, CollectorStep, CollectorEnabled;
    ShapeIsTyped(c, run);
    run' := Extend(c, run, ByMain(Scan(t)));
  }

  lemma ScanLoses(c: Config, run: Run, t: TaskId) returns (run': Run)
    requires c.Valid() && Feasible(c, run)
    requires var s := Final(c, run); t in s.unscanned && t in c.deps && s.sending == None && Loses(s, t)
    ensures Feasible(c, run') && Keeps(run, run')
    ensures var s := Final(c, run); Final(c, run') == s.(status := s.status[t := Waiting], unscanned := s.unscanned - {t}, sending := if c.deps[t] == [] then Some(t) else None, overwritten := s.overwritten + {t})
  {
    hide Feasible, Final, Keeps, Uninterrupted, WorkerStep, WorkerEnabled, CollectorStep, CollectorEnabled;
    ShapeIsTyped(c, run);
    run' := Extend(c, run, ByMain(Scan(t)));
  }

  lemma SeedNext(c: Config, run: Run, t: TaskId) returns (run': Run)
    requires c.Valid() && Feasible(c, run)
    requires var s := Final(c, run); s.sending == Some(t) && |s.ready| < c.Capacity()
    ensures Feasible(c, run') && Keeps(run, run')
    ensures var s := Final(c, run); Final(c, run') == s.(ready := s.ready + [t], sent := s.sent + multiset{t}, sending := None)
  {
    hide Feasible, Final, Keeps, Uninterrupted, WorkerStep, WorkerEnabled, CollectorStep, CollectorEnabled;
    ShapeIsTyped(c, run);
    run' := Extend(c, run, ByMain(SeedSend));
  }

  lemma ShutdownNext(c: Config, run: Run) returns (run': Run)
    requires c.Valid() && Feasible(c, run)
    requires var s := Final(c, run); s.unscanned == {} && s.sending == None && s.collector.Returned? && !s.closed
    ensures Feasible(c, run') && Keeps(run, run')
    ensures var s := Final(c, run); Final(c, run') == s.(interrupted := true, closed := true)
  {
    hide Feasible, Final, Keeps, Uninterrupted, WorkerStep, WorkerEnabled, CollectorStep, CollectorEnabled;
    ShapeIsTyped(c, run);
    run' := Extend(c, run, ByMain(Shutdown));
  }

  // ----- a worker -----

  lemma PullNext(c: Config, run: Run, t: TaskId) returns (run': Run)
    requires c.Valid() && Feasible(c, run)
    requires var s := Final(c, run); s.workers != [] && s.workers[0] == Idle && s.ready != [] && s.ready[0] == t
    ensures Feasible(c, run') && Keeps(run, run')
    ensures var s := Final(c, run); Final(c, run') == s.(ready := s.ready[1..], workers := s.workers[0 := Pulled(t)])
  {
    hide Config.Valid, Feasible, Final, Keeps, Uninterrupted, MainStep, MainEnabled, CollectorStep, CollectorEnabled;
    run' := Extend(c, run, ByWorker(0, Pull));
  }

  lemma GoNext(c: Config, run: Run, t: TaskId) returns (run': Run)
    requires c.Valid() && Feasible(c, run)
    requires var s := Final(c, run); s.workers != [] && s.workers[0] == Pulled(t) && !s.hasFailed
    ensures Feasible(c, run') && Keeps(run, run')
    ensures var s := Final(c, run); Final(c, run') == s.(workers := s.workers[0 := Cleared(t)])
  {
    hide Config.Valid, Feasible, Final, Keeps, Uninterrupted, MainStep, MainEnabled, CollectorStep, CollectorEnabled;
    run' := Extend(c, run, ByWorker(0, CheckGo));
  }

  lemma BeginNext(c: Config, run: Run, t: TaskId) returns (run': Run)
    requires c.Valid() && Feasible(c, run)
    requires var s := Final(c, run); s.workers != [] && s.workers[0] == Cleared(t)
    ensures Feasible(c, run') && Keeps(run, run')
    ensures var s := Final(c, run); Final(c, run') == s.(status := s.status[t := Running], started := s.started + multiset{t}, workers := s.workers[0 := Building(t)])
  {
    hide Config.Valid, Feasible, Final, Keeps, Uninterrupted, MainStep, MainEnabled, CollectorStep, CollectorEnabled;
    run' := Extend(c, run, ByWorker(0, Begin));
  }

  lemma SucceedNext(c: Config, run: Run, t: TaskId) returns (run': Run)
    requires c.Valid() && Feasible(c, run)
    requires var s := Final(c, run); s.workers != [] && s.workers[0] == Building(t) && !s.interrupted
    ensures Feasible(c, run') && Keeps(run, run')
    ensures var s := Final(c, run); Final(c, run') == s.(status := s.status[t := Completed], succeeded := s.succeeded + {t}, workers := s.workers[0 := Finished(t)])
  {
    hide Config.Valid, Feasible, Final, Keeps, Uninterrupted, MainStep, MainEnabled, CollectorStep, CollectorEnabled;
    run' := Extend(c, run, ByWorker(0, Finish(true)));
  }

  lemma FailNext(c: Config, run: Run, t: TaskId) returns (run': Run)
    requires c.Valid() && Feasible(c, run)
    requires var s := Final(c, run); s.workers != [] && s.workers[0] == Building(t) && !s.interrupted
    ensures Feasible(c, run') && (Uninterrupted(run) ==> Uninterrupted(run'))
    ensures var s := Final(c, run); Final(c, run') == s.(status := s.status[t := Failed], workers := s.workers[0 := Finished(t)])
  {
    hide Config.Valid, Feasible, Final, Keeps, Uninterrupted, MainStep, MainEnabled, CollectorStep, CollectorEnabled;
    run' := Extend(c, run, ByWorker(0, Finish(false)));
  }

  lemma DeliverNext(c: Config, run: Run, t: TaskId) returns (run': Run)
    requires c.Valid() && Feasible(c, run)
    requires var s := Final(c, run); s.workers != [] && s.workers[0] == Finished(t) && |s.results| < c.Capacity()
    ensures Feasible(c, run') && Keeps(run, run')
    ensures var s := Final(c, run); Final(c, run') == s.(results := s.results + [t], workers := s.workers[0 := Idle])
  {
    hide Config.Valid, Feasible, Final, Keeps, Uninterrupted, MainStep, MainEnabled, CollectorStep, CollectorEnabled;
    run' := Extend(c, run, ByWorker(0, Deliver));
  }

  // ----- the collector -----

  lemma ReceiveNext(c: Config, run: Run, t: TaskId) returns (run': Run)
    requires c.Valid() && Feasible(c, run)
    requires var s := Final(c, run); s.collector == Receiving && s.pendingCount > 0 && s.results != [] && s.results[0] == t
    ensures Feasible(c, run') && Keeps(run, run')
    ensures var s := Final(c, run); Final(c, run') == s.(results := s.results[1..], pendingCount := s.pendingCount - 1, reported := s.reported + multiset{t}, collector := Judging(t))
  {
    hide Config.Valid, Feasible, Final, Keeps, Uninterrupted, MainStep, MainEnabled, WorkerStep, WorkerEnabled, DepsCompleted, Loses;
    run' := Extend(c, run, ByCollector(Receive));
  }

  lemma JudgeOtherNext(c: Config, run: Run, t: TaskId) returns (run': Run)
    requires c.Valid() && Feasible(c, run)
    requires var s := Final(c, run); s.collector == Judging(t) && !IsFailed(s, t)
    ensures Feasible(c, run') && Keeps(run, run')
    ensures var s := Final(c, run); Final(c, run') == s.(collector := Marking(t))
  {
    hide Config.Valid, Feasible, Final, Keeps, Uninterrupted, MainStep, MainEnabled, WorkerStep, WorkerEnabled, DepsCompleted, Loses;
    run' := Extend(c, run, ByCollector(JudgeOther));
  }

  lemma JudgeFirstNext(c: Config, run: Run, t: TaskId) returns (run': Run)
    requires c.Valid() && Feasible(c, run)
    requires var s := Final(c, run); s.collector == Judging(t) && IsFailed(s, t) && !s.hasFailed && s.failedTask == None && c.mode == StopOnFailure
    ensures Feasible(c, run') && Keeps(run, run')
    ensures var s := Final(c, run); Final(c, run') == s.(failedTask := Some(t), hasFailed := true, collector := Canceling(t, c.Tasks()))
  {
    hide Config.Valid, Feasible, Final, Keeps, Uninterrupted, MainStep, MainEnabled, WorkerStep, WorkerEnabled, DepsCompleted, Loses;
    run' := Extend(c, run, ByCollector(JudgeFirst));
  }

  lemma CancelSkipNext(c: Config, run: Run, t: TaskId, rest: set<TaskId>, u: TaskId) returns (run': Run)
    requires c.Valid() && Feasible(c, run)
    requires var s := Final(c, run); s.collector == Canceling(t, rest) && u in rest && !IsWaiting(s, u)
    ensures Feasible(c, run') && Keeps(run, run')
    ensures var s := Final(c, run); Final(c, run') == s.(collector := Canceling(t, rest - {u}))
  {
    hide Config.Valid, Feasible, Final, Keeps, Uninterrupted, MainStep, MainEnabled, WorkerStep, WorkerEnabled, DepsCompleted, Loses;
    run' := Extend(c, run, ByCollector(CancelSkip(u)));
  }

  lemma CancelNext(c: Config, run: Run, t: TaskId, rest: set<TaskId>, u: TaskId) returns (run': Run)
    requires c.Valid() && Feasible(c, run)
    requires var s := Final(c, run); s.collector == Canceling(t, rest) && u in rest && IsWaiting(s, u)
    ensures Feasible(c, run') && Keeps(run, run')
    ensures var s := Final(c, run); Final(c, run') == s.(collector := Overwriting(t, rest - {u}, u))
  {
    hide Config.Valid, Feasible, Final, Keeps, Uninterrupted, MainStep, MainEnabled, WorkerStep, WorkerEnabled, DepsCompleted, Loses;
    run' := Extend(c, run, ByCollector(CancelPick(u)));
  }

  lemma CancelWriteNext(c: Config, run: Run, t: TaskId, rest: set<TaskId>, u: TaskId) returns (run': Run)
    requires c.Valid() && Feasible(c, run)
    requires var s := Final(c, run); s.collector == Overwriting(t, rest, u) && !Loses(s, u)
    ensures Feasible(c, run') && Keeps(run, run')
    ensures var s := Final(c, run); Final(c, run') == s.(status := s.status[u := Canceled], collector := Canceling(t, rest))
  {
    hide Config.Valid, Feasible, Final, Keeps, Uninterrupted, MainStep, MainEnabled, WorkerStep, WorkerEnabled, DepsCompleted, Loses;
    run' := Extend(c, run, ByCollector(CancelWrite));
  }

  lemma CancelDoneNext(c: Config, run: Run, t: TaskId) returns (run': Run)
    requires c.Valid() && Feasible(c, run)
    requires var s := Final(c, run); s.collector == Canceling(t, {})
    ensures Feasible(c, run') && Keeps(run, run')
    ensures var s := Final(c, run); Final(c, run') == s.(collector := Marking(t))
  {
    hide Config.Valid, Feasible, Final, Keeps, Uninterrupted, MainStep, MainEnabled, WorkerStep, WorkerEnabled, DepsCompleted, Loses;
    run' := Extend(c, run, ByCollector(CancelDone));
  }

  lemma MarkNext(c: Config, run: Run, t: TaskId) returns (run': Run)
    requires c.Valid() && Feasible(c, run)
    requires var s := Final(c, run); s.collector == Marking(t) && IsCompleted(s, t) && t !in s.completed
    ensures Feasible(c, run') && Keeps(run, run')
    ensures var s := Final(c, run); Final(c, run') == s.(completed := s.completed + [t], collector := Releasing(t, 0))
  {
    hide Config.Valid, Feasible, Final, Keeps, Uninterrupted, MainStep, MainEnabled, WorkerStep, WorkerEnabled, DepsCompleted, Loses;
    run' := Extend(c, run, ByCollector(MarkCompleted));
  }

  lemma MarkOtherNext(c: Config, run: Run, t: TaskId) returns (run': Run)
    requires c.Valid() && Feasible(c, run)
    requires var s := Final(c, run); s.collector == Marking(t) && !IsCompleted(s, t)
    ensures Feasible(c, run') && Keeps(run, run')
    ensures var s := Final(c, run); Final(c, run') == s.(collector := Receiving)
  {
    hide Config.Valid, Feasible, Final, Keeps, Uninterrupted, MainStep, MainEnabled, WorkerStep, WorkerEnabled, DepsCompleted, Loses;
    run' := Extend(c, run, ByCollector(MarkOther));
  }

  lemma ReleaseWaitNext(c: Config, run: Run, t: TaskId, i: nat, u: TaskId) returns (run': Run)
    requires c.Valid() && Feasible(c, run)
    requires var s := Final(c, run); s.collector == Releasing(t, i) && t in c.dependents && i < |c.dependents[t]| && c.dependents[t][i] == u && u in c.deps && !DepsCompleted(c, s, u)
    ensures Feasible(c, run') && Keeps(run, run')
    ensures var s := Final(c, run); Final(c, run') == s.(collector := Releasing(t, i + 1))
  {
    hide Config.Valid, Feasible, Final, Keeps, Uninterrupted, MainStep, MainEnabled, WorkerStep, WorkerEnabled, DepsCompleted, Loses;
    run' := Extend(c, run, ByCollector(ReleaseWait));
  }

  lemma ReleaseSendNext(c: Config, run: Run, t: TaskId, i: nat, u: TaskId) returns (run': Run)
    requires c.Valid() && Feasible(c, run)
    requires var s := Final(c, run); s.collector == Releasing(t, i) && t in c.dependents && i < |c.dependents[t]| && c.dependents[t][i] == u && u in c.deps && DepsCompleted(c, s, u) && |s.ready| < c.Capacity()
    ensures Feasible(c, run') && Keeps(run, run')
    ensures var s := Final(c, run); Final(c, run') == s.(ready := s.ready + [u], sent := s.sent + multiset{u}, collector := Releasing(t, i + 1))
  {
    hide Config.Valid, Feasible, Final, Keeps, Uninterrupted, MainStep, MainEnabled, WorkerStep, WorkerEnabled, DepsCompleted, Loses;
    run' := Extend(c, run, ByCollector(ReleaseSend));
  }

  lemma ReleaseDropNext(c: Config, run: Run, t: TaskId, i: nat, u: TaskId) returns (run': Run)
    requires c.Valid() && Feasible(c, run)
    requires var s := Final(c, run); s.collector == Releasing(t, i) && t in c.dependents && i < |c.dependents[t]| && c.dependents[t][i] == u && u in c.deps && DepsCompleted(c, s, u) && |s.ready| >= c.Capacity()
    ensures Feasible(c, run') && Keeps(run, run')
    ensures var s := Final(c, run); Final(c, run') == s.(dropped := s.dropped + {u}, collector := Releasing(t, i + 1))
  {
    hide Config.Valid, Feasible, Final, Keeps, Uninterrupted, MainStep, MainEnabled, WorkerStep, WorkerEnabled, DepsCompleted, Loses;
    run' := Extend(c, run, ByCollector(ReleaseDrop));
  }

  lemma ReleaseDoneNext(c: Config, run: Run, t: TaskId, i: nat) returns (run': Run)
    requires c.Valid() && Feasible(c, run)
    requires var s := Final(c, run); s.collector == Releasing(t, i) && t in c.dependents && i >= |c.dependents[t]|
    ensures Feasible(c, run') && Keeps(run, run')
    ensures var s := Final(c, run); Final(c, run') == s.(collector := Receiving)
  {
    hide Config.Valid, Feasible, Final, Keeps, Uninterrupted, MainStep, MainEnabled, WorkerStep, WorkerEnabled, DepsCompleted, Loses;
    run' := Extend(c, run, ByCollector(ReleaseDone));
  }

  lemma ReturnNext(c: Config, run: Run) returns (run': Run)
    requires c.Valid() && Feasible(c, run)
    requires var s := Final(c, run); s.collector == Receiving && s.pendingCount <= 0
    ensures Feasible(c, run') && Keeps(run, run')
    ensures var s := Final(c, run); Final(c, run') == s.(collector := Returned(if s.hasFailed then BuildFailed(s.failedTask) else AllBuilt))
  {
    hide Config.Valid, Feasible, Final, Keeps, Uninterrupted, MainStep, MainEnabled, WorkerStep, WorkerEnabled, DepsCompleted, Loses;
    run' := Extend(c, run, ByCollector(Return));
  }

  lemma AbortNext(c: Config, run: Run) returns (run': Run)
    requires c.Valid() && Feasible(c, run)
    requires var s := Final(c, run); s.collector == Receiving && s.pendingCount > 0 && s.interrupted
    ensures Feasible(c, run') && Keeps(run, run')
    ensures var s := Final(c, run); Final(c, run') == s.(collector := Returned(Interrupted))
  {
    hide Config.Valid, Feasible, Final, Keeps, Uninterrupted, MainStep, MainEnabled, WorkerStep, WorkerEnabled, DepsCompleted, Loses;
    run' := Extend(c, run, ByCollector(Abort));
  }

  lemma InterruptNext(c: Config, run: Run) returns (run': Run)
    requires c.Valid() && Feasible(c, run)
    requires var s := Final(c, run); !s.interrupted
    ensures Feasible(c, run')
    ensures var s := Final(c, run); Final(c, run') == s.(interrupted := true)
  {
    hide Config.Valid, Feasible, Final, Keeps, Uninterrupted, MainStep, MainEnabled, WorkerStep, WorkerEnabled, CollectorStep, CollectorEnabled;
    run' := Extend(c, run, Interrupt);
  }

  // ----- several events -----

  lemma HasCapacity(c: Config)
    requires c.Valid()
    ensures 0 < c.Capacity()
  {
  }

  /** A worker takes the task at the head of the ready queue and builds it. */
  lemma BuildNext(c: Config, run: Run, t: TaskId) returns (run': Run)
    requires c.Valid() && Feasible(c, run)
    requires var s := Final(c, run);
             s.workers != [] && s.workers[0] == Idle && s.ready != [] && s.ready[0] == t && !s.hasFailed && !s.interrupted
    ensures Feasible(c, run') && Keeps(run, run')
    ensures var s := Final(c, run);
            Final(c, run') == s.(ready := s.ready[1..], workers := s.workers[0 := Finished(t)], status := s.status[t := Completed],
                                 started := s.started + multiset{t}, succeeded := s.succeeded + {t})
  {
    hide *;
    run' := PullNext(c, run, t);
    KeepsBoth(run, run, run');
    var r := GoNext(c, run', t);
    KeepsBoth(run, run', r);
    run' := BeginNext(c, r, t);
    KeepsBoth(run, r, run');
    r := SucceedNext(c, run', t);
    KeepsBoth(run, run', r);
    run' := r;
    var s := Final(c, run);
    assert s.status[t := Running][t := Completed] == s.status[t := Completed];
  }

  lemma KeepsBoth(a: Run, b: Run, c: Run)
    ensures Keeps(a, a) && (Keeps(a, b) && Keeps(b, c) ==> Keeps(a, c))
  {
  }

  /** A worker hands over its task, and the collector takes it up. */
  lemma ReportNext(c: Config, run: Run, t: TaskId) returns (run': Run)
    requires c.Valid() && Feasible(c, run)
    requires var s := Final(c, run);
             s.workers != [] && s.workers[0] == Finished(t) && s.results == [] && s.collector == Receiving && s.pendingCount > 0
    ensures Feasible(c, run') && Keeps(run, run')
    ensures var s := Final(c, run);
            Final(c, run') == s.(workers := s.workers[0 := Idle], collector := Judging(t), pendingCount := s.pendingCount - 1,
                                 reported := s.reported + multiset{t})
  {
    hide *;
    HasCapacity(c);
    run' := DeliverNext(c, run, t);
    KeepsBoth(run, run, run');
    var r := ReceiveNext(c, run', t);
    KeepsBoth(run, run', r);
    run' := r;
  }

  /** The seeding loop comes to a task without dependencies and sends it. */
  lemma SeedOneNext(c: Config, run: Run, t: TaskId) returns (run': Run)
    requires c.Valid() && Feasible(c, run)
    requires var s := Final(c, run);
             t in s.unscanned && t in c.deps && c.deps[t] == [] && s.sending == None && s.ready == [] && !Loses(s, t)
    ensures Feasible(c, run') && Keeps(run, run')
    ensures var s := Final(c, run);
            Final(c, run') == s.(status := s.status[t := Waiting], unscanned := s.unscanned - {t}, ready := [t], sent := s.sent + multiset{t})
  {
    hide *;
    HasCapacity(c);
    run' := ScanNext(c, run, t);
    KeepsBoth(run, run, run');
    var r := SeedNext(c, run', t);
    KeepsBoth(run, run', r);
    run' := r;
  }
}
