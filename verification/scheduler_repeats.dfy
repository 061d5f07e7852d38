/** On which graphs a task can be sent twice: on those in which an edge was added twice to a
    dependency that can be the last one to be completed, given enough workers. */
module SchedulerRepeats {
  import opened Wrappers
  import opened Digraph
  import opened TaskGraph
  import opened SchedulerProtocol
  import opened SchedulerSafety
  import opened SchedulerOnce
  import opened SchedulerOutcome
  import opened SchedulerEndings
  import opened SchedulerSteps

  /** There is a second worker, and room for all tasks in each channel. */
  predicate Roomy(c: Config) {
    c.maxWorkers >= 2 && |c.deps| < c.Capacity()
  }

  lemma RoomForAll(c: Config, run: Run)
    requires c.Valid() && Roomy(c) && Feasible(c, run) && SentOnce(Final(c, run))
    ensures |Final(c, run).ready| < c.Capacity()
  {
    AlwaysSafe(c, run);
    var s := Final(c, run);
    hide Feasible, Final, Held, Traced, DepsDone, Truthful, Ordered, ClosedLast, Config.Valid;
    forall t ensures multiset(s.ready)[t] <= s.sent[t] {
      assert s.sent[t] == Places(s, 0, t);
    }
    NoDupMultiset(s.ready);
    forall t | t in s.ready ensures t in c.Tasks() {
      assert multiset(s.ready)[t] > 0;
    }
    assert Elems(s.ready) <= c.Tasks();
    NoDupFits(s.ready, c.Tasks());
    assert |c.deps| == |c.Tasks()|;
  }

  // ----- seeding -----

  /** Only the seeding loop has moved, and every task it came to that has no dependencies is
      ready. */
  ghost predicate Seeded(c: Config, s: State) {
    && s.sending == None && s.results == [] && s.completed == [] && s.succeeded == {} && !s.hasFailed && !s.interrupted
    && s.collector == Receiving && s.pendingCount == |c.deps| && s.reported == multiset{}
    && |s.workers| == c.maxWorkers && (forall w :: 0 <= w < |s.workers| ==> s.workers[w] == Idle)
    && SentOnce(s) && (forall t :: t in s.sent ==> t in s.ready && t !in s.unscanned)
    && (forall t :: t in c.deps && c.deps[t] == [] ==> t in s.unscanned || t in s.sent)
  }

  lemma NothingToLose(c: Config, run: Run, t: TaskId)
    requires c.Valid() && Feasible(c, run) && Final(c, run).succeeded == {} && t in Final(c, run).unscanned
    ensures !Loses(Final(c, run), t) && t in c.deps
  {
    hide Held, Conserved, Traced, DepsDone, Ordered, ClosedLast;
    AlwaysSafe(c, run);
  }

  lemma SeedThis(c: Config, run: Run, t: TaskId) returns (run': Run)
    requires c.Valid() && Roomy(c) && Feasible(c, run) && Seeded(c, Final(c, run)) && t in Final(c, run).unscanned
    ensures Feasible(c, run') && Keeps(run, run') && Seeded(c, Final(c, run'))
    ensures Final(c, run').unscanned == Final(c, run).unscanned - {t}
  {
    SeededMeans(c, Final(c, run));
    NothingToLose(c, run, t);
    RoomForAll(c, run);
    hide Feasible, Final, Keeps, Loses, Config.Valid, Config.Capacity, Seeded, SentOnce;
    if c.deps[t] == [] {
      var r := ScanNext(c, run, t);
      run' := SeedNext(c, r, t);
      KeepsBoth(run, r, run');
      SeededRoot(c, Final(c, run), Final(c, run'), t);
    } else {
      run' := ScanNext(c, run, t);
      SeededOther(c, Final(c, run), Final(c, run'), t);
    }
  }

  lemma SeededMeans(c: Config, s: State)
    requires Seeded(c, s)
    ensures s.sending == None && s.succeeded == {} && SentOnce(s)
  {
  }

  lemma SeededRoot(c: Config, s: State, s': State, t: TaskId)
    requires Seeded(c, s) && t in s.unscanned && t in c.deps && c.deps[t] == []
    requires s' == s.(status := s'.status, unscanned := s.unscanned - {t}, ready := s.ready + [t], sent := s.sent + multiset{t})
    ensures Seeded(c, s')
  {
    assert s.sent[t] == 0;
  }

  lemma SeededOther(c: Config, s: State, s': State, t: TaskId)
    requires Seeded(c, s) && t in c.deps && c.deps[t] != []
    requires s' == s.(status := s'.status, unscanned := s.unscanned - {t})
    ensures Seeded(c, s')
  {
  }

  lemma {:induction false} SeedEach(c: Config, run: Run) returns (run': Run)
    requires c.Valid() && Roomy(c) && Feasible(c, run) && Seeded(c, Final(c, run))
    ensures Feasible(c, run') && Keeps(run, run') && Seeded(c, Final(c, run')) && Final(c, run').unscanned == {}
    decreases |Final(c, run).unscanned|
  {
    hide Feasible, Final, Keeps, Config.Valid, Seeded, Roomy;
    if Final(c, run).unscanned == {} {
      KeepsBoth(run, run, run);
      run' := run;
    } else {
      var t :| t in Final(c, run).unscanned;
      var r := SeedThis(c, run, t);
      run' := SeedEach(c, r);
      KeepsBoth(run, r, run');
    }
  }

  // ----- everything is built, except that the second worker holds on to `d` -----

  /** Every task that was sent is ready, completed, or held. */
  ghost predicate Sorted(s: State, d: TaskId)
    requires |s.workers| >= 2
  {
    forall t :: t in s.sent ==> t in s.ready || t in s.completed || (t == d && s.workers[1] == Pulled(d))
  }

  /** Every task that can be sent was. */
  ghost predicate AllSent(c: Config, s: State) {
    forall t :: t in c.deps && DepsCompleted(c, s, t) ==> t in s.sent
  }

  ghost predicate Tidy(c: Config, s: State, d: TaskId) {
    && s.unscanned == {} && s.sending == None && s.results == [] && s.collector == Receiving && !s.hasFailed && !s.interrupted
    && |s.workers| >= 2 && s.workers[0] == Idle && (s.workers[1] == Idle || s.workers[1] == Pulled(d))
    && SentOnce(s) && Counted(c, s) && d !in s.completed && Sorted(s, d) && AllSent(c, s)
  }

  lemma SeededIsTidy(c: Config, s: State, d: TaskId)
    requires Roomy(c) && Seeded(c, s) && s.unscanned == {}
    ensures Tidy(c, s, d)
  {
    forall t | t in c.deps && DepsCompleted(c, s, t) ensures t in s.sent {
      if c.deps[t] != [] {
        assert c.deps[t][0] in c.deps[t];
      }
    }
  }

  /** A task that is ready or held is nowhere else. */
  lemma WaitsAlone(c: Config, run: Run, d: TaskId, x: TaskId)
    requires c.Valid() && Feasible(c, run)
    requires var s := Final(c, run); Tidy(c, s, d) && (x in s.ready || (x == d && s.workers[1] == Pulled(d)))
    ensures var s := Final(c, run);
            && x in c.deps && x !in s.reported && x !in s.completed && s.pendingCount > 0 && |s.workers| >= 2
            && (x == d && x in s.ready ==> s.workers[1] == Idle)
  {
    AlwaysSafe(c, run);
    hide Feasible, Final, Safe, Config.Valid, Tidy;
    WaitingIsAlone(c, Final(c, run), d, x);
  }

  lemma PulledIsHeld(ws: seq<Worker>, w: nat)
    requires w < |ws| && ws[w].Pulled?
    ensures Held(ws, 0)[ws[w].task] > 0
  {
    HeldUpdate(ws, w, Idle, 0, ws[w].task);
  }

  lemma WaitingIsAlone(c: Config, s: State, d: TaskId, x: TaskId)
    requires c.Valid() && Safe(c, s) && Tidy(c, s, d) && (x in s.ready || (x == d && s.workers[1] == Pulled(d)))
    ensures x in c.deps && x !in s.reported && x !in s.completed && s.pendingCount > 0 && |s.workers| >= 2
    ensures x == d && x in s.ready ==> s.workers[1] == Idle
  {
    TidyMeans(c, s, d);
    if s.workers[1] == Pulled(d) {
      PulledIsHeld(s.workers, 1);
    }
    assert x in s.ready ==> multiset(s.ready)[x] > 0;
    hide Held, Traced, DepsDone, Ordered, ClosedLast, Config.Valid, Tidy;
    assert s.sent[x] == Places(s, 0, x) && s.sent[x] <= 1;
    assert x in s.sent && s.reported[x] == 0;
    TidyIsOnce(c, s, d);
    hide Safe, Once, SentOnce;
    UnreportedIsPending(c, s, x);
  }

  lemma TidyIsOnce(c: Config, s: State, d: TaskId)
    requires c.Valid() && Tidy(c, s, d)
    ensures Once(c, s)
  {
    hide Sorted, AllSent, Config.Valid;
  }

  /** The collector considers the dependents of `x` from number `i` on. Unless something is sent
      twice, those that can be sent had not been, and are different from all that follow. */
  lemma {:induction false} OfferAll(c: Config, run: Run, x: TaskId, i: nat) returns (run': Run)
    requires c.Valid() && Roomy(c) && Feasible(c, run) && x in c.dependents && i <= |c.dependents[x]|
    requires Final(c, run).collector == Releasing(x, i)
    ensures Feasible(c, run') && Keeps(run, run')
    ensures Final(c, run).sent <= Final(c, run').sent
    ensures var s, s' := Final(c, run), Final(c, run');
            SentOnce(s') ==>
              && s' == s.(collector := Receiving, ready := s'.ready, sent := s'.sent)
              && s.ready <= s'.ready && (forall t :: t in s'.sent ==> t in s.sent || t in s'.ready)
              && (forall b :: i <= b < |c.dependents[x]| ==> SentNow(c, s, s', c.dependents[x][b]))
              && (forall a, b :: i <= a < b < |c.dependents[x]| && c.dependents[x][a] == c.dependents[x][b] ==> !CanBeSent(c, s, c.dependents[x][a]))
    decreases |c.dependents[x]| - i
  {
    hide Feasible, Final, Config.Valid, Config.Capacity, Config.Tasks, Keeps, Roomy, SentOnce, DepsCompleted;
    var s := Final(c, run);
    if !SentOnce(s) {
      KeepsBoth(run, run, run);
      run' := run;
    } else if i == |c.dependents[x]| {
      run' := ReleaseDoneNext(c, run, x, i);
    } else {
      var u := c.dependents[x][i];
      var r := OfferNext(c, run, x, i, u);
      run' := OfferAll(c, r, x, i + 1);
      KeepsBoth(run, r, run');
      if SentOnce(Final(c, run')) {
        OfferedOne(c, s, Final(c, r), Final(c, run'), x, i);
      }
    }
  }

  lemma OfferNext(c: Config, run: Run, x: TaskId, i: nat, u: TaskId) returns (run': Run)
    requires c.Valid() && Roomy(c) && Feasible(c, run) && SentOnce(Final(c, run))
    requires x in c.dependents && i < |c.dependents[x]| && u == c.dependents[x][i] && Final(c, run).collector == Releasing(x, i)
    ensures Feasible(c, run') && Keeps(run, run')
    ensures var s, s' := Final(c, run), Final(c, run');
            s' == if CanBeSent(c, s, u) then s.(ready := s.ready + [u], sent := s.sent + multiset{u}, collector := Releasing(x, i + 1))
                  else s.(collector := Releasing(x, i + 1))
  {
    hide Feasible, Final, Config.Valid, Config.Capacity, Keeps, Roomy, SentOnce, DepsCompleted;
    ConsideredIsKnown(c, x, i);
    if DepsCompleted(c, Final(c, run), u) {
      RoomForAll(c, run);
      run' := ReleaseSendNext(c, run, x, i, u);
    } else {
      run' := ReleaseWaitNext(c, run, x, i, u);
    }
  }

  ghost predicate CanBeSent(c: Config, s: State, u: TaskId) {
    u in c.deps && DepsCompleted(c, s, u)
  }

  ghost predicate SentNow(c: Config, s: State, s': State, u: TaskId) {
    CanBeSent(c, s, u) ==> s.sent[u] == 0 && u in s'.sent
  }

  lemma ConsideredIsKnown(c: Config, x: TaskId, i: nat)
    requires c.Valid() && x in c.dependents && i < |c.dependents[x]|
    ensures c.dependents[x][i] in c.deps
  {
    assert c.dependents[x][i] in c.dependents[x];
  }

  lemma OfferedOne(c: Config, s: State, r: State, s': State, x: TaskId, i: nat)
    requires x in c.dependents && i < |c.dependents[x]| && r.completed == s.completed && SentOnce(s') && r.sent <= s'.sent
    requires var u := c.dependents[x][i];
             if CanBeSent(c, s, u) then r.sent == s.sent + multiset{u} && r.ready == s.ready + [u] else r.sent == s.sent && r.ready == s.ready
    requires r.ready <= s'.ready && forall t :: t in s'.sent ==> t in r.sent || t in s'.ready
    ensures s.ready <= s'.ready && forall t :: t in s'.sent ==> t in s.sent || t in s'.ready
    requires forall b :: i + 1 <= b < |c.dependents[x]| ==> SentNow(c, r, s', c.dependents[x][b])
    requires forall a, b :: i + 1 <= a < b < |c.dependents[x]| && c.dependents[x][a] == c.dependents[x][b] ==> !CanBeSent(c, r, c.dependents[x][a])
    ensures forall b :: i <= b < |c.dependents[x]| ==> SentNow(c, s, s', c.dependents[x][b])
    ensures forall a, b :: i <= a < b < |c.dependents[x]| && c.dependents[x][a] == c.dependents[x][b] ==> !CanBeSent(c, s, c.dependents[x][a])
  {
    var list := c.dependents[x];
    var u := list[i];
    if CanBeSent(c, s, u) {
      assert r.ready[|s.ready|] == u;
      assert s'.ready[|s.ready|] == u;
    }
    forall b | i <= b < |list| ensures SentNow(c, s, s', list[b]) {
      assert CanBeSent(c, r, list[b]) <==> CanBeSent(c, s, list[b]);
      if CanBeSent(c, s, u) {
        assert r.sent[u] == s.sent[u] + 1 && r.sent[u] <= s'.sent[u] <= 1;
      }
    }
    forall a, b | i <= a < b < |list| && list[a] == list[b] ensures !CanBeSent(c, s, list[a]) {
      assert CanBeSent(c, r, list[a]) <==> CanBeSent(c, s, list[a]);
      assert SentNow(c, r, s', list[b]);
    }
  }

  /** The head of the ready queue is built and recorded. */
  lemma HeadIsRecorded(c: Config, run: Run, x: TaskId) returns (run': Run)
    requires c.Valid() && Feasible(c, run)
    requires var s := Final(c, run);
             && s.ready != [] && s.ready[0] == x && x !in s.completed && s.results == [] && s.collector == Receiving && s.pendingCount > 0
             && s.workers != [] && s.workers[0] == Idle && !s.hasFailed && !s.interrupted
    ensures Feasible(c, run') && Keeps(run, run')
    ensures var s := Final(c, run);
            Final(c, run') == s.(ready := s.ready[1..], completed := s.completed + [x], collector := Releasing(x, 0), status := s.status[x := Completed],
                                 pendingCount := s.pendingCount - 1, reported := s.reported + multiset{x},
                                 started := s.started + multiset{x}, succeeded := s.succeeded + {x})
  {
    hide Feasible, Final, Config.Valid, Keeps, DepsCompleted;
    var r1 := BuildNext(c, run, x);
    var r2 := ReportNext(c, r1, x);
    KeepsBoth(run, r1, r2);
    run' := RecordNext(c, r2, x);
    KeepsBoth(run, r2, run');
    assert Final(c, run).workers[0 := Finished(x)][0 := Idle] == Final(c, run).workers;
  }

  lemma TidyMeans(c: Config, s: State, d: TaskId)
    requires Tidy(c, s, d)
    ensures s.results == [] && s.collector == Receiving && !s.hasFailed && !s.interrupted && |s.workers| >= 2 && s.workers[0] == Idle
    ensures SentOnce(s) && (s.workers[1] == Idle || s.workers[1] == Pulled(d)) && d !in s.completed
  {
  }

  lemma RecordNext(c: Config, run: Run, x: TaskId) returns (run': Run)
    requires c.Valid() && Feasible(c, run)
    requires var s := Final(c, run); s.collector == Judging(x) && IsCompleted(s, x) && x !in s.completed
    ensures Feasible(c, run') && Keeps(run, run')
    ensures var s := Final(c, run); Final(c, run') == s.(completed := s.completed + [x], collector := Releasing(x, 0))
  {
    hide Feasible, Final, Config.Valid, Keeps;
    var r := JudgeOtherNext(c, run, x);
    run' := MarkNext(c, r, x);
    KeepsBoth(run, r, run');
  }

  lemma TidyAfter(c: Config, s: State, r: State, s': State, d: TaskId, x: TaskId)
    requires c.Valid() && Tidy(c, s, d) && x != d && s.ready != [] && s.ready[0] == x && x in c.dependents
    requires r.ready == s.ready[1..] && r.completed == s.completed + [x] && r.sent == s.sent
    requires r.pendingCount == s.pendingCount - 1 && r.reported == s.reported + multiset{x}
    requires r.unscanned == s.unscanned && r.sending == s.sending && r.results == s.results && r.workers == s.workers
    requires r.hasFailed == s.hasFailed && r.interrupted == s.interrupted
    requires s' == r.(collector := Receiving, ready := s'.ready, sent := s'.sent) && SentOnce(s')
    requires r.ready <= s'.ready && r.sent <= s'.sent && forall t :: t in s'.sent ==> t in r.sent || t in s'.ready
    requires forall b :: 0 <= b < |c.dependents[x]| ==> SentNow(c, r, s', c.dependents[x][b])
    ensures Tidy(c, s', d)
  {
    hide Sorted, AllSent, Config.Valid, SentNow, SentOnce;
    SortedAfter(s, r, s', d, x);
    AllSentAfter(c, s, r, s', x);
  }

  lemma SortedAfter(s: State, r: State, s': State, d: TaskId, x: TaskId)
    requires |s.workers| >= 2 && Sorted(s, d) && s.ready != [] && s.ready[0] == x
    requires r.ready == s.ready[1..] && r.sent == s.sent
    requires s'.completed == s.completed + [x] && s'.workers == s.workers
    requires r.ready <= s'.ready && forall t :: t in s'.sent ==> t in r.sent || t in s'.ready
    ensures Sorted(s', d)
  {
    assert s.ready == [x] + r.ready && s'.ready == r.ready + s'.ready[|r.ready|..];
  }

  lemma AllSentAfter(c: Config, s: State, r: State, s': State, x: TaskId)
    requires c.Valid() && AllSent(c, s) && x in c.dependents && r.completed == s.completed + [x] && s'.completed == r.completed
    requires r.sent == s.sent <= s'.sent
    requires forall b :: 0 <= b < |c.dependents[x]| ==> SentNow(c, r, s', c.dependents[x][b])
    ensures AllSent(c, s')
  {
    forall t | t in c.deps && DepsCompleted(c, s', t) ensures t in s'.sent {
      NewlyReady(c, s, r, s', x, t);
    }
  }

  lemma NewlyReady(c: Config, s: State, r: State, s': State, x: TaskId, t: TaskId)
    requires c.Valid() && AllSent(c, s) && x in c.dependents && r.completed == s.completed + [x] && s'.completed == r.completed
    requires r.sent == s.sent <= s'.sent && t in c.deps && DepsCompleted(c, s', t)
    requires forall b :: 0 <= b < |c.dependents[x]| ==> SentNow(c, r, s', c.dependents[x][b])
    ensures t in s'.sent
  {
    if DepsCompleted(c, s, t) {
      assert s.sent[t] <= s'.sent[t];
    } else {
      assert x in c.deps[t];
      assert t in c.dependents[x];
      var b :| 0 <= b < |c.dependents[x]| && c.dependents[x][b] == t;
      assert SentNow(c, r, s', t);
    }
  }

  /** The second worker takes `d` and pauses. */
  lemma HoldNext(c: Config, run: Run, d: TaskId) returns (run': Run)
    requires c.Valid() && Feasible(c, run) && Tidy(c, Final(c, run), d) && Final(c, run).ready != [] && Final(c, run).ready[0] == d
    ensures Feasible(c, run') && Keeps(run, run') && Tidy(c, Final(c, run'), d)
    ensures Final(c, run').completed == Final(c, run).completed && |Final(c, run').workers| == |Final(c, run).workers| >= 2
    ensures Final(c, run).workers[1] == Idle && Final(c, run').workers[1] == Pulled(d)
  {
    WaitsAlone(c, run, d, d);
    TidyMeans(c, Final(c, run), d);
    hide Config.Valid, Feasible, Final, Keeps, Uninterrupted, MainStep, MainEnabled, CollectorStep, CollectorEnabled, Tidy, SentOnce;
    run' := Extend(c, run, ByWorker(1, Pull));
    TidyHolding(c, Final(c, run), Final(c, run'), d);
  }

  lemma TidyHolding(c: Config, s: State, s': State, d: TaskId)
    requires Tidy(c, s, d) && s.workers[1] == Idle && s.ready != [] && s.ready[0] == d
    requires s' == s.(ready := s.ready[1..], workers := s.workers[1 := Pulled(d)])
    ensures Tidy(c, s', d)
  {
    SameSent(c, s, s');
    hide AllSent;
    assert s.ready == [d] + s.ready[1..];
  }

  lemma SameSent(c: Config, s: State, s': State)
    requires AllSent(c, s) && s'.completed == s.completed && s'.sent == s.sent
    ensures AllSent(c, s')
  {
    forall t | t in c.deps && DepsCompleted(c, s', t) ensures t in s'.sent {
      assert DepsCompleted(c, s, t);
    }
  }

  /** All that can be built without `d` is, unless something is sent twice. */
  lemma {:induction false} BuildAllBut(c: Config, run: Run, d: TaskId) returns (run': Run)
    requires c.Valid() && Roomy(c) && Feasible(c, run) && Tidy(c, Final(c, run), d)
    ensures Feasible(c, run') && Keeps(run, run')
    ensures SentOnce(Final(c, run')) ==> Tidy(c, Final(c, run'), d) && Final(c, run').ready == []
    decreases c.Tasks() - Elems(Final(c, run).completed), Final(c, run).workers[1] == Idle
  {
    hide Feasible, Final, Config.Valid, Keeps, Roomy, Tidy;
    var s := Final(c, run);
    TidyMeans(c, s, d);
    KeepsBoth(run, run, run);
    if s.ready == [] {
      run' := run;
    } else if s.ready[0] == d {
      var r := HoldNext(c, run, d);
      run' := BuildAllBut(c, r, d);
      KeepsBoth(run, r, run');
    } else {
      var x := s.ready[0];
      WaitsAlone(c, run, d, x);
      var r := HeadIsRecorded(c, run, x);
      DependentsKnown(c, x);
      var r' := OfferAll(c, r, x, 0);
      KeepsBoth(run, r, r');
      run' := r';
      if SentOnce(Final(c, r')) {
        TidyAfter(c, s, Final(c, r), Final(c, r'), d, x);
        assert Elems(s.completed + [x]) == Elems(s.completed) + {x};
        assert x in c.Tasks();
        run' := BuildAllBut(c, r', d);
        KeepsBoth(run, r', run');
      }
    }
  }

  lemma DependentsKnown(c: Config, x: TaskId)
    requires c.Valid() && x in c.deps
    ensures x in c.dependents
  {
  }

  // ----- then `d` is completed last -----

  lemma DoneWithout(c: Config, s: State, d: TaskId, t: TaskId)
    requires c.Valid() && Acyclic(c.Edges()) && Tidy(c, s, d) && s.ready == []
    requires t in c.deps && t != d && !DependsOn(c.Edges(), t, d)
    ensures t in s.completed
  {
    var g := c.Edges();
    EdgesClosed(c);
    AcyclicMeansNoNeed(g);
    hide Acyclic, NeedsCycle, DependsOn;
    if t !in s.completed {
      var done := set v | v in c.deps && (v in s.completed || v == d || DependsOn(g, v, d));
      var r := AcyclicHasReady(g, done, t);
      forall e | e in c.deps[r] ensures e in s.completed {
        NotAbove(c, r, d, e);
        assert e in g[r];
      }
      NothingWaits(c, s, d, r);
    }
  }

  lemma NothingWaits(c: Config, s: State, d: TaskId, r: TaskId)
    requires Tidy(c, s, d) && s.ready == [] && r in c.deps && r != d && forall e :: e in c.deps[r] ==> e in s.completed
    ensures r in s.completed
  {
    assert DepsCompleted(c, s, r);
    assert r in s.sent;
  }

  lemma NotAbove(c: Config, r: TaskId, d: TaskId, e: TaskId)
    requires c.Valid() && r in c.deps && e in c.deps[r] && !DependsOn(c.Edges(), r, d)
    ensures e != d && !DependsOn(c.Edges(), e, d)
  {
    var g := c.Edges();
    assert e in g && e in g[r];
    hide DependsOn;
    DependsFurther(g, r, r, e);
    if DependsOn(g, e, d) {
      DependsBefore(g, r, e, d);
    }
  }

  lemma DependenciesWithout(c: Config, d: TaskId, e: TaskId)
    requires c.Valid() && Acyclic(c.Edges()) && d in c.deps && e in c.deps[d]
    ensures e in c.deps && e != d && !DependsOn(c.Edges(), e, d)
  {
    assert !OnCycle(c.Edges(), d);
    hide DependsOn;
    NotAbove(c, d, d, e);
  }

  lemma HeldAtLast(c: Config, s: State, d: TaskId)
    requires c.Valid() && Acyclic(c.Edges()) && Tidy(c, s, d) && s.ready == [] && d in c.deps
    ensures s.workers[1] == Pulled(d)
  {
    forall e | e in c.deps[d] ensures e in s.completed {
      DependenciesWithout(c, d, e);
      DoneWithout(c, s, d, e);
    }
    assert DepsCompleted(c, s, d);
    assert d in s.sent;
  }

  /** The second worker goes on with `d`. */
  lemma HolderBuilds(c: Config, run: Run, d: TaskId) returns (run': Run)
    requires c.Valid() && Feasible(c, run)
    requires var s := Final(c, run); |s.workers| >= 2 && s.workers[1] == Pulled(d) && !s.hasFailed && !s.interrupted && |s.results| < c.Capacity()
    ensures Feasible(c, run') && Keeps(run, run')
    ensures var s := Final(c, run);
            Final(c, run') == s.(results := s.results + [d], workers := s.workers[1 := Idle], status := s.status[d := Completed],
                                 started := s.started + multiset{d}, succeeded := s.succeeded + {d})
  {
    hide Config.Valid, Config.Capacity, Feasible, Final, Keeps, Uninterrupted, MainStep, MainEnabled, CollectorStep, CollectorEnabled;
    var r1 := Extend(c, run, ByWorker(1, CheckGo));
    var r2 := Extend(c, r1, ByWorker(1, Begin));
    KeepsBoth(run, r1, r2);
    var r3 := Extend(c, r2, ByWorker(1, Finish(true)));
    KeepsBoth(run, r2, r3);
    run' := Extend(c, r3, ByWorker(1, Deliver));
    KeepsBoth(run, r3, run');
    var s := Final(c, run);
    assert s.status[d := Running][d := Completed] == s.status[d := Completed];
    assert s.workers[1 := Cleared(d)][1 := Building(d)][1 := Finished(d)][1 := Idle] == s.workers[1 := Idle];
  }

  lemma HeldIsRecorded(c: Config, run: Run, d: TaskId) returns (run': Run)
    requires c.Valid() && Feasible(c, run) && Tidy(c, Final(c, run), d) && Final(c, run).workers[1] == Pulled(d)
    ensures Feasible(c, run') && Keeps(run, run') && d in c.deps
    ensures Final(c, run').completed == Final(c, run).completed + [d] && Final(c, run').collector == Releasing(d, 0)
  {
    WaitsAlone(c, run, d, d);
    assert 0 < c.Capacity();
    hide Feasible, Final, Config.Valid, Config.Capacity, Keeps, Sorted, AllSent, DepsCompleted;
    run' := HolderBuilds(c, run, d);
    var r := ReceiveNext(c, run', d);
    KeepsBoth(run, run', r);
    run' := JudgeOtherNext(c, r, d);
    KeepsBoth(run, r, run');
    r := MarkNext(c, run', d);
    KeepsBoth(run, run', r);
    run' := r;
  }

  // ----- the exact condition -----

  /** An edge from `u` to `d` was added twice, and `d` can be the last of its dependencies. */
  ghost predicate RepeatsLast(c: Config, d: TaskId, i: int, j: int) {
    && d in c.dependents && 0 <= i < j < |c.dependents[d]| && c.dependents[d][i] == c.dependents[d][j]
    && !c.NotLast(c.dependents[d][i], d)
  }

  /** A run in which every build succeeds and some task is sent twice. */
  lemma SomeRunSendsTwice(c: Config, d: TaskId, i: int, j: int) returns (run: Run)
    requires c.Valid() && Acyclic(c.Edges()) && Roomy(c) && RepeatsLast(c, d, i, j)
    ensures Feasible(c, run) && Healthy(run) && !SentOnce(Final(c, run))
  {
    StartIsSeeded(c);
    hide Feasible, Final, Config.Valid, Acyclic, Seeded, Tidy, DepsCompleted;
    var r1 := SeedEach(c, Start);
    SeededIsTidy(c, Final(c, r1), d);
    var r2 := BuildAllBut(c, r1, d);
    KeepsBoth(Start, r1, r2);
    run := r2;
    if SentOnce(Final(c, r2)) {
      var u := c.dependents[d][i];
      LastIsKnown(c, d, i);
      HeldAtLast(c, Final(c, r2), d);
      var r3 := HeldIsRecorded(c, r2, d);
      KeepsBoth(Start, r2, r3);
      UCanBeSent(c, Final(c, r2), Final(c, r3), d, u);
      run := OfferAll(c, r3, d, 0);
      KeepsBoth(Start, r3, run);
    }
  }

  lemma LastIsKnown(c: Config, d: TaskId, i: int)
    requires c.Valid() && d in c.dependents && 0 <= i < |c.dependents[d]|
    ensures d in c.deps && c.dependents[d][i] in c.deps
  {
    assert c.dependents[d][i] in c.dependents[d];
  }

  lemma UCanBeSent(c: Config, s: State, s': State, d: TaskId, u: TaskId)
    requires c.Valid() && Acyclic(c.Edges()) && Tidy(c, s, d) && s.ready == [] && u in c.deps && !c.NotLast(u, d)
    requires s'.completed == s.completed + [d]
    ensures CanBeSent(c, s', u)
  {
    hide Acyclic, DependsOn, Tidy;
    forall e | e in c.deps[u] ensures e in s'.completed {
      assert e in c.deps;
      if e != d {
        DoneWithout(c, s, d, e);
      }
    }
  }

  lemma StartIsSeeded(c: Config)
    requires c.Valid()
    ensures Feasible(c, Start) && Healthy(Start) && Seeded(c, Final(c, Start))
  {
    hide Config.Valid;
  }

  /** Of a graph without cycles: whatever the number of workers, no run sends a task twice, if
      and only if no edge was added twice to a dependency that can be completed last. */
  lemma SendsOnceExactly(c: Config)
    requires c.Valid() && Acyclic(c.Edges())
    ensures (forall n: nat, run: Run, t: TaskId :: n > 0 && Feasible(c.(maxWorkers := n), run) ==> Final(c.(maxWorkers := n), run).sent[t] <= 1)
            <==> c.SendsOnce()
  {
    hide Feasible, Final, Acyclic;
    if c.SendsOnce() {
      forall n: nat, run: Run, t: TaskId | n > 0 && Feasible(c.(maxWorkers := n), run)
        ensures Final(c.(maxWorkers := n), run).sent[t] <= 1
      {
        SameGraph(c, n);
        hide Config.SendsOnce, Config.Valid;
        ExactlyOnce(c.(maxWorkers := n), run, t);
      }
    } else {
      var d, i, j :| d in c.dependents && 0 <= i < j < |c.dependents[d]| && c.dependents[d][i] == c.dependents[d][j]
                     && !c.NotLast(c.dependents[d][i], d);
      assert RepeatsLast(c, d, i, j);
      var n := |c.deps| + 2;
      SameGraph(c, n);
      hide Config.SendsOnce, Config.Valid;
      var run := SomeRunSendsTwice(c.(maxWorkers := n), d, i, j);
    }
  }

  lemma SameGraph(c: Config, n: nat)
    requires c.Valid() && n > 0
    ensures var c' := c.(maxWorkers := n); c'.Valid() && c'.Edges() == c.Edges() && (c'.SendsOnce() <==> c.SendsOnce())
    ensures forall d, i, j :: RepeatsLast(c, d, i, j) ==> RepeatsLast(c.(maxWorkers := n), d, i, j)
    ensures n == |c.deps| + 2 ==> Roomy(c.(maxWorkers := n))
  {
    var c' := c.(maxWorkers := n);
    assert c'.Edges() == c.Edges();
    hide DependsOn;
    forall t, d ensures c'.NotLast(t, d) <==> c.NotLast(t, d) {
    }
    hide Config.NotLast;
  }
}
