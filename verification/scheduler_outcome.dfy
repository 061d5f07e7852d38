/** How runs that nobody interrupts end. Two branches of the program can lose work: the drop
    when the ready queue is full, and a status write that hits a finished build before the
    collector has read it. Everything else is settled by which builds succeed. */
module SchedulerOutcome {
  import opened Wrappers
  import opened TaskGraph
  import opened SchedulerProtocol
  import opened SchedulerSafety
  import opened SchedulerOnce

  predicate Uninterrupted(run: Run) {
    match run
    case Start => true
    case Then(before, e) => Uninterrupted(before) && e != Interrupt
  }

  // ----- invariants of uninterrupted runs -----

  /** Only the end of the run raises the flags that let workers leave. */
  ghost predicate Ended(c: Config, s: State) {
    && (s.interrupted ==> s.collector.Returned?)
    && (forall w :: 0 <= w < |s.workers| && s.workers[w].Exited? ==> s.interrupted || s.closed)
    && (s.collector.Returned? ==>
          s.pendingCount <= 0 && s.collector.verdict == if s.hasFailed then BuildFailed(s.failedTask) else AllBuilt)
  }

  /** A successful build keeps its status until it is recorded, unless it was overwritten. */
  ghost predicate KeptAt(s: State, t: TaskId) {
    t in s.succeeded && t !in s.overwritten && t !in s.completed ==> IsCompleted(s, t) && (t in s.reported ==> Unmarked(s, t))
  }

  ghost predicate Kept(s: State) {
    forall t :: KeptAt(s, t)
  }

  /** An overwritten build is never recorded. */
  ghost predicate LostAt(s: State, t: TaskId) {
    t in s.overwritten ==> t !in s.completed && t in s.status && s.status[t] != Completed && Places(s, 2, t) > 0
  }

  ghost predicate Lost(s: State) {
    forall t :: LostAt(s, t)
  }

  /** The dependents the collector is still to consider. */
  ghost function Upcoming(c: Config, s: State): seq<TaskId> {
    if s.collector.Releasing? && s.collector.task in c.dependents && s.collector.next <= |c.dependents[s.collector.task]|
    then c.dependents[s.collector.task][s.collector.next..] else []
  }

  /** A dropped task is never sent. */
  ghost predicate SkippedAt(c: Config, s: State, t: TaskId) {
    t in s.dropped ==> t in c.deps && c.deps[t] != [] && DepsCompleted(c, s, t) && t !in s.sent && t !in Upcoming(c, s)
  }

  /** A task with dependencies, all recorded, was sent, dropped, or is about to be considered. */
  ghost predicate FairAt(c: Config, s: State, t: TaskId) {
    t in c.deps && c.deps[t] != [] && DepsCompleted(c, s, t) ==> t in s.sent || t in s.dropped || t in Upcoming(c, s)
  }

  /** A task without dependencies was sent or is about to be. */
  ghost predicate SeededAt(c: Config, s: State, t: TaskId) {
    t in c.deps && c.deps[t] == [] ==> t in s.sent || t in s.unscanned || s.sending == Some(t)
  }

  ghost predicate Released(c: Config, s: State) {
    forall t :: SkippedAt(c, s, t) && FairAt(c, s, t) && SeededAt(c, s, t)
  }

  ghost predicate Settling(c: Config, s: State) {
    Ended(c, s) && Kept(s) && Lost(s) && Released(c, s)
  }

  lemma SettlingInit(c: Config)
    requires c.Valid()
    ensures Settling(c, Init(c))
  {
    hide Config.Valid, Places;
    var s := Init(c);
    forall t | t in c.deps && c.deps[t] != []
      ensures !DepsCompleted(c, s, t)
    {
      assert c.deps[t][0] in c.deps[t];
    }
  }

  // ----- a task is in one place -----

  /** A task whose build is not over yet is nowhere else. */
  lemma EarlyIsAlone(c: Config, s: State, w: nat)
    requires c.Valid() && Safe(c, s) && SentOnce(s) && w < |s.workers|
    requires s.workers[w].Pulled? || s.workers[w].Cleared? || s.workers[w].Building?
    ensures var t := s.workers[w].task; t !in s.reported && t !in s.succeeded && Places(s, 2, t) == 0
  {
    hide Held, Shape, DepsDone, Truthful, Ordered, ClosedLast, Config.Valid;
    var t := s.workers[w].task;
    HeldUpdate(s.workers, w, Idle, 0, t);
    HeldUpdate(s.workers, w, Idle, 2, t);
    HeldStages(s.workers[w := Idle], t);
    assert s.sent[t] == Places(s, 0, t);
  }

  // ----- Kept and Lost: what happens to a status -----

  lemma StatusMainAt(c: Config, s: State, e: MainEvent, t: TaskId)
    requires c.Valid() && s.unscanned <= c.Tasks() && MainEnabled(c, s, e)
    requires KeptAt(s, t) && LostAt(s, t) && (IsCompleted(s, t) ==> Places(s, 2, t) > 0)
    ensures KeptAt(MainStep(c, s, e), t) && LostAt(MainStep(c, s, e), t)
  {
    hide Held, Config.Valid;
    match e
    case Scan(_) =>
    case SeedSend =>
    case Shutdown =>
  }

  lemma StatusMain(c: Config, s: State, e: MainEvent)
    requires c.Valid() && Safe(c, s) && Kept(s) && Lost(s) && MainEnabled(c, s, e)
    ensures Kept(MainStep(c, s, e)) && Lost(MainStep(c, s, e))
  {
    hide KeptAt, LostAt, Conserved, DepsDone, Ordered, ClosedLast, Places, Config.Valid, Current, MainStep;
    forall t ensures KeptAt(MainStep(c, s, e), t) && LostAt(MainStep(c, s, e), t) {
      StatusMainAt(c, s, e, t);
    }
  }

  lemma StatusWorkerAt(c: Config, s: State, w: nat, e: WorkerEvent, t: TaskId)
    requires WorkerEnabled(c, s, w, e) && KeptAt(s, t) && LostAt(s, t)
    requires (e.CheckStop? || e.Begin? || e.Finish?) && t == s.workers[w].task ==>
               t in s.status && t !in s.reported && t !in s.succeeded && t !in s.overwritten
    ensures KeptAt(WorkerStep(c, s, w, e), t) && LostAt(WorkerStep(c, s, w, e), t)
  {
    hide Places;
    WorkerMoves(c, s, w, e, 2, t);
    match e
    case Finish(_) =>
    case _ =>
  }

  lemma StatusWorker(c: Config, s: State, w: nat, e: WorkerEvent)
    requires c.Valid() && Safe(c, s) && SentOnce(s) && Kept(s) && Lost(s) && WorkerEnabled(c, s, w, e)
    ensures Kept(WorkerStep(c, s, w, e)) && Lost(WorkerStep(c, s, w, e))
  {
    if e.CheckStop? || e.Begin? || e.Finish? {
      EarlyIsKnown(c, s, w);
    }
    hide KeptAt, Safe, SentOnce, Places, Config.Valid, WorkerStep;
    forall t ensures KeptAt(WorkerStep(c, s, w, e), t) && LostAt(WorkerStep(c, s, w, e), t) {
      StatusWorkerAt(c, s, w, e, t);
    }
  }

  lemma EarlyIsKnown(c: Config, s: State, w: nat)
    requires c.Valid() && Safe(c, s) && SentOnce(s) && Lost(s) && w < |s.workers|
    requires s.workers[w].Pulled? || s.workers[w].Cleared? || s.workers[w].Building?
    ensures var t := s.workers[w].task; t in s.status && t !in s.reported && t !in s.succeeded && t !in s.overwritten
  {
    hide Places, Conserved, Traced, DepsDone, Truthful, Ordered, ClosedLast, Config.Valid;
    EarlyIsAlone(c, s, w);
    HeldKnown(c, s, w);
    assert s.workers[w].task in Load(s.workers[w], 0);
    assert LostAt(s, s.workers[w].task);
  }

  lemma StatusCollectorAt(c: Config, s: State, e: CollectorEvent, t: TaskId)
    requires c.Valid() && CollectorEnabled(c, s, e) && KeptAt(s, t) && LostAt(s, t)
    requires IsCompleted(s, t) ==> Places(s, 2, t) > 0
    requires t in s.completed ==> t in s.reported
    ensures KeptAt(CollectorStep(c, s, e), t) && LostAt(CollectorStep(c, s, e), t)
  {
    hide Places, Config.Valid, DepsCompleted;
    CollectorMoves(c, s, e, 2, t);
    match e
    case CancelPick(_) =>
    case CancelSkip(_) =>
    case _ =>
  }

  lemma StatusCollector(c: Config, s: State, e: CollectorEvent)
    requires c.Valid() && Safe(c, s) && Kept(s) && Lost(s) && CollectorEnabled(c, s, e)
    ensures Kept(CollectorStep(c, s, e)) && Lost(CollectorStep(c, s, e))
  {
    hide KeptAt, LostAt, Shape, Conserved, DepsDone, Ordered, ClosedLast, Places, Config.Valid, CollectorStep, CollectorEnabled;
    forall t ensures KeptAt(CollectorStep(c, s, e), t) && LostAt(CollectorStep(c, s, e), t) {
      StatusCollectorAt(c, s, e, t);
    }
  }

  // ----- Released: who gets sent -----

  lemma ReleasedMain(c: Config, s: State, e: MainEvent)
    requires c.Valid() && Shape(c, s) && Released(c, s) && MainEnabled(c, s, e)
    ensures Released(c, MainStep(c, s, e))
  {
    hide SkippedAt, FairAt, SeededAt, Config.Valid, Current, MainStep;
    forall t ensures var s' := MainStep(c, s, e); SkippedAt(c, s', t) && FairAt(c, s', t) && SeededAt(c, s', t) {
      ReleasedMainAt(c, s, e, t);
    }
  }

  lemma ReleasedMainAt(c: Config, s: State, e: MainEvent, t: TaskId)
    requires c.Valid() && Shape(c, s) && MainEnabled(c, s, e)
    requires SkippedAt(c, s, t) && FairAt(c, s, t) && SeededAt(c, s, t)
    ensures var s' := MainStep(c, s, e); SkippedAt(c, s', t) && FairAt(c, s', t) && SeededAt(c, s', t)
  {
    var s' := MainStep(c, s, e);
    SameReleases(c, s, s', t);
    hide DepsCompleted, Upcoming, Loses, Current, Config.Valid;
    match e
    case Scan(_) =>
    case SeedSend =>
    case Shutdown =>
  }

  lemma SameReleases(c: Config, s: State, s': State, t: TaskId)
    requires s'.completed == s.completed && s'.collector == s.collector
    ensures Upcoming(c, s') == Upcoming(c, s)
    ensures t in c.deps ==> (DepsCompleted(c, s', t) <==> DepsCompleted(c, s, t))
  {
  }

  lemma ReleasedWorker(c: Config, s: State, w: nat, e: WorkerEvent)
    requires Released(c, s) && WorkerEnabled(c, s, w, e)
    ensures Released(c, WorkerStep(c, s, w, e))
  {
    hide WorkerStep, DepsCompleted, Upcoming;
    var s' := WorkerStep(c, s, w, e);
    WorkerFrame(c, s, w, e);
    forall t ensures SkippedAt(c, s', t) && FairAt(c, s', t) && SeededAt(c, s', t) {
      assert SkippedAt(c, s, t) && FairAt(c, s, t) && SeededAt(c, s, t);
      SameReleases(c, s, s', t);
    }
  }

  /** Only recording a task makes new tasks ready, and all of them are its dependents. */
  lemma ReleasedMarkAt(c: Config, s: State, t: TaskId)
    requires c.Valid() && Shape(c, s) && MarksOnce(s) && CollectorEnabled(c, s, MarkCompleted)
    requires SkippedAt(c, s, t) && FairAt(c, s, t) && SeededAt(c, s, t)
    requires s.collector.task in c.deps
    ensures var s' := CollectorStep(c, s, MarkCompleted); SkippedAt(c, s', t) && FairAt(c, s', t) && SeededAt(c, s', t)
  {
    var s' := CollectorStep(c, s, MarkCompleted);
    var d := s.collector.task;
    assert Unmarked(s, d);
    assert Upcoming(c, s) == [];
    assert Upcoming(c, s') == c.dependents[d];
    assert s'.completed == s.completed + [d];
    if t in c.deps {
      assert DepsCompleted(c, s, t) ==> DepsCompleted(c, s', t);
      assert d in c.deps[t] <==> t in c.dependents[d];
      assert DepsCompleted(c, s, t) ==> d !in c.deps[t];
    }
  }

  /** The collector looks at the next dependent. */
  lemma ReleasedNextAt(c: Config, s: State, e: CollectorEvent, t: TaskId)
    requires c.Valid() && Considering(c, s) && CollectorEnabled(c, s, e)
    requires e.ReleaseSend? || e.ReleaseDrop? || e.ReleaseWait?
    requires Considered(c, s) !in s.sent
    requires !e.ReleaseWait? ==> Considered(c, s) !in c.dependents[s.collector.task][s.collector.next + 1..]
    requires SkippedAt(c, s, t) && FairAt(c, s, t) && SeededAt(c, s, t)
    ensures var s' := CollectorStep(c, s, e); SkippedAt(c, s', t) && FairAt(c, s', t) && SeededAt(c, s', t)
  {
    var s' := CollectorStep(c, s, e);
    var list := c.dependents[s.collector.task];
    var i := s.collector.next;
    ConsideredKnown(c, s);
    assert list[i..] == [list[i]] + list[i + 1..];
    assert Upcoming(c, s) == list[i..] && Upcoming(c, s') == list[i + 1..];
    assert t in c.deps ==> (DepsCompleted(c, s', t) <==> DepsCompleted(c, s, t));
    hide Upcoming, Config.Valid, DepsCompleted;
    match e
    case ReleaseSend =>
    case ReleaseDrop =>
    case ReleaseWait =>
  }

  /** Every other event of the collector has no dependents to look at, before and after. */
  lemma ReleasedRestAt(c: Config, s: State, e: CollectorEvent, t: TaskId)
    requires c.Valid() && Shape(c, s) && CollectorEnabled(c, s, e)
    requires !e.MarkCompleted? && !e.ReleaseSend? && !e.ReleaseDrop? && !e.ReleaseWait?
    requires SkippedAt(c, s, t) && FairAt(c, s, t) && SeededAt(c, s, t)
    ensures var s' := CollectorStep(c, s, e); SkippedAt(c, s', t) && FairAt(c, s', t) && SeededAt(c, s', t)
  {
    var s' := CollectorStep(c, s, e);
    RestKeepsRecords(c, s, e);
    hide CollectorStep, CollectorEnabled, Upcoming, Shape, Config.Valid, DepsCompleted;
    SameDeps(c, s, s', t);
  }

  /** No task is recorded, sent or dropped, and the collector considers none. */
  ghost predicate RecordsKept(c: Config, s: State, s': State) {
    && s'.completed == s.completed && s'.sent == s.sent && s'.dropped == s.dropped
    && s'.unscanned == s.unscanned && s'.sending == s.sending
    && Upcoming(c, s) == [] && Upcoming(c, s') == []
  }

  lemma RestKeepsRecords(c: Config, s: State, e: CollectorEvent)
    requires c.Valid() && Shape(c, s) && CollectorEnabled(c, s, e)
    requires !e.MarkCompleted? && !e.ReleaseSend? && !e.ReleaseDrop? && !e.ReleaseWait?
    ensures RecordsKept(c, s, CollectorStep(c, s, e))
  {
    if e.MarkOther? || e.ReleaseDone? || e.Return? || e.Abort? {
      EndKeepsRecords(c, s, e);
    } else {
      EarlyKeepsRecords(c, s, e);
    }
  }

  lemma EndKeepsRecords(c: Config, s: State, e: CollectorEvent)
    requires c.Valid() && Shape(c, s) && CollectorEnabled(c, s, e)
    requires e.MarkOther? || e.ReleaseDone? || e.Return? || e.Abort?
    ensures RecordsKept(c, s, CollectorStep(c, s, e))
  {
    SameKeys(c);
    hide Config.Valid, Current, DepsCompleted, Loses, IsFailed, IsCompleted, IsWaiting;
  }

  lemma EarlyKeepsRecords(c: Config, s: State, e: CollectorEvent)
    requires c.Valid() && CollectorEnabled(c, s, e)
    requires e.Receive? || e.JudgeFirst? || e.JudgeFailed? || e.JudgeOther?
             || e.CancelPick? || e.CancelSkip? || e.CancelWrite? || e.CancelDone?
    ensures RecordsKept(c, s, CollectorStep(c, s, e))
  {
    hide Config.Valid, DepsCompleted, Loses, IsFailed, IsCompleted, IsWaiting;
    match e
    case CancelPick(_) =>
    case CancelSkip(_) =>
    case _ =>
  }

  lemma SameDeps(c: Config, s: State, s': State, t: TaskId)
    requires s'.completed == s.completed
    ensures t in c.deps ==> (DepsCompleted(c, s', t) <==> DepsCompleted(c, s, t))
  {
  }

  lemma ReleasedCollector(c: Config, s: State, e: CollectorEvent)
    requires c.Valid() && c.SendsOnce() && Safe(c, s) && Once(c, s) && Released(c, s) && CollectorEnabled(c, s, e)
    ensures Released(c, CollectorStep(c, s, e))
  {
    hide Held, Traced, DepsDone, Truthful, Ordered, ClosedLast, SkippedAt, FairAt, SeededAt;
    hide CollectorStep, DepsCompleted, Counted, Config.Valid, Config.SendsOnce;
    if e.MarkCompleted? {
      assert s.collector.task in Current(s);
      ReportedKnown(c, s, s.collector.task);
    }
    if e.ReleaseSend? || e.ReleaseDrop? {
      RestIsOther(c, s);
    }
    hide Conserved;
    forall t ensures var s' := CollectorStep(c, s, e); SkippedAt(c, s', t) && FairAt(c, s', t) && SeededAt(c, s', t) {
      if e.MarkCompleted? {
        ReleasedMarkAt(c, s, t);
      } else if e.ReleaseSend? || e.ReleaseDrop? || e.ReleaseWait? {
        ReleasedNextAt(c, s, e, t);
      } else {
        ReleasedRestAt(c, s, e, t);
      }
    }
  }

  // ----- Ended, and all of it together -----

  lemma EndedStep(c: Config, s: State, e: Event)
    requires c.Valid() && Typed(c, s) && Ended(c, s) && Enabled(c, s, e) && e != Interrupt
    ensures Ended(c, Step(c, s, e))
  {
    hide Config.Valid, Config.Tasks, Typed, DepsCompleted, Loses;
    match e
    case ByMain(m) =>
    case ByWorker(w, we) =>
      WorkerFrame(c, s, w, we);
      WorkerKeepsVerdict(c, s, w, we);
      hide WorkerStep;
    case ByCollector(ce) => EndedCollector(c, s, ce);
  }

  lemma WorkerKeepsVerdict(c: Config, s: State, w: nat, e: WorkerEvent)
    requires WorkerEnabled(c, s, w, e)
    ensures WorkerStep(c, s, w, e).failedTask == s.failedTask
  {
    match e
    case Finish(_) =>
    case _ =>
  }

  lemma EndedCollector(c: Config, s: State, e: CollectorEvent)
    requires c.Valid() && Ended(c, s) && CollectorEnabled(c, s, e)
    ensures Ended(c, CollectorStep(c, s, e))
  {
    hide Config.Valid, Config.Tasks, DepsCompleted, Loses;
    match e
    case CancelPick(_) =>
    case CancelSkip(_) =>
    case _ =>
  }

  lemma SettlingStep(c: Config, s: State, e: Event)
    requires c.Valid() && c.SendsOnce() && Safe(c, s) && Once(c, s) && Settling(c, s) && Enabled(c, s, e) && e != Interrupt
    ensures Settling(c, Step(c, s, e))
  {
    hide Conserved, Traced, DepsDone, Truthful, Ordered, ClosedLast, Ended, Kept, Lost, Released, Current;
    hide Config.Valid, Config.SendsOnce, MainStep, WorkerStep, CollectorStep;
    hide MainEnabled, WorkerEnabled, CollectorEnabled, SentOnce, SeedsUnsent, DependentsUnsent, MarksOnce;
    EndedStep(c, s, e);
    match e
    case ByMain(m) =>
      StatusMain(c, s, m);
      ReleasedMain(c, s, m);
    case ByWorker(w, we) =>
      StatusWorker(c, s, w, we);
      ReleasedWorker(c, s, w, we);
    case ByCollector(ce) =>
      StatusCollector(c, s, ce);
      ReleasedCollector(c, s, ce);
  }

  lemma {:induction false} AlwaysSettling(c: Config, run: Run)
    requires c.Valid() && c.SendsOnce() && Feasible(c, run) && Uninterrupted(run)
    ensures var s := Final(c, run); Safe(c, s) && Once(c, s) && Settling(c, s)
  {
    hide Safe, Once, Settling, Step, Init, Config.Valid, Config.SendsOnce;
    AlwaysOnce(c, run);
    match run
    case Start => SettlingInit(c);
    case Then(before, e) =>
      AlwaysSettling(c, before);
      SettlingStep(c, Final(c, before), e);
  }

  // ----- states in which nobody can move -----

  /** The collector can move unless it has returned or waits for a result. */
  lemma CollectorNext(c: Config, s: State) returns (e: CollectorEvent)
    requires c.Valid() && Shape(c, s) && !s.collector.Returned?
    requires s.collector.Receiving? ==> s.pendingCount <= 0 || s.results != []
    ensures Enabled(c, s, ByCollector(e))
  {
    hide Config.Valid, Typed, DepsCompleted, Current, IsFailed, IsWaiting, IsCompleted;
    match s.collector
    case Receiving => e := if s.pendingCount <= 0 then Return else Receive;
    case Judging(t) =>
      e := if !IsFailed(s, t) then JudgeOther else if !s.hasFailed && c.mode == StopOnFailure then JudgeFirst else JudgeFailed;
    case Canceling(t, rest) =>
      if rest == {} {
        e := CancelDone;
      } else {
        var u :| u in rest;
        e := if IsWaiting(s, u) then CancelPick(u) else CancelSkip(u);
      }
    case Overwriting(_, _, _) => e := CancelWrite;
    case Marking(t) => e := if IsCompleted(s, t) then MarkCompleted else MarkOther;
    case Releasing(_, _) =>
      if Considering(c, s) {
        ConsideredKnown(c, s);
        e := if !DepsCompleted(c, s, Considered(c, s)) then ReleaseWait
             else if |s.ready| < c.Capacity() then ReleaseSend
             else ReleaseDrop;
      } else {
        e := ReleaseDone;
      }
  }

  lemma CollectorRests(c: Config, s: State)
    requires c.Valid() && Shape(c, s) && Stuck(c, s) && !s.collector.Returned?
    ensures s.collector.Receiving? && s.pendingCount > 0 && s.results == []
  {
    hide Config.Valid, Shape, Enabled;
    if !(s.collector.Receiving? && s.pendingCount > 0 && s.results == []) {
      var e := CollectorNext(c, s);
    }
  }

  lemma WorkersRest(c: Config, s: State, w: nat)
    requires c.Valid() && Stuck(c, s) && s.results == [] && w < |s.workers|
    ensures s.workers[w].Idle? || s.workers[w].Exited?
    ensures s.workers[w].Idle? ==> s.ready == []
  {
    assert !Enabled(c, s, ByWorker(w, Pull)) && !Enabled(c, s, ByWorker(w, CheckStop)) && !Enabled(c, s, ByWorker(w, CheckGo));
    assert !Enabled(c, s, ByWorker(w, Begin)) && !Enabled(c, s, ByWorker(w, Finish(true))) && !Enabled(c, s, ByWorker(w, Deliver));
  }

  lemma SeederRests(c: Config, s: State)
    requires c.Valid() && Stuck(c, s) && s.ready == []
    ensures s.unscanned == {} && s.sending == None
  {
    hide Config.Valid, Enabled;
    if s.unscanned != {} || s.sending != None {
      var e := SeederNext(c, s);
    }
  }

  lemma SeederNext(c: Config, s: State) returns (e: MainEvent)
    requires c.Valid() && s.ready == [] && (s.unscanned != {} || s.sending != None)
    ensures Enabled(c, s, ByMain(e))
  {
    if s.sending != None {
      e := SeedSend;
    } else {
      var t :| t in s.unscanned;
      e := Scan(t);
    }
  }

  /** If the collector has not returned, everything sent has been reported. */
  lemma AllQuiet(c: Config, s: State)
    requires c.Valid() && Safe(c, s) && Ended(c, s) && Stuck(c, s) && !s.collector.Returned?
    ensures s.collector.Receiving? && s.unscanned == {} && s.sending == None
    ensures forall t, stage :: 0 <= stage <= 2 ==> Places(s, stage, t) == s.reported[t]
  {
    assert c.maxWorkers > 0;
    hide Held, Conserved, Traced, DepsDone, Truthful, Ordered, Config.Valid, Typed, Enabled;
    CollectorRests(c, s);
    forall w | 0 <= w < |s.workers|
      ensures s.workers[w].Idle? && s.ready == []
    {
      WorkersRest(c, s, w);
    }
    assert s.workers[0].Idle?;
    SeederRests(c, s);
    forall t, stage | 0 <= stage <= 2
      ensures Places(s, stage, t) == s.reported[t]
    {
      HeldNothing(s.workers, stage);
    }
  }
}
