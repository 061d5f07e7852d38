/** When every task is dispatched at most once: a dependency edge added twice is harmless as
    long as another dependency of the task is sure to be completed later. */
module SchedulerOnce {
  import opened Digraph
  import opened TaskGraph
  import opened SchedulerProtocol
  import opened SchedulerSafety

  ghost predicate SentOnce(s: State) {
    forall t :: s.sent[t] <= 1
  }

  /** What the seeding loop is still to send has not been sent. */
  ghost predicate SeedsUnsent(c: Config, s: State) {
    && (forall t :: t in s.unscanned && t in c.deps && c.deps[t] == [] ==> t !in s.sent)
    && (s.sending.Some? ==> s.sending.value !in s.sent && s.sending.value !in s.unscanned)
  }

  /** What the collector is still to consider has not been sent. */
  ghost predicate DependentsUnsent(c: Config, s: State) {
    s.collector.Releasing? && s.collector.task in c.dependents ==>
      forall j :: s.collector.next <= j < |c.dependents[s.collector.task]| ==> c.dependents[s.collector.task][j] !in s.sent
  }

  predicate Unmarked(s: State, t: TaskId) {
    match s.collector
    case Judging(u) => t == u
    case Canceling(u, _) => t == u
    case Overwriting(u, _, _) => t == u
    case Marking(u) => t == u
    case _ => false
  }

  ghost predicate MarksOnce(s: State) {
    forall t :: Unmarked(s, t) ==> t !in s.completed
  }

  /** What the collector is releasing was recorded last. */
  ghost predicate LastMarked(s: State) {
    s.collector.Releasing? ==> s.completed != [] && s.completed[|s.completed| - 1] == s.collector.task
  }

  ghost predicate Counted(c: Config, s: State) {
    s.pendingCount + |s.reported| == |c.deps|
  }

  ghost predicate Once(c: Config, s: State) {
    SentOnce(s) && SeedsUnsent(c, s) && DependentsUnsent(c, s) && MarksOnce(s) && LastMarked(s) && Counted(c, s)
  }

  lemma OnceInit(c: Config)
    requires c.Valid()
    ensures Once(c, Init(c))
  {
    assert |c.deps| == |c.deps.Keys|;
  }

  lemma OnceMain(c: Config, s: State, e: MainEvent)
    requires c.Valid() && c.SendsOnce() && Safe(c, s) && Once(c, s) && MainEnabled(c, s, e)
    ensures Once(c, MainStep(c, s, e))
  {
    hide Conserved, Traced, DepsDone, Truthful, Ordered, ClosedLast, Loses, Config.Valid, Config.SendsOnce;
    match e
    case Scan(_) =>
    case SeedSend => OnceSeed(c, s);
    case Shutdown =>
  }

  /** The seeding loop sends tasks without dependencies, the collector tasks with some. */
  lemma OnceSeed(c: Config, s: State)
    requires c.Valid() && Safe(c, s) && Once(c, s) && MainEnabled(c, s, SeedSend)
    ensures Once(c, MainStep(c, s, SeedSend))
  {
    hide Conserved, Traced, DepsDone, Truthful, Ordered, ClosedLast, Current;
    var s' := MainStep(c, s, SeedSend);
    assert DependentsUnsent(c, s') by { SeedIsNoDependent(c, s); }
    hide Config.Valid, DependentsUnsent, Unmarked;
  }

  lemma SeedIsNoDependent(c: Config, s: State)
    requires c.Valid() && Shape(c, s) && DependentsUnsent(c, s) && MainEnabled(c, s, SeedSend)
    ensures DependentsUnsent(c, MainStep(c, s, SeedSend))
  {
    SendingDone(c, s);
    var s' := MainStep(c, s, SeedSend);
    hide Shape;
    if s.collector.Releasing? && s.collector.task in c.dependents {
      forall j | s.collector.next <= j < |c.dependents[s.collector.task]|
        ensures c.dependents[s.collector.task][j] !in s'.sent
      {
        assert s.collector.task in c.deps[c.dependents[s.collector.task][j]];
      }
    }
  }

  lemma OnceWorker(c: Config, s: State, w: nat, e: WorkerEvent)
    requires Once(c, s) && WorkerEnabled(c, s, w, e)
    ensures Once(c, WorkerStep(c, s, w, e))
  {
    hide WorkerStep;
    WorkerFrame(c, s, w, e);
  }

  /** A task just received was not recorded before. */
  lemma ReceivedIsNew(c: Config, s: State)
    requires c.Valid() && Safe(c, s) && SentOnce(s) && |s.results| > 0
    ensures s.results[0] !in s.completed
  {
    hide Held, Shape, Traced, DepsDone, Ordered, ClosedLast;
    var t := s.results[0];
    assert multiset(s.results)[t] > 0;
    assert s.sent[t] == Places(s, 0, t);
  }

  lemma ReceiveMoves(c: Config, s: State)
    requires c.Valid() && CollectorEnabled(c, s, Receive)
    ensures var s' := CollectorStep(c, s, Receive);
            && s'.sent == s.sent && s'.unscanned == s.unscanned && s'.sending == s.sending && s'.completed == s.completed
            && s'.pendingCount == s.pendingCount - 1 && |s'.reported| == |s.reported| + 1
            && |s.results| > 0 && s'.collector == Judging(s.results[0])
  {
    hide Config.Valid;
  }

  lemma OnceReceive(c: Config, s: State)
    requires c.Valid() && Safe(c, s) && Once(c, s) && CollectorEnabled(c, s, Receive)
    ensures Once(c, CollectorStep(c, s, Receive))
  {
    hide Safe, Once, Config.Valid, CollectorStep, CollectorEnabled;
    ReceiveMoves(c, s);
    OnceIsSentOnce(c, s);
    ReceivedIsNew(c, s);
    OnceJudging(c, s, CollectorStep(c, s, Receive), s.results[0]);
  }

  lemma OnceIsSentOnce(c: Config, s: State)
    requires Once(c, s)
    ensures SentOnce(s)
  {
  }

  lemma OnceJudging(c: Config, s: State, s': State, t: TaskId)
    requires Once(c, s) && t !in s.completed && s'.collector == Judging(t)
    requires s'.sent == s.sent && s'.unscanned == s.unscanned && s'.sending == s.sending && s'.completed == s.completed
    requires s'.pendingCount == s.pendingCount - 1 && |s'.reported| == |s.reported| + 1
    ensures Once(c, s')
  {
  }

  /** Recording a task: none of its dependents can have been sent. */
  lemma DependentUnsent(c: Config, s: State, j: nat)
    requires c.Valid() && DepsDone(c, s) && MarksOnce(s) && CollectorEnabled(c, s, MarkCompleted)
    requires s.collector.task in c.dependents && j < |c.dependents[s.collector.task]|
    ensures c.dependents[s.collector.task][j] !in s.sent
  {
    var t := s.collector.task;
    var u := c.dependents[t][j];
    assert Unmarked(s, t);
    assert u in c.dependents[t];
    assert t in c.deps[u];
  }

  lemma OnceMark(c: Config, s: State)
    requires c.Valid() && Safe(c, s) && Once(c, s) && CollectorEnabled(c, s, MarkCompleted)
    ensures Once(c, CollectorStep(c, s, MarkCompleted))
  {
    hide Shape, Conserved, Traced, Truthful, Ordered, ClosedLast;
    var t := s.collector.task;
    if t in c.dependents {
      forall j | 0 <= j < |c.dependents[t]| ensures c.dependents[t][j] !in s.sent {
        DependentUnsent(c, s, j);
      }
    }
    hide DepsDone, Config.Valid;
  }

  lemma SendMoves(c: Config, s: State)
    requires c.Valid() && CollectorEnabled(c, s, ReleaseSend)
    ensures var s' := CollectorStep(c, s, ReleaseSend);
            && Considering(c, s) && DepsCompleted(c, s, Considered(c, s))
            && s'.sent == s.sent + multiset{Considered(c, s)} && s'.unscanned == s.unscanned && s'.sending == s.sending
            && s'.completed == s.completed && s'.collector == Releasing(s.collector.task, s.collector.next + 1)
            && s'.pendingCount == s.pendingCount && s'.reported == s.reported
  {
    hide Config.Valid, DepsCompleted;
  }

  lemma ConsideredIsUnsent(c: Config, s: State)
    requires c.Valid() && Safe(c, s) && DependentsUnsent(c, s) && Considering(c, s)
    ensures var u := Considered(c, s);
            u in c.deps && c.deps[u] != [] && u !in s.sent && (s.sending.Some? ==> s.sending.value in c.deps && c.deps[s.sending.value] == [])
  {
    ConsideredKnown(c, s);
    SendingSeeds(c, s);
    hide Safe, Config.Valid;
  }

  lemma OnceSend(c: Config, s: State)
    requires c.Valid() && c.SendsOnce() && Safe(c, s) && Once(c, s) && CollectorEnabled(c, s, ReleaseSend)
    ensures Once(c, CollectorStep(c, s, ReleaseSend))
  {
    hide Safe, Config.Valid, Config.SendsOnce, DepsCompleted, DependentsUnsent, CollectorStep, CollectorEnabled, Considered;
    SendMoves(c, s);
    ConsideredIsUnsent(c, s);
    SafeIsOrdered(c, s);
    NextUnsent(c, s);
  }

  /** The task recorded last is not needed by any that was recorded before. */
  lemma LastIsNotNeeded(g: Graph<TaskId>, done: seq<TaskId>, e: TaskId)
    requires NoDup(done) && InDependencyOrder(g, done) && e in done
    ensures !DependsOn(g, e, done[|done| - 1])
  {
    var at :| 0 <= at < |done| && done[at] == e;
    if p :| PathFromTo(g, p, e, done[|done| - 1]) && |p| >= 2 {
      var end := PathDescends(g, done, p, at);
    }
  }

  /** The dependents after one that is released are others. */
  lemma ReleasedComesOnce(c: Config, s: State, j: nat)
    requires c.Valid() && c.SendsOnce() && Ordered(c, s) && LastMarked(s) && Considering(c, s)
    requires DepsCompleted(c, s, Considered(c, s)) && s.collector.next < j < |c.dependents[s.collector.task]|
    ensures c.dependents[s.collector.task][j] != Considered(c, s)
  {
    hide DependsOn, NoDup, InDependencyOrder;
    var d, u := s.collector.task, Considered(c, s);
    if c.dependents[d][j] == u {
      assert c.NotLast(u, d);
      var e :| e in c.deps[u] && DependsOn(c.Edges(), e, d);
      LastIsNotNeeded(c.Edges(), s.completed, e);
    }
  }

  lemma RestIsOther(c: Config, s: State)
    requires c.Valid() && c.SendsOnce() && Ordered(c, s) && LastMarked(s) && Considering(c, s) && DepsCompleted(c, s, Considered(c, s))
    ensures Considered(c, s) !in c.dependents[s.collector.task][s.collector.next + 1..]
  {
    hide Config.Valid, Config.SendsOnce, Ordered, LastMarked, DepsCompleted;
    var list, i := c.dependents[s.collector.task], s.collector.next;
    forall j | i < j < |list| ensures list[j] != list[i] {
      ReleasedComesOnce(c, s, j);
    }
  }

  lemma SafeIsOrdered(c: Config, s: State)
    requires c.Valid() && Safe(c, s)
    ensures Ordered(c, s)
  {
  }

  lemma NextUnsent(c: Config, s: State)
    requires c.Valid() && c.SendsOnce() && Ordered(c, s) && LastMarked(s) && DependentsUnsent(c, s) && CollectorEnabled(c, s, ReleaseSend)
    ensures DependentsUnsent(c, CollectorStep(c, s, ReleaseSend))
  {
    hide Config.Valid, Config.SendsOnce, Ordered, LastMarked, DepsCompleted;
    RestIsOther(c, s);
    var list, i := c.dependents[s.collector.task], s.collector.next;
    forall j | i < j < |list| ensures list[j] != list[i] {
      assert list[i + 1..][j - i - 1] == list[j];
    }
  }

  lemma SendingSeeds(c: Config, s: State)
    requires c.Valid() && Safe(c, s)
    ensures s.sending.Some? ==> s.sending.value in c.deps && c.deps[s.sending.value] == []
  {
    hide Conserved, Traced, DepsDone, Truthful, Ordered, ClosedLast;
  }

  lemma OnceCollector(c: Config, s: State, e: CollectorEvent)
    requires c.Valid() && c.SendsOnce() && Safe(c, s) && Once(c, s) && CollectorEnabled(c, s, e)
    ensures Once(c, CollectorStep(c, s, e))
  {
    hide Safe, Config.Valid, Config.SendsOnce, DepsCompleted, Loses, IsFailed, IsWaiting, IsCompleted;
    match e
    case Receive => OnceReceive(c, s);
    case MarkCompleted => OnceMark(c, s);
    case ReleaseSend => OnceSend(c, s);
    case CancelPick(_) =>
    case CancelSkip(_) =>
    case _ =>
  }

  lemma OnceStep(c: Config, s: State, e: Event)
    requires c.Valid() && c.SendsOnce() && Safe(c, s) && Once(c, s) && Enabled(c, s, e)
    ensures Once(c, Step(c, s, e))
  {
    hide MainStep, WorkerStep, CollectorStep, Safe, Config.Valid;
    match e
    case ByMain(m) => OnceMain(c, s, m);
    case ByWorker(w, we) => OnceWorker(c, s, w, we);
    case ByCollector(ce) => OnceCollector(c, s, ce);
    case Interrupt =>
  }

  lemma {:induction false} AlwaysOnce(c: Config, run: Run)
    requires c.Valid() && c.SendsOnce() && Feasible(c, run)
    ensures Safe(c, Final(c, run)) && Once(c, Final(c, run))
  {
    hide Safe, Once, Step, Init, Config.Valid;
    AlwaysSafe(c, run);
    match run
    case Start => OnceInit(c);
    case Then(before, e) =>
      AlwaysOnce(c, before);
      OnceStep(c, Final(c, before), e);
  }

  lemma SizeOfSimple(m: multiset<TaskId>)
    requires forall t :: m[t] <= 1
    ensures |m| == |set t | t in m|
  {
    var s := set t | t in m;
    assert m == multiset(s);
  }

  lemma OnceMeans(c: Config, s: State)
    requires c.Valid() && Safe(c, s) && Once(c, s)
    ensures forall t :: s.reported[t] <= s.sent[t] <= 1 && s.started[t] <= s.sent[t]
    ensures s.pendingCount == |set u | u in c.Tasks() && u !in s.reported|
  {
    hide Held, DepsDone, Truthful, Ordered, Config.Valid;
    forall u ensures s.reported[u] <= s.sent[u] <= 1 && s.started[u] <= s.sent[u] {
      HeldStages(s.workers, u);
      assert s.sent[u] == Places(s, 0, u) >= Places(s, 1, u);
    }
    SizeOfSimple(s.reported);
    var known := set u | u in s.reported;
    var unknown := set u | u in c.Tasks() && u !in s.reported;
    forall u | u in known ensures u in c.Tasks() {
      assert s.sent[u] > 0;
    }
    assert c.Tasks() == known + unknown;
    assert |c.Tasks()| == |known| + |unknown|;
    assert |c.deps| == |c.deps.Keys|;
  }

  lemma UnreportedIsPending(c: Config, s: State, x: TaskId)
    requires c.Valid() && Safe(c, s) && Once(c, s) && x in c.deps && x !in s.reported
    ensures s.pendingCount > 0
  {
    hide Safe, Once, Config.Valid;
    OnceMeans(c, s);
    var unknown := set u | u in c.Tasks() && u !in s.reported;
    assert x in unknown && |unknown| > 0;
  }

  /** However the goroutines interleave, a task is sent to the workers at most once, built
      at most once and reported at most once, and the collector's counter is the number of
      tasks it has not heard of. */
  lemma ExactlyOnce(c: Config, run: Run, t: TaskId)
    requires c.Valid() && c.SendsOnce() && Feasible(c, run)
    ensures var s := Final(c, run);
            && s.reported[t] <= s.sent[t] <= 1 && s.started[t] <= s.sent[t]
            && s.pendingCount == |set u | u in c.Tasks() && u !in s.reported|
  {
    hide Safe, Once, Config.Valid;
    AlwaysOnce(c, run);
    OnceMeans(c, Final(c, run));
  }

  // ----- how many tasks are under way -----

  /** No task of the set depends on another, directly or not. */
  ghost predicate Independent(c: Config, tasks: set<TaskId>) {
    forall a, b :: a in tasks && b in tasks ==> !DependsOn(c.Edges(), a, b)
  }

  /** No more than twice as many tasks as workers are independent of each other. */
  ghost predicate Narrow(c: Config) {
    forall tasks: set<TaskId> :: tasks <= c.Tasks() && Independent(c, tasks) ==> |tasks| <= c.Capacity()
  }

  lemma SmallIsNarrow(c: Config)
    requires |c.deps| <= c.Capacity()
    ensures Narrow(c)
  {
    hide Independent;
    assert |c.deps| == |c.deps.Keys|;
    forall tasks: set<TaskId> | tasks <= c.Tasks() ensures |tasks| <= c.Capacity() {
      SubsetSize(tasks, c.Tasks());
    }
  }

  /** Sent or free to be sent, and not reported yet. */
  ghost predicate Open(c: Config, s: State, t: TaskId) {
    t in c.deps && DepsCompleted(c, s, t) && t !in s.reported
  }

  lemma OpenHasItsDependencies(c: Config, s: State, a: TaskId, b: TaskId)
    requires c.Valid() && Safe(c, s) && Open(c, s, a) && DependsOn(c.Edges(), a, b)
    ensures b in s.reported
  {
    hide Shape, Conserved, Traced, InDependencyOrder, NoDup;
    var g := c.Edges();
    var p :| PathFromTo(g, p, a, b) && |p| >= 2;
    assert p[0 + 1] in g[p[0]];
    TailIsPath(g, p);
    CompletedIsClosed(c, s, p[1..]);
  }

  lemma OpenAreIndependent(c: Config, s: State, tasks: set<TaskId>)
    requires c.Valid() && Safe(c, s) && forall t :: t in tasks ==> Open(c, s, t)
    ensures Independent(c, tasks)
  {
    hide Safe, DependsOn, DepsCompleted;
    forall a, b | a in tasks && b in tasks ensures !DependsOn(c.Edges(), a, b) {
      assert Open(c, s, a) && Open(c, s, b);
      if DependsOn(c.Edges(), a, b) {
        OpenHasItsDependencies(c, s, a, b);
      }
    }
  }

  lemma OpenFit(c: Config, s: State, queue: seq<TaskId>, t: TaskId)
    requires c.Valid() && Safe(c, s) && Narrow(c) && NoDup(queue) && t !in queue
    requires Open(c, s, t) && forall u :: u in queue ==> Open(c, s, u)
    ensures |queue| < c.Capacity()
  {
    hide Safe, Config.Valid, Config.Capacity, Independent, DepsCompleted;
    var tasks := Elems(queue) + {t};
    OpenAreIndependent(c, s, tasks);
    NoDupSize(queue);
    assert |tasks| == |queue| + 1;
  }

  /** Where a task sent once can be: an unreported one has its dependencies recorded. */
  lemma SentIsOpen(c: Config, s: State, t: TaskId, stage: nat)
    requires c.Valid() && Safe(c, s) && SentOnce(s) && stage <= 2
    requires Places(s, stage, t) > s.reported[t]
    ensures Open(c, s, t)
  {
    hide Held, Traced, Ordered, ClosedLast, Config.Valid;
    HeldStages(s.workers, t);
    assert s.sent[t] == Places(s, 0, t) >= Places(s, stage, t);
    assert t in s.sent;
  }

  /** If no more than twice as many tasks as workers are independent, the drop branch is dead. */
  lemma NoDropWhenNarrow(c: Config, run: Run, e: Event)
    requires c.Valid() && c.SendsOnce() && Feasible(c, run) && Narrow(c)
    requires Enabled(c, Final(c, run), e)
    ensures e != ByCollector(ReleaseDrop)
  {
    hide Safe, Narrow, Config.Valid, Config.Capacity, SentOnce, SeedsUnsent, MarksOnce, Counted, DepsCompleted;
    if e == ByCollector(ReleaseDrop) {
      AlwaysOnce(c, run);
      var s := Final(c, run);
      assert Considered(c, s) !in s.sent;
      ConsideredKnown(c, s);
      UnsentLeavesRoom(c, s, Considered(c, s));
    }
  }

  lemma UnsentLeavesRoom(c: Config, s: State, u: TaskId)
    requires c.Valid() && Safe(c, s) && SentOnce(s) && Narrow(c) && u in c.deps && u !in s.sent && DepsCompleted(c, s, u)
    ensures |s.ready| < c.Capacity()
  {
    hide Held, Shape, Traced, DepsDone, Truthful, Ordered, ClosedLast, Config.Valid, Config.Capacity, Narrow, DepsCompleted;
    forall t ensures multiset(s.ready)[t] + s.reported[t] <= s.sent[t] {
      assert s.sent[t] == Places(s, 0, t);
    }
    NoDupMultiset(s.ready);
    forall t | t in s.ready ensures Open(c, s, t) {
      assert multiset(s.ready)[t] > 0;
      SentIsOpen(c, s, t, 0);
    }
    hide Conserved;
    assert multiset(s.ready)[u] == 0 && s.reported[u] == 0;
    OpenFit(c, s, s.ready, u);
  }
}
