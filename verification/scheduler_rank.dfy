/** Every run of the scheduler is finite: each event lowers a natural number. */
module SchedulerRank {
  import opened TaskGraph
  import opened SchedulerProtocol
  import opened SchedulerSafety

  function WorkerWeight(w: Worker): nat {
    match w
    case Exited => 0
    case Idle => 1
    case Pulled(_) => 6
    case Cleared(_) => 5
    case Building(_) => 4
    case Finished(_) => 3
  }

  function WorkersWeight(ws: seq<Worker>): nat {
    if ws == [] then 0 else WorkersWeight(ws[..|ws| - 1]) + WorkerWeight(ws[|ws| - 1])
  }

  /** The length of the longest list of dependents, repeated edges counted. */
  ghost function Longest(dependents: map<TaskId, seq<TaskId>>): (n: nat)
    ensures forall t :: t in dependents ==> |dependents[t]| <= n
    decreases |dependents|
  {
    if dependents == map[] then 0
    else
      var t :| t in dependents;
      var n := Longest(dependents - {t});
      assert forall u :: u in dependents && u != t ==> u in dependents - {t};
      if n > |dependents[t]| then n else |dependents[t]|
  }

  /** Covers all that can follow before the collector receives again. */
  ghost function CollectorWeight(c: Config, k: Collector): int {
    var n, m := |c.deps|, Longest(c.dependents);
    match k
    case Returned(_) => 0
    case Receiving => 1
    case Releasing(t, i) => if t in c.dependents then 7 * (|c.dependents[t]| - i) + 2 else 2
    case Marking(_) => 7 * m + 3
    case Canceling(_, rest) => 3 * |rest| + 7 * m + 4
    case Overwriting(_, rest, _) => 3 * |rest| + 7 * m + 6
    case Judging(_) => 3 * n + 7 * m + 5
  }

  function Flags(s: State): nat {
    (if s.interrupted then 0 else 1) + (if s.closed then 0 else 1) + (if s.sending.Some? then 7 else 0)
  }

  /** What one report is worth. */
  ghost function PerReport(c: Config): nat {
    3 * |c.deps| + 7 * Longest(c.dependents) + 5
  }

  ghost function Rank(c: Config, s: State): int {
    PerReport(c) * s.pendingCount + 8 * |s.unscanned| + Flags(s) + 6 * |s.ready| + |s.results|
    + WorkersWeight(s.workers) + CollectorWeight(c, s.collector)
  }

  lemma {:induction false} WeightUpdate(ws: seq<Worker>, w: nat, x: Worker)
    requires w < |ws|
    ensures WorkersWeight(ws[w := x]) + WorkerWeight(ws[w]) == WorkersWeight(ws) + WorkerWeight(x)
  {
    var last := |ws| - 1;
    var ws' := ws[w := x];
    if w == last {
      assert ws'[..last] == ws[..last];
    } else {
      assert ws'[..last] == ws[..last][w := x];
      WeightUpdate(ws[..last], w, x);
    }
  }

  lemma {:induction false} IdleWeight(ws: seq<Worker>)
    requires forall w :: 0 <= w < |ws| ==> ws[w] == Idle
    ensures WorkersWeight(ws) == |ws|
  {
    if ws != [] {
      IdleWeight(ws[..|ws| - 1]);
    }
  }

  lemma RankMain(c: Config, s: State, e: MainEvent)
    requires c.Valid() && s.unscanned <= c.Tasks() && MainEnabled(c, s, e)
    ensures Rank(c, MainStep(c, s, e)) < Rank(c, s)
  {
    hide WorkersWeight, CollectorWeight, Config.Valid, Loses;
    match e
    case Scan(t) => assert |s.unscanned - {t}| == |s.unscanned| - 1;
    case SeedSend =>
    case Shutdown =>
  }

  lemma RankWorker(c: Config, s: State, w: nat, e: WorkerEvent)
    requires WorkerEnabled(c, s, w, e)
    ensures Rank(c, WorkerStep(c, s, w, e)) < Rank(c, s)
  {
    hide WorkersWeight, CollectorWeight, WorkerStep;
    var s' := WorkerStep(c, s, w, e);
    WorkerFrame(c, s, w, e);
    WeightUpdate(s.workers, w, s'.workers[w]);
    match e
    case Finish(_) =>
    case _ =>
  }

  lemma RankReceive(c: Config, s: State)
    requires c.Valid() && CollectorEnabled(c, s, Receive)
    ensures Rank(c, CollectorStep(c, s, Receive)) < Rank(c, s)
  {
    hide WorkersWeight, Config.Valid;
    var p := PerReport(c);
    assert p * (s.pendingCount - 1) == p * s.pendingCount - p;
  }

  lemma TaskCount(c: Config)
    ensures |c.Tasks()| == |c.deps|
  {
    assert |c.deps| == |c.deps.Keys|;
  }

  lemma RemoveOne(tasks: set<TaskId>, t: TaskId)
    requires t in tasks
    ensures |tasks - {t}| == |tasks| - 1
  {
  }

  lemma JudgeWeights(c: Config, t: TaskId, v: Verdict)
    ensures CollectorWeight(c, Canceling(t, c.Tasks())) < CollectorWeight(c, Judging(t))
    ensures CollectorWeight(c, Marking(t)) < CollectorWeight(c, Judging(t))
    ensures CollectorWeight(c, Returned(v)) < CollectorWeight(c, Receiving) < CollectorWeight(c, Marking(t))
  {
    TaskCount(c);
  }

  lemma CancelWeights(c: Config, t: TaskId, rest: set<TaskId>, u: TaskId)
    ensures u in rest ==> CollectorWeight(c, Overwriting(t, rest - {u}, u)) < CollectorWeight(c, Canceling(t, rest))
    ensures u in rest ==> CollectorWeight(c, Canceling(t, rest - {u})) < CollectorWeight(c, Canceling(t, rest))
    ensures CollectorWeight(c, Canceling(t, rest)) < CollectorWeight(c, Overwriting(t, rest, u))
    ensures CollectorWeight(c, Marking(t)) < CollectorWeight(c, Canceling(t, rest))
  {
    if u in rest {
      RemoveOne(rest, u);
    }
  }

  lemma ReleaseWeights(c: Config, t: TaskId, i: nat)
    requires t in c.dependents && i <= |c.dependents[t]|
    ensures i < |c.dependents[t]| ==> CollectorWeight(c, Releasing(t, i + 1)) + 6 < CollectorWeight(c, Releasing(t, i))
    ensures CollectorWeight(c, Receiving) < CollectorWeight(c, Releasing(t, i))
    ensures CollectorWeight(c, Releasing(t, 0)) < CollectorWeight(c, Marking(t))
  {
  }

  ghost predicate Falls(c: Config, s: State, e: CollectorEvent)
    requires c.Valid() && CollectorEnabled(c, s, e)
  {
    CollectorWeight(c, CollectorStep(c, s, e).collector) + (if e.ReleaseSend? then 6 else 0) < CollectorWeight(c, s.collector)
  }

  lemma JudgingFalls(c: Config, s: State, e: CollectorEvent)
    requires c.Valid() && CollectorEnabled(c, s, e) && (e.JudgeFirst? || e.JudgeFailed? || e.JudgeOther? || e.MarkOther?)
    ensures Falls(c, s, e)
  {
    JudgeWeights(c, s.collector.task, AllBuilt);
    hide CollectorWeight;
  }

  lemma ReturningFalls(c: Config, s: State, e: CollectorEvent)
    requires c.Valid() && CollectorEnabled(c, s, e) && (e.Return? || e.Abort?)
    ensures Falls(c, s, e)
  {
    JudgeWeights(c, TaskId(""), CollectorStep(c, s, e).collector.verdict);
    hide CollectorWeight;
  }

  lemma CancelingFalls(c: Config, s: State, e: CollectorEvent)
    requires c.Valid() && CollectorEnabled(c, s, e) && (e.CancelPick? || e.CancelSkip? || e.CancelWrite? || e.CancelDone?)
    ensures Falls(c, s, e)
  {
    var t := s.collector.task;
    match e
    case CancelPick(u) => CancelWeights(c, t, s.collector.rest, u);
    case CancelSkip(u) => CancelWeights(c, t, s.collector.rest, u);
    case CancelWrite => CancelWeights(c, t, s.collector.rest, s.collector.victim);
    case CancelDone => CancelWeights(c, t, s.collector.rest, t);
    hide CollectorWeight;
  }

  lemma ReleasingFalls(c: Config, s: State, e: CollectorEvent)
    requires c.Valid() && Shape(c, s) && CollectorEnabled(c, s, e)
    requires e.ReleaseSend? || e.ReleaseDrop? || e.ReleaseWait? || e.ReleaseDone?
    ensures Falls(c, s, e)
  {
    SameKeys(c);
    ReleaseWeights(c, s.collector.task, s.collector.next);
    hide CollectorWeight, Config.Valid;
  }

  lemma MarkingFalls(c: Config, s: State)
    requires c.Valid() && Shape(c, s) && Conserved(s) && CollectorEnabled(c, s, MarkCompleted)
    ensures Falls(c, s, MarkCompleted)
  {
    hide Held;
    assert s.collector.task in Current(s);
    ReportedKnown(c, s, s.collector.task);
    SameKeys(c);
    ReleaseWeights(c, s.collector.task, 0);
    hide CollectorWeight, Config.Valid, Shape, Conserved;
  }

  lemma CollectorWeightFalls(c: Config, s: State, e: CollectorEvent)
    requires c.Valid() && Shape(c, s) && Conserved(s) && CollectorEnabled(c, s, e) && !e.Receive?
    ensures var s' := CollectorStep(c, s, e);
            CollectorWeight(c, s'.collector) + (if e.ReleaseSend? then 6 else 0) < CollectorWeight(c, s.collector)
  {
    hide CollectorWeight, CollectorStep, Shape, Conserved, Config.Valid;
    if e.MarkCompleted? {
      MarkingFalls(c, s);
    } else if e.ReleaseSend? || e.ReleaseDrop? || e.ReleaseWait? || e.ReleaseDone? {
      ReleasingFalls(c, s, e);
    } else if e.CancelPick? || e.CancelSkip? || e.CancelWrite? || e.CancelDone? {
      CancelingFalls(c, s, e);
    } else if e.Return? || e.Abort? {
      ReturningFalls(c, s, e);
    } else {
      JudgingFalls(c, s, e);
    }
  }

  lemma RankCollector(c: Config, s: State, e: CollectorEvent)
    requires c.Valid() && Shape(c, s) && Conserved(s) && CollectorEnabled(c, s, e)
    ensures Rank(c, CollectorStep(c, s, e)) < Rank(c, s)
  {
    hide WorkersWeight, CollectorWeight, Shape, Conserved, Config.Valid, DepsCompleted, Loses;
    if !e.Receive? {
      CollectorWeightFalls(c, s, e);
    }
    match e
    case Receive => RankReceive(c, s);
    case CancelPick(_) =>
    case CancelSkip(_) =>
    case _ =>
  }

  /** Every event, in a run of any kind, lowers the rank. */
  lemma RankDecreases(c: Config, run: Run, e: Event)
    requires c.Valid() && Feasible(c, Then(run, e))
    ensures Rank(c, Final(c, Then(run, e))) < Rank(c, Final(c, run))
  {
    AlwaysSafe(c, run);
    hide WorkersWeight, CollectorWeight, Rank, Held, Conserved, Traced, DepsDone, Truthful, Ordered, ClosedLast, MainStep, WorkerStep, CollectorStep;
    hide Config.Valid;
    var s := Final(c, run);
    match e
    case ByMain(m) => RankMain(c, s, m);
    case ByWorker(w, we) => RankWorker(c, s, w, we);
    case ByCollector(ce) => RankCollector(c, s, ce);
    case Interrupt => RankInterrupt(c, s);
  }

  lemma RankInterrupt(c: Config, s: State)
    requires !s.interrupted
    ensures Rank(c, s.(interrupted := true)) < Rank(c, s)
  {
    hide WorkersWeight, CollectorWeight;
  }

  function Length(run: Run): nat {
    match run
    case Start => 0
    case Then(before, _) => Length(before) + 1
  }

  lemma ProductNatural(a: nat, b: int)
    requires b >= 0
    ensures a * b >= 0
  {
  }

  lemma {:induction false} PendingNatural(c: Config, run: Run)
    requires c.Valid() && Feasible(c, run)
    ensures Final(c, run).pendingCount >= 0
  {
    hide Config.Valid, MainStep, DepsCompleted, Loses;
    match run
    case Start =>
    case Then(before, e) =>
      PendingNatural(c, before);
      PendingStep(c, Final(c, before), e);
      hide Step, Enabled;
  }

  lemma PendingStep(c: Config, s: State, e: Event)
    requires c.Valid() && Typed(c, s) && Enabled(c, s, e) && s.pendingCount >= 0
    ensures Step(c, s, e).pendingCount >= 0
  {
    hide Config.Valid, DepsCompleted, Loses;
    match e
    case ByMain(_) =>
    case ByWorker(w, we) => WorkerFrame(c, s, w, we); hide WorkerStep;
    case ByCollector(ce) => PendingCollector(c, s, ce); hide CollectorStep;
    case Interrupt =>
  }

  lemma PendingCollector(c: Config, s: State, e: CollectorEvent)
    requires c.Valid() && CollectorEnabled(c, s, e) && s.pendingCount >= 0
    ensures CollectorStep(c, s, e).pendingCount >= 0
  {
    hide Config.Valid, DepsCompleted, Loses;
    match e
    case CancelPick(_) =>
    case CancelSkip(_) =>
    case _ =>
  }

  lemma CollectorWeightNatural(c: Config, s: State)
    requires c.Valid() && Shape(c, s)
    ensures CollectorWeight(c, s.collector) >= 0
  {
    hide Config.Valid, Typed, Current;
  }

  lemma RankNaturalState(c: Config, s: State)
    requires s.pendingCount >= 0 && CollectorWeight(c, s.collector) >= 0
    ensures Rank(c, s) >= 0
  {
    hide WorkersWeight, CollectorWeight;
    ProductNatural(PerReport(c), s.pendingCount);
  }

  lemma RankNatural(c: Config, run: Run)
    requires c.Valid() && Feasible(c, run)
    ensures Rank(c, Final(c, run)) >= 0
  {
    hide CollectorWeight, Rank, Shape, Config.Valid;
    PendingNatural(c, run);
    ShapeAlways(c, run);
    CollectorWeightNatural(c, Final(c, run));
    RankNaturalState(c, Final(c, run));
  }

  lemma ShapeAlways(c: Config, run: Run)
    requires c.Valid() && Feasible(c, run)
    ensures Shape(c, Final(c, run))
  {
    hide Conserved, Traced, DepsDone, Truthful, Ordered, ClosedLast, Shape, Config.Valid;
    AlwaysSafe(c, run);
  }

  lemma {:induction false} RankFalls(c: Config, run: Run)
    requires c.Valid() && Feasible(c, run)
    ensures Rank(c, Final(c, run)) + Length(run) <= Rank(c, Init(c))
  {
    hide Rank, Config.Valid, Init;
    match run
    case Start =>
    case Then(before, e) =>
      RankFalls(c, before);
      RankDecreases(c, before, e);
  }

  /** Whatever fails, is canceled or dropped, and however often an edge was added, no run is
      longer than this. */
  lemma RunsAreFinite(c: Config, run: Run)
    requires c.Valid() && Feasible(c, run)
    ensures Length(run) <= (3 * |c.deps| + 7 * Longest(c.dependents) + 13) * |c.deps| + c.maxWorkers + 3
  {
    hide Rank, Config.Valid, Init;
    RankNatural(c, run);
    RankFalls(c, run);
    RankAtStart(c);
    Sums(PerReport(c), |c.deps|);
  }

  lemma RankAtStart(c: Config)
    ensures Rank(c, Init(c)) == PerReport(c) * |c.deps| + 8 * |c.deps| + c.maxWorkers + 3
  {
    hide WorkersWeight, PerReport, Longest;
    TaskCount(c);
    IdleWeight(Init(c).workers);
  }

  lemma Sums(p: nat, n: nat)
    ensures p * n + 8 * n == (p + 8) * n
  {
  }
}
