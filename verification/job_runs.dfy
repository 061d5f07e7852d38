/** Whole runs of the job queue: active jobs never share a package, unless a job that ended is
    submitted again. */
module JobRuns {
  import opened ConflictDetection
  import opened JobQueues
  import opened Wrappers

  datatype Event =
    | SubmitJob(id: JobId, job: Record)
    | TakeNext
    | FinishJob(id: JobId, failed: bool)
    | CancelContext(id: JobId)      // Cancel, first half
    | MarkCancelled(id: JobId)      // Cancel, second half

  /** A job that is not registered has not begun; one that is registered is passed as it is. */
  ghost predicate CanHappen(cfg: Config, q: Queue, e: Event) {
    match e
    case SubmitJob(id, job) =>
      if id in q.jobs then job == q.jobs[id] else job.status == Pending || job.status == Cancelled
    case TakeNext => q.waiting != [] && q.waiting[0] in q.jobs && |q.executing| < cfg.maxWorkers
    case FinishJob(id, _) => id in q.executing && id in q.jobs
    case CancelContext(id) => id in q.jobs
    case MarkCancelled(id) => id in q.jobs
  }

  ghost function Step(cfg: Config, q: Queue, e: Event): Queue
    requires CanHappen(cfg, q, e)
  {
    match e
    case SubmitJob(id, job) => Submitted(cfg, q, id, job).1
    case TakeNext => Started(q)
    case FinishJob(id, failed) => Finished(q, id, failed)
    case CancelContext(id) => Cancelling(q, id)
    case MarkCancelled(id) => MarkedCancelled(q, id)
  }

  function Empty(): Queue {
    Queue(map[], [], multiset{})
  }

  ghost predicate Run(cfg: Config, first: Queue, run: seq<Event>, last: Queue)
    decreases |run|
  {
    if run == [] then last == first
    else CanHappen(cfg, first, run[0]) && Run(cfg, Step(cfg, first, run[0]), run[1..], last)
  }

  predicate Ended(status: JobStatus) {
    status == Completed || status == Failed
  }

  /** No submission of the run passes a job that completed or failed. */
  ghost predicate Orderly(run: seq<Event>) {
    forall i :: 0 <= i < |run| && run[i].SubmitJob? ==> !Ended(run[i].job.status)
  }

  // ----- what holds at all times -----

  ghost predicate Apart(resolver: Resolver, q: Queue, a: JobId, b: JobId) {
    a in q.jobs && b in q.jobs && a != b && Active(q.jobs[a].status) && Active(q.jobs[b].status)
    ==> !Overlap(resolver, q.jobs[a].operation, q.jobs[b].operation)
  }

  /** Distinct active jobs affect disjoint sets of packages. */
  ghost predicate ActiveApart(resolver: Resolver, q: Queue) {
    forall a, b :: Apart(resolver, q, a, b)
  }

  function Waits(q: Queue, id: JobId): nat {
    multiset(q.waiting)[id]
  }

  /** Where a job is, by its status: pending ones wait at most once, running ones are executed
      by one worker, ended ones are nowhere; cancelled ones may still wait or be executed. */
  ghost predicate Placed(q: Queue, id: JobId) {
    if id !in q.jobs then Waits(q, id) == 0 && q.executing[id] == 0
    else match q.jobs[id].status
      case Pending => Waits(q, id) <= 1 && q.executing[id] == 0
      case Running => Waits(q, id) == 0 && q.executing[id] == 1
      case Completed => Waits(q, id) == 0 && q.executing[id] == 0
      case Failed => Waits(q, id) == 0 && q.executing[id] == 0
      case Cancelled => true
  }

  ghost predicate AllPlaced(q: Queue) {
    forall id :: Placed(q, id)
  }

  lemma WaitsNot(q: Queue, id: JobId)
    ensures Waits(q, id) == 0 <==> id !in q.waiting
  {
  }

  lemma WaitsOneMore(q: Queue, q': Queue, x: JobId, id: JobId)
    requires q'.waiting == q.waiting + [x]
    ensures Waits(q', id) == Waits(q, id) + if x == id then 1 else 0
  {
  }

  lemma WaitsOneLess(q: Queue, q': Queue, id: JobId)
    requires q.waiting != [] && q'.waiting == q.waiting[1..]
    ensures Waits(q, id) == Waits(q', id) + if q.waiting[0] == id then 1 else 0
  {
    assert q.waiting == [q.waiting[0]] + q.waiting[1..];
  }

  lemma AdmitsNone(resolver: Resolver, q: Queue, id: JobId)
    requires id in q.jobs && Active(q.jobs[id].status)
    ensures !Admits(Some(resolver), q, q.jobs[id].operation)
  {
    hide Overlap;
    OverlapIsSymmetric(resolver, q.jobs[id].operation, q.jobs[id].operation);
  }

  lemma SubmitPlaces(cfg: Config, q: Queue, sub: JobId, job: Record, id: JobId)
    requires cfg.detector.Some? && CanHappen(cfg, q, SubmitJob(sub, job)) && Placed(q, id) && !Ended(job.status)
    ensures Placed(Submitted(cfg, q, sub, job).1, id)
  {
    hide Admits, Waits;
    if sub in q.jobs && Active(q.jobs[sub].status) {
      AdmitsNone(cfg.detector.value, q, sub);
    }
    var next := Submitted(cfg, q, sub, job).1;
    if next.waiting != q.waiting {
      WaitsOneMore(q, next, sub, id);
    } else {
      WaitsNot(q, id);
      WaitsNot(next, id);
      assert Waits(next, id) == Waits(q, id) by { WaitsSame(q, next, id); }
    }
  }

  lemma WaitsSame(q: Queue, q': Queue, id: JobId)
    requires q.waiting == q'.waiting
    ensures Waits(q, id) == Waits(q', id)
  {
  }

  lemma TakePlaces(q: Queue, id: JobId)
    requires q.waiting != [] && q.waiting[0] in q.jobs && Placed(q, id)
    ensures Placed(Started(q), id)
  {
    hide Waits;
    WaitsOneLess(q, Started(q), id);
    assert Started(q).executing[id] == q.executing[id] + if q.waiting[0] == id && q.jobs[id].status != Cancelled then 1 else 0;
  }

  lemma FinishPlaces(q: Queue, done: JobId, failed: bool, id: JobId)
    requires done in q.jobs && done in q.executing && Placed(q, id)
    ensures Placed(Finished(q, done, failed), id)
  {
    hide Waits;
    WaitsSame(q, Finished(q, done, failed), id);
  }

  lemma CancelPlaces(q: Queue, c: JobId, id: JobId)
    requires c in q.jobs && Placed(q, id)
    ensures Placed(Cancelling(q, c), id) && Placed(MarkedCancelled(q, c), id)
  {
    hide Waits;
    WaitsSame(q, Cancelling(q, c), id);
    WaitsSame(q, MarkedCancelled(q, c), id);
  }

  lemma StepPlaces(cfg: Config, q: Queue, e: Event, id: JobId)
    requires cfg.detector.Some? && CanHappen(cfg, q, e) && Placed(q, id)
    requires e.SubmitJob? ==> !Ended(e.job.status)
    ensures Placed(Step(cfg, q, e), id)
  {
    hide Admits, Placed, Submitted, Started, Finished, Cancelling, MarkedCancelled;
    match e
    case SubmitJob(sub, job) => SubmitPlaces(cfg, q, sub, job, id);
    case TakeNext => TakePlaces(q, id);
    case FinishJob(done, failed) => FinishPlaces(q, done, failed, id);
    case CancelContext(c) => CancelPlaces(q, c, id);
    case MarkCancelled(c) => CancelPlaces(q, c, id);
  }

  lemma StepStaysInactive(cfg: Config, q: Queue, e: Event, id: JobId)
    requires CanHappen(cfg, q, e) && Placed(q, id) && id in q.jobs && !Active(q.jobs[id].status)
    ensures id in Step(cfg, q, e).jobs && !Active(Step(cfg, q, e).jobs[id].status)
  {
    hide Admits, Waits;
    WaitsNot(q, id);
    BecomesActiveAgain(cfg, q, e, id);
  }

  lemma PlacedAt(q: Queue, id: JobId)
    requires AllPlaced(q)
    ensures Placed(q, id)
  {
  }

  /** A worker takes an ended job from the queue while an active one affects its packages. */
  ghost predicate RevivesIntoConflict(resolver: Resolver, q: Queue, e: Event) {
    && e.TakeNext? && q.waiting != [] && q.waiting[0] in q.jobs && Ended(q.jobs[q.waiting[0]].status)
    && exists b :: b in q.jobs && b != q.waiting[0] && Active(q.jobs[b].status)
                   && Overlap(resolver, q.jobs[q.waiting[0]].operation, q.jobs[b].operation)
  }

  lemma SubmittedApart(cfg: Config, q: Queue, id: JobId, job: Record, a: JobId, b: JobId)
    requires cfg.detector.Some? && ActiveApart(cfg.detector.value, q)
    ensures Apart(cfg.detector.value, Submitted(cfg, q, id, job).1, a, b)
  {
    hide Overlap;
    var resolver := cfg.detector.value;
    assert Apart(resolver, q, a, b);
    if a in q.jobs {
      OverlapIsSymmetric(resolver, job.operation, q.jobs[a].operation);
    }
  }

  lemma TakenApart(resolver: Resolver, q: Queue, a: JobId, b: JobId)
    requires q.waiting != [] && q.waiting[0] in q.jobs
    requires ActiveApart(resolver, q) && !RevivesIntoConflict(resolver, q, TakeNext)
    ensures Apart(resolver, Started(q), a, b)
  {
    hide Overlap;
    assert Apart(resolver, q, a, b);
    if a in q.jobs && b in q.jobs {
      OverlapIsSymmetric(resolver, q.jobs[a].operation, q.jobs[b].operation);
    }
  }

  lemma StepApart(cfg: Config, q: Queue, e: Event, a: JobId, b: JobId)
    requires cfg.detector.Some? && CanHappen(cfg, q, e)
    requires ActiveApart(cfg.detector.value, q) && !RevivesIntoConflict(cfg.detector.value, q, e)
    ensures Apart(cfg.detector.value, Step(cfg, q, e), a, b)
  {
    hide Overlap;
    assert Apart(cfg.detector.value, q, a, b);
    match e
    case SubmitJob(id, job) =>
      SubmittedApart(cfg, q, id, job, a, b);
    case TakeNext =>
      TakenApart(cfg.detector.value, q, a, b);
    case FinishJob(_, _) => hide Submitted, Started, Cancelling, MarkedCancelled;
    case CancelContext(_) => hide Submitted, Started, Finished, MarkedCancelled;
    case MarkCancelled(_) => hide Submitted, Started, Finished, Cancelling;
  }

  lemma StepKeepsApart(cfg: Config, q: Queue, e: Event, a: JobId, b: JobId)
    requires cfg.detector.Some? && CanHappen(cfg, q, e) && AllPlaced(q) && ActiveApart(cfg.detector.value, q)
    requires e.SubmitJob? ==> !Ended(e.job.status)
    ensures Apart(cfg.detector.value, Step(cfg, q, e), a, b)
  {
    hide Overlap, ActiveApart, Apart, Waits;
    if e.TakeNext? {
      PlacedAt(q, q.waiting[0]);
      WaitsNot(q, q.waiting[0]);
    }
    StepApart(cfg, q, e, a, b);
  }

  lemma {:induction false} RunKeeps(cfg: Config, first: Queue, run: seq<Event>, last: Queue)
    requires cfg.detector.Some? && Run(cfg, first, run, last) && Orderly(run)
    requires AllPlaced(first) && ActiveApart(cfg.detector.value, first)
    ensures AllPlaced(last) && ActiveApart(cfg.detector.value, last)
    decreases |run|
  {
    hide Placed, Apart, CanHappen, Step;
    if run != [] {
      var e := run[0];
      var next := Step(cfg, first, e);
      forall id ensures Placed(next, id) {
        StepPlaces(cfg, first, e, id);
      }
      forall a, b ensures Apart(cfg.detector.value, next, a, b) {
        StepKeepsApart(cfg, first, e, a, b);
      }
      assert forall i :: 0 <= i < |run| - 1 ==> run[1..][i] == run[i + 1];
      RunKeeps(cfg, next, run[1..], last);
    }
  }

  lemma EmptyHolds(resolver: Resolver)
    ensures AllPlaced(Empty()) && ActiveApart(resolver, Empty())
  {
  }

  /** In every state that an orderly run reaches, distinct pending or running jobs affect
      disjoint sets of packages, jobs stranded by a full queue included. */
  lemma ActiveJobsStayApart(cfg: Config, run: seq<Event>, q: Queue)
    requires cfg.detector.Some? && Run(cfg, Empty(), run, q) && Orderly(run)
    ensures forall a, b :: a in q.jobs && b in q.jobs && a != b && Active(q.jobs[a].status) && Active(q.jobs[b].status) ==>
              !Overlap(cfg.detector.value, q.jobs[a].operation, q.jobs[b].operation)
  {
    hide Run, Overlap;
    RunKeeps(cfg, Empty(), run, q);
    forall a, b | a in q.jobs && b in q.jobs && a != b && Active(q.jobs[a].status) && Active(q.jobs[b].status)
      ensures !Overlap(cfg.detector.value, q.jobs[a].operation, q.jobs[b].operation)
    {
      assert Apart(cfg.detector.value, q, a, b);
    }
  }

  // ----- exactly when active jobs meet -----

  lemma RevivalMeets(cfg: Config, q: Queue, e: Event)
    requires cfg.detector.Some? && CanHappen(cfg, q, e) && RevivesIntoConflict(cfg.detector.value, q, e)
    ensures !ActiveApart(cfg.detector.value, Step(cfg, q, e))
  {
    hide Overlap;
    var resolver, a := cfg.detector.value, q.waiting[0];
    var b :| b in q.jobs && b != a && Active(q.jobs[b].status) && Overlap(resolver, q.jobs[a].operation, q.jobs[b].operation);
    assert !Apart(resolver, Step(cfg, q, e), a, b);
  }

  /** From any state whose active jobs are apart, reachable or not: they stay apart exactly
      unless the step takes an ended job that overlaps an active one. */
  lemma StepKeepsApartExactly(cfg: Config, q: Queue, e: Event)
    requires cfg.detector.Some? && CanHappen(cfg, q, e) && ActiveApart(cfg.detector.value, q)
    ensures ActiveApart(cfg.detector.value, Step(cfg, q, e)) <==> !RevivesIntoConflict(cfg.detector.value, q, e)
  {
    hide Apart, Step, CanHappen, RevivesIntoConflict;
    if RevivesIntoConflict(cfg.detector.value, q, e) {
      RevivalMeets(cfg, q, e);
    } else {
      forall a, b ensures Apart(cfg.detector.value, Step(cfg, q, e), a, b) {
        StepApart(cfg, q, e, a, b);
      }
    }
  }

  /** In every state that the run passes through, distinct active jobs are apart. */
  ghost predicate AlwaysApart(cfg: Config, first: Queue, run: seq<Event>)
    requires cfg.detector.Some?
    decreases |run|
  {
    && ActiveApart(cfg.detector.value, first)
    && (run != [] && CanHappen(cfg, first, run[0]) ==> AlwaysApart(cfg, Step(cfg, first, run[0]), run[1..]))
  }

  /** Somewhere in the run an ended job is taken that overlaps an active one. */
  ghost predicate SomeRevival(cfg: Config, first: Queue, run: seq<Event>)
    requires cfg.detector.Some?
    decreases |run|
  {
    && run != [] && CanHappen(cfg, first, run[0])
    && (RevivesIntoConflict(cfg.detector.value, first, run[0]) || SomeRevival(cfg, Step(cfg, first, run[0]), run[1..]))
  }

  lemma {:induction false} ApartUnlessRevived(cfg: Config, first: Queue, run: seq<Event>)
    requires cfg.detector.Some? && ActiveApart(cfg.detector.value, first)
    ensures AlwaysApart(cfg, first, run) <==> !SomeRevival(cfg, first, run)
    decreases |run|
  {
    hide ActiveApart, RevivesIntoConflict, Step, CanHappen;
    if run != [] && CanHappen(cfg, first, run[0]) {
      StepKeepsApartExactly(cfg, first, run[0]);
      if !RevivesIntoConflict(cfg.detector.value, first, run[0]) {
        ApartUnlessRevived(cfg, Step(cfg, first, run[0]), run[1..]);
      }
    }
  }

  /** Of any run of the queue whatsoever: its active jobs affect disjoint sets of packages at
      all times if and only if no worker ever takes an ended job that overlaps an active one. */
  lemma ActiveJobsApartExactly(cfg: Config, run: seq<Event>)
    requires cfg.detector.Some?
    ensures AlwaysApart(cfg, Empty(), run) <==> !SomeRevival(cfg, Empty(), run)
  {
    hide AlwaysApart, SomeRevival;
    EmptyHolds(cfg.detector.value);
    ApartUnlessRevived(cfg, Empty(), run);
  }

  /** From there, no step whatsoever makes a job active again that was not. */
  lemma NoneBecomesActiveAgain(cfg: Config, run: seq<Event>, q: Queue, e: Event, id: JobId)
    requires cfg.detector.Some? && Run(cfg, Empty(), run, q) && Orderly(run)
    requires CanHappen(cfg, q, e) && id in q.jobs && !Active(q.jobs[id].status)
    ensures id in Step(cfg, q, e).jobs && !Active(Step(cfg, q, e).jobs[id].status)
  {
    hide CanHappen, Step, Run, Placed;
    EmptyHolds(cfg.detector.value);
    RunKeeps(cfg, Empty(), run, q);
    PlacedAt(q, id);
    StepStaysInactive(cfg, q, e, id);
  }

  /** Two jobs being executed share a package only if one of them was cancelled: its function
      may still be at work when the next job is let in. */
  lemma ExecutedJobsStayApart(cfg: Config, run: seq<Event>, q: Queue, a: JobId, b: JobId)
    requires cfg.detector.Some? && Run(cfg, Empty(), run, q) && Orderly(run)
    requires a in q.executing && b in q.executing && a != b
    ensures a in q.jobs && b in q.jobs
    ensures q.jobs[a].status != Cancelled && q.jobs[b].status != Cancelled ==>
              !Overlap(cfg.detector.value, q.jobs[a].operation, q.jobs[b].operation)
  {
    hide Overlap;
    RunKeeps(cfg, Empty(), run, q);
    assert Placed(q, a) && Placed(q, b);
    assert Apart(cfg.detector.value, q, a, b);
  }

  // ----- exactly when executed jobs meet -----

  ghost predicate ExecutedApart(resolver: Resolver, q: Queue, a: JobId, b: JobId) {
    a in q.executing && b in q.executing && a != b && a in q.jobs && b in q.jobs
    ==> !Overlap(resolver, q.jobs[a].operation, q.jobs[b].operation)
  }

  /** No two functions of distinct jobs are at work on one package. */
  ghost predicate ExecutingApart(resolver: Resolver, q: Queue) {
    forall a, b :: ExecutedApart(resolver, q, a, b)
  }

  /** A worker begins a job while the function of a cancelled one is at work on its packages. */
  ghost predicate MeetsCancelled(resolver: Resolver, q: Queue, e: Event) {
    && e.TakeNext? && q.waiting != [] && q.waiting[0] in q.jobs && q.jobs[q.waiting[0]].status != Cancelled
    && exists b :: b in q.executing && b in q.jobs && b != q.waiting[0] && q.jobs[b].status == Cancelled
                   && Overlap(resolver, q.jobs[q.waiting[0]].operation, q.jobs[b].operation)
  }

  /** What reached states have in common. */
  ghost predicate InOrder(cfg: Config, q: Queue)
    requires cfg.detector.Some?
  {
    AllPlaced(q) && ActiveApart(cfg.detector.value, q)
  }

  /** What is executed besides the next job is running, and so apart from it, or cancelled. */
  lemma NextAndExecuted(cfg: Config, q: Queue, b: JobId)
    requires cfg.detector.Some? && InOrder(cfg, q) && q.waiting != [] && q.waiting[0] in q.jobs
    requires q.jobs[q.waiting[0]].status != Cancelled && b in q.executing && b != q.waiting[0]
    ensures b in q.jobs && (q.jobs[b].status != Cancelled ==>
                              !Overlap(cfg.detector.value, q.jobs[q.waiting[0]].operation, q.jobs[b].operation))
  {
    hide Overlap;
    PlacedAt(q, b);
    PlacedAt(q, q.waiting[0]);
    WaitsNot(q, q.waiting[0]);
    assert Apart(cfg.detector.value, q, q.waiting[0], b);
  }

  lemma StartedExecutedApart(cfg: Config, q: Queue, a: JobId, b: JobId)
    requires cfg.detector.Some? && CanHappen(cfg, q, TakeNext) && InOrder(cfg, q)
    requires ExecutingApart(cfg.detector.value, q) && !MeetsCancelled(cfg.detector.value, q, TakeNext)
    ensures ExecutedApart(cfg.detector.value, Started(q), a, b)
  {
    hide Overlap, Admits, InOrder;
    var resolver := cfg.detector.value;
    assert ExecutedApart(resolver, q, a, b);
    if q.jobs[q.waiting[0]].status != Cancelled {
      if b in q.executing && b != q.waiting[0] { NextAndExecuted(cfg, q, b); }
      if a in q.executing && a != q.waiting[0] {
        NextAndExecuted(cfg, q, a);
        OverlapIsSymmetric(resolver, q.jobs[q.waiting[0]].operation, q.jobs[a].operation);
      }
    }
  }

  lemma StepExecutedApart(cfg: Config, q: Queue, e: Event, a: JobId, b: JobId)
    requires cfg.detector.Some? && CanHappen(cfg, q, e) && InOrder(cfg, q) && (e.SubmitJob? ==> !Ended(e.job.status))
    requires ExecutingApart(cfg.detector.value, q) && !MeetsCancelled(cfg.detector.value, q, e)
    ensures ExecutedApart(cfg.detector.value, Step(cfg, q, e), a, b)
  {
    hide Overlap, Admits, InOrder, MeetsCancelled;
    assert ExecutedApart(cfg.detector.value, q, a, b);
    match e
    case SubmitJob(_, _) =>
      hide Started, Finished, Cancelling, MarkedCancelled;
      ExecutedIsKnown(cfg, q, a);
      ExecutedIsKnown(cfg, q, b);
    case TakeNext =>
      hide Submitted, Started, Finished, Cancelling, MarkedCancelled;
      StartedExecutedApart(cfg, q, a, b);
    case FinishJob(_, _) => hide Submitted, Started, Cancelling, MarkedCancelled;
    case CancelContext(_) => hide Submitted, Started, Finished, MarkedCancelled;
    case MarkCancelled(_) => hide Submitted, Started, Finished, Cancelling;
  }

  lemma ExecutedIsKnown(cfg: Config, q: Queue, a: JobId)
    requires cfg.detector.Some? && InOrder(cfg, q)
    ensures a in q.executing ==> a in q.jobs
  {
    hide ActiveApart;
    PlacedAt(q, a);
  }

  lemma BeginningMeets(cfg: Config, q: Queue, e: Event)
    requires cfg.detector.Some? && CanHappen(cfg, q, e) && MeetsCancelled(cfg.detector.value, q, e)
    ensures !ExecutingApart(cfg.detector.value, Step(cfg, q, e))
  {
    hide Overlap;
    var resolver, a := cfg.detector.value, q.waiting[0];
    var b :| b in q.executing && b in q.jobs && b != a && q.jobs[b].status == Cancelled
             && Overlap(resolver, q.jobs[a].operation, q.jobs[b].operation);
    assert !ExecutedApart(resolver, Step(cfg, q, e), a, b);
  }

  lemma StepExecutesApartExactly(cfg: Config, q: Queue, e: Event)
    requires cfg.detector.Some? && CanHappen(cfg, q, e) && InOrder(cfg, q) && (e.SubmitJob? ==> !Ended(e.job.status))
    requires ExecutingApart(cfg.detector.value, q)
    ensures ExecutingApart(cfg.detector.value, Step(cfg, q, e)) <==> !MeetsCancelled(cfg.detector.value, q, e)
  {
    hide ExecutedApart, Step, CanHappen, MeetsCancelled, InOrder;
    if MeetsCancelled(cfg.detector.value, q, e) {
      BeginningMeets(cfg, q, e);
    } else {
      forall a, b ensures ExecutedApart(cfg.detector.value, Step(cfg, q, e), a, b) {
        StepExecutedApart(cfg, q, e, a, b);
      }
    }
  }

  ghost predicate AlwaysExecutingApart(cfg: Config, first: Queue, run: seq<Event>)
    requires cfg.detector.Some?
    decreases |run|
  {
    && ExecutingApart(cfg.detector.value, first)
    && (run != [] && CanHappen(cfg, first, run[0]) ==> AlwaysExecutingApart(cfg, Step(cfg, first, run[0]), run[1..]))
  }

  ghost predicate SomeMeeting(cfg: Config, first: Queue, run: seq<Event>)
    requires cfg.detector.Some?
    decreases |run|
  {
    && run != [] && CanHappen(cfg, first, run[0])
    && (MeetsCancelled(cfg.detector.value, first, run[0]) || SomeMeeting(cfg, Step(cfg, first, run[0]), run[1..]))
  }

  lemma StepInOrder(cfg: Config, q: Queue, e: Event)
    requires cfg.detector.Some? && CanHappen(cfg, q, e) && InOrder(cfg, q) && (e.SubmitJob? ==> !Ended(e.job.status))
    ensures InOrder(cfg, Step(cfg, q, e))
  {
    hide Placed, Apart, CanHappen, Step;
    forall id ensures Placed(Step(cfg, q, e), id) {
      StepPlaces(cfg, q, e, id);
    }
    forall a, b ensures Apart(cfg.detector.value, Step(cfg, q, e), a, b) {
      StepKeepsApart(cfg, q, e, a, b);
    }
  }

  lemma {:induction false} ExecutingApartUnlessMet(cfg: Config, first: Queue, run: seq<Event>)
    requires cfg.detector.Some? && InOrder(cfg, first) && Orderly(run) && ExecutingApart(cfg.detector.value, first)
    ensures AlwaysExecutingApart(cfg, first, run) <==> !SomeMeeting(cfg, first, run)
    decreases |run|
  {
    hide InOrder, ExecutingApart, MeetsCancelled, Step, CanHappen;
    if run != [] && CanHappen(cfg, first, run[0]) {
      StepExecutesApartExactly(cfg, first, run[0]);
      if !MeetsCancelled(cfg.detector.value, first, run[0]) {
        StepInOrder(cfg, first, run[0]);
        assert forall i :: 0 <= i < |run| - 1 ==> run[1..][i] == run[i + 1];
        ExecutingApartUnlessMet(cfg, Step(cfg, first, run[0]), run[1..]);
      }
    }
  }

  /** Of any run that submits no ended job again: no two functions are ever at work on one
      package if and only if no worker begins a job that shares one with a cancelled job whose
      function is still being executed. */
  lemma ExecutedJobsApartExactly(cfg: Config, run: seq<Event>)
    requires cfg.detector.Some? && Orderly(run)
    ensures AlwaysExecutingApart(cfg, Empty(), run) <==> !SomeMeeting(cfg, Empty(), run)
  {
    hide AlwaysExecutingApart, SomeMeeting, AllPlaced, ActiveApart;
    EmptyHolds(cfg.detector.value);
    ExecutingApartUnlessMet(cfg, Empty(), run);
  }

  // ----- what an ended or a stranded job can do -----

  lemma SubmittedKeepsRecord(cfg: Config, q: Queue, sub: JobId, job: Record, id: JobId)
    requires id in q.jobs && (sub in q.jobs ==> job == q.jobs[sub])
    ensures var jobs := Submitted(cfg, q, sub, job).1.jobs; id in jobs && jobs[id] == q.jobs[id]
  {
    hide Admits;
  }

  /** In any state whatsoever, a job becomes active again exactly when a worker takes it from
      the queue after it completed or failed. */
  lemma BecomesActiveAgain(cfg: Config, q: Queue, e: Event, id: JobId)
    requires CanHappen(cfg, q, e) && id in q.jobs && !Active(q.jobs[id].status)
    ensures id in Step(cfg, q, e).jobs && Active(Step(cfg, q, e).jobs[id].status)
            <==> e.TakeNext? && q.waiting[0] == id && Ended(q.jobs[id].status)
  {
    hide Admits;
    match e
    case SubmitJob(sub, job) =>
      SubmittedKeepsRecord(cfg, q, sub, job, id);
      hide Submitted, Started, Finished, Cancelling, MarkedCancelled;
    case TakeNext => hide Submitted, Finished, Cancelling, MarkedCancelled;
    case FinishJob(_, _) => hide Submitted, Started, Cancelling, MarkedCancelled;
    case CancelContext(_) => hide Submitted, Started, Finished, MarkedCancelled;
    case MarkCancelled(_) => hide Submitted, Started, Finished, Cancelling;
  }

  /** Whatever waits or is executed is registered. */
  ghost predicate Known(q: Queue) {
    (forall id :: id in q.waiting ==> id in q.jobs) && (forall id :: id in q.executing ==> id in q.jobs)
  }

  lemma SubmittedKnows(cfg: Config, q: Queue, id: JobId, job: Record)
    requires Known(q)
    ensures Known(Submitted(cfg, q, id, job).1)
  {
    hide Admits;
  }

  lemma StartedKnows(q: Queue)
    requires Known(q) && q.waiting != [] && q.waiting[0] in q.jobs
    ensures Known(Started(q))
  {
  }

  lemma StepKnows(cfg: Config, q: Queue, e: Event)
    requires CanHappen(cfg, q, e) && Known(q)
    ensures Known(Step(cfg, q, e))
  {
    hide Admits, Submitted, Started;
    match e
    case SubmitJob(id, job) =>
      SubmittedKnows(cfg, q, id, job);
    case TakeNext =>
      StartedKnows(q);
    case FinishJob(_, _) => hide Cancelling, MarkedCancelled;
    case CancelContext(_) => hide Finished, MarkedCancelled;
    case MarkCancelled(_) => hide Finished, Cancelling;
  }

  lemma {:induction false} RunKnows(cfg: Config, first: Queue, run: seq<Event>, last: Queue)
    requires Run(cfg, first, run, last) && Known(first)
    ensures Known(last)
    decreases |run|
  {
    hide Known, CanHappen, Step;
    if run != [] {
      StepKnows(cfg, first, run[0]);
      RunKnows(cfg, Step(cfg, first, run[0]), run[1..], last);
    }
  }

  lemma StepFits(cfg: Config, q: Queue, e: Event)
    requires CanHappen(cfg, q, e) && |q.executing| <= cfg.maxWorkers && |q.waiting| <= cfg.queueSize
    ensures |Step(cfg, q, e).executing| <= cfg.maxWorkers && |Step(cfg, q, e).waiting| <= cfg.queueSize
  {
    hide Admits;
    match e
    case SubmitJob(_, _) => hide Started, Finished, Cancelling, MarkedCancelled;
    case TakeNext => hide Submitted, Finished, Cancelling, MarkedCancelled;
    case FinishJob(_, _) => hide Submitted, Started, Cancelling, MarkedCancelled;
    case CancelContext(_) => hide Submitted, Started, Finished, MarkedCancelled;
    case MarkCancelled(_) => hide Submitted, Started, Finished, Cancelling;
  }

  /** At no time are there more jobs in the queue than it has places, or more being executed than
      there are workers. */
  lemma {:induction false} NeverTooMany(cfg: Config, first: Queue, run: seq<Event>, last: Queue)
    requires Run(cfg, first, run, last) && |first.executing| <= cfg.maxWorkers && |first.waiting| <= cfg.queueSize
    ensures |last.executing| <= cfg.maxWorkers && |last.waiting| <= cfg.queueSize
    decreases |run|
  {
    hide CanHappen, Step;
    if run != [] {
      StepFits(cfg, first, run[0]);
      NeverTooMany(cfg, Step(cfg, first, run[0]), run[1..], last);
    }
  }

  lemma RunFirst(cfg: Config, q: Queue, e: Event, run: seq<Event>, last: Queue)
    requires CanHappen(cfg, q, e) && Run(cfg, Step(cfg, q, e), run, last)
    ensures Run(cfg, q, [e] + run, last)
  {
    assert ([e] + run)[1..] == run;
  }

  /** `id` has ended and waits as number `k` in line, while `other` is pending on its packages. */
  ghost predicate Brewing(resolver: Resolver, q: Queue, id: JobId, other: JobId, k: nat) {
    && Known(q) && id != other && id in q.jobs && other in q.jobs
    && Ended(q.jobs[id].status) && q.jobs[other].status == Pending
    && Overlap(resolver, q.jobs[id].operation, q.jobs[other].operation)
    && other !in q.executing && k < |q.waiting| && q.waiting[k] == id && id !in q.waiting[..k] && other !in q.waiting[..k]
  }

  lemma FinishBrews(cfg: Config, q: Queue, id: JobId, other: JobId, k: nat, x: JobId)
    requires cfg.detector.Some? && Brewing(cfg.detector.value, q, id, other, k) && x in q.executing
    ensures CanHappen(cfg, q, FinishJob(x, false)) && Brewing(cfg.detector.value, Finished(q, x, false), id, other, k)
    ensures |Finished(q, x, false).executing| == |q.executing| - 1
  {
    hide Overlap;
    if x == id {
      assert StatusAfter(q.jobs[id], false) == Completed;
    }
  }

  lemma TakeBrews(cfg: Config, q: Queue, id: JobId, other: JobId, k: nat)
    requires cfg.detector.Some? && Brewing(cfg.detector.value, q, id, other, k) && k > 0 && |q.executing| < cfg.maxWorkers
    ensures CanHappen(cfg, q, TakeNext) && Brewing(cfg.detector.value, Started(q), id, other, k - 1)
  {
    hide Overlap;
    assert q.waiting[0] in q.waiting[..k];
    assert q.waiting[1..][..k - 1] == q.waiting[..k][1..];
    assert q.waiting[..k] == [q.waiting[0]] + q.waiting[..k][1..];
    assert forall x :: x in q.waiting[1..] ==> x in q.waiting;
  }

  /** The workers get to `id` in the end, and begin it beside `other`. */
  lemma {:induction false} Boils(cfg: Config, q: Queue, id: JobId, other: JobId, k: nat) returns (run: seq<Event>, last: Queue)
    requires cfg.detector.Some? && cfg.maxWorkers > 0 && Brewing(cfg.detector.value, q, id, other, k)
    ensures Run(cfg, q, run, last) && !ActiveApart(cfg.detector.value, last)
    decreases k, |q.executing|
  {
    if |q.executing| >= cfg.maxWorkers {
      var x :| x in q.executing;
      FinishBrews(cfg, q, id, other, k, x);
      run, last := Boils(cfg, Finished(q, x, false), id, other, k);
      hide Brewing, Run, ActiveApart;
      RunFirst(cfg, q, FinishJob(x, false), run, last);
      run := [FinishJob(x, false)] + run;
    } else if k > 0 {
      TakeBrews(cfg, q, id, other, k);
      run, last := Boils(cfg, Started(q), id, other, k - 1);
      hide Brewing, Run, ActiveApart;
      RunFirst(cfg, q, TakeNext, run, last);
      run := [TakeNext] + run;
    } else {
      last := Started(q);
      assert RevivesIntoConflict(cfg.detector.value, q, TakeNext) by { hide Overlap; }
      RevivalMeets(cfg, q, TakeNext);
      hide Brewing, ActiveApart, RevivesIntoConflict;
      RunFirst(cfg, q, TakeNext, [], last);
      run := [TakeNext];
      assert [TakeNext] + [] == [TakeNext];
    }
  }

  lemma {:induction false} LongerThanAll(ids: set<JobId>) returns (n: nat)
    ensures forall id :: id in ids ==> |id.text| < n
  {
    if ids == {} {
      n := 0;
    } else {
      var id :| id in ids;
      n := LongerThanAll(ids - {id});
      n := if n > |id.text| then n else |id.text| + 1;
    }
  }

  lemma UnusedId(ids: set<JobId>) returns (id: JobId)
    ensures id !in ids
  {
    var n := LongerThanAll(ids);
    id := JobId(seq(n, _ => 'x'));
  }

  lemma {:induction false} FirstPlace(s: seq<JobId>, x: JobId) returns (k: nat)
    requires x in s
    ensures k < |s| && s[k] == x && x !in s[..k]
  {
    if s[0] == x {
      k := 0;
    } else {
      k := FirstPlace(s[1..], x);
      k := k + 1;
      assert s[..k] == [s[0]] + s[1..][..k - 1];
    }
  }

  lemma SubmitBrews(cfg: Config, q: Queue, id: JobId, other: JobId) returns (k: nat)
    requires cfg.detector.Some? && Known(q) && id in q.jobs && id in q.waiting && Ended(q.jobs[id].status) && other !in q.jobs
    requires Admits(cfg.detector, q, q.jobs[id].operation)
    ensures var job := Record(q.jobs[id].operation, Pending, false);
            Brewing(cfg.detector.value, Submitted(cfg, q, other, job).1, id, other, k)
  {
    OverlapIsSymmetric(cfg.detector.value, q.jobs[id].operation, q.jobs[id].operation);
    hide Admits, Overlap;
    k := FirstPlace(q.waiting, id);
    var job := Record(q.jobs[id].operation, Pending, false);
    var next := Submitted(cfg, q, other, job).1;
    assert next.waiting[..k] == q.waiting[..k];
    assert forall x :: x in q.waiting[..k] ==> x in q.waiting;
  }

  /** In whatever state a run of the queue has reached: once an ended job is accepted again,
      the run can go on to a state in which two active jobs share a package. */
  lemma AcceptedAgainMeets(cfg: Config, before: seq<Event>, q: Queue, id: JobId) returns (run: seq<Event>, last: Queue)
    requires cfg.detector.Some? && cfg.maxWorkers > 0 && Run(cfg, Empty(), before, q)
    requires id in q.jobs && Ended(q.jobs[id].status) && Submitted(cfg, q, id, q.jobs[id]).0 == Accepted
    ensures Run(cfg, Submitted(cfg, q, id, q.jobs[id]).1, run, last) && !ActiveApart(cfg.detector.value, last)
  {
    hide Run, ActiveApart, Admits;
    var again := SubmitJob(id, q.jobs[id]);
    RunKnows(cfg, Empty(), before, q);
    StepKnows(cfg, q, again);
    var next := Step(cfg, q, again);
    assert Admits(cfg.detector, next, next.jobs[id].operation) by { SameJobsAdmit(cfg.detector, q, next, next.jobs[id].operation); }
    var other := UnusedId(next.jobs.Keys);
    var job := Record(next.jobs[id].operation, Pending, false);
    var k := SubmitBrews(cfg, next, id, other);
    run, last := Boils(cfg, Submitted(cfg, next, other, job).1, id, other, k);
    hide Brewing;
    RunFirst(cfg, next, SubmitJob(other, job), run, last);
    run := [SubmitJob(other, job)] + run;
  }

  lemma SameJobsAdmit(detector: Option<Resolver>, q: Queue, q': Queue, op: Operation)
    requires Admits(detector, q, op) && q'.jobs == q.jobs
    ensures Admits(detector, q', op)
  {
    hide Overlap;
  }

  ghost predicate Stranded(q: Queue, id: JobId) {
    id in q.jobs && q.jobs[id].status == Pending && id !in q.waiting && q.executing[id] == 0
  }

  /** A new job refused because the queue is full stays registered as pending. */
  lemma FullQueueStrands(cfg: Config, run: seq<Event>, q: Queue, id: JobId, job: Record)
    requires cfg.detector.Some? && Run(cfg, Empty(), run, q) && Orderly(run)
    requires id !in q.jobs && job.status == Pending && Submitted(cfg, q, id, job).0 == QueueFull
    ensures Stranded(Submitted(cfg, q, id, job).1, id)
  {
    hide Admits, ActiveApart;
    EmptyHolds(cfg.detector.value);
    RunKeeps(cfg, Empty(), run, q);
    PlacedAt(q, id);
  }

  /** No worker ever begins it, and until someone marks it as cancelled every job that shares
      a package with it is refused. */
  lemma {:induction false} StrandedBlocks(cfg: Config, q: Queue, run: seq<Event>, last: Queue, id: JobId, op: Operation)
    requires cfg.detector.Some? && Stranded(q, id) && Run(cfg, q, run, last)
    requires forall i :: 0 <= i < |run| ==> run[i] != MarkCancelled(id)
    requires Overlap(cfg.detector.value, op, q.jobs[id].operation)
    ensures Stranded(last, id) && last.jobs[id].operation == q.jobs[id].operation
    ensures !Admits(cfg.detector, last, op)
    decreases |run|
  {
    hide Overlap, Admits;
    if run != [] {
      StrandedStays(cfg, q, run[0], id);
      assert forall i :: 0 <= i < |run| - 1 ==> run[1..][i] == run[i + 1];
      StrandedBlocks(cfg, Step(cfg, q, run[0]), run[1..], last, id, op);
    } else {
      assert !Admits(cfg.detector, q, op) by { BlockedBy(cfg.detector.value, q, id, op); }
    }
  }

  lemma BlockedBy(resolver: Resolver, q: Queue, id: JobId, op: Operation)
    requires id in q.jobs && Active(q.jobs[id].status) && Overlap(resolver, op, q.jobs[id].operation)
    ensures !Admits(Some(resolver), q, op)
  {
    hide Overlap;
  }

  lemma StrandedStays(cfg: Config, q: Queue, e: Event, id: JobId)
    requires cfg.detector.Some? && Stranded(q, id) && CanHappen(cfg, q, e) && e != MarkCancelled(id)
    ensures Stranded(Step(cfg, q, e), id) && Step(cfg, q, e).jobs[id].operation == q.jobs[id].operation
  {
    hide Admits;
    match e
    case SubmitJob(sub, job) =>
      if sub == id {
        AdmitsNone(cfg.detector.value, q, id);
      }
      SubmittedKeepsRecord(cfg, q, sub, job, id);
      hide Started, Finished, Cancelling, MarkedCancelled;
    case TakeNext => hide Submitted, Finished, Cancelling, MarkedCancelled;
    case FinishJob(_, _) => hide Submitted, Started, Cancelling, MarkedCancelled;
    case CancelContext(_) => hide Submitted, Started, Finished, MarkedCancelled;
    case MarkCancelled(_) => hide Submitted, Started, Finished, Cancelling;
  }

  // ----- the two ways in which packages do meet -----

  const FIRST := JobId("1")
  const SECOND := JobId("2")
  const REMOVAL := Operation(Remove, "app/x")
  const TWO_WORKERS := Config(Some(_ => None), 2, 2)

  const UNBEGUN := Record(REMOVAL, Pending, false)
  const BEGUN := Record(REMOVAL, Running, false)

  lemma RemovalsOverlap()
    ensures Overlap(TWO_WORKERS.detector.value, REMOVAL, REMOVAL)
  {
    OverlapIsSymmetric(TWO_WORKERS.detector.value, REMOVAL, REMOVAL);
  }

  ghost predicate Leads(q: Queue, e: Event, next: Queue) {
    CanHappen(TWO_WORKERS, q, e) && Step(TWO_WORKERS, q, e) == next
  }

  lemma RunOne(q: Queue, e: Event, next: Queue, run: seq<Event>, last: Queue)
    requires Leads(q, e, next) && Run(TWO_WORKERS, next, run, last)
    ensures Run(TWO_WORKERS, q, [e] + run, last)
  {
    assert ([e] + run)[1..] == run;
  }

  lemma RunNothing(q: Queue)
    ensures Run(TWO_WORKERS, q, [], q)
  {
  }

  const QUEUED := Queue(map[FIRST := UNBEGUN], [FIRST], multiset{})
  const EXECUTED := Queue(map[FIRST := BEGUN], [], multiset{FIRST})

  lemma FirstSteps()
    ensures Leads(Empty(), SubmitJob(FIRST, UNBEGUN), QUEUED) && Leads(QUEUED, TakeNext, EXECUTED)
  {
    NobodyActive(Empty());
    hide Admits;
  }

  /** Four more events after the first job was submitted and begun. */
  lemma SixEvents(q3: Queue, q4: Queue, q5: Queue, q6: Queue, e3: Event, e4: Event, e5: Event, e6: Event) returns (run: seq<Event>)
    requires Leads(EXECUTED, e3, q3)
    requires Leads(q3, e4, q4) && Leads(q4, e5, q5) && Leads(q5, e6, q6)
    ensures Run(TWO_WORKERS, Empty(), run, q6)
    ensures run == [SubmitJob(FIRST, UNBEGUN), TakeNext, e3, e4, e5, e6]
  {
    hide Leads, Run;
    FirstSteps();
    RunNothing(q6);
    RunOne(q5, e6, q6, [], q6);
    RunOne(q4, e5, q5, [e6] + [], q6);
    RunOne(q3, e4, q4, [e5] + ([e6] + []), q6);
    RunOne(EXECUTED, e3, q3, [e4] + ([e5] + ([e6] + [])), q6);
    run := [e3] + ([e4] + ([e5] + ([e6] + [])));
    RunOne(QUEUED, TakeNext, EXECUTED, run, q6);
    RunOne(Empty(), SubmitJob(FIRST, UNBEGUN), QUEUED, [TakeNext] + run, q6);
    run := [SubmitJob(FIRST, UNBEGUN)] + ([TakeNext] + run);
  }

  lemma NobodyActive(q: Queue)
    requires forall id :: id in q.jobs ==> !Active(q.jobs[id].status)
    ensures Admits(TWO_WORKERS.detector, q, REMOVAL)
  {
  }

  lemma SecondIsAdmitted(q: Queue)
    requires q.jobs.Keys == {FIRST} && !Active(q.jobs[FIRST].status) && |q.waiting| < 2
    ensures Leads(q, SubmitJob(SECOND, UNBEGUN), Queue(q.jobs[SECOND := UNBEGUN], q.waiting + [SECOND], q.executing))
  {
    NobodyActive(q);
    hide Admits;
    assert FIRST.text[0] != SECOND.text[0];
  }

  lemma StartsAgain(q: Queue)
    requires FIRST in q.jobs && q.jobs[FIRST] == Record(REMOVAL, Completed, false)
    requires q.waiting == [FIRST] + [SECOND] && |q.executing| < TWO_WORKERS.maxWorkers
    ensures Leads(q, TakeNext, Queue(q.jobs[FIRST := BEGUN], [SECOND], q.executing + multiset{FIRST}))
  {
    hide Submitted, Finished, Cancelling, MarkedCancelled;
    assert q.waiting[1..] == [SECOND];
  }

  lemma FirstMeetsSecond(q: Queue)
    requires FIRST in q.jobs && SECOND in q.jobs && q.jobs[FIRST].operation == q.jobs[SECOND].operation == REMOVAL
    requires Active(q.jobs[FIRST].status) && Active(q.jobs[SECOND].status)
    ensures !ActiveApart(TWO_WORKERS.detector.value, q)
  {
    RemovalsOverlap();
    hide Overlap;
    assert FIRST.text[0] != SECOND.text[0];
    assert !Apart(TWO_WORKERS.detector.value, q, FIRST, SECOND);
  }

  /** A completed job submitted again is not seen as active while it waits, so another job on
      the same package is let in, and then both are active. */
  lemma ResubmissionBreaksIt()
    ensures exists run, q :: Run(TWO_WORKERS, Empty(), run, q) && !ActiveApart(TWO_WORKERS.detector.value, q)
  {
    hide Overlap, Run, Admits;
    var done := Record(REMOVAL, Completed, false);
    var q3 := Queue(map[FIRST := done], [], multiset{});
    var q4 := q3.(waiting := [FIRST]);
    var q5 := Queue(q3.jobs[SECOND := UNBEGUN], [FIRST] + [SECOND], multiset{});
    var q6 := Queue(q5.jobs[FIRST := BEGUN], [SECOND], multiset{FIRST});
    assert Leads(EXECUTED, FinishJob(FIRST, false), q3) by { hide Submitted, Started, Cancelling, MarkedCancelled; }
    assert Leads(q3, SubmitJob(FIRST, done), q4) by {
      NobodyActive(q3);
      hide Finished, Started, Cancelling, MarkedCancelled;
    }
    SecondIsAdmitted(q4);
    StartsAgain(q5);
    FirstMeetsSecond(q6);
    hide Leads;
    var run := SixEvents(q3, q4, q5, q6, FinishJob(FIRST, false), SubmitJob(FIRST, done), SubmitJob(SECOND, UNBEGUN), TakeNext);
  }

  ghost predicate ExecutedTogether(q: Queue) {
    exists a, b :: a in q.executing && b in q.executing && a != b && a in q.jobs && b in q.jobs
                   && Overlap(TWO_WORKERS.detector.value, q.jobs[a].operation, q.jobs[b].operation)
  }

  /** Cancelling a running job frees its packages at once, while its function is still being
      executed: two functions can then work on one package. */
  lemma CancelledJobStillExecutes()
    ensures exists run, q :: Run(TWO_WORKERS, Empty(), run, q) && Orderly(run) && ExecutedTogether(q)
  {
    hide Overlap, Run, Admits;
    var q3 := Cancelling(EXECUTED, FIRST);
    var q4 := Queue(map[FIRST := Record(REMOVAL, Cancelled, true)], [], multiset{FIRST});
    var q5 := Queue(q4.jobs[SECOND := UNBEGUN], [] + [SECOND], multiset{FIRST});
    var q6 := Queue(q4.jobs[SECOND := BEGUN], [], multiset{FIRST, SECOND});
    assert Leads(EXECUTED, CancelContext(FIRST), q3);
    assert Leads(q3, MarkCancelled(FIRST), q4);
    SecondIsAdmitted(q4);
    assert Leads(q5, TakeNext, q6);
    assert ExecutedTogether(q6) by {
      RemovalsOverlap();
      assert FIRST.text[0] != SECOND.text[0];
      assert FIRST in q6.executing && SECOND in q6.executing;
    }
    hide Leads, ExecutedTogether;
    var run := SixEvents(q3, q4, q5, q6, CancelContext(FIRST), MarkCancelled(FIRST), SubmitJob(SECOND, UNBEGUN), TakeNext);
    assert Orderly(run);
  }
}
