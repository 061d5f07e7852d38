/** The job queue: submissions are checked against the active jobs, workers take jobs in
    order, and jobs can be cancelled at any time. */
module JobQueues {
  import opened ConflictDetection
  import opened Wrappers

  // ----- the queue on values -----

  datatype Record = Record(operation: Operation, status: JobStatus, ctxCancelled: bool)

  /** `executing` counts the workers inside a job's function. */
  datatype Queue = Queue(jobs: map<JobId, Record>, waiting: seq<JobId>, executing: multiset<JobId>)

  datatype Config = Config(detector: Option<Resolver>, queueSize: nat, maxWorkers: nat)

  datatype Submission = Accepted | Conflict | QueueFull

  /** No active job affects a package that the new one affects. */
  ghost predicate Admits(detector: Option<Resolver>, q: Queue, op: Operation) {
    detector.Some? ==>
      forall id :: id in q.jobs && Active(q.jobs[id].status) ==> !Overlap(detector.value, op, q.jobs[id].operation)
  }

  ghost function Submitted(cfg: Config, q: Queue, id: JobId, job: Record): (Submission, Queue) {
    if !Admits(cfg.detector, q, job.operation) then (Conflict, q)
    else
      var stored := q.(jobs := q.jobs[id := job]);
      if |q.waiting| < cfg.queueSize then (Accepted, stored.(waiting := q.waiting + [id]))
      else (QueueFull, stored)
  }

  /** A worker takes the next job; one that was cancelled meanwhile is not begun. */
  function Started(q: Queue): Queue
    requires q.waiting != [] && q.waiting[0] in q.jobs
  {
    var id := q.waiting[0];
    var rest := q.(waiting := q.waiting[1..]);
    if q.jobs[id].status == Cancelled then rest
    else rest.(jobs := q.jobs[id := q.jobs[id].(status := Running)], executing := q.executing + multiset{id})
  }

  function StatusAfter(job: Record, failed: bool): JobStatus {
    if job.status == Cancelled then Cancelled
    else if failed then if job.ctxCancelled then Cancelled else Failed
    else Completed
  }

  function Finished(q: Queue, id: JobId, failed: bool): Queue
    requires id in q.jobs
  {
    q.(jobs := q.jobs[id := q.jobs[id].(status := StatusAfter(q.jobs[id], failed))], executing := q.executing - multiset{id})
  }

  function Cancelling(q: Queue, id: JobId): Queue
    requires id in q.jobs
  {
    q.(jobs := q.jobs[id := q.jobs[id].(ctxCancelled := true)])
  }

  function MarkedCancelled(q: Queue, id: JobId): Queue
    requires id in q.jobs
  {
    q.(jobs := q.jobs[id := q.jobs[id].(status := Cancelled)])
  }

  // ----- the queue of the daemon -----

  function Ids(jobs: seq<Job>): seq<JobId> {
    seq(|jobs|, i requires 0 <= i < |jobs| => jobs[i].id)
  }

  class JobQueue {
    const config: Config
    const conflictDetector: ConflictDetector?
    var jobs: map<JobId, Job>
    var queue: seq<Job>
    var activeWorkers: int
    ghost var executing: multiset<JobId>

    ghost predicate Valid()
      reads this
    {
      && (conflictDetector == null <==> config.detector.None?)
      && (conflictDetector != null ==> config.detector == Some(conflictDetector.resolve))
      && (forall id :: id in jobs ==> jobs[id].id == id)
      && (forall i :: 0 <= i < |queue| ==> queue[i].id in jobs && jobs[queue[i].id] == queue[i])
      && (forall id :: id in executing ==> id in jobs)
    }

    ghost function View(): Queue
      reads this, jobs.Values
    {
      Queue(Records(jobs), Ids(queue), executing)
    }

    static ghost function Records(jobs: map<JobId, Job>): map<JobId, Record>
      reads jobs.Values
    {
      map id | id in jobs :: RecordOf(jobs[id])
    }

    lemma RecordAt(jobs: map<JobId, Job>, id: JobId)
      requires id in jobs
      ensures id in Records(jobs) && Records(jobs)[id] == RecordOf(jobs[id])
    {
    }

    static ghost function RecordOf(job: Job): Record
      reads job
    {
      Record(job.operation, job.status, job.ctxCancelled)
    }

    constructor (maxWorkers: nat, queueSize: nat, detector: ConflictDetector?)
      ensures Valid() && View() == Queue(map[], [], multiset{})
      ensures config == Config(if detector == null then None else Some(detector.resolve), queueSize, maxWorkers)
    {
      config := Config(if detector == null then None else Some(detector.resolve), queueSize, maxWorkers);
      conflictDetector := detector;
      jobs := map[];
      queue := [];
      activeWorkers := 0;
      executing := multiset{};
    }

    method ListJobs() returns (all: seq<Job>)
      ensures forall j :: j in all <==> j in jobs.Values
    {
      all := [];
      var left := jobs.Keys;
      while left != {}
        invariant left <= jobs.Keys
        invariant forall j :: j in all <==> exists id :: id in jobs && id !in left && jobs[id] == j
        decreases |left|
      {
        var id :| id in left;
        left := left - {id};
        all := all + [jobs[id]];
      }
    }

    method HasConflict(job: Job) returns (found: bool)
      requires Valid()
      ensures found <==> !Admits(config.detector, View(), job.operation)
    {
      hide Overlap;
      if conflictDetector == null {
        return false;
      }
      var allJobs := ListJobs();
      var conflict := conflictDetector.DetectConflicts(job, allJobs);
      ConflictMeans(job);
      return conflict.Some?;
    }

    /** As one step: the check, the registration and the attempt to enqueue. */
    method Submit(job: Job) returns (outcome: Submission)
      requires Valid() && (job.id in jobs ==> jobs[job.id] == job)
      modifies this
      ensures Valid()
      ensures (outcome, View()) == Submitted(config, old(View()), job.id, old(RecordOf(job)))
      ensures outcome == Conflict ==> jobs == old(jobs) && queue == old(queue)
      ensures outcome == QueueFull ==> jobs == old(jobs)[job.id := job] && queue == old(queue) && |queue| >= config.queueSize
      ensures outcome == Accepted ==> jobs == old(jobs)[job.id := job] && queue == old(queue) + [job] && old(|queue|) < config.queueSize
    {
      hide Overlap, Admits, Records, Ids;
      var conflict := HasConflict(job);
      if conflict {
        return Conflict;
      }
      RecordsMore(jobs, job);
      jobs := jobs[job.id := job];
      IdsMore(queue, job);
      if |queue| < config.queueSize {
        queue := queue + [job];
        outcome := Accepted;
      } else {
        outcome := QueueFull;
      }
    }

    static lemma RecordsMore(jobs: map<JobId, Job>, job: Job)
      ensures Records(jobs[job.id := job]) == Records(jobs)[job.id := RecordOf(job)]
    {
    }

    static lemma IdsMore(queue: seq<Job>, job: Job)
      ensures Ids(queue + [job]) == Ids(queue) + [job.id] && |Ids(queue)| == |queue|
    {
    }

    lemma ConflictMeans(job: Job)
      requires Valid() && conflictDetector != null
      ensures !Admits(config.detector, View(), job.operation) <==>
              exists j :: j in jobs.Values && Active(j.status) && Overlap(conflictDetector.resolve, job.operation, j.operation)
    {
      hide Overlap;
      var resolve := conflictDetector.resolve;
      if !Admits(config.detector, View(), job.operation) {
        var id :| id in View().jobs && Active(View().jobs[id].status) && Overlap(resolve, job.operation, View().jobs[id].operation);
        assert jobs[id] in jobs.Values;
      }
      if j :| j in jobs.Values && Active(j.status) && Overlap(resolve, job.operation, j.operation) {
        var id :| id in jobs && jobs[id] == j;
        assert View().jobs[id].operation == j.operation;
      }
    }

    /** Changes one job's status and stores the job again. */
    method UpdateJob(job: Job, status: JobStatus)
      requires Valid() && job.id in jobs && jobs[job.id] == job
      modifies this`jobs, job
      ensures Valid() && jobs == old(jobs) && job.status == status
      ensures Records(jobs) == old(Records(jobs))[job.id := Record(job.operation, status, old(job.ctxCancelled))]
    {
      hide Ids;
      job.status := status;
      assert jobs == jobs[job.id := job];
      jobs := jobs[job.id := job];
    }

    /** A worker receives the next job and, unless it was cancelled, marks it as running. */
    method TakeJob() returns (job: Job, begun: bool)
      requires Valid() && queue != []
      modifies this, queue[0]
      ensures Valid() && job == old(queue[0])
      ensures begun <==> old(job.status) != Cancelled
      ensures job.status == (if begun then Running else Cancelled) && queue == old(queue)[1..]
      ensures View() == Started(old(View()))
      ensures activeWorkers == old(activeWorkers) + 1
    {
      hide Records, Ids;
      ghost var before := View();
      job := queue[0];
      RecordAt(jobs, job.id);
      IdsOfRest(queue);
      queue := queue[1..];
      activeWorkers := activeWorkers + 1;
      begun := job.status != Cancelled;
      if begun {
        executing := executing + multiset{job.id};
        UpdateJob(job, Running);
        assert View().jobs == Started(before).jobs;
      }
    }

    static lemma IdsOfRest(queue: seq<Job>)
      requires queue != []
      ensures Ids(queue) != [] && Ids(queue)[0] == queue[0].id && Ids(queue[1..]) == Ids(queue)[1..]
    {
    }

    /** A worker leaves the job's function. */
    method FinishJob(job: Job, failed: bool)
      requires Valid() && job.id in executing && jobs[job.id] == job
      modifies this, job
      ensures Valid() && View() == Finished(old(View()), job.id, failed)
      ensures old(job.status) == Cancelled ==> job.status == Cancelled
      ensures old(job.status) != Cancelled && !failed ==> job.status == Completed
      ensures old(job.status) != Cancelled && failed ==> job.status == if old(job.ctxCancelled) then Cancelled else Failed
      ensures activeWorkers == old(activeWorkers) - 1
    {
      hide Records, Ids;
      RecordAt(jobs, job.id);
      var status := job.status;
      if status != Cancelled {
        if failed {
          status := if job.ctxCancelled then Cancelled else Failed;
        } else {
          status := Completed;
        }
      }
      assert status == StatusAfter(old(View()).jobs[job.id], failed);
      executing := executing - multiset{job.id};
      activeWorkers := activeWorkers - 1;
      UpdateJob(job, status);
      assert View().jobs == Finished(old(View()), job.id, failed).jobs;
    }

    method CancelJob(id: JobId) returns (found: bool)
      requires Valid()
      modifies this, jobs.Values
      ensures Valid() && found == (id in old(jobs))
      ensures View() == if found then MarkedCancelled(Cancelling(old(View()), id), id) else old(View())
      ensures found ==> id in jobs && jobs[id].status == Cancelled && jobs[id].ctxCancelled
    {
      hide Ids;
      if id !in jobs {
        return false;
      }
      RecordAt(jobs, id);
      jobs[id].Cancel();
      assert jobs == jobs[id := jobs[id]];
      jobs := jobs[id := jobs[id]];
      return true;
    }
  }
}
