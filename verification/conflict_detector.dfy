/** Which packages a job touches, and when two jobs conflict. */
module ConflictDetection {
  import opened Digraph
  import opened PackageNames
  import opened Wrappers

  datatype JobId = JobId(text: string)

  datatype JobType = Install | Remove | Update | Sync

  datatype JobStatus = Pending | Running | Completed | Failed | Cancelled

  predicate Active(status: JobStatus) {
    status == Pending || status == Running
  }

  /** What a job does; these fields never change. */
  datatype Operation = Operation(jobType: JobType, packageName: string)

  /** The resolver's answer for one package: name to version, and packages to update. */
  datatype Resolution = Resolution(packagesToInstall: map<string, string>, packagesToUpdate: seq<string>)

  /** A fixed resolver; `None` is a failed resolution. */
  type Resolver = string -> Option<Resolution>

  class Job {
    const id: JobId
    const operation: Operation
    var status: JobStatus
    var ctxCancelled: bool

    constructor (id: JobId, operation: Operation)
      ensures this.id == id && this.operation == operation && status == Pending && !ctxCancelled
    {
      this.id := id;
      this.operation := operation;
      status := Pending;
      ctxCancelled := false;
    }

    method Cancel()
      modifies this
      ensures status == Cancelled && ctxCancelled
    {
      ctxCancelled := true;
      status := Cancelled;
    }
  }

  datatype ConflictType = SamePackage | Dependency

  datatype PackageConflict = PackageConflict(kind: ConflictType, job1: Job, job2: Job, conflictingPkg: string)

  // ----- the packages a job affects -----

  function Labels(installs: map<string, string>): set<string> {
    set p | p in installs :: p + "-" + installs[p]
  }

  function Affected(resolver: Resolver, op: Operation): set<string> {
    if (op.jobType.Install? || op.jobType.Update?) && resolver(op.packageName).Some?
    then {op.packageName} + Labels(resolver(op.packageName).value.packagesToInstall)
         + Elems(resolver(op.packageName).value.packagesToUpdate)
    else {op.packageName}
  }

  function AffectedBases(resolver: Resolver, op: Operation): set<string> {
    set a | a in Affected(resolver, op) :: BaseName(a)
  }

  ghost predicate Overlap(resolver: Resolver, a: Operation, b: Operation) {
    AffectedBases(resolver, a) * AffectedBases(resolver, b) != {}
  }

  lemma OverlapIs(resolver: Resolver, a: Operation, b: Operation)
    ensures Overlap(resolver, a, b) <==>
            exists x, y :: x in Affected(resolver, a) && y in Affected(resolver, b) && BaseName(x) == BaseName(y)
  {
    hide Affected, BaseName;
    var bothBases := AffectedBases(resolver, a) * AffectedBases(resolver, b);
    if Overlap(resolver, a, b) {
      var base :| base in bothBases;
    }
    if x, y :| x in Affected(resolver, a) && y in Affected(resolver, b) && BaseName(x) == BaseName(y) {
      assert BaseName(x) in bothBases;
    }
  }

  /** The job's own package, or one that the resolver would install or update with it, has this
      base name. */
  ghost predicate Touches(resolver: Resolver, op: Operation, base: string) {
    || BaseName(op.packageName) == base
    || ((op.jobType == Install || op.jobType == Update) && resolver(op.packageName).Some? &&
        var found := resolver(op.packageName).value;
        || (exists p :: p in found.packagesToInstall && BaseName(p + "-" + found.packagesToInstall[p]) == base)
        || (exists u :: u in found.packagesToUpdate && BaseName(u) == base))
  }

  lemma AffectedAreTouched(resolver: Resolver, op: Operation, base: string)
    ensures base in AffectedBases(resolver, op) <==> Touches(resolver, op, base)
  {
    hide BaseName;
    var affected := Affected(resolver, op);
    if (op.jobType == Install || op.jobType == Update) && resolver(op.packageName).Some? {
      var found := resolver(op.packageName).value;
      forall x ensures x in affected <==>
                       || x == op.packageName || x in found.packagesToUpdate
                       || exists p :: p in found.packagesToInstall && x == p + "-" + found.packagesToInstall[p]
      {
      }
      assert forall p :: p in found.packagesToInstall ==> p + "-" + found.packagesToInstall[p] in affected;
      assert forall u :: u in found.packagesToUpdate ==> u in affected;
    }
    assert op.packageName in affected;
  }

  /** Two jobs overlap exactly if both touch some base name. */
  lemma OverlapMeans(resolver: Resolver, a: Operation, b: Operation)
    ensures Overlap(resolver, a, b) <==> exists base :: Touches(resolver, a, base) && Touches(resolver, b, base)
  {
    hide BaseName, Affected, Touches, AffectedBases;
    var both := AffectedBases(resolver, a) * AffectedBases(resolver, b);
    if Overlap(resolver, a, b) {
      var base :| base in both;
      AffectedAreTouched(resolver, a, base);
      AffectedAreTouched(resolver, b, base);
    }
    if base :| Touches(resolver, a, base) && Touches(resolver, b, base) {
      AffectedAreTouched(resolver, a, base);
      AffectedAreTouched(resolver, b, base);
      assert base in both;
    }
  }

  /** Jobs for which nothing is resolved overlap exactly if their own base names agree. */
  lemma PlainJobsOverlap(resolver: Resolver, a: Operation, b: Operation)
    requires a.jobType == Remove || a.jobType == Sync || resolver(a.packageName) == None
    requires b.jobType == Remove || b.jobType == Sync || resolver(b.packageName) == None
    ensures Overlap(resolver, a, b) <==> BaseName(a.packageName) == BaseName(b.packageName)
  {
    hide BaseName, Overlap;
    OverlapMeans(resolver, a, b);
    if BaseName(a.packageName) == BaseName(b.packageName) {
      assert Touches(resolver, a, BaseName(b.packageName)) && Touches(resolver, b, BaseName(b.packageName));
    }
  }

  lemma OverlapIsSymmetric(resolver: Resolver, a: Operation, b: Operation)
    ensures Overlap(resolver, a, b) == Overlap(resolver, b, a)
    ensures Overlap(resolver, a, a)
  {
    hide BaseName;
    OverlapIs(resolver, a, a);
    assert a.packageName in Affected(resolver, a);
    assert AffectedBases(resolver, a) * AffectedBases(resolver, b) == AffectedBases(resolver, b) * AffectedBases(resolver, a);
  }

  // ----- the detector -----

  class ConflictDetector {
    const resolve: Resolver

    constructor (resolve: Resolver)
      ensures this.resolve == resolve
    {
      this.resolve := resolve;
    }

    /** The package itself, and everything that the resolver would install or update with it.
        The installs come from a map, so in any order. */
    method GetAffectedPackages(op: Operation) returns (affected: seq<string>)
      ensures Elems(affected) == Affected(resolve, op)
      ensures affected != [] && affected[0] == op.packageName
    {
      affected := [op.packageName];
      if op.jobType == Install || op.jobType == Update {
        var result := resolve(op.packageName);
        if result.None? {
          return;
        }
        var installs := result.value.packagesToInstall;
        var left := installs.Keys;
        while left != {}
          invariant left <= installs.Keys
          invariant forall x :: x in affected <==> x == op.packageName || exists p :: p in installs && p !in left && x == p + "-" + installs[p]
          invariant affected != [] && affected[0] == op.packageName
          decreases |left|
        {
          var p :| p in left;
          left := left - {p};
          affected := affected + [p + "-" + installs[p]];
        }
        assert forall x :: x in affected <==> x == op.packageName || x in Labels(installs);
        affected := affected + result.value.packagesToUpdate;
      }
    }

    method IsSamePackage(pkg1: string, pkg2: string) returns (same: bool)
      ensures same == (BaseName(pkg1) == BaseName(pkg2))
    {
      var base1 := ExtractPackageName(pkg1);
      var base2 := ExtractPackageName(pkg2);
      return base1 == base2;
    }

    method CheckJobConflict(newJob: Job, existingJob: Job, newAffected: seq<string>) returns (conflict: Option<PackageConflict>)
      requires Elems(newAffected) == Affected(resolve, newJob.operation)
      ensures conflict.Some? <==> Overlap(resolve, newJob.operation, existingJob.operation)
      ensures conflict.Some? ==>
                && conflict.value.job1 == newJob && conflict.value.job2 == existingJob
                && conflict.value.conflictingPkg in Affected(resolve, newJob.operation)
                && BaseName(conflict.value.conflictingPkg) in AffectedBases(resolve, existingJob.operation)
                && (conflict.value.kind == SamePackage <==>
                      BaseName(newJob.operation.packageName) == BaseName(existingJob.operation.packageName))
    {
      hide BaseName;
      OverlapIs(resolve, newJob.operation, existingJob.operation);
      var same := IsSamePackage(newJob.operation.packageName, existingJob.operation.packageName);
      if same {
        return Some(PackageConflict(SamePackage, newJob, existingJob, newJob.operation.packageName));
      }
      var existingAffected := GetAffectedPackages(existingJob.operation);
      hide Affected;
      for i := 0 to |newAffected|
        invariant forall k, l :: 0 <= k < i && 0 <= l < |existingAffected| ==> BaseName(newAffected[k]) != BaseName(existingAffected[l])
      {
        for j := 0 to |existingAffected|
          invariant forall l :: 0 <= l < j ==> BaseName(newAffected[i]) != BaseName(existingAffected[l])
        {
          same := IsSamePackage(newAffected[i], existingAffected[j]);
          if same {
            assert newAffected[i] in Elems(newAffected) && existingAffected[j] in Elems(existingAffected);
            return Some(PackageConflict(Dependency, newJob, existingJob, newAffected[i]));
          }
        }
      }
      return None;
    }

    method FilterActiveJobs(jobs: seq<Job>) returns (active: seq<Job>)
      ensures forall j :: j in active <==> j in jobs && Active(j.status)
    {
      active := [];
      for i := 0 to |jobs|
        invariant forall j :: j in active <==> j in jobs[..i] && Active(j.status)
      {
        assert jobs[..i + 1] == jobs[..i] + [jobs[i]];
        if jobs[i].status == Running || jobs[i].status == Pending {
          active := active + [jobs[i]];
        }
      }
      assert jobs[..|jobs|] == jobs;
    }

    /** Finds a conflict exactly if an active job and the new one affect a package in common. */
    method DetectConflicts(newJob: Job, existingJobs: seq<Job>) returns (conflict: Option<PackageConflict>)
      ensures conflict.Some? <==>
              exists j :: j in existingJobs && Active(j.status) && Overlap(resolve, newJob.operation, j.operation)
      ensures conflict.Some? <==>
              exists j, base :: j in existingJobs && (j.status == Pending || j.status == Running)
                                && Touches(resolve, newJob.operation, base) && Touches(resolve, j.operation, base)
      ensures conflict.Some? ==>
                && conflict.value.job2 in existingJobs && Active(conflict.value.job2.status)
                && BaseName(conflict.value.conflictingPkg) in
                   AffectedBases(resolve, newJob.operation) * AffectedBases(resolve, conflict.value.job2.operation)
    {
      hide BaseName, Affected, Overlap, Touches;
      forall j: Job ensures Overlap(resolve, newJob.operation, j.operation) <==>
                                   exists base :: Touches(resolve, newJob.operation, base) && Touches(resolve, j.operation, base)
      {
        OverlapMeans(resolve, newJob.operation, j.operation);
      }
      var activeJobs := FilterActiveJobs(existingJobs);
      if |activeJobs| == 0 {
        return None;
      }
      var newAffected := GetAffectedPackages(newJob.operation);
      for i := 0 to |activeJobs|
        invariant forall k :: 0 <= k < i ==> !Overlap(resolve, newJob.operation, activeJobs[k].operation)
      {
        conflict := CheckJobConflict(newJob, activeJobs[i], newAffected);
        if conflict.Some? {
          assert activeJobs[i] in activeJobs;
          return;
        }
      }
      return None;
    }
  }
}
