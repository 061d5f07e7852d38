/** The task graph of the parallel build scheduler: tasks, the edges recorded on both of
    their ends, and the check for cycles made before any build starts. */
module TaskGraph {
  import opened Wrappers
  import opened Digraph
  import opened Kahn

  /** The identifier of a task: its package's name and version joined by a hyphen. */
  datatype TaskId = TaskId(text: string)

  datatype GraphError = SchedulerRunning | DuplicateTask(id: TaskId) | UnknownDependent(id: TaskId)
                      | UnknownDependency(id: TaskId) | CycleDetected

  class BuildTask {
    const id: TaskId
    var dependencies: seq<TaskId>
    var dependents: seq<TaskId>

    constructor (name: string, version: string)
      ensures id == TaskId(name + "-" + version)
      ensures Fresh()
    {
      id := TaskId(name + "-" + version);
      dependencies := [];
      dependents := [];
    }

    ghost predicate Fresh()
      reads this
    {
      dependencies == [] && dependents == []
    }
  }

  lemma MirrorAddNode(preds: Multi<TaskId>, succs: map<TaskId, seq<TaskId>>, id: TaskId)
    requires Mirror(preds, succs) && id !in preds
    ensures Mirror(preds[id := multiset{}], succs[id := []])
  {
    var preds', succs' := preds[id := multiset{}], succs[id := []];
    forall v, d | v in preds' && d in succs'
      ensures preds'[v][d] == multiset(succs'[d])[v]
    {
      if v != id && d == id {
        assert d !in preds[v];
      } else if v == id && d != id {
        assert v !in succs[d];
      }
    }
  }

  class BuildScheduler {
    var tasks: map<TaskId, BuildTask>
    var isRunning: bool

    /** Tasks are stored under their own id, hence no task object is stored twice. */
    ghost predicate Valid()
      reads this, tasks.Values
    {
      forall id :: id in tasks ==> tasks[id].id == id
    }

    ghost function Preds(): (p: Multi<TaskId>)
      reads this, tasks.Values
      ensures p.Keys == tasks.Keys
    {
      map id | id in tasks :: multiset(tasks[id].dependencies)
    }

    ghost function Succs(): (s: map<TaskId, seq<TaskId>>)
      reads this, tasks.Values
      ensures s.Keys == tasks.Keys
    {
      map id | id in tasks :: tasks[id].dependents
    }

    /** Both ends of every edge record it, repeated edges and self-edges included. */
    ghost predicate Mirrored()
      reads this, tasks.Values
    {
      Valid() && Mirror(Preds(), Succs())
    }

    ghost function Edges(): Graph<TaskId>
      reads this, tasks.Values
    {
      Simple(Preds())
    }

    constructor ()
      ensures tasks == map[] && !isRunning && Mirrored()
    {
      tasks := map[];
      isRunning := false;
    }

    method AddTask(task: BuildTask) returns (r: Result<(), GraphError>)
      requires Valid()
      modifies this`tasks
      ensures Valid()
      ensures isRunning ==> r == Err(SchedulerRunning)
      ensures !isRunning && task.id in old(tasks) ==> r == Err(DuplicateTask(task.id))
      ensures r.Err? ==> tasks == old(tasks)
      ensures !isRunning && task.id !in old(tasks) ==> r.Ok? && tasks == old(tasks)[task.id := task]
      ensures old(Mirrored()) && task.Fresh() ==> Mirrored()
    {
      if isRunning {
        return Err(SchedulerRunning);
      }
      if task.id in tasks {
        return Err(DuplicateTask(task.id));
      }
      Store(task);
      if old(Mirrored()) && task.Fresh() {
        MirrorAddNode(old(Preds()), old(Succs()), task.id);
      }
      r := Ok(());
    }

    method Store(task: BuildTask)
      requires Valid() && task.id !in tasks
      modifies this`tasks
      ensures tasks == old(tasks)[task.id := task]
      ensures Preds() == old(Preds())[task.id := multiset(task.dependencies)]
      ensures Succs() == old(Succs())[task.id := task.dependents]
    {
      tasks := tasks[task.id := task];
      assert Succs() == old(Succs())[task.id := task.dependents];
      hide Succs;
    }

    method AddDependency(dependentID: TaskId, dependencyID: TaskId) returns (r: Result<(), GraphError>)
      requires Valid()
      modifies tasks.Values`dependencies, tasks.Values`dependents
      ensures Valid()
      ensures isRunning ==> r == Err(SchedulerRunning)
      ensures !isRunning && dependentID !in tasks ==> r == Err(UnknownDependent(dependentID))
      ensures !isRunning && dependentID in tasks && dependencyID !in tasks ==> r == Err(UnknownDependency(dependencyID))
      ensures r.Err? ==> Preds() == old(Preds()) && Succs() == old(Succs())
      ensures !isRunning && dependentID in tasks && dependencyID in tasks ==>
                && r.Ok?
                && Preds() == old(Preds()[dependentID := Preds()[dependentID] + multiset{dependencyID}])
                && Succs() == old(Succs()[dependencyID := Succs()[dependencyID] + [dependentID]])
      ensures old(Mirrored()) ==> Mirrored()
    {
      if isRunning {
        return Err(SchedulerRunning);
      }
      if dependentID !in tasks {
        return Err(UnknownDependent(dependentID));
      }
      var dependent := tasks[dependentID];
      if dependencyID !in tasks {
        return Err(UnknownDependency(dependencyID));
      }
      var dependency := tasks[dependencyID];
      AppendEdge(dependent, dependency);
      if old(Mirror(Preds(), Succs())) {
        MirrorAddEdge(old(Preds()), old(Succs()), dependentID, dependencyID);
      }
      r := Ok(());
    }

    /** The two appends that record an edge on both of its ends (possibly one object). */
    method AppendEdge(dependent: BuildTask, dependency: BuildTask)
      requires Valid() && dependent in tasks.Values && dependency in tasks.Values
      modifies dependent`dependencies, dependency`dependents
      ensures dependent.id in tasks && dependency.id in tasks
      ensures Preds() == old(Preds()[dependent.id := Preds()[dependent.id] + multiset{dependency.id}])
      ensures Succs() == old(Succs()[dependency.id := Succs()[dependency.id] + [dependent.id]])
    {
      AppendDependency(dependent, dependency.id);
      AppendDependent(dependency, dependent.id);
    }

    method AppendDependency(task: BuildTask, id: TaskId)
      requires Valid() && task in tasks.Values
      modifies task`dependencies
      ensures task.id in tasks
      ensures Preds() == old(Preds()[task.id := Preds()[task.id] + multiset{id}])
      ensures Succs() == old(Succs())
    {
      task.dependencies := task.dependencies + [id];
      assert Succs() == old(Succs());
      hide Succs;
    }

    method AppendDependent(task: BuildTask, id: TaskId)
      requires Valid() && task in tasks.Values
      modifies task`dependents
      ensures task.id in tasks
      ensures Preds() == old(Preds())
      ensures Succs() == old(Succs()[task.id := Succs()[task.id] + [id]])
    {
      task.dependents := task.dependents + [id];
      assert Preds() == old(Preds());
      hide Preds;
    }

    /** The number of recorded dependencies of every task, repeated edges counted. The
        ranges over the map of tasks are in no particular order. */
    method CountDependencies() returns (inDegree: map<TaskId, int>)
      requires Valid()
      ensures inDegree.Keys == tasks.Keys
      ensures forall id :: id in tasks ==> inDegree[id] == |tasks[id].dependencies|
    {
      inDegree := map id | id in tasks :: 0;
      var todo := tasks.Keys;
      while todo != {}
        invariant todo <= tasks.Keys && inDegree.Keys == tasks.Keys
        invariant forall id :: id in tasks ==> inDegree[id] == if id in todo then 0 else |tasks[id].dependencies|
        decreases todo
      {
        var id :| id in todo;
        var n := 0;
        while n < |tasks[id].dependencies|
          invariant n <= |tasks[id].dependencies| && inDegree.Keys == tasks.Keys
          invariant forall v :: v in tasks && v != id ==> inDegree[v] == if v in todo then 0 else |tasks[v].dependencies|
          invariant inDegree[id] == n
        {
          inDegree := inDegree[id := inDegree[id] + 1];
          n := n + 1;
        }
        todo := todo - {id};
      }
    }

    /** The tasks without dependencies, each once, in no particular order. */
    static method InitialQueue(inDegree: map<TaskId, int>) returns (queue: seq<TaskId>)
      ensures forall v :: multiset(queue)[v] == if v in inDegree && inDegree[v] == 0 then 1 else 0
    {
      queue := [];
      var todo := inDegree.Keys;
      while todo != {}
        invariant todo <= inDegree.Keys
        invariant forall v :: multiset(queue)[v] == if v in inDegree && v !in todo && inDegree[v] == 0 then 1 else 0
        decreases todo
      {
        var id :| id in todo;
        if inDegree[id] == 0 {
          queue := queue + [id];
        }
        todo := todo - {id};
      }
    }

    /** Counts down the dependents of what was emitted last. */
    method ReleaseDependents(ghost preds: Multi<TaskId>, ghost succs: map<TaskId, seq<TaskId>>, inDegree0: map<TaskId, int>,
                             ghost left0: Multi<TaskId>, queue0: seq<TaskId>, result: seq<TaskId>)
      returns (inDegree: map<TaskId, int>, ghost left: Multi<TaskId>, queue: seq<TaskId>)
      requires |result| > 0 && result[|result| - 1] in tasks && result[|result| - 1] in succs
      requires succs[result[|result| - 1]] == tasks[result[|result| - 1]].dependents
      requires forall v :: v in preds ==> preds[v][result[|result| - 1]] == multiset(tasks[result[|result| - 1]].dependents)[v]
      requires forall v :: v in tasks[result[|result| - 1]].dependents ==> v in preds
      requires During(preds, succs, inDegree0, left0, queue0, result, 0)
      ensures During(preds, succs, inDegree, left, queue, result, |succs[result[|result| - 1]]|)
    {
      hide Frontier, Halfway;
      inDegree, left, queue := inDegree0, left0, queue0;
      var current := result[|result| - 1];
      var dependents := tasks[current].dependents;
      var k := 0;
      while k < |dependents|
        invariant k <= |dependents|
        invariant During(preds, succs, inDegree, left, queue, result, k)
      {
        var dependentID := dependents[k];
        assert dependentID in succs[current];
        ghost var queueBefore, inDegreeBefore := queue, inDegree;
        inDegree := inDegree[dependentID := inDegree[dependentID] - 1];
        if inDegree[dependentID] == 0 {
          queue := queue + [dependentID];
        }
        Decrement(preds, succs, inDegreeBefore, left, queueBefore, result, current, k, dependentID, queue);
        left := left[dependentID := left[dependentID] - multiset{current}];
        k := k + 1;
      }
    }

    /** The main loop: emits tasks from the front of the queue until it is empty. */
    method EmitReady(ghost preds: Multi<TaskId>, ghost succs: map<TaskId, seq<TaskId>>, inDegree0: map<TaskId, int>, queue0: seq<TaskId>)
      returns (result: seq<TaskId>)
      requires Mirror(preds, succs) && succs == Succs()
      requires Between(preds, inDegree0, preds, queue0, [])
      ensures NoDup(result) && InDependencyOrder(Simple(preds), result)
      ensures forall v :: v in preds ==> (v in result <==> !NeedsCycle(Simple(preds), v))
    {
      hide Between, During, InDependencyOrder;
      var inDegree, queue := inDegree0, queue0;
      result := [];
      ghost var left := preds;
      while |queue| > 0
        invariant Between(preds, inDegree, left, queue, result)
        decreases |preds| - |result|
      {
        EmittedFits(preds, inDegree, left, queue, result);
        Dequeue(preds, succs, inDegree, left, queue, result);
        var current := queue[0];
        queue := queue[1..];
        result := result + [current];
        inDegree, left, queue := ReleaseDependents(preds, succs, inDegree, left, queue, result);
        Finished(preds, succs, inDegree, left, queue, result);
      }
      Drained(preds, inDegree, left, result);
    }

    /** In-degrees, first queue, main loop. */
    method EmitAll(ghost preds: Multi<TaskId>, ghost succs: map<TaskId, seq<TaskId>>) returns (result: seq<TaskId>)
      requires Mirrored() && preds == Preds() && succs == Succs()
      ensures NoDup(result) && InDependencyOrder(Simple(preds), result)
      ensures forall v :: v in preds ==> (v in result <==> !NeedsCycle(Simple(preds), v))
    {
      hide Frontier, Settled, InDependencyOrder, NoDup, NeedsCycle;
      var inDegree := CountDependencies();
      var queue := InitialQueue(inDegree);
      Start(preds, inDegree, queue);
      result := EmitReady(preds, succs, inDegree, queue);
    }

    /** Kahn's algorithm: an error exactly when the tasks depend on each other in a cycle. */
    method TopologicalSort() returns (r: Result<seq<TaskId>, GraphError>)
      requires Mirrored()
      ensures r.Ok? <==> Acyclic(Edges())
      ensures r.Ok? ==> LinearExtension(Edges(), r.value)
      ensures r.Err? ==> r.error == CycleDetected
    {
      hide Simple, Mirror, InDependencyOrder, NoDup, NeedsCycle, Acyclic, LinearExtension;
      ghost var preds := Preds();
      if |tasks| == 0 {
        EmptyGraph(preds);
        return Ok([]);
      }
      var result := EmitAll(preds, Succs());
      LengthTest(preds, result);
      assert |preds| == |preds.Keys| == |tasks|;
      if |result| != |tasks| {
        return Err(CycleDetected);
      }
      return Ok(result);
    }
  }
}
