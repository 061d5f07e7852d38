/** What the two runs of Kahn's algorithm (the scheduler's FIFO one and the sequential
    sorted one) have in common. Edges may be repeated, so dependencies are multisets. */
module Kahn {
  import opened Digraph

  type Multi<!V(==)> = map<V, multiset<V>>

  /** Forgets how often an edge was added. */
  ghost function Simple<V(!new)>(preds: Multi<V>): (g: Graph<V>)
    ensures g.Keys == preds.Keys
    ensures forall v, d :: v in preds ==> (d in g[v] <==> d in preds[v])
  {
    map v | v in preds :: set d | d in preds[v]
  }

  /** Dependency and dependent lists record the same edges, with the same multiplicity. */
  ghost predicate Mirror<V(!new)>(preds: Multi<V>, succs: map<V, seq<V>>) {
    && preds.Keys == succs.Keys
    && (forall v, d :: v in preds && d in preds[v] ==> d in preds)
    && (forall d, v :: d in succs && v in succs[d] ==> v in preds)
    && (forall v, d :: v in preds && d in succs ==> preds[v][d] == multiset(succs[d])[v])
  }

  lemma MirrorAddEdge<V(!new)>(preds: Multi<V>, succs: map<V, seq<V>>, v: V, d: V)
    requires Mirror(preds, succs) && v in preds && d in preds
    ensures Mirror(preds[v := preds[v] + multiset{d}], succs[d := succs[d] + [v]])
  {
  }

  /** `left[v]` is the ghost multiset of the edges of `v` whose dependency has not been
      processed; the program stores only its size. The queue and the result hold exactly
      the nodes with nothing left. */
  ghost predicate Frontier<V(!new)>(inDegree: map<V, int>, left: Multi<V>, queue: seq<V>, result: seq<V>)
    requires inDegree.Keys == left.Keys
  {
    && (forall v :: v in left ==> inDegree[v] == |left[v]|)
    && (forall x :: multiset(result)[x] + multiset(queue)[x] <= if x in left && inDegree[x] == 0 then 1 else 0)
    && (forall v :: v in left && inDegree[v] == 0 ==> v in result || v in queue)
  }

  /** No edge to a node in `done` is left, and every other edge is. */
  ghost predicate Settled<V(!new)>(preds: Multi<V>, left: Multi<V>, done: set<V>) {
    && left.Keys == preds.Keys
    && forall v, d :: v in preds ==> left[v][d] == if d in done then 0 else preds[v][d]
  }

  /** The same while `current` is being processed and its dependents `seen` are done. */
  ghost predicate Halfway<V(!new)>(preds: Multi<V>, left: Multi<V>, done: set<V>, current: V, seen: multiset<V>) {
    && left.Keys == preds.Keys
    && (forall v, d :: v in preds && d != current ==> left[v][d] == if d in done then 0 else preds[v][d])
    && (forall v :: v in preds ==> left[v][current] + seen[v] == preds[v][current])
  }

  /** The bookkeeping between two dequeues. */
  ghost predicate Between<V(!new)>(preds: Multi<V>, inDegree: map<V, int>, left: Multi<V>, queue: seq<V>, result: seq<V>) {
    && inDegree.Keys == left.Keys == preds.Keys
    && Frontier(inDegree, left, queue, result)
    && Settled(preds, left, Elems(result))
    && InDependencyOrder(Simple(preds), result)
  }

  /** The bookkeeping while the first `k` dependents of the node emitted last are done. */
  ghost predicate During<V(!new)>(preds: Multi<V>, succs: map<V, seq<V>>, inDegree: map<V, int>, left: Multi<V>,
                                  queue: seq<V>, result: seq<V>, k: nat) {
    && |result| > 0 && result[|result| - 1] in succs && k <= |succs[result[|result| - 1]]|
    && inDegree.Keys == left.Keys == preds.Keys
    && Frontier(inDegree, left, queue, result)
    && Halfway(preds, left, Elems(result), result[|result| - 1], multiset(succs[result[|result| - 1]][..k]))
  }

  /** Nothing processed yet: the queue holds the nodes without dependencies. */
  lemma Start<V(!new)>(preds: Multi<V>, inDegree: map<V, int>, queue: seq<V>)
    requires inDegree.Keys == preds.Keys && forall v :: v in preds ==> inDegree[v] == |preds[v]|
    requires forall v :: multiset(queue)[v] == if v in preds && inDegree[v] == 0 then 1 else 0
    ensures Between(preds, inDegree, preds, queue, [])
  {
    forall v | v in preds && inDegree[v] == 0
      ensures v in queue
    {
      assert multiset(queue)[v] == 1;
    }
  }

  lemma Dequeue<V(!new)>(preds: Multi<V>, succs: map<V, seq<V>>, inDegree: map<V, int>, left: Multi<V>,
                         queue: seq<V>, result: seq<V>)
    requires Mirror(preds, succs) && Between(preds, inDegree, left, queue, result) && |queue| > 0
    ensures queue[0] in succs && queue[0] !in result
    ensures During(preds, succs, inDegree, left, queue[1..], result + [queue[0]], 0)
    ensures InDependencyOrder(Simple(preds), result + [queue[0]])
  {
    var next := queue[0];
    FrontierHead(inDegree, left, queue, result);
    HalfwayStart(preds, left, result, next);
    assert succs[next][..0] == [];
    ReadyIsOrdered(preds, left, result, next);
  }

  lemma EmittedFits<V(!new)>(preds: Multi<V>, inDegree: map<V, int>, left: Multi<V>, queue: seq<V>, result: seq<V>)
    requires Between(preds, inDegree, left, queue, result) && |queue| > 0
    ensures |result| < |preds|
  {
    var more := result + [queue[0]];
    FrontierHead(inDegree, left, queue, result);
    FrontierOnce(inDegree, left, queue[1..], more);
    hide Frontier, NoDup;
    NoDupFits(more, preds.Keys);
  }

  lemma FrontierOnce<V(!new)>(inDegree: map<V, int>, left: Multi<V>, queue: seq<V>, result: seq<V>)
    requires inDegree.Keys == left.Keys && Frontier(inDegree, left, queue, result)
    ensures NoDup(result) && Elems(result) <= left.Keys
  {
    NoDupMultiset(result);
    hide NoDup;
    forall x | x in result ensures x in left {
      assert multiset(result)[x] > 0;
    }
  }

  lemma FrontierHead<V(!new)>(inDegree: map<V, int>, left: Multi<V>, queue: seq<V>, result: seq<V>)
    requires inDegree.Keys == left.Keys && Frontier(inDegree, left, queue, result) && |queue| > 0
    ensures queue[0] in left && |left[queue[0]]| == 0 && queue[0] !in result
    ensures Frontier(inDegree, left, queue[1..], result + [queue[0]])
  {
    var next := queue[0];
    assert queue == [next] + queue[1..];
    assert multiset(queue)[next] > 0;
    forall x ensures multiset(result + [next])[x] + multiset(queue[1..])[x] == multiset(result)[x] + multiset(queue)[x] {
    }
  }

  lemma HalfwayStart<V(!new)>(preds: Multi<V>, left: Multi<V>, result: seq<V>, next: V)
    requires Settled(preds, left, Elems(result)) && next !in result
    ensures Halfway(preds, left, Elems(result + [next]), next, multiset{})
  {
    assert Elems(result + [next]) == Elems(result) + {next};
  }

  lemma ReadyIsOrdered<V(!new)>(preds: Multi<V>, left: Multi<V>, result: seq<V>, next: V)
    requires Settled(preds, left, Elems(result)) && InDependencyOrder(Simple(preds), result)
    requires next in left && |left[next]| == 0
    ensures InDependencyOrder(Simple(preds), result + [next])
  {
    forall d | d in Simple(preds)[next]
      ensures d in result
    {
      assert left[next][d] == 0;
    }
    AppendInOrder(Simple(preds), result, next);
  }

  lemma AppendInOrder<V(!new)>(g: Graph<V>, result: seq<V>, next: V)
    requires InDependencyOrder(g, result) && next in g
    requires forall d :: d in g[next] ==> d in result
    ensures InDependencyOrder(g, result + [next])
  {
    var result' := result + [next];
    forall i, d | 0 <= i < |result'| && d in g[result'[i]]
      ensures d in result'[..i]
    {
      if i < |result| {
        assert result'[..i] == result[..i];
      } else {
        assert result'[..i] == result;
      }
    }
  }

  /** Decrementing one dependent keeps the bookkeeping, whatever order the queue is kept in. */
  lemma Decrement<V(!new)>(preds: Multi<V>, succs: map<V, seq<V>>, inDegree: map<V, int>, left: Multi<V>,
                           queue: seq<V>, result: seq<V>, current: V, k: nat, x: V, queue': seq<V>)
    requires During(preds, succs, inDegree, left, queue, result, k)
    requires current == result[|result| - 1] && k < |succs[current]| && x == succs[current][k]
    requires forall v :: v in preds ==> preds[v][current] == multiset(succs[current])[v]
    requires x in inDegree && multiset(queue') == multiset(if inDegree[x] - 1 == 0 then queue + [x] else queue)
    ensures x in left && current in left[x]
    ensures During(preds, succs, inDegree[x := inDegree[x] - 1], left[x := left[x] - multiset{current}], queue', result, k + 1)
  {
    SeenFits(preds, succs, current, k);
    hide Frontier, Halfway;
    HalfwayStep(preds, left, Elems(result), current, multiset(succs[current][..k]), x);
    FrontierStep(inDegree, left, queue, result, x, current, queue');
  }

  lemma SeenFits<V(!new)>(preds: Multi<V>, succs: map<V, seq<V>>, current: V, k: nat)
    requires current in succs && k < |succs[current]| && succs[current][k] in preds
    requires forall v :: v in preds ==> preds[v][current] == multiset(succs[current])[v]
    ensures multiset(succs[current][..k])[succs[current][k]] + 1 <= preds[succs[current][k]][current]
    ensures multiset(succs[current][..k + 1]) == multiset(succs[current][..k]) + multiset{succs[current][k]}
  {
    PrefixCounts(succs[current], k);
  }

  lemma HalfwayStep<V(!new)>(preds: Multi<V>, left: Multi<V>, done: set<V>, current: V, seen: multiset<V>, x: V)
    requires Halfway(preds, left, done, current, seen)
    requires x in preds && seen[x] + 1 <= preds[x][current]
    ensures current in left[x]
    ensures Halfway(preds, left[x := left[x] - multiset{current}], done, current, seen + multiset{x})
  {
    assert left[x][current] + seen[x] == preds[x][current];
  }

  lemma FrontierStep<V(!new)>(inDegree: map<V, int>, left: Multi<V>, queue: seq<V>, result: seq<V>, x: V, d: V, queue': seq<V>)
    requires inDegree.Keys == left.Keys && Frontier(inDegree, left, queue, result)
    requires x in left && d in left[x]
    requires multiset(queue') == multiset(if inDegree[x] - 1 == 0 then queue + [x] else queue)
    ensures Frontier(inDegree[x := inDegree[x] - 1], left[x := left[x] - multiset{d}], queue', result)
  {
    var fewer := left[x] - multiset{d};
    var in', left' := inDegree[x := inDegree[x] - 1], left[x := fewer];
    assert |fewer| == |left[x]| - 1;
    forall v | v in left' ensures in'[v] == |left'[v]| {
    }
    forall v
      ensures multiset(result)[v] + multiset(queue')[v] <= if v in left' && in'[v] == 0 then 1 else 0
      ensures v in left' && in'[v] == 0 ==> v in result || v in queue'
    {
      QueueCounts(queue, queue', x, inDegree[x] - 1 == 0, v);
    }
  }

  lemma QueueCounts<V>(queue: seq<V>, queue': seq<V>, x: V, more: bool, v: V)
    requires multiset(queue') == multiset(if more then queue + [x] else queue)
    ensures multiset(queue')[v] == multiset(queue)[v] + if v == x && more then 1 else 0
    ensures v in queue || (v == x && more) ==> v in queue'
  {
    if v in queue || (v == x && more) {
      assert multiset(queue')[v] > 0;
    }
  }

  lemma PrefixCounts<V>(list: seq<V>, k: nat)
    requires k < |list|
    ensures multiset(list[..k + 1]) == multiset(list[..k]) + multiset{list[k]}
    ensures multiset(list[..k + 1]) <= multiset(list)
  {
    assert list[..k + 1] == list[..k] + [list[k]];
    assert list == list[..k + 1] + list[k + 1..];
  }

  lemma Finished<V(!new)>(preds: Multi<V>, succs: map<V, seq<V>>, inDegree: map<V, int>, left: Multi<V>,
                          queue: seq<V>, result: seq<V>)
    requires Mirror(preds, succs)
    requires |result| > 0 && result[|result| - 1] in succs
    requires During(preds, succs, inDegree, left, queue, result, |succs[result[|result| - 1]]|)
    requires InDependencyOrder(Simple(preds), result)
    ensures Between(preds, inDegree, left, queue, result)
  {
    var current := result[|result| - 1];
    assert succs[current][..|succs[current]|] == succs[current];
    HalfwayEnd(preds, left, Elems(result), current, multiset(succs[current]));
  }

  lemma HalfwayEnd<V(!new)>(preds: Multi<V>, left: Multi<V>, done: set<V>, current: V, seen: multiset<V>)
    requires Halfway(preds, left, done, current, seen) && current in done
    requires forall v :: v in preds ==> seen[v] == preds[v][current]
    ensures Settled(preds, left, done)
  {
  }

  /** When the queue runs dry, exactly the nodes that need no cycle have been emitted. */
  lemma Drained<V(!new)>(preds: Multi<V>, inDegree: map<V, int>, left: Multi<V>, result: seq<V>)
    requires forall v, d :: v in preds && d in preds[v] ==> d in preds
    requires Between(preds, inDegree, left, [], result)
    ensures NoDup(result) && InDependencyOrder(Simple(preds), result)
    ensures forall v :: v in preds ==> (v in result <==> !NeedsCycle(Simple(preds), v))
  {
    NoDupMultiset(result);
    forall v | v in preds
      ensures v in result <==> !NeedsCycle(Simple(preds), v)
    {
      if v in result {
        OrderedNeedsNoCycle(Simple(preds), result, v);
      } else {
        StuckBehindCycle(preds, inDegree, left, result, v);
      }
    }
  }

  lemma StuckBehindCycle<V(!new)>(preds: Multi<V>, inDegree: map<V, int>, left: Multi<V>, result: seq<V>, v: V)
    requires forall v, d :: v in preds && d in preds[v] ==> d in preds
    requires inDegree.Keys == left.Keys && Frontier(inDegree, left, [], result) && Settled(preds, left, Elems(result))
    requires v in preds && v !in result
    ensures NeedsCycle(Simple(preds), v)
  {
    var g := Simple(preds);
    var stuck := g.Keys - Elems(result);
    forall v | v in stuck
      ensures HasDependencyIn(g, v, stuck)
    {
      assert |left[v]| != 0;
      var d :| d in left[v];
      assert left[v][d] > 0;
      assert d !in Elems(result) && preds[v][d] > 0;
      assert d in preds[v];
      assert d in g[v] && d in stuck;
    }
    StuckNeedsCycle(g, stuck, v);
  }

  lemma EmptyGraph<V(!new)>(preds: Multi<V>)
    requires preds == map[]
    ensures Acyclic(Simple(preds)) && LinearExtension(Simple(preds), [])
  {
    LengthTest(preds, []);
  }

  /** The test for a cycle compares lengths only; that is enough. */
  lemma LengthTest<V(!new)>(preds: Multi<V>, result: seq<V>)
    requires NoDup(result) && InDependencyOrder(Simple(preds), result)
    requires forall v :: v in preds ==> (v in result <==> !NeedsCycle(Simple(preds), v))
    ensures |result| == |preds| <==> Acyclic(Simple(preds))
    ensures |result| == |preds| <==> Elems(result) == preds.Keys
    ensures |result| == |preds| ==> LinearExtension(Simple(preds), result)
  {
    var g := Simple(preds);
    assert g.Keys == preds.Keys;
    AcyclicMeansNoNeed(g);
    assert Elems(result) <= preds.Keys;
    NoDupFits(result, preds.Keys);
    NoDupSize(result);
    hide NeedsCycle, Acyclic, NoDup, InDependencyOrder, Simple;
    assert |preds| == |preds.Keys|;
    assert Acyclic(g) <==> forall v :: v in preds ==> v in result;
    assert Elems(result) == preds.Keys <==> forall v :: v in preds ==> v in result;
  }
}
