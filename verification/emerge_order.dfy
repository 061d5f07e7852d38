/** The sequential build order: Kahn's algorithm with a sorted queue, and sorted order for
    what cycles leave over. The result is a function of the solution alone. */
module EmergeOrder {
  import opened Digraph
  import opened Kahn
  import opened Ordering
  import opened EmergeGraph

  // ----- the order described without queues or counters -----

  /** What can be merged next. */
  ghost function Ready(g: Graph<SlotKey>, done: set<SlotKey>): set<SlotKey> {
    set v | v in g && v !in done && g[v] <= done
  }

  lemma {:induction false} LeastExists(s: set<SlotKey>)
    requires s != {}
    ensures exists m :: IsLeast(m, s)
    decreases |s|
  {
    KeyLessTotal();
    var x :| x in s;
    if s == {x} {
      assert IsLeast(x, s);
    } else {
      var rest := s - {x};
      assert rest != {};
      LeastExists(rest);
      var m :| IsLeast(m, rest);
      if KeyLess(x, m) {
        forall y | y in s ensures !KeyLess(y, x) {
          if y != x {
            assert y in rest;
          }
        }
        assert IsLeast(x, s);
      } else {
        assert IsLeast(m, s);
      }
    }
  }

  ghost predicate IsLeast(m: SlotKey, s: set<SlotKey>) {
    m in s && forall x :: x in s ==> !KeyLess(x, m)
  }

  ghost function Least(s: set<SlotKey>): (m: SlotKey)
    requires s != {}
    ensures IsLeast(m, s)
  {
    LeastExists(s);
    var m :| IsLeast(m, s);
    m
  }

  lemma LeastUnique(a: SlotKey, b: SlotKey, s: set<SlotKey>)
    requires IsLeast(a, s) && IsLeast(b, s)
    ensures a == b
  {
    KeyLessTotal();
  }

  /** Always merge the least package all of whose dependencies are done. */
  ghost function Greedy(g: Graph<SlotKey>, done: set<SlotKey>): seq<SlotKey>
    decreases |g.Keys - done|
  {
    var ready := Ready(g, done);
    if ready == {} then []
    else
      var m := Least(ready);
      assert g.Keys - (done + {m}) < g.Keys - done by {
        assert m in ready;
      }
      SubsetSize(g.Keys - (done + {m}), g.Keys - done);
      [m] + Greedy(g, done + {m})
  }

  /** The elements of a set in ascending order. */
  ghost function Ascending(s: set<SlotKey>): seq<SlotKey>
    decreases |s|
  {
    if s == {} then [] else [Least(s)] + Ascending(s - {Least(s)})
  }

  ghost function BuildOrder(solution: Solution): seq<SlotKey> {
    var g := DepGraph(solution);
    Greedy(g, {}) + Ascending(g.Keys - Elems(Greedy(g, {})))
  }

  // ----- the program computes it -----

  ghost predicate InOrder(queue: seq<SlotKey>) {
    Sorted(KeyLess, queue)
  }

  lemma SortedKeys(keys: seq<SlotKey>)
    ensures InOrder(SortBy(KeyLess, keys)) && multiset(SortBy(KeyLess, keys)) == multiset(keys)
  {
    KeyLessTotal();
    SortBySorts(KeyLess, keys);
  }

  /** The queue holds exactly what can be merged next. */
  lemma QueueIsReady(preds: Multi<SlotKey>, inDegree: map<SlotKey, int>, left: Multi<SlotKey>, queue: seq<SlotKey>, result: seq<SlotKey>)
    requires Between(preds, inDegree, left, queue, result)
    ensures Elems(queue) == Ready(Simple(preds), Elems(result))
  {
    hide InDependencyOrder;
    var g := Simple(preds);
    forall v ensures v in queue <==> v in Ready(g, Elems(result)) {
      if v in queue {
        QueuedIsReady(preds, inDegree, left, queue, result, v);
      } else if v in preds && v !in result {
        UnqueuedIsNot(preds, inDegree, left, queue, result, v);
      }
    }
  }

  lemma QueuedIsReady(preds: Multi<SlotKey>, inDegree: map<SlotKey, int>, left: Multi<SlotKey>, queue: seq<SlotKey>, result: seq<SlotKey>, v: SlotKey)
    requires Between(preds, inDegree, left, queue, result) && v in queue
    ensures v in Ready(Simple(preds), Elems(result))
  {
    hide InDependencyOrder;
    assert multiset(queue)[v] > 0;
    assert v in left && |left[v]| == 0 && multiset(result)[v] == 0;
    forall d | d in Simple(preds)[v] ensures d in result {
      assert left[v][d] == 0;
    }
  }

  lemma UnqueuedIsNot(preds: Multi<SlotKey>, inDegree: map<SlotKey, int>, left: Multi<SlotKey>, queue: seq<SlotKey>, result: seq<SlotKey>, v: SlotKey)
    requires Between(preds, inDegree, left, queue, result) && v in preds && v !in queue && v !in result
    ensures v !in Ready(Simple(preds), Elems(result))
  {
    hide InDependencyOrder;
    assert |left[v]| != 0;
    var d :| d in left[v];
    assert left[v][d] > 0;
    assert d !in Elems(result) && d in preds[v];
    assert d in Simple(preds)[v];
  }

  /** The front of the sorted queue is what the greedy order takes next. */
  lemma FrontIsLeast(queue: seq<SlotKey>, ready: set<SlotKey>)
    requires |queue| > 0 && InOrder(queue) && Elems(queue) == ready
    ensures ready != {} && queue[0] == Least(ready)
  {
    KeyLessTotal();
    assert queue[0] in queue;
    forall x | x in ready ensures !KeyLess(x, queue[0]) {
      var i :| 0 <= i < |queue| && queue[i] == x;
    }
    LeastUnique(queue[0], Least(ready), ready);
  }

  lemma GreedyNext(g: Graph<SlotKey>, result: seq<SlotKey>, queue: seq<SlotKey>)
    requires |queue| > 0 && InOrder(queue) && Elems(queue) == Ready(g, Elems(result))
    ensures Greedy(g, Elems(result)) == [queue[0]] + Greedy(g, Elems(result + [queue[0]]))
  {
    hide InOrder, Ready;
    FrontIsLeast(queue, Ready(g, Elems(result)));
    assert Elems(result + [queue[0]]) == Elems(result) + {queue[0]};
  }

  lemma GreedyEnd(g: Graph<SlotKey>, result: seq<SlotKey>)
    requires Ready(g, Elems(result)) == {}
    ensures Greedy(g, Elems(result)) == []
  {
  }

  /** The keys without dependencies, sorted; the range over the solution is in no
      particular order. */
  method Seeds(inDegree: map<SlotKey, int>) returns (queue: seq<SlotKey>)
    ensures InOrder(queue)
    ensures forall v :: multiset(queue)[v] == if v in inDegree && inDegree[v] == 0 then 1 else 0
  {
    hide InOrder;
    queue := [];
    var todo := inDegree.Keys;
    while todo != {}
      invariant todo <= inDegree.Keys
      invariant forall v :: multiset(queue)[v] == if v in inDegree && v !in todo && inDegree[v] == 0 then 1 else 0
      decreases todo
    {
      var key :| key in todo;
      if inDegree[key] == 0 {
        queue := queue + [key];
      }
      todo := todo - {key};
    }
    SortedKeys(queue);
    queue := SortBy(KeyLess, queue);
  }

  /** Counts down the dependents of the key emitted last. */
  method Release(ghost preds: Multi<SlotKey>, ghost succs: map<SlotKey, seq<SlotKey>>, edges: map<SlotKey, seq<SlotKey>>,
                 inDegree0: map<SlotKey, int>, ghost left0: Multi<SlotKey>, queue0: seq<SlotKey>, result: seq<SlotKey>)
    returns (inDegree: map<SlotKey, int>, ghost left: Multi<SlotKey>, queue: seq<SlotKey>)
    requires |result| > 0 && result[|result| - 1] in succs && succs[result[|result| - 1]] == At(edges, result[|result| - 1])
    requires forall v :: v in preds ==> preds[v][result[|result| - 1]] == multiset(succs[result[|result| - 1]])[v]
    requires forall v :: v in succs[result[|result| - 1]] ==> v in preds
    requires During(preds, succs, inDegree0, left0, queue0, result, 0) && InOrder(queue0)
    ensures During(preds, succs, inDegree, left, queue, result, |succs[result[|result| - 1]]|) && InOrder(queue)
  {
    hide Frontier, Halfway, InOrder;
    inDegree, left, queue := inDegree0, left0, queue0;
    var node := result[|result| - 1];
    var k := 0;
    while k < |At(edges, node)|
      invariant k <= |At(edges, node)|
      invariant During(preds, succs, inDegree, left, queue, result, k) && InOrder(queue)
    {
      var next := At(edges, node)[k];
      assert next in succs[node];
      ghost var queueBefore, inDegreeBefore := queue, inDegree;
      inDegree := inDegree[next := inDegree[next] - 1];
      if inDegree[next] == 0 {
        queue := queue + [next];
        SortedKeys(queue);
        queue := SortBy(KeyLess, queue);
      }
      Decrement(preds, succs, inDegreeBefore, left, queueBefore, result, node, k, next, queue);
      left := left[next := left[next] - multiset{node}];
      k := k + 1;
    }
  }

  /** Moving the head of the queue to the result is the next step of the greedy order. */
  lemma HeadIsNext(preds: Multi<SlotKey>, inDegree: map<SlotKey, int>, left: Multi<SlotKey>, queue: seq<SlotKey>, result: seq<SlotKey>)
    requires Between(preds, inDegree, left, queue, result) && InOrder(queue) && |queue| > 0
    ensures var more := result + [queue[0]];
            result + Greedy(Simple(preds), Elems(result)) == more + Greedy(Simple(preds), Elems(more))
    ensures InOrder(queue[1..])
  {
    hide Between, InOrder, Greedy, Ready;
    QueueIsReady(preds, inDegree, left, queue, result);
    GreedyNext(Simple(preds), result, queue);
    TailInOrder(queue);
    Regroup(result, queue[0], Greedy(Simple(preds), Elems(result + [queue[0]])));
  }

  /** The main loop. */
  method Emit(ghost preds: Multi<SlotKey>, ghost succs: map<SlotKey, seq<SlotKey>>, edges: map<SlotKey, seq<SlotKey>>,
              inDegree0: map<SlotKey, int>, queue0: seq<SlotKey>)
    returns (result: seq<SlotKey>)
    requires Mirror(preds, succs) && forall k :: k in succs ==> succs[k] == At(edges, k)
    requires Between(preds, inDegree0, preds, queue0, []) && InOrder(queue0)
    ensures result == Greedy(Simple(preds), {})
    ensures NoDup(result) && InDependencyOrder(Simple(preds), result)
    ensures forall v :: v in preds ==> (v in result <==> !NeedsCycle(Simple(preds), v))
  {
    hide Between, During, InDependencyOrder, InOrder, Greedy, Ready, NeedsCycle, NoDup;
    var inDegree, queue := inDegree0, queue0;
    result := [];
    ghost var left := preds;
    ghost var g := Simple(preds);
    assert Elems<SlotKey>([]) == {};
    while |queue| > 0
      invariant Between(preds, inDegree, left, queue, result) && InOrder(queue)
      invariant result + Greedy(g, Elems(result)) == Greedy(g, {})
      decreases |preds| - |result|
    {
      EmittedFits(preds, inDegree, left, queue, result);
      HeadIsNext(preds, inDegree, left, queue, result);
      Dequeue(preds, succs, inDegree, left, queue, result);
      var node := queue[0];
      queue := queue[1..];
      result := result + [node];
      inDegree, left, queue := Release(preds, succs, edges, inDegree, left, queue, result);
      Finished(preds, succs, inDegree, left, queue, result);
    }
    QueueIsReady(preds, inDegree, left, queue, result);
    assert Elems(queue) == {};
    GreedyEnd(g, result);
    assert result + [] == result;
    Drained(preds, inDegree, left, result);
  }

  lemma Regroup(a: seq<SlotKey>, x: SlotKey, b: seq<SlotKey>)
    ensures a + ([x] + b) == (a + [x]) + b
  {
  }

  lemma TailInOrder(queue: seq<SlotKey>)
    requires |queue| > 0 && InOrder(queue)
    ensures InOrder(queue[1..])
  {
  }

  /** The keys not emitted, sorted; the range over the solution is in no particular order. */
  lemma RemainingNext(all: set<SlotKey>, seen: set<SlotKey>, todo: set<SlotKey>, key: SlotKey, remaining: seq<SlotKey>)
    requires todo <= all && key in todo && multiset(remaining) == multiset((all - seen) - todo)
    ensures multiset(if key in seen then remaining else remaining + [key]) == multiset((all - seen) - (todo - {key}))
  {
    if key in seen {
      assert (all - seen) - (todo - {key}) == (all - seen) - todo;
    } else {
      assert (all - seen) - (todo - {key}) == (all - seen) - todo + {key};
    }
  }

  method Remaining(solution: Solution, result: seq<SlotKey>) returns (remaining: seq<SlotKey>)
    ensures remaining == Ascending(solution.Keys - Elems(result))
  {
    var seen := Elems(result);
    remaining := [];
    var todo := solution.Keys;
    while todo != {}
      invariant todo <= solution.Keys
      invariant multiset(remaining) == multiset((solution.Keys - seen) - todo)
      decreases todo
    {
      var key :| key in todo;
      RemainingNext(solution.Keys, seen, todo, key, remaining);
      todo := todo - {key};
      if key !in seen {
        remaining := remaining + [key];
      }
    }
    assert (solution.Keys - seen) - todo == solution.Keys - seen;
    SortedKeys(remaining);
    remaining := SortBy(KeyLess, remaining);
    SortedIsAscending(remaining, solution.Keys - seen);
  }

  lemma {:induction false} AscendingSorts(s: set<SlotKey>)
    ensures InOrder(Ascending(s)) && multiset(Ascending(s)) == multiset(s)
    decreases |s|
  {
    if s != {} {
      var m := Least(s);
      AscendingSorts(s - {m});
      hide KeyLess, Ascending;
      LeastFirst(s, m, Ascending(s - {m}));
    }
  }

  lemma LeastFirst(s: set<SlotKey>, m: SlotKey, rest: seq<SlotKey>)
    requires m in s && (forall k :: k in s ==> !KeyLess(k, m))
    requires InOrder(rest) && multiset(rest) == multiset(s - {m})
    ensures InOrder([m] + rest) && multiset([m] + rest) == multiset(s)
  {
    hide KeyLess;
    assert multiset(s) == multiset(s - {m}) + multiset{m};
    assert multiset([m] + rest) == multiset{m} + multiset(rest);
    forall j | 0 <= j < |rest| ensures !KeyLess(rest[j], m) {
      assert rest[j] in multiset(rest);
    }
  }

  lemma SortedIsAscending(keys: seq<SlotKey>, s: set<SlotKey>)
    requires InOrder(keys) && multiset(keys) == multiset(s)
    ensures keys == Ascending(s)
  {
    AscendingSorts(s);
    KeyLessTotal();
    SortedUnique(KeyLess, keys, Ascending(s));
  }

  /** Kahn's algorithm with a sorted queue and the fallback for cycles. The result is a
      function of the solution: the order of the ranges over its map does not show. */
  method TopologicalSort(solution: Solution) returns (result: seq<SlotKey>)
    ensures result == BuildOrder(solution)
  {
    hide Agree, Between, Greedy, Ascending, DepGraph, AllEdges, Simple, Succs, Mirror, BuildOrder, NoDup, InDependencyOrder, NeedsCycle, InOrder;
    var inDegree, edges := BuildDepEdges(solution);
    var queue := Seeds(inDegree);
    ghost var preds, succs := AllEdges(solution), Succs(solution, edges);
    AgreeMeans(solution, inDegree, edges, preds);
    Start(preds, inDegree, queue);
    result := Emit(preds, succs, edges, inDegree, queue);
    EmittedOrder(solution, result);
    if |result| < |solution| {
      var remaining := Remaining(solution, result);
      result := result + remaining;
    }
  }

  /** The order is what was emitted and the rest sorted; nothing is left over exactly if the
      lengths agree. */
  lemma EmittedOrder(solution: Solution, result: seq<SlotKey>)
    requires result == Greedy(Simple(AllEdges(solution)), {})
    requires NoDup(result) && InDependencyOrder(Simple(AllEdges(solution)), result)
    ensures BuildOrder(solution) == result + Ascending(solution.Keys - Elems(result))
    ensures |result| >= |solution| ==> BuildOrder(solution) == result
  {
    hide Greedy, Ascending, DepGraph, AllEdges, NoDup, InDependencyOrder;
    GraphOfEdges(solution);
    GraphKeys(solution);
    OrderedAreNodes(DepGraph(solution), result);
    EmittedAll(DepGraph(solution), result);
    assert |solution| == |solution.Keys| && |DepGraph(solution)| == |DepGraph(solution).Keys|;
    assert result + [] == result;
  }

  lemma AgreeMeans(solution: Solution, inDegree: map<SlotKey, int>, edges: map<SlotKey, seq<SlotKey>>, preds: Multi<SlotKey>)
    requires Agree(solution, inDegree, edges, preds)
    ensures Mirror(preds, Succs(solution, edges))
    ensures forall k :: k in Succs(solution, edges) ==> Succs(solution, edges)[k] == At(edges, k)
    ensures inDegree.Keys == preds.Keys == solution.Keys && forall v :: v in preds ==> inDegree[v] == |preds[v]|
  {
    hide Mirror;
  }

  /** Nothing is left over exactly if the lengths agree. */
  lemma EmittedAll(g: Graph<SlotKey>, result: seq<SlotKey>)
    requires NoDup(result) && Elems(result) <= g.Keys
    ensures |result| <= |g|
    ensures |result| == |g| ==> Ascending(g.Keys - Elems(result)) == []
  {
    NoDupFits(result, g.Keys);
    assert |g| == |g.Keys|;
  }

  // ----- what the order is good for -----

  lemma ReadyNoCycle(g: Graph<SlotKey>, done: set<SlotKey>)
    requires Closed(g) && done <= g.Keys && Ready(g, done) == {}
    ensures forall v :: v in g && v !in done ==> NeedsCycle(g, v)
  {
    var stuck := g.Keys - done;
    forall v | v in stuck
      ensures HasDependencyIn(g, v, stuck)
    {
      assert v !in Ready(g, done);
      var d :| d in g[v] && d !in done;
      assert d in stuck;
    }
    forall v | v in stuck ensures NeedsCycle(g, v) {
      StuckNeedsCycle(g, stuck, v);
    }
  }

  /** The greedy order, continued from a list in dependency order. */
  lemma {:induction false} GreedyContinues(g: Graph<SlotKey>, before: seq<SlotKey>)
    requires Closed(g) && NoDup(before) && InDependencyOrder(g, before)
    ensures var all := before + Greedy(g, Elems(before));
            && NoDup(all) && InDependencyOrder(g, all)
            && forall v :: v in g && v !in all ==> NeedsCycle(g, v)
    decreases |g.Keys - Elems(before)|
  {
    hide NeedsCycle, InDependencyOrder;
    var done := Elems(before);
    assert done <= g.Keys by { OrderedAreNodes(g, before); }
    if Ready(g, done) == {} {
      assert before + [] == before;
      ReadyNoCycle(g, done);
    } else {
      var m := Least(Ready(g, done));
      assert m in Ready(g, done);
      var next := before + [m];
      assert Elems(next) == done + {m};
      AppendInOrder(g, before, m);
      assert g.Keys - Elems(next) < g.Keys - done;
      SubsetSize(g.Keys - Elems(next), g.Keys - done);
      GreedyContinues(g, next);
      Regroup(before, m, Greedy(g, Elems(next)));
    }
  }

  lemma OrderedAreNodes(g: Graph<SlotKey>, order: seq<SlotKey>)
    requires InDependencyOrder(g, order)
    ensures Elems(order) <= g.Keys
  {
  }

  /** The greedy order holds exactly the nodes that need no cycle, in dependency order. */
  lemma GreedyPart(g: Graph<SlotKey>)
    requires Closed(g)
    ensures var kahn := Greedy(g, {});
            && NoDup(kahn) && Elems(kahn) <= g.Keys && InDependencyOrder(g, kahn)
            && forall v :: v in g ==> (v in kahn <==> !NeedsCycle(g, v))
  {
    hide NeedsCycle, InDependencyOrder, Ready;
    var kahn := Greedy(g, {});
    EmptyInOrder(g);
    assert Elems<SlotKey>([]) == {};
    GreedyContinues(g, []);
    assert [] + kahn == kahn;
    OrderedAreNodes(g, kahn);
    forall v | v in kahn ensures !NeedsCycle(g, v) {
      OrderedNeedsNoCycle(g, kahn, v);
    }
  }

  /** On any solution: a permutation of its keys, whose first part holds exactly the packages
      that need no cycle, each after its dependencies, and whose rest is sorted. */
  lemma OrderOfAnySolution(solution: Solution)
    ensures var g := DepGraph(solution); var kahn := Greedy(g, {}); var order := BuildOrder(solution);
            && NoDup(order) && Elems(order) == solution.Keys
            && kahn <= order && InDependencyOrder(g, kahn)
            && (forall v :: v in g ==> (v in kahn <==> !NeedsCycle(g, v)))
            && InOrder(order[|kahn|..])
  {
    hide NeedsCycle, InDependencyOrder, InOrder, DepGraph, Greedy, Ascending, NoDup, Closed;
    GraphOfEdges(solution);
    GraphKeys(solution);
    var g := DepGraph(solution);
    var kahn := Greedy(g, {});
    GreedyPart(g);
    var rest := g.Keys - Elems(kahn);
    AscendingSorts(rest);
    assert BuildOrder(solution)[|kahn|..] == Ascending(rest);
    Disjoint(kahn, Ascending(rest), rest);
    assert Elems(kahn) + rest == g.Keys;
  }

  lemma EmptyInOrder(g: Graph<SlotKey>)
    ensures InDependencyOrder(g, [])
  {
  }

  lemma Disjoint(a: seq<SlotKey>, b: seq<SlotKey>, s: set<SlotKey>)
    requires NoDup(a) && Elems(a) !! s && multiset(b) == multiset(s)
    ensures NoDup(a + b) && Elems(a + b) == Elems(a) + s
  {
    forall x ensures x in b <==> x in s {
      assert x in b <==> x in multiset(b);
    }
    NoDupMultiset(a);
    NoDupMultiset(b);
    NoDupMultiset(a + b);
    forall x ensures multiset(a + b)[x] <= 1 {
      assert multiset(a + b)[x] == multiset(a)[x] + multiset(b)[x];
    }
  }

  /** `a` comes before `b`: they agree up to some place, and there `a` has the lesser key. */
  ghost predicate LexBefore(a: seq<SlotKey>, b: seq<SlotKey>) {
    exists i :: 0 <= i < |a| && i < |b| && a[..i] == b[..i] && KeyLess(a[i], b[i])
  }

  /** Any linear extension agrees with the greedy order or comes after it. */
  lemma {:induction false} GreedyIsLeast(g: Graph<SlotKey>, before: seq<SlotKey>, e: seq<SlotKey>)
    requires LinearExtension(g, e) && before <= e
    ensures var all := before + Greedy(g, Elems(before)); all == e || LexBefore(all, e)
    decreases |e| - |before|
  {
    hide KeyLess;
    var done := Elems(before);
    var all := before + Greedy(g, done);
    var k := |before|;
    if k == |e| {
      assert before == e;
      assert Ready(g, done) == {};
      assert before + [] == before;
    } else {
      NextIsReady(g, e, k);
      assert e[..k] == before;
      var m := Least(Ready(g, done));
      assert all == (before + [m]) + Greedy(g, done + {m}) by { Regroup(before, m, Greedy(g, done + {m})); }
      if m == e[k] {
        assert e[..k + 1] == before + [m];
        assert Elems(before + [m]) == done + {m};
        GreedyIsLeast(g, before + [m], e);
      } else {
        KeyLessTotal();
        assert KeyLess(m, e[k]);
        assert all[k] == m && all[..k] == e[..k];
      }
    }
  }

  lemma NextIsReady(g: Graph<SlotKey>, e: seq<SlotKey>, k: nat)
    requires LinearExtension(g, e) && k < |e|
    ensures e[k] in Ready(g, Elems(e[..k]))
  {
    forall d | d in g[e[k]] ensures d in e[..k] {
    }
  }

  lemma AcyclicIsGreedy(solution: Solution)
    requires Acyclic(DepGraph(solution))
    ensures BuildOrder(solution) == Greedy(DepGraph(solution), {})
  {
    hide NeedsCycle, InDependencyOrder, DepGraph, Greedy, NoDup, Closed, Acyclic;
    var g := DepGraph(solution);
    GraphOfEdges(solution);
    GreedyPart(g);
    AcyclicMeansNoNeed(g);
    var kahn := Greedy(g, {});
    assert g.Keys - Elems(kahn) == {};
    assert Ascending({}) == [];
    assert kahn + [] == kahn;
  }

  /** Without cycles the result is the lexicographically least linear extension. */
  lemma CanonicalOrder(solution: Solution, e: seq<SlotKey>)
    requires Acyclic(DepGraph(solution))
    ensures LinearExtension(DepGraph(solution), BuildOrder(solution))
    ensures LinearExtension(DepGraph(solution), e) ==> e == BuildOrder(solution) || LexBefore(BuildOrder(solution), e)
  {
    hide NeedsCycle, InOrder, InDependencyOrder, LexBefore, DepGraph, Acyclic, BuildOrder, Greedy, NoDup;
    var g := DepGraph(solution);
    OrderOfAnySolution(solution);
    AcyclicIsGreedy(solution);
    GraphKeys(solution);
    if LinearExtension(g, e) {
      assert Elems<SlotKey>([]) == {};
      GreedyIsLeast(g, [], e);
      assert [] + Greedy(g, {}) == Greedy(g, {});
    }
  }

  lemma GraphKeys(solution: Solution)
    ensures DepGraph(solution).Keys == solution.Keys
  {
  }
}
