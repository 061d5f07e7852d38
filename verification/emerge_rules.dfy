/** Which dependencies order the build, said of the order itself. */
module EmergeRules {
  import opened Digraph
  import opened Ordering
  import opened EmergeGraph
  import opened EmergeOrder

  // ----- a dependency that orders puts its package first -----

  /** Without cycles: another package of the right name, and of the right slot if the dependency
      names one, is merged first, unless the dependency is a post-merge one. */
  lemma DependencyComesFirst(solution: Solution, key: SlotKey, dep: Constraint, d: SlotKey) returns (i: nat, j: nat)
    requires Acyclic(DepGraph(solution)) && key in solution && dep in solution[key] && d in solution && d != key
    requires dep.depType == Runtime || dep.depType == Build || dep.depType == BuildHost || dep.depType == Install
    requires d.name == dep.name && (dep.slot == "" || dep.slot == "=" || dep.slot == "*" || d.slot == dep.slot)
    ensures i < j < |BuildOrder(solution)| && BuildOrder(solution)[i] == d && BuildOrder(solution)[j] == key
  {
    assert d in DepGraph(solution)[key];
    CanonicalOrder(solution, []);
    GraphKeys(solution);
    hide DepGraph, BuildOrder, Acyclic;
    var order := BuildOrder(solution);
    assert key in Elems(order);
    j :| 0 <= j < |order| && order[j] == key;
    assert d in order[..j];
    i :| 0 <= i < j && order[..j][i] == d;
  }

  // ----- no other dependency changes anything -----

  /** Some other package of the solution answers `dep`, and it is to be merged first. */
  ghost predicate Orders(solution: Solution, key: SlotKey, dep: Constraint) {
    && (dep.depType == Runtime || dep.depType == Build || dep.depType == BuildHost || dep.depType == Install)
    && exists d :: d in solution && d != key && d.name == dep.name
                   && (dep.slot == "" || dep.slot == "=" || dep.slot == "*" || d.slot == dep.slot)
  }

  /** Two solutions with the same packages that agree on the dependencies that order are merged
      in the same order: what else they depend on, and how often, does not matter. */
  lemma OnlyOrderingCounts(a: Solution, b: Solution)
    requires a.Keys == b.Keys
    requires forall key, dep :: key in a && Orders(a, key, dep) ==> (dep in a[key] <==> dep in b[key])
    ensures BuildOrder(a) == BuildOrder(b)
  {
    forall key | key in a ensures DepGraph(a)[key] == DepGraph(b)[key] {
      forall d ensures d in DepGraph(a)[key] <==> d in DepGraph(b)[key] {
        SameEdge(a, b, key, d);
      }
    }
    assert DepGraph(a) == DepGraph(b);
  }

  lemma SameEdge(a: Solution, b: Solution, key: SlotKey, d: SlotKey)
    requires a.Keys == b.Keys && key in a
    requires forall dep :: Orders(a, key, dep) ==> (dep in a[key] <==> dep in b[key])
    ensures d in DepGraph(a)[key] <==> d in DepGraph(b)[key]
  {
    forall dep | d in a && MergedFirst(dep) && Satisfies(dep, key, d) ensures Orders(a, key, dep) {
    }
  }

  /** The dependencies of one package without the one at `n`. */
  function Without(solution: Solution, key: SlotKey, n: nat): Solution
    requires key in solution && n < |solution[key]|
  {
    solution[key := solution[key][..n] + solution[key][n + 1..]]
  }

  /** A post-merge dependency can be left out, and so can one that no other package answers: for
      want of the name, or of the slot it names. */
  lemma OthersCanBeLeftOut(solution: Solution, key: SlotKey, n: nat)
    requires key in solution && n < |solution[key]|
    requires var dep := solution[key][n];
             || dep.depType == PostMerge
             || (forall d :: d in solution && d != key && d.name == dep.name ==>
                   dep.slot != "" && dep.slot != "=" && dep.slot != "*" && d.slot != dep.slot)
    ensures BuildOrder(Without(solution, key, n)) == BuildOrder(solution)
  {
    var fewer := Without(solution, key, n);
    var deps := solution[key];
    assert !Orders(solution, key, deps[n]);
    forall k, dep | k in solution && Orders(solution, k, dep) ensures dep in solution[k] <==> dep in fewer[k] {
      if k == key && dep in deps {
        var i :| 0 <= i < |deps| && deps[i] == dep;
        assert i != n;
        assert if i < n then fewer[key][i] == dep else fewer[key][i - 1] == dep;
      }
    }
    assert fewer.Keys == solution.Keys;
    OnlyOrderingCounts(solution, fewer);
  }

  // ----- and then names and slots decide -----

  /** Where no dependency orders, packages are merged by name, and those of one name by slot. */
  lemma IndependentByName(solution: Solution, i: nat, j: nat)
    requires forall key, dep :: key in solution && dep in solution[key] ==> !Orders(solution, key, dep)
    requires i < j < |BuildOrder(solution)|
    ensures var a, b := BuildOrder(solution)[i], BuildOrder(solution)[j];
            Alphabetical(a.name, b.name) || (a.name == b.name && Alphabetical(a.slot, b.slot))
  {
    hide BuildOrder, DepGraph, Orders, Greedy, NeedsCycle, InDependencyOrder;
    IndependentInOrder(solution);
    OrderOfAnySolution(solution);
    var order := BuildOrder(solution);
    assert order[i] != order[j] && !KeyLess(order[j], order[i]);
    KeyLessTotal();
    LessIsAlphabetical(order[i].name, order[j].name);
    LessIsAlphabetical(order[i].slot, order[j].slot);
  }

  lemma IndependentInOrder(solution: Solution)
    requires forall key, dep :: key in solution && dep in solution[key] ==> !Orders(solution, key, dep)
    ensures InOrder(BuildOrder(solution))
  {
    var g := DepGraph(solution);
    NoEdges(solution);
    hide DepGraph, Greedy, Ascending, Orders, InOrder;
    FlatIsAscending(g, {});
    assert g.Keys - {} == g.Keys;
    EverythingEmitted(g);
    AscendingSorts(g.Keys);
  }

  lemma NoEdges(solution: Solution)
    requires forall key, dep :: key in solution && dep in solution[key] ==> !Orders(solution, key, dep)
    ensures forall key :: key in DepGraph(solution) ==> DepGraph(solution)[key] == {}
  {
    forall key, dep, d | key in solution && d in solution && MergedFirst(dep) && Satisfies(dep, key, d) ensures Orders(solution, key, dep) {
    }
  }

  lemma {:induction false} FlatIsAscending(g: Graph<SlotKey>, done: set<SlotKey>)
    requires forall v :: v in g ==> g[v] == {}
    ensures Greedy(g, done) == Ascending(g.Keys - done)
    decreases |g.Keys - done|
  {
    var ready := Ready(g, done);
    assert ready == g.Keys - done;
    if ready != {} {
      var m := Least(ready);
      assert m in ready;
      assert g.Keys - (done + {m}) == ready - {m};
      SubsetSize(ready - {m}, ready);
      FlatIsAscending(g, done + {m});
    }
  }

  lemma EverythingEmitted(g: Graph<SlotKey>)
    requires Greedy(g, {}) == Ascending(g.Keys)
    ensures Greedy(g, {}) + Ascending(g.Keys - Elems(Greedy(g, {}))) == Ascending(g.Keys)
  {
    AscendingSorts(g.Keys);
    hide Greedy, Ascending;
    var all := Ascending(g.Keys);
    forall k ensures k in all <==> k in g.Keys {
      assert k in all <==> k in multiset(all);
    }
    assert g.Keys - Elems(all) == {};
    NothingAscends();
    assert all + [] == all;
  }

  lemma NothingAscends()
    ensures Ascending({}) == []
  {
  }
}
