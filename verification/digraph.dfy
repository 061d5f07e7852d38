/** Finite directed graphs given by predecessor sets: `g[v]` holds the nodes that
    `v` depends on. Paths run from a node towards its dependencies. */
module Digraph {

  type Graph<!V(==)> = map<V, set<V>>

  ghost predicate Closed<V(!new)>(g: Graph<V>) {
    forall v :: v in g ==> g[v] <= g.Keys
  }

  ghost predicate Path<V(!new)>(g: Graph<V>, p: seq<V>) {
    && |p| > 0
    && (forall i :: 0 <= i < |p| ==> p[i] in g)
    && (forall i :: 0 <= i < |p| - 1 ==> p[i + 1] in g[p[i]])
  }

  ghost predicate PathFromTo<V(!new)>(g: Graph<V>, p: seq<V>, a: V, b: V) {
    Path(g, p) && p[0] == a && p[|p| - 1] == b
  }

  /** `b` is a direct or transitive dependency of `a`. */
  ghost predicate DependsOn<V(!new)>(g: Graph<V>, a: V, b: V) {
    exists p :: PathFromTo(g, p, a, b) && |p| >= 2
  }

  ghost predicate OnCycle<V(!new)>(g: Graph<V>, v: V) {
    DependsOn(g, v, v)
  }

  ghost predicate Acyclic<V(!new)>(g: Graph<V>) {
    forall v :: v in g ==> !OnCycle(g, v)
  }

  /** `v` lies on a cycle or depends, directly or not, on a node that does. */
  ghost predicate NeedsCycle<V(!new)>(g: Graph<V>, v: V) {
    exists u :: (u == v || DependsOn(g, v, u)) && OnCycle(g, u)
  }

  function Elems<V(==,!new)>(s: seq<V>): (r: set<V>)
    ensures forall x :: x in r <==> x in s
  {
    set x | x in s
  }

  ghost predicate NoDup<V(!new)>(s: seq<V>) {
    forall i, j :: 0 <= i < j < |s| ==> s[i] != s[j]
  }

  /** Every element of the list is a node that comes after all its dependencies. */
  ghost predicate InDependencyOrder<V(!new)>(g: Graph<V>, order: seq<V>) {
    && (forall i :: 0 <= i < |order| ==> order[i] in g)
    && (forall i, d :: 0 <= i < |order| && d in g[order[i]] ==> d in order[..i])
  }

  /** A permutation of the nodes with every dependency before its dependents. */
  ghost predicate LinearExtension<V(!new)>(g: Graph<V>, order: seq<V>) {
    NoDup(order) && Elems(order) == g.Keys && InDependencyOrder(g, order)
  }

  // ----- sequences without repetition -----

  lemma {:induction false} NoDupSize<V(!new)>(s: seq<V>)
    requires NoDup(s)
    ensures |Elems(s)| == |s|
  {
    if s != [] {
      var rest, last := s[..|s| - 1], s[|s| - 1];
      NoDupSize(rest);
      assert s == rest + [last] && last !in rest;
      hide NoDup;
      assert Elems(s) == Elems(rest) + {last};
    }
  }

  lemma NoDupFits<V(!new)>(s: seq<V>, bound: set<V>)
    requires NoDup(s) && Elems(s) <= bound
    ensures |s| <= |bound|
    ensures |s| == |bound| ==> Elems(s) == bound
  {
    NoDupSize(s);
    SubsetSize(Elems(s), bound);
  }

  lemma SubsetSize<V>(a: set<V>, b: set<V>)
    requires a <= b
    ensures |a| <= |b|
    ensures |a| == |b| ==> a == b
  {
    assert b == a + (b - a);
    assert |b| == |a| + |b - a|;
  }

  lemma NoDupMultiset<V(!new)>(s: seq<V>)
    ensures NoDup(s) <==> forall x :: multiset(s)[x] <= 1
  {
    if NoDup(s) {
      forall x ensures multiset(s)[x] <= 1 {
        NoDupCount(s, x);
      }
    } else {
      var i, j :| 0 <= i < j < |s| && s[i] == s[j];
      assert s == s[..j] + s[j..];
      assert s[i] in s[..j] && s[j] in s[j..];
      assert multiset(s)[s[i]] >= 2;
    }
  }

  lemma {:induction false} NoDupCount<V(!new)>(s: seq<V>, x: V)
    requires NoDup(s)
    ensures multiset(s)[x] <= 1
  {
    if s != [] {
      var rest := s[..|s| - 1];
      NoDupCount(rest, x);
      assert s == rest + [s[|s| - 1]];
      if s[|s| - 1] == x {
        assert x !in rest;
      }
    }
  }

  // ----- paths -----

  /** A dependency of what `a` depends on is one that `a` depends on. */
  lemma DependsFurther<V(!new)>(g: Graph<V>, a: V, r: V, d: V)
    requires r == a || DependsOn(g, a, r)
    requires r in g && d in g && d in g[r]
    ensures DependsOn(g, a, d)
  {
    var p := [r];
    if r != a {
      p :| PathFromTo(g, p, a, r) && |p| >= 2;
    }
    var q := p + [d];
    assert PathFromTo(g, q, a, d);
  }

  /** What depends on a dependent of `b` depends on `b`. */
  lemma DependsBefore<V(!new)>(g: Graph<V>, a: V, e: V, b: V)
    requires a in g && e in g && e in g[a] && DependsOn(g, e, b)
    ensures DependsOn(g, a, b)
  {
    var p :| PathFromTo(g, p, e, b) && |p| >= 2;
    var q := [a] + p;
    forall i | 0 <= i < |q| - 1 ensures q[i + 1] in g[q[i]] {
      if i > 0 {
        assert p[i - 1 + 1] in g[p[i - 1]];
      }
    }
    assert PathFromTo(g, q, a, b);
  }

  /** Whatever is depended on at all is depended on directly. */
  lemma LastEdge<V(!new)>(g: Graph<V>, a: V, b: V) returns (x: V)
    requires DependsOn(g, a, b)
    ensures x in g && b in g[x]
  {
    var p :| PathFromTo(g, p, a, b) && |p| >= 2;
    x := p[|p| - 2];
    assert p[|p| - 2 + 1] in g[p[|p| - 2]];
  }

  /** A set that contains the dependencies of its members contains everything
      its members depend on. */
  lemma {:induction false} ClosedUnderPaths<V(!new)>(g: Graph<V>, s: set<V>, p: seq<V>)
    requires Path(g, p) && p[0] in s
    requires forall v :: v in s && v in g ==> g[v] <= s
    ensures forall i :: 0 <= i < |p| ==> p[i] in s
    decreases |p|
  {
    if |p| > 1 {
      assert p[0 + 1] in g[p[0]];
      forall i | 0 <= i < |p| - 1
        ensures p[1..][i] in g
      {
        assert p[1..][i] == p[i + 1];
      }
      forall i | 0 <= i < |p| - 2
        ensures p[1..][i + 1] in g[p[1..][i]]
      {
        assert p[1..][i] == p[i + 1] && p[1..][i + 1] == p[i + 1 + 1];
      }
      ClosedUnderPaths(g, s, p[1..]);
      forall i | 0 <= i < |p|
        ensures p[i] in s
      {
        if i > 0 {
          assert p[i] == p[1..][i - 1];
        }
      }
    }
  }

  // ----- lists in dependency order have no cycles below them -----

  lemma {:induction false} PathDescends<V(!new)>(g: Graph<V>, order: seq<V>, p: seq<V>, at: nat) returns (end: nat)
    requires InDependencyOrder(g, order) && Path(g, p)
    requires at < |order| && order[at] == p[0]
    ensures end < |order| && order[end] == p[|p| - 1]
    ensures |p| >= 2 ==> end < at
    ensures end <= at
    decreases |p|
  {
    if |p| == 1 {
      end := at;
    } else {
      assert p[0 + 1] in g[p[0]];
      assert p[1] in order[..at];
      var next :| 0 <= next < at && order[next] == p[1];
      forall i | 0 <= i < |p| - 2
        ensures p[1..][i + 1] in g[p[1..][i]]
      {
        assert p[1..][i] == p[i + 1] && p[1..][i + 1] == p[i + 1 + 1];
      }
      end := PathDescends(g, order, p[1..], next);
    }
  }

  lemma CycleNeedsItself<V(!new)>(g: Graph<V>, v: V)
    ensures OnCycle(g, v) ==> NeedsCycle(g, v)
  {
  }

  lemma OrderedNeedsNoCycle<V(!new)>(g: Graph<V>, order: seq<V>, v: V)
    requires InDependencyOrder(g, order) && NoDup(order) && v in order
    ensures !NeedsCycle(g, v)
  {
    if NeedsCycle(g, v) {
      var u :| (u == v || DependsOn(g, v, u)) && OnCycle(g, u);
      var at :| 0 <= at < |order| && order[at] == v;
      if u != v {
        var p :| PathFromTo(g, p, v, u) && |p| >= 2;
        at := PathDescends(g, order, p, at);
      }
      var c :| PathFromTo(g, c, u, u) && |c| >= 2;
      var end := PathDescends(g, order, c, at);
      assert false;
    }
  }

  // ----- a set in which every node has a dependency holds a cycle -----

  ghost predicate HasDependencyIn<V(!new)>(g: Graph<V>, v: V, s: set<V>)
    requires v in g
  {
    exists d :: d in g[v] && d in s
  }

  lemma {:induction false} Walk<V(!new)>(g: Graph<V>, stuck: set<V>, v: V, n: nat) returns (p: seq<V>)
    requires stuck <= g.Keys && v in stuck
    requires forall u :: u in stuck ==> HasDependencyIn(g, u, stuck)
    ensures Path(g, p) && p[0] == v && |p| == n + 1
    ensures forall i :: 0 <= i < |p| ==> p[i] in stuck
  {
    if n == 0 {
      p := [v];
    } else {
      var q := Walk(g, stuck, v, n - 1);
      assert q[|q| - 1] in stuck;
      var d :| d in g[q[|q| - 1]] && d in stuck;
      p := q + [d];
    }
  }

  lemma StuckNeedsCycle<V(!new)>(g: Graph<V>, stuck: set<V>, v: V)
    requires stuck <= g.Keys && v in stuck
    requires forall u :: u in stuck ==> HasDependencyIn(g, u, stuck)
    ensures NeedsCycle(g, v)
  {
    var p := Walk(g, stuck, v, |stuck|);
    if NoDup(p) {
      assert Elems(p) <= stuck;
      NoDupFits(p, stuck);
      assert false;
    } else {
      var i, j :| 0 <= i < j < |p| && p[i] == p[j];
      var u := p[i];
      var c, q := p[i..j + 1], p[..i + 1];
      assert PathFromTo(g, c, u, u) && |c| >= 2;
      assert OnCycle(g, u);
      if i > 0 {
        assert PathFromTo(g, q, v, u) && |q| >= 2;
      }
    }
  }

  /** Some node is a minimal one outside `done`, unless everything outside needs a cycle. */
  lemma AcyclicHasReady<V(!new)>(g: Graph<V>, done: set<V>, v: V) returns (r: V)
    requires Closed(g) && v in g && v !in done && !NeedsCycle(g, v)
    ensures r in g && r !in done && g[r] <= done
  {
    var stuck := g.Keys - done;
    if u :| u in stuck && !HasDependencyIn(g, u, stuck) {
      r := u;
      forall d | d in g[r] ensures d in done {
        assert d !in stuck;
      }
    } else {
      StuckNeedsCycle(g, stuck, v);
      assert false;
    }
  }

  lemma AcyclicMeansNoNeed<V(!new)>(g: Graph<V>)
    ensures Acyclic(g) <==> forall v :: v in g ==> !NeedsCycle(g, v)
  {
    forall v | NeedsCycle(g, v) ensures !Acyclic(g) {
      var u :| (u == v || DependsOn(g, v, u)) && OnCycle(g, u);
      assert u in g;
    }
    if !Acyclic(g) {
      var v :| v in g && OnCycle(g, v);
      assert NeedsCycle(g, v);
    }
  }
}
