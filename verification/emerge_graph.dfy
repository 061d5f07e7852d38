/** The dependency graph of a resolved solution, as the sequential build order sees it. */
module EmergeGraph {
  import opened Digraph
  import opened Kahn
  import opened Ordering

  datatype SlotKey = SlotKey(name: string, slot: string)

  datatype DepType = Runtime | Build | BuildHost | Install | PostMerge

  datatype Constraint = Constraint(name: string, slot: string, depType: DepType)

  /** The packages to merge, each with its dependencies. */
  type Solution = map<SlotKey, seq<Constraint>>

  predicate KeyLess(a: SlotKey, b: SlotKey) {
    if a.name != b.name then StringLess(a.name, b.name) else StringLess(a.slot, b.slot)
  }

  lemma KeyLessTotal()
    ensures StrictTotal(KeyLess)
  {
    forall a, b ensures !(KeyLess(a, b) && KeyLess(b, a)) && (a != b ==> KeyLess(a, b) || KeyLess(b, a)) {
      StringLessTotal(a.name, b.name);
      StringLessTotal(a.slot, b.slot);
    }
    forall x, y, z | KeyLess(x, z)
      ensures KeyLess(x, y) || KeyLess(y, z)
    {
      KeyLessSplits(x, y, z);
    }
  }

  lemma KeyLessSplits(x: SlotKey, y: SlotKey, z: SlotKey)
    requires KeyLess(x, z)
    ensures KeyLess(x, y) || KeyLess(y, z)
  {
    StringLessTotal(x.name, y.name);
    StringLessTotal(y.name, z.name);
    StringLessTotal(x.slot, y.slot);
    StringLessTotal(y.slot, z.slot);
    if !KeyLess(x, y) && !KeyLess(y, z) && x != y && y != z {
      if x.name != y.name && y.name != z.name {
        StringLessTransitive(z.name, y.name, x.name);
      } else if x.name == y.name == z.name {
        StringLessTransitive(z.slot, y.slot, x.slot);
      }
      StringLessTotal(x.name, z.name);
      StringLessTotal(x.slot, z.slot);
    }
  }

  /** The dependency is merged before the dependent: not a post-merge one. */
  predicate MergedFirst(dep: Constraint) {
    dep.depType != PostMerge
  }

  /** `d` can satisfy `dep` for `key`: the name agrees and, if `dep` names a concrete slot
      rather than an operator, so does the slot. */
  predicate Satisfies(dep: Constraint, key: SlotKey, d: SlotKey) {
    && d.name == dep.name
    && d != key
    && (dep.slot != "" && dep.slot != "=" && dep.slot != "*" ==> d.slot == dep.slot)
  }

  /** Who must be merged before whom. */
  ghost function DepGraph(solution: Solution): Graph<SlotKey> {
    map key | key in solution :: set d | d in solution && exists dep :: dep in solution[key] && MergedFirst(dep) && Satisfies(dep, key, d)
  }

  /** The same with multiplicity: one edge for every dependency that `d` satisfies. */
  ghost function EdgesOf(solution: Solution, key: SlotKey, deps: seq<Constraint>): multiset<SlotKey> {
    if deps == [] then multiset{}
    else EdgesOf(solution, key, deps[..|deps| - 1]) + EdgesFor(solution, key, deps[|deps| - 1])
  }

  ghost function EdgesFor(solution: Solution, key: SlotKey, dep: Constraint): multiset<SlotKey> {
    if MergedFirst(dep) then multiset(set d | d in solution && Satisfies(dep, key, d)) else multiset{}
  }

  ghost function AllEdges(solution: Solution): Multi<SlotKey> {
    map key | key in solution :: EdgesOf(solution, key, solution[key])
  }

  lemma {:induction false} EdgesMean(solution: Solution, key: SlotKey, deps: seq<Constraint>, d: SlotKey)
    ensures d in EdgesOf(solution, key, deps) <==>
            d in solution && exists dep :: dep in deps && MergedFirst(dep) && Satisfies(dep, key, d)
  {
    if deps != [] {
      var last := |deps| - 1;
      EdgesMean(solution, key, deps[..last], d);
      assert deps == deps[..last] + [deps[last]];
    }
  }

  lemma GraphOfEdges(solution: Solution)
    ensures Simple(AllEdges(solution)) == DepGraph(solution) && Closed(DepGraph(solution))
  {
    forall key | key in solution
      ensures Simple(AllEdges(solution))[key] == DepGraph(solution)[key]
    {
      forall d ensures d in Simple(AllEdges(solution))[key] <==> d in DepGraph(solution)[key] {
        EdgesMean(solution, key, solution[key], d);
      }
    }
  }

  /** A Go map of slices: a missing key reads as the empty slice. */
  function At(edges: map<SlotKey, seq<SlotKey>>, k: SlotKey): seq<SlotKey> {
    if k in edges then edges[k] else []
  }

  ghost function Succs(solution: Solution, edges: map<SlotKey, seq<SlotKey>>): map<SlotKey, seq<SlotKey>> {
    map k | k in solution :: At(edges, k)
  }

  ghost predicate Indexed(solution: Solution, nameIndex: map<string, seq<SlotKey>>) {
    && (forall n, k :: n in nameIndex && k in nameIndex[n] ==> k in solution && k.name == n)
    && (forall k :: k in solution ==> k.name in nameIndex && k in nameIndex[k.name])
    && (forall n :: n in nameIndex ==> NoDup(nameIndex[n]))
  }

  function Candidates(nameIndex: map<string, seq<SlotKey>>, name: string): seq<SlotKey> {
    if name in nameIndex then nameIndex[name] else []
  }

  lemma CandidatesAre(solution: Solution, nameIndex: map<string, seq<SlotKey>>, name: string)
    requires Indexed(solution, nameIndex)
    ensures NoDup(Candidates(nameIndex, name))
    ensures forall d :: d in Candidates(nameIndex, name) <==> d in solution && d.name == name
  {
  }

  /** The keys of every name; the range over the solution is in no particular order. */
  method IndexByName(solution: Solution) returns (nameIndex: map<string, seq<SlotKey>>)
    ensures Indexed(solution, nameIndex)
  {
    nameIndex := map[];
    var todo := solution.Keys;
    while todo != {}
      invariant todo <= solution.Keys
      invariant forall n, k :: n in nameIndex && k in nameIndex[n] ==> k in solution && k !in todo && k.name == n
      invariant forall k :: k in solution && k !in todo ==> k.name in nameIndex && k in nameIndex[k.name]
      invariant forall n :: n in nameIndex ==> NoDup(nameIndex[n])
      decreases todo
    {
      var key :| key in todo;
      nameIndex := nameIndex[key.name := (if key.name in nameIndex then nameIndex[key.name] else []) + [key]];
      todo := todo - {key};
    }
  }

  /** The candidates that satisfy `dep`. */
  ghost function Chosen(candidates: seq<SlotKey>, key: SlotKey, dep: Constraint): set<SlotKey> {
    set d | d in candidates && Satisfies(dep, key, d)
  }

  lemma ChosenStep(candidates: seq<SlotKey>, i: nat, key: SlotKey, dep: Constraint)
    requires NoDup(candidates) && i < |candidates|
    ensures var before, after := Chosen(candidates[..i], key, dep), Chosen(candidates[..i + 1], key, dep);
            multiset(after) == if Satisfies(dep, key, candidates[i]) then multiset(before) + multiset{candidates[i]} else multiset(before)
  {
    hide Satisfies;
    var before, after := Chosen(candidates[..i], key, dep), Chosen(candidates[..i + 1], key, dep);
    assert candidates[..i + 1] == candidates[..i] + [candidates[i]];
    assert candidates[i] !in candidates[..i];
    if Satisfies(dep, key, candidates[i]) {
      assert after == before + {candidates[i]};
    } else {
      assert after == before;
    }
  }

  lemma ChosenAll(solution: Solution, candidates: seq<SlotKey>, key: SlotKey, dep: Constraint)
    requires MergedFirst(dep) && forall d :: d in candidates <==> d in solution && d.name == dep.name
    ensures multiset(Chosen(candidates, key, dep)) == EdgesFor(solution, key, dep)
  {
    assert Chosen(candidates, key, dep) == set d | d in solution && Satisfies(dep, key, d);
  }

  /** Adds the edges of one dependency of `key`. */
  method AddEdges(solution: Solution, key: SlotKey, dep: Constraint, candidates: seq<SlotKey>, inDegree0: map<SlotKey, int>,
                  edges0: map<SlotKey, seq<SlotKey>>, ghost preds: Multi<SlotKey>)
    returns (inDegree: map<SlotKey, int>, edges: map<SlotKey, seq<SlotKey>>, ghost preds': Multi<SlotKey>)
    requires key in solution && MergedFirst(dep)
    requires NoDup(candidates) && forall d :: d in candidates <==> d in solution && d.name == dep.name
    requires Agree(solution, inDegree0, edges0, preds)
    ensures Agree(solution, inDegree, edges, preds')
    ensures key in preds && preds' == preds[key := preds[key] + EdgesFor(solution, key, dep)]
  {
    hide Agree, NoDup, Chosen, At, EdgesFor;
    inDegree, edges, preds' := inDegree0, edges0, preds;
    AgreeKnows(solution, inDegree, edges, preds, key);
    var isOperator := dep.slot == "=" || dep.slot == "*";
    assert candidates[..0] == [];
    ChosenNone(key, dep);
    ghost var mine := preds[key];
    var i := 0;
    while i < |candidates|
      invariant i <= |candidates|
      invariant Agree(solution, inDegree, edges, preds')
      invariant preds' == preds[key := mine]
      invariant mine == preds[key] + multiset(Chosen(candidates[..i], key, dep))
    {
      var depKey := candidates[i];
      ChosenStep(candidates, i, key, dep);
      i := i + 1;
      if depKey == key {
        continue;
      }
      if dep.slot != "" && !isOperator && depKey.slot != dep.slot {
        continue;
      }
      assert Satisfies(dep, key, depKey);
      hide Satisfies;
      AgreeKnows(solution, inDegree, edges, preds', key);
      AgreeAdd(solution, inDegree, edges, preds', key, depKey);
      edges := edges[depKey := At(edges, depKey) + [key]];
      inDegree := inDegree[key := inDegree[key] + 1];
      mine := mine + multiset{depKey};
      preds' := preds'[key := mine];
    }
    assert candidates[..i] == candidates;
    ChosenAll(solution, candidates, key, dep);
  }

  lemma ChosenNone(key: SlotKey, dep: Constraint)
    ensures Chosen([], key, dep) == {}
  {
  }

  /** The two result maps describe the edges recorded so far. */
  ghost predicate Agree(solution: Solution, inDegree: map<SlotKey, int>, edges: map<SlotKey, seq<SlotKey>>, preds: Multi<SlotKey>) {
    && inDegree.Keys == preds.Keys == solution.Keys
    && (forall k :: k in solution ==> inDegree[k] == |preds[k]|)
    && Mirror(preds, Succs(solution, edges))
  }

  lemma AgreeKnows(solution: Solution, inDegree: map<SlotKey, int>, edges: map<SlotKey, seq<SlotKey>>, preds: Multi<SlotKey>, key: SlotKey)
    requires Agree(solution, inDegree, edges, preds) && key in solution
    ensures key in inDegree && key in preds
  {
    hide Mirror;
  }

  lemma SuccsAdd(solution: Solution, edges: map<SlotKey, seq<SlotKey>>, key: SlotKey, d: SlotKey)
    requires d in solution
    ensures Succs(solution, edges[d := At(edges, d) + [key]]) == Succs(solution, edges)[d := Succs(solution, edges)[d] + [key]]
  {
  }

  lemma DegreeAdd(inDegree: map<SlotKey, int>, preds: Multi<SlotKey>, key: SlotKey, d: SlotKey)
    requires inDegree.Keys == preds.Keys && key in preds && forall k :: k in preds ==> inDegree[k] == |preds[k]|
    ensures var inDegree', preds' := inDegree[key := inDegree[key] + 1], preds[key := preds[key] + multiset{d}];
            inDegree'.Keys == preds'.Keys == preds.Keys && forall k :: k in preds ==> inDegree'[k] == |preds'[k]|
  {
  }

  lemma AgreeAdd(solution: Solution, inDegree: map<SlotKey, int>, edges: map<SlotKey, seq<SlotKey>>, preds: Multi<SlotKey>,
                 key: SlotKey, d: SlotKey)
    requires Agree(solution, inDegree, edges, preds) && key in solution && d in solution
    ensures key in inDegree && key in preds
    ensures Agree(solution, inDegree[key := inDegree[key] + 1], edges[d := At(edges, d) + [key]],
                  preds[key := preds[key] + multiset{d}])
  {
    hide Mirror, Succs, At;
    DegreeAdd(inDegree, preds, key, d);
    MirrorAddEdge(preds, Succs(solution, edges), key, d);
    SuccsAdd(solution, edges, key, d);
  }

  lemma Overwrite(preds: Multi<SlotKey>, preds': Multi<SlotKey>, key: SlotKey, mine: multiset<SlotKey>, more: multiset<SlotKey>)
    requires preds' == preds[key := mine]
    ensures preds'[key := mine + more] == preds[key := mine + more]
  {
  }

  lemma EdgesOfStep(solution: Solution, key: SlotKey, deps: seq<Constraint>, j: nat)
    requires j < |deps|
    ensures EdgesOf(solution, key, deps[..j + 1]) == EdgesOf(solution, key, deps[..j]) + EdgesFor(solution, key, deps[j])
    ensures !MergedFirst(deps[j]) ==> EdgesFor(solution, key, deps[j]) == multiset{}
  {
    assert deps[..j + 1][..j] == deps[..j];
  }

  /** Adds the edges of all dependencies of `key`. */
  method AddPackage(solution: Solution, key: SlotKey, nameIndex: map<string, seq<SlotKey>>, inDegree0: map<SlotKey, int>,
                    edges0: map<SlotKey, seq<SlotKey>>, ghost preds: Multi<SlotKey>)
    returns (inDegree: map<SlotKey, int>, edges: map<SlotKey, seq<SlotKey>>, ghost preds': Multi<SlotKey>)
    requires key in solution
    requires Indexed(solution, nameIndex)
    requires Agree(solution, inDegree0, edges0, preds) && key in preds && preds[key] == multiset{}
    ensures Agree(solution, inDegree, edges, preds')
    ensures preds' == preds[key := EdgesOf(solution, key, solution[key])]
  {
    hide Agree, Satisfies, NoDup, At, Indexed, Candidates;
    inDegree, edges, preds' := inDegree0, edges0, preds;
    assert EdgesOf(solution, key, []) == multiset{};
    hide EdgesOf, EdgesFor;
    var deps := solution[key];
    var j := 0;
    while j < |deps|
      invariant j <= |deps|
      invariant Agree(solution, inDegree, edges, preds')
      invariant preds' == preds[key := EdgesOf(solution, key, deps[..j])]
    {
      var dep := deps[j];
      EdgesOfStep(solution, key, deps, j);
      ghost var mine := EdgesOf(solution, key, deps[..j]);
      assert preds'[key] == mine;
      j := j + 1;
      if dep.depType == PostMerge {
        assert EdgesOf(solution, key, deps[..j]) == mine;
        continue;
      }
      CandidatesAre(solution, nameIndex, dep.name);
      ghost var predsBefore := preds';
      inDegree, edges, preds' := AddEdges(solution, key, dep, Candidates(nameIndex, dep.name), inDegree, edges, preds');
      Overwrite(preds, predsBefore, key, mine, EdgesFor(solution, key, dep));
    }
    assert deps[..j] == deps;
  }

  /** The packages outside `todo` have their edges. */
  ghost predicate Recorded(solution: Solution, preds: Multi<SlotKey>, todo: set<SlotKey>) {
    && todo <= solution.Keys && preds.Keys == solution.Keys
    && forall k :: k in solution ==> preds[k] == if k in todo then multiset{} else EdgesOf(solution, k, solution[k])
  }

  lemma RecordedNext(solution: Solution, preds: Multi<SlotKey>, todo: set<SlotKey>, key: SlotKey)
    requires Recorded(solution, preds, todo) && key in todo
    ensures key in solution && key in preds && preds[key] == multiset{}
    ensures Recorded(solution, preds[key := EdgesOf(solution, key, solution[key])], todo - {key})
  {
    hide EdgesOf;
  }

  lemma RecordedAll(solution: Solution, preds: Multi<SlotKey>)
    requires Recorded(solution, preds, {})
    ensures preds == AllEdges(solution)
  {
    hide EdgesOf;
  }

  /** The edges of the whole solution; the range over it is in no particular order. */
  method BuildDepEdges(solution: Solution) returns (inDegree: map<SlotKey, int>, edges: map<SlotKey, seq<SlotKey>>)
    ensures Agree(solution, inDegree, edges, AllEdges(solution))
  {
    hide Mirror, Satisfies, EdgesOf, Agree, NoDup, At, AllEdges, Indexed;
    var nameIndex := IndexByName(solution);
    inDegree := map key | key in solution :: 0;
    edges := map[];
    ghost var preds: Multi<SlotKey> := map key | key in solution :: multiset{};
    AgreeEmpty(solution, inDegree, edges, preds);
    var todo := solution.Keys;
    assert Recorded(solution, preds, todo);
    hide Recorded;
    while todo != {}
      invariant Recorded(solution, preds, todo) && Agree(solution, inDegree, edges, preds)
      decreases todo
    {
      var key :| key in todo;
      RecordedNext(solution, preds, todo, key);
      inDegree, edges, preds := AddPackage(solution, key, nameIndex, inDegree, edges, preds);
      todo := todo - {key};
    }
    RecordedAll(solution, preds);
  }

  lemma AgreeEmpty(solution: Solution, inDegree: map<SlotKey, int>, edges: map<SlotKey, seq<SlotKey>>, preds: Multi<SlotKey>)
    requires edges == map[] && inDegree.Keys == preds.Keys == solution.Keys
    requires forall k :: k in solution ==> inDegree[k] == 0 && preds[k] == multiset{}
    ensures Agree(solution, inDegree, edges, preds)
  {
  }
}
