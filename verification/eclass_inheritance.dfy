/** What the interpreter's eclass loader achieves: when it ends, when it succeeds, and in which
    order it lists the eclasses. */
module EclassInheritance {
  import opened Digraph
  import opened Registry
  import opened Wrappers
  import opened EclassPostorder
  import Dynamic = EclassDynamic

  function NamesIn(steps: seq<Step>): seq<Eclass> {
    if steps == [] then []
    else match steps[0]
      case Load(name) => [name] + NamesIn(steps[1..])
      case Export(_) => NamesIn(steps[1..])
  }

  function Calls(commands: seq<Command>): seq<seq<Eclass>> {
    if commands == [] then []
    else match commands[0]
      case Inherit(names) => [names] + Calls(commands[1..])
      case ExportFunctions(_) => Calls(commands[1..])
  }

  /** The same sources as the dynamic loader sees them. */
  function AsFiles(files: Sources): Dynamic.Files {
    map e | e in files :: Dynamic.File(files[e].path, Calls(files[e].commands))
  }

  function Wanted(files: Sources, e: Eclass): seq<Eclass> {
    Dynamic.Inherits(AsFiles(files), e)
  }

  function InheritGraph(files: Sources): Graph<Eclass> {
    map e | e in files :: Elems(Wanted(files, e))
  }

  /** `x` is one of `names` or inherited by them, directly or not. */
  ghost predicate Needs(files: Sources, names: seq<Eclass>, x: Eclass) {
    Dynamic.Reachable(AsFiles(files), names, [], x)
  }

  predicate ExportsNothing(steps: seq<Step>) {
    forall s :: s in steps ==> s.Load?
  }

  /** The eclass has a file, and it does not export functions under the empty name. */
  predicate CanSource(files: Sources, e: Eclass) {
    e in files && (e == Eclass("") ==> ExportsNothing(Steps(files[e].commands)))
  }

  // ----- commands and steps name the same eclasses -----

  lemma NamesInBoth(a: seq<Step>, b: seq<Step>)
    ensures NamesIn(a + b) == NamesIn(a) + NamesIn(b)
  {
    if a == [] {
      assert a + b == b;
    } else {
      assert (a + b)[1..] == a[1..] + b;
      NamesInBoth(a[1..], b);
    }
  }

  lemma {:induction false} NamesInLoads(names: seq<Eclass>)
    ensures NamesIn(Loads(names)) == names && ExportsNothing(Loads(names))
  {
    if names != [] {
      NamesInLoads(names[1..]);
      assert Loads(names)[1..] == Loads(names[1..]);
    }
  }

  lemma {:induction false} NamesInExports(phases: seq<Phase>)
    ensures NamesIn(Exports(phases)) == []
  {
    if phases != [] {
      NamesInExports(phases[1..]);
      assert Exports(phases)[1..] == Exports(phases[1..]);
    }
  }

  lemma {:induction false} NamesInSteps(commands: seq<Command>)
    ensures NamesIn(Steps(commands)) == Dynamic.Flatten(Calls(commands))
  {
    if commands != [] {
      NamesInBoth(StepsOf(commands[0]), Steps(commands[1..]));
      NamesInSteps(commands[1..]);
      match commands[0]
      case Inherit(names) =>
        NamesInLoads(names);
        assert Calls(commands)[1..] == Calls(commands[1..]);
      case ExportFunctions(phases) => NamesInExports(phases);
    }
  }

  lemma NamesInSource(files: Sources, e: Eclass)
    requires e in files
    ensures NamesIn(Steps(files[e].commands)) == Wanted(files, e)
    ensures InheritGraph(files)[e] == Elems(Wanted(files, e))
  {
    NamesInSteps(files[e].commands);
  }

  // ----- every eclass after what it inherits -----

  ghost predicate Settled(files: Sources, inherited: seq<Eclass>) {
    && NoDup(inherited)
    && InDependencyOrder(InheritGraph(files), inherited)
    && forall x :: x in inherited ==> CanSource(files, x)
  }

  lemma SettledMore(files: Sources, inherited: seq<Eclass>, e: Eclass)
    requires Settled(files, inherited) && CanSource(files, e)
    requires forall n :: n in Wanted(files, e) ==> n in inherited
    ensures Settled(files, Added(inherited, e))
  {
    hide Wanted;
    var g := InheritGraph(files);
    var more := Added(inherited, e);
    forall i, d | 0 <= i < |more| && d in g[more[i]] ensures d in more[..i] {
      if i < |inherited| {
        assert more[..i] == inherited[..i];
      } else {
        assert more[..i] == inherited;
      }
    }
  }

  lemma {:induction false} RunSettles(files: Sources, fuel: nat, reg: Contents, current: Eclass, steps: seq<Step>)
    requires Settled(files, reg.inherited) && Run(files, fuel, reg, current, steps).Some?
    ensures var (ok, last) := Run(files, fuel, reg, current, steps).value;
            && Settled(files, last.inherited) && reg.inherited <= last.inherited
            && (ok ==> (forall n :: n in NamesIn(steps) ==> n in last.inherited))
            && (ok && current == Eclass("") ==> ExportsNothing(steps))
    decreases fuel, |steps|
  {
    hide Settled, Steps;
    if steps != [] {
      match steps[0]
      case Export(phase) =>
        if current != Eclass("") {
          RunSettles(files, fuel, reg.(exported := reg.exported[phase := current]), current, steps[1..]);
        }
      case Load(name) =>
        if name in reg.inherited {
          RunSettles(files, fuel, reg, current, steps[1..]);
        } else if name in files {
          var commands := Steps(files[name].commands);
          NamesInSource(files, name);
          RunSettles(files, fuel - 1, reg, name, commands);
          var (ok, inner) := Run(files, fuel - 1, reg, name, commands).value;
          if ok {
            SettledMore(files, inner.inherited, name);
            var next := inner.(inherited := Added(inner.inherited, name));
            RunSettles(files, fuel, next, current, steps[1..]);
            var last := Run(files, fuel, next, current, steps[1..]).value.1;
            assert name in next.inherited && next.inherited <= last.inherited;
          }
        }
    }
  }

  // ----- only what is needed -----

  lemma NeedsMore(files: Sources, names: seq<Eclass>, more: seq<Eclass>, x: Eclass)
    requires Needs(files, names, x) && forall n :: n in names ==> n in more
    ensures Needs(files, more, x)
  {
    Dynamic.ReachableMore(AsFiles(files), names, more, [], [], x);
  }

  lemma NeedsFirst(files: Sources, names: seq<Eclass>, e: Eclass)
    requires e in names
    ensures Needs(files, names, e)
  {
    assert Dynamic.ChainTo(AsFiles(files), names, [], e, [e]);
  }

  lemma NeedsThrough(files: Sources, names: seq<Eclass>, e: Eclass, x: Eclass)
    requires e in names && Needs(files, Wanted(files, e), x)
    ensures Needs(files, names, x)
  {
    var f := AsFiles(files);
    var p :| Dynamic.ChainTo(f, Wanted(files, e), [], x, p);
    var q := [e] + p;
    forall i | 0 <= i < |q| - 1 ensures q[i + 1] in Dynamic.Inherits(f, q[i]) {
      if i > 0 {
        assert q[i] == p[i - 1] && q[i + 1] == p[i - 1 + 1];
      }
    }
    assert Dynamic.ChainTo(f, names, [], x, q);
  }

  ghost predicate Blocked(files: Sources, names: seq<Eclass>) {
    exists x :: Needs(files, names, x) && !CanSource(files, x)
  }

  lemma BlockedMore(files: Sources, names: seq<Eclass>, more: seq<Eclass>)
    requires Blocked(files, names) && forall n :: n in names ==> n in more
    ensures Blocked(files, more)
  {
    var x :| Needs(files, names, x) && !CanSource(files, x);
    NeedsMore(files, names, more, x);
  }

  lemma BlockedThrough(files: Sources, names: seq<Eclass>, e: Eclass)
    requires e in names && Blocked(files, Wanted(files, e))
    ensures Blocked(files, names)
  {
    var x :| Needs(files, Wanted(files, e), x) && !CanSource(files, x);
    NeedsThrough(files, names, e, x);
  }

  lemma {:induction false} RunNeeds(files: Sources, fuel: nat, reg: Contents, current: Eclass, steps: seq<Step>, x: Eclass)
    requires Run(files, fuel, reg, current, steps).Some?
    ensures var (ok, last) := Run(files, fuel, reg, current, steps).value;
            && (x in last.inherited && x !in reg.inherited ==> Needs(files, NamesIn(steps), x))
            && (!ok && (current == Eclass("") ==> ExportsNothing(steps)) ==> Blocked(files, NamesIn(steps)))
    decreases fuel, |steps|
  {
    hide Needs, Blocked, Steps;
    if steps != [] {
      var names := NamesIn(steps);
      match steps[0]
      case Export(phase) =>
        if current != Eclass("") {
          RunNeeds(files, fuel, reg.(exported := reg.exported[phase := current]), current, steps[1..], x);
        }
      case Load(name) =>
        if name in reg.inherited {
          RunNeeds(files, fuel, reg, current, steps[1..], x);
          RestNeeds(files, steps, x);
        } else if name in files {
          var commands := Steps(files[name].commands);
          NamesInSource(files, name);
          RunNeeds(files, fuel - 1, reg, name, commands, x);
          ThroughSource(files, names, name, x);
          var (ok, inner) := Run(files, fuel - 1, reg, name, commands).value;
          if ok {
            var next := inner.(inherited := Added(inner.inherited, name));
            RunNeeds(files, fuel, next, current, steps[1..], x);
            RestNeeds(files, steps, x);
          }
        } else {
          CannotSource(files, names, name);
        }
    }
  }

  lemma RestNeeds(files: Sources, steps: seq<Step>, x: Eclass)
    requires steps != [] && steps[0].Load?
    ensures Needs(files, NamesIn(steps[1..]), x) ==> Needs(files, NamesIn(steps), x)
    ensures Blocked(files, NamesIn(steps[1..])) ==> Blocked(files, NamesIn(steps))
  {
    hide Needs, Blocked;
    var rest := NamesIn(steps[1..]);
    if Needs(files, rest, x) { NeedsMore(files, rest, NamesIn(steps), x); }
    if Blocked(files, rest) { BlockedMore(files, rest, NamesIn(steps)); }
  }

  lemma ThroughSource(files: Sources, names: seq<Eclass>, e: Eclass, x: Eclass)
    requires e in names && e in files
    ensures Needs(files, names, e)
    ensures Needs(files, Wanted(files, e), x) ==> Needs(files, names, x)
    ensures Blocked(files, Wanted(files, e)) ==> Blocked(files, names)
    ensures !CanSource(files, e) ==> Blocked(files, names)
  {
    NeedsFirst(files, names, e);
    if Needs(files, Wanted(files, e), x) { NeedsThrough(files, names, e, x); }
    if Blocked(files, Wanted(files, e)) { BlockedThrough(files, names, e); }
  }

  lemma CannotSource(files: Sources, names: seq<Eclass>, e: Eclass)
    requires e in names && e !in files
    ensures Blocked(files, names)
  {
    NeedsFirst(files, names, e);
  }

  // ----- without a cycle the nesting is bounded by the number of files -----

  /** The sources being run, each inherited by the one before it. */
  ghost predicate Stack(files: Sources, names: seq<Eclass>, open: seq<Eclass>) {
    && NoDup(open) && Elems(open) <= files.Keys
    && (open != [] ==> Dynamic.Chain(AsFiles(files), open) && open[0] in names)
  }

  function WantedBy(files: Sources, names: seq<Eclass>, open: seq<Eclass>): seq<Eclass> {
    if open == [] then names else Wanted(files, open[|open| - 1])
  }

  ghost predicate NoCycle(files: Sources, names: seq<Eclass>) {
    forall x :: Needs(files, names, x) ==> !OnCycle(InheritGraph(files), x)
  }

  lemma StackGrows(files: Sources, names: seq<Eclass>, open: seq<Eclass>, e: Eclass)
    requires Stack(files, names, open) && NoCycle(files, names)
    requires e in files && e in WantedBy(files, names, open)
    ensures Stack(files, names, open + [e]) && |open| < |files|
  {
    hide OnCycle;
    var f := AsFiles(files);
    var p := open + [e];
    forall i | 0 <= i < |p| - 1 ensures p[i + 1] in Dynamic.Inherits(f, p[i]) {
      if i < |open| - 1 {
        assert open[i + 1] in Dynamic.Inherits(f, open[i]);
      }
    }
    assert Dynamic.ChainTo(f, names, [], e, p);
    assert Needs(files, names, e);
    if e in open {
      var k :| 0 <= k < |open| && open[k] == e;
      ChainCycle(files, p, k);
    } else {
      NoDupFits(p, files.Keys);
    }
  }

  lemma ChainCycle(files: Sources, p: seq<Eclass>, k: nat)
    requires Dynamic.Chain(AsFiles(files), p) && k < |p| - 1 && p[k] == p[|p| - 1]
    requires Elems(p) <= files.Keys
    ensures OnCycle(InheritGraph(files), p[k])
  {
    var g := InheritGraph(files);
    var q := p[k..];
    forall i | 0 <= i < |q| ensures q[i] in g {
      assert q[i] in p;
    }
    forall i | 0 <= i < |q| - 1 ensures q[i + 1] in g[q[i]] {
      assert q[i + 1] == p[k + i + 1] && q[i] == p[k + i];
    }
    assert PathFromTo(g, q, p[k], p[k]);
  }

  lemma {:induction false} RunEnds(files: Sources, names: seq<Eclass>, open: seq<Eclass>,
                                   fuel: nat, reg: Contents, current: Eclass, steps: seq<Step>)
    requires Stack(files, names, open) && NoCycle(files, names)
    requires fuel + |open| >= |files|
    requires forall n :: n in NamesIn(steps) ==> n in WantedBy(files, names, open)
    ensures Run(files, fuel, reg, current, steps).Some?
    decreases fuel, |steps|
  {
    hide Stack, NoCycle, Steps;
    if steps != [] {
      match steps[0]
      case Export(phase) =>
        RunEnds(files, names, open, fuel, reg.(exported := reg.exported[phase := current]), current, steps[1..]);
      case Load(name) =>
        assert name in NamesIn(steps);
        if name in reg.inherited {
          RunEnds(files, names, open, fuel, reg, current, steps[1..]);
        } else if name in files {
          StackGrows(files, names, open, name);
          NamesInSource(files, name);
          RunEnds(files, names, open + [name], fuel - 1, reg, name, Steps(files[name].commands));
          var r := RunSource(files, fuel, reg, name);
          if r.value.0 {
            RunEnds(files, names, open, fuel, r.value.1, current, steps[1..]);
          }
        }
    }
  }

  // ----- the loader on an empty registry -----

  function Fresh(): Contents {
    Contents([], map[])
  }

  /** What `Inherit` does outside of any eclass, on a fresh registry. */
  function InheritAll(files: Sources, fuel: nat, names: seq<Eclass>): Option<(bool, Contents)> {
    Run(files, fuel, Fresh(), Eclass(""), Loads(names))
  }

  ghost predicate Succeeds(files: Sources, names: seq<Eclass>) {
    exists fuel: nat :: InheritAll(files, fuel, names).Some? && InheritAll(files, fuel, names).value.0
  }

  /** On success the list holds exactly the eclasses needed, each once and after everything
      it inherits. */
  lemma PostorderListsNeeded(files: Sources, fuel: nat, names: seq<Eclass>)
    requires var r := InheritAll(files, fuel, names); r.Some? && r.value.0
    ensures var inherited := InheritAll(files, fuel, names).value.1.inherited;
            && NoDup(inherited)
            && InDependencyOrder(InheritGraph(files), inherited)
            && (forall x :: x in inherited <==> Needs(files, names, x))
            && (forall x :: x in inherited ==> CanSource(files, x) && !OnCycle(InheritGraph(files), x))
  {
    hide Run, Needs, OnCycle;
    var steps := Loads(names);
    var last := Run(files, fuel, Fresh(), Eclass(""), steps).value.1;
    NamesInLoads(names);
    RunSettles(files, fuel, Fresh(), Eclass(""), steps);
    hide Loads;
    forall x | x in last.inherited ensures Needs(files, names, x) && !OnCycle(InheritGraph(files), x) {
      RunNeeds(files, fuel, Fresh(), Eclass(""), steps, x);
      OrderedNoCycle(files, last.inherited, x);
    }
    forall x | Needs(files, names, x) ensures x in last.inherited {
      SettledCloses(files, last.inherited);
      assert Dynamic.Reachable(AsFiles(files), names, [], x) by { NeedsIs(files, names, x); }
      Dynamic.ReachableIsListed(AsFiles(files), names, [], last.inherited, x);
    }
  }

  lemma NeedsIs(files: Sources, names: seq<Eclass>, x: Eclass)
    ensures Needs(files, names, x) == Dynamic.Reachable(AsFiles(files), names, [], x)
  {
  }

  lemma OrderedNoCycle(files: Sources, inherited: seq<Eclass>, x: Eclass)
    requires Settled(files, inherited) && x in inherited
    ensures !OnCycle(InheritGraph(files), x)
  {
    var g := InheritGraph(files);
    CycleNeedsItself(g, x);
    OrderedNeedsNoCycle(g, inherited, x);
  }

  lemma SettledCloses(files: Sources, inherited: seq<Eclass>)
    requires Settled(files, inherited)
    ensures forall x :: x in inherited ==> x in AsFiles(files) && forall d :: d in Dynamic.Inherits(AsFiles(files), x) ==> d in inherited
  {
    var g := InheritGraph(files);
    forall x, d | x in inherited && d in Dynamic.Inherits(AsFiles(files), x) ensures d in inherited {
      var i :| 0 <= i < |inherited| && inherited[i] == x;
      assert d in g[inherited[i]];
    }
  }

  /** The loader ends and succeeds exactly if nothing needed lies on a cycle, lacks a file or
      exports functions under the empty name. If only a cycle stands in the way it never ends;
      if there is no cycle it always does, nesting no deeper than there are files. */
  lemma PostorderSucceeds(files: Sources, names: seq<Eclass>)
    ensures Succeeds(files, names) <==> NoCycle(files, names) && !Blocked(files, names)
    ensures NoCycle(files, names) ==> InheritAll(files, |files|, names).Some?
    ensures !NoCycle(files, names) && !Blocked(files, names) ==> forall fuel: nat :: InheritAll(files, fuel, names).None?
  {
    hide Run, OnCycle, Needs;
    NamesInLoads(names);
    forall fuel: nat | InheritAll(files, fuel, names).Some?
      ensures InheritAll(files, fuel, names).value.0 ==> NoCycle(files, names) && !Blocked(files, names)
      ensures !InheritAll(files, fuel, names).value.0 ==> Blocked(files, names)
    {
      if InheritAll(files, fuel, names).value.0 {
        PostorderListsNeeded(files, fuel, names);
      } else {
        RunNeeds(files, fuel, Fresh(), Eclass(""), Loads(names), Eclass(""));
      }
    }
    if NoCycle(files, names) {
      RunEnds(files, names, [], |files|, Fresh(), Eclass(""), Loads(names));
      assert InheritAll(files, |files|, names).Some?;
      if !Blocked(files, names) {
        assert InheritAll(files, |files|, names).value.0;
      }
    }
  }

  /** Both loaders load the same eclasses, whenever this one succeeds. */
  lemma BothLoadTheSame(files: Sources, fuel: nat, names: seq<Eclass>)
    requires var r := InheritAll(files, fuel, names); r.Some? && r.value.0
    ensures var early := Dynamic.Visit(AsFiles(files), [], names);
            early.0 && Elems(early.1) == Elems(InheritAll(files, fuel, names).value.1.inherited)
  {
    hide Run, Dynamic.Visit, Dynamic.Reachable, OnCycle;
    PostorderListsNeeded(files, fuel, names);
    Dynamic.InheritListsReachable(AsFiles(files), [], names);
    var inherited := InheritAll(files, fuel, names).value.1.inherited;
    forall x ensures x in inherited <==> Dynamic.Reachable(AsFiles(files), names, [], x) {
      NeedsIs(files, names, x);
    }
  }

  // ----- exported functions -----

  ghost predicate Exporter(files: Sources, e: Eclass, phase: Phase) {
    e in files && Export(phase) in Steps(files[e].commands)
  }

  /** Who may provide `phase` after `steps` ran for `current`: whoever did before, `current`
      itself if a step exports it, or a newly listed eclass that exports it. */
  lemma {:induction false} RunExports(files: Sources, fuel: nat, reg: Contents, current: Eclass, steps: seq<Step>, phase: Phase)
    requires var r := Run(files, fuel, reg, current, steps); r.Some? && r.value.0
    ensures var last := Run(files, fuel, reg, current, steps).value.1;
            && reg.inherited <= last.inherited
            && (phase in reg.exported || Export(phase) in steps ==> phase in last.exported)
            && (forall y :: y in last.inherited && y !in reg.inherited && Exporter(files, y, phase) ==> phase in last.exported)
            && (phase in last.exported ==>
                  || (phase in reg.exported && last.exported[phase] == reg.exported[phase])
                  || (Export(phase) in steps && last.exported[phase] == current)
                  || (last.exported[phase] in last.inherited && Exporter(files, last.exported[phase], phase)))
    decreases fuel, |steps|
  {
    hide Steps;
    if steps != [] {
      assert steps == [steps[0]] + steps[1..];
      match steps[0]
      case Export(ph) =>
        RunExports(files, fuel, reg.(exported := reg.exported[ph := current]), current, steps[1..], phase);
      case Load(name) =>
        if name in reg.inherited {
          RunExports(files, fuel, reg, current, steps[1..], phase);
        } else {
          var commands := Steps(files[name].commands);
          RunExports(files, fuel - 1, reg, name, commands, phase);
          var inner := Run(files, fuel - 1, reg, name, commands).value.1;
          var next := inner.(inherited := Added(inner.inherited, name));
          RunExports(files, fuel, next, current, steps[1..], phase);
          var last := Run(files, fuel, next, current, steps[1..]).value.1;
          assert name in next.inherited && next.inherited <= last.inherited;
          assert inner.inherited <= next.inherited;
          forall y | y in inner.inherited ensures y in last.inherited {
            assert y in next.inherited;
          }
        }
    }
  }

  /** A phase is provided exactly if a loaded eclass exports it, and by one that does: nested
      loading never charges an export to the wrong eclass. */
  lemma ExportsAreOwn(files: Sources, fuel: nat, names: seq<Eclass>, phase: Phase)
    requires var r := InheritAll(files, fuel, names); r.Some? && r.value.0
    ensures var last := InheritAll(files, fuel, names).value.1;
            && (phase in last.exported <==> exists e :: e in last.inherited && Exporter(files, e, phase))
            && (phase in last.exported ==> last.exported[phase] in last.inherited && Exporter(files, last.exported[phase], phase))
  {
    NamesInLoads(names);
    RunExports(files, fuel, Fresh(), Eclass(""), Loads(names), phase);
  }
}
