/** Eclass loading through the interpreter: an eclass is marked as inherited after its source
    ran, so the list is a postorder and a cycle is never left. */
module EclassPostorder {
  import opened Digraph
  import opened Registry
  import opened Wrappers

  /** The two commands of an eclass source that reach the registry. */
  datatype Command = Inherit(names: seq<Eclass>) | ExportFunctions(phases: seq<Phase>)

  datatype Source = Source(path: string, commands: seq<Command>)

  type Sources = map<Eclass, Source>

  // ----- running sources on values -----

  /** Commands with their arguments taken one at a time. */
  datatype Step = Load(name: Eclass) | Export(phase: Phase)

  datatype Contents = Contents(inherited: seq<Eclass>, exported: map<Phase, Eclass>)

  function Loads(names: seq<Eclass>): seq<Step> {
    if names == [] then [] else [Load(names[0])] + Loads(names[1..])
  }

  function Exports(phases: seq<Phase>): seq<Step> {
    if phases == [] then [] else [Export(phases[0])] + Exports(phases[1..])
  }

  function StepsOf(c: Command): seq<Step> {
    match c
    case Inherit(names) => Loads(names)
    case ExportFunctions(phases) => Exports(phases)
  }

  function Steps(commands: seq<Command>): seq<Step> {
    if commands == [] then [] else StepsOf(commands[0]) + Steps(commands[1..])
  }

  /** Runs `steps` on behalf of the eclass `current`, with at most `fuel` sources nested below.
      The result is the success flag and the registry, or nothing if the fuel runs out. */
  function Run(files: Sources, fuel: nat, reg: Contents, current: Eclass, steps: seq<Step>): (r: Option<(bool, Contents)>)
    decreases fuel, |steps|
  {
    if steps == [] then Some((true, reg))
    else match steps[0]
      case Export(phase) =>
        if current == Eclass("") then Some((false, reg))
        else Run(files, fuel, reg.(exported := reg.exported[phase := current]), current, steps[1..])
      case Load(name) =>
        if name in reg.inherited then Run(files, fuel, reg, current, steps[1..])
        else
          var r := RunSource(files, fuel, reg, name);
          if r.None? || !r.value.0 then r else Run(files, fuel, r.value.1, current, steps[1..])
  }

  function RunSource(files: Sources, fuel: nat, reg: Contents, name: Eclass): (r: Option<(bool, Contents)>)
    decreases fuel, 0
  {
    if name !in files then Some((false, reg))
    else if fuel == 0 then None
    else
      var r := Run(files, fuel - 1, reg, name, Steps(files[name].commands));
      if r.None? || !r.value.0 then r
      else Some((true, r.value.1.(inherited := Added(r.value.1.inherited, name))))
  }

  lemma {:induction false} RunBoth(files: Sources, fuel: nat, reg: Contents, current: Eclass, a: seq<Step>, b: seq<Step>)
    ensures var r := Run(files, fuel, reg, current, a);
            Run(files, fuel, reg, current, a + b)
            == if r.None? || !r.value.0 then r else Run(files, fuel, r.value.1, current, b)
    decreases |a|
  {
    if a == [] {
      assert a + b == b;
    } else {
      assert (a + b)[0] == a[0] && (a + b)[1..] == a[1..] + b;
      match a[0]
      case Export(phase) =>
        RunBoth(files, fuel, reg.(exported := reg.exported[phase := current]), current, a[1..], b);
      case Load(name) =>
        if name in reg.inherited {
          RunBoth(files, fuel, reg, current, a[1..], b);
        } else {
          var r := RunSource(files, fuel, reg, name);
          if r.Some? && r.value.0 {
            RunBoth(files, fuel, r.value.1, current, a[1..], b);
          }
        }
    }
  }

  lemma LoadsStep(files: Sources, fuel: nat, reg: Contents, current: Eclass, names: seq<Eclass>, i: nat)
    requires i < |names|
    ensures var r := if names[i] in reg.inherited then Some((true, reg)) else RunSource(files, fuel, reg, names[i]);
            Run(files, fuel, reg, current, Loads(names[i..]))
            == if r.None? || !r.value.0 then r else Run(files, fuel, r.value.1, current, Loads(names[i + 1..]))
  {
    assert names[i..][1..] == names[i + 1..];
    assert Loads(names[i..])[1..] == Loads(names[i + 1..]);
  }

  lemma ExportsStep(files: Sources, fuel: nat, reg: Contents, current: Eclass, phases: seq<Phase>, i: nat)
    requires i < |phases|
    ensures Run(files, fuel, reg, current, Exports(phases[i..]))
            == if current == Eclass("") then Some((false, reg))
               else Run(files, fuel, reg.(exported := reg.exported[phases[i] := current]), current, Exports(phases[i + 1..]))
  {
    assert phases[i..][1..] == phases[i + 1..];
    assert Exports(phases[i..])[1..] == Exports(phases[i + 1..]);
  }

  lemma CommandsStep(files: Sources, fuel: nat, reg: Contents, current: Eclass, commands: seq<Command>, i: nat)
    requires i < |commands|
    ensures var r := Run(files, fuel, reg, current, StepsOf(commands[i]));
            Run(files, fuel, reg, current, Steps(commands[i..]))
            == if r.None? || !r.value.0 then r else Run(files, fuel, r.value.1, current, Steps(commands[i + 1..]))
  {
    assert commands[i..][1..] == commands[i + 1..];
    RunBoth(files, fuel, reg, current, StepsOf(commands[i]), Steps(commands[i + 1..]));
  }

  lemma RunNone(files: Sources, fuel: nat, reg: Contents, current: Eclass)
    ensures Run(files, fuel, reg, current, Loads([])) == Some((true, reg))
    ensures Run(files, fuel, reg, current, Exports([])) == Some((true, reg))
    ensures Run(files, fuel, reg, current, Steps([])) == Some((true, reg))
  {
  }

  // ----- the loader -----

  class EclassLoader {
    const files: Sources
    const registry: EclassRegistry

    constructor (files: Sources, registry: EclassRegistry)
      ensures this.files == files && this.registry == registry
    {
      this.files := files;
      this.registry := registry;
    }

    ghost function Now(): Contents
      reads registry
    {
      Contents(registry.inherited, registry.exportedFunctions)
    }

    /** What was loaded before keeps its path, and what is loaded now has that of its file. */
    predicate PathsRecorded(before: map<Eclass, string>, after: map<Eclass, string>) {
      && (forall e :: e in before ==> e in after && after[e] == before[e])
      && (forall e :: e in after && e !in before ==> e in files && after[e] == files[e].path)
    }

    /** Whatever happens inside, the eclass being sourced and the depth come back. */
    method Inherit(ghost fuel: nat, eclasses: seq<Eclass>) returns (ok: bool)
      requires registry.Valid()
      requires Run(files, fuel, Now(), registry.currentEclass, Loads(eclasses)).Some?
      modifies registry
      ensures registry.Valid()
      ensures Some((ok, Now())) == Run(files, fuel, old(Now()), old(registry.currentEclass), Loads(eclasses))
      ensures registry.currentEclass == old(registry.currentEclass) && registry.eclassDepth == old(registry.eclassDepth)
      ensures PathsRecorded(old(registry.loaded), registry.loaded)
      decreases fuel, 2
    {
      hide Run, RunSource, Loads, NoDup;
      var depth := registry.IncrementDepth();
      ok := true;
      var i := 0;
      while i < |eclasses| && ok
        invariant i <= |eclasses| && registry.Valid()
        invariant registry.currentEclass == old(registry.currentEclass) && registry.eclassDepth == depth
        invariant PathsRecorded(old(registry.loaded), registry.loaded)
        invariant ok ==> Run(files, fuel, Now(), registry.currentEclass, Loads(eclasses[i..]))
                         == old(Run(files, fuel, Now(), registry.currentEclass, Loads(eclasses)))
        invariant !ok ==> Some((false, Now())) == old(Run(files, fuel, Now(), registry.currentEclass, Loads(eclasses)))
      {
        LoadsStep(files, fuel, Now(), registry.currentEclass, eclasses, i);
        ok := LoadEclass(fuel, eclasses[i]);
        i := i + 1;
      }
      if ok {
        assert eclasses[i..] == [];
        RunNone(files, fuel, Now(), registry.currentEclass);
      }
      depth := registry.DecrementDepth();
    }

    method LoadEclass(ghost fuel: nat, name: Eclass) returns (ok: bool)
      requires registry.Valid()
      requires name !in registry.inherited ==> RunSource(files, fuel, Now(), name).Some?
      modifies registry
      ensures registry.Valid()
      ensures name in old(registry.inherited) ==> ok && Now() == old(Now())
      ensures name !in old(registry.inherited) ==> Some((ok, Now())) == RunSource(files, fuel, old(Now()), name)
      ensures registry.currentEclass == old(registry.currentEclass) && registry.eclassDepth == old(registry.eclassDepth)
      ensures PathsRecorded(old(registry.loaded), registry.loaded)
      decreases fuel, 1
    {
      hide Run, Steps, NoDup;
      if registry.IsLoaded(name) {
        return true;
      }
      var previousEclass := registry.currentEclass;
      registry.currentEclass := name;
      if name !in files {
        ok := false;
      } else {
        ok := Execute(fuel - 1, files[name].commands);
        if ok {
          registry.MarkLoaded(name, files[name].path);
        }
      }
      registry.currentEclass := previousEclass;
    }

    /** The interpreter, as far as it reaches the registry. */
    method Execute(ghost fuel: nat, commands: seq<Command>) returns (ok: bool)
      requires registry.Valid()
      requires Run(files, fuel, Now(), registry.currentEclass, Steps(commands)).Some?
      modifies registry
      ensures registry.Valid()
      ensures Some((ok, Now())) == Run(files, fuel, old(Now()), old(registry.currentEclass), Steps(commands))
      ensures registry.currentEclass == old(registry.currentEclass) && registry.eclassDepth == old(registry.eclassDepth)
      ensures PathsRecorded(old(registry.loaded), registry.loaded)
      decreases fuel, 3
    {
      hide Run, RunSource, Steps, NoDup;
      var i := 0;
      while i < |commands|
        invariant i <= |commands| && registry.Valid()
        invariant registry.currentEclass == old(registry.currentEclass) && registry.eclassDepth == old(registry.eclassDepth)
        invariant PathsRecorded(old(registry.loaded), registry.loaded)
        invariant Run(files, fuel, Now(), registry.currentEclass, Steps(commands[i..]))
                  == old(Run(files, fuel, Now(), registry.currentEclass, Steps(commands)))
      {
        CommandsStep(files, fuel, Now(), registry.currentEclass, commands, i);
        var done: bool;
        match commands[i] {
          case Inherit(names) => done := Inherit(fuel, names);
          case ExportFunctions(phases) => done := Export(fuel, phases);
        }
        i := i + 1;
        if !done {
          return false;
        }
      }
      assert commands[i..] == [];
      RunNone(files, fuel, Now(), registry.currentEclass);
      return true;
    }

    method Export(ghost fuel: nat, phases: seq<Phase>) returns (ok: bool)
      requires registry.Valid()
      modifies registry`exportedFunctions
      ensures Some((ok, Now())) == Run(files, fuel, old(Now()), registry.currentEclass, Exports(phases))
    {
      hide Run, Exports, NoDup;
      var i := 0;
      while i < |phases|
        invariant i <= |phases|
        invariant Run(files, fuel, Now(), registry.currentEclass, Exports(phases[i..]))
                  == old(Run(files, fuel, Now(), registry.currentEclass, Exports(phases)))
      {
        ExportsStep(files, fuel, Now(), registry.currentEclass, phases, i);
        var done := registry.ExportFunction(phases[i]);
        if !done {
          return false;
        }
        i := i + 1;
      }
      assert phases[i..] == [];
      RunNone(files, fuel, Now(), registry.currentEclass);
      return true;
    }
  }
}
