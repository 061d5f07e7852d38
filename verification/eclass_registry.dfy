/** The registry both eclass loaders share: what is loaded, in which order, and which eclass
    is being sourced. */
module Registry {
  import opened Digraph

  datatype Eclass = Eclass(name: string)

  datatype Phase = Phase(name: string)

  function Added(inherited: seq<Eclass>, name: Eclass): seq<Eclass> {
    if name in inherited then inherited else inherited + [name]
  }

  class EclassRegistry {
    var loaded: map<Eclass, string>
    var inherited: seq<Eclass>
    var currentEclass: Eclass
    var eclassDepth: int
    var exportedFunctions: map<Phase, Eclass>

    ghost predicate Valid()
      reads this
    {
      NoDup(inherited) && loaded.Keys == Elems(inherited)
    }

    constructor ()
      ensures Valid() && inherited == [] && exportedFunctions == map[]
      ensures currentEclass == Eclass("") && eclassDepth == 0
    {
      loaded := map[];
      inherited := [];
      currentEclass := Eclass("");
      eclassDepth := 0;
      exportedFunctions := map[];
    }

    predicate IsLoaded(name: Eclass)
      reads this
    {
      name in loaded
    }

    method MarkLoaded(name: Eclass, path: string)
      requires Valid()
      modifies `loaded, `inherited
      ensures Valid()
      ensures loaded == old(loaded)[name := path]
      ensures inherited == Added(old(inherited), name)
    {
      loaded := loaded[name := path];
      var i := 0;
      while i < |inherited|
        invariant i <= |inherited| && name !in inherited[..i]
      {
        if inherited[i] == name {
          assert name in inherited;
          return;
        }
        i := i + 1;
      }
      assert inherited[..i] == inherited;
      inherited := inherited + [name];
    }

    method IncrementDepth() returns (depth: int)
      modifies `eclassDepth
      ensures depth == eclassDepth == old(eclassDepth) + 1
    {
      eclassDepth := eclassDepth + 1;
      return eclassDepth;
    }

    method DecrementDepth() returns (depth: int)
      modifies `eclassDepth
      ensures depth == eclassDepth == old(eclassDepth) - 1
    {
      eclassDepth := eclassDepth - 1;
      return eclassDepth;
    }

    /** Records that the eclass being sourced provides `phase`; an error outside of one. */
    method ExportFunction(phase: Phase) returns (ok: bool)
      modifies `exportedFunctions
      ensures ok <==> currentEclass != Eclass("")
      ensures exportedFunctions ==
              if ok then old(exportedFunctions)[phase := currentEclass] else old(exportedFunctions)
    {
      if currentEclass == Eclass("") {
        return false;
      }
      exportedFunctions := exportedFunctions[phase := currentEclass];
      return true;
    }
  }
}
