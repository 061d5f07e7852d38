/** Dynamic eclass loading: an eclass is marked as inherited before its source runs, so a
    source that inherits it again, directly or not, finds it there. */
module EclassDynamic {
  import opened Digraph
  import opened Registry

  /** An eclass file: where it is, and the arguments of its `inherit` calls in order. */
  datatype File = File(path: string, calls: seq<seq<Eclass>>)

  type Files = map<Eclass, File>

  // ----- the loading order on values -----

  /** Inherits `names` in turn on top of the list `loaded`. An eclass without a file is
      recorded, and then loading stops with an error. */
  function Visit(files: Files, loaded: seq<Eclass>, names: seq<Eclass>): (r: (bool, seq<Eclass>))
    ensures loaded <= r.1
    decreases |files.Keys - Elems(loaded)|, 0, |names|
  {
    if names == [] then (true, loaded)
    else if names[0] in loaded then Visit(files, loaded, names[1..])
    else
      var marked := loaded + [names[0]];
      FewerLeft(files, loaded, marked);
      if names[0] !in files then (false, marked)
      else
        var r := VisitCalls(files, marked, files[names[0]].calls);
        FewerLeft(files, loaded, r.1);
        if !r.0 then r else Visit(files, r.1, names[1..])
  }

  function VisitCalls(files: Files, loaded: seq<Eclass>, calls: seq<seq<Eclass>>): (r: (bool, seq<Eclass>))
    ensures loaded <= r.1
    decreases |files.Keys - Elems(loaded)|, 1, |calls|
  {
    if calls == [] then (true, loaded)
    else
      var r := Visit(files, loaded, calls[0]);
      FewerLeft(files, loaded, r.1);
      if !r.0 then r else VisitCalls(files, r.1, calls[1..])
  }

  lemma FewerLeft(files: Files, a: seq<Eclass>, b: seq<Eclass>)
    requires a <= b
    ensures |files.Keys - Elems(b)| <= |files.Keys - Elems(a)|
    ensures |b| > |a| && b[|a|] in files && b[|a|] !in a ==> |files.Keys - Elems(b)| < |files.Keys - Elems(a)|
  {
    assert forall x :: x in a ==> x in b;
    SubsetSize(files.Keys - Elems(b), files.Keys - Elems(a));
    if |b| > |a| && b[|a|] in files && b[|a|] !in a {
      assert b[|a|] in b;
      assert b[|a|] in (files.Keys - Elems(a)) && b[|a|] !in (files.Keys - Elems(b));
    }
  }

  lemma VisitStep(files: Files, loaded: seq<Eclass>, names: seq<Eclass>, i: nat)
    requires i < |names|
    ensures names[i] in loaded ==> Visit(files, loaded, names[i..]) == Visit(files, loaded, names[i + 1..])
    ensures names[i] !in loaded && names[i] !in files ==> Visit(files, loaded, names[i..]) == (false, loaded + [names[i]])
    ensures names[i] !in loaded && names[i] in files ==>
              var r := VisitCalls(files, loaded + [names[i]], files[names[i]].calls);
              Visit(files, loaded, names[i..]) == if !r.0 then r else Visit(files, r.1, names[i + 1..])
  {
    assert names[i..][1..] == names[i + 1..];
  }

  lemma CallsStep(files: Files, loaded: seq<Eclass>, calls: seq<seq<Eclass>>, k: nat)
    requires k < |calls|
    ensures var r := Visit(files, loaded, calls[k]);
            VisitCalls(files, loaded, calls[k..]) == if !r.0 then r else VisitCalls(files, r.1, calls[k + 1..])
  {
    assert calls[k..][1..] == calls[k + 1..];
  }

  lemma CallsNone(files: Files, loaded: seq<Eclass>)
    ensures VisitCalls(files, loaded, []) == (true, loaded)
  {
  }

  lemma VisitNone(files: Files, loaded: seq<Eclass>)
    ensures Visit(files, loaded, []) == (true, loaded)
  {
  }

  /** What was added in two steps. */
  lemma Extends(a: seq<Eclass>, b: seq<Eclass>, c: seq<Eclass>, log: seq<Eclass>)
    requires a <= b <= c
    ensures a <= c
    ensures (log + b[|a|..]) + c[|b|..] == log + c[|a|..]
  {
    AddedTwice(a, b, c);
  }

  lemma AddedTwice(a: seq<Eclass>, b: seq<Eclass>, c: seq<Eclass>)
    requires a <= b <= c
    ensures b[|a|..] + c[|b|..] == c[|a|..]
  {
  }

  // ----- the loader -----

  /** Every eclass marked is recorded with the path of its file, if it has one. */
  ghost predicate PathsRecorded(files: Files, loaded: map<Eclass, string>) {
    forall e :: e in loaded ==> loaded[e] == if e in files then files[e].path else ""
  }

  lemma PathsMore(files: Files, loaded: map<Eclass, string>, name: Eclass)
    requires PathsRecorded(files, loaded)
    ensures PathsRecorded(files, loaded[name := if name in files then files[name].path else ""])
  {
  }

  class DynamicEclassLoader {
    const files: Files
    const registry: EclassRegistry
    var sourced: seq<Eclass>     // sourcing calls, in order

    constructor (files: Files)
      ensures this.files == files && fresh(registry) && registry.Valid() && registry.inherited == [] && sourced == []
    {
      this.files := files;
      registry := new EclassRegistry();
      sourced := [];
    }

    ghost predicate Valid()
      reads this, registry
    {
      registry.Valid() && PathsRecorded(files, registry.loaded)
    }

    /** Terminates on any files, cycles included: every nested call finds fewer eclasses that
        have a file and are not marked. */
    method Inherit(eclasses: seq<Eclass>) returns (ok: bool)
      requires Valid()
      modifies this, registry`loaded, registry`inherited
      ensures Valid()
      ensures (ok, registry.inherited) == Visit(files, old(registry.inherited), eclasses)
      ensures sourced == old(sourced) + registry.inherited[|old(registry.inherited)|..]
      ensures forall e :: e in registry.inherited && e in files ==> e in registry.loaded && registry.loaded[e] == files[e].path
      decreases |files.Keys - Elems(registry.inherited)|, 1, 0
    {
      hide Visit, VisitCalls, NoDup;
      ghost var loaded0, sourced0 := registry.inherited, sourced;
      var i := 0;
      while i < |eclasses|
        invariant i <= |eclasses| && Valid()
        invariant loaded0 <= registry.inherited
        invariant sourced == sourced0 + registry.inherited[|loaded0|..]
        invariant Visit(files, registry.inherited, eclasses[i..]) == Visit(files, loaded0, eclasses)
      {
        var name := eclasses[i];
        VisitStep(files, registry.inherited, eclasses, i);
        i := i + 1;
        if registry.IsLoaded(name) {
          continue;
        }
        ghost var before := registry.inherited;
        FewerLeft(files, loaded0, before);
        var loadedOk := LoadNew(name);
        Extends(loaded0, before, registry.inherited, sourced0);
        if !loadedOk {
          return false;
        }
      }
      assert eclasses[i..] == [];
      VisitNone(files, registry.inherited);
      return true;
    }

    /** Marks first, then sources. */
    method LoadNew(name: Eclass) returns (ok: bool)
      requires Valid() && name !in registry.inherited
      modifies this, registry`loaded, registry`inherited
      ensures Valid()
      ensures name !in files ==> !ok && registry.inherited == old(registry.inherited) + [name]
      ensures name in files ==> (ok, registry.inherited) == VisitCalls(files, old(registry.inherited) + [name], files[name].calls)
      ensures old(registry.inherited) <= registry.inherited
      ensures sourced == old(sourced) + registry.inherited[|old(registry.inherited)|..]
      decreases |files.Keys - Elems(registry.inherited)|, 0, 1
    {
      hide Visit, VisitCalls, NoDup, PathsRecorded;
      ghost var before := registry.inherited;
      PathsMore(files, registry.loaded, name);
      var eclassPath := if name in files then files[name].path else "";
      registry.MarkLoaded(name, eclassPath);
      ghost var marked := registry.inherited;
      FewerLeft(files, before, marked);
      ok := Source(name);
      AddedTwice(before, marked, registry.inherited);
      assert marked[|before|..] == [name];
    }

    /** Sourcing an eclass replays its inherit calls through the handler. */
    method Source(name: Eclass) returns (ok: bool)
      requires Valid() && name in registry.inherited
      modifies this, registry`loaded, registry`inherited
      ensures Valid()
      ensures name !in files ==> !ok && registry.inherited == old(registry.inherited)
      ensures name in files ==> (ok, registry.inherited) == VisitCalls(files, old(registry.inherited), files[name].calls)
      ensures old(registry.inherited) <= registry.inherited
      ensures sourced == old(sourced) + [name] + registry.inherited[|old(registry.inherited)|..]
      decreases |files.Keys - Elems(registry.inherited)|, if name in files then 2 else 0, 0
    {
      hide Visit, VisitCalls, NoDup;
      ghost var loaded0, sourced0 := registry.inherited, sourced;
      sourced := sourced + [name];
      if name !in files {
        return false;
      }
      var calls := files[name].calls;
      var k := 0;
      while k < |calls|
        invariant k <= |calls| && Valid()
        invariant loaded0 <= registry.inherited
        invariant sourced == sourced0 + [name] + registry.inherited[|loaded0|..]
        invariant VisitCalls(files, registry.inherited, calls[k..]) == VisitCalls(files, loaded0, calls)
      {
        CallsStep(files, registry.inherited, calls, k);
        ghost var before := registry.inherited;
        FewerLeft(files, loaded0, before);
        var callOk := Inherit(calls[k]);
        Extends(loaded0, before, registry.inherited, sourced0 + [name]);
        k := k + 1;
        if !callOk {
          return false;
        }
      }
      assert calls[k..] == [];
      CallsNone(files, registry.inherited);
      return true;
    }
  }

  // ----- the order: depth first, parents before children -----

  function Flatten(calls: seq<seq<Eclass>>): seq<Eclass> {
    if calls == [] then [] else calls[0] + Flatten(calls[1..])
  }

  /** What an eclass inherits, in order. */
  function Inherits(files: Files, e: Eclass): seq<Eclass> {
    if e in files then Flatten(files[e].calls) else []
  }

  lemma {:induction false} VisitBoth(files: Files, loaded: seq<Eclass>, xs: seq<Eclass>, ys: seq<Eclass>)
    ensures var r := Visit(files, loaded, xs);
            Visit(files, loaded, xs + ys) == if !r.0 then r else Visit(files, r.1, ys)
    decreases |files.Keys - Elems(loaded)|, |xs|
  {
    if xs == [] {
      assert xs + ys == ys;
    } else {
      assert (xs + ys)[1..] == xs[1..] + ys;
      if xs[0] in loaded {
        VisitBoth(files, loaded, xs[1..], ys);
      } else if xs[0] in files {
        var marked := loaded + [xs[0]];
        FewerLeft(files, loaded, marked);
        var r := VisitCalls(files, marked, files[xs[0]].calls);
        FewerLeft(files, marked, r.1);
        VisitBoth(files, r.1, xs[1..], ys);
      }
    }
  }

  lemma {:induction false} CallsAreOneVisit(files: Files, loaded: seq<Eclass>, calls: seq<seq<Eclass>>)
    ensures VisitCalls(files, loaded, calls) == Visit(files, loaded, Flatten(calls))
    decreases |calls|
  {
    if calls != [] {
      VisitBoth(files, loaded, calls[0], Flatten(calls[1..]));
      CallsAreOneVisit(files, Visit(files, loaded, calls[0]).1, calls[1..]);
    }
  }

  /** Depth-first preorder as a worklist: take the next name; if it is new, list it and put
      what it inherits in front of the rest. */
  lemma PreorderUnfolds(files: Files, loaded: seq<Eclass>, e: Eclass, rest: seq<Eclass>)
    requires e !in loaded && e in files
    ensures Visit(files, loaded, [e] + rest) == Visit(files, loaded + [e], Inherits(files, e) + rest)
  {
    assert ([e] + rest)[1..] == rest;
    CallsAreOneVisit(files, loaded + [e], files[e].calls);
    VisitBoth(files, loaded + [e], Inherits(files, e), rest);
  }

  // ----- which eclasses are listed -----

  ghost predicate Chain(files: Files, p: seq<Eclass>) {
    |p| > 0 && forall i :: 0 <= i < |p| - 1 ==> p[i + 1] in Inherits(files, p[i])
  }

  ghost predicate ChainTo(files: Files, names: seq<Eclass>, avoid: seq<Eclass>, x: Eclass, p: seq<Eclass>) {
    Chain(files, p) && p[0] in names && p[|p| - 1] == x && forall i :: 0 <= i < |p| ==> p[i] !in avoid
  }

  /** `x` is one of `names`, or inherited by them directly or not, without passing through
      what is loaded already. */
  ghost predicate Reachable(files: Files, names: seq<Eclass>, avoid: seq<Eclass>, x: Eclass) {
    exists p :: ChainTo(files, names, avoid, x, p)
  }

  lemma ReachableMore(files: Files, names: seq<Eclass>, names': seq<Eclass>, avoid: seq<Eclass>, avoid': seq<Eclass>, x: Eclass)
    requires Reachable(files, names, avoid, x)
    requires (forall n :: n in names ==> n in names') && (forall a :: a in avoid' ==> a in avoid)
    ensures Reachable(files, names', avoid', x)
  {
    var p :| ChainTo(files, names, avoid, x, p);
    assert ChainTo(files, names', avoid', x, p);
  }

  lemma ReachableThrough(files: Files, e: Eclass, names: seq<Eclass>, loaded: seq<Eclass>, x: Eclass)
    requires e in names && e !in loaded && Reachable(files, Inherits(files, e), loaded + [e], x)
    ensures Reachable(files, names, loaded, x)
  {
    var p :| ChainTo(files, Inherits(files, e), loaded + [e], x, p);
    var q := [e] + p;
    forall i | 0 <= i < |q| - 1 ensures q[i + 1] in Inherits(files, q[i]) {
      if i > 0 {
        assert q[i] == p[i - 1] && q[i + 1] == p[i - 1 + 1];
      }
    }
    assert ChainTo(files, names, loaded, x, q);
  }

  /** Only what is reachable is listed, each eclass once. */
  lemma {:induction false} VisitSound(files: Files, loaded: seq<Eclass>, names: seq<Eclass>, x: Eclass)
    requires NoDup(loaded)
    ensures var r := Visit(files, loaded, names);
            NoDup(r.1) && (x in r.1 && x !in loaded ==> Reachable(files, names, loaded, x))
    decreases |files.Keys - Elems(loaded)|, |names|
  {
    hide Reachable;
    if names != [] {
      var e := names[0];
      if e in loaded {
        VisitSound(files, loaded, names[1..], x);
        RestReachable(files, names, loaded, loaded, x);
      } else {
        var marked := loaded + [e];
        SelfReachable(files, names, loaded);
        if e in files {
          FewerLeft(files, loaded, marked);
          CallsAreOneVisit(files, marked, files[e].calls);
          VisitSound(files, marked, Inherits(files, e), x);
          var r := Visit(files, marked, Inherits(files, e));
          FewerLeft(files, marked, r.1);
          if Reachable(files, Inherits(files, e), marked, x) {
            ReachableThrough(files, e, names, loaded, x);
          }
          if r.0 {
            VisitSound(files, r.1, names[1..], x);
            RestReachable(files, names, loaded, r.1, x);
          }
        }
      }
    }
  }

  lemma RestReachable(files: Files, names: seq<Eclass>, loaded: seq<Eclass>, later: seq<Eclass>, x: Eclass)
    requires names != [] && loaded <= later
    ensures Reachable(files, names[1..], later, x) ==> Reachable(files, names, loaded, x)
  {
    if Reachable(files, names[1..], later, x) {
      ReachableMore(files, names[1..], names, later, loaded, x);
    }
  }

  lemma SelfReachable(files: Files, names: seq<Eclass>, loaded: seq<Eclass>)
    requires names != [] && names[0] !in loaded
    ensures Reachable(files, names, loaded, names[0])
  {
    assert ChainTo(files, names, loaded, names[0], [names[0]]);
  }

  /** After success, everything new has a file and all that it inherits is listed. */
  lemma {:induction false} VisitCloses(files: Files, loaded: seq<Eclass>, names: seq<Eclass>)
    ensures var r := Visit(files, loaded, names);
            r.0 ==> (forall n :: n in names ==> n in r.1)
                    && (forall x :: x in r.1 && x !in loaded ==> x in files && forall d :: d in Inherits(files, x) ==> d in r.1)
    decreases |files.Keys - Elems(loaded)|, |names|
  {
    hide Inherits;
    if names != [] {
      var e := names[0];
      assert names == [e] + names[1..];
      if e in loaded {
        VisitCloses(files, loaded, names[1..]);
        assert e in Visit(files, loaded, names[1..]).1;
      } else if e in files {
        var marked := loaded + [e];
        FewerLeft(files, loaded, marked);
        assert Flatten(files[e].calls) == Inherits(files, e) by { InheritsAre(files, e); }
        CallsAreOneVisit(files, marked, files[e].calls);
        VisitCloses(files, marked, Inherits(files, e));
        var r := Visit(files, marked, Inherits(files, e));
        FewerLeft(files, marked, r.1);
        if r.0 {
          VisitCloses(files, r.1, names[1..]);
          var all := Visit(files, r.1, names[1..]).1;
          assert forall d :: d in r.1 ==> d in all;
          assert marked[|loaded|] == e && e in r.1;
          forall x | x in all && x !in loaded && Visit(files, r.1, names[1..]).0
            ensures x in files && forall d :: d in Inherits(files, x) ==> d in all
          {
            if x != e && x in r.1 {
              assert x !in marked;
            }
          }
        }
      }
    }
  }

  lemma InheritsAre(files: Files, e: Eclass)
    requires e in files
    ensures Inherits(files, e) == Flatten(files[e].calls)
  {
  }

  /** An error means that the eclass listed last has no file. */
  lemma {:induction false} VisitFails(files: Files, loaded: seq<Eclass>, names: seq<Eclass>)
    ensures var r := Visit(files, loaded, names);
            !r.0 ==> r.1 != [] && r.1[|r.1| - 1] !in files && r.1[|r.1| - 1] !in loaded
    decreases |files.Keys - Elems(loaded)|, |names|
  {
    if names != [] {
      var e := names[0];
      if e in loaded {
        VisitFails(files, loaded, names[1..]);
      } else if e in files {
        var marked := loaded + [e];
        FewerLeft(files, loaded, marked);
        CallsAreOneVisit(files, marked, files[e].calls);
        VisitFails(files, marked, Inherits(files, e));
        var r := Visit(files, marked, Inherits(files, e));
        FewerLeft(files, marked, r.1);
        if r.0 {
          VisitFails(files, r.1, names[1..]);
        }
      }
    }
  }

  lemma {:induction false} ChainStaysListed(files: Files, loaded: seq<Eclass>, listed: seq<Eclass>, p: seq<Eclass>, i: nat)
    requires Chain(files, p) && p[0] in listed && i < |p| && forall k :: 0 <= k < |p| ==> p[k] !in loaded
    requires forall x :: x in listed && x !in loaded ==> x in files && forall d :: d in Inherits(files, x) ==> d in listed
    ensures p[i] in listed && p[i] in files
  {
    if i > 0 {
      ChainStaysListed(files, loaded, listed, p, i - 1);
      assert p[i - 1 + 1] in Inherits(files, p[i - 1]);
    }
  }

  /** Inheriting succeeds exactly if everything reachable has a file. Then the list gains
      exactly what is reachable, each eclass once, and keeps what it had in front. */
  lemma InheritListsReachable(files: Files, loaded: seq<Eclass>, names: seq<Eclass>)
    requires NoDup(loaded)
    ensures var r := Visit(files, loaded, names);
            && loaded <= r.1 && NoDup(r.1)
            && (r.0 <==> forall x :: Reachable(files, names, loaded, x) ==> x in files)
            && (r.0 ==> forall x :: x in r.1 <==> x in loaded || Reachable(files, names, loaded, x))
  {
    hide Reachable, Visit;
    var r := Visit(files, loaded, names);
    forall x ensures x in r.1 && x !in loaded ==> Reachable(files, names, loaded, x) {
      VisitSound(files, loaded, names, x);
    }
    VisitSound(files, loaded, names, Eclass(""));
    VisitCloses(files, loaded, names);
    VisitFails(files, loaded, names);
    if r.0 {
      forall x | Reachable(files, names, loaded, x) ensures x in r.1 && x in files {
        ReachableIsListed(files, names, loaded, r.1, x);
      }
    } else {
      assert r.1[|r.1| - 1] in r.1;
    }
  }

  lemma ReachableIsListed(files: Files, names: seq<Eclass>, loaded: seq<Eclass>, listed: seq<Eclass>, x: Eclass)
    requires Reachable(files, names, loaded, x) && forall n :: n in names ==> n in listed
    requires forall x :: x in listed && x !in loaded ==> x in files && forall d :: d in Inherits(files, x) ==> d in listed
    ensures x in listed && x in files
  {
    var p :| ChainTo(files, names, loaded, x, p);
    ChainStaysListed(files, loaded, listed, p, |p| - 1);
  }

  /** An eclass is followed by everything reachable from it that was not listed before it,
      and by nothing else until that is complete: its descendants form one block. */
  lemma DescendantsFollow(files: Files, loaded: seq<Eclass>, e: Eclass)
    requires NoDup(loaded) && e !in loaded && Visit(files, loaded, [e]).0
    ensures var listed := Visit(files, loaded, [e]).1;
            && |listed| > |loaded| && listed[|loaded|] == e
            && forall x :: x in listed[|loaded|..] <==> Reachable(files, [e], loaded, x)
  {
    hide Reachable;
    InheritListsReachable(files, loaded, [e]);
    var listed := Visit(files, loaded, [e]).1;
    if e in files {
      PreorderUnfolds(files, loaded, e, []);
      assert [e] + [] == [e];
      assert loaded + [e] <= listed;
    }
    hide Visit;
    forall x ensures x in listed[|loaded|..] <==> Reachable(files, [e], loaded, x) {
      NewPart(files, loaded, [e], listed, x);
    }
  }

  lemma NotAgain(listed: seq<Eclass>, n: nat, x: Eclass)
    requires NoDup(listed) && n <= |listed| && x in listed[..n]
    ensures x !in listed[n..]
  {
    var i :| 0 <= i < n && listed[i] == x;
    forall j | 0 <= j < |listed| - n ensures listed[n..][j] != x {
      assert listed[n..][j] == listed[n + j];
    }
  }

  lemma NewPart(files: Files, loaded: seq<Eclass>, names: seq<Eclass>, listed: seq<Eclass>, x: Eclass)
    requires loaded <= listed && NoDup(listed)
    requires x in listed <==> x in loaded || Reachable(files, names, loaded, x)
    ensures x in listed[|loaded|..] <==> Reachable(files, names, loaded, x)
  {
    assert listed == loaded + listed[|loaded|..];
    if x in loaded {
      NotAgain(listed, |loaded|, x);
    }
    if Reachable(files, names, loaded, x) {
      var p :| ChainTo(files, names, loaded, x, p);
      assert p[|p| - 1] !in loaded;
    }
  }
}
