/** Command suggestions: the known commands within a distance of the input, closest first. */
module Suggest {
  import opened Ordering
  import opened EditDistance

  datatype Suggestion = Suggestion(command: string, distance: nat)

  /** Closest first, then alphabetically. */
  predicate Closer(x: Suggestion, y: Suggestion) {
    if x.distance != y.distance then x.distance < y.distance else StringLess(x.command, y.command)
  }

  lemma CloserIsOrder()
    ensures StrictWeak(Closer)
  {
    forall x, y ensures !(Closer(x, y) && Closer(y, x)) {
      StringLessTotal(x.command, y.command);
    }
    forall x, y, z | Closer(x, z) ensures Closer(x, y) || Closer(y, z) {
      StringLessTotal(x.command, y.command);
      StringLessTotal(y.command, z.command);
      StringLessTotal(x.command, z.command);
      if StringLess(z.command, y.command) && StringLess(y.command, x.command) {
        StringLessTransitive(z.command, y.command, x.command);
      }
    }
  }

  /** The commands close enough, in the order given, with their distances. */
  function Near(input: string, commands: seq<string>, threshold: int): seq<Suggestion> {
    if commands == [] then []
    else
      var before := Near(input, commands[..|commands| - 1], threshold);
      var cmd := commands[|commands| - 1];
      if Distance(input, cmd) <= threshold then before + [Suggestion(cmd, Distance(input, cmd))] else before
  }

  function Commands(s: seq<Suggestion>): seq<string> {
    seq(|s|, i requires 0 <= i < |s| => s[i].command)
  }

  /** The commands within the threshold, as often as they are listed, closest first. */
  method SuggestCommand(input: string, commands: seq<string>, threshold: int) returns (result: seq<string>)
    ensures input == "" || threshold < 0 ==> result == []
    ensures input != "" && threshold >= 0 ==>
              forall c :: multiset(result)[c] == if Distance(input, c) <= threshold then multiset(commands)[c] else 0
    ensures forall i, j :: 0 <= i < j < |result| ==>
              || Distance(input, result[i]) < Distance(input, result[j])
              || (Distance(input, result[i]) == Distance(input, result[j]) && (result[i] == result[j] || Alphabetical(result[i], result[j])))
  {
    if input == "" || |commands| == 0 || threshold < 0 {
      return [];
    }
    hide Distance, Closer;
    var suggestions := [];
    var k := 0;
    while k < |commands|
      invariant k <= |commands| && suggestions == Near(input, commands[..k], threshold)
    {
      var cmd := commands[k];
      var dist := Levenshtein(input, cmd);
      assert commands[..k + 1][..k] == commands[..k];
      if dist <= threshold {
        suggestions := suggestions + [Suggestion(cmd, dist)];
      }
      k := k + 1;
    }
    assert commands[..k] == commands;
    NearCounts(input, commands, threshold);
    if |suggestions| == 0 {
      return [];
    }
    result := Commands(SortBy(Closer, suggestions));
    SortedResult(input, suggestions);
  }

  lemma {:induction false} NearCounts(input: string, commands: seq<string>, threshold: int)
    ensures forall c :: multiset(Commands(Near(input, commands, threshold)))[c] ==
                        if Distance(input, c) <= threshold then multiset(commands)[c] else 0
    ensures forall x :: x in Near(input, commands, threshold) ==> x.distance == Distance(input, x.command)
  {
    hide Distance;
    if commands != [] {
      var last := |commands| - 1;
      NearCounts(input, commands[..last], threshold);
      assert commands == commands[..last] + [commands[last]];
      CommandsAppend(Near(input, commands[..last], threshold), Suggestion(commands[last], Distance(input, commands[last])));
    }
  }

  lemma CommandsAppend(s: seq<Suggestion>, x: Suggestion)
    ensures Commands(s + [x]) == Commands(s) + [x.command]
  {
  }

  lemma {:induction false} CountCommands(s: seq<Suggestion>, c: string, d: nat)
    requires forall x :: x in s && x.command == c ==> x.distance == d
    ensures multiset(Commands(s))[c] == multiset(s)[Suggestion(c, d)]
  {
    if s != [] {
      var before, x := s[..|s| - 1], s[|s| - 1];
      assert s == before + [x];
      CountCommands(before, c, d);
      CommandsAppend(before, x);
    }
  }

  lemma NotCloser(y: Suggestion, x: Suggestion)
    requires !Closer(y, x)
    ensures x.distance < y.distance || (x.distance == y.distance && (x.command == y.command || Alphabetical(x.command, y.command)))
  {
    StringLessTotal(x.command, y.command);
    LessIsAlphabetical(x.command, y.command);
  }

  lemma SortedResult(input: string, s: seq<Suggestion>)
    requires forall x :: x in s ==> x.distance == Distance(input, x.command)
    ensures var r := Commands(SortBy(Closer, s));
            && (forall c :: multiset(r)[c] == multiset(Commands(s))[c])
            && (forall i, j :: 0 <= i < j < |r| ==>
                  || Distance(input, r[i]) < Distance(input, r[j])
                  || (Distance(input, r[i]) == Distance(input, r[j]) && (r[i] == r[j] || Alphabetical(r[i], r[j]))))
  {
    hide Distance, Closer;
    CloserIsOrder();
    SortBySorts(Closer, s);
    var sorted := SortBy(Closer, s);
    forall x | x in sorted ensures x in s {
      assert x in multiset(sorted);
    }
    var r := Commands(sorted);
    forall i | 0 <= i < |sorted|
      ensures sorted[i] == Suggestion(r[i], Distance(input, r[i]))
    {
      assert sorted[i] in sorted;
    }
    forall i, j | 0 <= i < j < |r|
      ensures || Distance(input, r[i]) < Distance(input, r[j])
              || (Distance(input, r[i]) == Distance(input, r[j]) && (r[i] == r[j] || Alphabetical(r[i], r[j])))
    {
      NotCloser(sorted[j], sorted[i]);
    }
    forall c ensures multiset(r)[c] == multiset(Commands(s))[c] {
      CountCommands(sorted, c, Distance(input, c));
      CountCommands(s, c, Distance(input, c));
    }
  }
}
