/** Merging the package.use entries that match a package into one list of flags. */
module PackageUse {
  import opened Ordering
  import opened PackageAtoms
  import opened Wrappers

  datatype Entry = Entry(atom: PackageAtom, flags: seq<string>)

  datatype Match = Match(specificity: int, flags: seq<string>, index: nat)

  // ----- flags and what they mention -----

  predicate IsNegative(flag: string) {
    flag != "" && flag[0] == '-'
  }

  function BaseFlag(flag: string): string {
    if IsNegative(flag) then flag[1..] else flag
  }

  predicate MentionedIn(flags: seq<string>, base: string) {
    exists i :: 0 <= i < |flags| && BaseFlag(flags[i]) == base
  }

  /** Whether the last mention of `base` enables it. */
  function LastMention(flags: seq<string>, base: string): (on: Option<bool>)
    ensures on.Some? <==> MentionedIn(flags, base)
  {
    if flags == [] then None
    else
      var last := flags[|flags| - 1];
      if BaseFlag(last) == base then assert BaseFlag(flags[|flags| - 1]) == base; Some(!IsNegative(last))
      else
        var on := LastMention(flags[..|flags| - 1], base);
        assert forall i :: 0 <= i < |flags| - 1 ==> flags[..|flags| - 1][i] == flags[i];
        on
  }

  /** The first of the matches that mentions `base` decides. */
  function Decision(matches: seq<Match>, base: string): Option<bool> {
    if matches == [] then None
    else
      var on := LastMention(matches[0].flags, base);
      if on.Some? then on else Decision(matches[1..], base)
  }

  function Signed(base: string, on: bool): string {
    if on then base else "-" + base
  }

  // ----- the matching entries in order -----

  function Matching(compare: Comparison, entries: seq<Entry>, p: Package): seq<Match> {
    if entries == [] then []
    else
      var n := |entries| - 1;
      var before := Matching(compare, entries[..n], p);
      if Matches(compare, entries[n].atom, p) then before + [Match(Specificity(entries[n].atom), entries[n].flags, n)] else before
  }

  /** More specific first; among equals the one listed first. */
  predicate Before(x: Match, y: Match) {
    if x.specificity != y.specificity then x.specificity > y.specificity else x.index < y.index
  }

  function Ordered(compare: Comparison, entries: seq<Entry>, p: Package): seq<Match> {
    SortBy(Before, Matching(compare, entries, p))
  }

  function AllFlags(matches: seq<Match>): seq<string> {
    if matches == [] then [] else AllFlags(matches[..|matches| - 1]) + matches[|matches| - 1].flags
  }

  /** Each base flag of `flags` where it is first mentioned, signed as `matches` decide. */
  function Listed(flags: seq<string>, matches: seq<Match>): seq<string> {
    if flags == [] then []
    else
      var n := |flags| - 1;
      var before, base := Listed(flags[..n], matches), BaseFlag(flags[n]);
      if MentionedIn(flags[..n], base) || Decision(matches, base).None? then before
      else before + [Signed(base, Decision(matches, base).value)]
  }

  function Merged(matches: seq<Match>): seq<string> {
    Listed(AllFlags(matches), matches)
  }

  // ----- the merge -----

  ghost predicate Tracks(flagSet: set<string>, negativeSet: set<string>, matches: seq<Match>) {
    forall b :: (b in flagSet <==> Decision(matches, b) == Some(true)) && (b in negativeSet <==> Decision(matches, b) == Some(false))
  }

  /** The sets while one match is being processed on top of the ones after it. */
  ghost predicate TracksHalf(flagSet: set<string>, negativeSet: set<string>, flags: seq<string>, matches: seq<Match>) {
    Tracks(flagSet, negativeSet, [Match(0, flags, 0)] + matches)
  }

  lemma TracksFlag(flagSet: set<string>, negativeSet: set<string>, flags: seq<string>, matches: seq<Match>, flag: string)
    requires TracksHalf(flagSet, negativeSet, flags, matches)
    ensures var base := BaseFlag(flag);
            if IsNegative(flag) then TracksHalf(flagSet - {base}, negativeSet + {base}, flags + [flag], matches)
            else TracksHalf(flagSet + {base}, negativeSet - {base}, flags + [flag], matches)
  {
    var more := flags + [flag];
    assert more[..|flags|] == flags;
    assert ([Match(0, flags, 0)] + matches)[1..] == matches;
    assert ([Match(0, more, 0)] + matches)[1..] == matches;
    forall b ensures Decision([Match(0, more, 0)] + matches, b) ==
                     if b == BaseFlag(flag) then Some(!IsNegative(flag)) else Decision([Match(0, flags, 0)] + matches, b)
    {
    }
  }

  lemma TracksStart(flagSet: set<string>, negativeSet: set<string>, matches: seq<Match>)
    requires Tracks(flagSet, negativeSet, matches)
    ensures TracksHalf(flagSet, negativeSet, [], matches)
  {
    assert ([Match(0, [], 0)] + matches)[1..] == matches;
  }

  lemma TracksEnd(flagSet: set<string>, negativeSet: set<string>, matches: seq<Match>, i: nat)
    requires i < |matches| && TracksHalf(flagSet, negativeSet, matches[i].flags, matches[i + 1..])
    ensures Tracks(flagSet, negativeSet, matches[i..])
  {
    assert matches[i..][1..] == matches[i + 1..];
    var half := [Match(0, matches[i].flags, 0)] + matches[i + 1..];
    assert half[1..] == matches[i + 1..];
    forall b ensures Decision(half, b) == Decision(matches[i..], b) {
    }
  }

  method CollectMatches(compare: Comparison, entries: seq<Entry>, p: Package) returns (matches: seq<Match>)
    ensures matches == Matching(compare, entries, p)
  {
    hide Matches, Specificity;
    matches := [];
    for i := 0 to |entries|
      invariant matches == Matching(compare, entries[..i], p)
    {
      assert entries[..i + 1][..i] == entries[..i];
      var entry := entries[i];
      if Matches(compare, entry.atom, p) {
        matches := matches + [Match(Specificity(entry.atom), entry.flags, i)];
      }
    }
    assert entries[..|entries|] == entries;
  }

  /** From the least specific match to the most specific one; a mention overrides earlier ones. */
  method Accumulate(matches: seq<Match>) returns (flagSet: set<string>, negativeSet: set<string>)
    ensures Tracks(flagSet, negativeSet, matches)
  {
    hide Tracks, TracksHalf;
    flagSet, negativeSet := {}, {};
    assert Tracks({}, {}, []) by { NothingTracked(); }
    var i := |matches| - 1;
    assert matches[i + 1..] == [];
    while i >= 0
      invariant -1 <= i < |matches|
      invariant Tracks(flagSet, negativeSet, matches[i + 1..])
    {
      TracksStart(flagSet, negativeSet, matches[i + 1..]);
      var flags := matches[i].flags;
      for j := 0 to |flags|
        invariant TracksHalf(flagSet, negativeSet, flags[..j], matches[i + 1..])
      {
        var flag := flags[j];
        TracksFlag(flagSet, negativeSet, flags[..j], matches[i + 1..], flag);
        assert flags[..j + 1] == flags[..j] + [flag];
        if IsNegative(flag) {
          var baseFlag := flag[1..];
          negativeSet := negativeSet + {baseFlag};
          flagSet := flagSet - {baseFlag};
        } else {
          flagSet := flagSet + {flag};
          negativeSet := negativeSet - {flag};
        }
      }
      assert flags[..|flags|] == flags;
      TracksEnd(flagSet, negativeSet, matches, i);
      i := i - 1;
    }
    assert matches[i + 1..] == matches;
  }

  lemma NothingTracked()
    ensures Tracks({}, {}, [])
  {
  }

  ghost predicate SeenAre(seen: set<string>, flags: seq<string>) {
    forall b :: b in seen <==> MentionedIn(flags, b)
  }

  lemma SeenMore(seen: set<string>, flags: seq<string>, flag: string)
    requires SeenAre(seen, flags)
    ensures SeenAre(seen + {BaseFlag(flag)}, flags + [flag])
  {
    var more := flags + [flag];
    forall b ensures MentionedIn(more, b) <==> MentionedIn(flags, b) || b == BaseFlag(flag) {
      if MentionedIn(flags, b) {
        var i :| 0 <= i < |flags| && BaseFlag(flags[i]) == b;
        assert BaseFlag(more[i]) == b;
      }
      if b == BaseFlag(flag) {
        assert BaseFlag(more[|flags|]) == b;
      }
      if MentionedIn(more, b) && b != BaseFlag(flag) {
        var i :| 0 <= i < |more| && BaseFlag(more[i]) == b;
        assert BaseFlag(flags[i]) == b;
      }
    }
  }

  lemma ListedMore(flags: seq<string>, flag: string, matches: seq<Match>)
    ensures var before, base := Listed(flags, matches), BaseFlag(flag);
            Listed(flags + [flag], matches)
            == if MentionedIn(flags, base) || Decision(matches, base).None? then before
               else before + [Signed(base, Decision(matches, base).value)]
  {
    assert (flags + [flag])[..|flags|] == flags;
  }

  /** From the most specific match to the least specific one, each base flag once. */
  method BuildList(matches: seq<Match>, flagSet: set<string>, negativeSet: set<string>) returns (result: seq<string>)
    requires Tracks(flagSet, negativeSet, matches)
    ensures result == Merged(matches)
  {
    hide Decision, Listed, MentionedIn, AllFlags;
    result := [];
    var seen: set<string> := {};
    ghost var done: seq<string> := [];
    NothingListed(matches);
    for i := 0 to |matches|
      invariant done == AllFlags(matches[..i])
      invariant SeenAre(seen, done) && result == Listed(done, matches)
    {
      var flags := matches[i].flags;
      ghost var start := done;
      for j := 0 to |flags|
        invariant done == start + flags[..j]
        invariant SeenAre(seen, done) && result == Listed(done, matches)
      {
        var flag := flags[j];
        var baseFlag := flag;
        if IsNegative(flag) {
          baseFlag := flag[1..];
        }
        ListedMore(done, flag, matches);
        SeenMore(seen, done, flag);
        assert flags[..j + 1] == flags[..j] + [flag];
        assert done + [flag] == start + flags[..j + 1];
        done := done + [flag];
        if baseFlag in seen {
          assert seen + {baseFlag} == seen;
          continue;
        }
        seen := seen + {baseFlag};
        if baseFlag in flagSet {
          result := result + [baseFlag];
        } else if baseFlag in negativeSet {
          result := result + ["-" + baseFlag];
        }
      }
      assert flags[..|flags|] == flags;
      AllFlagsMore(matches, i);
    }
    assert matches[..|matches|] == matches;
  }

  lemma NothingListed(matches: seq<Match>)
    ensures Listed([], matches) == [] && SeenAre({}, []) && AllFlags([]) == [] && matches[..0] == []
  {
  }

  lemma AllFlagsMore(matches: seq<Match>, i: nat)
    requires i < |matches|
    ensures AllFlags(matches[..i + 1]) == AllFlags(matches[..i]) + matches[i].flags
  {
    assert matches[..i + 1][..i] == matches[..i];
  }

  method GetPackageUSEForPackage(compare: Comparison, entries: seq<Entry>, p: Package) returns (result: seq<string>)
    ensures result == Merged(Ordered(compare, entries, p))
  {
    hide Matching, Listed, AllFlags, SortBy;
    var matches := CollectMatches(compare, entries, p);
    if |matches| == 0 {
      NothingMerged();
      return [];
    }
    matches := SortBy(Before, matches);
    var flagSet, negativeSet := Accumulate(matches);
    result := BuildList(matches, flagSet, negativeSet);
  }

  lemma NothingMerged()
    ensures Merged(SortBy(Before, [])) == []
  {
  }
}
