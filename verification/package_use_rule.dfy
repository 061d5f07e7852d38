/** The two passes of the package.use merge amount to one priority rule. */
module PackageUseRule {
  import opened Ordering
  import opened PackageAtoms
  import opened PackageUse
  import opened Wrappers

  /** Entry `i` matches the package and mentions `base`. */
  ghost predicate Speaks(compare: Comparison, entries: seq<Entry>, p: Package, base: string, i: int) {
    0 <= i < |entries| && Matches(compare, entries[i].atom, p) && MentionedIn(entries[i].flags, base)
  }

  /** Entry `i` takes precedence over entry `j`. */
  ghost predicate Outranks(entries: seq<Entry>, i: int, j: int)
    requires 0 <= i < |entries| && 0 <= j < |entries|
  {
    var s, t := Specificity(entries[i].atom), Specificity(entries[j].atom);
    s > t || (s == t && i < j)
  }

  /** Among the entries that speak about `base`, `i` takes precedence over all others. */
  ghost predicate Wins(compare: Comparison, entries: seq<Entry>, p: Package, base: string, i: int) {
    && Speaks(compare, entries, p, base, i)
    && forall j :: j != i && Speaks(compare, entries, p, base, j) ==> Outranks(entries, i, j)
  }

  /** The rule: the last word of the winning entry. */
  ghost function Ruling(entries: seq<Entry>, base: string, i: int): string
    requires 0 <= i < |entries| && MentionedIn(entries[i].flags, base)
  {
    Signed(base, LastMention(entries[i].flags, base).value)
  }

  // ----- the sorted matches -----

  function MatchOf(entries: seq<Entry>, i: nat): Match
    requires i < |entries|
  {
    Match(Specificity(entries[i].atom), entries[i].flags, i)
  }

  lemma {:induction false} MatchingHolds(compare: Comparison, entries: seq<Entry>, p: Package, m: Match)
    ensures m in Matching(compare, entries, p) <==>
            m.index < |entries| && Matches(compare, entries[m.index].atom, p) && m == MatchOf(entries, m.index)
  {
    hide Matches, Specificity;
    if entries != [] {
      var n := |entries| - 1;
      MatchingHolds(compare, entries[..n], p, m);
    }
  }

  lemma OrderedHolds(compare: Comparison, entries: seq<Entry>, p: Package, m: Match)
    ensures m in Ordered(compare, entries, p) <==> m in Matching(compare, entries, p)
    ensures Sorted(Before, Ordered(compare, entries, p))
  {
    hide Matching, SortBy;
    assert StrictWeak(Before);
    SortBySorts(Before, Matching(compare, entries, p));
    assert m in multiset(Ordered(compare, entries, p)) <==> m in multiset(Matching(compare, entries, p));
  }

  /** The deciding match is the first that mentions the flag. */
  lemma {:induction false} FirstDecides(matches: seq<Match>, base: string) returns (k: nat)
    ensures Decision(matches, base).Some? ==>
              k < |matches| && Decision(matches, base) == LastMention(matches[k].flags, base)
    ensures Decision(matches, base).None? ==> k == |matches|
    ensures forall j :: 0 <= j < k ==> !MentionedIn(matches[j].flags, base)
  {
    hide LastMention, MentionedIn;
    if matches == [] || LastMention(matches[0].flags, base).Some? {
      k := 0;
    } else {
      k := FirstDecides(matches[1..], base);
      forall j | 0 <= j < k + 1 ensures !MentionedIn(matches[j].flags, base) {
        if j > 0 {
          assert matches[j] == matches[1..][j - 1];
        }
      }
      k := k + 1;
    }
  }

  /** A decision is made exactly if someone speaks, and then by the winner. */
  lemma WinnerDecides(compare: Comparison, entries: seq<Entry>, p: Package, base: string) returns (i: int)
    ensures Decision(Ordered(compare, entries, p), base).Some? <==> exists j :: Speaks(compare, entries, p, base, j)
    ensures (exists j :: Speaks(compare, entries, p, base, j)) ==>
              && Wins(compare, entries, p, base, i)
              && Decision(Ordered(compare, entries, p), base) == LastMention(entries[i].flags, base)
  {
    hide Matching, Matches, MentionedIn, Specificity, Ordered, LastMention;
    var matches := Ordered(compare, entries, p);
    var k := FirstDecides(matches, base);
    forall j | Speaks(compare, entries, p, base, j) ensures exists l :: k <= l < |matches| && matches[l] == MatchOf(entries, j) {
      var m := MatchOf(entries, j);
      MatchingHolds(compare, entries, p, m);
      OrderedHolds(compare, entries, p, m);
      var l :| 0 <= l < |matches| && matches[l] == m;
    }
    i := -1;
    if k < |matches| {
      var m := matches[k];
      assert m in matches;
      OrderedHolds(compare, entries, p, m);
      MatchingHolds(compare, entries, p, m);
      i := m.index;
      if Decision(matches, base).Some? {
        assert Speaks(compare, entries, p, base, i);
        forall j | j != i && Speaks(compare, entries, p, base, j) ensures Outranks(entries, i, j) {
          var l :| k <= l < |matches| && matches[l] == MatchOf(entries, j);
          assert !Before(matches[l], matches[k]);
        }
      }
    }
  }

  lemma OneWinner(compare: Comparison, entries: seq<Entry>, p: Package, base: string, i: int, j: int)
    requires Wins(compare, entries, p, base, i) && Wins(compare, entries, p, base, j)
    ensures i == j
  {
    hide Matches, MentionedIn, Specificity;
    WinnerOutranks(compare, entries, p, base, i, j);
    WinnerOutranks(compare, entries, p, base, j, i);
  }

  lemma WinnerOutranks(compare: Comparison, entries: seq<Entry>, p: Package, base: string, i: int, j: int)
    requires Wins(compare, entries, p, base, i) && Speaks(compare, entries, p, base, j)
    ensures i == j || Outranks(entries, i, j)
  {
    hide Matches, MentionedIn, Specificity;
  }

  // ----- the list -----

  lemma {:induction false} PositiveBase(flags: seq<string>, base: string)
    ensures LastMention(flags, base) == Some(true) ==> !IsNegative(base)
  {
    if flags != [] {
      PositiveBase(flags[..|flags| - 1], base);
    }
  }

  lemma {:induction false} SignedReads(matches: seq<Match>, base: string)
    requires Decision(matches, base).Some?
    ensures BaseFlag(Signed(base, Decision(matches, base).value)) == base
    ensures IsNegative(Signed(base, Decision(matches, base).value)) == !Decision(matches, base).value
  {
    if LastMention(matches[0].flags, base).Some? {
      PositiveBase(matches[0].flags, base);
      assert ("-" + base)[1..] == base;
    } else {
      SignedReads(matches[1..], base);
    }
  }

  lemma MentionedMore(flags: seq<string>, base: string)
    requires flags != []
    ensures MentionedIn(flags, base) <==> MentionedIn(flags[..|flags| - 1], base) || BaseFlag(flags[|flags| - 1]) == base
  {
    var n := |flags| - 1;
    if MentionedIn(flags[..n], base) {
      var i :| 0 <= i < n && BaseFlag(flags[..n][i]) == base;
      assert BaseFlag(flags[i]) == base;
    }
    if MentionedIn(flags, base) {
      var i :| 0 <= i < |flags| && BaseFlag(flags[i]) == base;
      assert i < n ==> BaseFlag(flags[..n][i]) == base;
    }
  }

  /** Every listed flag has a base of its own and the decided sign; what is mentioned and
      decided is listed. */
  lemma {:induction false} ListedOnce(flags: seq<string>, matches: seq<Match>)
    ensures var r := Listed(flags, matches);
            && (forall j, k :: 0 <= j < k < |r| ==> BaseFlag(r[j]) != BaseFlag(r[k]))
            && (forall k :: 0 <= k < |r| ==>
                  && MentionedIn(flags, BaseFlag(r[k])) && Decision(matches, BaseFlag(r[k])).Some?
                  && r[k] == Signed(BaseFlag(r[k]), Decision(matches, BaseFlag(r[k])).value))
            && (forall b :: MentionedIn(r, b) <==> MentionedIn(flags, b) && Decision(matches, b).Some?)
  {
    hide Decision, MentionedIn;
    if flags == [] {
      assert forall b :: !MentionedIn([], b) by { NoMention(); }
    } else {
      var n := |flags| - 1;
      var base := BaseFlag(flags[n]);
      ListedOnce(flags[..n], matches);
      forall b ensures MentionedIn(flags, b) <==> MentionedIn(flags[..n], b) || base == b {
        MentionedMore(flags, b);
      }
      var before, r := Listed(flags[..n], matches), Listed(flags, matches);
      if !MentionedIn(flags[..n], base) && Decision(matches, base).Some? {
        SignedReads(matches, base);
        assert r[..|r| - 1] == before;
        forall b ensures MentionedIn(r, b) <==> MentionedIn(before, b) || base == b {
          MentionedMore(r, b);
        }
      }
    }
  }

  /** `b` is mentioned before `c` is mentioned at all. */
  ghost predicate MentionedFirst(flags: seq<string>, b: string, c: string) {
    exists i :: 0 <= i < |flags| && BaseFlag(flags[i]) == b && forall h :: 0 <= h <= i ==> BaseFlag(flags[h]) != c
  }

  lemma MentionedFirstMore(flags: seq<string>, more: seq<string>, b: string, c: string)
    requires MentionedFirst(flags, b, c)
    ensures MentionedFirst(flags + more, b, c)
  {
    var i :| 0 <= i < |flags| && BaseFlag(flags[i]) == b && forall h :: 0 <= h <= i ==> BaseFlag(flags[h]) != c;
    assert BaseFlag((flags + more)[i]) == b;
    forall h | 0 <= h <= i ensures BaseFlag((flags + more)[h]) != c {
      assert (flags + more)[h] == flags[h];
    }
  }

  lemma NewIsMentionedLast(flags: seq<string>, b: string, c: string)
    requires MentionedIn(flags, b) && !MentionedIn(flags, c)
    ensures MentionedFirst(flags, b, c)
  {
    var i :| 0 <= i < |flags| && BaseFlag(flags[i]) == b;
    forall h | 0 <= h <= i ensures BaseFlag(flags[h]) != c {
    }
  }

  /** The flags are listed in the order in which they are first mentioned. */
  lemma {:induction false} ListedInOrder(flags: seq<string>, matches: seq<Match>)
    ensures var r := Listed(flags, matches);
            forall j, k :: 0 <= j < k < |r| ==> MentionedFirst(flags, BaseFlag(r[j]), BaseFlag(r[k]))
  {
    hide Decision, MentionedIn, MentionedFirst, BaseFlag;
    if flags != [] {
      var n := |flags| - 1;
      var before, r := Listed(flags[..n], matches), Listed(flags, matches);
      ListedInOrder(flags[..n], matches);
      ListedOnce(flags[..n], matches);
      assert flags == flags[..n] + [flags[n]];
      forall j, k | 0 <= j < k < |r| ensures MentionedFirst(flags, BaseFlag(r[j]), BaseFlag(r[k])) {
        if k == |before| {
          SignedReads(matches, BaseFlag(flags[n]));
          NewIsMentionedLast(flags[..n], BaseFlag(r[j]), BaseFlag(r[k]));
        }
        MentionedFirstMore(flags[..n], [flags[n]], BaseFlag(r[j]), BaseFlag(r[k]));
      }
    }
  }

  lemma NotBothFirst(flags: seq<string>, b: string, c: string)
    requires MentionedFirst(flags, b, c)
    ensures !MentionedFirst(flags, c, b)
  {
  }

  lemma {:induction false} AllFlagsBoth(a: seq<Match>, b: seq<Match>)
    ensures AllFlags(a + b) == AllFlags(a) + AllFlags(b)
  {
    if b == [] {
      assert a + b == a;
    } else {
      var n := |b| - 1;
      assert (a + b)[..|a| + n] == a + b[..n];
      AllFlagsBoth(a, b[..n]);
    }
  }

  /** A flag of entry `i` stands before one that only entries of lower precedence mention. */
  lemma HigherListedFirst(compare: Comparison, entries: seq<Entry>, p: Package, b: string, c: string, i: int, x: nat, y: nat)
    requires Speaks(compare, entries, p, b, i)
    requires forall j :: Speaks(compare, entries, p, c, j) ==> j != i && Outranks(entries, i, j)
    requires var r := Merged(Ordered(compare, entries, p)); x < |r| && y < |r| && BaseFlag(r[x]) == b && BaseFlag(r[y]) == c
    ensures x < y
  {
    hide Matches, MentionedIn, Specificity, Ordered, BaseFlag, AllFlags, Listed, MentionedFirst;
    var matches := Ordered(compare, entries, p);
    var k := PlaceOf(compare, entries, p, b, i);
    forall l | 0 <= l <= k ensures !MentionedIn(matches[l].flags, c) {
      NoneAbove(compare, entries, p, c, i, k, l);
    }
    FirstInMatches(matches, b, c, k);
    SpeakersDiffer(compare, entries, p, b, c, i);
    if y < x {
      InOrderAt(AllFlags(matches), matches, y, x);
      NotBothFirst(AllFlags(matches), b, c);
    }
  }

  lemma InOrderAt(flags: seq<string>, matches: seq<Match>, j: int, k: int)
    requires 0 <= j < k < |Listed(flags, matches)|
    ensures MentionedFirst(flags, BaseFlag(Listed(flags, matches)[j]), BaseFlag(Listed(flags, matches)[k]))
  {
    ListedInOrder(flags, matches);
  }

  lemma SpeakersDiffer(compare: Comparison, entries: seq<Entry>, p: Package, b: string, c: string, i: int)
    requires Speaks(compare, entries, p, b, i)
    requires forall j :: Speaks(compare, entries, p, c, j) ==> j != i
    ensures b != c
  {
  }

  lemma PlaceOf(compare: Comparison, entries: seq<Entry>, p: Package, b: string, i: int) returns (k: nat)
    requires Speaks(compare, entries, p, b, i)
    ensures k < |Ordered(compare, entries, p)| && Ordered(compare, entries, p)[k] == MatchOf(entries, i)
  {
    hide Matches, MentionedIn, Specificity, Ordered, Matching;
    var m := MatchOf(entries, i);
    MatchingHolds(compare, entries, p, m);
    OrderedHolds(compare, entries, p, m);
    k :| 0 <= k < |Ordered(compare, entries, p)| && Ordered(compare, entries, p)[k] == m;
  }

  lemma NoneAbove(compare: Comparison, entries: seq<Entry>, p: Package, c: string, i: int, k: nat, l: nat)
    requires 0 <= i < |entries| && k < |Ordered(compare, entries, p)| && Ordered(compare, entries, p)[k] == MatchOf(entries, i) && l <= k
    requires forall j :: Speaks(compare, entries, p, c, j) ==> j != i && Outranks(entries, i, j)
    ensures !MentionedIn(Ordered(compare, entries, p)[l].flags, c)
  {
    hide Matches, MentionedIn, Specificity, Ordered, Matching;
    var m := Ordered(compare, entries, p)[l];
    OrderedHolds(compare, entries, p, m);
    MatchingHolds(compare, entries, p, m);
    assert MentionedIn(m.flags, c) ==> Speaks(compare, entries, p, c, m.index);
  }

  lemma FirstInMatches(matches: seq<Match>, b: string, c: string, k: nat)
    requires k < |matches| && MentionedIn(matches[k].flags, b) && forall l :: 0 <= l <= k ==> !MentionedIn(matches[l].flags, c)
    ensures MentionedFirst(AllFlags(matches), b, c)
  {
    hide MentionedIn, MentionedFirst, AllFlags;
    var top := matches[..k + 1];
    assert matches == top + matches[k + 1..];
    AllFlagsBoth(top, matches[k + 1..]);
    AllMentioned(top, b);
    AllMentioned(top, c);
    assert MentionedIn(top[k].flags, b);
    NewIsMentionedLast(AllFlags(top), b, c);
    MentionedFirstMore(AllFlags(top), AllFlags(matches[k + 1..]), b, c);
  }

  lemma NoMention()
    ensures forall b :: !MentionedIn([], b)
  {
  }

  lemma {:induction false} AllMentioned(matches: seq<Match>, base: string)
    ensures MentionedIn(AllFlags(matches), base) <==> exists k :: 0 <= k < |matches| && MentionedIn(matches[k].flags, base)
  {
    if matches != [] {
      var n := |matches| - 1;
      AllMentioned(matches[..n], base);
      MentionedEither(AllFlags(matches[..n]), matches[n].flags, base);
      hide MentionedIn, AllFlags;
      if k :| 0 <= k < n && MentionedIn(matches[..n][k].flags, base) {
        assert MentionedIn(matches[k].flags, base);
      }
      if k :| 0 <= k < |matches| && MentionedIn(matches[k].flags, base) {
        assert k < n ==> MentionedIn(matches[..n][k].flags, base);
      }
      assert AllFlags(matches) == AllFlags(matches[..n]) + matches[n].flags by { AllFlagsLast(matches); }
    }
  }

  lemma AllFlagsLast(matches: seq<Match>)
    requires matches != []
    ensures AllFlags(matches) == AllFlags(matches[..|matches| - 1]) + matches[|matches| - 1].flags
  {
  }

  lemma MentionedEither(a: seq<string>, b: seq<string>, base: string)
    ensures MentionedIn(a + b, base) <==> MentionedIn(a, base) || MentionedIn(b, base)
  {
    if MentionedIn(a, base) {
      var i :| 0 <= i < |a| && BaseFlag(a[i]) == base;
      assert BaseFlag((a + b)[i]) == base;
    }
    if MentionedIn(b, base) {
      var i :| 0 <= i < |b| && BaseFlag(b[i]) == base;
      assert BaseFlag((a + b)[|a| + i]) == base;
    }
  }

  lemma DecidedIfMentioned(matches: seq<Match>, base: string)
    ensures Decision(matches, base).Some? <==> MentionedIn(AllFlags(matches), base)
  {
    hide MentionedIn, LastMention, AllFlags;
    AllMentioned(matches, base);
    var k := FirstDecides(matches, base);
    if k < |matches| && Decision(matches, base).Some? {
      assert LastMention(matches[k].flags, base).Some?;
    }
  }

  // ----- the rule -----

  /** The rule for one flag. */
  lemma RuleFor(compare: Comparison, entries: seq<Entry>, p: Package, b: string) returns (w: int)
    ensures var r := Merged(Ordered(compare, entries, p));
            && (MentionedIn(r, b) <==> exists i :: Speaks(compare, entries, p, b, i))
            && (MentionedIn(r, b) ==> Wins(compare, entries, p, b, w))
            && (forall i :: Wins(compare, entries, p, b, i) ==> i == w && Ruling(entries, b, i) in r)
            && (forall k :: 0 <= k < |r| && BaseFlag(r[k]) == b ==> MentionedIn(r, b) && r[k] == Ruling(entries, b, w))
  {
    hide Decision, Matches, Listed, AllFlags, Ordered, BaseFlag, Signed, LastMention, Outranks, Specificity;
    var matches := Ordered(compare, entries, p);
    var r := Merged(matches);
    ListedOnce(AllFlags(matches), matches);
    DecidedIfMentioned(matches, b);
    w := WinnerDecides(compare, entries, p, b);
    forall k | 0 <= k < |r| && BaseFlag(r[k]) == b ensures MentionedIn(r, b) {
    }
    forall i | Wins(compare, entries, p, b, i) ensures i == w && Ruling(entries, b, i) in r {
      assert Speaks(compare, entries, p, b, i);
      OneWinner(compare, entries, p, b, i, w);
      assert MentionedIn(r, b);
      var k :| 0 <= k < |r| && BaseFlag(r[k]) == b;
    }
  }

  ghost predicate RuledBySome(compare: Comparison, entries: seq<Entry>, p: Package, flag: string) {
    exists i :: Wins(compare, entries, p, BaseFlag(flag), i) && flag == Ruling(entries, BaseFlag(flag), i)
  }

  /** Each flag that a matching entry mentions is listed exactly once and never with both
      signs; its sign is the last word of the entry that takes precedence: the most specific
      one, and among equals the one listed first. */
  lemma MergeIsPriorityRule(compare: Comparison, entries: seq<Entry>, p: Package)
    ensures var r := Merged(Ordered(compare, entries, p));
            && (forall j, k :: 0 <= j < k < |r| ==> BaseFlag(r[j]) != BaseFlag(r[k]))
            && (forall b :: MentionedIn(r, b) <==> exists i :: Speaks(compare, entries, p, b, i))
            && (forall b, i :: Wins(compare, entries, p, b, i) ==> Ruling(entries, b, i) in r)
            && (forall k :: 0 <= k < |r| ==> RuledBySome(compare, entries, p, r[k]))
  {
    hide Merged, Ordered, Matches, BaseFlag, MentionedIn, LastMention;
    var r := Merged(Ordered(compare, entries, p));
    MergedOnce(Ordered(compare, entries, p));
    forall b ensures MentionedIn(r, b) <==> exists i :: Speaks(compare, entries, p, b, i) {
      var w := RuleFor(compare, entries, p, b);
    }
    forall b, i | Wins(compare, entries, p, b, i) ensures Ruling(entries, b, i) in r {
      var w := RuleFor(compare, entries, p, b);
    }
    forall k | 0 <= k < |r| ensures RuledBySome(compare, entries, p, r[k]) {
      var w := RuleFor(compare, entries, p, BaseFlag(r[k]));
      assert Wins(compare, entries, p, BaseFlag(r[k]), w) && r[k] == Ruling(entries, BaseFlag(r[k]), w);
    }
  }

  lemma MergedOnce(matches: seq<Match>)
    ensures var r := Merged(matches); forall j, k :: 0 <= j < k < |r| ==> BaseFlag(r[j]) != BaseFlag(r[k])
  {
    hide Listed, BaseFlag, Decision, AllFlags;
    ListedOnce(AllFlags(matches), matches);
  }

  /** Whatever becomes of entries less specific than the winner, the flag keeps its sign. */
  lemma LessSpecificNeverChanges(compare: Comparison, entries: seq<Entry>, others: seq<Entry>, p: Package, base: string, i: int)
    requires Wins(compare, entries, p, base, i) && |others| == |entries|
    requires forall j :: 0 <= j < |entries| && others[j] != entries[j] ==>
               && Specificity(entries[j].atom) < Specificity(entries[i].atom)
               && Specificity(others[j].atom) < Specificity(entries[i].atom)
    ensures Ruling(entries, base, i) in Merged(Ordered(compare, entries, p))
    ensures Ruling(entries, base, i) in Merged(Ordered(compare, others, p))
  {
    hide Matches, MentionedIn, Specificity, Merged, Ordered, LastMention;
    assert others[i] == entries[i];
    forall j | j != i && Speaks(compare, others, p, base, j) ensures Outranks(others, i, j) {
      if others[j] == entries[j] {
        assert Speaks(compare, entries, p, base, j);
      }
    }
    assert Wins(compare, others, p, base, i);
    hide Wins;
    MergeIsPriorityRule(compare, entries, p);
    MergeIsPriorityRule(compare, others, p);
  }

  /** Entry `i` speaks about `base`, and nobody who does is more specific. */
  ghost predicate AtTop(compare: Comparison, entries: seq<Entry>, p: Package, base: string, i: int) {
    && Speaks(compare, entries, p, base, i)
    && forall j :: Speaks(compare, entries, p, base, j) ==> Specificity(entries[j].atom) <= Specificity(entries[i].atom)
  }

  /** `i` is the first, or the last, of the most specific entries that speak about `base`. */
  ghost predicate FirstAtTop(compare: Comparison, entries: seq<Entry>, p: Package, base: string, i: int) {
    AtTop(compare, entries, p, base, i) && forall j :: AtTop(compare, entries, p, base, j) ==> i <= j
  }

  ghost predicate LastAtTop(compare: Comparison, entries: seq<Entry>, p: Package, base: string, i: int) {
    AtTop(compare, entries, p, base, i) && forall j :: AtTop(compare, entries, p, base, j) ==> j <= i
  }

  lemma FirstAtTopWins(compare: Comparison, entries: seq<Entry>, p: Package, base: string, i: int)
    requires FirstAtTop(compare, entries, p, base, i)
    ensures Wins(compare, entries, p, base, i)
  {
    hide Matches, MentionedIn, Specificity;
    forall j | j != i && Speaks(compare, entries, p, base, j) ensures Outranks(entries, i, j) {
      if Specificity(entries[j].atom) == Specificity(entries[i].atom) {
        assert AtTop(compare, entries, p, base, j);
      }
    }
  }

  lemma RulingReads(entries: seq<Entry>, base: string, i: int)
    requires 0 <= i < |entries| && MentionedIn(entries[i].flags, base)
    ensures BaseFlag(Ruling(entries, base, i)) == base
  {
    PositiveBase(entries[i].flags, base);
    assert ("-" + base)[1..] == base;
  }

  lemma SignedApart(base: string)
    ensures Signed(base, true) != Signed(base, false)
  {
    assert |"-" + base| == |base| + 1;
  }

  /** What the comment in the program promises, that the last of the equally specific entries
      decides, holds of a flag if and only if its last word is that of the first one. */
  lemma LastDecidesExactly(compare: Comparison, entries: seq<Entry>, p: Package, base: string, first: int, last: int)
    requires FirstAtTop(compare, entries, p, base, first) && LastAtTop(compare, entries, p, base, last)
    ensures Ruling(entries, base, last) in Merged(Ordered(compare, entries, p))
            <==> LastMention(entries[last].flags, base) == LastMention(entries[first].flags, base)
  {
    hide Matches, MentionedIn, Specificity, Merged, Ordered, LastMention, Wins;
    FirstAtTopWins(compare, entries, p, base, first);
    var w := RuleFor(compare, entries, p, base);
    RulingReads(entries, base, last);
    SignedApart(base);
    var r := Merged(Ordered(compare, entries, p));
    if Ruling(entries, base, last) in r {
      var k :| 0 <= k < |r| && r[k] == Ruling(entries, base, last);
      assert r[k] == Ruling(entries, base, first);
    }
  }

  /** Of two entries for one atom the first keeps its word: the second does not override it. */
  lemma SecondDoesNotOverride(compare: Comparison, a: PackageAtom, p: Package, flag: string)
    requires Matches(compare, a, p) && !IsNegative(flag)
    ensures Merged(Ordered(compare, [Entry(a, [flag]), Entry(a, ["-" + flag])], p)) == [flag]
    ensures Merged(Ordered(compare, [Entry(a, ["-" + flag]), Entry(a, [flag])], p)) == ["-" + flag]
  {
    hide Matches, Specificity;
    TwoEntries(compare, a, p, flag, flag, "-" + flag);
    TwoEntries(compare, a, p, flag, "-" + flag, flag);
  }

  lemma OneBase(compare: Comparison, entries: seq<Entry>, p: Package, b: string, i: int, base: string)
    requires Wins(compare, entries, p, b, i)
    requires forall j, k :: 0 <= j < |entries| && 0 <= k < |entries[j].flags| ==> BaseFlag(entries[j].flags[k]) == base
    ensures b == base
  {
    hide BaseFlag, Matches, Specificity;
  }

  lemma FirstOfTwoWins(compare: Comparison, a: PackageAtom, p: Package, base: string, f: string, g: string)
    requires Matches(compare, a, p) && BaseFlag(f) == base == BaseFlag(g)
    ensures var entries := [Entry(a, [f]), Entry(a, [g])];
            Wins(compare, entries, p, base, 0) && Ruling(entries, base, 0) == f
  {
    hide Matches, Specificity;
    var entries := [Entry(a, [f]), Entry(a, [g])];
    assert BaseFlag(entries[0].flags[0]) == base && BaseFlag(entries[1].flags[0]) == base;
    assert LastMention([f], base) == Some(!IsNegative(f));
  }

  lemma TwoEntries(compare: Comparison, a: PackageAtom, p: Package, base: string, f: string, g: string)
    requires Matches(compare, a, p) && BaseFlag(f) == base == BaseFlag(g)
    ensures Merged(Ordered(compare, [Entry(a, [f]), Entry(a, [g])], p)) == [f]
  {
    hide Matches, Specificity, Merged, Ordered;
    var entries := [Entry(a, [f]), Entry(a, [g])];
    var r := Merged(Ordered(compare, entries, p));
    MergeIsPriorityRule(compare, entries, p);
    assert |r| > 1 ==> BaseFlag(r[0]) != BaseFlag(r[1]);
    FirstOfTwoWins(compare, a, p, base, f, g);
    hide Wins, Ruling;
    forall k | 0 <= k < |r| ensures BaseFlag(r[k]) == base {
      assert RuledBySome(compare, entries, p, r[k]);
      var i :| Wins(compare, entries, p, BaseFlag(r[k]), i);
      OneBase(compare, entries, p, BaseFlag(r[k]), i, base);
    }
  }
}
