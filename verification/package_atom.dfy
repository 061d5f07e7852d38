/** Package atoms of package.use: what they match and how specific they are. The comparison of
    two versions is a parameter. */
module PackageAtoms {

  datatype Operator = NoOperator | Equal | Tilde | EqualStar | AtLeast | AtMost | Above | Below

  datatype PackageAtom = PackageAtom(operator: Operator, category: string, name: string, version: string, slot: string)

  datatype Package = Package(category: string, name: string, version: string, slot: string)

  /** Negative, zero or positive, as the first version is older, as old or newer. */
  type Comparison = (string, string) -> int

  // ----- specificity -----

  const WILDCARD := -1
  const WILDCARD_SLOT := 0
  const CP := 1
  const RANGE := 2
  const SLOT := 3
  const VERSION_PREFIX := 4
  const REVISION := 5
  const EXACT := 6

  function Specificity(a: PackageAtom): (s: int)
    ensures s <= WILDCARD_SLOT <==> '*' in a.category || '*' in a.name
  {
    if '*' in a.category || '*' in a.name then
      if a.slot != "" then WILDCARD_SLOT else WILDCARD
    else match a.operator
      case Equal => EXACT
      case Tilde => REVISION
      case EqualStar => VERSION_PREFIX
      case AtLeast => RANGE
      case AtMost => RANGE
      case Above => RANGE
      case Below => RANGE
      case NoOperator => if a.slot != "" then SLOT else CP
  }

  // ----- patterns -----

  predicate HasPrefix(s: string, prefix: string) {
    prefix <= s
  }

  predicate HasSuffix(s: string, suffix: string) {
    |suffix| <= |s| && s[|s| - |suffix|..] == suffix
  }

  predicate MatchPattern(pattern: string, value: string) {
    if pattern == "*" then true
    else if pattern == value then true
    else if HasSuffix(pattern, "*") then HasPrefix(value, pattern[..|pattern| - 1])
    else if HasPrefix(pattern, "*") then HasSuffix(value, pattern[1..])
    else false
  }

  function Front(s: string): string
    requires s != ""
  {
    s[..|s| - 1]
  }

  function Joined(a: string, b: string): string {
    a + b
  }

  /** A star stands for any text, but only at one end: the last one if there are two. */
  lemma MatchPatternMeans(pattern: string, value: string)
    ensures MatchPattern(pattern, value) <==>
            if pattern != "" && pattern[|pattern| - 1] == '*' then exists w :: value == Joined(Front(pattern), w)
            else if pattern != "" && pattern[0] == '*' then exists w :: value == Joined(w, pattern[1..])
            else value == pattern
  {
    if pattern != "" && pattern[|pattern| - 1] == '*' {
      var stem := Front(pattern);
      assert pattern == stem + "*";
      if HasPrefix(value, stem) {
        assert value == Joined(stem, value[|stem|..]);
      }
      assert HasSuffix(pattern, "*");
    } else if pattern != "" && pattern[0] == '*' {
      var stem := pattern[1..];
      assert pattern == "*" + stem;
      if HasSuffix(value, stem) {
        assert value == Joined(value[..|value| - |stem|], stem);
      }
      if w :| value == Joined(w, stem) {
        assert value[|value| - |stem|..] == stem;
      }
    }
  }

  /** The part before the first slash, and whether there is one. */
  function MainSlot(s: string): (m: string)
    ensures m <= s && '/' !in m && (m == s || s[|m|] == '/')
  {
    if s == "" || s[0] == '/' then "" else [s[0]] + MainSlot(s[1..])
  }

  predicate HasSubslot(s: string) {
    MainSlot(s) != s
  }

  function Subslot(s: string): string
    requires HasSubslot(s)
  {
    s[|MainSlot(s)| + 1..]
  }

  predicate MatchSlot(atomSlot: string, pkgSlot: string) {
    if atomSlot == "*" then true
    else if MainSlot(atomSlot) != MainSlot(pkgSlot) && MainSlot(atomSlot) != "*" then false
    else if HasSubslot(atomSlot) && HasSubslot(pkgSlot) then
      Subslot(atomSlot) == Subslot(pkgSlot) || Subslot(atomSlot) == "*"
    else true
  }

  // ----- versions -----

  predicate IsDigits(s: string) {
    s != "" && forall c :: c in s ==> '0' <= c <= '9'
  }

  /** A revision suffix "-rN" begins just before position `i`, not at the front. */
  predicate RevisionAt(v: string, i: int) {
    2 <= i < |v| && v[i - 1] == '-' && v[i] == 'r' && IsDigits(v[i + 1..])
  }

  /** The version without its revision. */
  function Stripped(v: string, n: nat): string
    requires n <= |v|
  {
    if n == 0 then v
    else if RevisionAt(v, n - 1) then v[..n - 2]
    else Stripped(v, n - 1)
  }

  method StripRevision(version: string) returns (r: string)
    ensures r == Stripped(version, |version|)
  {
    var i := |version| - 1;
    while i >= 2
      invariant -1 <= i < |version|
      invariant Stripped(version, |version|) == Stripped(version, i + 1)
    {
      if version[i - 1] == '-' && version[i] == 'r' {
        var rest := version[i + 1..];
        if IsDigits(rest) {
          return version[..i - 1];
        }
      }
      i := i - 1;
    }
    ShortNotStripped(version, i + 1);
    return version;
  }

  lemma ShortNotStripped(v: string, n: nat)
    requires n <= |v| && n <= 2
    ensures Stripped(v, n) == v
  {
  }

  /** A revision is taken off, and nothing else is: there is at most one place for it. */
  lemma StripsOneRevision(v: string, base: string, digits: string)
    requires base != "" && IsDigits(digits) && v == base + "-r" + digits
    ensures Stripped(v, |v|) == base
  {
    var at := |base| + 1;
    assert v[at + 1..] == digits;
    StripsAt(v, |v|, at);
    assert v[..at - 1] == base;
  }

  /** A version without a revision stays as it is, and only such a one does. */
  lemma StripsNothingExactly(v: string)
    ensures Stripped(v, |v|) == v <==> forall i :: !RevisionAt(v, i)
  {
    if forall i :: !RevisionAt(v, i) {
      NothingStripped(v, |v|);
    } else {
      var i :| RevisionAt(v, i);
      StripsAt(v, |v|, i);
      assert |v[..i - 1]| < |v|;
    }
  }

  lemma {:induction false} NothingStripped(v: string, n: nat)
    requires n <= |v| && forall i :: !RevisionAt(v, i)
    ensures Stripped(v, n) == v
  {
    if n > 0 {
      NothingStripped(v, n - 1);
    }
  }

  lemma {:induction false} StripsAt(v: string, n: nat, at: nat)
    requires at < n <= |v| && RevisionAt(v, at)
    ensures Stripped(v, n) == v[..at - 1]
  {
    if n - 1 > at {
      assert v[n - 1] == v[at + 1..][n - 2 - at];
      assert v[at + 1..][n - 2 - at] in v[at + 1..];
      StripsAt(v, n - 1, at);
    }
  }

  predicate MatchVersion(compare: Comparison, a: PackageAtom, pkgVersion: string) {
    if pkgVersion == "" then a.operator == NoOperator
    else
      var cmp := compare(pkgVersion, a.version);
      match a.operator
      case Equal => cmp == 0
      case AtLeast => cmp >= 0
      case AtMost => cmp <= 0
      case Above => cmp > 0
      case Below => cmp < 0
      case Tilde => compare(Stripped(pkgVersion, |pkgVersion|), Stripped(a.version, |a.version|)) == 0
      case EqualStar => HasPrefix(pkgVersion, a.version)
      case NoOperator => true
  }

  predicate Matches(compare: Comparison, a: PackageAtom, p: Package) {
    && MatchPattern(a.category, p.category)
    && MatchPattern(a.name, p.name)
    && (a.slot != "" && p.slot != "" ==> MatchSlot(a.slot, p.slot))
    && (a.operator != NoOperator && a.version != "" ==> MatchVersion(compare, a, p.version))
  }
}
