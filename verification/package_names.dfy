/** Package names with and without a version, as the conflict detector and the package reader
    take them apart. */
module PackageNames {

  predicate IsDigit(c: char) {
    '0' <= c <= '9'
  }

  predicate IsVersionChar(c: char) {
    IsDigit(c) || 'a' <= c <= 'z' || 'A' <= c <= 'Z' || c == '.' || c == '-' || c == '_'
  }

  /** Starts with a digit and holds nothing but version characters. */
  predicate VersionLike(s: string) {
    s != "" && IsDigit(s[0]) && forall c :: c in s ==> IsVersionChar(c)
  }

  method LooksLikeVersion(s: string) returns (r: bool)
    ensures r == VersionLike(s)
    ensures r <==> s != "" && '0' <= s[0] <= '9' &&
                   forall c :: c in s ==> '0' <= c <= '9' || 'a' <= c <= 'z' || 'A' <= c <= 'Z' || c == '.' || c == '-' || c == '_'
  {
    if s == "" {
      return false;
    }
    if s[0] < '0' || s[0] > '9' {
      return false;
    }
    var hasDigit := false;
    var i := 0;
    while i < |s|
      invariant i <= |s|
      invariant forall c :: c in s[..i] ==> IsVersionChar(c)
      invariant i > 0 ==> hasDigit
    {
      var c := s[i];
      if c >= '0' && c <= '9' {
        hasDigit := true;
      } else if !(c >= 'a' && c <= 'z') && !(c >= 'A' && c <= 'Z') && !(c == '.' || c == '-' || c == '_') {
        assert s[i] in s && !IsVersionChar(s[i]);
        return false;
      }
      assert s[..i + 1] == s[..i] + [c];
      i := i + 1;
    }
    assert s[..i] == s;
    return hasDigit;
  }

  // ----- splitting at slashes -----

  function Split(s: string): (parts: seq<string>)
    ensures parts != []
  {
    if s == "" then [""]
    else if s[0] == '/' then [""] + Split(s[1..])
    else var rest := Split(s[1..]); [[s[0]] + rest[0]] + rest[1..]
  }

  lemma {:induction false} SplitOne(s: string)
    ensures |Split(s)| == 1 <==> '/' !in s
    ensures '/' !in s ==> Split(s) == [s]
  {
    if s != "" {
      assert s == [s[0]] + s[1..];
      SplitOne(s[1..]);
    }
  }

  /** There are two parts exactly if there is one slash, and the parts are what it separates. */
  lemma {:induction false} SplitPair(s: string)
    ensures |Split(s)| == 2 ==>
              s == Split(s)[0] + "/" + Split(s)[1] && '/' !in Split(s)[0] && '/' !in Split(s)[1]
  {
    if s != "" {
      assert s == [s[0]] + s[1..];
      SplitOne(s[1..]);
      SplitPair(s[1..]);
    }
  }

  lemma {:induction false} SplitJoined(a: string, b: string)
    requires '/' !in a && '/' !in b
    ensures Split(a + "/" + b) == [a, b]
  {
    var s := a + "/" + b;
    if a == "" {
      assert s[1..] == b;
      SplitOne(b);
    } else {
      assert s[1..] == a[1..] + "/" + b;
      assert a == [a[0]] + a[1..];
      SplitJoined(a[1..], b);
    }
  }

  // ----- the base name -----

  predicate VersionAt(s: string, i: int) {
    0 <= i < |s| && s[i] == '-' && VersionLike(s[i + 1..])
  }

  /** The last of the first `n` positions that holds a dash before a version. */
  function VersionDash(s: string, n: nat): (i: int)
    requires n <= |s|
    ensures -1 <= i < n
    ensures i >= 0 ==> VersionAt(s, i)
    ensures forall k :: i < k < n ==> !VersionAt(s, k)
  {
    if n == 0 then -1
    else if VersionAt(s, n - 1) then n - 1
    else VersionDash(s, n - 1)
  }

  function BaseName(pkg: string): string {
    var parts := Split(pkg);
    if |parts| != 2 then pkg
    else
      var dash := VersionDash(parts[1], |parts[1]|);
      if dash == -1 then pkg else parts[0] + "/" + parts[1][..dash]
  }

  method ExtractPackageName(pkg: string) returns (name: string)
    ensures name == BaseName(pkg)
  {
    var parts := Split(pkg);
    if |parts| != 2 {
      return pkg;
    }
    var nameWithVersion := parts[1];
    var dashes := DashIndices(nameWithVersion);
    if |dashes| == 0 {
      return pkg;
    }
    var i := |dashes| - 1;
    while i >= 0
      invariant -1 <= i < |dashes|
      invariant forall k :: i < k < |dashes| ==> !VersionAt(nameWithVersion, dashes[k])
    {
      var dashPos := dashes[i];
      var isVersion := LooksLikeVersion(nameWithVersion[dashPos + 1..]);
      if isVersion {
        LastVersionDash(nameWithVersion, dashes, i);
        return parts[0] + "/" + nameWithVersion[..dashPos];
      }
      i := i - 1;
    }
    return pkg;
  }

  ghost predicate AreDashes(s: string, n: nat, dashes: seq<nat>)
    requires n <= |s|
  {
    && (forall j, k :: 0 <= j < k < |dashes| ==> dashes[j] < dashes[k])
    && (forall k :: 0 <= k < |dashes| ==> dashes[k] < n && s[dashes[k]] == '-')
    && (forall k :: 0 <= k < n && s[k] == '-' ==> k in dashes)
  }

  method DashIndices(s: string) returns (dashes: seq<nat>)
    ensures AreDashes(s, |s|, dashes)
  {
    dashes := [];
    for i := 0 to |s|
      invariant AreDashes(s, i, dashes)
    {
      if s[i] == '-' {
        ghost var before := dashes;
        dashes := dashes + [i];
        forall k | 0 <= k < i + 1 && s[k] == '-' ensures k in dashes {
          if k < i { assert k in before; } else { assert dashes[|before|] == k; }
        }
      }
    }
  }

  lemma LastVersionDash(s: string, dashes: seq<nat>, i: nat)
    requires AreDashes(s, |s|, dashes) && i < |dashes| && VersionAt(s, dashes[i])
    requires forall k :: i < k < |dashes| ==> !VersionAt(s, dashes[k])
    ensures VersionDash(s, |s|) == dashes[i]
  {
    hide VersionLike;
    var d := VersionDash(s, |s|);
    assert d >= dashes[i];
    assert VersionAt(s, d);
    hide VersionAt, VersionDash;
    assert d in dashes;
    var k :| 0 <= k < |dashes| && dashes[k] == d;
    DashesAscend(s, dashes, if k < i then k else i, i);
  }

  lemma DashesAscend(s: string, dashes: seq<nat>, j: nat, k: nat)
    requires AreDashes(s, |s|, dashes) && j <= k < |dashes|
    ensures j < k ==> dashes[j] < dashes[k]
  {
  }

  // ----- splitting inverts joining, exactly when the version is unambiguous -----

  ghost predicate SlashFree(s: string) {
    '/' !in s
  }

  /** No tail of `s` after a hyphen looks like a version. */
  ghost predicate NoVersionTail(s: string) {
    forall i :: 0 <= i < |s| ==> !VersionAt(s, i)
  }

  lemma BaseNameOfPair(c: string, m: string)
    requires SlashFree(c) && SlashFree(m)
    ensures var dash := VersionDash(m, |m|);
            BaseName(c + "/" + m) == if dash == -1 then c + "/" + m else c + "/" + m[..dash]
  {
    SplitJoined(c, m);
  }

  /** A text with any other number of slashes than one is its own base name, and so is one with
      one slash and no version. */
  lemma OddNamesStay(pkg: string, c: string, m: string)
    ensures SlashFree(pkg) ==> BaseName(pkg) == pkg
    ensures SlashFree(c) && SlashFree(m) && NoVersionTail(m) ==> BaseName(c + "/" + m) == c + "/" + m
    ensures '/' in c && '/' in m ==> BaseName(c + m) == c + m
  {
    SplitOne(pkg);
    if SlashFree(c) && SlashFree(m) {
      BaseNameOfPair(c, m);
    }
    if '/' in c && '/' in m {
      TwoSlashes(c, m);
    }
  }

  lemma TwoSlashes(c: string, m: string)
    requires '/' in c && '/' in m
    ensures |Split(c + m)| != 2
  {
    var i :| 0 <= i < |c| && c[i] == '/';
    var j :| 0 <= j < |m| && m[j] == '/';
    assert (c + m)[i] == '/' && (c + m)[|c| + j] == '/';
    SplitPair(c + m);
    if |Split(c + m)| == 2 {
      OnlySlash(Split(c + m)[0], Split(c + m)[1]);
    }
  }

  lemma OnlySlash(a: string, b: string)
    requires '/' !in a && '/' !in b
    ensures forall i :: 0 <= i < |a + "/" + b| && i != |a| ==> (a + "/" + b)[i] != '/'
  {
    var s := a + "/" + b;
    forall i | 0 <= i < |s| && i != |a| ensures s[i] != '/' {
      assert s[i] == if i < |a| then a[i] else b[i - |a| - 1];
    }
  }

  lemma TailOfVersion(n: string, v: string, i: nat)
    requires i <= |v|
    ensures (n + "-" + v)[|n| + 1 + i..] == v[i..]
  {
  }

  lemma VersionTails(n: string, v: string)
    ensures VersionAt(n + "-" + v, |n|) <==> VersionLike(v)
    ensures forall i :: |n| < i < |n| + 1 + |v| ==> (VersionAt(n + "-" + v, i) <==> VersionAt(v, i - |n| - 1))
  {
    var m := n + "-" + v;
    TailOfVersion(n, v, 0);
    forall i | |n| < i < |m| ensures VersionAt(m, i) <==> VersionAt(v, i - |n| - 1) {
      TailOfVersion(n, v, i - |n|);
    }
  }

  lemma SplittingInvertsJoining(c: string, n: string, v: string)
    requires SlashFree(c) && SlashFree(n) && SlashFree(v)
    ensures BaseName(c + "/" + n + "-" + v) == c + "/" + n <==> VersionLike(v) && NoVersionTail(v)
  {
    hide VersionAt, VersionLike;
    var m := n + "-" + v;
    assert c + "/" + n + "-" + v == c + "/" + m;
    BaseNameOfPair(c, m);
    VersionTails(n, v);
    var dash := VersionDash(m, |m|);
    forall i | 0 <= i < |v| ensures VersionAt(m, |n| + 1 + i) <==> VersionAt(v, i) {
    }
    if BaseName(c + "/" + m) == c + "/" + n {
      assert |c + "/" + n| == |c| + 1 + |n|;
      assert dash == |n|;
    }
    if VersionLike(v) && NoVersionTail(v) {
      assert dash == |n|;
      assert m[..|n|] == n;
    }
  }

  /** A bare name and the name with a version count as the same package exactly if no tail of
      the bare name looks like a version itself. */
  lemma BareNameMatches(c: string, n: string, v: string)
    requires SlashFree(c) && SlashFree(n) && SlashFree(v) && VersionLike(v) && NoVersionTail(v)
    ensures BaseName(c + "/" + n) == BaseName(c + "/" + n + "-" + v) <==> NoVersionTail(n)
  {
    SplittingInvertsJoining(c, n, v);
    BaseNameOfPair(c, n);
    if !NoVersionTail(n) {
      var dash := VersionDash(n, |n|);
      assert |c + "/" + n[..dash]| < |c + "/" + n|;
    }
  }

  // ----- the package reader's way -----

  predicate DigitAfterDash(s: string, i: int) {
    0 <= i < |s| - 1 && s[i] == '-' && IsDigit(s[i + 1])
  }

  /** The name ends at the last hyphen before a digit; without one there is no version. */
  ghost predicate SplitsInto(s: string, name: string, version: string) {
    || ((name, version) == (s, "") && forall i :: !DigitAfterDash(s, i))
    || (s == name + "-" + version && DigitAfterDash(s, |name|) && forall i :: i > |name| ==> !DigitAfterDash(s, i))
  }

  method SplitPkgNameVersion(s: string) returns (name: string, version: string)
    ensures SplitsInto(s, name, version)
  {
    var lastHyphen := -1;
    var i := |s| - 1;
    while i >= 0
      invariant -1 <= i < |s| && lastHyphen == -1
      invariant forall k :: k > i ==> !DigitAfterDash(s, k)
    {
      if s[i] == '-' {
        if i + 1 < |s| && s[i + 1] >= '0' && s[i + 1] <= '9' {
          lastHyphen := i;
          break;
        }
      }
      i := i - 1;
    }
    if lastHyphen == -1 {
      return s, "";
    }
    return s[..lastHyphen], s[lastHyphen + 1..];
  }

  /** The reader and the conflict detector find the same name exactly if the reader finds no
      version or one that looks like a version to the detector. */
  lemma SplittersAgree(c: string, s: string, name: string, version: string)
    requires SlashFree(c) && SlashFree(s) && SplitsInto(s, name, version)
    ensures BaseName(c + "/" + s) == c + "/" + name <==> version == "" || VersionLike(version)
  {
    BaseNameOfPair(c, s);
    var dash := VersionDash(s, |s|);
    forall i | VersionAt(s, i) ensures DigitAfterDash(s, i) {
      assert s[i + 1..][0] == s[i + 1];
    }
    if s == name + "-" + version && DigitAfterDash(s, |name|) {
      var at := |name|;
      assert s[at + 1..] == version;
      if VersionLike(version) {
        assert VersionAt(s, at);
        assert dash == at;
        assert s[..at] == name;
      } else {
        assert version[0] == s[at + 1];
        var bad :| bad in version && !IsVersionChar(bad);
        forall i | 0 <= i < at ensures !VersionAt(s, i) {
          SuffixIn(s, i + 1, at + 1, bad);
        }
        assert dash == -1;
        assert |c + "/" + s| > |c + "/" + name|;
      }
    }
  }

  lemma SuffixIn(s: string, i: nat, j: nat, x: char)
    requires i <= j <= |s| && x in s[j..]
    ensures x in s[i..]
  {
    assert s[i..][j - i..] == s[j..];
    var k :| 0 <= k < |s[j..]| && s[j..][k] == x;
    assert s[i..][j - i + k] == x;
  }

  /** Over letters, digits, dots, dashes and underscores they always agree. */
  lemma SplittersAgreeOnPlainNames(c: string, s: string, name: string, version: string)
    requires SlashFree(c) && SplitsInto(s, name, version) && forall x :: x in s ==> IsVersionChar(x)
    ensures BaseName(c + "/" + s) == c + "/" + name
  {
    SplittersAgree(c, s, name, version);
    if version != "" {
      var at := |name|;
      assert version == s[at + 1..];
      assert version[0] == s[at + 1];
      forall x | x in version ensures x in s {
        SuffixIn(s, 0, at + 1, x);
        assert s[0..] == s;
      }
    }
  }
}
