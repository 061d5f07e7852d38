/** Edit distance: the two-row algorithm behind command suggestions, against the least
    number of single edits that turn one string into the other. */
module EditDistance {

  // ----- edit scripts -----

  /** A single edit, at a position of the string it is applied to. */
  datatype Edit = Insertion(at: nat, c: char) | Deletion(at: nat) | Substitution(at: nat, c: char)

  predicate Fits(s: string, e: Edit) {
    match e
    case Insertion(at, _) => at <= |s|
    case Deletion(at) => at < |s|
    case Substitution(at, _) => at < |s|
  }

  function EditOnce(s: string, e: Edit): string
    requires Fits(s, e)
  {
    match e
    case Insertion(at, c) => s[..at] + [c] + s[at..]
    case Deletion(at) => s[..at] + s[at + 1..]
    case Substitution(at, c) => s[..at] + [c] + s[at + 1..]
  }

  /** The edits of `script`, one after the other, turn `a` into `b`. */
  predicate Turns(a: string, script: seq<Edit>, b: string)
    decreases |script|
  {
    if script == [] then a == b
    else Fits(a, script[0]) && Turns(EditOnce(a, script[0]), script[1..], b)
  }

  // ----- the recurrence -----

  function Min3(a: int, b: int, c: int): (m: int)
    ensures m <= a && m <= b && m <= c && (m == a || m == b || m == c)
  {
    if a <= b && a <= c then a else if b <= c then b else c
  }

  function Init(s: string): string
    requires s != []
  {
    s[..|s| - 1]
  }

  function Last(s: string): char
    requires s != []
  {
    s[|s| - 1]
  }

  function Cost(x: char, y: char): nat {
    if x != y then 1 else 0
  }

  function Dist(a: string, b: string): nat
    decreases |a| + |b|
  {
    if a == [] then |b|
    else if b == [] then |a|
    else Min3(Dist(Init(a), b) + 1, Dist(a, Init(b)) + 1, Dist(Init(a), Init(b)) + Cost(Last(a), Last(b)))
  }

  // ----- a metric -----

  lemma {:induction false} DistSymmetric(a: string, b: string)
    ensures Dist(a, b) == Dist(b, a)
    decreases |a| + |b|
  {
    if a != [] && b != [] {
      DistSymmetric(Init(a), b);
      DistSymmetric(a, Init(b));
      DistSymmetric(Init(a), Init(b));
    }
  }

  lemma {:induction false} DistZero(a: string, b: string)
    ensures Dist(a, b) == 0 <==> a == b
    decreases |a| + |b|
  {
    if a != [] && b != [] {
      DistZero(Init(a), Init(b));
      assert a == Init(a) + [Last(a)] && b == Init(b) + [Last(b)];
    }
  }

  /** One more character at either end costs at most one. */
  lemma DistGrows(a: string, b: string)
    ensures a != [] ==> Dist(a, b) <= Dist(Init(a), b) + 1
    ensures b != [] ==> Dist(a, b) <= Dist(a, Init(b)) + 1
    ensures a != [] && b != [] ==> Dist(a, b) <= Dist(Init(a), Init(b)) + Cost(Last(a), Last(b))
  {
  }

  lemma {:induction false} Triangle(a: string, b: string, c: string)
    ensures Dist(a, c) <= Dist(a, b) + Dist(b, c)
    decreases |a| + |b| + |c|
  {
    if a == [] {
      LengthBound(b, c);
    } else if c == [] {
      LengthBound(a, b);
    } else if b != [] {
      DistGrows(a, c);
      if Dist(a, b) == Dist(Init(a), b) + 1 {
        Triangle(Init(a), b, c);
      } else if Dist(b, c) == Dist(b, Init(c)) + 1 {
        Triangle(a, b, Init(c));
      } else if Dist(a, b) == Dist(a, Init(b)) + 1 {
        if Dist(b, c) == Dist(Init(b), c) + 1 {
          Triangle(a, Init(b), c);
        } else {
          Triangle(a, Init(b), Init(c));
        }
      } else if Dist(b, c) == Dist(Init(b), c) + 1 {
        Triangle(Init(a), Init(b), c);
      } else {
        Triangle(Init(a), Init(b), Init(c));
      }
    } else {
      ThroughEmpty(a, c);
    }
  }

  /** The distance covers the difference in length. */
  lemma {:induction false} LengthBound(a: string, b: string)
    ensures |b| - |a| <= Dist(a, b) && |a| - |b| <= Dist(a, b)
    decreases |a| + |b|
  {
    if a != [] && b != [] {
      LengthBound(Init(a), b);
      LengthBound(a, Init(b));
      LengthBound(Init(a), Init(b));
    }
  }

  lemma {:induction false} ThroughEmpty(a: string, c: string)
    ensures Dist(a, c) <= |a| + |c|
    decreases |a| + |c|
  {
    if a != [] && c != [] {
      ThroughEmpty(Init(a), c);
    }
  }

  // ----- no script is shorter -----

  /** A common last character costs nothing. */
  lemma SameLast(a: string, b: string, x: char)
    ensures Dist(a + [x], b + [x]) <= Dist(a, b)
  {
    assert Init(a + [x]) == a && Init(b + [x]) == b;
    DistGrows(a + [x], b + [x]);
  }

  lemma {:induction false} SameTail(a: string, b: string, q: string)
    ensures Dist(a + q, b + q) <= Dist(a, b)
    decreases |q|
  {
    if q == [] {
      assert a + q == a && b + q == b;
    } else {
      hide Dist;
      assert a + q == (a + Init(q)) + [Last(q)] && b + q == (b + Init(q)) + [Last(q)];
      hide Init, Last;
      SameTail(a, b, Init(q));
      SameLast(a + Init(q), b + Init(q), Last(q));
    }
  }

  lemma OneEditCostsOne(s: string, e: Edit)
    requires Fits(s, e)
    ensures Dist(s, EditOnce(s, e)) <= 1
  {
    match e
    case Insertion(at, c) =>
      var p := s[..at];
      assert s == p + s[at..];
      DistZero(p, p);
      assert Init(p + [c]) == p;
      DistGrows(p, p + [c]);
      SameTail(p, p + [c], s[at..]);
    case Deletion(at) =>
      var p := s[..at + 1];
      assert s == p + s[at + 1..];
      assert Init(p) == s[..at];
      DistZero(Init(p), Init(p));
      DistGrows(p, Init(p));
      SameTail(p, Init(p), s[at + 1..]);
    case Substitution(at, c) =>
      var p, r := s[..at + 1], s[..at] + [c];
      assert s == p + s[at + 1..];
      assert Init(p) == s[..at] == Init(r);
      DistZero(Init(p), Init(r));
      DistGrows(p, r);
      SameTail(p, r, s[at + 1..]);
  }

  lemma {:induction false} NoScriptIsShorter(a: string, script: seq<Edit>, b: string)
    requires Turns(a, script, b)
    ensures Dist(a, b) <= |script|
    decreases |script|
  {
    if script == [] {
      DistZero(a, b);
    } else {
      var a' := EditOnce(a, script[0]);
      NoScriptIsShorter(a', script[1..], b);
      OneEditCostsOne(a, script[0]);
      Triangle(a, a', b);
    }
  }

  // ----- some script is as short -----

  lemma {:induction false} TurnsThen(a: string, first: seq<Edit>, b: string, second: seq<Edit>, c: string)
    requires Turns(a, first, b) && Turns(b, second, c)
    ensures Turns(a, first + second, c)
    decreases |first|
  {
    hide EditOnce, Fits;
    if first == [] {
      assert first + second == second;
    } else {
      TurnsThen(EditOnce(a, first[0]), first[1..], b, second, c);
      assert (first + second)[0] == first[0] && (first + second)[1..] == first[1..] + second;
    }
  }

  /** A script works the same in front of one more character. */
  lemma {:induction false} TurnsBefore(a: string, script: seq<Edit>, b: string, x: char)
    requires Turns(a, script, b)
    ensures Turns(a + [x], script, b + [x])
    decreases |script|
  {
    if script != [] {
      var e := script[0];
      var a' := EditOnce(a, e);
      TurnsBefore(a', script[1..], b, x);
      match e {
        case Insertion(at, c) => assert EditOnce(a + [x], e) == a' + [x];
        case Deletion(at) => assert EditOnce(a + [x], e) == a' + [x];
        case Substitution(at, c) => assert EditOnce(a + [x], e) == a' + [x];
      }
    }
  }

  lemma ThenInsert(a: string, s: seq<Edit>, b: string) returns (script: seq<Edit>)
    requires b != [] && Turns(a, s, Init(b))
    ensures Turns(a, script, b) && |script| == |s| + 1
  {
    var e := Insertion(|b| - 1, Last(b));
    assert EditOnce(Init(b), e) == b;
    assert [e][1..] == [];
    assert Turns(Init(b), [e], b);
    TurnsThen(a, s, Init(b), [e], b);
    script := s + [e];
  }

  lemma FirstDelete(a: string, s: seq<Edit>, b: string) returns (script: seq<Edit>)
    requires a != [] && Turns(Init(a), s, b)
    ensures Turns(a, script, b) && |script| == |s| + 1
  {
    assert EditOnce(a, Deletion(|a| - 1)) == Init(a);
    script := [Deletion(|a| - 1)] + s;
    assert script[1..] == s;
  }

  lemma FirstSubstitute(a: string, s: seq<Edit>, b: string) returns (script: seq<Edit>)
    requires a != [] && b != [] && Turns(Init(a), s, Init(b))
    ensures Turns(a, script, b) && |script| == |s| + Cost(Last(a), Last(b))
  {
    TurnsBefore(Init(a), s, Init(b), Last(b));
    assert Init(b) + [Last(b)] == b;
    if Last(a) == Last(b) {
      assert Init(a) + [Last(a)] == a;
      script := s;
    } else {
      var e := Substitution(|a| - 1, Last(b));
      assert EditOnce(a, e) == Init(a) + [Last(b)];
      script := [e] + s;
      assert script[1..] == s;
    }
  }

  lemma {:induction false} ShortestScript(a: string, b: string) returns (script: seq<Edit>)
    ensures Turns(a, script, b) && |script| == Dist(a, b)
    decreases |a| + |b|
  {
    if a == [] && b == [] {
      script := [];
    } else {
      hide Turns;
      if a == [] || (b != [] && Dist(a, b) == Dist(a, Init(b)) + 1) {
        var s := ShortestScript(a, Init(b));
        script := ThenInsert(a, s, b);
      } else if b == [] || Dist(a, b) == Dist(Init(a), b) + 1 {
        var s := ShortestScript(Init(a), b);
        script := FirstDelete(a, s, b);
      } else {
        var s := ShortestScript(Init(a), Init(b));
        script := FirstSubstitute(a, s, b);
      }
    }
  }

  /** The recurrence is the least number of single edits. */
  lemma DistIsLeast(a: string, b: string)
    ensures exists script :: Turns(a, script, b) && |script| == Dist(a, b)
    ensures forall script :: Turns(a, script, b) ==> |script| >= Dist(a, b)
  {
    var script := ShortestScript(a, b);
    forall s | Turns(a, s, b) ensures |s| >= Dist(a, b) {
      NoScriptIsShorter(a, s, b);
    }
  }

  // ----- the program -----

  /** Bytes of a character in UTF-8. */
  function Width(c: char): nat {
    var n := c as int;
    if n < 0x80 then 1 else if n < 0x800 then 2 else if n < 0x10000 then 3 else 4
  }

  /** How many characters `k` bytes can tell apart: one byte has seven bits for the character, a
      sequence of two has eleven, of three sixteen, of four what Unicode needs (section 3 of
      RFC 3629). */
  function Reach(k: nat): nat
    requires 1 <= k <= 4
  {
    if k == 1 then 128 else if k == 2 then 2048 else if k == 3 then 65536 else 1114112
  }

  /** A character takes as few bytes as can hold it. */
  lemma WidthIsLeast(c: char)
    ensures 1 <= Width(c) <= 4 && c as int < Reach(Width(c))
    ensures forall k :: 1 <= k < Width(c) ==> c as int >= Reach(k)
  {
  }

  /** The length of a Go string, which counts bytes. */
  function ByteLen(s: string): nat {
    if s == [] then 0 else ByteLen(Init(s)) + Width(Last(s))
  }

  /** What the program returns: with an empty argument it counts bytes. */
  function Distance(a: string, b: string): nat {
    if a == [] then ByteLen(b) else if b == [] then ByteLen(a) else Dist(a, b)
  }

  lemma PrefixStep(s: string, i: nat)
    requires 0 < i <= |s|
    ensures s[..i] != [] && Init(s[..i]) == s[..i - 1] && Last(s[..i]) == s[i - 1]
  {
  }

  method Levenshtein(a0: string, b0: string) returns (d: nat)
    ensures d == Distance(a0, b0)
  {
    var a, b := a0, b0;
    if ByteLen(a) == 0 {
      EmptyByBytes(a);
      return ByteLen(b);
    }
    if ByteLen(b) == 0 {
      EmptyByBytes(b);
      return ByteLen(a);
    }
    if ByteLen(a) > ByteLen(b) {
      a, b := b, a;
      DistSymmetric(a, b);
    }
    d := TwoRows(a, b);
  }

  lemma EmptyByBytes(s: string)
    ensures ByteLen(s) == 0 <==> s == []
  {
  }

  /** The matrix row by row, keeping two rows. */
  method TwoRows(a: string, b: string) returns (d: nat)
    ensures d == Dist(a, b)
  {
    hide Dist;
    var prevRow := new int[|a| + 1];
    var currRow := new int[|a| + 1];
    var i := 0;
    while i < prevRow.Length
      invariant i <= prevRow.Length
      invariant forall k :: 0 <= k < i ==> prevRow[k] == k
    {
      prevRow[i] := i;
      i := i + 1;
    }
    FirstRow(a, b);
    var j := 1;
    while j <= |b|
      invariant 1 <= j <= |b| + 1
      invariant prevRow.Length == currRow.Length == |a| + 1 && prevRow != currRow
      invariant forall k :: 0 <= k <= |a| ==> prevRow[k] == Dist(a[..k], b[..j - 1])
      invariant fresh(prevRow) && fresh(currRow)
    {
      FillRow(a, b, j, prevRow, currRow);
      prevRow, currRow := currRow, prevRow;
      j := j + 1;
    }
    assert a[..|a|] == a && b[..|b|] == b;
    return prevRow[|a|];
  }

  lemma FirstRow(a: string, b: string)
    ensures forall k :: 0 <= k <= |a| ==> Dist(a[..k], b[..0]) == k
  {
  }

  /** Computes row `j` from row `j - 1`. */
  method FillRow(a: string, b: string, j: nat, prevRow: array<int>, currRow: array<int>)
    requires 1 <= j <= |b| && prevRow != currRow && prevRow.Length == currRow.Length == |a| + 1
    requires forall k :: 0 <= k <= |a| ==> prevRow[k] == Dist(a[..k], b[..j - 1])
    modifies currRow
    ensures forall k :: 0 <= k <= |a| ==> currRow[k] == Dist(a[..k], b[..j])
  {
    hide Dist;
    currRow[0] := j;
    Row0(a, b, j);
    var i := 1;
    while i <= |a|
      invariant 1 <= i <= |a| + 1
      invariant forall k :: 0 <= k < i ==> currRow[k] == Dist(a[..k], b[..j])
      invariant forall k :: 0 <= k <= |a| ==> prevRow[k] == Dist(a[..k], b[..j - 1])
    {
      var cost := 0;
      if a[i - 1] != b[j - 1] {
        cost := 1;
      }
      Recur(a, b, i, j);
      currRow[i] := Min3(prevRow[i] + 1, currRow[i - 1] + 1, prevRow[i - 1] + cost);
      i := i + 1;
    }
  }

  lemma Row0(a: string, b: string, j: nat)
    requires j <= |b|
    ensures Dist(a[..0], b[..j]) == j
  {
  }

  lemma Recur(a: string, b: string, i: nat, j: nat)
    requires 0 < i <= |a| && 0 < j <= |b|
    ensures Dist(a[..i], b[..j]) ==
            Min3(Dist(a[..i], b[..j - 1]) + 1, Dist(a[..i - 1], b[..j]) + 1, Dist(a[..i - 1], b[..j - 1]) + Cost(a[i - 1], b[j - 1]))
  {
    PrefixStep(a, i);
    PrefixStep(b, j);
  }

  // ----- when the program is exact -----

  predicate Ascii(s: string) {
    forall i :: 0 <= i < |s| ==> s[i] as int < 0x80
  }

  lemma {:induction false} BytesAreCharacters(s: string)
    ensures ByteLen(s) >= |s| && (ByteLen(s) == |s| <==> Ascii(s))
  {
    if s != [] {
      BytesAreCharacters(Init(s));
      assert Ascii(s) <==> Ascii(Init(s)) && Last(s) as int < 0x80 by {
        assert s == Init(s) + [Last(s)];
      }
    }
  }

  /** The program returns the edit distance, unless one argument is empty and the other has a
      character outside ASCII. */
  lemma DistanceIsExact(a: string, b: string)
    ensures Distance(a, b) == Dist(a, b) <==> (a == [] ==> Ascii(b)) && (b == [] ==> Ascii(a))
  {
    BytesAreCharacters(a);
    BytesAreCharacters(b);
  }

  /** For an accented letter against nothing it returns 2, where one insertion is enough. */
  lemma DistanceCountsBytes()
    ensures Distance("", "\U{00e9}") == 2 && Turns("", [Insertion(0, '\U{00e9}')], "\U{00e9}")
  {
    assert Init("\U{00e9}") == "" && Last("\U{00e9}") == '\U{00e9}';
    assert EditOnce("", Insertion(0, '\U{00e9}')) == "\U{00e9}";
    assert [Insertion(0, '\U{00e9}')][1..] == [];
  }

  /** What survives in any case: the result is symmetric, and zero for equal strings only. */
  lemma DistanceSymmetricZero(a: string, b: string)
    ensures Distance(a, b) == Distance(b, a) && (Distance(a, b) == 0 <==> a == b)
  {
    DistSymmetric(a, b);
    DistZero(a, b);
    EmptyByBytes(a);
    EmptyByBytes(b);
  }

  lemma {:induction false} OneLetter(x: char, c: string)
    requires c != []
    ensures Dist([x], c) <= |c| - if x in c then 1 else 0
    decreases |c|
  {
    assert c == Init(c) + [Last(c)];
    assert Init([x]) == [];
    DistGrows([x], c);
    if |c| > 1 {
      OneLetter(x, Init(c));
    }
  }

  /** Two bytes for every character, or there is an ASCII one. */
  lemma {:induction false} WideOrAscii(c: string)
    ensures ByteLen(c) >= 2 * |c| || exists x :: x in c && Width(x) == 1
  {
    if c != [] {
      assert c == Init(c) + [Last(c)];
      WideOrAscii(Init(c));
      if Width(Last(c)) == 1 {
        assert Last(c) in c;
      } else if x :| x in Init(c) && Width(x) == 1 {
        assert x in c;
      }
    }
  }

  /** From nothing to `c` no way round is shorter. */
  predicate NoShortcut(c: string) {
    Ascii(c) || (|c| == 1 && ByteLen(c) == 2)
  }

  /** Otherwise the way by a single letter is shorter. */
  lemma Shortcut(c: string) returns (b: string)
    requires !NoShortcut(c)
    ensures Distance([], c) > Distance([], b) + Distance(b, c)
  {
    BytesAreCharacters(c);
    WideOrAscii(c);
    var x := 'a';
    if ByteLen(c) < 2 * |c| {
      x :| x in c && Width(x) == 1;
    }
    b := [x];
    assert Init(b) == [] && Last(b) == x;
    assert ByteLen([]) == 0 && ByteLen(b) == Width(x) == 1;
    assert c != [] by { assert Ascii([]); }
    OneLetter(x, c);
    hide Dist, ByteLen;
  }

  /** The triangle inequality holds between two strings, whatever the third, unless one is
      empty and the other has a character outside ASCII and is not a single one of two bytes. */
  lemma DistanceTriangle(a: string, c: string)
    ensures (forall b :: Distance(a, c) <= Distance(a, b) + Distance(b, c)) <==>
            (a == [] ==> NoShortcut(c)) && (c == [] ==> NoShortcut(a))
  {
    hide Dist, Ascii;
    if (a == [] ==> NoShortcut(c)) && (c == [] ==> NoShortcut(a)) {
      forall b ensures Distance(a, c) <= Distance(a, b) + Distance(b, c) {
        TriangleHolds(a, b, c);
      }
    } else if a == [] {
      var b := Shortcut(c);
    } else {
      var b := Shortcut(a);
      DistanceSymmetricZero(a, b);
      DistanceSymmetricZero(b, c);
      DistanceSymmetricZero(a, c);
    }
  }

  lemma TriangleHolds(a: string, b: string, c: string)
    requires (a == [] ==> NoShortcut(c)) && (c == [] ==> NoShortcut(a))
    ensures Distance(a, c) <= Distance(a, b) + Distance(b, c)
  {
    hide Dist;
    if (a == [] ==> Ascii(c)) && (c == [] ==> Ascii(a)) {
      DistanceIsExact(a, c);
      AtLeastDist(a, b);
      AtLeastDist(b, c);
      Triangle(a, b, c);
    } else {
      DistanceSymmetricZero(a, b);
      DistanceSymmetricZero(b, c);
      DistanceSymmetricZero(a, c);
    }
  }

  lemma AtLeastDist(a: string, b: string)
    ensures Distance(a, b) >= Dist(a, b)
  {
    BytesAreCharacters(a);
    BytesAreCharacters(b);
  }
}
