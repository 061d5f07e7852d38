/** The forms of atoms: which take precedence in the merge, and what each of them matches. */
module PackageForms {
  import opened PackageAtoms
  import opened PackageUse
  import opened PackageUseRule

  // ----- precedence by form -----

  datatype AtomForm = ExactVersion | AnyRevision | VersionPrefix | NameAndSlot | VersionRange | NameOnly | PatternAndSlot | PatternOnly

  /** From the most specific one to the least specific one. */
  const FORMS: seq<AtomForm> :=
    [ExactVersion, AnyRevision, VersionPrefix, NameAndSlot, VersionRange, NameOnly, PatternAndSlot, PatternOnly]

  predicate IsPattern(a: PackageAtom) {
    (exists i :: 0 <= i < |a.category| && a.category[i] == '*') || (exists i :: 0 <= i < |a.name| && a.name[i] == '*')
  }

  predicate HasForm(a: PackageAtom, form: AtomForm) {
    match form
    case ExactVersion => !IsPattern(a) && a.operator == Equal
    case AnyRevision => !IsPattern(a) && a.operator == Tilde
    case VersionPrefix => !IsPattern(a) && a.operator == EqualStar
    case NameAndSlot => !IsPattern(a) && a.operator == NoOperator && a.slot != ""
    case VersionRange => !IsPattern(a) && (a.operator == AtLeast || a.operator == AtMost || a.operator == Above || a.operator == Below)
    case NameOnly => !IsPattern(a) && a.operator == NoOperator && a.slot == ""
    case PatternAndSlot => IsPattern(a) && a.slot != ""
    case PatternOnly => IsPattern(a) && a.slot == ""
  }

  lemma SpecificityOfForm(a: PackageAtom, n: nat)
    requires n < |FORMS|
    ensures HasForm(a, FORMS[n]) <==> Specificity(a) == 6 - n
  {
    if '*' in a.category {
      var i :| 0 <= i < |a.category| && a.category[i] == '*';
    }
    if '*' in a.name {
      var i :| 0 <= i < |a.name| && a.name[i] == '*';
    }
    assert IsPattern(a) <==> '*' in a.category || '*' in a.name;
  }

  /** Every atom has exactly one form. */
  lemma FormExists(a: PackageAtom) returns (n: nat)
    ensures n < |FORMS| && HasForm(a, FORMS[n])
    ensures forall m :: 0 <= m < |FORMS| && HasForm(a, FORMS[m]) ==> m == n
  {
    n := 6 - Specificity(a);
    forall m | 0 <= m < |FORMS| ensures HasForm(a, FORMS[m]) <==> m == n {
      SpecificityOfForm(a, m);
    }
  }

  /** Among the entries that speak about a flag, the first of the most specific form among them
      decides: its last word is listed. */
  lemma FormDecides(compare: Comparison, entries: seq<Entry>, p: Package, base: string, i: int, n: nat)
    requires Speaks(compare, entries, p, base, i) && n < |FORMS| && HasForm(entries[i].atom, FORMS[n])
    requires forall j, m :: Speaks(compare, entries, p, base, j) && 0 <= m < |FORMS| && HasForm(entries[j].atom, FORMS[m]) ==>
               n < m || (n == m && i <= j)
    ensures (if LastMention(entries[i].flags, base).value then base else "-" + base) in Merged(Ordered(compare, entries, p))
  {
    hide Matches, MentionedIn, Specificity, HasForm, Merged, Ordered, LastMention;
    SpecificityOfForm(entries[i].atom, n);
    forall j | j != i && Speaks(compare, entries, p, base, j) ensures Outranks(entries, i, j) {
      var m := FormExists(entries[j].atom);
      SpecificityOfForm(entries[j].atom, m);
    }
    var w := RuleFor(compare, entries, p, base);
    assert Wins(compare, entries, p, base, i);
  }

  // ----- what the forms match -----

  /** An atom without a pattern matches its own package only. */
  lemma PlainAtomsMatchOne(compare: Comparison, a: PackageAtom, p: Package)
    requires !IsPattern(a) && Matches(compare, a, p)
    ensures a.category == p.category && a.name == p.name
  {
    PlainPattern(a.category, p.category);
    PlainPattern(a.name, p.name);
  }

  lemma PlainPattern(pattern: string, value: string)
    requires forall i :: 0 <= i < |pattern| ==> pattern[i] != '*'
    ensures MatchPattern(pattern, value) <==> pattern == value
  {
    MatchPatternMeans(pattern, value);
  }

  /** The package named by the atom, both with a version, and no slot in the way. */
  predicate Named(a: PackageAtom, p: Package) {
    !IsPattern(a) && a.category == p.category && a.name == p.name && a.version != "" && p.version != "" && (a.slot == "" || p.slot == "")
  }

  /** The five comparisons by the age of the package's version. */
  lemma ByAge(compare: Comparison, a: PackageAtom, p: Package)
    requires Named(a, p)
    ensures compare(p.version, a.version) < 0 && a.operator in {Equal, AtLeast, AtMost, Above, Below} ==>
              (Matches(compare, a, p) <==> a.operator in {AtMost, Below})
    ensures compare(p.version, a.version) == 0 && a.operator in {Equal, AtLeast, AtMost, Above, Below} ==>
              (Matches(compare, a, p) <==> a.operator in {Equal, AtLeast, AtMost})
    ensures compare(p.version, a.version) > 0 && a.operator in {Equal, AtLeast, AtMost, Above, Below} ==>
              (Matches(compare, a, p) <==> a.operator in {AtLeast, Above})
    ensures a.operator == NoOperator ==> Matches(compare, a, p)
  {
    PlainPattern(a.category, p.category);
    PlainPattern(a.name, p.name);
    hide MatchPattern;
  }

  /** A tilde matches every revision of its version; an equals sign with a star every version
      that begins with the same text. */
  lemma ByText(compare: Comparison, a: PackageAtom, p: Package, more: string)
    requires Named(a, p) && compare(a.version, a.version) == 0
    ensures a.operator == Tilde && (forall i :: !RevisionAt(a.version, i)) && IsDigits(more) && p.version == a.version + "-r" + more ==>
              Matches(compare, a, p)
    ensures a.operator == EqualStar ==> (Matches(compare, a, p) <==> exists rest :: p.version == Joined(a.version, rest))
  {
    PlainPattern(a.category, p.category);
    PlainPattern(a.name, p.name);
    hide MatchPattern;
    if a.operator == Tilde && IsDigits(more) && p.version == a.version + "-r" + more {
      StripsOneRevision(p.version, a.version, more);
      StripsNothingExactly(a.version);
    }
    hide Stripped, RevisionAt;
    if HasPrefix(p.version, a.version) {
      assert p.version == Joined(a.version, p.version[|a.version|..]);
    }
  }

  /** A package without a known version is matched only by atoms without a version, and one
      without a known slot whatever slot the atom names. */
  lemma UnknownParts(compare: Comparison, a: PackageAtom, p: Package)
    requires !IsPattern(a) && a.category == p.category && a.name == p.name
    ensures p.version == "" && p.slot == "" ==> (Matches(compare, a, p) <==> a.operator == NoOperator || a.version == "")
    ensures a.operator == NoOperator && a.slot != "" && p.slot != "" ==> (Matches(compare, a, p) <==> MatchSlot(a.slot, p.slot))
  {
    PlainPattern(a.category, p.category);
    PlainPattern(a.name, p.name);
    hide MatchPattern;
  }

  /** Slots agree if their main parts do, and their subslots where both have one; a star stands
      for either part of the atom's slot. */
  lemma SlotsAgree(m: string, s: string, n: string, t: string)
    requires '/' !in m && '/' !in n
    ensures MatchSlot(m, n) <==> m == n || m == "*"
    ensures MatchSlot(m, n + "/" + t) <==> m == n || m == "*"
    ensures MatchSlot(m + "/" + s, n) <==> m == n || m == "*"
    ensures MatchSlot(m + "/" + s, n + "/" + t) <==> (m == n || m == "*") && (s == t || s == "*")
  {
    MainOf(m, s);
    MainOf(n, t);
    assert (m + "/" + s)[|m| + 1..] == s && (n + "/" + t)[|n| + 1..] == t;
    assert m + "/" + s != "*" by { assert '/' in m + "/" + s; }
    hide MainSlot;
  }

  lemma {:induction false} MainOf(m: string, s: string)
    requires '/' !in m
    ensures MainSlot(m) == m && MainSlot(m + "/" + s) == m
  {
    if m != "" {
      assert m == [m[0]] + m[1..];
      assert (m + "/" + s)[1..] == m[1..] + "/" + s;
      MainOf(m[1..], s);
    }
  }
}
