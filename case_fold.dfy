/** Case-insensitive string comparison: `IEquals` of the C++ build and the
    `String.equalsIgnoreCase` that the Java port calls instead.  Characters are
    folded with the ASCII ("C" locale) `toupper` / `tolower`. */
module CaseFold {

  /** `toupper` in the "C" locale. */
  function ToUpper(c: char): (u: char)
    ensures 'a' <= c <= 'z' ==> 'A' <= u <= 'Z' && u as int == c as int - 32
    ensures !('a' <= c <= 'z') ==> u == c
  {
    if 'a' <= c <= 'z' then (c as int - 32) as char else c
  }

  /** `tolower` in the "C" locale. */
  function ToLower(c: char): (l: char)
    ensures 'A' <= c <= 'Z' ==> 'a' <= l <= 'z' && l as int == c as int + 32
    ensures !('A' <= c <= 'Z') ==> l == c
  {
    if 'A' <= c <= 'Z' then (c as int + 32) as char else c
  }

  predicate IsLetter(c: char) {
    'a' <= c <= 'z' || 'A' <= c <= 'Z'
  }

  /** The per-character key `tolower(toupper(c))` that IEquals compares. */
  function Fold(c: char): (f: char)
    ensures IsLetter(c) ==> 'a' <= f <= 'z' && (f == c || f as int == c as int + 32)
    ensures !IsLetter(c) ==> f == c
  {
    ToLower(ToUpper(c))
  }

  /** What IEquals computes: equal lengths and equal folded characters. */
  predicate SameIgnoringCase(a: string, b: string) {
    |a| == |b| && forall i :: 0 <= i < |a| ==> Fold(a[i]) == Fold(b[i])
  }

  /** IEquals: the length test first, then an index loop that returns false at
      the first position whose folded characters differ. */
  method IEquals(a: string, b: string) returns (r: bool)
    ensures |a| != |b| ==> !r
    ensures r <==> SameIgnoringCase(a, b)
  {
    if |a| != |b| {
      return false;
    }
    var i := 0;
    while i < |a|
      invariant 0 <= i <= |a|
      invariant forall j :: 0 <= j < i ==> Fold(a[j]) == Fold(b[j])
    {
      if Fold(a[i]) != Fold(b[i]) {
        return false;
      }
      i := i + 1;
    }
    return true;
  }

  /** Java's per-character rule in `regionMatches(true, ...)`: equal, or equal
      upper cases, or equal lower cases of the upper cases. */
  predicate JavaCharEqualsIgnoreCase(c: char, d: char) {
    c == d || ToUpper(c) == ToUpper(d) || ToLower(ToUpper(c)) == ToLower(ToUpper(d))
  }

  /** `String.equalsIgnoreCase` as the Java port uses it. */
  predicate EqualsIgnoreCase(a: string, b: string) {
    |a| == |b| && forall i :: 0 <= i < |a| ==> JavaCharEqualsIgnoreCase(a[i], b[i])
  }

  /** The two ports agree: Java's equalsIgnoreCase is exactly C++'s IEquals. */
  lemma EqualsIgnoreCaseIsIEquals(a: string, b: string)
    ensures EqualsIgnoreCase(a, b) <==> SameIgnoringCase(a, b)
  {
    if |a| == |b| {
      forall i | 0 <= i < |a|
        ensures JavaCharEqualsIgnoreCase(a[i], b[i]) <==> Fold(a[i]) == Fold(b[i])
      {
        FoldCharRule(a[i], b[i]);
      }
    }
  }

  lemma FoldCharRule(c: char, d: char)
    ensures JavaCharEqualsIgnoreCase(c, d) <==> Fold(c) == Fold(d)
  {
  }

  lemma {:induction false} SameIgnoringCaseReflexive(a: string)
    ensures SameIgnoringCase(a, a)
  {
  }

  lemma SameIgnoringCaseSymmetric(a: string, b: string)
    ensures SameIgnoringCase(a, b) <==> SameIgnoringCase(b, a)
  {
  }

  lemma SameIgnoringCaseTransitive(a: string, b: string, c: string)
    requires SameIgnoringCase(a, b) && SameIgnoringCase(b, c)
    ensures SameIgnoringCase(a, c)
  {
  }

  /** Letters compare equal whatever their case. */
  lemma TroyMatchesMixedCase()
    ensures SameIgnoringCase("Troy", "tROY")
    ensures !SameIgnoringCase("Troy", "Troy ")
  {
    assert Fold('T') == 't' && Fold('t') == 't';
    assert Fold('r') == 'r' && Fold('R') == 'r';
    assert Fold('o') == 'o' && Fold('O') == 'o';
    assert Fold('y') == 'y' && Fold('Y') == 'y';
  }

  /** Two strings that differ at a position holding a non-letter never compare
      equal: only letters are folded. */
  lemma NonLetterDifferenceMatters(a: string, b: string, i: int)
    requires |a| == |b| && 0 <= i < |a|
    requires a[i] != b[i] && (!IsLetter(a[i]) || !IsLetter(b[i]))
    ensures !SameIgnoringCase(a, b)
  {
    assert Fold(a[i]) != Fold(b[i]);
  }
}
