/** Splitting a sheet's "First Last" cell into the real name and the username
    (`RatingsReader::ParseNames` and the Java `parseNames`). */
module Names {
  import opened Wrappers

  datatype NameError = NoSpaceInName(rawName: string)

  /** `std::string::find(c)`: the first position of `c`, or none (`npos`). */
  function Find(s: string, c: char): (r: Option<nat>)
    ensures r.None? <==> c !in s
    ensures r.Some? ==> r.value < |s| && s[r.value] == c && c !in s[..r.value]
  {
    if |s| == 0 then None
    else if s[0] == c then Some(0)
    else match Find(s[1..], c)
      case None => None
      case Some(i) => assert s[1..][..i] == s[1..i + 1]; Some(i + 1)
  }

  /** `String.indexOf(c)`: the first position of `c`, or -1. */
  function IndexOf(s: string, c: char): (r: int)
    ensures -1 <= r < |s|
    ensures r == -1 <==> c !in s
    ensures r >= 0 ==> s[r] == c && c !in s[..r]
  {
    if |s| == 0 then -1
    else if s[0] == c then 0
    else
      var r := IndexOf(s[1..], c);
      if r == -1 then -1 else assert s[1..][..r] == s[1..r + 1]; r + 1
  }

  /** ParseNames (C++): split at the first space; fatal when there is none.
      The first part holds no space; the second may. */
  function ParseNames(rawName: string): (r: Result<(string, string), NameError>)
    ensures r.Failure? <==> ' ' !in rawName
    ensures r.Failure? ==> r.error == NoSpaceInName(rawName)
    ensures r.Success? ==> r.value.0 + " " + r.value.1 == rawName && ' ' !in r.value.0
  {
    match Find(rawName, ' ')
    case None => Failure(NoSpaceInName(rawName))
    case Some(space) =>
      assert rawName == rawName[..space] + " " + rawName[space + 1..];
      Success((rawName[..space], rawName[space + 1..]))
  }

  /** parseNames (Java): `substring(0, space)` and `substring(space + 1, length)`. */
  function ParseNamesJava(rawName: string): (r: Result<(string, string), NameError>)
    ensures r.Failure? <==> ' ' !in rawName
    ensures r.Success? ==> r.value.0 + " " + r.value.1 == rawName && ' ' !in r.value.0
  {
    var space := IndexOf(rawName, ' ');
    if space == -1 then Failure(NoSpaceInName(rawName))
    else
      assert rawName == rawName[0..space] + " " + rawName[space + 1..|rawName|];
      Success((rawName[0..space], rawName[space + 1..|rawName|]))
  }

  /** The inverse direction of the round trip: joining a space-free first part
      and any second part with one space parses back to the same two parts. */
  lemma {:induction false} ParseNamesOfJoin(first: string, second: string)
    requires ' ' !in first
    ensures ParseNames(first + " " + second) == Success((first, second))
  {
    var raw := first + " " + second;
    FindAfterFreePrefix(first, second, ' ');
    assert raw[..|first|] == first;
    assert raw[|first| + 1..] == second;
  }

  lemma {:induction false} FindAfterFreePrefix(first: string, second: string, c: char)
    requires c !in first
    ensures Find(first + [c] + second, c) == Some(|first|)
  {
    if |first| > 0 {
      assert (first + [c] + second)[1..] == first[1..] + [c] + second;
      FindAfterFreePrefix(first[1..], second, c);
    }
  }

  /** Both ports split every name the same way. */
  lemma PortsAgree(rawName: string)
    ensures ParseNamesJava(rawName) == ParseNames(rawName)
  {
    if ' ' in rawName {
      var r := ParseNames(rawName);
      ParseNamesOfJoin(r.value.0, r.value.1);
      var q := ParseNamesJava(rawName);
      ParseUnique(rawName, q.value.0, q.value.1, r.value.0, r.value.1);
    }
  }

  /** A name has exactly one split into a space-free first part, a space and the rest. */
  lemma ParseUnique(raw: string, f1: string, s1: string, f2: string, s2: string)
    requires f1 + " " + s1 == raw && ' ' !in f1
    requires f2 + " " + s2 == raw && ' ' !in f2
    ensures f1 == f2 && s1 == s2
  {
    FindAfterFreePrefix(f1, s1, ' ');
    FindAfterFreePrefix(f2, s2, ' ');
    assert f1 == raw[..|f1|] == f2;
    assert s1 == raw[|f1| + 1..] == s2;
  }

  /** A leading space gives an empty real name. */
  lemma LeadingSpaceGivesEmptyFirst(rest: string)
    ensures ParseNames(" " + rest) == Success(("", rest))
  {
    ParseNamesOfJoin("", rest);
    assert "" + " " + rest == " " + rest;
  }
}
