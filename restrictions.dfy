/** Pairwise separation restrictions: the `BinaryPlayerRestriction` check on one
    team, the roster lookup `ContainsUsername`, and the parsing of "a:b"
    directives (`Restrict` in the C++ build, `restrict` in the Java port). */
module Restrictions {
  import opened Wrappers
  import opened CaseFold
  import opened Player
  import Names

  /** The restriction kinds; only the pairwise separation exists. */
  datatype PlayerRestriction = BinaryPlayerRestriction(a: string, b: string)

  datatype RestrictError =
    | SamePlayers(name: string)
    | MissingColon(arg: string)
    | MultipleColons(arg: string)
    | UnknownPlayer(username: string, arg: string)

  /** The constructor: fatal (C++) or IllegalArgumentException (Java) when the
      two names are equal under case-SENSITIVE comparison. */
  function NewBinaryPlayerRestriction(a: string, b: string): (r: Result<PlayerRestriction, RestrictError>)
    ensures r.Failure? <==> a == b
    ensures r.Failure? ==> r.error == SamePlayers(a)
    ensures r.Success? ==> r.value.a == a && r.value.b == b
  {
    if a == b then Failure(SamePlayers(a)) else Success(BinaryPlayerRestriction(a, b))
  }

  /** Names that differ only in case are accepted: the constructor compares exactly. */
  lemma CaseVariantsAreDistinctPlayers()
    ensures NewBinaryPlayerRestriction("Troy", "troy").Success?
    ensures SameIgnoringCase("Troy", "troy")
  {
    TroyLower();
  }

  lemma TroyLower()
    ensures SameIgnoringCase("Troy", "troy")
  {
    assert Fold('T') == Fold('t');
  }

  predicate IdsInRange(ids: seq<nat>, n: nat) {
    forall i :: 0 <= i < |ids| ==> ids[i] < n
  }

  /** A username names one side of the restriction (IEquals against a or b). */
  predicate Matches(r: PlayerRestriction, username: string) {
    SameIgnoringCase(username, r.a) || SameIgnoringCase(username, r.b)
  }

  /** How many members of a team match either side of the restriction. */
  function MatchCount(players: seq<CWPlayer>, r: PlayerRestriction, ids: seq<nat>): nat
    requires IdsInRange(ids, |players|)
  {
    if |ids| == 0 then 0
    else MatchCount(players, r, ids[..|ids| - 1]) + (if Matches(r, players[ids[|ids| - 1]].username) then 1 else 0)
  }

  /** What a team must satisfy: fewer than two members matching a or b. */
  predicate TeamPasses(players: seq<CWPlayer>, r: PlayerRestriction, ids: seq<nat>)
    requires IdsInRange(ids, |players|)
  {
    MatchCount(players, r, ids) < 2
  }

  lemma {:induction false} MatchCountPrefix(players: seq<CWPlayer>, r: PlayerRestriction, ids: seq<nat>, k: nat)
    requires IdsInRange(ids, |players|) && k <= |ids|
    ensures MatchCount(players, r, ids[..k]) <= MatchCount(players, r, ids)
  {
    if k < |ids| {
      assert ids[..|ids| - 1][..k] == ids[..k];
      MatchCountPrefix(players, r, ids[..|ids| - 1], k);
    } else {
      assert ids[..k] == ids;
    }
  }

  /** A team fails exactly when two different members match: the check is
      "a second match", not "both a and b present". */
  lemma TwoMatchesIff(players: seq<CWPlayer>, r: PlayerRestriction, ids: seq<nat>)
    requires IdsInRange(ids, |players|)
    ensures !TeamPasses(players, r, ids) <==>
            exists i, j :: 0 <= i < j < |ids| && Matches(r, players[ids[i]].username) && Matches(r, players[ids[j]].username)
  {
    if !TeamPasses(players, r, ids) {
      var i, j := SecondMatch(players, r, ids);
    }
    if exists i, j :: 0 <= i < j < |ids| && Matches(r, players[ids[i]].username) && Matches(r, players[ids[j]].username) {
      var i, j :| 0 <= i < j < |ids| && Matches(r, players[ids[i]].username) && Matches(r, players[ids[j]].username);
      TwoMatchesFail(players, r, ids, i, j);
    }
  }

  /** A failing team has two matching members. */
  lemma {:induction false} SecondMatch(players: seq<CWPlayer>, r: PlayerRestriction, ids: seq<nat>) returns (i: nat, j: nat)
    requires IdsInRange(ids, |players|) && !TeamPasses(players, r, ids)
    ensures i < j < |ids| && Matches(r, players[ids[i]].username) && Matches(r, players[ids[j]].username)
  {
    var init := ids[..|ids| - 1];
    if MatchCount(players, r, init) >= 2 {
      i, j := SecondMatch(players, r, init);
      assert ids[i] == init[i] && ids[j] == init[j];
    } else {
      OneMatchIff(players, r, init);
      i :| 0 <= i < |init| && Matches(r, players[init[i]].username);
      j := |ids| - 1;
      assert ids[i] == init[i];
    }
  }

  /** Two matching members make a team fail. */
  lemma TwoMatchesFail(players: seq<CWPlayer>, r: PlayerRestriction, ids: seq<nat>, i: nat, j: nat)
    requires IdsInRange(ids, |players|) && i < j < |ids|
    requires Matches(r, players[ids[i]].username) && Matches(r, players[ids[j]].username)
    ensures !TeamPasses(players, r, ids)
  {
    var upto := ids[..j + 1];
    assert upto[..j] == ids[..j] && upto[j] == ids[j] && ids[..j][i] == ids[i];
    OneMatchIff(players, r, ids[..j]);
    MatchCountPrefix(players, r, ids, j + 1);
  }

  lemma {:induction false} OneMatchIff(players: seq<CWPlayer>, r: PlayerRestriction, ids: seq<nat>)
    requires IdsInRange(ids, |players|)
    ensures MatchCount(players, r, ids) >= 1 <==> exists i :: 0 <= i < |ids| && Matches(r, players[ids[i]].username)
  {
    if |ids| > 0 {
      var init := ids[..|ids| - 1];
      OneMatchIff(players, r, init);
      if exists i :: 0 <= i < |init| && Matches(r, players[init[i]].username) {
        var i :| 0 <= i < |init| && Matches(r, players[init[i]].username);
        assert ids[i] == init[i];
      }
      if exists i :: 0 <= i < |ids| && Matches(r, players[ids[i]].username) {
        var i :| 0 <= i < |ids| && Matches(r, players[ids[i]].username);
        if i < |ids| - 1 {
          assert init[i] == ids[i];
        }
      }
    }
  }

  /** IsValidTeam (C++): walks the team view, returning false at the second
      member whose username IEquals a or b. */
  method IsValidTeam(r: PlayerRestriction, players: seq<CWPlayer>, list: seq<nat>, team: Team) returns (valid: bool)
    requires team.playerIndex + team.teamSize <= |list| && IdsInRange(list, |players|)
    ensures IdsInRange(Members(list, team), |players|)
    ensures valid <==> TeamPasses(players, r, Members(list, team))
  {
    ghost var m := Members(list, team);
    var alreadyOnTeam := false;
    var i := 0;
    while i < team.teamSize
      invariant 0 <= i <= team.teamSize
      invariant MatchCount(players, r, m[..i]) <= 1
      invariant alreadyOnTeam <==> MatchCount(players, r, m[..i]) == 1
    {
      var playerID := list[team.playerIndex + i];
      assert m[..i + 1][..i] == m[..i] && m[i] == playerID;
      var username := players[playerID].username;
      var isA := IEquals(username, r.a);
      var isB := IEquals(username, r.b);
      if isA || isB {
        if alreadyOnTeam {
          MatchCountPrefix(players, r, m, i + 1);
          return false;
        }
        alreadyOnTeam := true;
      }
      i := i + 1;
    }
    assert m[..i] == m;
    return true;
  }

  /** isValidTeam (Java): the same walk over `teams[playerIndex, playerIndex + teamSize)`
      with `equalsIgnoreCase`. */
  method IsValidTeamJava(r: PlayerRestriction, players: seq<CWPlayer>, teams: seq<nat>, playerIndex: nat, teamSize: nat)
    returns (valid: bool)
    requires playerIndex + teamSize <= |teams| && IdsInRange(teams, |players|)
    ensures IdsInRange(teams[playerIndex..playerIndex + teamSize], |players|)
    ensures valid <==> TeamPasses(players, r, teams[playerIndex..playerIndex + teamSize])
  {
    ghost var m := teams[playerIndex..playerIndex + teamSize];
    var alreadyOnTeam := false;
    var i := playerIndex;
    while i < playerIndex + teamSize
      invariant playerIndex <= i <= playerIndex + teamSize
      invariant MatchCount(players, r, m[..i - playerIndex]) <= 1
      invariant alreadyOnTeam <==> MatchCount(players, r, m[..i - playerIndex]) == 1
    {
      var username := players[teams[i]].username;
      assert m[..i - playerIndex + 1][..i - playerIndex] == m[..i - playerIndex] && m[i - playerIndex] == teams[i];
      EqualsIgnoreCaseIsIEquals(username, r.a);
      EqualsIgnoreCaseIsIEquals(username, r.b);
      if EqualsIgnoreCase(username, r.a) || EqualsIgnoreCase(username, r.b) {
        if alreadyOnTeam {
          MatchCountPrefix(players, r, m, i - playerIndex + 1);
          return false;
        }
        alreadyOnTeam := true;
      }
      i := i + 1;
    }
    assert m[..i - playerIndex] == m;
    return true;
  }

  /** Some roster entry's username equals the query, ignoring case. */
  predicate HasUsername(players: seq<CWPlayer>, username: string) {
    exists i :: 0 <= i < |players| && SameIgnoringCase(players[i].username, username)
  }

  /** ContainsUsername (C++): linear search with IEquals. */
  method ContainsUsername(players: seq<CWPlayer>, username: string) returns (found: bool)
    ensures found <==> HasUsername(players, username)
  {
    for i := 0 to |players|
      invariant forall j :: 0 <= j < i ==> !SameIgnoringCase(players[j].username, username)
    {
      var same := IEquals(players[i].username, username);
      if same {
        return true;
      }
    }
    return false;
  }

  /** containsUsername (Java): linear search with equalsIgnoreCase. */
  method ContainsUsernameJava(players: seq<CWPlayer>, username: string) returns (found: bool)
    ensures found <==> HasUsername(players, username)
  {
    for i := 0 to |players|
      invariant forall j :: 0 <= j < i ==> !SameIgnoringCase(players[j].username, username)
    {
      EqualsIgnoreCaseIsIEquals(players[i].username, username);
      if EqualsIgnoreCase(players[i].username, username) {
        return true;
      }
    }
    return false;
  }

  /** Splitting one "a:b" directive at its first colon; a second colon in the
      right-hand part is fatal. */
  function SplitDirective(arg: string): (r: Result<(string, string), RestrictError>)
    ensures r == Failure(MissingColon(arg)) <==> ':' !in arg
    ensures r.Failure? ==> r.error == MissingColon(arg) || r.error == MultipleColons(arg)
    ensures r.Success? ==> r.value.0 + ":" + r.value.1 == arg && ':' !in r.value.0 && ':' !in r.value.1
  {
    match Names.Find(arg, ':')
    case None => Failure(MissingColon(arg))
    case Some(index) =>
      var a, b := arg[..index], arg[index + 1..];
      if Names.Find(b, ':').Some? then Failure(MultipleColons(arg))
      else
        assert arg == a + ":" + b;
        Success((a, b))
  }

  /** A directive with exactly one colon splits back into its two sides; one
      with two or more colons is refused. */
  lemma {:induction false} SplitDirectiveOfJoin(a: string, b: string)
    requires ':' !in a
    ensures ':' !in b ==> SplitDirective(a + ":" + b) == Success((a, b))
    ensures ':' in b ==> SplitDirective(a + ":" + b) == Failure(MultipleColons(a + ":" + b))
  {
    var arg := a + ":" + b;
    Names.FindAfterFreePrefix(a, b, ':');
    assert arg[..|a|] == a && arg[|a| + 1..] == b;
  }

  /** The checks made on one directive before a restriction would be built:
      the colon split, then both names must be on the roster. */
  function CheckDirective(players: seq<CWPlayer>, arg: string): Result<(string, string), RestrictError>
  {
    match SplitDirective(arg)
    case Failure(e) => Failure(e)
    case Success((a, b)) =>
      if !HasUsername(players, a) then Failure(UnknownPlayer(a, arg))
      else if !HasUsername(players, b) then Failure(UnknownPlayer(b, arg))
      else Success((a, b))
  }

  /** Restrict as the C++ build has it: every directive is checked in order and
      the first bad one is fatal, but the append is commented out, so `result`
      comes back as it went in. */
  function RestrictAsWritten(players: seq<CWPlayer>, args: seq<string>, result: seq<PlayerRestriction>)
    : (r: Result<seq<PlayerRestriction>, RestrictError>)
    ensures r.Success? ==> r.value == result
  {
    if |args| == 0 then Success(result)
    else match CheckDirective(players, args[0])
      case Failure(e) => Failure(e)
      case Success(_) => RestrictAsWritten(players, args[1..], result)
  }

  /** The C++ restrict succeeds exactly when every directive passes the checks. */
  lemma RestrictAsWrittenSucceeds(players: seq<CWPlayer>, args: seq<string>, result: seq<PlayerRestriction>)
    ensures RestrictAsWritten(players, args, result).Success? <==>
      forall i :: 0 <= i < |args| ==> CheckDirective(players, args[i]).Success?
  {
    if RestrictAsWritten(players, args, result).Failure? {
      var i := WrittenFailureAt(players, args, result);
    } else {
      forall i | 0 <= i < |args|
        ensures CheckDirective(players, args[i]).Success?
      {
        if CheckDirective(players, args[i]).Failure? {
          CheckFailsAt(players, args, result, i);
        }
      }
    }
  }

  /** One directive failing the checks makes the C++ restrict fail. */
  lemma {:induction false} CheckFailsAt(players: seq<CWPlayer>, args: seq<string>, result: seq<PlayerRestriction>, i: nat)
    requires i < |args| && CheckDirective(players, args[i]).Failure?
    ensures RestrictAsWritten(players, args, result).Failure?
  {
    if i > 0 && CheckDirective(players, args[0]).Success? {
      assert args[1..][i - 1] == args[i];
      CheckFailsAt(players, args[1..], result, i - 1);
    }
  }

  /** A failed C++ restrict names a directive that fails the checks. */
  lemma {:induction false} WrittenFailureAt(players: seq<CWPlayer>, args: seq<string>, result: seq<PlayerRestriction>)
    returns (i: nat)
    requires RestrictAsWritten(players, args, result).Failure?
    ensures i < |args| && CheckDirective(players, args[i]).Failure?
  {
    if CheckDirective(players, args[0]).Failure? {
      i := 0;
    } else {
      var j := WrittenFailureAt(players, args[1..], result);
      i := j + 1;
      assert args[1..][j] == args[i];
    }
  }

  /** One directive as the Java port handles it: the checks, then the
      constructor, which refuses equal names. */
  function DirectiveRestriction(players: seq<CWPlayer>, arg: string): Result<PlayerRestriction, RestrictError>
  {
    match CheckDirective(players, arg)
    case Failure(e) => Failure(e)
    case Success((a, b)) => NewBinaryPlayerRestriction(a, b)
  }

  /** restrict as the Java port has it: one restriction per directive,
      appended in order; the first refused directive is fatal. */
  function RestrictIntended(players: seq<CWPlayer>, args: seq<string>)
    : (r: Result<seq<PlayerRestriction>, RestrictError>)
    ensures r.Success? ==> |r.value| == |args|
  {
    if |args| == 0 then Success([])
    else match DirectiveRestriction(players, args[0])
      case Failure(e) => Failure(e)
      case Success(restriction) =>
        match RestrictIntended(players, args[1..])
        case Failure(e) => Failure(e)
        case Success(rest) => Success([restriction] + rest)
  }

  /** Each accepted directive yields exactly one restriction, in argument order,
      between two distinct roster usernames that spell the directive back. */
  lemma RestrictIntendedContents(players: seq<CWPlayer>, args: seq<string>, i: int)
    requires RestrictIntended(players, args).Success? && 0 <= i < |args|
    ensures var rs := RestrictIntended(players, args).value;
      rs[i].a + ":" + rs[i].b == args[i] && rs[i].a != rs[i].b &&
      HasUsername(players, rs[i].a) && HasUsername(players, rs[i].b)
  {
    RestrictIntendedAt(players, args, i);
    DirectiveRestrictionContents(players, args[i]);
  }

  /** Entry `i` of the Java result is the restriction built from directive `i`. */
  lemma {:induction false} RestrictIntendedAt(players: seq<CWPlayer>, args: seq<string>, i: int)
    requires RestrictIntended(players, args).Success? && 0 <= i < |args|
    ensures DirectiveRestriction(players, args[i]).Success?
    ensures RestrictIntended(players, args).value[i] == DirectiveRestriction(players, args[i]).value
  {
    var rs := RestrictIntended(players, args).value;
    var head := DirectiveRestriction(players, args[0]);
    var tail := RestrictIntended(players, args[1..]);
    assert head.Success? && tail.Success? && rs == [head.value] + tail.value;
    if i == 0 {
      assert rs[0] == head.value;
    } else {
      assert DirectiveRestriction(players, args[i]).Success? && rs[i] == DirectiveRestriction(players, args[i]).value by {
        RestrictIntendedAt(players, args[1..], i - 1);
        assert args[1..][i - 1] == args[i];
        ConsIndex(head.value, tail.value, i);
      }
    }
  }

  lemma ConsIndex(h: PlayerRestriction, t: seq<PlayerRestriction>, i: nat)
    requires 0 < i <= |t|
    ensures ([h] + t)[i] == t[i - 1]
  {
  }

  /** An accepted directive names two distinct roster usernames that spell it back. */
  lemma DirectiveRestrictionContents(players: seq<CWPlayer>, arg: string)
    requires DirectiveRestriction(players, arg).Success?
    ensures var r := DirectiveRestriction(players, arg).value;
      r.a + ":" + r.b == arg && r.a != r.b && HasUsername(players, r.a) && HasUsername(players, r.b)
  {
  }

  /** A directive the Java port refuses: a failed check, or the same name on
      both sides. */
  predicate Refused(players: seq<CWPlayer>, arg: string) {
    var c := CheckDirective(players, arg);
    c.Failure? || c.value.0 == c.value.1
  }

  /** The Java restrict fails exactly when some directive is refused. */
  lemma RestrictIntendedFails(players: seq<CWPlayer>, args: seq<string>)
    ensures RestrictIntended(players, args).Failure? <==> exists i :: 0 <= i < |args| && Refused(players, args[i])
  {
    if RestrictIntended(players, args).Failure? {
      var i := FailureNamesRefused(players, args);
    }
    if exists i :: 0 <= i < |args| && Refused(players, args[i]) {
      var i :| 0 <= i < |args| && Refused(players, args[i]);
      RefusedFails(players, args, i);
    }
  }

  /** A single directive is rejected exactly when it is refused. */
  lemma DirectiveRefused(players: seq<CWPlayer>, arg: string)
    ensures DirectiveRestriction(players, arg).Failure? <==> Refused(players, arg)
  {
  }

  /** One refused directive makes the whole call fail. */
  lemma {:induction false} RefusedFails(players: seq<CWPlayer>, args: seq<string>, i: nat)
    requires i < |args| && Refused(players, args[i])
    ensures RestrictIntended(players, args).Failure?
  {
    DirectiveRefused(players, args[0]);
    if i > 0 && DirectiveRestriction(players, args[0]).Success? {
      assert args[1..][i - 1] == args[i];
      RefusedFails(players, args[1..], i - 1);
    }
  }

  /** A failed call names a refused directive. */
  lemma {:induction false} FailureNamesRefused(players: seq<CWPlayer>, args: seq<string>) returns (i: nat)
    requires RestrictIntended(players, args).Failure?
    ensures i < |args| && Refused(players, args[i])
  {
    DirectiveRefused(players, args[0]);
    if DirectiveRestriction(players, args[0]).Failure? {
      i := 0;
    } else {
      var j := FailureNamesRefused(players, args[1..]);
      i := j + 1;
      assert args[1..][j] == args[i];
    }
  }

  /** Restrict (C++): the directive loop; every fatal path of the source is an
      error result here. */
  method Restrict(players: seq<CWPlayer>, restrictions: seq<string>, result: seq<PlayerRestriction>)
    returns (r: Result<seq<PlayerRestriction>, RestrictError>)
    ensures r == RestrictAsWritten(players, restrictions, result)
  {
    for k := 0 to |restrictions|
      invariant RestrictAsWritten(players, restrictions, result) == RestrictAsWritten(players, restrictions[k..], result)
    {
      assert restrictions[k..][1..] == restrictions[k + 1..];
      var arg := restrictions[k];
      var index := Names.Find(arg, ':');
      if index.None? {
        return Failure(MissingColon(arg));
      }
      var aUsername := arg[..index.value];
      var bUsername := arg[index.value + 1..];
      if Names.Find(bUsername, ':').Some? {
        return Failure(MultipleColons(arg));
      }
      var hasA := ContainsUsername(players, aUsername);
      if !hasA {
        return Failure(UnknownPlayer(aUsername, arg));
      }
      var hasB := ContainsUsername(players, bUsername);
      if !hasB {
        return Failure(UnknownPlayer(bUsername, arg));
      }
      // the source's `result.emplace_back(...)` is commented out
    }
    assert restrictions[|restrictions|..] == [];
    return Success(result);
  }

  function AppendTo(prefix: seq<PlayerRestriction>, r: Result<seq<PlayerRestriction>, RestrictError>)
    : Result<seq<PlayerRestriction>, RestrictError>
  {
    match r
    case Failure(e) => Failure(e)
    case Success(rest) => Success(prefix + rest)
  }

  lemma AppendToEmpty(r: Result<seq<PlayerRestriction>, RestrictError>)
    ensures AppendTo([], r) == r
  {
    if r.Success? {
      assert [] + r.value == r.value;
    }
  }

  lemma AppendToAppend(p: seq<PlayerRestriction>, q: seq<PlayerRestriction>, r: Result<seq<PlayerRestriction>, RestrictError>)
    ensures AppendTo(p, AppendTo(q, r)) == AppendTo(p + q, r)
  {
    if r.Success? {
      assert p + (q + r.value) == p + q + r.value;
    }
  }

  /** restrict (Java): `null` gives an empty list; otherwise one restriction
      per directive, in order. */
  method RestrictJava(players: seq<CWPlayer>, restrictions: Option<seq<string>>)
    returns (r: Result<seq<PlayerRestriction>, RestrictError>)
    ensures restrictions.None? ==> r == Success([])
    ensures restrictions.Some? ==> r == RestrictIntended(players, restrictions.value)
  {
    if restrictions.None? {
      return Success([]);
    }
    var args := restrictions.value;
    var result: seq<PlayerRestriction> := [];
    assert args[0..] == args;
    AppendToEmpty(RestrictIntended(players, args));
    for k := 0 to |args|
      invariant RestrictIntended(players, args) == AppendTo(result, RestrictIntended(players, args[k..]))
    {
      var arg := args[k];
      RestrictIntendedStep(players, args, k);
      var index := Names.Find(arg, ':');
      if index.None? {
        assert DirectiveRestriction(players, arg) == Failure(MissingColon(arg));
        return Failure(MissingColon(arg));
      }
      var aUsername := arg[..index.value];
      var bUsername := arg[index.value + 1..];
      if Names.Find(bUsername, ':').Some? {
        assert DirectiveRestriction(players, arg) == Failure(MultipleColons(arg));
        return Failure(MultipleColons(arg));
      }
      assert SplitDirective(arg) == Success((aUsername, bUsername));
      var hasA := ContainsUsernameJava(players, aUsername);
      if !hasA {
        assert DirectiveRestriction(players, arg) == Failure(UnknownPlayer(aUsername, arg));
        return Failure(UnknownPlayer(aUsername, arg));
      }
      var hasB := ContainsUsernameJava(players, bUsername);
      if !hasB {
        assert DirectiveRestriction(players, arg) == Failure(UnknownPlayer(bUsername, arg));
        return Failure(UnknownPlayer(bUsername, arg));
      }
      if aUsername == bUsername {
        assert DirectiveRestriction(players, arg) == Failure(SamePlayers(aUsername));
        return Failure(SamePlayers(aUsername));
      }
      var restriction := BinaryPlayerRestriction(aUsername, bUsername);
      assert DirectiveRestriction(players, arg) == Success(restriction);
      AppendToAppend(result, [restriction], RestrictIntended(players, args[k + 1..]));
      result := result + [restriction];
    }
    assert args[|args|..] == [];
    assert result + [] == result;
    return Success(result);
  }

  /** `RestrictIntended` on a suffix, one directive at a time. */
  lemma RestrictIntendedStep(players: seq<CWPlayer>, args: seq<string>, k: nat)
    requires k < |args|
    ensures RestrictIntended(players, args[k..]) ==
      match DirectiveRestriction(players, args[k])
      case Failure(e) => Failure(e)
      case Success(x) => AppendTo([x], RestrictIntended(players, args[k + 1..]))
  {
    assert args[k..][0] == args[k] && args[k..][1..] == args[k + 1..];
  }

  const TroyAndChas := [CWPlayer("T N", "Troy", 1.0, 1.0, 1.0), CWPlayer("C S", "Chas", 1.0, 1.0, 1.0)]

  lemma ChasLower()
    ensures SameIgnoringCase("Chas", "chas")
  {
    assert Fold('C') == Fold('c');
  }

  lemma RosterHasTroy()
    ensures HasUsername(TroyAndChas, "troy")
  {
    TroyLower();
    assert SameIgnoringCase(TroyAndChas[0].username, "troy");
  }

  lemma RosterHasChas()
    ensures HasUsername(TroyAndChas, "chas")
  {
    ChasLower();
    assert SameIgnoringCase(TroyAndChas[1].username, "chas");
  }

  lemma TroyChasChecks()
    ensures CheckDirective(TroyAndChas, "troy" + ":" + "chas") == Success(("troy", "chas"))
  {
    SplitDirectiveOfJoin("troy", "chas");
    RosterHasTroy();
    RosterHasChas();
  }

  /** Every directive the checks accept is dropped by the C++ build, while the
      Java port turns it into one restriction. */
  lemma {:induction false} AcceptedDirectiveDropped(players: seq<CWPlayer>, arg: string)
    requires !Refused(players, arg)
    ensures RestrictAsWritten(players, [arg], []) == Success([])
    ensures RestrictIntended(players, [arg]) ==
      Success([BinaryPlayerRestriction(CheckDirective(players, arg).value.0, CheckDirective(players, arg).value.1)])
  {
    assert [arg][0] == arg && [arg][1..] == [];
    var c := CheckDirective(players, arg).value;
    assert DirectiveRestriction(players, arg) == Success(BinaryPlayerRestriction(c.0, c.1));
    assert RestrictIntended(players, [arg][1..]) == Success([]);
    assert [BinaryPlayerRestriction(c.0, c.1)] + [] == [BinaryPlayerRestriction(c.0, c.1)];
  }

  /** Concretely: with "troy:chas" on a roster holding Troy and Chas the C++
      build hands back no restriction, where the Java port hands back the
      separation of the two. */
  lemma RestrictDropsTroyChas()
    ensures RestrictAsWritten(TroyAndChas, ["troy" + ":" + "chas"], []) == Success([])
    ensures RestrictIntended(TroyAndChas, ["troy" + ":" + "chas"]) == Success([BinaryPlayerRestriction("troy", "chas")])
  {
    TroyChasChecks();
    AcceptedDirectiveDropped(TroyAndChas, "troy" + ":" + "chas");
  }
}
