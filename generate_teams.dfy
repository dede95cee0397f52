/** The team-assignment engine (`GenerateTeams`). One assignment is the flat
    permutation `teams` of player ids cut into consecutive slices by `sizes`;
    the const helpers walk it with `ConstTeamIterator`, and `Gen` shuffles it
    until it has collected enough valid, pairwise distinct assignments. */
module GenerateTeams {
  import opened Wrappers
  import opened Player
  import opened Restrictions
  import opened Sorting
  import opened Assignment
  import opened TeamHashing
  import opened WeightsTable

  /** The search state (`GenData`). The roster and the restrictions are
      references the search never changes; `teams` and `sizes` are the
      per-search buffers. */
  class GenData {
    const players: seq<CWPlayer>
    const restrictions: seq<PlayerRestriction>
    var weights: WeightsData
    var teams: seq<nat>
    var sizes: seq<nat>
    var neededTeamAverage: real
    var maxTeamDev: real

    /** Aggregate initialisation: the two references, empty buffers and zeroed
        numbers. */
    constructor(players: seq<CWPlayer>, restrictions: seq<PlayerRestriction>)
      ensures this.players == players && this.restrictions == restrictions
      ensures teams == [] && sizes == [] && weights == WeightsData(0.0, 0.0, 0.0)
      ensures neededTeamAverage == 0.0 && maxTeamDev == 0.0
    {
      this.players := players;
      this.restrictions := restrictions;
      weights := WeightsData(0.0, 0.0, 0.0);
      teams := [];
      sizes := [];
      neededTeamAverage := 0.0;
      maxTeamDev := 0.0;
    }

    /** The buffers describe an assignment of the whole roster. */
    predicate Ready()
      reads this`sizes, this`teams
    {
      Sum(sizes) == |teams| == |players| && IdsInRange(teams, |players|)
    }

    /** The teams the range-for over this object visits. */
    function Visited(): seq<seq<nat>>
      reads this`sizes, this`teams
      requires Ready()
    {
      VisitedTeams(teams, sizes)
    }

    /** The inputs of the acceptance test. */
    function Crit(): Criteria
      reads this`weights, this`neededTeamAverage, this`maxTeamDev
    {
      Criteria(players, restrictions, weights, neededTeamAverage, maxTeamDev)
    }

    /** What `AreTeamsValid` finds: the first failing test over the visited
        teams, or None when the assignment is acceptable. */
    function Verdict(): Option<FailureKind>
      reads this
      requires Ready()
    {
      VisitedInRange(teams, sizes, |players|);
      FirstFailure(Crit(), Visited())
    }
  }

  /** A read-only cursor over the teams of a `GenData`. */
  class ConstTeamIterator {
    const data: GenData
    var playerIndex: int
    var teamIndex: int

    /** `begin()`: the first player of the first team. */
    constructor(data: GenData)
      ensures this.data == data && playerIndex == 0 && teamIndex == 0
    {
      this.data := data;
      playerIndex := 0;
      teamIndex := 0;
    }

    /** Stores its arguments unchanged; `end()` uses it with the roster size
        and the team count. */
    constructor At(data: GenData, playerIndex: int, teamIndex: int)
      ensures this.data == data && this.playerIndex == playerIndex && this.teamIndex == teamIndex
    {
      this.data := data;
      this.playerIndex := playerIndex;
      this.teamIndex := teamIndex;
    }

    /** `operator*`: the current team as a view of the assignment. */
    function Deref(): (t: Team)
      reads this, data
      requires 0 <= playerIndex && 0 <= teamIndex < |data.sizes|
      ensures t.playerIndex == playerIndex && t.teamSize == data.sizes[teamIndex]
    {
      Team(playerIndex, data.sizes[teamIndex])
    }

    /** `operator!=`: different data or a different player position; the
        team position plays no part. */
    predicate NotEqual(other: ConstTeamIterator)
      reads this, other
    {
      data != other.data || playerIndex != other.playerIndex
    }

    /** `operator++`: fatal past the last team; otherwise moves the player
        position forward by the current team's size, then to the next team. */
    method Advance() returns (fatal: bool)
      requires 0 <= teamIndex <= |data.sizes|
      modifies this
      ensures fatal <==> old(teamIndex) == |data.sizes|
      ensures fatal ==> playerIndex == old(playerIndex) && teamIndex == old(teamIndex)
      ensures !fatal ==> playerIndex == old(playerIndex) + data.sizes[old(teamIndex)] && teamIndex == old(teamIndex) + 1
    {
      if teamIndex == |data.sizes| {
        return true;
      }
      playerIndex := playerIndex + data.sizes[teamIndex];
      teamIndex := teamIndex + 1;
      return false;
    }
  }

  /** One `ConstTeamIterator::operator++` step on (playerIndex, teamIndex). */
  function ConstStep(sizes: seq<nat>, playerIndex: int, teamIndex: nat): (r: (int, nat))
    requires teamIndex < |sizes|
    ensures r.1 == teamIndex + 1
  {
    (playerIndex + sizes[teamIndex], teamIndex + 1)
  }

  /** `k` steps from `begin()`. */
  function ConstSteps(sizes: seq<nat>, k: nat): (int, nat)
    requires k <= |sizes|
  {
    if k == 0 then (0, 0) else var (p, t) := ConstSteps(sizes, k - 1); ConstStep(sizes, p, k - 1)
  }

  /** After `k` steps the cursor is at team `k`, whose first player sits at
      Sizes[0] + ... + Sizes[k-1]. */
  lemma {:induction false} ConstStepsReachOffsets(sizes: seq<nat>, k: nat)
    requires k <= |sizes|
    ensures ConstSteps(sizes, k) == (Offset(sizes, k) as int, k)
  {
    if k > 0 {
      ConstStepsReachOffsets(sizes, k - 1);
      OffsetStep(sizes, k - 1);
    }
  }

  /** The mutable `TeamIterator::operator++` as written: it moves to the next
      team first and then adds that team's size. None when the step is fatal
      or reads a size past the end. */
  function MutableStep(sizes: seq<nat>, playerIndex: int, teamIndex: nat): (r: Option<(int, nat)>)
    ensures r.Some? <==> teamIndex + 1 < |sizes|
    ensures r.Some? ==> r.value.1 == ConstStep(sizes, playerIndex, teamIndex).1
    ensures r.Some? ==> (r.value == ConstStep(sizes, playerIndex, teamIndex) <==> sizes[teamIndex] == sizes[teamIndex + 1])
  {
    if teamIndex >= |sizes| then None
    else if teamIndex + 1 >= |sizes| then None
    else Some((playerIndex + sizes[teamIndex + 1], teamIndex + 1))
  }

  /** With sizes [2, 3] the mutable iterator's first step lands on player 3
      instead of 2, the start of the second team, and its next step reads
      Sizes[2], one past the end. */
  lemma MutableStepSkipsTeams()
    ensures MutableStep([2, 3], 0, 0) == Some((3, 1))
    ensures Offset([2, 3], 1) == 2
    ensures MutableStep([2, 3], 3, 1) == None
  {
    assert [2, 3][..1] == [2];
    assert [2][..0] == [];
  }

  /** Whenever the first two teams differ in size, the mutable step misses
      the start of the second team. */
  lemma MutableStepDiffers(sizes: seq<nat>)
    requires |sizes| >= 2 && sizes[0] != sizes[1]
    ensures MutableStep(sizes, 0, 0).Some?
    ensures MutableStep(sizes, 0, 0).value.0 != Offset(sizes, 1) as int
  {
    OffsetStep(sizes, 0);
  }

  /** `GetTeamStrength`: the sum of the members' overall scores. */
  method GetTeamStrength(data: GenData, team: Team) returns (s: real)
    requires team.playerIndex + team.teamSize <= |data.teams| && IdsInRange(data.teams, |data.players|)
    ensures IdsInRange(Members(data.teams, team), |data.players|)
    ensures s == Strength(data.players, data.weights, Members(data.teams, team))
  {
    s := 0.0;
    var lo := team.playerIndex;
    var i := lo;
    while i < lo + team.teamSize
      invariant lo <= i <= lo + team.teamSize
      invariant IdsInRange(data.teams[lo..i], |data.players|)
      invariant s == Strength(data.players, data.weights, data.teams[lo..i])
    {
      assert data.teams[lo..i + 1][..i - lo] == data.teams[lo..i];
      s := s + GetOverall(data.players[data.teams[i]], data.weights);
      i := i + 1;
    }
    assert data.teams[lo..i] == Members(data.teams, team);
  }

  /** One pass of the range-for of `GetTeamsDeltaStrength`: a bound still at
      the 0.0 sentinel, or beaten by the current team's strength, takes that
      strength; then the cursor steps to the next team. */
  method TrackTeam(data: GenData, it: ConstTeamIterator, minStrength: real, maxStrength: real)
    returns (lo: real, hi: real)
    requires data.Ready() && it.data == data
    requires 0 <= it.teamIndex < VisitedCount(data.sizes) && it.playerIndex == Offset(data.sizes, it.teamIndex)
    modifies it
    ensures it.teamIndex == old(it.teamIndex) + 1 && it.playerIndex == Offset(data.sizes, it.teamIndex)
    ensures it.teamIndex < VisitedCount(data.sizes) <==> it.playerIndex != |data.players|
    ensures Bounds(lo, hi) == Widen(Bounds(minStrength, maxStrength),
                                    TeamStrengths(data.players, data.weights, data.teams, data.sizes)[old(it.teamIndex)])
  {
    ghost var k: nat := it.teamIndex;
    ghost var xs := TeamStrengths(data.players, data.weights, data.teams, data.sizes);
    VisitStep(data.teams, data.sizes, k);
    var team := it.Deref();
    var teamStrength := GetTeamStrength(data, team);
    assert teamStrength == xs[k];
    lo, hi := minStrength, maxStrength;
    if lo == 0.0 || teamStrength < lo {
      lo := teamStrength;
    }
    if hi == 0.0 || teamStrength > hi {
      hi := teamStrength;
    }
    var _ := it.Advance();
    VisitStops(data.sizes, k + 1);
  }

  /** `GetTeamsDeltaStrength`: the 0.0-sentinel maximum minus minimum over
      the strengths of the visited teams. */
  method GetTeamsDeltaStrength(data: GenData) returns (d: real)
    requires data.Ready()
    ensures d == DeltaStrength(TeamStrengths(data.players, data.weights, data.teams, data.sizes))
  {
    var minStrength, maxStrength := 0.0, 0.0;
    ghost var xs := TeamStrengths(data.players, data.weights, data.teams, data.sizes);
    ghost var sizes, players := data.sizes, |data.players|;
    ghost var v := VisitedCount(sizes);
    VisitStops(sizes, 0);
    var it := new ConstTeamIterator(data);
    var end := new ConstTeamIterator.At(data, |data.players|, |data.sizes|);
    ghost var k := 0;
    while it.NotEqual(end)
      invariant end.data == data && end.playerIndex == players && it.data == data
      invariant 0 <= k <= v && it.teamIndex == k && it.playerIndex == Offset(sizes, k)
      invariant k < v <==> it.NotEqual(end)
      invariant Bounds(minStrength, maxStrength) == MinMaxFold(xs[..k])
      modifies it
      decreases v - k
    {
      MinMaxStep(xs, k);
      minStrength, maxStrength := TrackTeam(data, it, minStrength, maxStrength);
      k := k + 1;
    }
    assert xs[..k] == xs;
    d := maxStrength - minStrength;
  }

  /** `it != end()` in the range-for: for a cursor `k` steps past `begin()`,
      the comparison with `end()` holds exactly while team `k` is still to
      be visited, whatever the cursor's team position. */
  lemma NotEqualEndWhileVisiting(data: GenData, it: ConstTeamIterator, end: ConstTeamIterator, k: nat)
    requires it.data == data && end.data == data && end.playerIndex == |data.players|
    requires Sum(data.sizes) == |data.players|
    requires k <= VisitedCount(data.sizes) && it.playerIndex == Offset(data.sizes, k)
    ensures it.NotEqual(end) <==> k < VisitedCount(data.sizes)
  {
    VisitStops(data.sizes, k);
  }

  /** The per-team part of `GetTeamsHash`: copy the member ids, sort them and
      fold them with `61 * hash + id`. */
  method HashTeam(data: GenData, team: Team) returns (hash: nat)
    requires team.playerIndex + team.teamSize <= |data.teams|
    ensures hash == TeamHash(Members(data.teams, team))
  {
    var members := Members(data.teams, team);
    var individualHashes := Zeros(team.teamSize);
    var i := 0;
    while i < team.teamSize
      invariant 0 <= i <= team.teamSize && |individualHashes| == team.teamSize
      invariant forall j :: 0 <= j < i ==> individualHashes[j] == members[j]
    {
      individualHashes := individualHashes[i := data.teams[team.playerIndex + i]];
      i := i + 1;
    }
    assert individualHashes == members;
    var sorted := Sort(individualHashes);
    hash := 1;
    i := 0;
    while i < |sorted|
      invariant 0 <= i <= |sorted|
      invariant hash == MemberFold(sorted[..i])
    {
      MemberFoldStep(sorted, i);
      hash := (61 * hash + sorted[i]) % U64;
      i := i + 1;
    }
    assert sorted[..i] == sorted;
  }

  /** `GetTeamsHash`: one slot per team, filled for the visited teams, sorted
      and folded with `31 * result + val`. */
  method GetTeamsHash(data: GenData) returns (result: nat)
    requires data.Ready()
    ensures result == AssignmentHash(data.teams, data.sizes)
  {
    var teamHashes := HashVisitedTeams(data);
    HashSlotsDone(teamHashes, data.Visited());
    result := FoldTeamHashes(teamHashes);
  }

  /** The range-for of `GetTeamsHash`: slot `k` receives the hash of the
      k-th visited team; slots of teams never reached stay 0. */
  method HashVisitedTeams(data: GenData) returns (teamHashes: seq<nat>)
    requires data.Ready()
    ensures |teamHashes| == |data.sizes|
    ensures HashedUpTo(teamHashes, data.Visited(), |data.Visited()|)
  {
    var n := |data.sizes|;
    teamHashes := Zeros(n);
    ghost var v := VisitedCount(data.sizes);
    VisitStops(data.sizes, 0);
    var it := new ConstTeamIterator(data);
    var end := new ConstTeamIterator.At(data, |data.players|, |data.sizes|);
    var more := it.NotEqual(end);
    var teamIndex := 0;
    while more
      invariant it.data == data && 0 <= teamIndex <= v
      invariant it.teamIndex == teamIndex && it.playerIndex == Offset(data.sizes, teamIndex)
      invariant more <==> teamIndex < v
      invariant |teamHashes| == n && HashedUpTo(teamHashes, data.Visited(), teamIndex)
      modifies it
      decreases v - teamIndex
    {
      teamHashes, more := StoreTeamHash(data, it, end, teamHashes, teamIndex);
      teamIndex := teamIndex + 1;
    }
  }

  /** One pass of the range-for of `GetTeamsHash`: hash the current team,
      write the hash into slot `teamIndex`, step the cursor to the next team
      and compare it with `end()`, which it equals exactly when every visited
      team is done. */
  method StoreTeamHash(data: GenData, it: ConstTeamIterator, end: ConstTeamIterator, teamHashes: seq<nat>, teamIndex: nat)
    returns (next: seq<nat>, more: bool)
    requires data.Ready() && it.data == data && end.data == data && end.playerIndex == |data.players| && it != end
    requires teamIndex < VisitedCount(data.sizes) && |data.sizes| == |teamHashes|
    requires it.teamIndex == teamIndex && it.playerIndex == Offset(data.sizes, teamIndex)
    requires HashedUpTo(teamHashes, data.Visited(), teamIndex)
    modifies it
    ensures it.teamIndex == teamIndex + 1 && it.playerIndex == Offset(data.sizes, teamIndex + 1)
    ensures more <==> teamIndex + 1 < VisitedCount(data.sizes)
    ensures |next| == |teamHashes| && HashedUpTo(next, data.Visited(), teamIndex + 1)
  {
    VisitStep(data.teams, data.sizes, teamIndex);
    var team := it.Deref();
    var hash := HashTeam(data, team);
    next := teamHashes[teamIndex := hash];
    var _ := it.Advance();
    VisitStops(data.sizes, teamIndex + 1);
    more := it.NotEqual(end);
  }

  /** The tail of `GetTeamsHash`: sort the slots, fold with `31 * result + val`. */
  method FoldTeamHashes(teamHashes: seq<nat>) returns (result: nat)
    ensures result == TeamsFold(Sort(teamHashes))
  {
    var sorted := Sort(teamHashes);
    result := 1;
    var i := 0;
    while i < |sorted|
      invariant 0 <= i <= |sorted|
      invariant result == TeamsFold(sorted[..i])
    {
      TeamsFoldStep(sorted, i);
      result := (31 * result + sorted[i]) % U64;
      i := i + 1;
    }
    assert sorted[..i] == sorted;
  }

  /** The static counters and stored results of the search
      (`s_TeamValueFailedCount`, `s_PlayerRestrictionsFailedCount`,
      `s_TeamResults`). */
  class SearchState {
    var valueFailedCount: int
    var restrictionFailedCount: int
    var teamResults: seq<seq<nat>>

    constructor()
      ensures valueFailedCount == 0 && restrictionFailedCount == 0 && teamResults == []
    {
      valueFailedCount := 0;
      restrictionFailedCount := 0;
      teamResults := [];
    }
  }

  /** The inner loop of `AreTeamsValid`: does the team pass every restriction. */
  method PassesRestrictions(data: GenData, team: Team) returns (ok: bool)
    requires team.playerIndex + team.teamSize <= |data.teams| && IdsInRange(data.teams, |data.players|)
    ensures IdsInRange(Members(data.teams, team), |data.players|)
    ensures ok <==> PassesAll(data.Crit(), Members(data.teams, team))
  {
    var j := 0;
    while j < |data.restrictions|
      invariant 0 <= j <= |data.restrictions|
      invariant forall jj :: 0 <= jj < j ==>
        TeamPasses(data.players, data.restrictions[jj], Members(data.teams, team))
    {
      ok := IsValidTeam(data.restrictions[j], data.players, data.teams, team);
      if !ok {
        return;
      }
      j := j + 1;
    }
    ok := true;
  }

  /** The test `AreTeamsValid` applies to one team: the strength band
      around the target first, then every restriction. */
  method CheckTeam(data: GenData, team: Team) returns (failure: Option<FailureKind>)
    requires team.playerIndex + team.teamSize <= |data.teams| && IdsInRange(data.teams, |data.players|)
    ensures IdsInRange(Members(data.teams, team), |data.players|)
    ensures failure == FirstFailure(data.Crit(), [Members(data.teams, team)])
  {
    ghost var one: seq<seq<nat>> := [Members(data.teams, team)];
    assert one[1..] == [];
    var teamStrength := GetTeamStrength(data, team);
    if Abs(data.neededTeamAverage - teamStrength) > data.maxTeamDev {
      return Some(ValueOutOfRange);
    }
    var ok := PassesRestrictions(data, team);
    if !ok {
      return Some(RestrictionFailed);
    }
    return None;
  }

  /** `AreTeamsValid`: the first visited team out of the band bumps the value
      counter, the first failing a restriction bumps the restriction counter,
      and either ends the check; a fully valid assignment bumps neither. */
  method AreTeamsValid(data: GenData, state: SearchState) returns (valid: bool)
    requires data.Ready()
    modifies state`valueFailedCount, state`restrictionFailedCount
    ensures valid <==> data.Verdict().None?
    ensures state.valueFailedCount ==
      old(state.valueFailedCount) + if data.Verdict() == Some(ValueOutOfRange) then 1 else 0
    ensures state.restrictionFailedCount ==
      old(state.restrictionFailedCount) + if data.Verdict() == Some(RestrictionFailed) then 1 else 0
    ensures (state.valueFailedCount - old(state.valueFailedCount))
      + (state.restrictionFailedCount - old(state.restrictionFailedCount)) + (if valid then 1 else 0) == 1
  {
    var failure := FindFailure(data);
    match failure
    case Some(ValueOutOfRange) =>
      state.valueFailedCount := state.valueFailedCount + 1;
      return false;
    case Some(RestrictionFailed) =>
      state.restrictionFailedCount := state.restrictionFailedCount + 1;
      return false;
    case None =>
      return true;
  }

  /** The range-for of `AreTeamsValid`: walks the visited teams in order and
      stops at the first one that fails a test, reporting which test. */
  method FindFailure(data: GenData) returns (failure: Option<FailureKind>)
    requires data.Ready()
    ensures failure == data.Verdict()
  {
    ghost var l := data.Visited();
    ghost var c := data.Crit();
    ghost var teams, sizes, n := data.teams, data.sizes, |data.players|;
    VisitedInRange(teams, sizes, n);
    ghost var v := VisitedCount(sizes);
    VisitStops(sizes, 0);
    assert l[0..] == l;
    var it := new ConstTeamIterator(data);
    var end := new ConstTeamIterator.At(data, |data.players|, |data.sizes|);
    ghost var k := 0;
    while it.NotEqual(end)
      invariant end.data == data && end.playerIndex == n && it.data == data
      invariant 0 <= k <= v && it.teamIndex == k && it.playerIndex == Offset(sizes, k)
      invariant k < v <==> it.NotEqual(end)
      invariant AllInRange(l[k..], n) && data.Verdict() == FirstFailure(c, l[k..])
      modifies it
      decreases v - k
    {
      VisitStep(teams, sizes, k);
      FirstFailureFrom(c, l, k);
      var team := it.Deref();
      failure := CheckTeam(data, team);
      if failure.Some? {
        return;
      }
      var _ := it.Advance();
      k := k + 1;
      VisitStops(sizes, k);
    }
    assert |l[k..]| == 0;
    return None;
  }


  /** The size partition at the start of `Gen`: `teamCount` zeroed sizes,
      then one increment per player at index `i % teamCount`. With no teams
      the loop would divide by zero, so the source needs a team whenever there
      is a player. */
  method PartitionSizes(playerCount: nat, teamCount: nat) returns (sizes: seq<nat>)
    requires teamCount > 0 || playerCount == 0
    ensures |sizes| == teamCount && Sum(sizes) == playerCount
    ensures teamCount > 0 ==> forall k :: 0 <= k < teamCount ==> sizes[k] == RoundRobinSize(playerCount, teamCount, k)
  {
    sizes := Zeros(teamCount);
    SumOfZeros(sizes);
    var i := 0;
    if teamCount > 0 {
      RoundsAtStart(teamCount);
    }
    while i < playerCount
      invariant 0 <= i <= playerCount && Sum(sizes) == i && |sizes| == teamCount
      invariant teamCount > 0 ==> sizes == RoundsAt(teamCount, i)
    {
      sizes := DealPlayer(sizes, teamCount, i);
      i := i + 1;
    }
  }

  /** One pass of the partition loop: player `i` goes to team `i % teamCount`. */
  method DealPlayer(sizes: seq<nat>, teamCount: nat, i: nat) returns (next: seq<nat>)
    requires teamCount > 0 && sizes == RoundsAt(teamCount, i) && Sum(sizes) == i
    ensures next == RoundsAt(teamCount, i + 1) && Sum(next) == i + 1 && |next| == teamCount
  {
    RoundsAtStep(teamCount, i);
    SumIncrement(sizes, i % teamCount);
    next := sizes[i % teamCount := sizes[i % teamCount] + 1];
  }

  /** Team sizes after `q` full rounds and `r` more players. */
  ghost function Rounds(n: nat, q: nat, r: nat): (s: seq<nat>)
    ensures |s| == n && forall k :: 0 <= k < n ==> s[k] == q + (if k < r then 1 else 0)
  {
    seq(n, k => q + (if k < r then 1 else 0))
  }

  /** Team sizes once `i` players are dealt round robin over `n` teams: the
      closed form of `RoundRobinSize`. */
  ghost function RoundsAt(n: nat, i: nat): (s: seq<nat>)
    requires n > 0
    ensures |s| == n && forall k :: 0 <= k < n ==> s[k] == RoundRobinSize(i, n, k)
  {
    Rounds(n, i / n, i % n)
  }

  lemma RoundsAtStart(n: nat)
    requires n > 0
    ensures RoundsAt(n, 0) == Zeros(n)
  {
  }

  /** One more player in slot `i % n` either completes the round or moves to
      the next slot. */
  lemma RoundsAtStep(n: nat, i: nat)
    requires n > 0
    ensures i % n < n
    ensures RoundsAt(n, i)[i % n := RoundsAt(n, i)[i % n] + 1] == RoundsAt(n, i + 1)
  {
    NextQuotient(n, i);
    RoundsStep(n, i / n, i % n);
  }

  /** Dealing one more player: the remainder moves to the next slot, wrapping
      to 0 and completing a round after the last one. */
  lemma NextQuotient(n: nat, i: nat)
    requires n > 0
    ensures i % n < n
    ensures i % n + 1 == n ==> (i + 1) / n == i / n + 1 && (i + 1) % n == 0
    ensures i % n + 1 < n ==> (i + 1) / n == i / n && (i + 1) % n == i % n + 1
  {
    var q, r := i / n, i % n;
    assert i == n * q + r;
    if r + 1 == n {
      MulSucc(n, q);
      DivModUnique(i + 1, n, q + 1, 0);
    } else {
      DivModUnique(i + 1, n, q, r + 1);
    }
  }

  lemma MulSucc(n: nat, q: nat)
    ensures n * (q + 1) == n * q + n
  {
  }

  /** Quotient and remainder are the only pair with `num == den * q + r`
      and `r < den`. */
  lemma DivModUnique(num: nat, den: nat, q: nat, r: nat)
    requires den > 0 && num == den * q + r && r < den
    ensures num / den == q && num % den == r
  {
    DivIsUnique(num, den, q);
  }

  /** The same step on `Rounds`. */
  lemma RoundsStep(n: nat, q: nat, r: nat)
    requires r < n
    ensures Rounds(n, q, r)[r := Rounds(n, q, r)[r] + 1]
         == if r + 1 == n then Rounds(n, q + 1, 0) else Rounds(n, q, r + 1)
  {
  }

  /** The averaging at the start of `Gen`: the mean overall score of the
      roster times the mean team size, which is the roster's total divided by
      the number of teams. */
  method NeededTeamAverage(players: seq<CWPlayer>, w: WeightsData, teamCount: nat) returns (needed: real)
    requires |players| > 0 && teamCount > 0
    ensures needed == TotalOverall(players, w) / (teamCount as real)
  {
    var average := 0.0;
    var i := 0;
    while i < |players|
      invariant 0 <= i <= |players|
      invariant average == TotalOverall(players[..i], w)
    {
      assert players[..i + 1][..i] == players[..i];
      average := average + GetOverall(players[i], w);
      i := i + 1;
    }
    assert players[..i] == players;
    average := average / (|players| as real);
    var averageTeamSize := (|players| as real) / (teamCount as real);
    needed := average * averageTeamSize;
    MeanTimesMeanSize(TotalOverall(players, w), |players| as real, teamCount as real);
  }

  lemma MeanTimesMeanSize(total: real, p: real, n: real)
    requires p > 0.0 && n > 0.0
    ensures (total / p) * (p / n) == total / n
  {
    var a, b := total / p, p / n;
    assert a * p == total;
    assert b * n == p;
    assert (a * b) * n == a * p;
  }

  /** The identity fill of `Teams`: slot i holds player i. */
  method IdentityAssignment(n: nat) returns (teams: seq<nat>)
    ensures teams == Identity(n)
    ensures IsPermutation(teams, n)
  {
    teams := Zeros(n);
    var i := 0;
    while i < n
      invariant 0 <= i <= n && |teams| == n
      invariant forall j :: 0 <= j < i ==> teams[j] == j
    {
      teams := teams[i := i];
      i := i + 1;
    }
  }

  /** `std::shuffle` as a Fisher-Yates pass whose random choices are left open:
      any sequence of swaps, and so any reordering, may result. */
  method Shuffle(teams: seq<nat>) returns (shuffled: seq<nat>)
    ensures multiset(shuffled) == multiset(teams)
  {
    shuffled := teams;
    var i := |teams|;
    while i > 1
      invariant 0 <= i <= |teams| && |shuffled| == |teams|
      invariant multiset(shuffled) == multiset(teams)
    {
      var pick: nat := *;
      var j := pick % i;
      shuffled := shuffled[i - 1 := shuffled[j]][j := shuffled[i - 1]];
      i := i - 1;
    }
  }

  /** Shuffling a permutation leaves a permutation. */
  lemma ShuffleKeepsPermutation(teams: seq<nat>, shuffled: seq<nat>, n: nat)
    requires IsPermutation(teams, n) && multiset(shuffled) == multiset(teams)
    ensures IsPermutation(shuffled, n) && |shuffled| == n && IdsInRange(shuffled, n)
  {
    PermutationInRange(shuffled, n);
  }

  /** `PrintResults` orders stored assignments by their spread, largest first. */
  predicate SortedByDelta(players: seq<CWPlayer>, w: WeightsData, sizes: seq<nat>, l: seq<seq<nat>>) {
    forall i, j :: 0 <= i < j < |l| ==> DeltaOf(players, w, sizes, l[i]) >= DeltaOf(players, w, sizes, l[j])
  }

  /** The comparator key of `PrintResults`. */
  function DeltaKey(players: seq<CWPlayer>, w: WeightsData, sizes: seq<nat>): seq<nat> -> real {
    teams => DeltaOf(players, w, sizes, teams)
  }

  /** `PrintResults`: sort the stored assignments by descending spread, then
      print them numbered from the count down to 1. The printing itself is
      output; `printed` lists the (number, assignment) pairs in print order. */
  method PrintResults(data: GenData, state: SearchState) returns (printed: seq<(nat, seq<nat>)>)
    modifies state`teamResults
    ensures multiset(state.teamResults) == multiset(old(state.teamResults))
    ensures SortedByDelta(data.players, data.weights, data.sizes, state.teamResults)
    ensures |printed| == |state.teamResults|
    ensures forall i :: 0 <= i < |printed| ==> printed[i] == (|printed| - i, state.teamResults[i])
  {
    var sorted := SortByDelta(data.players, data.weights, data.sizes, state.teamResults);
    state.teamResults := sorted;
    printed := [];
    var i := 0;
    while i < |sorted|
      invariant 0 <= i <= |sorted| && |printed| == i
      invariant forall k :: 0 <= k < i ==> printed[k] == (|sorted| - k, sorted[k])
    {
      printed := printed + [(|sorted| - i, sorted[i])];
      i := i + 1;
    }
  }

  /** The `std::sort` call of `PrintResults`, with the comparator "larger
      spread first", as insertion into a sorted prefix. */
  method SortByDelta(players: seq<CWPlayer>, w: WeightsData, sizes: seq<nat>, results: seq<seq<nat>>)
    returns (sorted: seq<seq<nat>>)
    ensures multiset(sorted) == multiset(results)
    ensures SortedByDelta(players, w, sizes, sorted)
  {
    sorted := [];
    var i := 0;
    var key := DeltaKey(players, w, sizes);
    while i < |results|
      invariant 0 <= i <= |results|
      invariant multiset(sorted) == multiset(results[..i])
      invariant SortedDesc(key, sorted)
    {
      assert results[..i + 1] == results[..i] + [results[i]];
      sorted := InsertDesc(key, results[i], sorted);
      i := i + 1;
    }
    assert results[..i] == results;
    forall i, j | 0 <= i < j < |sorted|
      ensures DeltaOf(players, w, sizes, sorted[i]) >= DeltaOf(players, w, sizes, sorted[j])
    {
      assert key(sorted[i]) >= key(sorted[j]);
    }
  }

  /** The inputs of `Gen` (`GenParameters`); the output stream and the
      timeout length are not modelled. */
  datatype GenParameters = GenParameters(
    players: seq<CWPlayer>,
    restrictions: seq<PlayerRestriction>,
    weightsMap: Weights,
    maxDev: real,
    limitOutput: int,
    teamCount: nat,
    sort: bool)

  /** The number of assignments the search loop keeps before it stops by
      itself: `LimitOutput`, or none when it is not positive. */
  function Quota(limitOutput: int): (r: nat)
    ensures r as int >= limitOutput && (r > 0 ==> r == limitOutput)
  {
    if limitOutput < 0 then 0 else limitOutput
  }

  /** How `Gen` ends. `ConfigError` is the fatal `Select` failure, `TimedOut`
      the fatal inner timeout, `Stale` the stale-search break, `Finished` the
      loop reaching `LimitOutput`. `OutOfShuffles` is the model's own bound on
      the number of shuffles. */
  datatype GenOutcome = Finished | Stale | TimedOut | ConfigError(error: SelectError) | OutOfShuffles

  /** A working assignment of the whole roster for the partition `sizes`. */
  predicate Fits(teams: seq<nat>, sizes: seq<nat>, playerCount: nat) {
    |teams| == playerCount && Sum(sizes) == playerCount && IsPermutation(teams, playerCount)
  }

  /** The assignment passes `AreTeamsValid` under the criteria `c`. */
  predicate Accepted(c: Criteria, sizes: seq<nat>, teams: seq<nat>) {
    Sum(sizes) <= |teams| && IdsInRange(teams, |c.players|) &&
    (VisitedInRange(teams, sizes, |c.players|);
     FirstFailure(c, VisitedTeams(teams, sizes)).None?)
  }

  /** The draw at the top of each search round: shuffle, count the combination,
      and keep shuffling while `AreTeamsValid` refuses the assignment, unless
      the clock runs out first. `valid` reports an accepted assignment;
      `timedOut` the fatal inner timeout (the caller prints the stored results
      before failing); neither, that the shuffle budget ran out. */
  method DrawValid(data: GenData, state: SearchState, fuel: nat)
    returns (valid: bool, timedOut: bool, fuelLeft: nat, shuffles: nat)
    requires data.Ready() && Fits(data.teams, data.sizes, |data.players|)
    modifies data`teams, state
    ensures data.Ready() && Fits(data.teams, data.sizes, |data.players|)
    ensures valid ==> !timedOut && fuelLeft < fuel && Accepted(data.Crit(), data.sizes, data.teams)
    ensures fuelLeft + shuffles == fuel && (!valid && !timedOut ==> fuelLeft == 0)
    ensures timedOut ==> shuffles > 0
    ensures shuffles == (state.valueFailedCount - old(state.valueFailedCount))
      + (state.restrictionFailedCount - old(state.restrictionFailedCount)) + (if valid then 1 else 0)
    ensures state.valueFailedCount >= old(state.valueFailedCount)
    ensures state.restrictionFailedCount >= old(state.restrictionFailedCount)
    ensures state.teamResults == old(state.teamResults)
  {
    ghost var n := |data.players|;
    ghost var v0, r0 := state.valueFailedCount, state.restrictionFailedCount;
    valid, timedOut, fuelLeft, shuffles := false, false, fuel, 0;
    if fuelLeft == 0 {
      return;
    }
    fuelLeft := fuelLeft - 1;
    var shuffled := Shuffle(data.teams);
    ShuffleKeepsPermutation(data.teams, shuffled, n);
    data.teams := shuffled;
    shuffles := shuffles + 1;
    valid := AreTeamsValid(data, state);
    while !valid
      invariant data.Ready() && Fits(data.teams, data.sizes, n)
      invariant fuelLeft < fuel && fuelLeft + shuffles == fuel
      invariant valid ==> data.Verdict().None?
      invariant state.valueFailedCount >= v0 && state.restrictionFailedCount >= r0
      invariant shuffles == (state.valueFailedCount - v0) + (state.restrictionFailedCount - r0) + (if valid then 1 else 0)
      invariant state.teamResults == old(state.teamResults)
      decreases fuelLeft
    {
      var clockExpired: bool := *;
      if clockExpired {
        timedOut := true;
        return;
      }
      if fuelLeft == 0 {
        return;
      }
      fuelLeft := fuelLeft - 1;
      shuffled := Shuffle(data.teams);
      ShuffleKeepsPermutation(data.teams, shuffled, n);
      data.teams := shuffled;
      shuffles := shuffles + 1;
      valid := AreTeamsValid(data, state);
    }
  }

  /** The set-up half of `Gen`: the search state over the roster, the
      round-robin partition, the weights profile chosen for it (a failed
      `Select` is fatal), the target team strength and the identity
      assignment. */
  method SetUp(params: GenParameters) returns (data: GenData, selectError: Option<SelectError>)
    requires |params.players| >= 1 && params.teamCount >= 1
    ensures fresh(data) && data.players == params.players && data.restrictions == params.restrictions
    ensures |data.sizes| == params.teamCount && Sum(data.sizes) == |params.players|
    ensures forall k :: 0 <= k < params.teamCount ==>
      data.sizes[k] == RoundRobinSize(|params.players|, params.teamCount, k)
    ensures selectError.Some? <==>
      Signature(data.sizes) !in params.weightsMap.weightsMap && FallbackKey(data.sizes) !in params.weightsMap.weightsMap
    ensures selectError.None? ==>
      data.weights == (if Signature(data.sizes) in params.weightsMap.weightsMap
                       then params.weightsMap.weightsMap[Signature(data.sizes)]
                       else params.weightsMap.weightsMap[FallbackKey(data.sizes)]) &&
      data.neededTeamAverage == TotalOverall(params.players, data.weights) / (params.teamCount as real) &&
      data.maxTeamDev == params.maxDev &&
      data.teams == Identity(|params.players|) && Fits(data.teams, data.sizes, |params.players|) && data.Ready()
  {
    data := new GenData(params.players, params.restrictions);
    data.maxTeamDev := params.maxDev;
    data.sizes := PartitionSizes(|params.players|, params.teamCount);
    var selected := params.weightsMap.Select(data.sizes);
    if selected.Failure? {
      return data, Some(selected.error);
    }
    selectError := None;
    data.weights := selected.value;
    data.neededTeamAverage := NeededTeamAverage(data.players, data.weights, |data.sizes|);
    data.teams := IdentityAssignment(|data.players|);
    PermutationInRange(data.teams, |data.players|);
  }

  /** The hash set of `Gen` as it grows: `hashes` lists the hashes added, in
      order, each one new when added, and `tried` holds exactly those. */
  predicate Recorded(hashes: seq<nat>, tried: set<nat>)
    decreases |hashes|
  {
    if |hashes| == 0 then tried == {}
    else
      var n := |hashes| - 1;
      hashes[n] in tried && Recorded(hashes[..n], tried - {hashes[n]})
  }

  /** Adding a hash not yet in the set. */
  lemma RecordUnseen(hashes: seq<nat>, tried: set<nat>, h: nat)
    requires Recorded(hashes, tried) && h !in tried
    ensures Recorded(hashes + [h], tried + {h})
  {
    assert (hashes + [h])[..|hashes|] == hashes;
    assert (tried + {h}) - {h} == tried;
  }

  /** The set holds one entry per recorded hash, and no hash was recorded twice. */
  lemma {:induction false} RecordedMeans(hashes: seq<nat>, tried: set<nat>)
    requires Recorded(hashes, tried)
    ensures |tried| == |hashes|
    ensures forall i :: 0 <= i < |hashes| ==> hashes[i] in tried
    ensures forall i, j :: 0 <= i < j < |hashes| ==> hashes[i] != hashes[j]
    decreases |hashes|
  {
    if |hashes| > 0 {
      var n := |hashes| - 1;
      var init := hashes[..n];
      RecordedMeans(init, tried - {hashes[n]});
      assert forall i :: 0 <= i < n ==> hashes[i] == init[i];
    }
  }

  /** A valid permutation of the roster for the partition `sizes` that
      `AreTeamsValid` accepts under the criteria `c`. */
  predicate Good(c: Criteria, sizes: seq<nat>, teams: seq<nat>) {
    Fits(teams, sizes, |c.players|) && Accepted(c, sizes, teams)
  }

  /** An accepted assignment paired with its hash. */
  function Admits(c: Criteria, sizes: seq<nat>): (seq<nat>, nat) -> bool {
    (teams: seq<nat>, h: nat) => Good(c, sizes, teams) && h == AssignmentHash(teams, sizes)
  }

  /** `ok` holds of every accepted assignment paired with its hash; the
      search loop carries `ok` instead of the criteria themselves. */
  ghost predicate Admitting(ok: (seq<nat>, nat) -> bool, c: Criteria, sizes: seq<nat>) {
    forall teams, h :: Good(c, sizes, teams) && h == AssignmentHash(teams, sizes) ==> ok(teams, h)
  }

  /** `Admits` itself qualifies. */
  lemma AdmitsAdmitting(c: Criteria, sizes: seq<nat>)
    ensures Admitting(Admits(c, sizes), c, sizes)
  {
  }

  /** `ok` holds of each entry of `xs` with the entry of `hs` at the same index. */
  predicate Paired<T>(ok: (T, nat) -> bool, xs: seq<T>, hs: seq<nat>)
    decreases |xs|
  {
    |xs| == |hs| &&
    (|xs| == 0 || (ok(xs[|xs| - 1], hs[|xs| - 1]) && Paired(ok, xs[..|xs| - 1], hs[..|xs| - 1])))
  }

  /** Appending a matching pair keeps `Paired`. */
  lemma PairedAppend<T>(ok: (T, nat) -> bool, xs: seq<T>, hs: seq<nat>, x: T, h: nat)
    requires Paired(ok, xs, hs) && ok(x, h)
    ensures Paired(ok, xs + [x], hs + [h])
  {
    assert (xs + [x])[..|xs|] == xs && (hs + [h])[..|hs|] == hs;
  }

  /** `Paired` read index by index. */
  lemma {:induction false} PairedMeans<T>(ok: (T, nat) -> bool, xs: seq<T>, hs: seq<nat>)
    requires Paired(ok, xs, hs)
    ensures |xs| == |hs| && forall i :: 0 <= i < |xs| ==> ok(xs[i], hs[i])
    decreases |xs|
  {
    if |xs| > 0 {
      var n := |xs| - 1;
      PairedMeans(ok, xs[..n], hs[..n]);
      assert forall i :: 0 <= i < n ==> xs[..n][i] == xs[i] && hs[..n][i] == hs[i];
    }
  }

  /** The dedup bookkeeping of `Gen`: the accepted assignments with their
      hashes, and the set of hashes seen. */
  predicate Deduplicated(c: Criteria, sizes: seq<nat>, accepted: seq<seq<nat>>, hashes: seq<nat>, tried: set<nat>) {
    Paired(Admits(c, sizes), accepted, hashes) && Recorded(hashes, tried)
  }

  /** What the bookkeeping guarantees: every accepted assignment is a valid
      permutation whose hash is in the set, no two accepted assignments share
      a hash, and the set holds one hash per accepted assignment. */
  lemma DeduplicatedMeans(c: Criteria, sizes: seq<nat>, accepted: seq<seq<nat>>, hashes: seq<nat>, tried: set<nat>)
    requires Deduplicated(c, sizes, accepted, hashes, tried)
    ensures |tried| == |accepted|
    ensures forall i :: 0 <= i < |accepted| ==>
      Good(c, sizes, accepted[i]) && AssignmentHash(accepted[i], sizes) in tried
    ensures forall i, j :: 0 <= i < j < |accepted| ==>
      AssignmentHash(accepted[i], sizes) != AssignmentHash(accepted[j], sizes)
  {
    RecordedMeans(hashes, tried);
    PairedMeans(Admits(c, sizes), accepted, hashes);
    forall i | 0 <= i < |accepted|
      ensures Good(c, sizes, accepted[i]) && AssignmentHash(accepted[i], sizes) in tried
    {
      assert Admits(c, sizes)(accepted[i], hashes[i]);
    }
    forall i, j | 0 <= i < j < |accepted|
      ensures AssignmentHash(accepted[i], sizes) != AssignmentHash(accepted[j], sizes)
    {
      assert Admits(c, sizes)(accepted[i], hashes[i]) && Admits(c, sizes)(accepted[j], hashes[j]);
    }
  }

  /** `Gen`. Random shuffles and clock readings are nondeterministic; `budget`
      bounds the number of shuffles so that the search terminates.
      `accepted` lists the assignments the search accepted, in order, and
      `duplicates` counts the valid assignments dropped as already seen. */
  method Gen(params: GenParameters, state: SearchState, budget: nat)
    returns (outcome: GenOutcome, data: GenData, combinationsTried: set<nat>, comboCount: nat,
             ghost accepted: seq<seq<nat>>, ghost hashes: seq<nat>, ghost duplicates: nat)
    requires 1 <= |params.players| <= 256 && params.teamCount >= 1
    requires params.teamCount == 1 ==> |params.players| <= 255
    modifies state
    ensures fresh(data) && data.players == params.players && data.restrictions == params.restrictions
    ensures |data.sizes| == params.teamCount && Sum(data.sizes) == |params.players|
    ensures forall k :: 0 <= k < params.teamCount ==>
      data.sizes[k] == RoundRobinSize(|params.players|, params.teamCount, k)
    ensures outcome.ConfigError? <==>
      Signature(data.sizes) !in params.weightsMap.weightsMap && FallbackKey(data.sizes) !in params.weightsMap.weightsMap
    ensures !outcome.ConfigError? ==>
      data.weights == (if Signature(data.sizes) in params.weightsMap.weightsMap
                       then params.weightsMap.weightsMap[Signature(data.sizes)]
                       else params.weightsMap.weightsMap[FallbackKey(data.sizes)]) &&
      data.neededTeamAverage == TotalOverall(params.players, data.weights) / (params.teamCount as real) &&
      data.maxTeamDev == params.maxDev
    ensures outcome.ConfigError? ==> state.teamResults == old(state.teamResults) && accepted == []
    ensures Deduplicated(data.Crit(), data.sizes, accepted, hashes, combinationsTried)
    ensures outcome == Finished ==> |accepted| == Quota(params.limitOutput)
    ensures outcome == Stale ==> |accepted| < params.limitOutput && duplicates > 0
    ensures duplicates > 0 ==> |accepted| > 0
    ensures outcome == TimedOut ==> state.valueFailedCount + state.restrictionFailedCount > 0
    ensures outcome == OutOfShuffles ==> comboCount == budget
    ensures comboCount == state.valueFailedCount + state.restrictionFailedCount + |accepted| + duplicates
    ensures outcome in {Finished, Stale, TimedOut} ==>
      multiset(state.teamResults) == multiset(old(state.teamResults) + (if params.sort then accepted else [])) &&
      SortedByDelta(data.players, data.weights, data.sizes, state.teamResults)
    ensures outcome == OutOfShuffles ==>
      state.teamResults == old(state.teamResults) + (if params.sort then accepted else [])
  {
    state.valueFailedCount := 0;
    state.restrictionFailedCount := 0;
    var selectError;
    data, selectError := SetUp(params);
    if selectError.Some? {
      accepted, hashes, duplicates := [], [], 0;
      combinationsTried, comboCount := {}, 0;
      return ConfigError(selectError.value), data, combinationsTried, comboCount, accepted, hashes, duplicates;
    }
    outcome, combinationsTried, comboCount, accepted, hashes, duplicates := Run(params, data, state, budget);
  }

  /** The search half of `Gen`, once the set-up succeeded: reset the
      counters, search, then print the stored results unless the shuffle
      budget ran out. */
  method Run(params: GenParameters, data: GenData, state: SearchState, budget: nat)
    returns (outcome: GenOutcome, combinationsTried: set<nat>, comboCount: nat,
             ghost accepted: seq<seq<nat>>, ghost hashes: seq<nat>, ghost duplicates: nat)
    requires data.Ready() && Fits(data.teams, data.sizes, |data.players|)
    modifies data`teams, state
    ensures outcome in {Finished, Stale, TimedOut, OutOfShuffles}
    ensures Deduplicated(data.Crit(), data.sizes, accepted, hashes, combinationsTried)
    ensures outcome == Finished ==> |accepted| == Quota(params.limitOutput)
    ensures outcome == Stale ==> |accepted| < params.limitOutput && duplicates > 0
    ensures duplicates > 0 ==> |accepted| > 0
    ensures outcome == TimedOut ==> state.valueFailedCount + state.restrictionFailedCount > 0
    ensures outcome == OutOfShuffles ==> comboCount == budget
    ensures comboCount == state.valueFailedCount + state.restrictionFailedCount + |accepted| + duplicates
    ensures outcome in {Finished, Stale, TimedOut} ==>
      multiset(state.teamResults) == multiset(old(state.teamResults) + (if params.sort then accepted else [])) &&
      SortedByDelta(data.players, data.weights, data.sizes, state.teamResults)
    ensures outcome == OutOfShuffles ==>
      state.teamResults == old(state.teamResults) + (if params.sort then accepted else [])
  {
    state.valueFailedCount := 0;
    state.restrictionFailedCount := 0;
    ghost var stored;
    ghost var crit, sizes := data.Crit(), data.sizes;
    AdmitsAdmitting(crit, sizes);
    outcome, combinationsTried, comboCount, accepted, hashes, duplicates, stored := Search(params, data, state, budget, Admits(crit, sizes));
    if outcome != OutOfShuffles {
      var _ := PrintResults(data, state);
    }
    assert data.Crit() == crit && data.sizes == sizes;
  }

  /** How one round of the search loop ended: a valid assignment with a new
      hash, a valid assignment already seen, the inner timeout, or the
      shuffle budget spent. */
  datatype RoundKind = Unseen | Seen | ClockOut | NoShuffles

  /** One iteration of the search loop up to the dedup check: shuffle until
      the assignment passes `AreTeamsValid` (or the clock or the budget runs
      out), then hash it and look the hash up in `tried`. */

  method SearchRound(data: GenData, state: SearchState, fuel: nat, tried: set<nat>, ghost ok: (seq<nat>, nat) -> bool)
    returns (round: RoundKind, hash: nat, fuelLeft: nat, shuffles: nat)
    requires data.Ready() && Fits(data.teams, data.sizes, |data.players|)
    requires Admitting(ok, data.Crit(), data.sizes)
    modifies data`teams, state
    ensures data.Ready() && Fits(data.teams, data.sizes, |data.players|)
    ensures fuelLeft <= fuel && (round in {Unseen, Seen} ==> fuelLeft < fuel)
    ensures fuelLeft + shuffles == fuel && (round == NoShuffles ==> fuelLeft == 0)
    ensures round == ClockOut ==> shuffles > 0
    ensures shuffles == (state.valueFailedCount - old(state.valueFailedCount))
      + (state.restrictionFailedCount - old(state.restrictionFailedCount)) + (if round in {Unseen, Seen} then 1 else 0)
    ensures state.valueFailedCount >= old(state.valueFailedCount)
    ensures state.restrictionFailedCount >= old(state.restrictionFailedCount)
    ensures state.teamResults == old(state.teamResults)
    ensures round == Unseen ==> hash !in tried && ok(data.teams, hash)
    ensures round == Seen ==> hash in tried
  {
    var valid, timedOut;
    valid, timedOut, fuelLeft, shuffles := DrawValid(data, state, fuel);
    hash := 0;
    if timedOut {
      return ClockOut, hash, fuelLeft, shuffles;
    }
    if !valid {
      return NoShuffles, hash, fuelLeft, shuffles;
    }
    hash := GetTeamsHash(data);
    if hash in tried {
      round := Seen;
    } else {
      assert Good(data.Crit(), data.sizes, data.teams);
      round := Unseen;
    }
  }

  /** The branch of the search loop taken for an assignment whose hash is
      new: record the hash, count the assignment and, when sorting, store a
      copy of it for `PrintResults`. */
  method KeepUnseen(sort: bool, data: GenData, state: SearchState, hash: nat, tried: set<nat>,
                    ghost ok: (seq<nat>, nat) -> bool, ghost accepted: seq<seq<nat>>, ghost hashes: seq<nat>,
                    ghost stored: seq<seq<nat>>, ghost results0: seq<seq<nat>>)
    returns (tried': set<nat>, ghost accepted': seq<seq<nat>>, ghost hashes': seq<nat>, ghost stored': seq<seq<nat>>)
    requires Paired(ok, accepted, hashes) && Recorded(hashes, tried)
    requires hash !in tried && ok(data.teams, hash)
    requires stored == (if sort then accepted else []) && state.teamResults == results0 + stored
    modifies state`teamResults
    ensures tried' == tried + {hash} && accepted' == accepted + [data.teams]
    ensures Paired(ok, accepted', hashes') && Recorded(hashes', tried')
    ensures stored' == (if sort then accepted' else []) && state.teamResults == results0 + stored'
  {
    PairedAppend(ok, accepted, hashes, data.teams, hash);
    RecordUnseen(hashes, tried, hash);
    hashes' := hashes + [hash];
    tried' := tried + {hash};
    accepted' := accepted + [data.teams];
    stored' := stored;
    if sort {
      state.teamResults := state.teamResults + [data.teams];
      stored' := stored + [data.teams];
      assert state.teamResults == results0 + stored';
    }
  }

  /** The search loop of `Gen`: draw a valid assignment, keep it when its
      hash is new (stored for sorting, or printed at once), otherwise give up
      once the clock says no new assignment came for too long; stop at
      `LimitOutput` and print the stored results. */
  method Search(params: GenParameters, data: GenData, state: SearchState, budget: nat, ghost ok: (seq<nat>, nat) -> bool)
    returns (outcome: GenOutcome, combinationsTried: set<nat>, comboCount: nat,
             ghost accepted: seq<seq<nat>>, ghost hashes: seq<nat>, ghost duplicates: nat,
             ghost stored: seq<seq<nat>>)
    requires data.Ready() && Fits(data.teams, data.sizes, |data.players|)
    requires state.valueFailedCount == 0 && state.restrictionFailedCount == 0
    requires Admitting(ok, data.Crit(), data.sizes)
    modifies data`teams, state
    ensures data.Ready()
    ensures Paired(ok, accepted, hashes) && Recorded(hashes, combinationsTried)
    ensures outcome in {Finished, Stale, TimedOut, OutOfShuffles}
    ensures outcome == Finished ==> |accepted| == Quota(params.limitOutput)
    ensures outcome == Stale ==> |accepted| < params.limitOutput && duplicates > 0
    ensures duplicates > 0 ==> |accepted| > 0
    ensures outcome == TimedOut ==> state.valueFailedCount + state.restrictionFailedCount > 0
    ensures outcome == OutOfShuffles ==> comboCount == budget
    ensures comboCount == state.valueFailedCount + state.restrictionFailedCount + |accepted| + duplicates
    ensures stored == if params.sort then accepted else []
    ensures state.teamResults == old(state.teamResults) + stored
  {
    accepted, hashes, duplicates, stored := [], [], 0, [];
    combinationsTried, comboCount := {}, 0;
    ghost var crit, sizes, playerCount := data.Crit(), data.sizes, |data.players|;
    ghost var results0 := state.teamResults;
    var validOptions := 0;
    var fuel := budget;
    outcome := Finished;
    while validOptions < params.limitOutput
      invariant data.sizes == sizes && data.Crit() == crit && |data.players| == playerCount
      invariant data.Ready() && Fits(data.teams, sizes, playerCount)
      invariant validOptions == |accepted| && Paired(ok, accepted, hashes) && Recorded(hashes, combinationsTried)
      invariant validOptions == 0 || validOptions <= params.limitOutput
      invariant comboCount == state.valueFailedCount + state.restrictionFailedCount + |accepted| + duplicates
      invariant stored == (if params.sort then accepted else []) && state.teamResults == results0 + stored
      invariant outcome == Finished
      invariant comboCount + fuel == budget
      invariant duplicates > 0 ==> |accepted| > 0
      invariant state.valueFailedCount >= 0 && state.restrictionFailedCount >= 0
      decreases fuel
    {
      var round, hash, fuelLeft, shuffles := SearchRound(data, state, fuel, combinationsTried, ok);
      comboCount := comboCount + shuffles;
      fuel := fuelLeft;
      if round == ClockOut {
        outcome := TimedOut;
        break;
      }
      if round == NoShuffles {
        outcome := OutOfShuffles;
        break;
      }
      if round == Unseen {
        combinationsTried, accepted, hashes, stored :=
          KeepUnseen(params.sort, data, state, hash, combinationsTried, ok, accepted, hashes, stored, results0);
        validOptions := validOptions + 1;
      } else {
        RecordedMeans(hashes, combinationsTried);
        duplicates := duplicates + 1;
        var clockExpired: bool := *;
        if clockExpired {
          outcome := Stale;
          break;
        }
      }
    }
  }
}
