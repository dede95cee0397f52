/** A rated player (`CWPlayer`), the scoring profile applied to it
    (`WeightsData`) and the `Team` view over the flat assignment. Scores and
    weights are `double` in the source; here they are exact reals. */
module Player {

  /** The three weights of one scoring profile. */
  datatype WeightsData = WeightsData(pvp: real, gamesense: real, teamwork: real)

  /** A player record; fields are never updated once the record is built, as the
      `final` fields of the Java port say. */
  datatype CWPlayer = CWPlayer(realName: string, username: string, pvp: real, gamesense: real, teamwork: real)

  predicate IsProfile(w: WeightsData) {
    0.0 <= w.pvp && 0.0 <= w.gamesense && 0.0 <= w.teamwork && w.pvp + w.gamesense + w.teamwork == 1.0
  }

  function Min3(x: real, y: real, z: real): real {
    if x <= y && x <= z then x else if y <= z then y else z
  }

  function Max3(x: real, y: real, z: real): real {
    if x >= y && x >= z then x else if y >= z then y else z
  }

  /** GetOverall / getOverall: the profile's weighted sum of the three scores. */
  function GetOverall(p: CWPlayer, w: WeightsData): (r: real)
  {
    w.pvp * p.pvp + w.gamesense * p.gamesense + w.teamwork * p.teamwork
  }

  lemma ScaleMonotone(a: real, x: real, y: real)
    requires 0.0 <= a && x <= y
    ensures a * x <= a * y
  {
    assert a * y - a * x == a * (y - x);
  }

  lemma WeightedAtLeast(a: real, b: real, c: real, x: real, y: real, z: real, m: real)
    requires 0.0 <= a && 0.0 <= b && 0.0 <= c && m <= x && m <= y && m <= z
    ensures (a + b + c) * m <= a * x + b * y + c * z
  {
    ScaleMonotone(a, m, x);
    ScaleMonotone(b, m, y);
    ScaleMonotone(c, m, z);
  }

  lemma WeightedAtMost(a: real, b: real, c: real, x: real, y: real, z: real, m: real)
    requires 0.0 <= a && 0.0 <= b && 0.0 <= c && x <= m && y <= m && z <= m
    ensures a * x + b * y + c * z <= (a + b + c) * m
  {
    ScaleMonotone(a, x, m);
    ScaleMonotone(b, y, m);
    ScaleMonotone(c, z, m);
  }

  /** Under a profile (non-negative weights summing to one) the overall score is
      a convex combination, so it lies between the lowest and the highest of the
      three scores. */
  lemma {:induction false} OverallWithinScores(p: CWPlayer, w: WeightsData)
    requires IsProfile(w)
    ensures Min3(p.pvp, p.gamesense, p.teamwork) <= GetOverall(p, w) <= Max3(p.pvp, p.gamesense, p.teamwork)
  {
    var lo, hi := Min3(p.pvp, p.gamesense, p.teamwork), Max3(p.pvp, p.gamesense, p.teamwork);
    WeightedAtLeast(w.pvp, w.gamesense, w.teamwork, p.pvp, p.gamesense, p.teamwork, lo);
    WeightedAtMost(w.pvp, w.gamesense, w.teamwork, p.pvp, p.gamesense, p.teamwork, hi);
  }

  /** Non-negative scores under non-negative weights give a non-negative overall. */
  lemma OverallNonNegative(p: CWPlayer, w: WeightsData)
    requires 0.0 <= p.pvp && 0.0 <= p.gamesense && 0.0 <= p.teamwork
    requires 0.0 <= w.pvp && 0.0 <= w.gamesense && 0.0 <= w.teamwork
    ensures 0.0 <= GetOverall(p, w)
  {
    ScaleMonotone(w.pvp, 0.0, p.pvp);
    ScaleMonotone(w.gamesense, 0.0, p.gamesense);
    ScaleMonotone(w.teamwork, 0.0, p.teamwork);
  }

  /** A player who scores at least as well as another in every category is
      rated at least as high under any non-negative weights. */
  lemma OverallMonotone(p: CWPlayer, q: CWPlayer, w: WeightsData)
    requires 0.0 <= w.pvp && 0.0 <= w.gamesense && 0.0 <= w.teamwork
    requires p.pvp <= q.pvp && p.gamesense <= q.gamesense && p.teamwork <= q.teamwork
    ensures GetOverall(p, w) <= GetOverall(q, w)
  {
    ScaleMonotone(w.pvp, p.pvp, q.pvp);
    ScaleMonotone(w.gamesense, p.gamesense, q.gamesense);
    ScaleMonotone(w.teamwork, p.teamwork, q.teamwork);
  }

  /** GetUnWeightedOverall / getUnWeightedOverall: the mean of the three scores. */
  function GetUnWeightedOverall(p: CWPlayer): (r: real)
    ensures r == GetOverall(p, WeightsData(1.0 / 3.0, 1.0 / 3.0, 1.0 / 3.0))
  {
    (p.pvp + p.gamesense + p.teamwork) / 3.0
  }

  /** `operator<`: orders players by unweighted overall only. */
  predicate Less(p: CWPlayer, q: CWPlayer) {
    GetUnWeightedOverall(p) < GetUnWeightedOverall(q)
  }

  /** `operator<` is a strict weak order, as sorting players requires:
      irreflexive, transitive, and players it cannot tell apart form classes
      (incomparability is transitive). */
  lemma LessIsStrictWeakOrder(p: CWPlayer, q: CWPlayer, s: CWPlayer)
    ensures !Less(p, p)
    ensures Less(p, q) && Less(q, s) ==> Less(p, s)
    ensures !Less(p, q) && !Less(q, p) && !Less(q, s) && !Less(s, q) ==> !Less(p, s) && !Less(s, p)
  {
  }

  /** `compareTo`, i.e. `Double.compare` of the unweighted overalls. */
  function CompareTo(p: CWPlayer, q: CWPlayer): (r: int)
    ensures -1 <= r <= 1
  {
    var x, y := GetUnWeightedOverall(p), GetUnWeightedOverall(q);
    if x < y then -1 else if x > y then 1 else 0
  }

  /** The Java comparison and the C++ `operator<` order players the same way. */
  lemma CompareToAgreesWithLess(p: CWPlayer, q: CWPlayer)
    ensures CompareTo(p, q) < 0 <==> Less(p, q)
    ensures CompareTo(p, q) > 0 <==> Less(q, p)
    ensures CompareTo(p, q) == -CompareTo(q, p)
  {
  }

  /** Names play no part in the ordering: renaming either player changes nothing. */
  lemma LessIgnoresNames(p: CWPlayer, q: CWPlayer, pName: string, pUser: string, qName: string, qUser: string)
    ensures Less(p, q) == Less(p.(realName := pName, username := pUser), q.(realName := qName, username := qUser))
  {
  }

  /** A contiguous view `PlayerList[PlayerIndex, PlayerIndex + TeamSize)`. */
  datatype Team = Team(playerIndex: nat, teamSize: nat)

  /** The player ids a `Team` view yields when iterated from begin() to end(). */
  function Members(list: seq<nat>, team: Team): (m: seq<nat>)
    requires team.playerIndex + team.teamSize <= |list|
    ensures |m| == team.teamSize
    ensures forall i :: 0 <= i < |m| ==> m[i] == list[team.playerIndex + i]
  {
    list[team.playerIndex..team.playerIndex + team.teamSize]
  }
}
