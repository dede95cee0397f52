/** Value-level view of one assignment: the flat permutation `Teams` cut into
    contiguous slices by `Sizes`, the strength of each slice, the spread between
    the strongest and weakest team, and the acceptance test that `AreTeamsValid`
    applies team by team. */
module Assignment {
  import opened Wrappers
  import opened Player
  import opened Restrictions
  import opened Sorting

  /** Sum of a sequence of sizes. */
  function Sum(s: seq<nat>): nat {
    if |s| == 0 then 0 else Sum(s[..|s| - 1]) + s[|s| - 1]
  }

  lemma {:induction false} SumAppend(a: seq<nat>, b: seq<nat>)
    ensures Sum(a + b) == Sum(a) + Sum(b)
  {
    if |b| == 0 {
      assert a + b == a;
    } else {
      assert (a + b)[..|a + b| - 1] == a + b[..|b| - 1];
      SumAppend(a, b[..|b| - 1]);
    }
  }

  /** Incrementing one entry raises the sum by one (`Sizes[i % n]++`). */
  lemma SumIncrement(s: seq<nat>, j: nat)
    requires j < |s|
    ensures Sum(s[j := s[j] + 1]) == Sum(s) + 1
  {
    assert s == s[..j] + [s[j]] + s[j + 1..];
    assert s[j := s[j] + 1] == s[..j] + [s[j] + 1] + s[j + 1..];
    SumAppend(s[..j] + [s[j]], s[j + 1..]);
    SumAppend(s[..j], [s[j]]);
    SumAppend(s[..j] + [s[j] + 1], s[j + 1..]);
    SumAppend(s[..j], [s[j] + 1]);
  }

  /** Index of the first player of team `k`: Sizes[0] + ... + Sizes[k-1]. */
  function Offset(sizes: seq<nat>, k: nat): nat
    requires k <= |sizes|
  {
    Sum(sizes[..k])
  }

  lemma OffsetStep(sizes: seq<nat>, k: nat)
    requires k < |sizes|
    ensures Offset(sizes, k + 1) == Offset(sizes, k) + sizes[k]
  {
    assert sizes[..k + 1][..k] == sizes[..k];
  }

  lemma OffsetMonotone(sizes: seq<nat>, j: nat, k: nat)
    requires j <= k <= |sizes|
    ensures Offset(sizes, j) <= Offset(sizes, k)
  {
    assert sizes[..k] == sizes[..j] + sizes[j..k];
    SumAppend(sizes[..j], sizes[j..k]);
  }

  /** Every team slice ends within the first Sum(sizes) positions. */
  lemma OffsetBound(sizes: seq<nat>, k: nat)
    requires k < |sizes|
    ensures Offset(sizes, k) + sizes[k] <= Sum(sizes)
  {
    OffsetStep(sizes, k);
    OffsetMonotone(sizes, k + 1, |sizes|);
    assert sizes[..|sizes|] == sizes;
  }

  /** The `Team` view of team `k`. */
  function TeamAt(sizes: seq<nat>, k: nat): Team
    requires k < |sizes|
  {
    Team(Offset(sizes, k), sizes[k])
  }

  /** The assignment cut into its teams, team by team in order. */
  function Split(teams: seq<nat>, sizes: seq<nat>): (r: seq<seq<nat>>)
    requires Sum(sizes) <= |teams|
    ensures |r| == |sizes|
  {
    if |sizes| == 0 then []
    else
      var init := sizes[..|sizes| - 1];
      Split(teams, init) + [teams[Sum(init)..Sum(sizes)]]
  }

  /** Cutting by the first `v` sizes gives the first `v` teams. */
  lemma {:induction false} SplitPrefix(teams: seq<nat>, sizes: seq<nat>, v: nat)
    requires Sum(sizes) <= |teams| && v <= |sizes|
    ensures Sum(sizes[..v]) <= |teams|
    ensures Split(teams, sizes)[..v] == Split(teams, sizes[..v])
  {
    OffsetMonotone(sizes, v, |sizes|);
    assert sizes[..|sizes|] == sizes;
    if v < |sizes| {
      var init := sizes[..|sizes| - 1];
      SplitPrefix(teams, init, v);
      assert init[..v] == sizes[..v];
      assert Split(teams, sizes)[..v] == Split(teams, init)[..v];
    }
  }

  /** Team `k` of the split is exactly the `Team` view of team `k`: the
      Sizes[k] entries starting at Offset(sizes, k). */
  lemma SplitIsMembers(teams: seq<nat>, sizes: seq<nat>, k: nat)
    requires Sum(sizes) <= |teams| && k < |sizes|
    ensures Offset(sizes, k) + sizes[k] <= |teams|
    ensures Split(teams, sizes)[k] == Members(teams, TeamAt(sizes, k))
  {
    OffsetBound(sizes, k);
    SplitPrefix(teams, sizes, k + 1);
    var pre := sizes[..k + 1];
    assert pre[..k] == sizes[..k];
    OffsetStep(sizes, k);
    assert Split(teams, sizes)[k] == Split(teams, pre)[k];
  }

  /** Concatenation of the teams, in team order. */
  function Flatten(l: seq<seq<nat>>): seq<nat> {
    if |l| == 0 then [] else Flatten(l[..|l| - 1]) + l[|l| - 1]
  }

  /** The teams partition the assignment: laid end to end they give back its
      first Sum(sizes) entries, each exactly once and in order. */
  lemma {:induction false} SplitFlatten(teams: seq<nat>, sizes: seq<nat>)
    requires Sum(sizes) <= |teams|
    ensures Flatten(Split(teams, sizes)) == teams[..Sum(sizes)]
  {
    if |sizes| > 0 {
      var init := sizes[..|sizes| - 1];
      SplitFlatten(teams, init);
      var l := Split(teams, sizes);
      var last := teams[Sum(init)..Sum(sizes)];
      assert l == Split(teams, init) + [last];
      assert l[..|l| - 1] == Split(teams, init) && l[|l| - 1] == last;
      SliceJoin(teams, Sum(init), Sum(sizes));
    }
  }

  lemma SliceJoin(s: seq<nat>, i: nat, j: nat)
    requires i <= j <= |s|
    ensures s[..j] == s[..i] + s[i..j]
  {
  }

  /** Number of teams the range-for over GenData visits: it stops as soon as
      PlayerIndex reaches the player count, so trailing empty teams are skipped. */
  function VisitedCount(sizes: seq<nat>): (v: nat)
    ensures v <= |sizes|
  {
    if |sizes| == 0 then 0
    else if sizes[|sizes| - 1] == 0 then VisitedCount(sizes[..|sizes| - 1])
    else |sizes|
  }

  lemma {:induction false} VisitedShape(sizes: seq<nat>)
    ensures VisitedCount(sizes) > 0 ==> sizes[VisitedCount(sizes) - 1] > 0
    ensures forall k :: VisitedCount(sizes) <= k < |sizes| ==> sizes[k] == 0
  {
    if |sizes| > 0 && sizes[|sizes| - 1] == 0 {
      VisitedShape(sizes[..|sizes| - 1]);
    }
  }

  lemma {:induction false} SumOfZeros(s: seq<nat>)
    requires forall k :: 0 <= k < |s| ==> s[k] == 0
    ensures Sum(s) == 0
  {
    if |s| > 0 {
      SumOfZeros(s[..|s| - 1]);
    }
  }

  /** The iteration over teams ends exactly at PlayerIndex == Sum(sizes): the
      visited teams already cover all players and every earlier position is short. */
  lemma VisitedCountEndsIteration(sizes: seq<nat>)
    ensures Offset(sizes, VisitedCount(sizes)) == Sum(sizes)
    ensures forall k :: 0 <= k < VisitedCount(sizes) ==> Offset(sizes, k) < Sum(sizes)
  {
    VisitedOffsetIsSum(sizes);
    forall k | 0 <= k < VisitedCount(sizes) ensures Offset(sizes, k) < Sum(sizes) {
      EarlierOffsetShort(sizes, k);
    }
  }

  /** The teams after the visited ones are empty, so the visited ones hold
      every player. */
  lemma VisitedOffsetIsSum(sizes: seq<nat>)
    ensures Offset(sizes, VisitedCount(sizes)) == Sum(sizes)
  {
    var v := VisitedCount(sizes);
    VisitedShape(sizes);
    SliceJoin(sizes, v, |sizes|);
    assert sizes[..|sizes|] == sizes;
    SumAppend(sizes[..v], sizes[v..]);
    SumOfZeros(sizes[v..]);
  }

  /** The last visited team is not empty, so every earlier team starts
      before the end. */
  lemma EarlierOffsetShort(sizes: seq<nat>, k: nat)
    requires k < VisitedCount(sizes)
    ensures Offset(sizes, k) < Sum(sizes)
  {
    var v := VisitedCount(sizes);
    VisitedShape(sizes);
    VisitedOffsetIsSum(sizes);
    OffsetMonotone(sizes, k, v - 1);
    OffsetStep(sizes, v - 1);
  }

  /** The range-for stops at team `k` exactly when `k` is the visited count. */
  lemma VisitStops(sizes: seq<nat>, k: nat)
    requires k <= VisitedCount(sizes)
    ensures Offset(sizes, k) == Sum(sizes) <==> k == VisitedCount(sizes)
  {
    VisitedCountEndsIteration(sizes);
  }

  /** One step of the range-for: the team at position `k` is the k-th visited
      team and the iterator moves on by its size. */
  lemma VisitStep(teams: seq<nat>, sizes: seq<nat>, k: nat)
    requires Sum(sizes) <= |teams| && k < VisitedCount(sizes)
    ensures Offset(sizes, k) + sizes[k] <= |teams|
    ensures VisitedTeams(teams, sizes)[k] == Members(teams, TeamAt(sizes, k))
    ensures Offset(sizes, k + 1) == Offset(sizes, k) + sizes[k]
  {
    SplitIsMembers(teams, sizes, k);
    OffsetStep(sizes, k);
  }

  /** With no empty team every team is visited. */
  lemma VisitedAllWhenNonEmpty(sizes: seq<nat>)
    requires forall k :: 0 <= k < |sizes| ==> sizes[k] > 0
    ensures VisitedCount(sizes) == |sizes|
  {
  }

  /** The teams the range-for visits, in order. */
  function VisitedTeams(teams: seq<nat>, sizes: seq<nat>): (r: seq<seq<nat>>)
    requires Sum(sizes) <= |teams|
    ensures |r| == VisitedCount(sizes)
  {
    Split(teams, sizes)[..VisitedCount(sizes)]
  }

  /** The visited teams still partition the first Sum(sizes) entries. */
  lemma VisitedTeamsFlatten(teams: seq<nat>, sizes: seq<nat>)
    requires Sum(sizes) <= |teams|
    ensures Flatten(VisitedTeams(teams, sizes)) == teams[..Sum(sizes)]
  {
    var v := VisitedCount(sizes);
    VisitedCountEndsIteration(sizes);
    SplitPrefix(teams, sizes, v);
    SplitFlatten(teams, sizes[..v]);
  }

  /** Round-robin team size: team `k` of `n` gets P / n players, plus one
      when k < P % n. */
  function RoundRobinSize(p: nat, n: nat, k: nat): nat
    requires n > 0
  {
    p / n + (if k < p % n then 1 else 0)
  }

  /** Round-robin sizes never differ by more than one, and earlier teams are
      never smaller than later ones. */
  lemma RoundRobinBalanced(p: nat, n: nat, j: nat, k: nat)
    requires n > 0 && j <= k
    ensures RoundRobinSize(p, n, k) <= RoundRobinSize(p, n, j) <= RoundRobinSize(p, n, k) + 1
  {
  }

  /** The identity permutation [0, 1, ..., n-1]. */
  function Identity(n: nat): (r: seq<nat>)
    ensures |r| == n && forall i :: 0 <= i < n ==> r[i] == i
  {
    if n == 0 then [] else Identity(n - 1) + [n - 1]
  }

  predicate IsPermutation(teams: seq<nat>, n: nat) {
    multiset(teams) == multiset(Identity(n))
  }

  /** A permutation of [0..n) only holds valid player ids. */
  lemma PermutationInRange(teams: seq<nat>, n: nat)
    requires IsPermutation(teams, n)
    ensures |teams| == n && IdsInRange(teams, n)
  {
    assert |teams| == |multiset(teams)| == |multiset(Identity(n))| == n;
    forall i | 0 <= i < |teams| ensures teams[i] < n {
      assert teams[i] in multiset(Identity(n));
    }
  }

  /** Strength of a team: the sum of its members' overall scores (GetTeamStrength). */
  function Strength(players: seq<CWPlayer>, w: WeightsData, ids: seq<nat>): real
    requires IdsInRange(ids, |players|)
  {
    if |ids| == 0 then 0.0
    else Strength(players, w, ids[..|ids| - 1]) + GetOverall(players[ids[|ids| - 1]], w)
  }

  lemma {:induction false} StrengthAppend(players: seq<CWPlayer>, w: WeightsData, a: seq<nat>, b: seq<nat>)
    requires IdsInRange(a, |players|) && IdsInRange(b, |players|)
    ensures IdsInRange(a + b, |players|)
    ensures Strength(players, w, a + b) == Strength(players, w, a) + Strength(players, w, b)
  {
    if |b| > 0 {
      assert (a + b)[..|a + b| - 1] == a + b[..|b| - 1];
      StrengthAppend(players, w, a, b[..|b| - 1]);
    } else {
      assert a + b == a;
    }
  }

  /** Taking member `j` out of a team lowers its strength by that member's score. */
  lemma StrengthRemove(players: seq<CWPlayer>, w: WeightsData, b: seq<nat>, j: nat)
    requires IdsInRange(b, |players|) && j < |b|
    ensures IdsInRange(b[..j] + b[j + 1..], |players|)
    ensures Strength(players, w, b) == Strength(players, w, b[..j] + b[j + 1..]) + GetOverall(players[b[j]], w)
  {
    var x := b[j];
    assert b == b[..j] + [x] + b[j + 1..];
    assert Strength(players, w, [x]) == GetOverall(players[x], w) by {
      assert [x][..0] == [];
    }
    StrengthAppend(players, w, b[..j], [x]);
    StrengthAppend(players, w, b[..j] + [x], b[j + 1..]);
    StrengthAppend(players, w, b[..j], b[j + 1..]);
  }

  lemma PermutationInRangeOf(a: seq<nat>, b: seq<nat>, n: nat)
    requires IdsInRange(a, n) && multiset(a) == multiset(b)
    ensures IdsInRange(b, n) && |a| == |b|
  {
    forall i | 0 <= i < |b| ensures b[i] < n {
      assert b[i] in multiset(a);
    }
    assert |a| == |multiset(a)| == |multiset(b)| == |b|;
  }

  /** A team's strength does not depend on the order of its members. */
  lemma {:induction false} StrengthPermutation(players: seq<CWPlayer>, w: WeightsData, a: seq<nat>, b: seq<nat>)
    requires IdsInRange(a, |players|) && multiset(a) == multiset(b)
    ensures IdsInRange(b, |players|)
    ensures Strength(players, w, a) == Strength(players, w, b)
  {
    PermutationInRangeOf(a, b, |players|);
    if |a| > 0 {
      var j := PermutationRemoveLast(a, b);
      StrengthPermutation(players, w, a[..|a| - 1], b[..j] + b[j + 1..]);
      StrengthRemove(players, w, b, j);
    }
  }

  /** Sum of every player's overall score. */
  function TotalOverall(players: seq<CWPlayer>, w: WeightsData): real {
    if |players| == 0 then 0.0
    else TotalOverall(players[..|players| - 1], w) + GetOverall(players[|players| - 1], w)
  }

  lemma {:induction false} StrengthOfIdentity(players: seq<CWPlayer>, w: WeightsData, k: nat)
    requires k <= |players|
    ensures IdsInRange(Identity(k), |players|)
    ensures Strength(players, w, Identity(k)) == TotalOverall(players[..k], w)
  {
    if k > 0 {
      StrengthOfIdentity(players, w, k - 1);
      assert Identity(k)[..k - 1] == Identity(k - 1);
      assert players[..k][..k - 1] == players[..k - 1];
    }
  }

  function SumReals(xs: seq<real>): real {
    if |xs| == 0 then 0.0 else SumReals(xs[..|xs| - 1]) + xs[|xs| - 1]
  }

  predicate AllInRange(l: seq<seq<nat>>, n: nat) {
    forall k :: 0 <= k < |l| ==> IdsInRange(l[k], n)
  }

  /** The strength of every team, in team order. */
  function Strengths(players: seq<CWPlayer>, w: WeightsData, l: seq<seq<nat>>): (r: seq<real>)
    requires AllInRange(l, |players|)
    ensures |r| == |l| && forall k :: 0 <= k < |l| ==> r[k] == Strength(players, w, l[k])
  {
    seq(|l|, k requires 0 <= k < |l| => Strength(players, w, l[k]))
  }

  lemma {:induction false} StrengthsSum(players: seq<CWPlayer>, w: WeightsData, l: seq<seq<nat>>)
    requires AllInRange(l, |players|)
    ensures IdsInRange(Flatten(l), |players|)
    ensures SumReals(Strengths(players, w, l)) == Strength(players, w, Flatten(l))
  {
    if |l| > 0 {
      StrengthsSum(players, w, l[..|l| - 1]);
      assert Strengths(players, w, l)[..|l| - 1] == Strengths(players, w, l[..|l| - 1]);
      StrengthAppend(players, w, Flatten(l[..|l| - 1]), l[|l| - 1]);
    }
  }

  /** The teams of a full assignment carry the whole roster's score between
      them: their strengths add up to the total overall score. */
  lemma TeamStrengthsSumToTotal(players: seq<CWPlayer>, w: WeightsData, teams: seq<nat>, sizes: seq<nat>)
    requires IsPermutation(teams, |players|) && Sum(sizes) == |teams|
    ensures AllInRange(VisitedTeams(teams, sizes), |players|)
    ensures SumReals(Strengths(players, w, VisitedTeams(teams, sizes))) == TotalOverall(players, w)
  {
    PermutationInRange(teams, |players|);
    VisitedInRange(teams, sizes, |players|);
    var l := VisitedTeams(teams, sizes);
    StrengthsSum(players, w, l);
    assert Flatten(l) == teams by {
      VisitedTeamsFlatten(teams, sizes);
      assert teams[..Sum(sizes)] == teams;
    }
    StrengthOfRoster(players, w, teams);
  }

  /** Any permutation of the roster carries the roster's total score. */
  lemma StrengthOfRoster(players: seq<CWPlayer>, w: WeightsData, teams: seq<nat>)
    requires IsPermutation(teams, |players|)
    ensures IdsInRange(teams, |players|)
    ensures Strength(players, w, teams) == TotalOverall(players, w)
  {
    PermutationInRange(teams, |players|);
    StrengthOfIdentity(players, w, |players|);
    assert players[..|players|] == players;
    StrengthPermutation(players, w, Identity(|players|), teams);
  }

  /** Every visited team of an assignment of valid ids holds valid ids. */
  lemma VisitedInRange(teams: seq<nat>, sizes: seq<nat>, n: nat)
    requires Sum(sizes) <= |teams| && IdsInRange(teams, n)
    ensures AllInRange(VisitedTeams(teams, sizes), n)
  {
    var l := VisitedTeams(teams, sizes);
    forall k | 0 <= k < |l| ensures IdsInRange(l[k], n) {
      SplitIsMembers(teams, sizes, k);
    }
  }

  /** The strength of each visited team, in team order. */
  function TeamStrengths(players: seq<CWPlayer>, w: WeightsData, teams: seq<nat>, sizes: seq<nat>): seq<real>
    requires Sum(sizes) <= |teams| && IdsInRange(teams, |players|)
  {
    VisitedInRange(teams, sizes, |players|);
    Strengths(players, w, VisitedTeams(teams, sizes))
  }

  /** Running bounds of GetTeamsDeltaStrength. */
  datatype Bounds = Bounds(lo: real, hi: real)

  /** The `0.0`-sentinel running minimum and maximum of GetTeamsDeltaStrength:
      a bound is replaced when it is still 0.0 or when the new value beats it. */
  function MinMaxFold(xs: seq<real>): Bounds {
    if |xs| == 0 then Bounds(0.0, 0.0)
    else Widen(MinMaxFold(xs[..|xs| - 1]), xs[|xs| - 1])
  }

  /** One step of the fold: the next strength replaces a bound that is still
      the 0.0 sentinel or that it beats. */
  function Widen(b: Bounds, x: real): Bounds {
    Bounds(if b.lo == 0.0 || x < b.lo then x else b.lo, if b.hi == 0.0 || x > b.hi then x else b.hi)
  }

  /** The fold over a prefix one element longer. */
  lemma MinMaxStep(xs: seq<real>, k: nat)
    requires k < |xs|
    ensures MinMaxFold(xs[..k + 1]) == Widen(MinMaxFold(xs[..k]), xs[k])
  {
    assert xs[..k + 1][..k] == xs[..k];
  }

  /** GetTeamsDeltaStrength's result: the maximum bound minus the minimum bound. */
  function DeltaStrength(xs: seq<real>): real {
    MinMaxFold(xs).hi - MinMaxFold(xs).lo
  }

  /** The spread of a stored assignment, the key PrintResults sorts by; 0.0
      for an entry that does not fit the partition. */
  function DeltaOf(players: seq<CWPlayer>, w: WeightsData, sizes: seq<nat>, teams: seq<nat>): real {
    if Sum(sizes) <= |teams| && IdsInRange(teams, |players|) then DeltaStrength(TeamStrengths(players, w, teams, sizes))
    else 0.0
  }

  predicate NoneZero(xs: seq<real>) {
    forall k :: 0 <= k < |xs| ==> xs[k] != 0.0
  }

  predicate IsMin(xs: seq<real>, m: real) {
    (exists i :: 0 <= i < |xs| && xs[i] == m) && forall k :: 0 <= k < |xs| ==> m <= xs[k]
  }

  predicate IsMax(xs: seq<real>, m: real) {
    (exists i :: 0 <= i < |xs| && xs[i] == m) && forall k :: 0 <= k < |xs| ==> xs[k] <= m
  }

  /** When no team strength is exactly zero the sentinel never fires again after
      the first team, and the fold yields the true minimum and maximum. */
  lemma {:induction false} MinMaxFoldIsMinMax(xs: seq<real>)
    requires |xs| > 0 && NoneZero(xs)
    ensures IsMin(xs, MinMaxFold(xs).lo) && IsMax(xs, MinMaxFold(xs).hi)
  {
    var n := |xs|;
    var x := xs[n - 1];
    var init := xs[..n - 1];
    if n == 1 {
      assert init == [];
      assert xs[0] == MinMaxFold(xs).lo;
      assert xs[0] == MinMaxFold(xs).hi;
    } else {
      MinMaxFoldIsMinMax(init);
      var b := MinMaxFold(init);
      var i :| 0 <= i < |init| && init[i] == b.lo;
      var j :| 0 <= j < |init| && init[j] == b.hi;
      assert b.lo != 0.0 && b.hi != 0.0;
      if x < b.lo {
        assert xs[n - 1] == MinMaxFold(xs).lo;
      } else {
        assert xs[i] == MinMaxFold(xs).lo;
      }
      if x > b.hi {
        assert xs[n - 1] == MinMaxFold(xs).hi;
      } else {
        assert xs[j] == MinMaxFold(xs).hi;
      }
      forall k | 0 <= k < n ensures MinMaxFold(xs).lo <= xs[k] <= MinMaxFold(xs).hi {
        if k < n - 1 {
          assert xs[k] == init[k];
        }
      }
    }
  }

  /** The spread is the strongest team's strength minus the weakest team's,
      whenever no team strength is exactly zero; it is never negative then. */
  lemma DeltaIsSpread(xs: seq<real>)
    requires |xs| > 0 && NoneZero(xs)
    ensures exists i, j :: (0 <= i < |xs| && 0 <= j < |xs| && DeltaStrength(xs) == xs[j] - xs[i] &&
      IsMin(xs, xs[i]) && IsMax(xs, xs[j]))
    ensures DeltaStrength(xs) >= 0.0
  {
    MinMaxFoldIsMinMax(xs);
    var i :| 0 <= i < |xs| && xs[i] == MinMaxFold(xs).lo;
    var j :| 0 <= j < |xs| && xs[j] == MinMaxFold(xs).hi;
    assert DeltaStrength(xs) == xs[j] - xs[i];
  }

  /** A single team has no spread, whatever its strength. */
  lemma DeltaOfOneTeam(x: real)
    ensures DeltaStrength([x]) == 0.0
  {
    assert [x][..0] == [];
    assert MinMaxFold([x]) == Bounds(x, x);
  }

  /** A team of strength exactly 0.0 re-arms the sentinel: with strengths
      5.0, 0.0 and 3.0 the 0.0 is taken as the minimum and then replaced by
      3.0, so the delta is 2.0 although the strengths span 5.0. */
  lemma ZeroStrengthResetsSentinel()
    ensures IsMin([5.0, 0.0, 3.0], 0.0) && IsMax([5.0, 0.0, 3.0], 5.0)
    ensures MinMaxFold([5.0, 0.0, 3.0]) == Bounds(3.0, 5.0)
    ensures DeltaStrength([5.0, 0.0, 3.0]) == 2.0
  {
    var xs := [5.0, 0.0, 3.0];
    assert xs[..2] == [5.0, 0.0] && xs[..2][..1] == [5.0] && xs[..2][..1][..0] == [];
    assert MinMaxFold([5.0]) == Bounds(5.0, 5.0);
    assert MinMaxFold([5.0, 0.0]) == Bounds(0.0, 5.0);
    assert xs[1] == 0.0;
  }

  /** The fixed inputs of the acceptance test: roster, restrictions, profile,
      target strength (NeededTeamAverage) and tolerance (MaxTeamDev). */
  datatype Criteria = Criteria(players: seq<CWPlayer>, restrictions: seq<PlayerRestriction>, weights: WeightsData,
                               target: real, maxDev: real)

  datatype FailureKind = ValueOutOfRange | RestrictionFailed

  function Abs(x: real): real {
    if x < 0.0 then -x else x
  }

  /** The team's strength lies within MaxTeamDev of the target. */
  predicate InBand(c: Criteria, ids: seq<nat>)
    requires IdsInRange(ids, |c.players|)
  {
    !(Abs(c.target - Strength(c.players, c.weights, ids)) > c.maxDev)
  }

  /** The team passes every restriction. */
  predicate PassesAll(c: Criteria, ids: seq<nat>)
    requires IdsInRange(ids, |c.players|)
  {
    forall j :: 0 <= j < |c.restrictions| ==> TeamPasses(c.players, c.restrictions[j], ids)
  }

  /** The first violation met when the teams are checked in order, the value
      test before the restrictions of the same team; None when all pass. */
  function FirstFailure(c: Criteria, l: seq<seq<nat>>): Option<FailureKind>
    requires AllInRange(l, |c.players|)
  {
    if |l| == 0 then None
    else if !InBand(c, l[0]) then Some(ValueOutOfRange)
    else if !PassesAll(c, l[0]) then Some(RestrictionFailed)
    else FirstFailure(c, l[1..])
  }

  /** An assignment is accepted exactly when every team is within the band and
      passes every restriction. */
  lemma {:induction false} FirstFailureNoneIff(c: Criteria, l: seq<seq<nat>>)
    requires AllInRange(l, |c.players|)
    ensures FirstFailure(c, l).None? <==> forall k :: 0 <= k < |l| ==> InBand(c, l[k]) && PassesAll(c, l[k])
  {
    if |l| > 0 {
      FirstFailureNoneIff(c, l[1..]);
      assert forall k :: 1 <= k < |l| ==> l[k] == l[1..][k - 1];
    }
  }

  /** A value failure is reported only for a team that is out of band and
      preceded by fully valid teams; likewise for a restriction failure. */
  lemma {:induction false} FirstFailureLocates(c: Criteria, l: seq<seq<nat>>) returns (k: nat)
    requires AllInRange(l, |c.players|) && FirstFailure(c, l).Some?
    ensures k < |l| && forall m :: 0 <= m < k ==> InBand(c, l[m]) && PassesAll(c, l[m])
    ensures FirstFailure(c, l) == Some(ValueOutOfRange) <==> !InBand(c, l[k])
    ensures FirstFailure(c, l) == Some(RestrictionFailed) <==> InBand(c, l[k]) && !PassesAll(c, l[k])
  {
    if InBand(c, l[0]) && PassesAll(c, l[0]) {
      var j := FirstFailureLocates(c, l[1..]);
      k := j + 1;
      assert l[1..][j] == l[k];
      forall m | 0 <= m < k
        ensures InBand(c, l[m]) && PassesAll(c, l[m])
      {
        if m > 0 {
          assert l[1..][m - 1] == l[m];
        }
      }
    } else {
      k := 0;
    }
  }

  /** Checking resumes at team `k`: the outcome from `k` on is decided by team
      `k` itself, or else by the teams after it. */
  lemma FirstFailureFrom(c: Criteria, l: seq<seq<nat>>, k: nat)
    requires AllInRange(l, |c.players|) && k < |l|
    ensures AllInRange(l[k..], |c.players|) && AllInRange(l[k + 1..], |c.players|)
    ensures FirstFailure(c, l[k..]) ==
      if !InBand(c, l[k]) then Some(ValueOutOfRange)
      else if !PassesAll(c, l[k]) then Some(RestrictionFailed)
      else FirstFailure(c, l[k + 1..])
  {
    assert l[k..][0] == l[k];
    assert l[k..][1..] == l[k + 1..];
  }
}
