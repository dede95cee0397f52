/** The 64-bit fingerprint GetTeamsHash gives an assignment, used by Gen to
    skip team sets it has already produced. Member ids are sorted before they
    are folded and the per-team values are sorted before the final fold, so the
    fingerprint forgets both the order inside a team and the order of teams. */
module TeamHashing {
  import opened Sorting
  import opened Assignment

  /** `std::uint64_t` arithmetic wraps modulo 2^64. */
  const U64: nat := 0x1_0000_0000_0000_0000

  /** Per-team fold: seeded with 1, then `hash = 61 * hash + id` in uint64. */
  function MemberFold(ids: seq<nat>): (h: nat)
    ensures h < U64
  {
    if |ids| == 0 then 1 else (61 * MemberFold(ids[..|ids| - 1]) + ids[|ids| - 1]) % U64
  }

  /** Final fold: seeded with 1, then `result = 31 * result + val` in uint64. */
  function TeamsFold(vals: seq<nat>): (r: nat)
    ensures r < U64
  {
    if |vals| == 0 then 1 else (31 * TeamsFold(vals[..|vals| - 1]) + vals[|vals| - 1]) % U64
  }

  /** One more id folded into a prefix. */
  lemma MemberFoldStep(ids: seq<nat>, i: nat)
    requires i < |ids|
    ensures MemberFold(ids[..i + 1]) == (61 * MemberFold(ids[..i]) + ids[i]) % U64
  {
    assert ids[..i + 1][..i] == ids[..i];
  }

  /** One more value folded into a prefix. */
  lemma TeamsFoldStep(vals: seq<nat>, i: nat)
    requires i < |vals|
    ensures TeamsFold(vals[..i + 1]) == (31 * TeamsFold(vals[..i]) + vals[i]) % U64
  {
    assert vals[..i + 1][..i] == vals[..i];
  }

  /** Hash of one team: the member fold over its ids in ascending order. */
  function TeamHash(ids: seq<nat>): nat {
    MemberFold(Sort(ids))
  }

  /** Reordering the members of a team does not change its hash. */
  lemma TeamHashIgnoresOrder(a: seq<nat>, b: seq<nat>)
    requires multiset(a) == multiset(b)
    ensures TeamHash(a) == TeamHash(b)
  {
    SortDependsOnlyOnElements(a, b);
  }

  /** The hash of every visited team, in team order (the `teamHashes` vector). */
  function TeamHashes(l: seq<seq<nat>>): (r: seq<nat>)
    ensures |r| == |l| && forall k :: 0 <= k < |l| ==> r[k] == TeamHash(l[k])
  {
    if |l| == 0 then [] else TeamHashes(l[..|l| - 1]) + [TeamHash(l[|l| - 1])]
  }

  function Zeros(n: nat): (r: seq<nat>)
    ensures |r| == n && forall k :: 0 <= k < n ==> r[k] == 0
  {
    if n == 0 then [] else Zeros(n - 1) + [0]
  }

  /** The `teamHashes` vector of `GetTeamsHash` once the first `k` teams of
      `l` are hashed: slot `i < k` holds the hash of team `i`, every later
      slot is still 0. */
  predicate HashedUpTo(slots: seq<nat>, l: seq<seq<nat>>, k: nat) {
    k <= |l| <= |slots| &&
    (forall i :: 0 <= i < k ==> slots[i] == TeamHash(l[i])) &&
    (forall i :: k <= i < |slots| ==> slots[i] == 0)
  }

  /** With every team hashed the vector is the one `HashOfTeams` sorts. */
  lemma HashSlotsDone(slots: seq<nat>, l: seq<seq<nat>>)
    requires HashedUpTo(slots, l, |l|)
    ensures slots == TeamHashes(l) + Zeros(|slots| - |l|)
  {
    var full := TeamHashes(l) + Zeros(|slots| - |l|);
    forall i | 0 <= i < |slots| ensures slots[i] == full[i] {
      if i < |l| {
        assert full[i] == TeamHashes(l)[i];
      } else {
        assert full[i] == Zeros(|slots| - |l|)[i - |l|];
      }
    }
  }

  /** The fingerprint of `l` as the teams of an n-team match: entries of
      `teamHashes` for teams the iteration never reaches stay 0. */
  function HashOfTeams(l: seq<seq<nat>>, n: nat): nat
    requires |l| <= n
  {
    TeamsFold(Sort(TeamHashes(l) + Zeros(n - |l|)))
  }

  /** GetTeamsHash of an assignment: the fingerprint of its visited teams. */
  function AssignmentHash(teams: seq<nat>, sizes: seq<nat>): nat
    requires Sum(sizes) <= |teams|
  {
    HashOfTeams(VisitedTeams(teams, sizes), |sizes|)
  }

  /** Each team as the set of players it holds (with multiplicity). */
  function TeamSets(l: seq<seq<nat>>): (r: seq<multiset<nat>>)
    ensures |r| == |l|
  {
    if |l| == 0 then [] else TeamSets(l[..|l| - 1]) + [multiset(l[|l| - 1])]
  }

  /** Some arrangement of the elements of `m`. */
  ghost function SeqOf(m: multiset<nat>): (s: seq<nat>)
    ensures multiset(s) == m
    decreases |m|
  {
    if m == multiset{} then []
    else
      var x :| x in m;
      SeqOf(m - multiset{x}) + [x]
  }

  /** The team hash seen as a function of the team's member set. */
  ghost function HashOfSet(m: multiset<nat>): nat {
    TeamHash(SeqOf(m))
  }

  /** `f` applied to each element, in order. */
  function MapSeq<T>(f: T -> nat, xs: seq<T>): (r: seq<nat>)
    ensures |r| == |xs|
  {
    if |xs| == 0 then [] else MapSeq(f, xs[..|xs| - 1]) + [f(xs[|xs| - 1])]
  }

  /** Mapping distributes over concatenation. */
  lemma {:induction false} MapSeqConcat<T>(f: T -> nat, xs: seq<T>, ys: seq<T>)
    ensures MapSeq(f, xs + ys) == MapSeq(f, xs) + MapSeq(f, ys)
    decreases |ys|
  {
    if |ys| > 0 {
      var n := |ys| - 1;
      assert (xs + ys)[..|xs| + n] == xs + ys[..n];
      MapSeqConcat(f, xs, ys[..n]);
    } else {
      assert xs + ys == xs;
    }
  }

  /** A sequence is its prefix, one element and its suffix. */
  lemma Around<T>(ys: seq<T>, j: nat)
    requires j < |ys|
    ensures ys == ys[..j] + ([ys[j]] + ys[j + 1..])
  {
    assert ys[j..] == [ys[j]] + ys[j + 1..];
    assert ys == ys[..j] + ys[j..];
  }

  /** Removing one element from the input removes its image from the output. */
  lemma MapSeqRemove<T>(f: T -> nat, ys: seq<T>, j: nat)
    requires j < |ys|
    ensures multiset(MapSeq(f, ys)) == multiset(MapSeq(f, ys[..j] + ys[j + 1..])) + multiset{f(ys[j])}
  {
    var pre, post := ys[..j], ys[j + 1..];
    var x := f(ys[j]);
    Around(ys, j);
    MapSeqConcat(f, pre, [ys[j]] + post);
    MapSeqConcat(f, [ys[j]], post);
    MapSeqConcat(f, pre, post);
    assert MapSeq(f, [ys[j]]) == [x];
    var a, b := MapSeq(f, pre), MapSeq(f, post);
    assert MapSeq(f, ys) == a + ([x] + b);
    assert MapSeq(f, pre + post) == a + b;
    MultisetAround(a, x, b);
  }

  lemma MultisetAround(a: seq<nat>, x: nat, b: seq<nat>)
    ensures multiset(a + ([x] + b)) == multiset(a + b) + multiset{x}
  {
  }

  /** Mapping a permutation gives a permutation of the images. */
  lemma {:induction false} MapSeqPermutation<T>(f: T -> nat, xs: seq<T>, ys: seq<T>)
    requires multiset(xs) == multiset(ys)
    ensures multiset(MapSeq(f, xs)) == multiset(MapSeq(f, ys))
  {
    if |xs| == 0 {
      assert |ys| == |multiset(ys)| == 0;
    } else {
      var j := PermutationRemoveLast(xs, ys);
      MapSeqPermutation(f, xs[..|xs| - 1], ys[..j] + ys[j + 1..]);
      MapSeqRemove(f, ys, j);
      assert MapSeq(f, xs) == MapSeq(f, xs[..|xs| - 1]) + [f(xs[|xs| - 1])];
    }
  }

  lemma {:induction false} TeamHashesViaSets(l: seq<seq<nat>>)
    ensures TeamHashes(l) == MapSeq(HashOfSet, TeamSets(l))
  {
    if |l| > 0 {
      var t := l[|l| - 1];
      TeamHashesViaSets(l[..|l| - 1]);
      TeamHashIgnoresOrder(t, SeqOf(multiset(t)));
      assert TeamSets(l)[..|l| - 1] == TeamSets(l[..|l| - 1]);
    }
  }

  /** Two team sets made of the same teams, each team holding the same players,
      get the same fingerprint, whatever the order of the teams and of the
      players inside them. */
  lemma HashIgnoresTeamOrder(l1: seq<seq<nat>>, l2: seq<seq<nat>>, n: nat)
    requires |l1| <= n && |l2| <= n
    requires multiset(TeamSets(l1)) == multiset(TeamSets(l2))
    ensures HashOfTeams(l1, n) == HashOfTeams(l2, n)
  {
    assert |l1| == |TeamSets(l1)| == |multiset(TeamSets(l1))| == |multiset(TeamSets(l2))| == |l2|;
    TeamHashesViaSets(l1);
    TeamHashesViaSets(l2);
    MapSeqPermutation(HashOfSet, TeamSets(l1), TeamSets(l2));
    var z := Zeros(n - |l1|);
    assert multiset(TeamHashes(l1) + z) == multiset(TeamHashes(l2) + z);
    SortDependsOnlyOnElements(TeamHashes(l1) + z, TeamHashes(l2) + z);
  }

  /** Gen counts an assignment as new only when its fingerprint is new, so a new
      fingerprint always means a partition into teams not produced before. */
  lemma DistinctHashesDistinctPartitions(t1: seq<nat>, t2: seq<nat>, sizes: seq<nat>)
    requires Sum(sizes) <= |t1| && Sum(sizes) <= |t2|
    requires AssignmentHash(t1, sizes) != AssignmentHash(t2, sizes)
    ensures multiset(TeamSets(VisitedTeams(t1, sizes))) != multiset(TeamSets(VisitedTeams(t2, sizes)))
  {
    if multiset(TeamSets(VisitedTeams(t1, sizes))) == multiset(TeamSets(VisitedTeams(t2, sizes))) {
      HashIgnoresTeamOrder(VisitedTeams(t1, sizes), VisitedTeams(t2, sizes), |sizes|);
    }
  }
}
