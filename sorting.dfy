/** Ascending sort of unsigned values, the effect of the `std::sort` calls that
    canonicalise member ids and team hashes before they are folded. */
module Sorting {

  predicate Sorted(s: seq<nat>) {
    forall i, j :: 0 <= i < j < |s| ==> s[i] <= s[j]
  }

  function Insert(x: nat, s: seq<nat>): (r: seq<nat>)
    requires Sorted(s)
    ensures Sorted(r) && multiset(r) == multiset(s) + multiset{x} && |r| == |s| + 1
  {
    if s == [] then [x]
    else if x <= s[0] then [x] + s
    else
      var rest := Insert(x, s[1..]);
      assert s == [s[0]] + s[1..];
      InsertLowerBound(s[0], x, s[1..], rest);
      ConsSorted(s[0], rest);
      [s[0]] + rest
  }

  lemma ConsSorted(lo: nat, rest: seq<nat>)
    requires Sorted(rest) && forall i :: 0 <= i < |rest| ==> lo <= rest[i]
    ensures Sorted([lo] + rest)
  {
  }

  lemma InsertLowerBound(lo: nat, x: nat, tail: seq<nat>, rest: seq<nat>)
    requires lo <= x && forall i :: 0 <= i < |tail| ==> lo <= tail[i]
    requires multiset(rest) == multiset(tail) + multiset{x}
    ensures forall i :: 0 <= i < |rest| ==> lo <= rest[i]
  {
    forall i | 0 <= i < |rest|
      ensures lo <= rest[i]
    {
      assert rest[i] in multiset(rest);
      if rest[i] != x {
        assert rest[i] in multiset(tail);
      }
    }
  }

  /** Non-increasing by `key`: the order `std::sort` gives with a `>` comparator. */
  predicate SortedDesc<T>(key: T -> real, s: seq<T>) {
    forall i, j :: 0 <= i < j < |s| ==> key(s[i]) >= key(s[j])
  }

  /** Insertion by a key, largest first: `x` goes before the first entry
      whose key it reaches. */
  function InsertDesc<T>(key: T -> real, x: T, s: seq<T>): (r: seq<T>)
    requires SortedDesc(key, s)
    ensures SortedDesc(key, r) && multiset(r) == multiset(s) + multiset{x} && |r| == |s| + 1
  {
    if s == [] then [x]
    else if key(x) >= key(s[0]) then [x] + s
    else
      var rest := InsertDesc(key, x, s[1..]);
      assert s == [s[0]] + s[1..];
      InsertDescUpperBound(key, s[0], x, s[1..], rest);
      ConsSortedDesc(key, s[0], rest);
      [s[0]] + rest
  }

  lemma ConsSortedDesc<T>(key: T -> real, hi: T, rest: seq<T>)
    requires SortedDesc(key, rest) && forall i :: 0 <= i < |rest| ==> key(rest[i]) <= key(hi)
    ensures SortedDesc(key, [hi] + rest)
  {
  }

  lemma InsertDescUpperBound<T>(key: T -> real, hi: T, x: T, tail: seq<T>, rest: seq<T>)
    requires key(x) <= key(hi) && forall i :: 0 <= i < |tail| ==> key(tail[i]) <= key(hi)
    requires multiset(rest) == multiset(tail) + multiset{x}
    ensures forall i :: 0 <= i < |rest| ==> key(rest[i]) <= key(hi)
  {
    forall i | 0 <= i < |rest|
      ensures key(rest[i]) <= key(hi)
    {
      assert rest[i] in multiset(rest);
      if rest[i] != x {
        assert rest[i] in multiset(tail);
      }
    }
  }

  /** The sorted arrangement of `s`: ascending and a permutation of `s`. */
  function Sort(s: seq<nat>): (r: seq<nat>)
    ensures Sorted(r) && multiset(r) == multiset(s) && |r| == |s|
  {
    if s == [] then []
    else
      assert s == [s[0]] + s[1..];
      Insert(s[0], Sort(s[1..]))
  }

  /** Two ascending sequences with the same elements are equal. */
  lemma {:induction false} SortedUnique(a: seq<nat>, b: seq<nat>)
    requires Sorted(a) && Sorted(b) && multiset(a) == multiset(b)
    ensures a == b
  {
    assert |a| == |multiset(a)| == |multiset(b)| == |b|;
    if |a| > 0 {
      SortedHeadIsLeast(a, b[0]);
      SortedHeadIsLeast(b, a[0]);
      assert a[0] == b[0];
      MultisetTail(a);
      MultisetTail(b);
      SortedTail(a);
      SortedTail(b);
      SortedUnique(a[1..], b[1..]);
      SameHeadSameTail(a, b);
    }
  }

  lemma SortedTail(s: seq<nat>)
    requires Sorted(s) && |s| > 0
    ensures Sorted(s[1..])
  {
  }

  lemma SameHeadSameTail<T>(a: seq<T>, b: seq<T>)
    requires |a| > 0 && |b| > 0 && a[0] == b[0] && a[1..] == b[1..]
    ensures a == b
  {
    assert a == [a[0]] + a[1..] && b == [b[0]] + b[1..];
  }

  /** The head of an ascending sequence is its least element. */
  lemma SortedHeadIsLeast(s: seq<nat>, x: nat)
    requires Sorted(s) && x in multiset(s)
    ensures s[0] <= x
  {
    assert x in s;
    var i :| 0 <= i < |s| && s[i] == x;
  }

  /** Dropping the head removes one occurrence of it. */
  lemma MultisetTail<T>(s: seq<T>)
    requires |s| > 0
    ensures multiset(s[1..]) == multiset(s) - multiset{s[0]}
  {
    assert s == [s[0]] + s[1..];
  }

  /** Dropping the entry at `j` removes one occurrence of it. */
  lemma MultisetDropAt<T>(s: seq<T>, j: nat)
    requires j < |s|
    ensures multiset(s[..j] + s[j + 1..]) == multiset(s) - multiset{s[j]}
  {
    assert s == s[..j] + [s[j]] + s[j + 1..];
  }

  /** Sorting forgets the original order: it depends only on the elements. */
  lemma SortDependsOnlyOnElements(a: seq<nat>, b: seq<nat>)
    requires multiset(a) == multiset(b)
    ensures Sort(a) == Sort(b)
  {
    SortedUnique(Sort(a), Sort(b));
  }

  /** Matching the last element of `a` with an occurrence in its permutation `b`;
      what remains of both is again a permutation. */
  lemma PermutationRemoveLast<T>(a: seq<T>, b: seq<T>) returns (j: nat)
    requires |a| > 0 && multiset(a) == multiset(b)
    ensures j < |b| && b[j] == a[|a| - 1]
    ensures multiset(a[..|a| - 1]) == multiset(b[..j] + b[j + 1..])
  {
    var x := a[|a| - 1];
    assert x in multiset(b);
    assert x in b;
    j :| 0 <= j < |b| && b[j] == x;
    MultisetDropAt(a, |a| - 1);
    assert a[..|a| - 1] + a[|a|..] == a[..|a| - 1];
    MultisetDropAt(b, j);
  }
}
