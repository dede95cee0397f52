/** The scoring-profile table (`Weights`): a map from a team-size signature such
    as "3v3v2" to the weights applied to the three scores, with the two-level
    lookup `Select` and the row loader `Load`. The workbook is given as the
    sequence of its rows, `None` standing for a missing row. */
module WeightsTable {
  import opened Wrappers
  import opened Player
  import opened Assignment

  predicate IsDigit(c: char) {
    '0' <= c <= '9'
  }

  predicate AllDigits(s: string) {
    forall i :: 0 <= i < |s| ==> IsDigit(s[i])
  }

  /** Decimal form of `n`, as streaming an `int` writes it. */
  function NatToString(n: nat): (s: string)
    ensures |s| >= 1 && AllDigits(s)
  {
    if n < 10 then [(48 + n) as char] else NatToString(n / 10) + [(48 + n % 10) as char]
  }

  /** Value of a string of decimal digits. */
  function ParseNat(s: string): nat
    requires AllDigits(s)
  {
    if |s| == 0 then 0 else 10 * ParseNat(s[..|s| - 1]) + (s[|s| - 1] as int - 48)
  }

  lemma {:induction false} ParseNatToString(n: nat)
    ensures ParseNat(NatToString(n)) == n
  {
    var s := NatToString(n);
    if n >= 10 {
      ParseNatToString(n / 10);
      assert s[..|s| - 1] == NatToString(n / 10);
    }
  }

  /** The query `Select` builds: the sizes in decimal, in partition order,
      joined by "v" with no separator after the last one. */
  function Signature(sizes: seq<nat>): (s: string)
    ensures |sizes| > 0 ==> |s| > 0
  {
    if |sizes| == 0 then ""
    else if |sizes| == 1 then NatToString(sizes[0])
    else Signature(sizes[..|sizes| - 1]) + "v" + NatToString(sizes[|sizes| - 1])
  }

  /** Position of the last `c` in `s`. */
  function LastIndexOf(s: string, c: char): (r: Option<nat>)
    ensures r.None? ==> c !in s
    ensures r.Some? ==> r.value < |s| && s[r.value] == c
  {
    if |s| == 0 then None
    else if s[|s| - 1] == c then Some(|s| - 1)
    else LastIndexOf(s[..|s| - 1], c)
  }

  lemma {:induction false} LastIndexOfJoin(pre: string, c: char, post: string)
    requires c !in post
    ensures LastIndexOf(pre + [c] + post, c) == Some(|pre|)
  {
    var s := pre + [c] + post;
    if |post| > 0 {
      assert s[..|s| - 1] == pre + [c] + post[..|post| - 1];
      assert post[|post| - 1] in post;
      LastIndexOfJoin(pre, c, post[..|post| - 1]);
    } else {
      assert s[|s| - 1] == c;
    }
  }

  /** Reads a signature back into its team sizes; None when `s` is not one. */
  function ParseSignature(s: string): Option<seq<nat>>
    decreases |s|
  {
    match LastIndexOf(s, 'v')
    case None => if |s| > 0 && AllDigits(s) then Some([ParseNat(s)]) else None
    case Some(i) =>
      var tail := s[i + 1..];
      if |tail| > 0 && AllDigits(tail) then
        match ParseSignature(s[..i])
        case Some(xs) => Some(xs + [ParseNat(tail)])
        case None => None
      else None
  }

  lemma NoSeparatorInDigits(s: string)
    requires AllDigits(s)
    ensures 'v' !in s
  {
  }

  /** Parsing a signature with one more size appended: the part before the
      last separator is parsed on its own. */
  lemma ParseAppended(pre: string, last: string)
    requires |last| > 0 && AllDigits(last)
    ensures ParseSignature(pre + ['v'] + last) ==
      (match ParseSignature(pre)
       case Some(xs) => Some(xs + [ParseNat(last)])
       case None => None)
  {
    var s := pre + ['v'] + last;
    NoSeparatorInDigits(last);
    LastIndexOfJoin(pre, 'v', last);
    assert s[..|pre|] == pre;
    assert s[|pre| + 1..] == last;
  }

  /** The signature of any non-empty partition reads back as that partition. */
  lemma {:induction false} SignatureRoundTrip(sizes: seq<nat>)
    requires |sizes| > 0
    ensures ParseSignature(Signature(sizes)) == Some(sizes)
  {
    var last := NatToString(sizes[|sizes| - 1]);
    ParseNatToString(sizes[|sizes| - 1]);
    if |sizes| == 1 {
      NoSeparatorInDigits(last);
      assert sizes == [sizes[0]];
    } else {
      var init := sizes[..|sizes| - 1];
      assert init + [sizes[|sizes| - 1]] == sizes;
      ParseAppended(Signature(init), last);
      SignatureRoundTrip(init);
    }
  }

  /** Different partitions are looked up under different keys: the order of the
      sizes matters, so [3,2,3] and [3,3,2] are distinct situations. */
  lemma SignatureInjective(a: seq<nat>, b: seq<nat>)
    requires Signature(a) == Signature(b)
    ensures a == b
  {
    if |a| > 0 && |b| > 0 {
      SignatureRoundTrip(a);
      SignatureRoundTrip(b);
    }
  }

  lemma MulMonotone(a: nat, x: int, y: int)
    requires x <= y
    ensures a * x <= a * y
  {
    assert a * y - a * x == a * (y - x);
  }

  /** Euclidean division of naturals: quotient and remainder bounds. */
  lemma DivBounds(num: nat, den: nat)
    requires den > 0
    ensures 0 <= num / den
    ensures den * (num / den) <= num < den * (num / den) + den
  {
    var q := num / den;
    assert num == den * q + num % den;
    if q < 0 {
      MulMonotone(den, q, -1);
    }
  }

  /** A quotient is pinned down by its defining inequalities. */
  lemma DivIsUnique(num: nat, den: nat, k: nat)
    requires den > 0 && den * k <= num < den * k + den
    ensures num / den == k
  {
    DivBounds(num, den);
    var q := num / den;
    if q < k {
      MulMonotone(den, q + 1, k);
    } else if q > k {
      MulMonotone(den, k + 1, q);
    }
  }

  /** `floor(total / n + 0.49999)` in exact arithmetic: the one k with
      100000 * n * k <= 100000 * total + 49999 * n < 100000 * n * (k + 1). */
  function RoundedMeanOf(total: nat, n: nat): (k: nat)
    requires n > 0
    ensures 100000 * n * k <= 100000 * total + 49999 * n < 100000 * n * k + 100000 * n
  {
    DivBounds(100000 * total + 49999 * n, 100000 * n);
    (100000 * total + 49999 * n) / (100000 * n)
  }

  /** A mean that is a whole number is its own fallback number. */
  lemma RoundedMeanOfWholeMean(n: nat, k: nat)
    requires n > 0
    ensures RoundedMeanOf(k * n, n) == k
  {
    assert 100000 * (k * n) + 49999 * n == 100000 * n * k + 49999 * n;
    DivIsUnique(100000 * (k * n) + 49999 * n, 100000 * n, k);
  }

  /** A mean of exactly k + 0.5 rounds down to k. */
  lemma RoundedMeanHalfRoundsDown(total: nat, n: nat, k: nat)
    requires n > 0 && 2 * total == (2 * k + 1) * n
    ensures RoundedMeanOf(total, n) == k
  {
    assert 100000 * total + 49999 * n == 100000 * n * k + 99999 * n;
    DivIsUnique(100000 * total + 49999 * n, 100000 * n, k);
  }

  /** The fallback number of a partition, from its total and its team count. */
  function RoundedMean(sizes: seq<nat>): nat
    requires |sizes| > 0
  {
    RoundedMeanOf(Sum(sizes), |sizes|)
  }

  /** The second query: the fallback number followed by "v". */
  function FallbackKey(sizes: seq<nat>): string
    requires |sizes| > 0
  {
    NatToString(RoundedMean(sizes)) + "v"
  }

  /** A fallback key never collides with an exact signature, because it ends
      in the separator and a signature ends in a digit. */
  lemma FallbackIsNotSignature(sizes: seq<nat>, other: seq<nat>)
    requires |sizes| > 0
    ensures FallbackKey(sizes) != Signature(other)
  {
    if |other| > 0 {
      SignatureEndsInDigit(other);
    }
  }

  lemma {:induction false} SignatureEndsInDigit(sizes: seq<nat>)
    requires |sizes| > 0
    ensures IsDigit(Signature(sizes)[|Signature(sizes)| - 1])
  {
    var last := NatToString(sizes[|sizes| - 1]);
    assert Signature(sizes)[|Signature(sizes)| - 1] == last[|last| - 1];
  }

  datatype SelectError =
    | AverageFailed
    | SituationNotFound(query: string, oldQuery: string)

  /** One row of the profile sheet. */
  datatype Row = Row(situation: string, pvp: real, gamesense: real, teamwork: real)

  datatype LoadError = WeightsDontSumToOne(situation: string, sum: real)

  function RowWeights(row: Row): WeightsData {
    WeightsData(row.pvp, row.gamesense, row.teamwork)
  }

  /** The sum the loader checks against 1.0. */
  function RowSum(row: Row): real {
    row.pvp + row.gamesense + row.teamwork
  }

  predicate SumsToOne(row: Row) {
    RowSum(row) == 1.0
  }

  /** Rows the loader reads: from row `i` on (row 0 is the header) up to, not
      including, the first missing row. */
  function RowsFrom(sheet: seq<Option<Row>>, i: nat): seq<Row>
    decreases |sheet| - i
  {
    if i >= |sheet| || sheet[i].None? then [] else [sheet[i].value] + RowsFrom(sheet, i + 1)
  }

  function RowsRead(sheet: seq<Option<Row>>): seq<Row> {
    RowsFrom(sheet, 1)
  }

  /** Row `j` of the rows read from `i` on is sheet row `i + j`, present. */
  lemma {:induction false} RowsFromAt(sheet: seq<Option<Row>>, i: nat, j: nat)
    requires j < |RowsFrom(sheet, i)|
    ensures i + j < |sheet| && sheet[i + j] == Some(RowsFrom(sheet, i)[j])
    decreases j
  {
    if j > 0 {
      RowsFromAt(sheet, i + 1, j - 1);
    }
  }

  /** The row just after the rows read is missing or beyond the sheet. */
  lemma {:induction false} RowsFromEnd(sheet: seq<Option<Row>>, i: nat)
    ensures !(i + |RowsFrom(sheet, i)| < |sheet| && sheet[i + |RowsFrom(sheet, i)|].Some?)
    decreases |sheet| - i
  {
    if i < |sheet| && sheet[i].Some? {
      RowsFromEnd(sheet, i + 1);
    }
  }

  /** The map after `put`ting `rows` in order into `m`. */
  function PutAll(m: map<string, WeightsData>, rows: seq<Row>): map<string, WeightsData> {
    if |rows| == 0 then m
    else PutAll(m, rows[..|rows| - 1])[rows[|rows| - 1].situation := RowWeights(rows[|rows| - 1])]
  }

  /** The loaded table has exactly the situations of the rows read. */
  lemma {:induction false} PutAllKeys(rows: seq<Row>, key: string)
    ensures key in PutAll(map[], rows) <==> exists i :: 0 <= i < |rows| && rows[i].situation == key
  {
    if |rows| > 0 {
      var init := rows[..|rows| - 1];
      PutAllKeys(init, key);
      assert forall i :: 0 <= i < |init| ==> init[i] == rows[i];
    }
  }

  /** A repeated situation keeps the weights of its last row. */
  lemma {:induction false} LastRowWins(m: map<string, WeightsData>, rows: seq<Row>, i: nat)
    requires i < |rows|
    requires forall j :: i < j < |rows| ==> rows[j].situation != rows[i].situation
    ensures rows[i].situation in PutAll(m, rows)
    ensures PutAll(m, rows)[rows[i].situation] == RowWeights(rows[i])
  {
    if i < |rows| - 1 {
      LastRowWins(m, rows[..|rows| - 1], i);
    }
  }

  /** Index of the first row whose weights do not sum to one. */
  function FirstBadRow(rows: seq<Row>): (r: Option<nat>)
    ensures r.None? <==> forall k :: 0 <= k < |rows| ==> SumsToOne(rows[k])
    ensures r.Some? ==> (r.value < |rows| && !SumsToOne(rows[r.value]) &&
      forall k :: 0 <= k < r.value ==> SumsToOne(rows[k]))
  {
    if |rows| == 0 then None
    else if !SumsToOne(rows[0]) then Some(0)
    else match FirstBadRow(rows[1..])
      case None => None
      case Some(j) => Some(j + 1)
  }

  /** The team-size key as the stream actually writes it: each `uint8_t` size
      is inserted as the character with that code, not as decimal digits. */
  function RawSignature(sizes: seq<nat>): (r: string)
    requires forall k :: 0 <= k < |sizes| ==> sizes[k] < 256
    ensures |r| == if |sizes| == 0 then 0 else 2 * |sizes| - 1
    ensures forall k :: 0 <= k < |sizes| ==> r[2 * k] == sizes[k] as char
    ensures forall k :: 0 <= k < |sizes| - 1 ==> r[2 * k + 1] == 'v'
  {
    if |sizes| == 0 then ""
    else if |sizes| == 1 then [sizes[0] as char]
    else RawSignature(sizes[..|sizes| - 1]) + "v" + [sizes[|sizes| - 1] as char]
  }

  lemma {:induction false} RawSignatureStart(sizes: seq<nat>)
    requires |sizes| > 0 && forall k :: 0 <= k < |sizes| ==> sizes[k] < 256
    ensures |RawSignature(sizes)| > 0 && RawSignature(sizes)[0] == sizes[0] as char
  {
    if |sizes| > 1 {
      RawSignatureStart(sizes[..|sizes| - 1]);
    }
  }

  lemma {:induction false} SignatureStart(sizes: seq<nat>)
    requires |sizes| > 0
    ensures Signature(sizes)[0] == NatToString(sizes[0])[0]
  {
    if |sizes| > 1 {
      SignatureStart(sizes[..|sizes| - 1]);
    }
  }

  /** For any realistic first team size (below 48, the code of '0') the key
      the stream writes differs from the decimal signature: an exact entry such
      as "3v3v2" can never be hit, and every lookup falls back. */
  lemma RawSignatureMissesTable(sizes: seq<nat>)
    requires |sizes| > 0 && sizes[0] < 48 && forall k :: 0 <= k < |sizes| ==> sizes[k] < 256
    ensures RawSignature(sizes) != Signature(sizes)
  {
    RawSignatureStart(sizes);
    SignatureStart(sizes);
    assert IsDigit(NatToString(sizes[0])[0]);
  }

  /** The profile table. */
  class Weights {
    var weightsMap: map<string, WeightsData>

    constructor()
      ensures weightsMap == map[]
    {
      weightsMap := map[];
    }

    /** The profile for a partition: the exact signature first, then the
        rounded-mean fallback; fatal only when both miss or the sizes are empty. */
    method Select(teamSizes: seq<nat>) returns (r: Result<WeightsData, SelectError>)
      ensures Signature(teamSizes) in weightsMap ==> r == Success(weightsMap[Signature(teamSizes)])
      ensures Signature(teamSizes) !in weightsMap && |teamSizes| == 0 ==> r == Failure(AverageFailed)
      ensures Signature(teamSizes) !in weightsMap && |teamSizes| > 0 ==>
        if FallbackKey(teamSizes) in weightsMap then r == Success(weightsMap[FallbackKey(teamSizes)])
        else r == Failure(SituationNotFound(FallbackKey(teamSizes), Signature(teamSizes)))
    {
      var n := |teamSizes|;
      var query := "";
      var i := 0;
      while i < n
        invariant 0 <= i <= n
        invariant i == 0 ==> query == ""
        invariant 0 < i < n ==> query == Signature(teamSizes[..i]) + "v"
        invariant 0 < i == n ==> query == Signature(teamSizes[..i])
      {
        assert teamSizes[..i + 1][..i] == teamSizes[..i];
        query := query + NatToString(teamSizes[i]);
        if i < n - 1 {
          query := query + "v";
        }
        i := i + 1;
      }
      assert teamSizes[..n] == teamSizes;
      if query in weightsMap {
        return Success(weightsMap[query]);
      }
      if n == 0 {
        return Failure(AverageFailed);
      }
      var oldQuery := query;
      query := FallbackKey(teamSizes);
      if query in weightsMap {
        return Success(weightsMap[query]);
      }
      return Failure(SituationNotFound(query, oldQuery));
    }

    /** Clears the table, then reads rows from row 1 until the first missing
        one, `put`ting each; fatal at the first row whose weights do not sum
        to 1.0, the table then holding the rows before it. */
    method Load(sheet: seq<Option<Row>>) returns (r: Result<(), LoadError>)
      modifies this
      ensures var rows := RowsRead(sheet);
        match FirstBadRow(rows)
        case None => r == Success(()) && weightsMap == PutAll(map[], rows)
        case Some(k) =>
          r == Failure(WeightsDontSumToOne(rows[k].situation, RowSum(rows[k]))) &&
          weightsMap == PutAll(map[], rows[..k])
    {
      weightsMap := map[];
      ghost var rows := RowsRead(sheet);
      RowsFromEnd(sheet, 1);
      var rowInt := 1;
      while rowInt < |sheet| && sheet[rowInt].Some?
        invariant 1 <= rowInt <= |rows| + 1
        invariant forall k :: 0 <= k < rowInt - 1 ==> SumsToOne(rows[k])
        invariant weightsMap == PutAll(map[], rows[..rowInt - 1])
        decreases |sheet| - rowInt
      {
        var row := sheet[rowInt].value;
        assert rowInt - 1 < |rows|;
        RowsFromAt(sheet, 1, rowInt - 1);
        assert row == rows[rowInt - 1];
        var sum := RowSum(row);
        if sum != 1.0 {
          FirstBadRowAt(rows, rowInt - 1);
          r := Failure(WeightsDontSumToOne(row.situation, sum));
          return;
        }
        weightsMap := weightsMap[row.situation := RowWeights(row)];
        assert rows[..rowInt][..rowInt - 1] == rows[..rowInt - 1];
        rowInt := rowInt + 1;
      }
      if rowInt <= |rows| {
        RowsFromAt(sheet, 1, rowInt - 1);
      }
      assert rowInt == |rows| + 1;
      assert rows[..rowInt - 1] == rows;
      r := Success(());
    }
  }

  lemma FirstBadRowAt(rows: seq<Row>, k: nat)
    requires k < |rows| && !SumsToOne(rows[k]) && forall j :: 0 <= j < k ==> SumsToOne(rows[j])
    ensures FirstBadRow(rows) == Some(k)
  {
  }
}
