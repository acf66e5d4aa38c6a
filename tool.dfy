/**
 * The ranked "top items + other" aggregation of src/tool.ts (`getFirstGroupInfo`)
 * and the filter-option constants beside it.
 *
 * Scores are exact reals. The source divides `countedValue / totalValue` in IEEE
 * double arithmetic; the model keeps that comparison, with the IEEE meaning of a
 * division by a zero total written out (see ThresholdReached).
 */
module Tool {

  /** Label of the trailing catch-all entry ("other"). */
  const OtherLabel: string := "其它"

  datatype FilterOption = FilterOption(caption: string, value: string)

  const CharacterFilterOptions: seq<FilterOption> := [
    FilterOption("钻机", "DRILLER"),
    FilterOption("枪手", "GUNNER"),
    FilterOption("工程", "ENGINEER"),
    FilterOption("侦察", "SCOUT")
  ]

  const KpiCharacterFilterOptions: seq<FilterOption> := [
    FilterOption("钻机", "driller"),
    FilterOption("枪手", "gunner"),
    FilterOption("工程", "engineer"),
    FilterOption("侦察", "scout"),
    FilterOption("侦察-输出型", "scout_special")
  ]

  /** The two parallel chart series. */
  datatype GroupInfo = GroupInfo(labelList: seq<string>, dataList: seq<real>)

  // ---------------------------------------------------------------------------
  // The caller's comparator

  /** `x` may come before `y`: the comparator does not ask to swap them. */
  predicate Le<T>(cmp: (T, T) -> int, x: T, y: T) {
    cmp(x, y) <= 0
  }

  /** A consistent comparator: a total preorder, which is what sorting relies on. */
  ghost predicate TotalPreorder<T(!new)>(cmp: (T, T) -> int) {
    && (forall x, y :: Le(cmp, x, y) || Le(cmp, y, x))
    && (forall x, y, z :: Le(cmp, x, y) && Le(cmp, y, z) ==> Le(cmp, x, z))
  }

  ghost predicate SortedBy<T>(s: seq<T>, cmp: (T, T) -> int) {
    forall i, j :: 0 <= i < j < |s| ==> Le(cmp, s[i], s[j])
  }

  // ---------------------------------------------------------------------------
  // Specification of the aggregation

  /** Sum of the scores of `s`, accumulated from the front as the source's loops do. */
  function Sum<T>(s: seq<T>, score: T -> real): real {
    if s == [] then 0.0 else Sum(s[..|s| - 1], score) + score(s[|s| - 1])
  }

  /** Sum of a list of plain values. */
  function Total(xs: seq<real>): real {
    Sum(xs, x => x)
  }

  /**
   * The early-exit test `countedValue / totalValue >= 1 - otherPercentLimit`.
   * For a zero total the double division gives NaN when nothing positive has been
   * counted (NaN compares false), +Infinity for a positive count (which compares
   * true) and -Infinity for a negative one (false).
   */
  predicate ThresholdReached(counted: real, total: real, limit: real): (reached: bool)
    ensures total > 0.0 ==> (reached <==> counted >= (1.0 - limit) * total)
    ensures total < 0.0 ==> (reached <==> counted <= (1.0 - limit) * total)
    ensures total == 0.0 ==> (reached <==> counted > 0.0)
  {
    if total != 0.0 then
      QuotientAsProduct(counted, total, 1.0 - limit);
      counted / total >= 1.0 - limit
    else counted > 0.0
  }

  /**
   * Where the emission loop, resumed at index `k`, stops: the first index from `k`
   * on at which the scores already emitted reach the threshold, or the end.
   */
  function StopIndex<T>(s: seq<T>, score: T -> real, total: real, limit: real, k: nat): (n: nat)
    requires k <= |s|
    ensures k <= n <= |s|
    ensures forall j :: k <= j < n ==> !ThresholdReached(Sum(s[..j], score), total, limit)
    ensures n < |s| ==> ThresholdReached(Sum(s[..n], score), total, limit)
    decreases |s| - k
  {
    if k == |s| || ThresholdReached(Sum(s[..k], score), total, limit) then k
    else StopIndex(s, score, total, limit, k + 1)
  }

  /** How many leading items of `s` are emitted individually. */
  function EmittedCount<T>(s: seq<T>, score: T -> real, limit: real): nat {
    StopIndex(s, score, Sum(s, score), limit, 0)
  }

  function Labels<T>(s: seq<T>, labelOf: T -> string): seq<string> {
    seq(|s|, i requires 0 <= i < |s| => labelOf(s[i]))
  }

  function Scores<T>(s: seq<T>, score: T -> real): seq<real> {
    seq(|s|, i requires 0 <= i < |s| => score(s[i]))
  }

  /**
   * The summary `getFirstGroupInfo` returns for an already sorted list: the items
   * before the stop index, then the catch-all entry holding the rest of the total.
   */
  function Summarize<T>(sorted: seq<T>, score: T -> real, labelOf: T -> string, limit: real): (g: GroupInfo)
    ensures |g.labelList| == |g.dataList|
    ensures 1 <= |g.labelList| <= |sorted| + 1
    ensures g.labelList[|g.labelList| - 1] == OtherLabel
  {
    var n := EmittedCount(sorted, score, limit);
    var emitted := sorted[..n];
    GroupInfo(Labels(emitted, labelOf) + [OtherLabel],
              Scores(emitted, score) + [Sum(sorted, score) - Sum(emitted, score)])
  }

  // ---------------------------------------------------------------------------
  // The operation

  /** `objectList.sort(compar)`: an in-place insertion sort. */
  method SortInPlace<T(!new)>(a: array<T>, cmp: (T, T) -> int)
    requires TotalPreorder(cmp)
    modifies a
    ensures SortedBy(a[..], cmp)
    ensures multiset(a[..]) == multiset(old(a[..]))
  {
    var i := 0;
    while i < a.Length
      invariant 0 <= i <= a.Length
      invariant SortedBy(a[..i], cmp)
      invariant multiset(a[..]) == multiset(old(a[..]))
    {
      InsertLast(a, i, cmp);
      i := i + 1;
    }
    assert a[..a.Length] == a[..];
  }

  /**
   * The state of an insertion step part-way: `s[j]` is the item being moved down,
   * the other items of `s[..i + 1]` are in order, and `s[j]` may come before
   * everything after it.
   */
  ghost predicate Inserting<T>(s: seq<T>, j: int, i: int, cmp: (T, T) -> int)
    requires 0 <= j <= i < |s|
  {
    && (forall p, q :: 0 <= p < q <= i && p != j && q != j ==> Le(cmp, s[p], s[q]))
    && (forall q :: j < q <= i ==> Le(cmp, s[j], s[q]))
  }

  /** One insertion step: moves `a[i]` down into the sorted prefix `a[..i]`. */
  method InsertLast<T(!new)>(a: array<T>, i: int, cmp: (T, T) -> int)
    requires TotalPreorder(cmp)
    requires 0 <= i < a.Length && SortedBy(a[..i], cmp)
    modifies a
    ensures SortedBy(a[..i + 1], cmp)
    ensures multiset(a[..]) == multiset(old(a[..]))
    ensures a[i + 1..] == old(a[i + 1..])
  {
    var j := i;
    while j > 0 && !Le(cmp, a[j - 1], a[j])
      invariant 0 <= j <= i
      invariant Inserting(a[..], j, i, cmp)
      invariant multiset(a[..]) == multiset(old(a[..]))
      invariant a[i + 1..] == old(a[i + 1..])
    {
      SwapDown(a, j, i, cmp);
      j := j - 1;
    }
  }

  /** Swaps the moving item with its left neighbour, which must come after it. */
  method SwapDown<T(!new)>(a: array<T>, j: int, i: int, cmp: (T, T) -> int)
    requires TotalPreorder(cmp)
    requires 0 < j <= i < a.Length && Inserting(a[..], j, i, cmp) && !Le(cmp, a[j - 1], a[j])
    modifies a
    ensures Inserting(a[..], j - 1, i, cmp)
    ensures multiset(a[..]) == multiset(old(a[..]))
    ensures a[i + 1..] == old(a[i + 1..])
  {
    a[j - 1], a[j] := a[j], a[j - 1];
  }

  /** The first loop of `getFirstGroupInfo`: `totalValue` accumulates every score. */
  method SumScores<T>(objectList: array<T>, objKey: T -> real) returns (totalValue: real)
    ensures totalValue == Sum(objectList[..], objKey)
  {
    ghost var s := objectList[..];
    totalValue := 0.0;
    for i := 0 to objectList.Length
      invariant totalValue == Sum(s[..i], objKey)
    {
      assert s[..i + 1][..i] == s[..i];
      totalValue := totalValue + objKey(objectList[i]);
    }
    assert s[..objectList.Length] == s;
  }

  /**
   * The second loop of `getFirstGroupInfo`: pushes label and score of each item in
   * order and leaves (`break`) as soon as the scores pushed so far reach the
   * threshold; `countedValue` is their sum.
   */
  method EmitLeading<T>(objectList: array<T>, objKey: T -> real, objLabel: T -> string,
                        totalValue: real, otherPercentLimit: real)
    returns (labelList: seq<string>, dataList: seq<real>, countedValue: real)
    ensures var n := StopIndex(objectList[..], objKey, totalValue, otherPercentLimit, 0);
            && labelList == Labels(objectList[..n], objLabel)
            && dataList == Scores(objectList[..n], objKey)
            && countedValue == Sum(objectList[..n], objKey)
  {
    ghost var s := objectList[..];
    ghost var n := StopIndex(s, objKey, totalValue, otherPercentLimit, 0);
    labelList, dataList, countedValue := [], [], 0.0;
    var i := 0;
    while i < objectList.Length
      invariant 0 <= i <= n <= |s|
      invariant countedValue == Sum(s[..i], objKey)
      invariant labelList == Labels(s[..i], objLabel)
      invariant dataList == Scores(s[..i], objKey)
    {
      if ThresholdReached(countedValue, totalValue, otherPercentLimit) {
        break;
      }
      assert s[..i + 1][..i] == s[..i];
      labelList := labelList + [objLabel(objectList[i])];
      dataList := dataList + [objKey(objectList[i])];
      countedValue := countedValue + objKey(objectList[i]);
      i := i + 1;
    }
    assert i == n;
  }

  /**
   * `getFirstGroupInfo`: sorts `objectList` in place, sums the scores, emits items
   * in order until the emitted share reaches `1 - otherPercentLimit`, and appends
   * the catch-all entry holding `totalValue - countedValue`.
   */
  method GetFirstGroupInfo<T(!new)>(objectList: array<T>, compar: (T, T) -> int, objKey: T -> real,
                                    objLabel: T -> string, otherPercentLimit: real)
    returns (g: GroupInfo)
    requires TotalPreorder(compar)
    modifies objectList
    ensures SortedBy(objectList[..], compar)
    ensures multiset(objectList[..]) == multiset(old(objectList[..]))
    ensures g == Summarize(objectList[..], objKey, objLabel, otherPercentLimit)
  {
    SortInPlace(objectList, compar);
    var totalValue := SumScores(objectList, objKey);
    var labelList, dataList, countedValue := EmitLeading(objectList, objKey, objLabel, totalValue, otherPercentLimit);
    labelList := labelList + [OtherLabel];
    dataList := dataList + [totalValue - countedValue];
    g := GroupInfo(labelList, dataList);
  }

  // ---------------------------------------------------------------------------
  // Properties of the summary

  lemma {:induction false} SumAppend<T>(a: seq<T>, b: seq<T>, score: T -> real)
    ensures Sum(a + b, score) == Sum(a, score) + Sum(b, score)
    decreases |b|
  {
    if b == [] {
      assert a + b == a;
    } else {
      assert (a + b)[..|a + b| - 1] == a + b[..|b| - 1];
      SumAppend(a, b[..|b| - 1], score);
    }
  }

  lemma {:induction false} TotalOfScores<T>(s: seq<T>, score: T -> real)
    ensures Total(Scores(s, score)) == Sum(s, score)
  {
    if s != [] {
      var init := s[..|s| - 1];
      assert Scores(s, score)[..|s| - 1] == Scores(init, score);
      TotalOfScores(init, score);
    }
  }

  lemma TotalSnoc(xs: seq<real>, x: real)
    ensures Total(xs + [x]) == Total(xs) + x
  {
    assert (xs + [x])[..|xs|] == xs;
  }

  /** Conservation: the values of the summary add up to the sum of all scores. */
  lemma SummaryConserves<T>(sorted: seq<T>, score: T -> real, labelOf: T -> string, limit: real)
    ensures Total(Summarize(sorted, score, labelOf, limit).dataList) == Sum(sorted, score)
  {
    var n := EmittedCount(sorted, score, limit);
    var front := Scores(sorted[..n], score);
    TotalSnoc(front, Sum(sorted, score) - Sum(sorted[..n], score));
    TotalOfScores(sorted[..n], score);
  }

  /**
   * The individually emitted entries are, in order, the labels and scores of a
   * prefix of the sorted list, and the catch-all value is the sum of the scores of
   * the items after that prefix.
   */
  lemma SummaryIsPrefixPlusRest<T>(sorted: seq<T>, score: T -> real, labelOf: T -> string, limit: real)
    ensures var g := Summarize(sorted, score, labelOf, limit);
            var n := |g.labelList| - 1;
            && n <= |sorted|
            && (forall i :: 0 <= i < n ==> g.labelList[i] == labelOf(sorted[i]) && g.dataList[i] == score(sorted[i]))
            && g.dataList[n] == Sum(sorted[n..], score)
  {
    var n := EmittedCount(sorted, score, limit);
    assert sorted == sorted[..n] + sorted[n..];
    SumAppend(sorted[..n], sorted[n..], score);
  }

  /** With non-negative scores the catch-all value is never negative. */
  lemma OtherIsNonNegative<T>(sorted: seq<T>, score: T -> real, labelOf: T -> string, limit: real)
    requires forall x :: x in sorted ==> score(x) >= 0.0
    ensures var g := Summarize(sorted, score, labelOf, limit);
            g.dataList[|g.dataList| - 1] >= 0.0
  {
    var n := EmittedCount(sorted, score, limit);
    SummaryIsPrefixPlusRest(sorted, score, labelOf, limit);
    SumNonNegative(sorted[n..], score);
  }

  lemma {:induction false} SumNonNegative<T>(s: seq<T>, score: T -> real)
    requires forall x :: x in s ==> score(x) >= 0.0
    ensures Sum(s, score) >= 0.0
  {
    if s != [] {
      assert s[|s| - 1] in s;
      SumNonNegative(s[..|s| - 1], score);
    }
  }

  lemma MulNonNegative(a: real, b: real)
    requires a >= 0.0 && b > 0.0
    ensures a * b >= 0.0
  {
  }

  lemma MulNegative(a: real, b: real)
    requires a < 0.0 && b > 0.0
    ensures a * b < 0.0
  {
  }

  /**
   * Comparing a quotient with a bound is comparing the dividend with the bound
   * times the divisor; a negative divisor turns the comparison round.
   */
  lemma QuotientAsProduct(counted: real, total: real, bound: real)
    requires total != 0.0
    ensures total > 0.0 ==> (counted / total >= bound <==> counted >= bound * total)
    ensures total < 0.0 ==> (counted / total >= bound <==> counted <= bound * total)
  {
    var q := counted / total;
    assert counted == q * total;
    assert counted - bound * total == (q - bound) * total;
    if total > 0.0 {
      if q >= bound {
        MulNonNegative(q - bound, total);
      } else {
        MulNegative(q - bound, total);
      }
    } else {
      assert (q - bound) * total == -((q - bound) * -total);
      if q >= bound {
        MulNonNegative(q - bound, -total);
      } else {
        MulNegative(q - bound, -total);
      }
    }
  }

  /**
   * Stopping rule for a positive total: each emitted item was emitted while the
   * scores emitted before it were below `(1 - limit) * total`, and when the
   * emission stops early the scores emitted so far have reached that bound.
   */
  lemma StoppingRule<T>(sorted: seq<T>, score: T -> real, labelOf: T -> string, limit: real)
    requires Sum(sorted, score) > 0.0
    ensures var total := Sum(sorted, score);
            var n := |Summarize(sorted, score, labelOf, limit).labelList| - 1;
            && (forall j :: 0 <= j < n ==> Sum(sorted[..j], score) < (1.0 - limit) * total)
            && (n < |sorted| ==> Sum(sorted[..n], score) >= (1.0 - limit) * total)
  {
  }

  /** Empty input gives exactly the catch-all entry, with value 0. */
  lemma EmptyInput<T>(score: T -> real, labelOf: T -> string, limit: real)
    ensures Summarize([], score, labelOf, limit) == GroupInfo([OtherLabel], [0.0])
  {
  }

  /**
   * A zero total reached from non-negative scores (all of them 0) never makes the
   * division test true, so every item is emitted and the catch-all value is 0.
   */
  lemma ZeroTotalEmitsAll<T>(sorted: seq<T>, score: T -> real, labelOf: T -> string, limit: real)
    requires forall x :: x in sorted ==> score(x) >= 0.0
    requires Sum(sorted, score) == 0.0
    ensures Summarize(sorted, score, labelOf, limit)
            == GroupInfo(Labels(sorted, labelOf) + [OtherLabel], Scores(sorted, score) + [0.0])
  {
    var n := EmittedCount(sorted, score, limit);
    if n < |sorted| {
      assert sorted == sorted[..n] + sorted[n..];
      SumAppend(sorted[..n], sorted[n..], score);
      SumNonNegative(sorted[..n], score);
      SumNonNegative(sorted[n..], score);
      assert false;
    }
    assert sorted[..n] == sorted;
  }

  /**
   * With no tolerance for "other" and positive scores every item is emitted and the
   * catch-all value is 0.
   */
  lemma ZeroToleranceEmitsAll<T>(sorted: seq<T>, score: T -> real, labelOf: T -> string)
    requires forall x :: x in sorted ==> score(x) > 0.0
    ensures Summarize(sorted, score, labelOf, 0.0)
            == GroupInfo(Labels(sorted, labelOf) + [OtherLabel], Scores(sorted, score) + [0.0])
  {
    var total := Sum(sorted, score);
    var n := EmittedCount(sorted, score, 0.0);
    if n < |sorted| {
      assert sorted == sorted[..n] + sorted[n..];
      SumAppend(sorted[..n], sorted[n..], score);
      SumPositive(sorted[n..], score);
      SumNonNegative(sorted[..n], score);
      assert false;
    }
    assert sorted[..n] == sorted;
  }

  lemma {:induction false} SumPositive<T>(s: seq<T>, score: T -> real)
    requires s != []
    requires forall x :: x in s ==> score(x) > 0.0
    ensures Sum(s, score) > 0.0
  {
    assert s[|s| - 1] in s;
    if |s| > 1 {
      SumPositive(s[..|s| - 1], score);
    } else {
      assert s[..0] == [];
    }
  }

  /** The worked example: scores 50, 30, 15, 5 with a tolerance of 0.1. */
  lemma WorkedExample()
    ensures var items := [("a", 50.0), ("b", 30.0), ("c", 15.0), ("d", 5.0)];
            Summarize(items, (p: (string, real)) => p.1, (p: (string, real)) => p.0, 0.1)
            == GroupInfo(["a", "b", "c", OtherLabel], [50.0, 30.0, 15.0, 5.0])
  {
    var items := [("a", 50.0), ("b", 30.0), ("c", 15.0), ("d", 5.0)];
    var score := (p: (string, real)) => p.1;
    assert items[..1][..0] == items[..0];
    assert items[..2][..1] == items[..1];
    assert items[..3][..2] == items[..2];
    assert items[..4][..3] == items[..3];
    assert items[..4] == items;
    assert Sum(items[..1], score) == 50.0;
    assert Sum(items[..2], score) == 80.0;
    assert Sum(items[..3], score) == 95.0;
    assert Sum(items, score) == 100.0;
    assert StopIndex(items, score, 100.0, 0.1, 0) == 3;
  }
}
