/** The arithmetic of a group card (lib/services/results.service.ts). */
module Aggregates {
  import opened Sequences

  type PageId = string
  type Millis = int

  /** The scores of a result row. */
  datatype ScoreRow = ScoreRow(
    pageId: PageId, ok: bool, performance: Option<int>, accessibility: Option<int>, bestPractices: Option<int>,
    seo: Option<int>, createdAt: Millis)

  datatype FourScores = FourScores(
    performance: Option<int>, accessibility: Option<int>, bestPractices: Option<int>, seo: Option<int>)

  datatype Band = Fail | Average | Pass

  datatype Distribution = Distribution(pass: nat, average: nat, fail: nat, unaudited: nat)

  // -------------------------------------------------------------------------------------------
  // Means
  // -------------------------------------------------------------------------------------------

  function Numbers(values: seq<Option<int>>): seq<int> {
    if |values| == 0 then []
    else (if values[0].Some? then [values[0].value] else []) + Numbers(values[1..])
  }

  function Sum(xs: seq<int>): int {
    if |xs| == 0 then 0 else xs[0] + Sum(xs[1..])
  }

  /** Math.round(sum / n), halves up. */
  function RoundedQuotient(sum: int, n: nat): int
    requires n > 0
  {
    (2 * sum + n) / (2 * n)
  }

  function Mean(values: seq<Option<int>>): Option<int> {
    var nums := Numbers(values);
    if |nums| == 0 then None else Some(RoundedQuotient(Sum(nums), |nums|))
  }

  ghost predicate Within(xs: seq<int>, lo: int, hi: int) {
    forall i :: 0 <= i < |xs| ==> lo <= xs[i] <= hi
  }

  ghost predicate ScoresWithin(values: seq<Option<int>>, lo: int, hi: int) {
    forall i :: 0 <= i < |values| && values[i].Some? ==> lo <= values[i].value <= hi
  }

  lemma {:induction false} NumbersWithin(values: seq<Option<int>>, lo: int, hi: int)
    requires ScoresWithin(values, lo, hi)
    ensures Within(Numbers(values), lo, hi)
    ensures Numbers(values) == [] <==> forall i :: 0 <= i < |values| ==> values[i].None?
  {
    if |values| > 0 {
      NumbersWithin(values[1..], lo, hi);
      assert forall i :: 0 < i < |values| ==> values[i] == values[1..][i - 1];
    }
  }

  lemma {:induction false} SumBounds(xs: seq<int>, lo: int, hi: int)
    requires Within(xs, lo, hi)
    ensures lo * |xs| <= Sum(xs) <= hi * |xs|
  {
    if |xs| > 0 {
      SumBounds(xs[1..], lo, hi);
      assert |xs| == 1 + |xs[1..]|;
      assert lo * |xs| == lo + lo * |xs[1..]| && hi * |xs| == hi + hi * |xs[1..]|;
    }
  }

  lemma RoundedIsClose(sum: int, n: nat)
    requires n > 0
    ensures var q := RoundedQuotient(sum, n); 2 * sum - n < 2 * (n * q) <= 2 * sum + n
  {
    var q := RoundedQuotient(sum, n);
    assert 2 * sum + n == q * (2 * n) + (2 * sum + n) % (2 * n);
    assert q * (2 * n) == 2 * (n * q);
  }

  lemma {:induction false} ProductOrder(n: nat, a: int, b: int)
    requires a < b
    ensures n * a + n <= n * b
    decreases n
  {
    if n > 0 {
      ProductOrder(n - 1, a, b);
      assert n * a == (n - 1) * a + a && n * b == (n - 1) * b + b;
    }
  }

  lemma RoundedBounds(sum: int, n: nat, lo: int, hi: int)
    requires n > 0 && n * lo <= sum <= n * hi
    ensures lo <= RoundedQuotient(sum, n) <= hi
  {
    var q := RoundedQuotient(sum, n);
    RoundedIsClose(sum, n);
    if q < lo {
      ProductOrder(n, q, lo);
    } else if q > hi {
      ProductOrder(n, hi, q);
    }
  }

  /** A mean exists just when something was measured, and lies within the measured range. */
  lemma MeanBounds(values: seq<Option<int>>, lo: int, hi: int)
    requires ScoresWithin(values, lo, hi)
    ensures Mean(values).None? <==> forall i :: 0 <= i < |values| ==> values[i].None?
    ensures Mean(values).Some? ==> lo <= Mean(values).value <= hi
  {
    NumbersWithin(values, lo, hi);
    var nums := Numbers(values);
    if |nums| > 0 {
      SumBounds(nums, lo, hi);
      RoundedBounds(Sum(nums), |nums|, lo, hi);
    }
  }

  predicate IsGiven(value: Option<int>) {
    value.Some?
  }

  /** The sum of the values that are given. */
  ghost function Total(values: seq<Option<int>>): int {
    if |values| == 0 then 0 else values[0].GetOr(0) + Total(values[1..])
  }

  lemma {:induction false} NumbersAre(values: seq<Option<int>>)
    ensures |Numbers(values)| == |Filter(values, IsGiven)| && Sum(Numbers(values)) == Total(values)
  {
    if |values| > 0 {
      NumbersAre(values[1..]);
      var rest := Numbers(values[1..]);
      assert values[0].Some? ==> ([values[0].value] + rest)[1..] == rest;
      assert [] + rest == rest;
    }
  }

  /** The mean is the given values' sum over their number, rounded to the nearest whole number, halves up. */
  lemma MeanIsNearest(values: seq<Option<int>>)
    ensures var n := |Filter(values, IsGiven)|;
      && (Mean(values).None? <==> n == 0)
      && (n > 0 ==> 2 * Total(values) - n < 2 * (n * Mean(values).value) <= 2 * Total(values) + n)
  {
    NumbersAre(values);
    if |Numbers(values)| > 0 {
      RoundedIsClose(Sum(Numbers(values)), |Numbers(values)|);
    }
  }

  // -------------------------------------------------------------------------------------------
  // Aggregate, distribution, worst page
  // -------------------------------------------------------------------------------------------

  const IsOk: ScoreRow -> bool := (r: ScoreRow) => r.ok

  function Column(rows: seq<ScoreRow>, read: ScoreRow -> Option<int>): seq<Option<int>> {
    seq(|rows|, i requires 0 <= i < |rows| => read(rows[i]))
  }

  function ComputeAggregate(rows: seq<ScoreRow>): FourScores {
    var ok := Filter(rows, IsOk);
    FourScores(
      Mean(Column(ok, (r: ScoreRow) => r.performance)), Mean(Column(ok, (r: ScoreRow) => r.accessibility)),
      Mean(Column(ok, (r: ScoreRow) => r.bestPractices)), Mean(Column(ok, (r: ScoreRow) => r.seo)))
  }

  /** Error rows do not count. */
  lemma AggregateIgnoresErrors(rows: seq<ScoreRow>)
    ensures ComputeAggregate(rows) == ComputeAggregate(Filter(rows, IsOk))
  {
    FilterAll(Filter(rows, IsOk), IsOk);
  }

  predicate Succeeded(r: ScoreRow) {
    r.ok
  }

  /** Each score of a card is the mean of that score over the rows that measured. */
  lemma AggregateIs(rows: seq<ScoreRow>)
    ensures var ok, a := Filter(rows, Succeeded), ComputeAggregate(rows);
      && a.performance == Mean(seq(|ok|, i requires 0 <= i < |ok| => ok[i].performance))
      && a.accessibility == Mean(seq(|ok|, i requires 0 <= i < |ok| => ok[i].accessibility))
      && a.bestPractices == Mean(seq(|ok|, i requires 0 <= i < |ok| => ok[i].bestPractices))
      && a.seo == Mean(seq(|ok|, i requires 0 <= i < |ok| => ok[i].seo))
  {
    FilterAgree(rows, IsOk, Succeeded);
    var ok := Filter(rows, Succeeded);
    assert seq(|ok|, i requires 0 <= i < |ok| => ok[i].performance) == Column(ok, (r: ScoreRow) => r.performance);
    assert seq(|ok|, i requires 0 <= i < |ok| => ok[i].accessibility) == Column(ok, (r: ScoreRow) => r.accessibility);
    assert seq(|ok|, i requires 0 <= i < |ok| => ok[i].bestPractices) == Column(ok, (r: ScoreRow) => r.bestPractices);
    assert seq(|ok|, i requires 0 <= i < |ok| => ok[i].seo) == Column(ok, (r: ScoreRow) => r.seo);
  }

  function ScoreBand(score: Option<int>): Option<Band> {
    if score.None? then None
    else if score.value < 50 then Some(Fail)
    else if score.value < 90 then Some(Average)
    else Some(Pass)
  }

  function InBand(band: Band): ScoreRow -> bool {
    (r: ScoreRow) => r.ok && ScoreBand(r.performance) == Some(band)
  }

  predicate Measured(r: ScoreRow) {
    r.ok && r.performance.Some?
  }

  function Count(rows: seq<ScoreRow>, p: ScoreRow -> bool): (n: nat)
    ensures n <= |rows|
  {
    if |rows| == 0 then 0
    else Count(rows[..|rows| - 1], p) + if p(rows[|rows| - 1]) then 1 else 0
  }

  function DistributionOf(rows: seq<ScoreRow>, pageCount: nat): Distribution {
    var pass, average, fail := Count(rows, InBand(Pass)), Count(rows, InBand(Average)), Count(rows, InBand(Fail));
    var banded := pass + average + fail;
    Distribution(pass, average, fail, if pageCount < banded then 0 else pageCount - banded)
  }

  method ComputeDistribution(rows: seq<ScoreRow>, pageCount: nat) returns (d: Distribution)
    ensures d == DistributionOf(rows, pageCount)
  {
    var pass, average, fail := 0, 0, 0;
    for i := 0 to |rows|
      invariant pass == Count(rows[..i], InBand(Pass))
      invariant average == Count(rows[..i], InBand(Average))
      invariant fail == Count(rows[..i], InBand(Fail))
    {
      var r := rows[i];
      assert rows[..i + 1][..i] == rows[..i];
      var band := ScoreBand(r.performance);
      if r.ok && band.Some? {
        match band.value {
          case Pass => pass := pass + 1;
          case Average => average := average + 1;
          case Fail => fail := fail + 1;
        }
      }
    }
    assert rows[..|rows|] == rows;
    var banded := pass + average + fail;
    d := Distribution(pass, average, fail, if pageCount < banded then 0 else pageCount - banded);
  }

  lemma {:induction false} BandsAreDisjoint(rows: seq<ScoreRow>)
    ensures Count(rows, InBand(Pass)) + Count(rows, InBand(Average)) + Count(rows, InBand(Fail))
         == Count(rows, Measured)
  {
    if |rows| > 0 {
      BandsAreDisjoint(rows[..|rows| - 1]);
    }
  }

  predicate Passed(r: ScoreRow) {
    r.ok && r.performance.Some? && r.performance.value >= 90
  }

  predicate Middling(r: ScoreRow) {
    r.ok && r.performance.Some? && 50 <= r.performance.value < 90
  }

  predicate Poor(r: ScoreRow) {
    r.ok && r.performance.Some? && r.performance.value < 50
  }

  lemma {:induction false} CountIs(rows: seq<ScoreRow>, p: ScoreRow -> bool, q: ScoreRow -> bool)
    requires forall r :: p(r) == q(r)
    ensures Count(rows, p) == |Filter(rows, q)|
  {
    if |rows| > 0 {
      CountIs(rows[..|rows| - 1], p, q);
      FilterNext(rows, |rows| - 1, q);
      assert rows[..|rows| - 1 + 1] == rows;
    }
  }

  /** Of the rows that measured, 90 and up pass, below 50 fail, the rest is average; other pages are unaudited. */
  lemma DistributionIs(rows: seq<ScoreRow>, pageCount: nat)
    ensures var d := DistributionOf(rows, pageCount);
      && d.pass == |Filter(rows, Passed)| && d.average == |Filter(rows, Middling)| && d.fail == |Filter(rows, Poor)|
      && (d.pass + d.average + d.fail <= pageCount ==> d.pass + d.average + d.fail + d.unaudited == pageCount)
      && (d.pass + d.average + d.fail > pageCount ==> d.unaudited == 0)
  {
    CountIs(rows, InBand(Pass), Passed);
    CountIs(rows, InBand(Average), Middling);
    CountIs(rows, InBand(Fail), Poor);
  }

  /** The segments of the bar add up to the page count just when there are no more measured rows than pages. */
  lemma DistributionAddsUpIff(rows: seq<ScoreRow>, pageCount: nat)
    ensures var d := DistributionOf(rows, pageCount);
      d.pass + d.average + d.fail + d.unaudited == pageCount <==> Count(rows, Measured) <= pageCount
  {
    BandsAreDisjoint(rows);
  }

  /** The first of the measured rows with the lowest performance score. */
  function WorstOf(rows: seq<ScoreRow>): (r: Option<ScoreRow>)
    ensures r.None? <==> forall x :: x in rows ==> !x.ok || x.performance.None?
    ensures r.Some? ==> r.value in rows && r.value.ok && r.value.performance.Some?
    ensures r.Some? ==> forall x :: x in rows && x.ok && x.performance.Some? ==>
      r.value.performance.value <= x.performance.value
  {
    if |rows| == 0 then None
    else
      var n := |rows| - 1;
      var before := WorstOf(rows[..n]);
      assert rows == rows[..n] + [rows[n]];
      if Measured(rows[n]) && (before.None? || rows[n].performance.value < before.value.performance.value)
      then Some(rows[n]) else before
  }

  /** Of several lowest rows it is the first. */
  lemma {:induction false} WorstIsFirst(rows: seq<ScoreRow>, i: nat)
    requires i < |rows| && rows[i].ok && rows[i].performance.Some? && WorstOf(rows).Some?
    requires rows[i].performance == WorstOf(rows).value.performance
    ensures WorstOf(rows).value in rows[..i + 1]
  {
    var n := |rows| - 1;
    if i < n {
      assert rows[i] in rows[..n];
      assert rows[..n][i] == rows[i] && rows[..n][..i + 1] == rows[..i + 1];
      WorstIsFirst(rows[..n], i);
    }
  }

  method WorstPerformance(rows: seq<ScoreRow>) returns (score: Option<int>, pageId: Option<PageId>)
    ensures score == (if WorstOf(rows).None? then None else WorstOf(rows).value.performance)
    ensures pageId == (if WorstOf(rows).None? then None else Some(WorstOf(rows).value.pageId))
  {
    score, pageId := None, None;
    for i := 0 to |rows|
      invariant score == (if WorstOf(rows[..i]).None? then None else WorstOf(rows[..i]).value.performance)
      invariant pageId == (if WorstOf(rows[..i]).None? then None else Some(WorstOf(rows[..i]).value.pageId))
    {
      var r := rows[i];
      assert rows[..i + 1][..i] == rows[..i];
      if r.ok && r.performance.Some? && (score.None? || r.performance.value < score.value) {
        score, pageId := r.performance, Some(r.pageId);
      }
    }
    assert rows[..|rows|] == rows;
  }
}
