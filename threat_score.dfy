/** The company-wide threat score: an importance-weighted mean of department
    scores, clamped to [0, 90] and rounded half to even
    (`calculate_aggregated_score`), with the range of the generated scores
    (`generate_random_data`). Division is exact: the mean is kept as a
    numerator and a denominator. */
module ThreatScore {
  import opened Failures

  const MaxScore := 90

  /** Python's `sum` of a list of integers: 0 for all-zero lists and
      non-negative for non-negative lists. */
  function Sum(s: seq<int>): (r: int)
    ensures (forall j :: 0 <= j < |s| ==> s[j] == 0) ==> r == 0
    ensures (forall j :: 0 <= j < |s| ==> s[j] >= 0) ==> r >= 0
  {
    if s == [] then 0 else s[0] + Sum(s[1..])
  }

  /** total_weighted_score after the first n departments:
      the sum over i < n of sum(scores_i) * importance_i. It is 0 when every
      score read is 0 and when every importance tag read is 0. */
  function WeightedScoreTotal(scores: seq<seq<int>>, tags: seq<int>, n: nat): (r: int)
    requires n <= |scores| && n <= |tags|
    ensures (forall i, j :: 0 <= i < n && 0 <= j < |scores[i]| ==> scores[i][j] == 0) ==> r == 0
    ensures (forall i :: 0 <= i < n ==> tags[i] == 0) ==> r == 0
  {
    if n == 0 then 0
    else WeightedScoreTotal(scores, tags, n - 1) + Sum(scores[n - 1]) * tags[n - 1]
  }

  /** total_users after the first n departments:
      the sum over i < n of len(scores_i) * importance_i. It is 0 when every
      importance tag read is 0; with positive tags it is non-negative, and 0
      exactly when every department read is empty. */
  function WeightedUserTotal(scores: seq<seq<int>>, tags: seq<int>, n: nat): (r: int)
    requires n <= |scores| && n <= |tags|
    ensures (forall i :: 0 <= i < n ==> tags[i] == 0) ==> r == 0
    ensures (forall i :: 0 <= i < n ==> tags[i] > 0) ==>
              r >= 0 && (r == 0 <==> forall i :: 0 <= i < n ==> scores[i] == [])
  {
    if n == 0 then 0
    else
      var last := |scores[n - 1]| * tags[n - 1];
      assert tags[n - 1] > 0 ==> (last >= 0 && (last == 0 <==> scores[n - 1] == []));
      WeightedUserTotal(scores, tags, n - 1) + last
  }

  /** r is n/d (d > 0) rounded to the nearest integer, ties to the even one
      (Python's `round`): |n/d - r| <= 1/2, and at exactly 1/2 r is even. */
  ghost predicate IsRoundHalfEven(n: int, d: int, r: int)
    requires d > 0
  {
    -d <= 2 * n - 2 * d * r <= d &&
    ((2 * n - 2 * d * r == d || 2 * n - 2 * d * r == -d) ==> r % 2 == 0)
  }

  /** Round-half-to-even of the fraction n/d. */
  function RoundHalfEven(n: int, d: int): (r: int)
    requires d > 0
    ensures IsRoundHalfEven(n, d, r)
  {
    var q, rem := n / d, n % d;
    assert n == d * q + rem;
    assert d * (q + 1) == d * q + d;
    if 2 * rem < d then q
    else if 2 * rem > d then q + 1
    else if q % 2 == 0 then q else q + 1
  }

  /** min(max(num/den, 0), 90) as a fraction with a positive denominator. */
  function Clamp(num: int, den: int): (r: (int, int))
    requires den > 0
    ensures r.1 > 0 && 0 <= r.0 <= MaxScore * r.1
    ensures num < 0 ==> r.0 == 0
    ensures num > MaxScore * den ==> r.0 == MaxScore * r.1
    ensures 0 <= num <= MaxScore * den ==> r == (num, den)
  {
    if num < 0 then (0, 1)
    else if num > MaxScore * den then (MaxScore, 1)
    else (num, den)
  }

  /** round(min(max(num / den, 0), 90)) for a non-zero denominator. */
  function ScoreOfRatio(num: int, den: int): (r: int)
    requires den != 0
    ensures 0 <= r <= MaxScore
  {
    var (n, d) := if den < 0 then (-num, -den) else (num, den);
    var c := Clamp(n, d);
    var r := RoundHalfEven(c.0, c.1);
    RoundedStaysInRange(c.0, c.1, r);
    r
  }

  /** Rounding a fraction that lies in [0, 90] gives an integer in [0, 90]. */
  lemma RoundedStaysInRange(n: int, d: int, r: int)
    requires d > 0 && 0 <= n <= MaxScore * d && IsRoundHalfEven(n, d, r)
    ensures 0 <= r <= MaxScore
  {
  }

  /** calculate_aggregated_score as a value: IndexError when the departments
      outnumber the importance tags, ZeroDivisionError when the weighted
      count is zero, otherwise the clamped and rounded weighted mean. */
  function AggregatedScore(scores: seq<seq<int>>, tags: seq<int>): (r: Result<int>)
    ensures r.Err? <==> |tags| < |scores| || WeightedUserTotal(scores, tags, |scores|) == 0
    ensures r.Err? ==> (r.error == IndexError <==> |tags| < |scores|)
    ensures r.Err? ==> r.error == IndexError || r.error == ZeroDivisionError
    ensures r.Ok? ==> 0 <= r.value <= MaxScore
  {
    if |tags| < |scores| then Err(IndexError)
    else
      var den := WeightedUserTotal(scores, tags, |scores|);
      if den == 0 then Err(ZeroDivisionError)
      else Ok(ScoreOfRatio(WeightedScoreTotal(scores, tags, |scores|), den))
  }

  /** calculate_aggregated_score: accumulate the weighted score and the
      weighted number of users department by department, then divide, clamp
      and round. */
  method CalculateAggregatedScore(departmentScores: seq<seq<int>>, importanceTags: seq<int>)
    returns (r: Result<int>)
    ensures r == AggregatedScore(departmentScores, importanceTags)
  {
    var totalWeightedScore := 0;
    var totalUsers := 0;
    var i := 0;
    while i < |departmentScores|
      invariant 0 <= i <= |departmentScores| && i <= |importanceTags|
      invariant totalWeightedScore == WeightedScoreTotal(departmentScores, importanceTags, i)
      invariant totalUsers == WeightedUserTotal(departmentScores, importanceTags, i)
    {
      if i >= |importanceTags| {
        return Err(IndexError);
      }
      var importance := importanceTags[i];
      totalWeightedScore := totalWeightedScore + Sum(departmentScores[i]) * importance;
      totalUsers := totalUsers + |departmentScores[i]| * importance;
      i := i + 1;
    }
    if totalUsers == 0 {
      return Err(ZeroDivisionError);
    }
    r := Ok(ScoreOfRatio(totalWeightedScore, totalUsers));
  }

  /** Round-half-to-even is determined by its two conditions: any r that meets
      them is the value RoundHalfEven computes. */
  lemma RoundHalfEvenIsUnique(n: int, d: int, r: int)
    requires d > 0 && IsRoundHalfEven(n, d, r)
    ensures r == RoundHalfEven(n, d)
  {
    var r0 := RoundHalfEven(n, d);
    var k := r0 - r;
    var e, e0 := 2 * n - 2 * d * r, 2 * n - 2 * d * r0;
    assert d * r0 == d * r + d * k;
    assert e - e0 == 2 * (d * k);
    AtMostOneApart(d, k);
  }

  /** A multiple d * k of a positive d that lies within [-d, d] has |k| <= 1. */
  lemma AtMostOneApart(d: int, k: int)
    requires d > 0 && -d <= d * k <= d
    ensures -1 <= k <= 1
  {
  }

  /** When the weighted mean already lies in [0, 90] the clamp leaves it alone
      and the score is the mean rounded half to even. */
  lemma InRangeMeanIsOnlyRounded(num: int, den: int)
    requires den > 0 && 0 <= num <= MaxScore * den
    ensures ScoreOfRatio(num, den) == RoundHalfEven(num, den)
  {
  }

  /** Means below 0 score 0 and means above 90 score 90. */
  lemma OutOfRangeMeanIsClamped(num: int, den: int)
    requires den > 0
    ensures num < 0 ==> ScoreOfRatio(num, den) == 0
    ensures num > MaxScore * den ==> ScoreOfRatio(num, den) == MaxScore
  {
  }

  /** Both totals read only the first n importance tags. */
  lemma {:induction false} TotalsReadOnlyPrefix(scores: seq<seq<int>>, tags: seq<int>, tags': seq<int>, n: nat)
    requires n <= |scores| && n <= |tags| && n <= |tags'| && tags[..n] == tags'[..n]
    ensures WeightedScoreTotal(scores, tags, n) == WeightedScoreTotal(scores, tags', n)
    ensures WeightedUserTotal(scores, tags, n) == WeightedUserTotal(scores, tags', n)
  {
    if n > 0 {
      assert tags[..n - 1] == tags[..n][..n - 1] && tags'[..n - 1] == tags'[..n][..n - 1];
      assert tags[n - 1] == tags[..n][n - 1] && tags'[n - 1] == tags'[..n][n - 1];
      TotalsReadOnlyPrefix(scores, tags, tags', n - 1);
    }
  }

  /** Importance tags beyond the number of departments are ignored. */
  lemma ExtraTagsAreIgnored(scores: seq<seq<int>>, tags: seq<int>, extra: seq<int>)
    requires |scores| <= |tags|
    ensures AggregatedScore(scores, tags + extra) == AggregatedScore(scores, tags)
  {
    assert (tags + extra)[..|scores|] == tags[..|scores|];
    TotalsReadOnlyPrefix(scores, tags + extra, tags, |scores|);
  }

  /** With positive importance tags (the documented 1-5) the call fails with
      ZeroDivisionError exactly when every department is empty. */
  lemma ZeroDivisionIffAllEmpty(scores: seq<seq<int>>, tags: seq<int>)
    requires |scores| <= |tags|
    requires forall i :: 0 <= i < |scores| ==> tags[i] > 0
    ensures AggregatedScore(scores, tags) == Err(ZeroDivisionError) <==>
            forall i :: 0 <= i < |scores| ==> scores[i] == []
  {
  }

  /** All-zero scores give 0 whenever the call succeeds. */
  lemma AllZeroScoresGiveZero(scores: seq<seq<int>>, tags: seq<int>)
    requires forall i, j :: 0 <= i < |scores| && 0 <= j < |scores[i]| ==> scores[i][j] == 0
    requires AggregatedScore(scores, tags).Ok?
    ensures AggregatedScore(scores, tags) == Ok(0)
  {
    var den := WeightedUserTotal(scores, tags, |scores|);
    if den > 0 {
      InRangeMeanIsOnlyRounded(0, den);
    } else {
      InRangeMeanIsOnlyRounded(0, -den);
    }
  }

  /** The half-open range [lo, hi) that generate_random_data draws from:
      lo = max(mean - variance, 0), hi = min(mean + variance + 1, 90). */
  function RandomDataBounds(mean: int, variance: int): (r: (int, int))
    ensures 0 <= r.0 && r.1 <= MaxScore
    ensures r.0 >= mean - variance && (r.0 == 0 || r.0 == mean - variance)
    ensures r.1 <= mean + variance + 1 && (r.1 == MaxScore || r.1 == mean + variance + 1)
  {
    var lo := if mean - variance < 0 then 0 else mean - variance;
    var hi := if MaxScore < mean + variance + 1 then MaxScore else mean + variance + 1;
    (lo, hi)
  }

  /** `data` is a possible outcome of generate_random_data(mean, variance, numSamples).
      A non-empty outcome needs a non-empty range. */
  ghost predicate IsRandomData(mean: int, variance: int, numSamples: int, data: seq<int>): (b: bool)
    ensures b ==> numSamples >= 0
    ensures b && numSamples > 0 ==> RandomDataBounds(mean, variance).0 < RandomDataBounds(mean, variance).1
  {
    var (lo, hi) := RandomDataBounds(mean, variance);
    var inRange := |data| == numSamples && forall j :: 0 <= j < |data| ==> lo <= data[j] < hi;
    assert inRange && numSamples > 0 ==> lo <= data[0] < hi;
    inRange
  }

  /** Every generated score lies in [0, 90). */
  lemma RandomDataInScoreRange(mean: int, variance: int, numSamples: int, data: seq<int>)
    requires IsRandomData(mean, variance, numSamples, data)
    ensures |data| == numSamples
    ensures forall j :: 0 <= j < |data| ==> 0 <= data[j] < MaxScore
  {
  }

  lemma {:induction false} SumBounds(s: seq<int>)
    requires forall j :: 0 <= j < |s| ==> 0 <= s[j] <= MaxScore
    ensures 0 <= Sum(s) <= MaxScore * |s|
  {
    if s != [] {
      SumBounds(s[1..]);
    }
  }

  lemma WeightedBounds(a: int, b: int, w: int)
    requires 0 <= a <= MaxScore * b && w > 0
    ensures 0 <= a * w <= MaxScore * (b * w)
  {
  }

  lemma {:induction false} TotalsBounded(scores: seq<seq<int>>, tags: seq<int>, n: nat)
    requires n <= |scores| && n <= |tags|
    requires forall i :: 0 <= i < n ==> tags[i] > 0
    requires forall i, j :: 0 <= i < n && 0 <= j < |scores[i]| ==> 0 <= scores[i][j] <= MaxScore
    ensures 0 <= WeightedScoreTotal(scores, tags, n) <= MaxScore * WeightedUserTotal(scores, tags, n)
  {
    if n > 0 {
      TotalsBounded(scores, tags, n - 1);
      SumBounds(scores[n - 1]);
      WeightedBounds(Sum(scores[n - 1]), |scores[n - 1]|, tags[n - 1]);
    }
  }

  /** For scores in [0, 90] (as generate_random_data produces) and positive
      importance tags the clamp never acts: a successful call returns the
      weighted mean rounded half to even. */
  lemma ScoresInRangeAreNotClamped(scores: seq<seq<int>>, tags: seq<int>)
    requires |scores| <= |tags|
    requires forall i :: 0 <= i < |scores| ==> tags[i] > 0
    requires forall i, j :: 0 <= i < |scores| && 0 <= j < |scores[i]| ==> 0 <= scores[i][j] <= MaxScore
    requires AggregatedScore(scores, tags).Ok?
    ensures var den := WeightedUserTotal(scores, tags, |scores|);
            den > 0 && AggregatedScore(scores, tags).value ==
            RoundHalfEven(WeightedScoreTotal(scores, tags, |scores|), den)
  {
    TotalsBounded(scores, tags, |scores|);
  }

  /** The cases exercised by the repository's tests. */
  lemma Examples()
    ensures AggregatedScore([[]], [1]) == Err(ZeroDivisionError)
    ensures AggregatedScore([[0, 0, 0], [0, 0]], [2, 3]) == Ok(0)
  {
  }
}
