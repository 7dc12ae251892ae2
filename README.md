# Three integer exercises, modelled and proved in Dafny

This project models the three small exercises of the repository:

- **Longest contiguous increasing run** (`findLengthOfLCIS`, module `Lcis`, `lcis.dfy`):
  one forward pass over a sequence of integers that keeps the length of the run ending at
  the current index and the longest run closed so far. The method keeps the Python loop.
  It is proved against the pure function `LongestRun`. Lemmas show that `LongestRun` is the
  maximum length over all contiguous strictly increasing segments.
- **Circular hour difference** (`calculate_time_difference_in_hours` and the range check
  of `transform_time_to_cyclic_feature`, module `CyclicTime`, `cyclic_time.dfy`): validate
  both hours against [0, 24), take the difference modulo 24 and fold it into [0, 12].
  Lemmas show that the result is the shortest distance around the clock. They also show that
  it is symmetric, zero only for equal hours, and obeys the triangle inequality.
- **Aggregated threat score** (`calculate_aggregated_score`, and the range used by
  `generate_random_data`; module `ThreatScore`, `threat_score.dfy`): accumulate
  `sum(scores) * importance` and `len(scores) * importance` over the departments in order.
  Then divide, clamp to [0, 90] and round half to even. Division is exact: the mean is
  kept as an integer numerator and denominator. The method keeps the Python loop and is
  proved against the pure function `AggregatedScore`.

The exceptions (`ValueError`, `IndexError`, `ZeroDivisionError`) are modelled as the
`Err` case of `Failures.Result` (`failures.dfy`). No precondition excludes them.

In two places the code does more than its intended use needs. The model follows the code:

- The intended use pairs each department with one weight. The code only indexes `importance_tags[i]` for each department. Extra weights are
  therefore ignored (`ExtraTagsAreIgnored`), and too few weights raise `IndexError`.
- The intended zero-denominator failure is the case where every department is empty.
  The code fails whenever `total_users` is 0. With arbitrary integer weights this can
  happen in other cases too, for example `[[1], [1]]` with weights `[1, -1]`. With positive
  weights the two conditions coincide (`ZeroDivisionIffAllEmpty`).

Python's `%` with the positive modulus 24 never returns a negative value, and neither does
Dafny's, so `(end - start) % 24` is written directly.

## Model

| member | source | states |
|---|---|---|
| `Lcis.FindLengthOfLcis` | task_1/task_1_1.py:2-16 | the loop returns `LongestRun(nums)`: 0 for an empty input, otherwise between 1 and \|nums\|; invariants: `currentLength` is the maximal run ending at i-1, `maxLength` is at least every run closed before the current one, and max(maxLength, currentLength) is the longest run so far |
| `Lcis.RunEndingAt` | task_1/task_1_1.py:9-14 | the run counted at index i is strictly increasing, has length between 1 and i+1, and is maximal: the element before it is not smaller than its first element |
| `Lcis.SegmentWithinRun` | task_1/task_1_1.py:10-11 | every strictly increasing segment ending at an index is no longer than the counted run ending there |
| `Lcis.LongestRunInIsMaximum` | task_1/task_1_1.py:9-16 | the longest run over the first n positions is reached by some increasing segment of the prefix and exceeds every increasing segment of it |
| `Lcis.LongestRunIsMaximum` | task_1/task_1_1.py:9-16 | the returned value is the maximum length of any contiguous strictly increasing segment: some segment achieves it and none is longer |
| `Lcis.LongestRunIn` | task_1/task_1_1.py:9-14 | the longest run among those ending before index n is at most n, and at least 1 once n > 0 |
| `Lcis.LongestRun` | task_1/task_1_1.py:3-16 | the value returned: 0 for an empty input, otherwise between 1 and \|nums\| |
| `Lcis.IncreasingInputIsOneRun` | task_1/task_1_1.py:10-16 | a strictly increasing input gives \|nums\| |
| `Lcis.NonIncreasingInputHasUnitRuns` | task_1/task_1_1.py:10-16 | a non-empty input with no increasing neighbour pair gives 1 |
| `Lcis.BreakSplitsRuns` | task_1/task_1_1.py:10-14 | where an element is not greater than its predecessor (equal neighbours included, since the test is strict `>`), no run crosses: the result is the larger of the results of the two sides |
| `Lcis.Examples` | task_1/task_1_1.py:2-16 | `[1,3,5,4,7]` gives 3, `[5,4,3,2,1]` gives 1, `[]` gives 0 |
| `CyclicTime.IsHour` | task_3/task_3.py:5 | the guard accepts exactly the hours already reduced modulo 24, i.e. those in [0, 24) |
| `CyclicTime.TransformTimeToCyclicFeature` | task_3/task_3.py:4-6 | raises `ValueError` exactly for hours outside [0, 24); otherwise accepts the hour |
| `CyclicTime.TimeDifferenceInHours` | task_3/task_3.py:14-22 | succeeds exactly when both hours lie in [0, 24), raising `ValueError` otherwise; the result lies in [0, 12] and is congruent to ±(end - start) modulo 24 |
| `CyclicTime.SameRangeCheck` | task_3/task_3.py:4-16 | the difference fails exactly when the feature transform rejects one of its two hours |
| `CyclicTime.DifferenceIsShortest` | task_3/task_3.py:18-22 | the result equals \|end - start + 24k\| for some whole number of days k and is at most that distance for every k |
| `CyclicTime.DifferenceIsSymmetric` | task_3/task_3.py:18-22 | diff(a, b) == diff(b, a) for all integers, including the failing ones |
| `CyclicTime.ZeroDifferenceIffSameHour` | task_3/task_3.py:18-22 | two valid hours are 0 apart exactly when they are equal |
| `CyclicTime.TriangleInequality` | task_3/task_3.py:18-22 | diff(a, c) <= diff(a, b) + diff(b, c) for valid hours |
| `CyclicTime.Examples` | task_3/task_3.py:33-50 | (23,1) and (1,23) give 2, (12,18) gives 6, (h,h) gives 0; (24,1), (1,-1) and the transform of 24 and -1 fail |
| `ThreatScore.Sum` | task_2/task_2.py:19 | Python's `sum` of one department's scores: 0 for all-zero scores, non-negative for non-negative scores |
| `ThreatScore.WeightedScoreTotal` | task_2/task_2.py:14-19 | `total_weighted_score` after n departments, the in-order sum of `sum(scores_i) * importance_i`; 0 when every score or every tag read is 0 |
| `ThreatScore.WeightedUserTotal` | task_2/task_2.py:15-20 | `total_users` after n departments, the in-order sum of `len(scores_i) * importance_i`; 0 when every tag read is 0; with positive tags non-negative, and 0 exactly when every department read is empty |
| `ThreatScore.RoundHalfEven` | task_2/task_2.py:23 | the result is within 1/2 of n/d, and even when n/d lies exactly halfway between two integers |
| `ThreatScore.RoundHalfEvenIsUnique` | task_2/task_2.py:23 | any integer meeting those two conditions equals `RoundHalfEven(n, d)` |
| `ThreatScore.Clamp` | task_2/task_2.py:23 | `min(max(x, 0), 90)` on a fraction: the value lies in [0, 90], negative means become 0, means above 90 become 90, and means in [0, 90] are unchanged |
| `ThreatScore.ScoreOfRatio` | task_2/task_2.py:22-23 | dividing, clamping and rounding any non-zero-denominator fraction gives an integer in [0, 90] |
| `ThreatScore.RoundedStaysInRange` | task_2/task_2.py:23 | rounding a fraction in [0, 90] stays in [0, 90] |
| `ThreatScore.AggregatedScore` | task_2/task_2.py:8-23 | fails exactly when there are fewer weights than departments (`IndexError`) or the weighted count is 0 (`ZeroDivisionError`); a success lies in [0, 90] |
| `ThreatScore.CalculateAggregatedScore` | task_2/task_2.py:14-23 | the loop's result equals `AggregatedScore`; invariant: after i departments the two accumulators are the weighted sums over those i departments, in order |
| `ThreatScore.InRangeMeanIsOnlyRounded` | task_2/task_2.py:22-23 | a mean already in [0, 90] is only rounded half to even |
| `ThreatScore.OutOfRangeMeanIsClamped` | task_2/task_2.py:23 | a negative mean scores 0 and a mean above 90 scores 90 |
| `ThreatScore.TotalsReadOnlyPrefix` | task_2/task_2.py:17-20 | the accumulated totals over n departments depend only on the first n weights |
| `ThreatScore.ExtraTagsAreIgnored` | task_2/task_2.py:17-18 | weights beyond the number of departments do not change the result |
| `ThreatScore.ZeroDivisionIffAllEmpty` | task_2/task_2.py:20-22 | with positive weights the call raises `ZeroDivisionError` exactly when every department is empty |
| `ThreatScore.AllZeroScoresGiveZero` | task_2/task_2.py:19-23 | all-zero scores give 0 whenever the call succeeds |
| `ThreatScore.RandomDataBounds` | task_2/task_2.py:6 | the range `[max(mean - variance, 0), min(mean + variance + 1, 90))`: the lower bound is the larger of 0 and mean - variance, the upper bound the smaller of 90 and mean + variance + 1, so the range lies within [0, 90) |
| `ThreatScore.IsRandomData` | task_2/task_2.py:4-6 | the possible outputs of `generate_random_data`: `numSamples` values in the drawn range; such an output needs `numSamples >= 0`, and a non-empty one needs a non-empty range |
| `ThreatScore.RandomDataInScoreRange` | task_2/task_2.py:6 | every possible generated sample has the requested length and values in [0, 90) |
| `ThreatScore.TotalsBounded` | task_2/task_2.py:19-20 | with scores in [0, 90] and positive weights, 0 <= weighted score total <= 90 × weighted count |
| `ThreatScore.ScoresInRangeAreNotClamped` | task_2/task_2.py:19-23 | for such inputs the clamp never acts: a successful call returns the exact weighted mean rounded half to even |
| `ThreatScore.Examples` | task_2/task_2.py:59-70 | `[[]]` with `[1]` raises `ZeroDivisionError`; `[[0,0,0],[0,0]]` with `[2,3]` gives 0 |

## Left out

- The sine and cosine that `transform_time_to_cyclic_feature` returns (task_3/task_3.py:8-12) are left out because they are floating-point trigonometry. `TransformTimeToCyclicFeature` models only the range check. On success it returns the hour itself, which is the angle measured in 24ths of a turn.
- The random draws of `generate_random_data` are left out because they come from numpy's random source. Only the half-open range they are drawn from is modelled (`RandomDataBounds`, `IsRandomData`). numpy's own failure on an empty range is not modelled.
- Python's floating-point `/` and `round` are replaced by exact rational arithmetic. For quotients that a double cannot represent exactly, the float result may round differently. Ties such as m + 0.5 are exact in both. Python's int/int `/` also raises `OverflowError` when the quotient is too large for a double (for example `[[10**400]]` with `[1]`); `AggregatedScore` returns `Ok(90)` there instead.
- Hours, scores, weights and the `nums` of `findLengthOfLCIS` are modelled as integers. The Python code would also accept floats, and `findLengthOfLCIS`'s `>` would compare any ordered values such as strings; these are not modelled.
- The `unittest` classes and `__main__` blocks are test harness. Their assertions appear only as the `Examples` lemmas and as properties.
- The `class Solution:` line at task_1/task_1_1.py:1 has no body and no behaviour, so it is not modelled.
