/** Length of the longest contiguous strictly increasing run of a sequence
    (`findLengthOfLCIS`). */
module Lcis {

  function Max(a: int, b: int): (r: int)
    ensures r >= a && r >= b && (r == a || r == b)
  {
    if a < b then b else a
  }

  /** The element at index k is greater than its predecessor (the test of
      the loop). */
  predicate Rises(s: seq<int>, k: int)
    requires 0 < k < |s|
  {
    s[k] > s[k - 1]
  }

  /** The segment s[lo..hi] is strictly increasing. */
  ghost predicate Increasing(s: seq<int>, lo: int, hi: int)
    requires 0 <= lo <= hi <= |s|
  {
    forall k :: lo < k < hi ==> Rises(s, k)
  }

  /** `m` is the length of a longest strictly increasing segment of `s`:
      some segment has that length and no segment is longer. */
  ghost predicate IsLongestRunLength(s: seq<int>, m: int)
  {
    (exists lo, hi :: 0 <= lo <= hi <= |s| && Increasing(s, lo, hi) && hi - lo == m) &&
    (forall lo, hi :: 0 <= lo <= hi <= |s| && Increasing(s, lo, hi) ==> hi - lo <= m)
  }

  /** Length of the maximal strictly increasing run that ends at index i. */
  function RunEndingAt(s: seq<int>, i: nat): (r: nat)
    requires i < |s|
    ensures 1 <= r <= i + 1
    ensures Increasing(s, i + 1 - r, i + 1)
    ensures i + 1 - r == 0 || s[i - r] >= s[i + 1 - r]
  {
    if i == 0 || s[i] <= s[i - 1] then 1 else RunEndingAt(s, i - 1) + 1
  }

  /** The longest run that ends before index n: no longer than n, and at
      least 1 once n > 0. */
  function LongestRunIn(s: seq<int>, n: nat): (r: nat)
    requires n <= |s|
    ensures r <= n
    ensures n > 0 ==> 1 <= r
  {
    if n == 0 then 0 else Max(LongestRunIn(s, n - 1), RunEndingAt(s, n - 1))
  }

  /** The longest run of the whole sequence: the value findLengthOfLCIS returns.
      It is 0 for the empty sequence and between 1 and |s| otherwise. */
  function LongestRun(s: seq<int>): (r: nat)
    ensures |s| == 0 ==> r == 0
    ensures |s| > 0 ==> 1 <= r <= |s|
  {
    LongestRunIn(s, |s|)
  }

  /** findLengthOfLCIS: one forward pass keeping the length of the run that ends
      at the current index and the longest run closed so far. */
  method FindLengthOfLcis(nums: seq<int>) returns (r: nat)
    ensures r == LongestRun(nums)
    ensures IsLongestRunLength(nums, r)
    ensures |nums| == 0 ==> r == 0
    ensures |nums| > 0 ==> 1 <= r <= |nums|
  {
    if |nums| == 0 {
      LongestRunIsMaximum(nums);
      return 0;
    }
    var maxLength := 0;
    var currentLength := 1;
    var i := 1;
    while i < |nums|
      invariant 1 <= i <= |nums|
      invariant 1 <= currentLength <= i
      invariant currentLength == RunEndingAt(nums, i - 1)
      invariant maxLength >= LongestRunIn(nums, i - currentLength)
      invariant Max(maxLength, currentLength) == LongestRunIn(nums, i)
      invariant maxLength <= i
    {
      if nums[i] > nums[i - 1] {
        currentLength := currentLength + 1;
      } else {
        maxLength := Max(maxLength, currentLength);
        currentLength := 1;
      }
      i := i + 1;
    }
    r := Max(maxLength, currentLength);
    LongestRunIsMaximum(nums);
  }

  /** Every strictly increasing segment ending at hi - 1 is no longer than the
      maximal run ending there. */
  lemma {:induction false} SegmentWithinRun(s: seq<int>, lo: nat, hi: nat)
    requires lo < hi <= |s| && Increasing(s, lo, hi)
    ensures hi - lo <= RunEndingAt(s, hi - 1)
  {
    if hi - lo > 1 {
      assert Rises(s, hi - 1);
      assert Increasing(s, lo, hi - 1);
      SegmentWithinRun(s, lo, hi - 1);
    }
  }

  /** LongestRunIn(s, n) is the length of a longest strictly increasing segment
      of s[..n]. */
  lemma {:induction false} LongestRunInIsMaximum(s: seq<int>, n: nat)
    requires n <= |s|
    ensures exists lo, hi :: 0 <= lo <= hi <= n && Increasing(s, lo, hi) && hi - lo == LongestRunIn(s, n)
    ensures forall lo, hi :: 0 <= lo <= hi <= n && Increasing(s, lo, hi) ==> hi - lo <= LongestRunIn(s, n)
  {
    if n == 0 {
      assert Increasing(s, 0, 0);
    } else {
      LongestRunInIsMaximum(s, n - 1);
      var m := RunEndingAt(s, n - 1);
      if LongestRunIn(s, n - 1) < m {
        assert Increasing(s, n - m, n);
      }
      forall lo, hi | 0 <= lo <= hi <= n && Increasing(s, lo, hi)
        ensures hi - lo <= LongestRunIn(s, n)
      {
        if hi == n && lo < hi {
          SegmentWithinRun(s, lo, hi);
        }
      }
    }
  }

  /** The value returned is the maximum length of a contiguous strictly
      increasing segment: some segment reaches it and none exceeds it. */
  lemma LongestRunIsMaximum(s: seq<int>)
    ensures IsLongestRunLength(s, LongestRun(s))
  {
    LongestRunInIsMaximum(s, |s|);
  }

  /** A strictly increasing sequence is one run covering all of it. */
  lemma IncreasingInputIsOneRun(s: seq<int>)
    requires forall k :: 0 < k < |s| ==> s[k - 1] < s[k]
    ensures LongestRun(s) == |s|
  {
    LongestRunIsMaximum(s);
    assert Increasing(s, 0, |s|);
  }

  /** A non-empty sequence with no increasing neighbours has only runs of length 1. */
  lemma NonIncreasingInputHasUnitRuns(s: seq<int>)
    requires |s| > 0
    requires forall k :: 0 < k < |s| ==> s[k] <= s[k - 1]
    ensures LongestRun(s) == 1
  {
    LongestRunIsMaximum(s);
    assert Increasing(s, 0, 1);
    forall lo, hi | 0 <= lo <= hi <= |s| && hi - lo > 1
      ensures !Increasing(s, lo, hi)
    {
      assert !Rises(s, lo + 1);
    }
  }

  /** Restricting to a slice keeps the increasing segments, shifted by the
      slice's start. */
  lemma IncreasingInSlice(s: seq<int>, a: nat, b: nat, lo: nat, hi: nat)
    requires a <= b <= |s| && lo <= hi <= b - a
    ensures Increasing(s[a..b], lo, hi) <==> Increasing(s, a + lo, a + hi)
  {
    forall k | lo < k < hi ensures Rises(s[a..b], k) == Rises(s, a + k) {
      assert s[a..b][k] == s[a + k] && s[a..b][k - 1] == s[a + k - 1];
    }
    if Increasing(s, a + lo, a + hi) {
      forall k | lo < k < hi ensures Rises(s[a..b], k) {
        assert Rises(s, a + k);
      }
    }
    if Increasing(s[a..b], lo, hi) {
      forall k | a + lo < k < a + hi ensures Rises(s, k) {
        assert Rises(s[a..b], k - a);
      }
    }
  }

  /** Where an element is not greater than its predecessor (in particular where
      two neighbours are equal) no run crosses: the longest run of s is the
      longer of the longest runs of the two sides. */
  lemma BreakSplitsRuns(s: seq<int>, i: nat)
    requires 0 < i < |s| && s[i] <= s[i - 1]
    ensures LongestRun(s) == Max(LongestRun(s[..i]), LongestRun(s[i..]))
  {
    var left, right := s[..i], s[i..];
    assert left == s[0..i] && right == s[i..|s|];
    LongestRunIsMaximum(s);
    LongestRunIsMaximum(left);
    LongestRunIsMaximum(right);
    var m := Max(LongestRun(left), LongestRun(right));
    if LongestRun(right) <= LongestRun(left) {
      var lo, hi :| 0 <= lo <= hi <= |left| && Increasing(left, lo, hi) && hi - lo == LongestRun(left);
      IncreasingInSlice(s, 0, i, lo, hi);
    } else {
      var lo, hi :| 0 <= lo <= hi <= |right| && Increasing(right, lo, hi) && hi - lo == LongestRun(right);
      IncreasingInSlice(s, i, |s|, lo, hi);
      assert Increasing(s, i + lo, i + hi);
    }
    forall lo, hi | 0 <= lo < i < hi <= |s|
      ensures !Increasing(s, lo, hi)
    {
      assert !Rises(s, i);
    }
    forall lo, hi | 0 <= lo <= hi <= |s| && Increasing(s, lo, hi)
      ensures hi - lo <= m
    {
      if hi <= i {
        IncreasingInSlice(s, 0, i, lo, hi);
      } else if i <= lo {
        IncreasingInSlice(s, i, |s|, lo - i, hi - i);
      }
    }
    assert IsLongestRunLength(s, m);
  }

  /** The runs of the two example inputs. */
  lemma Examples()
    ensures LongestRun([1, 3, 5, 4, 7]) == 3
    ensures LongestRun([5, 4, 3, 2, 1]) == 1
    ensures LongestRun([]) == 0
  {
  }
}
