/** Hour-of-day validation and the shortest distance between two hours on a
    24-hour clock (`transform_time_to_cyclic_feature`,
    `calculate_time_difference_in_hours`). */
module CyclicTime {
  import opened Failures

  const HoursPerDay := 24

  /** The range check both functions apply: an hour lies in [0, 24). The
      accepted hours are exactly those already reduced modulo 24. */
  predicate IsHour(h: int): (b: bool)
    ensures b <==> h % HoursPerDay == h
  {
    0 <= h < HoursPerDay
  }

  function Abs(x: int): (r: nat)
    ensures r == x || r == -x
  {
    if x < 0 then -x else x
  }

  /** The range check of transform_time_to_cyclic_feature. On success the value
      is the hour itself, i.e. the angle measured in 24ths of a full turn; the
      sine and cosine of that angle are not modelled. */
  function TransformTimeToCyclicFeature(hour: int): (r: Result<int>)
    ensures r.Err? <==> hour < 0 || hour >= 24
    ensures r.Err? ==> r.error.ValueError?
    ensures r.Ok? ==> 0 <= r.value < 24 && r.value == hour
  {
    if hour < 0 || hour >= HoursPerDay then Err(ValueError("Hour must be between 0 and 23"))
    else Ok(hour)
  }

  /** calculate_time_difference_in_hours: the difference end - start taken
      modulo 24 (Python's `%` with a positive modulus is non-negative, as is
      Dafny's), folded into [0, 12]. */
  function TimeDifferenceInHours(start: int, end: int): (r: Result<int>)
    ensures r.Ok? <==> IsHour(start) && IsHour(end)
    ensures r.Err? ==> r.error.ValueError?
    ensures r.Ok? ==> 0 <= r.value <= 12
    ensures r.Ok? ==> (end - start - r.value) % 24 == 0 || (end - start + r.value) % 24 == 0
  {
    if start < 0 || start >= HoursPerDay || end < 0 || end >= HoursPerDay then
      Err(ValueError("Hours must be between 0 and 23"))
    else
      var diff := (end - start) % HoursPerDay;
      Ok(if diff > 12 then HoursPerDay - diff else diff)
  }

  /** Both functions reject exactly the same hours: the difference fails
      precisely when one of its arguments is rejected by the feature transform. */
  lemma SameRangeCheck(start: int, end: int)
    ensures TimeDifferenceInHours(start, end).Err? <==>
            TransformTimeToCyclicFeature(start).Err? || TransformTimeToCyclicFeature(end).Err?
  {
  }

  /** The difference is the shortest way around the clock: it is the distance
      |end - start + 24k| for some number k of whole days, and no such distance
      is shorter. */
  lemma DifferenceIsShortest(start: int, end: int)
    requires IsHour(start) && IsHour(end)
    ensures exists k :: TimeDifferenceInHours(start, end).value == Abs(end - start + 24 * k)
    ensures forall k :: TimeDifferenceInHours(start, end).value <= Abs(end - start + 24 * k)
  {
    var d := TimeDifferenceInHours(start, end).value;
    var x := (end - start) % 24;
    var delta := end - start;
    if delta >= 0 {
      assert x == delta;
    } else {
      assert x == delta + 24;
    }
    var m := if delta >= 0 then 0 else 1;
    assert delta + 24 * m == x;
    if x > 12 {
      assert d == Abs(delta + 24 * (m - 1));
    } else {
      assert d == Abs(delta + 24 * m);
    }
    forall k ensures d <= Abs(delta + 24 * k) {
      if k >= m {
        assert delta + 24 * k >= x;
      } else {
        assert delta + 24 * k <= x - 24;
      }
    }
  }

  /** The difference does not depend on the order of its arguments. */
  lemma DifferenceIsSymmetric(a: int, b: int)
    ensures TimeDifferenceInHours(a, b) == TimeDifferenceInHours(b, a)
  {
    if IsHour(a) && IsHour(b) {
      var x, y := (b - a) % 24, (a - b) % 24;
      if a <= b {
        assert x == b - a;
        assert y == if a == b then 0 else 24 - (b - a);
      } else {
        assert y == a - b;
        assert x == 24 - (a - b);
      }
    }
  }

  /** Two valid hours are zero apart exactly when they are the same hour. */
  lemma ZeroDifferenceIffSameHour(a: int, b: int)
    requires IsHour(a) && IsHour(b)
    ensures TimeDifferenceInHours(a, b).value == 0 <==> a == b
  {
  }

  /** The difference obeys the triangle inequality, so with symmetry and
      ZeroDifferenceIffSameHour it is a distance on the hours of a day. */
  lemma TriangleInequality(a: int, b: int, c: int)
    requires IsHour(a) && IsHour(b) && IsHour(c)
    ensures TimeDifferenceInHours(a, c).value <=
            TimeDifferenceInHours(a, b).value + TimeDifferenceInHours(b, c).value
  {
    DifferenceIsShortest(a, b);
    DifferenceIsShortest(b, c);
    DifferenceIsShortest(a, c);
    var k1 :| TimeDifferenceInHours(a, b).value == Abs(b - a + 24 * k1);
    var k2 :| TimeDifferenceInHours(b, c).value == Abs(c - b + 24 * k2);
    assert c - a + 24 * (k1 + k2) == (b - a + 24 * k1) + (c - b + 24 * k2);
    assert TimeDifferenceInHours(a, c).value <= Abs(c - a + 24 * (k1 + k2));
  }

  /** The cases exercised by the repository's tests. */
  lemma Examples()
    ensures TimeDifferenceInHours(23, 1) == Ok(2)
    ensures TimeDifferenceInHours(1, 23) == Ok(2)
    ensures TimeDifferenceInHours(12, 18) == Ok(6)
    ensures TimeDifferenceInHours(24, 1).Err? && TimeDifferenceInHours(1, -1).Err?
    ensures TransformTimeToCyclicFeature(24).Err? && TransformTimeToCyclicFeature(-1).Err?
    ensures forall h :: IsHour(h) ==> TimeDifferenceInHours(h, h) == Ok(0)
  {
  }
}
