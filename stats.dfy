/** The descriptive statistics the pipeline relies on: the zero-variance test and linearly
    interpolated quantiles (the conventions pandas uses by default). */
module Stats {
  import opened Frames
  import opened RealArith

  /** pandas' `std() == 0` for the sample standard deviation (ddof 1). With fewer than two
      values the deviation is NaN, which never compares equal to 0; otherwise, over the
      reals, it is zero exactly when every value equals the mean, that is when all values
      are equal. */
  predicate StdIsZero(xs: seq<real>)
  {
    |xs| >= 2 && Constant(xs)
  }

  /** All values are equal. */
  predicate Constant(xs: seq<real>)
  {
    forall i :: 0 <= i < |xs| ==> xs[i] == xs[0]
  }

  /** Values in ascending order. */
  ghost predicate Ascending(s: seq<real>)
  {
    forall i, j :: 0 <= i < j < |s| ==> s[i] <= s[j]
  }

  function Identity(x: real): real { x }

  /** The values in ascending order. */
  function SortReals(xs: seq<real>): (r: seq<real>)
    ensures multiset(r) == multiset(xs) && |r| == |xs|
    ensures Ascending(r)
  {
    var r := SortBy(xs, Identity);
    assert forall i, j :: 0 <= i < j < |r| ==> Identity(r[i]) <= Identity(r[j]);
    r
  }

  /** The fractional rank of the `q`-quantile among `n` values: `(n - 1) * q`. */
  function Position(n: nat, q: real): (h: real)
    requires n > 0 && 0.0 <= q <= 1.0
    ensures 0.0 <= h <= (n - 1) as real
  {
    ScaledBetween((n - 1) as real, q);
    (n - 1) as real * q
  }

  /** Linear interpolation from `a` towards `b` by the fraction `t` (numpy's `_lerp`). */
  function Lerp(a: real, b: real, t: real): real
  {
    a + t * (b - a)
  }

  /** The `q`-quantile of ascending values by linear interpolation between the two
      closest ranks (the default of pandas' `Series.quantile`). */
  function Quantile(sorted: seq<real>, q: real): (r: real)
    requires |sorted| > 0 && 0.0 <= q <= 1.0
    requires Ascending(sorted)
    ensures sorted[0] <= r <= sorted[|sorted| - 1]
  {
    var lo := Rank(|sorted|, q);
    if lo + 1 < |sorted| then
      var t := Position(|sorted|, q) - lo as real;
      LerpBetween(sorted[lo], sorted[lo + 1], t);
      assert sorted[0] <= sorted[lo] && sorted[lo + 1] <= sorted[|sorted| - 1];
      Lerp(sorted[lo], sorted[lo + 1], t)
    else
      sorted[lo]
  }

  /** The lower rank the `q`-quantile of `n` values interpolates from. */
  function Rank(n: nat, q: real): (lo: nat)
    requires n > 0 && 0.0 <= q <= 1.0
    ensures lo < n
    ensures lo as real <= Position(n, q) < lo as real + 1.0
  {
    Position(n, q).Floor
  }

  lemma PositionMonotone(n: nat, q1: real, q2: real)
    requires n > 0 && 0.0 <= q1 <= q2 <= 1.0
    ensures Position(n, q1) <= Position(n, q2)
  {
    MulMonotone(q1, q2, (n - 1) as real);
  }

  lemma LerpBetween(a: real, b: real, t: real)
    requires a <= b && 0.0 <= t <= 1.0
    ensures a <= Lerp(a, b, t) <= b
  {
    MulMonotone(0.0, t, b - a);
    MulMonotone(t, 1.0, b - a);
    assert (b - a) * t == t * (b - a);
  }

  lemma LerpMonotone(a: real, b: real, t1: real, t2: real)
    requires a <= b && t1 <= t2
    ensures Lerp(a, b, t1) <= Lerp(a, b, t2)
  {
    MulMonotone(t1, t2, b - a);
    assert (b - a) * t1 == t1 * (b - a);
    assert (b - a) * t2 == t2 * (b - a);
  }

  /** A larger probability never gives a smaller quantile. */
  lemma QuantileMonotone(sorted: seq<real>, q1: real, q2: real)
    requires |sorted| > 0 && 0.0 <= q1 <= q2 <= 1.0
    requires Ascending(sorted)
    ensures Quantile(sorted, q1) <= Quantile(sorted, q2)
  {
    var n := |sorted|;
    var lo1, lo2 := Rank(n, q1), Rank(n, q2);
    PositionMonotone(n, q1, q2);
    assert lo1 <= lo2;
    if lo1 == lo2 {
      if lo1 + 1 < n {
        LerpMonotone(sorted[lo1], sorted[lo1 + 1], Position(n, q1) - lo1 as real, Position(n, q2) - lo2 as real);
      }
    } else {
      assert lo1 + 1 < n;
      LerpBetween(sorted[lo1], sorted[lo1 + 1], Position(n, q1) - lo1 as real);
      assert Quantile(sorted, q1) <= sorted[lo1 + 1];
      assert sorted[lo1 + 1] <= sorted[lo2];
      if lo2 + 1 < n {
        LerpBetween(sorted[lo2], sorted[lo2 + 1], Position(n, q2) - lo2 as real);
      }
      assert sorted[lo2] <= Quantile(sorted, q2);
    }
  }
}
