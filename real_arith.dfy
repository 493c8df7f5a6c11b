/** Small facts of ordered-field arithmetic, each about a product or a quotient, stated on
    plain reals so that the solver proves them without any other context. */
module RealArith {

  lemma MulMonotone(a: real, b: real, d: real)
    requires a <= b && d >= 0.0
    ensures d * a <= d * b
  {
    assert d * b - d * a == d * (b - a);
  }

  lemma ScaledBetween(d: real, q: real)
    requires d >= 0.0 && 0.0 <= q <= 1.0
    ensures 0.0 <= d * q <= d
  {
  }

  lemma DivideNonPositive(a: real, b: real)
    requires a <= 0.0 && b > 0.0
    ensures a / b <= 0.0
  {
  }

  lemma DivideAtLeastOne(a: real, b: real)
    requires a >= b && b > 0.0
    ensures a / b >= 1.0
  {
  }

  lemma DivideMonotone(a1: real, a2: real, b: real)
    requires a1 <= a2 && b > 0.0
    ensures a1 / b <= a2 / b
  {
  }

  lemma QuotientBetween(s: real, u: real, lo: real, hi: real)
    requires u > 0.0 && lo * u <= s <= hi * u
    ensures lo <= s / u <= hi
  {
  }

  /** Adding a value within [lo, hi] with a positive weight keeps a weighted sum between
      the bounds times the total weight. */
  lemma BoundsStep(s: real, u: real, v: real, w: real, lo: real, hi: real)
    requires lo * u <= s <= hi * u && lo <= v <= hi && w > 0.0
    ensures lo * (u + w) <= s + v * w <= hi * (u + w)
  {
    MulMonotone(lo, v, w);
    MulMonotone(v, hi, w);
    assert lo * (u + w) == lo * u + lo * w;
    assert hi * (u + w) == hi * u + hi * w;
  }

  lemma PositiveProduct(a: real, f: real)
    requires f > 0.0
    ensures a * f > 0.0 <==> a > 0.0
    ensures a * f == 0.0 <==> a == 0.0
  {
    if a > 0.0 {
      assert a * f > 0.0;
    } else if a < 0.0 {
      MulMonotone(a, 0.0, f);
      assert (-a) * f > 0.0;
    }
  }

  lemma Associate(a: real, b: real, f: real)
    ensures a * (b * f) == (a * b) * f
  {
  }

  lemma MulCongruent(x: real, y: real, f: real)
    requires x == y
    ensures x * f == y * f
  {
  }

  /** A sum whose two parts both scale by `f` scales by `f`. */
  lemma SumScaled(total': real, part': real, term': real, total: real, part: real, term: real, f: real)
    requires total' == part' + term' && total == part + term
    requires part' == part * f && term' == term * f
    ensures total' == total * f
  {
    Distribute(part, term, f);
  }

  lemma Distribute(a: real, b: real, f: real)
    ensures (a + b) * f == a * f + b * f
  {
  }

  /** Scaling both sides of a quotient by the same positive factor leaves it unchanged. */
  lemma QuotientScaled(s': real, u': real, s: real, u: real, f: real)
    requires s' == s * f && u' == u * f && u != 0.0 && f > 0.0
    ensures u' != 0.0
    ensures s' / u' == s / u
  {
    PositiveProduct(u, f);
  }

  /** A weighted average with non-negative weights, one of them positive, lies between
      bounds that hold for both averaged values. */
  lemma ConvexCombination(p: real, a: real, w: real, c: real, lo: real, hi: real)
    requires p >= 0.0 && a > 0.0 && lo <= w <= hi && lo <= c <= hi
    ensures lo <= (p * w + a * c) / (p + a) <= hi
  {
    MulMonotone(lo, w, p);
    MulMonotone(w, hi, p);
    MulMonotone(lo, c, a);
    MulMonotone(c, hi, a);
    var s := p * w + a * c;
    assert p * lo + a * lo <= s;
    assert s <= p * hi + a * hi;
    assert lo * (p + a) == p * lo + a * lo;
    assert hi * (p + a) == p * hi + a * hi;
    QuotientBetween(p * w + a * c, p + a, lo, hi);
  }

  lemma SelfQuotient(u: real)
    requires u != 0.0
    ensures u / u == 1.0
  {
  }

  /** The midpoint of [low, high] lies halfway along it. */
  lemma MidpointRatio(low: real, high: real)
    requires low < high
    ensures ((low + high) / 2.0 - low) / (high - low) == 0.5
  {
    assert (low + high) / 2.0 - low == (high - low) * 0.5;
  }

  lemma AgedWeight(p: real, alpha: real)
    requires p >= 0.0 && 0.0 < alpha <= 1.0
    ensures p * (1.0 - alpha) >= 0.0
  {
    MulMonotone(0.0, p, 1.0 - alpha);
  }

  lemma NoGap(w: real, c: real, alpha: real)
    requires w == c
    ensures w + alpha * (c - w) == w
  {
  }

  /** With the past weighing 1, averaging `c` into `w` with weight alpha is the textbook
      update w + alpha * (c - w). */
  lemma SettledUpdate(w: real, c: real, alpha: real)
    ensures ((1.0 - alpha) * w + alpha * c) / ((1.0 - alpha) + alpha) == w + alpha * (c - w)
  {
    assert (1.0 - alpha) + alpha == 1.0;
  }

  /** The sum of a sequence of reals, adding from the front. */
  function Sum(s: seq<real>): real
  {
    if |s| == 0 then 0.0 else Sum(s[..|s| - 1]) + s[|s| - 1]
  }

  /** Scaling every term scales the sum. */
  lemma {:induction false} SumOfScaled(s: seq<real>, t: seq<real>, f: real)
    requires |s| == |t| && forall i :: 0 <= i < |s| ==> t[i] == s[i] * f
    ensures Sum(t) == Sum(s) * f
  {
    if |s| == 0 {
      assert 0.0 * f == 0.0;
    } else {
      var n := |s| - 1;
      SumOfScaled(s[..n], t[..n], f);
      SumScaled(Sum(t), Sum(t[..n]), t[n], Sum(s), Sum(s[..n]), s[n], f);
    }
  }

  /** The sum of a concatenation is the sum of the sums. */
  lemma {:induction false} SumAppend(a: seq<real>, b: seq<real>)
    ensures Sum(a + b) == Sum(a) + Sum(b)
  {
    if |b| > 0 {
      var n := |b| - 1;
      assert (a + b)[..|a + b| - 1] == a + b[..n];
      SumAppend(a, b[..n]);
    } else {
      assert a + b == a;
    }
  }

  /** A zero anywhere in a sequence does not change its sum. */
  lemma SumInsertZero(x: seq<real>, y: seq<real>)
    ensures Sum(x + [0.0] + y) == Sum(x + y)
  {
    SumAppend(x + [0.0], y);
    SumAppend(x, [0.0]);
    SumAppend(x, y);
    assert Sum([0.0]) == 0.0 by {
      assert [0.0][..0] == [];
    }
  }

  /** A sum of non-negative terms is non-negative, and zero exactly when every term is. */
  lemma {:induction false} SumNonNegative(u: seq<real>)
    requires forall i :: 0 <= i < |u| ==> u[i] >= 0.0
    ensures Sum(u) >= 0.0
    ensures Sum(u) == 0.0 <==> forall i :: 0 <= i < |u| ==> u[i] == 0.0
  {
    if |u| > 0 {
      var n := |u| - 1;
      SumNonNegative(u[..n]);
      assert forall i :: 0 <= i < n ==> u[..n][i] == u[i];
    }
  }

  /** `t` is `s` with every term multiplied by `f`. */
  predicate ScaledBy(s: seq<real>, t: seq<real>, f: real)
  {
    |s| == |t| && forall i :: 0 <= i < |s| ==> t[i] == s[i] * f
  }

  /** Scaling every term scales the sum, stated of named sums. */
  lemma SumOfScaledAt(s: seq<real>, t: seq<real>, f: real, x: real, y: real)
    requires ScaledBy(s, t, f)
    requires x == Sum(s) && y == Sum(t)
    ensures y == x * f
  {
    SumOfScaled(s, t, f);
  }

  /** Two bounded parts add up to a bounded whole. */
  lemma PartsBetween(st: real, a: real, b: real, su: real, ua: real, ub: real, lo: real, hi: real)
    requires st == a + b && su == ua + ub
    requires Within(a, ua, lo, hi) && Within(b, ub, lo, hi)
    ensures Within(st, su, lo, hi)
  {
    Distribute(ua, ub, lo);
    Distribute(ua, ub, hi);
    MulCongruent(su, ua + ub, lo);
    MulCongruent(su, ua + ub, hi);
    assert lo * su == ua * lo + ub * lo;
    assert hi * su == ua * hi + ub * hi;
  }

  /** `x` lies between `lo` and `hi` times the weight `w`. */
  predicate Within(x: real, w: real, lo: real, hi: real)
  {
    lo * w <= x <= hi * w
  }

  /** Each term of `t` lies between `lo` and `hi` times the matching weight in `u`. */
  predicate TermsWithin(t: seq<real>, u: seq<real>, lo: real, hi: real)
  {
    |t| == |u| && forall i :: 0 <= i < |t| ==> Within(t[i], u[i], lo, hi)
  }

  /** The same for named sums. */
  lemma SumBetweenAt(t: seq<real>, u: seq<real>, lo: real, hi: real, x: real, y: real)
    requires TermsWithin(t, u, lo, hi)
    requires x == Sum(t) && y == Sum(u)
    ensures Within(x, y, lo, hi)
  {
    SumBetween(t, u, lo, hi);
  }

  /** If each term lies between `lo` and `hi` times its weight, the sum of the terms lies
      between `lo` and `hi` times the sum of the weights. */
  lemma {:induction false} SumBetween(t: seq<real>, u: seq<real>, lo: real, hi: real)
    requires TermsWithin(t, u, lo, hi)
    ensures Within(Sum(t), Sum(u), lo, hi)
  {
    if |t| > 0 {
      var n := |t| - 1;
      SumBetween(t[..n], u[..n], lo, hi);
      PartsBetween(Sum(t), Sum(t[..n]), t[n], Sum(u), Sum(u[..n]), u[n], lo, hi);
    } else {
      assert Sum(u) == 0.0;
      assert lo * 0.0 == 0.0 && hi * 0.0 == 0.0;
    }
  }
}
