/** The index synthesiser (core/index_calculator.py): robust per-column scaling, weighted
    aggregation that renormalises the weights per row over the features present, smoothing
    by an exponential moving average, and a final clip to the target range. */
module IndexCalculator {
  import opened Wrappers
  import opened Frames
  import opened Stats
  import opened Config
  import opened RealArith

  /** The score given to every row of a column that cannot be scaled. */
  const NeutralScore: real := 50.0

  /** Columns with fewer valid values than this are not scaled. */
  const MinValidPoints: nat := 10

  /** The lower and upper clipping quantiles of robust scaling. */
  const LowerQuantile: real := 0.01
  const UpperQuantile: real := 0.99

  // ---------------------------------------------------------------------------
  // Robust normalisation of one column
  // ---------------------------------------------------------------------------

  /** The 1st and 99th percentiles of the valid values, in order, each at or inside the
      range of the values. */
  function RobustBounds(clean: seq<real>): (b: (real, real))
    requires |clean| > 0
    ensures b.0 <= b.1
    ensures exists i :: 0 <= i < |clean| && clean[i] <= b.0
    ensures exists j :: 0 <= j < |clean| && b.1 <= clean[j]
  {
    var sorted := SortReals(clean);
    QuantileMonotone(sorted, LowerQuantile, UpperQuantile);
    var p01, p99 := Quantile(sorted, LowerQuantile), Quantile(sorted, UpperQuantile);
    assert sorted[0] in multiset(clean) && sorted[|sorted| - 1] in multiset(clean);
    (p01, p99)
  }

  /** Where `v` falls between the two percentiles, 0 at `p01` and 1 at `p99`. */
  function Ratio(v: real, p01: real, p99: real): real
    requires p01 != p99
  {
    (v - p01) / (p99 - p01)
  }

  /** The linear map of [0, 1] onto [minVal, maxVal]. */
  function Stretch(x: real, minVal: real, maxVal: real): real
  {
    x * (maxVal - minVal) + minVal
  }

  /** One present value, scaled to the target range and clipped. */
  function Scale(v: real, p01: real, p99: real, minVal: real, maxVal: real): (r: real)
    requires p01 != p99
    ensures Min(minVal, maxVal) <= r <= Max(minVal, maxVal)
  {
    Clip(Stretch(Ratio(v, p01, p99), minVal, maxVal), minVal, maxVal)
  }

  /** A column whose every row is the neutral score. */
  function Neutral(n: nat): (r: seq<Cell>)
    ensures |r| == n && forall i :: 0 <= i < n ==> r[i] == Some(NeutralScore)
  {
    seq(n, _ => Some(NeutralScore))
  }

  /** `_normalize_zscore_minmax`: with fewer than ten valid values, or equal percentiles,
      every row (missing ones too) becomes the neutral score; otherwise each present value
      is scaled between the percentiles into the target range and missing rows stay missing. */
  function NormalizeZscoreMinmax(cells: seq<Cell>, minVal: real, maxVal: real): (r: seq<Cell>)
    ensures |r| == |cells|
    ensures |Present(cells)| < MinValidPoints ==> r == Neutral(|cells|)
    ensures |Present(cells)| >= MinValidPoints ==>
      var (p01, p99) := RobustBounds(Present(cells));
      (p01 == p99 ==> r == Neutral(|cells|)) &&
      (p01 != p99 ==> forall i :: 0 <= i < |cells| ==>
        (r[i].None? <==> cells[i].None?) &&
        (r[i].Some? ==> Min(minVal, maxVal) <= r[i].value <= Max(minVal, maxVal)))
  {
    var clean := Present(cells);
    if |clean| < MinValidPoints then Neutral(|cells|)
    else
      var (p01, p99) := RobustBounds(clean);
      if p99 == p01 then Neutral(|cells|)
      else
        seq(|cells|, i requires 0 <= i < |cells| =>
          match cells[i]
          case None => None
          case Some(v) => Some(Scale(v, p01, p99, minVal, maxVal)))
  }

  lemma StretchMonotone(x1: real, x2: real, minVal: real, maxVal: real)
    requires x1 <= x2 && minVal <= maxVal
    ensures Stretch(x1, minVal, maxVal) <= Stretch(x2, minVal, maxVal)
  {
    MulMonotone(x1, x2, maxVal - minVal);
    assert (maxVal - minVal) * x1 == x1 * (maxVal - minVal);
    assert (maxVal - minVal) * x2 == x2 * (maxVal - minVal);
  }

  lemma StretchEnds(minVal: real, maxVal: real)
    ensures Stretch(0.0, minVal, maxVal) == minVal && Stretch(1.0, minVal, maxVal) == maxVal
  {
  }

  /** Scaling sends values at or below the 1st percentile to `minVal`, values at or above
      the 99th to `maxVal`, and never reverses the order of two values. */
  lemma ScaleProperties(v: real, w: real, p01: real, p99: real, minVal: real, maxVal: real)
    requires p01 < p99 && minVal <= maxVal
    ensures v <= p01 ==> Scale(v, p01, p99, minVal, maxVal) == minVal
    ensures v >= p99 ==> Scale(v, p01, p99, minVal, maxVal) == maxVal
    ensures v <= w ==> Scale(v, p01, p99, minVal, maxVal) <= Scale(w, p01, p99, minVal, maxVal)
  {
    StretchEnds(minVal, maxVal);
    if v <= p01 {
      DivideNonPositive(v - p01, p99 - p01);
      StretchMonotone(Ratio(v, p01, p99), 0.0, minVal, maxVal);
    }
    if v >= p99 {
      DivideAtLeastOne(v - p01, p99 - p01);
      StretchMonotone(1.0, Ratio(v, p01, p99), minVal, maxVal);
    }
    if v <= w {
      DivideMonotone(v - p01, w - p01, p99 - p01);
      StretchMonotone(Ratio(v, p01, p99), Ratio(w, p01, p99), minVal, maxVal);
    }
  }

  /** With enough valid values and distinct percentiles, present values at or below the
      1st percentile give `minVal`, at or above the 99th give `maxVal`, and the order of
      values is kept. */
  lemma NormalizeOrderPreserving(cells: seq<Cell>, minVal: real, maxVal: real, i: nat, j: nat)
    requires minVal <= maxVal
    requires |Present(cells)| >= MinValidPoints
    requires RobustBounds(Present(cells)).0 != RobustBounds(Present(cells)).1
    requires i < |cells| && j < |cells| && cells[i].Some? && cells[j].Some?
    ensures var r := NormalizeZscoreMinmax(cells, minVal, maxVal);
      var (p01, p99) := RobustBounds(Present(cells));
      (cells[i].value <= p01 ==> r[i] == Some(minVal)) &&
      (cells[i].value >= p99 ==> r[i] == Some(maxVal)) &&
      (cells[i].value <= cells[j].value ==> r[i].value <= r[j].value)
  {
    var (p01, p99) := RobustBounds(Present(cells));
    ScaleProperties(cells[i].value, cells[j].value, p01, p99, minVal, maxVal);
  }

  // ---------------------------------------------------------------------------
  // Normalising every column of the feature matrix
  // ---------------------------------------------------------------------------

  /** A column `_normalize_features` leaves out: its standard deviation is zero, or every
      value is missing. */
  predicate Skipped(c: Column)
  {
    StdIsZero(Present(c.cells)) || |Present(c.cells)| == 0
  }

  /** The normalised columns, in input order, without the skipped ones. */
  function NormalizedColumns(cols: seq<Column>, minVal: real, maxVal: real): (r: seq<Column>)
    ensures |r| <= |cols|
  {
    if |cols| == 0 then []
    else
      var rest := NormalizedColumns(cols[..|cols| - 1], minVal, maxVal);
      var c := cols[|cols| - 1];
      if Skipped(c) then rest
      else rest + [Column(c.name, NormalizeZscoreMinmax(c.cells, minVal, maxVal))]
  }

  /** `_normalize_features`: a table on the input's index, adding one normalised column per
      input column that is not skipped. */
  method NormalizeFeatures(features: Frame, cfg: IndexConfig) returns (normalized: Frame)
    ensures normalized == Frame(features.index, NormalizedColumns(features.columns, cfg.minValue, cfg.maxValue))
  {
    normalized := Frame(features.index, []);
    var i := 0;
    while i < |features.columns|
      invariant 0 <= i <= |features.columns|
      invariant normalized == Frame(features.index, NormalizedColumns(features.columns[..i], cfg.minValue, cfg.maxValue))
    {
      var col := features.columns[i];
      assert features.columns[..i + 1][..i] == features.columns[..i];
      if !Skipped(col) {
        var cells := NormalizeZscoreMinmax(col.cells, cfg.minValue, cfg.maxValue);
        normalized := normalized.(columns := normalized.columns + [Column(col.name, cells)]);
      }
      i := i + 1;
    }
    assert features.columns[..i] == features.columns;
  }

  /** Exactly the columns that are not skipped are kept, each normalised under its own
      name, and the table stays well formed. */
  lemma {:induction false} NormalizedColumnsSpec(cols: seq<Column>, n: nat, minVal: real, maxVal: real)
    requires forall c :: c in cols ==> |c.cells| == n
    ensures forall c :: c in cols && !Skipped(c) ==>
      Column(c.name, NormalizeZscoreMinmax(c.cells, minVal, maxVal)) in NormalizedColumns(cols, minVal, maxVal)
    ensures forall d :: d in NormalizedColumns(cols, minVal, maxVal) ==>
      exists c :: c in cols && !Skipped(c) && d == Column(c.name, NormalizeZscoreMinmax(c.cells, minVal, maxVal))
    ensures forall d :: d in NormalizedColumns(cols, minVal, maxVal) ==> |d.cells| == n
    ensures NormalizedColumns(cols, minVal, maxVal) == [] <==> forall c :: c in cols ==> Skipped(c)
  {
    if |cols| > 0 {
      var init := cols[..|cols| - 1];
      assert cols == init + [cols[|cols| - 1]];
      assert forall c :: c in init ==> c in cols;
      NormalizedColumnsSpec(init, n, minVal, maxVal);
    }
  }

  /** A column with a single valid value has an undefined standard deviation, so it is kept,
      and having fewer than ten valid values it becomes the neutral score everywhere. */
  lemma SingleValueColumnIsNeutral(c: Column, minVal: real, maxVal: real)
    requires |Present(c.cells)| == 1
    ensures !Skipped(c)
    ensures NormalizeZscoreMinmax(c.cells, minVal, maxVal) == Neutral(|c.cells|)
  {
  }

  // ---------------------------------------------------------------------------
  // Weighted aggregation with per-row renormalisation
  // ---------------------------------------------------------------------------

  /** A column's weight; a name absent from the mapping weighs 0. */
  function Weight(weights: map<string, real>, name: string): real
  {
    if name in weights then weights[name] else 0.0
  }

  /** Every column has a cell in row `k`. */
  ghost predicate HasRow(cols: seq<Column>, k: nat)
  {
    forall c :: c in cols ==> k < |c.cells|
  }

  /** Column `c` counts in row `k`: its weight is positive and its value there is present. */
  predicate Contributes(c: Column, weights: map<string, real>, k: nat)
    requires k < |c.cells|
  {
    Weight(weights, c.name) > 0.0 && c.cells[k].Some?
  }

  /** What column `c` adds to the weighted sum of row `k`. */
  function Term(c: Column, weights: map<string, real>, k: nat): real
    requires k < |c.cells|
  {
    if Contributes(c, weights, k) then c.cells[k].value * Weight(weights, c.name) else 0.0
  }

  /** What column `c` adds to the weights used in row `k`: its weight when it contributes,
      otherwise nothing. */
  function Used(c: Column, weights: map<string, real>, k: nat): (r: real)
    requires k < |c.cells|
    ensures r >= 0.0
    ensures r == 0.0 <==> !Contributes(c, weights, k)
  {
    if Contributes(c, weights, k) then Weight(weights, c.name) else 0.0
  }

  /** The shares of every column in the weighted sum of row `k`. */
  function Terms(cols: seq<Column>, weights: map<string, real>, k: nat): (r: seq<real>)
    requires HasRow(cols, k)
    ensures |r| == |cols|
  {
    seq(|cols|, i requires 0 <= i < |cols| => Term(cols[i], weights, k))
  }

  /** The shares of every column in the weights used in row `k`. */
  function Useds(cols: seq<Column>, weights: map<string, real>, k: nat): (r: seq<real>)
    requires HasRow(cols, k)
    ensures |r| == |cols|
  {
    seq(|cols|, i requires 0 <= i < |cols| => Used(cols[i], weights, k))
  }

  /** The sum of weight times value over the contributing columns of row `k`. */
  function WeightedSum(cols: seq<Column>, weights: map<string, real>, k: nat): real
    requires HasRow(cols, k)
  {
    Sum(Terms(cols, weights, k))
  }

  /** The sum of the weights of the contributing columns of row `k`. */
  function WeightsUsed(cols: seq<Column>, weights: map<string, real>, k: nat): real
    requires HasRow(cols, k)
  {
    Sum(Useds(cols, weights, k))
  }

  /** The raw index of row `k`: the weighted sum over the weights actually used, or missing
      when no weighted feature is present (pandas' 0/0); so it is missing exactly when no
      weighted feature is present in the row. */
  function RowAverage(cols: seq<Column>, weights: map<string, real>, k: nat): (r: Cell)
    requires HasRow(cols, k)
    ensures r.None? <==> forall c :: c in cols ==> !Contributes(c, weights, k)
  {
    WeightsUsedZeroIff(cols, weights, k);
    var used := WeightsUsed(cols, weights, k);
    if used == 0.0 then None else Some(WeightedSum(cols, weights, k) / used)
  }

  /** Appending a column adds its shares to both sums. */
  lemma SharesAppend(cols: seq<Column>, c: Column, weights: map<string, real>, k: nat)
    requires HasRow(cols + [c], k)
    ensures HasRow(cols, k) && k < |c.cells|
    ensures WeightedSum(cols + [c], weights, k) == WeightedSum(cols, weights, k) + Term(c, weights, k)
    ensures WeightsUsed(cols + [c], weights, k) == WeightsUsed(cols, weights, k) + Used(c, weights, k)
  {
    assert forall d :: d in cols ==> d in cols + [c];
    assert c in cols + [c];
    var t, u := Terms(cols + [c], weights, k), Useds(cols + [c], weights, k);
    assert t[..|cols|] == Terms(cols, weights, k);
    assert u[..|cols|] == Useds(cols, weights, k);
  }

  /** `_apply_weights`: accumulates, column by column, the weighted values and the weights
      used in each row, then divides. */
  method ApplyWeights(normalized: Frame, weights: map<string, real>) returns (raw: seq<Cell>)
    requires normalized.Valid()
    ensures |raw| == |normalized.index|
    ensures forall k :: 0 <= k < |raw| ==> HasRow(normalized.columns, k) && raw[k] == RowAverage(normalized.columns, weights, k)
  {
    var n := |normalized.index|;
    var cols := normalized.columns;
    var weightedSum := seq(n, _ => 0.0);
    var weightsUsed := seq(n, _ => 0.0);
    var i := 0;
    while i < |cols|
      invariant 0 <= i <= |cols|
      invariant |weightedSum| == n && |weightsUsed| == n
      invariant forall k :: 0 <= k < n ==>
        (HasRow(cols[..i], k) &&
         weightedSum[k] == WeightedSum(cols[..i], weights, k) &&
         weightsUsed[k] == WeightsUsed(cols[..i], weights, k))
    {
      var col := cols[i];
      forall k | 0 <= k < n
        ensures HasRow(cols[..i + 1], k) && k < |col.cells|
        ensures WeightedSum(cols[..i + 1], weights, k) == WeightedSum(cols[..i], weights, k) + Term(col, weights, k)
        ensures WeightsUsed(cols[..i + 1], weights, k) == WeightsUsed(cols[..i], weights, k) + Used(col, weights, k)
      {
        assert cols[..i + 1] == cols[..i] + [col];
        assert forall d :: d in cols[..i + 1] ==> d in cols;
        SharesAppend(cols[..i], col, weights, k);
      }
      var weight := Weight(weights, col.name);
      if weight > 0.0 {
        var ws, wu := weightedSum, weightsUsed;
        weightedSum := seq(n, k requires 0 <= k < n =>
          if col.cells[k].Some? then ws[k] + col.cells[k].value * weight else ws[k]);
        weightsUsed := seq(n, k requires 0 <= k < n =>
          if col.cells[k].Some? then wu[k] + weight else wu[k]);
      }
      i := i + 1;
    }
    assert cols[..i] == cols;
    raw := seq(n, k requires 0 <= k < n =>
      if weightsUsed[k] == 0.0 then None else Some(weightedSum[k] / weightsUsed[k]));
  }

  /** The weights used are never negative, and are zero exactly when no column contributes. */
  lemma WeightsUsedZeroIff(cols: seq<Column>, weights: map<string, real>, k: nat)
    requires HasRow(cols, k)
    ensures WeightsUsed(cols, weights, k) >= 0.0
    ensures WeightsUsed(cols, weights, k) == 0.0 <==> forall c :: c in cols ==> !Contributes(c, weights, k)
  {
    var u := Useds(cols, weights, k);
    SumNonNegative(u);
    if forall c :: c in cols ==> !Contributes(c, weights, k) {
      assert forall i :: 0 <= i < |u| ==> u[i] == 0.0 by {
        forall i | 0 <= i < |u| ensures u[i] == 0.0 {
          assert cols[i] in cols;
        }
      }
    }
    if forall i :: 0 <= i < |u| ==> u[i] == 0.0 {
      forall c | c in cols ensures !Contributes(c, weights, k) {
        var i :| 0 <= i < |cols| && cols[i] == c;
        assert u[i] == 0.0;
      }
    }
  }

  /** One column's share lies between `lo` and `hi` times its weight when its value does. */
  lemma TermBetween(c: Column, weights: map<string, real>, k: nat, lo: real, hi: real)
    requires k < |c.cells|
    requires Contributes(c, weights, k) ==> lo <= c.cells[k].value <= hi
    ensures lo * Used(c, weights, k) <= Term(c, weights, k) <= hi * Used(c, weights, k)
  {
    if Contributes(c, weights, k) {
      var v, w := c.cells[k].value, Weight(weights, c.name);
      MulMonotone(lo, v, w);
      MulMonotone(v, hi, w);
    } else {
      MulCongruent(Used(c, weights, k), 0.0, lo);
      MulCongruent(Used(c, weights, k), 0.0, hi);
    }
  }

  /** The weighted sum lies between the weights used times a lower and an upper bound of the
      contributing values. */
  lemma WeightedSumBounds(cols: seq<Column>, weights: map<string, real>, k: nat, lo: real, hi: real)
    requires HasRow(cols, k)
    requires forall c :: c in cols && Contributes(c, weights, k) ==> lo <= c.cells[k].value <= hi
    ensures lo * WeightsUsed(cols, weights, k) <= WeightedSum(cols, weights, k) <= hi * WeightsUsed(cols, weights, k)
  {
    var t, u := Terms(cols, weights, k), Useds(cols, weights, k);
    TermsBetween(cols, weights, k, lo, hi);
    SumBetweenAt(t, u, lo, hi, WeightedSum(cols, weights, k), WeightsUsed(cols, weights, k));
  }

  lemma TermsBetween(cols: seq<Column>, weights: map<string, real>, k: nat, lo: real, hi: real)
    requires HasRow(cols, k)
    requires forall c :: c in cols && Contributes(c, weights, k) ==> lo <= c.cells[k].value <= hi
    ensures TermsWithin(Terms(cols, weights, k), Useds(cols, weights, k), lo, hi)
  {
    forall i | 0 <= i < |cols|
      ensures lo * Useds(cols, weights, k)[i] <= Terms(cols, weights, k)[i] <= hi * Useds(cols, weights, k)[i]
    {
      assert cols[i] in cols;
      TermBetween(cols[i], weights, k, lo, hi);
    }
  }

  /** Per-row reallocation: the raw index is a convex combination of the contributing
      values, so it lies within any bounds that hold for all of them. */
  lemma RowAverageBetween(cols: seq<Column>, weights: map<string, real>, k: nat, lo: real, hi: real)
    requires HasRow(cols, k)
    requires forall c :: c in cols && Contributes(c, weights, k) ==> lo <= c.cells[k].value <= hi
    ensures RowAverage(cols, weights, k).Some? ==> lo <= RowAverage(cols, weights, k).value <= hi
  {
    var s, u := WeightedSum(cols, weights, k), WeightsUsed(cols, weights, k);
    WeightedSumBounds(cols, weights, k, lo, hi);
    WeightsUsedZeroIff(cols, weights, k);
    if u != 0.0 {
      QuotientBetween(s, u, lo, hi);
    }
  }

  /** A row with a single contributing feature takes that feature's value: its weight is
      fully reallocated to it. */
  lemma RowAverageSingle(cols: seq<Column>, weights: map<string, real>, k: nat, c: Column)
    requires HasRow(cols, k) && c in cols && Contributes(c, weights, k)
    requires forall d :: d in cols && Contributes(d, weights, k) ==> d == c
    ensures RowAverage(cols, weights, k) == c.cells[k]
  {
    RowAverageBetween(cols, weights, k, c.cells[k].value, c.cells[k].value);
  }

  /** The mapping with every weight multiplied by `factor`. */
  function ScaleWeights(weights: map<string, real>, factor: real): (r: map<string, real>)
    ensures r.Keys == weights.Keys
  {
    map n | n in weights :: weights[n] * factor
  }

  lemma ScaledWeight(weights: map<string, real>, factor: real, name: string)
    ensures Weight(ScaleWeights(weights, factor), name) == Weight(weights, name) * factor
  {
    if name !in weights {
      assert 0.0 * factor == 0.0;
    }
  }

  /** A column's shares scale with its weight. */
  lemma TermScaled(c: Column, weights: map<string, real>, scaled: map<string, real>, k: nat, factor: real)
    requires k < |c.cells| && factor > 0.0
    requires Weight(scaled, c.name) == Weight(weights, c.name) * factor
    ensures Term(c, scaled, k) == Term(c, weights, k) * factor
    ensures Used(c, scaled, k) == Used(c, weights, k) * factor
  {
    var w := Weight(weights, c.name);
    PositiveProduct(w, factor);
    if Contributes(c, weights, k) {
      Associate(c.cells[k].value, w, factor);
    }
  }

  /** Every column's shares scale with the weights. */
  lemma SharesScaled(cols: seq<Column>, weights: map<string, real>, scaled: map<string, real>, k: nat, factor: real)
    requires HasRow(cols, k) && factor > 0.0
    requires forall c :: c in cols ==> Weight(scaled, c.name) == Weight(weights, c.name) * factor
    ensures ScaledBy(Terms(cols, weights, k), Terms(cols, scaled, k), factor)
    ensures ScaledBy(Useds(cols, weights, k), Useds(cols, scaled, k), factor)
  {
    forall i | 0 <= i < |cols|
      ensures Terms(cols, scaled, k)[i] == Terms(cols, weights, k)[i] * factor
      ensures Useds(cols, scaled, k)[i] == Useds(cols, weights, k)[i] * factor
    {
      assert cols[i] in cols;
      TermScaled(cols[i], weights, scaled, k, factor);
    }
  }

  /** Multiplying every weight by the same positive factor leaves the raw index unchanged. */
  lemma RowAverageScaleInvariant(cols: seq<Column>, weights: map<string, real>, k: nat, factor: real)
    requires HasRow(cols, k) && factor > 0.0
    ensures RowAverage(cols, ScaleWeights(weights, factor), k) == RowAverage(cols, weights, k)
  {
    var scaled := ScaleWeights(weights, factor);
    ColumnsScaled(cols, weights, factor);
    SumsScaled(cols, weights, scaled, k, factor);
    var s, u := WeightedSum(cols, weights, k), WeightsUsed(cols, weights, k);
    var s', u' := WeightedSum(cols, scaled, k), WeightsUsed(cols, scaled, k);
    PositiveProduct(u, factor);
    if u != 0.0 {
      QuotientScaled(s', u', s, u, factor);
    }
  }

  /** Both sums of a row scale with the weights. */
  lemma SumsScaled(cols: seq<Column>, weights: map<string, real>, scaled: map<string, real>, k: nat, factor: real)
    requires HasRow(cols, k) && factor > 0.0
    requires forall c :: c in cols ==> Weight(scaled, c.name) == Weight(weights, c.name) * factor
    ensures WeightedSum(cols, scaled, k) == WeightedSum(cols, weights, k) * factor
    ensures WeightsUsed(cols, scaled, k) == WeightsUsed(cols, weights, k) * factor
  {
    SharesScaled(cols, weights, scaled, k, factor);
    WeightedSumScaled(cols, weights, scaled, k, factor);
    WeightsUsedScaled(cols, weights, scaled, k, factor);
  }

  lemma WeightedSumScaled(cols: seq<Column>, weights: map<string, real>, scaled: map<string, real>, k: nat, factor: real)
    requires HasRow(cols, k)
    requires ScaledBy(Terms(cols, weights, k), Terms(cols, scaled, k), factor)
    ensures WeightedSum(cols, scaled, k) == WeightedSum(cols, weights, k) * factor
  {
    var t, t' := Terms(cols, weights, k), Terms(cols, scaled, k);
    SumOfScaledAt(t, t', factor, WeightedSum(cols, weights, k), WeightedSum(cols, scaled, k));
  }

  lemma WeightsUsedScaled(cols: seq<Column>, weights: map<string, real>, scaled: map<string, real>, k: nat, factor: real)
    requires HasRow(cols, k)
    requires ScaledBy(Useds(cols, weights, k), Useds(cols, scaled, k), factor)
    ensures WeightsUsed(cols, scaled, k) == WeightsUsed(cols, weights, k) * factor
  {
    var u, u' := Useds(cols, weights, k), Useds(cols, scaled, k);
    SumOfScaledAt(u, u', factor, WeightsUsed(cols, weights, k), WeightsUsed(cols, scaled, k));
  }

  lemma ColumnsScaled(cols: seq<Column>, weights: map<string, real>, factor: real)
    ensures forall c :: c in cols ==> Weight(ScaleWeights(weights, factor), c.name) == Weight(weights, c.name) * factor
  {
    forall c | c in cols
      ensures Weight(ScaleWeights(weights, factor), c.name) == Weight(weights, c.name) * factor
    {
      ScaledWeight(weights, factor, c.name);
    }
  }

  /** A column without positive weight, wherever it stands, does not change the raw index;
      so a feature absent from the weights never contributes. */
  lemma RowAverageIgnoresUnweighted(a: seq<Column>, c: Column, b: seq<Column>, weights: map<string, real>, k: nat)
    requires HasRow(a + [c] + b, k)
    requires Weight(weights, c.name) <= 0.0
    ensures HasRow(a + b, k)
    ensures RowAverage(a + [c] + b, weights, k) == RowAverage(a + b, weights, k)
  {
    var whole := a + [c] + b;
    assert forall d :: d in a + b ==> d in whole;
    SharesInsertZero(a, c, b, weights, k);
    var t, u := Terms(a + b, weights, k), Useds(a + b, weights, k);
    SumInsertZero(t[..|a|], t[|a|..]);
    SumInsertZero(u[..|a|], u[|a|..]);
    assert t[..|a|] + t[|a|..] == t;
    assert u[..|a|] + u[|a|..] == u;
  }

  /** An unweighted column puts a zero share into both sums, at its own position. */
  lemma SharesInsertZero(a: seq<Column>, c: Column, b: seq<Column>, weights: map<string, real>, k: nat)
    requires HasRow(a + [c] + b, k) && HasRow(a + b, k)
    requires Weight(weights, c.name) <= 0.0
    ensures var t := Terms(a + b, weights, k);
      Terms(a + [c] + b, weights, k) == t[..|a|] + [0.0] + t[|a|..]
    ensures var u := Useds(a + b, weights, k);
      Useds(a + [c] + b, weights, k) == u[..|a|] + [0.0] + u[|a|..]
  {
    assert c in a + [c] + b;
  }

  // ---------------------------------------------------------------------------
  // Exponential moving average (pandas' ewm(span, adjust=False).mean())
  // ---------------------------------------------------------------------------

  /** The smoothing factor for a span: 2 / (span + 1). */
  function Alpha(span: int): (a: real)
    requires span >= 1
    ensures 0.0 < a <= 1.0
  {
    2.0 / (span as real + 1.0)
  }

  /** The default span of 5 smooths with alpha = 1/3. */
  lemma DefaultAlpha()
    ensures DefaultIndexConfig.emaSpan >= 1 && Alpha(DefaultIndexConfig.emaSpan) == 1.0 / 3.0
  {
    DefaultIndexSettings();
  }

  /** The running state of the average: the current mean (missing before the first value)
      and the weight of the past relative to the next value. */
  datatype EwmState = EwmState(weighted: Cell, oldWeight: real)

  const InitialEwmState: EwmState := EwmState(None, 1.0)

  /** The weight of the past after one more step. */
  function Aged(oldWeight: real, alpha: real): real
  {
    oldWeight * (1.0 - alpha)
  }

  /** The mean `w`, with the past weighing `aged`, averaged with `c` weighing alpha. */
  function Blend(aged: real, w: real, c: real, alpha: real): real
    requires aged + alpha != 0.0
  {
    (aged * w + alpha * c) / (aged + alpha)
  }

  /** One step of pandas' recurrence for `adjust=False` without ignoring missing values: a
      missing value ages the past by (1 - alpha) and repeats the mean; a present value is
      averaged in with weight alpha, after which the past weighs 1 again. */
  function EwmStep(s: EwmState, x: Cell, alpha: real): (r: EwmState)
    requires 0.0 < alpha <= 1.0 && s.oldWeight >= 0.0
    ensures r.oldWeight >= 0.0
  {
    match s.weighted
    case None =>
      (match x
       case Some(c) => EwmState(Some(c), s.oldWeight)
       case None => s)
    case Some(w) =>
      AgedWeight(s.oldWeight, alpha);
      var aged := Aged(s.oldWeight, alpha);
      match x
      case None => EwmState(Some(w), aged)
      case Some(c) => EwmState(Some(if w != c then Blend(aged, w, c, alpha) else w), 1.0)
  }

  /** The state after each input. */
  function EwmStates(xs: seq<Cell>, alpha: real): (r: seq<EwmState>)
    requires 0.0 < alpha <= 1.0
    ensures |r| == |xs|
    ensures forall t :: 0 <= t < |r| ==> r[t].oldWeight >= 0.0
  {
    if |xs| == 0 then []
    else
      var prev := EwmStates(xs[..|xs| - 1], alpha);
      var s := if |prev| == 0 then InitialEwmState else prev[|prev| - 1];
      prev + [EwmStep(s, xs[|xs| - 1], alpha)]
  }

  /** The smoothed series, one cell per input: missing exactly on the leading run of
      missing inputs, and equal to the first input when that is present. */
  function EwmMean(xs: seq<Cell>, span: int): (r: seq<Cell>)
    requires span >= 1
    ensures |r| == |xs|
    ensures forall t :: 0 <= t < |xs| ==> (r[t].None? <==> forall i :: 0 <= i <= t ==> xs[i].None?)
    ensures |xs| > 0 && xs[0].Some? ==> r[0] == xs[0]
  {
    EwmMissingIffLeading(xs, Alpha(span));
    EwmStatesFirst(xs, Alpha(span));
    var states := EwmStates(xs, Alpha(span));
    seq(|xs|, i requires 0 <= i < |xs| => states[i].weighted)
  }

  /** The first state is one step from the initial state. */
  lemma EwmStatesFirst(xs: seq<Cell>, alpha: real)
    requires 0.0 < alpha <= 1.0
    ensures |xs| > 0 ==> EwmStates(xs, alpha)[0] == EwmStep(InitialEwmState, xs[0], alpha)
  {
    if |xs| > 0 {
      EwmStatesStep(xs, alpha, 0);
    }
  }

  /** One step keeps the mean within bounds that hold for the previous mean and the input. */
  lemma StepBetween(s: EwmState, x: Cell, alpha: real, lo: real, hi: real)
    requires 0.0 < alpha <= 1.0 && s.oldWeight >= 0.0
    requires s.weighted.Some? ==> lo <= s.weighted.value <= hi
    requires x.Some? ==> lo <= x.value <= hi
    ensures var r := EwmStep(s, x, alpha); r.weighted.Some? ==> lo <= r.weighted.value <= hi
  {
    if s.weighted.Some? && x.Some? && s.weighted.value != x.value {
      var w, c := s.weighted.value, x.value;
      AgedWeight(s.oldWeight, alpha);
      var aged := Aged(s.oldWeight, alpha);
      assert EwmStep(s, x, alpha).weighted == Some(Blend(aged, w, c, alpha));
      BlendBetween(aged, w, c, alpha, lo, hi);
    }
  }

  /** A blend lies between bounds that hold for both of its values. */
  lemma BlendBetween(aged: real, w: real, c: real, alpha: real, lo: real, hi: real)
    requires aged >= 0.0 && alpha > 0.0 && lo <= w <= hi && lo <= c <= hi
    ensures lo <= Blend(aged, w, c, alpha) <= hi
  {
    ConvexCombination(aged, alpha, w, c, lo, hi);
  }

  /** If every present input lies in [lo, hi], so does every present mean. */
  lemma {:induction false} EwmStatesBetween(xs: seq<Cell>, alpha: real, lo: real, hi: real)
    requires 0.0 < alpha <= 1.0
    requires forall i :: 0 <= i < |xs| && xs[i].Some? ==> lo <= xs[i].value <= hi
    ensures forall t :: 0 <= t < |xs| && EwmStates(xs, alpha)[t].weighted.Some? ==>
      lo <= EwmStates(xs, alpha)[t].weighted.value <= hi
  {
    if |xs| > 0 {
      var init := xs[..|xs| - 1];
      EwmStatesBetween(init, alpha, lo, hi);
      var prev := EwmStates(init, alpha);
      var s := if |prev| == 0 then InitialEwmState else prev[|prev| - 1];
      StepBetween(s, xs[|xs| - 1], alpha, lo, hi);
    }
  }

  /** Smoothing keeps the length and stays within the range of the present inputs. */
  lemma EwmMeanBetween(xs: seq<Cell>, span: int, lo: real, hi: real)
    requires span >= 1
    requires forall i :: 0 <= i < |xs| && xs[i].Some? ==> lo <= xs[i].value <= hi
    ensures |EwmMean(xs, span)| == |xs|
    ensures forall t :: 0 <= t < |xs| && EwmMean(xs, span)[t].Some? ==> lo <= EwmMean(xs, span)[t].value <= hi
  {
    EwmStatesBetween(xs, Alpha(span), lo, hi);
  }

  /** The mean is missing exactly on the leading run of missing inputs. */
  lemma {:induction false} EwmMissingIffLeading(xs: seq<Cell>, alpha: real)
    requires 0.0 < alpha <= 1.0
    ensures forall t :: 0 <= t < |xs| ==>
      (EwmStates(xs, alpha)[t].weighted.None? <==> forall i :: 0 <= i <= t ==> xs[i].None?)
  {
    if |xs| > 0 {
      var init := xs[..|xs| - 1];
      EwmMissingIffLeading(init, alpha);
      forall t | 0 <= t < |init|
        ensures EwmStates(xs, alpha)[t] == EwmStates(init, alpha)[t]
        ensures forall i :: 0 <= i <= t ==> xs[i] == init[i]
      {
      }
    }
  }

  lemma BlendSettled(w: real, c: real, alpha: real)
    requires 0.0 < alpha <= 1.0
    ensures Blend(Aged(1.0, alpha), w, c, alpha) == w + alpha * (c - w)
  {
    var aged := Aged(1.0, alpha);
    assert aged == 1.0 - alpha;
    SettledUpdate(w, c, alpha);
  }

  /** The textbook smoothing update: move the mean `y` toward `x` by alpha of the gap. */
  function Toward(y: real, x: real, alpha: real): real
  {
    y + alpha * (x - y)
  }

  /** From a settled state (the past weighing 1), a present value moves the mean by alpha
      times the gap. */
  lemma SettledStep(w: real, c: real, alpha: real)
    requires 0.0 < alpha <= 1.0
    ensures EwmStep(EwmState(Some(w), 1.0), Some(c), alpha) == EwmState(Some(Toward(w, c, alpha)), 1.0)
  {
    var r := EwmStep(EwmState(Some(w), 1.0), Some(c), alpha);
    var v := Toward(w, c, alpha);
    if w == c {
      NoGap(w, c, alpha);
      assert v == w;
      assert r == EwmState(Some(v), 1.0);
    } else {
      assert r == EwmState(Some(Blend(Aged(1.0, alpha), w, c, alpha)), 1.0);
      BlendSettled(w, c, alpha);
    }
  }

  /** The states of a prefix are a prefix of the states. */
  lemma {:induction false} EwmStatesPrefix(xs: seq<Cell>, alpha: real, n: nat)
    requires 0.0 < alpha <= 1.0 && n <= |xs|
    ensures EwmStates(xs[..n], alpha) == EwmStates(xs, alpha)[..n]
    decreases |xs|
  {
    if n < |xs| {
      var init := xs[..|xs| - 1];
      assert xs[..n] == init[..n];
      EwmStatesPrefix(init, alpha, n);
    } else {
      assert xs[..n] == xs;
    }
  }

  /** Each state is one step from the state before it, the first from the initial state. */
  lemma EwmStatesStep(xs: seq<Cell>, alpha: real, t: nat)
    requires 0.0 < alpha <= 1.0 && t < |xs|
    ensures t == 0 ==> EwmStates(xs, alpha)[0] == EwmStep(InitialEwmState, xs[0], alpha)
    ensures t > 0 ==> EwmStates(xs, alpha)[t] == EwmStep(EwmStates(xs, alpha)[t - 1], xs[t], alpha)
  {
    var p := xs[..t + 1];
    EwmStatesPrefix(xs, alpha, t + 1);
    EwmStatesPrefix(xs, alpha, t);
    assert p[..t] == xs[..t];
    assert EwmStates(p, alpha)[t] == EwmStates(xs, alpha)[t];
  }

  /** Over a series without missing values every state holds a mean and a past weighing 1. */
  lemma {:induction false} EwmSettled(xs: seq<Cell>, alpha: real)
    requires 0.0 < alpha <= 1.0
    requires forall i :: 0 <= i < |xs| ==> xs[i].Some?
    ensures forall t :: 0 <= t < |xs| ==> EwmStates(xs, alpha)[t].weighted.Some? && EwmStates(xs, alpha)[t].oldWeight == 1.0
  {
    if |xs| > 0 {
      var init := xs[..|xs| - 1];
      EwmSettled(init, alpha);
      assert EwmStates(xs, alpha)[..|init|] == EwmStates(init, alpha);
    }
  }

  /** Over a series without missing values the mean starts at the first value and then
      follows y[t] = y[t-1] + alpha * (x[t] - y[t-1]). */
  lemma EwmRecurrence(xs: seq<Cell>, alpha: real)
    requires 0.0 < alpha <= 1.0
    requires forall i :: 0 <= i < |xs| ==> xs[i].Some?
    ensures |xs| > 0 ==> EwmStates(xs, alpha)[0].weighted == xs[0]
    ensures forall t :: 0 <= t < |xs| ==> EwmStates(xs, alpha)[t].weighted.Some?
    ensures forall t :: 0 < t < |xs| ==>
      EwmStates(xs, alpha)[t].weighted == Some(Toward(EwmStates(xs, alpha)[t - 1].weighted.value, xs[t].value, alpha))
  {
    EwmSettled(xs, alpha);
    if |xs| > 0 {
      EwmStatesStep(xs, alpha, 0);
    }
    var states := EwmStates(xs, alpha);
    forall t | 0 < t < |xs|
      ensures states[t].weighted == Some(Toward(states[t - 1].weighted.value, xs[t].value, alpha))
    {
      var y, c := states[t - 1].weighted.value, xs[t].value;
      EwmStatesStep(xs, alpha, t);
      assert states[t - 1] == EwmState(Some(y), 1.0);
      assert xs[t] == Some(c);
      SettledStep(y, c, alpha);
    }
  }

  // ---------------------------------------------------------------------------
  // The composite index
  // ---------------------------------------------------------------------------

  /** The clipped smoothed index over the raw per-row averages. */
  function Finish(raw: seq<Cell>, cfg: IndexConfig): (r: seq<Cell>)
    requires cfg.emaSpan >= 1
    ensures |r| == |raw|
    ensures forall t :: 0 <= t < |r| && r[t].Some? ==>
      Min(cfg.minValue, cfg.maxValue) <= r[t].value <= Max(cfg.minValue, cfg.maxValue)
  {
    var smoothed := EwmMean(raw, cfg.emaSpan);
    seq(|raw|, t requires 0 <= t < |raw| => ClipCell(smoothed[t], cfg.minValue, cfg.maxValue))
  }

  /** The name of the single output column. */
  const FearIndexColumn: string := "fear_index"

  /** `calculate_fear_index`: empty for an empty input or when every column is skipped;
      otherwise a single `fear_index` column on the input's index, computed as the clipped
      smoothed per-row weighted average of the normalised columns, every present value in
      the target range. */
  method CalculateFearIndex(features: Frame, cfg: IndexConfig) returns (result: Frame)
    requires features.Valid()
    requires cfg.emaSpan >= 1
    ensures var cols := NormalizedColumns(features.columns, cfg.minValue, cfg.maxValue);
      (features.IsEmpty() || cols == []) ==> result == EmptyFrame
    ensures var cols := NormalizedColumns(features.columns, cfg.minValue, cfg.maxValue);
      !(features.IsEmpty() || cols == []) ==>
        (forall k :: 0 <= k < |features.index| ==> HasRow(cols, k)) &&
        result.index == features.index && !result.IsEmpty() && result.Valid() &&
        result.columns == [Column(FearIndexColumn,
          Finish(seq(|features.index|, k requires 0 <= k < |features.index| && HasRow(cols, k) =>
            RowAverage(cols, cfg.defaultWeights, k)), cfg))]
    ensures !result.IsEmpty() ==> forall t :: 0 <= t < |result.index| && result.columns[0].cells[t].Some? ==>
      Min(cfg.minValue, cfg.maxValue) <= result.columns[0].cells[t].value <= Max(cfg.minValue, cfg.maxValue)
  {
    if features.IsEmpty() {
      return EmptyFrame;
    }
    var normalized := NormalizeFeatures(features, cfg);
    NormalizedColumnsSpec(features.columns, |features.index|, cfg.minValue, cfg.maxValue);
    if normalized.IsEmpty() {
      return EmptyFrame;
    }
    var cols := normalized.columns;
    var raw := ApplyWeights(normalized, cfg.defaultWeights);
    assert raw == seq(|features.index|, k requires 0 <= k < |features.index| && HasRow(cols, k) =>
      RowAverage(cols, cfg.defaultWeights, k));
    var smoothed := Finish(raw, cfg);
    result := Frame(features.index, [Column(FearIndexColumn, smoothed)]);
  }
}
