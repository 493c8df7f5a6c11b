/** The backtest evaluator (core/backtest.py): joins the fear index with the XU100 closes,
    labels crash days, derives the three-zone exposure of the overlay strategy and its
    running returns, and collects the metrics. The library statistics (Spearman
    correlation, ROC-AUC score, annualised Sharpe value) are parameters. */
module Backtest {
  import opened Wrappers
  import opened Frames
  import opened Stats
  import opened Config
  import opened RealArith

  // ---------------------------------------------------------------------------
  // Merging (`_merge_data`)
  // ---------------------------------------------------------------------------

  /** One row of the inner join: the date, the fear index and the XU100 close. */
  datatype JoinedRow = JoinedRow(date: Date, fear: Cell, close: Cell)

  /** Each fear-index row paired with the close on its date. */
  function Candidates(fear: Series, close: Series): (r: seq<JoinedRow>)
    requires fear.Valid() && close.Valid()
    ensures |r| == |fear.index|
  {
    seq(|fear.index|, i requires 0 <= i < |fear.index| =>
      JoinedRow(fear.index[i], fear.values[i], ValueAt(close, fear.index[i])))
  }

  /** The positions of the dates that `other` also has, in increasing order. */
  function Matches(dates: seq<Date>, other: seq<Date>): (r: seq<nat>)
    ensures forall m :: 0 <= m < |r| ==> r[m] < |dates| && dates[r[m]] in other
    ensures forall m, m' :: 0 <= m < m' < |r| ==> r[m] < r[m']
    ensures forall i :: 0 <= i < |dates| && dates[i] in other ==> i in r
  {
    if |dates| == 0 then []
    else
      var n := |dates| - 1;
      var rest := Matches(dates[..n], other);
      assert forall i :: 0 <= i < n ==> dates[..n][i] == dates[i];
      if dates[n] in other then rest + [n] else rest
  }

  /** `fear_index_df.join(xu100_close, how="inner")`: the fear-index rows, in their order,
      whose date the XU100 table also has, with the close of that date. */
  function Join(fear: Series, close: Series): (r: seq<JoinedRow>)
    requires fear.Valid() && close.Valid()
    ensures |r| <= |fear.index|
    ensures forall x :: x in r <==> x in Candidates(fear, close) && x.date in close.index
    ensures var pos := Matches(fear.index, close.index);
      |r| == |pos| && forall m :: 0 <= m < |r| ==> r[m] == Candidates(fear, close)[pos[m]]
    decreases |fear.index|
  {
    if |fear.index| == 0 then []
    else
      var n := |fear.index| - 1;
      var init := Series(fear.name, fear.index[..n], fear.values[..n]);
      var row := JoinedRow(fear.index[n], fear.values[n], ValueAt(close, fear.index[n]));
      assert Candidates(fear, close) == Candidates(init, close) + [row];
      var rest := Join(init, close);
      if fear.index[n] in close.index then rest + [row] else rest
  }

  /** pandas' forward fill: a missing cell repeats the last present one before it. */
  function Ffill(cells: seq<Cell>): (r: seq<Cell>)
    ensures |r| == |cells|
    ensures forall i :: 0 <= i < |cells| && cells[i].Some? ==> r[i] == cells[i]
    ensures forall i {:trigger cells[i]} :: 0 < i < |cells| && cells[i].None? ==> r[i] == r[i - 1]
    ensures |cells| > 0 && cells[0].None? ==> r[0].None?
  {
    if |cells| == 0 then []
    else
      var n := |cells| - 1;
      var rest := Ffill(cells[..n]);
      var last := if cells[n].Some? || n == 0 then cells[n] else rest[n - 1];
      rest + [last]
  }

  /** The relative change from `prev` to `cur`; missing when either is missing. A zero
      previous close (an infinite change in pandas) is treated as missing. */
  function Change(cur: Cell, prev: Cell): Cell
  {
    if cur.Some? && prev.Some? && prev.value != 0.0 then Some(RelativeChange(cur.value, prev.value)) else None
  }

  /** `cur / prev - 1`. */
  function RelativeChange(cur: real, prev: real): real
    requires prev != 0.0
  {
    cur / prev - 1.0
  }

  /** `pct_change()` with pandas' default padding: the closes are forward filled and each
      is compared with the one before it; the first row has no change. */
  function PctChange(closes: seq<Cell>): (r: seq<Cell>)
    ensures |r| == |closes|
    ensures |r| > 0 ==> r[0].None?
    ensures forall i {:trigger r[i]} :: 0 < i < |closes| && closes[i].Some? && closes[i - 1].Some? ==> r[i] == Change(closes[i], closes[i - 1])
  {
    var f := Ffill(closes);
    seq(|closes|, i requires 0 <= i < |closes| => if i == 0 then None else Change(f[i], f[i - 1]))
  }

  /** A present cell is carried forward over the missing cells after it. */
  lemma {:induction false} FfillCarries(cells: seq<Cell>, k: nat, m: nat)
    requires k <= m < |cells| && cells[k].Some?
    requires forall j :: k < j <= m ==> cells[j].None?
    ensures Ffill(cells)[m] == cells[k]
    decreases m
  {
    if m > k {
      FfillCarries(cells, k, m - 1);
    }
  }

  /** A leading run of missing cells stays missing. */
  lemma {:induction false} FfillLeading(cells: seq<Cell>, m: nat)
    requires m < |cells|
    requires forall j :: 0 <= j <= m ==> cells[j].None?
    ensures Ffill(cells)[m].None?
    decreases m
  {
    if m > 0 {
      FfillLeading(cells, m - 1);
    }
  }

  /** The padding of `pct_change()`: with `k` the last row before `i` that has a (non-zero)
      close, a close at `i` is compared with the close at `k`, skipping the missing ones in
      between, and a missing close at `i` repeats the close at `k`, a change of 0. */
  lemma {:induction false} PaddedReturns(closes: seq<Cell>, i: nat, k: nat)
    requires k < i < |closes| && closes[k].Some? && closes[k].value != 0.0
    requires forall j :: k < j < i ==> closes[j].None?
    ensures closes[i].Some? ==> PctChange(closes)[i] == Some(RelativeChange(closes[i].value, closes[k].value))
    ensures closes[i].None? ==> PctChange(closes)[i] == Some(0.0)
  {
    var f := Ffill(closes);
    FfillCarries(closes, k, i - 1);
    if closes[i].None? {
      FfillCarries(closes, k, i);
      SelfChange(closes[k].value);
    }
    PctChangeAt(closes, i);
  }

  /** The return of a later row compares the filled closes of that row and the one before. */
  lemma PctChangeAt(closes: seq<Cell>, i: nat)
    requires 0 < i < |closes|
    ensures PctChange(closes)[i] == Change(Ffill(closes)[i], Ffill(closes)[i - 1])
  {
  }

  /** A close compared with itself has changed by 0. */
  lemma SelfChange(c: real)
    requires c != 0.0
    ensures RelativeChange(c, c) == 0.0
  {
    SelfQuotient(c);
  }

  /** Before the first present close there is no return. */
  lemma {:induction false} ReturnsBeforeFirstClose(closes: seq<Cell>, i: nat)
    requires i < |closes|
    requires forall j :: 0 <= j < i ==> closes[j].None?
    ensures PctChange(closes)[i].None?
  {
    if i > 0 {
      FfillLeading(closes, i - 1);
    }
  }

  function Abs(x: real): real { if x < 0.0 then -x else x }

  /** A row of the merged table after `dropna`: every column present. */
  datatype MergedRow = MergedRow(
    date: Date,
    fearIndex: real,
    close: real,
    ret: real,
    absRet: real,
    nextRet: real,
    nextAbsRet: real)

  function Closes(j: seq<JoinedRow>): (r: seq<Cell>)
    ensures |r| == |j|
  {
    seq(|j|, i requires 0 <= i < |j| => j[i].close)
  }

  /** Joined row `p` with its return, absolute return and the next row's (`shift(-1)`),
      kept only when none of them is missing (`dropna`). */
  function RowAt(j: seq<JoinedRow>, rets: seq<Cell>, p: nat): Option<MergedRow>
    requires |rets| == |j| && p < |j|
  {
    var next := if p + 1 < |j| then rets[p + 1] else None;
    if j[p].fear.Some? && j[p].close.Some? && rets[p].Some? && next.Some? then
      Some(MergedRow(j[p].date, j[p].fear.value, j[p].close.value,
        rets[p].value, Abs(rets[p].value), next.value, Abs(next.value)))
    else None
  }

  /** The present values, in order. */
  function Somes<T(!new)>(s: seq<Option<T>>): (r: seq<T>)
    ensures |r| <= |s|
    ensures forall x :: x in r <==> Some(x) in s
  {
    if |s| == 0 then []
    else
      var n := |s| - 1;
      assert s == s[..n] + [s[n]];
      var rest := Somes(s[..n]);
      if s[n].Some? then rest + [s[n].value] else rest
  }

  /** Every joined row's candidate merged row. */
  function RowsAt(j: seq<JoinedRow>, rets: seq<Cell>): (r: seq<Option<MergedRow>>)
    requires |rets| == |j|
    ensures |r| == |j|
  {
    seq(|j|, p requires 0 <= p < |j| => RowAt(j, rets, p))
  }

  /** The candidate rows of the merged table, one per joined row. */
  function MergeCandidates(fear: Series, close: Series): (r: seq<Option<MergedRow>>)
    requires fear.Valid() && close.Valid()
    ensures |r| == |Join(fear, close)|
  {
    var j := Join(fear, close);
    RowsAt(j, PctChange(Closes(j)))
  }

  /** Merged row `x` is joined row `p` with its return and the next row's return, all of
      them present. */
  predicate MergedFrom(x: MergedRow, j: seq<JoinedRow>, rets: seq<Cell>, p: nat)
    requires |rets| == |j| && p + 1 < |j|
  {
    x.date == j[p].date && j[p].fear == Some(x.fearIndex) && j[p].close == Some(x.close) &&
    rets[p] == Some(x.ret) && rets[p + 1] == Some(x.nextRet) &&
    x.absRet == Abs(x.ret) && x.nextAbsRet == Abs(x.nextRet)
  }

  /** `_merge_data`: the merged table, one row per kept joined row. A row is kept exactly
      when it is neither the first nor the last joined row and its fear index, its close,
      its return and the next row's return are all present. */
  function MergeData(fear: Series, close: Series): (r: seq<MergedRow>)
    requires fear.Valid() && close.Valid()
    ensures |r| <= |Join(fear, close)|
    ensures var j := Join(fear, close);
      forall x :: x in r <==> exists p :: 0 < p < |j| - 1 && MergedFrom(x, j, PctChange(Closes(j)), p)
  {
    var j := Join(fear, close);
    KeptRows(j, PctChange(Closes(j)));
    Somes(MergeCandidates(fear, close))
  }

  /** With no return in the first row, the present candidates are exactly the interior
      joined rows whose values are all present. */
  lemma KeptRows(j: seq<JoinedRow>, rets: seq<Cell>)
    requires |rets| == |j| && (|j| > 0 ==> rets[0].None?)
    ensures forall x :: x in Somes(RowsAt(j, rets)) <==> exists p :: 0 < p < |j| - 1 && MergedFrom(x, j, rets, p)
  {
    var cands := RowsAt(j, rets);
    forall x
      ensures x in Somes(cands) <==> exists p :: 0 < p < |j| - 1 && MergedFrom(x, j, rets, p)
    {
      if x in Somes(cands) {
        assert Some(x) in cands;
        var p :| 0 <= p < |cands| && cands[p] == Some(x);
        assert RowAt(j, rets, p) == Some(x);
        assert 0 < p < |j| - 1 && MergedFrom(x, j, rets, p);
      }
      if exists p :: 0 < p < |j| - 1 && MergedFrom(x, j, rets, p) {
        var p :| 0 < p < |j| - 1 && MergedFrom(x, j, rets, p);
        assert cands[p] == RowAt(j, rets, p) == Some(x);
        assert Some(x) in cands;
      }
    }
  }

  /** A kept row is neither the first nor the last joined row, and has a fear index and a
      close of its own. */
  lemma KeptRow(j: seq<JoinedRow>, p: nat)
    requires p < |j|
    ensures RowAt(j, PctChange(Closes(j)), p).Some? ==>
      0 < p < |j| - 1 && j[p].fear.Some? && j[p].close.Some?
  {
  }

  /** Every merged date appears in both inputs, and every merged row has a fear index
      taken from the fear table on that date. */
  lemma MergedDatesInBoth(fear: Series, close: Series)
    requires fear.Valid() && close.Valid()
    ensures forall x :: x in MergeData(fear, close) ==> x.date in fear.index && x.date in close.index
  {
    var j := Join(fear, close);
    var rets := PctChange(Closes(j));
    forall x | x in MergeData(fear, close)
      ensures x.date in fear.index && x.date in close.index
    {
      var p :| 0 < p < |j| - 1 && MergedFrom(x, j, rets, p);
      assert j[p] in j;
      var i :| 0 <= i < |Candidates(fear, close)| && Candidates(fear, close)[i] == j[p];
    }
  }

  /** Over joined rows whose closes are all present and non-zero, a row is kept exactly when
      it is neither first nor last and has a fear index; its return is the change from the
      previous joined close, its next-day return the change to the following one, and the
      absolute columns are their magnitudes. */
  lemma ConsecutiveReturns(j: seq<JoinedRow>, p: nat)
    requires p < |j|
    requires forall i :: 0 <= i < |j| ==> j[i].close.Some? && j[i].close.value != 0.0
    ensures RowAt(j, PctChange(Closes(j)), p).Some? <==> 0 < p < |j| - 1 && j[p].fear.Some?
    ensures RowAt(j, PctChange(Closes(j)), p).Some? ==>
      var x := RowAt(j, PctChange(Closes(j)), p).value;
      x.date == j[p].date && x.fearIndex == j[p].fear.value && x.close == j[p].close.value &&
      x.ret == RelativeChange(j[p].close.value, j[p - 1].close.value) &&
      x.nextRet == RelativeChange(j[p + 1].close.value, j[p].close.value) &&
      x.absRet == Abs(x.ret) && x.nextAbsRet == Abs(x.nextRet)
  {
    var rets := PctChange(Closes(j));
    PresentReturns(j);
    if 0 < p < |j| - 1 {
      assert rets[p] == Some(RelativeChange(j[p].close.value, j[p - 1].close.value));
      assert rets[p + 1] == Some(RelativeChange(j[p + 1].close.value, j[p].close.value));
    }
  }

  /** With every close present and non-zero, each row after the first has the change from
      the previous close as its return. */
  lemma PresentReturns(j: seq<JoinedRow>)
    requires forall i :: 0 <= i < |j| ==> j[i].close.Some? && j[i].close.value != 0.0
    ensures forall i :: 0 < i < |j| ==>
      PctChange(Closes(j))[i] == Some(RelativeChange(j[i].close.value, j[i - 1].close.value))
  {
    var c := Closes(j);
    var f := Ffill(c);
    forall i | 0 < i < |j|
      ensures PctChange(c)[i] == Some(RelativeChange(j[i].close.value, j[i - 1].close.value))
    {
      assert c[i] == j[i].close && c[i - 1] == j[i - 1].close;
      assert f[i] == c[i] && f[i - 1] == c[i - 1];
      assert PctChange(c)[i] == Change(c[i], c[i - 1]);
    }
  }

  // ---------------------------------------------------------------------------
  // Crash days and the ROC-AUC guard (`_calculate_roc_auc`)
  // ---------------------------------------------------------------------------

  /** `(next_day_return < crash_threshold).astype(int)`. */
  function CrashDays(rows: seq<MergedRow>, threshold: real): (labels: seq<int>)
    ensures |labels| == |rows|
    ensures forall i :: 0 <= i < |rows| ==> (labels[i] == 1 <==> rows[i].nextRet < threshold)
    ensures forall i :: 0 <= i < |rows| ==> labels[i] == 0 || labels[i] == 1
  {
    seq(|rows|, i requires 0 <= i < |rows| => if rows[i].nextRet < threshold then 1 else 0)
  }

  /** The sum of the labels (`crash_day.sum()`). */
  function LabelSum(labels: seq<int>): int
  {
    if |labels| == 0 then 0 else LabelSum(labels[..|labels| - 1]) + labels[|labels| - 1]
  }

  /** Over 0/1 labels the sum counts the ones: it is at most the length, equal to it exactly
      when every label is 1, and at most 1 when no two labels are 1. */
  lemma {:induction false} LabelSumCounts(labels: seq<int>)
    requires forall i :: 0 <= i < |labels| ==> labels[i] == 0 || labels[i] == 1
    ensures 0 <= LabelSum(labels) <= |labels|
    ensures LabelSum(labels) == |labels| <==> forall i :: 0 <= i < |labels| ==> labels[i] == 1
    ensures (forall i, k :: 0 <= i < k < |labels| ==> labels[i] == 0 || labels[k] == 0) ==> LabelSum(labels) <= 1
  {
    if |labels| > 0 {
      var n := |labels| - 1;
      var init := labels[..n];
      LabelSumCounts(init);
      if forall i, k :: 0 <= i < k < |labels| ==> labels[i] == 0 || labels[k] == 0 {
        assert forall i, k :: 0 <= i < k < |init| ==> init[i] == 0 || init[k] == 0;
        if labels[n] == 1 {
          assert forall i :: 0 <= i < n ==> init[i] == 0;
          LabelSumZero(init);
        }
      }
    }
  }

  /** Labels that are all 0 sum to 0. */
  lemma {:induction false} LabelSumZero(labels: seq<int>)
    requires forall i :: 0 <= i < |labels| ==> labels[i] == 0
    ensures LabelSum(labels) == 0
  {
    if |labels| > 0 {
      LabelSumZero(labels[..|labels| - 1]);
    }
  }

  const InsufficientClasses := "Only one class present in y_true. ROC AUC score is not defined in that case."

  /** The ROC-AUC step: 0.0 with fewer than two crash days; otherwise the library score
      of the fear index against the labels, which raises when every day is a crash day.
      So at most one crash day gives exactly 0.0, and the step fails exactly when there are
      at least two rows and every one is a crash day. */
  function RocAuc(rows: seq<MergedRow>, threshold: real, score: (seq<int>, seq<real>) -> real): (r: Result<real, string>)
    ensures r.Failure? <==> |rows| >= 2 && forall i :: 0 <= i < |rows| ==> rows[i].nextRet < threshold
    ensures (forall i, k :: 0 <= i < k < |rows| ==> !(rows[i].nextRet < threshold && rows[k].nextRet < threshold)) ==>
      r == Success(0.0)
  {
    var labels := CrashDays(rows, threshold);
    LabelSumCounts(labels);
    if LabelSum(labels) < 2 then Success(0.0)
    else if LabelSum(labels) == |rows| then Failure(InsufficientClasses)
    else Success(score(labels, Fears(rows)))
  }

  // ---------------------------------------------------------------------------
  // The overlay strategy (`_backtest_overlay_strategy`)
  // ---------------------------------------------------------------------------

  const ZeroDivision := "float division by zero"

  /** `calculate_exposure`: fully out above the high threshold, fully in below the low one,
      linear in between; the division fails exactly when the two thresholds and the level
      coincide, and otherwise the exposure lies in [0, 1]. */
  function Exposure(level: real, low: real, high: real): (r: Result<real, string>)
    ensures r.Failure? <==> level == low == high
    ensures r.Success? ==> 0.0 <= r.value <= 1.0
  {
    if level > high then Success(0.0)
    else if level < low then Success(1.0)
    else
      var rangeSize := high - low;
      if rangeSize == 0.0 then Failure(ZeroDivision)
      else
        QuotientBetween(level - low, rangeSize, 0.0, 1.0);
        Success(Ramp(level, low, rangeSize))
  }

  /** The linear part: 1 at `low`, falling by 1 over `rangeSize`. */
  function Ramp(level: real, low: real, rangeSize: real): real
    requires rangeSize != 0.0
  {
    1.0 - (level - low) / rangeSize
  }

  /** With low < high: 1 at the low threshold, 0 at the high one, 0.5 at the midpoint. */
  lemma ExposureAnchors(low: real, high: real)
    requires low < high
    ensures Exposure(low, low, high) == Success(1.0)
    ensures Exposure(high, low, high) == Success(0.0)
    ensures Exposure((low + high) / 2.0, low, high) == Success(0.5)
  {
    RampAnchors(low, high);
  }

  lemma RampAnchors(low: real, high: real)
    requires low < high
    ensures Ramp(low, low, high - low) == 1.0
    ensures Ramp(high, low, high - low) == 0.0
    ensures Ramp((low + high) / 2.0, low, high - low) == 0.5
  {
    SelfQuotient(high - low);
    MidpointRatio(low, high);
  }

  /** A higher fear level never gets a larger exposure. */
  lemma ExposureNonIncreasing(l1: real, l2: real, low: real, high: real)
    requires l1 <= l2
    requires Exposure(l1, low, high).Success? && Exposure(l2, low, high).Success?
    ensures Exposure(l1, low, high).value >= Exposure(l2, low, high).value
  {
    if low <= l1 && l2 <= high {
      DivideMonotone(l1 - low, l2 - low, high - low);
    }
  }

  /** `fear_index.apply(calculate_exposure)`: the exposure of every row, or the first
      failure. */
  function Exposures(levels: seq<real>, low: real, high: real): (r: Result<seq<real>, string>)
    ensures r.Success? <==> forall i :: 0 <= i < |levels| ==> Exposure(levels[i], low, high).Success?
    ensures r.Success? ==> |r.value| == |levels|
    ensures r.Success? ==> forall i :: 0 <= i < |levels| ==> r.value[i] == Exposure(levels[i], low, high).value
  {
    if |levels| == 0 then Success([])
    else
      var n := |levels| - 1;
      match Exposures(levels[..n], low, high)
      case Failure(e) => Failure(e)
      case Success(init) =>
        match Exposure(levels[n], low, high)
        case Failure(e) => Failure(e)
        case Success(v) => Success(init + [v])
  }

  /** With low < high every row gets an exposure, all in [0, 1]. */
  lemma ExposuresInUnit(levels: seq<real>, low: real, high: real)
    requires low < high
    ensures Exposures(levels, low, high).Success?
    ensures forall i :: 0 <= i < |levels| ==> 0.0 <= Exposures(levels, low, high).value[i] <= 1.0
  {
  }

  function Fears(rows: seq<MergedRow>): (r: seq<real>)
    ensures |r| == |rows|
  {
    seq(|rows|, i requires 0 <= i < |rows| => rows[i].fearIndex)
  }

  function Returns(rows: seq<MergedRow>): (r: seq<real>)
    ensures |r| == |rows|
  {
    seq(|rows|, i requires 0 <= i < |rows| => rows[i].ret)
  }

  function NextAbsReturns(rows: seq<MergedRow>): (r: seq<real>)
    ensures |r| == |rows|
  {
    seq(|rows|, i requires 0 <= i < |rows| => rows[i].nextAbsRet)
  }

  /** `exposure * xu100_return`, row by row. */
  function StrategyReturns(exposure: seq<real>, rets: seq<real>): (r: seq<real>)
    requires |exposure| == |rets|
    ensures |r| == |rets|
  {
    seq(|rets|, i requires 0 <= i < |rets| => exposure[i] * rets[i])
  }

  /** Full exposure reproduces the market returns; no exposure gives zero returns. */
  lemma StrategyExtremes(exposure: seq<real>, rets: seq<real>)
    requires |exposure| == |rets|
    ensures (forall i :: 0 <= i < |rets| ==> exposure[i] == 1.0) ==> StrategyReturns(exposure, rets) == rets
    ensures (forall i :: 0 <= i < |rets| ==> exposure[i] == 0.0) ==>
      forall i :: 0 <= i < |rets| ==> StrategyReturns(exposure, rets)[i] == 0.0
  {
  }

  /** The growth of one unit over the returns: the product of (1 + r). */
  function Growth(rets: seq<real>): real
  {
    if |rets| == 0 then 1.0 else Growth(rets[..|rets| - 1]) * (1.0 + rets[|rets| - 1])
  }

  lemma GrowthStep(rets: seq<real>, i: nat)
    requires i < |rets|
    ensures Growth(rets[..i + 1]) == Growth(rets[..i]) * (1.0 + rets[i])
  {
    assert rets[..i + 1][..i] == rets[..i];
  }

  /** Returns above -100% keep the growth positive; zero returns leave it at 1. */
  lemma {:induction false} GrowthFacts(rets: seq<real>)
    ensures (forall i :: 0 <= i < |rets| ==> rets[i] > -1.0) ==> Growth(rets) > 0.0
    ensures (forall i :: 0 <= i < |rets| ==> rets[i] == 0.0) ==> Growth(rets) == 1.0
  {
    if |rets| > 0 {
      var n := |rets| - 1;
      GrowthFacts(rets[..n]);
      if forall i :: 0 <= i < |rets| ==> rets[i] > -1.0 {
        PositiveProduct(Growth(rets[..n]), 1.0 + rets[n]);
      }
    }
  }

  /** `(1 + returns).cumprod()`: the running growth. */
  method CumulativeProduct(rets: seq<real>) returns (cum: seq<real>)
    ensures |cum| == |rets|
    ensures forall k :: 0 <= k < |rets| ==> cum[k] == Growth(rets[..k + 1])
  {
    cum := [];
    var acc := 1.0;
    var i := 0;
    while i < |rets|
      invariant 0 <= i <= |rets| && |cum| == i
      invariant acc == Growth(rets[..i])
      invariant forall k :: 0 <= k < i ==> cum[k] == Growth(rets[..k + 1])
    {
      GrowthStep(rets, i);
      acc := acc * (1.0 + rets[i]);
      cum := cum + [acc];
      i := i + 1;
    }
  }

  /** The last running growth minus one is the total return. */
  lemma TotalReturn(rets: seq<real>, cum: seq<real>)
    requires |cum| == |rets| > 0
    requires forall k :: 0 <= k < |rets| ==> cum[k] == Growth(rets[..k + 1])
    ensures cum[|cum| - 1] - 1.0 == Growth(rets) - 1.0
  {
    assert rets[..|rets|] == rets;
  }

  const TradingDays: real := 252.0

  /** `returns - risk_free_rate / 252`. */
  function Excess(rets: seq<real>, riskFreeRate: real): (r: seq<real>)
    ensures |r| == |rets|
  {
    seq(|rets|, i requires 0 <= i < |rets| => rets[i] - riskFreeRate / TradingDays)
  }

  /** `_calculate_sharpe_ratio`: 0.0 when the sample deviation of the excess returns is 0;
      NaN (missing) when it is undefined (fewer than two returns), since NaN never equals 0
      and the quotient is then NaN; otherwise the library's annualised mean over deviation.
      The guard fires exactly for a constant series of at least two returns, whatever the
      risk-free rate. */
  function SharpeRatio(rets: seq<real>, riskFreeRate: real, annualised: seq<real> -> real): (r: Cell)
    ensures |rets| >= 2 && Constant(rets) ==> r == Some(0.0)
    ensures |rets| < 2 ==> r.None?
    ensures |rets| >= 2 && !Constant(rets) ==> r == Some(annualised(Excess(rets, riskFreeRate)))
  {
    var excess := Excess(rets, riskFreeRate);
    ExcessConstant(rets, riskFreeRate);
    if StdIsZero(excess) then Some(0.0)
    else if |excess| < 2 then None
    else Some(annualised(excess))
  }

  /** Subtracting the daily risk-free rate keeps a series constant or not constant. */
  lemma ExcessConstant(rets: seq<real>, riskFreeRate: real)
    ensures Constant(Excess(rets, riskFreeRate)) <==> Constant(rets)
  {
    var excess := Excess(rets, riskFreeRate);
    if !Constant(rets) {
      var i :| 0 <= i < |rets| && rets[i] != rets[0];
      assert excess[i] != excess[0];
    }
  }

  /** The parts of the overlay result the metrics use. */
  datatype OverlayMetrics = OverlayMetrics(
    sharpeMarket: Cell,
    sharpeStrategy: Cell,
    totalReturnMarket: real,
    totalReturnStrategy: real)

  /** What the overlay reports for the merged rows: both Sharpe ratios and both total
      returns, or the failure of an exposure. */
  function Overlay(rows: seq<MergedRow>, config: BacktestConfig, annualised: seq<real> -> real): Result<OverlayMetrics, string>
  {
    match Exposures(Fears(rows), config.lowFearThreshold, config.highFearThreshold)
    case Failure(e) => Failure(e)
    case Success(e) =>
      var market := Returns(rows);
      var strategy := StrategyReturns(e, market);
      Success(OverlayMetrics(
        SharpeRatio(market, config.riskFreeRate, annualised),
        SharpeRatio(strategy, config.riskFreeRate, annualised),
        Growth(market) - 1.0,
        Growth(strategy) - 1.0))
  }

  /** The library statistics the backtest calls. */
  datatype Statistics = Statistics(
    spearman: (seq<real>, seq<real>) -> Cell,
    rocAucScore: (seq<int>, seq<real>) -> real,
    annualisedSharpe: seq<real> -> real)

  /** The merged table, to which the evaluation steps add columns in place; a column not
      yet added is empty. */
  class MergedTable {
    var rows: seq<MergedRow>
    var crashDay: seq<int>
    var exposure: seq<real>
    var strategyReturn: seq<real>
    var marketCumulative: seq<real>
    var strategyCumulative: seq<real>

    constructor (rows: seq<MergedRow>)
      ensures this.rows == rows
      ensures crashDay == [] && exposure == [] && strategyReturn == []
      ensures marketCumulative == [] && strategyCumulative == []
    {
      this.rows := rows;
      crashDay := [];
      exposure := [];
      strategyReturn := [];
      marketCumulative := [];
      strategyCumulative := [];
    }
  }

  /** `_calculate_roc_auc`: adds the crash-day column, then applies the guard. */
  method CalculateRocAuc(m: MergedTable, threshold: real, score: (seq<int>, seq<real>) -> real)
    returns (r: Result<real, string>)
    modifies m
    ensures m.crashDay == CrashDays(m.rows, threshold)
    ensures m.rows == old(m.rows) && m.exposure == old(m.exposure) && m.strategyReturn == old(m.strategyReturn)
    ensures m.marketCumulative == old(m.marketCumulative) && m.strategyCumulative == old(m.strategyCumulative)
    ensures r == RocAuc(m.rows, threshold, score)
  {
    m.crashDay := CrashDays(m.rows, threshold);
    if LabelSum(m.crashDay) < 2 {
      return Success(0.0);
    }
    if LabelSum(m.crashDay) == |m.rows| {
      return Failure(InsufficientClasses);
    }
    r := Success(score(m.crashDay, Fears(m.rows)));
  }

  /** `_backtest_overlay_strategy`: adds exposure, strategy return and the two cumulative
      columns, and reports both Sharpe ratios and total returns; a failing exposure leaves
      the table unchanged. */
  method BacktestOverlay(m: MergedTable, config: BacktestConfig, stats: Statistics)
    returns (r: Result<OverlayMetrics, string>)
    requires |m.rows| > 0
    modifies m
    ensures m.rows == old(m.rows) && m.crashDay == old(m.crashDay)
    ensures r == Overlay(m.rows, config, stats.annualisedSharpe)
    ensures r.Failure? ==> m.exposure == old(m.exposure) && m.strategyReturn == old(m.strategyReturn)
    ensures r.Failure? ==> m.marketCumulative == old(m.marketCumulative) && m.strategyCumulative == old(m.strategyCumulative)
    ensures r.Success? ==>
      var e := Exposures(Fears(m.rows), config.lowFearThreshold, config.highFearThreshold).value;
      m.exposure == e && m.strategyReturn == StrategyReturns(e, Returns(m.rows))
    ensures r.Success? ==> |m.marketCumulative| == |m.strategyCumulative| == |m.rows|
    ensures r.Success? ==> forall k :: 0 <= k < |m.rows| ==>
      m.marketCumulative[k] == Growth(Returns(m.rows)[..k + 1]) &&
      m.strategyCumulative[k] == Growth(m.strategyReturn[..k + 1])
  {
    var exposures := Exposures(Fears(m.rows), config.lowFearThreshold, config.highFearThreshold);
    if exposures.Failure? {
      return Failure(exposures.error);
    }
    var market := Returns(m.rows);
    m.exposure := exposures.value;
    m.strategyReturn := StrategyReturns(m.exposure, market);
    m.marketCumulative := CumulativeProduct(market);
    m.strategyCumulative := CumulativeProduct(m.strategyReturn);
    var sharpeMarket := SharpeRatio(market, config.riskFreeRate, stats.annualisedSharpe);
    var sharpeStrategy := SharpeRatio(m.strategyReturn, config.riskFreeRate, stats.annualisedSharpe);
    TotalReturn(market, m.marketCumulative);
    TotalReturn(m.strategyReturn, m.strategyCumulative);
    var totalMarket := m.marketCumulative[|m.marketCumulative| - 1] - 1.0;
    var totalStrategy := m.strategyCumulative[|m.strategyCumulative| - 1] - 1.0;
    r := Success(OverlayMetrics(sharpeMarket, sharpeStrategy, totalMarket, totalStrategy));
  }

  /** The six metric names `run_backtest` reports. */
  const MetricKeys: set<string> :=
    {"correlation", "roc_auc", "sharpe_xu100", "sharpe_strategy", "total_return_xu100", "total_return_strategy"}

  /** The metrics for the merged rows: none for an empty merge, otherwise the six, or the
      failure of the ROC-AUC or exposure step. */
  function Metrics(rows: seq<MergedRow>, config: BacktestConfig, stats: Statistics): Result<map<string, Cell>, string>
  {
    if |rows| == 0 then Success(map[])
    else
      match RocAuc(rows, config.crashThreshold, stats.rocAucScore)
      case Failure(e) => Failure(e)
      case Success(rocAuc) =>
        match Overlay(rows, config, stats.annualisedSharpe)
        case Failure(e) => Failure(e)
        case Success(o) =>
          Success(map[
            "correlation" := stats.spearman(Fears(rows), NextAbsReturns(rows)),
            "roc_auc" := Some(rocAuc),
            "sharpe_xu100" := o.sharpeMarket,
            "sharpe_strategy" := o.sharpeStrategy,
            "total_return_xu100" := Some(o.totalReturnMarket),
            "total_return_strategy" := Some(o.totalReturnStrategy)])
  }

  /** An empty merge stops with no metrics; otherwise the run fails exactly when the ROC-AUC
      or an exposure fails, and else reports exactly the six metric keys, the total returns
      being the growth of the market and of the strategy minus one. */
  lemma MetricsOutcome(rows: seq<MergedRow>, config: BacktestConfig, stats: Statistics)
    ensures |rows| == 0 ==> Metrics(rows, config, stats) == Success(map[])
    ensures |rows| > 0 ==> (Metrics(rows, config, stats).Failure? <==>
      RocAuc(rows, config.crashThreshold, stats.rocAucScore).Failure? ||
      Exposures(Fears(rows), config.lowFearThreshold, config.highFearThreshold).Failure?)
    ensures |rows| > 0 && Metrics(rows, config, stats).Success? ==>
      var e := Exposures(Fears(rows), config.lowFearThreshold, config.highFearThreshold).value;
      var r := Metrics(rows, config, stats).value;
      r.Keys == MetricKeys &&
      r["total_return_xu100"] == Some(Growth(Returns(rows)) - 1.0) &&
      r["total_return_strategy"] == Some(Growth(StrategyReturns(e, Returns(rows))) - 1.0)
  {
  }

  /** `run_backtest`: the metrics of the merged table, the default thresholds applying when
      no configuration is given. Plotting is not modelled. */
  method RunBacktest(fear: Series, close: Series, config: Option<BacktestConfig>, stats: Statistics)
    returns (r: Result<map<string, Cell>, string>)
    requires fear.Valid() && close.Valid()
    ensures r == Metrics(MergeData(fear, close), if config.Some? then config.value else DefaultBacktestConfig, stats)
  {
    var cfg := if config.Some? then config.value else DefaultBacktestConfig;
    var m := new MergedTable(MergeData(fear, close));
    if |m.rows| == 0 {
      return Success(map[]);
    }
    var correlation := stats.spearman(Fears(m.rows), NextAbsReturns(m.rows));
    var rocAuc := CalculateRocAuc(m, cfg.crashThreshold, stats.rocAucScore);
    if rocAuc.Failure? {
      return Failure(rocAuc.error);
    }
    var overlay := BacktestOverlay(m, cfg, stats);
    if overlay.Failure? {
      return Failure(overlay.error);
    }
    r := Success(map[
      "correlation" := correlation,
      "roc_auc" := Some(rocAuc.value),
      "sharpe_xu100" := overlay.value.sharpeMarket,
      "sharpe_strategy" := overlay.value.sharpeStrategy,
      "total_return_xu100" := Some(overlay.value.totalReturnMarket),
      "total_return_strategy" := Some(overlay.value.totalReturnStrategy)]);
  }
}
