/** The demonstration feature unit (features/example_double_price.py): twice the closing
    price of the BIST-100 table. */
module ExampleDoublePrice {
  import opened Wrappers
  import opened Frames
  import opened FeatureEngine
  import opened Config
  import IndexCalculator

  const Name := "example_double_price"
  const Source := "XU100"

  /** Twice a value; a missing value stays missing. */
  function Double(c: Cell): Cell
  {
    match c
    case None => None
    case Some(v) => Some(2.0 * v)
  }

  /** Half a value; a missing value stays missing. */
  function Halve(c: Cell): Cell
  {
    match c
    case None => None
    case Some(v) => Some(v / 2.0)
  }

  /** A non-empty table with exactly one `Close` column. */
  predicate SingleClose(data: Data)
  {
    Source in data && !data[Source].IsEmpty() && |ColumnsNamed(data[Source].columns, "Close")| == 1
  }

  /** `compute`: an empty series when the table is missing or empty; otherwise the `Close`
      column doubled and renamed. Without a `Close` column the lookup raises; with several,
      the lookup gives a table, whose `rename` with a plain name raises as well.
      The unit returns a series exactly when the table is missing or empty, or has exactly
      one `Close` column; the series is named after the unit, and for a table with a single
      `Close` column it carries the table's dates and, date by date, twice the close, so
      halving it gives the close back. */
  function Compute(data: Data): (r: ComputeOutcome)
    ensures r.Returned? <==>
      Source !in data || data[Source].IsEmpty() || |ColumnsNamed(data[Source].columns, "Close")| == 1
    ensures r.Returned? ==> r.series.name == Name
    ensures Source !in data || data[Source].IsEmpty() ==> r.series.IsEmpty()
    ensures SingleClose(data) && data[Source].Valid() ==>
      var df := data[Source];
      var close := df.columns[ColumnsNamed(df.columns, "Close")[0]].cells;
      var s := r.series;
      s.Valid() && s.index == df.index &&
      (forall t :: 0 <= t < |close| ==> s.values[t].Some? == close[t].Some? && Halve(s.values[t]) == close[t])
  {
    if Source !in data || data[Source].IsEmpty() then Returned(Series(Name, [], []))
    else
      var df := data[Source];
      var closes := ColumnsNamed(df.columns, "Close");
      if |closes| == 0 then Raised("KeyError: Close")
      else if |closes| > 1 then Raised("TypeError: rename of a table by a name")
      else
        var close := df.columns[closes[0]].cells;
        Returned(Series(Name, df.index, seq(|close|, t requires 0 <= t < |close| => Double(close[t]))))
  }

  /** Installed in the registry under its own name, the unit yields a result exactly when
      it returns a series. */
  lemma Registered(data: Data, registry: Registry)
    requires Name in registry && registry[Name] == FeatureModule(Some(Compute))
    ensures ExecuteFeature(Name, data, registry) == if Compute(data).Returned? then Some(Compute(data).series) else None
  {
  }

  /** The unit has no default weight, so its column never changes the raw index: the
      row average with it equals the row average without it. */
  lemma NeverWeighted(a: seq<Column>, c: Column, b: seq<Column>, k: nat)
    requires c.name == Name
    requires IndexCalculator.HasRow(a + [c] + b, k)
    ensures IndexCalculator.HasRow(a + b, k)
    ensures IndexCalculator.RowAverage(a + [c] + b, DefaultWeights, k) == IndexCalculator.RowAverage(a + b, DefaultWeights, k)
  {
    DefaultWeightsKeys();
    IndexCalculator.RowAverageIgnoresUnweighted(a, c, b, DefaultWeights, k);
  }
}
