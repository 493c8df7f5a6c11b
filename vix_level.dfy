/** The global-volatility feature unit (features/vix_level.py): the VIX close, unchanged. */
module VixLevel {
  import opened Wrappers
  import opened Frames
  import opened FeatureEngine

  const Name := "vix_level"
  const Source := "VIX"

  /** A non-empty table with exactly one `Close` column. */
  predicate SingleClose(data: Data)
  {
    Source in data && !data[Source].IsEmpty() && |ColumnsNamed(data[Source].columns, "Close")| == 1
  }

  /** `compute`: an empty series when the table is missing or empty; otherwise the `Close`
      column renamed. Without a `Close` column the lookup raises; with several, the lookup
      gives a table, which is returned as it is and is therefore not a series.
      The unit raises exactly when the table has rows and columns but no `Close` column,
      and returns a series exactly when the table is missing, empty, or has one `Close`
      column; that series is named after the unit and for a table with one `Close` column
      holds the table's dates and the close values unchanged. */
  function Compute(data: Data): (r: ComputeOutcome)
    ensures r.Raised? <==>
      Source in data && !data[Source].IsEmpty() && |ColumnsNamed(data[Source].columns, "Close")| == 0
    ensures r.Returned? <==>
      Source !in data || data[Source].IsEmpty() || |ColumnsNamed(data[Source].columns, "Close")| == 1
    ensures r.Returned? ==> r.series.name == Name
    ensures Source !in data || data[Source].IsEmpty() ==> r.series.IsEmpty()
    ensures SingleClose(data) && data[Source].Valid() ==>
      var df := data[Source];
      var s := r.series;
      s.Valid() && s.index == df.index && s.values == df.columns[ColumnsNamed(df.columns, "Close")[0]].cells
  {
    if Source !in data || data[Source].IsEmpty() then Returned(Series(Name, [], []))
    else
      var df := data[Source];
      var closes := ColumnsNamed(df.columns, "Close");
      if |closes| == 0 then Raised("KeyError: Close")
      else if |closes| > 1 then ReturnedOther
      else Returned(Series(Name, df.index, df.columns[closes[0]].cells))
  }

  /** Installed in the registry under its own name, the unit yields a result exactly when
      it returns a series. */
  lemma Registered(data: Data, registry: Registry)
    requires Name in registry && registry[Name] == FeatureModule(Some(Compute))
    ensures ExecuteFeature(Name, data, registry) == if Compute(data).Returned? then Some(Compute(data).series) else None
  {
  }
}
