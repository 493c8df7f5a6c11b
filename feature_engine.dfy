/** The feature registry (core/feature_engine.py): discovers the feature units from the
    file names of the features directory, runs each one in isolation, and assembles the
    successful series into one table keyed by unit name. Importing a unit is a lookup in
    a registry of loadable units; what a unit's `compute` does is its own function. */
module FeatureEngine {
  import opened Wrappers
  import opened Frames

  /** The loaded tables, by source name. */
  type Data = map<string, Frame>

  /** What a call of a unit's `compute` does: returns a series, returns something that is
      not a series, or raises. */
  datatype ComputeOutcome = Returned(series: Series) | ReturnedOther | Raised(error: string)

  /** An importable unit; `compute` is absent when the unit does not define it. */
  datatype FeatureModule = FeatureModule(compute: Option<Data -> ComputeOutcome>)

  /** The units that import successfully, by module name. */
  type Registry = map<string, FeatureModule>

  // ---------------------------------------------------------------------------
  // Discovery (`_discover_features`)
  // ---------------------------------------------------------------------------

  const InitFile := "__init__.py"

  /** A name the `*.py` pattern matches. */
  predicate IsPythonFile(name: string)
  {
    |name| >= 3 && name[|name| - 3..] == ".py"
  }

  /** A file that is a feature unit: a Python file other than `__init__.py`. */
  predicate IsUnitFile(name: string)
  {
    IsPythonFile(name) && name != InitFile
  }

  /** The file name without its `.py` suffix (`Path.stem`); a name that is only `.py` is a
      hidden file without a suffix and keeps its whole name. */
  function Stem(name: string): string
    requires IsPythonFile(name)
  {
    if name == ".py" then name else name[..|name| - 3]
  }

  /** The stems of the unit files, in the order the files are listed. */
  function Discovered(files: seq<string>): (r: seq<string>)
    ensures |r| <= |files|
    ensures forall i :: 0 <= i < |files| && IsUnitFile(files[i]) ==> Stem(files[i]) in r
    ensures forall x :: x in r ==> x in UnitStems(files)
  {
    if |files| == 0 then []
    else
      var n := |files| - 1;
      var rest := Discovered(files[..n]);
      assert forall i :: 0 <= i < n ==> files[..n][i] == files[i];
      if IsUnitFile(files[n]) then rest + [Stem(files[n])] else rest
  }

  /** The stems of all unit files of the listing. */
  function UnitStems(files: seq<string>): set<string>
  {
    set i | 0 <= i < |files| && IsUnitFile(files[i]) :: Stem(files[i])
  }

  /** `_discover_features`: walks the listing and collects the stem of every unit file. */
  method DiscoverFeatures(files: seq<string>) returns (features: seq<string>)
    ensures features == Discovered(files)
  {
    features := [];
    var i := 0;
    while i < |files|
      invariant 0 <= i <= |files|
      invariant features == Discovered(files[..i])
    {
      assert files[..i + 1][..i] == files[..i];
      if IsUnitFile(files[i]) {
        features := features + [Stem(files[i])];
      }
      i := i + 1;
    }
    assert files[..i] == files;
  }

  /** The package initialiser is never discovered: the only file with stem `__init__` is
      `__init__.py` itself. */
  lemma InitNeverDiscovered(files: seq<string>)
    ensures "__init__" !in Discovered(files)
  {
  }

  // ---------------------------------------------------------------------------
  // Isolated execution (`_execute_feature`)
  // ---------------------------------------------------------------------------

  /** `_execute_feature`: the unit's series, or nothing when the unit cannot be imported,
      has no `compute`, returns something other than a series, or raises. So a unit yields
      a result exactly when it imports, defines `compute`, and `compute` returns a series,
      and that series is passed on unchanged. */
  function ExecuteFeature(name: string, data: Data, registry: Registry): (r: Option<Series>)
    ensures r.Some? <==> name in registry && registry[name].compute.Some? && registry[name].compute.value(data).Returned?
    ensures r.Some? ==> r.value == registry[name].compute.value(data).series
  {
    if name !in registry then None
    else
      match registry[name].compute
      case None => None
      case Some(compute) =>
        match compute(data)
        case Returned(s) => Some(s)
        case ReturnedOther => None
        case Raised(_) => None
  }

  // ---------------------------------------------------------------------------
  // Assembly (`compute_all_features`)
  // ---------------------------------------------------------------------------

  /** A unit whose result is kept: present and not empty. */
  predicate Succeeds(name: string, data: Data, registry: Registry)
  {
    var r := ExecuteFeature(name, data, registry);
    r.Some? && !r.value.IsEmpty()
  }

  /** The successful units' names, each once in order of first success, and their series
      (a later success of the same name replaces the series, as a dictionary assignment). */
  function Collected(features: seq<string>, data: Data, registry: Registry): (r: (seq<string>, map<string, Series>))
    ensures forall x :: x in r.0 <==> x in r.1
    ensures forall x :: x in r.0 <==> x in features && Succeeds(x, data, registry)
    ensures forall i, j :: 0 <= i < j < |r.0| ==> r.0[i] != r.0[j]
    ensures forall x :: x in r.1 ==> !r.1[x].IsEmpty() && Some(r.1[x]) == ExecuteFeature(x, data, registry)
  {
    if |features| == 0 then ([], map[])
    else
      var n := |features| - 1;
      var (names, series) := Collected(features[..n], data, registry);
      assert features == features[..n] + [features[n]];
      var name := features[n];
      if Succeeds(name, data, registry) then
        (if name in series then names else names + [name], series[name := ExecuteFeature(name, data, registry).value])
      else (names, series)
  }

  /** The union of the indexes of the named series, in ascending order when each is. */
  function UnionIndex(names: seq<string>, series: map<string, Series>): (r: seq<Date>)
    requires forall x :: x in names ==> x in series
    ensures forall d :: d in r <==> exists k :: 0 <= k < |names| && d in series[names[k]].index
  {
    if |names| == 0 then []
    else
      var n := |names| - 1;
      var rest := UnionIndex(names[..n], series);
      assert forall k :: 0 <= k < n ==> names[..n][k] == names[k];
      MergeDates(rest, series[names[n]].index)
  }

  /** The union of strictly increasing indexes is strictly increasing. */
  lemma {:induction false} UnionIndexIncreasing(names: seq<string>, series: map<string, Series>)
    requires forall x :: x in names ==> x in series && StrictlyIncreasing(series[x].index)
    ensures StrictlyIncreasing(UnionIndex(names, series))
  {
    if |names| > 0 {
      var n := |names| - 1;
      UnionIndexIncreasing(names[..n], series);
      MergeDatesIncreasing(UnionIndex(names[..n], series), series[names[n]].index);
    }
  }

  /** `pd.DataFrame(feature_series)`: one column per name, over the union of the indexes;
      a cell is the series' value on that date, missing where the series lacks the date. */
  function Assemble(names: seq<string>, series: map<string, Series>): (df: Frame)
    requires forall x :: x in names ==> x in series && series[x].Valid()
    ensures df.Valid()
    ensures df.Names() == names
  {
    var index := UnionIndex(names, series);
    Frame(index, seq(|names|, k requires 0 <= k < |names| =>
      Column(names[k], seq(|index|, t requires 0 <= t < |index| => ValueAt(series[names[k]], index[t])))))
  }

  /** `compute_all_features`: discovers the units, runs each (one unit's failure does not
      stop the others), keeps the non-empty results keyed by unit name, and assembles them;
      an empty table when nothing is discovered or nothing succeeds. */
  method ComputeAllFeatures(data: Data, files: seq<string>, registry: Registry) returns (df: Frame)
    requires forall m :: m in registry && registry[m].compute.Some? ==>
      forall s :: registry[m].compute.value(data) == Returned(s) ==> s.Valid()
    ensures var c := Collected(Discovered(files), data, registry);
      df == if |c.0| == 0 then EmptyFrame else Assemble(c.0, c.1)
  {
    var features := DiscoverFeatures(files);
    if |features| == 0 {
      return EmptyFrame;
    }
    var names: seq<string> := [];
    var series: map<string, Series> := map[];
    var i := 0;
    while i < |features|
      invariant 0 <= i <= |features|
      invariant (names, series) == Collected(features[..i], data, registry)
    {
      assert features[..i + 1][..i] == features[..i];
      var result := ExecuteFeature(features[i], data, registry);
      if result.Some? && !result.value.IsEmpty() {
        if features[i] !in series {
          names := names + [features[i]];
        }
        series := series[features[i] := result.value];
      }
      i := i + 1;
    }
    assert features[..i] == features;
    if |names| == 0 {
      return EmptyFrame;
    }
    forall x | x in names
      ensures x in series && series[x].Valid()
    {
      assert Some(series[x]) == ExecuteFeature(x, data, registry);
    }
    df := Assemble(names, series);
    var _ := CheckNullPercentage(df, HighNullThreshold);
  }

  /** The assembled table has exactly one column per successful unit, named after the
      unit; its index is the union of their indexes; each cell is the unit's value on that
      date, or missing where the unit lacks the date. */
  lemma AssembledTable(names: seq<string>, series: map<string, Series>)
    requires forall x :: x in names ==> x in series && series[x].Valid()
    ensures var df := Assemble(names, series);
      |df.columns| == |names| &&
      (forall d :: d in df.index <==> exists k :: 0 <= k < |names| && d in series[names[k]].index) &&
      (forall k, t :: 0 <= k < |names| && 0 <= t < |df.index| ==>
        df.columns[k].name == names[k] &&
        (df.index[t] !in series[names[k]].index ==> df.columns[k].cells[t].None?) &&
        (df.index[t] in series[names[k]].index ==>
          df.columns[k].cells[t] == series[names[k]].values[IndexOf(series[names[k]].index, df.index[t])]))
  {
  }

  // ---------------------------------------------------------------------------
  // The null-fraction diagnostic (`_check_null_percentage`)
  // ---------------------------------------------------------------------------

  const HighNullThreshold: real := 0.30

  /** A flagged column: its name, null fraction and null count. */
  datatype NullReport = NullReport(name: string, fraction: real, count: nat)

  /** The report for a column of a table with `total` rows. */
  function ReportOf(c: Column, total: nat): NullReport
    requires total > 0
  {
    NullReport(c.name, NullCount(c.cells) as real / total as real, NullCount(c.cells))
  }

  /** The reports of the columns whose null fraction exceeds the threshold, in order. */
  function HighNull(columns: seq<Column>, total: nat, threshold: real): (r: seq<NullReport>)
    requires total > 0
    ensures forall i :: 0 <= i < |columns| && ReportOf(columns[i], total).fraction > threshold ==>
      ReportOf(columns[i], total) in r
    ensures forall x :: x in r ==> x.fraction > threshold && exists i :: 0 <= i < |columns| && x == ReportOf(columns[i], total)
  {
    if |columns| == 0 then []
    else
      var n := |columns| - 1;
      var rest := HighNull(columns[..n], total, threshold);
      assert forall i :: 0 <= i < n ==> columns[..n][i] == columns[i];
      var report := ReportOf(columns[n], total);
      if report.fraction > threshold then rest + [report] else rest
  }

  /** `_check_null_percentage`: flags, column by column, those whose null fraction is
      strictly above the threshold; nothing for an empty table. The table is not changed. */
  method CheckNullPercentage(df: Frame, threshold: real) returns (flagged: seq<NullReport>)
    ensures df.IsEmpty() ==> flagged == []
    ensures !df.IsEmpty() ==> flagged == HighNull(df.columns, |df.index|, threshold)
  {
    if df.IsEmpty() {
      return [];
    }
    var total := |df.index|;
    flagged := [];
    var i := 0;
    while i < |df.columns|
      invariant 0 <= i <= |df.columns|
      invariant flagged == HighNull(df.columns[..i], total, threshold)
    {
      assert df.columns[..i + 1][..i] == df.columns[..i];
      var col := df.columns[i];
      var nullCount := NullCount(col.cells);
      var nullPercentage := nullCount as real / total as real;
      if nullPercentage > threshold {
        flagged := flagged + [NullReport(col.name, nullPercentage, nullCount)];
      }
      i := i + 1;
    }
    assert df.columns[..i] == df.columns;
  }

  /** With a non-negative threshold a column without nulls is never flagged; with a
      threshold below 1 a column of a valid table that is entirely missing always is. */
  lemma NullExtremes(c: Column, total: nat, threshold: real)
    requires total > 0
    ensures threshold >= 0.0 && NullCount(c.cells) == 0 ==> ReportOf(c, total).fraction <= threshold
    ensures threshold < 1.0 && |c.cells| == total && (forall i :: 0 <= i < |c.cells| ==> c.cells[i].None?) ==>
      ReportOf(c, total).fraction > threshold
  {
    if |c.cells| == total && forall i :: 0 <= i < |c.cells| ==> c.cells[i].None? {
      assert |Present(c.cells)| == 0;
      SelfRatio(total);
    }
  }

  lemma SelfRatio(total: nat)
    requires total > 0
    ensures total as real / total as real == 1.0
  {
  }
}
