# bifx fear index: a Dafny model

This project models the deterministic core of **bifx**, a pipeline that builds a daily
"fear index" for the Turkish equity market (BIST-100) and evaluates it. The pipeline has four stages:

1. **Data acquisition** (`core/data_loader.py`). Each enabled data source is served from a
   fresh cache file or fetched from its provider (Yahoo Finance, Alpha Vantage FX, a manual
   CSV), and written back to the cache when the result is non-empty. Search-interest data
   for a keyword list is loaded the same way under `GoogleTrends`.
2. **Feature registry** (`core/feature_engine.py`). It discovers the feature units in the
   `features` directory and runs each one in isolation: a unit that is missing, lacks
   `compute`, returns something other than a series, or raises is simply unavailable. It
   then assembles the non-empty series, keyed by unit name, on the union of their dates. A
   diagnostic flags columns with too many missing values. Two units are modelled:
   `example_double_price` (twice the BIST-100 close) and `vix_level` (the VIX close).
3. **Index synthesis** (`core/index_calculator.py`). Each feature column is scaled between
   its 1st and 99th percentiles onto [min, max] and clipped. A column with too few values
   becomes the neutral 50.0, and constant or empty columns are dropped. The columns are
   combined per row as a weighted average whose weights are renormalised over the features
   present that day. The result is smoothed by an exponential moving average (`adjust=False`)
   and clipped again.
4. **Backtest** (`core/backtest.py`). The index is inner-joined with the BIST-100 close.
   Daily and next-day returns are derived, and incomplete rows are dropped. Crash days are
   labelled for a ROC-AUC guard. The overlay strategy's exposure falls linearly from 1 to 0
   between the low and high fear thresholds. Strategy and market returns are accumulated as
   running products, and the Sharpe ratios carry a zero-volatility guard.

`config.py` supplies the defaults: the six feature weights summing to 1, the [0, 100] range,
the span of 5, the backtest thresholds and the one-day cache validity.

Conventions of the model:
- A pandas missing value (NaN) is `None` in a `Cell = Option<real>`.
- Dates are integers, and arithmetic is over the reals.
- Tables are values: `Frame`, a date index with named columns, and `Series`.
- The file system, the clock and the network are inputs:
  - the file system is a map from path to stored table with its age in whole days;
  - each provider is a function from its request to its reply;
  - the data store logs every provider call.
- The library statistics (Spearman correlation, the ROC-AUC score and the annualised
  Sharpe value) are function parameters.

Two points about the source files:
- config.py does not define the `DataSourceConfig` and `APIConfig` records that
  core/data_loader.py:7 imports, and its `DataSources` has no `sources` list (read at
  core/data_loader.py:194). The model reconstructs them from their uses in
  core/data_loader.py:148-199:
  - `DataSourceConfig` holds a name, provider, symbol and enabled flag;
  - `DataSources` holds the sources and the trends keywords;
  - `ApiConfig` holds an optional key.
- config.py:41 gives `vix_level` a default weight of 0.10, so of the two modelled units
  only `example_double_price` is unweighted (`ExampleDoublePrice.NeverWeighted`).

## Model

| member | source | states |
|---|---|---|
| Config.DefaultDataConfig | config.py:6-12 | cache on, one-day validity, three years ending today, cache under `data/raw` |
| Config.MakeIndexConfig | config.py:23-44 | default weights installed only when the weights are absent; a given mapping, even an empty one, is kept unchanged |
| Config.DefaultWeightsKeys | config.py:31-44 | the default configuration carries the six named weights; `example_double_price` has none |
| Config.WeightedFeaturesDistinct | config.py:36-43 | the six weighted feature names are distinct |
| Config.DefaultWeightsPositive | config.py:36-43 | every default weight is positive |
| Config.DefaultWeightsSumToOne | config.py:36-43 | the default weights sum to exactly 1.0 |
| Config.DefaultIndexSettings | config.py:25-28 | defaults: zscore_minmax, min 0.0 < max 100.0, span 5 |
| Config.DefaultBacktestThresholds | config.py:48-53 | crash threshold -0.02, low fear 30 < high fear 70, risk-free rate 0, plotting on |
| Config.MakeDataSources | config.py:65-71 | the default trends keywords are installed only when none are given |
| IndexCalculator.RobustBounds | core/index_calculator.py:19-20 | p01 <= p99, each within the range of the valid values |
| IndexCalculator.Scale | core/index_calculator.py:26-30 | a scaled and clipped value lies in [min_val, max_val] |
| IndexCalculator.Neutral | core/index_calculator.py:16 | every row is the literal 50.0, for the full index length |
| IndexCalculator.NormalizeZscoreMinmax | core/index_calculator.py:11-30 | fewer than 10 valid values or p01 == p99 give 50.0 on every row, missing rows included; otherwise missing stays missing and every present value lands in [min_val, max_val] |
| IndexCalculator.ScaleProperties | core/index_calculator.py:26-30 | values <= p01 give min_val, values >= p99 give max_val, the map is monotone |
| IndexCalculator.NormalizeOrderPreserving | core/index_calculator.py:26-30 | the column normalisation maps p01 and below to min_val, p99 and above to max_val, and preserves order |
| IndexCalculator.StretchMonotone | core/index_calculator.py:29 | the linear stretch onto [min, max] is monotone |
| IndexCalculator.StretchEnds | core/index_calculator.py:29 | the stretch sends 0 to min_val and 1 to max_val |
| IndexCalculator.NormalizeFeatures | core/index_calculator.py:33-47 | the normalised table keeps the input index and holds the non-skipped columns in order |
| IndexCalculator.NormalizedColumnsSpec | core/index_calculator.py:36-47 | exactly the columns whose std is not 0 and which are not all missing are kept, each normalised, each of full length; none kept iff all skipped |
| IndexCalculator.SingleValueColumnIsNeutral | core/index_calculator.py:13-16 | a column with one valid value has NaN std, so it is kept, and it becomes 50.0 everywhere |
| IndexCalculator.Used | core/index_calculator.py:59-64 | a column adds weight to a row exactly when its weight is > 0 (absent = 0) and its value is present |
| IndexCalculator.ApplyWeights | core/index_calculator.py:50-74 | the loop over columns yields, row by row, the weighted sum over present contributing values divided by their total weight, missing when there is none |
| IndexCalculator.WeightsUsedZeroIff | core/index_calculator.py:54-64 | the weight used in a row is >= 0, and 0 iff no column contributes there |
| IndexCalculator.RowAverage | core/index_calculator.py:58-72 | a row's raw index is missing iff no weighted feature is present there (0/0 in pandas) |
| IndexCalculator.WeightedSumBounds | core/index_calculator.py:58-64 | the weighted sum lies between lo and hi times the weight used when every contributing value lies in [lo, hi] |
| IndexCalculator.RowAverageBetween | core/index_calculator.py:58-69 | the raw index lies between the min and max of the contributing present values |
| IndexCalculator.RowAverageSingle | core/index_calculator.py:58-69 | a row with one contributing feature equals that feature's value |
| IndexCalculator.RowAverageScaleInvariant | core/index_calculator.py:58-69 | multiplying all weights by a positive factor leaves every row unchanged |
| IndexCalculator.RowAverageIgnoresUnweighted | core/index_calculator.py:59-60 | a column of weight <= 0 (or absent) does not change any row |
| IndexCalculator.Alpha | core/index_calculator.py:79 | the smoothing factor 2/(span+1) lies in (0, 1] for span >= 1 |
| IndexCalculator.DefaultAlpha | core/index_calculator.py:79 | with the default span of 5, alpha = 1/3 |
| IndexCalculator.EwmStep | core/index_calculator.py:79 | one step of the `adjust=False` recurrence keeps the past weight non-negative |
| IndexCalculator.EwmStates | core/index_calculator.py:79 | one state per input, each with a non-negative past weight |
| IndexCalculator.EwmMean | core/index_calculator.py:77-79 | one smoothed value per input, missing exactly on the leading run of missing inputs, and equal to the first input when that is present |
| IndexCalculator.EwmMeanBetween | core/index_calculator.py:77-79 | smoothing preserves the length, and every present output lies within bounds holding for all present inputs |
| IndexCalculator.EwmStatesBetween | core/index_calculator.py:79 | every present state lies within bounds holding for all present inputs |
| IndexCalculator.BlendBetween | core/index_calculator.py:79 | one averaging step stays between its two values |
| IndexCalculator.StepBetween | core/index_calculator.py:79 | a step keeps the mean within bounds holding for the previous mean and the input |
| IndexCalculator.EwmMissingIffLeading | core/index_calculator.py:79 | the smoothed value is missing exactly on the leading run of missing inputs |
| IndexCalculator.EwmSettled | core/index_calculator.py:79 | without missing inputs, every state holds a mean with past weight 1 |
| IndexCalculator.EwmRecurrence | core/index_calculator.py:77-79 | without missing inputs, y0 = x0 and yt = yt-1 + alpha*(xt - yt-1) |
| IndexCalculator.BlendSettled | core/index_calculator.py:79 | with the past weighing 1, the recurrence step is the textbook update |
| IndexCalculator.SettledStep | core/index_calculator.py:79 | a settled state steps to the textbook update and stays settled |
| IndexCalculator.EwmStatesPrefix | core/index_calculator.py:79 | the states of a prefix are the prefix of the states (the average is causal) |
| IndexCalculator.EwmStatesStep | core/index_calculator.py:79 | each state is one step from the previous one, the first from the initial state |
| IndexCalculator.EwmStatesFirst | core/index_calculator.py:79 | the first state is one step from the initial (empty) state |
| IndexCalculator.Finish | core/index_calculator.py:103-106 | the smoothed, clipped index keeps the length and every present value lies in [min_value, max_value] |
| IndexCalculator.CalculateFearIndex | core/index_calculator.py:82-117 | empty input, or every column dropped, gives an empty table; otherwise a single `fear_index` column on the input index, the clipped smoothed row averages, all present values in [min_value, max_value] |
| Backtest.Candidates | core/backtest.py:21 | one candidate row per fear-index date |
| Backtest.Matches | core/backtest.py:21 | the matched positions are increasing, each has its date in the other index, and every such position is present |
| Backtest.Join | core/backtest.py:21 | the inner join keeps exactly the fear-index rows whose date the close series has, in the fear index's order: its rows are the candidates at the increasing matched positions |
| Backtest.Ffill | core/backtest.py:24 | forward fill keeps present values, fills a gap with the previous row, leaves a leading gap missing |
| Backtest.PctChange | core/backtest.py:24 | one return per row, the first missing; between two consecutive present closes, the earlier non-zero, the return is close_i/close_i-1 - 1 |
| Backtest.FfillCarries | core/backtest.py:24 | the forward fill carries a present close over the missing closes after it |
| Backtest.FfillLeading | core/backtest.py:24 | the forward fill leaves a leading run of missing closes missing |
| Backtest.PaddedReturns | core/backtest.py:24 | with k the last non-zero close before row i, a present close at i gives close_i/close_k - 1 and a missing close at i gives 0.0, the padding of `pct_change()` |
| Backtest.ReturnsBeforeFirstClose | core/backtest.py:24 | there is no return before the first present close |
| Backtest.MergeData | core/backtest.py:14-35 | a merged row exists iff an interior joined row (neither first nor last) has its fear index, close, return and next-day return all present; the row carries that date, fear index, close, both returns and their magnitudes |
| Backtest.MergeCandidates | core/backtest.py:28-32 | one candidate merged row per joined row |
| Backtest.RowsAt | core/backtest.py:28-32 | one candidate merged row per joined row |
| Backtest.KeptRows | core/backtest.py:28-32 | when the first row has no return, the present candidates are exactly the interior joined rows with every value present, each carrying that row's values |
| Backtest.Closes | core/backtest.py:18 | the close column has one cell per joined row |
| Backtest.Somes | core/backtest.py:32 | `dropna` keeps exactly the complete rows |
| Backtest.MergedDatesInBoth | core/backtest.py:21-32 | every merged date is in both inputs |
| Backtest.KeptRow | core/backtest.py:28-32 | the first and last joined rows, and rows with a missing fear index or close, are never kept |
| Backtest.PresentReturns | core/backtest.py:24 | with all closes present and non-zero, the return at t is close_t/close_t-1 - 1 |
| Backtest.ConsecutiveReturns | core/backtest.py:18-32 | with all closes present, a row is kept iff it is neither first nor last and has a fear value; its return, absolute return and next-day values come from consecutive joined rows |
| Backtest.CrashDays | core/backtest.py:52 | a row is labelled 1 iff its next-day return is strictly below the threshold, else 0 |
| Backtest.LabelSumCounts | core/backtest.py:54 | the crash count lies in [0, n], equals n iff every row is a crash day, and is <= 1 when no two rows are crash days |
| Backtest.LabelSumZero | core/backtest.py:54 | no crash day gives a crash count of 0 |
| Backtest.RocAuc | core/backtest.py:48-62 | at most one crash day gives exactly 0.0; the score fails iff there are >= 2 rows and all are crash days (one class only) |
| Backtest.Exposure | core/backtest.py:76-84 | the exposure fails only at level == low == high (division by zero), and otherwise lies in [0, 1] |
| Backtest.ExposureAnchors | core/backtest.py:76-84 | exposure 1 at the low threshold, 0 at the high one, 0.5 at the midpoint |
| Backtest.RampAnchors | core/backtest.py:83-84 | the linear part is 1 at low, 0 at high, 0.5 at the midpoint |
| Backtest.ExposureNonIncreasing | core/backtest.py:76-84 | exposure never increases with the fear level |
| Backtest.Exposures | core/backtest.py:86 | the column succeeds iff every row's exposure does, and then holds each row's exposure |
| Backtest.ExposuresInUnit | core/backtest.py:86 | for low < high, every exposure exists and lies in [0, 1] |
| Backtest.Fears | core/backtest.py:86 | one fear value per merged row |
| Backtest.Returns | core/backtest.py:89 | one market return per merged row |
| Backtest.NextAbsReturns | core/backtest.py:42 | one next-day absolute return per merged row |
| Backtest.StrategyReturns | core/backtest.py:89 | one strategy return per row |
| Backtest.StrategyExtremes | core/backtest.py:89 | exposure 1 everywhere reproduces the market returns, exposure 0 gives zero returns |
| Backtest.GrowthStep | core/backtest.py:92-93 | the running product extends by (1 + r) |
| Backtest.GrowthFacts | core/backtest.py:92-93 | growth is positive when every return exceeds -1, and 1 when all returns are 0 |
| Backtest.CumulativeProduct | core/backtest.py:92-93 | the cumulative column at k is the product of (1 + r) over rows 0..k |
| Backtest.TotalReturn | core/backtest.py:99-100 | the last cumulative value minus 1 is the total growth minus 1 |
| Backtest.Excess | core/backtest.py:66 | one excess return per return |
| Backtest.SharpeRatio | core/backtest.py:65-69 | a constant series of >= 2 returns gives 0.0 whatever the risk-free rate; fewer than two returns give NaN; otherwise the annualised ratio of the excess returns |
| Backtest.ExcessConstant | core/backtest.py:66 | subtracting the daily risk-free rate keeps a series constant, or not constant |
| Backtest.MergedTable.constructor | core/backtest.py:168 | the merged table starts with its rows and no derived columns |
| Backtest.CalculateRocAuc | core/backtest.py:48-62 | adds the crash-day column in place, changes nothing else, and returns the guarded ROC-AUC |
| Backtest.BacktestOverlay | core/backtest.py:72-115 | adds the exposure, strategy-return and both cumulative columns in place, and returns both Sharpe ratios and total returns |
| Backtest.MetricsOutcome | core/backtest.py:170-186 | an empty merge gives `{}`; otherwise exactly the six metric keys, with both total returns as growth - 1, failing only when the ROC-AUC or an exposure fails |
| Backtest.RunBacktest | core/backtest.py:159-194 | the result is the metrics of the merged data under the given or the default configuration |
| FeatureEngine.Discovered | core/feature_engine.py:11-19 | the stem of every `.py` file except `__init__.py` is discovered, and nothing else |
| FeatureEngine.DiscoverFeatures | core/feature_engine.py:11-19 | the discovery loop yields exactly the discovered stems, in listing order |
| FeatureEngine.InitNeverDiscovered | core/feature_engine.py:14 | `__init__` is never a discovered unit |
| FeatureEngine.ExecuteFeature | core/feature_engine.py:22-41 | a result exists iff the unit imports, has `compute`, and `compute` returns a series, which is passed on unchanged |
| FeatureEngine.Collected | core/feature_engine.py:56-61 | a unit is collected iff it is discovered and yields a non-empty series, keyed once by its module name; one unit's failure does not affect the others |
| FeatureEngine.UnionIndex | core/feature_engine.py:68 | the assembled index holds exactly the dates of the collected series |
| FeatureEngine.UnionIndexIncreasing | core/feature_engine.py:68 | the union of increasing indexes is increasing |
| FeatureEngine.Assemble | core/feature_engine.py:68 | the assembled table is rectangular, with one column per unit name in order |
| FeatureEngine.AssembledTable | core/feature_engine.py:68 | columns are keyed by module name; the index is the union of the series' dates; on a date the series has, a cell holds the series' value at that date's position in its own index, and elsewhere it is missing |
| FeatureEngine.ComputeAllFeatures | core/feature_engine.py:44-76 | no unit, or no successful unit, gives an empty table; otherwise the assembly of the collected series |
| FeatureEngine.HighNull | core/feature_engine.py:87-96 | a column is reported when its null fraction is strictly above the threshold, and every report is such a column's |
| FeatureEngine.CheckNullPercentage | core/feature_engine.py:79-103 | an empty table gives no report; otherwise exactly the strictly-above-threshold columns, in order; the table is not changed |
| FeatureEngine.NullExtremes | core/feature_engine.py:88-91 | a column without nulls is never flagged at a threshold >= 0, and an all-null column always is at a threshold < 1 |
| ExampleDoublePrice.Compute | features/example_double_price.py:4-12 | a missing or empty XU100 table gives the empty series; otherwise the series has the input dates, is named `example_double_price`, and halving each value gives the close back |
| ExampleDoublePrice.Registered | features/example_double_price.py:4-12 | registered under its name, the unit yields its series exactly when `compute` returns one |
| ExampleDoublePrice.NeverWeighted | config.py:36-43 | the unit has no default weight, so its column never changes the raw index |
| VixLevel.Compute | features/vix_level.py:4-16 | a missing or empty VIX table gives the empty series; otherwise the close values, unchanged, on the input dates, named `vix_level` |
| VixLevel.Registered | features/vix_level.py:4-16 | registered under its name, the unit yields its series exactly when `compute` returns one |
| DataLoader.CachePath | core/data_loader.py:13-15 | the cache path is the cache directory, a separator, the source name and `.parquet`, each readable back from it |
| DataLoader.CachePathInjective | core/data_loader.py:13-15 | different source names have different cache files |
| DataLoader.CacheValid | core/data_loader.py:18-25 | a cache file is valid only when it exists, caching is on, and its whole-day age is below the validity period |
| DataLoader.DefaultCacheUnderOneDay | core/data_loader.py:18-25 | under the default settings a file is fresh iff it is less than one full day (24 hours) old: its whole-day age is 0 |
| DataLoader.LoadFromYahoo | core/data_loader.py:28-48 | a raising download gives the empty table; a download is passed on as it is |
| DataLoader.InRange | core/data_loader.py:96 | keeps exactly the entries with start <= date <= end, both ends included, in order |
| DataLoader.FxTable | core/data_loader.py:87-93 | the FX table is rectangular, with columns Open, High, Low, Close on the entries' dates |
| DataLoader.AlphaVantageTable | core/data_loader.py:85-96 | the FX rows are in date order, lie within the configured dates, and are exactly the reply's entries within them |
| DataLoader.LoadFromAlphaVantage | core/data_loader.py:51-102 | without a key, or with an empty daily series (the column renaming fails and is caught), the result is empty; a non-empty result needs a key and a reply with the daily series, and is an Open/High/Low/Close table in date order within the configured dates |
| DataLoader.DropColumns | core/data_loader.py:117-118 | keeps exactly the columns not named `isPartial` |
| DataLoader.LoadFromTrends | core/data_loader.py:105-124 | a failed call gives an empty table; a non-empty result has no `isPartial` column and keeps every other column; an empty one is returned as it is |
| DataLoader.LoadManualCsv | core/data_loader.py:127-141 | a missing manual file gives the empty table; an existing one gives its stored table |
| DataLoader.LoadSourceEffects | core/data_loader.py:144-175 | a fresh cache is served unchanged with no call and no write; an unknown provider gives empty and changes nothing; only a non-empty table with caching on is written |
| DataLoader.ManualSource | core/data_loader.py:127-175 | a manual source without a fresh cache calls no provider; a missing manual file gives the empty table and changes nothing; an existing one gives its table, cached under the source's name when non-empty and caching is on |
| DataLoader.LoadSourceKeepsCaches | core/data_loader.py:170-173 | loading a source keeps every cache file non-empty |
| DataLoader.ReloadServedFromCache | core/data_loader.py:151-173 | right after a non-empty load, with caching on and a positive validity, the same table comes back from the cache with no call and no write |
| DataLoader.LoadSourcesFacts | core/data_loader.py:194-201 | for any store: only enabled sources are loaded, only non-empty tables are kept, and only enabled sources cause provider calls; cache files stay non-empty when they are |
| DataLoader.LoadedNonEmpty | core/data_loader.py:151-153 | a table served from a non-empty cache is non-empty |
| DataLoader.NewRequests | core/data_loader.py:158-165 | the calls a source's load makes are that source's |
| DataLoader.LoadDataFacts | core/data_loader.py:178-222 | for any store: keys are enabled source names or `GoogleTrends` (only with keywords), every table but `GoogleTrends` is non-empty, and calls are for enabled sources or the keywords; the `GoogleTrends` table is non-empty only while every cache file is, since a fresh trends cache is served unchecked, and cache files stay non-empty when they are |
| DataLoader.DataStore.LoadSource | core/data_loader.py:144-175 | returns the table and leaves the files and the call log as the cache-first dispatch prescribes |
| DataLoader.DataStore.LoadData | core/data_loader.py:178-222 | the loop over sources, then the trends step, returns the loaded tables and leaves the store as specified |

## Left out

- Network, parquet and CSV I/O, `mkdir` and file modification times are inputs. The
  providers are functions of their requests, and each file carries its age in whole days.
  Logging is not modelled.
- `_load_from_yfinance` flattens multi-level columns; the model's Yahoo reply is already a
  flat table.
- The Alpha Vantage reply arrives as typed entries of four numbers. A non-empty daily
  series that does not convert (entries with other than four fields, a value that is not a
  number) makes the source catch the exception and return an empty table. Such a series
  cannot be written as a model reply; a failed request (`FxUnreachable`) gives the same
  empty table. An empty daily series is modelled: it gives the empty table.
- `_load_manual_csv` reads an existing file as its stored table. In the source, a file
  that does not parse, for example a CSV without a `Date` column, is caught and gives an
  empty table: nothing is cached and `load_data` drops the source. The model cannot
  represent such a file, so an existing manual file always yields its stored table.
- Paths are plain string concatenation. pathlib's handling of absolute names, `.` and
  repeated separators is not modelled.
- The `None` defaults of `load_data` are not modelled, because they come from the clock
  (`DataConfig`), the environment (`APIConfig`), and a `DataSources()` that has no `sources`
  list. `DataStore.LoadData` takes all three configurations explicitly.
- IndexCalculator.CalculateFearIndex: takes its configuration explicitly, so the default
  is passed as `DefaultIndexConfig`. It requires a span >= 1 because pandas raises for a
  smaller span, and that error is not modelled.
- Backtest.Change: a zero previous close gives an infinite return in pandas, which
  `dropna` keeps. The model treats that return as missing, because the reals have no
  infinity.
- Arithmetic is over the reals: no floating-point rounding and no infinities.
- The sample standard deviation is represented only by its zero test: two or more values,
  all equal.
- Quantiles use numpy's linear interpolation over the sorted values.
- Spearman correlation, the ROC-AUC score and the annualised Sharpe value (mean / std ×
  √252) are function parameters (`Backtest.Statistics`). Only the guards around them are
  modelled.
- `_plot_results` and the `plot_results` switch are not modelled (plotting).
- Duplicate dates in an index are not modelled. pandas joins them as a product; the
  model's lookups take the first occurrence.
- Discovery takes the directory listing as given. `glob` order and the `features_dir`
  default are not modelled, and `import_module` is a lookup in a registry of importable
  units.
- The other five feature units (realized_vol, usdtry_shock, cds_spike, sentiment_trends,
  correlation_breakdown) are outside the modelled core: windowed floating-point statistics.
