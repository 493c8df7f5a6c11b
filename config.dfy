/** The pipeline's fixed configuration records and their defaults (config.py). */
module Config {
  import opened Wrappers
  import opened Frames

  /** Where and for which dates data is acquired, and how long cached files stay fresh. */
  datatype DataConfig = DataConfig(
    startDate: Date,
    endDate: Date,
    cacheDir: string,
    useCache: bool,
    cacheDaysValid: int)

  /** The defaults: the three years up to `today`, the cache under the project's
      `data/raw` directory, caching on, and files valid for one day. */
  function DefaultDataConfig(today: Date, projectDir: string): (c: DataConfig)
    ensures c.useCache && c.cacheDaysValid == 1
    ensures c.endDate - c.startDate == 365 * 3 && c.endDate == today
    ensures c.cacheDir == projectDir + "/data/raw"
  {
    DataConfig(today - 365 * 3, today, projectDir + "/data/raw", true, 1)
  }

  /** How the composite index is built: target range, smoothing span and feature weights. */
  datatype IndexConfig = IndexConfig(
    normalizationMethod: string,
    minValue: real,
    maxValue: real,
    emaSpan: int,
    defaultWeights: map<string, real>)

  /** The six weighted features, in the order the default mapping lists them. */
  const WeightedFeatures: seq<string> :=
    ["realized_vol", "usdtry_shock", "cds_spike", "sentiment_trends", "vix_level", "correlation_breakdown"]

  /** The weights installed when none are given. */
  const DefaultWeights: map<string, real> := map[
    "realized_vol" := 0.25,
    "usdtry_shock" := 0.20,
    "cds_spike" := 0.20,
    "sentiment_trends" := 0.15,
    "vix_level" := 0.10,
    "correlation_breakdown" := 0.10]

  /** Builds an index configuration; the default weights are installed only when the
      weights are absent (`None`), so any given mapping, even an empty one, is kept. */
  function MakeIndexConfig(
    normalizationMethod: string, minValue: real, maxValue: real, emaSpan: int,
    weights: Option<map<string, real>>): (c: IndexConfig)
    ensures weights.Some? ==> c.defaultWeights == weights.value
    ensures weights.None? ==> c.defaultWeights == DefaultWeights
    ensures c.minValue == minValue && c.maxValue == maxValue && c.emaSpan == emaSpan
    ensures c.normalizationMethod == normalizationMethod
  {
    var w := match weights
      case Some(m) => m
      case None => DefaultWeights;
    IndexConfig(normalizationMethod, minValue, maxValue, emaSpan, w)
  }

  /** `IndexConfig()` with every field defaulted. */
  const DefaultIndexConfig: IndexConfig := MakeIndexConfig("zscore_minmax", 0.0, 100.0, 5, None)

  /** The sum of the weights of `names`, a name missing from the mapping counting as 0. */
  function WeightSum(weights: map<string, real>, names: seq<string>): real
  {
    if |names| == 0 then 0.0
    else WeightSum(weights, names[..|names| - 1]) + (if names[|names| - 1] in weights then weights[names[|names| - 1]] else 0.0)
  }

  /** The default index configuration carries the default weights, which name exactly the
      six weighted features; the demonstration feature `example_double_price` has none. */
  lemma DefaultWeightsKeys()
    ensures DefaultIndexConfig.defaultWeights == DefaultWeights
    ensures DefaultWeights.Keys == set n | n in WeightedFeatures
    ensures "example_double_price" !in DefaultWeights
  {
  }

  /** The six weighted features are distinct. */
  lemma WeightedFeaturesDistinct()
    ensures |WeightedFeatures| == 6
    ensures forall i, j :: 0 <= i < j < |WeightedFeatures| ==> WeightedFeatures[i] != WeightedFeatures[j]
  {
  }

  /** Every default weight is positive. */
  lemma DefaultWeightsPositive()
    ensures forall n :: n in DefaultWeights ==> DefaultWeights[n] > 0.0
  {
  }

  /** The default weights add up to 1.0. */
  lemma DefaultWeightsSumToOne()
    ensures WeightSum(DefaultWeights, WeightedFeatures) == 1.0
  {
    var w, f := DefaultWeights, WeightedFeatures;
    assert f[..0] == [];
    assert f[..1][..0] == f[..0] && WeightSum(w, f[..1]) == 0.25;
    assert f[..2][..1] == f[..1] && WeightSum(w, f[..2]) == 0.45;
    assert f[..3][..2] == f[..2] && WeightSum(w, f[..3]) == 0.65;
    assert f[..4][..3] == f[..3] && WeightSum(w, f[..4]) == 0.80;
    assert f[..5][..4] == f[..4] && WeightSum(w, f[..5]) == 0.90;
    assert f[..6][..5] == f[..5] && f[..6] == f;
  }

  /** Default index settings: the range is [0, 100] and the span 5. */
  lemma DefaultIndexSettings()
    ensures DefaultIndexConfig.minValue == 0.0 < DefaultIndexConfig.maxValue == 100.0
    ensures DefaultIndexConfig.emaSpan == 5
    ensures DefaultIndexConfig.normalizationMethod == "zscore_minmax"
  {
  }

  /** Thresholds of the backtest. */
  datatype BacktestConfig = BacktestConfig(
    crashThreshold: real,
    highFearThreshold: real,
    lowFearThreshold: real,
    riskFreeRate: real,
    plotResults: bool)

  const DefaultBacktestConfig: BacktestConfig := BacktestConfig(-0.02, 70.0, 30.0, 0.0, true)

  /** Default backtest thresholds: a crash is a fall of more than 2%, the low-fear threshold
      lies below the high-fear one, and the risk-free rate is zero. */
  lemma DefaultBacktestThresholds()
    ensures DefaultBacktestConfig.crashThreshold == -0.02
    ensures DefaultBacktestConfig.lowFearThreshold == 30.0 < DefaultBacktestConfig.highFearThreshold == 70.0
    ensures DefaultBacktestConfig.riskFreeRate == 0.0 && DefaultBacktestConfig.plotResults
  {
  }

  /** One configured data source: its unique name, provider tag, provider-specific symbol
      and whether it is loaded at all. */
  datatype DataSourceConfig = DataSourceConfig(name: string, provider: string, symbol: string, enabled: bool)

  /** The source catalogue and the search-interest keywords loaded jointly. */
  datatype DataSources = DataSources(sources: seq<DataSourceConfig>, googleTrendsKeywords: seq<string>)

  const DefaultTrendsKeywords: seq<string> := ["borsa istanbul", "dolar", "ekonomi krizi", "faiz"]

  /** Builds the catalogue; the default keywords are installed only when none are given. */
  function MakeDataSources(sources: seq<DataSourceConfig>, keywords: Option<seq<string>>): (d: DataSources)
    ensures d.sources == sources
    ensures keywords.Some? ==> d.googleTrendsKeywords == keywords.value
    ensures keywords.None? ==> d.googleTrendsKeywords == DefaultTrendsKeywords
  {
    DataSources(sources, match keywords case Some(k) => k case None => DefaultTrendsKeywords)
  }

  /** Credentials; a key that is absent or empty counts as not configured. */
  datatype ApiConfig = ApiConfig(alphavantageKey: Option<string>)
  {
    predicate HasAlphavantageKey()
    {
      alphavantageKey.Some? && alphavantageKey.value != ""
    }
  }
}
