/** Data acquisition (core/data_loader.py): each enabled source is served from a fresh
    cache file or fetched from its provider and then cached; search-interest data for the
    keywords is loaded the same way under the name `GoogleTrends`. The file system is a map
    from path to stored table, with each file's age in whole days; every provider is a
    function from its request to its reply, and each call made is logged. */
module DataLoader {
  import opened Wrappers
  import opened Frames
  import opened Config

  /** A stored file: its table and its age in whole days (the clock is not modelled). */
  datatype StoredFile = StoredFile(table: Frame, ageDays: int)

  type Files = map<string, StoredFile>

  /** A provider call that either returns a table or raises. */
  datatype Download = Downloaded(table: Frame) | DownloadFailed

  /** One day of the Alpha Vantage daily FX series. */
  datatype FxEntry = FxEntry(date: Date, open: real, high: real, low: real, close: real)

  /** An Alpha Vantage reply: the request failed, the reply lacks the daily series (a rate
      limit note, say), or the daily series. */
  datatype FxResponse = FxUnreachable | FxInvalid | FxTimeSeries(entries: seq<FxEntry>)

  /** A call to an external provider. */
  datatype Request =
    | YahooRequest(symbol: string, start: Date, end: Date)
    | AlphaVantageRequest(symbol: string, key: string)
    | TrendsRequest(keywords: seq<string>, start: Date, end: Date)

  /** The external providers, each a function of its request. */
  datatype Providers = Providers(
    yahoo: (string, Date, Date) -> Download,
    alphaVantage: (string, string) -> FxResponse,
    trends: (seq<string>, Date, Date) -> Download)

  /** The files and the log of provider calls. */
  datatype Store = Store(files: Files, requests: seq<Request>)

  const TrendsName := "GoogleTrends"

  // ---------------------------------------------------------------------------
  // Cache files
  // ---------------------------------------------------------------------------

  /** The cache file of a source: `<cache_dir>/<name>.parquet`; the directory, the name
      and the suffix can be read back from it. */
  function CachePath(name: string, config: DataConfig): (path: string)
    ensures |path| == |config.cacheDir| + 1 + |name| + 8
    ensures path[..|config.cacheDir| + 1] == config.cacheDir + "/"
    ensures path[|config.cacheDir| + 1..|path| - 8] == name
    ensures path[|path| - 8..] == ".parquet"
  {
    config.cacheDir + "/" + name + ".parquet"
  }

  /** Different sources have different cache files. */
  lemma CachePathInjective(a: string, b: string, config: DataConfig)
    ensures CachePath(a, config) == CachePath(b, config) ==> a == b
  {
    var p := config.cacheDir + "/";
    if CachePath(a, config) == CachePath(b, config) {
      assert |a| == |b|;
      assert a == CachePath(a, config)[|p|..|p| + |a|];
      assert b == CachePath(b, config)[|p|..|p| + |b|];
    }
  }

  /** `_is_cache_valid`: the file exists, caching is on, and it is younger than the
      validity period (its age counted in whole days, as `timedelta.days` does). */
  predicate CacheValid(path: string, config: DataConfig, files: Files): (valid: bool)
    ensures valid ==> path in files && config.useCache && files[path].ageDays < config.cacheDaysValid
  {
    path in files && config.useCache && files[path].ageDays < config.cacheDaysValid
  }

  /** With the default settings a file is fresh exactly when it is less than one full day
      (24 hours) old, that is when its whole-day age is 0; a file written the previous
      calendar day but less than 24 hours ago is still fresh. */
  lemma DefaultCacheUnderOneDay(today: Date, projectDir: string, path: string, files: Files)
    ensures CacheValid(path, DefaultDataConfig(today, projectDir), files) <==> path in files && files[path].ageDays <= 0
  {
  }

  /** Every cache file holds a non-empty table: the loader only ever writes such tables. */
  ghost predicate CachesNonEmpty(config: DataConfig, files: Files)
  {
    forall name :: CachePath(name, config) in files ==> !files[CachePath(name, config)].table.IsEmpty()
  }

  // ---------------------------------------------------------------------------
  // Providers
  // ---------------------------------------------------------------------------

  /** `_load_from_yfinance`: the downloaded table, or an empty one when the call raises. */
  function LoadFromYahoo(symbol: string, config: DataConfig, providers: Providers): (df: Frame)
    ensures providers.yahoo(symbol, config.startDate, config.endDate).DownloadFailed? ==> df == EmptyFrame
    ensures providers.yahoo(symbol, config.startDate, config.endDate).Downloaded? ==>
      df == providers.yahoo(symbol, config.startDate, config.endDate).table
  {
    match providers.yahoo(symbol, config.startDate, config.endDate)
    case Downloaded(t) => t
    case DownloadFailed => EmptyFrame
  }

  function DateKey(e: FxEntry): real
  {
    e.date as real
  }

  /** The entries dated within [start, end], both ends included, in order. */
  function InRange(es: seq<FxEntry>, start: Date, end: Date): (r: seq<FxEntry>)
    ensures forall e :: e in r <==> e in es && start <= e.date <= end
    ensures SortedBy(es, DateKey) ==> SortedBy(r, DateKey)
  {
    if |es| == 0 then []
    else
      var n := |es| - 1;
      var rest := InRange(es[..n], start, end);
      assert es == es[..n] + [es[n]];
      assert SortedBy(es, DateKey) ==> SortedBy(es[..n], DateKey);
      if start <= es[n].date <= end then rest + [es[n]] else rest
  }

  /** The table of Alpha Vantage rows: dated rows with Open, High, Low and Close. */
  function FxTable(rows: seq<FxEntry>): (df: Frame)
    ensures df.Valid()
    ensures df.Names() == ["Open", "High", "Low", "Close"]
    ensures df.index == seq(|rows|, i requires 0 <= i < |rows| => rows[i].date)
  {
    var n := |rows|;
    Frame(seq(n, i requires 0 <= i < n => rows[i].date), [
      Column("Open", seq(n, i requires 0 <= i < n => Some(rows[i].open))),
      Column("High", seq(n, i requires 0 <= i < n => Some(rows[i].high))),
      Column("Low", seq(n, i requires 0 <= i < n => Some(rows[i].low))),
      Column("Close", seq(n, i requires 0 <= i < n => Some(rows[i].close)))])
  }

  /** The rows Alpha Vantage's daily series yields: sorted by date, then cut to the
      configured dates. */
  function FxRows(es: seq<FxEntry>, config: DataConfig): seq<FxEntry>
  {
    InRange(SortBy(es, DateKey), config.startDate, config.endDate)
  }

  /** `_load_from_alphavantage`: nothing (and no request) without a key; nothing when the
      request fails or the reply lacks the daily series; nothing for an empty daily series,
      whose zero-column table cannot take the four column names, a failure the source
      catches; otherwise the series' rows. A
      non-empty result needs a key and a reply with the daily series, and is an
      Open/High/Low/Close table in date order within the configured dates. */
  function LoadFromAlphaVantage(symbol: string, config: DataConfig, api: ApiConfig, providers: Providers): (df: Frame)
    ensures !api.HasAlphavantageKey() ==> df == EmptyFrame
    ensures api.HasAlphavantageKey() && providers.alphaVantage(symbol, api.alphavantageKey.value) == FxTimeSeries([]) ==>
      df == EmptyFrame
    ensures df != EmptyFrame ==>
      api.HasAlphavantageKey() && providers.alphaVantage(symbol, api.alphavantageKey.value).FxTimeSeries? &&
      df.Names() == ["Open", "High", "Low", "Close"] &&
      (forall i, j :: 0 <= i < j < |df.index| ==> df.index[i] <= df.index[j]) &&
      (forall i :: 0 <= i < |df.index| ==> config.startDate <= df.index[i] <= config.endDate)
  {
    if !api.HasAlphavantageKey() then EmptyFrame
    else
      match providers.alphaVantage(symbol, api.alphavantageKey.value)
      case FxUnreachable => EmptyFrame
      case FxInvalid => EmptyFrame
      case FxTimeSeries(es) =>
        if |es| == 0 then EmptyFrame
        else
          AlphaVantageTable(es, config);
          FxTable(FxRows(es, config))
  }

  /** The Alpha Vantage table, when there is one, is in date order, lies within the
      configured dates, and holds exactly the entries of the reply dated within them. */
  lemma AlphaVantageTable(es: seq<FxEntry>, config: DataConfig)
    ensures var rows := FxRows(es, config);
      var df := FxTable(rows);
      (forall i, j :: 0 <= i < j < |df.index| ==> df.index[i] <= df.index[j]) &&
      (forall i :: 0 <= i < |df.index| ==> config.startDate <= df.index[i] <= config.endDate) &&
      (forall e :: e in rows <==> e in es && config.startDate <= e.date <= config.endDate)
  {
    var sorted := SortBy(es, DateKey);
    var rows := FxRows(es, config);
    assert forall e :: e in sorted <==> e in es by {
      forall e ensures e in sorted <==> e in es {
        assert e in sorted <==> e in multiset(sorted);
      }
    }
    forall i, j | 0 <= i < j < |rows| ensures rows[i].date <= rows[j].date {
      assert DateKey(rows[i]) <= DateKey(rows[j]);
    }
    forall i | 0 <= i < |rows| ensures config.startDate <= rows[i].date <= config.endDate {
      assert rows[i] in rows;
    }
  }

  /** The columns not named `name`, in order. */
  function DropColumns(columns: seq<Column>, name: string): (r: seq<Column>)
    ensures forall c :: c in r <==> c in columns && c.name != name
  {
    if |columns| == 0 then []
    else
      var n := |columns| - 1;
      var rest := DropColumns(columns[..n], name);
      assert columns == columns[..n] + [columns[n]];
      if columns[n].name == name then rest else rest + [columns[n]]
  }

  /** `_load_from_pytrends`: the interest table, without its `isPartial` column when it
      has rows; an empty table when the call raises. */
  function LoadFromTrends(keywords: seq<string>, config: DataConfig, providers: Providers): (df: Frame)
    ensures providers.trends(keywords, config.startDate, config.endDate).DownloadFailed? ==> df == EmptyFrame
    ensures !df.IsEmpty() ==> forall c :: c in df.columns ==> c.name != "isPartial"
    ensures providers.trends(keywords, config.startDate, config.endDate).Downloaded? ==>
      var t := providers.trends(keywords, config.startDate, config.endDate).table;
      df.index == t.index &&
      (t.IsEmpty() ==> df == t) &&
      (!t.IsEmpty() ==> forall c :: c in df.columns <==> c in t.columns && c.name != "isPartial")
  {
    match providers.trends(keywords, config.startDate, config.endDate)
    case DownloadFailed => EmptyFrame
    case Downloaded(t) =>
      if !t.IsEmpty() && "isPartial" in t.Names() then Frame(t.index, DropColumns(t.columns, "isPartial"))
      else
        NamesCover(t);
        t
  }

  lemma NamesCover(f: Frame)
    ensures forall c :: c in f.columns ==> c.name in f.Names()
  {
    forall c | c in f.columns
      ensures c.name in f.Names()
    {
      var i :| 0 <= i < |f.columns| && f.columns[i] == c;
      assert f.Names()[i] == c.name;
    }
  }

  /** Where a manual file is looked for: `<cache_dir>/<filename>`. */
  function ManualPath(filename: string, config: DataConfig): string
  {
    config.cacheDir + "/" + filename
  }

  /** `_load_manual_csv`: the table of the file named `filename` in the cache directory, or
      an empty table when there is no such file. */
  function LoadManualCsv(filename: string, config: DataConfig, files: Files): (df: Frame)
    ensures ManualPath(filename, config) !in files ==> df == EmptyFrame
    ensures ManualPath(filename, config) in files ==> df == files[ManualPath(filename, config)].table
  {
    var path := ManualPath(filename, config);
    if path in files then files[path].table else EmptyFrame
  }

  // ---------------------------------------------------------------------------
  // One source (`_load_source`)
  // ---------------------------------------------------------------------------

  predicate KnownProvider(provider: string)
  {
    provider == "yfinance" || provider == "alphavantage" || provider == "manual"
  }

  /** The table the source's provider gives. */
  function Fetch(source: DataSourceConfig, config: DataConfig, api: ApiConfig, providers: Providers, files: Files): Frame
    requires KnownProvider(source.provider)
  {
    if source.provider == "yfinance" then LoadFromYahoo(source.symbol, config, providers)
    else if source.provider == "alphavantage" then LoadFromAlphaVantage(source.symbol, config, api, providers)
    else LoadManualCsv(source.symbol, config, files)
  }

  /** The provider calls fetching the source makes. */
  function RequestsFor(source: DataSourceConfig, config: DataConfig, api: ApiConfig): seq<Request>
  {
    if source.provider == "yfinance" then [YahooRequest(source.symbol, config.startDate, config.endDate)]
    else if source.provider == "alphavantage" && api.HasAlphavantageKey() then
      [AlphaVantageRequest(source.symbol, api.alphavantageKey.value)]
    else []
  }

  /** The table `_load_source` returns and the store after it: the cached table when the
      cache file is fresh; nothing for an unknown provider; otherwise the provider's table,
      written to the cache when it is non-empty and caching is on. */
  function LoadSourceSpec(source: DataSourceConfig, config: DataConfig, api: ApiConfig, providers: Providers, st: Store): (Frame, Store)
  {
    var path := CachePath(source.name, config);
    if CacheValid(path, config, st.files) then (st.files[path].table, st)
    else if !KnownProvider(source.provider) then (EmptyFrame, st)
    else
      var df := Fetch(source, config, api, providers, st.files);
      var files := if !df.IsEmpty() && config.useCache then st.files[path := StoredFile(df, 0)] else st.files;
      (df, Store(files, st.requests + RequestsFor(source, config, api)))
  }

  /** A fresh cache file is served as it is, with no provider call and no write; an
      unknown provider gives nothing and changes nothing; a fetched table is cached exactly
      when it is non-empty and caching is on; the request log only grows. */
  lemma LoadSourceEffects(source: DataSourceConfig, config: DataConfig, api: ApiConfig, providers: Providers, st: Store)
    ensures var path := CachePath(source.name, config);
      var (df, st') := LoadSourceSpec(source, config, api, providers, st);
      (CacheValid(path, config, st.files) ==> df == st.files[path].table && st' == st) &&
      (!CacheValid(path, config, st.files) && !KnownProvider(source.provider) ==> df == EmptyFrame && st' == st) &&
      (st'.files != st.files ==> !df.IsEmpty() && config.useCache && st'.files == st.files[path := StoredFile(df, 0)]) &&
      st.requests <= st'.requests
  {
  }

  /** A manual source without a fresh cache file calls no provider; a missing manual file
      gives an empty table and changes nothing, and an existing one gives its table, which
      is cached under the source's name when it is non-empty and caching is on. */
  lemma ManualSource(source: DataSourceConfig, config: DataConfig, api: ApiConfig, providers: Providers, st: Store)
    requires source.provider == "manual"
    ensures var (df, st') := LoadSourceSpec(source, config, api, providers, st);
      var path := CachePath(source.name, config);
      var manual := ManualPath(source.symbol, config);
      !CacheValid(path, config, st.files) ==>
        st'.requests == st.requests &&
        (manual !in st.files ==> df == EmptyFrame && st' == st) &&
        (manual in st.files ==> df == st.files[manual].table) &&
        (manual in st.files ==>
          st'.files == if !df.IsEmpty() && config.useCache then st.files[path := StoredFile(df, 0)] else st.files)
  {
  }

  /** The loader keeps every cache file non-empty. */
  lemma LoadSourceKeepsCaches(source: DataSourceConfig, config: DataConfig, api: ApiConfig, providers: Providers, st: Store)
    requires CachesNonEmpty(config, st.files)
    ensures CachesNonEmpty(config, LoadSourceSpec(source, config, api, providers, st).1.files)
  {
    var (df, st') := LoadSourceSpec(source, config, api, providers, st);
    var path := CachePath(source.name, config);
    forall name | CachePath(name, config) in st'.files
      ensures !st'.files[CachePath(name, config)].table.IsEmpty()
    {
      if st'.files != st.files && CachePath(name, config) != path {
        assert CachePath(name, config) in st.files;
      }
    }
  }

  /** Loading a source again right after it gave a non-empty table, with caching on and a
      positive validity period, gives the same table from the cache, calls no provider and
      writes nothing. */
  lemma {:induction false} ReloadServedFromCache(source: DataSourceConfig, config: DataConfig, api: ApiConfig, providers: Providers, st: Store)
    requires config.useCache && config.cacheDaysValid > 0
    requires !LoadSourceSpec(source, config, api, providers, st).0.IsEmpty()
    ensures var (df, st') := LoadSourceSpec(source, config, api, providers, st);
      LoadSourceSpec(source, config, api, providers, st') == (df, st')
  {
    var (df, st') := LoadSourceSpec(source, config, api, providers, st);
    var path := CachePath(source.name, config);
    if !CacheValid(path, config, st.files) {
      assert KnownProvider(source.provider);
      assert st'.files == st.files[path := StoredFile(df, 0)];
    }
    assert CacheValid(path, config, st'.files) && st'.files[path].table == df;
  }

  // ---------------------------------------------------------------------------
  // All sources (`load_data`)
  // ---------------------------------------------------------------------------

  /** The tables of the enabled sources, in catalogue order, keeping the non-empty ones. */
  function LoadSourcesSpec(sources: seq<DataSourceConfig>, config: DataConfig, api: ApiConfig, providers: Providers, st: Store): (map<string, Frame>, Store)
  {
    if |sources| == 0 then (map[], st)
    else
      var n := |sources| - 1;
      var (data, st1) := LoadSourcesSpec(sources[..n], config, api, providers, st);
      var source := sources[n];
      if !source.enabled then (data, st1)
      else
        var (df, st2) := LoadSourceSpec(source, config, api, providers, st1);
        (if df.IsEmpty() then data else data[source.name := df], st2)
  }

  /** The search-interest step: the cached table when fresh, else the fetched table when
      non-empty (and then cached when caching is on); nothing without keywords. */
  function LoadTrendsSpec(keywords: seq<string>, config: DataConfig, providers: Providers, data: map<string, Frame>, st: Store): (map<string, Frame>, Store)
  {
    if |keywords| == 0 then (data, st)
    else
      var path := CachePath(TrendsName, config);
      if CacheValid(path, config, st.files) then (data[TrendsName := st.files[path].table], st)
      else
        var df := LoadFromTrends(keywords, config, providers);
        var st1 := Store(st.files, st.requests + [TrendsRequest(keywords, config.startDate, config.endDate)]);
        if df.IsEmpty() then (data, st1)
        else if config.useCache then (data[TrendsName := df], Store(st.files[path := StoredFile(df, 0)], st1.requests))
        else (data[TrendsName := df], st1)
  }

  /** What `load_data` returns and the store after it. */
  function LoadDataSpec(sources: DataSources, config: DataConfig, api: ApiConfig, providers: Providers, st: Store): (map<string, Frame>, Store)
  {
    var (data, st1) := LoadSourcesSpec(sources.sources, config, api, providers, st);
    LoadTrendsSpec(sources.googleTrendsKeywords, config, providers, data, st1)
  }

  /** The names of the enabled sources. */
  function EnabledNames(sources: seq<DataSourceConfig>): set<string>
  {
    set i | 0 <= i < |sources| && sources[i].enabled :: sources[i].name
  }

  /** A provider call one of the enabled sources makes. */
  ghost predicate EnabledRequest(r: Request, sources: seq<DataSourceConfig>, config: DataConfig, api: ApiConfig)
  {
    exists i :: 0 <= i < |sources| && sources[i].enabled && r in RequestsFor(sources[i], config, api)
  }

  /** Whatever the store, the source step loads only enabled sources, keeps only non-empty
      tables and calls providers only for enabled sources; it keeps the cache files
      non-empty when they are. */
  lemma {:induction false} LoadSourcesFacts(sources: seq<DataSourceConfig>, config: DataConfig, api: ApiConfig, providers: Providers, st: Store)
    ensures var (data, st') := LoadSourcesSpec(sources, config, api, providers, st);
      data.Keys <= EnabledNames(sources) &&
      (forall name :: name in data ==> !data[name].IsEmpty()) &&
      (CachesNonEmpty(config, st.files) ==> CachesNonEmpty(config, st'.files)) &&
      st.requests <= st'.requests &&
      forall k :: |st.requests| <= k < |st'.requests| ==> EnabledRequest(st'.requests[k], sources, config, api)
  {
    if |sources| > 0 {
      var n := |sources| - 1;
      var (data, st1) := LoadSourcesSpec(sources[..n], config, api, providers, st);
      LoadSourcesFacts(sources[..n], config, api, providers, st);
      var source := sources[n];
      assert forall i :: 0 <= i < n ==> sources[..n][i] == sources[i];
      assert EnabledNames(sources[..n]) <= EnabledNames(sources);
      forall k | |st.requests| <= k < |st1.requests|
        ensures EnabledRequest(st1.requests[k], sources, config, api)
      {
        assert EnabledRequest(st1.requests[k], sources[..n], config, api);
        var i :| 0 <= i < n && sources[..n][i].enabled && st1.requests[k] in RequestsFor(sources[..n][i], config, api);
        assert sources[i] == sources[..n][i];
      }
      if source.enabled {
        var (df, st2) := LoadSourceSpec(source, config, api, providers, st1);
        if CachesNonEmpty(config, st1.files) {
          LoadSourceKeepsCaches(source, config, api, providers, st1);
        }
        LoadSourceEffects(source, config, api, providers, st1);
        assert source.name in EnabledNames(sources);
        forall k | |st1.requests| <= k < |st2.requests|
          ensures EnabledRequest(st2.requests[k], sources, config, api)
        {
          NewRequests(source, config, api, providers, st1, k);
        }
      }
    }
  }

  /** A table served from the cache is non-empty when the cache files are. */
  lemma LoadedNonEmpty(source: DataSourceConfig, config: DataConfig, api: ApiConfig, providers: Providers, st: Store)
    requires CachesNonEmpty(config, st.files)
    ensures var path := CachePath(source.name, config);
      CacheValid(path, config, st.files) ==> !LoadSourceSpec(source, config, api, providers, st).0.IsEmpty()
  {
  }

  /** The calls loading one source adds are that source's. */
  lemma NewRequests(source: DataSourceConfig, config: DataConfig, api: ApiConfig, providers: Providers, st: Store, k: int)
    requires |st.requests| <= k < |LoadSourceSpec(source, config, api, providers, st).1.requests|
    ensures LoadSourceSpec(source, config, api, providers, st).1.requests[k] in RequestsFor(source, config, api)
  {
  }

  /** Whatever the store, `load_data` returns only enabled sources and `GoogleTrends` (the
      latter only with keywords), every table other than `GoogleTrends` is non-empty, and
      every provider call it makes is for an enabled source or for the keywords; disabled
      sources cost nothing. A fresh trends cache file is served without an emptiness test,
      so the `GoogleTrends` table is non-empty only while every cache file is, and the
      cache files stay non-empty when they are. */
  lemma LoadDataFacts(sources: DataSources, config: DataConfig, api: ApiConfig, providers: Providers, st: Store)
    ensures var (data, st') := LoadDataSpec(sources, config, api, providers, st);
      data.Keys <= EnabledNames(sources.sources) + {TrendsName} &&
      (TrendsName in data && TrendsName !in EnabledNames(sources.sources) ==> |sources.googleTrendsKeywords| > 0) &&
      (forall name :: name in data && name != TrendsName ==> !data[name].IsEmpty()) &&
      st.requests <= st'.requests &&
      (forall k :: |st.requests| <= k < |st'.requests| ==>
        EnabledRequest(st'.requests[k], sources.sources, config, api) ||
        st'.requests[k] == TrendsRequest(sources.googleTrendsKeywords, config.startDate, config.endDate)) &&
      (CachesNonEmpty(config, st.files) ==>
        CachesNonEmpty(config, st'.files) && forall name :: name in data ==> !data[name].IsEmpty())
  {
    var (data, st1) := LoadSourcesSpec(sources.sources, config, api, providers, st);
    LoadSourcesFacts(sources.sources, config, api, providers, st);
    var keywords := sources.googleTrendsKeywords;
    if |keywords| > 0 {
      var path := CachePath(TrendsName, config);
      if !CacheValid(path, config, st1.files) {
        var df := LoadFromTrends(keywords, config, providers);
        if !df.IsEmpty() && config.useCache && CachesNonEmpty(config, st1.files) {
          var files := st1.files[path := StoredFile(df, 0)];
          forall name | CachePath(name, config) in files
            ensures !files[CachePath(name, config)].table.IsEmpty()
          {
            if CachePath(name, config) != path {
              assert CachePath(name, config) in st1.files;
            }
          }
        }
      }
    }
  }

  /** The data store: the files on disk and the log of provider calls. */
  class DataStore {
    var files: Files
    var requests: seq<Request>

    constructor (files: Files)
      ensures this.files == files && requests == []
    {
      this.files := files;
      requests := [];
    }

    function State(): Store
      reads this
    {
      Store(files, requests)
    }

    /** `_load_source`: the cached table when fresh; otherwise the provider's table, cached
        when non-empty and caching is on. */
    method LoadSource(source: DataSourceConfig, config: DataConfig, api: ApiConfig, providers: Providers) returns (df: Frame)
      modifies this
      ensures (df, State()) == LoadSourceSpec(source, config, api, providers, old(State()))
    {
      var cachePath := CachePath(source.name, config);
      if CacheValid(cachePath, config, files) {
        return files[cachePath].table;
      }
      if source.provider == "yfinance" {
        requests := requests + [YahooRequest(source.symbol, config.startDate, config.endDate)];
        df := LoadFromYahoo(source.symbol, config, providers);
      } else if source.provider == "alphavantage" {
        if api.HasAlphavantageKey() {
          requests := requests + [AlphaVantageRequest(source.symbol, api.alphavantageKey.value)];
        }
        df := LoadFromAlphaVantage(source.symbol, config, api, providers);
      } else if source.provider == "manual" {
        df := LoadManualCsv(source.symbol, config, files);
        assert requests + RequestsFor(source, config, api) == requests;
      } else {
        return EmptyFrame;
      }
      assert df == Fetch(source, config, api, providers, old(files));
      assert requests == old(requests) + RequestsFor(source, config, api);
      if !df.IsEmpty() && config.useCache {
        files := files[cachePath := StoredFile(df, 0)];
      }
    }

    /** `load_data`: the enabled sources' non-empty tables by name, then the
        search-interest table under `GoogleTrends` when there are keywords. */
    method LoadData(sources: DataSources, config: DataConfig, api: ApiConfig, providers: Providers) returns (data: map<string, Frame>)
      modifies this
      ensures (data, State()) == LoadDataSpec(sources, config, api, providers, old(State()))
    {
      var st0 := State();
      data := map[];
      var i := 0;
      while i < |sources.sources|
        invariant 0 <= i <= |sources.sources|
        invariant (data, State()) == LoadSourcesSpec(sources.sources[..i], config, api, providers, st0)
      {
        assert sources.sources[..i + 1][..i] == sources.sources[..i];
        var source := sources.sources[i];
        if source.enabled {
          var df := LoadSource(source, config, api, providers);
          if !df.IsEmpty() {
            data := data[source.name := df];
          }
        }
        i := i + 1;
      }
      assert sources.sources[..i] == sources.sources;
      var keywords := sources.googleTrendsKeywords;
      if |keywords| > 0 {
        var cachePath := CachePath(TrendsName, config);
        if CacheValid(cachePath, config, files) {
          data := data[TrendsName := files[cachePath].table];
        } else {
          requests := requests + [TrendsRequest(keywords, config.startDate, config.endDate)];
          var df := LoadFromTrends(keywords, config, providers);
          if !df.IsEmpty() {
            data := data[TrendsName := df];
            if config.useCache {
              files := files[cachePath := StoredFile(df, 0)];
            }
          }
        }
      }
    }
  }
}
