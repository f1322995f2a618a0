/** The three classes `FormalData`, `PortfolioData` and
    `PortfolioPerformanceData`, joined into one class here because they
    share one object: the loaded tables, the memoised intermediate tables,
    and the public performance calculations. The `df_checker` decorator
    becomes the None cases of the pipeline functions. The `date_checker`
    decorator becomes an explicit check that answers `TypeError` before any
    work is done. */
module PortfolioPerformance {
  import opened Options
  import opened Frames
  import opened DateNormalizer
  import opened Alignment
  import opened CurrencyResolver
  import opened ReturnEngine
  import opened Aggregator
  import opened Accumulator
  import Calendar

  // ---------------------------------------------------------------------
  // The pipeline on values

  /** `__get_total_raw` as a value: prices times resolved conversion rates,
      aligned on the union of labels. It is None without prices and None
      when the rates cannot be resolved. */
  function TotalRaw(prices: Option<Frame>, currencies: Option<CurrencyTable>, exchanges: Option<Frame>): (r: Option<Frame>)
    ensures r.Some? <==> prices.Some? && currencies.Some? && exchanges.Some?
  {
    if prices.None? then None
    else
      match CurrencyRaw(currencies, exchanges)
      case None => None
      case Some(rates) => Some(Mul(prices.value, rates))
  }

  /** Each labelled cell of the total table is the price times the
      resolved rate under the same labels, NaN where either side lacks the
      label. */
  lemma TotalRawByLabel(prices: Frame, currencies: CurrencyTable, exchanges: Frame, d: int, c: Label)
    requires WellFormed(prices) && WellFormed(exchanges) && Distinct(Assets(currencies))
    ensures Lookup(TotalRaw(Some(prices), Some(currencies), Some(exchanges)).value, d, c) ==
      Times(Lookup(prices, d, c), Lookup(CurrencyRaw(Some(currencies), Some(exchanges)).value, d, c))
  {
    CurrencyRawWellFormed(currencies, exchanges);
    MulByLabel(prices, CurrencyRaw(Some(currencies), Some(exchanges)).value, d, c);
  }

  /** R[t], the asset portfolio: returns of the prices, weighted. */
  function AssetPortfolioOf(prices: Option<Frame>, weights: Option<Frame>): (r: Option<Series>)
    ensures r.Some? <==> prices.Some? && weights.Some?
  {
    Portfolio(Attitude(prices), weights)
  }

  /** CR[t], the currency portfolio: returns of the resolved rates, weighted. */
  function CurrencyPortfolioOf(currencies: Option<CurrencyTable>, exchanges: Option<Frame>, weights: Option<Frame>): (r: Option<Series>)
    ensures r.Some? <==> currencies.Some? && exchanges.Some? && weights.Some?
  {
    Portfolio(Attitude(CurrencyRaw(currencies, exchanges)), weights)
  }

  /** TR[t], the total portfolio: returns of the total table, weighted. */
  function TotalPortfolioOf(prices: Option<Frame>, currencies: Option<CurrencyTable>, exchanges: Option<Frame>,
                            weights: Option<Frame>): (r: Option<Series>)
    ensures r.Some? <==> prices.Some? && currencies.Some? && exchanges.Some? && weights.Some?
  {
    Portfolio(Attitude(TotalRaw(prices, currencies, exchanges)), weights)
  }

  /** A portfolio over a contiguous daily index, with weights on no other
      day, comes out in date order. */
  lemma PortfolioIncreasing(df: Frame, weights: Frame)
    requires Contiguous(df.index) && forall d :: d in weights.index ==> d in df.index
    ensures Increasing(Portfolio(Some(df), Some(weights)).value.points)
  {
    var ps := Portfolio(Some(df), Some(weights)).value.points;
    assert Mul(df, weights).index == df.index;
    if |df.index| > 0 {
      ContiguousFacts(df.index);
    }
    assert forall t :: 0 <= t < |ps| ==> ps[t].date == df.index[t];
  }

  /** On prices and weights sharing one contiguous daily index, R[t] comes
      out in date order. */
  lemma AssetPortfolioIncreasing(prices: Frame, weights: Frame)
    requires Contiguous(prices.index) && prices.index == weights.index
    ensures AssetPortfolioOf(Some(prices), Some(weights)).Some?
    ensures Increasing(AssetPortfolioOf(Some(prices), Some(weights)).value.points)
  {
    PortfolioIncreasing(Attitude(Some(prices)).value, weights);
  }

  /** On exchanges and weights sharing one contiguous daily index, CR[t]
      comes out in date order. */
  lemma CurrencyPortfolioIncreasing(currencies: CurrencyTable, exchanges: Frame, weights: Frame)
    requires Contiguous(exchanges.index) && exchanges.index == weights.index
    ensures CurrencyPortfolioOf(Some(currencies), Some(exchanges), Some(weights)).Some?
    ensures Increasing(CurrencyPortfolioOf(Some(currencies), Some(exchanges), Some(weights)).value.points)
  {
    PortfolioIncreasing(Attitude(CurrencyRaw(Some(currencies), Some(exchanges))).value, weights);
  }

  /** On prices, exchanges and weights sharing one contiguous daily index,
      TR[t] comes out in date order. */
  lemma TotalPortfolioIncreasing(prices: Frame, currencies: CurrencyTable, exchanges: Frame, weights: Frame)
    requires Contiguous(prices.index) && prices.index == exchanges.index && prices.index == weights.index
    ensures TotalPortfolioOf(Some(prices), Some(currencies), Some(exchanges), Some(weights)).Some?
    ensures Increasing(TotalPortfolioOf(Some(prices), Some(currencies), Some(exchanges), Some(weights)).value.points)
  {
    var rates := CurrencyRaw(Some(currencies), Some(exchanges)).value;
    assert Mul(prices, rates).index == prices.index;
    PortfolioIncreasing(Attitude(TotalRaw(Some(prices), Some(currencies), Some(exchanges))).value, weights);
  }

  // ---------------------------------------------------------------------
  // What the constructor is given

  /** The four tables as the loader hands them over: the currencies table
      (absent or present) and the three date-indexed tables. */
  datatype Inputs = Inputs(currencies: Option<CurrencyTable>, exchanges: Source, prices: Source, weights: Source)

  function SourceOf(inputs: Inputs, k: DateKey): Source {
    match k
    case Exchanges => inputs.exchanges
    case Prices => inputs.prices
    case Weights => inputs.weights
  }

  /** The date-indexed tables in the loader's order. */
  function DateSources(inputs: Inputs): (r: seq<(DateKey, Source)>)
    ensures |r| == 3 && forall i :: 0 <= i < 3 ==> r[i].1 == SourceOf(inputs, r[i].0)
    ensures forall k :: r[Position(k)].0 == k
  {
    [(Exchanges, inputs.exchanges), (Prices, inputs.prices), (Weights, inputs.weights)]
  }

  /** Where the loader reads the table of a date key. */
  function Position(k: DateKey): (i: nat)
    ensures i < 3
  {
    match k
    case Exchanges => 0
    case Prices => 1
    case Weights => 2
  }

  /** A loaded table as it stands before the alignment. */
  function RawOf(source: Source): Option<Frame> {
    if source.Loaded? then Some(source.frame) else None
  }

  /** `keys_for_reindex`: the date keys whose file was loaded, in order. */
  function LoadedKeys(inputs: Inputs): (ks: seq<DateKey>)
    ensures forall k :: k in ks <==> SourceOf(inputs, k).Loaded?
    ensures forall i, j :: 0 <= i < j < |ks| ==> ks[i] != ks[j]
  {
    (if inputs.exchanges.Loaded? then [Exchanges] else []) +
    (if inputs.prices.Loaded? then [Prices] else []) +
    (if inputs.weights.Loaded? then [Weights] else [])
  }

  /** What the constructor demands of the loaded tables, short of which
      pandas raises: a usable table has distinct labels (`reindex` refuses
      duplicates), and the usable tables are not all empty (`date_range`
      refuses a NaT bound). */
  predicate Loadable(inputs: Inputs) {
    && (forall k :: Usable(SourceOf(inputs, k)) ==> WellFormed(SourceOf(inputs, k).frame))
    && (ParsedFrames(DateSources(inputs)) != [] ==> AllDates(ParsedFrames(DateSources(inputs))) != [])
  }

  /** The common daily range of the usable tables: there is one exactly
      when some table is usable; it holds every day of every usable table,
      and its first and last days are days of usable tables, so it runs
      from the earliest of them to the latest. */
  function CommonRange(inputs: Inputs): (r: Option<seq<int>>)
    requires Loadable(inputs)
    ensures r.Some? ==> |r.value| > 0 && Distinct(r.value) && Contiguous(r.value)
    ensures r.Some? <==> exists k :: Usable(SourceOf(inputs, k))
    ensures r.Some? ==> forall k, d :: Usable(SourceOf(inputs, k)) && d in SourceOf(inputs, k).frame.index ==>
      d in r.value
    ensures r.Some? ==> exists k :: Usable(SourceOf(inputs, k)) && r.value[0] in SourceOf(inputs, k).frame.index
    ensures r.Some? ==>
      exists k :: Usable(SourceOf(inputs, k)) && r.value[|r.value| - 1] in SourceOf(inputs, k).frame.index
  {
    CommonRangeSpans(inputs);
    FullRange(ParsedFrames(DateSources(inputs)))
  }

  lemma CommonRangeSpans(inputs: Inputs)
    requires Loadable(inputs)
    ensures var r := FullRange(ParsedFrames(DateSources(inputs)));
      && (r.Some? <==> exists k :: Usable(SourceOf(inputs, k)))
      && (r.Some? ==> forall k, d :: Usable(SourceOf(inputs, k)) && d in SourceOf(inputs, k).frame.index ==>
            d in r.value)
      && (r.Some? ==> exists k :: Usable(SourceOf(inputs, k)) && r.value[0] in SourceOf(inputs, k).frame.index)
      && (r.Some? ==>
            exists k :: Usable(SourceOf(inputs, k)) && r.value[|r.value| - 1] in SourceOf(inputs, k).frame.index)
  {
    var frames := ParsedFrames(DateSources(inputs));
    var r := FullRange(frames);
    forall k | Usable(SourceOf(inputs, k))
      ensures SourceOf(inputs, k).frame in frames
    {
      UsableIsParsed(inputs, k);
    }
    if r.Some? {
      ParsedDayIsUsable(inputs, r.value[0]);
      ParsedDayIsUsable(inputs, r.value[|r.value| - 1]);
    } else {
      ParsedFramesEmpty(DateSources(inputs));
      forall k ensures !Usable(SourceOf(inputs, k)) {
        assert DateSources(inputs)[Position(k)].1 == SourceOf(inputs, k);
      }
    }
  }

  lemma UsableIsParsed(inputs: Inputs, k: DateKey)
    requires Usable(SourceOf(inputs, k))
    ensures SourceOf(inputs, k).frame in ParsedFrames(DateSources(inputs))
  {
    var sources := DateSources(inputs);
    assert Usable(sources[Position(k)].1) && sources[Position(k)].1.frame == SourceOf(inputs, k).frame;
    ParsedFramesAre(sources, SourceOf(inputs, k).frame);
  }

  /** A day of the concatenated parsing indices is a day of a usable table. */
  lemma ParsedDayIsUsable(inputs: Inputs, d: int)
    requires d in AllDates(ParsedFrames(DateSources(inputs)))
    ensures exists k :: Usable(SourceOf(inputs, k)) && d in SourceOf(inputs, k).frame.index
  {
    var sources := DateSources(inputs);
    var f :| f in ParsedFrames(sources) && d in f.index;
    ParsedFramesAre(sources, f);
    var i :| 0 <= i < |sources| && Usable(sources[i].1) && sources[i].1.frame == f;
    assert SourceOf(inputs, sources[i].0) == sources[i].1;
  }

  /** The table the constructor leaves under a date key. */
  function Aligned(inputs: Inputs, k: DateKey): (r: Option<Frame>)
    requires Loadable(inputs)
    ensures r.Some? ==> CommonRange(inputs).Some? && WellFormed(r.value) && r.value.index == CommonRange(inputs).value
  {
    AlignedTable(SourceOf(inputs, k), CommonRange(inputs))
  }

  /** A date table is present after construction exactly when its file was
      loaded and its index parses. */
  lemma AlignedPresence(inputs: Inputs, k: DateKey)
    requires Loadable(inputs)
    ensures Aligned(inputs, k).Some? <==> Usable(SourceOf(inputs, k))
  {
    var sources := DateSources(inputs);
    ParsedFramesEmpty(sources);
    if Usable(SourceOf(inputs, k)) {
      assert Usable(sources[Position(k)].1);
    }
  }

  /** Which of the three results exist: a missing or corrupted price table
      voids the asset and total results but not the currency one; missing
      currencies or a missing or corrupted exchange table voids the
      currency and total results but not the asset one; missing or
      corrupted weights void all three. */
  lemma ResultsByAvailability(inputs: Inputs)
    requires Loadable(inputs)
    ensures AssetPortfolioOf(Aligned(inputs, Prices), Aligned(inputs, Weights)).Some? <==>
      Usable(inputs.prices) && Usable(inputs.weights)
    ensures CurrencyPortfolioOf(inputs.currencies, Aligned(inputs, Exchanges), Aligned(inputs, Weights)).Some? <==>
      inputs.currencies.Some? && Usable(inputs.exchanges) && Usable(inputs.weights)
    ensures TotalPortfolioOf(Aligned(inputs, Prices), inputs.currencies, Aligned(inputs, Exchanges),
                             Aligned(inputs, Weights)).Some? <==>
      inputs.currencies.Some? && Usable(inputs.prices) && Usable(inputs.exchanges) && Usable(inputs.weights)
  {
    AlignedPresence(inputs, Exchanges);
    AlignedPresence(inputs, Prices);
    AlignedPresence(inputs, Weights);
  }

  /** The tables the constructor leaves are well formed and share one
      contiguous daily index. */
  lemma AlignedTablesAgree(inputs: Inputs)
    requires Loadable(inputs)
    ensures forall k :: Aligned(inputs, k).Some? ==>
      WellFormed(Aligned(inputs, k).value) && Contiguous(Aligned(inputs, k).value.index)
    ensures forall k1, k2 :: Aligned(inputs, k1).Some? && Aligned(inputs, k2).Some? ==>
      Aligned(inputs, k1).value.index == Aligned(inputs, k2).value.index
  {
  }

  /** One step of the reindexing loop: a loaded table is among the bad
      keys exactly when its index does not parse, and then nothing is left
      under its key; otherwise the common range exists and the table left
      under its key is the loaded one reindexed onto it and forward-filled. */
  lemma ReindexStep(inputs: Inputs, k: DateKey)
    requires Loadable(inputs) && SourceOf(inputs, k).Loaded?
    ensures k in BadKeys(DateSources(inputs)) <==> !SourceOf(inputs, k).parses
    ensures k in BadKeys(DateSources(inputs)) ==> Aligned(inputs, k) == None
    ensures k !in BadKeys(DateSources(inputs)) ==>
      && CommonRange(inputs).Some?
      && WellFormed(SourceOf(inputs, k).frame)
      && Aligned(inputs, k) == Some(ForwardFilled(Reindex(SourceOf(inputs, k).frame, CommonRange(inputs).value)))
  {
    var sources := DateSources(inputs);
    BadKeysAre(sources, k);
    ParsedFramesEmpty(sources);
    assert sources[Position(k)].1 == SourceOf(inputs, k);
  }

  /** The alignment part of `__init__`: records the loaded date tables,
      spans the usable ones with one daily range, then, for every loaded
      key in order, drops the table if its index does not parse and
      otherwise reindexes it onto the range and forward-fills it. */
  method AlignTables(inputs: Inputs) returns (tables: map<DateKey, Option<Frame>>, bad: seq<DateKey>)
    requires Loadable(inputs)
    ensures bad == BadKeys(DateSources(inputs))
    ensures forall k :: k in tables && tables[k] == Aligned(inputs, k)
  {
    tables := map[Exchanges := RawOf(inputs.exchanges), Prices := RawOf(inputs.prices),
                  Weights := RawOf(inputs.weights)];
    var sources := DateSources(inputs);
    var keysForReindex := LoadedKeys(inputs);
    var generalIndex;
    generalIndex, bad := GetFullRangeForDates(sources);
    for i := 0 to |keysForReindex|
      invariant forall k :: k in tables
      invariant forall k ::
        tables[k] == if k in keysForReindex[..i] then Aligned(inputs, k) else RawOf(SourceOf(inputs, k))
    {
      var key := keysForReindex[i];
      assert key !in keysForReindex[..i];
      assert forall k :: k in keysForReindex[..i + 1] <==> k in keysForReindex[..i] || k == key;
      ReindexStep(inputs, key);
      if key in bad {
        tables := tables[key := None];
        continue;
      }
      var reindexed := Reindex(tables[key].value, generalIndex.value);
      var normalized := NormalizeAFrame(reindexed);
      tables := tables[key := Some(normalized)];
    }
    assert forall k :: !(k in keysForReindex) ==> SourceOf(inputs, k).Absent?;
  }

  // ---------------------------------------------------------------------
  // The object

  /** The outcome of a public calculation: the `TypeError` raised for a bad
      date bound, or the result, None when a table it needs is missing. */
  datatype Answer = TypeError | Done(result: Option<Series>)

  class PortfolioPerformanceData {
    /** `_df_raw` without its currencies entry: the date-indexed tables. */
    var raw: map<DateKey, Option<Frame>>
    /** `_df_raw['currencies']`. */
    var currencies: Option<CurrencyTable>
    /** The keys whose index did not parse. */
    var badKeys: seq<DateKey>
    /** `_df_asset`, R[i,t]. */
    var asset: Option<Frame>
    /** `_df_currency`, CR[i,t]. */
    var currency: Option<Frame>
    /** `_df_currency_raw`, the resolved conversion rates. */
    var currencyRaw: Option<Frame>
    /** `_df_total`, TR[i,t]. */
    var total: Option<Frame>

    /** `_df_raw[key]`. */
    function Table(k: DateKey): Option<Frame>
      reads this`raw
    {
      if k in raw then raw[k] else None
    }

    /** The present date tables are well formed and share one contiguous
        daily index. */
    predicate TablesAligned()
      reads this`raw
    {
      && (forall k :: Table(k).Some? ==> WellFormed(Table(k).value) && Contiguous(Table(k).value.index))
      && (forall k1, k2 :: Table(k1).Some? && Table(k2).Some? ==> Table(k1).value.index == Table(k2).value.index)
    }

    /** The tables are aligned, and every cache that is filled holds what
        its computation gives on the current tables. */
    predicate Valid()
      reads this
    {
      && TablesAligned()
      && (asset.Some? ==> asset == Attitude(Table(Prices)))
      && (currencyRaw.Some? ==> currencyRaw == CurrencyRaw(currencies, Table(Exchanges)))
      && (currency.Some? ==> currency == Attitude(CurrencyRaw(currencies, Table(Exchanges))))
      && (total.Some? ==> total == Attitude(TotalRaw(Table(Prices), currencies, Table(Exchanges))))
    }

    /** `__init__` after loading: records the tables, spans the usable
        date tables with one daily range, drops the tables whose index does
        not parse and reindexes and forward-fills the others. */
    constructor (inputs: Inputs)
      requires Loadable(inputs)
      ensures Valid()
      ensures currencies == inputs.currencies
      ensures badKeys == BadKeys(DateSources(inputs))
      ensures forall k :: Table(k) == Aligned(inputs, k)
      ensures asset.None? && currency.None? && currencyRaw.None? && total.None?
    {
      var tables, bad := AlignTables(inputs);
      raw := tables;
      currencies := inputs.currencies;
      badKeys := bad;
      asset, currency, currencyRaw, total := None, None, None, None;
      new;
      assert forall k :: Table(k) == Aligned(inputs, k);
      AlignedTablesAgree(inputs);
      assert TablesAligned();
    }

    /** `_generate_asset`: fills R[i,t] from the prices while it is empty. */
    method GenerateAsset()
      requires Valid()
      modifies this
      ensures Valid()
      ensures asset == Attitude(Table(Prices))
      ensures old(asset).Some? ==> asset == old(asset)
      ensures raw == old(raw) && currencies == old(currencies) && badKeys == old(badKeys)
      ensures currency == old(currency) && currencyRaw == old(currencyRaw) && total == old(total)
    {
      if asset.None? {
        asset := Attitude(Table(Prices));
      }
    }

    /** `_generate_currency`: resolves the conversion rates while they are
        empty, then fills CR[i,t] from them while it is empty. */
    method GenerateCurrency()
      requires Valid()
      modifies this
      ensures Valid()
      ensures currencyRaw == CurrencyRaw(currencies, Table(Exchanges))
      ensures currency == Attitude(currencyRaw)
      ensures old(currencyRaw).Some? ==> currencyRaw == old(currencyRaw)
      ensures old(currency).Some? ==> currency == old(currency)
      ensures raw == old(raw) && currencies == old(currencies) && badKeys == old(badKeys)
      ensures asset == old(asset) && total == old(total)
    {
      if currencyRaw.None? {
        currencyRaw := CurrencyRaw(currencies, Table(Exchanges));
      }
      if currency.None? {
        currency := Attitude(currencyRaw);
      }
    }

    /** `__get_total_raw`: None without prices; otherwise resolves the
        conversion rates while they are empty (the cache it shares with
        the currency path) and multiplies the prices by them. */
    method GetTotalRaw() returns (r: Option<Frame>)
      requires Valid()
      modifies this
      ensures Valid()
      ensures r == TotalRaw(Table(Prices), currencies, Table(Exchanges))
      ensures currencyRaw == if Table(Prices).None? then old(currencyRaw) else CurrencyRaw(currencies, Table(Exchanges))
      ensures old(currencyRaw).Some? ==> currencyRaw == old(currencyRaw)
      ensures raw == old(raw) && currencies == old(currencies) && badKeys == old(badKeys)
      ensures asset == old(asset) && currency == old(currency) && total == old(total)
    {
      if Table(Prices).None? {
        return None;
      }
      if currencyRaw.None? {
        currencyRaw := CurrencyRaw(currencies, Table(Exchanges));
        if currencyRaw.None? {
          return None;
        }
      }
      r := Some(Mul(Table(Prices).value, currencyRaw.value));
    }

    /** `_generate_total`: fills TR[i,t] from the total table while it is
        empty. */
    method GenerateTotal()
      requires Valid()
      modifies this
      ensures Valid()
      ensures total == Attitude(TotalRaw(Table(Prices), currencies, Table(Exchanges)))
      ensures old(total).Some? ==> total == old(total)
      ensures currencyRaw == if old(total).None? && Table(Prices).Some? then CurrencyRaw(currencies, Table(Exchanges)) else old(currencyRaw)
      ensures old(currencyRaw).Some? ==> currencyRaw == old(currencyRaw)
      ensures raw == old(raw) && currencies == old(currencies) && badKeys == old(badKeys)
      ensures asset == old(asset) && currency == old(currency)
    {
      if total.None? {
        var totalRaw := GetTotalRaw();
        total := Attitude(totalRaw);
      }
    }

    /** `_get_asset_portfolio`, R[t]. */
    method GetAssetPortfolio() returns (s: Option<Series>)
      requires Valid()
      modifies this
      ensures Valid()
      ensures s == AssetPortfolioOf(Table(Prices), Table(Weights))
      ensures asset == Attitude(Table(Prices))
      ensures old(asset).Some? ==> asset == old(asset)
      ensures raw == old(raw) && currencies == old(currencies) && badKeys == old(badKeys)
      ensures currency == old(currency) && currencyRaw == old(currencyRaw) && total == old(total)
    {
      GenerateAsset();
      s := Portfolio(asset, Table(Weights));
    }

    /** `_get_currency_portfolio`, CR[t]. */
    method GetCurrencyPortfolio() returns (s: Option<Series>)
      requires Valid()
      modifies this
      ensures Valid()
      ensures s == CurrencyPortfolioOf(currencies, Table(Exchanges), Table(Weights))
      ensures currencyRaw == CurrencyRaw(currencies, Table(Exchanges))
      ensures currency == Attitude(currencyRaw)
      ensures old(currencyRaw).Some? ==> currencyRaw == old(currencyRaw)
      ensures old(currency).Some? ==> currency == old(currency)
      ensures raw == old(raw) && currencies == old(currencies) && badKeys == old(badKeys)
      ensures asset == old(asset) && total == old(total)
    {
      GenerateCurrency();
      s := Portfolio(currency, Table(Weights));
    }

    /** `_get_total_portfolio`, TR[t]. */
    method GetTotalPortfolio() returns (s: Option<Series>)
      requires Valid()
      modifies this
      ensures Valid()
      ensures s == TotalPortfolioOf(Table(Prices), currencies, Table(Exchanges), Table(Weights))
      ensures total == Attitude(TotalRaw(Table(Prices), currencies, Table(Exchanges)))
      ensures old(total).Some? ==> total == old(total)
      ensures currencyRaw == if old(total).None? && Table(Prices).Some? then CurrencyRaw(currencies, Table(Exchanges)) else old(currencyRaw)
      ensures old(currencyRaw).Some? ==> currencyRaw == old(currencyRaw)
      ensures raw == old(raw) && currencies == old(currencies) && badKeys == old(badKeys)
      ensures asset == old(asset) && currency == old(currency)
    {
      GenerateTotal();
      s := Portfolio(total, Table(Weights));
    }

    /** The three performance series the public calculations return are in
        date order: the tables share one contiguous daily index. */
    lemma PerformancesInOrder(start: Calendar.Timestamp, end: Calendar.Timestamp)
      requires Valid()
      ensures var r := Performance(AssetPortfolioOf(Table(Prices), Table(Weights)), start, end, "Pt");
        r.Some? ==> Increasing(r.value.points)
      ensures var r := Performance(CurrencyPortfolioOf(currencies, Table(Exchanges), Table(Weights)), start, end, "CPt");
        r.Some? ==> Increasing(r.value.points)
      ensures var r := Performance(TotalPortfolioOf(Table(Prices), currencies, Table(Exchanges), Table(Weights)), start, end, "TPt");
        r.Some? ==> Increasing(r.value.points)
    {
      if Table(Prices).Some? && Table(Weights).Some? {
        AssetPortfolioIncreasing(Table(Prices).value, Table(Weights).value);
      }
      if currencies.Some? && Table(Exchanges).Some? && Table(Weights).Some? {
        CurrencyPortfolioIncreasing(currencies.value, Table(Exchanges).value, Table(Weights).value);
      }
      if Table(Prices).Some? && currencies.Some? && Table(Exchanges).Some? && Table(Weights).Some? {
        TotalPortfolioIncreasing(Table(Prices).value, currencies.value, Table(Exchanges).value, Table(Weights).value);
      }
    }

    /** `calculate_asset_performance`: a bad bound answers `TypeError` and
        changes nothing; otherwise the performance of R[t] named "Pt" over
        the window `[start, end)`. */
    method CalculateAssetPerformance(start: DateArg, end: DateArg) returns (a: Answer)
      requires Valid()
      modifies this
      ensures Valid()
      ensures a.TypeError? <==> ConvertDate(start).None? || ConvertDate(end).None?
      ensures a.TypeError? ==> unchanged(this)
      ensures a.Done? ==>
        a.result == Performance(AssetPortfolioOf(Table(Prices), Table(Weights)),
          ConvertDate(start).value, ConvertDate(end).value, "Pt")
      ensures a.Done? ==> asset == Attitude(Table(Prices))
      ensures old(asset).Some? ==> asset == old(asset)
      ensures raw == old(raw) && currencies == old(currencies) && badKeys == old(badKeys)
      ensures currency == old(currency) && currencyRaw == old(currencyRaw) && total == old(total)
    {
      var bounds := CheckBounds(start, end);
      if bounds.None? {
        return TypeError;
      }
      var portfolio := GetAssetPortfolio();
      a := Done(Performance(portfolio, bounds.value.0, bounds.value.1, "Pt"));
    }

    /** `calculate_currency_performance`: as above for CR[t], named "CPt". */
    method CalculateCurrencyPerformance(start: DateArg, end: DateArg) returns (a: Answer)
      requires Valid()
      modifies this
      ensures Valid()
      ensures a.TypeError? <==> ConvertDate(start).None? || ConvertDate(end).None?
      ensures a.TypeError? ==> unchanged(this)
      ensures a.Done? ==>
        a.result == Performance(CurrencyPortfolioOf(currencies, Table(Exchanges), Table(Weights)),
          ConvertDate(start).value, ConvertDate(end).value, "CPt")
      ensures a.Done? ==> currencyRaw == CurrencyRaw(currencies, Table(Exchanges))
      ensures a.Done? ==> currency == Attitude(currencyRaw)
      ensures old(currencyRaw).Some? ==> currencyRaw == old(currencyRaw)
      ensures old(currency).Some? ==> currency == old(currency)
      ensures raw == old(raw) && currencies == old(currencies) && badKeys == old(badKeys)
      ensures asset == old(asset) && total == old(total)
    {
      var bounds := CheckBounds(start, end);
      if bounds.None? {
        return TypeError;
      }
      var portfolio := GetCurrencyPortfolio();
      a := Done(Performance(portfolio, bounds.value.0, bounds.value.1, "CPt"));
    }

    /** `calculate_total_performance`: as above for TR[t], named "TPt". */
    method CalculateTotalPerformance(start: DateArg, end: DateArg) returns (a: Answer)
      requires Valid()
      modifies this
      ensures Valid()
      ensures a.TypeError? <==> ConvertDate(start).None? || ConvertDate(end).None?
      ensures a.TypeError? ==> unchanged(this)
      ensures a.Done? ==>
        a.result == Performance(TotalPortfolioOf(Table(Prices), currencies, Table(Exchanges), Table(Weights)),
          ConvertDate(start).value, ConvertDate(end).value, "TPt")
      ensures a.Done? ==> total == Attitude(TotalRaw(Table(Prices), currencies, Table(Exchanges)))
      ensures old(total).Some? ==> total == old(total)
      ensures a.Done? ==> currencyRaw == if old(total).None? && Table(Prices).Some? then CurrencyRaw(currencies, Table(Exchanges)) else old(currencyRaw)
      ensures old(currencyRaw).Some? ==> currencyRaw == old(currencyRaw)
      ensures raw == old(raw) && currencies == old(currencies) && badKeys == old(badKeys)
      ensures asset == old(asset) && currency == old(currency)
    {
      var bounds := CheckBounds(start, end);
      if bounds.None? {
        return TypeError;
      }
      var portfolio := GetTotalPortfolio();
      a := Done(Performance(portfolio, bounds.value.0, bounds.value.1, "TPt"));
    }
  }
}
