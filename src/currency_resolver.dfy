/** The currency resolver, `__get_currency_raw`: a right join of the
    asset-to-currency table with the columns of the exchange-rate table,
    giving one column of conversion rates per asset over the exchange
    dates; an asset column with no defined rate at all becomes the
    constant 1. */
module CurrencyResolver {
  import opened Options
  import opened Frames

  /** One row of the currencies table: an asset id and the code of the
      currency it is settled in (None for an empty cell). */
  datatype CurrencyRow = CurrencyRow(asset: Label, currency: Option<Label>)

  type CurrencyTable = seq<CurrencyRow>

  /** The asset ids, in the order of the currencies table: the columns of
      the joined table. */
  function Assets(defs: CurrencyTable): (r: seq<Label>)
    ensures |r| == |defs| && forall i :: 0 <= i < |defs| ==> r[i] == defs[i].asset
  {
    seq(|defs|, i requires 0 <= i < |defs| => defs[i].asset)
  }

  /** The joined cell of asset `i` at exchange row `t`: the rate of the
      asset's currency, or NaN when the asset has no currency or the
      exchange table has no column for it. */
  function JoinedCell(defs: CurrencyTable, exchanges: Frame, t: int, i: int): Cell
    requires 0 <= i < |defs|
  {
    match defs[i].currency
    case None => None
    case Some(code) =>
      match IndexOf(exchanges.columns, code)
      case None => None
      case Some(k) => At(exchanges, t, k)
  }

  /** Whether the joined column of asset `i` is NaN on every exchange row
      (`merge_df.isna().all()`). */
  predicate AllUndefined(defs: CurrencyTable, exchanges: Frame, i: int)
    requires 0 <= i < |defs|
  {
    forall t :: 0 <= t < |exchanges.rows| ==> JoinedCell(defs, exchanges, t, i).None?
  }

  /** `__get_currency_raw`: None unless both tables are present; otherwise
      the joined table over the exchange dates, in which exactly the columns
      left entirely undefined by the join hold 1 and every other column is
      the joined column unchanged. */
  function CurrencyRaw(currencies: Option<CurrencyTable>, exchanges: Option<Frame>): (r: Option<Frame>)
    ensures r.Some? <==> currencies.Some? && exchanges.Some?
    ensures r.Some? ==> r.value.index == exchanges.value.index
    ensures r.Some? ==> r.value.columns == Assets(currencies.value)
    ensures r.Some? ==> |r.value.rows| == |exchanges.value.rows|
    ensures r.Some? ==> forall t :: 0 <= t < |r.value.rows| ==> |r.value.rows[t]| == |currencies.value|
    ensures r.Some? ==> forall t, i :: 0 <= t < |r.value.rows| && 0 <= i < |currencies.value| ==>
      r.value.rows[t][i] ==
        (if AllUndefined(currencies.value, exchanges.value, i) then Some(1.0)
         else JoinedCell(currencies.value, exchanges.value, t, i))
  {
    if currencies.None? || exchanges.None? then None
    else
      var defs, ex := currencies.value, exchanges.value;
      var merged := seq(|ex.rows|, t => seq(|defs|, i requires 0 <= i < |defs| => JoinedCell(defs, ex, t, i)));
      var filled := seq(|ex.rows|, t requires 0 <= t < |ex.rows| =>
        seq(|defs|, i requires 0 <= i < |defs| =>
          if AllUndefined(defs, ex, i) then Some(1.0) else merged[t][i]));
      Some(Frame(ex.index, Assets(defs), filled))
  }

  /** Well-formed inputs with distinct asset ids give a well-formed table. */
  lemma CurrencyRawWellFormed(defs: CurrencyTable, exchanges: Frame)
    requires WellFormed(exchanges) && Distinct(Assets(defs))
    ensures WellFormed(CurrencyRaw(Some(defs), Some(exchanges)).value)
  {
  }

  /** An asset whose currency is a column of the exchange table and whose
      rate is defined on some day gets exactly that exchange column, NaN
      included; any other asset gets the constant rate 1. */
  lemma ResolvedColumn(defs: CurrencyTable, exchanges: Frame, i: int)
    requires WellFormed(exchanges) && 0 <= i < |defs|
    ensures var r := CurrencyRaw(Some(defs), Some(exchanges)).value;
      var code := defs[i].currency;
      if code.Some? && code.value in exchanges.columns
        && exists t :: 0 <= t < |exchanges.rows| && Lookup(exchanges, exchanges.index[t], code.value).Some?
      then forall t :: 0 <= t < |exchanges.rows| ==>
        r.rows[t][i] == Lookup(exchanges, exchanges.index[t], code.value)
      else forall t :: 0 <= t < |exchanges.rows| ==> r.rows[t][i] == Some(1.0)
  {
    var code := defs[i].currency;
    if code.Some? && code.value in exchanges.columns {
      forall t | 0 <= t < |exchanges.rows|
        ensures JoinedCell(defs, exchanges, t, i) == Lookup(exchanges, exchanges.index[t], code.value)
      {
        IndexOfDistinct(exchanges.index, t);
      }
    }
  }
}
