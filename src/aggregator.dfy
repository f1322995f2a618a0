/** The portfolio aggregator, `__get_a_portfolio`: returns times weights,
    summed per date with `skipna=False`, so that a date with any undefined
    product is undefined as a whole. */
module Aggregator {
  import opened Options
  import opened Frames
  import opened Accumulator

  /** `row.sum(skipna=False)`: NaN as soon as one cell is NaN. */
  function StrictSum(row: seq<Cell>): (r: Cell)
    ensures r.Some? <==> forall j :: 0 <= j < |row| ==> row[j].Some?
  {
    if row == [] then Some(0.0)
    else match (row[0], StrictSum(row[1..]))
      case (Some(a), Some(b)) => Some(a + b)
      case _ => None
  }

  /** The sum of the pairwise products of two rows (NaN read as 0). */
  function Dot(a: seq<Cell>, b: seq<Cell>): real
    requires |a| == |b|
  {
    if a == [] then 0.0 else ValueOr0(a[0]) * ValueOr0(b[0]) + Dot(a[1..], b[1..])
  }

  function ValueOr0(c: Cell): real {
    if c.Some? then c.value else 0.0
  }


  /** `df.sum(axis=1, skipna=False)`: one point per row. */
  function RowSums(m: Frame): (s: Series)
    ensures |s.points| == |m.index|
    ensures forall t :: 0 <= t < |m.index| ==> s.points[t].date == m.index[t]
  {
    Series(None, seq(|m.index|, t requires 0 <= t < |m.index| =>
      Point(m.index[t], StrictSum(seq(|m.columns|, j => At(m, t, j))))))
  }

  /** `__get_a_portfolio` behind `df_checker`: None when the returns or the
      weights are missing, otherwise one point per row label of the
      product of returns and weights. */
  function Portfolio(df: Option<Frame>, weights: Option<Frame>): (r: Option<Series>)
    ensures r.Some? <==> df.Some? && weights.Some?
    ensures r.Some? ==> |r.value.points| == |Mul(df.value, weights.value).index|
  {
    if df.None? then None
    else if weights.None? then None
    else Some(RowSums(Mul(df.value, weights.value)))
  }

  lemma {:induction false} StrictSumIsDot(a: seq<Cell>, b: seq<Cell>)
    requires |a| == |b|
    requires forall j :: 0 <= j < |a| ==> a[j].Some? && b[j].Some?
    ensures StrictSum(seq(|a|, j requires 0 <= j < |a| => Times(a[j], b[j]))) == Some(Dot(a, b))
  {
    var p := seq(|a|, j requires 0 <= j < |a| => Times(a[j], b[j]));
    if a != [] {
      StrictSumIsDot(a[1..], b[1..]);
      assert p[1..] == seq(|a[1..]|, j requires 0 <= j < |a[1..]| => Times(a[1..][j], b[1..][j]));
      assert a[0].Some? && b[0].Some?;
      assert p[0] == Times(a[0], b[0]);
      assert p[0].value == ValueOr0(a[0]) * ValueOr0(b[0]);
    }
  }

  /** The pairwise products of two rows. */
  function Products(a: seq<Cell>, b: seq<Cell>): (p: seq<Cell>)
    requires |a| == |b|
    ensures |p| == |a|
    ensures forall j :: 0 <= j < |a| ==> p[j] == Times(a[j], b[j])
  {
    seq(|a|, j requires 0 <= j < |a| => Times(a[j], b[j]))
  }

  /** The cells of `f` under day `d` and the column labels `cs`, NaN
      where `f` lacks a label. */
  function LabelRow(f: Frame, d: int, cs: seq<Label>): (row: seq<Cell>)
    ensures |row| == |cs| && forall j :: 0 <= j < |cs| ==> row[j] == Lookup(f, d, cs[j])
  {
    seq(|cs|, j requires 0 <= j < |cs| => Lookup(f, d, cs[j]))
  }

  /** Whatever the labels of the two tables, point `t` of the portfolio is
      dated by the `t`-th day of the aligned product. It is defined exactly
      when, under every column label of either table, both the return and
      the weight of that day are defined; it is then the sum, over those
      labels, of return times weight. */
  lemma PortfolioByLabel(df: Frame, weights: Frame, t: int)
    requires 0 <= t < |Mul(df, weights).index|
    ensures |Portfolio(Some(df), Some(weights)).value.points| == |Mul(df, weights).index|
    ensures Portfolio(Some(df), Some(weights)).value.points[t].date == Mul(df, weights).index[t]
    ensures Portfolio(Some(df), Some(weights)).value.points[t].value.Some? <==>
      forall c :: c in Mul(df, weights).columns ==>
        Lookup(df, Mul(df, weights).index[t], c).Some? && Lookup(weights, Mul(df, weights).index[t], c).Some?
    ensures Portfolio(Some(df), Some(weights)).value.points[t].value.Some? ==>
      Portfolio(Some(df), Some(weights)).value.points[t].value.value ==
        Dot(LabelRow(df, Mul(df, weights).index[t], Mul(df, weights).columns),
            LabelRow(weights, Mul(df, weights).index[t], Mul(df, weights).columns))
  {
    var m := Mul(df, weights);
    var d := m.index[t];
    var a, b := LabelRow(df, d, m.columns), LabelRow(weights, d, m.columns);
    MulRowByLabel(df, weights, t);
    SumByLabel(df, weights, d, m.columns);
  }

  /** The strict sum of the products of two label rows is defined exactly
      when every label has both cells defined, and is then their `Dot`. */
  lemma SumByLabel(df: Frame, weights: Frame, d: int, cs: seq<Label>)
    ensures StrictSum(Products(LabelRow(df, d, cs), LabelRow(weights, d, cs))).Some? <==>
      forall c :: c in cs ==> Lookup(df, d, c).Some? && Lookup(weights, d, c).Some?
    ensures StrictSum(Products(LabelRow(df, d, cs), LabelRow(weights, d, cs))).Some? ==>
      StrictSum(Products(LabelRow(df, d, cs), LabelRow(weights, d, cs))).value ==
        Dot(LabelRow(df, d, cs), LabelRow(weights, d, cs))
  {
    var a, b := LabelRow(df, d, cs), LabelRow(weights, d, cs);
    AllDefinedByLabel(df, weights, d, cs);
    if forall j :: 0 <= j < |a| ==> a[j].Some? && b[j].Some? {
      StrictSumIsDot(a, b);
      assert Products(a, b) == seq(|a|, j requires 0 <= j < |a| => Times(a[j], b[j]));
    }
  }

  /** Row `t` of the product holds the products of the two tables' cells
      under its day and column labels. */
  lemma MulRowByLabel(df: Frame, weights: Frame, t: int)
    requires 0 <= t < |Mul(df, weights).index|
    ensures seq(|Mul(df, weights).columns|, j => At(Mul(df, weights), t, j)) ==
      Products(LabelRow(df, Mul(df, weights).index[t], Mul(df, weights).columns),
               LabelRow(weights, Mul(df, weights).index[t], Mul(df, weights).columns))
  {
    var m := Mul(df, weights);
    var a, b := LabelRow(df, m.index[t], m.columns), LabelRow(weights, m.index[t], m.columns);
    assert |m.rows[t]| == |m.columns|;
    forall j | 0 <= j < |m.columns|
      ensures At(m, t, j) == Products(a, b)[j]
    {
      assert m.rows[t][j] == Times(a[j], b[j]);
    }
  }

  /** Every position of the two label rows is defined exactly when every
      label has both cells defined. */
  lemma AllDefinedByLabel(df: Frame, weights: Frame, d: int, cs: seq<Label>)
    ensures (forall j :: 0 <= j < |cs| ==> LabelRow(df, d, cs)[j].Some? && LabelRow(weights, d, cs)[j].Some?) <==>
      forall c :: c in cs ==> Lookup(df, d, c).Some? && Lookup(weights, d, c).Some?
  {
    var a, b := LabelRow(df, d, cs), LabelRow(weights, d, cs);
    if forall j :: 0 <= j < |cs| ==> a[j].Some? && b[j].Some? {
      forall c | c in cs
        ensures Lookup(df, d, c).Some? && Lookup(weights, d, c).Some?
      {
        var j :| 0 <= j < |cs| && cs[j] == c;
        assert a[j].Some? && b[j].Some?;
      }
    }
  }

  /** Point `t` of the portfolio of two tables with the same labels is
      dated `t`'s label and holds the strict sum of the pairwise products
      of their rows `t`. */
  lemma PortfolioPoint(attitude: Frame, weights: Frame, t: int)
    requires WellFormed(attitude) && WellFormed(weights)
    requires attitude.index == weights.index && attitude.columns == weights.columns
    requires 0 <= t < |attitude.index|
    ensures |Portfolio(Some(attitude), Some(weights)).value.points| == |attitude.index|
    ensures Portfolio(Some(attitude), Some(weights)).value.points[t] ==
      Point(attitude.index[t], StrictSum(Products(attitude.rows[t], weights.rows[t])))
  {
    MulAligned(attitude, weights);
    var m := Mul(attitude, weights);
    assert seq(|m.columns|, j => At(m, t, j)) == Products(attitude.rows[t], weights.rows[t]);
  }

  /** For returns and weights with the same labels, the portfolio value of
      row `t` is dated `t`'s label; it is defined exactly when every
      asset's return and weight on that date are defined, and then it is
      the sum over assets of return times weight. */
  lemma PortfolioAt(attitude: Frame, weights: Frame, t: int)
    requires WellFormed(attitude) && WellFormed(weights)
    requires attitude.index == weights.index && attitude.columns == weights.columns
    requires 0 <= t < |attitude.index|
    ensures |Portfolio(Some(attitude), Some(weights)).value.points| == |attitude.index|
    ensures Portfolio(Some(attitude), Some(weights)).value.points[t].date == attitude.index[t]
    ensures Portfolio(Some(attitude), Some(weights)).value.points[t].value.Some? <==>
      forall j :: 0 <= j < |attitude.columns| ==> attitude.rows[t][j].Some? && weights.rows[t][j].Some?
    ensures Portfolio(Some(attitude), Some(weights)).value.points[t].value.Some? ==>
      Portfolio(Some(attitude), Some(weights)).value.points[t].value.value ==
        Dot(attitude.rows[t], weights.rows[t])
  {
    PortfolioPoint(attitude, weights, t);
    var a, b := attitude.rows[t], weights.rows[t];
    if forall j :: 0 <= j < |a| ==> a[j].Some? && b[j].Some? {
      StrictSumIsDot(a, b);
      assert Products(a, b) == seq(|a|, j requires 0 <= j < |a| => Times(a[j], b[j]));
    }
  }
}
