/** The return engine, `__get_an_attitude`: `df.diff().div(df.shift(1))`,
    the period-over-period relative change of every column, with the first
    row undefined. */
module ReturnEngine {
  import opened Options
  import opened Frames

  /** The relative change from `prev` to `cur`, (cur - prev) / prev: NaN when
      either is NaN, and also when `prev` is 0 (where floating point would
      give an infinity). Compounding `prev` by it gives `cur` back. */
  function Pct(prev: Cell, cur: Cell): (r: Cell)
    ensures r.Some? <==> prev.Some? && cur.Some? && prev.value != 0.0
    ensures r.Some? ==> prev.value * (1.0 + r.value) == cur.value
  {
    if prev.Some? && cur.Some? && prev.value != 0.0 then
      var p, c := prev.value, cur.value;
      assert p * (1.0 + (c - p) / p) == c;
      Some((c - p) / p)
    else None
  }

  /** The returns of one column: undefined on the first row, then the
      relative change from each row to the next. */
  function PctChanges(xs: seq<Cell>): (ys: seq<Cell>)
    ensures |ys| == |xs|
    ensures |ys| > 0 ==> ys[0].None?
    ensures forall t :: 0 < t < |xs| ==> ys[t] == Pct(xs[t - 1], xs[t])
  {
    seq(|xs|, t requires 0 <= t < |xs| => if t == 0 then None else Pct(xs[t - 1], xs[t]))
  }

  /** `__get_an_attitude` behind `df_checker`: None for a missing table,
      otherwise the table of returns with the same labels. */
  function Attitude(df: Option<Frame>): (r: Option<Frame>)
    ensures r.Some? <==> df.Some?
    ensures r.Some? ==> r.value.index == df.value.index && r.value.columns == df.value.columns
    ensures r.Some? ==> |r.value.rows| == |df.value.rows|
    ensures r.Some? && WellFormed(df.value) ==> WellFormed(r.value)
  {
    if df.None? then None
    else
      var f := df.value;
      Some(Frame(f.index, f.columns,
        seq(|f.rows|, t => seq(|f.columns|, j =>
          if t == 0 then None else Pct(At(f, t - 1, j), At(f, t, j))))))
  }

  /** Every column of the return table is the returns of the same column
      of the source: row 0 undefined, `Y[t] = (X[t] - X[t-1]) / X[t-1]`
      after it, undefined wherever an input is. */
  lemma AttitudeByColumn(f: Frame, j: int)
    requires WellFormed(f) && 0 <= j < |f.columns|
    ensures Column(Attitude(Some(f)).value, j) == PctChanges(Column(f, j))
  {
    var r := Attitude(Some(f)).value;
    assert forall t :: 0 <= t < |f.rows| ==> Column(r, j)[t] == PctChanges(Column(f, j))[t];
  }
}
