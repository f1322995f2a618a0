/** The performance accumulator, `__portfolio_performance`:
    `df.add(1).cumprod().rename(name)[start_date:end_date]`, the
    compounded growth of one unit invested in the portfolio, cut to a date
    window. */
module Accumulator {
  import opened Options
  import opened Calendar
  import opened Frames
  import opened ReturnEngine

  /** One labelled value of a pandas Series. */
  datatype Point = Point(date: int, value: Cell)

  /** A pandas Series: its name and its points in index order. */
  datatype Series = Series(name: Option<string>, points: seq<Point>)

  function Values(ps: seq<Point>): (vs: seq<Cell>)
    ensures |vs| == |ps| && forall t :: 0 <= t < |ps| ==> vs[t] == ps[t].value
  {
    seq(|ps|, t requires 0 <= t < |ps| => ps[t].value)
  }

  function AddOneCell(c: Cell): Cell {
    if c.Some? then Some(c.value + 1.0) else None
  }

  /** `s.add(1)`. */
  function AddOne(s: Series): (r: Series)
    ensures r.name == s.name && |r.points| == |s.points|
    ensures forall t :: 0 <= t < |s.points| ==>
      r.points[t] == Point(s.points[t].date, AddOneCell(s.points[t].value))
  {
    Series(s.name, seq(|s.points|, t requires 0 <= t < |s.points| =>
      Point(s.points[t].date, AddOneCell(s.points[t].value))))
  }

  /** The factor a cell contributes to the running product: NaN is skipped. */
  function Factor(c: Cell): real {
    if c.Some? then c.value else 1.0
  }

  /** The product of the defined values, 1 for none. */
  function ProductOfDefined(vs: seq<Cell>): real {
    if vs == [] then 1.0 else Factor(vs[0]) * ProductOfDefined(vs[1..])
  }

  /** `cumprod()` continued from the running product `acc`: a NaN point stays
      NaN and leaves the product as it was. */
  function CumProdFrom(acc: real, ps: seq<Point>): (r: seq<Point>)
    ensures |r| == |ps| && forall t :: 0 <= t < |ps| ==> r[t].date == ps[t].date
    decreases ps
  {
    if ps == [] then []
    else
      var next := acc * Factor(ps[0].value);
      [Point(ps[0].date, if ps[0].value.Some? then Some(next) else None)] + CumProdFrom(next, ps[1..])
  }

  /** `s.cumprod()`. */
  function CumProd(s: Series): (r: Series)
    ensures r.name == s.name && |r.points| == |s.points|
    ensures forall t :: 0 <= t < |s.points| ==> r.points[t].date == s.points[t].date
  {
    Series(s.name, CumProdFrom(1.0, s.points))
  }

  lemma CumProdFromHead(acc: real, ps: seq<Point>)
    requires ps != []
    ensures CumProdFrom(acc, ps)[0].value.Some? <==> ps[0].value.Some?
    ensures ps[0].value.Some? ==> CumProdFrom(acc, ps)[0].value.value == acc * Factor(ps[0].value)
  {
  }

  lemma CumProdFromTail(acc: real, ps: seq<Point>, t: int)
    requires 0 < t < |ps|
    ensures CumProdFrom(acc, ps)[t] == CumProdFrom(acc * Factor(ps[0].value), ps[1..])[t - 1]
  {
  }

  lemma ProductOfPrefix(ps: seq<Point>, t: int)
    requires 0 <= t < |ps|
    ensures ProductOfDefined(Values(ps)[..t + 1]) ==
      Factor(ps[0].value) * ProductOfDefined(Values(ps[1..])[..t])
  {
    var vs := Values(ps);
    var prefix := vs[..t + 1];
    assert prefix[0] == ps[0].value;
    assert Values(ps[1..]) == vs[1..];
    assert vs[1..][..t] == prefix[1..];
  }

  lemma ProductOfFirst(ps: seq<Point>, t: int)
    requires t == 0 < |ps|
    ensures ProductOfDefined(Values(ps)[..t + 1]) == Factor(ps[0].value)
  {
    assert Values(ps)[..1][1..] == [];
  }

  /** A product continued from `a * b` is `a` times the product from `b`. */
  lemma Regroup(a: real, b: real, c: real, x: real, y: real)
    requires x == (a * b) * c && y == b * c
    ensures x == a * y
  {
  }

  lemma {:induction false} CumProdFromDefined(acc: real, ps: seq<Point>, t: int)
    requires 0 <= t < |ps|
    ensures CumProdFrom(acc, ps)[t].value.Some? <==> ps[t].value.Some?
    decreases ps
  {
    if t == 0 {
      CumProdFromHead(acc, ps);
    } else {
      CumProdFromTail(acc, ps, t);
      CumProdFromDefined(acc * Factor(ps[0].value), ps[1..], t - 1);
    }
  }

  lemma {:induction false} CumProdFromAt(acc: real, ps: seq<Point>, t: int)
    requires 0 <= t < |ps| && ps[t].value.Some?
    ensures CumProdFrom(acc, ps)[t].value.Some?
    ensures CumProdFrom(acc, ps)[t].value.value == acc * ProductOfDefined(Values(ps)[..t + 1])
    decreases ps
  {
    if t == 0 {
      CumProdFromFirst(acc, ps, t);
    } else {
      CumProdFromAt(acc * Factor(ps[0].value), ps[1..], t - 1);
      CumProdFromLater(acc, ps, t);
    }
  }

  /** The base case of `CumProdFromAt`. */
  lemma CumProdFromFirst(acc: real, ps: seq<Point>, t: int)
    requires t == 0 < |ps| && ps[t].value.Some?
    ensures CumProdFrom(acc, ps)[t].value.Some?
    ensures CumProdFrom(acc, ps)[t].value.value == acc * ProductOfDefined(Values(ps)[..t + 1])
  {
    CumProdFromHead(acc, ps);
    ProductOfFirst(ps, t);
  }

  /** The inductive step of `CumProdFromAt`: what holds of the tail
      continued from `acc` times the first factor holds of the whole. */
  lemma CumProdFromLater(acc: real, ps: seq<Point>, t: int)
    requires 0 < t < |ps| && ps[t].value.Some?
    requires CumProdFrom(acc * Factor(ps[0].value), ps[1..])[t - 1].value.Some?
    requires CumProdFrom(acc * Factor(ps[0].value), ps[1..])[t - 1].value.value ==
      acc * Factor(ps[0].value) * ProductOfDefined(Values(ps[1..])[..t - 1 + 1])
    ensures CumProdFrom(acc, ps)[t].value.Some?
    ensures CumProdFrom(acc, ps)[t].value.value == acc * ProductOfDefined(Values(ps)[..t + 1])
  {
    ProductOfPrefix(ps, t);
    CumProdFromTail(acc, ps, t);
    Regroup(acc, Factor(ps[0].value), ProductOfDefined(Values(ps[1..])[..t]),
      CumProdFrom(acc, ps)[t].value.value, ProductOfDefined(Values(ps)[..t + 1]));
  }

  /** Point `t` of the cumulative product is undefined where the input is,
      and otherwise the product of the input's defined values up to and
      including `t`. */
  lemma CumProdIsRunningProduct(s: Series, t: int)
    requires 0 <= t < |s.points|
    ensures CumProd(s).points[t].date == s.points[t].date
    ensures CumProd(s).points[t].value.Some? <==> s.points[t].value.Some?
    ensures s.points[t].value.Some? ==>
      CumProd(s).points[t].value.value == ProductOfDefined(Values(s.points)[..t + 1])
  {
    CumProdFromDefined(1.0, s.points, t);
    if s.points[t].value.Some? {
      CumProdFromAt(1.0, s.points, t);
    }
    assert CumProd(s).points == CumProdFrom(1.0, s.points);
  }

  lemma {:induction false} ProductAppend(vs: seq<Cell>, c: Cell)
    ensures ProductOfDefined(vs + [c]) == ProductOfDefined(vs) * Factor(c)
  {
    if vs != [] {
      assert (vs + [c])[1..] == vs[1..] + [c];
      ProductAppend(vs[1..], c);
    }
  }

  /** The compounding step: a defined point is the running product just
      before it (1 before the first point) times its own value, and a NaN
      point leaves the product for the next one unchanged. */
  lemma CumProdStep(s: Series, t: int)
    requires 0 <= t < |s.points|
    ensures ProductOfDefined(Values(s.points)[..t + 1]) ==
      ProductOfDefined(Values(s.points)[..t]) * Factor(s.points[t].value)
    ensures s.points[t].value.None? ==> CumProd(s).points[t].value.None?
    ensures s.points[t].value.Some? ==> CumProd(s).points[t].value.Some?
    ensures s.points[t].value.Some? ==>
      CumProd(s).points[t].value.value == ProductOfDefined(Values(s.points)[..t]) * s.points[t].value.value
  {
    var vs := Values(s.points);
    assert vs[..t + 1] == vs[..t] + [vs[t]];
    ProductAppend(vs[..t], vs[t]);
    CumProdIsRunningProduct(s, t);
  }

  /** `s.rename(name)`. */
  function Rename(s: Series, name: string): (r: Series)
    ensures r.name == Some(name) && r.points == s.points
  {
    Series(Some(name), s.points)
  }

  /** The dates of the points strictly increase, as on a sorted index. */
  predicate Increasing(ps: seq<Point>) {
    forall i, j :: 0 <= i < j < |ps| ==> ps[i].date < ps[j].date
  }

  /** The points of `ps` whose date lies in `[lo, hi)`, in order. */
  function Within(ps: seq<Point>, lo: int, hi: int): (r: seq<Point>)
    ensures forall p :: p in r <==> p in ps && lo <= p.date < hi
    ensures |r| <= |ps|
  {
    if ps == [] then []
    else (if lo <= ps[0].date < hi then [ps[0]] else []) + Within(ps[1..], lo, hi)
  }

  /** On a sorted index the points kept are still sorted. */
  lemma {:induction false} WithinKeepsOrder(ps: seq<Point>, lo: int, hi: int)
    ensures Increasing(ps) ==> Increasing(Within(ps, lo, hi))
  {
    if ps != [] && Increasing(ps) {
      TailIncreasing(ps);
      WithinKeepsOrder(ps[1..], lo, hi);
      var rest := Within(ps[1..], lo, hi);
      if lo <= ps[0].date < hi {
        PrependIncreasing(ps[0], rest);
      } else {
        assert Within(ps, lo, hi) == rest;
      }
    }
  }

  lemma TailIncreasing(ps: seq<Point>)
    requires ps != [] && Increasing(ps)
    ensures Increasing(ps[1..])
    ensures forall q :: q in ps[1..] ==> ps[0].date < q.date
  {
    forall q | q in ps[1..] ensures ps[0].date < q.date {
      var i :| 0 <= i < |ps[1..]| && ps[1..][i] == q;
      assert ps[i + 1] == q;
    }
  }

  lemma PrependIncreasing(p: Point, rest: seq<Point>)
    requires Increasing(rest) && forall q :: q in rest ==> p.date < q.date
    ensures Increasing([p] + rest)
  {
    var r := [p] + rest;
    forall i, j | 0 <= i < j < |r| ensures r[i].date < r[j].date {
      assert r[j] == rest[j - 1] && r[j] in rest;
      if i > 0 {
        assert r[i] == rest[i - 1];
      }
    }
  }

  /** The label slice `[start_date:end_date]` as its docstring describes
      it: start included, end excluded. */
  function Slice(s: Series, lo: int, hi: int): (r: Series)
    ensures r.name == s.name
    ensures forall p :: p in r.points <==> p in s.points && lo <= p.date < hi
    ensures Increasing(s.points) ==> Increasing(r.points)
  {
    WithinKeepsOrder(s.points, lo, hi);
    Series(s.name, Within(s.points, lo, hi))
  }

  /** The label slice as pandas evaluates it on a sorted date index: both
      ends are included. */
  function SliceAsWritten(s: Series, lo: int, hi: int): (r: Series)
    ensures forall p :: p in r.points <==> p in s.points && lo <= p.date <= hi
    ensures Increasing(s.points) ==> Increasing(r.points)
  {
    WithinKeepsOrder(s.points, lo, hi + 1);
    Series(s.name, Within(s.points, lo, hi + 1))
  }

  /** A window whose start is not before its end holds no point; it is
      still a series, not a missing result. */
  lemma {:induction false} EmptyWindow(s: Series, lo: int, hi: int)
    requires lo >= hi
    ensures Slice(s, lo, hi).points == []
  {
    NothingWithin(s.points, lo, hi);
  }

  lemma {:induction false} NothingWithin(ps: seq<Point>, lo: int, hi: int)
    requires lo >= hi
    ensures Within(ps, lo, hi) == []
  {
    if ps != [] {
      NothingWithin(ps[1..], lo, hi);
    }
  }

  /** A point dated exactly `end_date` is kept by the slice as written and
      dropped by the documented window. */
  lemma SliceAsWrittenKeepsEnd(s: Series, lo: int, i: int)
    requires 0 <= i < |s.points| && lo <= s.points[i].date
    ensures s.points[i] in SliceAsWritten(s, lo, s.points[i].date).points
    ensures s.points[i] !in Slice(s, lo, s.points[i].date).points
  {
    assert s.points[i] in s.points;
  }

  /** `__portfolio_performance` behind `df_checker`, with the documented
      window `[start, end)`: None for a missing series, otherwise the
      compounded `1 + r` series named `name` and cut to the window. */
  function Performance(df: Option<Series>, start: Timestamp, end: Timestamp, name: string): (r: Option<Series>)
    ensures r.Some? <==> df.Some?
    ensures r.Some? ==> r.value.name == Some(name)
    ensures r.Some? ==> forall p :: p in r.value.points <==>
      p in CumProd(AddOne(df.value)).points && DayNumber(start) <= p.date < DayNumber(end)
    ensures r.Some? && Increasing(df.value.points) ==> Increasing(r.value.points)
  {
    if df.None? then None
    else Some(Slice(Rename(CumProd(AddOne(df.value)), name), DayNumber(start), DayNumber(end)))
  }

  /** `__portfolio_performance` as written: the slice keeps `end_date`. */
  function PerformanceAsWritten(df: Option<Series>, start: Timestamp, end: Timestamp, name: string): (r: Option<Series>)
    ensures r.Some? <==> df.Some?
    ensures r.Some? ==> forall p :: p in r.value.points <==>
      p in CumProd(AddOne(df.value)).points && DayNumber(start) <= p.date <= DayNumber(end)
    ensures r.Some? && Increasing(df.value.points) ==> Increasing(r.value.points)
  {
    if df.None? then None
    else Some(SliceAsWritten(Rename(CumProd(AddOne(df.value)), name), DayNumber(start), DayNumber(end)))
  }

  /** A start after the end gives an empty series, not None. */
  lemma ReversedWindowIsEmpty(df: Series, start: Timestamp, end: Timestamp, name: string)
    requires Before(end, start)
    ensures Performance(Some(df), start, end, name) == Some(Series(Some(name), []))
  {
    DayNumberOrder(end, start);
    EmptyWindow(Rename(CumProd(AddOne(df)), name), DayNumber(start), DayNumber(end));
  }

  /** Compounding the returns of a fully defined price column with no zero
      gives the price relative to the first day: `P[t] = X[t] / X[0]` for
      every `t >= 1`, while `P[0]` is undefined. */
  lemma {:induction false} CompoundedReturns(xs: seq<Cell>, dates: seq<int>, t: int)
    requires |dates| == |xs| && 0 <= t < |xs|
    requires forall k :: 0 <= k < |xs| ==> xs[k].Some? && xs[k].value != 0.0
    ensures var ys := PctChanges(xs);
      var s := Series(None, seq(|xs|, k requires 0 <= k < |xs| => Point(dates[k], ys[k])));
      CumProd(AddOne(s)).points[t].value == if t == 0 then None else Some(xs[t].value / xs[0].value)
  {
    var ys := PctChanges(xs);
    var s := Series(None, seq(|xs|, k requires 0 <= k < |xs| => Point(dates[k], ys[k])));
    var g := AddOne(s);
    var vs := Values(g.points);
    CumProdIsRunningProduct(g, t);
    if t > 0 {
      Telescope(xs, vs, t);
    }
  }

  lemma Quotient(p: real, c: real, x: real)
    requires p != 0.0 && p * x == c
    ensures x == c / p
  {
    assert c / p * p == c;
  }

  lemma {:induction false} Telescope(xs: seq<Cell>, vs: seq<Cell>, t: int)
    requires 0 < t < |xs| == |vs|
    requires forall k :: 0 <= k < |xs| ==> xs[k].Some? && xs[k].value != 0.0
    requires vs[0].None?
    requires forall k :: 0 < k < |xs| ==> vs[k] == AddOneCell(Pct(xs[k - 1], xs[k]))
    ensures ProductOfDefined(vs[..t + 1]) == xs[t].value / xs[0].value
  {
    assert vs[..t + 1] == vs[..t] + [vs[t]];
    ProductAppend(vs[..t], vs[t]);
    var p, c := xs[t - 1].value, xs[t].value;
    var r := Pct(xs[t - 1], xs[t]).value;
    assert Factor(vs[t]) == 1.0 + r;
    assert p != 0.0;
    Quotient(p, c, 1.0 + r);
    if t == 1 {
      assert vs[..1] == [vs[0]];
      assert ProductOfDefined(vs[..1]) == 1.0 * ProductOfDefined([]);
      assert ProductOfDefined(vs[..t + 1]) == c / p;
    } else {
      Telescope(xs, vs, t - 1);
      var x0 := xs[0].value;
      assert ProductOfDefined(vs[..t]) == p / x0;
      assert (p / x0) * (c / p) == c / x0;
    }
  }
}
