/** The table aligner: `_get_full_range_for_dates`, the reindexing loop of
    the constructor and `_normalize_a_frame`. The date-indexed tables whose
    index parses are reindexed onto one contiguous daily range running from
    the earliest to the latest date of all of them and then forward-filled
    column by column; a table whose index does not parse is discarded. */
module Alignment {
  import opened Options
  import opened Frames

  /** The date-indexed tables, in the order the loader reads them. */
  datatype DateKey = Exchanges | Prices | Weights

  /** What the loader hands over for one date-indexed table: no file at all,
      or a table together with whether `pd.to_datetime` accepts its whole
      index. The row labels of a table whose index does not parse carry no
      meaning. */
  datatype Source = Absent | Loaded(frame: Frame, parses: bool)

  /** A table that takes part in the alignment: loaded, with an index that
      parses. */
  predicate Usable(source: Source) {
    source.Loaded? && source.parses
  }

  /** The tables whose index parses, in order (`frames`). */
  function ParsedFrames(tables: seq<(DateKey, Source)>): (r: seq<Frame>)
    ensures |r| <= |tables|
  {
    if tables == [] then []
    else
      var last := tables[|tables| - 1].1;
      ParsedFrames(tables[..|tables| - 1]) + (if last.Loaded? && last.parses then [last.frame] else [])
  }

  /** The keys of the tables whose index does not parse, in order (`bad_frames`). */
  function BadKeys(tables: seq<(DateKey, Source)>): (r: seq<DateKey>)
    ensures |r| <= |tables|
  {
    if tables == [] then []
    else
      var last := tables[|tables| - 1];
      BadKeys(tables[..|tables| - 1]) + (if last.1.Loaded? && !last.1.parses then [last.0] else [])
  }

  /** A key is bad exactly when its table was loaded and its index does not
      parse. */
  lemma {:induction false} BadKeysAre(tables: seq<(DateKey, Source)>, k: DateKey)
    ensures k in BadKeys(tables) <==>
      exists i :: 0 <= i < |tables| && tables[i].0 == k && tables[i].1.Loaded? && !tables[i].1.parses
  {
    if tables != [] {
      var init := tables[..|tables| - 1];
      BadKeysAre(init, k);
      assert forall i :: 0 <= i < |init| ==> init[i] == tables[i];
    }
  }

  /** No table parses exactly when none of them is usable; this is when
      there is no common range. */
  lemma {:induction false} ParsedFramesEmpty(tables: seq<(DateKey, Source)>)
    ensures ParsedFrames(tables) == [] <==> forall i :: 0 <= i < |tables| ==> !Usable(tables[i].1)
  {
    if tables != [] {
      var init := tables[..|tables| - 1];
      ParsedFramesEmpty(init);
      assert forall i :: 0 <= i < |init| ==> init[i] == tables[i];
    }
  }

  /** A frame is among those whose index parses exactly when some usable
      table holds it. */
  lemma {:induction false} ParsedFramesAre(tables: seq<(DateKey, Source)>, f: Frame)
    ensures f in ParsedFrames(tables) <==>
      exists i :: 0 <= i < |tables| && Usable(tables[i].1) && tables[i].1.frame == f
  {
    if tables != [] {
      var init := tables[..|tables| - 1];
      ParsedFramesAre(init, f);
      assert forall i :: 0 <= i < |init| ==> init[i] == tables[i];
      var last := tables[|tables| - 1];
      if Usable(last.1) && last.1.frame == f {
        assert Usable(tables[|tables| - 1].1);
      }
    }
  }

  /** Every row label of every frame, in order (the concatenated indices). */
  function AllDates(frames: seq<Frame>): (ds: seq<int>)
    ensures forall f, d :: f in frames && d in f.index ==> d in ds
    ensures forall d :: d in ds ==> exists f :: f in frames && d in f.index
  {
    if frames == [] then [] else frames[0].index + AllDates(frames[1..])
  }

  /** `concat_frame.min()`. */
  function SeqMin(s: seq<int>): (m: int)
    requires |s| > 0
    ensures m in s && forall x :: x in s ==> m <= x
  {
    if |s| == 1 then s[0]
    else
      var rest := SeqMin(s[1..]);
      assert forall x :: x in s ==> x == s[0] || x in s[1..];
      if s[0] <= rest then s[0] else rest
  }

  /** `concat_frame.max()`. */
  function SeqMax(s: seq<int>): (m: int)
    requires |s| > 0
    ensures m in s && forall x :: x in s ==> x <= m
  {
    if |s| == 1 then s[0]
    else
      var rest := SeqMax(s[1..]);
      assert forall x :: x in s ==> x == s[0] || x in s[1..];
      if s[0] >= rest then s[0] else rest
  }

  /** Consecutive labels are consecutive days. */
  predicate Contiguous(s: seq<int>) {
    forall i :: 0 < i < |s| ==> s[i] == s[i - 1] + 1
  }

  /** `pd.date_range(start=lo, end=hi)`: every day from `lo` to `hi`. */
  function DateRange(lo: int, hi: int): (r: seq<int>)
    requires lo <= hi
    ensures |r| > 0 && r[0] == lo && r[|r| - 1] == hi && Contiguous(r)
  {
    seq(hi - lo + 1, i => lo + i)
  }

  lemma ContiguousFacts(s: seq<int>)
    requires Contiguous(s) && |s| > 0
    ensures Distinct(s)
    ensures forall d :: d in s <==> s[0] <= d <= s[|s| - 1]
    ensures forall i :: 0 <= i < |s| ==> s[i] == s[0] + i
  {
    assert forall i :: 0 <= i < |s| ==> s[i] == s[0] + i by {
      forall i | 0 <= i < |s| ensures s[i] == s[0] + i {
        var k := 0;
        while k < i
          invariant 0 <= k <= i && s[k] == s[0] + k
        {
          k := k + 1;
        }
      }
    }
    forall d | s[0] <= d <= s[|s| - 1] ensures d in s {
      assert s[d - s[0]] == d;
    }
  }

  /** The range onto which the usable tables are reindexed, None when no
      table parses. Running from the earliest to the latest day of all of
      them, it leaves none of their rows out and is no wider than that. */
  function FullRange(frames: seq<Frame>): (r: Option<seq<int>>)
    requires frames != [] ==> AllDates(frames) != []
    ensures r.None? <==> frames == []
    ensures r.Some? ==> |r.value| > 0 && Contiguous(r.value) && Distinct(r.value)
    ensures r.Some? ==> forall f, d :: f in frames && d in f.index ==> d in r.value
    ensures r.Some? ==> r.value[0] in AllDates(frames) && r.value[|r.value| - 1] in AllDates(frames)
  {
    if frames == [] then None
    else
      var all := AllDates(frames);
      var range := DateRange(SeqMin(all), SeqMax(all));
      ContiguousFacts(range);
      assert forall f, d :: f in frames && d in f.index ==> d in all && d in range;
      Some(range)
  }

  /** `_get_full_range_for_dates`: sorts the loaded date-indexed tables into
      those whose index parses and the keys of those whose index does not,
      then spans the former. */
  method GetFullRangeForDates(tables: seq<(DateKey, Source)>)
    returns (dateIndex: Option<seq<int>>, badFrames: seq<DateKey>)
    requires ParsedFrames(tables) != [] ==> AllDates(ParsedFrames(tables)) != []
    ensures dateIndex == FullRange(ParsedFrames(tables))
    ensures badFrames == BadKeys(tables)
  {
    var frames: seq<Frame> := [];
    badFrames := [];
    for i := 0 to |tables|
      invariant frames == ParsedFrames(tables[..i])
      invariant badFrames == BadKeys(tables[..i])
    {
      assert tables[..i + 1][..i] == tables[..i];
      var (key, data) := tables[i];
      if !data.Loaded? {
        continue;
      }
      if data.parses {
        frames := frames + [data.frame];
      } else {
        badFrames := badFrames + [key];
      }
    }
    assert tables[..|tables|] == tables;
    if frames == [] {
      return None, badFrames;
    }
    var concat := AllDates(frames);
    var minDate, maxDate := SeqMin(concat), SeqMax(concat);
    dateIndex := Some(DateRange(minDate, maxDate));
  }

  // ---------------------------------------------------------------------
  // Reindexing

  /** The row of `f` labelled `d`, or a row of NaN when `f` has none. */
  function RowFor(f: Frame, d: int): (row: seq<Cell>)
    ensures |row| == |f.columns|
  {
    match IndexOf(f.index, d)
    case Some(t) => seq(|f.columns|, j => At(f, t, j))
    case None => seq(|f.columns|, j => None)
  }

  /** `df.reindex(index)`. */
  function Reindex(f: Frame, index: seq<int>): (r: Frame)
    ensures r.index == index && r.columns == f.columns
    ensures WellFormed(f) && Distinct(index) ==> WellFormed(r)
  {
    Frame(index, f.columns, seq(|index|, t requires 0 <= t < |index| => RowFor(f, index[t])))
  }

  /** After reindexing, a day of the new index holds the cells `f` had
      under that day (NaN if it had none), and any other day holds nothing. */
  lemma ReindexByLabel(f: Frame, index: seq<int>, d: int, c: Label)
    requires WellFormed(f) && Distinct(index)
    ensures Lookup(Reindex(f, index), d, c) == if d in index then Lookup(f, d, c) else None
  {
    var r := Reindex(f, index);
    if d in index && c in f.columns {
      var t := IndexOf(index, d).value;
      var j := IndexOf(f.columns, c).value;
      assert Lookup(r, d, c) == RowFor(f, d)[j];
    }
  }

  /** Reindexing onto a range that holds every day of `f` loses no cell. */
  lemma ReindexKeepsObservations(f: Frame, index: seq<int>, d: int, c: Label)
    requires WellFormed(f) && Distinct(index)
    requires forall x :: x in f.index ==> x in index
    ensures Lookup(Reindex(f, index), d, c) == Lookup(f, d, c)
  {
    ReindexByLabel(f, index, d, c);
  }

  // ---------------------------------------------------------------------
  // Forward fill

  /** The value `ffill` puts at row `t` of column `j`: the cell itself if
      defined, otherwise the nearest defined cell above it, otherwise NaN. */
  function LastValid(f: Frame, j: int, t: int): (r: Cell)
    ensures r.Some? ==> exists u :: 0 <= u <= t && At(f, u, j) == r && forall v :: u < v <= t ==> At(f, v, j).None?
    ensures r.None? ==> forall v :: 0 <= v <= t ==> At(f, v, j).None?
    decreases t
  {
    if t < 0 then None
    else if At(f, t, j).Some? then At(f, t, j)
    else LastValid(f, j, t - 1)
  }

  /** `df.fillna(method='ffill')`. */
  function ForwardFilled(f: Frame): (r: Frame)
    requires WellFormed(f)
    ensures WellFormed(r) && r.index == f.index && r.columns == f.columns
    ensures forall t, j :: 0 <= t < |f.rows| && 0 <= j < |f.columns| && At(f, t, j).Some? ==>
      r.rows[t][j] == At(f, t, j)
  {
    Frame(f.index, f.columns,
      seq(|f.rows|, t => seq(|f.columns|, j => LastValid(f, j, t))))
  }

  /** `_normalize_a_frame`: fills the frame row by row, each undefined cell
      taking the already filled cell above it. */
  method NormalizeAFrame(f: Frame) returns (g: Frame)
    requires WellFormed(f)
    ensures g == ForwardFilled(f)
  {
    var filled: seq<seq<Cell>> := [];
    for t := 0 to |f.rows|
      invariant |filled| == t
      invariant forall s :: 0 <= s < t ==> |filled[s]| == |f.columns|
      invariant forall s, j :: 0 <= s < t && 0 <= j < |f.columns| ==> filled[s][j] == LastValid(f, j, s)
    {
      var row := f.rows[t];
      if t > 0 {
        var above := filled[t - 1];
        row := seq(|f.columns|, j requires 0 <= j < |f.columns| => if row[j].Some? then row[j] else above[j]);
      }
      filled := filled + [row];
    }
    g := Frame(f.index, f.columns, filled);
    assert forall t :: 0 <= t < |f.rows| ==> filled[t] == ForwardFilled(f).rows[t];
  }

  /** An undefined cell takes the nearest defined value above it in its
      column, and only such a value. */
  lemma {:induction false} FillTakesNearestAbove(f: Frame, j: int, t: int, v: real)
    requires 0 <= t
    ensures LastValid(f, j, t) == Some(v) <==>
      exists s :: 0 <= s <= t && At(f, s, j) == Some(v) && forall u :: s < u <= t ==> At(f, u, j).None?
  {
    if At(f, t, j).Some? {
      if LastValid(f, j, t) != Some(v) {
        forall s | 0 <= s <= t && At(f, s, j) == Some(v)
          ensures exists u :: s < u <= t && At(f, u, j).Some?
        {
          assert At(f, t, j).Some? && s < t;
        }
      }
    } else if t > 0 {
      FillTakesNearestAbove(f, j, t - 1, v);
      if LastValid(f, j, t) == Some(v) {
        var s :| 0 <= s <= t - 1 && At(f, s, j) == Some(v) && forall u :: s < u <= t - 1 ==> At(f, u, j).None?;
        assert forall u :: s < u <= t ==> At(f, u, j).None?;
      }
    }
  }

  /** Cells above the first defined value of a column stay undefined, and
      an undefined result means there is no defined value above. */
  lemma {:induction false} LeadingGapsStay(f: Frame, j: int, t: int)
    ensures LastValid(f, j, t).None? <==> forall s :: 0 <= s <= t ==> At(f, s, j).None?
    decreases t
  {
    if t >= 0 && At(f, t, j).None? {
      LeadingGapsStay(f, j, t - 1);
    }
  }

  /** Forward-filling twice fills nothing more. */
  lemma ForwardFillIdempotent(f: Frame)
    requires WellFormed(f)
    ensures ForwardFilled(ForwardFilled(f)) == ForwardFilled(f)
  {
    var g := ForwardFilled(f);
    var h := ForwardFilled(g);
    forall t | 0 <= t < |f.rows| ensures h.rows[t] == g.rows[t] {
      forall j | 0 <= j < |f.columns| ensures h.rows[t][j] == g.rows[t][j] {
        RefillColumn(f, j, t);
      }
    }
    assert h.rows == g.rows;
  }

  lemma {:induction false} RefillColumn(f: Frame, j: int, t: int)
    requires WellFormed(f) && 0 <= j < |f.columns| && 0 <= t < |f.rows|
    ensures LastValid(ForwardFilled(f), j, t) == LastValid(f, j, t)
    decreases t
  {
    var g := ForwardFilled(f);
    assert At(g, t, j) == LastValid(f, j, t);
    if At(g, t, j).None? && t > 0 {
      RefillColumn(f, j, t - 1);
      assert LastValid(f, j, t) == LastValid(f, j, t - 1);
    }
  }

  /** What the constructor leaves under a date key: nothing for a missing
      table or one whose index does not parse, otherwise the table
      reindexed onto the common range and forward-filled. */
  function AlignedTable(source: Source, range: Option<seq<int>>): (r: Option<Frame>)
    requires Usable(source) ==> WellFormed(source.frame)
    requires range.Some? ==> Distinct(range.value)
    ensures r.Some? <==> Usable(source) && range.Some?
    ensures r.Some? ==> WellFormed(r.value) && r.value.index == range.value
    ensures r.Some? ==> r.value.columns == source.frame.columns
  {
    if source.Absent? || !source.parses || range.None? then None
    else Some(ForwardFilled(Reindex(source.frame, range.value)))
  }
}
