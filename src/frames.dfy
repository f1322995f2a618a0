/** Labelled tables: the part of a pandas DataFrame the model needs. Rows
    are labelled by day numbers, columns by asset or currency names, and a
    cell holds a real number or NaN (None). */
module Frames {
  import opened Options

  type Label = string

  /** One table cell; None stands for NaN. */
  type Cell = Option<real>

  /** A DataFrame: its row labels, its column labels, and its cells row by
      row. */
  datatype Frame = Frame(index: seq<int>, columns: seq<Label>, rows: seq<seq<Cell>>)

  predicate Distinct<T(==)>(s: seq<T>) {
    forall i, j | 0 <= i < j < |s| :: s[i] != s[j]
  }

  /** Every row has one cell per column and no label occurs twice. */
  predicate WellFormed(f: Frame) {
    && |f.rows| == |f.index|
    && (forall t | 0 <= t < |f.rows| :: |f.rows[t]| == |f.columns|)
    && Distinct(f.index)
    && Distinct(f.columns)
  }

  /** The cell at row position `t` and column position `j` (`df.iloc[t, j]`). */
  function At(f: Frame, t: int, j: int): Cell {
    if 0 <= t < |f.rows| && 0 <= j < |f.rows[t]| then f.rows[t][j] else None
  }

  /** The cells of column position `j`, top to bottom. */
  function Column(f: Frame, j: int): (col: seq<Cell>)
    ensures |col| == |f.rows|
    ensures forall t :: 0 <= t < |col| ==> col[t] == At(f, t, j)
  {
    seq(|f.rows|, t => At(f, t, j))
  }

  /** The first position of `x` in `s`. */
  function IndexOf<T(==)>(s: seq<T>, x: T): (r: Option<nat>)
    ensures r.None? <==> x !in s
    ensures r.Some? ==> r.value < |s| && s[r.value] == x && x !in s[..r.value]
  {
    if s == [] then None
    else if s[0] == x then Some(0)
    else match IndexOf(s[1..], x)
      case None => None
      case Some(k) => assert s[..k + 1] == [s[0]] + s[1..][..k]; Some(k + 1)
  }

  /** In a well-formed table, the cell under a row's and a column's labels
      is the cell at their positions. */
  lemma LookupAt(f: Frame, t: int, j: int)
    requires WellFormed(f) && 0 <= t < |f.index| && 0 <= j < |f.columns|
    ensures Lookup(f, f.index[t], f.columns[j]) == f.rows[t][j]
  {
    IndexOfDistinct(f.index, t);
    IndexOfDistinct(f.columns, j);
  }

  lemma IndexOfDistinct<T>(s: seq<T>, i: int)
    requires Distinct(s) && 0 <= i < |s|
    ensures IndexOf(s, s[i]) == Some(i)
  {
    assert s[i] in s;
    assert forall k :: 0 <= k < i ==> s[..i + 1][k] == s[k];
  }

  /** `df.loc[d, c]`, NaN when either label is missing. */
  function Lookup(f: Frame, d: int, c: Label): (r: Cell)
    ensures r.Some? ==> d in f.index && c in f.columns
  {
    match (IndexOf(f.index, d), IndexOf(f.columns, c))
    case (Some(t), Some(j)) => At(f, t, j)
    case _ => None
  }

  /** The elements of `b` that are not in `a`, in `b`'s order. */
  function Extra<T(==,!new)>(a: seq<T>, b: seq<T>): (r: seq<T>)
    ensures forall x :: x in r <==> x in b && x !in a
    ensures Distinct(b) ==> Distinct(r)
    ensures (forall x :: x in b ==> x in a) ==> r == []
  {
    if b == [] then []
    else
      var rest := Extra(a, b[1..]);
      if b[0] in a then rest
      else
        assert Distinct(b) ==> b[0] !in b[1..] by {
          assert forall k :: 0 <= k < |b[1..]| ==> b[1..][k] == b[k + 1];
        }
        [b[0]] + rest
  }

  /** The labels of an outer alignment: those of `a`, then those of `b`
      that `a` lacks. */
  function Union<T(==,!new)>(a: seq<T>, b: seq<T>): (r: seq<T>)
    ensures forall x :: x in r <==> x in a || x in b
    ensures |r| >= |a| && r[..|a|] == a
    ensures Distinct(a) && Distinct(b) ==> Distinct(r)
    ensures (forall x :: x in b ==> x in a) ==> r == a
  {
    var e := Extra(a, b);
    var r := a + e;
    assert r[..|a|] == a;
    assert Distinct(a) && Distinct(b) ==> Distinct(r) by {
      if Distinct(a) && Distinct(b) {
        forall i, j | 0 <= i < j < |r| ensures r[i] != r[j] {
          if j >= |a| {
            assert r[j] == e[j - |a|];
            if i >= |a| {
              assert r[i] == e[i - |a|];
            } else {
              assert r[i] in a;
            }
          }
        }
      }
    }
    r
  }

  /** Cell product: NaN if either factor is NaN. */
  function Times(x: Cell, y: Cell): (r: Cell)
    ensures r.Some? <==> x.Some? && y.Some?
    ensures r.Some? ==> r.value == x.value * y.value
  {
    match (x, y)
    case (Some(u), Some(v)) => Some(u * v)
    case _ => None
  }

  /** `a.mul(b)`: both tables are aligned on the union of their row labels
      and of their column labels, and each aligned pair of cells is
      multiplied. */
  function Mul(a: Frame, b: Frame): (r: Frame)
    ensures forall d :: d in r.index <==> d in a.index || d in b.index
    ensures forall c :: c in r.columns <==> c in a.columns || c in b.columns
    ensures WellFormed(a) && WellFormed(b) ==> WellFormed(r)
  {
    var index := Union(a.index, b.index);
    var columns := Union(a.columns, b.columns);
    Frame(index, columns,
      seq(|index|, t requires 0 <= t < |index| =>
        seq(|columns|, j requires 0 <= j < |columns| =>
          Times(Lookup(a, index[t], columns[j]), Lookup(b, index[t], columns[j])))))
  }

  /** Every pair of labels of the product holds the product of the two
      tables' cells under those labels; a label that one side lacks gives
      NaN. */
  lemma MulByLabel(a: Frame, b: Frame, d: int, c: Label)
    requires WellFormed(a) && WellFormed(b)
    ensures Lookup(Mul(a, b), d, c) == Times(Lookup(a, d, c), Lookup(b, d, c))
    ensures d !in a.index || c !in a.columns || d !in b.index || c !in b.columns
      ==> Lookup(Mul(a, b), d, c) == None
  {
    var r := Mul(a, b);
    if d in r.index && c in r.columns {
      var t := IndexOf(r.index, d).value;
      var j := IndexOf(r.columns, c).value;
      assert At(r, t, j) == Times(Lookup(a, d, c), Lookup(b, d, c));
    }
  }

  /** Two tables with the same labels multiply cell by cell in place. */
  lemma MulAligned(a: Frame, b: Frame)
    requires WellFormed(a) && WellFormed(b)
    requires a.index == b.index && a.columns == b.columns
    ensures Mul(a, b).index == a.index && Mul(a, b).columns == a.columns
    ensures forall t, j :: 0 <= t < |a.rows| && 0 <= j < |a.columns| ==>
      Mul(a, b).rows[t][j] == Times(a.rows[t][j], b.rows[t][j])
  {
    forall t, j | 0 <= t < |a.rows| && 0 <= j < |a.columns|
      ensures Mul(a, b).rows[t][j] == Times(a.rows[t][j], b.rows[t][j])
    {
      IndexOfDistinct(a.index, t);
      IndexOfDistinct(a.columns, j);
    }
  }
}
