/**
 * Tables as the experiment code sees them: an ordered list of column names and an
 * ordered list of rows, each row mapping every column name to a numeric cell.
 */
module Frames {
  import opened Wrappers

  /** One row: column name to cell value (numeric columns only). */
  type Row = map<string, real>

  datatype Frame = Frame(columns: seq<string>, rows: seq<Row>) {
    /** Every row has a cell for every column, as in a pandas DataFrame. */
    predicate WellFormed() {
      forall row, c :: row in rows && c in columns ==> c in row
    }
  }

  /** A well-formed table. */
  type DataFrame = f: Frame | f.WellFormed() witness Frame([], [])

  /** The cells of column `c`, in row order (`df[c]`). */
  function Column(df: DataFrame, c: string): (xs: seq<real>)
    requires c in df.columns
    ensures |xs| == |df.rows|
    ensures forall i :: 0 <= i < |xs| ==> xs[i] == df.rows[i][c]
  {
    seq(|df.rows|, i requires 0 <= i < |df.rows| => df.rows[i][c])
  }

  /** `m` is the smallest value of `xs`, and is absent (NaN) exactly when `xs` is empty. */
  ghost predicate IsMinimumOf(m: Option<real>, xs: seq<real>) {
    && (m.None? <==> xs == [])
    && (m.Some? ==> m.value in xs && forall x :: x in xs ==> m.value <= x)
  }

  /** `m` is the largest value of `xs`, and is absent (NaN) exactly when `xs` is empty. */
  ghost predicate IsMaximumOf(m: Option<real>, xs: seq<real>) {
    && (m.None? <==> xs == [])
    && (m.Some? ==> m.value in xs && forall x :: x in xs ==> x <= m.value)
  }

  /** `Series.min()`: the least value, or NaN (None) for an empty series. */
  function SeqMin(xs: seq<real>): (m: Option<real>)
    ensures IsMinimumOf(m, xs)
  {
    if xs == [] then None
    else
      assert xs == [xs[0]] + xs[1..];
      match SeqMin(xs[1..])
      case None => Some(xs[0])
      case Some(rest) => Some(if xs[0] <= rest then xs[0] else rest)
  }

  /** `Series.max()`: the greatest value, or NaN (None) for an empty series. */
  function SeqMax(xs: seq<real>): (m: Option<real>)
    ensures IsMaximumOf(m, xs)
  {
    if xs == [] then None
    else
      assert xs == [xs[0]] + xs[1..];
      match SeqMax(xs[1..])
      case None => Some(xs[0])
      case Some(rest) => Some(if rest <= xs[0] then xs[0] else rest)
  }
}
