/** The tabular data model: a table is an ordered list of column names and
    a sequence of rows, each row holding one cell per column. */
module Tables {

  datatype Table<T> = Table(names: seq<string>, rows: seq<seq<T>>)

  predicate Distinct(names: seq<string>) {
    forall i, j :: 0 <= i < j < |names| ==> names[i] != names[j]
  }

  /** Every row has one cell per column and no column name repeats: what a
      DataFrame read from CSV or parquet always satisfies (the CSV reader
      renames repeated headers). */
  predicate WellFormed<T>(t: Table<T>) {
    Distinct(t.names) && forall i :: 0 <= i < |t.rows| ==> |t.rows[i]| == |t.names|
  }

  type Frame<T> = t: Table<T> | WellFormed(t) witness Table([], [])

  /** A cell as the CSV reader delivers it: a missing value (NaN) or the
      text of the value it parsed. */
  datatype Value = Missing | Text(text: string)

  /** What `astype(str)` turns a missing value into. */
  const NaNText := "nan"

  /** `str()` of a cell. */
  function Str(v: Value): string {
    match v
    case Missing => NaNText
    case Text(s) => s
  }

  /** Position of column `n`: the first, and in a frame the only, column of
      that name. */
  function IndexOf(names: seq<string>, n: string): (j: nat)
    requires n in names
    ensures j < |names| && names[j] == n
    ensures forall k :: 0 <= k < j ==> names[k] != n
  {
    if names[0] == n then 0 else 1 + IndexOf(names[1..], n)
  }

  /** The cells of column `j`, top to bottom. */
  function Column<T>(t: Frame<T>, j: nat): (c: seq<T>)
    requires j < |t.names|
    ensures |c| == |t.rows|
  {
    seq(|t.rows|, i requires 0 <= i < |t.rows| => t.rows[i][j])
  }

  /** `df[name] = v`: every row gets `v` in column `name`, which is
      overwritten in place when it exists and appended as the last column
      otherwise. */
  function SetColumn<T>(t: Frame<T>, name: string, v: T): (r: Frame<T>)
    ensures |r.rows| == |t.rows|
    ensures r.names == if name in t.names then t.names else t.names + [name]
    ensures forall i :: 0 <= i < |r.rows| ==> r.rows[i][IndexOf(r.names, name)] == v
    ensures forall i, j :: 0 <= i < |t.rows| && 0 <= j < |t.names| && t.names[j] != name ==>
      r.rows[i][j] == t.rows[i][j]
  {
    if name in t.names then
      var j := IndexOf(t.names, name);
      Table(t.names, seq(|t.rows|, i requires 0 <= i < |t.rows| => t.rows[i][j := v]))
    else
      Table(t.names + [name], seq(|t.rows|, i requires 0 <= i < |t.rows| => t.rows[i] + [v]))
  }

  /** `df.astype(str)` and the like: `f` applied to every cell. */
  function MapCells<A, B>(t: Frame<A>, f: A -> B): (r: Frame<B>)
    ensures r.names == t.names && |r.rows| == |t.rows|
    ensures forall i, j :: 0 <= i < |t.rows| && 0 <= j < |t.names| ==> r.rows[i][j] == f(t.rows[i][j])
  {
    Table(t.names, seq(|t.rows|, i requires 0 <= i < |t.rows| =>
      seq(|t.names|, j requires 0 <= j < |t.names| => f(t.rows[i][j]))))
  }

  /** `df[col].replace(from, to)` written back into column `j`. */
  function ReplaceInColumn(t: Frame<string>, j: nat, from: string, to: string): (r: Frame<string>)
    requires j < |t.names|
    ensures r.names == t.names && |r.rows| == |t.rows|
    ensures forall i, k :: 0 <= i < |t.rows| && 0 <= k < |t.names| ==>
      r.rows[i][k] == if k == j && t.rows[i][k] == from then to else t.rows[i][k]
  {
    Table(t.names, seq(|t.rows|, i requires 0 <= i < |t.rows| =>
      t.rows[i][j := if t.rows[i][j] == from then to else t.rows[i][j]]))
  }
}
