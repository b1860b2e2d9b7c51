/** The Silver refinement of one parsed table: a processing-timestamp
    column, every cell turned into text, and fixed defaults for the text
    `nan` in five named columns. */
module Silver {
  import opened Tables

  /** Column that receives the processing timestamp. */
  const TimestampColumn := "dt_processamento"

  /** Column to default value, for the cells that read `nan`. */
  const FillDefaults: map<string, string> := map[
    "email" := "Sem Registro",
    "state" := "Ausente",
    "street" := "Nao informado",
    "number" := "Sem numero",
    "additionals" := "Sem complemento"]

  /** The refined value of a cell `v` in column `col`. */
  function FillCell(col: string, v: string): string {
    if col in FillDefaults && v == NaNText then FillDefaults[col] else v
  }

  /** The table once every fill column has had its `nan` cells defaulted. */
  function Filled(t: Frame<string>): (r: Frame<string>)
    ensures r.names == t.names && |r.rows| == |t.rows|
  {
    Table(t.names, seq(|t.rows|, i requires 0 <= i < |t.rows| =>
      seq(|t.names|, j requires 0 <= j < |t.names| => FillCell(t.names[j], t.rows[i][j]))))
  }

  /** The fill loop: for each column that has a default and is present,
      the cells equal to `nan` are replaced by that default; absent columns
      are skipped. The columns are taken in no particular order, which is
      harmless because each names a different column. */
  method FillMissing(t: Frame<string>) returns (r: Frame<string>)
    ensures r == Filled(t)
  {
    r := t;
    var pending := FillDefaults.Keys;
    while pending != {}
      invariant r.names == t.names && |r.rows| == |t.rows|
      invariant forall i, j :: 0 <= i < |t.rows| && 0 <= j < |t.names| ==>
        r.rows[i][j] == if t.names[j] in pending then t.rows[i][j] else FillCell(t.names[j], t.rows[i][j])
      decreases pending
    {
      var col :| col in pending;
      if col in r.names {
        r := ReplaceInColumn(r, IndexOf(r.names, col), NaNText, FillDefaults[col]);
      }
      pending := pending - {col};
    }
    assert forall i :: 0 <= i < |t.rows| ==> r.rows[i] == Filled(t).rows[i];
  }

  /** The whole Silver transform of a parsed table, given the text of the
      processing timestamp. */
  function Transform(raw: Frame<Value>, stamp: string): Frame<string> {
    Filled(MapCells(SetColumn(raw, TimestampColumn, Text(stamp)), Str))
  }

  /** The Silver table keeps every row; it has the input's columns, with
      `dt_processamento` appended unless it was there already (then it is
      overwritten in place); that column holds the same timestamp in every
      row; and every other cell is the filled text of the input cell. */
  lemma TransformShape(raw: Frame<Value>, stamp: string)
    ensures var t := Transform(raw, stamp);
      && |t.rows| == |raw.rows|
      && t.names == (if TimestampColumn in raw.names then raw.names else raw.names + [TimestampColumn])
      && (forall i :: 0 <= i < |t.rows| ==> t.rows[i][IndexOf(t.names, TimestampColumn)] == stamp)
      && (forall i, j :: 0 <= i < |raw.rows| && 0 <= j < |raw.names| && raw.names[j] != TimestampColumn ==>
            t.rows[i][j] == FillCell(raw.names[j], Str(raw.rows[i][j])))
  {
  }

  /** A cell changes only when it reads `nan` in a fill column, and it then
      takes that column's default; these are the five defaults. */
  lemma FillCellRule(col: string, v: string)
    ensures FillCell(col, v) != v ==> col in FillDefaults && v == NaNText && FillCell(col, v) == FillDefaults[col]
    ensures col == "email" && v == NaNText ==> FillCell(col, v) == "Sem Registro"
    ensures col == "state" && v == NaNText ==> FillCell(col, v) == "Ausente"
    ensures col == "street" && v == NaNText ==> FillCell(col, v) == "Nao informado"
    ensures col == "number" && v == NaNText ==> FillCell(col, v) == "Sem numero"
    ensures col == "additionals" && v == NaNText ==> FillCell(col, v) == "Sem complemento"
    ensures col !in FillDefaults ==> FillCell(col, v) == v
  {
  }

  /** No default is `nan` itself. */
  lemma DefaultsAreNotNaN(col: string)
    requires col in FillDefaults
    ensures FillDefaults[col] != NaNText
  {
  }

  /** After the fill no cell of a fill column reads `nan`. */
  lemma FilledHasNoNaN(t: Frame<string>)
    ensures forall i, j :: 0 <= i < |t.rows| && 0 <= j < |t.names| && t.names[j] in FillDefaults ==>
      Filled(t).rows[i][j] != NaNText
  {
    forall i, j | 0 <= i < |t.rows| && 0 <= j < |t.names| && t.names[j] in FillDefaults
      ensures Filled(t).rows[i][j] != NaNText
    {
      DefaultsAreNotNaN(t.names[j]);
    }
  }

  /** Filling twice is filling once. */
  lemma FillIdempotent(t: Frame<string>)
    ensures Filled(Filled(t)) == Filled(t)
  {
    var once := Filled(t);
    FilledHasNoNaN(t);
    forall i | 0 <= i < |t.rows|
      ensures Filled(once).rows[i] == once.rows[i]
    {
      assert forall j :: 0 <= j < |t.names| ==> Filled(once).rows[i][j] == once.rows[i][j];
    }
  }

  /** A clock reading with a non-empty text fills every row's
      `dt_processamento` cell with a non-empty value. */
  lemma TransformStampNonEmpty(raw: Frame<Value>, stamp: string)
    requires stamp != ""
    ensures var t := Transform(raw, stamp);
      TimestampColumn in t.names &&
      forall i :: 0 <= i < |t.rows| ==> t.rows[i][IndexOf(t.names, TimestampColumn)] != ""
  {
    TransformShape(raw, stamp);
  }

  /** What becomes of each cell: a missing value in a fill column
      becomes the default, a real value there, and every value of any other
      column, is kept as its text. */
  lemma TransformCells(raw: Frame<Value>, stamp: string, i: nat, j: nat)
    requires i < |raw.rows| && j < |raw.names| && raw.names[j] != TimestampColumn
    ensures raw.names[j] in FillDefaults && raw.rows[i][j] == Missing ==>
      Transform(raw, stamp).rows[i][j] == FillDefaults[raw.names[j]]
    ensures raw.rows[i][j].Text? && raw.rows[i][j].text != NaNText ==>
      Transform(raw, stamp).rows[i][j] == raw.rows[i][j].text
    ensures raw.names[j] !in FillDefaults ==> Transform(raw, stamp).rows[i][j] == Str(raw.rows[i][j])
  {
    TransformShape(raw, stamp);
  }
}
