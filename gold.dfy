/** The Gold aggregation: rows counted per distinct `state` value, or the
    total row count when the table has no `state` column. */
module Gold {
  import opened Tables

  const GroupColumn := "state"

  /** The aggregated table, kept as what it holds rather than in row order:
      a single `total_registros` row, or one count per distinct state. */
  datatype Summary = Total(count: nat) | ByState(counts: map<string, nat>)

  /** How many times each value occurs in `col`. */
  function GroupCount(col: seq<string>): (m: map<string, nat>)
    ensures m.Keys == set v | v in col
    ensures forall v :: v in m ==> m[v] == multiset(col)[v]
    decreases |col|
  {
    if col == [] then map[]
    else
      var init := col[..|col| - 1];
      var v := col[|col| - 1];
      assert col == init + [v];
      var m := GroupCount(init);
      m[v := if v in m then m[v] + 1 else 1]
  }

  /** The sum of all counts of a map. */
  ghost function SumValues(m: map<string, nat>): nat
    decreases |m|
  {
    if m == map[] then 0
    else
      var k :| k in m;
      assert |(m - {k}).Keys| < |m.Keys| by {
        assert (m - {k}).Keys == m.Keys - {k};
      }
      m[k] + SumValues(m - {k})
  }

  lemma {:induction false} SumWithout(m: map<string, nat>, k: string)
    requires k in m
    ensures SumValues(m) == m[k] + SumValues(m - {k})
    decreases |m|
  {
    var j :| j in m && SumValues(m) == m[j] + SumValues(m - {j});
    if j != k {
      assert (m - {j}).Keys == m.Keys - {j};
      assert (m - {k}).Keys == m.Keys - {k};
      SumWithout(m - {j}, k);
      SumWithout(m - {k}, j);
      assert m - {j} - {k} == m - {k} - {j};
    }
  }

  lemma SumIncrement(m: map<string, nat>, v: string)
    ensures SumValues(m[v := if v in m then m[v] + 1 else 1]) == SumValues(m) + 1
  {
    var m' := m[v := if v in m then m[v] + 1 else 1];
    SumWithout(m', v);
    if v in m {
      SumWithout(m, v);
      assert m' - {v} == m - {v};
    } else {
      assert m' - {v} == m;
    }
  }

  /** Counting loses no row and invents none: the counts add up to the
      length of the column. */
  lemma {:induction false} GroupCountSum(col: seq<string>)
    ensures SumValues(GroupCount(col)) == |col|
    decreases |col|
  {
    if col != [] {
      GroupCountSum(col[..|col| - 1]);
      SumIncrement(GroupCount(col[..|col| - 1]), col[|col| - 1]);
    }
  }

  /** The Gold aggregation of a Silver table. */
  function Aggregate(t: Frame<string>): (s: Summary)
    ensures s.Total? <==> GroupColumn !in t.names
  {
    if GroupColumn !in t.names then Total(|t.rows|)
    else ByState(GroupCount(Column(t, IndexOf(t.names, GroupColumn))))
  }

  /** Rows the summary accounts for. */
  ghost function RowsCounted(s: Summary): nat {
    match s
    case Total(n) => n
    case ByState(m) => SumValues(m)
  }

  /** Number of rows of the Gold table. */
  function GoldRows(s: Summary): nat {
    match s
    case Total(_) => 1
    case ByState(m) => |m|
  }

  lemma ColumnValues(t: Frame<string>, j: nat)
    requires j < |t.names|
    ensures (set v | v in Column(t, j)) == (set i | 0 <= i < |t.rows| :: t.rows[i][j])
  {
    var col := Column(t, j);
    forall v | v in col ensures exists i :: 0 <= i < |t.rows| && t.rows[i][j] == v {
      var i :| 0 <= i < |col| && col[i] == v;
    }
    forall i | 0 <= i < |t.rows| ensures t.rows[i][j] in col {
      assert col[i] == t.rows[i][j];
    }
  }

  /** Every row is accounted for, whichever way the table is aggregated. */
  lemma AggregateConservesRows(t: Frame<string>)
    ensures RowsCounted(Aggregate(t)) == |t.rows|
  {
    if GroupColumn in t.names {
      GroupCountSum(Column(t, IndexOf(t.names, GroupColumn)));
    }
  }

  /** Without a `state` column: a single row holding the row count. */
  lemma AggregateWithoutState(t: Frame<string>)
    requires GroupColumn !in t.names
    ensures Aggregate(t) == Total(|t.rows|) && GoldRows(Aggregate(t)) == 1
  {
  }

  /** With a `state` column: one count per distinct state value, each the
      number of rows holding that value, so at least one. */
  lemma AggregateByState(t: Frame<string>)
    requires GroupColumn in t.names
    ensures var j := IndexOf(t.names, GroupColumn);
      var m := Aggregate(t).counts;
      && m.Keys == (set i | 0 <= i < |t.rows| :: t.rows[i][j])
      && (forall v :: v in m ==> 1 <= m[v] && m[v] == multiset(Column(t, j))[v])
  {
    ColumnValues(t, IndexOf(t.names, GroupColumn));
  }
}
