/** The tabular artefacts that flow between the stages: a table has an
    ordered list of column names and a sequence of rows, each row mapping
    every column name to a cell. */
module Tables {

  /** One cell: a number, a piece of text, or a missing value (NaN). */
  datatype Cell = Num(x: real) | Text(s: string) | Empty

  type Row = map<string, Cell>

  datatype Table = Table(columns: seq<string>, rows: seq<Row>)

  function ColumnSet(columns: seq<string>): set<string> {
    set c | c in columns
  }

  predicate Distinct(columns: seq<string>) {
    forall i, j :: 0 <= i < j < |columns| ==> columns[i] != columns[j]
  }

  /** A rectangular table: distinct column names, and every row has a cell
      for exactly the table's columns. */
  predicate WellFormed(t: Table) {
    && Distinct(t.columns)
    && forall i :: 0 <= i < |t.rows| ==> t.rows[i].Keys == ColumnSet(t.columns)
  }

  /** Column list after `df[name] = ...`: an existing column keeps its
      place, a new one is appended at the end. */
  function SetColumn(columns: seq<string>, name: string): (r: seq<string>)
    ensures ColumnSet(r) == ColumnSet(columns) + {name}
    ensures Distinct(columns) ==> Distinct(r)
    ensures |columns| <= |r| && r[..|columns|] == columns
    ensures name !in columns ==> r == columns + [name]
  {
    if name in columns then columns else columns + [name]
  }
}
