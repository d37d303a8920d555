/** Values exchanged between the database, the REST service and the UI. */
module Records {
  import opened Wrappers

  /** A scalar cell value as sqlite3 hands it back and JSON carries it. */
  datatype Value = Null | Integer(i: int) | TextValue(s: string)

  /** One column of a row: its name and its value. */
  datatype Cell = Cell(column: string, value: Value)

  /** A result row as `dict(row)` builds it: cells in column order. */
  type Row = seq<Cell>

  /** One row of `PRAGMA table_info(t)`, as sqlite3 returns it. */
  datatype PragmaRow = PragmaRow(cid: int, name: string, columnType: string, notnull: int, dfltValue: Value, pk: int)

  /** One entry of the schema list the service returns for a table. */
  datatype SchemaColumn = SchemaColumn(cid: int, name: string, columnType: string, notnull: bool, dfltValue: Value, pk: bool)

  /** The `{schema, samples}` object returned for a table. */
  datatype TableDetail = TableDetail(schema: seq<SchemaColumn>, samples: seq<Row>)

  /**
   * What the database does with one statement: it raises an error with a message, or it
   * completes, leaving the fetched rows and the column names of the cursor's description.
   */
  datatype DbOutcome = Failed(message: string) | Completed(rows: seq<Row>, columns: seq<string>)

  /** The value of the first cell named `column`, if any (`row[column]` in the UI). */
  function Lookup(row: Row, column: string): (v: Option<Value>)
    ensures v.Some? <==> exists i | 0 <= i < |row| :: row[i].column == column
    ensures v.Some? ==> exists i | 0 <= i < |row| ::
              row[i] == Cell(column, v.value) && forall j | 0 <= j < i :: row[j].column != column
  {
    if row == [] then None
    else if row[0].column == column then Some(row[0].value)
    else Lookup(row[1..], column)
  }

  /** `Object.keys(row)`: the column names in order. */
  function Keys(row: Row): (keys: seq<string>)
    ensures |keys| == |row|
    ensures forall i | 0 <= i < |row| :: keys[i] == row[i].column
  {
    seq(|row|, i requires 0 <= i < |row| => row[i].column)
  }

  /** `Object.values(row)`: the values in column order. */
  function Values(row: Row): (values: seq<Value>)
    ensures |values| == |row|
    ensures forall i | 0 <= i < |row| :: values[i] == row[i].value
  {
    seq(|row|, i requires 0 <= i < |row| => row[i].value)
  }

  /** No two cells of the row share a column name, as in a JSON object. */
  predicate DistinctColumns(row: Row) {
    forall i, j | 0 <= i < j < |row| :: row[i].column != row[j].column
  }

  /** In a row with distinct names, looking up the name of cell `k` finds that cell's value. */
  lemma LookupOfDistinct(row: Row, k: nat)
    requires DistinctColumns(row) && k < |row|
    ensures Lookup(row, row[k].column) == Some(row[k].value)
  {
    var v := Lookup(row, row[k].column);
    assert v.Some?;
    var i :| 0 <= i < |row| && row[i] == Cell(row[k].column, v.value) && forall j | 0 <= j < i :: row[j].column != row[k].column;
    assert i == k;
  }
}
