/** Rows and snapshots of tables. */
module Rows {
  import opened Columns

  datatype SqlValue = Null | Val(v: int)

  type Row = map<Column, SqlValue>

  /** A primary-key value of one table. */
  datatype RowId = RowId(table: Table, key: seq<SqlValue>)

  type Snapshot = map<RowId, Row>

  function At(s: Snapshot, id: RowId): Option<Row> {
    if id in s then Some(s[id]) else None
  }

  /** The row has a value, not NULL, in each of the columns. */
  predicate NoNull(row: Row, columns: set<Column>) {
    forall c :: c in columns ==> c in row && row[c] != Null
  }

  /** Two rows that UNIQUE over these columns keeps apart: the same values, none of them NULL. */
  predicate Meet(row: Row, other: Row, columns: set<Column>) {
    NoNull(row, columns) && NoNull(other, columns) && forall c :: c in columns ==> row[c] == other[c]
  }
}
