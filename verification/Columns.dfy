/** Column sets with the `*` wildcard, and table-to-column maps (src/merge/utils.py). */
module Columns {
  datatype Option<+T> = None | Some(value: T)

  /** Splitting the last element off a prefix. */
  lemma PrefixSnoc<T>(s: seq<T>, i: nat)
    requires i < |s|
    ensures s[..i + 1] == s[..i] + [s[i]]
    ensures s[..i + 1][..i] == s[..i]
    ensures s[..|s|] == s
  {
  }

  type Table = string
  type Column = string
  type ColumnMap = map<Table, set<Column>>

  /** Stands for every column of a table. */
  const ALL_COLUMNS: Column := "*"

  /** Column `c` meets the column set `columns`, `*` on either side meeting everything. */
  predicate Meets(c: Column, columns: set<Column>) {
    columns != {} && (c == ALL_COLUMNS || ALL_COLUMNS in columns || c in columns)
  }

  /** Two column sets share a column, up to `*`. */
  predicate Overlaps(left: set<Column>, right: set<Column>) {
    exists c :: c in left && Meets(c, right)
  }

  /** The overlapping columns themselves; non-empty exactly when the sets overlap. */
  function ColumnOverlap(left: set<Column>, right: set<Column>): (overlap: set<Column>)
    ensures overlap != {} <==> Overlaps(left, right)
    ensures ALL_COLUMNS in left && ALL_COLUMNS in right ==> overlap == {ALL_COLUMNS}
    ensures ALL_COLUMNS !in left || ALL_COLUMNS !in right ==>
      forall c :: c in overlap <==> (c in left && Meets(c, right) && c != ALL_COLUMNS) || (c in right && Meets(c, left) && c != ALL_COLUMNS)
  {
    if left == {} || right == {} then {}
    else if ALL_COLUMNS in left && ALL_COLUMNS in right then {ALL_COLUMNS}
    else if ALL_COLUMNS in left then
      assert Meets(ALL_COLUMNS, right);
      right
    else if ALL_COLUMNS in right then
      assert forall c :: c in left ==> Meets(c, right);
      left
    else
      assert forall c :: c in left ==> (Meets(c, right) <==> c in left * right);
      left * right
  }

  lemma OverlapsSymmetric(left: set<Column>, right: set<Column>)
    ensures Overlaps(left, right) <==> Overlaps(right, left)
  {
  }

  function ColumnsOf(m: ColumnMap, table: Table): set<Column> {
    if table in m then m[table] else {}
  }

  /** `*` absorbs every named column. */
  function Absorb(columns: set<Column>): set<Column> {
    if ALL_COLUMNS in columns then {ALL_COLUMNS} else columns
  }

  /** A map in which no entry is empty and `*` stands alone. */
  predicate Absorbing(m: ColumnMap) {
    forall t :: t in m ==> m[t] != {} && m[t] == Absorb(m[t])
  }

  /** Add columns to a table entry, keeping `*` absorbing. */
  function AddColumns(m: ColumnMap, table: Table, columns: set<Column>): (r: ColumnMap)
    ensures Absorbing(m) ==> Absorbing(r)
    ensures forall t :: t != table ==> ColumnsOf(r, t) == ColumnsOf(m, t)
    ensures Absorbing(m) ==> ColumnsOf(r, table) == Absorb(ColumnsOf(m, table) + columns)
  {
    if columns == {} then m
    else if ALL_COLUMNS in ColumnsOf(m, table) then m
    else if ALL_COLUMNS in columns then m[table := {ALL_COLUMNS}]
    else m[table := ColumnsOf(m, table) + columns]
  }

  /** What an added entry can meet: the old entry or the new columns. */
  lemma AddColumnsMeets(m: ColumnMap, table: Table, columns: set<Column>, t: Table, other: set<Column>)
    ensures Overlaps(ColumnsOf(AddColumns(m, table, columns), t), other)
       <==> Overlaps(ColumnsOf(m, t), other) || (t == table && Overlaps(columns, other))
  {
  }

  /** Whether two table-to-column maps overlap on some table. */
  predicate MapsOverlap(left: ColumnMap, right: ColumnMap) {
    exists t :: t in left && t in right && ColumnOverlap(left[t], right[t]) != {}
  }

  lemma MapsOverlapAt(left: ColumnMap, right: ColumnMap)
    ensures MapsOverlap(left, right) <==> exists t :: Overlaps(ColumnsOf(left, t), ColumnsOf(right, t))
  {
    if t :| Overlaps(ColumnsOf(left, t), ColumnsOf(right, t)) {
      assert t in left && t in right && ColumnOverlap(left[t], right[t]) != {};
    }
    if t :| t in left && t in right && ColumnOverlap(left[t], right[t]) != {} {
      assert Overlaps(ColumnsOf(left, t), ColumnsOf(right, t));
    }
  }
}
