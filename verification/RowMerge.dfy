/** The row-level merge driver: a hash join of two diffs against a common base
    (src/row_merge/sqlite_reconcile.py). */
module RowMerge {
  import opened Columns
  import opened Rows

  /** One row-level diff statement. An INSERT lists the whole row, an UPDATE its changed columns. */
  datatype DiffStatement = Delete(id: RowId) | Insert(id: RowId, row: Row) | Update(id: RowId, changed: Row)

  datatype UniqueIndex = UniqueIndex(name: string, columns: seq<Column>)

  /** One non-NULL value of one unique index of one table. */
  datatype UniqueKey = UniqueKey(table: Table, index: UniqueIndex, values: seq<SqlValue>)

  type Schema = map<Table, seq<UniqueIndex>>

  datatype Conflict = PrimaryKeyConflict | UniqueIndexConflict(index: UniqueIndex)

  datatype DiffBuckets = DiffBuckets(
    matchedOurs: seq<nat>, extraOurs: seq<nat>, extraTheirs: seq<nat>, conflicts: map<(nat, nat), seq<Conflict>>,
    invalidOurs: seq<nat>, invalidTheirs: seq<nat>)

  // ----- what a diff means -----

  function Effect(stmt: DiffStatement, before: Option<Row>): Option<Row> {
    match stmt
    case Delete(_) => None
    case Insert(_, row) => Some(row)
    case Update(_, changed) => if before.Some? then Some(before.value + changed) else None
  }

  function ApplyOne(s: Snapshot, stmt: DiffStatement): Snapshot {
    var after := Effect(stmt, At(s, stmt.id));
    if after.None? then s - {stmt.id} else s[stmt.id := after.value]
  }

  function ApplyAll(s: Snapshot, stmts: seq<DiffStatement>): Snapshot {
    if stmts == [] then s else ApplyOne(ApplyAll(s, stmts[..|stmts| - 1]), stmts[|stmts| - 1])
  }

  ghost predicate DistinctRows(stmts: seq<DiffStatement>) {
    forall i, j :: 0 <= i < j < |stmts| ==> stmts[i].id != stmts[j].id
  }

  ghost predicate Touches(stmts: seq<DiffStatement>, id: RowId) {
    exists i :: 0 <= i < |stmts| && stmts[i].id == id
  }

  /** A diff as sqldiff emits it: one statement a row, and applying it to base gives the snapshot. */
  ghost predicate ValidDiff(base: Snapshot, snapshot: Snapshot, diff: seq<DiffStatement>) {
    && DistinctRows(diff)
    && (forall i :: 0 <= i < |diff| ==> (diff[i].Insert? <==> diff[i].id !in base))
    && (forall i :: 0 <= i < |diff| ==> At(snapshot, diff[i].id) == Effect(diff[i], At(base, diff[i].id)))
    && (forall id :: !Touches(diff, id) ==> At(snapshot, id) == At(base, id))
  }

  /** Cell by cell: the snapshot has the inserted row, the changed cells over the rest of the base row, or no row. */
  lemma DiffCells(base: Snapshot, snapshot: Snapshot, diff: seq<DiffStatement>, i: nat, c: Column)
    requires ValidDiff(base, snapshot, diff) && i < |diff|
    ensures match diff[i]
      case Delete(id) => id in base && id !in snapshot
      case Insert(id, row) => id !in base && At(snapshot, id) == Some(row)
      case Update(id, changed) =>
        && id in base && id in snapshot
        && (c in changed ==> c in snapshot[id] && snapshot[id][c] == changed[c])
        && (c !in changed ==> (c in snapshot[id] <==> c in base[id]) && (c in base[id] ==> snapshot[id][c] == base[id][c]))
  {
    assert At(snapshot, diff[i].id) == Effect(diff[i], At(base, diff[i].id));
  }

  lemma {:induction false} ApplyAllAt(s: Snapshot, stmts: seq<DiffStatement>, id: RowId)
    requires DistinctRows(stmts)
    ensures !Touches(stmts, id) ==> At(ApplyAll(s, stmts), id) == At(s, id)
    ensures forall i :: 0 <= i < |stmts| && stmts[i].id == id ==> At(ApplyAll(s, stmts), id) == Effect(stmts[i], At(s, id))
  {
    if stmts != [] {
      var n := |stmts| - 1;
      ApplyAllAt(s, stmts[..n], id);
      assert Touches(stmts[..n], id) ==> Touches(stmts, id);
      if stmts[n].id == id {
        assert !Touches(stmts[..n], id);
      }
    }
  }

  // ----- unique keys of one statement -----

  function ValuesOf(row: Row, columns: seq<Column>): seq<SqlValue> {
    seq(|columns|, i requires 0 <= i < |columns| => if columns[i] in row then row[columns[i]] else Null)
  }

  /** The values a row gives to a unique index, unless one is NULL. */
  function KeyOf(table: Table, index: UniqueIndex, row: Row): Option<UniqueKey> {
    var values := ValuesOf(row, index.columns);
    if Null in values then None else Some(UniqueKey(table, index, values))
  }

  /** An INSERT concerns every index, an UPDATE those with a changed column. */
  predicate Concerns(stmt: DiffStatement, index: UniqueIndex) {
    match stmt
    case Delete(_) => false
    case Insert(_, _) => true
    case Update(_, changed) => exists c :: c in index.columns && c in changed
  }

  /** The unique keys a statement takes in its own snapshot, in index order. */
  function TakenKeys(indexes: seq<UniqueIndex>, snapshot: Snapshot, stmt: DiffStatement): seq<UniqueKey> {
    if indexes == [] then []
    else
      var rest := TakenKeys(indexes[..|indexes| - 1], snapshot, stmt);
      var index := indexes[|indexes| - 1];
      var key := if stmt.id in snapshot then KeyOf(stmt.id.table, index, snapshot[stmt.id]) else None;
      if Concerns(stmt, index) && key.Some? then rest + [key.value] else rest
  }

  function IndexesOf(schema: Schema, table: Table): seq<UniqueIndex> {
    if table in schema then schema[table] else []
  }

  ghost predicate Takes(schema: Schema, snapshot: Snapshot, stmt: DiffStatement, key: UniqueKey) {
    key in TakenKeys(IndexesOf(schema, stmt.id.table), snapshot, stmt)
  }

  lemma {:induction false} TakenKeysByIndex(indexes: seq<UniqueIndex>, snapshot: Snapshot, stmt: DiffStatement, key: UniqueKey)
    ensures key in TakenKeys(indexes, snapshot, stmt) <==>
      && stmt.id in snapshot && key.index in indexes && Concerns(stmt, key.index)
      && KeyOf(stmt.id.table, key.index, snapshot[stmt.id]) == Some(key)
  {
    if indexes != [] {
      TakenKeysByIndex(indexes[..|indexes| - 1], snapshot, stmt, key);
      assert indexes == indexes[..|indexes| - 1] + [indexes[|indexes| - 1]];
    }
  }

  function ColumnsIn(index: UniqueIndex): set<Column> { set c | c in index.columns }

  /** The statement gives its row the values of that index: it inserts the row, or changes one of the columns. */
  predicate Gives(stmt: DiffStatement, index: UniqueIndex) {
    stmt.Insert? || (stmt.Update? && ColumnsIn(index) * stmt.changed.Keys != {})
  }

  lemma GivesIs(stmt: DiffStatement, index: UniqueIndex)
    ensures Gives(stmt, index) <==> Concerns(stmt, index)
  {
    if stmt.Update? {
      forall c | c in index.columns && c in stmt.changed ensures c in ColumnsIn(index) * stmt.changed.Keys {}
      if ColumnsIn(index) * stmt.changed.Keys != {} {
        var c :| c in ColumnsIn(index) * stmt.changed.Keys;
        assert c in index.columns && c in stmt.changed;
      }
    }
  }

  lemma KeyIs(table: Table, index: UniqueIndex, row: Row, key: UniqueKey)
    ensures KeyOf(table, index, row) == Some(key) <==>
      && key.table == table && key.index == index && NoNull(row, ColumnsIn(index)) && |key.values| == |index.columns|
      && forall i :: 0 <= i < |index.columns| ==> key.values[i] == row[index.columns[i]]
  {
    var values := ValuesOf(row, index.columns);
    assert forall i :: 0 <= i < |index.columns| ==> index.columns[i] in index.columns && index.columns[i] in ColumnsIn(index) && values[i] in values;
    if KeyOf(table, index, row).Some? {
      forall c | c in ColumnsIn(index) ensures c in row && row[c] != Null {
        var i :| 0 <= i < |index.columns| && index.columns[i] == c;
        assert values[i] != Null;
      }
    }
    if NoNull(row, ColumnsIn(index)) && |key.values| == |index.columns|
       && forall i :: 0 <= i < |index.columns| ==> key.values[i] == row[index.columns[i]] {
      assert key.values == values;
    }
  }

  /** The unique keys a statement takes are the values its row has in the indexes it gives values to, none of them NULL. */
  lemma TakenKeysMember(indexes: seq<UniqueIndex>, snapshot: Snapshot, stmt: DiffStatement, key: UniqueKey)
    ensures key in TakenKeys(indexes, snapshot, stmt) <==>
      && stmt.id in snapshot && key.table == stmt.id.table && key.index in indexes && Gives(stmt, key.index)
      && NoNull(snapshot[stmt.id], ColumnsIn(key.index)) && |key.values| == |key.index.columns|
      && forall i :: 0 <= i < |key.index.columns| ==> key.values[i] == snapshot[stmt.id][key.index.columns[i]]
  {
    TakenKeysByIndex(indexes, snapshot, stmt, key);
    GivesIs(stmt, key.index);
    if stmt.id in snapshot { KeyIs(stmt.id.table, key.index, snapshot[stmt.id], key); }
  }

  /** Two rows have one key exactly when UNIQUE keeps them apart. */
  lemma OneKey(table: Table, index: UniqueIndex, row: Row, other: Row)
    ensures KeyOf(table, index, row).Some? <==> NoNull(row, ColumnsIn(index))
    ensures KeyOf(table, index, row).Some? && KeyOf(table, index, row) == KeyOf(table, index, other) <==> Meet(row, other, ColumnsIn(index))
  {
    var values, values' := ValuesOf(row, index.columns), ValuesOf(other, index.columns);
    assert forall i :: 0 <= i < |index.columns| ==> index.columns[i] in ColumnsIn(index) && values[i] in values && values'[i] in values';
    if KeyOf(table, index, row).Some? {
      KeyIs(table, index, row, KeyOf(table, index, row).value);
    }
    if NoNull(row, ColumnsIn(index)) { KeyIs(table, index, row, UniqueKey(table, index, values)); }
    if KeyOf(table, index, row).Some? && KeyOf(table, index, row) == KeyOf(table, index, other) {
      KeyIs(table, index, other, KeyOf(table, index, other).value);
      forall c | c in ColumnsIn(index) ensures row[c] == other[c] {
        var i :| 0 <= i < |index.columns| && index.columns[i] == c;
        assert values[i] == values'[i];
      }
    }
    if Meet(row, other, ColumnsIn(index)) { assert values == values'; }
  }

  // ----- build phase -----

  type RowTable = map<RowId, nat>
  type KeyTable = map<UniqueKey, nat>

  ghost predicate Valid(invalid: set<Table>, stmt: DiffStatement) {
    stmt.id.table !in invalid
  }

  /** Hash the first `n` statements of one side by row and by unique key. */
  ghost predicate Hashed(schema: Schema, invalid: set<Table>, snapshot: Snapshot, stmts: seq<DiffStatement>, n: nat,
    rows: RowTable, keys: KeyTable, tables: set<Table>)
  {
    && n <= |stmts|
    && (forall id :: id in rows ==> rows[id] < n && stmts[rows[id]].id == id && Valid(invalid, stmts[rows[id]]))
    && (forall i :: 0 <= i < n && Valid(invalid, stmts[i]) ==> stmts[i].id in rows && stmts[i].id.table in tables)
    && (forall key :: key in keys ==> keys[key] < n && Valid(invalid, stmts[keys[key]]) && Takes(schema, snapshot, stmts[keys[key]], key))
    && (forall i, key :: 0 <= i < n && Valid(invalid, stmts[i]) && Takes(schema, snapshot, stmts[i], key) ==> key in keys)
    && (forall t :: t in tables ==> t !in invalid)
  }

  ghost predicate KeysAdded(keys0: KeyTable, taken: seq<UniqueKey>, i: nat, keys: KeyTable) {
    && (forall key :: key in keys <==> key in keys0 || key in taken)
    && (forall key :: key in keys ==> keys[key] == if key in taken then i else keys0[key])
  }

  /** Hashing one more statement. */
  lemma HashedStep(schema: Schema, invalid: set<Table>, snapshot: Snapshot, stmts: seq<DiffStatement>, i: nat,
    rows: RowTable, keys: KeyTable, tables: set<Table>, keys': KeyTable)
    requires Hashed(schema, invalid, snapshot, stmts, i, rows, keys, tables)
    requires i < |stmts| && Valid(invalid, stmts[i]) && DistinctRows(stmts)
    requires KeysAdded(keys, TakenKeys(IndexesOf(schema, stmts[i].id.table), snapshot, stmts[i]), i, keys')
    ensures Hashed(schema, invalid, snapshot, stmts, i + 1, rows[stmts[i].id := i], keys', tables + {stmts[i].id.table})
  {
    hide TakenKeys, Takes, KeysAdded;
    KeysStep(schema, invalid, snapshot, stmts, i, keys, keys');
  }

  lemma KeysStep(schema: Schema, invalid: set<Table>, snapshot: Snapshot, stmts: seq<DiffStatement>, i: nat, keys: KeyTable, keys': KeyTable)
    requires i < |stmts| && Valid(invalid, stmts[i])
    requires forall key :: key in keys ==> keys[key] < i && Valid(invalid, stmts[keys[key]]) && Takes(schema, snapshot, stmts[keys[key]], key)
    requires forall m, key :: 0 <= m < i && Valid(invalid, stmts[m]) && Takes(schema, snapshot, stmts[m], key) ==> key in keys
    requires KeysAdded(keys, TakenKeys(IndexesOf(schema, stmts[i].id.table), snapshot, stmts[i]), i, keys')
    ensures forall key :: key in keys' ==> keys'[key] < i + 1 && Valid(invalid, stmts[keys'[key]]) && Takes(schema, snapshot, stmts[keys'[key]], key)
    ensures forall m, key :: 0 <= m < i + 1 && Valid(invalid, stmts[m]) && Takes(schema, snapshot, stmts[m], key) ==> key in keys'
  {
    hide TakenKeys, Valid, Takes;
    TakesIs(schema, snapshot, stmts[i]);
  }

  lemma HashedSkip(schema: Schema, invalid: set<Table>, snapshot: Snapshot, stmts: seq<DiffStatement>, i: nat,
    rows: RowTable, keys: KeyTable, tables: set<Table>)
    requires Hashed(schema, invalid, snapshot, stmts, i, rows, keys, tables)
    requires i < |stmts| && !Valid(invalid, stmts[i])
    ensures Hashed(schema, invalid, snapshot, stmts, i + 1, rows, keys, tables)
  {
    hide Takes;
  }

  lemma NothingHashed(schema: Schema, invalid: set<Table>, snapshot: Snapshot, stmts: seq<DiffStatement>)
    ensures Hashed(schema, invalid, snapshot, stmts, 0, map[], map[], {})
  {
  }

  method AddUniqueKeys(keys0: KeyTable, taken: seq<UniqueKey>, i: nat) returns (keys: KeyTable)
    ensures KeysAdded(keys0, taken, i, keys)
  {
    keys := keys0;
    for k := 0 to |taken|
      invariant forall key :: key in keys <==> key in keys0 || key in taken[..k]
      invariant forall key :: key in keys ==> keys[key] == if key in taken[..k] then i else keys0[key]
    {
      PrefixSnoc(taken, k);
      keys := keys[taken[k] := i];
    }
    assert taken[..|taken|] == taken;
  }

  method Build(schema: Schema, invalid: set<Table>, snapshot: Snapshot, stmts: seq<DiffStatement>)
    returns (rows: RowTable, keys: KeyTable, tables: set<Table>, skipped: seq<nat>)
    requires DistinctRows(stmts)
    ensures Hashed(schema, invalid, snapshot, stmts, |stmts|, rows, keys, tables)
    ensures forall i: nat :: i in skipped <==> i < |stmts| && !Valid(invalid, stmts[i])
  {
    hide TakenKeys, DistinctRows, KeysAdded, Hashed;
    NothingHashed(schema, invalid, snapshot, stmts);
    rows, keys, tables, skipped := map[], map[], {}, [];
    for i := 0 to |stmts|
      invariant Hashed(schema, invalid, snapshot, stmts, i, rows, keys, tables)
      invariant forall k: nat :: k in skipped <==> k < i && !Valid(invalid, stmts[k])
    {
      var stmt := stmts[i];
      if stmt.id.table in invalid {
        HashedSkip(schema, invalid, snapshot, stmts, i, rows, keys, tables);
        skipped := skipped + [i];
        continue;
      }
      var keys' := AddUniqueKeys(keys, TakenKeys(IndexesOf(schema, stmt.id.table), snapshot, stmt), i);
      HashedStep(schema, invalid, snapshot, stmts, i, rows, keys, tables, keys');
      tables := tables + {stmt.id.table};
      rows := rows[stmt.id := i];
      keys := keys';
    }
  }

  // ----- lookup phase -----

  /** A statement pair as (ours index, theirs index). */
  function Ordered(buildOurs: bool, lookupIndex: nat, buildIndex: nat): (nat, nat) {
    if buildOurs then (buildIndex, lookupIndex) else (lookupIndex, buildIndex)
  }

  ghost predicate NoDuplicates(s: seq<nat>) {
    forall i, j :: 0 <= i < j < |s| ==> s[i] != s[j]
  }

  /** The two hash tables and the statements behind them. */
  datatype Side = Side(schema: Schema, invalid: set<Table>, buildSnapshot: Snapshot, lookupSnapshot: Snapshot,
    build: seq<DiffStatement>, lookup: seq<DiffStatement>, buildOurs: bool, rows: RowTable, keys: KeyTable)
  {
    ghost predicate Wellformed() {
      && (forall id :: id in rows ==> rows[id] < |build| && build[rows[id]].id == id && id.table !in invalid)
    }

    ghost predicate Matches(k: nat)
      requires Wellformed() && k < |lookup|
    {
      lookup[k].id in rows && build[rows[lookup[k].id]] == lookup[k]
    }

    /** Lookup statement `k` is matched, and shows as ours index `m`. */
    ghost predicate MatchedAs(k: nat, m: nat)
      requires Wellformed() && k < |lookup|
    {
      lookup[k].id.table !in invalid && Matches(k) && m == Ordered(buildOurs, k, rows[lookup[k].id]).0
    }

    ghost predicate IsExtra(k: nat)
      requires k < |lookup|
    {
      lookup[k].id.table !in invalid && lookup[k].id !in rows && !Clashes(k)
    }

    /** The conflict `c` lookup statement `k` reports for the pair `p`. */
    ghost predicate Reports(k: nat, p: (nat, nat), c: Conflict)
      requires Wellformed() && k < |lookup|
    {
      && lookup[k].id.table !in invalid && !Matches(k)
      && (|| (c.PrimaryKeyConflict? && lookup[k].id in rows && p == Ordered(buildOurs, k, rows[lookup[k].id]))
          || (c.UniqueIndexConflict? && exists key :: key in keys && ReportsKey(k, p, c, key)))
    }

    ghost predicate ReportsKey(k: nat, p: (nat, nat), c: Conflict, key: UniqueKey)
      requires k < |lookup| && key in keys && c.UniqueIndexConflict?
    {
      key.index == c.index && Takes(schema, lookupSnapshot, lookup[k], key) && p == Ordered(buildOurs, k, keys[key])
    }

    ghost predicate Clashes(k: nat)
      requires k < |lookup|
    {
      exists key :: key in keys && Takes(schema, lookupSnapshot, lookup[k], key)
    }
  }

  function AddConflict(conflicts: map<(nat, nat), seq<Conflict>>, pair: (nat, nat), c: Conflict): map<(nat, nat), seq<Conflict>> {
    conflicts[pair := (if pair in conflicts then conflicts[pair] else []) + [c]]
  }

  predicate NoneEmpty(conflicts: map<(nat, nat), seq<Conflict>>) {
    forall p :: p in conflicts ==> conflicts[p] != []
  }

  /** A pair is listed with a conflict. */
  predicate Listed(conflicts: map<(nat, nat), seq<Conflict>>, pair: (nat, nat), c: Conflict) {
    pair in conflicts && c in conflicts[pair]
  }

  lemma AddConflictLists(conflicts: map<(nat, nat), seq<Conflict>>, pair: (nat, nat), c: Conflict, p: (nat, nat), d: Conflict)
    ensures Listed(AddConflict(conflicts, pair, c), p, d) <==> Listed(conflicts, p, d) || (p == pair && d == c)
  {
  }

  /** Report every unique key of a statement that the build side has taken. */
  method CheckUniqueKeys(conflicts0: map<(nat, nat), seq<Conflict>>, keys: KeyTable, taken: seq<UniqueKey>, i: nat, buildOurs: bool)
    returns (conflicts: map<(nat, nat), seq<Conflict>>, found: bool)
    ensures found <==> exists key :: key in taken && key in keys
    ensures forall p, c :: Listed(conflicts, p, c) <==>
      Listed(conflicts0, p, c)
      || (c.UniqueIndexConflict? && exists key :: key in taken && key in keys && key.index == c.index && p == Ordered(buildOurs, i, keys[key]))
    ensures NoneEmpty(conflicts0) ==> NoneEmpty(conflicts)
  {
    conflicts, found := conflicts0, false;
    for k := 0 to |taken|
      invariant found <==> exists key :: key in taken[..k] && key in keys
      invariant forall p, c :: Listed(conflicts, p, c) <==>
        Listed(conflicts0, p, c)
        || (c.UniqueIndexConflict? && exists key :: key in taken[..k] && key in keys && key.index == c.index && p == Ordered(buildOurs, i, keys[key]))
      invariant NoneEmpty(conflicts0) ==> NoneEmpty(conflicts)
    {
      PrefixSnoc(taken, k);
      if taken[k] in keys {
        forall p, c { AddConflictLists(conflicts, Ordered(buildOurs, i, keys[taken[k]]), UniqueIndexConflict(taken[k].index), p, c); }
        conflicts := AddConflict(conflicts, Ordered(buildOurs, i, keys[taken[k]]), UniqueIndexConflict(taken[k].index));
        found := true;
      }
    }
    assert taken[..|taken|] == taken;
  }

  /** What the join knows after the first `n` lookup statements. */
  ghost predicate Joined(s: Side, n: nat, rows: RowTable, matched: seq<nat>, extra: seq<nat>, skipped: seq<nat>, conflicts: map<(nat, nat), seq<Conflict>>)
  {
    && n <= |s.lookup| && s.Wellformed()
    && (forall id :: id in rows <==> id in s.rows && !Touches(s.lookup[..n], id))
    && (forall id :: id in rows ==> rows[id] == s.rows[id])
    && (forall m :: m in matched <==> exists k: nat :: k < n && s.MatchedAs(k, m))
    && (forall k: nat :: k in extra <==> k < n && s.IsExtra(k))
    && (forall k: nat :: k in skipped <==> k < n && s.lookup[k].id.table in s.invalid)
    && (forall p, c :: Listed(conflicts, p, c) <==> exists k: nat :: k < n && s.Reports(k, p, c))
    && NoneEmpty(conflicts)
  }

  datatype LookupVerdict = MatchedRow(buildIndex: nat) | ExtraRow | ConflictingRow

  /** What one lookup statement adds. */
  ghost predicate Adds(s: Side, k: nat, verdict: LookupVerdict, before: map<(nat, nat), seq<Conflict>>, after: map<(nat, nat), seq<Conflict>>)
    requires s.Wellformed() && k < |s.lookup|
  {
    && (verdict.MatchedRow? <==> s.Matches(k))
    && (verdict.MatchedRow? ==> verdict.buildIndex == s.rows[s.lookup[k].id])
    && (verdict.ExtraRow? <==> s.IsExtra(k))
    && (forall p, c :: Listed(after, p, c) <==> Listed(before, p, c) || s.Reports(k, p, c))
    && (NoneEmpty(before) ==> NoneEmpty(after))
  }

  /** Probe the hash tables with one statement of the lookup side. */
  method LookupStatement(s: Side, k: nat, rows: RowTable, conflicts0: map<(nat, nat), seq<Conflict>>)
    returns (verdict: LookupVerdict, conflicts: map<(nat, nat), seq<Conflict>>)
    requires s.Wellformed() && k < |s.lookup| && s.lookup[k].id.table !in s.invalid
    requires s.lookup[k].id in rows <==> s.lookup[k].id in s.rows
    requires s.lookup[k].id in rows ==> rows[s.lookup[k].id] == s.rows[s.lookup[k].id]
    requires s.lookup[k].id in s.rows ==> (s.build[s.rows[s.lookup[k].id]].Insert? <==> s.lookup[k].Insert?)
    ensures Adds(s, k, verdict, conflicts0, conflicts)
  {
    hide TakenKeys, Takes;
    var stmt := s.lookup[k];
    conflicts := conflicts0;
    if stmt.id in rows {
      var i2 := rows[stmt.id];
      var built := s.build[i2];
      match stmt {
        case Delete(_) =>
          if built.Delete? { NoReports(s, k, conflicts); return MatchedRow(i2), conflicts; }
        case Insert(_, _) =>
          if built == stmt { NoReports(s, k, conflicts); return MatchedRow(i2), conflicts; }
        case Update(_, _) =>
          if built.Update? && built.changed == stmt.changed { NoReports(s, k, conflicts); return MatchedRow(i2), conflicts; }
      }
      forall p, c { AddConflictLists(conflicts0, Ordered(s.buildOurs, k, i2), PrimaryKeyConflict, p, c); }
      conflicts := AddConflict(conflicts, Ordered(s.buildOurs, k, i2), PrimaryKeyConflict);
    }
    ghost var middle := conflicts;
    var found := false;
    var taken := TakenKeys(IndexesOf(s.schema, stmt.id.table), s.lookupSnapshot, stmt);
    if !stmt.Delete? {
      conflicts, found := CheckUniqueKeys(conflicts, s.keys, taken, k, s.buildOurs);
    }
    DeleteTakesNothing(s.schema, s.lookupSnapshot, stmt);
    TakesIs(s.schema, s.lookupSnapshot, stmt);
    forall p, c ensures Listed(conflicts, p, c) <==> Listed(conflicts0, p, c) || s.Reports(k, p, c) {
      if c.UniqueIndexConflict? {
        KeyReports(s, k, p, c, taken);
      }
    }
    assert found <==> s.Clashes(k);
    verdict := if !found && stmt.id !in rows then ExtraRow else ConflictingRow;
  }

  lemma KeyReports(s: Side, k: nat, p: (nat, nat), c: Conflict, taken: seq<UniqueKey>)
    requires s.Wellformed() && k < |s.lookup| && c.UniqueIndexConflict?
    requires forall key :: Takes(s.schema, s.lookupSnapshot, s.lookup[k], key) <==> key in taken
    ensures (exists key :: key in s.keys && s.ReportsKey(k, p, c, key)) <==>
      (exists key :: key in taken && key in s.keys && key.index == c.index && p == Ordered(s.buildOurs, k, s.keys[key]))
  {
    hide Takes;
    if key :| key in taken && key in s.keys && key.index == c.index && p == Ordered(s.buildOurs, k, s.keys[key]) {
      assert s.ReportsKey(k, p, c, key);
    }
  }

  lemma TakesIs(schema: Schema, snapshot: Snapshot, stmt: DiffStatement)
    ensures forall key :: Takes(schema, snapshot, stmt, key) <==> key in TakenKeys(IndexesOf(schema, stmt.id.table), snapshot, stmt)
  {
    hide TakenKeys;
  }

  lemma DeleteTakesNothing(schema: Schema, snapshot: Snapshot, stmt: DiffStatement)
    ensures stmt.Delete? ==> forall key :: !Takes(schema, snapshot, stmt, key)
  {
    forall key { TakenKeysByIndex(IndexesOf(schema, stmt.id.table), snapshot, stmt, key); }
  }

  lemma NoReports(s: Side, k: nat, conflicts: map<(nat, nat), seq<Conflict>>)
    requires s.Wellformed() && k < |s.lookup| && s.Matches(k)
    ensures Adds(s, k, MatchedRow(s.rows[s.lookup[k].id]), conflicts, conflicts)
  {
  }

  /** One more lookup statement. */
  lemma JoinedStep(s: Side, k: nat, rows: RowTable, matched: seq<nat>, extra: seq<nat>, skipped: seq<nat>,
    conflicts: map<(nat, nat), seq<Conflict>>, verdict: LookupVerdict, conflicts': map<(nat, nat), seq<Conflict>>)
    requires k < |s.lookup| && s.lookup[k].id.table !in s.invalid
    requires Joined(s, k, rows, matched, extra, skipped, conflicts)
    requires Adds(s, k, verdict, conflicts, conflicts')
    ensures Joined(s, k + 1, rows - {s.lookup[k].id},
      matched + (if verdict.MatchedRow? then [Ordered(s.buildOurs, k, verdict.buildIndex).0] else []),
      extra + (if verdict.ExtraRow? then [k] else []), skipped, conflicts')
  {
    hide Side.Matches, Side.Clashes, Side.Reports, Side.IsExtra, Side.MatchedAs, Touches;
    TouchesMore(s.lookup, k);
    MatchedMore(s, k, matched, verdict, matched + (if verdict.MatchedRow? then [Ordered(s.buildOurs, k, verdict.buildIndex).0] else []));
  }

  lemma MatchedMore(s: Side, k: nat, matched: seq<nat>, verdict: LookupVerdict, after: seq<nat>)
    requires s.Wellformed() && k < |s.lookup| && s.lookup[k].id.table !in s.invalid
    requires forall m :: m in matched <==> exists j: nat :: j < k && s.MatchedAs(j, m)
    requires verdict.MatchedRow? <==> s.Matches(k)
    requires verdict.MatchedRow? ==> verdict.buildIndex == s.rows[s.lookup[k].id]
    requires after == matched + (if verdict.MatchedRow? then [Ordered(s.buildOurs, k, verdict.buildIndex).0] else [])
    ensures forall m :: m in after <==> exists j: nat :: j < k + 1 && s.MatchedAs(j, m)
  {
    hide Ordered, Side.Wellformed;
    forall m ensures m in after <==> exists j: nat :: j < k + 1 && s.MatchedAs(j, m) {
      if m in after && m !in matched { assert s.MatchedAs(k, m); }
    }
  }

  lemma TouchesMore(stmts: seq<DiffStatement>, k: nat)
    requires k < |stmts|
    ensures forall id :: Touches(stmts[..k + 1], id) <==> Touches(stmts[..k], id) || id == stmts[k].id
  {
    forall id | Touches(stmts[..k + 1], id) ensures Touches(stmts[..k], id) || id == stmts[k].id {
      var i :| 0 <= i < k + 1 && stmts[..k + 1][i].id == id;
      if i < k { assert stmts[..k][i].id == id; }
    }
    forall id | Touches(stmts[..k], id) || id == stmts[k].id ensures Touches(stmts[..k + 1], id) {
      if id == stmts[k].id { assert stmts[..k + 1][k].id == id; }
      else { var i :| 0 <= i < k && stmts[..k][i].id == id; assert stmts[..k + 1][i].id == id; }
    }
  }

  lemma JoinedSkip(s: Side, k: nat, rows: RowTable, matched: seq<nat>, extra: seq<nat>, skipped: seq<nat>, conflicts: map<(nat, nat), seq<Conflict>>)
    requires k < |s.lookup| && s.lookup[k].id.table in s.invalid
    requires Joined(s, k, rows, matched, extra, skipped, conflicts)
    ensures Joined(s, k + 1, rows, matched, extra, skipped + [k], conflicts)
  {
    hide Side.Matches, Side.Clashes, Side.Reports, Side.IsExtra, Side.MatchedAs, Touches;
    TouchesMore(s.lookup, k);
    SkippedAddsNothing(s, k);
  }

  lemma SkippedAddsNothing(s: Side, k: nat)
    requires s.Wellformed() && k < |s.lookup| && s.lookup[k].id.table in s.invalid
    ensures s.lookup[k].id !in s.rows && !s.IsExtra(k)
    ensures forall m :: !s.MatchedAs(k, m)
    ensures forall p, c :: !s.Reports(k, p, c)
  {
  }

  lemma NothingJoined(s: Side, tables: set<Table>)
    requires Hashed(s.schema, s.invalid, s.buildSnapshot, s.build, |s.build|, s.rows, s.keys, tables)
    ensures Joined(s, 0, s.rows, [], [], [], map[])
  {
    assert s.lookup[..0] == [];
  }

  /** A row not looked up yet is where the build phase put it. */
  lemma JoinedRows(s: Side, k: nat, rows: RowTable, matched: seq<nat>, extra: seq<nat>, skipped: seq<nat>, conflicts: map<(nat, nat), seq<Conflict>>)
    requires k < |s.lookup| && DistinctRows(s.lookup)
    requires Joined(s, k, rows, matched, extra, skipped, conflicts)
    ensures s.Wellformed() && NoneEmpty(conflicts)
    ensures s.lookup[k].id in rows <==> s.lookup[k].id in s.rows
    ensures s.lookup[k].id in rows ==> rows[s.lookup[k].id] == s.rows[s.lookup[k].id]
  {
  }

  lemma UnknownTable(s: Side, tables: set<Table>, k: nat, conflicts: map<(nat, nat), seq<Conflict>>)
    requires Hashed(s.schema, s.invalid, s.buildSnapshot, s.build, |s.build|, s.rows, s.keys, tables)
    requires s.Wellformed() && k < |s.lookup| && s.lookup[k].id.table !in s.invalid && s.lookup[k].id.table !in tables
    ensures Adds(s, k, ExtraRow, conflicts, conflicts)
  {
    if key :| key in s.keys && Takes(s.schema, s.lookupSnapshot, s.lookup[k], key) {
      TakenKeysByIndex(IndexesOf(s.schema, s.lookup[k].id.table), s.lookupSnapshot, s.lookup[k], key);
      var b := s.build[s.keys[key]];
      TakenKeysByIndex(IndexesOf(s.schema, b.id.table), s.buildSnapshot, b, key);
    }
  }

  lemma FreshIndexes(s: Side, k: nat, rows: RowTable, matched: seq<nat>, extra: seq<nat>, skipped: seq<nat>,
    conflicts: map<(nat, nat), seq<Conflict>>, verdict: LookupVerdict, conflicts': map<(nat, nat), seq<Conflict>>)
    requires k < |s.lookup| && DistinctRows(s.lookup)
    requires Joined(s, k, rows, matched, extra, skipped, conflicts) && Adds(s, k, verdict, conflicts, conflicts')
    ensures k !in extra
    ensures verdict.MatchedRow? ==> Ordered(s.buildOurs, k, verdict.buildIndex).0 !in matched
  {
  }

  /** Probe with the whole lookup side, popping each row that is met. */
  method Lookup(s: Side, tables: set<Table>)
    returns (rows: RowTable, matched: seq<nat>, extra: seq<nat>, skipped: seq<nat>, conflicts: map<(nat, nat), seq<Conflict>>)
    requires Hashed(s.schema, s.invalid, s.buildSnapshot, s.build, |s.build|, s.rows, s.keys, tables)
    requires DistinctRows(s.lookup)
    requires forall k :: 0 <= k < |s.lookup| && s.lookup[k].id in s.rows && s.lookup[k].id.table !in s.invalid ==>
      (s.build[s.rows[s.lookup[k].id]].Insert? <==> s.lookup[k].Insert?)
    ensures Joined(s, |s.lookup|, rows, matched, extra, skipped, conflicts)
    ensures NoDuplicates(extra) && NoDuplicates(matched)
    ensures forall id :: id in rows ==> id in s.rows && rows[id] == s.rows[id]
  {
    hide Joined, Adds, Side.IsExtra;
    rows, matched, extra, skipped, conflicts := s.rows, [], [], [], map[];
    NothingJoined(s, tables);
    for k := 0 to |s.lookup|
      invariant Joined(s, k, rows, matched, extra, skipped, conflicts)
      invariant NoDuplicates(extra) && NoDuplicates(matched)
      invariant forall id :: id in rows ==> id in s.rows && rows[id] == s.rows[id]
    {
      var stmt := s.lookup[k];
      if stmt.id.table in s.invalid {
        JoinedSkip(s, k, rows, matched, extra, skipped, conflicts);
        skipped := skipped + [k];
        continue;
      }
      JoinedRows(s, k, rows, matched, extra, skipped, conflicts);
      var verdict, conflicts' := ExtraRow, conflicts;
      if stmt.id.table in tables {
        verdict, conflicts' := LookupStatement(s, k, rows, conflicts);
      } else {
        UnknownTable(s, tables, k, conflicts);
      }
      JoinedStep(s, k, rows, matched, extra, skipped, conflicts, verdict, conflicts');
      FreshIndexes(s, k, rows, matched, extra, skipped, conflicts, verdict, conflicts');
      rows := rows - {stmt.id};
      if verdict.MatchedRow? { matched := matched + [Ordered(s.buildOurs, k, verdict.buildIndex).0]; }
      if verdict.ExtraRow? { extra := extra + [k]; }
      conflicts := conflicts';
      assert matched == matched + [] && extra == extra + [];
    }
  }

  // ----- the whole join -----

  /** Both branches' diffs against one base. */
  datatype Branches = Branches(schema: Schema, invalid: set<Table>, ours: seq<DiffStatement>, theirs: seq<DiffStatement>,
    oursSnapshot: Snapshot, theirsSnapshot: Snapshot)
  {
    function Build(buildOurs: bool): seq<DiffStatement> { if buildOurs then ours else theirs }
    function Lookup(buildOurs: bool): seq<DiffStatement> { if buildOurs then theirs else ours }
    function BuildSnapshot(buildOurs: bool): Snapshot { if buildOurs then oursSnapshot else theirsSnapshot }
    function LookupSnapshot(buildOurs: bool): Snapshot { if buildOurs then theirsSnapshot else oursSnapshot }

    ghost predicate Merges(stmt: DiffStatement) { stmt.id.table !in invalid }

    /** Statement `k` of one side takes a unique key that a statement of the other side takes. */
    ghost predicate KeyClash(buildOurs: bool, k: nat)
      requires k < |Lookup(buildOurs)|
    {
      exists i, key :: KeyClashAt(buildOurs, k, i, key)
    }

    ghost predicate KeyClashAt(buildOurs: bool, k: nat, i: int, key: UniqueKey)
      requires k < |Lookup(buildOurs)|
    {
      && 0 <= i < |Build(buildOurs)| && Merges(Build(buildOurs)[i])
      && Takes(schema, BuildSnapshot(buildOurs), Build(buildOurs)[i], key)
      && Takes(schema, LookupSnapshot(buildOurs), Lookup(buildOurs)[k], key)
    }
  }

  /** What the buckets hold, when `buildOurs` says which diff was hashed. */
  ghost predicate Classified(x: Branches, buildOurs: bool, b: DiffBuckets) {
    && MatchedExactly(x, b)
    && ExtraExactly(x, buildOurs, b)
    && RowConflictsExactly(x, b)
    && UniqueConflictsFound(x, buildOurs, b)
    && UniqueConflictsReal(x, b)
    && NoDuplicates(b.matchedOurs) && NoDuplicates(b.extraOurs) && NoDuplicates(b.extraTheirs)
    && (forall i: nat :: i in b.invalidOurs <==> i < |x.ours| && !x.Merges(x.ours[i]))
    && (forall i: nat :: i in b.invalidTheirs <==> i < |x.theirs| && !x.Merges(x.theirs[i]))
    && NoneEmpty(b.conflicts)
  }

  /** Matched: the same statement on both sides. */
  ghost predicate MatchedExactly(x: Branches, b: DiffBuckets) {
    forall i: nat :: i in b.matchedOurs <==> i < |x.ours| && x.Merges(x.ours[i]) && x.ours[i] in x.theirs
  }

  /** Extra: a row the other side leaves alone, and on the probing side no unique key it takes. */
  ghost predicate ExtraExactly(x: Branches, buildOurs: bool, b: DiffBuckets) {
    && (forall i: nat :: i in b.extraOurs <==>
        (&& i < |x.ours| && x.Merges(x.ours[i]) && !Touches(x.theirs, x.ours[i].id)
         && (buildOurs || !x.KeyClash(buildOurs, i))))
    && (forall j: nat :: j in b.extraTheirs <==>
        (&& j < |x.theirs| && x.Merges(x.theirs[j]) && !Touches(x.ours, x.theirs[j].id)
         && (!buildOurs || !x.KeyClash(buildOurs, j))))
  }

  /** Primary-key conflicts: the same row, changed differently. */
  ghost predicate RowConflictsExactly(x: Branches, b: DiffBuckets) {
    forall i: nat, j: nat :: Listed(b.conflicts, (i, j), PrimaryKeyConflict) <==>
      (i < |x.ours| && j < |x.theirs| && x.Merges(x.ours[i]) && x.ours[i].id == x.theirs[j].id && x.ours[i] != x.theirs[j])
  }

  /** Unique conflicts: exactly the probing statements that are not matched and take a key the
      other side has taken are in some unique conflict. */
  ghost predicate UniqueConflictsFound(x: Branches, buildOurs: bool, b: DiffBuckets) {
    forall k: nat :: k < |x.Lookup(buildOurs)| && x.Merges(x.Lookup(buildOurs)[k]) && x.Lookup(buildOurs)[k] !in x.Build(buildOurs) ==>
      (x.KeyClash(buildOurs, k) <==> exists i: nat, index :: Listed(b.conflicts, Ordered(buildOurs, k, i), UniqueIndexConflict(index)))
  }

  /** A unique conflict names two statements that take one key of that index. */
  ghost predicate UniqueConflictsReal(x: Branches, b: DiffBuckets) {
    forall i: nat, j: nat, index :: Listed(b.conflicts, (i, j), UniqueIndexConflict(index)) ==>
      i < |x.ours| && j < |x.theirs| && x.Merges(x.ours[i]) && x.Merges(x.theirs[j]) && exists key :: BothTake(x, i, j, index, key)
  }

  ghost predicate BothTake(x: Branches, i: nat, j: nat, index: UniqueIndex, key: UniqueKey)
    requires i < |x.ours| && j < |x.theirs|
  {
    key.index == index && Takes(x.schema, x.oursSnapshot, x.ours[i], key) && Takes(x.schema, x.theirsSnapshot, x.theirs[j], key)
  }

  /** Key by key: an unmatched probing statement is listed with a hashed one that takes that very key. */
  ghost predicate UniquePairsFound(x: Branches, buildOurs: bool, b: DiffBuckets) {
    forall k: nat, i: int, key ::
      k < |x.Lookup(buildOurs)| && x.Merges(x.Lookup(buildOurs)[k]) && x.Lookup(buildOurs)[k] !in x.Build(buildOurs) ==>
        x.KeyClashAt(buildOurs, k, i, key) ==> PairListed(x, buildOurs, b, k, key)
  }

  ghost predicate PairListed(x: Branches, buildOurs: bool, b: DiffBuckets, k: nat, key: UniqueKey)
    requires k < |x.Lookup(buildOurs)|
  {
    exists i: nat :: TakerListed(x, buildOurs, b, k, i, key)
  }

  ghost predicate TakerListed(x: Branches, buildOurs: bool, b: DiffBuckets, k: nat, i: nat, key: UniqueKey)
    requires k < |x.Lookup(buildOurs)|
  {
    && i < |x.Build(buildOurs)| && x.Merges(x.Build(buildOurs)[i])
    && Takes(x.schema, x.BuildSnapshot(buildOurs), x.Build(buildOurs)[i], key)
    && Listed(b.conflicts, Ordered(buildOurs, k, i), UniqueIndexConflict(key.index))
  }

  /** No matched statement is in a unique conflict as the probing one. */
  ghost predicate UniquePairsUnmatched(x: Branches, buildOurs: bool, b: DiffBuckets) {
    forall i: nat, j: nat, index :: Listed(b.conflicts, (i, j), UniqueIndexConflict(index)) ==>
      i < |x.ours| && j < |x.theirs| && if buildOurs then x.theirs[j] !in x.ours else x.ours[i] !in x.theirs
  }

  /** The unique conflicts, pair by pair. */
  ghost predicate Paired(x: Branches, buildOurs: bool, b: DiffBuckets) {
    UniquePairsFound(x, buildOurs, b) && UniquePairsUnmatched(x, buildOurs, b)
  }

  /** The hashed statements no lookup statement met. */
  method Remaining(s: Side, rows: RowTable) returns (remaining: seq<nat>)
    requires s.Wellformed()
    requires forall id :: id in rows ==> id in s.rows && rows[id] == s.rows[id]
    ensures forall i :: i in remaining <==> exists id :: id in rows && rows[id] == i
    ensures NoDuplicates(remaining)
  {
    remaining := [];
    var todo := rows.Keys;
    while todo != {}
      invariant todo <= rows.Keys
      invariant forall i :: i in remaining <==> exists id :: id in rows && id !in todo && rows[id] == i
      invariant NoDuplicates(remaining)
    {
      var id :| id in todo;
      assert rows[id] !in remaining;
      remaining := remaining + [rows[id]];
      todo := todo - {id};
    }
  }

  lemma HashedRows(s: Side, tables: set<Table>)
    requires Hashed(s.schema, s.invalid, s.buildSnapshot, s.build, |s.build|, s.rows, s.keys, tables)
    ensures s.Wellformed()
    ensures forall id :: id in s.rows <==> id.table !in s.invalid && Touches(s.build, id)
  {
  }

  /** The side is the one that hashes the given branch. */
  ghost predicate Views(s: Side, x: Branches, buildOurs: bool) {
    && s.schema == x.schema && s.invalid == x.invalid && s.buildOurs == buildOurs
    && s.build == x.Build(buildOurs) && s.lookup == x.Lookup(buildOurs)
    && s.buildSnapshot == x.BuildSnapshot(buildOurs) && s.lookupSnapshot == x.LookupSnapshot(buildOurs)
  }

  /** The row table is the inverse of the statement list. */
  ghost predicate RowsExact(s: Side) {
    && s.Wellformed()
    && (forall i: nat :: i < |s.build| && s.build[i].id.table !in s.invalid ==> s.build[i].id in s.rows && s.rows[s.build[i].id] == i)
  }

  /** The key table knows every key of the hashed side. */
  ghost predicate KeysExact(s: Side) {
    && (forall key :: key in s.keys ==>
        (&& s.keys[key] < |s.build| && Valid(s.invalid, s.build[s.keys[key]])
         && Takes(s.schema, s.buildSnapshot, s.build[s.keys[key]], key)))
    && (forall i, key :: 0 <= i < |s.build| && Valid(s.invalid, s.build[i]) && Takes(s.schema, s.buildSnapshot, s.build[i], key) ==> key in s.keys)
  }

  lemma HashedIsExact(s: Side, tables: set<Table>)
    requires Hashed(s.schema, s.invalid, s.buildSnapshot, s.build, |s.build|, s.rows, s.keys, tables)
    requires DistinctRows(s.build)
    ensures RowsExact(s) && KeysExact(s)
  {
    hide Takes;
  }

  lemma ClashIsKeyClash(x: Branches, buildOurs: bool, s: Side, k: nat)
    requires Views(s, x, buildOurs) && KeysExact(s) && k < |s.lookup|
    ensures s.Clashes(k) <==> x.KeyClash(buildOurs, k)
  {
    hide Takes;
    if s.Clashes(k) {
      var key :| key in s.keys && Takes(s.schema, s.lookupSnapshot, s.lookup[k], key);
      assert x.KeyClashAt(buildOurs, k, s.keys[key], key);
    }
    if x.KeyClash(buildOurs, k) {
      var i, key :| x.KeyClashAt(buildOurs, k, i, key);
      assert Takes(s.schema, s.buildSnapshot, s.build[i], key);
    }
  }

  /** `b` holds what the join found. */
  ghost predicate Buckets(s: Side, rows: RowTable, matched: seq<nat>, extra: seq<nat>, skippedLookup: seq<nat>,
    conflicts: map<(nat, nat), seq<Conflict>>, remaining: seq<nat>, skippedBuild: seq<nat>, b: DiffBuckets)
  {
    && Joined(s, |s.lookup|, rows, matched, extra, skippedLookup, conflicts)
    && (forall i :: i in remaining <==> exists id :: id in rows && rows[id] == i)
    && (forall i: nat :: i in skippedBuild <==> i < |s.build| && !Valid(s.invalid, s.build[i]))
    && b == if s.buildOurs
      then DiffBuckets(matched, remaining, extra, conflicts, skippedBuild, skippedLookup)
      else DiffBuckets(matched, extra, remaining, conflicts, skippedLookup, skippedBuild)
  }

  lemma MatchedClassifies(x: Branches, buildOurs: bool, s: Side, rows: RowTable, matched: seq<nat>, extra: seq<nat>,
    skippedLookup: seq<nat>, conflicts: map<(nat, nat), seq<Conflict>>, b: DiffBuckets)
    requires Views(s, x, buildOurs) && RowsExact(s) && DistinctRows(s.lookup)
    requires Joined(s, |s.lookup|, rows, matched, extra, skippedLookup, conflicts) && b.matchedOurs == matched
    ensures MatchedExactly(x, b)
  {
    hide Side.Reports, Side.IsExtra, Touches, Listed;
    forall i: nat ensures i in matched <==> i < |x.ours| && x.Merges(x.ours[i]) && x.ours[i] in x.theirs {
      if i in matched {
        var k: nat :| k < |s.lookup| && s.MatchedAs(k, i);
        assert s.lookup[k] in s.lookup && s.build[s.rows[s.lookup[k].id]] in s.build;
      }
      if i < |x.ours| && x.Merges(x.ours[i]) && x.ours[i] in x.theirs {
        var j: nat :| j < |x.theirs| && x.theirs[j] == x.ours[i];
        assert s.MatchedAs(if buildOurs then j else i, i);
      }
    }
  }

  lemma RemainingAre(s: Side, rows: RowTable, matched: seq<nat>, extra: seq<nat>, skippedLookup: seq<nat>,
    conflicts: map<(nat, nat), seq<Conflict>>, remaining: seq<nat>, i: nat)
    requires RowsExact(s) && Joined(s, |s.lookup|, rows, matched, extra, skippedLookup, conflicts)
    requires forall i :: i in remaining <==> exists id :: id in rows && rows[id] == i
    ensures i in remaining <==> i < |s.build| && s.build[i].id.table !in s.invalid && !Touches(s.lookup, s.build[i].id)
  {
    hide Side.Reports, Side.IsExtra, Side.MatchedAs, Touches, Listed;
    assert s.lookup[..|s.lookup|] == s.lookup;
    if i < |s.build| && s.build[i].id.table !in s.invalid && !Touches(s.lookup, s.build[i].id) {
      assert s.build[i].id in rows;
    }
  }

  lemma ExtraAre(x: Branches, buildOurs: bool, s: Side, rows: RowTable, matched: seq<nat>, extra: seq<nat>,
    skippedLookup: seq<nat>, conflicts: map<(nat, nat), seq<Conflict>>, k: nat)
    requires Views(s, x, buildOurs) && RowsExact(s) && KeysExact(s)
    requires Joined(s, |s.lookup|, rows, matched, extra, skippedLookup, conflicts)
    ensures k in extra <==> k < |s.lookup| && x.Merges(s.lookup[k]) && !Touches(s.build, s.lookup[k].id) && !x.KeyClash(buildOurs, k)
  {
    hide Side.Reports, Side.MatchedAs, Side.Clashes, Branches.KeyClash, KeysExact, Listed;
    if k < |s.lookup| {
      ClashIsKeyClash(x, buildOurs, s, k);
    }
  }

  lemma ExtraClassifies(x: Branches, buildOurs: bool, s: Side, rows: RowTable, matched: seq<nat>, extra: seq<nat>,
    skippedLookup: seq<nat>, conflicts: map<(nat, nat), seq<Conflict>>, remaining: seq<nat>, skippedBuild: seq<nat>, b: DiffBuckets)
    requires Views(s, x, buildOurs) && RowsExact(s) && KeysExact(s)
    requires Buckets(s, rows, matched, extra, skippedLookup, conflicts, remaining, skippedBuild, b)
    ensures ExtraExactly(x, buildOurs, b)
  {
    hide Joined, RowsExact, KeysExact, Branches.KeyClash, Touches;
    forall k: nat { ExtraAre(x, buildOurs, s, rows, matched, extra, skippedLookup, conflicts, k); }
    forall k: nat { RemainingAre(s, rows, matched, extra, skippedLookup, conflicts, remaining, k); }
  }

  lemma RowConflictsClassify(x: Branches, buildOurs: bool, s: Side, rows: RowTable, matched: seq<nat>, extra: seq<nat>,
    skippedLookup: seq<nat>, conflicts: map<(nat, nat), seq<Conflict>>, b: DiffBuckets)
    requires Views(s, x, buildOurs) && RowsExact(s)
    requires Joined(s, |s.lookup|, rows, matched, extra, skippedLookup, conflicts) && b.conflicts == conflicts
    ensures RowConflictsExactly(x, b)
  {
    hide Side.MatchedAs, Side.IsExtra, Side.ReportsKey, Touches, Listed;
    forall i: nat, j: nat ensures Listed(conflicts, (i, j), PrimaryKeyConflict) <==>
      (i < |x.ours| && j < |x.theirs| && x.Merges(x.ours[i]) && x.ours[i].id == x.theirs[j].id && x.ours[i] != x.theirs[j]) {
      if i < |x.ours| && j < |x.theirs| && x.Merges(x.ours[i]) && x.ours[i].id == x.theirs[j].id && x.ours[i] != x.theirs[j] {
        assert s.Reports(if buildOurs then j else i, (i, j), PrimaryKeyConflict);
      }
    }
  }

  lemma UniqueConflictsClassify(x: Branches, buildOurs: bool, s: Side, rows: RowTable, matched: seq<nat>, extra: seq<nat>,
    skippedLookup: seq<nat>, conflicts: map<(nat, nat), seq<Conflict>>, b: DiffBuckets)
    requires Views(s, x, buildOurs) && RowsExact(s) && KeysExact(s)
    requires Joined(s, |s.lookup|, rows, matched, extra, skippedLookup, conflicts) && b.conflicts == conflicts
    ensures UniqueConflictsFound(x, buildOurs, b)
  {
    hide Side.MatchedAs, Side.IsExtra, Touches, Listed, Branches.KeyClash, Takes, Side.Reports, Side.Clashes, KeysExact, NoneEmpty;
    forall k: nat | k < |s.lookup| && x.Merges(s.lookup[k]) && s.lookup[k] !in s.build
      ensures x.KeyClash(buildOurs, k) <==> exists i: nat, index :: Listed(conflicts, Ordered(buildOurs, k, i), UniqueIndexConflict(index))
    {
      ClashIsKeyClash(x, buildOurs, s, k);
      if s.Clashes(k) {
        var i, index := ClashReports(s, k);
        assert Listed(conflicts, Ordered(buildOurs, k, i), UniqueIndexConflict(index));
      }
      if i: nat, index :| Listed(conflicts, Ordered(buildOurs, k, i), UniqueIndexConflict(index)) {
        var k': nat :| k' < |s.lookup| && s.Reports(k', Ordered(buildOurs, k, i), UniqueIndexConflict(index));
        ReportsClash(s, k', Ordered(buildOurs, k, i), index);
      }
    }
  }

  lemma ClashReports(s: Side, k: nat) returns (i: nat, index: UniqueIndex)
    requires s.Wellformed() && k < |s.lookup| && s.lookup[k].id.table !in s.invalid && s.lookup[k] !in s.build && s.Clashes(k)
    ensures s.Reports(k, Ordered(s.buildOurs, k, i), UniqueIndexConflict(index))
  {
    hide Takes;
    var key :| key in s.keys && Takes(s.schema, s.lookupSnapshot, s.lookup[k], key);
    i, index := s.keys[key], key.index;
    assert s.ReportsKey(k, Ordered(s.buildOurs, k, i), UniqueIndexConflict(index), key);
  }

  lemma ReportsClash(s: Side, k: nat, p: (nat, nat), index: UniqueIndex)
    requires s.Wellformed() && k < |s.lookup| && s.Reports(k, p, UniqueIndexConflict(index))
    ensures s.Clashes(k) && k == if s.buildOurs then p.1 else p.0
  {
    hide Takes, Side.Matches;
    var key :| key in s.keys && s.ReportsKey(k, p, UniqueIndexConflict(index), key);
  }

  lemma UniqueConflictsAreReal(x: Branches, buildOurs: bool, s: Side, rows: RowTable, matched: seq<nat>, extra: seq<nat>,
    skippedLookup: seq<nat>, conflicts: map<(nat, nat), seq<Conflict>>, b: DiffBuckets)
    requires Views(s, x, buildOurs) && RowsExact(s) && KeysExact(s)
    requires Joined(s, |s.lookup|, rows, matched, extra, skippedLookup, conflicts) && b.conflicts == conflicts
    ensures UniqueConflictsReal(x, b)
  {
    hide Side.MatchedAs, Side.IsExtra, Side.Reports, Touches, Listed, Takes, KeysExact, BothTake, NoneEmpty;
    forall i: nat, j: nat, index | Listed(conflicts, (i, j), UniqueIndexConflict(index))
      ensures i < |x.ours| && j < |x.theirs| && x.Merges(x.ours[i]) && x.Merges(x.theirs[j]) && exists key :: BothTake(x, i, j, index, key)
    {
      var k: nat :| k < |s.lookup| && s.Reports(k, (i, j), UniqueIndexConflict(index));
      ReportIsReal(x, buildOurs, s, k, i, j, index);
    }
  }

  lemma ReportIsReal(x: Branches, buildOurs: bool, s: Side, k: nat, i: nat, j: nat, index: UniqueIndex)
    requires Views(s, x, buildOurs) && s.Wellformed() && KeysExact(s) && k < |s.lookup|
    requires s.Reports(k, (i, j), UniqueIndexConflict(index))
    ensures i < |x.ours| && j < |x.theirs| && x.Merges(x.ours[i]) && x.Merges(x.theirs[j]) && exists key :: BothTake(x, i, j, index, key)
  {
    hide Takes, Side.Matches;
    var key :| key in s.keys && s.ReportsKey(k, (i, j), UniqueIndexConflict(index), key);
    assert BothTake(x, i, j, index, key);
  }

  lemma PairsClassify(x: Branches, buildOurs: bool, s: Side, rows: RowTable, matched: seq<nat>, extra: seq<nat>,
    skippedLookup: seq<nat>, conflicts: map<(nat, nat), seq<Conflict>>, b: DiffBuckets)
    requires Views(s, x, buildOurs) && RowsExact(s) && KeysExact(s)
    requires Joined(s, |s.lookup|, rows, matched, extra, skippedLookup, conflicts) && b.conflicts == conflicts
    ensures Paired(x, buildOurs, b)
  {
    hide Side.MatchedAs, Side.IsExtra, Touches, Listed, Takes, NoneEmpty, RowsExact, KeysExact, Side.Reports;
    forall k: nat, i: int, key | k < |s.lookup| && x.Merges(s.lookup[k]) && s.lookup[k] !in s.build && x.KeyClashAt(buildOurs, k, i, key)
      ensures PairListed(x, buildOurs, b, k, key)
    {
      ClashIsReported(x, buildOurs, s, k, i, key);
      assert TakerListed(x, buildOurs, b, k, s.keys[key], key);
    }
    forall i: nat, j: nat, index | Listed(conflicts, (i, j), UniqueIndexConflict(index))
      ensures i < |x.ours| && j < |x.theirs| && if buildOurs then x.theirs[j] !in x.ours else x.ours[i] !in x.theirs
    {
      var k: nat :| k < |s.lookup| && s.Reports(k, (i, j), UniqueIndexConflict(index));
      ReportIsReal(x, buildOurs, s, k, i, j, index);
      ReporterUnmatched(s, k, (i, j), UniqueIndexConflict(index));
    }
  }

  lemma ClashIsReported(x: Branches, buildOurs: bool, s: Side, k: nat, i: int, key: UniqueKey)
    requires Views(s, x, buildOurs) && RowsExact(s) && KeysExact(s) && k < |s.lookup|
    requires x.Merges(s.lookup[k]) && s.lookup[k] !in s.build && x.KeyClashAt(buildOurs, k, i, key)
    ensures key in s.keys && s.keys[key] < |s.build| && x.Merges(s.build[s.keys[key]])
    ensures Takes(s.schema, s.buildSnapshot, s.build[s.keys[key]], key)
    ensures s.Reports(k, Ordered(buildOurs, k, s.keys[key]), UniqueIndexConflict(key.index))
  {
    hide Takes;
    assert Takes(s.schema, s.buildSnapshot, s.build[i], key);
    assert s.ReportsKey(k, Ordered(buildOurs, k, s.keys[key]), UniqueIndexConflict(key.index), key);
  }

  lemma ReporterUnmatched(s: Side, k: nat, p: (nat, nat), c: Conflict)
    requires RowsExact(s) && k < |s.lookup| && s.Reports(k, p, c)
    ensures s.lookup[k] !in s.build
    ensures k == if s.buildOurs then p.1 else p.0
  {
    hide Takes;
  }

  lemma JoinClassifies(x: Branches, buildOurs: bool, s: Side, tables: set<Table>, rows: RowTable, matched: seq<nat>, extra: seq<nat>,
    skippedLookup: seq<nat>, conflicts: map<(nat, nat), seq<Conflict>>, remaining: seq<nat>, skippedBuild: seq<nat>, b: DiffBuckets)
    requires Hashed(s.schema, s.invalid, s.buildSnapshot, s.build, |s.build|, s.rows, s.keys, tables)
    requires Views(s, x, buildOurs) && DistinctRows(s.build) && DistinctRows(s.lookup)
    requires Buckets(s, rows, matched, extra, skippedLookup, conflicts, remaining, skippedBuild, b)
    requires NoDuplicates(matched) && NoDuplicates(extra) && NoDuplicates(remaining)
    ensures Classified(x, buildOurs, b) && Paired(x, buildOurs, b)
  {
    hide Hashed, DistinctRows, RowsExact, KeysExact, NoDuplicates, Paired;
    hide MatchedExactly, ExtraExactly, RowConflictsExactly, UniqueConflictsFound, UniqueConflictsReal, Side.Reports, Side.MatchedAs, Side.IsExtra, Listed, Touches;
    HashedIsExact(s, tables);
    MatchedClassifies(x, buildOurs, s, rows, matched, extra, skippedLookup, conflicts, b);
    ExtraClassifies(x, buildOurs, s, rows, matched, extra, skippedLookup, conflicts, remaining, skippedBuild, b);
    RowConflictsClassify(x, buildOurs, s, rows, matched, extra, skippedLookup, conflicts, b);
    UniqueConflictsClassify(x, buildOurs, s, rows, matched, extra, skippedLookup, conflicts, b);
    UniqueConflictsAreReal(x, buildOurs, s, rows, matched, extra, skippedLookup, conflicts, b);
    PairsClassify(x, buildOurs, s, rows, matched, extra, skippedLookup, conflicts, b);
  }

  /** Join with the given side hashed. */
  method HashJoin(x: Branches, buildOurs: bool) returns (b: DiffBuckets)
    requires DistinctRows(x.ours) && DistinctRows(x.theirs)
    requires forall i, j :: 0 <= i < |x.ours| && 0 <= j < |x.theirs| && x.ours[i].id == x.theirs[j].id ==>
      (x.ours[i].Insert? <==> x.theirs[j].Insert?)
    ensures Classified(x, buildOurs, b) && Paired(x, buildOurs, b)
  {
    hide DistinctRows, Classified, Paired, Hashed, Joined, NoDuplicates, Takes;
    var build, lookup := x.Build(buildOurs), x.Lookup(buildOurs);
    var rows0, keys, tables, skippedBuild := Build(x.schema, x.invalid, x.BuildSnapshot(buildOurs), build);
    var s := Side(x.schema, x.invalid, x.BuildSnapshot(buildOurs), x.LookupSnapshot(buildOurs), build, lookup, buildOurs, rows0, keys);
    HashedRows(s, tables);
    var rows, matched, extra, skippedLookup, conflicts := Lookup(s, tables);
    var remaining := Remaining(s, rows);
    b := if buildOurs
      then DiffBuckets(matched, remaining, extra, conflicts, skippedBuild, skippedLookup)
      else DiffBuckets(matched, extra, remaining, conflicts, skippedLookup, skippedBuild);
    JoinClassifies(x, buildOurs, s, tables, rows, matched, extra, skippedLookup, conflicts, remaining, skippedBuild, b);
  }

  /** `check_conflict_and_return_diffs`: hash the shorter diff, ours on a tie. */
  method CheckConflictAndReturnDiffs(x: Branches) returns (b: DiffBuckets)
    requires DistinctRows(x.ours) && DistinctRows(x.theirs)
    requires forall i, j :: 0 <= i < |x.ours| && 0 <= j < |x.theirs| && x.ours[i].id == x.theirs[j].id ==>
      (x.ours[i].Insert? <==> x.theirs[j].Insert?)
    ensures Classified(x, |x.ours| <= |x.theirs|, b) && Paired(x, |x.ours| <= |x.theirs|, b)
  {
    b := HashJoin(x, |x.ours| <= |x.theirs|);
  }

  // ----- a merge without conflicts -----

  function Pick(stmts: seq<DiffStatement>, indices: seq<nat>): seq<DiffStatement>
    requires forall i: nat :: i in indices ==> i < |stmts|
  {
    seq(|indices|, n requires 0 <= n < |indices| => assert indices[n] in indices; stmts[indices[n]])
  }

  /** Every bucket index names a statement. */
  ghost predicate InRange(x: Branches, b: DiffBuckets) {
    && (forall i: nat :: i in b.matchedOurs ==> i < |x.ours|)
    && (forall i: nat :: i in b.extraOurs ==> i < |x.ours|)
    && (forall j: nat :: j in b.extraTheirs ==> j < |x.theirs|)
  }

  /** The script that is applied to base. */
  ghost function MergeScript(x: Branches, b: DiffBuckets): seq<DiffStatement>
    requires InRange(x, b)
  {
    Pick(x.ours, b.matchedOurs) + Pick(x.ours, b.extraOurs) + Pick(x.theirs, b.extraTheirs)
  }

  lemma PickMember(stmts: seq<DiffStatement>, indices: seq<nat>, stmt: DiffStatement)
    requires forall i: nat :: i in indices ==> i < |stmts|
    ensures stmt in Pick(stmts, indices) <==> exists i: nat :: i in indices && stmts[i] == stmt
  {
    if i: nat :| i in indices && stmts[i] == stmt {
      var n :| 0 <= n < |indices| && indices[n] == i;
      assert Pick(stmts, indices)[n] == stmt;
    }
  }

  lemma PickDistinct(stmts: seq<DiffStatement>, indices: seq<nat>)
    requires forall i: nat :: i in indices ==> i < |stmts|
    requires DistinctRows(stmts) && NoDuplicates(indices)
    ensures DistinctRows(Pick(stmts, indices))
  {
    var picked := Pick(stmts, indices);
    forall m, n | 0 <= m < n < |picked| ensures picked[m].id != picked[n].id {
      assert indices[m] in indices && indices[n] in indices && indices[m] != indices[n];
    }
  }

  lemma ConcatDistinct(a: seq<DiffStatement>, b: seq<DiffStatement>)
    requires DistinctRows(a) && DistinctRows(b)
    requires forall s, u :: s in a && u in b ==> s.id != u.id
    ensures DistinctRows(a + b)
  {
    forall i, j | 0 <= i < j < |a + b| ensures (a + b)[i].id != (a + b)[j].id {
      if i < |a| <= j { assert (a + b)[i] in a && (a + b)[j] in b; }
    }
  }

  lemma ClassifiedInRange(x: Branches, buildOurs: bool, b: DiffBuckets)
    requires Classified(x, buildOurs, b)
    ensures InRange(x, b)
  {
  }

  /** The script touches each row once, as the buckets never share a row. */
  lemma ScriptDistinct(x: Branches, buildOurs: bool, b: DiffBuckets)
    requires DistinctRows(x.ours) && DistinctRows(x.theirs) && Classified(x, buildOurs, b) && InRange(x, b)
    ensures DistinctRows(MergeScript(x, b))
  {
    hide Branches.KeyClash, RowConflictsExactly, UniqueConflictsFound, DistinctRows, NoDuplicates, Pick;
    var m, o, u := Pick(x.ours, b.matchedOurs), Pick(x.ours, b.extraOurs), Pick(x.theirs, b.extraTheirs);
    PickDistinct(x.ours, b.matchedOurs);
    PickDistinct(x.ours, b.extraOurs);
    PickDistinct(x.theirs, b.extraTheirs);
    forall s { PickMember(x.ours, b.matchedOurs, s); }
    forall s { PickMember(x.ours, b.extraOurs, s); }
    forall s { PickMember(x.theirs, b.extraTheirs, s); }
    forall s, v | s in m && v in o ensures s.id != v.id {
      var j :| 0 <= j < |x.theirs| && x.theirs[j] == s;
      assert s.id == v.id ==> Touches(x.theirs, v.id);
    }
    ConcatDistinct(m, o);
    forall s, v | s in m + o && v in u ensures s.id != v.id {
      assert s in m || s in o;
      var i: nat :| i < |x.ours| && x.ours[i] == s;
      assert s.id == v.id ==> Touches(x.ours, v.id);
    }
    ConcatDistinct(m + o, u);
  }

  /** A statement of the script comes from a branch and from a table that merges. */
  lemma ScriptMember(x: Branches, buildOurs: bool, b: DiffBuckets, s: DiffStatement)
    requires Classified(x, buildOurs, b) && InRange(x, b)
    ensures s in MergeScript(x, b) <==>
      || (exists i: nat :: i in b.matchedOurs && x.ours[i] == s)
      || (exists i: nat :: i in b.extraOurs && x.ours[i] == s)
      || (exists j: nat :: j in b.extraTheirs && x.theirs[j] == s)
  {
    hide Classified, Pick;
    PickMember(x.ours, b.matchedOurs, s);
    PickMember(x.ours, b.extraOurs, s);
    PickMember(x.theirs, b.extraTheirs, s);
  }

  /** Without conflicts every statement of ours that merges is in the script. */
  lemma OursIsApplied(x: Branches, buildOurs: bool, b: DiffBuckets, i: nat)
    requires Classified(x, buildOurs, b) && b.conflicts == map[] && InRange(x, b)
    requires i < |x.ours| && x.Merges(x.ours[i])
    ensures x.ours[i] in MergeScript(x, b)
    ensures forall j: nat :: j < |x.theirs| && x.theirs[j].id == x.ours[i].id ==> x.theirs[j] == x.ours[i]
  {
    hide MergeScript, Branches.KeyClash, NoDuplicates;
    ScriptMember(x, buildOurs, b, x.ours[i]);
    forall j: nat | j < |x.theirs| && x.theirs[j].id == x.ours[i].id ensures x.theirs[j] == x.ours[i] {
      assert !Listed(b.conflicts, (i, j), PrimaryKeyConflict);
    }
    if Touches(x.theirs, x.ours[i].id) {
      assert x.ours[i] in x.theirs;
    } else {
      assert x.ours[i] !in x.theirs;
      assert forall k: nat, index :: !Listed(b.conflicts, Ordered(buildOurs, i, k), UniqueIndexConflict(index));
      assert i in b.extraOurs;
    }
  }

  lemma TheirsIsApplied(x: Branches, buildOurs: bool, b: DiffBuckets, j: nat)
    requires Classified(x, buildOurs, b) && b.conflicts == map[] && InRange(x, b)
    requires j < |x.theirs| && x.Merges(x.theirs[j])
    ensures x.theirs[j] in MergeScript(x, b)
  {
    hide MergeScript, Branches.KeyClash, NoDuplicates;
    ScriptMember(x, buildOurs, b, x.theirs[j]);
    if Touches(x.ours, x.theirs[j].id) {
      var i: nat :| i < |x.ours| && x.ours[i].id == x.theirs[j].id;
      assert !Listed(b.conflicts, (i, j), PrimaryKeyConflict);
      assert i in b.matchedOurs;
    } else {
      assert x.theirs[j] !in x.ours;
      assert forall k: nat, index :: !Listed(b.conflicts, Ordered(buildOurs, j, k), UniqueIndexConflict(index));
      assert j in b.extraTheirs;
    }
  }

  lemma AppliedAt(base: Snapshot, script: seq<DiffStatement>, stmt: DiffStatement)
    requires DistinctRows(script) && stmt in script
    ensures At(ApplyAll(base, script), stmt.id) == Effect(stmt, At(base, stmt.id))
  {
    ApplyAllAt(base, script, stmt.id);
  }

  /** The per-row merge of three versions, when at most one side or both alike changed the row. */
  ghost predicate MergesRow(before: Option<Row>, ours: Option<Row>, theirs: Option<Row>, merged: Option<Row>) {
    && (ours == before || theirs == before || ours == theirs)
    && merged == if ours != before then ours else theirs
  }

  ghost predicate BothDiffs(base: Snapshot, x: Branches) {
    ValidDiff(base, x.oursSnapshot, x.ours) && ValidDiff(base, x.theirsSnapshot, x.theirs)
  }

  /** Row by row the script makes the three-way merge, and leaves an invalid table as it was. */
  lemma ConflictFreeRow(base: Snapshot, x: Branches, buildOurs: bool, b: DiffBuckets, id: RowId)
    requires BothDiffs(base, x) && Classified(x, buildOurs, b) && b.conflicts == map[] && InRange(x, b)
    ensures id.table !in x.invalid ==>
      MergesRow(At(base, id), At(x.oursSnapshot, id), At(x.theirsSnapshot, id), At(ApplyAll(base, MergeScript(x, b)), id))
    ensures id.table !in x.invalid && Touches(x.ours, id) && Touches(x.theirs, id) ==> At(x.oursSnapshot, id) == At(x.theirsSnapshot, id)
    ensures id.table in x.invalid ==> At(ApplyAll(base, MergeScript(x, b)), id) == At(base, id)
  {
    hide MergeScript, Classified, ApplyAll, DistinctRows, Effect, At, InRange;
    var script := MergeScript(x, b);
    ScriptDistinct(x, buildOurs, b);
    if Touches(x.ours, id) && id.table !in x.invalid {
      var i: nat :| i < |x.ours| && x.ours[i].id == id;
      OursIsApplied(x, buildOurs, b, i);
      AppliedAt(base, script, x.ours[i]);
    } else if Touches(x.theirs, id) && id.table !in x.invalid {
      var j: nat :| j < |x.theirs| && x.theirs[j].id == id;
      TheirsIsApplied(x, buildOurs, b, j);
      AppliedAt(base, script, x.theirs[j]);
    } else {
      Untouched(x, buildOurs, b, id);
      ApplyAllAt(base, script, id);
    }
  }

  lemma Untouched(x: Branches, buildOurs: bool, b: DiffBuckets, id: RowId)
    requires Classified(x, buildOurs, b) && InRange(x, b)
    requires id.table in x.invalid || (!Touches(x.ours, id) && !Touches(x.theirs, id))
    ensures !Touches(MergeScript(x, b), id)
  {
    hide MergeScript, Branches.KeyClash, NoDuplicates, RowConflictsExactly, UniqueConflictsFound;
    if Touches(MergeScript(x, b), id) {
      var n :| 0 <= n < |MergeScript(x, b)| && MergeScript(x, b)[n].id == id;
      ScriptMember(x, buildOurs, b, MergeScript(x, b)[n]);
    }
  }

  /** No two rows of a table that merges give a unique index the same non-NULL value. */
  ghost predicate UniqueHolds(schema: Schema, invalid: set<Table>, s: Snapshot) {
    forall p, q, index :: p in s && q in s && SameKey(schema, invalid, p, s[p], q, s[q], index) ==> p == q
  }

  ghost predicate SameKey(schema: Schema, invalid: set<Table>, p: RowId, row: Row, q: RowId, other: Row, index: UniqueIndex) {
    && p.table == q.table && p.table !in invalid && index in IndexesOf(schema, p.table)
    && Meet(row, other, ColumnsIn(index))
  }

  /** A row only one branch changed takes, in that branch, every key it has there and not in base. */
  lemma ChangedRowTakes(base: Snapshot, schema: Schema, snapshot: Snapshot, diff: seq<DiffStatement>, i: nat, index: UniqueIndex)
    requires ValidDiff(base, snapshot, diff) && i < |diff| && diff[i].id in snapshot
    requires index in IndexesOf(schema, diff[i].id.table) && KeyOf(diff[i].id.table, index, snapshot[diff[i].id]).Some?
    ensures || Takes(schema, snapshot, diff[i], KeyOf(diff[i].id.table, index, snapshot[diff[i].id]).value)
            || (diff[i].id in base && KeyOf(diff[i].id.table, index, base[diff[i].id]) == KeyOf(diff[i].id.table, index, snapshot[diff[i].id]))
  {
    var id := diff[i].id;
    TakenKeysByIndex(IndexesOf(schema, id.table), snapshot, diff[i], KeyOf(id.table, index, snapshot[id]).value);
    if !Concerns(diff[i], index) {
      assert ValuesOf(base[id], index.columns) == ValuesOf(snapshot[id], index.columns);
    }
  }

  /** A changed row that meets a row of the other branch has taken the shared key: in base it could not stand there. */
  lemma SharedKeyIsTaken(base: Snapshot, schema: Schema, invalid: set<Table>, snapshot: Snapshot, diff: seq<DiffStatement>, i: nat,
    other: Snapshot, q: RowId, index: UniqueIndex)
    requires ValidDiff(base, snapshot, diff) && i < |diff| && diff[i].id in snapshot
    requires At(other, diff[i].id) == At(base, diff[i].id) && UniqueHolds(schema, invalid, other)
    requires q in other && q != diff[i].id && SameKey(schema, invalid, diff[i].id, snapshot[diff[i].id], q, other[q], index)
    ensures Takes(schema, snapshot, diff[i], KeyOf(diff[i].id.table, index, snapshot[diff[i].id]).value)
  {
    hide KeyOf, Takes, ValidDiff, Meet, NoNull, ColumnsIn;
    var p := diff[i].id;
    OneKey(p.table, index, snapshot[p], other[q]);
    if p in other { OneKey(p.table, index, other[p], other[q]); }
    ChangedRowTakes(base, schema, snapshot, diff, i, index);
    assert p !in other || !SameKey(schema, invalid, p, other[p], q, other[q], index);
  }

  lemma NoConflictNoClash(x: Branches, buildOurs: bool, b: DiffBuckets, k: nat)
    requires Classified(x, buildOurs, b) && b.conflicts == map[]
    requires k < |x.Lookup(buildOurs)| && x.Merges(x.Lookup(buildOurs)[k]) && !Touches(x.Build(buildOurs), x.Lookup(buildOurs)[k].id)
    ensures !x.KeyClash(buildOurs, k)
  {
    hide Branches.KeyClash, NoDuplicates, MatchedExactly, ExtraExactly, RowConflictsExactly, UniqueConflictsReal;
    assert x.Lookup(buildOurs)[k] !in x.Build(buildOurs);
  }

  /** A row changed by ours and a row changed by theirs never meet in a unique index. */
  lemma NoCrossClash(base: Snapshot, x: Branches, buildOurs: bool, b: DiffBuckets, p: RowId, q: RowId, index: UniqueIndex)
    requires BothDiffs(base, x) && Classified(x, buildOurs, b) && b.conflicts == map[]
    requires UniqueHolds(x.schema, x.invalid, x.oursSnapshot) && UniqueHolds(x.schema, x.invalid, x.theirsSnapshot)
    requires p in x.oursSnapshot && q in x.theirsSnapshot && p != q
    requires Touches(x.ours, p) && !Touches(x.theirs, p) && Touches(x.theirs, q) && !Touches(x.ours, q)
    ensures !SameKey(x.schema, x.invalid, p, x.oursSnapshot[p], q, x.theirsSnapshot[q], index)
  {
    hide KeyOf, Takes, NoDuplicates, DistinctRows, MatchedExactly, RowConflictsExactly, ExtraExactly;
    if SameKey(x.schema, x.invalid, p, x.oursSnapshot[p], q, x.theirsSnapshot[q], index) {
      var i: nat :| i < |x.ours| && x.ours[i].id == p;
      var j: nat :| j < |x.theirs| && x.theirs[j].id == q;
      OneKey(p.table, index, x.oursSnapshot[p], x.theirsSnapshot[q]);
      OneKey(q.table, index, x.theirsSnapshot[q], x.oursSnapshot[p]);
      var key := KeyOf(p.table, index, x.oursSnapshot[p]).value;
      var k, other := if buildOurs then j else i, if buildOurs then i else j;
      NoConflictNoClash(x, buildOurs, b, k);
      assert !x.KeyClashAt(buildOurs, k, other, key);
      SharedKeyIsTaken(base, x.schema, x.invalid, x.oursSnapshot, x.ours, i, x.theirsSnapshot, q, index);
      SharedKeyIsTaken(base, x.schema, x.invalid, x.theirsSnapshot, x.theirs, j, x.oursSnapshot, p, index);
    }
  }

  /** UNIQUE survives: two merged rows with one key would both stand in one branch, or be a reported clash. */
  lemma ConflictFreeUnique(base: Snapshot, x: Branches, buildOurs: bool, b: DiffBuckets, p: RowId, q: RowId, index: UniqueIndex)
    requires BothDiffs(base, x) && Classified(x, buildOurs, b) && b.conflicts == map[] && InRange(x, b)
    requires UniqueHolds(x.schema, x.invalid, x.oursSnapshot) && UniqueHolds(x.schema, x.invalid, x.theirsSnapshot)
    requires p in ApplyAll(base, MergeScript(x, b)) && q in ApplyAll(base, MergeScript(x, b)) && p != q
    ensures !SameKey(x.schema, x.invalid, p, ApplyAll(base, MergeScript(x, b))[p], q, ApplyAll(base, MergeScript(x, b))[q], index)
  {
    hide MergeScript, Classified, ApplyAll, DistinctRows, InRange, KeyOf, Effect;
    var merged := ApplyAll(base, MergeScript(x, b));
    if p.table == q.table && p.table !in x.invalid {
      ConflictFreeRow(base, x, buildOurs, b, p);
      ConflictFreeRow(base, x, buildOurs, b, q);
      WhoseRow(base, x, merged, p);
      WhoseRow(base, x, merged, q);
      if SameKey(x.schema, x.invalid, p, merged[p], q, merged[q], index) {
        if !Touches(x.theirs, p) && Touches(x.ours, p) && !Touches(x.ours, q) && Touches(x.theirs, q) {
          NoCrossClash(base, x, buildOurs, b, p, q, index);
        } else if !Touches(x.theirs, q) && Touches(x.ours, q) && !Touches(x.ours, p) && Touches(x.theirs, p) {
          NoCrossClash(base, x, buildOurs, b, q, p, index);
        }
      }
    }
  }

  lemma WhoseRow(base: Snapshot, x: Branches, merged: Snapshot, id: RowId)
    requires BothDiffs(base, x)
    requires MergesRow(At(base, id), At(x.oursSnapshot, id), At(x.theirsSnapshot, id), At(merged, id))
    requires Touches(x.ours, id) && Touches(x.theirs, id) ==> At(x.oursSnapshot, id) == At(x.theirsSnapshot, id)
    ensures Touches(x.ours, id) ==> At(merged, id) == At(x.oursSnapshot, id)
    ensures Touches(x.theirs, id) ==> At(merged, id) == At(x.theirsSnapshot, id)
    ensures !Touches(x.ours, id) ==> At(merged, id) == At(x.theirsSnapshot, id)
    ensures !Touches(x.theirs, id) ==> At(merged, id) == At(x.oursSnapshot, id)
  {
    hide Touches, DistinctRows, Effect, At;
  }

  /** The merge theorem: a join that reports no conflict yields the three-way merge, and it keeps UNIQUE. */
  lemma ConflictFreeMerge(base: Snapshot, x: Branches, buildOurs: bool, b: DiffBuckets)
    requires BothDiffs(base, x) && Classified(x, buildOurs, b) && b.conflicts == map[]
    requires UniqueHolds(x.schema, x.invalid, x.oursSnapshot) && UniqueHolds(x.schema, x.invalid, x.theirsSnapshot)
    ensures InRange(x, b)
    ensures var merged := ApplyAll(base, MergeScript(x, b));
      && (forall id: RowId :: id.table !in x.invalid ==>
          MergesRow(At(base, id), At(x.oursSnapshot, id), At(x.theirsSnapshot, id), At(merged, id)))
      && (forall id: RowId :: id.table in x.invalid ==> At(merged, id) == At(base, id))
      && UniqueHolds(x.schema, x.invalid, merged)
  {
    hide MergeScript, Classified, ApplyAll, BothDiffs, InRange, SameKey, At;
    ClassifiedInRange(x, buildOurs, b);
    var merged := ApplyAll(base, MergeScript(x, b));
    forall id { ConflictFreeRow(base, x, buildOurs, b, id); }
    forall p, q, index | p in merged && q in merged && p != q ensures !SameKey(x.schema, x.invalid, p, merged[p], q, merged[q], index) {
      ConflictFreeUnique(base, x, buildOurs, b, p, q, index);
    }
  }

  // ----- which diff is hashed -----

  ghost predicate NoUniqueIndexes(schema: Schema) {
    forall t :: t in schema ==> schema[t] == []
  }

  lemma NoIndexesNoClash(x: Branches, buildOurs: bool, k: nat)
    requires NoUniqueIndexes(x.schema) && k < |x.Lookup(buildOurs)|
    ensures !x.KeyClash(buildOurs, k)
  {
    hide TakenKeys;
    if i, key :| x.KeyClashAt(buildOurs, k, i, key) {
      TakenKeysByIndex(IndexesOf(x.schema, x.Lookup(buildOurs)[k].id.table), x.LookupSnapshot(buildOurs), x.Lookup(buildOurs)[k], key);
    }
  }

  ghost function Elements(s: seq<nat>): set<nat> { set i | i in s }

  /** The statements of one side that stand in a row conflict. */
  ghost predicate InRowConflict(b: DiffBuckets, ours: bool, k: nat) {
    exists other: nat :: Listed(b.conflicts, if ours then (k, other) else (other, k), PrimaryKeyConflict)
  }

  lemma OnlyRowConflicts(x: Branches, buildOurs: bool, b: DiffBuckets, i: nat, j: nat)
    requires NoUniqueIndexes(x.schema) && Classified(x, buildOurs, b)
    ensures (i, j) in b.conflicts <==> Listed(b.conflicts, (i, j), PrimaryKeyConflict)
  {
    hide TakenKeys, MatchedExactly, ExtraExactly, RowConflictsExactly, UniqueConflictsFound, NoDuplicates;
    if (i, j) in b.conflicts && b.conflicts[(i, j)][0].UniqueIndexConflict? {
      var index := b.conflicts[(i, j)][0].index;
      assert Listed(b.conflicts, (i, j), UniqueIndexConflict(index));
      var key :| BothTake(x, i, j, index, key);
      TakenKeysByIndex(IndexesOf(x.schema, x.ours[i].id.table), x.oursSnapshot, x.ours[i], key);
    }
  }

  lemma SameConflicts(x: Branches, buildOurs: bool, b: DiffBuckets, other: bool, c: DiffBuckets)
    requires NoUniqueIndexes(x.schema) && Classified(x, buildOurs, b) && Classified(x, other, c)
    ensures b.conflicts.Keys <= c.conflicts.Keys
  {
    hide MatchedExactly, ExtraExactly, UniqueConflictsFound, UniqueConflictsReal, NoDuplicates, Listed;
    forall p | p in b.conflicts ensures p in c.conflicts {
      OnlyRowConflicts(x, buildOurs, b, p.0, p.1);
      OnlyRowConflicts(x, other, c, p.0, p.1);
      assert p == (p.0, p.1);
    }
  }

  /** Without unique indexes the buckets are the same sets whichever diff is hashed. */
  lemma BuildSideIndependent(x: Branches, b: DiffBuckets, c: DiffBuckets)
    requires NoUniqueIndexes(x.schema)
    requires Classified(x, true, b) && Classified(x, false, c)
    ensures Elements(b.matchedOurs) == Elements(c.matchedOurs)
    ensures Elements(b.extraOurs) == Elements(c.extraOurs) && Elements(b.extraTheirs) == Elements(c.extraTheirs)
    ensures Elements(b.invalidOurs) == Elements(c.invalidOurs) && Elements(b.invalidTheirs) == Elements(c.invalidTheirs)
    ensures b.conflicts.Keys == c.conflicts.Keys
  {
    hide Branches.KeyClash, NoDuplicates, UniqueConflictsFound, UniqueConflictsReal, RowConflictsExactly;
    SameConflicts(x, true, b, false, c);
    SameConflicts(x, false, c, true, b);
    forall k: nat | k < |x.theirs| { NoIndexesNoClash(x, true, k); }
    forall k: nat | k < |x.ours| { NoIndexesNoClash(x, false, k); }
  }

  /** A row only one side touches that takes a unique key the other side takes. */
  ghost predicate LoneClash(x: Branches, buildOurs: bool, k: nat)
    requires k < |x.Lookup(buildOurs)|
  {
    x.Merges(x.Lookup(buildOurs)[k]) && !Touches(x.Build(buildOurs), x.Lookup(buildOurs)[k].id) && x.KeyClash(buildOurs, k)
  }

  /** With unique indexes the extra buckets agree exactly when no lone row clashes: the hashed side keeps
      such a statement as extra, the probing side does not. */
  lemma BuildSideMattersForClashes(x: Branches, b: DiffBuckets, c: DiffBuckets)
    requires Classified(x, true, b) && Classified(x, false, c)
    ensures (Elements(b.extraOurs) == Elements(c.extraOurs) && Elements(b.extraTheirs) == Elements(c.extraTheirs)) <==>
      ((forall i: nat :: i < |x.ours| ==> !LoneClash(x, false, i)) && (forall j: nat :: j < |x.theirs| ==> !LoneClash(x, true, j)))
  {
    hide Branches.KeyClash, NoDuplicates, UniqueConflictsFound, UniqueConflictsReal, RowConflictsExactly, MatchedExactly, Touches;
    forall i: nat ensures i in b.extraOurs && i !in c.extraOurs <==> i < |x.ours| && LoneClash(x, false, i) {}
    forall j: nat ensures j in c.extraTheirs && j !in b.extraTheirs <==> j < |x.theirs| && LoneClash(x, true, j) {}
    assert forall i: nat :: i in Elements(b.extraOurs) <==> i in b.extraOurs;
    assert forall i: nat :: i in Elements(c.extraOurs) <==> i in c.extraOurs;
    assert forall i: nat :: i in Elements(b.extraTheirs) <==> i in b.extraTheirs;
    assert forall i: nat :: i in Elements(c.extraTheirs) <==> i in c.extraTheirs;
  }

  const BY_CODE := UniqueIndex("by_code", ["code"])

  /** Both branches insert a row of their own, with one code. */
  function TwoInserts(): Branches {
    var first, second := RowId("items", [Val(1)]), RowId("items", [Val(2)]);
    var row: Row := map["code" := Val(5)];
    Branches(map["items" := [BY_CODE]], {}, [Insert(first, row)], [Insert(second, row)], map[first := row], map[second := row])
  }

  /** Two such diffs of an empty base: hashing ours reports the pair and keeps ours as extra, hashing theirs reports
      the same pair and keeps theirs. */
  lemma TwoInsertsClash(b: DiffBuckets, c: DiffBuckets)
    requires Classified(TwoInserts(), true, b) && Classified(TwoInserts(), false, c)
    ensures var x := TwoInserts();
      && BothDiffs(map[], x) && UniqueHolds(x.schema, x.invalid, x.oursSnapshot) && UniqueHolds(x.schema, x.invalid, x.theirsSnapshot)
      && LoneClash(x, true, 0) && LoneClash(x, false, 0)
    ensures 0 in b.extraOurs && 0 !in c.extraOurs && 0 !in b.extraTheirs && 0 in c.extraTheirs
  {
    hide NoDuplicates, UniqueConflictsFound, UniqueConflictsReal, RowConflictsExactly, MatchedExactly, KeyOf, TakenKeys, Branches.KeyClash;
    var x := TwoInserts();
    var row: Row := map["code" := Val(5)];
    CodeKey(row);
    var key := KeyOf("items", BY_CODE, row).value;
    TakenKeysByIndex([BY_CODE], x.oursSnapshot, x.ours[0], key);
    TakenKeysByIndex([BY_CODE], x.theirsSnapshot, x.theirs[0], key);
    InsertIsDiff(x.ours[0].id, row);
    InsertIsDiff(x.theirs[0].id, row);
    assert x.KeyClashAt(true, 0, 0, key) && x.KeyClashAt(false, 0, 0, key);
    BothClash(x, key);
  }

  lemma BothClash(x: Branches, key: UniqueKey)
    requires |x.ours| == |x.theirs| == 1 && x.KeyClashAt(true, 0, 0, key) && x.KeyClashAt(false, 0, 0, key)
    ensures x.KeyClash(true, 0) && x.KeyClash(false, 0)
  {
  }

  lemma CodeKey(row: Row)
    requires row == map["code" := Val(5)]
    ensures KeyOf("items", BY_CODE, row).Some? && KeyOf("items", BY_CODE, row).value.index == BY_CODE
  {
    assert ValuesOf(row, BY_CODE.columns) == [Val(5)];
  }

  lemma InsertIsDiff(id: RowId, row: Row)
    ensures ValidDiff(map[], map[id := row], [Insert(id, row)])
  {
    var diff := [Insert(id, row)];
    assert diff[0].id == id && Touches(diff, id);
  }

  // ----- the conflict pairs -----

  /** In a snapshot that keeps its unique indexes one statement at most takes a key. */
  lemma OneTaker(x: Branches, snapshot: Snapshot, stmts: seq<DiffStatement>, i: nat, m: nat, key: UniqueKey)
    requires UniqueHolds(x.schema, x.invalid, snapshot) && DistinctRows(stmts)
    requires i < |stmts| && m < |stmts| && x.Merges(stmts[i]) && x.Merges(stmts[m])
    requires Takes(x.schema, snapshot, stmts[i], key) && Takes(x.schema, snapshot, stmts[m], key)
    ensures i == m
  {
    hide KeyOf, TakenKeys;
    TakenKeysByIndex(IndexesOf(x.schema, stmts[i].id.table), snapshot, stmts[i], key);
    TakenKeysByIndex(IndexesOf(x.schema, stmts[m].id.table), snapshot, stmts[m], key);
    KeyNamesTable(stmts[i].id.table, key.index, snapshot[stmts[i].id]);
    KeyNamesTable(stmts[m].id.table, key.index, snapshot[stmts[m].id]);
    OneKey(stmts[i].id.table, key.index, snapshot[stmts[i].id], snapshot[stmts[m].id]);
    assert SameKey(x.schema, x.invalid, stmts[i].id, snapshot[stmts[i].id], stmts[m].id, snapshot[stmts[m].id], key.index);
  }

  lemma KeyNamesTable(table: Table, index: UniqueIndex, row: Row)
    ensures KeyOf(table, index, row).Some? ==> KeyOf(table, index, row).value.table == table && KeyOf(table, index, row).value.index == index
  {
  }

  /** The same statement in both diffs leaves the same row, and takes the same keys. */
  lemma MatchedTakesSame(base: Snapshot, x: Branches, i: nat, j: nat, key: UniqueKey)
    requires BothDiffs(base, x) && i < |x.ours| && j < |x.theirs| && x.ours[i] == x.theirs[j]
    ensures Takes(x.schema, x.oursSnapshot, x.ours[i], key) <==> Takes(x.schema, x.theirsSnapshot, x.theirs[j], key)
  {
    hide KeyOf, TakenKeys, Effect, DistinctRows;
    var indexes := IndexesOf(x.schema, x.ours[i].id.table);
    TakenKeysByIndex(indexes, x.oursSnapshot, x.ours[i], key);
    TakenKeysByIndex(indexes, x.theirsSnapshot, x.theirs[j], key);
    assert At(x.oursSnapshot, x.ours[i].id) == At(x.theirsSnapshot, x.ours[i].id);
  }

  /** So where two statements take one key, one of them is matched only by the other. */
  lemma MatchedTogether(base: Snapshot, x: Branches, i: nat, j: nat, index: UniqueIndex, key: UniqueKey)
    requires BothDiffs(base, x) && UniqueHolds(x.schema, x.invalid, x.oursSnapshot) && UniqueHolds(x.schema, x.invalid, x.theirsSnapshot)
    requires i < |x.ours| && j < |x.theirs| && x.Merges(x.ours[i]) && x.Merges(x.theirs[j]) && BothTake(x, i, j, index, key)
    ensures x.theirs[j] in x.ours <==> x.ours[i] == x.theirs[j]
    ensures x.ours[i] in x.theirs <==> x.ours[i] == x.theirs[j]
  {
    hide Takes, UniqueHolds, ValidDiff;
    DiffsDistinct(base, x);
    if x.theirs[j] in x.ours {
      var m: nat :| m < |x.ours| && x.ours[m] == x.theirs[j];
      MatchedTakesSame(base, x, m, j, key);
      OneTaker(x, x.oursSnapshot, x.ours, i, m, key);
    }
    if x.ours[i] in x.theirs {
      var m: nat :| m < |x.theirs| && x.theirs[m] == x.ours[i];
      MatchedTakesSame(base, x, i, m, key);
      OneTaker(x, x.theirsSnapshot, x.theirs, j, m, key);
    }
  }

  lemma DiffsDistinct(base: Snapshot, x: Branches)
    requires BothDiffs(base, x)
    ensures DistinctRows(x.ours) && DistinctRows(x.theirs)
  {
  }

  /** Two different statements of one table that give their rows values of the index which UNIQUE keeps apart. */
  ghost predicate ClashingPair(x: Branches, i: nat, j: nat, index: UniqueIndex) {
    && i < |x.ours| && j < |x.theirs| && x.Merges(x.ours[i]) && x.Merges(x.theirs[j]) && x.ours[i] != x.theirs[j]
    && ShareValues(x, x.ours[i], x.theirs[j], index)
  }

  ghost predicate ShareValues(x: Branches, o: DiffStatement, t: DiffStatement, index: UniqueIndex) {
    && o.id.table == t.id.table && index in IndexesOf(x.schema, o.id.table)
    && o.id in x.oursSnapshot && t.id in x.theirsSnapshot && Gives(o, index) && Gives(t, index)
    && Meet(x.oursSnapshot[o.id], x.theirsSnapshot[t.id], ColumnsIn(index))
  }

  /** Taking one key is giving the same values, none of them NULL. */
  lemma BothTakeMeaning(x: Branches, i: nat, j: nat, index: UniqueIndex)
    requires i < |x.ours| && j < |x.theirs|
    ensures (exists key :: BothTake(x, i, j, index, key)) <==> ShareValues(x, x.ours[i], x.theirs[j], index)
  {
    hide KeyOf, TakenKeys, Meet, NoNull, ColumnsIn, Gives, Concerns;
    var o, t := x.ours[i], x.theirs[j];
    GivesIs(o, index);
    GivesIs(t, index);
    forall key | BothTake(x, i, j, index, key) ensures ShareValues(x, o, t, index) {
      TakenKeysByIndex(IndexesOf(x.schema, o.id.table), x.oursSnapshot, o, key);
      TakenKeysByIndex(IndexesOf(x.schema, t.id.table), x.theirsSnapshot, t, key);
      KeyNamesTable(o.id.table, index, x.oursSnapshot[o.id]);
      KeyNamesTable(t.id.table, index, x.theirsSnapshot[t.id]);
      OneKey(o.id.table, index, x.oursSnapshot[o.id], x.theirsSnapshot[t.id]);
    }
    if ShareValues(x, o, t, index) {
      OneKey(o.id.table, index, x.oursSnapshot[o.id], x.theirsSnapshot[t.id]);
      var key := KeyOf(o.id.table, index, x.oursSnapshot[o.id]).value;
      KeyNamesTable(o.id.table, index, x.oursSnapshot[o.id]);
      TakenKeysByIndex(IndexesOf(x.schema, o.id.table), x.oursSnapshot, o, key);
      TakenKeysByIndex(IndexesOf(x.schema, t.id.table), x.theirsSnapshot, t, key);
      assert BothTake(x, i, j, index, key);
    }
  }

  /** A statement whose row has a NULL in every unique index is in no unique conflict, whichever diff is hashed. */
  lemma NullNeverClashes(x: Branches, buildOurs: bool, b: DiffBuckets, i: nat, j: nat, index: UniqueIndex)
    requires Classified(x, buildOurs, b) && Listed(b.conflicts, (i, j), UniqueIndexConflict(index))
    ensures i < |x.ours| && x.ours[i].id in x.oursSnapshot && NoNull(x.oursSnapshot[x.ours[i].id], ColumnsIn(index))
    ensures j < |x.theirs| && x.theirs[j].id in x.theirsSnapshot && NoNull(x.theirsSnapshot[x.theirs[j].id], ColumnsIn(index))
    ensures index in IndexesOf(x.schema, x.ours[i].id.table)
  {
    hide NoDuplicates, MatchedExactly, ExtraExactly, RowConflictsExactly, UniqueConflictsFound, Listed, ColumnsIn;
    BothTakeMeaning(x, i, j, index);
  }

  /** For diffs of snapshots that keep their unique indexes, the unique conflicts are exactly the clashing pairs. */
  lemma UniqueConflictsExactly(base: Snapshot, x: Branches, buildOurs: bool, b: DiffBuckets, i: nat, j: nat, index: UniqueIndex)
    requires BothDiffs(base, x) && Classified(x, buildOurs, b) && Paired(x, buildOurs, b)
    requires UniqueHolds(x.schema, x.invalid, x.oursSnapshot) && UniqueHolds(x.schema, x.invalid, x.theirsSnapshot)
    ensures Listed(b.conflicts, (i, j), UniqueIndexConflict(index)) <==> ClashingPair(x, i, j, index)
  {
    hide Takes, UniqueHolds, BothDiffs, NoDuplicates, MatchedExactly, ExtraExactly, RowConflictsExactly, UniqueConflictsFound, Listed, UniquePairsFound, ShareValues;
    if i < |x.ours| && j < |x.theirs| { BothTakeMeaning(x, i, j, index); }
    if Listed(b.conflicts, (i, j), UniqueIndexConflict(index)) {
      var key :| BothTake(x, i, j, index, key);
      MatchedTogether(base, x, i, j, index, key);
    }
    if ClashingPair(x, i, j, index) {
      var key :| BothTake(x, i, j, index, key);
      MatchedTogether(base, x, i, j, index, key);
      PairIsListed(base, x, buildOurs, b, i, j, index, key);
    }
  }

  lemma PairIsListed(base: Snapshot, x: Branches, buildOurs: bool, b: DiffBuckets, i: nat, j: nat, index: UniqueIndex, key: UniqueKey)
    requires BothDiffs(base, x) && UniquePairsFound(x, buildOurs, b)
    requires UniqueHolds(x.schema, x.invalid, x.oursSnapshot) && UniqueHolds(x.schema, x.invalid, x.theirsSnapshot)
    requires i < |x.ours| && j < |x.theirs| && x.Merges(x.ours[i]) && x.Merges(x.theirs[j]) && BothTake(x, i, j, index, key)
    requires x.theirs[j] !in x.ours && x.ours[i] !in x.theirs
    ensures Listed(b.conflicts, (i, j), UniqueIndexConflict(index))
  {
    hide Takes, UniqueHolds, ValidDiff, Listed;
    DiffsDistinct(base, x);
    var k, hashed := if buildOurs then j else i, if buildOurs then i else j;
    assert x.KeyClashAt(buildOurs, k, hashed, key);
    assert PairListed(x, buildOurs, b, k, key);
    var m: nat :| TakerListed(x, buildOurs, b, k, m, key);
    OneTaker(x, x.BuildSnapshot(buildOurs), x.Build(buildOurs), hashed, m, key);
  }

  /** So even with unique indexes the reported conflicts do not depend on which diff is hashed; only the extra
      buckets do. */
  lemma ConflictsIndependent(base: Snapshot, x: Branches, b: DiffBuckets, c: DiffBuckets, p: (nat, nat), d: Conflict)
    requires BothDiffs(base, x) && UniqueHolds(x.schema, x.invalid, x.oursSnapshot) && UniqueHolds(x.schema, x.invalid, x.theirsSnapshot)
    requires Classified(x, true, b) && Paired(x, true, b) && Classified(x, false, c) && Paired(x, false, c)
    ensures Listed(b.conflicts, p, d) <==> Listed(c.conflicts, p, d)
    ensures p in b.conflicts <==> p in c.conflicts
  {
    SameListed(base, x, b, c, p, d);
    if p in b.conflicts { SameListed(base, x, b, c, p, b.conflicts[p][0]); }
    if p in c.conflicts { SameListed(base, x, b, c, p, c.conflicts[p][0]); }
  }

  lemma SameListed(base: Snapshot, x: Branches, b: DiffBuckets, c: DiffBuckets, p: (nat, nat), d: Conflict)
    requires BothDiffs(base, x) && UniqueHolds(x.schema, x.invalid, x.oursSnapshot) && UniqueHolds(x.schema, x.invalid, x.theirsSnapshot)
    requires Classified(x, true, b) && Paired(x, true, b) && Classified(x, false, c) && Paired(x, false, c)
    ensures Listed(b.conflicts, p, d) <==> Listed(c.conflicts, p, d)
  {
    hide UniqueHolds, BothDiffs, Paired, NoDuplicates, MatchedExactly, ExtraExactly, UniqueConflictsFound, UniqueConflictsReal, Listed;
    assert p == (p.0, p.1);
    if d.UniqueIndexConflict? {
      UniqueConflictsExactly(base, x, true, b, p.0, p.1, d.index);
      UniqueConflictsExactly(base, x, false, c, p.0, p.1, d.index);
    }
  }

  /** Without unique indexes every statement of a table that merges is in exactly one bucket. */
  lemma OneBucketEach(x: Branches, buildOurs: bool, b: DiffBuckets, i: nat)
    requires NoUniqueIndexes(x.schema) && DistinctRows(x.ours) && DistinctRows(x.theirs)
    requires Classified(x, buildOurs, b)
    requires i < |x.ours| && x.Merges(x.ours[i])
    ensures i in b.matchedOurs || i in b.extraOurs || InRowConflict(b, true, i)
    ensures !(i in b.matchedOurs && i in b.extraOurs)
    ensures !(i in b.matchedOurs && InRowConflict(b, true, i)) && !(i in b.extraOurs && InRowConflict(b, true, i))
  {
    hide Branches.KeyClash, NoDuplicates, UniqueConflictsFound, Listed;
    forall k: nat | k < |x.ours| { NoIndexesNoClash(x, false, k); }
    if Touches(x.theirs, x.ours[i].id) {
      var j: nat :| j < |x.theirs| && x.theirs[j].id == x.ours[i].id;
      if x.ours[i] != x.theirs[j] { assert Listed(b.conflicts, (i, j), PrimaryKeyConflict); }
    }
    if x.ours[i] in x.theirs {
      var j: nat :| j < |x.theirs| && x.theirs[j] == x.ours[i];
      assert Touches(x.theirs, x.ours[i].id);
      assert forall k: nat :: k < |x.theirs| && x.theirs[k].id == x.ours[i].id ==> k == j;
    }
  }

  lemma OneBucketEachTheirs(x: Branches, buildOurs: bool, b: DiffBuckets, j: nat)
    requires NoUniqueIndexes(x.schema) && DistinctRows(x.ours) && DistinctRows(x.theirs)
    requires Classified(x, buildOurs, b)
    requires j < |x.theirs| && x.Merges(x.theirs[j])
    ensures (exists i: nat :: i in b.matchedOurs && x.ours[i] == x.theirs[j]) || j in b.extraTheirs || InRowConflict(b, false, j)
    ensures !((exists i: nat :: i in b.matchedOurs && x.ours[i] == x.theirs[j]) && j in b.extraTheirs)
    ensures !((exists i: nat :: i in b.matchedOurs && x.ours[i] == x.theirs[j]) && InRowConflict(b, false, j))
    ensures !(j in b.extraTheirs && InRowConflict(b, false, j))
  {
    hide Branches.KeyClash, NoDuplicates, UniqueConflictsFound, Listed;
    forall k: nat | k < |x.theirs| { NoIndexesNoClash(x, true, k); }
    if Touches(x.ours, x.theirs[j].id) {
      var i: nat :| i < |x.ours| && x.ours[i].id == x.theirs[j].id;
      if x.ours[i] != x.theirs[j] { assert Listed(b.conflicts, (i, j), PrimaryKeyConflict); }
      else { assert i in b.matchedOurs; }
    }
  }
}
