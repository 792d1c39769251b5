/** Which conflict kinds one transaction must be checked for against a whole indexed queue,
    and how that answer relates to the pairwise checks (src/merge/remaining_metadata.py). */
module RemainingChecks {
  import opened Columns
  import opened Models
  import opened CascadeMetadata
  import opened SqlMetadata
  import opened StaticAnalysis
  import opened RemainingMetadata

  // ----- reading the index -----

  /** A column set overlaps the counted columns of one table. */
  predicate ColumnCounterOverlap(m: ColumnCountMap, table: Table, columns: set<Column>) {
    && table in m && m[table] != map[] && columns != {}
    && (ALL_COLUMNS in m[table] || ALL_COLUMNS in columns || exists c :: c in columns && c in m[table])
  }

  predicate WriteWritePossible(current: LoggedTransaction, index: RemainingMetadataIndex)
    reads index
  {
    exists s :: s in current.metadata.statements && StatementWriteWritePossible(s, index)
  }

  predicate StatementWriteWritePossible(m: StatementMetadata, index: RemainingMetadataIndex)
    reads index
  {
    || (m.kind.UpdateKind? && m.tableUpdated.Some?
        && ColumnCounterOverlap(index.writeWriteCounts, m.tableUpdated.value, m.columnsUpdated))
    || (m.kind.DeleteKind? && m.tableUpdated.Some?
        && ColumnCounterOverlap(index.updateCounts, m.tableUpdated.value, {ALL_COLUMNS}))
    || (exists e :: e in m.events &&
          if e.kind.UpdateEvent? then ColumnCounterOverlap(index.writeWriteCounts, e.table, e.columns)
          else ColumnCounterOverlap(index.updateCounts, e.table, {ALL_COLUMNS}))
  }

  predicate WriteReadPossible(current: LoggedTransaction, index: RemainingMetadataIndex)
    reads index
  {
    exists t :: t in current.metadata.updated &&
      ColumnCounterOverlap(index.referencedCounts, t, current.metadata.updated[t])
  }

  predicate ImplicitInsertKeyPossible(schema: SchemaCache, current: LoggedTransaction, index: RemainingMetadataIndex)
    reads index
  {
    exists s :: s in current.metadata.statements && StatementImplicitKeyPossible(schema, s, index)
  }

  predicate StatementImplicitKeyPossible(schema: SchemaCache, m: StatementMetadata, index: RemainingMetadataIndex)
    reads index
  {
    && m.tableUpdated.Some?
    && var table := m.tableUpdated.value;
       if m.kind.UpdateKind? then ColumnCounterOverlap(index.omittedKeyCounts, table, m.columnsUpdated)
       else
         && m.kind.InsertKind?
         && (table in index.omittedKeyCounts || table in index.updateCounts)
         && var key := OmittedIntegerPrimaryKey(schema, m);
            && key.Some?
            && (|| ColumnCounterOverlap(index.omittedKeyCounts, table, {key.value})
                || ColumnCounterOverlap(index.updateCounts, table, {key.value}))
  }

  predicate KeyConflictPossibleWithIndex(schema: SchemaCache, current: LoggedTransaction, index: RemainingMetadataIndex)
    reads index
  {
    exists t :: t in current.metadata.updated && t in schema.keyColumnSets &&
      exists key :: key in schema.keyColumnSets[t]
        && TransactionMayCreateKey(current.metadata, t, key)
        && ColumnCounterOverlap(index.createKeyCounts, t, key)
  }

  predicate ForeignKeyConflictPossibleWithIndex(schema: SchemaCache, current: LoggedTransaction, index: RemainingMetadataIndex)
    reads index
  {
    exists t :: t in current.metadata.updated &&
      (|| (exists edge :: edge in EdgesByParent(schema.edges, t)
             && TransactionMayRemoveKey(current.metadata, edge.parentTable, edge.parentColumns)
             && ColumnCounterOverlap(index.createKeyCounts, edge.childTable, edge.childColumns))
       || (exists edge :: edge in EdgesByChild(schema.edges, t)
             && TransactionMayCreateKey(current.metadata, edge.childTable, edge.childColumns)
             && ColumnCounterOverlap(index.removeKeyCounts, edge.parentTable, edge.parentColumns)))
  }

  /** The check kinds one transaction needs against everything the index holds. */
  function RemainingIndividualCheckKinds(schema: SchemaCache, current: LoggedTransaction, index: RemainingMetadataIndex)
    : set<ConflictKind>
    reads index
  {
    if index.transactionCount == 0 then {}
    else
      (if WriteWritePossible(current, index) then {WriteWrite} else {})
      + (if WriteReadPossible(current, index) then {WriteRead} else {})
      + (if ImplicitInsertKeyPossible(schema, current, index) then {ImplicitInsertKey} else {})
      + (if KeyConflictPossibleWithIndex(schema, current, index) || ForeignKeyConflictPossibleWithIndex(schema, current, index)
         then {Integrity} else {})
  }

  // ----- what a counter lookup means -----

  /** A statement contributes to counter `k` at `t` a column that meets `columns`. */
  ghost predicate Contributes(schema: SchemaCache, k: Counter, m: StatementMetadata, t: Table, columns: set<Column>) {
    exists c :: Contribution(schema, k, m, t, c) > 0 && Meets(c, columns)
  }

  lemma {:induction false} StatementsPositive(schema: SchemaCache, k: Counter, statements: seq<LoggedStatement>, t: Table, c: Column)
    ensures StatementsContribution(schema, k, statements, t, c) > 0 <==>
      exists s :: s in statements && Contribution(schema, k, s.metadata, t, c) > 0
  {
    if statements != [] {
      var rest, last := statements[..|statements| - 1], statements[|statements| - 1];
      StatementsPositive(schema, k, rest, t, c);
      assert forall s :: s in statements <==> s in rest || s == last;
    }
  }

  ghost predicate TransactionCounts(schema: SchemaCache, k: Counter, tx: LoggedTransaction, t: Table, c: Column) {
    StatementsContribution(schema, k, tx.statements, t, c) > 0
  }

  lemma {:induction false} QueuePositive(schema: SchemaCache, k: Counter, queue: seq<LoggedTransaction>, t: Table, c: Column)
    ensures QueueContribution(schema, k, queue, t, c) > 0 <==> exists tx :: tx in queue && TransactionCounts(schema, k, tx, t, c)
  {
    if queue != [] {
      var rest, last := queue[..|queue| - 1], queue[|queue| - 1];
      QueuePositive(schema, k, rest, t, c);
      assert TransactionCounts(schema, k, last, t, c) <==> StatementsContribution(schema, k, last.statements, t, c) > 0;
      assert forall tx :: tx in queue <==> tx in rest || tx == last;
    }
  }

  ghost predicate QueueContributes(schema: SchemaCache, k: Counter, queue: seq<LoggedTransaction>, t: Table, columns: set<Column>) {
    exists tx, m :: tx in queue && m in tx.metadata.statements && Contributes(schema, k, m, t, columns)
  }

  lemma CountedColumn(schema: SchemaCache, k: Counter, queue: seq<LoggedTransaction>, t: Table, c: Column, columns: set<Column>)
    requires ValidQueue(queue) && QueueContribution(schema, k, queue, t, c) > 0 && Meets(c, columns)
    ensures QueueContributes(schema, k, queue, t, columns)
  {
    QueuePositive(schema, k, queue, t, c);
    var tx :| tx in queue && TransactionCounts(schema, k, tx, t, c);
    StatementsPositive(schema, k, tx.statements, t, c);
    var s :| s in tx.statements && Contribution(schema, k, s.metadata, t, c) > 0;
    MetadataMember(tx, s.metadata);
    assert Contributes(schema, k, s.metadata, t, columns);
  }

  lemma ContributedColumn(schema: SchemaCache, k: Counter, queue: seq<LoggedTransaction>, t: Table, columns: set<Column>) returns (c: Column)
    requires ValidQueue(queue) && QueueContributes(schema, k, queue, t, columns)
    ensures QueueContribution(schema, k, queue, t, c) > 0 && Meets(c, columns)
  {
    hide Contribution, QueueContribution, StatementsContribution;
    var tx, m :| tx in queue && m in tx.metadata.statements && Contributes(schema, k, m, t, columns);
    c :| Contribution(schema, k, m, t, c) > 0 && Meets(c, columns);
    MetadataMember(tx, m);
    StatementsPositive(schema, k, tx.statements, t, c);
    assert TransactionCounts(schema, k, tx, t, c);
    QueuePositive(schema, k, queue, t, c);
  }

  /** One counter lookup answers for every statement of every queued transaction. */
  lemma LookupMeaning(schema: SchemaCache, k: Counter, queue: seq<LoggedTransaction>, counts: ColumnCountMap, t: Table, columns: set<Column>)
    requires ValidQueue(queue) && CountsQueue(schema, k, queue, counts)
    ensures ColumnCounterOverlap(counts, t, columns) <==> QueueContributes(schema, k, queue, t, columns)
  {
    hide QueueContributes, QueueContribution;
    if ColumnCounterOverlap(counts, t, columns) {
      var c :| c in counts[t] && Meets(c, columns);
      assert CountIn(counts, t, c) > 0;
      CountedColumn(schema, k, queue, t, c, columns);
    }
    if QueueContributes(schema, k, queue, t, columns) {
      var c := ContributedColumn(schema, k, queue, t, columns);
      assert CountIn(counts, t, c) > 0;
    }
  }

  ghost predicate EventCounts(k: Counter, e: CascadeWriteEvent) {
    k.WriteWriteColumns? || k.RemoveOrChangeKey? || (e.kind.UpdateEvent? && (k.CreateOrChangeKey? || k.UpdateWrite?))
  }

  lemma {:induction false} EventsPositive(k: Counter, events: seq<CascadeWriteEvent>, t: Table, c: Column)
    ensures EventsContribution(k, events, t, c) > 0 <==>
      exists e :: e in events && EventCounts(k, e) && e.table == t && c in e.columns
  {
    if events != [] {
      var rest, last := events[..|events| - 1], events[|events| - 1];
      EventsPositive(k, rest, t, c);
      assert forall e :: e in events <==> e in rest || e == last;
    }
  }

  ghost predicate EventMeets(k: Counter, m: StatementMetadata, t: Table, columns: set<Column>) {
    exists e :: e in m.events && EventCounts(k, e) && e.table == t && Overlaps(e.columns, columns)
  }

  /** Contributing to a write counter: by the explicit write, or by a hidden one. */
  lemma WriteContributes(schema: SchemaCache, k: Counter, m: StatementMetadata, t: Table, columns: set<Column>)
    requires !k.Referenced? && !k.OmittedKey?
    ensures Contributes(schema, k, m, t, columns) <==>
      (CountsWrites(k, m.kind) && m.Writes(t) && Overlaps(m.columnsUpdated, columns)) || EventMeets(k, m, t, columns)
  {
    forall c { EventsPositive(k, m.events, t, c); }
    if EventMeets(k, m, t, columns) {
      var e :| e in m.events && EventCounts(k, e) && e.table == t && Overlaps(e.columns, columns);
      var c :| c in e.columns && Meets(c, columns);
      assert Contribution(schema, k, m, t, c) > 0;
    }
    if CountsWrites(k, m.kind) && m.Writes(t) && Overlaps(m.columnsUpdated, columns) {
      var c :| c in m.columnsUpdated && Meets(c, columns);
      assert Contribution(schema, k, m, t, c) > 0;
    }
  }

  lemma OtherContributes(schema: SchemaCache, m: StatementMetadata, t: Table, columns: set<Column>)
    ensures Contributes(schema, Referenced, m, t, columns) <==> Overlaps(ColumnsOf(m.referenced, t), columns)
    ensures Contributes(schema, OmittedKey, m, t, columns) <==>
      m.Writes(t) && OmittedIntegerPrimaryKey(schema, m).Some? && Meets(OmittedIntegerPrimaryKey(schema, m).value, columns)
  {
    forall c { NoReadEvents(Referenced, m.events, t, c); }
    forall c { NoReadEvents(OmittedKey, m.events, t, c); }
    if Overlaps(ColumnsOf(m.referenced, t), columns) {
      var c :| c in ColumnsOf(m.referenced, t) && Meets(c, columns);
      assert Contribution(schema, Referenced, m, t, c) > 0;
    }
    if m.Writes(t) && OmittedIntegerPrimaryKey(schema, m).Some? {
      assert Contribution(schema, OmittedKey, m, t, OmittedIntegerPrimaryKey(schema, m).value) > 0;
    }
  }
}
