/** The metadata index against its specification, the pairwise checks: exact for write/read and
    integrity, exact up to hidden foreign-key writes for write/write and implicit keys. */
module IndexRefinement {
  import opened Columns
  import opened Models
  import opened CascadeMetadata
  import opened SqlMetadata
  import opened StaticAnalysis
  import opened RemainingMetadata
  import opened RemainingChecks

  // ----- write/read -----

  lemma PairWriteRead(current: LoggedTransaction, tx: LoggedTransaction)
    ensures TransactionWriteReadOverlap(current.metadata, tx.metadata) <==>
      exists t :: t in current.metadata.updated && Overlaps(ColumnsOf(tx.metadata.referenced, t), current.metadata.updated[t])
  {
    MapsOverlapAt(current.metadata.updated, tx.metadata.referenced);
    forall t { OverlapsSymmetric(ColumnsOf(current.metadata.updated, t), ColumnsOf(tx.metadata.referenced, t)); }
  }

  lemma ReadsOfTransaction(tx: LoggedTransaction, t: Table, columns: set<Column>)
    requires ValidTransaction(tx)
    ensures Overlaps(ColumnsOf(tx.metadata.referenced, t), columns) <==>
      exists m :: m in tx.metadata.statements && Overlaps(ColumnsOf(m.referenced, t), columns)
  {
    var statements := Metadatas(tx.statements);
    StatementsOf(statements);
    if c :| c in ColumnsOf(tx.metadata.referenced, t) && Meets(c, columns) {
      ColumnOfTransaction(statements, t, c);
    }
    if m :| m in statements && Overlaps(ColumnsOf(m.referenced, t), columns) {
      var c :| c in ColumnsOf(m.referenced, t) && Meets(c, columns);
      ColumnOfTransaction(statements, t, c);
    }
  }

  ghost predicate SomeWriteRead(current: LoggedTransaction, queue: seq<LoggedTransaction>) {
    exists tx :: tx in queue && TransactionWriteReadOverlap(current.metadata, tx.metadata)
  }

  /** The index flags write/read exactly when some queued transaction is flagged pairwise. */
  lemma WriteReadExact(schema: SchemaCache, current: LoggedTransaction, index: RemainingMetadataIndex, queue: seq<LoggedTransaction>)
    requires ValidQueue(queue) && index.Agrees(schema, queue)
    ensures WriteReadPossible(current, index) <==> SomeWriteRead(current, queue)
  {
    hide Contributes;
    assert CountsQueue(schema, Referenced, queue, index.Counts(Referenced));
    if WriteReadPossible(current, index) {
      var t :| t in current.metadata.updated && ColumnCounterOverlap(index.referencedCounts, t, current.metadata.updated[t]);
      var columns := current.metadata.updated[t];
      LookupMeaning(schema, Referenced, queue, index.referencedCounts, t, columns);
      var tx, m :| tx in queue && m in tx.metadata.statements && Contributes(schema, Referenced, m, t, columns);
      OtherContributes(schema, m, t, columns);
      ReadsOfTransaction(tx, t, columns);
      PairWriteRead(current, tx);
    }
    if tx :| tx in queue && TransactionWriteReadOverlap(current.metadata, tx.metadata) {
      PairWriteRead(current, tx);
      var t :| t in current.metadata.updated && Overlaps(ColumnsOf(tx.metadata.referenced, t), current.metadata.updated[t]);
      var columns := current.metadata.updated[t];
      ReadsOfTransaction(tx, t, columns);
      var m :| m in tx.metadata.statements && Overlaps(ColumnsOf(m.referenced, t), columns);
      OtherContributes(schema, m, t, columns);
      assert QueueContributes(schema, Referenced, queue, t, columns);
      LookupMeaning(schema, Referenced, queue, index.referencedCounts, t, columns);
    }
  }

  // ----- integrity -----

  /** With a non-empty key, a statement counts as creating (removing) keys exactly when the
      pairwise predicates say so, explicitly or through a foreign key. */
  lemma KeyCountsMeaning(schema: SchemaCache, m: StatementMetadata, t: Table, key: set<Column>)
    requires m.Valid() && key != {}
    ensures Contributes(schema, CreateOrChangeKey, m, t, key) <==>
      StatementMayCreateKey(m, t, key) || MayCreateKey(m.events, t, key)
    ensures Contributes(schema, RemoveOrChangeKey, m, t, key) <==>
      StatementMayRemoveKey(m, t, key) || MayRemoveKey(m.events, t, key)
  {
    WriteContributes(schema, CreateOrChangeKey, m, t, key);
    WriteContributes(schema, RemoveOrChangeKey, m, t, key);
    assert Meets(ALL_COLUMNS, key);
    assert ALL_COLUMNS in {ALL_COLUMNS};
    assert Overlaps({ALL_COLUMNS}, key);
    assert MayCreateKey(m.events, t, key) <==> EventMeets(CreateOrChangeKey, m, t, key);
    assert MayRemoveKey(m.events, t, key) <==> EventMeets(RemoveOrChangeKey, m, t, key);
  }

  lemma TransactionKeyMeaning(schema: SchemaCache, tx: LoggedTransaction, t: Table, key: set<Column>)
    requires ValidTransaction(tx) && key != {}
    ensures TransactionMayCreateKey(tx.metadata, t, key) <==>
      exists m :: m in tx.metadata.statements && Contributes(schema, CreateOrChangeKey, m, t, key)
    ensures TransactionMayRemoveKey(tx.metadata, t, key) <==>
      exists m :: m in tx.metadata.statements && Contributes(schema, RemoveOrChangeKey, m, t, key)
  {
    hide Contributes, StatementMayCreateKey, StatementMayRemoveKey, EventMayCreateOrChangeKey, EventMayRemoveOrChangeKey;
    var statements := Metadatas(tx.statements);
    StatementsOf(statements);
    forall m | m in statements
      ensures Contributes(schema, CreateOrChangeKey, m, t, key) <==>
        StatementMayCreateKey(m, t, key) || MayCreateKey(m.events, t, key)
      ensures Contributes(schema, RemoveOrChangeKey, m, t, key) <==>
        StatementMayRemoveKey(m, t, key) || MayRemoveKey(m.events, t, key)
    {
      MetadataMember(tx, m);
      KeyCountsMeaning(schema, m, t, key);
    }
    forall e { EventOfTransaction(statements, e); }
  }

  ghost predicate SomeMayCreateKey(queue: seq<LoggedTransaction>, t: Table, key: set<Column>) {
    exists tx :: tx in queue && TransactionMayCreateKey(tx.metadata, t, key)
  }

  ghost predicate SomeMayRemoveKey(queue: seq<LoggedTransaction>, t: Table, key: set<Column>) {
    exists tx :: tx in queue && TransactionMayRemoveKey(tx.metadata, t, key)
  }

  lemma KeyLookup(schema: SchemaCache, index: RemainingMetadataIndex, queue: seq<LoggedTransaction>, t: Table, key: set<Column>)
    requires ValidQueue(queue) && index.Agrees(schema, queue) && key != {}
    ensures ColumnCounterOverlap(index.createKeyCounts, t, key) <==> SomeMayCreateKey(queue, t, key)
    ensures ColumnCounterOverlap(index.removeKeyCounts, t, key) <==> SomeMayRemoveKey(queue, t, key)
  {
    hide Contributes, ColumnCounterOverlap, TransactionMayCreateKey, TransactionMayRemoveKey;
    assert CountsQueue(schema, CreateOrChangeKey, queue, index.Counts(CreateOrChangeKey));
    assert CountsQueue(schema, RemoveOrChangeKey, queue, index.Counts(RemoveOrChangeKey));
    LookupMeaning(schema, CreateOrChangeKey, queue, index.createKeyCounts, t, key);
    LookupMeaning(schema, RemoveOrChangeKey, queue, index.removeKeyCounts, t, key);
    forall tx | tx in queue
      ensures TransactionMayCreateKey(tx.metadata, t, key) <==>
        exists m :: m in tx.metadata.statements && Contributes(schema, CreateOrChangeKey, m, t, key)
      ensures TransactionMayRemoveKey(tx.metadata, t, key) <==>
        exists m :: m in tx.metadata.statements && Contributes(schema, RemoveOrChangeKey, m, t, key)
    {
      TransactionKeyMeaning(schema, tx, t, key);
    }
  }

  ghost predicate SomeConstraintConflict(schema: SchemaCache, current: LoggedTransaction, queue: seq<LoggedTransaction>) {
    exists tx :: tx in queue && ConstraintConflictPossible(schema, current.metadata, tx.metadata)
  }

  lemma KeyConflictExact(schema: SchemaCache, current: LoggedTransaction, index: RemainingMetadataIndex, queue: seq<LoggedTransaction>)
    requires schema.Valid() && ValidTransaction(current) && ValidQueue(queue) && index.Agrees(schema, queue)
    ensures KeyConflictPossibleWithIndex(schema, current, index) <==>
      exists tx :: tx in queue && KeyConflictPossible(schema, current.metadata, tx.metadata)
  {
    hide ColumnCounterOverlap, TransactionMayCreateKey, TransactionMayRemoveKey;
    if KeyConflictPossibleWithIndex(schema, current, index) {
      var t :| && t in current.metadata.updated && t in schema.keyColumnSets
               && (exists key :: key in schema.keyColumnSets[t]
                     && TransactionMayCreateKey(current.metadata, t, key) && ColumnCounterOverlap(index.createKeyCounts, t, key));
      var key :| key in schema.keyColumnSets[t]
        && TransactionMayCreateKey(current.metadata, t, key) && ColumnCounterOverlap(index.createKeyCounts, t, key);
      KeyLookup(schema, index, queue, t, key);
      var tx :| tx in queue && TransactionMayCreateKey(tx.metadata, t, key);
      assert KeyConflictPossible(schema, current.metadata, tx.metadata);
    }
    if tx :| tx in queue && KeyConflictPossible(schema, current.metadata, tx.metadata) {
      var t, key :| t in schema.keyColumnSets && key in schema.keyColumnSets[t]
        && TransactionMayCreateKey(current.metadata, t, key) && TransactionMayCreateKey(tx.metadata, t, key);
      KeyLookup(schema, index, queue, t, key);
      KeyTableUpdated(current, t, key);
    }
  }

  lemma ForeignKeyConflictExact(schema: SchemaCache, current: LoggedTransaction, index: RemainingMetadataIndex, queue: seq<LoggedTransaction>)
    requires schema.Valid() && ValidQueue(queue) && index.Agrees(schema, queue)
    ensures ForeignKeyConflictPossibleWithIndex(schema, current, index) <==>
      exists tx :: tx in queue && ForeignKeyConflictPossible(schema, current.metadata, tx.metadata)
  {
    hide ColumnCounterOverlap, TransactionMayCreateKey, TransactionMayRemoveKey;
    forall t, edge | edge in EdgesByParent(schema.edges, t) || edge in EdgesByChild(schema.edges, t)
      ensures ColumnCounterOverlap(index.createKeyCounts, edge.childTable, edge.childColumns) <==>
        SomeMayCreateKey(queue, edge.childTable, edge.childColumns)
      ensures ColumnCounterOverlap(index.removeKeyCounts, edge.parentTable, edge.parentColumns) <==>
        SomeMayRemoveKey(queue, edge.parentTable, edge.parentColumns)
    {
      ForeignKeyEdgesNonEmpty(schema, t, edge);
      KeyLookup(schema, index, queue, edge.childTable, edge.childColumns);
      KeyLookup(schema, index, queue, edge.parentTable, edge.parentColumns);
    }
  }

  lemma ForeignKeyEdgesNonEmpty(schema: SchemaCache, t: Table, edge: ForeignKeyEdge)
    requires schema.Valid()
    requires edge in EdgesByParent(schema.edges, t) || edge in EdgesByChild(schema.edges, t)
    ensures edge.childColumns != {} && edge.parentColumns != {}
  {
    EdgesByParentMember(schema.edges, t);
    EdgesByChildMember(schema.edges, t);
    var i :| 0 <= i < |schema.edges| && schema.edges[i] == edge;
  }

  /** The index flags integrity exactly when some queued transaction is flagged pairwise. */
  lemma IntegrityExact(schema: SchemaCache, current: LoggedTransaction, index: RemainingMetadataIndex, queue: seq<LoggedTransaction>)
    requires schema.Valid() && ValidTransaction(current) && ValidQueue(queue) && index.Agrees(schema, queue)
    ensures KeyConflictPossibleWithIndex(schema, current, index) || ForeignKeyConflictPossibleWithIndex(schema, current, index)
       <==> SomeConstraintConflict(schema, current, queue)
  {
    KeyConflictExact(schema, current, index, queue);
    ForeignKeyConflictExact(schema, current, index, queue);
  }

  // ----- write/write -----

  /** The row writes of a statement, explicit and hidden, as events. An INSERT has none. */
  function WriteActs(m: StatementMetadata): seq<CascadeWriteEvent> {
    m.events +
    (if m.tableUpdated.Some? && (m.kind.UpdateKind? || m.kind.DeleteKind?)
     then [InitialEvent(m.kind, m.tableUpdated.value, m.columnsUpdated)] else [])
  }

  /** Two row writes clash when they share a column and at least one is an update. */
  predicate ActsClash(a: CascadeWriteEvent, b: CascadeWriteEvent) {
    a.table == b.table && (a.kind.UpdateEvent? || b.kind.UpdateEvent?) && Overlaps(a.columns, b.columns)
  }

  ghost predicate StatementsClash(m: StatementMetadata, n: StatementMetadata) {
    exists a, b :: a in WriteActs(m) && b in WriteActs(n) && ActsClash(a, b)
  }

  ghost predicate SomeClash(current: LoggedTransaction, queue: seq<LoggedTransaction>) {
    exists m, tx, n :: m in current.metadata.statements && tx in queue && n in tx.metadata.statements && StatementsClash(m, n)
  }

  lemma ActsContribute(schema: SchemaCache, n: StatementMetadata, t: Table, columns: set<Column>)
    requires n.Valid()
    ensures Contributes(schema, WriteWriteColumns, n, t, columns) <==>
      exists b :: b in WriteActs(n) && b.table == t && Overlaps(b.columns, columns)
    ensures Contributes(schema, UpdateWrite, n, t, columns) <==>
      exists b :: b in WriteActs(n) && b.table == t && b.kind.UpdateEvent? && Overlaps(b.columns, columns)
  {
    hide Contributes;
    WriteContributes(schema, WriteWriteColumns, n, t, columns);
    WriteContributes(schema, UpdateWrite, n, t, columns);
    if n.kind.UpdateKind? || n.kind.DeleteKind? {
      assert InitialEvent(n.kind, n.tableUpdated.value, n.columnsUpdated) in WriteActs(n);
    }
  }

  /** Whether one row write of the current transaction is looked up as clashing. */
  predicate ActLookup(index: RemainingMetadataIndex, a: CascadeWriteEvent)
    reads index
  {
    if a.kind.UpdateEvent? then ColumnCounterOverlap(index.writeWriteCounts, a.table, a.columns)
    else ColumnCounterOverlap(index.updateCounts, a.table, {ALL_COLUMNS})
  }

  lemma StatementLookup(m: StatementMetadata, index: RemainingMetadataIndex)
    requires m.Valid()
    ensures StatementWriteWritePossible(m, index) <==> exists a :: a in WriteActs(m) && ActLookup(index, a)
  {
    hide ColumnCounterOverlap;
    if m.kind.UpdateKind? || m.kind.DeleteKind? {
      assert InitialEvent(m.kind, m.tableUpdated.value, m.columnsUpdated) in WriteActs(m);
    }
    forall a | a in WriteActs(m) && ActLookup(index, a) ensures StatementWriteWritePossible(m, index) {
      if a in m.events { }
    }
    if StatementWriteWritePossible(m, index) {
      if e :| e in m.events && ActLookup(index, e) {
        assert e in WriteActs(m);
      }
    }
  }

  ghost predicate ClashesWithQueue(queue: seq<LoggedTransaction>, a: CascadeWriteEvent) {
    exists tx, n, b :: tx in queue && n in tx.metadata.statements && b in WriteActs(n) && ActsClash(a, b)
  }

  lemma ActLookupMeaning(schema: SchemaCache, index: RemainingMetadataIndex, queue: seq<LoggedTransaction>, a: CascadeWriteEvent)
    requires ValidQueue(queue) && index.Agrees(schema, queue)
    requires a.kind.DeleteEvent? ==> a.columns == {ALL_COLUMNS}
    ensures ActLookup(index, a) <==> ClashesWithQueue(queue, a)
  {
    hide Contributes, ColumnCounterOverlap, Overlaps, WriteActs, CountsQueue, ValidQueue, ActsClash;
    var k := if a.kind.UpdateEvent? then WriteWriteColumns else UpdateWrite;
    assert CountsQueue(schema, k, queue, index.Counts(k));
    LookupMeaning(schema, k, queue, index.Counts(k), a.table, a.columns);
    forall tx, n | tx in queue && n in tx.metadata.statements
      ensures Contributes(schema, k, n, a.table, a.columns) <==> exists b :: b in WriteActs(n) && ActsClash(a, b)
    {
      QueueMember(queue, tx, n);
      ActsOfStatement(schema, n, a);
    }
  }

  lemma ActsOfStatement(schema: SchemaCache, n: StatementMetadata, a: CascadeWriteEvent)
    requires n.Valid() && (a.kind.DeleteEvent? ==> a.columns == {ALL_COLUMNS})
    ensures Contributes(schema, if a.kind.UpdateEvent? then WriteWriteColumns else UpdateWrite, n, a.table, a.columns) <==>
      exists b :: b in WriteActs(n) && ActsClash(a, b)
  {
    hide Contributes, Overlaps, WriteActs, StatementMetadata.Valid;
    ActsContribute(schema, n, a.table, a.columns);
    forall b: CascadeWriteEvent { OverlapsSymmetric(a.columns, b.columns); }
  }

  /** The index flags write/write exactly when two row writes clash, explicit or hidden. */
  lemma WriteWriteExact(schema: SchemaCache, current: LoggedTransaction, index: RemainingMetadataIndex, queue: seq<LoggedTransaction>)
    requires ValidTransaction(current) && ValidQueue(queue) && index.Agrees(schema, queue)
    ensures WriteWritePossible(current, index) <==> SomeClash(current, queue)
  {
    hide ActLookup, ActsClash, WriteActs, StatementWriteWritePossible, ValidTransaction, ValidQueue;
    if WriteWritePossible(current, index) {
      var m :| m in current.metadata.statements && StatementWriteWritePossible(m, index);
      MetadataMember(current, m);
      StatementLookup(m, index);
      var a :| a in WriteActs(m) && ActLookup(index, a);
      ActShape(m, a);
      ActLookupMeaning(schema, index, queue, a);
      var tx, n, b :| tx in queue && n in tx.metadata.statements && b in WriteActs(n) && ActsClash(a, b);
      assert StatementsClash(m, n);
    }
    if SomeClash(current, queue) {
      var m, tx, n :| m in current.metadata.statements && tx in queue && n in tx.metadata.statements && StatementsClash(m, n);
      var a, b :| a in WriteActs(m) && b in WriteActs(n) && ActsClash(a, b);
      MetadataMember(current, m);
      ActShape(m, a);
      assert ClashesWithQueue(queue, a);
      ActLookupMeaning(schema, index, queue, a);
      StatementLookup(m, index);
    }
  }

  lemma ActShape(m: StatementMetadata, a: CascadeWriteEvent)
    requires m.Valid() && a in WriteActs(m)
    ensures a.kind.DeleteEvent? ==> a.columns == {ALL_COLUMNS}
    ensures Overlaps(a.columns, {ALL_COLUMNS}) ==> a.table in m.updated
    ensures forall other :: Overlaps(a.columns, other) ==> Overlaps(ColumnsOf(m.updated, a.table), other)
  {
    hide Overlaps;
    forall other ensures Overlaps(a.columns, other) ==> Overlaps(ColumnsOf(m.updated, a.table), other) {
      assert m.WritesMeet(a.table, other);
    }
  }

  /** Clashing row writes are flagged pairwise; without foreign-key effects nothing else is. */
  lemma ClashIsPairwise(m: StatementMetadata, n: StatementMetadata)
    requires m.Valid() && n.Valid()
    ensures StatementsClash(m, n) ==> WriteWriteOverlap(m, n)
    ensures !m.hasCascadeEffects && !n.hasCascadeEffects && WriteWriteOverlap(m, n) ==> StatementsClash(m, n)
  {
    hide Overlaps;
    if StatementsClash(m, n) {
      var a, b :| a in WriteActs(m) && b in WriteActs(n) && ActsClash(a, b);
      ActShape(m, a);
      ActShape(n, b);
      OverlapsSymmetric(a.columns, b.columns);
      OverlapsSymmetric(b.columns, ColumnsOf(m.updated, a.table));
      OverlapsSymmetric(ColumnsOf(n.updated, a.table), ColumnsOf(m.updated, a.table));
      MapsOverlapAt(m.updated, n.updated);
    }
    if !m.hasCascadeEffects && !n.hasCascadeEffects && WriteWriteOverlap(m, n) {
      var a := InitialEvent(m.kind, m.tableUpdated.value, m.columnsUpdated);
      var b := InitialEvent(n.kind, n.tableUpdated.value, n.columnsUpdated);
      OverlapsSymmetric(m.columnsUpdated, n.columnsUpdated);
      assert a in WriteActs(m) && b in WriteActs(n) && ActsClash(a, b);
    }
  }

  ghost predicate SomeWriteWrite(current: LoggedTransaction, queue: seq<LoggedTransaction>) {
    exists tx :: tx in queue && TransactionWriteWriteOverlap(current.metadata, tx.metadata)
  }

  /** The index never flags write/write without a pairwise flag, and misses none when no
      statement on either side has foreign-key effects. */
  lemma WriteWriteOneSided(schema: SchemaCache, current: LoggedTransaction, index: RemainingMetadataIndex, queue: seq<LoggedTransaction>)
    requires ValidTransaction(current) && ValidQueue(queue) && index.Agrees(schema, queue)
    ensures WriteWritePossible(current, index) ==> SomeWriteWrite(current, queue)
    ensures !current.metadata.hasCascadeEffects && (forall tx :: tx in queue ==> !tx.metadata.hasCascadeEffects) ==>
      (WriteWritePossible(current, index) <==> SomeWriteWrite(current, queue))
  {
    hide StatementsClash, WriteWriteOverlap, WriteWritePossible, ValidTransaction;
    WriteWriteExact(schema, current, index, queue);
    if SomeClash(current, queue) {
      var m, tx, n :| m in current.metadata.statements && tx in queue && n in tx.metadata.statements && StatementsClash(m, n);
      MetadataMember(current, m);
      QueueMember(queue, tx, n);
      ClashIsPairwise(m, n);
      assert TransactionWriteWriteOverlap(current.metadata, tx.metadata);
    }
    if !current.metadata.hasCascadeEffects && (forall tx :: tx in queue ==> !tx.metadata.hasCascadeEffects)
       && SomeWriteWrite(current, queue) {
      var tx :| tx in queue && TransactionWriteWriteOverlap(current.metadata, tx.metadata);
      var m, n :| m in current.metadata.statements && n in tx.metadata.statements && WriteWriteOverlap(m, n);
      NoCascade(current, m);
      NoCascade(tx, n);
      ClashIsPairwise(m, n);
    }
  }

  /** The converse fails with cascades: a hidden write into the table of an INSERT is flagged pairwise, but
      an INSERT has no row writes the index would look up. */
  lemma InsertBehindCascade(m: StatementMetadata, n: StatementMetadata, e: CascadeWriteEvent)
    requires m.Valid() && n.Valid() && n.kind.InsertKind? && m.hasCascadeEffects
    requires e in m.events && n.tableUpdated == Some(e.table)
    ensures WriteWriteOverlap(m, n) && !StatementsClash(m, n)
  {
    var t := e.table;
    assert n.WritesMeet(t, e.columns) && m.WritesMeet(t, ColumnsOf(n.updated, t));
    var c :| c in e.columns;
    assert Overlaps({ALL_COLUMNS}, e.columns) by { assert ALL_COLUMNS in {ALL_COLUMNS}; }
    OverlapsSymmetric(ColumnsOf(n.updated, t), e.columns);
    MapsOverlapAt(m.updated, n.updated);
  }

  /** So a queue of INSERTs is never flagged write/write by the index, whatever the pairwise check says. */
  lemma InsertQueueNotFlagged(schema: SchemaCache, current: LoggedTransaction, index: RemainingMetadataIndex, queue: seq<LoggedTransaction>,
    m: StatementMetadata, e: CascadeWriteEvent, tx: LoggedTransaction, n: StatementMetadata)
    requires ValidTransaction(current) && ValidQueue(queue) && index.Agrees(schema, queue)
    requires forall other, k :: other in queue && k in other.metadata.statements ==> k.kind.InsertKind?
    requires m in current.metadata.statements && m.hasCascadeEffects && e in m.events
    requires tx in queue && n in tx.metadata.statements && n.tableUpdated == Some(e.table)
    ensures SomeWriteWrite(current, queue) && !WriteWritePossible(current, index)
  {
    hide WriteWriteOverlap, WriteWritePossible, ValidTransaction, WriteActs;
    WriteWriteExact(schema, current, index, queue);
    MetadataMember(current, m);
    QueueMember(queue, tx, n);
    InsertBehindCascade(m, n, e);
    assert TransactionWriteWriteOverlap(current.metadata, tx.metadata);
    forall other, k | other in queue && k in other.metadata.statements ensures WriteActs(k) == [] {
      QueueMember(queue, other, k);
      InsertHasNoActs(k);
    }
  }

  lemma InsertHasNoActs(n: StatementMetadata)
    requires n.Valid() && n.kind.InsertKind?
    ensures WriteActs(n) == []
  {
  }

  /** Such a pair exists: a cascading DELETE on a parent against an INSERT into its child. */
  lemma CascadingDeleteMeetsInsert()
    ensures var all := {ALL_COLUMNS};
      var e := CascadeWriteEvent("child", all, DeleteEvent);
      var m := StatementMetadata(DeleteKind, Some("parent"), all, all, map["parent" := all, "child" := all], map[], [e], true, false);
      var n := StatementMetadata(InsertKind, Some("child"), all, all, map["child" := all], map[], [], false, false);
      m.Valid() && n.Valid() && WriteWriteOverlap(m, n) && !StatementsClash(m, n)
  {
    var all := {ALL_COLUMNS};
    var e := CascadeWriteEvent("child", all, DeleteEvent);
    var m := StatementMetadata(DeleteKind, Some("parent"), all, all, map["parent" := all, "child" := all], map[], [e], true, false);
    var n := StatementMetadata(InsertKind, Some("child"), all, all, map["child" := all], map[], [], false, false);
    assert m.events[0] == e;
    InsertBehindCascade(m, n, e);
  }

  lemma NoCascade(tx: LoggedTransaction, m: StatementMetadata)
    requires ValidTransaction(tx) && m in tx.metadata.statements && !tx.metadata.hasCascadeEffects
    ensures m.Valid() && !m.hasCascadeEffects
  {
    MetadataMember(tx, m);
    CascadeOfTransaction(Metadatas(tx.statements));
    StatementsOf(Metadatas(tx.statements));
  }

  // ----- implicit keys -----

  /** An INSERT leaves a key to SQLite that a foreign key of the other statement may rewrite. */
  ghost predicate HiddenKeyWrite(schema: SchemaCache, insert: StatementMetadata, other: StatementMetadata) {
    && OmittedIntegerPrimaryKey(schema, insert).Some?
    && exists e :: e in other.events && e.kind.UpdateEvent? && insert.Writes(e.table)
         && Overlaps(e.columns, {OmittedIntegerPrimaryKey(schema, insert).value})
  }

  ghost predicate SomeImplicitKey(schema: SchemaCache, current: LoggedTransaction, queue: seq<LoggedTransaction>) {
    exists m, tx, n :: m in current.metadata.statements && tx in queue && n in tx.metadata.statements
      && ImplicitKeyConflict(schema, m, n)
  }

  ghost predicate SomeHiddenKeyWrite(schema: SchemaCache, current: LoggedTransaction, queue: seq<LoggedTransaction>) {
    exists m, tx, n :: m in current.metadata.statements && tx in queue && n in tx.metadata.statements
      && HiddenKeyWrite(schema, m, n)
  }

  ghost predicate KeyLookupContributes(schema: SchemaCache, m: StatementMetadata, n: StatementMetadata) {
    && m.tableUpdated.Some?
    && var t := m.tableUpdated.value;
       if m.kind.UpdateKind? then Contributes(schema, OmittedKey, n, t, m.columnsUpdated)
       else
         && OmittedIntegerPrimaryKey(schema, m).Some?
         && var key := {OmittedIntegerPrimaryKey(schema, m).value};
            Contributes(schema, OmittedKey, n, t, key) || Contributes(schema, UpdateWrite, n, t, key)
  }

  lemma KeyLookupPairwise(schema: SchemaCache, m: StatementMetadata, n: StatementMetadata)
    requires m.Valid() && n.Valid()
    ensures KeyLookupContributes(schema, m, n) <==> ImplicitKeyConflict(schema, m, n) || HiddenKeyWrite(schema, m, n)
  {
    hide Contributes;
    if m.tableUpdated.Some? {
      var t := m.tableUpdated.value;
      var key := OmittedIntegerPrimaryKey(schema, m);
      OtherContributes(schema, n, t, m.columnsUpdated);
      if key.Some? {
        OtherContributes(schema, n, t, {key.value});
        WriteContributes(schema, UpdateWrite, n, t, {key.value});
      }
      var other := OmittedIntegerPrimaryKey(schema, n);
      if other.Some? {
        OverlapsSymmetric(m.columnsUpdated, {other.value});
        assert other.value in {other.value};
      }
    }
  }

  ghost predicate KeyLookupInQueue(schema: SchemaCache, m: StatementMetadata, queue: seq<LoggedTransaction>) {
    exists tx, n :: tx in queue && n in tx.metadata.statements && KeyLookupContributes(schema, m, n)
  }

  /** The three lookups of the implicit-key check, spelled out over the queue. */
  lemma KeyLookupSpelled(schema: SchemaCache, m: StatementMetadata, queue: seq<LoggedTransaction>)
    requires m.tableUpdated.Some?
    ensures var t := m.tableUpdated.value;
      KeyLookupInQueue(schema, m, queue) <==>
        if m.kind.UpdateKind? then QueueContributes(schema, OmittedKey, queue, t, m.columnsUpdated)
        else
          && OmittedIntegerPrimaryKey(schema, m).Some?
          && var key := {OmittedIntegerPrimaryKey(schema, m).value};
             QueueContributes(schema, OmittedKey, queue, t, key) || QueueContributes(schema, UpdateWrite, queue, t, key)
  {
    hide Contributes, OmittedIntegerPrimaryKey;
    var t := m.tableUpdated.value;
    var key := OmittedIntegerPrimaryKey(schema, m);
    forall k, columns: set<Column>, tx, n | tx in queue && n in tx.metadata.statements && Contributes(schema, k, n, t, columns)
        && (if m.kind.UpdateKind? then k.OmittedKey? && columns == m.columnsUpdated
            else (k.OmittedKey? || k.UpdateWrite?) && key.Some? && columns == {key.value})
      ensures KeyLookupInQueue(schema, m, queue)
    {
      assert KeyLookupContributes(schema, m, n);
    }
  }

  lemma KeyLookupIndex(schema: SchemaCache, m: StatementMetadata, index: RemainingMetadataIndex, queue: seq<LoggedTransaction>)
    requires m.Valid() && ValidQueue(queue) && index.Agrees(schema, queue)
    ensures StatementImplicitKeyPossible(schema, m, index) <==> KeyLookupInQueue(schema, m, queue)
  {
    hide Contributes, OmittedIntegerPrimaryKey, ColumnCounterOverlap, Overlaps, StatementMetadata.WritesMeet;
    assert CountsQueue(schema, OmittedKey, queue, index.Counts(OmittedKey));
    assert CountsQueue(schema, UpdateWrite, queue, index.Counts(UpdateWrite));
    hide QueueContributes;
    if m.tableUpdated.Some? {
      KeyLookupSpelled(schema, m, queue);
      var t := m.tableUpdated.value;
      var key := OmittedIntegerPrimaryKey(schema, m);
      if m.kind.UpdateKind? {
        LookupMeaning(schema, OmittedKey, queue, index.omittedKeyCounts, t, m.columnsUpdated);
      } else if key.Some? {
        OmittedOnlyByInsert(schema, m);
        LookupMeaning(schema, OmittedKey, queue, index.omittedKeyCounts, t, {key.value});
        LookupMeaning(schema, UpdateWrite, queue, index.updateCounts, t, {key.value});
        LookupPresent(index.omittedKeyCounts, t, {key.value});
        LookupPresent(index.updateCounts, t, {key.value});
      }
    }
  }

  lemma OmittedOnlyByInsert(schema: SchemaCache, m: StatementMetadata)
    requires OmittedIntegerPrimaryKey(schema, m).Some?
    ensures m.kind.InsertKind?
  {
  }

  lemma LookupPresent(counts: ColumnCountMap, t: Table, columns: set<Column>)
    ensures ColumnCounterOverlap(counts, t, columns) ==> t in counts
  {
  }

  /** The index flags implicit keys exactly when a pair does, or an omitted key of the current
      transaction meets a hidden key update: no pairwise conflict is missed, and the two agree
      when the queue has no hidden updates. */
  lemma ImplicitKeyExact(schema: SchemaCache, current: LoggedTransaction, index: RemainingMetadataIndex, queue: seq<LoggedTransaction>)
    requires ValidTransaction(current) && ValidQueue(queue) && index.Agrees(schema, queue)
    ensures ImplicitInsertKeyPossible(schema, current, index) <==>
      SomeImplicitKey(schema, current, queue) || SomeHiddenKeyWrite(schema, current, queue)
  {
    hide StatementImplicitKeyPossible, KeyLookupContributes, ImplicitKeyConflict, HiddenKeyWrite, ValidTransaction, ValidQueue;
    if ImplicitInsertKeyPossible(schema, current, index) {
      var m :| m in current.metadata.statements && StatementImplicitKeyPossible(schema, m, index);
      MetadataMember(current, m);
      KeyLookupIndex(schema, m, index, queue);
      var tx, n :| tx in queue && n in tx.metadata.statements && KeyLookupContributes(schema, m, n);
      QueueMember(queue, tx, n);
      KeyLookupPairwise(schema, m, n);
    }
    forall m, tx, n | m in current.metadata.statements && tx in queue && n in tx.metadata.statements
                      && (ImplicitKeyConflict(schema, m, n) || HiddenKeyWrite(schema, m, n))
      ensures ImplicitInsertKeyPossible(schema, current, index)
    {
      MetadataMember(current, m);
      QueueMember(queue, tx, n);
      KeyLookupPairwise(schema, m, n);
      KeyLookupIndex(schema, m, index, queue);
    }
  }

  /** Such a pair exists: an INSERT that leaves the child's integer key to SQLite against an UPDATE of the parent
      whose foreign key rewrites that key. */
  lemma HiddenKeyUpdateMeetsInsert()
    ensures var edge := ForeignKeyEdge("child", {"id"}, "parent", {"id"}, Cascade, NoAction);
      var schema := SchemaCache(map["parent" := {"id"}, "child" := {"id", "name"}], map[], map["child" := "id"], [edge]);
      var insert := StatementMetadata(InsertKind, Some("child"), {ALL_COLUMNS}, {"name"}, map["child" := {ALL_COLUMNS}], map[], [], false, false);
      var e := CascadeWriteEvent("child", {"id"}, UpdateEvent);
      var update := StatementMetadata(UpdateKind, Some("parent"), {"id"}, {}, map["parent" := {"id"}, "child" := {"id"}], map[], [e], true, false);
      && ChildOf(edge, InitialEvent(UpdateKind, "parent", {"id"})) == Some(e)
      && insert.Valid() && update.Valid() && HiddenKeyWrite(schema, insert, update) && !ImplicitKeyConflict(schema, insert, update)
  {
    var edge := ForeignKeyEdge("child", {"id"}, "parent", {"id"}, Cascade, NoAction);
    var schema := SchemaCache(map["parent" := {"id"}, "child" := {"id", "name"}], map[], map["child" := "id"], [edge]);
    var insert := StatementMetadata(InsertKind, Some("child"), {ALL_COLUMNS}, {"name"}, map["child" := {ALL_COLUMNS}], map[], [], false, false);
    var e := CascadeWriteEvent("child", {"id"}, UpdateEvent);
    var update := StatementMetadata(UpdateKind, Some("parent"), {"id"}, {}, map["parent" := {"id"}, "child" := {"id"}], map[], [e], true, false);
    assert update.events[0] == e && Meets("id", {"id"});
    forall t, other ensures update.WritesMeet(t, other) { assert e in update.events; }
    forall t, other ensures insert.WritesMeet(t, other) {}
    assert Overlaps({"id"}, {"id"}) && ColumnOverlap({"id"}, {"id"}) != {};
  }

  lemma QueueMember(queue: seq<LoggedTransaction>, tx: LoggedTransaction, n: StatementMetadata)
    requires ValidQueue(queue) && tx in queue && n in tx.metadata.statements
    ensures n.Valid()
  {
    MetadataMember(tx, n);
  }

  // ----- all kinds together -----

  /** What the set of needed kinds says about the queue. */
  lemma KindsMeaning(schema: SchemaCache, current: LoggedTransaction, index: RemainingMetadataIndex, queue: seq<LoggedTransaction>)
    requires schema.Valid() && ValidTransaction(current) && ValidQueue(queue) && index.Agrees(schema, queue)
    ensures var kinds := RemainingIndividualCheckKinds(schema, current, index);
      && (WriteRead in kinds <==> SomeWriteRead(current, queue))
      && (Integrity in kinds <==> SomeConstraintConflict(schema, current, queue))
      && (WriteWrite in kinds <==> SomeClash(current, queue))
      && (ImplicitInsertKey in kinds <==>
            SomeImplicitKey(schema, current, queue) || SomeHiddenKeyWrite(schema, current, queue))
      && kinds <= {WriteWrite, WriteRead, ImplicitInsertKey, Integrity}
  {
    hide WriteReadPossible, WriteWritePossible, ImplicitInsertKeyPossible, KeyConflictPossibleWithIndex, ForeignKeyConflictPossibleWithIndex;
    hide CountsQueue, ValidQueue, ValidTransaction, TransactionWriteReadOverlap, ConstraintConflictPossible, StatementsClash, ImplicitKeyConflict, HiddenKeyWrite;
    if queue == [] { assert index.transactionCount == 0; }
    WriteReadExact(schema, current, index, queue);
    IntegrityExact(schema, current, index, queue);
    WriteWriteExact(schema, current, index, queue);
    ImplicitKeyExact(schema, current, index, queue);
  }
}
