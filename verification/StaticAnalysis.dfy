/** Pairwise static checks between two transactions (src/merge/static_analysis.py).
    These are the specification the metadata index is measured against. */
module StaticAnalysis {
  import opened Columns
  import opened Models
  import opened CascadeMetadata
  import opened SqlMetadata

  // ----- write/write -----

  predicate DirectWriteWriteOverlap(ours: StatementMetadata, theirs: StatementMetadata) {
    && ours.tableUpdated.Some?
    && ours.tableUpdated == theirs.tableUpdated
    && !(ours.kind.DeleteKind? && theirs.kind.DeleteKind?)
    && !ours.kind.InsertKind?
    && !theirs.kind.InsertKind?
    && ColumnOverlap(theirs.columnsUpdated, ours.columnsUpdated) != {}
  }

  predicate WriteWriteOverlap(ours: StatementMetadata, theirs: StatementMetadata) {
    || DirectWriteWriteOverlap(ours, theirs)
    || ((ours.hasCascadeEffects || theirs.hasCascadeEffects) && MapsOverlap(ours.updated, theirs.updated))
  }

  predicate TransactionWriteWriteOverlap(ours: TransactionMetadata, theirs: TransactionMetadata) {
    exists o, t :: o in ours.statements && t in theirs.statements && WriteWriteOverlap(o, t)
  }

  // ----- write/read -----

  predicate TransactionWriteReadOverlap(writer: TransactionMetadata, reader: TransactionMetadata) {
    MapsOverlap(writer.updated, reader.referenced)
  }

  /** Whether one reader statement may read columns the writer writes. */
  predicate ReadsAny(reader: StatementMetadata, columns: ColumnMap) {
    MapsOverlap(reader.referenced, columns)
  }

  // ----- implicit keys -----

  /** The INTEGER PRIMARY KEY an INSERT leaves to SQLite, if any. */
  function OmittedIntegerPrimaryKey(schema: SchemaCache, m: StatementMetadata): Option<Column> {
    if !m.kind.InsertKind? || m.tableUpdated.None? || m.tableUpdated.value !in schema.integerPrimaryKey then None
    else
      var key := schema.integerPrimaryKey[m.tableUpdated.value];
      if ALL_COLUMNS in m.explicitColumns || key in m.explicitColumns then None else Some(key)
  }

  predicate ImplicitKeyOneWay(schema: SchemaCache, insert: StatementMetadata, other: StatementMetadata) {
    var key := OmittedIntegerPrimaryKey(schema, insert);
    && key.Some?
    && insert.tableUpdated == other.tableUpdated
    && (|| OmittedIntegerPrimaryKey(schema, other).Some?
        || (other.kind.UpdateKind? && ColumnOverlap(other.columnsUpdated, {key.value}) != {}))
  }

  predicate ImplicitKeyConflict(schema: SchemaCache, ours: StatementMetadata, theirs: StatementMetadata) {
    ImplicitKeyOneWay(schema, ours, theirs) || ImplicitKeyOneWay(schema, theirs, ours)
  }

  predicate TransactionImplicitKeyConflict(schema: SchemaCache, ours: TransactionMetadata, theirs: TransactionMetadata) {
    exists o, t :: o in ours.statements && t in theirs.statements && ImplicitKeyConflict(schema, o, t)
  }

  // ----- integrity -----

  predicate StatementMayCreateKey(m: StatementMetadata, table: Table, key: set<Column>) {
    && m.Writes(table)
    && (m.kind.InsertKind? || (m.kind.UpdateKind? && ColumnOverlap(m.columnsUpdated, key) != {}))
  }

  predicate StatementMayRemoveKey(m: StatementMetadata, table: Table, key: set<Column>) {
    && m.Writes(table)
    && (m.kind.DeleteKind? || (m.kind.UpdateKind? && ColumnOverlap(m.columnsUpdated, key) != {}))
  }

  predicate TransactionMayCreateKey(tx: TransactionMetadata, table: Table, key: set<Column>) {
    || (exists s :: s in tx.statements && StatementMayCreateKey(s, table, key))
    || MayCreateKey(tx.events, table, key)
  }

  predicate TransactionMayRemoveKey(tx: TransactionMetadata, table: Table, key: set<Column>) {
    || (exists s :: s in tx.statements && StatementMayRemoveKey(s, table, key))
    || MayRemoveKey(tx.events, table, key)
  }

  predicate KeyConflictPossible(schema: SchemaCache, first: TransactionMetadata, second: TransactionMetadata) {
    exists t, key :: t in schema.keyColumnSets && key in schema.keyColumnSets[t]
      && TransactionMayCreateKey(first, t, key) && TransactionMayCreateKey(second, t, key)
  }

  predicate ForeignKeyConflictPossible(schema: SchemaCache, first: TransactionMetadata, second: TransactionMetadata) {
    exists t :: t in first.updated &&
      (|| (exists edge :: edge in EdgesByParent(schema.edges, t)
             && TransactionMayRemoveKey(first, edge.parentTable, edge.parentColumns)
             && TransactionMayCreateKey(second, edge.childTable, edge.childColumns))
       || (exists edge :: edge in EdgesByChild(schema.edges, t)
             && TransactionMayCreateKey(first, edge.childTable, edge.childColumns)
             && TransactionMayRemoveKey(second, edge.parentTable, edge.parentColumns)))
  }

  predicate ConstraintConflictPossible(schema: SchemaCache, first: TransactionMetadata, second: TransactionMetadata) {
    KeyConflictPossible(schema, first, second) || ForeignKeyConflictPossible(schema, first, second)
  }

  // ----- what the constraint check means -----

  lemma UpdatedByStatement(tx: LoggedTransaction, m: StatementMetadata, t: Table)
    requires ValidTransaction(tx) && m in tx.metadata.statements
    requires m.Writes(t) || exists e :: e in m.events && e.table == t
    ensures t in tx.metadata.updated
  {
    hide StatementMetadata.WritesMeet;
    StatementsOf(Metadatas(tx.statements));
    MetadataMember(tx, m);
    UpdatedTableOfTransaction(Metadatas(tx.statements), t);
  }

  /** A transaction that may touch a key of a table lists the table among those it updates. */
  lemma KeyTableUpdated(tx: LoggedTransaction, t: Table, key: set<Column>)
    requires ValidTransaction(tx)
    requires TransactionMayCreateKey(tx.metadata, t, key) || TransactionMayRemoveKey(tx.metadata, t, key)
    ensures t in tx.metadata.updated
  {
    hide ValidTransaction;
    if s :| s in tx.metadata.statements && (StatementMayCreateKey(s, t, key) || StatementMayRemoveKey(s, t, key)) {
      assert s.Writes(t);
      UpdatedByStatement(tx, s, t);
    } else {
      var e :| e in tx.metadata.events && (EventMayCreateOrChangeKey(e, t, key) || EventMayRemoveOrChangeKey(e, t, key));
      EventTable(e, t, key);
      var s := EventOwner(tx, e);
      UpdatedByStatement(tx, s, t);
    }
  }

  lemma EventTable(e: CascadeWriteEvent, t: Table, key: set<Column>)
    requires EventMayCreateOrChangeKey(e, t, key) || EventMayRemoveOrChangeKey(e, t, key)
    ensures e.table == t
  {
  }

  lemma EventOwner(tx: LoggedTransaction, e: CascadeWriteEvent) returns (m: StatementMetadata)
    requires ValidTransaction(tx) && e in tx.metadata.events
    ensures m in tx.metadata.statements && e in m.events
  {
    StatementsOf(Metadatas(tx.statements));
    EventOfTransaction(Metadatas(tx.statements), e);
    m :| m in tx.metadata.statements && e in m.events;
  }

  /** One side may create the child key and the other remove the parent key. */
  predicate BreaksTogether(edge: ForeignKeyEdge, x: TransactionMetadata, y: TransactionMetadata) {
    || (TransactionMayCreateKey(x, edge.childTable, edge.childColumns) && TransactionMayRemoveKey(y, edge.parentTable, edge.parentColumns))
    || (TransactionMayCreateKey(y, edge.childTable, edge.childColumns) && TransactionMayRemoveKey(x, edge.parentTable, edge.parentColumns))
  }

  /** Over the edges of the schema: in either direction, whatever tables the transactions list. */
  lemma ForeignKeyConflictMeaning(schema: SchemaCache, x: LoggedTransaction, y: LoggedTransaction)
    requires ValidTransaction(x) && ValidTransaction(y)
    ensures ForeignKeyConflictPossible(schema, x.metadata, y.metadata) <==>
      exists edge :: edge in schema.edges && BreaksTogether(edge, x.metadata, y.metadata)
  {
    hide TransactionMayCreateKey, TransactionMayRemoveKey, ValidTransaction;
    forall t, edge ensures edge in EdgesByParent(schema.edges, t) <==> edge in schema.edges && edge.parentTable == t {
      EdgesByParentMember(schema.edges, t);
    }
    forall t, edge ensures edge in EdgesByChild(schema.edges, t) <==> edge in schema.edges && edge.childTable == t {
      EdgesByChildMember(schema.edges, t);
    }
    forall edge | edge in schema.edges && BreaksTogether(edge, x.metadata, y.metadata)
      ensures ForeignKeyConflictPossible(schema, x.metadata, y.metadata)
    {
      if TransactionMayRemoveKey(x.metadata, edge.parentTable, edge.parentColumns) && TransactionMayCreateKey(y.metadata, edge.childTable, edge.childColumns) {
        KeyTableUpdated(x, edge.parentTable, edge.parentColumns);
        assert edge in EdgesByParent(schema.edges, edge.parentTable);
      } else {
        KeyTableUpdated(x, edge.childTable, edge.childColumns);
        assert edge in EdgesByChild(schema.edges, edge.childTable);
      }
    }
  }

  lemma ConstraintConflictSymmetric(schema: SchemaCache, x: LoggedTransaction, y: LoggedTransaction)
    requires ValidTransaction(x) && ValidTransaction(y)
    ensures ConstraintConflictPossible(schema, x.metadata, y.metadata) <==> ConstraintConflictPossible(schema, y.metadata, x.metadata)
  {
    hide TransactionMayCreateKey, TransactionMayRemoveKey, ValidTransaction, ForeignKeyConflictPossible;
    ForeignKeyConflictMeaning(schema, x, y);
    ForeignKeyConflictMeaning(schema, y, x);
    assert forall edge :: BreaksTogether(edge, x.metadata, y.metadata) <==> BreaksTogether(edge, y.metadata, x.metadata);
  }

  // ----- what the implicit-key check means -----

  /** An INSERT into the table that names neither its integer key nor all columns. */
  predicate LeavesKey(m: StatementMetadata, table: Table, key: Column) {
    m.kind.InsertKind? && m.Writes(table) && key !in m.explicitColumns && ALL_COLUMNS !in m.explicitColumns
  }

  predicate AssignsKey(m: StatementMetadata, table: Table, key: Column) {
    m.kind.UpdateKind? && m.Writes(table) && (key in m.columnsUpdated || ALL_COLUMNS in m.columnsUpdated)
  }

  lemma KeyOverlap(columns: set<Column>, key: Column)
    requires key != ALL_COLUMNS
    ensures ColumnOverlap(columns, {key}) != {} <==> key in columns || ALL_COLUMNS in columns
  {
    if key in columns { assert Meets(key, {key}); }
    if ALL_COLUMNS in columns { assert Meets(ALL_COLUMNS, {key}); }
  }

  predicate OneLeaves(insert: StatementMetadata, other: StatementMetadata, table: Table, key: Column) {
    LeavesKey(insert, table, key) && (LeavesKey(other, table, key) || AssignsKey(other, table, key))
  }

  /** An INSERT that leaves its table's integer key, against another statement on that table. */
  lemma OneWayMeaning(schema: SchemaCache, insert: StatementMetadata, other: StatementMetadata)
    requires schema.NamesColumns()
    ensures ImplicitKeyOneWay(schema, insert, other) <==>
      exists table :: table in schema.integerPrimaryKey && OneLeaves(insert, other, table, schema.integerPrimaryKey[table])
  {
    hide ColumnOverlap;
    forall t | t in schema.integerPrimaryKey { KeyOverlap(other.columnsUpdated, schema.integerPrimaryKey[t]); }
    if ImplicitKeyOneWay(schema, insert, other) {
      assert OneLeaves(insert, other, insert.tableUpdated.value, schema.integerPrimaryKey[insert.tableUpdated.value]);
    }
  }

  /** Exactly when, for one table with an integer key, one side leaves the key to SQLite and the other leaves it too
      or assigns it. Two INSERTs that both name the key are never in conflict. */
  lemma ImplicitKeyMeaning(schema: SchemaCache, ours: StatementMetadata, theirs: StatementMetadata)
    requires schema.NamesColumns()
    ensures ImplicitKeyConflict(schema, ours, theirs) <==>
      exists table :: table in schema.integerPrimaryKey && KeyLeftOpen(ours, theirs, table, schema.integerPrimaryKey[table])
  {
    hide ImplicitKeyOneWay, LeavesKey, AssignsKey;
    OneWayMeaning(schema, ours, theirs);
    OneWayMeaning(schema, theirs, ours);
    forall table | table in schema.integerPrimaryKey
      ensures KeyLeftOpen(ours, theirs, table, schema.integerPrimaryKey[table]) <==>
        OneLeaves(ours, theirs, table, schema.integerPrimaryKey[table]) || OneLeaves(theirs, ours, table, schema.integerPrimaryKey[table])
    {
    }
  }

  predicate KeyLeftOpen(ours: StatementMetadata, theirs: StatementMetadata, table: Table, key: Column) {
    || (LeavesKey(ours, table, key) && (LeavesKey(theirs, table, key) || AssignsKey(theirs, table, key)))
    || (LeavesKey(theirs, table, key) && AssignsKey(ours, table, key))
  }

  // ----- the pairwise result -----

  /** Whether the side to the front may write what the other reads. */
  predicate OrderedWriteReadOverlap(ours: TransactionMetadata, theirs: TransactionMetadata, branch: Branch) {
    if branch.Ours? then TransactionWriteReadOverlap(ours, theirs) else TransactionWriteReadOverlap(theirs, ours)
  }

  function Flagged(flagged: bool, c: StatementConflict): ConflictCheckResult {
    if flagged then [c] else []
  }

  lemma ThreeFlags(p: bool, a: StatementConflict, q: bool, b: StatementConflict, r: bool, c: StatementConflict, x: StatementConflict)
    ensures x in Flagged(p, a) + Flagged(q, b) + Flagged(r, c) <==> (p && x == a) || (q && x == b) || (r && x == c)
  {
  }

  function KeyOmitted(): StatementConflict {
    StatementConflict(ImplicitInsertKey, "INSERT omits an INTEGER PRIMARY KEY the other side assigns", false)
  }

  function RowsOverlap(cascade: bool): StatementConflict {
    StatementConflict(WriteWrite, "transactions write overlapping table columns", cascade)
  }

  function ReadsOverlap(cascade: bool): StatementConflict {
    StatementConflict(WriteRead, "current transaction writes columns the other reads", cascade)
  }

  lemma ConflictOf(cascade: bool)
    ensures KeyOmitted().kind == ImplicitInsertKey && !KeyOmitted().cascade
    ensures RowsOverlap(cascade).kind == WriteWrite && RowsOverlap(cascade).cascade == cascade
    ensures ReadsOverlap(cascade).kind == WriteRead && ReadsOverlap(cascade).cascade == cascade
  {
  }

  /** Static conflicts of the enabled kinds, write/read taken from the current side to the other. */
  function StaticAnalysisMatching(
    schema: SchemaCache, ours: TransactionMetadata, theirs: TransactionMetadata, kinds: set<ConflictKind>, branch: Branch)
    : ConflictCheckResult
  {
    var cascade := ours.hasCascadeEffects || theirs.hasCascadeEffects;
    Flagged(ImplicitInsertKey in kinds && TransactionImplicitKeyConflict(schema, ours, theirs), KeyOmitted())
    + Flagged(WriteWrite in kinds && TransactionWriteWriteOverlap(ours, theirs), RowsOverlap(cascade))
    + Flagged(WriteRead in kinds && OrderedWriteReadOverlap(ours, theirs, branch), ReadsOverlap(cascade))
  }

  lemma StaticMember(
    schema: SchemaCache, ours: TransactionMetadata, theirs: TransactionMetadata, kinds: set<ConflictKind>, branch: Branch, c: StatementConflict)
    ensures var cascade := ours.hasCascadeEffects || theirs.hasCascadeEffects;
      c in StaticAnalysisMatching(schema, ours, theirs, kinds, branch) <==>
        || (ImplicitInsertKey in kinds && TransactionImplicitKeyConflict(schema, ours, theirs) && c == KeyOmitted())
        || (WriteWrite in kinds && TransactionWriteWriteOverlap(ours, theirs) && c == RowsOverlap(cascade))
        || (WriteRead in kinds && OrderedWriteReadOverlap(ours, theirs, branch) && c == ReadsOverlap(cascade))
  {
    hide Flagged, TransactionImplicitKeyConflict, TransactionWriteWriteOverlap, OrderedWriteReadOverlap, KeyOmitted, RowsOverlap, ReadsOverlap;
    var cascade := ours.hasCascadeEffects || theirs.hasCascadeEffects;
    ThreeFlags(
      ImplicitInsertKey in kinds && TransactionImplicitKeyConflict(schema, ours, theirs), KeyOmitted(),
      WriteWrite in kinds && TransactionWriteWriteOverlap(ours, theirs), RowsOverlap(cascade),
      WriteRead in kinds && OrderedWriteReadOverlap(ours, theirs, branch), ReadsOverlap(cascade), c);
  }

  lemma StaticKinds(schema: SchemaCache, ours: TransactionMetadata, theirs: TransactionMetadata, kinds: set<ConflictKind>, branch: Branch)
    ensures var r := StaticAnalysisMatching(schema, ours, theirs, kinds, branch);
      && (HasKind(r, ImplicitInsertKey) <==> ImplicitInsertKey in kinds && TransactionImplicitKeyConflict(schema, ours, theirs))
      && (HasKind(r, WriteWrite) <==> WriteWrite in kinds && TransactionWriteWriteOverlap(ours, theirs))
      && (HasKind(r, WriteRead) <==> WriteRead in kinds && OrderedWriteReadOverlap(ours, theirs, branch))
      && (forall c :: c in r ==> c.kind in {ImplicitInsertKey, WriteWrite, WriteRead})
  {
    hide StaticAnalysisMatching, TransactionImplicitKeyConflict, TransactionWriteWriteOverlap, OrderedWriteReadOverlap, KeyOmitted, RowsOverlap, ReadsOverlap;
    var r, cascade := StaticAnalysisMatching(schema, ours, theirs, kinds, branch), ours.hasCascadeEffects || theirs.hasCascadeEffects;
    forall c { StaticMember(schema, ours, theirs, kinds, branch, c); }
    ConflictOf(cascade);
    assert KeyOmitted() in r ==> HasKind(r, ImplicitInsertKey);
    assert RowsOverlap(cascade) in r ==> HasKind(r, WriteWrite);
    assert ReadsOverlap(cascade) in r ==> HasKind(r, WriteRead);
  }

  // ----- candidate statement pairs -----

  function RowPairs(ours: StatementMetadata, i: nat, theirs: seq<StatementMetadata>): seq<(nat, nat)> {
    if theirs == [] then []
    else
      var j := |theirs| - 1;
      RowPairs(ours, i, theirs[..j]) + (if WriteWriteOverlap(ours, theirs[j]) then [(i, j)] else [])
  }

  /** Statement pairs that may have a write/write conflict, as (ours index, theirs index). */
  function WriteWriteCandidatePairs(ours: seq<StatementMetadata>, theirs: seq<StatementMetadata>): seq<(nat, nat)> {
    if ours == [] then []
    else
      var i := |ours| - 1;
      WriteWriteCandidatePairs(ours[..i], theirs) + RowPairs(ours[i], i, theirs)
  }

  lemma {:induction false} RowPairsMember(ours: StatementMetadata, i: nat, theirs: seq<StatementMetadata>, pair: (nat, nat))
    ensures pair in RowPairs(ours, i, theirs) <==>
      pair.0 == i && pair.1 < |theirs| && WriteWriteOverlap(ours, theirs[pair.1])
  {
    if theirs != [] {
      RowPairsMember(ours, i, theirs[..|theirs| - 1], pair);
    }
  }

  lemma {:induction false} CandidatePairsMember(ours: seq<StatementMetadata>, theirs: seq<StatementMetadata>, pair: (nat, nat))
    ensures pair in WriteWriteCandidatePairs(ours, theirs) <==>
      pair.0 < |ours| && pair.1 < |theirs| && WriteWriteOverlap(ours[pair.0], theirs[pair.1])
  {
    if ours != [] {
      var i := |ours| - 1;
      CandidatePairsMember(ours[..i], theirs, pair);
      RowPairsMember(ours[i], i, theirs, pair);
    }
  }
}
