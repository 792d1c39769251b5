/** Entities of the merge: statement and transaction metadata, schema facts, conflicts. */
module Models {
  import opened Columns

  datatype StatementKind = InsertKind | UpdateKind | DeleteKind | OtherKind

  datatype EventKind = DeleteEvent | UpdateEvent

  /** One hidden child-table write caused by a foreign-key action. */
  datatype CascadeWriteEvent = CascadeWriteEvent(table: Table, columns: set<Column>, kind: EventKind)

  datatype ForeignKeyAction = NoAction | Restrict | Cascade | SetNull | SetDefault

  datatype ForeignKeyEdge = ForeignKeyEdge(
    childTable: Table, childColumns: set<Column>,
    parentTable: Table, parentColumns: set<Column>,
    onUpdate: ForeignKeyAction, onDelete: ForeignKeyAction)

  /** What the schema cache knows about the stable schema. */
  datatype SchemaCache = SchemaCache(
    tableColumns: map<Table, set<Column>>,
    keyColumnSets: map<Table, seq<set<Column>>>,
    integerPrimaryKey: map<Table, Column>,
    edges: seq<ForeignKeyEdge>)
  {
    /** No integer key is named like the wildcard. */
    predicate NamesColumns() {
      forall t :: t in integerPrimaryKey ==> integerPrimaryKey[t] != ALL_COLUMNS
    }

    /** The loaders drop key sets and edges without columns, and list every child table. */
    ghost predicate Valid() {
      && (forall t, i :: t in keyColumnSets && 0 <= i < |keyColumnSets[t]| ==> keyColumnSets[t][i] != {})
      && (forall i :: 0 <= i < |edges| ==>
            edges[i].childColumns != {} && edges[i].parentColumns != {} && edges[i].childTable in tableColumns)
    }
  }

  /** The statement-level reads and writes every static check works on. */
  datatype StatementMetadata = StatementMetadata(
    kind: StatementKind,
    tableUpdated: Option<Table>,
    columnsUpdated: set<Column>,
    explicitColumns: set<Column>,
    updated: ColumnMap,
    referenced: ColumnMap,
    events: seq<CascadeWriteEvent>,
    hasCascadeEffects: bool,
    reviewableResolution: bool)
  {
    predicate Writes(table: Table) {
      tableUpdated == Some(table)
    }

    /** Shape the metadata parser guarantees; `SqlMetadata.ParseStatementMetadata` establishes it. */
    ghost predicate Valid() {
      && (kind.OtherKind? <==> tableUpdated.None?)
      && (kind != UpdateKind ==> columnsUpdated == {ALL_COLUMNS})
      && (kind != UpdateKind && kind != DeleteKind ==> events == [] && !hasCascadeEffects)
      && (!hasCascadeEffects ==> events == [])
      && (forall e :: e in events && e.kind.DeleteEvent? ==> e.columns == {ALL_COLUMNS})
      && (tableUpdated.Some? ==> tableUpdated.value in updated)
      && (forall e :: e in events ==> e.columns != {} && e.table in updated)
      && (forall t, other :: WritesMeet(t, other))
    }

    /** The write map meets what the explicit write or one of the hidden writes meets. */
    ghost predicate WritesMeet(t: Table, other: set<Column>) {
      Overlaps(ColumnsOf(updated, t), other) <==>
        || (tableUpdated == Some(t) && Overlaps(columnsUpdated, other))
        || (exists e :: e in events && e.table == t && Overlaps(e.columns, other))
    }
  }

  datatype TransactionMetadata = TransactionMetadata(
    statements: seq<StatementMetadata>,
    updated: ColumnMap,
    referenced: ColumnMap,
    events: seq<CascadeWriteEvent>,
    hasCascadeEffects: bool)

  datatype ConflictKind = WriteWrite | WriteRead | ImplicitInsertKey | Integrity | ConstraintResolution | ReplayError

  /** One reported conflict; `cascade` marks static conflicts that rest on foreign-key effects. */
  datatype StatementConflict = StatementConflict(kind: ConflictKind, message: string, cascade: bool)

  /** A check result: its conflicts, those of one kind adjacent. */
  type ConflictCheckResult = seq<StatementConflict>

  predicate HasKind(result: ConflictCheckResult, kind: ConflictKind) {
    exists c :: c in result && c.kind == kind
  }

  function WithoutKind(result: ConflictCheckResult, kind: ConflictKind): (r: ConflictCheckResult)
    ensures forall c :: c in r <==> c in result && c.kind != kind
  {
    if result == [] then []
    else
      assert forall c :: c in result <==> c == result[0] || c in result[1..];
      (if result[0].kind == kind then [] else [result[0]]) + WithoutKind(result[1..], kind)
  }

  /** One logged statement; `sqlText` is the deterministic SQL used for analysis and replay. */
  datatype LoggedStatement = LoggedStatement(
    branchIndex: int,
    sqlText: string,
    isReplaySafe: bool,
    replayBlockReason: Option<string>,
    acceptedReplayWarnings: set<string>,
    metadata: StatementMetadata)

  datatype LoggedTransaction = LoggedTransaction(
    transactionId: int,
    statements: seq<LoggedStatement>,
    metadata: TransactionMetadata)

  datatype Branch = Ours | Theirs {
    function Opposite(): Branch {
      if Ours? then Theirs else Ours
    }
  }
}
