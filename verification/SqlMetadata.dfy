/** Statement and transaction metadata, with cascade effects folded in (src/merge/sql_metadata.py). */
module SqlMetadata {
  import opened Columns
  import opened Models
  import opened CascadeMetadata

  /** What the SQL parser finds in one statement, before foreign keys are considered. */
  datatype ParsedStatement = ParsedStatement(
    kind: StatementKind,
    target: Option<Table>,
    assignedColumns: set<Column>,
    explicitColumns: set<Column>,
    referenced: ColumnMap,
    reviewableResolution: bool)
  {
    /** DML names a target table, nothing else does. */
    predicate Valid() {
      kind.OtherKind? <==> target.None?
    }
  }

  /** Merge one table-to-column map into another. */
  method AddColumnsByTable(m: ColumnMap, extra: ColumnMap) returns (r: ColumnMap)
    ensures forall t, other ::
      Overlaps(ColumnsOf(r, t), other) <==> Overlaps(ColumnsOf(m, t), other) || Overlaps(ColumnsOf(extra, t), other)
    ensures r.Keys == m.Keys + set t | t in extra && extra[t] != {}
  {
    r := m;
    var todo := extra.Keys;
    while todo != {}
      invariant todo <= extra.Keys
      invariant forall t, other ::
        Overlaps(ColumnsOf(r, t), other) <==>
          Overlaps(ColumnsOf(m, t), other) || (t !in todo && Overlaps(ColumnsOf(extra, t), other))
      invariant r.Keys == m.Keys + set t | t in extra && extra[t] != {} && t !in todo
    {
      var t :| t in todo;
      forall u, other { AddColumnsMeets(r, t, extra[t], u, other); }
      r := AddColumns(r, t, extra[t]);
      todo := todo - {t};
    }
  }

  function UpdatedColumns(parsed: ParsedStatement): set<Column> {
    if parsed.kind.UpdateKind? then parsed.assignedColumns else {ALL_COLUMNS}
  }

  function InitialEvent(kind: StatementKind, table: Table, columns: set<Column>): CascadeWriteEvent {
    if kind.DeleteKind? then CascadeWriteEvent(table, {ALL_COLUMNS}, DeleteEvent)
    else CascadeWriteEvent(table, columns, UpdateEvent)
  }

  /** Every key a hidden event may touch and every column it reads shows in the metadata. */
  ghost predicate ShowsHidden(schema: SchemaCache, start: CascadeWriteEvent, events: seq<CascadeWriteEvent>, referenced: ColumnMap) {
    && (forall event, table, columns {:trigger EventMayRemoveOrChangeKey(event, table, columns), Hidden(schema.edges, start, event)}
              {:trigger EventMayCreateOrChangeKey(event, table, columns), Hidden(schema.edges, start, event)} ::
          Hidden(schema.edges, start, event) && columns != {} ==>
          && (EventMayCreateOrChangeKey(event, table, columns) ==> MayCreateKey(events, table, columns))
          && (EventMayRemoveOrChangeKey(event, table, columns) ==> MayRemoveKey(events, table, columns)))
    && (forall edge, other :: edge in schema.edges && Fires(schema.edges, start, edge) && Overlaps(edge.childColumns, other) ==>
          Overlaps(ColumnsOf(referenced, edge.childTable), other))
  }

  lemma EffectsShown(schema: SchemaCache, start: CascadeWriteEvent, effects: CascadeEffects)
    requires schema.Valid()
    requires ExactEffects(schema, start, effects) || UnknownEffects(schema, effects)
    ensures ShowsHidden(schema, start, effects.events, effects.referenced)
  {
    hide Hidden, ExactEffects, UnknownEffects, Fires, Overlaps, MayCreateKey, MayRemoveKey;
    forall event, table, columns | Hidden(schema.edges, start, event) && columns != {}
      ensures EventMayCreateOrChangeKey(event, table, columns) ==> MayCreateKey(effects.events, table, columns)
      ensures EventMayRemoveOrChangeKey(event, table, columns) ==> MayRemoveKey(effects.events, table, columns)
    {
      EffectsCover(schema, start, effects, event, table, columns);
    }
    forall edge, other | edge in schema.edges && Fires(schema.edges, start, edge) && Overlaps(edge.childColumns, other)
      ensures Overlaps(ColumnsOf(effects.referenced, edge.childTable), other)
    {
      ReadsCover(schema, start, effects, edge, other);
    }
  }

  lemma ShownMore(schema: SchemaCache, start: CascadeWriteEvent, events: seq<CascadeWriteEvent>, referenced: ColumnMap, more: ColumnMap)
    requires ShowsHidden(schema, start, events, referenced)
    requires forall t, other :: Overlaps(ColumnsOf(referenced, t), other) ==> Overlaps(ColumnsOf(more, t), other)
    ensures ShowsHidden(schema, start, events, more)
  {
    hide Hidden, Fires, Overlaps, MayCreateKey, MayRemoveKey, EventMayCreateOrChangeKey, EventMayRemoveOrChangeKey;
  }

  /** Shape of the event list: whole-row deletes, no empty write, and only tables the join has. */
  lemma EventsShape(schema: SchemaCache, start: CascadeWriteEvent, effects: CascadeEffects)
    requires schema.Valid()
    requires IsJoin(effects.updated, EventParts(effects.events))
    requires forall e :: e in effects.events ==> Hidden(schema.edges, start, e) || e == UnknownWrite(e.table)
    ensures forall e :: e in effects.events ==>
      e.columns != {} && e.table in effects.updated && effects.updated[e.table] != {} && (e.kind.DeleteEvent? ==> e.columns == {ALL_COLUMNS})
    ensures effects.updated == map[] ==> effects.events == []
  {
    hide Hidden;
    forall e | e in effects.events
      ensures e.columns != {} && e.table in effects.updated && effects.updated[e.table] != {} && (e.kind.DeleteEvent? ==> e.columns == {ALL_COLUMNS})
    {
      if Hidden(schema.edges, start, e) { HiddenOnChild(schema, start, e); }
      var c :| c in e.columns;
      assert Meets(c, {ALL_COLUMNS});
      assert Overlaps(e.columns, {ALL_COLUMNS});
      JoinMeets(effects.updated, effects.events, e.table, {ALL_COLUMNS});
    }
    assert effects.events != [] ==> effects.events[0] in effects.events;
  }

  /** The hidden events are exactly those listed, and nothing is read but what the text names and what
      foreign keys that fire look at. */
  ghost predicate ShowsNothingElse(schema: SchemaCache, start: CascadeWriteEvent, m: StatementMetadata, explicit: ColumnMap) {
    && (forall e :: e in m.events <==> Hidden(schema.edges, start, e))
    && (forall t, other :: ReadsExplained(schema, start, m, explicit, t, other))
  }

  ghost predicate ReadsExplained(schema: SchemaCache, start: CascadeWriteEvent, m: StatementMetadata, explicit: ColumnMap, t: Table, other: set<Column>) {
    Overlaps(ColumnsOf(m.referenced, t), other) <==>
      || Overlaps(ColumnsOf(explicit, t), other)
      || exists edge :: edge in schema.edges && Fires(schema.edges, start, edge) && edge.childTable == t && Overlaps(edge.childColumns, other)
  }

  lemma EffectsExplained(schema: SchemaCache, start: CascadeWriteEvent, effects: CascadeEffects, m: StatementMetadata, explicit: ColumnMap)
    requires schema.Valid() && ExactEffects(schema, start, effects) && m.events == effects.events
    requires forall t, other ::
      Overlaps(ColumnsOf(m.referenced, t), other) <==> Overlaps(ColumnsOf(explicit, t), other) || Overlaps(ColumnsOf(effects.referenced, t), other)
    ensures ShowsNothingElse(schema, start, m, explicit)
  {
    hide Hidden, Fires, Overlaps;
    forall t, other ensures ReadsExplained(schema, start, m, explicit, t, other) {
      if Overlaps(ColumnsOf(effects.referenced, t), other) { ReadsOnly(schema, start, effects, t, other); }
      forall edge | edge in schema.edges && Fires(schema.edges, start, edge) && Overlaps(edge.childColumns, other)
        ensures Overlaps(ColumnsOf(effects.referenced, edge.childTable), other)
      {
        ReadsCover(schema, start, effects, edge, other);
      }
    }
  }

  /** Metadata of one statement. UPDATE and DELETE carry their hidden foreign-key effects, exactly so unless the
      depth cut-off fired. */
  method ParseStatementMetadata(schema: SchemaCache, parsed: ParsedStatement) returns (m: StatementMetadata, ghost truncated: bool)
    requires schema.Valid() && parsed.Valid()
    ensures m.Valid()
    ensures m.kind == parsed.kind && m.tableUpdated == parsed.target
    ensures m.columnsUpdated == if parsed.kind.UpdateKind? then parsed.assignedColumns else {ALL_COLUMNS}
    ensures m.explicitColumns == parsed.explicitColumns && m.reviewableResolution == parsed.reviewableResolution
    ensures parsed.kind.UpdateKind? || parsed.kind.DeleteKind? ==>
      var start := InitialEvent(parsed.kind, parsed.target.value, m.columnsUpdated);
      ShowsHidden(schema, start, m.events, m.referenced) && (!truncated ==> ShowsNothingElse(schema, start, m, parsed.referenced))
    ensures truncated ==> |schema.edges| > 31
    ensures !parsed.kind.UpdateKind? && !parsed.kind.DeleteKind? ==> m.events == [] && m.referenced == parsed.referenced
    ensures forall t, other :: Overlaps(ColumnsOf(parsed.referenced, t), other) ==> Overlaps(ColumnsOf(m.referenced, t), other)
  {
    hide IsJoin, ExactEffects, UnknownEffects, Hidden, Fires, AddColumns, Overlaps, MayCreateKey, MayRemoveKey, ShowsNothingElse, ShowsHidden;
    truncated := false;
    var columns := UpdatedColumns(parsed);
    var updated: ColumnMap := if parsed.target.Some? then map[parsed.target.value := columns] else map[];
    ghost var initial := updated;
    var referenced := parsed.referenced;
    var effects := CascadeEffects(map[], map[], []);
    if parsed.kind.UpdateKind? || parsed.kind.DeleteKind? {
      var start := InitialEvent(parsed.kind, parsed.target.value, columns);
      effects, truncated := CascadeEffectsForEvent(schema, start);
      if effects.HasEffects() {
        updated := AddColumnsByTable(updated, effects.updated);
        referenced := AddColumnsByTable(referenced, effects.referenced);
      }
      EffectsShown(schema, start, effects);
      EventsShape(schema, start, effects);
      forall other { NothingOverlaps(other); }
      ShownMore(schema, start, effects.events, effects.referenced, referenced);
    }
    forall other { NothingOverlaps(other); }
    m := StatementMetadata(parsed.kind, parsed.target, columns, parsed.explicitColumns, updated, referenced,
      effects.events, effects.HasEffects(), parsed.reviewableResolution);
    forall t, other ensures m.WritesMeet(t, other) {
      assert ColumnsOf(initial, t) == if parsed.target == Some(t) then columns else {};
      if effects.HasEffects() { JoinMeets(effects.updated, effects.events, t, other); }
    }
    if (parsed.kind.UpdateKind? || parsed.kind.DeleteKind?) && !truncated {
      EffectsExplained(schema, InitialEvent(parsed.kind, parsed.target.value, columns), effects, m, parsed.referenced);
    }
  }

  lemma NothingOverlaps(other: set<Column>)
    ensures !Overlaps({}, other)
  {
  }

  // ----- transactions -----

  /** Plain union of two table-to-column maps. */
  function UnionMaps(left: ColumnMap, right: ColumnMap): ColumnMap {
    map t | t in left.Keys + right.Keys :: ColumnsOf(left, t) + ColumnsOf(right, t)
  }

  /** The aggregate of a transaction's statements. */
  function TransactionOf(statements: seq<StatementMetadata>): TransactionMetadata {
    if statements == [] then TransactionMetadata([], map[], map[], [], false)
    else
      var last := statements[|statements| - 1];
      var before := TransactionOf(statements[..|statements| - 1]);
      TransactionMetadata(
        statements,
        UnionMaps(before.updated, last.updated),
        UnionMaps(before.referenced, last.referenced),
        before.events + last.events,
        before.hasCascadeEffects || last.hasCascadeEffects)
  }

  method AggregateTransaction(statements: seq<StatementMetadata>) returns (r: TransactionMetadata)
    ensures r == TransactionOf(statements)
  {
    var updated: ColumnMap, referenced: ColumnMap, events, hasCascade := map[], map[], [], false;
    for i := 0 to |statements|
      invariant TransactionOf(statements[..i]) ==
        TransactionMetadata(statements[..i], updated, referenced, events, hasCascade)
    {
      PrefixSnoc(statements, i);
      updated := UnionMaps(updated, statements[i].updated);
      referenced := UnionMaps(referenced, statements[i].referenced);
      events := events + statements[i].events;
      hasCascade := hasCascade || statements[i].hasCascadeEffects;
    }
    assert statements[..|statements|] == statements;
    r := TransactionMetadata(statements, updated, referenced, events, hasCascade);
  }

  lemma SplitLast(statements: seq<StatementMetadata>)
    requires statements != []
    ensures forall s :: s in statements <==> s in statements[..|statements| - 1] || s == statements[|statements| - 1]
  {
  }

  lemma StatementsOf(statements: seq<StatementMetadata>)
    ensures TransactionOf(statements).statements == statements
  {
  }

  lemma {:induction false} EventOfTransaction(statements: seq<StatementMetadata>, e: CascadeWriteEvent)
    ensures e in TransactionOf(statements).events <==> exists s :: s in statements && e in s.events
  {
    if statements != [] {
      EventOfTransaction(statements[..|statements| - 1], e);
      SplitLast(statements);
    }
  }

  lemma {:induction false} CascadeOfTransaction(statements: seq<StatementMetadata>)
    ensures TransactionOf(statements).hasCascadeEffects <==>
      exists s :: s in statements && s.hasCascadeEffects
  {
    if statements != [] {
      CascadeOfTransaction(statements[..|statements| - 1]);
      SplitLast(statements);
    }
  }

  lemma {:induction false} UpdatedTableOfTransaction(statements: seq<StatementMetadata>, t: Table)
    ensures t in TransactionOf(statements).updated <==> exists s :: s in statements && t in s.updated
  {
    if statements != [] {
      UpdatedTableOfTransaction(statements[..|statements| - 1], t);
      SplitLast(statements);
    }
  }

  /** A transaction writes, and reads, what one of its statements writes, and reads. */
  lemma {:induction false} ColumnOfTransaction(statements: seq<StatementMetadata>, t: Table, c: Column)
    ensures c in ColumnsOf(TransactionOf(statements).updated, t) <==>
      exists s :: s in statements && c in ColumnsOf(s.updated, t)
    ensures c in ColumnsOf(TransactionOf(statements).referenced, t) <==>
      exists s :: s in statements && c in ColumnsOf(s.referenced, t)
  {
    if statements != [] {
      ColumnOfTransaction(statements[..|statements| - 1], t, c);
      SplitLast(statements);
    }
  }

  function Metadatas(statements: seq<LoggedStatement>): (r: seq<StatementMetadata>)
    ensures |r| == |statements| && forall i :: 0 <= i < |r| ==> r[i] == statements[i].metadata
  {
    if statements == [] then [] else [statements[0].metadata] + Metadatas(statements[1..])
  }

  /** A queued transaction: non-empty, valid statements, metadata aggregated from them. */
  ghost predicate ValidTransaction(tx: LoggedTransaction) {
    && tx.statements != []
    && tx.metadata == TransactionOf(Metadatas(tx.statements))
    && forall s :: s in tx.statements ==> s.metadata.Valid()
  }

  ghost predicate ValidQueue(queue: seq<LoggedTransaction>) {
    forall tx :: tx in queue ==> ValidTransaction(tx)
  }

  lemma MetadataMember(tx: LoggedTransaction, m: StatementMetadata)
    requires ValidTransaction(tx)
    ensures m in tx.metadata.statements <==> exists s :: s in tx.statements && s.metadata == m
    ensures m in tx.metadata.statements ==> m.Valid()
  {
    StatementsOf(Metadatas(tx.statements));
    if m in tx.metadata.statements {
      var i :| 0 <= i < |tx.statements| && tx.statements[i].metadata == m;
    }
  }

  // ----- unions -----

  lemma UnionAt(left: ColumnMap, right: ColumnMap, t: Table)
    ensures t in UnionMaps(left, right) <==> t in left || t in right
    ensures ColumnsOf(UnionMaps(left, right), t) == ColumnsOf(left, t) + ColumnsOf(right, t)
  {
  }

  lemma SameMap(a: ColumnMap, b: ColumnMap)
    requires forall t :: (t in a <==> t in b) && ColumnsOf(a, t) == ColumnsOf(b, t)
    ensures a == b
  {
    forall t | t in a ensures t in b && a[t] == b[t] { assert ColumnsOf(a, t) == ColumnsOf(b, t); }
    assert a.Keys == b.Keys;
  }

  lemma UnionOfNothing(columns: ColumnMap)
    ensures UnionMaps(map[], columns) == columns
  {
    hide UnionMaps;
    var u := UnionMaps(map[], columns);
    forall t ensures (t in u <==> t in columns) && ColumnsOf(u, t) == ColumnsOf(columns, t) { UnionAt(map[], columns, t); }
    SameMap(u, columns);
  }

  // ----- transactions of one UPDATE -----

  function UpdateOf(table: Table, column: Column, referenced: ColumnMap): StatementMetadata {
    StatementMetadata(UpdateKind, Some(table), {column}, {}, map[table := {column}], referenced, [], false, false)
  }

  function OneStatement(id: int, sql: string, m: StatementMetadata): LoggedTransaction {
    LoggedTransaction(id, [LoggedStatement(0, sql, true, None, {}, m)], TransactionMetadata([m], m.updated, m.referenced, m.events, m.hasCascadeEffects))
  }

  lemma UpdateIsValid(id: int, sql: string, table: Table, column: Column, referenced: ColumnMap)
    ensures UpdateOf(table, column, referenced).Valid() && ValidTransaction(OneStatement(id, sql, UpdateOf(table, column, referenced)))
  {
    var m := UpdateOf(table, column, referenced);
    var tx := OneStatement(id, sql, m);
    forall t, other ensures m.WritesMeet(t, other) {}
    assert Metadatas(tx.statements) == [m];
    assert [m][..0] == [];
    assert TransactionOf([]) == TransactionMetadata([], map[], map[], [], false);
    UnionOfNothing(m.updated);
    UnionOfNothing(referenced);
  }
}
