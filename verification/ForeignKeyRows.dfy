/** What foreign-key actions do to rows, and that the event closure covers it
    (src/merge/cascade_metadata.py:117-256). */
module ForeignKeyRows {
  import opened Columns
  import opened Models
  import opened Rows
  import opened CascadeMetadata

  // ----- changes of rows -----

  /** A row that was there: its new contents, or none when it goes. */
  datatype Change = Change(id: RowId, before: Row, after: Option<Row>)

  function CellIn(row: Row, c: Column): Option<SqlValue> {
    if c in row then Some(row[c]) else None
  }

  predicate Alters(before: Row, after: Row, c: Column) { CellIn(before, c) != CellIn(after, c) }

  predicate Lists(columns: set<Column>, c: Column) { ALL_COLUMNS in columns || c in columns }

  /** The event speaks of this change: rows go in delete events, and in update events listed columns change. */
  ghost predicate Covers(event: CascadeWriteEvent, change: Change) {
    && event.table == change.id.table
    && match change.after
       case None => event.kind.DeleteEvent?
       case Some(after) => event.kind.UpdateEvent? && forall c :: Alters(change.before, after, c) ==> Lists(event.columns, c)
  }

  // ----- foreign keys over rows -----

  /** Which parent column each child column refers to. */
  type Pairing = map<Column, Column>

  ghost predicate Pairs(edge: ForeignKeyEdge, pairing: Pairing) {
    && pairing.Keys == edge.childColumns && pairing.Values == edge.parentColumns
    && edge.parentColumns != {} && ALL_COLUMNS !in edge.parentColumns
  }

  predicate Refers(pairing: Pairing, child: Row, parent: Row) {
    forall c :: c in pairing ==> c in child && child[c] != Null && pairing[c] in parent && parent[pairing[c]] == child[c]
  }

  /** What happens to a child row: nothing, it goes, or cells are assigned. */
  datatype ChildWrite = Untouched | Removed | Assigned(cells: Row)

  /** The five actions, as SQLite documents them, for a parent row that goes or gets new contents. */
  function Act(action: ForeignKeyAction, pairing: Pairing, defaults: Row, parent: Option<Row>): ChildWrite {
    match action
    case NoAction => Untouched
    case Restrict => Untouched
    case SetNull => Assigned(map c | c in pairing :: Null)
    case SetDefault => Assigned(map c | c in pairing :: if c in defaults then defaults[c] else Null)
    case Cascade =>
      match parent
      case None => Removed
      case Some(row) => Assigned(map c | c in pairing :: if pairing[c] in row then row[pairing[c]] else Null)
  }

  /** The parent row goes, or a referenced column of it changes: the edge has to be looked after. */
  predicate Concerned(edge: ForeignKeyEdge, change: Change) {
    && change.id.table == edge.parentTable
    && (change.after.None? || exists c :: c in edge.parentColumns && Alters(change.before, change.after.value, c))
  }

  function WriteOf(edge: ForeignKeyEdge, pairing: Pairing, defaults: Row, change: Change, child: Row): ChildWrite {
    if Concerned(edge, change) && Refers(pairing, child, change.before) then
      Act(if change.after.None? then edge.onDelete else edge.onUpdate, pairing, defaults, change.after)
    else Untouched
  }

  /** Some change the event covers makes the edge write some child row. */
  ghost predicate WritesChild(edge: ForeignKeyEdge, pairing: Pairing, event: CascadeWriteEvent) {
    exists defaults, change, child :: Covers(event, change) && WriteOf(edge, pairing, defaults, change, child) != Untouched
  }

  ghost predicate ConcernsEdge(edge: ForeignKeyEdge, event: CascadeWriteEvent) {
    exists change :: Covers(event, change) && Concerned(edge, change)
  }

  // ----- one edge -----

  lemma ListedOverlaps(columns: set<Column>, key: set<Column>, c: Column)
    requires Lists(columns, c) && c in key
    ensures Overlaps(columns, key)
  {
    if ALL_COLUMNS in columns { assert Meets(ALL_COLUMNS, key); } else { assert Meets(c, key); }
  }

  lemma OverlapListed(columns: set<Column>, key: set<Column>) returns (c: Column)
    requires Overlaps(columns, key) && ALL_COLUMNS !in key
    ensures Lists(columns, c) && c in key
  {
    var d :| d in columns && Meets(d, key);
    if d == ALL_COLUMNS { c :| c in key; } else { c := d; }
  }

  /** A parent row of the edge that changes as the event says, and a child row that refers to it. */
  lemma SomeChange(edge: ForeignKeyEdge, pairing: Pairing, event: CascadeWriteEvent) returns (change: Change, child: Row)
    requires Pairs(edge, pairing) && Triggers(edge, event)
    ensures Covers(event, change) && Concerned(edge, change) && Refers(pairing, child, change.before)
    ensures change.after.None? <==> event.kind.DeleteEvent?
  {
    var before: Row := map c | c in edge.parentColumns :: Val(0);
    child := map c | c in pairing :: Val(0);
    forall c | c in pairing ensures pairing[c] in before { assert pairing[c] in pairing.Values; }
    if event.kind.DeleteEvent? {
      change := Change(RowId(edge.parentTable, []), before, None);
    } else {
      var c := OverlapListed(event.columns, edge.parentColumns);
      change := Change(RowId(edge.parentTable, []), before, Some(before[c := Val(1)]));
      assert Alters(before, change.after.value, c);
    }
  }

  /** The edge is looked after exactly when the code counts it as triggered. */
  lemma TriggersExact(edge: ForeignKeyEdge, pairing: Pairing, event: CascadeWriteEvent)
    requires Pairs(edge, pairing)
    ensures Triggers(edge, event) <==> ConcernsEdge(edge, event)
  {
    if Triggers(edge, event) { var change, child := SomeChange(edge, pairing, event); }
    forall change | Covers(event, change) && Concerned(edge, change) ensures Triggers(edge, event) {
      if change.after.Some? {
        var c :| c in edge.parentColumns && Alters(change.before, change.after.value, c);
        ListedOverlaps(event.columns, edge.parentColumns, c);
      }
    }
  }

  /** What the child event says of the rows the edge writes. */
  ghost predicate Describes(edge: ForeignKeyEdge, child: CascadeWriteEvent, w: ChildWrite) {
    && child.table == edge.childTable
    && (child.kind.DeleteEvent? <==> w.Removed?)
    && child.columns == if w.Assigned? then w.cells.Keys else {ALL_COLUMNS}
  }

  /** Every write is described by the child event. */
  lemma ChildEventDescribes(
    edge: ForeignKeyEdge, pairing: Pairing, event: CascadeWriteEvent, defaults: Row, change: Change, child: Row)
    requires Pairs(edge, pairing) && Covers(event, change)
    requires WriteOf(edge, pairing, defaults, change, child) != Untouched
    ensures ChildOf(edge, event).Some? && Describes(edge, ChildOf(edge, event).value, WriteOf(edge, pairing, defaults, change, child))
  {
    hide Covers, Refers;
    TriggersExact(edge, pairing, event);
    CoversKind(event, change);
    assert Triggers(edge, event);
    ActCells(edge.onDelete, pairing, defaults, change.after);
    ActCells(edge.onUpdate, pairing, defaults, change.after);
  }

  lemma CoversKind(event: CascadeWriteEvent, change: Change)
    requires Covers(event, change)
    ensures event.kind.DeleteEvent? <==> change.after.None?
  {
  }

  lemma ActCells(action: ForeignKeyAction, pairing: Pairing, defaults: Row, parent: Option<Row>)
    ensures var w := Act(action, pairing, defaults, parent); w.Assigned? ==> w.cells.Keys == pairing.Keys
  {
  }

  /** For every edge and event: there is a child event exactly when some covered change writes some child row; it is
      about the child table, it is a delete exactly when rows go, and it lists exactly the cells that are assigned. */
  lemma ChildEventExact(edge: ForeignKeyEdge, pairing: Pairing, event: CascadeWriteEvent)
    requires Pairs(edge, pairing)
    ensures ChildOf(edge, event).Some? <==> WritesChild(edge, pairing, event)
    ensures forall defaults, change, child ::
      Covers(event, change) && WriteOf(edge, pairing, defaults, change, child) != Untouched ==>
        ChildOf(edge, event).Some? && Describes(edge, ChildOf(edge, event).value, WriteOf(edge, pairing, defaults, change, child))
  {
    hide Covers, Describes, WriteOf, ChildOf;
    forall defaults, change, child | Covers(event, change) && WriteOf(edge, pairing, defaults, change, child) != Untouched
      ensures ChildOf(edge, event).Some? && Describes(edge, ChildOf(edge, event).value, WriteOf(edge, pairing, defaults, change, child))
    {
      ChildEventDescribes(edge, pairing, event, defaults, change, child);
    }
    if ChildOf(edge, event).Some? { ChildEventOccurs(edge, pairing, event); }
  }

  lemma ChildEventOccurs(edge: ForeignKeyEdge, pairing: Pairing, event: CascadeWriteEvent)
    requires Pairs(edge, pairing) && ChildOf(edge, event).Some?
    ensures WritesChild(edge, pairing, event)
  {
    hide Covers, Refers, Concerned;
    var change, child := SomeChange(edge, pairing, event);
    assert WriteOf(edge, pairing, map[], change, child) != Untouched;
  }

  // ----- chains of hidden changes -----

  /** The change one edge makes to a child row because of a parent row's change. */
  ghost predicate Follows(edge: ForeignKeyEdge, pairing: Pairing, defaults: Row, parent: Change, change: Change) {
    && change.id.table == edge.childTable
    && match WriteOf(edge, pairing, defaults, parent, change.before)
       case Untouched => false
       case Removed => change.after.None?
       case Assigned(cells) => change.after == Some(change.before + cells)
  }

  /** A row change `n` foreign-key actions after one the statement makes itself. */
  ghost predicate HiddenChange(edges: seq<ForeignKeyEdge>, start: CascadeWriteEvent, change: Change, n: nat)
    decreases n
  {
    if n == 0 then Covers(start, change)
    else exists parent, edge, pairing, defaults ::
      && HiddenChange(edges, start, parent, n - 1) && edge in edges && Pairs(edge, pairing)
      && Follows(edge, pairing, defaults, parent, change)
  }

  lemma FollowsCovered(edge: ForeignKeyEdge, pairing: Pairing, defaults: Row, event: CascadeWriteEvent, parent: Change, change: Change)
    requires Pairs(edge, pairing) && Covers(event, parent) && Follows(edge, pairing, defaults, parent, change)
    ensures ChildOf(edge, event).Some? && Covers(ChildOf(edge, event).value, change)
  {
    hide WriteOf, ChildOf, Pairs;
    ChildEventDescribes(edge, pairing, event, defaults, parent, change.before);
  }

  /** Every hidden row change is covered by an event the same number of steps away. */
  lemma {:induction false} HiddenChangeCovered(edges: seq<ForeignKeyEdge>, start: CascadeWriteEvent, change: Change, n: nat)
    returns (event: CascadeWriteEvent)
    requires HiddenChange(edges, start, change, n)
    ensures ReachableIn(edges, start, event, n) && Covers(event, change)
    decreases n
  {
    hide Covers, Follows, Pairs;
    if n == 0 {
      event := start;
    } else {
      var parent, edge, pairing, defaults :|
        && HiddenChange(edges, start, parent, n - 1) && edge in edges && Pairs(edge, pairing)
        && Follows(edge, pairing, defaults, parent, change);
      var above := HiddenChangeCovered(edges, start, parent, n - 1);
      FollowsCovered(edge, pairing, defaults, above, parent, change);
      event := ChildOf(edge, above).value;
      assert Succ(edges, above, event);
    }
  }

  /** The columns written say so: the whole row when it goes, else each column that changes. */
  ghost predicate Shown(updated: ColumnMap, change: Change) {
    match change.after
    case None => ALL_COLUMNS in ColumnsOf(updated, change.id.table)
    case Some(after) => forall c :: Alters(change.before, after, c) ==> Lists(ColumnsOf(updated, change.id.table), c)
  }

  /** Truncated or not, the effects computed for an event show every row change foreign keys make after it; not
      truncated, one of the listed events covers it. */
  lemma EffectsCoverRows(schema: SchemaCache, start: CascadeWriteEvent, effects: CascadeEffects, change: Change, n: nat)
    requires schema.Valid() && (ExactEffects(schema, start, effects) || UnknownEffects(schema, effects))
    requires n > 0 && HiddenChange(schema.edges, start, change, n)
    ensures Shown(effects.updated, change)
    ensures ExactEffects(schema, start, effects) ==> exists event :: event in effects.events && Covers(event, change)
  {
    hide HiddenChange, UnknownEffects;
    var event := HiddenChangeCovered(schema.edges, start, change, n);
    assert Hidden(schema.edges, start, event);
    HiddenOnChild(schema, start, event);
    if ExactEffects(schema, start, effects) {
      forall c | Lists(event.columns, c) ensures Lists(ColumnsOf(effects.updated, event.table), c) {
        EventListed(schema, start, effects, event, c);
      }
      if change.after.None? { EventListed(schema, start, effects, event, ALL_COLUMNS); }
    } else {
      UnknownShows(schema, effects, event.table);
    }
  }

  lemma EventListed(schema: SchemaCache, start: CascadeWriteEvent, effects: CascadeEffects, event: CascadeWriteEvent, c: Column)
    requires ExactEffects(schema, start, effects) && Hidden(schema.edges, start, event) && Lists(event.columns, c)
    ensures Lists(ColumnsOf(effects.updated, event.table), c)
  {
    hide Hidden;
    assert ALL_COLUMNS in event.columns ==> WritesColumn(schema.edges, start, event.table, ALL_COLUMNS);
    assert c in event.columns ==> WritesColumn(schema.edges, start, event.table, c);
  }

  lemma UnknownShows(schema: SchemaCache, effects: CascadeEffects, t: Table)
    requires UnknownEffects(schema, effects) && t in schema.tableColumns
    ensures ColumnsOf(effects.updated, t) == {ALL_COLUMNS}
  {
  }
}
