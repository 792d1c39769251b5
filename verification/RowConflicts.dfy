/** What the static checks promise about rows: constraints that two transactions keep alone and break together, and
    rows both write (src/merge/static_analysis.py:201-430). */
module RowConflicts {
  import opened Columns
  import opened Models
  import opened Rows
  import opened CascadeMetadata
  import opened ForeignKeyRows
  import opened SqlMetadata
  import opened StaticAnalysis

  // ----- what a transaction does to rows -----

  /** One row inserted, changed or deleted. */
  datatype Step = Step(id: RowId, before: Option<Row>, after: Option<Row>)

  /** What the statement's text does: rows of its table, as its kind says, and only the columns it lists. */
  ghost predicate ExplicitStep(m: StatementMetadata, step: Step) {
    && m.tableUpdated == Some(step.id.table)
    && match m.kind
       case InsertKind => step.before.None? && step.after.Some?
       case DeleteKind => step.before.Some? && step.after.None?
       case UpdateKind => step.before.Some? && step.after.Some?
                          && forall c :: Alters(step.before.value, step.after.value, c) ==> Lists(m.columnsUpdated, c)
       case OtherKind => false
  }

  /** What foreign keys do because of it. */
  ghost predicate HiddenStep(schema: SchemaCache, m: StatementMetadata, step: Step) {
    && (m.kind.UpdateKind? || m.kind.DeleteKind?) && m.tableUpdated.Some? && step.before.Some?
    && exists n: nat :: n > 0 &&
         HiddenChange(schema.edges, InitialEvent(m.kind, m.tableUpdated.value, m.columnsUpdated), Change(step.id, step.before.value, step.after), n)
  }

  /** Foreign keys start from what the statement itself does to rows, no more and no less. */
  lemma InitialEventExact(m: StatementMetadata, change: Change)
    requires (m.kind.UpdateKind? || m.kind.DeleteKind?) && m.tableUpdated.Some?
    ensures Covers(InitialEvent(m.kind, m.tableUpdated.value, m.columnsUpdated), change) <==>
      ExplicitStep(m, Step(change.id, Some(change.before), change.after))
  {
  }

  ghost predicate StatementStep(schema: SchemaCache, m: StatementMetadata, step: Step) {
    ExplicitStep(m, step) || HiddenStep(schema, m, step)
  }

  /** Metadata as the parser makes it. */
  ghost predicate Parsed(schema: SchemaCache, m: StatementMetadata) {
    && m.Valid()
    && (m.kind.UpdateKind? || m.kind.DeleteKind? ==>
          ShowsHidden(schema, InitialEvent(m.kind, m.tableUpdated.value, m.columnsUpdated), m.events, m.referenced))
  }

  ghost predicate ParsedTransaction(schema: SchemaCache, tx: LoggedTransaction) {
    ValidTransaction(tx) && forall m :: m in tx.metadata.statements ==> Parsed(schema, m)
  }

  function Put(s: Snapshot, id: RowId, row: Option<Row>): Snapshot {
    if row.Some? then s[id := row.value] else s - {id}
  }

  /** The transaction's statements, and the foreign keys behind them, take `before` to `after` in these steps. */
  ghost predicate Runs(schema: SchemaCache, tx: TransactionMetadata, steps: seq<Step>, before: Snapshot, after: Snapshot) {
    if steps == [] then after == before
    else
      var last := steps[|steps| - 1];
      exists middle, m ::
        && Runs(schema, tx, steps[..|steps| - 1], before, middle)
        && m in tx.statements && StatementStep(schema, m, last) && At(middle, last.id) == last.before && after == Put(middle, last.id, last.after)
  }

  // ----- values of a key -----

  /** What a row has in some columns, if it is there. */
  function KeyAt(s: Snapshot, id: RowId, key: set<Column>): Option<Row> {
    if id in s then Some(map c | c in key && c in s[id] :: s[id][c]) else None
  }

  lemma SameKeyAt(s: Snapshot, u: Snapshot, id: RowId, key: set<Column>)
    requires id in s && id in u && forall c :: c in key ==> !Alters(s[id], u[id], c)
    ensures KeyAt(s, id, key) == KeyAt(u, id, key)
  {
    var a, b := KeyAt(s, id, key).value, KeyAt(u, id, key).value;
    forall c | c in key ensures (c in a <==> c in b) && (c in a ==> a[c] == b[c]) {
      assert CellIn(s[id], c) == CellIn(u[id], c);
    }
    assert a.Keys == b.Keys;
    assert forall c :: c in a ==> a[c] == b[c];
    assert a == b;
  }

  lemma KeyAtAlters(s: Snapshot, u: Snapshot, id: RowId, key: set<Column>)
    requires id in s && id in u && KeyAt(s, id, key) != KeyAt(u, id, key)
    ensures exists c :: c in key && Alters(s[id], u[id], c)
  {
    hide KeyAt, Alters;
    if forall c :: c in key ==> !Alters(s[id], u[id], c) { SameKeyAt(s, u, id, key); }
  }

  /** The step gives the row other values in the key. */
  ghost predicate Creates(step: Step, key: set<Column>) {
    step.after.Some? && (step.before.None? || exists c :: c in key && Alters(step.before.value, step.after.value, c))
  }

  /** The row loses the values it had there. */
  ghost predicate Removes(step: Step, key: set<Column>) {
    step.before.Some? && (step.after.None? || exists c :: c in key && Alters(step.before.value, step.after.value, c))
  }

  /** A hidden step is covered by an event the closure holds. */
  lemma HiddenStepEvent(schema: SchemaCache, m: StatementMetadata, step: Step) returns (event: CascadeWriteEvent)
    requires HiddenStep(schema, m, step)
    ensures (m.kind.UpdateKind? || m.kind.DeleteKind?) && m.tableUpdated.Some? && step.before.Some?
    ensures Hidden(schema.edges, InitialEvent(m.kind, m.tableUpdated.value, m.columnsUpdated), event)
    ensures Covers(event, Change(step.id, step.before.value, step.after))
  {
    var start, change := InitialEvent(m.kind, m.tableUpdated.value, m.columnsUpdated), Change(step.id, step.before.value, step.after);
    var n: nat :| n > 0 && HiddenChange(schema.edges, start, change, n);
    event := HiddenChangeCovered(schema.edges, start, change, n);
  }

  lemma ListedMeets(columns: set<Column>, key: set<Column>, c: Column)
    requires Lists(columns, c) && c in key
    ensures ColumnOverlap(columns, key) != {}
  {
    ListedOverlaps(columns, key, c);
  }

  /** A step that creates key values is counted as creating the key. */
  lemma CreatesCounted(schema: SchemaCache, m: StatementMetadata, step: Step, key: set<Column>)
    requires Parsed(schema, m) && StatementStep(schema, m, step) && Creates(step, key) && key != {}
    ensures StatementMayCreateKey(m, step.id.table, key) || MayCreateKey(m.events, step.id.table, key)
  {
    hide Hidden, HiddenStep, ColumnOverlap, StatementMetadata.Valid;
    if ExplicitStep(m, step) {
      if step.before.Some? {
        var c :| c in key && Alters(step.before.value, step.after.value, c);
        ListedMeets(m.columnsUpdated, key, c);
      }
    } else {
      var event := HiddenStepEvent(schema, m, step);
      var c :| c in key && Alters(step.before.value, step.after.value, c);
      ListedMeets(event.columns, key, c);
      assert EventMayCreateOrChangeKey(event, step.id.table, key);
    }
  }

  /** A step that removes key values is counted as removing the key. */
  lemma RemovesCounted(schema: SchemaCache, m: StatementMetadata, step: Step, key: set<Column>)
    requires Parsed(schema, m) && StatementStep(schema, m, step) && Removes(step, key) && key != {}
    ensures StatementMayRemoveKey(m, step.id.table, key) || MayRemoveKey(m.events, step.id.table, key)
  {
    hide Hidden, HiddenStep, ColumnOverlap, StatementMetadata.Valid;
    if ExplicitStep(m, step) {
      if step.after.Some? {
        var c :| c in key && Alters(step.before.value, step.after.value, c);
        ListedMeets(m.columnsUpdated, key, c);
      }
    } else {
      var event := HiddenStepEvent(schema, m, step);
      if step.after.Some? {
        var c :| c in key && Alters(step.before.value, step.after.value, c);
        ListedMeets(event.columns, key, c);
      }
      assert EventMayRemoveOrChangeKey(event, step.id.table, key);
    }
  }

  // ----- what a whole transaction does to a key -----

  lemma StepCreates(middle: Snapshot, after: Snapshot, step: Step, id: RowId, key: set<Column>)
    requires At(middle, step.id) == step.before && after == Put(middle, step.id, step.after)
    requires KeyAt(middle, id, key) != KeyAt(after, id, key)
    ensures step.id == id && (id in after ==> Creates(step, key)) && (id in middle ==> Removes(step, key))
  {
    hide KeyAt, Alters;
    if step.id != id {
      UntouchedKey(middle, after, id, key);
    } else if id in middle && id in after {
      KeyAtAlters(middle, after, id, key);
    }
  }

  lemma UntouchedKey(s: Snapshot, u: Snapshot, id: RowId, key: set<Column>)
    requires At(s, id) == At(u, id)
    ensures KeyAt(s, id, key) == KeyAt(u, id, key)
  {
  }

  lemma KeyThere(s: Snapshot, id: RowId, key: set<Column>)
    ensures KeyAt(s, id, key).Some? <==> id in s
  {
  }

  /** A row that ends with other key values than it began with, or is new: the transaction may create the key. */
  lemma {:induction false} RunCreates(schema: SchemaCache, tx: LoggedTransaction, steps: seq<Step>, before: Snapshot, after: Snapshot, id: RowId, key: set<Column>)
    requires ParsedTransaction(schema, tx) && Runs(schema, tx.metadata, steps, before, after) && key != {}
    requires id in after && KeyAt(after, id, key) != KeyAt(before, id, key)
    ensures TransactionMayCreateKey(tx.metadata, id.table, key)
  {
    hide KeyAt, StatementStep, ValidTransaction, Creates, Removes, StatementMayCreateKey, EventMayCreateOrChangeKey;
    if steps != [] {
      var init, last := steps[..|steps| - 1], steps[|steps| - 1];
      var middle, m :|
        && Runs(schema, tx.metadata, init, before, middle)
        && m in tx.metadata.statements && StatementStep(schema, m, last) && At(middle, last.id) == last.before && after == Put(middle, last.id, last.after);
      if KeyAt(middle, id, key) == KeyAt(after, id, key) {
        KeyThere(middle, id, key);
        KeyThere(after, id, key);
        RunCreates(schema, tx, init, before, middle, id, key);
      } else {
        StepCreates(middle, after, last, id, key);
        CreatesCounted(schema, m, last, key);
        OfStatement(tx, m, id.table, key);
      }
    }
  }

  /** A row that had key values and ends without them: the transaction may remove the key. */
  lemma {:induction false} RunRemoves(schema: SchemaCache, tx: LoggedTransaction, steps: seq<Step>, before: Snapshot, after: Snapshot, id: RowId, key: set<Column>)
    requires ParsedTransaction(schema, tx) && Runs(schema, tx.metadata, steps, before, after) && key != {}
    requires id in before && KeyAt(after, id, key) != KeyAt(before, id, key)
    ensures TransactionMayRemoveKey(tx.metadata, id.table, key)
  {
    hide KeyAt, StatementStep, ValidTransaction, Creates, Removes, StatementMayRemoveKey, EventMayRemoveOrChangeKey;
    if steps != [] {
      var init, last := steps[..|steps| - 1], steps[|steps| - 1];
      var middle, m :|
        && Runs(schema, tx.metadata, init, before, middle)
        && m in tx.metadata.statements && StatementStep(schema, m, last) && At(middle, last.id) == last.before && after == Put(middle, last.id, last.after);
      if KeyAt(middle, id, key) != KeyAt(before, id, key) {
        RunRemoves(schema, tx, init, before, middle, id, key);
      } else {
        KeyThere(middle, id, key);
        KeyThere(before, id, key);
        StepCreates(middle, after, last, id, key);
        RemovesCounted(schema, m, last, key);
        OfStatement(tx, m, id.table, key);
      }
    }
  }

  lemma OfStatement(tx: LoggedTransaction, m: StatementMetadata, t: Table, key: set<Column>)
    requires ValidTransaction(tx) && m in tx.metadata.statements
    ensures StatementMayCreateKey(m, t, key) || MayCreateKey(m.events, t, key) ==> TransactionMayCreateKey(tx.metadata, t, key)
    ensures StatementMayRemoveKey(m, t, key) || MayRemoveKey(m.events, t, key) ==> TransactionMayRemoveKey(tx.metadata, t, key)
  {
    hide StatementMayCreateKey, StatementMayRemoveKey, EventMayCreateOrChangeKey, EventMayRemoveOrChangeKey, StatementMetadata.Valid;
    StatementsOf(Metadatas(tx.statements));
    forall e | e in m.events ensures e in tx.metadata.events { EventOfTransaction(Metadatas(tx.statements), e); }
  }

  // ----- constraints -----

  /** Every child row with no NULL in the key refers to some parent row. */
  ghost predicate EdgeHolds(edge: ForeignKeyEdge, pairing: Pairing, s: Snapshot) {
    forall id :: id in s && id.table == edge.childTable && NoNull(s[id], edge.childColumns) ==> HasParent(edge, pairing, s, s[id])
  }

  ghost predicate HasParent(edge: ForeignKeyEdge, pairing: Pairing, s: Snapshot, child: Row) {
    exists q :: IsParent(edge, pairing, s, child, q)
  }

  ghost predicate IsParent(edge: ForeignKeyEdge, pairing: Pairing, s: Snapshot, child: Row, q: RowId) {
    q in s && q.table == edge.parentTable && Refers(pairing, child, s[q])
  }

  /** UNIQUE over the columns. */
  ghost predicate UniqueOn(s: Snapshot, t: Table, key: set<Column>) {
    forall p, q :: p in s && q in s && p.table == q.table == t && Meet(s[p], s[q], key) ==> p == q
  }

  /** One side's change of a row's key stands where the other side left it alone; a row that one side removed and the
      other changed is gone. */
  ghost predicate Combines(base: Snapshot, a: Snapshot, b: Snapshot, both: Snapshot, t: Table, key: set<Column>) {
    forall id: RowId :: id.table == t ==> CombinesAt(base, a, b, both, id, key)
  }

  ghost predicate CombinesAt(base: Snapshot, a: Snapshot, b: Snapshot, both: Snapshot, id: RowId, key: set<Column>) {
    && (KeyAt(b, id, key) == KeyAt(base, id, key) ==> KeyAt(both, id, key) == KeyAt(a, id, key))
    && (KeyAt(a, id, key) == KeyAt(base, id, key) ==> KeyAt(both, id, key) == KeyAt(b, id, key))
    && (KeyAt(a, id, key) != KeyAt(base, id, key) && KeyAt(b, id, key) != KeyAt(base, id, key) && id in both ==> id in a && id in b)
  }

  /** No row's key was changed by both, unless alike. */
  ghost predicate NotBoth(base: Snapshot, a: Snapshot, b: Snapshot, both: Snapshot, t: Table, key: set<Column>) {
    forall id: RowId :: id.table == t ==> NotBothAt(base, a, b, both, id, key)
  }

  ghost predicate NotBothAt(base: Snapshot, a: Snapshot, b: Snapshot, both: Snapshot, id: RowId, key: set<Column>) {
    || KeyAt(a, id, key) == KeyAt(base, id, key) || KeyAt(b, id, key) == KeyAt(base, id, key)
    || KeyAt(a, id, key) == KeyAt(b, id, key) == KeyAt(both, id, key)
  }

  /** Rows with the same key values meet and refer alike. */
  lemma SameKeyMeets(s: Snapshot, u: Snapshot, p: RowId, q: RowId, p': RowId, q': RowId, key: set<Column>)
    requires p in s && q in s && KeyAt(s, p, key) == KeyAt(u, p', key) && KeyAt(s, q, key) == KeyAt(u, q', key)
    requires Meet(s[p], s[q], key)
    ensures p' in u && q' in u && Meet(u[p'], u[q'], key)
  {
    KeyCells(s, u, p, p', key);
    KeyCells(s, u, q, q', key);
  }

  lemma KeyCells(s: Snapshot, u: Snapshot, id: RowId, other: RowId, key: set<Column>)
    requires id in s && KeyAt(s, id, key) == KeyAt(u, other, key)
    ensures other in u && forall c :: c in key ==> CellIn(s[id], c) == CellIn(u[other], c)
  {
    var a, b := KeyAt(s, id, key).value, KeyAt(u, other, key).value;
    forall c | c in key ensures CellIn(s[id], c) == CellIn(u[other], c) {
      assert c in a <==> c in s[id];
      assert c in b <==> c in u[other];
    }
  }

  lemma SameKeyRefers(edge: ForeignKeyEdge, pairing: Pairing, s: Snapshot, u: Snapshot, id: RowId, id': RowId, q: RowId, q': RowId)
    requires Pairs(edge, pairing)
    requires id in s && q in s && KeyAt(s, id, edge.childColumns) == KeyAt(u, id', edge.childColumns)
    requires KeyAt(s, q, edge.parentColumns) == KeyAt(u, q', edge.parentColumns) && Refers(pairing, s[id], s[q])
    ensures id' in u && q' in u && Refers(pairing, u[id'], u[q'])
  {
    KeyCells(s, u, id, id', edge.childColumns);
    KeyCells(s, u, q, q', edge.parentColumns);
    forall c | c in pairing ensures c in u[id'] && u[id'][c] != Null && pairing[c] in u[q'] && u[q'][pairing[c]] == u[id'][c] {
      assert CellIn(s[id], c) == CellIn(u[id'], c);
      assert pairing[c] in pairing.Values;
      assert CellIn(s[q], pairing[c]) == CellIn(u[q'], pairing[c]);
    }
  }

  // ----- soundness -----

  /** Two transactions run from one base, each on its own. */
  datatype Apart = Apart(
    base: Snapshot, x: LoggedTransaction, xSteps: seq<Step>, a: Snapshot, y: LoggedTransaction, ySteps: seq<Step>, b: Snapshot)
  {
    ghost predicate Valid(schema: SchemaCache) {
      && schema.Valid() && ParsedTransaction(schema, x) && ParsedTransaction(schema, y)
      && Runs(schema, x.metadata, xSteps, base, a) && Runs(schema, y.metadata, ySteps, base, b)
    }

    function Swapped(): Apart { Apart(base, y, ySteps, b, x, xSteps, a) }
  }

  /** UNIQUE: if each alone keeps a key and both together break it, the pair is flagged for it. */
  lemma UniqueSound(schema: SchemaCache, p: Apart, both: Snapshot, t: Table, key: set<Column>)
    requires p.Valid(schema) && t in schema.keyColumnSets && key in schema.keyColumnSets[t]
    requires Combines(p.base, p.a, p.b, both, t, key)
    requires UniqueOn(p.a, t, key) && UniqueOn(p.b, t, key) && !UniqueOn(both, t, key)
    ensures KeyConflictPossible(schema, p.x.metadata, p.y.metadata)
  {
    hide KeyAt, Runs, ParsedTransaction, TransactionMayCreateKey, Meet;
    var i :| 0 <= i < |schema.keyColumnSets[t]| && schema.keyColumnSets[t][i] == key;
    var r, q :| r in both && q in both && r.table == q.table == t && Meet(both[r], both[q], key) && r != q;
    assert CombinesAt(p.base, p.a, p.b, both, r, key) && CombinesAt(p.base, p.a, p.b, both, q, key);
    if KeyAt(p.a, r, key) == KeyAt(p.base, r, key) && KeyAt(p.a, q, key) == KeyAt(p.base, q, key) {
      SameKeyMeets(both, p.b, r, q, r, q, key);
      assert false;
    } else if KeyAt(p.b, r, key) == KeyAt(p.base, r, key) && KeyAt(p.b, q, key) == KeyAt(p.base, q, key) {
      SameKeyMeets(both, p.a, r, q, r, q, key);
      assert false;
    } else {
      var mine := if KeyAt(p.a, r, key) != KeyAt(p.base, r, key) then r else q;
      var theirs := if KeyAt(p.b, r, key) != KeyAt(p.base, r, key) then r else q;
      KeysThere(p, both, mine, key);
      KeysThere(p, both, theirs, key);
      RunCreates(schema, p.x, p.xSteps, p.base, p.a, mine, key);
      RunCreates(schema, p.y, p.ySteps, p.base, p.b, theirs, key);
    }
  }

  lemma KeysThere(p: Apart, both: Snapshot, id: RowId, key: set<Column>)
    requires CombinesAt(p.base, p.a, p.b, both, id, key) && id in both
    ensures KeyAt(p.a, id, key) != KeyAt(p.base, id, key) ==> id in p.a
    ensures KeyAt(p.b, id, key) != KeyAt(p.base, id, key) ==> id in p.b
  {
  }

  /** Where `x` alone gave the child row its key and both together leave it without a parent, `y` took the parent away. */
  lemma ParentTaken(schema: SchemaCache, p: Apart, both: Snapshot, edge: ForeignKeyEdge, pairing: Pairing, id: RowId) returns (q: RowId)
    requires p.Valid(schema) && edge in schema.edges && Pairs(edge, pairing)
    requires Combines(p.base, p.a, p.b, both, edge.parentTable, edge.parentColumns)
    requires NotBoth(p.base, p.a, p.b, both, edge.parentTable, edge.parentColumns)
    requires EdgeHolds(edge, pairing, p.a) && id.table == edge.childTable && id in both && NoNull(both[id], edge.childColumns)
    requires !HasParent(edge, pairing, both, both[id])
    requires KeyAt(both, id, edge.childColumns) == KeyAt(p.a, id, edge.childColumns)
    ensures id in p.a && IsParent(edge, pairing, p.a, p.a[id], q)
    ensures q in p.base && KeyAt(p.a, q, edge.parentColumns) == KeyAt(p.base, q, edge.parentColumns)
    ensures KeyAt(p.b, q, edge.parentColumns) != KeyAt(p.base, q, edge.parentColumns)
    ensures TransactionMayRemoveKey(p.y.metadata, edge.parentTable, edge.parentColumns)
  {
    hide KeyAt, Runs, ParsedTransaction, TransactionMayRemoveKey, Refers, Pairs;
    KeyCells(both, p.a, id, id, edge.childColumns);
    NoNullCells(both[id], p.a[id], edge.childColumns);
    assert HasParent(edge, pairing, p.a, p.a[id]);
    q :| IsParent(edge, pairing, p.a, p.a[id], q);
    assert CombinesAt(p.base, p.a, p.b, both, q, edge.parentColumns) && NotBothAt(p.base, p.a, p.b, both, q, edge.parentColumns);
    if KeyAt(both, q, edge.parentColumns) == KeyAt(p.a, q, edge.parentColumns) {
      StillParent(edge, pairing, p.a, both, id, q);
      assert false;
    }
    KeyThere(p.a, q, edge.parentColumns);
    KeyThere(p.base, q, edge.parentColumns);
    EdgeColumns(schema, edge);
    RunRemoves(schema, p.y, p.ySteps, p.base, p.b, q, edge.parentColumns);
  }

  lemma StillParent(edge: ForeignKeyEdge, pairing: Pairing, s: Snapshot, u: Snapshot, id: RowId, q: RowId)
    requires Pairs(edge, pairing) && id in s && IsParent(edge, pairing, s, s[id], q)
    requires KeyAt(s, id, edge.childColumns) == KeyAt(u, id, edge.childColumns)
    requires KeyAt(s, q, edge.parentColumns) == KeyAt(u, q, edge.parentColumns)
    ensures id in u && HasParent(edge, pairing, u, u[id])
  {
    hide KeyAt, Refers, Pairs;
    SameKeyRefers(edge, pairing, s, u, id, id, q, q);
    assert IsParent(edge, pairing, u, u[id], q);
  }

  lemma EdgeColumns(schema: SchemaCache, edge: ForeignKeyEdge)
    requires schema.Valid() && edge in schema.edges
    ensures edge.childColumns != {} && edge.parentColumns != {}
  {
    var i :| 0 <= i < |schema.edges| && schema.edges[i] == edge;
  }

  lemma NoNullCells(row: Row, other: Row, columns: set<Column>)
    requires NoNull(row, columns) && forall c :: c in columns ==> CellIn(row, c) == CellIn(other, c)
    ensures NoNull(other, columns)
  {
    forall c | c in columns ensures c in other && other[c] != Null { assert CellIn(row, c) == CellIn(other, c); }
  }

  /** Two parents of one child row have the same key. */
  lemma OneParent(edge: ForeignKeyEdge, pairing: Pairing, child: Row, r: Row, q: Row)
    requires Pairs(edge, pairing) && Refers(pairing, child, r) && Refers(pairing, child, q)
    ensures Meet(r, q, edge.parentColumns)
  {
    forall c | c in edge.parentColumns ensures c in r && c in q && r[c] == q[c] != Null {
      assert c in pairing.Values;
      var d :| d in pairing && pairing[d] == c;
    }
  }

  /** Foreign keys: if each alone keeps an edge, both together break it, no row's key on either side of the edge was
      changed by both, and the parent's key was unique to begin with, the pair is flagged. */
  lemma ForeignKeySound(schema: SchemaCache, p: Apart, both: Snapshot, edge: ForeignKeyEdge, pairing: Pairing)
    requires p.Valid(schema) && edge in schema.edges && Pairs(edge, pairing)
    requires Combines(p.base, p.a, p.b, both, edge.childTable, edge.childColumns)
    requires Combines(p.base, p.a, p.b, both, edge.parentTable, edge.parentColumns)
    requires NotBoth(p.base, p.a, p.b, both, edge.childTable, edge.childColumns)
    requires NotBoth(p.base, p.a, p.b, both, edge.parentTable, edge.parentColumns)
    requires UniqueOn(p.base, edge.parentTable, edge.parentColumns)
    requires EdgeHolds(edge, pairing, p.a) && EdgeHolds(edge, pairing, p.b) && !EdgeHolds(edge, pairing, both)
    ensures BreaksTogether(edge, p.x.metadata, p.y.metadata) && ForeignKeyConflictPossible(schema, p.x.metadata, p.y.metadata)
  {
    hide KeyAt, Runs, ParsedTransaction, TransactionMayRemoveKey, TransactionMayCreateKey, Refers, Pairs, EdgeHolds, ForeignKeyConflictPossible;
    AreValid(schema, p);
    ForeignKeyConflictMeaning(schema, p.x, p.y);
    var id := Orphan(edge, pairing, both);
    var cc := edge.childColumns;
    assert CombinesAt(p.base, p.a, p.b, both, id, cc) && NotBothAt(p.base, p.a, p.b, both, id, cc);
    EdgeColumns(schema, edge);
    KeysThere(p, both, id, cc);
    SwapApart(schema, p, both, edge);
    if KeyAt(p.a, id, cc) != KeyAt(p.base, id, cc) {
      RunCreates(schema, p.x, p.xSteps, p.base, p.a, id, cc);
      var q := ParentTaken(schema, p, both, edge, pairing, id);
    } else if KeyAt(p.b, id, cc) != KeyAt(p.base, id, cc) {
      RunCreates(schema, p.y, p.ySteps, p.base, p.b, id, cc);
      var q := ParentTaken(schema, p.Swapped(), both, edge, pairing, id);
    } else {
      var q := ParentTaken(schema, p, both, edge, pairing, id);
      var r := ParentTaken(schema, p.Swapped(), both, edge, pairing, id);
      ParentsInBase(p, edge, pairing, id, q, r);
      assert false;
    }
  }

  lemma AreValid(schema: SchemaCache, p: Apart)
    requires p.Valid(schema)
    ensures ValidTransaction(p.x) && ValidTransaction(p.y)
  {
  }

  lemma Orphan(edge: ForeignKeyEdge, pairing: Pairing, s: Snapshot) returns (id: RowId)
    requires !EdgeHolds(edge, pairing, s)
    ensures id in s && id.table == edge.childTable && NoNull(s[id], edge.childColumns) && !HasParent(edge, pairing, s, s[id])
  {
    id :| id in s && id.table == edge.childTable && NoNull(s[id], edge.childColumns) && !HasParent(edge, pairing, s, s[id]);
  }

  lemma SwapApart(schema: SchemaCache, p: Apart, both: Snapshot, edge: ForeignKeyEdge)
    requires p.Valid(schema)
    requires Combines(p.base, p.a, p.b, both, edge.parentTable, edge.parentColumns)
    requires NotBoth(p.base, p.a, p.b, both, edge.parentTable, edge.parentColumns)
    ensures p.Swapped().Valid(schema)
    ensures Combines(p.base, p.b, p.a, both, edge.parentTable, edge.parentColumns)
    ensures NotBoth(p.base, p.b, p.a, both, edge.parentTable, edge.parentColumns)
  {
    hide KeyAt, Runs, ParsedTransaction;
    forall id: RowId | id.table == edge.parentTable
      ensures CombinesAt(p.base, p.b, p.a, both, id, edge.parentColumns) && NotBothAt(p.base, p.b, p.a, both, id, edge.parentColumns)
    {
      assert CombinesAt(p.base, p.a, p.b, both, id, edge.parentColumns) && NotBothAt(p.base, p.a, p.b, both, id, edge.parentColumns);
    }
  }

  /** A child row neither side changed has one parent in base. */
  lemma ParentsInBase(p: Apart, edge: ForeignKeyEdge, pairing: Pairing, id: RowId, q: RowId, r: RowId)
    requires Pairs(edge, pairing) && UniqueOn(p.base, edge.parentTable, edge.parentColumns)
    requires id in p.a && id in p.b
    requires KeyAt(p.a, id, edge.childColumns) == KeyAt(p.base, id, edge.childColumns) == KeyAt(p.b, id, edge.childColumns)
    requires IsParent(edge, pairing, p.a, p.a[id], q) && IsParent(edge, pairing, p.b, p.b[id], r)
    requires KeyAt(p.a, q, edge.parentColumns) == KeyAt(p.base, q, edge.parentColumns)
    requires KeyAt(p.b, r, edge.parentColumns) == KeyAt(p.base, r, edge.parentColumns)
    ensures q == r
  {
    hide KeyAt, Refers, Pairs, Meet;
    SameKeyRefers(edge, pairing, p.a, p.base, id, id, q, q);
    SameKeyRefers(edge, pairing, p.b, p.base, id, id, r, r);
    OneParent(edge, pairing, p.base[id], p.base[q], p.base[r]);
  }

  // ----- rows both write -----

  /** The columns a statement is listed to write hold every column it changes, and the whole row when one goes. */
  lemma StepShown(schema: SchemaCache, m: StatementMetadata, step: Step, c: Column)
    requires Parsed(schema, m) && StatementStep(schema, m, step) && step.before.Some?
    requires step.after.None? || Alters(step.before.value, step.after.value, c)
    ensures Overlaps(ColumnsOf(m.updated, step.id.table), {c})
    ensures HiddenStep(schema, m, step) ==> m.hasCascadeEffects
  {
    hide Hidden, HiddenStep, ColumnOverlap, Alters;
    assert m.WritesMeet(step.id.table, {c});
    if HiddenStep(schema, m, step) {
      var event := HiddenStepEvent(schema, m, step);
      if step.after.Some? { ListedMeets(event.columns, {c}, c); }
      assert EventMayRemoveOrChangeKey(event, step.id.table, {c});
      var e :| e in m.events && EventMayRemoveOrChangeKey(e, step.id.table, {c});
      if e.kind.DeleteEvent? { assert Meets(ALL_COLUMNS, {c}); }
    } else if step.after.Some? {
      ListedOverlaps(m.columnsUpdated, {c}, c);
    } else {
      assert Meets(ALL_COLUMNS, {c});
    }
  }

  /** Both change a column of one row, or one changes it and the other removes the row. */
  ghost predicate StepsClash(s: Step, t: Step, c: Column) {
    && s.id == t.id && s.before.Some? && t.before.Some? && (s.after.Some? || t.after.Some?)
    && (s.after.Some? ==> Alters(s.before.value, s.after.value, c))
    && (t.after.Some? ==> Alters(t.before.value, t.after.value, c))
  }

  /** Two statements that write one cell, one of them by changing it, are flagged write/write. */
  lemma WriteWriteSound(schema: SchemaCache, m: StatementMetadata, n: StatementMetadata, s: Step, t: Step, c: Column)
    requires Parsed(schema, m) && Parsed(schema, n) && StatementStep(schema, m, s) && StatementStep(schema, n, t)
    requires StepsClash(s, t, c) && c != ALL_COLUMNS
    ensures WriteWriteOverlap(m, n)
  {
    hide HiddenStep, StatementMetadata.Valid, ColumnOverlap, Alters, Overlaps;
    StepShown(schema, m, s, c);
    StepShown(schema, n, t, c);
    if HiddenStep(schema, m, s) || HiddenStep(schema, n, t) {
      OneColumnOverlaps(ColumnsOf(m.updated, s.id.table), ColumnsOf(n.updated, s.id.table), c);
      MapsOverlapAt(m.updated, n.updated);
    } else {
      ExplicitColumns(m, s, c);
      ExplicitColumns(n, t, c);
      OneColumnOverlaps(n.columnsUpdated, m.columnsUpdated, c);
      DirectClash(m, n, s, t);
    }
  }

  lemma OneColumnOverlaps(a: set<Column>, b: set<Column>, c: Column)
    requires Overlaps(a, {c}) && Overlaps(b, {c}) && c != ALL_COLUMNS
    ensures Overlaps(a, b) && ColumnOverlap(a, b) != {}
  {
    var x :| x in a && Meets(x, {c});
    var y :| y in b && Meets(y, {c});
    assert Meets(x, b) || Meets(y, a);
    if !Meets(x, b) { OverlapsSymmetric(a, b); }
  }

  lemma ExplicitColumns(m: StatementMetadata, s: Step, c: Column)
    requires m.Valid() && ExplicitStep(m, s) && s.before.Some? && (s.after.None? || Alters(s.before.value, s.after.value, c))
    ensures Overlaps(m.columnsUpdated, {c}) && m.tableUpdated == Some(s.id.table)
  {
    if s.after.Some? { ListedOverlaps(m.columnsUpdated, {c}, c); } else { assert Meets(ALL_COLUMNS, {c}); }
  }

  lemma DirectClash(m: StatementMetadata, n: StatementMetadata, s: Step, t: Step)
    requires ExplicitStep(m, s) && ExplicitStep(n, t) && s.id == t.id && s.before.Some? && t.before.Some? && (s.after.Some? || t.after.Some?)
    requires ColumnOverlap(n.columnsUpdated, m.columnsUpdated) != {}
    ensures DirectWriteWriteOverlap(m, n)
  {
  }

  // ----- a row both sides change -----

  const PARENT := "parent"
  const CHILD := "child"

  function PairRow(x: int, y: int): Row { map["x" := Val(x), "y" := Val(y)] }

  function PairEdge(): ForeignKeyEdge { ForeignKeyEdge(CHILD, {"x", "y"}, PARENT, {"x", "y"}, NoAction, NoAction) }

  function PairSchema(): SchemaCache {
    SchemaCache(map[PARENT := {"x", "y"}, CHILD := {"x", "y"}], map[PARENT := [{"x", "y"}]], map[], [PairEdge()])
  }

  function SamePairing(): Pairing { map["x" := "x", "y" := "y"] }

  const THE_CHILD := RowId(CHILD, [Val(1)])

  /** Parents (0, 0), (1, 0) and (0, 1), and one child row. */
  function Family(x: int, y: int): Snapshot {
    map[
      RowId(PARENT, [Val(1)]) := PairRow(0, 0),
      RowId(PARENT, [Val(2)]) := PairRow(1, 0),
      RowId(PARENT, [Val(3)]) := PairRow(0, 1),
      THE_CHILD := PairRow(x, y)]
  }

  function SetX(): LoggedTransaction { OneStatement(1, "UPDATE child SET x = 1", UpdateOf(CHILD, "x", map[])) }

  function SetY(): LoggedTransaction { OneStatement(2, "UPDATE child SET y = 1", UpdateOf(CHILD, "y", map[])) }

  function Family0(): Apart {
    Apart(
      Family(0, 0),
      SetX(), [Step(THE_CHILD, Some(PairRow(0, 0)), Some(PairRow(1, 0)))], Family(1, 0),
      SetY(), [Step(THE_CHILD, Some(PairRow(0, 0)), Some(PairRow(0, 1)))], Family(0, 1))
  }

  lemma {:induction false} NothingReached(edges: seq<ForeignKeyEdge>, start: CascadeWriteEvent, event: CascadeWriteEvent, n: nat)
    requires n > 0 && forall edge :: edge in edges ==> edge.parentTable != start.table
    ensures !ReachableIn(edges, start, event, n)
    decreases n
  {
    if parent :| ReachableIn(edges, start, parent, n - 1) && Succ(edges, parent, event) {
      if n > 1 { NothingReached(edges, start, parent, n - 1); }
    }
  }

  lemma ChildUpdateParsed(id: int, sql: string, column: Column)
    ensures ParsedTransaction(PairSchema(), OneStatement(id, sql, UpdateOf(CHILD, column, map[])))
  {
    hide ReachableIn, ValidTransaction;
    var schema, m := PairSchema(), UpdateOf(CHILD, column, map[]);
    UpdateIsValid(id, sql, CHILD, column, map[]);
    var start := InitialEvent(m.kind, CHILD, m.columnsUpdated);
    forall event ensures !Hidden(schema.edges, start, event) {
      forall n: nat | n > 0 ensures !ReachableIn(schema.edges, start, event, n) { NothingReached(schema.edges, start, event, n); }
    }
    assert Parsed(schema, m);
  }

  lemma OneStepRuns(id: int, sql: string, column: Column, step: Step, before: Snapshot, after: Snapshot)
    requires column != ALL_COLUMNS && step.id.table == CHILD && step.before.Some? && step.after.Some?
    requires forall c :: Alters(step.before.value, step.after.value, c) ==> c == column
    requires At(before, step.id) == step.before && after == Put(before, step.id, step.after)
    ensures Runs(PairSchema(), OneStatement(id, sql, UpdateOf(CHILD, column, map[])).metadata, [step], before, after)
  {
    hide HiddenStep;
    var schema, m := PairSchema(), UpdateOf(CHILD, column, map[]);
    var tx := OneStatement(id, sql, m).metadata;
    var steps := [step];
    assert steps[..|steps| - 1] == [] && steps[|steps| - 1] == step;
    assert Runs(schema, tx, steps[..|steps| - 1], before, before);
    assert m in tx.statements && StatementStep(schema, m, step);
  }

  lemma FamilyRuns()
    ensures PairSchema().Valid() && Family0().Valid(PairSchema())
  {
    hide ParsedTransaction, Runs;
    var p := Family0();
    ChildUpdateParsed(1, "UPDATE child SET x = 1", "x");
    ChildUpdateParsed(2, "UPDATE child SET y = 1", "y");
    assert Put(p.base, THE_CHILD, Some(PairRow(1, 0))) == p.a && Put(p.base, THE_CHILD, Some(PairRow(0, 1))) == p.b;
    OneStepRuns(1, "UPDATE child SET x = 1", "x", p.xSteps[0], p.base, p.a);
    OneStepRuns(2, "UPDATE child SET y = 1", "y", p.ySteps[0], p.base, p.b);
  }

  lemma OnlyChild(s: Snapshot, x: int, y: int)
    requires s == Family(x, y)
    ensures EdgeHolds(PairEdge(), SamePairing(), s) <==> HasParent(PairEdge(), SamePairing(), s, PairRow(x, y))
  {
    assert s[THE_CHILD] == PairRow(x, y) && NoNull(s[THE_CHILD], PairEdge().childColumns);
    assert forall id :: id in s && id.table == CHILD ==> id == THE_CHILD;
  }

  lemma HasChild(x: int, y: int)
    ensures EdgeHolds(PairEdge(), SamePairing(), Family(x, y)) <==> (x, y) in {(0, 0), (1, 0), (0, 1)}
  {
    hide EdgeHolds;
    var s, child := Family(x, y), PairRow(x, y);
    OnlyChild(s, x, y);
    forall row: Row, a: int, b: int | row == PairRow(a, b) ensures Refers(SamePairing(), child, row) <==> (a, b) == (x, y) {
      assert "x" in SamePairing() && "y" in SamePairing();
    }
    var one, two, three := RowId(PARENT, [Val(1)]), RowId(PARENT, [Val(2)]), RowId(PARENT, [Val(3)]);
    assert forall q :: q in s && q.table == PARENT <==> q in {one, two, three};
    assert s[one] == PairRow(0, 0) && s[two] == PairRow(1, 0) && s[three] == PairRow(0, 1);
    assert IsParent(PairEdge(), SamePairing(), s, child, one) <==> (x, y) == (0, 0);
    assert IsParent(PairEdge(), SamePairing(), s, child, two) <==> (x, y) == (1, 0);
    assert IsParent(PairEdge(), SamePairing(), s, child, three) <==> (x, y) == (0, 1);
  }

  /** Where both change one row's composite key, each in a column of its own, each alone keeps the foreign key, both
      together break it, and no check is asked for: the pair is flagged neither for the constraint nor write/write. */
  lemma MixedKeyNotFlagged()
    ensures var p, both := Family0(), Family(1, 1);
      && PairSchema().Valid() && p.Valid(PairSchema()) && PairEdge() in PairSchema().edges && Pairs(PairEdge(), SamePairing())
      && Combines(p.base, p.a, p.b, both, CHILD, {"x", "y"}) && Combines(p.base, p.a, p.b, both, PARENT, {"x", "y"})
      && EdgeHolds(PairEdge(), SamePairing(), p.a) && EdgeHolds(PairEdge(), SamePairing(), p.b) && !EdgeHolds(PairEdge(), SamePairing(), both)
      && !ConstraintConflictPossible(PairSchema(), p.x.metadata, p.y.metadata) && !TransactionWriteWriteOverlap(p.x.metadata, p.y.metadata)
  {
    hide EdgeHolds, Apart.Valid, Combines, Pairs, SchemaCache.Valid, ConstraintConflictPossible, TransactionWriteWriteOverlap;
    FamilyRuns();
    HasChild(1, 0);
    HasChild(0, 1);
    HasChild(1, 1);
    PairPairs();
    FamilyCombines();
    NotFlagged();
  }

  lemma PairPairs()
    ensures PairSchema().Valid() && PairEdge() in PairSchema().edges && Pairs(PairEdge(), SamePairing())
  {
    assert SamePairing().Values == {"x", "y"} by { assert SamePairing()["x"] == "x" && SamePairing()["y"] == "y"; }
  }

  lemma FamilyCombines()
    ensures var p, both := Family0(), Family(1, 1);
      Combines(p.base, p.a, p.b, both, CHILD, {"x", "y"}) && Combines(p.base, p.a, p.b, both, PARENT, {"x", "y"})
  {
    var p, both := Family0(), Family(1, 1);
    forall id: RowId ensures CombinesAt(p.base, p.a, p.b, both, id, {"x", "y"}) {
      if id != THE_CHILD {
        assert At(p.base, id) == At(p.a, id) == At(p.b, id) == At(both, id);
        UntouchedKey(p.base, both, id, {"x", "y"});
      } else {
        assert KeyAt(p.a, id, {"x", "y"}).value["x"] == Val(1) && KeyAt(p.base, id, {"x", "y"}).value["x"] == Val(0);
        assert KeyAt(p.b, id, {"x", "y"}).value["y"] == Val(1) && KeyAt(p.base, id, {"x", "y"}).value["y"] == Val(0);
      }
    }
  }

  lemma NotFlagged()
    ensures var x, y := SetX().metadata, SetY().metadata;
      !ConstraintConflictPossible(PairSchema(), x, y) && !TransactionWriteWriteOverlap(x, y)
  {
  }
}
