/** Cached read/write counters of one branch's remaining transactions
    (src/merge/remaining_metadata.py). One look at the counters replaces a pairwise check
    against every queued transaction. */
module RemainingMetadata {
  import opened Columns
  import opened Models
  import opened CascadeMetadata
  import opened SqlMetadata
  import opened StaticAnalysis

  type ColumnCountMap = map<Table, map<Column, int>>

  function CountIn(m: ColumnCountMap, t: Table, c: Column): int {
    if t in m && c in m[t] then m[t][c] else 0
  }

  /** No zero or negative counter, and no empty inner map. */
  predicate Canonical(m: ColumnCountMap) {
    forall t :: t in m ==> m[t] != map[] && forall c :: c in m[t] ==> m[t][c] > 0
  }

  /** Counters never fall below zero. */
  function Clamped(n: int): int {
    if n <= 0 then 0 else n
  }

  /** A counter after `times` contributions of `delta` each. */
  function Shifted(n: int, times: nat, delta: int): int {
    if times == 0 then n else Clamped(n + delta * times)
  }

  /** Shifting in two portions is shifting once, clamp included. */
  lemma ShiftTwice(n: int, first: nat, second: nat, delta: int)
    requires delta == 1 || delta == -1
    requires n >= 0
    ensures Shifted(Shifted(n, first, delta), second, delta) == Shifted(n, first + second, delta)
  {
  }

  function B(b: bool): nat {
    if b then 1 else 0
  }

  ghost predicate Bumped(m: ColumnCountMap, r: ColumnCountMap, table: Table, columns: set<Column>, delta: int) {
    && Canonical(r)
    && forall t, c :: CountIn(r, t, c) == Shifted(CountIn(m, t, c), B(t == table && c in columns), delta)
  }

  /** Increment or decrement the counters of some columns of one table. */
  method UpdateColumnCounts(m: ColumnCountMap, table: Table, columns: set<Column>, delta: int) returns (r: ColumnCountMap)
    requires Canonical(m)
    ensures Bumped(m, r, table, columns, delta)
  {
    var tableCounts := if table in m then m[table] else map[];
    ghost var before := tableCounts;
    var todo := columns;
    while todo != {}
      invariant todo <= columns
      invariant forall c :: c in tableCounts ==> tableCounts[c] > 0
      invariant forall c ::
        (if c in tableCounts then tableCounts[c] else 0)
        == (if c in columns - todo then Clamped(CountIn(m, table, c) + delta) else CountIn(m, table, c))
    {
      var column :| column in todo;
      var next := (if column in tableCounts then tableCounts[column] else 0) + delta;
      tableCounts := if next <= 0 then tableCounts - {column} else tableCounts[column := next];
      todo := todo - {column};
    }
    r := if tableCounts == map[] then m - {table} else m[table := tableCounts];
  }

  // ----- what one statement contributes to each counter -----

  datatype Counter = Referenced | WriteWriteColumns | CreateOrChangeKey | RemoveOrChangeKey | UpdateWrite | OmittedKey

  /** What one hidden write adds to a counter. */
  function EventContribution(k: Counter, e: CascadeWriteEvent, t: Table, c: Column): nat {
    match k
    case Referenced | OmittedKey => 0
    case WriteWriteColumns | RemoveOrChangeKey => B(e.table == t && c in e.columns)
    case CreateOrChangeKey | UpdateWrite => B(e.kind.UpdateEvent? && e.table == t && c in e.columns)
  }

  function EventsContribution(k: Counter, events: seq<CascadeWriteEvent>, t: Table, c: Column): nat {
    if events == [] then 0
    else EventsContribution(k, events[..|events| - 1], t, c) + EventContribution(k, events[|events| - 1], t, c)
  }

  /** What the explicit write, the reads and the omitted key of a statement add to a counter. */
  function DirectContribution(schema: SchemaCache, k: Counter, m: StatementMetadata, t: Table, c: Column): nat {
    if k.Referenced? then B(c in ColumnsOf(m.referenced, t))
    else if k.OmittedKey? then B(m.Writes(t) && OmittedIntegerPrimaryKey(schema, m) == Some(c))
    else B(CountsWrites(k, m.kind) && m.Writes(t) && c in m.columnsUpdated)
  }

  /** Which explicit writes a counter counts. */
  predicate CountsWrites(k: Counter, kind: StatementKind) {
    match k
    case Referenced | OmittedKey => false
    case WriteWriteColumns | RemoveOrChangeKey => kind.UpdateKind? || kind.DeleteKind?
    case CreateOrChangeKey => kind.InsertKind? || kind.UpdateKind?
    case UpdateWrite => kind.UpdateKind?
  }

  function Contribution(schema: SchemaCache, k: Counter, m: StatementMetadata, t: Table, c: Column): nat {
    DirectContribution(schema, k, m, t, c) + EventsContribution(k, m.events, t, c)
  }

  ghost predicate MovedByEvents(k: Counter, events: seq<CascadeWriteEvent>, delta: int, before: ColumnCountMap, after: ColumnCountMap) {
    && Canonical(after)
    && forall t, c :: CountIn(after, t, c) == Shifted(CountIn(before, t, c), EventsContribution(k, events, t, c), delta)
  }

  ghost predicate MovedDirectly(schema: SchemaCache, k: Counter, m: StatementMetadata, delta: int, before: ColumnCountMap, after: ColumnCountMap) {
    && Canonical(after)
    && forall t, c :: CountIn(after, t, c) == Shifted(CountIn(before, t, c), DirectContribution(schema, k, m, t, c), delta)
  }

  ghost predicate MovedByStatement(schema: SchemaCache, k: Counter, m: StatementMetadata, delta: int, before: ColumnCountMap, after: ColumnCountMap) {
    && Canonical(after)
    && forall t, c :: CountIn(after, t, c) == Shifted(CountIn(before, t, c), Contribution(schema, k, m, t, c), delta)
  }

  ghost predicate MovedByStatements(schema: SchemaCache, k: Counter, statements: seq<LoggedStatement>, delta: int, before: ColumnCountMap, after: ColumnCountMap) {
    && Canonical(after)
    && forall t, c :: CountIn(after, t, c) == Shifted(CountIn(before, t, c), StatementsContribution(schema, k, statements, t, c), delta)
  }

  lemma MovedByNoEvents(k: Counter, delta: int, m: ColumnCountMap)
    requires Canonical(m)
    ensures MovedByEvents(k, [], delta, m, m)
  {
  }

  lemma NoReadEvents(k: Counter, events: seq<CascadeWriteEvent>, t: Table, c: Column)
    requires k.Referenced? || k.OmittedKey?
    ensures EventsContribution(k, events, t, c) == 0
  {
  }

  lemma MovedByWrite(schema: SchemaCache, k: Counter, m: StatementMetadata, delta: int, before: ColumnCountMap, after: ColumnCountMap)
    requires m.Valid() && Canonical(before) && !k.Referenced? && !k.OmittedKey?
    requires if CountsWrites(k, m.kind) then Bumped(before, after, m.tableUpdated.value, m.columnsUpdated, delta) else after == before
    ensures MovedDirectly(schema, k, m, delta, before, after) && Canonical(after)
  {
  }

  /** The omitted-key counter moves by the one omitted key of an INSERT. */
  lemma MovedByOmittedKey(schema: SchemaCache, m: StatementMetadata, delta: int, before: ColumnCountMap, after: ColumnCountMap)
    requires m.Valid() && Canonical(before)
    requires var key := OmittedIntegerPrimaryKey(schema, m);
      if key.Some? then Bumped(before, after, m.tableUpdated.value, {key.value}, delta) else after == before
    ensures MovedByStatement(schema, OmittedKey, m, delta, before, after)
  {
    forall t, c { NoReadEvents(OmittedKey, m.events, t, c); }
  }

  /** One hidden write moves a counter by bumping it, or leaves it alone. */
  lemma BumpedByEvent(k: Counter, events: seq<CascadeWriteEvent>, i: nat, delta: int, start: ColumnCountMap, before: ColumnCountMap, after: ColumnCountMap)
    requires i < |events| && (delta == 1 || delta == -1)
    requires Canonical(start) && MovedByEvents(k, events[..i], delta, start, before)
    requires if k.Referenced? || k.OmittedKey? || (events[i].kind.DeleteEvent? && (k.CreateOrChangeKey? || k.UpdateWrite?))
             then after == before
             else Bumped(before, after, events[i].table, events[i].columns, delta)
    ensures MovedByEvents(k, events[..i + 1], delta, start, after)
  {
    PrefixSnoc(events, i);
    forall t, c
      ensures CountIn(after, t, c) == Shifted(CountIn(start, t, c), EventsContribution(k, events[..i + 1], t, c), delta)
    {
      ShiftTwice(CountIn(start, t, c), EventsContribution(k, events[..i], t, c), EventContribution(k, events[i], t, c), delta);
    }
  }

  /** The hidden writes after the explicit part make up the whole statement. */
  lemma MovedWhole(schema: SchemaCache, k: Counter, m: StatementMetadata, delta: int, start: ColumnCountMap, middle: ColumnCountMap, after: ColumnCountMap)
    requires delta == 1 || delta == -1
    requires Canonical(start)
    requires MovedDirectly(schema, k, m, delta, start, middle) && MovedByEvents(k, m.events, delta, middle, after)
    ensures MovedByStatement(schema, k, m, delta, start, after)
  {
    forall t, c ensures CountIn(after, t, c) == Shifted(CountIn(start, t, c), Contribution(schema, k, m, t, c), delta) {
      ShiftTwice(CountIn(start, t, c), DirectContribution(schema, k, m, t, c), EventsContribution(k, m.events, t, c), delta);
    }
  }

  lemma MovedByOneMore(schema: SchemaCache, k: Counter, statements: seq<LoggedStatement>, i: nat, delta: int, start: ColumnCountMap, before: ColumnCountMap, after: ColumnCountMap)
    requires i < |statements| && (delta == 1 || delta == -1)
    requires Canonical(start)
    requires MovedByStatements(schema, k, statements[..i], delta, start, before)
    requires MovedByStatement(schema, k, statements[i].metadata, delta, before, after)
    ensures MovedByStatements(schema, k, statements[..i + 1], delta, start, after)
  {
    PrefixSnoc(statements, i);
    forall t, c
      ensures CountIn(after, t, c) == Shifted(CountIn(start, t, c), StatementsContribution(schema, k, statements[..i + 1], t, c), delta)
    {
      ShiftTwice(CountIn(start, t, c), StatementsContribution(schema, k, statements[..i], t, c),
        Contribution(schema, k, statements[i].metadata, t, c), delta);
    }
  }

  function StatementsContribution(schema: SchemaCache, k: Counter, statements: seq<LoggedStatement>, t: Table, c: Column): nat {
    if statements == [] then 0
    else
      StatementsContribution(schema, k, statements[..|statements| - 1], t, c)
      + Contribution(schema, k, statements[|statements| - 1].metadata, t, c)
  }

  /** The count a queue of transactions should have. */
  function QueueContribution(schema: SchemaCache, k: Counter, queue: seq<LoggedTransaction>, t: Table, c: Column): nat {
    if queue == [] then 0
    else
      QueueContribution(schema, k, queue[..|queue| - 1], t, c)
      + StatementsContribution(schema, k, queue[|queue| - 1].statements, t, c)
  }

  lemma {:induction false} QueueSplit(schema: SchemaCache, k: Counter, left: seq<LoggedTransaction>, right: seq<LoggedTransaction>, t: Table, c: Column)
    ensures QueueContribution(schema, k, left + right, t, c) ==
      QueueContribution(schema, k, left, t, c) + QueueContribution(schema, k, right, t, c)
  {
    if right == [] {
      assert left + right == left;
    } else {
      var rest := right[..|right| - 1];
      assert (left + right)[..|left + right| - 1] == left + rest;
      QueueSplit(schema, k, left, rest, t, c);
    }
  }

  lemma QueueSingle(schema: SchemaCache, k: Counter, tx: LoggedTransaction, t: Table, c: Column)
    ensures QueueContribution(schema, k, [tx], t, c) == StatementsContribution(schema, k, tx.statements, t, c)
  {
    assert [tx][..0] == [];
  }

  function Without<T>(s: seq<T>, i: nat): seq<T>
    requires i < |s|
  {
    s[..i] + s[i + 1..]
  }

  lemma QueueRemoved(schema: SchemaCache, k: Counter, queue: seq<LoggedTransaction>, i: nat, t: Table, c: Column)
    requires i < |queue|
    ensures QueueContribution(schema, k, queue, t, c) ==
      QueueContribution(schema, k, Without(queue, i), t, c) + StatementsContribution(schema, k, queue[i].statements, t, c)
  {
    assert queue == (queue[..i] + [queue[i]]) + queue[i + 1..];
    QueueSplit(schema, k, queue[..i] + [queue[i]], queue[i + 1..], t, c);
    QueueSplit(schema, k, queue[..i], [queue[i]], t, c);
    QueueSplit(schema, k, queue[..i], queue[i + 1..], t, c);
    QueueSingle(schema, k, queue[i], t, c);
  }

  /** `m` holds exactly the queue's contributions to counter `k`. */
  ghost predicate CountsQueue(schema: SchemaCache, k: Counter, queue: seq<LoggedTransaction>, m: ColumnCountMap) {
    && Canonical(m)
    && forall t, c :: CountIn(m, t, c) == QueueContribution(schema, k, queue, t, c)
  }

  lemma CountsAfterAdd(schema: SchemaCache, k: Counter, queue: seq<LoggedTransaction>, tx: LoggedTransaction, before: ColumnCountMap, after: ColumnCountMap)
    requires CountsQueue(schema, k, queue, before)
    requires MovedByStatements(schema, k, tx.statements, 1, before, after)
    ensures CountsQueue(schema, k, queue + [tx], after)
  {
    assert (queue + [tx])[..|queue|] == queue;
  }

  /** Removing a queued transaction never hits the clamp: its counts are all still there. */
  lemma CountsAfterRemove(schema: SchemaCache, k: Counter, queue: seq<LoggedTransaction>, i: nat, before: ColumnCountMap, after: ColumnCountMap)
    requires i < |queue|
    requires CountsQueue(schema, k, queue, before)
    requires MovedByStatements(schema, k, queue[i].statements, -1, before, after)
    ensures CountsQueue(schema, k, Without(queue, i), after)
  {
    forall t, c ensures CountIn(after, t, c) == QueueContribution(schema, k, Without(queue, i), t, c) {
      QueueRemoved(schema, k, queue, i, t, c);
    }
  }

  /** Canonical maps with equal counts are equal. */
  lemma CanonicalUnique(m: ColumnCountMap, n: ColumnCountMap)
    requires Canonical(m) && Canonical(n)
    requires forall t, c :: CountIn(m, t, c) == CountIn(n, t, c)
    ensures m == n
  {
    forall t | t in m ensures t in n && m[t] == n[t] { SameInner(m, n, t); }
    forall t | t in n ensures t in m { SameInner(n, m, t); }
  }

  lemma SameInner(m: ColumnCountMap, n: ColumnCountMap, t: Table)
    requires Canonical(m) && Canonical(n) && t in m
    requires forall t, c :: CountIn(m, t, c) == CountIn(n, t, c)
    ensures t in n && m[t] == n[t]
  {
    var c :| c in m[t];
    assert CountIn(m, t, c) > 0;
    forall d ensures (d in m[t] <==> d in n[t]) && (d in m[t] ==> m[t][d] == n[t][d]) {
      assert CountIn(m, t, d) == CountIn(n, t, d);
    }
  }

  /** Contributions do not depend on the order of the queue. */
  lemma {:induction false} QueueOrderIrrelevant(schema: SchemaCache, k: Counter, p: seq<LoggedTransaction>, q: seq<LoggedTransaction>, t: Table, c: Column)
    requires multiset(p) == multiset(q)
    ensures QueueContribution(schema, k, p, t, c) == QueueContribution(schema, k, q, t, c)
    decreases |p|
  {
    if p == [] {
      assert |multiset(q)| == 0;
    } else {
      assert p[0] in multiset(p);
      assert p[0] in multiset(q);
      var i :| 0 <= i < |q| && q[i] == p[0];
      MultisetWithout(p, 0);
      MultisetWithout(q, i);
      QueueRemoved(schema, k, p, 0, t, c);
      QueueRemoved(schema, k, q, i, t, c);
      QueueOrderIrrelevant(schema, k, Without(p, 0), Without(q, i), t, c);
    }
  }

  lemma MultisetWithout<T>(s: seq<T>, i: nat)
    requires i < |s|
    ensures multiset(Without(s, i)) == multiset(s) - multiset{s[i]}
  {
    assert s == s[..i] + [s[i]] + s[i + 1..];
  }

  /** Add or remove the tables and columns one statement reads. */
  method UpdateReferences(counts: ColumnCountMap, columnsByTable: ColumnMap, delta: int) returns (r: ColumnCountMap)
    requires Canonical(counts)
    ensures Canonical(r)
    ensures forall schema, m: StatementMetadata :: m.referenced == columnsByTable ==>
      MovedDirectly(schema, Referenced, m, delta, counts, r)
  {
    r := counts;
    var todo := columnsByTable.Keys;
    while todo != {}
      invariant Canonical(r) && todo <= columnsByTable.Keys
      invariant forall t, c ::
        CountIn(r, t, c) == Shifted(CountIn(counts, t, c), B(t !in todo && c in ColumnsOf(columnsByTable, t)), delta)
    {
      var table :| table in todo;
      r := UpdateColumnCounts(r, table, columnsByTable[table], delta);
      todo := todo - {table};
    }
  }

  /** Mutable read/write counters for one branch's remaining transactions. */
  class RemainingMetadataIndex {
    var referencedCounts: ColumnCountMap
    var writeWriteCounts: ColumnCountMap
    var createKeyCounts: ColumnCountMap
    var removeKeyCounts: ColumnCountMap
    var updateCounts: ColumnCountMap
    var omittedKeyCounts: ColumnCountMap
    var transactionCount: int

    function Counts(k: Counter): ColumnCountMap
      reads this
    {
      match k
      case Referenced => referencedCounts
      case WriteWriteColumns => writeWriteCounts
      case CreateOrChangeKey => createKeyCounts
      case RemoveOrChangeKey => removeKeyCounts
      case UpdateWrite => updateCounts
      case OmittedKey => omittedKeyCounts
    }

    ghost predicate Valid()
      reads this
    {
      && Canonical(referencedCounts)
      && Canonical(writeWriteCounts)
      && Canonical(createKeyCounts)
      && Canonical(removeKeyCounts)
      && Canonical(updateCounts)
      && Canonical(omittedKeyCounts)
    }

    /** Every counter is the exact sum of the queued transactions' contributions. */
    ghost predicate Agrees(schema: SchemaCache, queue: seq<LoggedTransaction>)
      reads this
    {
      && Valid()
      && transactionCount == |queue|
      && forall k :: CountsQueue(schema, k, queue, Counts(k))
    }

    constructor ()
      ensures forall schema :: Agrees(schema, [])
      ensures transactionCount == 0
    {
      referencedCounts := map[];
      writeWriteCounts := map[];
      createKeyCounts := map[];
      removeKeyCounts := map[];
      updateCounts := map[];
      omittedKeyCounts := map[];
      transactionCount := 0;
    }

    /** Add or remove the hidden child write of one foreign-key action. */
    method UpdateCascadeWriteEvent(event: CascadeWriteEvent, delta: int)
      requires Valid()
      modifies this
      ensures Bumped(old(writeWriteCounts), writeWriteCounts, event.table, event.columns, delta)
      ensures Bumped(old(removeKeyCounts), removeKeyCounts, event.table, event.columns, delta)
      ensures if event.kind.UpdateEvent? then Bumped(old(createKeyCounts), createKeyCounts, event.table, event.columns, delta)
              else createKeyCounts == old(createKeyCounts)
      ensures if event.kind.UpdateEvent? then Bumped(old(updateCounts), updateCounts, event.table, event.columns, delta)
              else updateCounts == old(updateCounts)
      ensures referencedCounts == old(referencedCounts) && omittedKeyCounts == old(omittedKeyCounts)
      ensures transactionCount == old(transactionCount)
    {
      writeWriteCounts := UpdateColumnCounts(writeWriteCounts, event.table, event.columns, delta);
      removeKeyCounts := UpdateColumnCounts(removeKeyCounts, event.table, event.columns, delta);
      if event.kind.UpdateEvent? {
        createKeyCounts := UpdateColumnCounts(createKeyCounts, event.table, event.columns, delta);
        updateCounts := UpdateColumnCounts(updateCounts, event.table, event.columns, delta);
      }
    }

    /** Add or remove the explicit write of one statement. */
    method UpdateExplicitWrite(m: StatementMetadata, delta: int)
      requires Valid() && m.Valid()
      modifies this
      ensures forall k: Counter :: !k.Referenced? && !k.OmittedKey? ==>
        if CountsWrites(k, m.kind) then Bumped(old(Counts(k)), Counts(k), m.tableUpdated.value, m.columnsUpdated, delta)
        else Counts(k) == old(Counts(k))
      ensures referencedCounts == old(referencedCounts) && omittedKeyCounts == old(omittedKeyCounts)
      ensures transactionCount == old(transactionCount)
    {
      hide Bumped, Canonical;
      if m.kind.InsertKind? {
        createKeyCounts := UpdateColumnCounts(createKeyCounts, m.tableUpdated.value, m.columnsUpdated, delta);
      } else if m.kind.UpdateKind? {
        var table := m.tableUpdated.value;
        writeWriteCounts := UpdateColumnCounts(writeWriteCounts, table, m.columnsUpdated, delta);
        createKeyCounts := UpdateColumnCounts(createKeyCounts, table, m.columnsUpdated, delta);
        removeKeyCounts := UpdateColumnCounts(removeKeyCounts, table, m.columnsUpdated, delta);
        updateCounts := UpdateColumnCounts(updateCounts, table, m.columnsUpdated, delta);
      } else if m.kind.DeleteKind? {
        var table := m.tableUpdated.value;
        writeWriteCounts := UpdateColumnCounts(writeWriteCounts, table, m.columnsUpdated, delta);
        removeKeyCounts := UpdateColumnCounts(removeKeyCounts, table, m.columnsUpdated, delta);
      }
    }

    /** Add or remove the explicit write and the reads of one statement. */
    method UpdateDirect(schema: SchemaCache, m: StatementMetadata, delta: int)
      requires Valid() && m.Valid()
      modifies this
      ensures Valid()
      ensures forall k: Counter :: !k.OmittedKey? ==> MovedDirectly(schema, k, m, delta, old(Counts(k)), Counts(k))
      ensures omittedKeyCounts == old(omittedKeyCounts) && transactionCount == old(transactionCount)
    {
      hide Bumped, Canonical, MovedDirectly, StatementMetadata.Valid, CountsWrites;
      forall k { CountsCanonical(k); }
      UpdateExplicitWrite(m, delta);
      referencedCounts := UpdateReferences(referencedCounts, m.referenced, delta);
      forall k: Counter | !k.OmittedKey?
        ensures MovedDirectly(schema, k, m, delta, old(Counts(k)), Counts(k)) && Canonical(Counts(k))
      {
        if !k.Referenced? { MovedByWrite(schema, k, m, delta, old(Counts(k)), Counts(k)); }
      }
      ValidFromCounts();
    }

    lemma CountsCanonical(k: Counter)
      requires Valid()
      ensures Canonical(Counts(k))
    {
    }

    lemma ValidFromCounts()
      requires forall k :: Canonical(Counts(k))
      ensures Valid()
    {
      assert Canonical(Counts(Referenced)) && Canonical(Counts(WriteWriteColumns)) && Canonical(Counts(CreateOrChangeKey));
      assert Canonical(Counts(RemoveOrChangeKey)) && Canonical(Counts(UpdateWrite)) && Canonical(Counts(OmittedKey));
    }

    /** Add or remove every contribution of one statement. */
    method UpdateStatement(schema: SchemaCache, m: StatementMetadata, delta: int)
      requires Valid() && m.Valid()
      requires delta == 1 || delta == -1
      modifies this
      ensures Valid() && transactionCount == old(transactionCount)
      ensures forall k: Counter :: MovedByStatement(schema, k, m, delta, old(Counts(k)), Counts(k))
    {
      hide MovedDirectly, Bumped, Canonical;
      forall k { CountsCanonical(k); }
      UpdateDirect(schema, m, delta);
      label direct:
      forall k { CountsCanonical(k); }
      forall k: Counter ensures MovedByEvents(k, m.events[..0], delta, Counts(k), Counts(k)) {
        MovedByNoEvents(k, delta, Counts(k));
      }
      for i := 0 to |m.events|
        invariant Valid() && transactionCount == old(transactionCount)
        invariant omittedKeyCounts == old(omittedKeyCounts)
        invariant forall k: Counter :: MovedByEvents(k, m.events[..i], delta, old@direct(Counts(k)), Counts(k))
      {
        label before:
        UpdateCascadeWriteEvent(m.events[i], delta);
        forall k: Counter
          ensures Canonical(Counts(k)) && MovedByEvents(k, m.events[..i + 1], delta, old@direct(Counts(k)), Counts(k))
        {
          BumpedByEvent(k, m.events, i, delta, old@direct(Counts(k)), old@before(Counts(k)), Counts(k));
        }
        ValidFromCounts();
      }
      label events:
      assert m.events[..|m.events|] == m.events;
      if m.kind.InsertKind? {
        var omittedKey := OmittedIntegerPrimaryKey(schema, m);
        if omittedKey.Some? {
          omittedKeyCounts := UpdateColumnCounts(omittedKeyCounts, m.tableUpdated.value, {omittedKey.value}, delta);
        }
      }
      MovedByOmittedKey(schema, m, delta, old(omittedKeyCounts), omittedKeyCounts);
      forall k: Counter ensures MovedByStatement(schema, k, m, delta, old(Counts(k)), Counts(k)) && Canonical(Counts(k)) {
        if !k.OmittedKey? {
          MovedWhole(schema, k, m, delta, old(Counts(k)), old@direct(Counts(k)), Counts(k));
        }
      }
      ValidFromCounts();
    }

    method UpdateTransaction(schema: SchemaCache, tx: LoggedTransaction, delta: int)
      requires Valid() && ValidTransaction(tx)
      requires delta == 1 || delta == -1
      modifies this
      ensures Valid() && transactionCount == old(transactionCount)
      ensures forall k: Counter :: MovedByStatements(schema, k, tx.statements, delta, old(Counts(k)), Counts(k))
    {
      hide MovedByStatement, Canonical;
      forall k { CountsCanonical(k); }
      forall k: Counter ensures MovedByStatements(schema, k, tx.statements[..0], delta, Counts(k), Counts(k)) {
      }
      for i := 0 to |tx.statements|
        invariant Valid() && transactionCount == old(transactionCount)
        invariant forall k: Counter :: MovedByStatements(schema, k, tx.statements[..i], delta, old(Counts(k)), Counts(k))
      {
        label before:
        UpdateStatement(schema, tx.statements[i].metadata, delta);
        forall k: Counter ensures MovedByStatements(schema, k, tx.statements[..i + 1], delta, old(Counts(k)), Counts(k)) {
          MovedByOneMore(schema, k, tx.statements, i, delta, old(Counts(k)), old@before(Counts(k)), Counts(k));
        }
      }
      assert tx.statements[..|tx.statements|] == tx.statements;
    }

    method AddTransaction(schema: SchemaCache, tx: LoggedTransaction, ghost queue: seq<LoggedTransaction>)
      requires Agrees(schema, queue) && ValidTransaction(tx)
      modifies this
      ensures Agrees(schema, queue + [tx])
    {
      hide CountsQueue, MovedByStatements, Canonical;
      UpdateTransaction(schema, tx, 1);
      transactionCount := transactionCount + 1;
      forall k ensures CountsQueue(schema, k, queue + [tx], Counts(k)) {
        CountsAfterAdd(schema, k, queue, tx, old(Counts(k)), Counts(k));
      }
    }

    method RemoveTransaction(schema: SchemaCache, tx: LoggedTransaction, ghost queue: seq<LoggedTransaction>, ghost i: nat)
      requires Agrees(schema, queue) && i < |queue| && queue[i] == tx && ValidTransaction(tx)
      modifies this
      ensures Agrees(schema, Without(queue, i))
    {
      hide CountsQueue, MovedByStatements, Canonical;
      UpdateTransaction(schema, tx, -1);
      transactionCount := transactionCount - 1;
      forall k ensures CountsQueue(schema, k, Without(queue, i), Counts(k)) {
        CountsAfterRemove(schema, k, queue, i, old(Counts(k)), Counts(k));
      }
    }

    /** Agreement is about the queued transactions, not their order. */
    lemma AgreesReordered(schema: SchemaCache, p: seq<LoggedTransaction>, q: seq<LoggedTransaction>)
      requires Agrees(schema, p) && multiset(p) == multiset(q)
      ensures Agrees(schema, q)
    {
      assert |p| == |multiset(p)| == |multiset(q)| == |q|;
      forall k ensures CountsQueue(schema, k, q, Counts(k)) {
        assert CountsQueue(schema, k, p, Counts(k));
        forall t, c { QueueOrderIrrelevant(schema, k, p, q, t, c); }
      }
    }

    /** The agreement of an index with its queue fixes the index: after any run it equals one
        rebuilt from what is queued now, and an emptied queue leaves six empty maps. */
    lemma AgreementIsUnique(schema: SchemaCache, queue: seq<LoggedTransaction>, other: RemainingMetadataIndex)
      requires Agrees(schema, queue) && other.Agrees(schema, queue)
      ensures forall k :: Counts(k) == other.Counts(k)
      ensures queue == [] ==> forall k :: Counts(k) == map[]
    {
      forall k ensures Counts(k) == other.Counts(k) {
        assert CountsQueue(schema, k, queue, Counts(k)) && CountsQueue(schema, k, queue, other.Counts(k));
        CanonicalUnique(Counts(k), other.Counts(k));
      }
      if queue == [] {
        forall k ensures Counts(k) == map[] {
          assert CountsQueue(schema, k, queue, Counts(k));
          CanonicalUnique(Counts(k), map[]);
        }
      }
    }
  }

  /** Index a whole queue. */
  method FromTransactions(schema: SchemaCache, transactions: seq<LoggedTransaction>) returns (index: RemainingMetadataIndex)
    requires ValidQueue(transactions)
    ensures fresh(index) && index.Agrees(schema, transactions)
  {
    index := new RemainingMetadataIndex();
    for i := 0 to |transactions|
      invariant fresh(index) && index.Agrees(schema, transactions[..i])
    {
      index.AddTransaction(schema, transactions[i], transactions[..i]);
      PrefixSnoc(transactions, i);
    }
    assert transactions[..|transactions|] == transactions;
  }
}
