/** Hidden reads and writes of foreign-key actions: a worklist closure over the schema's
    edges with a depth cut-off (src/merge/cascade_metadata.py). */
module CascadeMetadata {
  import opened Columns
  import opened Models

  const MAX_CASCADE_METADATA_DEPTH: nat := 64

  datatype CascadeEffects = CascadeEffects(
    updated: ColumnMap, referenced: ColumnMap, events: seq<CascadeWriteEvent>)
  {
    predicate HasEffects() {
      updated != map[] || referenced != map[]
    }
  }

  // ----- one step of the action relation -----

  function EdgesByParent(edges: seq<ForeignKeyEdge>, table: Table): seq<ForeignKeyEdge> {
    if edges == [] then []
    else (if edges[0].parentTable == table then [edges[0]] else []) + EdgesByParent(edges[1..], table)
  }

  lemma EdgesByParentMember(edges: seq<ForeignKeyEdge>, table: Table)
    ensures forall edge :: edge in EdgesByParent(edges, table) <==> edge in edges && edge.parentTable == table
  {
  }

  function EdgesByChild(edges: seq<ForeignKeyEdge>, table: Table): seq<ForeignKeyEdge> {
    if edges == [] then []
    else (if edges[0].childTable == table then [edges[0]] else []) + EdgesByChild(edges[1..], table)
  }

  lemma EdgesByChildMember(edges: seq<ForeignKeyEdge>, table: Table)
    ensures forall edge :: edge in EdgesByChild(edges, table) <==> edge in edges && edge.childTable == table
  {
  }

  /** The action a parent event triggers on an edge of its table, if any. */
  function ActionForParentEvent(edge: ForeignKeyEdge, event: CascadeWriteEvent): Option<ForeignKeyAction> {
    if event.kind.DeleteEvent? then Some(edge.onDelete)
    else if ColumnOverlap(event.columns, edge.parentColumns) != {} then Some(edge.onUpdate)
    else None
  }

  /** The hidden child write an action causes, if it writes. */
  function CascadeChildEvent(edge: ForeignKeyEdge, action: ForeignKeyAction, parentKind: EventKind)
    : Option<CascadeWriteEvent>
  {
    if action.Cascade? && parentKind.DeleteEvent? then
      Some(CascadeWriteEvent(edge.childTable, {ALL_COLUMNS}, DeleteEvent))
    else if action.Cascade? || action.SetNull? || action.SetDefault? then
      Some(CascadeWriteEvent(edge.childTable, edge.childColumns, UpdateEvent))
    else None
  }

  predicate Triggers(edge: ForeignKeyEdge, event: CascadeWriteEvent) {
    edge.parentTable == event.table && ActionForParentEvent(edge, event).Some?
  }

  function ChildOf(edge: ForeignKeyEdge, event: CascadeWriteEvent): Option<CascadeWriteEvent> {
    if Triggers(edge, event)
    then CascadeChildEvent(edge, ActionForParentEvent(edge, event).value, event.kind)
    else None
  }

  // ----- the least fixpoint -----

  ghost predicate Succ(edges: seq<ForeignKeyEdge>, parent: CascadeWriteEvent, child: CascadeWriteEvent) {
    exists edge :: edge in edges && ChildOf(edge, parent) == Some(child)
  }

  ghost predicate ReachableIn(edges: seq<ForeignKeyEdge>, start: CascadeWriteEvent, event: CascadeWriteEvent, n: nat)
    decreases n
  {
    if n == 0 then event == start
    else exists parent :: ReachableIn(edges, start, parent, n - 1) && Succ(edges, parent, event)
  }

  /** `event` is a hidden consequence of `start`: one or more foreign-key steps away. */
  ghost predicate Hidden(edges: seq<ForeignKeyEdge>, start: CascadeWriteEvent, event: CascadeWriteEvent) {
    exists n: nat :: n >= 1 && ReachableIn(edges, start, event, n)
  }

  ghost predicate WritesColumn(edges: seq<ForeignKeyEdge>, start: CascadeWriteEvent, t: Table, c: Column) {
    exists event :: Hidden(edges, start, event) && event.table == t && c in event.columns
  }

  ghost predicate Fires(edges: seq<ForeignKeyEdge>, start: CascadeWriteEvent, edge: ForeignKeyEdge) {
    exists event :: (event == start || Hidden(edges, start, event)) && Triggers(edge, event)
  }

  ghost predicate ReadsColumn(edges: seq<ForeignKeyEdge>, start: CascadeWriteEvent, t: Table, c: Column) {
    exists edge :: edge in edges && Fires(edges, start, edge) && edge.childTable == t && c in edge.childColumns
  }

  /** `m` joins exactly the columns that satisfy `p`, `*` absorbing. */
  ghost predicate IsColumnJoin(m: ColumnMap, p: (Table, Column) -> bool) {
    && Absorbing(m)
    && forall t, c :: c in ColumnsOf(m, t) <==> if p(t, ALL_COLUMNS) then c == ALL_COLUMNS else p(t, c)
  }

  // ----- joins of finite parts -----

  type Part = (Table, set<Column>)

  ghost predicate PartHas(parts: set<Part>, t: Table, c: Column) {
    exists part :: part in parts && part.0 == t && c in part.1
  }

  ghost predicate IsJoin(m: ColumnMap, parts: set<Part>) {
    && Absorbing(m)
    && forall t, c :: c in ColumnsOf(m, t) <==> if PartHas(parts, t, ALL_COLUMNS) then c == ALL_COLUMNS else PartHas(parts, t, c)
  }

  lemma JoinAdd(m: ColumnMap, parts: set<Part>, t: Table, columns: set<Column>)
    requires IsJoin(m, parts)
    ensures IsJoin(AddColumns(m, t, columns), parts + {(t, columns)})
  {
    var r, parts' := AddColumns(m, t, columns), parts + {(t, columns)};
    forall u, c
      ensures PartHas(parts', u, c) <==> PartHas(parts, u, c) || (u == t && c in columns)
    {
      if u == t && c in columns { assert (t, columns) in parts'; }
      if PartHas(parts, u, c) {
        var part :| part in parts && part.0 == u && c in part.1;
        assert part in parts';
      }
    }
  }

  ghost function EventParts(events: seq<CascadeWriteEvent>): set<Part> {
    set i | 0 <= i < |events| :: (events[i].table, events[i].columns)
  }

  lemma EventPartsSnoc(events: seq<CascadeWriteEvent>, event: CascadeWriteEvent)
    ensures EventParts(events + [event]) == EventParts(events) + {(event.table, event.columns)}
  {
    var all := events + [event];
    forall p | p in EventParts(events) ensures p in EventParts(all) {
      var i :| 0 <= i < |events| && p == (events[i].table, events[i].columns);
      assert all[i] == events[i];
    }
    assert all[|events|] == event;
  }

  // ----- the finite universe of events -----

  ghost function Universe(edges: seq<ForeignKeyEdge>, start: CascadeWriteEvent): (u: set<CascadeWriteEvent>)
    ensures start in u
    ensures |u| <= 1 + 2 * |edges|
    ensures forall edge, parent :: edge in edges && ChildOf(edge, parent).Some? ==> ChildOf(edge, parent).value in u
  {
    if edges == [] then {start}
    else
      var rest := Universe(edges[1..], start);
      var children := {
        CascadeWriteEvent(edges[0].childTable, {ALL_COLUMNS}, DeleteEvent),
        CascadeWriteEvent(edges[0].childTable, edges[0].childColumns, UpdateEvent)};
      assert |rest + children| <= |rest| + |children|;
      rest + children
  }

  lemma SubsetSize<T>(a: set<T>, b: set<T>)
    requires a <= b
    ensures |a| <= |b|
  {
    assert b == a + (b - a);
  }

  // ----- the worklist -----

  ghost predicate Queued(queue: seq<(CascadeWriteEvent, nat)>, event: CascadeWriteEvent) {
    exists i :: 0 <= i < |queue| && queue[i].0 == event
  }

  /** Every child of an expanded event is recorded and expanded or waiting. */
  ghost predicate Expanded(
    edges: seq<ForeignKeyEdge>, event: CascadeWriteEvent, events: seq<CascadeWriteEvent>,
    visited: set<CascadeWriteEvent>, queue: seq<(CascadeWriteEvent, nat)>)
  {
    forall edge :: edge in edges && ChildOf(edge, event).Some? ==>
      var child := ChildOf(edge, event).value;
      child in events && (child in visited || Queued(queue, child))
  }

  lemma ClosedCoversHidden(
    edges: seq<ForeignKeyEdge>, start: CascadeWriteEvent, event: CascadeWriteEvent, n: nat,
    events: seq<CascadeWriteEvent>, visited: set<CascadeWriteEvent>)
    requires start in visited
    requires forall v :: v in visited ==> Expanded(edges, v, events, visited, [])
    requires ReachableIn(edges, start, event, n)
    ensures event in visited && (n >= 1 ==> event in events)
    decreases n
  {
    if n > 0 {
      var parent :| ReachableIn(edges, start, parent, n - 1) && Succ(edges, parent, event);
      ClosedCoversHidden(edges, start, parent, n - 1, events, visited);
      var edge :| edge in edges && ChildOf(edge, parent) == Some(event);
      assert Expanded(edges, parent, events, visited, []);
    }
  }

  function UnknownWrite(table: Table): CascadeWriteEvent {
    CascadeWriteEvent(table, {ALL_COLUMNS}, UpdateEvent)
  }

  /** Mark every table, when the recursion is too deep to follow. */
  method MarkUnknown(schema: SchemaCache, effects: CascadeEffects) returns (r: CascadeEffects)
    requires IsJoin(effects.updated, EventParts(effects.events))
    requires Absorbing(effects.referenced)
    ensures IsJoin(r.updated, EventParts(r.events))
    ensures Absorbing(r.referenced)
    ensures forall t :: t in schema.tableColumns ==>
      UnknownWrite(t) in r.events && ColumnsOf(r.updated, t) == ColumnsOf(r.referenced, t) == {ALL_COLUMNS}
    ensures effects.events <= r.events
    ensures forall e :: e in r.events ==>
      e in effects.events || (e.table in schema.tableColumns && e == UnknownWrite(e.table))
  {
    r := effects;
    var todo := schema.tableColumns.Keys;
    while todo != {}
      invariant todo <= schema.tableColumns.Keys
      invariant IsJoin(r.updated, EventParts(r.events))
      invariant Absorbing(r.referenced)
      invariant effects.events <= r.events
      invariant forall t :: t in schema.tableColumns.Keys - todo ==>
        UnknownWrite(t) in r.events && ColumnsOf(r.updated, t) == ColumnsOf(r.referenced, t) == {ALL_COLUMNS}
      invariant forall e :: e in r.events ==>
        e in effects.events || (e.table in schema.tableColumns && e == UnknownWrite(e.table))
    {
      var t :| t in todo;
      JoinAdd(r.updated, EventParts(r.events), t, {ALL_COLUMNS});
      EventPartsSnoc(r.events, UnknownWrite(t));
      r := CascadeEffects(
        AddColumns(r.updated, t, {ALL_COLUMNS}),
        AddColumns(r.referenced, t, {ALL_COLUMNS}),
        r.events + [UnknownWrite(t)]);
      todo := todo - {t};
    }
  }

  /** The meaning of an untruncated result: exactly the least fixpoint. */
  ghost predicate ExactEffects(schema: SchemaCache, start: CascadeWriteEvent, effects: CascadeEffects) {
    && (forall e :: e in effects.events <==> Hidden(schema.edges, start, e))
    && IsColumnJoin(effects.updated, (t, c) => WritesColumn(schema.edges, start, t, c))
    && IsColumnJoin(effects.referenced, (t, c) => ReadsColumn(schema.edges, start, t, c))
  }

  /** The meaning of a truncated result: every table is written and read as a whole. */
  ghost predicate UnknownEffects(schema: SchemaCache, effects: CascadeEffects) {
    forall t :: t in schema.tableColumns ==>
      UnknownWrite(t) in effects.events
      && ColumnsOf(effects.updated, t) == ColumnsOf(effects.referenced, t) == {ALL_COLUMNS}
  }

  /** The hidden writes one event causes directly, in edge order. */
  function Children(edges: seq<ForeignKeyEdge>, event: CascadeWriteEvent): seq<CascadeWriteEvent> {
    if edges == [] then []
    else
      var child := ChildOf(edges[|edges| - 1], event);
      Children(edges[..|edges| - 1], event) + (if child.Some? then [child.value] else [])
  }

  lemma ChildrenMember(edges: seq<ForeignKeyEdge>, event: CascadeWriteEvent, child: CascadeWriteEvent)
    ensures child in Children(edges, event) <==> exists edge :: edge in edges && ChildOf(edge, event) == Some(child)
  {
    if edges != [] {
      var rest, last := edges[..|edges| - 1], edges[|edges| - 1];
      ChildrenMember(rest, event, child);
      assert edges == rest + [last];
    }
  }

  /** The children of an event, looked up by parent table, are its successors. */
  lemma ChildrenAreSuccessors(edges: seq<ForeignKeyEdge>, event: CascadeWriteEvent)
    ensures forall child :: child in Children(EdgesByParent(edges, event.table), event) <==> Succ(edges, event, child)
  {
    EdgesByParentMember(edges, event.table);
    forall child {
      ChildrenMember(EdgesByParent(edges, event.table), event, child);
    }
  }

  function AtDepth(events: seq<CascadeWriteEvent>, depth: nat): seq<(CascadeWriteEvent, nat)> {
    if events == [] then [] else AtDepth(events[..|events| - 1], depth) + [(events[|events| - 1], depth)]
  }

  lemma AtDepthAt(events: seq<CascadeWriteEvent>, depth: nat)
    ensures |AtDepth(events, depth)| == |events|
    ensures forall i :: 0 <= i < |events| ==> AtDepth(events, depth)[i] == (events[i], depth)
  {
  }

  ghost function FiredParts(fired: set<ForeignKeyEdge>): set<Part> {
    set edge | edge in fired :: (edge.childTable, edge.childColumns)
  }

  ghost function FiredBy(edges: seq<ForeignKeyEdge>, event: CascadeWriteEvent): set<ForeignKeyEdge> {
    set edge | edge in edges && Triggers(edge, event)
  }

  /** Fold a list of writes into a map, in order. */
  function AddWrites(m: ColumnMap, events: seq<CascadeWriteEvent>): ColumnMap {
    if events == [] then m
    else var last := events[|events| - 1];
         AddColumns(AddWrites(m, events[..|events| - 1]), last.table, last.columns)
  }

  /** Fold the child columns read by the triggered edges into a map, in order. */
  function AddReads(m: ColumnMap, edges: seq<ForeignKeyEdge>, event: CascadeWriteEvent): ColumnMap {
    if edges == [] then m
    else var last := edges[|edges| - 1];
         var before := AddReads(m, edges[..|edges| - 1], event);
         if Triggers(last, event) then AddColumns(before, last.childTable, last.childColumns) else before
  }

  lemma EmptyFolds(m: ColumnMap, event: CascadeWriteEvent, depth: nat)
    ensures AddWrites(m, []) == AddReads(m, [], event) == m && AtDepth([], depth) == [] && Children([], event) == []
  {
  }

  /** What one more edge contributes. */
  lemma ExpandEdge(m: ColumnMap, edges: seq<ForeignKeyEdge>, i: nat, event: CascadeWriteEvent)
    requires i < |edges|
    ensures var child := ChildOf(edges[i], event);
      Children(edges[..i + 1], event) ==
        if child.Some? then Children(edges[..i], event) + [child.value] else Children(edges[..i], event)
    ensures var before := AddReads(m, edges[..i], event);
      AddReads(m, edges[..i + 1], event) ==
        if Triggers(edges[i], event) then AddColumns(before, edges[i].childTable, edges[i].childColumns) else before
  {
    PrefixSnoc(edges, i);
  }

  lemma AddWriteLast(m: ColumnMap, events: seq<CascadeWriteEvent>, event: CascadeWriteEvent, depth: nat)
    ensures AddWrites(m, events + [event]) == AddColumns(AddWrites(m, events), event.table, event.columns)
    ensures AtDepth(events + [event], depth) == AtDepth(events, depth) + [(event, depth)]
  {
    assert (events + [event])[..|events|] == events;
  }

  lemma AddWritesJoins(m: ColumnMap, before: seq<CascadeWriteEvent>, events: seq<CascadeWriteEvent>)
    requires IsJoin(m, EventParts(before))
    ensures IsJoin(AddWrites(m, events), EventParts(before + events))
  {
    if events == [] {
      assert before + events == before;
    } else {
      var rest, last := events[..|events| - 1], events[|events| - 1];
      AddWritesJoins(m, before, rest);
      assert before + events == (before + rest) + [last];
      EventPartsSnoc(before + rest, last);
      JoinAdd(AddWrites(m, rest), EventParts(before + rest), last.table, last.columns);
    }
  }

  lemma AddReadsJoins(m: ColumnMap, fired: set<ForeignKeyEdge>, edges: seq<ForeignKeyEdge>, event: CascadeWriteEvent)
    requires IsJoin(m, FiredParts(fired))
    ensures IsJoin(AddReads(m, edges, event), FiredParts(fired + FiredBy(edges, event)))
  {
    if edges == [] {
      assert fired + FiredBy(edges, event) == fired;
    } else {
      var rest, last := edges[..|edges| - 1], edges[|edges| - 1];
      AddReadsJoins(m, fired, rest, event);
      assert edges == rest + [last];
      var before := fired + FiredBy(rest, event);
      if Triggers(last, event) {
        assert fired + FiredBy(edges, event) == before + {last};
        assert FiredParts(before + {last}) == FiredParts(before) + {(last.childTable, last.childColumns)};
        JoinAdd(AddReads(m, rest, event), FiredParts(before), last.childTable, last.childColumns);
      } else {
        assert fired + FiredBy(edges, event) == before;
      }
    }
  }

  /** Effects and queue after an event has been expanded over these edges. */
  function AfterEdges(
    effects: CascadeEffects, queue: seq<(CascadeWriteEvent, nat)>, edges: seq<ForeignKeyEdge>, event: CascadeWriteEvent, depth: nat)
    : (CascadeEffects, seq<(CascadeWriteEvent, nat)>)
  {
    var children := Children(edges, event);
    (CascadeEffects(AddWrites(effects.updated, children), AddReads(effects.referenced, edges, event), effects.events + children),
     queue + AtDepth(children, depth + 1))
  }

  lemma AfterNoEdges(effects: CascadeEffects, queue: seq<(CascadeWriteEvent, nat)>, event: CascadeWriteEvent, depth: nat)
    ensures AfterEdges(effects, queue, [], event, depth) == (effects, queue)
  {
    EmptyFolds(effects.updated, event, depth + 1);
    EmptyFolds(effects.referenced, event, depth + 1);
    assert effects.events + [] == effects.events && queue + [] == queue;
  }

  lemma AfterOneMoreEdge(
    effects: CascadeEffects, queue: seq<(CascadeWriteEvent, nat)>, edges: seq<ForeignKeyEdge>, event: CascadeWriteEvent, depth: nat, i: nat)
    requires i < |edges|
    ensures var (before, q) := AfterEdges(effects, queue, edges[..i], event, depth);
      var referenced := if Triggers(edges[i], event) then AddColumns(before.referenced, edges[i].childTable, edges[i].childColumns) else before.referenced;
      AfterEdges(effects, queue, edges[..i + 1], event, depth) ==
        match ChildOf(edges[i], event)
        case None => (before.(referenced := referenced), q)
        case Some(child) =>
          (CascadeEffects(AddColumns(before.updated, child.table, child.columns), referenced, before.events + [child]), q + [(child, depth + 1)])
  {
    hide AddColumns, AddWrites, AddReads, AtDepth, Children, ChildOf, Triggers;
    ExpandEdge(effects.referenced, edges, i, event);
    var child, children := ChildOf(edges[i], event), Children(edges[..i], event);
    if child.Some? {
      AddWriteLast(effects.updated, children, child.value, depth + 1);
      assert effects.events + (children + [child.value]) == (effects.events + children) + [child.value];
      assert queue + (AtDepth(children, depth + 1) + [(child.value, depth + 1)]) == (queue + AtDepth(children, depth + 1)) + [(child.value, depth + 1)];
    }
  }

  /** Expand one event over the edges of its table. */
  method ExpandEvent(
    schema: SchemaCache, event: CascadeWriteEvent, depth: nat,
    effects0: CascadeEffects, queue0: seq<(CascadeWriteEvent, nat)>)
    returns (effects: CascadeEffects, queue: seq<(CascadeWriteEvent, nat)>)
    ensures (effects, queue) == AfterEdges(effects0, queue0, EdgesByParent(schema.edges, event.table), event, depth)
  {
    hide AddColumns, ActionForParentEvent, CascadeChildEvent, AfterEdges, EdgesByParent;
    var edges := EdgesByParent(schema.edges, event.table);
    effects, queue := effects0, queue0;
    AfterNoEdges(effects0, queue0, event, depth);
    EdgesByParentMember(schema.edges, event.table);
    for i := 0 to |edges|
      invariant (effects, queue) == AfterEdges(effects0, queue0, edges[..i], event, depth)
    {
      var edge := edges[i];
      AfterOneMoreEdge(effects0, queue0, edges, event, depth, i);
      var action := ActionForParentEvent(edge, event);
      if action.None? {
        continue;
      }
      effects := effects.(referenced := AddColumns(effects.referenced, edge.childTable, edge.childColumns));
      var child := CascadeChildEvent(edge, action.value, event.kind);
      if child.None? {
        continue;
      }
      effects := effects.(
        updated := AddColumns(effects.updated, child.value.table, child.value.columns),
        events := effects.events + [child.value]);
      queue := queue + [(child.value, depth + 1)];
    }
    assert edges[..|edges|] == edges;
  }

  /** What the worklist knows at the head of its loop. */
  ghost predicate Progress(
    edges: seq<ForeignKeyEdge>, start: CascadeWriteEvent, events: seq<CascadeWriteEvent>,
    queue: seq<(CascadeWriteEvent, nat)>, visited: set<CascadeWriteEvent>)
  {
    && (forall i :: 0 <= i < |queue| ==> ReachableIn(edges, start, queue[i].0, queue[i].1))
    && (start in visited || Queued(queue, start))
    && (forall v :: v in visited ==>
          (v == start || Hidden(edges, start, v)) && Expanded(edges, v, events, visited, queue))
    && (forall e :: e in events ==> Hidden(edges, start, e))
  }

  lemma QueuedTail(queue: seq<(CascadeWriteEvent, nat)>, event: CascadeWriteEvent)
    requires Queued(queue, event)
    ensures queue != [] && (event == queue[0].0 || Queued(queue[1..], event))
  {
    var i :| 0 <= i < |queue| && queue[i].0 == event;
    if i > 0 { assert queue[1..][i - 1].0 == event; }
  }

  lemma QueuedAppend(queue: seq<(CascadeWriteEvent, nat)>, more: seq<(CascadeWriteEvent, nat)>, event: CascadeWriteEvent)
    requires Queued(queue, event) || Queued(more, event)
    ensures Queued(queue + more, event)
  {
    if Queued(queue, event) {
      var i :| 0 <= i < |queue| && queue[i].0 == event;
      assert (queue + more)[i].0 == event;
    } else {
      var i :| 0 <= i < |more| && more[i].0 == event;
      assert (queue + more)[|queue| + i].0 == event;
    }
  }

  /** Dropping a head that is expanded already keeps the progress. */
  lemma SkipProgress(
    edges: seq<ForeignKeyEdge>, start: CascadeWriteEvent, events: seq<CascadeWriteEvent>,
    queue: seq<(CascadeWriteEvent, nat)>, visited: set<CascadeWriteEvent>)
    requires Progress(edges, start, events, queue, visited)
    requires queue != [] && queue[0].0 in visited
    ensures Progress(edges, start, events, queue[1..], visited)
  {
    if start !in visited { QueuedTail(queue, start); }
    forall v | v in visited ensures Expanded(edges, v, events, visited, queue[1..]) {
      forall edge | edge in edges && ChildOf(edge, v).Some?
        ensures ChildOf(edge, v).value in visited || Queued(queue[1..], ChildOf(edge, v).value)
      {
        assert Expanded(edges, v, events, visited, queue);
        if ChildOf(edge, v).value !in visited { QueuedTail(queue, ChildOf(edge, v).value); }
      }
    }
  }

  /** Expanding the head, whose children are given, keeps the progress. */
  lemma ExpandProgress(
    edges: seq<ForeignKeyEdge>, start: CascadeWriteEvent, events: seq<CascadeWriteEvent>,
    queue: seq<(CascadeWriteEvent, nat)>, visited: set<CascadeWriteEvent>, children: seq<CascadeWriteEvent>)
    requires Progress(edges, start, events, queue, visited)
    requires queue != []
    requires forall child :: child in children <==> Succ(edges, queue[0].0, child)
    ensures Progress(edges, start, events + children, queue[1..] + AtDepth(children, queue[0].1 + 1), visited + {queue[0].0})
  {
    var (event, depth) := queue[0];
    var more := AtDepth(children, depth + 1);
    AtDepthAt(children, depth + 1);
    var queue' := queue[1..] + more;
    var visited' := visited + {event};
    assert ReachableIn(edges, start, event, depth);
    forall child | child in children ensures ReachableIn(edges, start, child, depth + 1) && Hidden(edges, start, child) {
      assert Succ(edges, event, child);
    }
    forall i | 0 <= i < |queue'| ensures ReachableIn(edges, start, queue'[i].0, queue'[i].1) {
      if i < |queue| - 1 {
        assert queue'[i] == queue[i + 1];
      } else {
        assert queue'[i] == more[i - (|queue| - 1)];
        assert queue'[i].0 in children;
      }
    }
    if start !in visited' { QueuedTail(queue, start); QueuedAppend(queue[1..], more, start); }
    if depth > 0 { assert Hidden(edges, start, event); }
    forall v | v in visited' ensures Expanded(edges, v, events + children, visited', queue') {
      if v == event && v !in visited {
        ExpandedHead(edges, event, events, queue[1..], visited', children, depth);
      } else {
        ExpandedKept(edges, v, events, queue, visited, children, more);
      }
    }
  }

  lemma ExpandedHead(
    edges: seq<ForeignKeyEdge>, event: CascadeWriteEvent, events: seq<CascadeWriteEvent>,
    rest: seq<(CascadeWriteEvent, nat)>, visited: set<CascadeWriteEvent>, children: seq<CascadeWriteEvent>, depth: nat)
    requires forall child :: child in children <==> Succ(edges, event, child)
    ensures Expanded(edges, event, events + children, visited, rest + AtDepth(children, depth + 1))
  {
    var more := AtDepth(children, depth + 1);
    AtDepthAt(children, depth + 1);
    forall edge | edge in edges && ChildOf(edge, event).Some?
      ensures var child := ChildOf(edge, event).value; child in events + children && Queued(rest + more, child)
    {
      var child := ChildOf(edge, event).value;
      assert Succ(edges, event, child);
      var i :| 0 <= i < |children| && children[i] == child;
      assert more[i].0 == child;
      QueuedAppend(rest, more, child);
    }
  }

  lemma ExpandedKept(
    edges: seq<ForeignKeyEdge>, v: CascadeWriteEvent, events: seq<CascadeWriteEvent>,
    queue: seq<(CascadeWriteEvent, nat)>, visited: set<CascadeWriteEvent>,
    children: seq<CascadeWriteEvent>, more: seq<(CascadeWriteEvent, nat)>)
    requires queue != []
    requires Expanded(edges, v, events, visited, queue)
    ensures Expanded(edges, v, events + children, visited + {queue[0].0}, queue[1..] + more)
  {
    forall edge | edge in edges && ChildOf(edge, v).Some?
      ensures var child := ChildOf(edge, v).value;
        child in events + children && (child in visited + {queue[0].0} || Queued(queue[1..] + more, child))
    {
      var child := ChildOf(edge, v).value;
      if child !in visited + {queue[0].0} { QueuedTail(queue, child); QueuedAppend(queue[1..], more, child); }
    }
  }

  /** A drained worklist holds the least fixpoint. */
  lemma DrainedIsExact(
    schema: SchemaCache, start: CascadeWriteEvent, effects: CascadeEffects,
    visited: set<CascadeWriteEvent>, fired: set<ForeignKeyEdge>)
    requires Working(schema, start, effects, [], visited, fired)
    ensures ExactEffects(schema, start, effects)
  {
    var edges := schema.edges;
    forall e | Hidden(edges, start, e) ensures e in effects.events && e in visited {
      var n: nat :| n >= 1 && ReachableIn(edges, start, e, n);
      ClosedCoversHidden(edges, start, e, n, effects.events, visited);
    }
    forall t, c ensures PartHas(EventParts(effects.events), t, c) <==> WritesColumn(edges, start, t, c) {
      if WritesColumn(edges, start, t, c) {
        var e :| Hidden(edges, start, e) && e.table == t && c in e.columns;
        var i :| 0 <= i < |effects.events| && effects.events[i] == e;
        assert (e.table, e.columns) in EventParts(effects.events);
      }
    }
    forall t, c ensures PartHas(FiredParts(fired), t, c) <==> ReadsColumn(edges, start, t, c) {
      if ReadsColumn(edges, start, t, c) {
        var edge :| edge in edges && Fires(edges, start, edge) && edge.childTable == t && c in edge.childColumns;
        assert (edge.childTable, edge.childColumns) in FiredParts(fired);
      }
    }
  }

  lemma ChildrenInUniverse(edges: seq<ForeignKeyEdge>, start: CascadeWriteEvent, event: CascadeWriteEvent, depth: nat)
    ensures forall entry :: entry in AtDepth(Children(EdgesByParent(edges, event.table), event), depth + 1) ==>
      entry.0 in Universe(edges, start) && entry.1 == depth + 1
  {
    var children := Children(EdgesByParent(edges, event.table), event);
    AtDepthAt(children, depth + 1);
    ChildrenAreSuccessors(edges, event);
    forall child | child in children ensures child in Universe(edges, start) {
      var edge :| edge in edges && ChildOf(edge, event) == Some(child);
    }
  }

  /** Everything the worklist keeps, before the depth cut-off. */
  ghost predicate Working(
    schema: SchemaCache, start: CascadeWriteEvent, effects: CascadeEffects,
    queue: seq<(CascadeWriteEvent, nat)>, visited: set<CascadeWriteEvent>, fired: set<ForeignKeyEdge>)
  {
    && Progress(schema.edges, start, effects.events, queue, visited)
    && IsJoin(effects.updated, EventParts(effects.events))
    && IsJoin(effects.referenced, FiredParts(fired))
    && forall edge :: edge in fired <==> edge in schema.edges && exists v :: v in visited && Triggers(edge, v)
  }

  lemma WorkingMeans(
    schema: SchemaCache, start: CascadeWriteEvent, effects: CascadeEffects,
    queue: seq<(CascadeWriteEvent, nat)>, visited: set<CascadeWriteEvent>, fired: set<ForeignKeyEdge>)
    requires Working(schema, start, effects, queue, visited, fired)
    ensures IsJoin(effects.updated, EventParts(effects.events))
    ensures Absorbing(effects.referenced)
    ensures forall e :: e in effects.events ==> Hidden(schema.edges, start, e)
  {
  }

  lemma WorkingStart(schema: SchemaCache, start: CascadeWriteEvent)
    ensures Working(schema, start, CascadeEffects(map[], map[], []), [(start, 0)], {}, {})
  {
    var queue: seq<(CascadeWriteEvent, nat)> := [(start, 0)];
    assert queue[0].0 == start;
    assert ReachableIn(schema.edges, start, start, 0);
  }

  lemma WorkingSkip(
    schema: SchemaCache, start: CascadeWriteEvent, effects: CascadeEffects,
    queue: seq<(CascadeWriteEvent, nat)>, visited: set<CascadeWriteEvent>, fired: set<ForeignKeyEdge>)
    requires Working(schema, start, effects, queue, visited, fired)
    requires queue != [] && queue[0].0 in visited
    ensures Working(schema, start, effects, queue[1..], visited, fired)
  {
    SkipProgress(schema.edges, start, effects.events, queue, visited);
  }

  /** Expanding the head in the three accumulators together. */
  lemma WorkingStep(
    schema: SchemaCache, start: CascadeWriteEvent, effects: CascadeEffects, effects': CascadeEffects,
    queue: seq<(CascadeWriteEvent, nat)>, visited: set<CascadeWriteEvent>, fired: set<ForeignKeyEdge>,
    children: seq<CascadeWriteEvent>)
    requires Working(schema, start, effects, queue, visited, fired)
    requires queue != []
    requires children == Children(EdgesByParent(schema.edges, queue[0].0.table), queue[0].0)
    requires effects' == CascadeEffects(
      AddWrites(effects.updated, children),
      AddReads(effects.referenced, EdgesByParent(schema.edges, queue[0].0.table), queue[0].0),
      effects.events + children)
    ensures Working(schema, start, effects', queue[1..] + AtDepth(children, queue[0].1 + 1),
              visited + {queue[0].0}, fired + FiredBy(schema.edges, queue[0].0))
  {
    var event := queue[0].0;
    var edges := EdgesByParent(schema.edges, event.table);
    ChildrenAreSuccessors(schema.edges, event);
    EdgesByParentMember(schema.edges, event.table);
    ExpandProgress(schema.edges, start, effects.events, queue, visited, children);
    AddWritesJoins(effects.updated, effects.events, children);
    AddReadsJoins(effects.referenced, fired, edges, event);
    assert FiredBy(edges, event) == FiredBy(schema.edges, event);
  }

  /** All the loop keeps: the worklist, and depths 0 .. levels - 1 expanded, each by an event of its own. */
  ghost predicate Underway(
    schema: SchemaCache, start: CascadeWriteEvent, effects: CascadeEffects,
    queue: seq<(CascadeWriteEvent, nat)>, visited: set<CascadeWriteEvent>, fired: set<ForeignKeyEdge>, levels: nat)
  {
    && Working(schema, start, effects, queue, visited, fired)
    && visited <= Universe(schema.edges, start) && levels <= |visited|
    && forall entry :: entry in queue ==> entry.0 in Universe(schema.edges, start) && entry.1 <= levels
  }

  lemma UnderwayStart(schema: SchemaCache, start: CascadeWriteEvent)
    ensures Underway(schema, start, CascadeEffects(map[], map[], []), [(start, 0)], {}, {}, 0)
  {
    hide Working;
    WorkingStart(schema, start);
  }

  lemma UnderwaySkip(
    schema: SchemaCache, start: CascadeWriteEvent, effects: CascadeEffects,
    queue: seq<(CascadeWriteEvent, nat)>, visited: set<CascadeWriteEvent>, fired: set<ForeignKeyEdge>, levels: nat)
    requires Underway(schema, start, effects, queue, visited, fired, levels)
    requires queue != [] && queue[0].0 in visited
    ensures Underway(schema, start, effects, queue[1..], visited, fired, levels)
  {
    hide Working, Universe;
    WorkingSkip(schema, start, effects, queue, visited, fired);
    assert forall entry :: entry in queue[1..] ==> entry in queue;
  }

  lemma UnderwayStep(
    schema: SchemaCache, start: CascadeWriteEvent, effects: CascadeEffects, effects': CascadeEffects,
    queue: seq<(CascadeWriteEvent, nat)>, queue': seq<(CascadeWriteEvent, nat)>,
    visited: set<CascadeWriteEvent>, fired: set<ForeignKeyEdge>, levels: nat)
    requires Underway(schema, start, effects, queue, visited, fired, levels)
    requires queue != [] && queue[0].0 !in visited
    requires (effects', queue') == AfterEdges(effects, queue[1..], EdgesByParent(schema.edges, queue[0].0.table), queue[0].0, queue[0].1)
    ensures Underway(schema, start, effects', queue', visited + {queue[0].0},
              fired + FiredBy(schema.edges, queue[0].0), if queue[0].1 == levels then levels + 1 else levels)
    ensures var universe := Universe(schema.edges, start); |universe - (visited + {queue[0].0})| < |universe - visited|
  {
    hide Working, Universe, AtDepth, Children, AddWrites, AddReads, FiredBy, EdgesByParent;
    var (event, depth) := queue[0];
    var children := Children(EdgesByParent(schema.edges, event.table), event);
    assert queue[0] in queue;
    WorkingStep(schema, start, effects, effects', queue, visited, fired, children);
    EntriesInUniverse(schema, start, queue, levels);
    VisitOne(Universe(schema.edges, start), visited, event);
  }

  lemma EntriesInUniverse(schema: SchemaCache, start: CascadeWriteEvent, queue: seq<(CascadeWriteEvent, nat)>, levels: nat)
    requires queue != [] && forall entry :: entry in queue ==> entry.0 in Universe(schema.edges, start) && entry.1 <= levels
    ensures var (event, depth) := queue[0];
      forall entry :: entry in queue[1..] + AtDepth(Children(EdgesByParent(schema.edges, event.table), event), depth + 1) ==>
        entry.0 in Universe(schema.edges, start) && entry.1 <= if depth == levels then levels + 1 else levels
  {
    hide Universe, AtDepth, Children, EdgesByParent;
    var (event, depth) := queue[0];
    assert queue[0] in queue;
    ChildrenInUniverse(schema.edges, start, event, depth);
    assert forall entry :: entry in queue[1..] ==> entry in queue;
  }

  lemma VisitOne(universe: set<CascadeWriteEvent>, visited: set<CascadeWriteEvent>, event: CascadeWriteEvent)
    requires event in universe && event !in visited
    ensures |universe - (visited + {event})| < |universe - visited| && |visited + {event}| == |visited| + 1
  {
    assert universe - visited == (universe - (visited + {event})) + {event};
  }

  /** A queued event that deep needs as many visited events before it. */
  lemma UnderwayTooDeep(
    schema: SchemaCache, start: CascadeWriteEvent, effects: CascadeEffects,
    queue: seq<(CascadeWriteEvent, nat)>, visited: set<CascadeWriteEvent>, fired: set<ForeignKeyEdge>, levels: nat)
    requires Underway(schema, start, effects, queue, visited, fired, levels)
    requires queue != [] && queue[0].1 > MAX_CASCADE_METADATA_DEPTH
    ensures |schema.edges| > 31
  {
    hide Working;
    assert queue[0] in queue;
    SubsetSize(visited, Universe(schema.edges, start));
  }

  lemma UnderwayMeans(
    schema: SchemaCache, start: CascadeWriteEvent, effects: CascadeEffects,
    queue: seq<(CascadeWriteEvent, nat)>, visited: set<CascadeWriteEvent>, fired: set<ForeignKeyEdge>, levels: nat)
    requires Underway(schema, start, effects, queue, visited, fired, levels)
    ensures IsJoin(effects.updated, EventParts(effects.events))
    ensures Absorbing(effects.referenced)
    ensures forall e :: e in effects.events ==> Hidden(schema.edges, start, e)
    ensures queue == [] ==> ExactEffects(schema, start, effects)
  {
    hide Working, Universe, IsJoin, ExactEffects, Hidden;
    WorkingMeans(schema, start, effects, queue, visited, fired);
    if queue == [] { WorkingDrained(schema, start, effects, visited, fired); }
  }

  lemma WorkingDrained(schema: SchemaCache, start: CascadeWriteEvent, effects: CascadeEffects, visited: set<CascadeWriteEvent>, fired: set<ForeignKeyEdge>)
    requires Working(schema, start, effects, [], visited, fired)
    ensures ExactEffects(schema, start, effects)
  {
    hide ExactEffects, IsJoin;
    DrainedIsExact(schema, start, effects, visited, fired);
  }

  /** Hidden writes of one event: exactly the least fixpoint, unless the depth cut-off fires,
      which takes more than 31 foreign-key edges. */
  method CascadeEffectsForEvent(schema: SchemaCache, start: CascadeWriteEvent)
    returns (effects: CascadeEffects, ghost truncated: bool)
    ensures !truncated ==> ExactEffects(schema, start, effects)
    ensures truncated ==> UnknownEffects(schema, effects)
    ensures truncated ==> |schema.edges| > 31
    ensures IsJoin(effects.updated, EventParts(effects.events))
    ensures forall e :: e in effects.events ==> Hidden(schema.edges, start, e) || e == UnknownWrite(e.table)
  {
    hide Underway, IsJoin, ExactEffects, Hidden, Universe, AfterEdges, EdgesByParent, FiredBy;
    effects := CascadeEffects(map[], map[], []);
    var queue: seq<(CascadeWriteEvent, nat)> := [(start, 0)];
    var visited: set<CascadeWriteEvent> := {};
    truncated := false;
    ghost var fired: set<ForeignKeyEdge> := {};
    ghost var levels: nat := 0;

    UnderwayStart(schema, start);
    while queue != []
      invariant Underway(schema, start, effects, queue, visited, fired, levels)
      decreases |Universe(schema.edges, start) - visited|, |queue|
    {
      var (event, depth) := queue[0];
      if depth > MAX_CASCADE_METADATA_DEPTH {
        UnderwayTooDeep(schema, start, effects, queue, visited, fired, levels);
        UnderwayMeans(schema, start, effects, queue, visited, fired, levels);
        truncated := true;
        effects := MarkUnknown(schema, effects);
        return;
      }
      if event in visited {
        UnderwaySkip(schema, start, effects, queue, visited, fired, levels);
        queue := queue[1..];
        continue;
      }
      ghost var before, queue0 := effects, queue;
      effects, queue := ExpandEvent(schema, event, depth, effects, queue[1..]);
      UnderwayStep(schema, start, before, effects, queue0, queue, visited, fired, levels);
      fired := fired + FiredBy(schema.edges, event);
      visited := visited + {event};
      if depth == levels { levels := levels + 1; }
    }
    UnderwayMeans(schema, start, effects, queue, visited, fired, levels);
  }

  // ----- what the consumers of an event list see -----

  predicate EventMayCreateOrChangeKey(event: CascadeWriteEvent, table: Table, key: set<Column>) {
    event.kind.UpdateEvent? && event.table == table && ColumnOverlap(event.columns, key) != {}
  }

  predicate EventMayRemoveOrChangeKey(event: CascadeWriteEvent, table: Table, key: set<Column>) {
    event.table == table && (event.kind.DeleteEvent? || ColumnOverlap(event.columns, key) != {})
  }

  predicate MayCreateKey(events: seq<CascadeWriteEvent>, table: Table, key: set<Column>) {
    exists e :: e in events && EventMayCreateOrChangeKey(e, table, key)
  }

  predicate MayRemoveKey(events: seq<CascadeWriteEvent>, table: Table, key: set<Column>) {
    exists e :: e in events && EventMayRemoveOrChangeKey(e, table, key)
  }

  lemma HiddenOnChild(schema: SchemaCache, start: CascadeWriteEvent, event: CascadeWriteEvent)
    requires schema.Valid()
    requires Hidden(schema.edges, start, event)
    ensures event.table in schema.tableColumns && event.columns != {}
    ensures event.kind.DeleteEvent? ==> event.columns == {ALL_COLUMNS}
  {
    var n: nat :| n >= 1 && ReachableIn(schema.edges, start, event, n);
    var parent :| ReachableIn(schema.edges, start, parent, n - 1) && Succ(schema.edges, parent, event);
    var edge :| edge in schema.edges && ChildOf(edge, parent) == Some(event);
    var i :| 0 <= i < |schema.edges| && schema.edges[i] == edge;
  }

  /** Truncated or not, the returned effects show every consumer each event that is reachable
      through foreign keys: as a key-creating write, a key-removing write, and a write or read
      of columns. A truncated result lists updates only, yet a hidden delete still counts as
      removing the keys of its table. */
  lemma EffectsCover(
    schema: SchemaCache, start: CascadeWriteEvent, effects: CascadeEffects,
    event: CascadeWriteEvent, table: Table, columns: set<Column>)
    requires schema.Valid()
    requires ExactEffects(schema, start, effects) || UnknownEffects(schema, effects)
    requires Hidden(schema.edges, start, event)
    requires columns != {}
    ensures EventMayCreateOrChangeKey(event, table, columns) ==> MayCreateKey(effects.events, table, columns)
    ensures EventMayRemoveOrChangeKey(event, table, columns) ==> MayRemoveKey(effects.events, table, columns)
    ensures Overlaps(event.columns, columns) ==> Overlaps(ColumnsOf(effects.updated, event.table), columns)
  {
    hide Hidden;
    HiddenOnChild(schema, start, event);
    if UnknownEffects(schema, effects) {
      var whole := UnknownWrite(event.table);
      assert whole in effects.events;
      assert Meets(ALL_COLUMNS, columns);
    } else {
      if c :| c in event.columns && Meets(c, columns) {
        assert WritesColumn(schema.edges, start, event.table, c);
        var seen := if WritesColumn(schema.edges, start, event.table, ALL_COLUMNS) then ALL_COLUMNS else c;
        assert seen in ColumnsOf(effects.updated, event.table) && Meets(seen, columns);
      }
    }
  }

  /** Truncated or not, the child columns of every foreign key that fires count as read. */
  lemma ReadsCover(
    schema: SchemaCache, start: CascadeWriteEvent, effects: CascadeEffects, edge: ForeignKeyEdge, columns: set<Column>)
    requires schema.Valid()
    requires ExactEffects(schema, start, effects) || UnknownEffects(schema, effects)
    requires edge in schema.edges && Fires(schema.edges, start, edge)
    ensures Overlaps(edge.childColumns, columns) ==> Overlaps(ColumnsOf(effects.referenced, edge.childTable), columns)
  {
    hide Hidden;
    if c :| c in edge.childColumns && Meets(c, columns) {
      var i :| 0 <= i < |schema.edges| && schema.edges[i] == edge;
      if UnknownEffects(schema, effects) {
        assert Meets(ALL_COLUMNS, columns);
        assert ALL_COLUMNS in ColumnsOf(effects.referenced, edge.childTable);
      } else {
        assert ReadsColumn(schema.edges, start, edge.childTable, c);
        var seen := if ReadsColumn(schema.edges, start, edge.childTable, ALL_COLUMNS) then ALL_COLUMNS else c;
        assert seen in ColumnsOf(effects.referenced, edge.childTable) && Meets(seen, columns);
      }
    }
  }

  /** What a join meets is what one of its writes meets. */
  lemma JoinMeets(m: ColumnMap, events: seq<CascadeWriteEvent>, t: Table, columns: set<Column>)
    requires IsJoin(m, EventParts(events))
    ensures Overlaps(ColumnsOf(m, t), columns) <==>
      exists e :: e in events && e.table == t && Overlaps(e.columns, columns)
  {
    var parts := EventParts(events);
    if c :| c in ColumnsOf(m, t) && Meets(c, columns) {
      assert PartHas(parts, t, c);
      var part :| part in parts && part.0 == t && c in part.1;
      var i :| 0 <= i < |events| && part == (events[i].table, events[i].columns);
      assert Overlaps(events[i].columns, columns);
    }
    if e :| e in events && e.table == t && Overlaps(e.columns, columns) {
      var c :| c in e.columns && Meets(c, columns);
      assert (e.table, e.columns) in parts;
      assert PartHas(parts, t, c);
      var seen := if PartHas(parts, t, ALL_COLUMNS) then ALL_COLUMNS else c;
      assert seen in ColumnsOf(m, t) && Meets(seen, columns);
    }
  }

  /** Without truncation nothing else counts as read. */
  lemma ReadsOnly(schema: SchemaCache, start: CascadeWriteEvent, effects: CascadeEffects, t: Table, columns: set<Column>)
    requires ExactEffects(schema, start, effects) && Overlaps(ColumnsOf(effects.referenced, t), columns)
    ensures exists edge :: edge in schema.edges && Fires(schema.edges, start, edge) && edge.childTable == t && Overlaps(edge.childColumns, columns)
  {
    hide Hidden, Fires;
    var c :| c in ColumnsOf(effects.referenced, t) && Meets(c, columns);
    assert ReadsColumn(schema.edges, start, t, c);
    var edge :| edge in schema.edges && Fires(schema.edges, start, edge) && edge.childTable == t && c in edge.childColumns;
    assert Overlaps(edge.childColumns, columns);
  }
}
