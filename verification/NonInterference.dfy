/** What an accepted head changes about the opposite transactions behind it. Without an accepted pair: nothing
    they write. After one: nothing that is not reached through the accepted transactions' own columns. */
module NonInterference {
  import opened Columns
  import opened Models
  import opened SqlMetadata
  import opened StaticAnalysis
  import opened Database
  import opened Interference
  import AcceptedReplay
  import opened RemainingExecution
  import opened ConflictDetection
  import opened MergeTool

  // ----- unions of column maps -----

  lemma CoveredByUnion(left: ColumnMap, right: ColumnMap, cell: Cell)
    ensures Covered(UnionMaps(left, right), cell) <==> Covered(left, cell) || Covered(right, cell)
  {
  }

  lemma OverlapsUnion(m: ColumnMap, left: ColumnMap, right: ColumnMap)
    ensures MapsOverlap(m, UnionMaps(left, right)) <==> MapsOverlap(m, left) || MapsOverlap(m, right)
  {
    hide MapsOverlap;
    MapsOverlapAt(m, left);
    MapsOverlapAt(m, right);
    MapsOverlapAt(m, UnionMaps(left, right));
    forall t { OverlapsBoth(ColumnsOf(m, t), ColumnsOf(left, t), ColumnsOf(right, t)); }
    assert forall t :: ColumnsOf(UnionMaps(left, right), t) == ColumnsOf(left, t) + ColumnsOf(right, t);
  }

  lemma OverlapsBoth(columns: set<Column>, left: set<Column>, right: set<Column>)
    ensures Overlaps(columns, left + right) <==> Overlaps(columns, left) || Overlaps(columns, right)
  {
  }

  /** Each side may move within `more`: the sides then differ in `columns` and `more` at most. */
  lemma BothMove(columns: ColumnMap, more: ColumnMap, a: Db, b: Db, a': Db, b': Db)
    requires DifferOnlyIn(columns, a, b) && DifferOnlyIn(more, a, a') && DifferOnlyIn(more, b, b')
    ensures DifferOnlyIn(UnionMaps(columns, more), a', b')
  {
    hide Covered;
    forall cell | Lookup(a', cell) != Lookup(b', cell) ensures Covered(UnionMaps(columns, more), cell) {
      CoveredByUnion(columns, more, cell);
    }
  }

  // ----- one opposite transaction -----

  /** Where `before` has been replayed on both sides, control differs from main only in `columns`. */
  ghost predicate Separated(e: Engine, base: Db, current: LoggedTransaction, columns: ColumnMap, before: seq<LoggedTransaction>) {
    var m, c := ReplayAll(e, Main, base, before), ReplayAll(e, Control, base, [current] + before);
    m.Some? && c.Some? ==> DifferOnlyIn(columns, m.value, c.value)
  }

  /** And `other` makes the same writes there, statement by statement, with the head as without it. */
  ghost predicate Harmless(e: Engine, base: Db, current: LoggedTransaction, before: seq<LoggedTransaction>, other: LoggedTransaction) {
    var m, c := ReplayAll(e, Main, base, before), ReplayAll(e, Control, base, [current] + before);
    m.Some? && c.Some? ==> SameWrites(e, other.statements, m.value, c.value)
  }

  lemma SeparatedAtStart(e: Engine, base: Db, current: LoggedTransaction)
    requires ValidTransaction(current) && Predictable(e, current)
    ensures Separated(e, base, current, current.metadata.updated, [])
  {
    hide DifferOnlyIn, Predictable, ValidTransaction;
    assert [current] + [] == [] + [current];
    ReplayAllSnoc(e, Control, base, [], current);
    SameDiffersNowhere(current.metadata.updated, base);
    ReplayStaysWithin(e, Control, current, |current.statements|, base);
    assert current.statements[..|current.statements|] == current.statements;
  }

  ghost predicate QuietBehind(e: Engine, base: DbState, current: LoggedTransaction, columns: ColumnMap, before: seq<LoggedTransaction>, other: LoggedTransaction) {
    var m, c := ReplayAll(e, Main, base.main, before), ReplayAll(e, Control, base.control, [current] + before);
    m.Some? && c.Some? ==> ReadersQuiet(e, columns, other.statements, m.value, c.value)
  }

  /** Quiet readers write the same on both sides and keep the sides separated as they were. */
  lemma SeparatedStep(e: Engine, base: DbState, current: LoggedTransaction, columns: ColumnMap, before: seq<LoggedTransaction>, other: LoggedTransaction)
    requires base.main == base.control
    requires Separated(e, base.main, current, columns, before) && Predictable(e, other)
    requires QuietBehind(e, base, current, columns, before, other)
    ensures Harmless(e, base.main, current, before, other)
    ensures Separated(e, base.main, current, columns, before + [other])
  {
    hide DifferOnlyIn, Predictable, ReadersQuiet, SameWrites, ReplayTransaction, ReplayAll;
    var m, c := ReplayAll(e, Main, base.main, before), ReplayAll(e, Control, base.main, [current] + before);
    BothAdvance(e, base, current, before, other);
    if m.Some? && c.Some? {
      QuietTransaction(e, columns, other, m.value, c.value);
    }
  }

  /** Any transaction widens the separation by its own columns at most. */
  lemma SeparatedWider(e: Engine, base: DbState, current: LoggedTransaction, columns: ColumnMap, before: seq<LoggedTransaction>, other: LoggedTransaction)
    requires base.main == base.control
    requires Separated(e, base.main, current, columns, before) && ValidTransaction(other) && Predictable(e, other)
    ensures Separated(e, base.main, current, UnionMaps(columns, other.metadata.updated), before + [other])
  {
    hide DifferOnlyIn, Predictable, ReplayAll, ValidTransaction;
    var m, c := ReplayAll(e, Main, base.main, before), ReplayAll(e, Control, base.main, [current] + before);
    BothAdvance(e, base, current, before, other);
    if m.Some? && c.Some? {
      var n := |other.statements|;
      ReplayStaysWithin(e, Main, other, n, m.value);
      ReplayStaysWithin(e, Control, other, n, c.value);
      assert other.statements[..n] == other.statements;
      var m', c' := ReplayTransaction(e, Main, m.value, other), ReplayTransaction(e, Control, c.value, other);
      if m'.Some? && c'.Some? { BothMove(columns, other.metadata.updated, m.value, c.value, m'.value, c'.value); }
    }
  }

  /** A transaction that references nothing in `more` is as quiet about `columns` and `more` as about `columns`. */
  lemma QuietBeyond(e: Engine, columns: ColumnMap, more: ColumnMap, tx: LoggedTransaction, main: Db, control: Db)
    requires ValidTransaction(tx) && !MapsOverlap(tx.metadata.referenced, more)
    requires ReadersQuiet(e, columns, tx.statements, main, control)
    ensures ReadersQuiet(e, UnionMaps(columns, more), tx.statements, main, control)
  {
    hide ProbeQuietAt, ValidTransaction, MapsOverlap;
    forall i | 0 <= i < |tx.statements| && ReadsAny(tx.statements[i].metadata, UnionMaps(columns, more))
      ensures ProbeQuietAt(e, tx.statements, i, main, control)
    {
      OverlapsUnion(tx.statements[i].metadata.referenced, columns, more);
      if !ReadsAny(tx.statements[i].metadata, columns) { StatementReads(more, tx, i); }
    }
  }

  // ----- the whole opposite queue -----

  /** The user accepted the conflict of the head with this transaction. */
  predicate AcceptedAt(coverage: Coverage, k: nat) {
    coverage.Scanned? && k < |coverage.passages| && coverage.passages[k].Accepted?
  }

  /** The user's acceptance reaches this transaction: it is the accepted one, or may read what such a one writes. */
  predicate Reached(coverage: Coverage, k: nat, tx: LoggedTransaction, spread: ColumnMap) {
    AcceptedAt(coverage, k) || MapsOverlap(tx.metadata.referenced, spread)
  }

  /** What the first `k` transactions write, as far as acceptances reach them. */
  function Spread(others: seq<LoggedTransaction>, coverage: Coverage, k: nat): ColumnMap
    requires k <= |others|
  {
    if k == 0 then map[]
    else
      var spread := Spread(others, coverage, k - 1);
      if Reached(coverage, k - 1, others[k - 1], spread) then UnionMaps(spread, others[k - 1].metadata.updated) else spread
  }

  /** The acceptance guarantee makes the readers of every transaction that was not accepted quiet about the
      head's own columns: through its check, or through the index filter. */
  lemma CoverageQuiet(
    e: Engine, schema: SchemaCache, branch: Branch, current: LoggedTransaction, base: DbState,
    others: seq<LoggedTransaction>, coverage: Coverage, accepted: set<ResolutionKey>, k: nat)
    requires CoverageHolds(e, schema, branch, current, base, others, coverage, accepted)
    requires k < |others| && ValidTransaction(others[k]) && !AcceptedAt(coverage, k)
    ensures QuietBehind(e, base, current, current.metadata.updated, others[..k], others[k])
  {
    hide ReadersQuiet, RowsKeptApart, ReplayAll, ReplayTransaction, ValidTransaction, TransactionWriteReadOverlap, ConstraintConflictPossible,
      TransactionImplicitKeyConflict, AcceptedReplay.NoStrictFailure;
    var m, c := ReplayAll(e, Main, base.main, others[..k]), ReplayAll(e, Control, base.control, [current] + others[..k]);
    if m.Some? && c.Some? {
      if TransactionWriteReadOverlap(current.metadata, others[k].metadata) {
        assert others[k] in others;
        assert PassageHolds(e, schema, branch, current, base, others, k, coverage.passages[k], accepted);
      } else {
        UnflaggedReadersQuiet(e, current, others[k], m.value, c.value);
      }
    }
  }

  /** The safety claim of the merge, whatever pairs the user accepted: where a head is accepted, main and control
      differ only in the columns of the head and of the transactions an acceptance reaches, and every other
      transaction makes, statement by statement, the writes it would make without the head. */
  lemma {:induction false} UnreachedIsHarmless(
    e: Engine, schema: SchemaCache, branch: Branch, current: LoggedTransaction, base: DbState,
    others: seq<LoggedTransaction>, coverage: Coverage, accepted: set<ResolutionKey>, k: nat)
    requires CoverageHolds(e, schema, branch, current, base, others, coverage, accepted)
    requires ValidTransaction(current) && ValidQueue(others)
    requires base.main == base.control
    requires Predictable(e, current) && forall tx :: tx in others ==> Predictable(e, tx)
    requires k <= |others|
    ensures Separated(e, base.main, current, UnionMaps(current.metadata.updated, Spread(others, coverage, k)), others[..k])
    ensures forall j :: 0 <= j < k && !Reached(coverage, j, others[j], Spread(others, coverage, j)) ==>
      Harmless(e, base.main, current, others[..j], others[j])
  {
    hide CoverageHolds, ValidTransaction, Predictable, Separated, Harmless, ReplayAll, UnionMaps, MapsOverlap, AcceptedAt, Reached;
    if k == 0 {
      SeparatedAtStart(e, base.main, current);
      NothingSpread(current.metadata.updated);
      assert others[..0] == [];
    } else {
      UnreachedIsHarmless(e, schema, branch, current, base, others, coverage, accepted, k - 1);
      assert others[k - 1] in others;
      NextUnreached(e, schema, branch, current, base, others, coverage, accepted, k - 1);
    }
  }

  lemma NextUnreached(
    e: Engine, schema: SchemaCache, branch: Branch, current: LoggedTransaction, base: DbState,
    others: seq<LoggedTransaction>, coverage: Coverage, accepted: set<ResolutionKey>, i: nat)
    requires CoverageHolds(e, schema, branch, current, base, others, coverage, accepted)
    requires i < |others| && ValidTransaction(others[i]) && Predictable(e, others[i])
    requires base.main == base.control
    requires Separated(e, base.main, current, UnionMaps(current.metadata.updated, Spread(others, coverage, i)), others[..i])
    ensures Separated(e, base.main, current, UnionMaps(current.metadata.updated, Spread(others, coverage, i + 1)), others[..i + 1])
    ensures !Reached(coverage, i, others[i], Spread(others, coverage, i)) ==> Harmless(e, base.main, current, others[..i], others[i])
  {
    hide CoverageHolds, ValidTransaction, Predictable, Separated, Harmless, ReplayAll, UnionMaps, MapsOverlap, AcceptedAt, QuietBehind;
    var own, spread := current.metadata.updated, Spread(others, coverage, i);
    PrefixSnoc(others, i);
    if Reached(coverage, i, others[i], spread) {
      SeparatedWider(e, base, current, UnionMaps(own, spread), others[..i], others[i]);
      UnionAssociates(own, spread, others[i].metadata.updated);
    } else {
      CoverageQuiet(e, schema, branch, current, base, others, coverage, accepted, i);
      QuietBehindBeyond(e, base, current, own, spread, others[..i], others[i]);
      SeparatedStep(e, base, current, UnionMaps(own, spread), others[..i], others[i]);
    }
  }

  lemma QuietBehindBeyond(e: Engine, base: DbState, current: LoggedTransaction, columns: ColumnMap, more: ColumnMap, before: seq<LoggedTransaction>, other: LoggedTransaction)
    requires ValidTransaction(other) && !MapsOverlap(other.metadata.referenced, more)
    requires QuietBehind(e, base, current, columns, before, other)
    ensures QuietBehind(e, base, current, UnionMaps(columns, more), before, other)
  {
    hide ReadersQuiet, ReplayAll, UnionMaps, ValidTransaction, MapsOverlap;
    var m, c := ReplayAll(e, Main, base.main, before), ReplayAll(e, Control, base.control, [current] + before);
    if m.Some? && c.Some? { QuietBeyond(e, columns, more, other, m.value, c.value); }
  }

  lemma NothingSpread(columns: ColumnMap)
    ensures UnionMaps(columns, map[]) == columns
  {
    hide UnionMaps;
    var u := UnionMaps(columns, map[]);
    forall t ensures (t in u <==> t in columns) && ColumnsOf(u, t) == ColumnsOf(columns, t) { UnionAt(columns, map[], t); }
    SameMap(u, columns);
  }

  lemma UnionAssociates(a: ColumnMap, b: ColumnMap, c: ColumnMap)
    ensures UnionMaps(UnionMaps(a, b), c) == UnionMaps(a, UnionMaps(b, c))
  {
    hide UnionMaps, ColumnsOf;
    var l, r := UnionMaps(UnionMaps(a, b), c), UnionMaps(a, UnionMaps(b, c));
    forall t ensures (t in l <==> t in r) && ColumnsOf(l, t) == ColumnsOf(r, t) {
      UnionAt(UnionMaps(a, b), c, t);
      UnionAt(a, b, t);
      UnionAt(a, UnionMaps(b, c), t);
      UnionAt(b, c, t);
    }
    SameMap(l, r);
  }

  /** So up to the first accepted pair every opposite transaction keeps its writes, and the sides differ only in
      columns the head writes. */
  lemma AcceptedHeadIsHarmless(
    e: Engine, schema: SchemaCache, branch: Branch, current: LoggedTransaction, base: DbState,
    others: seq<LoggedTransaction>, coverage: Coverage, accepted: set<ResolutionKey>, k: nat)
    requires CoverageHolds(e, schema, branch, current, base, others, coverage, accepted)
    requires ValidTransaction(current) && ValidQueue(others)
    requires base.main == base.control
    requires Predictable(e, current) && forall tx :: tx in others ==> Predictable(e, tx)
    requires k <= |others| && forall j: nat :: j < k ==> !AcceptedAt(coverage, j)
    ensures Separated(e, base.main, current, current.metadata.updated, others[..k])
    ensures forall j :: 0 <= j < k ==> Harmless(e, base.main, current, others[..j], others[j])
  {
    hide CoverageHolds, ValidTransaction, Predictable, Separated, Harmless, ReplayAll, UnionMaps, MapsOverlap;
    UnreachedIsHarmless(e, schema, branch, current, base, others, coverage, accepted, k);
    NothingSpread(current.metadata.updated);
    forall j: nat | j <= k ensures Spread(others, coverage, j) == map[] { NoSpread(others, coverage, j); }
    forall j | 0 <= j < k ensures !Reached(coverage, j, others[j], Spread(others, coverage, j)) { NoOverlapWithNothing(others[j].metadata.referenced); }
  }

  lemma NoOverlapWithNothing(m: ColumnMap)
    ensures !MapsOverlap(m, map[])
  {
  }

  lemma {:induction false} NoSpread(others: seq<LoggedTransaction>, coverage: Coverage, k: nat)
    requires k <= |others| && forall j: nat :: j < k ==> !AcceptedAt(coverage, j)
    ensures Spread(others, coverage, k) == map[]
  {
    hide MapsOverlap;
    if k > 0 {
      NoSpread(others, coverage, k - 1);
      NoOverlapWithNothing(others[k - 1].metadata.referenced);
    }
  }

  // ----- what an acceptance hides -----

  const HEAD := "UPDATE t SET a = 1"
  const COPY := "UPDATE u SET b = (SELECT a FROM t)"
  const READ := "UPDATE v SET c = (SELECT b FROM u)"

  const T_A := Cell("t", 1, "a")
  const U_B := Cell("u", 1, "b")
  const V_C := Cell("v", 1, "c")

  /** Three one-row tables, and the three statements on them. */
  function CopyRun(sql: string, db: Db): Execution {
    var patch: Patch :=
      if sql == HEAD then map[T_A := Some(1)]
      else if sql == COPY then map[U_B := Lookup(db, T_A)]
      else if sql == READ then map[V_C := Lookup(db, U_B)]
      else map[];
    Execution(patch, None, false)
  }

  function CopyEngine(): Engine {
    Engine(
      CopyRun, (db: Db) => None, (log, statements) => None, (s: LoggedStatement) => Some(s.sqlText), (s: LoggedStatement) => None,
      (m: StatementMetadata) => ReadProbe.NotRefined, (sql: string) => true, (m, sql, db) => None, (m: StatementMetadata) => true, (m, db) => None)
  }

  function HeadTx(): LoggedTransaction { OneStatement(1, HEAD, UpdateOf("t", "a", map[])) }

  function CopyTx(): LoggedTransaction { OneStatement(2, COPY, UpdateOf("u", "b", map["t" := {"a"}])) }

  function ReadTx(): LoggedTransaction { OneStatement(3, READ, UpdateOf("v", "c", map["u" := {"b"}])) }

  function NoSchema(): SchemaCache { SchemaCache(map[], map[], map[], []) }

  function CopyKey(): ResolutionKey { KeyFor(Ours, HeadTx(), CopyTx(), CopyConflicts()) }

  function CopyConflicts(): ConflictCheckResult {
    [StatementConflict(WriteRead, "current transaction writes columns the other reads", false)]
  }

  lemma RunOne(side: Side, db: Db, id: int, sql: string, m: StatementMetadata)
    ensures ReplayTransaction(CopyEngine(), side, db, OneStatement(id, sql, m)) == Some(Apply(db, CopyRun(sql, db).patch))
    ensures Execute(CopyEngine(), side, db, OneStatement(id, sql, m).statements[0]) == CopyRun(sql, db)
  {
    hide Apply;
    var e, statements := CopyEngine(), OneStatement(id, sql, m).statements;
    assert statements[..0] == [] && statements[..1] == statements;
    ReplayNothing(e, side, db);
    ReplaySnoc(e, side, db, statements, 0);
    assert ForeignKeysHold(e, Apply(db, CopyRun(sql, db).patch));
  }

  lemma RunFirst(side: Side, db: Db, tx: LoggedTransaction)
    ensures ReplayAll(CopyEngine(), side, db, [tx]) == ReplayTransaction(CopyEngine(), side, db, tx)
  {
    assert [tx][..0] == [];
  }

  /** Such a transaction writes its one cell, which follows from the one cell it references. */
  lemma OneIsPredictable(id: int, sql: string, cell: Cell, read: Cell, referenced: ColumnMap)
    requires forall db :: CopyRun(sql, db).patch.Keys == {cell}
    requires forall a, b :: Lookup(a, read) == Lookup(b, read) ==> CopyRun(sql, a) == CopyRun(sql, b)
    requires (forall a, b :: CopyRun(sql, a) == CopyRun(sql, b)) || Covered(referenced, read)
    ensures Predictable(CopyEngine(), OneStatement(id, sql, UpdateOf(cell.table, cell.column, referenced)))
  {
    hide CopyRun;
    var e, m := CopyEngine(), UpdateOf(cell.table, cell.column, referenced);
    var s := OneStatement(id, sql, m).statements[0];
    forall side, db ensures Execute(e, side, db, s) == CopyRun(sql, db) { RunOne(side, db, id, sql, m); }
    assert WritesWithin(e, s);
    forall a, b | AgreeOn(referenced, a, b) ensures SamePatch(e, s, a, b) {}
    assert ReadsDetermineWrites(e, s);
  }

  lemma TheThreeAreValid()
    ensures ValidTransaction(HeadTx()) && ValidTransaction(CopyTx()) && ValidTransaction(ReadTx())
    ensures var e := CopyEngine(); Predictable(e, HeadTx()) && Predictable(e, CopyTx()) && Predictable(e, ReadTx())
  {
    hide ValidTransaction, Predictable, OneStatement, UpdateOf;
    UpdateIsValid(1, HEAD, "t", "a", map[]);
    UpdateIsValid(2, COPY, "u", "b", map["t" := {"a"}]);
    UpdateIsValid(3, READ, "v", "c", map["u" := {"b"}]);
    OneIsPredictable(1, HEAD, T_A, T_A, map[]);
    OneIsPredictable(2, COPY, U_B, T_A, map["t" := {"a"}]);
    OneIsPredictable(3, READ, V_C, U_B, map["u" := {"b"}]);
  }

  /** Where the three are replayed: with the head first, the copied cell is there to be read. */
  lemma TheThreeReplay()
    ensures var e := CopyEngine();
      && ReplayAll(e, Main, map[], []) == Some(map[]) && ReplayAll(e, Main, map[], [CopyTx()]).Some?
      && U_B !in ReplayAll(e, Main, map[], [CopyTx()]).value
      && ReplayAll(e, Control, map[], [HeadTx()] + [CopyTx()]).Some?
      && U_B in ReplayAll(e, Control, map[], [HeadTx()] + [CopyTx()]).value
  {
    hide ReplayAll, ReplayTransaction;
    var e := CopyEngine();
    ReplayNothing(e, Main, map[]);
    RunFirst(Main, map[], CopyTx());
    RunOne(Main, map[], 2, COPY, UpdateOf("u", "b", map["t" := {"a"}]));
    RunFirst(Control, map[], HeadTx());
    RunOne(Control, map[], 1, HEAD, UpdateOf("t", "a", map[]));
    var db := Apply(map[], CopyRun(HEAD, map[]).patch);
    ReplayAllSnoc(e, Control, map[], [HeadTx()], CopyTx());
    RunOne(Control, db, 2, COPY, UpdateOf("u", "b", map["t" := {"a"}]));
    assert T_A in db;
  }

  lemma ReadWritesOther(main: Db, control: Db)
    requires U_B !in main && U_B in control
    ensures !SameWrites(CopyEngine(), ReadTx().statements, main, control)
  {
    hide CopyEngine;
    var e, statements := CopyEngine(), ReadTx().statements;
    assert statements[..0] == [];
    ReplayNothing(e, Main, main);
    ReplayNothing(e, Control, control);
    RunOne(Main, main, 3, READ, statements[0].metadata);
    RunOne(Control, control, 3, READ, statements[0].metadata);
    assert CopyRun(READ, main).patch[V_C] != CopyRun(READ, control).patch[V_C];
    assert !SamePatchAt(e, statements, 0, main, control);
  }

  /** The reader is flagged for nothing, so the check it passes is the one it needs. */
  lemma ReadNeedsNothing()
    ensures KindsCover(NoSchema(), Ours, HeadTx(), {WriteRead}, ReadTx())
    ensures !TransactionWriteReadOverlap(HeadTx().metadata, ReadTx().metadata)
  {
  }

  lemma ReadPasses(main: Db, control: Db)
    ensures PassedCheckAt(CopyEngine(), NoSchema(), Ours, HeadTx(), map[], {WriteRead}, ReadTx(), main, control)
  {
    hide CopyEngine;
    var m := ReadTx().statements[0].metadata;
    RunOne(Main, main, 3, READ, m);
    RunOne(Control, control, 3, READ, m);
    assert !ReadsAny(m, HeadTx().metadata.updated);
  }

  /** After an accepted pair a transaction that was checked and passed, and that reads nothing the head writes,
      may still write something else: what it reads came through the accepted transaction. */
  lemma AcceptedPairHidesReader()
    ensures var e, base, others := CopyEngine(), DbState(map[], map[], []), [CopyTx(), ReadTx()];
      && CoverageHolds(e, NoSchema(), Ours, HeadTx(), base, others, Scanned([Accepted(CopyKey()), Checked({WriteRead})]), {CopyKey()})
      && !TransactionWriteReadOverlap(HeadTx().metadata, ReadTx().metadata)
      && !Harmless(e, base.main, HeadTx(), others[..1], others[1])
    ensures ValidTransaction(HeadTx()) && ValidTransaction(CopyTx()) && ValidTransaction(ReadTx())
    ensures var e := CopyEngine(); Predictable(e, HeadTx()) && Predictable(e, CopyTx()) && Predictable(e, ReadTx())
  {
    hide ValidTransaction, Predictable, ReplayAll, ReplayTransaction, CopyEngine, SameWrites, PassedCheckAt, KindsCover, TransactionWriteReadOverlap;
    TheThreeAreValid();
    TheThreeReplay();
    var e, base, others := CopyEngine(), DbState(map[], map[], []), [CopyTx(), ReadTx()];
    assert others[..1] == [CopyTx()] && others[..0] == [];
    var main, control := ReplayAll(e, Main, map[], [CopyTx()]).value, ReplayAll(e, Control, map[], [HeadTx()] + [CopyTx()]).value;
    ReadWritesOther(main, control);
    ReadPasses(main, control);
    ReadNeedsNothing();
    var passages := [Accepted(CopyKey()), Checked({WriteRead})];
    assert PassageHolds(e, NoSchema(), Ours, HeadTx(), base, others, 0, passages[0], {CopyKey()});
    assert PassageHolds(e, NoSchema(), Ours, HeadTx(), base, others, 1, passages[1], {CopyKey()});
  }
}
