/** When does putting one transaction first leave the writes of the later ones alone? */
module Interference {
  import opened Columns
  import opened Models
  import opened SqlMetadata
  import opened StaticAnalysis
  import opened Database

  // ----- databases that differ in some columns only -----

  predicate Covered(columns: ColumnMap, cell: Cell) {
    cell.table in columns && (ALL_COLUMNS in columns[cell.table] || cell.column in columns[cell.table])
  }

  ghost predicate DifferOnlyIn(columns: ColumnMap, a: Db, b: Db) {
    forall cell :: Lookup(a, cell) != Lookup(b, cell) ==> Covered(columns, cell)
  }

  ghost predicate AgreeOn(columns: ColumnMap, a: Db, b: Db) {
    forall cell :: Covered(columns, cell) ==> Lookup(a, cell) == Lookup(b, cell)
  }

  lemma CoveredTwice(left: ColumnMap, right: ColumnMap, cell: Cell)
    requires Covered(left, cell) && Covered(right, cell)
    ensures MapsOverlap(left, right)
  {
    var t := cell.table;
    var c := if ALL_COLUMNS in left[t] then ALL_COLUMNS else cell.column;
    assert c in left[t] && Meets(c, right[t]);
    assert ColumnOverlap(left[t], right[t]) != {};
  }

  lemma NoOverlapAgrees(readColumns: ColumnMap, writes: ColumnMap, a: Db, b: Db)
    requires !MapsOverlap(readColumns, writes) && DifferOnlyIn(writes, a, b)
    ensures AgreeOn(readColumns, a, b)
  {
    forall cell | Covered(readColumns, cell) ensures Lookup(a, cell) == Lookup(b, cell) {
      if Lookup(a, cell) != Lookup(b, cell) { CoveredTwice(readColumns, writes, cell); }
    }
  }

  /** The same patch on both sides widens no difference. */
  lemma SamePatchKeeps(columns: ColumnMap, a: Db, b: Db, patch: Patch)
    requires DifferOnlyIn(columns, a, b)
    ensures DifferOnlyIn(columns, Apply(a, patch), Apply(b, patch))
  {
    forall cell | Lookup(Apply(a, patch), cell) != Lookup(Apply(b, patch), cell) ensures Covered(columns, cell) {
      LookupApply(a, patch, cell);
      LookupApply(b, patch, cell);
    }
  }

  /** A patch on one side differs only where it writes. */
  lemma PatchDiffers(columns: ColumnMap, a: Db, b: Db, patch: Patch)
    requires DifferOnlyIn(columns, a, b)
    requires forall cell :: cell in patch ==> Covered(columns, cell)
    ensures DifferOnlyIn(columns, a, Apply(b, patch))
  {
    forall cell | Lookup(a, cell) != Lookup(Apply(b, patch), cell) ensures Covered(columns, cell) {
      LookupApply(b, patch, cell);
    }
  }

  // ----- what is assumed of one logged statement -----

  ghost predicate BothSucceed(e: Engine, s: LoggedStatement, a: Db, b: Db) {
    Execute(e, Main, a, s).failure.None? && Execute(e, Control, b, s).failure.None?
  }

  ghost predicate SamePatch(e: Engine, s: LoggedStatement, a: Db, b: Db) {
    BothSucceed(e, s, a, b) ==> Execute(e, Main, a, s).patch == Execute(e, Control, b, s).patch
  }

  /** A statement writes only cells its metadata lists as updated. */
  ghost predicate WritesWithin(e: Engine, s: LoggedStatement) {
    forall side, db, cell :: cell in Execute(e, side, db, s).patch ==> Covered(s.metadata.updated, cell)
  }

  /** Its writes are a function of the columns it references, and of its probe rows if it has a probe. */
  ghost predicate ReadsDetermineWrites(e: Engine, s: LoggedStatement) {
    && (forall a, b :: AgreeOn(s.metadata.referenced, a, b) ==> SamePatch(e, s, a, b))
    && (forall a, b :: ProbeQuiet(e, s, a, b) ==> SamePatch(e, s, a, b))
  }

  ghost predicate Predictable(e: Engine, tx: LoggedTransaction) {
    forall s :: s in tx.statements ==> WritesWithin(e, s) && ReadsDetermineWrites(e, s)
  }

  /** The read probe of a statement gives the same rows on both sides, or is not needed. */
  ghost predicate ProbeQuiet(e: Engine, s: LoggedStatement, a: Db, b: Db) {
    match e.readProbe(s.metadata)
    case NoReadDependency => true
    case NotRefined => false
    case Query(sql) => e.readRows(s.metadata, sql, a).Some? && e.readRows(s.metadata, sql, a) == e.readRows(s.metadata, sql, b)
  }

  // ----- positions inside a replayed transaction -----

  ghost predicate ProbeQuietAt(e: Engine, statements: seq<LoggedStatement>, i: nat, main: Db, control: Db)
    requires i < |statements|
  {
    var a, b := Replay(e, Main, main, statements[..i]), Replay(e, Control, control, statements[..i]);
    a.Some? && b.Some? ==> ProbeQuiet(e, statements[i], a.value, b.value)
  }

  ghost predicate SamePatchAt(e: Engine, statements: seq<LoggedStatement>, i: nat, main: Db, control: Db)
    requires i < |statements|
  {
    var a, b := Replay(e, Main, main, statements[..i]), Replay(e, Control, control, statements[..i]);
    a.Some? && b.Some? ==> SamePatch(e, statements[i], a.value, b.value)
  }

  /** Every reader statement that may read `writes` had quiet probes where it ran. */
  ghost predicate ReadersQuiet(e: Engine, writes: ColumnMap, statements: seq<LoggedStatement>, main: Db, control: Db) {
    forall i :: 0 <= i < |statements| && ReadsAny(statements[i].metadata, writes) ==> ProbeQuietAt(e, statements, i, main, control)
  }

  ghost predicate SameWrites(e: Engine, statements: seq<LoggedStatement>, main: Db, control: Db) {
    forall i :: 0 <= i < |statements| ==> SamePatchAt(e, statements, i, main, control)
  }

  /** Two databases that differ only in `writes` keep doing so while a quiet transaction replays
      on both, and every one of its statements writes the same on both. */
  lemma {:induction false} QuietPrefix(e: Engine, writes: ColumnMap, tx: LoggedTransaction, i: nat, main: Db, control: Db)
    requires i <= |tx.statements|
    requires DifferOnlyIn(writes, main, control) && Predictable(e, tx)
    requires ReadersQuiet(e, writes, tx.statements, main, control)
    ensures forall j :: 0 <= j < i ==> SamePatchAt(e, tx.statements, j, main, control)
    ensures var a, b := Replay(e, Main, main, tx.statements[..i]), Replay(e, Control, control, tx.statements[..i]);
      a.Some? && b.Some? ==> DifferOnlyIn(writes, a.value, b.value)
  {
    hide Execute, Apply, DifferOnlyIn, AgreeOn, ProbeQuiet, ReadsAny, WritesWithin;
    if i > 0 {
      var j, s := i - 1, tx.statements[i - 1];
      QuietPrefix(e, writes, tx, j, main, control);
      ReplaySnoc(e, Main, main, tx.statements, j);
      ReplaySnoc(e, Control, control, tx.statements, j);
      var a, b := Replay(e, Main, main, tx.statements[..j]), Replay(e, Control, control, tx.statements[..j]);
      if a.Some? && b.Some? {
        assert SamePatch(e, s, a.value, b.value) by {
          assert s in tx.statements && ReadsDetermineWrites(e, s);
          if ReadsAny(s.metadata, writes) {
            assert ProbeQuietAt(e, tx.statements, j, main, control);
          } else {
            NotReadAgrees(s, writes, a.value, b.value);
          }
        }
        if BothSucceed(e, s, a.value, b.value) {
          SamePatchKeeps(writes, a.value, b.value, Execute(e, Main, a.value, s).patch);
        }
      }
    } else {
      ReplayNothing(e, Main, main);
      ReplayNothing(e, Control, control);
      assert tx.statements[..0] == [];
    }
  }

  lemma NotReadAgrees(s: LoggedStatement, writes: ColumnMap, a: Db, b: Db)
    requires !ReadsAny(s.metadata, writes) && DifferOnlyIn(writes, a, b)
    ensures AgreeOn(s.metadata.referenced, a, b)
  {
    NoOverlapAgrees(s.metadata.referenced, writes, a, b);
  }

  lemma QuietTransaction(e: Engine, writes: ColumnMap, tx: LoggedTransaction, main: Db, control: Db)
    requires DifferOnlyIn(writes, main, control) && Predictable(e, tx)
    requires ReadersQuiet(e, writes, tx.statements, main, control)
    ensures SameWrites(e, tx.statements, main, control)
    ensures var a, b := ReplayTransaction(e, Main, main, tx), ReplayTransaction(e, Control, control, tx);
      a.Some? && b.Some? ==> DifferOnlyIn(writes, a.value, b.value)
  {
    QuietPrefix(e, writes, tx, |tx.statements|, main, control);
    assert tx.statements[..|tx.statements|] == tx.statements;
  }

  /** No pairwise write/read flag: no statement of the reader may read the writer's columns. */
  lemma UnflaggedReadersQuiet(e: Engine, current: LoggedTransaction, tx: LoggedTransaction, main: Db, control: Db)
    requires ValidTransaction(tx)
    requires !TransactionWriteReadOverlap(current.metadata, tx.metadata)
    ensures ReadersQuiet(e, current.metadata.updated, tx.statements, main, control)
  {
    forall i | 0 <= i < |tx.statements| && ReadsAny(tx.statements[i].metadata, current.metadata.updated) ensures false {
      CandidateFlagged(current, tx, i);
    }
  }

  /** What a statement may read, its transaction may read. */
  lemma StatementReads(columns: ColumnMap, tx: LoggedTransaction, i: nat)
    requires ValidTransaction(tx) && i < |tx.statements|
    requires ReadsAny(tx.statements[i].metadata, columns)
    ensures MapsOverlap(tx.metadata.referenced, columns)
  {
    var m := tx.statements[i].metadata;
    MapsOverlapAt(m.referenced, columns);
    var t :| Overlaps(ColumnsOf(m.referenced, t), ColumnsOf(columns, t));
    var c :| c in ColumnsOf(m.referenced, t) && Meets(c, ColumnsOf(columns, t));
    assert Metadatas(tx.statements)[i] == m;
    ColumnOfTransaction(Metadatas(tx.statements), t, c);
    assert Overlaps(ColumnsOf(tx.metadata.referenced, t), ColumnsOf(columns, t));
    MapsOverlapAt(tx.metadata.referenced, columns);
  }

  lemma MapsOverlapSymmetric(left: ColumnMap, right: ColumnMap)
    ensures MapsOverlap(left, right) <==> MapsOverlap(right, left)
  {
    MapsOverlapAt(left, right);
    MapsOverlapAt(right, left);
    forall t { OverlapsSymmetric(ColumnsOf(left, t), ColumnsOf(right, t)); }
  }

  /** A statement that may read the writer's columns makes the pair flagged. */
  lemma CandidateFlagged(current: LoggedTransaction, tx: LoggedTransaction, i: nat)
    requires ValidTransaction(tx) && i < |tx.statements|
    requires ReadsAny(tx.statements[i].metadata, current.metadata.updated)
    ensures TransactionWriteReadOverlap(current.metadata, tx.metadata)
  {
    StatementReads(current.metadata.updated, tx, i);
    MapsOverlapSymmetric(tx.metadata.referenced, current.metadata.updated);
  }

  /** Replaying a transaction on one side changes only columns it lists as updated. */
  lemma {:induction false} ReplayStaysWithin(e: Engine, side: Side, tx: LoggedTransaction, i: nat, db: Db)
    requires ValidTransaction(tx) && Predictable(e, tx) && i <= |tx.statements|
    ensures var after := Replay(e, side, db, tx.statements[..i]);
      after.Some? ==> DifferOnlyIn(tx.metadata.updated, db, after.value)
  {
    hide ValidTransaction, Execute, ReadsDetermineWrites, Apply, DifferOnlyIn;
    if i > 0 {
      var j, s := i - 1, tx.statements[i - 1];
      ReplayStaysWithin(e, side, tx, j, db);
      ReplaySnoc(e, side, db, tx.statements, j);
      var b := Replay(e, side, db, tx.statements[..j]);
      if b.Some? && Execute(e, side, b.value, s).failure.None? {
        var patch := Execute(e, side, b.value, s).patch;
        assert s in tx.statements;
        forall cell | cell in patch ensures Covered(tx.metadata.updated, cell) {
          UpdatedCovered(tx, j, cell);
        }
        PatchDiffers(tx.metadata.updated, db, b.value, patch);
      }
    } else {
      ReplayNothing(e, side, db);
      assert tx.statements[..0] == [];
      SameDiffersNowhere(tx.metadata.updated, db);
    }
  }

  lemma SameDiffersNowhere(columns: ColumnMap, db: Db)
    ensures DifferOnlyIn(columns, db, db)
  {
  }

  lemma UpdatedCovered(tx: LoggedTransaction, i: nat, cell: Cell)
    requires ValidTransaction(tx) && i < |tx.statements|
    requires Covered(tx.statements[i].metadata.updated, cell)
    ensures Covered(tx.metadata.updated, cell)
  {
    var statements := Metadatas(tx.statements);
    assert statements[i] in statements;
    ColumnOfTransaction(statements, cell.table, ALL_COLUMNS);
    ColumnOfTransaction(statements, cell.table, cell.column);
  }
}
