/** Main and control agree at every turn boundary (src/merge/accepted_replay.py:108-165): a statement that
    succeeds on both from equal states leaves equal states. For an UPSERT, which control replays as a strict
    INSERT, that is assumed; for every other statement it follows from the rewrite. */
module ControlAgreement {
  import opened Columns
  import opened Models
  import opened Database
  import ConflictResolution
  import ControlDb

  /** How statement texts are read: their syntax, what the operators compute, the tables a database holds, and
      what a meaning does to the database it is about. */
  datatype Reading = Reading(
    syntax: LoggedStatement -> ControlDb.Statement,
    ops: ControlDb.Operators,
    persistent: set<string>,
    fuel: nat,
    tables: Db -> map<string, ControlDb.Relation>,
    effect: (ControlDb.Meaning, Db) -> Execution)

  /** The same reads and writes, whatever schema name the written table has. */
  function Unnamed(m: ControlDb.Meaning): ControlDb.Meaning {
    if m.Writes? then m.(side := ControlDb.Main) else m
  }

  function MeaningIn(r: Reading, main: Db, control: Db, s: ControlDb.Statement): ControlDb.Meaning {
    Unnamed(ControlDb.EvalStatement(r.ops, ControlDb.Databases(r.tables(main), r.tables(control)), s, r.fuel))
  }

  /** SQLite does with the statement what its syntax means, main being the database it is run on. */
  ghost predicate ReadOnMain(e: Engine, r: Reading, s: LoggedStatement) {
    forall db, control :: e.run(s.sqlText, db) == r.effect(MeaningIn(r, db, control, r.syntax(s)), db)
  }

  /** The control text, if there is one, is the rewritten syntax, control being the database it is run on. */
  ghost predicate ReadOnControl(e: Engine, r: Reading, s: LoggedStatement) {
    e.controlSql(s).Some? ==>
      var rewritten := ControlDb.RewriteStatement(r.syntax(s), r.persistent);
      rewritten.Some? && forall main, db :: e.run(e.controlSql(s).value, db) == r.effect(MeaningIn(r, main, db, rewritten.value), db)
  }

  ghost predicate Read(e: Engine, r: Reading, s: LoggedStatement) {
    && (forall db :: ControlDb.Known(r.persistent, r.tables(db)))
    && ControlDb.SpelledStatement(r.syntax(s))
    && ReadOnMain(e, r, s) && ReadOnControl(e, r, s)
  }

  predicate IsUpsert(s: LoggedStatement) { ConflictResolution.Normalize(s.sqlText).strippedUpsert }

  /** The one assumption about a single statement: where the strict INSERT that stands in for an UPSERT on control
      succeeds, the UPSERT writes the same. */
  ghost predicate StrictAgrees(e: Engine, s: LoggedStatement) {
    forall db ::
      Execute(e, Main, db, s).failure.None? && Execute(e, Control, db, s).failure.None? ==>
        Execute(e, Main, db, s).patch == Execute(e, Control, db, s).patch
  }

  ghost predicate Accountable(e: Engine, r: Reading, s: LoggedStatement) {
    if IsUpsert(s) then StrictAgrees(e, s) else Read(e, r, s)
  }

  /** A rewritten statement does to control, failure included, what the original does to main. */
  lemma RewrittenAgrees(e: Engine, r: Reading, s: LoggedStatement, db: Db)
    requires Read(e, r, s) && e.controlSql(s).Some?
    ensures Execute(e, Control, db, s) == Execute(e, Main, db, s)
  {
    hide ControlDb.EvalStatement, ControlDb.RewriteStatement, ControlDb.SpelledStatement, ControlDb.Known;
    var syntax := r.syntax(s);
    var rewritten := ControlDb.RewriteStatement(syntax, r.persistent).value;
    ControlDb.StatementKept(r.ops, r.tables(db), r.tables(db), syntax, r.persistent, r.fuel);
    assert MeaningIn(r, db, db, rewritten) == MeaningIn(r, db, db, syntax);
  }

  lemma StatementAgrees(e: Engine, r: Reading, s: LoggedStatement, db: Db)
    requires Accountable(e, r, s)
    ensures var a, b := Step(e, Main, db, s), Step(e, Control, db, s);
      a.Some? && b.Some? ==> a == b
  {
    hide IsUpsert, Read, Apply;
    if !IsUpsert(s) && e.controlSql(s).Some? { RewrittenAgrees(e, r, s, db); }
  }

  ghost predicate AllAccountable(e: Engine, r: Reading, statements: seq<LoggedStatement>) {
    forall i :: 0 <= i < |statements| ==> Accountable(e, r, statements[i])
  }

  lemma {:induction false} StatementsAgree(e: Engine, r: Reading, db: Db, statements: seq<LoggedStatement>)
    requires AllAccountable(e, r, statements)
    ensures var a, b := Replay(e, Main, db, statements), Replay(e, Control, db, statements);
      a.Some? && b.Some? ==> a == b
  {
    hide Accountable, Step;
    if statements != [] {
      var rest := statements[..|statements| - 1];
      StatementsAgree(e, r, db, rest);
      var before := Replay(e, Main, db, rest);
      if before.Some? { StatementAgrees(e, r, statements[|statements| - 1], before.value); }
    }
  }

  /** From equal sides, replaying any accepted transactions on both leaves equal sides. */
  lemma {:induction false} SidesAgree(e: Engine, r: Reading, db: Db, accepted: seq<LoggedTransaction>)
    requires forall k :: 0 <= k < |accepted| ==> AllAccountable(e, r, accepted[k].statements)
    ensures var a, b := ReplayAll(e, Main, db, accepted), ReplayAll(e, Control, db, accepted);
      a.Some? && b.Some? ==> a == b
  {
    hide AllAccountable, Replay;
    if accepted != [] {
      var rest := accepted[..|accepted| - 1];
      SidesAgree(e, r, db, rest);
      var before := ReplayAll(e, Main, db, rest);
      if before.Some? {
        StatementsAgree(e, r, before.value, accepted[|accepted| - 1].statements);
      }
    }
  }
}
