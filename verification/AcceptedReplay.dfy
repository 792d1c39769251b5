/** Replaying transactions on main and control together (src/merge/accepted_replay.py). */
module AcceptedReplay {
  import opened Columns
  import opened Models
  import opened Database

  /** Why reviewable conflict-resolution syntax matters here: the strict form fails after the
      current transaction, and did not already violate a constraint without it. */
  function StrictFailure(e: Engine, s: LoggedStatement, main: Db, control: Db): Option<Failure> {
    if !s.metadata.reviewableResolution then None
    else
      match e.strictForm(s)
      case None => None
      case Some(strict) =>
        var before := CheckedFailure(e, Main, main, strict);
        var after := CheckedFailure(e, Control, control, strict);
        if after.Some? && before.Some? && before.value.kind.Integrity? then None else after
  }

  /** The statement runs there, and the foreign keys hold behind it. */
  ghost predicate GoesThrough(e: Engine, side: Side, db: Db, s: LoggedStatement) {
    Step(e, side, db, s).Some? && ForeignKeysHold(e, Step(e, side, db, s).value)
  }

  /** A constraint refuses it: its own error says so, or the foreign keys do not hold behind it. */
  ghost predicate HitsConstraint(e: Engine, side: Side, db: Db, s: LoggedStatement) {
    match Execute(e, side, db, s).failure
    case Some(failure) => failure.kind.Integrity?
    case None => !GoesThrough(e, side, db, s)
  }

  /** The clause of a reviewable statement is used because of the current transaction exactly when the strict form is not
      accepted behind it and no constraint refuses it without it. */
  lemma StrictFailureMeaning(e: Engine, s: LoggedStatement, main: Db, control: Db)
    ensures StrictFailure(e, s, main, control).Some? <==>
      && s.metadata.reviewableResolution && e.strictForm(s).Some?
      && !GoesThrough(e, Control, control, e.strictForm(s).value) && !HitsConstraint(e, Main, main, e.strictForm(s).value)
  {
    hide Execute;
  }

  /** No statement of the sequence needs its conflict-resolution syntax because of `control`. */
  ghost predicate NoStrictFailure(e: Engine, statements: seq<LoggedStatement>, main: Db, control: Db) {
    forall i :: 0 <= i < |statements| ==> NoStrictFailureAt(e, statements, i, main, control)
  }

  ghost predicate NoStrictFailureAt(e: Engine, statements: seq<LoggedStatement>, i: nat, main: Db, control: Db)
    requires i < |statements|
  {
    var m, c := Replay(e, Main, main, statements[..i]), Replay(e, Control, control, statements[..i]);
    m.Some? && c.Some? ==> StrictFailure(e, statements[i], m.value, c.value).None?
  }

  function ReplayConflict(failure: Failure): StatementConflict {
    StatementConflict(failure.kind, failure.message, false)
  }

  function ConstraintResolutionConflict(failure: Failure): StatementConflict {
    if failure.kind.Integrity? then StatementConflict(ConstraintResolution, failure.message, false)
    else StatementConflict(failure.kind, failure.message, false)
  }

  /** What is reported of one statement: control's own failure, main's, or the strict form's, which is the only one a
      user may accept. */
  function StatementReport(e: Engine, s: LoggedStatement, main: Db, control: Db, strict: bool): Option<ConflictKind> {
    var c, m := Execute(e, Control, control, s).failure, Execute(e, Main, main, s).failure;
    if c.Some? then Some(c.value.kind)
    else if m.Some? then Some(m.value.kind)
    else if !strict then None
    else
      match StrictFailure(e, s, main, control)
      case None => None
      case Some(failure) => Some(if failure.kind == Integrity then ConstraintResolution else ReplayError)
  }

  /** The transaction stops at its first statement with a report, or at its end where foreign keys do not hold. */
  ghost predicate ReportsKind(e: Engine, tx: LoggedTransaction, main: Db, control: Db, strict: bool, kind: ConflictKind) {
    || (exists i: nat :: i < |tx.statements| && ReportsKindAt(e, tx, main, control, strict, kind, i))
    || (kind == Integrity
        && var m, c := Replay(e, Main, main, tx.statements), Replay(e, Control, control, tx.statements);
           m.Some? && c.Some? && !(ForeignKeysHold(e, m.value) && ForeignKeysHold(e, c.value)))
  }

  ghost predicate ReportsKindAt(e: Engine, tx: LoggedTransaction, main: Db, control: Db, strict: bool, kind: ConflictKind, i: nat)
    requires i < |tx.statements|
  {
    var m, c := Replay(e, Main, main, tx.statements[..i]), Replay(e, Control, control, tx.statements[..i]);
    && m.Some? && c.Some? && StatementReport(e, tx.statements[i], m.value, c.value, strict) == Some(kind)
    && (strict ==> forall j :: 0 <= j < i ==> NoStrictFailureAt(e, tx.statements, j, main, control))
  }

  /** Without the strict check nothing that is reported can be accepted by a user. */
  lemma ReplayReportsKinds(e: Engine, tx: LoggedTransaction, main: Db, control: Db, kind: ConflictKind)
    requires ReportsKind(e, tx, main, control, false, kind)
    ensures kind == Integrity || kind == ReplayError
  {
    hide Execute, Replay;
  }

  /** Try one strict statement inside a savepoint of its own and discard its effects. */
  method SavepointStatementFailure(session: Session, side: Side, s: LoggedStatement) returns (failure: Option<Failure>)
    requires session.Valid()
    modifies session
    ensures session.Valid() && session.state == old(session.state) && session.savepoints == old(session.savepoints)
    ensures failure == CheckedFailure(session.engine, side, old(session.state.On(side)), s)
  {
    ghost var depth := |session.savepoints|;
    var savepoint := session.Begin();
    failure := session.RunStatement(side, s, true);
    session.RollbackSavepoint(savepoint, depth);
  }

  method StrictConstraintResolutionFailure(session: Session, s: LoggedStatement) returns (failure: Option<Failure>)
    requires session.Valid()
    modifies session
    ensures session.Valid() && session.state == old(session.state) && session.savepoints == old(session.savepoints)
    ensures failure == StrictFailure(session.engine, s, old(session.state.main), old(session.state.control))
  {
    failure := None;
    if !s.metadata.reviewableResolution {
      return;
    }
    var strict := session.engine.strictForm(s);
    if strict.None? {
      return;
    }
    var before := SavepointStatementFailure(session, Main, strict.value);
    failure := SavepointStatementFailure(session, Control, strict.value);
    if failure.Some? && before.Some? && before.value.kind.Integrity? {
      failure := None;
    }
  }

  /** Replay one transaction on control and main, statement by statement. */
  method AdvanceTransaction(session: Session, tx: LoggedTransaction, checkConstraintResolution: bool)
    returns (conflict: Option<StatementConflict>)
    requires session.Valid()
    modifies session
    ensures session.Valid() && session.savepoints == old(session.savepoints) && session.state.log == old(session.state.log)
    ensures conflict.None? ==>
      && ReplayTransaction(session.engine, Main, old(session.state.main), tx) == Some(session.state.main)
      && ReplayTransaction(session.engine, Control, old(session.state.control), tx) == Some(session.state.control)
    ensures conflict.None? <==>
      && ReplayTransaction(session.engine, Main, old(session.state.main), tx).Some?
      && ReplayTransaction(session.engine, Control, old(session.state.control), tx).Some?
      && (checkConstraintResolution ==>
            NoStrictFailure(session.engine, tx.statements, old(session.state.main), old(session.state.control)))
    ensures conflict.Some? ==>
      ReportsKind(session.engine, tx, old(session.state.main), old(session.state.control), checkConstraintResolution, conflict.value.kind)
  {
    hide StrictFailure, Execute, Apply, Session.Valid, Replay;
    var e := session.engine;
    ghost var start := session.state;
    ghost var statements := tx.statements;
    ReplayNothing(e, Main, start.main);
    ReplayNothing(e, Control, start.control);
    for i := 0 to |tx.statements|
      invariant session.Valid() && session.savepoints == old(session.savepoints) && session.state.log == start.log
      invariant Replay(e, Main, start.main, statements[..i]) == Some(session.state.main)
      invariant Replay(e, Control, start.control, statements[..i]) == Some(session.state.control)
      invariant checkConstraintResolution ==> forall j :: 0 <= j < i ==> NoStrictFailureAt(e, statements, j, start.main, start.control)
    {
      ReplaySnoc(e, Main, start.main, statements, i);
      ReplaySnoc(e, Control, start.control, statements, i);
      var strictFailure := None;
      if checkConstraintResolution {
        strictFailure := StrictConstraintResolutionFailure(session, tx.statements[i]);
      }
      ghost var before := session.state;
      var failure := session.RunStatement(Control, tx.statements[i], false);
      if failure.Some? {
        ReplayStopped(e, Control, start.control, statements, i + 1);
        assert ReportsKindAt(e, tx, start.main, start.control, checkConstraintResolution, failure.value.kind, i);
        return Some(ReplayConflict(failure.value));
      }
      failure := session.RunStatement(Main, tx.statements[i], false);
      if failure.Some? {
        ReplayStopped(e, Main, start.main, statements, i + 1);
        assert ReportsKindAt(e, tx, start.main, start.control, checkConstraintResolution, failure.value.kind, i);
        return Some(ReplayConflict(failure.value));
      }
      if strictFailure.Some? {
        assert !NoStrictFailureAt(e, statements, i, start.main, start.control);
        conflict := Some(ConstraintResolutionConflict(strictFailure.value));
        assert ReportsKindAt(e, tx, start.main, start.control, checkConstraintResolution, conflict.value.kind, i);
        return;
      }
    }
    assert statements[..|statements|] == statements;
    var mainError := e.foreignKeyError(session.state.main);
    if mainError.Some? {
      return Some(StatementConflict(Integrity, mainError.value, false));
    }
    var controlError := e.foreignKeyError(session.state.control);
    if controlError.Some? {
      return Some(StatementConflict(Integrity, controlError.value, false));
    }
    conflict := None;
  }

  /** A replay that failed on a prefix fails as a whole. */
  lemma {:induction false} ReplayStopped(e: Engine, side: Side, db: Db, statements: seq<LoggedStatement>, i: nat)
    requires i <= |statements| && Replay(e, side, db, statements[..i]).None?
    ensures Replay(e, side, db, statements).None?
    decreases |statements| - i
  {
    if i == |statements| {
      assert statements[..i] == statements;
    } else {
      ReplaySnoc(e, side, db, statements, i);
      ReplayStopped(e, side, db, statements, i + 1);
    }
  }

  /** Apply one transaction accepted by the fixed replay order and log it as one group. */
  method ApplyAcceptedTransaction(session: Session, tx: LoggedTransaction) returns (conflict: Option<StatementConflict>)
    requires session.Valid()
    modifies session
    ensures session.Valid() && session.savepoints == old(session.savepoints)
    ensures conflict.Some? ==> session.state == old(session.state) && (conflict.value.kind == Integrity || conflict.value.kind == ReplayError)
    ensures conflict.None? ==>
      && ReplayTransaction(session.engine, Main, old(session.state.main), tx) == Some(session.state.main)
      && ReplayTransaction(session.engine, Control, old(session.state.control), tx) == Some(session.state.control)
      && session.state.log == old(session.state.log) + [tx.statements]
    ensures conflict.None? <==>
      && ReplayTransaction(session.engine, Main, old(session.state.main), tx).Some?
      && ReplayTransaction(session.engine, Control, old(session.state.control), tx).Some?
      && session.engine.logError(old(session.state.log), tx.statements).None?
  {
    ghost var depth := |session.savepoints|;
    var savepoint := session.Begin();
    conflict := AdvanceTransaction(session, tx, false);
    if conflict.Some? {
      ReplayReportsKinds(session.engine, tx, old(session.state.main), old(session.state.control), conflict.value.kind);
      session.RollbackSavepoint(savepoint, depth);
      return;
    }
    var logError := session.engine.logError(session.state.log, tx.statements);
    if logError.Some? {
      session.RollbackSavepoint(savepoint, depth);
      return Some(ReplayConflict(logError.value));
    }
    session.state := session.state.(log := session.state.log + [tx.statements]);
    session.Release(savepoint, depth);
  }
}
