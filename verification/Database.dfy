/** The merge's view of SQLite: deterministic statements over cell maps, and one connection that
    holds a main database, an attached control database, the merge log and a savepoint stack. */
module Database {
  import opened Columns
  import opened Models

  datatype Cell = Cell(table: Table, row: int, column: Column)
  type Value = int
  type Db = map<Cell, Value>

  /** What a statement writes: `None` deletes a cell. */
  type Patch = map<Cell, Option<Value>>

  function Apply(db: Db, patch: Patch): Db {
    map cell | cell in db.Keys + patch.Keys && (cell in patch ==> patch[cell].Some?) ::
      if cell in patch then patch[cell].value else db[cell]
  }

  function Lookup(db: Db, cell: Cell): Option<Value> {
    if cell in db then Some(db[cell]) else None
  }

  lemma LookupApply(db: Db, patch: Patch, cell: Cell)
    ensures Lookup(Apply(db, patch), cell) == if cell in patch then patch[cell] else Lookup(db, cell)
  {
  }

  /** A constraint that does not hold, or any other error. */
  type FailureKind = k: ConflictKind | k.Integrity? || k.ReplayError? witness Integrity

  datatype Failure = Failure(kind: FailureKind, message: string)

  /** A statement may write before it fails; the caller's savepoint undoes that. With OR ROLLBACK, or a
      ROLLBACK asked for by a constraint or a trigger, SQLite undoes the whole transaction instead, and its
      savepoints go with it. */
  datatype Execution = Execution(patch: Patch, failure: Option<Failure>, transactionGone: bool)

  type Row = seq<Value>

  datatype ReadProbe = NoReadDependency | NotRefined | Query(sql: string)

  datatype Side = Main | Control

  /** SQLite and the SQL rewriters, as pure functions.
      `readRows` has no answer for a query that fails, or for an UPDATE FROM with several source
      rows for one target; `writeRows` gives the primary keys an UPDATE or DELETE would touch. */
  datatype Engine = Engine(
    run: (string, Db) -> Execution,
    foreignKeyError: Db -> Option<string>,
    logError: (seq<seq<LoggedStatement>>, seq<LoggedStatement>) -> Option<Failure>,
    controlSql: LoggedStatement -> Option<string>,
    strictForm: LoggedStatement -> Option<LoggedStatement>,
    readProbe: StatementMetadata -> ReadProbe,
    readProbeRewrites: string -> bool,
    readRows: (StatementMetadata, string, Db) -> Option<set<Row>>,
    writeProbeRewrites: StatementMetadata -> bool,
    writeRows: (StatementMetadata, Db) -> Option<set<Row>>)

  /** No statement takes the transaction away. The merge counts on it: its savepoints are all it has to undo
      a trial, and it neutralizes OR ROLLBACK for that reason. */
  ghost predicate KeepsTransaction(e: Engine) {
    forall sql, db :: !e.run(sql, db).transactionGone
  }

  /** Run one logged statement on one side; control runs its rewritten form. */
  function Execute(e: Engine, side: Side, db: Db, s: LoggedStatement): Execution {
    if side.Main? then e.run(s.sqlText, db)
    else
      match e.controlSql(s)
      case None => Execution(map[], Some(Failure(ReplayError, "statement cannot be rewritten for control database")), false)
      case Some(sql) => e.run(sql, db)
  }

  function Step(e: Engine, side: Side, db: Db, s: LoggedStatement): Option<Db> {
    var r := Execute(e, side, db, s);
    if r.failure.Some? then None else Some(Apply(db, r.patch))
  }

  function ForeignKeysHold(e: Engine, db: Db): bool {
    e.foreignKeyError(db).None?
  }

  /** The failure of one statement with the deferred foreign-key check after it. */
  function CheckedFailure(e: Engine, side: Side, db: Db, s: LoggedStatement): Option<Failure> {
    var r := Execute(e, side, db, s);
    if r.failure.Some? then r.failure
    else
      match e.foreignKeyError(Apply(db, r.patch))
      case None => None
      case Some(message) => Some(Failure(Integrity, message))
  }

  /** Replay statements in order; `None` when one fails. */
  function Replay(e: Engine, side: Side, db: Db, statements: seq<LoggedStatement>): Option<Db> {
    if statements == [] then Some(db)
    else
      match Replay(e, side, db, statements[..|statements| - 1])
      case None => None
      case Some(before) => Step(e, side, before, statements[|statements| - 1])
  }

  /** Replay one transaction, deferred foreign keys checked at its end. */
  function ReplayTransaction(e: Engine, side: Side, db: Db, tx: LoggedTransaction): Option<Db> {
    match Replay(e, side, db, tx.statements)
    case None => None
    case Some(after) => if ForeignKeysHold(e, after) then Some(after) else None
  }

  function ReplayAll(e: Engine, side: Side, db: Db, txs: seq<LoggedTransaction>): Option<Db> {
    if txs == [] then Some(db)
    else
      match ReplayAll(e, side, db, txs[..|txs| - 1])
      case None => None
      case Some(before) => ReplayTransaction(e, side, before, txs[|txs| - 1])
  }

  lemma ReplayNothing(e: Engine, side: Side, db: Db)
    ensures Replay(e, side, db, []) == Some(db) && ReplayAll(e, side, db, []) == Some(db)
  {
  }

  lemma ReplaySnoc(e: Engine, side: Side, db: Db, statements: seq<LoggedStatement>, i: nat)
    requires i < |statements|
    ensures Replay(e, side, db, statements[..i + 1]) ==
      match Replay(e, side, db, statements[..i]) case None => None case Some(before) => Step(e, side, before, statements[i])
  {
    PrefixSnoc(statements, i);
  }

  lemma ReplayAllSnoc(e: Engine, side: Side, db: Db, txs: seq<LoggedTransaction>, tx: LoggedTransaction)
    ensures ReplayAll(e, side, db, txs + [tx]) ==
      match ReplayAll(e, side, db, txs) case None => None case Some(before) => ReplayTransaction(e, side, before, tx)
  {
    assert (txs + [tx])[..|txs|] == txs;
  }

  /** One transaction first, then the rest. */
  lemma {:induction false} ReplayAllCons(e: Engine, side: Side, db: Db, tx: LoggedTransaction, txs: seq<LoggedTransaction>)
    ensures ReplayAll(e, side, db, [tx] + txs) ==
      match ReplayTransaction(e, side, db, tx) case None => None case Some(after) => ReplayAll(e, side, after, txs)
  {
    if txs == [] {
      ReplayAllSnoc(e, side, db, [], tx);
      assert [tx] + txs == [] + [tx];
    } else {
      var rest, last := txs[..|txs| - 1], txs[|txs| - 1];
      ReplayAllCons(e, side, db, tx, rest);
      assert txs == rest + [last];
      assert [tx] + txs == ([tx] + rest) + [last];
      ReplayAllSnoc(e, side, db, [tx] + rest, last);
      match ReplayTransaction(e, side, db, tx) {
        case None =>
        case Some(after) => ReplayAllSnoc(e, side, after, rest, last);
      }
    }
  }

  // ----- the connection -----

  datatype DbState = DbState(main: Db, control: Db, log: seq<seq<LoggedStatement>>) {
    function On(side: Side): Db {
      if side.Main? then main else control
    }

    function With(side: Side, db: Db): DbState {
      if side.Main? then this.(main := db) else this.(control := db)
    }
  }

  datatype Savepoint = Savepoint(id: nat, state: DbState)

  /** The shared connection: everything the nested scans change, and SQLite's savepoint stack. */
  class Session {
    const engine: Engine
    var state: DbState
    var savepoints: seq<Savepoint>
    var nextId: nat

    constructor (engine: Engine, base: Db)
      requires KeepsTransaction(engine)
      ensures this.engine == engine && state == DbState(base, base, []) && savepoints == [] && Valid()
    {
      this.engine := engine;
      state := DbState(base, base, []);
      savepoints := [];
      nextId := 0;
    }

    /** Savepoint names are distinct: the source draws them from uuid4. */
    ghost predicate Valid()
      reads this
    {
      && KeepsTransaction(engine)
      && Distinct()
    }

    ghost predicate Distinct()
      reads this
    {
      && (forall i :: 0 <= i < |savepoints| ==> savepoints[i].id < nextId)
      && (forall i, j :: 0 <= i < j < |savepoints| ==> savepoints[i].id != savepoints[j].id)
    }

    /** SAVEPOINT with a new name. */
    method Begin() returns (id: nat)
      requires Valid()
      modifies this
      ensures Valid() && state == old(state)
      ensures savepoints == old(savepoints) + [Savepoint(id, state)]
    {
      id := nextId;
      savepoints := savepoints + [Savepoint(id, state)];
      nextId := nextId + 1;
    }

    /** The innermost savepoint of that name. */
    method Find(id: nat) returns (i: nat)
      requires exists j :: 0 <= j < |savepoints| && savepoints[j].id == id
      ensures i < |savepoints| && savepoints[i].id == id
      ensures forall j :: i < j < |savepoints| ==> savepoints[j].id != id
    {
      i := |savepoints| - 1;
      while savepoints[i].id != id
        invariant i < |savepoints|
        invariant exists j :: 0 <= j <= i && savepoints[j].id == id
        invariant forall j :: i < j < |savepoints| ==> savepoints[j].id != id
        decreases i
      {
        i := i - 1;
      }
    }

    /** ROLLBACK TO, then RELEASE: the state at the savepoint, and the stack beneath it. */
    method RollbackSavepoint(id: nat, ghost depth: nat)
      requires Valid() && depth < |savepoints| && savepoints[depth].id == id
      modifies this
      ensures Valid()
      ensures state == old(savepoints[depth].state)
      ensures savepoints == old(savepoints[..depth])
    {
      var i := Find(id);
      state := savepoints[i].state;
      savepoints := savepoints[..i + 1];
      savepoints := savepoints[..i];
    }

    /** RELEASE: the savepoint and all above it go, the state stays. */
    method Release(id: nat, ghost depth: nat)
      requires Valid() && depth < |savepoints| && savepoints[depth].id == id
      modifies this
      ensures Valid()
      ensures state == old(state)
      ensures savepoints == old(savepoints[..depth])
    {
      var i := Find(id);
      savepoints := savepoints[..i];
    }

    /** Execute one statement on one side. One that takes the transaction away leaves no savepoint, and the
        state the outermost one was set in. */
    method RunAny(side: Side, s: LoggedStatement) returns (failure: Option<Failure>)
      requires Distinct()
      modifies this`state, this`savepoints
      ensures Distinct()
      ensures var r := Execute(engine, side, old(state.On(side)), s);
        && failure == r.failure
        && (r.transactionGone ==> savepoints == [] && state == if old(savepoints) == [] then old(state) else old(savepoints)[0].state)
        && (!r.transactionGone ==> savepoints == old(savepoints) && state == old(state).With(side, Apply(old(state.On(side)), r.patch)))
    {
      var r := Execute(engine, side, state.On(side), s);
      failure := r.failure;
      if r.transactionGone {
        if savepoints != [] { state := savepoints[0].state; }
        savepoints := [];
      } else {
        state := state.With(side, Apply(state.On(side), r.patch));
      }
    }

    /** Execute one statement on one side, optionally checking deferred foreign keys after it. */
    method RunStatement(side: Side, s: LoggedStatement, checkForeignKeys: bool) returns (failure: Option<Failure>)
      requires Valid()
      modifies this`state, this`savepoints
      ensures Valid() && savepoints == old(savepoints)
      ensures var r := Execute(engine, side, old(state.On(side)), s);
        && state == old(state).With(side, Apply(old(state.On(side)), r.patch))
        && failure == if checkForeignKeys then CheckedFailure(engine, side, old(state.On(side)), s) else r.failure
    {
      failure := RunAny(side, s);
      if failure.None? && checkForeignKeys {
        var error := engine.foreignKeyError(state.On(side));
        if error.Some? { failure := Some(Failure(Integrity, error.value)); }
      }
    }
  }
}
