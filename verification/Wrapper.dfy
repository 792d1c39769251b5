/** The logging wrapper: a transaction and savepoint buffer kept beside a SQLite connection
    (src/sqlite_wrapper/wrapper.py). */
module Wrapper {
  import opened Columns
  import Database

  type UserData = Database.Db

  datatype LogEntry = LogEntry(originalSql: string, replaySql: string, replaySafe: bool, blockReason: Option<string>)

  datatype Command =
    | Begin
    | Commit
    | End
    | Rollback
    | Savepoint(name: string)
    | RollbackTo(name: string)
    | Release(name: string)
    | Dml(entry: LogEntry)
    | Other(sql: string)

  /** What SQLite does with a statement. `Raised` may have changed rows first (OR FAIL);
      `TransactionGone` has rolled the open transaction back (OR ROLLBACK). */
  datatype Outcome =
    | Done(db: UserData, rows: nat)
    | Raised(error: string, db: UserData, rows: nat)
    | TransactionGone(error: string)

  /** A commit SQLite refuses. */
  datatype Refusal = KeepsOpen(error: string) | RollsBack(error: string)

  datatype Engine = Engine(
    run: (string, UserData) -> Outcome,
    otherFails: (string, UserData) -> Option<string>,
    commitFails: UserData -> Option<Refusal>)

  // ----- SQLite's own transaction and savepoint stack -----

  /** A DML statement that changed the database, and the error it raised afterwards, if any. */
  datatype Effect = Effect(entry: LogEntry, raised: Option<string>)

  datatype Mark = Mark(name: string, db: UserData, work: seq<Effect>)

  datatype Transaction = Transaction(explicit: bool, base: UserData, work: seq<Effect>, marks: seq<Mark>, firstError: Option<string>)

  /** One committed transaction. */
  datatype Batch = Batch(work: seq<Effect>, firstError: Option<string>)

  datatype Connection = Connection(db: UserData, tx: Option<Transaction>, totalChanges: nat, committed: seq<Batch>)

  function FoldCase(name: string): string {
    seq(|name|, i requires 0 <= i < |name| => if 'a' <= name[i] <= 'z' then name[i] - 32 as char else name[i])
  }

  predicate SameName(a: string, b: string) { FoldCase(a) == FoldCase(b) }

  /** The same letter in either case, or the same character. */
  ghost predicate SameLetter(c: char, d: char) {
    c == d || ('a' <= c <= 'z' && c as int == d as int + 32) || ('a' <= d <= 'z' && d as int == c as int + 32)
  }

  /** Savepoint names are the same exactly when they are spelled alike up to the case of ASCII letters. */
  lemma SameNameIgnoresCase(a: string, b: string)
    ensures SameName(a, b) <==> |a| == |b| && forall i :: 0 <= i < |a| ==> SameLetter(a[i], b[i])
  {
    assert |FoldCase(a)| == |a| && |FoldCase(b)| == |b|;
    forall i | 0 <= i < |a| && i < |b| ensures SameLetter(a[i], b[i]) <==> FoldCase(a)[i] == FoldCase(b)[i] {}
    if SameName(a, b) {
      forall i | 0 <= i < |a| ensures SameLetter(a[i], b[i]) { assert FoldCase(a)[i] == FoldCase(b)[i]; }
    }
  }

  /** Index of the innermost name equal to `name`. */
  function LastNamed(names: seq<string>, name: string): (r: Option<nat>)
    ensures r.Some? ==> r.value < |names| && SameName(names[r.value], name)
    ensures forall i :: 0 <= i < |names| && (r.Some? ==> r.value < i) ==> !SameName(names[i], name)
  {
    if names == [] then None
    else if SameName(names[|names| - 1], name) then Some(|names| - 1)
    else LastNamed(names[..|names| - 1], name)
  }

  function MarkNames(marks: seq<Mark>): (r: seq<string>)
    ensures |r| == |marks|
  {
    seq(|marks|, i requires 0 <= i < |marks| => marks[i].name)
  }

  /** The SQL the wrapper really runs for an entry. */
  function ExecutedSql(entry: LogEntry): string {
    if entry.replaySafe then entry.replaySql else entry.originalSql
  }

  function WithBatch(committed: seq<Batch>, work: seq<Effect>, firstError: Option<string>): seq<Batch> {
    if work == [] then committed else committed + [Batch(work, firstError)]
  }

  function Failed(c: Connection, error: string): Connection {
    if c.tx.None? then c
    else c.(tx := Some(c.tx.value.(firstError := if c.tx.value.firstError.Some? then c.tx.value.firstError else Some(error))))
  }

  function RolledBack(c: Connection): Connection {
    if c.tx.None? then c else c.(db := c.tx.value.base, tx := None)
  }

  /** The innermost savepoint a command names. */
  function Target(c: Connection, name: string): (r: Option<nat>)
    ensures r.Some? ==> c.tx.Some? && r.value < |c.tx.value.marks|
  {
    if c.tx.None? then None else LastNamed(MarkNames(c.tx.value.marks), name)
  }

  function CommitStep(e: Engine, c: Connection): (Connection, Option<string>)
    requires c.tx.Some?
  {
    match e.commitFails(c.db)
    case Some(KeepsOpen(error)) => (Failed(c, error), Some(error))
    case Some(RollsBack(error)) => (RolledBack(c), Some(error))
    case None => (c.(tx := None, committed := WithBatch(c.committed, c.tx.value.work, c.tx.value.firstError)), None)
  }

  /** An effect joins the open transaction, or commits alone. */
  function Affected(c: Connection, db: UserData, rows: nat, effect: Effect): Connection {
    if c.tx.None? then Connection(db, None, c.totalChanges + rows, WithBatch(c.committed, [effect], None))
    else c.(db := db, totalChanges := c.totalChanges + rows, tx := Some(c.tx.value.(work := c.tx.value.work + [effect])))
  }

  function DmlStep(e: Engine, c: Connection, entry: LogEntry): (Connection, Option<string>) {
    match e.run(ExecutedSql(entry), c.db)
    case Done(db, rows) => (Affected(c, db, rows, Effect(entry, None)), None)
    case Raised(error, db, rows) =>
      (Failed(if rows == 0 then c else Affected(c, db, rows, Effect(entry, Some(error))), error), Some(error))
    case TransactionGone(error) => (RolledBack(c), Some(error))
  }

  /** One statement on SQLite's side: the next connection state, and the error it raised. */
  function SqliteStep(e: Engine, c: Connection, cmd: Command): (Connection, Option<string>) {
    match cmd
    case Begin =>
      if c.tx.Some? then (Failed(c, "transaction within a transaction"), Some("transaction within a transaction"))
      else (c.(tx := Some(Transaction(true, c.db, [], [], None))), None)
    case Commit =>
      if c.tx.None? then (c, Some("no transaction is active")) else CommitStep(e, c)
    case End =>
      if c.tx.None? then (c, Some("no transaction is active")) else CommitStep(e, c)
    case Rollback =>
      if c.tx.None? then (c, Some("no transaction is active")) else (RolledBack(c), None)
    case Savepoint(name) =>
      var tx := if c.tx.Some? then c.tx.value else Transaction(false, c.db, [], [], None);
      (c.(tx := Some(tx.(marks := tx.marks + [Mark(name, c.db, tx.work)]))), None)
    case RollbackTo(name) =>
      var t := Target(c, name);
      if t.None? then (Failed(c, "no such savepoint"), Some("no such savepoint"))
      else
        var tx := c.tx.value;
        var mark := tx.marks[t.value];
        (c.(db := mark.db, tx := Some(tx.(work := mark.work, marks := tx.marks[..t.value + 1]))), None)
    case Release(name) =>
      var t := Target(c, name);
      if t.None? then (Failed(c, "no such savepoint"), Some("no such savepoint"))
      else if t.value == 0 && !c.tx.value.explicit then CommitStep(e, c)
      else (c.(tx := Some(c.tx.value.(marks := c.tx.value.marks[..t.value]))), None)
    case Dml(entry) => DmlStep(e, c, entry)
    case Other(sql) =>
      match e.otherFails(sql, c.db)
      case Some(error) => (Failed(c, error), Some(error))
      case None => (c, None)
  }

  /** Transactions do not nest, ending one needs one, and one begun by BEGIN is not ended by a RELEASE. */
  lemma Transactions(e: Engine, c: Connection, name: string)
    ensures SqliteStep(e, c, Begin).1.None? <==> c.tx.None?
    ensures SqliteStep(e, c, Begin).1.None? ==>
      var begun := SqliteStep(e, c, Begin).0;
      && begun.db == c.db && SqliteStep(e, begun, Savepoint(name)).1.None?
      && SqliteStep(e, SqliteStep(e, begun, Savepoint(name)).0, Release(name)).0.tx.Some?
    ensures c.tx.None? ==> SqliteStep(e, c, Commit).1.Some? && SqliteStep(e, c, End).1.Some? && SqliteStep(e, c, Rollback).1.Some?
    ensures c.tx.Some? ==> SqliteStep(e, c, Rollback) == (c.(db := c.tx.value.base, tx := None), None)
  {
  }

  function SqliteRun(e: Engine, c: Connection, cmds: seq<Command>): Connection {
    if cmds == [] then c else SqliteStep(e, SqliteRun(e, c, cmds[..|cmds| - 1]), cmds[|cmds| - 1]).0
  }

  // ----- the wrapper's bookkeeping, as a function of its state -----

  const EXECUTION_ERROR_REASON := "statement raised an execution error: "

  datatype Recorded = Recorded(name: string, length: nat)

  datatype Book = Book(inTransaction: bool, buffer: seq<LogEntry>, savepoints: seq<Recorded>,
    errorReason: Option<string>, log: seq<seq<LogEntry>>)

  function RecordedNames(savepoints: seq<Recorded>): seq<string> {
    seq(|savepoints|, i requires 0 <= i < |savepoints| => savepoints[i].name)
  }

  predicate HasReason(entry: LogEntry) { entry.blockReason.Some? && entry.blockReason.value != "" }

  /** A statement that changed rows and then raised. */
  function ErrorEntry(entry: LogEntry, error: string): LogEntry {
    var reason := EXECUTION_ERROR_REASON + error;
    entry.(replaySafe := false, blockReason := Some(if HasReason(entry) then entry.blockReason.value + "; " + reason else reason))
  }

  function Blocked(entry: LogEntry, reason: string): LogEntry {
    entry.(replaySafe := false, blockReason := if HasReason(entry) then entry.blockReason else Some(reason))
  }

  function BlockAll(entries: seq<LogEntry>, errorReason: Option<string>): (r: seq<LogEntry>)
    ensures |r| == |entries|
  {
    if errorReason.None? then entries
    else seq(|entries|, i requires 0 <= i < |entries| => Blocked(entries[i], errorReason.value))
  }

  function Discarded(b: Book): Book {
    Book(false, [], [], None, b.log)
  }

  function Flushed(b: Book): Book {
    Discarded(if b.buffer == [] then b else b.(log := b.log + [BlockAll(b.buffer, b.errorReason)]))
  }

  function Noted(b: Book, entry: LogEntry): Book {
    if b.inTransaction then b.(buffer := b.buffer + [entry]) else b.(log := b.log + [[entry]])
  }

  function Erred(b: Book, error: string): Book {
    if !b.inTransaction || b.errorReason.Some? then b else b.(errorReason := Some(EXECUTION_ERROR_REASON + error))
  }

  /** `_rollback_to_savepoint`: truncate at the last recorded savepoint of that name. */
  function Truncated(b: Book, name: string): Book {
    var at := LastNamed(RecordedNames(b.savepoints), name);
    if at.None? then b
    else
      var length := b.savepoints[at.value].length;
      b.(buffer := if length <= |b.buffer| then b.buffer[..length] else b.buffer, savepoints := b.savepoints[..at.value + 1])
  }

  /** `_release_savepoint`: forget one entry, whatever was released. */
  function Popped(b: Book): Book {
    b.(savepoints := if b.savepoints == [] then [] else b.savepoints[..|b.savepoints| - 1])
  }

  /** `_execute_on` after SQLite has answered. */
  function BookAfter(b: Book, cmd: Command, error: Option<string>, stillOpen: bool, changed: bool): Book {
    if error.Some? then
      if b.inTransaction && !stillOpen then Discarded(b)
      else Erred(if cmd.Dml? && changed then Noted(b, ErrorEntry(cmd.entry, error.value)) else b, error.value)
    else
      match cmd
      case Begin => Book(true, [], [], None, b.log)
      case Commit => Flushed(b)
      case RollbackTo(name) => Truncated(b, name)
      case Rollback => Discarded(b)
      case Savepoint(name) =>
        var open := if b.inTransaction then b else Book(true, [], [], None, b.log);
        open.(savepoints := open.savepoints + [Recorded(name, |open.buffer|)])
      case Release(_) => if b.inTransaction && !stillOpen then Flushed(Popped(b)) else Popped(b)
      case Dml(entry) => Noted(b, entry)
      case End => b
      case Other(_) => b
  }

  /** Wrapper and connection together. */
  datatype State = State(book: Book, conn: Connection)

  function Execute(e: Engine, s: State, cmd: Command): State {
    var (conn, error) := SqliteStep(e, s.conn, cmd);
    State(BookAfter(s.book, cmd, error, conn.tx.Some?, conn.totalChanges != s.conn.totalChanges), conn)
  }

  function Run(e: Engine, s: State, cmds: seq<Command>): State {
    if cmds == [] then s else Execute(e, Run(e, s, cmds[..|cmds| - 1]), cmds[|cmds| - 1])
  }

  // ----- the buffer refines SQLite's stack -----

  function Entry(effect: Effect): LogEntry {
    if effect.raised.None? then effect.entry else ErrorEntry(effect.entry, effect.raised.value)
  }

  function Entries(work: seq<Effect>): (r: seq<LogEntry>)
    ensures |r| == |work|
  {
    seq(|work|, i requires 0 <= i < |work| => Entry(work[i]))
  }

  function Reason(firstError: Option<string>): Option<string> {
    if firstError.None? then None else Some(EXECUTION_ERROR_REASON + firstError.value)
  }

  /** The log the committed transactions should have left: all their effects, in order, blocked after an error. */
  function LogOf(committed: seq<Batch>): (r: seq<seq<LogEntry>>)
    ensures |r| == |committed|
  {
    seq(|committed|, i requires 0 <= i < |committed| => BlockAll(Entries(committed[i].work), Reason(committed[i].firstError)))
  }

  /** The buffer holds exactly the work that survives, and the log exactly the work that committed. */
  ghost predicate Refines(s: State) {
    && s.book.inTransaction == s.conn.tx.Some?
    && (s.conn.tx.None? ==> s.book == Book(false, [], [], None, s.book.log))
    && (s.conn.tx.Some? ==> s.book.buffer == Entries(s.conn.tx.value.work) && s.book.errorReason == Reason(s.conn.tx.value.firstError))
    && s.book.log == LogOf(s.conn.committed)
  }

  // ----- the savepoints the wrapper still holds, seen from SQLite's side -----

  /** A savepoint the wrapper has not forgotten, and the work done before it was set. */
  datatype Record = Record(name: string, work: seq<Effect>)

  function RecordNames(records: seq<Record>): (r: seq<string>)
    ensures |r| == |records|
  {
    seq(|records|, i requires 0 <= i < |records| => records[i].name)
  }

  /** What one command does to the records: RELEASE drops one of them, whatever SQLite released. */
  function NextRecords(e: Engine, c: Connection, records: seq<Record>, cmd: Command): seq<Record> {
    var (conn, error) := SqliteStep(e, c, cmd);
    if conn.tx.None? then []
    else if error.Some? then records
    else
      match cmd
      case Begin => []
      case Savepoint(name) =>
        if c.tx.None? then [Record(name, [])] else records + [Record(name, c.tx.value.work)]
      case RollbackTo(name) =>
        var at := LastNamed(RecordNames(records), name);
        if at.None? then records else records[..at.value + 1]
      case Release(_) => if records == [] then [] else records[..|records| - 1]
      case _ => records
  }

  function RecordsRun(e: Engine, c: Connection, records: seq<Record>, cmds: seq<Command>): seq<Record> {
    if cmds == [] then records
    else NextRecords(e, SqliteRun(e, c, cmds[..|cmds| - 1]), RecordsRun(e, c, records, cmds[..|cmds| - 1]), cmds[|cmds| - 1])
  }

  /** The command the wrapper gets wrong: a ROLLBACK TO for which statements took effect between SQLite's
      savepoint and the innermost one of that name not yet forgotten, or a commit spelled END. */
  predicate Misses(e: Engine, c: Connection, records: seq<Record>, cmd: Command) {
    match cmd
    case RollbackTo(name) =>
      var t, at := Target(c, name), LastNamed(RecordNames(records), name);
      t.Some? && (at.None? || records[at.value].work != c.tx.value.marks[t.value].work)
    case End => c.tx.Some? && e.commitFails(c.db).None?
    case _ => false
  }

  predicate FaithfulRun(e: Engine, c: Connection, records: seq<Record>, cmds: seq<Command>) {
    cmds == [] ||
    (&& FaithfulRun(e, c, records, cmds[..|cmds| - 1])
     && !Misses(e, SqliteRun(e, c, cmds[..|cmds| - 1]), RecordsRun(e, c, records, cmds[..|cmds| - 1]), cmds[|cmds| - 1]))
  }

  /** SQLite's savepoints are among the records: live savepoint `k` is record `live[k]`. */
  ghost predicate Embeds(live: seq<nat>, marks: seq<Mark>, records: seq<Record>) {
    && |live| == |marks|
    && (forall k :: 0 <= k < |live| ==> live[k] < |records| && records[live[k]] == Record(marks[k].name, marks[k].work))
    && (forall j, k :: 0 <= j < k < |live| ==> live[j] < live[k])
  }

  /** Work only grows along the records. */
  ghost predicate Chained(records: seq<Record>, work: seq<Effect>) {
    && (forall k :: 0 <= k < |records| ==> records[k].work <= work)
    && (forall j, k :: 0 <= j < k < |records| ==> records[j].work <= records[k].work)
  }

  /** The wrapper holds each record's name and the length its buffer had. */
  ghost predicate Kept(records: seq<Record>, saved: seq<Recorded>) {
    |saved| == |records| && forall k :: 0 <= k < |records| ==> saved[k] == Recorded(records[k].name, |records[k].work|)
  }

  ghost predicate Linked(s: State, records: seq<Record>, live: seq<nat>) {
    if s.conn.tx.None? then records == [] && live == []
    else
      && Kept(records, s.book.savepoints)
      && Embeds(live, s.conn.tx.value.marks, records)
      && Chained(records, s.conn.tx.value.work)
  }

  function NextLive(e: Engine, s: State, records: seq<Record>, cmd: Command, live: seq<nat>): seq<nat> {
    var (conn, error) := SqliteStep(e, s.conn, cmd);
    if conn.tx.None? then []
    else if error.Some? then live
    else
      match cmd
      case Savepoint(_) => live + [|records|]
      case RollbackTo(name) => if Target(s.conn, name).Some? && Target(s.conn, name).value < |live| then live[..Target(s.conn, name).value + 1] else live
      case Release(name) => if Target(s.conn, name).Some? && Target(s.conn, name).value <= |live| then live[..Target(s.conn, name).value] else live
      case _ => live
  }

  lemma EntriesAppend(work: seq<Effect>, effect: Effect)
    ensures Entries(work + [effect]) == Entries(work) + [Entry(effect)]
  {
  }

  lemma EntriesPrefix(work: seq<Effect>, longer: seq<Effect>)
    requires work <= longer
    ensures Entries(longer)[..|work|] == Entries(work)
  {
  }

  lemma LogAppend(committed: seq<Batch>, work: seq<Effect>, firstError: Option<string>)
    ensures LogOf(WithBatch(committed, work, firstError)) ==
      if work == [] then LogOf(committed) else LogOf(committed) + [BlockAll(Entries(work), Reason(firstError))]
  {
    hide BlockAll, Entries;
  }

  lemma SavepointKeeps(live: seq<nat>, tx: Transaction, records: seq<Record>, saved: seq<Recorded>, name: string, db: UserData)
    requires Kept(records, saved) && Embeds(live, tx.marks, records) && Chained(records, tx.work)
    ensures var records' := records + [Record(name, tx.work)];
      && Kept(records', saved + [Recorded(name, |tx.work|)]) && Embeds(live + [|records|], tx.marks + [Mark(name, db, tx.work)], records')
      && Chained(records', tx.work)
  {
  }

  /** The innermost record of a live savepoint's name lies at or above that savepoint. */
  lemma RecordFound(live: seq<nat>, tx: Transaction, records: seq<Record>, saved: seq<Recorded>, name: string, t: nat) returns (at: nat)
    requires Kept(records, saved) && Embeds(live, tx.marks, records) && LastNamed(MarkNames(tx.marks), name) == Some(t)
    ensures live[t] <= at < |records|
    ensures LastNamed(RecordNames(records), name) == Some(at) && LastNamed(RecordedNames(saved), name) == Some(at)
  {
    hide FoldCase;
    assert SameName(RecordNames(records)[live[t]], name) by { assert SameName(MarkNames(tx.marks)[t], name); }
    assert RecordNames(records) == RecordedNames(saved);
    at := LastNamed(RecordNames(records), name).value;
  }

  lemma RollbackKeeps(live: seq<nat>, tx: Transaction, records: seq<Record>, saved: seq<Recorded>, t: nat, at: nat)
    requires Kept(records, saved) && Embeds(live, tx.marks, records) && Chained(records, tx.work)
    requires t < |tx.marks| && live[t] <= at < |records| && records[at].work == tx.marks[t].work
    ensures Kept(records[..at + 1], saved[..at + 1]) && Embeds(live[..t + 1], tx.marks[..t + 1], records[..at + 1])
    ensures Chained(records[..at + 1], tx.marks[t].work) && tx.marks[t].work <= tx.work
  {
  }

  lemma ReleaseKeeps(live: seq<nat>, tx: Transaction, records: seq<Record>, saved: seq<Recorded>, t: nat)
    requires Kept(records, saved) && Embeds(live, tx.marks, records) && Chained(records, tx.work) && t < |tx.marks|
    ensures records != [] && saved != []
    ensures Kept(records[..|records| - 1], saved[..|saved| - 1]) && Embeds(live[..t], tx.marks[..t], records[..|records| - 1])
    ensures Chained(records[..|records| - 1], tx.work)
  {
    assert live[t] < |records|;
  }

  // ----- every step keeps the refinement -----

  /** A command SQLite refuses. */
  lemma RefusedKeeps(s: State, records: seq<Record>, live: seq<nat>, error: string, cmd: Command)
    requires Refines(s) && Linked(s, records, live)
    ensures var s' := State(BookAfter(s.book, cmd, Some(error), s.conn.tx.Some?, false), Failed(s.conn, error));
      Refines(s') && Linked(s', records, live)
  {
    hide Entries, LogOf, Embeds, Kept, Chained;
  }

  /** SQLite has rolled the transaction back on its own, or on request. */
  lemma RolledBackKeeps(s: State)
    requires Refines(s)
    ensures var s' := State(Discarded(s.book), RolledBack(s.conn));
      Refines(s') && Linked(s', [], [])
  {
    hide Entries, LogOf;
  }

  lemma CommittedKeeps(e: Engine, s: State, popped: bool)
    requires Refines(s) && s.conn.tx.Some? && e.commitFails(s.conn.db).None?
    ensures var s' := State(Flushed(if popped then Popped(s.book) else s.book), CommitStep(e, s.conn).0);
      Refines(s') && Linked(s', [], [])
  {
    hide LogOf, BlockAll;
    LogAppend(s.conn.committed, s.conn.tx.value.work, s.conn.tx.value.firstError);
  }

  lemma AffectedKeeps(s: State, records: seq<Record>, live: seq<nat>, db: UserData, rows: nat, effect: Effect)
    requires Refines(s) && Linked(s, records, live)
    ensures var s' := State(Noted(s.book, Entry(effect)), Affected(s.conn, db, rows, effect));
      Refines(s') && Linked(s', records, live)
  {
    hide LogOf, Entry, Embeds, Kept;
    if s.conn.tx.Some? {
      EntriesAppend(s.conn.tx.value.work, effect);
    } else {
      LogAppend(s.conn.committed, [effect], None);
      assert Entries([effect]) == [Entry(effect)];
    }
  }

  lemma DmlKeeps(e: Engine, s: State, records: seq<Record>, live: seq<nat>, entry: LogEntry)
    requires Refines(s) && Linked(s, records, live)
    ensures var cmd := Dml(entry);
      Refines(Execute(e, s, cmd)) && Linked(Execute(e, s, cmd), NextRecords(e, s.conn, records, cmd), NextLive(e, s, records, cmd, live))
  {
    hide Entries, LogOf, Refines, Linked;
    OpenAlike(s, records, live);
    match e.run(ExecutedSql(entry), s.conn.db)
    case Done(db, rows) =>
      AffectedKeeps(s, records, live, db, rows, Effect(entry, None));
    case Raised(error, db, rows) =>
      if rows == 0 {
        RefusedKeeps(s, records, live, error, Dml(entry));
      } else {
        var effect := Effect(entry, Some(error));
        AffectedKeeps(s, records, live, db, rows, effect);
        RefusedKeeps(State(Noted(s.book, Entry(effect)), Affected(s.conn, db, rows, effect)), records, live, error, Dml(entry));
      }
    case TransactionGone(error) =>
      RolledBackKeeps(s);
      if s.conn.tx.None? { DiscardedIsNothing(s); }
  }

  lemma OpenAlike(s: State, records: seq<Record>, live: seq<nat>)
    requires Refines(s) && Linked(s, records, live)
    ensures s.book.inTransaction == s.conn.tx.Some? && (s.conn.tx.None? ==> live == [] && records == [])
  {
  }

  lemma DiscardedIsNothing(s: State)
    requires Refines(s) && s.conn.tx.None?
    ensures Discarded(s.book) == s.book
  {
  }

  lemma SavepointStepKeeps(e: Engine, s: State, records: seq<Record>, live: seq<nat>, name: string)
    requires Refines(s) && Linked(s, records, live)
    ensures var cmd := Savepoint(name);
      Refines(Execute(e, s, cmd)) && Linked(Execute(e, s, cmd), NextRecords(e, s.conn, records, cmd), NextLive(e, s, records, cmd, live))
  {
    hide Embeds, Kept, Chained, LogOf, FoldCase;
    var tx := if s.conn.tx.Some? then s.conn.tx.value else Transaction(false, s.conn.db, [], [], None);
    EmptyStack();
    SavepointKeeps(live, tx, records, s.book.savepoints, name, s.conn.db);
    assert [] + [Record(name, [])] == [Record(name, [])];
  }

  lemma EmptyStack()
    ensures Kept([], []) && Embeds([], [], []) && Chained([], [])
  {
  }

  /** ROLLBACK TO keeps the buffer right exactly when the command is not missed. */
  lemma RollbackToExact(e: Engine, s: State, records: seq<Record>, live: seq<nat>, name: string)
    requires Refines(s) && Linked(s, records, live)
    ensures var cmd := RollbackTo(name); Refines(Execute(e, s, cmd)) <==> !Misses(e, s.conn, records, cmd)
    ensures var cmd := RollbackTo(name);
      !Misses(e, s.conn, records, cmd) ==> Linked(Execute(e, s, cmd), NextRecords(e, s.conn, records, cmd), NextLive(e, s, records, cmd, live))
  {
    hide LogOf, FoldCase, Entries, LastNamed, Embeds, Kept;
    var t := Target(s.conn, name);
    if t.Some? {
      var tx := s.conn.tx.value;
      var at := RecordFound(live, tx, records, s.book.savepoints, name, t.value);
      RecordLength(live, tx, records, s.book.savepoints, at);
      TargetLength(live, tx, records, t.value);
      EntriesPrefix(records[at].work, tx.work);
      if records[at].work == tx.marks[t.value].work {
        RollbackKeeps(live, tx, records, s.book.savepoints, t.value, at);
      }
    } else {
      RefusedKeeps(s, records, live, "no such savepoint", RollbackTo(name));
    }
  }

  lemma RecordLength(live: seq<nat>, tx: Transaction, records: seq<Record>, saved: seq<Recorded>, at: nat)
    requires Kept(records, saved) && at < |records|
    ensures |saved| == |records| && saved[at].length == |records[at].work|
  {
  }

  lemma TargetLength(live: seq<nat>, tx: Transaction, records: seq<Record>, t: nat)
    requires Embeds(live, tx.marks, records) && Chained(records, tx.work) && t < |tx.marks|
    ensures |live| == |tx.marks| && tx.marks[t].work <= tx.work
  {
    assert records[live[t]].work <= tx.work;
  }

  lemma ReleaseStepKeeps(e: Engine, s: State, records: seq<Record>, live: seq<nat>, name: string)
    requires Refines(s) && Linked(s, records, live)
    ensures var cmd := Release(name);
      Refines(Execute(e, s, cmd)) && Linked(Execute(e, s, cmd), NextRecords(e, s.conn, records, cmd), NextLive(e, s, records, cmd, live))
  {
    hide Kept, Chained, LogOf, FoldCase, Entries, CommitStep;
    var t := Target(s.conn, name);
    if t.None? {
      RefusedKeeps(s, records, live, "no such savepoint", Release(name));
    } else if t.value == 0 && !s.conn.tx.value.explicit {
      CommitAttemptKeeps(e, s, records, live, Release(name));
    } else {
      ReleaseKeeps(live, s.conn.tx.value, records, s.book.savepoints, t.value);
    }
  }

  /** COMMIT, or a RELEASE that commits. */
  lemma CommitAttemptKeeps(e: Engine, s: State, records: seq<Record>, live: seq<nat>, cmd: Command)
    requires Refines(s) && Linked(s, records, live) && s.conn.tx.Some? && (cmd.Commit? || cmd.Release?)
    ensures var (conn, error) := CommitStep(e, s.conn);
      var s' := State(BookAfter(s.book, cmd, error, conn.tx.Some?, conn.totalChanges != s.conn.totalChanges), conn);
      && Refines(s') && (if conn.tx.None? then Linked(s', [], []) else Linked(s', records, live))
      && (conn.tx.Some? ==> error.Some?)
  {
    hide LogOf, Entries, Refines, Linked;
    OpenAlike(s, records, live);
    match e.commitFails(s.conn.db)
    case Some(KeepsOpen(error)) => RefusedKeeps(s, records, live, error, cmd);
    case Some(RollsBack(error)) => RolledBackKeeps(s);
    case None => CommittedKeeps(e, s, cmd.Release?);
  }

  /** SQLite's alias END commits, but the wrapper keeps its transaction open and logs nothing. */
  lemma EndIsMissed(e: Engine, s: State, records: seq<Record>, live: seq<nat>)
    requires Refines(s) && Linked(s, records, live) && s.conn.tx.Some?
    ensures var s' := Execute(e, s, End);
      && (Refines(s') <==> !Misses(e, s.conn, records, End))
      && (!Misses(e, s.conn, records, End) ==> Linked(s', NextRecords(e, s.conn, records, End), NextLive(e, s, records, End, live)))
      && (Misses(e, s.conn, records, End) ==>
          s'.book == s.book && s'.conn.committed == WithBatch(s.conn.committed, s.conn.tx.value.work, s.conn.tx.value.firstError))
  {
    hide LogOf, Entries, Kept, Embeds, Chained;
    match e.commitFails(s.conn.db)
    case Some(KeepsOpen(error)) => RefusedKeeps(s, records, live, error, End);
    case Some(RollsBack(error)) => RolledBackKeeps(s);
    case None =>
  }

  /** One command keeps the wrapper in step with SQLite exactly when it is not missed. */
  lemma StepExact(e: Engine, s: State, records: seq<Record>, live: seq<nat>, cmd: Command)
    requires Refines(s) && Linked(s, records, live)
    ensures Refines(Execute(e, s, cmd)) <==> !Misses(e, s.conn, records, cmd)
    ensures !Misses(e, s.conn, records, cmd) ==>
      Linked(Execute(e, s, cmd), NextRecords(e, s.conn, records, cmd), NextLive(e, s, records, cmd, live))
  {
    hide Embeds, Kept, Chained, LogOf, Entries, CommitStep, Target;
    match cmd
    case Begin =>
      if s.conn.tx.Some? { RefusedKeeps(s, records, live, "transaction within a transaction", cmd); }
      else { OpenedKeeps(s); }
    case Commit =>
      if s.conn.tx.Some? { CommitAttemptKeeps(e, s, records, live, cmd); }
    case End =>
      if s.conn.tx.Some? { EndIsMissed(e, s, records, live); }
    case Rollback => RolledBackKeeps(s);
    case Savepoint(name) => SavepointStepKeeps(e, s, records, live, name);
    case RollbackTo(name) => RollbackToExact(e, s, records, live, name);
    case Release(name) => ReleaseStepKeeps(e, s, records, live, name);
    case Dml(entry) => DmlKeeps(e, s, records, live, entry);
    case Other(sql) =>
      if e.otherFails(sql, s.conn.db).Some? {
        RefusedKeeps(s, records, live, e.otherFails(sql, s.conn.db).value, cmd);
      }
  }

  lemma OpenedKeeps(s: State)
    requires Refines(s) && s.conn.tx.None?
    ensures var s' := State(Book(true, [], [], None, s.book.log), s.conn.(tx := Some(Transaction(true, s.conn.db, [], [], None))));
      Refines(s') && Linked(s', [], [])
  {
    hide LogOf;
  }

  // ----- whole runs -----

  ghost predicate InStep(s: State, records: seq<Record>) {
    Refines(s) && exists live :: Linked(s, records, live)
  }

  /** Over every faithful run the buffer is the surviving work and the log the committed work. */
  lemma {:induction false} RunRefines(e: Engine, s: State, records: seq<Record>, cmds: seq<Command>)
    requires InStep(s, records) && FaithfulRun(e, s.conn, records, cmds)
    ensures InStep(Run(e, s, cmds), RecordsRun(e, s.conn, records, cmds))
    ensures Run(e, s, cmds).conn == SqliteRun(e, s.conn, cmds)
  {
    RunConnection(e, s, cmds);
    hide Refines, Linked, BookAfter, NextLive, NextRecords, SqliteStep, Misses;
    if cmds != [] {
      var init := cmds[..|cmds| - 1];
      RunRefines(e, s, records, init);
      var live :| Linked(Run(e, s, init), RecordsRun(e, s.conn, records, init), live);
      StepExact(e, Run(e, s, init), RecordsRun(e, s.conn, records, init), live, cmds[|cmds| - 1]);
    }
  }

  function Closed(db: UserData): State {
    State(Book(false, [], [], None, []), Connection(db, None, 0, []))
  }

  ghost predicate RefinesThroughout(e: Engine, s: State, cmds: seq<Command>) {
    forall j :: 0 <= j <= |cmds| ==> Refines(Run(e, s, cmds[..j]))
  }

  /** For every run: the wrapper is right after each command exactly when it misses none. */
  lemma {:induction false} RunExact(e: Engine, s: State, records: seq<Record>, cmds: seq<Command>)
    requires InStep(s, records)
    ensures RefinesThroughout(e, s, cmds) <==> FaithfulRun(e, s.conn, records, cmds)
  {
    hide Refines, Linked, Execute, NextLive, NextRecords, SqliteStep, Misses, SqliteRun, RecordsRun;
    if cmds == [] {
      assert forall j :: 0 <= j <= |cmds| ==> cmds[..j] == [];
    } else {
      var init, last := cmds[..|cmds| - 1], cmds[|cmds| - 1];
      RunExact(e, s, records, init);
      assert forall j :: 0 <= j <= |init| ==> init[..j] == cmds[..j];
      assert cmds[..|cmds|] == cmds;
      if FaithfulRun(e, s.conn, records, init) {
        RunRefines(e, s, records, init);
        var live :| Linked(Run(e, s, init), RecordsRun(e, s.conn, records, init), live);
        StepExact(e, Run(e, s, init), RecordsRun(e, s.conn, records, init), live, last);
      }
      ThroughoutSplit(e, s, cmds);
    }
  }

  lemma ThroughoutSplit(e: Engine, s: State, cmds: seq<Command>)
    requires cmds != []
    ensures RefinesThroughout(e, s, cmds) <==>
      RefinesThroughout(e, s, cmds[..|cmds| - 1]) && Refines(Execute(e, Run(e, s, cmds[..|cmds| - 1]), cmds[|cmds| - 1]))
  {
    hide Refines, Execute;
    var init := cmds[..|cmds| - 1];
    assert forall j :: 0 <= j <= |init| ==> init[..j] == cmds[..j];
    assert cmds[..|cmds|] == cmds && cmds[..|init|] == init;
  }

  /** Recorded lengths never exceed the buffer and never fall along the stack. */
  ghost predicate Monotone(b: Book) {
    && (forall k :: 0 <= k < |b.savepoints| ==> b.savepoints[k].length <= |b.buffer|)
    && (forall j, k :: 0 <= j < k < |b.savepoints| ==> b.savepoints[j].length <= b.savepoints[k].length)
  }

  lemma StaysMonotone(b: Book, cmd: Command, error: Option<string>, stillOpen: bool, changed: bool)
    requires Monotone(b)
    ensures Monotone(BookAfter(b, cmd, error, stillOpen, changed))
  {
    hide FoldCase, SameName, BlockAll, ErrorEntry;
  }

  // ----- two ways to miss nothing -----

  /** A savepoint is not named like a live one, or, instead, only the innermost savepoint is released; and
      a transaction is not committed as END. */
  predicate Disciplined(distinct: bool, c: Connection, cmd: Command) {
    if cmd.End? then c.tx.None?
    else if distinct then cmd.Savepoint? ==> Target(c, cmd.name).None?
    else cmd.Release? && Target(c, cmd.name).Some? ==> Target(c, cmd.name).value == |c.tx.value.marks| - 1
  }

  predicate DisciplinedRun(e: Engine, distinct: bool, c: Connection, cmds: seq<Command>) {
    cmds == [] ||
    (&& DisciplinedRun(e, distinct, c, cmds[..|cmds| - 1])
     && Disciplined(distinct, SqliteRun(e, c, cmds[..|cmds| - 1]), cmds[|cmds| - 1]))
  }

  /** Only RELEASE, a reused name and END can break a discipline: a run without END keeps the first if it sets no
      savepoint, and the second if it releases none. */
  lemma {:induction false} DisciplinedWithout(e: Engine, distinct: bool, c: Connection, cmds: seq<Command>)
    requires forall cmd :: cmd in cmds ==> !cmd.End? && if distinct then !cmd.Savepoint? else !cmd.Release?
    ensures DisciplinedRun(e, distinct, c, cmds)
  {
    hide SqliteStep;
    if cmds != [] { DisciplinedWithout(e, distinct, c, cmds[..|cmds| - 1]); }
  }

  /** No stale record hides a live savepoint of the same name. */
  ghost predicate NoShadow(live: seq<nat>, marks: seq<Mark>, records: seq<Record>)
    requires |live| == |marks|
  {
    forall k, q: nat :: 0 <= k < |live| && live[k] < q < |records| && SameName(records[q].name, marks[k].name) ==> q in live
  }

  /** Either no live savepoints share a name, or the records are the live savepoints. */
  ghost predicate Regular(distinct: bool, marks: seq<Mark>, records: seq<Record>) {
    if distinct then forall j, k :: 0 <= j < k < |marks| ==> !SameName(marks[j].name, marks[k].name)
    else |records| == |marks|
  }

  ghost predicate Tidy(s: State, records: seq<Record>, live: seq<nat>, distinct: bool) {
    s.conn.tx.Some? ==>
      && |live| == |s.conn.tx.value.marks| && NoShadow(live, s.conn.tx.value.marks, records) && Regular(distinct, s.conn.tx.value.marks, records)
  }

  /** Then the innermost record of a live savepoint's name is that savepoint. */
  lemma TidyFinds(live: seq<nat>, marks: seq<Mark>, records: seq<Record>, name: string, t: nat)
    requires Embeds(live, marks, records) && NoShadow(live, marks, records)
    requires LastNamed(MarkNames(marks), name) == Some(t)
    ensures LastNamed(RecordNames(records), name) == Some(live[t])
  {
    hide FoldCase;
    var r := LastNamed(RecordNames(records), name);
    assert SameName(RecordNames(records)[live[t]], name) && SameName(MarkNames(marks)[t], name);
    if r.value != live[t] {
      var q := r.value;
      assert SameName(records[q].name, marks[t].name);
      var k :| 0 <= k < |live| && live[k] == q;
      assert SameName(MarkNames(marks)[k], name);
    }
  }

  lemma SavepointTidy(live: seq<nat>, marks: seq<Mark>, records: seq<Record>, mark: Mark, distinct: bool)
    requires Embeds(live, marks, records) && NoShadow(live, marks, records) && Regular(distinct, marks, records)
    requires distinct ==> LastNamed(MarkNames(marks), mark.name).None?
    ensures var records' := records + [Record(mark.name, mark.work)];
      NoShadow(live + [|records|], marks + [mark], records') && Regular(distinct, marks + [mark], records')
  {
    hide FoldCase;
    if distinct {
      forall j | 0 <= j < |marks| ensures !SameName(marks[j].name, mark.name) {
        assert MarkNames(marks)[j] == marks[j].name;
      }
    }
  }

  lemma RollbackTidy(live: seq<nat>, marks: seq<Mark>, records: seq<Record>, t: nat, distinct: bool)
    requires Embeds(live, marks, records) && NoShadow(live, marks, records) && Regular(distinct, marks, records) && t < |marks|
    ensures live[t] < |records|
    ensures NoShadow(live[..t + 1], marks[..t + 1], records[..live[t] + 1]) && Regular(distinct, marks[..t + 1], records[..live[t] + 1])
  {
    hide FoldCase;
    if !distinct { IdentityLive(live, marks, records, t); }
  }

  /** When there are no more records than live savepoints, they coincide. */
  lemma IdentityLive(live: seq<nat>, marks: seq<Mark>, records: seq<Record>, t: nat)
    requires Embeds(live, marks, records) && |records| == |marks| && t < |live|
    ensures live[t] == t
  {
    AtLeast(live, marks, records, t);
    AtMost(live, marks, records, t);
  }

  lemma {:induction false} AtLeast(live: seq<nat>, marks: seq<Mark>, records: seq<Record>, t: nat)
    requires Embeds(live, marks, records) && t < |live|
    ensures live[t] >= t
  {
    if t > 0 { AtLeast(live, marks, records, t - 1); }
  }

  lemma {:induction false} AtMost(live: seq<nat>, marks: seq<Mark>, records: seq<Record>, t: nat)
    requires Embeds(live, marks, records) && |records| == |marks| && t < |live|
    ensures live[t] <= t
    decreases |live| - t
  {
    if t + 1 < |live| { AtMost(live, marks, records, t + 1); }
  }

  lemma ReleaseTidy(live: seq<nat>, marks: seq<Mark>, records: seq<Record>, t: nat, distinct: bool)
    requires Embeds(live, marks, records) && NoShadow(live, marks, records) && Regular(distinct, marks, records)
    requires t < |marks| && (!distinct ==> t == |marks| - 1)
    ensures records != []
    ensures NoShadow(live[..t], marks[..t], records[..|records| - 1]) && Regular(distinct, marks[..t], records[..|records| - 1])
  {
    hide FoldCase;
    assert live[t] < |records|;
    var records' := records[..|records| - 1];
    forall k, q: nat | 0 <= k < t && live[k] < q < |records'| && SameName(records'[q].name, marks[k].name) ensures q in live[..t] {
      var j :| 0 <= j < |live| && live[j] == q;
      if !distinct {
        IdentityLive(live, marks, records, j);
        assert live[..t][j] == q;
      }
    }
  }

  /** A disciplined command is not missed, and leaves no stale record over a live savepoint. */
  lemma TidyStep(e: Engine, s: State, records: seq<Record>, live: seq<nat>, distinct: bool, cmd: Command)
    requires Linked(s, records, live) && Tidy(s, records, live, distinct) && Disciplined(distinct, s.conn, cmd)
    ensures !Misses(e, s.conn, records, cmd)
    ensures Tidy(Execute(e, s, cmd), NextRecords(e, s.conn, records, cmd), NextLive(e, s, records, cmd, live), distinct)
  {
    hide NoShadow, Regular, FoldCase, BookAfter, Kept, Chained, Embeds, LastNamed, CommitStep, MarkNames, RecordNames;
    NothingTidy(distinct);
    if s.conn.tx.Some? {
      var marks := s.conn.tx.value.marks;
      SizesAgree(live, marks, records);
      match cmd
      case Savepoint(name) => SavepointTidy(live, marks, records, Mark(name, s.conn.db, s.conn.tx.value.work), distinct);
      case RollbackTo(name) =>
        if Target(s.conn, name).Some? {
          TidyFinds(live, marks, records, name, Target(s.conn, name).value);
          RollbackTidy(live, marks, records, Target(s.conn, name).value, distinct);
          RecordIs(live, marks, records, Target(s.conn, name).value);
        }
      case Release(name) =>
        if Target(s.conn, name).Some? { ReleaseTidy(live, marks, records, Target(s.conn, name).value, distinct); }
        OpenCommit(e, s.conn);
      case Commit => OpenCommit(e, s.conn);
      case _ =>
    } else if cmd.Savepoint? {
      SavepointTidy([], [], [], Mark(cmd.name, s.conn.db, []), distinct);
      assert [] + [Record(cmd.name, [])] == [Record(cmd.name, [])];
    }
  }

  lemma NothingTidy(distinct: bool)
    ensures Embeds([], [], []) && NoShadow([], [], []) && Regular(distinct, [], []) && LastNamed(MarkNames([]), "") == None
    ensures forall name :: LastNamed(MarkNames([]), name) == None
  {
  }

  lemma SizesAgree(live: seq<nat>, marks: seq<Mark>, records: seq<Record>)
    requires Embeds(live, marks, records)
    ensures |live| == |marks|
  {
  }

  lemma RecordIs(live: seq<nat>, marks: seq<Mark>, records: seq<Record>, t: nat)
    requires Embeds(live, marks, records) && t < |marks|
    ensures live[t] < |records| && records[live[t]].work == marks[t].work
  {
  }

  /** A commit that leaves the transaction open changes nothing in it but the first error. */
  lemma OpenCommit(e: Engine, c: Connection)
    requires c.tx.Some?
    ensures var (conn, error) := CommitStep(e, c); conn.tx.Some? ==> error.Some? && conn.tx.value.marks == c.tx.value.marks
  {
  }

  /** Either discipline misses nothing over a whole run. */
  lemma {:induction false} DisciplineSuffices(e: Engine, db: UserData, distinct: bool, cmds: seq<Command>) returns (live: seq<nat>)
    requires DisciplinedRun(e, distinct, Closed(db).conn, cmds)
    ensures FaithfulRun(e, Closed(db).conn, [], cmds)
    ensures var s, records := Run(e, Closed(db), cmds), RecordsRun(e, Closed(db).conn, [], cmds);
      Refines(s) && Linked(s, records, live) && Tidy(s, records, live, distinct) && s.conn == SqliteRun(e, Closed(db).conn, cmds)
  {
    hide Refines, Linked, Tidy, Execute, NextLive, NextRecords, SqliteStep, Misses, Disciplined;
    RunConnection(e, Closed(db), cmds);
    if cmds == [] {
      FreshInStep(db);
      live := [];
    } else {
      var init, last := cmds[..|cmds| - 1], cmds[|cmds| - 1];
      var before := DisciplineSuffices(e, db, distinct, init);
      var s, records := Run(e, Closed(db), init), RecordsRun(e, Closed(db).conn, [], init);
      TidyStep(e, s, records, before, distinct, last);
      StepExact(e, s, records, before, last);
      live := NextLive(e, s, records, last, before);
    }
  }

  lemma FreshInStep(db: UserData)
    ensures Refines(Closed(db)) && Linked(Closed(db), [], []) && InStep(Closed(db), [])
    ensures forall distinct :: Tidy(Closed(db), [], [], distinct)
  {
    assert Linked(Closed(db), [], []);
  }

  lemma {:induction false} RunConnection(e: Engine, s: State, cmds: seq<Command>)
    ensures Run(e, s, cmds).conn == SqliteRun(e, s.conn, cmds)
  {
    hide SqliteStep, BookAfter;
    if cmds != [] { RunConnection(e, s, cmds[..|cmds| - 1]); }
  }

  lemma Extend(e: Engine, s: State, cmds: seq<Command>, cmd: Command)
    ensures Run(e, s, cmds + [cmd]) == Execute(e, Run(e, s, cmds), cmd)
  {
    assert (cmds + [cmd])[..|cmds|] == cmds;
  }

  // ----- a run that misses -----

  /** SAVEPOINT a, SAVEPOINT b, one DML statement, SAVEPOINT a again, SAVEPOINT c. */
  function FourSavepoints(db: UserData, entry: LogEntry, after: UserData, rows: nat): State {
    var effect := Effect(entry, None);
    State(Book(true, [entry], [Recorded("a", 0), Recorded("b", 0), Recorded("a", 1), Recorded("c", 1)], None, []),
      Connection(after, Some(Transaction(false, db, [effect],
        [Mark("a", db, []), Mark("b", db, []), Mark("a", after, [effect]), Mark("c", after, [effect])], None)), rows, []))
  }

  /** The same after RELEASE b: one record gone, three live savepoints gone. */
  function OneSavepoint(db: UserData, entry: LogEntry, after: UserData, rows: nat): State {
    State(Book(true, [entry], [Recorded("a", 0), Recorded("b", 0), Recorded("a", 1)], None, []),
      Connection(after, Some(Transaction(false, db, [Effect(entry, None)], [Mark("a", db, [])], None)), rows, []))
  }

  lemma FourSavepointsReached(e: Engine, db: UserData, entry: LogEntry, after: UserData, rows: nat)
    requires e.run(ExecutedSql(entry), db) == Done(after, rows)
    ensures Run(e, Closed(db), [Savepoint("a"), Savepoint("b"), Dml(entry), Savepoint("a"), Savepoint("c")]) == FourSavepoints(db, entry, after, rows)
  {
    hide ExecutedSql;
    var c1, c2 := [Savepoint("a")], [Savepoint("a"), Savepoint("b")];
    Extend(e, Closed(db), [], Savepoint("a"));
    Extend(e, Closed(db), c1, Savepoint("b"));
    Extend(e, Closed(db), c2, Dml(entry));
    Extend(e, Closed(db), c2 + [Dml(entry)], Savepoint("a"));
    Extend(e, Closed(db), c2 + [Dml(entry)] + [Savepoint("a")], Savepoint("c"));
    assert [] + [Savepoint("a")] == c1 && c1 + [Savepoint("b")] == c2 && Run(e, Closed(db), []) == Closed(db);
    var effect := Effect(entry, None);
    var marks2 := [Mark("a", db, [])] + [Mark("b", db, [])];
    var saved2 := [Recorded("a", 0)] + [Recorded("b", 0)];
    assert [] + [Mark("a", db, [])] == [Mark("a", db, [])] && [] + [Recorded("a", 0)] == [Recorded("a", 0)];
    assert [] + [effect] == [effect] && [] + [entry] == [entry];
    assert Run(e, Closed(db), c2 + [Dml(entry)]) == State(Book(true, [entry], saved2, None, []),
      Connection(after, Some(Transaction(false, db, [effect], marks2, None)), rows, []));
    assert marks2 + [Mark("a", after, [effect])] + [Mark("c", after, [effect])] == FourSavepoints(db, entry, after, rows).conn.tx.value.marks;
    assert saved2 + [Recorded("a", 1)] + [Recorded("c", 1)] == FourSavepoints(db, entry, after, rows).book.savepoints;
    assert [Savepoint("a"), Savepoint("b"), Dml(entry), Savepoint("a"), Savepoint("c")] == c2 + [Dml(entry)] + [Savepoint("a")] + [Savepoint("c")];
  }

  lemma ShadowedRelease(e: Engine, db: UserData, entry: LogEntry, after: UserData, rows: nat)
    ensures Execute(e, FourSavepoints(db, entry, after, rows), Release("b")) == OneSavepoint(db, entry, after, rows)
  {
    hide SameName;
    var s := FourSavepoints(db, entry, after, rows);
    DistinctLetters();
    assert MarkNames(s.conn.tx.value.marks) == ["a", "b", "a"] + ["c"] && ["a", "b", "a"] == ["a", "b"] + ["a"];
    assert ["a", "b"] == ["a"] + ["b"];
    LastNamedAppend(["a", "b", "a"], "c", "b");
    LastNamedAppend(["a", "b"], "a", "b");
    LastNamedAppend(["a"], "b", "b");
    assert s.conn.tx.value.marks[..1] == [Mark("a", db, [])];
    assert s.book.savepoints[..3] == [Recorded("a", 0), Recorded("b", 0), Recorded("a", 1)];
  }

  lemma ShadowedTruncation(e: Engine, db: UserData, entry: LogEntry, after: UserData, rows: nat)
    ensures var s := Execute(e, OneSavepoint(db, entry, after, rows), RollbackTo("a"));
      s.conn.tx.Some? && s.conn.tx.value.work == [] && s.conn.db == db && s.book.buffer == [entry]
  {
    hide SameName;
    var s := OneSavepoint(db, entry, after, rows);
    DistinctLetters();
    assert MarkNames(s.conn.tx.value.marks) == [] + ["a"] && RecordedNames(s.book.savepoints) == ["a", "b"] + ["a"];
    LastNamedAppend([], "a", "a");
    LastNamedAppend(["a", "b"], "a", "a");
  }

  /** RELEASE b drops b, the inner a and c in SQLite, the wrapper forgets only c: the next ROLLBACK TO a
      stops at the inner a's record and keeps a statement SQLite has undone. */
  lemma ShadowedRollback(e: Engine, db: UserData, entry: LogEntry, after: UserData, rows: nat)
    requires e.run(ExecutedSql(entry), db) == Done(after, rows)
    ensures var cmds := [Savepoint("a"), Savepoint("b"), Dml(entry), Savepoint("a"), Savepoint("c"), Release("b"), RollbackTo("a")];
      var s := Run(e, Closed(db), cmds);
      && s.conn.tx.Some? && s.conn.tx.value.work == [] && s.conn.db == db && s.book.buffer == [entry]
      && !FaithfulRun(e, Closed(db).conn, [], cmds)
  {
    hide Execute, Run, FourSavepoints, OneSavepoint, FaithfulRun;
    var five := [Savepoint("a"), Savepoint("b"), Dml(entry), Savepoint("a"), Savepoint("c")];
    FourSavepointsReached(e, db, entry, after, rows);
    ShadowedRelease(e, db, entry, after, rows);
    ShadowedTruncation(e, db, entry, after, rows);
    Extend(e, Closed(db), five, Release("b"));
    Extend(e, Closed(db), five + [Release("b")], RollbackTo("a"));
    var cmds := [Savepoint("a"), Savepoint("b"), Dml(entry), Savepoint("a"), Savepoint("c"), Release("b"), RollbackTo("a")];
    assert five + [Release("b")] + [RollbackTo("a")] == cmds && cmds[..|cmds|] == cmds;
    FreshInStep(db);
    RunExact(e, Closed(db), [], cmds);
    assert !Refines(Run(e, Closed(db), cmds));
  }

  lemma LastNamedAppend(names: seq<string>, last: string, name: string)
    ensures LastNamed(names + [last], name) == if SameName(last, name) then Some(|names|) else LastNamed(names, name)
  {
    assert (names + [last])[..|names|] == names;
  }

  lemma DistinctLetters()
    ensures !SameName("a", "b") && !SameName("c", "b") && SameName("a", "a") && SameName("b", "b")
  {
    assert FoldCase("a")[0] == 'A' && FoldCase("b")[0] == 'B' && FoldCase("c")[0] == 'C';
  }

  // ----- the log replays to the committed state -----

  function RedoOne(e: Engine, db: UserData, effect: Effect): Option<UserData> {
    match e.run(ExecutedSql(effect.entry), db)
    case Done(after, _) => if effect.raised.None? then Some(after) else None
    case Raised(error, after, rows) => if effect.raised == Some(error) && rows > 0 then Some(after) else None
    case TransactionGone(_) => None
  }

  /** The work did happen: running it again from `db` takes the same course. */
  function Redo(e: Engine, db: UserData, work: seq<Effect>): Option<UserData> {
    if work == [] then Some(db)
    else
      var before := Redo(e, db, work[..|work| - 1]);
      if before.None? then None else RedoOne(e, before.value, work[|work| - 1])
  }

  function RedoAll(e: Engine, db: UserData, committed: seq<Batch>): Option<UserData> {
    if committed == [] then Some(db)
    else
      var before := RedoAll(e, db, committed[..|committed| - 1]);
      if before.None? then None else Redo(e, before.value, committed[|committed| - 1].work)
  }

  /** The database is what the recorded work made of it. */
  ghost predicate Honest(e: Engine, initial: UserData, c: Connection) {
    if c.tx.None? then RedoAll(e, initial, c.committed) == Some(c.db)
    else
      && RedoAll(e, initial, c.committed) == Some(c.tx.value.base)
      && Redo(e, c.tx.value.base, c.tx.value.work) == Some(c.db)
      && forall k :: 0 <= k < |c.tx.value.marks| ==> Redo(e, c.tx.value.base, c.tx.value.marks[k].work) == Some(c.tx.value.marks[k].db)
  }

  lemma RedoAppend(e: Engine, db: UserData, work: seq<Effect>, effect: Effect)
    requires Redo(e, db, work).Some?
    ensures Redo(e, db, work + [effect]) == RedoOne(e, Redo(e, db, work).value, effect)
  {
    assert (work + [effect])[..|work|] == work;
  }

  lemma RedoAllAppend(e: Engine, db: UserData, committed: seq<Batch>, work: seq<Effect>, firstError: Option<string>)
    requires RedoAll(e, db, committed).Some?
    ensures RedoAll(e, db, WithBatch(committed, work, firstError)) == Redo(e, RedoAll(e, db, committed).value, work)
  {
    assert (committed + [Batch(work, firstError)])[..|committed|] == committed;
  }

  lemma AffectedStaysHonest(e: Engine, initial: UserData, c: Connection, db: UserData, rows: nat, effect: Effect)
    requires Honest(e, initial, c) && RedoOne(e, c.db, effect) == Some(db)
    ensures Honest(e, initial, Affected(c, db, rows, effect))
  {
    hide RedoOne;
    if c.tx.Some? {
      RedoAppend(e, c.tx.value.base, c.tx.value.work, effect);
    } else {
      RedoAllAppend(e, initial, c.committed, [effect], None);
      RedoAppend(e, c.db, [], effect);
      assert [] + [effect] == [effect];
    }
  }

  lemma DmlStaysHonest(e: Engine, initial: UserData, c: Connection, entry: LogEntry)
    requires Honest(e, initial, c)
    ensures Honest(e, initial, DmlStep(e, c, entry).0)
  {
    hide ExecutedSql, Redo, RedoAll, Affected;
    match e.run(ExecutedSql(entry), c.db)
    case Done(db, rows) => AffectedStaysHonest(e, initial, c, db, rows, Effect(entry, None));
    case Raised(error, db, rows) =>
      if rows > 0 {
        AffectedStaysHonest(e, initial, c, db, rows, Effect(entry, Some(error)));
      }
    case TransactionGone(_) =>
  }

  lemma StaysHonest(e: Engine, initial: UserData, c: Connection, cmd: Command)
    requires Honest(e, initial, c)
    ensures Honest(e, initial, SqliteStep(e, c, cmd).0)
  {
    hide Redo, RedoAll, LastNamed, MarkNames, DmlStep;
    if c.tx.Some? {
      RedoAllAppend(e, initial, c.committed, c.tx.value.work, c.tx.value.firstError);
    }
    RedoNothing(e, c.db);
    if cmd.Dml? { DmlStaysHonest(e, initial, c, cmd.entry); }
  }

  lemma RedoNothing(e: Engine, db: UserData)
    ensures Redo(e, db, []) == Some(db)
  {
  }

  lemma {:induction false} RunStaysHonest(e: Engine, initial: UserData, c: Connection, cmds: seq<Command>)
    requires Honest(e, initial, c)
    ensures Honest(e, initial, SqliteRun(e, c, cmds))
  {
    if cmds != [] {
      RunStaysHonest(e, initial, c, cmds[..|cmds| - 1]);
      StaysHonest(e, initial, SqliteRun(e, c, cmds[..|cmds| - 1]), cmds[|cmds| - 1]);
    }
  }

  /** Replay one log group, every statement from its replay text. */
  function ReplayEntries(e: Engine, db: UserData, entries: seq<LogEntry>): Option<UserData> {
    if entries == [] then Some(db)
    else
      var before := ReplayEntries(e, db, entries[..|entries| - 1]);
      if before.None? then None
      else
        match e.run(entries[|entries| - 1].replaySql, before.value)
        case Done(after, _) => Some(after)
        case _ => None
  }

  function ReplayLog(e: Engine, db: UserData, log: seq<seq<LogEntry>>): Option<UserData> {
    if log == [] then Some(db)
    else
      var before := ReplayLog(e, db, log[..|log| - 1]);
      if before.None? then None else ReplayEntries(e, before.value, log[|log| - 1])
  }

  ghost predicate SafeEntries(entries: seq<LogEntry>) {
    forall k :: 0 <= k < |entries| ==> entries[k].replaySafe
  }

  ghost predicate SafeLog(log: seq<seq<LogEntry>>) {
    forall g :: 0 <= g < |log| ==> SafeEntries(log[g])
  }

  lemma ReplayAppend(e: Engine, db: UserData, entries: seq<LogEntry>, effect: Effect)
    requires Entry(effect).replaySafe && ReplayEntries(e, db, entries).Some?
    requires RedoOne(e, ReplayEntries(e, db, entries).value, effect).Some?
    ensures ReplayEntries(e, db, entries + [Entry(effect)]) == RedoOne(e, ReplayEntries(e, db, entries).value, effect)
  {
    assert (entries + [Entry(effect)])[..|entries|] == entries;
  }

  lemma {:induction false} SafeEntriesReplay(e: Engine, db: UserData, work: seq<Effect>)
    requires SafeEntries(Entries(work)) && Redo(e, db, work).Some?
    ensures ReplayEntries(e, db, Entries(work)) == Redo(e, db, work)
  {
    hide Entry, RedoOne;
    if work == [] {
      assert Entries(work) == [];
    } else {
      var init, last := work[..|work| - 1], work[|work| - 1];
      SafeSplit(init, last, work);
      SafeEntriesReplay(e, db, init);
      ReplayAppend(e, db, Entries(init), last);
    }
  }

  lemma SafeSplit(init: seq<Effect>, last: Effect, work: seq<Effect>)
    requires work == init + [last] && SafeEntries(Entries(work))
    ensures Entries(work) == Entries(init) + [Entry(last)] && SafeEntries(Entries(init)) && Entry(last).replaySafe
  {
    hide Entries, Entry;
    EntriesAppend(init, last);
    assert Entries(work)[|init|] == Entry(last);
    assert forall k :: 0 <= k < |init| ==> Entries(init)[k] == Entries(work)[k];
  }

  lemma {:induction false} SafeLogReplays(e: Engine, db: UserData, committed: seq<Batch>)
    requires SafeLog(LogOf(committed)) && RedoAll(e, db, committed).Some?
    ensures ReplayLog(e, db, LogOf(committed)) == RedoAll(e, db, committed)
  {
    hide Entries, ReplayEntries, Redo;
    if committed != [] {
      var init, last := committed[..|committed| - 1], committed[|committed| - 1];
      var log := LogOf(committed);
      assert log[..|init|] == LogOf(init);
      assert forall g :: 0 <= g < |init| ==> LogOf(init)[g] == log[g];
      SafeLogReplays(e, db, init);
      assert SafeEntries(log[|init|]);
      SafeMeansUnblocked(last);
      SafeEntriesReplay(e, RedoAll(e, db, init).value, last.work);
    }
  }

  lemma BlockedIsUnsafe(entries: seq<LogEntry>, reason: string)
    ensures SafeEntries(BlockAll(entries, Some(reason))) <==> entries == []
  {
    if entries != [] {
      assert !BlockAll(entries, Some(reason))[0].replaySafe;
    }
  }

  lemma SafeMeansUnblocked(b: Batch)
    requires SafeEntries(BlockAll(Entries(b.work), Reason(b.firstError)))
    ensures BlockAll(Entries(b.work), Reason(b.firstError)) == Entries(b.work)
  {
    if b.firstError.Some? {
      BlockedIsUnsafe(Entries(b.work), Reason(b.firstError).value);
    }
  }

  /** From a fresh wrapper, every faithful run that is not inside a transaction and logged only safe
      entries has a log that replays the initial database to the committed one. */
  lemma LoggedRunsReplay(e: Engine, db: UserData, cmds: seq<Command>)
    requires FaithfulRun(e, Closed(db).conn, [], cmds)
    requires Run(e, Closed(db), cmds).conn.tx.None? && SafeLog(Run(e, Closed(db), cmds).book.log)
    ensures ReplayLog(e, db, Run(e, Closed(db), cmds).book.log) == Some(Run(e, Closed(db), cmds).conn.db)
  {
    hide Run, SqliteRun, FaithfulRun, RecordsRun, ReplayLog, SafeLog;
    FreshInStep(db);
    RunRefines(e, Closed(db), [], cmds);
    RunStaysHonest(e, db, Closed(db).conn, cmds);
    SafeLogReplays(e, db, Run(e, Closed(db), cmds).conn.committed);
  }

  // ----- errors -----

  /** The transaction stays open through a run. */
  predicate OpenThroughout(e: Engine, c: Connection, cmds: seq<Command>) {
    if cmds == [] then c.tx.Some? else OpenThroughout(e, c, cmds[..|cmds| - 1]) && SqliteRun(e, c, cmds).tx.Some?
  }

  lemma ErrorStays(e: Engine, c: Connection, cmd: Command)
    requires c.tx.Some? && c.tx.value.firstError.Some? && SqliteStep(e, c, cmd).0.tx.Some?
    ensures SqliteStep(e, c, cmd).0.tx.value.firstError == c.tx.value.firstError
  {
    hide LastNamed, MarkNames, ExecutedSql;
  }

  /** ROLLBACK TO and RELEASE forget savepoints, not errors. */
  lemma {:induction false} ErrorIsRemembered(e: Engine, c: Connection, cmds: seq<Command>)
    requires OpenThroughout(e, c, cmds) && c.tx.Some? && c.tx.value.firstError.Some?
    ensures SqliteRun(e, c, cmds).tx.Some? && SqliteRun(e, c, cmds).tx.value.firstError == c.tx.value.firstError
  {
    hide SqliteStep;
    if cmds != [] {
      ErrorIsRemembered(e, c, cmds[..|cmds| - 1]);
      ErrorStays(e, SqliteRun(e, c, cmds[..|cmds| - 1]), cmds[|cmds| - 1]);
    }
  }

  /** Whatever happens after an error in a transaction, if that transaction commits, by COMMIT or by a RELEASE of the
      savepoint that began it, then every entry it logs is blocked, and they are all its effects. */
  lemma ErrorBlocksTransaction(e: Engine, s: State, records: seq<Record>, cmds: seq<Command>, last: Command)
    requires InStep(s, records) && s.conn.tx.Some? && s.conn.tx.value.firstError.Some?
    requires FaithfulRun(e, s.conn, records, cmds) && OpenThroughout(e, s.conn, cmds)
    requires last.Commit? || last.Release?
    requires SqliteStep(e, SqliteRun(e, s.conn, cmds), last).1.None? && SqliteStep(e, SqliteRun(e, s.conn, cmds), last).0.tx.None?
    ensures var before := Run(e, s, cmds);
      var after := Execute(e, before, last);
      && before.conn.tx.Some? && after.conn.tx.None? && after.conn.db == before.conn.db
      && (if before.conn.tx.value.work == [] then after.book.log == before.book.log
          else
            && |after.book.log| == |before.book.log| + 1 && after.book.log[..|before.book.log|] == before.book.log
            && BlockedGroup(after.book.log[|before.book.log|], before.conn.tx.value.work, s.conn.tx.value.firstError.value))
  {
    hide FaithfulRun, OpenThroughout, Run, SqliteRun, RecordsRun, LogOf, LastNamed, MarkNames, BlockAll, Entries, BlockedGroup;
    RunRefines(e, s, records, cmds);
    ErrorIsRemembered(e, s.conn, cmds);
    forall work { BlockedWork(work, s.conn.tx.value.firstError.value); }
  }

  /** The logged entry has the texts of the statement and may not replay. */
  ghost predicate KeptUnsafe(entry: LogEntry, logged: LogEntry) {
    && logged.originalSql == entry.originalSql && logged.replaySql == entry.replaySql && !logged.replaySafe && logged.blockReason.Some?
  }

  ghost predicate EndsIn(text: string, end: string) {
    |end| <= |text| && text[|text| - |end|..] == end
  }

  /** Its reason names the error it raised, behind the reason it had before, if any. */
  ghost predicate NamesError(entry: LogEntry, logged: LogEntry, error: string) {
    && KeptUnsafe(entry, logged) && EndsIn(logged.blockReason.value, EXECUTION_ERROR_REASON + error)
    && if entry.blockReason.Some? && |entry.blockReason.value| > 0 then entry.blockReason.value <= logged.blockReason.value && |logged.blockReason.value| > |EXECUTION_ERROR_REASON + error|
       else |logged.blockReason.value| == |EXECUTION_ERROR_REASON + error|
  }

  lemma ErrorEntryNames(entry: LogEntry, error: string)
    ensures NamesError(entry, ErrorEntry(entry, error), error)
  {
  }

  /** Every effect of the transaction is there, in order, and none may replay: one that raised has its own error in its
      reason, the others keep the reason they had, or else have the first error of the transaction. */
  ghost predicate BlockedGroup(group: seq<LogEntry>, work: seq<Effect>, firstError: string) {
    && |group| == |work|
    && forall k :: 0 <= k < |group| ==> BlockedEffect(group[k], work[k], firstError)
  }

  ghost predicate BlockedEffect(logged: LogEntry, effect: Effect, firstError: string) {
    match effect.raised
    case Some(error) => NamesError(effect.entry, logged, error)
    case None =>
      && KeptUnsafe(effect.entry, logged)
      && logged.blockReason == if effect.entry.blockReason.Some? && |effect.entry.blockReason.value| > 0 then effect.entry.blockReason else Some(EXECUTION_ERROR_REASON + firstError)
  }

  lemma BlockedEntry(effect: Effect, firstError: string)
    ensures BlockedEffect(Blocked(Entry(effect), EXECUTION_ERROR_REASON + firstError), effect, firstError)
  {
    if effect.raised.Some? { ErrorEntryNames(effect.entry, effect.raised.value); }
  }

  lemma BlockedWork(work: seq<Effect>, firstError: string)
    ensures BlockedGroup(BlockAll(Entries(work), Reason(Some(firstError))), work, firstError)
  {
    hide Blocked, Entry, BlockedEffect;
    forall k | 0 <= k < |work| { BlockedEntry(work[k], firstError); }
  }

  /** A statement that may not replay is run as the user wrote it. */
  lemma UnsafeRunsOwnText(e: Engine, c: Connection, entry: LogEntry, after: UserData, rows: nat)
    requires !entry.replaySafe && e.run(entry.originalSql, c.db) == Done(after, rows)
    ensures SqliteStep(e, c, Dml(entry)).1.None? && SqliteStep(e, c, Dml(entry)).0.db == after
  {
  }

  /** An error leaves an entry exactly when rows changed and the transaction, if any, survived it; that
      entry is blocked. */
  lemma ErrorOutcome(e: Engine, s: State, records: seq<Record>, entry: LogEntry)
    requires InStep(s, records) && SqliteStep(e, s.conn, Dml(entry)).1.Some?
    ensures var s' := Execute(e, s, Dml(entry));
      var error := SqliteStep(e, s.conn, Dml(entry)).1.value;
      var changed := s'.conn.totalChanges != s.conn.totalChanges;
      && (s.conn.tx.Some? && s'.conn.tx.None? ==> s'.book.log == s.book.log && s'.book.buffer == [])
      && (s.conn.tx.Some? && s'.conn.tx.Some? ==>
          s'.book.buffer == s.book.buffer + (if changed then [ErrorEntry(entry, error)] else []) && s'.book.errorReason.Some?)
      && (s.conn.tx.None? ==> s'.book.log == s.book.log + (if changed then [[ErrorEntry(entry, error)]] else []))
      && NamesError(entry, ErrorEntry(entry, error), error)
  {
    hide LogOf, Entries, Linked, NamesError;
    forall error { ErrorEntryNames(entry, error); }
    assert s.book.log + [] == s.book.log && s.book.buffer + [] == s.book.buffer;
  }

  // ----- the wrapper object -----

  class SQLiteWrapper {
    const engine: Engine
    var conn: Connection
    var inTransaction: bool
    var buffer: seq<LogEntry>
    var savepoints: seq<Recorded>
    var errorReason: Option<string>
    /** The merge log tables, one group a transaction row. */
    var log: seq<seq<LogEntry>>
    /** The savepoints recorded, with the work SQLite had done before each. */
    ghost var records: seq<Record>

    constructor (engine: Engine, db: UserData)
      ensures this.engine == engine && Now() == Closed(db) && records == [] && InStep(Now(), records)
    {
      this.engine := engine;
      conn := Connection(db, None, 0, []);
      inTransaction, buffer, savepoints, errorReason, log, records := false, [], [], None, [], [];
      new;
      FreshInStep(db);
    }

    ghost function TheBook(): Book
      reads this
    {
      Book(inTransaction, buffer, savepoints, errorReason, log)
    }

    ghost function Now(): State
      reads this
    {
      State(TheBook(), conn)
    }

    method BeginBuffer()
      modifies `inTransaction, `buffer, `savepoints, `errorReason
      ensures TheBook() == Book(true, [], [], None, old(log))
    {
      inTransaction, buffer, savepoints, errorReason := true, [], [], None;
    }

    method Discard()
      modifies `inTransaction, `buffer, `savepoints, `errorReason
      ensures TheBook() == Discarded(old(TheBook()))
    {
      inTransaction, buffer, savepoints, errorReason := false, [], [], None;
    }

    method Flush()
      modifies `inTransaction, `buffer, `savepoints, `errorReason, `log
      ensures TheBook() == Flushed(old(TheBook()))
    {
      if buffer != [] {
        if errorReason.Some? {
          var blocked: seq<LogEntry> := [];
          for i := 0 to |buffer|
            invariant buffer == old(buffer) && log == old(log) && errorReason == old(errorReason) && savepoints == old(savepoints)
            invariant |blocked| == i && forall k :: 0 <= k < i ==> blocked[k] == Blocked(buffer[k], errorReason.value)
          {
            blocked := blocked + [Blocked(buffer[i], errorReason.value)];
          }
          assert blocked == BlockAll(buffer, errorReason);
          buffer := blocked;
        }
        log := log + [buffer];
      }
      Discard();
    }

    method RecordSavepoint(name: string)
      modifies `inTransaction, `buffer, `savepoints, `errorReason
      ensures var open := if old(inTransaction) then old(TheBook()) else Book(true, [], [], None, old(log));
        TheBook() == open.(savepoints := open.savepoints + [Recorded(name, |open.buffer|)])
    {
      if !inTransaction { BeginBuffer(); }
      savepoints := savepoints + [Recorded(name, |buffer|)];
    }

    method ReleaseSavepoint()
      modifies `inTransaction, `buffer, `savepoints, `errorReason, `log
      ensures TheBook() ==
        if old(inTransaction) && conn.tx.None? then Flushed(Popped(old(TheBook()))) else Popped(old(TheBook()))
    {
      if savepoints != [] { savepoints := savepoints[..|savepoints| - 1]; }
      if inTransaction && conn.tx.None? { Flush(); }
    }

    method RollbackToSavepoint(name: string)
      modifies `buffer, `savepoints
      ensures TheBook() == Truncated(old(TheBook()), name)
    {
      var i := |savepoints|;
      while i > 0
        invariant 0 <= i <= |savepoints| && buffer == old(buffer) && savepoints == old(savepoints)
        invariant forall k :: i <= k < |savepoints| ==> !SameName(RecordedNames(savepoints)[k], name)
      {
        i := i - 1;
        if SameName(savepoints[i].name, name) {
          LastNamedIs(RecordedNames(savepoints), name, i);
          var length := savepoints[i].length;
          if length <= |buffer| { buffer := buffer[..length]; }
          savepoints := savepoints[..i + 1];
          return;
        }
      }
    }

    method MarkTransactionError(error: string)
      modifies `errorReason
      ensures TheBook() == Erred(old(TheBook()), error)
    {
      if !inTransaction { return; }
      if errorReason.None? { errorReason := Some(EXECUTION_ERROR_REASON + error); }
    }

    method RecordEffectfulEntry(entry: LogEntry)
      modifies `buffer, `log
      ensures TheBook() == Noted(old(TheBook()), entry)
    {
      if inTransaction { buffer := buffer + [entry]; } else { log := log + [[entry]]; }
    }

    /** The public entry point: a command that is not missed keeps the wrapper in step with SQLite. */
    method ExecuteStatement(cmd: Command) returns (error: Option<string>)
      modifies this
      ensures Now() == Execute(engine, old(Now()), cmd) && records == NextRecords(engine, old(conn), old(records), cmd)
      ensures error == SqliteStep(engine, old(conn), cmd).1
      ensures old(InStep(Now(), records)) && !Misses(engine, old(conn), old(records), cmd) ==> InStep(Now(), records)
    {
      ghost var before := Now();
      if InStep(before, records) {
        ghost var live :| Linked(before, records, live);
        StepExact(engine, before, records, live, cmd);
      }
      ghost var next := NextRecords(engine, conn, records, cmd);
      error := ExecuteOn(cmd);
      records := next;
    }

    /** One statement: SQLite first, then the bookkeeping for its answer. */
    method ExecuteOn(cmd: Command) returns (error: Option<string>)
      modifies this
      ensures Now() == Execute(engine, old(Now()), cmd) && records == old(records)
      ensures error == SqliteStep(engine, old(conn), cmd).1
    {
      hide SqliteStep, Flushed, Popped, Truncated, BlockAll;
      var changesBefore := conn.totalChanges;
      var step := SqliteStep(engine, conn, cmd);
      conn := step.0;
      error := step.1;
      if error.Some? {
        if inTransaction && conn.tx.None? {
          Discard();
          return;
        }
        if cmd.Dml? && conn.totalChanges != changesBefore {
          RecordEffectfulEntry(ErrorEntry(cmd.entry, error.value));
        }
        MarkTransactionError(error.value);
        return;
      }
      match cmd
      case Begin => BeginBuffer();
      case Commit => Flush();
      case RollbackTo(name) => RollbackToSavepoint(name);
      case Rollback => Discard();
      case Savepoint(name) => RecordSavepoint(name);
      case Release(_) => ReleaseSavepoint();
      case Dml(entry) => RecordEffectfulEntry(entry);
      case End =>
      case Other(_) =>
    }

    /** `executescript`: statement after statement, up to the first that raises. */
    method ExecuteScript(cmds: seq<Command>) returns (error: Option<string>, done: nat)
      modifies this
      ensures done <= |cmds| && Now() == Run(engine, old(Now()), cmds[..done])
      ensures error.None? ==> done == |cmds|
      ensures error.Some? ==> done > 0 && error == SqliteStep(engine, Run(engine, old(Now()), cmds[..done - 1]).conn, cmds[done - 1]).1
      ensures forall k :: 0 <= k < (if error.Some? then done - 1 else done) ==> SqliteStep(engine, Run(engine, old(Now()), cmds[..k]).conn, cmds[k]).1.None?
      ensures old(InStep(Now(), records)) && FaithfulRun(engine, old(conn), old(records), cmds[..done]) ==>
        InStep(Now(), RecordsRun(engine, old(conn), old(records), cmds[..done]))
    {
      hide Execute, InStep, FaithfulRun, Run, SqliteStep, RecordsRun;
      ghost var start, records0 := Now(), records;
      done, error := 0, None;
      NothingRun(engine, start, cmds);
      while done < |cmds| && error.None?
        invariant done <= |cmds| && Now() == Run(engine, start, cmds[..done])
        invariant error.Some? ==> done > 0 && error == SqliteStep(engine, Run(engine, start, cmds[..done - 1]).conn, cmds[done - 1]).1
        invariant forall k :: 0 <= k < (if error.Some? then done - 1 else done) ==> SqliteStep(engine, Run(engine, start, cmds[..k]).conn, cmds[k]).1.None?
        decreases |cmds| - done
      {
        Extend(engine, start, cmds[..done], cmds[done]);
        assert cmds[..done + 1] == cmds[..done] + [cmds[done]];
        error := ExecuteStatement(cmds[done]);
        done := done + 1;
      }
      if InStep(start, records0) && FaithfulRun(engine, start.conn, records0, cmds[..done]) {
        RunRefines(engine, start, records0, cmds[..done]);
      }
    }
  }

  lemma NothingRun(e: Engine, s: State, cmds: seq<Command>)
    ensures Run(e, s, cmds[..0]) == s
  {
  }

  lemma LastNamedIs(names: seq<string>, name: string, i: nat)
    requires i < |names| && SameName(names[i], name) && forall k :: i < k < |names| ==> !SameName(names[k], name)
    ensures LastNamed(names, name) == Some(i)
  {
    hide SameName;
  }
}
