/** Rolling execution checks of the current transaction against the opposite suffix
    (src/merge/remaining_execution.py). Main is the state without the current transaction,
    control the state with it; both advance over the suffix together. */
module RemainingExecution {
  import opened Columns
  import opened Models
  import opened SqlMetadata
  import opened StaticAnalysis
  import opened Database
  import opened AcceptedReplay
  import opened Interference

  /** Primary keys the current statements touched on control: target table, statement index, rows. */
  type ProbeTables = map<Table, map<nat, set<Row>>>

  function Pairwise<T>(branch: Branch, current: T, other: T): (T, T) {
    if branch.Ours? then (current, other) else (other, current)
  }

  function CurrentIndex(branch: Branch, pair: (nat, nat)): nat {
    if branch.Ours? then pair.0 else pair.1
  }

  function OtherIndex(branch: Branch, pair: (nat, nat)): nat {
    if branch.Ours? then pair.1 else pair.0
  }

  // ----- write/write: comparing affected rows -----

  datatype OverlapResult = NoOverlap | Overlapping(pair: (nat, nat)) | OverlapNotRefined

  function MatchingPairs(branch: Branch, pairs: seq<(nat, nat)>, otherIndex: nat): (r: seq<(nat, nat)>)
    ensures forall p :: p in r <==> p in pairs && OtherIndex(branch, p) == otherIndex
  {
    if pairs == [] then []
    else
      assert forall p :: p in pairs <==> p == pairs[0] || p in pairs[1..];
      (if OtherIndex(branch, pairs[0]) == otherIndex then [pairs[0]] else []) + MatchingPairs(branch, pairs[1..], otherIndex)
  }

  /** The rows both statements of a pair touch, each at its own place in the replay. */
  ghost predicate PairRows(
    e: Engine, probes: ProbeTables, branch: Branch, statements: seq<LoggedStatement>, main: Db, pair: (nat, nat),
    mine: set<Row>, other: set<Row>)
  {
    var j := OtherIndex(branch, pair);
    && j < |statements|
    && statements[j].metadata.tableUpdated.Some?
    && statements[j].metadata.tableUpdated.value in probes
    && CurrentIndex(branch, pair) in probes[statements[j].metadata.tableUpdated.value]
    && mine == probes[statements[j].metadata.tableUpdated.value][CurrentIndex(branch, pair)]
    && var at := Replay(e, Main, main, statements[..j]);
       at.Some? && e.writeRows(statements[j].metadata, at.value) == Some(other)
  }

  ghost predicate PairApart(e: Engine, probes: ProbeTables, branch: Branch, statements: seq<LoggedStatement>, main: Db, pair: (nat, nat)) {
    exists mine, other :: PairRows(e, probes, branch, statements, main, pair, mine, other) && mine * other == {}
  }

  ghost predicate PairMeets(e: Engine, probes: ProbeTables, branch: Branch, statements: seq<LoggedStatement>, main: Db, pair: (nat, nat)) {
    exists mine, other :: PairRows(e, probes, branch, statements, main, pair, mine, other) && mine * other != {}
  }

  /** The comparison gets past opposite statement `j`: it replays, and each pair it is in has rows on both sides. */
  ghost predicate RowsKnownAt(e: Engine, probes: ProbeTables, branch: Branch, statements: seq<LoggedStatement>, main: Db, pairs: seq<(nat, nat)>, j: nat)
    requires j < |statements|
  {
    var at := Replay(e, Main, main, statements[..j]);
    && at.Some? && CheckedFailure(e, Main, at.value, statements[j]).None?
    && forall pair :: pair in pairs && OtherIndex(branch, pair) == j ==> PairKnown(e, probes, branch, statements[j], at.value, pair)
  }

  ghost predicate PairKnown(e: Engine, probes: ProbeTables, branch: Branch, s: LoggedStatement, at: Db, pair: (nat, nat)) {
    && s.metadata.tableUpdated.Some? && s.metadata.tableUpdated.value in probes
    && CurrentIndex(branch, pair) in probes[s.metadata.tableUpdated.value]
    && e.writeRows(s.metadata, at).Some?
  }

  ghost predicate RowsKnown(e: Engine, probes: ProbeTables, branch: Branch, statements: seq<LoggedStatement>, main: Db, pairs: seq<(nat, nat)>) {
    forall j :: 0 <= j < |statements| ==> RowsKnownAt(e, probes, branch, statements, main, pairs, j)
  }

  ghost predicate AllApart(e: Engine, probes: ProbeTables, branch: Branch, statements: seq<LoggedStatement>, main: Db, pairs: seq<(nat, nat)>) {
    forall pair :: pair in pairs && OtherIndex(branch, pair) < |statements| ==> PairApart(e, probes, branch, statements, main, pair)
  }

  /** Compare the rows of one opposite statement with those of each current statement it is paired with. */
  method CompareRows(ghost e: Engine, ghost probes: ProbeTables, branch: Branch, ghost statements: seq<LoggedStatement>, ghost main: Db, ghost j: nat,
                     matching: seq<(nat, nat)>, mine: map<nat, set<Row>>, rows: set<Row>)
    returns (r: OverlapResult)
    requires forall p :: p in matching ==> OtherIndex(branch, p) == j
    requires j < |statements| && statements[j].metadata.tableUpdated.Some? && statements[j].metadata.tableUpdated.value in probes
    requires mine == probes[statements[j].metadata.tableUpdated.value]
    requires Replay(e, Main, main, statements[..j]).Some?
    requires e.writeRows(statements[j].metadata, Replay(e, Main, main, statements[..j]).value) == Some(rows)
    ensures r.NoOverlap? ==> forall p :: p in matching ==>
      PairApart(e, probes, branch, statements, main, p) && CurrentIndex(branch, p) in mine
    ensures r.Overlapping? ==> r.pair in matching && PairMeets(e, probes, branch, statements, main, r.pair)
    ensures r.OverlapNotRefined? ==> exists p :: p in matching && CurrentIndex(branch, p) !in mine
  {
    hide Replay;
    for k := 0 to |matching|
      invariant forall p :: p in matching[..k] ==> PairApart(e, probes, branch, statements, main, p) && CurrentIndex(branch, p) in mine
    {
      var pair := matching[k];
      assert pair in matching;
      if CurrentIndex(branch, pair) !in mine {
        return OverlapNotRefined;
      }
      assert PairRows(e, probes, branch, statements, main, pair, mine[CurrentIndex(branch, pair)], rows);
      if mine[CurrentIndex(branch, pair)] * rows != {} {
        return Overlapping(pair);
      }
      PrefixSnoc(matching, k);
    }
    r := NoOverlap;
    assert matching[..|matching|] == matching;
  }

  /** Walk the opposite statements over main, comparing each with the recorded current rows. */
  method WalkForOverlap(session: Session, probes: ProbeTables, branch: Branch, other: LoggedTransaction, pairs: seq<(nat, nat)>)
    returns (r: OverlapResult)
    requires session.Valid()
    modifies session`state, session`savepoints
    ensures session.Valid() && session.savepoints == old(session.savepoints)
    ensures r.NoOverlap? ==>
      && RowsKnown(session.engine, probes, branch, other.statements, old(session.state.main), pairs)
      && AllApart(session.engine, probes, branch, other.statements, old(session.state.main), pairs)
    ensures r.Overlapping? ==>
      r.pair in pairs && PairMeets(session.engine, probes, branch, other.statements, old(session.state.main), r.pair)
    ensures r.OverlapNotRefined? ==> !RowsKnown(session.engine, probes, branch, other.statements, old(session.state.main), pairs)
  {
    hide Execute, Apply, Replay, Session.Valid, PairApart, PairMeets, CheckedFailure, PairKnown;
    var e := session.engine;
    ghost var main := session.state.main;
    ghost var statements := other.statements;
    ReplayNothing(e, Main, main);
    for j := 0 to |other.statements|
      invariant session.Valid() && session.savepoints == old(session.savepoints)
      invariant Replay(e, Main, main, statements[..j]) == Some(session.state.main)
      invariant forall pair :: pair in pairs && OtherIndex(branch, pair) < j ==>
        PairApart(e, probes, branch, statements, main, pair)
      invariant forall i :: 0 <= i < j ==> RowsKnownAt(e, probes, branch, statements, main, pairs, i)
    {
      var s := other.statements[j];
      var matching := MatchingPairs(branch, pairs, j);
      if matching != [] {
        assert matching[0] in matching;
        if s.metadata.tableUpdated.None? || s.metadata.tableUpdated.value !in probes {
          PairUnknown(e, probes, branch, s, session.state.main, matching[0]);
          assert !RowsKnownAt(e, probes, branch, statements, main, pairs, j);
          return OverlapNotRefined;
        }
        var mine := probes[s.metadata.tableUpdated.value];
        var rows := e.writeRows(s.metadata, session.state.main);
        if rows.None? {
          PairUnknown(e, probes, branch, s, session.state.main, matching[0]);
          assert !RowsKnownAt(e, probes, branch, statements, main, pairs, j);
          return OverlapNotRefined;
        }
        r := CompareRows(e, probes, branch, statements, main, j, matching, mine, rows.value);
        PairsKnown(e, probes, branch, s, session.state.main);
        if !r.NoOverlap? {
          assert r.OverlapNotRefined? ==> !RowsKnownAt(e, probes, branch, statements, main, pairs, j);
          return;
        }
      }
      ReplaySnoc(e, Main, main, statements, j);
      StepIs(e, Main, session.state.main, s);
      var failure := session.RunStatement(Main, s, true);
      if failure.Some? {
        assert !RowsKnownAt(e, probes, branch, statements, main, pairs, j);
        return OverlapNotRefined;
      }
    }
    r := NoOverlap;
  }

  lemma PairUnknown(e: Engine, probes: ProbeTables, branch: Branch, s: LoggedStatement, at: Db, pair: (nat, nat))
    requires s.metadata.tableUpdated.None? || s.metadata.tableUpdated.value !in probes || e.writeRows(s.metadata, at).None?
    ensures !PairKnown(e, probes, branch, s, at, pair)
  {
  }

  lemma PairsKnown(e: Engine, probes: ProbeTables, branch: Branch, s: LoggedStatement, at: Db)
    requires s.metadata.tableUpdated.Some? && s.metadata.tableUpdated.value in probes && e.writeRows(s.metadata, at).Some?
    ensures forall pair :: PairKnown(e, probes, branch, s, at, pair) <==> CurrentIndex(branch, pair) in probes[s.metadata.tableUpdated.value]
  {
  }

  lemma StepIs(e: Engine, side: Side, db: Db, s: LoggedStatement)
    ensures CheckedFailure(e, side, db, s).None? ==>
      Step(e, side, db, s) == Some(Apply(db, Execute(e, side, db, s).patch))
      && ForeignKeysHold(e, Apply(db, Execute(e, side, db, s).patch))
  {
  }

  /** No overlap exactly when the comparison can be carried through and finds every pair apart. */
  method FindWriteWriteOverlap(session: Session, probes: ProbeTables, branch: Branch, other: LoggedTransaction, pairs: seq<(nat, nat)>)
    returns (r: OverlapResult)
    requires session.Valid()
    modifies session
    ensures session.Valid() && session.state == old(session.state) && session.savepoints == old(session.savepoints)
    ensures r.NoOverlap? <==>
      && RowsKnown(session.engine, probes, branch, other.statements, session.state.main, pairs)
      && AllApart(session.engine, probes, branch, other.statements, session.state.main, pairs)
    ensures r.Overlapping? ==>
      r.pair in pairs && PairMeets(session.engine, probes, branch, other.statements, session.state.main, r.pair)
    ensures r.OverlapNotRefined? ==> !RowsKnown(session.engine, probes, branch, other.statements, session.state.main, pairs)
  {
    hide PairApart, PairMeets, RowsKnown;
    ghost var depth := |session.savepoints|;
    var savepoint := session.Begin();
    r := WalkForOverlap(session, probes, branch, other, pairs);
    session.RollbackSavepoint(savepoint, depth);
    if r.Overlapping? {
      MeetsIsNotApart(session.engine, probes, branch, other.statements, session.state.main, r.pair);
    }
  }

  lemma MeetsIsNotApart(e: Engine, probes: ProbeTables, branch: Branch, statements: seq<LoggedStatement>, main: Db, pair: (nat, nat))
    requires PairMeets(e, probes, branch, statements, main, pair)
    ensures OtherIndex(branch, pair) < |statements| && !PairApart(e, probes, branch, statements, main, pair)
  {
    hide Replay;
  }

  // ----- write/read: comparing reader probes on main and control -----

  datatype DependencyResult = Unaffected | Affected(readers: seq<nat>) | DependencyNotRefined

  /** The probes of reader statement `i`, if it is a candidate, have rows on both sides, and it replays on both. */
  ghost predicate ProbesKnownAt(e: Engine, writes: ColumnMap, statements: seq<LoggedStatement>, main: Db, control: Db, i: nat)
    requires i < |statements|
  {
    var a, b := Replay(e, Main, main, statements[..i]), Replay(e, Control, control, statements[..i]);
    && a.Some? && b.Some?
    && CheckedFailure(e, Main, a.value, statements[i]).None? && CheckedFailure(e, Control, b.value, statements[i]).None?
    && (ReadsAny(statements[i].metadata, writes) ==> ProbeKnown(e, statements[i], a.value, b.value))
  }

  predicate ProbeKnown(e: Engine, s: LoggedStatement, a: Db, b: Db) {
    match e.readProbe(s.metadata)
    case NoReadDependency => true
    case NotRefined => false
    case Query(sql) => e.readProbeRewrites(sql) && e.readRows(s.metadata, sql, a).Some? && e.readRows(s.metadata, sql, b).Some?
  }

  ghost predicate ProbesKnown(e: Engine, writes: ColumnMap, statements: seq<LoggedStatement>, main: Db, control: Db) {
    forall i :: 0 <= i < |statements| ==> ProbesKnownAt(e, writes, statements, main, control, i)
  }

  /** Replay the reader on both sides, comparing the probe rows of each candidate statement first. */
  method WalkReaders(session: Session, writes: ColumnMap, reader: LoggedTransaction) returns (r: DependencyResult)
    requires session.Valid()
    modifies session`state, session`savepoints
    ensures session.Valid() && session.savepoints == old(session.savepoints)
    ensures r.DependencyNotRefined? <==>
      !ProbesKnown(session.engine, writes, reader.statements, old(session.state.main), old(session.state.control))
    ensures r.Unaffected? ==>
      ReadersQuiet(session.engine, writes, reader.statements, old(session.state.main), old(session.state.control))
    ensures r.Affected? ==> r.readers != [] && forall i: nat :: i in r.readers <==>
      (&& i < |reader.statements| && ReadsAny(reader.statements[i].metadata, writes)
       && !ProbeQuietAt(session.engine, reader.statements, i, old(session.state.main), old(session.state.control)))
  {
    hide Execute, Apply, Replay, ReadsAny, Session.Valid, CheckedFailure;
    var e := session.engine;
    ghost var main, control := session.state.main, session.state.control;
    ghost var statements := reader.statements;
    var affected: seq<nat> := [];
    ReplayNothing(e, Main, main);
    ReplayNothing(e, Control, control);
    for i := 0 to |reader.statements|
      invariant session.Valid() && session.savepoints == old(session.savepoints)
      invariant forall j :: 0 <= j < i ==> ProbesKnownAt(e, writes, statements, main, control, j)
      invariant Replay(e, Main, main, statements[..i]) == Some(session.state.main)
      invariant Replay(e, Control, control, statements[..i]) == Some(session.state.control)
      invariant forall j: nat :: j in affected <==>
        (j < i && ReadsAny(statements[j].metadata, writes) && !ProbeQuietAt(e, statements, j, main, control))
    {
      var s := reader.statements[i];
      if ReadsAny(s.metadata, writes) {
        match e.readProbe(s.metadata) {
          case NoReadDependency =>
          case NotRefined =>
            assert !ProbesKnownAt(e, writes, statements, main, control, i);
            return DependencyNotRefined;
          case Query(sql) =>
            if !e.readProbeRewrites(sql) {
              assert !ProbesKnownAt(e, writes, statements, main, control, i);
              return DependencyNotRefined;
            }
            var before := e.readRows(s.metadata, sql, session.state.main);
            var after := e.readRows(s.metadata, sql, session.state.control);
            if before.None? || after.None? {
              assert !ProbesKnownAt(e, writes, statements, main, control, i);
              return DependencyNotRefined;
            }
            if before != after {
              affected := affected + [i];
            }
        }
      }
      ReplaySnoc(e, Main, main, statements, i);
      ReplaySnoc(e, Control, control, statements, i);
      StepIs(e, Main, session.state.main, s);
      var failure := session.RunStatement(Main, s, true);
      if failure.Some? {
        assert !ProbesKnownAt(e, writes, statements, main, control, i);
        return DependencyNotRefined;
      }
      StepIs(e, Control, session.state.control, s);
      failure := session.RunStatement(Control, s, true);
      if failure.Some? {
        assert !ProbesKnownAt(e, writes, statements, main, control, i);
        return DependencyNotRefined;
      }
    }
    assert affected == [] ==> forall j: nat :: j !in affected;
    assert affected != [] ==> affected[0] in affected;
    r := if affected == [] then Unaffected else Affected(affected);
  }

  ghost predicate HasReader(writes: ColumnMap, statements: seq<LoggedStatement>) {
    exists i :: 0 <= i < |statements| && ReadsAny(statements[i].metadata, writes)
  }

  /** Unaffected exactly when every candidate reader is quiet, and known wherever there is one. */
  method RollingWriteReadDependency(session: Session, writer: LoggedTransaction, reader: LoggedTransaction)
    returns (r: DependencyResult)
    requires session.Valid()
    modifies session
    ensures session.Valid() && session.state == old(session.state) && session.savepoints == old(session.savepoints)
    ensures r.DependencyNotRefined? <==>
      (&& HasReader(writer.metadata.updated, reader.statements)
       && !ProbesKnown(session.engine, writer.metadata.updated, reader.statements, session.state.main, session.state.control))
    ensures r.Unaffected? <==>
      (&& !r.DependencyNotRefined?
       && ReadersQuiet(session.engine, writer.metadata.updated, reader.statements, session.state.main, session.state.control))
    ensures r.Affected? ==> forall i: nat :: i in r.readers <==>
      (&& i < |reader.statements| && ReadsAny(reader.statements[i].metadata, writer.metadata.updated)
       && !ProbeQuietAt(session.engine, reader.statements, i, session.state.main, session.state.control))
  {
    hide ProbesKnownAt, ProbeQuietAt, ReadsAny;
    if forall i :: 0 <= i < |reader.statements| ==> !ReadsAny(reader.statements[i].metadata, writer.metadata.updated) {
      return Unaffected;
    }
    ghost var depth := |session.savepoints|;
    var savepoint := session.Begin();
    r := WalkReaders(session, writer.metadata.updated, reader);
    session.RollbackSavepoint(savepoint, depth);
    if r.Affected? { assert r.readers[0] in r.readers; }
  }

  // ----- the scanner -----

  function CurrentOurs(branch: Branch, current: LoggedTransaction, other: LoggedTransaction): TransactionMetadata {
    if branch.Ours? then current.metadata else other.metadata
  }

  function CurrentTheirs(branch: Branch, current: LoggedTransaction, other: LoggedTransaction): TransactionMetadata {
    if branch.Ours? then other.metadata else current.metadata
  }

  function CandidatePairs(branch: Branch, current: LoggedTransaction, other: LoggedTransaction): seq<(nat, nat)> {
    WriteWriteCandidatePairs(CurrentOurs(branch, current, other).statements, CurrentTheirs(branch, current, other).statements)
  }

  /** The rows statement `i` of the current transaction is about to update or delete where it runs on control. */
  ghost predicate RecordedAt(e: Engine, current: LoggedTransaction, control: Db, t: Table, i: nat, rows: set<Row>) {
    && i < |current.statements|
    && var m := current.statements[i].metadata;
       && (m.kind.UpdateKind? || m.kind.DeleteKind?) && m.tableUpdated == Some(t) && e.writeProbeRewrites(m)
       && var at := Replay(e, Control, control, current.statements[..i]);
          at.Some? && e.writeRows(m, at.value) == Some(rows)
  }

  /** The recorded probe rows are exactly those of the first `n` current statements. */
  ghost predicate RecordedUpTo(e: Engine, current: LoggedTransaction, control: Db, probes: ProbeTables, n: nat) {
    forall t, i: nat, rows :: RecordedAt(e, current, control, t, i, rows) && i < n <==> t in probes && i in probes[t] && probes[t][i] == rows
  }

  ghost predicate ProbesRecorded(e: Engine, current: LoggedTransaction, control: Db, probes: ProbeTables) {
    RecordedUpTo(e, current, control, probes, |current.statements|)
  }

  /** No row is updated or deleted by both transactions: every candidate statement pair was
      probed, the current side on control and the other on main, and the rows are disjoint. */
  ghost predicate RowsKeptApart(
    e: Engine, branch: Branch, current: LoggedTransaction, control: Db, other: LoggedTransaction, main: Db)
  {
    forall pair :: pair in CandidatePairs(branch, current, other) && OtherIndex(branch, pair) < |other.statements| ==>
      PairKeptApart(e, branch, current, control, other, main, pair)
  }

  ghost predicate PairKeptApart(
    e: Engine, branch: Branch, current: LoggedTransaction, control: Db, other: LoggedTransaction, main: Db, pair: (nat, nat))
  {
    exists mine, theirs ::
      && OtherIndex(branch, pair) < |other.statements|
      && other.statements[OtherIndex(branch, pair)].metadata.tableUpdated.Some?
      && RecordedAt(e, current, control, other.statements[OtherIndex(branch, pair)].metadata.tableUpdated.value, CurrentIndex(branch, pair), mine)
      && (var at := Replay(e, Main, main, other.statements[..OtherIndex(branch, pair)]);
          at.Some? && e.writeRows(other.statements[OtherIndex(branch, pair)].metadata, at.value) == Some(theirs))
      && mine * theirs == {}
  }

  /** Every statement of it runs, deferred foreign keys checked after each. */
  ghost predicate RunsChecked(e: Engine, side: Side, db: Db, statements: seq<LoggedStatement>) {
    forall j :: 0 <= j < |statements| ==> RunsCheckedAt(e, side, db, statements, j)
  }

  ghost predicate RunsCheckedAt(e: Engine, side: Side, db: Db, statements: seq<LoggedStatement>, j: nat)
    requires j < |statements|
  {
    var at := Replay(e, side, db, statements[..j]);
    at.Some? && CheckedFailure(e, side, at.value, statements[j]).None?
  }

  lemma ApartFromProbes(
    e: Engine, probes: ProbeTables, branch: Branch, current: LoggedTransaction, control: Db, other: LoggedTransaction, main: Db, pair: (nat, nat))
    requires ProbesRecorded(e, current, control, probes)
    ensures PairApart(e, probes, branch, other.statements, main, pair) <==> PairKeptApart(e, branch, current, control, other, main, pair)
  {
    hide Replay, RecordedAt;
    if PairApart(e, probes, branch, other.statements, main, pair) {
      var mine, theirs :| PairRows(e, probes, branch, other.statements, main, pair, mine, theirs) && mine * theirs == {};
      var t := other.statements[OtherIndex(branch, pair)].metadata.tableUpdated.value;
      assert RecordedAt(e, current, control, t, CurrentIndex(branch, pair), mine);
    }
    if PairKeptApart(e, branch, current, control, other, main, pair) {
      var j := OtherIndex(branch, pair);
      var t := other.statements[j].metadata.tableUpdated.value;
      var mine, theirs :|
        && RecordedAt(e, current, control, t, CurrentIndex(branch, pair), mine)
        && (var at := Replay(e, Main, main, other.statements[..j]);
            at.Some? && e.writeRows(other.statements[j].metadata, at.value) == Some(theirs))
        && mine * theirs == {};
      RecordedIndex(e, current, control, t, CurrentIndex(branch, pair), mine);
      assert PairRows(e, probes, branch, other.statements, main, pair, mine, theirs);
    }
  }

  lemma RecordedIndex(e: Engine, current: LoggedTransaction, control: Db, t: Table, i: nat, rows: set<Row>)
    requires RecordedAt(e, current, control, t, i, rows)
    ensures i < |current.statements|
  {
  }

  /** What the comparison of recorded rows with the opposite walk says, in terms of the two replays alone. */
  lemma ComparedMeans(
    e: Engine, probes: ProbeTables, branch: Branch, current: LoggedTransaction, control: Db, other: LoggedTransaction, main: Db)
    requires ProbesRecorded(e, current, control, probes) && ValidTransaction(current) && ValidTransaction(other)
    ensures var pairs := CandidatePairs(branch, current, other);
      && (forall p :: p in pairs ==> exists t :: t in probes && CurrentIndex(branch, p) in probes[t])
      && RowsKnown(e, probes, branch, other.statements, main, pairs)
      && AllApart(e, probes, branch, other.statements, main, pairs)
      <==> RowsKeptApart(e, branch, current, control, other, main) && RunsChecked(e, Main, main, other.statements)
  {
    hide Replay, RecordedAt, PairApart, PairKeptApart, ValidTransaction, CheckedFailure, PairKnown, WriteWriteOverlap;
    var pairs := CandidatePairs(branch, current, other);
    forall pair { ApartFromProbes(e, probes, branch, current, control, other, main, pair); }
    forall pair | pair in pairs ensures OtherIndex(branch, pair) < |other.statements| { PairInRange(branch, current, other, pair); }
    forall pair | pair in pairs && PairApart(e, probes, branch, other.statements, main, pair)
      ensures exists t :: t in probes && CurrentIndex(branch, pair) in probes[t]
      ensures var at := Replay(e, Main, main, other.statements[..OtherIndex(branch, pair)]);
        at.Some? ==> PairKnown(e, probes, branch, other.statements[OtherIndex(branch, pair)], at.value, pair)
    {
      ApartIsKnown(e, probes, branch, other.statements, main, pair);
    }
    if RunsChecked(e, Main, main, other.statements) && RowsKeptApart(e, branch, current, control, other, main) {
      forall j | 0 <= j < |other.statements| ensures RowsKnownAt(e, probes, branch, other.statements, main, pairs, j) {
        assert RunsCheckedAt(e, Main, main, other.statements, j);
      }
    }
    if RowsKnown(e, probes, branch, other.statements, main, pairs) {
      forall j | 0 <= j < |other.statements| ensures RunsCheckedAt(e, Main, main, other.statements, j) {
        assert RowsKnownAt(e, probes, branch, other.statements, main, pairs, j);
      }
    }
  }

  lemma ApartIsKnown(e: Engine, probes: ProbeTables, branch: Branch, statements: seq<LoggedStatement>, main: Db, pair: (nat, nat))
    requires PairApart(e, probes, branch, statements, main, pair)
    ensures exists t :: t in probes && CurrentIndex(branch, pair) in probes[t]
    ensures OtherIndex(branch, pair) < |statements|
    ensures var at := Replay(e, Main, main, statements[..OtherIndex(branch, pair)]);
      at.Some? && PairKnown(e, probes, branch, statements[OtherIndex(branch, pair)], at.value, pair)
  {
    hide Replay;
  }

  lemma PairInRange(branch: Branch, current: LoggedTransaction, other: LoggedTransaction, pair: (nat, nat))
    requires ValidTransaction(current) && ValidTransaction(other) && pair in CandidatePairs(branch, current, other)
    ensures CurrentIndex(branch, pair) < |current.statements| && OtherIndex(branch, pair) < |other.statements|
  {
    hide WriteWriteOverlap;
    StatementsOf(Metadatas(current.statements));
    StatementsOf(Metadatas(other.statements));
    CandidatePairsMember(CurrentOurs(branch, current, other).statements, CurrentTheirs(branch, current, other).statements, pair);
  }

  predicate PairCascades(current: LoggedTransaction, other: LoggedTransaction) {
    current.metadata.hasCascadeEffects || other.metadata.hasCascadeEffects
  }

  /** The row comparison clears a static write/write conflict: no foreign-key effects, the opposite statements run,
      and each pair touches rows that are known and apart. */
  ghost predicate ClearsWriteWrite(e: Engine, branch: Branch, current: LoggedTransaction, start: Db, other: LoggedTransaction, main: Db) {
    && !PairCascades(current, other)
    && RowsKeptApart(e, branch, current, start, other, main) && RunsChecked(e, Main, main, other.statements)
  }

  /** The probe comparison clears a static write/read conflict. */
  ghost predicate ClearsWriteRead(e: Engine, current: LoggedTransaction, other: LoggedTransaction, main: Db, control: Db) {
    var writes := current.metadata.updated;
    && !PairCascades(current, other)
    && (HasReader(writes, other.statements) ==> ProbesKnown(e, writes, other.statements, main, control))
    && ReadersQuiet(e, writes, other.statements, main, control)
  }

  /** Nothing stands against advancing over the transaction: each enabled static conflict is cleared, and both
      sides replay it, with their conflict clauses unused where integrity is enabled. `start` is control without
      the current transaction. */
  ghost predicate Passes(
    e: Engine, schema: SchemaCache, branch: Branch, current: LoggedTransaction, start: Db,
    kinds: set<ConflictKind>, other: LoggedTransaction, main: Db, control: Db)
  {
    var ours, theirs := CurrentOurs(branch, current, other), CurrentTheirs(branch, current, other);
    && (WriteWrite in kinds && TransactionWriteWriteOverlap(ours, theirs) ==> ClearsWriteWrite(e, branch, current, start, other, main))
    && (WriteRead in kinds && TransactionWriteReadOverlap(current.metadata, other.metadata) ==> ClearsWriteRead(e, current, other, main, control))
    && (ImplicitInsertKey in kinds ==> !TransactionImplicitKeyConflict(schema, ours, theirs))
    && ReplayTransaction(e, Main, main, other).Some? && ReplayTransaction(e, Control, control, other).Some?
    && (Integrity in kinds ==> NoStrictFailure(e, other.statements, main, control))
  }

  /** Everything a successful check says about the next opposite transaction, at the point where
      `before` has been replayed on both sides. */
  ghost predicate PassedCheck(
    e: Engine, schema: SchemaCache, branch: Branch, current: LoggedTransaction, base: DbState,
    kinds: set<ConflictKind>, before: seq<LoggedTransaction>, other: LoggedTransaction)
  {
    var m, c := ReplayAll(e, Main, base.main, before), ReplayAll(e, Control, base.control, [current] + before);
    && m.Some? && c.Some?
    && PassedCheckAt(e, schema, branch, current, base.control, kinds, other, m.value, c.value)
  }

  ghost predicate PassedCheckAt(
    e: Engine, schema: SchemaCache, branch: Branch, current: LoggedTransaction, start: Db,
    kinds: set<ConflictKind>, other: LoggedTransaction, main: Db, control: Db)
  {
    && (WriteRead in kinds ==> ReadersQuiet(e, current.metadata.updated, other.statements, main, control))
    && (WriteWrite in kinds ==> RowsKeptApart(e, branch, current, start, other, main))
    && (ImplicitInsertKey in kinds ==>
          !TransactionImplicitKeyConflict(schema, CurrentOurs(branch, current, other), CurrentTheirs(branch, current, other)))
    && (Integrity in kinds ==> NoStrictFailure(e, other.statements, main, control))
    && ReplayTransaction(e, Main, main, other).Some?
    && ReplayTransaction(e, Control, control, other).Some?
  }

  /** The static kinds that are reported: a row conflict that stays is reported with the others, else a read conflict
      that stays with the key conflict, else the key conflict. */
  ghost predicate StaysReported(
    e: Engine, schema: SchemaCache, branch: Branch, current: LoggedTransaction, start: Db,
    kinds: set<ConflictKind>, other: LoggedTransaction, main: Db, control: Db, k: ConflictKind)
  {
    var ours, theirs := CurrentOurs(branch, current, other), CurrentTheirs(branch, current, other);
    var rows := WriteWrite in kinds && TransactionWriteWriteOverlap(ours, theirs);
    var readers := WriteRead in kinds && TransactionWriteReadOverlap(current.metadata, other.metadata);
    var keys := ImplicitInsertKey in kinds && TransactionImplicitKeyConflict(schema, ours, theirs);
    if rows && !ClearsWriteWrite(e, branch, current, start, other, main) then
      k == WriteWrite || (k == WriteRead && readers) || (k == ImplicitInsertKey && keys)
    else if readers && !ClearsWriteRead(e, current, other, main, control) then
      k == WriteRead || (k == ImplicitInsertKey && keys)
    else k == ImplicitInsertKey && keys
  }

  /** The kinds of a failed check: those that stay, or that of the replay where none stays. */
  ghost predicate Reported(
    e: Engine, schema: SchemaCache, branch: Branch, current: LoggedTransaction, start: Db,
    kinds: set<ConflictKind>, other: LoggedTransaction, main: Db, control: Db, result: ConflictCheckResult)
  {
    if exists k :: StaysReported(e, schema, branch, current, start, kinds, other, main, control, k)
    then forall k :: HasKind(result, k) <==> StaysReported(e, schema, branch, current, start, kinds, other, main, control, k)
    else forall k :: HasKind(result, k) ==> ReportsKind(e, other, main, control, Integrity in kinds, k)
  }

  function ReplaceKind(result: ConflictCheckResult, kind: ConflictKind, message: string): ConflictCheckResult {
    WithoutKind(result, kind) + [StatementConflict(kind, message, false)]
  }

  predicate HasCascadeConflict(result: ConflictCheckResult, kind: ConflictKind) {
    exists c :: c in result && c.kind == kind && c.cascade
  }

  /** Kinds other than `kind` are the same in both results, and `kind` can only go away. */
  ghost predicate RefinesKind(before: ConflictCheckResult, after: ConflictCheckResult, kind: ConflictKind) {
    && (forall k :: k != kind ==> (HasKind(after, k) <==> HasKind(before, k)) && (HasCascadeConflict(after, k) <==> HasCascadeConflict(before, k)))
    && (HasKind(after, kind) ==> HasKind(before, kind))
  }

  /** A static row or read conflict is marked as resting on foreign-key effects exactly when a side has any. */
  lemma StaticCascade(schema: SchemaCache, ours: TransactionMetadata, theirs: TransactionMetadata, kinds: set<ConflictKind>, branch: Branch, k: ConflictKind)
    requires k.WriteWrite? || k.WriteRead?
    ensures var r := StaticAnalysisMatching(schema, ours, theirs, kinds, branch);
      HasCascadeConflict(r, k) <==> HasKind(r, k) && (ours.hasCascadeEffects || theirs.hasCascadeEffects)
  {
    hide StaticAnalysisMatching, TransactionImplicitKeyConflict, TransactionWriteWriteOverlap, OrderedWriteReadOverlap, KeyOmitted, RowsOverlap, ReadsOverlap;
    ConflictOf(ours.hasCascadeEffects || theirs.hasCascadeEffects);
    forall c { StaticMember(schema, ours, theirs, kinds, branch, c); }
  }

  lemma WithoutRefines(result: ConflictCheckResult, kind: ConflictKind, message: string)
    requires HasKind(result, kind)
    ensures RefinesKind(result, WithoutKind(result, kind), kind) && !HasKind(WithoutKind(result, kind), kind)
    ensures RefinesKind(result, ReplaceKind(result, kind, message), kind) && HasKind(ReplaceKind(result, kind, message), kind)
  {
    var r := ReplaceKind(result, kind, message);
    assert r[|r| - 1] == StatementConflict(kind, message, false);
    forall k | k != kind
      ensures HasKind(WithoutKind(result, kind), k) <==> HasKind(result, k)
      ensures HasKind(r, k) <==> HasKind(result, k)
      ensures HasCascadeConflict(WithoutKind(result, kind), k) <==> HasCascadeConflict(result, k)
      ensures HasCascadeConflict(r, k) <==> HasCascadeConflict(result, k)
    {
      forall c: StatementConflict | c.kind == k ensures (c in result <==> c in WithoutKind(result, kind)) && (c in result <==> c in r) {}
    }
  }

  /** Advancing both sides by one more transaction. */
  lemma BothAdvance(e: Engine, base: DbState, current: LoggedTransaction, before: seq<LoggedTransaction>, other: LoggedTransaction)
    ensures ReplayAll(e, Main, base.main, before + [other]) ==
      match ReplayAll(e, Main, base.main, before) case None => None case Some(m) => ReplayTransaction(e, Main, m, other)
    ensures ReplayAll(e, Control, base.control, [current] + (before + [other])) ==
      match ReplayAll(e, Control, base.control, [current] + before) case None => None case Some(c) => ReplayTransaction(e, Control, c, other)
  {
    hide ReplayAll, ReplayTransaction;
    ReplayAllSnoc(e, Main, base.main, before, other);
    assert [current] + (before + [other]) == ([current] + before) + [other];
    ReplayAllSnoc(e, Control, base.control, [current] + before, other);
  }

  /** One scan of the current transaction over the opposite suffix, inside one savepoint. */
  lemma OneReplayed(e: Engine, base: DbState, current: LoggedTransaction)
    ensures ReplayAll(e, Main, base.main, []) == Some(base.main)
    ensures ReplayAll(e, Control, base.control, [current] + []) == ReplayTransaction(e, Control, base.control, current)
  {
    hide ReplayTransaction;
    assert [current] + [] == [] + [current];
    ReplayNothing(e, Main, base.main);
    ReplayNothing(e, Control, base.control);
    ReplayAllSnoc(e, Control, base.control, [], current);
  }

  lemma NotEmpty(tx: LoggedTransaction)
    requires ValidTransaction(tx)
    ensures tx.statements != []
  {
  }

  class OrderedRemainingExecutionScanner {
    const session: Session
    const schema: SchemaCache
    const current: LoggedTransaction
    const branch: Branch
    var enabledKinds: set<ConflictKind>
    var savepoint: Option<nat>
    var probes: Option<ProbeTables>
    /** State and savepoints when the scan opened, and the suffix it has advanced over. */
    ghost var base: DbState
    ghost var outer: seq<Savepoint>
    ghost var advanced: seq<LoggedTransaction>
    ghost var running: bool

    ghost predicate Valid()
      reads this, session
    {
      && session.Valid()
      && ValidTransaction(current)
      && (savepoint.Some? ==>
            outer + [Savepoint(savepoint.value, base)] <= session.savepoints && session.state.log == base.log)
      && (running ==> savepoint.Some? && Rolled())
    }

    /** The rolling invariant: main has replayed the suffix so far, control the current
        transaction and then that suffix. */
    ghost predicate Rolled()
      reads this, session
    {
      && ReplayAll(session.engine, Main, base.main, advanced) == Some(session.state.main)
      && ReplayAll(session.engine, Control, base.control, [current] + advanced) == Some(session.state.control)
      && probes.Some?
      && ProbesRecorded(session.engine, current, base.control, probes.value)
    }

    constructor (session: Session, schema: SchemaCache, current: LoggedTransaction, branch: Branch, enabledKinds: set<ConflictKind>)
      requires session.Valid() && ValidTransaction(current)
      ensures Valid() && savepoint.None? && !running && advanced == []
      ensures this.session == session && this.schema == schema && this.current == current && this.branch == branch
      ensures this.enabledKinds == enabledKinds
    {
      this.session := session;
      this.schema := schema;
      this.current := current;
      this.branch := branch;
      this.enabledKinds := enabledKinds;
      savepoint := None;
      probes := None;
      advanced := [];
      running := false;
    }

    method EnableKinds(kinds: set<ConflictKind>)
      requires Valid()
      modifies this`enabledKinds
      ensures Valid() && enabledKinds == old(enabledKinds) + kinds
    {
      enabledKinds := enabledKinds + kinds;
    }

    /** Open the scan by replaying the current transaction on control, probing its writes. */
    method Start() returns (result: ConflictCheckResult)
      requires Valid() && savepoint.None? && !running && advanced == []
      modifies this, session
      ensures Valid() && savepoint.Some? && enabledKinds == old(enabledKinds)
      ensures base == old(session.state) && outer == old(session.savepoints)
      ensures advanced == [] && (running <==> result == [])
      ensures result == [] <==> RunsChecked(session.engine, Control, old(session.state.control), current.statements)
    {
      hide RunsCheckedAt;
      hide ReplayAll, ReplayTransaction, ProbesRecorded, ValidTransaction;
      OneReplayed(session.engine, session.state, current);
      assert current.statements != [] by { NotEmpty(current); }
      base := session.state;
      outer := session.savepoints;
      var id := session.Begin();
      savepoint := Some(id);
      var failure := StartControl();
      if failure.Some? {
        return [ReplayConflict(failure.value)];
      }
      running := true;
      result := [];
    }

    lemma RecordOneMore(e: Engine, current: LoggedTransaction, control: Db, before: ProbeTables, i: nat, at: Db, after: ProbeTables)
      requires i < |current.statements| && RecordedUpTo(e, current, control, before, i)
      requires Replay(e, Control, control, current.statements[..i]) == Some(at)
      requires var m := current.statements[i].metadata;
        if (m.kind.UpdateKind? || m.kind.DeleteKind?) && m.tableUpdated.Some? && e.writeProbeRewrites(m) && e.writeRows(m, at).Some?
        then var t := m.tableUpdated.value; after == before[t := (if t in before then before[t] else map[])[i := e.writeRows(m, at).value]]
        else after == before
      ensures RecordedUpTo(e, current, control, after, i + 1)
    {
      hide Replay;
      forall t, k: nat, rows ensures RecordedAt(e, current, control, t, k, rows) && k < i + 1 <==> t in after && k in after[t] && after[t][k] == rows {
        assert RecordedAt(e, current, control, t, k, rows) && k < i <==> t in before && k in before[t] && before[t][k] == rows;
        if t in before && k in before[t] { assert RecordedAt(e, current, control, t, k, before[t][k]) && k < i; }
      }
    }

    /** Replay current on control, saving the rows each UPDATE and DELETE is about to touch. */
    method StartControl() returns (failure: Option<Failure>)
      requires session.Valid() && current.statements != []
      modifies this`probes, session`state, session`savepoints
      ensures session.Valid() && session.savepoints == old(session.savepoints)
      ensures session.state.log == old(session.state.log) && session.state.main == old(session.state.main)
      ensures failure.None? ==>
        && ReplayTransaction(session.engine, Control, old(session.state.control), current) == Some(session.state.control)
        && probes.Some? && ProbesRecorded(session.engine, current, old(session.state.control), probes.value)
      ensures failure.None? <==> RunsChecked(session.engine, Control, old(session.state.control), current.statements)
    {
      hide Execute, Apply, Replay, Session.Valid, RecordedAt, CheckedFailure;
      var e := session.engine;
      ghost var control := session.state.control;
      ghost var statements := current.statements;
      var tables: ProbeTables := map[];
      probes := Some(tables);
      ReplayNothing(e, Control, control);
      for i := 0 to |current.statements|
        invariant session.Valid() && session.savepoints == old(session.savepoints)
        invariant session.state.log == old(session.state.log) && session.state.main == old(session.state.main)
        invariant Replay(e, Control, control, statements[..i]) == Some(session.state.control)
        invariant i > 0 ==> ForeignKeysHold(e, session.state.control)
        invariant RecordedUpTo(e, current, control, tables, i)
        invariant forall j :: 0 <= j < i ==> RunsCheckedAt(e, Control, control, statements, j)
      {
        var s := current.statements[i];
        ghost var before := tables;
        if (s.metadata.kind.UpdateKind? || s.metadata.kind.DeleteKind?) && s.metadata.tableUpdated.Some? {
          var rows := if e.writeProbeRewrites(s.metadata) then e.writeRows(s.metadata, session.state.control) else None;
          if rows.Some? {
            var t := s.metadata.tableUpdated.value;
            tables := tables[t := (if t in tables then tables[t] else map[])[i := rows.value]];
          }
        }
        RecordOneMore(e, current, control, before, i, session.state.control, tables);
        ReplaySnoc(e, Control, control, statements, i);
        StepIs(e, Control, session.state.control, s);
        failure := session.RunStatement(Control, s, true);
        if failure.Some? {
          assert !RunsCheckedAt(e, Control, control, statements, i);
          return;
        }
      }
      assert statements[..|statements|] == statements;
      probes := Some(tables);
      failure := None;
    }

    /** Refine a static write/write conflict by comparing affected rows. */
    method CheckWriteWrite(other: LoggedTransaction, result: ConflictCheckResult) returns (r: ConflictCheckResult)
      requires Valid() && running && ValidTransaction(other)
      requires HasCascadeConflict(result, WriteWrite) <==> HasKind(result, WriteWrite) && PairCascades(current, other)
      requires HasKind(result, WriteWrite) <==>
        TransactionWriteWriteOverlap(CurrentOurs(branch, current, other), CurrentTheirs(branch, current, other))
      modifies session
      ensures Valid() && session.state == old(session.state) && session.savepoints == old(session.savepoints)
      ensures RefinesKind(result, r, WriteWrite)
      ensures !HasKind(r, WriteWrite) ==>
        RowsKeptApart(session.engine, branch, current, base.control, other, session.state.main)
      ensures HasKind(r, WriteWrite) <==>
        HasKind(result, WriteWrite) && !ClearsWriteWrite(session.engine, branch, current, base.control, other, session.state.main)
    {
      hide ReplayAll, WriteWriteOverlap, PairApart, PairMeets, PairKeptApart, ValidTransaction, HasCascadeConflict, WithoutKind, ReplaceKind, RowsKnown, PairCascades;
      r := result;
      var ours, theirs := CurrentOurs(branch, current, other).statements, CurrentTheirs(branch, current, other).statements;
      if !HasKind(result, WriteWrite) {
        forall pair | pair in CandidatePairs(branch, current, other) ensures false {
          CandidatePairsMember(ours, theirs, pair);
        }
        return;
      }
      if HasCascadeConflict(result, WriteWrite) {
        return;
      }
      var pairs := CandidatePairs(branch, current, other);
      if pairs == [] {
        NoPairsNoOverlap(ours, theirs);
        assert false;
      }
      var recorded := probes.value;
      ComparedMeans(session.engine, recorded, branch, current, base.control, other, session.state.main);
      if exists p :: p in pairs && !exists t :: t in recorded && CurrentIndex(branch, p) in recorded[t] {
        return;
      }
      var overlap := FindWriteWriteOverlap(session, recorded, branch, other, pairs);
      WithoutRefines(result, WriteWrite, "statements update/delete overlapping rows");
      match overlap {
        case NoOverlap => r := WithoutKind(result, WriteWrite);
        case Overlapping(_) => r := ReplaceKind(result, WriteWrite, "statements update/delete overlapping rows");
        case OverlapNotRefined =>
      }
    }

    lemma NoPairsNoOverlap(ours: seq<StatementMetadata>, theirs: seq<StatementMetadata>)
      ensures WriteWriteCandidatePairs(ours, theirs) == [] ==>
        !exists o, t :: o in ours && t in theirs && WriteWriteOverlap(o, t)
    {
      hide WriteWriteOverlap;
      if o, t :| o in ours && t in theirs && WriteWriteOverlap(o, t) {
        var i: nat :| i < |ours| && ours[i] == o;
        var j: nat :| j < |theirs| && theirs[j] == t;
        CandidatePairsMember(ours, theirs, (i, j));
      }
    }

    /** Refine a static write/read conflict by comparing reader probes. */
    method CheckWriteRead(other: LoggedTransaction, result: ConflictCheckResult) returns (r: ConflictCheckResult)
      requires Valid() && running && ValidTransaction(other)
      requires HasCascadeConflict(result, WriteRead) <==> HasKind(result, WriteRead) && PairCascades(current, other)
      requires HasKind(result, WriteRead) <==> TransactionWriteReadOverlap(current.metadata, other.metadata)
      modifies session
      ensures Valid() && session.state == old(session.state) && session.savepoints == old(session.savepoints)
      ensures RefinesKind(result, r, WriteRead)
      ensures !HasKind(r, WriteRead) ==>
        ReadersQuiet(session.engine, current.metadata.updated, other.statements, session.state.main, session.state.control)
      ensures HasKind(r, WriteRead) <==>
        HasKind(result, WriteRead) && !ClearsWriteRead(session.engine, current, other, session.state.main, session.state.control)
    {
      hide ReplayAll, ReadersQuiet, TransactionWriteReadOverlap, PairCascades, HasCascadeConflict, ProbesKnown, HasReader;
      r := result;
      if !HasKind(result, WriteRead) {
        UnflaggedReadersQuiet(session.engine, current, other, session.state.main, session.state.control);
        return;
      }
      if HasCascadeConflict(result, WriteRead) {
        return;
      }
      var check := RollingWriteReadDependency(session, current, other);
      WithoutRefines(result, WriteRead, "reads values affected by the current transaction");
      match check {
        case Unaffected => r := WithoutKind(result, WriteRead);
        case Affected(_) => r := ReplaceKind(result, WriteRead, "reads values affected by the current transaction");
        case DependencyNotRefined =>
      }
    }

    /** The checks of one opposite transaction in order, then its replay on both sides. */
    method RefineAndAdvance(other: LoggedTransaction, start: ConflictCheckResult) returns (result: ConflictCheckResult)
      requires Valid() && running && ValidTransaction(other)
      requires start == StaticAnalysisMatching(schema,
        CurrentOurs(branch, current, other), CurrentTheirs(branch, current, other), enabledKinds, branch)
      modifies session
      ensures session.Valid() && session.savepoints == old(session.savepoints) && session.state.log == old(session.state.log)
      ensures result == [] ==>
        && PassedCheckAt(session.engine, schema, branch, current, base.control, enabledKinds, other,
             old(session.state.main), old(session.state.control))
        && ReplayTransaction(session.engine, Main, old(session.state.main), other) == Some(session.state.main)
        && ReplayTransaction(session.engine, Control, old(session.state.control), other) == Some(session.state.control)
      ensures Reported(session.engine, schema, branch, current, base.control, enabledKinds, other,
        old(session.state.main), old(session.state.control), result)
      ensures result == [] <==>
        Passes(session.engine, schema, branch, current, base.control, enabledKinds, other, old(session.state.main), old(session.state.control))
    {
      hide ReadersQuiet, RowsKeptApart, TransactionWriteReadOverlap, TransactionWriteWriteOverlap, TransactionImplicitKeyConflict, NoStrictFailure, ReplayAll;
      hide ReplayTransaction, ValidTransaction, ClearsWriteWrite, ClearsWriteRead, HasCascadeConflict, StaticAnalysisMatching, ReportsKind;
      ghost var e, main, control := session.engine, session.state.main, session.state.control;
      StaticCascade(schema, CurrentOurs(branch, current, other), CurrentTheirs(branch, current, other), enabledKinds, branch, WriteWrite);
      StaticCascade(schema, CurrentOurs(branch, current, other), CurrentTheirs(branch, current, other), enabledKinds, branch, WriteRead);
      StaticKinds(schema, CurrentOurs(branch, current, other), CurrentTheirs(branch, current, other), enabledKinds, branch);
      result := start;
      if WriteWrite in enabledKinds {
        result := CheckWriteWrite(other, result);
        if HasKind(result, WriteWrite) {
          assert result != [];
          assert StaysReported(e, schema, branch, current, base.control, enabledKinds, other, main, control, WriteWrite);
          return;
        }
      }
      if WriteRead in enabledKinds {
        result := CheckWriteRead(other, result);
        if HasKind(result, WriteRead) {
          assert result != [];
          assert StaysReported(e, schema, branch, current, base.control, enabledKinds, other, main, control, WriteRead);
          return;
        }
      }
      if result != [] {
        assert HasKind(result, result[0].kind) && HasKind(start, result[0].kind);
        assert StaysReported(e, schema, branch, current, base.control, enabledKinds, other, main, control, ImplicitInsertKey);
        return;
      }
      var conflict := AdvanceTransaction(session, other, Integrity in enabledKinds);
      if conflict.Some? {
        result := [conflict.value];
      }
    }

    /** Check one opposite transaction, then advance both sides. A conflict leaves everything as
        it was. */
    method CheckNext(other: LoggedTransaction) returns (result: ConflictCheckResult)
      requires Valid() && running && ValidTransaction(other)
      modifies this, session
      ensures Valid() && running && savepoint == old(savepoint)
      ensures base == old(base) && outer == old(outer) && enabledKinds == old(enabledKinds)
      ensures session.savepoints == old(session.savepoints)
      ensures result == [] ==>
        && advanced == old(advanced) + [other]
        && PassedCheck(session.engine, schema, branch, current, base, enabledKinds, old(advanced), other)
      ensures Reported(session.engine, schema, branch, current, base.control, enabledKinds, other,
        old(session.state.main), old(session.state.control), result)
      ensures result != [] ==> advanced == old(advanced) && session.state == old(session.state)
      ensures result == [] <==>
        Passes(session.engine, schema, branch, current, base.control, enabledKinds, other, old(session.state.main), old(session.state.control))
    {
      hide ReadersQuiet, RowsKeptApart, PassedCheckAt, ClearsWriteWrite, ClearsWriteRead, TransactionWriteReadOverlap, TransactionWriteWriteOverlap, TransactionImplicitKeyConflict, NoStrictFailure;
      hide ReplayTransaction, ReplayAll, ValidTransaction, ProbesRecorded, Session.Valid, Reported;
      var ours, theirs := CurrentOurs(branch, current, other), CurrentTheirs(branch, current, other);
      ghost var main, control := session.state.main, session.state.control;
      ghost var depth := |session.savepoints|;
      result := StaticAnalysisMatching(schema, ours, theirs, enabledKinds, branch);
      var inner := session.Begin();
      result := RefineAndAdvance(other, result);
      if result != [] {
        session.RollbackSavepoint(inner, depth);
      } else {
        session.Release(inner, depth);
        BothAdvance(session.engine, base, current, advanced, other);
        advanced := advanced + [other];
      }
    }

    /** Advance over a pair conflict the user has accepted; a replay failure is added to it. */
    method AcceptNext(other: LoggedTransaction, accepted: ConflictCheckResult) returns (result: ConflictCheckResult)
      requires Valid() && running && ValidTransaction(other)
      modifies this, session
      ensures Valid() && running && savepoint == old(savepoint)
      ensures base == old(base) && outer == old(outer) && enabledKinds == old(enabledKinds)
      ensures session.savepoints == old(session.savepoints)
      ensures result == [] ==> advanced == old(advanced) + [other]
      ensures result != [] ==>
        && advanced == old(advanced) && session.state == old(session.state)
        && |result| == |accepted| + 1 && accepted < result && result[|accepted|].kind in {Integrity, ReplayError}
      ensures result == [] <==>
        && ReplayTransaction(session.engine, Main, old(session.state.main), other).Some?
        && ReplayTransaction(session.engine, Control, old(session.state.control), other).Some?
    {
      hide ReplayTransaction, ReplayAll, ValidTransaction, ProbesRecorded, Session.Valid;
      ghost var depth := |session.savepoints|;
      var inner := session.Begin();
      var conflict := AdvanceTransaction(session, other, false);
      if conflict.Some? {
        ReplayReportsKinds(session.engine, other, old(session.state.main), old(session.state.control), conflict.value.kind);
        session.RollbackSavepoint(inner, depth);
        return accepted + [conflict.value];
      }
      session.Release(inner, depth);
      BothAdvance(session.engine, base, current, advanced, other);
      advanced := advanced + [other];
      result := [];
    }

    /** Discard everything the scan did; a scan that never opened has nothing to discard. */
    method Close()
      requires Valid()
      modifies this, session
      ensures Valid() && savepoint.None? && !running
      ensures old(savepoint).Some? ==> session.state == old(base) && session.savepoints == old(outer)
      ensures old(savepoint).None? ==> session.state == old(session.state) && session.savepoints == old(session.savepoints)
    {
      running := false;
      if savepoint.None? {
        return;
      }
      session.RollbackSavepoint(savepoint.value, |outer|);
      savepoint := None;
    }
  }
}
