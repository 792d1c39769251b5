/** The stateful scan of one current transaction over the opposite queue
    (src/merge/conflict_detection.py): position, accepted pair resolutions, pauses at conflicts. */
module ConflictDetection {
  import opened Columns
  import opened Models
  import opened SqlMetadata
  import opened Database
  import opened RemainingExecution

  /** A stable name for one accepted pair conflict: both transactions' SQL and the conflicts. */
  datatype ResolutionKey = ResolutionKey(
    oursId: int, oursIndexes: seq<int>, oursSql: seq<string>,
    theirsId: int, theirsIndexes: seq<int>, theirsSql: seq<string>,
    conflicts: seq<(ConflictKind, string)>)

  function Indexes(statements: seq<LoggedStatement>): (r: seq<int>)
    ensures |r| == |statements| && forall i :: 0 <= i < |r| ==> r[i] == statements[i].branchIndex
  {
    if statements == [] then [] else [statements[0].branchIndex] + Indexes(statements[1..])
  }

  function SqlTexts(statements: seq<LoggedStatement>): (r: seq<string>)
    ensures |r| == |statements| && forall i :: 0 <= i < |r| ==> r[i] == statements[i].sqlText
  {
    if statements == [] then [] else [statements[0].sqlText] + SqlTexts(statements[1..])
  }

  function ConflictTexts(conflicts: ConflictCheckResult): seq<(ConflictKind, string)> {
    if conflicts == [] then [] else [(conflicts[0].kind, conflicts[0].message)] + ConflictTexts(conflicts[1..])
  }

  function ConflictResolutionKey(ours: LoggedTransaction, theirs: LoggedTransaction, conflicts: ConflictCheckResult): ResolutionKey {
    ResolutionKey(
      ours.transactionId, Indexes(ours.statements), SqlTexts(ours.statements),
      theirs.transactionId, Indexes(theirs.statements), SqlTexts(theirs.statements),
      ConflictTexts(conflicts))
  }

  function KeyFor(branch: Branch, current: LoggedTransaction, other: LoggedTransaction, conflicts: ConflictCheckResult): ResolutionKey {
    var (ours, theirs) := Pairwise(branch, current, other);
    ConflictResolutionKey(ours, theirs, conflicts)
  }

  /** The key was made for this very pair, statement texts included. */
  ghost predicate Names(key: ResolutionKey, branch: Branch, current: LoggedTransaction, other: LoggedTransaction) {
    exists conflicts :: key == KeyFor(branch, current, other, conflicts)
  }

  lemma {:induction false} TextsOfConflicts(c: ConflictCheckResult)
    ensures |ConflictTexts(c)| == |c| && forall i :: 0 <= i < |c| ==> ConflictTexts(c)[i] == (c[i].kind, c[i].message)
  {
    if c != [] { TextsOfConflicts(c[1..]); }
  }

  ghost predicate SameText(a: LoggedTransaction, b: LoggedTransaction) {
    && a.transactionId == b.transactionId && |a.statements| == |b.statements|
    && forall i :: 0 <= i < |a.statements| ==>
         a.statements[i].sqlText == b.statements[i].sqlText && a.statements[i].branchIndex == b.statements[i].branchIndex
  }

  lemma SameTextIs(a: LoggedTransaction, b: LoggedTransaction)
    requires a.transactionId == b.transactionId
    requires Indexes(a.statements) == Indexes(b.statements) && SqlTexts(a.statements) == SqlTexts(b.statements)
    ensures SameText(a, b)
  {
    var x, y, u, v := SqlTexts(a.statements), SqlTexts(b.statements), Indexes(a.statements), Indexes(b.statements);
    assert |x| == |y| && |u| == |v|;
    assert forall i :: 0 <= i < |x| ==> x[i] == y[i] && u[i] == v[i];
  }

  /** Equal keys: the same two transactions with the same statement texts, and the same conflicts, kind and message.
      So editing either transaction, or another conflict between them, asks the user again. */
  lemma KeyFixesSql(
    branch: Branch, current: LoggedTransaction, other: LoggedTransaction, c: ConflictCheckResult,
    current': LoggedTransaction, other': LoggedTransaction, c': ConflictCheckResult)
    requires KeyFor(branch, current, other, c) == KeyFor(branch, current', other', c')
    ensures SameText(current, current') && SameText(other, other')
    ensures |c| == |c'| && forall i :: 0 <= i < |c| ==> c[i].kind == c'[i].kind && c[i].message == c'[i].message
  {
    hide SameText;
    SameTextIs(current, current');
    SameTextIs(other, other');
    TextsOfConflicts(c);
    TextsOfConflicts(c');
    assert |ConflictTexts(c)| == |ConflictTexts(c')|;
    assert forall i :: 0 <= i < |c| ==> ConflictTexts(c)[i] == ConflictTexts(c')[i];
  }

  /** A user may accept it: there are conflicts, none of them a violated constraint or a failed replay. */
  predicate Reviewable(conflicts: ConflictCheckResult) {
    conflicts != [] && forall c :: c in conflicts ==> !c.kind.Integrity? && !c.kind.ReplayError?
  }

  lemma ReviewableKinds(conflicts: ConflictCheckResult)
    ensures Reviewable(conflicts) <==>
      conflicts != [] && forall c :: c in conflicts ==> c.kind in {WriteWrite, WriteRead, ImplicitInsertKey, ConstraintResolution}
  {
  }

  /** How one opposite transaction got past the scan. */
  datatype Passage = Checked(kinds: set<ConflictKind>) | Accepted(key: ResolutionKey)

  ghost predicate PassageHolds(
    e: Engine, schema: SchemaCache, branch: Branch, current: LoggedTransaction, base: DbState,
    others: seq<LoggedTransaction>, k: nat, passage: Passage, accepted: set<ResolutionKey>)
    requires k < |others|
  {
    match passage
    case Checked(kinds) => PassedCheck(e, schema, branch, current, base, kinds, others[..k], others[k])
    case Accepted(key) => key in accepted && Names(key, branch, current, others[k])
  }

  /** Every transaction the scan advanced over passed its check or was accepted. */
  ghost predicate AllPass(
    e: Engine, schema: SchemaCache, branch: Branch, current: LoggedTransaction, base: DbState,
    others: seq<LoggedTransaction>, passages: seq<Passage>, accepted: set<ResolutionKey>)
  {
    && |others| == |passages|
    && forall k :: 0 <= k < |passages| ==> PassageHolds(e, schema, branch, current, base, others, k, passages[k], accepted)
  }

  lemma NothingPassed(e: Engine, schema: SchemaCache, branch: Branch, current: LoggedTransaction, base: DbState, accepted: set<ResolutionKey>)
    ensures AllPass(e, schema, branch, current, base, [], [], accepted)
  {
  }

  lemma AcceptingMoreKeys(
    e: Engine, schema: SchemaCache, branch: Branch, current: LoggedTransaction, base: DbState,
    others: seq<LoggedTransaction>, passages: seq<Passage>, accepted: set<ResolutionKey>, more: set<ResolutionKey>)
    requires AllPass(e, schema, branch, current, base, others, passages, accepted)
    ensures AllPass(e, schema, branch, current, base, others, passages, accepted + more)
  {
    hide PassedCheck, Names;
  }

  lemma OneMorePasses(
    e: Engine, schema: SchemaCache, branch: Branch, current: LoggedTransaction, base: DbState,
    others: seq<LoggedTransaction>, passages: seq<Passage>, accepted: set<ResolutionKey>, other: LoggedTransaction, passage: Passage)
    requires AllPass(e, schema, branch, current, base, others, passages, accepted)
    requires match passage
             case Checked(kinds) => PassedCheck(e, schema, branch, current, base, kinds, others, other)
             case Accepted(key) => key in accepted && Names(key, branch, current, other)
    ensures AllPass(e, schema, branch, current, base, others + [other], passages + [passage], accepted)
  {
    hide PassedCheck, Names;
    forall k | 0 <= k < |passages + [passage]|
      ensures PassageHolds(e, schema, branch, current, base, others + [other], k, (passages + [passage])[k], accepted)
    {
      if k < |passages| {
        assert PassageHolds(e, schema, branch, current, base, others, k, passages[k], accepted);
        assert (others + [other])[..k] == others[..k];
      } else {
        assert (others + [other])[..k] == others;
      }
    }
  }

  // ----- a scan that pauses nowhere -----

  /** Where the transactions before it have been replayed behind the head, and without it, this one passes. */
  ghost predicate ClearAt(
    e: Engine, schema: SchemaCache, branch: Branch, current: LoggedTransaction, base: DbState,
    kinds: set<ConflictKind>, before: seq<LoggedTransaction>, other: LoggedTransaction)
  {
    var m, c := ReplayAll(e, Main, base.main, before), ReplayAll(e, Control, base.control, [current] + before);
    m.Some? && c.Some? && Passes(e, schema, branch, current, base.control, kinds, other, m.value, c.value)
  }

  /** The head runs on control, and every opposite transaction passes behind it. */
  ghost predicate ScanClear(
    e: Engine, schema: SchemaCache, branch: Branch, current: LoggedTransaction, base: DbState,
    kinds: set<ConflictKind>, others: seq<LoggedTransaction>)
  {
    && RunsChecked(e, Control, base.control, current.statements)
    && forall k :: 0 <= k < |others| ==> ClearAt(e, schema, branch, current, base, kinds, others[..k], others[k])
  }

  lemma UnreplayedIsNotClear(
    e: Engine, schema: SchemaCache, branch: Branch, current: LoggedTransaction, base: DbState,
    kinds: set<ConflictKind>, before: seq<LoggedTransaction>, other: LoggedTransaction, main: Db, control: Db)
    requires ReplayAll(e, Main, base.main, before) == Some(main) && ReplayAll(e, Control, base.control, [current] + before) == Some(control)
    requires ReplayTransaction(e, Main, main, other).None? || ReplayTransaction(e, Control, control, other).None?
    ensures !ClearAt(e, schema, branch, current, base, kinds, before, other)
  {
    hide ReplayAll, ReplayTransaction, ClearsWriteWrite, ClearsWriteRead;
  }

  /** Where the scan paused: at no position for a failure of the current transaction alone. */
  datatype ScanConflict = ScanConflict(otherIndex: Option<nat>, result: ConflictCheckResult, key: Option<ResolutionKey>)

  /** A pause is keyed by its conflicts. One whose key was accepted before is a pair that does not replay: the last
      conflict is that failure, and the key is of those before it. */
  ghost predicate Keyed(branch: Branch, current: LoggedTransaction, other: LoggedTransaction, pause: ScanConflict, accepted: set<ResolutionKey>) {
    && pause.key.Some?
    && if pause.key.value in accepted
       then pause.result != [] && !Reviewable(pause.result)
              && pause.key.value == KeyFor(branch, current, other, pause.result[..|pause.result| - 1])
       else pause.key.value == KeyFor(branch, current, other, pause.result)
  }

  class OrderedRemainingConflictScanner {
    const scanner: OrderedRemainingExecutionScanner
    var acceptedPairKeys: set<ResolutionKey>
    var started: bool
    var nextOtherIndex: nat
    ghost var passages: seq<Passage>

    ghost predicate Valid()
      reads this, scanner, scanner.session
    {
      && scanner.Valid()
      && |scanner.advanced| == nextOtherIndex == |passages|
      && (started <==> scanner.savepoint.Some?)
      && (!started ==> !scanner.running && nextOtherIndex == 0)
      && AllPass(scanner.session.engine, scanner.schema, scanner.branch, scanner.current, scanner.base,
           scanner.advanced, passages, acceptedPairKeys)
    }

    constructor (session: Session, schema: SchemaCache, current: LoggedTransaction, branch: Branch,
                 enabledKinds: set<ConflictKind>, acceptedPairKeys: set<ResolutionKey>)
      requires session.Valid() && ValidTransaction(current)
      ensures Valid() && fresh(scanner) && !started && passages == []
      ensures scanner.session == session && scanner.schema == schema && scanner.current == current && scanner.branch == branch
      ensures scanner.enabledKinds == enabledKinds && this.acceptedPairKeys == acceptedPairKeys
    {
      scanner := new OrderedRemainingExecutionScanner(session, schema, current, branch, enabledKinds);
      this.acceptedPairKeys := acceptedPairKeys;
      started := false;
      nextOtherIndex := 0;
      passages := [];
    }

    method EnableKinds(kinds: set<ConflictKind>)
      requires Valid()
      modifies scanner`enabledKinds
      ensures Valid() && scanner.enabledKinds == old(scanner.enabledKinds) + kinds
    {
      scanner.EnableKinds(kinds);
    }

    /** Accept the conflict the scan is paused on, and advance over it. */
    method AcceptCurrentConflict(remainingOther: seq<LoggedTransaction>, otherIndex: nat, result: ConflictCheckResult, key: ResolutionKey)
      returns (r: Option<ScanConflict>)
      requires Valid() && scanner.running && ValidQueue(remainingOther)
      requires otherIndex == nextOtherIndex < |remainingOther| && scanner.advanced == remainingOther[..nextOtherIndex]
      requires Names(key, scanner.branch, scanner.current, remainingOther[otherIndex])
      modifies this, scanner, scanner.session
      ensures Valid() && scanner.running && started == old(started)
      ensures scanner.base == old(scanner.base) && scanner.outer == old(scanner.outer)
      ensures scanner.savepoint == old(scanner.savepoint) && scanner.enabledKinds == old(scanner.enabledKinds)
      ensures scanner.session.savepoints == old(scanner.session.savepoints)
      ensures acceptedPairKeys == old(acceptedPairKeys) + {key}
      ensures nextOtherIndex <= |remainingOther| && scanner.advanced == remainingOther[..nextOtherIndex]
      ensures passages == old(passages) + (if r.None? then [Accepted(key)] else [])
      ensures r.Some? ==> nextOtherIndex == otherIndex && r.value.otherIndex == Some(otherIndex) && r.value.key == Some(key)
      ensures r.None? ==> nextOtherIndex == otherIndex + 1
      ensures r.None? <==>
        && ReplayTransaction(scanner.session.engine, Main, old(scanner.session.state.main), remainingOther[otherIndex]).Some?
        && ReplayTransaction(scanner.session.engine, Control, old(scanner.session.state.control), remainingOther[otherIndex]).Some?
      ensures r.Some? ==> !Reviewable(r.value.result) && r.value.result != [] && r.value.result[..|r.value.result| - 1] == result
      ensures r.Some? ==> !ClearAt(scanner.session.engine, scanner.schema, scanner.branch, scanner.current, scanner.base, scanner.enabledKinds,
        remainingOther[..otherIndex], remainingOther[otherIndex])
    {
      hide AllPass, Names, OrderedRemainingExecutionScanner.Rolled, ValidTransaction, ClearAt, ReplayTransaction;
      ghost var main, control := scanner.session.state.main, scanner.session.state.control;
      RolledIs();
      AcceptingMoreKeys(scanner.session.engine, scanner.schema, scanner.branch, scanner.current, scanner.base,
        scanner.advanced, passages, acceptedPairKeys, {key});
      acceptedPairKeys := acceptedPairKeys + {key};
      var other := remainingOther[otherIndex];
      var advance := scanner.AcceptNext(other, result);
      if advance != [] {
        assert advance[|result|] in advance && advance[..|result|] == result;
        UnreplayedIsNotClear(scanner.session.engine, scanner.schema, scanner.branch, scanner.current, scanner.base, scanner.enabledKinds,
          remainingOther[..otherIndex], other, main, control);
        return Some(ScanConflict(Some(otherIndex), advance, Some(key)));
      }
      PrefixSnoc(remainingOther, otherIndex);
      OneMorePasses(scanner.session.engine, scanner.schema, scanner.branch, scanner.current, scanner.base,
        old(scanner.advanced), passages, acceptedPairKeys, other, Accepted(key));
      passages := passages + [Accepted(key)];
      nextOtherIndex := nextOtherIndex + 1;
      r := None;
    }

    lemma RolledIs()
      requires scanner.Rolled()
      ensures ReplayAll(scanner.session.engine, Main, scanner.base.main, scanner.advanced) == Some(scanner.session.state.main)
      ensures ReplayAll(scanner.session.engine, Control, scanner.base.control, [scanner.current] + scanner.advanced) == Some(scanner.session.state.control)
    {
    }

    /** Check the next opposite transaction, and move on when it passes or is already accepted. */
    method AdvanceOne(remainingOther: seq<LoggedTransaction>) returns (r: Option<ScanConflict>)
      requires Valid() && ValidQueue(remainingOther) && started && scanner.running
      requires nextOtherIndex < |remainingOther| && scanner.advanced == remainingOther[..nextOtherIndex]
      modifies this, scanner, scanner.session
      ensures Valid() && started && scanner.running && acceptedPairKeys == old(acceptedPairKeys)
      ensures scanner.enabledKinds == old(scanner.enabledKinds)
      ensures scanner.base == old(scanner.base) && scanner.outer == old(scanner.outer)
      ensures scanner.savepoint == old(scanner.savepoint) && scanner.session.savepoints == old(scanner.session.savepoints)
      ensures nextOtherIndex <= |remainingOther| && scanner.advanced == remainingOther[..nextOtherIndex]
      ensures r.None? ==> nextOtherIndex == old(nextOtherIndex) + 1 && |passages| == |old(passages)| + 1 && old(passages) <= passages
      ensures r.None? && passages[|old(passages)|].Checked? ==> passages[|old(passages)|].kinds == scanner.enabledKinds
      ensures r.Some? ==>
        && nextOtherIndex == old(nextOtherIndex) && passages == old(passages) && r.value.otherIndex == Some(nextOtherIndex)
        && r.value.key.Some? && Names(r.value.key.value, scanner.branch, scanner.current, remainingOther[nextOtherIndex])
        && Keyed(scanner.branch, scanner.current, remainingOther[nextOtherIndex], r.value, acceptedPairKeys)
      ensures var clear := ClearAt(scanner.session.engine, scanner.schema, scanner.branch, scanner.current, scanner.base, scanner.enabledKinds,
          remainingOther[..old(nextOtherIndex)], remainingOther[old(nextOtherIndex)]);
        && (clear ==> r.None?) && (r.None? ==> (clear <==> passages[|old(passages)|].Checked?))
      ensures r.None? && passages[|old(passages)|].Accepted? ==> passages[|old(passages)|].key in acceptedPairKeys
    {
      hide AllPass, PassedCheck, Names, ValidTransaction, Passes, Reported, ReplayAll;
      var other := remainingOther[nextOtherIndex];
      ghost var before, earlier := scanner.advanced, passages;
      PrefixSnoc(remainingOther, nextOtherIndex);
      var result := scanner.CheckNext(other);
      ghost var passage;
      if result != [] {
        var key := KeyFor(scanner.branch, scanner.current, other, result);
        NamesKey(key, other, result);
        if key !in acceptedPairKeys {
          return Some(ScanConflict(Some(nextOtherIndex), result, Some(key)));
        }
        var advance := scanner.AcceptNext(other, result);
        if advance != [] {
          assert advance[|result|] in advance && advance[..|result|] == result;
          return Some(ScanConflict(Some(nextOtherIndex), advance, Some(key)));
        }
        passage := Accepted(key);
      } else {
        passage := Checked(scanner.enabledKinds);
      }
      OneMorePasses(scanner.session.engine, scanner.schema, scanner.branch, scanner.current, scanner.base,
        before, earlier, acceptedPairKeys, other, passage);
      passages := passages + [passage];
      nextOtherIndex := nextOtherIndex + 1;
      r := None;
    }

    /** Run the scan to its next conflict, or over the whole remaining suffix. */
    method NextConflict(remainingOther: seq<LoggedTransaction>) returns (r: Option<ScanConflict>)
      requires Valid() && ValidQueue(remainingOther) && (started ==> scanner.running)
      requires nextOtherIndex <= |remainingOther| && scanner.advanced == remainingOther[..nextOtherIndex]
      modifies this, scanner, scanner.session
      ensures Valid() && started && acceptedPairKeys == old(acceptedPairKeys)
      ensures scanner.enabledKinds == old(scanner.enabledKinds)
      ensures old(started) ==>
        && scanner.base == old(scanner.base) && scanner.outer == old(scanner.outer)
        && scanner.savepoint == old(scanner.savepoint) && scanner.session.savepoints == old(scanner.session.savepoints)
      ensures !old(started) ==> scanner.base == old(scanner.session.state) && scanner.outer == old(scanner.session.savepoints)
      ensures old(nextOtherIndex) <= nextOtherIndex <= |remainingOther| && scanner.advanced == remainingOther[..nextOtherIndex]
      ensures old(passages) <= passages
      ensures forall k :: |old(passages)| <= k < |passages| && passages[k].Checked? ==> passages[k].kinds == scanner.enabledKinds
      ensures r.None? ==> scanner.running && nextOtherIndex == |remainingOther|
      ensures !old(started) && acceptedPairKeys == {} ==>
        (r.None? <==> ScanClear(scanner.session.engine, scanner.schema, scanner.branch, scanner.current, scanner.base, scanner.enabledKinds, remainingOther))
      ensures r.Some? && r.value.otherIndex.None? ==>
        !scanner.running && !old(started) && !RunsChecked(scanner.session.engine, Control, scanner.base.control, scanner.current.statements)
      ensures r.Some? && r.value.otherIndex.Some? ==>
        && scanner.running && r.value.otherIndex.value == nextOtherIndex < |remainingOther|
        && r.value.key.Some? && Names(r.value.key.value, scanner.branch, scanner.current, remainingOther[nextOtherIndex])
        && Keyed(scanner.branch, scanner.current, remainingOther[nextOtherIndex], r.value, acceptedPairKeys)
        && !ClearAt(scanner.session.engine, scanner.schema, scanner.branch, scanner.current, scanner.base, scanner.enabledKinds,
             remainingOther[..nextOtherIndex], remainingOther[nextOtherIndex])
    {
      hide AllPass, PassedCheck, Names, ValidTransaction, OrderedRemainingExecutionScanner.Rolled, ClearAt, RunsChecked, Keyed;
      ghost var fresh0 := !started && acceptedPairKeys == {};
      if !started {
        started := true;
        var failed := scanner.Start();
        NothingPassed(scanner.session.engine, scanner.schema, scanner.branch, scanner.current, scanner.base, acceptedPairKeys);
        if failed != [] {
          return Some(ScanConflict(None, failed, None));
        }
      }
      while nextOtherIndex < |remainingOther|
        invariant Valid() && started && scanner.running && acceptedPairKeys == old(acceptedPairKeys)
        invariant scanner.enabledKinds == old(scanner.enabledKinds)
        invariant old(started) ==>
          && scanner.base == old(scanner.base) && scanner.outer == old(scanner.outer)
          && scanner.savepoint == old(scanner.savepoint) && scanner.session.savepoints == old(scanner.session.savepoints)
        invariant !old(started) ==> scanner.base == old(scanner.session.state) && scanner.outer == old(scanner.session.savepoints)
        invariant old(nextOtherIndex) <= nextOtherIndex <= |remainingOther| && scanner.advanced == remainingOther[..nextOtherIndex]
        invariant old(passages) <= passages
        invariant forall k :: |old(passages)| <= k < |passages| && passages[k].Checked? ==> passages[k].kinds == scanner.enabledKinds
        invariant fresh0 ==> RunsChecked(scanner.session.engine, Control, scanner.base.control, scanner.current.statements)
        invariant fresh0 ==> forall k: nat :: k < nextOtherIndex ==>
          ClearAt(scanner.session.engine, scanner.schema, scanner.branch, scanner.current, scanner.base, scanner.enabledKinds, remainingOther[..k], remainingOther[k])
        decreases |remainingOther| - nextOtherIndex
      {
        r := AdvanceOne(remainingOther);
        if r.Some? { return; }
      }
      r := None;
    }

    lemma NamesKey(key: ResolutionKey, other: LoggedTransaction, result: ConflictCheckResult)
      requires key == KeyFor(scanner.branch, scanner.current, other, result)
      ensures Names(key, scanner.branch, scanner.current, other)
    {
    }

    method Close()
      requires Valid()
      modifies this, scanner, scanner.session
      ensures scanner.session.Valid()
      ensures old(started) ==> scanner.session.state == old(scanner.base) && scanner.session.savepoints == old(scanner.outer)
      ensures !old(started) ==> scanner.session.state == old(scanner.session.state) && scanner.session.savepoints == old(scanner.session.savepoints)
    {
      scanner.Close();
    }
  }
}
