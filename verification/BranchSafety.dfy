/** The branch-local safety pass before the merge: each branch is replayed alone on a copy of base, and
    what cannot replay is edited, deleted or acknowledged (src/merge/terminal_mergetool.py:82-321). */
module BranchSafety {
  import opened Columns
  import opened Models
  import opened SqlMetadata
  import opened Database
  import opened MergeTool

  const UPDATE_FROM_DUPLICATE_TARGET_WARNING := "UPDATE FROM has multiple source rows for the same target row"

  /** The reviews that look at SQL text or at the database, as functions. */
  datatype Reviewer = Reviewer(
    storedWarnings: LoggedStatement -> seq<string>,
    duplicateTargets: (LoggedStatement, Db) -> bool,
    resolutionWarning: (LoggedStatement, Db) -> Option<string>)

  /** A warning the user may accept, or a failure that has to be edited away. */
  datatype Issue = Warned(warning: string) | Refused(failure: Failure)

  /** The issue of one transaction, and the statement it is about. */
  datatype ReplayIssue = ReplayIssue(at: Option<nat>, issue: Issue)

  function PendingReplayWarning(s: LoggedStatement): Option<string> {
    if Blocked(s) && s.replayBlockReason.Some? && ACKNOWLEDGEABLE_REPLAY_REASON <= s.replayBlockReason.value
    then s.replayBlockReason else None
  }

  function FirstPending(warnings: seq<string>, accepted: set<string>): (r: Option<string>)
    ensures r.Some? ==> r.value in warnings && r.value != UPDATE_FROM_DUPLICATE_TARGET_WARNING && r.value !in accepted
    ensures r.None? <==> forall w :: w in warnings ==> w == UPDATE_FROM_DUPLICATE_TARGET_WARNING || w in accepted
  {
    if warnings == [] then None
    else if warnings[0] != UPDATE_FROM_DUPLICATE_TARGET_WARNING && warnings[0] !in accepted then Some(warnings[0])
    else
      assert forall w :: w in warnings <==> w == warnings[0] || w in warnings[1..];
      FirstPending(warnings[1..], accepted)
  }

  /** The statement may be run unattended and carries this warning, or is one of the things asked about where it runs. */
  ghost predicate Raises(r: Reviewer, s: LoggedStatement, db: Db, warning: string) {
    || (!s.isReplaySafe && s.replayBlockReason == Some(warning) && ACKNOWLEDGEABLE_REPLAY_REASON <= warning)
    || (warning in r.storedWarnings(s) && warning != UPDATE_FROM_DUPLICATE_TARGET_WARNING)
    || (r.duplicateTargets(s, db) && warning == UPDATE_FROM_DUPLICATE_TARGET_WARNING)
    || r.resolutionWarning(s, db) == Some(warning)
  }

  /** Unsafe for a reason that no acceptance lifts. */
  ghost predicate Unacceptable(s: LoggedStatement) {
    !s.isReplaySafe && !(s.replayBlockReason.Some? && ACKNOWLEDGEABLE_REPLAY_REASON <= s.replayBlockReason.value)
  }

  /** The user has accepted every warning the statement raises here, and it is not blocked for good. */
  ghost predicate Reviewed(r: Reviewer, s: LoggedStatement, db: Db) {
    !Unacceptable(s) && forall w :: Raises(r, s, db, w) ==> w in s.acceptedReplayWarnings
  }

  function BlockReason(s: LoggedStatement): string {
    if s.replayBlockReason.Some? && s.replayBlockReason.value != "" then s.replayBlockReason.value else "statement is unsafe for replay"
  }

  /** Why a statement may not run yet, in the order the source asks. */
  function StatementIssue(r: Reviewer, s: LoggedStatement, db: Db): (issue: Option<Issue>)
    ensures issue.None? <==> Reviewed(r, s, db)
    ensures issue.Some? && issue.value.Warned? ==> Raises(r, s, db, issue.value.warning) && issue.value.warning !in s.acceptedReplayWarnings
    ensures issue.Some? && issue.value.Refused? ==> Unacceptable(s) && issue.value.failure.kind == ReplayError
  {
    var pending := PendingReplayWarning(s);
    var stored := FirstPending(r.storedWarnings(s), s.acceptedReplayWarnings);
    var resolution := r.resolutionWarning(s, db);
    if pending.Some? then Some(Warned(pending.value))
    else if stored.Some? then Some(Warned(stored.value))
    else if Blocked(s) then Some(Refused(Failure(ReplayError, BlockReason(s))))
    else if UPDATE_FROM_DUPLICATE_TARGET_WARNING !in s.acceptedReplayWarnings && r.duplicateTargets(s, db) then
      Some(Warned(UPDATE_FROM_DUPLICATE_TARGET_WARNING))
    else if resolution.Some? && resolution.value !in s.acceptedReplayWarnings then Some(Warned(resolution.value))
    else None
  }

  /** Nothing is left to review or repair: the transaction replays, and every statement is reviewed where it runs. */
  ghost predicate Clean(r: Reviewer, e: Engine, db: Db, tx: LoggedTransaction) {
    && ReplayTransaction(e, Main, db, tx).Some?
    && forall i :: 0 <= i < |tx.statements| ==> CleanAt(r, e, db, tx, i)
  }

  ghost predicate CleanAt(r: Reviewer, e: Engine, db: Db, tx: LoggedTransaction, i: nat)
    requires i < |tx.statements|
  {
    var before := Replay(e, Main, db, tx.statements[..i]);
    before.Some? && Reviewed(r, tx.statements[i], before.value)
  }

  /** The issue shown is that of the first statement that is not reviewed or fails, or the foreign keys broken at the end. */
  ghost predicate IssueShown(r: Reviewer, e: Engine, db: Db, tx: LoggedTransaction, shown: ReplayIssue) {
    match shown.at
    case None =>
      && (forall k :: 0 <= k < |tx.statements| ==> CleanAt(r, e, db, tx, k))
      && Replay(e, Main, db, tx.statements).Some? && shown.issue.Refused? && shown.issue.failure.kind == Integrity
      && e.foreignKeyError(Replay(e, Main, db, tx.statements).value) == Some(shown.issue.failure.message)
    case Some(i) =>
      && i < |tx.statements| && (forall k :: 0 <= k < i ==> CleanAt(r, e, db, tx, k))
      && Replay(e, Main, db, tx.statements[..i]).Some?
      && HasIssue(r, e, Replay(e, Main, db, tx.statements[..i]).value, tx.statements[i], shown.issue)
  }

  /** A warning not yet accepted, a block that stays, or the error of a reviewed statement. */
  ghost predicate HasIssue(r: Reviewer, e: Engine, db: Db, s: LoggedStatement, issue: Issue) {
    match issue
    case Warned(w) => Raises(r, s, db, w) && w !in s.acceptedReplayWarnings
    case Refused(failure) =>
      if Unacceptable(s) then failure.kind == ReplayError else Reviewed(r, s, db) && Execute(e, Main, db, s).failure == Some(failure)
  }

  lemma FoundIssue(e: Engine, r: Reviewer, s: LoggedStatement, db: Db)
    requires StatementIssue(r, s, db).Some?
    ensures HasIssue(r, e, db, s, StatementIssue(r, s, db).value) && !Reviewed(r, s, db)
  {
    hide Raises;
  }

  lemma FailureIssue(e: Engine, r: Reviewer, s: LoggedStatement, db: Db, failure: Failure)
    requires Reviewed(r, s, db) && Execute(e, Main, db, s).failure == Some(failure)
    ensures HasIssue(r, e, db, s, Refused(failure))
  {
    hide Raises, Execute;
  }

  lemma {:induction false} ReplayStuck(e: Engine, db: Db, statements: seq<LoggedStatement>, i: nat)
    requires i <= |statements| && Replay(e, Main, db, statements[..i]).None?
    ensures Replay(e, Main, db, statements).None?
    decreases |statements| - i
  {
    if i == |statements| {
      assert statements[..i] == statements;
    } else {
      ReplaySnoc(e, Main, db, statements, i);
      ReplayStuck(e, db, statements, i + 1);
    }
  }

  /** `_branch_transaction_replay_issue`: apply one transaction, or say why not and leave the copy as it was. */
  method BranchTransactionReplayIssue(session: Session, r: Reviewer, tx: LoggedTransaction) returns (issue: Option<ReplayIssue>)
    requires session.Valid()
    modifies session
    ensures session.Valid() && session.savepoints == old(session.savepoints)
    ensures issue.None? <==> Clean(r, session.engine, old(session.state.main), tx)
    ensures issue.None? ==> session.state == old(session.state).(main := ReplayTransaction(session.engine, Main, old(session.state.main), tx).value)
    ensures issue.Some? ==> session.state == old(session.state)
    ensures issue.Some? ==> IssueShown(r, session.engine, old(session.state.main), tx, issue.value)
  {
    hide StatementIssue, Execute, Apply, Replay, KeepsTransaction, Raises, Reviewed, Unacceptable, HasIssue;
    ghost var start, depth := session.state, |session.savepoints|;
    ReplayNothing(session.engine, Main, start.main);
    var savepoint := session.Begin();
    for i := 0 to |tx.statements|
      invariant session.Valid() && session.savepoints == old(session.savepoints) + [Savepoint(savepoint, start)]
      invariant Replay(session.engine, Main, start.main, tx.statements[..i]) == Some(session.state.main)
      invariant session.state == start.(main := session.state.main)
      invariant forall k :: 0 <= k < i ==> CleanAt(r, session.engine, start.main, tx, k)
    {
      var statement := tx.statements[i];
      var found := StatementIssue(r, statement, session.state.main);
      if found.Some? {
        FoundIssue(session.engine, r, statement, session.state.main);
        assert !CleanAt(r, session.engine, start.main, tx, i);
        session.RollbackSavepoint(savepoint, depth);
        return Some(ReplayIssue(Some(i), found.value));
      }
      ReplaySnoc(session.engine, Main, start.main, tx.statements, i);
      ghost var before := session.state.main;
      var failure := session.RunStatement(Main, statement, false);
      if failure.Some? {
        FailureIssue(session.engine, r, statement, before, failure.value);
        ReplayStuck(session.engine, start.main, tx.statements, i + 1);
        session.RollbackSavepoint(savepoint, depth);
        return Some(ReplayIssue(Some(i), Refused(failure.value)));
      }
    }
    assert tx.statements[..|tx.statements|] == tx.statements;
    var error := session.engine.foreignKeyError(session.state.main);
    if error.Some? {
      session.RollbackSavepoint(savepoint, depth);
      return Some(ReplayIssue(None, Refused(Failure(Integrity, error.value))));
    }
    session.Release(savepoint, depth);
    issue := None;
  }

  // ----- the user -----

  /** A statement of the edited transaction: one kept as it is, or a new one. */
  datatype Piece = Kept(index: nat) | New(statement: LoggedStatement)

  /** An answer to a branch prompt: the edited statements, none to delete the transaction. */
  type BranchReply = seq<Piece>

  ghost predicate ValidReplies(replies: seq<BranchReply>) {
    forall reply, p :: reply in replies && p in reply && p.New? ==> p.statement.metadata.Valid()
  }

  /** `_accept_warning_if_statement_still_present`: only a kept statement takes the acceptance. */
  function Accepting(s: LoggedStatement, index: nat, issue: ReplayIssue): LoggedStatement {
    if issue.issue.Warned? && issue.at == Some(index) then
      s.(acceptedReplayWarnings := s.acceptedReplayWarnings + {issue.issue.warning})
    else s
  }

  function Rebuilt(statements: seq<LoggedStatement>, reply: BranchReply, issue: ReplayIssue): seq<LoggedStatement> {
    if reply == [] then []
    else
      var rest := Rebuilt(statements, reply[1..], issue);
      match reply[0]
      case New(statement) => [statement] + rest
      case Kept(index) => if index < |statements| then [Accepting(statements[index], index, issue)] + rest else rest
  }

  /** Every piece is in its place: the new ones as written, the kept ones as they were, but for the acceptance of the
      warning that was shown. */
  lemma {:induction false} RebuiltPieces(statements: seq<LoggedStatement>, reply: BranchReply, issue: ReplayIssue)
    requires forall p :: p in reply && p.Kept? ==> p.index < |statements|
    ensures |Rebuilt(statements, reply, issue)| == |reply|
    ensures forall k :: 0 <= k < |reply| ==> PiecePlaced(statements, reply[k], issue, Rebuilt(statements, reply, issue)[k])
  {
    if reply != [] {
      assert reply[0] in reply && forall p :: p in reply[1..] ==> p in reply;
      RebuiltPieces(statements, reply[1..], issue);
    }
  }

  ghost predicate PiecePlaced(statements: seq<LoggedStatement>, piece: Piece, issue: ReplayIssue, s: LoggedStatement) {
    match piece
    case New(statement) => s == statement
    case Kept(i) =>
      && i < |statements| && s.(acceptedReplayWarnings := statements[i].acceptedReplayWarnings) == statements[i]
      && forall w :: w in s.acceptedReplayWarnings <==> w in statements[i].acceptedReplayWarnings || issue == ReplayIssue(Some(i), Warned(w))
  }

  lemma {:induction false} RebuiltValid(statements: seq<LoggedStatement>, reply: BranchReply, issue: ReplayIssue)
    requires forall s :: s in statements ==> s.metadata.Valid()
    requires forall p :: p in reply && p.New? ==> p.statement.metadata.Valid()
    ensures forall s :: s in Rebuilt(statements, reply, issue) ==> s.metadata.Valid()
  {
    hide StatementMetadata.Valid;
    if reply != [] {
      RebuiltValid(statements, reply[1..], issue);
      assert reply[0] in reply;
    }
  }

  /** Every statement of the rebuilt transaction is the user's, or an old one with at most the shown warning accepted. */
  lemma {:induction false} RebuiltFrom(statements: seq<LoggedStatement>, reply: BranchReply, issue: ReplayIssue, s: LoggedStatement)
    requires s in Rebuilt(statements, reply, issue)
    ensures New(s) in reply || exists i: nat :: i < |statements| && s == Accepting(statements[i], i, issue)
  {
    if reply != [] {
      assert reply[0] in reply;
      if s in Rebuilt(statements, reply[1..], issue) { RebuiltFrom(statements, reply[1..], issue, s); }
    }
  }

  // ----- one transaction, one branch -----

  /** The answers turn one transaction into another, each given to an issue the transaction then had. */
  ghost predicate EditedTo(r: Reviewer, e: Engine, db: Db, tx: LoggedTransaction, replies: seq<BranchReply>, result: LoggedTransaction)
    decreases |replies|
  {
    if replies == [] then result == tx
    else
      var n := |replies| - 1;
      exists before, issue ::
        && EditedTo(r, e, db, tx, replies[..n], before) && IssueShown(r, e, db, before, issue)
        && Rebuilt(before.statements, replies[n], issue) != []
        && result == WithStatements(before, Rebuilt(before.statements, replies[n], issue))
  }

  /** Or the last of them leaves no statement. */
  ghost predicate EditedAway(r: Reviewer, e: Engine, db: Db, tx: LoggedTransaction, replies: seq<BranchReply>) {
    replies != [] && exists before, issue ::
      && EditedTo(r, e, db, tx, replies[..|replies| - 1], before) && IssueShown(r, e, db, before, issue)
      && Rebuilt(before.statements, replies[|replies| - 1], issue) == []
  }

  ghost predicate Resolved(r: Reviewer, e: Engine, db: Db, tx: LoggedTransaction, replies: seq<BranchReply>, result: Option<LoggedTransaction>) {
    match result
    case Some(one) => EditedTo(r, e, db, tx, replies, one) && Clean(r, e, db, one)
    case None => EditedAway(r, e, db, tx, replies)
  }

  lemma OneMoreEdit(r: Reviewer, e: Engine, db: Db, tx: LoggedTransaction, replies: seq<BranchReply>, reply: BranchReply,
                    before: LoggedTransaction, issue: ReplayIssue)
    requires EditedTo(r, e, db, tx, replies, before) && IssueShown(r, e, db, before, issue)
    ensures var statements := Rebuilt(before.statements, reply, issue);
      if statements == [] then EditedAway(r, e, db, tx, replies + [reply])
      else EditedTo(r, e, db, tx, replies + [reply], WithStatements(before, statements))
  {
    hide IssueShown, Rebuilt;
    assert (replies + [reply])[..|replies|] == replies;
  }

  /** `_resolve_branch_transaction`: ask until the transaction replays or is gone; `used` counts the answers. */
  method ResolveBranchTransaction(session: Session, r: Reviewer, replies: seq<BranchReply>, used0: nat, tx: LoggedTransaction)
    returns (resolved: Option<LoggedTransaction>, used: nat, stalled: bool)
    requires session.Valid() && ValidTransaction(tx) && ValidReplies(replies) && used0 <= |replies|
    modifies session
    ensures session.Valid() && session.savepoints == old(session.savepoints)
    ensures resolved.Some? ==>
      && ValidTransaction(resolved.value) && Clean(r, session.engine, old(session.state.main), resolved.value)
      && session.state == old(session.state).(main := ReplayTransaction(session.engine, Main, old(session.state.main), resolved.value).value)
    ensures resolved.None? ==> session.state == old(session.state)
    ensures !stalled ==> used0 <= used <= |replies| && Resolved(r, session.engine, old(session.state.main), tx, replies[used0..used], resolved)
    ensures used0 <= used <= |replies| && (stalled ==> resolved.None? && used == |replies|)
    ensures Clean(r, session.engine, old(session.state.main), tx) ==> resolved == Some(tx) && used == used0
    ensures used == used0 && !stalled ==> resolved == Some(tx)
  {
    hide Clean, ValidTransaction, ReplayTransaction, ValidReplies, Rebuilt, EditedTo, EditedAway, IssueShown;
    NotEdited(r, session.engine, session.state.main, tx);
    assert replies[used0..used0] == [];
    var current := tx;
    used, stalled, resolved := used0, false, None;
    while true
      invariant session.Valid() && session.savepoints == old(session.savepoints) && session.state == old(session.state)
      invariant ValidTransaction(current) && resolved.None? && !stalled && used0 <= used <= |replies|
      invariant used == used0 ==> current == tx
      invariant EditedTo(r, session.engine, session.state.main, tx, replies[used0..used], current)
      invariant used != used0 ==> !Clean(r, session.engine, session.state.main, tx)
      decreases |replies| - used
    {
      var issue := BranchTransactionReplayIssue(session, r, current);
      if issue.None? {
        resolved := Some(current);
        return;
      }
      if used == |replies| {
        stalled := true;
        return;
      }
      var statements := Rebuilt(current.statements, replies[used], issue.value);
      ReplyKeepsValid(current, replies, used, issue.value);
      OneMoreEdit(r, session.engine, session.state.main, tx, replies[used0..used], replies[used], current, issue.value);
      assert replies[used0..used] + [replies[used]] == replies[used0..used + 1];
      used := used + 1;
      if statements == [] {
        return;
      }
      current := WithStatements(current, statements);
    }
  }

  lemma NotEdited(r: Reviewer, e: Engine, db: Db, tx: LoggedTransaction)
    ensures EditedTo(r, e, db, tx, [], tx)
  {
  }

  /** `_transaction_with_statements`: the metadata follows the statements. */
  function WithStatements(tx: LoggedTransaction, statements: seq<LoggedStatement>): LoggedTransaction {
    LoggedTransaction(tx.transactionId, statements, TransactionOf(Metadatas(statements)))
  }

  lemma ReplyKeepsValid(current: LoggedTransaction, replies: seq<BranchReply>, used: nat, issue: ReplayIssue)
    requires ValidTransaction(current) && ValidReplies(replies) && used < |replies|
    ensures var statements := Rebuilt(current.statements, replies[used], issue);
      statements != [] ==> ValidTransaction(WithStatements(current, statements))
  {
    hide StatementMetadata.Valid, TransactionOf;
    assert replies[used] in replies;
    RebuiltValid(current.statements, replies[used], issue);
  }

  /** The branch replays from base, each transaction clean where it runs. */
  ghost predicate CleanRun(r: Reviewer, e: Engine, base: Db, txs: seq<LoggedTransaction>) {
    && ReplayAll(e, Main, base, txs).Some?
    && forall k :: 0 <= k < |txs| ==> CleanTurn(r, e, base, txs, k)
  }

  ghost predicate CleanTurn(r: Reviewer, e: Engine, base: Db, txs: seq<LoggedTransaction>, k: nat)
    requires k < |txs|
  {
    var before := ReplayAll(e, Main, base, txs[..k]);
    before.Some? && Clean(r, e, before.value, txs[k])
  }

  lemma CleanRunMore(r: Reviewer, e: Engine, base: Db, txs: seq<LoggedTransaction>, tx: LoggedTransaction, before: Db)
    requires CleanRun(r, e, base, txs) && ReplayAll(e, Main, base, txs) == Some(before) && Clean(r, e, before, tx)
    ensures CleanRun(r, e, base, txs + [tx])
    ensures ReplayTransaction(e, Main, before, tx).Some? && ReplayAll(e, Main, base, txs + [tx]) == ReplayTransaction(e, Main, before, tx)
  {
    hide CleanAt;
    ReplayAllSnoc(e, Main, base, txs, tx);
    forall k | 0 <= k < |txs + [tx]| ensures CleanTurn(r, e, base, txs + [tx], k) {
      if k < |txs| {
        assert CleanTurn(r, e, base, txs, k);
        assert (txs + [tx])[..k] == txs[..k];
      } else {
        assert (txs + [tx])[..k] == txs;
      }
    }
  }

  lemma CleanPrefix(r: Reviewer, e: Engine, base: Db, txs: seq<LoggedTransaction>, k: nat)
    requires CleanRun(r, e, base, txs) && k < |txs|
    ensures ReplayAll(e, Main, base, txs[..k]).Some? && Clean(r, e, ReplayAll(e, Main, base, txs[..k]).value, txs[k])
  {
    assert CleanTurn(r, e, base, txs, k);
  }

  /** The branch, transaction by transaction: each resolved by its share of the answers where the earlier ones left base,
      and left out where an answer deleted it. */
  ghost predicate BranchResolved(r: Reviewer, e: Engine, base: Db, txs: seq<LoggedTransaction>, replies: seq<BranchReply>, resolved: seq<LoggedTransaction>)
    decreases |txs|
  {
    if txs == [] then replies == [] && resolved == []
    else
      exists cut: nat, before, one ::
        && cut <= |replies| && BranchResolved(r, e, base, txs[..|txs| - 1], replies[..cut], before)
        && ReplayAll(e, Main, base, before).Some?
        && Resolved(r, e, ReplayAll(e, Main, base, before).value, txs[|txs| - 1], replies[cut..], one)
        && resolved == before + Listed(one)
  }

  function Listed(one: Option<LoggedTransaction>): seq<LoggedTransaction> {
    if one.Some? then [one.value] else []
  }

  lemma OneMoreResolved(r: Reviewer, e: Engine, base: Db, txs: seq<LoggedTransaction>, i: nat, replies: seq<BranchReply>, cut: nat, used: nat,
                        before: seq<LoggedTransaction>, one: Option<LoggedTransaction>)
    requires i < |txs| && cut <= used <= |replies| && BranchResolved(r, e, base, txs[..i], replies[..cut], before)
    requires ReplayAll(e, Main, base, before).Some?
    requires Resolved(r, e, ReplayAll(e, Main, base, before).value, txs[i], replies[cut..used], one)
    ensures BranchResolved(r, e, base, txs[..i + 1], replies[..used], before + Listed(one))
  {
    hide Resolved, ReplayAll;
    assert txs[..i + 1][..i] == txs[..i] && replies[..used][..cut] == replies[..cut] && replies[..used][cut..] == replies[cut..used];
  }

  /** `_resolve_branch_replay_safety`: what is handed to the merge replays from base alone, with nothing unreviewed;
      a branch that was clean comes back unchanged and asks nothing. */
  method ResolveBranchReplaySafety(e: Engine, base: Db, r: Reviewer, replies: seq<BranchReply>, txs: seq<LoggedTransaction>)
    returns (resolved: seq<LoggedTransaction>, used: nat, stalled: bool)
    requires KeepsTransaction(e) && ValidQueue(txs) && ValidReplies(replies)
    ensures used <= |replies| && (stalled ==> used == |replies|)
    ensures !stalled ==> CleanRun(r, e, base, resolved) && ValidQueue(resolved) && |resolved| <= |txs|
    ensures !stalled ==> used <= |replies| && BranchResolved(r, e, base, txs, replies[..used], resolved)
    ensures !stalled && used == 0 ==> resolved == txs
    ensures CleanRun(r, e, base, txs) ==> !stalled && used == 0
  {
    hide CleanRun, Clean, ValidTransaction, ReplayTransaction, ValidReplies, BranchResolved, Resolved;
    var session := new Session(e, base);
    resolved, used, stalled := [], 0, false;
    NothingClean(r, e, base);
    assert replies[..0] == [] && txs[..0] == [];
    for i := 0 to |txs|
      invariant session.Valid() && session.engine == e && session.savepoints == []
      invariant CleanRun(r, e, base, resolved) && ReplayAll(e, Main, base, resolved) == Some(session.state.main)
      invariant ValidQueue(resolved) && |resolved| <= i
      invariant !stalled && used <= |replies|
      invariant used == 0 ==> resolved == txs[..i]
      invariant BranchResolved(r, e, base, txs[..i], replies[..used], resolved)
      invariant CleanRun(r, e, base, txs) ==> used == 0
    {
      PrefixSnoc(txs, i);
      if CleanRun(r, e, base, txs) { CleanPrefix(r, e, base, txs, i); }
      ghost var before, cut, done := session.state.main, used, resolved;
      var one;
      one, used, stalled := ResolveBranchTransaction(session, r, replies, used, txs[i]);
      if stalled { return; }
      OneMoreResolved(r, e, base, txs, i, replies, cut, used, done, one);
      if one.Some? {
        CleanRunMore(r, e, base, resolved, one.value, before);
        resolved := resolved + [one.value];
      } else {
        assert done + Listed(one) == done;
      }
    }
    assert txs[..|txs|] == txs;
  }

  lemma NothingClean(r: Reviewer, e: Engine, base: Db)
    ensures CleanRun(r, e, base, []) && BranchResolved(r, e, base, [], [], [])
  {
  }

  /** So every transaction that enters the queues may replay automatically. */
  lemma CleanRunIsSafe(r: Reviewer, e: Engine, base: Db, txs: seq<LoggedTransaction>, tx: LoggedTransaction)
    requires CleanRun(r, e, base, txs) && tx in txs
    ensures ReplaySafe(tx)
  {
    hide ReplayAll, Replay, ReplayTransaction;
    var k :| 0 <= k < |txs| && txs[k] == tx;
    CleanPrefix(r, e, base, txs, k);
    forall s | s in tx.statements ensures !Blocked(s) {
      var i :| 0 <= i < |tx.statements| && tx.statements[i] == s;
      assert CleanAt(r, e, ReplayAll(e, Main, base, txs[..k]).value, tx, i);
    }
  }
}
