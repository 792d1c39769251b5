/** Whole merges: what the loop over both queues leaves behind (src/merge/terminal_mergetool.py:631-687). */
module MergeRun {
  import opened Columns
  import opened Models
  import opened SqlMetadata
  import opened StaticAnalysis
  import opened Database
  import opened Interference
  import opened RemainingExecution
  import opened ConflictDetection
  import opened MergeTool
  import opened RemainingMetadata
  import opened BranchSafety

  // ----- the log -----

  function Groups(txs: seq<LoggedTransaction>): seq<seq<LoggedStatement>> {
    if txs == [] then [] else Groups(txs[..|txs| - 1]) + [txs[|txs| - 1].statements]
  }

  /** The fixed replay order: X1, Y1, X2, Y2, and so on. */
  function Interleave(ours: seq<LoggedTransaction>, theirs: seq<LoggedTransaction>): seq<LoggedTransaction>
    decreases |ours| + |theirs|
  {
    if ours == [] && theirs == [] then []
    else Heads(ours, theirs) + Interleave(Rest(ours), Rest(theirs))
  }

  function Heads(ours: seq<LoggedTransaction>, theirs: seq<LoggedTransaction>): seq<LoggedTransaction> {
    FirstOf(ours) + FirstOf(theirs)
  }

  function FirstOf(queue: seq<LoggedTransaction>): seq<LoggedTransaction> {
    if queue == [] then [] else [queue[0]]
  }

  function Rest(queue: seq<LoggedTransaction>): seq<LoggedTransaction> {
    if queue == [] then [] else queue[1..]
  }

  function Max(a: nat, b: nat): nat {
    if a < b then b else a
  }

  /** `state` is `base` with the accepted transactions replayed on both sides and logged in order. */
  ghost predicate Replayed(e: Engine, base: DbState, accepted: seq<LoggedTransaction>, state: DbState) {
    && ReplayAll(e, Main, base.main, accepted) == Some(state.main)
    && ReplayAll(e, Control, base.control, accepted) == Some(state.control)
    && state.log == base.log + Groups(accepted)
  }

  lemma ReplayedMore(e: Engine, base: DbState, accepted: seq<LoggedTransaction>, before: DbState, tx: LoggedTransaction, after: DbState)
    requires Replayed(e, base, accepted, before) && Applied(e, before, tx, after)
    ensures Replayed(e, base, accepted + [tx], after)
  {
    ReplayAllSnoc(e, Main, base.main, accepted, tx);
    ReplayAllSnoc(e, Control, base.control, accepted, tx);
    assert (accepted + [tx])[..|accepted|] == accepted;
  }

  /** One turn added to what has been accepted. */
  function AcceptedBy(outcome: TurnOutcome): seq<LoggedTransaction> {
    if outcome.HeadAccepted? then [outcome.tx] else []
  }

  lemma ReplayedTurn(e: Engine, base: DbState, accepted: seq<LoggedTransaction>, before: DbState, outcome: TurnOutcome, after: DbState)
    requires Replayed(e, base, accepted, before)
    requires if outcome.HeadAccepted? then Applied(e, before, outcome.tx, after) else after == before
    ensures Replayed(e, base, accepted + AcceptedBy(outcome), after)
  {
    if outcome.HeadAccepted? {
      ReplayedMore(e, base, accepted, before, outcome.tx, after);
    } else {
      assert accepted + [] == accepted;
    }
  }

  // ----- where transactions come from -----

  /** Each is one of `origin`, or the user brought it in. */
  ghost predicate Traced(origin: seq<LoggedTransaction>, replies: seq<Reply>, txs: seq<LoggedTransaction>) {
    forall tx :: tx in txs ==> tx in origin || ProvidedBy(replies, tx)
  }

  ghost predicate StillProvided(replies: seq<Reply>, left: seq<Reply>) {
    forall tx :: ProvidedBy(left, tx) ==> ProvidedBy(replies, tx)
  }

  ghost predicate AllSafe(txs: seq<LoggedTransaction>) {
    forall tx :: tx in txs ==> ReplaySafe(tx)
  }

  /** A run so far: everything queued and accepted is traced, and what was accepted may replay. */
  ghost predicate Accounted(origin: seq<LoggedTransaction>, replies: seq<Reply>, left: seq<Reply>, ours: seq<LoggedTransaction>,
                            theirs: seq<LoggedTransaction>, accepted: seq<LoggedTransaction>)
  {
    && StillProvided(replies, left) && Traced(origin, replies, ours) && Traced(origin, replies, theirs)
    && Traced(origin, replies, accepted) && AllSafe(accepted)
  }

  lemma EvolvedTraced(origin: seq<LoggedTransaction>, replies: seq<Reply>, left: seq<Reply>, before: seq<LoggedTransaction>, after: seq<LoggedTransaction>)
    requires StillProvided(replies, left) && Traced(origin, replies, before)
    requires Evolved(before, after, left)
    ensures Traced(origin, replies, after)
  {
    hide ProvidedBy;
  }

  lemma RestTraced(origin: seq<LoggedTransaction>, replies: seq<Reply>, queue: seq<LoggedTransaction>)
    requires Traced(origin, replies, queue)
    ensures Traced(origin, replies, Rest(queue))
  {
    hide ProvidedBy;
  }

  lemma AcceptedTraced(origin: seq<LoggedTransaction>, replies: seq<Reply>, left: seq<Reply>, queue: seq<LoggedTransaction>,
                       accepted: seq<LoggedTransaction>, outcome: TurnOutcome)
    requires StillProvided(replies, left) && Traced(origin, replies, queue) && Traced(origin, replies, accepted) && AllSafe(accepted)
    requires outcome.HeadAccepted? ==> ReplaySafe(outcome.tx) && (outcome.tx in queue || ProvidedBy(left, outcome.tx))
    ensures Traced(origin, replies, accepted + AcceptedBy(outcome)) && AllSafe(accepted + AcceptedBy(outcome))
  {
    hide ProvidedBy, ReplaySafe;
  }

  lemma LeftProvided(replies: seq<Reply>, before: seq<Reply>, used: seq<Reply>, left: seq<Reply>)
    requires StillProvided(replies, before) && before == used + left
    ensures StillProvided(replies, left)
  {
    RepliesLeft(before, used, left);
  }

  // ----- merges that ask nothing -----

  /** The head of the queue, if there is one, has nothing to ask about. */
  ghost predicate QuietFirst(e: Engine, schema: SchemaCache, branch: Branch, state: DbState, queue: seq<LoggedTransaction>, others: seq<LoggedTransaction>) {
    queue != [] ==> QuietHead(e, schema, branch, state, queue[0], others)
  }

  function AfterFirst(e: Engine, state: DbState, queue: seq<LoggedTransaction>): DbState {
    if queue == [] then state
    else
      var main, control := ReplayTransaction(e, Main, state.main, queue[0]), ReplayTransaction(e, Control, state.control, queue[0]);
      if main.None? || control.None? then state else DbState(main.value, control.value, state.log + [queue[0].statements])
  }

  /** In the fixed order every head has nothing to ask about against what is left opposite. */
  ghost predicate QuietTurns(e: Engine, schema: SchemaCache, state: DbState, ours: seq<LoggedTransaction>, theirs: seq<LoggedTransaction>)
    decreases |ours| + |theirs|
  {
    (ours == [] && theirs == [])
    || (var middle := AfterFirst(e, state, ours);
        && QuietFirst(e, schema, Ours, state, ours, theirs) && QuietFirst(e, schema, Theirs, middle, theirs, Rest(ours))
        && QuietTurns(e, schema, AfterFirst(e, middle, theirs), Rest(ours), Rest(theirs)))
  }

  lemma AppliedIsAfterFirst(e: Engine, before: DbState, queue: seq<LoggedTransaction>, after: DbState)
    requires queue != [] && Applied(e, before, queue[0], after)
    ensures after == AfterFirst(e, before, queue)
  {
    hide ReplayTransaction;
  }

  // ----- the loop -----

  /** One turn, seen by the whole run. */
  method Turn(tool: TerminalMerge, branch: Branch, ghost base: DbState, ghost origin: seq<LoggedTransaction>, ghost replies: seq<Reply>,
              ghost accepted0: seq<LoggedTransaction>)
    returns (stalled: bool, ghost accepted: seq<LoggedTransaction>, ghost spent: seq<Reply>)
    requires tool.Valid() && Replayed(tool.session.engine, base, accepted0, tool.session.state)
    requires Accounted(origin, replies, tool.user.replies, tool.ours, tool.theirs, accepted0)
    modifies tool, tool.session, tool.user, tool.oursIndex, tool.theirsIndex
    ensures tool.Valid() && tool.session.savepoints == old(tool.session.savepoints)
    ensures Replayed(tool.session.engine, base, accepted, tool.session.state)
    ensures !stalled ==> Accounted(origin, replies, tool.user.replies, tool.ours, tool.theirs, accepted)
    ensures old(tool.user.replies) == spent + tool.user.replies
    ensures stalled ==> tool.user.replies == []
    ensures |tool.Queue(branch.Opposite())| <= |old(tool.Queue(branch.Opposite()))|
    ensures !stalled ==> |tool.Queue(branch)| <= |Rest(old(tool.Queue(branch)))|
    ensures !stalled && spent == [] ==>
      && accepted == accepted0 + FirstOf(old(tool.Queue(branch)))
      && tool.Queue(branch) == Rest(old(tool.Queue(branch))) && tool.Queue(branch.Opposite()) == old(tool.Queue(branch.Opposite()))
    ensures QuietFirst(tool.session.engine, tool.schema, branch, old(tool.session.state), old(tool.Queue(branch)), old(tool.Queue(branch.Opposite()))) <==>
      !stalled && spent == []
    ensures !stalled && spent == [] ==> tool.session.state == AfterFirst(tool.session.engine, old(tool.session.state), old(tool.Queue(branch)))
  {
    hide QuietHead, AfterFirst;
    hide TerminalMerge.Valid, Replayed, Applied, CoverageHolds, ReplaySafe, ProvidedBy, StillProvided, Traced, AllSafe, Evolved;
    ghost var state, left, mine, other := tool.session.state, tool.user.replies, tool.Queue(branch), tool.Queue(branch.Opposite());
    ghost var outcome, keys, asked;
    stalled, outcome, keys, spent, asked := tool.CheckAcceptCurrent(branch);
    ReplayedTurn(tool.session.engine, base, accepted0, state, outcome, tool.session.state);
    accepted := accepted0 + AcceptedBy(outcome);
    if !stalled {
      LeftProvided(replies, left, spent, tool.user.replies);
      AcceptedTraced(origin, replies, left, mine, accepted0, outcome);
      EvolvedTraced(origin, replies, left, other, tool.Queue(branch.Opposite()));
      RestTraced(origin, replies, mine);
      assert tool.Queue(branch) == Rest(mine);
    }
    EvolvedLength(other, tool.Queue(branch.Opposite()), left);
    if outcome.HeadAccepted? && spent == [] {
      AppliedIsAfterFirst(tool.session.engine, state, mine, tool.session.state);
    }
    NoFirst(tool.session.engine, state);
  }

  lemma NoFirst(e: Engine, state: DbState)
    ensures AfterFirst(e, state, []) == state
  {
  }

  lemma EvolvedLength(before: seq<LoggedTransaction>, after: seq<LoggedTransaction>, replies: seq<Reply>)
    requires Evolved(before, after, replies)
    ensures |after| <= |before|
  {
  }

  /** One local and one remote turn. */
  method Round(tool: TerminalMerge, ghost base: DbState, ghost origin: seq<LoggedTransaction>, ghost replies: seq<Reply>,
               ghost accepted0: seq<LoggedTransaction>)
    returns (stalled: bool, ghost accepted: seq<LoggedTransaction>, ghost spent: seq<Reply>)
    requires tool.Valid() && Replayed(tool.session.engine, base, accepted0, tool.session.state)
    requires Accounted(origin, replies, tool.user.replies, tool.ours, tool.theirs, accepted0)
    modifies tool, tool.session, tool.user, tool.oursIndex, tool.theirsIndex
    ensures tool.Valid() && tool.session.savepoints == old(tool.session.savepoints)
    ensures Replayed(tool.session.engine, base, accepted, tool.session.state)
    ensures !stalled ==> Accounted(origin, replies, tool.user.replies, tool.ours, tool.theirs, accepted)
    ensures old(tool.user.replies) == spent + tool.user.replies
    ensures stalled ==> tool.user.replies == []
    ensures !stalled ==> |tool.ours| <= |Rest(old(tool.ours))| && |tool.theirs| <= |Rest(old(tool.theirs))|
    ensures !stalled && spent == [] ==>
      && accepted == accepted0 + Heads(old(tool.ours), old(tool.theirs))
      && tool.ours == Rest(old(tool.ours)) && tool.theirs == Rest(old(tool.theirs))
    ensures var e, start := tool.session.engine, old(tool.session.state);
      var middle := AfterFirst(e, start, old(tool.ours));
      && ((&& QuietFirst(e, tool.schema, Ours, start, old(tool.ours), old(tool.theirs))
           && QuietFirst(e, tool.schema, Theirs, middle, old(tool.theirs), Rest(old(tool.ours))))
          <==> (!stalled && spent == []))
      && (!stalled && spent == [] ==> tool.session.state == AfterFirst(e, middle, old(tool.theirs)))
  {
    hide TerminalMerge.Valid, Replayed, Accounted, QuietFirst, AfterFirst, Rest, FirstOf;
    ghost var spent', ours, theirs := [], tool.ours, tool.theirs;
    forall queue { RestLength(queue); }
    stalled, accepted, spent := Turn(tool, Ours, base, origin, replies, accepted0);
    if stalled {
      return;
    }
    stalled, accepted, spent' := Turn(tool, Theirs, base, origin, replies, accepted);
    spent := spent + spent';
    assert accepted0 + (FirstOf(ours) + FirstOf(theirs)) == (accepted0 + FirstOf(ours)) + FirstOf(theirs);
  }

  lemma RestLength(queue: seq<LoggedTransaction>)
    ensures |Rest(queue)| == if queue == [] then 0 else |queue| - 1
  {
  }

  /** Take the queues in turns until both are empty. Whatever the user answers, main and control
      are the accepted transactions replayed in order, the log has exactly one group for each, and
      the rounds are at most the longer queue. With no answer needed the order is the fixed one, and none is needed
      exactly when every head has nothing to ask about. */
  method TakeTurns(tool: TerminalMerge)
    returns (stalled: bool, ghost accepted: seq<LoggedTransaction>, ghost rounds: nat)
    requires tool.Valid()
    modifies tool, tool.session, tool.user, tool.oursIndex, tool.theirsIndex
    ensures tool.Valid() && tool.session.savepoints == old(tool.session.savepoints)
    ensures Replayed(tool.session.engine, old(tool.session.state), accepted, tool.session.state)
    ensures !stalled ==> Traced(old(tool.ours + tool.theirs), old(tool.user.replies), accepted) && AllSafe(accepted)
    ensures rounds <= Max(|old(tool.ours)|, |old(tool.theirs)|)
    ensures !stalled && tool.user.replies == old(tool.user.replies) ==> rounds == Max(|old(tool.ours)|, |old(tool.theirs)|)
    ensures !stalled ==> tool.ours == [] && tool.theirs == []
    ensures stalled ==> tool.user.replies == []
    ensures |tool.user.replies| <= |old(tool.user.replies)|
    ensures !stalled && tool.user.replies == old(tool.user.replies) ==> accepted == Interleave(old(tool.ours), old(tool.theirs))
    ensures QuietTurns(tool.session.engine, tool.schema, old(tool.session.state), old(tool.ours), old(tool.theirs)) <==>
      !stalled && tool.user.replies == old(tool.user.replies)
  {
    hide TerminalMerge.Valid, Replayed, Interleave, Accounted, QuietTurns, QuietFirst, AfterFirst, Traced, AllSafe, Heads, Rest;
    ghost var quiet := QuietTurns(tool.session.engine, tool.schema, tool.session.state, tool.ours, tool.theirs);
    ghost var e, base, order := tool.session.engine, tool.session.state, Interleave(tool.ours, tool.theirs);
    ghost var origin, replies := tool.ours + tool.theirs, tool.user.replies;
    stalled, accepted, rounds := false, [], 0;
    ghost var spent: seq<Reply> := [];
    NothingReplayed(e, base);
    NothingAccounted(tool.ours, tool.theirs, replies);
    while tool.ours != [] || tool.theirs != []
      invariant tool.Valid() && tool.session.savepoints == old(tool.session.savepoints)
      invariant Replayed(e, base, accepted, tool.session.state)
      invariant Accounted(origin, replies, tool.user.replies, tool.ours, tool.theirs, accepted)
      invariant rounds + Max(|tool.ours|, |tool.theirs|) <= Max(|old(tool.ours)|, |old(tool.theirs)|)
      invariant old(tool.user.replies) == spent + tool.user.replies
      invariant spent == [] ==> order == accepted + Interleave(tool.ours, tool.theirs)
      invariant spent == [] ==> rounds + Max(|tool.ours|, |tool.theirs|) == Max(|old(tool.ours)|, |old(tool.theirs)|)
      invariant quiet <==> spent == [] && QuietTurns(e, tool.schema, tool.session.state, tool.ours, tool.theirs)
      decreases Max(|tool.ours|, |tool.theirs|)
    {
      InterleaveStep(tool.ours, tool.theirs);
      RestIsShorter(tool.ours, tool.theirs);
      QuietTurnsStep(e, tool.schema, tool.session.state, tool.ours, tool.theirs);
      ghost var accepted0, more, heads := accepted, [], Heads(tool.ours, tool.theirs);
      stalled, accepted, more := Round(tool, base, origin, replies, accepted);
      spent := spent + more;
      assert accepted0 + (heads + Interleave(tool.ours, tool.theirs)) == (accepted0 + heads) + Interleave(tool.ours, tool.theirs);
      rounds := rounds + 1;
      if stalled {
        return;
      }
    }
    InterleaveNothing();
    NoTurnsQuiet(e, tool.schema, tool.session.state);
    AccountedFor(origin, replies, tool.user.replies, accepted);
  }

  lemma RestIsShorter(ours: seq<LoggedTransaction>, theirs: seq<LoggedTransaction>)
    ensures Max(|Rest(ours)|, |Rest(theirs)|) == if ours == [] && theirs == [] then 0 else Max(|ours|, |theirs|) - 1
  {
  }

  lemma QuietTurnsStep(e: Engine, schema: SchemaCache, state: DbState, ours: seq<LoggedTransaction>, theirs: seq<LoggedTransaction>)
    requires ours != [] || theirs != []
    ensures var middle := AfterFirst(e, state, ours);
      QuietTurns(e, schema, state, ours, theirs) <==>
      && QuietFirst(e, schema, Ours, state, ours, theirs) && QuietFirst(e, schema, Theirs, middle, theirs, Rest(ours))
      && QuietTurns(e, schema, AfterFirst(e, middle, theirs), Rest(ours), Rest(theirs))
  {
    hide QuietFirst, AfterFirst;
  }

  lemma NoTurnsQuiet(e: Engine, schema: SchemaCache, state: DbState)
    ensures QuietTurns(e, schema, state, [], [])
  {
  }

  lemma NothingAccounted(ours: seq<LoggedTransaction>, theirs: seq<LoggedTransaction>, replies: seq<Reply>)
    ensures Accounted(ours + theirs, replies, replies, ours, theirs, [])
  {
    hide ProvidedBy, ReplaySafe;
  }

  lemma AccountedFor(origin: seq<LoggedTransaction>, replies: seq<Reply>, left: seq<Reply>, accepted: seq<LoggedTransaction>)
    requires Accounted(origin, replies, left, [], [], accepted)
    ensures Traced(origin, replies, accepted) && AllSafe(accepted)
  {
  }

  // ----- the whole merge -----

  /** `_resolve_merge_transactions`: both branch-local passes, each from base alone, the index of each queue, and the
      turns. A merge that ends has replayed and logged, in order, transactions of the reviewed branches or supplied by
      the user, none of them blocked; two clean branches that need no reply are merged in the fixed order. */
  method ResolveMergeTransactions(
    e: Engine, schema: SchemaCache, r: Reviewer, base: Db, ours: seq<LoggedTransaction>, theirs: seq<LoggedTransaction>,
    oursReplies: seq<BranchReply>, theirsReplies: seq<BranchReply>, replies: seq<Reply>)
    returns (merged: Option<DbState>, reviewedOurs: seq<LoggedTransaction>, reviewedTheirs: seq<LoggedTransaction>, ghost accepted: seq<LoggedTransaction>)
    requires KeepsTransaction(e) && schema.Valid() && ValidQueue(ours) && ValidQueue(theirs)
    requires ValidReplies(oursReplies) && ValidReplies(theirsReplies) && forall tx :: ProvidedBy(replies, tx) ==> ValidTransaction(tx)
    ensures merged.Some? ==> CleanRun(r, e, base, reviewedOurs) && |reviewedOurs| <= |ours|
    ensures merged.Some? ==> CleanRun(r, e, base, reviewedTheirs) && |reviewedTheirs| <= |theirs|
    ensures merged.Some? ==>
      && Replayed(e, DbState(base, base, []), accepted, merged.value)
      && Traced(reviewedOurs + reviewedTheirs, replies, accepted) && AllSafe(accepted)
    ensures CleanRun(r, e, base, ours) && CleanRun(r, e, base, theirs) && replies == [] && merged.Some? ==>
      accepted == Interleave(ours, theirs)
    ensures CleanRun(r, e, base, ours) && CleanRun(r, e, base, theirs) && QuietTurns(e, schema, DbState(base, base, []), ours, theirs) ==>
      merged.Some? && accepted == Interleave(ours, theirs)
    ensures CleanRun(r, e, base, ours) && CleanRun(r, e, base, theirs) && replies == [] && merged.Some? ==>
      QuietTurns(e, schema, DbState(base, base, []), ours, theirs)
  {
    hide QuietTurns;
    hide CleanRun, ValidTransaction, ValidReplies, Replayed, Interleave, SchemaCache.Valid, ProvidedBy, RemainingMetadataIndex.Agrees;
    var used, stalled;
    merged, reviewedTheirs, accepted := None, [], [];
    reviewedOurs, used, stalled := ResolveBranchReplaySafety(e, base, r, oursReplies, ours);
    if stalled { return; }
    reviewedTheirs, used, stalled := ResolveBranchReplaySafety(e, base, r, theirsReplies, theirs);
    if stalled { return; }
    var session := new Session(e, base);
    var user := new User(replies);
    var oursIndex := FromTransactions(schema, reviewedOurs);
    var theirsIndex := FromTransactions(schema, reviewedTheirs);
    var tool := new TerminalMerge(session, schema, user, oursIndex, theirsIndex, reviewedOurs, reviewedTheirs);
    ghost var rounds;
    stalled, accepted, rounds := TakeTurns(tool);
    if !stalled { merged := Some(session.state); }
  }

  lemma NothingReplayed(e: Engine, base: DbState)
    ensures Replayed(e, base, [], base)
  {
  }

  lemma InterleaveStep(ours: seq<LoggedTransaction>, theirs: seq<LoggedTransaction>)
    requires ours != [] || theirs != []
    ensures Interleave(ours, theirs) == Heads(ours, theirs) + Interleave(Rest(ours), Rest(theirs))
  {
  }

  lemma InterleaveNothing()
    ensures Interleave([], []) == []
  {
  }
}
