/** The fixed-order merge loop: queue heads taken in turn, checked against the whole opposite
    queue, edited or deleted by the user, and applied (src/merge/terminal_mergetool.py). */
module MergeTool {
  import opened Columns
  import opened Models
  import opened SqlMetadata
  import opened StaticAnalysis
  import opened RemainingMetadata
  import opened RemainingChecks
  import opened IndexRefinement
  import opened Database
  import opened AcceptedReplay
  import opened Interference
  import opened RemainingExecution
  import opened ConflictDetection

  // ----- replay safety of single statements -----

  /** The one block reason a user may acknowledge (src/merge/log_merge.py). */
  const ACKNOWLEDGEABLE_REPLAY_REASON := "nondeterministic expression cannot be safely materialized"

  /** The statement may not replay: unsafe, and not acknowledged for a reviewable reason. */
  predicate Blocked(s: LoggedStatement) {
    && !s.isReplaySafe
    && !(&& s.replayBlockReason.Some?
         && ACKNOWLEDGEABLE_REPLAY_REASON <= s.replayBlockReason.value
         && s.replayBlockReason.value in s.acceptedReplayWarnings)
  }

  predicate ReplaySafe(tx: LoggedTransaction) {
    forall s :: s in tx.statements ==> !Blocked(s)
  }

  // ----- the user -----

  datatype SideReply = Keep | Change(replacement: Option<LoggedTransaction>)

  /** One answer to a prompt. `Change(None)` and `Replace(None)` delete the transaction. */
  datatype Reply = Replace(replacement: Option<LoggedTransaction>) | PairAccept | PairResolve(current: SideReply, other: SideReply)
  {
    /** The transactions the reply brings in. */
    function Provides(): set<LoggedTransaction> {
      match this
      case Replace(Some(tx)) => {tx}
      case PairResolve(c, o) =>
        (if c.Change? && c.replacement.Some? then {c.replacement.value} else {})
        + (if o.Change? && o.replacement.Some? then {o.replacement.value} else {})
      case _ => {}
    }
  }

  ghost predicate ProvidedBy(replies: seq<Reply>, tx: LoggedTransaction) {
    exists r :: r in replies && tx in r.Provides()
  }

  /** The user as the list of answers still to come. */
  class User {
    var replies: seq<Reply>

    ghost predicate Valid()
      reads this
    {
      forall tx :: ProvidedBy(replies, tx) ==> ValidTransaction(tx)
    }

    constructor (replies: seq<Reply>)
      requires forall tx :: ProvidedBy(replies, tx) ==> ValidTransaction(tx)
      ensures this.replies == replies && Valid()
    {
      this.replies := replies;
    }

    method Answer() returns (r: Reply)
      requires Valid() && replies != []
      modifies this
      ensures Valid() && old(replies) == [r] + replies
      ensures forall tx :: tx in r.Provides() ==> ValidTransaction(tx) && ProvidedBy(old(replies), tx)
    {
      r := replies[0];
      assert r in replies;
      assert forall s :: s in replies[1..] ==> s in replies;
      assert forall tx :: ProvidedBy(replies[1..], tx) ==> ProvidedBy(replies, tx);
      replies := replies[1..];
    }
  }

  // ----- what acceptance guarantees -----

  /** Every kind the pairwise checks flag for a pair is among `kinds`. */
  ghost predicate KindsCover(schema: SchemaCache, branch: Branch, current: LoggedTransaction, kinds: set<ConflictKind>, other: LoggedTransaction) {
    && (TransactionWriteReadOverlap(current.metadata, other.metadata) ==> WriteRead in kinds)
    && (ConstraintConflictPossible(schema, current.metadata, other.metadata) ==> Integrity in kinds)
    && (TransactionImplicitKeyConflict(schema, CurrentOurs(branch, current, other), CurrentTheirs(branch, current, other)) ==>
          ImplicitInsertKey in kinds)
    && ((exists m, n :: m in current.metadata.statements && n in other.metadata.statements && StatementsClash(m, n)) ==>
          WriteWrite in kinds)
  }

  ghost predicate KindsCoverQueue(schema: SchemaCache, branch: Branch, current: LoggedTransaction, kinds: set<ConflictKind>, queue: seq<LoggedTransaction>) {
    forall tx :: tx in queue ==> KindsCover(schema, branch, current, kinds, tx)
  }

  /** The index-derived kinds cover every pair with the indexed queue. */
  lemma IndexCovers(schema: SchemaCache, branch: Branch, current: LoggedTransaction, index: RemainingMetadataIndex, queue: seq<LoggedTransaction>)
    requires schema.Valid() && ValidTransaction(current) && ValidQueue(queue) && index.Agrees(schema, queue)
    ensures KindsCoverQueue(schema, branch, current, RemainingIndividualCheckKinds(schema, current, index), queue)
  {
    hide TransactionWriteReadOverlap, ConstraintConflictPossible, ImplicitKeyConflict, StatementsClash, HiddenKeyWrite, ValidTransaction, ValidQueue, RemainingIndividualCheckKinds;
    KindsMeaning(schema, current, index, queue);
    forall tx | tx in queue
      ensures KindsCover(schema, branch, current, RemainingIndividualCheckKinds(schema, current, index), tx)
    {
      forall m, n { ImplicitKeySymmetric(schema, m, n); }
    }
  }

  lemma ImplicitKeySymmetric(schema: SchemaCache, m: StatementMetadata, n: StatementMetadata)
    ensures ImplicitKeyConflict(schema, m, n) <==> ImplicitKeyConflict(schema, n, m)
  {
  }

  // ----- heads that ask nothing -----

  /** The checks a head needs against a queue, in pairwise terms. */
  ghost function NeededKinds(schema: SchemaCache, current: LoggedTransaction, queue: seq<LoggedTransaction>): set<ConflictKind> {
    (if SomeClash(current, queue) then {WriteWrite} else {})
    + (if SomeWriteRead(current, queue) then {WriteRead} else {})
    + (if SomeImplicitKey(schema, current, queue) || SomeHiddenKeyWrite(schema, current, queue) then {ImplicitInsertKey} else {})
    + (if SomeConstraintConflict(schema, current, queue) then {Integrity} else {})
  }

  ghost predicate Replays(e: Engine, state: DbState, tx: LoggedTransaction) {
    ReplayTransaction(e, Main, state.main, tx).Some? && ReplayTransaction(e, Control, state.control, tx).Some?
  }

  /** Both sides replay the transaction, and the log takes it. */
  ghost predicate CanApply(e: Engine, state: DbState, tx: LoggedTransaction) {
    && Replays(e, state, tx) && e.logError(state.log, tx.statements).None?
  }

  /** A head with nothing to ask about: it may replay, it applies, and either no check is needed or every opposite
      transaction passes the checks that are. */
  ghost predicate QuietHead(e: Engine, schema: SchemaCache, branch: Branch, state: DbState, head: LoggedTransaction, others: seq<LoggedTransaction>) {
    var kinds := NeededKinds(schema, head, others);
    ReplaySafe(head) && CanApply(e, state, head) && (kinds == {} || ScanClear(e, schema, branch, head, state, kinds, others))
  }

  lemma KindsNeeded(schema: SchemaCache, current: LoggedTransaction, index: RemainingMetadataIndex, queue: seq<LoggedTransaction>)
    requires schema.Valid() && ValidTransaction(current) && ValidQueue(queue) && index.Agrees(schema, queue)
    ensures RemainingIndividualCheckKinds(schema, current, index) == NeededKinds(schema, current, queue)
  {
    hide SomeWriteRead, SomeConstraintConflict, SomeClash, SomeImplicitKey, SomeHiddenKeyWrite, RemainingIndividualCheckKinds, ValidTransaction, ValidQueue,
      RemainingMetadataIndex.Agrees, SchemaCache.Valid;
    KindsMeaning(schema, current, index, queue);
  }

  datatype Coverage = Unchecked | Scanned(passages: seq<Passage>)

  /** How the accepted head met the opposite queue: no check kind was needed for any of it, or
      every transaction now in it passed its check under all the kinds it needs, or was
      advanced over after the user accepted that very pair. */
  ghost predicate CoverageHolds(
    e: Engine, schema: SchemaCache, branch: Branch, current: LoggedTransaction, base: DbState,
    others: seq<LoggedTransaction>, coverage: Coverage, accepted: set<ResolutionKey>)
  {
    match coverage
    case Unchecked => KindsCoverQueue(schema, branch, current, {}, others)
    case Scanned(passages) =>
      && AllPass(e, schema, branch, current, base, others, passages, accepted)
      && CheckedKindsCover(schema, branch, current, others, passages)
  }

  ghost predicate CheckedKindsCover(schema: SchemaCache, branch: Branch, current: LoggedTransaction, others: seq<LoggedTransaction>, passages: seq<Passage>) {
    && |others| == |passages|
    && forall k :: 0 <= k < |passages| && passages[k].Checked? ==> KindsCover(schema, branch, current, passages[k].kinds, others[k])
  }

  datatype TurnOutcome = NothingQueued | HeadRemoved | HeadAccepted(tx: LoggedTransaction, coverage: Coverage) | Stalled

  datatype StandaloneOutcome = CurrentRemoved | CurrentChanged | CurrentUnchanged

  datatype SideOutcome = Unchanged | Edited | Deleted

  /** What the user is asked about: the head alone, or the head and the opposite transaction at `index`. */
  datatype Prompt = Alone | Pair(index: nat, reviewable: bool)
  {
    predicate Fits(other: seq<LoggedTransaction>) { Pair? ==> index < |other| }
  }

  function PromptFor(pause: ScanConflict): Prompt {
    if pause.otherIndex.None? then Alone else Pair(pause.otherIndex.value, Reviewable(pause.result))
  }

  /** The two halves of an answer to a pair prompt; an answer of another shape keeps both. */
  function CurrentHalf(reply: Reply): SideReply { if reply.PairResolve? then reply.current else Keep }

  function OtherHalf(reply: Reply): SideReply { if reply.PairResolve? then reply.other else Keep }

  /** The head's queue and the opposite one after one answer. */
  function QueuesAfter(prompt: Prompt, reply: Reply, mine: seq<LoggedTransaction>, other: seq<LoggedTransaction>)
    : (seq<LoggedTransaction>, seq<LoggedTransaction>)
    requires mine != [] && prompt.Fits(other)
  {
    match prompt
    case Alone =>
      (match reply
       case Replace(None) => mine[1..]
       case Replace(Some(tx)) => [tx] + mine[1..]
       case _ => mine, other)
    case Pair(i, _) => (Changed(mine, 0, CurrentHalf(reply)), Changed(other, i, OtherHalf(reply)))
  }

  /** What one pass over the head did: taken without asking, out of replies before an answer, or one answer, which says
      what becomes of both queues. */
  ghost predicate OnePass(prompt: Prompt, verdict: Verdict, used: seq<Reply>, mine: seq<LoggedTransaction>, other: seq<LoggedTransaction>,
                          mine': seq<LoggedTransaction>, other': seq<LoggedTransaction>, replies: seq<Reply>, left: seq<Reply>)
  {
    && mine != [] && prompt.Fits(other) && replies == used + left
    && match verdict
       case Taken => used == [] && (mine', other') == (mine[1..], other)
       case OutOfReplies => used == [] && left == [] && (mine', other') == (mine, other)
       case _ =>
         && |used| == 1 && (verdict.Gone? <==> TakesHead(prompt, used[0]))
         && (mine', other') == QueuesAfter(prompt, used[0], mine, other)
  }

  lemma OnePassEvolves(prompt: Prompt, verdict: Verdict, used: seq<Reply>, mine: seq<LoggedTransaction>, other: seq<LoggedTransaction>,
                       mine': seq<LoggedTransaction>, other': seq<LoggedTransaction>, replies: seq<Reply>, left: seq<Reply>)
    requires OnePass(prompt, verdict, used, mine, other, mine', other', replies, left)
    ensures Evolved(other, other', replies)
    ensures verdict.Retry? ==> HeadEvolved(mine, mine', replies)
    ensures verdict.Gone? ==> mine' == mine[1..]
  {
    hide ProvidedBy;
    if used != [] {
      var reply := used[0];
      assert reply in replies;
      Provided(replies, reply);
      if prompt.Pair? {
        assert Without(mine, 0) == mine[1..];
        ChangedEvolves(other, prompt.index, OtherHalf(reply), replies, reply);
      }
    }
  }

  lemma Provided(replies: seq<Reply>, reply: Reply)
    requires reply in replies
    ensures forall tx :: tx in reply.Provides() ==> ProvidedBy(replies, tx)
  {
  }

  /** And after a list of them. There is no result when a prompt does not fit the queues it meets. */
  function QueuesAfterAll(asked: seq<Prompt>, replies: seq<Reply>, mine: seq<LoggedTransaction>, other: seq<LoggedTransaction>)
    : Option<(seq<LoggedTransaction>, seq<LoggedTransaction>)>
  {
    if |asked| != |replies| then None
    else if asked == [] then Some((mine, other))
    else
      var n := |asked| - 1;
      match QueuesAfterAll(asked[..n], replies[..n], mine, other)
      case None => None
      case Some((m, o)) => if m != [] && asked[n].Fits(o) then Some(QueuesAfter(asked[n], replies[n], m, o)) else None
  }

  /** The answer takes the head away. */
  predicate TakesHead(prompt: Prompt, reply: Reply) {
    match prompt
    case Alone => reply == Replace(None)
    case Pair(_, _) => CurrentHalf(reply) == Change(None)
  }

  /** The user is asked about a head alone only when it is blocked, does not run or does not apply, and about a pair
      only when the check at that place did not pass. */
  ghost predicate Justified(e: Engine, schema: SchemaCache, branch: Branch, start: DbState, mine: seq<LoggedTransaction>,
                            other: seq<LoggedTransaction>, prompt: Prompt)
  {
    && mine != []
    && match prompt
       case Alone =>
         !(ReplaySafe(mine[0]) && RunsChecked(e, Control, start.control, mine[0].statements) && CanApply(e, start, mine[0]))
       case Pair(i, _) =>
         ReplaySafe(mine[0]) && i < |other| && exists kinds :: !ClearAt(e, schema, branch, mine[0], start, kinds, other[..i], other[i])
  }

  lemma AloneJustified(e: Engine, schema: SchemaCache, branch: Branch, start: DbState, mine: seq<LoggedTransaction>, other: seq<LoggedTransaction>)
    requires mine != []
    requires !ReplaySafe(mine[0]) || !RunsChecked(e, Control, start.control, mine[0].statements) || !CanApply(e, start, mine[0])
    ensures Justified(e, schema, branch, start, mine, other, Alone)
  {
    hide ReplaySafe, RunsChecked, CanApply;
  }

  ghost predicate AllJustified(e: Engine, schema: SchemaCache, branch: Branch, start: DbState, mine: seq<LoggedTransaction>,
                               other: seq<LoggedTransaction>, asked: seq<Prompt>, replies: seq<Reply>)
    requires |asked| == |replies|
  {
    forall k :: 0 <= k < |asked| ==>
      match QueuesAfterAll(asked[..k], replies[..k], mine, other)
      case None => false
      case Some((m, o)) => Justified(e, schema, branch, start, m, o, asked[k])
  }

  /** An accepted pair is passed: what the user is asked next is a later pair, the head alone, or the same pair if it
      does not replay, which cannot be accepted again. */
  predicate PassedBy(prompt: Prompt, reply: Reply, next: Prompt) {
    prompt.Pair? && prompt.reviewable && reply.PairAccept? ==>
      next.Alone? || prompt.index < next.index || (prompt.index == next.index && !next.reviewable)
  }

  predicate MovesOn(asked: seq<Prompt>, replies: seq<Reply>)
    requires |asked| == |replies|
  {
    forall k :: 0 < k < |asked| ==> PassedBy(asked[k - 1], replies[k - 1], asked[k])
  }

  /** A turn's conversation: each prompt was needed, no accepted pair is put again, and only a last answer takes the
      head away. */
  ghost predicate Conversation(e: Engine, schema: SchemaCache, branch: Branch, start: DbState, mine: seq<LoggedTransaction>,
                               other: seq<LoggedTransaction>, asked: seq<Prompt>, replies: seq<Reply>, gone: bool)
  {
    && |asked| == |replies| && AllJustified(e, schema, branch, start, mine, other, asked, replies) && MovesOn(asked, replies)
    && forall k :: 0 <= k < |asked| ==> (TakesHead(asked[k], replies[k]) <==> gone && k == |asked| - 1)
  }

  lemma OneMoreJustified(e: Engine, schema: SchemaCache, branch: Branch, start: DbState, mine: seq<LoggedTransaction>, other: seq<LoggedTransaction>,
                         asked: seq<Prompt>, replies: seq<Reply>, prompt: Prompt, reply: Reply, m: seq<LoggedTransaction>, o: seq<LoggedTransaction>)
    requires |asked| == |replies| && AllJustified(e, schema, branch, start, mine, other, asked, replies)
    requires QueuesAfterAll(asked, replies, mine, other) == Some((m, o)) && Justified(e, schema, branch, start, m, o, prompt)
    ensures AllJustified(e, schema, branch, start, mine, other, asked + [prompt], replies + [reply])
  {
    hide Justified, QueuesAfterAll;
    forall k | 0 <= k <= |asked|
      ensures (asked + [prompt])[..k] == asked[..k] && (replies + [reply])[..k] == replies[..k]
    {
    }
    assert asked[..|asked|] == asked && replies[..|asked|] == replies;
  }

  lemma OneMorePrompt(e: Engine, schema: SchemaCache, branch: Branch, start: DbState, mine: seq<LoggedTransaction>, other: seq<LoggedTransaction>,
                      asked: seq<Prompt>, replies: seq<Reply>, prompt: Prompt, reply: Reply, m: seq<LoggedTransaction>, o: seq<LoggedTransaction>)
    requires Conversation(e, schema, branch, start, mine, other, asked, replies, false)
    requires QueuesAfterAll(asked, replies, mine, other) == Some((m, o)) && Justified(e, schema, branch, start, m, o, prompt)
    requires asked != [] ==> PassedBy(asked[|asked| - 1], replies[|replies| - 1], prompt)
    ensures Conversation(e, schema, branch, start, mine, other, asked + [prompt], replies + [reply], TakesHead(prompt, reply))
  {
    hide Justified, QueuesAfterAll, PassedBy, TakesHead;
    hide AllJustified;
    OneMoreJustified(e, schema, branch, start, mine, other, asked, replies, prompt, reply, m, o);
  }

  lemma NothingAsked(e: Engine, schema: SchemaCache, branch: Branch, start: DbState, replies: seq<Reply>, mine: seq<LoggedTransaction>,
                     other: seq<LoggedTransaction>)
    ensures Evolved(other, other, replies) && Conversation(e, schema, branch, start, mine, other, [], [], false)
    ensures QueuesAfterAll([], [], mine, other) == Some((mine, other))
    ensures mine != [] ==> TurnSoFar(e, schema, branch, start, replies, replies, mine, other, mine, other, [], [], Retry, NothingQueued)
  {
  }

  /** What a turn leaves: the queues the answers made, without an accepted head. */
  ghost predicate Left(outcome: TurnOutcome, queues: Option<(seq<LoggedTransaction>, seq<LoggedTransaction>)>, mine: seq<LoggedTransaction>,
                       other: seq<LoggedTransaction>)
  {
    && queues.Some? && queues.value.1 == other
    && if outcome.HeadAccepted? then queues.value.0 == [outcome.tx] + mine else queues.value.0 == mine
  }

  lemma OneMoreAnswer(asked: seq<Prompt>, prompt: Prompt, replies: seq<Reply>, reply: Reply, mine: seq<LoggedTransaction>, other: seq<LoggedTransaction>,
                      m: seq<LoggedTransaction>, o: seq<LoggedTransaction>)
    requires QueuesAfterAll(asked, replies, mine, other) == Some((m, o)) && m != [] && prompt.Fits(o)
    ensures QueuesAfterAll(asked + [prompt], replies + [reply], mine, other) == Some(QueuesAfter(prompt, reply, m, o))
  {
    hide QueuesAfter;
    assert (asked + [prompt])[..|asked|] == asked && (replies + [reply])[..|replies|] == replies;
  }

  datatype PairOutcome = PairAccepted | PairResolved(current: SideOutcome, other: SideOutcome)

  function SideOutcomeOf(reply: SideReply): SideOutcome {
    if reply.Keep? then Unchanged else if reply.replacement.None? then Deleted else Edited
  }

  function Changed(queue: seq<LoggedTransaction>, i: nat, reply: SideReply): seq<LoggedTransaction>
    requires i < |queue|
  {
    if reply.Keep? then queue
    else if reply.replacement.None? then Without(queue, i)
    else queue[i := reply.replacement.value]
  }

  // ----- the tool -----

  class TerminalMerge {
    const session: Session
    const schema: SchemaCache
    const user: User
    const oursIndex: RemainingMetadataIndex
    const theirsIndex: RemainingMetadataIndex
    var ours: seq<LoggedTransaction>
    var theirs: seq<LoggedTransaction>

    function Queue(branch: Branch): seq<LoggedTransaction>
      reads this
    {
      if branch.Ours? then ours else theirs
    }

    function Index(branch: Branch): RemainingMetadataIndex {
      if branch.Ours? then oursIndex else theirsIndex
    }

    ghost predicate Valid()
      reads this, session, user, oursIndex, theirsIndex
    {
      && oursIndex != theirsIndex
      && schema.Valid() && session.Valid() && user.Valid()
      && ValidQueue(ours) && ValidQueue(theirs)
      && oursIndex.Agrees(schema, ours) && theirsIndex.Agrees(schema, theirs)
    }

    constructor (session: Session, schema: SchemaCache, user: User, oursIndex: RemainingMetadataIndex, theirsIndex: RemainingMetadataIndex,
                 ours: seq<LoggedTransaction>, theirs: seq<LoggedTransaction>)
      requires schema.Valid() && session.Valid() && user.Valid() && oursIndex != theirsIndex
      requires ValidQueue(ours) && ValidQueue(theirs) && oursIndex.Agrees(schema, ours) && theirsIndex.Agrees(schema, theirs)
      ensures Valid() && this.session == session && this.user == user && this.schema == schema
      ensures this.oursIndex == oursIndex && this.theirsIndex == theirsIndex && this.ours == ours && this.theirs == theirs
    {
      this.session := session;
      this.schema := schema;
      this.user := user;
      this.oursIndex := oursIndex;
      this.theirsIndex := theirsIndex;
      this.ours := ours;
      this.theirs := theirs;
    }

    /** Replace or delete one queued transaction, keeping its branch's index in step. */
    method ReplaceOrDelete(branch: Branch, i: nat, replacement: Option<LoggedTransaction>)
      requires Valid() && i < |Queue(branch)|
      requires replacement.Some? ==> ValidTransaction(replacement.value)
      modifies this, Index(branch)
      ensures Valid()
      ensures Queue(branch) == Changed(old(Queue(branch)), i, Change(replacement))
      ensures Queue(branch) == if replacement.Some? then old(Queue(branch))[i := replacement.value] else old(Queue(branch))[..i] + old(Queue(branch))[i + 1..]
      ensures Queue(branch.Opposite()) == old(Queue(branch.Opposite()))
    {
      hide ValidTransaction, CountsQueue;
      var queue := Queue(branch);
      assert queue[i] in queue;
      Index(branch).RemoveTransaction(schema, queue[i], queue, i);
      var queue' := Changed(queue, i, Change(replacement));
      if replacement.Some? {
        Index(branch).AddTransaction(schema, replacement.value, Without(queue, i));
        ReplacedMultiset(queue, i, replacement.value);
        Index(branch).AgreesReordered(schema, Without(queue, i) + [replacement.value], queue');
      }
      assert ValidQueue(queue');
      if branch.Ours? { ours := queue'; } else { theirs := queue'; }
    }

    lemma ReplacedMultiset(queue: seq<LoggedTransaction>, i: nat, tx: LoggedTransaction)
      requires i < |queue|
      ensures multiset(Without(queue, i) + [tx]) == multiset(queue[i := tx])
    {
      assert queue[i := tx] == queue[..i] + [tx] + queue[i + 1..];
    }

    /** Apply one side of a reply. */
    method ChangeSide(branch: Branch, i: nat, reply: SideReply)
      requires Valid() && i < |Queue(branch)|
      requires reply.Change? && reply.replacement.Some? ==> ValidTransaction(reply.replacement.value)
      modifies this, Index(branch)
      ensures Valid()
      ensures Queue(branch) == Changed(old(Queue(branch)), i, reply)
      ensures Queue(branch.Opposite()) == old(Queue(branch.Opposite()))
    {
      if reply.Change? { ReplaceOrDelete(branch, i, reply.replacement); }
    }

    /** Ask about a head that failed on its own. A pair answer does not fit and changes nothing. */
    method ResolveStandalone(branch: Branch) returns (outcome: StandaloneOutcome, ghost reply: Reply)
      requires Valid() && Queue(branch) != [] && user.replies != []
      modifies this, user, Index(branch)
      ensures Valid() && old(user.replies) == [reply] + user.replies
      ensures Queue(branch.Opposite()) == old(Queue(branch.Opposite()))
      ensures match outcome
        case CurrentRemoved => Queue(branch) == old(Queue(branch))[1..]
        case CurrentChanged => |Queue(branch)| == |old(Queue(branch))| && Queue(branch)[1..] == old(Queue(branch))[1..]
                               && Queue(branch)[0] in reply.Provides()
        case CurrentUnchanged => Queue(branch) == old(Queue(branch))
      ensures (Queue(branch), Queue(branch.Opposite())) == QueuesAfter(Alone, reply, old(Queue(branch)), old(Queue(branch.Opposite())))
      ensures (outcome.CurrentRemoved? <==> reply == Replace(None)) && (outcome.CurrentChanged? <==> reply.Replace? && reply.replacement.Some?)
      ensures forall tx :: tx in reply.Provides() ==> ProvidedBy(old(user.replies), tx)
    {
      hide RemainingMetadataIndex.Agrees, ValidQueue, Session.Valid, SchemaCache.Valid, ValidTransaction;
      var answer := user.Answer();
      reply := answer;
      if !answer.Replace? {
        return CurrentUnchanged, reply;
      }
      if answer.replacement.Some? { assert answer.replacement.value in answer.Provides(); }
      ghost var queue := Queue(branch);
      ReplaceOrDelete(branch, 0, answer.replacement);
      assert Without(queue, 0) == queue[1..];
      assert answer.replacement.Some? ==> queue[0 := answer.replacement.value] == [answer.replacement.value] + queue[1..];
      outcome := if answer.replacement.None? then CurrentRemoved else CurrentChanged;
    }

    /** Ask about a pair conflict. An answer the prompt does not offer changes nothing. */
    method ResolvePair(branch: Branch, conflict: ScanConflict) returns (outcome: PairOutcome, ghost reply: Reply)
      requires Valid() && Queue(branch) != [] && user.replies != []
      requires conflict.otherIndex.Some? && conflict.otherIndex.value < |Queue(branch.Opposite())|
      modifies this, user, oursIndex, theirsIndex
      ensures Valid() && old(user.replies) == [reply] + user.replies
      ensures outcome == if reply.PairAccept? && Reviewable(conflict.result) then PairAccepted
                         else PairResolved(SideOutcomeOf(CurrentHalf(reply)), SideOutcomeOf(OtherHalf(reply)))
      ensures (Queue(branch), Queue(branch.Opposite())) ==
        QueuesAfter(PromptFor(conflict), reply, old(Queue(branch)), old(Queue(branch.Opposite())))
      ensures forall tx :: tx in reply.Provides() ==> ProvidedBy(old(user.replies), tx)
    {
      hide RemainingMetadataIndex.Agrees, ValidQueue, Session.Valid, SchemaCache.Valid, ValidTransaction;
      var answer := user.Answer();
      reply := answer;
      if answer.PairAccept? && Reviewable(conflict.result) {
        return PairAccepted, reply;
      }
      var c, o := Keep, Keep;
      if answer.PairResolve? {
        c, o := answer.current, answer.other;
      }
      assert c.Change? && c.replacement.Some? ==> c.replacement.value in answer.Provides();
      assert o.Change? && o.replacement.Some? ==> o.replacement.value in answer.Provides();
      ChangeSide(branch, 0, c);
      ChangeSide(branch.Opposite(), conflict.otherIndex.value, o);
      outcome := PairResolved(SideOutcomeOf(c), SideOutcomeOf(o));
    }

    /** A scan belongs to the current head, and an open one rests on the state the turn began with. */
    ghost predicate ScanValid(branch: Branch, scan: OrderedRemainingConflictScanner, start: DbState, stack: seq<Savepoint>, accepted: set<ResolutionKey>)
      reads this, session, scan, scan.scanner, scan.scanner.session
    {
      && scan.scanner.session == session && scan.scanner.schema == schema && scan.scanner.branch == branch
      && scan.Valid()
      && Queue(branch) != [] && scan.scanner.current == Queue(branch)[0]
      && scan.acceptedPairKeys == accepted
      && (scan.started ==> scan.scanner.base == start && scan.scanner.outer == stack)
      && (!scan.started ==> session.state == start && session.savepoints == stack)
      && scan.nextOtherIndex <= |Queue(branch.Opposite())|
      && scan.scanner.advanced == Queue(branch.Opposite())[..scan.nextOtherIndex]
      && KindsCoverQueue(schema, branch, Queue(branch)[0], scan.scanner.enabledKinds, Queue(branch.Opposite()))
      && CheckedKindsCover(schema, branch, Queue(branch)[0], scan.scanner.advanced, scan.passages)
    }

    /** Apply the head and drop it from its queue and index. */
    method ApplyHead(branch: Branch) returns (failure: Option<StatementConflict>)
      requires Valid() && Queue(branch) != []
      modifies this, session, Index(branch)
      ensures Valid() && session.savepoints == old(session.savepoints)
      ensures Queue(branch.Opposite()) == old(Queue(branch.Opposite()))
      ensures failure.Some? ==> session.state == old(session.state) && Queue(branch) == old(Queue(branch))
      ensures failure.None? ==> Queue(branch) == old(Queue(branch))[1..] && Applied(session.engine, old(session.state), old(Queue(branch))[0], session.state)
      ensures failure.None? <==> CanApply(session.engine, old(session.state), old(Queue(branch))[0])
    {
      hide ValidTransaction, CountsQueue, ReplayTransaction;
      var current := Queue(branch)[0];
      ghost var queue := Queue(branch);
      failure := ApplyAcceptedTransaction(session, current);
      if failure.None? {
        assert queue[0] in queue;
        Index(branch).RemoveTransaction(schema, current, queue, 0);
        assert Without(queue, 0) == queue[1..];
        if branch.Ours? { ours := ours[1..]; } else { theirs := theirs[1..]; }
      }
    }

    /** The scan is paused on this pair. */
    ghost predicate PausedOn(branch: Branch, scan: OrderedRemainingConflictScanner, conflict: ScanConflict)
      reads this, scan, scan.scanner
    {
      && scan.started && scan.scanner.running
      && conflict.otherIndex == Some(scan.nextOtherIndex)
      && scan.nextOtherIndex < |Queue(branch.Opposite())|
      && Queue(branch) != []
      && conflict.key.Some? && Names(conflict.key.value, branch, Queue(branch)[0], Queue(branch.Opposite())[scan.nextOtherIndex])
      && !ClearAt(session.engine, schema, branch, Queue(branch)[0], scan.scanner.base, scan.scanner.enabledKinds,
           Queue(branch.Opposite())[..scan.nextOtherIndex], Queue(branch.Opposite())[scan.nextOtherIndex])
    }

    /** A head that changed or went: close the scan. */
    method CloseScan(scan: OrderedRemainingConflictScanner, ghost start: DbState, ghost stack: seq<Savepoint>)
      requires session.Valid() && scan.Valid() && scan.scanner.session == session
      requires scan.started ==> scan.scanner.base == start && scan.scanner.outer == stack
      requires !scan.started ==> session.state == start && session.savepoints == stack
      modifies scan, scan.scanner, session
      ensures session.Valid() && session.state == start && session.savepoints == stack
    {
      scan.Close();
    }

    /** Record an accepted pair and advance the scan over it. */
    method AcceptPair(branch: Branch, scan: OrderedRemainingConflictScanner, conflict: ScanConflict, accepted: set<ResolutionKey>,
                      ghost start: DbState, ghost stack: seq<Savepoint>)
      returns (followup: Option<ScanConflict>, accepted': set<ResolutionKey>)
      requires Valid() && ScanValid(branch, scan, start, stack, accepted) && PausedOn(branch, scan, conflict)
      modifies session, scan, scan.scanner
      ensures Valid() && accepted' == accepted + {conflict.key.value}
      ensures followup.None? <==> Replays(session.engine, old(session.state), Queue(branch.Opposite())[old(scan.nextOtherIndex)])
      ensures scan.nextOtherIndex == old(scan.nextOtherIndex) + (if followup.None? then 1 else 0)
      ensures followup.Some? ==> !Reviewable(followup.value.result)
      ensures ScanValid(branch, scan, start, stack, accepted') && scan.started && scan.scanner.running
      ensures followup.Some? ==> PausedOn(branch, scan, followup.value)
    {
      hide AllPass, PassedCheck, KindsCover, ValidTransaction, CountsQueue, Names, OrderedRemainingExecutionScanner.Rolled;
      ghost var before := scan.scanner.advanced;
      accepted' := accepted + {conflict.key.value};
      followup := scan.AcceptCurrentConflict(Queue(branch.Opposite()), scan.nextOtherIndex, conflict.result, conflict.key.value);
      if followup.None? { PrefixSnoc(Queue(branch.Opposite()), |before|); }
    }

    /** Carry the scan on after the opposite transaction it paused on was edited, deleted or kept. */
    method ContinueScanAfter(branch: Branch, scan: OrderedRemainingConflictScanner, edited: bool, ghost accepted: set<ResolutionKey>,
                             ghost start: DbState, ghost stack: seq<Savepoint>,
                             ghost other: seq<LoggedTransaction>, ghost side: SideReply)
      requires Valid() && scan.Valid() && scan.started && scan.scanner.running && scan.acceptedPairKeys == accepted
      requires scan.scanner.session == session && scan.scanner.schema == schema && scan.scanner.branch == branch
      requires scan.scanner.base == start && scan.scanner.outer == stack
      requires Queue(branch) != [] && scan.scanner.current == Queue(branch)[0]
      requires scan.nextOtherIndex < |other| && scan.scanner.advanced == other[..scan.nextOtherIndex]
      requires Queue(branch.Opposite()) == Changed(other, scan.nextOtherIndex, side) && edited == SideOutcomeOf(side).Edited?
      requires KindsCoverQueue(schema, branch, Queue(branch)[0], scan.scanner.enabledKinds, other)
      requires CheckedKindsCover(schema, branch, Queue(branch)[0], scan.scanner.advanced, scan.passages)
      modifies scan.scanner`enabledKinds
      ensures Valid() && ScanValid(branch, scan, start, stack, accepted) && scan.started && scan.scanner.running
    {
      hide AllPass, PassedCheck, KindsCover, ValidTransaction, CountsQueue, OrderedRemainingExecutionScanner.Rolled, RemainingIndividualCheckKinds;
      ghost var current := Queue(branch)[0];
      ChangedPrefix(other, scan.nextOtherIndex, side);
      if edited {
        var needed := RemainingIndividualCheckKinds(schema, Queue(branch)[0], Index(branch.Opposite()));
        IndexCovers(schema, branch, current, Index(branch.Opposite()), Queue(branch.Opposite()));
        ghost var kinds := scan.scanner.enabledKinds;
        scan.EnableKinds(needed);
        MoreKindsCover(schema, branch, current, needed, kinds, Queue(branch.Opposite()));
      } else {
        FewerCovered(schema, branch, current, scan.scanner.enabledKinds, other, scan.nextOtherIndex, side);
      }
    }

    /** Close or carry on the scan once both sides are as the user wants them. */
    method ActOnSides(branch: Branch, scan: OrderedRemainingConflictScanner, outcome: PairOutcome, ghost accepted: set<ResolutionKey>,
                      ghost start: DbState, ghost stack: seq<Savepoint>, ghost before: seq<LoggedTransaction>, ghost other: seq<LoggedTransaction>,
                      ghost c: SideReply, ghost o: SideReply)
      returns (step: PairStep)
      requires Valid() && scan.Valid() && scan.started && scan.scanner.running && scan.acceptedPairKeys == accepted
      requires scan.scanner.session == session && scan.scanner.schema == schema && scan.scanner.branch == branch
      requires scan.scanner.base == start && scan.scanner.outer == stack
      requires before != [] && scan.scanner.current == before[0] && Queue(branch) == Changed(before, 0, c)
      requires scan.nextOtherIndex < |other| && scan.scanner.advanced == other[..scan.nextOtherIndex]
      requires Queue(branch.Opposite()) == Changed(other, scan.nextOtherIndex, o)
      requires outcome == PairResolved(SideOutcomeOf(c), SideOutcomeOf(o))
      requires KindsCoverQueue(schema, branch, before[0], scan.scanner.enabledKinds, other)
      requires CheckedKindsCover(schema, branch, before[0], scan.scanner.advanced, scan.passages)
      modifies session, scan, scan.scanner
      ensures Valid()
      ensures step.ContinueScan? ==> c.Keep? && ScanValid(branch, scan, start, stack, accepted) && scan.started && scan.scanner.running
      ensures !step.ContinueScan? ==> session.state == start && session.savepoints == stack
      ensures step.RestartScan? <==> c.Change? && c.replacement.Some?
      ensures step.TurnOver? <==> c == Change(None)
    {
      hide AllPass, PassedCheck, KindsCover, ValidTransaction, CountsQueue, Names, OrderedRemainingExecutionScanner.Rolled, KindsCoverQueue, CheckedKindsCover, RemainingMetadataIndex.Agrees, ValidQueue;
      match outcome.current {
        case Deleted =>
          CloseScan(scan, start, stack);
          step := TurnOver;
        case Edited =>
          CloseScan(scan, start, stack);
          step := RestartScan;
        case Unchanged =>
          ContinueScanAfter(branch, scan, outcome.other.Edited?, accepted, start, stack, other, o);
          step := ContinueScan;
      }
    }

    /** Put one pair conflict to the user and act on the answer. */
    method HandlePairConflict(branch: Branch, scan: OrderedRemainingConflictScanner, conflict: ScanConflict, accepted: set<ResolutionKey>,
                              ghost start: DbState, ghost stack: seq<Savepoint>)
      returns (step: PairStep, followup: Option<ScanConflict>, accepted': set<ResolutionKey>, ghost reply: Reply)
      requires Valid() && ScanValid(branch, scan, start, stack, accepted) && PausedOn(branch, scan, conflict) && user.replies != []
      modifies this, session, user, oursIndex, theirsIndex, scan, scan.scanner
      ensures Valid() && old(user.replies) == [reply] + user.replies
      ensures (Queue(branch), Queue(branch.Opposite())) ==
        QueuesAfter(PromptFor(conflict), reply, old(Queue(branch)), old(Queue(branch.Opposite())))
      ensures step.TurnOver? <==> CurrentHalf(reply) == Change(None)
      ensures reply.PairAccept? && Reviewable(conflict.result) ==>
        && step.ContinueScan? && accepted' == accepted + {conflict.key.value}
        && (followup.None? <==> Replays(session.engine, old(session.state), old(Queue(branch.Opposite()))[conflict.otherIndex.value]))
        && scan.nextOtherIndex == old(scan.nextOtherIndex) + (if followup.None? then 1 else 0)
        && (followup.Some? ==> !Reviewable(followup.value.result))
      ensures !(reply.PairAccept? && Reviewable(conflict.result)) ==> followup.None? && accepted' == accepted
      ensures step.ContinueScan? ==>
        && Queue(branch) == old(Queue(branch))
        && ScanValid(branch, scan, start, stack, accepted') && scan.started && scan.scanner.running
        && (followup.Some? ==> PausedOn(branch, scan, followup.value))
      ensures !step.ContinueScan? ==> followup.None? && session.state == start && session.savepoints == stack
    {
      hide AllPass, PassedCheck, KindsCover, ValidTransaction, CountsQueue, Names, OrderedRemainingExecutionScanner.Rolled, KindsCoverQueue, CheckedKindsCover;
      followup, accepted' := None, accepted;
      ghost var other := Queue(branch.Opposite());
      ghost var current := Queue(branch)[0];
      var outcome;
      outcome, reply := ResolvePair(branch, conflict);
      if outcome.PairAccepted? {
        followup, accepted' := AcceptPair(branch, scan, conflict, accepted, start, stack);
        return ContinueScan, followup, accepted', reply;
      }
      ghost var c, o := CurrentHalf(reply), OtherHalf(reply);
      step := ActOnSides(branch, scan, outcome, accepted, start, stack, old(Queue(branch)), other, c, o);
    }

    /** Between passes: no scan and an untouched connection, or an open scan of the head. */
    ghost predicate TurnState(branch: Branch, scan: OrderedRemainingConflictScanner?, followup: Option<ScanConflict>, keys: set<ResolutionKey>,
                              start: DbState, stack: seq<Savepoint>)
      reads this, session, scan, if scan == null then {} else {scan.scanner, scan.scanner.session}
    {
      if scan == null then followup.None? && session.state == start && session.savepoints == stack
      else
        && ScanValid(branch, scan, start, stack, keys) && scan.started && scan.scanner.running
        && (followup.Some? ==> PausedOn(branch, scan, followup.value))
    }

    /** Take the pending follow-up conflict, or run the scan on. */
    method ScanOn(branch: Branch, scan: OrderedRemainingConflictScanner, followup: Option<ScanConflict>, ghost keys: set<ResolutionKey>,
                  ghost start: DbState, ghost stack: seq<Savepoint>)
      returns (conflict: Option<ScanConflict>, followup': Option<ScanConflict>)
      requires Valid() && ScanValid(branch, scan, start, stack, keys)
      requires scan.started ==> scan.scanner.running
      requires followup.Some? ==> PausedOn(branch, scan, followup.value)
      modifies session, scan, scan.scanner
      ensures Valid() && followup'.None? && ScanValid(branch, scan, start, stack, keys) && scan.started
      ensures conflict.Some? && conflict.value.otherIndex.Some? ==> PausedOn(branch, scan, conflict.value)
      ensures conflict.Some? && conflict.value.otherIndex.None? ==>
        !RunsChecked(session.engine, Control, start.control, Queue(branch)[0].statements)
      ensures if followup.Some? then conflict == followup && scan.nextOtherIndex == old(scan.nextOtherIndex)
              else old(scan.nextOtherIndex) <= scan.nextOtherIndex
      ensures conflict.None? ==> scan.scanner.running && scan.scanner.advanced == Queue(branch.Opposite())
      ensures !old(scan.started) && followup.None? && keys == {} ==>
        (conflict.None? <==> ScanClear(session.engine, schema, branch, Queue(branch)[0], start, old(scan.scanner.enabledKinds), Queue(branch.Opposite())))
    {
      hide ScanClear, ClearAt, RunsChecked;
      hide AllPass, PassedCheck, KindsCover, ValidTransaction, CountsQueue, Names, OrderedRemainingExecutionScanner.Rolled;
      followup' := None;
      if followup.Some? {
        return followup, None;
      }
      ghost var others := Queue(branch.Opposite());
      ghost var earlier := scan.passages;
      conflict := scan.NextConflict(Queue(branch.Opposite()));
      forall k | 0 <= k < |scan.passages| && scan.passages[k].Checked?
        ensures KindsCover(schema, branch, Queue(branch)[0], scan.passages[k].kinds, scan.scanner.advanced[k])
      {
        if k < |earlier| {
          assert scan.passages[k] == earlier[k];
        } else {
          assert scan.scanner.advanced[k] in others;
        }
      }
    }

    lemma PauseJustified(branch: Branch, scan: OrderedRemainingConflictScanner, conflict: ScanConflict, keys: set<ResolutionKey>,
                         start: DbState, stack: seq<Savepoint>)
      requires ScanValid(branch, scan, start, stack, keys) && PausedOn(branch, scan, conflict) && ReplaySafe(Queue(branch)[0])
      ensures Justified(session.engine, schema, branch, start, Queue(branch), Queue(branch.Opposite()),
        PromptFor(conflict))
    {
      hide ClearAt, Names, ReplaySafe;
    }

    /** The pair at `i` is behind the scan, or does not replay and cannot be accepted again. */
    ghost predicate Passed(scan: OrderedRemainingConflictScanner, followup: Option<ScanConflict>, i: nat)
      reads scan
    {
      if followup.None? then i < scan.nextOtherIndex else i == scan.nextOtherIndex && !Reviewable(followup.value.result)
    }

    /** Ask about the pair the scan is paused on, unless the user has no more answers. */
    method AnswerPair(branch: Branch, scan0: OrderedRemainingConflictScanner, conflict: ScanConflict, keys0: set<ResolutionKey>,
                      ghost start: DbState, ghost stack: seq<Savepoint>)
      returns (verdict: Verdict, scan: OrderedRemainingConflictScanner?, followup: Option<ScanConflict>, keys: set<ResolutionKey>, ghost used: seq<Reply>)
      requires Valid() && ScanValid(branch, scan0, start, stack, keys0) && PausedOn(branch, scan0, conflict)
      modifies this, session, user, oursIndex, theirsIndex, scan0, scan0.scanner
      ensures Valid() && !verdict.Taken?
      ensures OnePass(PromptFor(conflict), verdict, used, old(Queue(branch)), old(Queue(branch.Opposite())), Queue(branch), Queue(branch.Opposite()),
        old(user.replies), user.replies)
      ensures PairAccept !in used ==> keys == keys0
      ensures scan == scan0 || scan == null
      ensures verdict.Retry? ==> TurnState(branch, scan, followup, keys, start, stack)
      ensures !verdict.Retry? ==> session.savepoints == stack && session.state == start
      ensures Reviewable(conflict.result) && PairAccept in used ==> scan != null && Passed(scan, followup, conflict.otherIndex.value)
    {
      hide ClearAt;
      hide AllPass, PassedCheck, KindsCover, ValidTransaction, CountsQueue, Names, OrderedRemainingExecutionScanner.Rolled, KindsCoverQueue, CheckedKindsCover, QueuesAfter;
      scan, followup, keys, used := scan0, None, keys0, [];
      if user.replies == [] {
        CloseScan(scan0, start, stack);
        scan := null;
        return OutOfReplies, scan, followup, keys, used;
      }
      var step;
      ghost var reply;
      step, followup, keys, reply := HandlePairConflict(branch, scan0, conflict, keys0, start, stack);
      used := [reply];
      if !step.ContinueScan? { scan := null; }
      verdict := if step.TurnOver? then Gone else Retry;
    }

    /** Ask about the head alone, unless the user has no more answers. */
    method PromptStandalone(branch: Branch) returns (verdict: Verdict, ghost used: seq<Reply>)
      requires Valid() && Queue(branch) != []
      modifies this, user, Index(branch)
      ensures Valid() && !verdict.Taken?
      ensures OnePass(Alone, verdict, used, old(Queue(branch)), old(Queue(branch.Opposite())), Queue(branch), Queue(branch.Opposite()),
        old(user.replies), user.replies)
    {
      hide ValidTransaction, CountsQueue;
      if user.replies == [] {
        return OutOfReplies, [];
      }
      var outcome;
      ghost var reply;
      outcome, reply := ResolveStandalone(branch);
      used := [reply];
      verdict := if outcome.CurrentRemoved? then Gone else Retry;
    }

    method CloseTurn(branch: Branch, scan: OrderedRemainingConflictScanner, ghost keys: set<ResolutionKey>, ghost start: DbState, ghost stack: seq<Savepoint>)
      requires Valid() && ScanValid(branch, scan, start, stack, keys)
      modifies scan, scan.scanner, session
      ensures Valid() && session.state == start && session.savepoints == stack
    {
      CloseScan(scan, start, stack);
    }

    /** The scan is through, or was not needed: close it and apply the head. */
    method FinishHead(branch: Branch, scan: OrderedRemainingConflictScanner?, ghost keys: set<ResolutionKey>, ghost start: DbState, ghost stack: seq<Savepoint>)
      returns (verdict: Verdict, ghost used: seq<Reply>, ghost coverage: Coverage)
      requires Valid() && Queue(branch) != []
      requires if scan == null
               then session.state == start && session.savepoints == stack
                    && KindsCoverQueue(schema, branch, Queue(branch)[0], {}, Queue(branch.Opposite()))
               else ScanValid(branch, scan, start, stack, keys) && scan.started && scan.scanner.advanced == Queue(branch.Opposite())
      modifies this, session, user, oursIndex, theirsIndex, scan, if scan == null then {} else {scan.scanner}
      ensures Valid() && session.savepoints == stack && (!verdict.Taken? ==> session.state == start)
      ensures OnePass(Alone, verdict, used, old(Queue(branch)), old(Queue(branch.Opposite())), Queue(branch), Queue(branch.Opposite()),
        old(user.replies), user.replies)
      ensures verdict.Taken? ==>
        && Applied(session.engine, start, old(Queue(branch))[0], session.state)
        && CoverageHolds(session.engine, schema, branch, old(Queue(branch))[0], start, Queue(branch.Opposite()), coverage, keys)
      ensures verdict.Taken? <==> CanApply(session.engine, start, old(Queue(branch))[0])
    {
      hide AllPass, PassedCheck, KindsCover, ValidTransaction, CountsQueue, Names, OrderedRemainingExecutionScanner.Rolled, KindsCoverQueue, CheckedKindsCover, Applied, CanApply;
      used, coverage := [], Unchecked;
      if scan != null {
        coverage := Scanned(scan.passages);
        CloseScan(scan, start, stack);
      }
      var failure := ApplyHead(branch);
      if failure.Some? {
        verdict, used := PromptStandalone(branch);
      } else {
        verdict := Taken;
      }
    }

    /** A scan for a head that needs one: the pending scan, a new one, or none. */
    method OpenScan(branch: Branch, scan0: OrderedRemainingConflictScanner?, followup: Option<ScanConflict>, keys: set<ResolutionKey>,
                    ghost start: DbState, ghost stack: seq<Savepoint>)
      returns (scan: OrderedRemainingConflictScanner?)
      requires Valid() && Queue(branch) != [] && TurnState(branch, scan0, followup, keys, start, stack)
      ensures Valid()
      ensures scan0 != null ==> scan == scan0
      ensures scan != null ==> scan == scan0 || (fresh(scan) && fresh(scan.scanner))
      ensures scan != null ==>
        && ScanValid(branch, scan, start, stack, keys) && (scan.started ==> scan.scanner.running)
        && (followup.Some? ==> PausedOn(branch, scan, followup.value))
      ensures scan == null ==>
        && followup.None? && session.state == start && session.savepoints == stack
        && KindsCoverQueue(schema, branch, Queue(branch)[0], {}, Queue(branch.Opposite()))
      ensures scan0 == null ==>
        var kinds := NeededKinds(schema, Queue(branch)[0], Queue(branch.Opposite()));
        (scan == null <==> kinds == {}) && (scan != null ==> !scan.started && scan.scanner.enabledKinds == kinds)
    {
      hide AllPass, KindsCover, ValidTransaction, CountsQueue, Names, OrderedRemainingExecutionScanner.Rolled, RemainingIndividualCheckKinds, KindsCoverQueue, CheckedKindsCover, NeededKinds;
      scan := scan0;
      if scan == null {
        var current := Queue(branch)[0];
        var kinds := RemainingIndividualCheckKinds(schema, current, Index(branch.Opposite()));
        IndexCovers(schema, branch, current, Index(branch.Opposite()), Queue(branch.Opposite()));
        assert current in Queue(branch);
        KindsNeeded(schema, current, Index(branch.Opposite()), Queue(branch.Opposite()));
        if kinds != {} {
          scan := new OrderedRemainingConflictScanner(session, schema, current, branch, kinds, keys);
          NoneChecked(schema, branch, current);
        }
      }
    }

    /** Open or carry on the scan of a head that may replay, up to its next conflict. */
    method NextPause(branch: Branch, scan0: OrderedRemainingConflictScanner?, followup: Option<ScanConflict>, keys: set<ResolutionKey>,
                     ghost start: DbState, ghost stack: seq<Savepoint>)
      returns (scan: OrderedRemainingConflictScanner?, conflict: Option<ScanConflict>)
      requires Valid() && Queue(branch) != [] && TurnState(branch, scan0, followup, keys, start, stack) && ReplaySafe(Queue(branch)[0])
      modifies session, scan0, if scan0 == null then {} else {scan0.scanner}
      ensures Valid() && (scan0 != null ==> scan == scan0) && (scan != null ==> scan == scan0 || (fresh(scan) && fresh(scan.scanner)))
      ensures scan == null ==>
        && conflict.None? && session.state == start && session.savepoints == stack
        && KindsCoverQueue(schema, branch, Queue(branch)[0], {}, Queue(branch.Opposite()))
      ensures scan != null ==> ScanValid(branch, scan, start, stack, keys) && scan.started
      ensures scan != null && conflict.None? ==> scan.scanner.advanced == Queue(branch.Opposite())
      ensures conflict.Some? ==> Justified(session.engine, schema, branch, start, Queue(branch), Queue(branch.Opposite()), PromptFor(conflict.value))
      ensures conflict.Some? && conflict.value.otherIndex.Some? ==>
        && PausedOn(branch, scan, conflict.value)
        && (scan0 != null ==> if followup.Some? then conflict == followup && scan.nextOtherIndex == old(scan0.nextOtherIndex)
                              else old(scan0.nextOtherIndex) <= scan.nextOtherIndex)
      ensures scan0 == null && keys == {} ==>
        var kinds := NeededKinds(schema, Queue(branch)[0], Queue(branch.Opposite()));
        conflict.None? <==> kinds == {} || ScanClear(session.engine, schema, branch, Queue(branch)[0], start, kinds, Queue(branch.Opposite()))
    {
      hide CanApply, ScanClear, ClearAt, RunsChecked, NeededKinds, ReplaySafe, KindsCoverQueue, CheckedKindsCover, Justified, ValidQueue,
        RemainingMetadataIndex.Agrees, SchemaCache.Valid, User.Valid;
      conflict := None;
      scan := OpenScan(branch, scan0, followup, keys, start, stack);
      if scan != null {
        var left;
        conflict, left := ScanOn(branch, scan, followup, keys, start, stack);
        if conflict.Some? && conflict.value.otherIndex.Some? {
          PauseJustified(branch, scan, conflict.value, keys, start, stack);
        } else if conflict.Some? {
          AloneJustified(session.engine, schema, branch, start, Queue(branch), Queue(branch.Opposite()));
        }
      }
    }

    /** One pass of the turn over the current head: check it, then apply it or ask the user. */
    method TryHead(branch: Branch, scan0: OrderedRemainingConflictScanner?, followup0: Option<ScanConflict>, keys0: set<ResolutionKey>,
                   ghost start: DbState, ghost stack: seq<Savepoint>)
      returns (verdict: Verdict, scan: OrderedRemainingConflictScanner?, followup: Option<ScanConflict>, keys: set<ResolutionKey>,
               ghost used: seq<Reply>, ghost coverage: Coverage, ghost prompt: Prompt)
      requires Valid() && Queue(branch) != []
      requires TurnState(branch, scan0, followup0, keys0, start, stack)
      modifies this, session, user, oursIndex, theirsIndex, scan0, if scan0 == null then {} else {scan0.scanner}
      ensures Valid()
      ensures OnePass(prompt, verdict, used, old(Queue(branch)), old(Queue(branch.Opposite())), Queue(branch), Queue(branch.Opposite()),
        old(user.replies), user.replies)
      ensures PairAccept !in used ==> keys == keys0
      ensures scan == scan0 || scan == null || (fresh(scan) && fresh(scan.scanner))
      ensures verdict.Retry? ==> TurnState(branch, scan, followup, keys, start, stack)
      ensures !verdict.Retry? ==> session.savepoints == stack && (!verdict.Taken? ==> session.state == start)
      ensures verdict.Taken? ==>
        && ReplaySafe(old(Queue(branch))[0])
        && Applied(session.engine, start, old(Queue(branch))[0], session.state)
        && CoverageHolds(session.engine, schema, branch, old(Queue(branch))[0], start, Queue(branch.Opposite()), coverage, keys)
      ensures scan0 == null && keys0 == {} ==>
        (verdict.Taken? <==> QuietHead(session.engine, schema, branch, start, old(Queue(branch))[0], old(Queue(branch.Opposite()))))
      ensures !verdict.Taken? ==> Justified(session.engine, schema, branch, start, old(Queue(branch)), old(Queue(branch.Opposite())), prompt)
      ensures !verdict.Taken? && prompt.Pair? && scan0 != null ==>
        if followup0.Some? then prompt == Pair(old(scan0.nextOtherIndex), Reviewable(followup0.value.result))
        else old(scan0.nextOtherIndex) <= prompt.index
      ensures !verdict.Taken? && prompt.Pair? && prompt.reviewable && PairAccept in used ==> scan != null && Passed(scan, followup, prompt.index)
    {
      hide CanApply, ScanClear, OnePass, NeededKinds, Justified;
      hide ScanValid, CoverageHolds, Applied, ReplaySafe, ValidQueue, RemainingMetadataIndex.Agrees, Session.Valid, SchemaCache.Valid, User.Valid, KindsCoverQueue, OrderedRemainingConflictScanner.Valid;
      ghost var mine, other := Queue(branch), Queue(branch.Opposite());
      scan, followup, keys, used, coverage, prompt := scan0, None, keys0, [], Unchecked, Alone;
      if !ReplaySafe(Queue(branch)[0]) {
        if scan != null { CloseTurn(branch, scan, keys, start, stack); }
        scan := null;
        AloneJustified(session.engine, schema, branch, start, mine, other);
        verdict, used := PromptStandalone(branch);
        return;
      }
      var conflict;
      scan, conflict := NextPause(branch, scan0, followup0, keys0, start, stack);
      if conflict.Some? && conflict.value.otherIndex.None? {
        CloseTurn(branch, scan, keys, start, stack);
        scan := null;
        verdict, used := PromptStandalone(branch);
      } else if conflict.Some? {
        verdict, scan, followup, keys, used := AnswerPair(branch, scan, conflict.value, keys, start, stack);
        prompt := PromptFor(conflict.value);
      } else {
        verdict, used, coverage := FinishHead(branch, scan, keys, start, stack);
        scan := null;
        if !verdict.Taken? { AloneJustified(session.engine, schema, branch, start, mine, other); }
      }
    }

    /** Resolve at most one fixed-order queue head for this branch. The turn ends by taking the
        head or by the user deleting it, unless the user's answers run out. */
    method CheckAcceptCurrent(branch: Branch)
      returns (stalled: bool, ghost outcome: TurnOutcome, ghost keys: set<ResolutionKey>, ghost used: seq<Reply>, ghost asked: seq<Prompt>)
      requires Valid()
      modifies this, session, user, oursIndex, theirsIndex
      ensures Valid() && session.savepoints == old(session.savepoints)
      ensures old(user.replies) == used + user.replies
      ensures Evolved(old(Queue(branch.Opposite())), Queue(branch.Opposite()), old(user.replies))
      ensures used == [] ==> Queue(branch.Opposite()) == old(Queue(branch.Opposite()))
      ensures PairAccept !in used ==> keys == {}
      ensures stalled <==> outcome.Stalled?
      ensures stalled ==> user.replies == []
      ensures outcome.NothingQueued? <==> old(Queue(branch)) == []
      ensures !outcome.HeadAccepted? ==> session.state == old(session.state)
      ensures outcome.NothingQueued? ==> used == [] && Queue(branch) == []
      ensures outcome.HeadRemoved? ==> used != [] && Queue(branch) == old(Queue(branch))[1..]
      ensures outcome.HeadAccepted? ==>
        && Queue(branch) == old(Queue(branch))[1..]
        && (outcome.tx == old(Queue(branch))[0] || (used != [] && ProvidedBy(old(user.replies), outcome.tx)))
        && ReplaySafe(outcome.tx)
        && Applied(session.engine, old(session.state), outcome.tx, session.state)
        && CoverageHolds(session.engine, schema, branch, outcome.tx, old(session.state), Queue(branch.Opposite()), outcome.coverage, keys)
      ensures old(Queue(branch)) != [] ==>
        (QuietHead(session.engine, schema, branch, old(session.state), old(Queue(branch))[0], old(Queue(branch.Opposite()))) <==>
          outcome.HeadAccepted? && used == [])
      ensures Conversation(session.engine, schema, branch, old(session.state), old(Queue(branch)), old(Queue(branch.Opposite())), asked, used,
        outcome.HeadRemoved?)
      ensures Left(outcome, QueuesAfterAll(asked, used, old(Queue(branch)), old(Queue(branch.Opposite()))), Queue(branch), Queue(branch.Opposite()))
    {
      hide QuietHead, Conversation, QueuesAfterAll, QueuesAfter, Justified, Evolved, KindsCoverQueue, TurnSoFar, HeadEvolved, OnePass;
      hide ScanValid, CoverageHolds, Applied, ReplaySafe, ValidQueue, RemainingMetadataIndex.Agrees, Session.Valid, SchemaCache.Valid, User.Valid;
      ghost var start, stack := session.state, session.savepoints;
      stalled, outcome, keys, used, asked := false, NothingQueued, {}, [], [];
      NothingAsked(session.engine, schema, branch, start, user.replies, Queue(branch), Queue(branch.Opposite()));
      if Queue(branch) == [] {
        return;
      }
      ghost var quiet := QuietHead(session.engine, schema, branch, start, Queue(branch)[0], Queue(branch.Opposite()));
      var scan: OrderedRemainingConflictScanner? := null;
      var followup, accepted := None, {};
      var verdict := Retry;
      while verdict.Retry?
        invariant Valid() && |asked| == |used| && |user.replies| <= |old(user.replies)|
        invariant TurnSoFar(session.engine, schema, branch, start, old(user.replies), user.replies, old(Queue(branch)), old(Queue(branch.Opposite())),
          Queue(branch), Queue(branch.Opposite()), asked, used, verdict, outcome)
        invariant verdict.Retry? ==> Queue(branch) != [] && TurnState(branch, scan, followup, accepted, start, stack)
        invariant scan == null || (fresh(scan) && fresh(scan.scanner))
        invariant PairAccept !in used ==> accepted == {}
        invariant verdict.Retry? && used == [] ==>
          scan == null && accepted == {} && Queue(branch) == old(Queue(branch)) && Queue(branch.Opposite()) == old(Queue(branch.Opposite()))
        invariant !verdict.Retry? ==> (quiet <==> verdict.Taken? && used == [])
        invariant verdict.Retry? && used != [] ==> !quiet
        invariant verdict.Retry? && used != [] && asked[|asked| - 1].Pair? && asked[|asked| - 1].reviewable && used[|used| - 1].PairAccept? ==>
          scan != null && Passed(scan, followup, asked[|asked| - 1].index)
        invariant verdict.Taken? <==> outcome.HeadAccepted?
        invariant !verdict.Retry? ==> session.savepoints == stack && (!verdict.Taken? ==> session.state == start)
        invariant verdict.Taken? ==>
          && ReplaySafe(outcome.tx)
          && Applied(session.engine, start, outcome.tx, session.state)
          && CoverageHolds(session.engine, schema, branch, outcome.tx, start, Queue(branch.Opposite()), outcome.coverage, accepted)
        decreases |user.replies|, if verdict.Retry? then 1 else 0
      {
        ghost var mine, others, left, prompt := Queue(branch), Queue(branch.Opposite()), user.replies, Alone;
        ghost var more, coverage;
        ghost var scan0, followup0, at := scan, followup, if scan == null then 0 else scan.nextOtherIndex;
        verdict, scan, followup, accepted, more, coverage, prompt := TryHead(branch, scan, followup, accepted, start, stack);
        assert verdict.Taken? || asked == [] || PassedBy(asked[|asked| - 1], used[|used| - 1], prompt);
        TurnStep(session.engine, schema, branch, start, old(user.replies), left, user.replies, old(Queue(branch)), old(Queue(branch.Opposite())),
          mine, others, Queue(branch), Queue(branch.Opposite()), asked, used, verdict, outcome, prompt, more, coverage);
        if verdict.Taken? { outcome := HeadAccepted(mine[0], coverage); }
        if more != [] { asked := asked + [prompt]; }
        used := used + more;
      }
      keys := accepted;
      stalled := verdict.OutOfReplies?;
      TurnEnds(session.engine, schema, branch, start, old(user.replies), user.replies, old(Queue(branch)), old(Queue(branch.Opposite())),
        Queue(branch), Queue(branch.Opposite()), asked, used, verdict, outcome);
      if stalled { outcome := Stalled; }
      if verdict.Gone? { outcome := HeadRemoved; }
    }
  }

  /** A turn between two passes, and at its end. */
  ghost predicate TurnSoFar(
    e: Engine, schema: SchemaCache, branch: Branch, start: DbState, replies: seq<Reply>, left: seq<Reply>,
    mine0: seq<LoggedTransaction>, other0: seq<LoggedTransaction>, mine: seq<LoggedTransaction>, other: seq<LoggedTransaction>,
    asked: seq<Prompt>, used: seq<Reply>, verdict: Verdict, outcome: TurnOutcome)
  {
    && mine0 != [] && replies == used + left && Evolved(other0, other, replies) && (used == [] ==> other == other0)
    && Conversation(e, schema, branch, start, mine0, other0, asked, used, verdict.Gone?)
    && Left(outcome, QueuesAfterAll(asked, used, mine0, other0), mine, other)
    && match verdict
       case Retry => !outcome.HeadAccepted? && HeadEvolved(mine0, mine, replies) && (used == [] ==> mine == mine0)
       case OutOfReplies => !outcome.HeadAccepted? && left == []
       case Gone => !outcome.HeadAccepted? && used != [] && mine == mine0[1..]
       case Taken =>
         && outcome.HeadAccepted? && mine == mine0[1..]
         && (outcome.tx == mine0[0] || (used != [] && ProvidedBy(replies, outcome.tx)))
  }

  lemma TurnStep(
    e: Engine, schema: SchemaCache, branch: Branch, start: DbState, replies: seq<Reply>, left: seq<Reply>, left': seq<Reply>,
    mine0: seq<LoggedTransaction>, other0: seq<LoggedTransaction>, mine: seq<LoggedTransaction>, other: seq<LoggedTransaction>,
    mine': seq<LoggedTransaction>, other': seq<LoggedTransaction>, asked: seq<Prompt>, used: seq<Reply>,
    verdict: Verdict, outcome: TurnOutcome, prompt: Prompt, more: seq<Reply>, coverage: Coverage)
    requires TurnSoFar(e, schema, branch, start, replies, left, mine0, other0, mine, other, asked, used, Retry, outcome)
    requires OnePass(prompt, verdict, more, mine, other, mine', other', left, left')
    requires verdict.Taken? || Justified(e, schema, branch, start, mine, other, prompt)
    requires verdict.Taken? || asked == [] || (|asked| == |used| && PassedBy(asked[|asked| - 1], used[|used| - 1], prompt))
    ensures TurnSoFar(e, schema, branch, start, replies, left', mine0, other0, mine', other',
      if more == [] then asked else asked + [prompt], used + more, verdict, if verdict.Taken? then HeadAccepted(mine[0], coverage) else outcome)
    ensures |left'| + |more| == |left| && (more == [] <==> verdict.Taken? || verdict.OutOfReplies?) && |more| <= 1
    ensures verdict.Retry? ==> mine' != []
    ensures more == [] && verdict.OutOfReplies? ==> mine' == mine
  {
    hide Justified, Conversation, QueuesAfterAll, QueuesAfter, Evolved, ProvidedBy, PassedBy, TakesHead;
    RepliesLeft(replies, used, left);
    OnePassEvolves(prompt, verdict, more, mine, other, mine', other', left, left');
    EvolvesFurther(other0, other, other', left, replies);
    if more != [] {
      assert more == [more[0]];
      OneMorePrompt(e, schema, branch, start, mine0, other0, asked, used, prompt, more[0], mine, other);
      OneMoreAnswer(asked, prompt, used, more[0], mine0, other0, mine, other);
    } else {
      assert used + more == used;
    }
  }

  lemma TurnEnds(
    e: Engine, schema: SchemaCache, branch: Branch, start: DbState, replies: seq<Reply>, left: seq<Reply>,
    mine0: seq<LoggedTransaction>, other0: seq<LoggedTransaction>, mine: seq<LoggedTransaction>, other: seq<LoggedTransaction>,
    asked: seq<Prompt>, used: seq<Reply>, verdict: Verdict, outcome: TurnOutcome)
    requires TurnSoFar(e, schema, branch, start, replies, left, mine0, other0, mine, other, asked, used, verdict, outcome) && !verdict.Retry?
    ensures mine0 != [] && replies == used + left && Evolved(other0, other, replies) && (used == [] ==> other == other0)
    ensures Conversation(e, schema, branch, start, mine0, other0, asked, used, verdict.Gone?)
    ensures var after := if verdict.Taken? then outcome else if verdict.Gone? then HeadRemoved else Stalled;
      Left(after, QueuesAfterAll(asked, used, mine0, other0), mine, other)
    ensures verdict.OutOfReplies? ==> left == []
    ensures verdict.Gone? ==> used != [] && mine == mine0[1..]
    ensures verdict.Taken? ==>
      outcome.HeadAccepted? && mine == mine0[1..] && (outcome.tx == mine0[0] || (used != [] && ProvidedBy(replies, outcome.tx)))
  {
    hide Conversation, QueuesAfterAll, Evolved, ProvidedBy;
  }

  lemma RepliesLeft(all: seq<Reply>, used: seq<Reply>, left: seq<Reply>)
    requires all == used + left
    ensures forall tx :: ProvidedBy(left, tx) ==> ProvidedBy(all, tx)
  {
    assert forall r :: r in left ==> r in all;
  }

  lemma EvolvesFurther(first: seq<LoggedTransaction>, second: seq<LoggedTransaction>, third: seq<LoggedTransaction>, left: seq<Reply>, all: seq<Reply>)
    requires Evolved(first, second, all) && Evolved(second, third, left)
    requires forall tx :: ProvidedBy(left, tx) ==> ProvidedBy(all, tx)
    ensures Evolved(first, third, all)
  {
    hide ProvidedBy;
  }

  datatype Verdict = Taken | Gone | Retry | OutOfReplies

  /** The head may have been replaced by a reply; what follows it is untouched. */
  ghost predicate HeadEvolved(before: seq<LoggedTransaction>, after: seq<LoggedTransaction>, replies: seq<Reply>) {
    && before != [] && after != [] && after[1..] == before[1..]
    && (after[0] == before[0] || ProvidedBy(replies, after[0]))
  }

  lemma NoneChecked(schema: SchemaCache, branch: Branch, current: LoggedTransaction)
    ensures CheckedKindsCover(schema, branch, current, [], [])
  {
  }

  datatype PairStep = ContinueScan | RestartScan | TurnOver

  /** A queue the user may have edited: no longer, and every entry old or supplied by a reply. */
  ghost predicate Evolved(before: seq<LoggedTransaction>, after: seq<LoggedTransaction>, replies: seq<Reply>) {
    && |after| <= |before|
    && forall tx :: tx in after ==> tx in before || ProvidedBy(replies, tx)
  }

  lemma ChangedEvolves(queue: seq<LoggedTransaction>, i: nat, side: SideReply, replies: seq<Reply>, reply: Reply)
    requires i < |queue| && reply in replies
    requires side.Change? && side.replacement.Some? ==> side.replacement.value in reply.Provides()
    ensures Evolved(queue, Changed(queue, i, side), replies)
  {
  }

  lemma ChangedPrefix(queue: seq<LoggedTransaction>, i: nat, side: SideReply)
    requires i < |queue|
    ensures i <= |Changed(queue, i, side)| && Changed(queue, i, side)[..i] == queue[..i]
  {
  }

  lemma MoreKindsCover(schema: SchemaCache, branch: Branch, current: LoggedTransaction, kinds: set<ConflictKind>, more: set<ConflictKind>, queue: seq<LoggedTransaction>)
    requires KindsCoverQueue(schema, branch, current, kinds, queue)
    ensures KindsCoverQueue(schema, branch, current, more + kinds, queue)
  {
    hide TransactionWriteReadOverlap, ConstraintConflictPossible, TransactionImplicitKeyConflict, StatementsClash;
    forall tx | tx in queue ensures KindsCover(schema, branch, current, more + kinds, tx) {
      assert KindsCover(schema, branch, current, kinds, tx);
    }
  }

  /** Kinds that cover a queue cover what is left of it after a deletion, and after no change. */
  lemma FewerCovered(schema: SchemaCache, branch: Branch, current: LoggedTransaction, kinds: set<ConflictKind>, queue: seq<LoggedTransaction>, i: nat, side: SideReply)
    requires i < |queue| && !SideOutcomeOf(side).Edited?
    requires KindsCoverQueue(schema, branch, current, kinds, queue)
    ensures KindsCoverQueue(schema, branch, current, kinds, Changed(queue, i, side))
  {
    hide KindsCover;
  }

  /** `after` is `before` with one transaction replayed on both sides and logged as one group. */
  ghost predicate Applied(e: Engine, before: DbState, tx: LoggedTransaction, after: DbState) {
    && ReplayTransaction(e, Main, before.main, tx) == Some(after.main)
    && ReplayTransaction(e, Control, before.control, tx) == Some(after.control)
    && after.log == before.log + [tx.statements]
  }
}
