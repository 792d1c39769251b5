# A Dafny model of the SQLite branch merge

The repository merges two branches of a SQLite database by replaying the transactions each branch
logged. A wrapper logs the DML of every committed transaction. The merge takes the two logs, checks each
queue head against everything left in the opposite queue, asks the user where a conflict may arise, and
applies the heads in turn, one local and one remote. A second driver merges two row-level diffs with a
hash join. This project models the logic of these parts and proves what they promise.

`dafny verify dfyconfig.toml` checks the whole project.

| file | part of the system |
|---|---|
| `Columns`, `Models` | column sets with the `*` wildcard, metadata entities |
| `CascadeMetadata` | foreign-key closure: the worklist, its cut-off, its consumers |
| `SqlMetadata` | statement and transaction metadata, cascade effects folded in |
| `Rows`, `ForeignKeyRows` | rows and snapshots; what the five foreign-key actions do to rows, and that the closure covers it |
| `StaticAnalysis` | the pairwise checks, which serve as the specification of the index |
| `RowConflicts` | what the pairwise checks promise about rows and constraints |
| `RemainingMetadata`, `RemainingChecks`, `IndexRefinement` | the incremental index over a queue, its lookups, and how exactly they agree with the pairwise checks |
| `Database`, `AcceptedReplay` | SQLite as deterministic statements with a savepoint stack; applying an accepted transaction |
| `Interference` | when one transaction leaves the writes of later ones alone |
| `RemainingExecution`, `ConflictDetection` | the rolling scan of a head over the opposite suffix |
| `MergeTool`, `MergeRun`, `BranchSafety` | a turn, the whole merge, the branch-local pass before it |
| `NonInterference`, `ControlAgreement` | what an accepted head changes for the transactions behind it; why main and control agree |
| `RowMerge` | the row merger's hash join |
| `Wrapper` | the logging wrapper's transaction and savepoint buffer |
| `SqlScanner`, `ConflictResolution` | the top-level SQL scanner and the rewrites of conflict clauses |
| `RollbackClauses`, `UpsertClauses` | OR ROLLBACK and ON CONFLICT in SQLite's tokens, and what the rewrites leave of them |
| `ControlDb` | the rewrite of a statement onto the attached control schema |

## How SQLite and the user appear

* SQLite is a value of a datatype with function-valued fields (`Database.Engine`, `Wrapper.Engine`).
  Every theorem is about all such functions. What is assumed of them beyond determinism has a name:
  - `Database.KeepsTransaction`: no replayed statement rolls the whole transaction back. A connection needs it
    (`Session.Valid`); `Session.RunAny` says what happens without it. It fails for an OR ROLLBACK the rewrite
    misses (`RollbackClauses.NeutralizedExactly` says which), for a column or table constraint declared
    ON CONFLICT ROLLBACK, and for a trigger that calls RAISE(ROLLBACK, ...).
  - `Interference.Predictable`: a statement writes only what its metadata lists, and its writes follow from its
    probe rows or from its referenced columns.
  - `ControlAgreement.Accountable`: the two texts of a statement mean what their syntax means, or the statement is
    an UPSERT and, where its strict INSERT succeeds on control, main writes the same.
* Savepoints are a stack of snapshots. Names drawn from `uuid4` are fresh numbers.
* The user is the list of replies still to come. Running out of replies is the outcome `Stalled`.
* Objects the source mutates are classes: the index, the connection, both scanners, the merge itself and
  the wrapper. Ghost fields hold only history (what a scan has advanced over, and how).

## What was found

* **Accepted pairs.** A head accepted without consent changes no write of an opposite transaction, up to the first
  pair the user accepted. After that the claim is false as it stands: `NonInterference.AcceptedPairHidesReader` is a
  reader of columns an accepted transaction copied the head's value into; it is checked against the head's own columns
  only, passes, and writes something else. `NonInterference.UnreachedIsHarmless` is what holds: every transaction that
  was not accepted and may read nothing that acceptances reach keeps its writes.
* **Quiet merges.** Two clean branches are merged in the fixed order without a question exactly when in that order every
  head is quiet against what is left opposite: it is not blocked, it replays on both sides and is logged, and either no
  check is needed or it runs on control and every opposite transaction passes behind it (`MergeRun.TakeTurns`,
  `MergeRun.ResolveMergeTransactions`).
* **Static integrity checks.** Two transactions that each keep a UNIQUE index or a foreign key and together break it are
  flagged, when every row's key is changed by one of them at most or is unique (`RowConflicts.UniqueSound`,
  `RowConflicts.ForeignKeySound`). A composite foreign key is missed when both change different columns of one row's key:
  `RowConflicts.MixedKeyNotFlagged` is a child row whose two columns the two sides move separately to keys that exist,
  and together to one that does not, with no static flag of either kind.
* **Index.** Write/read and integrity kinds agree exactly with the pairwise checks. Write/write is
  one-sided: the index is exact for row writes (`IndexRefinement.WriteWriteExact`), and a hidden write
  into the table of an INSERT is flagged only pairwise (`CascadingDeleteMeetsInsert`). Implicit keys are
  one-sided the other way: hidden updates of a key count in the index only (`HiddenKeyUpdateMeetsInsert`).
* **Closure.** Without truncation the events are the least fixpoint. Truncation needs more than 31
  foreign-key edges, and then still covers every hidden write and read for every consumer, although it
  emits `update` events only.
* **Wrapper.** RELEASE pops one recorded savepoint, whatever SQLite releases. Over every run the buffer and log stay
  right exactly when no command is missed (`Wrapper.RunExact`): a ROLLBACK TO is missed when statements took effect
  between SQLite's savepoint and the innermost one of that name the wrapper has not forgotten, and `END`, SQLite's
  alias of COMMIT, always is when it commits. Not reusing the name of a live savepoint, or releasing only the innermost
  one, is enough (`Wrapper.DisciplineSuffices`); `Wrapper.ShadowedRollback` is a run outside both that goes wrong. The
  module's own text says that only statements that changed the database are buffered; the code buffers every DML
  statement that succeeded, and the model follows the code.
* **OR ROLLBACK.** The text handed to replay has no OR ROLLBACK left, as SQLite reads it, exactly when each one is
  spelled with spaces alone, has a space behind it, is not repeated and is the only one of its verb. `INSERT
  OR/**/ROLLBACK INTO t VALUES (1)` (`RollbackClauses.CommentedClause`) and `UPDATE OR ROLLBACK"t" SET a=1`
  (`RollbackClauses.QuotedClause`) keep theirs. A repeated clause is a syntax error in SQLite.
* **ON CONFLICT.** Stripping leaves none exactly when each one stands in a text that begins like an INSERT, at or behind
  one spelled with spaces alone; a comment between the words (`UpsertClauses.CommentedUpsert`), or before the INSERT,
  keeps it.
* **Restoring OR clauses.** The clause goes back where it was exactly when no other top-level UPDATE precedes it
  (`ConflictResolution.EarlierUpdate` shows a text). Normalizing, restoring and normalizing again gives the same result
  exactly when the clause's UPDATE is the first one, or the first one has one space behind it, and no UPSERT is cut off
  at or before the word behind it. A single statement that is logged meets both.
* **Control rewrite.** Names are compared with case in the rewrite and without case in SQLite. Bindings
  are kept exactly when references to common table expressions are spelled as declared
  (`ControlDb.BindingsKept`); otherwise a table of that spelling captures the reference.
* **Row merge.** For snapshots that keep their unique indexes the reported conflicts do not depend on which diff is
  hashed (`RowMerge.ConflictsIndependent`). The extra buckets do, exactly when a lone row
  takes a unique key the other side takes (`RowMerge.TwoInsertsClash` shows two diffs).

## Model

| member | source | states |
|---|---|---|
| Columns.ColumnOverlap | src/merge/utils.py:47-58 | The overlap is non-empty exactly when some column of one side meets the other, `*` on either side meeting everything non-empty; it is `*` where both sides have it, else the named columns that meet the other side |
| Columns.OverlapsSymmetric | src/merge/utils.py:47-58 | Overlap does not depend on the order of its arguments |
| Columns.AddColumns | src/merge/utils.py:19-34 | Adding columns keeps `*` absorbing and changes the entry of that table alone |
| Columns.AddColumnsMeets | src/merge/utils.py:19-34 | After adding, a column set meets the entry exactly when it met it before or meets what was added: absorption loses nothing |
| Columns.MapsOverlapAt | src/merge/static_analysis.py:271-281 | Two table maps overlap exactly when they do at one table |
| CascadeMetadata.CascadeEffectsForEvent | src/merge/cascade_metadata.py:117-173 | The worklist ends; untruncated it gives exactly the events one or more actions away, the join of their columns and of the child columns of all triggered edges; truncated it marks every table; a truncated run implies more than 31 edges |
| CascadeMetadata.ExpandEvent | src/merge/cascade_metadata.py:140-167 | Expanding one event adds exactly its successors, in edge order, to events, queue and maps |
| CascadeMetadata.Universe | src/merge/cascade_metadata.py:129-167 | All events a closure can meet lie in a set of at most 1 + 2·edges elements |
| CascadeMetadata.ClosedCoversHidden | src/merge/cascade_metadata.py:129-167 | A closed visited set holds every event reachable in any number of steps |
| CascadeMetadata.DrainedIsExact | src/merge/cascade_metadata.py:129-173 | An empty queue means the recorded events are exactly the hidden ones |
| CascadeMetadata.MarkUnknown | src/merge/cascade_metadata.py:239-256 | Truncation writes and reads all columns of every table and keeps the earlier events |
| CascadeMetadata.EffectsCover | src/merge/cascade_metadata.py:211-256 | Truncated or not, every hidden event is covered for the create-key, remove-key and update consumers |
| CascadeMetadata.ReadsCover | src/merge/cascade_metadata.py:129-173 | Truncated or not, the child columns of every triggered edge are among the reads |
| CascadeMetadata.ReadsOnly | src/merge/cascade_metadata.py:129-173 | Without truncation a column counts as read only through an edge that fires |
| CascadeMetadata.JoinMeets | src/merge/utils.py:19-34 | A join meets a column set exactly when one of its parts does |
| ForeignKeyRows.TriggersExact | src/merge/cascade_metadata.py:176-208 | An edge counts as triggered exactly when the event may take a parent row away or change a referenced column of it |
| ForeignKeyRows.ChildEventExact | src/merge/cascade_metadata.py:176-208 | There is a child event exactly when the edge's action writes some child row; it is about the child table, is a delete exactly when rows go, and lists exactly the assigned cells |
| ForeignKeyRows.HiddenChangeCovered | src/merge/cascade_metadata.py:129-208 | Every change of a row made by a chain of foreign-key actions is covered by an event as many actions away |
| ForeignKeyRows.EffectsCoverRows | src/merge/cascade_metadata.py:117-256 | Truncated or not, the closure lists every column that foreign-key actions change in a row, and every table they delete from |
| SqlMetadata.AddColumnsByTable | src/merge/utils.py:37-44 | The merged map meets at each table what either map met |
| SqlMetadata.ParseStatementMetadata | src/merge/sql_metadata.py:156-209 | Metadata is well shaped and its maps show the explicit and every hidden read and write; unless the closure was cut off, nothing else is listed as a hidden event or as read |
| SqlMetadata.AggregateTransaction | src/merge/sql_metadata.py:100-140 | The accumulating loop gives the union over the statements |
| SqlMetadata.ColumnOfTransaction | src/merge/sql_metadata.py:100-140 | A transaction meets a column set exactly when one of its statements does, for writes and reads |
| SqlMetadata.EventOfTransaction | src/merge/sql_metadata.py:100-140 | The transaction's hidden writes are those of its statements |
| SqlMetadata.CascadeOfTransaction | src/merge/sql_metadata.py:100-140 | A transaction has cascade effects exactly when a statement has |
| SqlMetadata.UpdatedTableOfTransaction | src/merge/sql_metadata.py:100-140 | The written tables are those of the statements |
| StaticAnalysis.StaticKinds | src/merge/static_analysis.py:38-121 | A kind is reported exactly when it is enabled and its pairwise predicate holds |
| StaticAnalysis.CandidatePairsMember | src/merge/static_analysis.py:168-180 | The candidate pairs are exactly the statement pairs that overlap in row writes |
| StaticAnalysis.ForeignKeyConflictMeaning | src/merge/static_analysis.py:372-427 | Over the edges alone: flagged exactly when for some edge one side may remove the parent key and the other may create the child key, in either direction |
| StaticAnalysis.ConstraintConflictSymmetric | src/merge/static_analysis.py:201-215 | The constraint check does not depend on which side is called first |
| StaticAnalysis.ImplicitKeyMeaning | src/merge/static_analysis.py:485-606 | For named columns: a conflict exactly when one INSERT leaves a table's integer key to SQLite and the other side inserts there too or assigns that key; two INSERTs that name it never are |
| RowConflicts.InitialEventExact | src/merge/cascade_metadata.py:50-72 | The event the closure starts from covers exactly what the statement itself does to rows |
| RowConflicts.CreatesCounted | src/merge/static_analysis.py:356-371 | A row step that gives new key values is counted as creating the key, whether the statement or a foreign key makes it |
| RowConflicts.RemovesCounted | src/merge/static_analysis.py:407-427 | A row step that takes key values away is counted as removing the key |
| RowConflicts.RunCreates | src/merge/static_analysis.py:340-371 | Over a whole transaction: a row that ends with other key values means the transaction may create the key |
| RowConflicts.RunRemoves | src/merge/static_analysis.py:407-427 | A row that loses its key values means the transaction may remove the key |
| RowConflicts.UniqueSound | src/merge/static_analysis.py:317-337 | Two transactions that each keep a unique key and together break it are flagged |
| RowConflicts.ForeignKeySound | src/merge/static_analysis.py:372-404 | Two transactions that each keep a foreign key and together break it are flagged, where no row's key is changed by both |
| RowConflicts.MixedKeyNotFlagged | src/merge/static_analysis.py:201-302 | A concrete composite key changed by both sides: each keeps the foreign key, both break it, nothing is flagged |
| RowConflicts.WriteWriteSound | src/merge/static_analysis.py:284-302 | Two statements that touch one row, one of them changing or deleting what the other changes, overlap in writes |
| RowConflicts.StepShown | src/merge/sql_metadata.py:156-209 | The written columns of a statement list what it and its foreign keys change in any row, and hidden steps set the cascade flag |
| RemainingMetadata.UpdateColumnCounts | src/merge/remaining_metadata.py:267-284 | One bump moves exactly the counters of those columns, clamped at zero, and leaves no zero and no empty inner map |
| RemainingMetadata.UpdateReferences | src/merge/remaining_metadata.py:207-215 | The referenced map is counted column by column |
| RemainingMetadata.CountsAfterAdd | src/merge/remaining_metadata.py:84-90 | Adding a transaction makes each counter the sum over the longer queue |
| RemainingMetadata.CountsAfterRemove | src/merge/remaining_metadata.py:92-98 | Removing a queued transaction makes each counter the sum over the shorter queue: the clamp never loses a count |
| RemainingMetadata.CanonicalUnique | src/merge/remaining_metadata.py:267-284 | Counter maps with the same counts are equal, so an emptied queue gives empty maps |
| RemainingMetadata.QueueOrderIrrelevant | src/merge/remaining_metadata.py:84-98 | The sums depend on the queue as a multiset only |
| RemainingMetadata.RemainingMetadataIndex.constructor | src/merge/remaining_metadata.py:60-67 | The empty index agrees with the empty queue |
| RemainingMetadata.RemainingMetadataIndex.UpdateCascadeWriteEvent | src/merge/remaining_metadata.py:231-264 | A hidden write moves exactly the counters of its event kind |
| RemainingMetadata.RemainingMetadataIndex.UpdateExplicitWrite | src/merge/remaining_metadata.py:157-205 | An explicit write moves exactly the counters of its statement kind |
| RemainingMetadata.RemainingMetadataIndex.UpdateStatement | src/merge/remaining_metadata.py:150-229 | One statement moves all six counters by its contribution |
| RemainingMetadata.RemainingMetadataIndex.UpdateTransaction | src/merge/remaining_metadata.py:140-148 | A transaction moves all six counters by the sum over its statements |
| RemainingMetadata.RemainingMetadataIndex.AddTransaction | src/merge/remaining_metadata.py:84-90 | The index agrees with the queue extended at its end |
| RemainingMetadata.RemainingMetadataIndex.RemoveTransaction | src/merge/remaining_metadata.py:92-98 | The index agrees with the queue without that position |
| RemainingMetadata.RemainingMetadataIndex.AgreesReordered | src/merge/remaining_metadata.py:84-98 | Agreement holds for every order of the queue |
| RemainingMetadata.RemainingMetadataIndex.AgreementIsUnique | src/merge/remaining_metadata.py:57-98 | Two indexes that agree with one queue hold the same six maps; with the empty queue they are empty |
| RemainingMetadata.FromTransactions | src/merge/remaining_metadata.py:69-78 | The index built from a queue agrees with it |
| RemainingChecks.LookupMeaning | src/merge/remaining_metadata.py:299-313 | A counter lookup succeeds exactly when some queued transaction contributes a column that meets the query |
| IndexRefinement.WriteReadExact | src/merge/remaining_metadata.py:24-54 | The index reports write/read exactly when some queued transaction is flagged pairwise |
| IndexRefinement.KeyConflictExact | src/merge/remaining_metadata.py:417-437 | The key lookup succeeds exactly when some queued transaction may create the same key, explicitly or through an action |
| IndexRefinement.ForeignKeyConflictExact | src/merge/remaining_metadata.py:440-473 | The foreign-key lookup is exact in both directions of an edge |
| IndexRefinement.IntegrityExact | src/merge/static_analysis.py:201-215 | The index reports integrity exactly when some queued transaction is flagged by the pairwise constraint check |
| IndexRefinement.WriteWriteExact | src/merge/remaining_metadata.py:322-359 | The index reports write/write exactly when two row writes, explicit or hidden, share a column and one of them is an update |
| IndexRefinement.ClashIsPairwise | src/merge/static_analysis.py:284-302 | Such a clash is flagged pairwise; without cascade effects the pairwise check flags nothing else |
| IndexRefinement.WriteWriteOneSided | src/merge/static_analysis.py:246-302 | The index never flags write/write without a pairwise flag, and misses none when no side has cascade effects |
| IndexRefinement.InsertBehindCascade | src/merge/static_analysis.py:284-302 | A hidden write into the table of an INSERT is flagged pairwise and is no row-write clash |
| IndexRefinement.InsertQueueNotFlagged | src/merge/remaining_metadata.py:322-359 | A queue of INSERTs is never flagged write/write by the index, while the pairwise check flags it |
| IndexRefinement.CascadingDeleteMeetsInsert | src/merge/static_analysis.py:284-302 | A concrete cascading DELETE and child INSERT that show the gap |
| IndexRefinement.ImplicitKeyExact | src/merge/remaining_metadata.py:362-396 | The index reports implicit keys exactly when a pair does or a queued hidden update writes the omitted key; so every pairwise conflict is reported |
| IndexRefinement.HiddenKeyUpdateMeetsInsert | src/merge/remaining_metadata.py:362-396 | A concrete INSERT without its key and an UPDATE whose foreign key rewrites that key: reported by the index, not by the pairwise check |
| IndexRefinement.KindsMeaning | src/merge/remaining_metadata.py:24-54 | The four returned kinds in terms of the pairwise predicates |
| Database.Session.RollbackSavepoint | src/merge/utils.py:205-214 | Rolling back restores the state at the savepoint and removes it and all above it |
| Database.Session.RunStatement | src/merge/accepted_replay.py:316-379 | One statement on one side, with the deferred foreign-key check after it when asked; a statement that keeps the transaction leaves the savepoints alone |
| Database.ReplayAllCons | src/merge/accepted_replay.py:57-84 | Replaying one transaction and then a list is replaying the longer list |
| AcceptedReplay.SavepointStatementFailure | src/merge/accepted_replay.py:286-313 | The probe reports the statement's failure and leaves state and savepoints as they were |
| AcceptedReplay.StrictConstraintResolutionFailure | src/merge/accepted_replay.py:207-244 | The strict forms are run on both sides without changing either; the result says which side fails |
| AcceptedReplay.StrictFailureMeaning | src/merge/accepted_replay.py:207-244 | A reviewable clause counts as used because of the current transaction exactly when the strict form is not accepted behind it, and no constraint refuses it without it |
| AcceptedReplay.AdvanceTransaction | src/merge/accepted_replay.py:108-165 | Advancing succeeds exactly when both sides replay the transaction, strict checks pass where asked and foreign keys hold; then both sides hold the replayed states |
| AcceptedReplay.ReplayReportsKinds | src/merge/accepted_replay.py:108-165 | A replay that is not asked for strict forms fails with a broken constraint or an error only: never with a kind the user may accept |
| AcceptedReplay.ApplyAcceptedTransaction | src/merge/accepted_replay.py:57-84 | Success is exactly replay on both sides and a log insert that succeeds, with one log group appended; a failed apply, failing log insert included, leaves main, control, log and savepoints untouched |
| Interference.QuietPrefix | src/merge/remaining_execution.py:566-670 | If every reader of the written columns has equal probe rows on both sides, the statements write the same on both and the sides still differ only in those columns |
| Interference.QuietTransaction | src/merge/remaining_execution.py:566-670 | The same for a whole transaction |
| Interference.StatementReads | src/merge/static_analysis.py:259-281 | Columns a statement may read are columns its transaction may read |
| Interference.CandidateFlagged | src/merge/static_analysis.py:183-198 | A reader statement of written columns makes the transaction pair flagged write/read |
| Interference.UnflaggedReadersQuiet | src/merge/static_analysis.py:259-281 | A pair that is not flagged has no reader to check |
| Interference.ReplayStaysWithin | src/merge/accepted_replay.py:108-165 | Replaying a transaction on either side changes only columns its metadata lists as updated |
| RemainingExecution.FindWriteWriteOverlap | src/merge/remaining_execution.py:411-507 | No overlap is reported exactly when the rows of every candidate pair are known where they run and disjoint; an unrefined answer means that some were not known |
| RemainingExecution.RollingWriteReadDependency | src/merge/remaining_execution.py:566-670 | Unrefined exactly when there is a candidate reader and some probe gives no rows; else unaffected exactly when every candidate reader has equal probe rows on both sides where it runs |
| RemainingExecution.OrderedRemainingExecutionScanner.Start | src/merge/remaining_execution.py:67-84 | Opening succeeds exactly when every statement of the current transaction runs on control with the foreign keys holding behind it; then control has replayed it, main is the start state, one savepoint is open |
| RemainingExecution.OrderedRemainingExecutionScanner.StartControl | src/merge/remaining_execution.py:263-295 | It succeeds exactly then; the probes recorded on the way are those of every UPDATE and DELETE that has one, at its index, with the rows it touches where it runs |
| RemainingExecution.OrderedRemainingExecutionScanner.CheckWriteWrite | src/merge/remaining_execution.py:193-261 | The refinement removes the static write/write conflict exactly when no side has foreign-key effects and every candidate row is known and apart; other kinds and both sides unchanged |
| RemainingExecution.OrderedRemainingExecutionScanner.CheckWriteRead | src/merge/remaining_execution.py:297-329 | The refinement removes the write/read conflict exactly when no side has foreign-key effects and the readers are known and quiet; other kinds and both sides unchanged |
| RemainingExecution.OrderedRemainingExecutionScanner.CheckNext | src/merge/remaining_execution.py:91-150 | The result is empty exactly when every enabled check passes and both sides replay; then both have advanced; a conflict leaves both where they were, and its kinds are the static ones that were not cleared, or that of the replay where none stays |
| RemainingExecution.OrderedRemainingExecutionScanner.AcceptNext | src/merge/remaining_execution.py:152-183 | An accepted pair is advanced over exactly when the transaction replays on both sides, strict forms not asked again; otherwise the accepted conflicts are reported with one of a failed replay behind them and both sides are left |
| RemainingExecution.OrderedRemainingExecutionScanner.Close | src/merge/remaining_execution.py:185-191 | Closing restores the start state and the savepoint stack |
| RemainingExecution.ComparedMeans | src/merge/remaining_execution.py:411-507 | Comparing recorded probes clears a pair exactly when, in the database, the rows of every candidate pair are known and apart where the two statements run, and every opposite statement runs |
| RemainingExecution.BothAdvance | src/merge/remaining_execution.py:67-191 | One more transaction on main after the suffix, and on control after current and suffix |
| ConflictDetection.KeyFixesSql | src/merge/conflict_detection.py:20-46 | Equal resolution keys mean the same two transactions with the same statement texts and the same conflicts, kind and message |
| ConflictDetection.OneMorePasses | src/merge/conflict_detection.py:93-168 | One more passed or accepted transaction keeps the record of the whole scan |
| ConflictDetection.OrderedRemainingConflictScanner.AcceptCurrentConflict | src/merge/conflict_detection.py:93-114 | The pause is passed under its key exactly when the transaction replays on both sides; otherwise the conflicts with the failed replay are reported at the same place, and cannot be accepted |
| ConflictDetection.OrderedRemainingConflictScanner.AdvanceOne | src/merge/conflict_detection.py:129-166 | A transaction that passes every check is passed; any other stops the scan under the key of its conflicts, or is passed because that key was accepted before |
| ConflictDetection.OrderedRemainingConflictScanner.NextConflict | src/merge/conflict_detection.py:116-168 | With no conflict the scan is over the whole suffix and every transaction passed or was accepted; else it is paused at the first place that does not pass, under the key of its conflicts; a scan with nothing accepted ends without a pause exactly when the head runs on control and all pass behind it |
| ConflictDetection.OrderedRemainingConflictScanner.Close | src/merge/conflict_detection.py:170-173 | The state and savepoints before the scan are restored |
| MergeTool.KindsNeeded | src/merge/remaining_metadata.py:24-54 | The kinds the index enables for a head are exactly those some queued transaction gives reason for, in pairwise terms |
| MergeTool.IndexCovers | src/merge/remaining_metadata.py:24-54 | The kinds the index enables cover every kind a pair with the queue needs |
| MergeTool.TerminalMerge.ReplaceOrDelete | src/merge/terminal_mergetool.py:324-338 | Replacing or deleting in place keeps index and queue in agreement |
| MergeTool.TerminalMerge.ResolveStandalone | src/merge/terminal_mergetool.py:341-376 | The head is deleted, replaced by exactly the user's transaction or kept, as the one reply says; the opposite queue stays |
| MergeTool.TerminalMerge.ResolvePair | src/merge/terminal_mergetool.py:379-423 | A pair is accepted exactly when the reply accepts and the conflict may be accepted; otherwise the head changes by the reply's own half and the opposite transaction by the other half, and nothing else changes |
| MergeTool.TerminalMerge.ContinueScanAfter | src/merge/log_merge.py:518-537 | After an edit of the opposite side the enabled kinds again cover the whole queue |
| MergeTool.TerminalMerge.HandlePairConflict | src/merge/terminal_mergetool.py:559-592 | One reply is consumed and both queues are what it says; an accepted pair that replays on both sides is passed, one that does not comes back once and cannot be accepted; the scan goes on, restarts or ends with the state restored |
| MergeTool.TerminalMerge.TryHead | src/merge/terminal_mergetool.py:507-616 | One pass over the head takes it without a reply, or asks for a reason and does what the reply says; a first pass takes it exactly when it is quiet |
| MergeTool.TerminalMerge.CheckAcceptCurrent | src/merge/terminal_mergetool.py:491-616 | A turn is a conversation: every prompt had a reason where it was put, no accepted pair is put again unless it does not replay, only a last reply takes the head away, and both queues are what the replies made of them, less an accepted head; a head that is applied met a queue of which every transaction, in its present version, passed its check under all kinds it needs or was accepted, or none needed a check; it is taken without a reply exactly when it is quiet |
| MergeRun.Turn | src/merge/terminal_mergetool.py:670-679 | A turn keeps main and control at the replay of the accepted transactions and the log at one group for each; it needs no reply exactly when the head, if any, is quiet |
| MergeRun.Round | src/merge/terminal_mergetool.py:670-679 | A local and a remote turn; without replies both heads are accepted, exactly when both are quiet |
| MergeRun.TakeTurns | src/merge/terminal_mergetool.py:670-679 | Main, control and log are the accepted transactions replayed in order; each was queued at the start or supplied by the user, and none is blocked; rounds are at most the longer queue; with no reply needed the order is the fixed interleaving, and none is needed exactly when in that order every head is quiet |
| MergeRun.ResolveMergeTransactions | src/merge/terminal_mergetool.py:631-687 | Both branches reviewed from base alone, both queues indexed, then the turns: a finished merge is base with transactions of the clean branches, or of the user, replayed and logged in order; two clean branches are merged in the fixed order when no reply is given, and with no replies the merge finishes exactly when in that order every head is quiet |
| ControlAgreement.RewrittenAgrees | src/merge/control_db.py:106-173 | A rewritten statement does to control, failure included, what the original does to main, for every reading of statement texts by syntax |
| ControlAgreement.SidesAgree | src/merge/accepted_replay.py:108-165 | At every turn boundary main and control agree; only an UPSERT needs its own agreement assumed |
| NonInterference.SeparatedStep | src/merge/remaining_execution.py:566-670 | Quiet readers write the same on both sides and keep main and control apart only in the same columns for one more transaction |
| NonInterference.SeparatedWider | src/merge/conflict_detection.py:93-114 | A transaction advanced over without such a check widens the difference by its own columns at most |
| NonInterference.CoverageQuiet | src/merge/conflict_detection.py:116-168 | Whatever else was accepted, a transaction that was not accepted has quiet readers of the head's columns, through its check or through the index filter |
| NonInterference.UnreachedIsHarmless | src/merge/terminal_mergetool.py:491-616 | Whatever the user accepted: main and control differ only in the columns of the head and of transactions an acceptance reaches, and every other transaction makes the same writes as without the head, statement by statement |
| NonInterference.AcceptedHeadIsHarmless | src/merge/terminal_mergetool.py:491-616 | Up to the first accepted pair every opposite transaction makes the same writes, and the sides differ only in the head's columns |
| NonInterference.AcceptedPairHidesReader | src/merge/conflict_detection.py:93-168 | A concrete run in which a reader passes its check after an accepted pair and yet writes something else |
| BranchSafety.StatementIssue | src/merge/terminal_mergetool.py:82-140 | A statement has no issue exactly when it is not blocked for good and the user has accepted every warning it raises where it runs; a warning shown is one it raises and the user has not accepted |
| BranchSafety.FirstPending | src/merge/terminal_mergetool.py:218-231 | A warning is pending exactly when some stored warning other than the UPDATE FROM one is not accepted; the one shown is such a warning |
| BranchSafety.BranchTransactionReplayIssue | src/merge/terminal_mergetool.py:82-167 | No issue exactly when the transaction replays and every statement is reviewed where it runs; the issue shown is that of the first statement that is not or fails, or the foreign keys broken at the end; it leaves the copy untouched |
| BranchSafety.RebuiltPieces | src/merge/terminal_mergetool.py:234-288 | The edited transaction has every piece in its place: new statements as written, kept ones as they were but for the acceptance of the warning shown |
| BranchSafety.RebuiltFrom | src/merge/terminal_mergetool.py:234-244 | An edited transaction holds the user's statements and old ones with at most the shown warning accepted |
| BranchSafety.ResolveBranchTransaction | src/merge/terminal_mergetool.py:247-288 | The result is what the consumed replies make of the transaction, each given to an issue it then had, and is clean where it runs or gone by the last reply; a clean transaction is returned as it is without asking |
| BranchSafety.ResolveBranchReplaySafety | src/merge/terminal_mergetool.py:291-321 | The resolved branch is, transaction by transaction and in order, what its share of the replies makes of it; it replays from base alone with nothing unreviewed; a clean branch comes back unchanged without a question |
| BranchSafety.CleanRunIsSafe | src/merge/log_merge.py:132-142 | Every transaction of a resolved branch may replay automatically |
| RowMerge.TakenKeysMember | src/row_merge/sqlite_reconcile.py:309-326 | The relevant unique keys are exactly those of the indexes the statement concerns for which its row has a value, and no NULL, in every column |
| RowMerge.AddUniqueKeys | src/row_merge/sqlite_reconcile.py:328-352 | All taken keys point to the statement, the others are kept |
| RowMerge.CheckUniqueKeys | src/row_merge/sqlite_reconcile.py:328-352 | Exactly the clashing keys are reported, each for its pair and index |
| RowMerge.Build | src/row_merge/sqlite_reconcile.py:428-492 | The hash tables hold every statement of a valid table by row and by unique key |
| RowMerge.LookupStatement | src/row_merge/sqlite_reconcile.py:500-618 | One probe gives a match, an extra or the exact conflicts of the statement |
| RowMerge.Lookup | src/row_merge/sqlite_reconcile.py:500-618 | After the loop matched, extra and conflict lists are exact, without duplicates, and the met rows are gone from the table |
| RowMerge.Remaining | src/row_merge/sqlite_reconcile.py:618-624 | The rows nobody met, each once |
| RowMerge.CheckConflictAndReturnDiffs | src/row_merge/sqlite_reconcile.py:400-624 | The buckets in terms of the two diffs alone: matched, extra, row conflicts and unique conflicts |
| RowMerge.DiffCells | src/row_merge/sqlite_reconcile.py:400-419 | What a diff says of one row, cell by cell: the inserted row, the changed cells over the rest of the base row, or no row |
| RowMerge.ApplyAllAt | src/row_merge/sqlite_reconcile.py:400-419 | A script that touches each row once acts on each row by its one statement |
| RowMerge.ScriptDistinct | src/row_merge/sqlite_reconcile.py:494-624 | The three buckets never share a row |
| RowMerge.ConflictFreeRow | src/row_merge/sqlite_reconcile.py:400-624 | Without conflicts each row is merged three ways; rows of invalid tables stay as in base |
| RowMerge.NoCrossClash | src/row_merge/sqlite_reconcile.py:309-352 | Without conflicts a row changed by ours and one changed by theirs share no unique key |
| RowMerge.ConflictFreeUnique | src/row_merge/sqlite_reconcile.py:400-624 | No two merged rows have, in every column of a unique index, values that are equal and not NULL |
| RowMerge.ConflictFreeMerge | src/row_merge/sqlite_reconcile.py:400-624 | Applying the buckets to base gives the three-way merge of the snapshots, and no two rows meet on a unique index |
| RowMerge.BuildSideIndependent | src/row_merge/sqlite_reconcile.py:420-427 | Without unique indexes the buckets and conflicts are the same sets whichever diff is hashed |
| RowMerge.BuildSideMattersForClashes | src/row_merge/sqlite_reconcile.py:500-624 | In general the extra buckets agree exactly when no lone row takes a key the other side takes |
| RowMerge.TwoInsertsClash | src/row_merge/sqlite_reconcile.py:500-624 | Two concrete diffs with a lone clash: which one is extra depends on the hashed side |
| RowMerge.UniqueConflictsExactly | src/row_merge/sqlite_reconcile.py:328-352 | For diffs of snapshots that keep UNIQUE the unique conflicts are exactly the pairs of different statements whose rows have equal values, none NULL, in every column of an index both concern |
| RowMerge.BothTakeMeaning | src/row_merge/sqlite_reconcile.py:309-352 | Two statements take one key exactly when both concern the index and their rows meet on it: present, equal and not NULL in every column |
| RowMerge.NullNeverClashes | src/row_merge/sqlite_reconcile.py:328-352 | A unique conflict names an index in every column of which both rows have a value that is not NULL; so a row with a NULL in each unique index is in none |
| RowMerge.ConflictsIndependent | src/row_merge/sqlite_reconcile.py:420-427 | So pair by pair the reported conflicts are the same whichever diff is hashed |
| RowMerge.OneBucketEach | src/row_merge/sqlite_reconcile.py:500-624 | Without unique indexes every ours statement is in exactly one of matched, extra and conflict |
| RowMerge.OneBucketEachTheirs | src/row_merge/sqlite_reconcile.py:500-624 | The same for every theirs statement |
| Wrapper.LastNamed | src/sqlite_wrapper/wrapper.py:244-250 | The innermost entry of that name, compared without case |
| Wrapper.SameNameIgnoresCase | src/sqlite_wrapper/wrapper.py:241-250 | Two names are the same exactly when they are spelled alike up to the case of ASCII letters |
| Wrapper.TidyFinds | src/sqlite_wrapper/wrapper.py:241-250 | Under either discipline the wrapper's search finds the record of SQLite's savepoint |
| Wrapper.StepExact | src/sqlite_wrapper/wrapper.py:347-394 | From any state reached without a miss, a command keeps buffer and log right exactly when it is not missed |
| Wrapper.RunRefines | src/sqlite_wrapper/wrapper.py:189-250 | A run that misses no command keeps the buffer equal to the surviving work and the log to the committed work |
| Wrapper.RunExact | src/sqlite_wrapper/wrapper.py:189-250 | For every run: buffer and log are right after each command exactly when the run misses none |
| Wrapper.DisciplineSuffices | src/sqlite_wrapper/wrapper.py:225-250 | A run that never reuses a live name, or releases only the innermost savepoint, and does not commit by END misses none |
| Wrapper.StaysMonotone | src/sqlite_wrapper/wrapper.py:225-250 | Recorded buffer lengths stay within the buffer and never fall along the stack |
| Wrapper.RollbackToExact | src/sqlite_wrapper/wrapper.py:241-250 | ROLLBACK TO keeps the buffer right exactly when no statement took effect between SQLite's savepoint and the innermost one of that name not forgotten |
| Wrapper.ShadowedRollback | src/sqlite_wrapper/wrapper.py:233-250 | A run with a reused name and an outer RELEASE after which the buffer keeps a statement SQLite has undone |
| Wrapper.EndIsMissed | src/sqlite_wrapper/wrapper.py:377-394 | A commit spelled END leaves the wrapper in its transaction with nothing logged |
| Wrapper.SafeEntriesReplay | src/sqlite_wrapper/wrapper.py:340-345 | Safe entries replay what the wrapper ran |
| Wrapper.LoggedRunsReplay | src/sqlite_wrapper/wrapper.py:347-394 | After any run that missed no command and logged only safe entries, the log replays the initial state to the committed one |
| Wrapper.ErrorIsRemembered | src/sqlite_wrapper/wrapper.py:292-298 | The first error of a transaction stays until it ends, across ROLLBACK TO and RELEASE |
| Wrapper.ErrorBlocksTransaction | src/sqlite_wrapper/wrapper.py:199-216 | If a transaction with an error commits, by COMMIT or by releasing its outermost savepoint, all its effects are logged in order and none may replay: one that raised names its own error, the others keep their reason or have the first error of the transaction |
| Wrapper.ErrorOutcome | src/sqlite_wrapper/wrapper.py:300-375 | A raising statement leaves an entry exactly when rows changed and the transaction survived; the entry keeps both texts, may not replay, and names the error behind any reason it had; a vanished transaction leaves none |
| Wrapper.UnsafeRunsOwnText | src/sqlite_wrapper/wrapper.py:340-345 | A statement that may not replay is run as the user wrote it |
| Wrapper.SQLiteWrapper.constructor | src/sqlite_wrapper/wrapper.py:170-178 | A new wrapper is in step with its connection |
| Wrapper.SQLiteWrapper.Flush | src/sqlite_wrapper/wrapper.py:199-216 | The buffer is logged as one group, blocked throughout after an error, and the state is reset |
| Wrapper.SQLiteWrapper.ReleaseSavepoint | src/sqlite_wrapper/wrapper.py:233-239 | One record goes; a RELEASE that committed flushes |
| Wrapper.SQLiteWrapper.RollbackToSavepoint | src/sqlite_wrapper/wrapper.py:241-250 | The backward search truncates at the innermost record of the name, or does nothing |
| Wrapper.SQLiteWrapper.ExecuteOn | src/sqlite_wrapper/wrapper.py:347-394 | The whole new state of wrapper and connection for every command and error |
| Wrapper.SQLiteWrapper.ExecuteStatement | src/sqlite_wrapper/wrapper.py:398-401 | A command that is not missed keeps the object in step |
| Wrapper.SQLiteWrapper.ExecuteScript | src/sqlite_wrapper/wrapper.py:411-417 | A script runs up to its first error and, if it misses nothing, stays in step |
| SqlScanner.TopLevelKeywordIndexes | src/sqlite_conflict_resolution.py:302-376 | The loop yields, in order, exactly the words that start outside parentheses, quotes, brackets and comments, as a character automaton defines them |
| SqlScanner.PrefixLocality | src/sqlite_conflict_resolution.py:302-376 | The state after a prefix depends on the prefix and one character of lookahead |
| SqlScanner.SuffixLocality | src/sqlite_conflict_resolution.py:302-376 | Equal states before one tail stay equal along it |
| SqlScanner.SuffixWords | src/sqlite_conflict_resolution.py:302-376 | The later words of one tail are the same up to a shift |
| ConflictResolution.TopLevelPatternMatch | src/sqlite_conflict_resolution.py:291-299 | The first top-level word whose text matches, or none |
| ConflictResolution.RestoreThenRemove | src/sqlite_conflict_resolution.py:176-226 | A restored clause is found and removed again; the text is the same exactly when one space followed the verb |
| ConflictResolution.RemoveThenRestore | src/sqlite_conflict_resolution.py:176-226 | The clause goes back to its place exactly when the matched UPDATE is the first one; then removing again gives the same text and resolution |
| ConflictResolution.MisplacedClause | src/sqlite_conflict_resolution.py:185-193 | An earlier UPDATE takes the clause and the text is another one |
| ConflictResolution.EarlierUpdate | src/sqlite_conflict_resolution.py:176-193 | A concrete text whose clause comes back in another place |
| ConflictResolution.RemovalShifts | src/sqlite_conflict_resolution.py:210-226 | Removing a clause keeps every earlier word and its verb, and shifts every later one |
| RollbackClauses.SpacedIsPattern | src/sqlite_conflict_resolution.py:124-138 | The pattern of the rewrite is exactly the clause, in SQLite's tokens, with spaces alone and a space behind it |
| RollbackClauses.RemoveSame | src/sqlite_conflict_resolution.py:210-226 | Removing the first clause of a verb leaves none of that verb exactly when each is removable |
| RollbackClauses.RemoveOther | src/sqlite_conflict_resolution.py:210-226 | And changes nothing about the clauses of the other verb |
| RollbackClauses.NeutralizedExactly | src/sqlite_conflict_resolution.py:124-138 | For every text: no OR ROLLBACK is left, as SQLite reads it, exactly when each is spelled with spaces alone, is not repeated and is the only one of its verb |
| RollbackClauses.CommentedClause | src/sqlite_conflict_resolution.py:124-138 | A concrete INSERT with a comment in the clause keeps it |
| RollbackClauses.QuotedClause | src/sqlite_conflict_resolution.py:124-138 | A concrete UPDATE with a quoted name right behind the clause keeps it |
| ConflictResolution.OnConflictExactly | src/sqlite_conflict_resolution.py:280-288 | The pattern is the words ON and CONFLICT with spaces between them and no identifier going on behind |
| ConflictResolution.StripUpsertCases | src/sqlite_conflict_resolution.py:196-207 | A text that begins, behind spaces, with INSERT or WITH is cut off at its first top-level ON CONFLICT, without the spaces before it and with the semicolon that closed it; no other text is touched |
| ConflictResolution.StrippedLeavesNone | src/sqlite_conflict_resolution.py:196-207 | No ON CONFLICT of the code's own pattern is left, and stripping again finds nothing |
| UpsertClauses.StrippedExactly | src/sqlite_conflict_resolution.py:196-207 | For every text: no ON CONFLICT is left, as SQLite reads it, exactly when each stands in a text that begins like an INSERT, at or behind one spelled with spaces alone |
| UpsertClauses.CommentedUpsert | src/sqlite_conflict_resolution.py:280-288 | A concrete INSERT with a comment between the words keeps its UPSERT |
| ConflictResolution.CutMoves | src/sqlite_conflict_resolution.py:83-115 | Removing a clause moves the place of the UPSERT cut by the removed characters and creates none |
| ConflictResolution.UpdateComesBack | src/sqlite_conflict_resolution.py:83-226 | A text restored and normalized is itself again exactly when one space follows its first UPDATE and no UPSERT is cut off up to there |
| ConflictResolution.NormalizeRoundTrip | src/sqlite_conflict_resolution.py:83-115 | Normalized, restored and normalized again gives the same text and resolution exactly when the matched UPDATE is the first one, or that one has one space behind it, and no UPSERT is cut off at or before the word behind it |
| ConflictResolution.NormalizeCases | src/sqlite_conflict_resolution.py:83-115 | What is found, in this order: an UPDATE OR clause; an INSERT OR clause, which stays; a REPLACE INTO, which becomes the INSERT OR REPLACE it stands for; nothing. The resolution is that of the first such clause |
| ConflictResolution.UpdateOrFail | src/sqlite_conflict_resolution.py:83-226 | A concrete statement normalized to plain UPDATE and restored to itself |
| ControlDb.StatementExactly | src/merge/control_db.py:197-259 | A statement has a control form exactly when it is a query or a write of one table, and every table in it names a common table expression in sight or is a persistent table without a schema, of `main` or of `control`; the written one is a persistent table |
| ControlDb.EvalKept | src/merge/control_db.py:154-173 | A rewritten expression over (main, control) means what the original means with control as main, for every operator semantics and any fuel |
| ControlDb.StatementKept | src/merge/control_db.py:154-194 | The same for whole statements; the write goes to the same table of control and never to a common table expression |
| ControlDb.RewriteExposes | src/merge/control_db.py:262-269 | A rewritten source keeps the name columns refer to it by; a qualified table carries it as its alias |
| ControlDb.BindingsKept | src/merge/control_db.py:197-238 | Every occurrence keeps its binding, tables moved to control, exactly when references are spelled as declared |
| ControlDb.CapturedByTable | src/merge/control_db.py:208-219 | A reference spelled unlike its declaration is taken for the table of that spelling |
| ControlDb.MisspelledReference | src/merge/control_db.py:208-219 | A concrete statement whose rewrite reads another relation |
| ControlDb.CollectPersistentTableReferences | src/merge/control_db.py:197-238 | The recursion succeeds exactly when the rewrite does and collects what the rewrite qualifies, in order |
| ControlDb.CollectedAreTables | src/merge/control_db.py:176-194 | What is collected is what SQLite binds to tables |

## Left out

- Interference.Predictable: a hypothesis on each statement. An UPDATE or DELETE without WHERE, an INSERT that leaves its integer key to SQLite, INSERT OR IGNORE or OR REPLACE, and an UPSERT may write what their metadata does not determine, and are outside it.
- ControlAgreement.SidesAgree: assumes of an UPSERT, whose control replay is the strict INSERT, that main writes the same where that INSERT succeeds; of the other statements, that SQLite does with both texts what their syntax means.
- NonInterference.UnreachedIsHarmless: one direction. A transaction an acceptance reaches may still write the same; `AcceptedPairHidesReader` shows that it need not.
- IndexRefinement.WriteWriteOneSided: the converse with cascade effects is false; `CascadingDeleteMeetsInsert` shows it and `WriteWriteExact` says what the index does detect.
- StaticAnalysis.ImplicitKeyMeaning: for metadata that names columns; a column called `*` cannot be told from the wildcard.
- RowConflicts.ForeignKeySound: one direction, and for two transactions of which no row's key is changed by both; `MixedKeyNotFlagged` shows that the condition is needed. Rows an INSERT OR REPLACE or an UPSERT deletes or updates are not among the steps of a statement.
- RowConflicts.UniqueSound: one direction; the static check flags pairs that need not clash, which the scan then tries out.
- Wrapper.SameNameIgnoresCase: the wrapper folds Unicode names too, SQLite only ASCII letters; names are ASCII in the model.
- RowMerge.ConflictFreeMerge: states the final snapshot; a UNIQUE violation in the middle of applying the script, and the order SQLite would need to avoid it, are not modelled.
- RowMerge.CheckConflictAndReturnDiffs: requires that each diff touches a row once and that a row inserted by one diff is not updated or deleted by the other, as two diffs of one base do; foreign-key dictionaries are left out.
- Wrapper.LoggedRunsReplay: the log is written after COMMIT in a second transaction; a crash between the two is not modelled.
- ConflictResolution.NormalizeRoundTrip: rendering by sqlglot between the two normalizations is not modelled; `RestoreThenRemove` covers any rendered text with one space after its first UPDATE.
- RollbackClauses.NeutralizedExactly: a lone carriage return ends a line comment for the code's scanner and not for SQLite; the clause is defined over the scanner's comments. The reviewable and strict rewrites use the same patterns and miss the same spellings; which statements they see is an input of the merge.
- UpsertClauses.StrippedExactly: tells by tokens, not by grammar: a join constraint on a table named `conflict` also reads ON CONFLICT, and the code cuts there as well.
- SqlScanner.TopLevelKeywordIndexes: character classes are ASCII, without the separators 28 to 31 that Python also counts as spaces; Unicode letters, digits and spaces are not modelled.
- ControlDb.EvalKept: column references that name a schema (`main.t.x`) are not part of the syntax, and the rewrite builds a new tree where the source mutates its nodes.
- SQL parsing, scope resolution and rendering by sqlglot: statement metadata starts from the parsed facts.
- Schema loading by PRAGMA, copying and attaching databases, temporary probe tables and their names: given schema, snapshots and row sets.
- Message texts, labels and conflict details; one static conflict stands for all of its kind.
- Prompts, editors and printing: replies are given.
- Replay preparation of nondeterministic SQL: the prepared entry is an input of the wrapper.
- Statement splitting of scripts and statement spellings such as `ROLLBACK TRANSACTION TO`, and the extraction of a savepoint name from its text.
- The foreign-key pass of the row merger, which is unfinished in the source, and integrity checks that decide which tables are invalid: the set of invalid tables is an input.
- Reviewable and strict rewrites of conflict clauses beyond the clauses they match: they add no new kind of property.
- Reading the logs, grouping their rows into transactions and checking the base watermark: queues are given.
- Writing the merged file and restoring the original databases on failure.
