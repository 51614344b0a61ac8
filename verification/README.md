# Session archive: a verified model

The program keeps an archive of agent sessions: it parses transcripts, stores them in SQLite and
aggregates them.  This project models the parts where something can quietly go wrong and proves
what they are meant to keep, in Dafny.  `dafny verify dfyconfig.toml` checks everything.

| file | what it models |
|---|---|
| ClaudeDag.dfy | splitting a transcript's uuid forest into a main branch and fork sessions |
| ClaudeForks.dfy | its rule at a fork point, in numbers: which child is taken, forked off or dropped, and in which order |
| ClaudeTermination.dfy | when the loops over that forest end, repeated uuids included |
| ClaudeGrowth.dfy | how the main branch grows when a file is appended to |
| ClaudeChunks.dfy | folding streaming snapshots of one message into one entry |
| ClaudeEndings.dfy | what an end of turn changes, block by block |
| ClaudeIncremental.dfy | message extraction, queued commands, and the incremental parser against the full one |
| ClaudeAgreement.dfy | when exactly the incremental parser and the full one agree |
| ClaudeMessages.dfy | what every line and command turns into, field by field, and the guards of the incremental parser entry by entry |
| Store.dfy | tables, keys, cascades, triggers and the full-text index |
| StoreMessages.dfy | inserting and replacing messages, tool calls and pins |
| StoreLifecycle.dfy | upsert, trash, restore and permanent deletion |
| StoreBatch.dfy | the two batch writers |
| StoreCarried.dfy | the rows, tool calls and pins that a replace and a batch write leave |
| StoreOrphans.dfy | copying sessions from an old database |
| StoreImport.dfy | suspending search during an import |
| StoreRuns.dfy | every run of these operations, and a whole rebuild |
| StoreOutcomes.dfy | when messages are refused, and what each operation on sessions, an import and a copy leave |
| Usage.dfy, UsageSessions.dfy | token usage by day, by session, and session counts |
| UsageRows.dfy | which messages count, and which sum every figure is |
| Pagination.dfy | cursor pagination, over a still and over a changing table |
| ChildClosure.dfy | the filter that includes child sessions |
| LikeEscape.dfy | literal text in LIKE patterns, and the search for sessions to prune |
| Fingerprints.dfy | the encodings behind change detection |
| Trends.dfy | counting terms and the date buckets |
| Timing.dfy | attribution of turn time to categories |
| TimingTurns.dfy | what the timing shows, in terms of the rows it is read from |
| Worktree.dfy | longest-prefix project mappings |
| Activity.dfy | activity buckets |
| Common.dfy, Ordering.dfy | shared: options, sorting, the order of strings |

Code that changes state is modelled as methods on a handle or an object (`Store.Db`,
`ClaudeDag.DagWalker`, `StoreImport.LazyFTS`, `Worktree.Archive`) and as loops with invariants; each
method is proved against a specification function or predicate, and the lemmas say what that
specification means, down to the fields and numbers of the rows themselves: which limit decides, which
column a figure comes from, what is kept and in which order.  A statement of a `Db` that is not `reliable`, reads included, may fail at any point, so that
rollback, and what happens when an error is dropped, are part of every contract.

## Where the code does not do what it says

* The two guards of the DAG parser (one root, every parent known) check neither distinct uuids nor
  cycles.  With distinct uuids `EntryIsKeptIffRooted` says exactly which entries survive, and
  `CycleIsLost` gives an input that loses one.  With repeated uuids the loops need not end: they do
  exactly when no path of links comes back to an entry it has passed (`CountEndsIff`, `WalkEndsIff`);
  `RepeatedUuidWalksForever` gives an input on which neither does.
* Upserts refuse permanently deleted and trashed sessions, but drop the errors of the two queries that
  look for them.  When such a query fails, the guard does not hold: a deleted session comes back
  (`UnreadExclusionExample`), a trashed one is overwritten (`UnreadTrashExample`).  `StepSeparatesIff`,
  `StepKeepsAwayIff` and `WriterLeavesTrashIff` say exactly when, `RunSeparatesIff`,
  `DeletedStaysDeletedIff` and `WritersLeaveTrashIff` for whole runs; `GuardsDoNotMatterIff` says for
  which upserts it makes no difference.  The batch writers check the same errors.
* The fork guard of the incremental parser compares each entry with the one before it inside the
  tail only.  A tail whose first entry continues an older entry is let through although the full
  parse would fork or drop there.  For files of every shape `MainGoesOnIff` is the exact condition
  under which the full parse goes on with the tail; `BoundaryForkIff` spells it out for chains.
* The comment on time attribution says that overlapping sub-agents are under-estimated.  Each of them
  is charged in full, so the categories add up to more than the turn: `CategoriesHoldAllTime`,
  `OverlappingSubagentsCountTwice`.
* The comment on copied pins speaks of a fallback to the ordinal.  Both passes always run, so a pin
  also lands on every other message with the same source uuid: `PinsAreCarriedExactly`,
  `SurplusPinExample`.
* Interval scaling is described as being for sessions longer than fifty buckets of the widest step; it
  already sets in at 100 minutes: `ScalingSetsInEarly`.
* When dropping the index fails part-way, the import goes on and never rebuilds it, without an error:
  `ImportLeavesSearchIff` states exactly when search is up again, `AllOrNothingKeepsSearch` that it
  always is as long as the four drop statements run together or not at all.
* After a failed commit both batch writers return the counters of the batch that was undone
  (`IsReported`, `IsAtomicReport`).
* Escaped user text is meant to be matched literally.  LIKE reads pattern and text up to a NUL, so a
  needle with one loses its last wildcard: `ContainsIsLiteralIff`, `PrefixIsLiteralIff`,
  `HiddenTextExample`.
* The queries order mappings by length(), which stops at a NUL, the program orders them by bytes: a
  prefix with a NUL can come after a shorter one that it contains.  `CharsBestIsLongestIff` says when the
  first match is still the longest, `HiddenPrefixExample` shows one that is not.

## Model

| member | source | states |
|---|---|---|
| ClaudeDag.DagWalker.CountUserTurns | internal/parser/claude.go:1224-1240 | the stack loop visits each entry of the subtree once and counts exactly its user entries; it terminates even beside cycles |
| ClaudeDag.DagWalker.WalkBranch | internal/parser/claude.go:741-785 | the path and the appended fork branches are those of the recursive walk, nested forks first |
| ClaudeDag.DagWalker.ForkOff | internal/parser/claude.go:765-781 | every later child of a large gap becomes a branch owned by the branch it left |
| ClaudeDag.WalkConserves | internal/parser/claude.go:692-824 | an entry below the start lies on exactly one branch, once, or below exactly one dropped child; no other entry turns up |
| ClaudeDag.WalkShape | internal/parser/claude.go:741-785 | each branch is a parent chain that takes the prescribed child at every step down to a leaf; forks start only at later children of large gaps, children are dropped only before the last child of a small gap, and every fork records the branch holding its parent |
| ClaudeForks.BranchesTakeTheRule | internal/parser/claude.go:741-785 | where several entries continue one, every branch goes on with the last of them after at most three user entries below the first, with the first otherwise, down to a leaf |
| ClaudeForks.StartsAForkIff | internal/parser/claude.go:761-781 | an entry starts a fork exactly when its parent is on a branch, an earlier entry continues the same parent and at least four user entries hang off the first that does |
| ClaudeForks.IsDroppedIff | internal/parser/claude.go:761-764 | an entry is dropped with all below it exactly when its parent is on a branch, a later entry continues the same parent and at most three user entries hang off the first that does |
| ClaudeForks.ForksInOrder | internal/parser/claude.go:741-785 | forks of a fork come before it, those of an earlier child before those of a later one, and what leaves a branch before what leaves it further down |
| ClaudeForks.RetriedPromptSessions | internal/parser/claude.go:32 | a prompt retried after n turns, for every n: up to three are dropped and there is one session, from four on the retry is a fork session with its id, parent and entries |
| ClaudeDag.EntryIsKeptIffRooted | internal/parser/claude.go:692-824 | an entry is accounted for once if its parent chain ends, and lost if the chain runs into a cycle |
| ClaudeDag.ParentsEarlierIsRooted | internal/parser/claude.go:692-726 | with every parent earlier in the file no chain is cyclic |
| ClaudeDag.NothingIsLost | internal/parser/claude.go:692-824 | a file written front to back keeps every entry exactly once |
| ClaudeDag.CycleIsLost | internal/parser/claude.go:709-726 | an input that passes both guards and loses an entry that sits on a cycle |
| ClaudeTermination.CountEndsIff | internal/parser/claude.go:1224-1240 | with no demand on the uuids: the stack loop that counts user turns ends exactly when no path of child links from its start comes back to an entry it has passed |
| ClaudeTermination.WalkEndsIff | internal/parser/claude.go:741-785 | the same for the walk with all its forks, over the links it actually follows |
| ClaudeTermination.StuckWalkNeverEnds | internal/parser/claude.go:741-785 | a walk that gets to a fork point whose count does not end never ends |
| ClaudeTermination.WalkEndsWithoutCycles | internal/parser/claude.go:741-785 | without such a path of child links the walk ends |
| ClaudeTermination.RootedNeverComesBack | internal/parser/claude.go:692-726 | with distinct uuids no path below an entry with an ending parent chain comes back |
| ClaudeTermination.TurnsAreUserTurns | internal/parser/claude.go:1224-1240 | and there the count is the number of user entries below |
| ClaudeTermination.RepeatedUuidWalksForever | internal/parser/claude.go:709-726 | an input that passes both guards and on which after any number of turns both loops have work left |
| ClaudeGrowth.MainGrowsIff | internal/parser/claude.go:741-785 | appending to a file of any shape, forks included: the main branch goes on with the whole tail exactly when the tail continues its last entry |
| ClaudeDag.ParseDag | internal/parser/claude.go:692-824 | the DAG path is taken exactly for one root and known parents, and yields the main session followed by the fork sessions |
| ClaudeDag.SessionIDsDiffer | internal/parser/claude.go:787-826 | the ids of the main session and of all forks are pairwise different |
| ClaudeDag.ForkParentIsItsBranch | internal/parser/claude.go:787-826 | the recorded parent of a fork is the session holding the parent of its first entry |
| ClaudeDag.ChainWalksStraight | internal/parser/claude.go:741-785 | a chain of entries is walked whole, in file order, without forks |
| ClaudeDag.ForkIsNotStraight | internal/parser/claude.go:741-785 | any entry that continues another one than its predecessor keeps the walk from that |
| ClaudeChunks.MergeSnapshot | internal/parser/claude.go:1091-1110 | one snapshot folded in place: overlay while cumulative, append what is new otherwise |
| ClaudeChunks.MergeRun | internal/parser/claude.go:1052-1078 | a whole run folds to the last entry with the merged content, stopping at an earlier end of turn |
| ClaudeEndings.EndedTurnAppends | internal/parser/claude.go:1069-1110 | after an earlier end of turn a snapshot leaves every block in place and appends those that are not there yet |
| ClaudeEndings.EndedTurnStays | internal/parser/claude.go:1069-1110 | what was shown at an end of turn is a prefix, block for block, of what is shown after any number of later entries |
| ClaudeEndings.LaterBlocksAreKept | internal/parser/claude.go:1091-1188 | every block that comes after an end of turn is in the result, itself or as a tool call with its id |
| ClaudeEndings.OpenTurnOverlays | internal/parser/claude.go:1091-1166 | without an earlier end of turn an aligned snapshot takes the place of what it continues, a shorter text excepted, and any other one is appended |
| ClaudeEndings.RestIsTheLasts | internal/parser/claude.go:1052-1078 | everything but the content is the last entry of the run's own |
| ClaudeChunks.MergeChunks | internal/parser/claude.go:1008-1038 | the pass replaces each maximal run by one entry, left to right |
| ClaudeEndings.OneEntryPerMessage | internal/parser/claude.go:1008-1038 | as many entries are left as there are entries that do not carry on the message before them |
| ClaudeEndings.OneMessageIsOneEntry | internal/parser/claude.go:1008-1078 | a file that is one message folds to one entry |
| ClaudeChunks.RunKeepsEverything | internal/parser/claude.go:1052-1166 | every block ever seen survives, possibly grown, and no block is made up |
| ClaudeChunks.ToolCallsAreTheUnion | internal/parser/claude.go:1091-1188 | the merged tool call ids are exactly those of all snapshots |
| ClaudeChunks.ToolCallsStayUnique | internal/parser/claude.go:1091-1188 | and stay unique if no snapshot repeats one |
| ClaudeChunks.TextsSurvive | internal/parser/claude.go:1127-1166 | every text ever seen is a prefix of a merged text |
| ClaudeChunks.GrowingChainFoldsToLast | internal/parser/claude.go:1052-1125 | snapshots that only grow, with no earlier end of turn, fold to exactly the last one |
| ClaudeChunks.MergeIsIdempotent | internal/parser/claude.go:1008-1038 | merging twice is merging once |
| ClaudeChunks.MergeSplitsIff | internal/parser/claude.go:1008-1038 | merging two pieces separately is merging the whole exactly when the boundary does not cut a run |
| ClaudeIncremental.ExtractMessagesFrom | internal/parser/claude.go:488-614 | messages in line order with consecutive ordinals from the start ordinal, first and last timestamp of all lines |
| ClaudeMessages.YieldsNothingIff | internal/parser/claude.go:528-580 | exactly which lines yield no message, by their own fields and the beginning of their text |
| ClaudeMessages.BoundaryIsKept | internal/parser/claude.go:505-527 | a compaction summary becomes a system message whatever else the line says |
| ClaudeMessages.NoticeIsKept | internal/parser/claude.go:556-576 | a user line that begins with a notice becomes a system message of its kind, without calls and results |
| ClaudeMessages.SpeechIsKept | internal/parser/claude.go:583-607 | any other line becomes a message whose role, text, thinking, calls, results, uuids and usage are its own |
| ClaudeMessages.CallsAndResultsAreKept | internal/parser/claude.go:488-614 | the tool calls of all messages, joined, are those of the lines that speak, in order; so are the results, and the uuids of all lines that yield a message |
| ClaudeIncremental.ExtractSplits | internal/parser/claude.go:488-614 | extraction of a longer file goes on where the shorter one stopped |
| ClaudeIncremental.MergeQueuedCommands | internal/parser/claude.go:942-968 | the two-pointer merge by timestamp, renumbered from the start ordinal |
| ClaudeMessages.SplicingShuffles | internal/parser/claude.go:942-984 | messages and commands come out in their own orders, unchanged but for consecutive numbers |
| ClaudeMessages.MergedInTimeOrder | internal/parser/claude.go:942-968 | streams in time order merge into time order, a message before a command of the same time |
| ClaudeIncremental.SlotsSplitIff | internal/parser/claude.go:942-984 | merging in two pieces takes the same places exactly when the first piece is used up before the second begins |
| ClaudeIncremental.TimeOrderIsClean | internal/parser/claude.go:942-984 | which holds when no later command precedes an earlier message and every earlier command precedes the later messages |
| ClaudeIncremental.NeedsFullParse | internal/parser/claude.go:445-464 | true exactly when the tail links a sub-agent or holds neighbouring snapshots of one message |
| ClaudeIncremental.HasDagFork | internal/parser/claude.go:471-484 | true exactly when an entry of the tail breaks the chain inside the tail |
| ClaudeIncremental.ParseFrom | internal/parser/claude.go:345-438 | parses exactly the accepted tails, and gives the tail's messages numbered on |
| ClaudeMessages.AcceptedIff | internal/parser/claude.go:445-484 | a tail is accepted exactly when every entry continues the last one before it that has a uuid, no user entry links a sub-agent and no two neighbours are snapshots of one message |
| ClaudeIncremental.ChainKeepsEverything | internal/parser/claude.go:692-824 | the full parse of a chain keeps every merged entry, in order |
| ClaudeIncremental.MainGoesOnIff | internal/parser/claude.go:692-824 | for files of every shape, linear, chained or forked: the full parse of the longer file keeps what it kept of the shorter one followed by the whole tail exactly under a condition on the first tail entry and on the kind of both files |
| ClaudeIncremental.IncrementalAgreesWithFull | internal/parser/claude.go:345-614 | under that condition, full parse of the longer file = full parse of the shorter one followed by the incremental messages |
| ClaudeAgreement.ParsesAgreeIff | internal/parser/claude.go:345-614 | for every file and tail: the two agree exactly when the main session of the longer file yields the messages of the shorter one and the tail, and the commands merge cleanly |
| ClaudeAgreement.SplicesAgreeIff | internal/parser/claude.go:942-984 | merging in two parts gives what merging all of it gives exactly for the same messages and a clean split; the result tells how it was merged |
| ClaudeAgreement.SpeakingAgreeIff | internal/parser/claude.go:345-614 | if every entry yields a message and the tail does not carry on the last one: they agree exactly when the main session goes on with the tail and the commands merge cleanly |
| ClaudeAgreement.CutNeverAgrees | internal/parser/claude.go:445-464 | an accepted tail that carries on the last message always makes them differ, for files of which the full parse keeps every entry and every entry yields a message |
| ClaudeIncremental.ChainGrowsIff | internal/parser/claude.go:471-484 | an accepted tail extends a chain exactly when its first entry continues the last stored one |
| ClaudeIncremental.BoundaryForkIff | internal/parser/claude.go:471-484 | exactly when the guards let a tail through that the full parse would not keep whole and in order |
| ClaudeIncremental.BoundaryForkExample | internal/parser/claude.go:471-484 | a retried prompt at the boundary: no guard fires, and the full parse drops the first try |
| Store.InsertsCompose | internal/db/messages.go:202-247 | inserting in chunks gives the rows, ids, index and constraint failures of one insert |
| Store.InsertKeepsSearch | internal/db/db.go:110-127 | the insert trigger keeps the index equal to the message contents, with no double posting |
| Store.DeleteKeepsSearch | internal/db/db.go:103-127 | so does the delete trigger, whose posting must match |
| Store.SessionDeleteKeepsSound | internal/db/schema.sql:56-60 | cascades leave no dangling message, tool call or pin |
| StoreOutcomes.SearchableIff | internal/db/db.go:103-127 | search is up exactly when all three triggers are there and a sound index holds the content of every message and nothing else |
| StoreOutcomes.CanInsertIff | internal/db/schema.sql:56-60 | an insert goes through exactly when every row has a stored session and no two rows, new or old, share session and ordinal |
| StoreMessages.InsertMessagesTx | internal/db/messages.go:202-247 | all rows under consecutive ids from one past the largest, in chunks of 39, or failure |
| StoreMessages.InsertMessages | internal/db/messages.go:385-422 | committed with tool calls on their messages' new ids, or rolled back to the old tables |
| StoreMessages.ResolveToolCalls | internal/db/messages.go:1063-1090 | the k-th message's calls point at the k-th id, in order |
| StoreMessages.CallRowsPointAtMessages | internal/db/messages.go:1063-1090 | every resolved call belongs to one of the messages, with that message's session |
| StoreMessages.InsertedKeepsSound | internal/db/messages.go:202-247 | an insert keeps foreign and unique keys, and tool calls in the session of their message |
| StoreMessages.BulkDeleteRefines | internal/db/messages.go:534-588 | the bulk index delete with its trigger swap leaves exactly what the per-row triggers leave |
| StoreMessages.ReplaceSessionMessages | internal/db/messages.go:479-589 | commits messages replaced and pins restored, or leaves everything as it was |
| StoreMessages.ReplacedKeeps | internal/db/messages.go:479-589 | index in step, all triggers installed and all keys valid after a replace |
| StoreMessages.ReplacedHolds | internal/db/messages.go:479-589 | the session holds exactly the new rows, every other session exactly its old ones |
| StoreCarried.ReplacedHoldsCalls | internal/db/messages.go:479-589 | of rows and tool calls exactly those of other sessions are left, and the new ones come under consecutive ids with their own calls |
| StoreCarried.ReplacedCarriesPins | internal/db/messages.go:591-664 | every old pin of the session is on the messages with its source uuid, or else at its ordinal; every pin it has afterwards comes from an old one and carries its note; other sessions keep theirs |
| StoreOutcomes.ReplaceableIff | internal/db/messages.go:479-589 | messages of a stored session can replace its old ones exactly when no two of them have one ordinal |
| StoreMessages.RestorePinsTx | internal/db/messages.go:625-664 | pins go back by source uuid if that adds one, by ordinal otherwise |
| StoreMessages.PinsLand | internal/db/messages.go:591-664 | no pin is lost while a message with its source uuid or at its ordinal is there |
| StoreLifecycle.UpsertSession | internal/db/sessions.go:867-903 | refuses excluded and trashed ids without a trace as far as the two guard queries could be read; otherwise only the parsed columns change |
| StoreLifecycle.GuardsDoNotMatterIff | internal/db/sessions.go:873-887 | whatever guard reads fail makes no difference exactly when the id is neither excluded nor trashed, or the upsert would change nothing |
| StoreOutcomes.UpsertedRow | internal/db/sessions.go:794-865 | an upsert changes the parsed columns of a stored row alone; a new row starts live, without version and signals |
| StoreLifecycle.SoftDeleteSession | internal/db/sessions.go:1684-1694 | marks a live session and nothing else |
| StoreLifecycle.RestoreSession | internal/db/sessions.go:1699-1714 | undoes the mark, and reports whether there was one |
| StoreOutcomes.TrashingIsUndone | internal/db/sessions.go:1684-1714 | trashing a live session changes its mark alone, and restoring it gives back exactly the old tables |
| StoreLifecycle.DeleteSession | internal/db/sessions.go:1366-1393 | row, messages, calls and pins go and the id is excluded, together or not at all |
| StoreLifecycle.DeleteSessionIfTrashed | internal/db/sessions.go:1399-1434 | the same, only for a session still in the trash |
| StoreLifecycle.EmptyTrash | internal/db/sessions.go:1751-1780 | deletes and excludes exactly the trashed sessions, and counts them |
| StoreLifecycle.DeleteSessions | internal/db/sessions.go:1787-1837 | by batches of 500 in one transaction: what one deletion of all the stored ids would leave, and their number |
| StoreLifecycle.PurgesCompose | internal/db/sessions.go:1787-1837 | two deletions one after the other are one deletion of both sets |
| StoreOutcomes.PurgedLeaves | internal/db/sessions.go:1366-1393 | exactly the rows, messages, calls and pins of other sessions are left, unchanged, and exactly the deleted ids are newly excluded |
| StoreLifecycle.PurgeExcludedSessions | internal/db/sessions.go:785-792 | removes every stored session whose id is excluded |
| StoreBatch.MessagesAfterOrdinal | internal/db/session_batch.go:356-366 | the messages from the first one beyond the stored maximum on |
| StoreBatch.AppendsOnlyNewIff | internal/db/session_batch.go:356-366 | only new ordinals get through exactly when no stored one follows a new one |
| StoreBatch.SortedAppendsOnlyNew | internal/db/session_batch.go:356-366 | on ascending ordinals exactly the new ones get through |
| StoreBatch.WriteOneSessionBatchTx | internal/db/session_batch.go:173-313 | one write: written, excluded, in trash or failed, and on a reliable database written exactly when admitted and free of conflicts |
| StoreCarried.WrittenRow | internal/db/session_batch.go:173-313 | the row has the columns and signals of the write and its version unless that is zero, and keeps its name; no other row changes |
| StoreCarried.WrittenHolds | internal/db/session_batch.go:205-366 | the new rows and calls are those of the write, all of them or from the first ordinal beyond the stored ones on, on top of all that was there or of the other sessions |
| StoreCarried.WrittenCarriesPins | internal/db/session_batch.go:205-313 | a write that replaces carries the pins over like a replace, one that appends leaves all pins alone |
| StoreBatch.WriteSessionBatch | internal/db/session_batch.go:39-98 | commits exactly the fold of the writes that went through; every outcome is the one its write deserves on top of the writes before it; the counters are those of the writes handled, also when the batch is undone |
| StoreBatch.BatchCountsAddUp | internal/db/session_batch.go:39-98 | written + excluded + failed = number of writes, with one reported id per rejection |
| StoreCarried.BatchGrows | internal/db/session_batch.go:39-98 | a batch that only appends leaves as many more messages as it reports |
| StoreBatch.WriteSessionBatchAtomic | internal/db/session_batch.go:103-156 | all writes or none, and which counters come back for each way of ending |
| StoreBatch.AtomicAgrees | internal/db/session_batch.go:39-156 | both variants leave the same tables when every write goes through |
| StoreBatch.WrittenKeeps | internal/db/session_batch.go:173-313 | a write keeps keys, index and the separation of stored and excluded ids |
| StoreBatch.WrittenLeavesOthers | internal/db/session_batch.go:173-313 | a write changes no other session, neither its row nor its messages |
| StoreBatch.BatchLeavesTrash | internal/db/session_batch.go:176-203 | no batch touches a trashed session |
| StoreBatch.RepeatedAppendAddsNothing | internal/db/session_batch.go:173-366 | appending the same session again adds no message |
| StoreOrphans.CopySessionDataForIDs | internal/db/orphaned.go:448-564 | the copy steps in order; on a reliable database it fails only on a violated constraint |
| StoreOrphans.CopyOrphanedDataFrom | internal/db/orphaned.go:27-114 | copies exactly the source sessions that are neither stored nor excluded, or nothing; never stopped by a constraint |
| StoreOrphans.CopyTrashedDataFrom | internal/db/orphaned.go:121-193 | copies exactly the source's trashed sessions that are not excluded, or nothing; nothing and no error when the probe for the trash mark fails |
| StoreOrphans.CopyExcludedSessionsFrom | internal/db/orphaned.go:198-246 | adds the source's exclusions and changes nothing else |
| StoreOrphans.CanCopyIff | internal/db/orphaned.go:491-497 | the copy goes through exactly when no stored message sits where a copied one goes |
| StoreOrphans.EveryMessageIsCopiedOnce | internal/db/orphaned.go:466-497 | each old message has one copy under a fresh id, each new row is the copy of one old message, stored rows stay |
| StoreOrphans.CallsAreCarried | internal/db/orphaned.go:499-533 | each copied tool call, in order, points at the new row of its old message |
| StoreOrphans.PinsAreCarriedExactly | internal/db/orphaned.go:566-623 | a copied message ends up pinned exactly when it was pinned or shares a source uuid with a pinned message of its session |
| StoreOrphans.SurplusPinExample | internal/db/orphaned.go:566-623 | two messages with one source uuid, one of them pinned: the copy of the other one comes out pinned |
| StoreOutcomes.CopiedPinsCameFrom | internal/db/orphaned.go:566-623 | every pin that a copy adds comes from a pin of the source, on a message of its session and with its note |
| StoreOutcomes.CopiedSessions | internal/db/orphaned.go:448-465 | a copied session has the row of the source, a stored one keeps its own |
| StoreOrphans.CopiedKeeps | internal/db/orphaned.go:448-564 | a copy keeps every key and the index in step |
| StoreOrphans.OrphanCopyCoversTheSource | internal/db/orphaned.go:55-62 | afterwards every source session is stored or excluded, and stored rows are unchanged |
| StoreImport.DropFTS | internal/db/db.go:1212-1228 | four statements, with the exact state after each when one fails |
| StoreImport.RebuildFTS | internal/db/db.go:1232-1247 | whatever the state before, index and triggers are complete after success |
| StoreImport.DropSuspendsIff | internal/db/db.go:1212-1228 | search is cleanly suspended exactly when all four statements ran |
| StoreOutcomes.DropOrder | internal/db/db.go:1212-1228 | after each statement exactly the triggers behind it and the index are still there |
| StoreImport.LazyFTS.Suspend | internal/importer/importer.go:72-81 | tries to drop only while the index is in use and no attempt was complete; the rows stay, and the index is in the state that the number of statements that ran leaves |
| StoreImport.LazyFTS.Restore | internal/importer/importer.go:83-94 | rebuilds exactly when an attempt was complete, and otherwise changes nothing |
| StoreImport.UpsertConversation | internal/importer/importer.go:159-239 | one conversation: refused, unchanged or replaced, with the tables that each leaves, which guards were read and how far the drop got |
| StoreOutcomes.ConversationIs | internal/importer/importer.go:159-239 | new means no live session before, updated a live one with other message count or end time, and in both cases the messages have taken the place of the old ones; skipped means unchanged or excluded, with no message touched |
| StoreImport.ImportClaudeAI | internal/importer/importer.go:101-149 | the conversations up to cancellation, one event each; the final tables are those of a run with exactly these events; on a reliable database the restore goes through, every guard is read and every drop is whole |
| StoreImport.ImportLeavesSearchIff | internal/importer/importer.go:72-149 | search is up after an import exactly when some attempt ran all four drop statements or every attempt stopped before the first; otherwise the index is torn |
| StoreImport.AllOrNothingKeepsSearch | internal/importer/importer.go:72-149 | with drops that are all or nothing search is up after every import, on a database that fails anywhere else |
| StoreImport.ImportWithoutIndex | internal/importer/importer.go:72-94 | without an index to begin with, search stays down |
| StoreImport.CountsAddUp | internal/importer/importer.go:101-149 | imported + updated + skipped + errors = conversations handled |
| StoreImport.TornIndexMissesMessages | internal/db/db.go:1212-1228 | after a drop that broke off, a new message is missing from an index that is still there |
| StoreRuns.RunKeepsHealthy | internal/db/messages.go:479-589 | along every run of all operations, drops and rebuilds of the index included, committed or failed: keys hold, and the index statements alone decide whether search is up, suspended or torn |
| StoreRuns.RunKeepsSearch | internal/db/messages.go:479-589 | a run without index statements leaves search up |
| StoreRuns.RebuildBringsSearchBack | internal/db/db.go:1232-1247 | after a complete rebuild search is up, whatever happened before, until the next index statement |
| StoreRuns.ImportIsARun | internal/importer/importer.go:101-149 | every import is such a run, with one upsert per conversation and the guards it could read, so that all results about runs hold of it |
| StoreRuns.ImportLeavesDeletedAwayIff | internal/importer/importer.go:101-149 | an import leaves a permanently deleted session away all the time exactly unless a conversation with its id could not read the exclusion list and changed something |
| StoreRuns.ImportLeavesDeletedAway | internal/importer/importer.go:101-149 | so it stays away if the guard of its own conversations could be read |
| StoreRuns.StepSeparatesIff | internal/db/sessions.go:873-887 | one operation keeps stored and excluded ids apart exactly unless it is an upsert of an excluded id that could not read the list and went through |
| StoreRuns.RunSeparatesIff | internal/db/sessions.go:867-903 | along every run without foreign exclusion lists the two are apart all the time exactly unless one slipped in that way |
| StoreRuns.RunSeparates | internal/db/sessions.go:867-903 | so no id is both stored and excluded as long as every upsert of an excluded id reads the list |
| StoreRuns.CopyingExclusionsSeparatesIff | internal/db/orphaned.go:198-246 | copying an exclusion list keeps the two apart exactly when no copied id is stored |
| StoreRuns.RunSeparatesAfterPurge | internal/db/sessions.go:785-792 | a purge re-establishes the separation for the rest of the run, unless one slips in again |
| StoreRuns.StepKeepsAwayIff | internal/db/sessions.go:873-887 | one operation brings a permanently deleted session back exactly when it is an upsert of it that could not read the exclusion list and went through |
| StoreRuns.DeletedStaysDeletedIff | internal/db/orphaned.go:55-62 | through any run it stays away all the time exactly unless that happens |
| StoreRuns.DeletedStaysDeleted | internal/db/orphaned.go:55-62 | so it never comes back as long as every upsert of it reads the list |
| StoreRuns.UnreadExclusionExample | internal/db/sessions.go:873-880 | a deleted id, one upsert whose read of the list fails: stored and excluded at once |
| StoreRuns.WriterLeavesTrashIff | internal/db/sessions.go:880-887 | no writer takes a session out of the trash or touches its messages; its row changes exactly when an upsert of it could not read the mark and went through |
| StoreRuns.WritersKeepTrash | internal/db/session_batch.go:176-203 | along every run of upserts and batches a trashed session keeps mark and messages |
| StoreRuns.WritersLeaveTrashIff | internal/db/session_batch.go:176-203 | and its row is the same all the time exactly unless that happens |
| StoreRuns.WritersLeaveTrash | internal/db/session_batch.go:176-203 | so no such run changes a trashed row or its messages as long as every upsert of it reads the mark |
| StoreRuns.UnreadTrashExample | internal/db/sessions.go:880-887 | a trashed session, one upsert whose read of the mark fails: its parsed columns are other ones |
| StoreRuns.RebuildLosesNothing | internal/db/orphaned.go:116-120 | a rebuild into an empty database: exactly the source's exclusions, no deleted session comes back, every other source session is stored, search works, whatever guards and probes failed |
| StoreRuns.RebuildKeepsTrash | internal/db/orphaned.go:116-120 | a rebuild that found the trash keeps mark and messages of every trashed session, whatever the writers did, and its whole row if every upsert of it read the mark |
| Usage.Accumulate | internal/db/usage.go:380-464 | one row loop: sums per key and savings over exactly the kept rows |
| Usage.KeptCountsEachOnce | internal/db/usage.go:399-416 | only rows from the first to the last day of the range, both included, count: one without both ids as often as it occurs, and for each pair of ids exactly one |
| UsageRows.KeptIsCounting | internal/db/usage.go:403-416 | a row counts exactly when its day is in the range and no earlier row of the range has both its ids |
| Ordering.StringLEIff | internal/db/usage.go:403-408 | dates compare by the first character in which they differ, and a beginning comes first |
| Ordering.DatesCompare | internal/db/usage.go:403-408 | so dates written year first compare as days, shown on two neighbouring ones |
| UsageRows.ValueIs | internal/db/usage.go:427-443 | a row is worth its own tokens, each kind at its own rate per million; without prices it is free |
| Usage.BuildDays | internal/db/usage.go:601-635 | one walk over the accumulator in any order gives the sums per model, project and agent of each day |
| Usage.GroupByDateModel | internal/db/usage.go:488-501 | regrouping in any order gives the sums per date and model |
| Usage.GetDailyUsage | internal/db/usage.go:277-753 | days ascending, lines by cost and name, every number the sum of the kept rows it stands for, on both paths |
| UsageRows.DailyOfCounting | internal/db/usage.go:277-753 | for both paths: exactly the days with a counted row, ascending, and every line one model, project or agent of its day, dearest first and then by name; each figure is the sum of that column over the rows of its day and name |
| UsageRows.BothEndsAreShown | internal/db/usage.go:403-408 | a row of the first or the last day of the range reaches a day of the result unless it was counted before |
| Usage.BreakdownAddsUp | internal/db/usage.go:669-733 | the lines of a day along any dimension add up to the day |
| Usage.EveryBreakdownAddsUp | internal/db/usage.go:646-742 | model, project and agent lines of each day have the same sum, the day's totals |
| Usage.DaysAddUp | internal/db/usage.go:737-741 | the days add up to the grand totals |
| Usage.FastIsBreakdown | internal/db/usage.go:475-753 | the fast path is the breakdown path without its project and agent lines, line for line |
| Usage.SavingsAreTheDifference | internal/db/usage.go:440-448 | cache savings = cost without caching minus actual cost |
| UsageSessions.GetTopSessionsByCost | internal/db/usage.go:768-955 | a prefix of the full ranking; nothing left out costs more than anything listed |
| UsageRows.RankingShowsSessions | internal/db/usage.go:838-955 | one entry for each session with a counted row, labelled by its first one, with the sum of all four kinds of tokens and the cost over its rows, by falling cost and then by id |
| UsageSessions.SessionsAddUpToDays | internal/db/usage.go:838-955 | tokens and cost over the whole ranking equal the daily totals |
| UsageSessions.GetUsageSessionCounts | internal/db/usage.go:973-1097 | counts exactly the sessions with a kept row, by project and by agent |
| UsageRows.CountsAreLabels | internal/db/usage.go:1036-1097 | each project, and each agent, is counted once for every session whose first counted row names it |
| UsageSessions.CountsAddUp | internal/db/usage.go:1086-1094 | the counts per project, and per agent, add up to the number of sessions |
| UsageSessions.CountsMatchRanking | internal/db/usage.go:1036-1097 | the session count is the length of the ranking |
| Pagination.CursorKey | internal/db/sessions.go:679-685 | the key built in Go is the sort key of the query |
| Pagination.LastActivityIs | internal/db/sessions.go:646-661 | a session counts as active at its end, else at its start, else when it was stored; empty times are none |
| Pagination.ListSessions | internal/db/sessions.go:611-690 | the first rows below the cursor in descending order, and a next cursor exactly when more remains |
| Pagination.PageIsNewest | internal/db/sessions.go:611-690 | the first page in plain terms: no match that it leaves out is newer than one it shows, and it passes a cursor on exactly when it leaves one out, after 200 rows or as many as were asked for |
| Pagination.CursorLeavesOlder | internal/db/sessions.go:643-650 | behind a cursor exactly the matches older than its row remain, by id at the same time |
| Pagination.ListAll | internal/db/sessions.go:611-690 | following the cursors ends and returns every match once, in descending (activity, id) order |
| Pagination.PagesDescend | internal/db/sessions.go:643-661 | rows of later pages come strictly below rows of earlier ones, whatever changed in between |
| Pagination.UnchangedIsReturnedOnce | internal/db/sessions.go:643-661 | a session left alone is returned exactly once while others come, move and go |
| Pagination.TotalIsKept | internal/db/sessions.go:620-641 | every page shows the total of the first one |
| ChildClosure.Tree | internal/db/sessions.go:562-607 | the worklist ends on cyclic links and gives the least set that holds the roots and is closed under live children; a row is in it exactly when a chain of rows in it leads there from a root |
| ChildClosure.SelectSessions | internal/db/sessions.go:408-608 | the selected ids, with and without children |
| ChildClosure.SelectedIff | internal/db/sessions.go:408-608 | selected are exactly the sessions that qualify by their own columns, and with children exactly those at the end of a line of live children below one |
| ChildClosure.ChildrenOnlyAdd | internal/db/sessions.go:562-607 | children only add rows, each a live child of a returned row |
| ChildClosure.StrayChildStaysOut | internal/db/sessions.go:565-573 | a child without a returned parent is out, even if it passes the criteria itself |
| LikeEscape.ContainsPattern | internal/db/sessions.go:1591-1613 | what wildcards around escaped text match, for all texts: what contains it up to a NUL, up to ASCII case; with a NUL in the needle what ends in the part before it |
| LikeEscape.ContainsIsLiteralIff | internal/db/sessions.go:1591-1613 | on texts without a NUL the match is literal for all of them exactly when the needle holds none |
| LikeEscape.PrefixPattern | internal/db/sessions.go:1591-1628 | what escaped text before a wildcard matches, for all texts |
| LikeEscape.PrefixIsLiteralIff | internal/db/sessions.go:1591-1628 | literal for all texts without a NUL exactly when the beginning holds none |
| LikeEscape.HiddenTextExample | internal/db/sessions.go:1591-1613 | a text that contains the needle behind a NUL is not found |
| LikeEscape.UnescapedIff | internal/db/sessions.go:1591-1596 | text is left as it is exactly when it holds none of the three special characters |
| LikeEscape.SameIff | internal/db/sessions.go:1591-1628 | characters match when they are equal or the two cases of one ASCII letter |
| LikeEscape.FindPruneCandidates | internal/db/sessions.go:1600-1681 | no result without a criterion; otherwise exactly the live sessions meeting them all, text taken literally up to a NUL, that are nobody's parent |
| Fingerprints.MessageTokenFingerprint | internal/db/messages.go:927-978 | the builder holds the rows' encodings in order |
| Fingerprints.DecNatIs | internal/db/messages.go:958-977 | numbers are printed in base ten without leading zeros |
| Fingerprints.RowFieldsAre | internal/db/messages.go:958-977 | the fifteen columns in the order of the format, and which of them are printed behind their length |
| Fingerprints.FingerprintIsInjective | internal/db/messages.go:944-977 | equal fingerprints mean equal rows in equal order, given ids without the separator |
| Fingerprints.CollidesIff | internal/db/messages.go:944-977 | a change of ids alone can go unnoticed exactly when one of the ids holds the separator |
| Fingerprints.ClassifierPreimage | internal/db/classifier_hash.go:31-47 | the bytes hashed: version line, then the sorted items tag by tag |
| Fingerprints.PreimageIs | internal/db/classifier_hash.go:31-47 | the text itself: version, then for each of the four kinds its items in ascending order, each behind its tag and its length |
| Fingerprints.PreimageIff | internal/db/classifier_hash.go:31-47 | equal preimages exactly for equal multisets of patterns under every tag, in any order |
| Trends.CollectTrendSpans | internal/db/trends.go:245-265 | exactly the occurrences, overlapping ones included, that are word-bounded where asked, in order |
| Trends.MatchesIff | internal/db/trends.go:245-294 | a term matches where the text splits around it, as a whole word where no letter, digit or underscore touches it |
| Trends.MergeCountSpans | internal/db/trends.go:296-319 | the number of distinct starts that lie strictly inside no span |
| Trends.HeadsDependOnMembers | internal/db/trends.go:296-319 | neither the order of the spans nor repeated ones matter |
| Trends.CountTrendOccurrences | internal/db/trends.go:232-243 | the merged count over the spans of all matchers of the term |
| Trends.MatcherOrderIsIrrelevant | internal/db/trends.go:232-243 | the count depends only on the set of matchers |
| Trends.TrendBucketRange | internal/db/trends.go:362-397 | exactly the bucket dates from the first day's bucket to the last day's, ascending |
| Trends.BucketHolds | internal/db/trends.go:339-360 | a day is counted under a bucket exactly when it lies from its date up to the next one |
| Trends.BucketDateIs | internal/db/trends.go:339-360 | a day is its own bucket, a week begins on a Monday, a month on its first day |
| Trends.EveryDayHasItsBucket | internal/db/trends.go:339-397 | every day of the range falls in exactly one bucket of the range |
| Timing.AttributeTurn | internal/db/timing.go:372-430 | remainder after the longest sub-agent, and the primary category by majority |
| TimingTurns.AttributionIs | internal/db/timing.go:372-430 | what is left after the longest timed sub-agent; put down to the sub-agents when that one took at least as long as what is left, else to the category of more than half of the other calls, else to none |
| Timing.AttributionIsUnique | internal/db/timing.go:414-424 | the result does not depend on the order in which the map is walked |
| Timing.AssembleTiming | internal/db/timing.go:237-348 | the turns with tool use with their own calls, counters over them, the first slowest call of all timed ones, and the category totals of all charges |
| TimingTurns.TurnsAreShown | internal/db/timing.go:261-330 | a turn for each row with tool use, in order, with the fields of its own call rows; several calls are marked parallel, a lone one that is no sub-agent takes the time of the turn |
| TimingTurns.LinesAre | internal/db/timing.go:306-342 | the time and the calls of a category are sums over the turns: remainder and all calls for its own, every timed sub-agent for the one of sub-agents |
| TimingTurns.CountersAre | internal/db/timing.go:280-332 | the counters are sums over the turns shown |
| TimingTurns.SlowestIs | internal/db/timing.go:294-301 | the slowest call is one of those shown, and no timed one took longer |
| Timing.CategoriesHoldAllTime | internal/db/timing.go:280-342 | the categories hold at least the time of all turns, and exactly that when every timed turn is non-negative with at most one positive sub-agent, no longer than the turn |
| Timing.ContributionIff | internal/db/timing.go:372-449 | the same condition for one turn |
| Timing.OverlappingSubagentsCountTwice | internal/db/timing.go:366-394 | whatever two sub-agents of 60 ms a turn of 100 ms holds, its attribution charges 160 ms |
| Worktree.MatchesNest | internal/db/worktree_mappings.go:72-87 | prefixes that match one path nest, and are equal if equally long |
| Worktree.MatchesIff | internal/db/worktree_mappings.go:72-87 | a directory matches when it is the prefix or continues it behind a separator |
| Worktree.CharLengthIs | internal/db/worktree_mappings.go:393-401 | length() counts the characters of a text by their first bytes, and nothing behind a NUL |
| Worktree.NormalizingIff | internal/db/worktree_mappings.go:43-53 | when a stored prefix is normalized |
| Worktree.NormalizedIs | internal/db/worktree_mappings.go:43-53 | blank prefixes and the current directory are refused, the root stays, and any other one loses exactly its separators at the end |
| Worktree.AboveIsShorter | internal/db/worktree_mappings.go:382-401 | of nested paths the longer one has more characters exactly when no NUL comes before the difference |
| Worktree.BytesBestIsLongest | internal/db/worktree_mappings.go:382-433 | in the order by bytes the first match is the longest one, for every list |
| Worktree.CharsBestIsLongestIff | internal/db/worktree_mappings.go:393-433 | in the order by characters exactly when no longer match holds a NUL before the shorter one ends |
| Worktree.PlainLengthsTell | internal/db/worktree_mappings.go:393-433 | which holds for every path when no prefix contains a NUL |
| Worktree.HiddenPrefixExample | internal/db/worktree_mappings.go:393-433 | two stored prefixes with a NUL, of which the shorter one wins |
| Worktree.SameOrderSameBest | internal/db/worktree_mappings.go:393-433 | the same mappings in the same order give the same best one |
| Worktree.OrderIsIrrelevant | internal/db/worktree_mappings.go:344-401 | the order of the program and that of the queries give the same best mapping exactly under that condition |
| Worktree.ResolveWorktreeProject | internal/db/worktree_mappings.go:348-391 | the project of the longest match for every list in any order, or the current one if nothing matches |
| Worktree.Archive.ApplyWorktreeProjectMappings | internal/db/worktree_mappings.go:593-668 | moves exactly the machine's live sessions that need it, with exact counts |
| Worktree.Archive.ApplyWorktreeProjectMappingToSession | internal/db/worktree_mappings.go:694-763 | moves one session if it needs it |
| Worktree.Archive.ApplyWorktreeProjectMappingsByPath | internal/db/worktree_mappings.go:783-883 | moves exactly the file's live sessions that need it, with exact counts |
| Worktree.AppliedIs | internal/db/worktree_mappings.go:593-883 | a chosen session with another project gets that of its mapping, and a new time of change where asked; nothing else about it changes, nor any other session |
| Worktree.GlobalOrderAgrees | internal/db/worktree_mappings.go:468-497 | mappings sorted over all machines and picked by machine give the same best one as those loaded for it |
| Worktree.TargetIsLongest | internal/db/worktree_mappings.go:516-534 | a session moves exactly when an enabled mapping of its machine matches, to the longest one as long as the lengths tell |
| Worktree.SecondApplyUpdatesNothing | internal/db/worktree_mappings.go:593-883 | applying again changes nothing and updates nothing |
| Worktree.ThreeWaysAgree | internal/db/worktree_mappings.go:593-883 | through its machine, by its id or through its file, every session of the archive ends up with the same project, that of its mapping if it is live and has one |
| Worktree.OtherWaysLeaveIt | internal/db/worktree_mappings.go:593-883 | under another machine or through another file it is left alone |
| Activity.SnapInterval | internal/db/activity.go:38-65 | at least 60 seconds, at most 50 buckets for every duration; the nearest step unless that overflows, and then the smallest width with at most 49 full buckets |
| Activity.IntervalIsUnique | internal/db/activity.go:38-65 | which determines the width |
| Activity.WidthIs | internal/db/activity.go:38-65 | up to half an hour a minute; beyond, one of the eight preferred widths while fifty buckets of it hold the duration, else the smallest that keeps to forty-nine full ones |
| Activity.PreferredIsTaken | internal/db/activity.go:29-36 | thirty times a preferred width gets that width |
| Activity.ScalingSetsInEarly | internal/db/activity.go:26-28 | at 6000 seconds the nearest step already overflows |
| Activity.IndexIsBounded | internal/db/activity.go:129-139 | every shown message falls into one of 51 buckets from the second of the first one |
| Activity.FiftyOneIsReached | internal/db/activity.go:129-139 | a session that needs the fifty-first |
| Activity.GetSessionActivity | internal/db/activity.go:83-212 | buckets of the prescribed width from the second of the first shown message to the bucket of the last one; each shows what falls into it, with its first ordinal |
| Activity.BucketHolds | internal/db/activity.go:129-205 | buckets follow each other without a gap; each counts, by role, exactly the shown messages from its start up to its end, the first one also what lies within a second before it in times before 1970, and names the smallest ordinal among them |
| Activity.BucketsAddUp | internal/db/activity.go:189-205 | the buckets together count every visible, timestamped message of a role once |

## Left out

- JSON, regular expressions and content extraction: entries, lines, blocks and commands come already parsed; reading a line is a parameter.
- Tool result events, stars, insights and usage statistics tables: they follow the pattern of tool calls without new logic.
- CopySessionMetadataFrom (names, trash marks, stars, pins and worktree mappings after a rebuild): copies single columns by id, except for its pins, which go by ordinal like the second pass of PinsAreCarriedExactly.
- ClaudeIncremental.IncrementalAgreesWithFull: up to sub-agent annotations. It goes one way; ParsesAgreeIff is the exact condition for every file and tail.
- ClaudeDag.ParseDag: assumes distinct, non-empty uuids, which the source does not check; what the loops do without that is in ClaudeTermination.
- Columns that no operation here reads are folded into one opaque field (`parsed`, `rest`, `meta`); SQL constraints other than keys are not part of this model.
- The order in which SQLite yields the rows of a join without ORDER BY, and the row order of pins on several matching messages: taken as by id.
- Old databases without certain columns or tables, and probes for them that fail and read as "not there": only the exclusion table and the trash mark are modelled; a failed probe for another column or for the pins leaves those out of the copy without an error.
- The update trigger: no modelled operation updates message content.
- Database failures are all alike: a statement works or it does not; a failed rollback, and a driver that fails to report the number of affected rows, are not part of this model. Reading queries for pages, usage, trends, timing, activity, prune candidates and worktree mappings pass every error on; there the model starts from the rows.
- ImportChatGPT: the same protocol without the replacement of existing sessions.
- StoreImport.UpsertConversation: the two columns compared to skip unchanged conversations are one function of the parsed columns.
- Signing and encoding of cursors: a cursor is its key, id and total.
- Criteria on single columns in the session filter: one arbitrary predicate.
- Unicode case folding and trimming: functions the model takes as given; string lengths are byte lengths, and LIKE compares bytes, which differs from SQLite on malformed UTF-8 only; its limit on the length of a pattern is left out.
- The padded UTC bounds of the usage queries: the rows start from what the query yields, and the local-date filter is applied to them.
- Floating-point rounding: costs, rates and epochs are real numbers.
- Time zones: local dates, months and week days come from day numbers and a calendar given by its month starts.
- Parsing of trend terms and variants: matchers are a given list.
- Total session duration and input previews in the timing summary.
- Timing.AssembleTiming: assumes distinct message ids (the primary key), so that two turns never share one slice of calls.
- Worktree path cleaning and trimming of the platform: functions the model takes as given; separators are Unix ones.
- Worktree.TargetIsLongest: with a NUL in a prefix it promises nothing beyond CharsBestIsLongestIff.
- SQLite sums with 64-bit overflow: integers are unbounded.
- Labels, archetypes, analytics displays, the sync engine, servers and file access.
