# Verified models of comdb2 core components

Comdb2 is a replicated relational database. This project models five of its parts and proves what they
promise, for every input and every interleaving of their steps.

- **Replay detection** (`Blkseq*.dfy`). A request that is sent twice must get the answer of the first time.
  Responses live in striped pairs of trees that a cleaner rolls; at startup they are rebuilt from the log.
- **Snapshot transactions** (`Osql*.dfy`). Committed undo logs are handed to the transactions that must not see
  them. Logs count their clients and are freed from the front; low-water marks decide which log files may go.
- **Shadows** (`ShadowUpdate.dfy`, `SkipTable.dfy`, `ShadowTables.dfy`). A transaction's cursors apply those
  logs, hide the rows the transaction deleted, and keep temp tables that are created on demand.
- **Page archiver** (`Page*.dfy`, `Archiver*.dfy`). Database files are copied chunk by chunk while others write
  to them; each page carries a checksum and is read again when it fails.
- **Wire encoding** (`WireBuffer.dfy`). Bounded put and get with sticky failure, on two byte orders.

Each part has a value that says what a locked region does to its state, a state machine over those steps, and
objects whose methods do the same in place with the loops of the code. Clocks, log sequence numbers, the
content of files at each read, and whether a temp table can be made are parameters, so every theorem holds for
all of them. Trees are maps, and a region under a mutex is one step. `dafny verify dfyconfig.toml` checks
everything.

## Where the code does less than it says

Each of these has a lemma with the exact condition, and an input in `Counterexamples.dfy` or
`ArchiverCases.dfy`.

- `bdb/file.c:3949` says that logs with blkseqs newer than the threshold are not deleted. The entry for a log
  file carries the time of its stripe's first blkseq only (`BlkseqTable.DeletionPromiseCondition`).
- The entries for a file are removed in a second pass over the stripes, also those that were added since the first
  pass looked at them (`BlkseqTable.LatePassCondition`).
- The cleaner samples its clock before it takes the mutex, and keeps it through its unlock window. A response stored
  meanwhile is rolled at once with that older clock (`BlkseqRuns.RetentionCondition`).
- An overwrite of a key in the old tree advances the young tree's LSN, not the old one's
  (`BlkseqRuns.InsertLogGuard`). This is latent: the one caller that overwrites, in `db/toblock.c:940`, passes no
  transaction.
- The rebuild stops at the first stale blkseq in commit order, and a distributed abort record moves its cursor
  without moving it back (`BlkseqRebuild.RebuildCompleteCondition`, `BlkseqRebuild.CommitOrderCondition`).
- A registration that fails in backfill frees the transaction without giving back its client counts
  (`OsqlRuns.DrainableCondition`).
- If a transaction's shadow tables do not exist by the last turn of an update, there is no place for its resume
  point, and the next update goes through the same logs again (`ShadowUpdate.AppliedOnceCondition`).
- A checksummed chunk that does not end with a page is accepted only if the page it begins can be read again
  or happens to pass, and it leaves the offset inside that page (`PageVerifier.VerifyPages`).
- The archiver's hash rounds its 32-bit length up before shifting (`PageHash.ConsumedCondition`).
- `buf_put` swaps any field of 2, 4 or 8 bytes, also one that is not an integer (`WireBuffer.RawWireCondition`).

One comment is off: `archive/ar_page.h` places the checksum of a metadata page at 496, while the fields before
it add up to 492. The model follows the fields.

## Model

| member | source | states |
|---|---|---|
| `BlkseqStripe.Stripe.Find` | bdb/bdb_blkseq.c:323-353 | a lookup answers from the map the two trees stand for, the young tree first, and says nothing for an unknown key |
| `BlkseqStripe.Stripe.Insert` | bdb/bdb_blkseq.c:359-440 | a present key without overwrite is a duplicate and returns the stored response unchanged; otherwise the key is written where it already is, or to the young tree, and a transactional write moves the young LSN and the log list |
| `BlkseqStripe.Stripe.Redo` | bdb/bdb_blkseq.c:241-264 | forward replay adds a key to the young tree unless it is there, whatever the old tree holds |
| `BlkseqStripe.Stripe.Undo` | bdb/bdb_blkseq.c:267-280 | abort or backward roll takes the key out of the stripe |
| `BlkseqStripe.Stripe.Roll` | bdb/bdb_blkseq.c:514-520 | the old tree is dropped, the young one takes its place with its LSN, and the roll time is the clock sampled before locking |
| `BlkseqStripe.Stripe.CleanBegin` | bdb/bdb_blkseq.c:454-477 | from the mutex up to the unlock, with the clock sampled before the mutex was asked for: nothing if too early, a roll at once if the old tree has no LSN, otherwise the cleaner leaves with its clock |
| `BlkseqStripe.Stripe.CleanEnd` | bdb/bdb_blkseq.c:484-520 | after the unlock window: a roll unless the first log record is in the old tree's last file or an earlier one |
| `BlkseqRuns.StepEffect` | bdb/bdb_blkseq.c:443-520 | only a roll moves a key from young to old or drops the old tree, and a roll is at least maxage after the roll before it, also when inserts ran in the unlock window |
| `BlkseqRuns.ForgottenAtSecondRoll` | bdb/bdb_blkseq.c:443-520 | in every interleaving, a key is forgotten by rolling only at the second roll after it was last put in the young tree, and the clocks of those two rolls differ by at least maxage |
| `BlkseqRuns.RetentionCondition` | bdb/bdb_blkseq.c:451-520 | a response stored at time t stays answerable until the clock reaches t + maxage, whatever follows on a clock that does not go back, if and only if no cleaner holds a clock older than t with which it may still roll, in its unlock window or waiting for the mutex with a roll due (or maxage is not positive) |
| `BlkseqRuns.LogGuardCondition` | bdb/bdb_blkseq.c:464-518 | a written key outlives the log file of its record if and only if it is in the young tree or the old tree's LSN covers that file |
| `BlkseqRuns.InsertLogGuard` | bdb/bdb_blkseq.c:408-435 | seen before the write: it fails only for an overwrite of a key in an old tree whose LSN is in an earlier file |
| `BlkseqRuns.UndoErasesInsert` | bdb/bdb_blkseq.c:267-280 | a fresh insert, any steps on other keys with any number of rolls, and the undo leave both trees as if the insert had never happened |
| `BlkseqRuns.UndoTouchesOneKey` | bdb/bdb_blkseq.c:267-280 | after undo the key has no answer and every other key keeps its own |
| `BlkseqRuns.RedoAgain` | bdb/bdb_blkseq.c:241-264 | redoing the same log record a second time changes nothing if and only if no roll came in between |
| `BlkseqRuns.TreesStayDisjoint` | bdb/bdb_blkseq.c:359-440 | no run puts a key in both trees, as long as no record is redone for a key in the old tree |
| `BlkseqRuns.RedoBreaksDisjoint` | bdb/bdb_blkseq.c:241-264 | a redo keeps the trees disjoint if and only if the key is not in the old tree |
| `BlkseqRuns.LogListAscends` | bdb/bdb_blkseq.c:297-321 | with LSNs that do not go back, the log files of a stripe's list strictly increase in every state of every run |
| `BlkseqRuns.EntryOrigin` | bdb/bdb_blkseq.c:297-321 | each list entry carries the file and the time of the blkseq that was being written when the list had no entry for the file, and stays until the file is forgotten |
| `BlkseqRuns.NoEntryStays` | bdb/bdb_blkseq.c:911-915 | a file without an entry gets none while no blkseq is written to it |
| `BlkseqRuns.RetryGetsFirstAnswer` | bdb/bdb_blkseq.c:359-440 | a request stored when no cleaner holds such an older clock, and retried before maxage has passed on any cleaner's clock, gets the response stored first |
| `BlkseqTable.Table.GetStripe` | bdb/bdb_blkseq.c:197-207 | the stripe is the exclusive or of the key's bytes modulo the number of stripes |
| `BlkseqTable.Table.Find` | bdb/bdb_blkseq.c:323-353 | the whole table answers like one map; a table that is switched off finds nothing |
| `BlkseqTable.Table.Insert` | bdb/bdb_blkseq.c:359-440 | the whole table changes like one map, and the result says duplicate, with the stored response, exactly when the key was present and not to be overwritten |
| `BlkseqTable.FindAnswersMap` | bdb/bdb_blkseq.c:323-353 | asking the stripe a key selects is asking the one map of all stripes |
| `BlkseqTable.StepRefinesMap` | bdb/bdb_blkseq.c:197-520 | every step of every stripe has the plain map effect on the contents of the whole striped two-tree table, and keys stay in the stripe they select |
| `BlkseqTable.Table.AllOld` | bdb/bdb_blkseq.c:898-910 | the two counters agree exactly when every entry for the file in every stripe is older than maxage |
| `BlkseqTable.Table.CanDeleteLog` | bdb/bdb_blkseq.c:891-932 | yes exactly when every entry for the file is older than maxage; a yes removes exactly those entries, a no changes nothing, and no answer to a client changes |
| `BlkseqTable.DeletableStays` | bdb/bdb_blkseq.c:911-928 | after a yes the answer stays yes at any clock until a blkseq is written to the file again |
| `BlkseqRebuild.LogCursor.ResolveHere` | bdb/bdb_blkseq.c:740-800 | following a commit's chain over prepare, logical transaction and child records finds its blkseq or nothing, and ends because each link leads to an earlier record |
| `BlkseqRebuild.CommitHere` | bdb/bdb_blkseq.c:740-836 | a commit stores its blkseq unless present, stops the walk if it is too old, and leaves the cursor on the commit record |
| `BlkseqRebuild.DistAbortHere` | bdb/bdb_blkseq.c:724-739 | a distributed abort overwrites the prepared key's response and leaves the cursor on the prepare record |
| `BlkseqRebuild.Recover` | bdb/bdb_blkseq.c:688-840 | the in-place walk over the log with a cursor computes the walk over what each record means, from any table |
| `BlkseqRebuild.RebuildIsReplay` | bdb/bdb_blkseq.c:712-840 | backwards with the first insert winning gives the same map as forwards with the last write winning, over the longest log suffix without a stale blkseq |
| `BlkseqTable.LatePassCondition` | bdb/bdb_blkseq.c:898-928 | the counting and the removing pass lock one stripe at a time; after a count that found all entries old enough, every entry removed is old enough if and only if no stripe gets a recent entry for the file between its two locked regions that is not forgotten again |
| `BlkseqTable.DeletionPromiseCondition` | bdb/file.c:3949-3952 | after any runs of all stripes, every yes at a clock not before the last write keeps the promise that no deleted file holds a blkseq within maxage, if and only if each blkseq of the file is no newer than the newest entry for it over all stripes or was out of date at the last write |
| `BlkseqRebuild.WalkHandlesVisits` | bdb/bdb_blkseq.c:712-840 | the walk handles a strictly descending list of records, each once, and its result is what handling them in that order gives |
| `BlkseqRebuild.RebuildCompleteCondition` | bdb/bdb_blkseq.c:724-840 | every recent committed blkseq is handled if and only if no handled abort record moves the cursor past one and none lies below the stale blkseq that ends the walk |
| `BlkseqRebuild.CommitOrderCondition` | bdb/bdb_blkseq.c:790-796 | without abort records, every recent blkseq is handled if and only if no stale one was committed after a recent one |
| `BlkseqRebuild.QuietWalkVisitsAll` | bdb/bdb_blkseq.c:712-840 | without abort records the walk handles every record from the end of the log down to the last stale blkseq, each exactly once |
| `BlkseqRestart.RunKeepsOk` | bdb/bdb_blkseq.c:359-440 | in every run of a node with commits, aborts, rolls and log deletions, each answer of the live table is an open transaction's or the last committed one for that key |
| `BlkseqRestart.FreshNodeOk` | bdb/bdb_blkseq.c:140-195 | a node with empty stripes and an empty log is a sound start for such runs |
| `BlkseqRestart.RecordsAreFiles` | bdb/file.c:4019-4088 | log files go from the front and without holes: deleting up to one of them deletes exactly the records of those files |
| `BlkseqRestart.LeftChain` | bdb/bdb_blkseq.c:740-790 | in the log files that are left a commit's chain leads to the same record, or breaks off exactly if that record was deleted |
| `BlkseqRestart.NoneIsLeft` | bdb/bdb_blkseq.c:740-836 | when the blkseq of a key's last commit is deleted, no older answer for the key comes back |
| `BlkseqRestart.RestartKeepsAnswers` | bdb/bdb_blkseq.c:688-874 | after any run and a restart, for every key: the rebuilt table answers if and only if the key was committed, the log file of its last commit's blkseq is still there and no blkseq committed since is stale; the answer is the last committed one, never an open or aborted transaction's, and agrees with the live table |
| `OsqlObjects.Repository.Register` | bdb/bdb_osqltrn.c:356-386 | a new transaction is born at the last commit LSN, or at the end of the log if there is none, with no logs yet; the invariant is kept |
| `OsqlObjects.Repository.CheckClients` | bdb/bdb_osqltrn.c:555-639 | every registered transaction that must undo the log gets it as last log, and as first if it had none; the result is how many did |
| `OsqlObjects.Repository.Insert` | bdb/bdb_osqllog.c:1072-1122 | a log is linked with its client count, or dropped at once if nobody needs it; the invariant is kept |
| `OsqlObjects.Repository.FreeFront` | bdb/bdb_osqllog.c:1128-1149 | exactly the longest prefix of logs without clients is freed, and the record total follows |
| `OsqlObjects.Repository.CancelClients` | bdb/bdb_osqltrn.c:475-517 | exactly the transactions whose first log is the given one are cancelled |
| `OsqlObjects.Repository.CancelFront` | bdb/bdb_osqllog.c:1151-1170 | from the front, each uncancelled log with clients is marked and its transactions cancelled, until the excess is covered |
| `OsqlObjects.Repository.CleanUp` | bdb/bdb_osqllog.c:1124-1172 | both passes of the garbage collection together keep the invariant |
| `OsqlObjects.Repository.Unlink` | bdb/bdb_osqltrn.c:423-436 | unregistering takes a transaction off the list before its counts are released; the invariant is kept in between |
| `OsqlObjects.Repository.GiveBack` | bdb/bdb_osqllog.c:4115-4162 | the walk from the first to the last log takes one count from each log the transaction had to undo, never runs off the list and never goes below zero |
| `OsqlObjects.Repository.Release` | bdb/bdb_osqltrn.c:443-467 | releasing the counts of a transaction that left keeps the invariant |
| `OsqlObjects.Repository.GetLwm` | bdb/bdb_osqltrn.c:1108-1138 | the loop returns the greatest lower bound of the birth LSNs of the transactions not cancelled |
| `OsqlObjects.Repository.AsofOkToDelete` | bdb/bdb_osqltrn.c:744-761 | yes exactly when every valid as-of reference is in a later file |
| `OsqlInvariant.RegisterKeepsOk` | bdb/bdb_osqltrn.c:356-386 | registering keeps the whole repository invariant |
| `OsqlInvariant.InsertKeepsOk` | bdb/bdb_osqltrn.c:555-639 | offering a new log keeps it: spans, presence of needed logs and exact client counts |
| `OsqlInvariant.CollectKeepsOk` | bdb/bdb_osqllog.c:1128-1149 | freeing from the front keeps it: no log a transaction still needs is freed |
| `OsqlInvariant.CancelKeepsOk` | bdb/bdb_osqllog.c:1151-1170 | cancelling keeps it |
| `OsqlInvariant.ReleaseKeepsOk` | bdb/bdb_osqllog.c:4115-4162 | giving back counts keeps it: each remaining count is still owed by exactly one transaction |
| `OsqlInvariant.AbandonKeepsOk` | bdb/bdb_osqltrn.c:404-411 | a failed registration keeps it only with the dropped transaction's counts counted as owed for ever |
| `OsqlRuns.RepoNext` | bdb/bdb_osqltrn.c:250-639 | every step of either repository is possible in a sound state and leaves it sound |
| `OsqlRuns.FirstAndLastLog` | bdb/bdb_osqltrn.c:555-639 | in every reachable state, first and last log of a registered transaction are the earliest and latest it must undo, unset exactly when there is none, and everything between that it must undo is still in the list |
| `OsqlRuns.NothingFreedAfterFirst` | bdb/bdb_osqllog.c:1128-1149 | from a transaction's first log on nothing is freed while it holds its counts, so a position in the list stays good |
| `OsqlRuns.ClientCountsConserved` | bdb/bdb_osqllog.c:994-1025 | summed over all logs, the client counts equal the number of (transaction, log) pairs whose count is still owed, in every reachable state |
| `OsqlRuns.DrainableCondition` | bdb/bdb_osqltrn.c:404-411 | all logs can be freed again if and only if no registration that failed in backfill had been handed a log |
| `OsqlRuns.AbandonLeaks` | bdb/bdb_osqltrn.c:404-411 | at the failure: it makes the logs undrainable if and only if the transaction has a first log |
| `OsqlRuns.CancelsJustEnough` | bdb/bdb_osqllog.c:1151-1170 | cancelling covers the excess with the fewest logs from the front |
| `OsqlRuns.LwmIsGreatestLowerBound` | bdb/bdb_osqltrn.c:1108-1138 | the running minimum is below every birth LSN that counts, and above every LSN that is |
| `OsqlRuns.LwmNeverDecreases` | bdb/bdb_osqltrn.c:1108-1138 | over any run in which some uncancelled transaction remains and births come in order, the mark never goes back |
| `OsqlRuns.AsofAllowsExactly` | bdb/bdb_osqltrn.c:706-761 | deleting file f is allowed if and only if every valid as-of reference is in a file greater than f |
| `OsqlRuns.AsofAllowsLower` | bdb/bdb_osqltrn.c:744-761 | approval of a file implies approval of every lower one |
| `OsqlLimit.CancelReaches` | bdb/bdb_osqllog.c:1151-1170 | every transaction that needs a log the cancelling pass looks at is cancelled, although the pass only compares first logs |
| `OsqlLimit.MarkedLogsAreGoing` | bdb/bdb_osqllog.c:1159-1166 | in every reachable state a log marked cancelled is needed by cancelled transactions only |
| `OsqlLimit.CleanUpEnforcesLimit` | bdb/bdb_osqllog.c:1151-1170 | after a clean-up with a limit, once the cancelled transactions have left, the next collection brings the records kept down to the limit, in any run without new logs |
| `ShadowUpdate.CursorShadow.SetLastlog` | bdb/bdb_osqlcur.c:288-337 | the resume point is kept for data and index shadows whose tables exist, and dropped otherwise |
| `ShadowUpdate.NextLog` | bdb/bdb_osqltrn.c:797-814 | the log after a given one in the list, or none after the last |
| `ShadowUpdate.CursorShadow.ApplyFrom` | bdb/bdb_osqlcur.c:458-506 | the loop applies every log from the given one to the tail, once each and in order, or up to the first one that shows a cancelled transaction; the resume point is its last log if the tables existed or one of the logs made them |
| `ShadowUpdate.CursorShadow.UpdateShadows` | bdb/bdb_osqlcur.c:357-506 | an update starts at the first log or right after the resume point, does nothing at the tail, never aborts or runs off the list, and stops early only at the first log with records of a cancelled transaction, keeping what it did |
| `ShadowUpdate.BeginProgress` | bdb/bdb_osqlcur.c:373-448 | starting an update in any sound state succeeds and goes on from the end of the current segment, or back to the first log if there is no resume point |
| `ShadowUpdate.TurnProgress` | bdb/bdb_osqlcur.c:458-506 | one turn of the loop in any sound state finds its next log and lengthens the current segment by it |
| `ShadowUpdate.UpdatesNeverStuck` | bdb/bdb_osqlcur.c:357-506 | whatever else runs between two turns, an update can always go on |
| `ShadowUpdate.AppliedIsOneSegment` | bdb/bdb_osqlcur.c:357-506 | over any interleaving, with updates finished or given up and shadow tables made at any time, as long as no update starts over the logs applied to a shadow are one contiguous segment from the transaction's first log, each once and in order, and the resume point is its end |
| `ShadowUpdate.UpdateEndsAtTail` | bdb/bdb_osqlcur.c:458-506 | the last turn of an update has applied everything up to the tail captured at its start |
| `ShadowUpdate.UpdateEffect` | bdb/bdb_osqlcur.c:357-506 | a whole update, whatever runs between its turns and whenever the tables are made, applies exactly the logs from its resume point to the tail at its start, and keeps that tail as resume point exactly if the tables existed at its last turn |
| `ShadowUpdate.AppliedOnceCondition` | bdb/bdb_osqlcur.c:288-337 | over every run, with any number of updates, finished or given up, and tables made at any time: no log is applied twice if and only if, whenever a later update gets to a turn, the last turn before its start was of a data or index cursor and found the shadow tables |
| `ShadowUpdate.AppliedOnceWithTables` | bdb/bdb_osqlcur.c:288-506 | for a data or index cursor of a transaction whose tables exist from the start, over every run each log is applied once, in one segment that ends at the resume point |
| `SkipTable.SkipCursor.IsDeleted` | bdb/bdb_osqlcur.c:675-784 | the lookup with its fast path and lazily opened skip cursor answers exactly what the start limit, the deleted rows and the rows skipped by undo logs say |
| `SkipTable.SkipCursor.SetDeleted` | bdb/bdb_osqlcur.c:790-825 | a success adds the row to the table's deleted set for every cursor; a failed creation adds nothing |
| `SkipTable.ShadowTran.ApplyUndo` | bdb/bdb_osqllog.c:1249-1438 | an undo log skips a row only if it is older than the start, and sets the flag only once the row is in the table |
| `SkipTable.LogSkipKeepsOk` | bdb/bdb_osqllog.c:1249-1438 | the undo logs' writes to the same skip table keep the invariant |
| `SkipTable.MarkKeepsOk` | bdb/bdb_osqlcur.c:790-825 | marking keeps the invariant and fails exactly when there is no skip table and none can be made |
| `SkipTable.AnswerIsHidden` | bdb/bdb_osqlcur.c:675-784 | in every sound state a lookup equals always searching |
| `SkipTable.DeletedRowsAreHidden` | bdb/bdb_osqlcur.c:657-784 | over every run of a transaction, for every cursor whenever opened or reset, a real row is hidden exactly when beyond the start limit, deleted through some cursor on the same table or skipped by an undo log applied to it; other tables hide nothing, and undo logs only rows from before the start |
| `SkipTable.DeletionStays` | bdb/bdb_osqlcur.c:790-825 | a reported deletion or skip is never forgotten in the rest of the run |
| `ShadowTables.TranShadows.OpenFiles` | bdb/bdb_osqlcur.c:830-903 | the descent allocates only what is missing and only if asked to create |
| `ShadowTables.TranShadows.OpenShadow` | bdb/bdb_osqlcur.c:68-156 | opening returns the table of the slot, making it on demand, for each kind with its own array sizes |
| `ShadowTables.OpenSlots` | bdb/bdb_osqlcur.c:830-903 | looking never allocates; creating fills the one slot asked for if it was empty and changes no other |
| `ShadowTables.TranShadows.FreeFiles` | bdb/bdb_osqlcur.c:925-964 | every table of the array is closed once, in order, and errors are counted without stopping |
| `ShadowTables.TranShadows.FreeShadows` | bdb/bdb_osqlcur.c:536-566 | freeing closes exactly the held tables and returns the number of failed closes |
| `ShadowTables.NothingLeaks` | bdb/bdb_osqlcur.c:536-566 | over every run of opens, failed creations and frees, every table made is in exactly one slot or was closed exactly once, and a second free closes nothing |
| `PageHash.HamFunc4` | archive/ar_wrap.c:31-65 | the unrolled loop hashes a prefix of the bytes to their polynomial at 33 modulo 2^32 |
| `PageHash.Pass` | archive/ar_wrap.c:44-63 | one pass entered at any case label hashes exactly the bytes that fall through from there |
| `PageHash.ConsumedCondition` | archive/ar_wrap.c:43-44 | exactly the given bytes are read if and only if rounding the length up to eights does not wrap, that is up to 2^32 - 8 |
| `PageHash.HashPage` | archive/ar_wrap.c:256-257 | for every such length the result is the plain left fold over the page |
| `PageChecksum.MyFlip` | archive/ar_wrap.c:70-84 | the result has the four bytes in reverse order |
| `Bytes.BswapTwice` | archive/ar_wrap.c:70-84 | flipping twice gives the number back |
| `PageChecksum.VerifyChecksum` | archive/ar_wrap.c:233-261 | true exactly when the stored checksum, in the file's byte order, is the sum of the page with that field zero; the page is left byte for byte as it was |
| `PageChecksum.PassesIffSealed` | archive/ar_wrap.c:233-261 | of all contents of the checksum field exactly one passes, the one that holds the page's sum |
| `Archiver.NewBuffer` | archive/ar_wrap.c:372-385 | the buffer is the page size doubled while it stays within 4 MB |
| `Archiver.BufferHoldsPages` | archive/ar_wrap.c:372-385 | it holds whole pages, is within the limit whenever a page is, and could not be doubled again |
| `PageVerifier.Reread` | archive/ar_wrap.c:443-463 | short reads are joined to one page; on an unchanged file the page is the file's, and the only failure is its end |
| `PageVerifier.VerifyPages` | archive/ar_wrap.c:412-471 | the loop ends, tries each page at most five times, restores the file position, and on success every page passes; on an unchanged file it succeeds if and only if the whole pages pass and a left-over piece passes with what the buffer holds behind it or as a page read again |
| `Archiver.DbFile.ReadWrite` | archive/ar_wrap.c:324-492 | -1 exactly when the size leaves nothing; the first read comes after the size was taken and may find nothing, which is an error; without checksums every chunk that was read and the writer takes is delivered, with them a chunk of an unchanged file is delivered exactly when it is accepted; the offset moves by the chunk exactly then |
| `Archiver.ChunksArePrefix` | archive/ar_wrap.c:356-484 | consecutive pieces of one file concatenate to a prefix of it |
| `Archiver.WholeStep` | archive/ar_wrap.c:412-484 | for whole pages, a chunk that fails shows a bad page of the file and one that passes extends the good part |
| `Archiver.CopyFile` | sqlite/ext/comdb2/files.c:131-168 | repeated calls on an unchanged file hand over all of it without gap or overlap if it is not checksummed, and if it is, with whole pages and full reads, exactly when every page passes; otherwise a prefix |
| `ArchiverCases.ShortReadFails` | archive/ar_wrap.c:394-463 | a first read of one byte leaves the offset inside a page, and a good file is then refused |
| `ArchiverCases.OddSizeFails` | archive/ar_wrap.c:412-463 | a byte behind the last whole page of a good file is refused, since no page can be read again |
| `WireBuffer.PutNetLittleHost` | bbinc/endian_core.amd64.h:17-45 | the byte-swapping host writes the field in network order inside the bound, or nothing |
| `WireBuffer.PutLittleBigHost` | bbinc/endian_core.sparc.h:33-71 | the big-endian host writes the field in little-endian order inside the bound, or nothing |
| `WireBuffer.PutPlain` | bbinc/endian_core.h:71-85 | the remaining routines copy the bytes inside the bound, or nothing |
| `WireBuffer.Get` | bbinc/endian_core.h:30-44 | a get checks the bound against the buffer it reads and yields the field in host order, or nothing |
| `WireBuffer.FailureSticks` | bbinc/endian_core.h:71-85 | a failed cursor stays failed and nothing more is written |
| `WireBuffer.ChainCondition` | bbinc/endian_core.h:30-44 | a chain of puts succeeds if and only if the fields fit together, and then leaves exactly their wire form |
| `WireBuffer.NothingOutside` | bbinc/endian_core.h:30-44 | successful or not, a chain changes no byte before the cursor or from the end on |
| `WireBuffer.GetReturnsPut` | bbinc/endian_core.h:30-44 | gets with the same modes and lengths return what was put, exactly when it fitted |
| `WireBuffer.PutThenGet` | bbinc/endian_core.h:30-44 | the same for a writer and a reader of any two byte orders, up to how each field crosses |
| `WireBuffer.IntWire` | bbinc/endian_core.amd64.h:17-74 | 2-, 4- and 8-byte integers have the wire's byte order whichever host wrote them, and come back in host order |
| `WireBuffer.IntCrossesHosts` | bbinc/endian_core.sparc.h:17-71 | an integer put on one host is the same number when got on the other |
| `WireBuffer.IntsCrossHosts` | bbinc/endian_core.sparc.h:17-71 | any list of integers has one wire form and either host reads it back |
| `WireBuffer.RawWireCondition` | bbinc/endian_core.amd64.h:17-74 | raw bytes have one wire form on both hosts if and only if they are copied as is, are not 2, 4 or 8 long, or read the same backwards |
| `Counterexamples.RetentionFails` | bdb/bdb_blkseq.c:477-520 | from a fresh stripe, a response stored in the unlock window can be lost early |
| `Counterexamples.LateCleanerFails` | bdb/bdb_blkseq.c:454-456 | from a fresh stripe, a response stored while the cleaner waits for the mutex with an older clock can be lost early |
| `Counterexamples.LogGuardFails` | bdb/bdb_blkseq.c:408-435 | from a fresh stripe, a key overwritten in the old tree can be dropped before its log file goes |
| `Counterexamples.DeletionPromiseFails` | bdb/file.c:3949-3952 | a file is approved five seconds after a blkseq was written to it |
| `Counterexamples.LatePassFails` | bdb/bdb_blkseq.c:911-928 | from a fresh stripe, a blkseq written between the two passes loses its entry |
| `Counterexamples.RebuildMissesRecent` | bdb/bdb_blkseq.c:790-796 | a log from which a recent blkseq, committed before a stale one, is not found again |
| `Counterexamples.RebuildSkipsCommit` | bdb/bdb_blkseq.c:724-739 | a log in which a commit between a distributed prepare and its abort is passed over |
| `Counterexamples.FailedRegistrationLeaks` | bdb/bdb_osqltrn.c:404-411 | a failed registration that was handed a log keeps that log for ever |
| `Counterexamples.LogReapplied` | bdb/bdb_osqlcur.c:288-337 | a data cursor of a transaction without shadow tables goes through the same log in two updates |
| `Counterexamples.HashOverReads` | archive/ar_wrap.c:43-44 | the largest 32-bit length makes the hash read past the end |
| `Counterexamples.RawBytesDiffer` | bbinc/endian_core.amd64.h:17-74 | a two-byte string differs on the wire between hosts |

## Left out

- Failing system calls and allocations: log cursor, file creation and removal, seek, and a first read that returns -1 (the archiver keeps its result in an unsigned variable).
- Mutex and condition variable mechanics, tracing, error code translation and statistics.
- The physical replicant mode of replay detection, and the settings that switch the table on and off during a run.
- The log list entries made during the rebuild (bdb/bdb_blkseq.c:802-817, bdb/bdb_blkseq.c:846-855).
- Redo during recovery, rolling the log back, and distributed transactions between a run and the restart of `BlkseqRestart.RestartKeepsAnswers`.
- BlkseqTable.Table.CanDeleteLog: counts and removes in one step; the code locks one stripe at a time in each of its two passes, and `BlkseqTable.LatePassCondition` says what that changes.
- ShadowUpdate.CursorShadow.UpdateShadows: `ok` is the outcome of the loop; the code overwrites its return value with that of closing the log cursor and leaves the error in `bdberr`. The method sees one state of the log list; updates interleaved with other steps are covered by the state machine of `ShadowUpdate.AppliedIsOneSegment` and `ShadowUpdate.UpdateEffect`.
- SkipTable.SkipCursor.IsDeleted: cursors always belong to a shadow transaction, and the data stored beside a deleted genid is not modelled.
- Which undo log records skip which rows, and blob and index records; the skip table sees the rows themselves.
- The contents of undo logs, of backfill and of shadow tables other than skip tables; a log is its genids and its number of records.
- `bdb_oldest_active_lsn`, durable LSN requests and the choice of the recovery point.
- CRC-32C itself, which is a parameter of the checksum, and the wait between two reads of a page.
- `dbfile_init` and `recognize_data_file` of the archiver, which parse a header and a file name.
- `buf_zero_put` and `buf_skip`, which have no check for a failed cursor, and the PowerPC variant of the byte order header.
- The permission checks of bdb/bdb_access.c and the network code of bdb/bdb_net.c, which would only add short lookups and wrappers.
