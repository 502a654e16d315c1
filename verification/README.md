# Verified model of syncat

syncat keeps folders in step between peers that talk directly to each other.
This project models the parts of it where a mistake loses or corrupts files and
proves what they promise. `dafny verify dfyconfig.toml` checks everything.

The modules follow the program:

- **Versions and reconciling** (`Vectors`, `Reconcile`, `Directions`, `Passes`,
  `Order`, `Calendar`, `ConflictNames`, `Causal`, `Convergence`): the version-vector
  algebra, the decision for one path and for a whole share, conflict names,
  one-way shares, runs of any number of nodes, and how two nodes come to agree.
- **Index replication** (`IndexLog`, `IndexReceiver`, `Mirror`, `FileStore`,
  `DeltaAnswer`, `BatchPlan`, `BatchEncoding`, `Cbor`): the journalled table, the
  receiver's handlers, the protocol under a network that loses, repeats and
  reorders frames, the two ways to answer a peer, the size arithmetic of batches
  and the encoding it stands for.
- **Local changes** (`HoldGuard`, `Ignore`, `Scanner`, `ScanWalk`): the guard
  that stops a disaster, the ignore rules, and the scan.
- **Files** (`Disk`, `Apply`, `Workers`, `Restore`, `Sweep`): applying a plan with any
  step failing, several workers at once, the trash, restoring from it and expiring it.
- **Scheduling and streams** (`IndexQueue`, `StreamLanes`, `Transfer`): the
  coalescing worker queue, the session writer's lanes, and interleaved
  transfers.

Protocols and schedulers are state machines: `Next` gives one step, `Enabled`
says when it can happen, and results about runs hold for every sequence of
enabled steps. Code that works in place is a class or a method, proved against
functions whose properties are then proved as lemmas. Failing system calls and
store writes are parameters, so a contract holds for every combination of them.
The disk is passed in and out of methods as a value. A file's digest stands for
its content.

## What does not hold

Nine promises turned out to fail on some inputs. Each has a lemma with such an
input or run, and where there is an exact condition, one that proves it.

- The first snapshot of a new epoch, cut off after its first frame, leaves the
  cursor at sequence 0 of that epoch; deltas may then answer, and rows of the
  earlier epoch stay in a mirror that is fully caught up
  (`Mirror.CaughtUpMirrorIsExactIff`,
  `DeltaAnswer.InterruptedFirstSnapshotKeepsStaleRow`).
- A lost cursor write at the start of a snapshot is ignored, and a batch count an
  earlier snapshot left can make the receiver skip batches and commit the rest
  (`Mirror.BeginKeepsStagedIff`, `DeltaAnswer.LostBeginInstallsTableIff`,
  `DeltaAnswer.LostBeginSkipsBatches`).
- An index update outside the sequenced stream can take a caught-up mirror back
  (`Mirror.UpdateKeepsMirrorIff`, `DeltaAnswer.OvertakenUpdateBreaksAgreement`).
- Two concurrent tombstones resolved in lock-step never agree
  (`Convergence.SimultaneousExchangesConvergeIff`).
- A restore over a row parked by an ignore rule can reuse a version for
  different content (`Causal.ParkedRestoreReusesAVersion`). It keeps equal
  versions meaning equal content exactly when every row whose version is one
  count of the restoring node has that content
  (`Causal.ParkedRestoreKeepsPromiseIff`); what keeps the promise for the rest of
  a run is `Causal.StepKeepsInvIff`, and `Causal.OwnRowTellsHarm` is what the
  node's own row says about that.
- A receive-only node with a live entry concurrent with a tombstone of a file
  asks the peer for the deleted file's content, which the peer refuses, so that
  revert never completes (`Directions.AsksForADeletedFileIff`).
- Two workers can interleave so that a losing file moved to its conflict path is
  removed or replaced without reaching the trash. A plan can lose a file this way
  exactly when such a path is, or lies above, a path another entry clears
  (`Workers.PlanLosesNothingIff`): the last remove of a delete takes it
  (`Workers.DeleteCanLose`), a pulled file replaces it (`Workers.PullCanLose`,
  `Workers.WinnerCanLose`, `Workers.PullBelowCanLose`), or another losing file
  does (`Workers.SameCopyCanLose`, `Workers.LoserAboveCanLose`).
- A name that spells one conflict marker around another changes each time its
  copy is renamed (`ConflictNames.RenamingACopyIsRenamingTheOriginal`).
- The session writer can wait for a lock whose holder waits for the writer, with
  66 or more different latest-state keys in use
  (`StreamLanes.FewKeysNeverStick`, `StreamLanes.ManyKeysCanStick`). Nothing
  moves until the waiting caller's context ends or the session stops.

## Model

| member | source | states |
|---|---|---|
| Vectors.ExactlyOneRelation | internal/sync/reconcile.go:44-93 | of equal, dominating, dominated and concurrent exactly one holds of any two vectors |
| Vectors.MergeIsLeastUpperBound | internal/sync/reconcile.go:95-110 | a merge is above both sides and below every vector above both |
| Vectors.MergeOrderIrrelevant | internal/sync/reconcile.go:95-110 | merging is commutative, associative and idempotent, counter by counter |
| Vectors.BumpDominatesUnlessItWraps | internal/sync/reconcile.go:112-125 | a bump dominates what it bumped if and only if the counter was not at its 64-bit maximum |
| Vectors.MergeBumpDominates | internal/sync/reconcile.go:95-125 | a bumped merge dominates both sides, so a resolution is newer than what it resolved |
| Vectors.ComputeEqual | internal/sync/reconcile.go:44-60 | the two map loops decide pointwise equality, a missing counter being 0 |
| Vectors.ComputeDominates | internal/sync/reconcile.go:62-86 | the two map loops decide: nowhere smaller and somewhere larger |
| Vectors.ComputeMerge | internal/sync/reconcile.go:95-110 | the two map loops build the pointwise maximum |
| Order.LexTotal | internal/sync/reconcile.go:474-521 | the byte order used to sort paths decides between any two strings |
| Order.LexLessIff | internal/sync/reconcile.go:474-521 | the first difference decides, and a proper prefix comes first |
| Passes.IndexByPath | internal/sync/reconcile.go:536-542 | the last row of each path wins |
| Passes.DecideAll | internal/sync/reconcile.go:474-521 | every path of either side gets exactly the decision for that path |
| Passes.ReconcileAll | internal/sync/reconcile.go:474-735 | one action for every path either side lists, in path order; a malformed, ignored or inbound-blocked path is left alone, and every other action has the kind, the row and the source that the two versions, deleted flags, contents and the direction call for |
| Passes.OneActs | internal/sync/reconcile.go:544-735 | the same of the decision for one path that is acted on, over all relations of the two versions |
| Directions.PullsAskForTheAdvertisedVersion | internal/sync/reconcile.go:544-753 | in every direction, pulled content and the version asked for are those the peer advertised, and kept content is the local one |
| Directions.UnseenEditsAreKept | internal/sync/reconcile.go:544-753 | a live file the remote version does not dominate is never deleted, and is overwritten only after being kept as a conflict copy |
| Directions.InboundBlockedChangesNothing | internal/sync/reconcile.go:556-558 | a share offered read-only is never changed by a peer |
| Directions.ReceiveOnlyAddsNoVersion | internal/sync/reconcile.go:614-625 | a receive-only node keeps its row of a live file or takes the peer's |
| Directions.AsksForADeletedFileIff | internal/sync/reconcile.go:614-640 | a decision asks for the content of a deleted file if and only if a receive-only node has a live entry concurrent with a tombstone of a file |
| Causal.ExchangeOutcome | internal/sync/reconcile.go:544-735 | a mirror-mode pass leaves the row alone, adopts the remote row, merges vectors over identical content, or bumps the merge |
| Causal.StepKeepsInvIff | internal/sync/reconcile.go:544-735 | each row has the content of the newest event its vector includes, and no row is ahead of a node on its own counter: a step keeps that if and only if it is no restore over a parked row that meets its counter with other content |
| Causal.EqualVersionsMeanEqualContent | internal/sync/reconcile.go:544-735 | in every run of such steps of any number of nodes, with reconciles against any row ever advertised, equal versions mean the same deleted flag and content |
| Causal.RunNeverRegresses | internal/sync/reconcile.go:544-735 | over every such run a node's version of a path goes back by nothing but its own restore over a parked row |
| Causal.RestoreIsANewVersionIff | internal/sync/trash.go:777-816 | over any row with a counter, a restore gives a newer version if and only if the row is not parked |
| Causal.ParkedRestoreRepeatsIff | internal/sync/trash.go:777-816 | over a parked row it repeats the row's version if and only if that is a single count of the restoring node |
| Causal.ParkedRestoreKeepsPromiseIff | internal/sync/trash.go:777-816 | after such a restore equal versions still mean equal content if and only if every row ever held whose version is one count of the restoring node has the restored content |
| Causal.OwnRowTellsHarm | internal/sync/trash.go:777-816 | a parked row without a count of the restoring node makes the restore harmless, one with two or more makes it harmful, and one with a single count must have the restored content |
| Causal.ParkedRestoreReusesAVersion | internal/sync/trash.go:777-816 | a run in which such a restore leaves two rows with equal versions and different content |
| Convergence.TurnCases | internal/sync/reconcile.go:544-753 | what one pass leaves for each relation of the two versions, spelled out for live rows and tombstones |
| Convergence.TakingTurnsConverges | internal/sync/reconcile.go:544-753 | from any causally sound pair, one turn each gives equal versions and the same content |
| Convergence.AgreementIsStable | internal/sync/reconcile.go:544-612 | a pass over agreeing rows changes nothing |
| Convergence.FirstExchange | internal/sync/reconcile.go:614-753 | after one simultaneous exchange both sides agree, or hold the same content under concurrent versions, or still two tombstones |
| Convergence.SimultaneousExchangesConvergeIff | internal/sync/reconcile.go:614-753 | two simultaneous exchanges reach agreement if and only if the pair was not two concurrent tombstones |
| Convergence.TombstonesLeapfrogForever | internal/sync/reconcile.go:652-662 | two concurrent tombstones resolved in lock-step stay concurrent after any number of exchanges |
| Convergence.BothKeepTheSameLoser | internal/sync/reconcile.go:406-430 | both nodes keep the same winner, and the same loser under the same name if and only if its derived name is not the path itself |
| Convergence.CopyNeverTakesTheWinnersPath | internal/sync/reconcile.go:366-430 | a conflict copy never gets the path of the file that won |
| ConflictNames.StripSplits | internal/sync/reconcile.go:324-384 | removing markers before and after a dot is independent |
| ConflictNames.StripRemovesMarker | internal/sync/reconcile.go:324-384 | a marker that was inserted is removed again and nothing else changes |
| ConflictNames.StripUnchangedIffMarkerFree | internal/sync/reconcile.go:324-384 | stripping changes a name if and only if a marker can be found in it |
| Reconcile.HexReads | internal/sync/reconcile.go:324-384 | the short id in a conflict name spells the first bytes of the loser's digest, two digits a byte |
| Calendar.CivilDateIsTheCalendar | internal/sync/reconcile.go:324-384 | the date in a conflict name walks the calendar day by day from 1 January 1970, leap years included |
| ConflictNames.StampReads | internal/sync/reconcile.go:324-384 | the fourteen digits of a stamp read as that date and the time of day in UTC |
| ConflictNames.MarkerBeforeExtension | internal/sync/reconcile.go:324-384 | the marker goes after the directory and the stem, before an extension with no other dot in it |
| ConflictNames.CopyOfCopy | internal/sync/reconcile.go:366-384 | a copy's directory is the original's, and its stripped name is the original's stripped again |
| ConflictNames.RenamingACopyIsRenamingTheOriginal | internal/sync/reconcile.go:366-384 | renaming a conflict copy gives what renaming the original gives, if and only if one stripping leaves no marker |
| ConflictNames.MarkerFreeNamesNeverGrow | internal/sync/reconcile.go:366-384 | for every name without a marker, copies of copies have the name of a first copy |
| ConflictNames.NestedMarkersChangeTheName | internal/sync/reconcile.go:366-384 | a name that spells one marker around another does change when its copy is renamed |
| ConflictNames.NestedMarkersExist | internal/sync/reconcile.go:324-384 | such a name exists |
| IndexLog.ApplyRowsAt | internal/index/syncstore.go:147-161 | storing rows in order leaves the last one of each path, or what was there |
| IndexReceiver.Session.HandleBegin | internal/sync/dispatch.go:50-64 | a snapshot resets the stored cursor to sequence 0 of the epoch and keeps the mirror; a failed cursor write is ignored |
| IndexReceiver.Session.HandleBatch | internal/sync/dispatch.go:66-99 | batches are staged in order, once each; a gap asks to resume; a failed cursor read counts as an empty cursor |
| IndexReceiver.Session.StageSnapshotBatch | internal/index/syncstore.go:89-111 | the first batch clears other stagings of the share; rows are staged under the snapshot's id |
| IndexReceiver.Session.HandleEnd | internal/sync/dispatch.go:101-127 | a complete snapshot replaces mirror and cursor in one transaction and is acknowledged; an incomplete one is dropped |
| IndexReceiver.Session.HandleDelta | internal/sync/dispatch.go:129-160 | only the delta that continues the cursor in its epoch is applied and acknowledged; any other asks to resync |
| IndexReceiver.DeltaIsAckedIff | internal/sync/dispatch.go:129-160 | a well-formed delta is acknowledged up to its end if and only if it continues the cursor and was stored; otherwise nothing changes and the sender is told the cursor |
| IndexReceiver.BatchOutOfOrder | internal/sync/dispatch.go:66-99 | a batch past the stored count is answered with the cursor and not staged, and one before it is dropped |
| IndexReceiver.DeltaIsRefusedIff | internal/sync/dispatch.go:129-160 | a delta is a violation if and only if its entries are not one or more consecutive sequences from its start to its end |
| IndexReceiver.MirrorMovesWithTheCursor | internal/sync/dispatch.go:101-160 | the mirror changes only when a frame is acknowledged, all at once: by the delta that continues it or by the whole staged snapshot |
| IndexReceiver.FailedStoreKeepsRows | internal/sync/dispatch.go:66-160 | a frame whose rows the store did not take changes no row, staged or mirrored |
| IndexReceiver.StagingOfOthers | internal/index/syncstore.go:89-111 | a first batch drops what other snapshots had staged, a later one leaves it, and both stage their rows in order |
| IndexReceiver.EndClosesTheSnapshot | internal/sync/dispatch.go:101-127 | an end frame for the snapshot in progress closes it, committed exactly when every batch is there and the store takes it |
| IndexReceiver.Session.HandleUpdate | internal/sync/session.go:1294-1328 | an update outside the sequenced stream stores its rows whatever the cursor says |
| Mirror.ListedRowsAreRecent | internal/sync/session.go:944-979 | rows listed after the high-water mark was read are at least as new as the mark |
| Mirror.CommitInstallsTable | internal/index/syncstore.go:112-134 | a snapshot whose batches were all staged installs exactly the table it listed |
| Mirror.DeltaKeepsMirror | internal/index/syncstore.go:135-166 | the next slice of the journal keeps every mirrored row at least as new as the cursor, even when it moves a row back |
| Mirror.StepKeepsInvIff | internal/sync/dispatch.go:50-160 | under loss, repetition and reordering of any frame and failure of any store call, a step keeps the relation of mirror, cursor, staging and journal if and only if it is harmless |
| Mirror.BeginKeepsStagedIff | internal/sync/dispatch.go:50-64 | a snapshot whose first cursor write is lost starts right if and only if the stored batch count is 0, counts leading batches already staged under its id, or is past its last batch |
| Mirror.UpdateKeepsMirrorIff | internal/sync/session.go:1294-1328 | an unsequenced update keeps the mirror as new as its cursor if and only if, for each path, its last row was written no earlier than the path's last write up to the cursor |
| Mirror.CaughtUpMirrorIsTheTable | internal/sync/dispatch.go:50-160 | in every run of harmless steps a caught-up mirror is the sender's table row for row, over what an earlier epoch left if no snapshot was committed |
| Mirror.CaughtUpMirrorIsExactIff | internal/sync/dispatch.go:50-160 | a caught-up mirror is exact if and only if a snapshot of the epoch was committed or nothing left over names a path outside the table |
| Mirror.OutgoingCursorIsSafe | internal/sync/session.go:686-723 | an accepted ack names a position the receiver committed before and the end of a frame this session fully wrote |
| Mirror.OutgoingCursorNeverFalls | internal/sync/session.go:686-723 | over every run the outgoing cursor never falls within the epoch |
| Mirror.SentIsTheNewest | internal/sync/session.go:686-702 | in every run the endpoint acknowledgements are compared with is the newest this session has fully written |
| Mirror.WrittenFrameIsNoted | internal/sync/session.go:686-702 | a written frame becomes that endpoint, with its snapshot id, unless a newer one was written before |
| Mirror.AckIsTakenIff | internal/sync/session.go:704-722 | an acknowledgement moves the record if and only if it names that endpoint and its snapshot and the record is not there yet |
| FileStore.Store.PutFile | internal/index/store.go:432-471 | a row is stored and journalled under the next sequence number together |
| FileStore.Store.PruneJournal | internal/index/syncstore.go:84-88 | pruning drops the rows older than a time |
| FileStore.KeptIsASuffix | internal/index/syncstore.go:84-88 | with journal times in order, pruning drops a prefix |
| FileStore.Store.ShareState | internal/index/syncstore.go:23-35 | the high-water mark is the number of journalled writes |
| FileStore.Store.OldestJournalSeq | internal/index/syncstore.go:76-83 | the oldest sequence the journal still holds, or 0 |
| FileStore.Store.JournalSince | internal/index/syncstore.go:48-74 | the retained rows after a position, oldest first, up to the limit |
| FileStore.CanAnswerIffJournalHoldsTheRest | internal/sync/session.go:1088-1107 | deltas may answer if and only if the peer is in the epoch, not ahead, and every sequence it lacks is still in the journal |
| FileStore.PageCut | internal/sync/session.go:1184-1206 | the rows of the next frame fit it; none are taken only if the first breaks a limit of the wire |
| FileStore.SendPage | internal/sync/session.go:1053-1072 | a page goes out as frames that carry its rows without gap or overlap |
| FileStore.SendNextPage | internal/sync/session.go:1043-1076 | each page continues what was sent, or lies beyond a gap that pruning left |
| FileStore.SendJournalDeltas | internal/sync/session.go:1036-1078 | with any writes and prunings between pages, the frames tile everything after the peer's position at least as far as the journal went at the start, unless it was pruned past the end of the tiles; it gives up only over a row after that position that is ignored or breaks a wire limit; every frame fits and carries no ignored row, and an ignored row after the position that stays in the journal rules the deltas out |
| DeltaAnswer.TilesAreApplied | internal/index/syncstore.go:135-166 | each such frame passes the receiver's checks, and together they replay the rest of the journal |
| DeltaAnswer.AnswerIsAppliedUpToAnyGap | internal/index/syncstore.go:135-166 | whatever was pruned meanwhile, the receiver ends where the tiles end with exactly that much of the journal replayed, and refuses what lies beyond a gap |
| DeltaAnswer.ReplayReachesTable | internal/index/syncstore.go:135-166 | replaying the rest of the journal over any mirror the protocol reaches gives the sender's table |
| DeltaAnswer.SnapshotInstallsTable | internal/sync/dispatch.go:50-127 | a snapshot received whole leaves the listed table at its high-water mark |
| DeltaAnswer.DeltaAnswerEqualsSnapshotAnswer | internal/sync/session.go:944-1006 | from every state the protocol reaches after a snapshot, the delta answer and a snapshot answer leave the same mirror and position |
| DeltaAnswer.InterruptedFirstSnapshotKeepsStaleRow | internal/sync/session.go:944-979 | a run in which the first snapshot of an epoch is cut off, the check on that run's own cursor, mark and journal lets a delta answer, and a stale row of the earlier epoch survives at a caught-up cursor |
| DeltaAnswer.OvertakenUpdateBreaksAgreement | internal/sync/session.go:1294-1328 | a run that ends caught up and past a snapshot with an old row in the mirror, put there by an update that a newer write had overtaken |
| DeltaAnswer.LostBeginInstallsTableIff | internal/sync/dispatch.go:50-127 | a snapshot whose first cursor write is lost, received from the stored count on, installs the listed table if and only if that many leading batches were already staged under its id |
| DeltaAnswer.LostBeginSkipsBatches | internal/sync/dispatch.go:50-127 | a run that ends caught up and past a snapshot with a row missing, because the write that began the snapshot was lost |
| BatchPlan.CountersSizeAnyOrder | internal/protocol/message.go:387-420 | a version vector's encoded size does not depend on the order of its counters |
| BatchPlan.ComputeVersionSize | internal/protocol/message.go:387-420 | the loop over a vector adds up its encoded size |
| BatchPlan.ComputeEntrySize | internal/protocol/message.go:403-420 | the encoded size of one row; the key names alone take 56 bytes |
| BatchPlan.ChargedBatchFits | internal/sync/session.go:1149-1182 | a batch charged within the target really encodes within 3 MiB, header widths included, and stays under 65,536 elements |
| BatchPlan.SnapshotBatchLen | internal/sync/session.go:1163-1182 | the longest prefix of the rows that is charged within the target |
| BatchPlan.WireRowBound | internal/protocol/message.go:403-420 | no row the wire allows encodes to more than 6,000 bytes |
| BatchPlan.PlanSnapshot | internal/sync/session.go:985-1000 | every listing is split exactly into non-empty batches that fit, or the plan stops at a row over the budget of a batch of this plan; rows the wire allows are always split |
| BatchPlan.ChargedDeltaFits | internal/sync/session.go:1184-1206 | the same bound for a delta, whose envelope is measured with a later sequence number |
| BatchPlan.DeltaBatchLen | internal/sync/session.go:1184-1206 | the longest prefix of a page that is charged within the target, and it really fits |
| Cbor.HeadReads | internal/protocol/message.go:116-124 | a head of any 64-bit argument is read back as written, whatever follows |
| BatchEncoding.EntrySizeIsItsLength | internal/protocol/message.go:152-161 | the size of a row is the length of its encoding, in whatever order its counters go |
| BatchEncoding.SnapshotMessageSizeIsItsLength | internal/protocol/message.go:262-267 | the size of a snapshot batch is the length of the encoded message |
| BatchEncoding.DeltaMessageSizeIsItsLength | internal/protocol/message.go:273-283 | the size of a delta is the length of the encoded message |
| HoldGuard.StepEndsIff | internal/hold/hold.go:184-467 | one operation ends a hold over deletes or a missing root if and only if it is a zero-delete change, a reserved-directory failure, a confirmation of a confirmable hold or a rejecting retention, and the store takes it |
| HoldGuard.HeldLinkStaysHeld | internal/hold/hold.go:184-467 | until such an operation the link stays held with its date and every change that deletes a live file is refused, whatever the thresholds and whichever store writes fail |
| HoldGuard.HeldThroughoutIff | internal/hold/hold.go:184-467 | a link held at the start of a stretch of a run is held all along if and only if no operation of the stretch ends the hold |
| HoldGuard.OnlyEndsReleases | internal/hold/hold.go:184-467 | a hold that no longer guards was released by one such operation, which found it guarding and left it not |
| HoldGuard.AdmittedIff | internal/hold/hold.go:236-317 | a change is admitted if and only if it deletes nothing, was confirmed, or leaves something of two or more live files and misses one of the two thresholds, on a link that is free or held only over the reserved directory |
| HoldGuard.EmptyingIsAlwaysHeld | internal/hold/hold.go:282-297 | deleting every live file of two or more is refused at any thresholds unless confirmed |
| HoldGuard.BulkDeleteIsHeld | internal/hold/hold.go:282-297 | a change that reaches both thresholds is refused unless confirmed, and held as a bulk delete when files remain |
| HoldGuard.RefusalRecords | internal/hold/hold.go:230-260 | a refusal the store takes records the counts and why, keeps the date of a hold there was, and touches no other link |
| HoldGuard.ConfirmationCounts | internal/hold/hold.go:92-100 | a confirmation counts exactly on a hold that is not over the folder itself |
| HoldGuard.SinceIsConstant | internal/hold/hold.go:438-454 | a hold keeps its date from placement to clearing |
| HoldGuard.ConfirmAdmitsAtMostOne | internal/hold/hold.go:236-262 | no more held changes are admitted on a link than it was confirmed in the store, plus those whose hold the store then failed to clear |
| HoldGuard.RefusalIsRememberedIff | internal/hold/hold.go:236-262 | a refused change leaves its link held if and only if it was held or the store took the write |
| HoldGuard.ForgottenRefusalLetsTheRestThrough | internal/hold/hold.go:236-262 | after a refusal the store did not take, a partly undone disaster is admitted, and only then |
| HoldGuard.AllDoomedIff | internal/hold/hold.go:264-280 | the counts agree if and only if every live file would be deleted |
| HoldGuard.Measure | internal/hold/hold.go:264-280 | counts the live files, and those among them that would be deleted |
| HoldGuard.Guard.Load | internal/hold/hold.go:155-174 | the cache holds exactly the recorded holds |
| HoldGuard.Guard.Place | internal/hold/hold.go:438-454 | a hold is placed in store and cache together or in neither, keeping an earlier date |
| HoldGuard.Guard.Clear | internal/hold/hold.go:458-467 | a hold is cleared in store and cache together or in neither |
| HoldGuard.Guard.Decide | internal/hold/hold.go:239-262 | admits or refuses as specified, and cache and store agree afterwards |
| HoldGuard.Guard.Scan | internal/hold/hold.go:184-191 | a scan that would empty a share of two or more live files is not applied unless confirmed |
| HoldGuard.Guard.ScanFailed | internal/hold/hold.go:198-213 | holds for a foreign reserved directory, or for a missing root while there are live files, and for nothing else |
| HoldGuard.Guard.Pass | internal/hold/hold.go:220-234 | a pass that finds this node's own copy held is refused and no hold changes; otherwise it is decided by the holds there are after whatever ran between its two locked sections |
| HoldGuard.Guard.Confirm | internal/hold/hold.go:377-402 | confirms a held, confirmable link if the store takes it, and otherwise changes nothing |
| HoldGuard.Guard.Retain | internal/hold/hold.go:406-431 | forgets exactly the rejected holds the store could delete |
| IndexQueue.EnqueueFindsRoom | internal/sync/session.go:475-500 | the non-blocking send never finds the queue full while fewer than 64 keys are pending |
| IndexQueue.ReleaseFindsRoom | internal/sync/session.go:528-533 | the send made under the lock never waits |
| IndexQueue.StepKeepsInv | internal/sync/session.go:475-536 | every step keeps: a pending key has one token, in the queue or one worker's hand, or is running in exactly one worker |
| IndexQueue.SchedulerIsSafe | internal/sync/session.go:475-536 | in every run queued keys are distinct and pending, at most one job per key runs, a taken key has its job, and only a 65th key is refused |
| IndexQueue.AcceptedJobIsNeverLost | internal/sync/session.go:475-536 | in every run an accepted job started, waits, or gave way to a later job of its key that did |
| IndexQueue.JobsStartInOrder | internal/sync/session.go:475-536 | jobs of one key start in the order they were accepted, at most once |
| IndexQueue.WorkLowersRank | internal/sync/session.go:502-536 | every worker step brings the end nearer, so without new notifications workers stop |
| IndexQueue.QuiescentMeansIdle | internal/sync/session.go:502-536 | when no worker can move, all are idle and nothing is pending: there is no deadlock |
| IndexQueue.QuiescentMeansLastJobRan | internal/sync/session.go:475-536 | and the last job accepted for every key has run |
| IndexQueue.Scheduler.EnqueueIndex | internal/sync/session.go:475-500 | the enqueue section does what the step says |
| IndexQueue.Scheduler.ClaimKey | internal/sync/session.go:509-515 | the claim section does what the step says, and hands out the pending job |
| IndexQueue.Scheduler.ReleaseKey | internal/sync/session.go:528-533 | the release section does what the step says, without blocking |
| Disk.MkdirAllSound | internal/sync/apply.go:402-411 | making directories keeps every file, and fails on a file in the way |
| Disk.RenameMoves | internal/sync/apply.go:336-338 | a rename onto a free path moves what is there and touches nothing else |
| Apply.ComponentsJoin | internal/sync/path.go:135-158 | the components a relative path is split into have no slash and give the path back |
| Apply.FreeStoredPath | internal/sync/trash.go:391-413 | finds a free name in the event among 9,999 candidates if and only if there is one |
| Apply.NumberedName | internal/sync/trash.go:391-413 | a numbered candidate has the number before the extension, which starts at the last dot |
| Apply.CandidatesDiffer | internal/sync/trash.go:391-413 | the candidates of one path are all different |
| Apply.MoveAcross | internal/sync/trash.go:360-367 | a rename, or a copy between devices, never loses what it moves, wherever it fails |
| Apply.Put | internal/sync/trash.go:334-374 | a success has left nothing at the path and everything in the event, and a failure has lost nothing |
| Apply.PullAndInstall | internal/sync/apply.go:383-447 | a success installs the advertised content, what it replaced is in the event, and no failure loses anything |
| Apply.Commit | internal/sync/apply.go:475-508 | what is in the way is trashed before the staged file is renamed into place |
| Apply.ApplyDelete | internal/sync/apply.go:204-249 | a file is removed only once it is in the event; a directory only when empty |
| Apply.KeepLocalWinner | internal/sync/apply.go:280-301 | the remote loser is pulled to the conflict path and the local winner stays |
| Apply.PreserveLoser | internal/sync/apply.go:311-338 | the local loser ends at the conflict path, after what was there is trashed |
| Apply.KeepLocalLoser | internal/sync/apply.go:303-350 | winner and loser both end in place, or nothing is lost; both do if no call fails and nothing is in the way |
| Apply.ApplyAction | internal/sync/apply.go:93-139 | a fully applied action leaves on disk what it decided, one that nothing makes fail is applied, nothing changes away from its paths, and any failure keeps every content |
| Apply.ApplyPlan | internal/sync/session.go:1530-1550 | for every plan and every combination of faults each file content is kept and nothing changes away from the plan's paths; if those are apart, every action reported as applied is done in the final share, and all are applied if nothing makes one fail |
| Disk.RenameKeepsOthers | internal/sync/apply.go:336-504 | a rename, whatever it replaces, keeps every other file outside the source, and the source arrives whole |
| Workers.StepKeeps | internal/sync/apply.go:204-508 | any system call of a worker keeps each content safe and out of the workers' reach, unless it moves a losing file to a path that is or lies above one another worker is busy with, or to one that meets a staging file |
| Workers.WorkersLoseNothing | internal/sync/session.go:1466-1497 | in every interleaving of the other calls, wherever it stops, each file content of the share is in the share or in the trash event |
| Workers.PlanLosesNothingIff | internal/sync/session.go:1466-1497 | no interleaving loses a file, whatever the share holds, if and only if no conflict path a local loser moves to is, or lies above, a path another plan entry clears |
| Workers.DeleteCanLose | internal/sync/apply.go:241-248 | a plan can lose a file when it deletes at or below the conflict path of another entry's local loser |
| Workers.PullCanLose | internal/sync/apply.go:500-506 | a plan can lose a file when it pulls to the conflict path of another entry's local loser |
| Workers.PullBelowCanLose | internal/sync/apply.go:413-506 | a plan can lose a file when it pulls below the conflict path of another entry's local loser |
| Workers.WinnerCanLose | internal/sync/apply.go:318-348 | a plan can lose a file when one conflict's winner is pulled to the conflict path of another's local loser |
| Workers.SameCopyCanLose | internal/sync/apply.go:318-338 | a plan can lose a file when two local losers have the same conflict path |
| Workers.LoserAboveCanLose | internal/sync/apply.go:318-338 | a plan can lose a file when the conflict path of one local loser lies above the paths of another |
| Restore.RestoreOne | internal/sync/trash.go:734-771 | a restored file is back with its content, what it replaced is in its own event, and no failure loses anything |
| Restore.DeleteThenRestore | internal/sync/trash.go:654-771 | restoring what a pass deleted brings the share back as it was |
| Sweep.SortsByAge | internal/sync/trash.go:868 | events are walked oldest first |
| Sweep.Sweep | internal/sync/trash.go:862-902 | the sweep removes exactly the events that are due and can be removed; when every removal succeeds that is an age-ordered prefix with every expired one, the rest fits or is the newest alone, and each other removal was needed |
| Sweep.SweepOldestFirst | internal/sync/trash.go:870-890 | the loop with the running total removes exactly those, whichever removals fail |
| Sweep.SweepKeepsNoMoreThanItMust | internal/sync/trash.go:862-902 | whichever fail, the newest goes only for its age, and unless the rest fits every older event kept is one that failed to go |
| Sweep.JustifiedIsUnique | internal/sync/trash.go:846-902 | only one sweep meets that description |
| Ignore.MatchOne | internal/index/ignore.go:320-331 | the last pattern that matches decides |
| Ignore.LastHit | internal/index/ignore.go:317-331 | a verdict comes from a matching pattern with no match after it, and there is none only if nothing matches |
| Ignore.DirectoryOnlyRules | internal/index/ignore.go:317-331 | a directory-only rule says nothing of a file and counts like any other for a directory |
| Ignore.OtherRulesMatchAnything | internal/index/ignore.go:317-331 | a rule without that restriction matches files and directories alike |
| Ignore.WhatRulesSay | internal/index/ignore.go:293-331 | the last rule that matches the path decides, else the last one for the deepest directory above it that any rule matches, else nothing |
| Ignore.MatchRules | internal/index/ignore.go:293-315 | the path's own verdict, or else that of its deepest ancestor that has one |
| Ignore.MatchGlobs | internal/index/scanner.go:554-565 | some pattern matches the base name or the whole path |
| Ignore.BaseIsTheLastElement | internal/index/scanner.go:554-565 | the base name a glob is tried on is what follows the last slash |
| Ignore.MatchPath | internal/index/scanner.go:527-550 | the reserved directory, a glob on the path or an ancestor, or the share's own rules |
| Ignore.WhatIsIgnored | internal/index/scanner.go:527-550 | the reserved directory is ignored without any matcher, a glob on the path or a directory above it beats every rule, and otherwise the rules decide |
| Ignore.RulesCoverDescendants | internal/index/ignore.go:293-331 | without negations an ignored directory's descendants are ignored |
| Ignore.MatchedDirectoryCoversDescendants | internal/index/scanner.go:527-578 | when pruning is allowed, everything below a matched directory is matched |
| Ignore.NegationCanReinclude | internal/index/scanner.go:567-578 | for every directory and path below it, some rules with a negation ignore the one and not the other |
| Scanner.BucketsAreDisjoint | internal/index/scanner.go:178-301 | no path is in two of the five buckets |
| Scanner.OnDiskIsNeverTombstoned | internal/index/scanner.go:132-170 | a path that is on disk, readable or not, is never tombstoned |
| Scanner.AbsentIsTombstoned | internal/index/scanner.go:150-167 | a live path that is absent is tombstoned, unless what is above it was pruned or unreadable |
| Scanner.GoneIsTombstoned | internal/index/scanner.go:178-260 | so is a live path that was listed but is gone or a link, and is not ignored |
| Scanner.IgnoredIsParked | internal/index/scanner.go:304-319 | a live path the walk meets ignored is parked, and only ignored paths are |
| Scanner.PrunedIsParked | internal/index/scanner.go:320-331 | every live path below a pruned directory is parked and not tombstoned |
| Scanner.OnlySyncedEntriesAreListed | internal/index/scanner.go:178-301 | nothing ignored, unreadable, linked or of syncat's own directory is listed |
| Scanner.ListedRowsCarryTheVersion | internal/index/scanner.go:397-423 | every listed row of an indexed path has that path's version, and one of a new path has none |
| Scanner.ScanAdvancesVersions | internal/index/store.go:552-600 | applying the scan gives new, changed and deleted paths a version above the one they had and leaves every other version as it was |
| Scanner.ReachedIsIndexed | internal/index/scanner.go:247-300 | afterwards every readable entry that is not ignored has a live row of its type; a file has the size, time and mode found and the digest read, or keeps its old row if it looked unchanged or could not be read |
| Scanner.GoneAndParkedRows | internal/index/store.go:552-600 | a deleted row stays as a tombstone with its metadata, and a parked one keeps everything |
| Scanner.RescanFindsNothing | internal/index/store.go:552-600 | scanning the same tree again after the scan is applied gives five empty buckets |
| Scanner.PruningIsSound | internal/index/scanner.go:216-226 | without negations the pruned walk gives the same new, changed and touched rows as the full walk and no extra tombstone |
| ScanWalk.Scan.NoteIgnored | internal/index/scanner.go:311-319 | an ignored path is marked seen, and its live row is parked once |
| ScanWalk.Scan.NoteIgnoredSubtree | internal/index/scanner.go:324-331 | and so is every indexed path below a pruned directory |
| ScanWalk.Scan.KeepUnreadable | internal/index/scanner.go:344-358 | what could not be read, and is not gone, counts as seen with everything below it |
| ScanWalk.Scan.Classify | internal/index/scanner.go:247-300 | an entry goes to the bucket it belongs in |
| ScanWalk.Scan.Visit | internal/index/scanner.go:178-301 | one entry of the walk extends every list by what that entry calls for |
| ScanWalk.Scan.Run | internal/index/scanner.go:132-170 | in any order of the walk, the five lists hold exactly the five buckets, every path once |
| ScanWalk.Scan.TombstoneUnseen | internal/index/scanner.go:150-167 | live rows nothing accounted for become tombstones |
| StreamLanes.OrderedLanesAreFifo | internal/protocol/stream.go:363-408 | in every run what an ordered lane has written is a prefix of what it accepted, and the rest is queued |
| StreamLanes.StepKeepsKeys | internal/protocol/stream.go:410-453 | every step keeps: the pending frames are those of the queued keys, the writer's key and the waiting key, all different |
| StreamLanes.LatestLaneDeliversTheNewest | internal/protocol/stream.go:410-453 | a key the writer takes always finds its frame, and a drained key's last written frame is its last accepted one |
| StreamLanes.BulkIsNotStarved | internal/protocol/stream.go:469-520 | in every run, while bulk stays queued at most 8 control and latest frames go out before the next bulk frame |
| StreamLanes.UrgentGoesFirst | internal/protocol/stream.go:469-520 | in every run, while an urgent frame is queued at most one other frame goes out before the next urgent one |
| StreamLanes.LanesAreBounded | internal/protocol/stream.go:363-408 | in every run the lanes hold at most 8 urgent, 64 control and 4 bulk frames and 64 latest-state keys |
| StreamLanes.StuckStaysStuck | internal/protocol/stream.go:424-453 | a writer that needs the lock an enqueuer holds while waiting for room takes no step until that enqueuer gives up |
| StreamLanes.FewKeysNeverStick | internal/protocol/stream.go:410-453 | with at most 65 different latest-state keys that never happens |
| StreamLanes.ManyKeysCanStick | internal/protocol/stream.go:410-453 | with 66 or more some interleaving does it |
| Transfer.StepKeepsTransfer | internal/sync/transfer.go:108-260 | every step keeps: a waiting pull's frames in flight continue what it has written up to what was sent, an overtaking error aside |
| Transfer.SuccessfulPullIsTheFile | internal/sync/transfer.go:161-260 | in every interleaving of transfers a pull that succeeds wrote exactly the served file, of the expected size |
| Transfer.WholeResponseSucceeds | internal/sync/transfer.go:223-259 | a finished response that arrives whole makes the pull succeed |
| Transfer.ForeignChunksAreRefused | internal/sync/transfer.go:223-259 | a pull takes bytes only from a chunk with its identity and version that starts where it got to; anything else ends it |
| Transfer.WaitingPullsGetALastFrame | internal/sync/transfer.go:161-368 | in every run a pull that waits while its response is finished has the last frame still coming, and at most two frames in its inbox |
| Transfer.NoFalseViolations | internal/sync/transfer.go:233-236 | between honest nodes no interleaving makes a pull refuse a chunk as not its own |
| Transfer.AtMostOneTerminalFrame | internal/sync/transfer.go:296-368 | each request queues at most one end marker or error, whatever is still queued |

## Left out

- HTTP API, command line, web UI, transport, signatures and tokens: plumbing around the cores above.
- Receive-only and read-only directions in runs and convergence: they drop local counters on a revert. `Directions` states what single decisions promise there.
- Path validation in `Reconcile` and `Apply`: a rejected path is a predicate or a failing call, not the character rules.
- Conflict copies in runs of `Causal` and `Convergence`: they land on paths of their own, which those runs do not follow.
- Ignore rules inside the replication protocol: a row that becomes ignored leaves the sender's listing without a journal entry, so agreement is stated without them. `FileStore.SendJournalDeltas` has the check for them.
- Mirror.CaughtUpMirrorIsTheTable: frames of one epoch only, and `UpdatedAt` is not part of a row. Store transactions are atomic, and journal times do not go back.
- Convergence.TakingTurnsConverges: counters stay below their 64-bit maximum and no subscription is forgotten, as in `Causal`.
- Causal.RunNeverRegresses: a parked row takes no part in exchanges while it is parked; its run has only the restore that ends that.
- Apply.ApplyPlan: one action at a time. Workers.WorkersLoseNothing has several workers at once, call by call, on the contents kept; that every action is carried out is stated for one at a time, on plans whose paths are apart. The index rows each action reports are left to `Reconcile`.
- Workers.PlanLosesNothingIff: each worker makes its entry's calls in the program's order, and may repeat them or stop anywhere. Any move into the event may be a copy and a remove, as between devices. Making the parent of a staging file is part of staging it. Names of staging files are arbitrary.
- Workers.PullBelowCanLose: the losing directory holds a file with the random name of the pull's staging file, left by an earlier crash. The other runs need no such coincidence.
- Apply.Put: the event folder is a tree of its own beside the share's; opening it and writing its log are calls that may fail.
- Scanner.RescanFindsNothing: the walk lists what the disk holds; entries that appear or vanish between two looks are not followed, except as failing calls.
- Ignore.MatchRules: parsing and compiling patterns; a compiled pattern is any predicate on paths.
- IndexQueue.SchedulerIsSafe: the time after shutdown begins.
- StreamLanes.BulkIsNotStarved: urgent frames are not counted, as nothing bounds them but liveness traffic. Writer failures end a run.
- Transfer.SuccessfulPullIsTheFile: both nodes follow the protocol and transfer ids are never reused. What a misbehaving peer sends is caught by the digest check in `Apply.PullAndInstall`.
- Cancelling a served transfer, stall timers and slot limits of transfers: `GiveUp` stands for every way a pull ends early.
- Which copy of a path a restore takes from an event that has several: stored names are compared as strings there.
- SQL and JSON, and CBOR other than the index messages: tables are maps and sequences. Texts are encoded one byte a character.
