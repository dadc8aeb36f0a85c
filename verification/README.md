# Rango in Dafny

Rango is a local-first document store with a replicated log. This project models four parts of it
and proves what they keep, over every input and every run:

- the replicated document engine (`Revisions`, `Documents`, `Merge`, `Conservation`, `Resolution`,
  `Batches`, `Retries`, `Effects`, `ReplayCases`, `Replication`, `Snapshots`, `LocalWrites`,
  `LocalEffects`, `LocalLog`, `Engine`):
  last-writer-wins merging with nested conflict lists, deterministic replay of mutation batches,
  agreement of engines that receive the same mutations, snapshots, local writes and their log, and
  queries (`Queries`, `Cursors`);
- the sync hub (`Hub`, `HubShape`, `HubIndexes`, `HubIdempotence`, `HubContainment`, `HubPull`,
  `HubRequests`, `HubConcurrency`, `HubServer`): an append-only log with two indexes, pushes, pulls and promotions
  under arbitrary policies, the timed containment of a scope, and the same appends interleaved by
  many handlers; the request limiter in front of it (`RateLimiting`);
- the durable framed files (`Frames`, `Oplog`, `LogFile`, `SyncQueue`): the operation log and the
  sync queue as sequences of bytes, with crash prefixes, compaction and reopening;
- the flat key space of the storage (`Storage`) and the JSON converters (`Migration`).

`Wrappers`, `Orders`, `Sequences` and `StableSort` hold the shared vocabulary.

Objects the program updates in place are classes (`RangoEngine`, `ServerState`, `FileOplog`,
`FileSyncQueue`, `RateLimiter`, `LazyCursor`, `RedbStorage`, `MemoryStorage`). Each of their methods
is proved equal to a function of the old state, and the theorems are about runs of those functions:
what single operations do, case by case and in the terms of requests, fields and bytes, and what
whole runs of them keep.
Policies, clocks, codecs, text formats, fresh ids and revisions are parameters, so a theorem holds
for each of them; where a law is needed of one it is a precondition. A codec is asked to carry the
entries that are written and no others: to decode what it encoded, in fewer bytes than a frame holds.

Strings are sequences of characters ordered by code point; documents are maps, so the order of
fields is not part of the model; numbers are unbounded unless a range is written out.

## What turned out to need a condition

Several promises hold only under a condition. Each has its exact condition or a counterexample here.

- Merging is independent of delivery order exactly when all versions show the same, or the greatest
  revision belongs to a live version and to no live one of other content (`Merge.OrderIndependentIff`):
  a stored tombstone is overwritten whatever its revision, and of two versions that carry one revision
  the first stays (`Merge.TiedVersionsDepend`). The same condition, for what readers see, decides
  whether engines that receive the same mutations agree (`Replication.EnginesAgreeIff`).
- A merge loses versions exactly when a tombstone gives way, revisions tie, the list of ten overflows,
  or the winner's `_conflicts` is no list, in which case the loser vanishes without a trace
  (`Conservation.RunConservesIff`, `Conservation.OddWinnerSwallows`).
- The header of `revision.rs` says that revisions sort as text the way they sort semantically. They
  do exactly when the first number in which they differ is aligned in its leading digits
  (`Revisions.LexicographicIffAligned`); the tenth revision of a millisecond sorts before the ninth.
- Replaying the local log shows a key as it is locally exactly when it was not last deleted, or each
  of its live versions is followed, in canonical order, by one of greater revision
  (`LocalLog.ReplayRebuilds`). Timestamps that increase along the log are enough; an insert and a
  delete within one clock reading are not, and the document can come back (`LocalLog.TiedDeleteIsUndone`).
- A write whose metadata is refused has been stored and is not logged, so the store no longer mirrors
  the log, unless the write was stopped before or stored what its key already showed
  (`LocalLog.StepMirrorsIff`, `LocalLog.TracedIff`).
- A mutation without an `_id` has its write id recorded before it is refused, so sending it again
  reports success and stores nothing. In a run every recorded id was merged exactly when no batch
  stopped at such a mutation (`Retries.FailureIsNotRetried`, `Retries.RecordedIsMergedIff`). A batch
  sent until it succeeds fails once for each of them (`Retries.ResendSucceedsIff`).
- Applied ids survive a restore, so a tail is replayed in full exactly when none of its ids was
  applied before, and a second rollback with the same window leaves the bare snapshot
  (`Snapshots.TailCountsIff`, `Snapshots.SecondRollbackIsBare`).
- Once the newest log entry has been applied and compacted away, a reopened log issues its number
  again and the next compaction drops the new entry (`Oplog.ReissuedEntryIsDropped`). No number is
  issued twice exactly when no append comes while the counter is behind (`Oplog.NeverReissuedIff`).
- What is appended to a file reads back exactly when the file ends between frames
  (`Frames.AppendReadsBackIff`, `Oplog.AppendedReturnsIff`).
- A pull reads a thousand entries of the whole log but answers with the checkpoint of the scope, so
  writes of the scope beyond that page are never pulled from that checkpoint (`HubPull.NothingMissedIff`, `HubPull.BeyondIsLost`).
- A write pushed into the audit collection is never indexed: it is appended again on every push, and
  under another kind it is returned by every pull (`HubIdempotence.RepeatedWriteIff`, `HubPull.QuietIff`).
- Handlers that run at once keep the write ids exact if and only if no two are ever past the lookup
  of one write (`HubConcurrency.WriteIdsExactIff`); checkpoints survive every interleaving.
- Sort keys are a preorder exactly when no NaN meets two different numbers (`Queries.KeyOrderIff`).
- The flat table agrees with nested collections exactly when no collection name is another's followed
  by a zero byte and more (`Storage.FlatRefinesNestedIff`).

## Model

| member | source | states |
|---|---|---|
| Revisions.PrintParse | crates/types/src/revision.rs:19-22 | Every timestamp, counter and node part that fits is given back by parsing its printed revision. |
| Revisions.ParsePrintIff | crates/types/src/revision.rs:71-87 | Parsing also takes a plus sign and leading zeros: printing the reading gives the text back exactly when both numbers are plain decimals. |
| Revisions.AcceptedIff | crates/types/src/revision.rs:71-87 | Exactly the texts made of a timestamp, a dash, a counter, a dash and any node part are accepted, and each is read as those three. |
| Revisions.NumberReadIff | crates/types/src/revision.rs:78-84 | A number is read exactly from its digits, with or without one plus sign, if it is below the limit. |
| Revisions.LeadingZero | crates/types/src/revision.rs:78-84 | Zeros in front of a number do not count. |
| Revisions.CompareReadingTotalOrder | crates/types/src/revision.rs:89-103 | The comparison is the total order on (timestamp, counter, node part): antisymmetric, reversible, transitive. |
| Revisions.PrintedEqualIffSame | crates/types/src/revision.rs:89-103 | Printed revisions compare as their readings do, and tie exactly when their texts are the same. |
| Revisions.ParsedEqualNotSame | crates/types/src/revision.rs:71-103 | Two accepted texts that tie under the comparison without being equal. |
| Revisions.LexicographicIffAligned | crates/types/src/revision.rs:8-10 | The documented claim that text order is semantic order, with the exact condition under which it holds. |
| Revisions.LexicographicIsNotSemantic | crates/types/src/revision.rs:8-10 | Counters nine and ten of one millisecond, in opposite orders. |
| Merge.OrderIndependentIff | crates/core/src/engine.rs:486-534 | Whatever the versions, every order of delivery ends in the same current content exactly when all of them show the same, or the greatest revision belongs to a live version and to no live one of other content. |
| Merge.ConvergesIff | crates/core/src/engine.rs:486-534 | For two or more versions of distinct revisions that is: exactly when the greatest revision is live. |
| Merge.TiedVersionsDepend | crates/core/src/engine.rs:511-528 | Two live versions that carry one revision and different values end differently in their two orders, although the greatest revision is live. |
| Merge.LiveMaximumStays | crates/core/src/engine.rs:486-534 | A live version of greatest revision, with no live rival of that revision and other content, ends as the current one in whatever order it came. |
| Merge.LastMaximumWins | crates/core/src/engine.rs:486-534 | A version of greatest revision without a live rival ends as the current one when delivered last, live or not. |
| Merge.TombstoneForgotten | crates/core/src/engine.rs:508-532 | A stored tombstone leaves no trace on what the following versions merge to. |
| Merge.RivalsDepend | crates/core/src/engine.rs:511-528 | With two live versions of greatest revision and different content two orders end differently. |
| Merge.DeadMaximumDepends | crates/core/src/engine.rs:486-534 | So they do when no live version has the greatest revision and not all versions show the same. |
| Merge.EndsDeadIff | crates/core/src/engine.rs:508-532 | Any versions, tombstones and ties among them, end in a tombstone exactly when every live one is followed by one of greater revision. |
| Merge.AddConflictKeeps | crates/core/src/engine.rs:718-731 | Recording a loser changes nothing of the winner but its conflict list. |
| ReplayCases.MergeCases | crates/core/src/engine.rs:486-534 | By the fields of the two documents: a tombstone gives way to anything; otherwise the version of later time, higher counter or greater node part stays in full with the other as the newest of its at most ten conflicts, and of a tie the first stays as it is. |
| Conservation.MergeAccounts | crates/core/src/engine.rs:486-534 | Every merge accounts for every version: those held after it and those it lost, which a guard on the two documents names, are those held before and those that came. |
| Conservation.MergeConservesIff | crates/core/src/engine.rs:508-531 | A merge with a live document, of another revision, conserves what both held exactly when the winner's `_conflicts` is a list or absent and no version is among the entries that give way. |
| Conservation.OddWinnerSwallows | crates/core/src/engine.rs:718-731 | A winner whose `_conflicts` is no list stays as it is: the loser is recorded nowhere. |
| Conservation.TreesConserveIff | crates/core/src/engine.rs:508-531 | For documents whose conflicts are lists of such documents, as merging builds them: exactly when the winner's list has room; otherwise what is held strictly shrinks. |
| Conservation.MergeStaysBounded | crates/core/src/engine.rs:718-731 | No list at any depth gets longer than ten, whatever the revisions and tombstones. |
| Conservation.RunStaysBounded | crates/core/src/engine.rs:486-534 | The bound of ten at every depth over a whole run of merges. |
| Conservation.RunAccounts | crates/core/src/engine.rs:486-534 | What a run of any versions holds at its end and what its merges lost between them are exactly what was applied. |
| Conservation.RunConservesIff | crates/core/src/engine.rs:486-534 | A run of any versions holds at its end exactly what was applied if and only if each of its merges was with a live document of another revision, into a list, and gave up no version. |
| Conservation.LiveTreesConserveIff | crates/core/src/engine.rs:486-534 | For live versions with conflict trees: if and only if no list overflowed on the way. |
| Conservation.ElevenAreConserved | crates/core/src/engine.rs:718-731 | Live versions into which conflicts can be written, with at most eleven entries counting their conflict lists, are all held whatever those entries are. |
| Conservation.TreesWeigh | crates/core/src/engine.rs:718-731 | Conflict trees with at most eleven versions are such. |
| Conservation.ReplicasAgree | crates/core/src/engine.rs:486-534 | Two orders of the same such versions end with the same content and the same multiset of versions. |
| Conservation.TwelveOverflow | crates/core/src/engine.rs:718-731 | Twelve versions, newest first, overflow: the bound of eleven is sharp. |
| Resolution.ResolvePicks | crates/core/src/engine.rs:766-811 | A version is found exactly when one in the list carries the chosen revision, and none that carries it is kept. |
| Resolution.ResolveKeeps | crates/core/src/engine.rs:778-797 | Of several listed versions of the revision the last is chosen; all other documents of the list are kept in their order. |
| Resolution.ResolvedIs | crates/core/src/engine.rs:799-809 | The resolved document is the chosen one with the kept versions for conflicts, or with no conflicts field. |
| Resolution.ResolveSplits | crates/core/src/engine.rs:766-811 | The versions of the list are those kept plus those picked, none lost or doubled. |
| Resolution.ResolutionHolds | crates/core/src/engine.rs:766-811 | The resolved document has the chosen revision; of the versions held before, exactly the displaced one and what was under the chosen one are gone. |
| Batches.MutationsPreorder | crates/core/src/engine.rs:568-575 | The sort key is a total preorder on any mutations. |
| Batches.ScanDecidesOrder | crates/core/src/engine.rs:546-566 | The scan of neighbours finds something exactly when the batch as a whole is not sorted. |
| ReplayCases.OrderMeaning | crates/core/src/engine.rs:568-575 | The sort key is collection, then time, then number, then printed document id, then write id, texts in dictionary order. |
| ReplayCases.BatchIsCanonical | crates/core/src/engine.rs:568-628 | A batch is the replay of its one rearrangement in that order in which mutations of equal keys stay as they came. |
| Batches.BatchForgetsOrder | crates/core/src/engine.rs:568-628 | Two orders of arrival of a batch give the same storage, applied ids, skips and count or error. |
| Batches.ReplayAppend | crates/core/src/engine.rs:577-619 | Replaying a concatenation is replaying the parts one after the other, stopping at the first error. |
| ReplayCases.TurnCases | crates/core/src/engine.rs:584-619 | One mutation in a replay, by cases: which metadata is refused, what a known write id does, what a missing `_id` leaves recorded, and otherwise the key, the version and the merge. |
| ReplayCases.KeyCases | crates/core/src/engine.rs:600-615 | A mutation goes to its own collection or, without one, to the default; under the `_id` of its patch or its document id; and brings its patch or the tombstone of its revision and time. |
| Batches.BatchSplits | crates/core/src/engine.rs:568-628 | A batch split between keys is two batches with the same final state and added counts. |
| Batches.ReplayCounts | crates/core/src/engine.rs:577-619 | What a successful replay remembers and counts, and that it skips exactly when the ids were not fresh. |
| Batches.BatchCounts | crates/core/src/engine.rs:540-628 | The same for unsorted input; the drift flag is set exactly when the input was not sorted or an id had been seen. |
| Batches.RunCountsOnce | crates/core/src/engine.rs:540-628 | Over any run of successful batches the total is the number of distinct new non-empty write ids plus the number of mutations without one. |
| Batches.ReapplyIsIdle | crates/core/src/engine.rs:589-598 | A successful batch of named mutations sent again at any later time changes and counts nothing. |
| Retries.FailureIsNotRetried | crates/core/src/engine.rs:584-619 | One mutation fails and succeeds when sent again exactly when its metadata is valid, its write id is named and new, and its document has no `_id`; nothing has then been stored. |
| Retries.ReplayRecords | crates/core/src/engine.rs:584-619 | Every replay, failing or not, records exactly the ids it merged and the one it lost, all new and disjoint; it fails exactly at the first refused mutation, with that error. |
| Retries.RetriedBatchLost | crates/core/src/engine.rs:584-619 | A batch that failed and succeeds when sent again at any later time has lost the mutation it stopped at, which neither replay merged. |
| Retries.RefusesNoneIff | crates/core/src/engine.rs:584-619 | A replay refuses nothing exactly when all metadata is valid, all that lacks an `_id` has a write id, and no new write id first occurs on a mutation without an `_id`. |
| Retries.ResendSucceedsIff | crates/core/src/engine.rs:584-619 | Sent over and over, a batch succeeds the n-th time again exactly when nothing in it is refused for ever and n is at least the number of its new write ids that first occur, in canonical order, on a mutation without an `_id`: each costs one failure. |
| Retries.RetriedBatchIff | crates/core/src/engine.rs:584-619 | So a whole batch fails and succeeds when sent again at once exactly when nothing in it is refused for ever and there is one such id. |
| Retries.RunRecords | crates/core/src/engine.rs:577-619 | Over every run of batches, failed ones included, the recorded ids are those merged and those lost, and no id is ever both. |
| Retries.RecordedIsMergedIff | crates/core/src/engine.rs:589-607 | In a run every recorded id was merged if and only if no batch stopped at a named mutation without an `_id`. |
| Retries.NothingLost | crates/core/src/engine.rs:584-607 | None is lost when every named mutation with valid metadata brings its `_id`, which a caller can check beforehand. |
| Effects.ReplayMerges | crates/core/src/engine.rs:584-619 | A replay of fresh mutations merges into every key exactly the versions meant for it, in order. |
| Effects.ReplayCongruent | crates/core/src/engine.rs:584-619 | A replay confined to a collection depends on that collection and its seen ids only, and touches no other. |
| Effects.ReplayUnseen | crates/core/src/engine.rs:584-619 | A confined replay on an engine that has seen some of its ids does what the rest of it does on one that has not. |
| Effects.ReplayKeepsKeys | crates/core/src/engine.rs:486-619 | Replaying keeps every document stored under its own id. |
| Replication.EnginesAgreeIff | crates/core/src/engine.rs:540-628 | Two engines of any nodes, to which the mutations are new and the key shows nothing, get through all batches that deliver them, in any batching and order and with named ones repeated, and then always show the same under the key, exactly when none of its versions is live, or the greatest revision belongs to a live one and to no live one of other content. |
| Replication.RunIsReplay | crates/core/src/engine.rs:540-628 | A run of batches is one replay of its sorted batches: the same state, the same count, a failure where it fails. |
| Replication.ReplayOnce | crates/core/src/engine.rs:584-607 | A replay in which write ids occur again does exactly what it does without the repetitions. |
| Replication.NodeDoesNotShow | crates/core/src/engine.rs:601-612 | Tombstones are stamped with the replaying node, and no reader sees of which. |
| Snapshots.RestoreIsExact | crates/core/src/engine.rs:648-681 | Restoring over any later state gives exactly the snapshot's collection and leaves the others alone. |
| Snapshots.SnapshotPlusTail | crates/core/src/engine.rs:630-681 | A snapshot restored after any intervening operations, with a replay tail, shows what the snapshot would have shown after the part of the tail that the engine had not applied. |
| Snapshots.RecoveryIsFullReplay | crates/core/src/engine.rs:630-681 | Head, snapshot, restore and tail give the collection and count of one batch of the head and of the part of the tail that the engine had not applied. |
| Snapshots.SnapshotPlusNewTail | crates/core/src/engine.rs:630-681 | With a tail neither engine had applied, that is the whole tail. |
| Snapshots.RecoveryOfNewTail | crates/core/src/engine.rs:630-681 | And the whole history. |
| Snapshots.TailCountsIff | crates/core/src/engine.rs:589-598 | A tail that succeeds on both engines counts the same exactly when the restoring one had applied none of its ids. |
| Snapshots.SecondRollbackIsBare | crates/core/src/engine.rs:648-716 | The same snapshot and named window restored a second time replay nothing and leave the bare snapshot. |
| Snapshots.RollbackStopsAtTarget | crates/core/src/engine.rs:683-716 | Windows that agree up to the target roll back to the same state and answer whatever they hold above it, and a window with nothing above is restored whole. |
| Snapshots.BoundedCounts | crates/core/src/engine.rs:706-709 | A mutation is replayed exactly as often as the window has it if its number is at or below the target, and never otherwise. |
| Snapshots.BoundedAgreeIff | crates/core/src/engine.rs:706-709 | What is replayed of two windows is the same, in order, exactly when they agree up to the target. |
| Snapshots.RollbackCounts | crates/core/src/engine.rs:683-716 | A successful rollback over new named mutations answers the number of write ids at or below the target. |
| LocalWrites.UntouchedStays | crates/core/src/engine.rs:880-926 | An update leaves every field that none of its operators names as it was. |
| LocalEffects.LastOperatorDecides | crates/core/src/engine.rs:880-926 | The last operator that names a field decides it: set to the given value, gone, or increased by an amount of its own numeric kind, wrapped for integers, and otherwise unchanged. |
| LocalEffects.UpdateErrsIff | crates/core/src/engine.rs:880-926 | An update errs exactly when one of its operators is none of the three. |
| LocalEffects.UpdateShows | crates/core/src/engine.rs:334-405 | What a reader finds after an update, field by field, what the log carries, and exactly when it answers false, errs or is refused without effect. |
| LocalEffects.InsertShows | crates/core/src/engine.rs:131-202 | After an insert that fits a reader finds the document as given, live, under its own or a fresh id and stamped, and the log carries exactly that. |
| LocalEffects.DeleteShows | crates/core/src/engine.rs:407-471 | After a delete a reader finds nothing, the tombstone keeps every other field, and the log carries no patch. |
| LocalWrites.StepKeepsKeys | crates/core/src/engine.rs:131-202 | Inserts, deletes, collections of garbage and updates that spare the id keep documents under their own ids. |
| LocalWrites.GcRemovesTombstones | crates/core/src/engine.rs:816-831 | On such a store garbage collection removes the tombstones of the collection and nothing else. |
| LocalLog.RunMirrors | crates/core/src/engine.rs:131-471 | In every run whose refused writes show nothing, the store shows, key by key, what the last logged version of the key shows. |
| LocalLog.RefusedIsStored | crates/core/src/engine.rs:131-471 | A write whose metadata is refused is stored and not logged: exactly which inserts, updates and deletes err that late, and the storage each leaves. |
| LocalLog.StepMirrorsIff | crates/core/src/engine.rs:131-471 | One operation keeps the store a mirror of the log exactly when its metadata is accepted, or it is stopped before storing, or what it stores is what its key shows already. |
| LocalLog.TracedIff | crates/core/src/engine.rs:131-471 | The store mirrors the log all along a run exactly when every write of it is of that kind. |
| LocalLog.ReplayRebuilds | crates/core/src/engine.rs:540-628 | The log of any run, refused writes or not, replays completely on a fresh engine of any node, and a key shows what was last logged for it if and only if that was no deletion, or each of its live versions is followed, in canonical order, by one of greater revision. That is its local view when no refused write showed. |
| LocalLog.TimedReplayRebuilds | crates/core/src/engine.rs:540-628 | With timestamps increasing along the log every key shows what was last logged for it: the same live answer and the same document apart from conflicts. The local store is rebuilt if and only if it mirrors the log. |
| LocalLog.CanonicalKeepsKeyOrder | crates/core/src/engine.rs:568-575 | Such timestamps make the canonical order keep the log order of each key. |
| LocalLog.ReplayedKeyAgreesIff | crates/core/src/engine.rs:486-534 | The same for the versions of one key in any order of replay, with any number of tombstones. |
| LocalLog.TiedDeleteIsUndone | crates/core/src/engine.rs:407-471 | An insert and a delete at one timestamp whose replay brings the document back. |
| Engine.DropOldest | crates/core/src/engine.rs:726-728 | The loop leaves the last ten entries. |
| Engine.AddConflict | crates/core/src/engine.rs:718-731 | The in-place edit is the function the conservation theorems are about. |
| Engine.ApplyUpdate | crates/core/src/engine.rs:880-926 | The operator loop, its order and its error for an unknown operator. |
| Engine.RangoEngine.constructor | crates/core/src/engine.rs:32-46 | A new engine has an empty store and log and has seen no write id. |
| Engine.RangoEngine.FindOne | crates/core/src/engine.rs:205-217 | The stored document unless it is absent or a tombstone. |
| Engine.RangoEngine.Scan | crates/core/src/engine.rs:474-482 | Every document of the collection exactly once, in some order. |
| Engine.RangoEngine.InsertOne | crates/core/src/engine.rs:131-202 | The new store, log and answer of an insert, errors included. |
| Engine.RangoEngine.UpdateOne | crates/core/src/engine.rs:334-405 | The new store, log and answer of an update, errors included. |
| Engine.RangoEngine.DeleteOne | crates/core/src/engine.rs:407-471 | The tombstone, log entry and answer of a delete. |
| Engine.RangoEngine.GcDeleted | crates/core/src/engine.rs:816-831 | Deletes by carried id what a scan shows as tombstones and counts them. |
| Engine.RangoEngine.ApplyRemoteMutation | crates/core/src/engine.rs:486-534 | One merge into the store, or the error of a document without id and no change. |
| Engine.RangoEngine.DetectDrift | crates/core/src/engine.rs:546-566 | The loop answers whether two neighbours are out of order. |
| Engine.RangoEngine.ApplyMutationsDeterministic | crates/core/src/engine.rs:540-628 | The loop with two sets of seen ids is the replay with one, which makes the set per batch redundant; the drift counter moves exactly on drift. |
| Engine.RangoEngine.CreateSnapshot | crates/core/src/engine.rs:630-646 | A scan of the collection with the given identity. |
| Engine.RangoEngine.RestoreFromSnapshot | crates/core/src/engine.rs:648-681 | Refused without effect for another collection; else the cleared and loaded store followed by the replay. |
| Engine.RangoEngine.RollbackToSnapshot | crates/core/src/engine.rs:683-716 | Refused without effect; else restored and replayed up to the target number only. |
| Engine.RangoEngine.ResolveConflict | crates/core/src/engine.rs:766-811 | Errors without effect, or the resolved document in place of the current one. |
| Engine.GarbageListed | crates/core/src/engine.rs:816-831 | The tombstones a scan names are the keys garbage collection deletes, and as many as the store holds. |
| Queries.KeyOrderIff | crates/query/src/engine.rs:88-111 | The order of sort keys across kinds is a total preorder on a set exactly when it has no NaN beside two different numbers. |
| Queries.DocumentOrderIff | crates/core/src/engine.rs:291-298 | The comparison of documents by a field, ascending or descending, under the same exact condition. |
| Queries.FieldOrderMeaning | crates/query/src/engine.rs:58-111 | By the values in the field: null, absent and what cannot be sorted by first, then whole numbers, doubles, texts and dates, each kind in its own order; descending is the reverse. |
| Queries.ProjectedHas | crates/query/src/engine.rs:21-53 | Which fields a projection shows: the included ones and the id unless excluded, or all but the excluded ones, with their values. |
| Queries.ProjectTwice | crates/query/src/engine.rs:21-53 | Projecting twice is projecting once, in both modes. |
| Queries.Project | crates/query/src/engine.rs:21-53 | The insert loops keep exactly the wanted fields with their values. |
| Cursors.LazyCursorIsSimpleQuery | crates/core/src/engine.rs:238-286 | Draining the lazy cursor yields project(take(limit, drop(skip, filter(scan)))): as documents for every filter, and with nothing else when no filter or scan errs. |
| Cursors.MatchingCounts | crates/core/src/engine.rs:858-878 | A document is among the matches as often as the scan lists it if it is live and the filter accepts it, and never otherwise. |
| Cursors.MatchingAppend | crates/core/src/engine.rs:858-878 | The matches are in scan order. |
| Cursors.AnswerWindow | crates/core/src/engine.rs:300-312 | The answer has the documents after the skip, up to the limit, each projected in its place. |
| Cursors.FilteredErrs | crates/core/src/engine.rs:858-878 | An error comes through exactly when the scan has it or the filter fails with it on a live document. |
| Cursors.StreamPassesErrors | crates/core/src/engine.rs:256-283 | The cursor passes errors on in order, all of them when there is no limit. |
| Cursors.SortedPathIsStable | crates/core/src/engine.rs:289-298 | The one permutation that is in the order of the field's values, in the direction asked for, and keeps scan order among values of one rank is the sorted path's. |
| Cursors.TiesBothWays | crates/core/src/engine.rs:291-298 | Descending order does not reverse ties. |
| Cursors.FilteredIter.Next | crates/core/src/engine.rs:858-878 | Skips tombstones and non-matching documents and passes errors on, one item at a time. |
| Cursors.LazyCursor.Next | crates/core/src/engine.rs:256-283 | Each call takes the head of what draining would yield; the second filtering changes nothing. |
| Cursors.LazyCursor.Drain | crates/core/src/engine.rs:842-850 | Calling until the end gives the whole stream. |
| Cursors.FindUnsorted | crates/core/src/engine.rs:229-286 | `find` without a sort answers the simple query. |
| Cursors.FindSorted | crates/core/src/engine.rs:288-327 | `find` with a sort answers the window of some order of the matching documents, and of the one sorted by the field's values with ties in scan order unless a NaN meets two different doubles. |
| Frames.LengthRoundTrip | crates/oplog/src/file.rs:305-315 | Four little-endian bytes give their number back. |
| Frames.LengthBytesUnique | crates/oplog/src/file.rs:305-315 | No other four bytes read as that number. |
| Frames.LengthBytesCount | crates/oplog/src/file.rs:305-315 | The first byte counts ones, the second 256s, and so on. |
| Frames.CrashPrefix | crates/oplog/src/file.rs:62-77 | For every cut, reading the bytes before it yields exactly the payloads whose frames end at or before it. |
| Frames.WholeFramesFit | crates/oplog/src/file.rs:62-77 | The count of those frames: they fit before the cut and one more does not. |
| Frames.FramesRoundTrip | crates/oplog/src/file.rs:152-202 | A whole file reads back as what was written. |
| Frames.ReadThenWrite | crates/oplog/src/file.rs:176-202 | What is read from any bytes, written again, is the front of those bytes. |
| Frames.ReadFramesAppend | crates/oplog/src/file.rs:137-165 | A file that ends between frames goes on with what is appended. |
| Frames.TornTailHidesAppend | crates/oplog/src/file.rs:137-202 | After a frame torn past its length, appended bytes show nothing new exactly while they are fewer than the missing ones. |
| Frames.AppendReadsBackIff | crates/oplog/src/file.rs:137-202 | For any given length up to 0xfe000000 bytes: every appended payload at least that long reads back after all that read before if and only if the file ends between frames. |
| Frames.TornTailSwallows | crates/oplog/src/file.rs:137-202 | For every torn file a payload, at least as long as any given length up to that, which is lost when appended to it. |
| Oplog.CompactKeepsUnapplied | crates/oplog/src/file.rs:231-291 | For every file, compaction leaves exactly the decodable entries not marked applied, in order. |
| Oplog.KeptFrames | crates/oplog/src/file.rs:252-281 | Of the frames themselves it keeps unapplied entries and whatever cannot be decrypted or read as an entry, each as often as it was there, and no other. |
| Oplog.KeptAppend | crates/oplog/src/file.rs:252-281 | And in file order. |
| Oplog.LatestSeqIff | crates/oplog/src/file.rs:57-79 | Opening fails exactly when some whole frame cannot be decrypted; otherwise the counter is the number of the last decodable entry. |
| Oplog.ReadSinceIs | crates/oplog/src/file.rs:170-204 | A read gives the first decodable entries from a number on, as many as the limit says but at least one. |
| Oplog.AppendAddsEntry | crates/oplog/src/file.rs:137-169 | Appending to a file that ends between frames adds the numbered entry at the end and keeps it so. |
| Oplog.AppendedReturnsIff | crates/oplog/src/file.rs:137-202 | For any file, the appended entry comes back after all those before it, under every codec that carries it in at least a given number of bytes, up to 0xfe000000, if and only if the file ended between frames. |
| Oplog.RunRefines | crates/oplog/src/file.rs:137-291 | Every run of append, mark, compact and reopen on bytes is the run of a list of entries. |
| Oplog.StepRefines | crates/oplog/src/file.rs:137-291 | Each single operation refines its list form. |
| Oplog.RunOrdered | crates/oplog/src/file.rs:137-291 | In every run the numbers in the file strictly increase and none is above the counter. |
| Oplog.SinceIsTail | crates/oplog/src/file.rs:170-204 | On such a list the entries from a number on are a tail. |
| Oplog.IssuedIsInterval | crates/oplog/src/file.rs:137-146 | The numbers issued are exactly those from one to the highest. |
| Oplog.AppendIsFreshIff | crates/oplog/src/file.rs:137-146 | The next append gets a new number exactly when the counter stands at the highest issued. |
| Oplog.NeverReissuedIff | crates/oplog/src/file.rs:57-79 | Over whole runs no number is issued twice exactly when no append comes while the counter is behind the highest issued. |
| Oplog.ReopenKeepsCounterIff | crates/oplog/src/file.rs:35-79 | A reopen keeps it there exactly when the entry of that number is still last in the file. |
| Oplog.IssuedOnce | crates/oplog/src/file.rs:57-79 | Without a reopen after that loss the numbers issued are one, two, three and so on. |
| Oplog.ReissuedEntryIsDropped | crates/oplog/src/file.rs:231-291 | The shortest run in which a number is issued twice and its second entry dropped. |
| LogFile.ReadFrame | crates/oplog/src/file.rs:62-77 | One length and one payload, or the end of what is whole. |
| LogFile.ReadLatestSeq | crates/oplog/src/file.rs:57-79 | The number of the last entry, or the failure of a payload that cannot be decoded. |
| LogFile.FileOplog.Open | crates/oplog/src/file.rs:35-55 | Opening rebuilds the counter from the file. |
| LogFile.FileOplog.Append | crates/oplog/src/file.rs:137-169 | Counter, bytes and answer of an append. |
| LogFile.FileOplog.ReadSince | crates/oplog/src/file.rs:170-204 | The first entries from a number on; a limit of zero still gives one. |
| LogFile.FileOplog.MarkApplied | crates/oplog/src/file.rs:206-215 | Adds the number to the applied ones and changes nothing else. |
| LogFile.FileOplog.Compact | crates/oplog/src/file.rs:231-291 | The new file and the number of frames kept. |
| SyncQueue.WriteReadAll | crates/sync/src/queue.rs:51-105 | Writing all entries in any order and reading them gives the map back. |
| SyncQueue.LoadedIsLast | crates/sync/src/queue.rs:51-85 | Of several frames with one number the last counts, and what does not decode counts for nothing. |
| SyncQueue.NeverTakenTwice | crates/sync/src/queue.rs:109-190 | Over every run with reopens, entries stay under their numbers and none is handed out twice. |
| SyncQueue.PendingIsLeftForGood | crates/sync/src/queue.rs:149-190 | No operation makes an entry pending again, so a failed one is not retried. |
| SyncQueue.EntryAfter | crates/sync/src/queue.rs:109-190 | What each operation makes of one entry: its state, its retries and its error, and that an operation which does not name it leaves it alone. |
| SyncQueue.FileSyncQueue.Open | crates/sync/src/queue.rs:38-85 | Opening gives the map the file holds. |
| SyncQueue.FileSyncQueue.WriteAll | crates/sync/src/queue.rs:87-105 | The file then holds exactly the map. |
| SyncQueue.FileSyncQueue.Enqueue | crates/sync/src/queue.rs:109-124 | A new pending entry, or no change when the number is known. |
| SyncQueue.FileSyncQueue.PickPending | crates/sync/src/queue.rs:126-136 | At most the limit of pending entries, all of them when they fit. |
| SyncQueue.FileSyncQueue.NextBatch | crates/sync/src/queue.rs:126-147 | Hands out that batch and marks it in flight, in memory and file. |
| SyncQueue.FileSyncQueue.MarkInflight | crates/sync/src/queue.rs:149-161 | Known entries become in flight. |
| SyncQueue.FileSyncQueue.MarkAcked | crates/sync/src/queue.rs:163-175 | Known entries become acknowledged. |
| SyncQueue.FileSyncQueue.MarkFailed | crates/sync/src/queue.rs:177-190 | A known entry becomes failed, with one more retry and the error. |
| HubIndexes.RebuildReadsAll | crates/server/src/routes.rs:710-742 | Strictly increasing numbers make the one page a restart reads the whole log. |
| HubIndexes.CheckpointMeaning | crates/server/src/routes.rs:730-738 | The checkpoint of a scope is the greatest number of its non-audit entries, and exists exactly when it has one. |
| HubIndexes.WriteIdMeaning | crates/server/src/routes.rs:730-742 | A write is indexed exactly when the log holds it, under a number the log gave it. |
| HubShape.StepShape | crates/server/src/routes.rs:258-694 | Every attempt is at most a gate check, then a recorded decision, then at most one accepted mutation of its own scope; a rejection returns and accepts nothing. |
| HubIndexes.StepGrows | crates/server/src/routes.rs:258-694 | Every request only appends, keeps both indexes exact and the log free of duplicate writes, and lowers no checkpoint. |
| HubIndexes.RunKeepsIndexes | crates/server/src/routes.rs:239-256 | In every run both indexes equal what a restart rebuilds, writes keep their numbers and a duplicate-free log stays so. |
| HubIdempotence.PushOutcome | crates/server/src/routes.rs:317-400 | When a mutation is accepted, the number it gets, that a new one joins the log as it was brought and enters both indexes, and that a refusal writes nothing. |
| HubIdempotence.AppendOutcome | crates/server/src/routes.rs:1043-1077 | The append alone: unfit and foreign mutations are refused without effect, any other lands under its number. |
| HubIdempotence.AllAcceptedIff | crates/server/src/routes.rs:313-400 | A batch is accepted whole exactly when the gate is open and every mutation is acceptable. |
| HubIdempotence.AcceptedAreIndexed | crates/server/src/routes.rs:1058-1076 | The numbers answered for an accepted batch are those the index has. |
| HubIdempotence.KnownBatch | crates/server/src/routes.rs:1058-1063 | A batch of known writes is answered from the index and adds no entry but audit ones. |
| HubIdempotence.RepushIsIdempotent | crates/server/src/routes.rs:258-414 | An accepted batch pushed again after any run returns the same numbers and adds only audit entries. |
| HubIdempotence.RepeatedWriteIff | crates/server/src/routes.rs:239-243 | A new write pushed twice gets one number exactly when it is not aimed at the audit collection. |
| HubIdempotence.StepMovesOwnCheckpoint | crates/server/src/routes.rs:239-256 | Refusals and audit entries move no checkpoint, and no request moves that of another scope. |
| HubContainment.GateOpensIff | crates/server/src/routes.rs:112-128 | The gate of a scope opens exactly when it is not contained or half a second has passed since the last event; a closed one names its mode. |
| HubContainment.GateCounts | crates/server/src/routes.rs:769-774 | A gate check keeps the count of a scope within its half second and clears any other. |
| HubContainment.RecordedCounts | crates/server/src/routes.rs:776-796 | A decision is the scope's last event: a rejection counts one more, anything else clears the count. |
| HubContainment.RunKeepsConsistent | crates/server/src/routes.rs:769-796 | In every run the mode is normal below three rejections, throttled at three and four, rejecting from five. |
| HubContainment.ContainedAttempt | crates/server/src/routes.rs:317-328 | An attempt in a contained scope gets nothing in or out, counts as one more rejection and restarts the timer. |
| HubContainment.AttemptElsewhere | crates/server/src/routes.rs:112-140 | An attempt does nothing to the containment or the writes of another scope. |
| HubContainment.ContainmentHolds | crates/server/src/routes.rs:112-140 | While no gate check of a contained scope comes after the cooldown, no run appends to it or reads from it, and its count grows by one for each attempt. |
| HubContainment.HalfSecondHolds | crates/server/src/routes.rs:769-796 | On a clock that never goes back, nothing is appended to a contained scope before half a second after its last event, and every attempt moves that event on. |
| HubPull.PullReturns | crates/server/src/routes.rs:449-520 | For every hook a pull returns, in log order, exactly the entries of the page in scope, visible, patched and no audit evidence whose identity the hook handed back. |
| HubPull.PullIsSubsequence | crates/server/src/routes.rs:498-520 | So no hook adds, repeats, reorders or alters an entry, beyond the marks of the semantic tier. |
| HubPull.CandidatesPresent | crates/server/src/routes.rs:464-467 | The hook is shown every patch-bearing entry in view, in log order, each with all of its patch and the two identity fields. |
| HubPull.HandedIs | crates/server/src/routes.rs:468-477 | Of what the hook answers the first thousand count. |
| HubPull.IdentityIs | crates/server/src/routes.rs:1086-1090 | A candidate counts for the entry whose number and write id its two fields still hold. |
| HubPull.SelectedIsFilter | crates/server/src/routes.rs:506-520 | Distinct numbers make the counting selection a filter. |
| HubPull.CountsMeaning | crates/server/src/routes.rs:498-504 | An identity is counted exactly when a candidate carries it. |
| HubPull.SignedRoundTrip | crates/server/src/routes.rs:1079-1090 | The identity number survives the cast to a signed number and back exactly when it fits 64 bits. |
| HubPull.PassThroughReturnsPage | crates/server/src/routes.rs:449-528 | With policies that pass everything a pull returns all entries in view among the first thousand past the checkpoint; deletes, which have no patch, never. |
| HubPull.NothingMissedIff | crates/server/src/routes.rs:449-452 | Such a pull misses nothing exactly when nothing on offer lies beyond those thousand. |
| HubPull.BeyondIsLost | crates/server/src/routes.rs:449-528 | A write beyond the page is never read by a pull from the checkpoint answered, at any later time. |
| HubPull.OneTooMany | crates/server/src/routes.rs:449-528 | A thousand writes of other scopes hide the first write of this one for good. |
| HubPull.QuietIff | crates/server/src/routes.rs:454-462 | A pull from the scope's own checkpoint is empty exactly when no mistyped audit entry is on offer. |
| HubPull.QuietForEveryHook | crates/server/src/routes.rs:454-462 | With a well-typed audit collection it is empty for every hook. |
| HubPull.PullDrains | crates/server/src/routes.rs:521-528 | A client that returns with the checkpoint it got finds nothing until a write of its scope is appended, whatever else happened. |
| HubPull.RunKeepsTyped | crates/server/src/routes.rs:142-209 | Runs in which no client writes to the audit collection keep it well typed. |
| HubConcurrency.CheckpointsSurviveInterleaving | crates/server/src/routes.rs:239-256 | In every interleaving of any number of handlers no checkpoint falls or passes the latest number, and it is exact if and only if no pending index step of the scope holds a greater one. |
| HubConcurrency.QuietCheckpoints | crates/server/src/routes.rs:239-256 | With no index step pending the checkpoint index is the rebuilt one. |
| HubConcurrency.WriteIdsSurviveExclusion | crates/server/src/routes.rs:1058-1076 | If no two handlers were ever past the lookup of one write, no write is logged twice and the write id index ends as the rebuilt one. |
| HubConcurrency.RaceDiverges | crates/server/src/routes.rs:1058-1076 | From every sound state in which one handler is about to append a write that another is past the lookup of, at whatever stage, a schedule of the two logs the write twice and ends with a lower number than a restart rebuilds. |
| HubConcurrency.BreakerIsAppending | crates/server/src/routes.rs:1058-1063 | The step that first puts two handlers past the lookup of one write is a lookup, and leaves its handler about to append. |
| HubConcurrency.WriteIdsExactIff | crates/server/src/routes.rs:1058-1076 | However a run is cut short and its handlers past the lookup finish, no write is logged twice and the index is the rebuilt one, if and only if no two handlers were ever past the lookup of the same write. |
| HubConcurrency.UninterruptedIsSerial | crates/server/src/routes.rs:1043-1077 | A handler that is not interrupted does what the serial hub does in one step. |
| HubConcurrency.EvidenceIsSerial | crates/server/src/routes.rs:142-209 | Nor does the append of evidence differ. |
| HubConcurrency.SerialIsSound | crates/server/src/routes.rs:57-73 | A hub that ran serially or just restarted satisfies what the interleavings keep. |
| HubServer.BuildScopedIndexes | crates/server/src/routes.rs:710-742 | The loop computes what the index theorems call rebuilt. |
| HubServer.CountIdentities | crates/server/src/routes.rs:498-504 | The counting loop. |
| HubServer.SelectMutations | crates/server/src/routes.rs:506-520 | The loop that uses the counts up. |
| HubRequests.PushRefused | crates/server/src/routes.rs:258-312 | A push under another node or tenant accepts nothing, moves no index and no checkpoint, counts one on the right counter, and is answered and evidenced with that one reason; the node is looked at first. |
| HubRequests.PushAnswered | crates/server/src/routes.rs:313-414 | Any other push: one decision per mutation, by the gate it meets, its metadata, its scope and the write policy; the numbers are those under which the log holds the mutations not rejected; exactly the new user writes among them joined the log; the checkpoint is the scope's greatest number; strangers are counted. |
| HubRequests.PullRefused | crates/server/src/routes.rs:422-447 | A pull under another tenant or node reads nothing; the tenant is looked at first, and only it is counted. |
| HubRequests.PullAnswered | crates/server/src/routes.rs:449-529 | Any other pull: its decision, and unless it is a rejection what is due among the thousand entries past the checkpoint, in log order, unaltered but for the two marks of the semantic tier; nothing is written. |
| HubRequests.PromoteRefused | crates/server/src/routes.rs:536-579 | A promotion under another node or tenant promotes nothing and is answered as one rejection. |
| HubRequests.PromoteAnswered | crates/server/src/routes.rs:581-694 | Any other promotion is accepted exactly when its metadata is valid, its scope its own, its way from episodic to semantic, the gate open and the policy's verdict to allow it; it then lands like a pushed write and is answered with its number, and otherwise as one rejection. |
| HubRequests.StepEvidence | crates/server/src/routes.rs:142-209 | Every attempt leaves one audit entry that tells of its decision, before any write it brings, and is its scope's last event. |
| HubServer.ServerState.constructor | crates/server/src/routes.rs:57-73 | A server over an ordered log starts with exact indexes and nothing contained. |
| HubServer.ServerState.ContainmentGate | crates/server/src/routes.rs:112-128 | The new containment state and the decision of a gate check. |
| HubServer.ServerState.RegisterDecisionOutcome | crates/server/src/routes.rs:130-140 | The containment state after a decision. |
| HubServer.ServerState.PersistAuditEvidence | crates/server/src/routes.rs:142-209 | The audit entry appended, or only the counter moved when its metadata is refused. |
| HubServer.ServerState.IndexMutation | crates/server/src/routes.rs:239-256 | Both indexes after a mutation; none for the audit collection. |
| HubServer.ServerState.AppendMutation | crates/server/src/routes.rs:1043-1077 | Refused, answered from the index, or appended and indexed. |
| HubServer.ServerState.ProcessPush | crates/server/src/routes.rs:258-414 | State and response of a whole push, mismatches included. |
| HubServer.ServerState.ProcessPull | crates/server/src/routes.rs:416-529 | State and response of a pull. |
| HubServer.ServerState.ProcessPromote | crates/server/src/routes.rs:531-694 | State and response of a promotion. |
| RateLimiting.TwiceTheBurst | crates/server/src/lib.rs:31-47 | For every forward run of clock readings, any half-open second sees at most twice the burst accepted. |
| RateLimiting.RefusedMeansFull | crates/server/src/lib.rs:31-47 | A request is refused only when a whole burst was accepted within the second up to it. |
| RateLimiting.BoundIsMet | crates/server/src/lib.rs:31-47 | A run that reaches that bound. |
| RateLimiting.WindowsAreApart | crates/server/src/lib.rs:36-39 | Window starts are at least a second apart. |
| RateLimiting.OneWindow | crates/server/src/lib.rs:41-46 | A second that contains the start of a window sees at most one burst from there on. |
| RateLimiting.RateLimiter.Check | crates/server/src/lib.rs:31-47 | The pair of window start and count after a request, and its answer. |
| Storage.KeysInjectiveIff | crates/storage/src/redb.rs:37-48 | Different documents have different keys exactly when no collection name is another's followed by a zero byte and more. |
| Storage.ZeroFreeIsSeparate | crates/storage/src/redb.rs:37-48 | Names without a zero byte satisfy that. |
| Storage.FlatRefinesNestedIff | crates/storage/src/redb.rs:56-127 | Every run of puts, gets and deletes is answered by the flat table as by the nested maps exactly when the names satisfy it. |
| Storage.RunsAgree | crates/storage/src/memory.rs:36-100 | The agreement of states and answers over runs. |
| Storage.NestedAnswers | crates/storage/src/memory.rs:36-100 | Every get is answered with what was last put there and not deleted since, every delete with whether there was such a document. |
| Storage.FlatAnswers | crates/storage/src/redb.rs:56-127 | So is every run on the flat table when the names satisfy it. |
| Storage.ByteOrder | crates/storage/src/redb.rs:129-151 | Keys are listed in byte order: a proper prefix first, otherwise by the first byte that differs. |
| Storage.RangeIs | crates/storage/src/redb.rs:171-185 | A range runs from its start on and ends before its end, in that order; a missing bound does not bound. |
| Storage.Overwritten | crates/storage/src/redb.rs:37-42 | The run that tells the two stores apart. |
| Storage.ScansAgree | crates/storage/src/redb.rs:129-151 | A scan yields the documents of that collection and no other, each as often as the nested store does, also when nothing was ever put there. |
| Storage.SuffixOrder | crates/storage/src/redb.rs:153-194 | Within a collection, key order is the order of what follows the prefix. |
| Storage.RedbStorage.Get | crates/storage/src/redb.rs:56-77 | The document under the key. |
| Storage.RedbStorage.Put | crates/storage/src/redb.rs:79-106 | The table with the key set. |
| Storage.RedbStorage.Delete | crates/storage/src/redb.rs:108-127 | The table without the key, and whether it was there. |
| Storage.RedbStorage.Scan | crates/storage/src/redb.rs:129-151 | The documents below the prefix in key order. |
| Storage.RedbStorage.Range | crates/storage/src/redb.rs:153-194 | Exactly the suffixes from start up to but not including end, ascending, with their documents. |
| Storage.MemoryStorage.Get | crates/storage/src/memory.rs:36-62 | The document under the key of its collection's map. |
| Storage.MemoryStorage.Put | crates/storage/src/memory.rs:64-84 | The collection's map with the key set. |
| Storage.MemoryStorage.Delete | crates/storage/src/memory.rs:86-100 | The collection's map without the key, and whether it was there. |
| Storage.MemoryStorage.Scan | crates/storage/src/memory.rs:102-118 | Every document of the collection once, in some order. |
| Migration.JsonRoundTripIff | crates/sdk-rust/src/migrate.rs:182-265 | Importing a JSON value and exporting it gives it back exactly when it has no marker object and no unsigned number above the signed range, at any depth. |
| Migration.BsonRoundTripIff | crates/sdk-rust/src/migrate.rs:276-328 | Exporting a stored value and importing it gives it back exactly when it has only kinds JSON has, no 64-bit integer of 32-bit size and no document that looks like a marker. |
| Migration.MarkersAreScalars | crates/sdk-rust/src/migrate.rs:204-255 | Which objects are read as scalars, and that none of them is exported as an object. |
| Migration.MarkersConvert | crates/sdk-rust/src/migrate.rs:204-246 | What each of the five is read as, or that its text is an error. |
| Migration.DoubleConverts | crates/sdk-rust/src/migrate.rs:237-246 | A double's marker also takes a number as it is and reads anything else as zero. |
| Migration.ScalarsConvert | crates/sdk-rust/src/migrate.rs:182-198 | Each scalar becomes the scalar of its kind, whole numbers the smallest that holds them; and what is exported of each. |
| Migration.ArrayConverts | crates/sdk-rust/src/migrate.rs:199-202 | Arrays are converted item by item, in order; one failure fails them all. |
| Migration.ObjectConverts | crates/sdk-rust/src/migrate.rs:258-263 | Objects that are no markers are converted member by member. |

## Left out

- Cursors.FindSorted: when a NaN in the field meets two different numbers it promises some order only, because the library sort's result is unspecified for an inconsistent comparison.
- Storage.MemoryStorage.Scan: gives some order of the documents, because the hash map's order is unspecified; `range` of this store always answers with nothing and is not modelled.
- SyncQueue.FileSyncQueue.WriteAll: the order of frames is any order, for the same reason.
- HTTP handlers, headers, tokens, metrics and the readiness routes: plumbing.
- `handle_retrieval_read`: it records outcomes without consulting the gate, so the containment theorems do not speak of it.
- The control plane behind the hub: write, read, context and promotion policies are arbitrary functions of the request; the text of an invalid-metadata reason is shortened to its prefix, and the internal error answers of a policy that fails are not modelled.
- Audit entries take one reading of the wall clock where the code takes several.
- Encryption and BSON encoding: a codec is a pair of functions; what becomes of an entry whose encoding is too long for a frame is not modelled beyond its truncated length; documents in the storage are kept as values.
- Input and output errors, transactions of the key-value store, and the bytes of the applied-numbers file.
- Overflow of 64-bit sequence numbers and 32-bit counters, wrap-around of the 16-bit revision counter and of `$inc`, and rounding, infinities and negative zero of doubles.
- The order of fields in a document, and the metadata fields `id`, `rev`, `verified` and `expires_at`, which no modelled branch reads.
- Documents are stored under their id's value; two ids with the same printed text are told apart, which the key encoding of the storage does not do.
- `list_conflicts`, the semantic projection calls, `IndexManager`, `DegradingStorage`, candidate ranking and retrieval adapters: short branch chains.
- `rango_query::matches`: a filter is any function that accepts, refuses or errs.
- `SyncScheduler`: it reads an unordered batch as contiguous numbers and acknowledges local entries with server numbers, so no end-to-end claim rests on it.
- BSON kinds without a JSON form (binary, timestamps, regular expressions and others) are one kind with a printed text; the export of `Undefined` and `DbPointer` as null and of timestamps as a number is not told apart from it.
- `import_json` and `export_json`, which loop over lines of a file, and the Python and Node bindings.
