# KiDB: a verified model of its index protocols

KiDB is a SQL query layer over Redis Cluster. Rows are hashes, and secondary indexes are
sorted sets ("buckets") that live in other slots, so no transaction spans a row and its index
members. This project models how the two are kept in step, and proves what that rests on:

- the routing document of an index, and how writers and readers holding different versions of
  it still meet (`BucketMap`);
- the two-stage write: index commands derived from the old and new row, with version-stamped
  members (`WritePath`), and the online split and merge of equality buckets as a state machine
  in which writers, a controller that may crash and restart, stale routing snapshots, expiry,
  lost commands and the sweeper interleave one Redis command at a time (`EqProtocol`,
  `EqSafety`, `EqWriterSteps`, `EqControlSteps`, `EqTheorems`, `EqLateWrite`, `EqRefusal`,
  `EqRegistry`);
- the same race of writers for all synchronous indexes of a table at once, equality, unique and
  range ones and their prefix copies, while buckets stay where they are (`WriteRace`,
  `WriteRefusal`);
- the controller's own loops over buckets, as classes that work on a store: `Buckets`, `Splitter`
  (equality), `PrefixSplit` (its effect on prefix copies) and `RangeShape`, `RangeSafety`,
  `RangeMerge`, `RangeWrites`, `RangeSplitter` (score ranges);
- leader election by a timed lock (`Elector`);
- the read side: predicates, pipelined row fetch, paged scatter, the equality lookup over the
  state machine's buckets, the lazily refilled merge and its heap, and filtering in the store
  (`Predicates`, `RowFetch`, `Scatter`, `EqLookup`, `PriorityQueue`, `OrderedMerge`,
  `Pushdown`);
- the asynchronous index log (`Text`, `AsyncIndex`), receipts, sweeping, the room in the logs and
  the drop job (`TableShape`, `LogRoom`, `TableStore`), the catalog cache (`CatalogCache`);
- the codecs all of it rests on (`MemberCodec`, `Fingerprint`, `KeyCodec`).

A Lua script is one atomic step; commands of a pipeline are single steps. Hashing, value
escaping, number parsing and formatting, CRC16 and digests enter as function parameters, so
the results hold whatever they compute, as far as a stated hypothesis does not say otherwise.

Methods that change state are proved against functions of the old state, and what the system
promises is proved about those functions. Some promises hold only under a condition; the
condition is then proved to be exact, and a concrete history shows the failure:

- no row is lost by a split or merge if and only if the grace period outlasts the attempts routed
  by an old document, the caches that may still serve one, and the insertions in flight; each of
  the three left out loses a row (`EqLateWrite.SafeIffGraceful`);
- no row is lost in any run if and only if, besides, the table has no asynchronous index
  (`EqRefusal.SafeIff`): a deletion that is refused because a log is full is taken for a success
  when the row is at version 1, and the removals of a living row's members are sent. One refusal
  is harmless if and only if the row is at another version or has no value for the index
  (`EqRefusal.RefusalIsHarmlessIff`); over all synchronous indexes of a table the conditions are
  those of `WriteRefusal.RefusalIsHarmlessIff` and `WriteRefusal.SafeIff`;
- the drop job leaves no row if and only if every log has room for the deletion of all rows that
  are entered in it, which is when no deletion is refused; a row refused at version 1 is left
  alive and unregistered, one refused at another version keeps the job from ever ending
  (`TableStore.Table.RunDrop`);
- a split keeps prefix copies in sight if and only if it is of another value than "l", or every
  copy has a duplicate in a new bucket (`PrefixSplit.SplitKeepsCopiesIff`);
- a lookup finds all that the routing document places if and only if one listed value is
  registered or the document sends every listed value to bucket 0
  (`EqLookup.FindsAllIffComplete`), in any reachable state if and only if one listed value is
  registered or none has an entry in the document (`EqRegistry.QuietIff`). A run that has come to
  rest meets that condition when no crash falls between the last CAS of a split and its
  registration (`EqRegistry.AtRestMeansQuiet`); a crash just there leaves a row that lookups miss
  although nothing is in flight (`EqRegistry.CrashBeforeRegistrationHides`);
- at most one role runs if and only if grants are heard of within a third of the time to live
  and no release is late, or no grant is ever heard of (`Elector.OneRoleIffTimely`);
- starting or resuming a merge of two range buckets keeps the partition and every living member
  readable if and only if the right bucket is idle or empty of scores (to start), or the bucket
  under way spans the two (to resume) (`RangeMerge.MergeIsSafeIff`);
- no cached definition is served longer than a lease after it was replaced if and only if no
  save without its INCR replaces a definition that the cache holds and trusts
  (`CatalogCache.SteadfastIff`);
- a sweep leaves nothing due if and only if the tick's share suffices and no due key is alive
  (`TableStore.Table.ExpireAndSweep`);
- a write with score +inf is found by a point read if and only if the first bucket reaches
  +inf (`BucketMap.RangeWriteAtInfinity`);
- a receipt with covering members is exact if and only if no covered column has changed
  (`TableShape.CoveringReceiptDrifts`);
- a deletion is reported truthfully if and only if the log was not full or the row was not at
  version 1 (`AsyncIndex.AsyncTable.Delete`);
- two values share a key form if and only if one goes by its digest and the other spells that
  digest out (`KeyCodec.SharedFormIff`, `KeyCodec.SpelledOutDigest`);
- a log entry is read back if and only if the key has no separator in it
  (`AsyncIndex.EntryRoundTrip`).

## Hypotheses

- One life per primary key on the concurrent write path: deletion and expiry are final there,
  because DEL drops `_ver` and a later insert reuses stamp 1, so that a removal left over from
  the first life names the second one's member (`WriteRace.SecondLifeReusesStamps`). The serial
  `TableStore` and `AsyncIndex` models do allow keys to come back.
- An insertion of the second stage that the row calls for and that never takes effect leaves the
  row "torn" until its column changes again (in `WriteRace`, from then on); torn rows are outside
  the guarantee, since a retry sees the value unchanged and sends nothing
  (`WriteRace.RetrySendsNothing`).
- The indexes of the concurrent theorems are without covering columns and exist from the
  first insert, and no value parses to +inf.
- One controller. Its CAS calls therefore never fail, and the `Store`-level classes model the
  check and ignore the result; a crash anywhere and a restart are modelled in `EqProtocol`.
- The drain hypothesis (`EqProtocol.Graceful`): when the last migration pass starts, every
  attempt already routed, every document that a cache may still serve and every insertion in
  flight aims at a target bucket too. The code checks the deadline after a pass.
- Within a migration batch each ZADD runs before its ZREM. All other commands in flight land
  in any order.
- Scores are totally ordered with both infinities, and bounds are stored without loss.
- One consumer per log.

## Where documentation and code differ

The model follows the code.

- `docs/08-自治治理与热Key.md:42` and `:54` let readers visit only the parent while splitting
  and only the children while draining; `bucketmap/bucketmap.go:258-277` reads both sides in
  every intermediate state.
- `exec/topk.go:15-22` announces one global order for all ways; the code keeps popping after a
  way has run dry, so only one way, or a batch of one, gives it (`OrderedMerge.OutOfOrder`).
- `sweeper/sweeper.go:81-83` says that the forced sweep skips the liveness check; it runs the
  same script as the other one, which checks.
- `txguard/txguard.go:371` takes the second element of a `log_full` reply, which by
  `script/lua/write_row.lua:30` is the row's version, for the number of deleted rows.
- `exec/prefix.go:178-181` has it that the controller never splits prefix copies; a split of the
  value "l" stores the very entry that routes them (`PrefixSplit.SplitOfL`).

## Model

| member | source | states |
|---|---|---|
| BucketMap.WriteWithinRead | bucketmap/bucketmap.go:236-277 | under one document every equality write target is among the read buckets, in every state of an entry |
| BucketMap.StaleWriterIsRead | bucketmap/bucketmap.go:236-277 | a writer one protocol step behind the reader aims only at buckets that are read, unless that step was the last |
| BucketMap.TwiceStaleWriterIsRead | bucketmap/bucketmap.go:236-277 | the same for a writer two steps behind, up to the draining state |
| BucketMap.StaleReaderSeesTarget | bucketmap/bucketmap.go:236-277 | a reader one step behind still visits one of the buckets that a writer aims at |
| BucketMap.TargetsMoveOn | bucketmap/bucketmap.go:236-277 | from the start of a split or merge the key's old bucket is still written beside one new one; from the draining state on that new one alone, and after the last CAS too |
| BucketMap.EqSubIs | keycodec/keycodec.go:70-80 | the bucket is the remainder of the hash by the number of buckets |
| BucketMap.BeginEntry | controller/split.go:60-86 | the first CAS keeps the entry well formed, only adds buckets to the read set, and settles on fresh numbers |
| BucketMap.DrainEntry | controller/split.go:98-106 | the second CAS leaves read set, settled buckets and old buckets as they were |
| BucketMap.FinishEntry | controller/split.go:125-128 | the last CAS leaves a well-formed entry of the settled buckets |
| BucketMap.ChainFinds | bucketmap/bucketmap.go:280-305 | in a partition of the score line each score below the end lies in exactly one interval, and the search returns it |
| BucketMap.RangeWriteWithinRead | bucketmap/bucketmap.go:280-348 | for every score below +inf each range write target is read by every query whose interval holds the score |
| RangeWrites.TargetsAre | bucketmap/bucketmap.go:280-305 | a write goes to exactly the bucket around its score, unless that is being drained, and the child around its score, for every stored list and every score below +inf |
| RangeWrites.InsertsAround | txguard/txguard.go:642-650 | the insertions of a row's range index are exactly the stamped member with the number as its score at those buckets |
| RangeWrites.WriteKeepsSound | bucketmap/bucketmap.go:280-305 | adding a new member with its score to all targets keeps the stored state sound |
| RangeWrites.WriteIsRead | bucketmap/bucketmap.go:280-348 | what has arrived at the targets is found by a read at its score |
| RangeWrites.WriteOutlivesState | controller/split.go:248-280 | and still is when a split or merge starts or goes to its draining state after the write was routed |
| RangeWrites.WriteOutlivesSplit | controller/split.go:295-306 | and when the children have taken the place of the bucket, migrated or not |
| RangeWrites.WriteOutlivesMerge | controller/split.go:577-589 | and when the merged bucket has taken the place of the two halves |
| BucketMap.RangeWriteAtInfinity | bucketmap/bucketmap.go:280-348 | at +inf the write falls back to the first bucket, which a point query reads iff that bucket reaches +inf |
| WritePath.BuildIndexOps | txguard/txguard.go:602-739 | the two passes over the indexes give the removals, insertions, receipt, log entries and stamps of the specification, index by index, and every insertion has the score of the new value |
| WritePath.ExpandIndex | txguard/txguard.go:606-693 | one index's commands for every kind, with change test, routing sets, stamps and prefix copies |
| WritePath.ReceiptIndex | txguard/txguard.go:699-737 | one index's receipt entries name the current member over the whole read set |
| WritePath.RedosAreScored | txguard/txguard.go:629-693 | an insertion into a range bucket carries the number that the new column value parses to, any other one the score 0 |
| WritePath.EqInsertions | txguard/txguard.go:662-690 | an equality index gets exactly the stamped member in the value's write targets and, with prefix copies, the copy in those of the entry "l" |
| WritePath.UnstampedUndo | txguard/txguard.go:589-594 | removals of a row without a stamp name its version |
| WritePath.StampHas | txguard/txguard.go:605-671 | an index gets a new stamp iff its column changed to an indexable value, and that stamp is the new version |
| WritePath.WriteKeepsStamps | txguard/txguard.go:589-594 | after a write every synchronous index with a value has a stamp no later than the row's version |
| WritePath.UndosPrecedeRedos | txguard/txguard.go:602-693 | removals name only members stamped at or before the observed version, insertions only members stamped with the new one |
| WritePath.UndoHas | txguard/txguard.go:629-691 | a removal is sent iff some index of the table calls for it |
| WritePath.RedoHas | txguard/txguard.go:629-691 | an insertion is sent iff some index of the table calls for it |
| EqTheorems.RunKeepsInv | controller/split.go:51-219 | every state of every run of writers, refused deletions, controller steps, crashes and restarts satisfies the invariant |
| EqTheorems.NothingIsLost | controller/split.go:51-219 | in every reachable state each living row's current member is in, or on its way to, a bucket that readers of the stored document visit, and no removal in flight names it, unless a refused deletion has cut the row off |
| EqTheorems.QuietMeansPlaced | txguard/txguard.go:275-298 | with nothing in flight the current member of a row that is not cut off is in a bucket that is read |
| EqTheorems.RunIsOrderly | script/lua/bucket_state_cas.lua:14-21 | the stored documents form a chain of single protocol steps per entry, with version plus one each time and an allocator that never goes back |
| EqTheorems.EntriesMoveInOrder | controller/split.go:394-476 | between two stored documents an entry moves by at most one step of the split or merge protocol, the version counts documents, and numbers stay below `next` |
| EqTheorems.NumbersNeverReused | controller/split.go:54-134 | a bucket number that an entry has stopped mentioning never comes back to it |
| EqTheorems.ReserveCounts | controller/split.go:66-71 | the reservation of a split takes twice as many numbers as the value has buckets, that of a merge half as many |
| EqTheorems.EntriesDoubleOrHalve | controller/split.go:60-134 | in the stored documents of every run n buckets of a value become 2n by a split and n/2, rounded down, by a merge |
| EqTheorems.HomeIsAimed | controller/split.go:192-219 | members move to a bucket that writers aim at for the same key, and to the only one from the draining state on |
| EqTheorems.HomeIsKept | controller/split.go:125-128 | which stays the only one when the entry is published |
| EqTheorems.OldMemberIsTaken | txguard/txguard.go:662-668 | a write that changes the value, or a deletion, sends a removal of the old member to every bucket that readers of the routing document visit |
| EqTheorems.MovedForGood | controller/split.go:167-188 | copying and removing a living member leaves it at its new place and not at its old one |
| EqTheorems.UnlinkedForGood | controller/split.go:116-120 | an unlinked bucket is empty and no other has changed |
| WriteRace.CurrentIsKept | txguard/txguard.go:124-321 | in every state of every run of concurrent writes each synchronous index has the row's current member, and its prefix copy, in a bucket that readers of the value visit or on its way there, and every removal in flight for that row and index names an older member; a row that a refused deletion cut off at version 1 is an exception where its column has not changed since |
| WriteRace.RunKeepsInv | txguard/txguard.go:275-298 | whatever order the index commands land in, no member that a living row calls for is lost |
| WriteRace.CommitKeeps | script/lua/write_row.lua:49-121 | the version check makes each commit build on the stored row, so its removals and those still in flight are older than the members of the new row |
| WriteRace.CalledBefore | txguard/txguard.go:602-693 | what a new row calls for was called for before or is inserted by the write |
| WriteRace.NewTakesAreOlder | txguard/txguard.go:629-662 | each removal of a write is older than the member that its index has for the row afterwards |
| WriteRace.NoTakeOfNeeded | txguard/txguard.go:276-282 | a removal in flight never names a member that a living row calls for and is not cut off from |
| WriteRace.RetrySendsNothing | txguard/txguard.go:602-670 | a commit over a row that has the new columns already sends no index command, so it brings back no member that was lost |
| WriteRace.SecondLifeReusesStamps | script/lua/write_row.lua:76-110 | when a key comes back with the same columns, every member that the new row calls for is named by a removal of the first life's deletion |
| WriteRefusal.RefusalIsHarmlessIff | txguard/txguard.go:352-384 | a deletion refused for log space keeps the invariant iff the row is not at version 1 or has no member in a synchronous index |
| WriteRefusal.CutByMisread | txguard/txguard.go:371-384 | a row is cut off only by a refused deletion of it at version 1 |
| WriteRefusal.CommitTakesOld | txguard/txguard.go:629-691 | a write sends a removal of whatever the row called for and no longer does |
| WriteRefusal.DeleteTakesAll | txguard/txguard.go:341-384 | a deletion that goes through sends a removal of everything the row called for |
| WriteRefusal.RefusalLoses | script/lua/write_row.lua:69-74 | with an asynchronous index beside one that can hold a value, one insertion and one refused deletion take a member from a living row |
| WriteRefusal.SafeIff | txguard/txguard.go:324-384 | no member of a living row goes missing in any run of writers iff the table has no asynchronous index or no synchronous one that can hold a value |
| EqRegistry.RunKeepsHot | controller/split.go:109-134 | while registrations are not lost, every entry at rest or under merge is registered or about to be |
| EqRegistry.AtRestMeansQuiet | exec/exec.go:738-746 | a run with nothing in flight and no protocol under way for the listed values meets all that a lookup needs to be exact |
| EqRegistry.QuietIff | exec/exec.go:738-746 | in a reachable state with nothing in flight and nothing lost a lookup's conditions are met iff one listed value is registered or none has an entry in the stored document |
| EqRegistry.CrashBeforeRegistrationHides | controller/split.go:126-132 | a crash between the last CAS and the registration leaves a row that lookups miss, with nothing in flight and no split to resume |
| EqLateWrite.SafeIffGraceful | controller/split.go:143-156 | no row that is not cut off is lost in any run iff the grace period outlasts all three of routed attempts, caches of old documents and insertions in flight |
| EqLateWrite.LateWriteIsLost | controller/split.go:143-156 | whichever of the three is not waited for, for any hash, escaping and batch size a whole split overtakes one slow insert and its row is unreachable with nothing in flight |
| EqRefusal.RefusalIsHarmlessIff | txguard/txguard.go:352-384 | a deletion refused for log space keeps the invariant iff the row is not at version 1 or has no value for the index |
| EqRefusal.CutByMisread | txguard/txguard.go:371-384 | a row is cut off only by a refused deletion of it at version 1 |
| EqRefusal.NoneCut | script/lua/write_row.lua:63-74 | without an asynchronous index no row is ever cut off |
| EqRefusal.UnlessMisread | txguard/txguard.go:371-384 | in any run a row whose deletion was never refused at version 1 is reachable |
| EqRefusal.MisreadMayLose | script/lua/write_row.lua:69-74 | from any state of any run in which a deletion routed by the stored document is refused at version 1, the commands in flight may land so that the row lives and is unreachable with nothing in flight |
| EqRefusal.RefusalLoses | script/lua/write_row.lua:69-74 | in every table with an asynchronous index one insertion and one refused deletion lose a row |
| EqRefusal.SafeIff | txguard/txguard.go:324-384 | no row is lost in any run iff the grace period outlasts all three and the table has no asynchronous index |
| Buckets.Store.ZRange | controller/split.go:192-219 | a page holds distinct members of the bucket with their scores, as many as asked or all there are |
| Buckets.Store.MigrateBatch | controller/split.go:167-188 | exactly the batch's members leave the source; living ones arrive at their target with their score, dead ones vanish, no other bucket changes |
| Buckets.Store.MoveOne | controller/split.go:167-188 | the same for one member |
| Buckets.Store.MoveBucket | controller/split.go:627-651 | the page loop ends for every batch size of at least one, moves the whole bucket and leaves it empty |
| Buckets.MovedTwice | controller/split.go:192-219 | two moves from one bucket compose into the move of their union |
| Splitter.GatheredConserves | controller/split.go:627-651 | after the passes each target bucket holds exactly its own members of before and the living source members routed to it, sources are empty, nothing else changed |
| Splitter.CompletedIsSound | controller/split.go:109-134 | a finished split or merge leaves a sound document: unallocated buckets empty and every member in the bucket its key hashes to |
| Splitter.EqSplitter.MigrateEqTo | controller/split.go:627-651 | one source bucket is emptied into the targets by hash of the key |
| Splitter.EqSplitter.MigrateEq | controller/split.go:192-219 | all source buckets are emptied into the targets |
| Splitter.EqSplitter.DrainGrace | controller/split.go:143-156 | any number of further passes changes nothing that one pass has not |
| Splitter.EqSplitter.UnlinkAll | controller/split.go:116-120 | exactly the source buckets become empty |
| Splitter.EqSplitter.CasNext | script/lua/bucket_state_cas.lua:14-21 | the allocator changes iff the version is the expected one, which then grows by one |
| Splitter.EqSplitter.CasEntry | script/lua/bucket_state_cas.lua:14-21 | the entry changes iff the version is the expected one, which then grows by one |
| Splitter.EqSplitter.Advance | controller/split.go:88-134 | from either intermediate state: the published entry, the emptied sources, the filled targets |
| Splitter.EqSplitter.SplitEq | controller/split.go:51-136 | succeeds iff no merge of the value is under way; then members are conserved, the document is sound and the value is registered; from rest n buckets become the 2n next numbers, and a split under way settles on its children; a refusal changes nothing |
| Splitter.EqSplitter.MergeEq | controller/split.go:392-479 | the same for a merge, which leaves a single bucket alone; from rest n buckets become the n/2 next numbers |
| PrefixSplit.SplitKeepsCopiesIff | txguard/txguard.go:673-690 | a split keeps every prefix copy in sight of scans iff it is of another value than "l" or every copy in sight is duplicated in a bucket that the split leaves |
| PrefixSplit.AtRestNoneIsDuplicated | exec/prefix.go:178-190 | from rest that means that no copy is in sight at all |
| PrefixSplit.SplitOfL | controller/split.go:51-136 | the first split of the value "l" hides every copy of the index from prefix scans |
| RangeShape.ReplaceKeepsPartition | controller/split.go:295-303 | covering one interval by other buckets keeps the partition of the score line |
| RangeShape.RightIs | controller/split.go:498-507 | the bucket that starts where another ends is its neighbour, or an earlier one when all between are empty |
| RangeShape.MergeKeepsPartition | controller/split.go:577-586 | the list after a merge is a partition iff the merged bucket spans the two it replaces |
| RangeShape.FreshKids | controller/split.go:248-264 | adding freshly numbered children keeps the stored list well formed |
| RangeShape.NewState | controller/split.go:271-279 | the draining state keeps the stored list well formed |
| RangeShape.SplitDone | controller/split.go:295-306 | the children of a finished split take its place: partition, distinct numbers and pairing are kept |
| RangeShape.MergeDone | controller/split.go:577-589 | the same for the bucket of a finished merge |
| RangeSafety.PassKeeps | controller/split.go:351-381 | a pass keeps every member inside its bucket's interval, empties its bucket, and each living member is found by a read at its score after it iff before |
| RangeSafety.FreshKidsSound | controller/split.go:248-264 | starting a split or merge leaves every living member in the buckets that a read at its score visits |
| RangeSafety.NewStateSound | controller/split.go:271-279 | so does the change to the draining state |
| RangeSafety.SplitDoneSound | controller/split.go:282-307 | so does replacing an emptied bucket by its children; each member is then in the bucket whose interval contains its score |
| RangeSafety.MergeDoneSound | controller/split.go:557-593 | so does replacing two emptied buckets by the merged one |
| RangeSafety.InSight | bucketmap/bucketmap.go:308-348 | under a sound document a member that any bucket of the list names is found by a read at its own score |
| RangeSafety.WiderReadsToo | bucketmap/bucketmap.go:308-348 | a read of an interval visits every bucket that a read at a score inside it visits |
| RangeMerge.MergeIsSafeIff | controller/split.go:510-594 | over every state of the two buckets that is not refused, starting or resuming a merge stores partitions only and keeps every living member readable at its score, for all contents, iff the right bucket is idle or empty of scores (start), or the bucket under way spans the two (resumption) |
| RangeMerge.GuardKeeps | controller/split.go:510-594 | with that guard each of the three lists that the call stores is a partition under which readers find the same living members |
| RangeMerge.EndIsPartition | controller/split.go:577-586 | taken up again, the call ends with a partition iff the bucket under way spans the two |
| RangeMerge.RightHalfBreaks | controller/split.go:489-594 | taken up again at the right half of a merge whose left half is not empty of scores, the call leaves no partition |
| RangeMerge.StartLoses | controller/split.go:510-532 | only the left bucket's state is looked at: started over a right one under split or merge that is not empty of scores, the call hides a member of its child |
| RangeMerge.ChildHidden | controller/split.go:510-532 | whichever child of the right bucket holds the member: a read at a score strictly inside visits that child no more |
| RangeMerge.MergeOverMergeLoses | controller/split.go:510-532 | the case of a right bucket that is the left half of an interrupted merge: the point read loses the member |
| RangeSplitter.RangeController.Sample | controller/split.go:316-348 | gives the score of some member, and nothing iff the bucket is empty |
| RangeSplitter.RangeController.CasNext | script/lua/bucket_state_cas.lua:14-21 | version CAS on the allocator |
| RangeSplitter.RangeController.CasRanges | script/lua/bucket_state_cas.lua:14-21 | version CAS on the range list |
| RangeSplitter.RangeController.FindRight | controller/split.go:498-507 | the first bucket that starts where the left one ends, or the news that there is none |
| RangeSplitter.RangeController.MigrateRange | controller/split.go:351-381 | a bucket under split is emptied into its children by score, all living members still readable at their score, other buckets untouched |
| RangeSplitter.RangeController.BeginSplit | controller/split.go:242-265 | the bucket is cut at the sampled score into two fresh children |
| RangeSplitter.RangeController.DrainSplit | controller/split.go:267-280 | one pass and the draining state, all living members still readable at their score |
| RangeSplitter.RangeController.FinishSplit | controller/split.go:282-308 | the emptied bucket is replaced by its children and the index is registered |
| RangeSplitter.RangeController.SplitRange | controller/split.go:222-311 | from any intermediate state: success leaves a partition, cut at the score of a member if it started at rest, the same living members at their score and an empty old bucket; each refusal has its exact cause and changes nothing |
| RangeSplitter.RangeController.BeginMerge | controller/split.go:510-532 | both buckets get the one fresh target that spans them, whatever state the right one is in; sound when that one is idle |
| RangeSplitter.RangeController.DrainMerge | controller/split.go:534-555 | both are emptied into the target, living members only, before the draining state is stored |
| RangeSplitter.RangeController.FinishMerge | controller/split.go:557-594 | the target replaces the two buckets, whose living members it then holds |
| RangeSplitter.RangeController.MergeRange | controller/split.go:482-597 | success gives the merged list and moves the living members of both buckets into the target; readers keep what they find under the guard of `RangeMerge.MergeIsSafeIff`, and a resumption ends with a partition iff the guard holds; each refusal has its exact cause and changes nothing |
| RangeSplitter.BeginMergeSound | controller/split.go:510-532 | with both buckets idle the start of a merge is sound |
| Elector.RunKeepsInv | controller/elector.go:103-222 | every state of every run keeps what the store guarantees to each node |
| Elector.LiveRoleHoldsLock | controller/elector.go:185-222 | a running role's token holds an unexpired lock, with more than two thirds of its time left at the last tick |
| Elector.OneRoleIffTimely | controller/elector.go:103-245 | with grants heard of within any bound `hear`, two roles never run at once iff `hear` is at most a third of the time to live and no release takes effect late, or no grant is ever heard of |
| Elector.LateReleaseRun | controller/elector.go:237-245 | a release that outlives its call deletes its own node's next lock, and a second role starts |
| Elector.SlowGrantRun | controller/elector.go:153-159 | with any bound above a third of the time to live, however little, a second role starts while the first still runs |
| Elector.LockEndsInTime | controller/elector.go:103-222 | in every state of every run the lock ends within one time to live from now |
| Elector.FreeAfterTTL | controller/elector.go:103-222 | so a lock that has not changed for one time to live is free, whoever crashed |
| Elector.HandOver | controller/elector.go:225-245 | a role that ends lets another idle node start its own at once |
| Predicates.MatchRow | exec/exec.go:76-116 | the loops over alternatives decide the predicate: a listed value, or a number or text in one of the intervals |
| Predicates.MatchDependsOnColumn | exec/exec.go:76-116 | the outcome depends on the predicate's own column alone |
| Predicates.MatchMeans | exec/exec.go:76-116 | a row passes iff it has one of the listed values, else a number within one of the intervals, else a text within one, else the prefix; without the column it meets no test |
| Predicates.BeforeIff | exec/exec.go:136-157 | text order is decided by the first different byte, and a proper prefix comes first |
| Predicates.TextInterval | exec/exec.go:136-157 | a text lies in an interval iff it is between the bounds or on one that is not open |
| Predicates.TextBounds | exec/exec.go:136-157 | an open end never contains its bound, a closed one does if the other end allows it |
| Predicates.NumberInterval | exec/exec.go:118-135 | the same for numbers |
| RowFetch.FetchColumns | exec/exec.go:802-842 | the columns asked for suffice for check and decoding, contain nothing else but the version, and are none iff only existence matters |
| RowFetch.HMGetMap | exec/exec.go:1046-1059 | the reply becomes a field map, and is a dead row iff the version is missing |
| RowFetch.GoodEnoughDecodes | rowcodec/rowcodec.go:179-223 | a partial row passes the check iff the whole one does, and decodes to the same record |
| RowFetch.DecodedFits | rowcodec/rowcodec.go:179-223 | a record has the decoded stored text of each requested column, the decoded key in the key's column, the remaining seconds rounded up if asked for, and NULL for what is missing or no column |
| RowFetch.PlainlyFits | exec/exec.go:1027-1039 | the plain loop gives such a record for each key whose row lives and meets the predicate, in their order |
| RowFetch.HitIs | exec/exec.go:1027-1039 | the test looks at the stored fields |
| RowFetch.Commands | exec/exec.go:933-958 | one or two commands per key, in the order in which the replies are read |
| RowFetch.ReadReply | exec/exec.go:988-1023 | a reply is understood as the row it came from, living or dead, in each of the three forms |
| RowFetch.ReadReplies | exec/exec.go:963-1024 | replies are consumed in step with the commands for every mix of living and dead keys |
| RowFetch.FetchRows | exec/exec.go:905-1042 | for every batch size the records are those of the plain loop that reads, checks and decodes whole rows, one to each living row that meets the predicate |
| Scatter.BuildBuckets | exec/exec.go:707-747 | the scans are exactly the read buckets of the listed values, or bucket 0 alone when no listed value is registered |
| Scatter.VisitsFollowDocument | exec/exec.go:738-747 | every read bucket of the document is visited for every listed value iff one listed value is registered or the document sends them all to bucket 0 |
| Scatter.UnregisteredReadsDefault | exec/exec.go:738-747 | a value split but not yet registered is read from bucket 0 alone |
| RowFetch.HitsAre | exec/exec.go:1027-1039 | the plain loop's records are those of the keys that have a living, matching row |
| Scatter.RowStream.Round | exec/exec.go:639-683 | a round takes up exactly the page members not seen before, skips none, and makes progress |
| Scatter.RowStream.FillScatter | exec/exec.go:614-703 | ends only when every scan is exhausted |
| Scatter.RowStream.Next | exec/exec.go:510-539 | hands out one more record, or reports the end when nothing is left to read |
| Scatter.RowStream.Drain | exec/exec.go:510-703 | the stream gives every living matching row named by a visited bucket once, and nothing else, each with the cells of its stored row |
| EqLookup.MatchIsNamed | exec/exec.go:707-747 | in a quiet state of the protocol a row with a listed value is named by a bucket that the lookup visits |
| EqLookup.FindsAllIffComplete | exec/exec.go:738-746 | whatever rows and buckets the document allows, the visited buckets name every row with a listed value iff one listed value is registered or the document sends them all to bucket 0 |
| EqLookup.Lookup | exec/exec.go:614-747 | after any run that has come to rest with no row cut off, an equality lookup returns each living row with a listed value exactly once and nothing else, each with the cells of its stored row, whatever stale members the buckets hold |
| Text.EscapeRoundTrip | txguard/txguard.go:784-788 | escaping is undone exactly, and leaves no byte that structures keys or entries |
| AsyncIndex.EntryRoundTrip | indexer/indexer.go:53-68 | an entry as the script writes it is read back iff the key has no separator in it |
| AsyncIndex.FoldForgets | indexer/indexer.go:107-115 | two stores that differ only where the commands write are alike after the commands |
| AsyncIndex.RerunIsHarmless | indexer/indexer.go:107-133 | having run any of the commands before, in any order and number, makes no difference to running them all |
| AsyncIndex.EntryShows | script/lua/write_row.lua:123-127 | the commands of a write's entry take the index from the row's old members to its new ones |
| AsyncIndex.TombstoneShows | script/lua/write_row.lua:76-86 | the commands of a deletion's entry remove the row's members |
| AsyncIndex.AsyncTable.Write | script/lua/write_row.lua:62-127 | a full log refuses before anything changes; otherwise row and log change together and consuming the log would still show exactly the rows |
| AsyncIndex.AsyncTable.Delete | txguard/txguard.go:324-400 | the row goes unless the log is full; the reported outcome is true iff it was not a refusal at version 1 |
| AsyncIndex.AsyncTable.Translate | indexer/indexer.go:48-106 | the batch's commands in order, and exactly the unreadable entries as dead letters |
| AsyncIndex.AsyncTable.ConsumeLog | indexer/indexer.go:37-133 | a batch, stopped after any command or run to its cut, keeps what the index is heading for; a batch that is cut leaves its unreadable entries among the dead letters, in order |
| AsyncIndex.AsyncTable.CatchUp | indexer/indexer.go:37-133 | after any number of interrupted attempts and then the rest, the index holds exactly the current member of each row, and every unreadable entry is among the dead letters |
| PriorityQueue.RootIsFirst | utils/pq.go:67-72 | nothing in a heap comes before its root |
| PriorityQueue.Queue.Up | utils/pq.go:35-37 | sifting up restores the heap and permutes the elements |
| PriorityQueue.Queue.Down | utils/pq.go:40-43 | sifting down restores the heap and permutes the elements in front of the bound |
| PriorityQueue.Queue.Push | utils/pq.go:35-37 | adds one element and keeps the heap |
| PriorityQueue.Queue.Pop | utils/pq.go:40-43 | removes one element that no other comes before, and keeps the heap |
| OrderedMerge.Merger.Seed | exec/topk.go:165-198 | each way's first member enters the heap |
| OrderedMerge.Merger.RefillWays | exec/topk.go:201-234 | each dry way gets a page or is at its end; no member is skipped or doubled |
| OrderedMerge.Merger.PopBatch | exec/topk.go:101-116 | pops until the batch is full or the heap is empty, and notes exactly the ways that ran dry |
| OrderedMerge.Merger.Step | exec/topk.go:91-149 | a step yields only what the heap held before it, makes progress, and is empty only at the end of every listing |
| OrderedMerge.Merger.Drain | exec/topk.go:69-149 | every entry of every listing once, in order within its way; in order overall with one way or batches of one |
| OrderedMerge.PopAhead | exec/topk.go:108-116 | while every unfinished way is represented the popped entry comes before everything unread |
| OrderedMerge.OutOfOrder | exec/topk.go:108-126 | for any two or more ways and batches of two or more there are listings whose stream is out of order, though complete |
| CatalogCache.CatalogStore.Set | meta/catalog.go:58-75 | a definition is stored iff the expected version is the stored one |
| CatalogCache.CatalogStore.Save | meta/catalog.go:58-82 | the same with the INCR of the schema version |
| CatalogCache.LeaseTracker.Checked | meta/lease.go:34-42 | reports a change iff the tracker was invalid or the version differs, and starts a new lease |
| CatalogCache.SameVersionSameMoment | meta/cache.go:82-100 | an unchanged schema version means that the catalog is the one last checked against |
| CatalogCache.Cache.CheckLease | meta/cache.go:82-100 | afterwards the lease is fresh, and the tables are kept iff they could be trusted |
| CatalogCache.Cache.Get | meta/cache.go:40-62 | the definition was the stored one at some moment later than now minus the lease duration, or is so now |
| CatalogCache.Cache.Invalidate | meta/cache.go:65-70 | forgets the tables and the lease |
| CatalogCache.Interleave | meta/cache.go:40-100 | over every interleaving of reads, saves with or without their INCR, drops, invalidations and waiting the answers are those of the specification; with every INCR made, and from a new cache or any consistent one, no answer is older than the lease |
| CatalogCache.CountedIsTimely | meta/cache.go:40-100 | with every INCR made no answer in an interleaving is older than the lease |
| CatalogCache.SteadfastIff | meta/catalog.go:58-82 | no answer is older than the lease, however any part of an interleaving goes on, iff no save without its INCR replaces a definition that the cache holds under a version it trusts |
| CatalogCache.MissedIncrement | meta/catalog.go:76-82 | a save whose INCR is lost is never noticed: for any number of lease periods the old definition is served |
| TableShape.UpdateIsExact | txguard/txguard.go:602-693 | an update takes the index from exactly the old row's members to exactly the new row's, each with the score of its value, and from some of them to some of the new row's |
| TableShape.InsertIsExact | txguard/txguard.go:802-818 | an insert over the members an old receipt lists leaves exactly the new row's, each with the score of its value |
| TableShape.DeleteIsExact | txguard/txguard.go:341-384 | a deletion leaves no member of the key, also where some were missing before |
| TableShape.ReceiptIsOfRow | txguard/txguard.go:695-737 | the receipt a write builds is that of the row it leaves, for unchanged columns too |
| TableShape.ReceiptCovers | txguard/txguard.go:695-737 | the receipt lists every member the row calls for, and no other key's |
| TableShape.CoveringReceiptDrifts | txguard/txguard.go:699-712 | with covering columns the receipt names the stored member iff no covered column has changed |
| LogRoom.PushedLen | script/lua/write_row.lua:123-127 | each asynchronous index concerned gets one entry in the slot's log, and no other log changes |
| LogRoom.RefusedIff | script/lua/write_row.lua:69-74 | a deletion is refused iff the row has a value for an asynchronous index whose log of the slot is full |
| LogRoom.DeletionKeepsLoads | script/lua/write_row.lua:76-86 | a deletion uses the room that its row has taken up: for each log, entries and rows that would be entered stay as many |
| LogRoom.FitsRefusesNone | script/lua/write_row.lua:69-74 | while every log has room for the deletion of all its rows, no deletion is refused |
| LogRoom.UnfitLeavesRows | script/lua/write_row.lua:69-74 | otherwise rows are left, whatever has been deleted |
| TableStore.Table.RunCommands | txguard/txguard.go:275-298 | every removal, then every insertion |
| TableStore.Table.WriteRow | txguard/txguard.go:124-321 | a write is refused, changing nothing, iff a log that it would be entered in is full; otherwise it leaves exactly the new row's members (where a refused deletion took some, no others), the exact receipt unless the row is to live forever, other keys as they were, the moment of expiry and the registry second that its time to live calls for, and one entry in each log concerned |
| TableStore.Table.WriteAndWait | script/lua/write_row.lua:148-161 | a row written with a time to live is there iff less than that has passed; one whose time is kept ends when it would have; one without never |
| TableStore.Table.Tick | script/lua/write_row.lua:148-161 | rows go when their time is up; index, receipts and registry stay |
| TableStore.Table.DeleteRow | txguard/txguard.go:324-400 | a living row goes with all its members, receipt and registry entry unless a log is full; then nothing changes, except at version 1, where the row lives on without members and registry entry and is reported as deleted; a dead key is left alone |
| TableStore.Table.SweepPks | sweeper/sweeper.go:92-188 | exactly the keys without a row lose receipt, members and registry entry |
| TableStore.Table.SweepBatch | sweeper/sweeper.go:62-79 | the same for a page of keys that are due |
| TableStore.Table.DueWhenOver | sweeper/sweeper.go:62-73 | a key is due iff the second that the registry has for it is over |
| TableStore.Table.SweepShard | sweeper/sweeper.go:46-59 | clears due keys without a row, and all that are due iff none is alive and the tick's share suffices; living rows are never touched |
| TableStore.Table.ExpireAndSweep | sweeper/sweeper.go:46-188 | expiry and one sweep leave nothing due iff no due key is alive and the tick's share suffices; then no member, receipt or registry entry is left of a lapsed row that was registered to the end |
| TableStore.Table.DropPage | controller/dropjob.go:84-104 | every key of a page leaves the registry, alive or dead, except those whose deletion is refused at another version than 1 |
| TableStore.Table.DropShard | controller/dropjob.go:74-108 | each unit of budget takes one key off the registry if none is refused for good, and budget left over means that only such keys are left in the shard |
| TableStore.Table.StepDrop | controller/dropjob.go:55-124 | a tick empties the registry or takes at least its budget off it, if none is refused for good; it is finished iff the registry is empty, and then only rows that a refused deletion left alive remain |
| TableStore.Table.RunDrop | controller/dropjob.go:55-124 | with no such row before and enough ticks, the number of keys divided by the budget, no row is left iff the logs have room for all deletions, which is iff none is refused; then too it finishes iff none is refused at another version than 1, and a row refused at the start at such a version keeps it from finishing in any number of ticks; without room rows are left alive in either case |
| TableStore.JobOutcome | controller/dropjob.go:55-124 | what the job leaves is decided by the room at its start: with room nothing is refused, without it rows are left |
| TableStore.DroppedMore | controller/dropjob.go:74-108 | what pages, shards and ticks keep composes: rows only go by deletions that are not refused, a refused row stays, and room is used up row by row |
| MemberCodec.PlainRoundTrip | rowcodec/rowcodec.go:232-359 | key and version are read back from a plain member iff the key is not empty, whatever bytes it has |
| MemberCodec.PlainMembersDiffer | rowcodec/rowcodec.go:232-234 | two keys or versions never share a member |
| MemberCodec.LexRoundTrip | exec/prefix.go:82-92 | value and key are read back from a prefix copy iff neither is empty and the value has no NUL |
| Fingerprint.SegmentsDiffer | exec/exec.go:500-505 | length-prefixed lists never run together |
| Fingerprint.SortedIsUnique | exec/exec.go:494-495 | sorting leaves one list per multiset |
| Fingerprint.SameFingerprintIff | exec/exec.go:493-507 | two queries share a fingerprint iff they ask the same table and index for the same multiset of values |
| KeyCodec.EscapedIsSafe | keycodec/keycodec.go:176-181 | an escaped value has no character that structures keys |
| KeyCodec.PlainIsReadBack | keycodec/keycodec.go:176-181 | a value of at most 128 bytes without a structural character is read back from its form |
| KeyCodec.SharedFormIff | keycodec/keycodec.go:176-181 | with a digest that tells the digested values apart, two values share a form iff they are the same or one spells out the digest of the other |
| KeyCodec.SpelledOutDigest | keycodec/keycodec.go:176-181 | for every digested value there is such a one |
| KeyCodec.EqRoundTrip | keycodec/keycodec.go:233-267 | an equality bucket key parses back to table, index, value and number |
| KeyCodec.RangeRoundTrip | keycodec/keycodec.go:190-215 | a range bucket key parses back, and the equality parser rejects it |
| KeyCodec.RangeParserOnEqKey | keycodec/keycodec.go:190-228 | the range parser by itself accepts an equality key iff it is the first one of its value and the value looks like a range bucket's number, sign included |
| KeyCodec.LocateRoundTrip | controller/manager.go:77-83 | with the equality parser asked first, every bucket key is located as what built it |
| KeyCodec.TagOf | keycodec/slot.go:29-40 | the hash tag of a key by cases, as section "Hash tags" of the Redis Cluster specification has it |
| KeyCodec.RowAndReceiptShareTag | keycodec/keycodec.go:17-24 | row and receipt hash alike iff the key is neither empty nor starts with a closing brace |
| KeyCodec.RowKeysDiffer | keycodec/keycodec.go:17-24 | no two rows share a row key or a receipt key, and no row key is a receipt key |
| KeyCodec.BuildTable | keycodec/slot.go:52-65 | the scan ends with, for every slot, a tag that hashes to it |
| KeyCodec.PaddedIs | keycodec/slot.go:57-58 | a candidate's number has five places at least and keeps its value |
| KeyCodec.RowFamilySharesSlot | keycodec/keycodec.go:116-118 | receipt and log of a row's slot are in that slot |
| KeyCodec.ReplicasApart | keycodec/keycodec.go:96-105 | up to eight replicas and their source are in different slots |
| KeyCodec.ReplicasSpread | keycodec/keycodec.go:96-105 | any two of the nine are at least a ninth of all slots apart |
| KeyCodec.ReplicaKeyHitsSlot | keycodec/keycodec.go:96-105 | a replica's key is in the slot meant for it |
| Pushdown.ReplyRoundTrip | exec/pushdown.go:85-110 | parsing inverts the script's flat list of rows |
| Pushdown.ParsePushdownReply | exec/pushdown.go:85-110 | the loop reads a reply to its end or rejects it when it is cut short or a count is no number; a sign is taken as the client's integer parser takes it |
| Pushdown.KeyTagIsPK | script/lua/pushdown_filter.lua:52-53 | the script recovers the primary key from the row key iff it has no closing brace |
| Pushdown.ScriptTestsAlike | script/lua/pushdown_filter.lua:29-50 | the script's test of a value, from its arguments, is the client's |
| Pushdown.FilterScript | script/lua/pushdown_filter.lua:17-61 | the reply lists exactly the existing rows that pass, key by key, in each of the three modes |
| Pushdown.FetchRowsPushdown | exec/pushdown.go:52-82 | grouped by slot in any order, the records are the same multiset as reading and checking on the client gives, each with the cells of a stored row |

## Left out

- Network, protocol and process layers (`kv`, `gateway`, `cmd`, `di`, `metrics`, `i18n`), the
  SQL engine bindings (`engine`) and the generated MessagePack code.
- Covering members as an encoding: they are the pair of key, stamp and copied columns.
  Covering-index reads are not related to row reads; they differ when a covered column changes
  alone, as `TableShape.CoveringReceiptDrifts` shows.
- Unique reservations (also those that a refused deletion at version 1 releases), backfill, the
  reconciler, replicas, near caches, statistics and the retry and backoff layer.
- Failure of a CAS in the controller's step methods: with one controller the versions agree.
- Caches of the routing document and of its registry (`bucketmap.Store`): the state machine
  lets a writer use any stored document not older than a floor that may rise.
- Range splits and merges interleaved with writers: crashes are covered between the stored
  states and between whole passes, not within a page.
- The machine width of the numbers in bucket names and reply counts: the parsers take signs as
  the code's do, but no number is out of range.
- RangeSplitter.RangeController.Sample: does not model the rank arithmetic of the median, because any member's score is a safe cut.
- RangeSplitter.RangeController.MergeRange: does not promise that readers keep every member when the right bucket is under another split or merge, because the code loses members there; `RangeMerge.MergeIsSafeIff` is the exact condition. That the stored document stays well formed is promised for idle buckets and for resuming the same merge.
- RangeSplitter.RangeController.DrainMerge: its soundness holds for the two halves of one merge; `RangeMerge.GuardKeeps` covers the other cases over the whole call.
- RangeSplitter.RangeController.FinishMerge: the same.
- EqLookup.Lookup: the read of the listed values follows the routing document, because otherwise the reader looks at bucket 0 only; `EqLookup.FindsAllIffComplete` and `EqRegistry.QuietIff` show that this cannot be less. No row is cut off, which a table without asynchronous indexes ensures (`EqRefusal.NoneCut`).
- EqTheorems.NothingIsLost: a row is excepted that a refused deletion has cut off, because the code loses such rows; `EqRefusal.SafeIff` is the exact condition. The index under study is a synchronous equality or unique index without prefix copy, because its state holds the buckets of one routing entry kind only.
- WriteRace.CurrentIsKept: a row cut off at version 1 is excepted, because the code loses its members; `WriteRefusal.SafeIff` is the exact condition. The routing documents do not change; equality indexes under splits and merges are the subject of `EqTheorems.NothingIsLost`, range indexes and prefix copies under moving buckets are not covered with concurrent writers.
- Scatter.RowStream.Drain: the buckets do not change while they are paged, because offset paging over a changing sorted set promises nothing.
- Scatter.BuildBuckets: the failure of a document load, which also falls back to bucket 0, and full scans of the registry are not modelled.
- RowFetch.FetchRows: the row cache is off and column names are canonical, as the projection test compares them as text.
- Elector.OneRoleIffTimely: busy nodes' back-off and vacancy tracking only delay a campaign and are not modelled.
- AsyncIndex.AsyncTable.ConsumeLog: the batch that fails twice and goes to the dead letters as a whole is not modelled, because its rows are then missing from the index.
- AsyncIndex.AsyncTable.Write: one slot's log and serial writers, because the script serialises them; rows of an asynchronous index do not expire here.
- OrderedMerge.Merger.Step: de-duplication by key and fetching of the candidates' rows happen after the merge and are left to `Scatter` and `RowFetch`; the text merge of `exec/prefix.go:49-169` is the same class at another order of keys.
- PriorityQueue.Queue.Push: `container/heap` itself is not part of the repository; its sift loops are modelled on a sequence field.
- CatalogCache.Interleave: callers are serial, and a save with its INCR is one step; a save whose INCR is lost is a step too, and `CatalogCache.SteadfastIff` says when it shows.
- TableStore.Table.WriteRow: serial writers without bucket moves; the concurrent case is `EqTheorems`, and receipts outlive the sweep.
- TableStore.Table.RunDrop: the logs are not consumed while the job runs, and the final removal of the catalog entries is not modelled.
- KeyCodec.BuildTable: fills a map where the code fills a fixed array, and requires a bound by which every slot is reached, as CRC16 is a parameter.
- Pushdown.FetchRowsPushdown: the number parser of Lua is taken to be the client's, and keys have no closing brace, because of `Pushdown.KeyTagIsPK`.
- Pushdown.ParsePushdownReply: a negative count, which the script never sends, is rejected where the code would fail on the slice or step back.
