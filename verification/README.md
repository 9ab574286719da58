# Verified models of the UFOs store, the Constellation index and their streams

A Dafny model of the stateful parts of four crates, with proofs about whole runs.

**Constellation** (`constellation/src/storage`) keeps a backlink index in two
stores. `LinkIndex` says what each event means for the index; `MemStore` is the
hash-map store, changed in place; `LinkHistory` and `AccountStates` read off the
events what the index holds and which accounts it shows after every run, and
`LinkTotals` ties counts, totals and versions to both. `RocksIndex` and `RocksStore` are the RocksDB
store with its id tables, append-only merge lists and write batches that are
read against the committed database. `RocksRefinement`, `RocksRemoval`,
`RocksAdding` and `RocksAgreement` prove exactly when the two stores stay in
step, `RocksCrash` does the same for account deletions cut short by a crash,
`LinkReads` shows that coupled stores answer alike, and `RocksSurvivors` and
`RocksObservable` that stores out of step can be told apart by a read after at
most two more events. `RocksDivergence` gives a short run for each condition that
fails, `RocksIds` is about id allocation across crashes, and `LinkPaging`,
`DidPaging` and `RocksPaging` are about following page cursors while events
arrive.

**UFOs** (`ufos/src`) counts commits per collection. `CommitBuffer` is the lossy
per-collection buffer, `Batcher`, `BatcherRuns` and `BatcherTask` gather events
into batches, `Rollup`, `RollupProofs` and `RollupWriter` roll live counts into
hourly, weekly and all-time counters with rank indexes, `Buckets`,
`RollupReads` and `LexiPages` read them back, `FeedTrim` and `FeedStore` trim
the record feeds, and `KeyCodec` encodes the ordered keys. `Pipeline` joins the
batcher to the rollup store, `FeedPipeline` joins it to the feed, `BatcherSends`
says exactly when a batch goes out, `RollupOrder` in which order background work is
done, `FeedRecords` and `FeedStream` which records are there after every run,
`FeedOverflow` which batches can lose one, and `Restarts`
follows the stream, the batcher and the store over any number of stops and
starts: every commit of the log up to the stored cursor is counted exactly once.

**Spacedust** (`spacedust/src`): `DelayQueue` is the removable delay queue as a
step system over the shared queue and its one consumer, which sleeps a whole
delay whenever it finds nothing, `DelayTiming` says exactly which items can come
out early, and `DelayRelease` that none is kept longer than it should be.

**Jetstream** (`jetstream/src`): `Replay` is the reconnect loop with its cursor
filter, and `Reconnects` says exactly when it ends and that reconnecting is
invisible until then.

Each stateful operation is a method on a class (or a loop over local variables,
where the code has one) proved equal to a function on values; the theorems are
about those functions and about all runs of them. `dafny verify dfyconfig.toml`
checks everything.

Where the code and its documentation differ, the code is modelled:

- Enqueueing a key that is already queued does not reset its delay, because the
  old queue entry stays in front (`DelayQueue.BasisIsFirstEntry`,
  `DelayTiming.EarlyIff`), although the comment in
  `spacedust/src/removable_delay_queue.rs:28-29` says it does.
- Replay tracks a cursor only when it was given one
  (`Replay.SkipsWithoutCursor`, `Replay.RepeatsWithoutCursor`).
- Updates and deletes are never displaced from a full buffer
  (`ufos/src/lib.rs:68-80`), but they are reordered: a record deleted and then
  written again in one overflowing batch can end up deleted. A batch is written
  faithfully for all commits exactly up to 128 of a collection
  (`FeedOverflow.FaithfulIff`).
- An event more than 60 seconds after its batch began, or one that finds its batch
  full, is left in a batch of its own even when nothing is queued
  (`BatcherSends.SentWhen`), although the comment in `ufos/src/consumer.rs:166` says
  that batches are sent immediately then.
- The RocksDB store agrees with its reference only under the condition of
  `RocksAgreement.PushAgrees`; `RocksDivergence` holds the runs on which it
  does not.

Environment choices are parameters: the order in which a hash map yields its
keys, the clock, the requests and messages that arrive, what the server sends,
the sketch estimate (any function that is zero on the empty sketch and never
falls under merging), and the syntax checks on decoded strings.

## Model

| member | source | states |
|---|---|---|
| `LinkIndex.PushKeepsInv` | constellation/src/storage/mem_store.rs:26-104 | every event, with no precondition, keeps the index invariant: per record and link, as many live reverse slots as forward links, and every live slot's account is known |
| `LinkIndex.RunKeepsInv` | constellation/src/storage/mem_store.rs:114-127 | the invariant holds after every run from the empty index |
| `LinkHistory.LinksAre` | constellation/src/storage/mem_store.rs:26-104 | after every run a record's links are what the events gave it since it was last replaced or deleted |
| `LinkHistory.SlotsAre` | constellation/src/storage/mem_store.rs:26-104 | and each has as many live reverse slots as times it was given since then |
| `LinkHistory.SlotsEver` | constellation/src/storage/mem_store.rs:26-46 | a target has one slot, live or not, for every link to it that ever arrived |
| `AccountStates.AccountState` | constellation/src/storage/mem_store.rs:76-127 | after every run an account is known exactly when it was registered and not deleted since, and active unless its last activation event since then is a deactivation |
| `AccountStates.RocksAccountState` | constellation/src/storage/rocks_store.rs:669-819 | the same of the RocksDB store, over every run with restarts and deletions cut short; there an event without links registers its account too |
| `AccountStates.DeactivatedThenActivated` | constellation/src/storage/mem_store.rs:162-285 | a deactivated account is on no page and in every count as before; activating it again brings back exactly the earlier reads |
| `AccountStates.RocksDeactivatedThenActivated` | constellation/src/storage/rocks_store.rs:669-678 | the same of the RocksDB store |
| `MemStore.MemStorage.FindSlot` | constellation/src/storage/mem_store.rs:54-62 | the slot search finds a matching slot whenever one is there, so the `expect` cannot fail |
| `MemStore.MemStorage.AddLinks` | constellation/src/storage/mem_store.rs:26-46 | the in-place loop is the index operation |
| `MemStore.MemStorage.RemoveLinks` | constellation/src/storage/mem_store.rs:48-69 | tombstoning one slot per stored link clears exactly the record's slots |
| `MemStore.MemStorage.UpdateLinks` | constellation/src/storage/mem_store.rs:71-74 | clear then add |
| `MemStore.MemStorage.SetAccount` | constellation/src/storage/mem_store.rs:76-81 | only a known account changes |
| `MemStore.MemStorage.DeleteAccount` | constellation/src/storage/mem_store.rs:83-104 | every slot, forward list and the account itself are gone, whatever order records are visited in |
| `MemStore.MemStorage.Push` | constellation/src/storage/mem_store.rs:114-127 | each event changes the store as the index says |
| `RocksIds.RegisterDidOk` | constellation/src/storage/rocks_store.rs:157-216 | a new account gets the next id, and ids stay unique, positive and mapped back |
| `RocksIds.PushOk` | constellation/src/storage/rocks_store.rs:757-819 | every event keeps the id tables well formed and never lowers a sequence or changes a stored target id |
| `RocksIds.RunWf` | constellation/src/storage/rocks_store.rs:88-114 | the id tables are well formed in every state of every run with restarts and crashes in the middle of an account deletion |
| `RocksIds.IdsNeverReused` | constellation/src/storage/rocks_store.rs:157-216 | an id that named something in one state never names something else in a later state of the run |
| `RocksRefinement.DropAllEffect` | constellation/src/storage/rocks_store.rs:532-548 | of all the writers of one reverse list in a batch exactly one takes effect, since each starts from the committed value |
| `RocksRefinement.DropBatchCouples` | constellation/src/storage/rocks_store.rs:694-710 | a batch in which no reverse list is named twice removes exactly the links of its records |
| `RocksRefinement.DropBatchLeaves` | constellation/src/storage/rocks_store.rs:694-710 | a batch in which one is named twice leaves a live slot of one of its records behind |
| `RocksRemoval.RemoveRecordAgrees` | constellation/src/storage/rocks_store.rs:635-667 | removing a record agrees with the index if and only if its stored links are distinct |
| `RocksRemoval.RemoveAccountAgrees` | constellation/src/storage/rocks_store.rs:680-713 | deleting an account agrees if and only if no chunk of 1024 records names a target twice |
| `RocksCrash.CrashAgrees` | constellation/src/storage/rocks_store.rs:687-713 | after a crash between mini batches the store is that of the index without the committed records, if and only if no committed chunk names a target twice |
| `RocksCrash.CrashedDeletionResumes` | constellation/src/storage/rocks_store.rs:687-713 | a deletion cut short between chunks and run again ends where an uninterrupted one does, if and only if no chunk of the committed part and none of the second scan names a target twice |
| `RocksAdding.AddRecordAgrees` | constellation/src/storage/rocks_store.rs:600-633 | adding links agrees if and only if unknown targets are not repeated, the record had none stored, and an empty event is from a known account |
| `LinkReads.ResolveSlots` | constellation/src/storage/rocks_store.rs:885-912 | the page loop yields the newest slots first, without tombstones, unknown ids and inactive accounts |
| `LinkReads.ZeroRepeats` | constellation/src/storage/rocks_store.rs:506-517 | the in-place loop with a seen set zeroes exactly the repeated accounts |
| `LinkReads.SameReads` | constellation/src/storage/rocks_store.rs:829-982 | coupled stores give the same count, distinct count, link page and account page, for every limit and cursor |
| `LinkReads.SameAllCounts` | constellation/src/storage/rocks_store.rs:984-1015 | coupled stores give the same counts per source for a target |
| `LinkTotals.AllCountsAre` | constellation/src/storage/mem_store.rs:301-326 | after every run a source is listed exactly when a link of it to the target ever arrived, with its live slots and the number of accounts that have a record holding the link now |
| `LinkTotals.VersionIs` | constellation/src/storage/mem_store.rs:162-216 | after every run a page's version is how many links to the target ever arrived and how many of them are gone |
| `LinkTotals.LinkTotal` | constellation/src/storage/mem_store.rs:162-216 | with nothing changing, each page's total is the items of all pages and the live links of inactive accounts together |
| `LinkTotals.DidTotal` | constellation/src/storage/mem_store.rs:218-285 | each account page's total is the number of linking accounts, of which the pages together list all but the inactive ones |
| `RocksAgreement.PushAgrees` | constellation/src/storage/rocks_store.rs:757-819 | from coupled stores, an event leaves them coupled if and only if it is agreeable, a condition on the event and the stored links before it |
| `RocksAgreement.InputAgrees` | constellation/src/storage/rocks_store.rs:680-819 | the same for restarts and for crashes in the middle of an account deletion |
| `RocksAgreement.CrashThenDelete` | constellation/src/storage/rocks_store.rs:687-713 | delivering the deletion again after a crash means what it meant the first time |
| `RocksAgreement.RunAgrees` | constellation/src/storage/rocks_store.rs:757-1015 | over every agreeable run from empty stores, with restarts and crashed deletions, all reads are equal |
| `RocksAgreement.WellBehavedAgrees` | constellation/src/storage/rocks_store.rs:556-629 | distinct links per event, creates of unlinked records only and no empty event from an unknown account make a run agreeable, as long as its account deletions meet the chunk condition |
| `RocksSurvivors.RemovalShows` | constellation/src/storage/rocks_store.rs:635-667 | removing a record whose stored links repeat leaves some target with a higher live count than the index has |
| `RocksSurvivors.AccountShows` | constellation/src/storage/rocks_store.rs:680-713 | so does deleting an account one of whose chunks names a target twice |
| `RocksSurvivors.CrashShows` | constellation/src/storage/rocks_store.rs:687-713 | and so does the committed part of a deletion cut short |
| `RocksObservable.DisagreementShows` | constellation/src/storage/rocks_store.rs:600-819 | from coupled stores, after every input that is not agreeable, at most two more events, none an account deletion, make a count or a page differ |
| `RocksObservable.RunDisagreementShows` | constellation/src/storage/rocks_store.rs:757-920 | the first input of a run from empty stores that is not agreeable can always be told from the outside in this way |
| `RocksStore.MergeOperands` | constellation/src/storage/rocks_store.rs:420-458 | the merge operator appends all operands to the existing list |
| `RocksStore.GroupingInvisible` | constellation/src/storage/rocks_store.rs:420-458 | merging operands in any grouping first gives the same list |
| `RocksStore.RocksStorage.GetOrCreateDid` | constellation/src/storage/rocks_store.rs:157-216 | looks only at the committed database, allocates the next id, and the sequence assertion holds |
| `RocksStore.RocksStorage.AddLinks` | constellation/src/storage/rocks_store.rs:600-633 | the batch filled by the loop, once applied, adds the record |
| `RocksStore.RocksStorage.TombstoneLast` | constellation/src/storage/rocks_store.rs:1141-1148 | overwrites the last matching slot in place and reports whether there was one |
| `RocksStore.RocksStorage.RemoveLinks` | constellation/src/storage/rocks_store.rs:635-667 | the batch, once applied, removes the record |
| `RocksStore.RocksStorage.DeleteAccount` | constellation/src/storage/rocks_store.rs:680-713 | one committed mini batch per chunk of the scan, then the account entry |
| `RocksStore.RocksStorage.Push` | constellation/src/storage/rocks_store.rs:757-819 | the whole store changes as the value model says |
| `LinkPaging.PagingVisitsOnce` | constellation/src/storage/mem_store.rs:162-216 | following `next` ends, and the pages are the slots of the first page's list, each read exactly once, newest first |
| `LinkPaging.SteadyLinkReturned` | constellation/src/storage/mem_store.rs:195-210 | a link live and active throughout is among the items |
| `LinkPaging.StablePaging` | constellation/src/storage/mem_store.rs:162-216 | for a client session with any events between page requests: the pages end, each slot of the first list is read exactly once, and every link alive and active throughout is returned |
| `LinkTotals.SessionPagesCover` | constellation/src/storage/mem_store.rs:162-216 | in a session with any events between requests, page i covers the `limit` slots below the i pages before it, or as many as are left |
| `RocksPaging.RunExtendsIds` | constellation/src/storage/rocks_store.rs:532-819 | whatever inputs arrive, agreeable or not, a known target keeps its id, and its list only gets longer with slots kept or tombstoned in place |
| `RocksPaging.StableRocksPaging` | constellation/src/storage/rocks_store.rs:856-920 | for a client session on the RocksDB store with any inputs between page requests: the pages end, each slot of the first list is read exactly once, and every link that stands for the same active record throughout is returned |
| `DidPaging.DidPagingEnds` | constellation/src/storage/mem_store.rs:218-285 | distinct-account paging ends in every session, having looked at each position of the first list exactly once |
| `DidPaging.DidsReturnedOnce` | constellation/src/storage/mem_store.rs:246-260 | whatever events arrive between requests, no account is returned twice |
| `DidPaging.DidReturnedIff` | constellation/src/storage/mem_store.rs:218-285 | an account active throughout is returned if and only if it links at the first request and nothing between two requests takes its last live slot below the cursor of the second |
| `DidPaging.StableDidPaging` | constellation/src/storage/mem_store.rs:218-285 | while only creates arrive, the accounts active throughout that are returned are exactly those linking at the first request, each once |
| `RocksDivergence.RepeatedLinkDiverges` | constellation/src/storage/rocks_store.rs:617-629 | a link twice in one event: counts 2 and 1 |
| `RocksDivergence.RepeatedCreateDiverges` | constellation/src/storage/rocks_store.rs:550-564 | a record created twice and deleted: counts 0 and 1 |
| `RocksDivergence.EmptyEventDiverges` | constellation/src/storage/rocks_store.rs:606-608 | an empty event from an unknown account, then deactivated: its next link is shown by one store only |
| `RocksDivergence.SharedTargetDiverges` | constellation/src/storage/rocks_store.rs:694-710 | an account with two records linking one target, deleted: counts 0 and 1 |
| `DidPaging.DeleteHidesDid` | constellation/src/storage/mem_store.rs:246-285 | a session in which deleting one of an account's two records after the first page hides the account, although it is active and links at every request |
| `CountValues.MergeLaws` | ufos/src/store_types.rs:220-268 | merging counts and sketches is associative and commutative with zero |
| `Buckets.WeekOfHour` | ufos/src/store_types.rs:571-618 | truncating to a week is truncating to an hour first |
| `Buckets.SpanningBest` | ufos/src/store_types.rs:655-676 | the buckets tile the interval exactly, and no tiling by aligned weeks and hours has fewer |
| `Buckets.BucketsSpanning` | ufos/src/store_types.rs:655-676 | the loop ends with that tiling, for every interval |
| `RollupProofs.InsertKeepsInv` | ufos/src/storage_fjall.rs:1380-1456 | a batch keeps the invariant of the rollup store |
| `RollupProofs.StepKeepsInv` | ufos/src/storage_fjall.rs:1458-1525 | so does a background step, including one stopped at 256 entries or by an account deletion |
| `RollupProofs.RunInv` | ufos/src/storage_fjall.rs:1355-1525 | it holds in every state of every interleaving of inserts, steps and rerolls |
| `RollupProofs.NothingLost` | ufos/src/storage_fjall.rs:1196-1351 | the all-time counter merged with the unrolled live entries is everything ever inserted |
| `RollupProofs.LevelsAgree` | ufos/src/storage_fjall.rs:1262-1343 | each weekly counter is the merge of its 168 hourly ones, and the all-time counter the merge of all of them |
| `RollupProofs.RankKeysInsertedOnce` | ufos/src/storage_fjall.rs:1273-1343 | a rank key is present exactly when it holds its counter's current positive rank, and none was ever inserted twice |
| `RollupProofs.StepProgress` | ufos/src/storage_fjall.rs:1458-1525 | a step returns 0 exactly when nothing is pending, otherwise removes exactly what it returns, and the cursor never goes back |
| `RollupProofs.StepsDrain` | ufos/src/storage_fjall.rs:1458-1525 | as many steps as there is pending work drain it, and then every all-time counter is the total of all inserts |
| `RollupOrder.StepIs` | ufos/src/storage_fjall.rs:1458-1525 | a step is an account deletion if and only if one is queued and no live entry lies strictly before it; otherwise it rolls up the first 256 live entries, or those up to the deletion's cursor, and moves the cursor to the last |
| `RollupOrder.DirtyIff` | ufos/src/storage_fjall.rs:1196-1351 | the collections a step reports are exactly those of the live entries it removed |
| `RollupOrder.OnlyDirtyChange` | ufos/src/storage_fjall.rs:1262-1343 | no counter of another collection changes |
| `RollupOrder.RecordsLeft` | ufos/src/storage_fjall.rs:1181-1194 | a deletion takes exactly the records of its account, any other step none |
| `RollupOrder.DeletionsInOrder` | ufos/src/storage_fjall.rs:1436-1525 | in every run the deletions made and those still queued are those that arrived, in the order they arrived |
| `RollupOrder.RolledBefore` | ufos/src/storage_fjall.rs:1458-1525 | when a deletion is made, every entry that arrived before it was already rolled up |
| `RollupReads.TilingTotal` | ufos/src/storage_fjall.rs:923-952 | any tiling of an interval by hours and weeks merges to the interval's total |
| `RollupReads.GetCollectionCounts` | ufos/src/storage_fjall.rs:923-952 | the result is the plain merge of the hourly counters in the interval |
| `RollupReads.SeriesTotal` | ufos/src/storage_fjall.rs:864-921 | merging all chunks of a series gives the interval's total, whatever the step |
| `RollupReads.ReadPathsAgree` | ufos/src/storage_fjall.rs:864-952 | counts by mixed buckets and the merged series are equal for every interval and step |
| `RollupReads.SeriesChunks` | ufos/src/storage_fjall.rs:864-921 | chunk i of a series begins i steps after the interval does and ends a step later, or with the interval |
| `RollupReads.NamedChunks` | ufos/src/storage_fjall.rs:899-918 | a collection asked for k times has each chunk k times in a row |
| `RollupReads.NamedTotal` | ufos/src/storage_fjall.rs:899-918 | series are kept by name, so a collection asked for k times has everything counted k times |
| `RollupReads.NamedReadsAgreeIff` | ufos/src/storage_fjall.rs:864-952 | the two read paths agree for it if and only if it was asked for once or nothing was counted in the interval |
| `RollupReads.GetTimeseries` | ufos/src/storage_fjall.rs:864-921 | the chunk loops compute the starting hours and, by name, every chunk as often as the collection was asked for |
| `RollupWriter.SortEntries` | ufos/src/storage_fjall.rs:1421-1434 | whatever order the hash map yields, the batch's live entries end up in key order, one per collection |
| `RollupWriter.Writer.InsertBatch` | ufos/src/storage_fjall.rs:1380-1456 | appends those entries and the removals and moves the stream cursor |
| `RollupWriter.Writer.SumTimelies` | ufos/src/storage_fjall.rs:1206-1260 | the scan takes the longest allowed prefix and sums it per counter |
| `RollupWriter.Writer.ApplyTotals` | ufos/src/storage_fjall.rs:1262-1343 | rewrites each touched counter and its two rank keys from the stored counters |
| `RollupWriter.Writer.RollupLiveCounts` | ufos/src/storage_fjall.rs:1196-1351 | one atomic batch: counters, ranks, removed entries and the cursor |
| `RollupWriter.Writer.RollupDeleteAccount` | ufos/src/storage_fjall.rs:1181-1194 | deletes the account's records in every collection, takes the removal off its queue and moves the cursor to it |
| `RollupWriter.Writer.StepRollup` | ufos/src/storage_fjall.rs:1458-1525 | picks live counts or the next removal as the value model does, returns the collections whose counts it rolled, and deletes records only for a removal |
| `LexiPages.GetLexiCollections` | ufos/src/storage_fjall.rs:472-546 | the k-way merge loop yields the specified page and next cursor |
| `LexiPages.FullListing` | ufos/src/storage_fjall.rs:472-546 | a page as big as the snapshot lists each collection of any bucket once, in order, with its counts merged over all buckets |
| `LexiPages.PagesJoin` | ufos/src/storage_fjall.rs:472-546 | a page followed by the page after its last name is one bigger page |
| `LexiPages.LexiPagingLists` | ufos/src/storage_fjall.rs:472-546 | following the cursor with any limit of at least 1 ends, and the concatenated pages are that listing |
| `FeedTrim.CommitsAdd` | ufos/src/storage_fjall.rs:1399-1419 | a batch with fresh cursors, in any order, keeps every record's version in the feed above the trim cursor |
| `FeedTrim.TrimKeepsInv` | ufos/src/storage_fjall.rs:1527-1624 | so does a trim of either kind |
| `FeedTrim.RunInv` | ufos/src/storage_fjall.rs:1355-1648 | no feed entry lies below the trim cursor in any state of any run |
| `FeedTrim.TrimModesAgree` | ufos/src/storage_fjall.rs:1527-1624 | scanning from the trim cursor gives the same feed, records and cursor as a full scan |
| `FeedTrim.TrimKeepsNewest` | ufos/src/storage_fjall.rs:1551-1609 | what is left is min(limit, live) live entries, one for each record left, with none dangling |
| `FeedTrim.TrimDropsOldest` | ufos/src/storage_fjall.rs:1591-1609 | every record dropped is older than every record kept, and kept records are unchanged |
| `FeedTrim.RunTrimsAgree` | ufos/src/storage_fjall.rs:1527-1624 | both for the next trim after every run |
| `FeedRecords.BatchLeaves` | ufos/src/storage_fjall.rs:1394-1419 | after a batch a record is what its last commit there left of it, and a record not named is as before |
| `FeedRecords.TrimKeepsIff` | ufos/src/storage_fjall.rs:1527-1624 | a trim keeps a record exactly when fewer than its limit of records are newer |
| `FeedRecords.RecordIff` | ufos/src/storage_fjall.rs:1355-1648 | after every run a version of a record is there exactly when some batch's last commit for it put it, and since then no batch named it, its account was not deleted and every trim found fewer than its limit of newer records |
| `FeedRecords.TrimCursorIs` | ufos/src/storage_fjall.rs:1591-1624 | after every run the trim cursor is at the newest record dropped by some trim since the last reroll, or at 0 |
| `FeedStore.Writer.InsertBatch` | ufos/src/storage_fjall.rs:1394-1419 | puts and cuts are applied in list order |
| `FeedStore.Writer.DeleteAccount` | ufos/src/storage_fjall.rs:1626-1647 | removes exactly the account's records, in commits of at most 1024, and counts them |
| `FeedStore.Writer.TrimCollection` | ufos/src/storage_fjall.rs:1527-1624 | the backwards loop leaves the specified state and counts what it cleaned and deleted |
| `CommitBuffer.InsertOutcome` | ufos/src/lib.rs:81-134 | a commit is stored, or the buffer is full and unchanged; `BatchOverflow` and `BatchForever` cannot happen |
| `CommitBuffer.FullMeansNoCreates` | ufos/src/lib.rs:86-89 | it reports full exactly when it holds its limit of commits and no create |
| `CommitBuffer.InsertHolds` | ufos/src/lib.rs:63-134 | tallies are those of all accepted commits; no update or delete is ever displaced; nothing is displaced before the limit; the newest commit is kept; slots before the head are not creates |
| `CommitBuffer.Offer` | ufos/src/lib.rs:63-134 | all of that after any sequence of offered commits |
| `CommitBuffer.CollectionCommits.TruncatingInsert` | ufos/src/lib.rs:63-134 | the tallies, the room left and the displacement are that insert, from any state |
| `CommitBuffer.CollectionCommits.DisplaceCreate` | ufos/src/lib.rs:113-130 | the loop with the moving head ends where the search says, with the commit in that slot |
| `Batcher.InsertTakes` | ufos/src/lib.rs:215-231 | a batch takes a commit, or is full and left as it was |
| `Batcher.CommitPieces` | ufos/src/consumer.rs:177-200 | the retry after a full batch always succeeds |
| `Batcher.EventPieces` | ufos/src/consumer.rs:136-175 | an event is refused if and only if its cursor precedes the current batch's first one |
| `BatcherSends.SentWhen` | ufos/src/consumer.rs:136-212 | from every state, a batch goes out before the event exactly when it began over 60 seconds earlier or has no room for it, with the event exactly when it began over 2 seconds earlier and nothing is queued, and otherwise not |
| `BatcherSends.RunSends` | ufos/src/consumer.rs:136-240 | the same over every run, with what arrived split into what was sent and what was not |
| `BatcherSends.IdleSends` | ufos/src/consumer.rs:127-134 | after idling nothing is unsent |
| `BatcherSends.BeganAt` | ufos/src/consumer.rs:136-145 | over every run the current batch began at the first event since the last one was sent |
| `BatcherSends.HeldSpan` | ufos/src/consumer.rs:166-174 | a batch still held after an event, with its beginning noted, began at most 60 seconds before it, and 2 if nothing was queued |
| `BatcherRuns.RunConserves` | ufos/src/consumer.rs:136-240 | sent and current batches take consecutive pieces of exactly the commits and removals that arrived |
| `BatcherRuns.NothingRefused` | ufos/src/consumer.rs:136-200 | when cursors never go back, no event of a run is refused |
| `BatcherRuns.TalliesConserved` | ufos/src/consumer.rs:177-240 | summed over all batches, each collection's tallies are those of its commits that arrived, and the removals are those that arrived, in order |
| `BatcherRuns.LimitsRespected` | ufos/src/consumer.rs:20-22 | every batch keeps the collection, commit and removal limits |
| `BatcherRuns.LatestCursor` | ufos/src/lib.rs:243-263 | the loops find the greatest buffered cursor or the last removal's |
| `BatcherRuns.LatestIsLast` | ufos/src/lib.rs:243-263 | with increasing cursors that is the last accepted event's, despite displacement |
| `BatcherRuns.BatchesFollow` | ufos/src/lib.rs:243-263 | with increasing cursors, every commit and removal of a later batch is after an earlier batch's latest cursor and not after its own batch's |
| `BatcherRuns.RemovalsRise` | ufos/src/consumer.rs:202-212 | a batch's removals are in cursor order |
| `BatcherRuns.DistinctCursors` | ufos/src/lib.rs:117-130 | displacement never leaves two commits with one cursor in a buffer |
| `Pipeline.BatchFollowsHere` | ufos/src/storage_fjall.rs:1392-1448 | what the rollup store asks of its batches holds of the batches the batcher sends |
| `Pipeline.PipelineCatches` | ufos/src/storage_fjall.rs:1380-1525 | from any store holding some history, in every interleaving of inserting the sent batches with steps and rerolls, the store holds that history and exactly what those batches took, with its stream cursor at the last of it |
| `Pipeline.StreamConserved` | ufos/src/consumer.rs:136-240 | at every moment the all-time counter, the live entries and the batches not yet written hold together exactly the commits that arrived on the stream |
| `Pipeline.StreamCounted` | ufos/src/consumer.rs:136-240 | once all is sent, written and rolled up, each all-time counter is the tally of the commits that arrived |
| `FeedPipeline.FeedFollowsHere` | ufos/src/storage_fjall.rs:1394-1419 | what the feed asks of its batches, displaced or not, holds of the batches the batcher sends |
| `FeedPipeline.FeedRunOrdered` | ufos/src/storage_fjall.rs:1380-1456 | any interleaving of the sent batches with trims, account deletions and rerolls is well ordered |
| `FeedPipeline.SentFeedTrims` | ufos/src/storage_fjall.rs:1527-1624 | over every run of the batcher and every such run of the feed, the feed's invariant holds, and the next trim may scan either way and keeps min(limit, records) |
| `FeedStream.StreamRecords` | ufos/src/storage_fjall.rs:1394-1419 | over every run of the batcher and the feed in which no batch overflowed, the records put and spared since are those there, each as the last commit for it on the stream left it |
| `FeedOverflow.FaithfulIff` | ufos/src/lib.rs:81-134 | a batch of n commits of one collection is written as its commits say, for all commits, if and only if n is at most 128; for every larger n there is one in which a record written after it was deleted is lost |
| `Restarts.LifeHolds` | ufos/src/consumer.rs:42-66 | from start to stop the store holds exactly the log up to its own stored cursor, whatever connections broke and whatever was not yet sent or written |
| `Restarts.CountedAcrossRestarts` | ufos/src/main.rs:60-125 | over any number of starts, each resuming after the stored cursor, the all-time counter and the live entries together are the counts of every commit of the log up to that cursor, each once |
| `BatcherTask.BatchingTask.InsertCommitByNsid` | ufos/src/lib.rs:215-231 | the batch operation, in place |
| `BatcherTask.BatchingTask.DoHandleCommit` | ufos/src/consumer.rs:177-200 | insert, send when full, insert again |
| `BatcherTask.BatchingTask.DoHandleDeleteAccount` | ufos/src/consumer.rs:202-212 | sends first when 1024 removals are held |
| `BatcherTask.BatchingTask.DoHandleEvent` | ufos/src/consumer.rs:136-175 | the handler with both time spans |
| `BatcherTask.BatchingTask.NoEventsStep` | ufos/src/consumer.rs:127-134 | sends only a batch that is not empty |
| `KeyCodec.RoundTrip` | ufos/src/db_types.rs:131-163 | decoding an encoded key followed by any bytes gives the value and its exact length, except exactly when nothing follows and a suffix takes no bytes, which is `DecodeMissingSuffix` |
| `KeyCodec.DecodedIsEncoded` | ufos/src/db_types.rs:131-163 | what decodes is the encoding of what it decodes to |
| `KeyCodec.CompleteIffEncoded` | ufos/src/db_types.rs:364-370 | `db_complete` gives a value exactly for its encoding |
| `KeyCodec.StringFromDbBytes` | ufos/src/db_types.rs:278-287 | the scan for the terminator, with its errors |
| `KeyCodec.EncodesIff` | ufos/src/db_types.rs:269-277 | a key can be encoded exactly when none of its strings holds a NUL, and fails with `StringContainedNull` otherwise |
| `KeyCodec.TextErrors` | ufos/src/db_types.rs:278-287 | a string without a terminator is unterminated, and one that is not UTF-8 before its first terminator is rejected, nothing else |
| `KeyCodec.LeftOver` | ufos/src/db_types.rs:364-370 | bytes after a complete key are reported with their number |
| `KeyCodec.KeyOrder` | ufos/src/db_types.rs:131-163 | byte order of encoded keys, whatever follows them, is the order of their parts |
| `KeyCodec.PrefixEndBounds` | ufos/src/db_types.rs:67-73 | below the end of a prefix are exactly the strings with the prefix or before it |
| `KeyCodec.RangeHoldsExactly` | ufos/src/db_types.rs:111-113 | a range to the end of a prefix holds exactly the keys with that prefix not before the given suffix |
| `KeyCodec.LiveKeyComplete` | ufos/src/store_types.rs:185-211 | a stored live-count key is read back exactly when it is the encoding of a cursor and a valid collection name |
| `KeyCodec.LiveKeyOrder` | ufos/src/store_types.rs:185-211 | live-count keys are ordered by cursor, then collection |
| `KeyCodec.RangeFromCursorExact` | ufos/src/store_types.rs:191-194 | the range always exists and holds exactly the live-count keys with at least that cursor |
| `KeyCodec.FeedRangeExact` | ufos/src/store_types.rs:76-84 | a feed range holds exactly that collection's entries at or after the cursor |
| `DelayQueue.RunKeeps` | spacedust/src/removable_delay_queue.rs:32-113 | in every state of every run each enqueued item is in exactly one of pending, held, emitted, removed and overwritten; every pending key has a queue entry; nothing was emitted too early |
| `DelayQueue.PopFindsIff` | spacedust/src/removable_delay_queue.rs:79-90 | taking finds an item exactly when one is pending |
| `DelayQueue.RemovedNeverEmitted` | spacedust/src/removable_delay_queue.rs:47-69 | an item removed while pending is not emitted in any continuation |
| `DelayQueue.EmittedOnceOnTime` | spacedust/src/removable_delay_queue.rs:91-107 | nothing is emitted twice, nor before its basis plus the delay less a millisecond |
| `DelayQueue.BasisIsFirstEntry` | spacedust/src/removable_delay_queue.rs:28-41 | an item's basis is its own enqueue time exactly when its key had no older entry; for a pending key it is the overwritten item's |
| `DelayTiming.FreshKeyWaits` | spacedust/src/removable_delay_queue.rs:32-41 | an item whose key was not in the queue waits out its own delay, less a millisecond, in every continuation |
| `DelayTiming.EarliestRelease` | spacedust/src/removable_delay_queue.rs:78-113 | from every state some continuation emits an item as soon as the oldest entry of its key and the consumer, asleep or not, allow |
| `DelayTiming.EarlyIff` | spacedust/src/removable_delay_queue.rs:28-41 | an item can come out before its delay has passed if and only if its key has an older queue entry and the consumer, which may be asleep or waiting with another item, can be free in time |
| `DelayTiming.SleeperNotEarly` | spacedust/src/removable_delay_queue.rs:106-111 | an item enqueued no more than a millisecond after the consumer found nothing and fell asleep is early in no continuation |
| `DelayRelease.HeldComesOut` | spacedust/src/removable_delay_queue.rs:91-107 | in every reachable state a held item can be let go at every time from its basis plus the delay on |
| `DelayRelease.ReleasedIff` | spacedust/src/removable_delay_queue.rs:92-105 | an item is let go exactly from its due time on if that was more than a millisecond ahead when the consumer looked, and at once if not |
| `DelayRelease.WakesIff` | spacedust/src/removable_delay_queue.rs:109-111 | a consumer that finds nothing wakes exactly one delay later |
| `DelayRelease.TakesFirst` | spacedust/src/removable_delay_queue.rs:79-90 | taking gives the pending key with the first entry of all and drops just the entries up to it |
| `DelayRelease.EverythingComesOut` | spacedust/src/removable_delay_queue.rs:78-113 | from every reachable state, at every time by which all that is pending or held is due, the consumer alone gets all of it out at that time |
| `DelayQueue.SharedQueue.DoEnqueue` | spacedust/src/removable_delay_queue.rs:32-43 | adds an entry and replaces the item, or fails and changes nothing |
| `DelayQueue.SharedQueue.DoRemoveRange` | spacedust/src/removable_delay_queue.rs:49-69 | removes exactly the items in the range and counts them |
| `DelayQueue.SharedQueue.DoGet` | spacedust/src/removable_delay_queue.rs:79-90 | the popping loop |
| `Replay.WebsocketTask` | jetstream/src/lib.rs:495-645 | the message loop passes on the specified events and last cursor |
| `Replay.ConnectCursor` | jetstream/src/lib.rs:399-485 | the reconnect loop delivers the specified events |
| `Replay.ExactlyOnce` | jetstream/src/lib.rs:399-485 | with replay and an initial cursor, what is delivered is always a gapless prefix of the log after that cursor, each event once |
| `Reconnects.EndsIff` | jetstream/src/lib.rs:399-485 | the loop has ended if and only if a session had more fresh events than its receiver took, or 300 attempts in a row were refused or short-lived; until then it has passed on the fresh events of every session and connects with the newest cursor |
| `Reconnects.ReceiveIs` | jetstream/src/lib.rs:540-558 | a session passes on, in order, the events newer than the cursor and than all before them, as many as the receiver takes |
| `Reconnects.ReconnectsInvisible` | jetstream/src/lib.rs:420-476 | with replay, refused and broken connections pass on together what one connection with all their messages would |
| `Reconnects.DeliveredIs` | jetstream/src/lib.rs:399-485 | so after every run that has not ended, exactly the fresh events of all messages were delivered |
| `Reconnects.CaughtUp` | jetstream/src/lib.rs:540-558 | a session that the loop reaches and whose receiver stays, after any refused attempts, has delivered all it was sent |
| `Replay.NeverRepeats` | jetstream/src/lib.rs:540-558 | with replay and an initial cursor, delivered cursors strictly increase whatever a server sends |
| `Replay.SkipsWithoutCursor` | jetstream/src/lib.rs:472-476 | without replay or without an initial cursor some run skips an event |
| `Replay.RepeatsWithoutCursor` | jetstream/src/lib.rs:556-558 | and some run delivers one twice |

## Left out

- Servers, templates, OAuth and JWT, metrics, command lines, backups and health checks: I/O and presentation.
- RocksDB, fjall, bincode, zstd and URI parsing themselves: stores are maps with atomic batches, bincode values are opaque, and the prefix-range contract of the LSM tree is modelled as `KeyCodec.PrefixEnd`.
- The nested hash maps of the in-memory index are one map keyed by target, collection and path; an emptied inner map is then the same as an absent one, which no read distinguishes.
- Undecodable merge operands in the RocksDB merge operator.
- Batches whose commit fails: every write succeeds.
- `get_stats` values, which are estimates.
- `get_ordered_collections` (documented as not guaranteed correct), `get_lexi_prefix`, record feeds read across collections.
- The accuracy of the sketch: it is a set of accounts with an abstract estimate.
- Counters are unbounded: 64-bit overflow of counts, ids and cursors is not modelled; encoded cursors are bounded in `KeyCodec`.
- Which record version survives an overflowing batch: the last commit in buffer order decides (`FeedRecords.BatchLeaves`), and which slot that is depends on the displacement; no closed form is given.
- The 60-second bound on a batch's span: sending clears the first cursor and only the next event sets it again, so the bound does not follow.
- Failed or timed-out sends of a batch: `Batcher.Send` always succeeds.
- A first start, with no cursor stored, connects without one; a reconnect may then skip or repeat events (`Replay.SkipsWithoutCursor`), so `Restarts` begins with a store that holds a known history (an empty one at the start of the log will do, by `Restarts.EmptyHoldsLog`).
- One consumer per delay queue: concurrent `next` calls on one output are not modelled.
- The retry delays of the reconnect loop; a request that cannot be built.
- UTF-8 and NSID syntax: two abstract predicates on decoded strings.
- CommitBuffer.CollectionCommits.TruncatingInsert: the batcher keeps buffers as values in its map rather than as such objects.
- FeedStore.Writer.InsertBatch: one collection at a time, without the counts, which `RollupWriter` holds.
- RollupReads.GetTimeseries: a step below an hour (an empty chunk size) and one above 604800000000, where the code panics, are not modelled.
