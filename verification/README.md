# The account store

A Dafny model of the account store in `accounts-db`: the write cache, the index and the per-slot
storage files, changed by flush, clean, shrink, sweep and snapshots while loads and scans read them.

The store is modelled twice. `Ledger` is an abstract machine whose state is the cached, stored and
buried (tombstone) versions of every key, the roots, and the latest full snapshot. Over its runs it is
proved that

- a load answers with the whole account at the highest slot the bank can see, if that has lamports, however
  the cache and the index are searched for it;
- collection (flush, clean, shrink, sweep, snapshot) changes no load of any bank, on any fork, that sees
  every root up to the clean bound, and that cleaning at or below a pinned root changes nothing a bank
  reading through that root sees;
- restarting is safe: an incremental snapshot laid over the latest full one rebuilds exactly what a bank
  at that root has loaded ever since the root was made, because a zero-lamport record outlives its index
  entry as a tombstone until a full snapshot covers it.

`AccountsDb` is the store itself: a class with an index of slot lists and reference counts, storages with
offsets, tombstones, obsolete marks and counters, a cache and the unflushed roots. Every operation is
proved to keep index and storages in agreement (each slot's records split into live ones with exactly one
index entry, tombstones and obsolete ones; counters exact; nothing dangling) and to be a step of the
ledger, so both results hold of it in every state it can reach.

Beside it stand the parts with a protocol or an algorithm of their own: the deletion solver and the final
purge of clean, the three-read lookup of a reader racing with shrink and clean, the write cache and its
lossy slot hint, batch writes to the cache, the skipping archive reader, account locks, scans at a pinned
root, startup totals, the storage order, shrink selection and the largest accounts.

Where the source and its comments part ways, the source is followed:

- A flush reads its bound before it reads the roots to flush. With no proposed root and no scan under way,
  or with a proposed root that is not a root yet, a scan begun in between can lose an account it needs
  (`CarelessFlushCanFailAScan`); `CarefulIsExact` says exactly when the bound holds for later scans. Outside
  tests a flush always has a proposed root. A clean needs no such care, because nothing is flushed while it
  runs.
- Filtering for incremental snapshots can leave a slot half full, against the assertion that follows it.
  `PurgeKillsWhatItTouches` says exactly when it does not, and `NothingIsLeftToPurge` that after the
  reclaim phase of a clean the purge has nothing to do, so the case does not arise.
- Cutting a slot list turns a lone zero-lamport entry into a tombstone even when its slot is above the
  clean bound.
- Writing a batch backwards loads like writing it forwards for any target slot, not only the highest
  ancestor.

Files follow the program's parts; `Types`, `Sums` and `Totals` hold what they share.

## Model

| member | source | states |
|---|---|---|
| LedgerRuns.RestartIsSafe | accounts-db/src/accounts_db.rs:2321-2338 | In every state of every run from an empty store, the records above the latest full snapshot, laid over it, rebuild for every key what a bank at a fully flushed root loaded at any time since the root was made, provided nothing was cleaned above that root. |
| LedgerRuns.RunKeepsInv | accounts-db/src/accounts_db.rs:5126-5150 | Every run keeps the ledger invariant: stored slots precede unflushed roots, tombstones precede live versions, and the archive still answers for every key with no newer record. |
| LedgerProofs.StepKeepsInv | accounts-db/src/accounts_db.rs:4994-4997 | Each kind of step (store, drop, root, flush with or without cleaning, clean, shrink, sweep, full snapshot) keeps that invariant. |
| LedgerProofs.RestartRebuildsStored | accounts-db/src/accounts_db.rs:2321-2338 | Under the invariant alone, the newest record above the full snapshot, or failing that the snapshot, answers like the newest stored version. |
| LedgerProofs.LookUpIsLoad | accounts-db/src/accounts_db.rs:3764-3784 | Searching the cache and then the index, ancestors before roots, finds the newest version the bank can see anywhere, on any fork. |
| LedgerProofs.LoadMeans | accounts-db/src/accounts_db.rs:3496-3506 | A load answers with an account exactly when that account, whole, has lamports and is at the highest slot of all that the bank can see, stored or cached. |
| LedgerProofs.StoreThenLoad | accounts-db/src/accounts_db.rs:3496-3506 | What a bank stores at its own slot it loads back unchanged, and as absent if it has no lamports. |
| LedgerProofs.CollectionKeepsLoad | accounts-db/src/accounts_db.rs:3496-3506 | Flush, clean, shrink, sweep and snapshot change no load of any bank, on any fork, that sees every root up to the clean bound. |
| LedgerProofs.FlushKeepsLoad | accounts-db/src/accounts_db.rs:4436-4556 | A flush of the oldest root, with superseded versions dropped, older ones reclaimed and zero balances buried, changes no such load. |
| LedgerProofs.CleanKeepsLoad | accounts-db/src/accounts_db.rs:1185-1208 | A clean up to a root changes no load of a bank that sees every root up to it. |
| LedgerProofs.ShrinkKeepsLoad | accounts-db/src/accounts_db.rs:2431-2509 | A shrink changes no load at all. |
| LedgerRuns.HeldBankIsStable | accounts-db/src/accounts_scan.rs:160-228 | What a bank on a chain through a root loads never changes while cleaning stays at or below the root, or cleans nothing stored above it, although its own ancestors may be rooted and flushed meanwhile and other forks rooted past it. |
| LedgerRuns.PinnedRootIsStable | accounts-db/src/accounts_scan.rs:107-152 | Over any part of a run in which cleaning stays at or below a root, what a reader at that root loads never changes, whatever is stored, rooted and flushed meanwhile. |
| AccountsDb.AccountsDb.RestartIsSafe | accounts-db/src/accounts_db.rs:2321-2338 | Restart safety of the concrete store: the storage records an incremental snapshot reads, laid over what the full snapshot holds, rebuild what a bank at that root loaded at any earlier state of any run that leads to this one. |
| AccountsDb.AccountsDb.constructor | accounts-db/src/accounts_db.rs:5636-5640 | The empty store is valid and stands for the initial ledger. |
| AccountsDb.AccountsDb.StoreCached | accounts-db/src/accounts_cache.rs:287-313 | Caching an account of an unrooted slot is the ledger's store step. |
| AccountsDb.AccountsDb.AddRoot | accounts-db/src/accounts_db.rs:5596-5606 | Rooting a slot is the ledger's root step. |
| AccountsDb.AccountsDb.PurgeUnrooted | accounts-db/src/accounts_db.rs:3914-3963 | Dropping an unrooted cached slot is the ledger's drop step. |
| AccountsDb.SelectPubkeysToStore | accounts-db/src/accounts_db.rs:4398-4434 | Newest root first: a root within the clean bound keeps exactly the keys no newer such root holds, a root above it keeps everything. |
| AccountsDb.AccountsDb.SelectRecords | accounts-db/src/accounts_db.rs:4436-4500 | What a flush writes of a root: the selected accounts, except zero-lamport ones with nothing older in the index. |
| AccountsDb.AccountsDb.IndexRecords | accounts-db/src/accounts_db.rs:4868-4914 | Each written record is upserted, or deleted from the index when it is a zero balance in a cleaning flush; index and storages agree up to exactly the locations returned as reclaims. |
| AccountsDb.AccountsDb.StoreForFlush | accounts-db/src/accounts_db.rs:5325-5385 | Writing, indexing and reclaiming leave index and storages in full agreement, and say how each older storage fared. |
| AccountsDb.AccountsDb.FlushSlot | accounts-db/src/accounts_db.rs:4436-4556 | Flushing one root is the ledger's flush step for exactly the kept keys. |
| AccountsDb.AccountsDb.FlushRooted | accounts-db/src/accounts_db.rs:4345-4394 | Flushing any set of roots in ascending order empties them from the cache, is a run of ledger steps, and changes no load of any bank that sees every root up to the clean bound. Of each key that a cleaned root holds, nothing older than the newest such root stays stored, and that version stays exactly if it has lamports; all else stored stays, and every other flushed version joins it, skipped exactly when it has no lamports and nothing older is stored. |
| FlushedKeys.KeyFlushedNext | accounts-db/src/accounts_db.rs:4414-4431 | Flushing the next root keeps a key's stored versions what the roots flushed so far make of them, whether the root writes the key, replaces older versions, or leaves it to a newer root. |
| AccountsDb.RemoveRecords | accounts-db/src/accounts_db.rs:5082-5118 | Of a storage with exact counters, live records can always be taken out: what is left is exact again with exactly the other live records, or had no other if the storage dies; count and bytes fall by what the records held on both removal paths, and by nothing when they become tombstones; old marks stay and new ones are at the given slot. |
| AccountsDb.AccountsDb.ReclaimFromSlot | accounts-db/src/accounts_db.rs:5066-5150 | Reclaiming offsets of one slot never underflows its count or bytes, drops the storage exactly when it is empty or holds only tombstones a full snapshot covers, and leaves no index entry dangling. |
| AccountsDb.AccountsDb.RemoveDeadAccounts | accounts-db/src/accounts_db.rs:5045-5150 | Slot by slot in any order, all reclaims are settled and nothing else changes. |
| AccountsDb.AccountsDb.CollectReclaims | accounts-db/src/accounts_db.rs:1185-1208 | One key's clean: the index keeps its newest entry up to the root and newer ones, and a lone zero-lamport entry goes; the marks say which location is obsolete from which slot. |
| AccountsDb.AccountsDb.HandleMarks | accounts-db/src/accounts_db.rs:1245-1270 | Every reclaim of a clean is settled: a lone zero becomes a tombstone, an older entry becomes obsolete. |
| AccountsDb.AccountsDb.CleanAccounts | accounts-db/src/accounts_db.rs:1888-2148 | A clean of any set of keys up to a root is the ledger's clean step, changes no load of a bank that sees every root up to it, and its last phase finds no key to purge. It keeps old obsolete marks and adds marks only to records of those keys, at the key's newest entry up to the root. |
| AccountsDb.CleanSparesOlderSnapshots | accounts-db/src/obsolete_accounts.rs:39-47 | A record a clean marks obsolete is still read by a snapshot older than the version that replaces it, and by no later one. |
| AccountsDb.AccountsDb.UpdateIndexForShrink | accounts-db/src/accounts_db.rs:4943-4985 | Every moved record's entry is repointed to its place in the new storage, and exactly the lone zero-lamport keys leave the index. |
| AccountsDb.AccountsDb.ShrinkSlot | accounts-db/src/accounts_db.rs:2759-2879 | A shrink takes place exactly when the slot is stored, not cached, and holds a record to leave out and one to keep; left out are obsolete records and, where the latest full snapshot covers the slot or there is none, tombstones and lone zero-lamport accounts. Then it is the ledger's shrink step, changes no load, drops every obsolete record and makes the storage smaller; otherwise nothing changes. |
| Shrink.RewriteSize | accounts-db/src/accounts_db.rs:2787-2810 | The rewritten file is smaller exactly when a record is left out and not empty exactly when one is kept. |
| AccountsDb.AccountsDb.TakeFullSnapshot | accounts-db/src/accounts_db.rs:5636-5640 | A full snapshot of the storages is the ledger's snapshot step. |
| AccountsDb.AccountsDb.SweepSlots | accounts-db/src/accounts_db.rs:1732-1767 | Exactly the newly covered storages that hold only tombstones go, and that is the ledger's sweep step. |
| Flush.FlushIsStep | accounts-db/src/accounts_db.rs:5325-5385 | Index upserts and deletes, the new storage and the settled reclaims together are the ledger's flush step. |
| Clean.CleanIsStep | accounts-db/src/accounts_db.rs:1888-2062 | The cut slot lists and the settled marks together are the ledger's clean step. |
| Shrink.ShrinkIsStep | accounts-db/src/accounts_db.rs:2759-2879 | The rewritten storage with its repointed and dropped entries is the ledger's shrink step, tombstones included. |
| Snapshot.SnapshotIsStep | snapshots/src/archive.rs:147-152 | What a snapshot takes from the storages, leaving out records obsolete by then and including tombstones, is the newest version of every key. |
| Snapshot.SweepIsStep | accounts-db/src/accounts_db.rs:1732-1767 | Dropping tombstone-only storages under a full snapshot is the ledger's sweep step. |
| Snapshot.RebuiltIsRestart | accounts-db/src/accounts_db.rs:2321-2338 | Reading the storage records above the full snapshot, obsolete ones left out and tombstones included, answers as the ledger says a restart does. |
| AccountsIndex.Relink | accounts-db/src/accounts_index.rs:809-856 | Replacing one key's slot list keeps index and storages in agreement: exactly the entries that left become unsettled, exactly the new ones settled. |
| AccountsIndex.UpsertCounts | accounts-db/src/accounts_index/in_mem_accounts_index.rs:742-846 | An upsert, with or without reclaiming older slots, keeps the reference count equal to the length of the slot list. |
| AccountsIndex.Settle | accounts-db/src/accounts_db.rs:5045-5150 | Settling unsettled records of a slot keeps index and storages in agreement for the rest, whether or not the storage dies. |
| Shrink.ReplaceCounts | accounts-db/src/accounts_index/in_mem_accounts_index.rs:602-632 | Replacing an entry at a slot keeps the other entries and the reference count. |
| StorageEntry.RetireKeepsValid | accounts-db/src/account_storage_entry.rs:222-241 | Removing records keeps the alive count equal to live records plus tombstones, and the alive bytes equal to their sizes. |
| StorageEntry.BuryKeepsValid | accounts-db/src/account_storage_entry.rs:147-160 | Turning records into tombstones changes neither counter and keeps them exact. |
| StorageEntry.WrittenIsValid | accounts-db/src/account_storage_entry.rs:214-220 | A newly written storage has exact counters. |
| StorageEntry.OnlyTombstones | accounts-db/src/account_storage_entry.rs:173-177 | The alive count equals the number of tombstones exactly when no record is live. |
| StorageEntry.AccountStorageEntry.constructor | accounts-db/src/account_storage_entry.rs:55-76 | A storage written with accounts has exact counters and no tombstone or obsolete record. |
| StorageEntry.AccountStorageEntry.RemoveAccounts | accounts-db/src/account_storage_entry.rs:222-241 | The counters fall by exactly what the removed live records held, never below zero, the entry stays exact, and the records are marked at the given slot with older marks unchanged. |
| StorageEntry.AccountStorageEntry.BatchInsertTombstoneOffsets | accounts-db/src/account_storage_entry.rs:147-160 | The offsets become tombstones, the counters do not move, and the number newly inserted is returned. |
| StorageEntry.AccountStorageEntry.ScanAccounts | accounts-db/src/account_storage_entry.rs:244-271 | Exactly the live records are visited, in file order, and the others counted; what is visited and the tombstones make up the alive count. |
| Clean.FindNewest | accounts-db/src/accounts_index.rs:894-920 | The newest slot up to the bound, by a scan of the slot list, or zero when there is none. |
| Clean.CutList | accounts-db/src/accounts_index.rs:922-957 | Dropping what is older than the newest entry up to the bound keeps that entry and all above the bound; the list is left with a lone zero exactly when the counts say so. |
| Shrink.ShrinkCollect | accounts-db/src/accounts_db.rs:2563-2695 | The records to move, the zero-lamport records to carry as tombstones and the lone zero-lamport keys to drop are exactly the live, the carried and the lone ones; records are carried only while a full snapshot does not cover the slot. |
| DeleteSolver.CalcDeleteDependencies | accounts-db/src/accounts_db.rs:1274-1372 | The worklist leaves the greatest set of drained slots in which every candidate is fully referenced and has all its slots in the set; its lookups never fail. |
| DeleteSolver.OrderDoesNotMatter | accounts-db/src/accounts_db.rs:1274-1372 | That set is unique, so no iteration order changes the result. |
| DeleteSolver.RuleOut | accounts-db/src/accounts_db.rs:1319-1368 | Following one blocked candidate through the slots and keys it touches rules out only slots no deletable set can hold. |
| CleanPurge.CollectStoreCounts | accounts-db/src/accounts_db.rs:2065-2093 | The store counts are the alive counts less the candidates in each slot, computed without underflow. |
| CleanPurge.CandidatesAreAlive | accounts-db/src/accounts_db.rs:2065-2093 | In a store whose index and storages agree, every candidate entry is an alive record, so the counting cannot underflow. |
| CleanPurge.PurgeKillsWhatItTouches | accounts-db/src/accounts_db.rs:2109-2148 | The final purge kills every slot it touches if and only if no purged key shares a slot with a candidate held back for the next full snapshot. |
| CleanPurge.PurgedIs | accounts-db/src/accounts_db.rs:2109-2131 | A candidate is purged exactly when every slot it has is to be deleted and, filtering for incremental snapshots, its newest slot is covered by the full snapshot. |
| CleanPurge.NothingHeldBack | accounts-db/src/accounts_db.rs:2340-2398 | Without incremental filtering, or when every candidate has one slot, nothing is held back. |
| CleanPurge.FilteringCanLeaveASlotHalfFull | accounts-db/src/accounts_db.rs:2340-2398 | With filtering and a candidate in two slots the dead-slot assertion can fail: a concrete case. |
| CleanPurge.ReclaimedKeyCannotGo | accounts-db/src/accounts_db.rs:1211-1240 | After the reclaim phase a candidate has no slot left, or one slot and more references than slots. |
| CleanPurge.NothingIsLeftToPurge | accounts-db/src/accounts_db.rs:2109-2148 | For the candidates that the reclaim phase of any clean leaves, the solver leaves no slot and the final purge no key. |
| CleanPurge.GatherCandidates | accounts-db/src/accounts_db.rs:1943-2024 | The candidates are exactly the keys whose newest entry up to the root has no lamports and that keep an entry up to the root. |
| CleanPurge.CandidatesAre | accounts-db/src/accounts_db.rs:1943-2024 | The candidates are exactly the cleaned keys whose newest entry up to the root has no lamports and that keep an entry up to the root after the reclaim phase; each has those entries and the reference count then in the index. |
| CleanPurge.KeysToPurge | accounts-db/src/accounts_db.rs:2065-2131 | Counting, solving and filtering after the reclaim phase yield no key, in any store whose index and storages agree. |
| ReaderProtocol.NoBadIndexEntry | accounts-db/src/accounts_db.rs:3719-3750 | Under every interleaving with flush, shrink and clean, the reader never sees the same slot and store again after a miss, so the failure is unreachable. |
| ReaderProtocol.MissedStoreIsNeverNamedAgain | accounts-db/src/account_storage.rs:52-72 | Once the three reads have missed a store, no key of the index names it, then or at any later time. |
| ReaderProtocol.FoundStoreWasNamed | accounts-db/src/account_storage.rs:52-72 | Whatever store a lookup finds is one the index named for that key during the run, at that slot and offset. |
| ReaderProtocol.FoundStoreWasInAMap | accounts-db/src/account_storage.rs:52-72 | A lookup finds only a store that was in one of the two maps, at that slot, at a moment when it read them. |
| ReaderProtocol.UndisturbedLookUpFinds | accounts-db/src/account_storage.rs:50-72 | In every reachable state, a lookup of what the index names, with nothing in between, succeeds at the first read unless the slot is being shrunk, and by the second at the latest. |
| ReaderProtocol.AllThreeReadsCanMiss | accounts-db/src/account_storage.rs:43-48 | A lookup can miss all three reads: a reachable state shows it, with entry and store cleaned away after the index was read. |
| ReaderProtocol.LockedLookUpFinds | accounts-db/src/accounts_db.rs:3508-3521 | A lookup made while the index entry is locked finds its store under every interleaving. |
| ReaderProtocol.TwoReadsCanMissANamedStore | accounts-db/src/account_storage.rs:313-333 | Without the third read a store the index names throughout can be missed: a reachable state shows it. |
| ReaderProtocol.StepKeepsInv | accounts-db/src/account_storage.rs:203-239 | Every step keeps index entries pointing at a store in the map or the shrink-in-progress map, as the stage of the shrink says. |
| WriteCache.AccountsCache.constructor | accounts-db/src/accounts_cache.rs:233-246 | An empty cache has exact totals. |
| WriteCache.InsertCounts | accounts-db/src/accounts_cache.rs:101-135 | Overwriting follows the size difference and inserting counts one more, so size and count stay exact. |
| WriteCache.AccountsCache.Store | accounts-db/src/accounts_cache.rs:287-313 | The account is in its slot and nothing else changes; reference counts, the slot bound, totals and the unique-key count stay exact. |
| WriteCache.AccountsCache.RemoveSlot | accounts-db/src/accounts_cache.rs:319-331 | The slot leaves, exactly the keys it alone held leave the index, and its size stays in the totals. |
| WriteCache.AccountsCache.ReleaseKeys | accounts-db/src/accounts_cache.rs:206-225 | Every key of a removed slot is found in the index and its count is positive, so the panic is unreachable; a key goes exactly when no slot holds it any more. |
| WriteCache.AccountsCache.DropDetached | accounts-db/src/accounts_cache.rs:56-64 | Dropping a removed slot cache takes its size and count off the totals, without underflow. |
| WriteCache.AccountsCache.AddRoot | accounts-db/src/accounts_cache.rs:384-386 | The new root's version of a key comes into view of exactly the banks that find none at their ancestors and have no older ancestor; for every other bank the search is unchanged. |
| WriteCache.AccountsCache.LoadLatest | accounts-db/src/accounts_cache.rs:335-378 | The two searches bounded by a possibly stale slot find the newest version of a full search: highest holding ancestor, else highest unflushed root no newer than any ancestor. |
| WriteCache.LoadLatestLeadsLookUp | accounts-db/src/accounts_db.rs:3764-3784 | A hit there answers the load; a miss leaves it to the index. |
| CacheWriter.WriteAccountsToCache | accounts-db/src/accounts_db.rs:5411-5459 | Backwards, with duplicates and invisible zero balances skipped, searching the half-written cache each time, the slot ends with the last account of each key that can be seen, and the flags say which positions were written. |
| CacheWriter.SearchedMidway | accounts-db/src/accounts_db.rs:5436-5446 | A search made in the middle of the batch finds for a key not met yet what it would have found before the batch. |
| CacheWriter.BackwardsLoadsLikeForwards | accounts-db/src/accounts_db.rs:5405-5410 | For the same ancestors, every load answers as if each account had been stored in order. |
| CacheWriter.ZeroWriteUnseen | accounts-db/src/accounts_db.rs:5386-5403 | Caching a zero balance for a key that answers as absent changes no load, at any slot. |
| StorageReader.AccountStorageReader.constructor | accounts-db/src/account_storage_reader.rs:94-133 | For disjoint excluded records, the announced length is the number of bytes outside them, each cut at the end of the file. |
| StorageReader.ExcludesRecords | accounts-db/src/account_storage_reader.rs:103-126 | The excluded bytes are exactly those of the obsolete records, header, data and padding, and of the tombstones when they are filtered out. |
| StorageReader.AccountStorageReader.Read | accounts-db/src/account_storage_reader.rs:149-187 | For any buffer and any short reads, the bytes returned are the next ones outside the excluded records, the rest of the buffer is untouched, and the buffer is filled unless the end is reached. |
| StorageReader.ReadInto | accounts-db/src/account_storage_reader.rs:149-187 | Over any sequence of buffers the concatenated output is a prefix of the kept bytes, and all of them, as many as announced, once a read returns nothing. |
| StorageReader.KeptLength | accounts-db/src/account_storage_entry.rs:132-143 | The kept bytes number the file less every excluded range cut at its end. |
| StorageReader.SortIs | accounts-db/src/account_storage_reader.rs:128-129 | Sorting by descending offset keeps the exclusions and makes the last the next one to skip. |
| AccountLocks.FindDuplicates | accounts-db/src/account_locks.rs:162-183 | The set-based and the pairwise check both say whether two positions hold the same key. |
| AccountLocks.ValidateAccountLocks | accounts-db/src/account_locks.rs:144-155 | Too many keys is reported before a duplicate key. |
| AccountLocks.ValidateBatch | accounts-db/src/accounts.rs:456-475 | A transaction asks for locks exactly when it had not failed and passes validation; an earlier failure is kept, too many keys fail as too many locks, and otherwise a repeated key as loaded twice. |
| AccountLocks.CanLockMeansNoConflict | accounts-db/src/account_locks.rs:93-102 | The counts let a transaction through exactly when it conflicts with no outstanding one. |
| AccountLocks.AccountLocks.CanLockAccounts | accounts-db/src/account_locks.rs:57-72 | The first key that cannot be locked fails the transaction, and only then. |
| AccountLocks.AccountLocks.LockAccounts | accounts-db/src/account_locks.rs:74-82 | Each key's count in its mode grows by its occurrences. |
| AccountLocks.AccountLocks.UnlockAccounts | accounts-db/src/account_locks.rs:47-55 | Each key's count falls by its occurrences and entries at zero go; the keys are always found. |
| AccountLocks.AccountLocks.TryLockTransactionBatch | accounts-db/src/account_locks.rs:23-41 | A transaction is locked exactly when it was valid and conflicts with no transaction outstanding before the batch; counts equal holders and different batches never conflict, afterwards as before. |
| AccountLocks.AccountLocks.Release | accounts-db/src/accounts.rs:478-494 | Ending an outstanding transaction gives back its locks and only those. |
| AccountLocks.AccountLocks.LockAndUnlockBatch | accounts-db/src/accounts.rs:456-494 | Unlocking a batch restores both lock maps exactly. |
| AccountLocks.HoldersDetermineLocks | accounts-db/src/account_locks.rs:12-17 | The lock maps are determined by the outstanding transactions. |
| StartupTotals.GenerateIndexForSlot | accounts-db/src/accounts_db.rs:5657-5815 | Scanning a storage indexes exactly its live records and adds exactly their total. |
| StartupTotals.BuildIndex | accounts-db/src/accounts_db.rs:5838-5905 | For every assignment of storages to threads and every order, the index lists each live record and the merged accumulators equal the total of all of them. |
| StartupTotals.MergeAny | accounts-db/src/accounts_db.rs:448-466 | A total may be added to any thread's accumulator without changing the merged result. |
| StartupTotals.VisitDuplicates | accounts-db/src/accounts_db.rs:6212-6267 | The duplicates' total is that of every version but the newest of each key, in any order. |
| StartupTotals.GenerateIndex | accounts-db/src/accounts_db.rs:5817-6093 | Capitalization is the sum of the lamports of each key's newest live version, data length the sum of the data sizes of those with lamports, and each lane of the lattice hash the sum of that lane of their hashes with wrap-around; removing the duplicates never underflows. |
| Totals.AddAssociates | lattice-hash/src/lt_hash.rs:38-42 | Adding totals, with lattice lanes wrapping at 16 bits, is associative. |
| Totals.SubUndoesAdd | lattice-hash/src/lt_hash.rs:47-51 | Mixing out what was mixed in restores the hash, lane by lane. |
| Capitalization.FromIndexIsSumOfLoads | accounts-db/src/accounts_db.rs:4714-4776 | Walking the index and correcting for the cached keys gives the sum of what a load answers for every key. |
| ScanRuns.ScanReportsNewest | accounts-db/src/accounts_db.rs:3240-3332 | Over runs that interleave scans, flushes, cleans, new roots and writes, a scan reports for a key what its bank saw when the scan began, whether it reads with its bank's ancestors or at the pinned root alone, whatever happens between its cache pass and its index read. |
| ScanRuns.ScanIsStable | accounts-db/src/accounts_scan.rs:160-228 | While a scan is under way, what its bank loads never changes and nothing new comes into its view. |
| ScanRuns.BoundsRespectScans | accounts-db/src/accounts_db.rs:1468-1480 | No flush or clean step reclaims past the root of any scan under way, also one begun after the bound was read, or it is a clean and nothing above that root is stored. |
| ScanRuns.EventKeepsSafe | accounts-db/src/accounts_scan.rs:107-152 | Every event keeps the job in progress sparing every scan under way and every scan that may still begin. |
| ScanRuns.FlushSafeIff | accounts-db/src/accounts_db.rs:4318-4330 | A cleaning flush leaves every load at a root alone, in all states, if and only if it is bounded at or below that root. |
| ScanRuns.FlushPastRootLosesVersion | accounts-db/src/accounts_db.rs:4398-4434 | A flush bounded past a root can leave a reader there without an account the root holds: an input for every such bound. |
| ScanRuns.CleanSafeIff | accounts-db/src/accounts_db.rs:1185-1208 | A clean leaves every load at a root alone, in all states, if and only if it is bounded at or below that root. |
| ScanRuns.CleanSafeUntilFlush | accounts-db/src/accounts_db.rs:1185-1208 | While nothing newer than the root is stored, a clean with any bound leaves every load there alone. |
| ScanRuns.CarefulIsExact | accounts-db/src/accounts_db.rs:1468-1480 | The bound a flush reads spares the scans under way and all later ones if and only if a scan is under way or a root no newer than the newest is proposed. |
| ScanRuns.CarelessFlushCanFailAScan | accounts-db/src/accounts_db.rs:4318-4352 | A reachable run in which a flush that read no bound drops an account that a scan begun afterwards needs. |
| ScanAccounts.MergePasses | accounts-db/src/accounts_db.rs:3284-3322 | Every key found in either pass is reported exactly once, with the newer version. |
| ScanAccounts.CachePassFinds | accounts-db/src/accounts_db.rs:3267-3282 | The cache search finds the newest cached version the bank sees. |
| ScanAccounts.IndexPassFinds | accounts-db/src/accounts_index.rs:436-470 | The index search, with roots bounded by the pinned one, finds the newest stored version the bank sees. |
| ScanAccounts.PassesReportNewest | accounts-db/src/accounts_db.rs:3284-3322 | When nothing new comes into view between the passes, the newer of the two finds answers like a load. |
| ScanTracker.ScanTracker.TryNew | accounts-db/src/accounts_scan.rs:107-152 | The root is pinned unless the bank was removed, and the counts equal the guards. |
| ScanTracker.ScanTracker.Drop | accounts-db/src/accounts_scan.rs:247-259 | The guard's root is still there, and one guard fewer pins it. |
| ScanTracker.ScanTracker.MaxCleanRoot | accounts-db/src/accounts_db.rs:1468-1480 | The bound is at or below the root of every scan under way and the proposed root, is one of them, and is missing only when there are neither. |
| StorageOrder.SelectInRange | accounts-db/src/account_storage.rs:496-513 | For every positive rate sum the selector stays in the range, without underflow. |
| StorageOrder.SelectIsInjective | accounts-db/src/account_storage.rs:496-513 | No two positions select the same index. |
| StorageOrder.WithSmallToLargeRatio | accounts-db/src/account_storage.rs:359-373 | Applying the selector to the index at each sorted place yields a permutation. |
| StorageOrder.ConsumeAll | accounts-db/src/account_storage.rs:447-461 | Under every interleaving of threads, with enough calls, each storage is taken exactly once. |
| ShrinkSelection.SelectCandidatesByTotalUsage | accounts-db/src/accounts_db.rs:2969-3048 | By increasing alive ratio, the shortest prefix whose projected ratio exceeds the goal is selected, or everything if none does; put off are exactly the others sparser than the goal; the byte total never underflows. |
| ShrinkSelection.SavedFits | accounts-db/src/accounts_db.rs:3030-3044 | The bytes saved by a prefix never exceed the bytes written, and stay below them while a candidate is left. |
| ShrinkSelection.Saved | accounts-db/src/accounts_db.rs:3030-3044 | What is saved and what is alive make up what is written, or nothing is saved. |
| LargestAccounts.LoadLargestAccounts | accounts-db/src/accounts.rs:256-303 | For any scan order over distinct keys, the result holds only nonzero accounts that pass the filter, by falling balance and, within one balance, falling key; one that passes is left out only if the result is full and all in it come before; the heap never exceeds the requested number. |

## Left out

- Files are sequences of records or of bytes: no file I/O, memory maps, direct I/O, file opening or paths.
- Offsets in storages are record positions; only the archive reader works with byte offsets.
- Storages inside `AccountsDb` are values in a map, so sharing of one storage between threads is not captured there; `ReaderProtocol` models the maps as separately readable, and `AccountStorageEntry` is the entry on its own.
- A shrink of `AccountsDb` is one operation; its intermediate states, with the new storage in the second map, are modelled in `ReaderProtocol` only.
- AccountsDb.AccountsDb.TakeFullSnapshot: taking a full snapshot is one step, with every root up to its slot flushed and nothing above it cleaned; the source sets the slot first and collects the storages later.
- AccountsDb.AccountsDb.AddRoot: roots come in increasing order.
- AccountsDb.AccountsDb.StoreCached: banks write only to slots above the newest root, as replay does.
- AccountsDb.AccountsDb.PurgeUnrooted: covers slots that are not roots; purging a rooted slot is for the snapshot minimizer only.
- AccountsDb.AccountsDb.CleanAccounts: takes any set of keys, so how candidates are gathered from dirty stores and uncleaned pubkeys is not modelled; an unbounded clean is one up to the newest root.
- AccountsDb.AccountsDb.SweepSlots: the choice of storages to add to the shrink candidates is not modelled.
- StoredSize and counters: integers are unbounded; 64-bit overflow of sizes, counts and lamports is not modelled, only the absence of underflow is proved.
- An account is its lamports and data; owner, executable flag and rent epoch are not modelled.
- The slot list of a key is a map from slot to entry; its order in memory is not modelled.
- ScanRuns.ScanReportsNewest: the scanned bank is frozen, its ancestors stay alive and become roots oldest first, and one flush or clean runs at a time, as the source arranges; aborting a scan is not modelled.
- CacheWriter.WriteAccountsToCache: the two searches come in as a function of the cache that agrees with a load of the store.
- ReaderProtocol.NoBadIndexEntry: a storage is removed only once no entry names it, as the accounting of `AccountsDb` guarantees; purging slots of a live bank, which the source rules out by the bank's lifetime, is not modelled, and nor is the number of retries.
- StartupTotals.GenerateIndex: the account hash is an arbitrary function to 1024 lanes; threads interleave storage by storage; marking duplicates obsolete after the totals is not modelled.
- ShrinkSelection.SelectCandidatesByTotalUsage: ratios are real numbers, so rounding of 64-bit floats is not modelled; neither is the stability of the sort.
- LargestAccounts.LoadLargestAccounts: the heap is a set with its least element; the layout of a binary heap is not modelled.
- StorageOrder.WithSmallToLargeRatio: takes the indices sorted by size as given; no interleaving by size is claimed.
- The disk index, secondary indexes, the read-only accounts cache, ancient packing and the snapshot minimizer.
- Metrics, logging, timings, geyser notification, thread pools and the RPC surface.
