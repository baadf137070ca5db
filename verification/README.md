# WasDB in Dafny

WasDB is a small relational engine. This project models its parts as Dafny programs and proves what they promise:

- the buffer pool, its two replacement policies and the rule that the log goes out before the page;
- the write-ahead log: record bytes, framing, recovery from a torn file, and log sequence numbers (LSNs) across crashes;
- the B+ tree over pinned pages, with its borrow and merge on deletion;
- the query layer: Volcano executors, the rewrite of a filter into an index scan, and external merge sort;
- the slotted page, as bytes;
- transaction states and row visibility, lock by lock;
- the lexer and parser of the SQL shell.

Code that changes state is a class whose methods are proved against functions of the old state; what the component
is for is then proved about those functions. `dafny verify dfyconfig.toml` checks everything.

| Files | Contents |
|---|---|
| `Util.dfy`, `Bytes.dfy`, `Tuples.dfy`, `Storage.dfy` | integers and bytes; rows, values and the lists that plans denote; pages and the disk |
| `Replacement.dfy`, `Lru.dfy`, `Clock.dfy`, `ClockHistory.dfy`, `Replacer.dfy` | the contract of a replacement policy, the two policies, the clock's second chances over whole histories, and the boxed policy the pool holds |
| `Wal.dfy`, `Log.dfy`, `LogFailures.dfy` | the record codec and recovery scan; the log manager across flushes, restarts and losses of power; what a log loses that is reopened torn or unflushed |
| `FlatPool.dfy`, `PoolModel.dfy`, `PoolProof.dfy`, `PoolRuns.dfy`, `PageNumbers.dfy`, `PolicySteps.dfy`, `LruPool.dfy`, `BufferPool.dfy` | what clients see of the pool, the pool as a transition system, its invariant, whole runs, the pages a process allocates, what the pool tells its policy, which page makes room under LRU, and the pool object |
| `BTreeModel.dfy`, `BTreeProof.dfy`, `BTreeUpdates.dfy`, `BTreeTrails.dfy`, `NodePool.dfy`, `NodeBytes.dfy`, `BTree.dfy`, `BTreeRanges.dfy`, `BTreeRuns.dfy`, `BTreeExamples.dfy`, `ThreeLeaves.dfy`, `LeafNode.dfy` | tree shape and meaning, updates, where leaf links lead, pinned pages read as nodes, the bytes of a node page, the index object, range searches behind a delete, runs of deletes, trees on which the index's unfinished parts show, the leaf buffer |
| `Executors.dfy`, `Optimizer.dfy`, `Sort.dfy` | executors, catalog and planner, external merge sort |
| `SlottedPage.dfy` | the slotted page |
| `Mvcc.dfy`, `Snapshots.dfy` | transactions and visibility, and when an answer is one that a snapshot would give |
| `Lexer.dfy`, `Parser.dfy`, `SqlRoundTrip.dfy`, `SqlForms.dfy` | tokens, statements, writing statements out, and exactly what is accepted |

## Where the code does less than its comments say

The models follow the code. In these places the code and its stated purpose part. The exact condition is proved, and
unless it names them itself, an input or a run on which they part:

- The log decoder asks for 25 bytes before reading a 23-byte insert header, so an insert with fewer than two data bytes is
  written and never recovered (`Wal.RecordRoundTrip`, `Wal.RecoversEverythingIff`, `Wal.ShortInsertIsLost`).
- A log reopened on a torn frame is not repaired. Every commit appended and flushed on the reopened log is recovered, with
  all that the log holds, if and only if the cut fell between frames (`LogFailures.AppendIsRecoveredIff`), which a caller
  can see from where the scan of the file ends (`LogFailures.OnBoundaryIff`); a commit that is lost is
  `LogFailures.TornTailLosesAppend`.
- Opening a log reports the whole file as flushed and syncs nothing. After a restart of the process alone, what is reported
  as flushed survives every loss of power if and only if the file was synced to its end: the old process had flushed after
  its last append (`Log.RestartIsSafeIff`; a forgotten commit is `LogFailures.RestartForgetsCommit`). Without that flush some
  later run of well-behaved clients puts a page on disk that is ahead of the log, and with it none does
  (`PoolRuns.RestartIsSafeIff`).
- A holder that writes a page and gives up its last pin clean loses the update when the frame is reused. Giving up a pin is
  safe exactly when another pin remains, the caller or the frame says dirty, or the frame equals the disk
  (`PoolProof.UnpinIsSafeIff`); after a last pin the same condition decides whether reuse of the frame keeps the page's
  contents (`PoolProof.ReuseAfterUnpinIff`; a losing run is `PoolProof.CleanUnpinLosesUpdate`).
- An LRU eviction panics exactly when the first unpinned frame in its queue is no frame of the pool; the pool never queues
  one (`Lru.LruReplacer.Evict`, `Lru.StrayAccessPanics`, `Lru.Refines`).
- Deleting by borrow or merge leaves the parent's separators as they were. Descent then misses a key that the chain has if
  and only if it is the borrowed key or one of the merged ones (`BTree.DescentAfterDelete`); a search that misses one is
  `BTreeExamples.BorrowedKeyIsMissed` and `BTreeExamples.MovedKeyIsMissed`. A range search is exact after a borrow; after a
  merge it misses exactly the moved keys in range, and only if it starts in the emptied leaf's interval
  (`BTreeRanges.RangeAfterDelete`, `BTreeExamples.MovedKeyIsNotInRange`).
- A leaf emptied by a merge stays its parent's child, and the next leaf may later be merged into it, off the chain. Over a
  run of deletes the chain holds, at every moment, the list less the deleted entries, if and only if no delete merges
  entries into a leaf that an earlier one emptied (`BTreeRuns.RunKeepsListIff`); a key that two deletes lose for the chain
  and for `search` is in `ThreeLeaves.StrayedKeyIsLost`.
- The capacity written into a new leaf's header exceeds the 340 array slots exactly for pages of 5480 bytes or more, and
  then, and only then, an insert runs past the array (`BTreeExamples.NoOverflowIff`); inserting 0, 1, 2 and so on gets there
  from an empty index (`BTreeExamples.InsertUntilStopped`). A merge can too (`BTree.MergeFits`, `BTreeExamples.MergeOverflows`).
- Writing a page back keeps the write-ahead rule exactly when the page's LSN field holds an LSN the log has issued. An index
  page keeps its node header there, which reads as an LSN of billions and outruns the log (`NodeBytes.WriteBackObeysIff`,
  `NodeBytes.IndexLeafOutrunsLog`).
- The optimizer answers a rewritten filter from the table's first index, whichever column was matched. This is right exactly
  when the predicate agrees with that index on every row, as it does with one primary-key column, and wrong with two
  (`Optimizer.RewriteIsSoundIff`, `Optimizer.TwoKeysMislead`).
- Sorting panics exactly when there are two rows or more and one lacks the column (`Sort.ExternalMergeSortExecutor.Init`).
- The slotted page's guard truncates the space required to 16 bits. An insertion is right if and only if that truncation does
  no harm; a record of 65516 bytes is never refused (`SlottedPages.InsertIsRightIff`).
- Visibility is called snapshot isolation but reads the live commit state, so a reader can get two answers about a row that
  does not change (`Snapshots.AnswersChange`). Two answers agree exactly when neither creator nor deleter commits in between
  to any effect (`Snapshots.AnswersAgreeIff`). A caller can see from the three sets whether an answer will stand: it does in
  every continuation if and only if the row is settled (`Snapshots.AnswerIsFinalIff`).

## Model

| member | source | states |
|---|---|---|
| Lru.Refines | wasdb_buffer/src/lru.rs:33-71 | on frames of the pool each LRU operation meets the replacement contract and none panics; a pin never makes LRU track a frame |
| Lru.QueueIsAccessOrder | wasdb_buffer/src/lru.rs:34-71 | after every history, of any frame numbers, the queue is ordered by the time of last access |
| Lru.EvictsLeastRecentlyUsed | wasdb_buffer/src/lru.rs:53-64 | after every history the victim is the tracked unpinned frame with the oldest last access; no victim means no such frame |
| Lru.StrayAccessPanics | wasdb_buffer/src/lru.rs:34-64 | an access to a frame beyond the capacity makes the next eviction panic |
| Lru.LruReplacer.RecordAccess | wasdb_buffer/src/lru.rs:34-44 | moves the frame to the back of the queue, touching nothing else, also for a frame beyond the capacity |
| Lru.LruReplacer.SetPin | wasdb_buffer/src/lru.rs:46-51 | sets the pin flag of a frame below the capacity, else nothing |
| Lru.LruReplacer.Evict | wasdb_buffer/src/lru.rs:53-64 | takes the first unpinned frame out of the queue, or changes nothing; panics exactly when that frame is beyond the capacity |
| Lru.LruReplacer.Remove | wasdb_buffer/src/lru.rs:66-71 | takes the frame out of the queue, keeping the order of the others |
| Lru.LruReplacer.Size | wasdb_buffer/src/lru.rs:73-76 | the queue length is the number of tracked frames |
| Clock.SecondChance | wasdb_buffer/src/clock.rs:65-107 | None exactly when no active frame is unpinned, and then nothing changes; else the nearest eligible frame with a clear bit, or the nearest eligible one if all bits were set; only bits swept over are cleared |
| ClockHistory.BitsAreAccesses | wasdb_buffer/src/clock.rs:43-117 | after every history from a new clock, read off what it was told and the victims it named: a frame is active, pinned and referenced exactly when the history says so, and its bit is set exactly when it was accessed and has since been neither swept over, evicted nor removed |
| ClockHistory.EvictsSecondChance | wasdb_buffer/src/clock.rs:65-107 | the next victim told from the history alone: the nearest frame to the hand that may go and is not referenced, or the nearest if all are, or none |
| ClockHistory.AccessedIsSpared | wasdb_buffer/src/clock.rs:65-107 | a frame accessed since the last eviction is not the victim while some frame that may go is not referenced |
| Clock.Refines | wasdb_buffer/src/clock.rs:43-117 | access, pin and remove meet the replacement contract; a pin does make the clock track a frame |
| Clock.EvictRefines | wasdb_buffer/src/clock.rs:65-107 | eviction meets the replacement contract |
| Clock.ClockReplacer.RecordAccess | wasdb_buffer/src/clock.rs:43-52 | sets the reference bit of a frame of the pool and activates it, keeping `size` equal to the number of active frames |
| Clock.ClockReplacer.SetPin | wasdb_buffer/src/clock.rs:54-63 | sets the pin flag and activates the frame |
| Clock.ClockReplacer.Evict | wasdb_buffer/src/clock.rs:65-107 | the sweep finds the victim that its closed form names, within two full circles of the hand |
| Clock.ClockReplacer.Remove | wasdb_buffer/src/clock.rs:109-117 | forgets an active frame and its flags |
| Clock.ClockReplacer.Size | wasdb_buffer/src/clock.rs:119-122 | the counter is the number of active frames |
| Replacer.Policy.RecordAccess | wasdb_buffer/src/replacer.rs:2-4 | either policy tracks a frame of the pool after an access; for any other number the clock does nothing and LRU tracks it, which a later eviction may trip over |
| Replacer.Policy.SetPin | wasdb_buffer/src/replacer.rs:8-8 | either policy records the pin of a frame of the pool and tracks at most that frame in addition; any other number changes nothing |
| Replacer.Policy.Evict | wasdb_buffer/src/replacer.rs:12-12 | either policy gives up a tracked unpinned frame, or None exactly when there is none |
| Replacer.Policy.Remove | wasdb_buffer/src/replacer.rs:16-16 | either policy stops tracking a frame of the pool; any other number changes nothing |
| Wal.RecordRoundTrip | wasdb_wal/src/lib.rs:28-101 | decoding what was encoded returns the record and its length, whatever follows, exactly when an insert's data and trailing bytes make at least two; otherwise it is rejected |
| Wal.DecodedIsEncoded | wasdb_wal/src/lib.rs:28-101 | whatever bytes the decoder accepts are what encoding the record gives back |
| Util.LeBytesMeans | wasdb_wal/src/lib.rs:37-53 | an integer is written least significant byte first: byte k is worth 256 to the power k |
| Wal.FrameFields | wasdb_wal/src/lib.rs:129-142 | a frame is the payload's length in four bytes, the LSN in eight, and the payload |
| Wal.ReadFrame | wasdb_wal/src/lib.rs:168-188 | one turn of the scan: stops on an incomplete frame, else consumes exactly one frame |
| Wal.Recover | wasdb_wal/src/lib.rs:160-191 | the cursor loop computes the recursive scan, and terminates |
| Wal.RecoverTruncated | wasdb_wal/src/lib.rs:160-191 | for every list of entries and every cut, recovery yields the decodable records wholly before the cut, in order |
| Wal.WhollyInsideIsMaximal | wasdb_wal/src/lib.rs:137-139 | the entries wholly before a cut are as many as fit |
| Wal.RecoversEverythingIff | wasdb_wal/src/lib.rs:160-191 | a complete log is recovered in full exactly when every insert has two data bytes |
| Wal.ShortInsertIsLost | wasdb_wal/src/lib.rs:63-65 | a one-byte insert is lost |
| Log.Appended | wasdb_wal/src/lib.rs:129-142 | appending keeps the log invariant, that LSNs never exceed the file length, and the truth of the counters: flushed LSNs lie in the synced prefix, and they are all issued ones exactly when the whole file is synced |
| Log.Crashed | wasdb_wal/src/lib.rs:111-127 | reopening after a loss of power that leaves any prefix no shorter than the synced part keeps the log invariant and makes the counters true |
| Log.Restarted | wasdb_wal/src/lib.rs:111-127 | reopening in a new process, with nothing synced meanwhile, leaves the counters true exactly when the whole file had been synced |
| Log.RestartIsSafeIff | wasdb_wal/src/lib.rs:111-150 | every entry that the log reopened in a new process reports as flushed survives every loss of power if and only if the whole file had been synced |
| LogFailures.RestartForgetsCommit | wasdb_wal/src/lib.rs:111-127 | a commit never flushed is reported as flushed after reopening, and a loss of power takes it |
| Log.CrashLosesNothingFlushed | wasdb_wal/src/lib.rs:111-150 | if flushed LSNs lie in the synced prefix, every flushed entry survives; the next LSN is above every surviving entry's |
| Log.AppendStaysTiled | wasdb_wal/src/lib.rs:129-142 | a log that is exactly its entries' frames, end to end, still is after an append |
| Log.FlushedEntriesAreRecovered | wasdb_wal/src/lib.rs:144-191 | from a log that is exactly its entries, recovery after any crash yields the decodable entries of a prefix of the history, past every flushed entry if flushed LSNs lie in the synced prefix |
| LogFailures.AppendIsRecoveredIff | wasdb_wal/src/lib.rs:111-191 | after a loss of power and reopening, every commit appended and flushed is recovered with all that the log holds, if and only if the cut fell between frames |
| LogFailures.OnBoundaryIff | wasdb_wal/src/lib.rs:168-188 | the cut fell between frames exactly when the scan of the surviving file ends at its last byte |
| LogFailures.TornTailLosesAppend | wasdb_wal/src/lib.rs:111-191 | for any two commits, a crash that leaves one byte of the first, and the second appended and flushed after reopening: recovery yields nothing |
| Log.RunStaysTiled | wasdb_wal/src/lib.rs:111-150 | over every run of append, flush, restart and loss of power between frames, from an empty file, the log is exactly its entries |
| Log.RunStaysTruthful | wasdb_wal/src/lib.rs:111-150 | over such a run whose processes flush before they end, what is reported as flushed is synced, and the counters tell whether that is everything |
| Log.RunIsRecovered | wasdb_wal/src/lib.rs:111-191 | after every such run, recovery from any loss of power yields the decodable entries of a prefix of what was appended; the prefix reaches past every entry reported as flushed if processes flushed before they ended |
| Log.LogManager.constructor | wasdb_wal/src/lib.rs:111-127 | opening takes the file length for the last LSN and the last flushed one, and syncs nothing |
| Log.LogManager.AppendRecord | wasdb_wal/src/lib.rs:129-142 | the three writes append one frame; the LSN returned is the one in it |
| Log.LogManager.Flush | wasdb_wal/src/lib.rs:144-150 | syncs the whole file and reports every issued LSN as flushed |
| Storage.FileIsPageMap | wasdb_storage/src/lib.rs:68-100 | the byte file reads back what was written to a page and no other page changes, over gaps and a ragged end: it is a map from page numbers to pages, zero by default |
| Storage.BasicDiskManager.constructor | wasdb_storage/src/lib.rs:46-64 | a file of any length stands for the map of the pages it shows |
| Storage.BasicDiskManager.ReadPage | wasdb_storage/src/lib.rs:68-91 | byte `k` of the page is byte `page * PAGE_SIZE + k` of the file, or zero past its end; so the page is the map's |
| Storage.BasicDiskManager.WritePage | wasdb_storage/src/lib.rs:93-100 | changes those bytes of the file and no others, extending it as needed, so that the map changes at that page alone |
| Storage.BasicDiskManager.AllocatePage | wasdb_storage/src/lib.rs:102-108 | hands out the number that the counter shows, in file 0; the counter moves on by one and wraps at 32 bits; no byte changes |
| Storage.DiskManager.ReadPage | wasdb_storage/src/lib.rs:28-33 | the trait as its clients know it: reads the map |
| Storage.DiskManager.WritePage | wasdb_storage/src/lib.rs:28-33 | updates the map at one page |
| Storage.DiskManager.AllocatePage | wasdb_storage/src/lib.rs:28-33 | the same for the trait; no page changes |
| PoolProof.FetchKeeps | wasdb_buffer/src/buffer_pool.rs:107-158 | fetching keeps the pool invariant, adds one pin to the page and moves no bytes that a client can see |
| PoolProof.FetchFailsIff | wasdb_buffer/src/buffer_pool.rs:92-103 | a fetch fails exactly when the page is absent and every frame is pinned, and then changes nothing |
| PoolProof.NewPageKeeps | wasdb_buffer/src/buffer_pool.rs:220-224 | a new page has the number that the disk's counter showed, in file 0, and is fetched and pinned |
| PageNumbers.NewPagesDiffer | wasdb_storage/src/lib.rs:102-108 | over every run of one process two pages handed out are the same exactly when a multiple of 2^32 calls lies between them: fewer calls give different pages, and numbers that ascend from the counter at the start until it wraps |
| PageNumbers.NewPagesAreBeyondFile | wasdb_storage/src/lib.rs:46-64 | over a file just opened, page numbers handed out lie beyond every whole page of the file |
| PoolProof.UnpinKeeps | wasdb_buffer/src/buffer_pool.rs:161-176 | unpinning takes one pin away and keeps the invariant, if the last pin of a changed page is given up dirty |
| PoolProof.UnpinIsSafeIff | wasdb_buffer/src/buffer_pool.rs:161-176 | giving up a pin leaves the pool in order exactly when another pin remains, the caller says dirty, the frame was dirty, or it equals the disk |
| PoolProof.ReuseAfterUnpinIff | wasdb_buffer/src/buffer_pool.rs:125-176 | once the last pin is given up, reuse of the frame for another page keeps the contents exactly when the caller said dirty, the frame was dirty, or it equals the disk |
| PoolProof.CleanUnpinLosesUpdate | wasdb_buffer/src/buffer_pool.rs:125-176 | a run of a one-frame pool in which a page written and unpinned clean has its old contents again |
| PoolProof.SpareFrameServes | wasdb_buffer/src/buffer_pool.rs:92-103 | a fetch succeeds if the pinned pages are fewer than the frames |
| PoolProof.WriteKeeps | wasdb_buffer/src/buffer_pool.rs:215-217 | a holder's write changes that page and no other |
| PoolProof.FlushPageKeeps | wasdb_buffer/src/buffer_pool.rs:179-191 | flushing a page puts its contents on disk and changes nothing visible |
| PoolProof.FlushAllReachesDisk | wasdb_buffer/src/buffer_pool.rs:194-207 | afterwards the disk alone holds every page that has no writer outstanding |
| PoolRuns.StepKeepsInv | wasdb_buffer/src/buffer_pool.rs:107-224 | every step keeps the invariant: page table and descriptors mutually inverse, resident frames tracked, pin flags right, clean frames equal to the disk |
| PoolRuns.CacheTransparency | wasdb_buffer/src/buffer_pool.rs:107-224 | over every run and every choice of victims the pool equals a flat map from page ids to bytes, also through pinned frames |
| PoolRuns.PinnedFrameIsNotReplaced | wasdb_buffer/src/buffer_pool.rs:92-158 | a pinned frame keeps its page in every step, and its bytes unless written |
| LruPool.LeastRecentlyFetchedMakesRoom | wasdb_buffer/src/buffer_pool.rs:91-158 | over every run of one process with LRU: when a page takes over a frame that holds another, nobody holds that one, and of all pages in the pool that nobody holds it was fetched longest ago |
| LruPool.QueueIsFetchOrder | wasdb_buffer/src/buffer_pool.rs:107-158 | the queue is ordered by when each frame's page was last fetched, found in the pool or not |
| PoolRuns.FlushedPoolSurvivesCrash | wasdb_buffer/src/buffer_pool.rs:194-207 | after a full flush with no writer outstanding a crash loses nothing |
| PoolRuns.WalBeforeData | wasdb_buffer/src/buffer_pool.rs:82-89 | over every run with losses of power, restarts, appends and log flushes whose writers stamp pages with issued LSNs and whose processes flush the log before they end: no page on disk has an LSN beyond the flushed one, every record up to it is in the synced prefix, and later LSNs are above all that survives |
| PoolRuns.RestartIsSafeIff | wasdb_wal/src/lib.rs:111-150 | a new process over the same log keeps pages on disk behind the flushed log in every later such run, if and only if the old one had flushed the log after its last append |
| PoolRuns.UnflushedRestartBreaksRule | wasdb_wal/src/lib.rs:111-127 | otherwise a run of four steps of the new process breaks that |
| PoolRuns.CrashInsideSave | wasdb_buffer/src/buffer_pool.rs:82-150 | a crash between the log flush and the page write of one save is a crash after a log flush, so such runs cover it |
| PoolRuns.FreshPoolIsSafe | wasdb_buffer/src/buffer_pool.rs:34-62 | a new pool over blank storage is where such runs start |
| BufferPool.FrameDescriptor.Pin | wasdb_buffer/src/frame.rs:34-36 | adds one pin and leaves page and dirty flag alone |
| BufferPool.FrameDescriptor.Unpin | wasdb_buffer/src/frame.rs:28-31 | takes one of the pins held; at zero the count wraps at 32 bits and the call fails |
| BufferPool.BufferPoolManager.constructor | wasdb_buffer/src/buffer_pool.rs:34-62 | every frame empty, unpinned and clean, and initialised pages with LSN zero |
| BufferPool.BufferPoolManager.FlushWal | wasdb_buffer/src/buffer_pool.rs:82-89 | syncs the log and reports all of it as flushed exactly when the page's LSN is beyond the flushed one; otherwise the log stays as it is |
| BufferPool.BufferPoolManager.FindVictimFrame | wasdb_buffer/src/buffer_pool.rs:92-103 | the first empty frame, else an evictable one, else the error |
| BufferPool.BufferPoolManager.FetchPage | wasdb_buffer/src/buffer_pool.rs:107-158 | takes a fetch step, shows clients one more pin or an unchanged pool, and succeeds if a frame holds no pinned page; a page brought in has one pin and is clean; tells the policy that its frame is pinned and accessed, found or not, and asks for a victim only when no frame is empty |
| BufferPool.BufferPoolManager.UnpinPage | wasdb_buffer/src/buffer_pool.rs:161-176 | takes an unpin step for any caller, panicking on a resident page without a pin; shows clients one pin less if the caller did its duty; tells the policy of a last pin only |
| BufferPool.BufferPoolManager.FlushPage | wasdb_buffer/src/buffer_pool.rs:179-191 | log first, then the page; the page is then on disk and its frame clean; invisible to clients |
| BufferPool.BufferPoolManager.FlushAllPages | wasdb_buffer/src/buffer_pool.rs:194-207 | afterwards no frame is dirty and the disk has every page without an outstanding writer |
| BufferPool.BufferPoolManager.ReadPage | wasdb_buffer/src/buffer_pool.rs:210-212 | a pinned frame shows its page's contents |
| BufferPool.BufferPoolManager.WritePage | wasdb_buffer/src/buffer_pool.rs:215-217 | changes the page of a pinned frame and no other |
| BufferPool.BufferPoolManager.NewPage | wasdb_buffer/src/buffer_pool.rs:220-224 | hands out the number that the disk's counter shows, which moves on by one, and fetches that page |
| BTreeProof.TreeIsAscending | wasdb_btree/src/tree.rs:115-226 | the leaves of a well-formed tree, read along their links, form one strictly ascending list |
| BTreeProof.LeafIsUnique | wasdb_btree/src/tree.rs:115-146 | at most one leaf's interval contains a key |
| BTreeProof.LookupInLeaf | wasdb_btree/src/tree.rs:148-165 | looking a key up in that leaf is looking it up in the whole tree |
| BTreeProof.LookupMeans | wasdb_btree/src/tree.rs:148-165 | lookup finds a binding exactly when there is one |
| BTreeProof.InRangeMeans | wasdb_btree/src/tree.rs:204-213 | the values in a range are those at exactly the places whose keys lie in it, both ends included, in list order |
| BTreeProof.InsertedMeans | wasdb_btree/src/tree.rs:82-105 | ordered insertion of a new key adds that binding, keeps all others and the order |
| BTreeProof.WithoutMeans | wasdb_btree/src/tree.rs:238-252 | removal takes out that binding, keeps all others and the order |
| BTreeUpdates.InsertLands | wasdb_btree/src/tree.rs:73-105 | inserting into the key's leaf keeps the tree well formed and inserts into its list |
| BTreeUpdates.DeleteLands | wasdb_btree/src/tree.rs:238-252 | deleting from the key's leaf keeps the tree well formed and deletes from its list |
| BTreeUpdates.BorrowKeepsChain | wasdb_btree/src/tree.rs:307-330 | a borrow leaves the linked list of entries as it was |
| BTreeUpdates.MergeKeepsChain | wasdb_btree/src/tree.rs:331-352 | a merge leaves the list as it was, on a chain shorter by the emptied leaf |
| BTreeUpdates.SiblingIsNeighbour | wasdb_btree/src/tree.rs:273-285 | the child before a leaf under its parent is its left neighbour in the chain |
| BTree.BinarySearch | wasdb_btree/src/tree.rs:158-160 | finds the key's slot exactly when the leaf binds it |
| BTree.BTreeIndex.constructor | wasdb_btree/src/tree.rs:25-34 | opens an empty index, or the tree already in the pool under a given root |
| BTree.BTreeIndex.FindLeafPage | wasdb_btree/src/tree.rs:115-146 | descent terminates at the leaf whose interval holds the key, with one pin on it and no other pin changed; it needs one frame without a pinned page |
| BTree.BTreeIndex.Search | wasdb_btree/src/tree.rs:148-165 | in a tree in order answers lookup in the tree's list, else what the leaf reached by descent holds; leaves every pin as it was and fails only if no frame is free of pinned pages |
| BTree.BTreeIndex.RangeSearch | wasdb_btree/src/tree.rs:183-226 | in a tree in order returns exactly the values of the keys in the range, in key order; else those along the links from the leaf that descent reaches, if links lead from every leaf along an ascending list to an end; the walk terminates and keeps one pin on the first leaf; two frames without pinned pages are enough |
| BTree.BTreeIndex.Insert | wasdb_btree/src/tree.rs:36-113 | adds exactly one binding keeping the tree well formed, or changes nothing; a bound key is reported as a duplicate whenever the pool serves the fetch, also in a full leaf, and else the key's leaf decides; pins as before on every return; one frame without a pinned page is enough |
| BTree.InsertSlot | wasdb_btree/src/tree.rs:84-100 | the search and shift loops perform ordered insertion |
| BTree.RemoveSlot | wasdb_btree/src/tree.rs:247-252 | the shift loop removes just one slot |
| BTree.MoveLast | wasdb_btree/src/tree.rs:309-327 | moves the left leaf's last entry to the front of the right one |
| BTree.MoveAll | wasdb_btree/src/tree.rs:339-349 | appends the right leaf's entries to the left one, which takes over its link |
| BTree.BTreeIndex.UseLeftSibling | wasdb_btree/src/tree.rs:297-357 | borrows exactly when the sibling has entries to spare, else merges, or aborts exactly when the merge exceeds the array |
| BTree.BTreeIndex.Delete | wasdb_btree/src/tree.rs:228-384 | on any tree that descent works on, the slots of the key's leaf and its left sibling decide between shift, borrow, merge and abort, and what both leaves then hold, and descent still works; in a tree in order the chain's list loses exactly the deleted entry and stays linked and ascending; pins restored; absent keys change nothing; two frames without pinned pages are enough |
| BTree.SiblingKeepsChain | wasdb_btree/src/tree.rs:297-357 | whichever the sibling is used for, the chain still holds the same ascending list |
| BTree.DescentAfterDelete | wasdb_btree/src/tree.rs:115-357 | after a delete descent still ends at a leaf, and the answer there is the chain's if and only if the key is neither the borrowed one nor one that a merge moved |
| BTree.DeleteKeepsTree | wasdb_btree/src/tree.rs:228-384 | on a tree in order, whatever a delete comes to: the key is absent exactly when that is reported, and else its entry alone leaves the chain |
| BTree.BorrowHidesOneKey | wasdb_btree/src/tree.rs:307-330 | using the sibling to borrow: descent answers for a key as the chain does exactly when it is not the borrowed one |
| BTree.MergeHidesMovedKeys | wasdb_btree/src/tree.rs:331-352 | using the sibling to merge: exactly when it is none of the moved ones |
| BTree.MergeFits | wasdb_btree/src/tree.rs:331-352 | a merged leaf stays below the header's capacity; an overrun needs a header that claims more than the array has |
| BTreeRanges.RangeAfterDelete | wasdb_btree/src/tree.rs:183-357 | behind a delete a range search still ends, and what it returns is the list in range, except that behind a merge one that starts in the emptied leaf misses exactly the moved entries in range |
| BTreeRuns.RunKeepsListIff | wasdb_btree/src/tree.rs:228-384 | from a tree in order, over every run of deletes whatever each comes to: the chain holds at every moment the list less the deleted entries, if and only if no delete merges entries into a leaf that an earlier one emptied |
| BTreeRuns.StepStaysWorn | wasdb_btree/src/tree.rs:273-352 | a delete that does not do so takes its entry alone out of the leaves still on the chain, and the others stay empty |
| BTreeRuns.StrayLosesEntries | wasdb_btree/src/tree.rs:331-352 | a delete that does so leaves no chain from the first leaf that holds the rest |
| BTreeExamples.TwoLeavesAreTree | wasdb_btree/src/tree.rs:115-146 | a root with one separator over any two ascending leaves on their sides of it is a tree in order |
| BTreeExamples.DeleteThenSearch | wasdb_btree/src/tree.rs:148-357 | on every such tree whose right leaf underflows, the delete does what the two sizes say, and a search after it answers as the chain exactly for the keys not hidden |
| BTreeExamples.BorrowedKeyIsMissed | wasdb_btree/src/tree.rs:307-330 | a delete that borrows, and a search that misses the borrowed key |
| BTreeExamples.MovedKeyIsMissed | wasdb_btree/src/tree.rs:331-352 | a delete that merges, and a search that misses a moved key |
| BTreeExamples.DeleteThenRange | wasdb_btree/src/tree.rs:183-357 | likewise a range search after it: exact after a borrow, and after a merge less the moved entries if it starts right of the separator |
| BTreeExamples.MovedKeyIsNotInRange | wasdb_btree/src/tree.rs:183-352 | a delete that merges, and a range search that lacks a moved key |
| ThreeLeaves.StrayedKeyIsLost | wasdb_btree/src/tree.rs:148-357 | two deletes from three leaves, after which neither the chain nor a search has a key that was not deleted |
| BTreeExamples.MergeOverflows | wasdb_btree/src/tree.rs:339-349 | two leaves of 255 entries under headers of 510 slots: the merge runs past the array |
| BTreeExamples.InsertUntilStopped | wasdb_btree/src/tree.rs:36-113 | ascending inserts into an empty index succeed until the root leaf is full, and then ask for a split below 5480 bytes a page and run past the array from there on |
| BTreeExamples.NoOverflowIff | wasdb_btree/src/tree.rs:47-50 | no insert into a tree whose leaves have a new root's capacity runs past the array, if and only if pages are below 5480 bytes |
| NodeBytes.LeafReadsBack | wasdb_btree/src/node.rs:24-43 | whatever leaf is stored field by field in a page is what the page then shows as a node |
| NodeBytes.PinningLifts | wasdb_btree/src/tree.rs:123-143 | fetching and unpinning pages under the pool's contract is fetching and unpinning nodes |
| NodeBytes.WritingLifts | wasdb_btree/src/tree.rs:70-103 | storing a leaf through the write guard of a held page writes that node and no other |
| NodeBytes.WriteBackObeysIff | wasdb_buffer/src/buffer_pool.rs:82-89 | saving a page keeps every disk page behind the flushed log exactly when its LSN field holds an issued LSN |
| NodeBytes.LeafLsn | wasdb_btree/src/node.rs:24-32 | the node header, read as an LSN, is at least 2^32 times the leaf's capacity |
| NodeBytes.IndexLeafOutrunsLog | wasdb_buffer/src/buffer_pool.rs:82-89 | so saving an index leaf breaks that rule until the log has issued as many LSNs |
| LeafNode.InsertedFirstMeans | wasdb_btree/src/node.rs:68-90 | the leaf buffer's insertion is the tree's for a new key; for a present key it shadows the binding and breaks the strict order |
| LeafNode.LeafBuffer.constructor | wasdb_btree/src/node.rs:54-66 | an empty leaf with the given capacity |
| LeafNode.LeafBuffer.Insert | wasdb_btree/src/node.rs:68-90 | in place on the arrays; refused exactly when the header says full, and aborting exactly when the header has room and the array has none |
| Tuples.ValueOrder | wasdb_query/src/executors.rs:7-12 | the derived comparison totally orders all values, so no comparison falls back to equality |
| Tuples.LeqMeans | wasdb_query/src/executors.rs:7-12 | what the comparison is: integers by size, before all strings, these in dictionary order, before all booleans, false first |
| Tuples.JoinIsSelection | wasdb_query/src/executors.rs:165-186 | a join's rows are as many as the matching pairs of the product and in its left-major order |
| Tuples.PairsAreLeftMajor | wasdb_query/src/executors.rs:165-186 | the product lists each left row with all right rows in turn |
| Tuples.JoinRowsMean | wasdb_query/src/executors.rs:172-176 | each row of a join, by index: the values of the left row of its pair, then those of the right one, and no transaction |
| Tuples.JoinRowsMembers | wasdb_query/src/executors.rs:165-186 | a row is in a join exactly when some matching left and right row make it so |
| Executors.SeqScanExecutor.Next | wasdb_query/src/executors.rs:83-96 | delivers the next row that the transaction manager, asked at the call, finds visible, or the end |
| Executors.SeqScanExecutor.WithMvcc | wasdb_query/src/executors.rs:62-75 | a scan over a shared transaction manager, judging rows by it as it stands |
| Executors.SeesMeans | wasdb_tx/src/lib.rs:93-115 | the rows such a scan lets through: created by its transaction or a committed one, and deleted by neither |
| Executors.IndexScanExecutor.Init | wasdb_query/src/index_scan.rs:25-35 | keeps only the rows with the key, for good; repeating it changes nothing more |
| Executors.IndexScanExecutor.Next | wasdb_query/src/index_scan.rs:37-45 | delivers the next kept row, or the end |
| Executors.Retain | wasdb_query/src/index_scan.rs:28-34 | the retained list is the selection, in order |
| Executors.FilterExecutor.Next | wasdb_query/src/executors.rs:119-126 | delivers the next row of the child that passes, and terminates |
| Executors.NestedLoopJoinExecutor.Init | wasdb_query/src/executors.rs:159-163 | whatever was left, owes the whole join again |
| Executors.NestedLoopJoinExecutor.Next | wasdb_query/src/executors.rs:165-186 | delivers the next matching pair in left-major order as one row, left values first, restarting the right side per left row, and terminates |
| Executors.Executor.Init | wasdb_query/src/executors.rs:32-34 | for any nesting, at any moment, restarts the same list |
| Executors.Executor.Next | wasdb_query/src/executors.rs:35-36 | for any nesting, takes the first pending row, or reports the end and stays there |
| Executors.Build | wasdb_query/src/optimizer.rs:37-121 | boxes a plan tree into executor objects that denote the same list |
| Executors.Run | wasdb_query/src/executors.rs:32-36 | `init` then `next` to the end yields exactly the denoted list, from any state |
| Optimizer.Catalog.CreateTable | wasdb_catalog/src/catalog.rs:23-58 | refuses a taken name; else adds the table with one index per primary-key column, in column order |
| Optimizer.KeyColumnsMeans | wasdb_catalog/src/catalog.rs:33-47 | the indexed columns are exactly the primary-key columns |
| Optimizer.RewriteIsSoundIff | wasdb_query/src/optimizer.rs:77-114 | a rewritten filter answers as the filter would exactly when the predicate agrees with the first index on every row |
| Optimizer.IndexIsUsedIff | wasdb_query/src/optimizer.rs:84-108 | a filter becomes an index scan exactly when it is over a plain scan and its match names an indexed column |
| Optimizer.DirectMeans | wasdb_query/src/optimizer.rs:37-121 | a plan compiled as written denotes its meaning, given straight from the tables: all rows, the rows whose first indexed column holds the key, the rows that pass, the matching pairs |
| Optimizer.FailsIff | wasdb_query/src/optimizer.rs:41-62 | a plan has no meaning exactly when a table is missing or an index scan finds no index |
| Optimizer.OptimizeIsSound | wasdb_query/src/optimizer.rs:37-121 | with unique column names and one primary key at most, optimizing succeeds or fails as direct compilation does, with the same rows in the same order |
| Optimizer.TwoKeysMislead | wasdb_query/src/optimizer.rs:57-66 | with two primary keys a sound match on the second is answered wrongly |
| Optimizer.Answer | wasdb_query/src/optimizer.rs:37-121 | planned, built and run, a query yields exactly the meaning of its plan, in order, and fails exactly when a table is missing or an index scan finds no index |
| Sort.SortChunkSorts | wasdb_query/src/sort.rs:98-104 | a chunk is sorted into a permutation of itself |
| Sort.SortChunkIsStable | wasdb_query/src/sort.rs:98-104 | rows of a chunk with equal values keep their order |
| Sort.AdvanceKeeps | wasdb_query/src/sort.rs:148-161 | popping keeps the heap holding exactly the head of each unexhausted run and takes one row out of what remains |
| Sort.LeastIsMinimum | wasdb_query/src/sort.rs:29-36 | a head that no other head precedes precedes every unread row |
| Sort.PopRunKeeps | wasdb_query/src/sort.rs:148-166 | over every run of pops, however ties break, what has come out is sorted, precedes what has not, and is all that is missing |
| Sort.DrainSorts | wasdb_query/src/sort.rs:148-166 | so draining puts out every row once, in order |
| Sort.SortedMeans | wasdb_query/src/sort.rs:29-36 | sorted means: of any two rows the earlier has the smaller or equal value in the order spelled out |
| Sort.IntegersAscend | wasdb_query/src/sort.rs:29-36 | in that order integers ascend and come before all other values |
| Sort.ExternalMergeSortExecutor.WriteRuns | wasdb_query/src/sort.rs:69-83 | cuts the child's rows into sorted runs of a hundred rows, the last perhaps shorter, losing none |
| Sort.ExternalMergeSortExecutor.FlushChunk | wasdb_query/src/sort.rs:98-115 | appends the sorted chunk as a run |
| Sort.ExternalMergeSortExecutor.FillHeap | wasdb_query/src/sort.rs:85-96 | moves the head of each run to the heap, losing no row |
| Sort.ExternalMergeSortExecutor.Init | wasdb_query/src/sort.rs:140-146 | from any state, what remains to come out is the child's whole list; panics exactly when there are two rows or more and one lacks the column |
| Sort.ExternalMergeSortExecutor.Next | wasdb_query/src/sort.rs:148-166 | puts out a least row of those still to come, or None exactly at the end |
| Sort.ExternalMergeSortExecutor.Drain | wasdb_query/src/sort.rs:139-166 | `init` then `next` to the end yields the child's rows, each as often as it was there, ascending in the column by the order spelled out; or the panic of `init`, exactly when there are two rows or more and one lacks the column |
| SlottedPages.RecordsTile | wasdb_page/src/lib.rs:116-166 | records tile the space from the upper bound to the end of the page |
| SlottedPages.RecordsApart | wasdb_page/src/lib.rs:116-166 | no two records overlap |
| SlottedPages.PageLayout | wasdb_page/src/lib.rs:6-28 | where each header field, each slot's offset and length, and each record's xmin, xmax and bytes lie in a page |
| SlottedPages.InsertIsRightIff | wasdb_page/src/lib.rs:116-166 | an insertion takes the record exactly when it and its slot fit, keeping all others, if and only if the 16-bit guard is exact |
| SlottedPages.LongRecordPassesGuard | wasdb_page/src/lib.rs:119-127 | no page refuses a record of 65516 bytes, and none can hold it |
| SlottedPages.GetReturnsStored | wasdb_page/src/lib.rs:95-114 | every slot returns just what is stored there, other slots nothing |
| SlottedPages.MarkKeeps | wasdb_page/src/lib.rs:168-189 | marking changes one xmax and nothing else on the page |
| SlottedPages.InitRealises | wasdb_page/src/lib.rs:48-62 | an initialised page holds no records, and has LSN zero, no next page and no flags |
| SlottedPages.RunRealises | wasdb_page/src/lib.rs:95-189 | through every run of insertions and deletions the bytes hold exactly the list of records, with the directory below them |
| SlottedPages.RecordStays | wasdb_page/src/lib.rs:168-189 | through every run a record keeps its slot, bytes and xmin, and has the last xmax marked |
| SlottedPages.InsertedIsReturned | wasdb_page/src/lib.rs:95-189 | what was inserted at any moment is what its slot returns after any later run |
| SlottedPages.ApplyKeepsLsn | wasdb_page/src/lib.rs:116-189 | record operations leave the page LSN and next-page link alone |
| SlottedPages.SlottedPage.Init | wasdb_page/src/lib.rs:48-62 | in place: the empty page |
| SlottedPages.SlottedPage.InsertRecord | wasdb_page/src/lib.rs:116-166 | in place, byte for byte the insertion above; returns the next slot or refuses exactly when the record does not fit |
| SlottedPages.SlottedPage.GetRecord | wasdb_page/src/lib.rs:95-114 | returns the stored header and bytes |
| SlottedPages.SlottedPage.MarkDeleted | wasdb_page/src/lib.rs:168-189 | in place; true exactly for an existing slot |
| Mvcc.TransactionManager.Begin | wasdb_tx/src/lib.rs:51-56 | hands out the next id and makes it active |
| Mvcc.TransactionManager.Commit | wasdb_tx/src/lib.rs:59-67 | moves an active transaction to the committed ones; any other is not found and nothing changes |
| Mvcc.TransactionManager.Abort | wasdb_tx/src/lib.rs:70-78 | the same with the aborted ones |
| Mvcc.TransactionManager.GetState | wasdb_tx/src/lib.rs:81-89 | the state read off the sets |
| Mvcc.TransactionManager.IsVisible | wasdb_tx/src/lib.rs:93-115 | created by the reader or a committed transaction, and not deleted by either |
| Mvcc.EndedDecides | wasdb_tx/src/lib.rs:59-78 | ending an active transaction decides its state and no other's; it is active no more |
| Mvcc.BeginIsTwoSteps | wasdb_tx/src/lib.rs:51-56 | undisturbed, the counter step and the set step of `begin` amount to the whole |
| Mvcc.EndIsTwoSteps | wasdb_tx/src/lib.rs:59-78 | undisturbed, the two locked steps of `commit` and `abort` amount to the whole |
| Mvcc.StepKeepsInv | wasdb_tx/src/lib.rs:51-78 | lock by lock, ids stay below the counter and in one place at most, and the active set has one lock holder |
| Mvcc.FateIsFinal | wasdb_tx/src/lib.rs:59-78 | over every interleaving a committed or aborted transaction stays so and is never the other |
| Mvcc.IsVisibleIsAtomic | wasdb_tx/src/lib.rs:93-115 | over every interleaving the answer is the row's visibility at one moment of the call |
| Mvcc.GetStateIsAtomic | wasdb_tx/src/lib.rs:81-89 | likewise for the transaction state |
| Mvcc.RowAppearsOnce | wasdb_tx/src/lib.rs:93-115 | over every run an unchanging row seen by one reader and then not seen is never seen again |
| Snapshots.AnswersChange | wasdb_tx/src/lib.rs:93-115 | a run in which one reader gets two answers about one row |
| Snapshots.AnswersAgreeIff | wasdb_tx/src/lib.rs:93-115 | over every run two answers agree exactly when no creator commits in between of a row not deleted by the end, and no deleter of a row already created |
| Snapshots.SettledStays | wasdb_tx/src/lib.rs:51-115 | the answer about a settled row never changes, whatever the threads do |
| Snapshots.CommitAlone | wasdb_tx/src/lib.rs:51-78 | a transaction that is undecided or not yet begun commits in some continuation |
| Snapshots.AnswerIsFinalIff | wasdb_tx/src/lib.rs:51-115 | an answer stands in every continuation if and only if the row is settled, which the three sets tell |
| SqlLexer.NextToken | wasdb_cli/src/parser.rs:47-125 | what is left is the end of the text, strictly shorter unless the end was reached: no character is consumed twice |
| SqlLexer.Lexer.SkipWhitespace | wasdb_cli/src/parser.rs:37-45 | skipping does not change the next token |
| SqlLexer.Lexer.Next | wasdb_cli/src/parser.rs:47-125 | the stream reader yields the specified token and rest |
| SqlLexer.Lexer.ReadString | wasdb_cli/src/parser.rs:72-82 | everything up to the next quote, or to the end |
| SqlLexer.Lexer.ReadNumber | wasdb_cli/src/parser.rs:83-94 | the value of the longest run of digits, wrapping at 32 bits |
| SqlLexer.Lexer.ReadWord | wasdb_cli/src/parser.rs:95-117 | the longest word, a keyword in any casing or else an identifier |
| SqlLexer.TextReadsBack | wasdb_cli/src/parser.rs:47-125 | tokens spelled in any casing, with any white space that keeps words and numbers apart, are read back as those tokens |
| SqlParser.Parser.Advance | wasdb_cli/src/parser.rs:163-165 | moves one token along the token stream |
| SqlParser.Parser.Require | wasdb_cli/src/parser.rs:167-177 | consumes the wanted token or reports what was found |
| SqlParser.Parser.ParseSelect | wasdb_cli/src/parser.rs:192-218 | the statement of the grammar for the current tokens, or its error |
| SqlParser.Parser.ParseInsert | wasdb_cli/src/parser.rs:220-252 | likewise |
| SqlParser.Parser.ParseCreate | wasdb_cli/src/parser.rs:254-285 | likewise; types are skipped |
| SqlParser.Parser.ParseDelete | wasdb_cli/src/parser.rs:287-299 | likewise |
| SqlParser.Parser.Parse | wasdb_cli/src/parser.rs:179-190 | dispatches on the first token |
| SqlRoundTrip.WrittenReadsBack | wasdb_cli/src/parser.rs:179-299 | however a statement is written in tokens, and whatever follows, it parses to itself |
| SqlRoundTrip.TextParsesBack | wasdb_cli/src/parser.rs:47-299 | the same from text: any casing, any white space, quoted or numeric values, optional column types |
| SqlRoundTrip.RenderParsesBack | wasdb_cli/src/parser.rs:47-299 | every statement with identifiers for names and quote-free values has a text that parses to it |
| SqlRoundTrip.ParsedIsExpressible | wasdb_cli/src/parser.rs:179-299 | parsing any text yields only such statements |
| SqlRoundTrip.ExpressibleIff | wasdb_cli/src/parser.rs:47-299 | a statement is expressible exactly when some text parses to it |
| SqlForms.ParsesIff | wasdb_cli/src/parser.rs:179-299 | a list of tokens is accepted as a statement exactly when it begins with a way to write that statement: any literals for values, any types or none behind columns, a comma behind a list or none |
| SqlForms.RejectsIff | wasdb_cli/src/parser.rs:179-299 | and rejected exactly when it begins with no statement |
| SqlForms.WordsMean | wasdb_cli/src/parser.rs:47-117 | the nine keywords and five marks, each as its token; every other word is an identifier |
| SqlForms.IdentifierMeans | wasdb_cli/src/parser.rs:95-117 | names are words of letters, digits and underscores that start with a letter and are no keyword in any casing |
| SqlForms.NumberMeans | wasdb_cli/src/parser.rs:83-94 | a number is read as what its digits stand for, up to a multiple of 2^32, and exactly that below 2^31 |
| SqlForms.NumberArrives | wasdb_cli/src/parser.rs:83-94 | so a number below 2^31 without leading zeros arrives in an insert as it was typed |

## Left out

- Disk and log failures: every disk and log call is taken to succeed. After a failed read the pool keeps a table entry without a pin, and a failed log flush is ignored; neither is modelled.
- PageNumbers.NewPagesDiffer: a process that opens the file anew counts from the file's length, so a page allocated but never written may be handed out again.
- PoolRuns.WalBeforeData: the write of one page is a single step; a page torn by a crash in the middle of its write is not modelled.
- Locks inside the buffer pool: its operations hold the page-table lock throughout, so each is one step. Hit counters, and a pin count that reaches 2^32, are left out.
- LogFailures.AppendIsRecoveredIff: the tear is one that a loss of power leaves; a process that dies between the three writes of one append, without one, is not modelled.
- Log.Appended: appending is stated for files that stay below 2^64 bytes, where LSNs do not wrap.
- Storage.DiskManager.ReadPage: the pool works on one map over whole page ids. The file-backed manager keys on the page number alone, so it is this map for one file only.
- Replacer.Policy and Executors.Executor stand for trait objects; they are closed to the implementations in the source.
- The index object works on nodes under the pool's flat contract (`NodePool.Nodes`), which `NodeBytes` derives from the contract on bytes for pages of at least 5464 bytes, with structs laid out in declaration order. Its shift loops work on copies of a leaf's arrays, written back with the page; `LeafNode.LeafBuffer` is the one that shifts in place.
- Executor schemas.
- B+ tree splitting, rebalancing with the right sibling, freeing a merged leaf and separator updates are not in the source.
- BTree.BTreeIndex.Insert: when the array is exhausted the source aborts with the leaf pinned; the model stops there.
- BTree.BTreeIndex.UseLeftSibling: an overrunning merge is detected before its copy loop; slots the source fills before it aborts are not shown.
- BTree.BTreeIndex.Delete: pins are not stated for returns on an exhausted pool, where the source keeps some. A tree that a borrow or merge left with wrong separators can be searched and deleted from; inserts into it are not covered.
- BTree.BTreeIndex.RangeSearch: pins are not neutral, as the source keeps the first leaf's.
- Sort.ExternalMergeSortExecutor.Init: what a panic leaves behind is not stated. Runs are sequences of rows: the JSON encoding and temporary files are taken to round-trip.
- Sort.ExternalMergeSortExecutor.Next: the binary heap is a list from which any least entry may be popped.
- SlottedPages.SlottedPage.InsertRecord: for a record that passes an inexact guard only the bytes written are stated, and an abort stands for an arithmetic overflow or an access outside the page. The four padding bytes of the header keep their values.
- Mvcc.TransactionManager.Begin: the id counter does not wrap.
- SqlLexer.Lexer.ReadNumber: numbers beyond 32 bits wrap as in a release build; a debug build panics.
- Error messages: parse and catalog errors are values, not texts.
- Table heaps, the hash index, the free space map, schema construction, hit rates, the terminal interface and argument parsing.
