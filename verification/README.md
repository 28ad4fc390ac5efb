# Verification of the Capstone case studies

This project models the parts of the Capstone repository where the behaviour is hardest to see from the
code, and proves what they are for. `dafny verify dfyconfig.toml` verifies the project.

* **null_blk's memory-backed storage** is modelled twice, from the baseline driver (the split variants repeat it).
  * *The concurrent layer* (`NullBlkPages`, `NullBlkSteps`, `NullBlkInvariant`, `NullBlkTheorems`, `NullBlkBound`, `NullBlkOverflow`,
    `NullBlkRequests`, `NullBlkProgress`): any number of
    threads write, write with FUA, discard, read and flush. A page is an object with an identity on a heap, so that
    stale pointers, double frees and lost pages can be expressed. The lock may change hands exactly where the source drops it, which
    is inside `null_insert_page` (twice: a writer and a flusher come through there) and at the end of a fruitless round of
    `null_make_cache_space`. What the WARN_ONs test, and any use of a freed page, sets `fault`.
  * *The sequential layer* (`NullBlkPage`, `NullBlkTree`, `NullBlkDisk`, `NullBlkEngine`): classes with 4096-byte buffers, bitmaps,
    two trees, `curr_cache` and `cache_flush_pos`, and the source's own loops down to the bytes of a multi-segment bio. The `again` loop
    ends or returns `Stuck` when it has come back to the state it was in, which is where the source would spin.
* **Tags** (`Tags`), **the throttle** (`Throttle`) and **the configuration check** (`NullBlkConf`) of the same driver.
* **The split null_blk** (`SplitDriver`) and **the miniweb server** (`Miniweb`): programs in different domains that find their
  arguments only by their place on a stack of regions. The firmware is taken to do what the callers rely on: a share appends one
  region, a pop drops the last n, a count is the depth, a query gives the base.
* **The replies of the web server**: `CgiReply` puts text together in 64-bit words, `HttpReply` prints a length and joins C strings.
* **The region table** (`RegionTable`) of the kernel module, with the offsets that processes remember.
* **The ring queue** (`RingQueue`) between the threads of the web server.

Side conditions, besides what each contract says: a page is 4096 bytes and a sector 512; requests and segments are made of whole blocks;
the block size is 512, 1024, 2048 or 4096 bytes (`NullBlkConf.BlocksPerPage` shows that the configuration check lets others pass, for which a
page is not a whole number of blocks).

## What the proofs found

* `curr_cache` has 32 bits, and a writer is let past the size check before it has inserted its page. n threads can bring as many pages into the cache as
  its size, less two, and n more (`CacheBound`). When that comes to 2^20, on a device of as many pages, the counter can be back at 0 and a flush report
  success without flushing anything; below it cannot (`FlushMissesIff`, `FlushLosesIff`). With a `cache_size` above 4096 MiB one thread will do, and the
  cache grows without bound (`CacheGrows`, `FlushMissesFullCache`).
* A flush that fails for want of memory leaves the rest of its batch LOCKed (`MakeSpace`). With memory again, every later flush spins for ever as long as any page of the
  cache is LOCKed (`HandleFlush`, `FailedFlushHangs`), and a plain write does when there is no room and every page ahead of the flush position is LOCKed
  (`CopyBlockTo`). When the device goes such a page is not released (`FreeDeviceStorage`).
* While memory lasts, neither the lock nor the LOCK bits can bring the threads to a standstill: every request under way can still end
  (`EveryRequestCanEnd`), a FUA write that has ended, or a flush within the bound above, is safe from any crash from then on (`FuaEndsStored`, `FlushEndsStored`), and a read is of
  one moment (`ReadsOneMoment`).
* `alloc_cmd` looks for a tag before it joins the wait queue and not again after. A bio can sleep on with every tag free, exactly
  when more bios can be in flight at once than there are tags (`StrandedIff`, `AllComplete`), and only if all the others had looked at the wait queue before it
  joined (`StrandedJoinedLast`).
* `null_handle_throttled` leaves the command of a bio unfinished and its tag taken; bio mode is spared because the configuration
  check sets `mbps` to 0 (`LostIff`, `BioModeCompletes`). A request larger than a full budget can never pass (`AcceptableIff`).
* `nullbs_null_validate_conf` returns before its pop when the zone size is invalid, and leaves two regions on the stack
  (`SplitDriver.Driver.Perform`, `NoBadZonesIff`).
* The split driver writes the function code, the argument and the shares without masking interrupts. A completion timer in bio mode that comes between them makes the
  call it interrupts ask for something else, so that a write can go on as a read (`WriteTurnsRead`); the timer's own call is always right (`TimersRight`).
* When the error page is wanted and cannot be opened, the web server sends nothing, leaves two regions on the backend's stack, and shares
  them again, still borrowed, with the next request (`ProtocolKeptIff`).
* A page of more than 4016 bytes does not fit the response region with its header, though 4096 are read (`FitsIff`, `WholeIff`).
* A request that is turned away by the throttle closes the window for all others (`RejectionClosesWindow`, `AcceptsIff`).
* With more than one CPU the domain can name a queue that does not exist (`DomainQueueIff`).
* A region whose length is not a number of pages cannot be mapped as a whole (`WholeRegion`), and no process gets past a region of
  length 0 (`RefillReaches`).

## Model

| member | source | states |
|---|---|---|
| `NullBlkTheorems.ConcurrentRefinement` | package/capstone-null-blk/baseline/null_blk.c:843-1203 | in every interleaving of any number of threads, what the cache and data trees show for a block is what the writes and discards so far, in the order of the lock, leave in a flat array; no freed page is touched and no tree WARN_ON fires |
| `NullBlkTheorems.StepKeeps` | package/capstone-null-blk/baseline/null_blk.c:843-1203 | every step of every thread keeps the invariant of the heap, the two trees, the LOCK and FREE bits and the claims of the threads, and no step makes a dirty block's durable copy change |
| `NullBlkTheorems.RunKeeps` | package/capstone-null-blk/baseline/null_blk.c:843-1203 | the invariant holds after any list of moves |
| `NullBlkTheorems.RequestOutcome` | package/capstone-null-blk/baseline/null_blk.c:1085-1287 | a finished write did all its blocks in order, or failed with -ENOSPC after a proper prefix of them; a discard did all of them; a read or a flush wrote nothing |
| `NullBlkTheorems.NoFailureWithoutRefusal` | package/capstone-null-blk/baseline/null_blk.c:1085-1203 | as long as no allocation fails, no request fails |
| `NullBlkTheorems.ReadReturnsNewest` | package/capstone-null-blk/baseline/null_blk.c:1122-1152 | a read returns, block by block, the newest bytes in lock order, or none where nothing was written or the block was discarded |
| `NullBlkTheorems.LockOwner` | package/capstone-null-blk/baseline/null_blk.c:983-1070 | a LOCKed page is in the batch of at most one flusher, and, until an allocation has failed, of exactly one |
| `NullBlkTheorems.NothingLeaked` | package/capstone-null-blk/baseline/null_blk.c:827-867 | with no allocation failure, once no request runs, every page that is not in a tree has been freed (exactly once, a second free being a fault) and no LOCK or FREE bit is left |
| `NullBlkTheorems.AccountingAndShape` | package/capstone-null-blk/baseline/null_blk.c:843-884 | at every point `curr_cache` is the page size times the pages in the cache tree, modulo 2^32; every entry's page is alive, has its key as its index and has a block |
| `NullBlkTheorems.CrashDurability` | package/capstone-null-blk/baseline/null_blk.c:1773-1774 | dropping the cache at any point leaves each block exactly as it was in the flat array the last time the block had no cache bit |
| `NullBlkTheorems.DurableNeverGoesBack` | package/capstone-null-blk/baseline/null_blk.c:983-1183 | the durable version of a block never moves backwards over a run |
| `NullBlkTheorems.CleanIsDurable` | package/capstone-null-blk/baseline/null_blk.c:983-1183 | a block without a cache bit is durable at its newest version, from then on |
| `NullBlkTheorems.FuaLeavesClean` | package/capstone-null-blk/baseline/null_blk.c:1114-1115 | the step of a FUA write that does a block leaves no cache bit for it, whatever other threads did while the lock was dropped |
| `NullBlkTheorems.FuaIsDurable` | package/capstone-null-blk/baseline/null_blk.c:1085-1120 | so that no crash after that step brings the block back to before it |
| `NullBlkTheorems.FlushLeavesClean` | package/capstone-null-blk/baseline/null_blk.c:1185-1203 | a flush that succeeds has left no cache bit anywhere, with fewer than 2^20 pages on the device or no cache |
| `NullBlkTheorems.FlushIsDurable` | package/capstone-null-blk/baseline/null_blk.c:1185-1203 | no crash after a successful flush brings any block back to before the flush, on such a device |
| `NullBlkTheorems.ZeroMeansEmpty` | package/capstone-null-blk/baseline/null_blk.c:1195-1197 | the 32-bit counter is zero exactly for an empty cache, with fewer than 2^20 pages |
| `NullBlkTheorems.FlushWarnIsSilent` | package/capstone-null-blk/baseline/null_blk.c:1200 | the WARN_ON at the end of a flush never fires as long as no allocation fails, on such a device |
| `NullBlkBound.StepBound` | package/capstone-null-blk/baseline/null_blk.c:1032-1083 | every step of every thread keeps the sum of the pages in the cache and of the threads that may still add one without asking (let past the size check, or with a page flushed, or with a page that was freed in their hands) within the size of the cache, less two pages, and the number of threads |
| `NullBlkBound.CacheBound` | package/capstone-null-blk/baseline/null_blk.c:1039-1041 | in every interleaving of n threads without an allocation failure the cache has at most `cache_size` in pages, less two, and one page for each thread, and `curr_cache` is exact, while this is below 4 GiB |
| `NullBlkBound.FewThreadsFlushClean` | package/capstone-null-blk/baseline/null_blk.c:1185-1203 | then a flush that succeeds has left no cache bit anywhere, however large the device |
| `NullBlkOverflow.FlushMissesIff` | package/capstone-null-blk/baseline/null_blk.c:1193-1200 | some run of n threads without an allocation failure ends a flush with success and dirty blocks exactly with an active cache on a device of 2^20 pages or more, when the size of the cache in pages, less two, and the threads come to 2^20 or more |
| `NullBlkOverflow.FlushMissesEver` | package/capstone-null-blk/baseline/null_blk.c:1193-1200 | over any number of threads, with or without memory: exactly with an active cache on a device of 2^20 pages or more, however small the cache |
| `NullBlkOverflow.FlushWarnsIff` | package/capstone-null-blk/baseline/null_blk.c:1200 | the WARN_ON of `null_handle_flush` fires in some run of n threads without an allocation failure in exactly the case of `FlushMissesIff` |
| `NullBlkOverflow.FlushLosesIff` | package/capstone-null-blk/baseline/null_blk.c:1193-1203 | and a crash after a flush that succeeded takes some block back to before it, in some run, in exactly that case |
| `NullBlkRequests.EndsAsSubmitted` | package/capstone-null-blk/baseline/null_blk.c:1085-1287 | from the move that submits a request to its end, whatever else runs: the request that ends is the one submitted, and all that its thread has done since is what its kind and its result say |
| `NullBlkRequests.FuaEndsStored` | package/capstone-null-blk/baseline/null_blk.c:1085-1120 | a write submitted with FUA that has ended well: each of its blocks is in the history since its submission, and no crash from then on brings the block back to before that |
| `NullBlkRequests.FuaSurvivesCrash` | package/capstone-null-blk/baseline/null_blk.c:1773-1774 | and what the cache leaves behind when it is lost are the bytes of the write, unless another request has changed the block |
| `NullBlkRequests.FlushEndsStored` | package/capstone-null-blk/baseline/null_blk.c:1185-1203 | a flush submitted that has ended well: no crash from then on brings any block back to before its submission, with few pages, or few threads and memory |
| `NullBlkRequests.ReadsOneMoment` | package/capstone-null-blk/baseline/null_blk.c:1122-1152 | a read submitted that has ended got, all its blocks as one, what the flat array had at some moment between the two |
| `NullBlkRequests.PlainStored` | package/capstone-null-blk/baseline/null_blk.c:962-981 | a plain write of a page that only the data tree has goes there: no page is allocated, the cache stays as it is, and the block is durable at once |
| `NullBlkProgress.EveryRequestCanEnd` | package/capstone-null-blk/baseline/null_blk.c:1032-1203 | nothing gets stuck: from wherever any interleaving of any number of threads has got to without an allocation failure there is a way on in which every request ends and none fails |
| `NullBlkProgress.GoNearer` | package/capstone-null-blk/baseline/null_blk.c:1038-1081 | with the lock free or its own, and nobody else's pages claimed, each move of a thread brings it nearer to its end by one measure for all of the driver: blocks to write, pages to flush, the place in the loops, the rest of the batch |
| `NullBlkPages.FreeSectorKeeps` | package/capstone-null-blk/baseline/null_blk.c:843-867 | clearing a block's bit, and freeing a page that has no other, keeps the invariant and takes exactly that block away |
| `NullBlkPages.InsertKeeps` | package/capstone-null-blk/baseline/null_blk.c:869-884 | inserting a page, or finding that another thread has, keeps the invariant: the loser's page is freed, the counter follows the tree |
| `NullBlkPages.FinishCopyEffect` | package/capstone-null-blk/baseline/null_blk.c:1010-1029 | copying a cache page into its data page and deleting it shows no difference on the disk |
| `NullBlkPages.FinishFreedInv` | package/capstone-null-blk/baseline/null_blk.c:997-1004 | a page that was freed while a flusher held it is released exactly then, with the data page taken out again if it is empty |
| `NullBlkPages.LockBatchKeeps` | package/capstone-null-blk/baseline/null_blk.c:1049-1059 | the batch that a flusher claims is its own: distinct pages, none claimed by another |
| `NullBlkPage.Page.Empty` | package/capstone-null-blk/baseline/null_blk.c:836-841 | true exactly when no block's bit is set, FREE and LOCK apart |
| `NullBlkPage.Page.PutBlock` | package/capstone-null-blk/baseline/null_blk.c:1105-1112 | the buffer and the bitmap hold the new block and all the other blocks as before |
| `NullBlkPage.Page.CopyBlocks` | package/capstone-null-blk/baseline/null_blk.c:1010-1021 | every block of the source page whose bit is set is copied with its bit, and no other block changes |
| `NullBlkTree.RadixTree.EraseBlock` | package/capstone-null-blk/baseline/null_blk.c:843-867 | the block is gone, and the page with it exactly when it was the last one |
| `NullBlkTree.RadixTree.Clear` | package/capstone-null-blk/baseline/null_blk.c:886-910 | the batches of 16 with the moving position end and leave the tree empty; the pages released, once each and in ascending order, are exactly those not LOCKed, the others being only marked FREE |
| `NullBlkViews.WriteAt` | package/capstone-null-blk/baseline/null_blk.c:1085-1120 | a write to the tree that the lookups choose, with the invalidation of a FUA write, changes its own block on the disk and no other |
| `NullBlkViews.MovedShowsNothing` | package/capstone-null-blk/baseline/null_blk.c:983-1029 | flushing any set of pages whole shows no difference on the disk |
| `NullBlkEngine.Device.FreeDeviceStorage` | package/capstone-null-blk/baseline/null_blk.c:886-913 | the same for the device's trees: what a failed flush left LOCKed leaves the tree without being released; for the cache `curr_cache` is 0 after |
| `NullBlkEngine.Device.FreeSector` | package/capstone-null-blk/baseline/null_blk.c:843-867 | the block is gone from the tree named and from no other; `curr_cache` follows the cache |
| `NullBlkEngine.Device.GetPage` | package/capstone-null-blk/baseline/null_blk.c:936-981 | the page comes from, or is added to, the tree the source prefers; it fails exactly when it would be a new page and the next allocation fails, and then nothing changes |
| `NullBlkEngine.Device.WriteBlock` | package/capstone-null-blk/baseline/null_blk.c:1099-1115 | one block written as `WriteAt` says, or nothing changed; it fails exactly when a page is wanted and the next allocation fails |
| `NullBlkEngine.Device.FlushCachePage` | package/capstone-null-blk/baseline/null_blk.c:983-1030 | the page has moved to the data tree, or, exactly when it has no data page yet and the next allocation fails, only its LOCK bit has changed |
| `NullBlkEngine.Device.Claim` | package/capstone-null-blk/baseline/null_blk.c:1049-1059 | the pages not LOCKed are LOCKed and no others, and the position is that of the last page looked up |
| `NullBlkEngine.Device.MakeSpace` | package/capstone-null-blk/baseline/null_blk.c:1032-1083 | what goes, goes whole to the data tree, and for up to a page that is the batch at or above the position and no other page, if it has one to flush; it ends with room for n more bytes, an empty counter or n bytes flushed, or because an allocation failed, which leaves LOCKed exactly what was and the rest of one batch; for up to a page it never ends exactly when, before the call, there is no room and every page at or above the position (every page, if there is none) is LOCKed |
| `NullBlkEngine.TurnDecreases` | package/capstone-null-blk/baseline/null_blk.c:1038-1081 | the measure of the `again` loop: pages left, whether any is at or above the position, the distance of the position from the end |
| `NullBlkEngine.Device.HandleFlush` | package/capstone-null-blk/baseline/null_blk.c:1185-1203 | success means that the counter is 0; with a counter to be trusted (fewer than 2^20 pages, no wrap at 2^64) and memory it never ends exactly when some page of the cache was LOCKed before the call, and otherwise empties the cache; an allocation failure leaves LOCKed what was and the rest of a batch; the disk does not change |
| `NullBlkEngine.Device.Flush` | package/capstone-null-blk/baseline/null_blk.c:1185-1203 | alone, with memory, no page LOCKed and fewer than 2^20 pages cached, a flush ends, with an empty cache and the data tree alone equal to the disk |
| `NullBlkEngine.FailedFlushHangs` | package/capstone-null-blk/baseline/null_blk.c:1064-1066 | a device and an allocation that fails: the flush fails, and the next one, with all the memory it may want, never ends |
| `NullBlkEngine.Device.MakeRoom` | package/capstone-null-blk/baseline/null_blk.c:1094-1095 | it hangs exactly when there is no room and every page ahead is LOCKed; alone and with memory always there is room for two pages more before a block is written, whatever the flush position |
| `NullBlkEngine.Device.CopyBlockTo` | package/capstone-null-blk/baseline/null_blk.c:1093-1116 | one turn of the loop of a write: it hangs exactly when it is a plain write, there is no room for a page and every page ahead is LOCKed; it changes the disk by its block or not at all; a FUA block is not in the cache after, and a plain block of a page that only the data tree has goes there |
| `NullBlkEngine.Device.SmoothFacts` | package/capstone-null-blk/baseline/null_blk.c:1039-1040 | a device that has always had memory and has a cache of at most 4096 MiB has its counter equal to the bytes in the cache, below `cache_size` MiB |
| `NullBlkEngine.CacheGrows` | package/capstone-null-blk/baseline/null_blk.c:1039-1041 | for every larger cache: n plain writes to n pages leave all n in the cache, for every n, nothing being flushed |
| `NullBlkEngine.FlushMissesFullCache` | package/capstone-null-blk/baseline/null_blk.c:1032-1083 | so that after 2^20 of them the counter is 0, and a flush succeeds and leaves every page in the cache |
| `NullBlkEngine.Device.CopyTo` | package/capstone-null-blk/baseline/null_blk.c:1085-1120 | all the blocks of the segment are on the disk, or a prefix of them when an allocation failed or a page LOCKed by a failed flush is in the way; with FUA none of them is in the cache, and without, given pages to spare, the data tree changes only in pages that the cache does not have |
| `NullBlkEngine.Device.CopyFrom` | package/capstone-null-blk/baseline/null_blk.c:1122-1152 | the segment receives the newest bytes of its blocks, zeros where there are none, and nothing beside it changes |
| `NullBlkEngine.Device.HandleDiscard` | package/capstone-null-blk/baseline/null_blk.c:1164-1183 | the blocks of the range are gone from the disk |
| `NullBlkEngine.Device.WriteBio` | package/capstone-null-blk/baseline/null_blk.c:1263-1287 | over all segments, exactly the blocks of the first `done` bytes are on the disk, all of them on success; the same two properties with FUA and without; the cache bound is kept |
| `NullBlkEngine.Device.ReadBio` | package/capstone-null-blk/baseline/null_blk.c:1263-1287 | each segment receives the sectors that follow those of the segments before it |
| `NullBlkEngine.Device.Perform` | package/capstone-null-blk/baseline/null_blk.c:1340-1357 | a write, a discard or a flush changes the disk by its own blocks and no other; a write that fails has done a prefix of them; what a FUA write has done is not in the cache, and a flush that succeeds leaves an empty cache, below 2^20 pages |
| `NullBlkEngine.AfterAt` | package/capstone-null-blk/baseline/null_blk.c:1340-1357 | what a request means block by block: a write puts its own bytes in the blocks that the part written covers, a discard takes away those in its range, and nothing else changes |
| `NullBlkEngine.Device.WriteAndPowerOff` | package/capstone-null-blk/baseline/null_blk.c:1099-1115 | what a FUA write has done a power-off leaves, block by block |
| `NullBlkEngine.Device.Serve` | package/capstone-null-blk/baseline/null_blk.c:1085-1287 | over any run of multi-segment writes, discards and flushes the disk is the flat array after their blocks in order; a flush that succeeds at its end leaves an empty cache, below 2^20 pages; with memory and a cache of at most 4096 MiB all requests succeed and the cache stays within its bound |
| `NullBlkEngine.Device.ServeAndPowerOff` | package/capstone-null-blk/baseline/null_blk.c:1185-1203 | and a power-off after such a flush loses nothing of the run |
| `NullBlkEngine.Device.PowerOff` | package/capstone-null-blk/baseline/null_blk.c:1773-1774 | each block is back to what the data tree has, so that a block without a cache bit is unchanged |
| `NullBlkEngine.Device.FlushAndPowerOff` | package/capstone-null-blk/baseline/null_blk.c:1185-1203 | a flush and the loss of the cache together lose nothing, for a device that has always had memory |
| `NullBlkDisk.WriteAllAt` | package/capstone-null-blk/baseline/null_blk.c:1085-1120 | what a write of bytes means block by block: each block covered has its own slice, every other block is as before |
| `NullBlkDisk.ReadAllAt` | package/capstone-null-blk/baseline/null_blk.c:1122-1152 | what a read means block by block: each block covered has its slice, zeros if it is not on the disk |
| `NullBlkDisk.ReadAfterWrite` | package/capstone-null-blk/baseline/null_blk.c:1122-1152 | reading back what was written gives the same bytes |
| `NullBlkDisk.TrimAt` | package/capstone-null-blk/baseline/null_blk.c:1164-1183 | a discard takes away the blocks it covers and no other |
| `PageTree.GangNoGaps` | package/capstone-null-blk/baseline/null_blk.c:1044-1045 | a lookup of up to n entries from a position skips none |
| `Tags.TagsInUse` | package/capstone-null-blk/baseline/null_blk.c:710-721 | in every interleaving of scans and test-and-sets, tags in use are distinct and below `queue_depth`, and their bits are set |
| `Tags.FreeTags` | package/capstone-null-blk/baseline/null_blk.c:702-721 | a bit is set exactly while one bio holds the tag |
| `Tags.CompletedOnce` | package/capstone-null-blk/baseline/null_blk.c:773-795 | no bio is completed twice, and those completed are exactly the ones past their bio_endio: each command completes the bio it was allocated for |
| `Tags.ReleasedOnce` | package/capstone-null-blk/baseline/null_blk.c:702-726 | a bio keeps the tag it was given until it is released, and does not hold one again |
| `Tags.AllComplete` | package/capstone-null-blk/baseline/null_blk.c:730-795 | if no more bios are ever in flight at once than there are tags, then whenever nobody can go on every bio submitted is completed and every tag is free, however many there are over the run |
| `Tags.NobodyWaits` | package/capstone-null-blk/baseline/null_blk.c:730-771 | and nobody ever goes to sleep: of the bios in flight, those whose scan or tag is at place i or beyond are at most as many as there are tags from i on |
| `Tags.WakesBefore` | package/capstone-null-blk/baseline/null_blk.c:702-708 | while a bio is in the wait queue, no other gets from its clear_bit to its end without the first having been taken off the queue in between |
| `Tags.BioModeCompletes` | package/capstone-null-blk/baseline/null_blk.c:1971-1974 | the same for any configuration that the check leaves in bio mode, at its first power-on |
| `Tags.StrandedIff` | package/capstone-null-blk/baseline/null_blk.c:752-771 | some run of n bios, never more than k in flight, leaves a bio asleep with every other bio done and every tag free exactly when both n and k are more than the tags |
| `Tags.StrandedJoinedLast` | package/capstone-null-blk/baseline/null_blk.c:702-771 | and a bio is left asleep only if every bio that has given its tag back had looked at the wait queue, and ended, before it joined |
| `Tags.GoesOn` | package/capstone-null-blk/baseline/null_blk.c:752-771 | a bio that is not asleep goes on when it is its turn, one taken off the queue included |
| `Tags.StaysStranded` | package/capstone-null-blk/baseline/null_blk.c:702-708 | such a bio stays asleep over any moves of the bios submitted, until another is submitted |
| `Tags.LostIff` | package/capstone-null-blk/baseline/null_blk.c:1437-1441 | a bio can be left unfinished by an early return exactly when the device is throttled |
| `Tags.LostForEver` | package/capstone-null-blk/baseline/null_blk.c:1437-1441 | whatever is submitted and moves after it, such a bio is never completed and its tag never given back |
| `Throttle.WindowsBound` | package/capstone-null-blk/baseline/null_blk.c:1305-1324 | in every interleaving of subtractions and the two halves of the timer, any k windows in a row accept at most k full budgets |
| `Throttle.FiftyWindows` | package/capstone-null-blk/baseline/null_blk.c:23-26 | any fifty windows accept at most `mbps` times 2^20 bytes, and the division costs less than 50 bytes for each megabyte |
| `Throttle.RejectionClosesWindow` | package/capstone-null-blk/baseline/null_blk.c:1314-1322 | a request that is turned away uses up what is left: nothing that is not empty passes until the timer has run, whatever is submitted |
| `Throttle.AcceptableIff` | package/capstone-null-blk/baseline/null_blk.c:1314-1322 | a request can be accepted at some time exactly when a full budget covers it |
| `Throttle.AcceptsIff` | package/capstone-null-blk/baseline/null_blk.c:1314-1322 | a request is accepted exactly when all that has been asked for since the last refill, itself included and turned away or not, is at most a full budget; until then what is left is the rest of it |
| `Throttle.TimerRefills` | package/capstone-null-blk/baseline/null_blk.c:1462-1477 | after the timer has run the budget is full, however low it was |
| `NullBlkConf.ValidatedConf` | package/capstone-null-blk/baseline/null_blk.c:1943-1984 | the block size is a multiple of 512 from 512 to 4096; bio mode has no bandwidth limit; without backing memory there is no cache; modes are in range |
| `NullBlkConf.FieldByField` | package/capstone-null-blk/baseline/null_blk.c:1943-1984 | each field becomes the nearest value of its range, the block size the multiple of 512 below, the others stay; a device is refused exactly when it has zones whose size is not a power of 2 |
| `NullBlkConf.BlocksPerPage` | package/capstone-null-blk/baseline/null_blk.c:1945-1946 | a page is a whole number of blocks exactly for 512, 1024, 2048 and 4096 |
| `NullBlkConf.UnchangedIff` | package/capstone-null-blk/baseline/null_blk.c:1943-1984 | the devices left alone are exactly those with every field in its range and those that go together agreeing |
| `NullBlkConf.NormalizesIff` | package/capstone-null-blk/baseline/null_blk.c:1943-1984 | every device is made so, exactly unless a mode above the last is clamped after the per-node rule has looked at it |
| `NullBlkConf.ValidateTwice` | package/capstone-null-blk/baseline/null_blk.c:1948-1961 | checking twice is checking once, with the same exception and no other |
| `NullBlkConf.SameEverywhereIff` | package/capstone-null-blk/capstone_split/sdom/nullb_split.smode.c:39-82 | the check in the domain agrees with the driver's on every device exactly with one CPU and `g_poll_queues` at 1 |
| `SplitDriver.Domain.Enter` | package/capstone-null-blk/capstone_split/sdom/nullb_split.smode.c:185-214 | whatever lies below, with the input last but one and the output last, the function called gets its own arguments, writes its result to the output region and drops the two, except for an invalid zone; found with something else in them, the regions give garbage |
| `SplitDriver.CallAnswers` | package/capstone-null-blk/capstone_split/module/null_blk.c:803-825 | with code and argument in place, share, share and call give each of the four call sites what the unsplit code computes |
| `SplitDriver.Driver.CallDomain` | package/capstone-null-blk/capstone_split/module/null_blk.c:808-822 | the shares put the regions where the domain looks for them |
| `SplitDriver.Driver.Perform` | package/capstone-null-blk/capstone_split/module/null_blk.c:789-838 | every call site gets what the unsplit code would have computed (status, queue, operation, checked device), and the depth of the stack is restored unless the zone setting is invalid |
| `SplitDriver.Driver.PerformAll` | package/capstone-null-blk/capstone_split/module/null_blk.c:1621-1700 | the same for any run of calls with nothing in between, with two regions left for each device that has an invalid zone setting |
| `SplitDriver.RunKeeps` | package/capstone-null-blk/capstone_split/module/null_blk.c:838-846 | in every interleaving of the statements of any run of calls with completion timers, each of which makes its own call: a call that no timer hits is on its way to the unsplit result, and the stack below it is as it found it |
| `SplitDriver.UnhitAnswers` | package/capstone-null-blk/capstone_split/module/null_blk.c:1316-1374 | a call that no timer hits between its first and last statement has the unsplit result; without bio-mode timers, and under `spin_lock_irq`, none is hit |
| `SplitDriver.TimersRight` | package/capstone-null-blk/capstone_split/module/null_blk.c:798-846 | the command of a timer gets its own status whatever the timer interrupts |
| `SplitDriver.WriteTurnsRead` | package/capstone-null-blk/capstone_split/module/null_blk.c:1669-1697 | a write submitted that is interrupted between its argument and the call by the timer of a command that ended well goes on as a read |
| `SplitDriver.NoBadZonesIff` | package/capstone-null-blk/capstone_split/sdom/nullb_split.smode.c:70-80 | the depth is restored over a run exactly when every device added has a valid zone setting |
| `SplitDriver.SplitIsBaselineIff` | package/capstone-null-blk/capstone_split/module/null_blk.c:2205-2248 | every call has the result of the unsplit driver in every interleaving exactly with one CPU, `g_poll_queues` at 1 and no completion timer in bio mode |
| `SplitDriver.QueueOfCpu` | package/capstone-null-blk/capstone_split/module/null_blk.c:1613-1621 | the queues share the CPUs out in order, as few to each as will do, and every CPU has a queue that exists |
| `SplitDriver.DomainQueueIff` | package/capstone-null-blk/capstone_split/sdom/nullb_split.smode.c:100-118 | in the domain, which knows of one CPU, exactly those below the number of queues have one, unless there is one queue |
| `SplitDriver.OpIs` | package/capstone-null-blk/capstone_split/sdom/nullb_split.smode.c:129-142 | the operation is the last eight bits of the flags |
| `Miniweb.CgiDomain.Call` | package/capstone-nested-enclave/capstone_split/cgi/cgi_register_success.dom.c:317-328 | metadata, socket and response are at 0, 1 and 2, and only the metadata region is left after |
| `Miniweb.Backend.Start` | package/capstone-nested-enclave/capstone_split/sdom/miniweb_backend.smode.c:366-392 | the ids counted back from the first entry are those of the regions they are meant for |
| `Miniweb.Places` | package/capstone-nested-enclave/capstone_split/sdom/miniweb_backend.smode.c:366-392 | socket and response are always where the ids of the first entry say and html is last |
| `Miniweb.Backend.Enter` | package/capstone-nested-enclave/capstone_split/sdom/miniweb_backend.smode.c:394-418 | each entry answers from the regions its request put on the stack and takes them away, or asks the frontend for a page and leaves them |
| `Miniweb.Worker.HandleRequest` | package/modcapstone/userspace/miniweb_frontend.c:115-259 | a request gets its one response and leaves the stack and the loans as they were, or, when the error page cannot be opened, none and two regions behind; a page that opens is answered with a header of status 200 and its length and with the page, or the first 4096 bytes of both, one that does not and a bad POST with the error page, a CGI POST by the domain asked for |
| `Miniweb.Worker.Serve` | package/modcapstone/userspace/miniweb_frontend.c:115-259 | over any run of requests the responses are one for each request that can be answered, in order and each what its request is to get, and the stack is its base plus what the unanswered ones left |
| `Miniweb.WholeIff` | package/capstone-nested-enclave/capstone_split/sdom/miniweb_backend.smode.c:330-364 | a page found is answered whole, and can be read out of the answer, exactly up to 4016 bytes |
| `Miniweb.ProtocolKeptIff` | package/modcapstone/userspace/miniweb_frontend.c:195-233 | that the stack returns to its base, that every request has exactly one response, and that no borrowed region is lent again, each holds exactly when every error page that is wanted can be opened |
| `CgiReply.Writer.Putchar` | package/capstone-nested-enclave/capstone_split/cgi/cgi_register_success.dom.c:58-74 | one more character follows those emitted, in little-endian bytes of packed words, whatever the word held before |
| `WordBytes.OrInBytes` | package/capstone-nested-enclave/capstone_split/cgi/cgi_register_success.dom.c:64-66 | ORing in a shifted character changes its byte of the word and no other |
| `CgiReply.FindName` | package/capstone-nested-enclave/capstone_split/cgi/cgi_register_success.dom.c:85-114 | the word-by-word scan of any request finds exactly the bytes between the first '=' and the next '&', or leaves the request or the 16-word buffer at the place it says |
| `CgiReply.FoundIff` | package/capstone-nested-enclave/capstone_split/cgi/cgi_register_success.dom.c:12-20 | a name is found exactly in a request that puts at most 16 bytes without '&' between its first '=' and an '&' |
| `CgiReply.PastNameIff` | package/capstone-nested-enclave/capstone_split/cgi/cgi_register_success.dom.c:80-114 | the buffer for the name overflows exactly on a request with 17 bytes other than '&' behind its first '=' |
| `CgiReply.PutNumber` | package/capstone-nested-enclave/capstone_split/cgi/cgi_register_success.dom.c:116-127 | the number is printed in decimal |
| `CgiReply.RegisterSuccess` | package/capstone-nested-enclave/capstone_split/cgi/cgi_register_success.dom.c:76-315 | for any request in which a name is found, the response region begins with a reply in which a client finds, after the first empty line, the name between the two fixed texts, and after "Content-length: " the length of what it finds (section 8.6 of RFC 9110); the size stored is its length |
| `CgiReply.ReplyReadBack` | package/capstone-nested-enclave/capstone_split/cgi/cgi_register_success.dom.c:129-315 | which holds of the bytes of the reply for any name |
| `CgiReply.ContentSize` | package/capstone-nested-enclave/capstone_split/cgi/cgi_register_success.dom.c:23-23 | the fixed part of the content has 83 bytes |
| `PageReply.UlongToStr` | package/capstone-nested-enclave/capstone_split/sdom/miniweb_backend.smode.c:266-289 | the C string written is the decimal notation of the number |
| `Numerals.DecimalRoundTrip` | package/capstone-nested-enclave/capstone_split/sdom/miniweb_backend.smode.c:266-289 | which reads back as the number and has no leading zero |
| `Numerals.DecimalUnique` | package/capstone-nested-enclave/capstone_split/sdom/miniweb_backend.smode.c:266-289 | and is the only such notation |
| `Numerals.UlongLength` | package/capstone-nested-enclave/capstone_split/sdom/miniweb_backend.smode.c:274-274 | an unsigned long has at most 20 digits |
| `PageReply.StrcatFourStrings` | package/capstone-nested-enclave/capstone_split/sdom/miniweb_backend.smode.c:291-328 | the four C strings one after the other and two newlines, and their length |
| `PageReply.Handle200` | package/capstone-nested-enclave/capstone_split/sdom/miniweb_backend.smode.c:330-364 | header, empty line and page are written from the base of the response region on, and nothing else changes; the length in the metadata is their total, and they leave the region exactly when the page has more than 4016 bytes |
| `PageReply.HeaderSize` | package/capstone-nested-enclave/capstone_split/sdom/miniweb_backend.smode.c:339-342 | the header has at most 96 bytes and fits its buffer of 256 |
| `PageReply.FitsIff` | package/capstone-nested-enclave/capstone_split/sdom/miniweb_backend.smode.c:353-354 | the reply fits the response region exactly up to a page of 4016 bytes |
| `PageReply.ReplyRoundTrip` | package/capstone-nested-enclave/capstone_split/sdom/miniweb_backend.smode.c:330-364 | split at the first empty line, the reply gives the page; the number after "Content-Length: " is the length of the page |
| `RegionTable.KernelModule.CreateRegion` | package/modcapstone/module/capstone.c:154-191 | the table is the layout of the firmware's whole list, whatever was made elsewhere before; no id is reused |
| `RegionTable.KernelModule.ProbeRegions` | package/modcapstone/module/capstone.c:232-252 | the regions not yet known are appended |
| `RegionTable.KernelModule.RegionQuery` | package/modcapstone/module/capstone.c:254-268 | length and offset of the region in the layout of the firmware's list, or zeros for an unknown id |
| `RegionTable.KernelModule.DeviceMmap` | package/modcapstone/module/capstone.c:316-338 | the first region that matches |
| `RegionTable.Process.MapRegion` | package/modcapstone/userspace/lib/libcapstone.c:407-424 | queries up to the id, then the mapping of the offset remembered |
| `RegionTable.RangesDisjoint` | package/modcapstone/module/capstone.c:182-186 | mappable regions own disjoint ranges of offsets, in the order of their ids |
| `RegionTable.Packed` | package/modcapstone/module/capstone.c:182-186 | the first of them begins at 0, and no page is left between one and the next |
| `RegionTable.OffsetAligned` | package/modcapstone/module/capstone.c:182-186 | every offset is a multiple of the page size |
| `RegionTable.OffsetBound` | package/modcapstone/module/capstone.c:182-186 | with 64 regions the offsets stay below 2^34 |
| `RegionTable.PagesCoverRegion` | package/modcapstone/module/capstone.c:158-161 | the pages allocated for a region cover it, and half as many would not |
| `RegionTable.OnlyMatch` | package/modcapstone/module/capstone.c:325-328 | the first match is the only match |
| `RegionTable.MmapIs` | package/modcapstone/module/capstone.c:316-338 | a range is mapped exactly when it lies within the offsets of a region that can be mapped, and to the page of that region's memory at the same distance |
| `RegionTable.MappedWithin` | package/modcapstone/module/capstone.c:316-338 | nothing outside one region is mapped, if the memory of all begins at a page |
| `RegionTable.RunKeeps` | package/modcapstone/module/capstone.c:154-268 | over any interleaving of creations, probes and queries by any number of processes, the table and every process's cache are the layout of the firmware's list |
| `RegionTable.CachedOffsetResolves` | package/modcapstone/userspace/lib/libcapstone.c:407-424 | after any run, an offset remembered resolves to the page of the base of the region asked for, exactly when the length rounded up to pages fits |
| `RegionTable.BaseResolvesIff` | package/modcapstone/module/capstone.c:332-335 | which is the base itself exactly when the memory begins at a page |
| `RegionTable.WholeRegion` | package/modcapstone/userspace/lib/libcapstone.c:407-424 | the whole of a region can be mapped exactly when its length is a number of pages below the limit |
| `RegionTable.RefillReaches` | package/modcapstone/userspace/lib/libcapstone.c:408-418 | the queries get to a region exactly when the module knows it and none before it has length 0 |
| `RingQueue.DequeuedIsPrefix` | package/capstone-nested-enclave/baseline/queue.c:14-32 | for any number of threads and any interleaving, the values dequeued are a prefix of those enqueued, at most 16 behind |
| `RingQueue.NothingLost` | package/capstone-nested-enclave/baseline/queue.c:14-32 | when no call is under way, the values returned and those left in the ring are together the values asked for, each as often |
| `RingQueue.AskedIsPut` | package/capstone-nested-enclave/baseline/queue.c:14-22 | every value that `enqueue` is called with is written once, or is still brought by its thread |
| `RingQueue.TakenIsReturned` | package/capstone-nested-enclave/baseline/queue.c:24-32 | every value read is returned once, or is still in the hand of its thread |
| `RingQueue.ReadsOldest` | package/capstone-nested-enclave/baseline/queue.c:24-32 | the value a thread reads, and will return, is the oldest one not yet read |
| `RingQueue.SlotsSafe` | package/capstone-nested-enclave/baseline/queue.c:14-32 | no slot is overwritten before it is read or read before it is written |
| `RingQueue.Conservation` | package/capstone-nested-enclave/baseline/queue.c:4-32 | slots, items and operations under way are always 16 together |
| `RingQueue.NoDeadlock` | package/capstone-nested-enclave/baseline/queue.c:14-32 | if every thread is blocked, all are dequeuing from an empty queue or all enqueuing to a full one |
| `RingQueue.RunKeeps` | package/capstone-nested-enclave/baseline/queue.c:14-32 | the semaphores count what they are for, the ring holds the values between, and one thread at most has the mutex |
| `RingQueue.Queue.Put` | package/capstone-nested-enclave/baseline/queue.c:17-18 | the critical section of `enqueue` is the two steps of the model |
| `RingQueue.Queue.Take` | package/capstone-nested-enclave/baseline/queue.c:27-28 | the critical section of `dequeue` is the two steps of the model |

## Left out

- Zoned devices (`null_process_zoned_cmd`, `null_zone_valid_read_len`): their code is not in the repository; the device is taken to be non-zoned.
- Bad blocks, fault injection, configfs, module parameters, gendisk registration and the blk-mq glue, `null_handle_rq` included (it does with a request what `null_handle_bio` does with a bio).
- The Capstone firmware, capability permissions, inline assembly and debug counters: only the stack of regions is modelled. What a share of a region that is still lent does is left open; it is counted.
- Sockets, files, ELF loading: `open` and `read` bring what a parameter says. A `read` that fails is not part of this model.
- The two layers of null_blk are proved against the same flat array, not against each other. The concurrent layer takes the bytes of a block as one value.
- `Serve` has no reads among the requests of a run: a read changes only its own buffers, and `ReadBio` may follow any run.
- The concurrent layer gives a new page a number never used before; reuse of an address by the allocator is not modelled.
- Block sizes that differ between two power-ons of a device with data, and the THROTTLED flag that survives a power-off.
- NullBlkTheorems.FlushLeavesClean: assumes fewer than 2^20 pages on the device, because it is false beyond; `FlushMissesIff` says exactly when.
- NullBlkProgress.EveryRequestCanEnd: says that there is a way on, not that every scheduler takes it, and assumes that the size of the cache and the counter come to less than 2^64; `HandleFlush` says what happens beyond.
- NullBlkBound.CacheBound: assumes that no allocation has failed, because `copy_to_nullb` ignores the error of `null_make_cache_space` and inserts its page all the same.
- NullBlkEngine.Device.MakeSpace: for more than a page at a time the exact condition of the hang is stated by `HandleFlush`, its only such caller.
- NullBlkEngine.Device.WriteBio: takes block-aligned segments; what `copy_to_nullb` does with a last piece shorter than a block is not modelled.
- CgiReply.FindName: what the source reads past the end of a request, or overwrites past the end of the name's buffer, is not modelled; the scan stops there.
- PageReply.Handle200: what lies in memory past the response region, and whether the hardware lets it be written, is not modelled.
- Miniweb.Worker.HandleRequest: of a reply that spills only the part in the region is modelled; the request line is taken as parsed.
- SplitDriver.SplitIsBaselineIff: two CPUs in the driver at once, a kernel that preempts its own code, and an interrupt inside the domain are not modelled; the two copies out of `null_add_dev` are one statement; a revoke does not change memory or stack.
- RegionTable.KernelModule.DeviceMmap: the sum of offset and size is not wrapped at 64 bits, and two ioctls do not overlap, though the source takes no lock.
- Throttle.WindowsBound: speaks of windows, not of time: `hrtimer_restart` of a timer that has stopped fires it at once, so that windows can be shorter than a tick.
- Tags.CompletedOnce: memory order is sequential; the barriers of `clear_bit_unlock` and `waitqueue_active` are not modelled.
- The fail CGI domain (its fixed Content-length is not that of its text), the DPDK programs, the request-line parser of the backend, and the baseline web server.
