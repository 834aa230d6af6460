# MagicBox kernel: a Dafny model of its hardest state machines

MagicBox is a 32-bit teaching kernel written in C. This project models six of its components in Dafny and proves what they
are for. Each component keeps the form it has in C: objects with fields that methods update, loops with invariants, and pure
functions where the code only computes.

- **ext2 files** (`BlockTree`, `InodeMap`, `Ext2File`, `Ext2Bytes`, `Ext2Truncate`). Disk blocks are byte sequences. A file's
  twelve direct pointers and three index trees on the disk denote a sequence of data blocks, and those denote a byte sequence.
  Writing splices bytes, reading returns a slice, truncating frees exactly the blocks from the cut on, and every other file is
  left alone, through all levels of indirection.
- **ext2 block and inode numbers** (`Bitmaps`, `GroupAllocation`) and **directories** (`Ext2Dir`, `Ext2Directory`): bitmaps and
  counters that agree, and record chains in the data blocks of an inode that are a map from names to inode numbers and types.
- **Page allocation** (`BuddyBlocks`, `BuddyAllocator`): over every sequence of calls no page is handed out twice, and the free
  blocks are a function of the free pages, whatever happened.
- **Copy-on-write memory** (`CopyOnWrite`) and the **area list** (`VmaList`): shared frames behave like private memories over
  every run, and the ordered list of areas behaves like a function from addresses to flags.
- **Sector cache and write-back** (`BufferCache`, `CacheRaces`): over every interleaving of the locked sections of callers and the
  write-back thread, and of what callers do without the lock (writing a victim out, reading a sector in through `_bread` or
  `bread_multi`, changing a block), each sector reads as last written and no update is lost, up to the first step taken in a
  state where the code is wrong to take it. Which states these are is proved exactly, step by step, and `CacheRaces` has a run
  from the empty cache to each kind of them.
- **Scheduler, locks and pipes** (`Scheduling`, `Locks`, `Pipes`): a starvation bound, mutual exclusion, no lost wakeup, and a
  byte stream without loss or reordering that always gets through.

`Arith`, `Words`, `Options`, `Layout`, `Lists` and `Folding` hold what the others share. `Folding.Look` keeps a definition
folded in proofs that do not need what it says; it is always true.

Where the code and its comments disagree, the model follows the code:

- The comment above `pg_cnt_to_order` (mm/memory.c:256-258) speaks of the largest power of two below the count; the code
  computes the smallest one that is not below it, and so does `PgCntToOrder`.
- The comments in `ext2_file_write` and `ext2_add_entry` say that appending a block updates `i_size`; it does not, the callers do.
- `vma_find_gap_reverse` never places a range across an empty area, although such an area covers no address.

Some properties one would expect do not hold of the code on all inputs. They are proved with the exact condition:

- `ext2_bmap` does not test for a null pointer in the double-indirect branch and then reads physical block 0
  (`BmapReadsMap`, with failing cases in `BootWordTakenForBlock` and `EmptyFileMapsBlock`).
- A write whose position has no block yet stores one at `i_size / block_size`, however many blocks the file has. It finds or gets
  the block of its position, leaves no hole, or overwrites a mapping, exactly when `AppendServesPosition` says; a whole write
  lands exactly when `ServedIff` says, and two files grown by truncation are in `GrownFileWrites`. On the disk it is
  `AttachForPosition`.
- `ext2_file_read` cuts a request at the end of the file exactly when the position is within the file and the sum does not
  wrap around (`ReadLengthIsCut`, with a failing case in `ReadPastEndRunsOn`).
- `getblk` writes a dirty victim without the lock and then drops it. The invariants and what is read survive exactly when by then
  the block is unpinned and holds the bytes on the disk (`DropSurvivesIff`, with failing runs in `VictimPinned` and
  `VictimOverwritten`), which is so when nobody pinned it meanwhile (`NoPinIsRight`). The victim stays findable, so another
  caller may start on it a second time (`SameVictimAgain`, and a run in `VictimTwice`).
- `_bread` reads a sector in without the lock, in three stores: the bytes, the valid flag, the dirty flag. The first survives
  exactly when the bytes in the buffer do not count or are the same (`StoreSurvivesIff`, with a failing run in `LateArrival`), the
  second when they count already or are those on the disk (`FlagSurvivesIff`), the third when the flag is clear already
  (`CleanSurvivesIff`, with a failing run in `LateMark`). All are right when nobody changed or marked the block meanwhile
  (`NoChangeIsRight`).
- `bread_multi` reads sectors past the cache, without a pin, and later puts the bytes into buffers without valid data. What it
  returns is what each sector read as at some point of the call (`BulkReadIsRecent`). What it puts in is right under the first two
  conditions above, which hold when no write of the block reached the disk since the read and nobody changed or marked the block
  since its flag was found clear (`BulkPutIsRight`); otherwise the last write may be hidden (a run in `StaleBulkRead`).
- `sys_mprotect` reports success and changes nothing when the end of the range wraps around (`Mprotect`, with a failing case in
  `ProtectUpperHalf`).
- The range check of `sys_munmap` notices an empty heap inside the range only when no other area ends right there (`Munmap`, with
  a failing case in `EmptyHeapOverlooked`).
- The search loop of `schedule` ends after a reset exactly when some ready thread has a priority above 0 (`RefillHelps`, with a
  failing case in `OneThreadNeverChosen`). Budgets stay within 16 bits exactly up to priority 2^14 (`RefillFits`).
- A page of a read-only area is mapped writable when it is first touched, so a first store to it succeeds (`Store`, with a failing
  case in `FirstStoreToReadOnly`).

## Model

| member | source | states |
|---|---|---|
| BuddyBlocks.BuddyIndexFlipsOneBit | mm/buddy.c:153-168 | the buddy of a page number differs from it in exactly the bit of the order |
| BuddyBlocks.ParentIsBlockAndBuddy | mm/buddy.c:213-228 | a block and its buddy are the two halves of the next larger aligned block |
| BuddyBlocks.Nested | mm/buddy.c:28-49 | two aligned blocks that share a page lie one inside the other |
| BuddyBlocks.FullRunIsInOneBlock | mm/buddy.c:61-119 | in a fully merged free set, an aligned run of free pages lies inside one free block |
| BuddyBlocks.CanonicalFormIsUnique | mm/buddy.c:183-233 | two fully merged free sets over the same pages are equal |
| BuddyBlocks.BigBlockIffFreeRun | mm/buddy.c:65-75 | a free block of at least the order exists if and only if an aligned run of that many free pages does |
| BuddyAllocator.HistoryIndependent | mm/buddy.c:175-236 | the free blocks depend only on which pages are handed out, not on the order of calls |
| BuddyAllocator.FlagTestFindsFreeBuddy | mm/buddy.c:171-203 | the flag and order tests on the buddy's page hold exactly when the buddy is a free block |
| BuddyAllocator.LargestFit | mm/buddy.c:28-40 | the greatest order whose block is aligned at the page and fits before the end |
| BuddyAllocator.PgCntToOrder | mm/memory.c:259-265 | the least order whose block holds the count |
| BuddyAllocator.BuddyPool.constructor | mm/buddy.c:6-51 | the free blocks tile the pool, are aligned and fully merged; other pages are untouched |
| BuddyAllocator.BuddyPool.FindArea | mm/buddy.c:65-75 | the first non-empty list from the order up, or that there is none |
| BuddyAllocator.BuddyPool.SplitDown | mm/buddy.c:96-119 | splitting keeps the pages of the block in hand and the free blocks together unchanged |
| BuddyAllocator.BuddyPool.PallocPages | mm/buddy.c:61-127 | fails if and only if no aligned all-free run exists; otherwise removes exactly that run from the free pages |
| BuddyAllocator.BuddyPool.BuddyIsFree | mm/buddy.c:183-203 | the three tests say exactly whether the buddy is free, outside the pool meaning no |
| BuddyAllocator.BuddyPool.MergeUp | mm/buddy.c:183-229 | merging ends at a block whose buddy is not free and keeps the pages |
| BuddyAllocator.BuddyPool.PfreePages | mm/buddy.c:175-236 | the block's pages become free, the pool stays tiled and fully merged |
| BuddyAllocator.BuddyPool.PallocPagesExact | mm/memory.c:270-293 | exactly the first pages of the run leave the free set, the tail is merged back page by page |
| BuddyAllocator.BuddyPool.PfreeEach | mm/buddy.c:175-236 | freeing pages one at a time, in any order, adds exactly those pages |
| BuddyAllocator.BuddyPool.ExactRoundTrip | mm/memory.c:270-293 | exact allocation and freeing page by page in any order restores the free-block set |
| BuddyAllocator.BuddyPool.Serve | mm/buddy.c:61-236 | over any sequence of allocations and frees: a block handed out is aligned, inside the pool and shares no page with another; a call fails only when every aligned block of the order meets one held; the free pages are the others; when all is back the free blocks are those of the start |
| Bitmaps.Set | lib/kernel/bitmap.c:59-69 | one bit changes and no other |
| Bitmaps.Scan | lib/kernel/bitmap.c:19-57 | the first free bit; that there is one is what the source asserts |
| Bitmaps.Count | lib/kernel/bitmap.c:72-85 | the number of free bits |
| GroupAllocation.NumberIsInjective | fs/ext2/inode.c:768-781 | group and bit are determined by the number |
| GroupAllocation.Locate | fs/ext2/inode.c:768-781 | the group and bit computed on free invert the numbering of alloc |
| GroupAllocation.OneBitOneNumber | fs/ext2/inode.c:795-808 | writing one bit changes the status of one number |
| GroupAllocation.EveryGroupVisited | fs/ext2/inode.c:27-45 | the wrapped walk over the groups visits each of them |
| GroupAllocation.VisitOrder | fs/ext2/inode.c:27-45 | the walk starts at the given group and goes on to the next, after the last one to the first |
| GroupAllocation.GroupAllocator.Alloc | fs/ext2/inode.c:27-89 | fails only when every group is full; otherwise a number not in use, first in its group, with both counters in step |
| GroupAllocation.GroupAllocator.Free | fs/ext2/inode.c:758-819 | exactly that number leaves the used set; a free one is left alone; the counters follow |
| BlockTree.PathOfIsPath | fs/ext2/inode.c:112-212 | the slot numbers computed at each level are in bounds and spell the offset |
| BlockTree.RepresentsFrame | fs/ext2/inode.c:91-110 | writes that miss the index blocks leave a tree in place |
| BlockTree.LookupIsInjective | fs/ext2/inode.c:460-533 | different offsets lead to different data blocks |
| BlockTree.InsertedLookup | fs/ext2/inode.c:112-212 | after an insertion the new offset maps to the new block and every other one is unchanged |
| BlockTree.PutLookup | fs/ext2/inode.c:112-212 | a block stored anywhere in a tree, over an old one or not, is found at that offset, and every other offset is unchanged |
| BlockTree.CutBlocks | fs/ext2/inode.c:826-884 | exactly the blocks from the cut on leave a tree, and the rest stays distinct |
| BlockTree.CutSkips | fs/ext2/inode.c:854-855 | a subtree that ends before the cut loses nothing |
| BlockTree.CutLookup | fs/ext2/inode.c:826-884 | below the cut nothing moves, from the cut on nothing is mapped |
| InodeMap.MapIsInjective | fs/ext2/inode.c:460-533 | no block is mapped at two logical indices |
| InodeMap.AppendMap | fs/ext2/inode.c:112-212 | appending maps the next index and leaves the others |
| InodeMap.PutServes | fs/ext2/inode.c:112-212 | a block stored at one index on behalf of another serves it if and only if they are equal; the file stays hole-free if and only if the index is not past the end; a block is lost if and only if it is before the end |
| InodeMap.BmapFollowsPath | fs/ext2/inode.c:460-533 | the slot numbers the lookup divides out of the offset are those the append uses |
| InodeMap.BmapReadsMap | fs/ext2/inode.c:460-533 | the lookup agrees with the map if and only if no double-indirect gap is met or block 0 reads as 0 there |
| InodeMap.BmapOfHoleFree | fs/ext2/inode.c:460-533 | for a hole-free file only the first word of block 0 matters up to the end of the file |
| InodeMap.BootWordTakenForBlock | fs/ext2/inode.c:490-499 | a non-zero word in block 0 is returned as a block number |
| InodeMap.EmptyFileMapsBlock | fs/ext2/inode.c:490-499 | the empty file on a two-block disk where the lookup of block 268 returns 1 |
| InodeMap.TruncateSlots | fs/ext2/inode.c:888-965 | exactly the blocks from the cut on leave the file |
| InodeMap.TruncateFrees | fs/ext2/inode.c:826-884 | a data block is freed if and only if its index is at or above the cut |
| InodeMap.TruncateMap | fs/ext2/inode.c:888-965 | the map is unchanged below the cut and empty from it on |
| Ext2File.Volume.AllocBlock | fs/ext2/inode.c:27-89 | a block of the disk that was not in use, never block 0 |
| Ext2File.Volume.GetOrAllocIndex | fs/ext2/inode.c:91-110 | the index block behind a pointer, a fresh zeroed one if it is null |
| Ext2File.Volume.AppendInto | fs/ext2/inode.c:131-203 | attaches a block at the end of a path, opening missing index blocks on the way, and counts them; stops only when the volume is full and an index block of the path was missing, and then every lookup is as before |
| Ext2File.Volume.AppendBlock | fs/ext2/inode.c:112-212 | for any hole-free file and any size: the disk holds the file with the block stored where the size ends, over an old one or not, index blocks are counted, other blocks in use keep their bytes; right behind the last block the data blocks gain one at the end and all blocks stay distinct; stops only when the volume is full and an index block was missing, and then the map of the file is as before |
| Ext2File.SlotPadded | fs/ext2/inode.c:91-110 | index blocks opened before the volume filled up leave the map, the distinctness of the blocks and the sector count right |
| Ext2Bytes.PlacedData | fs/ext2/inode.c:112-212 | data blocks are in use, distinct, and never index blocks |
| Ext2Bytes.PlacedBmap | fs/ext2/inode.c:460-533 | on a file in place the lookup returns the i-th data block, and 0 right behind the last |
| Ext2Bytes.AppendServesPosition | fs/ext2/inode.c:116-118 | for any size and any number of blocks: the write finds or gets the block of its position if and only if that is below the count or is where the size ends; no hole appears if and only if the size ends at or before the count; the slot was in use if and only if before |
| Ext2Bytes.AttachForPosition | fs/ext2/inode.c:112-212 | the same carried out on the disk, with a block from the allocator; on a full volume the map is as before |
| Ext2Bytes.CountsItsBlocks | fs/ext2/inode.c:112-212 | `i_blocks` is the number of data and index blocks times the sectors of a block |
| Ext2Bytes.ServedIff | fs/ext2/file.c:294-346 | a write lands block by block if and only if all its blocks are there, or it starts inside a file whose size is not past its blocks, or right where both end |
| Ext2Bytes.LandsInFile | fs/ext2/file.c:278-359 | with as many blocks as the size needs, a write lands if and only if its position is within the file or in the block the size ends in |
| Ext2Bytes.GrownFileWrites | fs/fs.c:1903-1920 | two files grown by truncation: a write at 0 attached as block 10, and a write at 10240 that gets its block behind a hole |
| Ext2Bytes.EmptyPlaced | fs/ext2/inode.c:346-395 | a new inode is a file in place |
| Ext2Bytes.ChunkSplices | fs/ext2/file.c:296-343 | one block's read, change and write splices the chunk into the file's bytes |
| Ext2Bytes.WriteChunk | fs/ext2/file.c:294-346 | one turn of the write loop: bytes spliced, size pushed on, nothing else changed; stops only on a full volume where the file has no block, and then bytes and size are as before |
| Ext2Bytes.FileWrite | fs/ext2/file.c:278-359 | from every position where a write lands: the contents, padded with what lies between the end and the position, become old[..pos] + data + old[pos+n..]; the position advances, blocks of others keep their bytes; a write within the blocks there always ends; otherwise it may stop, only when the volume is full and at the first position without a block, with the bytes before it written and the position behind them |
| Ext2Bytes.WriteSeekRead | fs/ext2/file.c:165-359 | a write, a seek back and a read return what was written |
| Ext2Bytes.ReadLengthIsCut | fs/ext2/file.c:172-181 | the requested length is cut at the end of the file if and only if the position is within it and the sum does not wrap |
| Ext2Bytes.ReadPastEndRunsOn | fs/ext2/file.c:172-181 | one past the end, any request is taken for 2^32 - 1 bytes |
| Ext2Bytes.FileRead | fs/ext2/file.c:165-230 | for every position and count: as many bytes as the 32-bit arithmetic says, each the one the lookup gives; from within the file, without wrap-around, exactly the slice cut at the end; the position advances by the length |
| Ext2Bytes.OtherFileUntouched | fs/ext2/file.c:278-359 | a file with blocks of its own keeps its map and its bytes through any change to another |
| Ext2Bytes.WriteBeside | fs/ext2/file.c:278-359 | writing to one file, to the end or until the volume is full, leaves the map and the bytes of another as they were, and their blocks apart |
| Ext2Bytes.Seek | fs/ext2/file.c:232-276 | from the start, the position or the end, with 32-bit signed sums: moves there if and only if it lies within the file; else, or with any other origin, nothing changes |
| Ext2Bytes.SignedIs | fs/ext2/file.c:232-246 | the wrapped sum is in the signed range and the same modulo 2^32, so exact if and only if nothing overflows |
| Ext2Truncate.RecursiveFree | fs/ext2/inode.c:826-884 | frees exactly the subtree's blocks from the cut on, once each; the tree left on the disk is the cut one; the sector count follows |
| Ext2Truncate.FreeKids | fs/ext2/inode.c:843-871 | the loop over an index block, which is written back with the cleared pointers |
| Ext2Truncate.FreeFrom | fs/ext2/inode.c:921-956 | over all fifteen slots, exactly the blocks from the cut on leave the file and the allocator |
| Ext2Truncate.ZeroTail | fs/ext2/inode.c:897-919 | the last kept block reads zeros behind the new end, and no other byte changes |
| Ext2Truncate.Truncate | fs/fs.c:1903-1920 | for shrinking and growing: every byte below the new size as before, zeros behind it, exactly the blocks from the cut on freed, blocks of others untouched |
| Ext2Truncate.TruncateBeside | fs/fs.c:1903-1920 | cutting or growing one file leaves the map and the bytes of another as they were, and their blocks apart |
| Ext2Truncate.Shrink | fs/ext2/inode.c:888-965 | a shrunk file holds a prefix of its bytes and is ready for reading and writing |
| Ext2Truncate.FreedIsOwned | fs/ext2/inode.c:826-884 | the freed blocks belong to the file, and a data block is among them if and only if its index is at or above the cut |
| Ext2Dir.Search | fs/ext2/inode.c:590-654 | finds the live record with the name if and only if the block has it, with the record before it |
| Ext2Dir.FindSlack | fs/ext2/inode.c:237-265 | the first record with enough unused room, or that no record has it |
| Ext2Dir.PutEntryBytes | fs/ext2/inode.c:242-262 | where the fields of a record are, byte by byte, and that no other byte changes |
| Ext2Dir.BlockInsert | fs/ext2/inode.c:242-262 | splitting a record keeps the block tiled exactly and adds the one name, with its inode number and type |
| Ext2Dir.BlockSwallow | fs/ext2/inode.c:1006-1008 | giving a record's room to the one before it keeps the block tiled and removes the one name |
| Ext2Dir.BlockClear | fs/ext2/inode.c:1009-1012 | clearing the inode number at the head of a block removes the one name |
| Ext2Dir.DirBlockOk | fs/ext2/inode.c:302-344 | a new directory block is tiled by the two records and maps both names to directories |
| Ext2Dir.InsertInto | fs/ext2/inode.c:242-262 | the changed block is tiled and maps the one name more, to the inode number and the type |
| Ext2Dir.EraseFrom | fs/ext2/inode.c:1003-1012 | the changed block is tiled and maps the one name less |
| Ext2Directory.Directory.Lookup | fs/ext2/inode.c:590-654 | map lookup of the inode number, over the data blocks the inode leads to on the disk |
| Ext2Directory.Directory.Add | fs/ext2/inode.c:214-300 | map insertion of a new name with inode number and type; a block is allocated and appended to the inode if and only if no record has room; other files keep their bytes; failure only when no record has room and the volume is full, and then all names stay |
| Ext2Directory.Directory.Remove | fs/ext2/inode.c:967-1039 | map deletion, and whether the name was there; all other names keep inode number and type; other files keep their bytes |
| Ext2Directory.InitDir | fs/ext2/inode.c:302-344 | a new inode becomes a directory that maps itself and its parent, both with the type of a directory |
| CopyOnWrite.ShareOne | mm/swap.c:63-78 | sharing a page keeps counts and permissions right, and the child reads what the parent reads |
| CopyOnWrite.CopyPage | mm/swap.c:294-332 | moving the writer to a copy changes nobody's memory |
| CopyOnWrite.StoreIsPrivate | mm/swap.c:336-406 | a store through a writable entry is seen by its own process alone |
| CopyOnWrite.NothingLeaks | mm/memory.c:650-695 | all frames are free if and only if no entry is left |
| CopyOnWrite.ForkedMeans | mm/swap.c:39-95 | the child reads what the parent reads, and nobody else sees a change |
| CopyOnWrite.RunsAreIsolated | mm/swap.c:39-95 | over any run, a process no operation concerns reads at the end what it read at the start |
| CopyOnWrite.AddressSpaces.DemandMap | mm/swap.c:193-266 | the page appears with its initial contents, or there is no free frame and nothing changes |
| CopyOnWrite.AddressSpaces.WriteProtect | mm/swap.c:336-406 | nobody's memory changes; the entry becomes writable if and only if the area allows it and a frame is there when one is needed; a frame is copied if and only if it is shared |
| CopyOnWrite.AddressSpaces.Store | mm/swap.c:336-406 | exactly one byte of exactly one process changes; its entry becomes writable and no other entry changes; when a store faults is stated in full, and then nothing changes |
| CopyOnWrite.FirstStoreToReadOnly | mm/swap.c:193-266 | the first store to a page of a read-only area, with a frame free, succeeds |
| CopyOnWrite.AddressSpaces.Load | mm/swap.c:193-266 | returns the process's own byte, or the area's initial one |
| CopyOnWrite.AddressSpaces.Fork | mm/swap.c:39-95 | the memories after it are those of a copying fork, though no frame is copied: the child names the frames of the parent, and both sides are read-only |
| CopyOnWrite.AddressSpaces.Unmap | mm/memory.c:755-781 | exactly the range leaves the process's memory and page table; a frame is freed with its last entry |
| CopyOnWrite.AddressSpaces.Exit | userprog/process.c:22-68 | the address space goes and no other changes |
| CopyOnWrite.AddressSpaces.Protect | mm/memory.c:1314-1360 | no memory changes; entries in the range are writable if and only if asked for and unshared |
| CopyOnWrite.AddressSpaces.Step | mm/swap.c:39-406 | one operation does to the private memories what it should, and to the entries and their permissions; it is done unless it is refused or a page finds no frame, and then nothing changes; a load returns the byte of the private memory |
| CopyOnWrite.AddressSpaces.Run | mm/swap.c:39-406 | every run over shared frames is, state by state, a run over private memories: which operations are done, the bytes loaded, the permissions after each, counts equal to entries and writable frames unshared |
| CopyOnWrite.LoadSeesStore | mm/swap.c:39-406 | over every run, a load returns what its process last stored there, whatever the other processes did and however often the page was shared and copied meanwhile |
| VmaList.AddedSets | mm/vma.c:58-134 | with no, one-sided or two-sided merging, the range gets the flags and no other address changes |
| VmaList.AddedCoalesces | mm/vma.c:58-134 | in a list where no two neighbours could be joined, none can be after an area is added |
| VmaList.AddressSpace.FindVma | mm/vma.c:28-46 | the area that holds the address, or that it is unmapped |
| VmaList.AddressSpace.Add | mm/vma.c:58-141 | the list stays ordered, disjoint and joined up, and the function changes on the range only |
| VmaList.AddressSpace.Remove | mm/memory.c:709-743 | head, tail, middle or whole: exactly the range is unmapped, and the break falls to its start when it lies in it |
| VmaList.AddressSpace.MayUnmap | mm/memory.c:1213-1239 | accepts if and only if none of the areas it notices has the bit of a growing heap or that of a growing stack |
| VmaList.AddressSpace.Munmap | mm/memory.c:1196-1261 | says in full when it succeeds; then exactly the pages are unmapped and the break moves down if and only if it lay in them; otherwise nothing changes |
| VmaList.StackAndHeapStay | mm/memory.c:1213-1239 | the stack a program starts with, and a heap that is not empty, are in the way of every range that meets them |
| VmaList.EmptyHeapOverlooked | mm/memory.c:1213-1239 | the empty heap right behind the data area is unmapped over, alone it is not |
| VmaList.AddressSpace.SplitAt | mm/vma.c:317-354 | splitting changes no address |
| VmaList.AddressSpace.Mprotect | mm/memory.c:1363-1403 | flags change from the start to the end or the first hole, success if and only if there is none; with wrap-around nothing happens |
| VmaList.ProtectUpperHalf | mm/memory.c:1363-1403 | protecting the upper half of the range reports success and leaves a page in it as it was |
| VmaList.AddressSpace.Brk | mm/memory.c:1020-1089 | says in full when it is refused; otherwise the break moves, wherever unmapping had left it, and exactly the pages between the two ends of the heap become mapped or unmapped |
| VmaList.AddressSpace.FindGapReverse | mm/vma.c:272-313 | the highest place that fits, 0 if and only if none does |
| VmaList.AddressSpace.MmapAnon | mm/memory.c:1092-1136 | refused if and only if an argument is bad or no place fits; else the highest free range gets the flags of the protection, nothing else changes |
| VmaList.ProtFlags | mm/memory.c:945-962 | each permission bit if and only if the protection asks for it, anonymous, and no other bit |
| BufferCache.LeaveKeeps | device/block/ide_buffer.c:176-188 | taking a dirty victim off its list keeps every invariant |
| BufferCache.WriteOutKeeps | device/block/ide_buffer.c:190-193 | writing it keeps every invariant and what is read, whatever has happened to it since |
| BufferCache.DropKeeps | device/block/ide_buffer.c:101-131 | dropping an unpinned block, clean or written since, keeps every invariant and what is read |
| BufferCache.MarkKeeps | device/block/ide_buffer.c:468-486 | marking queues a block once and keeps every invariant |
| BufferCache.TakeKeeps | device/block/ide_buffer.c:412-438 | taking a batch and clearing its dirty bits before the copy keeps every invariant |
| BufferCache.WriteRunAt | device/block/ide_buffer.c:440-446 | one write of consecutive sectors is the same as single writes |
| BufferCache.WriteKeeps | device/block/ide_buffer.c:440-446 | the batch write keeps every invariant and what is read |
| BufferCache.InsertOrderSorts | device/block/ide_buffer.c:49-58 | ordered insertion keeps the list ascending and adds one block |
| BufferCache.QuietMeansSynced | device/block/ide_buffer.c:352-465 | with nothing queued or in flight, a block nobody is changing is on the disk |
| BufferCache.ReplayIsLastChange | device/block/ide_buffer.c:136-519 | after any run a sector reads as last changed |
| BufferCache.DropSurvivesIff | device/block/ide_buffer.c:190-201 | dropping a victim written without the lock keeps the invariants and what is read if and only if it is unpinned and holds the bytes on the disk |
| BufferCache.StoreSurvivesIff | device/block/ide_buffer.c:283-342 | putting in bytes read without the lock keeps them if and only if the bytes in the buffer do not count, or are the same |
| BufferCache.FlagSurvivesIff | device/block/ide_buffer.c:284-343 | setting the valid flag keeps them if and only if the bytes counted before, or are those on the disk |
| BufferCache.CleanSurvivesIff | device/block/ide_buffer.c:285-285 | clearing the dirty flag keeps them if and only if it is clear |
| BufferCache.RightIffSurvives | device/block/ide_buffer.c:169-346 | in every sound state of an interleaving, each step taken without having kept the lock is survived if and only if it is right; a dirty victim is in a list to be taken off if and only if nobody else is evicting it |
| BufferCache.NoPinIsRight | device/block/ide_buffer.c:169-206 | over every interleaving, a victim nobody pins between its first and its last step is dropped rightly |
| BufferCache.NoChangeIsRight | device/block/ide_buffer.c:275-346 | over every interleaving, each store of reading a sector in is right when nobody changes or marks the block meanwhile and nothing but the sector is put in |
| BufferCache.BulkPutIsRight | device/block/ide_buffer.c:312-346 | over every interleaving, putting in bytes read past the cache and setting the flag is right when no write of the block reached the disk since, and nobody changed or marked it since the flag was found clear |
| BufferCache.BulkReadIsRecent | device/block/ide_buffer.c:312-335 | over every interleaving, a sector read past the cache is what it read as at some point since it was found absent |
| BufferCache.SameVictimAgain | device/block/ide_buffer.c:169-188 | while a victim is written, the next caller in need of room chooses it again |
| BufferCache.PinnedGoesOn | device/block/ide_buffer.c:136-290 | in every sound state, a block just found can be looked at or read in, and one looked at can be changed |
| BufferCache.FillGoesOn | device/block/ide_buffer.c:275-290 | each store of reading a sector in can follow the one before it, and the block can be looked at |
| BufferCache.BulkGoesOn | device/block/ide_buffer.c:312-346 | the same for sectors read past the cache |
| BufferCache.ChangeGoesOn | device/block/ide_buffer.c:468-500 | what was changed can be flagged, marked and let go |
| BufferCache.EvictionGoesOn | device/block/ide_buffer.c:169-206 | a victim taken off its list can be written, and then dropped |
| BufferCache.CollectGoesOn | device/block/ide_buffer.c:382-438 | blocks collected can be taken as a batch, and a batch can be copied |
| BufferCache.TransferGoesOn | device/block/ide_buffer.c:430-457 | the copy can go on to the write, the write to the unpinning, and that to the next batch |
| BufferCache.Cache.FindVictim | device/block/ide_buffer.c:80-98 | the least recently used unpinned block, or that all are pinned |
| BufferCache.Cache.MakeRoom | device/block/ide_buffer.c:169-206 | undisturbed: takes nothing below the limit; else unpinned blocks go in the order of their last use, no more than needed; fails only when all that are left are pinned |
| BufferCache.Cache.Getblk | device/block/ide_buffer.c:136-244 | undisturbed: pins the block at the recent end of the list, never evicts a pinned one, goes by last use, keeps what is read and stays within the limit; fails only when all are pinned |
| BufferCache.Cache.PinOrInsert | device/block/ide_buffer.c:218-243 | the second lookup: one more pin on the block somebody else brought in, or a new buffer |
| BufferCache.Cache.StartEviction | device/block/ide_buffer.c:176-188 | the victim is off its list and leaving; nothing else changes |
| BufferCache.Cache.WriteOut | device/block/ide_buffer.c:190-193 | one sector of the disk gets the bytes of the buffer, nothing read changes |
| BufferCache.Cache.Evict | device/block/ide_buffer.c:101-131 | the block is gone from cache and list, nothing read changes |
| BufferCache.Cache.Store | device/block/ide_buffer.c:283-342 | the buffer holds the bytes, nothing read changes |
| BufferCache.Cache.SetFlag | device/block/ide_buffer.c:284-343 | the buffer counts, nothing read changes |
| BufferCache.Cache.Capture | device/block/ide_buffer.c:335-335 | the bytes of the sector on the disk |
| BufferCache.Cache.Fill | device/block/ide_buffer.c:279-287 | undisturbed, the buffer holds what the sector reads |
| BufferCache.Cache.CopyIn | device/block/ide_buffer.c:490-500 | changes what is read at that sector and nowhere else |
| BufferCache.Cache.Bwrite | device/block/ide_buffer.c:468-486 | dirty, and queued once on the list of its device that is active; nothing read changes |
| BufferCache.Cache.Brelse | device/block/ide_buffer.c:246-267 | one pin less, nothing read changes |
| BufferCache.Cache.Bread | device/block/ide_buffer.c:275-290 | returns what was last written there and stays within the limit |
| BufferCache.Cache.BreadMulti | device/block/ide_buffer.c:294-350 | returns what was last written to each sector, however hits and bulk transfers mix, and stays within the limit; with room for the range nothing is evicted and all of it is cached and valid afterwards |
| BufferCache.Cache.BwriteMulti | device/block/ide_buffer.c:490-519 | every sector of the range reads as written, and the limit is kept |
| BufferCache.Cache.Collect | device/block/ide_buffer.c:382-398 | a queued block is pinned and put in order |
| BufferCache.Cache.RunLength | device/block/ide_buffer.c:412-429 | the longest run of consecutive sectors at the front, up to a batch |
| BufferCache.Cache.SyncDevice | device/block/ide_buffer.c:362-457 | drains exactly the list that was active, keeps what is read |
| BufferCache.Cache.SyncAll | device/block/ide_buffer.c:352-465 | after an undisturbed round every block nobody is changing or evicting is on the disk |
| BufferCache.Cache.Step | device/block/ide_buffer.c:136-519 | one step of a caller or of the thread, with its whole effect on the state; taken whenever it can be, except that reclaiming fails when all blocks are pinned; a look returns what was last written |
| BufferCache.Cache.Interleave | device/block/ide_buffer.c:136-519 | over every interleaving, state by state: which steps are taken and what they do, the bytes seen, the invariants; only changes to blocks change what is read; it ends early only at a step that is not right |
| CacheRaces.StaleBulkRead | device/block/ide_buffer.c:312-346 | a run from the empty cache: bytes read past the cache are put in after a newer write reached the disk and the block was evicted; setting the flag would hide that write |
| CacheRaces.LateArrival | device/block/ide_buffer.c:275-290 | a run: a block changed while its sector is read in; the arrival would overwrite the change |
| CacheRaces.LateMark | device/block/ide_buffer.c:275-290 | a run: a block changed and marked between the arrival and the last store; clearing the flag would leave a queued block clean |
| CacheRaces.VictimTwice | device/block/ide_buffer.c:169-188 | a run: a victim is taken off its list and would be taken once more |
| CacheRaces.VictimPinned | device/block/ide_buffer.c:190-201 | a run: a victim pinned while it is written would be dropped under its pin |
| CacheRaces.VictimOverwritten | device/block/ide_buffer.c:190-201 | a run: a victim overwritten after its write would take the change with it |
| CacheRaces.PassingPin | device/block/ide_buffer.c:190-201 | a run: a pin taken and given back meanwhile does no harm, so the condition on states is the exact one |
| Scheduling.RefillBound | thread/thread.c:206-216 | a budget stays below twice the priority |
| Scheduling.RefillFits | thread/thread.c:206-216 | no reset leaves the 16-bit range if and only if the priority is at most 2^14 |
| Scheduling.RefillHelps | thread/thread.c:196-219 | resetting ends the search if and only if some ready thread has a priority above 0 |
| Scheduling.SearchNeverEnds | thread/thread.c:196-219 | with nothing but priority 0 in the ready list, no number of resets gives a thread a tick |
| Scheduling.OneThreadNeverChosen | thread/thread.c:196-219 | a single ready thread with priority 0 |
| Scheduling.SwitchBound | thread/thread.c:174-225 | a switch to a thread with ticks left never lengthens the wait of another, and shortens it when the old thread had none |
| Scheduling.WaitBoundByPriorities | thread/thread.c:206-216 | the wait is bounded by twice the sum of the other priorities |
| Scheduling.Scheduler.FindMax | thread/thread.c:177-189 | the first ready thread with the most ticks |
| Scheduling.Scheduler.Choose | thread/thread.c:176-220 | terminates; all budgets are reset if no ready thread has ticks left, and none is otherwise |
| Scheduling.Scheduler.Schedule | thread/thread.c:162-235 | the first thread with the most ticks leaves the list and runs, the order of the others stays; budgets are halved and topped up if and only if nobody in the list has ticks; no waiting thread is put back |
| Scheduling.Scheduler.TimerTick | device/timer.c:149-153 | one tick less, or a switch when none is left, with the whole new state; every tick shortens the wait of every ready thread with ticks left |
| Scheduling.Scheduler.ThreadYield | thread/thread.c:314-322 | the whole new state: the thread is last in the list before the choice; no waiting thread is put back |
| Scheduling.Scheduler.ThreadBlock | thread/thread.c:261-275 | the whole new state: the thread is blocked, in no list, and the idle thread runs if there is no other; no waiting thread is put back |
| Scheduling.Scheduler.ThreadUnblock | thread/thread.c:277-288 | the thread is first in the ready list, nothing else changes, and no waiting thread is put back |
| Scheduling.Scheduler.Step | thread/thread.c:162-322 | the whole effect of each event on list, budgets, statuses and running thread |
| Scheduling.Scheduler.Run | thread/thread.c:162-235 | whatever the events, and state by state with the whole effect of each: a ready thread with ticks left runs before there are more timer ticks than twice the sum of the others' priorities |
| Locks.Semaphore.Attempt | thread/sync.c:17-28 | takes a unit if there is one, else sleeps in the list |
| Locks.Semaphore.Signal | thread/sync.c:30-44 | wakes the longest sleeper and counts, in a byte |
| Locks.Semaphore.TryWait | thread/sync.c:70-79 | takes a unit if and only if there is one |
| Locks.Lock.NoLostWakeup | thread/sync.c:17-44 | while a thread sleeps, the lock is taken or a woken thread is coming for it |
| Locks.Lock.Acquire | thread/sync.c:46-55 | the holder counts, anybody else goes for the semaphore |
| Locks.Lock.CountOne | thread/sync.c:48-51 | the assertion that the count is 0 holds |
| Locks.Lock.Release | thread/sync.c:57-67 | the assertions on holder and count hold; the count is the nesting depth |
| Locks.Lock.GiveBack | thread/sync.c:30-44 | the unit is free again and the longest sleeper is on its way |
| Locks.Lock.Step | thread/sync.c:17-67 | the whole effect of a turn on where the threads are, their nesting depths, the sleepers and the unit; another thread moves only by being woken |
| Locks.Lock.Interleave | thread/sync.c:17-67 | over every interleaving, state by state: each turn does what it should, one thread at most is between acquire and release, and no wakeup is lost |
| Pipes.RingPut | device/ioqueue.c:75-86 | a put appends to the bytes in the ring |
| Pipes.RingGet | device/ioqueue.c:60-72 | a get removes the first of the bytes in the ring |
| Pipes.IoQueue.Full | device/ioqueue.c:19-22 | full at one byte below the size |
| Pipes.IoQueue.Empty | device/ioqueue.c:24-27 | empty when it holds no byte |
| Pipes.IoQueue.Length | device/ioqueue.c:135-143 | the number of bytes held, on both sides of the wrap |
| Pipes.IoQueue.Put | device/ioqueue.c:75-86 | appends and wakes the reader |
| Pipes.IoQueue.Get | device/ioqueue.c:60-72 | takes the oldest and wakes the writer |
| Pipes.Pipe.ReadStep | fs/pipe.c:110-144 | bytes in order; ends short only when empty, with nothing read only when no write end is open; sleeps only when empty with one open |
| Pipes.Pipe.WriteStep | fs/pipe.c:146-182 | bytes in order; broken pipe if and only if bytes are left and no read end is open; sleeps only when full |
| Pipes.Pipe.Release | fs/pipe.c:186-214 | closing an end wakes both sides |
| Pipes.Pipe.Transfer | fs/pipe.c:110-182 | with both ends open, in whatever order the sides run, a write of any length ends and every byte is read in order: one side can always go on |
| Pipes.Pipe.Step | fs/pipe.c:110-214 | the whole effect of a turn, and what the call returns when it ends |
| Pipes.Pipe.Interleave | fs/pipe.c:110-214 | over every interleaving, state by state: what each turn does and each call returns; bytes read followed by bytes buffered are the bytes put; a side sleeps only while the other can change that |
| Pipes.AllReturned | fs/pipe.c:110-144 | over every interleaving, the read calls return every byte taken, once and in order |

## Left out

- FileWrite: a full volume ends the write with the bytes written so far, also where the source panics, for want of an index block. For positions where a write lands and whose end stays below 2^32; elsewhere `AppendServesPosition` says what becomes of each block.
- FileRead: that more bytes than asked for overrun the caller's buffer is not modelled; the result is as long as the code makes it. A file whose size needs more blocks than it has reads as the lookup says.
- WriteSeekRead: positions from 2^31 on are outside, since a seek takes a signed offset.
- Truncate: growing a file needs a blank block 0 for the lookup of the new end. The 32-bit rounding of the size is exact because lengths are below 2^31.
- AppendBlock: when no block is left for an index block the source panics; here it is an outcome. The three indirect branches are one recursive method over the path.
- GetOrAllocIndex: the bitmap blocks live beside the disk blocks, not among them, and block 0 is never allocated.
- Bmap: a block number past the end of the volume reads as 0.
- Scan: for one bit, which is what every caller asks for.
- Search: the guard against a record length of 0 is left out, since a tiled block has none.
- Ext2Directory.Directory.Add: a full volume is an outcome here where the source panics. For names of at most 255 bytes that are not in the directory yet, as the callers ensure, and a size below 2^32.
- BuddyIsFree: for a buddy outside the pool the source computes an address from a null page pointer and tests that; the model computes it from the index.
- PallocPages: pools are page-aligned, and a buddy outside the pool ends merging.
- Palloc: which free frame the buddy allocator returns is left open.
- WriteProtect: out of memory is an outcome here where the source panics. Page tables are taken from the kernel pool and not modelled.
- Getblk: a cache full of pinned blocks is an outcome here where the source panics. The whole call, like `MakeRoom`, `Fill`, `Bread`, `BreadMulti` and `BwriteMulti`, runs undisturbed; its sections, one by one and with others in between, are the steps of `Interleave`.
- BulkReadIsRecent: a block that another caller has changed but not flagged yet counts as holding valid data.
- BufferCache.Cache.Interleave: what happens after a wrong step is not modelled, the code has lost bytes, freed memory in use or followed a null link by then. The copy of one sector, a write of one batch and a store of one flag are atomic. The limit on the number of blocks is exceeded for a while when callers insert at the same time.
- Brk: the physical pages behind the range are those of `Unmap`. The heap area is found by its start and flags and is assumed to be the only such area.
- Munmap: where in the range the break goes is stated for one area (`Remove`) only.
- MmapAnon: with MAP_ANON among the flags.
- Schedule: threads are not created or ended during a run; signals and alarms come in as unblocking.
- Locks.Lock.Step: only `sema_signal` wakes a sleeping thread.
- WriteStep: one writer and one reader; the signal sent with the broken pipe is not modelled.
- Swap-out and swap-in: a fork copies present entries only, and swapped pages are not preserved in general.
- File-backed areas: the source mixes byte and page offsets for them.
- The forward search `vma_find_gap`.
- SIFS, FIFOs, descriptor duplication, TTY, drivers, ELF loading, signals, time stamps and system-call plumbing.
- Pointer surgery of `dlist` and the hash buckets, which appear as sequences and maps.
