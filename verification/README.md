# A verified model of EGOS

EGOS is a small teaching operating system in C. This project models its stateful core in Dafny
and proves what that core is meant to guarantee:

- **Block storage.** `Device`, `Clock`, `Tree*`, `Fat*` and `ByteStrings`/`BlkFile` are a tower: a chunk of
  memory as a device, a write-through CLOCK cache over it, many sparse files in one block store (by trees of indirect
  blocks with an in-band free list, or by a file allocation table), and byte-addressed files over the trees. Block
  size is a parameter: `LOG_RPB`, the logarithm of the number of block references in a block, has no value. `TreeCheck` and
  `TreeChecker` are the integrity checker for the tree layout.
- **The user heap.** `Heap`, `Malloc` and `UserHeap` are the first-fit allocator, with its headers as bytes in the memory it
  hands out.
- **The kernel.** `KernelState` says what each step does to the process table, the run queues and the mailboxes; `KernelInv`
  and `KernelSteps` prove what every run keeps, `KernelMail` that messages arrive in order, `KernelRights` who may kill whom,
  and `KernelRounds` who runs when; `Kernel` is the code itself, in place, with its assertions.
- **SHA-256.** `ShaWords`, `ShaBlock` and `ShaStream` compare the code, in words of 64 bits, with FIPS 180-2; `ShaConstants`
  derives the constants, and `ShaKnown` computes a known answer.
- **Threads.** `Threads` are the user-level threads and semaphores, `BoundedBuffer` and `Philosophers` the programs over them.

The same pattern runs through all parts. A specification function or predicate says what an operation does to a
value (a disk, a list of headers, a kernel state); lemmas prove the invariants of that value; and a method of a class does
the same in place and is proved to refine the function. Where the code does not keep its promise, the model does
what the code does and a lemma states exactly when: the depth loop of truncation (`Index.DepthLoopExits`), the largest
offset (`TreeWrap.WrapLosesFile`, `FatSpace.OverwrittenInv`), non-zero sizes of byte files (`BlkFiles.ShrinkKeeps`), reads
of very large files (`BlkFiles.ReadIsWhole`), the search for free table entries (`FatTable.FindsUnlessMissed`), entry 0 of
the table (`FatSpace.GrowOutcome`, with a run in `FatZero.ZeroIsShared`), the disks that fatdisk_create cannot use
(`FatCreate.MadeIsNew`), the superblock with the largest number of inode blocks (`TreeChecker.Check`), and pieces of 2^32
bytes and more (`ShaStream.CarryIsRight`).

`dafny verify dfyconfig.toml` checks the project. Several loops of the source are methods of their own here, so
that each proof stays short.

## Model

| member | source | states |
|---|---|---|
| Index.CountLevels | egos/grass/block/treedisk.c:56-61 | the shift loop of read, write and check finds the least height whose tree reaches the offset |
| Index.LevelsIsLeast | egos/grass/block/treedisk.c:306-311 | a height reaches offset x exactly if it is at least Levels(x): a shift by whole digits leaves 0 |
| Index.ShiftIsUp | egos/grass/block/treedisk.c:56-61 | shifting a 32-bit offset by k digits leads to its k-th ancestor in the tree, also for shifts of 32 bits and more |
| Index.DepthLoopExits | egos/grass/block/treedisk.c:227-233 | the depth loop of treedisk_free_file ends if and only if nblocks is at most 2^(L*floor(31/L)): beyond that the 32-bit capacity product wraps to 0 |
| Index.FreeDepth | egos/grass/block/treedisk.c:227-235 | where that loop ends, the depth it finds is the one that read and write find by shifting |
| TreeLayout.InodePosition | egos/grass/block/treedisk.c:66-88 | inode i is in block 1 + i / INODES_PER_BLOCK at position i % INODES_PER_BLOCK |
| TreeLayout.InodesApart | egos/grass/block/treedisk.c:66-88 | the words of different inodes are different words on the disk |
| FreeList.TakeSlot | egos/grass/block/treedisk.c:93-136 | taking the last named block of the first free list block keeps the list well formed and frees no other block |
| FreeList.TakeHead | egos/grass/block/treedisk.c:93-136 | taking a first free list block that names nothing keeps the list well formed |
| FreeList.AllocKeeps | egos/grass/block/treedisk.c:93-136 | an allocation hands out a block that was free and changes nothing but the free list; it fails if and only if no block is free |
| FreeList.FreeKeeps | egos/grass/block/treedisk.c:138-186 | a freed block is free once, zeroed but for links, and nothing else but the free list changes |
| TreeFS.ExactlyOneRole | egos/grass/block/treedisk.c:93-236 | no leak and no sharing: on a valid disk every block has exactly one role, read off the disk alone |
| TreeFS.OnePath | egos/grass/block/treedisk.c:285-344 | a block is reached by one path of one file |
| TreeFS.BeyondEndIsNull | egos/grass/block/treedisk.c:285-344 | there is no block in a tree beyond the end of its file |
| TreeFS.GrownPathIsEmpty | egos/grass/block/treedisk.c:385-454 | after new roots have been stacked on the old one, the path to an offset beyond the old end meets only holes |
| TreeLayout.GrowNodeAt | egos/grass/block/treedisk.c:385-407 | a new root with refs[0] = old root moves no node of the old tree |
| TreeLayout.LinkNodeAt | egos/grass/block/treedisk.c:417-454 | a new reference in a hole adds one node, and every other node stays where it was |
| TreeOps.GrowKeeps | egos/grass/block/treedisk.c:385-407 | stacking roots takes one free block per level and keeps the file, the other files and the free list |
| TreeOps.WalkKeeps | egos/grass/block/treedisk.c:417-458 | the walk down allocates exactly the missing nodes of one path; it panics if and only if there are fewer free blocks than holes on the path |
| TreeOps.WriteKeeps | egos/grass/block/treedisk.c:347-459 | a write keeps the invariant and makes the file the sparse array with the block at the offset, all others untouched; it panics if and only if too few blocks are free |
| TreeOps.ReadIsFile | egos/grass/block/treedisk.c:285-344 | the walk of a read finds the contents of the file at the offset |
| TreeOps.HoleReads | egos/grass/block/treedisk.c:320-336 | below a hole there are only holes, which read as zeros |
| TreeFree.FreeTreeKeeps | egos/grass/block/treedisk.c:191-209 | freeing a tree frees each of its blocks once and nothing else |
| TreeFree.TruncateKeeps | egos/grass/block/treedisk.c:213-277 | truncation keeps the invariant, empties that file alone, and returns exactly its nodes, zeroed, to the free list |
| TreeDisks.TreeDisk.AllocBlock | egos/grass/block/treedisk.c:93-136 | the allocation in place is the specified one |
| TreeDisks.TreeDisk.FreeBlock | egos/grass/block/treedisk.c:138-186 | the freeing in place is the specified one |
| TreeDisks.TreeDisk.Read | egos/grass/block/treedisk.c:285-344 | succeeds if and only if the inode and the offset exist, and returns the block of the file there; the disk is unchanged |
| TreeDisks.TreeDisk.Write | egos/grass/block/treedisk.c:347-459 | which outcome happens when, and that the files afterwards are those before with one block written; blocks are conserved; at the largest 32-bit offset the disk is that of TreeWrap.WrapOp |
| TreeDisks.TreeDisk.RecursiveFree | egos/grass/block/treedisk.c:191-209 | the recursion in place is the specified one |
| TreeDisks.TreeDisk.SetSize | egos/grass/block/treedisk.c:256-277 | emptying a file, refusing other sizes, and when the depth loop never ends |
| TreeDisks.TreeDisk.SetupFreeList | egos/grass/block/treedisk.c:510-529 | the blocks behind the inodes are all in the free list, each block of it with the following ones in its slots |
| TreeDisks.TreeDisk.Create | egos/grass/block/treedisk.c:533-583 | a new file system has all files empty and all blocks behind the inodes free; a formatted disk is left alone; refused if and only if too small |
| TreeCreate.InodesFit | egos/grass/block/treedisk.c:538-541 | the inode blocks hold the inodes asked for, with none to spare, if and only if the rounding does not wrap |
| TreeCreate.FreshInv | egos/grass/block/treedisk.c:510-583 | the disk that treedisk_create writes satisfies the invariant, with all files empty |
| TreeDisks.SizeWraps | egos/grass/block/treedisk.c:369-375 | the size that the write stores: the offset is inside the file afterwards if and only if it is not the largest 32-bit number; for that one nblocks becomes 0 |
| TreeWrap.WrapLosesFile | egos/grass/block/treedisk.c:369-458 | the write at the largest offset, on an empty file or one whose tree is as high as a tree gets: it panics if and only if too few blocks are free for the holes on the path; else the block is stored at the end of the path, the file reads as empty, the others are as they were, and no owners make the disk valid again |
| TreeWrap.WrapBreaks | egos/grass/block/treedisk.c:369-415 | writing back the inode for that offset leaves a valid disk if and only if the file was empty |
| TreeWrap.WrapReadsData | egos/grass/block/treedisk.c:385-454 | on a file of one block the walk for that offset takes the words of the data for block references |
| TreeRuns.StepKeeps | egos/grass/block/treedisk.c:256-459 | one call keeps the invariant and changes one file as specified |
| TreeRuns.StopsOnly | egos/grass/block/treedisk.c:213-459 | a call does not complete if and only if the disk is too full, the offset is the largest, or the file is too large to be freed |
| TreeRuns.AnyRun | egos/grass/block/treedisk.c:93-583 | over any run of writes and truncations of all inodes from a new disk: the invariant holds, and each offset holds the last block written there since the file was emptied, or zeros |
| TreeRuns.NeverEnds | egos/grass/block/treedisk.c:213-277 | an input for which the depth loop never ends: a new disk, one write at offset MaxFreeable(), and the truncation of that file |
| TreeCheck.FirstBound | egos/grass/block/treedisk_chk.c:60-77 | a node starts at or before an offset if and only if its index is at most that of the ancestor of the offset |
| TreeCheck.CheckSound | egos/grass/block/treedisk_chk.c:34-80 | a completed scan of a tree has met every node in range on the disk, each in its role, and claimed nothing else |
| TreeCheck.CheckComplete | egos/grass/block/treedisk_chk.c:34-80 | the scan of a valid tree completes and meets exactly its nodes, although the 32-bit offset may wrap |
| TreeCheck.ListSound | egos/grass/block/treedisk_chk.c:148-186 | a completed scan of the free list has met every list block and every slot on the disk; the list is finite |
| TreeCheck.FewerUnknown | egos/grass/block/treedisk_chk.c:148-186 | each turn of the free list loop leaves fewer unknown blocks, so that it ends on any image |
| TreeCheck.AcceptedMeans | egos/grass/block/treedisk_chk.c:82-199 | on every image: if the check accepts, no live reference leads off the disk and no block has two roles; if it reports no leak every block has a role, and if it does one has none |
| TreeCheck.ValidIsAccepted | egos/grass/block/treedisk_chk.c:82-199 | every image that satisfies the invariant is accepted, with no block unaccounted for |
| TreeCheck.ReachableIsAccepted | egos/grass/block/treedisk_chk.c:82-199 | so is every image that any run of calls makes of a new disk |
| TreeChecker.CheckInode | egos/grass/block/treedisk_chk.c:34-80 | the recursion over binfo in place is the specified scan |
| TreeChecker.CheckFreeList | egos/grass/block/treedisk_chk.c:148-186 | the loop over the free list in place is the specified scan, and ends |
| TreeChecker.Check | egos/grass/block/treedisk_chk.c:82-199 | the verdict is the specified one; it writes beyond binfo if and only if n_inodeblocks is the largest 32-bit number and the head of the free list is on the disk |
| TreeChecker.OverrunImage | egos/grass/block/treedisk_chk.c:106-122 | an image of one block that passes the check of the superblock though it claims 2^32 - 1 inode blocks |
| TreeReject.RejectedMeans | egos/grass/block/treedisk_chk.c:20-199 | an image that is rejected, though its superblock is in order, has a reference, in a tree or in the free list, that leads off the disk, or a block with two roles; so none is rejected for leaking |
| Clock.SecondChanceUnique | egos/grass/block/clockdisk.c:54-92 | the victim and the marks left behind are determined by the marks before |
| Clock.ClockDisk.FindVictim | egos/grass/block/clockdisk.c:54-92 | at most n + 1 probes; exactly the used entries passed are aged; the first that is not used is taken |
| Clock.ClockDisk.CacheUpdate | egos/grass/block/clockdisk.c:54-92 | the block is cached in the place of the victim, the cache stays coherent, and the hand stays at most 2n + 1 |
| Clock.ClockDisk.Read | egos/grass/block/clockdisk.c:113-152 | a read returns what the store below holds and never fails on a hit, also when the device fails; a hit marks its entry and changes nothing else, a miss is that of cache_update, and a read that fails changes nothing |
| Clock.ClockDisk.Write | egos/grass/block/clockdisk.c:154-189 | the store changes if and only if the device took the write, and the cache stays coherent in both cases; the marks change as in a read |
| Clock.ClockDisk.SetSize | egos/grass/block/clockdisk.c:100-109 | exactly the blocks beyond the new size leave the cache, and no other mark changes |
| ClockRuns.MarkedIsRecent | egos/grass/block/clockdisk.c:54-189 | over any run, an entry is marked if and only if it was used since the hand last passed it |
| ClockRuns.VictimIsNotRecent | egos/grass/block/clockdisk.c:54-92 | over any run, the entry that a missing block takes is not one that was used since the hand last passed it, unless all were; all other blocks stay where they are |
| FatTable.FindsUnlessMissed | egos/grass/block/fatdisk.c:73-109 | find_free_entry gives up if and only if the only free entries are before the start in its block, where it never looks |
| FatTable.FullMeans | egos/grass/block/fatdisk.c:117-142 | when an allocation panics though the disk is not full |
| FatTable.AllocKeeps | egos/grass/block/fatdisk.c:117-142 | the allocated entry is in no chain and its block is there and zero; the free list names a free entry again |
| FatTable.AppendKeeps | egos/grass/block/fatdisk.c:376-418 | appending a new entry keeps all chains ended, apart from each other and unbroken |
| FatSpace.SearchIsNext | egos/grass/block/fatdisk.c:73-109 | find_free_entry finds the least free entry from the start on, else the least one before the block of the start |
| FatSpace.GrowOutcome | egos/grass/block/fatdisk.c:376-418 | growing a file by n > 0 entries gets entry 0 as a successor if and only if that comes up among the n, not as the head of the file and not as the last free entry; otherwise it panics if and only if n is at least the number of free entries that the search gets to: those from the free list on, and those before it if the first of them is in an earlier block of the table than the last free entry |
| FatSpace.ZeroFrees | egos/grass/block/fatdisk.c:396-400 | where entry 0 becomes a successor, the entry before it is free again though it is in the file |
| FatZero.ZeroIsShared | egos/grass/block/fatdisk.c:353-429 | a valid table of two blocks and a write that gets entry 0 as a successor; after emptying one file and writing twice to another, one entry is the second block of two files, and no chains make the table valid |
| FatTable.GrowKeeps | egos/grass/block/fatdisk.c:376-418 | the loop appends as many entries as asked for, with zero blocks, keeps everything else, and loses no entry |
| FatTable.WriteKeeps | egos/grass/block/fatdisk.c:353-429 | a completed write keeps the invariant and is a write to the array of blocks of that file |
| FatRuns.WriteOpIs | egos/grass/block/fatdisk.c:353-429 | the write found by following the table is the write in terms of the chains, and keeps the invariant: every entry that has a block is free or in one place of one chain |
| FatRuns.StepKeeps | egos/grass/block/fatdisk.c:296-429 | one call keeps the invariant and changes one file as specified |
| FatRuns.EndsOnly | egos/grass/block/fatdisk.c:353-429 | a call does not complete if and only if entry 0 is in the way, the free entries do not suffice, or the offset is the largest |
| FatRuns.AnyRun | egos/grass/block/fatdisk.c:296-509 | over any run of writes and truncations of all files from a new table: the invariant holds, no entry is lost, and each offset holds the last block written there since the file was emptied, or zeros |
| FatCreate.MadeIsNew | egos/grass/block/fatdisk.c:181-293 | the disk that fatdisk_create writes is a new file system if and only if the blocks behind the inodes are whole groups of R + 1 and the data blocks were zero |
| FatCreate.NotEven | egos/grass/block/fatdisk.c:190-206 | otherwise the last entry of the partial group is free and has no block |
| FatSpace.OverwrittenInv | egos/grass/block/fatdisk.c:422-425 | a write at the largest offset keeps the files if and only if the block agrees with the last block of the table on every entry that has a data block, and marks no other as free |
| FatTable.FollowChain | egos/grass/block/fatdisk.c:221-251 | following the table i times leads to the i-th entry of the chain |
| FatTable.EmptyKeeps | egos/grass/block/fatdisk.c:296-348 | emptying a file frees all its entries and leaves the other files as they were |
| FatDisks.FatDisk.FindFree | egos/grass/block/fatdisk.c:73-109 | the search in place is the specified one |
| FatDisks.FatDisk.Allocate | egos/grass/block/fatdisk.c:117-142 | the allocation in place is the specified one |
| FatDisks.FatDisk.Append | egos/grass/block/fatdisk.c:376-418 | the appending loop in place is the specified one, up to the outcomes at which it stops |
| FatDisks.FatDisk.Read | egos/grass/block/fatdisk.c:433-475 | succeeds if and only if the inode and offset exist, and returns the block of the file |
| FatDisks.FatDisk.Write | egos/grass/block/fatdisk.c:353-429 | which outcome happens when, by counting free entries; the files afterwards are those before with one block written; at the largest offset the block goes over the last block of the table |
| FatDisks.FatDisk.SetupFatFreeList | egos/grass/block/fatdisk.c:181-214 | the loop writes the table blocks in order, and no others |
| FatDisks.FatDisk.Create | egos/grass/block/fatdisk.c:254-293 | makes the disk of FatCreate, without touching the data blocks; a formatted disk is left alone; refused if and only if too small |
| FatDisks.MadeIsShown | egos/grass/block/fatdisk.c:254-293 | a disk so made, if it is a new file system, is one that the operations can work on |
| FatDisks.FatDisk.SetSize | egos/grass/block/fatdisk.c:494-509 | emptying frees every entry of the chain; other sizes are refused |
| ByteStrings.FlatWrite | egos/grass/blkfilesvr.c:73-85 | writing a block of a file is overlaying its bytes at the position of the block |
| ByteStrings.BytesWords | egos/grass/block/block_store.h:40-48 | turning bytes into words and back gives the same bytes |
| BlkFiles.MultiblockRead | egos/grass/blkfilesvr.c:52-71 | reads as many blocks as there are, in order, into the buffer and leaves the rest of the buffer |
| BlkFiles.MultiblockWrite | egos/grass/blkfilesvr.c:73-85 | overlays the file with the blocks of the buffer |
| BlkFiles.ReadMirrors | egos/grass/blkfilesvr.c:389-396 | the buffer holds what is stored, and zeros behind the last block |
| BlkFiles.PutIsOverlay | egos/grass/blkfilesvr.c:357-411 | writing the buffer back is overlaying the file with the data, and keeps size/BLOCK_SIZE + 1 blocks and zeros behind the end |
| BlkFiles.BlkFile.Put | egos/grass/blkfilesvr.c:357-411 | the bytes of the file become the old ones with the data at the offset and zeros in a gap; other files are unchanged |
| BlkFiles.BlkFile.DoWrite | egos/grass/blkfilesvr.c:415-444 | served if and only if the file exists and the size is that of the data; then as blkfile_put; otherwise nothing changes |
| BlkFiles.BlkFile.DoRead | egos/grass/blkfilesvr.c:282-355 | returns exactly the bytes of the file from the offset on, as many as n in the source comes to |
| BlkFiles.ReadIsWhole | egos/grass/blkfilesvr.c:317-322 | that is all that was asked for and is there, if and only if truncating the rest of the size to 32 bits loses nothing that matters |
| BlkFiles.ShortRead | egos/grass/blkfilesvr.c:317-322 | of a file of 2^32 + 5 bytes, a read of ten returns five |
| BlkFiles.BlkFile.DoSetSize | egos/grass/blkfilesvr.c:473-503 | size 0 empties the file; another size leaves it well kept if and only if it needs as many blocks and the bytes cut off are zero |
| BlkFiles.ShrinkKeeps | egos/grass/blkfilesvr.c:493-502 | the exact condition for a smaller size |
| BlkFiles.StaleByte | egos/grass/blkfilesvr.c:493-502 | a file of two ones whose size is set to 1 keeps a stale byte |
| BlkFiles.LastWriteWins | egos/grass/blkfilesvr.c:282-411 | over any sequence of writes and emptyings, a byte is the one written last |
| BlkFiles.GapsAreZero | egos/grass/blkfilesvr.c:282-411 | a byte never written since the file was emptied is zero |
| BlkFiles.SizeIsFarthest | egos/grass/blkfilesvr.c:357-411 | the file ends where the farthest write since it was emptied ended |
| Heap.FieldSet | egos/lib/malloc.c:36-41 | storing one field of a header in memory changes that field of that header and no other header |
| Heap.HeadersApart | egos/lib/malloc.c:27-35 | headers tile the heap: none overlaps another or the block of another |
| Heap.SpliceOk | egos/lib/malloc.c:27-35 | replacing a stretch of headers by one that fits keeps the heap well formed: tiling, prev fields, sizes, no two adjacent free blocks |
| Malloc.FitsOrSplits | egos/lib/malloc.c:114-148 | a free block that is large enough fits exactly or can be split, since sizes are multiples of 16 |
| Malloc.LiveDisjoint | egos/lib/malloc.c:27-35 | live blocks do not overlap |
| Malloc.AllocLive | egos/lib/malloc.c:44-158 | an allocation adds exactly the new block to the live ones |
| Malloc.FreeLive | egos/lib/malloc.c:171-200 | freeing removes exactly that block from the live ones |
| Malloc.TakePart | egos/lib/malloc.c:122-145 | the stores of a split leave a well-formed heap and no live byte changed |
| Malloc.GrowOk | egos/lib/malloc.c:83-111 | the stores that extend the heap leave a well-formed heap and no live byte changed |
| Malloc.FreeOk | egos/lib/malloc.c:171-200 | the stores of m_free, in each of the four cases of merging, leave a well-formed heap and no live byte changed |
| UserHeaps.UserHeap.Alloc | egos/lib/malloc.c:44-158 | the lowest free block that is large enough is taken, and the heap extended only if there is none; the result is aligned and new; other live blocks keep their bytes; when it crashes or runs out |
| UserHeaps.UserHeap.FindRoom | egos/lib/malloc.c:81-157 | the walk ends and finds the first fit |
| UserHeaps.UserHeap.Extend | egos/lib/malloc.c:83-111 | the heap grows at its last block, or at a free block before it |
| UserHeaps.UserHeap.Free | egos/lib/malloc.c:171-200 | the block is joined with free neighbours; all other live blocks stay with their bytes |
| UserHeaps.UserHeap.Realloc | egos/lib/malloc.c:204-222 | the new block begins with the common prefix of the old one, which is freed; other live blocks stay with their bytes |
| UserHeaps.WritesKeepHeap | egos/lib/malloc.c:27-35 | whatever a program writes to its block, the heap stays well formed |
| KernelInv.SendKeeps | egos/grass/process.c:321-380 | sending keeps the invariant, whoever sends what to whom, and from interrupts too |
| KernelInv.WakeClientsKeeps | egos/grass/process.c:440-450 | after it no client waits for the dead server |
| KernelInv.TermKeeps | egos/grass/process.c:408-451 | a dying process unblocks all its clients, and the invariant holds again |
| KernelInv.ReleaseKeeps | egos/grass/process.c:207-239 | a released slot is free, once, and the counts are right |
| KernelInv.ZapKeeps | egos/grass/process.c:481-505 | killing keeps the invariant, whoever is killed in whatever state |
| KernelInv.SelectKeeps | egos/grass/process.c:717-728 | the process picked is runnable, not the current one, and of the highest priority there is; if none is picked, all run queues are empty |
| KernelInv.SwitchKeeps | egos/grass/process.c:782-827 | after a switch the old process is queued, released or left waiting |
| KernelSteps.RecvStartKeeps | egos/grass/process.c:272-290 | waiting for a message keeps the invariant, and there is no reply yet when one is waited for |
| KernelSteps.RecvFinishKeeps | egos/grass/process.c:289-314 | the process no longer waits, and a reply that it takes is from the server that it called |
| KernelSteps.RpcSendKeeps | egos/grass/procsys.c:62-77 | the server that a client is about to wait for is alive |
| KernelSteps.CreateKeeps | egos/grass/process.c:585-667 | creation keeps the invariant, and the new process has a new pid |
| KernelSteps.KillKeeps | egos/grass/process.c:509-543 | proc_kill keeps the invariant for any killer and victim, and for all interruptable ones |
| KernelSteps.RoundKeeps | egos/grass/process.c:677-828 | a scheduling round keeps the invariant; if it switches, to another process; if nobody runs, nobody is runnable |
| KernelSteps.StepKeeps | egos/grass/process.c:269-828 | every step keeps the invariant |
| KernelSteps.InitialInv | egos/grass/process.c:1161-1239 | the state after proc_initialize satisfies it |
| KernelSteps.AnyRun | egos/grass/process.c:269-828 | in every run: each runnable or dead process but the current one is on exactly one run queue, once; whoever waits for a reply waits for a live process; there is at most one reply, for a client about to take it, from the server called |
| KernelSteps.InterruptableKeeps | egos/grass/spawnsvr.c:38 | a process that makes itself interruptable keeps the invariant |
| KernelSteps.ZapAllDead | egos/grass/process.c:519-524 | proc_kill with pid 0 leaves no interruptable process alive that the killer may kill |
| KernelMail.SendOkMeans | egos/grass/process.c:321-346 | proc_send succeeds if and only if a process with the pid is there and not dead and, for a reply, waits for one from the sender |
| KernelMail.SendDelivers | egos/grass/process.c:321-380 | the message, with its sender, becomes the last in that mailbox; no other mailbox changes; a process that waited for it can run |
| KernelMail.ReplyArrives | egos/grass/process.c:289-380 | a reply that is accepted is the one message that the client finds when it runs again |
| KernelMail.TermPasses | egos/grass/process.c:408-451 | a death puts the notice, with pid and status, into the mailbox of the owner if that is there and not dead, and nothing into any other |
| KernelMail.StepKeepsMail | egos/grass/process.c:272-828 | whatever the step, mailboxes lose messages only to their owners, from the front, and get them at the end, in the order in which they are sent |
| KernelMail.DeliveredInOrder | egos/grass/process.c:272-828 | in every run, for each process and type: the messages that proc_recv has given it, followed by those in its mailbox, are those sent to it since it was created, in order, each with its sender and contents |
| KernelRights.KillMeans | egos/grass/process.c:481-543 | by the users before the call: if the killer is neither user 0 nor the user of the victim nothing changes; otherwise the victim is dead, nobody else dies, and others are woken up only by a death notice or because their server died |
| KernelRights.KillAllMeans | egos/grass/process.c:509-532 | dead after proc_kill with pid 0 are those dead before and those that are interruptable and of the user of the killer (all interruptable ones for user 0); the others as for one victim |
| KernelRights.KillNobody | egos/grass/process.c:509-535 | an unknown killer or victim changes nothing |
| KernelRights.CreateOkMeans | egos/grass/process.c:588-618 | a process can be created if and only if the system is not shutting down, its owner is there, and a slot is free |
| KernelRights.CreateMeans | egos/grass/process.c:585-667 | a parent other than user 0 passes its user on; the new process has a new pid and no mail and runs at once, the current one is queued last, and nobody else changes |
| KernelRounds.TickWakes | egos/grass/process.c:690-706 | exactly the processes whose time is up are woken up by a round, and all others stay as they are |
| KernelRounds.TickKills | egos/grass/process.c:690-694 | while the system is shutting down no process outlives a round |
| KernelRounds.RecvWaits | egos/grass/process.c:272-303 | proc_recv returns at once if and only if there is a message, and then with the first one |
| KernelRounds.RecvTimesOut | egos/grass/process.c:281-284 | a wait ends by the time at a round if and only if a limit was given and has passed since the call |
| KernelRounds.WakeupQueues | egos/grass/process.c:384-402 | who is woken up without a message is queued last, on the lowest level but one if it was on the lowest |
| KernelRounds.SelectIsFirst | egos/grass/process.c:717-740 | the process picked is the first that can run, by level and then by its place in the queue; those before it are off the queues, those behind are still there in order |
| KernelRounds.RoundMeans | egos/grass/process.c:677-828 | when a round switches, and to whom; when the current process goes on; when the system halts |
| KernelRounds.StepInTurn | egos/grass/process.c:243-828 | every step leaves the processes queued at a level in their order, takes some from the front at most, and queues others behind them |
| KernelRounds.FailsWithReason | egos/grass/process.c:272-451 | proc_recv returns without a message only to a process that has waited and whose server is dead or whose time is up |
| Kernels.Kernel.SetInterruptable | egos/grass/spawnsvr.c:38 | the step in place |
| Kernels.Kernel.ProcShutdown | egos/grass/process.c:1243-1246 | the step in place, also from an interrupt |
| Kernels.Kernel.CheckPriority | egos/grass/process.c:106-118 | the step in place |
| Kernels.Kernel.ProcSend | egos/grass/process.c:321-380 | the step in place, with its assertion; it succeeds if and only if the process is there, not dead, and for a reply waits for one from the sender |
| Kernels.Kernel.ProcWakeup | egos/grass/process.c:384-402 | the step in place, with its assertion |
| Kernels.Kernel.ProcTerm | egos/grass/process.c:408-451 | the step in place, with its assertion; the process is a zombie afterwards |
| Kernels.Kernel.ProcZap | egos/grass/process.c:481-505 | the step in place, with its assertions; refused, it changes nothing |
| Kernels.Kernel.ProcKill | egos/grass/process.c:509-543 | the step in place |
| Kernels.Kernel.ProcCreate | egos/grass/process.c:585-667 | the step in place: the pid returned is the new one, or 0 |
| Kernels.Kernel.RecvBegin | egos/grass/process.c:272-295 | the step in place, with its assertions |
| Kernels.Kernel.RecvEnd | egos/grass/process.c:289-314 | the step in place, with its assertions; replies come from the server called |
| Kernels.Kernel.SysRpc | egos/grass/procsys.c:62-83 | a client that waits, waits for a reply from the process that it called; it waits if and only if that is another process, there and not dead |
| Kernels.Kernel.SysRecv | egos/grass/procsys.c:30-44 | replies cannot be received by this call |
| Kernels.Kernel.SysSend | egos/grass/procsys.c:48-58 | requests cannot be sent by this call |
| Kernels.Kernel.FindNext | egos/grass/process.c:717-740 | the loops over the run queues in place are the specified selection |
| Kernels.Kernel.YieldRound | egos/grass/process.c:677-828 | the round in place, with its assertions |
| Kernels.Kernel.AfterSwitch | egos/grass/process.c:562-579 | the end of a switch in place, with its assertions |
| ShaWords.LowPlus | egos/lib/sha256.c:96-101 | addition of wide words does not let the high halves in |
| ShaWords.LowRotr | egos/lib/sha256.c:78-79 | the rotation macro has the right low half, whatever the high half holds |
| ShaWords.LowF0 | egos/lib/sha256.c:87 | F0 is Maj |
| ShaWords.LowF1 | egos/lib/sha256.c:88 | F1 is Ch |
| ShaWords.LowS2 | egos/lib/sha256.c:84 | S2 is the first of the functions with capital sigmas |
| ShaWords.LowBytes | egos/lib/sha256.c:33-39 | the bytes of a wide word are those of its low half |
| ShaBlock.P | egos/lib/sha256.c:96-101 | one line changes two registers, and the eight of them renamed are one round of section 6.2.2 of FIPS 180-2 |
| ShaBlock.R | egos/lib/sha256.c:90-94 | the next word of the message schedule |
| ShaBlock.EightLines | egos/lib/sha256.c:112-175 | eight lines with rotated names are eight rounds |
| ShaBlock.Process | egos/lib/sha256.c:56-185 | the low halves of the state become the next hash value, with garbage allowed in the high halves |
| ShaConstants.PrimesInOrder | egos/lib/sha256.c:112-175 | the table of primes holds the first 64, in order and without gaps |
| ShaConstants.ConstantsAreRoots | egos/lib/sha256.c:112-175 | each constant of the rounds is the first 32 bits of the fraction of the cube root of its prime (section 4.2.2 of FIPS 180-2) |
| ShaConstants.InitialIsRoots | egos/lib/sha256.c:46-53 | the initial hash value is made of the first 32 bits of the fractions of the square roots of the first eight primes (section 5.3.2) |
| ShaKnown.DigestOfAbc | egos/lib/sha256.c:41-261 | the digest of "abc", round by round, is that of appendix B.1 |
| ShaConstants.LengthAt | egos/lib/sha256.c:236-245 | the bytes of the length are its digits to the base 256 |
| ShaConstants.NumberOfDigits | egos/lib/sha256.c:236-245 | and these digits make up the length |
| ShaStream.AbsorbTwice | egos/lib/sha256.c:212-217 | hashing whole blocks one after the other is hashing them at once |
| ShaStream.Context.Update | egos/lib/sha256.c:187-224 | the context belongs to the longer message; the byte counter is right if and only if the piece has fewer than 2^32 bytes or a carry of one happens to be right |
| ShaStream.CarryIsRight | egos/lib/sha256.c:196-200 | the exact condition for the carry |
| ShaStream.CarryLost | egos/lib/sha256.c:196-200 | a piece of 2^33 bytes loses a carry |
| ShaStream.PaddingParts | egos/lib/sha256.c:226-251 | what sha256_finish appends is the padding of section 5.1.1 of FIPS 180-2 |
| ShaStream.Context.Finish | egos/lib/sha256.c:234-261 | the digest is that of the whole message, for fewer than 2^61 bytes |
| ShaStream.HashPieces | egos/lib/sha256.c:187-261 | however the message is cut into pieces, the digest is that of the whole |
| Threads.Monitor.Yield | egos/apps/mt.c:142-196 | each thread stays in one place: running, in the ready queue once, or waiting for one semaphore once; the first ready thread runs; when the program exits |
| Threads.Monitor.SemaDec | egos/apps/mt.c:267-277 | a permit is taken, or the thread waits and another runs |
| Threads.Monitor.SemaInc | egos/apps/mt.c:283-294 | the first waiting thread gets the permit directly, or the count goes up |
| Threads.FirstComeFirstServed | egos/apps/mt.c:267-294 | after any operations on a semaphore, of the threads that asked the first as many as there were permits have got one, the others wait in the order in which they asked, and the count is that of the permits nobody asked for |
| BoundedBuffer.PutData | egos/apps/mt.c:321-333 | a producer in the critical section finds a free slot: nothing unread is overwritten |
| BoundedBuffer.TakeData | egos/apps/mt.c:301-316 | a consumer in the critical section finds the oldest item |
| BoundedBuffer.StepKeeps | egos/apps/mt.c:301-335 | every step of any thread keeps the invariant |
| BoundedBuffer.AnyRun | egos/apps/mt.c:267-335 | under any scheduler: the items consumed are the first produced, in order; permits and those in flight make NSLOTS; one thread at most is in the critical section |
| BoundedBuffer.StepMoves | egos/apps/mt.c:301-335 | whoever can go on does: it gets a permit if there is one or is the last to wait; a producer puts in its item, a consumer takes the oldest, and a permit goes to whoever has waited longest |
| BoundedBuffer.GetsLock | egos/apps/mt.c:301-335 | whoever has a permit can get into the critical section |
| BoundedBuffer.CanConsume | egos/apps/mt.c:301-316 | as long as a consumer has not stopped, an item in the buffer can be consumed |
| BoundedBuffer.CanProduce | egos/apps/mt.c:321-333 | as long as there is a producer, a free slot can be filled |
| BoundedBuffer.NeverStuck | egos/apps/mt.c:267-335 | after any run with a producer and a consumer that has not stopped, the run can go on so that one more item is consumed |
| Philosophers.Ascending | egos/apps/mt.c:475-482 | every philosopher takes the fork with the smaller number first, of the two beside him |
| Philosophers.StepKeeps | egos/apps/mt.c:461-498 | every step of any philosopher keeps the invariant |
| Philosophers.WaitEnds | egos/apps/mt.c:461-498 | whoever waits for a fork waits, in the end, for somebody who can go on |
| Philosophers.AnyRun | egos/apps/mt.c:461-515 | for any number of philosophers from two on, under any scheduler: no fork is held twice, and there is no deadlock |
| Philosophers.StepMoves | egos/apps/mt.c:461-498 | whoever can go on does: he takes the fork if it is free or is the last to wait for it, and a fork put down goes to whoever has waited longest; which forks he holds then |
| Philosophers.EveryoneCanEat | egos/apps/mt.c:461-498 | from every table that satisfies the invariant, each philosopher who has not finished can come to hold both his forks |
| Philosophers.NobodyLockedOut | egos/apps/mt.c:461-515 | so whatever has happened in a run, it can go on so that he eats |

## Left out

- TreeDisks.TreeDisk.Write: at the largest offset, for a file that is not empty and whose tree is not as high as a tree gets, the disk is given as a function of the one before but not described further, since its data is taken for references; nor is what the panic of a full disk leaves behind.
- BlkFiles.BlkFile.Put: does not follow writes that end in block 2^32 - 1 or beyond it, whose block numbers are truncated to 32 bits, and does not say what is left when the disk is full.
- BlkFiles.BlkFile.DoWrite: the same.
- BlkFiles.BlkFile.DoRead: does not follow reads whose buffer size, in bytes, is 2^32 or more; the source allocates too little for them.
- FatDisks.FatDisk.Write: does not say what is on the disk when an allocation panics or when it stops at entry 0 as a successor (FatSpace.ZeroFrees and FatZero.ZeroIsShared say what the source goes on to do).
- FatDisks.FatDisk.Create: does not follow the setup of a disk of 2^32 - 1 blocks, where the 32-bit count of blocks may wrap. The static fatblocks, which a later boot does not set, is taken from the superblock everywhere.
- UserHeaps.UserHeap.Alloc: memory has an end here, where the source would write on beyond it.
- ShaStream.Context.Update: total[1] does not wrap at 2^64.
- TreeChecker.Check: assumes fewer than 2^32 blocks, the range of a block number.
- Devices that fail: the cache is proved for them; the file systems, which panic then, are proved for a device that does not fail. What a panic leaves behind, and crashes, are not modelled.
- blkfile: creation and deletion of files, permissions, the flushing of the stat cache to file 0, and messages; 64-bit offsets are numbers, which do not wrap where the outcome is followed.
- m_calloc: a multiplication and a loop of zeros. The counters of hits and misses of the cache.
- Philosophers.NobodyLockedOut: there is a run in which he eats, for any scheduler that takes it; that a given scheduler takes it is not said. The same holds for BoundedBuffer.NeverStuck.
- The 32-bit wrap-around of process ids and of the kernel's counters, page frames, message buffers, cleanup functions, and the curfew that ends a shutdown; a context switch is the choice of a new current process, and the times of day are arbitrary.
- The unrolled 64 lines of sha256_process are eight times eight lines here, with the constants in a table.
- Threads that were created and never entered: ctx_entry queues the outgoing thread whatever its state. The multi-reader lock.
- Demand paging and the TLB, signals, timers and devices, the other block stores, the servers' message loops, the shell and the other applications.
- queue.c: queues are sequences.
