# Verified models of the xv6 kernels, the WFS file system and the proxy queue

A Dafny project beside the repository. It models the parts of the course projects that are hard to get
right, in the form their C code has, and proves what they are for. `dafny verify dfyconfig.toml` checks
everything.

## What is modelled

Each module follows one component. Code that updates state in place is a class with methods and loops,
proved against specification functions; properties of whole runs and of every interleaving are lemmas
over those functions. A method whose result `ok` is false stands for a call that panics or that leaves
the memory it was given; for the calls that other code makes, the contract says exactly when.

Some contracts say that a state is in the set of outcomes of a step (`AfterWrite`, `AfterFilling`) where
others name a predicate; the sets are defined by predicates and are used where many steps compose.

| modules | component | main results |
|---|---|---|
| `Blocks`, `Bcache` | the buffer cache, bio.c: an LRU ring of doubly linked buffers | at most one buffer a block; the newest contents are never lost; the ring stays a permutation ordered by final release |
| `LogDisk`, `Log` | the redo log, log.c, over that cache, with every disk state it passes through | `CrashAtomicity`, and `Log.EndOp`, which carries it to the public call while readers hold buffers |
| `Reservation` | begin_op, log_write and end_op of all operations, interleaved | `ReservationHolds`; `GuardFires`, an exact condition |
| `FsBlocks`, `Fs` | bitmap allocator, block maps and file contents, fs.c, with every store given to log_write | files refine byte sequences; `Writei`, with exactly what it allocates and logs and when it panics |
| `FsBudget`, `FsSpent` | what a piece of filewrite logs, against what begin_op reserves | `ChunkBudget`; `FullPiece` and `SpentDisks`, exact conditions |
| `FsLog`, `FsThrough` | the disk that holds a file system; filewrite, file.c, through log and buffer cache | `FsThrough.Write`: a write from the system call down to the disk, crash-atomic piece by piece |
| `Heap` | the allocator of umalloc.c over sbrk | blocks tile what sbrk gave; `Malloc`, with the exact requests that it gets wrong |
| `Mmap`, `MmapRun` | mmap, munmap, growth on a fault, fork and exit | mapping tables stay disjoint; `ForkIsolation`; the round trip `MmapMunmap`; `FreeUnlessMapped` and `NothingLost` over every run of calls |
| `Vm` | two-level page tables, allocuvm and deallocuvm | the tables refine a map; allocuvm succeeds exactly when there are enough frames, and otherwise undoes itself |
| `Scheduler` | the scheduler with decay of p4, with forks and nice calls | `BoundedIffTwo`: waiting is bounded, from every reachable state, if and only if at most two processes compete; `NiceOrders` |
| `ExitWait` | fork, exit, wait, sleep, wakeup and kill | `ExitWaitProtocol` over every interleaving |
| `Pipe` | the ring buffer with wrapping counters, and its readers and writers | `PipeFifo`, with the exact steps that strand a reader; `CallsDone`, what every write and read returns |
| `WfsLog`, `WfsImage`, `WfsPath`, `Wfs`, `Fsck`, `WfsRun` | the log-structured file system of p7 on its mapped image, byte by byte, and its compaction | operations refine the log; `WfsLog.WrittenFound`; `Fsck.CompactionPreserves`; `WfsRun.RunKeepsTree`, exact over every run |
| `SafeQueue` | the proxy's queue and its monitor | `NoLostWakeup`; `Refines`, a bounded stable priority queue; `InsideIff`, exact |
| `Common` | what they share | |

The three xv6 kernels of the repository have the same log.c, bio.c, fs.c, pipe.c and umalloc.c; the
table below cites those of p5.

## Where the code does not do what it says

Each of these is a lemma with the input or the run, and with the exact condition under which the code is
right; the code is modelled as it is.

- `param.h` calls MAXOPBLOCKS the most blocks an operation writes. With the log that mkfs makes,
  log_write can panic as soon as operations log that many; one fewer is safe (`Reservation.GuardFires`).
  The pieces that filewrite cuts never log more, as its comment counts (`FsBudget.ChunkBudget`), but with
  a bitmap of four blocks or more a piece can log all of them (`FsSpent.SpentDisks`), in exactly the states
  that `FsBudget.FullPiece` names; the 1000-block disk of the repository has one bitmap block.
- commit runs while fileread, which takes no begin_op, may hold buffers. It finds a buffer if and only
  if logged blocks and held buffers number fewer than NBUF (`Log.HasRoom`, `Log.ReadersStarve`).
- malloc passes sbrk an int: requests of 2^31 - 15 bytes and more make it negative or zero, and sbrk
  still returns an address; from 2^32 - 7 bytes on the rounding wraps and the block is too small
  (`Heap.MisaskedExactly`, `Heap.PayloadFits`).
- munmap takes a length but erases the whole mapping: the table stays sound if and only if the length
  reaches the mapping's end and no present page behind it (`Mmap.UnmapWhole`). An mmap that gets its pages
  and finds no place loses them (`Mmap.Kernel.Mmap`, `MmapRun.NothingLost`). A growth fault does not check
  kalloc (`Mmap.Kernel.GrowUp`).
- The scheduler bounds waiting for two competitors; with any number from three on, forks and nice calls
  reach a state in which a process starves (`Scheduler.StarvationReached`, `Scheduler.Starvation`).
- A writer that is killed returns without waking readers, which may then sleep before a full pipe
  (`Pipe.StrandsIff`).
- In WFS a name in any directory is found below the root too (`WfsLog.LookupExact`, `WfsLog.StrayName`);
  unlinking such a path damages the root (`WfsRun.StrayUnlink`), and so can a create that runs out of
  space half-way (`Wfs.HalfCreated`). File names keep 31 of the 32 bytes that wfs.h reserves
  (`WfsLog.NameKept`).
- The queue's scan passes over negative priorities, so that a queue of only such requests makes get_work
  read outside its array, and so does a full array (`SafeQueue.Queue.TakeNext`, `SafeQueue.InsideIff`).

## Model

| member | source | states |
|---|---|---|
| `Bcache.UnlinkRemoves` | p5-xv6-memory-management/xv6-public/bio.c:131-132 | the two assignments that unlink a buffer turn the ring of all others, in both directions through the head, into a ring without it; no other order changes |
| `Bcache.PushFrontAdds` | p5-xv6-memory-management/xv6-public/bio.c:133-136 | the four assignments that relink it make it the first of the ring, forwards and backwards |
| `Bcache.MovedOrder` | p5-xv6-memory-management/xv6-public/bio.c:128-137 | after a final release the ring is again sorted by most recent final release |
| `Bcache.MovedRing` | p5-xv6-memory-management/xv6-public/bio.c:128-137 | unlinking and relinking keep the whole ring invariant: a permutation of all buffers, doubly linked, most recent final release first |
| `Bcache.CoherentBusy` | p5-xv6-memory-management/xv6-public/bio.c:61-93 | contents newer than the disk's are always in a dirty or locked buffer, so recycling a buffer with no references that is not dirty loses none |
| `Bcache.Cache.constructor` | p5-xv6-memory-management/xv6-public/bio.c:38-56 | binit: every buffer is free, unreferenced and on the ring, the last one first, and the newest contents are the disk's |
| `Bcache.Cache.FindCached` | p5-xv6-memory-management/xv6-public/bio.c:69-76 | the first scan finds the buffer of a block if and only if there is one |
| `Bcache.Cache.FindRecyclable` | p5-xv6-memory-management/xv6-public/bio.c:78-91 | the backward scan finds, if there is one, the buffer released longest ago among those without references that are not dirty |
| `Bcache.Cache.Bget` | p5-xv6-memory-management/xv6-public/bio.c:61-93 | a cached block gets one more reference, otherwise the least recently released recyclable buffer is taken over; it panics if and only if there is neither; no other buffer changes; at most one buffer per block |
| `Bcache.Cache.Bread` | p5-xv6-memory-management/xv6-public/bio.c:96-106 | the buffer returned is locked and holds the newest contents of the block, from the cache or the disk; it panics if and only if bget does |
| `Bcache.Cache.Modify` | p5-xv6-memory-management/xv6-public/fs.c:47-48 | changing the data of a locked buffer makes that the newest contents of its block and touches no other |
| `Bcache.Cache.Pin` | p5-xv6-memory-management/xv6-public/log.c:231 | setting B_DIRTY changes only the flag, and keeps the buffer from being recycled |
| `Bcache.Cache.Bwrite` | p5-xv6-memory-management/xv6-public/bio.c:109-116 | one atomic block write: the block's home gets the buffer's data and the history of disk states one more state |
| `Bcache.Cache.Brelse` | p5-xv6-memory-management/xv6-public/bio.c:120-141 | one reference less; on the last, the buffer and no other moves to the front of the ring |
| `Bcache.Cache.MoveToFront` | p5-xv6-memory-management/xv6-public/bio.c:131-136 | the pointer assignments carry out that move on the linked ring |
| `LogDisk.InstallAgain` | p5-xv6-memory-management/xv6-public/log.c:69-82 | installing after an install that stopped after any number of blocks gives the same disk as one complete install, repeated block numbers included |
| `LogDisk.RecoveryRestarts` | p5-xv6-memory-management/xv6-public/log.c:115-122 | the disk after any number of recovery's writes has a sound header and recovers to the same disk |
| `LogDisk.RecoveryConverges` | p5-xv6-memory-management/xv6-public/log.c:115-122 | any number of crashes during recovery changes nothing about what recovery ends with |
| `LogDisk.ClearedHead` | p5-xv6-memory-management/xv6-public/log.c:85-96 | recovering from an empty header leaves the disk alone |
| `LogDisk.Committed` | p5-xv6-memory-management/xv6-public/log.c:192-202 | once the first header is on the disk, recovery installs every logged block and changes no other home block |
| `LogDisk.CommitCrash` | p5-xv6-memory-management/xv6-public/log.c:192-202 | a crash after j of commit's writes recovers to all home blocks as before if j is at most the number of logged blocks, and to all of them new otherwise |
| `LogDisk.CommitComplete` | p5-xv6-memory-management/xv6-public/log.c:192-202 | a commit that is not interrupted leaves every logged block at home and the header empty |
| `LogDisk.CrashAtomicity` | p5-xv6-memory-management/xv6-public/log.c:115-122 | the main theorem: a crash between any two writes of commit followed by any number of crashes in recovery ends in the old or the new home blocks, and always the new ones after the first write_head |
| `Log.HasRoom` | p5-xv6-memory-management/xv6-public/bio.c:78-92 | bget finds a buffer to recycle if and only if the dirty blocks and the buffers that anybody holds are fewer than NBUF |
| `Log.QuietClean` | p5-xv6-memory-management/xv6-public/log.c:192-202 | a block that is not logged, and that no reader has changed, is on the disk in its newest contents |
| `Log.Durable` | p5-xv6-memory-management/xv6-public/log.c:192-202 | a finished commit has brought the newest contents of every home block to the disk |
| `Log.Log.constructor` | p5-xv6-memory-management/xv6-public/log.c:53-66 | initlog: the disk becomes the recovered disk through exactly the writes of one recovery |
| `Log.Log.ReadPair` | p5-xv6-memory-management/xv6-public/log.c:75-76 | the two bread calls of an install step get two different buffers, a log block's and a home block's, with the newest contents of each |
| `Log.Log.CopyOut` | p5-xv6-memory-management/xv6-public/log.c:77-80 | memmove, bwrite and two brelse are one write of the source's data to the destination block |
| `Log.Log.ToLog` | p5-xv6-memory-management/xv6-public/log.c:183-188 | write_log's step writes the newest contents of the home block to the log block and leaves the home block dirty |
| `Log.Log.ToHome` | p5-xv6-memory-management/xv6-public/log.c:75-80 | install_trans's step writes the log block to the home block, whose buffer is then clean |
| `Log.Log.WriteHead` | p5-xv6-memory-management/xv6-public/log.c:101-113 | the header on the disk lists exactly the logged blocks, by one write |
| `Log.Log.WriteLog` | p5-xv6-memory-management/xv6-public/log.c:177-190 | the disk goes through exactly the first n states of the commit sequence and no home block changes; it panics, before the first write, if and only if readers leave no buffer |
| `Log.Log.LogTurn` | p5-xv6-memory-management/xv6-public/log.c:182-189 | one turn of write_log is the next write of the commit sequence |
| `Log.Log.InstallTrans` | p5-xv6-memory-management/xv6-public/log.c:69-82 | every logged block is installed in order, one write each, and no buffer stays dirty |
| `Log.Log.InstallTurn` | p5-xv6-memory-management/xv6-public/log.c:74-81 | one turn of install_trans is the next write of the installation |
| `Log.Log.ReadHead` | p5-xv6-memory-management/xv6-public/log.c:85-96 | the in-memory log becomes the list in the header on the disk; nothing is written |
| `Log.Log.RecoverFromLog` | p5-xv6-memory-management/xv6-public/log.c:115-122 | the disk becomes the recovered disk through exactly the states of the recovery sequence, and the log is empty |
| `Log.Log.CommitPoint` | p5-xv6-memory-management/xv6-public/log.c:195-196 | write_log and the first write_head reach exactly the state from which recovery installs the transaction, unless readers leave no buffer, and then nothing is written |
| `Log.Log.CommitLogged` | p5-xv6-memory-management/xv6-public/log.c:194-200 | a commit's disk writes are exactly the 2n+2 states of the commit sequence |
| `Log.Log.Erase` | p5-xv6-memory-management/xv6-public/log.c:197-199 | installing and the second write_head empty the log |
| `Log.Log.Commit` | p5-xv6-memory-management/xv6-public/log.c:192-202 | while others hold buffers to read: it panics, before writing anything, if and only if logged blocks and held buffers make NBUF; otherwise every disk state passed through recovers to the home blocks before it or to the newest contents, and at the end the disk holds these |
| `Log.Log.BeginOp` | p5-xv6-memory-management/xv6-public/log.c:125-141 | an operation is admitted if and only if no commit is going on and there is room for MAXOPBLOCKS blocks of it and of every other operation |
| `Log.Log.FindSlot` | p5-xv6-memory-management/xv6-public/log.c:223-226 | the absorption scan ends at a slot of the block, or at the end if and only if it is not logged |
| `Log.Log.Record` | p5-xv6-memory-management/xv6-public/log.c:223-230 | a block is logged at most once, in the order of first writes |
| `Log.Log.LogWrite` | p5-xv6-memory-management/xv6-public/log.c:213-233 | it succeeds if and only if the log is not full and an operation is open, whether or not the block would be absorbed; then the buffer is pinned, and a block that is not yet in the list is added at its end |
| `Log.Log.EndOp` | p5-xv6-memory-management/xv6-public/log.c:145-174 | only the last operation commits; every disk state on the way recovers to the home blocks before it or to the newest contents; it panics exactly when a commit is going on or finds no buffer |
| `Log.EveryState` | p5-xv6-memory-management/xv6-public/log.c:192-202 | every disk state of a commit, while readers hold buffers, recovers to the contents before it or to the newest |
| `Log.ReadersStarve` | p5-xv6-memory-management/xv6-public/bio.c:78-92 | such a panic can happen: a sound cache with n logged blocks and NBUF - n readers has nothing to recycle; with 28 logged, as many as operations within their budget reach, two readers do |
| `Reservation.StepKeeps` | p5-xv6-memory-management/xv6-public/log.c:124-174 | every step of every operation keeps: logged blocks distinct, and logged blocks plus unspent reservations within LOGSIZE |
| `Reservation.ReservationHolds` | p5-xv6-memory-management/xv6-public/log.c:124-174 | over every interleaving in which operations log at most budget new blocks each, that invariant holds and at most MAXOPBLOCKS + 2*budget blocks are logged |
| `Reservation.FilledRun` | p5-xv6-memory-management/xv6-public/log.c:213-233 | with a budget of MAXOPBLOCKS there is a run that logs any number of blocks below LOGSIZE |
| `Reservation.GuardFires` | p5-xv6-memory-management/xv6-public/log.c:218-219 | with nlog = LOGSIZE, as mkfs.c:25 has it, some run panics "too big a transaction" if and only if operations may log MAXOPBLOCKS blocks: the documented budget is one too many |
| `Reservation.NeverPanics` | p5-xv6-memory-management/xv6-public/log.c:213-233 | no run in which each operation stays below MAXOPBLOCKS reaches a panic |
| `Heap.Disjoint` | p5-xv6-memory-management/xv6-public/umalloc.c:24-44 | blocks, free or live, do not overlap |
| `Heap.UnitsConserved` | p5-xv6-memory-management/xv6-public/umalloc.c:24-90 | the sizes of all blocks add up to the units obtained from sbrk |
| `Heap.FreedList` | p5-xv6-memory-management/xv6-public/umalloc.c:31-42 | relinking, with coalescing on either side, both or none, gives one circular list in address order with a single wrap and no two adjacent free blocks |
| `Heap.FreedInv` | p5-xv6-memory-management/xv6-public/umalloc.c:24-44 | with a block freed, the blocks still tile the heap, each with its size in its header, and the free list is sound |
| `Heap.FreedLive` | p5-xv6-memory-management/xv6-public/umalloc.c:24-44 | exactly the freed block is no longer live; all of its units belong to one free block; no unit appears or is lost |
| `Heap.PayloadFits` | p5-xv6-memory-management/xv6-public/umalloc.c:69 | the units that malloc computes hold the bytes asked for, with fewer than 8 to spare, if and only if nbytes + 7 does not wrap at 2^32 |
| `Heap.MisaskedExactly` | p5-xv6-memory-management/xv6-public/umalloc.c:54 | the byte count that sbrk receives, an unsigned product taken as an int, is zero or negative, and not the region's size, exactly for requests from 2^31 - 15 to 2^32 - 8 bytes |
| `Heap.RequestFits` | p5-xv6-memory-management/xv6-public/umalloc.c:54-69 | the block holds the bytes and sbrk is asked for its region, both at once, if and only if at most 2^31 - 16 bytes are asked for |
| `Heap.TakenWhole` | p5-xv6-memory-management/xv6-public/umalloc.c:75-76 | unlinking a block of exactly the size asked for keeps the free list and all blocks |
| `Heap.Carved` | p5-xv6-memory-management/xv6-public/umalloc.c:77-81 | cutting the tail off a larger block adds one live block of the size asked for, disjoint from all others |
| `Heap.Grown` | p5-xv6-memory-management/xv6-public/umalloc.c:46-61 | a region from sbrk, its header written, is one more block disjoint from all others |
| `Heap.AllTooSmall` | p5-xv6-memory-management/xv6-public/umalloc.c:73-87 | when the search comes back to where it began, every free block is too small |
| `Heap.Heap.constructor` | p5-xv6-memory-management/xv6-public/umalloc.c:21-22 | the empty heap before the first call, in a process of a given size |
| `Heap.Heap.FindGap` | p5-xv6-memory-management/xv6-public/umalloc.c:29-31 | the search stops, at the free block between which and the next the freed block lies by address |
| `Heap.Heap.Relink` | p5-xv6-memory-management/xv6-public/umalloc.c:32-41 | the pointer assignments of free carry out that insertion |
| `Heap.Heap.Free` | p5-xv6-memory-management/xv6-public/umalloc.c:24-44 | free of a live block removes it and nothing else from the live blocks and keeps the heap invariant and its units; freep is then the last free block before it |
| `Heap.Heap.Morecore` | p5-xv6-memory-management/xv6-public/umalloc.c:46-61 | where sbrk is asked for a positive count: the new region, of the units asked for but at least 4096, becomes free, a block large enough is then on the list, and no live block changes, or sbrk fails and nothing changes; for any other count, and no other reason, a header is stored outside the memory that sbrk gave |
| `Heap.Heap.Sbrk` | p5-xv6-memory-management/xv6-public/proc.c:164-180 | growproc and allocuvm on sbrk's signed count: a positive one adds a region if pages and addresses last, zero or a negative one adds none and still returns the old end, except that shrinking to nothing fails |
| `Heap.BlocksSmall` | p5-xv6-memory-management/xv6-public/umalloc.c:74 | no block is as large as the process may be |
| `Heap.Heap.AddRegion` | p5-xv6-memory-management/xv6-public/umalloc.c:54-58 | the region is one more block of the heap before it is freed |
| `Heap.Heap.Supply` | p5-xv6-memory-management/xv6-public/umalloc.c:57-60 | a region just obtained leaves a free block large enough for the request |
| `Heap.Heap.TakeWhole` | p5-xv6-memory-management/xv6-public/umalloc.c:75-76 | a fitting block goes over from the free list to the live blocks unchanged |
| `Heap.Heap.TakeTail` | p5-xv6-memory-management/xv6-public/umalloc.c:77-81 | a new live block of the size asked for is cut off a free one |
| `Heap.Heap.Take` | p5-xv6-memory-management/xv6-public/umalloc.c:74-84 | either way one new live block of exactly the units asked for |
| `Heap.Heap.TakeNext` | p5-xv6-memory-management/xv6-public/umalloc.c:73-84 | the block found is taken where the search from freep on first meets one large enough |
| `Heap.Heap.MakeBase` | p5-xv6-memory-management/xv6-public/umalloc.c:70-73 | the first malloc's list is the empty base block alone |
| `Heap.Heap.Search` | p5-xv6-memory-management/xv6-public/umalloc.c:73-89 | the loop ends; it gives the end of the first block large enough after freep if one fits, asks sbrk only when none does, and fails only when sbrk does |
| `Heap.Heap.Malloc` | p5-xv6-memory-management/xv6-public/umalloc.c:63-90 | unless the request is from 2^31 - 15 bytes to 2^32 - 8, and exactly then: a new live block, which holds the bytes with fewer than 8 to spare if they are at most 2^31 - 16, cut from the end of the first free block large enough after freep, beside unchanged live blocks; 0 if and only if none fits and sbrk fails; the process grows, by at least 4096 units, if and only if no free block fits and sbrk succeeds |
| `FsBlocks.WordWritten` | p5-xv6-memory-management/xv6-public/fs.c:390-393 | storing a block number in an indirect block changes that entry and no other |
| `FsBlocks.LittleEndian` | p5-xv6-memory-management/xv6-public/fs.c:390-393 | an entry is four bytes, the lowest first, and storing it changes these four bytes only |
| `FsBlocks.Flipped` | p5-xv6-memory-management/xv6-public/fs.c:66-68 | setting or clearing one bit of a byte changes no other bit |
| `FsBlocks.BitWritten` | p5-xv6-memory-management/xv6-public/fs.c:66-68 | setting or clearing a bitmap bit changes that bit and no other |
| `FsBlocks.BlockBitIs` | p5-xv6-memory-management/xv6-public/fs.c:66-68 | a bit of a bitmap block is that bit of byte i / 8, and changing it changes no other byte |
| `Fs.UsedFlipped` | p5-xv6-memory-management/xv6-public/fs.c:88-92 | one bitmap update changes whether that block is in use and no other's |
| `Fs.UsedMarked` | p5-xv6-memory-management/xv6-public/fs.c:57-95 | the set of blocks in use gains or loses exactly that block, and the metadata geometry stays |
| `Fs.UsedIs` | p5-xv6-memory-management/xv6-public/fs.c:66-68 | a block is in use if and only if bit b % 8 of its byte in its bitmap block is set |
| `Fs.LinkedDirect` | p5-xv6-memory-management/xv6-public/fs.c:378-388 | entering a fresh block in an empty direct or indirect slot keeps every block in at most one place |
| `Fs.LinkedEntry` | p5-xv6-memory-management/xv6-public/fs.c:389-394 | entering a fresh block in an empty entry of the indirect block keeps every block in at most one place |
| `Fs.DataWritten` | p5-xv6-memory-management/xv6-public/fs.c:499-503 | overwriting a data block changes the bytes of that file in that block, and no byte of any other file |
| `Fs.WrittenStep` | p5-xv6-memory-management/xv6-public/fs.c:498-504 | one turn of the write loop extends what is written by exactly the bytes of that turn |
| `Fs.WrittenContent` | p5-xv6-memory-management/xv6-public/fs.c:481-511 | after the loop and the size update the file is its old contents with src spliced in at off, and every other file is unchanged |
| `Fs.ContentIs` | p5-xv6-memory-management/xv6-public/fs.c:452-476 | a byte of a file is that of the block named in addrs below position 12 * 512, and of the one named in the indirect block above |
| `Fs.SpliceAlters` | p5-xv6-memory-management/xv6-public/fs.c:481-511 | splicing gives the bytes written from the offset on, the old ones elsewhere, and the longer of the two lengths |
| `Fs.BlockPart` | p5-xv6-memory-management/xv6-public/fs.c:469-474 | what one turn of the read loop copies is the corresponding part of the file |
| `Fs.FreedDirect` | p5-xv6-memory-management/xv6-public/fs.c:414-419 | freeing a direct block keeps all ownership |
| `Fs.Truncated` | p5-xv6-memory-management/xv6-public/fs.c:421-434 | after the indirect blocks too are freed, ownership and bitmap agree again and the inode owns nothing |
| `Fs.OthersKept` | p5-xv6-memory-management/xv6-public/fs.c:407-435 | a change to blocks that no other inode owns leaves every other file's contents alone |
| `Fs.RunSize` | p5-xv6-memory-management/xv6-public/fs.h:44-48 | the bitmap takes as many blocks as its length says |
| `Fs.LogsFew` | p5-xv6-memory-management/xv6-public/fs.c:481-511 | what a write logs is at most a bitmap block for each block that the file lacked, and no more than there are, the inode's block, an indirect block and those that the bytes lie in |
| `Fs.NewForLacking` | p5-xv6-memory-management/xv6-public/fs.c:372-400 | as many blocks are allocated as slots were empty if and only if all that a write needs are filled, and otherwise fewer |
| `Fs.EnoughOrNot` | p5-xv6-memory-management/xv6-public/fs.c:498-504 | a write ends with all its slots filled only if as many blocks were free as slots empty, and runs out of blocks only if fewer were |
| `Fs.ProgressTwice` | p5-xv6-memory-management/xv6-public/fs.c:498-504 | what two stretches of the write loop allocate, write and log is what the whole stretch does |
| `Fs.TurnsBlock` | p5-xv6-memory-management/xv6-public/fs.c:498-504 | each turn of the write loop deals with the block behind those of the turns before it, and the turns are as many as the blocks the bytes lie in |
| `Fs.Fs.Claim` | p5-xv6-memory-management/xv6-public/fs.c:67-72 | a free block becomes used and zero, no other block changes, and the bitmap block and it are logged |
| `Fs.Fs.ScanBitmap` | p5-xv6-memory-management/xv6-public/fs.c:65-76 | the bit scan finds the first free block of a bitmap block, and none only if all are used |
| `Fs.Fs.Balloc` | p5-xv6-memory-management/xv6-public/fs.c:56-78 | the lowest free block, zeroed and marked; it panics, changing nothing, if and only if every block is used |
| `Fs.Fs.Bfree` | p5-xv6-memory-management/xv6-public/fs.c:81-95 | exactly that block becomes free; it panics if and only if the block was free |
| `Fs.Fs.AllocSlot` | p5-xv6-memory-management/xv6-public/fs.c:379-388 | a missing direct or indirect block is allocated without moving any block of any file, and exactly its bitmap block and itself are logged |
| `Fs.Fs.AllocEntry` | p5-xv6-memory-management/xv6-public/fs.c:391-394 | a missing entry of the indirect block is allocated without moving any block of any file, and the indirect block is logged too |
| `Fs.Fs.BmapDirect` | p5-xv6-memory-management/xv6-public/fs.c:378-382 | gives the direct block, allocating it if it was missing; it fails only with every block used and this one still missing |
| `Fs.Fs.BmapIndirect` | p5-xv6-memory-management/xv6-public/fs.c:385-397 | gives the block through the indirect block, itself allocated if missing; it fails only with every block used and this one still missing |
| `Fs.Fs.Bmap` | p5-xv6-memory-management/xv6-public/fs.c:372-400 | the block of any file position below MAXFILE, which addrs or the indirect block names, allocated if missing without moving any other and changing nothing if not; it panics out of range or with every block used and one still missing, and otherwise not |
| `Fs.Fs.WriteBlock` | p5-xv6-memory-management/xv6-public/fs.c:499-503 | one turn of the loop writes min(left, BSIZE - off%BSIZE) bytes into one block of the file, and allocates and logs exactly what that block takes |
| `Fs.Fs.WriteBlocks` | p5-xv6-memory-management/xv6-public/fs.c:498-504 | the loop ends with exactly src written from off on, having allocated exactly the blocks that were missing and logged exactly those and the ones written, or where blocks ran out |
| `Fs.Fs.WriteAll` | p5-xv6-memory-management/xv6-public/fs.c:498-510 | if and only if as many blocks are free as the write lacks, the file's contents are the old ones with src spliced in at off and every other file is the same |
| `Fs.Fs.UpdateSize` | p5-xv6-memory-management/xv6-public/fs.c:506-509 | after the size update the inode on the disk is again the one in memory |
| `Fs.Fs.Writei` | p5-xv6-memory-management/xv6-public/fs.c:481-511 | writei refines splicing a byte sequence; it panics if and only if fewer blocks are free than it lacks; the blocks it allocates are the lowest free ones and the blocks it logs are exactly those, their bitmap blocks, those written, the indirect block if it gets an entry and the inode's if the file grows; it returns -1, changing nothing, if and only if off is past the end or the file would grow past MAXFILE blocks, 32-bit wrap of off + n included |
| `Fs.Fs.ReadBlock` | p5-xv6-memory-management/xv6-public/fs.c:470-473 | one turn of the loop copies the next part of the file and changes nothing |
| `Fs.Fs.ReadBlocks` | p5-xv6-memory-management/xv6-public/fs.c:469-474 | the loop copies exactly the bytes asked for |
| `Fs.Fs.Readi` | p5-xv6-memory-management/xv6-public/fs.c:452-476 | readi returns exactly the file's bytes from off on, up to n or the end, and never allocates; -1 if and only if off is past the end or off + n wraps |
| `Fs.Fs.TruncSlot` | p5-xv6-memory-management/xv6-public/fs.c:415-418 | a direct block, if there is one, is freed and forgotten; bfree does not panic |
| `Fs.Fs.TruncDirect` | p5-xv6-memory-management/xv6-public/fs.c:414-419 | all direct blocks are freed and forgotten |
| `Fs.Fs.TruncIndirect` | p5-xv6-memory-management/xv6-public/fs.c:421-431 | exactly the indirect block and the blocks it lists are freed; bfree never meets a free block |
| `Fs.Fs.Itrunc` | p5-xv6-memory-management/xv6-public/fs.c:407-435 | the file is empty, exactly the other inodes' blocks and the metadata are in use, and no other file changes; what is logged leads from the old state to the new, on at most the bitmap and the inode's block |
| `FsLog.WordsFix` | p5-xv6-memory-management/xv6-public/fs.c:390-391 | the words of a block determine its bytes |
| `FsLog.StoresHome` | p5-xv6-memory-management/xv6-public/log.c:69-82 | a disk with the same blocks outside the log holds the same file system |
| `FsLog.StoresOne` | p5-xv6-memory-management/xv6-public/fs.c:452-476 | a disk holds one set of files: any two states that it stores agree on every inode and every byte |
| `FsLog.LaidOne` | p5-xv6-memory-management/xv6-public/log.c:214-234 | one store through log_write, a block or a dinode, makes of a disk that holds one state of the files one that holds the next |
| `FsLog.LaidStores` | p5-xv6-memory-management/xv6-public/log.c:214-234 | so do all stores of an operation in order |
| `FsLog.RestLaidAll` | p5-xv6-memory-management/xv6-public/fs.c:220-236 | the stores of an operation, laid on a disk, change no inode's type, device numbers or link count and no block before the inodes; only sizes, addrs, bitmap and data blocks change |
| `FsLog.OperationStores` | p5-xv6-memory-management/xv6-public/fs.c:481-511 | what writei or itrunc gives to log_write, in order, makes of a disk that holds the files before it one that holds them after it |
| `FsLog.OperationAtomic` | p5-xv6-memory-management/xv6-public/log.c:193-203 | a transaction from a disk that holds one state of the files to contents that hold the next is crash-atomic: after a crash anywhere in its commit and any number of crashes in recovery the disk holds the one, or the other from the header write on |
| `FsLog.WriteAtomic` | p5-xv6-memory-management/xv6-public/file.c:140-145 | after such crashes a write of n bytes has left the file its old contents, or those with all of src spliced in, and every other file is as it was |
| `FsLog.WroteTwice` | p5-xv6-memory-management/xv6-public/file.c:134-152 | writing one piece behind another is writing both |
| `FsLog.FittingAll` | p5-xv6-memory-management/xv6-public/file.c:134-152 | all pieces fit if and only if the whole write does |
| `FsLog.File.WriteChunk` | p5-xv6-memory-management/xv6-public/file.c:140-145 | one piece: it is spliced in and the offset advances, or nothing changes, if and only if the offset is past the end or the piece does not fit; it panics if and only if fewer blocks are free than it lacks; it logs at most min(bitmap, 4) + 6 blocks |
| `FsBudget.ChunkBudget` | p5-xv6-memory-management/xv6-public/file.c:127-133 | whatever a piece writes, wherever, and on any disk, it logs at most min(bitmap, 4) + 6 blocks, never more than MAXOPBLOCKS |
| `FsBudget.NewApart` | p5-xv6-memory-management/xv6-public/fs.c:62-77 | four new blocks lie under four different bitmap blocks if and only if the four lowest free blocks do |
| `FsBudget.FullPiece` | p5-xv6-memory-management/xv6-public/file.c:127-133 | a piece logs all of MAXOPBLOCKS blocks if and only if it covers four blocks, lacks three of them and the indirect block, and the four lowest free blocks lie under four bitmap blocks |
| `FsSpent.SpentDisks` | p5-xv6-memory-management/xv6-public/file.c:127-133 | there are a file system with a bitmap of that length and a piece that spends all of MAXOPBLOCKS if and only if the bitmap has four blocks or more |
| `FsSpent.SpendAll` | p5-xv6-memory-management/xv6-public/file.c:127-145 | such a piece, run: it succeeds and logs MAXOPBLOCKS blocks |
| `FsThrough.StoreOne` | p5-xv6-memory-management/xv6-public/log.c:206-234 | bread, a change of the data, log_write and brelse: the newest contents have that block changed and the log lists it; where the log has room it does not panic |
| `FsThrough.StoreAll` | p5-xv6-memory-management/xv6-public/fs.c:481-511 | all stores of an operation, in order, leave their outcome as the newest contents, with the disk unchanged and no more blocks logged than they touch |
| `FsThrough.Finish` | p5-xv6-memory-management/xv6-public/log.c:145-172 | end_op commits them: the disk holds the new state, and every disk state on the way recovers to the old state or, from the header write on, to the new |
| `FsThrough.WriteThrough` | p5-xv6-memory-management/xv6-public/file.c:140-145 | a piece from begin_op to end_op, through writei, the log and the buffer cache: crash-atomic, keeping inode types and link counts, and a panic exactly where too few blocks are free |
| `FsThrough.SurvivesMore` | p5-xv6-memory-management/xv6-public/file.c:134-152 | operation after operation, a crash at any time leaves the disk with some first pieces of the write |
| `FsThrough.Write` | p5-xv6-memory-management/xv6-public/file.c:116-156 | filewrite through the log: it panics if and only if too few blocks are free for what it is to write; otherwise it splices in all of src, or -1 and exactly the pieces before the first that does not fit; whatever disk state a crash leaves, recovery ends with the old files and some first pieces of the write, and with every inode's type and link count as before |
| `Mmap.KernelWindow` | p5-xv6-memory-management/xv6-public/proc.c:584-596 | every mapping of every process lies in the window that ispamapped scans |
| `Mmap.AllocatableApart` | p5-xv6-memory-management/xv6-public/vm.c:434-452 | pages found free from a place in the window on end by KERNBASE and touch no mapping's range or guard page |
| `Mmap.TableAdded` | p5-xv6-memory-management/xv6-public/sysproc.c:263-271 | an entry apart from all others keeps ranges and guard pages pairwise disjoint inside the window |
| `Mmap.EntryAdded` | p5-xv6-memory-management/xv6-public/sysproc.c:236-271 | entry and pages together keep the mapping-table invariant |
| `Mmap.MmapApart` | p5-xv6-memory-management/xv6-public/sysproc.c:184-234 | the address search and the guard check make the new mapping disjoint from all others |
| `Mmap.FreshFrames` | p5-xv6-memory-management/xv6-public/sysproc.c:236-246 | mapping pages from the free list leaves no mapped page on the free list and loses none |
| `Mmap.ClearedFrames` | p5-xv6-memory-management/xv6-public/vm.c:396-418 | clearing one mapping, and freeing its page if no other mapping is left, leaves no mapped page on the free list and loses none |
| `Mmap.EntryRemoved` | p5-xv6-memory-management/xv6-public/sysproc.c:337-353 | taking an entry and its whole range away keeps the mapping-table invariant |
| `Mmap.UnmapWhole` | p5-xv6-memory-management/xv6-public/sysproc.c:337-353 | for any length, munmap keeps the mapping table if and only if the length reaches the end of the mapping and no present page behind it |
| `Mmap.EntryGrown` | p5-xv6-memory-management/xv6-public/proc.c:648-663 | growing into the guard page, the page after it being free, finds the guard page unmapped and keeps the invariant, with the guard one page up |
| `Mmap.CopiedShared` | p5-xv6-memory-management/xv6-public/proc.c:753-767 | the copy extends over a shared mapping: same pages |
| `Mmap.CopiedPrivate` | p5-xv6-memory-management/xv6-public/proc.c:703-751 | the copy extends over a private mapping: fresh pages with equal contents |
| `Mmap.SharedTurn` | p5-xv6-memory-management/xv6-public/proc.c:753-767 | a turn of copymemorymappings for a shared mapping keeps the whole kernel invariant and the copy so far |
| `Mmap.PrivateTurn` | p5-xv6-memory-management/xv6-public/proc.c:703-751 | a turn of copymemorymappings for a private mapping keeps the whole kernel invariant and the copy so far |
| `Mmap.SharedKernel` | p5-xv6-memory-management/xv6-public/proc.c:753-767 | sharing pages between two processes keeps every page off the free list and every table sound |
| `Mmap.FreshMapping` | p5-xv6-memory-management/xv6-public/sysproc.c:236-271 | a new mapping of fresh pages keeps the invariant of all processes |
| `Mmap.ForkIsolation` | p5-xv6-memory-management/xv6-public/proc.c:669-770 | after a successful copy the child has the parent's valid mappings in order and the same pages present with equal contents; two places share a page if and only if they are the same address of a shared mapping; the parent's pages are unchanged |
| `Mmap.StoreAfterFork` | p5-xv6-memory-management/xv6-public/proc.c:669-770 | a later store through either process is seen by the other exactly at the same address of a shared mapping |
| `Mmap.Kernel.constructor` | p5-xv6-memory-management/xv6-public/proc.c:78-121 | a process table with nothing mapped satisfies the invariant |
| `Mmap.Kernel.IsMapped` | p5-xv6-memory-management/xv6-public/proc.c:576-599 | the scan of all processes in use finds the page if and only if some process maps it |
| `Mmap.Kernel.IsGuardPage` | p5-xv6-memory-management/xv6-public/proc.c:773-787 | true if and only if a valid mapping has that guard page |
| `Mmap.Kernel.CanAllocate` | p5-xv6-memory-management/xv6-public/vm.c:435-452 | true if and only if none of the pages is mapped, the kernel's, or the guard page of a valid mapping |
| `Mmap.Kernel.FindFree` | p5-xv6-memory-management/xv6-public/vm.c:455-465 | the lowest place in the window with room, or failure if and only if there is none |
| `Mmap.Kernel.AllocPages` | p5-xv6-memory-management/xv6-public/sysproc.c:170-182 | the first n free pages in order if there are so many; otherwise every page taken is given back and none is lost |
| `Mmap.Kernel.MapPage` | p5-xv6-memory-management/xv6-public/vm.c:60-80 | one page is mapped; "remap" happens if and only if it was present |
| `Mmap.Kernel.MapPages` | p5-xv6-memory-management/xv6-public/sysproc.c:236-246 | the loop maps the range page by page and never panics with "remap" |
| `Mmap.Kernel.Place` | p5-xv6-memory-management/xv6-public/sysproc.c:186-234 | the fixed address if it lies in the window with room, else the lowest with room; the guard page right behind the range and free; failure only for want of that |
| `Mmap.HasPlaceIs` | p5-xv6-memory-management/xv6-public/sysproc.c:186-234 | there is a place if and only if the fixed address is page-aligned, in the window and free with its guard page, or, without MAP_FIXED, the lowest free range has a free guard page behind it |
| `Mmap.Kernel.Mmap` | p5-xv6-memory-management/xv6-public/sysproc.c:100-275 | it succeeds if and only if the arguments are valid, pages suffice and such a place exists, which is the fixed address if one is asked for; then every byte of the length is mapped, to exactly the first free pages, in as few pages as hold it, and recorded; failing changes no process, and loses pages, all that it asked for, exactly if it fails for want of a place |
| `Mmap.ObtainedOnce` | p5-xv6-memory-management/xv6-public/sysproc.c:253-271 | a successful mmap leaves exactly one valid entry that starts at its result, of as many pages as the length needs |
| `Mmap.Kernel.Clearpte` | p5-xv6-memory-management/xv6-public/vm.c:396-418 | the page's mapping goes; its physical page is freed if and only if no process maps it any more |
| `Mmap.Kernel.ClearRange` | p5-xv6-memory-management/xv6-public/sysproc.c:337-345 | exactly the pages of the range are unmapped, and no page is lost or freed twice |
| `Mmap.ClearingNext` | p5-xv6-memory-management/xv6-public/sysproc.c:337-345 | each turn of the loop unmaps one more page of the range |
| `Mmap.Kernel.FindEntry` | p5-xv6-memory-management/xv6-public/proc.c:602-610 | a valid entry starting there, or none if and only if there is none |
| `Mmap.Kernel.Munmap` | p5-xv6-memory-management/xv6-public/sysproc.c:278-358 | for a length that makes the whole mapping, or an address where none starts: -1, changing nothing, if and only if no mapping starts there; otherwise exactly that mapping's entry and pages go, and no other process changes |
| `Mmap.ReleasedObtained` | p5-xv6-memory-management/xv6-public/sysproc.c:278-358 | releasing what mmap obtained leaves the page table as before mmap |
| `Mmap.Kernel.MmapMunmap` | p5-xv6-memory-management/xv6-public/mmap.c:41-62 | the round trip: munmap of what mmap returned, with the length that mmap got, succeeds, and gives back the page table, every free page, and the entries but for one used slot; no other process changes |
| `Mmap.Kernel.Exit` | p5-xv6-memory-management/xv6-public/proc.c:250-282 | all mappings of the process go, no other process changes, and no page is lost or freed twice |
| `Mmap.Kernel.Reap` | p5-xv6-memory-management/xv6-public/proc.c:326-338 | reusing a zombie's slot keeps the invariant of the pages |
| `Mmap.Kernel.GrowUp` | p5-xv6-memory-management/xv6-public/proc.c:613-667 | it grows a mapping by a fresh page if and only if the address is in the guard page of a growable mapping with a free page behind it, and otherwise changes nothing; without a free physical page, and only then, it maps the null pointer |
| `Mmap.Kernel.CopyPage` | p5-xv6-memory-management/xv6-public/proc.c:726-750 | one page is copied through a temporary mapping of the parent, which is gone afterwards |
| `Mmap.Kernel.CopyPages` | p5-xv6-memory-management/xv6-public/proc.c:725-750 | the child gets the whole range in fresh pages with equal contents, and the parent's table is as before |
| `Mmap.Kernel.SharePages` | p5-xv6-memory-management/xv6-public/proc.c:754-766 | the child maps the range to the parent's own pages |
| `Mmap.Kernel.CopyInto` | p5-xv6-memory-management/xv6-public/proc.c:725-750 | the copy at a place found in the parent clones the mapping |
| `Mmap.Kernel.CopyPrivate` | p5-xv6-memory-management/xv6-public/proc.c:703-751 | if and only if the pages suffice and the parent has room for their temporary mapping, a private mapping is cloned into the first free pages; otherwise no table changes |
| `Mmap.Kernel.PrivateEntry` | p5-xv6-memory-management/xv6-public/proc.c:683-751 | the loop's turn for a private mapping succeeds on that condition, and then keeps the kernel invariant, extends the copy, and is the step that MmapRun's runs take |
| `Mmap.Kernel.ShareInto` | p5-xv6-memory-management/xv6-public/proc.c:695-767 | entry and pages of a shared mapping are both added |
| `Mmap.Kernel.SharedEntry` | p5-xv6-memory-management/xv6-public/proc.c:683-767 | the loop's turn for a shared mapping cannot fail, keeps the kernel invariant, extends the copy, and is the step that MmapRun's runs take |
| `Mmap.Kernel.CopyTurn` | p5-xv6-memory-management/xv6-public/proc.c:674-768 | a turn of copymemorymappings keeps all that is true of the copy so far, or fails where the specified copy does |
| `Mmap.Kernel.CopyMappings` | p5-xv6-memory-management/xv6-public/proc.c:670-770 | it succeeds if and only if pages and room suffice for every private mapping in turn; then every valid mapping is copied in order, private ones cloned and shared ones shared, with the invariants of all processes kept and no page lost |
| `Mmap.Kernel.Fork` | p5-xv6-memory-management/xv6-public/proc.c:185-245 | it fails if and only if no slot is free; the child takes the first free slot and is runnable; it is left with a failed copy if and only if pages or room lack; a child whose mappings were all copied is isolated from its parent as ForkIsolation says, and the tables and the free list are exactly those of the specified fork |
| `MmapRun.MmapEnabled` | p5-xv6-memory-management/xv6-public/sysproc.c:184-271 | what mmap chooses is a mapping that a run may add |
| `MmapRun.UnmapKeeps` | p5-xv6-memory-management/xv6-public/sysproc.c:278-358 | munmap keeps every table sound and loses no physical page |
| `MmapRun.ExitKeeps` | p5-xv6-memory-management/xv6-public/proc.c:250-282 | exit keeps every table sound and loses no physical page |
| `MmapRun.GrowKeeps` | p5-xv6-memory-management/xv6-public/proc.c:613-667 | growing a mapping keeps every table sound and loses no physical page |
| `MmapRun.ForkKeeps` | p5-xv6-memory-management/xv6-public/proc.c:185-245 | fork, all mappings copied, keeps every table sound and loses no physical page |
| `MmapRun.ForkFills` | p5-xv6-memory-management/xv6-public/proc.c:222 | the slot that fork fills is runnable |
| `MmapRun.OthersKept` | p5-xv6-memory-management/xv6-public/sysproc.c:100-358 | no call changes a process other than its caller and, for fork, the child |
| `MmapRun.ForkedStays` | p5-xv6-memory-management/xv6-public/proc.c:185-245 | over every run, a forked child is runnable, with the tables that fork gave it, until a step of its own |
| `MmapRun.CallKeeps` | p5-xv6-memory-management/xv6-public/sysproc.c:100-358 | every mmap, munmap, fault, fork, exit and reuse of a slot keeps the invariant of all processes and conserves the physical pages, but those of an mmap that fails for want of a place |
| `MmapRun.FreeUnlessMapped` | p5-xv6-memory-management/xv6-public/vm.c:395-418 | over every run of these calls from boot on, munmap and fork being those that succeed, a page of the pool is on the free list exactly while no process maps it and no failing mmap has lost it, and no other page is ever mapped |
| `MmapRun.LastUnmapFrees` | p5-xv6-memory-management/xv6-public/vm.c:412-416 | in every such run a call frees a page if and only if it was mapped before the call and no process maps it any more |
| `MmapRun.NothingLost` | p5-xv6-memory-management/xv6-public/sysproc.c:170-234 | over every such run no page of the pool is lost if and only if no mmap fails for want of a place |
| `Vm.NewTable` | p5-xv6-memory-management/xv6-public/vm.c:44-53 | entering a zeroed page table maps no page and unmaps none |
| `Vm.NewWord` | p5-xv6-memory-management/xv6-public/vm.c:68-73 | writing one page-table entry changes what that page is mapped to, and no other page |
| `Vm.UserMapped` | p5-xv6-memory-management/xv6-public/vm.c:60-80 | what user code may touch, with the present, write and user bits at both levels, is mapped |
| `Vm.TableAdded` | p5-xv6-memory-management/xv6-public/vm.c:44-53 | a new page table keeps every frame in one use: directory, table, page or free |
| `Vm.PageAdded` | p5-xv6-memory-management/xv6-public/vm.c:68-73 | mapping a frame keeps every frame in one use, and every other page's frame and contents |
| `Vm.PageRemoved` | p5-xv6-memory-management/xv6-public/vm.c:269-276 | unmapping a page and freeing its frame keeps every frame in one use, and every other page's frame and contents |
| `Vm.Kernel.KallocZeroed` | p5-xv6-memory-management/xv6-public/vm.c:45-48 | a free frame, zeroed, and no page is mapped differently |
| `Vm.Kernel.Kfree` | p5-xv6-memory-management/xv6-public/kalloc.c:59-77 | the frame goes to the free list, and no page is mapped differently |
| `Vm.Kernel.WalkPgdir` | p5-xv6-memory-management/xv6-public/vm.c:35-55 | the table that maps the page, made if asked for and missing; it fails only when missing and not to be made or out of memory; no page's mapping or contents change |
| `Vm.Kernel.MapPage` | p5-xv6-memory-management/xv6-public/vm.c:60-80 | mappages of one absent page: it is mapped to that frame, for user code too, if there is a table or a free frame to make one, and exactly then; if not, the frame is still the caller's |
| `Vm.Kernel.UnmapPage` | p5-xv6-memory-management/xv6-public/vm.c:269-276 | exactly that page is unmapped and exactly its frame freed |
| `Vm.Kernel.DeallocPage` | p5-xv6-memory-management/xv6-public/vm.c:266-277 | a present page is unmapped and freed, an absent one left, and an absent table reported |
| `Vm.Kernel.DeallocTurn` | p5-xv6-memory-management/xv6-public/vm.c:265-277 | a turn advances by a page, or over a whole absent table without missing a present page |
| `Vm.Kernel.DeallocUvm` | p5-xv6-memory-management/xv6-public/vm.c:255-279 | exactly the present pages of the range are unmapped and exactly their frames freed, in order; all other pages keep frames, contents and user permissions; newsz not below oldsz changes nothing |
| `Vm.Kernel.AllocPage` | p5-xv6-memory-management/xv6-public/vm.c:234-246 | one page is mapped to a zeroed frame taken from the free list if and only if there are frames for it and for a table it lacks |
| `Vm.Kernel.AllocUvm` | p5-xv6-memory-management/xv6-public/vm.c:221-249 | if and only if there are frames for all pages of the range and the tables they lack, every page is mapped to a zeroed fresh frame that user code may read and write, and exactly so many frames are taken; otherwise the map, permissions and all contents are as before and only page tables were kept; no frame is lost |
| `Vm.Kernel.Undo` | p5-xv6-memory-management/xv6-public/vm.c:237-245 | the failure path unmaps exactly what was mapped so far and frees those frames and the one in hand |
| `Vm.LackingNext` | p5-xv6-memory-management/xv6-public/vm.c:44-53 | mapping a page leaves the tables that the rest of the range lacks, without its own |
| `Vm.DeallocedSkip` | p5-xv6-memory-management/xv6-public/vm.c:267-268 | jumping to the next table skips no present page |
| `Vm.FramesHold` | p5-xv6-memory-management/xv6-public/vm.c:265-277 | every frame mapped in the range is among those freed |
| `Vm.FramesOnly` | p5-xv6-memory-management/xv6-public/vm.c:265-277 | only frames mapped in the range are among those freed |
| `Vm.UndoneFrames` | p5-xv6-memory-management/xv6-public/vm.c:237-245 | undoing gives every frame but new page tables back to the free list |
| `WfsLog.BytesOfWord` | p7-fuse-log-fs/wfs.h:22-34 | a 32-bit field reads back as it was stored |
| `WfsLog.NameKept` | p7-fuse-log-fs/mount.wfs.c:83-84 | a file name is stored whole if and only if it has fewer than 32 bytes, and otherwise cut to 31 |
| `WfsLog.CStrIs` | p7-fuse-log-fs/mount.wfs.c:139 | a name ends before its first zero byte |
| `WfsLog.DentryEncoded` | p7-fuse-log-fs/wfs.h:36-39 | a directory entry reads back as it was stored |
| `WfsLog.DentryAdded` | p7-fuse-log-fs/mount.wfs.c:237-241 | appending an entry's 40 bytes to a directory appends that entry to its list |
| `WfsLog.LatestIs` | p7-fuse-log-fs/mount.wfs.c:92-109 | no live entry of the inode follows the latest one |
| `WfsLog.CurrentAdded` | p7-fuse-log-fs/mount.wfs.c:92-109 | an entry appended to the log replaces what is current for its own inode, and for no other |
| `WfsLog.CurrentDeleted` | p7-fuse-log-fs/mount.wfs.c:47-69 | marking an inode's entries deleted leaves it no current entry, and every other inode its own |
| `WfsLog.NumberFresh` | p7-fuse-log-fs/mount.wfs.c:163-179 | the number after the highest one has no current entry |
| `WfsLog.ScanFirst` | p7-fuse-log-fs/mount.wfs.c:129-156 | the scan resolves its first component to the first directory entry, of the whole log from there on, that lists it live |
| `WfsLog.ChildIs` | p7-fuse-log-fs/mount.wfs.c:129-156 | a component leads to the first listed entry with that name whose inode is live, and only from a directory |
| `WfsLog.ScanFollows` | p7-fuse-log-fs/mount.wfs.c:129-156 | from a directory's current entry, the scan follows every path that resolves in the tree |
| `WfsLog.LookupExact` | p7-fuse-log-fs/mount.wfs.c:112-161 | for any log: all paths below a component of the root are looked up rightly if and only if the first entry of the log that lists that name live lists the root's child |
| `WfsLog.LookupFollows` | p7-fuse-log-fs/mount.wfs.c:112-161 | under that condition each such path is looked up rightly |
| `WfsLog.LookupName` | p7-fuse-log-fs/mount.wfs.c:112-161 | a single name is found if and only if some directory entry anywhere in the log lists it live |
| `WfsLog.StrayName` | p7-fuse-log-fs/mount.wfs.c:112-161 | the counterexample: a file inside a directory is also found under the root, where it is not |
| `WfsLog.LookupInTree` | p7-fuse-log-fs/mount.wfs.c:112-161 | when no live name occurs twice in the tree, every path that resolves is looked up to its latest entry, although the scan starts from a stale root entry |
| `WfsLog.ListedIsCurrent` | p7-fuse-log-fs/mount.wfs.c:132-154 | a live inode that a stale directory entry lists is still listed by the directory's latest one |
| `WfsLog.WroteEffect` | p7-fuse-log-fs/mount.wfs.c:362-409 | a successful write changes the latest contents of that inode to the new bytes and no other inode's, and keeps the tree |
| `WfsLog.WrittenFound` | p7-fuse-log-fs/mount.wfs.c:334-409 | read after write: in a tree without repeated names the path of a written file is looked up to an entry with exactly the data written |
| `WfsLog.MadeEffect` | p7-fuse-log-fs/mount.wfs.c:202-332 | a successful create adds one live empty inode whose number no entry ever had and one directory entry at the end of the parent, changes no other inode, and keeps the tree |
| `WfsLog.RemovedEffect` | p7-fuse-log-fs/mount.wfs.c:441-516 | when the parent lists the inode exactly once, a successful unlink leaves the inode no live entry and the parent every entry but its own, changes no other inode, and keeps the tree |
| `WfsLog.WithoutLength` | p7-fuse-log-fs/mount.wfs.c:489-507 | the copy loop fills exactly the num_entries - 1 entries of the size computed before it |
| `WfsLog.ResolvedListed` | p7-fuse-log-fs/mount.wfs.c:441-467 | in the tree, a path's parent resolves to a directory that lists the file exactly once |
| `WfsLog.CreatedFound` | p7-fuse-log-fs/mount.wfs.c:237-241 | a created name can be resolved if and only if it has fewer than 32 bytes |
| `WfsImage.StartOrder` | p7-fuse-log-fs/mount.wfs.c:98-106 | entries lie one behind the other, so the offset walk visits each once |
| `WfsImage.FieldsAt` | p7-fuse-log-fs/wfs.h:22-34 | the eleven 32-bit fields of an inode lie one behind the other from the entry's offset on |
| `WfsImage.EntryIn` | p7-fuse-log-fs/mount.wfs.c:98-106 | each lies before head and inside the disk |
| `WfsImage.Appended` | p7-fuse-log-fs/mount.wfs.c:387-406 | writing one entry at head and then advancing head by its size gives the image of the log with that entry added |
| `WfsImage.Marked` | p7-fuse-log-fs/mount.wfs.c:56-59 | setting a deleted field gives the image of the log with that entry marked |
| `WfsImage.Image.Header` | p7-fuse-log-fs/mount.wfs.c:54-61 | the fields read at an entry's offset are its own, and offset plus size is the next entry's |
| `WfsImage.Image.FindLatest` | p7-fuse-log-fs/mount.wfs.c:92-109 | the offset of the last undeleted entry of the inode, or none if there is none |
| `WfsImage.Image.FindMax` | p7-fuse-log-fs/mount.wfs.c:163-179 | the highest inode number in any entry, deleted ones included |
| `WfsImage.Image.MarkDeleted` | p7-fuse-log-fs/mount.wfs.c:57 | marks that entry and moves none |
| `WfsImage.Image.DeleteEntries` | p7-fuse-log-fs/mount.wfs.c:47-69 | marks exactly the inode's live entries; 1 if there was one, else -1 |
| `WfsImage.Image.Memcpy` | p7-fuse-log-fs/mount.wfs.c:402 | the bytes are copied, and no byte outside the destination changes |
| `WfsImage.Image.Put` | p7-fuse-log-fs/mount.wfs.c:404 | the buffer's bytes are stored, and no other byte changes |
| `WfsImage.Image.PutInode` | p7-fuse-log-fs/mount.wfs.c:251-261 | the 44 bytes of an inode are stored, and no other byte changes |
| `WfsImage.Image.PutDentry` | p7-fuse-log-fs/mount.wfs.c:239-240 | the 40 bytes of a directory entry are stored, and no other byte changes |
| `WfsImage.Image.Advance` | p7-fuse-log-fs/mount.wfs.c:406 | moving head over a written entry adds it to the log |
| `WfsPath.TokensJoin` | p7-fuse-log-fs/mount.wfs.c:122-140 | the components of two paths joined by a slash are those of the one and then of the other |
| `WfsPath.ParentAndFile` | p7-fuse-log-fs/mount.wfs.c:72-90 | a path's components are those of its parent path and then its file name |
| `WfsPath.Strtok` | p7-fuse-log-fs/mount.wfs.c:122-140 | strtok_r gives the next component and leaves the others |
| `WfsPath.Separate` | p7-fuse-log-fs/mount.wfs.c:72-90 | parent path and file name around the last slash, the name cut to 31 bytes |
| `Wfs.SameName` | p7-fuse-log-fs/mount.wfs.c:139 | strcmp of a name field and a component is equality of strings |
| `Wfs.TrySlot` | p7-fuse-log-fs/mount.wfs.c:139-143 | a directory entry leads to its inode's latest entry if the name is equal and the inode live |
| `Wfs.FindChild` | p7-fuse-log-fs/mount.wfs.c:132-154 | the loop over a directory entry finds its first entry of that name with a live inode |
| `Wfs.FindByPath` | p7-fuse-log-fs/mount.wfs.c:111-161 | the scan terminates on every image, though the offset jumps back, and computes Lookup |
| `Wfs.Read` | p7-fuse-log-fs/mount.wfs.c:334-360 | the bytes from the offset on, at most size of them, of the entry found; none past the end; ENOENT if nothing is found |
| `Wfs.GapReadsZero` | p7-fuse-log-fs/mount.wfs.c:402-404 | where the bytes past head are zero, a write beyond the end reads as zeros in the gap |
| `Wfs.Write` | p7-fuse-log-fs/mount.wfs.c:362-409 | it appends one entry whose data is the old data with the buffer at the offset, the rest kept, and whose owner and times are those given, or fails with ENOENT or ENOSPC and leaves the log alone; the image stays sound in every case |
| `Wfs.SplicedParts` | p7-fuse-log-fs/mount.wfs.c:402-404 | the new data has the buffer at the offset and the old bytes before and behind it |
| `Wfs.AppendWritten` | p7-fuse-log-fs/mount.wfs.c:387-406 | the byte stores behind head make up exactly that entry |
| `Wfs.AppendParent` | p7-fuse-log-fs/mount.wfs.c:234-242 | the parent's copy with one more entry is appended |
| `Wfs.AppendEmpty` | p7-fuse-log-fs/mount.wfs.c:249-263 | the new inode's empty entry is appended |
| `Wfs.CreateIn` | p7-fuse-log-fs/mount.wfs.c:225-265 | the three outcomes: ENOSPC before anything, ENOSPC after the parent, success |
| `Wfs.HalfCreated` | p7-fuse-log-fs/mount.wfs.c:242-247 | a create that fails after the parent leaves a name without a live inode, and the next create gets the same inode number |
| `Wfs.CreateKeepsTree` | p7-fuse-log-fs/mount.wfs.c:225-265 | create keeps the directory tree if and only if space does not run out between its two entries |
| `Wfs.Create` | p7-fuse-log-fs/mount.wfs.c:202-266 | EEXIST, ENOENT or one of those outcomes, each with its exact condition |
| `Wfs.Mknod` | p7-fuse-log-fs/mount.wfs.c:202-266 | success means a new empty regular file, with the caller's owner and times and one link, was made in the parent that the scan finds, which gets a directory entry and nothing else |
| `Wfs.Mkdir` | p7-fuse-log-fs/mount.wfs.c:268-332 | success means a new empty directory was made there, in the same way |
| `Wfs.CopyDentry` | p7-fuse-log-fs/mount.wfs.c:500-507 | one turn copies an entry, or skips one of the unlinked inode |
| `Wfs.CopyDentries` | p7-fuse-log-fs/mount.wfs.c:500-507 | the loop leaves the directory's entries without those of the inode, in order, unless they do not fit the image |
| `Wfs.UnlinkDone` | p7-fuse-log-fs/mount.wfs.c:481-510 | the image after the last store of a successful unlink: a log again, or, for an empty directory, a head that points inside the bytes just written |
| `Wfs.UnlinkIn` | p7-fuse-log-fs/mount.wfs.c:469-515 | for any parent, one that lists the inode once, several times or not at all, or that is empty, where num_entries - 1 wraps: deletion, then ENOSPC, a store past the image, or the exact bytes of the directory's new version |
| `Wfs.Unlink` | p7-fuse-log-fs/mount.wfs.c:441-516 | ENOENT, EISDIR, or one of those outcomes, each with its exact condition |
| `Fsck.CompactCurrent` | p7-fuse-log-fs/fsck.wfs.c:181-194 | after the loop up to any number, the inodes below it have the latest entries they had, and the others none |
| `Fsck.CompactionPreserves` | p7-fuse-log-fs/fsck.wfs.c:167-198 | compaction keeps, for every inode, the latest undeleted entry byte for byte |
| `Fsck.CompactSorted` | p7-fuse-log-fs/fsck.wfs.c:181-194 | the entries that remain are live entries of the old log, one per inode, sorted by inode number |
| `Fsck.CompactIdempotent` | p7-fuse-log-fs/fsck.wfs.c:167-198 | compacting twice gives the same log as compacting once |
| `Fsck.CompactFits` | p7-fuse-log-fs/fsck.wfs.c:190-193 | at every turn the new head is at most the old one, so no copy overruns the buffer |
| `Fsck.CompactInto` | p7-fuse-log-fs/fsck.wfs.c:177-194 | the loop builds exactly the compacted log in the buffer, zeros behind it |
| `Fsck.CopyEntry` | p7-fuse-log-fs/fsck.wfs.c:190-193 | one copy appends the inode's latest entry |
| `Fsck.NewBuffer` | p7-fuse-log-fs/fsck.wfs.c:167-175 | the new superblock is an empty log, zeros behind it |
| `Fsck.CompactDisk` | p7-fuse-log-fs/fsck.wfs.c:167-198 | the disk becomes the compacted image, its head not beyond the old one and zeros behind it |
| `Fsck.ImageFixed` | p7-fuse-log-fs/fsck.wfs.c:196-198 | a compacted image is determined, byte for byte, by its log |
| `Fsck.SecondTime` | p7-fuse-log-fs/fsck.wfs.c:167-198 | compacting a second time changes no byte |
| `Fsck.ResolveSame` | p7-fuse-log-fs/fsck.wfs.c:167-198 | every path resolves in the tree to the same entry as before compaction |
| `Fsck.CompactTree` | p7-fuse-log-fs/fsck.wfs.c:167-198 | compaction keeps the directory tree |
| `WfsRun.SameLog` | p7-fuse-log-fs/mount.wfs.c:98-106 | an image represents at most one log |
| `WfsRun.LostIsNoLog` | p7-fuse-log-fs/mount.wfs.c:510 | after the wrapped head update of an unlink from an empty directory the image represents none |
| `WfsRun.WriteKeepsTree` | p7-fuse-log-fs/mount.wfs.c:362-409 | write, failing or not, keeps the directory tree: live inodes listed once, nothing dead listed |
| `WfsRun.CreateKeeps` | p7-fuse-log-fs/mount.wfs.c:202-332 | create keeps it if and only if space does not run out between its two entries |
| `WfsRun.UnlinkKeepsTree` | p7-fuse-log-fs/mount.wfs.c:441-516 | unlink keeps it if and only if it fails before the deletion, or the directory that it finds lists the file that it finds exactly once and there is room for the new version |
| `WfsRun.CompactKeeps` | p7-fuse-log-fs/fsck.wfs.c:167-198 | compaction keeps it |
| `WfsRun.StepKeepsTree` | p7-fuse-log-fs/mount.wfs.c:202-516 | each operation keeps a sound disk sound if and only if its condition holds of the image before it |
| `WfsRun.RunKeepsTree` | p7-fuse-log-fs/mount.wfs.c:202-516 | from a new file system on, every state of a run of writes, creates, unlinks and compactions, failing ones included, is sound if and only if every create and unlink meets its condition when called |
| `WfsRun.FreshTree` | p7-fuse-log-fs/mkfs.wfs.c:48-69 | what mkfs writes is such a tree |
| `WfsRun.StrayUnlink` | p7-fuse-log-fs/mount.wfs.c:441-516 | the condition fails in reachable states: after mkdir /d and mknod /d/x, unlink /x is let through although the root does not list x |
| `Scheduler.Machine.UpdatePriorities` | p4-xv6-custom-scheduler/xv6-public/proc.c:611-622 | for every process in use the usage is halved and the priority is half of the new usage, rounded down both times, plus its nice value; nothing else changes |
| `Scheduler.Machine.Tick` | p4-xv6-custom-scheduler/xv6-public/trap.c:50-57 | the clock advances by one; at every multiple of 100, and only there, all priorities are recalculated |
| `Scheduler.Machine.Dispatch` | p4-xv6-custom-scheduler/xv6-public/proc.c:366-382 | a dispatched process runs for one tick, its usage and its tick count grow by one, and it is runnable again; no other process changes unless a recalculation falls due |
| `Scheduler.Machine.Schedule` | p4-xv6-custom-scheduler/xv6-public/proc.c:338-384 | one round of the loop is the specified round: all processes whose priority equals the highest found at its start |
| `Scheduler.Machine.Fork` | p4-xv6-custom-scheduler/xv6-public/proc.c:181-230 | the first unused slot becomes a runnable process with all scheduling fields zero; nothing changes without one |
| `Scheduler.Machine.Nice` | p4-xv6-custom-scheduler/xv6-public/sysfile.c:447-466 | -1 without change for a value outside 0 to 20; otherwise only the caller's nice value changes and the old one is returned |
| `Scheduler.PassIsSteps` | p4-xv6-custom-scheduler/xv6-public/proc.c:360-383 | the second loop of a round is a run of single steps |
| `Scheduler.RoundIsSteps` | p4-xv6-custom-scheduler/xv6-public/proc.c:337-386 | a whole round is a run of single steps, so what holds of every step holds of every run of the scheduler |
| `Scheduler.RoundExact` | p4-xv6-custom-scheduler/xv6-public/proc.c:337-386 | a round within a period runs, for one tick each, exactly the runnable processes that no runnable process precedes in priority, and changes no other |
| `Scheduler.DecayStep` | p4-xv6-custom-scheduler/xv6-public/proc.c:601-608 | with two competitors, the decay invariant: a waiting process's usage is at most 100 after a recalculation and halves with each, while its competitor's grows |
| `Scheduler.BoundedWaiting` | p4-xv6-custom-scheduler/xv6-public/proc.c:330-387 | from any state with usage as every run keeps it: of two processes that stay runnable, neither goes beyond three recalculations without being chosen, in any run |
| `Scheduler.WaitBound` | p4-xv6-custom-scheduler/xv6-public/proc.c:330-387 | neither of two such processes waits 400 ticks |
| `Scheduler.EventuallyChosen` | p4-xv6-custom-scheduler/xv6-public/proc.c:330-387 | each of two such processes is chosen within 400 rounds |
| `Scheduler.UsageStep` | p4-xv6-custom-scheduler/xv6-public/proc.c:330-387 | every step keeps the bounds on usage and clock |
| `Scheduler.RivalsStep` | p4-xv6-custom-scheduler/xv6-public/proc.c:330-387 | two competitors of a third process can stay ahead of it through every step and recalculation |
| `Scheduler.Starvation` | p4-xv6-custom-scheduler/xv6-public/proc.c:330-387 | then the third is never chosen, however long the run |
| `Scheduler.Unbounded` | p4-xv6-custom-scheduler/xv6-public/proc.c:330-387 | then the recalculations that the third waits through exceed every bound |
| `Scheduler.FairStep` | p4-xv6-custom-scheduler/xv6-public/proc.c:181-230 | every fork, nice call and scheduling step keeps the bounds on usage, nice values and priorities |
| `Scheduler.NiceOrders` | p4-xv6-custom-scheduler/xv6-public/proc.c:601-622 | through the whole period after a recalculation, forks and nice calls included: of two processes of equal usage the priorities differ by exactly their nice values, so the one of lower nice goes first |
| `Scheduler.JoinRivals` | p4-xv6-custom-scheduler/xv6-public/sysfile.c:447-466 | at the end of any period a third process can be forked and call nice(20) with the rivals changing places and all others behind them |
| `Scheduler.RivalsMeet` | p4-xv6-custom-scheduler/xv6-public/proc.c:181-230 | from boot, six periods with one fork make two rivals |
| `Scheduler.StarvationReached` | p4-xv6-custom-scheduler/xv6-public/proc.c:330-387 | for every number of processes from three to NPROC, forks, nice calls and rounds lead from boot to a state in which a runnable process starves |
| `Scheduler.BoundedIffTwo` | p4-xv6-custom-scheduler/xv6-public/proc.c:330-387 | for every number m of processes up to NPROC: in every state with m runnable that forks, nice calls and scheduling rounds lead to, and every run from it, waiting is bounded if and only if m is at most two |
| `ExitWait.Table.Wakeup1` | p5-xv6-memory-management/xv6-public/proc.c:496-504 | exactly the processes asleep on the channel become runnable |
| `ExitWait.Table.AllocProc` | p5-xv6-memory-management/xv6-public/proc.c:78-121 | the first unused slot becomes an embryo with the next pid, or nothing changes |
| `ExitWait.Table.ExitSection` | p5-xv6-memory-management/xv6-public/proc.c:289-305 | the parent is woken if it waits, children are handed to init, init is woken if one of them is a zombie, the process is a zombie, and nothing else changes |
| `ExitWait.Table.WaitTurn` | p5-xv6-memory-management/xv6-public/proc.c:318-350 | it returns a pid if and only if the process has a zombie child, the first one's, whose slot is freed; -1 if and only if it has no zombie child and either no child at all or is killed; and sleeps if and only if it has a child, no zombie child and is not killed |
| `ExitWait.Table.ScanChildren` | p5-xv6-memory-management/xv6-public/proc.c:320-341 | the scan stops at the first zombie child, and otherwise has found out whether there is any child |
| `ExitWait.Table.Kill` | p5-xv6-memory-management/xv6-public/proc.c:518-536 | the first process with the pid is marked and woken, or -1 |
| `ExitWait.ExitKeeps` | p5-xv6-memory-management/xv6-public/proc.c:289-305 | exit's section keeps the table invariant: whoever sleeps in wait has a child, but no zombie child, and every live process's parent is alive |
| `ExitWait.WaitKeeps` | p5-xv6-memory-management/xv6-public/proc.c:318-350 | a turn of wait's loop keeps that table invariant |
| `ExitWait.ForkKeeps` | p5-xv6-memory-management/xv6-public/proc.c:185-236 | each of fork's sections keeps it, though fork sets the parent outside the lock |
| `ExitWait.OtherKeeps` | p5-xv6-memory-management/xv6-public/proc.c:424-536 | scheduling, yield, sleep, wakeup and kill keep it |
| `ExitWait.PidsKeep` | p5-xv6-memory-management/xv6-public/proc.c:326-338 | pids in use stay distinct and never reaped before, and exited pids are those of zombies and reaped ones |
| `ExitWait.StepKeeps` | p5-xv6-memory-management/xv6-public/proc.c:250-536 | every step keeps the whole invariant |
| `ExitWait.RunKeeps` | p5-xv6-memory-management/xv6-public/proc.c:250-536 | every run keeps the whole invariant |
| `ExitWait.BootedOk` | p5-xv6-memory-management/xv6-public/proc.c:125-159 | the table that userinit leaves satisfies it |
| `ExitWait.ExitWaitProtocol` | p5-xv6-memory-management/xv6-public/proc.c:250-351 | the main theorem: in every reachable state a process asleep in wait has a child, no zombie child, and is not killed; every process but init that is past EMBRYO has a parent neither unused nor a zombie; and no pid is returned twice by wait, nor one that did not exit |
| `Pipe.Places` | p5-xv6-memory-management/xv6-public/pipe.c:95 | the slots of fewer than 512 successive counter values are distinct, across the wrap at 2^32 too |
| `Pipe.BufferedStored` | p5-xv6-memory-management/xv6-public/pipe.c:95 | storing appends one byte to the buffered ones |
| `Pipe.BufferedTaken` | p5-xv6-memory-management/xv6-public/pipe.c:115 | taking removes the oldest |
| `Pipe.Ring.constructor` | p5-xv6-memory-management/xv6-public/pipe.c:22-57 | a new pipe is empty with both ends open |
| `Pipe.Ring.Store` | p5-xv6-memory-management/xv6-public/pipe.c:95 | data[nwrite++ % PIPESIZE] appends to the contents, for any counter values |
| `Pipe.Ring.Take` | p5-xv6-memory-management/xv6-public/pipe.c:115 | data[nread++ % PIPESIZE] takes from the front |
| `Pipe.Ring.WriteSection` | p5-xv6-memory-management/xv6-public/pipe.c:82-97 | between two sleeps a writer stores as much as fits; it returns n if and only if the rest fits, -1 if and only if it does not and the read end is closed or the writer killed, and otherwise sleeps; it has woken the readers unless it fails |
| `Pipe.Ring.ReadSection` | p5-xv6-memory-management/xv6-public/pipe.c:105-120 | a reader sleeps or fails only when nothing is buffered and the write end is open; otherwise it takes min(n, buffered) bytes from the front and wakes the writers |
| `Pipe.StepKeeps` | p5-xv6-memory-management/xv6-public/pipe.c:59-121 | every step of every reader, writer, close or kill keeps the invariant |
| `Pipe.WriteStores` | p5-xv6-memory-management/xv6-public/pipe.c:83-98 | a section adds to what is stored of its own write the next bytes of it, and nothing to any other write |
| `Pipe.StrandsIff` | p5-xv6-memory-management/xv6-public/pipe.c:85-88 | a step leaves a reader asleep before buffered bytes if and only if it is that of a killed writer whose remaining bytes do not fit while a reader sleeps |
| `Pipe.StuckIff` | p5-xv6-memory-management/xv6-public/pipe.c:77-121 | over any run no reader is ever left asleep before buffered bytes if and only if no such step is taken |
| `Pipe.PipeFifo` | p5-xv6-memory-management/xv6-public/pipe.c:77-121 | over all interleavings the bytes stored are those delivered and then those buffered, in order; at most 512 are buffered; a sleeping writer means a full pipe; and no reader ever sleeps while bytes are buffered if and only if no killed writer meets a full buffer while a reader sleeps |
| `Pipe.CallsDone` | p5-xv6-memory-management/xv6-public/pipe.c:77-121 | over all interleavings, call by call: a write returned n if and only if all n of its bytes were stored, in order, and -1 if and only if they were not; a read returned the number of bytes it got, or -1 and none; and the bytes delivered are those of the reads' results in order |
| `Pipe.KilledWriterStrands` | p5-xv6-memory-management/xv6-public/pipe.c:85-88 | such a run exists from a new pipe on: a killed writer returns without waking, leaving a reader asleep before a full pipe |
| `SafeQueue.Best` | p6-concurrent-proxy-server/safequeue.c:95-100 | the scan's index is that of the first request with the highest priority, or -1 if all priorities are negative |
| `SafeQueue.InsertOrdered` | p6-concurrent-proxy-server/safequeue.c:31-50 | inserting behind all requests of at least its priority keeps the order |
| `SafeQueue.OrderOrdered` | p6-concurrent-proxy-server/safequeue.c:31-118 | the queue in order is sorted by descending priority and has the same requests |
| `SafeQueue.ScanIsHead` | p6-concurrent-proxy-server/safequeue.c:92-113 | wherever the scan finds a request, what scan and shift take is the head of the stable priority order, and what they leave is its tail |
| `SafeQueue.Queue.constructor` | p6-concurrent-proxy-server/safequeue.c:9-29 | an empty queue, of any size |
| `SafeQueue.Queue.AddWork` | p6-concurrent-proxy-server/safequeue.c:31-50 | -1 and no change if and only if the queue is full; otherwise the request is appended and one waiter signalled, but for an array that is full before the queue is |
| `SafeQueue.Queue.Scan` | p6-concurrent-proxy-server/safequeue.c:92-100 | the loop computes Best |
| `SafeQueue.Queue.Peek` | p6-concurrent-proxy-server/safequeue.c:52-73 | the index of the next request, -1 if and only if no request has a priority that is not negative |
| `SafeQueue.Queue.TakeNext` | p6-concurrent-proxy-server/safequeue.c:92-117 | it stays inside the array if and only if some priority is not negative and the array is not full; then it removes and returns the first request of the highest priority, and keeps the other requests in order |
| `SafeQueue.Queue.Shift` | p6-concurrent-proxy-server/safequeue.c:109-113 | the shift removes exactly that element, within the array |
| `SafeQueue.Queue.GetWorkNonblocking` | p6-concurrent-proxy-server/safequeue.c:120-163 | the dummy request, with -1 everywhere and an empty path, if the queue is empty, else the same |
| `SafeQueue.TakeKeeps` | p6-concurrent-proxy-server/safequeue.c:84-118 | taking loses and duplicates no request, and takes the head of the order |
| `SafeQueue.StepKeeps` | p6-concurrent-proxy-server/safequeue.c:31-163 | every step of every producer and worker that stays inside the array, requests of any priority and spurious wakeups included, keeps the invariant |
| `SafeQueue.NoLostWakeup` | p6-concurrent-proxy-server/safequeue.c:84-90 | over all interleavings the requests added are those taken and those queued, and while workers wait the queued requests never outnumber the workers already released |
| `SafeQueue.InsideIff` | p6-concurrent-proxy-server/safequeue.c:92-117 | over all interleavings takers stay inside the array if and only if the queue holds fewer than MAX_QUEUE_SIZE requests and, unless it holds none, no negative priority is added |
| `SafeQueue.Refines` | p6-concurrent-proxy-server/safequeue.c:31-163 | every such step is one of a bounded stable priority queue: insert by priority, take the head |

## Left out

- Bcache.Cache.Bread: does not model a block whose buffer another process holds locked; the source sleeps until the buffer is released, and which process runs meanwhile is outside this sequential model.
- Bcache, Log: the device driver below bread and bwrite; a block is written to the disk atomically.
- Log.Log.Commit: does not model readers that come and go during a commit, nor waiting for a reader of a block that the commit needs; the buffers that others hold, and their data, are fixed meanwhile.
- Log.Log.EndOp: does not model such readers either, for the commit of the last operation.
- Fs: device files, directories, inode allocation and the inode cache; an inode's type, device numbers and link count are only shown to stay as they are (`FsLog.RestLaidAll`).
- FsThrough.WriteThrough: one operation at a time, with no other process holding buffers; a transaction of several operations is that of LogDisk, Log and Reservation.
- FsThrough.Write: does not model pipes, the lock on the inode, other processes' operations between two pieces, and counts above 2^31 - 1.
- Heap.Heap.Malloc: says nothing of what follows once a header is stored outside the memory that sbrk gave; what the program itself writes into its blocks and sbrk calls of other sizes than whole units are left out.
- Mmap.Kernel.MapPage: does not model the frames that page tables take, nor their want; Vm models these for allocuvm.
- Mmap.Kernel.Mmap: does not model file-backed mappings, reading and writing their files, the frames of page tables, lengths of zero or less, and the mapping after the 99th of a process, where the table of 100 entries overflows.
- Mmap.Kernel.Munmap: does not model lengths other than the whole mapping's beyond what `UnmapWhole` says of the table; which further page makes clearpte fail or free is left out, and so is address 0, at which the first process, whose table fork did not reset, has entries that the lookup accepts.
- Mmap.Kernel.GrowUp: says nothing of the state once the null pointer is mapped.
- Mmap.Kernel.Fork: a copy that fails leaves a child whose tables are only promised to share no free page; growing the heap into the window, and exec, are left out.
- MmapRun.CallKeeps: does not model a fork whose copy fails.
- Vm.Kernel.MapPage: one page, as allocuvm calls mappages, which is not present; setupkvm, copyuvm, freevm and the kernel half of the directory are left out.
- Scheduler.BoundedIffTwo: its runs are of processes that compute, fork and call nice; those that exit or block, in the middle of a tick or not, several CPUs and the overflow of the tick counter are left out.
- ExitWait.ExitWaitProtocol: freeing memory and files, the overflow of nextpid, and steps finer than those atomic under ptable.lock are left out.
- Pipe.PipeFifo: a killed flag that is set within one section, and freeing the pipe's page, are left out.
- WfsLog.RemovedEffect: holds of a parent that lists the file exactly once, which is what `WfsRun.UnlinkKeepsTree` shows to be the condition for the tree; the other outcomes are in `Wfs.Unlink`.
- WfsPath.Separate: does not model paths of 128 bytes and more, which overrun the source's parent_path.
- Wfs.FindByPath: does not model paths of 128 bytes and more, which overrun the source's path_copy.
- Wfs.Read: does not model paths of 128 bytes and more, for the same reason.
- Wfs.Write: does not model an offset plus size of 2^31 or more, and writes to directories, which the kernel does not let through.
- Wfs.CreateIn: does not model a parent that is not a directory, which the kernel does not let through, and inode numbers from 2^31 - 1 on.
- Wfs.Create: does not model these, and paths of 128 bytes and more.
- Wfs.Mknod: does not model these either.
- Wfs.Mkdir: does not model these either.
- Wfs.UnlinkIn: does not model a parent that is not a directory.
- Wfs.Unlink: does not model that, and paths of 128 bytes and more; it ends the run where a store passes the end of the image. getattr, readdir and the FUSE registration are left out.
- Fsck: opening and mapping the disk file; mkfs appears as the image it leaves.
- SafeQueue.StepKeeps: its steps are those that stay inside the array, which `InsideIff` characterizes.
- SafeQueue.Refines: the same; pthread itself and the allocation of path strings are left out.
- The proxy's networking, the shell, the Unix utilities and the new system calls of p2 are left out: they would add only easy members.
