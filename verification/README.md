# Proofs about an xv6 kernel, its user land and a run-length encoder

A Dafny model of the repository's xv6 storage stack, page tables, processes and pipes, its user
heap, shell parser and pattern matcher, and its run-length encoders. Code that updates variables in
place is a class or a method with the source's loops, proved against a specification; what the
source promises is proved of the specification, for all inputs and over all runs.

`dafny verify dfyconfig.toml` checks everything.

## The files

- `Sets`: counting finite sets.
- `Blocks`, `Log`, `LogSystem`, `LogDurability`: disk blocks as bytes; the redo log's code and the
  writes it makes; all interleavings of operations, commits, crashes and recoveries; what survives.
- `BufferCache`, `BufferRuns`: the block cache and the disk queue, and all interleavings of the
  processes and interrupts that use them. The cache refines a map from block to contents, its field
  `view`. The other storage modules use the cache through that map only.
- `Bitmap`, `FileBlocks`, `FileSystem`, `FileContents`, `Directory`, `Namex`: the block bitmap,
  ownership of blocks, bmap and itrunc, files as byte sequences, directories as maps, path names.
- `FreeList`, `Umalloc`: the free list as intervals, and the pointers that represent it.
- `PageTables`, `Vm`: one owner for each physical page, and the operations of vm.c and kalloc.c.
- `Shell`, `ShellRoundTrip`, `ShellGrammar`, `ShellParser`: the parser as functions, printing and
  parsing, the grammar over tokens that the parser accepts, and the cursor code with nulterminate.
- `Proc`, `ProcTable`: processes as a state machine over atomic sections, and the table scans.
- `Pipe`: readers and writers as a state machine, and the ring behind it.
- `Grep`, `Runs`, `Rle`, `Prle`: the matcher, and the two encoders.

## Assumptions

- One block write is atomic and the disk reports no errors. A file-system operation logs at most
  MAXOPBLOCKS new blocks. The log's size is a parameter.
- A lock is an atomic section, and a context switch is a scheduling step. The log, the block cache,
  processes and pipes are proved over every interleaving of their atomic sections; the operations of
  vm.c, fs.c and namex run one at a time. With another processor freeing frames in between,
  allocuvm could also succeed after a failed mappages in the middle of its range.
- log.c's breads find a buffer when one is neither pinned nor locked. How many buffers other
  processes have locked at each bread is a parameter of `Log.Store`.
- An end of a pipe is closed by the last close of its file, so nobody is in a call on that end:
  fileclose's reference count is not part of this model.
- A pointer into a static array is a slot number, a header's address is the number of its
  header-sized unit, a kernel pointer to a page is its frame number, and a pointer into a line or a
  path is an offset. The arrays those numbers index are fields that the methods reassign.
- sbrk grants memory until a limit that is a parameter of the heap.
- Tick and pid counters do not wrap.

## What the code does not do

Some properties fail of the code as it is. Each is stated with its exact condition.

- log_write panics on a full log before it looks for the block. No log size avoids that
  (`LogSystem.NoSizeIsPanicFree`). A log of more than LOGSIZE blocks spares the operations with
  budget left, and only such a log does (`LogSystem.BudgetSparedIff`); mkfs makes one of exactly
  LOGSIZE. What is left then is stated by `LogSystem.PanicsExactly`.
- Such a larger log has another fault: it can pin as many blocks as there are buffers, and then
  commit's first bread panics in bget without a write (`LogDurability.StarvesIff`,
  `Log.KernelLog.Commit`, `BufferRuns.PinnedFull`). A panic is a crash, so the crash theorems hold,
  but that commit does not complete.
- The same test comes before the lock, so a log of at most LOGSIZE blocks can be overrun
  (`LogSystem.NoOverrunIff`). Crash safety is proved for a log of any size along every run in which
  the list of logged blocks has not outgrown it.
- allocuvm ignores that a page table could not be made. It loses the page, and when that was the
  last one it reports success with the page unmapped (`Vm.Machine.Allocuvm`; on a machine,
  `Vm.FalseSuccess`).
- setupkvm gives nothing back when it fails, and copyuvm loses a page when a page table cannot be
  made (`Vm.Machine.Setupkvm`, `Vm.Machine.Copyuvm`, `Vm.LostFrame`).
- copyout follows a null pointer at a page whose directory slot is empty (`Vm.Machine.Copyout`,
  `Vm.NullPointer`).
- malloc's arithmetic is exact only below 2 GB; the largest sizes get a block without room
  (`Umalloc.UnitsWrap`).
- A killed writer that fills a pipe returns -1 without waking the reader (`Pipe.SleepersExact`).
- kill accepts the pid that a failed fork, or no fork yet, left in an unused slot (`Proc.KillStale`).
- Reading the run-length encoding back gives the text if and only if it has no digit
  (`Rle.RoundTrip`), and some texts with digits share an encoding (`Rle.Ambiguous`).
- The run list of prle.c fits the room allocated for it, for every text of n letters, if and only
  if n is at least nine (`Prle.RoomIff`).
- The shell opens the file after `>>` as it does after `>`, so nothing is appended
  (`ShellRoundTrip.AppendIsOverwrite`).

## Model

| member | source | states |
|---|---|---|
| Log.HeaderRoundTrip | homework-1-sort/kernel/log.c:80-104 | the header that write_head lays over a block reads back as the same count and block numbers |
| Log.RecoveredContents | homework-1-sort/kernel/log.c:106-111 | recovery gives each logged home block its log copy, empties the header and changes nothing else |
| Log.RecoveryRestart | homework-1-sort/kernel/log.c:66-111 | a recovery cut off after any write and run again ends as if it had not been cut off |
| Log.RepeatedCrashes | homework-1-sort/kernel/log.c:66-111 | the same for any number of recoveries, each cut off anywhere |
| Log.CrashAtomic | homework-1-sort/kernel/log.c:160-181 | stop commit after any prefix of its writes and recover, itself stopped any number of times: home blocks are all old up to the header write and all new from it on |
| Log.CommitComplete | homework-1-sort/kernel/log.c:173-181 | the whole script of a commit's writes installs the transaction and leaves an empty log; whether commit gets to the end of its script is `Log.KernelLog.Commit` |
| Log.KernelLog.InstallTrans | homework-1-sort/kernel/log.c:66-77 | the loop makes exactly the install writes, in order, or stops where a bread finds no buffer |
| Log.KernelLog.ReadHead | homework-1-sort/kernel/log.c:80-89 | the in-memory header becomes the disk's list of blocks, when a buffer is to be had |
| Log.KernelLog.WriteHead | homework-1-sort/kernel/log.c:94-104 | one write, of the header block for the current list, or none without a buffer |
| Log.KernelLog.WriteLog | homework-1-sort/kernel/log.c:160-171 | the loop copies each logged block from the cache to its log slot, in order, or stops where a bread finds no buffer, which is at once with NBUF blocks pinned |
| Log.KernelLog.RecoverFromLog | homework-1-sort/kernel/log.c:106-111 | the code's writes are the recovery script that the crash theorems are about, or a prefix of it; all of it when two buffers are to be had |
| Log.KernelLog.Commit | homework-1-sort/kernel/log.c:173-181 | the code's writes are the commit script that the crash theorems are about, or a prefix of it: all of it, unpinning every logged block, when one buffer is left beside the pinned ones; none of it with NBUF blocks pinned |
| Log.EnoughAlone | homework-1-sort/kernel/bio.c:82-91 | with no other process at the buffers, a commit has enough of them exactly when fewer than NBUF blocks are pinned |
| Log.KernelLog.BeginOp | homework-1-sort/kernel/log.c:114-128 | one turn of the loop opens an operation when no commit runs and n + (outstanding + 1) * MAXOPBLOCKS fits LOGSIZE, and opens none otherwise |
| Log.KernelLog.EndOp | homework-1-sort/kernel/log.c:132-157 | only the last operation out commits, and then everything logged, as Commit does |
| Log.KernelLog.LogWrite | homework-1-sort/kernel/log.c:192-210 | absorbs a block already logged, appends a new one, and panics exactly when the log is full or no operation is open |
| LogSystem.GroupInvHolds | homework-1-sort/kernel/log.c:114-210 | over every interleaving of begin_op, log_write, end_op, commits and crashes: the reservation, and no operation split over two transactions. A log of at most LOGSIZE blocks that is overrun commits outside itself: such a commit is not among the steps |
| LogSystem.Admission | homework-1-sort/kernel/log.c:114-128 | in every state, whatever is logged and open: begin_op adds one operation when no commit runs and the logged blocks plus MAXOPBLOCKS for each open operation and for this one fit LOGSIZE, and only puts the process to sleep otherwise |
| LogSystem.BudgetSparedIff | homework-1-sort/kernel/log.c:195-196 | the panic test spares every operation with budget left, over every interleaving, if and only if the log has more than LOGSIZE blocks; mkfs makes it exactly LOGSIZE (homework-1-sort/mkfs/mkfs.c:29) |
| LogSystem.PanicsExactly | homework-1-sort/kernel/log.c:195-202 | with a larger log the test hits a write its operation is entitled to exactly when LOGSIZE blocks are logged and an operation is open outside log_write; then all budgets are spent and the write is one that the search would have absorbed |
| LogSystem.NoSizeIsPanicFree | homework-1-sort/kernel/log.c:195-202 | for every log size some run reaches that panic |
| LogSystem.NoOverrunIff | homework-1-sort/kernel/log.c:192-207 | the logged list stays within the log's blocks in every run if and only if the log has more than LOGSIZE blocks, or one, since the test comes before the lock |
| LogSystem.StarvedReachable | homework-1-sort/kernel/log.c:192-210 | for every log of more than LOGSIZE blocks, a run to the last end_op of a group with NBUF blocks logged and pinned |
| LogDurability.AlwaysContained | homework-1-sort/kernel/log.c:192-207 | a log of more than LOGSIZE blocks contains every run, so the results below then hold of all runs |
| LogDurability.CrashSafe | homework-1-sort/kernel/log.c:66-210 | at every moment of every contained run recovering the disk yields exactly the writes of the durable transactions, in order |
| LogDurability.OperationsAtomic | homework-1-sort/kernel/log.c:114-157 | all of an operation's writes are durable or none, and none before the operation has ended |
| LogDurability.DurabilityLasts | homework-1-sort/kernel/log.c:173-181 | a finished commit is durable and no later step, a crash included, undoes it |
| LogDurability.GroupCommit | homework-1-sort/kernel/log.c:114-157 | committing implies no open operation, logged numbers are distinct, logged blocks plus unused budgets fit LOGSIZE, and a process sleeps in begin_op only while a commit runs or one more budget does not fit, over the same runs as GroupInvHolds |
| LogDurability.StarvesIff | homework-1-sort/kernel/log.c:173-181 | within contained runs a commit can come to find every buffer pinned if and only if the log has more than LOGSIZE blocks |
| BufferCache.Relinked | homework-1-sort/kernel/bio.c:115-132 | brelse's pointer writes turn the prev/next ring into the ring with the buffer moved behind the head, each buffer still once |
| BufferCache.ReleaseOrder | homework-1-sort/kernel/bio.c:115-132 | moving the released buffer to the front keeps the ring in most-recently-released order, never released ones last in initial order |
| BufferCache.CachedRecycle | homework-1-sort/kernel/bio.c:79-91 | recycling an idle clean buffer keeps at most one buffer per block and every block's contents |
| BufferCache.CachedComplete | homework-1-sort/kernel/ide.c:94-120 | a finished request makes buffer, disk and the cache's view agree and changes no other block's contents |
| BufferCache.Bcache.Binit | homework-1-sort/kernel/bio.c:39-55 | the loop builds the ring, and the cache shows the disk |
| BufferCache.Bcache.Bget | homework-1-sort/kernel/bio.c:60-92 | returns the one buffer of a cached block, else recycles the least recently released idle clean one, else there is none; nothing dirty is recycled |
| BufferCache.Bcache.Bread | homework-1-sort/kernel/bio.c:95-103 | returns a valid buffer with the block's contents; sleeps exactly when another holds the block, and finds no buffer exactly when none is idle and clean. BufferRuns.BreadRun lets others run during the disk wait |
| BufferCache.Bcache.Bwrite | homework-1-sort/kernel/bio.c:106-111 | disk, buffer and view agree on the block afterwards and the queue is empty, when only the driver runs during the wait; BufferRuns.BwriteRun lets others run |
| BufferCache.Bcache.Brelse | homework-1-sort/kernel/bio.c:115-132 | the step Unlocked of the cache, keeping its invariant, and the buffer becomes the most recent |
| BufferCache.Bcache.Ideintr | homework-1-sort/kernel/ide.c:94-120 | the step Served: the head of the queue is completed in the direction its flags ask and its flags are set; then the controller has the command of the next request |
| BufferCache.Bcache.Iderw | homework-1-sort/kernel/ide.c:126-154 | returns once the buffer is in step with the disk, buffers that were not waiting untouched, when only the driver runs during the wait; BufferRuns.IderwRun lets others run |
| BufferCache.Bcache.Submit | homework-1-sort/kernel/ide.c:137-147 | appends b to the queue, and gives the controller its command when it is the only request |
| BufferRuns.StepKeeps | homework-1-sort/kernel/bio.c:60-132 | every step of every process and every interrupt keeps the cache invariant, distinct unsynced requests, and a process waiting for each of them |
| BufferRuns.AlwaysSound | homework-1-sort/kernel/bio.c:60-132 | in every run: a block is in one buffer at most, an unlocked buffer shows its block and so does the disk unless it is pinned, a process asleep in bget waits for a locked buffer and one asleep in iderw for its own unfinished request |
| BufferRuns.IderwRun | homework-1-sort/kernel/ide.c:126-154 | whatever other processes do, a request with n before it is untouched up to n interrupts and done after one more, and its process is back only then |
| BufferRuns.BreadRun | homework-1-sort/kernel/bio.c:95-103 | whatever other processes do, between bget and iderw too, bread returns the contents the block had when the buffer was locked, and still has |
| BufferRuns.BwriteRun | homework-1-sort/kernel/bio.c:106-111 | whatever other processes do, between setting the flag and iderw too, on return the disk holds what the buffer held |
| BufferRuns.CodeCache | homework-1-sort/kernel/bio.c:30-37 | the cache of the class is one that the runs speak of; each method's contract gives the step's new cache |
| BufferRuns.RoomIff | homework-1-sort/kernel/bio.c:79-91 | a block in no buffer gets one exactly when fewer than all buffers are locked or pinned |
| BufferRuns.PinnedFull | homework-1-sort/kernel/bio.c:79-91 | as many pinned blocks as buffers leave none for any other block |
| Bitmap.MarkedBits | homework-1-sort/kernel/fs.c:56-61 | setting or clearing a bit through its byte changes that block's bit and no other |
| Bitmap.BitWeight | homework-1-sort/kernel/fs.c:56-61 | the bits are the binary digits: a number is the sum of the weights 2 to the k of its bits |
| Bitmap.MkfsBitmap | homework-1-sort/mkfs/mkfs.c:232-244 | the kernel finds in the bitmap that mkfs writes exactly the first used blocks in use |
| FileBlocks.AllocOwned | homework-1-sort/kernel/fs.c:49-69 | a block balloc marks was free and is owned by nobody yet |
| FileBlocks.Attach | homework-1-sort/kernel/fs.c:332-358 | storing a fresh address at one place gives the block that one owner and keeps the accounting |
| FileBlocks.Detach | homework-1-sort/kernel/fs.c:365-391 | clearing the one place an owned block is stored at frees it from ownership |
| FileSystem.Volume.Balloc | homework-1-sort/kernel/fs.c:49-69 | the lowest free block, marked and zeroed, or none when the bitmap is full |
| FileSystem.Volume.Bfree | homework-1-sort/kernel/fs.c:72-85 | clears the bit of a block in use and panics exactly on a free one; itrunc never reaches the panic |
| FileSystem.Volume.Bmap | homework-1-sort/kernel/fs.c:332-358 | the address in the inode's slot, or in its word of the indirect block, allocated zeroed when missing; every other place of every file keeps its address and contents; the ownership invariant holds |
| FileSystem.Volume.Itrunc | homework-1-sort/kernel/fs.c:365-391 | frees each block the file owned once, and only those, and leaves an empty inode, on disk too |
| FileContents.Readi | homework-1-sort/kernel/fs.c:404-426 | with off within the file and off + n not wrapping returns min(n, size - off) and that slice, over block edges and the direct/indirect border; -1 exactly otherwise; changes nothing |
| FileContents.Writei | homework-1-sort/kernel/fs.c:430-458 | with off within the file, off + n not wrapping and within MAXFILE blocks replaces exactly [off, off + n), grows the size to the maximum and keeps every other file's bytes; -1 exactly otherwise |
| FileContents.WriteTurn | homework-1-sort/kernel/fs.c:443-450 | one block of a write changes its own byte range of its own file and no other mapped byte |
| FileContents.BlockBytes | homework-1-sort/kernel/fs.c:418-424 | the bytes of a mapped block of a file, in order, are the block |
| Directory.Linked | homework-1-sort/kernel/fs.c:504-514 | filling a free entry or appending one adds that binding and no other, and hides none |
| Directory.Namecmp | homework-1-sort/kernel/fs.c:463 | equal exactly when the directory would keep the same 14-byte name |
| Directory.Strncpy | homework-1-sort/kernel/fs.c:511 | the field read back is the name cut to 14 bytes |
| Directory.EntriesWritten | homework-1-sort/kernel/fs.c:504-514 | the write's 16 bytes change that one entry of the directory's contents |
| Directory.Dirlookup | homework-1-sort/kernel/fs.c:467-489 | finds exactly the binding that the directory, as a map, has for the name, and its offset |
| Directory.Dirlink | homework-1-sort/kernel/fs.c:492-517 | -1 and no change when the name is bound, else the name bound to inum, cut to 16 bits when it is wider (to nothing when that is 0), and no other binding changed; other files keep their bytes |
| Directory.DecodeEntry | homework-1-sort/kernel/fs.h:57-60 | an entry is a little-endian ushort and the name |
| Namex.Skipelem | homework-1-sort/kernel/fs.c:534-555 | the next slash-separated element cut to 14 bytes, and the rest without leading slashes |
| Namex.ElementsSpelled | homework-1-sort/kernel/fs.c:534-555 | a name between slashes, however many come before it, is the next element, cut to 14 bytes |
| Namex.ElementsSlashed | homework-1-sort/kernel/fs.c:534-555 | the path /n1/n2/... has n1, n2, ... as its elements |
| Namex.WalkStep | homework-1-sort/kernel/fs.c:570-591 | one lookup from a directory is one step of the fold, for the last element and for others; with no element left the inode reached is the answer, and none is for nameiparent |
| Namex.Lookup.Namex | homework-1-sort/kernel/fs.c:561-592 | the fold of lookup over the path's elements (or over all but the last); one reference more on the result and no other count changed; with every bound inode linked, no inode is freed on the way |
| FreeList.InsertSorted | homework-1-sort/user/umalloc.c:24-42 | freeing a block into its gap, with both joins, leaves one address-ordered list in which no two blocks touch |
| FreeList.InsertUnits | homework-1-sort/user/umalloc.c:24-42 | no unit is lost by coalescing |
| FreeList.InsertDisjoint | homework-1-sort/user/umalloc.c:24-42 | free blocks stay disjoint from live blocks |
| FreeList.TakenClear | homework-1-sort/user/umalloc.c:83-93 | the units malloc takes were in no live block and are in no free one afterwards |
| FreeList.TakenUnits | homework-1-sort/user/umalloc.c:83-93 | malloc takes exactly its units from the list |
| Umalloc.HoldsJoined | homework-1-sort/user/umalloc.c:31-35 | the pointer writes of the upper join represent the joined list |
| Umalloc.HoldsBelow | homework-1-sort/user/umalloc.c:36-40 | the pointer writes of the lower join, or the link, represent the resulting list |
| Umalloc.SearchStep | homework-1-sort/user/umalloc.c:28-30 | free's two stop tests hold exactly at the one gap where the address belongs, across the wrap |
| Umalloc.UnitsFor | homework-1-sort/user/umalloc.c:79 | header units that hold the bytes asked for, with no whole unit too many |
| Umalloc.UnitsWrap | homework-1-sort/user/umalloc.c:44-79 | the 32-bit arithmetic is exact and sbrk's argument positive exactly below MAX_BYTES; from there on sbrk is asked for nothing or to shrink, and the last seven sizes get one unit |
| Umalloc.Linked | homework-1-sort/user/umalloc.c:31-40 | free's four pointer and size updates, for any outcome of its two tests |
| Umalloc.Carve | homework-1-sort/user/umalloc.c:84-93 | unlinks a block that fits exactly or cuts the upper end of a bigger one, writing in no live block |
| Umalloc.Heap.FindPlace | homework-1-sort/user/umalloc.c:27-30 | the search ends, at that gap |
| Umalloc.Heap.Free | homework-1-sort/user/umalloc.c:24-42 | the block joins the list; every other live block keeps its contents |
| Umalloc.Heap.Morecore | homework-1-sort/user/umalloc.c:44-57 | sbrk grants 4096 units or the nu asked for, whichever is more, and they become free; or there is no memory for that and nothing changes |
| Umalloc.Heap.Search | homework-1-sort/user/umalloc.c:83-98 | terminates with at most one successful morecore, at the first block after freep that fits |
| Umalloc.Heap.Malloc | homework-1-sort/user/umalloc.c:75-100 | fails exactly when no block fits and sbrk cannot grow; else a new block, the upper end of the first fit, disjoint from all live ones, which keep their contents; when none fits the grant is at least 4096 units; what is free grows by the grant less the block |
| Umalloc.Heap.Realloc | homework-1-sort/user/umalloc.c:59-73 | the same block when it is big enough, else a new one with the whole old payload and the old one freed; on failure the old block stays |
| PageTables.Grown | homework-1-sort/kernel/vm.c:202-223 | when address spaces only grow, a frame that changed hands was free |
| PageTables.Gone | homework-1-sort/kernel/vm.c:255-268 | when an address space goes, each frame it had is free and no other use changed |
| PageTables.EntryAdded | homework-1-sort/kernel/vm.c:66-84 | a new entry keeps every frame free or used once across all address spaces |
| PageTables.EntryDropped | homework-1-sort/kernel/vm.c:241-248 | so does clearing one, which leaves its frame to nobody |
| PageTables.Returned | homework-1-sort/kernel/kalloc.c:53-69 | kfree of a frame in no use keeps the same invariant |
| Vm.KernelAt | homework-1-sort/kernel/vm.c:109-119 | kmap's four rows map every kernel page to the memory and with the flags they should, and overlap nowhere |
| Vm.KernelRegions | homework-1-sort/kernel/vm.c:109-119 | the finished mapping, region by region, with frame and flags |
| Vm.HardwareWalk | homework-1-sort/kernel/vm.c:43-61 | the processor's walk of the two levels in memory finds the frame and the rights that the space has, or faults |
| Vm.Machine.Kalloc | homework-1-sort/kernel/kalloc.c:74-85 | the head of the free list, or 0 when it is empty |
| Vm.Machine.Kfree | homework-1-sort/kernel/kalloc.c:53-69 | the frame becomes the head |
| Vm.Machine.Freerange | homework-1-sort/kernel/kalloc.c:41-46 | exactly the whole pages of the range become free |
| Vm.Machine.Walkpgdir | homework-1-sort/kernel/vm.c:43-61 | the entry of the address; a missing table is made only when asked for and only when a frame is left |
| Vm.Machine.Mappages | homework-1-sort/kernel/vm.c:66-84 | maps exactly the range, or on failure a prefix of it with the free list empty |
| Vm.Machine.Setupkvm | homework-1-sort/kernel/vm.c:122-136 | the kernel's mappings from 65 frames; fails exactly with fewer, and then the frames it took are lost |
| Vm.Machine.Allocuvm | homework-1-sort/kernel/vm.c:202-223 | zeroed pages up to newsz, or back to what it had. A frame is lost exactly when memory runs out at a page table, whose failure the source ignores: then newsz with the last page unmapped if it was the last page, else 0 |
| Vm.GrownReads | homework-1-sort/kernel/vm.c:202-223 | user code can read and write the new pages and finds zeros |
| Vm.FalseSuccess | homework-1-sort/kernel/vm.c:211-222 | a machine of 66 frames where allocuvm reports a first page that it has not mapped |
| Vm.Machine.Deallocuvm | homework-1-sort/kernel/vm.c:229-251 | frees exactly the pages from newsz on; the 4 MB skip passes over no mapped page because user memory is contiguous |
| Vm.Machine.Freevm | homework-1-sort/kernel/vm.c:255-268 | exactly the frames of that space become free |
| Vm.Machine.Copyuvm | homework-1-sort/kernel/vm.c:283-309 | equal contents and flags in frames that were free; 0 exactly when frames run out, and then all are given back but the one a failed table leaves |
| Vm.CopyReads | homework-1-sort/kernel/vm.c:283-309 | the child finds the parent's bytes, with the same rights |
| Vm.LostFrame | homework-1-sort/kernel/vm.c:283-309 | a machine on which copyuvm fails and loses a frame |
| Vm.Machine.Copyout | homework-1-sort/kernel/vm.c:327-346 | replaces exactly those bytes of that space, or a prefix up to the first page user code cannot reach, and returns -1 exactly then, or follows a null pointer exactly when that page has no table |
| Vm.NullPointer | homework-1-sort/kernel/vm.c:310-322 | a machine on which copyout follows a null pointer |
| Shell.Next | homework-1-sort/user/sh.c:254-295 | tokens make progress, end only at the end of the line, and words are maximal |
| Shell.ParseLine | homework-1-sort/user/sh.c:327-340 | the mutually recursive parser terminates on every line, and its cursor only moves forward within it |
| Shell.LineWellFormed | homework-1-sort/user/sh.c:327-419 | whatever the line, a parse records maximal words, at most nine per command, and the modes of the source |
| ShellRoundTrip.LineRoundTrip | homework-1-sort/user/sh.c:327-419 | a printed tree, anywhere in a line and followed by a parenthesis or the end, parses to itself and no further |
| ShellRoundTrip.RoundTrip | homework-1-sort/user/sh.c:312-325 | parsecmd undoes fully parenthesised printing for every tree of legal words |
| ShellRoundTrip.AppendIsOverwrite | homework-1-sort/user/sh.c:353-374 | a command with >> parses to the tree, mode and descriptor of the command with > |
| ShellGrammar.SpelledParses | homework-1-sort/user/sh.c:312-419 | a line whose tokens, under any white space, spell a command line parses to its tree: redirections before, between and after the words, pipes binding tighter than & and & tighter than ;, parentheses |
| ShellGrammar.ParsedSpells | homework-1-sort/user/sh.c:312-419 | every line that parses spells a command line, and parses to its tree |
| ShellGrammar.ParsesIff | homework-1-sort/user/sh.c:312-419 | parsecmd succeeds on exactly the lines of the grammar |
| ShellGrammar.Recorded | homework-1-sort/user/sh.c:312-419 | on every line that parses the arguments are the words that follow no redirection, the files the words that do, each once and in order, and so are the joining symbols |
| ShellParser.NulterminateSafe | homework-1-sort/user/sh.c:422-464 | after nulterminate each recorded word, read as a C string, is the word parsed |
| ShellParser.Parser.Gettoken | homework-1-sort/user/sh.c:254-295 | the loops over the cursor compute that token |
| ShellParser.Parser.Parseredirs | homework-1-sort/user/sh.c:353-374 | the loop computes the redirections, in order |
| ShellParser.Parser.Parseline | homework-1-sort/user/sh.c:327-340 | the cursor code computes ParseLine, which ShellGrammar ties to the grammar |
| ShellParser.Parser.Parsepipe | homework-1-sort/user/sh.c:342-351 | the cursor code computes ParsePipe |
| ShellParser.Parser.Parseblock | homework-1-sort/user/sh.c:376-388 | the cursor code computes ParseBlock |
| ShellParser.Parser.Parseexec | homework-1-sort/user/sh.c:390-419 | the cursor code computes ParseExec, which ShellGrammar ties to the grammar |
| ShellParser.Parser.Nulterminate | homework-1-sort/user/sh.c:422-464 | writes NUL at every recorded end and nowhere else |
| ShellParser.Parser.Parsecmd | homework-1-sort/user/sh.c:312-325 | parses the whole line or panics; on success every word is a C string in the buffer |
| Proc.StepKeeps | homework-3-lottery-scheduling/kernel/proc.c:70-569 | every step of every process keeps the process-table invariant |
| Proc.ExitParents | homework-3-lottery-scheduling/kernel/proc.c:240-250 | exit hands every child to init, so a zombie has none and parents are alive |
| Proc.ExitWaiters | homework-3-lottery-scheduling/kernel/proc.c:237-250 | exit wakes whoever has to see the new zombie or inherits one |
| Proc.ExitWaitProtocol | homework-3-lottery-scheduling/kernel/proc.c:215-297 | in every run: zombies have no children, live processes but init have a live parent, nobody sleeps in wait beside a zombie child, pids are distinct |
| Proc.ReturnedOnce | homework-3-lottery-scheduling/kernel/proc.c:260-347 | a pid that wait returned is never returned again |
| Proc.KillFinds | homework-3-lottery-scheduling/kernel/proc.c:553-569 | kill of a live pid marks that process |
| Proc.KillMarks | homework-3-lottery-scheduling/kernel/proc.c:553-569 | it sets the flag and makes a sleeper runnable, and changes nothing else |
| Proc.KillStale | homework-3-lottery-scheduling/kernel/proc.c:553-569 | kill reports success without a process exactly when an unused slot still holds the pid, and the next process in that slot starts killed |
| Proc.WaitStatTimes | homework-3-lottery-scheduling/kernel/proc.c:311-335 | the reported times add up and the ready time is never negative |
| Proc.TimeWithinAge | homework-3-lottery-scheduling/kernel/trap.c:42-57 | run time plus sleep time never exceeds the ticks since creation |
| Proc.RunCounts | homework-3-lottery-scheduling/kernel/trap.c:42-57 | in every run from any point rutime grows by the ticks that found the process running and stime by those that found it sleeping; no other step or slot moves them |
| Proc.TimesCounted | homework-3-lottery-scheduling/kernel/proc.c:311-335 | the times that wait_stat reports are those counts since fork set them, and the tick of the fork |
| ProcTable.Ptable.Allocproc | homework-3-lottery-scheduling/kernel/proc.c:74-88 | the scan takes the first unused slot, which becomes an embryo with the next pid |
| ProcTable.Ptable.Wakeup1 | homework-3-lottery-scheduling/kernel/proc.c:535-541 | wakes exactly the sleepers on that channel |
| ProcTable.Ptable.Exit | homework-3-lottery-scheduling/kernel/proc.c:235-252 | the scans wake the parent, and init when it inherits a zombie, hand every child to init and leave a zombie with the current tick |
| ProcTable.Ptable.Wait | homework-3-lottery-scheduling/kernel/proc.c:300-346 | one pass reaps the first zombie child and reports its times, or returns -1 without children or when killed, or sleeps |
| ProcTable.Ptable.Kill | homework-3-lottery-scheduling/kernel/proc.c:553-569 | the scan sets the flag of the first slot with the pid and makes it runnable if it sleeps; -1 exactly when there is none |
| ProcTable.Ptable.Timer | homework-3-lottery-scheduling/kernel/trap.c:42-57 | one tick more; a running current process gets it as run time, a sleeping one as sleep time, and nobody else |
| Pipe.StepKeeps | homework-1-sort/kernel/pipe.c:56-112 | every step keeps the bytes read a prefix of the bytes written, at most 512 behind |
| Pipe.PrefixAlways | homework-1-sort/kernel/pipe.c:73-112 | in every run bytes come out in the order they went in |
| Pipe.SleepersExact | homework-1-sort/kernel/pipe.c:73-112 | a step leaves a sleeper without a reason exactly when a killed writer fills the pipe under a sleeping reader |
| Pipe.NoLostWakeupFromStart | homework-1-sort/kernel/pipe.c:73-112 | with no kill, a sleeping reader means an empty pipe with a writer and a sleeping writer a full one with a reader |
| Pipe.LostWakeup | homework-1-sort/kernel/pipe.c:78-83 | a run with a kill after which a reader sleeps beside a full pipe |
| Pipe.Wrapped | homework-1-sort/kernel/pipe.c:78 | the wrapping counters tell full, empty and the ring index apart at every value |
| Pipe.Buffer.Write | homework-1-sort/kernel/pipe.c:73-91 | the copy loop over the ring takes the smaller of the bytes left and the room, then is done, fails or sleeps, and wakes readers unless it fails |
| Pipe.Buffer.Read | homework-1-sort/kernel/pipe.c:93-112 | the copy loop over the ring returns the smaller of n and the bytes there are, the next ones written, or sleeps, or fails when killed |
| Pipe.Buffer.Close | homework-1-sort/kernel/pipe.c:56-70 | closing an end wakes the other side, and the last one frees the page, which no process is using |
| Pipe.ClosedUnused | homework-1-sort/kernel/pipe.c:56-70 | with both ends closed no process is in a call and none can start one, given that the last close of a file finds nobody in a call on it |
| Grep.Match | homework-1-sort/user/grep.c:68-76 | 1 exactly when some substring, or with ^ a prefix, has the meaning of the pattern |
| Grep.Matchhere | homework-1-sort/user/grep.c:79-89 | 1 exactly when the pattern's items divide a prefix of the text among them |
| Grep.Matchstar | homework-1-sort/user/grep.c:92-98 | the same after any number of repetitions |
| Grep.ParseWritten | homework-1-sort/user/grep.c:79-89 | reading a written pattern gives its items back: c* repeats c, a last $ is the end, any other character is a literal |
| Grep.WrittenParse | homework-1-sort/user/grep.c:79-89 | every pattern is the writing of its items |
| Grep.PlainMatches | homework-1-sort/user/grep.c:68-98 | a pattern without special characters matches exactly where it occurs, or with ^ where the text starts with it |
| Grep.SpecialMatches | homework-1-sort/user/grep.c:68-98 | . needs a character, ^c*$ a text of c's, ^$ the empty text, ^.*$ nothing |
| Rle.RoundTrip | homework-4-run-length-encodinng-RLE/rle.c:6-36 | the reader Decode gives the text back exactly when the text has no digit |
| Rle.Ambiguous | homework-4-run-length-encodinng-RLE/rle.c:6-36 | "aa" and "2a" have one encoding |
| Rle.DigitFreeDistinct | homework-4-run-length-encodinng-RLE/rle.c:6-36 | texts without digits have distinct encodings |
| Rle.NotLonger | homework-4-run-length-encodinng-RLE/rle.c:6-36 | the encoding is never longer than the text |
| Rle.DecimalShort | homework-4-run-length-encodinng-RLE/rle.c:22-27 | a count has fewer digits than its run has letters, so it fits the count buffer |
| Rle.Compress | homework-4-run-length-encodinng-RLE/rle.c:6-36 | the loops compute the encoding of the maximal runs |
| Prle.Encode | homework-4-run-length-encodinng-RLE/prle.c:60-96 | the maximal runs of the chunk, positive and with no equal neighbours, and the end mark |
| Prle.RoomIff | homework-4-run-length-encodinng-RLE/prle.c:27-34 | the n * n bytes allocated hold the run list of every text of n letters if and only if n is at least nine |
| Prle.Divide | homework-4-run-length-encodinng-RLE/prle.c:117-130 | for any number of threads the chunks cover the buffer, each position once, equal in size except that the last also gets the remainder |
| Prle.Go | homework-4-run-length-encodinng-RLE/prle.c:105-133 | the lists of all threads together expand to the buffer |

## Left out

- LogSystem.GroupInvHolds: the commit of an overrun log, which writes outside the log, is not modelled.
- LogDurability.GroupCommit: the same.
- Vm.Machine.Allocuvm: no other processor frees or takes a frame between its kalloc calls.
- Namex.Lookup.Namex: records that iput would free an unlinked inode, but does not truncate it, so lookups after that see the inode as it was.
- Umalloc.Heap.Malloc: sizes from MAX_BYTES on, where unit arithmetic wraps or sbrk's int argument is not positive, are excluded; UnitsWrap says what is computed there.
- Umalloc.Heap.Realloc: the same sizes.
- BufferCache.Bcache.Brelse: a buffer changed and released without log_write or bwrite, whose change is lost when the buffer is recycled, is excluded.
- Directory.Dirlink: a full directory or volume is the source's panic and a false result here.
- ProcTable.Ptable.Wait: releasing the child's kernel stack and address space is freevm's part, modelled in Vm.
- Shell.Redirect: the open modes are numbers; opening the files is not modelled.
- ShellParser.Parser.Parseredirs: the tree node that redirections wrap is put inside them once its arguments are known, where the source fills it through a pointer.
- Prle.Go: the threads are one after the other, since they share nothing they write.
- Boot code, interrupt controllers, the timer, UART, keyboard, console and assembly stubs.
- Port I/O of the disk driver; the driver is its queue and the flags of buffers.
- Spinlock and context-switch internals, and switching page-table registers.
- The lottery: the winner is drawn once and the counter never reset, so there is no draw per dispatch.
- The merge and print phase of prle.c, which does not compute the sequential encoding.
- grep's line buffering, which drops a partial line when a read holds no newline.
- ialloc, the inode cache's slots and locks, device files, link counts, and file.c's chunking of writes.
- inituvm, loaduvm, clearpteu and exec.
- runcmd, getcmd and the other user programs.
- A program's own calls of sbrk between malloc's.
