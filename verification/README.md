# Verified model of an xv6 kernel and shell

A Dafny model of the parts of this xv6 (extended with copy-on-write fork, per-process
swapping and heap-driven page replacement) whose correctness is about whole runs:

- `Basics.dfy`: what several of the others share.
- `Log.dfy`, `LogRuns.dfy`: the redo log, block write by block write, and every run of
  operations, commits, recoveries and crashes.
- `Volume.dfy`, `Fs.dfy`, `FsRuns.dfy`, `File.dfy`: block ownership, inode contents,
  `readi`, `writei`, `itrunc`, whole runs of them, and `filewrite`'s transactions.
- `Bio.dfy`: the buffer cache.
- `Kalloc.dfy`: the frame allocator and reference counts.
- `Cow.dfy`: copy-on-write fork against private memories.
- `PriorityQueue.dfy`, `SecondChance.dfy`, `Paging.dfy`: the replacement heap, the
  second-chance pass, and demand paging against a memory that never pages.
- `Umalloc.dfy`: `malloc` and `free`.
- `SleepLock.dfy`, `Pipe.dfy`: sleep locks and pipes under every interleaving.
- `Grep.dfy`, `Shell.dfy`: the regular expression matcher and the shell's parser.

`dafny verify dfyconfig.toml` checks everything.

Code that updates state in place is a class whose methods take the same steps, proved
against functions on values; concurrent protocols are machines with one step per atomic
section. Panics are outcomes, not preconditions. What the hardware, the devices and other
processes do is a parameter or a nondeterministic choice.

Where an operation can run out of something, the model says exactly when, for single calls
and for whole runs. A run of writes and truncations stops exactly at the first write whose
missing blocks (data blocks, and the indirect block) outnumber the free ones, a run of fork,
growth, stores and exits exactly at the first event that needs more frames than are free,
and `malloc` returns 0 exactly when no free block is large enough and `sbrk` fails. In each
case how many are free is determined by the run so far: `FsRuns` and `CopyOnWrite` compute
it on byte strings and on private memories with their sharing, and `Umalloc.Determined`
proves that calls and answers fix the free list.

Six promises one might expect turn out to hold only under a condition, which is proved to be
exact and can be checked before the call; each has a run that breaks it:

- A log operation that stays within MAXOPBLOCKS distinct blocks can still make `log_write`
  panic, because the test for a full log comes before absorption (`LogRuns.NoPanicIff`).
- `malloc` records memory it did not obtain, or returns too small a block, beyond
  2^31 - 16 bytes (`Umalloc.GoodRequest`, `Umalloc.HugeRequest`).
- A `pipewrite` that gives up wakes no reader. A reader is left asleep over unread bytes if
  and only if a killed writer with more than 512 bytes left runs while a reader sleeps
  (`Pipes.ReadersStep`, `Pipes.ReadersRun`, `Pipes.StrandedReader`).
- A copy-on-write fault on a shared page drops the frame's count before it has a new frame.
  With no frame free the count stays one below the number of entries
  (`CopyOnWrite.Vm.OnPageFaultCow`, `CopyOnWrite.StarvedFault`).
- A fault on a paged-out page gives up its swap slot before it has a frame. With a RAM slot
  vacant and no frame free the page is lost (`Paging.Process.OnPageFaultPG`,
  `Paging.LostPage`).
- Giving back a paged-out page frees the frame it had last, whoever has it by then, unless
  that frame is free (`Paging.Process.DeallocPage`, `Paging.FreedFrame`).

The shell's comment marks `>>` as a case of its own, but the code opens the file exactly as
for `>`; the model follows the code.

## Model

| member | source | states |
|---|---|---|
| RedoLog.HeaderRoundTrip | log.c:85-113 | Reading back a header block that write_head filled gives exactly the block list, for every list of at most LOGSIZE blocks and any previous contents of the block. |
| RedoLog.RecoverPrefix | log.c:115-122 | Whatever prefix of recovery's block writes reaches the disk, a later recovery yields the same home blocks; after all of them nothing is pending. |
| RedoLog.CommitPrefix | log.c:177-202 | Whatever prefix of commit's block writes reaches the disk, recovery yields all old or all new home blocks, and the new ones exactly when the header write is in the prefix. |
| RedoLog.CrashAtomicity | log.c:69-202 | Crash after any number of commit writes, crash again inside recovery any number of times, then finish recovery: nothing is pending and the home blocks are all old or all new, new exactly when the first header write had reached the disk. |
| RedoLog.CommitComplete | log.c:193-202 | A commit that runs to the end installs every logged block at home, changes no other home block and leaves an empty log. |
| RedoLog.Absorb | log.c:223-230 | Log absorption: the list gains the block at most once, loses none and stays without duplicates. |
| RedoLog.Log.constructor | log.c:54-66 | initlog on any readable image performs exactly the writes of a recovery and starts with an empty transaction on the recovered home blocks. |
| RedoLog.Log.WriteLog | log.c:178-190 | The loop issues one write per listed block, in order, of the cached contents into consecutive log slots, and unpins nothing. |
| RedoLog.Log.InstallTrans | log.c:70-82 | The loop copies log slots to their home blocks in order, even though it reads the disk it is changing, and unpins every block. |
| RedoLog.Log.WriteHead | log.c:102-113 | One write of a header block whose first word is the count, followed by the list, followed by the old rest of the block. |
| RedoLog.Log.RecoverFromLog | log.c:115-122 | Recovery writes exactly its script, leaves no pending transaction and leaves home what the disk promised. |
| RedoLog.Log.Commit | log.c:193-202 | The disk writes of commit are exactly the script that CommitPrefix speaks about, and the home blocks become the cache over the old disk. |
| RedoLog.Log.BeginOp | log.c:126-141 | One pass of the loop: the operation enters exactly when no commit runs and ten more blocks for it and for every outstanding operation still fit. |
| RedoLog.Log.LogWrite | log.c:214-233 | Panics exactly when the log is full or no operation is open; otherwise the block is absorbed and pinned and only that block's current contents change. |
| RedoLog.Log.EndOp | log.c:146-174 | Ending an operation never changes the current contents of any block; the last one commits them to the home blocks with exactly the commit script, earlier ones write nothing. |
| LogRuns.StepInv | log.c:125-233 | Every event of the logging machine (begin, modify, end, one disk write, finish, crash) keeps its invariant; part of it is that with no operation active and no commit under way the log is empty, so the end of the last operation commits. |
| LogRuns.Durability | log.c:115-202 | In every run with crashes anywhere, recovering the disk as it stands yields the durable blocks; while operations run the cache over the disk shows the current ones; and whenever no operation is active and no commit or recovery is under way, the log is empty and everything current is durable. |
| LogRuns.Settles | log.c:146-202 | From every reachable state, ending the active operations and letting the commit or recovery go on to its end leads to rest, with an empty log and everything that had been written durable: only a crash loses anything. |
| LogRuns.CurrentIs | log.c:214-233 | In every run each current block is what the last log_write since the last crash gave it, or else what was durable at that crash or at boot. |
| LogRuns.OneWrite | log.c:69-202 | Every step changes at most one disk block, and only a disk write does; a crash can come at any moment, loses the operations and the cache, and keeps the disk. |
| LogRuns.Atomicity | log.c:146-202 | In every run, the header write of a commit, made with no operation active, moves the recoverable contents to the current ones all at once, and every other step leaves them alone. |
| LogRuns.NoPanic | log.c:125-141 | With a log area of more than LOGSIZE blocks and operations that have logged fewer than MAXOPBLOCKS distinct blocks before each log_write, no interleaving makes log_write panic. |
| LogRuns.NoPanicIff | log.c:214-233 | The exact condition for that: a promise of at most MAXOPBLOCKS distinct blocks in total is not enough, because log_write tests for a full log before absorption; a panicking run exists in every other case. |
| LogRuns.BudgetedRun | log.c:125-233 | With a log area of more than LOGSIZE blocks, operations that have logged fewer than MAXOPBLOCKS blocks at each of their log_writes never make it panic, however they interleave. |
| LogRuns.InterleavedLists | log.c:125-233 | The same for operations whose log_writes follow given lists of calls, each with fewer than MAXOPBLOCKS distinct blocks before every call, interleaved with each other, with commits and with crashes. |
| LogRuns.AdmittedIff | log.c:126-142 | begin_op lets an operation in exactly when the log has room for whatever it and the operations already active may log, each up to MAXOPBLOCKS blocks. |
| LogRuns.Responds | log.c:126-233 | In every reachable state without a commit or recovery under way, an operation begins exactly in that case, and an active operation within its promise can log any further block, and can end. |
| Volume.WordOfPutWord | fs.c:384-401 | An entry written into an indirect block reads back, and no other entry of the block changes. |
| Volume.UsedIffNamedOnce | fs.c:58-97 | A data block's bit is set exactly when some inode pointer or indirect entry names the block, and then only one does. |
| Volume.AllocPtr | fs.c:58-97 | Marking a free block and storing it in an empty inode pointer keeps ownership and changes no other pointer or entry, the entries of the new block included. |
| Volume.AllocEntry | fs.c:384-401 | The same for an empty entry of an indirect block. |
| Volume.TruncateInv | fs.c:409-437 | Emptying an inode keeps ownership, frees exactly the blocks it owned and changes no other file. |
| Fs.FileSystem.Balloc | fs.c:58-80 | The lowest free block comes back marked and zeroed, with its bitmap block and itself logged; the panic happens exactly when every block is in use. |
| Fs.FileSystem.Bmap | fs.c:374-402 | Returns the block's address, allocating the block and its indirect block if missing; no file's contents change, ownership is kept, and an address already there is returned without any change; it panics exactly for a block past MAXFILE or when the one or two blocks it must allocate are not free, and otherwise takes exactly those. |
| Fs.FileSystem.WritePiece | fs.c:500-505 | One turn of writei's loop changes exactly the bytes of its piece, in one file; it fails exactly when its block is past MAXFILE or cannot be allocated. Every block it changed, its data block in any case, and the bit map block of every bit it changed, is logged. |
| Fs.FileSystem.Writei | fs.c:483-513 | On success the file is its old contents with the bytes spliced in, all other files, inodes and block maps and the superblock are untouched, the on-disk inode equals the one in memory although iupdate is conditional, and the number of distinct blocks logged is bounded by the blocks touched; -1 exactly for a start past the end or an end past MAXFILE blocks; a panic exactly when the missing data blocks and a missing indirect block outnumber the free blocks, and otherwise exactly so many are taken. Every block that changed, every data block touched, the bit map block of every changed bit and the inode block of a changed inode are logged. |
| Fs.FileSystem.Readi | fs.c:454-478 | Returns exactly the bytes of the file from the offset up to its end, never allocates, never panics and changes nothing. |
| Fs.FileSystem.Iupdate | fs.c:222-238 | The on-disk inode becomes the one in memory, other on-disk inodes stay, and one inode block is logged. |
| Fs.FileSystem.Bfree | fs.c:83-97 | Clears the bit of a block in use and nothing else; the panic happens exactly on a free block. |
| Fs.FileSystem.Itrunc | fs.c:409-437 | Frees exactly the blocks the inode owned, directly, through the indirect block and the indirect block itself, and never hits "freeing free block"; every other file is untouched. The bit map block of every bit cleared and the inode's block are logged. |
| Fs.TruncatedGives | fs.c:409-437 | itrunc gives back exactly as many blocks as the file has, its indirect block included. |
| FsRuns.Conserved | fs.c:374-513 | In the budget machine a write or truncation keeps free blocks plus the blocks of all files constant. |
| FsRuns.ConservedRun | fs.c:374-513 | So does every run: no block is lost or made up. |
| FsRuns.Do | fs.c:374-513 | One writei or itrunc on any volume, devices included, does to contents, block maps and the number of free blocks what it does to byte strings with a block budget, and panics exactly when it does not fit. |
| FsRuns.RunOps | fs.c:374-513 | Any sequence of writes and truncations on any volume goes as on byte strings with a block budget: every operation before the stop fits, it stops exactly at the first that does not, and ownership and on-disk inodes stay in order. |
| FsRuns.LastWriter | fs.c:409-513 | In every run each byte of a file is the one that the last accepted write covering it gave, and the length is that of the furthest such write since the last truncation. |
| Fs.NeedCompose | fs.c:498-506 | What a write must allocate is what its first part must plus what the rest must once that is done, although both may touch one block and one indirect block. |
| Fs.CountedTotal | fs.c:483-513 | The distinct data, bitmap and indirect blocks a whole writei logs are at most two for each block it touches plus two, and one fewer when it starts inside a block, even if every bitmap block differs. |
| FileLayer.ChunkBound | file.c:126-151 | The bound on what a chunk of filewrite logs, at any offset, is at most MAXOPBLOCKS with the inode's block, and leaves nothing over. |
| FileLayer.WriteChunk | file.c:136-151 | One transaction of filewrite logs at most MAXOPBLOCKS distinct blocks and fewer than that before each log_write; it panics exactly when its blocks are not free. Everything it changed on the disk is among the blocks logged. |
| FileLayer.ChunksNeverPanic | file.c:126-151 | Any interleaving of operations that make the log_writes which chunks of filewrite made, with commits and crashes, is free of log_write's panic. |
| FileLayer.Filewrite | file.c:118-156 | -1 exactly when the write is nonempty and starts past the end of the file or ends past MAXFILE blocks; the file is the old one with the chunks that end within MAXFILE blocks spliced in and the offset advances by exactly those; a panic exactly when all those chunks together need more blocks than are free. |
| FileLayer.ReachIs | file.c:126-151 | Of a write that ends past MAXFILE blocks exactly the whole chunks that fit are written. |
| FileLayer.WriteToSwapFile | fs.c:793-801 | Through filewrite, the swap file becomes the old one with the page spliced in, or the call is rejected or panics exactly as there. |
| BufferCache.OneBufferPerBlock | bio.c:61-93 | No two buffers hold the same block. |
| BufferCache.Recycle | bio.c:78-91 | Relabelling a buffer that nobody references and that is not dirty loses no update: every other block keeps its last contents. |
| BufferCache.Bcache.constructor | bio.c:38-56 | binit leaves the list a circular permutation of all buffers, the last one first. |
| BufferCache.Bcache.Bget | bio.c:61-93 | The block's own buffer if there is one, otherwise the least recently used buffer that is neither referenced nor dirty; the panic happens exactly when there is none; no block's contents change. |
| BufferCache.Bcache.Fill | bio.c:96-106 | bread hands out the last contents given to the block, from the cache or from the disk. |
| BufferCache.Bcache.Pin | log.c:231 | log_write's B_DIRTY keeps the buffer until it is written. |
| BufferCache.Bcache.Bwrite | bio.c:109-116 | The disk block becomes the buffer's contents and the buffer is clean; no block's last contents change. |
| BufferCache.Bcache.Unref | bio.c:120-141 | The reference goes; an unreferenced buffer moves to the front and the list stays a circular permutation of all buffers, linked both ways. |
| BufferCache.Bcache.Handle | bio.c:61-141 | Each atomic step does to the cache what the machine on values says, and a bread of a held buffer hands out exactly the last contents given to its block, from the cache or from the disk. |
| BufferCache.RunCoherent | bio.c:96-106 | In every run of that machine each read returns the last contents given to its block before it. |
| BufferCache.Recency | bio.c:120-141 | In every run the list is in the order in which the buffers last went without references, the latest first. |
| BufferCache.LeastRecent | bio.c:78-91 | In every run, any other buffer that bget could have recycled went without references later than the one it takes, or neither ever did. |
| BufferCache.GetEffect | bio.c:61-93 | bget of a block that is cached, or for which some buffer can be recycled, leaves it with a referenced buffer. |
| BufferCache.Effects | bio.c:96-141 | Every step the rules allow takes effect: a change by the holder of a valid buffer is given to its block, bread hands out the last contents, bwrite brings the disk to the last contents, locks and references are taken and given back. |
| BufferCache.Bcache.Run | bio.c:61-141 | For every interleaving of gets, locks, reads, changes, log_writes, bwrites and releases the state and the trace of reads and changes are those of the machine, one read for each bread of a held buffer, and each read returns the last contents given to its block. |
| Kalloc.Kmem.constructor | kalloc.c:38-57 | After kinit1 and kinit2 the free list is an acyclic chain of exactly the managed frames, all with count 0, and none is occupied. |
| Kalloc.Kmem.KallocFrame | kalloc.c:114-133 | The first free frame comes off with count 1 and one more occupied; null exactly when the list is empty. |
| Kalloc.Kmem.Kfree | kalloc.c:63-90 | Panics exactly on a frame outside the managed range or with a count other than 1; otherwise the frame goes on the front of the list with count 0 and one fewer occupied. |
| Kalloc.Kmem.IncrementReferences | kalloc.c:143-154 | One reference more to that frame, and nothing else changes. |
| Kalloc.Kmem.DecrementReferencesAndGetPrevVal | kalloc.c:156-170 | Returns the old count; a count of 1 stays 1, a larger one goes down by one. |
| FrameLifetime.LifetimeRuns | kalloc.c:63-170 | Under any interleaving of allocation, sharing by a holder and the two-step drop, kfree never panics, each count is the number of holders, the free list is exactly the frames without holders, and free plus occupied frames stay constant. |
| FrameLifetime.OneLastDropper | vm.c:369-372 | At most one holder of a frame is ever between seeing the count 1 and calling kfree. |
| FrameLifetime.Effects | kalloc.c:63-170 | An allocation gives its caller alone a frame that had no holder, sharing adds a holder, a drop takes one away or is the last, and the last drop puts the frame on the free list. |
| FrameLifetime.AllFreed | kalloc.c:63-170 | No frame leaks: from every reachable state the holders can drop their references so that every frame is on the free list. |
| CopyOnWrite.FreeIs | kalloc.c:114-133 | The free frames are the managed ones less one for every distinct page in use, however many entries share it. |
| CopyOnWrite.DoubledIff | vm.c:736-737 | A frame's count is above 1 exactly when some other entry names the same page. |
| CopyOnWrite.CopiedInv | vm.c:737-749 | Copying a shared frame for one entry keeps every count equal to the number of entries that map the frame, keeps writable entries exclusive, and changes nobody's contents; the entry then has a page of its own. |
| CopyOnWrite.SharedInv | vm.c:500-521 | Mapping a parent's frame into the child with both entries write-protected keeps the counts and the exclusiveness of writable entries. |
| CopyOnWrite.Vm.OnPageFaultCow | vm.c:727-761 | The faulting entry becomes writable and no process's memory changes, unless the frame is shared and none is free: exactly then the process is killed with the frame's count one short, which breaks the counting invariant. |
| CopyOnWrite.DroppedNotInv | vm.c:736-744 | A count dropped while the entry stays is wrong in every state. |
| CopyOnWrite.StarvedFault | vm.c:736-744 | From boot with a single frame, a process with one page forks, and its next store is such a fault. |
| CopyOnWrite.Vm.UnmapPage | vm.c:361-372 | Dropping one entry, through the allocator's own two calls, removes just that page, and kfree does not panic. |
| CopyOnWrite.Vm.Store | vm.c:834-859 | A user store, with the fault it may take, succeeds exactly on mapped user pages, unless the copy it needs finds no frame, and changes one byte of the storing process only; a page it shared becomes its own. Afterwards that byte reads back as stored, and every other byte of every process as before. |
| CopyOnWrite.Vm.Cowuvm | vm.c:480-530 | Fork by sharing gives the child the very pages of the parent, takes no frame, and leaves every memory alone. |
| CopyOnWrite.Vm.Copyuvm | vm.c:443-477 | Fork by copying gives the child a copy of the parent's pages with the parent's flags, or, exactly when the parent has more pages than there are free frames, undoes itself. |
| CopyOnWrite.Vm.Allocuvm | vm.c:272-343 | The new pages are zero; exactly when they outnumber the free frames the call undoes itself. |
| CopyOnWrite.Vm.Exit | vm.c:410-429 | Freeing an address space drops exactly its pages and leaves every other process's memory alone. |
| CopyOnWrite.Vm.Run | vm.c:443-761 | Every run of spawn, grow, shrink, fork, store, protect and exit, sharing or copying, gives all processes the memories that the machine on values gives, with counts equal to mappings and writable frames exclusive throughout; every event before the stop is afforded, and it stops exactly at the first that needs more frames than there are besides one for each page in use. |
| CopyOnWrite.Indistinguishable | vm.c:443-530 | After the same events each process sees the same memory whether fork shares or copies. |
| CopyOnWrite.PrivateRun | vm.c:443-761 | After any run, sharing or copying, each process sees exactly the list of pages it would have if each process had a memory of its own and fork copied it. |
| PriorityQueue.SiftDownHeap | priorityQueue.c:20-40 | heapify at a node whose subtrees are heaps leaves the whole range from there on in heap order. |
| PriorityQueue.BuildHeap | priorityQueue.c:42-54 | The rebuilding loop turns an array in any order into a min-heap. |
| PriorityQueue.RootIsMin | priorityQueue.c:15-18 | The root of a heap is a minimum. |
| PriorityQueue.LeafAbove | priorityQueue.c:110-125 | Below every element of a heap there is a leaf with at least its priority. |
| PriorityQueue.Heapify | priorityQueue.c:20-40 | In place, the recursion computes the sift-down and touches nothing past the heap. |
| PriorityQueue.InsertHeap | priorityQueue.c:42-54 | From any array the result is a min-heap with exactly the new element added. |
| PriorityQueue.DeleteRoot | priorityQueue.c:56-76 | From any array, if an element has the index the result is a min-heap without exactly that element; otherwise nothing changes and the answer is -1. |
| PriorityQueue.FindInHeap | priorityQueue.c:101-108 | The lookup by deletion and reinsertion finds an element with the index if there is one and keeps the elements, except that one with index -1 is lost. |
| PriorityQueue.ExtractMin | priorityQueue.c:78-92 | A minimum comes out of a nonempty heap and the rest stays a heap with exactly the other elements. |
| PriorityQueue.Drain | priorityQueue.c:78-92 | Repeated extraction yields all elements in order of priority. |
| PriorityQueue.FindMaxElementIndex | priorityQueue.c:110-125 | Scanning only the leaves finds a maximum of the whole array when it is a heap. |
| SecondChance.SweepStep | vm.c:942-959 | Looking at the next page moves it to the back of the eviction order if it was accessed and leaves the order alone otherwise. |
| SecondChance.NextPage | vm.c:1033-1041 | extractMin on the copy takes the pages in eviction order. |
| SecondChance.PromotePage | vm.c:942-953 | Deleting an accessed page and reinserting it with the largest priority plus one moves it behind every other page and keeps the others in order. |
| SecondChance.UpdatePages | vm.c:1033-1041 | One pass leaves the unaccessed pages in their old order followed by the accessed ones in theirs, the same pages in the heap, and every access bit of a page in memory clear. |
| Paging.SwapWriteAccepted | vm.c:621-622 | Every swap write starts at or below the end of the swap file and ends within MAXFILE blocks, so writei accepts it. |
| Paging.PageOutOk | vm.c:574-636 | Moving a page to the lowest vacant swap slot keeps the paging invariant and the flat memory. |
| Paging.SwapTake | vm.c:668-701 | Taking the lowest vacant slot puts a page's live slot before every stale entry that still names it. |
| Paging.InstallOk | vm.c:789-831 | Mapping a page with given contents into a free frame and a vacant RAM slot keeps the invariant and adds exactly that page to the flat memory. |
| Paging.CountersSum | vm.c:771-774 | The two counters add up to the number of pages of the process. |
| Paging.CountersBound | vm.c:297-341 | Neither counter passes 16, each equals the occupied slots of its array, and a counter is 16 exactly when its array is full. |
| Paging.OneHome | vm.c:589-635 | A page of the page table has exactly one occupied slot, in RAM if it is present and in swap if not, and pages outside it have none. |
| Paging.Process.GetPageIndexDefault | vm.c:668-701 | The lowest slot with the asked occupancy and page, or -1 exactly when there is none. |
| Paging.Process.GetPagePgdirIndex | vm.c:703-725 | Although it ignores the occupied flag, the search finds the slot where the page lives, in RAM or in swap, and for a page not in swap at most a vacant slot. |
| Paging.Process.Victim | vm.c:638-666 | The root of the heap is an occupied RAM slot, and -1 comes back exactly when none is occupied; in a heap it is a slot of least priority. |
| Paging.Process.InsertPageToPrioQueue | vm.c:244-268 | With the heap's indices exactly a set of slots, each once, they become that set and the new slot, the other priorities stay, and from a heap the new slot goes behind every other. |
| Paging.Process.HeapRemove | vm.c:613 | deleteRoot of an occupied slot leaves the heap's indices exactly the other slots, each once. |
| Paging.Process.WriteToSwapFile | fs.c:793-801 | filewrite's effect on the swap file, with writei's two rejections, as FileLayer.WriteToSwapFile derives it. |
| Paging.Process.PageToSwapFile | vm.c:574-636 | The step by step code performs the transition PageOutOk speaks about, and its swap write is never rejected. |
| Paging.Process.SwapPages | vm.c:1051-1123 | With RAM and swap full, the victim and the faulting page trade places through the buffer; the faulting page is present and no page's contents change. |
| Paging.Process.OnPageFaultPG | vm.c:763-832 | After the fault the page is present with the contents it had and no page changes; none of the handler's panics can happen; exactly with a RAM slot vacant and no frame free the page ends up neither in RAM nor in a swap slot. |
| Paging.BroughtIn | vm.c:789-831 | Giving up a swap slot and mapping its page into a free frame and a vacant RAM slot keeps the invariant, the flat memory and the number of frames. |
| Paging.SecondChanceHeap | vm.c:1033-1041 | A heap of the second-chance policy holds exactly one entry per page slot with its priority, so the policy's pass keeps what paging needs of the heap. |
| Paging.Process.Evict | vm.c:305-307 | Exactly the page of the heap's root goes out, to the lowest vacant swap slot, and its heap entry goes; no page changes. |
| Paging.Process.EvictSecondChance | vm.c:300-308 | Under the second-chance policy the page that goes out is the oldest one not accessed since the last look or, if all were accessed, the oldest; the order of the others is that of the pass. |
| Paging.NewestLast | vm.c:264-267 | A page inserted with a priority above all others is the last in eviction order. |
| Paging.Process.AllocPage | vm.c:291-341 | A zeroed page appears and no other page changes; the panic happens exactly when the process has 32 pages, and exactly with a RAM slot vacant and no frame free nothing changes. |
| Paging.Process.Allocuvm | vm.c:272-343 | All the new pages are zero and no other page changes; 0 for a size in kernel space, the old size for a smaller one, the panic exactly when the process would pass 32 pages, and 0 with every page as before exactly when the new pages outnumber the free frames before RAM is full. |
| Paging.Process.DropNew | vm.c:312-317 | The undoing of a growth meets only present pages and gives the old memory back. |
| Paging.Process.Touch | vm.c:834-874 | An access brings the page in without changing any page, kills the process exactly when the page is not mapped, and loses the page exactly when it is paged out with a RAM slot vacant and no frame free. |
| Paging.Process.DeallocPage | vm.c:361-402 | Freeing a page removes its slot, its heap entry and, if it is present, its frame, and leaves all other pages alone, stale swap entries notwithstanding; exactly for a paged-out page whose last frame is not free, a frame that is not free goes to the allocator. |
| Paging.LostPage | vm.c:789-822 | For every sixteen frames: seventeen pages, the last one given back, its frame taken by another process, and the fault on the paged-out page loses it. |
| Paging.FreedFrame | vm.c:361-372 | For every sixteen frames: with seventeen pages, giving back the paged-out one frees a frame that is not free. |
| Paging.Process.Run | vm.c:763-874 | Paging is transparent: whatever the number of frames, every run of sbrk, loads and stores has, outcome by outcome, the results it has on a memory that never pages, which can have 32 pages, or as many as there are frames if these are fewer than 16; the heap's index set equals the occupied RAM slots throughout. |
| Umalloc.OneBlock | umalloc.c:24-44 | No byte belongs to two blocks. |
| Umalloc.MergeCovers | umalloc.c:33-42 | Joining two touching blocks covers exactly the same bytes. |
| Umalloc.SplitCovers | umalloc.c:78-82 | Cutting the tail off a block covers exactly the same bytes. |
| Umalloc.CoalesceOk | umalloc.c:33-42 | Joining neighbours in the ring keeps it address ordered and closed, all live blocks and the bytes covered. |
| Umalloc.FreedOk | umalloc.c:24-44 | After free the ring is address ordered with one wrap point, no two free blocks touch, exactly the freed block stopped being live, and the same bytes are covered. |
| Umalloc.FreeCode | umalloc.c:33-43 | free's two conditionals perform that step in all four cases, and the freed memory is at, or right after, the header freep then names. |
| Umalloc.GoodRequest | umalloc.c:52-69 | malloc asks sbrk for the memory it records and the block is large enough exactly for requests of at most 2^31 - 16 bytes: beyond that the product or the size computation wraps in 32 bits. |
| Umalloc.HugeRequest | umalloc.c:52-69 | Concrete requests for which that fails: 2^31 bytes asks sbrk for a negative amount, 2^32 - 1 bytes gets one unit. |
| Umalloc.Allocator.Search | umalloc.c:30-32 | The search of free terminates from any freep and finds the one place where the block belongs. |
| Umalloc.Allocator.Free | umalloc.c:24-44 | Freeing a live block keeps the heap well formed and tiled; exactly that block stops being live and the others keep their sizes. |
| Umalloc.Allocator.Morecore | umalloc.c:46-61 | Fails exactly when sbrk does; on success the new memory, merged or not, gives a large enough block at or right after freep; memory not obtained is recorded exactly from 2^28 units on. The break moves by the larger of 32768 bytes and the bytes of the request, and then only the block with the new memory, which ends at the break, can be large enough. |
| Umalloc.Allocator.Malloc | umalloc.c:63-90 | The search terminates for every request, also after morecore merges into the block at freep; 0 comes back exactly when no free block is large enough and sbrk fails; memory is obtained exactly when no free block is large enough, and exactly what morecore asks for; a returned block was not live, has exactly the units computed and overlaps no other, the others keep their sizes, and the blocks tile exactly the memory obtained. A request that obtains memory moves the break by the larger of 32768 bytes and 8 times its units; otherwise the block is the end of the first large enough free block after freep. |
| Umalloc.Allocator.Run | umalloc.c:24-90 | Over every sequence of requests of at most 2^31 - 16 bytes and frees, at every moment the live blocks are exactly those that earlier requests returned and no free gave back, each with room for what was asked, the heap is well formed and tiled, each moment follows from the one before by that call's effect on blocks, memory and break, and a request fails exactly when no free block is large enough and sbrk fails. |
| Umalloc.SameFree | umalloc.c:24-44 | Memory obtained and live blocks determine the free blocks, so what one well-formed heap refuses every other refuses. |
| Umalloc.Determined | umalloc.c:24-90 | Calls and earlier answers determine, from the same start, whether the next request fails. |
| Umalloc.Reserve | umalloc.c:46-90 | A request that obtains memory leaves free, in one piece, at least 4096 units less its own. |
| Umalloc.NeverRefused | umalloc.c:24-90 | After it, requests that need at most 4096 units in all, that one included, are met whatever sbrk does, with any frees between them. |
| Umalloc.FirstObtains | umalloc.c:63-90 | The first request that is met obtains memory. |
| SleepLock.StepInv | sleeplock.c:22-53 | Every single step of acquiresleep, sleep, wakeup, releasesleep, holdingsleep, the schedulers and kill keeps the invariant. |
| SleepLock.MutualExclusion | sleeplock.c:22-32 | In every reachable interleaving at most one process holds the sleeplock, and locked is set when one does. |
| SleepLock.NoLostWakeup | proc.c:583-640 | In every reachable interleaving with the inner spinlock free and locked 0, no process sleeps on the lock or is on its way to. |
| SleepLock.HoldingIsExact | sleeplock.c:44-53 | holdingsleep answers exactly whether the caller holds the lock. |
| SleepLock.Uncontended | sleeplock.c:22-32 | From every state that keeps the invariant, with the lock and both spinlocks free, acquiresleep gets the lock. |
| SleepLock.Releases | sleeplock.c:34-42 | releasesleep by the holder runs to its end, and then the lock is free and nobody sleeps on it or is about to. |
| SleepLock.HandOver | proc.c:583-640 | From every reachable state in which one process holds the lock, another sleeps on it and both spinlocks are free, the holder's releasesleep and the scheduler give it to the sleeper. |
| Pipes.Counters | pipe.c:85-111 | With at most 512 bytes in flight the tests for a full and for an empty pipe on the wrapped 32-bit counters are exact, at any true count. |
| Pipes.Slot | pipe.c:93-116 | A wrapped counter indexes the slot of the true count. |
| Pipes.RingStore | pipe.c:93 | Storing a byte overwrites no byte in flight. |
| Pipes.RingTake | pipe.c:116 | The byte taken is the oldest one in flight. |
| Pipes.Pipe.PipeWrite | pipe.c:78-98 | Between two sleeps a pipewrite does to the pipe what it does to a queue of at most 512 bytes: as many of its bytes as fit go in at the end, then it returns, sleeps or gives up; a sleeping reader is left over unread bytes exactly when this writer was killed, had more than 512 bytes left, and a reader slept. |
| Pipes.Pipe.PipeRead | pipe.c:100-121 | Between two sleeps a piperead does what it does to the queue: it sleeps only on an empty queue that can still be written, and otherwise takes the first bytes, up to n. What it returns is the number of bytes it got, or -1 with none (NextOk, ReadOutcome). |
| Pipes.Pipe.PipeClose | pipe.c:59-76 | Closing an end wakes everyone asleep on the other. |
| Pipes.NextOk | pipe.c:59-121 | In every state of a run at most 512 bytes are in the queue, no call is in progress on a closed end, a finished piperead has returned the number of bytes it got or -1 with none, and a finished pipewrite the number asked for with all stored or -1 with some left. |
| Pipes.ReadOutcome | pipe.c:101-121 | A piperead that runs sleeps exactly on an empty pipe that can be written, returns -1 exactly there when killed, and otherwise gets the oldest bytes, all it asked for or all there are. |
| Pipes.WriteOutcome | pipe.c:79-98 | A pipewrite that runs puts its next bytes behind those in the pipe until all are stored, and then returns their number, or until the pipe is full, and then sleeps, or gives up exactly when killed or without readers. |
| Pipes.CallsKept | pipe.c:79-121 | The calls on a pipe are exactly those made while their end was open, with the bytes or the number they asked for. |
| Pipes.KilledReturns | pipe.c:85-111 | A process killed in a pipe call returns from it the next time it runs. |
| Pipes.ClosedForGood | pipe.c:59-76 | In every run, once an end is closed no call on the other end is ever asleep again. |
| Pipes.WritersRun | pipe.c:85-97 | In every run of the queue no writer sleeps while there is room or nobody can read. |
| Pipes.ReadersStep | pipe.c:86-89 | An event leaves a reader asleep over unread bytes, or with nobody to write any, exactly when it runs a killed writer with more than 512 bytes left while a reader sleeps. |
| Pipes.ReadersRun | pipe.c:86-111 | No reader is ever so in a run if and only if no event of the run is such a one. |
| Pipes.Pipe.Run | pipe.c:59-121 | In every interleaving the pipe stays the queue: the bytes delivered are a prefix of the bytes written with at most 512 in flight, each writer's and reader's share is in order, and sleepers are as the two lemmas on runs say. |
| Pipes.StrandedReader | pipe.c:86-89 | A run that strands a reader: it sleeps on the empty pipe, and a killed writer of 513 bytes stores 512 and gives up. |
| Grep.FirstItem | grep.c:85-106 | A match of a pattern splits into a match of its first item and a match of the rest. |
| Grep.AddItem | grep.c:85-106 | And two such matches join. |
| Grep.MatchHere | grep.c:85-96 | True exactly when the text from the position on can be cut into one piece per item of the pattern; the mutual recursion terminates. |
| Grep.MatchStar | grep.c:99-106 | The same for a starred character followed by a pattern. |
| Grep.Match | grep.c:73-82 | True exactly when some position matches, or the first one for a pattern that starts with '^', for every pattern and text. |
| Grep.ItemsIff | grep.c:85-106 | The items of a pattern are the only ones that are written as it is, with the end of the text last, no single character before a star and no final single dollar sign. |
| Shell.LineRoundTrip | sh.c:344-446 | Parsing the canonical tokens of a command gives it back, at the end of the line or before a closing parenthesis. |
| Shell.LanguageIff | sh.c:344-446 | For all tokens: they parse as a command exactly when they are a line of the language that means it, and fail to parse exactly when they are no line. A simple command has, in order, all words that are not the file of a redirection, under all its redirections, the first innermost, however words and redirections are mixed; only '<' reads. |
| Shell.LexText | sh.c:265-308 | Splitting the spaced text of any tokens gives the tokens back. |
| Shell.LexIff | sh.c:265-308 | For every text: its tokens are exactly those it spells, with any whitespace around them, words and '>>' taken as long as possible. |
| Shell.TextIff | sh.c:327-342 | A text parses as a command exactly when it spells a line that means it. |
| Shell.LineFew | sh.c:436-440 | Every command the parser returns has at most 9 words in each simple command. |
| Shell.RoundTrip | sh.c:327-446 | Parsing the canonical text of a command gives that command exactly when no simple command has more than 9 words. |
| Shell.Parser.GetToken | sh.c:265-308 | Returns the first token left, with the place of a word in the line, and moves past exactly that token. |
| Shell.Parser.Peek | sh.c:310-320 | Tells whether the next token is one of the symbols, without consuming it. |
| Shell.Parser.ParseRedirections | sh.c:374-397 | Parses redirections as the grammar says, first one innermost, or fails for a missing file. |
| Shell.Parser.ParseArguments | sh.c:429-445 | Parses words and redirections as the grammar says; words go to the command under the redirections; fails on a stray symbol or the tenth word. |
| Shell.Parser.ParseSimple | sh.c:415-446 | Parses a simple command or a block as the grammar says. |
| Shell.Parser.ParseParens | sh.c:399-413 | Parses a block and its redirections as the grammar says, or fails for a missing parenthesis. |
| Shell.Parser.ParsePipeline | sh.c:361-372 | Parses a pipeline as the grammar says, to the right. |
| Shell.Parser.ParseWholeLine | sh.c:344-359 | Parses a line as the grammar says; parsing terminates on every line. |
| Shell.Parser.Nulterminate | sh.c:449-493 | Writes a NUL right after every word of the command and nowhere else. |
| Shell.WordKept | sh.c:449-493 | No word loses a character to another word's NUL. |
| Shell.Parser.ParseCommand | sh.c:327-342 | A line parses as the grammar says or fails with the error the source panics with; afterwards every word and file name of the command is a C string in the buffer equal to its token. |

## Left out

- Fs.FileSystem.Balloc: the bitmap is kept decoded to one boolean per block, so byte offsets and masks inside bitmap blocks are not modelled; indirect blocks are bytes.
- Fs.FileSystem.Bfree: the same.
- Fs.FileSystem.Iupdate: inode blocks and the superblock are kept decoded, so the bytes of an inode inside its block are not modelled.
- Fs.FileSystem.Writei: device files are recognised and handed to the device, whose behaviour is not modelled; after a panic nothing is promised.
- Umalloc.Allocator.Malloc: where the next search starts (freep) after a call is not promised.
- FileLayer.ChunkBound: a bound on every chunk; no chunk that logs as many blocks is exhibited.
- BufferCache.Bcache.Run: a process that would wait for a buffer's sleep lock is a step that is not taken; SleepLock models the waiting.
- CopyOnWrite.Vm.Allocuvm: page-table pages and the frames they take are not modelled; a page table is a map from page numbers to entries.
- CopyOnWrite.Vm.Copyuvm: the same.
- CopyOnWrite.Vm.Cowuvm: the same, so the failure for want of a page-table page is absent.
- CopyOnWrite.Vm.Run: it ends at the first event that finds too few frames, so the states after a fault that left a count short are not followed.
- Paging.Process.WriteToSwapFile: the swap file is a byte string on a volume with blocks to spare; filewrite's panic is in FileLayer.WriteToSwapFile.
- Paging.Process.Reprioritize: what increaseProcAge and the replacement pass do to priorities is left open (any change, then perhaps a rebuild), so the results hold for every policy; ages are not modelled; the second-chance pass and the eviction that follows it are SecondChance and EvictSecondChance.
- Paging.Process.OnPageFaultPG: the state after a page was lost is not followed.
- Paging.Process.DeallocPage: a frame that is not free is taken to be referenced once; the state after freeing one in use is not followed.
- Paging.Process.Run: one process that has not forked, and no other process takes frames during the run; fork copies metadata and swap file with the parent's page directory in it; a shrinking sbrk is not part of the run, for DeallocPage shows when it goes wrong.
- Umalloc.Allocator.Morecore: from 2^28 units on sbrk is asked to take memory back; the state is then reported as unowned and not followed further.
- Umalloc.Allocator.Run: requests of more than 2^31 - 16 bytes are excluded, for GoodRequest shows them unsound; freeing what is not held is skipped.
- Shell.Parser.ParseArguments: the argv and eargv arrays are one sequence of word positions, and allocation of command records does not fail.
- SleepLock.StepInv: preemption is a process that takes no step; spinlocks are their holders.
- Strings of grep and of the shell are sequences without their final NUL; grep's reading loop and the shell's runcmd are system-call plumbing.
- The AQ, NFUA and LAPA replacement policies: they define no clear order or only add easy bit facts.
- exec, directories and path names, boot and hardware code, console output, user test programs: plumbing or easy facts.
