# Kernel core: models and proofs

A Dafny 4.11 model of the hard core of a RISC-V teaching kernel, with proofs about it. `dafny verify dfyconfig.toml` checks
everything. The files fall into four groups, each built up from small modules to its main results.

**File system, from the disk up.**

- `Params`, `Words`, `Bits`: constants, little-endian words and bitmap bits inside 1024-byte blocks.
- `Crash`: the redo log as a sequence of atomic block writes. A crash keeps a prefix of the writes. Over every run of
  commits, power failures and recoveries, each of which may be cut short, the logical disk is the initial one with exactly
  the transactions applied whose header write reached the disk.
- `Ring`, `Bio`, `Readers`: the buffer cache. The doubly linked ring is always one cycle through all buffers in order of last
  release, and the content a reader of the cache sees (`View`) is changed by nothing but an edit, although buffers are
  recycled without being written back. `Readers` holds the other processes: an arbitrary schedule of steps that get, lock
  and release buffers whenever the process in question is about to get one or sleeps on one.
- `Reservation`, `Edits`, `Log`: `begin_op` / `log_write` / `end_op` as a state machine over all interleavings, and the log code
  itself, beside any such schedule. Its writes are proved to be those of `Crash`.
- `Transactions`: a sequence of transactions across crashes.
- `Inodes`, `FileData`, `DiskImage`, `Fs`: bitmap, block map, `readi` / `writei` and truncation. The set bits of the bitmap are
  the metadata blocks and the blocks of the inodes, each of which has one place; files have no holes; a file is a byte
  sequence, and every call is an operation on that sequence. Every change of a block is an edit passed to the log, and the
  edits of a transaction turn the disk before it into the disk after it.
- `File`: the two ends joined. `filewrite` runs `writei` and the log together, chunk by chunk. Over every run with crashes the
  disk after recovery is the one between two chunks, on which the file has a first part of the data written, every other
  file is as it was, and bitmap and inodes agree.
- `Directory`, `Links`: directories as finite maps on names cut to fourteen characters, and the link counts kept by `create`,
  `sys_link` and `sys_unlink`.

**Virtio disk driver.** `Virtio` is the driver's book-keeping, `VirtioQueue` the protocol between requesters, a device that
finishes requests in any order, and the interrupt handler.

**Memory.** `Kalloc` is the page allocator, `PageTable` and `Vm` the Sv39 page tables, which refine a flat map from virtual
pages to physical pages and flags.

**Shared.** `Collections` and `Counters` hold small facts about sets, sequences and wrapping counters.

**Blocking.** `SleepLock` and `WaitExit` are state machines down to single lock acquisitions, `Pipe` the pipe, `Scheduler` the
round-robin choice.

Objects that the kernel updates in place are classes with the kernel's fields. Fixed tables that are indexed everywhere are
sequences that the methods reassign. A panic is a result of its own or a false flag. Failing devices, full disks, failing
user copies and `killed` are parameters. Spin-locks are not modelled where one method is one critical section.

## What turned out to matter

- `commit` needs a buffer for the log blocks beside the pinned ones, LOGBLOCKS equals NBUF, and `fileread` holds buffers without
  taking part in the logging protocol. So `commit` can panic in `bget`: with thirty blocks pinned, or with twenty-nine and
  one reader (`Log.OneReader`), or with fewer and more readers (`Log.FreeBuffer` counts them). `Log.LogBuf.Commit` has the
  exact condition for a commit that the others leave alone: some block of the log, or its header, is not cached, and every
  buffer is pinned or referenced. The panic then comes before the header is written. When readers arrive on the way it
  can come at any log or header block, also after the header; the disk then holds a first part of the commit's writes,
  which is a state that recovery handles.
- `log_write` tests for a full log before it looks for the block in the header, so a write that would be absorbed panics on a
  full log (`Reservation.AbsorbedWritePanics`). `Reservation.InvRulesOut` has the exact condition.
- Crash atomicity does not need the logged block numbers to be distinct. The pins do.
- `walk_create` takes no notice of address bits from 39 up (`PageTable.Aliased`) and there is no check against MAXVA, so the
  page-table results are about addresses below 2^39.
- `unmap_page` walks with `walk_create`, so after a failed `copy_pagetable` a copied page that went back to the allocator may
  already serve as a table of the child (`Vm.Machine.GapRun`, on the inputs of `Vm.GapInput`). No page is lost and no mapping
  is left in any case. `Vm.Machine.CopyPagetable` has the exact condition, over the arguments and the address where memory ran
  out, for every page free at that moment and every copy to be free in the end. It is met wherever memory runs out if
  the parent has no holes (`Vm.NoHolesTight`). One mapped page in every 2 MB region is not enough, since the pages before it
  are walked too (`Vm.RegionsNotEnough`).
- `nlink` is a `short`. A directory runs out of entries first, at 17152, so its count is always right (`Links.FewLinks`,
  `Links.Calls.Create`). A file's count is right exactly up to 32767 (`Links.Calls.LinkBegin`), and two directories hold enough
  names to get there (`Links.LimitReached`).
- `pipewrite` returns -1 without waking readers. This loses no wakeup only because such a return follows a critical section
  that put nothing in.
- The comment on `copy_pagetable` promises that a failure frees any allocated pages; tables made on the way stay allocated
  in both page tables. The model follows the code.

## Model

| member | source | states |
|---|---|---|
| Words.PutWordReads | kernel/fs/log.c:97-107 | storing a word in a block and reading any word back: the stored one changed, the others did not |
| Bits.WithBitReads | kernel/fs/fs.c:64-85 | setting or clearing one bit of a bitmap block changes that bit and no other |
| Crash.PutEntriesReads | kernel/fs/log.c:97-107 | a header written from a block list reads back as that count and those numbers |
| Crash.RecoverCrash | kernel/fs/log.c:109-114 | for every crash point inside recovery the log stays readable and replays to the same home blocks; a complete recovery empties it |
| Crash.CommitCrash | kernel/fs/log.c:168-189 | for every crash point inside commit the disk replays to the old home blocks before the header write and to the whole transaction after it |
| Crash.StepMeans | kernel/fs/log.c:63-114 | one commit, power failure or recovery, complete or cut short, changes the logical disk by exactly its committed transaction |
| Crash.RunsAreAtomic | kernel/fs/log.c:63-189 | over every run of such events the logical disk is the initial one with the committed transactions applied in order, and the home blocks are so whenever the machine is up |
| Ring.LruRing.constructor | kernel/fs/bio.c:35-52 | after binit the links form one cycle through all buffers, the last one first |
| Ring.LruRing.MoveToFront | kernel/fs/bio.c:122-130 | relinking keeps one cycle through all buffers and the sentinel, with the buffer first and the others in their order |
| Ring.CoversAll | kernel/fs/bio.c:35-52 | a ring of NBUF distinct buffers holds every buffer |
| Bio.Bcache.constructor | kernel/fs/bio.c:35-52 | the cache starts coherent with the disk, every buffer unreferenced |
| Bio.Bcache.Lookup | kernel/fs/bio.c:62-71 | finds the buffer of a block exactly if there is one |
| Bio.Bcache.Victim | kernel/fs/bio.c:73-86 | finds the unreferenced buffer nearest the tail, and none only when all are referenced |
| Bio.Bcache.OldestVictim | kernel/fs/bio.c:73-86 | the buffer nearest the tail is the one released longest ago |
| Bio.Recycle | kernel/fs/bio.c:73-86 | giving an unreferenced buffer to another block without writing it back keeps identities unique and changes no block's content as readers see it |
| Bio.Bcache.Bget | kernel/fs/bio.c:57-87 | one more reference to the block's buffer, locked or not, or the least recently released free one recycled for it; panics exactly when the block is not cached and every buffer is referenced |
| Bio.Bcache.Acquire | kernel/fs/bio.c:91-100 | a process with a reference gets the lock exactly when nobody has it, and then the buffer holds the latest content of its block; otherwise it goes on waiting and nothing changes |
| Bio.Bcache.Bread | kernel/fs/bio.c:91-100 | the caller has a reference, and the lock unless another process has it; a locked buffer holds the latest content of the block, cached or from the disk, and no block's content changes |
| Bio.Bcache.Modify | kernel/fs/fs.c:491-496 | an edit changes the content of that block and of no other |
| Bio.Bcache.Bwrite | kernel/fs/bio.c:104-110 | the disk gets the buffer's data as one write, only by the holder, and readers see no change |
| Bio.Bcache.Brelse | kernel/fs/bio.c:114-133 | drops the reference, moves an unreferenced buffer to the front, and readers see no change |
| Bio.Bcache.Bpin | kernel/fs/bio.c:136-140 | one more reference, nothing else |
| Bio.Bcache.Bunpin | kernel/fs/bio.c:143-147 | one reference less, allowed for a changed buffer only while another remains |
| Readers.Others.Run | kernel/fs/file.c:106-110 | whatever other processes get, lock and release, a buffer that the log or the caller refers to keeps its block and data, the caller keeps its locks, references add up, and readers see no change |
| Reservation.StepKeepsInv | kernel/fs/log.c:118-165 | every begin, write, end and commit step keeps the header length plus the unused allowance of all open operations within LOGBLOCKS |
| Reservation.InvRulesOut | kernel/fs/log.c:201-221 | a write panics exactly on a full header, and the header is full only when every open operation has used its whole allowance; while committing nothing is open and nothing can begin, write or end |
| Reservation.RunKeepsInv | kernel/fs/log.c:118-165 | the bound holds over every interleaving of operations |
| Reservation.NeverTooBig | kernel/fs/log.c:201-206 | after every run an operation that has appended fewer than MAXOPBLOCKS blocks cannot hit the size panic |
| Reservation.FullRun | kernel/fs/log.c:118-133 | the bound is reached: three operations can fill the log |
| Reservation.AbsorbedWritePanics | kernel/fs/log.c:201-215 | on a log filled so, a write to a block already in the header panics |
| Log.LogBuf.constructor | kernel/fs/log.c:52-60 | the log starts empty and idle |
| Log.LogBuf.BeginOp | kernel/fs/log.c:118-133 | admits a caller exactly when the reservation machine may begin, with that machine's new state |
| Log.LogBuf.EndOp | kernel/fs/log.c:138-165 | is the end step of the reservation machine, and tells the last caller to commit |
| Log.LogBuf.LogWrite | kernel/fs/log.c:201-221 | a new block is appended once and pinned once, a block already there changes nothing; the two panics and their order |
| Log.FreeBuffer | kernel/fs/bio.c:73-86 | no buffer is free only if the references of other processes, the pins and the caller's own add up to NBUF; without other processes exactly when NBUF blocks are pinned |
| Log.OneReader | kernel/fs/bio.c:73-86 | with NBUF - 1 blocks pinned no buffer is free exactly when the one left is referenced |
| Log.LogBuf.Open | kernel/fs/bio.c:91-100 | bread beside any schedule of other processes: the latest content, or the panic at a moment when the block is not cached and every buffer is referenced, or asleep on a buffer another process has; pins and references stay accounted for |
| Log.LogBuf.Update | kernel/fs/log.c:195-221 | read, edit, log and release a block, with other buffers held and other processes about: readers see the new data there and no other change, and pins stay equal to the header entries; when each panic comes |
| Log.LogBuf.Transact | kernel/fs/log.c:118-189 | begin_op, any edits, end_op: commits exactly the transaction of the edits, and a completed one leaves the disk with the edits applied and the log empty |
| Log.LogBuf.WriteLog | kernel/fs/log.c:168-179 | writes the cached content of the logged blocks to the log area, in order and nothing else, as far as it gets; left alone it fails exactly when a log block is not cached and no buffer is free |
| Log.LogBuf.WriteHead | kernel/fs/log.c:97-107 | one write of the header block holding the block list, or none; when it fails |
| Log.LogBuf.InstallTrans | kernel/fs/log.c:63-80 | writes the logged blocks home from the log, in order, as far as it gets; pins are dropped except in recovery, which never fails |
| Log.LogBuf.Commit | kernel/fs/log.c:181-189 | beside any schedule of other processes the writes made are a first part of the commit writes of the crash model, all of them on success, with the log empty and unpinned; a panic means that pins and other references add up to NBUF with a log block not cached; left alone it panics exactly when some log or header block is not cached and every buffer is pinned or referenced, and before the header is written |
| Log.LogBuf.ReadHead | kernel/fs/log.c:83-92 | the header in memory becomes the block list on disk |
| Log.LogBuf.Recover | kernel/fs/log.c:109-114 | makes exactly the recovery writes of the crash model and leaves the log empty |
| Log.CommitIsDurable | kernel/fs/log.c:63-189 | after commit every home block on disk is what readers of the cache saw before it |
| Edits.ListedBlocks | kernel/fs/log.c:208-220 | the header list after some edits names each edited block once |
| Edits.InstallEdits | kernel/fs/log.c:63-80 | installing the transaction of some edits has the effect of the edits one after the other |
| Transactions.DurableIsImage | kernel/fs/log.c:63-189 | the committed transactions of a run, the first m of a chain, make the m-th disk of the chain |
| Transactions.ChainSurvives | kernel/fs/log.c:63-189 | over every run of commits, power failures and recoveries in which the first m transactions were committed the disk means the m-th disk |
| Transactions.CrashAnywhere | kernel/fs/log.c:63-189 | after any first part of the writes of all commits the disk means one of the disks of the chain |
| DiskImage.ImagePut | kernel/fs/fs.c:64-100 | a change of a block from the bitmap on changes that block on disk and no other, outside the log |
| DiskImage.ImagePutInode | kernel/fs/fs.c:218-232 | a change of an inode changes its block on disk and no other, outside the log |
| Inodes.AllocKeepsInv | kernel/fs/fs.c:64-85 | marking a clear bit takes a block that no inode owns |
| Inodes.LinkDirect | kernel/fs/fs.c:361-383 | entering an allocated block in an inode keeps every block at one place; an indirect block must be zeroed |
| Inodes.LinkIndirect | kernel/fs/fs.c:385-395 | the same for an entry of the indirect block |
| Inodes.TruncKeepsInv | kernel/fs/fs.c:402-428 | clearing exactly the blocks an inode owned keeps bitmap and ownership in step |
| Inodes.Conservation | kernel/fs/fs.c:50-100 | the set bits are the metadata blocks and the blocks inodes point to, indirect blocks included, and no block is at two places |
| FileData.OverwriteReads | kernel/fs/fs.c:476-508 | an overwritten sequence reads the new bytes in the range, the old ones elsewhere, and has the larger of the two lengths |
| FileData.OverwriteTwice | kernel/fs/file.c:133-156 | two adjacent writes are one write of both |
| FileData.PieceRead | kernel/fs/fs.c:452-466 | the bytes of a block at a file position are the bytes of the file there |
| FileData.BudgetChunk | kernel/fs/file.c:133-156 | the blocks counted up by a write of at most three blocks' worth of bytes, with the inode block, are at most MAXOPBLOCKS |
| Fs.FileSystem.Balloc | kernel/fs/fs.c:64-85 | takes the first clear bit, zeroes that block, and fails exactly when no bit is clear |
| Fs.FileSystem.Bfree | kernel/fs/fs.c:88-100 | clears one bit; panics exactly on a block that is free |
| Fs.FileSystem.Bmap | kernel/fs/fs.c:361-398 | returns the block at an index, allocating what is missing; no file's content changes, and a present block is returned without any write |
| Fs.FileSystem.Iupdate | kernel/fs/fs.c:218-232 | the on-disk inode becomes the in-memory one, by one edit of its block |
| Fs.FileSystem.Writei | kernel/fs/fs.c:476-508 | the file becomes the old one overwritten at the offset, up to the bytes written; no other file changes; the exact error condition; a short write means a full disk; the edits since the transaction began turn the disk before into the disk after, and are of at most MAXOPBLOCKS blocks for a chunk |
| Fs.FileSystem.Readi | kernel/fs/fs.c:444-467 | returns exactly the bytes of the file in the range and changes, allocates and logs nothing, for every reachable file |
| Fs.FileSystem.Itrunc | kernel/fs/fs.c:402-428 | frees exactly the blocks the inode owned, never a free one, and leaves it empty |
| Fs.FileSystem.Ialloc | kernel/fs/fs.c:193-212 | takes the first free inode, and fails exactly when there is none |
| Fs.FileSystem.Iput | kernel/fs/fs.c:319-343 | frees inode and blocks exactly on the last reference to an unlinked inode |
| File.Fileread | kernel/fs/file.c:94-116 | returns the file's bytes from the offset on and moves the offset past them; nothing past the end or when the range wraps around |
| File.Filewrite | kernel/fs/file.c:120-163 | all chunks together are one overwrite at the old offset; the offset moves by what was written; failure only on a full disk, a gap or the size limit; the writes to disk are those of one commit per chunk; after every run of commits, power failures and recoveries, and after every first part of those writes, the disk means a snapshot between two chunks, with a first part of the data in the file, every other file as before, and bitmap and inodes in step |
| File.CommitChunk | kernel/fs/file.c:142-147 | the transaction that the log commits for a chunk is the step from the disk before it to the disk after it |
| File.ReadBack | kernel/fs/file.c:120-163 | what was written reads back, and the rest of the file is as before |
| Directory.Strncmp | kernel/lib/string.c:52-58 | zero exactly for strings with the same first n characters up to the null |
| Directory.Strncpy | kernel/lib/string.c:60-69 | exactly n characters that compare equal to the source |
| Directory.DirLookup | kernel/fs/fs.c:516-538 | the first entry in use with that name, cut to DIRSIZ |
| Directory.DirLink | kernel/fs/fs.c:542-567 | refused exactly if the name is there, or it takes a new place and the disk has no room or the directory has its largest size; otherwise one new entry in the first unused place |
| Directory.PutLooks | kernel/fs/fs.c:542-567 | after dirlink the name leads to the new inode, every other name where it did, and names stay unique |
| Directory.ClearLooks | kernel/trap/sysfile.c:147-149 | after an entry is cleared its name leads nowhere and every other name where it did |
| Directory.IsDirEmpty | kernel/trap/sysfile.c:101-112 | true exactly when nothing beyond the first two entries is in use |
| Links.Calls.Create | kernel/trap/sysfile.c:171-226 | a new name exactly when it is not there, an inode is free and the entries fit, the existing inode exactly for a file asked for where a file or device is, and otherwise nothing; every count equals the entries other than "." in linked directories |
| Links.FewLinks | kernel/fs/fs.c:482-483 | a linked directory has fewer links than entries, of which there are at most 17152 |
| Links.Calls.LinkBegin | kernel/trap/sysfile.c:60-76 | directories are refused; the raised count is right exactly if it was below 32767 |
| Links.Calls.LinkEnd | kernel/trap/sysfile.c:78-97 | the entry is made or the count goes back, and counts stay right either way |
| Links.Calls.Unlink | kernel/trap/sysfile.c:115-168 | succeeds exactly for an existing name other than the dots that is a file or an empty directory; removes that name only; counts stay right, a removed directory's falls to zero, and the count panic is unreachable |
| Links.Calls.Iput | kernel/fs/fs.c:319-343 | frees the inode exactly on the last reference to one without links, and no entry leads to it |
| Links.RemoveDir | kernel/trap/sysfile.c:147-158 | an empty directory has exactly one link, and removing it lowers its parent's count by one |
| Links.Overflow | kernel/trap/sysfile.c:73-75 | raising a count of 32767 breaks the invariant |
| Links.LimitReached | kernel/trap/sysfile.c:60-97 | a tree that sys_link can build in which a file has 32767 links, so that the next sys_link overflows |
| Virtio.ThreeFree | kernel/driver/virtio_disk.c:196-206 | three descriptors can be taken exactly when three are free |
| Virtio.Disk.AllocDesc | kernel/driver/virtio_disk.c:157-165 | the first free descriptor, or -1 and no change |
| Virtio.Disk.FreeDesc | kernel/driver/virtio_disk.c:168-179 | the descriptor is cleared and freed; panics exactly if it is out of range or free |
| Virtio.Disk.FreeChain | kernel/driver/virtio_disk.c:182-192 | on a chain of three it frees those three and never panics |
| Virtio.Disk.Alloc3Desc | kernel/driver/virtio_disk.c:196-206 | three descriptors, or none with everything in use as before and wakeups exactly if some were given back |
| Virtio.Disk.Submit | kernel/driver/virtio_disk.c:217-263 | the chain and the ring entry as the device needs them, or no change to anything in use |
| VirtioQueue.DeviceSees | kernel/driver/virtio_disk.c:226-263 | a chain the device holds still names the buffer, sector and status byte it was formatted with |
| VirtioQueue.IntrReads | kernel/driver/virtio_disk.c:300-313 | the entry the interrupt handler reads is the oldest unseen completion, and it does not panic |
| VirtioQueue.ChainIsWhole | kernel/driver/virtio_disk.c:182-192 | the chain of any waiting request is intact, so freeing it does not panic |
| VirtioQueue.AtMostTwo | kernel/driver/virtio_disk.c:196-206 | at most two chains are live, and they and the free descriptors add up to eight |
| VirtioQueue.Windows | kernel/driver/virtio_disk.c:262-268 | no ring holds more entries than there are live chains |
| VirtioQueue.StepKeeps | kernel/driver/virtio_disk.c:208-316 | every step of a requester, the device, the interrupt handler or a kill keeps the invariant |
| VirtioQueue.RunsAreSafe | kernel/driver/virtio_disk.c:157-316 | at the end of every run: disjoint triples, at most two live, ring slots hold what was put there across 16-bit wrap, no panic, who sleeps on free[0] finds fewer than three free, who sleeps on a buffer is not done, and each announcement is completed to its own buffer once |
| Kalloc.Allocator.constructor | kernel/mm/kalloc.c:32-39 | after initialization every page is free |
| Kalloc.Allocator.FreeRange | kernel/mm/kalloc.c:41-47 | frees every page of the range once |
| Kalloc.Allocator.FreeToList | kernel/mm/kalloc.c:74-92 | the page joins the list, which stays strictly ascending and correctly linked |
| Kalloc.Allocator.FreePage | kernel/mm/kalloc.c:53-72 | pool first, then list; pool, list and handed-out pages stay a partition; the page is available again; panics exactly on a bad address |
| Kalloc.Allocator.AllocPage | kernel/mm/kalloc.c:97-120 | pool first, then the lowest listed page; null exactly when no page is available, otherwise one available page less |
| Kalloc.Allocator.FindRun | kernel/mm/kalloc.c:128-156 | finds the lowest run of n adjacent pages exactly if there is one |
| Kalloc.Allocator.CutRun | kernel/mm/kalloc.c:156-171 | removes exactly the nodes of the run and keeps the list linked and ascending |
| Kalloc.Allocator.AllocPages | kernel/mm/kalloc.c:122-190 | null for n below one, panic exactly when no run of n exists, otherwise the lowest run, handed out |
| PageTable.PteRoundTrip | kernel/include/riscv.h:275-279 | address and flags come back from an entry |
| PageTable.IndexInjective | kernel/include/riscv.h:282-284 | the three indices determine a page below 2^39 |
| PageTable.Aliased | kernel/include/riscv.h:282-290 | addresses 2^39 apart have the same translation |
| PageTable.AddMid | kernel/mm/vm.c:139-157 | a new zeroed second-level table changes no leaf |
| PageTable.AddLow | kernel/mm/vm.c:139-157 | a new zeroed last-level table changes no leaf |
| PageTable.PutLeaf | kernel/mm/vm.c:57-61 | storing a leaf entry changes that leaf and no other |
| Vm.StoreLeaf | kernel/mm/vm.c:57-61 | storing the entry of an address changes the flat map there only, and no other page table |
| Vm.Machine.CreatePagetable | kernel/mm/vm.c:18-26 | an empty flat map in a page of its own; panics exactly without memory |
| Vm.Machine.WalkCreate | kernel/mm/vm.c:139-157 | returns the last-level table, or 0 exactly when more tables are missing than pages are free, and changes no translation in any page table either way; pages only move from the allocator to the tables on the way |
| Vm.Machine.WalkLookup | kernel/mm/vm.c:160-170 | the same table where it exists, 0 elsewhere, with no change |
| Vm.Machine.MapOne | kernel/mm/vm.c:57-61 | one page is added to the flat map, or nothing changes; panics exactly if the page is mapped, fails exactly when more tables are missing than pages are free |
| Vm.Machine.MapPage | kernel/mm/vm.c:40-68 | success adds exactly the pages of the range in order, none of which was mapped; running out of memory leaves a prefix; panics exactly for bad alignment or size or when the next page is mapped already |
| Vm.Machine.UnmapOne | kernel/mm/vm.c:80-92 | one page leaves the flat map and, if asked, goes back to the allocator |
| Vm.Machine.UnmapPage | kernel/mm/vm.c:73-93 | exactly the range leaves the flat map and, if asked, exactly its pages go back; these and the pages free before are all free at the end exactly when the walk missed no table while a page could be had; panics exactly for an unaligned address or a non-leaf entry |
| Vm.GapExists | kernel/mm/vm.c:73-93 | a page table for which that condition fails, so that a freed page becomes a table |
| Vm.Machine.CopyTurn | kernel/mm/vm.c:203-220 | one page of the parent gets a copy, or is skipped because it is not mapped; fails exactly when it is mapped and no page is left beside the child's missing tables |
| Vm.Machine.CopyPagetable | kernel/mm/vm.c:197-222 | success: every page mapped below sz has a copy of its own with equal bytes and flags; no memory: at a page the parent maps, with at most one page free and that only for want of a table; the child's map is as before, no page is lost, and the pages free then and all copies are free at the end exactly when each 2 MB region walked has a table of the child or a copied page, or no page is at hand; the parent's translations never change |
| Vm.GapIsBelow | kernel/mm/vm.c:197-222 | where the cleanup misses a table is decided by the arguments and the stopping address |
| Vm.TightIsClean | kernel/mm/vm.c:197-222 | if every page below sz has a mapped page at or before it in its 2 MB region, or a table of the child, all copies are back wherever the copy stops |
| Vm.NoHolesTight | kernel/mm/vm.c:197-222 | so it is for a parent that maps every page below sz |
| Vm.RegionsNotEnough | kernel/mm/vm.c:197-222 | a parent with a page in both of its 2 MB regions for which the condition fails |
| Vm.Machine.GapRun | kernel/mm/vm.c:197-222 | a parent with pages 0 and 0x400000 only and one free page: the copy fails, and its one copied page ends up as a table of the child |
| Vm.GapInput | kernel/mm/vm.c:197-222 | a memory with such a parent and child |
| SleepLock.MoveKeeps | kernel/proc/proc.c:560-601 | every single lock, test, switch or wakeup step keeps the invariant |
| SleepLock.RunsAreSafe | kernel/sync/sleeplock.c:16-41 | in every run at most one process has the sleep-lock, holdingsleep says which, and a process sleeps on it only while it is held or its release has yet to reach that process |
| WaitExit.FreeKeeps | kernel/proc/proc.c:446-465 | a zombie that wait frees has switched away for good |
| WaitExit.AdoptKeeps | kernel/proc/proc.c:379-388 | handing a child, zombie or not, to init keeps the invariant |
| WaitExit.DieKeeps | kernel/proc/proc.c:418-426 | a process becomes a zombie only when its parent is not asleep in wait |
| WaitExit.StepKeeps | kernel/proc/proc.c:379-478 | every step of wait, exit, reparent, fork and kill keeps the invariant |
| WaitExit.NoLostExit | kernel/proc/proc.c:379-478 | in every run, when wait_lock is free no process is asleep in wait while it has a zombie child, adopted ones included |
| Pipe.Pipe.constructor | kernel/ipc/pipe.c:14-34 | a new pipe is empty and open at both ends |
| Pipe.Pipe.NeverBoth | kernel/ipc/pipe.c:64-114 | a reader and a writer are never asleep together |
| Pipe.Pipe.Push | kernel/ipc/pipe.c:69-84 | bytes go in at the end, in order, until done, full or a failed copy |
| Pipe.Pipe.Write | kernel/ipc/pipe.c:64-89 | a critical section puts in the next bytes of the call; it sleeps only on a full open pipe and leaves no reader asleep; exactly when it returns -1 |
| Pipe.Pipe.Pull | kernel/ipc/pipe.c:102-110 | bytes come out in the order they went in; a failed copy loses one |
| Pipe.Pipe.Read | kernel/ipc/pipe.c:91-114 | sleeps exactly on an empty pipe with a writer; otherwise delivers and leaves no writer asleep; exactly when it returns -1 |
| Pipe.Pipe.Close | kernel/ipc/pipe.c:48-62 | the closed end is marked, the other side woken, and the page freed exactly when both are closed |
| Pipe.Pipe.Kill | kernel/proc/proc.c:606-623 | a killed process sleeps no more, and the pipe is as before |
| Scheduler.Choose | kernel/proc/proc.c:844-857 | the runnable slot nearest ahead of rr_idx, and none exactly when no slot is runnable |
| Scheduler.ComesNearer | kernel/proc/proc.c:844-857 | a runnable slot passed over is strictly nearer next time |
| Scheduler.BoundedWait | kernel/proc/proc.c:833-862 | a slot that stays runnable is chosen within NPROC selections, whatever happens to the others |

## Left out

- flush_all_blocks: never called, and it writes uncommitted blocks home.
- Fs.FileSystem.Writei: the copy from the caller succeeds; a failing one would stop the loop, possibly with bytes of the block changed in the cache and not logged.
- Fs.FileSystem.Readi: the copy to the caller succeeds.
- Fs.FileSystem.Iupdate: how an inode is packed into bytes is an arbitrary function of the inodes in a block.
- Fs.FileSystem.Iput: reference count and valid flag are arguments; iget, ilock and the inode table are not modelled.
- Links.Calls.Iput: whether it is the last reference is an argument.
- Log.LogBuf.Update: an edit by another process is a call of its own, before or after; the schedule beside it has readers only.
- Log.LogBuf.Commit: other processes run whenever it gets a buffer or sleeps on one; between these points it touches only buffers it has locked.
- Log.LogBuf.Recover: no other process uses the cache, as at boot.
- File.Fileread: the copy to the caller succeeds.
- File.Filewrite: no other call writes between the chunks or in the same transactions, and the in-core inodes are as on disk when it starts.
- Directory.DirLink: entries are values, not bytes read and written through `readi` and `writei`; `room` stands for whether a block can be had.
- Entries made in a removed directory that is still somebody's current directory; path walking with skipelem and namex.
- destroy_pagetable, copyin and copyout, uvmalloc and uvmdealloc; contents of user memory.
- Vm.Machine.MapOne: addresses below 2^39 and an aligned physical address; `PageTable.Aliased` says what the walk makes of other addresses.
- Vm.Machine.MapPage: the same.
- Vm.Machine.UnmapOne: requires a page to be freed to be allocated and no table, which the code cannot check.
- Vm.Machine.UnmapPage: requires the freed pages to be allocated pages mapped once, which the code cannot check.
- Vm.Machine.CopyPagetable: with a page left over when memory runs out, which of the pages ends up as a table depends on the allocator, and is not said; the panic is not shown to happen, only to need a page mapped with no flag but PTE_V.
- Kalloc.Allocator.FreePage: requires a page that was handed out, since a second free goes unnoticed.
- Weak memory and fences: steps are sequentially consistent.
- Liveness beyond the scheduler's bound: nothing is said about when a sleeping process runs.
- The virtio protocol has each stretch under vdisk_lock up to the announcement as one step; the device moves between steps.
- UART, console, PLIC, traps, system-call arguments, process creation and the context switch itself.
