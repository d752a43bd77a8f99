# Proofs about the xv6 kernel and its user land

A Dafny model of the parts of this RISC-V xv6 whose guarantees are about whole runs, all interleavings or all
crash points, with proofs of what those parts promise. One module follows one component:

- `RedoLog`, `LogProtocol`, `LogDepartures`, `BufferCache`, `LogTrace`, `Log`: the write-ahead log over the buffer
  cache. `RedoLog` has the disk writes of a commit and a recovery and every way to cut them short. `LogProtocol` is the
  machine of all interleavings, one locked region, one unlocked test or one disk write at a time; `LogDepartures`
  builds the runs in which it fails and proves when there are none. `BufferCache` and `Log` are the code itself, in
  place, on the linked ring and the in-memory header; their disk writes are proved to be those of `RedoLog`.
- `Umalloc`: the allocator of section 8.7 of The C Programming Language, second edition.
- `PageTable`, `FreeTables`, `UserMemory`: Sv39 page tables (section 4.4 of the RISC-V Privileged Architecture, version
  1.11) as flat maps, growth, copying, rollback and release, and the kernel's copies to and from user memory.
- `Bytes`, `Inodes`, `FileSystem`, `FileLog`: the free map, inodes and file contents; `FileSystem` is the code, in place,
  and `FileLog` sets its log_writes against `LogProtocol`.
- `Virtio`: the disk driver's descriptor queue (sections 2.6 and 5.2.6 of Virtio 1.1) with an abstract device.
- `Shell`, `ShellTokens`, `ShellGrammar`: the shell's parser, and the language it accepts; `Grep`: the
  regular-expression matcher with its line loop.
- `Pipe`, `Console`: a pipe and a console ring with processes that sleep.
- `Params`, `Lists`, `Folding`, `Blocks`, `Counters`, `Strings`: what several of them share.

Code that runs under a lock is one method; a method ends where the code gives the lock away in `sleep`, and takes up
again from there, so any sequence of calls is an interleaving. Panics are results, never preconditions.
Physical allocation, `sbrk`, `read` and the device are parameters or nondeterministic choices.

Where the code departs from what is meant, the code is modelled as it is and the exact condition is proved:

- Recovery unpins blocks that nothing pinned (kernel/log.c:78): reference counts balance afterwards if and only if the
  log was empty (`Log.RecoveryUnbalances`). Going on after a recovery is safe if and only if the log was empty
  (`LogDepartures.RecoveryDecides`); otherwise a committed change can be lost (`LogDepartures.ChangeLost`) and a locked
  buffer recycled (`LogDepartures.HolderRobbed`).
- `log_write` makes its panic test before it takes the lock (kernel/log.c:218-223), so two processes can take the last
  slot. With operations of at most q slots, crash consistency holds if and only if LOGSIZE < nlog + 2 * (MAXOPBLOCKS - q)
  or nlog is at least NBUF (`LogDepartures.LogSizeDecides`). mkfs's nlog (mkfs/mkfs.c:25) is just NBUF: the overfull list
  pins every buffer, and its commit panics in `bget` before it writes anything (`LogDepartures.StuckCommit`); with one
  block less it would overwrite a home block (`LogDepartures.Overflow`).
- `nlog` counts the header block: an operation needs two unused slots, not one, to be sure of no panic
  (`LogProtocol.NoLogPanic`, `LogDepartures.OneSlotNotEnough`). With one free-map block a `filewrite` always
  has them (`FileLog.ChunkNeverPanics`).
- `NBUF` equals `LOGSIZE`: a commit panics for want of a buffer if and only if its blocks and the other buffers in use
  are NBUF or more (`Log.Journal.Commit`); a recovery, if and only if it has NBUF different blocks
  (`Log.Journal.Recover`).
- A full disk does not stop `writei` (kernel/fs.c:397-425, kernel/fs.c:516-536): it returns n and the file grows, but
  the bytes of missing blocks go to block 0 or, with the indirect block missing, where the words of block 0 lead. The
  file has its bytes and no hole if and only if as many blocks were free as were missing
  (`FileSystem.FileSystem.Writei`, `FileSystem.FileSystem.Filewrite`, an instance in `FileSystem.FullDisk`). A read of
  such a hole panics, or shows block 0 (`FileSystem.FileSystem.Readi`).
- A killed writer leaves the pipe without waking its reader (kernel/pipe.c:86-89): the condition is in
  `Pipe.Pipe.Write`, an instance in `Pipe.StrandedReader`.
- `uvmcopy` that fails on its first page panics in `uvmunmap` (kernel/vm.c:345), after unmapping what the child has from
  page 0 on: `PageTable.Memory.Uvmcopy`.
- `proc_freepagetable` releases nothing, not even the page table, of a process of size 0 (kernel/proc.c:206):
  `FreeTables.FreePagetable`.
- `morecore` passes its byte count through an `int` (user/umalloc.c:54): the units that the heap accounts for are those
  asked of `sbrk` as long as, and only as long as, no request above 0x7fffffe0 bytes reaches `morecore`
  (`Umalloc.SbrkTruncates`, `Umalloc.Heap.Malloc`).
- `grep` stops, silently, at the first line of 1023 characters or more, or with a NUL in it: `Grep.Grep.Run`,
  `Grep.AllFit`.
- `>>` does what `>` does (user/sh.c:388-393): `Shell.AppendIsPlain`.

## Model

| member | source | states |
|---|---|---|
| `RedoLog.PutThenGet` | kernel/log.c:86-113 | a header block written by write_head reads back as the same list of blocks, and keeps the words after it |
| `RedoLog.RecoverPrefix` | kernel/log.c:69-82 | cut after k home writes, a recovery has changed listed home blocks only: header, slots and all other blocks are untouched |
| `RedoLog.InstallAgree` | kernel/log.c:69-82 | disks that agree on header and slots get the same contents in every block that a recovery has overwritten |
| `RedoLog.RecoverAgree` | kernel/log.c:116-122 | disks that differ only in listed home blocks recover to the same disk |
| `RedoLog.RecoveryRestartable` | kernel/log.c:116-122 | a recovery cut after any number of writes leaves a disk that still recovers to the same disk |
| `RedoLog.RecoverTwice` | kernel/log.c:116-122 | recovering a recovered disk changes nothing |
| `RedoLog.CommitPrefix` | kernel/log.c:178-202 | exactly which header, slots and home blocks a commit has written after each of its 2n + 2 writes |
| `RedoLog.CrashBeforeHeader` | kernel/log.c:193-202 | cut before the header write, a commit recovers to the old home blocks |
| `RedoLog.CrashDuringInstall` | kernel/log.c:193-202 | cut between the two header writes, a commit recovers to the new home blocks |
| `RedoLog.CrashAfterClear` | kernel/log.c:193-202 | after the header is cleared, recovery leaves the new home blocks |
| `RedoLog.CrashAtomicity` | kernel/log.c:69-122 | a commit cut after any k writes recovers to all of the transaction or none of it; the header write decides |
| `RedoLog.CutRecoveriesHarmless` | kernel/log.c:116-122 | any number of recoveries, each cut anywhere, do not change what a completed one gives |
| `RedoLog.CommitCrashRecover` | kernel/log.c:178-202 | commit cut anywhere, recoveries cut anywhere, then one that completes: all or nothing, and recovering again is the identity |
| `LogProtocol.RunReserved` | kernel/log.c:126-141 | in every state of every run, whatever the size of the log and however its recoveries went, slots taken plus slots reserved are at most LOGSIZE |
| `LogProtocol.RunBuffered` | kernel/bio.c:58-87 | in every state of every run no more blocks are cached than there are buffers |
| `LogProtocol.KeepBegin` | kernel/log.c:126-141 | begin_op keeps the invariant |
| `LogProtocol.KeepCheck` | kernel/log.c:218-221 | the panic test, made without the lock, keeps the invariant: whom it lets through still finds a slot |
| `LogProtocol.RoomForTwo` | kernel/log.c:218-233 | with two operations under way, another append leaves a slot to a process that has passed the test |
| `LogProtocol.KeepAppend` | kernel/log.c:223-233 | the locked part of log_write, with absorption, keeps the invariant however much has been appended since the test |
| `LogProtocol.KeepEnd` | kernel/log.c:146-174 | end_op keeps the invariant; ending the last operation starts a commit of exactly the current blocks |
| `LogProtocol.CommitIOAgrees` | kernel/log.c:178-202 | each disk write of a committing process, read from cache or slot at that moment, is the one the redo log's write list has next |
| `LogProtocol.Stalled` | kernel/log.c:178-190 | a list that the log area has no room for has every buffer pinned, so its commit does not write at all |
| `LogProtocol.KeepCommitWrite` | kernel/log.c:193-202 | every single disk write of a commit keeps the invariant while other processes read and change blocks |
| `LogProtocol.KeepCommitDone` | kernel/log.c:165-173 | the end of a commit, when the reservation is given back, keeps the invariant |
| `LogProtocol.KeepRecoverWrite` | kernel/log.c:116-122 | every single disk write of a recovery keeps the invariant |
| `LogProtocol.EvictUnused` | kernel/bio.c:75-80 | while reference counts balance, bget recycles only buffers that are neither held nor pinned |
| `LogProtocol.ReadsCurrent` | kernel/bio.c:91-101 | bread returns the latest logged contents of any block that no one is changing, in every phase of a commit |
| `LogProtocol.CrashRecovers` | kernel/log.c:116-122 | a crash in any mode leaves a disk that recovers to the saved point |
| `LogProtocol.KeepInv` | kernel/log.c:126-234 | every step of every process, the device and the machine keeps the invariant, as long as no process goes on after the recovery of a non-empty log |
| `LogProtocol.RunInv` | kernel/log.c:126-234 | the invariant holds in every state of every such run with any interleaving, crashes and reboots, if the log has room for the slots operations take or as many blocks as there are buffers |
| `LogProtocol.CrashConsistent` | kernel/log.c:126-174 | a crash at any moment of any such run recovers to the file system as it was when the last outstanding operation ended, or the time before that while the header of the commit that followed is still to be written: never part of an operation |
| `LogProtocol.SavedStays` | kernel/log.c:193-202 | in every run, a point once saved stays saved in all later states |
| `LogProtocol.QuietIsDurable` | kernel/log.c:146-174 | with no operation outstanding and no commit running, a crash loses nothing |
| `LogProtocol.CacheTransparent` | kernel/bio.c:58-101 | over every run, reads are transparent, no home block on disk changes before the header write, and no pinned buffer is ever recycled |
| `LogProtocol.NoLogPanic` | kernel/log.c:214-221 | over every run, log_write does not panic on an operation with one unused slot if the log area exceeds LOGSIZE, with two if it equals LOGSIZE |
| `LogProtocol.SlotsAreBlocks` | kernel/log.c:223-233 | in every run an operation has taken at most one slot for each block it has logged |
| `LogProtocol.FewBlocksNoPanic` | kernel/log.c:214-221 | over every run, log_write does not panic on an operation that logs at most MAXOPBLOCKS - 2 different blocks |
| `FileLog.ChunkNeverPanics` | kernel/file.c:149-165 | that is so of each operation of a filewrite, on any disk with one free-map block, full or not |
| `LogDepartures.Overflow` | kernel/log.c:218-233 | without that room, and with buffers to spare, some run from any clean disk has two processes pass the panic test and both append, and write_log overwrites a home block before the header write: a crash then recovers no state the file system was ever in |
| `LogDepartures.LogSizeDecides` | mkfs/mkfs.c:25 | every run is crash consistent if and only if LOGSIZE < nlog + 2 * (MAXOPBLOCKS - q) or NBUF <= nlog, q being the most slots that an operation takes; for q = MAXOPBLOCKS if and only if NBUF <= nlog |
| `LogDepartures.StuckCommit` | kernel/log.c:178-183 | with nlog = LOGSIZE, a run within the reservations whose last commit finds all NBUF buffers referenced and its first log block in none of them |
| `LogDepartures.OneSlotNotEnough` | mkfs/mkfs.c:25 | with nlog = LOGSIZE, a run in which log_write panics on an operation that has one slot of its reservation left |
| `LogDepartures.ChangeLost` | kernel/log.c:78 | after the recovery of a block, some continuation logs, commits and loses a change to it: reads and crashes give the old contents |
| `LogDepartures.HolderRobbed` | kernel/log.c:78 | after the recovery of a block, its next holder has a reference count of zero, and another process gets the same block |
| `LogDepartures.RecoveryDecides` | kernel/log.c:116-122 | after a recovery every continuation up to the next crash is crash consistent if and only if the log was empty |
| `BufferCache.UnlinkRing` | kernel/bio.c:126-127 | unlinking a buffer leaves the ring of the others |
| `BufferCache.LinkRing` | kernel/bio.c:128-131 | linking a buffer behind the head gives the ring with it in front |
| `BufferCache.Cache.constructor` | kernel/bio.c:36-52 | binit makes one ring through the head that holds each of the NBUF buffers once, all unused |
| `BufferCache.Cache.FindCached` | kernel/bio.c:64-72 | the forward walk finds the buffer that holds the block, or there is none |
| `BufferCache.Cache.FindFree` | kernel/bio.c:74-85 | the backward walk finds the least recently released unreferenced buffer, or every buffer is referenced |
| `BufferCache.Cache.Bget` | kernel/bio.c:58-87 | panics exactly when the block is not cached and every buffer is referenced; otherwise at most one buffer holds any block of a real device, and refcnt counts users and pins modulo 2^32 |
| `BufferCache.Cache.Bread` | kernel/bio.c:91-101 | returns a locked buffer with the block's latest contents; no block's contents change |
| `BufferCache.Cache.SetData` | kernel/log.c:76 | changing a locked buffer changes the contents of its block alone |
| `BufferCache.Cache.Bwrite` | kernel/bio.c:105-110 | one disk write of the buffer's block; no block's latest contents change |
| `BufferCache.Cache.Bpin` | kernel/bio.c:138-142 | one pin more, and the reference count follows |
| `BufferCache.Cache.Bunpin` | kernel/bio.c:145-149 | one pin fewer, and the reference count follows, also below zero |
| `BufferCache.Cache.Touch` | kernel/bio.c:126-131 | in-place relinking moves the buffer to the front and keeps the ring |
| `BufferCache.Cache.Brelse` | kernel/bio.c:115-135 | one user fewer; a buffer that nobody references any more moves to the front of the ring |
| `BufferCache.RecentAhead` | kernel/bio.c:122-132 | after any releases in a row, a buffer released after the last release of another stands before it in the ring |
| `BufferCache.FreeIsUnused` | kernel/bio.c:75-76 | in a balanced cache a buffer that bget may recycle is neither held, awaited nor pinned |
| `BufferCache.LoadedOk` | kernel/bio.c:91-101 | loading a block into a recycled buffer hides and changes no block's contents |
| `BufferCache.WriteShows` | kernel/bio.c:105-110 | writing a buffer out changes no block's latest contents and keeps unpinned buffers in step with the disk |
| `Log.FreeLeft` | kernel/bio.c:75-86 | bget has a buffer to recycle if and only if the pinned blocks and the other buffers in use are fewer than NBUF |
| `Log.Journal.BeginOp` | kernel/log.c:126-141 | starts exactly when no commit runs and the operation's worst case fits on top of everyone else's |
| `Log.Journal.Record` | kernel/log.c:223-232 | a block already listed is absorbed, another is appended |
| `Log.Journal.LogWrite` | kernel/log.c:214-234 | panics exactly on a full log or outside an operation; otherwise pins are exactly one for each listed block, whoever holds or waits for buffers |
| `Log.Journal.WriteLog` | kernel/log.c:178-190 | writes slot k with the latest contents of listed block k, for each k in turn; panics exactly when no buffer is free |
| `Log.Journal.WriteHead` | kernel/log.c:102-113 | one disk write: the header block with the in-memory list |
| `Log.Journal.InstallTrans` | kernel/log.c:69-82 | writes each listed home block from its slot and takes one pin off it; exact condition for a recovery to find its buffers |
| `Log.Journal.Commit` | kernel/log.c:193-202 | beside processes that hold and wait for other blocks, panics exactly when its blocks and the other buffers in use are NBUF or more; otherwise its disk writes are the redo log's write list, no pin is left and no contents change |
| `Log.Journal.EndOp` | kernel/log.c:146-174 | the last operation commits; panics exactly when a commit is running or no buffer is free for it |
| `Log.Journal.ReadHead` | kernel/log.c:86-96 | the in-memory list becomes the one on disk |
| `Log.Journal.Recover` | kernel/log.c:116-122 | succeeds exactly when the header lists fewer than NBUF different blocks; its disk writes are exactly the redo log's recovery, and it leaves one pin too few on each recovered block |
| `Log.StartCommit` | kernel/log.c:193-202 | before a commit its blocks are pinned once each and none of the log's own blocks is; unpinning them in turn leaves no pin |
| `Log.CrashDuringCommit` | kernel/log.c:193-202 | a crash after any k of the writes that Commit reports recovers to all of the transaction or none |
| `Log.DiskAfterRecover` | kernel/log.c:116-122 | the disk after the writes that Recover reports is the recovered disk |
| `Log.RecoveryUnbalances` | kernel/log.c:78 | reference counts balance after a recovery if and only if the log was empty; otherwise each recovered block's buffer is left at 2^32 - 1 |
| `Umalloc.Heap.FindPlace` | user/umalloc.c:30-32 | the search from any freep ends at the list block the freed block belongs behind, also at the wrap point |
| `Umalloc.Heap.Splice` | user/umalloc.c:33-43 | the header writes of free, with both merges |
| `Umalloc.Heap.Free` | user/umalloc.c:24-44 | the list stays one circular address-ordered list with the block merged into the neighbours it touches; live blocks lose exactly it |
| `Umalloc.FreeOk` | user/umalloc.c:33-43 | freeing keeps the list in order, disjoint from live blocks and without adjacent blocks, and conserves units |
| `Umalloc.TakeOk` | user/umalloc.c:74-84 | carving a block off the end of a free one keeps the same, and conserves units |
| `Umalloc.FreeUndoesTake` | user/umalloc.c:24-44 | free of what malloc just carved gives the same list back |
| `Umalloc.Heap.Morecore` | user/umalloc.c:46-61 | the block it adds, merged or not, is at freep or just behind it, so the scan meets it next |
| `Umalloc.Heap.Scan` | user/umalloc.c:74-88 | the scan from freep finds the first block that fits, or no block fits |
| `Umalloc.Heap.Malloc` | user/umalloc.c:63-90 | terminates from every reachable heap with at most one call of morecore, made exactly if no block fits; first fit; fails exactly if morecore was called and sbrk failed; the units accounted for are the free and live ones, and stay those asked of sbrk exactly if the request is at most 0x7fffffe0 bytes or morecore is not reached |
| `Umalloc.SbrkTruncates` | user/umalloc.c:52-58 | the byte count that morecore passes to sbrk is the one it records if and only if the request is at most 0x7fffffe0 bytes |
| `PageTable.SplitInjective` | kernel/riscv.h:343-346 | distinct virtual pages have distinct index triples |
| `PageTable.SetLeaf` | kernel/vm.c:75-92 | writing a leaf entry changes the translation of one page of one root, and keeps the tables a forest |
| `PageTable.GraftForest` | kernel/vm.c:82-89 | hanging a fresh page on an invalid entry keeps the tables a forest without sharing |
| `PageTable.GraftSame` | kernel/vm.c:82-89 | and maps and unmaps nothing |
| `PageTable.Memory.Uvmcreate` | kernel/vm.c:207-220 | a new root maps nothing, and every other root translates as before; fails exactly if kalloc does |
| `PageTable.Memory.Walk` | kernel/vm.c:74-92 | finds the leaf table of the page; changes no translation, and nothing at all without alloc; with alloc it fails exactly if a kalloc of this call does, which takes a missing leaf table |
| `PageTable.Memory.Mappages` | kernel/vm.c:151-171 | the pages of the range, and no others, now map consecutive physical pages; fails exactly if a kalloc of this call does, at a page whose leaf table was missing, and says how far it came; panics exactly at a page that was mapped or beyond MAXVA |
| `PageTable.Memory.Uvmunmap` | kernel/vm.c:176-204 | the pages of the range, and no others, are unmapped, and their memory released if asked for; a panic names the page that was not a leaf |
| `PageTable.Memory.AddPage` | kernel/vm.c:249-262 | a zeroed or copied page is mapped, or nothing is mapped and no memory is lost; fails exactly if a kalloc of this call does |
| `PageTable.Memory.Uvmdealloc` | kernel/vm.c:271-281 | exactly the pages between the two rounded 64-bit sizes go; a panic names a page among them that was not a leaf or beyond MAXVA |
| `PageTable.Memory.Uvmalloc` | kernel/vm.c:239-265 | for all 64-bit sizes, success adds zeroed pages of their own; failure, exactly if a kalloc of this call fails, restores the translation and the memory; a panic means a page was mapped or beyond MAXVA |
| `PageTable.Undone` | kernel/vm.c:252-260 | growing and unmapping what was gained restores both the translation and the memory |
| `PageTable.Memory.Uvmcopy` | kernel/vm.c:319-347 | success gives the child equal bytes and flags on fresh pages; a copy fails exactly if a kalloc of this call does; a failure after the first page restores child and memory; a failure on the first page panics, and restores them if the child had no page 0 |
| `FreeTables.Freewalk` | kernel/vm.c:285-302 | frees each page of a tree of tables, and no other, once, exactly if no leaf page has a valid entry; panics only on an entry with PTE_R, PTE_W or PTE_X |
| `FreeTables.BaldFlat` | kernel/vm.c:285-302 | the leaf pages of a root have no valid entry exactly if its flat map has none |
| `FreeTables.Felled` | kernel/vm.c:285-302 | without one tree the tables are still a forest, and the other roots translate as before |
| `FreeTables.Uvmfree` | kernel/vm.c:306-311 | releases the memory and the page table exactly if the first sz bytes, one at least, are mapped and nothing else is; other roots translate as before |
| `FreeTables.FreePagetable` | kernel/proc.c:202-208 | the same with trampoline and trap frame; with sz = 0 no page is released |
| `UserMemory.Walkaddr` | kernel/vm.c:97-115 | the physical page exactly if the page is valid and the user's; changes nothing |
| `UserMemory.UserEntry` | kernel/vm.c:107-114 | an entry made from a page and permissions is the user's exactly if PTE_U is one of them and the page is not 0 |
| `UserMemory.KernelPages` | kernel/proc.c:189-194 | a range over the trampoline or the trap frame, as proc_pagetable maps them, is refused |
| `UserMemory.Copyout` | kernel/vm.c:365-385 | succeeds exactly if every page of the range is the user's, so never on a page mapped without PTE_U; bytes up to the first bad page become src, all others stay |
| `UserMemory.Copyin` | kernel/vm.c:390-410 | succeeds exactly if every page of the range is the user's, so never on a page mapped without PTE_U, with the bytes there |
| `UserMemory.OutThenIn` | kernel/vm.c:365-410 | copyin after copyout gives the bytes back |
| `UserMemory.Copyinstr` | kernel/vm.c:416-453 | finds a string exactly if a NUL lies within max bytes of user pages, none of them mapped without PTE_U, and returns the bytes before the first one |
| `UserMemory.GrownUser` | kernel/vm.c:249-262 | every page that uvmalloc adds is the user's, and reads as zeros |
| `UserMemory.GrownReached` | kernel/vm.c:365-385 | so copyout and copyin succeed on every range within them |
| `UserMemory.CopiedUser` | kernel/vm.c:319-347 | after uvmcopy the child reads the parent's bytes, and reaches just the pages that the parent does |
| `Bytes.PutGetWord` | kernel/fs.c:412-418 | an entry written to an indirect block reads back, and no other entry changes |
| `Bytes.MarkBit` | kernel/fs.c:71-74 | setting or clearing one block's bit in the free map changes no other block's bit |
| `FileSystem.FileSystem.Balloc` | kernel/fs.c:89-122 | the lowest clear bit is set and that block zeroed, and it was no one's; 0 exactly when every data block is owned |
| `FileSystem.FileSystem.Bfree` | kernel/fs.c:65-74 | panics exactly on a clear bit; otherwise clears that bit alone |
| `FileSystem.FileSystem.Bmap` | kernel/fs.c:397-425 | the block asked for, allocated with its indirect block if need be; with no block free, 0, or the word of block 0 in place of the missing entry; allocated bits stay metadata plus a disjoint union of inodes' blocks; no file's bytes change; exact use of free blocks |
| `Inodes.Unowned` | kernel/fs.c:89-122 | allocation changes no inode's block and no file's bytes |
| `Inodes.AddEntry` | kernel/fs.c:410-419 | recording a zeroed block in an indirect block changes one record and no file's bytes |
| `FileSystem.FileSystem.Itrunc` | kernel/fs.c:432-460 | frees each block of the inode exactly once, without the panic, holes or not; other inodes keep records and bytes; every block that changes is logged |
| `FileSystem.FileSystem.Readi` | kernel/fs.c:478-500 | -1 exactly past the end or on 32-bit overflow; where the file has no hole, the slice of it, clipped to its size, and nothing changes; on a hole it panics if a block is free and no operation is outstanding, and shows block 0 or what block 0 names if none is free |
| `FileSystem.FileSystem.Writei` | kernel/fs.c:505-537 | refuses exactly past the end or beyond MAXFILE; otherwise returns n and the file grows; the bytes are spliced into the blocks the file has and no other byte of any file changes, those of missing blocks go to block 0; all bytes are in, and no hole is left, if and only if as many blocks were free as were missing; only without an indirect block does block 0 lead it elsewhere; even then every block that changes is logged, and no other inode changes |
| `Inodes.Progresses` | kernel/fs.c:516-536 | a round of writei, on a block that is there, got or missing, keeps the account of bytes written, blocks needed and space left |
| `Inodes.SpillNext` | kernel/fs.c:516-536 | what block 0 holds after each round |
| `Inodes.FilledIff` | kernel/fs.c:529-531 | a write leaves no hole exactly if the file has all the blocks written to |
| `Inodes.Spliced` | kernel/fs.c:505-537 | a write that got its blocks makes the contents the old prefix, the bytes written and the old rest |
| `Inodes.OthersKept` | kernel/fs.c:505-537 | a write leaves every other file's contents as they were |
| `Inodes.WriteThenRead` | kernel/fs.c:478-537 | reading back what was written gives it, across the direct/indirect boundary |
| `FileSystem.FileSystem.Filewrite` | kernel/file.c:150-174 | -1 exactly past the end or beyond MAXFILE; otherwise n, chunk by chunk, with src spliced into the blocks the file has, which are all it needs if and only if enough blocks were free; with enough it does not halt; with one free-map block each operation logs at most seven blocks, eight if block 0 leads it astray |
| `FileSystem.MakeDisk` | mkfs/mkfs.c:245-259 | the free map that mkfs writes marks the blocks before the data and no others |
| `FileSystem.TakeNone` | kernel/fs.c:516-536 | a byte written to a file without blocks on any full disk: writei returns 1, the size is 1, the file has no block, the byte is in block 0, and other files keep theirs |
| `FileSystem.FullDisk` | kernel/fs.c:516-536 | an instance, on a disk as mkfs lays it out whose one data block another file has taken |
| `Inodes.SevenBlocks` | kernel/file.c:149-155 | four data blocks at most, the indirect block, one free-map block and the inode's block; block 0 in place of those missing |
| `Inodes.EightBlocks` | kernel/file.c:149-155 | and never more than eight, wherever block 0 leads |
| `Virtio.Conservation` | kernel/virtio_disk.c:115-166 | free descriptors plus three for each request equal NUM, so at most two requests are in flight |
| `Virtio.NoAlias` | kernel/virtio_disk.c:256 | with fewer than NUM completions unseen, equal indices modulo NUM mean that none is |
| `Virtio.Disk.AllocDesc` | kernel/virtio_disk.c:115-126 | the lowest free descriptor, or none is free |
| `Virtio.Disk.FreeDesc` | kernel/virtio_disk.c:128-139 | panics exactly on a bad index or a free descriptor; wakes every process that waits for descriptors |
| `Virtio.Disk.Alloc3` | kernel/virtio_disk.c:154-166 | succeeds exactly if three are free; otherwise gives back what it took |
| `Virtio.Disk.Start` | kernel/virtio_disk.c:168-243 | a request is posted exactly if fewer than two are in flight, and else its process sleeps for descriptors; no wakeup is lost |
| `Virtio.Disk.Finish` | kernel/virtio_disk.c:240-248 | a woken requester closes its request exactly if the handler has seen it, without a panic, and sleeps again otherwise |
| `Virtio.Disk.FreeChain` | kernel/virtio_disk.c:141-152 | frees the three descriptors of the chain, each once |
| `Virtio.Disk.Fetch` | kernel/virtio_disk.c:188-238 | the device finds in the available ring, in order, just the operation that was asked for |
| `Virtio.Disk.Complete` | kernel/virtio_disk.c:251-266 | a device that completes requests in any order keeps the invariant, and its status lands at the right request |
| `Virtio.Disk.See` | kernel/virtio_disk.c:256-266 | a completion releases and wakes its own buffer, once; false exactly if the device reported an error |
| `Virtio.Disk.Intr` | kernel/virtio_disk.c:251-269 | every completion in the used ring is seen, each buffer woken once, nothing else changes; panics exactly if one failed |
| `Virtio.PostKeeps` | kernel/virtio_disk.c:188-236 | posting keeps the whole queue invariant, and there is room in the ring because the descriptors were free |
| `Virtio.CloseKeeps` | kernel/virtio_disk.c:245-246 | closing a seen request keeps the whole queue invariant |
| `Shell.GetToken` | user/sh.c:265-308 | a word token is a maximal run of word characters; the cursor moves past every token but the end |
| `Shell.Parser.Next` | user/sh.c:265-308 | the loops of gettoken compute GetToken and leave the cursor behind it |
| `Shell.Parser.Sees` | user/sh.c:310-320 | the loop of peek skips blanks and looks at one character |
| `Shell.Redirs` | user/sh.c:374-397 | redirections up to the first token that is none; every file name is a whole word |
| `Shell.Args` | user/sh.c:429-446 | arguments and the redirections among them; fewer than MAXARGS, every one a whole word |
| `Shell.ParseLine` | user/sh.c:344-359 | the mutual recursion terminates on every line; every word in the tree is a whole word of the line |
| `Shell.Parser.WithRedirs` | user/sh.c:374-397 | the loop computes Redirs |
| `Shell.Parser.Arguments` | user/sh.c:429-446 | the loop computes Args |
| `Shell.Parser.ExecCmd` | user/sh.c:415-446 | computes ParseExec, the stage of a pipeline that `ShellGrammar.ExecRead` and `ShellGrammar.StageReached` are about |
| `Shell.Parser.Block` | user/sh.c:399-413 | computes ParseBlock |
| `Shell.Parser.PipeCmd` | user/sh.c:361-372 | computes ParsePipe |
| `Shell.Parser.Line` | user/sh.c:344-359 | computes ParseLine |
| `Shell.AppendIsPlain` | user/sh.c:275-303 | a line with >> in it is parsed, or refused, exactly as the line with > in its place |
| `Shell.NulTerminate` | user/sh.c:448-493 | writes a NUL at the end of each word and nowhere else |
| `Shell.WordsTerminated` | user/sh.c:448-493 | every word, read up to its NUL, is its token: no word's end falls inside another word |
| `Shell.ParseBuffer` | user/sh.c:327-342 | parsecmd on a buffer: the tree of the line, with every word terminated in place, or a panic exactly when the line does not parse |
| `ShellTokens.Lexed` | user/sh.c:265-308 | the tokens of a line are those it is spelled from, with any blanks before, between and after them, and none where two tokens do not run together |
| `ShellTokens.Scripted` | user/sh.c:265-308 | every line is spelled from its tokens in this way |
| `ShellGrammar.RedirsReached` | user/sh.c:374-397 | redirections in a row are read to the last, in order, with their file, mode and descriptor |
| `ShellGrammar.ArgsReached` | user/sh.c:431-445 | up to nine words, with redirections between and after them, are read in order up to a sign that ends a command |
| `ShellGrammar.SimpleReached` | user/sh.c:427-446 | a simple command stands for its words, wrapped in its redirections in the order in which they stand, wherever they stand |
| `ShellGrammar.StageReached` | user/sh.c:399-446 | a simple command, or a line in parentheses and its redirections, is read up to a sign that ends it |
| `ShellGrammar.PipelineReached` | user/sh.c:361-372 | a pipeline without parentheses groups to the right |
| `ShellGrammar.LineReached` | user/sh.c:344-359 | a sentence that stands anywhere in a line, before its end or a closing parenthesis, is parsed to its meaning and no further; lists group to the right, and & binds the pipeline before it |
| `ShellGrammar.ExecRead` | user/sh.c:415-446 | whatever parseexec accepts is a simple command or a group, with that meaning |
| `ShellGrammar.LineRead` | user/sh.c:344-359 | whatever parseline accepts is a line of the grammar, with that meaning |
| `ShellGrammar.ParsesSentences` | user/sh.c:327-342 | a line parses if and only if it is a sentence of the grammar, and then to the tree the sentence means, however it is spelled |
| `ShellGrammar.RoundTrip` | user/sh.c:327-342 | printing any tree (at most nine words a command) with the parentheses that the grammar needs, and parsing it, gives the tree back |
| `Pipe.Pipe.Wakeup` | kernel/proc.c:722-734 | every process asleep on the channel, and no other, becomes runnable |
| `Pipe.Pipe.Sleep` | kernel/proc.c:688-708 | the process sleeps on the channel; no other changes |
| `Pipe.Pipe.Write` | kernel/pipe.c:76-100 | bytes go in in order; returns, fails or sleeps exactly as the room, the reader and kill decide; a sleeping reader still finds the pipe empty unless a killed writer had more than PIPESIZE bytes left while it slept, and exactly then it does not |
| `Pipe.Pipe.Read` | kernel/pipe.c:102-127 | bytes come out in the order they went in, also after a reader was stranded; sleeps or fails only on an empty pipe with its write end open; strands no reader; a sleeping writer finds the pipe full |
| `Pipe.Pipe.Close` | kernel/pipe.c:58-74 | closing an end leaves no process asleep; freed exactly when both ends are closed |
| `Pipe.Pipe.Kill` | kernel/proc.c:769-771 | a killed process is woken, and the sleepers that remain are as they were |
| `Pipe.StrandedReader` | kernel/pipe.c:86-89 | a killed writer that fills the pipe leaves a reader asleep on a full pipe |
| `Grep.ConsLanguage` | user/grep.c:82-104 | a string is in a pattern's language exactly if it splits into a piece for the first item and a rest for the others |
| `Grep.ParseShows` | user/grep.c:82-94 | every string shows the pattern that it is parsed to |
| `Grep.ShowParses` | user/grep.c:82-94 | a pattern shown as a string, with . for any character, * behind a repeated one and $ at the end, is parsed back, if no literal would be taken for one of these |
| `Grep.ShownMatches` | user/grep.c:70-94 | so matching the string is matching the pattern: anywhere in the text, or at its start with a ^ in front |
| `Grep.StarMatches` | user/grep.c:96-104 | c* matches by taking some number of c first |
| `Grep.MatchHere` | user/grep.c:82-94 | true exactly if a prefix of the text, all of it after a final $, is in the pattern's language |
| `Grep.MatchStar` | user/grep.c:96-104 | true exactly if the text starts with some c and then what the rest matches |
| `Grep.Match` | user/grep.c:70-80 | true exactly if some substring, a prefix after ^, is in the pattern's language |
| `Grep.LinesOfMore` | user/grep.c:16-33 | lines do not depend on where the input is cut |
| `Grep.LinesJoin` | user/grep.c:16-33 | the lines, with their newlines, and the rest make up the input |
| `Grep.LinesOnly` | user/grep.c:16-33 | and no other lines without newlines in them do |
| `Grep.PrintsMatching` | user/grep.c:20-28 | what is printed is the matching lines, each once and in order |
| `Grep.Grep.Scan` | user/grep.c:20-28 | the lines in the buffer are matched in order, matching ones printed, and the rest kept |
| `Grep.Grep.Run` | user/grep.c:10-34 | however reads are chunked and whatever they hold, exactly the lines before the first that does not fit the buffer or has a NUL in it are matched, once each, and the matching ones printed |
| `Grep.AllFit` | user/grep.c:17 | every line is matched exactly when every line is shorter than 1023 characters and free of NULs |
| `Console.CommittedStays` | kernel/console.c:176-221 | no keystroke takes back a committed character; the line being edited never holds an end of line |
| `Console.CommittedStaysForever` | kernel/console.c:176-221 | nor does any sequence of keystrokes |
| `Console.TypedStays` | kernel/console.c:203-219 | plain characters join the edited line while there is room |
| `Console.LineCommits` | kernel/console.c:204-217 | a newline, a return taken for one, ^D, or the character that fills the ring gives the readers the edited line with it |
| `Console.ErasedBack` | kernel/console.c:195-201 | ^H and DEL take back the characters typed, last first, as many as they are, and stop at the line's beginning |
| `Console.KilledBack` | kernel/console.c:188-194 | ^U takes back the edited line and nothing that was committed |
| `Console.TakesNone` | kernel/console.c:204 | a full ring takes no character; ^P, ^N, ^B and NUL change no line |
| `Console.TakesLine` | kernel/console.c:102-137 | a read takes from the front, at most a line, stops before an end of file, delivers no ^D, and takes one away exactly if it has nothing to deliver |
| `Console.TakesEnough` | kernel/console.c:102-137 | it is done exactly if it has all it wants or a newline, or an end of file is next; otherwise it has taken all there is |
| `Console.EofNextTime` | kernel/console.c:115-122 | a ^D that ends a read with some bytes gives the next read, of any size, none |
| `Console.Console.Intr` | kernel/console.c:168-221 | each keystroke does to the ring what it does to the line editor; r, w and e stay in order within 128 modulo 2^32; sleeping readers are woken exactly when characters are committed |
| `Console.Console.KillLine` | kernel/console.c:188-194 | the loop erases the whole edited line and stops at the committed characters |
| `Console.Console.Read` | kernel/console.c:93-141 | delivers what the line editor has for this read, and sleeps or fails exactly when it needs more |

## Left out

- Container quotas and their counters: quota checks are taken to succeed, so the branch of `balloc` that frees bit `b`
  and the page that `kalloc` drops are not in the model.
- `uvmclear`, `kvmmap` and the kernel's own page table.
- `exec`, the scheduler, traps, context switches and all assembly.
- Path names, directories, the inode cache's reference counts and `iupdate`'s disk format: an inode is its block
  numbers and its size in memory; writing it back counts as one logged block.
- Copies that fail half-way in `readi`, `writei`, `pipewrite`, `piperead` and `consoleread`: copies succeed here.
- UART, PLIC, MMIO registers, virtio initialisation and memory ordering: locked regions are atomic.
- Console switching and output: one console's ring is modelled.
- `filewritefromkernel` and device files.
- `RedoLog`: the log header is read as words; recovery is modelled for headers whose list is in range.
- LogProtocol.Stalled: which unused buffer `bget` recycles is left open, processes that wait for a buffer are not
  counted, and a process that `bget` panics on takes no further step.
- LogDepartures.LogSizeDecides: for disks with more blocks behind the log than in it, as mkfs makes them.
- LogDepartures.RecoveryDecides: for headers that list no block twice, as all that `log_write` builds.
- LogDepartures.HolderRobbed: what the holder goes on to do to a buffer recycled under it is not followed.
- Log.Journal.Commit: other processes hold and wait for what they do throughout; their steps in between are those of
  `LogProtocol`. `Log.Journal.LogWrite` is one method; that its test is made before the lock is `LogProtocol`'s.
- FileSystem.FileSystem.Writei: of a write that block 0 has led to a block that is not the file's, the contract has the
  number of blocks, that they are logged, and the sizes, but not which they are: that is up to the words of block 0.
- Umalloc.Heap.Malloc: on a heap that accounts for more than `sbrk` was asked for, the model goes on by the headers; that
  the machine faults where there is no memory is not in it.
- PageTable.Memory.Uvmunmap: pages to be released are distinct ones that came from `kalloc`, as kernel/kalloc.c:43-46
  asks of callers of `kfree`; physical pages are page numbers.
- PageTable.Memory.Uvmdealloc: the same.
- FreeTables.Freewalk: where it takes a leaf entry without PTE_R, PTE_W and PTE_X for a pointer, the method ends and
  says so.
- Virtio.Disk.Start: the caller holds the buffer's lock, so no other request is under way for it.
