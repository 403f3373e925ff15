# xv6 in Dafny

A model of the hard parts of the xv6 kernel and its user programs, as they are in
`Asg02/xv6-2`, with proofs of what they keep, undo and compute.  `dafny verify dfyconfig.toml`
checks everything.

The storage stack.  `Bio` is the buffer cache on the in-memory disk, `Log` the redo log in the
source's form.  Both are tied to `RedoLog`, which says which disk images a commit and a recovery go
through, one per block write; crash safety is a statement about every one of those images.
`GroupCommit` is the admission protocol of any number of operations, `LogReaders` a commit with
readers at work between its writes.  `FsState` defines what a file system image means (references,
block ownership, file contents), `FreeBlocks` what mapping a range of a file takes from the free
blocks and how many blocks it logs, `FileSys` the operations, `File` the chunking of long writes
against the log's reservation, `FileCrash` what a crash during such a write leaves, `LogOps` such
writes as operations on the log, `Mkfs` the builder of the first image.  `BudgetCases` and
`HoleCases` are disks on which the code exceeds its budget, leaves an inode behind or panics.
Blocks are 512 bytes and a block write is atomic.

Memory.  `Umalloc` is the user-level allocator; addresses are counted in 8-byte units.  `Vm` and
`VmOps` are page tables over the page allocator.  Physical memory is one sequence of pages, and
page tables and free-list links live in it.  `VmSpaces` divides all of it, from boot on, between the
free list, the address spaces and the pages the kernel holds itself, and every space has the
kernel's mappings throughout.

Processes.  `Processes` is the process table: table operations in the source's form, and a step
relation over what happens under ptable.lock.  `Pipes` is the ring buffer, `PipeProtocol` the
protocol of readers, writers and closers with both locks explicit.  `Consoles` is the console's
input buffer.

User programs.  `Shell` is the parser, `ShellGrammar` the grammar it implements, `ShellWords` its
words in the buffer and `ShellPrint` the round trip; `Grep` is the matcher, `Crc32` the checksum.

A `panic` of the source is a result value or a stated failure of the operation, so contracts say
when it happens.

What the proofs found out about the code:

- The second half of the guard in `log_write` is reachable: mkfs makes the log area LOGSIZE blocks
  long, so the thirtieth new block panics.  It cannot happen exactly when the area is longer
  (`GroupCommit.LogAreaMustExceedLogsize`).
- A commit needs one buffer that is neither referenced nor logged.  With no reader about it panics
  for want of one exactly when as many blocks are logged as there are buffers; readers that hold
  buffers bring that about earlier (`Log.Log.Commit`, `Log.IdleSpare`).
- A write of a block already in the log panics when the header is full, although it would be
  absorbed (`GroupCommit.AbsorbedWritePanics`).
- `writei` leaves the inode on the disk stale exactly when `bmap` fills a field of it without the
  file growing, which needs a hole (`FileSys.FileSystem.WriteI`, `HoleCases.StaleInode`).
- mkfs leaves a hole in the root directory when it already ended on a block boundary before it is
  rounded up, that is for 30 files modulo 32 (`Mkfs.Image.Finish`, `Mkfs.Build`); it does not compare
  inode numbers with their limit (`Mkfs.Image.Ialloc`).
- Reading such a hole with no file-system operation open panics in `log_write`
  (`FileSys.FileSystem.ReadI`, `HoleCases.RootPanics`).
- A chunk of `filewrite` can log a block more than reserved, in exactly one situation: it grows a
  file into four missing blocks, the first of them a hole, that need a new indirect block, and the
  five blocks taken are in five different blocks of the free map (`File.ChunkBudget`,
  `BudgetCases.Most`).  The image of mkfs has one free-map block, where a chunk logs at most seven.
- Between the end of the kernel and 4 MB there must be 65 pages: with fewer, `setupkvm` returns no
  page directory, and `kvmalloc` does not look (`VmSpaces.Kernel.Boot`).
- `malloc` rounds and asks correctly exactly up to 0x7FFFFFF0 bytes (`Umalloc.RequestLimit`).
- `growproc` shrinking a process to nothing takes its pages away, but reports failure and keeps the
  size; shrinking by more than the size reports success and does nothing
  (`VmSpaces.Kernel.Growproc`).
- `pipewrite` can return -1 after storing bytes without waking readers (`PipeProtocol.LostWakeup`).
- `kill` also matches free slots, by pid 0 or the pid of the fork that last failed there
  (`Processes.KillHits`, `Processes.StalePid`).  A process starts out killed exactly when its slot was
  hit, while free or an EMBRYO, since the last reaping there (`Processes.BornKilledIff`).
- The shell's `>>` opens its file exactly as `>` does, although a comment sets it apart.

## Model

| member | source | states |
|---|---|---|
| Bio.Bcache.constructor | Asg02/xv6-2/bio.c:38-56 | at power-on the buffers are invalid and unreferenced over the disk it is given, and the cache is valid |
| Bio.Bcache.Binit | Asg02/xv6-2/bio.c:38-56 | binit leaves a circular list of all buffers, in order of last release |
| Bio.Bcache.Lookup | Asg02/xv6-2/bio.c:68-76 | finds the one buffer of a block if and only if some buffer has it |
| Bio.Bcache.LeastRecent | Asg02/xv6-2/bio.c:78-92 | the buffer taken over is unreferenced, clean and the least recently released of those; none is found only if there is none |
| Bio.Bcache.Bget | Asg02/xv6-2/bio.c:61-93 | a hit bumps one reference count; a miss takes the least recently released clean buffer and marks it invalid; it fails exactly when neither exists |
| Bio.Bcache.Iderw | Asg02/xv6-2/memide.c:38-60 | a dirty buffer becomes the disk block in one write, any other becomes a copy of it; the panics happen exactly in the three stated cases |
| Bio.Bcache.Bread | Asg02/xv6-2/bio.c:96-106 | the buffer returned is locked and holds what readers of the block see; the disk and all other buffers are untouched; it fails exactly when no buffer has the block and none can be taken over |
| Bio.Bcache.Bwrite | Asg02/xv6-2/bio.c:109-116 | exactly one disk block changes, to the buffer; what readers see does not change |
| Bio.Bcache.Brelse | Asg02/xv6-2/bio.c:118-141 | the list stays a permutation of all buffers in order of last release, and the released buffer moves to the front when nobody else refers to it |
| Bio.Bcache.MoveToFront | Asg02/xv6-2/bio.c:130-137 | the pointer surgery keeps next and prev inverse to each other and moves only this buffer |
| Bio.Relink | Asg02/xv6-2/bio.c:130-137 | unlinking any list member and linking it in behind the head gives the list with that member first |
| Bio.AgreesRecycle | Asg02/xv6-2/bio.c:81-91 | evicting an unreferenced clean buffer loses nothing: every block still reads the same |
| Bio.Bcache.CleanView | Asg02/xv6-2/bio.c:96-106 | a block whose buffer is neither dirty nor held reads as it is on the disk, whatever other buffers are held |
| Blocks.GetBitIs | Asg02/xv6-2/fs.c:64-72 | bit i of the free map is the one the mask selects in byte i / 8 |
| Log.Log.ReadHead | Asg02/xv6-2/log.c:84-96 | the in-memory header lists exactly the entries of the header block |
| Log.Log.WriteHead | Asg02/xv6-2/log.c:98-113 | one disk write puts the count and the entries in the header block; it fails exactly when no buffer is free to read the header into, and a buffer a reader holds is untouched |
| Log.Log.WriteLog | Asg02/xv6-2/log.c:176-190 | with readers holding any other buffers, the disk goes through exactly the log-copy images and no home block changes; it runs out of buffers if and only if none is unreferenced and clean on entry |
| Log.Log.InstallTrans | Asg02/xv6-2/log.c:68-82 | the disk goes through exactly the install images, in commit and in recovery; afterwards nothing is dirty and held buffers are as they were |
| Log.Log.Commit | Asg02/xv6-2/log.c:192-202 | with readers holding any buffers but those of logged blocks, the disk goes through exactly the images of CommitTrace and ends with an empty log and every home block as readers saw it; with something to commit it succeeds if and only if some buffer is unreferenced and clean on entry |
| LogReaders.CommitAmong | Asg02/xv6-2/log.c:176-202 | however readers take and release blocks between its writes, logged blocks too, the disk goes through a prefix of the images of CommitTrace, and through all of them when commit ends; readers see the same home blocks throughout |
| LogReaders.Reader | Asg02/xv6-2/bio.c:96-141 | a reader between the writes changes neither the disk nor what anyone sees, and what it holds stays as on the disk |
| LogReaders.Steps | Asg02/xv6-2/log.c:176-202 | what each of the 2n + 2 writes of a commit changes: a log block, the header, a home block, the cleared header |
| Log.Log.RecoverFromLog | Asg02/xv6-2/log.c:115-122 | the disk goes through exactly the images of RecoverTrace and ends as Recover says |
| Log.Log.LogWrite | Asg02/xv6-2/log.c:213-233 | the block is listed once and its buffer pinned; both panics happen exactly when their guards say; it is a log_write step of `GroupCommit`, and an operation within its budget meets no panic with a new block if the log area is longer than LOGSIZE |
| Log.Log.BeginOp | Asg02/xv6-2/log.c:124-141 | whoever is admitted has MAXOPBLOCKS log entries to itself: the listed blocks and the unused budgets of all open operations together fit the header, in every run of `GroupCommit` the log follows |
| Log.Log.Reserved | Asg02/xv6-2/log.c:124-233 | so it stays: at any time the listed blocks and the unused budgets fit |
| Log.Log.EndOp | Asg02/xv6-2/log.c:143-174 | it never meets a commit in progress; only the last operation touches the disk, and it commits everything logged since the last commit while readers hold other buffers; the disk keeps showing exactly the committed transactions |
| LogOps.PutBlock | Asg02/xv6-2/log.c:204-233 | one logged write of an operation that runs alone: bread, change, log_write and brelse find a buffer and do not panic; readers see the change, the disk does not |
| LogOps.RunOp | Asg02/xv6-2/log.c:124-202 | an operation that runs alone and logs at most MAXOPBLOCKS blocks meets no panic, and its end_op commits exactly the blocks it wrote with what it last wrote to them |
| LogOps.RunOps | Asg02/xv6-2/log.c:124-202 | so does each of several in turn, and the disk goes through exactly the images of those commits |
| Log.IdleSpare | Asg02/xv6-2/log.c:176-190 | with no reader about, a commit finds a buffer if and only if it has fewer blocks than there are buffers |
| Log.SomeClean | Asg02/xv6-2/log.c:176-190 | fewer logged blocks than buffers leave a clean buffer for the copy |
| Log.AllDirty | Asg02/xv6-2/log.c:176-190 | as many logged blocks as buffers leave none |
| RedoLog.HeadBlock | Asg02/xv6-2/log.c:98-113 | the header block holds the count and every entry |
| RedoLog.EntriesOfHead | Asg02/xv6-2/log.c:84-113 | reading back a written header gives the same block numbers |
| RedoLog.InstallStep | Asg02/xv6-2/log.c:68-82 | each copy of install_trans is one block write of the next image |
| RedoLog.LogCopyStep | Asg02/xv6-2/log.c:176-190 | each copy of write_log is one block write of the next image |
| RedoLog.RecoverAgain | Asg02/xv6-2/log.c:115-122 | a recovery cut short after any of its writes can be redone with the same home blocks as result |
| RedoLog.AnyNumberOfCrashes | Asg02/xv6-2/log.c:115-122 | so can a recovery that crashes any number of times, each time anywhere |
| RedoLog.LogCopyCrash | Asg02/xv6-2/log.c:176-190 | before its header write a transaction leaves no trace on the home blocks |
| RedoLog.CommittedRecovers | Asg02/xv6-2/log.c:115-122 | after the header write recovery yields the whole transaction |
| RedoLog.CommitCrash | Asg02/xv6-2/log.c:192-202 | a crash after any disk write of a commit yields the old or the new home blocks, and which is decided by the header write alone |
| RedoLog.FirstCrash | Asg02/xv6-2/log.c:143-202 | a crash during the first of several commits yields the old home blocks or those of that one transaction |
| RedoLog.RunCrash | Asg02/xv6-2/log.c:143-202 | a crash anywhere in a run of any transactions yields exactly those whose header was written |
| RedoLog.CrashSafety | Asg02/xv6-2/log.c:115-202 | the same when recovery itself crashes any number of times before it completes |
| RedoLog.OneMoreCommit | Asg02/xv6-2/log.c:192-202 | a further commit appends its images to the run and ends in its final image |
| RedoLog.RunsJoin | Asg02/xv6-2/log.c:143-202 | a run of commits is the first part of it followed by the rest from where that ended |
| Log.Log.CrashAnywhere | Asg02/xv6-2/log.c:115-202 | for the log as it runs: whichever image the disk is left with, however often recovery crashes, the result is a whole prefix of the transactions committed since boot |
| GroupCommit.StepKeeps | Asg02/xv6-2/log.c:124-233 | every begin_op, log_write and end_op keeps: n plus the unused budget of all operations is at most LOGSIZE, listed blocks are distinct, and end_op never meets a commit in progress |
| GroupCommit.RunKeeps | Asg02/xv6-2/log.c:124-233 | hence so does every run of any number of operations |
| GroupCommit.RoomForNewBlocks | Asg02/xv6-2/log.c:213-233 | an operation within its budget that logs a new block always finds room in the header |
| GroupCommit.WholeOperations | Asg02/xv6-2/log.c:143-174 | all writes of an operation are in one commit, and it has ended when they are committed |
| GroupCommit.LogAreaMustExceedLogsize | Asg02/xv6-2/log.c:213-220 | new blocks within budget never panic in any run if and only if the log area has more than LOGSIZE blocks; mkfs gives it exactly LOGSIZE |
| GroupCommit.AbsorbedWritePanics | Asg02/xv6-2/log.c:213-233 | a run in which rewriting an already listed block panics because the header is full |
| GroupCommit.FillTo | Asg02/xv6-2/log.c:124-141 | three admitted operations can fill the log to any count the area allows |
| Inodes.WriteInodeReads | Asg02/xv6-2/fs.c:221-237 | a written inode record reads back, and the other records of its block do not change |
| Inodes.InodeBytes | Asg02/xv6-2/fs.h:29-36 | the fields of an on-disk inode are at their places, low byte first |
| FsState.DataOwn | Asg02/xv6-2/fs.c:499-505 | writing a data block keeps every reference and block ownership |
| FsState.DiskLayout | Asg02/xv6-2/fs.h:43-50 | the free-map bit of a block and the record of an inode are where BBLOCK and IBLOCK say |
| FsState.DataWrite | Asg02/xv6-2/fs.c:499-505 | writing a data block changes that block of that one file and nothing else |
| FsState.LogsCover | Asg02/xv6-2/log.c:204-212 | blocks that were not logged did not change |
| FsState.AllocSlot | Asg02/xv6-2/fs.c:373-401 | filling one empty reference with a fresh zeroed block keeps ownership and changes no file |
| FsState.AllocDirect | Asg02/xv6-2/fs.c:373-386 | bmap filling an inode field keeps ownership and every file |
| FsState.AllocEntry | Asg02/xv6-2/fs.c:387-398 | bmap filling an entry of the indirect block keeps ownership and every file |
| FsState.IupdateKeeps | Asg02/xv6-2/fs.c:221-237 | iupdate makes the inode on the disk current and touches no other inode, file or reference |
| FreeBlocks.FreeOwn | Asg02/xv6-2/fs.c:56-78 | on a sound file system the free blocks are exactly the data blocks that nothing refers to |
| FreeBlocks.NeededMore | Asg02/xv6-2/fs.c:373-401 | the blocks a range of a file needs are those its first part needs and those the rest then needs, the indirect block counted once |
| FreeBlocks.AffordMore | Asg02/xv6-2/fs.c:373-401 | mapping the first part of a range out of the free blocks leaves enough for the rest if and only if there was enough for the whole |
| FreeBlocks.MapCountBound | Asg02/xv6-2/fs.c:56-78 | k blocks taken in order have their bits in at most k blocks of the free map, and in no more than it has |
| FreeBlocks.LogCount | Asg02/xv6-2/fs.c:482-512 | the number of distinct blocks a writei logs: its data blocks, the free-map blocks of what it took, the indirect block if an entry of it was filled, and the inode block if it grew |
| FileSys.FileSystem.Balloc | Asg02/xv6-2/fs.c:56-78 | with an operation open, the lowest free block is marked and zeroed, or no block is free; with none open log_write panics before anything changes |
| FileSys.FileSystem.Bfree | Asg02/xv6-2/fs.c:81-96 | one bit is cleared; the panic happens exactly when the block was free |
| FileSys.FileSystem.Bmap | Asg02/xv6-2/fs.c:373-401 | the block for a file block, allocated if missing together with the indirect block; it panics if and only if the file block is past MAXFILE, or blocks are missing and no operation is open or too few are free; no file reads differently, existing references stay, and exactly the blocks it changed are logged |
| FileSys.FileSystem.Itrunc | Asg02/xv6-2/fs.c:408-436 | exactly the inode's own blocks are freed, once each and without the panic; other files and inodes are unchanged |
| FileSys.FileSystem.Iupdate | Asg02/xv6-2/fs.c:221-237 | the inode on the disk equals the one in memory, and one block is logged |
| FileSys.FileSystem.ReadI | Asg02/xv6-2/fs.c:453-477 | the bytes from off on are returned, n of them or all up to the end of the file, or -1 in exactly the stated cases; it panics if and only if blocks of that range are missing and no operation is open, as in fileread, or too few blocks are free; no file changes, and without holes nothing does |
| FileSys.FileSystem.ReadLoop | Asg02/xv6-2/fs.c:469-475 | the bytes of the range, or the panic in exactly that case |
| FileSys.FileSystem.WriteI | Asg02/xv6-2/fs.c:482-512 | a legal write succeeds if and only if the missing blocks of its range, with the indirect block, are at most the free ones; the file becomes the old one with src at off, every other file and inode is unchanged, and exactly the blocks it wrote are logged; the inode on the disk is current if and only if the file grew or no inode field had to be filled |
| FileSys.FileSystem.WriteLoop | Asg02/xv6-2/fs.c:499-505 | the bytes from off on are src, no other byte of any file differs, every touched block exists, and exactly the blocks written are logged; it panics if and only if too few blocks are free |
| FileSys.HolesFilled | Asg02/xv6-2/fs.c:482-512 | a write at or before the end of a file without holes leaves it without holes |
| HoleCases.StaleInode | Asg02/xv6-2/fs.c:482-512 | one byte written into a hole succeeds and leaves the inode on the disk behind |
| HoleCases.ReadPanics | Asg02/xv6-2/file.c:96-114 | one byte read from a hole with no operation open panics |
| HoleCases.RootPanics | Asg02/xv6-2/fs.c:453-477 | so does reading the whole root directory of every image that mkfs makes of 30 files modulo 32 |
| FileSys.TruncOwn | Asg02/xv6-2/fs.c:408-436 | after all references are freed the others' ownership is intact |
| File.ChunkIs | Asg02/xv6-2/file.c:133 | the length of a chunk is what the source computes from MAXOPBLOCKS |
| File.ChunkBudget | Asg02/xv6-2/file.c:133-138 | a chunk logs more than MAXOPBLOCKS blocks if and only if it grows the file, its four file blocks are all missing and reach past NDIRECT with no indirect block, and the five lowest free blocks have their bits in five blocks of the free map; then it logs one more, and never without a hole or on a free map of fewer than five blocks |
| BudgetCases.Most | Asg02/xv6-2/file.c:133-145 | two sound disks on which a chunk of the full length logs MAXOPBLOCKS blocks and one more |
| BudgetCases.FullCost | Asg02/xv6-2/file.c:133-138 | they differ in whether the last block of the file is a hole |
| File.FieldsPresent | Asg02/xv6-2/file.c:133-152 | without holes the inode written by a chunk is current on the disk |
| File.Chunk | Asg02/xv6-2/file.c:140-145 | one transaction of filewrite writes its bytes if and only if enough blocks are free, and logs exactly as many blocks as ChunkCost says; no-holes and a current inode are kept |
| File.FileWrite | Asg02/xv6-2/file.c:117-156 | it panics if and only if the chunks up to the file size limit need more blocks than are free; otherwise it writes whole chunks up to that limit and returns the count exactly if that is all; after each chunk the file has exactly the bytes of the chunks so far and no other file has changed; without holes no chunk exceeds the reservation and the inode on the disk is current after each |
| File.FileRead | Asg02/xv6-2/file.c:96-114 | the next bytes of the file, and the offset moves by as many; it panics only over a hole, and leaves the offset alone when it fails |
| File.ReadAll | Asg02/xv6-2/cat.c:7-22 | reading in pieces of any size until one is empty gives the whole file; with no operation open it panics if and only if the file has a hole |
| FileCrash.WriteCrash | Asg02/xv6-2/file.c:117-156 | whichever image the disk is left with during a filewrite, and however often recovery crashes, mounting what recovery leaves gives sound block ownership, the file with the bytes of exactly the committed chunks, and every other file and inode as before |
| FileCrash.ApplyAllIs | Asg02/xv6-2/log.c:192-202 | the commits of the first j chunks make the home blocks those of the file system after j chunks |
| FileCrash.HomeOwn | Asg02/xv6-2/fs.h:9-22 | what is in the log area matters to no reference, file or free-map bit |
| FileCrash.MountChunked | Asg02/xv6-2/fs.c:290-308 | inodes read back from the disk are the current ones, so the mounted file system is the one that was committed |
| LogOps.WriteScript | Asg02/xv6-2/file.c:117-156 | each chunk of a filewrite on a file without holes is a sequence of block writes outside the log area, of at most MAXOPBLOCKS blocks, that logs what it wrote |
| LogOps.WriteSurvives | Asg02/xv6-2/file.c:117-156 | with the chunks run as operations on the log, every image the disk may be left with mounts, after any number of crashes in recovery, as a sound file system with the bytes of exactly the committed chunks and all else as before |
| Mkfs.Image.constructor | Asg02/xv6-2/mkfs.c:93-120 | a zeroed image of FSSIZE blocks is a file system with no blocks handed out |
| Mkfs.NextBlock | Asg02/xv6-2/mkfs.c:237-251 | handing out the next block is what the kernel's balloc would have done |
| Mkfs.Image.Winode | Asg02/xv6-2/mkfs.c:183-195 | the inode goes to its place and nothing else changes |
| Mkfs.Image.Ialloc | Asg02/xv6-2/mkfs.c:223-235 | the next inode is initialised and the file system stays sound for every number that lands in the inode blocks or the not yet written free map; beyond them it overwrites a data block, and it fails exactly past the end of the image |
| Mkfs.StrayInode | Asg02/xv6-2/mkfs.c:183-195 | an inode number past the last that still lands before the data harms no file, reference or inode |
| Mkfs.Image.Place | Asg02/xv6-2/mkfs.c:269-286 | the sector for a file block, with new blocks as needed; no file changes; it fails only when every block of the image is handed out |
| Mkfs.Image.Iappend | Asg02/xv6-2/mkfs.c:255-297 | the file grows by exactly the given bytes, without holes or spare blocks; other files are untouched; it fails only for a file longer than MAXFILE or a full image |
| Mkfs.Image.WriteMap | Asg02/xv6-2/mkfs.c:237-251 | the free map marks the blocks handed out and no others |
| Mkfs.Image.Finish | Asg02/xv6-2/mkfs.c:158-165 | the finished image is a sound file system, and rounding up the root leaves a hole if and only if it ended on a block boundary |
| Mkfs.Build | Asg02/xv6-2/mkfs.c:67-167 | for any list of files: the image is a sound file system with an empty log, the root directory has an entry with the name and the inode of each, every file reads back as given, and the root has a hole exactly when the number of files is 30 modulo 32; it fails only if a file is too long or the image is full |
| Mkfs.RootNames | Asg02/xv6-2/mkfs.c:119-149 | the root directory read back names itself twice and then file k, without a leading underscore and cut to 14 bytes, as inode k + 2 |
| Mkfs.EmptyLog | Asg02/xv6-2/mkfs.c:93-120 | the log area of the image has a header that lists nothing, so the first boot recovers it |
| Mkfs.RootHole | Asg02/xv6-2/mkfs.c:158-163 | rounding the size of a file without spare blocks opens a hole exactly from a block boundary |
| Umalloc.Allocator.FindPlace | Asg02/xv6-2/umalloc.c:30-32 | the search ends at the free block that precedes the address |
| Umalloc.Allocator.Free | Asg02/xv6-2/umalloc.c:24-44 | the list stays circular, address-ordered and coalesced; free and live blocks still partition the heap; other live blocks are untouched |
| Umalloc.Allocator.Morecore | Asg02/xv6-2/umalloc.c:46-61 | the units of sbrk join the heap and a block of the wanted size is free, or nothing changes |
| Umalloc.Allocator.Take | Asg02/xv6-2/umalloc.c:75-84 | the block handed out was free, has exactly the wanted units, and nothing else changes hands |
| Umalloc.Allocator.SplitBlock | Asg02/xv6-2/umalloc.c:78-82 | the tail of a larger block is handed out and the rest stays free |
| Umalloc.Allocator.Malloc | Asg02/xv6-2/umalloc.c:63-90 | it fails exactly when no free block is large enough and sbrk fails, calls sbrk at most once and only then, and returns units that were nobody's, the fewest that hold the bytes |
| Umalloc.FreeKeeps | Asg02/xv6-2/umalloc.c:24-44 | insertion and the two possible merges keep the list, coalescing and the partition |
| Umalloc.InsertKeeps | Asg02/xv6-2/umalloc.c:33-42 | a block inserted after its predecessor keeps the order and the partition |
| Umalloc.MergeKeeps | Asg02/xv6-2/umalloc.c:33-42 | joining two adjacent blocks keeps them |
| Umalloc.HereIffPrecedes | Asg02/xv6-2/umalloc.c:30-32 | the loop test holds exactly at the predecessor, including the wrap-around case |
| Umalloc.Step | Asg02/xv6-2/umalloc.c:74-89 | each step along the list passes one new block until the whole list is passed, so both loops end |
| Umalloc.TakeTail | Asg02/xv6-2/umalloc.c:78-82 | splitting off the tail keeps list and partition |
| Umalloc.RequestLimit | Asg02/xv6-2/umalloc.c:52-69 | the 32-bit arithmetic of a request is right if and only if it is at most 0x7FFFFFF0 bytes |
| VmOps.Machine.Kalloc | Asg02/xv6-2/kalloc.c:82-95 | it takes one page off the free list, or fails exactly when the list is empty |
| VmOps.Machine.Kfree | Asg02/xv6-2/kalloc.c:59-77 | the page joins the free list; the panic happens exactly outside the kernel's page range |
| VmOps.Machine.Freerange | Asg02/xv6-2/kalloc.c:46-53 | exactly the whole pages of the range join the free list, and the panic happens exactly when one of them is outside the kernel's page range |
| VmOps.Machine.Freemem | Asg02/xv6-2/kalloc.c:97-129 | the result is the size of the free list in bytes, which always fits the int |
| VmOps.Machine.WalkPgdir | Asg02/xv6-2/vm.c:35-55 | no mapping changes; it fails if and only if there is no page table and it may not or cannot get a page for one; free pages plus owned pages stay the same |
| VmOps.Machine.MapPages | Asg02/xv6-2/vm.c:60-80 | the run of pages is mapped to consecutive frames and nothing else changes; on failure a prefix is; it panics exactly at the first page of the run that is mapped already, and fails otherwise only when the run misses more page tables than there are free pages |
| VmOps.Machine.SetupKvm | Asg02/xv6-2/vm.c:118-136 | physical memory is mapped at KERNBASE and the devices at their own addresses, for the kernel only and writable but for the text, and nothing else; or a failure that leaves the free pages exactly as they were; it succeeds if and only if 65 pages are free |
| VmOps.Machine.AllocUvm | Asg02/xv6-2/vm.c:221-249 | new zeroed writable user pages exactly in the range, or a failure that restores every mapping; on an unmapped range it succeeds if and only if the pages and the missing page tables are at most the free ones; pages are conserved and existing user pages untouched; it panics only if a page of the range was mapped already, and never succeeds then |
| VmOps.Machine.DeallocUvm | Asg02/xv6-2/vm.c:255-279 | with its jump over missing page tables it unmaps and frees exactly the present pages of the range, each once |
| VmOps.Machine.FreeVm | Asg02/xv6-2/vm.c:283-298 | every page of the address space and no other goes back to the free list, once |
| VmOps.Machine.CopyUvm | Asg02/xv6-2/vm.c:315-345 | the child has copies in pages of its own with the same flags and the kernel's mappings, the parent is untouched, and a failure restores the free pages exactly; with all pages present it succeeds if and only if the kernel's space, the page tables and the pages are at most the free ones; it panics only for a missing parent page, and never succeeds with one missing |
| VmOps.Disjoint | Asg02/xv6-2/vm.c:105-115 | the four kernel ranges do not overlap, so mappages never panics "remap" |
| VmOps.KernelMap | Asg02/xv6-2/vm.c:105-115 | that is what the four ranges of kmap add up to |
| VmSpaces.Kernel.Kinit | Asg02/xv6-2/kalloc.c:31-53 | memory given to the allocator becomes free, and the partition is kept |
| VmSpaces.Kernel.Boot | Asg02/xv6-2/main.c:20-35 | kinit1, the kernel's page directory and kinit2 leave every page from the end of the kernel on free or in that directory's space; a kernel of more than 4 MB, and only that, panics; there is no page directory exactly when fewer than 65 pages lie between the kernel and 4 MB |
| VmSpaces.Kernel.TakePage | Asg02/xv6-2/proc.c:95 | a kernel stack or pipe page comes off the free list, or the list is empty; the partition is kept |
| VmSpaces.Kernel.GivePage | Asg02/xv6-2/proc.c:381 | it becomes free again and no other page changes |
| VmSpaces.Kernel.Setup | Asg02/xv6-2/vm.c:118-136 | a new space with the kernel's mappings and no user page, made of free pages, or nothing changes; it fails exactly with fewer than 65 free pages |
| VmSpaces.Kernel.Growproc | Asg02/xv6-2/proc.c:158-174 | growing succeeds if and only if it stays below KERNBASE and the pages and missing page tables are free, and otherwise changes no mapping; shrinking unmaps the right pages; the process has exactly the pages below its size afterwards if and only if it did not shrink to nothing; no other space, kernel stack or pipe page changes |
| VmSpaces.Kernel.Fork | Asg02/xv6-2/proc.c:193-198 | the child gets a space of its own out of free pages with the parent's contents and size if and only if there are enough, or nothing changes; every existing space and kernel page is untouched |
| VmSpaces.Kernel.ForkProcess | Asg02/xv6-2/proc.c:180-198 | fork gets both a kernel stack and a copy of the parent, exactly if pages for both are free, or neither, with free pages, spaces and kernel pages exactly as before |
| VmSpaces.Kernel.Release | Asg02/xv6-2/proc.c:383 | a dead child's pages become free and no other space or kernel page changes |
| VmSpaces.Kernel.Reap | Asg02/xv6-2/proc.c:381-383 | wait frees the child's kernel stack and exactly its pages |
| VmSpaces.Exchange | Asg02/xv6-2/vm.c:221-279 | exchanging pages between one space and the free list keeps free pages, kernel pages and spaces a partition of physical memory |
| VmSpaces.OthersSpaces | Asg02/xv6-2/vm.c:103-104 | a space whose pages nobody touched keeps its mappings, the kernel's among them |
| VmSpaces.Join | Asg02/xv6-2/vm.c:315-345 | so does making a new space of free pages |
| VmSpaces.Drop | Asg02/xv6-2/vm.c:283-298 | so does releasing a space |
| VmSpaces.Move | Asg02/xv6-2/kalloc.c:59-95 | so does moving pages between the kernel and the free list |
| VmSpaces.SizedCut | Asg02/xv6-2/proc.c:166-169 | shrinking to zero leaves a process whose size claims pages it no longer has |
| Vm.AddTable | Asg02/xv6-2/vm.c:35-55 | a zeroed page table adds no mapping and keeps page ownership |
| Vm.MissingMore | Asg02/xv6-2/vm.c:35-55 | the page tables a range misses are those its first part misses and those the rest then misses |
| Vm.MapPte | Asg02/xv6-2/vm.c:60-80 | mapping a page makes the address space its owner |
| Vm.UnmapPte | Asg02/xv6-2/vm.c:262-276 | unmapping a page ends its ownership and no other |
| Processes.Ptable.Wakeup1 | Asg02/xv6-2/proc.c:549-557 | a slot that is SLEEPING on the channel becomes RUNNABLE, and every other slot is as it was |
| Processes.Ptable.AllocSlot | Asg02/xv6-2/proc.c:73-93 | the first UNUSED slot becomes an EMBRYO with the next pid, or there is none |
| Processes.Ptable.Exit2 | Asg02/xv6-2/proc.c:298-315 | the caller becomes a ZOMBIE with the status; of the others exactly the sleeping parent, and init if there is a zombie among the children, become RUNNABLE, and the children's parent becomes init; exit is the case of status 0 |
| Processes.Ptable.Wait2 | Asg02/xv6-2/proc.c:363-404 | the first zombie child is reaped with its pid and status; otherwise the caller sleeps exactly if it has children and is not killed; wait is the same without the status |
| Processes.Ptable.Kill | Asg02/xv6-2/proc.c:571-589 | the first slot with the pid is marked and not left SLEEPING, or no slot has it |
| Processes.StepKeeps | Asg02/xv6-2/proc.c:180-589 | every step of fork, exit2, wait2, sleep, wakeup, kill, yield and the scheduler keeps the invariant |
| Processes.ExitKeeps | Asg02/xv6-2/proc.c:298-315 | exit keeps it, although the parent is woken before the state becomes ZOMBIE |
| Processes.ReapKeeps | Asg02/xv6-2/proc.c:378-391 | reaping keeps it |
| Processes.ForkKeeps | Asg02/xv6-2/proc.c:180-222 | each of the four visible steps of fork keeps it |
| Processes.RunKeeps | Asg02/xv6-2/proc.c:414-448 | so does every run, on any number of processors |
| Processes.Lifecycle | Asg02/xv6-2/proc.c:180-404 | in every reachable state parents are live, pids in use are distinct, a parent asleep in wait has a child and no zombie child, each exited pid is a zombie or reaped once with its own status, and no process is on two processors |
| Processes.StateStep | Asg02/xv6-2/proc.c:73-589 | a step changes the state of a slot only along the edges of the life cycle, and a step named on an edge always does |
| Processes.AsleepIff | Asg02/xv6-2/proc.c:509-566 | in every run a process is asleep on a channel if and only if it went to sleep there and has met neither a wakeup of that channel nor a kill since |
| Processes.SleepStep | Asg02/xv6-2/proc.c:509-589 | what one step does to a sleeper |
| Processes.KillWakes | Asg02/xv6-2/proc.c:571-589 | kill leaves its target marked and awake, whatever it slept on, and touches no other slot |
| Processes.KillHits | Asg02/xv6-2/proc.c:571-589 | in every run kill reaches a process if and only if one in use has that pid; a free slot it marks instead has pid 0 or the pid of the fork that last failed there |
| Processes.StalePid | Asg02/xv6-2/proc.c:88-98 | in every run a free slot has a non-zero pid if and only if its last use was a fork that failed, and then it is that fork's pid |
| Processes.KilledIff | Asg02/xv6-2/proc.c:378-391 | in every run a slot is marked killed if and only if a kill hit it since it was last reaped |
| Processes.BornKilledIff | Asg02/xv6-2/proc.c:73-93 | in every run a process starts out killed if and only if a kill hit its slot, while free or an EMBRYO, after the last process there was reaped |
| Processes.SlotStep | Asg02/xv6-2/proc.c:180-589 | what one step of the kernel can do to the pid, the killed mark and the use of a slot |
| Processes.BornKilled | Asg02/xv6-2/proc.c:571-589 | kill(0) succeeds on a free slot, and the process next made there starts out killed |
| Processes.FailedForkKilled | Asg02/xv6-2/proc.c:193-198 | a kill of a child whose fork then fails leaves a free slot with its pid and the killed mark |
| Pipes.Counters | Asg02/xv6-2/pipe.c:78-121 | the wrapping counters tell full from empty and how full, at any number of bytes ever stored |
| Pipes.StoreByte | Asg02/xv6-2/pipe.c:93 | storing a byte keeps the ring the queue of undelivered bytes |
| Pipes.TakeByte | Asg02/xv6-2/pipe.c:116 | the byte taken is the oldest undelivered one |
| Pipes.Pipe.WriteSome | Asg02/xv6-2/pipe.c:84-94 | the bytes stored are appended in order until the pipe is full |
| Pipes.Pipe.ReadSome | Asg02/xv6-2/pipe.c:113-117 | the oldest bytes come out in order, as many as wanted and there |
| PipeProtocol.StepKeeps | Asg02/xv6-2/pipe.c:59-121 | every step of any process keeps the locks, the queue, the open ends and the writers' wakeups |
| PipeProtocol.WritersKeep | Asg02/xv6-2/proc.c:509-566 | a writer asleep or falling asleep has a full pipe with an open read end, or the holder of the pipe's lock is going to wake it |
| PipeProtocol.ReadersStep | Asg02/xv6-2/pipe.c:84-94 | a step leaves a reader without a wakeup to come if and only if a writer returns -1 from a full pipe while a reader sleeps |
| PipeProtocol.RunKeeps | Asg02/xv6-2/pipe.c:59-121 | this over every run |
| PipeProtocol.NoLostWakeup | Asg02/xv6-2/pipe.c:78-121 | with the lock free, sleeping writers mean a full pipe that can be read and, unless such a step happened, sleeping readers mean an empty pipe that can be written; delivered bytes are a prefix of stored bytes |
| PipeProtocol.WriterSent | Asg02/xv6-2/pipe.c:78-100 | in every run a process in pipewrite has stored exactly the first bytes of its buffer, in order |
| PipeProtocol.WriterDone | Asg02/xv6-2/pipe.c:78-100 | it returns its count only when all of its buffer is stored |
| PipeProtocol.ReaderGot | Asg02/xv6-2/pipe.c:113-117 | the bytes a reader has copied are those delivered last, in order |
| PipeProtocol.ReaderDone | Asg02/xv6-2/pipe.c:102-121 | piperead returns as many bytes as it was called for or all there were, and none only when the pipe is drained and its write end closed |
| PipeProtocol.CallKept | Asg02/xv6-2/pipe.c:78-121 | through all sleeping and waking a process works on what it was called with |
| PipeProtocol.LostWakeup | Asg02/xv6-2/pipe.c:85-89 | a run that ends with both locks free, a full pipe and a reader asleep |
| PipeProtocol.LastClose | Asg02/xv6-2/pipe.c:59-75 | when the second end is closed nobody else is in or waiting for the pipe, so it can be freed |
| Shell.Tok | Asg02/xv6-2/sh.c:265-308 | a token's positions advance through the text, and a word is a maximal run of word characters |
| ShellGrammar.TokenIs | Asg02/xv6-2/sh.c:265-308 | what a token is, where it starts and ends, and that only white space lies between tokens |
| Shell.GetToken | Asg02/xv6-2/sh.c:265-308 | the three scanning loops compute that token |
| Shell.Peek | Asg02/xv6-2/sh.c:310-320 | the cursor moves to the next non-blank, which is compared with the set |
| Shell.ParseRedirs | Asg02/xv6-2/sh.c:374-397 | the redirections in order, or the panic for a missing file |
| Shell.ParseExec | Asg02/xv6-2/sh.c:415-446 | a block, or redirections and fewer than MAXARGS arguments, or the panics |
| Shell.ParseBlock | Asg02/xv6-2/sh.c:399-413 | a parenthesised line and its redirections |
| Shell.ParsePipe | Asg02/xv6-2/sh.c:361-372 | a pipeline, nested to the right |
| Shell.ParseLine | Asg02/xv6-2/sh.c:344-359 | the mutually recursive parser ends on every text, by the text that remains |
| Shell.ParseCmd | Asg02/xv6-2/sh.c:327-342 | the whole text is used, or the leftovers panic |
| ShellGrammar.ParserIsGrammar | Asg02/xv6-2/sh.c:327-446 | the parser builds a command from a text if and only if the grammar gives the tokens of the text that command: words and redirections in any order, redirections nested first innermost, pipes and lists to the right |
| ShellGrammar.PanicIsFault | Asg02/xv6-2/sh.c:327-446 | a text that is refused has the mistake its panic names |
| ShellWords.LineWords | Asg02/xv6-2/sh.c:344-446 | every word of a parsed command is a whole word of the text, and every argument vector has room for its terminator |
| ShellWords.Nulterminate | Asg02/xv6-2/sh.c:449-493 | a NUL is written at the end of each word and nowhere else |
| ShellWords.WordReads | Asg02/xv6-2/sh.c:449-493 | no NUL lands inside a word, so every word reads as it was typed |
| ShellWords.ParseLineInPlace | Asg02/xv6-2/sh.c:327-342 | after parsecmd each word of the command is a C string equal to its text, and a panic leaves the buffer alone |
| ShellPrint.LineParses | Asg02/xv6-2/sh.c:344-446 | a printed command parses back wherever it stands in a text |
| ShellPrint.RoundTrip | Asg02/xv6-2/sh.c:327-446 | printing any command with proper words and parsing it gives the same command |
| ShellPrint.TextProper | Asg02/xv6-2/sh.c:265-446 | every command that a text parses to has proper words |
| ShellPrint.Reparse | Asg02/xv6-2/sh.c:327-446 | whatever text a command was parsed from, printing it and parsing that gives the same command |
| Consoles.Counters | Asg02/xv6-2/console.c:181-187 | r, w and e tell empty, full and the length of the line under wrap-around |
| Consoles.Console.KillLine | Asg02/xv6-2/console.c:203-209 | control-U erases exactly the uncommitted line |
| Consoles.Console.Type | Asg02/xv6-2/console.c:216-228 | the key goes on the line, and the line is committed and readers woken exactly at newline, control-D or a full buffer |
| Consoles.Console.Intr | Asg02/xv6-2/console.c:191-233 | any keys do to the buffer what they do to the editor; committed bytes are never changed |
| Consoles.Console.Read | Asg02/xv6-2/console.c:235-271 | committed bytes are delivered in order up to a newline, the count or a control-D, which stays in the buffer unless nothing was read |
| Consoles.PlainKeys | Asg02/xv6-2/console.c:191-233 | plain keys and return hand over exactly the typed line; control-U drops it |
| Consoles.Commits | Asg02/xv6-2/console.c:216-228 | control-D hands over the line with itself, and so does the byte that fills the buffer |
| Consoles.TakesBack | Asg02/xv6-2/console.c:210-215 | delete and control-H take back the last byte of the line and never a committed one |
| Consoles.Ignored | Asg02/xv6-2/console.c:196-217 | a process listing, a zero and a byte for which there is no room change nothing |
| Consoles.BackspaceUndoes | Asg02/xv6-2/console.c:210-215 | backspace takes back a plain key |
| Consoles.TypedAndTakenBack | Asg02/xv6-2/console.c:191-233 | any plain keys, taken back one by one, leave no trace |
| Grep.MatchHere | Asg02/xv6-2/grep.c:85-96 | true if and only if the text can be cut into instances of the pattern's items, from its start |
| Grep.MatchStar | Asg02/xv6-2/grep.c:99-106 | the same with a run of c in front |
| Grep.Match | Asg02/xv6-2/grep.c:72-82 | true if and only if some suffix begins with the pattern, or the whole text does for a pattern with ^ |
| Grep.Literal | Asg02/xv6-2/grep.c:85-106 | a pattern without special characters begins exactly the texts that begin with it |
| Grep.AnyOne | Asg02/xv6-2/grep.c:93-94 | a dot takes any one character |
| Grep.AnyRun | Asg02/xv6-2/grep.c:99-106 | a starred dot takes anything |
| Grep.StarUnrolls | Asg02/xv6-2/grep.c:99-106 | a starred character is none of it, or one and then the same again |
| Grep.BeginsCons | Asg02/xv6-2/grep.c:85-106 | a text begins with items exactly if the first takes a prefix and the rest the remainder |
| Crc32.TabStep | Asg02/xv6-2/crc32.c:6-50 | each table entry is eight bit-steps of its index, whatever the other bits |
| Crc32.StepIs | Asg02/xv6-2/crc32.c:76-77 | one table look-up equals eight bit-steps |
| Crc32.Compute | Asg02/xv6-2/crc32.c:71-79 | the loop computes the bit-at-a-time CRC with polynomial 0xEDB88320 |
| Crc32.Chaining | Asg02/xv6-2/crc32.c:71-79 | the CRC of a message can be computed piece by piece |
| Crc32.OneByteDetected | Asg02/xv6-2/crc32.c:71-79 | changing any one byte of a message changes its CRC |
| Crc32.LeadingZeroDetected | Asg02/xv6-2/crc32.c:71-79 | a zero byte in front of a message changes its CRC |
| Crc32.Residue | Asg02/xv6-2/crc32.c:71-79 | a message followed by its CRC, low byte first, has the CRC 0x2144DF1C |

## Left out

- Directories, path names, link counts, the inode cache (`iget`, `iput`) and device files: not modelled.
- Hardware, boot code, interrupts, `swtch`, system-call dispatch, `exec`, screen output and the other user programs: not modelled.
- Weak memory and spinning: a section under a spinlock is one step or a few named steps; liveness and fairness are not stated.
- Sleep locks of buffers and inodes: operations require the lock to be free instead of waiting for it.
- The interleaving of file-system operations inside one transaction; `GroupCommit` has the interleaving of begin_op, log_write and end_op only.
- `copyout`, `loaduvm`, `inituvm`, `clearpteu` and the stacks of the other processors at boot: they would add members of the kinds already present.
- ShellGrammar.PanicIsFault: says what is wrong with a text that is refused, not which of several mistakes is reported.
- Processes.Lifecycle: `nextpid` is unbounded, so it speaks of runs before the C int overflows.
- Processes.StepKeeps: the unlocked writes of fork and allocproc are single steps; files, memory and the kernel stack of a process are not part of its slot.
- VmOps.Machine.Kfree: requires a page that is not free; freeing one twice ties a knot in the source's list.
- VmOps.Machine.MapPages: user pages are mapped one at a time and not shared, as all callers do.
- VmOps.Machine.CopyUvm: requires a size up to KERNBASE.
- VmOps.Machine.AllocUvm: a page table added before a failure may stay; what its clean-up leaves of a range that had mapped pages is stated for other spaces and the free list only.
- VmOps.Machine.SetupKvm: requires the kernel's data to start above 1 MB and below PHYSTOP, as the linker places it.
- VmOps.Machine.DeallocUvm: requires an old size up to KERNBASE, as all callers pass.
- VmSpaces.Kernel.Growproc: requires a process size below KERNBASE, which allocuvm guarantees.
- Log.Log.LogWrite: for a block inside the log area only the cache's soundness is stated.
- Log.Log.Commit: readers hold what they hold for the length of the commit, and no logged block; `LogReaders.CommitAmong` is the commit without these limits.
- Log.Log.EndOp: the same limits, since its commit is `Log.Log.Commit`.
- LogReaders.CommitAmong: readers act between the copies of a commit, not between the two breads of one copy, and leave the log area alone.
- File.FileWrite: requires an inode that is not a device.
- FileCrash.WriteCrash: each chunk commits by itself, as it does when no other operation is open; that its commit lists the blocks it logged is `LogOps.RunOps`.
- LogOps.RunOp: one operation at a time; the group commit of several is in `GroupCommit` and `Log` only.
- Mkfs.Image.Finish: requires the root directory to be shorter than the longest file.
- Mkfs.Build: requires at most ninodes - 2 files.
- GroupCommit.RoomForNewBlocks: speaks of operations that log at most MAXOPBLOCKS new blocks; `File` proves that of filewrite only.
- Umalloc.Allocator.Malloc: requires requests up to the limit of `Umalloc.RequestLimit`, and sbrk to return increasing addresses.
- Umalloc.Allocator.Free: requires a block that malloc handed out and that is still in use.
- FileSys.FileSystem.WriteI: after the panic "out of blocks" only soundness is stated.
- Shell.ParseExec: the argument vector that the source fills after wrapping its node is collected first and the node built at the end.
- Consoles.Console.Read: one stretch between two sleeps; a call that sleeps is several of them.
- Pipes.Pipe.WriteSome: one stretch between two sleeps of pipewrite; the sleeping is in `PipeProtocol`.
