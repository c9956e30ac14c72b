# A verified model of the mCertiKOS kernel

This project models the parts of the mCertiKOS teaching kernel whose correctness depends on state kept over many
calls: the write-ahead log over the buffer cache, files and the free-block bitmap, directories and link counts, mkfs,
pipes and the shell pipelines built on them, descriptors, the scheduler, page tables and user memory, memory quotas,
and rendezvous messages. `dafny verify dfyconfig.toml` checks everything.

Code that updates tables in place is modelled by classes and methods with loops; each method is proved against a
specification function, and the promises of the system are proved of those functions and of the state the methods
keep. Protocols between threads are step systems: a step is one critical section, and the theorems hold for every
run of steps in any order.

How the files follow the kernel:

- `Bytes`, `Params`, `Sequences`: bytes and 32-bit words in blocks and pages; constants; taking an element out of a
  list.
- `BufferCache`, `LogSpec`, `Log`: `bufcache.c` and `log.c`. Every disk write is recorded, so that a crash is a prefix
  of the record.
- `Bitmap`, `Inodes`, `Dinodes`, `FileSystem`, `Mkfs`, `MakeDisk`: `block.c`, `inode.c`, `file_write`, and `mkfs.c` up
  to its whole `main`. A ghost map from each block in use to the one address slot that names it carries the ownership
  argument.
- `Journal`, `Transactions`: the block writes of a file operation passed through the log. This is where the two halves
  meet: a crash at any disk write leaves the old or the new file system, whole.
- `Dirents`, `Directories`, `Links`, `DirTree`, `FreshTree`, `TreeCrash`: `dir.c` on the file layer, create, link and
  unlink of `sysfile.c` on the tree of inodes with its reference counts, the same calls on the bytes, proved to do the
  same to the tree that the bytes stand for, the tree that mkfs leaves, and the calls as transactions, which leave the
  old or the new tree after any crash.
- `Pipe`, `SharedPipe`, `PipeCalls`, `Pipeline`, `PipelineRuns`, `Descriptors`, `PipeFiles`, `Wiring`, `Shell`,
  `PipelineFds`: pipes from the ring buffer over whole calls by many threads up to whole runs of `CAT f | s2 | ... | sk`,
  the accounting of descriptors that end-of-file depends on, the two put together, which process the shell gives which
  end of which pipe, file or console, and that the runs see the ends that the descriptors hold.
- `ReadyQueue`, `Scheduler`, `Turns`: the linked ready queue, the scheduler over it, and what becomes of a thread over
  whole runs.
- `PageAlloc`, `Containers`, `PageTables`, `Paging`, `Faults`, `UserCopy`: physical pages, quotas, two-level page tables
  that live in the physical pages, the pages that a range of addresses still needs, and copies across the user
  boundary.
- `Rendezvous`, `Delivery`, `MessageQueue`, `Ipc`: synchronous send and receive, what a message carries over whole runs,
  the linked message queue under it, and the copy between address spaces.

Some promises turn out to hold only under a condition. In each case the code is modelled as it is and a lemma says
exactly when it is right, beside an input for which it is not: `Containers.CanConsumeExactly`, `RefundExactly` and
`BootExactly`, `UserCopy.InRangeExactly`, `Scheduler.KillKeepsOkExactly`, `MakeDisk.Make` with `Mkfs.RootSizeExactly`,
`PageAlloc.SecondAttempt`, `MessageQueue.UnlinkExactly`, and the calls of `Links.FsTree` in a removed directory. Where
comments and code disagree the model follows the code: the `-1` exit of `pipe_write` does not wake the readers,
`container_alloc` keeps the charge when no page is found, and `run_pipeline` closes its last input descriptor twice.

## Model

| member | source | states |
|---|---|---|
| `Bytes.PutThenGet` | mCertiKOS/kern/vmm/MPTIntro/MPTIntro.c:83-97 | a stored 32-bit word reads back, and neither words nor bytes outside it change |
| `BufferCache.Disk.WriteSector` | mCertiKOS/kern/dev/disk/ide.c:125-161 | one sector changes as a whole and the disk is appended to the record of disks passed through |
| `BufferCache.PushFront` | mCertiKOS/kern/fs/bufcache.c:45-53 | linking a node in behind the head gives the ring of the sequence with it in front |
| `BufferCache.Unlink` | mCertiKOS/kern/fs/bufcache.c:124-142 | unlinking a node gives the ring of the sequence without it |
| `BufferCache.FullExactly` | mCertiKOS/kern/fs/bufcache.c:82-92 | no buffer can be recycled exactly when as many sectors are held or pinned as there are buffers |
| `BufferCache.ViewAfter` | mCertiKOS/kern/fs/bufcache.c:97-118 | filling or rewriting one buffer changes what plain storage would show at that one sector only |
| `BufferCache.EvictionKeepsView` | mCertiKOS/kern/fs/bufcache.c:82-90 | recycling a clean idle buffer loses no update |
| `BufferCache.BufCache.constructor` | mCertiKOS/kern/fs/bufcache.c:38-54 | all buffers are in the ring, none is used, and the cache shows the disk |
| `BufferCache.BufCache.Find` | mCertiKOS/kern/fs/bufcache.c:69-79 | the buffer that holds the sector if there is one; walking the ring ends |
| `BufferCache.BufCache.FindVictim` | mCertiKOS/kern/fs/bufcache.c:82-90 | of the buffers that are neither busy nor dirty the one whose last release is longest ago; none exactly if every buffer is in use |
| `BufferCache.BufCache.Get` | mCertiKOS/kern/fs/bufcache.c:61-92 | sleeps exactly if the sector is held, fails only if every buffer is in use, else returns the one busy buffer of the sector, recycling the least recently released one if the sector was in none; contents as before |
| `BufferCache.BufCache.Read` | mCertiKOS/kern/fs/bufcache.c:97-106 | sleeps exactly if the sector is held, fails exactly if it is in no buffer and every buffer is in use, and else returns the latest contents in a busy buffer |
| `BufferCache.BufCache.Write` | mCertiKOS/kern/fs/bufcache.c:111-118 | the disk gets the buffer's data, the buffer is clean, the contents shown do not change |
| `BufferCache.BufCache.Release` | mCertiKOS/kern/fs/bufcache.c:124-142 | the buffer moves to the front of the order, which is the order of last releases, and it is no longer held |
| `BufferCache.BufCache.HoldsItsData` | mCertiKOS/kern/fs/bufcache.c:97-106 | a valid busy buffer is what the cache shows for its sector |
| `BufferCache.BufCache.AgreesWithDisk` | mCertiKOS/kern/fs/bufcache.c:82-90 | a sector neither held nor pinned is shown as it is on disk |
| `LogSpec.HeaderRoundTrip` | mCertiKOS/kern/fs/log.c:85-113 | a header block written and read back gives the same count and sectors |
| `LogSpec.InstalledStandsForSame` | mCertiKOS/kern/fs/log.c:69-82 | a disk with any number of log entries installed stands for the same contents |
| `LogSpec.ClearedStandsForSame` | mCertiKOS/kern/fs/log.c:115-122 | after all entries are installed the header may be cleared; the disk then is those contents |
| `LogSpec.RecoveryCrashSafe` | mCertiKOS/kern/fs/log.c:115-122 | every disk recovery passes through stands for the same contents, and its end has them in place with an empty log |
| `LogSpec.RepeatedCrashesSafe` | mCertiKOS/kern/fs/log.c:53-66 | any number of crashes during recovery change nothing of what the disk stands for |
| `LogSpec.HeaderWritten` | mCertiKOS/kern/fs/log.c:101-113 | the header write is the commit point: before it the old contents, after it the new ones |
| `LogSpec.UncommittedInvisible` | mCertiKOS/kern/fs/log.c:159-181 | blocks written to the log area before the commit show nowhere |
| `LogSpec.CommitCrashSafe` | mCertiKOS/kern/fs/log.c:135-149 | every disk that a commit passes through stands for the new contents |
| `LogSpec.CrashAtomicity` | mCertiKOS/kern/fs/log.c:69-181 | after a crash at any write of a commit and any history of crashes in recovery, recovery leaves all of the old contents or all of the new, by whether the header was written |
| `Log.TransLog.constructor` | mCertiKOS/kern/fs/log.c:53-66 | for a log of any size: the disks written are exactly the recovery steps, and the home sectors end as the contents the disk stood for |
| `Log.TransLog.ReadHead` | mCertiKOS/kern/fs/log.c:85-96 | the in-memory header is the one on disk |
| `Log.TransLog.WriteHead` | mCertiKOS/kern/fs/log.c:101-113 | one write, of the header block that encodes the in-memory header |
| `Log.TransLog.InstallOne` | mCertiKOS/kern/fs/log.c:69-82 | the home sector gets its log block, in one write, and is no longer pinned |
| `Log.TransLog.InstallTrans` | mCertiKOS/kern/fs/log.c:69-82 | the disks written are exactly the installation steps |
| `Log.TransLog.TryBegin` | mCertiKOS/kern/fs/log.c:124-133 | enters exactly if no transaction is running, and starts it empty |
| `Log.TransLog.LogWrite` | mCertiKOS/kern/fs/log.c:159-181 | records the block, reuses the slot of a sector logged before, pins the buffer, and touches no home sector; refuses exactly when LOGSIZE or the log region is used up or every buffer is in use |
| `Log.TransLog.Update` | mCertiKOS/kern/fs/log.c:151-181 | reading, changing, logging and releasing a block changes the contents shown at that sector only; with no buffer held and room in the log it succeeds |
| `Log.TransLog.CommitTrans` | mCertiKOS/kern/fs/log.c:135-149 | the disks written are exactly the commit steps, the home sectors end as what readers saw before, and nothing stays pinned |
| `Log.TransLog.AfterIsWhatWasRead` | mCertiKOS/kern/fs/log.c:135-181 | what the commit produces is what the cache showed during the transaction |
| `Bitmap.SetBitBits` | mCertiKOS/kern/fs/block.c:42-45 | setting or clearing a bit of a byte changes that bit only |
| `Bitmap.MarkBits` | mCertiKOS/kern/fs/block.c:30-73 | marking a block changes the mark of that block only |
| `Bitmap.WriteKeepsMarks` | mCertiKOS/kern/fs/dinode.h:20-39 | writes outside the bitmap leave all marks alone |
| `Inodes.AllocationInvisible` | mCertiKOS/kern/fs/block.c:30-54 | handing out a block changes no address and no block in use |
| `Inodes.DirectLinked` | mCertiKOS/kern/fs/inode.c:237-248 | filling a direct slot keeps all blocks distinct and the bitmap exact |
| `Inodes.EntryLinked` | mCertiKOS/kern/fs/inode.c:250-262 | filling an indirect entry keeps all blocks distinct and the bitmap exact |
| `Inodes.LinkInvisible` | mCertiKOS/kern/fs/inode.c:237-265 | filling an empty slot changes no byte of any file |
| `Inodes.DataWritten` | mCertiKOS/kern/fs/inode.c:349-379 | writing part of a block changes those bytes of that file and nothing else |
| `Inodes.MappedAfter` | mCertiKOS/kern/fs/inode.c:237-265 | filling the next slot of a file without holes leaves it without holes, one block longer |
| `FileSystem.FileSys.BlockAlloc` | mCertiKOS/kern/fs/block.c:30-54 | the lowest clear bit, set, with the block zeroed; all lower blocks are in use |
| `FileSystem.FileSys.ScanBlock` | mCertiKOS/kern/fs/block.c:40-51 | the first clear bit of one bitmap block, if it is below the end of the disk |
| `FileSystem.FileSys.BlockFree` | mCertiKOS/kern/fs/block.c:57-73 | clears the bit of a block that is marked |
| `FileSystem.FileSys.LinkDirect` | mCertiKOS/kern/fs/inode.c:237-248 | the slot gets a free data block, ownership and all bytes are kept |
| `FileSystem.FileSys.LinkEntry` | mCertiKOS/kern/fs/inode.c:250-262 | the entry gets a free data block, ownership and all bytes are kept |
| `FileSystem.FileSys.Bmap` | mCertiKOS/kern/fs/inode.c:237-265 | for any block number below the limit: the address of the block; nothing changes if it is there, and otherwise exactly this slot, and the indirect block if it was missing, are filled, with ownership and every byte kept |
| `Dinodes.PutGetInode` | mCertiKOS/kern/fs/inode.c:66-82 | an inode stored in its slot of an inode block is read back |
| `Dinodes.InodeLayout` | mCertiKOS/kern/fs/dinode.h:9-16 | type, link count, size and addresses are at bytes 0, 6, 8 and 12 of the 64, and no other byte changes |
| `Dinodes.PutInodeFrame` | mCertiKOS/kern/fs/inode.c:66-82 | storing an inode changes only the bytes of its slot |
| `Dinodes.InodeStored` | mCertiKOS/kern/fs/dinode.h:20-27 | storing inode i changes what the inode blocks hold for inode i only |
| `FileSystem.InodeBlockWritten` | mCertiKOS/kern/fs/inode.c:66-82 | a write to an inode block shows in no mark, no address and no byte of a file |
| `FileSystem.FileSys.constructor` | mCertiKOS/kern/fs/inode.c:139-169 | on any disk that is a file system, reading every inode from its block gives a valid file layer |
| `FileSystem.FileSys.InodeUpdate` | mCertiKOS/kern/fs/inode.c:66-82 | the inode block holds the in-memory inode, the other inodes and all files are as before |
| `FileSystem.FileSys.InodeRead` | mCertiKOS/kern/fs/inode.c:320-344 | exactly the clamped slice of the content; nothing is allocated or logged; -1 exactly for an offset past the end or an overflowing length |
| `FileSystem.FileSys.WriteChunk` | mCertiKOS/kern/fs/inode.c:366-372 | the bytes of the chunk change in this file and nothing else does |
| `FileSystem.FileSys.InodeWrite` | mCertiKOS/kern/fs/inode.c:349-379 | a splice at the offset; every other byte of every file is kept, every file has exactly the blocks its size needs, and the inode blocks hold all inodes, whatever was allocated; it fails only with no free data block, and never within the blocks that the file has |
| `FileSystem.WriteIsSplice` | mCertiKOS/kern/fs/inode.c:349-379 | the new content is the old one overwritten from the offset and extended, and other contents are equal |
| `FileSystem.FileSys.WriteTransaction` | mCertiKOS/kern/fs/file.c:174-193 | one transaction of a write logs at most 7 sectors on a disk with one bitmap block, none of them in the log; its block writes replayed on the old store give the new one |
| `FileSystem.LoggedInHome` | mCertiKOS/kern/fs/log.c:159-181 | no sector that inode_write logs is in the log region |
| `FileSystem.LogBound` | mCertiKOS/kern/fs/file.c:168-193 | at any offset a chunk reaches at most 4 data blocks, which with bitmap, indirect and inode block makes 7 |
| `FileSystem.FileSys.FileWrite` | mCertiKOS/kern/fs/file.c:149-197 | the transactions together are one splice of the bytes written, up to the size limit |
| `FileSystem.FileSys.InodeTrunc` | mCertiKOS/kern/fs/inode.c:274-302 | frees exactly the blocks of this inode, each of them marked, and keeps every other file |
| `FileSystem.FileSys.FreeAll` | mCertiKOS/kern/fs/inode.c:274-300 | every slot of the inode is released, whatever it holds, and only bitmap blocks are written |
| `FileSystem.AllFreed` | mCertiKOS/kern/fs/inode.c:274-302 | once every slot is released ownership and the bitmap are exact again without this inode |
| `FileSystem.LowestIsFree` | mCertiKOS/kern/fs/block.c:30-54 | the lowest clear bit is a free data block, or there is none: no log sector is handed out while a data block is free |
| `Journal.Appended` | mCertiKOS/kern/fs/log.c:151-181 | one more block write changes that block of the replayed store and adds that sector |
| `Transactions.PassOn` | mCertiKOS/kern/fs/log.c:151-181 | the log takes the next block write if the transaction fits its slots and the buffers; no home sector on disk changes, and a panic writes nothing |
| `Transactions.HeaderDecides` | mCertiKOS/kern/fs/log.c:101-149 | the header write splits the disks of a transaction: each one before it stands for the old store, and each one from it on for the new |
| `Transactions.Commit` | mCertiKOS/kern/fs/log.c:124-149 | the block writes of a file operation become one transaction if they fit the log: readers see the new store, and there is one commit point, with every disk before it standing for the old store and every later one for the new; a panic leaves every disk standing for the old store |
| `Transactions.WriteThrough` | mCertiKOS/kern/fs/file.c:174-193 | one transaction of a write taken to the disk, on any disk and log: the splice is done, file system and log are valid, and one commit point splits the disks into those that stand for the store before and those that stand for the store after; it gives up only with no free data block, more than one bitmap block, or a log of fewer than 9 sectors |
| `Transactions.FileWriteThrough` | mCertiKOS/kern/fs/file.c:149-197 | a whole file_write taken to the disk: its disks stand for the stores after 0, 1, 2, ... transactions in this order, each store the old file overwritten by a whole number of chunks; it gives up only as WriteThrough does |
| `Transactions.HomeDecides` | mCertiKOS/kern/fs/dinode.h:20-39 | only the sectors below the log matter to the file system |
| `Transactions.CrashConsistent` | mCertiKOS/kern/fs/log.c:53-181 | after any number of crashes in recovery from a disk that stands for a store, recovery leaves the file system of that store, with every byte of every file |
| `Transactions.WriteCrashConsistent` | mCertiKOS/kern/fs/file.c:149-197 | a crash at any disk write of a file_write and any crashes in recovery leave a valid file system in which the file is the old one overwritten by the chunks committed so far, and every other file is as it was |
| `Mkfs.FirstBitsAre` | mCertiKOS/kern/fs/mkfs.c:246-260 | the bitmap written has exactly the first bits set |
| `Mkfs.NextBlock` | mCertiKOS/kern/fs/mkfs.c:264-311 | counting up block numbers is what the kernel's allocator would do |
| `Mkfs.EmptyDisk` | mCertiKOS/kern/fs/mkfs.c:113-118 | a disk of zeros with the superblock in block 1 |
| `Mkfs.Maker.constructor` | mCertiKOS/kern/fs/mkfs.c:104-118 | the empty image has the ownership invariant with nothing owned, and holds free inodes |
| `Mkfs.Maker.WriteInode` | mCertiKOS/kern/fs/mkfs.c:191-203 | the inode is in its block; no file changes |
| `Mkfs.Maker.IAlloc` | mCertiKOS/kern/fs/mkfs.c:232-244 | the next inode number gets its type and one link, on disk too |
| `Mkfs.Maker.MapBlock` | mCertiKOS/kern/fs/mkfs.c:275-296 | the block of the file, added as the next free one if missing, with no byte changed; it succeeds exactly if the one or two blocks it takes are left |
| `Mkfs.Maker.IAppend` | mCertiKOS/kern/fs/mkfs.c:264-311 | the bytes are appended to the file, every other file is kept, every file has exactly its blocks, and the inode is on disk; it succeeds exactly if the blocks by which the file grows are left, and takes just those |
| `Mkfs.Maker.Balloc` | mCertiKOS/kern/fs/mkfs.c:246-260 | every block handed out is marked and no other, and the image holds what it held: ownership, inodes and every byte |
| `Mkfs.RootSizeExactly` | mCertiKOS/kern/fs/mkfs.c:161-166 | rounding up the root's size leaves it without a missing block exactly if it was no whole number of blocks |
| `Mkfs.RootSizeMisses` | mCertiKOS/kern/fs/mkfs.c:161-166 | a root of exactly 32 entries gets a size one block too large |
| `Mkfs.Maker.FixRoot` | mCertiKOS/kern/fs/mkfs.c:161-166 | the rounded size is in the inode and on the image; the image stays in order exactly if the size was no whole number of blocks, and the entries that the new size shows are free ones |
| `MakeDisk.AddEntry` | mCertiKOS/kern/fs/mkfs.c:150-153 | the root gets one entry more at its end, exactly if a block is left where one is needed, and no other file changes |
| `MakeDisk.AddBytes` | mCertiKOS/kern/fs/mkfs.c:155-156 | a file given in pieces of a block holds all of its bytes, exactly if it is no larger than a file may be and its blocks are left |
| `MakeDisk.AddRoot` | mCertiKOS/kern/fs/mkfs.c:120-131 | the root holds "." and ".." and nothing else, exactly if a block is left |
| `MakeDisk.EntryName` | mCertiKOS/kern/fs/mkfs.c:141-152 | the argument without one leading underscore, whole or cut to the size of the field |
| `MakeDisk.AddFile` | mCertiKOS/kern/fs/mkfs.c:133-159 | one file more, exactly if there is an inode, an entry and the blocks for it: its inode, its entry, without a leading underscore, and its bytes |
| `MakeDisk.Make` | mCertiKOS/kern/fs/mkfs.c:73-171 | the whole of mkfs: it succeeds exactly if inodes, root directory, file sizes and blocks suffice, counted beforehand; the kernel can mount the image exactly if the entries of the root do not fill whole blocks, and then it holds exactly the given files under their names |
| `FreshTree.FreshTreeOk` | mCertiKOS/kern/fs/mkfs.c:120-166 | the tree that mkfs makes of files with distinct names, none "." or "..", has exact link counts, a tree and unique names |
| `FreshTree.SameNameTwice` | mCertiKOS/kern/fs/mkfs.c:133-159 | a name given twice, or "." or "..", breaks it |
| `FreshTree.MakeAndMount` | mCertiKOS/kern/fs/mkfs.c:73-171 | what is mounted after mkfs is in order exactly if the names are distinct and none is "." or ".." |
| `Dirents.StrNCmp` | mCertiKOS/kern/lib/string.c:63-72 | 0 exactly if the two fields hold the same name, up to a NUL or their end |
| `Dirents.NameRoundTrip` | mCertiKOS/kern/lib/string.c:125-136 | a name that fits its field reads back as it was stored |
| `Dirents.DirentRoundTrip` | mCertiKOS/kern/fs/dir.c:80-82 | an entry that is stored is read back |
| `Dirents.Encode` | mCertiKOS/kern/fs/dir.c:80-82 | the inode number low byte first, then the name, padded with NULs to its field |
| `Dirents.ParseWrite` | mCertiKOS/kern/fs/dir.c:80-84 | writing one entry's bytes at its offset, which may be the end, puts it among the entries and changes no other |
| `Directories.DirLookup` | mCertiKOS/kern/fs/dir.c:19-51 | reading entry by entry through inode_read: an entry with the name, or -1 exactly if there is none; nothing changes |
| `Directories.FreeEntry` | mCertiKOS/kern/fs/dir.c:71-79 | the first free entry, or the end |
| `Directories.DirLink` | mCertiKOS/kern/fs/dir.c:54-88 | refuses exactly a name that is there; otherwise the entries get the new one in the first free place, through inode_write, and every other file keeps its content; it cannot be written only if no entry is free, the next one starts a new block, and the directory is at its limit or no block is free |
| `Directories.LogIsSmall` | mCertiKOS/kern/fs/sysfile.c:282-463 | what an operation on two inodes and one entry logs is below the log and at most 6 sectors, on a disk with one bitmap block |
| `Links.LinkWritten` | mCertiKOS/kern/fs/dir.c:54-88 | a new entry adds one to the entries that name its inode and none to others |
| `Links.DirCounted` | mCertiKOS/kern/fs/sysfile.c:448-455 | a directory that appears or disappears counts once for its parent, through ".." |
| `Links.FileMade` | mCertiKOS/kern/fs/sysfile.c:419-463 | creating a file keeps link counts, tree and unique names |
| `Links.DirMade` | mCertiKOS/kern/fs/sysfile.c:419-463 | creating a directory keeps link counts, tree and unique names |
| `Links.LinkMade` | mCertiKOS/kern/fs/sysfile.c:282-338 | another name for a file keeps link counts, tree and unique names |
| `Links.FileUnlinked` | mCertiKOS/kern/fs/sysfile.c:358-417 | removing a name of a file keeps link counts, tree and unique names |
| `Links.EmptyDirOnce` | mCertiKOS/kern/fs/sysfile.c:343-356 | a directory with no entries beyond the first two has exactly one name |
| `Links.DirUnlinked` | mCertiKOS/kern/fs/sysfile.c:358-417 | removing an empty directory keeps link counts, tree and unique names; its own count was 1 and its parent stays linked |
| `Links.FreedKeeps` | mCertiKOS/kern/fs/inode.c:193-212 | an inode without links can be freed: no entry names it |
| `Links.FileMadeNowhere` | mCertiKOS/kern/fs/sysfile.c:419-463 | a file created in a directory that has been removed has a link count but no name |
| `Links.LinkMadeNowhere` | mCertiKOS/kern/fs/sysfile.c:282-338 | a link made in a directory that has been removed leaves a count that is one too high |
| `Links.DirMadeNowhere` | mCertiKOS/kern/fs/sysfile.c:419-463 | a directory created in a directory that has been removed hangs on no tree |
| `Links.FsTree.constructor` | mCertiKOS/kern/fs/mkfs.c:120-131 | the root directory alone has the invariant |
| `Links.FsTree.InodeAlloc` | mCertiKOS/kern/fs/inode.c:38-61 | the lowest free inode, or 0 exactly if there is none |
| `Links.FsTree.Create` | mCertiKOS/kern/fs/sysfile.c:419-463 | an existing name changes nothing and leads to a file only if a file was asked for; otherwise a fresh inode with one link is entered in the first free entry; the invariant is kept exactly if the directory still is linked |
| `Links.FsTree.SysLink` | mCertiKOS/kern/fs/sysfile.c:282-338 | succeeds exactly for a file, an existing directory and a new name; every failure restores the state; the invariant is kept exactly if it fails or the directory still is linked |
| `Links.FsTree.IsDirEmpty` | mCertiKOS/kern/fs/sysfile.c:343-356 | exactly whether all entries beyond the first two are free |
| `Links.FsTree.SysUnlink` | mCertiKOS/kern/fs/sysfile.c:358-417 | in any directory: succeeds exactly for a present name other than "." and ".." that is no non-empty directory; the invariant is kept, failures change nothing, and an inode with no name left is freed exactly if nobody refers to it |
| `Links.FsTree.InodePut` | mCertiKOS/kern/fs/inode.c:193-212 | one reference less; the last one frees the inode exactly if it has no links, and no inode in use is without both names and references |
| `Links.FsTree.InodeGet` | mCertiKOS/kern/fs/inode.c:89-133 | one reference more |
| `DirTree.NodeChanged` | mCertiKOS/kern/fs/dir.c:54-88 | the tree that the bytes stand for changes at one node if one file changes |
| `DirTree.LinkEntry` | mCertiKOS/kern/fs/dir.c:54-88 | dir_link on the bytes puts one entry in the tree, or refuses a name that is there; it fails only without room for the entry; every other inode keeps kind, size and bytes |
| `DirTree.CreateFile` | mCertiKOS/kern/fs/sysfile.c:439-462 | on the bytes: the tree gets the new, empty file of type T_FILE, and every inode but the directory keeps kind, size and bytes; it fails only without a free inode or room for the entry |
| `DirTree.CreateDir` | mCertiKOS/kern/fs/sysfile.c:439-462 | on the bytes: the tree gets the new directory with its two entries and one link more for the parent, and every other inode keeps kind, size and bytes; it fails only without a free inode, a block, room for the entry, or room in the parent's link count |
| `DirTree.LinkFile` | mCertiKOS/kern/fs/sysfile.c:310-337 | on the bytes: the tree gets the new name, or is restored if the name is there; every inode but the directory, the linked file too, keeps kind, size and bytes; it fails only without room for the entry or in the link count |
| `DirTree.ClearEntry` | mCertiKOS/kern/fs/sysfile.c:394-396 | on the bytes: the tree loses the entry; the write stays within the directory, so it does not fail on a full disk either |
| `DirTree.DropLink` | mCertiKOS/kern/fs/sysfile.c:403-405 | one link less; the inode is freed exactly if that was the last link and the last reference, and else it keeps its bytes, as all others do |
| `DirTree.UnlinkEntry` | mCertiKOS/kern/fs/sysfile.c:394-405 | on the bytes, whatever the state of the disk: the tree loses the entry, and the inode with its blocks if it was the last name and reference; every other inode but the directory keeps kind, size and bytes, the unlinked file too while it has another name or is held |
| `DirTree.IsDirEmpty` | mCertiKOS/kern/fs/sysfile.c:343-356 | the scan over the bytes agrees with the tree |
| `DirTree.Create` | mCertiKOS/kern/fs/sysfile.c:419-463 | create on the disk: a new name gives the tree with the new file or directory, of that type, whose link counts, tree and unique names are kept exactly if the directory still is linked, with the bytes of all other files kept; an existing name changes nothing and leads to its inode if both are files; it fails only as CreateFile and CreateDir do |
| `DirTree.Link` | mCertiKOS/kern/fs/sysfile.c:300-338 | link on the disk succeeds exactly for a new name, which the tree then has, and else changes nothing of the tree; every file keeps its bytes; it keeps the invariant exactly if it is refused or the directory still is linked, and fails only as LinkFile does |
| `DirTree.Unlink` | mCertiKOS/kern/fs/sysfile.c:374-417 | unlink on the disk succeeds exactly for a present name other than "." and ".." that is no non-empty directory, and then the tree has lost that entry, one link and perhaps the inode, while every file that still has a name or is held keeps its bytes; it always keeps the invariant, on a full disk too |
| `TreeCrash.CreateThrough` | mCertiKOS/kern/fs/sysfile.c:465-563 | create as one transaction: one commit point splits its disks into those that stand for the tree and file contents before and those that stand for them after |
| `TreeCrash.LinkThrough` | mCertiKOS/kern/fs/sysfile.c:300-338 | link as one transaction, in the same sense |
| `TreeCrash.UnlinkThrough` | mCertiKOS/kern/fs/sysfile.c:374-417 | unlink as one transaction, in the same sense; on a disk with one bitmap block and a log of 8 sectors or more it always commits |
| `TreeCrash.TreeSurvives` | mCertiKOS/kern/fs/log.c:53-122 | recovery from any disk that stands for a tree in order, with any number of crashes, leaves that tree: names, link counts, structure, and every byte of every file |
| `TreeCrash.TreeCrashConsistent` | mCertiKOS/kern/fs/log.c:53-181 | a crash at any disk write of such a call leaves, after recovery, the old tree if the header was not written and the new one if it was, in order either way and with the contents of that moment |
| `TreeCrash.CrashSparesFiles` | mCertiKOS/kern/fs/log.c:53-181 | whenever the crash comes, every file that the call does not concern has the bytes it had before the call |
| `Pipe.WrappedCounters` | mCertiKOS/kern/fs/file.c:270-309 | the tests and ring index on counters that wrap at 2^32 agree with those on unbounded ones |
| `Pipe.WriteRegion` | mCertiKOS/kern/fs/file.c:270-290 | between two sleeps a writer appends as many bytes as fit, and sleeps or fails only on a full pipe, by whether a reader is left |
| `Pipe.ReadRegion` | mCertiKOS/kern/fs/file.c:292-309 | a reader sleeps exactly on an empty pipe that can still be written, and else takes the first bytes in flight |
| `Pipe.PipeBuf.Put` | mCertiKOS/kern/fs/file.c:285 | one byte more has been written, in its ring slot |
| `Pipe.PipeBuf.Take` | mCertiKOS/kern/fs/file.c:304 | the oldest byte not yet read |
| `Pipe.PipeBuf.Write` | mCertiKOS/kern/fs/file.c:270-290 | the ring does what the region says on the unbounded sequence |
| `Pipe.PipeBuf.Read` | mCertiKOS/kern/fs/file.c:292-309 | the ring does what the region says on the unbounded sequence |
| `SharedPipe.StepKeepsInv` | mCertiKOS/kern/fs/file.c:73-309 | every step by any reader, writer or closer keeps first-in first-out, no lost wakeup, and exact reference counts and flags |
| `SharedPipe.RunKeepsInv` | mCertiKOS/kern/fs/file.c:253-309 | the invariant holds in every reachable state of a pipe with any number of readers and writers |
| `SharedPipe.Fifo` | mCertiKOS/kern/fs/file.c:270-309 | in every run the bytes read are a prefix of the bytes written and at most 512 are in flight |
| `SharedPipe.OpenExactly` | mCertiKOS/kern/fs/file.c:73-97 | in every run the flag of an end is set exactly while somebody has a descriptor for it or its last holder is still inside the close |
| `SharedPipe.EndOfFile` | mCertiKOS/kern/fs/file.c:292-309 | in every run a read of more than 0 bytes, which looks at the flag, returns none without sleeping exactly when the pipe is drained, nobody has a descriptor to write and no last close is under way |
| `SharedPipe.NoMutualSleep` | mCertiKOS/kern/fs/file.c:253-309 | readers and writers never sleep at the same time, and a sleeper waits for an end that somebody holds or is about to close |
| `PipeCalls.HoldersCounted` | mCertiKOS/kern/fs/file.c:61-97 | in every run a thread has exactly the descriptors that it had, was passed and has not closed |
| `PipeCalls.WritePutsItsBytes` | mCertiKOS/kern/fs/file.c:270-290 | in every run a write puts in the bytes of its buffer from the first on, each once and in order, whatever others write meanwhile; when it returns all are in, unless nobody can read |
| `PipeCalls.RegionReads` | mCertiKOS/kern/fs/file.c:292-309 | a read sleeps exactly on an empty pipe that can still be written, and else takes the first bytes in flight, as many as it asked for or there are |
| `PipeCalls.ClosesItsEnd` | mCertiKOS/kern/fs/file.c:253-268 | pipe_close clears the flag of its own end, and no other step clears a flag |
| `PipeCalls.OnlyReadsTake` | mCertiKOS/kern/fs/file.c:292-309 | only a read takes bytes |
| `PipeCalls.SignalWakesThem` | mCertiKOS/kern/trap/TSyscall/TSyscall.c:454-463 | a signal leaves no reader, or no writer, asleep and changes nothing else |
| `Pipeline.WriterHasReader` | mCertiKOS/user/shell/shell.c:815-848 | a stage that can write has a reader now or to come, so pipe_write never returns -1 in a pipeline |
| `Pipeline.StepKeepsInv` | mCertiKOS/user/shell/shell.c:815-848 | every step of the shell or of a stage keeps: output so far plus what is under way is the composed function of the file |
| `PipelineRuns.RunKeepsInv` | mCertiKOS/user/shell/shell.c:815-848 | the invariant holds over every run in any schedule |
| `PipelineRuns.OutputIsPrefix` | mCertiKOS/user/cat/cat.c:19-52 | at every moment of every run the output is a prefix of the composed functions applied to the file |
| `PipelineRuns.NoLostWakeup` | mCertiKOS/kern/thread/PThread/PThread.c:129-191 | a stage asleep on a pipe finds it empty with a writer open, or full with a reader open |
| `PipelineRuns.NoDeadlock` | mCertiKOS/kern/fs/file.c:253-309 | while anything is unfinished some stage or the shell can run |
| `PipelineRuns.StepDecreases` | mCertiKOS/user/shell/shell.c:815-848 | every step other than a spurious wakeup makes progress towards the end |
| `PipelineRuns.RunsAreBounded` | mCertiKOS/user/shell/shell.c:815-848 | every run ends after a number of steps bounded by the input |
| `PipelineRuns.PipelineCorrect` | mCertiKOS/user/shell/shell.c:815-848 | a run that cannot go on has finished every stage, and its output is the file byte by byte, with every letter replaced by the one of its case 13 away if the ROT13 stages are odd in number, and nothing else changed |
| `PipelineRuns.OutputComposed` | mCertiKOS/user/shell/shell.c:815-848 | that output is the composed functions of the stages applied to the file |
| `PipelineRuns.StageReads` | mCertiKOS/user/cat/cat.c:19-52 | a stage takes up to 512 bytes of what is there and hands on each as it is or with letters moved; with nothing there it sleeps while somebody can write, and else closes |
| `PipelineRuns.SignalWakes` | mCertiKOS/kern/trap/TSyscall/TSyscall.c:454-463 | a signal wakes a sleeping stage with the bytes it holds and changes nothing else |
| `Pipeline.Rot13Char` | mCertiKOS/user/rot13/rot13.c:18-25 | a letter goes to the letter of the same case 13 away, and every other byte to itself |
| `PipelineRuns.Rot13Twice` | mCertiKOS/user/rot13/rot13.c:18-25 | ROT13 applied twice is the identity on every byte |
| `PipelineRuns.EvenRot13GivesBackFile` | mCertiKOS/user/rot13/rot13.c:18-46 | an even number of ROT13 stages among any CAT stages gives back the file |
| `Descriptors.OpenIffHeld` | mCertiKOS/kern/fs/file.c:73-97 | between system calls an end of a pipe is open exactly while some slot of some thread points at its file |
| `Descriptors.CloseKeeps` | mCertiKOS/kern/fs/file.c:73-97 | the last close of an end closes that end only, and frees the pipe exactly when both are closed |
| `Descriptors.CanPipeExactly` | mCertiKOS/kern/fs/file.c:203-251 | a pipe can be made exactly with two files, a pipe and two descriptors free, by count |
| `Descriptors.FileTable.constructor` | mCertiKOS/kern/fs/file.c:17-34 | the empty tables have the invariant |
| `Descriptors.FileTable.FileAlloc` | mCertiKOS/kern/fs/file.c:39-54 | the first free file, with one reference, or none |
| `Descriptors.FileTable.FileDup` | mCertiKOS/kern/fs/file.c:59-68 | one reference more |
| `Descriptors.FileTable.FileClose` | mCertiKOS/kern/fs/file.c:73-97 | one reference less; the last one frees the file and closes its end, and the result is what was closed for good |
| `Descriptors.FileTable.PipeAlloc` | mCertiKOS/kern/fs/file.c:203-251 | succeeds exactly with two free files and a free pipe; a failure leaves everything as it was |
| `Descriptors.FileTable.FdAlloc` | mCertiKOS/kern/fs/sysfile.c:27-41 | the first free slot gets the file, or none is free |
| `Descriptors.FileTable.SysPipe` | mCertiKOS/kern/fs/sysfile.c:163-212 | the first two free slots get the two ends, exactly if files, pipe and slots are there; every failure restores the state |
| `Descriptors.FileTable.CloseBoth` | mCertiKOS/kern/fs/sysfile.c:184-203 | closing both ends of a new pipe undoes its allocation |
| `Descriptors.FileTable.SysClose` | mCertiKOS/kern/fs/sysfile.c:219-242 | empties the slot exactly if it was in use; the tables are those after file_close, and counts and ends stay exact |
| `Descriptors.FileTable.SysOpen` | mCertiKOS/kern/fs/sysfile.c:511-527 | the first free slot gets a new file open on the inode, exactly if both are there; a failure restores the state |
| `Descriptors.FileTable.ConsoleFd` | mCertiKOS/kern/fs/file.c:382-416 | a console file in the slot if a file is free, and all other files keep their kind |
| `Descriptors.FileTable.ConsoleFds` | mCertiKOS/kern/fs/file.c:382-416 | slots 0, 1 and 2 get console files, slot d exactly if more than d files are free; no other slot, pipe or file in use changes |
| `Descriptors.FileTable.InheritFd` | mCertiKOS/kern/trap/TSyscall/TSyscall.c:186-189 | the child's slot points at the parent's file, which has one reference more |
| `Descriptors.FileTable.SpawnFds` | mCertiKOS/kern/trap/TSyscall/TSyscall.c:178-217 | a child gets what its parent passes, in the slot for which it is passed, and console files where none is passed, exactly while there are free files; nobody else's slots change |
| `Descriptors.FileTable.CloseAll` | mCertiKOS/kern/trap/TSyscall/TSyscall.c:536-543 | after exit the thread has no descriptor and all others have theirs |
| `PipeFiles.FlagsTell` | mCertiKOS/kern/fs/file.c:73-97 | the flags in the pipe are set exactly while some slot of some thread points at that end |
| `PipeFiles.ReadPipe` | mCertiKOS/kern/fs/file.c:292-309 | file table and ring together: a read takes the smaller of its length and what is in flight, sleeps exactly on a drained pipe that some slot can still write, and for more than 0 bytes returns none exactly on a drained pipe that no slot can write |
| `PipeFiles.WritePipe` | mCertiKOS/kern/fs/file.c:270-290 | file table and ring together: a write puts the smaller of its rest and the room, and if that is not all sleeps exactly if some slot can read the pipe, and else fails |
| `PipeFiles.CloseDescriptor` | mCertiKOS/kern/fs/file.c:73-97 | a slot in use is emptied and no other changes; the readers are woken exactly when the last slot that can write goes, and the writers when the last that can read goes; no byte is lost |
| `Wiring.PipeEnds` | mCertiKOS/kern/fs/sysfile.c:163-212 | sys_pipe gives the two ends of an unused pipe to two slots of the caller and changes no other end |
| `Wiring.CloseEnds` | mCertiKOS/kern/fs/sysfile.c:219-242 | sys_close takes this slot away from the end it held and changes no other |
| `Wiring.SpawnEnds` | mCertiKOS/kern/trap/TSyscall/TSyscall.c:178-217 | a spawned child holds exactly the ends passed to it, in slots 0 and 1, beside their holders before |
| `Shell.LaunchStage` | mCertiKOS/user/shell/shell.c:697-791 | a stage is launched exactly if it is known, its file is found, the spawn succeeds, and for a file there is a free file and descriptor; the child's input is then the file it names, open on its inode and new, or else what it is passed or the console, its output what it is passed or the console, and it has nothing else; whatever fails, the shell's own descriptors end as they were |
| `Shell.RunStage` | mCertiKOS/user/shell/shell.c:815-848 | one turn succeeds exactly if the stage is good and files, pipes and descriptors suffice, by count; it leaves the shell with the read end for the next stage and nothing else, or as it started; the write end of the new pipe is held by this child's slot 1 alone and the read end of the pipe before by its slot 0 alone, and its other slots are its file or the console |
| `Shell.RunPipeline` | mCertiKOS/user/shell/shell.c:793-858 | all stages start if every stage is good and there are 3 files per stage, the pipes and 4 descriptors free, and only if every stage is good; then pipe i is held by child i in slot 1 and child i+1 in slot 0 and nobody else, the first child reads the file it names or the console, and the last writes to the console; on every path, whatever fails and wherever, the shell ends with the descriptors it started with |
| `PipelineFds.StepAgrees` | mCertiKOS/user/shell/shell.c:815-848 | every step of a pipeline changes who holds the ends of its pipes as the system call behind it does: sys_pipe, sys_spawn, sys_close by the shell, sys_close by a stage, and nothing else |
| `PipelineFds.StartAgrees` | mCertiKOS/user/shell/shell.c:813-815 | before the first stage no end of the pipes is held, in the descriptors as in the runs |
| `PipelineFds.RunAgrees` | mCertiKOS/kern/fs/file.c:253-309 | at every moment of every run an end counts as open exactly if some slot of some thread points at it |
| `PipelineFds.WiredAgrees` | mCertiKOS/user/shell/shell.c:793-858 | the wiring that run_pipeline leaves is that of the runs once the shell is done |
| `ReadyQueue.ListedExactly` | mCertiKOS/kern/thread/PTQueueInit/PTQueueInit.c:86-119 | the test on the links tells exactly whether a pid is in the queue |
| `ReadyQueue.Queue.Enqueue` | mCertiKOS/kern/thread/PTQueueInit/PTQueueInit.c:33-50 | the links represent the sequence with the pid appended |
| `ReadyQueue.Queue.Dequeue` | mCertiKOS/kern/thread/PTQueueInit/PTQueueInit.c:57-80 | the head, and the links represent the rest |
| `ReadyQueue.Queue.Remove` | mCertiKOS/kern/thread/PTQueueInit/PTQueueInit.c:86-119 | the links represent the sequence without the pid, wherever it was |
| `Scheduler.IdleIsQueued` | mCertiKOS/kern/thread/PThread/PThread.c:129-172 | while another thread runs the queue is not empty, so the dequeue in thread_sleep finds a thread |
| `Scheduler.WakesExactly` | mCertiKOS/kern/thread/PThread/PThread.c:177-191 | exactly the threads asleep on the channel become ready, behind the queue in the order of their ids |
| `Scheduler.YieldHandsOver` | mCertiKOS/kern/thread/PThread/PThread.c:57-79 | the yielding thread is ready and last in the queue and the first of the queue runs, or it runs on if it was alone; no other thread changes |
| `Scheduler.SleepHandsOver` | mCertiKOS/kern/thread/PThread/PThread.c:129-172 | the thread is asleep on the channel and in no queue, the first of the queue runs, and no other thread changes |
| `Scheduler.ExitHandsOver` | mCertiKOS/kern/thread/PThread/PThread.c:86-108 | the thread is dead and in no queue, the first of the queue runs, and no other thread changes |
| `Scheduler.StepKeepsOk` | mCertiKOS/kern/thread/PThread/PThread.c:33-191 | every step keeps: in the queue exactly if ready, running exactly if current, idle ready or running |
| `Scheduler.RunKeepsOk` | mCertiKOS/kern/thread/PThread/PThread.c:33-191 | the invariant holds over every run of spawn, yield, sleep, wakeup, exit and kill |
| `Scheduler.KillKeepsOkExactly` | mCertiKOS/kern/trap/TSyscall/TSyscall.c:413-465 | SIGKILL to any live pid keeps the invariant exactly if its target is neither the caller nor idle |
| `Scheduler.SelfKillIsUndone` | mCertiKOS/kern/trap/TSyscall/TSyscall.c:413-465 | a process that kills itself is DEAD, and after its next yield everything is as if it had only yielded |
| `Scheduler.TurnComes` | mCertiKOS/kern/thread/PThread/PThread.c:57-79 | round robin: a thread at position k of the queue runs by the (k+1)st switch unless it is killed |
| `Turns.YieldComesBack` | mCertiKOS/kern/thread/PThread/PThread.c:57-79 | in every run a thread that yields runs again within as many switches as the queue was long, unless it is killed |
| `Turns.WakesOnlyByChannel` | mCertiKOS/kern/thread/PThread/PThread.c:177-191 | a sleeping thread stays asleep on its channel under every step but a wakeup of it, which puts it in the queue, or its kill |
| `Turns.SleepsUntilWoken` | mCertiKOS/kern/thread/PThread/PThread.c:129-191 | in every run a thread that sleeps is asleep on that channel until the channel is woken |
| `Turns.SleeperRuns` | mCertiKOS/kern/thread/PThread/PThread.c:129-191 | in every run it is in the queue then, and runs within as many switches as the queue is long |
| `Turns.SpawnedRuns` | mCertiKOS/kern/thread/PThread/PThread.c:33-46 | in every run a spawned thread is last in the queue, and runs |
| `Turns.DeadUntilSpawned` | mCertiKOS/kern/thread/PThread/PThread.c:86-108 | in every run a thread that exits or is killed is neither queued nor runs until its id is spawned again |
| `Scheduler.Threads.constructor` | mCertiKOS/kern/init/init.c:31-72 | after boot the shell runs, idle is queued, the boot thread counts as running, every other id is dead, and the invariant holds |
| `Scheduler.Threads.ThreadSpawn` | mCertiKOS/kern/thread/PThread/PThread.c:33-46 | the tables and links do the spawn step: the thread is ready and last in the queue |
| `Scheduler.Threads.ThreadYield` | mCertiKOS/kern/thread/PThread/PThread.c:57-79 | the tables and links do the yield step, and hand over as YieldHandsOver says |
| `Scheduler.Threads.ThreadSleep` | mCertiKOS/kern/thread/PThread/PThread.c:129-172 | the tables and links do the sleep step, and hand over as SleepHandsOver says |
| `Scheduler.Threads.ThreadWakeup` | mCertiKOS/kern/thread/PThread/PThread.c:177-191 | the loop over all pids does the wakeup step, and wakes as WakesExactly says |
| `Scheduler.Threads.SysExit` | mCertiKOS/kern/trap/TSyscall/TSyscall.c:545-558 | the tables and links do the exit step, and hand over as ExitHandsOver says |
| `Scheduler.Threads.SysKill` | mCertiKOS/kern/trap/TSyscall/TSyscall.c:424-452 | for any argument: refused exactly if the pid is out of range or DEAD; otherwise the tables and links do the kill step, and the invariant holds after it exactly if the target is neither the caller nor idle |
| `PageAlloc.NextFree` | mCertiKOS/kern/pmm/MATOp/MATOp.c:23-59 | the lowest free page above the last one handed out, or 0 if there is none |
| `PageAlloc.SecondAttempt` | mCertiKOS/kern/pmm/MATOp/MATOp.c:23-59 | after a failure the next attempt succeeds exactly if any page is free |
| `PageAlloc.PallocMisses` | mCertiKOS/kern/pmm/MATOp/MATOp.c:23-59 | a table with a free page in which the allocator finds none |
| `PageAlloc.ScanUsesOne` | mCertiKOS/kern/pmm/MATOp/MATOp.c:23-59 | an allocation fails exactly if no page is free above the memo, and otherwise leaves one such page less |
| `PageAlloc.AllocTable.Palloc` | mCertiKOS/kern/pmm/MATOp/MATOp.c:23-59 | hands out that page and marks it |
| `PageAlloc.AllocTable.Pfree` | mCertiKOS/kern/pmm/MATOp/MATOp.c:70-76 | clears the mark of that page only |
| `Containers.CanConsumeExactly` | mCertiKOS/kern/pmm/MContainer/MContainer.c:82-86 | the 32-bit check is right exactly when the sum does not wrap around into the quota |
| `Containers.CanConsumeWraps` | mCertiKOS/kern/pmm/MContainer/MContainer.c:82-86 | a request the check gets wrong |
| `Containers.ChildIndexInjective` | mCertiKOS/kern/pmm/MContainer/MContainer.c:94-114 | different parents and child numbers give different ids |
| `Containers.PromiseCovers` | mCertiKOS/kern/pmm/MContainer/MContainer.c:145-151 | a live child's quota is part of its parent's usage |
| `Containers.SplitExactly` | mCertiKOS/kern/pmm/MContainer/MContainer.c:94-114 | a split keeps usage within quotas exactly if the parent has that much left |
| `Containers.RefundExactly` | mCertiKOS/kern/trap/TSyscall/TSyscall.c:442-445 | the refund for any pid, 0 among them, keeps the accounts exactly if the pid is a live child, its quota is 0, or nothing of its parent's quota is used |
| `Containers.BootExactly` | mCertiKOS/kern/init/init.c:60-61 | the two unguarded splits at boot keep the accounts exactly if there are 201000 pages |
| `Containers.KillRootUnbalances` | mCertiKOS/kern/trap/TSyscall/TSyscall.c:413-465 | after any such boot, a kill of pid 0 takes the clamp: usage becomes 0 while the quotas of idle and the shell are out |
| `Containers.ContainerTable.constructor` | mCertiKOS/kern/pmm/MContainer/MContainer.c:20-49 | the root container has the whole quota and the invariant holds |
| `Containers.ContainerTable.Split` | mCertiKOS/kern/pmm/MContainer/MContainer.c:94-114 | as written, without a check: the child's id was never used before, the child has the quota and nothing in use, the parent's usage goes up by it modulo 2^32, all else is as before, and the accounts are kept exactly if the quota was left |
| `Containers.ContainerTable.SysSpawn` | mCertiKOS/kern/trap/TSyscall/TSyscall.c:106-137 | refuses exactly by its three guards; else the child has the quota as Split grants it, and the accounts are kept exactly if usage plus request is below 2^32 |
| `Containers.ContainerTable.Charge` | mCertiKOS/kern/pmm/MContainer/MContainer.c:122-132 | one page more unless the quota is used up; usage is exactly pages charged plus quotas promised |
| `Containers.ContainerTable.Uncharge` | mCertiKOS/kern/pmm/MContainer/MContainer.c:135-142 | one page less |
| `Containers.ContainerTable.Refund` | mCertiKOS/kern/pmm/MContainer/MContainer.c:145-151 | for any container in use: only the parent's usage changes, by the quota or down to zero; the accounts are kept exactly as RefundExactly says, and for a live child the usage drops by the whole quota, with no clamp |
| `PageTables.NoSharing` | mCertiKOS/kern/vmm/MPTNew/MPTNew.c:17-33 | no physical page is mapped at two places, and no table is mapped |
| `PageTables.MapThenUnmap` | mCertiKOS/kern/vmm/MPTKern/MPTKern.c:30-64 | mapping an unmapped page and unmapping it restores the flat map |
| `PageTables.EntryStored` | mCertiKOS/kern/vmm/MPTIntro/MPTIntro.c:92-112 | a store into a table changes that one entry in any process |
| `PageTables.ExclusiveAfterStore` | mCertiKOS/kern/vmm/MPTKern/MPTKern.c:30-64 | an entry for an unused page, or none, keeps the pages exclusive |
| `PageTables.StoreKeepsBytes` | mCertiKOS/kern/vmm/MPTIntro/MPTIntro.c:92-112 | a store into a table reaches no user byte |
| `PageTables.TableAdded` | mCertiKOS/kern/vmm/MPTComm/MPTComm.c:38-56 | a cleared table adds no mapping and takes no page in use |
| `PageTables.TableFreed` | mCertiKOS/kern/vmm/MPTComm/MPTComm.c:61-67 | the table's own entries go, all others stay, and its page is free again |
| `Paging.PdirInit` | mCertiKOS/kern/vmm/MPTKern/MPTKern.c:10-21 | identity tables for the kernel and process 0, nothing in user space |
| `Paging.WithinQuota` | mCertiKOS/kern/pmm/MContainer/MContainer.c:122-132 | a process never holds more table and data pages than its quota |
| `Paging.AllocUsesOne` | mCertiKOS/kern/pmm/MContainer/MContainer.c:122-132 | pages left to a process, by its quota and by the allocator's memo, go down by one with every page handed out, and none is handed out exactly at 0 |
| `Paging.VM.constructor` | mCertiKOS/kern/vmm/MPTComm/MPTComm.c:10-29 | no user page is mapped and the invariant holds |
| `Paging.VM.ContainerAlloc` | mCertiKOS/kern/pmm/MContainer/MContainer.c:122-132 | exactly the page that the allocator finds, if quota is left; fails exactly if no page is left to the process, and else leaves one less; the page was free and is named nowhere |
| `Paging.VM.ClearTable` | mCertiKOS/kern/vmm/MPTComm/MPTComm.c:48-53 | all 1024 entries of the page are 0 and no other page changes |
| `Paging.VM.AllocPtbl` | mCertiKOS/kern/vmm/MPTComm/MPTComm.c:38-56 | the directory entry gets a cleared table, exactly if a page is left; no mapping and no user byte changes |
| `Paging.VM.SetEntry` | mCertiKOS/kern/vmm/MPTOp/MPTOp.c:36-62 | the flat map changes at this entry only, and no other user byte does |
| `Paging.VM.MapPage` | mCertiKOS/kern/vmm/MPTKern/MPTKern.c:30-46 | the flat map gets this entry and no other changes; MagicNumber, with nothing changed, exactly if a table is missing and no page is left for it; otherwise the result is the table made, or 0 |
| `Paging.VM.UnmapPage` | mCertiKOS/kern/vmm/MPTKern/MPTKern.c:56-64 | returns the entry, which is then 0; no other entry or byte changes |
| `Paging.VM.AllocPage` | mCertiKOS/kern/vmm/MPTNew/MPTNew.c:17-33 | succeeds exactly if a page is left, and another one where a table is missing; then the address is mapped to the page the allocator finds, which nobody used; otherwise nothing changes |
| `Paging.VM.FreePtbl` | mCertiKOS/kern/vmm/MPTComm/MPTComm.c:61-67 | exactly the mappings of this table go; its page is free and discharged |
| `UserCopy.InRangeExactly` | mCertiKOS/kern/lib/pmap.c:22-26 | for any user and kernel address and length, the 32-bit guard bounds both ranges exactly unless it passes with an end that wraps around |
| `UserCopy.InRangeWraps` | mCertiKOS/kern/lib/pmap.c:22-26 | a range of 16 bytes that passes the guard and is not in user space |
| `Faults.NeededLater` | mCertiKOS/kern/lib/pmap.c:66-73 | allocating one missing page and its table leaves exactly the rest of the pages needed by the range |
| `Faults.FaultUses` | mCertiKOS/kern/lib/pmap.c:66-73 | allocating one missing page and its table takes exactly what that page lacked from what any range around it needs |
| `Faults.StaysOnTrack` | mCertiKOS/kern/lib/pmap.c:62-86 | one chunk of a copy keeps: everything so far is mapped and the pages left cover the rest, exactly if so before |
| `UserCopy.RoundTrip` | mCertiKOS/kern/lib/pmap.c:19-89 | what is copied out and copied in again is the same bytes, if every page is mapped after the first copy |
| `UserCopy.CopyOutAndIn` | mCertiKOS/kern/lib/pmap.c:19-89 | a copy out followed by a copy in gives back the bytes whenever the pages left at the start cover the missing pages and tables of the range |
| `UserCopy.WroteMore` | mCertiKOS/kern/lib/pmap.c:75-85 | a chunk up to the page boundary extends what is written and changes no other byte of any process |
| `UserCopy.PageFor` | mCertiKOS/kern/lib/pmap.c:66-73 | the page for the address, allocated if missing, exactly if the pages left cover the page and its table; everything mapped before is kept, and the one new entry is present, writable and open to the user |
| `UserCopy.ChunkSize` | mCertiKOS/kern/lib/pmap.c:77-78 | never empty, never across a page boundary, and ending at one unless it is the last |
| `UserCopy.CopyOut` | mCertiKOS/kern/lib/pmap.c:54-89 | 0 and nothing changed if the guard fails; otherwise the bytes are at the user address wherever it is mapped, every other mapped byte of every process is kept, only missing pages of the range get entries, writable ones for the user, the whole range is mapped exactly if the pages left at the start cover what is missing, and pages left that covered a larger range still do |
| `UserCopy.CopyIn` | mCertiKOS/kern/lib/pmap.c:19-52 | the bytes at the user address, wherever it is mapped; every mapped byte is kept, only missing pages of the range get entries, the whole range is mapped exactly if the pages left at the start cover what is missing, and nothing changes if it was mapped |
| `Rendezvous.Woken` | mCertiKOS/kern/trap/TSyscall/TSyscall.c:42-43 | a send wakes exactly the receivers that wait for this sender |
| `Rendezvous.StepKeepsInv` | mCertiKOS/kern/trap/TSyscall/TSyscall.c:31-80 | every step of any process, wakeups by a signal and SIGKILL at any moment among them, keeps the message invariant |
| `Rendezvous.RunKeepsInv` | mCertiKOS/kern/trap/TSyscall/TSyscall.c:31-80 | the invariant holds in every interleaving of sends, receives, wakeups, signals and kills |
| `Rendezvous.SenderReturns` | mCertiKOS/kern/trap/TSyscall/TSyscall.c:31-51 | a sender returns only when exactly one receipt exists, by the process it named, for the shorter of the two lengths of the bytes it sent |
| `Rendezvous.TakenOnce` | mCertiKOS/kern/trap/TSyscall/TSyscall.c:53-80 | a message is either queued with its sender in the call or has been taken; none is lost |
| `Rendezvous.NoLostWakeup` | mCertiKOS/kern/trap/TSyscall/TSyscall.c:31-80 | a process that could be served is never asleep |
| `Rendezvous.RecvAlwaysEnabled` | mCertiKOS/kern/trap/TSyscall/TSyscall.c:53-80 | a receive can always take its step, whatever the state |
| `Rendezvous.PairCompletes` | mCertiKOS/kern/trap/TSyscall/TSyscall.c:31-80 | a sender and the receiver it named that wait for each other and are not killed both return after two steps, with the bytes delivered |
| `Delivery.Delivered` | mCertiKOS/kern/trap/TSyscall/TSyscall.c:31-80 | in every run a message that is queued until its receive takes it leaves, at the address of the receive, the shorter of the two lengths of what the sender's memory held at the address of the send, and no other byte of any process changes |
| `Delivery.LeavesOnlyTaken` | mCertiKOS/kern/trap/TSyscall/TSyscall.c:53-80 | a message leaves the queue exactly when the process it names receives from its sender |
| `Delivery.ChangesOnlyBy` | mCertiKOS/kern/trap/TSyscall/TSyscall.c:53-80 | the memory of a process changes only by its own computing, or when it receives a message that names it |
| `Delivery.WaitsFor` | mCertiKOS/kern/trap/TSyscall/TSyscall.c:53-68 | a receive that finds no message sleeps with its arguments and changes nothing else |
| `Delivery.SendWakes` | mCertiKOS/kern/trap/TSyscall/TSyscall.c:42-43 | a send leaves awake exactly those sleepers that wait for this sender, with their arguments, and no other process changes |
| `Delivery.SignalWakes` | mCertiKOS/kern/trap/TSyscall/TSyscall.c:454-463 | whoever a signal is sent to does not sleep afterwards, and only sleepers are woken |
| `Delivery.KilledForGood` | mCertiKOS/kern/trap/TSyscall/TSyscall.c:413-465 | in every run a killed process takes no further step and keeps its memory |
| `MessageQueue.UnlinkExactly` | mCertiKOS/kern/lib/ipc.c:60-86 | msg_remove as written takes the sender out of the queue exactly if it is queued or the queue is empty; otherwise it drops the whole queue |
| `MessageQueue.UnlinkLosesMessage` | mCertiKOS/kern/lib/ipc.c:60-86 | removing a sender that is not queued loses the message of one that is |
| `MessageQueue.MsgQueue.constructor` | mCertiKOS/kern/lib/ipc.c:12-28 | the empty queue |
| `MessageQueue.MsgQueue.Enqueue` | mCertiKOS/kern/lib/ipc.c:43-58 | the links represent the queue with the sender appended |
| `MessageQueue.MsgQueue.Remove` | mCertiKOS/kern/lib/ipc.c:60-86 | the link stores are those of msg_remove, and they represent the queue without the sender exactly as UnlinkExactly says |
| `MessageQueue.MsgQueue.GetBlockBySendID` | mCertiKOS/kern/lib/ipc.c:89-99 | finds the sender exactly if it is queued; the list is acyclic, so the walk ends |
| `MessageQueue.MsgQueue.Send` | mCertiKOS/kern/trap/TSyscall/TSyscall.c:31-51 | the blocks and links do the send step: the sender's block holds receiver, address and length, and a sender, which never is in the queue already, is last in it |
| `MessageQueue.MsgQueue.Recv` | mCertiKOS/kern/trap/TSyscall/TSyscall.c:53-80 | the blocks and links do the receive step: a message is taken exactly if its sender is queued and names the receiver, and msg_remove is called for a queued sender only |
| `Ipc.IpcCopy` | mCertiKOS/kern/lib/ipc.c:31-41 | piece by piece through the 100-byte buffer: wherever a piece is within user space on both sides and mapped, the receiver's bytes are the sender's; a piece that is not in user space leaves the buffer or the receiver as it was; no other mapped byte changes; the whole message arrives if the sender's buffer is mapped and the pages left to the receiver cover its own |
| `Ipc.WholeCopied` | mCertiKOS/kern/lib/ipc.c:31-41 | for buffers within user space every byte mapped on both sides arrives |
| `Ipc.TakeIsCopied` | mCertiKOS/kern/trap/TSyscall/TSyscall.c:71-74 | on mapped memory the copy through the page tables does to every process what the receive step does to flat memory |

## Left out

- Device drivers, booting, assembly, context switches, the TLB and interrupt handling: processor and hardware state; `ide_rw` is its contract of one sector read or written.
- Spinlocks and several processors: a locked region is one step, since only the boot processor runs.
- Signal delivery and sigreturn frames, `elf_load` and user contexts, console input and output, `path.c` and the shell's built-in commands: they would add easy members or are taken as given; a path is modelled by what it leads to.
- `msg_getBlockByRecvID`: not called by the kernel.
- `Transactions` passes the block writes of a finished file operation to the log one after the other; in the kernel each write goes to the log as it is made. The order is the same and nothing else touches the log in between.
- Dinodes.PutGetInode: the device numbers of an inode are not modelled.
- Links.FsTree.Create: link counts are unbounded here; `DirTree` has the 16 bits, and reports a count that would not fit as not ok. A full inode table, where the C panics, is reported as not ok.
- DirTree.Create: a full disk or inode table, where the C panics, is reported as not ok, and nothing is claimed of the disk in memory then; a link count at its limit, which wraps around in the C, is reported so too.
- DirTree.Unlink: whether the call drops the last reference is a parameter, which `Links.FsTree` keeps count of.
- Log.TransLog.LogWrite: where log_write panics the transaction is reported as not ok.
- FileSystem.FileSys.Bmap: a full data region is reported as not ok; there the C goes on to hand out log sectors.
- Directories.DirLink: an entry that cannot be written, where the C panics, is reported as not ok.
- Mkfs.Maker.MapBlock: a full image is reported as not ok; mkfs does not notice it.
- MakeDisk.Make: for a disk with one bitmap block, and host files read into memory whole; a full image or inode table is reported as not ok.
- The inode cache (`inode_get`, `inode_lock`): every inode counts as loaded, and calls on one inode do not interleave; `Links` keeps the reference counts.
- Devices as inodes (T_DEV) and more than one disk: not part of this model.
- Scheduler.StepKeepsOk: the steps are those the kernel's callers allow: idle never sleeps, exits or is killed, a spawned pid was never used, and SIGKILL goes to a live process other than the sender; the last condition is what `KillKeepsOkExactly` is about.
- Containers.ContainerTable.Split: for a parent with an unused child number whose id is in range, which `SysSpawn` checks and the two splits at boot meet; otherwise the C writes outside the table.
- Paging.VM.MapPage: for a page that the process was charged for and that nobody uses, and with the present bit set, which is how every caller in the kernel uses it; addresses are user addresses of processes other than 0.
- UserCopy.CopyOut: for ends that do not wrap around 2^32; `InRangeExactly` says which wrapped ranges the guard lets pass, and `InRangeWraps` gives one. For those the C goes on into kernel addresses and page 0, which are not part of the model of user memory. Where a page can be neither found nor allocated the copy goes through physical page 0, as in the C, and nothing is claimed of those bytes.
- UserCopy.CopyIn: as CopyOut. A page allocated on the way holds whatever was in it.
- Ipc.IpcCopy: for ends that do not wrap around, as CopyOut. A destination page that is first refused and then allocated within one copy loses the bytes of the first attempt.
- Rendezvous.StepKeepsInv: a message's buffer is within the sender's memory.
- Shell.RunPipeline: system calls of other processes are not interleaved with the shell's own; they do not touch its slots. Pids that `sys_spawn` hands out are fresh, as `Containers.ContainerTable.SysSpawn` states.
- Pipeline.StepKeepsInv: only the first stage takes a file name, every pipe and process could be created, and no stage is killed. A close is one step here; `SharedPipe` has the moment between the last reference and the flag.
- `pt_memset`, `sys_read` and `sys_write` argument checks, `file_stat`, `sys_chdir`, `sys_mkdir`'s path handling: easy members.
