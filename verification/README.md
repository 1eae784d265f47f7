# A verified model of the OS/161 kernel's data structures and protocols

This project models the parts of an OS/161 kernel whose correctness rests on
invariants across many functions, and proves those invariants:

* **SFS**, the block filesystem: free bitmap, inodes with an indirect block,
  a flat root directory, vnodes with dirty copies, mount and `mksfs`. A ghost
  map gives every block its one owner, every operation keeps it exact, and
  reading and writing refine a flat byte array.
* **The kernel heap**: pages of equal blocks with free lists threaded through
  them, two intrusive lists of page records, and whole-page runs.
* **Threads**: run queue, sleepers, zombies, context switch, wakeups, and the
  ring queue and resizable array under them; semaphores and locks on top.
* **The process table**: fork, `_exit`, `waitpid` and slot reclamation.
* **The bowl protocol** of the cat and mouse simulation.
* **Arithmetic and text**: the additive-feedback generator, the Park-Miller
  generator, `printf` numbers, `atoi` and `vsnprintf`.

## How it is organised

State that the source updates in place is a class; beside it stands the same
state as a value, with an invariant and one lemma for each step. Methods are
proved to perform exactly those steps. `Valid()` (for the filesystem `Good`)
is required and ensured by every operation, so it holds in every reachable
state. `Run` methods say so for arbitrary sequences, and give the history of
what each step did; the laws over histories are stated of what a caller asks
for and gets back.

| files | what they model |
|---|---|
| `Bytes`, `Errno`, `Arith` | disk words, inode and directory-entry layouts, error codes, division |
| `Bitmap`, `Uio` | `kern/lib/bitmap.c`, `kern/userprog/uio.c` |
| `SfsVolume`, `SfsSteps`, `SfsSpace` | a volume as a value, the ownership invariant, its steps, and what they need in free blocks |
| `SfsFs`, `SfsIo`, `SfsTruncate`, `SfsVnodes` | block mapping, file I/O, truncation, vnodes |
| `SfsDirectory`, `SfsDirIo`, `SfsLinks`, `SfsOps` | the directory and the operations on names |
| `SfsRuns`, `SfsHistory` | any sequence of operations, and what holds over one |
| `SfsMount`, `Mksfs`, `SfsLayout`, `SfsTails` | sync, unmount, mount, `mksfs`, what the bytes on a device mean, and what truncation leaves behind |
| `KheapModel`, `KheapSteps`, `KheapPages`, `Kheap`, `KheapCheck`, `KheapRuns` | `kern/lib/kheap.c` |
| `Queue`, `PtrArray`, `ThreadModel`, `ThreadTables`, `Threads`, `ThreadLaws`, `Synch` | `kern/lib/queue.c`, `kern/lib/array.c`, `kern/thread/` |
| `ProcTable`, `ProcHistory`, `ProcRuns` | `kern/syscalls/process.c`, `waitpid`, fork's table part, `_exit` |
| `Bowls` | `kern/asst1/catmouse.c`, `kern/asst1/bowls.c` |
| `Random`, `Pseudorand` | `lib/libc/random.c`, `kern/dev/generic/pseudorand.c` |
| `Digits`, `Atoi`, `Printf`, `PrintfLaws` | `lib/libc/__printf.c`, `lib/libc/atoi.c`, `lib/libc/snprintf.c` |

## Where the code does not do what one would expect

Each of these is kept as the code has it; the members named say exactly when
it happens, most of them with a concrete input.

* `sfs_truncate` may keep the block at index `blocklen` in the indirect range
  (`TruncateReleasesTail`, `KeepsOneTooMany`), and does not clear what it
  keeps, so that old bytes come back when the file grows (`TailReadsZero`,
  `GrownShowsTail`). It takes negative lengths (`BlockLenCases`,
  `TruncatedBelowZero`).
* `kmalloc` of more than 2^32 - 4096 bytes asks for no page
  (`GrantCoversRequest`).
* `thread_wakeup_n` compares an index, not a count (`ReachEnds`,
  `WakeupNCounts`, `WakeupNNotACount`).
* Preallocation does not cover `thread_yield` (`YieldGrows`, `FullHouse`,
  `FullHousePanics`), nor `thread_exit` once `exorcise` has given the slots
  back (`MiSwitch`, `ClearZombies`, `GravesGone`, `GravesGonePanics`).
* `process_get` admits PID 100, one past the table (`ProcessGetInBounds`).
* A process without a parent never gets its exit flag, so its slot is never
  reclaimed, nor are those of its children that exit later (`Exit`, `Run`,
  `Collect`, `LostSlots` in `ProcRuns`).
* `fork` returns the number of an error of its child as a PID
  (`ForkHidesErrors`, `ForkInFullTable`), and two forks may take one slot (`StoreInOrder`,
  `TwoSearches`).
* `setstate` on the current state rewinds it, although the comment at
  `lib/libc/random.c:344-345` says it is harmless (`Setstate`,
  `SameStateRewinds`).
* `%d` with `-` and `0` pads with zeros on the right, and so do `%u`, `%o`,
  `%x` and `%p` (`PrintParse`, `LeftZerosExample`, `WordReadBack`).

## What is assumed

* The disk is reliable and, in SFS, so is `kmalloc`; elsewhere an operation
  takes whether `kmalloc` succeeds. `alloc_kpages` is a parameter: an answer
  is 0 or a page-aligned run apart from all runs handed out and not returned.
* Each SFS operation, each table operation and each stretch with interrupts
  off is one step.
* A vnode is identified by its inode number; that no two vnodes have the same
  one is proved. `off_t` is 32 bits signed, so offset plus length stays below
  2^31.
* Device interrupts are parameters: the addresses they wake while idle.
* Arguments of `printf` match the format; one that is missing reads as 0.

## Model

| member | source | states |
|---|---|---|
| `Bytes.UnpackPack` | kern/include/kern/sfs.h:44-52 | 128 words stored in a block and read back are the same words |
| `Bytes.PackUnpack` | kern/include/kern/sfs.h:44-52 | a block read as words and stored again is the same block |
| `Bytes.InodeRoundTrip` | kern/include/kern/sfs.h:45-52 | an inode survives its way through a disk block |
| `Bytes.InodeOfZero` | kern/fs/sfs/sfs_vnode.c:763-783 | a cleared block reads as an inode of no type, no links, no size and no blocks |
| `Bytes.EntRoundTrip` | kern/include/kern/sfs.h:57-60 | a directory entry with a name of at most 59 bytes survives its 64 bytes |
| `Bytes.CStrOfPadded` | kern/fs/sfs/sfs_vnode.c:666-703 | a name padded with zeros reads back as the name |
| `Bytes.SpliceAdjacent` | kern/fs/sfs/sfs_vnode.c:419-513 | two adjacent overwrites are one overwrite |
| `Bytes.FlatSplice` | kern/fs/sfs/sfs_vnode.c:279-347 | overwriting part of one block is overwriting part of the flat image |
| `Bytes.FlatSlice` | kern/fs/sfs/sfs_vnode.c:279-347 | part of one block is a slice of the flat image |
| `BitmapLib.AllBits` | kern/lib/bitmap.c:73-94 | a byte equals WORD_ALLBITS exactly when it has no clear bit, so the inner search cannot fail |
| `BitmapLib.CookedRaw` | kern/fs/sfs/sfs_fs.c:41-73 | a bitmap byte survives being stored on disk |
| `BitmapLib.BitsOfSet` | kern/lib/bitmap.c:99-118 | setting a bit through its mask sets that bit and no other |
| `BitmapLib.BitsOfClear` | kern/lib/bitmap.c:99-131 | clearing a bit through its mask clears that bit and no other |
| `BitmapLib.Bitmap.constructor` | kern/lib/bitmap.c:31-64 | all bits clear, and the bits past the end of the last byte marked |
| `BitmapLib.Bitmap.Alloc` | kern/lib/bitmap.c:73-94 | takes the lowest clear bit and sets it alone; ENOSPC exactly when every bit is set |
| `BitmapLib.Bitmap.LowestClear` | kern/lib/bitmap.c:73-94 | finds the lowest clear bit of a byte that has one |
| `BitmapLib.Bitmap.Mark` | kern/lib/bitmap.c:108-118 | sets one clear bit and changes no other |
| `BitmapLib.Bitmap.Unmark` | kern/lib/bitmap.c:121-131 | clears one set bit and changes no other |
| `BitmapLib.Bitmap.IsSet` | kern/lib/bitmap.c:135-142 | reports the bit |
| `UioLib.Uio.constructor` | kern/userprog/uio.c:114-123 | describes the whole of a kernel buffer at an offset |
| `UioLib.Uio.Move` | kern/userprog/uio.c:12-82 | moves min(n, resid) bytes the right way, changes nothing else, and advances pointer, offset and resid by that much |
| `UioLib.Uio.MoveZeros` | kern/userprog/uio.c:85-108 | sixteen bytes at a time, zeroes exactly min(n, resid) bytes of the destination |
| `UioLib.Uio.Pass` | kern/userprog/uio.c:24-80 | one pass of the copy loop moves min(iov_len, n) bytes and advances all four fields |
| `UioLib.MoreMoved` | kern/userprog/uio.c:85-108 | zeroing in two pieces is zeroing at once, also where resid runs out |
| `SfsSteps.AllocDirectKeeps` | kern/fs/sfs/sfs_vnode.c:117-261 | recording a fresh cleared block in a direct slot keeps the ownership invariant |
| `SfsSteps.AllocDirectContent` | kern/fs/sfs/sfs_vnode.c:117-261 | a hole and a cleared block read the same, so no byte of any file changes |
| `SfsSteps.AllocIndirectKeeps` | kern/fs/sfs/sfs_vnode.c:117-261 | hanging a fresh cleared indirect block into an inode keeps the invariant |
| `SfsSteps.AllocIndirectContent` | kern/fs/sfs/sfs_vnode.c:117-261 | and changes no byte of any file |
| `SfsSteps.AllocSlotKeeps` | kern/fs/sfs/sfs_vnode.c:117-261 | recording a fresh block in an indirect slot and rewriting the indirect block keeps the invariant |
| `SfsSteps.AllocSlotContent` | kern/fs/sfs/sfs_vnode.c:117-261 | and changes no byte of any file |
| `SfsSteps.WriteDataKeeps` | kern/fs/sfs/sfs_vnode.c:279-412 | overwriting a mapped data block keeps the invariant and changes one block of one file |
| `SfsSteps.SetVnodeKeeps` | kern/fs/sfs/sfs_vnode.c:40-51 | an inode may change in memory while it is marked dirty |
| `SfsSteps.SyncInodeKeeps` | kern/fs/sfs/sfs_vnode.c:40-51 | writing an inode back keeps the invariant and every file's bytes, and makes the disk copy equal |
| `SfsSteps.NewInodeKeeps` | kern/fs/sfs/sfs_vnode.c:763-783 | a fresh cleared block as an inode keeps the invariant |
| `SfsSteps.LoadKeeps` | kern/fs/sfs/sfs_vnode.c:1547-1651 | loading an inode keeps the invariant |
| `SfsSteps.DropKeeps` | kern/fs/sfs/sfs_vnode.c:858-924 | forgetting a clean vnode keeps the invariant, because the disk says the same |
| `SfsSteps.FreeInodeKeeps` | kern/fs/sfs/sfs_vnode.c:858-924 | freeing the inode of an emptied file keeps the invariant |
| `SfsSteps.TakeBlocks` | kern/fs/sfs/sfs_vnode.c:1065-1157 | giving back blocks of one file together keeps the map of owners exact |
| `SfsSpace.NoneFree` | kern/lib/bitmap.c:73-94 | no block is free exactly when every bit is set |
| `SfsSpace.NeedSplit` | kern/fs/sfs/sfs_vnode.c:117-261 | what a range of blocks needs is what its first part needs and then its second part |
| `SfsSpace.NeedOne` | kern/fs/sfs/sfs_vnode.c:117-261 | one block needs itself if it is a hole, and the indirect block if it lies behind one that is not there |
| `SfsSpace.MappedThrough` | kern/fs/sfs/sfs_vnode.c:117-261 | mapping through a fresh indirect block: what it spends, and that it fails exactly when too few blocks were free, of which none is then left |
| `SfsSpace.OutcomeRest` | kern/fs/sfs/sfs_vnode.c:419-513 | after part of a write is done, the rest answers what the whole was going to |
| `SfsSpace.OutcomeFirst` | kern/fs/sfs/sfs_vnode.c:419-513 | what fails a first part of a write fails the whole in the same way |
| `SfsSpace.WrittenTwice` | kern/fs/sfs/sfs_vnode.c:419-513 | two adjacent writes answer, spend and conserve blocks as one |
| `SfsFs.Sfs.constructor` | kern/fs/sfs/sfs_fs.c:210-311 | a volume object of the given size, disk and freemap, with nothing loaded and nothing dirty |
| `SfsFs.Sfs.Balloc` | kern/fs/sfs/sfs_vnode.c:62-78 | an unowned block of the device, cleared and marked; ENOSPC exactly when every bit is marked |
| `SfsFs.Sfs.Bfree` | kern/fs/sfs/sfs_vnode.c:85-89 | unmarks a marked block and marks the freemap dirty |
| `SfsFs.Sfs.Bused` | kern/fs/sfs/sfs_vnode.c:96-103 | reports the mark of a block on the device |
| `SfsFs.Sfs.BmapDirect` | kern/fs/sfs/sfs_vnode.c:117-261 | direct slots: the mapped block, or a fresh one when asked to allocate; ENOSPC exactly for a hole with no free block |
| `SfsFs.Sfs.LoadIndirect` | kern/fs/sfs/sfs_vnode.c:117-261 | the indirect block's contents, allocating it first if there is none; ENOSPC exactly when there is none and no block is free |
| `SfsFs.Sfs.BmapIndirect` | kern/fs/sfs/sfs_vnode.c:117-261 | indirect slots, including holes when there is no indirect block; ENOSPC exactly when the slot and its indirect block need more blocks than are free, and then none is left |
| `SfsFs.Sfs.AllocIntoSlot` | kern/fs/sfs/sfs_vnode.c:117-261 | a fresh block recorded in the indirect block on disk; ENOSPC exactly without a free block |
| `SfsFs.Sfs.Bmap` | kern/fs/sfs/sfs_vnode.c:117-261 | keeps the invariant, grows at most this file's map, never changes a byte; EINVAL exactly from block 143 on; allocating, ENOSPC exactly when the block needs more blocks than are free, and then none is left; every block taken fills a hole or is the indirect block; the panics on unmarked blocks are unreachable |
| `SfsIo.TransferTwice` | kern/fs/sfs/sfs_vnode.c:419-513 | two transfers in a row are one |
| `SfsIo.PhaseTwice` | kern/fs/sfs/sfs_vnode.c:419-513 | a request done in two parts that meet on a block boundary is one request, in bytes moved, answer and blocks spent |
| `SfsIo.PartialIo` | kern/fs/sfs/sfs_vnode.c:279-347 | read-modify-write of part of one block moves exactly those bytes between the flat image and memory; it answers what the block's number, map and the free blocks determine |
| `SfsIo.DeviceIo` | kern/fs/sfs/sfs_vnode.c:354-412 | one block to or from the device at the uio offset |
| `SfsIo.BlockIo` | kern/fs/sfs/sfs_vnode.c:354-412 | moves one whole block, and puts offset and resid back as they should be; it answers what the block's number, map and the free blocks determine |
| `SfsIo.IoBlocks` | kern/fs/sfs/sfs_vnode.c:419-513 | the middle loop moves whole blocks up to the first that fails, with the answer of the whole range |
| `SfsIo.IoAligned` | kern/fs/sfs/sfs_vnode.c:419-513 | whole blocks and the trailing part as one transfer with one answer |
| `SfsIo.IoPhases` | kern/fs/sfs/sfs_vnode.c:419-513 | leading part, whole blocks and trailing part as one transfer with one answer |
| `SfsIo.Io` | kern/fs/sfs/sfs_vnode.c:419-513 | a write overwrites exactly the bytes at its offset in the flat image and raises the size; a read returns the image clipped at the end of file; nothing else in any file changes; offset and resid move by what was done, also when it fails. A write that succeeds moves all it was asked to; a read at or past the end moves nothing, and one below it that succeeds moves all it was asked to or reaches the end exactly. The answer is determined: a write fails with ENOSPC exactly if the holes in its range below block 143 and a missing indirect block are more than the free blocks, and then none is left; otherwise with EINVAL exactly if it reaches past block 142; a read fails exactly in the latter way |
| `SfsIo.PlentyOfRoom` | kern/fs/sfs/sfs_vnode.c:419-513 | with a free block for every block of the range and one more, a write inside the largest file cannot fail |
| `SfsTruncate.CutDirect` | kern/fs/sfs/sfs_vnode.c:1065-1157 | the direct loop clears and frees the slots at or past the new length |
| `SfsTruncate.CutSlots` | kern/fs/sfs/sfs_vnode.c:1065-1157 | the indirect loop clears and frees exactly the slots its test selects |
| `SfsTruncate.CutIndirect` | kern/fs/sfs/sfs_vnode.c:1065-1157 | the indirect block is written back or freed as the source decides |
| `SfsTruncate.Truncate` | kern/fs/sfs/sfs_vnode.c:1065-1157 | the whole volume afterwards, as a function of the volume before, for every 32-bit signed length; the size is then that length, in the inode too |
| `SfsTruncate.BlockLenCases` | kern/fs/sfs/sfs_vnode.c:1079-1080 | the signed division rounds up, except that lengths from -1022 to 0 make no block, and lower ones or those within 511 of the largest make more blocks than a file can have |
| `SfsTruncate.TruncatedKeeps` | kern/fs/sfs/sfs_vnode.c:1065-1157 | truncation keeps the ownership invariant |
| `SfsTruncate.TruncatedContent` | kern/fs/sfs/sfs_vnode.c:1065-1157 | other files keep every byte, and this one keeps the blocks it keeps |
| `SfsTruncate.TruncateReleasesTail` | kern/fs/sfs/sfs_vnode.c:1065-1157 | every block at or past the new length of blocklen blocks is given back if and only if block number blocklen is a hole or lies outside the indirect range 15..142 |
| `SfsTruncate.TruncateToZero` | kern/fs/sfs/sfs_vnode.c:1065-1157 | truncation to zero empties the block map |
| `SfsVnodes.ChangeRefs` | kern/fs/vfs/vnode.c:60-98 | a reference more or less changes that count alone |
| `SfsVnodes.FindVnode` | kern/fs/sfs/sfs_vnode.c:1547-1651 | the table search finds the loaded vnode of an inode, or that there is none |
| `SfsVnodes.LoadVnode` | kern/fs/sfs/sfs_vnode.c:1547-1651 | another reference to a loaded vnode, or a clean copy of the inode on disk; never two vnodes for an inode |
| `SfsVnodes.SyncVnode` | kern/fs/sfs/sfs_vnode.c:40-51 | a dirty inode is written back and then clean |
| `SfsVnodes.ForgetKeeps` | kern/fs/sfs/sfs_vnode.c:858-924 | a linked file that is written back and forgotten is unchanged |
| `SfsVnodes.EraseKeeps` | kern/fs/sfs/sfs_vnode.c:858-924 | an unlinked file's data blocks, indirect block and inode block become free, and no other block does |
| `SfsVnodes.Discard` | kern/fs/sfs/sfs_vnode.c:858-924 | the inode block is freed if unlinked and the vnode leaves the table |
| `SfsVnodes.Reclaim` | kern/fs/sfs/sfs_vnode.c:858-924 | a linked file is only forgotten; an unlinked one is gone and all that belonged to it is free |
| `SfsDirectory.SpliceEnts` | kern/fs/sfs/sfs_vnode.c:558-584 | writing the bytes of slot s changes entry s, or appends it, and no other entry |
| `SfsDirectory.CountPut` | kern/fs/sfs/sfs_vnode.c:666-720 | how rewriting one entry changes the number of entries naming an inode |
| `SfsDirIo.ReadDir` | kern/fs/sfs/sfs_vnode.c:525-550 | the entry in a slot, the volume unchanged |
| `SfsDirIo.WriteDir` | kern/fs/sfs/sfs_vnode.c:558-584 | exactly one entry changes, or none if the write fails; it fails exactly past slot 1143 or when the slot's block needs more blocks than are free |
| `SfsDirIo.FindName` | kern/fs/sfs/sfs_vnode.c:593-658 | the slot bound to a name or that there is none, and the last empty slot |
| `SfsDirIo.DirLink` | kern/fs/sfs/sfs_vnode.c:666-703 | a new entry in the last empty slot or at the end; the answer is determined by the entries, the directory's block map and the number of free blocks |
| `SfsDirIo.LinkFits` | kern/fs/sfs/sfs_vnode.c:666-703 | EINVAL exactly for a new and short name with all 1144 slots in use; ENOSPC only for a new and short name and fewer than two free blocks |
| `SfsDirIo.DirUnlink` | kern/fs/sfs/sfs_vnode.c:710-720 | clears a slot in use, and cannot fail |
| `SfsDirIo.EntMapped` | kern/fs/sfs/sfs_vnode.c:710-720 | an entry in use lies in a mapped block, so clearing it allocates nothing |
| `SfsLinks.OtherFileDir` | kern/fs/sfs/sfs_vnode.c:419-513 | I/O on another file leaves the directory alone |
| `SfsLinks.LinkedDir` | kern/fs/sfs/sfs_vnode.c:1245-1264 | a new entry puts its target's link count one behind and keeps names unique |
| `SfsLinks.UnlinkedDir` | kern/fs/sfs/sfs_vnode.c:1271-1297 | clearing an entry puts its target's link count one ahead |
| `SfsLinks.LinksBound` | kern/fs/sfs/sfs_vnode.c:1245-1264 | a link count never exceeds 1145, far below 16 bits |
| `SfsLinks.SettleLinks` | kern/fs/sfs/sfs_vnode.c:1245-1297 | adjusting the count by one settles the account |
| `SfsOps.Decref` | kern/fs/vfs/vnode.c:74-98 | one reference fewer, or on the last one the file is reclaimed; the directory and all other files are unchanged |
| `SfsOps.MakeObj` | kern/fs/sfs/sfs_vnode.c:763-783 | a new empty file, loaded and unlinked, on a block nobody owned; or ENOSPC, exactly when no block is free, and no change |
| `SfsOps.MadeSpace` | kern/fs/sfs/sfs_vnode.c:763-783 | a new file takes exactly one free block |
| `SfsOps.SetLinks` | kern/fs/sfs/sfs_vnode.c:1245-1297 | the link count changes in memory and the inode is dirty |
| `SfsOps.AddLink` | kern/fs/sfs/sfs_vnode.c:1245-1264 | a name and a link more, or nothing, with the answer of adding the name |
| `SfsOps.DropLink` | kern/fs/sfs/sfs_vnode.c:1271-1297 | a name and a link fewer |
| `SfsOps.PickUp` | kern/fs/sfs/sfs_vnode.c:1658-1670 | one more reference to an existing file |
| `SfsOps.Lookup` | kern/fs/sfs/sfs_vnode.c:728-752 | the file bound to a name with one more reference; ENOENT exactly for an unbound name |
| `SfsOps.LinkFile` | kern/fs/sfs/sfs_vnode.c:1245-1264 | adds exactly one binding and one link; each error exactly in its case: EEXIST for a name in use, ENAMETOOLONG past 59 bytes, EINVAL and ENOSPC as the slot it would fill and the free blocks determine; the entries are then as before |
| `SfsOps.Remove` | kern/fs/sfs/sfs_vnode.c:1271-1297 | removes exactly one binding; the file lives on if linked or referenced and otherwise all its blocks are freed |
| `SfsOps.RenameBinds` | kern/fs/sfs/sfs_vnode.c:1307-1379 | linking the new name and clearing the old slot changes exactly one name |
| `SfsOps.Rename` | kern/fs/sfs/sfs_vnode.c:1307-1379 | exactly the name of one file changes, its bytes, links and references do not; ENOENT exactly for an unbound name, and otherwise the answer of adding the new name; every error leaves the directory's entries as they were |
| `SfsOps.Relink` | kern/fs/sfs/sfs_vnode.c:1307-1379 | link, then unlink; the second cannot fail, so the recovery code is never needed and the answer is that of linking |
| `SfsOps.Creat` | kern/fs/sfs/sfs_vnode.c:1185-1236 | opens the existing file unless it had to be new, or makes one empty once-linked file bound to the name; the answer is determined by the entries, the directory's block map and the number of free blocks, and a success spends exactly the inode and what the directory needs; a failure leaves names, files and vnodes as before, and every free block lost was taken by the directory |
| `SfsOps.CreatFits` | kern/fs/sfs/sfs_vnode.c:1185-1236 | ENAMETOOLONG and EINVAL exactly in their cases, once a block for the inode is free; ENOSPC only for a new name and fewer than three free blocks |
| `SfsOps.CreateNew` | kern/fs/sfs/sfs_vnode.c:1185-1236 | the branch for a new name, including undoing the fresh inode when linking fails, which gives its block back |
| `SfsOps.EmptyGone` | kern/fs/sfs/sfs_vnode.c:858-924 | letting go of an empty unlinked file frees its inode block and nothing else |
| `SfsRuns.UsesIsOwner` | kern/fs/sfs/sfs_vnode.c:60-261 | what the directory, the loaded vnodes, the inodes in force and the indirect blocks say uses a block is what the invariant records |
| `SfsRuns.LiveIsFile` | kern/fs/sfs/sfs_vnode.c:1547-1670 | the files there are are those loaded, the root and those named by an entry |
| `SfsRuns.MarkedIffOneUse` | kern/fs/sfs/sfs_vnode.c:60-261 | in every state of a run a block is marked if and only if it has exactly one use: superblock, map, the inode of a file that is linked or loaded, its indirect block or one slot of its block map |
| `SfsRuns.NoSharing` | kern/fs/sfs/sfs_vnode.c:60-261 | no block belongs to two files, nor twice to one |
| `SfsRuns.NamesAndLinks` | kern/fs/sfs/sfs_vnode.c:614-720 | names are unique, each link count is the number of names (one more for the root), and an unlinked file is alive only while referenced |
| `SfsRuns.FileIo` | kern/fs/sfs/sfs_vnode.c:931-948 | reading and writing files keeps the filesystem in order and the directory unchanged, moves exactly what sfs_io says, the end of file included, and answers as it does |
| `SfsRuns.TruncateFile` | kern/fs/sfs/sfs_vnode.c:1065-1157 | so does truncation, after which the size is the length asked for |
| `SfsRuns.Fsync` | kern/fs/sfs/sfs_vnode.c:1043-1047 | so does writing an inode back |
| `SfsRuns.Perform` | kern/fs/sfs/sfs_vnode.c:1183-1379 | one operation of any kind keeps the filesystem in order and does what that operation does, with its own answer: lookup, create, link, unlink, rename, read, write, truncate, fsync or release |
| `SfsRuns.Run` | kern/fs/sfs/sfs_vnode.c:1183-1379 | any sequence of operations is a history: the volume before, after and between, each step being the operation asked for with the answer returned |
| `SfsHistory.NameStands` | kern/fs/sfs/sfs_vnode.c:1183-1379 | in any run a name stays bound to its file through every operation that does not unlink, move or bind that name |
| `SfsHistory.FileStands` | kern/fs/sfs/sfs_vnode.c:1183-1379 | and a file with a name that stands keeps its bytes and size through every operation that does not write or cut it |
| `SfsHistory.LookUpFinds` | kern/fs/sfs/sfs_vnode.c:728-752 | looking a bound name up gives its file, and an unbound one nothing |
| `SfsHistory.CreateThenMove` | kern/fs/sfs/sfs_vnode.c:1185-1379 | a file created as a and moved to b is bound to b, not to a, with the same bytes, as long as neither name is touched, whatever else is done before, between and after |
| `SfsHistory.UnlinkUnnames` | kern/fs/sfs/sfs_vnode.c:1271-1297 | an unlinked name is bound to nothing until it is bound again |
| `SfsHistory.LinkAddsName` | kern/fs/sfs/sfs_vnode.c:1245-1264 | after a link both names are bound to the file |
| `SfsHistory.WriteThenRead` | kern/fs/sfs/sfs_vnode.c:419-513 | what was written to a named file is what a read of the same range returns, whatever is done in between that does not write or cut it or touch its name |
| `SfsTails.TruncatedBytes` | kern/fs/sfs/sfs_vnode.c:1065-1157 | each byte of the image after truncation: blocks that stay, stay whole |
| `SfsTails.TruncatedPrefix` | kern/fs/sfs/sfs_vnode.c:1065-1157 | below the new length, if that is no more than the old, every byte stays |
| `SfsTails.TruncateThenRead` | kern/fs/sfs/sfs_vnode.c:1065-1157 | truncation to a length up to the old size and then a read of that many bytes from 0 returns exactly the first bytes of the old image |
| `SfsTails.TailReadsZero` | kern/fs/sfs/sfs_vnode.c:1065-1157 | after truncation everything past the new length reads as zero if and only if the old bytes from there to the end of the block, and of the next block in the indirect range, were zero |
| `SfsTails.GrownShowsTail` | kern/fs/sfs/sfs_vnode.c:1065-1157 | a write further on makes exactly those old bytes part of the file again |
| `SfsTails.TruncatedBelowZero` | kern/fs/sfs/sfs_vnode.c:1065-1157 | a negative length is not refused: nothing can be read afterwards, and all blocks are given back from -1022 on and none below |
| `SfsTails.FreshMount` | sbin/mksfs/mksfs.c:41-165 | mksfs and mount give an empty directory, opened, with at least four free blocks from 64 blocks on |
| `SfsTails.KeepsOneTooMany` | kern/fs/sfs/sfs_vnode.c:1111-1124 | on any fresh filesystem of 64 blocks or more: create, write one byte at 10240, truncate to 10240 bytes; block 20 is still mapped and holds the byte |
| `SfsMount.SavedIsMapBytes` | kern/fs/sfs/sfs_fs.c:41-73 | map blocks that hold a bitmap read back as that bitmap |
| `SfsMount.CleanOnDevice` | kern/fs/sfs/sfs_fs.c:82-145 | a clean filesystem with nothing loaded is all on the device |
| `SfsMount.SyncVnodes` | kern/fs/sfs/sfs_fs.c:82-145 | every loaded inode is written back and clean, and nothing changes its meaning |
| `SfsMount.WriteMap` | kern/fs/sfs/sfs_fs.c:41-73 | the freemap is written sector by sector and then clean |
| `SfsMount.Sync` | kern/fs/sfs/sfs_fs.c:82-145 | afterwards nothing is dirty and names, contents, links and free blocks are as before |
| `SfsMount.Unmount` | kern/fs/sfs/sfs_fs.c:167-192 | EBUSY exactly while vnodes are loaded; otherwise the device describes the filesystem |
| `SfsMount.ReadMap` | kern/fs/sfs/sfs_fs.c:41-73 | the bitmap read is the one stored |
| `SfsMount.Mount` | kern/fs/sfs/sfs_fs.c:210-311 | EINVAL exactly for a wrong magic number; from a device in order, the filesystem it describes |
| `SfsMount.Remount` | kern/fs/sfs/sfs_fs.c:82-311 | sync, unmount and mount give back the same files, names, link counts and free blocks |
| `SfsLayout.InodeLayout` | kern/include/kern/sfs.h:45-52 | an inode block byte by byte: size, type, link count, 15 block numbers and the indirect block, most significant byte first |
| `SfsLayout.EntryLayout` | kern/include/kern/sfs.h:57-60 | a directory entry byte by byte: inode number, name, zeros up to 64 bytes |
| `SfsLayout.SuperLayout` | kern/include/kern/sfs.h:33-39 | the superblock starts with 0xabadf001 and the number of blocks |
| `SfsLayout.FreemapLayout` | kern/fs/sfs/sfs_fs.c:41-73 | once written back, bit b of the freemap is bit b % 8 of byte b / 8 of the blocks from the third on |
| `SfsLayout.FileThere` | kern/fs/sfs/sfs_vnode.c:1547-1670 | two descriptions of one device have the same files, because each file has a name in the one directory |
| `SfsLayout.DeviceDetermines` | kern/fs/sfs/sfs_fs.c:210-311 | a device describes at most one filesystem: files, block maps, inodes and the use of every block follow from its bytes, so what Mount is told of them adds nothing |
| `Mksfs.FreshInv` | sbin/mksfs/mksfs.c:41-114 | the layout mksfs writes satisfies the ownership invariant |
| `Mksfs.FreshDir` | sbin/mksfs/mksfs.c:60-71 | and its root directory is empty and in order |
| `Mksfs.BuildBitmap` | sbin/mksfs/mksfs.c:77-114 | exactly superblock, root inode, map blocks and the bits past the end are marked, each once |
| `Mksfs.Mkfs` | sbin/mksfs/mksfs.c:41-165 | refuses exactly names of 32 bytes or more and devices of more than 131072 blocks; otherwise the device holds a filesystem in order, with one empty directory, exactly the metadata blocks in use, and the volume name, ended by zeros, in the superblock |
| `KheapModel.OffApart` | kern/lib/kheap.c:352-460 | different blocks of a page do not overlap |
| `KheapModel.LiveDisjoint` | kern/lib/kheap.c:546-577 | any two ranges handed out and not yet freed are disjoint |
| `KheapModel.HeldAddr` | kern/lib/kheap.c:464-540 | a live address on a subpage page is one of its blocks and not on its free list |
| `KheapSteps.TakeBlockKeeps` | kern/lib/kheap.c:352-460 | taking the first free block keeps lists, free lists, page addresses and the record of what clients hold |
| `KheapSteps.GiveBlockKeeps` | kern/lib/kheap.c:464-540 | pushing a block back keeps them |
| `KheapSteps.FreeBound` | kern/lib/kheap.c:464-540 | a free list has at most as many blocks as the page, and exactly that many if and only if all are free |
| `KheapSteps.AddRunKeeps` | kern/lib/kheap.c:546-563 | a whole-page allocation keeps the invariant and is apart from all else |
| `KheapSteps.DropRunKeeps` | kern/lib/kheap.c:566-577 | freeing one keeps it, and its address is page-aligned |
| `KheapSteps.ClientStoreKeeps` | kern/lib/kheap.c:352-460 | whatever aligned word a client writes into its own block, no free list is disturbed |
| `KheapPages.AddPageKeeps` | kern/lib/kheap.c:352-460 | a fresh page joins its size list and the list of all pages with every block free |
| `KheapPages.ListBypass` | kern/lib/kheap.c:309-330 | bypassing an element of a linked list removes it and keeps the order |
| `KheapPages.DropPageKeeps` | kern/lib/kheap.c:464-540 | a wholly free page leaves both lists and the in-use bits, and nothing live was on it |
| `Kheap.Heapkeeper.constructor` | kern/lib/kheap.c:106-133 | the empty heap is in order |
| `Kheap.Heapkeeper.AllocPageref` | kern/lib/kheap.c:112-133 | takes the first unused pageref; none exactly when all 256 are used |
| `Kheap.Heapkeeper.FreePageref` | kern/lib/kheap.c:137-148 | clears one in-use bit |
| `Kheap.Heapkeeper.Blocktype` | kern/lib/kheap.c:334-348 | the smallest block size that holds the request |
| `Kheap.Heapkeeper.FindRoom` | kern/lib/kheap.c:352-460 | a page of the size with a free block, if there is one |
| `Kheap.Heapkeeper.TakeFree` | kern/lib/kheap.c:352-460 | the first free block; the source's assertions about the free list hold |
| `Kheap.Heapkeeper.Thread` | kern/lib/kheap.c:352-460 | chains every block of a fresh page, last to first, touching no memory outside it |
| `Kheap.Heapkeeper.MakePage` | kern/lib/kheap.c:352-460 | sets up a fresh page of free blocks at the head of both lists |
| `Kheap.Heapkeeper.SubpageKmalloc` | kern/lib/kheap.c:352-460 | a block of the right size that was not live; failure changes nothing and happens only without a page or a pageref; with a spare block of that size it succeeds on a page already held |
| `Kheap.Heapkeeper.FindPage` | kern/lib/kheap.c:464-540 | the page an address is on, if it is one of ours |
| `Kheap.Heapkeeper.RemoveSame` | kern/lib/kheap.c:309-330 | takes a pageref off its size list |
| `Kheap.Heapkeeper.RemoveAll` | kern/lib/kheap.c:309-330 | takes a pageref off the list of all pages |
| `Kheap.Heapkeeper.FillDeadbeef` | kern/lib/kheap.c:8-16 | fills the block and writes inside it only |
| `Kheap.Heapkeeper.PutFree` | kern/lib/kheap.c:464-540 | the block becomes the head of its page's free list |
| `Kheap.Heapkeeper.RetirePage` | kern/lib/kheap.c:464-540 | a wholly free page is unlinked everywhere |
| `Kheap.Heapkeeper.FreeOn` | kern/lib/kheap.c:464-540 | exactly the one range is freed, filled and written to; the page goes back exactly when nothing live is left on it; the panic and the assertion are unreachable |
| `Kheap.Heapkeeper.SubpageKfree` | kern/lib/kheap.c:464-540 | claims exactly the addresses on subpage pages |
| `Kheap.Heapkeeper.Kmalloc` | kern/lib/kheap.c:546-563 | a range not live before, disjoint from every live range, aligned to its block or page, on a page already held or the one supplied; a page already held whenever a block of that size is spare; no word of what clients hold changes; keeps the invariant; on failure nothing changes |
| `Kheap.Heapkeeper.Kfree` | kern/lib/kheap.c:566-577 | routes a live pointer to the path that produced it, frees exactly that range, fills a block and changes no word of what clients still hold; keeps the invariant; null does nothing |
| `Kheap.NoneSpare` | kern/lib/kheap.c:352-460 | if no page of a size has anything on its free list, every block of that size is held |
| `Kheap.SuppliedUndisturbed` | kern/lib/kheap.c:352-460 | threading a supplied page writes to nothing that clients hold |
| `Kheap.FreedUndisturbed` | kern/lib/kheap.c:464-540 | nor does filling a freed block |
| `Kheap.AllocateAndFree` | kern/lib/kheap.c:546-577 | freeing what was just allocated restores live ranges, pages and runs |
| `Kheap.GrantCoversRequest` | kern/lib/kheap.c:546-563 | the range is at least as large as requested if and only if the request is at most 2^32 - 4096 bytes, beyond which the rounding wraps; below 2048 it is the least power of two from 16 on that holds the request, and from there whole pages |
| `Kheap.WholeAddressSpaceGrantsNothing` | kern/lib/kheap.c:546-563 | a request for 2^32 - 1 bytes asks for no page at all |
| `KheapCheck.CheckSubpage` | kern/lib/kheap.c:167-199 | none of the disabled per-page assertions can fail, those about kernel addresses included, and the walk counts nfree blocks |
| `KheapCheck.CheckSubpages` | kern/lib/kheap.c:207-230 | nor can the global ones: the size lists together are as long as the list of all pages |
| `KheapRuns.Allocate` | kern/lib/kheap.c:546-563 | kmalloc over a supplier that offers any free run: disjoint from all that is live, refusing only without a spare block and an offer or a pageref, and the supplier's record of runs stays exact |
| `KheapRuns.Release` | kern/lib/kheap.c:566-577 | kfree over that supplier: what it hands back is exactly one run of the record |
| `KheapRuns.Run` | kern/lib/kheap.c:546-577 | any sequence of allocations, frees of live pointers and stores by clients into what they hold is a history in which each request does what it asks, the heap is in order before and after each, and what is live is what clients hold |
| `KheapRuns.HeldUntilFreed` | kern/lib/kheap.c:546-577 | in any run what a client holds stays its own until it frees it, and nothing handed out meanwhile overlaps it |
| `KheapRuns.StoredUntilFreed` | kern/lib/kheap.c:546-577 | in any run a word that a client stored in what it holds is there until it stores there again or frees it, whatever others allocate, free or store |
| `QueueLib.Queue.constructor` | kern/lib/queue.c:54-68 | an empty queue |
| `QueueLib.Queue.Doubled` | kern/lib/queue.c:19-51 | doubling reaches the target and stays below twice it |
| `QueueLib.Queue.Grow` | kern/lib/queue.c:19-51 | keeps the contents in order across the copy, which never grows the queue again and ends |
| `QueueLib.Queue.Preallocate` | kern/lib/queue.c:71-81 | keeps the contents and makes room; allocates only to grow |
| `QueueLib.Queue.AddTail` | kern/lib/queue.c:91-108 | appends; grows exactly when one slot is left, and fails only then and without memory |
| `QueueLib.Queue.RemHead` | kern/lib/queue.c:111-121 | removes and returns the first element |
| `PtrArray.Array.Preallocate` | kern/lib/array.c:43-65 | keeps the contents and makes room |
| `PtrArray.Array.SetSize` | kern/lib/array.c:68-89 | keeps the common prefix; gives up its storage when emptied above 16 slots |
| `PtrArray.Array.Add` | kern/lib/array.c:100-114 | appends; allocates only when full |
| `PtrArray.Array.Remove` | kern/lib/array.c:117-127 | removes one element and keeps the order of the others |
| `ThreadModel.WakeupSplits` | kern/thread/thread.c:553-580 | the woken and the others are together the sleepers, each once |
| `ThreadModel.WakeupMembers` | kern/thread/thread.c:553-580 | exactly the sleepers on the address are woken |
| `ThreadModel.ReachEnds` | kern/thread/thread.c:584-615 | thread_wakeup_n stops just past the first match with exactly n other sleepers before it, or at the end |
| `ThreadModel.WakeupNSelects` | kern/thread/thread.c:584-615 | it wakes a prefix of the matching sleepers, in order, not empty if there is one, and disturbs nobody else |
| `ThreadModel.WakeupNCounts` | kern/thread/thread.c:584-615 | it wakes as many as asked, or all if there are fewer, if and only if, with more than n matches, n of the first 2n sleepers match, the last of these does and the one before it does not, and else no match but the last has exactly n others before it |
| `ThreadModel.WakeupNNotACount` | kern/thread/thread.c:584-615 | asked for two it may wake three, and asked for none it may wake one |
| `ThreadModel.OnePlaceEach` | kern/thread/thread.c:273-509 | each live thread is in exactly one of current, run queue and sleepers, and numthreads is their total |
| `ThreadModel.ZombiesApart` | kern/thread/thread.c:108-122 | zombies are distinct thread structures of no live thread |
| `ThreadModel.DispatchedKeeps` | kern/thread/scheduler.c:88-105 | what runs next is alive and no zombie |
| `ThreadModel.NobodyBackFromTheDead` | kern/thread/thread.c:471-509 | the thread that exits is not what runs next |
| `ThreadModel.IdleKeeps` | kern/thread/scheduler.c:88-105 | interrupts in the idle loop keep the thread invariant |
| `ThreadModel.ResumedKeeps` | kern/thread/thread.c:379-461 | so does the rest of a context switch, which brings nobody to life |
| `ThreadModel.YieldGrows` | kern/thread/thread.c:515-524 | yielding needs a larger run queue exactly when as many threads can run as it has slots |
| `ThreadModel.RoundRobin` | kern/thread/scheduler.c:88-118 | a thread with k others ahead of it is what the scheduler call after k others returns, in a queue that is only appended to |
| `ThreadTables.Tables.Preallocate` | kern/thread/thread.c:314-336 | afterwards sleepers and run queue have room for that many threads |
| `ThreadTables.Tables.MakeRunnable` | kern/thread/scheduler.c:112-118 | appends to the run queue; it grows exactly when one slot is left |
| `ThreadTables.Tables.AddSleeper` | kern/thread/thread.c:417-431 | appends to the sleepers; allocates only when they are full |
| `ThreadTables.Play` | kern/thread/scheduler.c:88-118 | on the run queue itself, whatever is made runnable meanwhile, a thread with k others ahead of it is what the call after k others returns |
| `ThreadTables.Tables.ClearZombies` | kern/thread/thread.c:108-122 | shrinking to nothing cannot fail, and gives back more than 16 slots although they were preallocated |
| `Threads.System.constructor` | kern/thread/thread.c:212-252 | one thread, running |
| `Threads.System.Fork` | kern/thread/thread.c:274-372 | one live thread more, at the end of the run queue, or no change; once memory is preallocated the rest cannot fail even without memory |
| `Threads.System.Wakeup` | kern/thread/thread.c:553-580 | exactly the sleepers on the address move, in order; with a current thread this needs no memory and never grows the queue |
| `Threads.System.Look` | kern/thread/thread.c:553-615 | the loop body: a sleeper on the address moves to the end of the run queue, another stays |
| `Threads.System.WakeupN` | kern/thread/thread.c:584-615 | exactly the selected sleepers move, in order, likewise without memory |
| `Threads.System.Exorcise` | kern/thread/thread.c:108-122 | frees every zombie structure and never the current thread |
| `Threads.System.IdleLoop` | kern/thread/scheduler.c:88-105 | wakes by interrupts until something is ready |
| `Threads.System.Dispatch` | kern/thread/thread.c:434-456 | the head of the run queue becomes current; zombies go if it comes back through the switch |
| `Threads.System.MiSwitch` | kern/thread/thread.c:379-461 | the current thread is put where its next state says and the next one runs; the assertion fails exactly if that list is full and there is no memory |
| `Threads.System.RoomToSleep` | kern/thread/thread.c:314-336 | after the first fork there is always room to sleep |
| `Threads.System.Yield` | kern/thread/thread.c:515-524 | from a thread, back of the run queue, or a panic exactly if it is full and there is no memory; from an interrupt in the idle loop, nothing |
| `Threads.System.Sleep` | kern/thread/thread.c:538-546 | onto the sleepers with its address; it panics exactly if they are full and there is no memory, which happens only before the first fork |
| `Threads.System.Exit` | kern/thread/thread.c:471-509 | becomes a zombie and is not what runs afterwards; a panic exactly if the zombies are full and there is no memory |
| `Threads.FullHouse` | kern/thread/thread.c:515-524 | a reachable state in which yielding has to grow the run queue: preallocation does not cover it |
| `Threads.FullHousePanics` | kern/thread/thread.c:417-431 | where a yield without memory panics |
| `Threads.GravesGone` | kern/thread/thread.c:108-122 | a reachable state, after 16 forks and their exits, in which exorcise has given the preallocated zombie slots back |
| `Threads.GravesGonePanics` | kern/thread/thread.c:471-509 | where an exit without memory panics |
| `Threads.Step` | kern/thread/thread.c:273-615 | one event does to the thread system exactly what its steps say, and only a yield, sleep or exit without memory panics |
| `Threads.Run` | kern/thread/thread.c:273-615 | any sequence of forks, yields, sleeps, exits, wakeups and interrupts takes the system from state to state as the steps say, from the state before to the state after; every thread is in its one place throughout, and what runs in any of these states was alive at the start or has been forked since |
| `Threads.AliveOrForked` | kern/thread/thread.c:273-615 | every state of a run is in order, what runs in it is alive, and who is alive was alive earlier or has been forked since |
| `Threads.NeverRunsAgain` | kern/thread/thread.c:471-509 | in any run a thread that exits neither runs nor is alive in any later state until its structure is forked anew |
| `ThreadLaws.YieldLaw` | kern/thread/thread.c:515-524 | a thread that yields goes behind those that are ready, of which the first runs; alone it runs on |
| `ThreadLaws.SleepLaw` | kern/thread/thread.c:538-546 | a thread that sleeps is the last of the sleepers with its address, and the first that is ready runs |
| `ThreadLaws.ExitLaw` | kern/thread/thread.c:471-509 | a thread that exits is alive no more, one thread fewer is counted, and the first that is ready runs |
| `ThreadLaws.WakeupLaw` | kern/thread/thread.c:553-580 | a wakeup leaves nobody asleep on the address, wakes nobody else, and puts the woken behind those that were ready |
| `ThreadLaws.ForkLaw` | kern/thread/thread.c:274-372 | a thread forked with memory at hand is alive, the last of those that are ready, and counted |
| `ThreadLaws.InTurn` | kern/thread/scheduler.c:88-118 | in any run a thread with p others ahead of it in the run queue moves up one place with each scheduler call, and is what the call after p of them picks |
| `ThreadLaws.SleepsUntilWoken` | kern/thread/thread.c:538-615 | in any run a sleeper sleeps on, and does not run, until some wakeup of its address |
| `Synch.CountIsUpsLessDowns` | kern/thread/synch.c:63-96 | over any run the count of a semaphore is its initial count plus the V's below the largest count, from threads or interrupts, less the P's by threads at a positive count |
| `Synch.MutualExclusion` | kern/thread/synch.c:143-196 | over any run the acquisitions and releases of a lock alternate, each release being by the thread that acquired, and the owner is the last to have acquired if it has not released |
| `Synch.UpRaises` | kern/thread/synch.c:87-96 | every V below the largest count, from a thread or with no thread current, raises the count by one, leaves nobody asleep on the semaphore and everyone asleep elsewhere where it was |
| `Synch.DownTakesOrSleeps` | kern/thread/synch.c:63-84 | a P at a positive count takes one and goes on; at 0 the thread sleeps on the semaphore |
| `Synch.LockTakesOrSleeps` | kern/thread/synch.c:143-171 | a free lock is taken by the current thread, an owned one makes it sleep |
| `Synch.UnlockFrees` | kern/thread/synch.c:175-196 | a release by the owner frees the lock and leaves nobody asleep on it |
| `Synch.IdleUpWakes` | kern/thread/synch.c:87-96 | on an idle processor a V from an interrupt makes the first sleeper on the semaphore run next |
| `Synch.QuietSleep` | kern/thread/synch.c:63-84 | going to sleep on a semaphore at 0 or an owned lock keeps every sleeper justified |
| `Synch.QuietWoken` | kern/thread/synch.c:87-96 | after a wakeup nobody sleeps on the address, so its count may rise or its owner go |
| `Synch.QuietTake` | kern/thread/synch.c:63-84 | nobody sleeps on a positive semaphore or a free lock, so it may be taken |
| `Synch.Kernel.constructor` | kern/thread/synch.c:19-38 | the given counts, free locks, one thread, and nobody waiting |
| `Synch.Kernel.P` | kern/thread/synch.c:63-84 | takes one if the count is positive and otherwise sleeps; the count never goes below 0 |
| `Synch.Kernel.V` | kern/thread/synch.c:87-96 | one more, and everyone asleep on the semaphore becomes runnable; the assertion fails exactly at the largest count |
| `Synch.Kernel.Acquire` | kern/thread/synch.c:143-171 | takes the lock exactly when nobody holds it, and otherwise sleeps |
| `Synch.Kernel.Release` | kern/thread/synch.c:175-196 | gives the lock up, and everyone asleep on it becomes runnable |
| `Synch.Step` | kern/thread/synch.c:63-196 | one event changes exactly what it says: counts, owners, who waits and where every thread is |
| `Synch.Run` | kern/thread/synch.c:63-196 | any interleaving does what its events say, event by event, up to a V at the largest count; so count = initial + V's - P's and the holders of each lock follow one another, both over the events of the run; and a sleeper on a semaphore or lock means count 0 or lock held |
| `ProcTable.Table.Remove` | kern/syscalls/process.c:124-134 | frees a structure that nothing refers to, and empties its slot |
| `ProcTable.Table.FindSlot` | kern/syscalls/process.c:30-54 | the first slot that is empty or reclaimable, and following parent pointers is safe; what is reclaimed has exited and has no parent |
| `ProcTable.Table.Add` | kern/syscalls/process.c:30-121 | a new process in the first slot that is empty or can be reclaimed, its PID being its index; nothing but what can be reclaimed goes for it |
| `ProcTable.Table.Start` | kern/syscalls/process.c:30-73 | a process without a parent |
| `ProcTable.Table.ForkAdd` | kern/syscalls/process_syscall.c:146-152 | the child takes a slot while its parent is blocked, exactly unless all are taken; without one the fork is over and returns 11, the number of EAGAIN, as a PID |
| `ProcTable.Table.ForkNoMemory` | kern/syscalls/process_syscall.c:130-135 | without an address space the fork is over and returns 4, the number of ENOMEM, as a PID |
| `ProcTable.Table.ForkAdopt` | kern/syscalls/process_syscall.c:153-155 | the child gets its parent, which is still present and has not exited |
| `ProcTable.Table.ForkDone` | kern/syscalls/process_syscall.c:157-178 | the child runs and fork returns its PID; or without a file table it is removed while nothing refers to it, and fork returns the number of the error as a PID |
| `ProcTable.Table.ExitProcess` | kern/syscalls/process.c:137-173 | exit code and flag are set, and exactly the children of the process lose their parent |
| `ProcTable.Table.Exit` | kern/syscalls/file_syscall.c:193-231 | a process with a parent exits; one without leaves the table as it is; and what is left is doomed to keep its slot if and only if it has no parent that is still running |
| `ProcTable.Table.Waitpid` | kern/syscalls/process_syscall.c:43-96 | each error exactly in its case; otherwise the exit code the child gave, which is then gone, or the caller blocks, exactly if the child has not exited |
| `ProcTable.Table.WaitDone` | kern/syscalls/process_syscall.c:82-94 | a blocked caller gets the exit code its child gave, once |
| `ProcTable.ReclaimRemovable` | kern/syscalls/process.c:30-54 | a reclaimable process has no parent, is not running and nobody waits for it |
| `ProcTable.SlotSpares` | kern/syscalls/process.c:30-54 | slot search spares everything but processes that have exited and have no parent |
| `ProcTable.ExitKeeps` | kern/syscalls/process.c:137-173 | after an exit every parent pointer still leads to a process that is present and has not exited |
| `ProcTable.KidRemovable` | kern/syscalls/process_syscall.c:75-94 | a collected child is referred to by nobody else |
| `ProcTable.ProcessGetInBounds` | kern/syscalls/process.c:176-182 | process_get stays inside the table exactly for the PIDs other than 100 |
| `ProcTable.ForkHidesErrors` | kern/syscalls/process_syscall.c:189-224 | sys_fork takes every error of the child for a PID |
| `ProcTable.StoreInOrder` | kern/syscalls/process.c:30-73 | storing a new process in the slot found keeps every process at its index if and only if the slot is still empty |
| `ProcTable.TwoSearches` | kern/syscalls/process.c:76-100 | two searches with no store between them find the same slot |
| `ProcTable.TwoStores` | kern/syscalls/process.c:76-121 | of two forks that store in one slot the second leaves a process that is not at its index |
| `ProcTable.ParentStuck` | kern/syscalls/process.c:137-173 | a parent that does not run has left without a parent of its own |
| `ProcRuns.Step` | kern/syscalls/process_syscall.c:43-224 | any one step does what it says, with its own answer, keeps the table in order and frees or changes nothing that is doomed |
| `ProcRuns.Run` | kern/syscalls/process_syscall.c:43-224 | any sequence of steps of fork, _exit and waitpid is a history in which each step does what it says; PIDs, parents and exit codes stay in order; a process that left without a parent, and one that exited whose parent left so, keep their slots for ever |
| `ProcHistory.EnteredBy` | kern/syscalls/process.c:30-73 | a new process gets the lowest PID that no process has which runs or may be waited for |
| `ProcHistory.LeftSince` | kern/syscalls/process.c:137-173 | in any run a process has its exit flag and code by its own exit only |
| `ProcHistory.StatusIsOwn` | kern/syscalls/process_syscall.c:43-96 | in any run a status that waitpid returns for a child is the code of that child's own exit, and it is returned to the child's parent |
| `ProcHistory.CollectedOnce` | kern/syscalls/process_syscall.c:43-96 | in any run no exit is collected twice: before the next collection of that name there is another exit |
| `ProcHistory.WaitsUntilExit` | kern/syscalls/process_syscall.c:82-94 | who waits for a child goes on waiting until the child has exited, and returns only with its code |
| `ProcRuns.FinishFork` | kern/syscalls/process_syscall.c:122-224 | a fork under way can be brought to its end, disturbing nobody older |
| `ProcRuns.Unblock` | kern/syscalls/process_syscall.c:82-94 | whatever a running process is blocked in, there are steps that free it: the child it waits for is freed in the same way, exits and is collected |
| `ProcRuns.Collect` | kern/syscalls/process_syscall.c:43-96 | an exited process whose parent runs can be collected: with Exit and Run, a slot can be freed again if and only if its process had a running parent when it left |
| `ProcRuns.LostSlots` | kern/syscalls/file_syscall.c:193-231 | a reachable table in which two slots are lost, whatever happens next |
| `ProcRuns.ForkInFullTable` | kern/syscalls/process_syscall.c:146-152 | a reachable full table: 99 programs run, the first forks, and fork returns 11, the PID of another that is not its child |
| `Bowls.BowlsExclusive` | kern/asst1/catmouse.c:208-244 | no two animals have one bowl, none that is had is on the list, and between P and the list the list is not empty |
| `Bowls.BowlUntouched` | kern/asst1/bowls.c:192-217 | a bowl that an animal is about to eat from shows nobody eating |
| `Bowls.Simulation.constructor` | kern/asst1/catmouse.c:448-484 | every bowl number once on the list, in order, every bowl empty, everyone outside, the semaphore at the number of bowls |
| `Bowls.Simulation.Down` | kern/asst1/catmouse.c:209 | one animal past the semaphore |
| `Bowls.Simulation.Take` | kern/asst1/catmouse.c:211-219 | finds the list non-empty and a bowl number in range |
| `Bowls.Simulation.BeginEat` | kern/asst1/bowls.c:192-231 | the check for two of a kind at one bowl cannot fire; the check for the other kind is the only one that can |
| `Bowls.Simulation.EndEat` | kern/asst1/bowls.c:233-248 | the bowl still shows this animal and the count is positive |
| `Bowls.Simulation.GiveBack` | kern/asst1/catmouse.c:226-230 | the bowl number is back on the list |
| `Bowls.Simulation.Up` | kern/asst1/catmouse.c:243 | the semaphore counts again |
| `Bowls.Run` | kern/asst1/catmouse.c:208-244 | any interleaving of any number of cats and mice is a history in which each event does what it says to one animal; it stops exactly where an animal would begin to eat among the other kind |
| `Bowls.EachItsOwn` | kern/asst1/catmouse.c:208-244 | in any run an animal moves only by its own events, one step of its round at a time: in, a bowl, a meal from that bowl, the bowl back, out |
| `Bowls.NeverShared` | kern/asst1/bowls.c:192-248 | at no moment of a run do two animals have one bowl, is a bowl in use on the list, or does a cat eat while a mouse does |
| `Bowls.SomeoneCanMove` | kern/asst1/catmouse.c:208-244 | with a bowl and an animal there is always an animal that is not blocked |
| `Random.RecurrenceLaw` | lib/libc/random.c:396-442 | the recurrence starts with its first words, and every further word is the sum of the words deg and sep back, mod 2^32 |
| `Random.WindowSlides` | lib/libc/random.c:396-442 | stepping the window is moving along that recurrence |
| `Random.StreamIsRecurrence` | lib/libc/random.c:396-442 | the n-th value returned is half the n-th further word of the recurrence |
| `Random.TableStep` | lib/libc/random.c:415-442 | adding through the two pointers in the circular table is one step of the window |
| `Random.PointersStep` | lib/libc/random.c:396-442 | the pointers stay sep apart and never both wrap |
| `Random.Generator.NextLcg` | lib/libc/random.c:420-423 | the linear congruential step |
| `Random.Generator.NextFeedback` | lib/libc/random.c:423-442 | one step of the window, and the value without its lowest bit |
| `Random.Generator.Next` | lib/libc/random.c:415-442 | either, by type |
| `Random.Generator.Spread` | lib/libc/random.c:232-247 | the table filled by the linear congruential rule |
| `Random.Generator.Cycle` | lib/libc/random.c:243-247 | 10 * deg steps bring the rear pointer back to 0 |
| `Random.Generator.Seed` | lib/libc/random.c:232-247 | the seeded generator, 10 * deg steps on, with the rear pointer at 0 |
| `Random.SeededAt` | lib/libc/random.c:232-247 | the seeded table starts with the seed, and each further word is 1103515245 times the one before plus 12345, mod 2^32 |
| `Random.SeedAndDraw` | lib/libc/random.c:232-442 | what srandom and then any number of calls return, for the degrees and separations 7 and 3, 15 and 1, 31 and 3, 63 and 1: half of each word of the recurrence that continues the seeded table from word sep on, the first 10 * deg words left out; for type 0 the linear congruential stream mod 2^31 |
| `Random.Generator.Save` | lib/libc/random.c:295-298 | the current array describes the current generator |
| `Random.Generator.Initstate` | lib/libc/random.c:282-332 | the type by size, with degree and separation 7 and 3 from 32 bytes on, 15 and 1 from 64, 31 and 3 from 128 and 63 and 1 from 256, and the seeded generator, described by its array; the old state is put aside intact; nothing happens below 8 bytes |
| `Random.Generator.Setstate` | lib/libc/random.c:354-394 | another array's generator goes on where it was put aside, and the old one is put aside; the current array goes on if and only if its pointer is where it was last put aside, and is otherwise rewound to there |
| `Random.AwayAndBack` | lib/libc/random.c:354-394 | from A to a distinct B, any number of calls, and back to A: A's stream goes on exactly where it stopped |
| `Random.SameStateRewinds` | lib/libc/random.c:344-394 | setting the current state again after one call puts the rear pointer back, against the comment |
| `Pseudorand.UndoStep` | kern/dev/generic/pseudorand.c:15-39 | multiplying by 1407677000 undoes a step |
| `Pseudorand.StepInRange` | kern/dev/generic/pseudorand.c:15-39 | a step stays in 1..2^31 - 2 |
| `Pseudorand.StepBijective` | kern/dev/generic/pseudorand.c:15-39 | a step is a bijection on that range |
| `Pseudorand.Schrage` | kern/dev/generic/pseudorand.c:21-33 | no 32-bit overflow, the difference is never 0, and the result is 16807 * seed mod 2^31 - 1 |
| `Pseudorand.Softc.Random` | kern/dev/generic/pseudorand.c:21-39 | the next seed is 16807 times the last, mod 2^31 - 1, and the number returned is one less |
| `Digits.TextValue` | lib/libc/__printf.c:380-425 | the decimal digits of n spell n |
| `Digits.WordText` | lib/libc/__printf.c:47-54 | a 32-bit number has at most 11 digits in base 8, 10 or 16 |
| `Digits.FillDigits` | lib/libc/__printf.c:380-425 | writes the digits and the terminator without leaving the 12-byte buffer |
| `Digits.FieldWidth` | lib/libc/__printf.c:332-369 | a field is max(width, natural length) characters |
| `AtoiLib.Atoi` | lib/libc/atoi.c:21-72 | the number a string starts with, wrapped to 32 bits |
| `AtoiLib.ParsedForm` | lib/libc/atoi.c:21-72 | every string is blanks and tabs, perhaps a plus or minus, digits, and the rest, and reads as the digits with that sign, in 32 bits |
| `AtoiLib.ReadsBack` | lib/libc/atoi.c:21-72 | atoi of a %d field without zeros on the right is the number |
| `AtoiLib.ReadsShifted` | lib/libc/__printf.c:365-368 | with '-' and '0' the field reads as the number times a power of ten |
| `AtoiLib.ShiftChanges` | lib/libc/atoi.c:21-72 | which, wrapped to 32 bits, is never the number again unless it is 0 |
| `AtoiLib.PrintParse` | lib/libc/__printf.c:332-456 | atoi of a %d field is the number if and only if '-' and '0' did not put zeros after a number other than 0 |
| `AtoiLib.LeftZerosExample` | lib/libc/__printf.c:365-368 | 7 printed with '-', '0' and width 3 reads as 700 |
| `Printf.FieldModifier` | lib/libc/__printf.c:151-206 | eating one modifier and going on is taking them all at once |
| `Printf.RenderDecimal` | lib/libc/__printf.c:463-553 | what any %d conversion prints, with a width that wraps at 32 bits |
| `Printf.FormatParse` | lib/libc/__printf.c:463-553 | atoi reads back what any %d conversion prints, except exactly with zeros on the right of a number other than 0 |
| `Printf.Snp.Send` | lib/libc/snprintf.c:46-64 | the buffer holds the first characters of all that was sent and is otherwise untouched |
| `Printf.Formatter.Modifier` | lib/libc/__printf.c:151-206 | one modifier changes width, side, fill or prefix as it says; the width wraps at 32 bits |
| `Printf.Formatter.PrintStuff` | lib/libc/__printf.c:332-369 | prefixes and text with their padding on the right side of the sign |
| `Printf.Formatter.PrintNum` | lib/libc/__printf.c:380-456 | sign, base prefix and digits in a field |
| `Printf.Formatter.Conversion` | lib/libc/__printf.c:482-527 | one conversion, and the state reset |
| `Printf.Formatter.SendChar` | lib/libc/__printf.c:463-528 | eating one character of the format keeps printed text plus text to come |
| `Printf.Formatter.Vprintf` | lib/libc/__printf.c:536-553 | prints the text of the format and returns its length |
| `Printf.Vsnprintf` | lib/libc/snprintf.c:70-112 | stores exactly the first len - 1 characters and a terminator, leaves the rest of the buffer alone, and returns the full count; with len 0 nothing is stored |
| `PrintfLaws.TextIsNumeral` | lib/libc/__printf.c:380-425 | what is printed of a number in base 8, 10 or 16 is digits of that base, by the characters 0-9 and a-f, that spell the number, with no leading zero |
| `PrintfLaws.OnlyNumeral` | lib/libc/__printf.c:380-425 | and no other text is that |
| `PrintfLaws.FlagsMean` | lib/libc/__printf.c:151-206 | '-' anywhere puts the padding on the right, '#' asks for a prefix, the digits are the width, and fill with zeros exactly if the first is one |
| `PrintfLaws.WordField` | lib/libc/__printf.c:380-528 | %u, %o, %x and %p print the 32-bit word's numeral in base 10, 8, 16 and 16, after 0x for %p and %#x and 0 for %#o, filled to the width as the flags say |
| `PrintfLaws.DecimalField` | lib/libc/__printf.c:380-528 | %d prints the numeral of the magnitude after the sign, filled likewise |
| `PrintfLaws.TextField` | lib/libc/__printf.c:482-527 | %s prints the string or (null), %c the character, and any letter that is no conversion, such as a second %, itself, filled likewise |
| `PrintfLaws.PlainThen` | lib/libc/__printf.c:536-553 | text without % prints as it stands |
| `PrintfLaws.FieldsInOrder` | lib/libc/__printf.c:463-553 | conversions print one after another, and each of doupxsc takes one argument |
| `PrintfLaws.WordReadBack` | lib/libc/__printf.c:380-528 | whatever flags and width stand before u, o, x or p, reading blanks, 0x in base 16 and digits gives the word back in base 10, 8, 16 and 16, except exactly with zeros on the right of a number other than 0 |

## Left out

- SFS locking: operations are atomic.
- SfsVnodes.Reclaim: the `EBUSY` path, taken when another thread picks the vnode up meanwhile, is not modelled, because operations are atomic.
- UioLib.Uio.Move: one region in kernel memory; a request longer than `resid` is covered only where `resid` is the length of the region, as in every uio the kernel builds.
- UioLib.Uio.MoveZeros: the same.
- SFS device errors and their retries, and faults while copying to or from user space.
- SFS volume name and superblock flag: the superblock is magic number and size, and is never dirty; names of volumes are only written by `mksfs`.
- SFS `stat`, `gettype`, `ioctl`, `tryseek`, `namefile`, `mmap` and open flags: they only add easy members.
- SfsOps.Rename: the old name must not stand for the directory itself, where the source asserts.
- SfsOps.LinkFile: the directory may be linked, as the source allows; its count is then the number of names plus one.
- SfsMount.Mount: the device must be large enough for the freemap its superblock claims, which the source does not check before reading.
- Kheap.Heapkeeper.AllocPageref: the in-use bits are booleans, not 32-bit words with masks.
- Kheap.Heapkeeper.Kmalloc: addresses are not bounded by 2^32; the page supplier is taken to hand out runs that end below it.
- Kernel heap statistics (`kheap_printstats`, `dumpsubpage`), which only print.
- Condition variables: `cv_wait` releases the lock before interrupts are off, so no guarantee about signals is stated.
- Thread stacks, address spaces and current directories, `thread_panic`, `thread_shutdown` and the machine-dependent switch.
- Threads.System.IdleLoop: memory is taken to be available for wakeups while nothing runs; with a thread current none is needed.
- Threads.Step: the same holds of its wakeup events.
- Synch.Run: memory is taken to be available to sleep, yield and fork.
- Synch.Kernel.constructor: semaphores and locks exist from the start; creating and destroying them later is not modelled.
- QueueLib.Queue.Doubled: sizes are unbounded integers, so the assertion against overflow is not covered.
- QueueLib.Queue.Grow: sizes are unbounded integers; the result stays below twice the target, so 32 bits suffice for targets up to 2^30.
- ProcTable.Table.Waitpid: PID 100 is excluded by a precondition, since `process_get` would read past the table; the lookup and the lock acquisition after it are one step.
- ProcTable.Table.Add: the slot search and the insertion are one step, although fork calls it without the lock; `StoreInOrder` and `TwoSearches` say what comes of two.
- File descriptor tables, `execv` and the address-space part of fork.
- Cats and mice keeping apart: the code does not ensure it, so the simulation stops there; the counters and condition variables of that protocol are not modelled.
- Bowls.Simulation.Take: the free list is a sequence; that a ring queue implements one is proved in `QueueLib`.
- Random.Generator.Setstate: the array must have been set up by `initstate`; other contents are not modelled.
- Reading `random:` through the device (`pseudorand_read`).
- Printf.Formatter.Vprintf: the number of characters is an unbounded integer, where the source has a 32-bit one.
- Virtual memory (`kern/vm`), ELF loading, drivers, the menu and user programs.
