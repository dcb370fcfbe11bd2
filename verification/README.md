# Verified models of the OS/161 kernel and C library

This project models the parts of OS/161 that carry state from one call to the
next, and proves in Dafny what they keep over every run.

- **SFS**, the file system (`Bitmap`, `Uio`, `Sfs*`): 512-byte blocks, inodes
  with 15 direct blocks and one indirect block, holes, one root directory, the
  table of loaded vnodes, `mksfs`. The block-ownership invariant is
  `SfsBlocks.Inv`; `SfsVnodes.Good` adds the vnode table and the directory with
  its link counts. `SfsAbstract` is the file system a process sees: names,
  files as byte maps, and the files that are open. `SfsRuns.Run` proves that
  every run of operations on a fresh disk is a run of that abstract system, and
  `SfsSync.Sync` that the disk by itself holds it after a sync.
- **Threads** (`Threads*`, `Queue`): every interrupts-off section of the thread
  system, semaphores, locks and condition variables is one step of a state
  machine, and the methods of `ThreadsCode.Kernel` carry the code out.
- **Protocols** (`Stoplight*`, `CatMouse*`): the intersection and the
  cat-and-mouse kitchen, any number of participants, every interleaving: safety
  in all of them, and from each a way to the end for everyone.
- **Memory** (`CoreMap`, `KHeap*`, `Vm*`): the page allocator, the subpage heap
  on top of it, address spaces and the TLB on top of it.
- **libc** (`Malloc`, `Printf*`, `Snprintf`, `Random`) and the
  kernel's `PseudoRand`.

Code that updates state in place is a class with methods or a loop; what it
promises is proved about the abstract value its `ensures` names.

Where the code departs from its comments or from what one would expect, the
model follows the code, and the exact condition is proved:

- `cm_freekpages` loops to `length`, not `cm_index + length`
  (kern/vm/coremap.c:120): a block is released whole exactly when its index is 0
  (`CoreMap.FullRelease`), and never too much is released.
- `sfs_truncate` keeps block number `blocklen` when it lies in the range of the
  indirect block (kern/fs/sfs/sfs_vnode.c:1111 and 1124): nothing past the new
  end stays mapped exactly when that block was a hole or outside that range
  (`SfsFiles.TruncatePastEnd`).
- A failed write raises the size of a file to the offset it started at
  (kern/fs/sfs/sfs_vnode.c:502-505). A write that moves nothing keeps the size
  exactly when it starts inside the file or at its end
  (`SfsFiles.FailedWriteSize`); `SfsFiles.FailedWriteGrows` is an input where it
  does not.
- A read computes its end in 32 bits (kern/fs/sfs/sfs_vnode.c:432-444), and a
  file can be longer than its blocks reach. A read that starts inside the file
  stops at its end without error exactly when offset plus length stays below
  2^31 and either that sum or the file stays within the largest file that has
  blocks (`SfsFiles.ReadOverruns`); `SfsFiles.OneByteOverruns` is an input where
  it does not.
- `thread_wakeup_one` looks only at the first sleeper
  (kern/thread/thread.c:587-588): `cv_signal` wakes someone exactly when the
  first sleeper waits on that condition variable (`ThreadsRuns.SignalExact`).
- A field printed with both `-` and `0` is padded with zeros on the right
  (lib/libc/__printf.c:366-368): it reads back as the number exactly when the
  number is 0 or needs no padding (`PrintfZeros.ZeroPaddingExact`).
- `malloc` rounds a size up, adds a header and hands the sum to `sbrk`, all in
  32 bits, and `sbrk` takes a signed number (lib/libc/malloc.c:330 and 386,
  include/unistd.h:115). The pointer returned is a block of the heap that is big
  enough exactly when the size plus 15 is below 2^31 (`Malloc.UserHeap.Malloc`).
  Sizes above that get a block with no room, or a place past the heap while its
  top stays (`Malloc.SamePlaceTwice`) or moves down (`Malloc.BreakGoesDown`).
- `free` refuses a block exactly when it is the last one and has no room
  (lib/libc/malloc.c:474); `Malloc.RefusedAtTop` is such a run.
- `setstate` on the array in use (lib/libc/random.c:344-345) is said to be all
  right. Word 0 of that array is where it was last saved, so the place is
  undisturbed exactly when the numbers drawn since are a multiple of the degree
  (`Random.SetStateInUse`); `Random.DisturbedByOne` draws one.
- `as_define_region` rounds in 32 bits (kern/vm/addrspace.c:138-145): its pages
  cover the region exactly when no sum wraps (`VmMachine.RegionCovers`);
  `VmMachine.RegionWraps` is a region of 4 GB less a byte that gets no page.
- `vm_fault` computes the end of a segment in 32 bits (kern/vm/vm.c:112-114): the
  pages of a segment are found exactly when it ends below the end of the address
  space (`VmSpace.RangeMapped`); `VmSpace.LastPageUnmapped` is a segment that is
  the last page.
- `num_cars` is meant to be the number of cars inside. A car turning right is in
  its region before it is counted, and every car is out of its last region before
  it is counted off (kern/asst1/stoplight.c:407-413 and 436-446): with its
  semaphore free the number is right exactly when as many cars are still to be
  counted in as are still to be counted off (`StoplightRecord.NumCarsExact`);
  `StoplightRecord.InsideUncounted` is a run to a state where it is not.
- `thread_fork` preallocates the run queue so that making a thread runnable
  should not fail (kern/thread/thread.c:351-355, 438 and 619-621), but a ring of n
  places holds n - 1 threads (kern/lib/queue.c:97-98). When n - 1 forks have made
  n threads and all of them are runnable, the last one needs more memory exactly
  when n is 32 doubled some number of times (`Queue.EveryoneRunnable`,
  `Queue.ExactlyFull`);
  `Queue.LastOfThirtyTwo` is the first such n, and `ThreadsQueue.AllRunnable` a
  run from boot that leaves all n threads in the run queue.

## Model

| member | source | states |
|---|---|---|
| SfsRuns.Run | kern/fs/sfs/sfs_vnode.c:1065-1379 | every run of create, open, close, link, remove, rename, write, read, truncate and sync from a fresh disk, failed operations included, is a run of the abstract file system with the same answers; in every state the files are exactly those named or open, and no space is answered only when one block at most is free; the volume ends consistent |
| SfsRuns.Step | kern/fs/sfs/sfs_vnode.c:1065-1379 | one operation keeps the whole-volume invariant and does to the abstract file system what was asked |
| SfsRuns.SlotsArePeak | kern/fs/sfs/sfs_vnode.c:666-701 | after every run the directory has exactly as many slots as the largest number of names it has held at once, counting the second name a rename holds for a moment |
| SfsRuns.RefusedWhenLong | kern/fs/sfs/sfs_vnode.c:666-701 | in every run a name is refused for the length of the directory only when it holds 1144 names |
| SfsRuns.Mount | kern/fs/sfs/sfs_vnode.c:1655-1670 | a disk mksfs made, mounted, with its root loaded, stands for the empty file system |
| SfsRuns.ViewClean | kern/fs/sfs/sfs_vnode.c:856-924 | no file leaks: in a consistent volume a file exists exactly when it has a name or is open |
| SfsRuns.DoCreate | kern/fs/sfs/sfs_vnode.c:1185-1236 | creating, with the reference the caller gets, refines adding an empty file under a new name |
| SfsRuns.DoOpen | kern/fs/sfs/sfs_vnode.c:728-752 | looking a name up refines opening the file it names |
| SfsRuns.DoClose | kern/fs/vfs/vnode.c:73-98 | giving up a reference refines closing: the file goes exactly when it has no name and is not open any more |
| SfsRuns.DoUnlink | kern/fs/sfs/sfs_vnode.c:1270-1297 | removing refines deleting the name, and the file with it exactly when it was the last name and the file is not open |
| SfsRuns.DoMove | kern/fs/sfs/sfs_vnode.c:1306-1379 | renaming refines moving the name |
| SfsRuns.DoLink | kern/fs/sfs/sfs_vnode.c:1245-1264 | linking refines adding a name |
| SfsRuns.DoWrite | kern/fs/sfs/sfs_vnode.c:943-948 | writing refines replacing exactly the bytes written; it succeeds exactly when all of them are, and only within the largest file |
| SfsRuns.DoRead | kern/fs/sfs/sfs_vnode.c:931-936 | reading gives exactly the bytes from the offset to the end of the request or of the file, none and no error at or past the end of the file, and changes nothing; past the largest file it fails as the code does |
| SfsRuns.DoSetLength | kern/fs/sfs/sfs_vnode.c:1063-1157 | truncating refines cutting the byte map at the block boundary the code uses, and succeeds |
| SfsAbstract.Determined | kern/fs/sfs/sfs_vnode.c:414-513 | in the abstract file system, opening, closing, removing, reading, truncating and syncing have one answer and one outcome each |
| SfsRuns.DoSync | kern/fs/sfs/sfs_vnode.c:1043-1047 | syncing one file changes nothing a process sees |
| SfsSync.Sync | kern/fs/sfs/sfs_fs.c:80-144 | nothing a process sees changes, and the disk alone then decodes to the same bitmap, the same directory and the same files with names, which are all the files when only the directory is open |
| SfsSync.SyncVnodes | kern/fs/sfs/sfs_fs.c:118-123 | every loaded vnode is clean afterwards |
| SfsSync.WriteMap | kern/fs/sfs/sfs_fs.c:39-73 | the blocks of the bitmap are on the disk, and no file changes |
| SfsSync.DiskTells | kern/fs/sfs/sfs_vnode.c:1655-1670 | a disk that holds every current inode gives, from the root inode on, the directory and every named file |
| SfsSync.MapTells | kern/fs/sfs/sfs_fs.c:39-73 | each bit read from the map blocks is the bit in memory |
| SfsAbstract.CloseDoes | kern/fs/vfs/vnode.c:73-98 | what is left after a release is the files named or open |
| SfsAbstract.UnlinkDoes | kern/fs/sfs/sfs_vnode.c:1270-1297 | the result of a removal, in terms of the abstract file system |
| SfsAbstract.WriteDoes | kern/fs/sfs/sfs_vnode.c:419-513 | the result of a write, in terms of the abstract file system |
| SfsBlocks.NoSharing | kern/fs/sfs/sfs_vnode.c:60-103 | no disk block backs two places of the volume, and no block in use is marked free |
| Sfs.Volume.constructor | sbin/mksfs/mksfs.c:58-114 | the image mksfs writes satisfies the ownership invariant |
| Sfs.WriteBitmap | sbin/mksfs/mksfs.c:86-114 | exactly the reserved blocks and those past the end of the disk are marked |
| Sfs.Volume.Balloc | kern/fs/sfs/sfs_vnode.c:60-78 | the lowest free block is taken and zeroed; it fails exactly when every block is marked, and then nothing changes |
| Sfs.Volume.BmapDirect | kern/fs/sfs/sfs_vnode.c:137-169 | a direct block is found or attached; no byte of any file changes |
| Sfs.Volume.AttachIndirect | kern/fs/sfs/sfs_vnode.c:203-223 | a file gets a zeroed indirect block; no byte of any file changes |
| Sfs.Volume.AttachSlot | kern/fs/sfs/sfs_vnode.c:234-252 | a slot of the indirect block is filled; no byte of any file changes |
| Sfs.Volume.BmapIndirect | kern/fs/sfs/sfs_vnode.c:177-261 | an indirect block number is found or attached; when the disk fills up half way the invariant still holds |
| Sfs.Volume.Bmap | kern/fs/sfs/sfs_vnode.c:115-261 | the disk block of a file block, attached if asked for, and no other block of the file; EINVAL exactly past the largest file, ENOSPC only on a full disk |
| SfsIo.PartialIo | kern/fs/sfs/sfs_vnode.c:262-347 | exactly the asked-for part of one block moves, holes reading as zeros |
| SfsIo.RwBlock | kern/fs/sfs/sfs_vnode.c:349-412 | a whole block moves between buffer and disk |
| SfsIo.BlockIo | kern/fs/sfs/sfs_vnode.c:349-412 | a whole file block moves, through the block map |
| SfsIo.Write | kern/fs/sfs/sfs_vnode.c:414-513 | exactly the bytes moved change, in this file and no other; the size becomes the larger of the old one and the end of what was moved; no block is mapped that the write did not reach; each error only for its reason |
| SfsIo.Read | kern/fs/sfs/sfs_vnode.c:414-513 | exactly the bytes up to the end of file are delivered, or up to that of the largest file when the end of the request leaves 31 bits; it fails exactly when that runs past the largest file; what is left stays in uio_resid, and the volume does not change |
| SfsFiles.ReadAfterWrite | kern/fs/sfs/sfs_vnode.c:414-513 | a read of the range just written gives the bytes written |
| SfsFiles.WriteElsewhere | kern/fs/sfs/sfs_vnode.c:414-513 | a write, failed or not, leaves every other file and every other byte alone |
| SfsFiles.FailedWriteGrows | kern/fs/sfs/sfs_vnode.c:499-505 | one byte written past the largest file fails and moves nothing, and the empty file is that long afterwards |
| SfsFiles.FailedWriteSize | kern/fs/sfs/sfs_vnode.c:499-505 | a failed write that moves nothing keeps the size if and only if its offset is at most the size |
| SfsFiles.ReadOverruns | kern/fs/sfs/sfs_vnode.c:426-445 | a read inside a file stops at its end without error if and only if offset plus length is below 2^31 and, for a file longer than the largest one with blocks, within that one |
| SfsFiles.OneByteOverruns | kern/fs/sfs/sfs_vnode.c:426-445 | asked for 2^31 bytes of a file of one byte, the code delivers the length of the largest file and fails |
| SfsFiles.ReadAtEnd | kern/fs/sfs/sfs_vnode.c:435-438 | a read at or past the end of a file delivers nothing, moves nothing and succeeds |
| SfsFiles.WriteFile | kern/fs/sfs/sfs_vnode.c:938-948 | writing a file keeps the whole volume consistent and the directory as it was |
| SfsFiles.ReadFile | kern/fs/sfs/sfs_vnode.c:926-936 | reading a file keeps the whole volume as it was |
| SfsFiles.TruncateFile | kern/fs/sfs/sfs_vnode.c:1060-1157 | truncating a file keeps the whole volume consistent and the directory as it was |
| SfsFiles.SyncFile | kern/fs/sfs/sfs_vnode.c:1037-1047 | after a sync the disk holds the inode in memory |
| SfsFiles.FreshGood | sbin/mksfs/mksfs.c:58-114 | a fresh volume is consistent, with an empty directory |
| SfsTruncate.CutDirect | kern/fs/sfs/sfs_vnode.c:1089-1100 | exactly the direct blocks from blocklen on are unmapped and freed |
| SfsTruncate.CutSlots | kern/fs/sfs/sfs_vnode.c:1114-1133 | exactly the slots past blocklen are unmapped and freed, as if each were written back at once |
| SfsTruncate.CutIndirect | kern/fs/sfs/sfs_vnode.c:1102-1148 | the indirect block is written back, or freed exactly when no slot is left |
| SfsTruncate.Truncate | kern/fs/sfs/sfs_vnode.c:1063-1157 | the blocks given back are exactly those dropped, everything else of every file stays, and the size is the new length |
| SfsFiles.TruncateKeepsBelow | kern/fs/sfs/sfs_vnode.c:1063-1157 | every byte below the new length stays |
| SfsFiles.TruncateBits | kern/fs/sfs/sfs_vnode.c:1063-1157 | the bits cleared are exactly those of the blocks given back |
| SfsFiles.TruncatePastEnd | kern/fs/sfs/sfs_vnode.c:1111-1124 | nothing from the new end on stays mapped if and only if block blocklen is not a mapped block in the indirect range |
| SfsFiles.TruncateLeavesBlock | kern/fs/sfs/sfs_vnode.c:1111-1124 | cutting a longer file to 15 blocks leaves block 15 and the indirect block in place |
| SfsFiles.TruncateToNothing | kern/fs/sfs/sfs_vnode.c:1063-1157 | a file cut to nothing owns no block but its inode |
| SfsDisk.InodeRoundTrip | kern/fs/sfs/sfs_vnode.c:38-51 | an inode written to its block is read back the same |
| SfsDisk.BigEndian | kern/fs/sfs/sfs_vnode.c:38-51 | words lie on the disk most significant byte first |
| SfsDir.EntryLayout | kern/include/kern/sfs.h:57-60 | a directory slot is the inode number, then the name and zeros |
| SfsDir.NamesFit | kern/fs/sfs/sfs_vnode.c:616-660 | a directory has no more names than slots, and as many exactly when every slot is used |
| SfsDisk.BlockRoundTrip | kern/fs/sfs/sfs_vnode.c:105-114 | an indirect block read as words and written back is unchanged |
| SfsDirOps.ReadDir | kern/fs/sfs/sfs_vnode.c:515-550 | the entry in a slot, and no change |
| SfsDirOps.WriteDir | kern/fs/sfs/sfs_vnode.c:552-584 | one slot is overwritten or appended and no other changes; overwriting cannot fail, a failed append changes no slot |
| SfsDirOps.FindName | kern/fs/sfs/sfs_vnode.c:608-658 | a name is found exactly when a used slot has it; the empty slot reported is one |
| SfsDirOps.DirLink | kern/fs/sfs/sfs_vnode.c:660-703 | a new name takes the last free slot, and the directory grows by one slot only when every slot has a name; for want of room it fails only then; EEXIST and ENAMETOOLONG exactly when deserved; on any error the directory is as before |
| SfsDirOps.DirUnlink | kern/fs/sfs/sfs_vnode.c:705-720 | clearing a slot cannot fail, and removes exactly that name from the name map |
| SfsVnodes.SyncInode | kern/fs/sfs/sfs_vnode.c:37-51 | the disk holds the inode in memory, and no other block of any file changes |
| SfsVnodes.FindLoaded | kern/fs/sfs/sfs_vnode.c:1555-1578 | the search of the table finds a vnode exactly when the inode is loaded |
| SfsVnodes.Incref | kern/fs/vfs/vnode.c:56-66 | one more reference, on that vnode only |
| SfsVnodes.NewVnode | kern/fs/sfs/sfs_vnode.c:1580-1651 | the vnode made holds the current inode, and stays the only one for it |
| SfsVnodes.LoadVnode | kern/fs/sfs/sfs_vnode.c:1540-1651 | the one vnode of an inode, with one reference more, or a new one; never a second vnode for an inode |
| SfsReclaim.TruncateAll | kern/fs/sfs/sfs_vnode.c:882-888 | the file is cut to nothing while its vnode stays in the table |
| SfsReclaim.DiscardInode | kern/fs/sfs/sfs_vnode.c:896-899 | the block of the inode is freed and nothing else changes |
| SfsReclaim.Forget | kern/fs/sfs/sfs_vnode.c:901-915 | exactly this vnode leaves the table |
| SfsReclaim.Erase | kern/fs/sfs/sfs_vnode.c:882-899 | exactly the blocks of the file are free again; every other file, the directory and the link counts are as before |
| SfsReclaim.Reclaim | kern/fs/sfs/sfs_vnode.c:856-924 | the blocks are freed exactly when the link count is 0; otherwise the inode is on disk |
| SfsReclaim.Decref | kern/fs/vfs/vnode.c:68-98 | the last reference reclaims the vnode, any other only counts down |
| SfsNames.LookOnce | kern/fs/sfs/sfs_vnode.c:722-752 | a name gives the vnode of the inode the directory maps it to, with one reference more |
| SfsNames.SetLinks | kern/fs/sfs/sfs_vnode.c:1259-1261 | only the link count of one file changes |
| SfsOps.AddName | kern/fs/sfs/sfs_vnode.c:1220-1233 | a name and its count go up together, or neither does |
| SfsOps.Link | kern/fs/sfs/sfs_vnode.c:1238-1264 | the name map gains exactly this name, or is as before for the reason given; the directory grows only when every slot has a name; no byte of any file changes |
| SfsOps.DropName | kern/fs/sfs/sfs_vnode.c:1284-1290 | a name and its count go down together |
| SfsOps.RemoveName | kern/fs/sfs/sfs_vnode.c:1266-1297 | the name map loses exactly this name; the file and exactly its blocks go if that was its last link and nobody holds it |
| SfsOps.MoveName | kern/fs/sfs/sfs_vnode.c:1329-1361 | the new name is entered, the old one cleared, which cannot fail; the count comes out as it was |
| SfsOps.Rename | kern/fs/sfs/sfs_vnode.c:1299-1379 | the name map moves the name, or is as before for the reason given; the directory grows only when every slot has a name; no byte of any file changes |
| SfsCreat.MakeObj | kern/fs/sfs/sfs_vnode.c:754-783 | a free block becomes the inode of an empty file; ENOSPC only on a full disk |
| SfsCreat.CreateNew | kern/fs/sfs/sfs_vnode.c:1214-1236 | a new empty file under the name, or the volume's files as before: a failure to enter the name erases the new inode again |
| SfsCreat.Creat | kern/fs/sfs/sfs_vnode.c:1179-1236 | an existing name is refused or opened according to excl, a new one gets an empty file; the directory grows only when every slot has a name; ENOSPC only if at most one block is left free, EINVAL only with 1144 names |
| Bitmap.Map.constructor | kern/lib/bitmap.c:30-64 | no bit is set, and the bits past the end are in use for ever |
| Bitmap.Map.Alloc | kern/lib/bitmap.c:72-94 | the lowest clear bit is set; fails exactly when there is none |
| Bitmap.Map.Mark | kern/lib/bitmap.c:107-118 | sets this bit and no other |
| Bitmap.Map.Unmark | kern/lib/bitmap.c:120-131 | clears this bit and no other, and no bit past the end |
| Bitmap.Map.IsSet | kern/lib/bitmap.c:134-142 | reads the bit |
| Bitmap.MaskIsShift | kern/lib/bitmap.c:80-86 | bits are counted from the least significant one |
| Uio.Uio.constructor | kern/userprog/uio.c:113-123 | a descriptor over the whole buffer |
| Uio.Uio.Move | kern/userprog/uio.c:11-82 | n bytes, or as many as are left, move in the direction of the descriptor, and it advances by them |
| Uio.Uio.MoveZeros | kern/userprog/uio.c:84-108 | n zero bytes are delivered and the descriptor advances by n |
| CoreMap.Coremap.constructor | kern/vm/coremap.c:21-72 | every page after the map itself is free |
| CoreMap.MapFits | kern/vm/coremap.c:30-39 | the map has room for an entry for every page and takes no page too many |
| CoreMap.Coremap.GetPPages | kern/vm/coremap.c:74-106 | the lowest run of free pages that is long enough; fails exactly when there is none; no page of a block in use is in it |
| CoreMap.Coremap.FreeKPages | kern/vm/coremap.c:108-126 | under the assertions of the source, the block is no longer in use and no page of any other block is marked free |
| CoreMap.AllocKeepsInv | kern/vm/coremap.c:86-97 | taking a free run keeps blocks apart and every page of a block in use marked taken |
| CoreMap.FreeKeepsInv | kern/vm/coremap.c:108-126 | releasing what the loop as written releases keeps the same |
| CoreMap.ReleasedPage | kern/vm/coremap.c:118-123 | which pages of a block come free: those below its length |
| CoreMap.FullRelease | kern/vm/coremap.c:118-123 | a block is released whole if and only if its index is 0 |
| CoreMap.NothingReleased | kern/vm/coremap.c:118-123 | a two-page block at index 5 releases nothing |
| KHeap.Kheap.AllocPageRef | kern/lib/kheap.c:110-133 | the first unused page record; fails exactly when all are used |
| KHeap.BlockTypeOf | kern/lib/kheap.c:332-348 | the smallest block size that fits |
| KHeap.Unlink | kern/lib/kheap.c:307-330 | the page leaves the list, which stays linked, and no other list is touched |
| KHeap.BuildList | kern/lib/kheap.c:440-450 | the free list of a new page holds every block of it, last first |
| KHeap.FillDeadbeef | kern/lib/kheap.c:6-16 | exactly the words of the block are overwritten |
| KHeap.Kheap.FindPage | kern/lib/kheap.c:372-378 | a page of the size with a free block, or none has one |
| KHeap.Kheap.NewPage | kern/lib/kheap.c:409-459 | a page of fresh blocks joins both lists; it fails only when records or pages have run out, and then nothing changes |
| KHeap.Kheap.TakeBlock | kern/lib/kheap.c:380-406 | the first block of the free list goes into use |
| KHeap.Kheap.SubpageKmalloc | kern/lib/kheap.c:350-460 | a block of the smallest size that fits, not in use before; no page is added while one of that size has a free block; fails only when that size is exhausted |
| KHeap.Kheap.AllocKPages | kern/vm/vm.c:42-51 | pages no block in use has; fails only when there is no run |
| KHeap.Kheap.Kmalloc | kern/lib/kheap.c:545-563 | the block was not in use and is aligned; its length is the smallest block size that is enough, or below a page more than asked for and a number of whole pages; no page is taken while a block of that size is free; no data in use and no page of anyone else changes, and the heap invariant holds; a failure names what has run out |
| KHeap.Kheap.FindOwner | kern/lib/kheap.c:481-498 | the page an address lies in, or it lies in none |
| KHeap.Kheap.GiveBlock | kern/lib/kheap.c:500-528 | the block joins the free list of its page and leaves every block in use alone |
| KHeap.Kheap.DropPage | kern/lib/kheap.c:529-534 | a wholly free page leaves both lists and goes back |
| KHeap.Kheap.SubpageKfree | kern/lib/kheap.c:462-540 | takes the pointer if and only if it is a subpage block; a page that became wholly free is not kept |
| KHeap.Kheap.Kfree | kern/lib/kheap.c:565-577 | exactly this allocation ends, no data in use changes, and the heap invariant holds; a page with nothing in use goes back; subpage and whole-page allocations are never confused |
| KHeap.Kheap.Store | kern/lib/kheap.c:64-82 | a caller's store inside its block cannot damage the heap |
| KHeapPartition.PagePartition | kern/lib/kheap.c:150-199 | the blocks of a page in use and its free list are disjoint and are together all its blocks, their numbers add up, and no wholly free page is kept |
| KHeapPartition.AllGivenBack | kern/lib/kheap.c:463-539 | once nothing is in use, every page of the heap is back with the page allocator |
| KHeapModel.Disjoint | kern/lib/kheap.c:545-563 | no two allocations in use overlap |
| KHeapModel.FullList | kern/lib/kheap.c:528-534 | a free list as long as the page has blocks holds all of them |
| KHeapSteps.PopKeeps | kern/lib/kheap.c:380-406 | taking a block keeps the heap invariant |
| KHeapSteps.PushKeeps | kern/lib/kheap.c:518-528 | giving a block back keeps the heap invariant |
| KHeapWhole.NewKeeps | kern/lib/kheap.c:431-456 | adding a page keeps the heap invariant |
| KHeapWhole.DropKeeps | kern/lib/kheap.c:529-534 | dropping a wholly free page keeps the heap invariant |
| KHeapWhole.BigKeeps | kern/lib/kheap.c:545-563 | a whole-page allocation keeps the heap invariant |
| KHeapWhole.UnbigKeeps | kern/lib/kheap.c:565-577 | ending one keeps the heap invariant |
| KHeap.OwnerOf | kern/lib/kheap.c:481-505 | a live pointer into a page is the start of a block of it that is not on its free list |
| VmSpace.NeverShared | kern/vm/addrspace.c:172-201 | two address spaces never translate to the same physical address |
| VmSpace.Injective | kern/vm/addrspace.c:172-201 | one address space never maps two addresses to one |
| VmSpace.TranslateExact | kern/vm/vm.c:111-130 | an address is translated if and only if it is in the range of one of the three segments, and then to the same distance from the start of the memory of the first it is in |
| VmSpace.RangeMapped | kern/vm/vm.c:112-114 | the addresses of a segment are recognized if and only if it ends below the end of the address space |
| VmSpace.LastPageUnmapped | kern/vm/vm.c:112-114 | in a segment that is the last page of the address space no address is recognized |
| VmMachine.Shows | kern/vm/vm.c:111-130 | a prepared space shows a byte at every address of its three ranges |
| Vm.TlbFill | kern/vm/vm.c:118-146 | filling a slot keeps every entry the translation of the active space and no page entered twice |
| Vm.ChildSees | kern/vm/addrspace.c:40-85 | after the copy the child shows the parent's byte at every address |
| Vm.OthersSee | kern/vm/addrspace.c:40-85 | and every other space shows what it showed |
| VmMachine.RegionCovers | kern/vm/addrspace.c:138-145 | the pages of a region cover what was asked for if and only if no 32-bit sum wraps, and then they are the fewest |
| VmMachine.RegionWraps | kern/vm/addrspace.c:138-145 | a region of 2^32 - 1 bytes at address 0 gets no page |
| VmMachine.DefinedMapped | kern/vm/addrspace.c:128-170 | every byte of a region just defined, and its page, is mapped unless a 32-bit sum wraps |
| VmMachine.Machine.constructor | kern/vm/vm.c:12-16 | a machine with no address space is consistent |
| VmMachine.Machine.Create | kern/vm/addrspace.c:15-38 | an empty address space |
| VmMachine.Machine.DefineRegion | kern/vm/addrspace.c:128-170 | the first free region of two is filled in so that every byte asked for is mapped, and the other is left alone; a third is refused |
| VmMachine.Machine.PrepareLoad | kern/vm/addrspace.c:172-201 | memory of its own for each segment; fails only when no run is left for one of them |
| VmMachine.Machine.CopyLayout | kern/vm/addrspace.c:45-67 | the child has the parent's layout and memory of its own, or there is no child |
| VmMachine.Machine.CopyInto | kern/vm/addrspace.c:69-79 | three copies give the child every byte of the parent |
| VmMachine.Machine.Copy | kern/vm/addrspace.c:40-85 | the byte behind every mapped address of the child is the one behind it in the parent, every space shows what it showed, and no physical page is shared |
| VmMachine.Machine.Destroy | kern/vm/addrspace.c:87-95 | only this space goes; its pages stay taken for ever and the others stay consistent |
| VmMachine.Machine.Exit | kern/thread/thread.c:512-522 | the running space is detached and destroyed with its pages still in the TLB, and everything stays consistent |
| VmMachine.Machine.SwitchTo | kern/thread/thread.c:480-485 | the TLB is emptied exactly when the next thread has a space |
| VmMachine.Machine.StaleEntries | kern/thread/thread.c:480-485 | what is left in the TLB, of a destroyed space even, is no page of any other space |
| VmMachine.Machine.Activate | kern/vm/addrspace.c:97-116 | no stale translation survives a switch, and no two slots hold the same page |
| VmMachine.Machine.Fault | kern/vm/vm.c:60-151 | for an address in one of the three ranges the first free TLB slot gets the frame at the same distance into that segment; EFAULT exactly when it is in none or no slot is free; EINVAL for an unknown fault |
| VmMachine.Machine.Store | kern/vm/vm.c:60-151 | a store through the TLB changes that byte of the running space and no byte of any space else |
| VmMachine.Machine.KernelAlloc | kern/vm/vm.c:42-51 | kernel pages are in no address space; fails exactly when there is no run |
| VmMachine.Machine.KernelFree | kern/vm/vm.c:53-58 | giving kernel pages back disturbs no address space |
| ThreadsRuns.NoLostWakeups | kern/thread/synch.c:62-178 | in every reachable state each thread is in one place, numthreads counts the living ones, a sleeper on a semaphore means its count is 0, a sleeper on a lock means it is held, and each count is initial plus Vs minus completed Ps |
| ThreadsRuns.StepKeeps | kern/thread/thread.c:401-486 | every step keeps the thread-system invariant |
| ThreadsRuns.ReachesInv | kern/thread/thread.c:401-486 | it holds in every state a run reaches |
| ThreadsRuns.BootInv | kern/thread/thread.c:217-271 | it holds at boot |
| ThreadsRuns.NobodyLost | kern/thread/thread.c:295-536 | no step loses or duplicates a thread: fork adds one, a switch to a thread that has run before takes all the zombies away, and nothing else does |
| ThreadsHistory.ZombiesExact | kern/thread/thread.c:148-164 | in every run the zombies are exactly the threads that exited since the last switch to a thread that had run before, and numthreads counts the others |
| ThreadsHistory.Exorcised | kern/thread/thread.c:473-481 | right after a switch to a thread that has run before no zombie is left; a switch to a new thread leaves them as they were |
| ThreadsHistory.SemaphoreExact | kern/thread/synch.c:62-105 | in every run a count is what it started with, plus the calls of V, less the calls of P that have come back |
| ThreadsHistory.QueueOrder | kern/thread/scheduler.c:87-118 | a step adds to the end of the run queue only, and a switch takes its head |
| ThreadsHistory.TurnComes | kern/thread/scheduler.c:87-118 | in every run the thread at place k of the run queue gets the (k+1)-th turn |
| ThreadsHistory.YieldedTurn | kern/thread/thread.c:538-551 | a thread that yields runs again after everyone runnable at that time, and then |
| ThreadsRuns.HolderStable | kern/thread/synch.c:141-178 | a lock stays with its holder until the holder lets go |
| ThreadsRuns.WaitAtomic | kern/thread/synch.c:234-250 | waiting lets the lock go, wakes its sleepers and joins the sleepers of the condition variable in one step |
| ThreadsRuns.ReturnsHolding | kern/thread/synch.c:141-162 | a thread waking in cv_wait or lock_acquire goes on holding the lock, or goes back to sleep on it |
| ThreadsRuns.BroadcastExact | kern/thread/synch.c:267-281 | a broadcast makes exactly the waiters on that condition variable runnable |
| ThreadsRuns.WakeExact | kern/thread/thread.c:601-629 | a wakeup makes exactly the sleepers on its address runnable, after those that were |
| ThreadsRuns.VExact | kern/thread/synch.c:89-105 | V makes exactly the threads asleep in P on the semaphore runnable, with or without a current thread |
| ThreadsRuns.ReleaseExact | kern/thread/synch.c:164-178 | releasing a lock makes exactly the threads asleep on it runnable |
| ThreadsRuns.SignalExact | kern/thread/thread.c:579-595 | a signal wakes at most the first sleeper, and someone if and only if that one waits on the condition variable |
| ThreadsSignal.SignalMisses | kern/thread/thread.c:579-595 | a run from boot after which a thread waits on a condition variable and a signal on it wakes no one |
| Threads.WakeSplits | kern/thread/thread.c:601-629 | a wakeup splits the sleepers and loses none |
| Threads.WakeOrder | kern/thread/thread.c:601-629 | those woken and those not each keep their order |
| ThreadsCode.Kernel.constructor | kern/thread/thread.c:217-271 | boot state |
| ThreadsCode.Kernel.ThreadWakeup | kern/thread/thread.c:601-629 | the loop that edits the array it scans moves exactly the waiters, in order |
| ThreadsCode.Kernel.ThreadWakeupOne | kern/thread/thread.c:579-595 | the first sleeper moves if it waits on the address; nobody else does |
| ThreadsCode.Kernel.ThreadSleep | kern/thread/thread.c:564-573 | the current thread joins the sleepers |
| ThreadsCode.Kernel.P | kern/thread/synch.c:62-87 | carries out the P step and keeps the invariant |
| ThreadsCode.Kernel.V | kern/thread/synch.c:89-103 | carries out the V step and keeps the invariant |
| ThreadsCode.Kernel.LockAcquire | kern/thread/synch.c:141-162 | carries out the acquire step and keeps the invariant |
| ThreadsCode.Kernel.LockRelease | kern/thread/synch.c:164-178 | carries out the release step and keeps the invariant |
| ThreadsCode.Kernel.CvWait | kern/thread/synch.c:234-250 | carries out the wait step and keeps the invariant |
| ThreadsCode.Kernel.CvSignal | kern/thread/synch.c:252-265 | carries out the signal step and keeps the invariant |
| ThreadsCode.Kernel.CvBroadcast | kern/thread/synch.c:267-281 | carries out the broadcast step and keeps the invariant |
| ThreadsCode.Kernel.ThreadFork | kern/thread/thread.c:295-396 | carries out the fork step and keeps the invariant |
| ThreadsCode.Kernel.ThreadExit | kern/thread/thread.c:495-536 | carries out the exit step and keeps the invariant |
| ThreadsCode.Kernel.ThreadYield | kern/thread/thread.c:541-551 | carries out the yield step and keeps the invariant |
| ThreadsCode.Kernel.Switch | kern/thread/thread.c:401-486 | the next thread goes on where it stopped, and zombies are cleared away |
| ThreadsCode.Kernel.Continue | kern/thread/synch.c:80-86 | a woken thread looks at its condition again |
| Queue.Queue.constructor | kern/lib/queue.c:53-68 | an empty queue |
| Queue.Queue.Empty | kern/lib/queue.c:84-88 | exactly when nothing is queued |
| Queue.Queue.AddTail | kern/lib/queue.c:90-108 | the element is appended, through wrap-around and growth; a failed growth leaves the queue unchanged; the recursion ends |
| Queue.Enlarged | kern/lib/queue.c:30-35 | the old size doubled until it reaches the target |
| Queue.Queue.Refill | kern/lib/queue.c:44-47 | refilling through q_addtail keeps the contents and their order and never grows the ring again |
| Queue.Queue.Grow | kern/lib/queue.c:17-51 | a ring of the doubled size with the same contents in the same order; without memory nothing changes |
| Queue.Queue.Preallocate | kern/lib/queue.c:70-81 | the size doubled until it is at least the size asked for, the contents unchanged; a ring that is big enough is left alone |
| Queue.Queue.RemHead | kern/lib/queue.c:110-121 | the oldest element comes out |
| Queue.FirstInFirstOut | kern/thread/scheduler.c:87-118 | what comes out is a prefix of what went in, whatever is added meanwhile |
| Queue.PositionIsTurn | kern/thread/scheduler.c:87-118 | a thread at position k is picked by the (k+1)-th pick |
| Queue.AddAll | kern/lib/queue.c:90-108 | without memory, m threads added to a ring of k all find a place if and only if k + m is below its size; otherwise it is filled to one less |
| Queue.Forked | kern/thread/thread.c:351-355 | after n - 1 forks the ring has 32 places doubled until they are at least n |
| Queue.EveryoneRunnable | kern/thread/scheduler.c:41-46 | the preallocated ring takes all n threads without memory if and only if it has not exactly n places; then it takes all but one |
| Queue.ExactlyFull | kern/lib/queue.c:30-35 | that is if and only if n is the first size doubled some number of times |
| Queue.LastOfThirtyTwo | kern/thread/scheduler.c:26-32 | of 32 threads, 31 find a place |
| ThreadsQueue.RunQueueLength | kern/thread/thread.c:425-460 | in every state of every run the run queue holds at most all threads, and all of them exactly when none runs or sleeps |
| ThreadsQueue.AllRunnable | kern/thread/thread.c:425-460 | for every n there is a run from boot after which all n threads are in the run queue |
| Stoplight.RouteRegions | kern/asst1/stoplight.c:82-106 | the router's table is the regions a car crosses, in order |
| StoplightProof.StepKeeps | kern/asst1/stoplight.c:132-537 | every step of every car keeps the invariant of the intersection |
| StoplightRuns.ReachesInv | kern/asst1/stoplight.c:560-629 | it holds in every state any interleaving reaches |
| StoplightRuns.IntersectionSafe | kern/asst1/stoplight.c:132-629 | in every reachable state no region holds two cars, at most three through cars are inside, and the cars of a lane have entered in the order they arrived |
| StoplightRuns.AtMostThree | kern/asst1/stoplight.c:229-324 | at most three straight or left cars are inside |
| StoplightFull.ThreeInside | kern/asst1/stoplight.c:229-324 | there is a run after which three cars going straight are inside |
| StoplightFull.SoloEnters | kern/asst1/stoplight.c:229-324 | a car with nothing in its way gets into its first region while fewer than three are counted |
| StoplightRecord.RouteTaken | kern/asst1/stoplight.c:81-324 | in every run what can be seen of a car is what its place says; a car that is done has joined and left its lane, marked the regions of its row of the routing table in order, each while the one before was still its own, and been counted in and off |
| StoplightRecord.SeenIs | kern/asst1/stoplight.c:132-560 | a step changes the lanes, the regions and num_cars just as it says |
| StoplightRecord.NumCarsExact | kern/asst1/stoplight.c:407-446 | with its semaphore free, num_cars counts every straight or left car that holds a region, and is the number of cars inside if and only if as many are still to be counted in as off |
| StoplightRecord.InsideUncounted | kern/asst1/stoplight.c:421-450 | there is a run after which a car is inside, num_cars is 0 and its semaphore free |
| StoplightRuns.SomeoneCanGo | kern/asst1/stoplight.c:150-228 | when cars are inside, some car inside is not waiting for another |
| StoplightRuns.QueueHolderRuns | kern/asst1/stoplight.c:237-257 | the holder of a lane semaphore can always go on |
| StoplightRuns.AccessHolderRuns | kern/asst1/stoplight.c:169-265 | a region semaphore that is held is on a car that can go on, or waits for one that can |
| StoplightRuns.NumHolderRuns | kern/asst1/stoplight.c:230-324 | so is the counter semaphore |
| StoplightRuns.NoDeadlock | kern/asst1/stoplight.c:132-629 | until every car is through, some car can take a step: no circular wait |
| StoplightFinish.CanAlwaysFinish | kern/asst1/stoplight.c:132-629 | from every state of every run some order of steps takes every car through |
| StoplightFinish.Advance | kern/asst1/stoplight.c:150-324 | a car with nothing in its way, alone with the semaphores, gets on |
| StoplightFinish.Release | kern/asst1/stoplight.c:150-324 | all semaphores can be let go without anyone losing ground |
| CatMouseProof.StepKeeps | kern/asst1/catlock.c:84-213 | every step of every animal keeps the kitchen invariant |
| CatMouseProof.ReachesInv | kern/asst1/catlock.c:84-213 | it holds in every state any interleaving reaches |
| CatMouseProof.PeaceAtDinner | kern/asst1/catlock.c:84-213 | cats and mice never eat together, a bowl has one eater, and an animal that is done has eaten four times |
| CatMouseProof.CountersExact | kern/asst1/catlock.c:84-213 | with the mutex free, the counters are the numbers of eaters |
| CatMouseRecord.FourMeals | kern/asst1/catlock.c:84-213 | in every run an animal that is done has eaten four meals, each a bowl taken, counted, the same bowl given back and counted off |
| CatMouseFull.TwoEating | kern/asst1/catlock.c:84-213 | there is a run after which two cats eat at once, each from its own bowl |
| CatMouseProof.BowlNeverBlocks | kern/asst1/catlock.c:84-101 | acquiring the bowl's lock inside the mutex never blocks |
| CatMouseFinish.CanAlwaysFinish | kern/asst1/catlock.c:84-213 | from every state of every run some order of steps lets every animal eat its four meals and finish |
| CatMouseFinish.Advance | kern/asst1/catlock.c:84-213 | an animal that finds peace and a vacant bowl gets to it without waiting |
| Malloc.UserHeap.constructor | lib/libc/malloc.c:122-178 | an empty heap that starts at the first multiple of 8 from the break on |
| Malloc.UserHeap.Aligned | lib/libc/malloc.c:157-177 | every address handed out is a multiple of 8, above 0 and inside the address space |
| Malloc.UserHeap.Sbrk | lib/libc/malloc.c:236-255 | the break moves by the request read as a signed number, up or down, or is refused for a reason |
| Malloc.UserHeap.SplitBlock | lib/libc/malloc.c:265-302 | the block is split exactly when a block with data can be left over |
| Malloc.UserHeap.TakeBlock | lib/libc/malloc.c:364-376 | a free block goes into use with at most one unit to spare |
| Malloc.UserHeap.Malloc | lib/libc/malloc.c:307-403 | first fit, with at most one unit to spare; the heap grows, by exactly the rounded size and a header, exactly when no free block fits, and fails only then; data in use stays; the pointer is a block of the heap that is big enough if and only if the size is below 2^31 less 15; otherwise what comes back is said exactly |
| Malloc.UserHeap.TryMerge | lib/libc/malloc.c:425-451 | two blocks become one exactly when both are free |
| Malloc.UserHeap.Wipe | lib/libc/malloc.c:411-420 | exactly the given units are overwritten |
| Malloc.UserHeap.Release | lib/libc/malloc.c:492-496 | the block is marked free, no other data changes |
| Malloc.UserHeap.Free | lib/libc/malloc.c:456-514 | exactly this block is freed and merged both ways, so no two neighbours are free; data in use stays; refused exactly for a last block with no room |
| Malloc.Disjoint | lib/libc/malloc.c:307-403 | blocks never overlap |
| Malloc.AllFreed | lib/libc/malloc.c:456-514 | once everything is freed the heap is empty or one free block |
| Malloc.Requests | lib/libc/malloc.c:329-386 | the request moves the break up if and only if the size is sane or its rounding wraps, and in the second case the block has no room |
| Malloc.AsksForNothing | lib/libc/malloc.c:386-386 | which eight sizes make a request of 0 |
| Malloc.CutLoses | lib/libc/malloc.c:386-386 | when the break goes down, the blocks in use all stay in the heap if and only if the last block is free and at least as long as the loss |
| Malloc.SamePlaceTwice | lib/libc/malloc.c:386-402 | after a request of 0 the next growth hands out the same place again |
| Malloc.SamePlaceFromEmpty | lib/libc/malloc.c:386-402 | 0xfffffff8 bytes and then 8 bytes get the same place in an empty heap |
| Malloc.BreakGoesDown | lib/libc/malloc.c:386-402 | a request taken as minus 16 puts the heap top below a block in use |
| Malloc.RefusedAtTop | lib/libc/malloc.c:473-476 | malloc of 0 bytes in an empty heap gives a pointer free refuses |
| Printf.Digits | lib/libc/__printf.c:391-432 | the digit loop gives the numeral of the number in its base |
| Printf.BufferSuffices | lib/libc/__printf.c:54-54 | the 12-byte buffer holds every 32-bit number in every base used |
| Printf.BufferIsTight | lib/libc/__printf.c:54-54 | and the largest octal number fills it |
| Printf.Atoi | lib/libc/atoi.c:20-72 | the value of the longest numeral after blanks and a sign, in 32 bits |
| Printf.RoundTrip | lib/libc/__printf.c:330-456 | atoi gives back every number %d prints, at every width and padding but `-` with `0` |
| Printf.ZerosOnTheRight | lib/libc/__printf.c:366-368 | 7 printed five wide with both flags reads as 70000 |
| PrintfZeros.ZeroPaddingExact | lib/libc/__printf.c:366-368 | with both flags the number comes back if and only if it is 0 or needs no padding |
| Snprintf.Snp.Send | lib/libc/snprintf.c:44-64 | what fits is stored, what does not is counted only |
| Snprintf.Printer.Print | lib/libc/__printf.c:113-119 | the text goes out once |
| Snprintf.Printer.PrintFill | lib/libc/__printf.c:313-322 | that many fill characters go out |
| Snprintf.Printer.PrintStuff | lib/libc/__printf.c:330-369 | the field with its padding goes out |
| Snprintf.Printer.PrintNum | lib/libc/__printf.c:378-456 | the number goes out as its conversion says |
| Snprintf.Printer.SendChar | lib/libc/__printf.c:461-528 | one format character moves the state machine and its arguments on |
| Snprintf.Printer.VPrintf | lib/libc/__printf.c:535-553 | the whole rendering goes out, and its length is the answer |
| Snprintf.VSnprintf | lib/libc/snprintf.c:69-112 | the first min(n, len-1) characters and a NUL are stored, n is returned, nothing past len is touched, as section 7.19.6.5 of ISO C99 asks |
| Snprintf.PercentD | lib/libc/__printf.c:213-456 | what %d prints is read back by atoi |
| PrintfLaws.NumeralReads | lib/libc/__printf.c:380-420 | a number written in a base is read back in that base, and has no needless zeros |
| PrintfLaws.ConversionReads | lib/libc/__printf.c:213-312 | %u, %x, %p, %o and %d print their argument in base 10, 16, 16, 8 and 10, with the prefix each asks for |
| PrintfLaws.FieldWidth | lib/libc/__printf.c:330-374 | a field is as wide as asked for, or as its text if that is wider |
| PrintfLaws.FieldBlanks | lib/libc/__printf.c:330-374 | padding with blanks leaves the text at the end asked for |
| PrintfLaws.FieldZeros | lib/libc/__printf.c:330-374 | zeros stand between the prefixes and the digits |
| PrintfLaws.FieldParsed | lib/libc/__printf.c:149-211 | a field of a format, whatever its flags and width, is printed as those say, and then the rest of the format |
| PrintfLaws.PlainPrinted | lib/libc/__printf.c:461-531 | text without a per cent sign is printed as it is |
| PrintfLaws.TextPrinted | lib/libc/__printf.c:498-531 | strings, characters and the per cent sign, unpadded, are printed as they are |
| PrintfLaws.AtoiReads | lib/libc/atoi.c:14-72 | atoi of any blanks, no sign or either, and a number is that number |
| Random.Random.constructor | lib/libc/random.c:170-216 | the initial state has the pointers sep apart |
| Random.Random.Lag | lib/libc/random.c:424-440 | the table is the last deg values; the next is the sum of the oldest and the one sep back, modulo 2^32, shifted right |
| Random.Random.RandomUnlocked | lib/libc/random.c:413-442 | the same, or the linear congruence for type 0; the pointers stay sep apart |
| Random.Random.Draw | lib/libc/random.c:413-442 | the outputs of any number of draws and where they leave the table and its pointers |
| Random.Random.FillTable | lib/libc/random.c:239-241 | the table is filled with the seeding recurrence |
| Random.Random.TurnTable | lib/libc/random.c:244-245 | ten rounds bring both pointers back to their start |
| Random.Random.SrandomUnlocked | lib/libc/random.c:230-247 | seeding fills the table, returns both pointers to their start and discards ten rounds |
| Random.Random.InitState | lib/libc/random.c:281-332 | the array in use is suspended, the new one seeded; fewer than 8 bytes are refused |
| Random.TypeLargest | lib/libc/random.c:299-320 | an array gets the largest type whose table fits, with the boundaries 8, 32, 64, 128 and 256 bytes |
| Random.Random.SetState | lib/libc/random.c:353-394 | the array in use is suspended and the other resumed at the place its word 0 names, its table untouched |
| Random.SwitchAndBack | lib/libc/random.c:353-394 | leaving with setstate, drawing elsewhere and coming back resumes the sequence exactly, for every type |
| Random.SeedAndBack | lib/libc/random.c:281-332 | so does leaving with initstate |
| Random.SetStateInUse | lib/libc/random.c:344-394 | setstate on the array in use leaves the place undisturbed if and only if the draws since word 0 was saved are a multiple of the degree |
| Random.DisturbedByOne | lib/libc/random.c:344-394 | the default generator, one draw, setstate on its own array: the rear pointer goes from 1 back to 0 |
| Random.Lagged | lib/libc/random.c:413-442 | every value of a run is the sum, modulo 2^32, of those deg and sep before it |
| PseudoRand.Schrage | kern/dev/generic/pseudorand.c:15-39 | the division trick is exact and no intermediate leaves 32 signed bits |
| PseudoRand.NeverZero | kern/dev/generic/pseudorand.c:15-39 | the difference is never 0 |
| PseudoRand.PseudoRand.Random | kern/dev/generic/pseudorand.c:20-39 | the new seed is 16807 times the old modulo 2^31-1, again a seed |
| PseudoRand.PseudoRand.Draw | kern/dev/generic/pseudorand.c:20-48 | every output of every run lies in 0..2^31-3 |
| PseudoRand.SeedsPower | kern/dev/generic/pseudorand.c:15-39 | the seed after n steps is the first times the n-th power of the multiplier, modulo 2^31-1 |
| PseudoRand.PseudoRand.constructor | kern/dev/generic/pseudorand.c:50-69 | the initial seed is a seed |

## Left out

- SFS I/O errors, ENOMEM and short reads of the disk: block I/O always succeeds and memory for vnodes never runs out.
- SFS concurrency: its static buffers and vnode reclaim are unsynchronized in the source (kern/fs/sfs/sfs_vnode.c:864-868), so operations run one at a time; the EBUSY branch of sfs_reclaim, which needs a concurrent incref, is not modelled.
- SfsIo.Write: offsets are below 2^31 and lengths below 2^32, as their C types have them; a negative offset is refused before this code.
- SfsTruncate.Truncate: lengths are below 2^31; the signed overflow of the rounding up within a block of that is taken to wrap.
- SfsCreat.Creat: names are C strings, so a name holds no zero byte; the same holds for SfsOps.Link and the new name of SfsOps.Rename.
- SfsRuns.Run: an operation on a place where nothing is open, on an offset past 2 GB or on a name with a zero byte is skipped; the system calls that would reject it are not part of this model.
- Sfs.Volume.constructor: the superblock and reading the bitmap from the disk at mount (kern/fs/sfs/sfs_fs.c) are not modelled; the volume starts from mksfs with the bitmap in memory.
- SfsSync.Sync: writes the bitmap every time; the source writes it only when sfs_freemapdirty is set (kern/fs/sfs/sfs_fs.c:126-132), a flag the model does not have.
- SfsOps.Link: requires the file not to be the root directory, which sfs_link accepts; the invariant that directory slots name files does not allow it.
- SfsDirOps.DirLink: requires the inode not to be that of the root directory, for the same reason.
- SfsRuns.DoClose: open counts (vnode_incopen, vnode_decopen) are left out; a reference is what an open file holds.
- sfs_stat, sfs_gettype, sfs_tryseek, sfs_namefile, sfs_mmap and the operation tables change no state and decide nothing about it.
- Uio.Uio.Move: requires n or the region to be within uio_resid; with both larger the code lets uio_resid run below zero (kern/userprog/uio.c:30-34), which no caller here does. One iovec, and user-space copies always succeed.
- KHeap.Kheap.Kmalloc: addresses are physical (the kernel's direct map adds a constant), the in-use bitmap of page records is a sequence of booleans, and the checking and printing functions of kheap.c are left out.
- KHeap.Kheap.Kfree: requires a live pointer or null; the panics on bad pointers are out of reach.
- KHeap.Kheap.Store: stands for a caller using its block; there is no such function in the source.
- VmMachine.Machine.Fault: models a TLB miss, so the page is not in the TLB and the space is prepared; the write-to-read-only fault panics in the source. The victim counter (kern/vm/vm.c:19-26) is not used by the fault path.
- VmMachine.Machine.DefineRegion: requires regions to be defined before their memory is prepared; the permission arguments are ignored by the source.
- VmMachine.Machine.Destroy: the running space is detached first, as thread_exit does (VmMachine.Machine.Exit); the pages of a destroyed space are not given back, in the source as here.
- VmMachine.Machine.Store: stands for a user program storing through the TLB; there is no such function in the source.
- Threads: the state machine has no failing memory allocation in thread_fork and make_runnable (when the run queue needs more is `Queue.EveryoneRunnable`), no thread names, process table or address-space switch, and interrupts-off sections are single steps.
- ThreadsCode.Kernel.ThreadWakeupOne: requires a sleeper, because the array access panics without one; so does cv_signal.
- ThreadsCode.Kernel.CvWait: the lock is let go and the thread put to sleep in one interrupts-off section; what other threads do before it wakes is the other steps.
- sem_destroy, lock_destroy, cv_destroy, thread_killall, thread_panic and shutdown are left out.
- kern/lib/array.c: arrays of threads are sequences; the preallocation and shrinking of their storage is left out.
- Queue.Queue.AddTail: requires a size below 2^29; the code asserts that doubling stays positive, and from there on the bytes asked for no longer fit in 32 bits.
- Stoplight: the write to region[-8] (kern/asst1/stoplight.c:308) is omitted; semaphores used as mutexes are modelled by their holder, and messages and car creation are left out.
- StoplightFinish.CanAlwaysFinish: that every car does get through also needs a fair scheduler, as does CatMouseFinish.CanAlwaysFinish.
- CatMouseProof.PeaceAtDinner: clocksleep and printing are left out; which of two free bowls is taken is left open.
- Malloc.UserHeap.Malloc: memory is counted in header-sized units; whether sbrk has memory is a parameter, and it otherwise does what its manual page says and stays below the end of user addresses (kern/arch/mips/include/vm.h:43); a header written past the heap top is lost, and runs are not followed beyond a break that went down.
- Malloc.UserHeap.Free: requires a live pointer or null; the corruption checks and double-free messages are out of reach.
- Printf.Atoi: reads a string without its terminator.
- Snprintf.VSnprintf: arguments of the wrong kind, 64-bit numbers and overflow of the field width or the count in int are left out; only the sink of snprintf is modelled.
- Random.Random.InitState: state arrays are words, not bytes; the messages to stderr are left out.
- Device drivers, lamebus, console, emufs, VFS paths and device names, system calls and the process table, ELF loading, trap entry and assembly, the kernel menu, user programs and tests.
