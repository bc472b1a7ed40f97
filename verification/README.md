# cabbagePKE, verified

A Dafny model of the stateful core of cabbagePKE, a small RISC-V teaching kernel: its RAM file system with the VFS
caches, page allocator, Sv39 page tables, scheduler and semaphores, user heap, device tree scanner, DWARF line table,
formatted printing and symbol table. `dafny verify dfyconfig.toml` checks everything.

Each part has a state machine on values, with its invariant and theorems over all runs, and a class or methods with the
loops of the original that refine its steps.

| part | machine and theorems | code |
|---|---|---|
| file system | FsState, FsTree, FsCache, FsDisk, FsInvariant, FsSteps, FsLinks, FsUnlink, FsWrite, FsLookup, FsPlaces, FsOps, FsRuns, FsFiles, FsHandles, FsFailures | RfsDir, Rfs, RfsFile, Vfs, VfsHash, HashTable, VfsProgram |
| physical pages | PmmState | Pmm |
| page tables | Vmm | Vmm |
| scheduler | SchedState, SchedRuns | Sched |
| device tree | Fdt | Fdt |
| user heap | HeapState | UserHeap |
| printing and numbers | Format | Snprintf |
| symbols | Symbol | Symbol |
| debug information | Leb128, LineTable | Leb128, LineTable |

Options has the optional values that several parts use.

## Where the code does not do what it seems to

Each of these has a lemma with the failing input or family, and an exact condition for the rest.

- A file that grew and loses its last name before its inode is written back leaks the blocks that the disk inode does not
  list yet (kernel/rfs.c:697-706). A close writes back only when it drops the last cached name, so a file with two names
  gets there. Everything else that the runs promise holds all the same.
- vfs_link records the new name in the starting directory, whatever directory the new path names (kernel/vfs.c:331-332).
- open("x/x") with creation creates `x` when `x` is missing, because the missing component equals the base name
  (kernel/vfs.c:142). Without `..` in the path, what is created is at the path exactly when the last component was missing.
- With no free inode, creation goes on with inode 0, the root's, because the check behind the scan cannot fail
  (kernel/rfs.c:507-521). With a full directory block, creation and link let the directory outgrow its block.
- rfs_write fills up the last block from the shared buffer without reading the block first, so bytes behind the data are
  lost unless the write reaches the end of the file, ends on a block boundary or stays in its unaligned first block.
- ref_insert puts a key above all others at the front of its table (kernel/pmm.c:55). The allocator stays right because
  the first page handed out is the highest and keeps a holder.
- A negative initial value makes the books of a semaphore wrong from the start.
- Growing the heap is one page short when the shortfall exceeds a page, puts a header outside the heap when it is exactly
  a page, and swallows blocks when the highest free block does not end at heap_top; request sizes that are no multiple of
  16 can leave a block too small for its header. The first malloc of two pages already breaks the heap.
- An execute-only mapping is invisible to lookup_pa.
- user_vm_unmap does not look at the valid bit (kernel/vmm.c:213-221), so a second unmap of one address frees the page again
  while it is on the free list, which closes the list to a ring. Freeing any other page keeps the list a list.
- vsnprintf does not take the argument of a %c that does not fit, so its result can be wrong; the text never is.
- The bisection in func_name_printer misses a function when it probes an empty symbol inside it.
- read_sleb128 extends the sign with a 32-bit shift, so negative numbers of five to nine bytes are read wrongly. The
  model takes the shift modulo 32, as the RISC-V instruction does.
- Line program opcodes 10, 11 and 12, which a comment says are ignored, are run as special opcodes and add rows
  (kernel/elf.c:269-284).

## Modelling

Integers are unbounded unless a width matters; where it does it is written out. `|` of bits that do not overlap is an
addition. Addresses are numbers, memory is a map or a sequence, and calls that panic are excluded by preconditions.
Kernel calls are atomic steps. Page allocation inside the file system is an oracle that returns a fresh page, as the
allocator's own theorems justify.

## Model

| member | source | states |
|---|---|---|
| `FsRuns.EveryRunIsSound` | kernel/vfs.c:123-558 | every run of open, close, opendir, closedir, mkdir, unlink, link and write from a freshly mounted RFS keeps the whole invariant (tree, caches, exclusive ownership of blocks), and the blocks lost are exactly those that its unlinks leave behind |
| `FsRuns.CountsAreExact` | kernel/vfs.c:123-441 | in every run a vinode's `ref` is the number of cached dentries on it, a dentry's `d_ref` the number of open files on it, and the cached link count equals the one on disk and the number of directory records |
| `FsRuns.UnlinkAssertsNeverFail` | kernel/vfs.c:346-394 | in every run the asserts at kernel/vfs.c:385 and kernel/rfs.c:688 hold when an unopened file is unlinked |
| `FsRuns.OneVinodePerInode` | kernel/vfs.c:780-808 | in every run at most one vinode is cached per inode number |
| `FsRuns.BlocksAreExactIff` | kernel/rfs.c:186-213 | in every run no data block has two owners and every held block is marked; a marked block is always held if and only if each unlink of a last name met a disk inode that listed every block |
| `FsRuns.NoLeaksIff` | kernel/rfs.c:697-706 | from any sound state: a run loses no block if and only if its unlinks are of that kind |
| `FsRuns.UnwrittenRunsLoseNothing` | kernel/vfs.c:123-558 | a run without writes, from a state whose inodes are written back, loses no block |
| `FsRuns.BlocksAreExactWithoutWrites` | kernel/rfs.c:186-213 | so after mounting and any run without writes the freemap is exact |
| `FsRuns.StepKeepsInv` | kernel/vfs.c:123-558 | each call, with the resources it needs, keeps the invariant, loses exactly the blocks foretold, and only a write lets a disk inode fall behind |
| `FsRuns.MountedInv` | kernel/vfs.c:50-115 | the state after formatting and mounting satisfies the invariant, has lost nothing and is written back |
| `FsFailures.UnwrittenGrowthLeaks` | kernel/rfs.c:683-709 | in every sound state with a file open under one of two names: growing it, closing it and unlinking both names is a run that loses blocks |
| `FsFailures.SomeRunLosesBlocks` | kernel/vfs.c:399-441 | such a run exists from the mounted file system: open, link, write, close, unlink, unlink |
| `FsFailures.LinkMisplaced` | kernel/vfs.c:331-332 | with a directory `d` and a file `a`: link("a", "d/b") reports success, puts `b` beside `d`, leaves `d` empty, and "d/b" still leads nowhere |
| `FsFailures.SomeLinkIsMisplaced` | kernel/vfs.c:294-340 | that state is reached from the mounted file system by mkdir and open |
| `FsOps.LookupIsWalk` | kernel/vfs.c:566-642 | lookup through both caches ends at the inode, or at the miss, that an uncached walk of the directories on disk ends at, and only fills the caches |
| `FsOps.OpenKeepsInv` | kernel/vfs.c:123-206 | vfs_open, with and without creation, keeps the invariant and loses nothing |
| `FsOps.OpenKeepsInvIff` | kernel/vfs.c:123-206 | given a free block, vfs_open keeps the invariant if and only if what it creates, if anything, finds a free inode and room in the directory's block |
| `FsOps.OpenLands` | kernel/vfs.c:135-164 | a creating open succeeds; the walk of its path then ends at the new file if and only if the tokens behind the missing one come back to it |
| `FsOps.LandsIffLast` | kernel/vfs.c:141-146 | on a path without `..` that is so if and only if the missing token was the last one |
| `FsOps.OpenTwiceTheName` | kernel/vfs.c:141-158 | open("x/x") with creation, `x` missing, reports success and creates the file `x`; the path it was given leads through a file |
| `FsOps.BackThroughParent` | kernel/vfs.c:586-594 | a path x/../x misses at its first token and comes back to what is created there |
| `FsOps.OpenDirKeepsInv` | kernel/vfs.c:446-473 | vfs_opendir keeps the invariant |
| `FsOps.MkDirKeepsInv` | kernel/vfs.c:494-529 | vfs_mkdir keeps the invariant and loses nothing |
| `FsOps.MkDirKeepsInvIff` | kernel/vfs.c:494-529 | given a free block, vfs_mkdir keeps the invariant if and only if the directory it makes, if any, finds a free inode and room for its record |
| `FsOps.MkDirLands` | kernel/vfs.c:494-529 | vfs_mkdir of a missing name succeeds, and lands where a creating open does |
| `FsOps.LandsMeans` | kernel/vfs.c:566-642 | for both: the path leads to the new inode if and only if its tokens behind the missing one come back |
| `FsOps.CloseKeepsInv` | kernel/vfs.c:399-441 | vfs_close keeps the invariant, on the last close and before it |
| `FsOps.CloseDirKeepsInv` | kernel/vfs.c:534-558 | vfs_closedir keeps the invariant |
| `FsOps.UnlinkKeepsInv` | kernel/vfs.c:346-394 | vfs_unlink by path keeps the invariant in every case, and loses exactly the blocks that the disk inode of a last name does not list |
| `FsOps.UnlinkSucceedsIff` | kernel/vfs.c:346-376 | vfs_unlink succeeds if and only if the path leads to a file that is not open under the name in which the path ends |
| `FsOps.PathLeaksIff` | kernel/rfs.c:697-706 | unlink by path loses nothing if and only if the path leads to no such file, or another name is left, or the disk inode lists every block |
| `FsOps.WrittenLosesNothing` | kernel/rfs.c:273-294 | when every inode is written back, no unlink loses a block |
| `FsOps.LinkKeepsInv` | kernel/vfs.c:294-340 | vfs_link keeps the invariant and loses nothing |
| `FsOps.LinkKeepsInvIff` | kernel/vfs.c:294-340 | it does so if and only if, when there is a file to link and the new path misses, the starting directory has room and no such name |
| `FsOps.LinkSucceedsIff` | kernel/vfs.c:294-340 | vfs_link succeeds if and only if the old path leads to a file and the new one misses its base name |
| `FsOps.LinkLandsInStart` | kernel/vfs.c:331-332 | a link that is made adds its record to the starting directory and nothing else |
| `FsOps.LinkLandsMeans` | kernel/vfs.c:331-332 | the new path then leads to the file if and only if the directory it misses in is the starting directory and its other tokens come back |
| `FsPlaces.LandsIff` | kernel/vfs.c:566-642 | on trees: after a record is added where a walk missed, the same walk ends at it if and only if the remaining tokens come back to it |
| `FsPlaces.ComesBackIffLast` | kernel/vfs.c:566-642 | tokens without `..` that end in the name come back to it if and only if there are none |
| `FsFiles.OnlyWritesChangeFiles` | kernel/vfs.c:123-558 | through any run in which a file is not written to and keeps a name, its size, its blocks and the data in them stay as they were |
| `FsFiles.StepKeepsFiles` | kernel/vfs.c:123-558 | each call changes the size, blocks or data of no file but the one it writes to or whose last name it removes |
| `FsFiles.CloseDrops` | kernel/vfs.c:399-441 | vfs_close changes no inode in force and no data, and drops the handle of a file and no other |
| `FsFiles.CloseWritesBack` | kernel/vfs.c:422-437 | the last close on a name uncaches it, and uncaches and writes back the inode if that was its only cached name; any other close leaves the disk alone |
| `FsFiles.CloseDirDrops` | kernel/vfs.c:534-558 | vfs_closedir drops the handle of a directory and no other, and leaves disk and files alone |
| `FsHandles.OpenReturnsIff` | kernel/vfs.c:123-193 | vfs_open returns a handle if and only if the path leads to a file, or creation is asked for and the path misses its last token |
| `FsHandles.OpenGains` | kernel/vfs.c:166-205 | the handle returned is new, has exactly the rights asked for, and stands for the file where the path ends, or for the file created, under its name; a refused open changes no handle |
| `FsHandles.CreatedIsEmpty` | kernel/rfs.c:525-550 | a file that open creates has size 0, one block and one name |
| `FsHandles.OpenDirGains` | kernel/vfs.c:446-473 | vfs_opendir returns a handle, for reading only and on that directory, if and only if the path leads to a directory |
| `FsHandles.StepHandles` | kernel/vfs.c:123-558 | which handle each call adds or drops; mkdir, unlink, link and write leave the open files alone |
| `FsHandles.UnlinkRemoves` | kernel/vfs.c:346-394 | unlink by path removes the record in which the path ends and no other; refused, it leaves the tree alone |
| `VfsProgram.WriteThenRead` | user/c_4_1.c:52-63 | write, close, open by path and read give back what was written, up to the first NUL in it |
| `VfsProgram.DataAreThere` | kernel/rfs.c:388-459 | whatever a write does behind its data, the data are in the file at their offset |
| `FsUnlink.AssertsHold` | kernel/rfs.c:683-695 | the record found for a cached name is that inode's, the link counts agree, and a last name is the last cached reference |
| `FsUnlink.RemoveNameKeepsInv` | kernel/rfs.c:650-771 | unlink keeps the invariant, removes exactly one record, and loses exactly the blocks of a last name that the disk inode does not list |
| `FsUnlink.LeaksIff` | kernel/rfs.c:697-706 | it loses a block, and spoils an exact freemap, if and only if it removes a last name whose disk inode lags |
| `FsUnlink.OwnershipAfter` | kernel/rfs.c:697-706 | releasing an inode leaves ownership exclusive, and loses exactly the blocks that the cached inode has and the disk copy does not |
| `FsLinks.LinkNameKeepsInv` | kernel/rfs.c:625-645 | rfs_link plus the new dentry keep the invariant and add one record |
| `FsLinks.LinkNameKeepsInvIff` | kernel/rfs.c:625-645 | they keep it if and only if the directory has room in its block and no record of that name |
| `FsSteps.CreateChildKeepsInv` | kernel/rfs.c:502-560 | rfs_create or rfs_mkdir under a cached directory, plus the new dentry, keep the invariant and add one record |
| `FsSteps.CreateBreaks` | kernel/rfs.c:502-520 | with no free inode the new vinode is a second one for inode 0, the root; with a full directory its size outgrows its block |
| `FsSteps.ForgetDentryKeepsInv` | kernel/vfs.c:399-441 | dropping an unused dentry, and its vinode when that was the last dentry on it, keeps the invariant |
| `FsWrite.WriteKeepsInv` | kernel/rfs.c:388-459 | rfs_write keeps the invariant, loses no block and changes no directory |
| `FsWrite.GrowKeepsOwnership` | kernel/rfs.c:388-459 | growing a file takes free blocks only, keeps its old blocks in place, and reaches the wanted count |
| `FsLookup.ResolveIsWalk` | kernel/vfs.c:566-642 | one token loop, from any cached dentry: same outcome as the walk on disk |
| `FsLookup.FoundName` | kernel/vfs.c:566-642 | a file that the token loop finds is the dentry of the last token that is not `.` |
| `FsLookup.UncachedWhenFree` | kernel/vfs.c:737-759 | a name with no record on disk is not in the dentry cache |
| `FsCache.LastNameLastHolder` | kernel/vfs.c:385 | an inode with one link has exactly one cached dentry, and `ref` 1 |
| `FsCache.DropKeepsCache` | kernel/vfs.c:399-441 | dropping a dentry keeps both levels of reference count exact |
| `FsCache.AddOldKeepsCache` | kernel/vfs.c:619-626 | a new dentry on a cached vinode keeps the counts exact |
| `FsCache.AddNewKeepsCache` | kernel/vfs.c:627-635 | a new dentry on a newly read vinode keeps the counts exact |
| `FsCache.OpenKeepsCache` | kernel/vfs.c:666-677 | an open file keeps `d_ref` exact |
| `FsCache.ReleaseKeepsCache` | kernel/vfs.c:399-441 | a closed file keeps `d_ref` exact |
| `FsTree.CreateKeepsTree` | kernel/rfs.c:502-560 | a fresh inode with one record keeps link counts equal to the number of records, and names unique per directory |
| `FsTree.LinkKeepsTree` | kernel/rfs.c:625-645 | one more record and one more link keep that |
| `FsTree.UnlinkKeepsTree` | kernel/rfs.c:650-709 | one record and one link less keep that, and an inode left with no record is free |
| `FsTree.OneNamePerDirectory` | kernel/rfs.c:467-496 | the records that lead to a directory are one |
| `FsDisk.GrantBlock` | kernel/rfs.c:186-203 | giving a free block to an inode keeps ownership exclusive and held blocks marked, and loses none |
| `FsDisk.FreeInode` | kernel/rfs.c:697-706 | clearing some of a dying inode's bits loses exactly the blocks that were not among them |
| `FsDisk.ExactIffNoneLost` | kernel/rfs.c:186-213 | a freemap that marks every held block is exact if and only if no block is lost |
| `FsDisk.AppendRecord` | kernel/rfs.c:218-258 | a record written behind the last one appends it to the directory |
| `FsDisk.RemoveRecord` | kernel/rfs.c:711-758 | in a one-block directory, closing the gap removes exactly the record |
| `FsInvariant.CacheChildKeepsInv` | kernel/vfs.c:602-636 | caching a directory entry found on disk keeps the invariant |
| `FsInvariant.OpenFileKeepsInv` | kernel/vfs.c:666-677 | alloc_vfs_file keeps the invariant |
| `FsInvariant.ReleaseFileKeepsInv` | kernel/vfs.c:399-441 | closing a file handle keeps the invariant |
| `FsInvariant.WriteBackKeepsInv` | kernel/rfs.c:273-294 | rfs_write_back_vinode keeps the invariant |
| `Vfs.VirtualFs.LookupFinalDentry` | kernel/vfs.c:566-642 | the token loop computes the specified lookup, cache updates included |
| `Vfs.VirtualFs.LookupToken` | kernel/vfs.c:602-636 | one name: the hash table's answer, else the record on disk with both caches filled, else a miss that changes nothing |
| `Vfs.VirtualFs.OpenPath` | kernel/vfs.c:123-206 | vfs_open changes the state as specified, with and without a free inode |
| `Vfs.VirtualFs.OpenDirectory` | kernel/vfs.c:446-473 | vfs_opendir changes the state as specified |
| `Vfs.VirtualFs.CloseFile` | kernel/vfs.c:399-441 | vfs_close changes the state as specified |
| `Vfs.VirtualFs.CloseDirectory` | kernel/vfs.c:534-558 | vfs_closedir changes the state as specified |
| `Vfs.VirtualFs.UnlinkDentry` | kernel/vfs.c:376-394 | the tail of vfs_unlink, with both run-time asserts proved in place |
| `Vfs.VirtualFs.UnlinkPath` | kernel/vfs.c:346-394 | vfs_unlink changes the state as specified, or fails and changes nothing but caches |
| `Vfs.VirtualFs.LinkPath` | kernel/vfs.c:294-340 | vfs_link changes the state as specified |
| `Vfs.VirtualFs.WriteOpened` | kernel/vfs.c:232-246 | vfs_write is refused, and changes nothing, on a file that was not opened for writing or is a directory; otherwise it writes as below |
| `Vfs.VirtualFs.WriteFile` | kernel/rfs.c:388-459 | a write through an open file is the write step of the runs: the bytes are spliced as RfsFile says, and the contents of every other cached inode stay as they were |
| `Vfs.VirtualFs.ReadOpened` | kernel/vfs.c:212-226 | vfs_read is refused on a file that was not opened for reading or is a directory; otherwise it delivers the slice of the contents up to the first NUL |
| `Vfs.WriteIsStep` | kernel/rfs.c:388-459 | whatever changes the inode, the freemap and the file's own blocks as rfs_write does is that step |
| `Vfs.OthersKept` | kernel/rfs.c:388-459 | the step changes the contents of no other cached inode, because no block has two owners |
| `Vfs.FilesAreGood` | kernel/rfs.c:388-459 | in every sound state a cached inode is one that rfs_write and rfs_read can work on |
| `Vfs.VirtualFs.LinkRecord` | kernel/rfs.c:625-645 | rfs_link: link count, record and write-back |
| `Vfs.VirtualFs.MakeDirectory` | kernel/vfs.c:494-529 | vfs_mkdir changes the state as specified, with and without a free inode |
| `Vfs.RoomIsSlot` | kernel/vfs.c:123-206 | the creations of runs are among those these methods carry out |
| `Vfs.VirtualFs.Forget` | kernel/vfs.c:422-437 | the dentry goes, and the vinode with its write-back when no dentry is left on it |
| `Rfs.FileSystem.AllocBlock` | kernel/rfs.c:186-203 | returns and marks the first free block |
| `Rfs.FileSystem.FreeBlocks` | kernel/rfs.c:697-706 | clears exactly the bits of the blocks listed |
| `Rfs.FileSystem.FindFreeInode` | kernel/rfs.c:507-518 | the first free disk inode, or inode 0 with the last one read when none is free |
| `Rfs.FileSystem.WriteBackVinode` | kernel/rfs.c:273-294 | the disk inode becomes the cached one |
| `Rfs.FileSystem.AddRecord` | kernel/rfs.c:218-258 | rfs_add_direntry appends the record and the new size |
| `Rfs.FileSystem.LookupName` | kernel/rfs.c:467-496 | returns the inode number of the first record with the name, or none |
| `Rfs.FileSystem.CreateInode` | kernel/rfs.c:502-560 | the first free inode, or inode 0, gets one block and a record; the new vinode is read before the record is written |
| `Rfs.FileSystem.FindRecord` | kernel/rfs.c:654-673 | finds the first record with the name |
| `Rfs.FileSystem.Compact` | kernel/rfs.c:711-758 | the block loop closes the gap over any number of blocks |
| `Rfs.FileSystem.RemoveRecord` | kernel/rfs.c:711-768 | the directory half of rfs_unlink as specified |
| `Rfs.FileSystem.ReleaseInode` | kernel/rfs.c:683-709 | the inode half of rfs_unlink as specified |
| `Rfs.UnlinkKeepsOrder` | kernel/rfs.c:711-768 | for a directory of any number of blocks: the same records without the removed one, in order across blocks, and no other block changes; spare blocks are allowed |
| `Rfs.TightAfterUnlink` | kernel/rfs.c:711-768 | a directory that uses no more blocks than it needs still does; its last block goes exactly when it becomes empty and is not the only one |
| `RfsDir.RamDisk.Find` | kernel/rfs.c:654-673 | the position of the first record with the name, over any number of blocks |
| `RfsDir.RamDisk.Compact` | kernel/rfs.c:711-758 | with two block images in flight, the concatenation of the blocks loses one record and repeats the last |
| `RfsFile.FileIo.Write` | kernel/rfs.c:388-459 | the file's bytes become the old ones with the data spliced in, followed by a piece of the shared buffer when the last block was not read first; inode and freemap grow as foretold, and no other inode or block changes |
| `RfsFile.OthersKeepContents` | kernel/rfs.c:388-459 | an inode none of whose blocks is among those written has the contents it had |
| `RfsFile.FileIo.Read` | kernel/rfs.c:326-383 | gathers exactly the slice of the contents, and delivers it up to the first NUL |
| `RfsFile.WriteSplices` | kernel/rfs.c:388-459 | the contents after a write are the splice if and only if the bytes overrun by the last block happen to be equal; the safe domain is where there are none |
| `RfsFile.OverrunLosesBytes` | kernel/rfs.c:441-451 | counterexample: one byte written to the start of a two-byte file clears the second |
| `RfsFile.WholeWithoutNul` | kernel/rfs.c:378-379 | a read is delivered whole if and only if it holds no NUL |
| `HashTable.Table.Get` | util/hash_table.c:23-35 | returns what the finite map has under the key |
| `HashTable.Table.Put` | util/hash_table.c:7-21 | adds a key that is absent, refuses one that is present, and changes no other key |
| `HashTable.Table.Erase` | util/hash_table.c:37-52 | removes a key that is present, fails on one that is absent, and changes no other key |
| `HashTable.Table.EraseMeaning` | util/hash_table.c:37-52 | a chain without the matching node answers as before for every key that is not equal to it |
| `HashTable.Table.constructor` | util/hash_table.c:54-69 | a new table is the empty map |
| `VfsHash.DentryHashFunc` | kernel/vfs.c:721-734 | the loop computes the hash of name and parent, an index of the table |
| `VfsHash.DentryKeysAreCongruent` | kernel/vfs.c:710-734 | equal dentry keys hash alike, into the table |
| `VfsHash.VinodeKeysAreCongruent` | kernel/vfs.c:762-777 | equal vinode keys hash alike, into the table |
| `VfsHash.EmptyTables` | kernel/vfs.c:22-33 | both tables start as the empty map |
| `VfsHash.HashGetDentry` | kernel/vfs.c:737-741 | what the dentry map has under parent and name |
| `VfsHash.HashPutDentry` | kernel/vfs.c:743-753 | the map gains the dentry, unless the name is present |
| `VfsHash.HashEraseDentry` | kernel/vfs.c:755-759 | the map loses exactly that name |
| `VfsHash.HashGetVinode` | kernel/vfs.c:780-786 | what the vinode map has under the number; nothing for a negative one |
| `VfsHash.HashPutVinode` | kernel/vfs.c:788-800 | the map gains the vinode, unless the number is present or negative |
| `VfsHash.HashEraseVinode` | kernel/vfs.c:802-808 | the map loses exactly that number |
| `PmmState.InsertKeepsSortedIff` | kernel/pmm.c:49-73 | from any sorted table, insertion keeps it sorted if and only if it is empty or the page is at most the last key |
| `PmmState.EveryRunIsSound` | kernel/pmm.c:129-160 | in every run from pmm_init in which the highest page keeps a holder, the table is strictly sorted, records exactly how often each page is held with one entry per page, and every managed page is on the free list exactly once or held |
| `PmmState.AllocKeepsInv` | kernel/pmm.c:150-160 | alloc_page returns a page nobody holds, or 0 when every page is held |
| `PmmState.ReleaseKeepsInv` | kernel/pmm.c:129-144 | free_page by a holder returns the page to the list if and only if that was the last reference |
| `PmmState.ShareKeepsInv` | kernel/vmm.c:255-260 | a further reference keeps the invariant |
| `PmmState.SharedPageReturns` | kernel/pmm.c:129-160 | a page shared k extra times goes back to the list exactly on the last release |
| `PmmState.ReleasedOnLast` | kernel/pmm.c:75-103 | of n releases of a page with n references only the last returns it |
| `PmmState.ReleasedIsNext` | kernel/pmm.c:129-160 | the page freed last is the next to be handed out, and the list behind it is as it was |
| `PmmState.LostSentinelBreaksOrder` | kernel/pmm.c:49-73 | if the highest page loses its last holder while other pages are held, the next alloc_page leaves the table unsorted |
| `PmmState.BootInv` | kernel/pmm.c:117-122 | create_freepage_list lists every managed page once, the highest first |
| `PmmState.TableSize` | kernel/pmm.c:22-23 | the table has one entry per held page |
| `PmmState.InsertRecords` | kernel/pmm.c:25-73 | inserting raises the count of one page by one |
| `PmmState.EraseRecords` | kernel/pmm.c:75-103 | erasing lowers it by one and reports whether none is left |
| `Pmm.Allocator.constructor` | kernel/pmm.c:166-191 | pmm_init, given the range, ends in the boot state |
| `Pmm.Allocator.Bisect` | kernel/pmm.c:25-47 | the bisection finds the entry of a page exactly when there is one |
| `Pmm.Allocator.InsertionPoint` | kernel/pmm.c:55-68 | the second bisection, with its default position 0 |
| `Pmm.Allocator.RefInsert` | kernel/pmm.c:49-73 | refines insertion into the table |
| `Pmm.Allocator.RefErase` | kernel/pmm.c:75-103 | refines erasure, memmove included |
| `Pmm.Allocator.FreePage` | kernel/pmm.c:129-144 | refines the release step |
| `Pmm.Allocator.AllocPage` | kernel/pmm.c:150-160 | refines the allocation step from any sorted table; it stays sorted if and only if it was empty or the page is at most its last key |
| `Pmm.Allocator.CreateFreepageList` | kernel/pmm.c:117-122 | refines the boot state |
| `Pmm.FreedTwiceNeverEnds` | kernel/pmm.c:129-144 | freeing a page that is on the list closes the list to a ring: from that page on no finite chain of links ends |
| `Pmm.ReadyToAlloc` | kernel/pmm.c:150-160 | what AllocPage asks of its caller holds in every reachable state with a free table slot |
| `Vmm.Mmu.PageWalk` | kernel/vmm.c:59-100 | returns the slot of the three-level walk; allocation changes no entry of any address space; with allocation it succeeds if and only if there are as many free pages as missing tables |
| `Vmm.Mmu.MapPages` | kernel/vmm.c:19-34 | maps exactly the pages of the range, all of them or those before the first failure, and leaves every other entry of every address space as it was; enough free pages guarantee success |
| `Vmm.Mmu.LookupPa` | kernel/vmm.c:105-119 | returns the translation and changes nothing |
| `Vmm.Mmu.Unmap` | kernel/vmm.c:205-222 | clears the valid bit of exactly one page and releases it to the allocator: it returns to the free list exactly with its last reference |
| `Vmm.Mmu.CowMap` | kernel/vmm.c:255-260 | replaces exactly one page's entry by one that a user may read, not write and not execute, with the copy-on-write bit, and gives the page one more reference |
| `Vmm.Mmu.KernVmInit` | kernel/vmm.c:141-166 | the kernel's space is the identity on every page of [0x80000000, 0x88000000) and nothing else, text executable and not writable, the rest writable and not executable; 68 free pages suffice |
| `Vmm.MappedTranslates` | kernel/vmm.c:19-34 | page by page, lookup_pa returns the mapped page if the mapping is readable or writable and 0 otherwise; all other translations are kept |
| `Vmm.FoundIffAccessible` | kernel/vmm.c:39-53 | a page mapped with protection `prot` to other than page 0 is found by lookup_pa if and only if `prot` is not execute-only |
| `Vmm.UnmappedTranslates` | kernel/vmm.c:205-222 | after unmapping, lookup_pa returns 0 on that page and what it did everywhere else |
| `Vmm.HangKeepsLeaves` | kernel/vmm.c:80-95 | a fresh table behind an empty entry alters no translation |
| `Vmm.StoreAtWalk` | kernel/vmm.c:59-100 | a store through the walk of one address changes that page in that address space only |
| `Vmm.SamePage` | kernel/vmm.c:75-76 | two addresses have the same three indices if and only if they are on the same page |
| `Vmm.KernelIdentity` | kernel/vmm.c:141-166 | the two kernel mappings compose to the identity |
| `Vmm.KernelIsProtected` | kernel/vmm.c:152-163 | the two kernel mappings make text executable and not writable, the rest writable and not executable, and nothing accessible to users |
| `Vmm.PoolIsFresh` | kernel/pmm.c:150-160 | pages on the allocator's list are no page tables, because tables are held |
| `Vmm.ProtToType` | kernel/vmm.c:39-53 | bit by bit: W and D exactly with PROT_WRITE, X exactly with PROT_EXEC, R with PROT_READ or no protection at all, A with read or execute, U exactly for users; every protection but execute-only is one that lookup_pa accepts |
| `SchedRuns.EveryRunIsSound` | kernel/sched.c:16-176 | in every run of fork, yield, timer, sem_init, P and V all queues are duplicate-free and pairwise disjoint, each shortfall of a semaphore is the length of its waiting queue, and the histories are first in, first out |
| `SchedRuns.NeverOverAcquired` | kernel/sched.c:151-176 | completed P operations never exceed the initial value plus the V operations |
| `SchedRuns.WokenInOrder` | kernel/sched.c:102-140 | those woken from a semaphore are the first who blocked on it, in order |
| `SchedRuns.DispatchedInTurn` | kernel/sched.c:57-93 | a process at position k of the ready queue is picked by the (k+1)-th dispatch, whatever is enqueued meanwhile |
| `SchedRuns.WaitsInTurn` | kernel/sched.c:57-93 | until then it is in the queue, nearer the head by one per dispatch |
| `SchedRuns.ReadyIsFifo` | kernel/sched.c:16-93 | each step appends at the end and takes from the head |
| `SchedRuns.PreemptedInTurn` | kernel/strap.c:111-126 | in every run, of the timer interrupts that meet a process running every second one sends it to the ready queue and no other does; its tick count is the number of those since |
| `SchedRuns.OncePerSlice` | kernel/strap.c:111-126 | from any sound state on, two such interrupts send it there exactly once, and it then has the slice it had |
| `SchedRuns.RunsAfter` | kernel/sched.c:57-93 | only the processor that schedules gets another process, the head of the queue; the machine stops exactly when there is none |
| `SchedRuns.LeaverRuns` | kernel/sched.c:86-92 | the process that leaves the queue runs on the calling processor |
| `SchedState.PopNeverEmpty` | kernel/sched.c:133-140 | waiting_queue_pop is called if and only if someone waits |
| `SchedState.SemInitKeepsInvIff` | kernel/sched.c:142-149 | sem_init keeps the books if and only if the initial value is not negative |
| `SchedState.AcquireKeepsInv` | kernel/sched.c:151-162 | P keeps the invariant, blocking or not |
| `SchedState.ReleaseKeepsInv` | kernel/sched.c:164-176 | V keeps the invariant and readies the first waiter |
| `SchedState.YieldKeepsInv` | kernel/syscall.c:127-139 | yield keeps the invariant and rotates the queue |
| `SchedState.TimerKeepsInv` | kernel/strap.c:111-126 | the timer keeps the invariant, and rotates the ready queue at the end of a slice |
| `SchedState.SpawnKeepsInv` | kernel/process.c:290-293 | a forked process joins the end of the ready queue |
| `SchedState.ScheduleKeepsQueues` | kernel/sched.c:57-93 | the process that schedule picks is READY, as it asserts, and then in no queue |
| `Sched.Scheduler.constructor` | kernel/process.c:78-87 | the boot state |
| `Sched.Scheduler.InsertToReadyQueue` | kernel/sched.c:16-47 | appends through the shared links and leaves every other queue linked |
| `Sched.Scheduler.ScheduleNext` | kernel/sched.c:57-93 | takes the head, or halts |
| `Sched.Scheduler.WaitingQueuePush` | kernel/sched.c:102-132 | appends to one waiting queue and leaves every other queue linked |
| `Sched.Scheduler.WaitingQueuePop` | kernel/sched.c:133-140 | takes the head of a waiting queue |
| `Sched.Scheduler.SemaphoreInit` | kernel/sched.c:142-149 | a new semaphore with any initial value; the books stay right if and only if it is not negative |
| `Sched.Scheduler.P` | kernel/sched.c:151-162 | refines P |
| `Sched.Scheduler.V` | kernel/sched.c:164-176 | refines V |
| `Sched.Scheduler.YieldProcessor` | kernel/syscall.c:127-139 | refines yield |
| `Sched.Scheduler.RoundRobin` | kernel/strap.c:111-126 | refines the timer step |
| `Sched.Scheduler.Fork` | kernel/process.c:93-104 | takes the first FREE slot and makes it ready |
| `Fdt.ScanIsDepthFirst` | spike_interface/dts_parse.c:18-87 | scanning any well-formed flattened tree, NOPs included, reports its depth-first open, property, done and close events, `done` once per node after its properties and before its children |
| `Fdt.RescanSeesPruned` | spike_interface/dts_parse.c:67-70 | after close returned -1 on some nodes, a second scan reports the tree without those subtrees |
| `Fdt.PrunedIsKept` | spike_interface/dts_parse.c:67-70 | overwriting nodes with NOPs keeps every offset and the form, and is removal of the subtrees |
| `Fdt.Blob.ScanItems` | spike_interface/dts_parse.c:18-87 | the recursive scanner over memory: events, new memory and returned cursor |
| `Fdt.Blob.ScanChild` | spike_interface/dts_parse.c:57-72 | a child node: its name, its own scan and the deletion |
| `Fdt.Blob.Erase` | spike_interface/dts_parse.c:68-69 | exactly the words from one cursor to the other become NOPs |
| `Fdt.Blob.ScanTwice` | spike_interface/dts_parse.c:105-117 | two scans of one blob: the tree, then the tree without what the first deleted |
| `Fdt.NameRoundTrip` | spike_interface/dts_parse.c:63-66 | a name, padded to whole words, is read back |
| `Fdt.BswapReversesBytes` | spike_interface/dts_parse.c:11-16 | bswap turns the little-endian load of a word into the big-endian value that the scanner works with |
| `Fdt.BswapUndoesItself` | spike_interface/dts_parse.c:11-16 | bswap is its own inverse |
| `HeapState.HeldNeverOverlap` | kernel/process.c:486-640 | in every run of malloc and free in which each request can be met, blocks tile the heap, the free list is a set of blocks, and no byte is in two held payloads |
| `HeapState.MallocKeepsInv` | kernel/process.c:626-632 | a malloc that can be met hands out a block that was not live, with room for the request, and changes no live block |
| `HeapState.FreeKeepsInv` | kernel/process.c:634-640 | free makes exactly one block free |
| `HeapState.MallocUndoesFree` | kernel/process.c:567-640 | asking for the size of the block freed last gives that block and the heap as it was before the free |
| `HeapState.MallocOf16` | kernel/process.c:504-624 | on 16-byte bounds a request for a multiple of 16 can be met if and only if a block has room, or the highest free block ends at heap_top and lacks less than a page |
| `HeapState.RunsOf16` | kernel/process.c:486-640 | so runs of such requests meet the condition at every step |
| `HeapState.SafeSizesIff` | kernel/process.c:592-614 | a request size can be met in every heap on 16-byte bounds that has room for it if and only if it is a multiple of 16 |
| `HeapState.TwoPagesFail` | kernel/process.c:530-542 | the first request of 8192 bytes cannot be met |
| `HeapState.Covered` | kernel/process.c:486-640 | every byte of the heap is in some block |
| `HeapState.GrowKeepsInv` | kernel/process.c:504-565 | extending the highest free block keeps the tiling |
| `UserHeap.MallocKeepsFormIff` | kernel/process.c:626-632 | for every request on every sound heap: the memory vm_malloc leaves is a well-formed heap if and only if the block found can be cut with room for a header, or the heap can grow by a page |
| `UserHeap.AllocKeepsFormIff` | kernel/process.c:567-624 | the same for first fit alone |
| `UserHeap.TakeKeepsFormIff` | kernel/process.c:577-614 | taking a block keeps the form if and only if it fits exactly or leaves room for a header |
| `UserHeap.GrowKeepsFormIff` | kernel/process.c:504-565 | growth leaves a well-formed heap if and only if the highest free block ends at heap_top, the size is a multiple of 8, and the page added has room for a header behind it |
| `UserHeap.TwoPagesBreakTheHeap` | kernel/process.c:530-542 | after the first request of 8192 bytes no tiling fits the memory |
| `UserHeap.PageShort` | kernel/process.c:530-542 | the page loop adds one page for a shortfall of at most a page, and one page too few beyond that |
| `UserHeap.UserHeap.constructor` | kernel/process.c:147-150 | an empty heap |
| `UserHeap.UserHeap.TryAllocFreeBlock` | kernel/process.c:486-502 | refines making a page the first free block |
| `UserHeap.UserHeap.FindFirstFit` | kernel/process.c:573-577 | the first block of the list with room, and the one before it |
| `UserHeap.UserHeap.AllocFromFreeBlock` | kernel/process.c:567-624 | for every size: memory as first fit leaves it, and the heap it stands for when the request can be met |
| `UserHeap.UserHeap.AllocFromNewBlock` | kernel/process.c:504-565 | for every size: memory as growth leaves it, and the heap it stands for when it can grow |
| `UserHeap.UserHeap.FindHighest` | kernel/process.c:510-522 | the highest free block and its predecessor in the list |
| `UserHeap.UserHeap.GrowMemory` | kernel/process.c:523-563 | in any state, changes memory as GrowRaw says, the page loop included |
| `UserHeap.UserHeap.TakeBlock` | kernel/process.c:577-614 | a block with room is taken: the heap it stands for when it fits exactly or leaves room for a header |
| `UserHeap.UserHeap.LinkAround` | kernel/process.c:579-591 | an exact fit is linked around |
| `UserHeap.UserHeap.CutBlock` | kernel/process.c:592-614 | a larger block is cut in two at the next multiple of 8 |
| `UserHeap.UserHeap.VmMalloc` | kernel/process.c:626-632 | for every size: the address, the memory, and the heap it stands for if and only if the request can be met |
| `UserHeap.UserHeap.VmFree` | kernel/process.c:634-640 | refines free |
| `Snprintf.Vsnprintf` | util/snprintf.c:11-103 | for every format, argument list and n: the buffer holds the first n-1 bytes of the unbounded rendering and a NUL, nothing else changes, and the result is the length of the rendering unless a %d or %s follows a %c that does not fit |
| `Format.FitsIsRight` | util/snprintf.c:11-103 | the bytes that fit are those of the rendering, even when arguments are read early |
| `Format.CountIsRightIff` | util/snprintf.c:81-88 | the returned length is right for all arguments past the cut if and only if no %d or %s follows a %c that does not fit |
| `Format.CountIsRight` | util/snprintf.c:81-88 | without such a directive the returned length is that of the rendering |
| `Format.CountGoesWrong` | util/snprintf.c:81-88 | with one, there are arguments for which it is not |
| `Format.CutCharacterMiscounts` | util/snprintf.c:81-88 | counterexample: "%c%d" with 65 and 100 into one byte counts 3 instead of 4 |
| `Format.HexReadsBack` | util/snprintf.c:32-44 | the digits of %x and %p spell, in base 16, the number modulo 16^count |
| `Format.ParseWritten` | util/snprintf.c:11-92 | a format reads back as the tokens it was written from |
| `Format.AtolOfSigned` | util/string.c:147-168 | atol of what %ld prints is the number |
| `Format.FoldBounded` | util/string.c:160-165 | on the way atol's accumulator never exceeds the number, so nothing overflows |
| `Snprintf.PutHex` | util/snprintf.c:32-44 | %x writes the nibbles from the highest |
| `Snprintf.PutDigits` | util/snprintf.c:54-63 | %d writes the digits from the last, and counts them first |
| `Snprintf.PutDecimal` | util/snprintf.c:45-67 | %d with its sign |
| `Snprintf.PutText` | util/snprintf.c:68-80 | %s |
| `Snprintf.PutCharacter` | util/snprintf.c:81-88 | %c takes its argument only when it fits |
| `Snprintf.InFormat` | util/snprintf.c:19-92 | the switch on the character behind a percent sign |
| `Snprintf.ReadLong` | util/string.c:147-168 | the loops of atol compute its value |
| `Symbol.SymbolTable.QuickSort` | kernel/symbol.c:8-31 | the range is sorted by st_value, symbols and names are permuted together, and nothing outside changes |
| `Symbol.SymbolTable.Partition` | kernel/symbol.c:11-28 | entries below the first one come before it and the others after it, as a permutation of pairs |
| `Symbol.SymbolTable.FuncName` | kernel/symbol.c:32-61 | computes the bisection |
| `Symbol.NamesTheCover` | kernel/symbol.c:32-61 | where no symbol starts inside another, the search names the unique symbol that covers an address if there is one, and none otherwise |
| `Symbol.AlwaysFoundIff` | kernel/symbol.c:32-61 | in a table with nonempty ranges disjoint and starts distinct, a symbol is found at all its addresses if and only if no later symbol probed on the way to it starts before its end |
| `Symbol.FoundIff` | kernel/symbol.c:32-61 | for one address: if and only if none of those starts at or below it |
| `Symbol.EmptySymbolHides` | kernel/symbol.c:32-61 | counterexample: an empty symbol inside a function hides the function |
| `Symbol.SortedIsSeparate` | kernel/symbol.c:8-31 | sorting a table in which no symbol starts inside another makes it one the search is right on |
| `Leb128.UnsignedRoundTrip` | kernel/elf.c:71-87 | the unsigned reader inverts minimal encoding for all values below 2^64 and moves past exactly its bytes |
| `Leb128.SignedRoundTripIff` | kernel/elf.c:88-106 | for 64-bit values the signed reader inverts minimal encoding if and only if the value is at least -2^27 or below -2^62; it always moves past exactly its bytes |
| `Leb128.ReadUleb` | kernel/elf.c:71-87 | the loop computes the value of the groups modulo 2^64 |
| `Leb128.ReadSleb` | kernel/elf.c:88-106 | the loop and the sign extension with its 32-bit shift |
| `LineTable.TableIsSound` | kernel/elf.c:199-286 | no run of the line program over any units leaves two neighbouring rows with one address; when the addresses added never go back the table is strictly increasing |
| `LineTable.LastRowStays` | kernel/elf.c:211-236 | of neighbouring rows with one address the last one stays |
| `LineTable.SelectsTheRow` | kernel/process.c:444-452 | in an increasing table, for an address from the first row up to the last, the row picked is the unique one with addr <= mepc < next addr |
| `LineTable.SelectRow` | kernel/process.c:444-452 | the loop stops at the first row above mepc |
| `LineTable.RunProgram` | kernel/elf.c:199-286 | decoding and running the bytes of a program is running the program |
| `LineTable.Step` | kernel/elf.c:201-284 | one opcode: its operands, registers and row; a line delta moves the line by what the signed reader makes of it |
| `LineTable.LaterOpcodesAddRows` | kernel/elf.c:269-284 | opcodes 10 to 12 are run as special ones: with opcode_base 13 each adds a row at the same address on another line |
| `LineTable.AdvanceAndCopy` | kernel/elf.c:231-246 | advance_pc, advance_line, copy add the row that many instructions and lines on, for every line delta the reader inverts |
| `LineTable.SpecialDoesBoth` | kernel/elf.c:269-284 | the special opcode that section 6.2.5.1 of DWARF version 3 gives for those advances adds the same row |
| `LineTable.ConstAddsAs255` | kernel/elf.c:255-261 | const_add_pc moves the address as special opcode 255 does, and nothing else |
| `LineTable.SetsShow` | kernel/elf.c:217-268 | set_address, fixed_advance_pc and set_file set what the next row shows |
| `LineTable.OthersShowNothing` | kernel/elf.c:208-254 | end_sequence adds a row; discriminator, column, statement and block opcodes change nothing |
| `LineTable.ExecIsEmit` | kernel/elf.c:199-286 | the rows of a run are the rows its opcodes add, one after the other |
| `LineTable.LeRoundTrip` | kernel/elf.c:109-135 | read_uint64 and read_uint16 invert little-endian encoding |

## Left out

- hostfs, the spike interface, machine mode, assembly and CSR access: host calls and hardware without visible semantics.
- Interleavings of two harts inside one kernel call: the ready-queue lock is dropped before the append (kernel/sched.c:38-44) and a semaphore lock is released twice on the wake path (kernel/sched.c:170-175).
- do_wait, exit and the wake-ups they cause: schedule does not return, so the code behind it is never reached.
- Contents of copied pages after fork, and fork's handling of open files.
- strtok, memmove as bytes, strcmp and strcpy: paths are sequences of names, and names are strings that fit their buffers.
- Directories on more than one block inside the runs: rfs_add_direntry never adds a block, so runs stay within one; the unlink theorem covers any number of blocks.
- Paths that go through a file as if it were a directory: the original reads the file's blocks as records; the runs leave such lookups out.
- rfs_readdir, lseek and stat: easy members.
- Reference counts of 2^64 and more, and int32 truncation of vsnprintf's result.
- The cell counts of device tree nodes, which siblings share.
- Unknown extended opcodes of a line program, which the code does not skip; directory and file names of a unit.
- ELF loading, system call dispatch, user programs and the shell.
- FsRuns.MountedInv: RFS is mounted as the root. kernel/proc_file.c:39 mounts it under the host file system's root; the tree, caches and disk below its own root dentry are the same, with one more name in front of absolute paths.
- FsRuns.EveryRunIsSound: calls that would panic, and creations and links that break the invariant by the exact conditions of FsOps.OpenKeepsInvIff, FsOps.MkDirKeepsInvIff and FsOps.LinkKeepsInvIff, end a run.
- FsRuns.OneVinodePerInode: there is one superblock.
- FsOps.LookupIsWalk: a `..` above the root makes the call fail. The original leaves the missing name unset there, and a creating caller compares it with the base name (kernel/vfs.c:594-597).
- Vfs.VirtualFs.OpenPath: a full directory must have a disk block as the next entry of its block list; the device panics otherwise. The same holds for Vfs.VirtualFs.MakeDirectory and Vfs.VirtualFs.LinkPath.
- Vfs.VirtualFs.LookupToken: the two caches are maps. VfsHash shows that the hash tables are such maps under every operation that is used; the tables are not fields of the class.
- Pmm.Allocator.AllocPage: asks for a free table slot, because ref_list has 0x4000 entries and no bound check.
- Vmm.Mmu.Unmap: the page walk must succeed, or the original panics, and the page must be a managed one that is no page table and not on the free list. A second unmap of one address frees a free page, because the valid bit is not looked at; Pmm.FreedTwiceNeverEnds says what becomes of the list.
- Vmm.Mmu.CowMap: the tables that the walk adds come from a pool of pages; their own reference counts are not followed here.
- Fdt.Blob.ScanItems: the decision of the close callback is a function of the node's offset, which is all a single scan can distinguish.
- Snprintf.Vsnprintf: the minimum long is excluded, since negating it overflows, and there must be as many arguments as directives.
- HeapState.HeldNeverOverlap: a request that cannot be met by the exact condition of UserHeap.MallocKeepsFormIff ends a run.
- UserHeap.UserHeap.AllocFromNewBlock: assumes that alloc_page finds a page, as the original does.
- VfsProgram.WriteThenRead: the offset of a handle is a parameter of each call, since a handle's own offset and lseek are not modelled; nothing is read back of an empty write.
