# Serix storage, scheduling and memory, verified in Dafny

This project models the stateful core of the Serix kernel and proves what its code keeps, undoes and
computes. Each part is written twice. A pure definition says what one call does to a value, and
lemmas prove what that means for every input, every reachable state or every run. A class with the
fields and loops of the driver's code is then proved to do exactly what the definition says.

| part | definition and theorems | class with loops |
|---|---|---|
| ext2 | `Ext2Bitmap`, `Ext2Layout`, `Ext2Alloc`, `Ext2Inode`, `Ext2BlockMap`, `Ext2File`, `Ext2Space`, `Ext2Dir`, `Ext2DirOps`, `Ext2Room`, `Ext2Fs`, `Ext2Lost`, `Ext2Leak`, `Ext2Runs`, `Ext2UsedDirs`, `Ext2Format`, `Ext2Instances`, `Ext2Links` | `Ext2Driver`, `Ext2Mount` over an array of sectors (`Ext2Device`) |
| virtqueue and sector I/O | `Virtqueue`, `SectorIo` | `VirtqueueDriver`, `SectorDriver` |
| FAT32 | `FatTable`, `FatForest`, `FatFile`, `FatDir`, `FatNames` | `FatDriver`, `FatNode`, `FatDirDriver` |
| run queue and ports | `Scheduler` | `SchedulerDriver` |
| SLUB and frames | `Slub` | `SlubDriver` |
| ELF loading | `Elf` | `Elf` |
| mount table | `MountTable` | `MountTable` |

`Arith`, `Bytes` and `Sequences` hold shared definitions. `dafny verify dfyconfig.toml` checks everything.

## Main results

- **ext2 implements a tree.** In every run of create, mkdir, write and unlink the volume, its
  bitmaps, counts, descriptors, inodes, index blocks and directory records together represent a tree
  of files and directories (`Ext2Runs.RunImplements`), with the size, `i_blocks`, mode and link count of
  every node and the type byte of every record. After any run reads and lookups return what the
  tree says (`RunReads`, `RunLookups`), every data or index block has one owner, is marked used and is
  not metadata (`RunBlocksDisjoint`), and mounting again gives the state held in memory
  (`RemountSame`). A concrete volume shows that the starting hypotheses can be met (`Ext2Format`).
- **Block map.** `set_block` is an update of `get_block` on all four levels if and only if there is
  room for the missing index blocks (`Ext2BlockMap.SetBlockIff`). A whole write stores all it reports
  exactly when the free blocks before the call cover the data and index blocks that are lacking, each
  counted once, or run out exactly before one of the blocks (`Ext2Space.WriteStoresIff`).
- **Virtqueue.** In every interleaving of driver and device the free list and the chains in flight
  partition the table, the device reads exactly what was submitted, and completions are delivered once
  each in order, across 16-bit wrap-around (`VirtqueueModel.RunInv`).
- **Sector I/O.** Over every interleaving, calls behave like calls on a plain disk made one at a time,
  and no descriptor leaks (`SectorIo.IoRun`). A call succeeds if and only if the first answer after the
  first fetch reports success for a sector of the disk (`SectorDriver.VirtioBlock.ReadSector`,
  `WriteSector`).
- **FAT32.** Chains stay in range, acyclic, end-marked and disjoint in every run
  (`FatForest.RunForest`). From the state before the call, a write for which chain and free clusters
  suffice splices the file and leaves every other file alone (`FatFile.FileWriteLaw`), and reading it
  back gives what was written (`FatNode.FatFileNode.WriteThenRead`). Long names round-trip
  (`FatDir.LfnRoundTrip`), short names do unless they end in a dot (`FatNames.ShortBack`), and a write
  shows in the listing as the new size alone (`FatDirDriver.WriteListed`). Creation and unlinking act on lookups as they should exactly under stated
  conditions (`FatNames.CreateLookupIff`, `UnlinkLookup`), and touch nothing outside the directory and
  the file's own chain (`FatDirDriver.CreateDirEntry`, `Unlink`).
- **Scheduling.** Every task is in one place and its state agrees, no wake-up is lost, and waiting is
  bounded by queue position (`Scheduler.RunGood`, `BoundedWaiting`). The classes keep that invariant
  and say which task each call moves (`SchedulerDriver`).
- **Memory and loading.** SLUB blocks tile the range, live ones are page aligned and disjoint, and a
  request succeeds exactly when a block is cached or the frames left suffice
  (`SlubDriver.SlubAllocator.Alloc`). The loaded image is the file's bytes and zeros, for any input
  file (`Elf.LoadImage`, `LoadElf`), with the permission bits of its headers (`LoadPerms`), and headers laid
  out as the format says are read back (`PhBack`, `HeaderBack`, `TableBack`). A path resolves exactly to where
  the deepest covering mount and a trail of its components lead (`MountTable.ResolveIff`), whatever the order
  of the mounts (`OrderIrrelevant`).

## Where the code does less than it promises

Each of these has the exact condition under which the promise holds, and an input on which it fails.

- `set_block` with too few free blocks for its index blocks overwrites block 0 and loses the pointer:
  `Ext2BlockMap.SetBlockIff`, `ErasedSuperblock`; input `Ext2Instances.SetBlockErases`. `write` then
  reports bytes it has not stored: `Ext2Space.WriteStoresIff`; input `Ext2Instances.WriteLosesByte`. Four
  free blocks for every block a write reaches are always enough: `Ext2File.WriteCompletes`.
- ext2 `create_file` and `mkdir` return success although the name was not stored, exactly when no block
  of the directory has slack and the free blocks do not cover a new block with its index blocks (and,
  for `mkdir`, the directory's own block): `Ext2Lost.CreateFileIff`, `MkdirIff`; inputs
  `Ext2Instances.CreateLosesName`, `MkdirLosesName`. `mkdir` without a free block also keeps the inode
  it allocated.
- ext2 `mkdir` counts the directory in its parent's group, so `used_dirs` stays right exactly when that
  group is the first with a free inode: `Ext2UsedDirs.MkdirCounts`, `RunCounts`; input
  `Ext2Instances.CountGoesWrong`.
- ext2 `mkdir` leaves the link count of the parent, to which ".." of the new directory leads, so link
  counts stay the number of records leading to a node exactly in runs without `mkdir`:
  `Ext2Links.StepLinks`, `RunLinks`; input `LinksGoWrong`.
- ext2 `unlink` frees no index block, so it returns every block exactly when the file has at most twelve:
  `Ext2Leak.UnlinkReturnsAll`; input `Ext2Instances.UnlinkLeaks`.
- FAT32 `create_dir_entry` adds a cluster behind an end mark, so the new entry is not found:
  `FatNames.CreateLookupIff`; inputs `CreateLost`.
- FAT32 `unlink` leaves a name that a second entry also answers to: `FatNames.UnlinkLookup`; inputs
  `NameTwice`, `TwiceA`.
- FAT32 `file_write` puts the requested size in the entry even when it ran out of clusters, while the
  open handle keeps the written size: `FatFile.SizesAgree`, `WriteFits`; input `SizesDiffer`.
- `receive_blocking` with no other runnable task leaves the caller both current and on the wait list:
  `Scheduler.BlockIff`; input `BlockAlone`.
- A failed SLUB `alloc` has used up every frame and leaves pages mapped at the bump pointer; from then on
  no request that needs fresh pages succeeds: `SlubDriver.SlubAllocator.Alloc`; input `OneFrameShort`.
- A segment that shares a page with an earlier one gets that one's permissions: `Elf.PermsIff`; input
  `DataAfterCode`. Program headers shorter than 56 bytes can be read behind the end of the file, and those
  of a table whose end wraps at 64 bits before its start, although the check passes: `Elf.ReadInside`;
  inputs `ReadPastEnd`, `ReadBeforeStart`.
- A doubled slash before the end of a mount point bypasses the mount: `MountTable.DeepestIff`,
  `SameComponents`; input `DoubledSlash`.

The comment of `read_sector` speaks of waiting for an interrupt; the code polls, and so does the model.

## Hypotheses

- ext2: blocks of 2 to 32 KiB with `s_first_data_block` 0, since the allocator computes block numbers
  without that field; fewer than 65536 blocks and inodes per group; inode size at least 128 and dividing
  the block size; bitmap bits beyond the group set; the device holds the volume and its I/O succeeds;
  a file has one name and, up to twelve blocks, no index block; `i_blocks` counts data blocks only, as the
  driver keeps it; a directory record has the type byte of its target; names of 1 to 255 bytes that are not in
  the directory yet; writes start at or before the end of the file; a directory stays below 4 GiB. Block
  and inode numbers outside the volume, on which the driver would stop with a panic, change nothing in
  the model.
- Virtqueue: queue size a power of two up to 256; a device that fetches heads in order, returns each
  chain it fetched once, and writes only where the descriptors let it.
- FAT32: a table that covers all clusters, cluster numbers below the end marks, copies equal in their
  low 28 bits; directories in which only end marks follow an end mark; printable ASCII names; an entry
  whose slots cross a cluster boundary lies in consecutive clusters, as `advance_dir_slot` takes for granted.
- Scheduling: one CPU, each step with interrupts off; a task blocks only while another is runnable.
- SLUB: `free` is called as its safety comment demands. The frames each page needs for page tables are a parameter.
- ELF: arithmetic wraps at 64 bits, as in the release build the Makefile makes; memory for the segments
  is there; a file is shorter than half the address space, as every Rust slice is.
- Mount table: the file system's `lookup` is a parameter, and any sort by falling length will do. The results on
  components are for mount points given as absolute paths without doubled slashes.
- Timestamps are parameters.

## Model

| member | source | states |
|---|---|---|
| `Bitmap.FirstFree` | fs/src/ext2/bitmap_alloc.rs:19-30 | the first zero bit at or after a position, or none when every bit is set |
| `Bitmap.FindFreeBit` | fs/src/ext2/bitmap_alloc.rs:19-30 | the nested byte and bit loops return that first zero bit for every bitmap |
| `Bitmap.SetBit` | fs/src/ext2/bitmap_alloc.rs:32-34 | sets exactly one bit and changes no other |
| `Bitmap.ClearBit` | fs/src/ext2/bitmap_alloc.rs:36-38 | clears exactly one bit and changes no other |
| `Bitmap.FreeBitsUpdate` | fs/src/ext2/bitmap_alloc.rs:32-38 | setting or clearing a bit moves the number of zero bits by exactly one |
| `Bitmap.ClearUndoesSet` | fs/src/ext2/bitmap_alloc.rs:32-38 | clearing a bit that was clear before it was set restores the bitmap byte for byte |
| `Bitmap.FirstFreeIsUnique` | fs/src/ext2/bitmap_alloc.rs:19-30 | any zero bit with only ones before it is the one found |
| `Ext2Layout.PutCountsReadBack` | fs/src/ext2/superblock.rs:44-107 | after write_free_counts the superblock reads back with the new counts and every other field as it was |
| `Ext2Layout.PutDesc` | fs/src/ext2/bgdt.rs:111-119 | a written descriptor reads back, and the padding and all bytes outside the entry stay unchanged |
| `Ext2Layout.RecordFits` | fs/src/ext2/bgdt.rs:96-99 | records whose size divides the block size never straddle two blocks |
| `Ext2Layout.RecordsApart` | fs/src/ext2/bgdt.rs:96-99 | distinct records in one block do not overlap |
| `Ext2Layout.WriteDescReadBack` | fs/src/ext2/bgdt.rs:91-127 | writing descriptor g changes what is read for g to the new descriptor and for no other group |
| `Ext2Layout.PutDescRestores` | fs/src/ext2/bgdt.rs:111-119 | writing a descriptor's old value back restores the block byte for byte |
| `Ext2Alloc.ItemParts` | fs/src/ext2/bitmap_alloc.rs:104-106 | group and bit of a block or inode number are in range and name that number |
| `Ext2Alloc.PartsOfItem` | fs/src/ext2/bitmap_alloc.rs:94-106 | the number allocated for a group and bit is split back into that group and bit when freed |
| `Ext2Alloc.MarkCore` | fs/src/ext2/bitmap_alloc.rs:84-117 | marking a bit keeps all of it: group counts equal zero bits, superblock count equals their sum, on-disk copies equal memory, owned blocks stay marked used |
| `Ext2Alloc.MarkMoves` | fs/src/ext2/bitmap_alloc.rs:84-117 | exactly one item changes state, only metadata blocks are written, and the count of that kind moves by one |
| `Ext2Alloc.AllocSpec` | fs/src/ext2/bitmap_alloc.rs:77-149 | allocation fails, changing nothing, exactly when the superblock counts no free item; otherwise exactly one item that was free becomes used |
| `Ext2Alloc.ReleaseSpec` | fs/src/ext2/bitmap_alloc.rs:104-171 | freeing a used item makes exactly that item free and keeps every invariant |
| `Ext2Alloc.ReleaseUndoesAlloc` | fs/src/ext2/bitmap_alloc.rs:77-171 | freeing what was just allocated restores the volume and the memory copies bit for bit |
| `Ext2Alloc.AllocGroup` | fs/src/ext2/bitmap_alloc.rs:77-149 | the block or inode handed out lies in the first group whose descriptor counts a free one |
| `Ext2Inode.PutInode` | fs/src/ext2/inode.rs:117-143 | a written record reads back field by field, and bytes outside its 128 stay unchanged |
| `Ext2Inode.InodesApart` | fs/src/ext2/inode.rs:82-99 | two inodes never share bytes of the table |
| `Ext2Inode.WriteInodeReadBack` | fs/src/ext2/inode.rs:82-143 | after a write the inode reads back and every other inode reads as before |
| `Ext2Inode.WriteInodeCore` | fs/src/ext2/inode.rs:117-143 | writing an inode keeps the allocator and layout invariants |
| `Ext2BlockMap.PathOfInverse` | fs/src/ext2/inode.rs:154-200 | the four index computations give a well-formed path and are inverse to the logical block number |
| `Ext2BlockMap.PathOfInjective` | fs/src/ext2/inode.rs:154-200 | distinct logical blocks are reached through distinct pointers |
| `Ext2BlockMap.EnsureIndexSpec` | fs/src/ext2/inode.rs:226-297 | the index blocks down to a path exist afterwards, fresh ones zero-filled and owned by the inode, other pointers unchanged, and exactly the missing ones were allocated |
| `Ext2BlockMap.SetBlockLaw` | fs/src/ext2/inode.rs:154-302 | block-map update law: after set_block(n, phys) get_block(n) is phys and get_block(m) is unchanged for every other m, on all four levels; exactly the missing index blocks were taken and exactly their pointers are new |
| `Ext2BlockMap.SetBlockIff` | fs/src/ext2/inode.rs:208-302 | set_block keeps its promise if and only if enough blocks are free for the missing index blocks; otherwise the map reads as before and block 0 is overwritten |
| `Ext2BlockMap.ErasedSuperblock` | fs/src/ext2/inode.rs:228-239 | after that overwrite the superblock magic is gone, except for one word position and value |
| `Ext2BlockMap.EnsureIndexFails` | fs/src/ext2/inode.rs:229-297 | with too few free blocks for the missing index blocks the walk ends at block 0, the map reads as before and no data block is touched |
| `Ext2BlockMap.MissingBound` | fs/src/ext2/inode.rs:208-302 | no logical block needs more than three index blocks |
| `Ext2BlockMap.SetBlockFails` | fs/src/ext2/inode.rs:208-302 | without room for the missing index blocks the map reads as before, no data block and no other inode changes, and block 0 holds only the pointer |
| `Ext2File.GetOrAllocSpec` | fs/src/ext2/inode_impl.rs:112-127 | the mapped block is returned as it is, or a fresh one is mapped and added to i_blocks; None exactly when it is not mapped and the volume is full |
| `Ext2File.WriteLoopSpec` | fs/src/ext2/inode_impl.rs:110-134 | the write loop puts exactly the bytes it reports into the file positions it covers and stops short only on a full volume |
| `Ext2File.WriteFileSpec` | fs/src/ext2/inode_impl.rs:99-140 | a write replaces exactly the bytes it reports, extends the file to the larger of its size and the end of the write, keeps mode and links, leaves i_blocks at the sectors of the data blocks, and leaves every other inode alone |
| `Ext2File.RoomEnough` | fs/src/ext2/inode_impl.rs:110-134 | with four free blocks for every block a write reaches, no allocation of the write fails |
| `Ext2File.WriteCompletes` | fs/src/ext2/inode_impl.rs:99-140 | under that condition the whole buffer is written |
| `Ext2File.ReadLoopSpec` | fs/src/ext2/inode_impl.rs:84-96 | the read loop returns the slice of the file's bytes |
| `Ext2File.ReadFileSpec` | fs/src/ext2/inode_impl.rs:70-97 | read returns the requested slice of the file, clipped at its size |
| `Ext2File.AllocMappedSpec` | fs/src/ext2/inode_impl.rs:117-126 | allocation of a mapped block fails exactly on a full volume; otherwise the new block holds the data, only that logical block changes, exactly the blocks it lacked were taken, and i_blocks grows by the sectors of one block |
| `Ext2File.PatchSpec` | fs/src/ext2/inode_impl.rs:129-133 | patching one block changes exactly those bytes of the file; the map and all other inodes stand |
| `Ext2File.AllocMappedFails` | fs/src/ext2/inode_impl.rs:115-127 | with a free block but not its index blocks a block is returned, and the file's map and data are as before |
| `Ext2File.IterationCharged` | fs/src/ext2/inode_impl.rs:117-126 | an iteration keeps i_blocks at the sectors of the blocks mapped so far, whether or not it maps one |
| `Ext2File.FileCharged` | fs/src/ext2/inode_impl.rs:124 | for files below 4 GiB the 32-bit count is exact |
| `Ext2Space.WriteRoomIff` | fs/src/ext2/inode_impl.rs:110-134 | no iteration of the write misses an index block if and only if the blocks reached lack no more than the free blocks before the call, or the free blocks run out exactly before one of them; a write they cover takes exactly what was lacking |
| `Ext2Space.WriteStoresIff` | fs/src/ext2/inode_impl.rs:99-140 | all the bytes a write reports are in the map if and only if that condition holds before the call; all it was given if and only if the free blocks cover every block that is lacking |
| `Ext2Space.WriteLoses` | fs/src/ext2/inode_impl.rs:110-134 | otherwise a block that is counted as written is not in the map afterwards |
| `Ext2Space.WriteTakes` | fs/src/ext2/inode_impl.rs:99-140 | a write that the free blocks cover reports every byte and lowers the free count by exactly the blocks that were lacking |
| `Ext2Space.GapsSplit` | fs/src/ext2/inode.rs:208-302 | mapping one block fills exactly the gaps on its own path and leaves those of the blocks after it |
| `Ext2Space.ThirteenthCost` | fs/src/ext2/inode.rs:226-239 | the thirteenth block of a file costs a data block and an index block |
| `Ext2Dir.PutEntry` | fs/src/ext2/dir.rs:280-296 | a record written is read back with inode, record length, name length, type byte and name, and nothing outside it changes |
| `Ext2Dir.FindInBlockSpec` | fs/src/ext2/dir.rs:61-115 | scanning a tiled block finds the first live record with the name, exactly when there is one |
| `Ext2Dir.AddInBlockSpec` | fs/src/ext2/dir.rs:185-205 | a name added to a block is its last entry, with inode and type byte, and the others stay as they were |
| `Ext2Dir.RemoveInBlockSpec` | fs/src/ext2/dir.rs:248-271 | removing a record keeps the block tiled and removes exactly the first entry with the name |
| `Ext2Dir.FreshBlockEntries` | fs/src/ext2/dir.rs:217-219 | a new directory block holds exactly the one entry |
| `Ext2Dir.AddInBlockIff` | fs/src/ext2/dir.rs:186-212 | a block takes the name if and only if the slack of its last record is large enough |
| `Ext2DirOps.LookupSpec` | fs/src/ext2/dir.rs:88-115 | lookup_in_dir returns the child of a name in the directory and None for any other name |
| `Ext2DirOps.AddEntrySpec` | fs/src/ext2/dir.rs:160-226 | adding an absent name with its inode and type byte gives exactly that name when a record has slack or the blocks suffice, with size and i_blocks of the directory grown by one block when it takes one; without either on a full volume nothing changes |
| `Ext2DirOps.RemoveEntrySpec` | fs/src/ext2/dir.rs:234-275 | remove_entry removes exactly the name and fails exactly when the name is absent |
| `Ext2DirOps.DirCharged` | fs/src/ext2/dir.rs:217-226 | i_blocks of a directory stays at the sectors of its blocks when a block is appended |
| `Ext2Room.AddScanIff` | fs/src/ext2/dir.rs:177-214 | the scan places the name if and only if some block of the directory has that slack |
| `Ext2Room.AddRoomIff` | fs/src/ext2/dir.rs:160-226 | add_entry places a name if and only if a block has slack or the free blocks cover a new block and its index blocks |
| `Ext2Room.FitsKept` | fs/src/ext2/inode_impl.rs:254-273 | allocating and writing another inode leaves the directory's room as it was before the call, less the blocks taken |
| `Ext2Room.AddEntryFails` | fs/src/ext2/dir.rs:216-226 | add_entry without that room changes no lookup in the directory, also when it had a block but not the index blocks |
| `Ext2Fs.CreateFileSpec` | fs/src/ext2/inode_impl.rs:249-275 | create_file with room adds to the tree an empty regular file with mode 0644, one link and no blocks, under its name with the type byte of a file |
| `Ext2Fs.MkdirSpec` | fs/src/ext2/inode_impl.rs:188-247 | mkdir with room adds to the tree a directory with mode 0755, two links, one block counted in i_blocks, and exactly "." and "..", under its name with the type byte of a directory |
| `Ext2Fs.WriteSpecTree` | fs/src/ext2/inode_impl.rs:99-140 | write on a file of the tree, when the free blocks before the call cover its index blocks, splices that file's bytes and leaves every other node as it was |
| `Ext2Fs.FreeBlocksSpec` | fs/src/ext2/inode_impl.rs:294-300 | afterwards exactly the data blocks of the file are free, every other block keeps its mark, the free count rose by their number, and the map was read correctly meanwhile |
| `Ext2Fs.UnlinkSpec` | fs/src/ext2/inode_impl.rs:282-307 | unlink of a regular file removes its name and the file from the tree; its inode and data blocks become free, nothing else does, and the counts rise by one and by the number of its blocks |
| `Ext2Fs.FreshDir` | fs/src/ext2/inode_impl.rs:193-233 | the inode and first block of a new directory represent exactly "." and ".." |
| `Ext2Fs.BumpFields` | fs/src/ext2/inode_impl.rs:242-244 | the step adds one to used_dirs of the group of the given inode, on the volume and in memory, and changes no other count, bitmap or descriptor |
| `Ext2Fs.BumpSpec` | fs/src/ext2/inode_impl.rs:242-244 | counting the directory leaves the tree and all invariants as they were |
| `Ext2Fs.GivenDir` | fs/src/ext2/inode_impl.rs:193-233 | a directory built from any tiled first block represents exactly the entries of that block |
| `Ext2Fs.AddedWellNamed` | fs/src/ext2/inode_impl.rs:236-275 | in the tree with the new name every record has the type byte of its target, and no file has two names |
| `Ext2Lost.CreateFileIff` | fs/src/ext2/inode_impl.rs:249-276 | create_file succeeds if and only if an inode is free; the name is found afterwards if and only if, before the call, a block of the directory had slack or the free blocks covered a new block and its index blocks; other lookups never change |
| `Ext2Lost.CreateLost` | fs/src/ext2/inode_impl.rs:249-276 | without that room the file is returned and its name is not in the directory |
| `Ext2Lost.MkdirIff` | fs/src/ext2/inode_impl.rs:188-247 | mkdir succeeds if and only if an inode and a block are free, and leaks the inode when only the block is missing; the name is found afterwards if and only if there was room besides the directory's own block |
| `Ext2Lost.MkdirLost` | fs/src/ext2/inode_impl.rs:188-247 | without that room the directory is made, success is returned, and its name is not there |
| `Ext2Lost.NoDir` | fs/src/ext2/inode_impl.rs:193-196 | mkdir without a free inode or block leaves the tree alone; an inode that was allocated stays allocated |
| `Ext2Leak.UnlinkReturnsAll` | fs/src/ext2/inode_impl.rs:282-307 | unlink returns every block of the file, data and index, if and only if the file has at most twelve blocks |
| `Ext2Runs.StepImplements` | fs/src/ext2/inode_impl.rs:99-307 | a successful call with room takes the volume to one that implements the tree after the call: contents, names and their type bytes, modes, link counts, sizes and i_blocks |
| `Ext2Runs.RunImplements` | fs/src/ext2/inode_impl.rs:99-307 | over every run of create, mkdir, write and unlink every volume implements its tree, with sizes, i_blocks, modes, links and type bytes of every node |
| `Ext2Runs.BlocksDisjoint` | fs/src/ext2/inode_impl.rs:99-307 | data and index blocks of the tree's inodes have one owner each, none is metadata, all are marked used |
| `Ext2Runs.RunBlocksDisjoint` | fs/src/ext2/inode_impl.rs:99-307 | the same for every volume of every run |
| `Ext2Runs.RunReads` | fs/src/ext2/inode_impl.rs:70-140 | after any run a read returns the slice of the bytes the tree says |
| `Ext2Runs.RunLookups` | fs/src/ext2/inode_impl.rs:167-179 | after any run a lookup returns what the tree says |
| `Ext2Runs.RemountSame` | fs/src/ext2/mod.rs:49-54 | reading superblock and descriptor table from the volume gives exactly the state held in memory |
| `Ext2UsedDirs.MkdirBumps` | fs/src/ext2/inode_impl.rs:242-244 | a successful mkdir raises used_dirs of the parent's group by one and of no other group, whatever add_entry allocated |
| `Ext2UsedDirs.FewDirs` | fs/src/ext2/bgdt.rs:24 | no group holds more directories than inodes, so the 16-bit count does not wrap |
| `Ext2UsedDirs.MkdirCounts` | fs/src/ext2/inode_impl.rs:188-247 | used_dirs, right for every group before, is right for every group after mkdir if and only if, before the call, the parent's group is the first with a free inode |
| `Ext2UsedDirs.StepCounts` | fs/src/ext2/inode_impl.rs:99-307 | over every operation of a run: create, write and unlink keep used_dirs right, mkdir exactly when the parent's group is the first with a free inode |
| `Ext2UsedDirs.RunCounts` | fs/src/ext2/inode_impl.rs:99-307 | in a run used_dirs is right throughout if and only if every mkdir met that condition |
| `Ext2UsedDirs.ChildGroup` | fs/src/ext2/inode_impl.rs:193-194 | the new directory lies in the first group with a free inode |
| `Ext2Format.FormattedCore` | fs/src/ext2/superblock.rs:44-149 | a formatted volume of two groups meets every invariant assumed of a volume, for all bitmaps that mark its metadata |
| `Ext2Format.RootImplements` | fs/src/ext2/inode_impl.rs:193-233 | that volume with a root directory made by the driver's code implements the tree with only the root |
| `Ext2Format.RootExists` | fs/src/ext2/inode_impl.rs:193-233 | such a volume exists, so runs can start |
| `Ext2Instances.SetBlockErases` | fs/src/ext2/inode.rs:226-239 | a volume without free blocks on which linking the thirteenth block of a new file stores no pointer and erases the superblock |
| `Ext2Instances.CreateLosesName` | fs/src/ext2/inode_impl.rs:249-276 | a volume and a full directory on which create_file returns a file whose name is not found |
| `Ext2Instances.MkdirLosesName` | fs/src/ext2/inode_impl.rs:188-247 | a volume with one free block on which mkdir loses the name although create_file would still place it |
| `Ext2Instances.CountGoesWrong` | fs/src/ext2/inode_impl.rs:242-244 | a volume of two groups on which the counts are right and one mkdir in the root makes them wrong |
| `Ext2Instances.WriteLosesByte` | fs/src/ext2/inode_impl.rs:110-134 | a volume with one free block and a file of twelve blocks on which a write of one byte reports the byte and does not map its block |
| `Ext2Instances.UnlinkLeaks` | fs/src/ext2/inode_impl.rs:294-300 | a volume and a file of thirteen blocks on which unlink leaves a block in use |
| `Ext2Links.MkdirLinks` | fs/src/ext2/inode_impl.rs:224-241 | after mkdir one record more leads to the parent than its link count says, and every other link count is the number of records that lead to the node |
| `Ext2Links.StepLinks` | fs/src/ext2/inode_impl.rs:99-307 | link counts that are right before a call are right after it if and only if the call is not mkdir |
| `Ext2Links.RunLinks` | fs/src/ext2/inode_impl.rs:99-307 | in a run every link count is the number of records leading to the node throughout if and only if the run makes no directory |
| `Ext2Links.LinksGoWrong` | fs/src/ext2/inode_impl.rs:224-241 | a volume on which, after mkdir in the root, three records lead to the root and its link count is two |
| `Ext2Mount.ReadTable` | fs/src/ext2/bgdt.rs:39-78 | joining the table's blocks and cutting them gives the descriptor on the volume for every group |
| `Ext2Mount.Mount` | fs/src/ext2/mod.rs:49-54 | fails exactly on a wrong magic; otherwise the new state is the one on the volume |
| `Ext2Mount.ParseSuperIs` | fs/src/ext2/superblock.rs:44-83 | the fields parsed from sectors 2 and 3 are those of bytes 1024 to 2047 of block 0 |
| `Ext2Driver.ReadSectors` | fs/src/ext2/inode.rs:45-56 | the sector loop yields the block, or zeros past the device |
| `Ext2Driver.Ext2State.WriteBlock` | fs/src/ext2/inode.rs:61-69 | the sector loop replaces exactly that block of the volume; past the device nothing changes |
| `Ext2Driver.Ext2State.WriteFreeCounts` | fs/src/ext2/superblock.rs:90-107 | patching sectors 2 and 3 is patching the counts of block 0 |
| `Ext2Driver.Ext2State.WriteEntry` | fs/src/ext2/bgdt.rs:91-127 | the volume afterwards is the one with the descriptor rewritten |
| `Ext2Driver.Ext2State.AllocItem` | fs/src/ext2/bitmap_alloc.rs:77-149 | the loop over groups leaves the volume, the memory copies and the result of the allocation function |
| `Ext2Driver.Ext2State.FreeItem` | fs/src/ext2/bitmap_alloc.rs:104-171 | leaves the state of the release function |
| `Ext2Driver.Ext2State.LoadInodeAt` | fs/src/ext2/inode.rs:82-112 | returns the inode on the volume, pointer loop included |
| `Ext2Driver.Ext2State.SaveInode` | fs/src/ext2/inode.rs:117-143 | leaves the volume with the inode rewritten |
| `Ext2Driver.PutPointers` | fs/src/ext2/inode.rs:137-140 | the loop stores all fifteen pointers |
| `Ext2Driver.Ext2State.Resolve` | fs/src/ext2/inode.rs:154-200 | the four cases of get_block return the pointer at the end of the path |
| `Ext2Driver.Ext2State.EnsureTop` | fs/src/ext2/inode.rs:229-235 | index block of a slot of i_block, as the recursive definition says |
| `Ext2Driver.Ext2State.EnsureChild` | fs/src/ext2/inode.rs:255-263 | index block below an index block, as the recursive definition says |
| `Ext2Driver.Ext2State.Assign` | fs/src/ext2/inode.rs:208-302 | the four cases of set_block leave the state and inode of the recursive definition |
| `Ext2Driver.Ext2State.Extend` | fs/src/ext2/inode_impl.rs:117-126 | the class maps a new block as the definition does, i_blocks included, whose meaning AllocMappedSpec gives |
| `Ext2Driver.Ext2State.Read` | fs/src/ext2/inode_impl.rs:70-97 | fills the front of the buffer with what the file holds there and leaves its rest and the volume unchanged |
| `Ext2Driver.Ext2State.Write` | fs/src/ext2/inode_impl.rs:99-140 | leaves the state and count of the write function proved to splice the bytes |
| `Ext2Driver.FindName` | fs/src/ext2/dir.rs:61-115 | the record loop under lookup's closure finds what the block's entries say |
| `Ext2Driver.AddRecord` | fs/src/ext2/dir.rs:186-212 | the record loop of add_entry returns the block with the last record split, or none |
| `Ext2Driver.RemoveRecord` | fs/src/ext2/dir.rs:248-271 | the record loop of remove_entry returns the block with the record merged away, or none |
| `Ext2Driver.Ext2State.LookupName` | fs/src/ext2/dir.rs:88-115 | the block loop returns the lookup of the directory |
| `Ext2Driver.Ext2State.AddName` | fs/src/ext2/dir.rs:160-226 | leaves the state of the add_entry function |
| `Ext2Driver.Ext2State.RemoveName` | fs/src/ext2/dir.rs:234-275 | leaves the state of the remove_entry function and reports whether the name was there |
| `Ext2Driver.Ext2State.CreateFileIn` | fs/src/ext2/inode_impl.rs:249-276 | leaves the state and result of the create_file function |
| `Ext2Driver.Ext2State.MkdirIn` | fs/src/ext2/inode_impl.rs:188-247 | leaves the state and result of the mkdir function |
| `Ext2Driver.Ext2State.UnlinkIn` | fs/src/ext2/inode_impl.rs:282-307 | leaves the state and result of the unlink function |
| `Ext2Driver.Ext2State.MarkItem` | fs/src/ext2/bitmap_alloc.rs:85-92 | bitmap, descriptor and superblock writes together leave the marked state |
| `Ext2Driver.Ext2State.Follow` | fs/src/ext2/inode.rs:160-198 | one level of get_block gives the pointer one step further down the path, zero included |
| `Ext2Driver.Ext2State.ReadBody` | fs/src/ext2/inode_impl.rs:84-96 | the read loop fills the buffer with the read function's bytes |
| `Ext2Driver.Ext2State.GetOrExtend` | fs/src/ext2/inode_impl.rs:115-127 | the mapped block, or a new zeroed one; with none free everything is left alone |
| `Ext2Driver.Ext2State.Patch` | fs/src/ext2/inode_impl.rs:130-132 | read, patch and write back change exactly those bytes of the block |
| `Ext2Driver.Ext2State.WriteBody` | fs/src/ext2/inode_impl.rs:110-134 | the write loop leaves the state, inode and count of the write function |
| `Ext2Driver.Ext2State.AddInSlack` | fs/src/ext2/dir.rs:180-212 | the scan inserts in the first block with slack in its last record, or changes nothing |
| `Ext2Driver.Ext2State.NewDirectory` | fs/src/ext2/inode_impl.rs:193-233 | inode and first block of a new directory, error paths included |
| `Ext2Driver.Ext2State.CountDirectory` | fs/src/ext2/inode_impl.rs:242-244 | leaves the state with the directory counted |
| `Ext2Driver.Ext2State.FreeFileBlocks` | fs/src/ext2/inode_impl.rs:294-300 | the loop leaves the state of the freeing function |
| `VirtqueueModel.PushKeeps` | drivers/src/virtqueue.rs:181-215 | after a push the free list and the chains in flight still partition the table and the new chain carries the submitted buffers |
| `VirtqueueModel.FreeKeeps` | drivers/src/virtqueue.rs:276-297 | after a free the partition holds with exactly that chain's descriptors returned |
| `VirtqueueModel.WalkIs` | drivers/src/virtqueue.rs:181-215 | a device following NEXT from a head in flight reads exactly the submitted buffers in order |
| `VirtqueueModel.WrapAgrees` | drivers/src/virtqueue.rs:217-233 | a wrapping 16-bit counter modulo the queue size equals the unbounded counter modulo the queue size |
| `VirtqueueModel.RingRoom` | drivers/src/virtqueue.rs:217-233 | neither ring ever holds more entries than descriptors in use, so no unread slot is overwritten |
| `VirtqueueModel.PushInv` | drivers/src/virtqueue.rs:181-236 | submitting keeps the whole invariant of table, rings and history |
| `VirtqueueModel.FetchInv` | drivers/src/virtqueue.rs:217-233 | the device reads the oldest unfetched head from its slot |
| `VirtqueueModel.CompleteInv` | drivers/src/virtqueue.rs:244-267 | a completion written by the device keeps the invariant |
| `VirtqueueModel.PopReads` | drivers/src/virtqueue.rs:244-262 | pop_used finds nothing exactly when every completion was popped, else the oldest unpopped one |
| `VirtqueueModel.PopInv` | drivers/src/virtqueue.rs:244-267 | popping keeps the invariant |
| `VirtqueueModel.FreeInv` | drivers/src/virtqueue.rs:276-297 | freeing a popped chain keeps the invariant |
| `VirtqueueModel.FreshInv` | drivers/src/virtqueue.rs:135-170 | a fresh queue meets the invariant with all descriptors free |
| `VirtqueueModel.RunInv` | drivers/src/virtqueue.rs:135-297 | after any run of driver and device steps: partition, chains as submitted, completions delivered once each in device order |
| `VirtqueueModel.SlotsApart` | drivers/src/virtqueue.rs:217-233 | positions less than a queue size apart have different slots |
| `VirtqueueModel.ChainsBound` | drivers/src/virtqueue.rs:181-297 | every chain in flight holds a descriptor of its own |
| `VirtqueueModel.StepInv` | drivers/src/virtqueue.rs:135-297 | every step of driver or device keeps the invariant |
| `VirtqueueDriver.Virtqueue.Allocate` | drivers/src/virtqueue.rs:135-170 | the initialised queue meets the invariant with every descriptor free |
| `VirtqueueDriver.Virtqueue.PushChain` | drivers/src/virtqueue.rs:181-236 | fails, changing nothing, exactly on an empty slice or too few free descriptors; otherwise takes a push step |
| `VirtqueueDriver.Virtqueue.FillChain` | drivers/src/virtqueue.rs:186-215 | the loop fills and links the descriptors at the front of the free list and moves free_head past them |
| `VirtqueueDriver.Virtqueue.PopUsed` | drivers/src/virtqueue.rs:244-267 | returns the next completion in device order, or None exactly when there is none |
| `VirtqueueDriver.Virtqueue.FreeChain` | drivers/src/virtqueue.rs:276-297 | takes a free step on a popped chain |
| `VirtqueueDriver.Virtqueue.ReturnChain` | drivers/src/virtqueue.rs:276-297 | the loop terminates and returns exactly the chain's descriptors |
| `VirtqueueDriver.Virtqueue.InitTable` | drivers/src/virtqueue.rs:146-156 | the loop links all descriptors into one free list |
| `VirtqueueDriver.Virtqueue.DeviceFetch` | drivers/src/virtqueue.rs:217-233 | a device reading the available ring gets the heads in the order they were pushed |
| `VirtqueueDriver.Virtqueue.DeviceComplete` | drivers/src/virtqueue.rs:244-267 | a device writing the used ring takes a completion step |
| `SectorIo.Prepare` | drivers/src/virtio.rs:445-471 | the page holds the type, the reserved word zero, the sector number, the status sentinel and, for a write, the data |
| `SectorIo.AnswerIsAtomic` | drivers/src/virtio.rs:486-509 | what a conforming device leaves, read by the driver, is the atomic effect of the request |
| `SectorIo.NextInv` | drivers/src/virtio.rs:439-585 | every step of the calls and of the device keeps the protocol invariant |
| `SectorIo.IoRun` | drivers/src/virtio.rs:439-585 | over every interleaving: when no call is under way all descriptors are free, and all returned calls behave like calls on a plain disk one at a time |
| `SectorIo.AllFree` | drivers/src/virtio.rs:495-506 | with no chain in flight every descriptor is free again |
| `SectorIo.RequestRead` | drivers/src/virtio.rs:465-473 | the chain the device walks is header, data and status of the request |
| `SectorIo.StartInv` | drivers/src/virtio.rs:401-409 | a fresh queue with no call under way meets the protocol invariant |
| `SectorDriver.VirtioBlock.Transfer` | drivers/src/virtio.rs:473-507 | for every schedule of the device a call returns if and only if the queue has fewer than three descriptors or the device fetches, answers later and is polled once more; it succeeds if and only if the queue has three and the first answer after the first fetch reports 0 for a sector of the disk; it is then atomic and leaves every descriptor free |
| `SectorDriver.VirtioBlock.ReadSector` | drivers/src/virtio.rs:439-510 | Ok if and only if the queue has three descriptors and the first answer after the first fetch reports 0 for a sector of the disk; then the buffer holds the sector's contents, otherwise the buffer is unchanged; the disk is unchanged, and the call returns exactly on the schedules that answer |
| `SectorDriver.VirtioBlock.WriteSector` | drivers/src/virtio.rs:519-585 | Ok under the same condition; then exactly that sector changed to the data, and an error leaves all other sectors unchanged; the call returns exactly on the schedules that answer |
| `SectorDriver.ServeConforms` | drivers/src/virtio.rs:519-585 | the device steps used with a schedule are those of a conforming device |
| `SectorDriver.VirtioBlock.SubmitRequest` | drivers/src/virtio.rs:452-484 | fails exactly when the queue has fewer than three descriptors; otherwise the request is in flight |
| `SectorDriver.VirtioBlock.PollOnce` | drivers/src/virtio.rs:487-492 | one turn of the polling loop ends the wait exactly when the device has answered the request |
| `SectorDriver.VirtioBlock.FinishRequest` | drivers/src/virtio.rs:494-507 | success is reported exactly when the status byte is 0, the effect on the disk is atomic, and every descriptor is free again |
| `SectorDriver.VirtioBlock.DeviceTurn` | drivers/src/virtio.rs:486-492 | between two polls the request moves from offered to the device's hands by a fetch and from there to answered by an answer, and in no other way; the answer sets the status byte to 0 exactly when it reports 0 for a sector of the disk |
| `SectorDriver.ProgressIff` | drivers/src/virtio.rs:486-492 | a request is answered after some turns of the device if and only if one of them fetches and a later one answers |
| `SectorDriver.ServedStatus` | drivers/src/virtio.rs:494-505 | the status byte a request gets is 0 if and only if the device reports 0 and the sector is on the disk, so each buffer is marked as its kind of request needs |
| `SectorDriver.AnsweredOnce` | drivers/src/virtio.rs:486-492 | the answer that completes a request is the first one after the first fetch, and there is only one |
| `FatTable.FatApart` | fs/src/fat32/mod.rs:85-90 | entries of different clusters and of different table copies do not overlap |
| `FatTable.PatchEntry` | fs/src/fat32/mod.rs:121-133 | the low 28 bits become the value, the top nibble and all other bytes stay |
| `FatTable.WriteCopiesSpec` | fs/src/fat32/mod.rs:121-133 | the copies written hold the value under their own top nibble, every other entry is unchanged |
| `FatTable.WriteCopiesOutside` | fs/src/fat32/mod.rs:121-133 | sectors outside the tables are unchanged |
| `FatForest.ChainIs` | fs/src/fat32/mod.rs:146-156 | in a table whose chains are acyclic and end-marked the walk lists exactly the chain |
| `FatForest.FirstFree` | fs/src/fat32/mod.rs:135-144 | the first free cluster, or none when none is free |
| `FatForest.AllocKeeps` | fs/src/fat32/mod.rs:135-144 | allocation adds a one-cluster chain and keeps the forest |
| `FatForest.LinkKeeps` | fs/src/fat32/mod.rs:300-304 | linking a new cluster behind a chain keeps chains in range, acyclic, end-marked and disjoint |
| `FatForest.FreeKeeps` | fs/src/fat32/mod.rs:520 | freeing a chain keeps the other chains and the forest |
| `FatForest.GrowSpec` | fs/src/fat32/mod.rs:300-304 | growing appends only clusters that were free and reaches the wanted length exactly when enough are free |
| `FatForest.StepKeeps` | fs/src/fat32/mod.rs:135-156 | each allocation, extension and unlink keeps the forest |
| `FatForest.RunForest` | fs/src/fat32/mod.rs:135-156 | after any run the chains are in range, acyclic, end-marked and disjoint, and cluster_chain lists each of them |
| `FatForest.GrowOnce` | fs/src/fat32/mod.rs:300-304 | allocating a cluster and linking it behind a chain appends it to exactly that chain |
| `FatFile.WriteEntrySpec` | fs/src/fat32/mod.rs:121-133 | all copies stay equal in their low 28 bits, each entry keeps its own top nibble, the data region is untouched |
| `FatFile.FileSecApart` | fs/src/fat32/mod.rs:85-90 | distinct sectors of a file are distinct device sectors |
| `FatFile.FileWriteLaw` | fs/src/fat32/mod.rs:294-337 | from the state before the call: if chain and free clusters suffice, all bytes are stored, the grown chain holds the spliced bytes, entry size and handle size are their length, and every other file keeps its chain and bytes |
| `FatFile.WriteFits` | fs/src/fat32/mod.rs:297-324 | every byte is stored if and only if the chain and the free clusters together suffice |
| `FatFile.SizesAgree` | fs/src/fat32/mod.rs:297-335 | entry size and handle size agree after the call if and only if chain and free clusters suffice or the file does not have to grow |
| `FatFile.DisjointChains` | fs/src/fat32/mod.rs:146-156 | two chains share no cluster |
| `FatFile.SizesDiffer` | fs/src/fat32/mod.rs:297-335 | a full table of four entries on which a one-byte append leaves 513 in the entry and 512 in the handle |
| `FatFile.StoredLaw` | fs/src/fat32/mod.rs:294-337 | whether the clusters suffice or not, the file holds its bytes spliced with those that were stored, and every other file keeps its chain and bytes |
| `FatDriver.Fat32.ReadEntry` | fs/src/fat32/mod.rs:113-119 | returns the table value of the cluster |
| `FatDriver.Fat32.PutEntry` | fs/src/fat32/mod.rs:121-133 | the loop over copies leaves the table with that one value changed in every copy |
| `FatDriver.Fat32.AllocCluster` | fs/src/fat32/mod.rs:135-144 | takes the first free cluster and end-marks it, or changes nothing when none is free |
| `FatDriver.Fat32.ClusterChain` | fs/src/fat32/mod.rs:146-156 | the loop terminates and returns the chain |
| `FatDriver.Fat32.FileRead` | fs/src/fat32/mod.rs:264-292 | the buffer receives exactly the bytes of the file that lie in the chain; its rest is unchanged |
| `FatDriver.GotIsSlice` | fs/src/fat32/mod.rs:264-292 | what was read of a file holding known bytes is the slice of them |
| `FatDriver.Fat32.WriteBody` | fs/src/fat32/mod.rs:305-324 | the cluster and sector loops put exactly the data that fits in place and change nothing else |
| `FatDriver.Fat32.GrowChain` | fs/src/fat32/mod.rs:300-304 | the loop leaves the grown table and returns the grown chain |
| `FatDriver.Fat32.FileWrite` | fs/src/fat32/mod.rs:294-337 | table grown, data in place, entry size rewritten, copies equal in their low 28 bits and top nibbles kept |
| `FatDriver.Fat32.FreeChain` | fs/src/fat32/mod.rs:520 | the loop frees exactly the chain's clusters |
| `FatDriver.Fat32.WriteSector` | fs/src/fat32/mod.rs:311-320 | one sector receives exactly the bytes of the data that fall in it |
| `FatDriver.Fat32.ReadCluster` | fs/src/fat32/mod.rs:274-289 | one cluster's sectors give the bytes of the file that fall in it |
| `FatNode.FatFileNode.Read` | fs/src/fat32/mod.rs:552-555 | the buffer receives exactly the slice of the file's bytes, clipped at its end |
| `FatNode.FatFileNode.WriteThenRead` | fs/src/fat32/mod.rs:552-562 | reading after a write that fits returns what was written |
| `FatNode.AfterWrite` | fs/src/fat32/mod.rs:294-337 | what the device holds after the call, in terms of chain, table and free clusters before it |
| `FatNode.FatFileNode.Write` | fs/src/fat32/mod.rs:556-562 | the file holds its bytes spliced with those a cluster could be had for and every other file keeps its chain and bytes, on the short path too; the sizes agree exactly when the clusters suffice or nothing has to grow |
| `FatDir.ChunkBack` | fs/src/fat32/mod.rs:178-185 | a long-name slot gives back its part of the name |
| `FatDir.LfnSlot` | fs/src/fat32/mod.rs:387-398 | the slot has its number, the last-slot flag exactly on the last chunk, and the 13 characters |
| `FatDir.LfnRoundTrip` | fs/src/fat32/mod.rs:387-417 | reading the slots written for a name gives name, attributes and cluster back, whatever was pending before |
| `FatDir.SfnRead` | fs/src/fat32/mod.rs:210-258 | the short slot after a long name yields the entry under the long name |
| `FatDir.LfnScan` | fs/src/fat32/mod.rs:210-258 | after some long-name slots the reader holds exactly the tail of the name they encode |
| `FatDir.ChecksumDetects` | fs/src/fat32/mod.rs:204-208 | names that differ in one byte have different checksums |
| `FatDir.NewSlotsFormat` | fs/src/fat32/mod.rs:388-396 | the long-name slots are numbered down to 1, the first flagged as last, and carry the checksum of the short name behind them |
| `FatNames.BuildSfn` | fs/src/fat32/mod.rs:193-202 | an 11-byte name that starts neither with the end mark nor with the deleted mark |
| `FatNames.RunFree` | fs/src/fat32/mod.rs:343-364 | a run found is of free slots and lies before the directory's end |
| `FatNames.EntriesCreated` | fs/src/fat32/mod.rs:373-417 | slots written over free ones add exactly one entry to the list |
| `FatNames.CreateLookupIff` | fs/src/fat32/mod.rs:343-433 | the created entry is found if and only if a free run existed or no end mark stands before the new cluster; other names resolve as before |
| `FatNames.CreateLost` | fs/src/fat32/mod.rs:343-371 | a family of directories in which the created file is not found |
| `FatNames.UnlinkLookup` | fs/src/fat32/mod.rs:516-531 | unlink removes exactly the entry lookup finds; the name is gone if and only if no second entry answers to it, and the directory still ends in end marks only |
| `FatNames.UnlinkUndoesCreate` | fs/src/fat32/mod.rs:373-531 | create then unlink: the name is gone, every other name resolves as before, and another create is possible |
| `FatNames.ShortIsName` | fs/src/fat32/mod.rs:193-202 | a name build_sfn accepts fits one long-name slot and is neither "." nor ".." |
| `FatNames.EntriesUnlinked` | fs/src/fat32/mod.rs:521-530 | marking an entry's slots deleted removes exactly that entry from the list, orphaned long-name slots included |
| `FatNames.GrownEntries` | fs/src/fat32/mod.rs:365-370 | a zeroed cluster adds nothing to the list of entries |
| `FatNames.NameTwice` | fs/src/fat32/mod.rs:516-531 | for every name: a directory in which the entry was created twice still answers to it after unlink |
| `FatNames.TwiceA` | fs/src/fat32/mod.rs:516-531 | such a directory, with the file "A" twice |
| `FatNames.ParsePadded` | fs/src/fat32/mod.rs:187-192 | two fields of eight and three bytes filled with blanks are read as base, dot and extension, without the dot when there is no extension |
| `FatNames.ShortBack` | fs/src/fat32/mod.rs:187-202 | reading the short name made of a name gives that name up to case, if and only if the name does not end in a dot |
| `FatNames.ShortFound` | fs/src/fat32/mod.rs:210-258 | a directory with only the short slot of a name finds the name if and only if the name does not end in a dot |
| `FatNames.ListedIff` | fs/src/fat32/mod.rs:210-258 | without long-name slots an entry is listed if and only if it is that of a live slot before the end mark: its short name, attribute, cluster and size |
| `FatNames.LookupResized` | fs/src/fat32/mod.rs:326-337 | rewriting the size field of one entry changes its size in every lookup and nothing else |
| `FatNames.ListedInOrder` | fs/src/fat32/mod.rs:210-258 | every listing is in the order of the slots |
| `FatDirDriver.ReadDirEntries` | fs/src/fat32/mod.rs:210-258 | the loops over clusters, sectors and slots compute the listing, whose meaning ListedIff, ShortBack and LfnRoundTrip give, and change nothing |
| `FatDirDriver.FindEntry` | fs/src/fat32/mod.rs:431-433 | the first listed entry with the name, case ignored; ShortFound and CreateLookupIff say which names those are |
| `FatDirDriver.FindSlots` | fs/src/fat32/mod.rs:343-364 | returns the first run of free slots of the wanted length |
| `FatDirDriver.GrowDir` | fs/src/fat32/mod.rs:365-370 | a new cluster is linked and zeroed: the directory has that many more blank slots, no other chain changes, and no data sector outside the directory |
| `FatDirDriver.WriteName` | fs/src/fat32/mod.rs:380-416 | the loop writes the long-name slots and the short slot in place; the tables and all data sectors outside the directory stay |
| `FatDirDriver.CreateDirEntry` | fs/src/fat32/mod.rs:373-417 | the directory's slots become those of the creation function on every path; every other chain and every data sector outside the directory stays |
| `FatDirDriver.DeleteSlots` | fs/src/fat32/mod.rs:521-530 | the loop ends at the short slot and marks exactly the entry's slots; the tables and all data sectors outside the directory stay |
| `FatDirDriver.ScanSector` | fs/src/fat32/mod.rs:216-256 | the slots of one sector extend the list of entries as the definition says |
| `FatDirDriver.SearchSector` | fs/src/fat32/mod.rs:354-362 | a run of free slots is counted across sector boundaries |
| `FatDirDriver.PutSlot` | fs/src/fat32/mod.rs:419-424 | replaces exactly one slot of the directory; the tables and all data sectors outside the directory stay |
| `FatDirDriver.ZeroCluster` | fs/src/fat32/mod.rs:367-369 | zeroes exactly the sectors of the cluster |
| `FatDirDriver.AdvanceIs` | fs/src/fat32/mod.rs:426-429 | advance_dir_slot goes to the next slot of the directory where sectors are consecutive |
| `FatDirDriver.Unlink` | fs/src/fat32/mod.rs:516-531 | fails, changing nothing, exactly when the name is not found; otherwise the directory's slots become those of the unlink function, exactly the file's chain is freed, and no data sector outside the directory changes |
| `FatDirDriver.OthersKept` | fs/src/fat32/mod.rs:343-531 | a call that writes only one chain leaves the bytes, and the directory slots, of every other chain |
| `FatDirDriver.WriteListed` | fs/src/fat32/mod.rs:294-337 | after file_write the directory lists the file with its new size, and every other name as before |
| `FatDirDriver.SfnChecksum` | fs/src/fat32/mod.rs:204-208 | the loop computes the rotating sum of the name |
| `Scheduler.StepPlaced` | task/src/scheduler.rs:73-326 | every step leaves each task in at most one of current, run queue, a wait list, the zombie list |
| `Scheduler.StepStates` | task/src/scheduler.rs:73-248 | every step leaves each task's state that of its place |
| `Scheduler.StepNoLost` | ipc/src/lib.rs:87-151 | every step keeps the wake-up accounting of every port |
| `Scheduler.RunGood` | ipc/src/lib.rs:87-151 | in every reachable state: one place per task, matching state, and while a receiver waits the messages do not outnumber the woken receivers |
| `Scheduler.BoundedWaiting` | task/src/scheduler.rs:216-268 | in every run a task at queue position i moves up one place with every pick and is current after exactly the (i+1)-th |
| `Scheduler.BlockIff` | task/src/lib.rs:709-730 | a blocking receive leaves every task in one place if and only if another task was runnable |
| `Scheduler.StartGood` | kernel/src/main.rs:558-565 | the boot state meets the invariant |
| `Scheduler.StepGood` | ipc/src/lib.rs:87-151 | every step keeps places, states and wake-up accounting together |
| `Scheduler.StepQueue` | task/src/scheduler.rs:73-226 | a step that picks takes the front task; every other step only appends |
| `Scheduler.BlockAlone` | task/src/lib.rs:709-730 | after one spawn and one tick from the boot state the lone task's blocking receive leaves no way to give every task one place |
| `SchedulerDriver.RunQueue.Enqueue` | task/src/scheduler.rs:73-76 | a task that was nowhere is now in the queue, last, and every other task is where it was |
| `SchedulerDriver.RunQueue.PickNextTask` | task/src/scheduler.rs:216-226 | the task at the front moves from the queue to the CPU, no other task moves, and None is returned exactly on an empty queue |
| `SchedulerDriver.RunQueue.RescheduleCurrent` | task/src/scheduler.rs:239-248 | the current task moves to the back of the queue, the boot placeholder leaves the system, and no other task moves |
| `SchedulerDriver.RunQueue.Schedule` | task/src/lib.rs:626-685 | the invariant is kept; a switch is reported exactly when a task was current and another one is now, and it is to the front of the queue |
| `SchedulerDriver.RunQueue.BlockCurrentAndSwitch` | task/src/lib.rs:709-757 | with another task runnable the current one leaves the CPU and the front task takes it, every other task stays; with none it stays current |
| `SchedulerDriver.RunQueue.ExitCurrent` | kernel/src/syscall.rs:323-353 | the current task moves to the zombie list, the front task runs, and the invariant is kept |
| `SchedulerDriver.RunQueue.FindZombieChild` | task/src/scheduler.rs:318-326 | removes the first matching zombie from the system, or none exactly when none matches, and the invariant is kept |
| `SchedulerDriver.Port.Send` | ipc/src/lib.rs:87-101 | refused exactly on a full queue; otherwise the message is last, the longest waiter moves to the run queue, and the wake-up accounting is kept |
| `SchedulerDriver.Port.Receive` | ipc/src/lib.rs:108-111 | the oldest message, None exactly when there is none, and the invariant is kept |
| `SchedulerDriver.Port.ReceiveTurn` | ipc/src/lib.rs:125-151 | one turn of the blocking loop: the oldest message if there is one, else the caller waits; the invariant is kept exactly as the step relation says unless the caller blocks alone |
| `SchedulerDriver.RunQueue.Dequeue` | task/src/scheduler.rs:88-90 | takes the front task, or None on an empty queue |
| `SchedulerDriver.RunQueue.TakeCurrent` | task/src/scheduler.rs:201-203 | the current task leaves its place and no other task moves |
| `SchedulerDriver.RunQueue.constructor` | kernel/src/main.rs:558-565 | the boot state meets the whole invariant |
| `SchedulerDriver.RunQueue.Spawn` | task/src/scheduler.rs:150-152 | a new task joins the queue and the invariant over places, states and wake-ups holds again |
| `SchedulerDriver.Port.WaitHere` | ipc/src/lib.rs:132-147 | on an empty port the caller is last on the wait list and the front task runs |
| `Slub.ClassFrom` | memory/src/slub.rs:114-116 | the smallest class at least as large as the request, or none above 1 MiB |
| `Slub.TakeCachedKeeps` | memory/src/slub.rs:133-136 | reusing a cached block keeps the tiling and makes exactly that block live |
| `Slub.TakeFreshKeeps` | memory/src/slub.rs:138-165 | a fresh block extends the tiling of the range by exactly its class size |
| `Slub.PutKeeps` | memory/src/slub.rs:178-186 | freeing under the contract moves the block to its cache and keeps the tiling |
| `Slub.LiveApart` | memory/src/slub.rs:129-186 | live blocks are disjoint, page aligned, inside the range and at least as large as asked for |
| `Slub.Covered` | memory/src/slub.rs:129-186 | every address of the range lies in a block |
| `Slub.Ordered` | memory/src/slub.rs:129-186 | distinct blocks do not overlap |
| `SlubDriver.FrameAllocator.AllocateFrame` | memory/src/heap.rs:92-105 | hands out the frames of the array in order, each once, and None exactly when none is left |
| `SlubDriver.SlubAllocator.MapPages` | memory/src/slub.rs:149-162 | succeeds exactly when the frames left cover the pages and their tables; otherwise every frame is gone and the pages before the failing one stay mapped |
| `SlubDriver.SlubAllocator.Alloc` | memory/src/slub.rs:129-166 | succeeds if and only if the size has a class and a block is cached or the frames left cover the pages and their tables; a block that was not live, page aligned, its pages mapped; a failure changes no block and leaves no frame |
| `SlubDriver.SlubAllocator.Free` | memory/src/slub.rs:178-186 | returns the block to its class cache and keeps the mappings |
| `SlubDriver.SlubAllocator.MapTo` | memory/src/slub.rs:156-160 | succeeds exactly on an unmapped page with enough frames for the page tables; says which frames are gone and what is mapped |
| `SlubDriver.SlubAllocator.TakeBlock` | memory/src/slub.rs:133-136 | takes the block freed last |
| `SlubDriver.SlubAllocator.MapBlock` | memory/src/slub.rs:138-165 | a fresh block exactly when the frames left cover it; a failure moves neither pointer nor blocks and uses up all frames |
| `SlubDriver.FindClass` | memory/src/slub.rs:114-116 | the search returns the smallest class that is large enough |
| `SlubDriver.SlubAllocator.MapPage` | memory/src/slub.rs:151-161 | one page succeeds exactly when its frame and its page tables' frames are left, which is what it takes |
| `SlubDriver.OneFrameShort` | memory/src/slub.rs:138-165 | an allocator with one frame: a request of two pages fails, leaves the first page mapped, and the request of one page after it fails too |
| `Elf.LoadElf` | loader/src/lib.rs:50-111 | of any bytes: each error exactly on its condition, a panic or a read outside the file exactly at the first header that causes it, otherwise the entry point and one segment per loadable header, readable, writable and executable by bits 2, 1 and 0 of its flags |
| `Elf.AddressSpace.MapSegment` | kernel/src/process.rs:57-110 | refused, with nothing changed, exactly when the segment's end or last byte has no address; otherwise its pages are mapped, fresh ones zeroed and given the segment's permissions, mapped ones keep theirs, and only the segment's bytes are patched |
| `Elf.AddressSpace.MapAll` | kernel/src/process.rs:187-191 | completes exactly when every segment can be mapped; then each byte is that of the last segment holding it, else what was there, else zero, and each page has the permissions of the first segment that touches it |
| `Elf.LoadImage` | loader/src/lib.rs:69-105 | for disjoint segments every byte of a loadable header is its file byte or zero, also on pages shared by segments |
| `Elf.LoadPadding` | kernel/src/process.rs:86-90 | bytes of fresh pages outside every segment are zero |
| `Elf.SegmentOf` | loader/src/lib.rs:84-104 | segment data is the file bytes followed by zeros up to the memory size, or their beginning when the memory size is smaller; read, write and execute are bits 2, 1 and 0 of the header's flags |
| `Elf.CopyInto` | kernel/src/process.rs:92-108 | the copy into one page puts exactly the segment's bytes that fall in it |
| `Elf.MappedByte` | kernel/src/process.rs:78-109 | after one segment a byte is the segment's, else what was there, else zero |
| `Elf.ReadPastEnd` | loader/src/lib.rs:63-75 | entries of length zero at the end of a file pass the check and are read behind it |
| `Elf.PermsIff` | kernel/src/process.rs:70-84 | every byte has the permissions of its own segment if and only if whoever has bytes on a page agrees with the first segment that touches it |
| `Elf.DataAfterCode` | kernel/src/process.rs:78-84 | writable data behind read-only code on one page is not writable |
| `Elf.ReadInside` | loader/src/lib.rs:60-75 | the headers are read inside the file if and only if the last one is, without wrap-around; when the check passes and entries have at least 56 bytes, if and only if the end of the table does not wrap |
| `Elf.ReadBeforeStart` | loader/src/lib.rs:60-75 | one entry of 56 bytes that ends at 2^64 passes the check and is read before the file |
| `Elf.PhBack` | loader/src/elf.rs:57-72 | a program header laid out as the ELF format says is read back with every field |
| `Elf.HeaderBack` | loader/src/elf.rs:36-55 | a file header laid out as the format says is read back: entry point and the place, entry size and number of the program headers; it is valid exactly with the ELF magic, 64-bit class and machine 0x3E |
| `Elf.TableBack` | loader/src/lib.rs:60-75 | a program header laid out at its place in the table of such a file is the one that is read |
| `Elf.LoadPerms` | kernel/src/process.rs:160-191 | when the segments that share a page agree, every byte of a loadable header is on a page with the permission bits of that header |
| `Elf.LoadProcess` | kernel/src/process.rs:160-191 | of any bytes: loaded exactly when header, table, every program header and the entry point pass; mapped exactly when every loadable header has addresses; then every byte of a header is its file byte or zero when segments are disjoint, on a page with its permission bits when sharers agree |
| `MountTable.Normalize` | vfs/src/lib.rs:101-109 | the key ends in exactly one slash |
| `MountTable.SameLengthApart` | vfs/src/lib.rs:171-179 | two mounts of equal length cover no common path |
| `MountTable.FindIsBest` | vfs/src/lib.rs:171-179 | the scan finds the longest mounted path covering the query, or nothing exactly when none covers it |
| `MountTable.OrderIrrelevant` | vfs/src/lib.rs:116-127 | resolution depends only on the set of mounts, not on order or on how the sort breaks ties |
| `MountTable.ComponentsSplit` | vfs/src/lib.rs:181-198 | a mount takes away whole components of the query |
| `MountTable.MountsCommute` | vfs/src/lib.rs:116-199 | mounting at two different points commutes anywhere in a run: every path resolves alike afterwards |
| `MountTable.UmountRestores` | vfs/src/lib.rs:116-144 | unmounting a fresh mount restores every resolution |
| `MountTable.Mounts.Mount` | vfs/src/lib.rs:116-127 | adds or replaces exactly one mount and keeps the table sorted and without duplicates |
| `MountTable.Mounts.Umount` | vfs/src/lib.rs:135-144 | removes exactly that mount, or fails exactly when it is not mounted |
| `MountTable.Mounts.LookupPath` | vfs/src/lib.rs:164-199 | the loops return the node to which the deepest covering mount and the trail of components lead, or none exactly when there is no such mount or no such trail |
| `MountTable.ResolveMeans` | vfs/src/lib.rs:164-199 | resolution walks, from the root of the longest covering mount, the components of the path behind those of the mount; WalkIff says where they lead |
| `MountTable.MountFound` | vfs/src/lib.rs:116-199 | an absolute path just mounted resolves to the mounted root, trailing slashes or not, whatever else is mounted |
| `MountTable.Mounts.Position` | vfs/src/lib.rs:138 | the position of a key, or None exactly when it is not in the table |
| `MountTable.SortedInsert` | vfs/src/lib.rs:124-126 | the pushed entry sorted into its place keeps all other entries and the length order |
| `MountTable.Mounts.Run` | vfs/src/lib.rs:116-144 | a run of mounts and unmounts leads to the mounts its history says |
| `MountTable.CoversIff` | vfs/src/lib.rs:171-179 | a mount covers a path if and only if its components start those of the path and no doubled slash comes before their end |
| `MountTable.DeepestIff` | vfs/src/lib.rs:164-199 | resolution starts at the mount with the most leading components of the path if and only if the path has no doubled slash before the end of that mount |
| `MountTable.SameComponents` | vfs/src/lib.rs:164-199 | paths without doubled slashes and with equal components resolve alike, trailing slash or not |
| `MountTable.DoubledSlash` | vfs/src/lib.rs:171-179 | with "/" and "/dev" mounted "//dev/x" is looked up below "/" |
| `MountTable.WalkIff` | vfs/src/lib.rs:184-199 | following the components reaches a node if and only if there is a trail of nodes in which each is the child of the one before by the next component |
| `MountTable.ResolveIff` | vfs/src/lib.rs:164-199 | a path resolves to a node if and only if the deepest covering mount and a trail of its components lead there, and to none if and only if no mount covers it or the trail breaks off |
| `MountTable.ComponentsBack` | vfs/src/lib.rs:184-190 | the path written from components is split into exactly these components |

## Left out

- Device set-up, PCI, interrupts, the context switch itself, the framebuffer, the keyboard, the shell and user programs.
- Virtual file system: file descriptors, pipes, `/dev` and `/proc` nodes, RAM disk files.
- ext2 directories as unlink targets: their blocks and inode are freed by the same code, but the tree has only files unlinked.
- ext2 names already present and names over 255 bytes: create and mkdir do not look for the name, and the length is stored in one byte.
- ext2 holes: writes beyond the end of the file and reads of unmapped blocks are modelled but not given a meaning.
- ext2 `readdir`, times and ownership of inodes.
- Ext2Runs.StepImplements: covers calls that succeed with room for index blocks; `Ext2Space.WriteStoresIff` and `Ext2Lost` say what happens without.
- VirtqueueDriver.Virtqueue.PushChain: slices of 65536 buffers or more, where the 16-bit length wraps, are excluded.
- VirtqueueDriver.Virtqueue.FreeChain: called with the head of a popped chain, as the block driver calls it.
- SectorDriver.VirtioBlock.Transfer: the polling loop is bounded by the length of the device schedule; an unanswered call returns None.
- FAT32 boot sector parsing and driver registration, which would only add easy members: the geometry is a parameter.
- FAT32 `mkdir` and `create_file` around `create_dir_entry`, which only allocate a cluster and fill its first two slots.
- FAT32 short names outside ASCII, lossy decoding and case folding beyond ASCII.
- FatNames.CreateLookupIff: for names `build_sfn` accepts; it rejects all others before anything is written.
- FatFile.FileWriteLaw: stated for a file and a directory with different chains, as every file's entry is.
- FatNode.FatFileNode.Write: for writes that end below 4 GiB, the largest size a FAT32 entry can hold.
- Scheduler: priorities, sleeping, the async executor and more than one CPU.
- SchedulerDriver.RunQueue.ExitCurrent: does not model closing descriptors, nor the attempt to wake a waiting parent, which looks only at the current task and the run queue.
- Elf: the frame taken and dropped for a page already mapped, out-of-memory, the user stack mapped after the segments, and panics inside the page-range iterator of the x86_64 crate.
- SlubDriver.SlubAllocator.Alloc: page table entries are a map from pages to frames; flags and flushing are not modelled.
- Bootloader memory map, heap and kernel stacks.
