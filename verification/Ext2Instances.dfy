/** Concrete volumes on which the ext2 driver does less than its callers may expect. */
module Ext2Instances {
  import opened Arith
  import opened Bytes
  import opened Bitmap
  import opened Ext2Layout
  import opened Ext2Alloc
  import opened Ext2Inode
  import opened Ext2BlockMap
  import opened Ext2File
  import opened Ext2Dir
  import opened Ext2DirOps
  import opened Ext2Room
  import opened Ext2Space
  import opened Ext2Fs
  import opened Ext2Leak
  import opened Ext2Lost
  import opened Ext2UsedDirs
  import opened Ext2Format

  // ---------------------------------------------------------------- set_block on a full volume

  /** set_block for a block that needs an index block, on a volume without free blocks: the pointer is not stored, and
      block 0 is no superblock any more. */
  ghost predicate Erases(fs: Fs, n: Inode, blk: nat, phys: u32)
    requires Volume(fs) && blk < MaxBlocks(fs.sb.Ptrs())
  {
    var (r, n2) := SetBlock(fs, n, blk, phys);
    && !IndexRoom(fs, n, blk) && DiskShape(r.disk, 4 * fs.sb.Ptrs())
       && GetBlock(r.disk, fs.sb.Ptrs(), n2.block, blk).None?
    && |r.disk| > 0 && |r.disk[0]| >= 2048 && SuperAt(r.disk[0]).None?
  }

  lemma ErasesOn(fs: Fs, own: Ownership, n: Inode, blk: nat, phys: u32)
    requires Volume(fs) && Core(fs, own) && n == NewFile(3) && blk == 12 && phys == 5 && fs.sb.Ptrs() == 512
             && fs.sb.freeBlocks == 0
    requires phys as int !in own && InRange(Blocks, fs.sb, phys as int) && Used(fs, Blocks, phys as int)
    ensures blk < MaxBlocks(fs.sb.Ptrs()) && Erases(fs, n, blk, phys)
  {
    hide Core, Used, Superblock.Valid, Superblock.Ptrs, SetBlock, IndexRoom, GetBlock, SuperAt, PathOf, IsPath, Zeros,
         PutU32, TreeOk, MaxBlocks, InRange;
    EmptyTree(fs.disk, 512, own, 3);
    NoIndex(fs, n, blk);
    SetBlockIff(fs, own, n, blk, phys);
    NotMapped(fs, n, blk);
    ErasedSuperblock(512, 0, phys);
  }

  /** Such a volume exists: all blocks in use, a new file, its thirteenth block. */
  lemma SetBlockErases() returns (fs: Fs, own: Ownership, n: Inode, blk: nat, phys: u32)
    ensures Volume(fs) && Core(fs, own) && fs.sb.freeBlocks == 0 && blk < MaxBlocks(fs.sb.Ptrs())
            && Erases(fs, n, blk, phys)
  {
    hide Formatted, Core, Used, Superblock.Valid, Superblock.BlockSize, Superblock.NumGroups, Superblock.Ptrs,
         TableBlocks, DescBlock, DescOffset, Plain, FreeOf, Good, Erases, MaxBlocks, InRange, Volume, RootFree;
    var m := Plain(16, 16, 16);
    PlainCounts(16, 16, 16);
    fs, own, n, blk, phys := Formatted(m, 0), Roles, NewFile(3), 12, 5;
    FormattedCore(m, 0);
    FormattedParts(m, 0);
    Sizes(fs.sb);
    FiveUsed(m, 16, 16);
    ErasesOn(fs, own, n, blk, phys);
  }

  /** Block 5 is marked used, though nothing owns it. */
  lemma FiveUsed(m: Maps, lo: nat, ino: nat)
    requires lo == 16 && ino == 16 && m == Plain(lo, lo, ino)
    ensures Good(m) && Used(Formatted(m, 0), Blocks, 5) && InRange(Blocks, Formatted(m, 0).sb, 5)
  {
    hide Formatted, Used, Zeroed, FreeOf, Bit, Good;
    FormattedParts(m, 0);
    BlockBit(m, 0, 5);
    assert Bit(Zeroed(lo, 16), 5);
  }

  /** Logical block 12 is reached through slot 12, which is empty. */
  lemma NoIndex(fs: Fs, n: Inode, blk: nat)
    requires Volume(fs) && n == NewFile(3) && blk == 12 && fs.sb.Ptrs() == 512 && fs.sb.freeBlocks == 0
    ensures blk < MaxBlocks(512) && PathOf(512, blk) == [12, 0] && !IndexRoom(fs, n, blk)
  {
    hide Superblock.Valid, Superblock.Ptrs, Mul;
    assert PathOf(512, blk) == [12, 0];
    assert Parent([12, 0]) == [12];
  }

  // ---------------------------------------------------------------- a directory without slack

  /** A block of eight unused records whose names fill them. */
  function FullBlock(): (r: Buf)
    ensures |r| == 2048
    ensures forall i :: 0 <= i < 2048 ==> r[i] == if i % 256 == 5 then 1 else if i % 256 == 6 then 248 else 0
  {
    seq(2048, i => if i % 256 == 5 then 1 else if i % 256 == 6 then 248 else 0)
  }

  lemma {:induction false} FullTiled(j: nat)
    requires j <= 8
    ensures Tiled(FullBlock(), 256 * j) && Entries(FullBlock(), 256 * j) == []
    ensures j < 8 ==> LastSlack(FullBlock(), 256 * j) == 0
    decreases 8 - j
  {
    hide FullBlock, RecIno, RecLen, NameLen, RecName;
    if j < 8 {
      FullRecord(j);
      FullTiled(j + 1);
    }
  }

  lemma FullRecord(j: nat)
    requires j < 8
    ensures var b, o := FullBlock(), 256 * j; RecIno(b, o) == 0 && RecLen(b, o) == 256 && NameLen(b, o) == 248
  {
    hide FullBlock;
    var b, o := FullBlock(), 256 * j;
    assert (o + 4) % 256 == 4 && (o + 5) % 256 == 5 && (o + 6) % 256 == 6;
    assert o % 256 == 0 && (o + 1) % 256 == 1 && (o + 2) % 256 == 2 && (o + 3) % 256 == 3;
  }

  /** A volume whose root directory, inode 2, has one full block and no names, with `free` free blocks left. */
  lemma FullRoot(free: nat) returns (fs: Fs, own: Ownership)
    requires free <= 2
    ensures Volume(fs) && Implements(fs, own, map[2 := Dir(map[])]) && fs.sb.freeBlocks as int == free
            && fs.sb.freeInodes > 0
    ensures CanAdd(fs, 2, map[2 := Dir(map[])], [65]) && IsIno(fs.sb, 2)
    ensures !SlackFrom(fs, ReadInode(fs, 2), 1, 0)
            && IndexMissing(fs, ReadInode(fs, 2), DirBlocks(fs, ReadInode(fs, 2))) == 0
  {
    hide Formatted, Core, Used, Superblock.Valid, Superblock.BlockSize, Superblock.NumGroups, Superblock.Ptrs,
         TableBlocks, DescBlock, DescOffset, Plain, FreeOf, Good, FullBlock, Alloc, PlacedDir, NodeOk, OthersKept,
         OneBlockDir, Tiled, Entries, LastSlack, RootFree, Represents, Bit, DiskShape, CanAdd, SlackFrom,
         IndexMissing, ReadInode;
    var m := Plain(15 - free, 16, 16);
    PlainCounts(15 - free, 16, 16);
    var start := Formatted(m, 1);
    FormattedCore(m, 1);
    FormattedParts(m, 1);
    Sizes(start.sb);
    FirstInode(m, 1);
    FullSlack();
    NoNames();
    own := GivenDir(start, Roles, FullBlock(), map[]);
    PlacedCounts(start, Roles, FullBlock());
    fs := PlacedDir(start, FullBlock());
    OnlyRoot(fs, own, map[]);
    Sizes(fs.sb);
    FullFacts(fs);
  }

  lemma NoNames()
    ensures Represents([], map[])
  {
  }

  lemma FullFacts(fs: Fs)
    requires Volume(fs) && OneBlockDir(fs, 2, FullBlock()) && fs.sb.Ptrs() == 512
    ensures CanAdd(fs, 2, map[2 := Dir(map[])], [65]) && IsIno(fs.sb, 2)
    ensures !SlackFrom(fs, ReadInode(fs, 2), 1, 0)
            && IndexMissing(fs, ReadInode(fs, 2), DirBlocks(fs, ReadInode(fs, 2))) == 0
  {
    hide Superblock.Valid, DiskShape, Superblock.Ptrs, ReadInode, BlockAt, DirBlocks, MaxBlocks, FullBlock, Tiled,
         LastSlack, BlockSlack, Mul, IsIno, Missing, PathOf, SlackFrom, IndexMissing;
    TwoBlocks(4 * fs.sb.Ptrs());
    NoSlack(fs, ReadInode(fs, 2));
    NoIndexNeeded(fs, ReadInode(fs, 2));
  }

  lemma NoSlack(fs: Fs, n: Inode)
    requires Volume(fs) && DirBlocks(fs, n) == 1 && 0 < MaxBlocks(fs.sb.Ptrs())
             && BlockAt(fs.disk, fs.sb.Ptrs(), n.block, 0) == FullBlock()
    ensures !SlackFrom(fs, n, 1, 0)
  {
    hide Volume, Superblock.Ptrs, BlockAt, DirBlocks, MaxBlocks, FullBlock, BlockSlack;
    FullTakes(1);
  }

  lemma FullTakes(len: nat)
    ensures !BlockSlack(FullBlock(), len)
  {
    hide FullBlock, Tiled, LastSlack, Entries;
    FullSlack();
  }

  lemma FullSlack()
    ensures Tiled(FullBlock(), 0) && Entries(FullBlock(), 0) == [] && LastSlack(FullBlock(), 0) == 0
  {
    hide FullBlock, Tiled, LastSlack, Entries;
    FullTiled(0);
  }

  lemma NoIndexNeeded(fs: Fs, n: Inode)
    requires Volume(fs) && DirBlocks(fs, n) == 1
    ensures IndexMissing(fs, n, DirBlocks(fs, n)) == 0
  {
    hide Superblock.Valid, DirBlocks, MaxBlocks, PathOf, Missing;
    DirectPath(fs.sb.Ptrs(), DirBlocks(fs, n));
  }

  lemma TwoBlocks(n: nat)
    ensures Mul(2, n) == n + n
  {
    MulAdd(1, 1, n);
    MulOne(n);
  }

  lemma DirectPath(p: nat, n: nat)
    requires n < 12 && p > 0
    ensures n < MaxBlocks(p) && PathOf(p, n) == [n]
  {
    hide Mul;
  }

  /** A full directory on a full volume: create_file returns a file, and its name is not there. */
  lemma CreateLosesName() returns (fs: Fs, own: Ownership)
    ensures Volume(fs) && IsIno(fs.sb, 2) && Implements(fs, own, map[2 := Dir(map[])]) && fs.sb.freeBlocks == 0
    ensures CreateFile(fs, 2, [65]).1.Some? && Volume(CreateFile(fs, 2, [65]).0)
            && Named(fs, CreateFile(fs, 2, [65]).0, 2, [65], false)
  {
    hide Volume, Implements, CanAdd, SlackFrom, IndexMissing, ReadInode, IsIno, CreateFile, Named, DirBlocks;
    fs, own := FullRoot(0);
    var own2 := CreateFileIff(fs, own, map[2 := Dir(map[])], 2, [65]);
  }

  /** With one free block mkdir takes it for the directory itself and loses the name that create_file would
      still place. */
  lemma MkdirLosesName() returns (fs: Fs, own: Ownership)
    ensures Volume(fs) && IsIno(fs.sb, 2) && Implements(fs, own, map[2 := Dir(map[])]) && fs.sb.freeBlocks == 1
            && CreateRoom(fs, 2, [65])
    ensures Mkdir(fs, 2, [65]).1.Some? && Volume(Mkdir(fs, 2, [65]).0)
            && Named(fs, Mkdir(fs, 2, [65]).0, 2, [65], false)
  {
    hide Volume, Implements, CanAdd, SlackFrom, IndexMissing, ReadInode, IsIno, Mkdir, Named, DirBlocks;
    fs, own := FullRoot(1);
    var own2 := MkdirIff(fs, own, map[2 := Dir(map[])], 2, [65]);
  }

  // ---------------------------------------------------------------- used_dirs across groups

  function RootNames(): map<Buf, Link> { DotNames(2, 2) }

  function RootTree(): Tree { map[2 := Dir(RootNames())] }

  lemma InodeBit(m: Maps, dirs: u16, j: nat)
    requires Good(m) && 1 <= j <= 32
    ensures Used(Formatted(m, dirs), Inodes, j) == Bit(m.Of(Inodes, (j - 1) / 16), (j - 1) % 16)
  {
    hide Bit, Formatted, BitUsed;
    NativeDivMod(j - 1, 16);
    FormattedParts(m, dirs);
    MapAt(m, dirs, Inodes, (j - 1) / 16, (j - 1) % 16);
  }

  /** The bitmaps of a volume whose first group has one free inode, the second. */
  lemma Tight() returns (m: Maps)
    ensures Good(m) && RootFree(m) && forall i :: 0 <= i < 16 && i != 1 ==> Bit(m.inodes0, i)
    ensures FreeOf(m, Blocks, 0) == 11 && FreeOf(m, Blocks, 1) == 13 && FreeOf(m, Inodes, 0) == 1
            && FreeOf(m, Inodes, 1) == 16
  {
    hide Plain, FreeOf, Good, Bit, RootFree;
    PlainCounts(5, 3, 2);
    m := Plain(5, 3, 2);
    PlainInodes(m, 5, 3, 2);
  }

  lemma PlainInodes(m: Maps, lo: nat, next: nat, ino: nat)
    requires 5 <= lo <= 16 && 3 <= next <= 16 && 2 <= ino <= 16 && m == Plain(lo, next, ino)
    ensures |m.inodes0| == 2048 && forall i :: 0 <= i < 16 && !(1 <= i < ino) ==> Bit(m.inodes0, i)
  {
    hide Zeroed, Bit, Good;
  }

  /** The root directory in the last free inode of the first group; its count of directories is right. */
  lemma TightRoot() returns (fs: Fs, own: Ownership)
    ensures Volume(fs) && Implements(fs, own, RootTree()) && fs.sb.freeBlocks == 23 && fs.sb.freeInodes > 0
            && IsIno(fs.sb, 2)
    ensures fs.sb == Superblock(32, 32, fs.sb.freeBlocks, fs.sb.freeInodes, 0, 1, 16, 16, 128, 11)
    ensures DirBlocks(fs, ReadInode(fs, 2)) == 1
    ensures forall j :: 1 <= j <= 16 ==> Used(fs, Inodes, j)
    ensures |fs.bgdt| == 2 && fs.bgdt[0].usedDirs == 1 && fs.bgdt[1].usedDirs == 0
  {
    hide Formatted, Core, Used, Superblock.Valid, Superblock.BlockSize, Superblock.NumGroups, Superblock.Ptrs,
         TableBlocks, DescBlock, DescOffset, Plain, FreeOf, Good, Alloc, PlacedDir, OthersKept, OneBlockDir, Tiled,
         Entries, FirstDirBlock, RootFree, Represents, DirOk, SameDirs, Bit, DiskShape;
    var m := Tight();
    var start := Formatted(m, 1);
    FormattedCore(m, 1);
    FormattedParts(m, 1);
    Sizes(start.sb);
    FirstInode(m, 1);
    var data := FirstDirBlock(2048, 2, 2);
    FirstDirBlockEntries(2048, 2, 2);
    FirstNames(2, 2);
    own := GivenDir(start, Roles, data, RootNames());
    PlacedCounts(start, Roles, data);
    PlacedDirs(start, data);
    fs := PlacedDir(start, data);
    OnlyRoot(fs, own, RootNames());
    OneBlockFacts(fs, data);
    SameCounts(start, fs);
    forall j | 1 <= j <= 16 ensures Used(fs, Inodes, j) {
      InodeBit(m, 1, j);
      OtherInode(start, fs, own, j);
    }
  }

  lemma OneBlockFacts(fs: Fs, data: Buf)
    requires Volume(fs) && OneBlockDir(fs, 2, data)
    ensures IsIno(fs.sb, 2) && DirBlocks(fs, ReadInode(fs, 2)) == 1
  {
    hide Superblock.Valid, ReadInode, DirBlocks, BlockAt, IsIno;
  }

  lemma SameCounts(fs: Fs, r: Fs)
    requires SameDirs(fs, r) && |fs.bgdt| == 2 && fs.bgdt[0].usedDirs == 1 && fs.bgdt[1].usedDirs == 0
    ensures |r.bgdt| == 2 && r.bgdt[0].usedDirs == 1 && r.bgdt[1].usedDirs == 0
  {
  }

  lemma SmallIno(sb: Superblock, j: nat)
    requires sb == Superblock(32, 32, sb.freeBlocks, sb.freeInodes, 0, 1, 16, 16, 128, 11) && 1 <= j <= 16
    ensures IsIno(sb, j)
  {
    hide Superblock.NumGroups;
    Sizes(sb);
    NativeMul(2, 16);
  }

  lemma OtherInode(fs: Fs, r: Fs, own: Ownership, j: nat)
    requires Volume(fs) && Volume(r) && SameGeometry(fs.sb, r.sb) && OthersKept(fs, r, Roles, own, 2) && 1 <= j <= 16
    requires fs.sb == Superblock(32, 32, fs.sb.freeBlocks, fs.sb.freeInodes, 0, 1, 16, 16, 128, 11)
    requires j != 2 ==> Used(fs, Inodes, j)
    requires NodeOk(r, own, 2, Dir(RootNames()))
    ensures Used(r, Inodes, j)
  {
    hide Superblock.Valid, Used, ReadInode, DirOk;
    SmallIno(fs.sb, j);
    SameIno(fs.sb, r.sb, j);
  }

  ghost predicate Miscounted(t: Tree, dir: u32, name: Buf, r: Fs, o: Option<u32>)
    requires dir as int in t && t[dir as int].Dir?
  {
    && o.Some? && Volume(r)
    && !DirsCounted(r,
       Added(t, dir as int, name, o.value as int, Dir(DotNames(o.value as int, dir as int))))
  }

  /** mkdir in that root: the new directory lies in the second group and is counted in the first, and the counts that
      were right are wrong. */
  lemma CountGoesWrong() returns (fs: Fs, own: Ownership)
    ensures Volume(fs) && Implements(fs, own, RootTree()) && DirsCounted(fs, RootTree())
    ensures Miscounted(RootTree(), 2, [65], Mkdir(fs, 2, [65]).0, Mkdir(fs, 2, [65]).1)
  {
    hide Superblock.Valid, Implements, Core, Used, Mkdir, DirsCounted, GroupOf, Mul, DirBlocks, ReadInode, NameFits,
         CanAdd, IsIno, DirsOf, FirstOpen;
    fs, own := TightRoot();
    CountedAtFirst(fs);
    RoomAtFirst(fs);
    var own2 := MkdirCounts(fs, own, RootTree(), 2, [65]);
    ChildFar(fs, own);
    ImplementsCore(fs, own, RootTree());
    ChildGroup(fs, own, 2, [65]);
    OneFirst(fs, GroupOf(Inodes, fs.sb, Mkdir(fs, 2, [65]).1.value as int), GroupOf(Inodes, fs.sb, 2));
  }

  lemma ImplementsCore(fs: Fs, own: Ownership, t: Tree)
    requires Implements(fs, own, t)
    ensures Core(fs, own)
  {
  }

  lemma CountedAtFirst(fs: Fs)
    requires Volume(fs) && |fs.bgdt| == 2 && fs.bgdt[0].usedDirs == 1 && fs.bgdt[1].usedDirs == 0
             && fs.sb.inodesPerGroup == 16
    ensures DirsCounted(fs, RootTree())
  {
    hide Volume;
    RootGroup(fs.sb);
    assert DirsOf(RootTree(), fs.sb, 0) == {2} && DirsOf(RootTree(), fs.sb, 1) == {};
  }

  lemma RootGroup(sb: Superblock)
    requires sb.inodesPerGroup == 16
    ensures GroupOf(Inodes, sb, 2) == 0
  {
  }

  lemma RoomAtFirst(fs: Fs)
    requires Volume(fs) && IsIno(fs.sb, 2) && DirBlocks(fs, ReadInode(fs, 2)) == 1 && fs.sb.freeBlocks == 23
    requires fs.sb == Superblock(32, 32, fs.sb.freeBlocks, fs.sb.freeInodes, 0, 1, 16, 16, 128, 11)
    ensures CanAdd(fs, 2, RootTree(), [65]) && MkdirRoom(fs, 2, [65])
  {
    hide Superblock.Valid, ReadInode, DirBlocks, IsIno, Mul, SlackFrom, IndexMissing, Superblock.Ptrs,
         Superblock.BlockSize, Superblock.NumGroups, TableBlocks, DescBlock, DescOffset, DiskShape;
    Sizes(fs.sb);
    TwoBlocks(4 * fs.sb.Ptrs());
    NoIndexNeeded(fs, ReadInode(fs, 2));
    NotDots();
  }

  lemma NotDots()
    ensures [65] !in RootNames()
  {
  }

  /** The inode mkdir takes is in the second group: those of the first are all in use. */
  lemma ChildFar(fs: Fs, own: Ownership)
    requires Volume(fs) && Implements(fs, own, RootTree()) && fs.sb.freeBlocks == 23 && fs.sb.freeInodes > 0
    requires fs.sb == Superblock(32, 32, fs.sb.freeBlocks, fs.sb.freeInodes, 0, 1, 16, 16, 128, 11)
    requires forall j :: 1 <= j <= 16 ==> Used(fs, Inodes, j)
    ensures var o := Mkdir(fs, 2, [65]).1;
            o.Some? && o.value > 16 && GroupOf(Inodes, fs.sb, o.value as int) > 0 == GroupOf(Inodes, fs.sb, 2)
  {
    hide Superblock.Valid, Core, Used, Alloc, MakeDir, NodesOk, OthersKept, NodeOk, GroupOf, BumpDirs, AddEntry,
         LoadInode;
    CoreCanAlloc(Inodes, fs, own);
    var own2 := FreshDir(fs, own, 2);
    var o := MakeDir(fs, 2).1;
    FarGroup(fs.sb, o.value as int);
    RootGroup(fs.sb);
  }

  lemma FarGroup(sb: Superblock, i: nat)
    requires sb.inodesPerGroup == 16 && i > 16
    ensures GroupOf(Inodes, sb, i) > 0
  {
    NativeDivMod(i - 1, 16);
  }

  // ---------------------------------------------------------------- a file of twelve blocks and the next block

  /** The file is inode 2; directory `dir` calls it "A". */
  ghost function FileTree(dir: nat, bytes: Buf): Tree { map[2 := File(bytes), dir := Dir(map[[65] := Link(2, 1)])] }

  /** A volume with an empty file and `free` free blocks. */
  lemma EmptyFile(free: nat) returns (fs: Fs, own: Ownership, dir: nat)
    requires 10 <= free <= 23
    ensures dir != 2 && Implements(fs, own, FileTree(dir, [])) && IsIno(fs.sb, 2)
    ensures ReadInode(fs, 2) == NewFile(2) && fs.sb.freeBlocks as int == free && fs.sb.BlockSize() == 2048
  {
    hide Formatted, Core, Used, Superblock.Valid, Superblock.BlockSize, Superblock.NumGroups, Superblock.Ptrs,
         TableBlocks, DescBlock, DescOffset, Plain, FreeOf, Good, Alloc, PlacedDir, OthersKept, OneBlockDir, Tiled,
         Entries, RootFree, Represents, NodeOk, Bit, DiskShape, ReadInode, StoreInode, IsIno, PutEntry;
    var m := Plain(5, 26 - free, 16);
    PlainCounts(5, 26 - free, 16);
    var start := Formatted(m, 0);
    FormattedCore(m, 0);
    FormattedParts(m, 0);
    Sizes(start.sb);
    FirstInode(m, 0);
    var fs1 := FirstFile(start, Roles);
    var data := PutEntry(Zeros(2048), 0, 2, 2048, FtReg, [65]);
    FreshBlockEntries(2048, [65], 2, FtReg);
    OneName();
    Sizes(fs1.sb);
    CoreCanAlloc(Inodes, fs1, Roles);
    own := GivenDir(fs1, Roles, data, map[[65] := Link(2, 1)]);
    PlacedCounts(fs1, Roles, data);
    fs, dir := PlacedDir(fs1, data), Alloc(Inodes, fs1).1.value;
    Sizes(fs.sb);
    FileAndDir(fs1, fs, own, dir);
  }

  lemma OneName()
    ensures Represents([Entry([65], Link(2, 1))], map[[65] := Link(2, 1)])
  {
  }

  /** create_file up to the name. */
  lemma FirstFile(fs: Fs, own: Ownership) returns (r: Fs)
    requires Volume(fs) && Core(fs, own) && Alloc(Inodes, fs).1 == Some(2) && fs.sb.freeInodes > 1
    ensures Volume(r) && Core(r, own) && SameGeometry(fs.sb, r.sb) && IsIno(r.sb, 2)
    ensures ReadInode(r, 2) == NewFile(2) && NodeOk(r, own, 2, File([]))
    ensures r.sb.freeBlocks == fs.sb.freeBlocks && r.sb.freeInodes as int == fs.sb.freeInodes as int - 1
  {
    hide Superblock.Valid, Alloc, ReadInode, Used, OthersKept, Counted, Padded, Synced, OwnUsed, Layout, Moved,
         FileOk;
    AllocatedInode(fs, own);
    var (fs1, o) := Alloc(Inodes, fs);
    FreshInode(fs, own, NewFile(2));
    r := StoreInode(fs1, NewFile(2));
    SameIno(fs.sb, r.sb, 2);
    NewFileOk(r, own, 2);
    FreeBlocksSame(fs, fs1, own, 2);
    OneInode(fs, fs1, own, 2);
    SameSuper(fs1, NewFile(2));
  }

  lemma FileAndDir(fs1: Fs, fs: Fs, own: Ownership, dir: nat)
    requires Volume(fs1) && Volume(fs) && SameGeometry(fs1.sb, fs.sb) && OthersKept(fs1, fs, Roles, own, dir)
    requires NodeOk(fs1, Roles, 2, File([])) && !Used(fs1, Inodes, dir) && ReadInode(fs1, 2) == NewFile(2)
    requires Core(fs, own) && NodeOk(fs, own, dir, Dir(map[[65] := Link(2, 1)]))
    ensures dir != 2 && Implements(fs, own, FileTree(dir, [])) && IsIno(fs.sb, 2) && ReadInode(fs, 2) == NewFile(2)
  {
    hide Superblock.Valid, Core, Used, ReadInode, FileOk, DirOk, WellNamed, DiskShape;
    NodeKept(fs1, fs, Roles, own, dir, 2, File([]));
    SameIno(fs1.sb, fs.sb, 2);
    OneFileNamed(dir);
  }

  lemma OneFileNamed(dir: nat)
    requires dir != 2
    ensures WellNamed(FileTree(dir, []))
  {
  }

  lemma Bounds(n: nat, size: nat)
    requires n <= 13 && 2048 * n <= size + 2047 < 2048 * n + 2048
    ensures CeilDiv(size, 2048) == n && Div(2048 * n, 2048) == n
  {
    hide Mul, Div;
    NativeMul(n, 2048);
    CeilOf(size, 2048, n);
    MulCommutes(n, 2048);
    DivModOf(n, 2048, 0);
  }

  /** One write that the free blocks cover: the file grows by it. */
  lemma Grown(fs: Fs, own: Ownership, dir: nat, bytes: Buf, buf: Buf, n: nat, cost: nat)
      returns (r: Fs, own2: Ownership)
    requires dir != 2 && Implements(fs, own, FileTree(dir, bytes)) && IsIno(fs.sb, 2) && fs.sb.BlockSize() == 2048
    requires |bytes| == 2048 * n && n <= 12 && 0 < |buf| && |bytes| + |buf| <= 24577
    requires cost == Cost(fs, ReadInode(fs, 2), n, CeilDiv(|bytes| + |buf|, 2048)) <= fs.sb.freeBlocks as int
    ensures Implements(r, own2, FileTree(dir, bytes + buf)) && IsIno(r.sb, 2) && r.sb.BlockSize() == 2048
    ensures r.sb.freeBlocks as int == fs.sb.freeBlocks as int - cost
  {
    hide Superblock.Valid, Core, NodesOk, WellNamed, FileOk, DirOk, ReadInode, WriteFile, RoomFor, MaxBytes, Cost,
         IsIno, Superblock.BlockSize, Superblock.Ptrs, CeilDiv, Div;
    var t := FileTree(dir, bytes);
    Bounds(n, |bytes|);
    VolumeBig(fs);
    FileNode(fs, own, t);
    WriteTakes(fs, own, 2, bytes, |bytes|, buf);
    own2 := WriteSpecTree(fs, own, t, 2, |bytes|, buf);
    var (r1, done) := WriteFile(fs, 2, |bytes|, buf);
    r := r1;
    Appended(t, dir, bytes, buf);
    SameSizes(fs, buf, |bytes|);
  }

  lemma FileNode(fs: Fs, own: Ownership, t: Tree)
    requires Implements(fs, own, t) && 2 in t && t[2].File?
    ensures Volume(fs) && Core(fs, own) && IsIno(fs.sb, 2) && FileOk(fs, own, 2, t[2].bytes)
  {
    hide Superblock.Valid, Core, WellNamed, FileOk, DirOk, Used;
    assert NodeOk(fs, own, 2, t[2]);
  }

  lemma Appended(t: Tree, dir: nat, bytes: Buf, buf: Buf)
    requires dir != 2 && t == FileTree(dir, bytes)
    ensures t[2 := t[2].(bytes := Overwrite(bytes, |bytes|, buf[..|buf|]))] == FileTree(dir, bytes + buf)
  {
    assert buf[..|buf|] == buf;
    assert Overwrite(bytes, |bytes|, buf) == bytes + buf;
  }

  lemma SameSizes(fs: Fs, buf: Buf, offset: nat)
    requires Volume(fs) && IsIno(fs.sb, 2) && offset + |buf| <= MaxBytes(fs.sb.Ptrs())
    ensures var r := WriteFile(fs, 2, offset, buf).0;
            Volume(r) && IsIno(r.sb, 2) && r.sb.BlockSize() == fs.sb.BlockSize()
  {
    hide WriteLoop, MaxBytes, ReadInode, IsIno, Superblock.Valid;
    WriteGeometry(fs, 2, offset, buf);
    var r := WriteFile(fs, 2, offset, buf).0;
    VolumeFacts(r);
    SameIno(fs.sb, r.sb, 2);
  }

  /** A file that fills its twelve direct blocks, and `free` free blocks. */
  lemma TwelveBlocks(free: nat) returns (fs: Fs, own: Ownership, dir: nat)
    requires free <= 8
    ensures dir != 2 && Implements(fs, own, FileTree(dir, Zeros(24576))) && IsIno(fs.sb, 2)
    ensures fs.sb.BlockSize() == 2048 && fs.sb.freeBlocks as int == free && ReadInode(fs, 2).block[12] == 0
  {
    hide Implements, ReadInode, IsIno, Superblock.BlockSize, Cost, CeilDiv, Div, Zeros;
    var fs0, own0, d := EmptyFile(12 + free);
    FileNode(fs0, own0, FileTree(d, []));
    DirectCost(fs0, ReadInode(fs0, 2));
    Bounds(12, 24576);
    dir := d;
    var none: Buf := [];
    fs, own := Grown(fs0, own0, d, none, Zeros(24576), 0, 12);
    assert none + Zeros(24576) == Zeros(24576);
    NoIndexYet(fs, own, d);
  }

  lemma NoIndexYet(fs: Fs, own: Ownership, dir: nat)
    requires dir != 2 && Implements(fs, own, FileTree(dir, Zeros(24576))) && IsIno(fs.sb, 2)
             && fs.sb.BlockSize() == 2048
    ensures ReadInode(fs, 2).block[12] == 0
  {
    hide Superblock.Valid, Core, WellNamed, DirOk, ReadInode, IsIno, TreeOk, MappedTo, HasBytes, Used, Zeros, CeilDiv;
    FileNode(fs, own, FileTree(dir, Zeros(24576)));
    Bounds(12, 24576);
  }

  /** One free block: the byte after the twelfth block is reported as written, and its block is not in the map. */
  lemma WriteLosesByte() returns (fs: Fs, own: Ownership, dir: nat)
    ensures dir != 2 && Implements(fs, own, FileTree(dir, Zeros(24576))) && IsIno(fs.sb, 2) && fs.sb.freeBlocks == 1
    ensures 24577 <= MaxBytes(fs.sb.Ptrs())
    ensures var (r, n, done) := WriteLoop(fs, ReadInode(fs, 2), 24576, [7], 0); done == 1 && !AllMapped(r, n, 12, 13)
  {
    hide Superblock.Valid, Core, NodesOk, WellNamed, FileOk, ReadInode, IsIno, Superblock.BlockSize, Superblock.Ptrs,
         Cost, CeilDiv, Div, Zeros, WriteLoop, MaxBytes, AllMapped;
    fs, own, dir := TwelveBlocks(1);
    VolumeBig(fs);
    FileNode(fs, own, FileTree(dir, Zeros(24576)));
    ThirteenthCost(fs, ReadInode(fs, 2), 12);
    CostNone(fs, ReadInode(fs, 2), 12);
    Bounds(12, 24576);
    Bounds(13, 24577);
    WriteStoresIff(fs, own, 2, Zeros(24576), 24576, [7]);
    var (r, n, done) := WriteLoop(fs, ReadInode(fs, 2), 24576, [7], 0);
    NoneMapped(r, n, 12);
  }

  lemma NoneMapped(r: Fs, n: Inode, lo: nat)
    requires Volume(r)
    ensures AllMapped(r, n, lo, lo)
  {
    hide Volume, GetBlock, MaxBlocks;
  }

  /** A file of thirteen blocks: unlink does not return its index block. */
  lemma UnlinkLeaks() returns (fs: Fs, own: Ownership, dir: nat)
    ensures Implements(fs, own, FileTree(dir, Zeros(24576) + [7])) && IsIno(fs.sb, 2)
    ensures !AllFreed(fs, ReadInode(fs, 2), Unlink(fs, dir, [65]).0)
  {
    hide Superblock.Valid, Core, NodesOk, WellNamed, ReadInode, IsIno, Superblock.BlockSize, Cost, CeilDiv, Div,
         Zeros, AllFreed, Unlink;
    var fs0, own0, d := TwelveBlocks(8);
    ThirteenthCost(fs0, ReadInode(fs0, 2), 12);
    Bounds(13, 24577);
    fs, own := Grown(fs0, own0, d, Zeros(24576), [7], 12, 2);
    dir := d;
    UnlinkReturnsAll(fs, own, FileTree(d, Zeros(24576) + [7]), d, [65]);
  }
}
