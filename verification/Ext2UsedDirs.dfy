/** The directory counts of the group descriptors (fs/src/ext2/bgdt.rs:16-24,
    fs/src/ext2/inode_impl.rs:242-244): a group's used_dirs is meant to be the number of directories whose inode
    lies in the group. Exactly when it stays so. */
module Ext2UsedDirs {
  import opened Arith
  import opened Bytes
  import opened Bitmap
  import opened Ext2Layout
  import opened Ext2Alloc
  import opened Ext2Inode
  import opened Ext2BlockMap
  import opened Ext2File
  import opened Ext2Space
  import opened Ext2Dir
  import opened Ext2DirOps
  import opened Ext2Room
  import opened Ext2Fs
  import Ext2Runs

  // ---------------------------------------------------------------- what the code does to the counts

  /** No group's count differs. */
  ghost predicate SameDirs(fs: Fs, r: Fs) {
    |r.bgdt| == |fs.bgdt| && forall g :: 0 <= g < |fs.bgdt| ==> r.bgdt[g].usedDirs == fs.bgdt[g].usedDirs
  }

  lemma {:induction false} AllocFromDirs(k: Kind, fs: Fs, g: nat)
    requires Shape(fs) && g <= |fs.bgdt|
    ensures SameDirs(fs, AllocFrom(k, fs, g).0)
    decreases |fs.bgdt| - g
  {
    hide Superblock.Valid, Mark, FirstFree, ReadBlk;
    if g < |fs.bgdt| { AllocFromDirs(k, fs, g + 1); }
  }

  lemma ReleaseDirs(k: Kind, fs: Fs, item: nat)
    requires Shape(fs) && InRange(k, fs.sb, item)
    ensures SameDirs(fs, Release(k, fs, item))
  {
    hide Superblock.Valid, Mark, GroupOf, BitOfItem;
    ItemParts(k, fs.sb, item);
  }

  lemma NewIndexDirs(fs: Fs, n: Inode, path: seq<nat>, up: u32)
    requires Shape(fs) && IsPath(fs.sb.Ptrs(), path)
    ensures SameDirs(fs, NewIndex(fs, n, path, up).0)
  {
    hide Superblock.Valid, AllocFrom, IsPath;
    AllocFromDirs(Blocks, fs, 0);
  }

  lemma {:induction false} EnsureIndexDirs(fs: Fs, n: Inode, path: seq<nat>)
    requires Shape(fs) && IsPath(fs.sb.Ptrs(), path)
    ensures SameDirs(fs, EnsureIndex(fs, n, path).0)
    decreases |path|
  {
    hide Superblock.Valid, NewIndex, IsPath, IndexAt;
    ParentPath(fs.sb.Ptrs(), path);
    if |path| == 1 {
      NewIndexDirs(fs, n, path, 0);
    } else {
      EnsureIndexDirs(fs, n, Parent(path));
      var (fs1, n1, up) := EnsureIndex(fs, n, Parent(path));
      NewIndexDirs(fs1, n1, path, up);
    }
  }

  lemma SetBlockDirs(fs: Fs, n: Inode, blk: nat, phys: u32)
    requires Volume(fs) && blk < MaxBlocks(fs.sb.Ptrs())
    ensures SameDirs(fs, SetBlock(fs, n, blk, phys).0)
  {
    hide Superblock.Valid, EnsureIndex, IsPath, PathOf, MaxBlocks, PutU32;
    PathOfIsLeaf(fs.sb.Ptrs(), blk);
    ParentPath(fs.sb.Ptrs(), PathOf(fs.sb.Ptrs(), blk));
    if |PathOf(fs.sb.Ptrs(), blk)| > 1 { EnsureIndexDirs(fs, n, Parent(PathOf(fs.sb.Ptrs(), blk))); }
  }

  lemma AllocMappedDirs(fs: Fs, n: Inode, blk: nat, data: Buf)
    requires Volume(fs) && blk < MaxBlocks(fs.sb.Ptrs()) && |data| == fs.sb.BlockSize()
    ensures AllocMapped(fs, n, blk, data).Some? ==> SameDirs(fs, AllocMapped(fs, n, blk, data).value.0)
  {
    hide Superblock.Valid, Alloc, SetBlock, MaxBlocks, DiskShape, SameDirs;
    AllocDirs(Blocks, fs);
    var (fs1, o) := Alloc(Blocks, fs);
    var fs2 := PutBlk(fs1, OrZero(o) as int, data);
    VolumeFacts(fs2);
    SetBlockDirs(fs2, n, blk, OrZero(o));
    SameTrans(fs, fs1, fs2);
    SameTrans(fs, fs2, SetBlock(fs2, n, blk, OrZero(o)).0);
  }

  lemma AllocDirs(k: Kind, fs: Fs)
    requires Shape(fs)
    ensures SameDirs(fs, Alloc(k, fs).0)
  {
    hide Superblock.Valid, AllocFrom, SameDirs;
    AllocFromDirs(k, fs, 0);
  }

  /** Equal descriptors, or the same counts twice. */
  lemma SameTrans(a: Fs, b: Fs, c: Fs)
    requires SameDirs(a, b) && (SameDirs(b, c) || c.bgdt == b.bgdt)
    ensures SameDirs(a, c)
  {
  }

  lemma StoreSame(fs: Fs, n: Inode)
    requires Volume(fs)
    ensures StoreInode(fs, n).bgdt == fs.bgdt
  {
    hide Superblock.Valid;
  }

  lemma AddEntryDirs(fs: Fs, n: Inode, name: Buf, child: u32, ft: u8)
    requires Volume(fs) && |name| < 0x100
    ensures SameDirs(fs, AddEntry(fs, n, name, child, ft))
  {
    hide Superblock.Valid, AddScan, AllocMapped, StoreInode, DirBlocks, MaxBlocks, DiskShape, NewDirBlock;
    if AddScan(fs, n, name, child, ft, 0).None? {
      BlockSizes(fs);
      var data := NewDirBlock(fs.sb.BlockSize(), name, child, ft);
      AllocMappedDirs(fs, n, DirBlocks(fs, n), data);
      match AllocMapped(fs, n, DirBlocks(fs, n), data)
      case None =>
      case Some((fs1, n1, _)) => StoreSame(fs1, n1.(size := (n1.size as int + fs.sb.BlockSize()) % 0x1_0000_0000));
    }
  }

  lemma CreateDirs(fs: Fs, dir: nat, name: Buf)
    requires Volume(fs) && |name| < 0x100
    ensures SameDirs(fs, CreateFile(fs, dir, name).0)
  {
    hide Superblock.Valid, Alloc, StoreInode, AddEntry, LoadInode, SameDirs;
    AllocDirs(Inodes, fs);
    var (fs1, o) := Alloc(Inodes, fs);
    VolumeFacts(fs1);
    var fs2 := StoreInode(fs1, NewFile(OrZero(o)));
    StoreSame(fs1, NewFile(OrZero(o)));
    SameTrans(fs, fs1, fs2);
    AddEntryDirs(fs2, LoadInode(fs2, dir), name, OrZero(o), FtReg);
    SameTrans(fs, fs2, AddEntry(fs2, LoadInode(fs2, dir), name, OrZero(o), FtReg));
  }

  lemma MakeDirDirs(fs: Fs, dir: u32)
    requires Volume(fs)
    ensures SameDirs(fs, MakeDir(fs, dir).0)
  {
    hide Superblock.Valid, Alloc, StoreInode, FirstDirBlock, SameDirs, DiskShape;
    AllocDirs(Inodes, fs);
    var (fs1, o) := Alloc(Inodes, fs);
    VolumeFacts(fs1);
    AllocDirs(Blocks, fs1);
    var (fs2, b) := Alloc(Blocks, fs1);
    SameTrans(fs, fs1, fs2);
    VolumeFacts(fs2);
    BlockSizes(fs2);
    var fs3 := PutBlk(fs2, OrZero(b) as int, FirstDirBlock(fs2.sb.BlockSize(), OrZero(o), dir));
    var n := NewDir(fs3.sb, OrZero(o), OrZero(b));
    StoreSame(fs3, n);
    SameTrans(fs, fs2, StoreInode(fs3, n));
  }

  lemma PlacedDirs(fs: Fs, data: Buf)
    requires Volume(fs) && |data| == fs.sb.BlockSize()
    ensures SameDirs(fs, PlacedDir(fs, data))
  {
    hide Superblock.Valid, Alloc, StoreInode, SameDirs, DiskShape;
    AllocDirs(Inodes, fs);
    var (fs1, o) := Alloc(Inodes, fs);
    VolumeFacts(fs1);
    AllocDirs(Blocks, fs1);
    var (fs2, b) := Alloc(Blocks, fs1);
    SameTrans(fs, fs1, fs2);
    VolumeFacts(fs2);
    BlockSizes(fs2);
    var fs3 := PutBlk(fs2, OrZero(b) as int, data);
    var n := NewDir(fs3.sb, OrZero(o), OrZero(b));
    StoreSame(fs3, n);
    SameTrans(fs, fs2, StoreInode(fs3, n));
  }

  lemma {:induction false} WriteLoopDirs(fs: Fs, n: Inode, offset: nat, buf: Buf, done: nat)
    requires Volume(fs) && done <= |buf| && offset + |buf| <= MaxBytes(fs.sb.Ptrs())
    ensures SameDirs(fs, WriteLoop(fs, n, offset, buf, done).0)
    decreases |buf| - done
  {
    hide Superblock.Valid, AllocMapped, GetBlock, MaxBlocks, DiskShape, SameDirs, Mul, Div, Mod, PatchBlock;
    SameSelf(fs);
    if done < |buf| {
      var pos := offset + done;
      BlockInRange(fs.sb.Ptrs(), pos);
      var blk := Div(pos, fs.sb.BlockSize());
      AllocMappedDirs(fs, n, blk, Zeros(fs.sb.BlockSize()));
      match GetOrAlloc(fs, n, blk)
      case None =>
      case Some((fs1, n1, phys)) =>
        var k := Chunk(fs.sb.BlockSize(), pos, |buf| - done);
        var fs2 := PatchBlock(fs1, phys, Mod(pos, fs.sb.BlockSize()), buf[done..done + k]);
        WriteLoopDirs(fs2, n1, offset, buf, done + k);
        SameTrans(fs, fs1, fs2);
        SameTrans(fs, fs2, WriteLoop(fs2, n1, offset, buf, done + k).0);
    }
  }

  lemma SameSelf(fs: Fs)
    ensures SameDirs(fs, fs)
  {
  }

  lemma WriteDirs(fs: Fs, ino: nat, offset: nat, buf: Buf)
    requires Volume(fs) && IsIno(fs.sb, ino) && offset + |buf| <= MaxBytes(fs.sb.Ptrs())
    ensures SameDirs(fs, WriteFile(fs, ino, offset, buf).0)
  {
    hide Superblock.Valid, WriteLoop, ReadInode, MaxBytes;
    WriteLoopDirs(fs, ReadInode(fs, ino), offset, buf, 0);
  }

  lemma {:induction false} FreeBlocksDirs(fs: Fs, n: Inode, m: nat)
    requires Volume(fs) && m <= DirBlocks(fs, n)
    ensures SameDirs(fs, FreeBlocks(fs, n, m))
    decreases DirBlocks(fs, n) - m
  {
    hide Superblock.Valid, GetBlock, Release, DirBlocks, MaxBlocks, SameDirs, DiskShape;
    SameSelf(fs);
    if m < DirBlocks(fs, n) {
      match GetBlock(fs.disk, fs.sb.Ptrs(), n.block, m)
      case None => FreeBlocksDirs(fs, n, m + 1);
      case Some(b) =>
        if b as int < |fs.disk| {
          var fs1 := Release(Blocks, fs, b as int);
          ReleaseDirs(Blocks, fs, b as int);
          ReleaseVolume(Blocks, fs, b as int);
          SameDirBlocks(fs, fs1, n);
          FreeBlocksDirs(fs1, n, m + 1);
          SameTrans(fs, fs1, FreeBlocks(fs1, n, m + 1));
        }
    }
  }

  lemma UnlinkDirs(fs: Fs, dir: nat, name: Buf)
    requires Volume(fs)
    ensures SameDirs(fs, Unlink(fs, dir, name).0)
  {
    hide Superblock.Valid, LookupFrom, FreeBlocks, Release, RemoveScan, LoadInode, SameDirs, DiskShape;
    SameSelf(fs);
    match LookupFrom(fs, LoadInode(fs, dir), name, 0)
    case None =>
    case Some(child) =>
      FreeBlocksDirs(fs, LoadInode(fs, child as int), 0);
      var fs1 := FreeBlocks(fs, LoadInode(fs, child as int), 0);
      if IsIno(fs1.sb, child as int) {
        ReleaseDirs(Inodes, fs1, child as int);
        ReleaseVolume(Inodes, fs1, child as int);
        var fs2 := Release(Inodes, fs1, child as int);
        SameTrans(fs, fs1, fs2);
        var o := RemoveScan(fs2, LoadInode(fs, dir), name, 0);
        if o.Some? { SameTrans(fs, fs2, o.value); }
      }
  }

  // ---------------------------------------------------------------- what the counts mean

  /** The directories of the tree whose inode lies in group `g`. */
  ghost function DirsOf(t: Tree, sb: Superblock, g: nat): set<nat>
    requires sb.inodesPerGroup > 0
  {
    set i | i in t && t[i].Dir? && i >= 1 && GroupOf(Inodes, sb, i) == g
  }

  /** Every group's used_dirs is the number of directories in it. */
  ghost predicate DirsCounted(fs: Fs, t: Tree)
    requires Volume(fs)
  {
    forall g :: 0 <= g < |fs.bgdt| ==> fs.bgdt[g].usedDirs as int == |DirsOf(t, fs.sb, g)|
  }

  lemma SameGroups(sb: Superblock, r: Superblock, t: Tree, g: nat)
    requires SameGeometry(sb, r) && sb.inodesPerGroup > 0
    ensures DirsOf(t, r, g) == DirsOf(t, sb, g)
  {
    hide Div;
  }

  /** Operations that change neither the counts nor which inodes are directories. */
  lemma CountsKept(fs: Fs, r: Fs, t: Tree, t2: Tree)
    requires Volume(fs) && Volume(r) && SameGeometry(fs.sb, r.sb) && SameDirs(fs, r) && DirsCounted(fs, t)
    requires forall i :: i in t2 && t2[i].Dir? <==> i in t && t[i].Dir?
    ensures DirsCounted(r, t2)
  {
    hide GroupOf;
    forall g | 0 <= g < |r.bgdt| ensures r.bgdt[g].usedDirs as int == |DirsOf(t2, r.sb, g)| {
      SameGroups(fs.sb, r.sb, t2, g);
      assert DirsOf(t2, fs.sb, g) == DirsOf(t, fs.sb, g);
    }
  }

  lemma {:induction false} RangeCard(s: set<nat>, lo: nat, n: nat)
    requires forall i :: i in s ==> lo < i <= lo + n
    ensures |s| <= n
  {
    if n > 0 {
      RangeCard(s - {lo + n}, lo, n - 1);
      assert |s| <= |s - {lo + n}| + 1;
    } else {
      assert s == {};
    }
  }

  /** A group holds no more directories than inodes. */
  lemma FewDirs(fs: Fs, own: Ownership, t: Tree, g: nat)
    requires Implements(fs, own, t)
    ensures |DirsOf(t, fs.sb, g)| <= fs.sb.inodesPerGroup as int < 0x1_0000
  {
    hide Core, WellNamed, FileOk, DirOk, Used, Mul, Div;
    var per := fs.sb.inodesPerGroup as int;
    forall i | i in DirsOf(t, fs.sb, g) ensures Mul(g, per) < i <= Mul(g, per) + per {
      assert NodeOk(fs, own, i, t[i]);
      DivMod(i - 1, per);
    }
    RangeCard(DirsOf(t, fs.sb, g), Mul(g, per), per);
  }

  /** The inode mkdir takes: it lies in the first group with a free inode. */
  lemma ChildGroup(fs: Fs, own: Ownership, dir: u32, name: Buf)
    requires Volume(fs) && Core(fs, own) && |name| < 0x100 && Mkdir(fs, dir, name).1.Some?
    ensures fs.sb.inodesPerGroup > 0 && Mkdir(fs, dir, name).1.value >= 1
    ensures FirstOpen(Inodes, fs, GroupOf(Inodes, fs.sb, Mkdir(fs, dir, name).1.value as int))
  {
    hide Core, Superblock.Valid, Alloc, StoreInode, AddEntry, LoadInode, BumpDirs, DiskShape, FirstOpen, GroupOf,
         Moved;
    AllocatedInode(fs, own);
    AllocGroup(Inodes, fs, own);
  }

  lemma OneFirst(fs: Fs, g: nat, h: nat)
    requires FirstOpen(Inodes, fs, g)
    ensures FirstOpen(Inodes, fs, h) <==> h == g
  {
  }

  /** The counts are right afterwards exactly when the parent's group is the first with a free inode. */
  ghost predicate RightIff(fs: Fs, t: Tree, dir: u32, name: Buf, r: Fs, o: Option<u32>)
    requires Volume(fs) && dir as int in t && t[dir as int].Dir? && dir >= 1
  {
    && o.Some? && o.value >= 1 && Volume(r)
    && var t2 := Added(t, dir as int, name, o.value as int, Dir(DotNames(o.value as int, dir as int)));
       (DirsCounted(r, t2) <==> FirstOpen(Inodes, fs, GroupOf(Inodes, fs.sb, dir as int)))
  }

  lemma MkdirCounts(fs: Fs, own: Ownership, t: Tree, dir: u32, name: Buf) returns (own2: Ownership)
    requires Volume(fs) && |name| < 0x100 && MkdirRoom(fs, dir, name) && CanAdd(fs, dir as int, t, name) && dir >= 1
    requires fs.sb.freeInodes > 0 && fs.sb.freeBlocks > 0 && Implements(fs, own, t) && DirsCounted(fs, t)
    ensures MadeDir(t, dir, name, own2, Mkdir(fs, dir, name).0, Mkdir(fs, dir, name).1)
    ensures RightIff(fs, t, dir, name, Mkdir(fs, dir, name).0, Mkdir(fs, dir, name).1)
  {
    hide Superblock.Valid, Core, NodesOk, WellNamed, NameFits, Mkdir, DirsCounted, GroupOf, Mul, DirBlocks, ReadInode,
         FirstOpen, Added;
    own2 := MkdirSpec(fs, own, t, dir, name);
    var (r, o) := Mkdir(fs, dir, name);
    var i := o.value as int;
    var t2 := Added(t, dir as int, name, i, Dir(DotNames(i, dir as int)));
    AddedDirs(t, dir as int, name, i, Dir(DotNames(i, dir as int)));
    NodeIno(r, own2, t2, i);
    MkdirBumps(fs, dir, name);
    SameIno(fs.sb, r.sb, i);
    GroupsThere(fs.sb, dir as int, i);
    PerPositive(fs);
    CountsAfter(fs, r, own2, t, t2, dir as int, i);
    ChildGroup(fs, own, dir, name);
    OneFirst(fs, GroupOf(Inodes, fs.sb, i), GroupOf(Inodes, fs.sb, dir as int));
  }

  lemma AddedDirs(t: Tree, dir: nat, name: Buf, i: nat, node: Node)
    requires dir in t && t[dir].Dir? && i !in t && node.Dir?
    ensures var t2 := Added(t, dir, name, i, node);
            && i in t2 && t2[i].Dir?
            && forall j :: j in t2 && t2[j].Dir? <==> (j in t && t[j].Dir?) || j == i
  {
  }

  lemma PerPositive(fs: Fs)
    requires Volume(fs)
    ensures fs.sb.inodesPerGroup > 0 && |fs.bgdt| == fs.sb.NumGroups()
  {
  }

  lemma NodeIno(fs: Fs, own: Ownership, t: Tree, i: nat)
    requires Implements(fs, own, t) && i in t
    ensures IsIno(fs.sb, i) && Volume(fs)
  {
    hide Core, WellNamed, FileOk, DirOk, Used, Superblock.Valid;
    assert NodeOk(fs, own, i, t[i]);
  }

  lemma GroupsThere(sb: Superblock, dir: nat, i: nat)
    requires sb.Valid() && IsIno(sb, dir) && IsIno(sb, i)
    ensures GroupOf(Inodes, sb, dir) < sb.NumGroups() && GroupOf(Inodes, sb, i) < sb.NumGroups() && dir >= 1 && i >= 1
  {
    hide Superblock.Valid, GroupOf, BitOfItem;
    ItemParts(Inodes, sb, dir);
    ItemParts(Inodes, sb, i);
  }

  /** The counts after mkdir: one up in the parent's group. */
  ghost predicate OneUp(fs: Fs, r: Fs, g: nat) {
    && |r.bgdt| == |fs.bgdt| && g < |fs.bgdt|
    && r.bgdt[g].usedDirs as int == (fs.bgdt[g].usedDirs as int + 1) % 0x1_0000
    && forall h :: 0 <= h < |fs.bgdt| && h != g ==> r.bgdt[h].usedDirs == fs.bgdt[h].usedDirs
  }

  lemma MkdirBumps(fs: Fs, dir: u32, name: Buf)
    requires Volume(fs) && |name| < 0x100 && IsIno(fs.sb, dir as int) && Mkdir(fs, dir, name).1.Some?
    ensures var r := Mkdir(fs, dir, name).0;
            Volume(r) && SameGeometry(fs.sb, r.sb) && OneUp(fs, r, GroupOf(Inodes, fs.sb, dir as int))
  {
    hide Superblock.Valid, MakeDir, AddEntry, LoadInode, GroupOf, SameDirs;
    var (fs1, o) := MakeDir(fs, dir);
    MakeDirDirs(fs, dir);
    var n := LoadInode(fs1, dir as int);
    AddEntryDirs(fs1, n, name, o.value, FtDir);
    var fs2 := AddEntry(fs1, n, name, o.value, FtDir);
    SameTrans(fs, fs1, fs2);
    SameIno(fs.sb, fs2.sb, dir as int);
    BumpOne(fs, fs2, dir as int);
  }

  lemma BumpOne(fs: Fs, fs2: Fs, dir: nat)
    requires Volume(fs) && Volume(fs2) && SameGeometry(fs.sb, fs2.sb) && SameDirs(fs, fs2) && IsIno(fs.sb, dir)
             && IsIno(fs2.sb, dir)
    ensures var r := BumpDirs(fs2, dir); Volume(r) && r.sb == fs2.sb && OneUp(fs, r, GroupOf(Inodes, fs.sb, dir))
  {
    hide Superblock.Valid, GroupOf, BitOfItem;
    ItemParts(Inodes, fs2.sb, dir);
    SameGroup(fs.sb, fs2.sb, dir);
    VolumeFacts(BumpDirs(fs2, dir));
  }

  lemma SameGroup(sb: Superblock, r: Superblock, i: nat)
    requires SameGeometry(sb, r) && sb.inodesPerGroup > 0 && i >= 1
    ensures GroupOf(Inodes, r, i) == GroupOf(Inodes, sb, i)
  {
    hide Div;
  }

  lemma CountsAfter(fs: Fs, r: Fs, own2: Ownership, t: Tree, t2: Tree, dir: nat, i: nat)
    requires Volume(fs) && Volume(r) && SameGeometry(fs.sb, r.sb) && DirsCounted(fs, t) && Implements(r, own2, t2)
    requires dir >= 1 && i >= 1 && i !in t && i in t2 && t2[i].Dir? && fs.sb.inodesPerGroup > 0
    requires forall j :: j in t2 && t2[j].Dir? <==> (j in t && t[j].Dir?) || j == i
    requires GroupOf(Inodes, fs.sb, i) < |fs.bgdt| && OneUp(fs, r, GroupOf(Inodes, fs.sb, dir))
    ensures DirsCounted(r, t2) <==> GroupOf(Inodes, fs.sb, i) == GroupOf(Inodes, fs.sb, dir)
  {
    hide Volume, Implements, GroupOf, DirsOf;
    var gi, gd := GroupOf(Inodes, fs.sb, i), GroupOf(Inodes, fs.sb, dir);
    forall g | 0 <= g < |fs.bgdt|
      ensures |DirsOf(t2, r.sb, g)| == |DirsOf(t, fs.sb, g)| + (if g == gi then 1 else 0)
              && |DirsOf(t2, r.sb, g)| < 0x1_0000
    {
      GroupAfter(fs, r, own2, t, t2, i, g);
    }
    if gi == gd {
      forall g | 0 <= g < |r.bgdt| ensures r.bgdt[g].usedDirs as int == |DirsOf(t2, r.sb, g)| {
      }
    } else {
      assert r.bgdt[gd].usedDirs as int != |DirsOf(t2, r.sb, gd)|;
    }
  }

  lemma GroupAfter(fs: Fs, r: Fs, own2: Ownership, t: Tree, t2: Tree, i: nat, g: nat)
    requires Volume(fs) && SameGeometry(fs.sb, r.sb) && Implements(r, own2, t2) && i >= 1 && i !in t && i in t2
             && fs.sb.inodesPerGroup > 0
    requires forall j :: j in t2 && t2[j].Dir? <==> (j in t && t[j].Dir?) || j == i
    ensures |DirsOf(t2, r.sb, g)| == |DirsOf(t, fs.sb, g)| + (if g == GroupOf(Inodes, fs.sb, i) then 1 else 0)
    ensures |DirsOf(t2, r.sb, g)| < 0x1_0000
  {
    hide Volume, Implements, GroupOf, DirsOf;
    SameGroups(fs.sb, r.sb, t2, g);
    FewDirs(r, own2, t2, g);
    OneMore(fs.sb, t, t2, i, g);
  }

  lemma OneMore(sb: Superblock, t: Tree, t2: Tree, i: nat, g: nat)
    requires i >= 1 && i !in t && i in t2 && sb.inodesPerGroup > 0
    requires forall j :: j in t2 && t2[j].Dir? <==> (j in t && t[j].Dir?) || j == i
    ensures |DirsOf(t2, sb, g)| == |DirsOf(t, sb, g)| + (if g == GroupOf(Inodes, sb, i) then 1 else 0)
  {
    hide GroupOf;
    var extra: set<nat> := if g == GroupOf(Inodes, sb, i) then {i} else {};
    assert DirsOf(t2, sb, g) == DirsOf(t, sb, g) + extra;
  }

  /** Not a mkdir below a directory whose group is full, or comes after a group that is not. */
  ghost predicate Within(fs: Fs, op: Ext2Runs.Op)
    requires Volume(fs)
  {
    op.MkdirOp? ==>
      && op.parent >= 1 && fs.sb.inodesPerGroup > 0
      && FirstOpen(Inodes, fs, GroupOf(Inodes, fs.sb, op.parent as int))
  }

  /** One call of a run: the counts stay right exactly when it is no such mkdir. */
  lemma StepCounts(fs: Fs, own: Ownership, t: Tree, op: Ext2Runs.Op, r: Fs, t2: Tree)
    requires Ext2Runs.Step(fs, t, op, r, t2) && Implements(fs, own, t) && DirsCounted(fs, t)
    ensures Volume(r) && (DirsCounted(r, t2) <==> Within(fs, op))
  {
    hide Superblock.Valid, Core, WellNamed, FileOk, DirOk, Used, NameFits, Mkdir, CreateFile, Unlink, WriteFile,
         DirsCounted, GroupOf, Mul, DirBlocks, ReadInode, MaxBytes, RoomFor, SameDirs, Overwrite, NodesOk, FirstOpen;
    match op
    case MkdirOp(parent, name) =>
      PerPositive(fs);
      var own2 := MkdirCounts(fs, own, t, parent, name);
    case CreateOp(dir, name) =>
      var own2 := CreateFileSpec(fs, own, t, dir, name);
      CreateDirs(fs, dir, name);
      CreateGeometry(fs, dir, name);
      CountsKept(fs, r, t, t2);
    case WriteOp(ino, offset, buf) =>
      var own2 := WriteSpecTree(fs, own, t, ino, offset, buf);
      WriteDirs(fs, ino, offset, buf);
      WriteGeometry(fs, ino, offset, buf);
      CountsKept(fs, r, t, t2);
    case UnlinkOp(dir, name) =>
      var own2 := UnlinkSpec(fs, own, t, dir, name);
      UnlinkDirs(fs, dir, name);
      UnlinkGeometry(fs, dir, name);
      CountsKept(fs, r, t, t2);
  }

  /** Over a run: the counts are right throughout exactly when no mkdir goes across groups. */
  lemma {:induction false} RunCounts(volumes: seq<Fs>, trees: seq<Tree>, ops: seq<Ext2Runs.Op>, own: Ownership)
    requires Ext2Runs.IsRun(volumes, trees, ops) && Implements(volumes[0], own, trees[0])
    requires DirsCounted(volumes[0], trees[0])
    ensures forall i :: 0 <= i < |volumes| ==> Volume(volumes[i])
    ensures (forall i :: 0 <= i < |volumes| ==> DirsCounted(volumes[i], trees[i])) <==>
            forall i :: 0 <= i < |ops| ==> Within(volumes[i], ops[i])
  {
    hide Ext2Runs.Step, DirsCounted, Within, Core, NodesOk, WellNamed, Superblock.Valid;
    var owns := Ext2Runs.RunImplements(volumes, trees, ops, own);
    assert forall i :: 0 <= i < |volumes| ==> Implements(volumes[i], owns[i], trees[i]);
    forall i | 0 <= i < |ops| && DirsCounted(volumes[i], trees[i])
      ensures DirsCounted(volumes[i + 1], trees[i + 1]) <==> Within(volumes[i], ops[i])
    {
      StepCounts(volumes[i], owns[i], trees[i], ops[i], volumes[i + 1], trees[i + 1]);
    }
    if forall i :: 0 <= i < |ops| ==> Within(volumes[i], ops[i]) {
      Throughout(volumes, trees, |ops|);
    }
    if forall i :: 0 <= i < |volumes| ==> DirsCounted(volumes[i], trees[i]) {
      forall i | 0 <= i < |ops| ensures Within(volumes[i], ops[i]) {
        assert DirsCounted(volumes[i], trees[i]) && DirsCounted(volumes[i + 1], trees[i + 1]);
      }
    }
  }

  lemma {:induction false} Throughout(volumes: seq<Fs>, trees: seq<Tree>, n: nat)
    requires n < |volumes| == |trees| && (forall i :: 0 <= i < |volumes| ==> Volume(volumes[i]))
    requires DirsCounted(volumes[0], trees[0])
    requires forall i :: 0 <= i < n && DirsCounted(volumes[i], trees[i]) ==> DirsCounted(volumes[i + 1], trees[i + 1])
    ensures forall i :: 0 <= i <= n ==> DirsCounted(volumes[i], trees[i])
    decreases n
  {
    hide DirsCounted, Volume;
    if n > 0 {
      Throughout(volumes, trees, n - 1);
      assert DirsCounted(volumes[n - 1], trees[n - 1]);
      assert n - 1 + 1 == n;
    }
  }

  lemma CreateGeometry(fs: Fs, dir: nat, name: Buf)
    requires Volume(fs) && |name| < 0x100
    ensures SameGeometry(fs.sb, CreateFile(fs, dir, name).0.sb)
  {
    hide Superblock.Valid, Alloc, StoreInode, AddEntry, LoadInode, DiskShape;
  }

  lemma WriteGeometry(fs: Fs, ino: nat, offset: nat, buf: Buf)
    requires Volume(fs) && IsIno(fs.sb, ino) && offset + |buf| <= MaxBytes(fs.sb.Ptrs())
    ensures SameGeometry(fs.sb, WriteFile(fs, ino, offset, buf).0.sb)
  {
    hide Superblock.Valid, WriteLoop, ReadInode, MaxBytes;
  }

  lemma UnlinkGeometry(fs: Fs, dir: nat, name: Buf)
    requires Volume(fs)
    ensures SameGeometry(fs.sb, Unlink(fs, dir, name).0.sb)
  {
    hide Superblock.Valid, LookupFrom, FreeBlocks, Release, RemoveScan, LoadInode, DiskShape;
  }
}
