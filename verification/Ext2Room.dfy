/** When a directory can take one more name: conditions on the volume before the call, and what add_entry
    (fs/src/ext2/dir.rs:160-226) leaves when they fail. */
module Ext2Room {
  import opened Arith
  import opened Bytes
  import opened Bitmap
  import opened Ext2Layout
  import opened Ext2Alloc
  import opened Ext2Inode
  import opened Ext2BlockMap
  import opened Ext2File
  import opened Ext2Dir
  import opened Ext2DirOps

  /** The last record of the block can give up the space for a name of `len` bytes. */
  ghost predicate BlockSlack(b: Buf, len: nat) {
    |b| > 0 && Tiled(b, 0) && LastSlack(b, 0) >= Needed(len)
  }

  /** Some block of the directory from the `k`-th on has slack. */
  ghost predicate SlackFrom(fs: Fs, n: Inode, len: nat, k: nat)
    requires Volume(fs)
  {
    exists j :: k <= j < DirBlocks(fs, n) && BlockSlack(BlockAt(fs.disk, fs.sb.Ptrs(), n.block, j), len)
  }

  /** The directory takes a name of `len` bytes, once `taken` blocks went elsewhere: a block has slack, or the free
      blocks cover a new block and its index blocks. */
  ghost predicate NameFits(fs: Fs, n: Inode, len: nat, taken: nat)
    requires Volume(fs)
  {
    SlackFrom(fs, n, len, 0) || IndexMissing(fs, n, DirBlocks(fs, n)) + 1 + taken <= fs.sb.freeBlocks as int
  }

  lemma {:induction false} AddScanIff(fs: Fs, n: Inode, name: Buf, child: u32, ft: u8, k: nat)
    requires Volume(fs) && k <= DirBlocks(fs, n) && |name| < 0x100
    requires DirData(fs.disk, fs.sb.Ptrs(), n.block, k, DirBlocks(fs, n))
    ensures AddScan(fs, n, name, child, ft, k).Some? <==> SlackFrom(fs, n, |name|, k)
    decreases DirBlocks(fs, n) - k
  {
    hide Superblock.Valid, GetBlock, AddInBlock, DirBlocks, Tiled, LastSlack, MaxBlocks;
    var nb := DirBlocks(fs, n);
    if k < nb {
      var b := BlockAt(fs.disk, fs.sb.Ptrs(), n.block, k);
      AddInBlockIff(b, 0, name, child, ft);
      AddScanIff(fs, n, name, child, ft, k + 1);
      SlackStep(fs, n, |name|, k);
    }
  }

  lemma SlackStep(fs: Fs, n: Inode, len: nat, k: nat)
    requires Volume(fs) && k < DirBlocks(fs, n)
    ensures SlackFrom(fs, n, len, k) <==>
            BlockSlack(BlockAt(fs.disk, fs.sb.Ptrs(), n.block, k), len) || SlackFrom(fs, n, len, k + 1)
  {
    hide Superblock.Valid, BlockAt, DirBlocks, BlockSlack, MaxBlocks;
  }

  /** add_entry can place the entry exactly when the name fits. */
  lemma AddRoomIff(fs: Fs, own: Ownership, ino: nat, names: map<Buf, Link>, name: Buf, child: u32, ft: u8)
    requires Volume(fs) && IsIno(fs.sb, ino) && DirOk(fs, own, ino, names) && |name| < 0x100
    ensures AddRoom(fs, ReadInode(fs, ino), name, child, ft) <==> NameFits(fs, ReadInode(fs, ino), |name|, 0)
  {
    hide Superblock.Valid, ReadInode, IsIno, TreeOk, GetBlock, DirBlocks, AddScan, SlackFrom, Represents, PathOf,
         Missing, MaxBlocks;
    var n := ReadInode(fs, ino);
    AddScanIff(fs, n, name, child, ft, 0);
    BeyondDir(fs, n, DirBlocks(fs, n));
  }

  // ---------------------------------------------------------------- what other operations do to the condition

  lemma PtrsKept(d: seq<Buf>, r: seq<Buf>, p: nat, own: Ownership, ino: nat, s: Slots)
    requires p > 0 && DiskShape(d, 4 * p) && DiskShape(r, 4 * p) && |r| == |d| && TreeOk(d, p, own, ino, s)
    requires forall b :: b in own && b < |d| && OwnedBy(own[b], ino) ==> r[b] == d[b]
    ensures forall q :: IsPath(p, q) ==> PtrAt(r, p, s, q) == PtrAt(d, p, s, q)
  {
    hide IsPath;
    forall q | IsPath(p, q) ensures PtrAt(r, p, s, q) == PtrAt(d, p, s, q) {
      PtrFrame(d, r, p, own, ino, s, q);
    }
  }

  /** An operation on another inode that takes `taken` blocks leaves the directory's room as it was, less those. */
  lemma FitsKept(fs: Fs, r: Fs, own: Ownership, own2: Ownership, i: nat, dir: nat, names: map<Buf, Link>, len: nat,
      taken: nat)
    requires Volume(fs) && Volume(r) && SameGeometry(fs.sb, r.sb) && OthersKept(fs, r, own, own2, i) && i != dir
    requires IsIno(fs.sb, dir) && IsIno(r.sb, dir) && DirOk(fs, own, dir, names)
             && r.sb.freeBlocks as int + taken == fs.sb.freeBlocks as int
    ensures NameFits(r, ReadInode(r, dir), len, 0) <==> NameFits(fs, ReadInode(fs, dir), len, taken)
  {
    hide Superblock.Valid, ReadInode, TreeOk, GetBlock, DirBlocks, Represents, PathOf, MaxBlocks, IsPath, Mul,
         BlockSlack, MappedTo, DirData;
    var n, p := ReadInode(fs, dir), fs.sb.Ptrs();
    assert ReadInode(r, dir) == n;
    InoFrame(fs.disk, r.disk, p, own, own2, dir, n.block);
    SameDirBlocks(fs, r, n);
    PtrsKept(fs.disk, r.disk, p, own, dir, n.block);
    var nb := DirBlocks(fs, n);
    PathOfIsLeaf(p, nb);
    var path := PathOf(p, nb);
    ParentPath(p, path);
    if |path| > 1 { MissingSame(fs.disk, r.disk, p, n.block, Parent(path)); }
    assert forall j :: 0 <= j < nb ==> BlockAt(r.disk, p, n.block, j) == BlockAt(fs.disk, p, n.block, j);
  }

  // ---------------------------------------------------------------- add_entry without room

  /** Lookups in a directory whose first blocks are unchanged and whose next block is not there. */
  lemma {:induction false} SameLookups(fs: Fs, n: Inode, r: Fs, n2: Inode, name: Buf, m: nat)
    requires Volume(fs) && Volume(r) && r.sb.Ptrs() == fs.sb.Ptrs() && m <= DirBlocks(fs, n)
             && DirBlocks(r, n2) == DirBlocks(fs, n) + 1
    requires forall j :: 0 <= j < DirBlocks(fs, n) ==> GetBlock(fs.disk, fs.sb.Ptrs(), n.block, j).Some?
    requires forall j :: 0 <= j < DirBlocks(fs, n) ==> GetBlock(r.disk, fs.sb.Ptrs(), n2.block, j).Some?
    requires forall j :: 0 <= j < DirBlocks(fs, n) ==>
               BlockAt(r.disk, fs.sb.Ptrs(), n2.block, j) == BlockAt(fs.disk, fs.sb.Ptrs(), n.block, j)
    requires GetBlock(r.disk, fs.sb.Ptrs(), n2.block, DirBlocks(fs, n)).None?
    ensures LookupFrom(r, n2, name, m) == LookupFrom(fs, n, name, m)
    decreases DirBlocks(fs, n) - m
  {
    hide Superblock.Valid, GetBlock, BlockAt, DirBlocks, FindInBlock, MaxBlocks;
    if m < DirBlocks(fs, n) { SameLookups(fs, n, r, n2, name, m + 1); }
  }

  lemma InodeFrame(fs: Fs, own: Ownership, n: Inode)
    requires Shape(fs) && Layout(fs, own) && IsIno(fs.sb, n.ino as int)
    ensures var r := WriteInode(fs, n);
            |r.disk| == |fs.disk| && forall b :: b in own && b < |fs.disk| && own[b].OwnPtr? ==> r.disk[b] == fs.disk[b]
  {
    hide Superblock.Valid, PutInode, InoOffset, InoTableIndex;
    InoPlace(fs.sb, n.ino as int);
    InoOwned(fs, own, n.ino as int);
  }

  /** The directory's inode and blocks can be found, whatever became of block 0. */
  ghost predicate Findable(fs: Fs, own: Ownership, ino: nat)
    requires Volume(fs)
  {
    IsIno(fs.sb, ino) && Layout(fs, own) && TreeOk(fs.disk, fs.sb.Ptrs(), own, ino, ReadInode(fs, ino).block)
  }

  /** add_entry without room: no lookup in the directory changes, so the new name is not there. */
  lemma AddEntryFails(fs: Fs, own: Ownership, ino: nat, names: map<Buf, Link>, name: Buf, child: u32, ft: u8)
      returns (own2: Ownership)
    requires Volume(fs) && IsIno(fs.sb, ino) && Core(fs, own) && DirOk(fs, own, ino, names) && |name| < 0x100
    requires Mul(DirBlocks(fs, ReadInode(fs, ino)) + 1, 4 * fs.sb.Ptrs()) < 0x1_0000_0000
    requires !AddRoom(fs, ReadInode(fs, ino), name, child, ft)
    ensures var n := ReadInode(fs, ino);
            var r := AddEntry(fs, n, name, child, ft);
            && Findable(r, own2, ino)
            && (fs.sb.freeBlocks == 0 ==> r == fs)
            && forall other: Buf :: LookupFrom(r, ReadInode(r, ino), other, 0) == LookupFrom(fs, n, other, 0)
  {
    hide Superblock.Valid, TreeOk, ReadInode, WriteInode, IsIno, GetBlock, BlockAt, Mul, Represents, AddScan,
         AllocMapped, DirBlocks, MappedTo, DirData, NewDirBlock, StepRoom, LookupFrom, Stays, MaxBlocks, Layout,
         Counted, Padded, Synced, OwnUsed;
    var n := ReadInode(fs, ino);
    var nb := DirBlocks(fs, n);
    BlockSizes(fs);
    var data := NewDirBlock(fs.sb.BlockSize(), name, child, ft);
    if fs.sb.freeBlocks == 0 {
      own2 := own;
      NoBlock(fs, own, n, nb, data);
    } else {
      own2 := AllocMappedFails(fs, own, n, nb, data);
      var (fs1, n1, b) := AllocMapped(fs, n, nb, data).value;
      SameIno(fs.sb, fs1.sb, ino);
      GrownSize(fs, n, nb);
      var n2 := n1.(size := n1.size as int + fs.sb.BlockSize());
      LostBlock(fs, own, ino, names, nb, fs1, n1, own2, n2);
    }
  }

  /** The directory after its inode was saved with a size that counts the block it did not get. */
  lemma LostBlock(fs: Fs, own: Ownership, ino: nat, names: map<Buf, Link>, nb: nat, fs1: Fs, n1: Inode, own2: Ownership,
      n2: Inode)
    requires Volume(fs) && Volume(fs1) && SameGeometry(fs.sb, fs1.sb) && IsIno(fs.sb, ino) && IsIno(fs1.sb, ino)
    requires nb == DirBlocks(fs, ReadInode(fs, ino)) && DirOk(fs, own, ino, names)
    requires n1 == ReadInode(fs, ino).(block := n1.block, blocks := n1.blocks) && n1.ino as int == ino
    requires n1.size as int + fs.sb.BlockSize() < 0x1_0000_0000 && n2 == n1.(size := n1.size as int + fs.sb.BlockSize())
    requires n2.size as int == Mul(nb + 1, 4 * fs.sb.Ptrs())
    requires TreeOk(fs1.disk, fs.sb.Ptrs(), own2, ino, n1.block) && Stays(fs, own, fs1, own2, ino)
    requires forall m :: 0 <= m < MaxBlocks(fs.sb.Ptrs()) ==>
               GetBlock(fs1.disk, fs.sb.Ptrs(), n1.block, m) == GetBlock(fs.disk, fs.sb.Ptrs(),
                   ReadInode(fs, ino).block, m)
    ensures var r := WriteInode(fs1, n2);
            && Volume(r) && Findable(r, own2, ino)
            && forall other: Buf ::
               LookupFrom(r, ReadInode(r, ino), other, 0) == LookupFrom(fs, ReadInode(fs, ino), other, 0)
  {
    hide Superblock.Valid, TreeOk, ReadInode, WriteInode, IsIno, GetBlock, Mul, Represents, DirBlocks, DirData,
         LookupFrom, Layout, LeavesKept, MaxBlocks, PathOf;
    var n, p := ReadInode(fs, ino), fs.sb.Ptrs();
    var r := WriteInode(fs1, n2);
    VolumeFacts(r);
    InodeFrame(fs1, own2, n2);
    WriteInodeReadBack(fs1, own2, n2, ino);
    InoFrame(fs1.disk, r.disk, p, own2, own2, ino, n1.block);
    SameLayout(fs1, r, own2);
    DirBlocksOf(r, n2, nb + 1);
    BeyondDir(fs, n, nb);
    forall j | 0 <= j < nb
      ensures GetBlock(r.disk, p, n2.block, j).Some?
              && BlockAt(r.disk, p, n2.block, j) == BlockAt(fs.disk, p, n.block, j)
    {
      SameData(fs, own, ino, n, fs1, n1, own2, r, j);
    }
    forall other: Buf ensures LookupFrom(r, n2, other, 0) == LookupFrom(fs, n, other, 0) {
        SameLookups(fs, n, r, n2, other, 0); }
  }

  lemma SameLayout(fs: Fs, r: Fs, own: Ownership)
    requires Shape(fs) && Shape(r) && Layout(fs, own) && r.sb == fs.sb && r.bgdt == fs.bgdt && |r.disk| == |fs.disk|
    ensures Layout(r, own)
  {
    hide Superblock.Valid;
  }

  /** Lookups do not read the allocator's blocks. */
  lemma {:induction false} MetaLookups(fs: Fs, r: Fs, n: Inode, name: Buf, m: nat)
    requires Volume(fs) && Volume(r) && r.sb.Ptrs() == fs.sb.Ptrs() && DirBlocks(r, n) == DirBlocks(fs, n)
             && m <= DirBlocks(fs, n)
    requires forall j :: 0 <= j < DirBlocks(fs, n) ==>
               && GetBlock(r.disk, fs.sb.Ptrs(), n.block, j) == GetBlock(fs.disk, fs.sb.Ptrs(), n.block, j)
               && BlockAt(r.disk, fs.sb.Ptrs(), n.block, j) == BlockAt(fs.disk, fs.sb.Ptrs(), n.block, j)
    ensures LookupFrom(r, n, name, m) == LookupFrom(fs, n, name, m)
    decreases DirBlocks(fs, n) - m
  {
    hide Superblock.Valid, GetBlock, BlockAt, DirBlocks, FindInBlock, MaxBlocks;
    if m < DirBlocks(fs, n) { MetaLookups(fs, r, n, name, m + 1); }
  }

  lemma SameData(fs: Fs, own: Ownership, ino: nat, n: Inode, fs1: Fs, n1: Inode, own2: Ownership, r: Fs, j: nat)
    requires Volume(fs) && Volume(fs1) && Volume(r) && fs1.sb.Ptrs() == r.sb.Ptrs() == fs.sb.Ptrs()
             && j < MaxBlocks(fs.sb.Ptrs())
    requires |fs1.disk| == |r.disk| == |fs.disk| && TreeOk(fs.disk, fs.sb.Ptrs(), own, ino, n.block)
             && Stays(fs, own, fs1, own2, ino)
    requires GetBlock(fs.disk, fs.sb.Ptrs(), n.block, j).Some?
    requires GetBlock(fs1.disk, fs.sb.Ptrs(), n1.block, j) == GetBlock(fs.disk, fs.sb.Ptrs(), n.block, j)
    requires GetBlock(r.disk, fs.sb.Ptrs(), n1.block, j) == GetBlock(fs1.disk, fs.sb.Ptrs(), n1.block, j)
    requires forall b :: b in own2 && b < |fs1.disk| && own2[b].OwnPtr? ==> r.disk[b] == fs1.disk[b]
    ensures BlockAt(r.disk, fs.sb.Ptrs(), n1.block, j) == BlockAt(fs.disk, fs.sb.Ptrs(), n.block, j)
  {
    hide Superblock.Valid, TreeOk, GetBlock, Layout, MaxBlocks, PathOf, IsLeaf, IsPath;
    GetBlockOwned(fs.disk, fs.sb.Ptrs(), own, ino, n.block, j);
  }
}
