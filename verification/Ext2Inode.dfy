/** Inode records of the inode tables (fs/src/ext2/inode.rs:75-143). */
module Ext2Inode {
  import opened Arith
  import opened Bytes
  import opened Bitmap
  import opened Ext2Layout
  import opened Ext2Alloc

  type Slots = s: seq<u32> | |s| == 15 witness [0, 0, 0, 0, 0, 0, 0, 0, 0, 0, 0, 0, 0, 0, 0]

  const NoSlots: Slots := [0, 0, 0, 0, 0, 0, 0, 0, 0, 0, 0, 0, 0, 0, 0]

  datatype Inode = Inode(mode: u16, links: u16, size: u32, blocks: u32, block: Slots, ino: u32)

  const IfReg: int := 0x8000
  const IfDir: int := 0x4000

  /** `mode & 0xF000`. */
  function FileTypeBits(mode: u16): int {
    mode / 0x1000 * 0x1000
  }

  /** Mode and link count. */
  datatype Attrs = Attrs(mode: u16, links: u16)

  function AttrsOf(n: Inode): Attrs { Attrs(n.mode, n.links) }

  predicate IsFile(n: Inode) { FileTypeBits(n.mode) == IfReg }
  predicate IsDir(n: Inode) { FileTypeBits(n.mode) == IfDir }

  // ---------------------------------------------------------------- one record

  function PtrsAt(b: Buf, o: nat): Slots
    requires o + 128 <= |b|
  {
    seq(15, i requires 0 <= i < 15 => U32At(b, o + 40 + 4 * i))
  }

  function InodeAt(b: Buf, o: nat, ino: u32): Inode
    requires o + 128 <= |b|
  {
    Inode(U16At(b, o), U16At(b, o + 26), U32At(b, o + 4), U32At(b, o + 28), PtrsAt(b, o), ino)
  }

  /** The loop that stores the first `k` block pointers. */
  function PutPtrs(b: Buf, o: nat, p: Slots, k: nat): (r: Buf)
    requires o + 128 <= |b| && k <= 15
    ensures |r| == |b|
    ensures forall i :: 0 <= i < k ==> U32At(r, o + 40 + 4 * i) == p[i]
    ensures forall i :: 0 <= i < |b| && !(o + 40 <= i < o + 40 + 4 * k) ==> r[i] == b[i]
  {
    if k == 0 then b
    else
      var c := PutPtrs(b, o, p, k - 1);
      var r := PutU32(c, o + 40 + 4 * (k - 1), p[k - 1]);
      assert forall i :: 0 <= i < k - 1 ==> U32At(r, o + 40 + 4 * i) == U32At(c, o + 40 + 4 * i);
      r
  }

  function PutHead(b: Buf, o: nat, n: Inode): (r: Buf)
    requires o + 128 <= |b|
    ensures |r| == |b|
    ensures U16At(r, o) == n.mode && U16At(r, o + 26) == n.links
    ensures U32At(r, o + 4) == n.size && U32At(r, o + 28) == n.blocks
    ensures forall i :: 0 <= i < |b| && !(o <= i < o + 40) ==> r[i] == b[i]
  {
    PutU32(PutU32(PutU16(PutU16(b, o, n.mode), o + 26, n.links), o + 4, n.size), o + 28, n.blocks)
  }

  /** Inode::write's patch of the record. */
  function PutInode(b: Buf, o: nat, n: Inode): (r: Buf)
    requires o + 128 <= |b|
    ensures |r| == |b|
    ensures InodeAt(r, o, n.ino) == n
    ensures forall i :: 0 <= i < |b| && !(o <= i < o + 128) ==> r[i] == b[i]
  {
    hide PutHead, PutPtrs, PtrsAt, U16At, U32At;
    var h := PutHead(b, o, n);
    var r := PutPtrs(h, o, n.block, 15);
    HeadSame(r, h, o);
    PtrsPut(h, o, n.block);
    r
  }

  lemma PtrsPut(b: Buf, o: nat, p: Slots)
    requires o + 128 <= |b|
    ensures PtrsAt(PutPtrs(b, o, p, 15), o) == p
  {
    hide PutPtrs, U32At;
  }

  lemma HeadSame(a: Buf, b: Buf, o: nat)
    requires |a| == |b| && o + 128 <= |b| && forall i :: o <= i < o + 40 ==> a[i] == b[i]
    ensures U16At(a, o) == U16At(b, o) && U16At(a, o + 26) == U16At(b, o + 26)
    ensures U32At(a, o + 4) == U32At(b, o + 4) && U32At(a, o + 28) == U32At(b, o + 28)
  {
  }

  lemma InodeAtSame(a: Buf, b: Buf, o: nat, ino: u32)
    requires |a| == |b| && o + 128 <= |b| && forall i :: o <= i < o + 128 ==> a[i] == b[i]
    ensures InodeAt(a, o, ino) == InodeAt(b, o, ino)
  {
    HeadSame(a, b, o);
    assert forall i :: 0 <= i < 15 ==> U32At(a, o + 40 + 4 * i) == U32At(b, o + 40 + 4 * i);
    assert PtrsAt(a, o) == PtrsAt(b, o);
  }

  // ---------------------------------------------------------------- the tables

  predicate IsIno(sb: Superblock, ino: nat) {
    InRange(Inodes, sb, ino)
  }

  /** Block of the table that holds inode `ino`, counted from the table's first block. */
  function InoTableIndex(sb: Superblock, ino: nat): nat
    requires ino >= 1 && sb.inodesPerGroup > 0 && sb.BlockSize() > 0
  {
    Div(Mul(BitOfItem(Inodes, sb, ino), sb.inodeSize as int), sb.BlockSize())
  }

  function InoOffset(sb: Superblock, ino: nat): nat
    requires ino >= 1 && sb.inodesPerGroup > 0 && sb.BlockSize() > 0
  {
    Mod(Mul(BitOfItem(Inodes, sb, ino), sb.inodeSize as int), sb.BlockSize())
  }

  lemma InoPlace(sb: Superblock, ino: nat)
    requires sb.Valid() && IsIno(sb, ino)
    ensures sb.BlockSize() > 0
    ensures InoOffset(sb, ino) + 128 <= sb.BlockSize()
    ensures InoTableIndex(sb, ino) < TableBlocks(sb)
  {
    hide Mul, Div, Mod, Superblock.NumGroups;
    var bsz, isz, idx := sb.BlockSize(), sb.inodeSize as int, BitOfItem(Inodes, sb, ino);
    RecordFits(isz, bsz, idx);
    ItemParts(Inodes, sb, ino);
    MulAdd(idx, 1, isz);
    MulOne(isz);
    MulMono(idx + 1, sb.inodesPerGroup as int, isz);
    DivInCeil(Mul(idx, isz), Mul(sb.inodesPerGroup as int, isz), bsz);
  }

  function InoBlock(fs: Fs, ino: nat): nat
    requires Shape(fs) && IsIno(fs.sb, ino)
  {
    ItemParts(Inodes, fs.sb, ino);
    InoPlace(fs.sb, ino);
    fs.bgdt[GroupOf(Inodes, fs.sb, ino)].inodeTable as int + InoTableIndex(fs.sb, ino)
  }

  lemma InoIsU32(sb: Superblock, ino: nat)
    requires sb.Valid() && IsIno(sb, ino)
    ensures ino < 0x1_0000_0000
  {
  }

  /** Inode::read. */
  function ReadInode(fs: Fs, ino: nat): (r: Inode)
    requires Shape(fs) && IsIno(fs.sb, ino)
    ensures r.ino == ino
  {
    InoPlace(fs.sb, ino);
    InoIsU32(fs.sb, ino);
    InodeAt(ReadBlk(fs.disk, fs.sb.BlockSize(), InoBlock(fs, ino)), InoOffset(fs.sb, ino), ino)
  }

  /** Inode::write. */
  function WriteInode(fs: Fs, n: Inode): (r: Fs)
    requires Shape(fs) && IsIno(fs.sb, n.ino as int)
    ensures Shape(r) && r.sb == fs.sb && r.bgdt == fs.bgdt
  {
    InoPlace(fs.sb, n.ino as int);
    var blk := InoBlock(fs, n.ino as int);
    fs.(disk := WriteBlk(fs.disk, blk,
        PutInode(ReadBlk(fs.disk, fs.sb.BlockSize(), blk), InoOffset(fs.sb, n.ino as int), n)))
  }

  lemma InoOwned(fs: Fs, own: Ownership, ino: nat)
    requires Shape(fs) && Layout(fs, own) && IsIno(fs.sb, ino)
    ensures InoBlock(fs, ino) < |fs.disk|
    ensures Owns(own, InoBlock(fs, ino), OwnTable(GroupOf(Inodes, fs.sb, ino), InoTableIndex(fs.sb, ino)))
  {
    hide Superblock.NumGroups, TableBlocks, InoTableIndex;
    ItemParts(Inodes, fs.sb, ino);
    InoPlace(fs.sb, ino);
    assert Owns(own, InoBlock(fs, ino), OwnTable(GroupOf(Inodes, fs.sb, ino), InoTableIndex(fs.sb, ino)));
  }

  /** Two inodes never share bytes: their blocks differ or their records are disjoint. */
  lemma InodesApart(fs: Fs, own: Ownership, i: nat, j: nat)
    requires Shape(fs) && Layout(fs, own) && IsIno(fs.sb, i) && IsIno(fs.sb, j) && i != j
    ensures fs.sb.BlockSize() > 0
    ensures InoBlock(fs, i) == InoBlock(fs, j) ==>
              InoOffset(fs.sb, i) + 128 <= InoOffset(fs.sb, j) || InoOffset(fs.sb, j) + 128 <= InoOffset(fs.sb, i)
  {
    hide Superblock.NumGroups, Mul, Div, Mod, Layout, TableBlocks, InoBlock;
    var sb := fs.sb;
    InoPlace(sb, i);
    InoPlace(sb, j);
    InoOwned(fs, own, i);
    InoOwned(fs, own, j);
    ItemParts(Inodes, sb, i);
    ItemParts(Inodes, sb, j);
    if InoBlock(fs, i) == InoBlock(fs, j) {
      RecordsApart(sb.inodeSize as int, sb.BlockSize(), BitOfItem(Inodes, sb, i), BitOfItem(Inodes, sb, j));
    }
  }

  /** A written inode reads back, and every other inode reads as before. */
  lemma WriteInodeReadBack(fs: Fs, own: Ownership, n: Inode, j: nat)
    requires Shape(fs) && Layout(fs, own) && IsIno(fs.sb, n.ino as int) && IsIno(fs.sb, j)
    ensures ReadInode(WriteInode(fs, n), j) == if j == n.ino as int then n else ReadInode(fs, j)
  {
    hide Layout, Superblock.Valid, PutInode, InodeAt, InoOffset, InoTableIndex;
    var i := n.ino as int;
    InoPlace(fs.sb, i);
    InoPlace(fs.sb, j);
    InoOwned(fs, own, i);
    InoOwned(fs, own, j);
    var r := WriteInode(fs, n);
    var blk, o := InoBlock(fs, i), InoOffset(fs.sb, i);
    assert r.disk == fs.disk[blk := PutInode(fs.disk[blk], o, n)];
    assert InoBlock(r, j) == InoBlock(fs, j);
    if j != i {
      InodesApart(fs, own, i, j);
      if InoBlock(fs, j) == blk {
        InoIsU32(fs.sb, j);
        InodeAtSame(r.disk[blk], fs.disk[blk], InoOffset(fs.sb, j), j);
      }
    }
  }

  // ---------------------------------------------------------------- the allocator's invariant and other writes

  /** Writes outside the allocator's blocks keep its invariant. */
  lemma CoreFrame(fs: Fs, own: Ownership, disk: seq<Buf>)
    requires Core(fs, own) && |disk| == |fs.disk| && DiskShape(disk, fs.sb.BlockSize())
    requires forall b :: b in own && b < |disk| && AllocOwned(own[b]) ==> disk[b] == fs.disk[b]
    ensures Core(fs.(disk := disk), own)
    ensures forall k, i: nat :: Used(fs.(disk := disk), k, i) == Used(fs, k, i)
  {
    hide Padded, Counted, Synced, OwnUsed, Superblock.Valid, GroupOf, BitOfItem;
    var r := fs.(disk := disk);
    assert Shape(r) && Layout(r, own);
    CoreFrameBits(fs, own, disk);
    CoreFrameSynced(fs, own, disk);
  }

  lemma CoreFrameBits(fs: Fs, own: Ownership, disk: seq<Buf>)
    requires Core(fs, own) && |disk| == |fs.disk| && DiskShape(disk, fs.sb.BlockSize())
    requires forall b :: b in own && b < |disk| && AllocOwned(own[b]) ==> disk[b] == fs.disk[b]
    ensures var r := fs.(disk := disk); Shape(r) && OwnUsed(r, own) && Padded(r) && Counted(r)
    ensures forall k, g: nat, i: nat :: BitUsed(fs.(disk := disk), k, g, i) == BitUsed(fs, k, g, i)
  {
    hide Synced, Superblock.Valid, FreeBits, InRange, Item;
    var r := fs.(disk := disk);
    forall k, g | 0 <= g < |fs.bgdt|
      ensures fs.bgdt[g].Bitmap(k) as int < |disk|
              && disk[fs.bgdt[g].Bitmap(k) as int] == fs.disk[fs.bgdt[g].Bitmap(k) as int]
    {
      assert Owns(own, fs.bgdt[g].Bitmap(k) as int, OwnBitmap(k, g));
    }
    assert forall k, g: nat, i: nat :: BitUsed(r, k, g, i) == BitUsed(fs, k, g, i);
    forall b | b in own ensures Used(r, Blocks, b) { assert Used(fs, Blocks, b); }
  }

  lemma CoreFrameSynced(fs: Fs, own: Ownership, disk: seq<Buf>)
    requires Core(fs, own) && |disk| == |fs.disk| && DiskShape(disk, fs.sb.BlockSize())
    requires forall b :: b in own && b < |disk| && AllocOwned(own[b]) ==> disk[b] == fs.disk[b]
    ensures var r := fs.(disk := disk); Shape(r) && Synced(r)
  {
    hide Padded, Counted, OwnUsed, SuperAt, DescAt, DescOffset, DiskDesc, Superblock.NumGroups;
    var r := fs.(disk := disk);
    assert Owns(own, 0, OwnSuper);
    forall g | 0 <= g < |r.bgdt| ensures DiskDesc(r.disk, r.sb, g) == r.bgdt[g] {
      assert Owns(own, DescBlock(fs.sb, g), OwnBgdt);
      DescBlocksSame(r.disk, fs.disk, fs.sb, fs.sb, g);
      assert DiskDesc(fs.disk, fs.sb, g) == fs.bgdt[g];
    }
  }

  lemma WriteInodeCore(fs: Fs, own: Ownership, n: Inode)
    requires Core(fs, own) && IsIno(fs.sb, n.ino as int)
    ensures Core(WriteInode(fs, n), own)
  {
    hide Padded, Counted, OwnUsed, Synced, PutInode, Superblock.Valid, InoOffset, InoTableIndex;
    InoPlace(fs.sb, n.ino as int);
    InoOwned(fs, own, n.ino as int);
    CoreFrame(fs, own, WriteInode(fs, n).disk);
  }

  /** Handing a used, unowned block to an owner, and dropping owners of block map slots. */
  lemma CoreGive(fs: Fs, own: Ownership, b: nat, o: Owner)
    requires Core(fs, own) && b !in own && InRange(Blocks, fs.sb, b) && Used(fs, Blocks, b)
    ensures Core(fs, own[b := o])
  {
    hide Padded, Counted, Synced, Superblock.Valid, BitUsed;
    forall c | c in own[b := o] ensures Used(fs, Blocks, c) { assert c != b ==> Used(fs, Blocks, c); }
  }

  lemma CoreDrop(fs: Fs, own: Ownership, less: Ownership)
    requires Core(fs, own)
    requires forall b :: b in less ==> b in own && less[b] == own[b]
    requires forall b :: b in own && b !in less ==> own[b].OwnPtr?
    ensures Core(fs, less)
  {
    hide Padded, Counted, Synced, Superblock.Valid, BitUsed;
    forall c | c in less ensures Used(fs, Blocks, c) { assert Used(fs, Blocks, c); }
  }
}
