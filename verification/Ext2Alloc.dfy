/** The bitmap allocator of blocks and inodes (fs/src/ext2/bitmap_alloc.rs), who owns which
    block of the volume, and the accounting every allocation and release keeps. */
module Ext2Alloc {
  import opened Arith
  import opened Bytes
  import opened Bitmap
  import opened Ext2Layout

  // ---------------------------------------------------------------- the code

  function MarkBit(bits: Buf, bit: nat, used: bool): (r: Buf)
    requires bit < 8 * |bits|
    ensures |r| == |bits|
  {
    if used then SetBit(bits, bit) else ClearBit(bits, bit)
  }

  function MarkDesc(k: Kind, d: BgDesc, used: bool): BgDesc
    requires used ==> d.Free(k) > 0
  {
    d.WithFree(k, if used then d.Free(k) - 1 else (d.Free(k) as int + 1) % 0x1_0000)
  }

  function MarkSuper(k: Kind, sb: Superblock, used: bool): Superblock {
    sb.WithFree(k, if used then Max(sb.Free(k) as int - 1, 0) else (sb.Free(k) as int + 1) % 0x1_0000_0000)
  }

  /** Superblock::write_free_counts on the volume. */
  function WriteCounts(disk: seq<Buf>, sb: Superblock): (r: seq<Buf>)
    requires 1 <= sb.logBlockSize <= 5 && DiskShape(disk, sb.BlockSize())
    ensures |r| == |disk| && DiskShape(r, sb.BlockSize())
  {
    BlockSizeFacts(sb);
    WriteBlk(disk, 0, PutCounts(ReadBlk(disk, sb.BlockSize(), 0), sb))
  }

  /** What alloc (`used`) and free (`!used`) do to bit `bit` of group `g`: patch the bitmap
      block, the group's count and descriptor, the superblock's count, in that order. */
  function Mark(k: Kind, fs: Fs, g: nat, bit: nat, used: bool): (r: Fs)
    requires Shape(fs) && g < |fs.bgdt| && bit < 8 * fs.sb.BlockSize()
    requires used ==> fs.bgdt[g].Free(k) > 0
    ensures DiskShape(r.disk, fs.sb.BlockSize()) && |r.disk| == |fs.disk|
    ensures r.sb == MarkSuper(k, fs.sb, used) && r.bgdt == fs.bgdt[g := MarkDesc(k, fs.bgdt[g], used)]
  {
    var bm := fs.bgdt[g].Bitmap(k) as int;
    var disk1 := WriteBlk(fs.disk, bm, MarkBit(ReadBlk(fs.disk, fs.sb.BlockSize(), bm), bit, used));
    var desc := MarkDesc(k, fs.bgdt[g], used);
    var disk2 := WriteDesc(disk1, fs.sb, g, desc);
    var sb := MarkSuper(k, fs.sb, used);
    assert sb.BlockSize() == fs.sb.BlockSize();
    Fs(WriteCounts(disk2, sb), sb, fs.bgdt[g := desc])
  }

  /** Number of the item behind bit `bit` of group `g`: inode numbers are 1-based. */
  function Item(k: Kind, sb: Superblock, g: nat, bit: nat): nat {
    Mul(g, sb.PerGroup(k) as int) + bit + if k.Inodes? then 1 else 0
  }

  /** alloc_block and alloc_inode from group `g` on. */
  function AllocFrom(k: Kind, fs: Fs, g: nat): (r: (Fs, Option<nat>))
    requires Shape(fs) && g <= |fs.bgdt|
    ensures Shape(r.0) && |r.0.disk| == |fs.disk| && r.0.sb.BlockSize() == fs.sb.BlockSize()
            && SameGeometry(fs.sb, r.0.sb)
    decreases |fs.bgdt| - g
  {
    if g == |fs.bgdt| then (fs, None)
    else if fs.bgdt[g].Free(k) == 0 then AllocFrom(k, fs, g + 1)
    else
      match FirstFree(ReadBlk(fs.disk, fs.sb.BlockSize(), fs.bgdt[g].Bitmap(k) as int), 0)
      case None => AllocFrom(k, fs, g + 1)
      case Some(bit) =>
        var r := Mark(k, fs, g, bit, true);
        DerivedKept(fs.sb, r.sb);
        (r, Some(Item(k, fs.sb, g, bit)))
  }

  function Alloc(k: Kind, fs: Fs): (r: (Fs, Option<nat>))
    requires Shape(fs)
    ensures Shape(r.0) && |r.0.disk| == |fs.disk| && r.0.sb.BlockSize() == fs.sb.BlockSize()
            && SameGeometry(fs.sb, r.0.sb)
  {
    AllocFrom(k, fs, 0)
  }

  function GroupOf(k: Kind, sb: Superblock, item: nat): nat
    requires sb.PerGroup(k) > 0 && (k.Inodes? ==> item >= 1)
  {
    Div(if k.Inodes? then item - 1 else item, sb.PerGroup(k) as int)
  }

  function BitOfItem(k: Kind, sb: Superblock, item: nat): nat
    requires sb.PerGroup(k) > 0 && (k.Inodes? ==> item >= 1)
  {
    Mod(if k.Inodes? then item - 1 else item, sb.PerGroup(k) as int)
  }

  /** The items the volume has: the block numbers below blocks_count, the inode numbers of all groups. */
  predicate InRange(k: Kind, sb: Superblock, item: nat) {
    if k.Blocks? then item < sb.blocksCount as int
    else sb.blocksPerGroup > 0 && 1 <= item <= Mul(sb.NumGroups(), sb.inodesPerGroup as int)
  }

  lemma ItemParts(k: Kind, sb: Superblock, item: nat)
    requires sb.Valid() && InRange(k, sb, item)
    ensures GroupOf(k, sb, item) < sb.NumGroups()
    ensures BitOfItem(k, sb, item) < sb.PerGroup(k) as int
    ensures Item(k, sb, GroupOf(k, sb, item), BitOfItem(k, sb, item)) == item
  {
    var per := sb.PerGroup(k) as int;
    var x := if k.Inodes? then item - 1 else item;
    if k.Blocks? { CeilCovers(sb.blocksCount as int, per); }
    DivBelow(x, sb.NumGroups(), per);
    DivMod(x, per);
  }

  lemma PartsOfItem(k: Kind, sb: Superblock, g: nat, bit: nat)
    requires sb.PerGroup(k) > 0 && bit < sb.PerGroup(k) as int
    ensures GroupOf(k, sb, Item(k, sb, g, bit)) == g && BitOfItem(k, sb, Item(k, sb, g, bit)) == bit
  {
    DivModOf(g, sb.PerGroup(k) as int, bit);
  }

  /** free_block and free_inode. */
  function Release(k: Kind, fs: Fs, item: nat): (r: Fs)
    requires Shape(fs) && InRange(k, fs.sb, item)
    ensures Shape(r) && |r.disk| == |fs.disk| && r.sb.BlockSize() == fs.sb.BlockSize() && SameGeometry(fs.sb, r.sb)
  {
    ItemParts(k, fs.sb, item);
    DerivedKept(fs.sb, MarkSuper(k, fs.sb, false));
    Mark(k, fs, GroupOf(k, fs.sb, item), BitOfItem(k, fs.sb, item), false)
  }

  // ---------------------------------------------------------------- ownership and invariants

  /** The one thing a block of the volume is used for. A block map slot is named by its inode
      and its path: the slot of i_block, then the index taken in each index block. */
  datatype Owner =
    | OwnSuper
    | OwnBgdt
    | OwnBitmap(kind: Kind, g: nat)
    | OwnTable(g: nat, i: nat)
    | OwnPtr(ino: nat, path: seq<nat>)

  type Ownership = map<nat, Owner>

  /** Blocks that only the allocator writes. */
  predicate AllocOwned(o: Owner) {
    o.OwnSuper? || o.OwnBgdt? || o.OwnBitmap?
  }

  function TableBlocks(sb: Superblock): nat
    requires sb.BlockSize() > 0
  {
    CeilDiv(Mul(sb.inodesPerGroup as int, sb.inodeSize as int), sb.BlockSize())
  }

  ghost predicate Owns(own: Ownership, b: nat, o: Owner) {
    b in own && own[b] == o
  }

  /** The fixed metadata is where the superblock and the descriptors say, each block with one role. */
  ghost predicate Layout(fs: Fs, own: Ownership)
    requires Shape(fs)
  {
    && Owns(own, 0, OwnSuper)
    && (forall g :: 0 <= g < |fs.bgdt| ==> Owns(own, DescBlock(fs.sb, g), OwnBgdt))
    && (forall k, g {:trigger OwnBitmap(k, g)} :: 0 <= g < |fs.bgdt| ==>
       Owns(own, fs.bgdt[g].Bitmap(k) as int, OwnBitmap(k, g)))
    && (forall g, i {:trigger OwnTable(g, i)} :: 0 <= g < |fs.bgdt| && 0 <= i < TableBlocks(fs.sb) ==>
          Owns(own, fs.bgdt[g].inodeTable as int + i, OwnTable(g, i)))
    && (forall b :: b in own ==> b < |fs.disk|)
  }

  function BitmapOf(fs: Fs, k: Kind, g: nat): Buf
    requires g < |fs.bgdt| && fs.bgdt[g].Bitmap(k) as int < |fs.disk|
  {
    fs.disk[fs.bgdt[g].Bitmap(k) as int]
  }

  ghost predicate BitUsed(fs: Fs, k: Kind, g: nat, i: nat) {
    && g < |fs.bgdt| && fs.bgdt[g].Bitmap(k) as int < |fs.disk|
    && i < 8 * |BitmapOf(fs, k, g)| && Bit(BitmapOf(fs, k, g), i)
  }

  ghost predicate Used(fs: Fs, k: Kind, item: nat) {
    && fs.sb.PerGroup(k) > 0 && (k.Inodes? ==> item >= 1)
    && BitUsed(fs, k, GroupOf(k, fs.sb, item), BitOfItem(k, fs.sb, item))
  }

  /** Every owned block is marked used. */
  ghost predicate OwnUsed(fs: Fs, own: Ownership) {
    forall b {:trigger Used(fs, Blocks, b)} :: b in own ==> Used(fs, Blocks, b)
  }

  /** Bits that stand for no block or inode are set. */
  ghost predicate Padded(fs: Fs)
    requires Shape(fs)
  {
    forall k, g, i :: 0 <= g < |fs.bgdt| && 0 <= i < 8 * fs.sb.BlockSize() && !BitUsed(fs, k, g, i) ==>
      i < fs.sb.PerGroup(k) as int && InRange(k, fs.sb, Item(k, fs.sb, g, i))
  }

  ghost function SumFree(k: Kind, t: seq<BgDesc>): nat {
    if t == [] then 0 else SumFree(k, t[..|t| - 1]) + t[|t| - 1].Free(k) as int
  }

  /** Each group's count is its number of zero bits and the superblock's count is their sum. */
  ghost predicate Counted(fs: Fs) {
    && (forall k, g :: 0 <= g < |fs.bgdt| ==>
          && fs.bgdt[g].Bitmap(k) as int < |fs.disk|
          && fs.bgdt[g].Free(k) as int == |FreeBits(BitmapOf(fs, k, g))|)
    && (forall k :: fs.sb.Free(k) as int == SumFree(k, fs.bgdt))
  }

  /** Mounting again would read back the superblock and the descriptors held in memory. */
  ghost predicate Synced(fs: Fs)
    requires Shape(fs)
  {
    && 2048 <= fs.sb.BlockSize()
    && SuperAt(fs.disk[0]) == Some(fs.sb)
    && forall g :: 0 <= g < |fs.bgdt| ==> DiskDesc(fs.disk, fs.sb, g) == fs.bgdt[g]
  }

  ghost predicate Core(fs: Fs, own: Ownership) {
    && Shape(fs)
    && Layout(fs, own)
    && OwnUsed(fs, own)
    && Padded(fs)
    && Counted(fs)
    && Synced(fs)
  }

  // ---------------------------------------------------------------- what one mark does

  lemma {:induction false} SumFreeUpdate(k: Kind, t: seq<BgDesc>, g: nat, d: BgDesc)
    requires g < |t|
    ensures SumFree(k, t[g := d]) == SumFree(k, t) - t[g].Free(k) as int + d.Free(k) as int
  {
    var u := t[g := d];
    if g < |t| - 1 {
      assert u[..|t| - 1] == t[..|t| - 1][g := d];
      SumFreeUpdate(k, t[..|t| - 1], g, d);
    } else {
      assert u[..|t| - 1] == t[..|t| - 1];
    }
  }

  lemma {:induction false} SumFreeAtLeast(k: Kind, t: seq<BgDesc>, g: nat)
    requires g < |t|
    ensures SumFree(k, t) >= t[g].Free(k) as int
  {
    if g < |t| - 1 { SumFreeAtLeast(k, t[..|t| - 1], g); }
  }

  lemma {:induction false} SumFreeAtMost(k: Kind, t: seq<BgDesc>, per: nat)
    requires forall g :: 0 <= g < |t| ==> t[g].Free(k) as int <= per
    ensures SumFree(k, t) <= Mul(|t|, per)
    ensures forall g :: 0 <= g < |t| && t[g].Free(k) as int < per ==> SumFree(k, t) < Mul(|t|, per)
  {
    if t != [] { SumFreeAtMost(k, t[..|t| - 1], per); }
  }

  lemma {:induction false} SumFreeZero(k: Kind, t: seq<BgDesc>)
    requires forall g :: 0 <= g < |t| ==> t[g].Free(k) == 0
    ensures SumFree(k, t) == 0
  {
    if t != [] { SumFreeZero(k, t[..|t| - 1]); }
  }

  /** When the allocator may mark the bit: it changes value, it stands for an item if it is
      released, and a released block is not owned by anything. */
  ghost predicate CanMark(k: Kind, fs: Fs, own: Ownership, g: nat, bit: nat, used: bool) {
    && Core(fs, own)
    && g < |fs.bgdt| && bit < 8 * fs.sb.BlockSize()
    && BitUsed(fs, k, g, bit) == !used
    && (!used ==>
          && bit < fs.sb.PerGroup(k) as int && InRange(k, fs.sb, Item(k, fs.sb, g, bit))
          && (k.Blocks? ==> Item(k, fs.sb, g, bit) !in own))
  }

  lemma FreeBitCounts(k: Kind, fs: Fs, g: nat, bit: nat)
    requires Shape(fs) && Counted(fs) && Padded(fs) && g < |fs.bgdt|
    ensures fs.bgdt[g].Free(k) as int <= fs.sb.PerGroup(k) as int
    ensures bit < 8 * fs.sb.BlockSize() && !BitUsed(fs, k, g, bit) ==> fs.bgdt[g].Free(k) > 0
    ensures bit < fs.sb.PerGroup(k) as int && BitUsed(fs, k, g, bit) ==>
              fs.bgdt[g].Free(k) as int < fs.sb.PerGroup(k) as int && fs.bgdt[g].Free(k) as int + 1 < 0x1_0000
    ensures fs.bgdt[g].Free(k) as int <= fs.sb.Free(k) as int
  {
    var per := fs.sb.PerGroup(k) as int;
    var bm := BitmapOf(fs, k, g);
    var free := FreeBits(bm);
    forall i | i in free ensures i < per { assert !BitUsed(fs, k, g, i); }
    BelowCard(free, per);
    if bit < 8 * fs.sb.BlockSize() && !BitUsed(fs, k, g, bit) {
      assert bit in free;
    }
    if bit < per && BitUsed(fs, k, g, bit) {
      assert bit !in free;
      BelowCard(free + {bit}, per);
    }
    SumFreeAtLeast(k, fs.bgdt, g);
  }

  lemma {:induction false} BelowCard(s: set<nat>, n: nat)
    requires forall i :: i in s ==> i < n
    ensures |s| <= n
  {
    if n > 0 {
      BelowCard(s - {n - 1}, n - 1);
      assert |s| <= |s - {n - 1}| + 1;
    } else {
      assert s == {};
    }
  }

  /** A mark rewrites exactly three blocks: the bitmap, the descriptor's block, the superblock's. */
  lemma MarkWrites(k: Kind, fs: Fs, own: Ownership, g: nat, bit: nat, used: bool)
    requires CanMark(k, fs, own, g, bit, used)
    requires used ==> fs.bgdt[g].Free(k) > 0
    ensures var r := Mark(k, fs, g, bit, used);
            var bm := fs.bgdt[g].Bitmap(k) as int;
            && bm < |fs.disk| && DescBlock(fs.sb, g) < |fs.disk| && 2048 <= fs.sb.BlockSize()
            && bm != 0 && bm != DescBlock(fs.sb, g) && DescBlock(fs.sb, g) != 0
            && DescOffset(fs.sb, g) + 32 <= fs.sb.BlockSize()
            && r.disk == fs.disk[bm := MarkBit(fs.disk[bm], bit, used)]
                                [DescBlock(fs.sb, g) :=
                                    PutDesc(fs.disk[DescBlock(fs.sb, g)], DescOffset(fs.sb, g), r.bgdt[g])]
                                [0 := PutCounts(fs.disk[0], r.sb)]
  {
    hide Padded, Counted, Synced, OwnUsed, MarkBit, PutDesc, PutCounts, Superblock.NumGroups;
    DescFits(fs.sb, g);
    BlockSizeFacts(fs.sb);
    assert Owns(own, fs.bgdt[g].Bitmap(k) as int, OwnBitmap(k, g));
    assert Owns(own, DescBlock(fs.sb, g), OwnBgdt);
    assert Owns(own, 0, OwnSuper);
  }

  ghost predicate SameStatic(fs: Fs, r: Fs) {
    && |r.disk| == |fs.disk| && |r.bgdt| == |fs.bgdt|
    && SameGeometry(fs.sb, r.sb)
    && forall g :: 0 <= g < |fs.bgdt| ==>
         && r.bgdt[g].blockBitmap == fs.bgdt[g].blockBitmap
         && r.bgdt[g].inodeBitmap == fs.bgdt[g].inodeBitmap
         && r.bgdt[g].inodeTable == fs.bgdt[g].inodeTable
  }

  lemma DerivedKept(sb: Superblock, r: Superblock)
    requires sb.Valid() && SameGeometry(sb, r)
    ensures r.Valid() && r.BlockSize() == sb.BlockSize() && r.NumGroups() == sb.NumGroups()
    ensures TableBlocks(r) == TableBlocks(sb)
    ensures forall g: nat :: DescBlock(r, g) == DescBlock(sb, g) && DescOffset(r, g) == DescOffset(sb, g)
  {
  }

  lemma LayoutKept(fs: Fs, r: Fs, own: Ownership)
    requires Shape(fs) && Layout(fs, own) && SameStatic(fs, r) && DiskShape(r.disk, fs.sb.BlockSize())
    ensures Shape(r) && Layout(r, own)
  {
    DerivedKept(fs.sb, r.sb);
    assert forall k, g :: 0 <= g < |fs.bgdt| ==> r.bgdt[g].Bitmap(k) == fs.bgdt[g].Bitmap(k);
  }

  lemma MarkShape(k: Kind, fs: Fs, own: Ownership, g: nat, bit: nat, used: bool)
    requires CanMark(k, fs, own, g, bit, used)
    requires used ==> fs.bgdt[g].Free(k) > 0
    ensures var r := Mark(k, fs, g, bit, used); SameStatic(fs, r) && Shape(r) && Layout(r, own)
  {
    hide Mark, Padded, Counted, Synced, OwnUsed, Layout;
    var r := Mark(k, fs, g, bit, used);
    LayoutKept(fs, r, own);
  }

  /** Only the marked bit changes. */
  lemma MarkBits(k: Kind, fs: Fs, own: Ownership, g: nat, bit: nat, used: bool)
    requires CanMark(k, fs, own, g, bit, used)
    requires used ==> fs.bgdt[g].Free(k) > 0
    ensures var r := Mark(k, fs, g, bit, used);
            forall k2, h: nat, i: nat :: BitUsed(r, k2, h, i) ==
              if k2 == k && h == g && i == bit then used else BitUsed(fs, k2, h, i)
  {
    hide Mark, Padded, Counted, Synced, OwnUsed, Superblock.Valid, Layout;
    var r := Mark(k, fs, g, bit, used);
    MarkShape(k, fs, own, g, bit, used);
    forall k2, h: nat, i: nat
      ensures BitUsed(r, k2, h, i) == if k2 == k && h == g && i == bit then used else BitUsed(fs, k2, h, i)
    {
      if 0 <= h < |fs.bgdt| {
        BitmapAfterMark(k, fs, own, g, bit, used, k2, h);
      }
    }
  }

  lemma BitmapAfterMark(k: Kind, fs: Fs, own: Ownership, g: nat, bit: nat, used: bool, k2: Kind, h: nat)
    requires CanMark(k, fs, own, g, bit, used)
    requires used ==> fs.bgdt[g].Free(k) > 0
    requires h < |fs.bgdt|
    ensures var r := Mark(k, fs, g, bit, used);
            && r.bgdt[h].Bitmap(k2) == fs.bgdt[h].Bitmap(k2)
            && fs.bgdt[h].Bitmap(k2) as int < |fs.disk|
            && BitmapOf(r, k2, h) == if k2 == k && h == g then
                 MarkBit(BitmapOf(fs, k, g), bit, used)
               else BitmapOf(fs, k2, h)
  {
    hide Mark, MarkBit, PutDesc, PutCounts, Padded, Counted, Synced, OwnUsed, Superblock.Valid;
    var r := Mark(k, fs, g, bit, used);
    MarkWrites(k, fs, own, g, bit, used);
    MarkShape(k, fs, own, g, bit, used);
    assert Owns(own, fs.bgdt[h].Bitmap(k2) as int, OwnBitmap(k2, h));
    assert Owns(own, fs.bgdt[g].Bitmap(k) as int, OwnBitmap(k, g));
    assert Owns(own, DescBlock(fs.sb, g), OwnBgdt);
  }

  lemma GroupCountAfterMark(k: Kind, fs: Fs, own: Ownership, g: nat, bit: nat, used: bool, k2: Kind, h: nat)
    requires CanMark(k, fs, own, g, bit, used)
    requires used ==> fs.bgdt[g].Free(k) > 0
    requires h < |fs.bgdt|
    ensures var r := Mark(k, fs, g, bit, used);
            && r.bgdt[h].Bitmap(k2) as int < |r.disk|
            && r.bgdt[h].Free(k2) as int == |FreeBits(BitmapOf(r, k2, h))|
  {
    hide Mark, Padded, Synced, OwnUsed, Superblock.Valid, SetBit, ClearBit, FreeBits, Layout;
    BitmapAfterMark(k, fs, own, g, bit, used, k2, h);
    BitmapAfterMark(k, fs, own, g, bit, used, k, g);
    FreeBitCounts(k, fs, g, bit);
    FreeBitsUpdate(BitmapOf(fs, k, g), bit);
  }

  lemma MarkCounted(k: Kind, fs: Fs, own: Ownership, g: nat, bit: nat, used: bool)
    requires CanMark(k, fs, own, g, bit, used)
    requires used ==> fs.bgdt[g].Free(k) > 0
    ensures Counted(Mark(k, fs, g, bit, used))
  {
    hide Mark, Padded, Synced, OwnUsed, Superblock.Valid, FreeBits, Layout, BitmapOf, BitUsed, SumFree;
    var r := Mark(k, fs, g, bit, used);
    forall k2, h | 0 <= h < |fs.bgdt|
      ensures r.bgdt[h].Bitmap(k2) as int < |r.disk| && r.bgdt[h].Free(k2) as int == |FreeBits(BitmapOf(r, k2, h))|
    {
      GroupCountAfterMark(k, fs, own, g, bit, used, k2, h);
    }
    FreeBitCounts(k, fs, g, bit);
    if !used { SumFreeBound(k, fs, g, bit); }
    forall k2 ensures r.sb.Free(k2) as int == SumFree(k2, r.bgdt) {
      SumFreeUpdate(k2, fs.bgdt, g, r.bgdt[g]);
    }
  }

  /** The sum of the group counts fits the superblock's 32-bit field, one more included. */
  lemma SumFreeBound(k: Kind, fs: Fs, g: nat, bit: nat)
    requires Shape(fs) && Counted(fs) && Padded(fs) && g < |fs.bgdt|
    requires bit < fs.sb.PerGroup(k) as int && BitUsed(fs, k, g, bit)
    ensures fs.sb.Free(k) as int + 1 < 0x1_0000_0000
  {
    hide Padded, Superblock.NumGroups;
    forall h | 0 <= h < |fs.bgdt| ensures fs.bgdt[h].Free(k) as int <= fs.sb.PerGroup(k) as int {
      FreeBitCounts(k, fs, h, 0);
    }
    FreeBitCounts(k, fs, g, bit);
    SumFreeAtMost(k, fs.bgdt, fs.sb.PerGroup(k) as int);
    assert fs.sb.Free(k) as int < Mul(|fs.bgdt|, fs.sb.PerGroup(k) as int);
  }

  lemma MarkSynced(k: Kind, fs: Fs, own: Ownership, g: nat, bit: nat, used: bool)
    requires CanMark(k, fs, own, g, bit, used)
    requires used ==> fs.bgdt[g].Free(k) > 0
    ensures var r := Mark(k, fs, g, bit, used); Shape(r) && Synced(r)
  {
    hide Mark, MarkBit, PutDesc, PutCounts, SuperAt, DiskDesc, WriteDesc, Padded, Counted, OwnUsed,
         Superblock.NumGroups;
    var r := Mark(k, fs, g, bit, used);
    MarkWrites(k, fs, own, g, bit, used);
    MarkShape(k, fs, own, g, bit, used);
    assert SuperAt(fs.disk[0]) == Some(fs.sb);
    PutCountsReadBack(fs.disk[0], r.sb);
    forall h | 0 <= h < |r.bgdt| ensures DiskDesc(r.disk, r.sb, h) == r.bgdt[h] {
      DescAfterMark(k, fs, own, g, bit, used, h);
    }
  }

  lemma DescAfterMark(k: Kind, fs: Fs, own: Ownership, g: nat, bit: nat, used: bool, h: nat)
    requires CanMark(k, fs, own, g, bit, used)
    requires used ==> fs.bgdt[g].Free(k) > 0
    requires h < |fs.bgdt|
    ensures var r := Mark(k, fs, g, bit, used);
            Shape(r) && DiskDesc(r.disk, r.sb, h) == r.bgdt[h]
  {
    hide Mark, MarkBit, PutDesc, PutCounts, DescAt, SuperAt, Padded, Counted, OwnUsed, Superblock.NumGroups,
         DescOffset;
    var r := Mark(k, fs, g, bit, used);
    MarkWrites(k, fs, own, g, bit, used);
    MarkShape(k, fs, own, g, bit, used);
    var bm := fs.bgdt[g].Bitmap(k) as int;
    var d1 := fs.disk[bm := MarkBit(fs.disk[bm], bit, used)];
    assert Owns(own, DescBlock(fs.sb, h), OwnBgdt);
    assert Owns(own, DescBlock(fs.sb, g), OwnBgdt);
    assert Owns(own, bm, OwnBitmap(k, g));
    WriteDescReadBack(d1, fs.sb, g, r.bgdt[g], h);
    assert DiskDesc(fs.disk, fs.sb, h) == fs.bgdt[h];
    DerivedKept(fs.sb, r.sb);
    DescBlocksSame(r.disk, WriteDesc(d1, fs.sb, g, r.bgdt[g]), fs.sb, r.sb, h);
    DescBlocksSame(d1, fs.disk, fs.sb, fs.sb, h);
  }

  lemma DescBlocksSame(a: seq<Buf>, b: seq<Buf>, sb: Superblock, r: Superblock, h: nat)
    requires sb.Valid() && SameGeometry(sb, r)
    requires DiskShape(a, sb.BlockSize()) && DiskShape(b, sb.BlockSize())
    requires |a| == |b| && DescBlock(sb, h) < |a| && a[DescBlock(sb, h)] == b[DescBlock(sb, h)]
    ensures r.BlockSize() == sb.BlockSize() && DiskDesc(a, r, h) == DiskDesc(b, sb, h)
  {
    hide DescAt, Superblock.NumGroups;
    DerivedKept(sb, r);
  }

  lemma MarkOwnUsed(k: Kind, fs: Fs, own: Ownership, g: nat, bit: nat, used: bool)
    requires CanMark(k, fs, own, g, bit, used)
    requires used ==> fs.bgdt[g].Free(k) > 0
    ensures OwnUsed(Mark(k, fs, g, bit, used), own)
  {
    hide Mark, Counted, Synced, Padded, Superblock.NumGroups, BitUsed, Superblock.BlockSize;
    var r := Mark(k, fs, g, bit, used);
    MarkBits(k, fs, own, g, bit, used);
    forall b | b in own ensures Used(r, Blocks, b) {
      assert Used(fs, Blocks, b);
      ItemParts(Blocks, fs.sb, b);
    }
  }

  lemma MarkPadded(k: Kind, fs: Fs, own: Ownership, g: nat, bit: nat, used: bool)
    requires CanMark(k, fs, own, g, bit, used)
    requires used ==> fs.bgdt[g].Free(k) > 0
    ensures Shape(Mark(k, fs, g, bit, used)) && Padded(Mark(k, fs, g, bit, used))
  {
    hide Mark, Counted, Synced, OwnUsed, Layout, BitUsed, Superblock.Valid;
    var r := Mark(k, fs, g, bit, used);
    MarkShape(k, fs, own, g, bit, used);
    MarkBits(k, fs, own, g, bit, used);
    DerivedKept(fs.sb, r.sb);
  }

  /** The accounting theorem, one mark: every invariant of the allocator is kept. */
  lemma MarkCore(k: Kind, fs: Fs, own: Ownership, g: nat, bit: nat, used: bool)
    requires CanMark(k, fs, own, g, bit, used)
    ensures used ==> fs.bgdt[g].Free(k) > 0
    ensures Core(Mark(k, fs, g, bit, used), own)
  {
    hide Mark, Counted, Synced, OwnUsed, Padded, Layout, BitUsed, Shape;
    FreeBitCounts(k, fs, g, bit);
    MarkShape(k, fs, own, g, bit, used);
    MarkOwnUsed(k, fs, own, g, bit, used);
    MarkPadded(k, fs, own, g, bit, used);
    MarkCounted(k, fs, own, g, bit, used);
    MarkSynced(k, fs, own, g, bit, used);
  }

  /** Only blocks written by the allocator alone differ. */
  ghost predicate MetaOnly(d: seq<Buf>, r: seq<Buf>, own: Ownership) {
    && |r| == |d|
    && forall b :: 0 <= b < |d| && r[b] != d[b] ==> b in own && AllocOwned(own[b])
  }

  lemma MarkFrame(k: Kind, fs: Fs, own: Ownership, g: nat, bit: nat, used: bool)
    requires CanMark(k, fs, own, g, bit, used)
    requires used ==> fs.bgdt[g].Free(k) > 0
    ensures MetaOnly(fs.disk, Mark(k, fs, g, bit, used).disk, own)
  {
    hide Mark, MarkBit, PutDesc, PutCounts, Counted, Synced, OwnUsed, Padded, Superblock.Valid, DescBlock, DescOffset;
    MarkWrites(k, fs, own, g, bit, used);
    assert Owns(own, fs.bgdt[g].Bitmap(k) as int, OwnBitmap(k, g));
    assert Owns(own, DescBlock(fs.sb, g), OwnBgdt);
    assert Owns(own, 0, OwnSuper);
  }

  // ---------------------------------------------------------------- alloc and free

  /** `item` alone changed hands: it became used or free, its counts moved by one, and nothing
      but the allocator's own blocks was written. */
  ghost predicate Moved(k: Kind, fs: Fs, r: Fs, own: Ownership, item: nat, used: bool) {
    && Shape(fs) && Core(r, own) && SameStatic(fs, r) && MetaOnly(fs.disk, r.disk, own)
    && InRange(k, fs.sb, item) && Used(fs, k, item) == !used
    && (forall k2, i: nat :: InRange(k2, fs.sb, i) ==>
          Used(r, k2, i) == if k2 == k && i == item then used else Used(fs, k2, i))
    && r.sb.Free(k) as int == fs.sb.Free(k) as int + (if used then -1 else 1)
    && (forall k2 :: k2 != k ==> r.sb.Free(k2) == fs.sb.Free(k2))
  }

  lemma UsedAfterMark(k: Kind, fs: Fs, own: Ownership, g: nat, bit: nat, used: bool, k2: Kind, i: nat)
    requires CanMark(k, fs, own, g, bit, used)
    requires used ==> fs.bgdt[g].Free(k) > 0
    requires bit < fs.sb.PerGroup(k) as int && InRange(k2, fs.sb, i)
    ensures Used(Mark(k, fs, g, bit, used), k2, i) ==
              if k2 == k && i == Item(k, fs.sb, g, bit) then used else Used(fs, k2, i)
  {
    hide Mark, Counted, Synced, OwnUsed, Padded, Layout, BitUsed, Superblock.Valid, Superblock.BlockSize, Item,
         GroupOf, BitOfItem;
    var r := Mark(k, fs, g, bit, used);
    MarkBits(k, fs, own, g, bit, used);
    PartsOfItem(k, fs.sb, g, bit);
    ItemParts(k2, fs.sb, i);
    SameParts(k2, fs.sb, r.sb, i);
  }

  lemma MarkMoves(k: Kind, fs: Fs, own: Ownership, g: nat, bit: nat, used: bool)
    requires CanMark(k, fs, own, g, bit, used)
    ensures used ==> fs.bgdt[g].Free(k) > 0
    ensures Moved(k, fs, Mark(k, fs, g, bit, used), own, Item(k, fs.sb, g, bit), used)
  {
    hide Mark, Core, Used, Superblock.Valid, Superblock.BlockSize, Item, SameStatic, MetaOnly;
    MarkItem(k, fs, own, g, bit, used);
    var r, item := Mark(k, fs, g, bit, used), Item(k, fs.sb, g, bit);
    MarkCore(k, fs, own, g, bit, used);
    MarkShape(k, fs, own, g, bit, used);
    MarkFrame(k, fs, own, g, bit, used);
    forall k2, i: nat | InRange(k2, fs.sb, i)
      ensures Used(r, k2, i) == if k2 == k && i == item then used else Used(fs, k2, i)
    {
      UsedAfterMark(k, fs, own, g, bit, used, k2, i);
    }
  }

  /** The bit to mark stands for an item in the other state, and its counts have room. */
  lemma MarkItem(k: Kind, fs: Fs, own: Ownership, g: nat, bit: nat, used: bool)
    requires CanMark(k, fs, own, g, bit, used)
    ensures Shape(fs) && (used ==> fs.bgdt[g].Free(k) > 0)
    ensures bit < fs.sb.PerGroup(k) as int && InRange(k, fs.sb, Item(k, fs.sb, g, bit))
    ensures Used(fs, k, Item(k, fs.sb, g, bit)) == !used
    ensures MarkSuper(k, fs.sb, used).Free(k) as int == fs.sb.Free(k) as int + (if used then -1 else 1)
  {
    hide Synced, OwnUsed, Layout, Superblock.NumGroups, Item, GroupOf, BitOfItem;
    FreeBitCounts(k, fs, g, bit);
    PartsOfItem(k, fs.sb, g, bit);
    if !used { SumFreeBound(k, fs, g, bit); }
  }

  lemma SameParts(k: Kind, sb: Superblock, r: Superblock, i: nat)
    requires sb.PerGroup(k) == r.PerGroup(k) > 0 && (k.Inodes? ==> i >= 1)
    ensures GroupOf(k, sb, i) == GroupOf(k, r, i) && BitOfItem(k, sb, i) == BitOfItem(k, r, i)
  {
  }

  /** alloc_block and alloc_inode: they fail, changing nothing, exactly when the superblock
      counts no free item; otherwise they hand out one item that was free. */
  lemma AllocSpec(k: Kind, fs: Fs, own: Ownership)
    requires Core(fs, own)
    ensures var (r, o) := Alloc(k, fs);
            && (o.None? <==> fs.sb.Free(k) == 0)
            && (o.None? ==> r == fs)
            && (o.Some? ==> Moved(k, fs, r, own, o.value, true))
  {
    AllocFromSpec(k, fs, own, 0);
    if forall h :: 0 <= h < |fs.bgdt| ==> fs.bgdt[h].Free(k) == 0 {
      SumFreeZero(k, fs.bgdt);
    } else {
      var h :| 0 <= h < |fs.bgdt| && fs.bgdt[h].Free(k) != 0;
      SumFreeAtLeast(k, fs.bgdt, h);
    }
  }

  lemma {:induction false} AllocFromSpec(k: Kind, fs: Fs, own: Ownership, g: nat)
    requires Core(fs, own) && g <= |fs.bgdt|
    ensures var (r, o) := AllocFrom(k, fs, g);
            && (o.None? <==> forall h :: g <= h < |fs.bgdt| ==> fs.bgdt[h].Free(k) == 0)
            && (o.None? ==> r == fs)
            && (o.Some? ==> Moved(k, fs, r, own, o.value, true))
    decreases |fs.bgdt| - g
  {
    hide Synced, OwnUsed, Padded, Moved, Mark, FirstFree, Superblock.Valid;
    if g < |fs.bgdt| {
      if fs.bgdt[g].Free(k) == 0 {
        AllocFromSpec(k, fs, own, g + 1);
      } else {
        assert Owns(own, fs.bgdt[g].Bitmap(k) as int, OwnBitmap(k, g));
        HasFreeBit(k, fs, g);
        MarkMoves(k, fs, own, g, FirstFree(BitmapOf(fs, k, g), 0).value, true);
      }
    }
  }

  lemma HasFreeBit(k: Kind, fs: Fs, g: nat)
    requires Shape(fs) && Counted(fs) && g < |fs.bgdt| && fs.bgdt[g].Free(k) > 0
    ensures var o := FirstFree(BitmapOf(fs, k, g), 0); o.Some? && !BitUsed(fs, k, g, o.value)
  {
    var free := FreeBits(BitmapOf(fs, k, g));
    assert free != {};
    var i :| i in free;
    assert !Bit(BitmapOf(fs, k, g), i);
  }

  /** free_block and free_inode. */
  lemma ReleaseSpec(k: Kind, fs: Fs, own: Ownership, item: nat)
    requires Core(fs, own) && InRange(k, fs.sb, item) && Used(fs, k, item)
    requires k.Blocks? ==> item !in own
    ensures Moved(k, fs, Release(k, fs, item), own, item, false)
  {
    hide Synced, OwnUsed, Padded, Moved, Mark, Counted, Layout, Superblock.Valid;
    ItemParts(k, fs.sb, item);
    PerGroupFits(k, fs.sb);
    MarkMoves(k, fs, own, GroupOf(k, fs.sb, item), BitOfItem(k, fs.sb, item), false);
  }

  lemma PerGroupFits(k: Kind, sb: Superblock)
    requires sb.Valid()
    ensures sb.PerGroup(k) as int <= 8 * sb.BlockSize()
  {
  }

  /** Freeing what was just allocated restores the volume and the memory copies bit for bit. */
  lemma ReleaseUndoesAlloc(k: Kind, fs: Fs, own: Ownership)
    requires Core(fs, own) && fs.sb.Free(k) > 0
    ensures var (r, o) := Alloc(k, fs);
            o.Some? && Shape(r) && InRange(k, r.sb, o.value) && Release(k, r, o.value) == fs
  {
    hide Mark, Moved, Superblock.Valid, Used, Counted, Padded, OwnUsed, Synced, Layout;
    AllocSpec(k, fs, own);
    var (r, o) := Alloc(k, fs);
    var g, bit := AllocIsMark(k, fs, own, 0);
    MovedFacts(k, fs, r, own, o.value, true);
    FreeBitIsItem(k, fs, own, g, bit);
    PartsOfItem(k, fs.sb, g, bit);
    SameParts(k, fs.sb, r.sb, o.value);
    MarkTwice(k, fs, own, g, bit);
  }

  lemma MovedFacts(k: Kind, fs: Fs, r: Fs, own: Ownership, item: nat, used: bool)
    requires Moved(k, fs, r, own, item, used)
    ensures Shape(r) && SameStatic(fs, r) && InRange(k, r.sb, item) && InRange(k, fs.sb, item)
    ensures r.sb.PerGroup(k) == fs.sb.PerGroup(k) && (k.Inodes? ==> item >= 1) && fs.sb.PerGroup(k) > 0
  {
    hide Layout, OwnUsed, Padded, Counted, Synced;
    DerivedKept(fs.sb, r.sb);
  }

  lemma FreeBitIsItem(k: Kind, fs: Fs, own: Ownership, g: nat, bit: nat)
    requires Core(fs, own) && g < |fs.bgdt| && bit < 8 * fs.sb.BlockSize() && !BitUsed(fs, k, g, bit)
    ensures CanMark(k, fs, own, g, bit, true) && fs.sb.PerGroup(k) > 0 && bit < fs.sb.PerGroup(k) as int
  {
  }

  /** Group `g` has free items and no group before it does. */
  predicate FirstOpen(k: Kind, fs: Fs, g: nat) {
    g < |fs.bgdt| && fs.bgdt[g].Free(k) > 0 && forall h :: 0 <= h < g ==> fs.bgdt[h].Free(k) == 0
  }

  /** What is allocated lies in the first group with free items, by the counts. */
  lemma AllocGroup(k: Kind, fs: Fs, own: Ownership)
    requires Core(fs, own) && Alloc(k, fs).1.Some?
    ensures fs.sb.PerGroup(k) > 0 && (k.Inodes? ==> Alloc(k, fs).1.value >= 1)
    ensures FirstOpen(k, fs, GroupOf(k, fs.sb, Alloc(k, fs).1.value))
  {
    hide Mark, Core, BitUsed, Superblock.Valid;
    var g, bit := AllocIsMark(k, fs, own, 0);
    FreeBitIsItem(k, fs, own, g, bit);
    PartsOfItem(k, fs.sb, g, bit);
  }

  lemma {:induction false} AllocIsMark(k: Kind, fs: Fs, own: Ownership, h: nat) returns (g: nat, bit: nat)
    requires Core(fs, own) && h <= |fs.bgdt| && AllocFrom(k, fs, h).1.Some?
    ensures g < |fs.bgdt| && bit < 8 * fs.sb.BlockSize() && !BitUsed(fs, k, g, bit) && fs.bgdt[g].Free(k) > 0
    ensures AllocFrom(k, fs, h) == (Mark(k, fs, g, bit, true), Some(Item(k, fs.sb, g, bit)))
    ensures h <= g && forall i :: h <= i < g ==> fs.bgdt[i].Free(k) == 0
    decreases |fs.bgdt| - h
  {
    hide Synced, OwnUsed, Padded, Mark, FirstFree, Superblock.Valid;
    if fs.bgdt[h].Free(k) == 0 {
      g, bit := AllocIsMark(k, fs, own, h + 1);
    } else {
      assert Owns(own, fs.bgdt[h].Bitmap(k) as int, OwnBitmap(k, h));
      HasFreeBit(k, fs, h);
      g, bit := h, FirstFree(BitmapOf(fs, k, h), 0).value;
    }
  }

  lemma MarkTwice(k: Kind, fs: Fs, own: Ownership, g: nat, bit: nat)
    requires CanMark(k, fs, own, g, bit, true) && fs.bgdt[g].Free(k) > 0 && bit < fs.sb.PerGroup(k) as int
    ensures var r := Mark(k, fs, g, bit, true);
            Shape(r) && r.sb.BlockSize() == fs.sb.BlockSize() && Mark(k, r, g, bit, false) == fs
  {
    hide Mark, Counted, Padded, OwnUsed, Layout, MarkBit, PutDesc, PutCounts, DescAt, SuperAt, Superblock.NumGroups,
         Superblock.BlockSize, DescBlock, DescOffset, Used;
    var r := Mark(k, fs, g, bit, true);
    MarkMoves(k, fs, own, g, bit, true);
    MarkBits(k, fs, own, g, bit, true);
    DerivedKept(fs.sb, r.sb);
    FreshNotOwned(k, fs, own, g, bit);
    MarkWrites(k, fs, own, g, bit, true);
    MarkWrites(k, r, own, g, bit, false);
    var q := Mark(k, r, g, bit, false);
    CountsRestored(k, fs, g, bit);
    var bm, db, o := fs.bgdt[g].Bitmap(k) as int, DescBlock(fs.sb, g), DescOffset(fs.sb, g);
    assert MarkBit(MarkBit(fs.disk[bm], bit, true), bit, false) == fs.disk[bm] by {
      MarkBitTwice(fs.disk[bm], bit);
    }
    assert DiskDesc(fs.disk, fs.sb, g) == fs.bgdt[g];
    PutDescRestores(fs.disk[db], o, r.bgdt[g]);
    SuperCounts(fs.disk[0], fs.sb);
    PutCountsRestores(fs.disk[0], r.sb, fs.sb);
    assert r.disk[bm] == MarkBit(fs.disk[bm], bit, true);
    WritesUndone(fs.disk, r.disk, q.disk, bm, db);
  }

  /** Writing three blocks and writing their old contents back restores the disk. */
  lemma WritesUndone(disk: seq<Buf>, r: seq<Buf>, q: seq<Buf>, bm: nat, db: nat)
    requires 0 < bm < |disk| && 0 < db < |disk| && |r| == |disk|
    requires forall b :: 0 <= b < |disk| && b != bm && b != db && b != 0 ==> r[b] == disk[b]
    requires q == r[bm := disk[bm]][db := disk[db]][0 := disk[0]]
    ensures q == disk
  {
  }

  lemma FreshNotOwned(k: Kind, fs: Fs, own: Ownership, g: nat, bit: nat)
    requires CanMark(k, fs, own, g, bit, true) && bit < fs.sb.PerGroup(k) as int
    ensures k.Blocks? ==> Item(k, fs.sb, g, bit) !in own
  {
    hide Counted, Padded, Synced, Superblock.Valid, Layout;
    if k.Blocks? && Item(k, fs.sb, g, bit) in own {
      assert Used(fs, Blocks, Item(k, fs.sb, g, bit));
      PartsOfItem(k, fs.sb, g, bit);
    }
  }

  lemma MarkBitTwice(bm: Buf, bit: nat)
    requires bit < 8 * |bm| && !Bit(bm, bit)
    ensures MarkBit(MarkBit(bm, bit, true), bit, false) == bm
  {
    ClearUndoesSet(bm, bit);
  }

  lemma CountsRestored(k: Kind, fs: Fs, g: nat, bit: nat)
    requires Shape(fs) && Counted(fs) && g < |fs.bgdt| && bit < 8 * fs.sb.BlockSize() && fs.bgdt[g].Free(k) > 0
    ensures MarkSuper(k, MarkSuper(k, fs.sb, true), false) == fs.sb
    ensures MarkDesc(k, MarkDesc(k, fs.bgdt[g], true), false) == fs.bgdt[g]
  {
    SumFreeAtLeast(k, fs.bgdt, g);
  }

  lemma SuperCounts(b: Buf, sb: Superblock)
    requires |b| >= 2048 && SuperAt(b) == Some(sb)
    ensures U32At(b, SuperOffset + 12) == sb.freeBlocks && U32At(b, SuperOffset + 16) == sb.freeInodes
  {
  }
}
