/** Small formatted volumes: two groups of sixteen 2 KiB blocks and sixteen inodes each, with any bitmaps that mark
    the metadata. They meet every invariant, and the driver's own mkdir code gives them a root directory, inode 2. */
module Ext2Format {
  import opened Arith
  import opened Bytes
  import opened Bitmap
  import opened Ext2Layout
  import opened Ext2Alloc
  import opened Ext2Inode
  import opened Ext2BlockMap
  import opened Ext2File
  import opened Ext2Dir
  import opened Ext2DirOps
  import opened Ext2Fs

  function Ones(n: nat): (r: Buf)
    ensures |r| == n
  {
    seq(n, _ => 0xFF)
  }

  /** A 2 KiB bitmap whose zero bits are exactly lo..hi. */
  function Zeroed(lo: nat, hi: nat): (r: Buf)
    requires lo <= hi <= 16384
    ensures |r| == 2048
    ensures forall i :: 0 <= i < 16384 ==> Bit(r, i) == !(lo <= i < hi)
    decreases hi
  {
    if lo == hi then
      AllOnes();
      Ones(2048)
    else ClearBit(Zeroed(lo, hi - 1), hi - 1)
  }

  lemma AllOnes()
    ensures forall i :: 0 <= i < 16384 ==> Bit(Ones(2048), i)
  {
    forall i | 0 <= i < 16384 ensures Bit(Ones(2048), i) {
      ByteWidth();
      OnesHaveEveryBit(8, i % 8);
    }
  }

  lemma {:induction false} ZeroedCount(lo: nat, hi: nat)
    requires lo <= hi <= 16384
    ensures |FreeBits(Zeroed(lo, hi))| == hi - lo
    decreases hi
  {
    hide Bit;
    if lo == hi {
      assert FreeBits(Zeroed(lo, hi)) == {};
    } else {
      ZeroedCount(lo, hi - 1);
      FreeBitsUpdate(Zeroed(lo, hi - 1), hi - 1);
    }
  }

  /** The bitmaps of the two groups. */
  datatype Maps = Maps(blocks0: Buf, blocks1: Buf, inodes0: Buf, inodes1: Buf)
  {
    function Of(k: Kind, g: nat): Buf {
      if k.Blocks? then (if g == 0 then blocks0 else blocks1) else (if g == 0 then inodes0 else inodes1)
    }
  }

  /** Blocks and inodes per group. */
  const Per: nat := 16

  /** Bits of the metadata and bits that stand for nothing are set. */
  ghost predicate Good(m: Maps) {
    && (forall k, g :: 0 <= g < 2 ==> |m.Of(k, g)| == 2048)
    && (forall k, g, i :: 0 <= g < 2 && Per <= i < 16384 ==> Bit(m.Of(k, g), i))
    && (forall i :: 0 <= i < 5 ==> Bit(m.Of(Blocks, 0), i))
    && (forall i :: 0 <= i < 3 ==> Bit(m.Of(Blocks, 1), i))
  }

  /** Zero bits of a bitmap. */
  ghost function FreeOf(m: Maps, k: Kind, g: nat): (r: nat)
    requires Good(m) && g < 2
    ensures r <= 16
  {
    FewFree(m, k, g);
    |FreeBits(m.Of(k, g))|
  }

  lemma FewFree(m: Maps, k: Kind, g: nat)
    requires Good(m) && g < 2
    ensures |FreeBits(m.Of(k, g))| <= Per
  {
    hide Bit;
    BelowCard(FreeBits(m.Of(k, g)), Per);
  }

  ghost function Super(m: Maps): Superblock
    requires Good(m)
  {
    Superblock(32, 32, FreeOf(m, Blocks, 0) + FreeOf(m, Blocks, 1), FreeOf(m, Inodes, 0) + FreeOf(m, Inodes, 1), 0, 1,
        16, 16, 128, 11)
  }

  /** The descriptor of group `g`, which counts `dirs` directories. */
  ghost function Group(m: Maps, g: nat, dirs: u16): BgDesc
    requires Good(m) && g < 2
  {
    if g == 0 then BgDesc(2, 3, 4, FreeOf(m, Blocks, 0), FreeOf(m, Inodes, 0), dirs)
    else BgDesc(16, 17, 18, FreeOf(m, Blocks, 1), FreeOf(m, Inodes, 1), dirs)
  }

  /** The superblock's block before its counts are filled in. */
  function SuperBase(): (r: Buf)
    ensures |r| == 2048
  {
    Zeros(2048)[1024 := 32][1028 := 32][1048 := 1][1056 := 16][1064 := 16][1080 := 0x53][1081 := 0xEF][1108 :=
        11][1112 := 128]
  }

  lemma SuperBaseIs()
    ensures SuperAt(SuperBase()) == Some(Superblock(32, 32, 0, 0, 0, 1, 16, 16, 128, 11))
  {
  }

  ghost function Descs(m: Maps, dirs: u16): (r: Buf)
    requires Good(m)
    ensures |r| == 2048 && DescAt(r, 0) == Group(m, 0, dirs) && DescAt(r, 32) == Group(m, 1, 0)
  {
    hide DescAt, PutDesc, FreeOf;
    var a := PutDesc(Zeros(2048), 0, Group(m, 0, dirs));
    var b := PutDesc(a, 32, Group(m, 1, 0));
    DescAtSame(b, a, 0);
    b
  }

  /** The volume; `dirs` is the directory count of the first group. */
  ghost function Formatted(m: Maps, dirs: u16): Fs
    requires Good(m)
  {
    var z := Zeros(2048);
    Fs([PutCounts(SuperBase(), Super(m)), Descs(m, dirs), m.blocks0, m.inodes0, z, z, z, z, z, z, z, z, z, z, z, z,
        m.blocks1, m.inodes1, z, z, z, z, z, z, z, z, z, z, z, z, z, z],
       Super(m), [Group(m, 0, dirs), Group(m, 1, 0)])
  }

  const Roles: Ownership :=
    map[0 := OwnSuper, 1 := OwnBgdt, 2 := OwnBitmap(Blocks, 0), 3 := OwnBitmap(Inodes, 0), 4 := OwnTable(0, 0),
        16 := OwnBitmap(Blocks, 1), 17 := OwnBitmap(Inodes, 1), 18 := OwnTable(1, 0)]

  lemma Sizes(sb: Superblock)
    requires sb == Superblock(32, 32, sb.freeBlocks, sb.freeInodes, 0, 1, 16, 16, 128, 11)
    ensures sb.BlockSize() == 2048 && sb.NumGroups() == 2 && sb.Valid() && sb.Ptrs() == 512
    ensures TableBlocks(sb) == 1 && DescBlock(sb, 0) == DescBlock(sb, 1) == 1 && DescOffset(sb, 0) == 0
            && DescOffset(sb, 1) == 32
  {
    assert Pow2(1) == 2;
    NativeDivMod(47, 16);
    NativeMul(2, 16);
    NativeMul(16, 128);
    NativeDivMod(4095, 2048);
    NativeDivMod(2048, 128);
    NativeMul(0, 32);
    NativeMul(1, 32);
    NativeDivMod(0, 2048);
    NativeDivMod(32, 2048);
  }

  lemma FormattedShape(m: Maps, dirs: u16)
    requires Good(m)
    ensures Volume(Formatted(m, dirs))
  {
    hide Superblock.Valid, Superblock.BlockSize, Superblock.NumGroups, Superblock.Ptrs, Zeros, SuperBase, PutCounts,
         Descs, FreeOf, Bit, Pow2, Mul, Div, Mod;
    Sizes(Super(m));
    assert |m.Of(Blocks, 0)| == |m.Of(Blocks, 1)| == |m.Of(Inodes, 0)| == |m.Of(Inodes, 1)| == 2048;
    VolumeFacts(Formatted(m, dirs));
  }

  lemma FormattedLayout(m: Maps, dirs: u16)
    requires Good(m) && Shape(Formatted(m, dirs))
    ensures Layout(Formatted(m, dirs), Roles)
  {
    hide Superblock.Valid, SuperBase, PutCounts, Descs, FreeOf, Bit, TableBlocks, DescBlock, Zeros;
    Sizes(Super(m));
  }

  /** A bitmap on the volume is the one given. */
  lemma MapAt(m: Maps, dirs: u16, k: Kind, g: nat, i: nat)
    requires Good(m) && g < 2 && i < 16384
    ensures BitUsed(Formatted(m, dirs), k, g, i) == Bit(m.Of(k, g), i)
  {
    hide Bit, SuperBase, PutCounts, Descs, FreeOf, Zeros;
  }

  lemma BlockBit(m: Maps, dirs: u16, b: nat)
    requires Good(m) && b < 32
    ensures Used(Formatted(m, dirs), Blocks, b) == Bit(m.Of(Blocks, b / 16), b % 16)
  {
    hide Bit, Formatted, BitUsed;
    NativeDivMod(b, 16);
    FormattedParts(m, dirs);
    MapAt(m, dirs, Blocks, b / 16, b % 16);
  }

  lemma FormattedOwned(m: Maps, dirs: u16)
    requires Good(m)
    ensures OwnUsed(Formatted(m, dirs), Roles)
  {
    hide Used, Bit, Formatted, FreeOf;
    forall b | b in Roles ensures Used(Formatted(m, dirs), Blocks, b) { BlockBit(m, dirs, b); }
  }

  lemma FreeIsItem(m: Maps, k: Kind, g: nat, i: nat)
    requires Good(m) && g < 2 && i < Per
    ensures Super(m).PerGroup(k) as int == Per && InRange(k, Super(m), Item(k, Super(m), g, i))
  {
    hide FreeOf, Good;
    Sizes(Super(m));
    NativeMul(2, 16);
    NativeMul(g, 16);
  }

  lemma FormattedPadded(m: Maps, dirs: u16)
    requires Good(m) && Shape(Formatted(m, dirs))
    ensures Padded(Formatted(m, dirs))
  {
    hide Formatted, Bit, Superblock.Valid, Superblock.BlockSize, Superblock.NumGroups, Pow2, Item, InRange, FreeOf,
         BitUsed;
    var fs := Formatted(m, dirs);
    FormattedParts(m, dirs);
    Sizes(fs.sb);
    forall k, g, i | 0 <= g < |fs.bgdt| && 0 <= i < 8 * fs.sb.BlockSize() && !BitUsed(fs, k, g, i)
      ensures i < fs.sb.PerGroup(k) as int && InRange(k, fs.sb, Item(k, fs.sb, g, i))
    {
      MapAt(m, dirs, k, g, i);
      FreeIsItem(m, k, g, if i < Per then i else 0);
    }
  }

  lemma FormattedParts(m: Maps, dirs: u16)
    requires Good(m)
    ensures var fs := Formatted(m, dirs);
            fs.sb == Super(m) && fs.bgdt == [Group(m, 0, dirs), Group(m, 1, 0)] && |fs.disk| == 32
  {
    hide SuperBase, PutCounts, Descs, FreeOf, Bit, Zeros;
  }

  lemma MapBlock(m: Maps, dirs: u16, k: Kind, g: nat)
    requires Good(m) && g < 2
    ensures var fs := Formatted(m, dirs);
            g < |fs.bgdt| && fs.bgdt[g].Bitmap(k) as int < |fs.disk| && BitmapOf(fs, k, g) == m.Of(k, g)
  {
    hide SuperBase, PutCounts, Descs, FreeOf, Bit, Zeros;
  }

  lemma FormattedCounted(m: Maps, dirs: u16)
    requires Good(m)
    ensures Counted(Formatted(m, dirs))
  {
    hide Formatted, FreeBits, Bit, Good;
    FormattedParts(m, dirs);
    var t := [Group(m, 0, dirs), Group(m, 1, 0)];
    forall k, g | 0 <= g < 2
      ensures t[g].Bitmap(k) as int < 32 && BitmapOf(Formatted(m, dirs), k, g) == m.Of(k, g)
    {
      MapBlock(m, dirs, k, g);
    }
    assert t[..1] == [Group(m, 0, dirs)] && [Group(m, 0, dirs)][..0] == [];
    assert forall k :: SumFree(k, t[..1]) == FreeOf(m, k, 0) && SumFree(k, t) == FreeOf(m, k, 0) + FreeOf(m, k, 1);
  }

  lemma FormattedSynced(m: Maps, dirs: u16)
    requires Good(m) && Shape(Formatted(m, dirs))
    ensures Synced(Formatted(m, dirs))
  {
    hide Superblock.Valid, DescBlock, DescOffset, SuperAt, DescAt, SuperBase, PutCounts, Descs, FreeOf, Bit, Zeros,
         Superblock.BlockSize;
    Sizes(Super(m));
    SuperBaseIs();
    PutCountsReadBack(SuperBase(), Super(m));
  }

  /** The formatted volume meets the invariants of the driver. */
  lemma FormattedCore(m: Maps, dirs: u16)
    requires Good(m)
    ensures Volume(Formatted(m, dirs)) && Core(Formatted(m, dirs), Roles)
  {
    hide Formatted, Layout, OwnUsed, Padded, Counted, Synced, Good;
    FormattedShape(m, dirs);
    FormattedLayout(m, dirs);
    FormattedOwned(m, dirs);
    FormattedPadded(m, dirs);
    FormattedCounted(m, dirs);
    FormattedSynced(m, dirs);
  }

  /** The first free inode, when that is the second of the first group. */
  lemma FirstInode(m: Maps, dirs: u16)
    requires Good(m) && Shape(Formatted(m, dirs)) && RootFree(m)
    ensures Alloc(Inodes, Formatted(m, dirs)).1 == Some(2)
  {
    hide Formatted, Mark, Bit, FirstFree, Superblock.Valid, Superblock.BlockSize, Superblock.NumGroups, Pow2,
         FreeBits, Good, ReadBlk, FreeOf;
    FormattedParts(m, dirs);
    Sizes(Super(m));
    InodeMap(m, dirs);
    FirstFreeIsUnique(m.inodes0, 1);
    CountsSome(m);
    assert Mul(0, 16) == 0;
  }

  /** Of the first two inodes only the second is free. */
  predicate RootFree(m: Maps) { |m.inodes0| == 2048 && Bit(m.inodes0, 0) && !Bit(m.inodes0, 1) }

  lemma InodeMap(m: Maps, dirs: u16)
    requires Good(m)
    ensures |Formatted(m, dirs).disk| > 3 && |Formatted(m, dirs).disk[3]| == 2048
            && ReadBlk(Formatted(m, dirs).disk, 2048, 3) == m.inodes0
  {
    hide SuperBase, PutCounts, Descs, FreeOf, Bit, Zeros;
    assert |m.Of(Inodes, 0)| == 2048;
  }

  lemma CountsSome(m: Maps)
    requires Good(m) && RootFree(m)
    ensures FreeOf(m, Inodes, 0) > 0
  {
    hide Good, Bit, FreeBits;
    SomeFree(m.inodes0, 1);
  }

  lemma SomeFree(b: Buf, i: nat)
    requires i < 8 * |b| && !Bit(b, i)
    ensures |FreeBits(b)| > 0
  {
    hide Bit;
    assert i in FreeBits(b);
  }

  // ---------------------------------------------------------------- the root directory

  /** A root directory, its own parent, made by mkdir's code. */
  lemma RootImplements(m: Maps, dirs: u16) returns (own: Ownership)
    requires Good(m) && RootFree(m) && FreeOf(m, Blocks, 0) + FreeOf(m, Blocks, 1) > 0
    ensures Volume(Formatted(m, dirs))
    ensures var (r, o) := MakeDir(Formatted(m, dirs), 2);
            o == Some(2) && Implements(r, own, map[2 := Dir(DotNames(2, 2))])
  {
    hide Formatted, Core, NodeOk, Alloc, MakeDir, OthersKept, Used, Superblock.Valid, DiskShape, Bit, FreeOf, Good;
    var fs := Formatted(m, dirs);
    FormattedCore(m, dirs);
    FormattedParts(m, dirs);
    FirstInode(m, dirs);
    own := FreshDir(fs, Roles, 2);
    RootIsTwo(fs);
    OnlyRoot(MakeDir(fs, 2).0, own, DotNames(2, 2));
  }

  lemma OnlyRoot(fs: Fs, own: Ownership, names: map<Buf, Link>)
    requires Volume(fs) && Core(fs, own) && NodeOk(fs, own, 2, Dir(names)) && forall nm :: nm in names ==>
             names[nm] == Link(2, 2)
    ensures Implements(fs, own, map[2 := Dir(names)])
  {
    hide Volume, Core, NodeOk;
  }

  lemma RootIsTwo(fs: Fs)
    requires Volume(fs) && Alloc(Inodes, fs).1 == Some(2)
    ensures MakeDir(fs, 2).1.Some? ==> MakeDir(fs, 2).1 == Some(2)
  {
    hide Alloc, StoreInode, FirstDirBlock, Superblock.Valid;
  }

  /** Bitmaps with free blocks `lo..16` of the first group and from `next` on of the second, and free inodes from the
      second one up to `ino` of the first group and all of the second. */
  function Plain(lo: nat, next: nat, ino: nat): (r: Maps)
    requires 5 <= lo <= 16 && 3 <= next <= 16 && 2 <= ino <= 16
    ensures Good(r) && RootFree(r)
  {
    hide Zeroed, Bit;
    Maps(Zeroed(lo, 16), Zeroed(next, 16), Zeroed(1, ino), Zeroed(0, 16))
  }

  lemma PlainCounts(lo: nat, next: nat, ino: nat)
    requires 5 <= lo <= 16 && 3 <= next <= 16 && 2 <= ino <= 16
    ensures var m := Plain(lo, next, ino); FreeOf(m, Blocks, 0) == 16 - lo && FreeOf(m, Blocks, 1) == 16 - next
    ensures var m := Plain(lo, next, ino); FreeOf(m, Inodes, 0) == ino - 1 && FreeOf(m, Inodes, 1) == 16
  {
    hide Zeroed, Bit, Good, FreeBits;
    ZeroedCount(lo, 16);
    ZeroedCount(next, 16);
    ZeroedCount(1, ino);
    ZeroedCount(0, 16);
  }

  /** Such a volume exists: runs can start from it. */
  lemma RootExists() returns (m: Maps, own: Ownership)
    ensures Good(m) && Volume(Formatted(m, 1))
    ensures var (r, o) := MakeDir(Formatted(m, 1), 2);
            o == Some(2) && Implements(r, own, map[2 := Dir(DotNames(2, 2))])
  {
    hide Formatted, Implements, MakeDir, Bit, FreeOf, Good, Plain, Volume;
    PlainCounts(5, 3, 16);
    m := Plain(5, 3, 16);
    own := RootImplements(m, 1);
  }
}
