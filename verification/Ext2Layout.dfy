/** The ext2 superblock, block group descriptors, and the volume as a sequence of blocks
    (fs/src/ext2/superblock.rs, fs/src/ext2/bgdt.rs). */
module Ext2Layout {
  import opened Arith
  import opened Bytes
  import opened Bitmap

  /** Which of the two resources of a group a bitmap describes. */
  datatype Kind = Blocks | Inodes

  datatype Superblock = Superblock(
    inodesCount: u32,
    blocksCount: u32,
    freeBlocks: u32,
    freeInodes: u32,
    firstDataBlock: u32,
    logBlockSize: u32,
    blocksPerGroup: u32,
    inodesPerGroup: u32,
    inodeSize: u16,
    firstIno: u32)
  {
    function BlockSize(): nat {
      1024 * Pow2(logBlockSize)
    }

    function SectorsPerBlock(): nat {
      BlockSize() / 512
    }

    function Ptrs(): nat {
      BlockSize() / 4
    }

    function NumGroups(): nat
      requires blocksPerGroup > 0
    {
      Max(CeilDiv(blocksCount as int, blocksPerGroup as int), 1)
    }

    function PerGroup(k: Kind): u32 {
      if k.Blocks? then blocksPerGroup else inodesPerGroup
    }

    function Free(k: Kind): u32 {
      if k.Blocks? then freeBlocks else freeInodes
    }

    function WithFree(k: Kind, v: u32): Superblock {
      if k.Blocks? then this.(freeBlocks := v) else this.(freeInodes := v)
    }

    /** The volumes the driver numbers consistently: the bitmap of group `g` describes blocks
        `g * blocks_per_group ..`, so the first data block is block 0, and blocks are at least
        2 KiB; inode records do not straddle blocks; group counts fit their 16-bit fields. */
    ghost predicate Valid() {
      && 1 <= logBlockSize <= 5
      && firstDataBlock == 0
      && 0 < blocksPerGroup < 0x1_0000 && blocksPerGroup <= 8 * BlockSize()
      && 0 < inodesPerGroup < 0x1_0000 && inodesPerGroup <= 8 * BlockSize()
      && 0 < blocksCount
      && 128 <= inodeSize <= BlockSize() && Mod(BlockSize(), inodeSize as int) == 0
      && Mul(NumGroups(), inodesPerGroup as int) < 0x1_0000_0000
      && Mul(NumGroups(), blocksPerGroup as int) < 0x1_0000_0000
    }
  }

  /** `r` is `sb` with other free counts: the same volume geometry. */
  predicate SameGeometry(sb: Superblock, r: Superblock) {
    r == sb.(freeBlocks := r.freeBlocks, freeInodes := r.freeInodes)
  }

  lemma BlockSizeFacts(sb: Superblock)
    requires 1 <= sb.logBlockSize <= 5
    ensures 2048 <= sb.BlockSize() <= 0x8000
    ensures sb.BlockSize() % 512 == 0 && sb.BlockSize() == 512 * sb.SectorsPerBlock() && sb.SectorsPerBlock() >= 4
    ensures sb.BlockSize() == 4 * sb.Ptrs() && Mod(sb.BlockSize(), 32) == 0
  {
    hide Mod;
    SmallPowers();
    NativeDivMod(sb.BlockSize(), 32);
  }

  lemma SmallPowers()
    ensures Pow2(1) == 2 && Pow2(2) == 4 && Pow2(3) == 8 && Pow2(4) == 16 && Pow2(5) == 32
  {
    assert Pow2(3) == 8;
    assert Pow2(4) == 2 * Pow2(3) && Pow2(5) == 2 * Pow2(4);
  }

  datatype BgDesc = BgDesc(
    blockBitmap: u32,
    inodeBitmap: u32,
    inodeTable: u32,
    freeBlocks: u16,
    freeInodes: u16,
    usedDirs: u16)
  {
    function Bitmap(k: Kind): u32 {
      if k.Blocks? then blockBitmap else inodeBitmap
    }

    function Free(k: Kind): u16 {
      if k.Blocks? then freeBlocks else freeInodes
    }

    function WithFree(k: Kind, v: u16): BgDesc {
      if k.Blocks? then this.(freeBlocks := v) else this.(freeInodes := v)
    }
  }

  /** Ext2State: the device seen as blocks, with the in-memory superblock and descriptor table. */
  datatype Fs = Fs(disk: seq<Buf>, sb: Superblock, bgdt: seq<BgDesc>)

  ghost predicate DiskShape(disk: seq<Buf>, bsz: nat) {
    forall b :: 0 <= b < |disk| ==> |disk[b]| == bsz
  }

  ghost predicate Shape(fs: Fs) {
    && fs.sb.Valid()
    && |fs.disk| == fs.sb.blocksCount as int
    && DiskShape(fs.disk, fs.sb.BlockSize())
    && |fs.bgdt| == fs.sb.NumGroups()
  }

  /** read_block: I/O errors are ignored, so a block past the device reads as zeros. */
  function ReadBlk(disk: seq<Buf>, bsz: nat, b: nat): (r: Buf)
    requires b < |disk| ==> |disk[b]| == bsz
    ensures |r| == bsz
  {
    if b < |disk| then disk[b] else Zeros(bsz)
  }

  /** write_block: a write past the device is dropped. */
  function WriteBlk(disk: seq<Buf>, b: nat, data: Buf): seq<Buf> {
    if b < |disk| then disk[b := data] else disk
  }

  // ---------------------------------------------------------------- superblock

  const SuperOffset: nat := 1024

  const Magic: u16 := 0xEF53

  /** Superblock::read: the magic must match, else the volume is rejected. */
  function SuperAt(b: Buf): Option<Superblock>
    requires |b| >= 2048
  {
    if U16At(b, SuperOffset + 56) != Magic then None
    else Some(Superblock(
      U32At(b, SuperOffset), U32At(b, SuperOffset + 4), U32At(b, SuperOffset + 12), U32At(b, SuperOffset + 16),
      U32At(b, SuperOffset + 20), U32At(b, SuperOffset + 24), U32At(b, SuperOffset + 32), U32At(b, SuperOffset + 40),
      U16At(b, SuperOffset + 88), U32At(b, SuperOffset + 84)))
  }

  /** write_free_counts: only the two free counts of the on-disk superblock are patched. */
  function PutCounts(b: Buf, sb: Superblock): (r: Buf)
    requires |b| >= 2048
    ensures |r| == |b|
  {
    PutU32(PutU32(b, SuperOffset + 12, sb.freeBlocks), SuperOffset + 16, sb.freeInodes)
  }

  lemma PutCountsReadBack(b: Buf, sb: Superblock)
    requires |b| >= 2048
    requires SuperAt(b).Some?
             && SuperAt(b).value == sb.(freeBlocks := SuperAt(b).value.freeBlocks, freeInodes :=
                SuperAt(b).value.freeInodes)
    ensures SuperAt(PutCounts(b, sb)) == Some(sb)
  {
  }

  // ---------------------------------------------------------------- block group descriptors

  function DescAt(b: Buf, o: nat): BgDesc
    requires o + 32 <= |b|
  {
    BgDesc(U32At(b, o), U32At(b, o + 4), U32At(b, o + 8), U16At(b, o + 12), U16At(b, o + 14), U16At(b, o + 16))
  }

  /** write_entry's patch: bytes 18..31 of the entry are padding and stay unchanged. */
  function PutDesc(b: Buf, o: nat, d: BgDesc): (r: Buf)
    requires o + 32 <= |b|
    ensures |r| == |b|
    ensures DescAt(r, o) == d
    ensures forall i :: 0 <= i < |b| && !(o <= i < o + 18) ==> r[i] == b[i]
  {
    var b1 := PutU32(b, o, d.blockBitmap);
    var b2 := PutU32(b1, o + 4, d.inodeBitmap);
    var b3 := PutU32(b2, o + 8, d.inodeTable);
    var b4 := PutU16(b3, o + 12, d.freeBlocks);
    var b5 := PutU16(b4, o + 14, d.freeInodes);
    PutU16(b5, o + 16, d.usedDirs)
  }

  lemma DescAtSame(a: Buf, b: Buf, p: nat)
    requires |a| == |b| && p + 32 <= |b|
    requires forall i :: p <= i < p + 18 ==> a[i] == b[i]
    ensures DescAt(a, p) == DescAt(b, p)
  {
  }

  lemma PutDescRestores(b: Buf, o: nat, d: BgDesc)
    requires o + 32 <= |b|
    ensures PutDesc(PutDesc(b, o, d), o, DescAt(b, o)) == b
  {
    hide PutDesc, DescAt;
    var c := PutDesc(b, o, d);
    var r := PutDesc(c, o, DescAt(b, o));
    assert DescAt(r, o) == DescAt(b, o);
    DescBytes(r, b, o);
  }

  lemma DescBytes(a: Buf, b: Buf, o: nat)
    requires |a| == |b| && o + 32 <= |b| && DescAt(a, o) == DescAt(b, o)
    ensures a[o..o + 18] == b[o..o + 18]
    ensures forall i :: o <= i < o + 18 ==> a[i] == b[i]
  {
    hide U16At, U32At, U16Bytes, U32Bytes;
    U32Restores(a, o); U32Restores(b, o);
    U32Restores(a, o + 4); U32Restores(b, o + 4);
    U32Restores(a, o + 8); U32Restores(b, o + 8);
    U16Restores(a, o + 12); U16Restores(b, o + 12);
    U16Restores(a, o + 14); U16Restores(b, o + 14);
    U16Restores(a, o + 16); U16Restores(b, o + 16);
    assert DescParts(a, o) == DescParts(b, o);
    assert DescParts(a, o) == a[o..o + 18] && DescParts(b, o) == b[o..o + 18];
    forall i | o <= i < o + 18 ensures a[i] == b[i] {
      assert a[i] == a[o..o + 18][i - o] && b[i] == b[o..o + 18][i - o];
    }
  }

  ghost function DescParts(b: Buf, o: nat): Buf
    requires o + 32 <= |b|
  {
    b[o..o + 4] + b[o + 4..o + 8] + b[o + 8..o + 12] + b[o + 12..o + 14] + b[o + 14..o + 16] + b[o + 16..o + 18]
  }

  lemma PutCountsRestores(b: Buf, sb: Superblock, old_: Superblock)
    requires |b| >= 2048
    requires U32At(b, SuperOffset + 12) == old_.freeBlocks && U32At(b, SuperOffset + 16) == old_.freeInodes
    ensures PutCounts(PutCounts(b, sb), old_) == b
  {
    hide U32At, U32Bytes;
    U32Restores(b, SuperOffset + 12);
    U32Restores(b, SuperOffset + 16);
    var r := PutCounts(PutCounts(b, sb), old_);
    forall i | 0 <= i < |b| ensures r[i] == b[i] {
      if SuperOffset + 12 <= i < SuperOffset + 16 {
        assert b[i] == b[SuperOffset + 12..SuperOffset + 16][i - SuperOffset - 12];
      } else if SuperOffset + 16 <= i < SuperOffset + 20 {
        assert b[i] == b[SuperOffset + 16..SuperOffset + 20][i - SuperOffset - 16];
      }
    }
  }

  /** Block and offset of descriptor `g`: the table starts at block first_data_block + 1. */
  function DescBlock(sb: Superblock, g: nat): nat
    requires sb.BlockSize() > 0
  {
    sb.firstDataBlock as int + 1 + Div(Mul(g, 32), sb.BlockSize())
  }

  function DescOffset(sb: Superblock, g: nat): nat
    requires sb.BlockSize() > 0
  {
    Mod(Mul(g, 32), sb.BlockSize())
  }

  lemma DescFits(sb: Superblock, g: nat)
    requires 1 <= sb.logBlockSize <= 5
    ensures sb.BlockSize() > 0 && DescOffset(sb, g) + 32 <= sb.BlockSize()
  {
    BlockSizeFacts(sb);
    RecordFits(32, sb.BlockSize(), g);
  }

  /** Records of a size that divides the block size never straddle two blocks, and distinct
      records of one block are at least a record apart. */
  lemma RecordFits(size: nat, bsz: nat, i: nat)
    requires 0 < size <= bsz && Mod(bsz, size) == 0
    ensures Mod(Mul(i, size), bsz) + size <= bsz
    ensures Div(Mul(i, size), bsz) == Div(i, Div(bsz, size))
    ensures Mod(Mul(i, size), bsz) == Mul(Mod(i, Div(bsz, size)), size)
  {
    hide Mul, Div, Mod;
    var m := Div(bsz, size);
    DivPositive(bsz, size);
    DivMod(bsz, size);
    var q, r := Div(i, m), Mod(i, m);
    calc {
      Mul(i, size);
      { DivMod(i, m); }
      Mul(Mul(q, m) + r, size);
      { MulAdd(Mul(q, m), r, size); }
      Mul(Mul(q, m), size) + Mul(r, size);
      { MulAssoc(q, m, size); }
      Mul(q, bsz) + Mul(r, size);
    }
    MulAdd(r, 1, size);
    MulOne(size);
    MulMono(r + 1, m, size);
    DivModOf(q, bsz, Mul(r, size));
  }

  lemma RecordsApart(size: nat, bsz: nat, i: nat, j: nat)
    requires 0 < size && 0 < bsz
    requires i != j && Div(Mul(i, size), bsz) == Div(Mul(j, size), bsz)
    ensures Mod(Mul(i, size), bsz) + size <= Mod(Mul(j, size), bsz)
         || Mod(Mul(j, size), bsz) + size <= Mod(Mul(i, size), bsz)
  {
    DivMod(Mul(i, size), bsz);
    DivMod(Mul(j, size), bsz);
    if i < j {
      MulMono(i + 1, j, size);
    } else {
      MulMono(j + 1, i, size);
    }
  }

  /** BgDescTable::write_entry on the volume. */
  function WriteDesc(disk: seq<Buf>, sb: Superblock, g: nat, d: BgDesc): (r: seq<Buf>)
    requires 1 <= sb.logBlockSize <= 5 && DiskShape(disk, sb.BlockSize())
    ensures |r| == |disk| && DiskShape(r, sb.BlockSize())
  {
    DescFits(sb, g);
    var blk := DescBlock(sb, g);
    WriteBlk(disk, blk, PutDesc(ReadBlk(disk, sb.BlockSize(), blk), DescOffset(sb, g), d))
  }

  /** Descriptor `g` as BgDescTable::read finds it on the volume. */
  function DiskDesc(disk: seq<Buf>, sb: Superblock, g: nat): BgDesc
    requires 1 <= sb.logBlockSize <= 5 && DiskShape(disk, sb.BlockSize())
  {
    DescFits(sb, g);
    DescAt(ReadBlk(disk, sb.BlockSize(), DescBlock(sb, g)), DescOffset(sb, g))
  }

  lemma WriteDescReadBack(disk: seq<Buf>, sb: Superblock, g: nat, d: BgDesc, h: nat)
    requires 1 <= sb.logBlockSize <= 5 && DiskShape(disk, sb.BlockSize())
    requires sb.BlockSize() > 0 && DescBlock(sb, g) < |disk|
    ensures DiskDesc(WriteDesc(disk, sb, g, d), sb, h) == if h == g then d else DiskDesc(disk, sb, h)
  {
    DescFits(sb, g);
    DescFits(sb, h);
    BlockSizeFacts(sb);
    var bsz, blk := sb.BlockSize(), DescBlock(sb, g);
    var data := PutDesc(disk[blk], DescOffset(sb, g), d);
    assert WriteDesc(disk, sb, g, d) == disk[blk := data];
    if h != g && DescBlock(sb, h) == blk {
      RecordsApart(32, bsz, g, h);
      DescAtSame(data, disk[blk], DescOffset(sb, h));
    }
  }
}
