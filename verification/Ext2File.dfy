/** Byte access to a regular file over its block map (fs/src/ext2/inode_impl.rs:70-140). */
module Ext2File {
  import opened Arith
  import opened Bytes
  import opened Bitmap
  import opened Ext2Layout
  import opened Ext2Alloc
  import opened Ext2Inode
  import opened Ext2BlockMap

  // ---------------------------------------------------------------- the code

  /** Volumes whose files the block map can address: `limit` bytes at most. */
  function MaxBytes(p: nat): nat {
    Mul(MaxBlocks(p), 4 * p)
  }

  ghost predicate Volume(fs: Fs) {
    Shape(fs) && fs.sb.Ptrs() > 0 && fs.sb.BlockSize() == 4 * fs.sb.Ptrs()
  }

  lemma VolumeFacts(fs: Fs)
    requires Shape(fs)
    ensures Volume(fs)
  {
    BlockSizeFacts(fs.sb);
  }

  lemma BlockSizes(fs: Fs)
    requires Shape(fs)
    ensures 2048 <= fs.sb.BlockSize() <= 0x8000 && fs.sb.BlockSize() % 4 == 0
  {
    BlockSizeFacts(fs.sb);
  }

  /** A new block holding `data`, mapped at logical block `blk` and counted in the inode: allocated,
      written, then stored in the map. None when the allocation fails. */
  function AllocMapped(fs: Fs, n: Inode, blk: nat, data: Buf): (r: Option<(Fs, Inode, u32)>)
    requires Volume(fs) && blk < MaxBlocks(fs.sb.Ptrs()) && |data| == fs.sb.BlockSize()
    ensures r.Some? ==> Volume(r.value.0) && |r.value.0.disk| == |fs.disk| && SameGeometry(fs.sb, r.value.0.sb)
    ensures r.Some? ==> r.value.1 == n.(block := r.value.1.block, blocks := r.value.1.blocks)
  {
    hide Superblock.Valid, Alloc, SetBlock, MaxBlocks, DiskShape;
    var (fs1, o) := Alloc(Blocks, fs);
    match o
    case None => None
    case Some(_) =>
      var b := OrZero(o);
      var fs2 := PutBlk(fs1, b as int, data);
      assert fs2.sb.Ptrs() == fs.sb.Ptrs();
      var (fs3, n2) := SetBlock(fs2, n, blk, b);
      assert fs3.sb.Ptrs() == fs.sb.Ptrs();
      Some((fs3, n2.(blocks := (n2.blocks as int + fs.sb.SectorsPerBlock()) % 0x1_0000_0000), b))
  }

  /** The physical block for logical block `blk`: mapped already, or allocated, zero-filled and
      mapped now. */
  function GetOrAlloc(fs: Fs, n: Inode, blk: nat): (r: Option<(Fs, Inode, u32)>)
    requires Volume(fs) && blk < MaxBlocks(fs.sb.Ptrs())
    ensures r.Some? ==> Volume(r.value.0) && |r.value.0.disk| == |fs.disk| && SameGeometry(fs.sb, r.value.0.sb)
    ensures r.Some? ==> r.value.1 == n.(block := r.value.1.block, blocks := r.value.1.blocks)
  {
    match GetBlock(fs.disk, fs.sb.Ptrs(), n.block, blk)
    case Some(b) => Some((fs, n, b))
    case None => AllocMapped(fs, n, blk, Zeros(fs.sb.BlockSize()))
  }

  /** One iteration of write's loop on block `phys`. */
  function PatchBlock(fs: Fs, phys: u32, off: nat, data: Buf): (r: Fs)
    requires Volume(fs) && off + |data| <= fs.sb.BlockSize()
    ensures Volume(r) && |r.disk| == |fs.disk| && r.sb == fs.sb && r.bgdt == fs.bgdt
  {
    PutBlk(fs, phys as int, Splice(ReadBlk(fs.disk, fs.sb.BlockSize(), phys as int), off, data))
  }

  function Chunk(bsz: nat, pos: nat, left: nat): (r: nat)
    requires bsz > 0
    ensures r <= left && Mod(pos, bsz) + r <= bsz && (left > 0 ==> r > 0)
  {
    Min(bsz - Mod(pos, bsz), left)
  }

  lemma BlockInRange(p: nat, pos: nat)
    requires p > 0 && pos < MaxBytes(p)
    ensures Div(pos, 4 * p) < MaxBlocks(p)
  {
    DivBelow(pos, MaxBlocks(p), 4 * p);
  }

  function WriteLoop(fs: Fs, n: Inode, offset: nat, buf: Buf, done: nat): (r: (Fs, Inode, nat))
    requires Volume(fs) && done <= |buf| && offset + |buf| <= MaxBytes(fs.sb.Ptrs())
    ensures Volume(r.0) && |r.0.disk| == |fs.disk| && SameGeometry(fs.sb, r.0.sb) && done <= r.2 <= |buf|
    ensures r.1 == n.(block := r.1.block, blocks := r.1.blocks)
    decreases |buf| - done
  {
    if done == |buf| then (fs, n, done)
    else
      var pos := offset + done;
      BlockInRange(fs.sb.Ptrs(), pos);
      match GetOrAlloc(fs, n, Div(pos, fs.sb.BlockSize()))
      case None => (fs, n, done)
      case Some((fs1, n1, phys)) =>
        var k := Chunk(fs.sb.BlockSize(), pos, |buf| - done);
        WriteLoop(PatchBlock(fs1, phys, Mod(pos, fs.sb.BlockSize()), buf[done..done + k]), n1, offset, buf, done + k)
  }

  /** Ext2FileINode::write: the volume afterwards and the number of bytes written. */
  function WriteFile(fs: Fs, ino: nat, offset: nat, buf: Buf): (Fs, nat)
    requires Volume(fs) && IsIno(fs.sb, ino) && offset + |buf| <= MaxBytes(fs.sb.Ptrs())
  {
    if buf == [] then (fs, 0)
    else
      var (fs1, n1, done) := WriteLoop(fs, ReadInode(fs, ino), offset, buf, 0);
      var end := offset + done;
      var n2 := if end > n1.size as int then n1.(size := end % 0x1_0000_0000) else n1;
      DerivedKept(fs.sb, fs1.sb);
      (WriteInode(fs1, n2), done)
  }

  // ---------------------------------------------------------------- what a file holds

  /** Byte `i` of the file behind a block map; -1 where no block is mapped. */
  ghost function ByteAt(disk: seq<Buf>, p: nat, s: Slots, i: nat): int
    requires p > 0 && DiskShape(disk, 4 * p)
  {
    if Div(i, 4 * p) >= MaxBlocks(p) then -1
    else
      match GetBlock(disk, p, s, Div(i, 4 * p))
      case None => -1
      case Some(b) => ReadBlk(disk, 4 * p, b as int)[Mod(i, 4 * p)] as int
  }

  /** Exactly the first `nb` logical blocks are mapped: no holes. */
  ghost predicate MappedTo(disk: seq<Buf>, p: nat, s: Slots, nb: nat)
    requires p > 0 && DiskShape(disk, 4 * p)
  {
    nb <= MaxBlocks(p) && forall m :: 0 <= m < MaxBlocks(p) ==> (GetBlock(disk, p, s, m).Some? <==> m < nb)
  }

  /** Where block `m` is mapped, its block is owned by that place. */
  lemma GetBlockOwned(disk: seq<Buf>, p: nat, own: Ownership, ino: nat, s: Slots, m: nat)
    requires p > 0 && DiskShape(disk, 4 * p) && m < MaxBlocks(p) && TreeOk(disk, p, own, ino, s)
    requires GetBlock(disk, p, s, m).Some?
    ensures var b := GetBlock(disk, p, s, m).value as int;
            0 < b < |disk| && Owns(own, b, OwnPtr(ino, PathOf(p, m))) && IsPath(p, PathOf(p, m)) && IsLeaf(PathOf(p, m))
  {
    PathOfIsLeaf(p, m);
  }

  /** Room for the data block and the index blocks that writing logical block `blk` needs, if a
      data block is available at all. */
  ghost predicate StepRoom(fs: Fs, n: Inode, blk: nat)
    requires Volume(fs) && blk < MaxBlocks(fs.sb.Ptrs())
  {
    PathOfIsLeaf(fs.sb.Ptrs(), blk);
    var path := PathOf(fs.sb.Ptrs(), blk);
    ParentPath(fs.sb.Ptrs(), path);
    GetBlock(fs.disk, fs.sb.Ptrs(), n.block, blk).None? && fs.sb.freeBlocks > 0 && |path| > 1 ==>
      Missing(fs.disk, fs.sb.Ptrs(), n.block, Parent(path)) + 1 <= fs.sb.freeBlocks as int
  }

  /** What GetOrAlloc returns: the block mapped at `blk`, everything else as before. */
  ghost predicate StepSpec(fs: Fs, own: Ownership, n: Inode, blk: nat, r: Fs, n2: Inode, b: u32, own2: Ownership)
    requires Volume(fs) && blk < MaxBlocks(fs.sb.Ptrs())
  {
    var p, ino := fs.sb.Ptrs(), n.ino as int;
    && Core(r, own2) && r.sb.BlockSize() == 4 * p && Grew(fs, r, own, own2, ino)
       && LeavesKept(fs.disk, r.disk, own, ino)
    && TreeOk(r.disk, p, own2, ino, n2.block)
    && GetBlock(r.disk, p, n2.block, blk) == Some(b)
    && (forall m :: 0 <= m < MaxBlocks(p) && m != blk ==>
       GetBlock(r.disk, p, n2.block, m) == GetBlock(fs.disk, p, n.block, m))
    && (GetBlock(fs.disk, p, n.block, blk).Some? ==> GetBlock(fs.disk, p, n.block, blk) == Some(b) && r.disk == fs.disk)
    && r.sb.freeBlocks as int >= fs.sb.freeBlocks as int - 4
  }

  /** Exactly the missing blocks down to logical block `blk` were taken, and their pointers are set. */
  ghost predicate Taken(fs: Fs, n: Inode, blk: nat, r: Fs, n2: Inode)
    requires Volume(fs) && Volume(r) && SameGeometry(fs.sb, r.sb) && blk < MaxBlocks(fs.sb.Ptrs())
  {
    PathOfIsLeaf(fs.sb.Ptrs(), blk);
    && Filled(fs.disk, n.block, r.disk, n2.block, fs.sb.Ptrs(), PathOf(fs.sb.Ptrs(), blk))
    && r.sb.freeBlocks as int ==
       fs.sb.freeBlocks as int - Missing(fs.disk, fs.sb.Ptrs(), n.block, PathOf(fs.sb.Ptrs(), blk))
  }

  /** i_blocks counts the sectors of `nb` data blocks, in its 32 bits. */
  ghost predicate Charged(sb: Superblock, blocks: u32, nb: nat) {
    blocks as int == Mul(nb, sb.SectorsPerBlock()) % 0x1_0000_0000
  }

  /** A block mapped now is added to i_blocks, one mapped before is not. */
  ghost predicate Charges(fs: Fs, n: Inode, blk: nat, n2: Inode)
    requires Volume(fs) && blk < MaxBlocks(fs.sb.Ptrs())
  {
    n2.blocks as int == if GetBlock(fs.disk, fs.sb.Ptrs(), n.block, blk).Some? then n.blocks as int
                        else (n.blocks as int + fs.sb.SectorsPerBlock()) % 0x1_0000_0000
  }

  lemma ChargedMore(sb: Superblock, blocks: u32, nb: nat)
    requires Charged(sb, blocks, nb)
    ensures Charged(sb, (blocks as int + sb.SectorsPerBlock()) % 0x1_0000_0000, nb + 1)
  {
    hide Mul;
    MulAdd(nb, 1, sb.SectorsPerBlock());
    MulOne(sb.SectorsPerBlock());
    WrapAdd(Mul(nb, sb.SectorsPerBlock()), sb.SectorsPerBlock());
  }

  lemma WrapAdd(a: nat, b: nat)
    ensures (a % 0x1_0000_0000 + b) % 0x1_0000_0000 == (a + b) % 0x1_0000_0000
  {
  }

  /** The sectors of a file below 4 GiB fit i_blocks. */
  lemma ChargeFits(sb: Superblock, nb: nat)
    requires sb.Valid() && Mul(nb, 4 * sb.Ptrs()) < 0x1_0000_0000 + 0x8000
    ensures Mul(nb, sb.SectorsPerBlock()) < 0x1_0000_0000
  {
    hide Superblock.NumGroups, Mul;
    BlockSizeFacts(sb);
    TimesSectors(nb, sb.SectorsPerBlock());
  }

  lemma {:induction false} TimesSectors(nb: nat, spb: nat)
    ensures Mul(nb, 512 * spb) == 512 * Mul(nb, spb)
  {
    if nb > 0 { TimesSectors(nb - 1, spb); }
  }

  lemma AllocMappedSpec(fs: Fs, own: Ownership, n: Inode, blk: nat, data: Buf) returns (own2: Ownership)
    requires Volume(fs) && Core(fs, own) && blk < MaxBlocks(fs.sb.Ptrs()) && |data| == fs.sb.BlockSize()
    requires TreeOk(fs.disk, fs.sb.Ptrs(), own, n.ino as int, n.block) && StepRoom(fs, n, blk)
    requires GetBlock(fs.disk, fs.sb.Ptrs(), n.block, blk).None?
    ensures var o := AllocMapped(fs, n, blk, data);
            && (o.None? <==> fs.sb.freeBlocks == 0)
            && (o.Some? ==>
                  && StepSpec(fs, own, n, blk, o.value.0, o.value.1, o.value.2, own2)
                  && Taken(fs, n, blk, o.value.0, o.value.1) && Charges(fs, n, blk, o.value.1)
                  && o.value.2 as int < |o.value.0.disk| && o.value.0.disk[o.value.2] == data)
  {
    hide Counted, Padded, Synced, OwnUsed, Superblock.Valid, Layout, Alloc, SetBlock, Grew, LeavesKept, TreeOk,
         GetBlock, Moved, Used, StepSpec, Taken, Filled, IndexMissing;
    own2 := own;
    AllocSpec(Blocks, fs, own);
    if fs.sb.freeBlocks > 0 {
      var (fs1, o) := Alloc(Blocks, fs);
      var b := OrZero(o);
      var fs2 := PutBlk(fs1, b as int, data);
      FreshData(fs, own, n, blk, data);
      own2 := SetBlockLaw(fs2, own, n, blk, b);
      var (fs3, n2) := SetBlock(fs2, n, blk, b);
      StepCompose(fs, own, n, blk, fs2, b, fs3, n2, own2);
      TakenFrom(fs, n, blk, fs2, fs3, n2);
    }
  }

  lemma TakenFrom(fs: Fs, n: Inode, blk: nat, fs2: Fs, fs3: Fs, n2: Inode)
    requires Volume(fs) && Volume(fs2) && Volume(fs3) && SameGeometry(fs.sb, fs2.sb) && SameGeometry(fs2.sb, fs3.sb)
    requires blk < MaxBlocks(fs.sb.Ptrs()) && GetBlock(fs.disk, fs.sb.Ptrs(), n.block, blk).None?
    requires SamePtrs(fs.disk, fs2.disk, fs.sb.Ptrs(), n.block)
             && fs2.sb.freeBlocks as int == fs.sb.freeBlocks as int - 1
    requires Filled(fs2.disk, n.block, fs3.disk, n2.block, fs.sb.Ptrs(), PathOf(fs.sb.Ptrs(), blk))
    requires fs3.sb.freeBlocks as int ==
             fs2.sb.freeBlocks as int - IndexMissing(fs2, n, blk)
    ensures forall blocks: u32 :: Taken(fs, n, blk, fs3, n2.(blocks := blocks))
  {
    hide Superblock.Valid, PathOf, Mul, MaxBlocks;
    var p := fs.sb.Ptrs();
    PathOfIsLeaf(p, blk);
    var path := PathOf(p, blk);
    ParentPath(p, path);
    if |path| > 1 { MissingSame(fs.disk, fs2.disk, p, n.block, Parent(path)); }
  }

  /** A data block for which there is one, but not its index blocks: the map and the data blocks are as before. */
  lemma AllocMappedFails(fs: Fs, own: Ownership, n: Inode, blk: nat, data: Buf) returns (own2: Ownership)
    requires Volume(fs) && Core(fs, own) && blk < MaxBlocks(fs.sb.Ptrs()) && |data| == fs.sb.BlockSize()
             && fs.sb.freeBlocks > 0
    requires TreeOk(fs.disk, fs.sb.Ptrs(), own, n.ino as int, n.block) && !StepRoom(fs, n, blk)
    ensures var o := AllocMapped(fs, n, blk, data);
            && o.Some?
            && var (r, n2, _) := o.value;
               var p, ino := fs.sb.Ptrs(), n.ino as int;
            && TreeOk(r.disk, p, own2, ino, n2.block) && Stays(fs, own, r, own2, ino)
            && Exhausted(r) && o.value.2 as int !in own2
            && forall m :: 0 <= m < MaxBlocks(p) ==>
               GetBlock(r.disk, p, n2.block, m) == GetBlock(fs.disk, p, n.block, m)
  {
    hide Counted, Padded, Synced, OwnUsed, Superblock.Valid, Layout, Alloc, SetBlock, LeavesKept, TreeOk, GetBlock,
         Moved, Used, PathOf, SamePtrs, Exhausted;
    var (fs1, o) := Alloc(Blocks, fs);
    var b := OrZero(o);
    var fs2 := PutBlk(fs1, b as int, data);
    FreshData(fs, own, n, blk, data);
    own2 := SetBlockFails(fs2, own, n, blk, b);
    StaysGrew(fs, own, fs2, own, n.ino as int);
    NewUnused(fs, fs2, own, own2, SetBlock(fs2, n, blk, b).0);
    StaysTrans(fs, own, fs2, own, SetBlock(fs2, n, blk, b).0, own2, n.ino as int);
  }

  lemma NewUnused(fs: Fs, fs2: Fs, own: Ownership, own2: Ownership, r: Fs)
    requires Shape(fs) && Shape(fs2) && Shape(r) && Layout(r, own2) && SameStatic(fs, r)
    requires forall b: nat :: InRange(Blocks, fs.sb, b) && Used(fs, Blocks, b) ==> Used(fs2, Blocks, b)
    requires forall b :: b in own2 && b !in own ==> !Used(fs2, Blocks, b)
    ensures forall b :: b in own2 && b !in own ==> !Used(fs, Blocks, b)
  {
    hide Superblock.Valid, Used;
  }

  lemma GetOrAllocSpec(fs: Fs, own: Ownership, n: Inode, blk: nat) returns (own2: Ownership)
    requires Volume(fs) && Core(fs, own) && blk < MaxBlocks(fs.sb.Ptrs())
    requires TreeOk(fs.disk, fs.sb.Ptrs(), own, n.ino as int, n.block) && StepRoom(fs, n, blk)
    ensures var o := GetOrAlloc(fs, n, blk);
            && (o.None? <==> GetBlock(fs.disk, fs.sb.Ptrs(), n.block, blk).None? && fs.sb.freeBlocks == 0)
            && (o.Some? ==> StepSpec(fs, own, n, blk, o.value.0, o.value.1, o.value.2, own2))
            && (o.Some? ==> Taken(fs, n, blk, o.value.0, o.value.1) && Charges(fs, n, blk, o.value.1))
  {
    hide Counted, Padded, Synced, OwnUsed, Superblock.Valid, Layout, AllocMapped, Grew, LeavesKept, TreeOk, GetBlock,
         Zeros, Used, Taken;
    own2 := own;
    if GetBlock(fs.disk, fs.sb.Ptrs(), n.block, blk).Some? {
      GrewSelf(fs, own, n.ino as int);
      NothingTaken(fs, n, blk);
    } else {
      own2 := AllocMappedSpec(fs, own, n, blk, Zeros(fs.sb.BlockSize()));
    }
  }

  lemma NothingTaken(fs: Fs, n: Inode, blk: nat)
    requires Volume(fs) && blk < MaxBlocks(fs.sb.Ptrs()) && GetBlock(fs.disk, fs.sb.Ptrs(), n.block, blk).Some?
    ensures Taken(fs, n, blk, fs, n)
  {
    hide Superblock.Valid, PathOf, Mul, MaxBlocks, PtrAt;
    var p := fs.sb.Ptrs();
    PathOfIsLeaf(p, blk);
    forall q | IsPath(p, q) && q <= PathOf(p, blk) ensures PtrAt(fs.disk, p, n.block, q) != 0 {
      SetAbove(fs.disk, p, n.block, PathOf(p, blk), q);
    }
  }

  /** A pointer needs all index blocks above it. */
  lemma {:induction false} SetAbove(d: seq<Buf>, p: nat, s: Slots, path: seq<nat>, q: seq<nat>)
    requires DiskShape(d, 4 * p) && IsPath(p, path) && IsPath(p, q) && q <= path && PtrAt(d, p, s, path) != 0
    ensures PtrAt(d, p, s, q) != 0
    decreases |path|
  {
    if |q| < |path| { SetAbove(d, p, s, Parent(path), q); } else { assert q == path; }
  }

  /** The same pointers on two volumes. */
  ghost predicate SamePtrs(d: seq<Buf>, r: seq<Buf>, p: nat, s: Slots)
    requires DiskShape(d, 4 * p) && DiskShape(r, 4 * p)
  {
    forall q :: IsPath(p, q) ==> PtrAt(r, p, s, q) == PtrAt(d, p, s, q)
  }

  /** The volume after the data block is allocated and written, before it is mapped. */
  lemma FreshData(fs: Fs, own: Ownership, n: Inode, blk: nat, data: Buf)
    requires Volume(fs) && Core(fs, own) && blk < MaxBlocks(fs.sb.Ptrs()) && fs.sb.freeBlocks > 0
             && |data| == fs.sb.BlockSize()
    requires TreeOk(fs.disk, fs.sb.Ptrs(), own, n.ino as int, n.block)
    requires GetBlock(fs.disk, fs.sb.Ptrs(), n.block, blk).None?
    ensures var (fs1, o) := Alloc(Blocks, fs);
            var b := OrZero(o);
            var fs2 := PutBlk(fs1, b as int, data);
            var p, ino := fs.sb.Ptrs(), n.ino as int;
            && o.Some? && Volume(fs2) && Core(fs2, own) && TreeOk(fs2.disk, p, own, ino, n.block)
            && 0 < b as int < |fs.disk| == |fs2.disk| && fs2.disk[b] == data && b as int !in own
               && !Used(fs, Blocks, b as int)
            && InRange(Blocks, fs2.sb, b as int) && Used(fs2, Blocks, b as int)
            && (IndexRoom(fs2, n, blk) <==> StepRoom(fs, n, blk))
            && (forall m :: 0 <= m < MaxBlocks(p) ==>
               GetBlock(fs2.disk, p, n.block, m) == GetBlock(fs.disk, p, n.block, m))
            && Grew(fs, fs2, own, own, ino) && LeavesKept(fs.disk, fs2.disk, own, ino)
            && fs2.sb.freeBlocks as int == fs.sb.freeBlocks as int - 1
            && SamePtrs(fs.disk, fs2.disk, p, n.block)
  {
    hide Counted, Padded, Synced, OwnUsed, Superblock.Valid, Alloc, BitUsed, GroupOf, BitOfItem, IsPath, PathOf, Mul,
         Div, Mod, TreeOk;
    var (fs1, o) := Alloc(Blocks, fs);
    var p, ino := fs.sb.Ptrs(), n.ino as int;
    FreshBlock(fs, own);
    var b := OrZero(o);
    var fs2 := PutBlk(fs1, b as int, data);
    CoreFrame(fs1, own, fs2.disk);
    AllocKeepsTree(fs, fs1, own, p, ino, n.block);
    UnownedWrite(fs1.disk, fs2.disk, p, own, ino, n.block, b as int);
    VolumeFacts(fs2);
    DerivedKept(fs.sb, fs2.sb);
    assert fs2.sb.Free(Inodes) == fs.sb.Free(Inodes);
    PathOfIsLeaf(p, blk);
    var path := PathOf(p, blk);
    ParentPath(p, path);
    if |path| > 1 { MissingSame(fs.disk, fs2.disk, p, n.block, Parent(path)); }
    forall m | 0 <= m < MaxBlocks(p) ensures GetBlock(fs2.disk, p, n.block, m) == GetBlock(fs.disk, p, n.block, m) {
      PathOfIsLeaf(p, m);
    }
  }

  lemma UnownedWrite(d: seq<Buf>, r: seq<Buf>, p: nat, own: Ownership, ino: nat, s: Slots, b: nat)
    requires DiskShape(d, 4 * p) && DiskShape(r, 4 * p) && |r| == |d| && TreeOk(d, p, own, ino, s) && b !in own
    requires forall c :: 0 <= c < |d| && c != b ==> r[c] == d[c]
    ensures TreeOk(r, p, own, ino, s)
    ensures forall q :: IsPath(p, q) ==> PtrAt(r, p, s, q) == PtrAt(d, p, s, q)
  {
    forall q | IsPath(p, q) ensures PtrAt(r, p, s, q) == PtrAt(d, p, s, q) {
      PtrFrame(d, r, p, own, ino, s, q);
    }
  }

  lemma {:induction false} MissingSame(d: seq<Buf>, r: seq<Buf>, p: nat, s: Slots, path: seq<nat>)
    requires DiskShape(d, 4 * p) && DiskShape(r, 4 * p) && IsPath(p, path)
    requires forall q :: IsPath(p, q) ==> PtrAt(r, p, s, q) == PtrAt(d, p, s, q)
    ensures Missing(r, p, s, path) == Missing(d, p, s, path)
    decreases |path|
  {
    if |path| > 1 { MissingSame(d, r, p, s, Parent(path)); }
  }

  lemma StepCompose(fs: Fs, own: Ownership, n: Inode, blk: nat, fs2: Fs, b: u32, fs3: Fs, n2: Inode, own2: Ownership)
    requires Volume(fs) && Core(fs, own) && blk < MaxBlocks(fs.sb.Ptrs()) && Volume(fs2) && Core(fs2, own)
             && Volume(fs3)
    requires SameGeometry(fs.sb, fs2.sb) && SameGeometry(fs2.sb, fs3.sb)
    requires GetBlock(fs.disk, fs.sb.Ptrs(), n.block, blk).None?
    requires Grew(fs, fs2, own, own, n.ino as int) && LeavesKept(fs.disk, fs2.disk, own, n.ino as int)
    requires 0 < b as int < |fs.disk| && b as int !in own && !Used(fs, Blocks, b as int)
    requires forall m :: 0 <= m < MaxBlocks(fs.sb.Ptrs()) ==>
               GetBlock(fs2.disk, fs.sb.Ptrs(), n.block, m) == GetBlock(fs.disk, fs.sb.Ptrs(), n.block, m)
    requires var p, ino := fs.sb.Ptrs(), n.ino as int;
            && Core(fs3, own2) && n2 == n.(block := n2.block)
            && Owns(own2, b as int, OwnPtr(ino, PathOf(p, blk)))
            && TreeOk(fs3.disk, p, own2, ino, n2.block)
            && (forall m :: 0 <= m < MaxBlocks(p) ==>
                  GetBlock(fs3.disk, p, n2.block, m) == if m == blk then Some(b) else GetBlock(fs2.disk, p, n.block, m))
            && Grew(fs2, fs3, own[b as int := OwnPtr(ino, PathOf(p, blk))], own2, ino)
            && LeavesKept(fs2.disk, fs3.disk, own, ino)
    requires fs3.sb.freeBlocks as int >= fs.sb.freeBlocks as int - 4
    ensures forall blocks: u32 :: StepSpec(fs, own, n, blk, fs3, n2.(blocks := blocks), b, own2)
  {
    hide Counted, Padded, Synced, OwnUsed, Superblock.Valid, Used, TreeOk, GetBlock, PathOf, LeavesKept, MaxBlocks,
         InRange;
    var p, ino := fs.sb.Ptrs(), n.ino as int;
    var own1 := own[b as int := OwnPtr(ino, PathOf(p, blk))];
    assert Grew(fs, fs2, own, own1, ino);
    GrewTrans(fs, fs2, fs3, own, own1, own2, ino);
    LeavesKeptTrans(fs.disk, fs2.disk, fs3.disk, own, own, ino);
  }

  // ---------------------------------------------------------------- one iteration of write

  /** Positions of the file and positions within a block. */
  lemma ByteWindow(bsz: nat, pos: nat, k: nat, i: nat)
    requires bsz > 0 && Mod(pos, bsz) + k <= bsz
    ensures pos <= i < pos + k <==> Div(i, bsz) == Div(pos, bsz) && Mod(pos, bsz) <= Mod(i, bsz) < Mod(pos, bsz) + k
    ensures pos <= i < pos + k ==> Mod(i, bsz) - Mod(pos, bsz) == i - pos
  {
    hide Mul, Div, Mod;
    DivMod(pos, bsz);
    DivMod(i, bsz);
    if pos <= i < pos + k {
      DivModOf(Div(pos, bsz), bsz, Mod(pos, bsz) + (i - pos));
    }
  }

  /** Bytes `lo..hi` come from `buf`; every other byte that was mapped is unchanged. */
  ghost predicate Written(d: seq<Buf>, s: Slots, r: seq<Buf>, t: Slots, p: nat, lo: nat, hi: nat, buf: Buf, offset: nat)
    requires p > 0 && DiskShape(d, 4 * p) && DiskShape(r, 4 * p) && offset <= lo && hi <= offset + |buf|
  {
    forall i: nat ::
      && (lo <= i < hi ==> ByteAt(r, p, t, i) == buf[i - offset] as int)
      && (!(lo <= i < hi) && ByteAt(d, p, s, i) != -1 ==> ByteAt(r, p, t, i) == ByteAt(d, p, s, i))
  }

  /** Mapping a block disturbs no byte that was mapped before. */
  lemma StepBytes(fs: Fs, own: Ownership, n: Inode, blk: nat, r: Fs, n2: Inode, b: u32, own2: Ownership, i: nat)
    requires Volume(fs) && blk < MaxBlocks(fs.sb.Ptrs()) && StepSpec(fs, own, n, blk, r, n2, b, own2)
    requires TreeOk(fs.disk, fs.sb.Ptrs(), own, n.ino as int, n.block)
    requires ByteAt(fs.disk, fs.sb.Ptrs(), n.block, i) != -1
    ensures ByteAt(r.disk, fs.sb.Ptrs(), n2.block, i) == ByteAt(fs.disk, fs.sb.Ptrs(), n.block, i)
  {
    hide Core, GetBlock, TreeOk, Grew, Mul, Div, Mod, Superblock.Valid;
    var p := fs.sb.Ptrs();
    var m := Div(i, 4 * p);
    if m != blk {
      GetBlockOwned(fs.disk, p, own, n.ino as int, n.block, m);
    }
  }

  lemma LeafNotPrefix(p: nat, leaf: seq<nat>, q: seq<nat>)
    requires IsLeaf(leaf) && IsPath(p, q)
    ensures !(leaf < q)
  {
  }

  /** Patching data block `b` of logical block Div(pos): the map stands, the bytes change there only. */
  lemma PatchSpec(fs: Fs, own: Ownership, n: Inode, pos: nat, b: u32, data: Buf)
    requires Volume(fs) && Core(fs, own) && pos < MaxBytes(fs.sb.Ptrs())
    requires Mod(pos, fs.sb.BlockSize()) + |data| <= fs.sb.BlockSize()
    requires TreeOk(fs.disk, fs.sb.Ptrs(), own, n.ino as int, n.block)
    requires Div(pos, fs.sb.BlockSize()) < MaxBlocks(fs.sb.Ptrs())
    requires GetBlock(fs.disk, fs.sb.Ptrs(), n.block, Div(pos, fs.sb.BlockSize())) == Some(b)
    ensures var r := PatchBlock(fs, b, Mod(pos, fs.sb.BlockSize()), data);
            var p, ino := fs.sb.Ptrs(), n.ino as int;
            && Core(r, own) && TreeOk(r.disk, p, own, ino, n.block) && Grew(fs, r, own, own, ino)
            && (forall m :: 0 <= m < MaxBlocks(p) ==>
               GetBlock(r.disk, p, n.block, m) == GetBlock(fs.disk, p, n.block, m))
            && SamePtrs(fs.disk, r.disk, p, n.block)
            && (forall i: nat :: ByteAt(r.disk, p, n.block, i) ==
                  if pos <= i < pos + |data| then data[i - pos] as int else ByteAt(fs.disk, p, n.block, i))
  {
    hide Counted, Padded, Synced, OwnUsed, Superblock.Valid, Used, TreeOk, GetBlock, Mul, Div, Mod, ByteAt, SamePtrs;
    var bsz, p, ino := fs.sb.BlockSize(), fs.sb.Ptrs(), n.ino as int;
    var r := PatchBlock(fs, b, Mod(pos, bsz), data);
    var blk := Div(pos, bsz);
    GetBlockOwned(fs.disk, p, own, ino, n.block, blk);
    CoreFrame(fs, own, r.disk);
    LeafWriteTree(fs.disk, r.disk, p, own, ino, n.block, b as int);
    forall i: nat
      ensures ByteAt(r.disk, p, n.block, i) == if pos <= i < pos + |data|
              then data[i - pos] as int else ByteAt(fs.disk, p, n.block, i)
    {
      PatchByte(fs, own, n, pos, b, data, i);
    }
  }

  lemma LeafWriteTree(d: seq<Buf>, r: seq<Buf>, p: nat, own: Ownership, ino: nat, s: Slots, b: nat)
    requires p > 0 && DiskShape(d, 4 * p) && DiskShape(r, 4 * p) && |r| == |d| && TreeOk(d, p, own, ino, s)
    requires b in own && OwnedBy(own[b], ino) && IsLeaf(own[b].path)
    requires forall c :: 0 <= c < |d| && c != b ==> r[c] == d[c]
    ensures TreeOk(r, p, own, ino, s) && SamePtrs(d, r, p, s)
    ensures forall m :: 0 <= m < MaxBlocks(p) ==> GetBlock(r, p, s, m) == GetBlock(d, p, s, m)
  {
    hide IsPath, PathOf, Mul, Div, Mod, IsLeaf;
    forall q | IsPath(p, q) ensures PtrAt(r, p, s, q) == PtrAt(d, p, s, q) {
      LeafNotPrefix(p, own[b].path, q);
      PtrFrame(d, r, p, own, ino, s, q);
    }
    forall m | 0 <= m < MaxBlocks(p) ensures GetBlock(r, p, s, m) == GetBlock(d, p, s, m) {
      PathOfIsLeaf(p, m);
    }
  }

  lemma PatchByte(fs: Fs, own: Ownership, n: Inode, pos: nat, b: u32, data: Buf, i: nat)
    requires Volume(fs) && Core(fs, own) && pos < MaxBytes(fs.sb.Ptrs())
    requires Mod(pos, fs.sb.BlockSize()) + |data| <= fs.sb.BlockSize()
    requires TreeOk(fs.disk, fs.sb.Ptrs(), own, n.ino as int, n.block)
    requires Div(pos, fs.sb.BlockSize()) < MaxBlocks(fs.sb.Ptrs())
    requires GetBlock(fs.disk, fs.sb.Ptrs(), n.block, Div(pos, fs.sb.BlockSize())) == Some(b)
    requires var r := PatchBlock(fs, b, Mod(pos, fs.sb.BlockSize()), data);
             forall m :: 0 <= m < MaxBlocks(fs.sb.Ptrs()) ==>
               GetBlock(r.disk, fs.sb.Ptrs(), n.block, m) == GetBlock(fs.disk, fs.sb.Ptrs(), n.block, m)
    ensures var r := PatchBlock(fs, b, Mod(pos, fs.sb.BlockSize()), data);
            ByteAt(r.disk, fs.sb.Ptrs(), n.block, i) ==
              if pos <= i < pos + |data| then data[i - pos] as int else ByteAt(fs.disk, fs.sb.Ptrs(), n.block, i)
  {
    hide Core, Superblock.Valid, TreeOk, GetBlock, Mul, Div, Mod;
    var bsz, p, ino := fs.sb.BlockSize(), fs.sb.Ptrs(), n.ino as int;
    var r := PatchBlock(fs, b, Mod(pos, bsz), data);
    ByteWindow(bsz, pos, |data|, i);
    var m, blk := Div(i, bsz), Div(pos, bsz);
    GetBlockOwned(fs.disk, p, own, ino, n.block, blk);
    if m < MaxBlocks(p) && GetBlock(fs.disk, p, n.block, m).Some? {
      GetBlockOwned(fs.disk, p, own, ino, n.block, m);
      if m != blk {
        if PathOf(p, m) == PathOf(p, blk) { PathOfInjective(p, m, blk); }
      }
    }
  }

  // ---------------------------------------------------------------- the whole write

  /** Every iteration that gets a data block also finds room for its index blocks. */
  ghost predicate WriteRoom(fs: Fs, n: Inode, offset: nat, buf: Buf, done: nat)
    requires Volume(fs) && done <= |buf| && offset + |buf| <= MaxBytes(fs.sb.Ptrs())
    decreases |buf| - done
  {
    done < |buf| ==>
      var pos := offset + done;
      BlockInRange(fs.sb.Ptrs(), pos);
      && StepRoom(fs, n, Div(pos, fs.sb.BlockSize()))
      && match GetOrAlloc(fs, n, Div(pos, fs.sb.BlockSize()))
         case None => true
         case Some((fs1, n1, phys)) =>
           var k := Chunk(fs.sb.BlockSize(), pos, |buf| - done);
           WriteRoom(PatchBlock(fs1, phys, Mod(pos, fs.sb.BlockSize()), buf[done..done + k]), n1, offset, buf, done + k)
  }

  lemma CeilMonotone(a: nat, b: nat, n: nat)
    requires n > 0 && a <= b
    ensures CeilDiv(a, n) <= CeilDiv(b, n)
  {
    hide Mul, Div, Mod;
    CeilCovers(a, n);
    CeilCovers(b, n);
    if CeilDiv(b, n) < CeilDiv(a, n) {
      MulMono(CeilDiv(b, n) + 1, CeilDiv(a, n), n);
      MulAdd(CeilDiv(b, n), 1, n);
      MulOne(n);
    }
  }

  /** The mapped prefix after one iteration: it covers the old size and the bytes written. */
  lemma CeilStep(size: nat, pos: nat, k: nat, bsz: nat)
    requires bsz > 0 && k > 0 && Mod(pos, bsz) + k <= bsz
    ensures CeilDiv(Max(size, pos + k), bsz) == Max(CeilDiv(Max(size, pos), bsz), Div(pos, bsz) + 1)
    ensures pos <= Max(size, pos)
  {
    hide Mul, Div, Mod, CeilDiv;
    var q := Div(pos, bsz) + 1;
    DivMod(pos, bsz);
    MulAdd(Div(pos, bsz), 1, bsz);
    MulOne(bsz);
    CeilOf(pos + k, bsz, q);
    CeilMonotone(pos, pos + k, bsz);
    CeilMonotone(size, Max(size, pos), bsz);
    CeilMonotone(pos, Max(size, pos), bsz);
    CeilMonotone(size, Max(size, pos + k), bsz);
    CeilMonotone(pos + k, Max(size, pos + k), bsz);
  }

  lemma DivAtMostCeil(pos: nat, x: nat, bsz: nat)
    requires bsz > 0 && pos <= x
    ensures Div(pos, bsz) <= CeilDiv(x, bsz)
  {
    hide Mul, Div, Mod;
    DivMod(pos, bsz);
    CeilCovers(x, bsz);
    if Div(pos, bsz) > CeilDiv(x, bsz) {
      MulMono(CeilDiv(x, bsz) + 1, Div(pos, bsz), bsz);
      MulAdd(CeilDiv(x, bsz), 1, bsz);
      MulOne(bsz);
    }
  }

  ghost predicate LoopSpec(fs: Fs, own: Ownership, n: Inode, lo: nat, hi: nat, buf: Buf, offset: nat, size: nat, r: Fs,
      n2: Inode, own2: Ownership)
    requires Volume(fs) && offset <= lo && hi <= offset + |buf|
  {
    var p, ino := fs.sb.Ptrs(), n.ino as int;
    && Core(r, own2) && SameGeometry(fs.sb, r.sb) && Volume(r)
    && Grew(fs, r, own, own2, ino) && TreeOk(r.disk, p, own2, ino, n2.block)
    && Written(fs.disk, n.block, r.disk, n2.block, p, lo, hi, buf, offset)
    && MappedTo(r.disk, p, n2.block, CeilDiv(Max(size, hi), 4 * p))
    && n2 == n.(block := n2.block, blocks := n2.blocks)
    && (Charged(fs.sb, n.blocks, CeilDiv(Max(size, lo), 4 * p)) ==>
        Charged(fs.sb, n2.blocks, CeilDiv(Max(size, hi), 4 * p)))
  }

  lemma {:induction false} WriteLoopSpec(fs: Fs, own: Ownership, n: Inode, offset: nat, buf: Buf, done: nat, size: nat)
      returns (own2: Ownership)
    requires Volume(fs) && Core(fs, own) && done <= |buf| && offset + |buf| <= MaxBytes(fs.sb.Ptrs())
    requires TreeOk(fs.disk, fs.sb.Ptrs(), own, n.ino as int, n.block)
    requires MappedTo(fs.disk, fs.sb.Ptrs(), n.block, CeilDiv(Max(size, offset + done), fs.sb.BlockSize()))
    requires WriteRoom(fs, n, offset, buf, done)
    ensures var (r, n2, done2) := WriteLoop(fs, n, offset, buf, done);
            && LoopSpec(fs, own, n, offset + done, offset + done2, buf, offset, size, r, n2, own2)
            && (done2 < |buf| ==> r.sb.freeBlocks == 0)
    decreases |buf| - done
  {
    hide Core, Superblock.Valid, TreeOk, GetOrAlloc, PatchBlock, Grew, MappedTo, Written, Mul, Div, Mod, CeilDiv,
         StepRoom;
    if done == |buf| {
      own2 := own;
      GrewSelf(fs, own, n.ino as int);
      WrittenNothing(fs.disk, n.block, fs.sb.Ptrs(), offset + done, buf, offset);
    } else {
      var bsz, p, ino, pos := fs.sb.BlockSize(), fs.sb.Ptrs(), n.ino as int, offset + done;
      BlockInRange(p, pos);
      var blk := Div(pos, bsz);
      var own1 := GetOrAllocSpec(fs, own, n, blk);
      own2 := own;
      match GetOrAlloc(fs, n, blk) {
        case None =>
          GrewSelf(fs, own, ino);
          WrittenNothing(fs.disk, n.block, p, pos, buf, offset);
        case Some((fs1, n1, b)) =>
          var k := Chunk(bsz, pos, |buf| - done);
          var fs2 := PatchBlock(fs1, b, Mod(pos, bsz), buf[done..done + k]);
          IterationSpec(fs, own, n, offset, buf, done, size, fs1, n1, b, own1, k, fs2);
          own2 := WriteLoopSpec(fs2, own1, n1, offset, buf, done + k, size);
          var (r, n2, done2) := WriteLoop(fs2, n1, offset, buf, done + k);
          LoopTrans(fs, own, n, offset, buf, done, done + k, done2, size, fs2, n1, own1, r, n2, own2);
      }
    }
  }

  /** Enough free blocks for a write of these bytes: four for every block it reaches, one for the data and
      three for the index blocks above it. */
  ghost predicate EnoughFree(fs: Fs, offset: nat, len: nat, done: nat)
    requires Volume(fs)
  {
    done < len ==> Div(offset + done, fs.sb.BlockSize()) <= CeilDiv(offset + len, fs.sb.BlockSize())
                   && 4 * (CeilDiv(offset + len, fs.sb.BlockSize()) - Div(offset + done,
                      fs.sb.BlockSize())) <= fs.sb.freeBlocks as int
  }

  /** With that many free blocks no allocation of the write fails. */
  lemma {:induction false} RoomEnough(fs: Fs, own: Ownership, n: Inode, offset: nat, buf: Buf, done: nat, size: nat)
    requires Volume(fs) && Core(fs, own) && done <= |buf| && offset + |buf| <= MaxBytes(fs.sb.Ptrs())
             && EnoughFree(fs, offset, |buf|, done)
    requires TreeOk(fs.disk, fs.sb.Ptrs(), own, n.ino as int, n.block)
    requires MappedTo(fs.disk, fs.sb.Ptrs(), n.block, CeilDiv(Max(size, offset + done), fs.sb.BlockSize()))
    ensures WriteRoom(fs, n, offset, buf, done) && WriteLoop(fs, n, offset, buf, done).2 == |buf|
    decreases |buf| - done
  {
    hide Core, Superblock.Valid, TreeOk, GetOrAlloc, PatchBlock, Grew, MappedTo, Written, Mul, Div, Mod, CeilDiv,
         StepRoom;
    if done < |buf| {
      var bsz, p, pos := fs.sb.BlockSize(), fs.sb.Ptrs(), offset + done;
      BlockInRange(p, pos);
      DivInCeil(pos, offset + |buf|, bsz);
      var blk := Div(pos, bsz);
      FourSuffice(fs, n, blk);
      var own1 := GetOrAllocSpec(fs, own, n, blk);
      var (fs1, n1, b) := GetOrAlloc(fs, n, blk).value;
      var k := Chunk(bsz, pos, |buf| - done);
      var fs2 := PatchBlock(fs1, b, Mod(pos, bsz), buf[done..done + k]);
      IterationSpec(fs, own, n, offset, buf, done, size, fs1, n1, b, own1, k, fs2);
      if k < |buf| - done { NextBlock(bsz, pos, |buf| - done); }
      if done + k < |buf| { DivInCeil(pos + k, offset + |buf|, bsz); }
      RoomEnough(fs2, own1, n1, offset, buf, done + k, size);
    }
  }

  lemma FourSuffice(fs: Fs, n: Inode, blk: nat)
    requires Volume(fs) && blk < MaxBlocks(fs.sb.Ptrs()) && fs.sb.freeBlocks >= 4
    ensures StepRoom(fs, n, blk)
  {
    hide Superblock.Valid, PtrAt, GetBlock, PathOf, MaxBlocks, Missing;
    PathOfIsLeaf(fs.sb.Ptrs(), blk);
    var path := PathOf(fs.sb.Ptrs(), blk);
    ParentPath(fs.sb.Ptrs(), path);
    if |path| > 1 { MissingBound(fs.disk, fs.sb.Ptrs(), n.block, Parent(path)); }
  }

  /** A piece that is not the last one ends at a block boundary. */
  lemma NextBlock(bsz: nat, pos: nat, left: nat)
    requires bsz > 0 && Chunk(bsz, pos, left) < left
    ensures Div(pos + Chunk(bsz, pos, left), bsz) == Div(pos, bsz) + 1
  {
    hide Mul, Div, Mod;
    DivMod(pos, bsz);
    MulAdd(Div(pos, bsz), 1, bsz);
    MulOne(bsz);
    DivModOf(Div(pos, bsz) + 1, bsz, 0);
  }

  lemma WrittenNothing(d: seq<Buf>, s: Slots, p: nat, lo: nat, buf: Buf, offset: nat)
    requires p > 0 && DiskShape(d, 4 * p) && offset <= lo <= offset + |buf|
    ensures Written(d, s, d, s, p, lo, lo, buf, offset)
  {
    hide ByteAt;
  }

  lemma IterationSpec(fs: Fs, own: Ownership, n: Inode, offset: nat, buf: Buf, done: nat, size: nat,
                      fs1: Fs, n1: Inode, b: u32, own1: Ownership, k: nat, fs2: Fs)
    requires Volume(fs) && Volume(fs1) && SameGeometry(fs.sb, fs1.sb)
    requires done < |buf| && k == Chunk(fs.sb.BlockSize(), offset + done, |buf| - done)
    requires fs2 == PatchBlock(fs1, b, Mod(offset + done, fs.sb.BlockSize()), buf[done..done + k])
    requires offset + |buf| <= MaxBytes(fs.sb.Ptrs()) && Div(offset + done, fs.sb.BlockSize()) < MaxBlocks(fs.sb.Ptrs())
    requires n1 == n.(block := n1.block, blocks := n1.blocks)
    requires MappedTo(fs.disk, fs.sb.Ptrs(), n.block, CeilDiv(Max(size, offset + done), fs.sb.BlockSize()))
    requires TreeOk(fs.disk, fs.sb.Ptrs(), own, n.ino as int, n.block)
    requires StepSpec(fs, own, n, Div(offset + done, fs.sb.BlockSize()), fs1, n1, b, own1)
    requires Charges(fs, n, Div(offset + done, fs.sb.BlockSize()), n1)
    ensures LoopSpec(fs, own, n, offset + done, offset + done + k, buf, offset, size, fs2, n1, own1)
  {
    hide Counted, Padded, Synced, OwnUsed, Superblock.Valid, TreeOk, PatchBlock, Grew, GetBlock, ByteAt, Mul, Div,
         Mod, CeilDiv, Used;
    var bsz, p, ino, pos := fs.sb.BlockSize(), fs.sb.Ptrs(), n.ino as int, offset + done;
    var data := buf[done..done + k];
    PatchSpec(fs1, own1, n1, pos, b, data);
    GrewOwn(fs, fs1, own, own1, ino);
    GrewTrans(fs, fs1, fs2, own, own1, own1, ino);
    forall i: nat
      ensures pos <= i < pos + k ==> ByteAt(fs2.disk, p, n1.block, i) == buf[i - offset] as int
      ensures !(pos <= i < pos + k) && ByteAt(fs.disk, p, n.block, i) != -1 ==>
                ByteAt(fs2.disk, p, n1.block, i) == ByteAt(fs.disk, p, n.block, i)
    {
      if ByteAt(fs.disk, p, n.block, i) != -1 {
        StepBytes(fs, own, n, Div(pos, bsz), fs1, n1, b, own1, i);
      }
    }
    CeilStep(size, pos, k, bsz);
    DivAtMostCeil(pos, Max(size, pos), bsz);
    IterationCharged(fs, n, pos, k, size, n1);
  }

  lemma IterationCharged(fs: Fs, n: Inode, pos: nat, k: nat, size: nat, n1: Inode)
    requires Volume(fs) && k > 0 && Mod(pos, fs.sb.BlockSize()) + k <= fs.sb.BlockSize()
    requires Div(pos, fs.sb.BlockSize()) < MaxBlocks(fs.sb.Ptrs()) && Charges(fs, n, Div(pos, fs.sb.BlockSize()), n1)
    requires MappedTo(fs.disk, fs.sb.Ptrs(), n.block, CeilDiv(Max(size, pos), fs.sb.BlockSize()))
    ensures Charged(fs.sb, n.blocks, CeilDiv(Max(size, pos), 4 * fs.sb.Ptrs())) ==>
            Charged(fs.sb, n1.blocks, CeilDiv(Max(size, pos + k), 4 * fs.sb.Ptrs()))
  {
    hide Superblock.Valid, GetBlock, Mul, Div, Mod, CeilDiv, Charged;
    var bsz := fs.sb.BlockSize();
    var nb := CeilDiv(Max(size, pos), bsz);
    CeilStep(size, pos, k, bsz);
    DivAtMostCeil(pos, Max(size, pos), bsz);
    if Charged(fs.sb, n.blocks, nb) { ChargedMore(fs.sb, n.blocks, nb); }
  }

  lemma LoopTrans(fs: Fs, own: Ownership, n: Inode, offset: nat, buf: Buf, d0: nat, d1: nat, d2: nat, size: nat,
                  fs1: Fs, n1: Inode, own1: Ownership, r: Fs, n2: Inode, own2: Ownership)
    requires Volume(fs) && Volume(fs1) && d0 <= d1 <= d2 <= |buf|
    requires LoopSpec(fs, own, n, offset + d0, offset + d1, buf, offset, size, fs1, n1, own1)
    requires LoopSpec(fs1, own1, n1, offset + d1, offset + d2, buf, offset, size, r, n2, own2)
    ensures LoopSpec(fs, own, n, offset + d0, offset + d2, buf, offset, size, r, n2, own2)
  {
    hide Counted, Padded, Synced, OwnUsed, Superblock.Valid, TreeOk, Grew, ByteAt, MappedTo, Mul, Div, Mod, CeilDiv;
    var ino := n.ino as int;
    GrewOwn(fs, fs1, own, own1, ino);
    GrewOwn(fs1, r, own1, own2, ino);
    GrewTrans(fs, fs1, r, own, own1, own2, ino);
    var p := fs.sb.Ptrs();
    assert fs1.sb.Ptrs() == p;
    forall i: nat
      ensures offset + d0 <= i < offset + d2 ==> ByteAt(r.disk, p, n2.block, i) == buf[i - offset] as int
      ensures !(offset + d0 <= i < offset + d2) && ByteAt(fs.disk, p, n.block, i) != -1 ==>
                ByteAt(r.disk, p, n2.block, i) == ByteAt(fs.disk, p, n.block, i)
    {
      assert offset + d0 <= i < offset + d1 ==> ByteAt(fs1.disk, p, n1.block, i) == buf[i - offset] as int;
    }
  }

  // ---------------------------------------------------------------- read

  function ReadLoop(fs: Fs, n: Inode, offset: nat, toRead: nat, done: nat): Buf
    requires Volume(fs) && done <= toRead && offset + toRead <= MaxBytes(fs.sb.Ptrs())
    decreases toRead - done
  {
    if done == toRead then []
    else
      var pos := offset + done;
      BlockInRange(fs.sb.Ptrs(), pos);
      match GetBlock(fs.disk, fs.sb.Ptrs(), n.block, Div(pos, fs.sb.BlockSize()))
      case None => []
      case Some(b) =>
        var k := Chunk(fs.sb.BlockSize(), pos, toRead - done);
        var off := Mod(pos, fs.sb.BlockSize());
        ReadBlk(fs.disk, fs.sb.BlockSize(), b as int)[off..off + k] + ReadLoop(fs, n, offset, toRead, done + k)
  }

  /** On these volumes the block map addresses every 32-bit file size. */
  lemma MaxBytesBig(p: nat)
    requires p >= 512
    ensures MaxBytes(p) >= 0x2_0000_0000
  {
    hide Mul;
    MulGrows(512, p, 512, p);
    MulGrows(512, p, Mul(512, 512), Mul(p, p));
    MulGrows(Mul(512, Mul(512, 512)), MaxBlocks(p), 2048, 4 * p);
    NativeMul(512, 512);
    NativeMul(512, 512 * 512);
    NativeMul(512 * 512 * 512, 2048);
  }

  lemma MulGrows(a: nat, b: nat, m: nat, n: nat)
    requires a <= b && m <= n
    ensures Mul(a, m) <= Mul(b, n)
  {
    hide Mul;
    MulMono(a, b, m);
    MulCommutes(b, m);
    MulCommutes(b, n);
    MulMono(m, n, b);
  }

  lemma VolumeBig(fs: Fs)
    requires Shape(fs)
    ensures Volume(fs) && MaxBytes(fs.sb.Ptrs()) >= 0x2_0000_0000
  {
    hide Superblock.NumGroups, Mul;
    BlockSizeFacts(fs.sb);
    MaxBytesBig(fs.sb.Ptrs());
  }

  /** Ext2FileINode::read: the bytes copied into a buffer of `len` bytes. */
  function ReadFile(fs: Fs, ino: nat, offset: nat, len: nat): Buf
    requires Volume(fs) && IsIno(fs.sb, ino)
  {
    var n := ReadInode(fs, ino);
    if len == 0 || offset >= n.size as int then []
    else
      VolumeBig(fs);
      ReadLoop(fs, n, offset, Min(len, n.size as int - offset), 0)
  }

  /** The first |bytes| bytes of the file are `bytes`. */
  ghost predicate HasBytes(disk: seq<Buf>, p: nat, s: Slots, bytes: Buf)
    requires p > 0 && DiskShape(disk, 4 * p)
  {
    forall i :: 0 <= i < |bytes| ==> ByteAt(disk, p, s, i) == bytes[i] as int
  }

  lemma ReadRound(fs: Fs, n: Inode, offset: nat, toRead: nat, done: nat)
    requires Volume(fs) && done < toRead && offset + toRead <= MaxBytes(fs.sb.Ptrs())
    requires Div(offset + done, fs.sb.BlockSize()) < MaxBlocks(fs.sb.Ptrs())
    ensures ReadLoop(fs, n, offset, toRead, done) ==
            match GetBlock(fs.disk, fs.sb.Ptrs(), n.block, Div(offset + done, fs.sb.BlockSize()))
            case None => []
            case Some(b) =>
              var k, off := Chunk(fs.sb.BlockSize(), offset + done, toRead - done),
                  Mod(offset + done, fs.sb.BlockSize());
              ReadBlk(fs.disk, fs.sb.BlockSize(), b as int)[off..off + k] + ReadLoop(fs, n, offset, toRead, done + k)
  {
    hide Shape, DiskShape, ReadBlk, GetBlock, Chunk, MaxBytes, MaxBlocks, Mod, Div;
  }

  lemma {:induction false} ReadLoopSpec(fs: Fs, n: Inode, bytes: Buf, offset: nat, toRead: nat, done: nat)
    requires Volume(fs) && done <= toRead && offset + toRead <= |bytes| <= MaxBytes(fs.sb.Ptrs())
    requires HasBytes(fs.disk, fs.sb.Ptrs(), n.block, bytes)
    ensures ReadLoop(fs, n, offset, toRead, done) == bytes[offset + done..offset + toRead]
    decreases toRead - done
  {
    hide Shape, DiskShape, GetBlock, Mul, Div, Mod, ReadBlk, HasBytes, MaxBytes, MaxBlocks, ReadLoop;
    if done == toRead {
      ReadDone(fs, n, offset, toRead);
    } else {
      var bsz, p, pos := fs.sb.BlockSize(), fs.sb.Ptrs(), offset + done;
      BlockInRange(p, pos);
      ReadRound(fs, n, offset, toRead, done);
      var k := Chunk(bsz, pos, toRead - done);
      PieceIs(fs, n, bytes, pos, k);
      ReadLoopSpec(fs, n, bytes, offset, toRead, done + k);
      assert bytes[pos..pos + k] + bytes[pos + k..offset + toRead] == bytes[pos..offset + toRead];
    }
  }

  /** The part of one block that a round of the loop copies. */
  lemma PieceIs(fs: Fs, n: Inode, bytes: Buf, pos: nat, k: nat)
    requires Volume(fs) && 0 < k && pos + k <= |bytes| <= MaxBytes(fs.sb.Ptrs())
             && Mod(pos, fs.sb.BlockSize()) + k <= fs.sb.BlockSize()
    requires HasBytes(fs.disk, fs.sb.Ptrs(), n.block, bytes) && Div(pos, fs.sb.BlockSize()) < MaxBlocks(fs.sb.Ptrs())
    ensures var b := GetBlock(fs.disk, fs.sb.Ptrs(), n.block, Div(pos, fs.sb.BlockSize()));
            b.Some? && ReadBlk(fs.disk, fs.sb.BlockSize(),
                b.value as int)[Mod(pos, fs.sb.BlockSize())..Mod(pos, fs.sb.BlockSize()) + k] == bytes[pos..pos + k]
  {
    hide Superblock.Valid, GetBlock, Mul, Div, Mod, MaxBlocks, MaxBytes;
    var bsz, p, off := fs.sb.BlockSize(), fs.sb.Ptrs(), Mod(pos, fs.sb.BlockSize());
    assert ByteAt(fs.disk, p, n.block, pos) == bytes[pos] as int;
    var b := GetBlock(fs.disk, p, n.block, Div(pos, bsz)).value;
    var data := ReadBlk(fs.disk, bsz, b as int)[off..off + k];
    forall j | 0 <= j < k ensures data[j] == bytes[pos + j] {
      ByteWindow(bsz, pos, k, pos + j);
      assert ByteAt(fs.disk, p, n.block, pos + j) == bytes[pos + j] as int;
    }
  }

  lemma ReadDone(fs: Fs, n: Inode, offset: nat, toRead: nat)
    requires Volume(fs) && offset + toRead <= MaxBytes(fs.sb.Ptrs())
    ensures ReadLoop(fs, n, offset, toRead, toRead) == []
  {
  }

  // ---------------------------------------------------------------- files as byte sequences

  /** No index block hangs on the inode. */
  predicate DirectOnly(s: Slots) { s[12] == 0 && s[13] == 0 && s[14] == 0 }

  predicate SameIndex(s: Slots, t: Slots) { s[12] == t[12] && s[13] == t[13] && s[14] == t[14] }

  /** Mapping one of the first twelve blocks needs no index block. */
  lemma DirectStep(fs: Fs, n: Inode, blk: nat)
    requires Volume(fs) && blk < 12 && blk < MaxBlocks(fs.sb.Ptrs())
    ensures var o := GetOrAlloc(fs, n, blk); o.Some? ==> SameIndex(n.block, o.value.1.block)
  {
    hide Superblock.Valid, Alloc, DiskShape, PutBlk, Zeros;
  }

  lemma {:induction false} DirectLoop(fs: Fs, n: Inode, offset: nat, buf: Buf, done: nat)
    requires Volume(fs) && done <= |buf| && offset + |buf| <= MaxBytes(fs.sb.Ptrs())
    ensures var (r, n2, done2) := WriteLoop(fs, n, offset, buf, done);
            (done2 > done ==> CeilDiv(offset + done2, fs.sb.BlockSize()) <= 12) ==> SameIndex(n.block, n2.block)
    decreases |buf| - done
  {
    hide Superblock.Valid, GetOrAlloc, PatchBlock, Mul, Div, Mod, CeilDiv, MaxBytes, MaxBlocks, SameIndex;
    if done < |buf| {
      var bsz, p, pos := fs.sb.BlockSize(), fs.sb.Ptrs(), offset + done;
      BlockInRange(p, pos);
      var blk := Div(pos, bsz);
      match GetOrAlloc(fs, n, blk) {
        case None =>
          SameSlots(n.block);
        case Some((fs1, n1, b)) =>
          var k := Chunk(bsz, pos, |buf| - done);
          var fs2 := PatchBlock(fs1, b, Mod(pos, bsz), buf[done..done + k]);
          DirectLoop(fs2, n1, offset, buf, done + k);
          var (r, n2, done2) := WriteLoop(fs2, n1, offset, buf, done + k);
          if CeilDiv(offset + done2, bsz) <= 12 {
            DivInCeil(pos, offset + done2, bsz);
            DirectStep(fs, n, blk);
            IndexTrans(n.block, n1.block, n2.block);
          }
      }
    } else {
      SameSlots(n.block);
    }
  }

  lemma SameSlots(s: Slots)
    ensures SameIndex(s, s)
  {
  }

  lemma IndexTrans(s: Slots, t: Slots, u: Slots)
    ensures SameIndex(s, t) && SameIndex(t, u) ==> SameIndex(s, u)
  {
  }

  /** A file that still fits the direct slots still has no index block. */
  lemma StillDirect(fs: Fs, n: Inode, bytes: Buf, offset: nat, buf: Buf)
    requires Volume(fs) && offset + |buf| <= MaxBytes(fs.sb.Ptrs()) && offset <= |bytes|
    requires CeilDiv(|bytes|, fs.sb.BlockSize()) <= 12 ==> DirectOnly(n.block)
    ensures var (r, n2, done) := WriteLoop(fs, n, offset, buf, 0);
            CeilDiv(Max(|bytes|, offset + done), fs.sb.BlockSize()) <= 12 ==> DirectOnly(n2.block)
  {
    hide Superblock.Valid, WriteLoop, Mul, Div, Mod, CeilDiv, MaxBytes, MaxBlocks;
    var (r, n2, done) := WriteLoop(fs, n, offset, buf, 0);
    DirectLoop(fs, n, offset, buf, 0);
    CeilMonotone(|bytes|, Max(|bytes|, offset + done), fs.sb.BlockSize());
    CeilMonotone(offset + done, Max(|bytes|, offset + done), fs.sb.BlockSize());
  }

  /** Inode `ino` is a regular file, free of holes and without idle index blocks, whose contents are `bytes`. */
  ghost predicate FileOk(fs: Fs, own: Ownership, ino: nat, bytes: Buf)
    requires Volume(fs) && IsIno(fs.sb, ino)
  {
    var n := ReadInode(fs, ino);
    var p := fs.sb.Ptrs();
    && IsFile(n) && n.size as int == |bytes|
    && n.blocks as int == Mul(CeilDiv(|bytes|, 4 * p), fs.sb.SectorsPerBlock())
    && TreeOk(fs.disk, p, own, ino, n.block)
    && MappedTo(fs.disk, p, n.block, CeilDiv(|bytes|, 4 * p))
    && (CeilDiv(|bytes|, 4 * p) <= 12 ==> DirectOnly(n.block))
    && HasBytes(fs.disk, p, n.block, bytes)
  }

  /** What an operation on inode `ino` leaves alone: the blocks, the record and the allocation of
      every other inode. */
  ghost predicate OthersKept(fs: Fs, r: Fs, own: Ownership, own2: Ownership, ino: nat)
    requires Shape(fs) && Shape(r)
  {
    && SameStatic(fs, r)
    && (forall b :: b in own && !OwnedBy(own[b], ino) ==> b in own2 && own2[b] == own[b])
    && (forall b :: b in own2 && !OwnedBy(own2[b], ino) ==> b in own && own2[b] == own[b])
    && (forall b :: b in own && b < |fs.disk| && own[b].OwnPtr? && own[b].ino != ino ==> r.disk[b] == fs.disk[b])
    && (forall j :: IsIno(fs.sb, j) && IsIno(r.sb, j) && j != ino ==>
          ReadInode(r, j) == ReadInode(fs, j) && Used(r, Inodes, j) == Used(fs, Inodes, j))
  }

  /** read returns exactly the requested slice of the file. */
  lemma ReadFileSpec(fs: Fs, own: Ownership, ino: nat, bytes: Buf, offset: nat, len: nat)
    requires Volume(fs) && IsIno(fs.sb, ino) && FileOk(fs, own, ino, bytes)
    ensures ReadFile(fs, ino, offset, len) ==
              if offset >= |bytes| then [] else bytes[offset..Min(offset + len, |bytes|)]
  {
    hide Superblock.Valid, TreeOk, MappedTo, HasBytes, IsIno, ReadInode, Mul, Div, Mod, MaxBytes;
    VolumeBig(fs);
    var n := ReadInode(fs, ino);
    if len > 0 && offset < |bytes| {
      ReadLoopSpec(fs, n, bytes, offset, Min(len, n.size as int - offset), 0);
    }
  }

  /** Everything the block map of an inode says depends on the blocks it owns alone. */
  lemma InoFrame(d: seq<Buf>, r: seq<Buf>, p: nat, own: Ownership, own2: Ownership, ino: nat, s: Slots)
    requires p > 0 && DiskShape(d, 4 * p) && DiskShape(r, 4 * p) && |r| == |d| && TreeOk(d, p, own, ino, s)
    requires forall b :: b in own && b < |d| && OwnedBy(own[b], ino) ==> r[b] == d[b] && b in own2 && own2[b] == own[b]
    ensures TreeOk(r, p, own2, ino, s)
    ensures forall m :: 0 <= m < MaxBlocks(p) ==> GetBlock(r, p, s, m) == GetBlock(d, p, s, m)
    ensures forall m :: 0 <= m < MaxBlocks(p) && GetBlock(d, p, s, m).Some? ==>
              ReadBlk(r, 4 * p, GetBlock(d, p, s, m).value as int) == ReadBlk(d, 4 * p,
                  GetBlock(d, p, s, m).value as int)
    ensures forall i: nat :: ByteAt(r, p, s, i) == ByteAt(d, p, s, i)
  {
    hide IsPath, PathOf, IsLeaf, Mul, Div, Mod;
    forall q | IsPath(p, q) ensures PtrAt(r, p, s, q) == PtrAt(d, p, s, q) {
      PtrFrame(d, r, p, own, ino, s, q);
    }
    forall m | 0 <= m < MaxBlocks(p)
      ensures GetBlock(r, p, s, m) == GetBlock(d, p, s, m)
      ensures GetBlock(d, p, s, m).Some? ==>
                ReadBlk(r, 4 * p, GetBlock(d, p, s, m).value as int) == ReadBlk(d, 4 * p,
                    GetBlock(d, p, s, m).value as int)
    {
      PathOfIsLeaf(p, m);
      if GetBlock(d, p, s, m).Some? { GetBlockOwned(d, p, own, ino, s, m); }
    }
  }

  lemma FileFrame(fs: Fs, r: Fs, own: Ownership, own2: Ownership, ino: nat, bytes: Buf)
    requires Volume(fs) && Volume(r) && SameGeometry(fs.sb, r.sb) && |r.disk| == |fs.disk| && IsIno(fs.sb, ino)
             && IsIno(r.sb, ino)
    requires FileOk(fs, own, ino, bytes) && ReadInode(r, ino) == ReadInode(fs, ino)
    requires forall b :: b in own && b < |fs.disk| && OwnedBy(own[b], ino) ==>
             r.disk[b] == fs.disk[b] && b in own2 && own2[b] == own[b]
    ensures FileOk(r, own2, ino, bytes)
  {
    hide Superblock.Valid, TreeOk, GetBlock, ByteAt, ReadInode, Mul, Div, Mod, CeilDiv, IsIno;
    InoFrame(fs.disk, r.disk, fs.sb.Ptrs(), own, own2, ino, ReadInode(fs, ino).block);
  }

  /** An inode's record is in no block of a block map. */
  lemma WriteInodeFrame(fs: Fs, own: Ownership, n: Inode)
    requires Core(fs, own) && IsIno(fs.sb, n.ino as int)
    ensures forall b :: b in own && b < |fs.disk| && own[b].OwnPtr? ==> WriteInode(fs, n).disk[b] == fs.disk[b]
    ensures |WriteInode(fs, n).disk| == |fs.disk|
    ensures forall k, i: nat :: Used(WriteInode(fs, n), k, i) == Used(fs, k, i)
  {
    hide Padded, Counted, Synced, OwnUsed, Superblock.Valid, PutInode, InoOffset, InoTableIndex, Used;
    InoPlace(fs.sb, n.ino as int);
    InoOwned(fs, own, n.ino as int);
    CoreFrame(fs, own, WriteInode(fs, n).disk);
  }

  /** The record written at the end of an operation on inode `ino`. */
  lemma FinishInode(fs: Fs, fs1: Fs, own: Ownership, own2: Ownership, n2: Inode)
    requires Shape(fs) && Core(fs, own) && IsIno(fs.sb, n2.ino as int) && Shape(fs1) && SameGeometry(fs.sb, fs1.sb)
    requires IsIno(fs1.sb, n2.ino as int) && Core(fs1, own2) && Grew(fs, fs1, own, own2, n2.ino as int)
    ensures var r := WriteInode(fs1, n2);
            && Core(r, own2) && ReadInode(r, n2.ino as int) == n2
            && OthersKept(fs, r, own, own2, n2.ino as int)
            && (forall b :: b in own2 && b < |fs1.disk| && own2[b].OwnPtr? ==> r.disk[b] == fs1.disk[b])
            && (forall i: nat :: InRange(Inodes, fs.sb, i) ==> Used(r, Inodes, i) == Used(fs, Inodes, i))
  {
    hide Padded, Counted, Synced, Layout, Superblock.Valid, WriteInode, ReadInode, BitUsed, GroupOf, BitOfItem,
         InodeAt, TableBlocks, MetaOnly;
    var ino, r := n2.ino as int, WriteInode(fs1, n2);
    WriteInodeCore(fs1, own2, n2);
    WriteInodeFrame(fs1, own2, n2);
    WriteInodeReadBack(fs1, own2, n2, ino);
    DerivedKept(fs.sb, fs1.sb);
    forall j | IsIno(fs.sb, j) && IsIno(r.sb, j) && j != ino
      ensures ReadInode(r, j) == ReadInode(fs, j) && Used(r, Inodes, j) == Used(fs, Inodes, j)
    {
      WriteInodeReadBack(fs1, own2, n2, j);
      GrewKeepsInode(fs, fs1, own, own2, ino, j);
    }
    forall b | b in own && b < |fs.disk| && own[b].OwnPtr? && own[b].ino != ino ensures r.disk[b] == fs.disk[b] {
      assert Used(fs, Blocks, b);
    }
  }

  lemma GrewKeepsInode(fs: Fs, r: Fs, own: Ownership, own2: Ownership, ino: nat, j: nat)
    requires Core(fs, own) && Shape(r) && Grew(fs, r, own, own2, ino) && IsIno(fs.sb, j) && IsIno(r.sb, j)
    ensures ReadInode(r, j) == ReadInode(fs, j)
  {
    hide Padded, Counted, Synced, Superblock.Valid, BitUsed, GroupOf, BitOfItem, InodeAt, TableBlocks;
    InoPlace(fs.sb, j);
    InoPlace(r.sb, j);
    InoOwned(fs, own, j);
    var b := InoBlock(fs, j);
    assert Used(fs, Blocks, b);
    SameInoBlock(fs, r, j);
  }

  lemma SameInoBlock(fs: Fs, r: Fs, j: nat)
    requires Shape(fs) && Shape(r) && SameStatic(fs, r) && IsIno(fs.sb, j) && IsIno(r.sb, j)
    ensures fs.sb.BlockSize() > 0
    ensures InoBlock(r, j) == InoBlock(fs, j) && InoOffset(r.sb, j) == InoOffset(fs.sb, j)
            && r.sb.BlockSize() == fs.sb.BlockSize()
  {
    BlockSizeFacts(fs.sb);
    ItemParts(Inodes, fs.sb, j);
    SameParts(Inodes, fs.sb, r.sb, j);
    assert BitOfItem(Inodes, fs.sb, j) == BitOfItem(Inodes, r.sb, j);
    assert GroupOf(Inodes, fs.sb, j) == GroupOf(Inodes, r.sb, j);
  }

  /** What write promises: it replaces exactly the `done` bytes it reports, extends the file to
      max(size, offset + done), stops short only on a full volume, and leaves every other inode alone. */
  ghost predicate WriteSpec(fs: Fs, own: Ownership, ino: nat, bytes: Buf, offset: nat, buf: Buf, r: Fs, done: nat,
      own2: Ownership)
    requires Volume(fs) && offset <= |bytes|
  {
    && done <= |buf| && Volume(r) && SameGeometry(fs.sb, r.sb) && IsIno(fs.sb, ino) && IsIno(r.sb, ino)
    && AttrsOf(ReadInode(r, ino)) == AttrsOf(ReadInode(fs, ino))
    && Core(r, own2) && OthersKept(fs, r, own, own2, ino)
    && FileOk(r, own2, ino, Overwrite(bytes, offset, buf[..done]))
    && (forall i: nat :: InRange(Inodes, fs.sb, i) ==> Used(r, Inodes, i) == Used(fs, Inodes, i))
    && (done < |buf| ==> r.sb.freeBlocks == 0)
  }

  /** write followed by reads refines splicing a byte sequence. */
  lemma WriteFileSpec(fs: Fs, own: Ownership, ino: nat, bytes: Buf, offset: nat, buf: Buf) returns (own2: Ownership)
    requires Volume(fs) && Core(fs, own) && IsIno(fs.sb, ino) && FileOk(fs, own, ino, bytes)
    requires offset <= |bytes| && offset + |buf| < 0x1_0000_0000 && offset + |buf| <= MaxBytes(fs.sb.Ptrs())
    requires WriteRoom(fs, ReadInode(fs, ino), offset, buf, 0)
    ensures var (r, done) := WriteFile(fs, ino, offset, buf); WriteSpec(fs, own, ino, bytes, offset, buf, r, done, own2)
  {
    hide Core, Superblock.Valid, DiskShape, TreeOk, Grew, WriteInode, ReadInode, WriteLoop, OthersKept, WriteRoom,
         MaxBytes, Used, InRange, CeilDiv, WriteSpec, HasBytes, MappedTo, Written;
    own2 := own;
    var n := ReadInode(fs, ino);
    if buf == [] {
      NoWrite(fs, own, ino, bytes, offset);
    } else {
      own2 := WriteLoopSpec(fs, own, n, offset, buf, 0, |bytes|);
      var (fs1, n1, done) := WriteLoop(fs, n, offset, buf, 0);
      var end := offset + done;
      var n2 := if end > n1.size as int then n1.(size := end) else n1;
      DerivedKept(fs.sb, fs1.sb);
      SameIno(fs.sb, fs1.sb, ino);
      StillDirect(fs, n, bytes, offset, buf);
      FileCharged(fs.sb, |bytes|, n.blocks);
      FileCharged(fs.sb, Max(|bytes|, end), n2.blocks);
      WriteFinish(fs, fs1, own, own2, n, n2, bytes, offset, buf, done);
    }
  }

  /** For a file below 4 GiB the count is exact. */
  lemma FileCharged(sb: Superblock, len: nat, blocks: u32)
    requires sb.Valid() && len < 0x1_0000_0000
    ensures sb.BlockSize() == 4 * sb.Ptrs() > 0
    ensures Charged(sb, blocks, CeilDiv(len, 4 * sb.Ptrs())) <==>
            blocks as int == Mul(CeilDiv(len, 4 * sb.Ptrs()), sb.SectorsPerBlock())
  {
    hide Superblock.NumGroups, Mul, CeilDiv;
    BlockSizeFacts(sb);
    CeilCovers(len, 4 * sb.Ptrs());
    ChargeFits(sb, CeilDiv(len, 4 * sb.Ptrs()));
  }

  /** With four free blocks for every block the write reaches, all of it is written. */
  lemma WriteCompletes(fs: Fs, own: Ownership, ino: nat, bytes: Buf, offset: nat, buf: Buf)
    requires Volume(fs) && IsIno(fs.sb, ino) && FileOk(fs, own, ino, bytes)
    requires offset <= |bytes| && offset + |buf| <= MaxBytes(fs.sb.Ptrs()) && EnoughFree(fs, offset, |buf|, 0)
             && Core(fs, own)
    ensures WriteRoom(fs, ReadInode(fs, ino), offset, buf, 0) && WriteFile(fs, ino, offset, buf).1 == |buf|
  {
    hide Core, Superblock.Valid, DiskShape, TreeOk, WriteInode, ReadInode, WriteLoop, WriteRoom, MaxBytes, CeilDiv,
         HasBytes, MappedTo, EnoughFree;
    RoomEnough(fs, own, ReadInode(fs, ino), offset, buf, 0, |bytes|);
  }

  lemma NoWrite(fs: Fs, own: Ownership, ino: nat, bytes: Buf, offset: nat)
    requires Volume(fs) && Core(fs, own) && IsIno(fs.sb, ino) && FileOk(fs, own, ino, bytes) && offset <= |bytes|
    ensures WriteSpec(fs, own, ino, bytes, offset, [], fs, 0, own)
  {
    hide Core, FileOk, Superblock.Valid, OthersKept, Used;
    var none: Buf := [];
    assert Overwrite(bytes, offset, none[..0]) == bytes;
    OthersSelf(fs, own, ino);
  }

  lemma WriteFinish(fs: Fs, fs1: Fs, own: Ownership, own2: Ownership, n: Inode, n2: Inode, bytes: Buf, offset: nat,
      buf: Buf, done: nat)
    requires Volume(fs) && Volume(fs1) && SameGeometry(fs.sb, fs1.sb) && IsIno(fs.sb, n.ino as int) && n.ino == n2.ino
    requires IsIno(fs1.sb, n.ino as int) && done <= |buf| && offset <= |bytes|
    requires n == ReadInode(fs, n.ino as int) && AttrsOf(n2) == AttrsOf(n)
    requires IsFile(n2) && n2.size as int == Max(|bytes|, offset + done) && (done < |buf| ==> fs1.sb.freeBlocks == 0)
    requires CeilDiv(Max(|bytes|, offset + done), fs.sb.BlockSize()) <= 12 ==> DirectOnly(n2.block)
    requires n2.blocks as int == Mul(CeilDiv(Max(|bytes|, offset + done), 4 * fs.sb.Ptrs()), fs.sb.SectorsPerBlock())
    requires HasBytes(fs.disk, fs.sb.Ptrs(), n.block, bytes)
    requires Written(fs.disk, n.block, fs1.disk, n2.block, fs.sb.Ptrs(), offset, offset + done, buf, offset)
    requires MappedTo(fs1.disk, fs.sb.Ptrs(), n2.block, CeilDiv(Max(|bytes|, offset + done), 4 * fs.sb.Ptrs()))
    requires TreeOk(fs1.disk, fs.sb.Ptrs(), own2, n.ino as int, n2.block)
    requires Core(fs, own) && Core(fs1, own2) && Grew(fs, fs1, own, own2, n.ino as int)
    ensures WriteSpec(fs, own, n.ino as int, bytes, offset, buf, WriteInode(fs1, n2), done, own2)
  {
    hide Core, Superblock.Valid, TreeOk, Grew, WriteInode, ReadInode, GetBlock, ByteAt, OthersKept, Used, InRange,
         Mul, Div, Mod, CeilDiv, Written, IsIno;
    var r, ino := WriteInode(fs1, n2), n.ino as int;
    FinishInode(fs, fs1, own, own2, n2);
    WrittenFile(fs, fs1, n, n2, bytes, offset, buf, done);
    InoFrame(fs1.disk, r.disk, fs.sb.Ptrs(), own2, own2, ino, n2.block);
    VolumeFacts(r);
  }

  lemma SameIno(sb: Superblock, r: Superblock, ino: nat)
    requires sb.Valid() && r.Valid() && SameGeometry(sb, r)
    ensures IsIno(r, ino) == IsIno(sb, ino)
  {
  }

  lemma OthersSelf(fs: Fs, own: Ownership, ino: nat)
    requires Shape(fs)
    ensures OthersKept(fs, fs, own, own, ino)
  {
  }

  lemma WrittenFile(fs: Fs, fs1: Fs, n: Inode, n2: Inode, bytes: Buf, offset: nat, buf: Buf, done: nat)
    requires Volume(fs) && Volume(fs1) && SameGeometry(fs.sb, fs1.sb) && done <= |buf| && offset <= |bytes|
    requires HasBytes(fs.disk, fs.sb.Ptrs(), n.block, bytes)
    requires Written(fs.disk, n.block, fs1.disk, n2.block, fs.sb.Ptrs(), offset, offset + done, buf, offset)
    ensures HasBytes(fs1.disk, fs.sb.Ptrs(), n2.block, Overwrite(bytes, offset, buf[..done]))
  {
    hide Superblock.Valid, ByteAt, Mul, Div, Mod;
    var r := Overwrite(bytes, offset, buf[..done]);
    var p := fs.sb.Ptrs();
    forall i | 0 <= i < |r| ensures ByteAt(fs1.disk, p, n2.block, i) == r[i] as int {
      if !(offset <= i < offset + done) {
        assert ByteAt(fs.disk, p, n.block, i) == bytes[i] as int;
      }
    }
  }
}
