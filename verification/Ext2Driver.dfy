/** The driver itself: the mutable volume state of Ext2State and the loops over sectors, groups,
    blocks and records (fs/src/ext2). Every method is proved to do what the function of the same
    purpose does to the volume seen as blocks. */
module Ext2Driver {
  import opened Arith
  import opened Bytes
  import opened Bitmap
  import opened Ext2Layout
  import opened Ext2Alloc
  import opened Ext2Inode
  import opened Ext2BlockMap
  import opened Ext2File
  import opened Ext2Dir
  import opened Ext2DirOps
  import opened Ext2Fs
  import opened Ext2Device

  /** The device holds exactly the volume. */
  ghost predicate OnDevice(s: seq<Buf>, sb: Superblock) {
    sb.Valid() && Sectors(s) && |s| == Mul(sb.blocksCount as int, sb.SectorsPerBlock())
  }

  ghost function DiskOf(s: seq<Buf>, sb: Superblock): (r: seq<Buf>)
    requires OnDevice(s, sb)
    ensures |r| == sb.blocksCount as int && DiskShape(r, sb.BlockSize())
  {
    SizesOf(sb);
    BlocksOf(s, sb.SectorsPerBlock(), sb.blocksCount as int)
  }

  /** read_block_bytes: reading past the device leaves the zeroed buffer. */
  method ReadSectors(dev: array<Buf>, sb: Superblock, b: nat) returns (out: Buf)
    requires OnDevice(dev[..], sb)
    ensures out == ReadBlk(DiskOf(dev[..], sb), sb.BlockSize(), b)
  {
    hide Superblock.Valid, BlocksOf, Mul;
    SizesOf(sb);
    var spb := sb.SectorsPerBlock();
    var sec := Mul(b, spb);
    out := [];
    var s := 0;
    BlockEdge(b, sb.blocksCount as int, spb);
    while s < spb
      invariant 0 <= s <= spb
      invariant b < sb.blocksCount as int ==> sec + spb <= dev.Length && out == Joined(dev[..], spb, b, s)
      invariant b >= sb.blocksCount as int ==> sec >= dev.Length && out == Zeros(512 * s)
    {
      var buf := if sec + s < dev.Length then dev[sec + s] else Zeros(512);
      out := out + buf;
      s := s + 1;
    }
    BlockIs(dev[..], spb, sb.blocksCount as int, b);
  }

  class Ext2State {
    const dev: array<Buf>
    var sb: Superblock
    var bgdt: seq<BgDesc>

    ghost predicate Valid()
      reads this, dev
    {
      OnDevice(dev[..], sb) && |bgdt| == sb.NumGroups()
    }

    /** The volume as blocks, with the memory copies. */
    ghost function St(): (r: Fs)
      requires Valid()
      reads this, dev
      ensures Volume(r) && r.sb == sb && r.bgdt == bgdt
    {
      BlockSizeFacts(sb);
      Fs(DiskOf(dev[..], sb), sb, bgdt)
    }

    // ---------------------------------------------------------------- sectors

    constructor (dev: array<Buf>, sb: Superblock, bgdt: seq<BgDesc>)
      requires OnDevice(dev[..], sb) && |bgdt| == sb.NumGroups()
      ensures Valid() && this.dev == dev && this.sb == sb && this.bgdt == bgdt
    {
      this.dev, this.sb, this.bgdt := dev, sb, bgdt;
    }

    method ReadBlock(b: nat) returns (out: Buf)
      requires Valid()
      ensures out == ReadBlk(St().disk, sb.BlockSize(), b)
    {
      out := ReadSectors(dev, sb, b);
    }

    /** write_block_bytes: writes past the device are dropped. */
    method WriteBlock(b: nat, data: Buf)
      requires Valid() && |data| == sb.BlockSize()
      modifies dev
      ensures Valid() && sb == old(sb) && bgdt == old(bgdt)
      ensures St() == old(St()).(disk := WriteBlk(old(St()).disk, b, data))
    {
      hide Superblock.Valid, Superblock.NumGroups, BlocksOf, Mul;
      SizesOf(sb);
      var spb := sb.SectorsPerBlock();
      var sec := Mul(b, spb);
      ghost var was := dev[..];
      var s := 0;
      BlockEdge(b, sb.blocksCount as int, spb);
      while s < spb
        invariant 0 <= s <= spb && Sectors(dev[..])
        invariant forall i :: 0 <= i < dev.Length && !(sec <= i < sec + s) ==> dev[i] == was[i]
        invariant forall k :: 0 <= k < s && sec + k < dev.Length ==> dev[sec + k] == data[512 * k..512 * (k + 1)]
      {
        if sec + s < dev.Length { dev[sec + s] := data[512 * s..512 * (s + 1)]; }
        s := s + 1;
      }
      BlockWritten(was, dev[..], spb, sb.blocksCount as int, b, data);
    }

    /** write_free_counts: sectors 2 and 3 are read, patched and written back. */
    method WriteFreeCounts()
      requires Valid()
      modifies dev
      ensures Valid() && sb == old(sb) && bgdt == old(bgdt)
      ensures St() == old(St()).(disk := WriteCounts(old(St()).disk, sb))
    {
      BlockSizeFacts(sb);
      var spb := sb.SectorsPerBlock();
      BlockInside(0, sb.blocksCount as int, spb);
      ghost var was := dev[..];
      var raw := dev[2] + dev[3];
      var new1 := PutU32(PutU32(raw, 12, sb.freeBlocks), 16, sb.freeInodes);
      dev[2] := new1[..512];
      dev[3] := new1[512..];
      CountsPatched(was, dev[..], spb, sb.blocksCount as int, sb);
    }

    // ---------------------------------------------------------------- allocator

    /** BgDescTable::write_entry. */
    method WriteEntry(g: nat)
      requires Valid() && g < |bgdt|
      modifies dev
      ensures Valid() && sb == old(sb) && bgdt == old(bgdt)
      ensures St() == old(St()).(disk := WriteDesc(old(St()).disk, sb, g, bgdt[g]))
    {
      hide Ext2State.Valid, Ext2State.St, PutDesc, ReadBlk, WriteBlk, DiskShape;
      ghost var st := St();
      DescFits(sb, g);
      var blk := DescBlock(sb, g);
      var raw := ReadBlock(blk);
      WriteBlock(blk, PutDesc(raw, DescOffset(sb, g), bgdt[g]));
    }

    /** The tail of alloc_block/free_block: the patched bitmap, the group's count, the superblock's count. */
    method MarkItem(k: Kind, g: nat, bit: nat, used: bool)
      requires Valid() && g < |bgdt| && bit < 8 * sb.BlockSize()
      requires used ==> bgdt[g].Free(k) > 0
      modifies this, dev
      ensures Valid() && St() == Mark(k, old(St()), g, bit, used)
    {
      hide Ext2State.St, MarkBit, ReadBlk, WriteBlk, DiskShape, WriteDesc, WriteCounts, MarkDesc, MarkSuper;
      ghost var st := St();
      var bm := bgdt[g].Bitmap(k) as int;
      var bits := ReadBlock(bm);
      WriteBlock(bm, MarkBit(bits, bit, used));
      SetDesc(g, MarkDesc(k, bgdt[g], used));
      WriteEntry(g);
      SetCount(k, used);
      WriteFreeCounts();
    }

    method SetDesc(g: nat, d: BgDesc)
      requires Valid() && g < |bgdt|
      modifies this`bgdt
      ensures Valid() && sb == old(sb) && St() == old(St()).(bgdt := old(bgdt)[g := d])
    {
      bgdt := bgdt[g := d];
    }

    method SetCount(k: Kind, used: bool)
      requires Valid()
      modifies this`sb
      ensures Valid() && St() == old(St()).(sb := MarkSuper(k, old(sb), used))
    {
      DerivedKept(sb, MarkSuper(k, sb, used));
      sb := MarkSuper(k, sb, used);
    }

    /** alloc_block and alloc_inode: the first free bit of the first group whose count is not zero. */
    method AllocItem(k: Kind) returns (r: Option<nat>)
      requires Valid()
      modifies this, dev
      ensures Valid() && (St(), r) == Alloc(k, old(St()))
    {
      hide Ext2State.St, Ext2State.Valid, Mark, ReadBlk, Item, FirstFree, Shape, DiskShape;
      var g := 0;
      while g < |bgdt|
        invariant 0 <= g <= |bgdt| && Valid() && St() == old(St())
        invariant AllocFrom(k, St(), g) == Alloc(k, St())
      {
        if bgdt[g].Free(k) != 0 {
          var bits := ReadBlock(bgdt[g].Bitmap(k) as int);
          var bit := FindFreeBit(bits);
          if bit.Some? {
            r := Some(Item(k, sb, g, bit.value));
            MarkItem(k, g, bit.value, true);
            return;
          }
        }
        g := g + 1;
      }
      r := None;
    }

    /** free_block and free_inode. */
    method FreeItem(k: Kind, item: nat)
      requires Valid() && InRange(k, sb, item)
      modifies this, dev
      ensures Valid() && St() == Release(k, old(St()), item)
    {
      hide Ext2State.St, Mark, GroupOf, BitOfItem, InRange, DiskShape;
      ItemParts(k, sb, item);
      MarkItem(k, GroupOf(k, sb, item), BitOfItem(k, sb, item), false);
    }

    // ---------------------------------------------------------------- inodes and block maps

    /** Inode::read, with its loop over the fifteen pointers. */
    method LoadInodeAt(ino: nat) returns (n: Inode)
      requires Valid() && IsIno(sb, ino)
      ensures n == ReadInode(St(), ino)
    {
      hide Ext2State.St, Superblock.Valid, Sectors, BlocksOf, U16At, U32At, InoBlock, InoOffset, DiskShape, ReadBlk;
      InoPlace(sb, ino);
      InoIsU32(sb, ino);
      var blk := InoBlockOf(ino);
      var raw := ReadBlock(blk);
      var o := InoOffset(sb, ino);
      var block: seq<u32> := [];
      var i := 0;
      while i < 15
        invariant 0 <= i <= 15 && |block| == i
        invariant forall j :: 0 <= j < i ==> block[j] == U32At(raw, o + 40 + 4 * j)
      {
        block := block + [U32At(raw, o + 40 + 4 * i)];
        i := i + 1;
      }
      assert block == PtrsAt(raw, o);
      n := Inode(U16At(raw, o), U16At(raw, o + 26), U32At(raw, o + 4), U32At(raw, o + 28), block, ino);
    }

    method InoBlockOf(ino: nat) returns (b: nat)
      requires Valid() && IsIno(sb, ino)
      ensures b == InoBlock(St(), ino)
    {
      hide Ext2State.St, DiskShape;
      ItemParts(Inodes, sb, ino);
      InoPlace(sb, ino);
      b := bgdt[GroupOf(Inodes, sb, ino)].inodeTable as int + InoTableIndex(sb, ino);
    }

    /** Inode::write. */
    method SaveInode(n: Inode)
      requires Valid() && IsIno(sb, n.ino as int)
      modifies dev
      ensures Valid() && sb == old(sb) && bgdt == old(bgdt) && St() == WriteInode(old(St()), n)
    {
      hide Ext2State.St, PutHead, PutInode, InoBlock, InoOffset, DiskShape, ReadBlk, WriteBlk, Superblock.Valid,
           Sectors, BlocksOf;
      InoPlace(sb, n.ino as int);
      var blk := InoBlockOf(n.ino as int);
      var raw := ReadBlock(blk);
      var o := InoOffset(sb, n.ino as int);
      var dst := PutPointers(PutHead(raw, o, n), o, n.block);
      PutInodeParts(raw, o, n);
      WriteBlock(blk, dst);
    }

    /** Inode::get_block: the four cases of the block map. */
    method Resolve(n: Inode, blk: nat) returns (r: Option<u32>)
      requires Valid() && sb.Ptrs() > 0 && blk < MaxBlocks(sb.Ptrs())
      ensures r == GetBlock(St().disk, sb.Ptrs(), n.block, blk)
    {
      hide Ext2State.St, Superblock.Valid, Sectors, BlocksOf, DiskShape, ReadBlk, IndexAt, MaxBlocks, Mul, Div, Mod;
      var p := sb.Ptrs();
      ghost var path := PathOf(p, blk);
      PathOfIsLeaf(p, blk);
      MulPositive(p);
      var b;
      if blk < 12 {
        b := n.block[blk];
      } else if blk - 12 < p {
        b := Follow(n, path, n.block[12], blk - 12);
      } else if blk - 12 - p < Mul(p, p) {
        var m := blk - 12 - p;
        b := Follow(n, path[..2], n.block[13], Div(m, p));
        b := Follow(n, path, b, Mod(m, p));
      } else {
        var m := blk - 12 - p - Mul(p, p);
        b := Follow(n, path[..2], n.block[14], Div(m, Mul(p, p)));
        b := Follow(n, path[..3], b, Mod(Div(m, p), p));
        b := Follow(n, path, b, Mod(m, p));
      }
      r := if b == 0 then None else Some(b);
    }

    /** One level of get_block: a zero pointer ends the walk. */
    method Follow(n: Inode, ghost path: seq<nat>, up: u32, idx: nat) returns (b: u32)
      requires Valid() && sb.BlockSize() == 4 * sb.Ptrs() && IsPath(sb.Ptrs(), path) && |path| > 1 && idx == Last(path)
      requires up == PtrAt(St().disk, sb.Ptrs(), n.block, Parent(path))
      ensures b == PtrAt(St().disk, sb.Ptrs(), n.block, path)
    {
      hide Ext2State.St, Ext2State.Valid, DiskShape, ReadBlk;
      if up == 0 { return 0; }
      var data := ReadBlock(up as int);
      b := IndexAt(data, idx);
    }

    /** Index block of a slot of i_block, allocated and zero-filled when missing. */
    method EnsureTop(n: Inode, s: nat) returns (n2: Inode, ib: u32)
      requires Valid() && 12 <= s < 15
      modifies this, dev
      ensures Valid() && SameGeometry(old(sb), sb) && (St(), n2, ib) == EnsureIndex(old(St()), n, [s])
    {
      hide Ext2State.St, Ext2State.Valid, DiskShape, WriteBlk, Alloc, Shape;
      if n.block[s] != 0 { return n, n.block[s]; }
      var o := AllocItem(Blocks);
      ib := OrZero(o);
      n2 := n.(block := n.block[s := ib]);
      WriteBlock(ib as int, Zeros(sb.BlockSize()));
    }

    /** Index block below index block `up`, allocated, linked and zero-filled when missing. */
    method EnsureChild(ghost fs0: Fs, ghost n0: Inode, n: Inode, ghost path: seq<nat>, up: u32, idx: nat)
        returns (ib: u32)
      requires Valid() && Volume(fs0) && sb.Ptrs() == fs0.sb.Ptrs() && sb.BlockSize() == 4 * sb.Ptrs()
      requires IsPath(sb.Ptrs(), path) && |path| > 1 && idx == Last(path)
      requires (St(), n, up) == EnsureIndex(fs0, n0, Parent(path))
      modifies this, dev
      ensures Valid() && SameGeometry(old(sb), sb) && (St(), n, ib) == EnsureIndex(fs0, n0, path)
    {
      hide Ext2State.St, Ext2State.Valid, DiskShape, ReadBlk, WriteBlk, Alloc, Shape, PutU32;
      var data := ReadBlock(up as int);
      ib := IndexAt(data, idx);
      if ib == 0 {
        var o := AllocItem(Blocks);
        ib := OrZero(o);
        WriteBlock(up as int, PutU32(data, 4 * idx, ib));
        WriteBlock(ib as int, Zeros(sb.BlockSize()));
      }
    }

    /** Inode::set_block. */
    method Assign(n: Inode, blk: nat, phys: u32) returns (n2: Inode)
      requires Valid() && sb.Ptrs() > 0 && blk < MaxBlocks(sb.Ptrs())
      modifies this, dev
      ensures Valid() && SameGeometry(old(sb), sb) && (St(), n2) == SetBlock(old(St()), n, blk, phys)
    {
      hide Ext2State.St, Ext2State.Valid, DiskShape, ReadBlk, WriteBlk, EnsureIndex, MaxBlocks, Mul, Div, Mod, PutU32,
           Shape;
      var p := sb.Ptrs();
      ghost var path := PathOf(p, blk);
      ghost var fs0 := St();
      PathOfIsLeaf(p, blk);
      MulPositive(p);
      if blk < 12 { return n.(block := n.block[blk := phys]); }
      var ib, last;
      if blk - 12 < p {
        last := blk - 12;
        n2, ib := EnsureTop(n, 12);
        assert Parent(path) == [12];
      } else if blk - 12 - p < Mul(p, p) {
        var m := blk - 12 - p;
        n2, ib := EnsureTop(n, 13);
        assert Parent(path[..2]) == [13] && Parent(path) == path[..2];
        ib := EnsureChild(fs0, n, n2, path[..2], ib, Div(m, p));
        last := Mod(m, p);
      } else {
        var m := blk - 12 - p - Mul(p, p);
        n2, ib := EnsureTop(n, 14);
        assert Parent(path[..2]) == [14] && Parent(path[..3]) == path[..2] && Parent(path) == path[..3];
        ib := EnsureChild(fs0, n, n2, path[..2], ib, Div(m, Mul(p, p)));
        ib := EnsureChild(fs0, n, n2, path[..3], ib, Mod(Div(m, p), p));
        last := Mod(m, p);
      }
      var data := ReadBlock(ib as int);
      WriteBlock(ib as int, PutU32(data, 4 * last, phys));
    }

    // ---------------------------------------------------------------- file contents

    /** A new block holding `data` at logical block `blk` (the None branch of write, and of add_entry). */
    method Extend(n: Inode, blk: nat, data: Buf) returns (n2: Inode, r: Option<u32>)
      requires Valid() && sb.Ptrs() > 0 && blk < MaxBlocks(sb.Ptrs()) && |data| == sb.BlockSize()
      modifies this, dev
      ensures Valid() && SameGeometry(old(sb), sb)
      ensures match AllocMapped(old(St()), n, blk, data)
              case None => r.None? && n2 == n && St() == old(St())
              case Some(q) => r == Some(q.2) && n2 == q.1 && St() == q.0
    {
      hide Ext2State.St, Ext2State.Valid, DiskShape, WriteBlk, AllocFrom, SetBlock, MaxBlocks, Shape;
      var o := AllocItem(Blocks);
      if o.None? {
        AllocNone(Blocks, old(St()), 0);
        return n, None;
      }
      var b := OrZero(o);
      WriteBlock(b as int, data);
      n2 := Assign(n, blk, b);
      n2 := n2.(blocks := (n2.blocks as int + sb.SectorsPerBlock()) % 0x1_0000_0000);
      r := Some(b);
    }

    /** One round of Ext2FileINode::read: the next piece, or None at a hole. */
    method ReadPiece(n: Inode, offset: nat, toRead: nat, done: nat) returns (r: Option<Buf>)
      requires Valid() && done < toRead && offset + toRead <= MaxBytes(sb.Ptrs())
      ensures match r
              case None => ReadLoop(St(), n, offset, toRead, done) == []
              case Some(p) =>
                && 0 < |p| <= toRead - done
                && ReadLoop(St(), n, offset, toRead, done) == p + ReadLoop(St(), n, offset, toRead, done + |p|)
    {
      hide Ext2State.St, Ext2State.Valid, ReadLoop, Shape, DiskShape, ReadBlk, GetBlock, Chunk, MaxBytes, MaxBlocks,
           Mod, Div;
      var pos := offset + done;
      BlockInRange(sb.Ptrs(), pos);
      ReadRound(St(), n, offset, toRead, done);
      var phys := Resolve(n, Div(pos, sb.BlockSize()));
      if phys.None? { return None; }
      var block := ReadBlock(phys.value as int);
      var avail := Chunk(sb.BlockSize(), pos, toRead - done);
      var off := Mod(pos, sb.BlockSize());
      r := Some(block[off..off + avail]);
    }

    /** The loop of Ext2FileINode::read. */
    method ReadBody(n: Inode, offset: nat, toRead: nat, buf: array<u8>) returns (done: nat)
      requires Valid() && toRead <= buf.Length && offset + toRead <= MaxBytes(sb.Ptrs())
      modifies buf
      ensures Valid() && St() == old(St()) && done <= toRead
      ensures buf[..done] == ReadLoop(St(), n, offset, toRead, 0) && buf[done..] == old(buf[..])[done..]
    {
      hide Ext2State.St, Ext2State.Valid, ReadLoop, Volume, MaxBytes, Splice;
      done := 0;
      while done < toRead
        invariant 0 <= done <= toRead && Valid() && St() == old(St())
        invariant buf[..done] + ReadLoop(St(), n, offset, toRead, done) == ReadLoop(St(), n, offset, toRead, 0)
        invariant buf[done..] == old(buf[..])[done..]
      {
        var piece := ReadPiece(n, offset, toRead, done);
        if piece.None? { break; }
        ghost var was := buf[..];
        CopyInto(buf, done, piece.value);
        Copied(was, buf[..], done, piece.value, ReadLoop(St(), n, offset, toRead, done + |piece.value|));
        done := done + |piece.value|;
      }
      if done == toRead { ReadDone(St(), n, offset, toRead); }
    }

    /** Ext2FileINode::read: fills the front of `buf` and returns how many bytes it filled. */
    method Read(ino: nat, offset: nat, buf: array<u8>) returns (done: nat)
      requires Valid() && IsIno(sb, ino)
      modifies buf
      ensures Valid() && St() == old(St()) && done <= buf.Length
      ensures buf[..done] == ReadFile(St(), ino, offset, buf.Length) && buf[done..] == old(buf[..])[done..]
    {
      hide Ext2State.St, Ext2State.Valid, Shape, DiskShape, ReadLoop, ReadInode, IsIno;
      if buf.Length == 0 { return 0; }
      var n := LoadInodeAt(ino);
      if offset >= n.size as int { return 0; }
      VolumeBig(St());
      done := ReadBody(n, offset, Min(buf.Length, n.size as int - offset), buf);
    }

    method GetOrExtend(n: Inode, blk: nat) returns (n2: Inode, r: Option<u32>)
      requires Valid() && sb.Ptrs() > 0 && blk < MaxBlocks(sb.Ptrs())
      modifies this, dev
      ensures Valid() && SameGeometry(old(sb), sb)
      ensures match GetOrAlloc(old(St()), n, blk)
              case None => r.None? && n2 == n && St() == old(St())
              case Some(q) => r == Some(q.2) && n2 == q.1 && St() == q.0
    {
      hide Ext2State.St, Ext2State.Valid, Shape, DiskShape, GetBlock, AllocMapped, MaxBlocks;
      n2 := n;
      r := Resolve(n, blk);
      if r.None? { n2, r := Extend(n, blk, Zeros(sb.BlockSize())); }
    }

    method Patch(phys: u32, off: nat, data: Buf)
      requires Valid() && off + |data| <= sb.BlockSize()
      modifies dev
      ensures Valid() && sb == old(sb) && bgdt == old(bgdt) && St() == PatchBlock(old(St()), phys, off, data)
    {
      hide Ext2State.St, Ext2State.Valid, DiskShape, ReadBlk, WriteBlk, Splice;
      var block := ReadBlock(phys as int);
      WriteBlock(phys as int, Splice(block, off, data));
    }

    /** The loop of Ext2FileINode::write. */
    method WriteBody(n: Inode, offset: nat, buf: Buf) returns (n2: Inode, done: nat)
      requires Valid() && offset + |buf| <= MaxBytes(sb.Ptrs())
      modifies this, dev
      ensures Valid() && SameGeometry(old(sb), sb) && (St(), n2, done) == WriteLoop(old(St()), n, offset, buf, 0)
    {
      hide Ext2State.St, Ext2State.Valid, Shape, DiskShape, GetOrAlloc, PatchBlock, Chunk, MaxBytes, MaxBlocks, Mod,
           Div;
      done, n2 := 0, n;
      while done < |buf|
        invariant 0 <= done <= |buf| && Valid() && SameGeometry(old(sb), sb)
        invariant WriteLoop(St(), n2, offset, buf, done) == WriteLoop(old(St()), n, offset, buf, 0)
      {
        var pos := offset + done;
        BlockInRange(sb.Ptrs(), pos);
        var phys;
        n2, phys := GetOrExtend(n2, Div(pos, sb.BlockSize()));
        if phys.None? { break; }
        var avail := Chunk(sb.BlockSize(), pos, |buf| - done);
        Patch(phys.value, Mod(pos, sb.BlockSize()), buf[done..done + avail]);
        done := done + avail;
      }
    }

    /** Ext2FileINode::write. */
    method Write(ino: nat, offset: nat, buf: Buf) returns (done: nat)
      requires Valid() && IsIno(sb, ino) && offset + |buf| <= MaxBytes(sb.Ptrs())
      modifies this, dev
      ensures Valid() && (St(), done) == WriteFile(old(St()), ino, offset, buf)
    {
      hide Ext2State.St, Ext2State.Valid, Shape, DiskShape, WriteLoop, MaxBytes, IsIno, WriteInode, ReadInode;
      if buf == [] { return 0; }
      var n := LoadInodeAt(ino);
      ghost var was := sb;
      n, done := WriteBody(n, offset, buf);
      var end := offset + done;
      if end > n.size as int { n := n.(size := end % 0x1_0000_0000); }
      SameInodes(was, sb, ino);
      SaveInode(n);
    }

    // ---------------------------------------------------------------- directories

    /** lookup_in_dir: block after block, stopping at a hole. */
    method LookupName(n: Inode, name: Buf) returns (r: Option<u32>)
      requires Valid()
      ensures r == LookupFrom(St(), n, name, 0)
    {
      hide Ext2State.St, Ext2State.Valid, Shape, DiskShape, ReadBlk, GetBlock, FindInBlock, MaxBlocks;
      var count := CountBlocks(n);
      var m := 0;
      while m < count
        invariant 0 <= m <= count && LookupFrom(St(), n, name, m) == LookupFrom(St(), n, name, 0)
      {
        var phys := Resolve(n, m);
        if phys.None? { return None; }
        var block := ReadBlock(phys.value as int);
        r := FindName(block, name);
        if r.Some? { return; }
        m := m + 1;
      }
      r := None;
    }

    method CountBlocks(n: Inode) returns (r: nat)
      requires Valid()
      ensures r == DirBlocks(St(), n)
    {
      hide Ext2State.St, Ext2State.Valid, Shape, MaxBlocks;
      VolumeBig(St());
      VolumeSizes(St());
      SizeFits(sb.Ptrs(), n.size as int, sb.BlockSize());
      r := CeilDiv(n.size as int, sb.BlockSize());
    }

    /** The scan of add_entry for slack in the last record of a block. */
    method AddInSlack(n: Inode, name: Buf, child: u32, ft: u8) returns (inserted: bool)
      requires Valid() && |name| < 0x100
      modifies dev
      ensures Valid() && sb == old(sb) && bgdt == old(bgdt)
      ensures match AddScan(old(St()), n, name, child, ft, 0)
              case None => !inserted && St() == old(St())
              case Some(fs) => inserted && St() == fs
    {
      hide Ext2State.St, Ext2State.Valid, Shape, DiskShape, ReadBlk, WriteBlk, GetBlock, AddInBlock, MaxBlocks,
           DirBlocks;
      var count := CountBlocks(n);
      ghost var st := St();
      var m := 0;
      while m < count
        invariant 0 <= m <= count && Valid() && sb == old(sb) && bgdt == old(bgdt) && St() == st
        invariant AddScan(st, n, name, child, ft, m) == AddScan(st, n, name, child, ft, 0)
      {
        var phys := Resolve(n, m);
        if phys.Some? {
          var block := ReadBlock(phys.value as int);
          var data := AddRecord(block, name, child, ft);
          if data.Some? {
            WriteBlock(phys.value as int, data.value);
            return true;
          }
        }
        m := m + 1;
      }
      inserted := false;
    }

    /** add_entry: slack in an existing block, else a new block. */
    method AddName(n: Inode, name: Buf, child: u32, ft: u8)
      requires Valid() && |name| < 0x100
      modifies this, dev
      ensures Valid() && SameGeometry(old(sb), sb) && St() == AddEntry(old(St()), n, name, child, ft)
    {
      hide Ext2State.St, Ext2State.Valid, Shape, DiskShape, AddScan, AllocMapped, NewDirBlock, MaxBlocks, DirBlocks,
           StoreInode;
      var inserted := AddInSlack(n, name, child, ft);
      if inserted { return; }
      VolumeSizes(St());
      var count := CountBlocks(n);
      var n1, phys := Extend(n, count, NewDirBlock(sb.BlockSize(), name, child, ft));
      if phys.None? { return; }
      SaveIfInode(n1.(size := (n1.size as int + sb.BlockSize()) % 0x1_0000_0000));
    }

    /** Inode::write; on an inode number outside the table the driver would panic; it is left alone here. */
    method SaveIfInode(n: Inode)
      requires Valid()
      modifies dev
      ensures Valid() && sb == old(sb) && bgdt == old(bgdt) && St() == StoreInode(old(St()), n)
    {
      hide Ext2State.St, Ext2State.Valid, Shape, WriteInode, IsIno;
      if IsIno(sb, n.ino as int) { SaveInode(n); }
    }

    method LoadIfInode(ino: nat) returns (n: Inode)
      requires Valid()
      ensures n == LoadInode(St(), ino)
    {
      hide Ext2State.St, Ext2State.Valid, Shape, ReadInode, IsIno;
      if IsIno(sb, ino) { n := LoadInodeAt(ino); } else { n := Inode(0, 0, 0, 0, NoSlots, 0); }
    }

    /** remove_entry. */
    method RemoveName(n: Inode, name: Buf) returns (found: bool)
      requires Valid()
      modifies dev
      ensures Valid() && sb == old(sb) && bgdt == old(bgdt)
      ensures match RemoveScan(old(St()), n, name, 0)
              case None => !found && St() == old(St())
              case Some(fs) => found && St() == fs
    {
      hide Ext2State.St, Ext2State.Valid, Shape, DiskShape, ReadBlk, WriteBlk, GetBlock, RemoveInBlock, MaxBlocks,
           DirBlocks;
      var count := CountBlocks(n);
      ghost var st := St();
      var m := 0;
      while m < count
        invariant 0 <= m <= count && Valid() && sb == old(sb) && bgdt == old(bgdt) && St() == st
        invariant RemoveScan(st, n, name, m) == RemoveScan(st, n, name, 0)
      {
        var phys := Resolve(n, m);
        if phys.Some? {
          var block := ReadBlock(phys.value as int);
          var data := RemoveRecord(block, name);
          if data.Some? {
            WriteBlock(phys.value as int, data.value);
            return true;
          }
        }
        m := m + 1;
      }
      found := false;
    }

    /** Ext2DirINode::create_file. */
    method CreateFileIn(dir: nat, name: Buf) returns (r: Option<nat>)
      requires Valid() && |name| < 0x100
      modifies this, dev
      ensures Valid() && (St(), r) == CreateFile(old(St()), dir, name)
    {
      hide Ext2State.St, Ext2State.Valid, Shape, Alloc, StoreInode, AddEntry, LoadInode, NewFile;
      r := AllocItem(Inodes);
      if r.None? { return; }
      SaveIfInode(NewFile(OrZero(r)));
      var parent := LoadIfInode(dir);
      AddName(parent, name, OrZero(r), FtReg);
    }

    /** The new directory of mkdir: its inode, its first block with "." and "..". */
    method NewDirectory(dir: u32) returns (r: Option<u32>)
      requires Valid()
      modifies this, dev
      ensures Valid() && SameGeometry(old(sb), sb) && (St(), r) == MakeDir(old(St()), dir)
    {
      hide Ext2State.St, Ext2State.Valid, Shape, Alloc, StoreInode, FirstDirBlock, NewDir, WriteBlk, DiskShape;
      var o := AllocItem(Inodes);
      if o.None? { return None; }
      var b := AllocItem(Blocks);
      if b.None? { return None; }
      VolumeSizes(St());
      WriteBlock(OrZero(b) as int, FirstDirBlock(sb.BlockSize(), OrZero(o), dir));
      SaveIfInode(NewDir(sb, OrZero(o), OrZero(b)));
      r := Some(OrZero(o));
    }

    /** Ext2DirINode::mkdir. */
    method MkdirIn(dir: u32, name: Buf) returns (r: Option<u32>)
      requires Valid() && |name| < 0x100
      modifies this, dev
      ensures Valid() && (St(), r) == Mkdir(old(St()), dir, name)
    {
      hide Ext2State.St, Ext2State.Valid, Shape, MakeDir, AddEntry, LoadInode, BumpDirs;
      r := NewDirectory(dir);
      if r.None? { return; }
      var parent := LoadIfInode(dir as int);
      AddName(parent, name, r.value, FtDir);
      CountDirectory(dir as int);
    }

    /** used_dirs of the parent's group. */
    method CountDirectory(ino: nat)
      requires Valid()
      modifies this, dev
      ensures Valid() && sb == old(sb) && St() == BumpDirs(old(St()), ino)
    {
      hide Ext2State.St, WriteDesc, GroupOf, Sectors, BlocksOf, IsIno;
      if IsIno(sb, ino) {
        GroupBelow(sb, ino);
        var g := GroupOf(Inodes, sb, ino);
        SetDesc(g, bgdt[g].(usedDirs := (bgdt[g].usedDirs as int + 1) % 0x1_0000));
        WriteEntry(g);
      }
    }

    /** The block-freeing loop of unlink. */
    method FreeFileBlocks(n: Inode)
      requires Valid()
      modifies this, dev
      ensures Valid() && SameGeometry(old(sb), sb) && St() == FreeBlocks(old(St()), n, 0)
    {
      hide Ext2State.St, Ext2State.Valid, Shape, Release, GetBlock, MaxBlocks, DiskShape, InRange, DirBlocks;
      var count := CountBlocks(n);
      ghost var st := St();
      var m := 0;
      while m < count
        invariant 0 <= m <= count && Valid() && SameGeometry(old(sb), sb) && count == DirBlocks(St(), n)
        invariant FreeBlocks(St(), n, m) == FreeBlocks(st, n, 0)
      {
        var phys := Resolve(n, m);
        if phys.Some? {
          if phys.value >= sb.blocksCount {
            DiskBlocks(St());
            return;
          }
          BlockInVolume(St(), phys.value as int);
          ghost var was := St();
          FreeItem(Blocks, phys.value as int);
          SameDirBlocks(was, St(), n);
        }
        m := m + 1;
      }
    }

    /** Ext2DirINode::unlink. */
    method UnlinkIn(dir: nat, name: Buf) returns (ok: bool)
      requires Valid()
      modifies this, dev
      ensures Valid() && (St(), ok) == Unlink(old(St()), dir, name)
    {
      hide Ext2State.St, Ext2State.Valid, Shape, Release, LookupFrom, LoadInode, FreeBlocks, RemoveScan, DirBlocks,
           InRange;
      var n := LoadIfInode(dir);
      var child := LookupName(n, name);
      if child.None? { return false; }
      var victim := LoadIfInode(child.value as int);
      FreeFileBlocks(victim);
      if !IsIno(sb, child.value as int) { return false; }
      FreeItem(Inodes, child.value as int);
      ok := RemoveName(n, name);
    }
  }

  /** The pointer loop of Inode::write. */
  method PutPointers(b: Buf, o: nat, p: Slots) returns (dst: Buf)
    requires o + 128 <= |b|
    ensures dst == PutPtrs(b, o, p, 15)
  {
    hide PutU32;
    dst := b;
    var i := 0;
    while i < 15
      invariant 0 <= i <= 15 && dst == PutPtrs(b, o, p, i)
    {
      dst := PutU32(dst, o + 40 + 4 * i, p[i]);
      i := i + 1;
    }
  }

  lemma PutInodeParts(b: Buf, o: nat, n: Inode)
    requires o + 128 <= |b|
    ensures PutInode(b, o, n) == PutPtrs(PutHead(b, o, n), o, n.block, 15)
  {
    hide PutHead, PutPtrs;
  }

  /** for_each_entry under the closure of lookup_in_dir. */
  method FindName(b: Buf, name: Buf) returns (r: Option<u32>)
    ensures r == FindInBlock(b, 0, name)
  {
    hide RecLen, RecIno, RecName;
    var off := 0;
    while off + 8 <= |b|
      invariant 0 <= off && FindInBlock(b, off, name) == FindInBlock(b, 0, name)
      decreases |b| - off
    {
      var rec := RecLen(b, off) as int;
      if rec < 8 || off + rec > |b| { return None; }
      if RecIno(b, off) != 0 && RecName(b, off) == name { return Some(RecIno(b, off)); }
      off := off + rec;
    }
    r := None;
  }

  /** The inner loop of add_entry: the last record of the block, when it has room to spare. */
  method AddRecord(b: Buf, name: Buf, child: u32, ft: u8) returns (r: Option<Buf>)
    requires |name| < 0x100
    ensures r == AddInBlock(b, 0, name, child, ft)
  {
    hide RecLen, NameLen, Needed, SplitLast;
    var off := 0;
    while off + 8 <= |b|
      invariant 0 <= off && AddInBlock(b, off, name, child, ft) == AddInBlock(b, 0, name, child, ft)
      decreases |b| - off
    {
      var rec := RecLen(b, off) as int;
      if rec < 8 { return None; }
      var actual := Needed(NameLen(b, off) as int);
      if off + rec > |b| || rec < actual { return None; }
      if off + rec == |b| {
        if rec - actual >= Needed(|name|) { return Some(SplitLast(b, off, actual, name, child, ft)); }
        return None;
      }
      off := off + rec;
    }
    r := None;
  }

  /** for_each_entry under the closure of remove_entry, and the patch that follows. */
  method RemoveRecord(b: Buf, name: Buf) returns (r: Option<Buf>)
    ensures r == RemoveInBlock(b, 0, None, name)
  {
    hide RecLen, RecIno, RecName, Widen, PutU32;
    var off := 0;
    var prev: Option<nat> := None;
    while off + 8 <= |b|
      invariant 0 <= off && (prev.Some? ==> prev.value + 8 <= |b|)
      invariant RemoveInBlock(b, off, prev, name) == RemoveInBlock(b, 0, None, name)
      decreases |b| - off
    {
      var rec := RecLen(b, off) as int;
      if rec < 8 || off + rec > |b| { return None; }
      if RecIno(b, off) != 0 && RecName(b, off) == name {
        var z := PutU32(b, off, 0);
        return Some(if prev.Some? then Widen(z, prev.value, RecLen(b, off)) else z);
      }
      prev := Some(off);
      off := off + rec;
    }
    r := None;
  }

  method CopyInto(buf: array<u8>, at: nat, data: Buf)
    requires at + |data| <= buf.Length
    modifies buf
    ensures buf[..] == Splice(old(buf[..]), at, data)
  {
    forall i | 0 <= i < |data| { buf[at + i] := data[i]; }
  }

  lemma Copied(was: Buf, now: Buf, at: nat, data: Buf, rest: Buf)
    requires at + |data| <= |was| && now == Splice(was, at, data)
    ensures |now| == |was| && now[at + |data|..] == was[at + |data|..]
    ensures now[..at + |data|] + rest == was[..at] + (data + rest)
  {
    assert now[..at + |data|] == was[..at] + data;
  }

  lemma {:induction false} AllocNone(k: Kind, fs: Fs, g: nat)
    requires Shape(fs) && g <= |fs.bgdt| && AllocFrom(k, fs, g).1.None?
    ensures AllocFrom(k, fs, g).0 == fs
    decreases |fs.bgdt| - g
  {
    hide Shape, Mark, FirstFree, ReadBlk;
    if g < |fs.bgdt| { AllocNone(k, fs, g + 1); }
  }

  lemma SameInodes(sb: Superblock, r: Superblock, ino: nat)
    requires SameGeometry(sb, r) && IsIno(sb, ino)
    ensures IsIno(r, ino)
  {
  }

  lemma VolumeSizes(fs: Fs)
    requires Volume(fs)
    ensures 2048 <= fs.sb.BlockSize() <= 0x8000
  {
    BlockSizes(fs);
  }

  lemma GroupBelow(sb: Superblock, ino: nat)
    requires sb.Valid() && IsIno(sb, ino)
    ensures ino >= 1 && sb.inodesPerGroup > 0 && GroupOf(Inodes, sb, ino) < sb.NumGroups()
  {
    ItemParts(Inodes, sb, ino);
  }

  lemma DiskBlocks(fs: Fs)
    requires Volume(fs)
    ensures |fs.disk| == fs.sb.blocksCount as int
  {
  }

  lemma BlockInVolume(fs: Fs, b: nat)
    requires Volume(fs) && b < fs.sb.blocksCount as int
    ensures b < |fs.disk| && InRange(Blocks, fs.sb, b)
  {
  }

  lemma SizesOf(sb: Superblock)
    requires sb.Valid()
    ensures sb.BlockSize() == 512 * sb.SectorsPerBlock() && sb.SectorsPerBlock() >= 4
  {
    BlockSizeFacts(sb);
  }

  lemma BlockIs(s: seq<Buf>, spb: nat, count: nat, b: nat)
    requires Sectors(s) && |s| == Mul(count, spb)
    ensures b < count ==> Mul(b, spb) + spb <= |s| && BlocksOf(s, spb, count)[b] == Joined(s, spb, b, spb)
  {
    if b < count { BlockInside(b, count, spb); }
  }

  lemma BlockEdge(b: nat, count: nat, spb: nat)
    ensures b < count ==> Mul(b, spb) + spb <= Mul(count, spb)
    ensures b >= count ==> Mul(b, spb) >= Mul(count, spb)
  {
    if b < count { BlockInside(b, count, spb); } else { MulMono(count, b, spb); }
  }

  lemma BlockWritten(was: seq<Buf>, now: seq<Buf>, spb: nat, count: nat, b: nat, data: Buf)
    requires Sectors(was) && Sectors(now) && |was| == |now| == Mul(count, spb) && |data| == 512 * spb
    requires forall i :: 0 <= i < |was| && !(Mul(b, spb) <= i < Mul(b, spb) + spb) ==> now[i] == was[i]
    requires forall k :: 0 <= k < spb && Mul(b, spb) + k < |now| ==>
             now[Mul(b, spb) + k] == data[512 * k..512 * (k + 1)]
    ensures BlocksOf(now, spb, count) == WriteBlk(BlocksOf(was, spb, count), b, data)
  {
    BlockEdge(b, count, spb);
    if b < count {
      BlockReplaced(was, now, spb, count, b, data);
    } else {
      assert now == was;
    }
  }

  lemma CountsPatched(was: seq<Buf>, now: seq<Buf>, spb: nat, count: nat, sb: Superblock)
    requires Sectors(was) && Sectors(now) && |was| == |now| && spb >= 4 && count > 0 && Mul(count, spb) <= |was|
             && |was| >= 4
    requires 1 <= sb.logBlockSize <= 5 && spb == sb.SectorsPerBlock() && 512 * spb == sb.BlockSize()
    requires forall i :: 0 <= i < |was| && i != 2 && i != 3 ==> now[i] == was[i]
    requires now[2] + now[3] == PutU32(PutU32(was[2] + was[3], 12, sb.freeBlocks), 16, sb.freeInodes)
    ensures BlocksOf(now, spb, count) == WriteCounts(BlocksOf(was, spb, count), sb)
  {
    hide U32At, U32Bytes;
    BlockInside(0, count, spb);
    var disk := BlocksOf(was, spb, count);
    var data := PutCounts(disk[0], sb);
    assert WriteCounts(disk, sb) == disk[0 := data];
    assert Mul(0, spb) == 0;
    forall k | 0 <= k < spb ensures now[Mul(0, spb) + k] == data[512 * k..512 * (k + 1)] {
      CountsSector(was, now, spb, sb, disk[0], k);
    }
    BlockReplaced(was, now, spb, count, 0, data);
  }

  lemma CountsSector(was: seq<Buf>, now: seq<Buf>, spb: nat, sb: Superblock, b: Buf, k: nat)
    requires Sectors(was) && Sectors(now) && |was| == |now| && spb >= 4 && |was| >= spb && k < spb && Mul(0, spb) == 0
    requires b == Joined(was, spb, 0, spb)
    requires forall i :: 0 <= i < |was| && i != 2 && i != 3 ==> now[i] == was[i]
    requires now[2] + now[3] == PutU32(PutU32(was[2] + was[3], 12, sb.freeBlocks), 16, sb.freeInodes)
    ensures |b| >= 2048 && now[k] == PutCounts(b, sb)[512 * k..512 * (k + 1)]
  {
    hide PutU32, PutCounts;
    SectorOf(was, spb, b, k);
    SectorOf(was, spb, b, 2);
    SectorOf(was, spb, b, 3);
    assert b[1024..2048] == was[2] + was[3];
    CountsSlice(b, sb);
    var patched := now[2] + now[3];
    assert now[2] == patched[..512] && now[3] == patched[512..];
    Slices(b[..1024], patched, b[2048..], 512 * k, 512 * (k + 1));
    assert k < 2 ==> b[..1024][512 * k..512 * (k + 1)] == b[512 * k..512 * (k + 1)];
    assert k >= 4 ==> b[2048..][512 * k - 2048..512 * (k + 1) - 2048] == b[512 * k..512 * (k + 1)];
  }

  lemma Slices(a: Buf, p: Buf, c: Buf, lo: nat, hi: nat)
    requires lo <= hi <= |a| + |p| + |c|
    ensures hi <= |a| ==> (a + p + c)[lo..hi] == a[lo..hi]
    ensures |a| <= lo && hi <= |a| + |p| ==> (a + p + c)[lo..hi] == p[lo - |a|..hi - |a|]
    ensures |a| + |p| <= lo ==> (a + p + c)[lo..hi] == c[lo - |a| - |p|..hi - |a| - |p|]
  {
  }

  lemma SectorOf(s: seq<Buf>, spb: nat, b: Buf, k: nat)
    requires Sectors(s) && k < spb <= |s| && Mul(0, spb) == 0 && b == Joined(s, spb, 0, spb)
    ensures |b| == 512 * spb && b[512 * k..512 * (k + 1)] == s[k]
  {
    forall i | 0 <= i < 512 ensures b[512 * k + i] == s[k][i] {
      JoinedAt(s, spb, 0, spb, 512 * k + i);
      assert (512 * k + i) / 512 == k && (512 * k + i) % 512 == i;
    }
  }

  /** Patching the counts of block 0 patches the 1024 bytes of the superblock alone. */
  lemma CountsSlice(b: Buf, sb: Superblock)
    requires |b| >= 2048
    ensures PutCounts(b, sb) == b[..1024] + PutU32(PutU32(b[1024..2048], 12, sb.freeBlocks), 16, sb.freeInodes)
            + b[2048..]
  {
    hide U32At, U32Bytes;
  }
}
