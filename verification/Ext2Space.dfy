/** How many free blocks a write needs (fs/src/ext2/inode_impl.rs:99-140): the data blocks and index blocks that the
    blocks it reaches lack, each counted once, on the volume before the call. */
module Ext2Space {
  import opened Arith
  import opened Bytes
  import opened Ext2Layout
  import opened Ext2Alloc
  import opened Ext2Inode
  import opened Ext2BlockMap
  import opened Ext2File

  /** A place of the block map without a block. */
  ghost predicate Gap(d: seq<Buf>, p: nat, s: Slots, q: seq<nat>)
    requires DiskShape(d, 4 * p)
  {
    IsPath(p, q) && PtrAt(d, p, s, q) == 0
  }

  /** The gaps on the way down to `path`. */
  ghost function GapsTo(d: seq<Buf>, p: nat, s: Slots, path: seq<nat>): set<seq<nat>>
    requires DiskShape(d, 4 * p)
  {
    set j | 1 <= j <= |path| && Gap(d, p, s, path[..j]) :: path[..j]
  }

  /** The gaps on the way to the logical blocks from `lo` up to `hi`: data blocks and index blocks, each once. */
  ghost function Gaps(d: seq<Buf>, p: nat, s: Slots, lo: nat, hi: nat): set<seq<nat>>
    requires p > 0 && DiskShape(d, 4 * p)
  {
    set m, j | lo <= m < hi && 1 <= j <= |PathOf(p, m)| && Gap(d, p, s, PathOf(p, m)[..j]) :: PathOf(p, m)[..j]
  }

  lemma {:induction false} GapsCounted(d: seq<Buf>, p: nat, s: Slots, path: seq<nat>)
    requires DiskShape(d, 4 * p) && IsPath(p, path)
    ensures |GapsTo(d, p, s, path)| == Missing(d, p, s, path)
    decreases |path|
  {
    hide PtrAt, DiskShape;
    assert path[..|path|] == path;
    if PtrAt(d, p, s, path) != 0 {
      forall j | 1 <= j <= |path| ensures !Gap(d, p, s, path[..j]) {
        if IsPath(p, path[..j]) { SetAbove(d, p, s, path, path[..j]); }
      }
      assert GapsTo(d, p, s, path) == {};
    } else if |path| == 1 {
      assert GapsTo(d, p, s, path) == {path};
    } else {
      var up := Parent(path);
      ParentPath(p, path);
      GapsCounted(d, p, s, up);
      assert forall j :: 1 <= j <= |up| ==> up[..j] == path[..j];
      assert GapsTo(d, p, s, path) == GapsTo(d, p, s, up) + {path};
    }
  }

  /** Once the gaps down to the first block are filled, those of the other blocks are left. */
  lemma GapsSplit(d: seq<Buf>, s: Slots, r: seq<Buf>, t: Slots, p: nat, lo: nat, hi: nat)
    requires p > 0 && DiskShape(d, 4 * p) && DiskShape(r, 4 * p) && lo < hi
    requires Filled(d, s, r, t, p, PathOf(p, lo))
    ensures Gaps(d, p, s, lo, hi) == GapsTo(d, p, s, PathOf(p, lo)) + Gaps(r, p, t, lo + 1, hi)
    ensures GapsTo(d, p, s, PathOf(p, lo)) !! Gaps(r, p, t, lo + 1, hi)
  {
    hide PathOf, IsPath, PtrAt, DiskShape;
    var first, rest := GapsTo(d, p, s, PathOf(p, lo)), Gaps(r, p, t, lo + 1, hi);
    forall q | q in Gaps(d, p, s, lo, hi) ensures q in first + rest {
      var m, j :| lo <= m < hi && 1 <= j <= |PathOf(p, m)| && Gap(d, p, s, PathOf(p, m)[..j]) && q == PathOf(p, m)[..j];
      if q <= PathOf(p, lo) {
        assert q == PathOf(p, lo)[..j];
      } else {
        assert m != lo && Gap(r, p, t, PathOf(p, m)[..j]);
      }
    }
    forall q | q in first ensures q in Gaps(d, p, s, lo, hi) {
      var j :| 1 <= j <= |PathOf(p, lo)| && Gap(d, p, s, PathOf(p, lo)[..j]) && q == PathOf(p, lo)[..j];
    }
    forall q | q in rest ensures q in Gaps(d, p, s, lo, hi) && q !in first {
      var m, j :| lo + 1 <= m < hi && 1 <= j <= |PathOf(p, m)| && Gap(r, p, t, PathOf(p, m)[..j])
                  && q == PathOf(p, m)[..j];
      assert Gap(d, p, s, PathOf(p, m)[..j]) && !(q <= PathOf(p, lo));
    }
  }

  /** Free blocks that filling the logical blocks from `lo` up to `hi` takes. */
  ghost function Cost(fs: Fs, n: Inode, lo: nat, hi: nat): nat
    requires Volume(fs)
  {
    |Gaps(fs.disk, fs.sb.Ptrs(), n.block, lo, hi)|
  }

  /** Writing the blocks from `lo` up to `hi` comes to no index block that cannot be had: the free blocks cover
      all of it, or they run out exactly before one of the blocks. */
  ghost predicate Covers(fs: Fs, n: Inode, lo: nat, hi: nat)
    requires Volume(fs)
  {
    Cost(fs, n, lo, hi) <= fs.sb.freeBlocks as int
    || exists h :: lo <= h < hi && Cost(fs, n, lo, h) == fs.sb.freeBlocks as int
  }

  lemma CostNone(fs: Fs, n: Inode, lo: nat)
    requires Volume(fs)
    ensures Cost(fs, n, lo, lo) == 0
  {
    hide Superblock.Valid, Gap, PathOf;
    assert Gaps(fs.disk, fs.sb.Ptrs(), n.block, lo, lo) == {};
  }

  lemma CostSplit(fs: Fs, n: Inode, lo: nat, hi: nat, r: Fs, n2: Inode)
    requires Volume(fs) && Volume(r) && SameGeometry(fs.sb, r.sb) && lo < hi && lo < MaxBlocks(fs.sb.Ptrs())
    requires Taken(fs, n, lo, r, n2)
    ensures r.sb.freeBlocks as int - Cost(r, n2, lo + 1, hi) == fs.sb.freeBlocks as int - Cost(fs, n, lo, hi)
    ensures r.sb.freeBlocks <= fs.sb.freeBlocks
  {
    hide Superblock.Valid, PathOf, Gaps, GapsTo, Filled, Missing, MaxBlocks;
    var p := fs.sb.Ptrs();
    PathOfIsLeaf(p, lo);
    GapsSplit(fs.disk, n.block, r.disk, n2.block, p, lo, hi);
    GapsCounted(fs.disk, p, n.block, PathOf(p, lo));
  }

  /** The first block costs at least what it lacks. */
  lemma CostFirst(fs: Fs, n: Inode, lo: nat, hi: nat)
    requires Volume(fs) && lo < hi && lo < MaxBlocks(fs.sb.Ptrs())
    ensures IsPath(fs.sb.Ptrs(), PathOf(fs.sb.Ptrs(), lo))
    ensures Cost(fs, n, lo, hi) >= Missing(fs.disk, fs.sb.Ptrs(), n.block, PathOf(fs.sb.Ptrs(), lo))
  {
    hide Superblock.Valid, PathOf, Gap, Missing, MaxBlocks;
    var p := fs.sb.Ptrs();
    PathOfIsLeaf(p, lo);
    GapsCounted(fs.disk, p, n.block, PathOf(p, lo));
    assert GapsTo(fs.disk, p, n.block, PathOf(p, lo)) <= Gaps(fs.disk, p, n.block, lo, hi);
    SubsetSize(GapsTo(fs.disk, p, n.block, PathOf(p, lo)), Gaps(fs.disk, p, n.block, lo, hi));
  }

  lemma SubsetSize(a: set<seq<nat>>, b: set<seq<nat>>)
    requires a <= b
    ensures |a| <= |b|
  {
    assert b == a + (b - a);
  }

  /** Room for a block, in terms of what the block lacks. */
  lemma StepIff(fs: Fs, n: Inode, blk: nat)
    requires Volume(fs) && blk < MaxBlocks(fs.sb.Ptrs())
    ensures IsPath(fs.sb.Ptrs(), PathOf(fs.sb.Ptrs(), blk))
    ensures var lacks := Missing(fs.disk, fs.sb.Ptrs(), n.block, PathOf(fs.sb.Ptrs(), blk));
            && (StepRoom(fs, n, blk) <==> fs.sb.freeBlocks == 0 || lacks <= fs.sb.freeBlocks as int)
            && (GetBlock(fs.disk, fs.sb.Ptrs(), n.block, blk).None? <==> lacks > 0)
  {
    hide Superblock.Valid, PathOf, PtrAt, MaxBlocks;
    PathOfIsLeaf(fs.sb.Ptrs(), blk);
    ParentPath(fs.sb.Ptrs(), PathOf(fs.sb.Ptrs(), blk));
  }

  lemma CoversStep(fs: Fs, n: Inode, lo: nat, hi: nat, r: Fs, n2: Inode)
    requires Volume(fs) && Volume(r) && SameGeometry(fs.sb, r.sb) && lo + 1 < hi && lo < MaxBlocks(fs.sb.Ptrs())
    requires Taken(fs, n, lo, r, n2)
    ensures Covers(fs, n, lo, hi) <==> Covers(r, n2, lo + 1, hi)
    ensures r.sb.freeBlocks as int - Cost(r, n2, lo + 1, hi) == fs.sb.freeBlocks as int - Cost(fs, n, lo, hi)
  {
    hide Volume, Cost, Taken, MaxBlocks;
    forall h | lo < h <= hi
      ensures r.sb.freeBlocks as int - Cost(r, n2, lo + 1, h) == fs.sb.freeBlocks as int - Cost(fs, n, lo, h)
    {
      CostSplit(fs, n, lo, h, r, n2);
    }
    CostSplit(fs, n, lo, hi, r, n2);
    CostNone(fs, n, lo);
    CostNone(r, n2, lo + 1);
    if h :| lo <= h < hi && Cost(fs, n, lo, h) == fs.sb.freeBlocks as int {
      if h == lo {
        assert Cost(r, n2, lo + 1, lo + 1) == r.sb.freeBlocks as int;
      } else {
        assert Cost(r, n2, lo + 1, h) == r.sb.freeBlocks as int;
      }
    }
    var next := lo + 1;
    if h :| next <= h < hi && Cost(r, n2, next, h) == r.sb.freeBlocks as int {
      assert Cost(fs, n, lo, h) == fs.sb.freeBlocks as int;
    }
  }

  /** Patching a data block leaves the map alone. */
  lemma TakenPatched(fs: Fs, n: Inode, blk: nat, fs1: Fs, n1: Inode, fs2: Fs)
    requires Volume(fs) && Volume(fs1) && Volume(fs2) && SameGeometry(fs.sb, fs1.sb) && fs2.sb == fs1.sb
    requires blk < MaxBlocks(fs.sb.Ptrs()) && Taken(fs, n, blk, fs1, n1)
    requires SamePtrs(fs1.disk, fs2.disk, fs.sb.Ptrs(), n1.block)
    ensures Taken(fs, n, blk, fs2, n1)
  {
    hide Superblock.Valid, PathOf, PtrAt, IsPath, Missing, MaxBlocks;
  }

  lemma LastBlock(bsz: nat, pos: nat, k: nat)
    requires bsz > 0 && k > 0 && Mod(pos, bsz) + k <= bsz
    ensures CeilDiv(pos + k, bsz) == Div(pos, bsz) + 1
  {
    hide Mul, Div, Mod, CeilDiv;
    DivMod(pos, bsz);
    MulAdd(Div(pos, bsz), 1, bsz);
    MulOne(bsz);
    CeilOf(pos + k, bsz, Div(pos, bsz) + 1);
  }

  ghost predicate RoomIff(fs: Fs, n: Inode, offset: nat, buf: Buf, done: nat)
    requires Volume(fs) && done < |buf| && offset + |buf| <= MaxBytes(fs.sb.Ptrs())
  {
    var lo, hi := Div(offset + done, fs.sb.BlockSize()), CeilDiv(offset + |buf|, fs.sb.BlockSize());
    && (WriteRoom(fs, n, offset, buf, done) <==> Covers(fs, n, lo, hi))
    && (WriteRoom(fs, n, offset, buf, done) && WriteLoop(fs, n, offset, buf, done).2 == |buf| <==>
          Cost(fs, n, lo, hi) <= fs.sb.freeBlocks as int)
    && (Cost(fs, n, lo, hi) <= fs.sb.freeBlocks as int ==>
          WriteLoop(fs, n, offset, buf, done).0.sb.freeBlocks as int == fs.sb.freeBlocks as int - Cost(fs, n, lo, hi))
  }

  /** Every index block of the write is there when it is needed exactly when the free blocks before the call
      cover it, and all of it is written exactly when they cover everything; that is then what it takes. */
  lemma {:induction false} WriteRoomIff(fs: Fs, own: Ownership, n: Inode, offset: nat, buf: Buf, done: nat)
    requires Volume(fs) && Core(fs, own) && done < |buf| && offset + |buf| <= MaxBytes(fs.sb.Ptrs())
    requires TreeOk(fs.disk, fs.sb.Ptrs(), own, n.ino as int, n.block)
    ensures RoomIff(fs, n, offset, buf, done)
    decreases |buf| - done
  {
    hide Core, Superblock.Valid, TreeOk, GetOrAlloc, PatchBlock, Mul, Div, Mod, CeilDiv, StepRoom, Cost, Covers,
         Taken, StepSpec, PathOf, Missing, GetBlock;
    var bsz, p, pos := fs.sb.BlockSize(), fs.sb.Ptrs(), offset + done;
    BlockInRange(p, pos);
    var blk, hi := Div(pos, bsz), CeilDiv(offset + |buf|, bsz);
    DivInCeil(pos, offset + |buf|, bsz);
    StepIff(fs, n, blk);
    if !StepRoom(fs, n, blk) {
      NotCovered(fs, n, blk, hi);
    } else {
      var own1 := GetOrAllocSpec(fs, own, n, blk);
      match GetOrAlloc(fs, n, blk) {
        case None =>
          CoveredAtOnce(fs, n, blk, hi);
        case Some((fs1, n1, b)) =>
          var k := Chunk(bsz, pos, |buf| - done);
          var data := buf[done..done + k];
          var fs2 := PatchBlock(fs1, b, Mod(pos, bsz), data);
          StepFacts(fs, own, n, blk, fs1, n1, b, own1);
          PatchSpec(fs1, own1, n1, pos, b, data);
          TakenPatched(fs, n, blk, fs1, n1, fs2);
          if done + k == |buf| {
            LastBlock(bsz, pos, k);
            OneLeft(fs, n, blk, fs2, n1);
            assert WriteRoom(fs2, n1, offset, buf, done + k)
                   && WriteLoop(fs2, n1, offset, buf, done + k) == (fs2, n1, |buf|);
          } else {
            NextBlock(bsz, pos, |buf| - done);
            DivInCeil(pos + k, offset + |buf|, bsz);
            WriteRoomIff(fs2, own1, n1, offset, buf, done + k);
            CoversStep(fs, n, blk, hi, fs2, n1);
          }
      }
    }
  }

  lemma StepFacts(fs: Fs, own: Ownership, n: Inode, blk: nat, fs1: Fs, n1: Inode, b: u32, own1: Ownership)
    requires Volume(fs) && Volume(fs1) && SameGeometry(fs.sb, fs1.sb) && blk < MaxBlocks(fs.sb.Ptrs())
             && StepSpec(fs, own, n, blk, fs1, n1, b, own1)
    ensures Core(fs1, own1) && TreeOk(fs1.disk, fs.sb.Ptrs(), own1, n.ino as int, n1.block)
    ensures GetBlock(fs1.disk, fs.sb.Ptrs(), n1.block, blk) == Some(b)
  {
    hide Core, Superblock.Valid, TreeOk, GetBlock, Grew, LeavesKept, MaxBlocks;
  }

  lemma NotCovered(fs: Fs, n: Inode, lo: nat, hi: nat)
    requires Volume(fs) && lo < hi && lo < MaxBlocks(fs.sb.Ptrs()) && IsPath(fs.sb.Ptrs(), PathOf(fs.sb.Ptrs(), lo))
    requires 0 < fs.sb.freeBlocks as int < Missing(fs.disk, fs.sb.Ptrs(), n.block, PathOf(fs.sb.Ptrs(), lo))
    ensures !Covers(fs, n, lo, hi) && Cost(fs, n, lo, hi) > fs.sb.freeBlocks as int
  {
    hide Superblock.Valid, Cost, PathOf, Missing, MaxBlocks;
    CostNone(fs, n, lo);
    forall h | lo < h <= hi ensures Cost(fs, n, lo, h) > fs.sb.freeBlocks as int { CostFirst(fs, n, lo, h); }
  }

  lemma CoveredAtOnce(fs: Fs, n: Inode, lo: nat, hi: nat)
    requires Volume(fs) && lo < hi && lo < MaxBlocks(fs.sb.Ptrs()) && IsPath(fs.sb.Ptrs(), PathOf(fs.sb.Ptrs(), lo))
    requires 0 == fs.sb.freeBlocks as int < Missing(fs.disk, fs.sb.Ptrs(), n.block, PathOf(fs.sb.Ptrs(), lo))
    ensures Covers(fs, n, lo, hi) && Cost(fs, n, lo, hi) > 0
  {
    hide Superblock.Valid, Cost, PathOf, Missing, MaxBlocks;
    CostNone(fs, n, lo);
    CostFirst(fs, n, lo, hi);
  }

  lemma OneLeft(fs: Fs, n: Inode, lo: nat, r: Fs, n2: Inode)
    requires Volume(fs) && Volume(r) && SameGeometry(fs.sb, r.sb) && lo < MaxBlocks(fs.sb.Ptrs())
             && Taken(fs, n, lo, r, n2)
    ensures Cost(fs, n, lo, lo + 1) <= fs.sb.freeBlocks as int && Covers(fs, n, lo, lo + 1)
    ensures r.sb.freeBlocks as int == fs.sb.freeBlocks as int - Cost(fs, n, lo, lo + 1)
  {
    hide Superblock.Valid, Cost, MaxBlocks, Taken;
    CostSplit(fs, n, lo, lo + 1, r, n2);
    CostNone(r, n2, lo + 1);
  }

  // ---------------------------------------------------------------- what the room means

  ghost predicate AllMapped(r: Fs, n: Inode, lo: nat, hi: nat)
    requires Volume(r)
  {
    forall m :: lo <= m < hi && m < MaxBlocks(r.sb.Ptrs()) ==> GetBlock(r.disk, r.sb.Ptrs(), n.block, m).Some?
  }

  /** A block without its index blocks is counted as written and is not in the map. */
  lemma {:induction false} WriteLoses(fs: Fs, own: Ownership, n: Inode, offset: nat, buf: Buf, done: nat, size: nat)
    requires Volume(fs) && Core(fs, own) && done <= |buf| && offset + |buf| <= MaxBytes(fs.sb.Ptrs())
    requires TreeOk(fs.disk, fs.sb.Ptrs(), own, n.ino as int, n.block) && !WriteRoom(fs, n, offset, buf, done)
    requires MappedTo(fs.disk, fs.sb.Ptrs(), n.block, CeilDiv(Max(size, offset + done), fs.sb.BlockSize()))
    ensures var (r, n2, done2) := WriteLoop(fs, n, offset, buf, done);
            !AllMapped(r, n2, Div(offset + done, fs.sb.BlockSize()), CeilDiv(offset + done2, fs.sb.BlockSize()))
    decreases |buf| - done
  {
    hide Core, Superblock.Valid, TreeOk, GetOrAlloc, PatchBlock, Grew, MappedTo, Written, Mul, Div, Mod, CeilDiv,
         StepRoom, AllMapped, StepSpec, Taken, GetBlock;
    var bsz, p, pos := fs.sb.BlockSize(), fs.sb.Ptrs(), offset + done;
    BlockInRange(p, pos);
    var blk := Div(pos, bsz);
    if !StepRoom(fs, n, blk) {
      LostHere(fs, own, n, offset, buf, done, size);
    } else {
      var own1 := GetOrAllocSpec(fs, own, n, blk);
      var (fs1, n1, b) := GetOrAlloc(fs, n, blk).value;
      var k := Chunk(bsz, pos, |buf| - done);
      var fs2 := PatchBlock(fs1, b, Mod(pos, bsz), buf[done..done + k]);
      IterationSpec(fs, own, n, offset, buf, done, size, fs1, n1, b, own1, k, fs2);
      WriteLoses(fs2, own1, n1, offset, buf, done + k, size);
      var (r, n2, done2) := WriteLoop(fs2, n1, offset, buf, done + k);
      DivMonotone(pos, pos + k, bsz);
      FewerMapped(r, n2, blk, Div(pos + k, bsz), CeilDiv(offset + done2, bsz));
    }
  }

  lemma FewerMapped(r: Fs, n: Inode, lo: nat, lo2: nat, hi: nat)
    requires Volume(r) && lo <= lo2
    ensures AllMapped(r, n, lo, hi) ==> AllMapped(r, n, lo2, hi)
  {
    hide Superblock.Valid, GetBlock, MaxBlocks;
  }

  lemma DivMonotone(a: nat, b: nat, n: nat)
    requires n > 0 && a <= b
    ensures Div(a, n) <= Div(b, n)
  {
    hide Mul, Div, Mod;
    DivMod(a, n);
    DivMod(b, n);
    if Div(b, n) < Div(a, n) {
      MulMono(Div(b, n) + 1, Div(a, n), n);
      MulAdd(Div(b, n), 1, n);
      MulOne(n);
    }
  }

  /** The iteration that finds no room: it is the last one. */
  lemma LostHere(fs: Fs, own: Ownership, n: Inode, offset: nat, buf: Buf, done: nat, size: nat)
    requires Volume(fs) && Core(fs, own) && done < |buf| && offset + |buf| <= MaxBytes(fs.sb.Ptrs())
    requires TreeOk(fs.disk, fs.sb.Ptrs(), own, n.ino as int, n.block)
    requires MappedTo(fs.disk, fs.sb.Ptrs(), n.block, CeilDiv(Max(size, offset + done), fs.sb.BlockSize()))
    requires Div(offset + done, fs.sb.BlockSize()) < MaxBlocks(fs.sb.Ptrs())
             && !StepRoom(fs, n, Div(offset + done, fs.sb.BlockSize()))
    ensures var (r, n2, done2) := WriteLoop(fs, n, offset, buf, done);
            !AllMapped(r, n2, Div(offset + done, fs.sb.BlockSize()), CeilDiv(offset + done2, fs.sb.BlockSize()))
  {
    hide Core, Superblock.Valid, TreeOk, AllocMapped, PatchBlock, Mul, Div, Mod, CeilDiv, StepRoom, GetBlock, Stays,
         MaxBytes, MaxBlocks, Exhausted, Zeros, Missing, PathOf, MappedTo, AllMapped, DiskShape;
    var bsz, p, pos := fs.sb.BlockSize(), fs.sb.Ptrs(), offset + done;
    var blk := Div(pos, bsz);
    StepIff(fs, n, blk);
    BlockSizes(fs);
    var own2 := AllocMappedFails(fs, own, n, blk, Zeros(bsz));
    var (fs1, n1, b) := AllocMapped(fs, n, blk, Zeros(bsz)).value;
    var k := Chunk(bsz, pos, |buf| - done);
    var fs2 := PatchBlock(fs1, b, Mod(pos, bsz), buf[done..done + k]);
    LostTail(fs, n, offset, buf, done, size, fs1, n1, b, own2);
    DivInCeil(pos, pos + k, bsz);
    Unmapped(fs2, n1, blk, CeilDiv(pos + k, bsz), blk);
  }

  /** After that iteration the loop ends, and the block is not mapped. */
  lemma LostTail(fs: Fs, n: Inode, offset: nat, buf: Buf, done: nat, size: nat, fs1: Fs, n1: Inode, b: u32,
      own2: Ownership)
    requires Volume(fs) && Volume(fs1) && SameGeometry(fs.sb, fs1.sb) && done < |buf| && Exhausted(fs1)
    requires offset + |buf| <= MaxBytes(fs.sb.Ptrs()) && n1.ino == n.ino && b as int !in own2
    requires Div(offset + done, fs.sb.BlockSize()) < MaxBlocks(fs.sb.Ptrs())
    requires GetBlock(fs.disk, fs.sb.Ptrs(), n.block, Div(offset + done, fs.sb.BlockSize())).None?
    requires MappedTo(fs.disk, fs.sb.Ptrs(), n.block, CeilDiv(Max(size, offset + done), fs.sb.BlockSize()))
    requires TreeOk(fs1.disk, fs.sb.Ptrs(), own2, n.ino as int, n1.block)
    requires forall m :: 0 <= m < MaxBlocks(fs.sb.Ptrs()) ==>
               GetBlock(fs1.disk, fs.sb.Ptrs(), n1.block, m) == GetBlock(fs.disk, fs.sb.Ptrs(), n.block, m)
    ensures var k := Chunk(fs.sb.BlockSize(), offset + done, |buf| - done);
            var fs2 := PatchBlock(fs1, b, Mod(offset + done, fs.sb.BlockSize()), buf[done..done + k]);
            && WriteLoop(fs2, n1, offset, buf, done + k) == (fs2, n1, done + k)
            && GetBlock(fs2.disk, fs.sb.Ptrs(), n1.block, Div(offset + done, fs.sb.BlockSize())).None?
  {
    hide Superblock.Valid, TreeOk, Mul, Div, Mod, CeilDiv, GetBlock, MaxBytes, MaxBlocks, Splice, Exhausted, MappedTo,
         WriteLoop;
    var bsz, p, pos := fs.sb.BlockSize(), fs.sb.Ptrs(), offset + done;
    var blk, k := Div(pos, bsz), Chunk(bsz, pos, |buf| - done);
    var fs2 := PatchBlock(fs1, b, Mod(pos, bsz), buf[done..done + k]);
    UnownedWrite(fs1.disk, fs2.disk, p, own2, n.ino as int, n1.block, b as int);
    SameBlocks(fs1.disk, fs2.disk, p, n1.block);
    SameExhausted(fs1, fs2);
    if done + k < |buf| {
      NextBlock(bsz, pos, |buf| - done);
      BlockInRange(p, pos + k);
      NextUnmapped(fs, n, CeilDiv(Max(size, pos), bsz), blk);
    }
    Stops(fs2, n1, offset, buf, done + k);
  }

  lemma Unmapped(r: Fs, n: Inode, lo: nat, hi: nat, m: nat)
    requires Volume(r) && lo <= m < hi && m < MaxBlocks(r.sb.Ptrs())
             && GetBlock(r.disk, r.sb.Ptrs(), n.block, m).None?
    ensures !AllMapped(r, n, lo, hi)
  {
    hide Superblock.Valid, GetBlock, MaxBlocks;
  }

  lemma NextUnmapped(fs: Fs, n: Inode, nb: nat, blk: nat)
    requires Volume(fs) && MappedTo(fs.disk, fs.sb.Ptrs(), n.block, nb) && blk + 1 < MaxBlocks(fs.sb.Ptrs())
             && GetBlock(fs.disk, fs.sb.Ptrs(), n.block, blk).None?
    ensures GetBlock(fs.disk, fs.sb.Ptrs(), n.block, blk + 1).None?
  {
    hide Superblock.Valid, GetBlock, MaxBlocks;
  }

  /** With nothing free the loop ends at a block that is not mapped. */
  lemma Stops(fs: Fs, n: Inode, offset: nat, buf: Buf, done: nat)
    requires Volume(fs) && Exhausted(fs) && done <= |buf| && offset + |buf| <= MaxBytes(fs.sb.Ptrs())
    requires done < |buf| ==>
             && Div(offset + done, fs.sb.BlockSize()) < MaxBlocks(fs.sb.Ptrs())
             && GetBlock(fs.disk, fs.sb.Ptrs(), n.block, Div(offset + done, fs.sb.BlockSize())).None?
    ensures WriteLoop(fs, n, offset, buf, done) == (fs, n, done)
  {
    hide Superblock.Valid, GetBlock, MaxBytes, MaxBlocks, Div, Mod, DiskShape, Zeros, SetBlock;
    AllocExhausted(fs, 0);
  }

  lemma SameBlocks(d: seq<Buf>, r: seq<Buf>, p: nat, s: Slots)
    requires p > 0 && DiskShape(d, 4 * p) && DiskShape(r, 4 * p)
    requires forall q :: IsPath(p, q) ==> PtrAt(r, p, s, q) == PtrAt(d, p, s, q)
    ensures forall m :: 0 <= m < MaxBlocks(p) ==> GetBlock(r, p, s, m) == GetBlock(d, p, s, m)
  {
    hide IsPath, PathOf, PtrAt, MaxBlocks;
    forall m | 0 <= m < MaxBlocks(p) ensures GetBlock(r, p, s, m) == GetBlock(d, p, s, m) { PathOfIsLeaf(p, m); }
  }

  // ---------------------------------------------------------------- the write of a file

  /** The free blocks cover a write of `len` bytes at `offset`. */
  ghost predicate RoomFor(fs: Fs, ino: nat, offset: nat, len: nat)
    requires Volume(fs) && IsIno(fs.sb, ino)
  {
    len > 0 ==>
      Covers(fs, ReadInode(fs, ino), Div(offset, fs.sb.BlockSize()), CeilDiv(offset + len, fs.sb.BlockSize()))
  }

  lemma RoomForIff(fs: Fs, own: Ownership, ino: nat, bytes: Buf, offset: nat, buf: Buf)
    requires Volume(fs) && Core(fs, own) && IsIno(fs.sb, ino) && FileOk(fs, own, ino, bytes)
    requires offset + |buf| <= MaxBytes(fs.sb.Ptrs())
    ensures RoomFor(fs, ino, offset, |buf|) <==> WriteRoom(fs, ReadInode(fs, ino), offset, buf, 0)
  {
    hide Core, Superblock.Valid, TreeOk, ReadInode, IsIno, MappedTo, HasBytes, CeilDiv, Div, Covers, Cost, WriteLoop,
         MaxBytes;
    if buf == [] {
      assert WriteRoom(fs, ReadInode(fs, ino), offset, buf, 0);
    } else {
      WriteRoomIff(fs, own, ReadInode(fs, ino), offset, buf, 0);
    }
  }

  /** What the blocks of a write come to: all it reports is in the map exactly when the free blocks before the
      call cover it, and all it was given exactly when they cover everything. */
  ghost predicate StoresIff(fs: Fs, n: Inode, offset: nat, buf: Buf)
    requires Volume(fs) && buf != [] && offset + |buf| <= MaxBytes(fs.sb.Ptrs())
  {
    var (r, n2, done) := WriteLoop(fs, n, offset, buf, 0);
    var bsz := fs.sb.BlockSize();
    var lo, hi := Div(offset, bsz), CeilDiv(offset + |buf|, bsz);
    && (AllMapped(r, n2, lo, CeilDiv(offset + done, bsz)) <==> Covers(fs, n, lo, hi))
    && (done == |buf| && AllMapped(r, n2, lo, hi) <==> Cost(fs, n, lo, hi) <= fs.sb.freeBlocks as int)
  }

  lemma WriteStoresIff(fs: Fs, own: Ownership, ino: nat, bytes: Buf, offset: nat, buf: Buf)
    requires Volume(fs) && Core(fs, own) && IsIno(fs.sb, ino) && FileOk(fs, own, ino, bytes) && buf != []
    requires offset <= |bytes| && offset + |buf| <= MaxBytes(fs.sb.Ptrs())
    ensures StoresIff(fs, ReadInode(fs, ino), offset, buf)
  {
    hide Core, Superblock.Valid, TreeOk, ReadInode, IsIno, HasBytes, CeilDiv, Div, Covers, Cost, WriteLoop, WriteRoom,
         MaxBytes, AllMapped, MappedTo;
    var n := ReadInode(fs, ino);
    WriteRoomIff(fs, own, n, offset, buf, 0);
    if WriteRoom(fs, n, offset, buf, 0) {
      var own2 := WriteLoopSpec(fs, own, n, offset, buf, 0, |bytes|);
      var (r, n2, done) := WriteLoop(fs, n, offset, buf, 0);
      StoredMapped(fs, own, n, offset, done, buf, |bytes|, r, n2, own2);
    } else {
      WriteLoses(fs, own, n, offset, buf, 0, |bytes|);
    }
  }

  lemma StoredMapped(fs: Fs, own: Ownership, n: Inode, offset: nat, done: nat, buf: Buf, size: nat, r: Fs, n2: Inode,
      own2: Ownership)
    requires Volume(fs) && Volume(r) && done <= |buf|
             && LoopSpec(fs, own, n, offset, offset + done, buf, offset, size, r, n2, own2)
    ensures AllMapped(r, n2, Div(offset, fs.sb.BlockSize()), CeilDiv(offset + done, fs.sb.BlockSize()))
  {
    hide Core, Superblock.Valid, TreeOk, Written, Grew, GetBlock, CeilDiv, Div, MaxBlocks;
    CeilMonotone(offset + done, Max(size, offset + done), fs.sb.BlockSize());
  }

  /** A write that the free blocks cover is done in full and takes exactly its cost. */
  lemma WriteTakes(fs: Fs, own: Ownership, ino: nat, bytes: Buf, offset: nat, buf: Buf)
    requires Volume(fs) && Core(fs, own) && IsIno(fs.sb, ino) && FileOk(fs, own, ino, bytes) && buf != []
    requires offset + |buf| <= MaxBytes(fs.sb.Ptrs())
    requires Cost(fs, ReadInode(fs, ino), Div(offset, fs.sb.BlockSize()), CeilDiv(offset + |buf|, fs.sb.BlockSize()))
             <= fs.sb.freeBlocks as int
    ensures RoomFor(fs, ino, offset, |buf|) && WriteFile(fs, ino, offset, buf).1 == |buf|
    ensures WriteFile(fs, ino, offset, buf).0.sb.freeBlocks as int == fs.sb.freeBlocks as int
            - Cost(fs, ReadInode(fs, ino), Div(offset, fs.sb.BlockSize()), CeilDiv(offset + |buf|, fs.sb.BlockSize()))
  {
    hide Core, Superblock.Valid, TreeOk, ReadInode, IsIno, MappedTo, HasBytes, CeilDiv, Div, Cost, WriteLoop,
         WriteRoom, MaxBytes, Gaps;
    WriteRoomIff(fs, own, ReadInode(fs, ino), offset, buf, 0);
  }

  // ---------------------------------------------------------------- what it comes to

  /** The twelve direct blocks of an empty file cost a block each. */
  lemma DirectCost(fs: Fs, n: Inode)
    requires Volume(fs) && forall i :: 0 <= i < 12 ==> n.block[i] == 0
    ensures Cost(fs, n, 0, 12) == 12
  {
    hide Superblock.Valid, DiskShape, Mul;
    var p, d, s := fs.sb.Ptrs(), fs.disk, n.block;
    forall q | q in Gaps(d, p, s, 0, 12) ensures q in Tops(12) {
      var m, j :| 0 <= m < 12 && 1 <= j <= |PathOf(p, m)| && Gap(d, p, s, PathOf(p, m)[..j]) && q == PathOf(p, m)[..j];
      assert q == [m];
    }
    forall q | q in Tops(12) ensures q in Gaps(d, p, s, 0, 12) {
      var i :| 0 <= i < 12 && q == [i];
      assert PathOf(p, i)[..1] == [i] && Gap(d, p, s, PathOf(p, i)[..1]);
    }
    assert Gaps(d, p, s, 0, 12) == Tops(12);
    TopsCount(12);
  }

  ghost function Tops(k: nat): set<seq<nat>> { set i | 0 <= i < k :: [i] }

  lemma {:induction false} TopsCount(k: nat)
    ensures |Tops(k)| == k
  {
    if k > 0 {
      TopsCount(k - 1);
      assert Tops(k) == Tops(k - 1) + {[k - 1]};
      assert [k - 1] !in Tops(k - 1);
    } else {
      assert Tops(k) == {};
    }
  }

  /** The thirteenth block of a file without index blocks costs two. */
  lemma ThirteenthCost(fs: Fs, n: Inode, blk: nat)
    requires Volume(fs) && n.block[12] == 0 && blk == 12
    ensures Cost(fs, n, blk, blk + 1) == 2
  {
    hide Superblock.Valid, Mul, Gap, PtrAt, DiskShape;
    var p := fs.sb.Ptrs();
    assert PathOf(p, blk) == [12, 0] && blk < MaxBlocks(p);
    PathOfIsLeaf(p, blk);
    OneBlockGaps(fs.disk, p, n.block, blk);
    GapsCounted(fs.disk, p, n.block, [12, 0]);
    TwoMissing(fs.disk, p, n.block);
  }

  lemma OneBlockGaps(d: seq<Buf>, p: nat, s: Slots, m: nat)
    requires p > 0 && DiskShape(d, 4 * p)
    ensures Gaps(d, p, s, m, m + 1) == GapsTo(d, p, s, PathOf(p, m))
  {
    hide PathOf, Gap, DiskShape;
    var all, one := Gaps(d, p, s, m, m + 1), GapsTo(d, p, s, PathOf(p, m));
    forall q | q in one ensures q in all {
      var j :| 1 <= j <= |PathOf(p, m)| && Gap(d, p, s, PathOf(p, m)[..j]) && q == PathOf(p, m)[..j];
    }
  }

  lemma TwoMissing(d: seq<Buf>, p: nat, s: Slots)
    requires p > 0 && DiskShape(d, 4 * p) && s[12] == 0
    ensures IsPath(p, [12, 0]) && Missing(d, p, s, [12, 0]) == 2
  {
    assert Parent([12, 0]) == [12];
  }
}
