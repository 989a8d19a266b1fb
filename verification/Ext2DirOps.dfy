/** Directories over the block map: lookup_in_dir, add_entry, remove_entry
    (fs/src/ext2/dir.rs:88-115, 160-275). */
module Ext2DirOps {
  import opened Arith
  import opened Bytes
  import opened Ext2Layout
  import opened Ext2Alloc
  import opened Ext2Inode
  import opened Ext2BlockMap
  import opened Ext2File
  import opened Ext2Dir

  // ---------------------------------------------------------------- the directory's blocks

  /** Number of blocks a directory of this size has. */
  function DirBlocks(fs: Fs, n: Inode): (r: nat)
    requires Volume(fs)
    ensures r < MaxBlocks(fs.sb.Ptrs())
  {
    VolumeBig(fs);
    BlockSizes(fs);
    SizeFits(fs.sb.Ptrs(), n.size as int, fs.sb.BlockSize());
    CeilDiv(n.size as int, fs.sb.BlockSize())
  }

  lemma SizeFits(p: nat, size: nat, bsz: nat)
    requires p > 0 && bsz == 4 * p <= 0x8000 && size < 0x1_0000_0000 && MaxBytes(p) >= 0x2_0000_0000
    ensures CeilDiv(size, bsz) < MaxBlocks(p)
  {
    hide Mul, Div, Mod;
    CeilCovers(size, bsz);
    if CeilDiv(size, bsz) >= MaxBlocks(p) { MulMono(MaxBlocks(p), CeilDiv(size, bsz), bsz); }
  }

  /** Contents of logical block `m`, zeros if it is not mapped. */
  function BlockAt(disk: seq<Buf>, p: nat, s: Slots, m: nat): (r: Buf)
    requires p > 0 && DiskShape(disk, 4 * p) && m < MaxBlocks(p)
    ensures |r| == 4 * p
  {
    match GetBlock(disk, p, s, m)
    case None => Zeros(4 * p)
    case Some(b) => ReadBlk(disk, 4 * p, b as int)
  }

  /** Blocks `m..nb` are mapped and tiled by records. */
  ghost predicate DirData(disk: seq<Buf>, p: nat, s: Slots, m: nat, nb: nat)
    requires p > 0 && DiskShape(disk, 4 * p) && nb <= MaxBlocks(p)
  {
    forall j :: m <= j < nb ==> GetBlock(disk, p, s, j).Some? && Tiled(BlockAt(disk, p, s, j), 0)
  }

  ghost function EntriesFrom(disk: seq<Buf>, p: nat, s: Slots, m: nat, nb: nat): seq<Entry>
    requires p > 0 && DiskShape(disk, 4 * p) && m <= nb <= MaxBlocks(p) && DirData(disk, p, s, m, nb)
    decreases nb - m
  {
    if m == nb then [] else Entries(BlockAt(disk, p, s, m), 0) + EntriesFrom(disk, p, s, m + 1, nb)
  }

  // ---------------------------------------------------------------- the code

  /** lookup_in_dir from block `m` on: an unmapped block ends the search. */
  function LookupFrom(fs: Fs, n: Inode, name: Buf, m: nat): Option<u32>
    requires Volume(fs) && m <= DirBlocks(fs, n)
    decreases DirBlocks(fs, n) - m
  {
    if m == DirBlocks(fs, n) then None
    else if GetBlock(fs.disk, fs.sb.Ptrs(), n.block, m).None? then None
    else
      match FindInBlock(BlockAt(fs.disk, fs.sb.Ptrs(), n.block, m), 0, name)
      case Some(i) => Some(i)
      case None => LookupFrom(fs, n, name, m + 1)
  }

  /** add_entry's scan for slack from block `m` on: unmapped blocks are skipped. */
  function AddScan(fs: Fs, n: Inode, name: Buf, child: u32, ft: u8, m: nat): (r: Option<Fs>)
    requires Volume(fs) && m <= DirBlocks(fs, n) && |name| < 0x100
    ensures r.Some? ==> Volume(r.value) && r.value.sb == fs.sb && r.value.bgdt == fs.bgdt
    decreases DirBlocks(fs, n) - m
  {
    if m == DirBlocks(fs, n) then None
    else
      match GetBlock(fs.disk, fs.sb.Ptrs(), n.block, m)
      case None => AddScan(fs, n, name, child, ft, m + 1)
      case Some(b) =>
        match AddInBlock(ReadBlk(fs.disk, fs.sb.BlockSize(), b as int), 0, name, child, ft)
        case Some(data) => Some(PutBlk(fs, b as int, data))
        case None => AddScan(fs, n, name, child, ft, m + 1)
  }

  /** The block add_entry appends when no block has slack. */
  function NewDirBlock(bsz: nat, name: Buf, child: u32, ft: u8): (r: Buf)
    requires |name| < 0x100 && 2048 <= bsz < 0x1_0000
    ensures |r| == bsz
  {
    PutEntry(Zeros(bsz), 0, child, bsz, ft, name)
  }

  /** Inode::write; a number outside the tables, on which the driver would panic, writes nothing here. */
  function StoreInode(fs: Fs, n: Inode): (r: Fs)
    requires Volume(fs)
    ensures Volume(r) && SameGeometry(fs.sb, r.sb)
  {
    if IsIno(fs.sb, n.ino as int) then WriteInode(fs, n) else fs
  }

  /** add_entry: without slack and without a free block the entry is silently not added. */
  function AddEntry(fs: Fs, n: Inode, name: Buf, child: u32, ft: u8): (r: Fs)
    requires Volume(fs) && |name| < 0x100
    ensures Volume(r) && SameGeometry(fs.sb, r.sb)
  {
    match AddScan(fs, n, name, child, ft, 0)
    case Some(r) => r
    case None => AddBlock(fs, n, name, child, ft)
  }

  function AddBlock(fs: Fs, n: Inode, name: Buf, child: u32, ft: u8): (r: Fs)
    requires Volume(fs) && |name| < 0x100
    ensures Volume(r) && SameGeometry(fs.sb, r.sb)
  {
    hide Superblock.Valid, AllocMapped, StoreInode, DirBlocks, MaxBlocks, DiskShape;
    BlockSizes(fs);
    match AllocMapped(fs, n, DirBlocks(fs, n), NewDirBlock(fs.sb.BlockSize(), name, child, ft))
    case None => fs
    case Some((fs1, n1, _)) =>
      StoreInode(fs1, n1.(size := (n1.size as int + fs.sb.BlockSize()) % 0x1_0000_0000))
  }

  /** remove_entry from block `m` on: unmapped blocks are skipped. */
  function RemoveScan(fs: Fs, n: Inode, name: Buf, m: nat): (r: Option<Fs>)
    requires Volume(fs) && m <= DirBlocks(fs, n)
    ensures r.Some? ==> Volume(r.value) && r.value.sb == fs.sb && r.value.bgdt == fs.bgdt
    decreases DirBlocks(fs, n) - m
  {
    if m == DirBlocks(fs, n) then None
    else
      match GetBlock(fs.disk, fs.sb.Ptrs(), n.block, m)
      case None => RemoveScan(fs, n, name, m + 1)
      case Some(b) =>
        match RemoveInBlock(ReadBlk(fs.disk, fs.sb.BlockSize(), b as int), 0, None, name)
        case Some(data) => Some(PutBlk(fs, b as int, data))
        case None => RemoveScan(fs, n, name, m + 1)
  }

  // ---------------------------------------------------------------- lookup

  lemma {:induction false} LookupFromSpec(fs: Fs, n: Inode, name: Buf, m: nat)
    requires Volume(fs) && m <= DirBlocks(fs, n)
    requires DirData(fs.disk, fs.sb.Ptrs(), n.block, m, DirBlocks(fs, n))
    ensures LookupFrom(fs, n, name, m) ==
              (match Find(EntriesFrom(fs.disk, fs.sb.Ptrs(), n.block, m, DirBlocks(fs, n)),
                  name) case None => None case Some(l) => Some(l.ino))
    decreases DirBlocks(fs, n) - m
  {
    hide Superblock.Valid, GetBlock, BlockAt, FindInBlock, Mul, Div, Mod, DirBlocks, Find, Entries;
    var p, nb := fs.sb.Ptrs(), DirBlocks(fs, n);
    if m < nb {
      var b := BlockAt(fs.disk, p, n.block, m);
      FindInBlockSpec(b, 0, name);
      LookupFromSpec(fs, n, name, m + 1);
      FindAppend(Entries(b, 0), EntriesFrom(fs.disk, p, n.block, m + 1, nb), name);
    } else {
      FindEmpty(name);
    }
  }

  lemma FindEmpty(name: Buf)
    ensures Find([], name) == None
  {
  }

  // ---------------------------------------------------------------- rewriting one block of a directory

  /** Rewriting the data block of logical block `m` changes that block's contents only. */
  lemma BlockWrite(fs: Fs, own: Ownership, n: Inode, m: nat, data: Buf)
    requires Volume(fs) && Core(fs, own) && m < MaxBlocks(fs.sb.Ptrs()) && |data| == fs.sb.BlockSize()
    requires TreeOk(fs.disk, fs.sb.Ptrs(), own, n.ino as int, n.block)
    requires GetBlock(fs.disk, fs.sb.Ptrs(), n.block, m).Some?
    ensures var r := PutBlk(fs, GetBlock(fs.disk, fs.sb.Ptrs(), n.block, m).value as int, data);
            var p, ino := fs.sb.Ptrs(), n.ino as int;
            && Core(r, own) && TreeOk(r.disk, p, own, ino, n.block) && Grew(fs, r, own, own, ino)
            && (forall j :: 0 <= j < MaxBlocks(p) ==>
               GetBlock(r.disk, p, n.block, j) == GetBlock(fs.disk, p, n.block, j))
            && (forall j :: 0 <= j < MaxBlocks(p) ==>
                  BlockAt(r.disk, p, n.block, j) == if j == m then data else BlockAt(fs.disk, p, n.block, j))
            && (forall k, i: nat :: Used(r, k, i) == Used(fs, k, i))
            && (forall b :: 0 <= b < |fs.disk| && b in own && own[b].OwnTable? ==> r.disk[b] == fs.disk[b])
  {
    hide Counted, Padded, Synced, OwnUsed, Superblock.Valid, Used, TreeOk, GetBlock, Mul, Div, Mod, PathOf;
    var p, ino := fs.sb.Ptrs(), n.ino as int;
    GetBlockOwned(fs.disk, p, own, ino, n.block, m);
    var b := GetBlock(fs.disk, p, n.block, m).value as int;
    var r := PutBlk(fs, b, data);
    CoreFrame(fs, own, r.disk);
    LeafWriteTree(fs.disk, r.disk, p, own, ino, n.block, b);
    forall j | 0 <= j < MaxBlocks(p)
      ensures BlockAt(r.disk, p, n.block, j) == if j == m then data else BlockAt(fs.disk, p, n.block, j)
    {
      if j != m && GetBlock(fs.disk, p, n.block, j).Some? {
        GetBlockOwned(fs.disk, p, own, ino, n.block, j);
        if PathOf(p, j) == PathOf(p, m) { PathOfInjective(p, j, m); }
      }
    }
  }

  lemma {:induction false} EntriesSame(d: seq<Buf>, s: Slots, r: seq<Buf>, t: Slots, p: nat, m: nat, nb: nat)
    requires p > 0 && DiskShape(d, 4 * p) && DiskShape(r, 4 * p) && m <= nb <= MaxBlocks(p) && DirData(d, p, s, m, nb)
    requires forall j :: m <= j < nb ==>
               GetBlock(r, p, t, j).Some? && BlockAt(r, p, t, j) == BlockAt(d, p, s, j)
    ensures DirData(r, p, t, m, nb) && EntriesFrom(r, p, t, m, nb) == EntriesFrom(d, p, s, m, nb)
    decreases nb - m
  {
    hide GetBlock, BlockAt, Entries, Tiled, Mul;
    if m < nb { EntriesSame(d, s, r, t, p, m + 1, nb); }
  }

  /** An entry list with one block's part replaced. */
  lemma {:induction false} EntriesReplaced(d: seq<Buf>, r: seq<Buf>, p: nat, s: Slots, k: nat, m: nat, nb: nat)
      returns (a: seq<Entry>, c: seq<Entry>)
    requires p > 0 && DiskShape(d, 4 * p) && DiskShape(r, 4 * p) && k <= m < nb <= MaxBlocks(p)
             && DirData(d, p, s, k, nb)
    requires forall j :: k <= j < nb && j != m ==>
             GetBlock(r, p, s, j).Some? && BlockAt(r, p, s, j) == BlockAt(d, p, s, j)
    requires GetBlock(r, p, s, m).Some? && Tiled(BlockAt(r, p, s, m), 0)
    ensures DirData(r, p, s, k, nb)
    ensures EntriesFrom(d, p, s, k, nb) == a + Entries(BlockAt(d, p, s, m), 0) + c
    ensures EntriesFrom(r, p, s, k, nb) == a + Entries(BlockAt(r, p, s, m), 0) + c
    ensures k == m ==> a == []
    decreases nb - k
  {
    hide GetBlock, BlockAt, Entries, Tiled, Mul;
    if k == m {
      EntriesSame(d, s, r, s, p, m + 1, nb);
      a, c := [], EntriesFrom(d, p, s, m + 1, nb);
      assert a + Entries(BlockAt(d, p, s, m), 0) == Entries(BlockAt(d, p, s, m), 0);
      assert a + Entries(BlockAt(r, p, s, m), 0) == Entries(BlockAt(r, p, s, m), 0);
    } else {
      var a1, c1 := EntriesReplaced(d, r, p, s, k + 1, m, nb);
      var x := Entries(BlockAt(d, p, s, k), 0);
      a, c := x + a1, c1;
      assert x + (a1 + Entries(BlockAt(d, p, s, m), 0) + c1) == a + Entries(BlockAt(d, p, s, m), 0) + c;
      assert x + (a1 + Entries(BlockAt(r, p, s, m), 0) + c1) == a + Entries(BlockAt(r, p, s, m), 0) + c;
    }
  }

  // ---------------------------------------------------------------- directories as name maps

  /** Inode `ino` is a directory whose blocks are tiled by records and whose names are `names`. */
  ghost predicate DirOk(fs: Fs, own: Ownership, ino: nat, names: map<Buf, Link>)
    requires Volume(fs) && IsIno(fs.sb, ino)
  {
    var n := ReadInode(fs, ino);
    var p, nb := fs.sb.Ptrs(), DirBlocks(fs, n);
    && IsDir(n) && n.size as int == Mul(nb, 4 * p) && n.blocks as int == Mul(nb, fs.sb.SectorsPerBlock())
    && TreeOk(fs.disk, p, own, ino, n.block)
    && MappedTo(fs.disk, p, n.block, nb)
    && DirData(fs.disk, p, n.block, 0, nb)
    && Represents(EntriesFrom(fs.disk, p, n.block, 0, nb), names)
  }

  /** lookup_in_dir finds exactly the names of the directory. */
  lemma LookupSpec(fs: Fs, own: Ownership, ino: nat, names: map<Buf, Link>, name: Buf)
    requires Volume(fs) && IsIno(fs.sb, ino) && DirOk(fs, own, ino, names)
    ensures name in names ==> LookupFrom(fs, ReadInode(fs, ino), name, 0) == Some(names[name].ino)
    ensures name !in names ==> LookupFrom(fs, ReadInode(fs, ino), name, 0) == None
  {
    hide Superblock.Valid, TreeOk, MappedTo, ReadInode, LookupFrom, IsIno, Mul, Div, Mod, DirData, Find, Distinct,
         DirBlocks;
    LookupFromSpec(fs, ReadInode(fs, ino), name, 0);
  }

  lemma GrewOthers(fs: Fs, r: Fs, own: Ownership, own2: Ownership, ino: nat)
    requires Core(fs, own) && Core(r, own2) && Grew(fs, r, own, own2, ino)
    ensures OthersKept(fs, r, own, own2, ino)
    ensures forall j :: IsIno(fs.sb, j) && IsIno(r.sb, j) ==> ReadInode(r, j) == ReadInode(fs, j)
  {
    hide Padded, Counted, Synced, Superblock.Valid, ReadInode, BitUsed, GroupOf, BitOfItem;
    forall j | IsIno(fs.sb, j) && IsIno(r.sb, j) ensures ReadInode(r, j) == ReadInode(fs, j) {
      GrewKeepsInode(fs, r, own, own2, ino, j);
    }
    forall b | b in own && b < |fs.disk| && own[b].OwnPtr? && own[b].ino != ino ensures r.disk[b] == fs.disk[b] {
      assert Used(fs, Blocks, b);
    }
  }

  /** Rewriting block `m` of a directory to other records. */
  lemma DirBlockWrite(fs: Fs, own: Ownership, ino: nat, names: map<Buf, Link>, m: nat, data: Buf)
      returns (a: seq<Entry>, c: seq<Entry>)
    requires Volume(fs) && IsIno(fs.sb, ino) && Core(fs, own) && DirOk(fs, own, ino, names)
    requires m < DirBlocks(fs, ReadInode(fs, ino)) && |data| == fs.sb.BlockSize() && Tiled(data, 0)
    ensures var n, p := ReadInode(fs, ino), fs.sb.Ptrs();
            && GetBlock(fs.disk, p, n.block, m).Some? && Tiled(BlockAt(fs.disk, p, n.block, m), 0)
            && var r := PutBlk(fs, GetBlock(fs.disk, p, n.block, m).value as int, data);
            && Volume(r) && Core(r, own) && OthersKept(fs, r, own, own, ino) && ReadInode(r, ino) == n
            && (forall k, i: nat :: Used(r, k, i) == Used(fs, k, i))
            && EntriesFrom(fs.disk, p, n.block, 0, DirBlocks(fs, n)) == a + Entries(BlockAt(fs.disk, p, n.block, m), 0)
               + c
            && forall names2 :: Represents(a + Entries(data, 0) + c, names2) ==> DirOk(r, own, ino, names2)
  {
    hide Counted, Padded, Synced, OwnUsed, Layout, Superblock.Valid, TreeOk, ReadInode, IsIno, GetBlock, BlockAt, Mul,
         Div, Mod, Represents, Grew, Used, DirBlocks, OthersKept, Entries, Tiled;
    var n, p := ReadInode(fs, ino), fs.sb.Ptrs();
    var nb := DirBlocks(fs, n);
    var r := PutBlk(fs, GetBlock(fs.disk, p, n.block, m).value as int, data);
    BlockWrite(fs, own, n, m, data);
    GrewOthers(fs, r, own, own, ino);
    a, c := EntriesReplaced(fs.disk, r.disk, p, n.block, 0, m, nb);
    assert DirBlocks(r, n) == nb by { SameDirBlocks(fs, r, n); }
  }

  lemma SameDirBlocks(fs: Fs, r: Fs, n: Inode)
    requires Volume(fs) && Volume(r) && r.sb.BlockSize() == fs.sb.BlockSize()
    ensures DirBlocks(r, n) == DirBlocks(fs, n)
  {
  }

  // ---------------------------------------------------------------- add_entry

  lemma {:induction false} AddScanPlace(fs: Fs, n: Inode, name: Buf, child: u32, ft: u8, k: nat) returns (m: nat)
    requires Volume(fs) && k <= DirBlocks(fs, n) && |name| < 0x100
    requires DirData(fs.disk, fs.sb.Ptrs(), n.block, k, DirBlocks(fs, n)) && fs.sb.BlockSize() < 0x1_0000
    requires AddScan(fs, n, name, child, ft, k).Some?
    ensures k <= m < DirBlocks(fs, n)
    ensures var b := BlockAt(fs.disk, fs.sb.Ptrs(), n.block, m);
            && GetBlock(fs.disk, fs.sb.Ptrs(), n.block, m).Some? && Tiled(b, 0)
               && AddInBlock(b, 0, name, child, ft).Some?
            && AddScan(fs, n, name, child, ft, k) ==
                 Some(PutBlk(fs, GetBlock(fs.disk, fs.sb.Ptrs(), n.block, m).value as int,
                     AddInBlock(b, 0, name, child, ft).value))
    decreases DirBlocks(fs, n) - k
  {
    hide Superblock.Valid, GetBlock, AddInBlock, Mul, Div, Mod, DirBlocks, Tiled;
    if AddInBlock(BlockAt(fs.disk, fs.sb.Ptrs(), n.block, k), 0, name, child, ft).Some? {
      m := k;
    } else {
      m := AddScanPlace(fs, n, name, child, ft, k + 1);
    }
  }

  /** What a directory operation on `ino` promises. */
  ghost predicate DirSpec(fs: Fs, own: Ownership, ino: nat, r: Fs, own2: Ownership, names: map<Buf, Link>)
    requires Volume(fs)
  {
    && Volume(r) && SameGeometry(fs.sb, r.sb) && IsIno(fs.sb, ino) && IsIno(r.sb, ino) && Core(r, own2)
    && AttrsOf(ReadInode(r, ino)) == AttrsOf(ReadInode(fs, ino))
    && OthersKept(fs, r, own, own2, ino) && DirOk(r, own2, ino, names)
    && (forall i: nat :: InRange(Inodes, fs.sb, i) ==> Used(r, Inodes, i) == Used(fs, Inodes, i))
  }

  lemma AddExisting(fs: Fs, own: Ownership, ino: nat, names: map<Buf, Link>, name: Buf, child: u32, ft: u8)
    requires Volume(fs) && IsIno(fs.sb, ino) && Core(fs, own) && DirOk(fs, own, ino, names)
    requires 1 <= |name| < 0x100 && child != 0 && name !in names && fs.sb.BlockSize() < 0x1_0000
    requires AddScan(fs, ReadInode(fs, ino), name, child, ft, 0).Some?
    ensures DirSpec(fs, own, ino, AddScan(fs, ReadInode(fs, ino), name, child, ft, 0).value, own,
            names[name := Link(child as int, ft)])
  {
    hide Core, Superblock.Valid, TreeOk, ReadInode, IsIno, GetBlock, BlockAt, Mul, Div, Mod, Represents, Used,
         AddScan, AddInBlock, DirBlocks, OthersKept, Entries, Tiled, MappedTo, DirData;
    var n, p := ReadInode(fs, ino), fs.sb.Ptrs();
    var m := AddScanPlace(fs, n, name, child, ft, 0);
    var b := BlockAt(fs.disk, p, n.block, m);
    AddInBlockSpec(b, 0, name, child, ft);
    var a, c := DirBlockWrite(fs, own, ino, names, m, AddInBlock(b, 0, name, child, ft).value);
    var e, x := Entry(name, Link(child as int, ft)), Entries(b, 0);
    assert a + (x + [e]) + c == (a + x) + [e] + c;
    RepresentsInsert(a + x, c, e, names);
  }

  lemma {:induction false} EntriesExtend(disk: seq<Buf>, p: nat, s: Slots, m: nat, nb: nat)
    requires p > 0 && DiskShape(disk, 4 * p) && m <= nb && nb + 1 <= MaxBlocks(p) && DirData(disk, p, s, m, nb + 1)
    ensures DirData(disk, p, s, m, nb)
    ensures EntriesFrom(disk, p, s, m, nb + 1) == EntriesFrom(disk, p, s, m, nb) + Entries(BlockAt(disk, p, s, nb), 0)
    decreases nb - m
  {
    hide GetBlock, BlockAt, Entries, Tiled, Mul;
    var x := Entries(BlockAt(disk, p, s, m), 0);
    assert EntriesFrom(disk, p, s, m, nb + 1) == x + EntriesFrom(disk, p, s, m + 1, nb + 1);
    if m < nb {
      EntriesExtend(disk, p, s, m + 1, nb);
      var y, z := EntriesFrom(disk, p, s, m + 1, nb), Entries(BlockAt(disk, p, s, nb), 0);
      assert x + (y + z) == (x + y) + z;
    } else {
      var none: seq<Entry> := [];
      assert x + none == none + x;
    }
  }

  /** The directory after a new block was appended to it. */
  lemma AddAppended(fs: Fs, own: Ownership, ino: nat, names: map<Buf, Link>, name: Buf, child: u32, ft: u8,
                    n: Inode, nb: nat, fs1: Fs, n1: Inode, b: u32, own2: Ownership, n2: Inode, r: Fs)
    requires Volume(fs) && Volume(fs1) && SameGeometry(fs.sb, fs1.sb) && IsIno(fs.sb, ino) && IsIno(fs1.sb, ino)
    requires 1 <= |name| < 0x100 && child != 0 && name !in names && 2048 <= fs.sb.BlockSize() < 0x1_0000
             && fs.sb.BlockSize() % 4 == 0
    requires n == ReadInode(fs, ino) && nb == DirBlocks(fs, n) && Mul(nb + 1, 4 * fs.sb.Ptrs()) < 0x1_0000_0000
    requires n1 == n.(block := n1.block, blocks := n1.blocks) && n1.size as int + fs.sb.BlockSize() < 0x1_0000_0000
    requires n2 == n1.(size := n1.size as int + fs.sb.BlockSize()) && n2.ino as int == ino && r == WriteInode(fs1, n2)
    requires b as int < |fs1.disk| && fs1.disk[b] == NewDirBlock(fs.sb.BlockSize(), name, child, ft)
    requires Core(fs, own) && DirOk(fs, own, ino, names)
    requires StepSpec(fs, own, n, nb, fs1, n1, b, own2) && Charges(fs, n, nb, n1)
    ensures DirSpec(fs, own, ino, r, own2, names[name := Link(child as int, ft)])
  {
    hide Counted, Padded, Synced, OwnUsed, Layout, Superblock.Valid, TreeOk, ReadInode, WriteInode, IsIno, GetBlock,
         Mul, Div, Mod, Represents, Grew, Used, NewDirBlock, OthersKept, Entries, Tiled, LeavesKept, CeilDiv,
         DirBlocks, MaxBlocks;
    var p := fs.sb.Ptrs();
    MulAdd(nb, 1, 4 * p);
    MulOne(4 * p);
    FinishInode(fs, fs1, own, own2, n2);
    AppendedEntries(fs, own, n, nb, fs1, n1, b, own2, name, child, ft);
    InoFrame(fs1.disk, r.disk, p, own2, own2, ino, n1.block);
    EntriesSame(fs1.disk, n1.block, r.disk, n1.block, p, 0, nb + 1);
    DirBlocksOf(r, n2, nb + 1);
    var e := Entry(name, Link(child as int, ft));
    var es := EntriesFrom(fs.disk, p, n.block, 0, nb);
    assert es + [] == es && es + [e] + [] == es + [e];
    RepresentsInsert(es, [], e, names);
    VolumeFacts(r);
    MappedMore(fs, own, n, nb, fs1, n1, b, own2);
    DirCharged(fs, n, nb, n1);
  }

  lemma DirCharged(fs: Fs, n: Inode, nb: nat, n1: Inode)
    requires Volume(fs) && nb < MaxBlocks(fs.sb.Ptrs()) && MappedTo(fs.disk, fs.sb.Ptrs(), n.block, nb)
    requires Mul(nb + 1, 4 * fs.sb.Ptrs()) < 0x1_0000_0000 && Charges(fs, n, nb, n1)
    requires n.blocks as int == Mul(nb, fs.sb.SectorsPerBlock())
    ensures n1.blocks as int == Mul(nb + 1, fs.sb.SectorsPerBlock())
  {
    hide Superblock.Valid, GetBlock, Mul;
    ChargedMore(fs.sb, n.blocks, nb);
    ChargeFits(fs.sb, nb + 1);
  }

  lemma GrownSize(fs: Fs, n: Inode, nb: nat)
    requires Volume(fs) && n.size as int == Mul(nb, 4 * fs.sb.Ptrs())
    ensures Mul(nb + 1, 4 * fs.sb.Ptrs()) == n.size as int + fs.sb.BlockSize()
  {
    hide Mul;
    MulAdd(nb, 1, 4 * fs.sb.Ptrs());
    MulOne(4 * fs.sb.Ptrs());
  }

  lemma DirBlocksOf(fs: Fs, n: Inode, nb: nat)
    requires Volume(fs) && n.size as int == Mul(nb, fs.sb.BlockSize())
    ensures DirBlocks(fs, n) == nb
  {
    CeilOf(n.size as int, fs.sb.BlockSize(), nb);
  }

  lemma MappedMore(fs: Fs, own: Ownership, n: Inode, nb: nat, fs1: Fs, n1: Inode, b: u32, own2: Ownership)
    requires Volume(fs) && nb < MaxBlocks(fs.sb.Ptrs()) && StepSpec(fs, own, n, nb, fs1, n1, b, own2)
    requires MappedTo(fs.disk, fs.sb.Ptrs(), n.block, nb)
    ensures DiskShape(fs1.disk, 4 * fs.sb.Ptrs()) && MappedTo(fs1.disk, fs.sb.Ptrs(), n1.block, nb + 1)
  {
    hide Superblock.Valid, TreeOk, GetBlock, Grew, LeavesKept, Mul, Counted, Padded, Synced, OwnUsed, Layout;
  }

  lemma AppendedEntries(fs: Fs, own: Ownership, n: Inode, nb: nat, fs1: Fs, n1: Inode, b: u32, own2: Ownership,
      name: Buf, child: u32, ft: u8)
    requires Volume(fs) && nb < MaxBlocks(fs.sb.Ptrs()) && StepSpec(fs, own, n, nb, fs1, n1, b, own2)
    requires TreeOk(fs.disk, fs.sb.Ptrs(), own, n.ino as int, n.block) && DirData(fs.disk, fs.sb.Ptrs(), n.block, 0, nb)
    requires 1 <= |name| < 0x100 && child != 0 && 2048 <= fs.sb.BlockSize() < 0x1_0000 && fs.sb.BlockSize() % 4 == 0
    requires b as int < |fs1.disk| && fs1.disk[b] == NewDirBlock(fs.sb.BlockSize(), name, child, ft)
    ensures DiskShape(fs1.disk, 4 * fs.sb.Ptrs()) && DirData(fs1.disk, fs.sb.Ptrs(), n1.block, 0, nb + 1)
    ensures EntriesFrom(fs1.disk, fs.sb.Ptrs(), n1.block, 0, nb + 1) ==
              EntriesFrom(fs.disk, fs.sb.Ptrs(), n.block, 0, nb) + [Entry(name, Link(child as int, ft))]
  {
    hide Counted, Padded, Synced, OwnUsed, Layout, Superblock.Valid, TreeOk, GetBlock, Grew, Mul, Div, Mod, Used,
         Entries, Tiled, PathOf;
    var p := fs.sb.Ptrs();
    FreshBlockEntries(fs.sb.BlockSize(), name, child, ft);
    forall j | 0 <= j < nb
      ensures GetBlock(fs1.disk, p, n1.block, j).Some?
              && BlockAt(fs1.disk, p, n1.block, j) == BlockAt(fs.disk, p, n.block, j)
    {
      GetBlockOwned(fs.disk, p, own, n.ino as int, n.block, j);
    }
    EntriesSame(fs.disk, n.block, fs1.disk, n1.block, p, 0, nb);
    EntriesExtend(fs1.disk, p, n1.block, 0, nb);
  }

  /** add_entry can place the entry: some block has slack, or a block and its index blocks are free. */
  ghost predicate AddRoom(fs: Fs, n: Inode, name: Buf, child: u32, ft: u8)
    requires Volume(fs) && |name| < 0x100
  {
    AddScan(fs, n, name, child, ft, 0).Some? || (fs.sb.freeBlocks > 0 && StepRoom(fs, n, DirBlocks(fs, n)))
  }

  /** add_entry of an absent name adds exactly that name; with no slack and no free block it
      changes nothing, and reports nothing. */
  lemma AddEntrySpec(fs: Fs, own: Ownership, ino: nat, names: map<Buf, Link>, name: Buf, child: u32, ft: u8)
      returns (own2: Ownership)
    requires Volume(fs) && IsIno(fs.sb, ino) && Core(fs, own) && DirOk(fs, own, ino, names)
    requires 1 <= |name| < 0x100 && child != 0 && name !in names && 2048 <= fs.sb.BlockSize() < 0x1_0000
             && fs.sb.BlockSize() % 4 == 0
    requires Mul(DirBlocks(fs, ReadInode(fs, ino)) + 1, 4 * fs.sb.Ptrs()) < 0x1_0000_0000
    ensures var n := ReadInode(fs, ino);
            var r := AddEntry(fs, n, name, child, ft);
            && (AddRoom(fs, n, name, child, ft) ==>
               DirSpec(fs, own, ino, r, own2, names[name := Link(child as int, ft)]))
            && (AddScan(fs, n, name, child, ft, 0).None? && fs.sb.freeBlocks == 0 ==> r == fs)
  {
    hide Core, Superblock.Valid, TreeOk, ReadInode, WriteInode, IsIno, GetBlock, BlockAt, Mul, Div, Mod, Represents,
         Used, AddScan, AllocMapped, DirBlocks, OthersKept, MappedTo, DirData, StepSpec, DirSpec, NewDirBlock,
         StepRoom;
    var n := ReadInode(fs, ino);
    var nb := DirBlocks(fs, n);
    own2 := own;
    if AddScan(fs, n, name, child, ft, 0).Some? {
      AddExisting(fs, own, ino, names, name, child, ft);
    } else {
      BeyondDir(fs, n, nb);
      var data := NewDirBlock(fs.sb.BlockSize(), name, child, ft);
      if StepRoom(fs, n, nb) {
        own2 := AllocMappedSpec(fs, own, n, nb, data);
        match AllocMapped(fs, n, nb, data) {
          case None =>
          case Some((fs1, n1, b)) =>
            DerivedKept(fs.sb, fs1.sb);
            SameIno(fs.sb, fs1.sb, ino);
            GrownSize(fs, n, nb);
            var n2 := n1.(size := n1.size as int + fs.sb.BlockSize());
            AddAppended(fs, own, ino, names, name, child, ft, n, nb, fs1, n1, b, own2, n2, WriteInode(fs1, n2));
        }
      } else if fs.sb.freeBlocks == 0 {
        NoBlock(fs, own, n, nb, data);
      }
    }
  }

  lemma BeyondDir(fs: Fs, n: Inode, nb: nat)
    requires Volume(fs) && nb < MaxBlocks(fs.sb.Ptrs()) && MappedTo(fs.disk, fs.sb.Ptrs(), n.block, nb)
    ensures GetBlock(fs.disk, fs.sb.Ptrs(), n.block, nb).None?
  {
    hide GetBlock, Superblock.Valid;
  }

  lemma NoBlock(fs: Fs, own: Ownership, n: Inode, blk: nat, data: Buf)
    requires Volume(fs) && Core(fs, own) && blk < MaxBlocks(fs.sb.Ptrs()) && |data| == fs.sb.BlockSize()
             && fs.sb.freeBlocks == 0
    ensures AllocMapped(fs, n, blk, data).None?
  {
    hide Counted, Padded, Synced, OwnUsed, Layout, Superblock.Valid, Alloc, Moved;
    AllocSpec(Blocks, fs, own);
  }

  // ---------------------------------------------------------------- remove_entry

  lemma {:induction false} RemoveScanPlace(fs: Fs, n: Inode, name: Buf, k: nat) returns (m: nat)
    requires Volume(fs) && k <= DirBlocks(fs, n) && fs.sb.BlockSize() < 0x1_0000
    requires DirData(fs.disk, fs.sb.Ptrs(), n.block, k, DirBlocks(fs, n))
    ensures RemoveScan(fs, n, name, k).None? <==>
            Find(EntriesFrom(fs.disk, fs.sb.Ptrs(), n.block, k, DirBlocks(fs, n)), name).None?
    ensures RemoveScan(fs, n, name, k).Some? ==>
              && k <= m < DirBlocks(fs, n)
              && var b := BlockAt(fs.disk, fs.sb.Ptrs(), n.block, m);
              && GetBlock(fs.disk, fs.sb.Ptrs(), n.block, m).Some? && Tiled(b, 0)
                 && RemoveInBlock(b, 0, None, name).Some?
              && RemoveScan(fs, n, name, k) ==
                   Some(PutBlk(fs, GetBlock(fs.disk, fs.sb.Ptrs(), n.block, m).value as int,
                       RemoveInBlock(b, 0, None, name).value))
              && forall j :: k <= j < m ==> Find(Entries(BlockAt(fs.disk, fs.sb.Ptrs(), n.block, j), 0), name).None?
    decreases DirBlocks(fs, n) - k
  {
    hide Superblock.Valid, GetBlock, RemoveInBlock, Mul, Div, Mod, DirBlocks, Tiled, Find, Entries;
    m := k;
    if k < DirBlocks(fs, n) {
      var b := BlockAt(fs.disk, fs.sb.Ptrs(), n.block, k);
      RemoveInBlockSpec(b, name);
      FindAppend(Entries(b, 0), EntriesFrom(fs.disk, fs.sb.Ptrs(), n.block, k + 1, DirBlocks(fs, n)), name);
      if RemoveInBlock(b, 0, None, name).None? {
        m := RemoveScanPlace(fs, n, name, k + 1);
      }
    } else {
      FindEmpty(name);
    }
  }

  /** remove_entry removes exactly the name it is given, and fails exactly on an absent name. */
  lemma RemoveEntrySpec(fs: Fs, own: Ownership, ino: nat, names: map<Buf, Link>, name: Buf)
    requires Volume(fs) && IsIno(fs.sb, ino) && Core(fs, own) && DirOk(fs, own, ino, names)
             && fs.sb.BlockSize() < 0x1_0000
    ensures var r := RemoveScan(fs, ReadInode(fs, ino), name, 0);
            && (r.Some? <==> name in names)
            && (r.Some? ==>
                  && DirSpec(fs, own, ino, r.value, own, names - {name}) && r.value.sb == fs.sb
                     && r.value.bgdt == fs.bgdt
                  && forall k, i: nat :: Used(r.value, k, i) == Used(fs, k, i))
  {
    hide Core, Superblock.Valid, TreeOk, ReadInode, IsIno, GetBlock, BlockAt, Mul, Div, Mod, Distinct, Used,
         RemoveScan, RemoveInBlock, DirBlocks, OthersKept, Entries, Tiled, MappedTo, DirData, Find, Without;
    var n, p := ReadInode(fs, ino), fs.sb.Ptrs();
    var nb := DirBlocks(fs, n);
    var es := EntriesFrom(fs.disk, p, n.block, 0, nb);
    var m := RemoveScanPlace(fs, n, name, 0);
    if RemoveScan(fs, n, name, 0).Some? {
      var b := BlockAt(fs.disk, p, n.block, m);
      RemoveInBlockSpec(b, name);
      var a, c := DirBlockWrite(fs, own, ino, names, m, RemoveInBlock(b, 0, None, name).value);
      var x := Entries(b, 0);
      RepresentsWithout(es, name, names);
      WithoutAppend(a + x, c, name);
      WithoutAppend(a, x, name);
      FindAppend(a, x, name);
      PrefixLacks(es, a, x, c, name);
      assert Without(es, name) == a + Without(x, name) + c;
    }
  }

  /** With distinct names, an entry found in the part `x` is in no part before it. */
  lemma PrefixLacks(es: seq<Entry>, a: seq<Entry>, x: seq<Entry>, c: seq<Entry>, name: Buf)
    requires es == a + x + c && Distinct(es) && Find(x, name).Some?
    ensures Find(a, name).None?
  {
    assert a + x + c == a + (x + c);
    FindAppend(x, c, name);
    PrefixLacksTwo(a, x + c, name);
  }

  lemma {:induction false} PrefixLacksTwo(a: seq<Entry>, y: seq<Entry>, name: Buf)
    requires Distinct(a + y) && Find(y, name).Some?
    ensures Find(a, name).None?
  {
    if a != [] {
      assert (a + y)[1..] == a[1..] + y;
      FindAppend(a[1..], y, name);
      PrefixLacksTwo(a[1..], y, name);
    }
  }
}
