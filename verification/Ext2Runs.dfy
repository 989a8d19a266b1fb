/** Whole runs of the ext2 driver: every reachable volume implements its tree of files. */
module Ext2Runs {
  import opened Arith
  import opened Bytes
  import opened Ext2Layout
  import opened Ext2Alloc
  import opened Ext2Inode
  import opened Ext2BlockMap
  import opened Ext2File
  import opened Ext2Space
  import opened Ext2Dir
  import opened Ext2DirOps
  import opened Ext2Fs

  datatype Op =
    | CreateOp(dir: nat, name: Buf)
    | MkdirOp(parent: u32, name: Buf)
    | WriteOp(ino: nat, offset: nat, buf: Buf)
    | UnlinkOp(dir: nat, name: Buf)

  // A call succeeds when the directory exists and lacks (or, to unlink, has) the name, files are
  // written at or before their end, names have 1 to 255 bytes, only regular files are unlinked,
  // and the free blocks cover the index blocks that the call comes to.

  ghost predicate CreateReady(fs: Fs, t: Tree, dir: nat, name: Buf) {
    Volume(fs) && CanAdd(fs, dir, t, name) && fs.sb.freeInodes > 0 && CreateRoom(fs, dir, name)
  }

  ghost predicate MkdirReady(fs: Fs, t: Tree, dir: u32, name: Buf) {
    && Volume(fs) && CanAdd(fs, dir as int, t, name)
    && fs.sb.freeInodes > 0 && fs.sb.freeBlocks > 0 && |name| < 0x100 && MkdirRoom(fs, dir, name)
  }

  ghost predicate WriteReady(fs: Fs, t: Tree, ino: nat, offset: nat, buf: Buf) {
    && Volume(fs) && ino in t && t[ino].File? && offset <= |t[ino].bytes| && IsIno(fs.sb, ino)
    && offset + |buf| < 0x1_0000_0000 && offset + |buf| <= MaxBytes(fs.sb.Ptrs())
    && RoomFor(fs, ino, offset, |buf|)
  }

  ghost predicate UnlinkReady(fs: Fs, t: Tree, dir: nat, name: Buf) {
    && Volume(fs) && dir in t && t[dir].Dir? && name in t[dir].names
    && t[dir].names[name].ino in t && t[t[dir].names[name].ino].File?
  }

  ghost predicate Created(t: Tree, dir: nat, name: Buf, o: Option<nat>, t2: Tree) {
    dir in t && t[dir].Dir? && o.Some? && t2 == Added(t, dir, name, o.value, File([]))
  }

  ghost predicate DirCreated(t: Tree, dir: nat, name: Buf, o: Option<u32>, t2: Tree) {
    dir in t && t[dir].Dir? && o.Some? &&
    t2 == Added(t, dir, name, o.value as int, Dir(DotNames(o.value as int, dir)))
  }

  ghost predicate Overwritten(t: Tree, ino: nat, offset: nat, buf: Buf, done: nat, t2: Tree) {
    ino in t && t[ino].File? && offset <= |t[ino].bytes| && done <= |buf| &&
    t2 == t[ino := t[ino].(bytes := Overwrite(t[ino].bytes, offset, buf[..done]))]
  }

  ghost predicate CreateStep(fs: Fs, t: Tree, dir: nat, name: Buf, r: Fs, t2: Tree) {
    CreateReady(fs, t, dir, name) && r == CreateFile(fs, dir, name).0
        && Created(t, dir, name, CreateFile(fs, dir, name).1, t2)
  }

  ghost predicate MkdirStep(fs: Fs, t: Tree, dir: u32, name: Buf, r: Fs, t2: Tree) {
    MkdirReady(fs, t, dir, name) && r == Mkdir(fs, dir, name).0
        && DirCreated(t, dir as int, name, Mkdir(fs, dir, name).1, t2)
  }

  ghost predicate WriteStep(fs: Fs, t: Tree, ino: nat, offset: nat, buf: Buf, r: Fs, t2: Tree) {
    && WriteReady(fs, t, ino, offset, buf)
    && r == WriteFile(fs, ino, offset, buf).0 && Overwritten(t, ino, offset, buf, WriteFile(fs, ino, offset, buf).1, t2)
  }

  ghost predicate UnlinkStep(fs: Fs, t: Tree, dir: nat, name: Buf, r: Fs, t2: Tree) {
    UnlinkReady(fs, t, dir, name) && r == Unlink(fs, dir, name).0 && t2 == Removed(t, dir, name)
  }

  /** One call: the volume and the tree before and after. */
  ghost predicate Step(fs: Fs, t: Tree, op: Op, r: Fs, t2: Tree) {
    match op
    case CreateOp(dir, name) => CreateStep(fs, t, dir, name, r, t2)
    case MkdirOp(parent, name) => MkdirStep(fs, t, parent, name, r, t2)
    case WriteOp(ino, offset, buf) => WriteStep(fs, t, ino, offset, buf, r, t2)
    case UnlinkOp(dir, name) => UnlinkStep(fs, t, dir, name, r, t2)
  }

  lemma StepImplements(fs: Fs, own: Ownership, t: Tree, op: Op, r: Fs, t2: Tree) returns (own2: Ownership)
    requires Step(fs, t, op, r, t2) && Implements(fs, own, t)
    ensures Implements(r, own2, t2)
  {
    hide Implements, CreateFile, Mkdir, WriteFile, Unlink, CanAdd, CreateRoom, MkdirRoom, RoomFor, Volume, ReadInode,
         MaxBytes, IsIno, Added, Removed, Overwrite;
    match op {
      case CreateOp(dir, name) => own2 := CreateFileSpec(fs, own, t, dir, name);
      case MkdirOp(parent, name) => own2 := MkdirSpec(fs, own, t, parent, name);
      case WriteOp(ino, offset, buf) => own2 := WriteSpecTree(fs, own, t, ino, offset, buf);
      case UnlinkOp(dir, name) => own2 := UnlinkSpec(fs, own, t, dir, name);
    }
  }

  /** A run: the volumes and trees before each call and after the last. */
  ghost predicate IsRun(volumes: seq<Fs>, trees: seq<Tree>, ops: seq<Op>) {
    && |volumes| == |trees| == |ops| + 1
    && forall i :: 0 <= i < |ops| ==> Step(volumes[i], trees[i], ops[i], volumes[i + 1], trees[i + 1])
  }

  /** In every run that starts from a volume implementing a tree, every volume implements its tree. */
  lemma {:induction false} RunImplements(volumes: seq<Fs>, trees: seq<Tree>, ops: seq<Op>, own: Ownership)
      returns (owns: seq<Ownership>)
    requires IsRun(volumes, trees, ops) && Implements(volumes[0], own, trees[0])
    ensures |owns| == |volumes| == |trees| && owns[0] == own
    ensures forall i :: 0 <= i < |volumes| ==> Implements(volumes[i], owns[i], trees[i])
    decreases |ops|
  {
    hide Implements, Step;
    if ops == [] {
      owns := [own];
    } else {
      var k := |ops| - 1;
      assert IsRun(volumes[..k + 1], trees[..k + 1], ops[..k]);
      var front := RunImplements(volumes[..k + 1], trees[..k + 1], ops[..k], own);
      assert volumes[..k + 1][k] == volumes[k] && trees[..k + 1][k] == trees[k];
      assert Step(volumes[k], trees[k], ops[k], volumes[k + 1], trees[k + 1]);
      var last := StepImplements(volumes[k], front[k], trees[k], ops[k], volumes[k + 1], trees[k + 1]);
      owns := front + [last];
      forall i | 0 <= i < |volumes| ensures Implements(volumes[i], owns[i], trees[i]) {
        if i <= k { assert volumes[..k + 1][i] == volumes[i] && trees[..k + 1][i] == trees[i]; }
      }
    }
  }

  // ---------------------------------------------------------------- what implementing a tree means

  /** The pointer of inode `ino` at `path`. */
  ghost function PointerOf(fs: Fs, ino: nat, path: seq<nat>): nat
    requires Volume(fs) && IsIno(fs.sb, ino) && IsPath(fs.sb.Ptrs(), path)
  {
    PtrAt(fs.disk, fs.sb.Ptrs(), ReadInode(fs, ino).block, path) as int
  }

  /** Blocks holding the superblock, descriptors, bitmaps and inode tables. */
  ghost predicate IsMetadata(fs: Fs, b: nat)
    requires Volume(fs)
  {
    || b == 0
    || (exists g :: 0 <= g < |fs.bgdt| && b == DescBlock(fs.sb, g))
    || (exists k, g :: 0 <= g < |fs.bgdt| && b == fs.bgdt[g].Bitmap(k) as int)
    || (exists g, i {:trigger OwnTable(g, i)} ::
        0 <= g < |fs.bgdt| && 0 <= i < TableBlocks(fs.sb) && b == fs.bgdt[g].inodeTable as int + i)
  }

  lemma PointerOwned(fs: Fs, own: Ownership, t: Tree, ino: nat, path: seq<nat>)
    requires Implements(fs, own, t) && ino in t && IsPath(fs.sb.Ptrs(), path) && IsIno(fs.sb, ino)
             && PointerOf(fs, ino, path) != 0
    ensures PointerOf(fs, ino, path) < |fs.disk| && Owns(own, PointerOf(fs, ino, path), OwnPtr(ino, path))
    ensures Used(fs, Blocks, PointerOf(fs, ino, path))
  {
    hide Superblock.Valid, ReadInode, WellNamed, HasBytes, MappedTo, DirData, Represents, PtrAt, Counted, Padded,
         Synced, BitUsed, GroupOf, BitOfItem;
    assert NodeOk(fs, own, ino, t[ino]);
  }

  /** Data and index blocks of the tree's inodes: one owner each, none is metadata, all marked used. */
  lemma BlocksDisjoint(fs: Fs, own: Ownership, t: Tree, i: nat, q: seq<nat>, j: nat, s: seq<nat>)
    requires Implements(fs, own, t) && i in t && j in t && IsIno(fs.sb, i) && IsIno(fs.sb, j)
    requires IsPath(fs.sb.Ptrs(), q) && IsPath(fs.sb.Ptrs(), s) && PointerOf(fs, i, q) != 0
    ensures PointerOf(fs, i, q) == PointerOf(fs, j, s) ==> i == j && q == s
    ensures PointerOf(fs, i, q) < |fs.disk| && Used(fs, Blocks, PointerOf(fs, i, q))
    ensures !IsMetadata(fs, PointerOf(fs, i, q))
  {
    hide Superblock.Valid, ReadInode, WellNamed, NodeOk, PointerOf, Counted, Padded, Synced, Used, Layout, IsMetadata;
    PointerOwned(fs, own, t, i, q);
    if IsMetadata(fs, PointerOf(fs, i, q)) { MetadataOwned(fs, own, PointerOf(fs, i, q)); }
    if PointerOf(fs, i, q) == PointerOf(fs, j, s) { PointerOwned(fs, own, t, j, s); }
  }

  lemma MetadataOwned(fs: Fs, own: Ownership, b: nat)
    requires Volume(fs) && Layout(fs, own) && IsMetadata(fs, b)
    ensures b in own && !own[b].OwnPtr?
  {
    hide Superblock.Valid, TableBlocks, DescBlock;
    if b == 0 {
    } else if g :| 0 <= g < |fs.bgdt| && b == DescBlock(fs.sb, g) {
      assert Owns(own, b, OwnBgdt);
    } else if k, g :| 0 <= g < |fs.bgdt| && b == fs.bgdt[g].Bitmap(k) as int {
      assert Owns(own, b, OwnBitmap(k, g));
    } else {
      var g, i :| 0 <= g < |fs.bgdt| && 0 <= i < TableBlocks(fs.sb) && b == fs.bgdt[g].inodeTable as int + i;
      assert Owns(own, b, OwnTable(g, i));
    }
  }

  /** In every volume of every run. */
  lemma RunBlocksDisjoint(volumes: seq<Fs>, trees: seq<Tree>, ops: seq<Op>, own: Ownership, k: nat, i: nat,
      q: seq<nat>, j: nat, s: seq<nat>)
    requires IsRun(volumes, trees, ops) && k < |volumes| && Implements(volumes[0], own, trees[0])
    requires Volume(volumes[k]) && i in trees[k] && j in trees[k] && IsIno(volumes[k].sb, i) && IsIno(volumes[k].sb, j)
    requires IsPath(volumes[k].sb.Ptrs(), q) && IsPath(volumes[k].sb.Ptrs(), s) && PointerOf(volumes[k], i, q) != 0
    ensures PointerOf(volumes[k], i, q) == PointerOf(volumes[k], j, s) ==> i == j && q == s
    ensures Used(volumes[k], Blocks, PointerOf(volumes[k], i, q))
            && !IsMetadata(volumes[k], PointerOf(volumes[k], i, q))
  {
    hide Implements, IsRun, IsMetadata, Used, PointerOf, Volume;
    var owns := RunImplements(volumes, trees, ops, own);
    BlocksDisjoint(volumes[k], owns[k], trees[k], i, q, j, s);
  }

  /** After any run, a read returns the slice of the tree's bytes and a lookup the tree's name. */
  lemma RunReads(volumes: seq<Fs>, trees: seq<Tree>, ops: seq<Op>, own: Ownership, k: nat, ino: nat, offset: nat,
      len: nat)
    requires IsRun(volumes, trees, ops) && k < |volumes| && Implements(volumes[0], own, trees[0])
    requires Volume(volumes[k]) && ino in trees[k] && IsIno(volumes[k].sb, ino) && trees[k][ino].File?
    ensures var bytes := trees[k][ino].bytes;
            ReadFile(volumes[k], ino, offset, len) == if offset >= |bytes|
                then [] else bytes[offset..Min(offset + len, |bytes|)]
  {
    hide Core, WellNamed, IsRun, ReadFile, FileOk, Volume, Used;
    var owns := RunImplements(volumes, trees, ops, own);
    assert NodeOk(volumes[k], owns[k], ino, trees[k][ino]);
    ReadFileSpec(volumes[k], owns[k], ino, trees[k][ino].bytes, offset, len);
  }

  lemma RunLookups(volumes: seq<Fs>, trees: seq<Tree>, ops: seq<Op>, own: Ownership, k: nat, dir: nat, name: Buf)
    requires IsRun(volumes, trees, ops) && k < |volumes| && Implements(volumes[0], own, trees[0])
    requires Volume(volumes[k]) && dir in trees[k] && IsIno(volumes[k].sb, dir) && trees[k][dir].Dir?
    ensures var names := trees[k][dir].names;
            var o := LookupFrom(volumes[k], ReadInode(volumes[k], dir), name, 0);
            if name in names then o == Some(names[name].ino) else o == None
  {
    hide Core, WellNamed, IsRun, LookupFrom, DirOk, Volume, Used, ReadInode;
    var owns := RunImplements(volumes, trees, ops, own);
    assert NodeOk(volumes[k], owns[k], dir, trees[k][dir]);
    LookupSpec(volumes[k], owns[k], dir, trees[k][dir].names, name);
  }

  // ---------------------------------------------------------------- mounting again

  /** Mounting a volume: the superblock and the descriptor table as they are on it
      (fs/src/ext2/mod.rs:49-54). */
  function Remount(disk: seq<Buf>, bsz: nat): Option<Fs>
    requires bsz >= 2048 && DiskShape(disk, bsz)
  {
    if |disk| == 0 then None
    else
      match SuperAt(disk[0])
      case None => None
      case Some(sb) =>
        if 1 <= sb.logBlockSize <= 5 && sb.BlockSize() == bsz && sb.blocksPerGroup > 0
        then Some(Fs(disk, sb, seq(sb.NumGroups(), g requires 0 <= g => DiskDesc(disk, sb, g))))
        else None
  }

  /** The memory copies of the superblock and of every descriptor are always what is on the volume. */
  lemma RemountSame(fs: Fs, own: Ownership)
    requires Core(fs, own) && fs.sb.BlockSize() >= 2048 && DiskShape(fs.disk, fs.sb.BlockSize())
    ensures Remount(fs.disk, fs.sb.BlockSize()) == Some(fs)
  {
    hide Counted, Padded, OwnUsed, Layout, DiskDesc, SuperAt;
    assert seq(fs.sb.NumGroups(), g requires 0 <= g => DiskDesc(fs.disk, fs.sb, g)) == fs.bgdt;
  }
}
