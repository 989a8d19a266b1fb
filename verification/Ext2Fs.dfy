/** The file system operations of the ext2 driver (fs/src/ext2/inode_impl.rs:162-308) and the
    tree of files and directories they implement. */
module Ext2Fs {
  import opened Arith
  import opened Bytes
  import opened Bitmap
  import opened Ext2Layout
  import opened Ext2Alloc
  import opened Ext2Inode
  import opened Ext2BlockMap
  import opened Ext2File
  import opened Ext2Space
  import opened Ext2Dir
  import opened Ext2DirOps
  import opened Ext2Room

  const FtReg: u8 := 1
  const FtDir: u8 := 2

  /** S_IFREG | 0644 and S_IFDIR | 0755. */
  const RegMode: u16 := 0x81A4
  const DirMode: u16 := 0x41ED

  const Dot: Buf := [0x2E]
  const DotDot: Buf := [0x2E, 0x2E]

  // ---------------------------------------------------------------- the code

  function NewFile(ino: u32): Inode {
    Inode(RegMode, 1, 0, 0, NoSlots, ino)
  }

  function NewDir(sb: Superblock, ino: u32, blk: u32): Inode
    requires sb.BlockSize() <= 0x8000
  {
    Inode(DirMode, 2, sb.BlockSize(), sb.SectorsPerBlock(), NoSlots[0 := blk], ino)
  }

  lemma AllocatedInode(fs: Fs, own: Ownership)
    requires Core(fs, own) && Alloc(Inodes, fs).1.Some?
    ensures var (fs1, o) := Alloc(Inodes, fs);
            && Moved(Inodes, fs, fs1, own, o.value, true)
            && OrZero(o) as int == o.value && o.value > 0
            && IsIno(fs.sb, o.value) && IsIno(fs1.sb, o.value)
  {
    hide Counted, Padded, Synced, OwnUsed, Layout, Superblock.Valid, Alloc, Used;
    AllocSpec(Inodes, fs, own);
    var (fs1, o) := Alloc(Inodes, fs);
    MovedFacts(Inodes, fs, fs1, own, o.value, true);
    InoIsU32(fs.sb, o.value);
  }

  /** Inode::read; a number outside the tables reads as an empty record. */
  function LoadInode(fs: Fs, ino: nat): Inode
    requires Volume(fs)
  {
    if IsIno(fs.sb, ino) then ReadInode(fs, ino) else Inode(0, 0, 0, 0, NoSlots, 0)
  }

  /** create_file: the volume afterwards and the new inode's number, None on "no free inodes".
      It does not ask whether the entry could be added. */
  function CreateFile(fs: Fs, dir: nat, name: Buf): (r: (Fs, Option<nat>))
    requires Volume(fs) && |name| < 0x100
  {
    var (fs1, o) := Alloc(Inodes, fs);
    VolumeFacts(fs1);
    if o.None? then (fs1, None)
    else
      var fs2 := StoreInode(fs1, NewFile(OrZero(o)));
      (AddEntry(fs2, LoadInode(fs2, dir), name, OrZero(o), FtReg), o)
  }

  /** The block of a new directory: "." over 12 bytes and ".." over the rest. */
  function FirstDirBlock(bsz: nat, ino: u32, parent: u32): (r: Buf)
    requires 2048 <= bsz <= 0x8000
    ensures |r| == bsz
  {
    PutEntry(PutEntry(Zeros(bsz), 0, ino, 12, FtDir, Dot), 12, parent, bsz - 12, FtDir, DotDot)
  }

  /** `used_dirs += 1` in the group of inode `ino`, written back. */
  function BumpDirs(fs: Fs, ino: nat): (r: Fs)
    requires Volume(fs)
  {
    if !IsIno(fs.sb, ino) then fs
    else
      ItemParts(Inodes, fs.sb, ino);
      var g := GroupOf(Inodes, fs.sb, ino);
      var d := fs.bgdt[g].(usedDirs := (fs.bgdt[g].usedDirs as int + 1) % 0x1_0000);
      Fs(WriteDesc(fs.disk, fs.sb, g, d), fs.sb, fs.bgdt[g := d])
  }

  /** The first half of mkdir: the new directory on disk, without a name yet; None on "no free
      inodes" and on "no free blocks", where the inode stays allocated. */
  function MakeDir(fs: Fs, dir: u32): (r: (Fs, Option<u32>))
    requires Volume(fs)
    ensures Volume(r.0) && SameGeometry(fs.sb, r.0.sb)
  {
    hide Superblock.Valid, Alloc, StoreInode, DiskShape;
    var (fs1, o) := Alloc(Inodes, fs);
    VolumeFacts(fs1);
    if o.None? then (fs1, None)
    else
      var (fs2, b) := Alloc(Blocks, fs1);
      VolumeFacts(fs2);
      BlockSizes(fs2);
      if b.None? then (fs2, None)
      else
        var fs3 := PutBlk(fs2, OrZero(b) as int, FirstDirBlock(fs2.sb.BlockSize(), OrZero(o), dir));
        (StoreInode(fs3, NewDir(fs3.sb, OrZero(o), OrZero(b))), Some(OrZero(o)))
  }

  /** mkdir: the volume afterwards and the new directory's inode number, None on an error. */
  function Mkdir(fs: Fs, dir: u32, name: Buf): (r: (Fs, Option<u32>))
    requires Volume(fs) && |name| < 0x100
  {
    var (fs1, o) := MakeDir(fs, dir);
    match o
    case None => (fs1, None)
    case Some(i) =>
      var fs2 := AddEntry(fs1, LoadInode(fs1, dir as int), name, i, FtDir);
      (BumpDirs(fs2, dir as int), o)
  }

  /** unlink's loop: every mapped block of the file is freed, its index blocks are not. */
  function FreeBlocks(fs: Fs, n: Inode, m: nat): (r: Fs)
    requires Volume(fs) && m <= DirBlocks(fs, n)
    ensures Volume(r) && SameGeometry(fs.sb, r.sb)
    decreases DirBlocks(fs, n) - m
  {
    if m == DirBlocks(fs, n) then fs
    else
      match GetBlock(fs.disk, fs.sb.Ptrs(), n.block, m)
      case None => FreeBlocks(fs, n, m + 1)
      case Some(b) =>
        if b as int >= |fs.disk| then fs
        else
          var fs1 := Release(Blocks, fs, b as int);
          ReleaseVolume(Blocks, fs, b as int);
          SameDirBlocks(fs, fs1, n);
          FreeBlocks(fs1, n, m + 1)
  }

  lemma ReleaseVolume(k: Kind, fs: Fs, item: nat)
    requires Volume(fs) && InRange(k, fs.sb, item)
    ensures var r := Release(k, fs, item);
            Volume(r) && SameGeometry(fs.sb, r.sb) && r.sb.BlockSize() == fs.sb.BlockSize()
  {
    hide Release, Superblock.Valid;
    VolumeFacts(Release(k, fs, item));
  }

  /** unlink: false on "not found". */
  function Unlink(fs: Fs, dir: nat, name: Buf): (r: (Fs, bool))
    requires Volume(fs)
  {
    var n := LoadInode(fs, dir);
    match LookupFrom(fs, n, name, 0)
    case None => (fs, false)
    case Some(child) =>
      var fs1 := FreeBlocks(fs, LoadInode(fs, child as int), 0);
      if !IsIno(fs1.sb, child as int) then (fs1, false)
      else
        var fs2 := Release(Inodes, fs1, child as int);
        ReleaseVolume(Inodes, fs1, child as int);
        match RemoveScan(fs2, n, name, 0)
        case None => (fs2, false)
        case Some(fs3) => (fs3, true)
  }

  // ---------------------------------------------------------------- the tree

  /** A file has its bytes and a directory its names, each with mode and link count. Those the driver makes are
      regular files with mode 0644 and one link, and directories with mode 0755 and two. */
  datatype Node =
    | File(bytes: Buf, attrs: Attrs := Attrs(0x81A4, 1))
    | Dir(names: map<Buf, Link>, attrs: Attrs := Attrs(0x41ED, 2))

  type Tree = map<nat, Node>

  /** The type byte of a node's directory record: 1 for regular files, 2 for directories. */
  function KindOf(node: Node): u8 { if node.Dir? then 2 else 1 }

  predicate LinkOk(t: Tree, l: Link) { l.ino in t && l.kind == KindOf(t[l.ino]) }

  /** "." and ".." of a directory. */
  function DotNames(ino: nat, parent: nat): map<Buf, Link> {
    map[[0x2E] := Link(ino, 2), [0x2E, 0x2E] := Link(parent, 2)]
  }

  /** Every name leads to a node of the recorded type, and a file has at most one name: there are no hard links. */
  ghost predicate WellNamed(t: Tree) {
    && (forall d, nm :: d in t && t[d].Dir? && nm in t[d].names ==> LinkOk(t, t[d].names[nm]))
    && (forall d, nm, e, nn ::
          (d in t && t[d].Dir? && nm in t[d].names && e in t && t[e].Dir? && nn in t[e].names
           && t[d].names[nm].ino == t[e].names[nn].ino && t[t[d].names[nm].ino].File?) ==> d == e && nm == nn)
  }

  ghost predicate NodeOk(fs: Fs, own: Ownership, ino: nat, node: Node)
    requires Volume(fs)
  {
    && IsIno(fs.sb, ino) && Used(fs, Inodes, ino) && AttrsOf(ReadInode(fs, ino)) == node.attrs
    && match node
       case File(bytes, _) => FileOk(fs, own, ino, bytes)
       case Dir(names, _) => DirOk(fs, own, ino, names)
  }

  ghost predicate NodesOk(fs: Fs, own: Ownership, t: Tree)
    requires Volume(fs)
  {
    forall i :: i in t ==> NodeOk(fs, own, i, t[i])
  }

  /** The volume implements the tree, with `own` saying what each block is for. */
  ghost predicate Implements(fs: Fs, own: Ownership, t: Tree) {
    Volume(fs) && Core(fs, own) && NodesOk(fs, own, t) && WellNamed(t)
  }

  lemma DirFrame(fs: Fs, r: Fs, own: Ownership, own2: Ownership, ino: nat, names: map<Buf, Link>)
    requires Volume(fs) && Volume(r) && SameGeometry(fs.sb, r.sb) && |r.disk| == |fs.disk| && IsIno(fs.sb, ino)
             && IsIno(r.sb, ino)
    requires DirOk(fs, own, ino, names) && ReadInode(r, ino) == ReadInode(fs, ino)
    requires forall b :: b in own && b < |fs.disk| && OwnedBy(own[b], ino) ==>
             r.disk[b] == fs.disk[b] && b in own2 && own2[b] == own[b]
    ensures DirOk(r, own2, ino, names)
  {
    hide Superblock.Valid, TreeOk, GetBlock, ByteAt, ReadInode, Mul, Div, Mod, CeilDiv, IsIno, DirBlocks, Represents,
         Tiled, Entries;
    var n, p := ReadInode(fs, ino), fs.sb.Ptrs();
    InoFrame(fs.disk, r.disk, p, own, own2, ino, n.block);
    SameDirBlocks(fs, r, n);
    EntriesSame(fs.disk, n.block, r.disk, n.block, p, 0, DirBlocks(fs, n));
  }

  /** What one operation on inode `ino` leaves alone keeps every other node. */
  lemma NodeKept(fs: Fs, r: Fs, own: Ownership, own2: Ownership, ino: nat, j: nat, node: Node)
    requires Volume(fs) && Volume(r) && SameGeometry(fs.sb, r.sb) && OthersKept(fs, r, own, own2, ino)
    requires NodeOk(fs, own, j, node) && j != ino
    ensures NodeOk(r, own2, j, node)
  {
    hide Superblock.Valid, FileOk, DirOk, ReadInode, Used;
    SameIno(fs.sb, r.sb, j);
    match node {
      case File(bytes, _) => FileFrame(fs, r, own, own2, j, bytes);
      case Dir(names, _) => DirFrame(fs, r, own, own2, j, names);
    }
  }

  lemma NodesKept(fs: Fs, r: Fs, own: Ownership, own2: Ownership, ino: nat, t: Tree)
    requires Volume(fs) && Volume(r) && SameGeometry(fs.sb, r.sb) && OthersKept(fs, r, own, own2, ino)
             && NodesOk(fs, own, t)
    ensures NodesOk(r, own2, t - {ino})
  {
    hide Superblock.Valid, NodeOk, OthersKept;
    forall j | j in t - {ino} ensures NodeOk(r, own2, j, (t - {ino})[j]) {
      NodeKept(fs, r, own, own2, ino, j, t[j]);
    }
  }

  lemma OthersTrans(fs: Fs, a: Fs, r: Fs, own: Ownership, own1: Ownership, own2: Ownership, ino: nat)
    requires Shape(fs) && Shape(a) && Shape(r) && Core(fs, own)
    requires OthersKept(fs, a, own, own1, ino) && OthersKept(a, r, own1, own2, ino)
    ensures OthersKept(fs, r, own, own2, ino)
  {
    hide Superblock.Valid, ReadInode, Used, Counted, Padded, Synced, OwnUsed;
    forall j | IsIno(fs.sb, j) && IsIno(r.sb, j) && j != ino
      ensures ReadInode(r, j) == ReadInode(fs, j) && Used(r, Inodes, j) == Used(fs, Inodes, j)
    {
      SameIno(fs.sb, a.sb, j);
    }
  }

  /** Marks of the allocator leave every inode record alone. */
  lemma MetaKeepsInode(fs: Fs, r: Fs, own: Ownership, j: nat)
    requires Shape(fs) && Layout(fs, own) && Shape(r) && SameStatic(fs, r) && MetaOnly(fs.disk, r.disk, own)
    requires IsIno(fs.sb, j) && IsIno(r.sb, j)
    ensures ReadInode(r, j) == ReadInode(fs, j)
  {
    hide Superblock.Valid, InodeAt, Layout;
    InoPlace(fs.sb, j);
    InoOwned(fs, own, j);
    SameInoBlock(fs, r, j);
  }

  lemma MovedOthers(k: Kind, fs: Fs, r: Fs, own: Ownership, item: nat, used: bool, ino: nat)
    requires Core(fs, own) && Moved(k, fs, r, own, item, used) && (k.Inodes? ==> ino == item)
    ensures OthersKept(fs, r, own, own, ino)
  {
    hide Superblock.Valid, ReadInode, Used, Counted, Padded, Synced, OwnUsed;
    forall j | IsIno(fs.sb, j) && IsIno(r.sb, j) && j != ino
      ensures ReadInode(r, j) == ReadInode(fs, j) && Used(r, Inodes, j) == Used(fs, Inodes, j)
    {
      MetaKeepsInode(fs, r, own, j);
    }
  }

  /** A new inode: allocated, then its record written. */
  lemma FreshInode(fs: Fs, own: Ownership, n: Inode)
    requires Volume(fs) && Core(fs, own) && Alloc(Inodes, fs).1.Some? && n.ino as int == Alloc(Inodes, fs).1.value
    ensures var (fs1, o) := Alloc(Inodes, fs);
            var r := WriteFresh(fs1, n);
            && IsIno(fs1.sb, n.ino as int) && Volume(fs1) && Core(fs1, own) && !Used(fs, Inodes, n.ino as int)
            && Volume(r) && Core(r, own) && SameGeometry(fs.sb, r.sb) && r == StoreInode(fs1, n)
            && ReadInode(r, n.ino as int) == n && Used(r, Inodes, n.ino as int)
            && OthersKept(fs, r, own, own, n.ino as int) && SameGeometry(fs.sb, fs1.sb)
  {
    hide Superblock.Valid, Alloc, WriteInode, ReadInode, Counted, Padded, Synced, OwnUsed, Layout, Used, OthersKept,
         Grew;
    AllocatedInode(fs, own);
    var (fs1, o) := Alloc(Inodes, fs);
    var i := n.ino as int;
    VolumeFacts(fs1);
    MovedOthers(Inodes, fs, fs1, own, i, true, i);
    GrewSelf(fs1, own, i);
    FinishInode(fs1, fs1, own, own, n);
    var r := WriteInode(fs1, n);
    VolumeFacts(r);
    OthersTrans(fs, fs1, r, own, own, own, i);
  }

  ghost function WriteFresh(fs: Fs, n: Inode): Fs
    requires Volume(fs)
  {
    StoreInode(fs, n)
  }

  lemma {:induction false} EmptyMap(d: seq<Buf>, p: nat, q: seq<nat>)
    requires DiskShape(d, 4 * p) && IsPath(p, q)
    ensures PtrAt(d, p, NoSlots, q) == 0
    decreases |q|
  {
    if |q| > 1 { EmptyMap(d, p, Parent(q)); }
  }

  lemma EmptyTree(d: seq<Buf>, p: nat, own: Ownership, ino: nat)
    requires p > 0 && DiskShape(d, 4 * p)
    ensures TreeOk(d, p, own, ino, NoSlots) && MappedTo(d, p, NoSlots, 0)
  {
    hide PathOf, IsPath, Mul, Div, Mod, IsLeaf;
    forall q | IsPath(p, q) ensures PtrAt(d, p, NoSlots, q) == 0 { EmptyMap(d, p, q); }
    forall m | 0 <= m < MaxBlocks(p) ensures GetBlock(d, p, NoSlots, m) == None { PathOfIsLeaf(p, m); }
  }

  lemma NewFileOk(fs: Fs, own: Ownership, ino: u32)
    requires Volume(fs) && IsIno(fs.sb, ino as int) && ReadInode(fs, ino as int) == NewFile(ino)
    ensures FileOk(fs, own, ino as int, [])
  {
    hide Superblock.Valid, ReadInode, IsIno, TreeOk, MappedTo;
    EmptyTree(fs.disk, fs.sb.Ptrs(), own, ino as int);
    assert CeilDiv(0, 4 * fs.sb.Ptrs()) == 0;
  }

  /** The directory `dir` can take another entry `name`. */
  ghost predicate CanAdd(fs: Fs, dir: nat, t: Tree, name: Buf)
    requires Volume(fs)
  {
    && dir in t && t[dir].Dir? && name !in t[dir].names && 1 <= |name| < 0x100
    && IsIno(fs.sb, dir) && Mul(DirBlocks(fs, ReadInode(fs, dir)) + 1, 4 * fs.sb.Ptrs()) < 0x1_0000_0000
  }

  ghost function Added(t: Tree, dir: nat, name: Buf, i: nat, node: Node): Tree
    requires dir in t && t[dir].Dir?
  {
    t[dir := t[dir].(names := t[dir].names[name := Link(i, KindOf(node))])][i := node]
  }

  lemma AddedWellNamed(t: Tree, dir: nat, name: Buf, i: nat, node: Node)
    requires WellNamed(t) && dir in t && t[dir].Dir? && name !in t[dir].names && i !in t
    requires node.File? || (forall nm :: nm in node.names ==>
             node.names[nm] == Link(i, 2) || node.names[nm] == Link(dir, 2))
    ensures WellNamed(Added(t, dir, name, i, node))
  {
    hide Added;
    var t2 := Added(t, dir, name, i, node);
    forall d, nm | d in t2 && t2[d].Dir? && nm in t2[d].names ensures LinkOk(t2, t2[d].names[nm]) {
      AddedLink(t, dir, name, i, node, d, nm);
    }
    forall d, nm, e, nn | d in t2 && t2[d].Dir? && nm in t2[d].names && e in t2 && t2[e].Dir? && nn in t2[e].names
        && t2[d].names[nm].ino == t2[e].names[nn].ino && t2[t2[d].names[nm].ino].File?
      ensures d == e && nm == nn
    {
      AddedLink(t, dir, name, i, node, d, nm);
      AddedLink(t, dir, name, i, node, e, nn);
    }
  }

  /** The names of the new tree: the new one, those of the new directory, and the old ones. */
  lemma AddedLink(t: Tree, dir: nat, name: Buf, i: nat, node: Node, d: nat, nm: Buf)
    requires WellNamed(t) && dir in t && t[dir].Dir? && name !in t[dir].names && i !in t
    requires node.File? || (forall m :: m in node.names ==>
             node.names[m] == Link(i, 2) || node.names[m] == Link(dir, 2))
    requires var t2 := Added(t, dir, name, i, node); d in t2 && t2[d].Dir? && nm in t2[d].names
    ensures var t2 := Added(t, dir, name, i, node);
            var l := t2[d].names[nm];
            && LinkOk(t2, l)
            && (t2[l.ino].File? ==>
                  if l.ino == i then d == dir && nm == name
                  else d in t && t[d].Dir? && nm in t[d].names && t[d].names[nm] == l && t[l.ino].File?)
  {
    if d in t && nm in t[d].names { assert LinkOk(t, t[d].names[nm]); }
  }

  /** Adding the entry of a new, implemented node `i` to its directory. */
  lemma AddToDir(fs: Fs, own: Ownership, t: Tree, dir: nat, name: Buf, i: nat, node: Node, ft: u8)
      returns (own2: Ownership)
    requires Volume(fs) && Core(fs, own) && NodesOk(fs, own, t) && WellNamed(t) && CanAdd(fs, dir, t, name)
    requires i !in t && 0 < i < 0x1_0000_0000 && NodeOk(fs, own, i, node)
    requires node.File? || (forall nm :: nm in node.names ==>
             node.names[nm] == Link(i, 2) || node.names[nm] == Link(dir, 2))
    requires AddRoom(fs, ReadInode(fs, dir), name, i, ft) && ft == KindOf(node)
    ensures Implements(AddEntry(fs, LoadInode(fs, dir), name, i, ft), own2, Added(t, dir, name, i, node))
  {
    hide Superblock.Valid, FileOk, DirOk, ReadInode, Used, Core, OthersKept, AddEntry, Mul, AddRoom;
    BlockSizes(fs);
    assert NodeOk(fs, own, dir, t[dir]);
    own2 := AddEntrySpec(fs, own, dir, t[dir].names, name, i, ft);
    var r := AddEntry(fs, ReadInode(fs, dir), name, i, ft);
    NodesKept(fs, r, own, own2, dir, t);
    NodeKept(fs, r, own, own2, dir, i, node);
    AddedWellNamed(t, dir, name, i, node);
    var t2 := Added(t, dir, name, i, node);
    forall j | j in t2 ensures NodeOk(r, own2, j, t2[j]) {
      if j != i && j != dir { assert j in t - {dir}; }
    }
  }

  // ---------------------------------------------------------------- create_file

  /** create_file of an absent name, with a free inode and room for the entry, adds an empty file. */
  lemma CreateFileSpec(fs: Fs, own: Ownership, t: Tree, dir: nat, name: Buf) returns (own2: Ownership)
    requires Implements(fs, own, t) && CanAdd(fs, dir, t, name)
    requires fs.sb.freeInodes > 0 && CreateRoom(fs, dir, name)
    ensures var (r, o) := CreateFile(fs, dir, name);
            o.Some? && o.value !in t && Implements(r, own2, Added(t, dir, name, o.value, File([])))
  {
    hide Superblock.Valid, Alloc, ReadInode, Used, OthersKept, Counted, Padded, Synced, OwnUsed, Layout, AddEntry,
         FileOk, DirOk, Mul, AddRoom, DirBlocks, IsIno, Moved, NameFits;
    AllocSpec(Inodes, fs, own);
    AllocatedInode(fs, own);
    var (fs1, o) := Alloc(Inodes, fs);
    var i := OrZero(o);
    FreshInode(fs, own, NewFile(i));
    var fs2 := StoreInode(fs1, NewFile(i));
    assert i as int !in t by { assert i as int in t ==> NodeOk(fs, own, i as int, t[i]); }
    NodesKept(fs, fs2, own, own, i as int, t);
    assert t - {i as int} == t;
    NewFileOk(fs2, own, i);
    CanAddKept(fs, fs2, own, own, t, i as int, dir, name);
    FreeBlocksSame(fs, fs1, own, i as int);
    SameSuper(fs1, NewFile(i));
    RoomKept(fs, fs2, own, own, t, i as int, dir, name, i, FtReg, 0);
    own2 := AddToDir(fs2, own, t, dir, name, i as int, File([]), FtReg);
  }

  /** The directory takes the name: a condition on the volume before the call. */
  ghost predicate CreateRoom(fs: Fs, dir: nat, name: Buf)
    requires Volume(fs)
  {
    NameFits(fs, LoadInode(fs, dir), |name|, 0)
  }

  /** What room there was before the new node was made is there for its entry. */
  lemma RoomKept(fs: Fs, r: Fs, own: Ownership, own2: Ownership, t: Tree, i: nat, dir: nat, name: Buf, child: u32,
      ft: u8, taken: nat)
    requires Volume(fs) && Volume(r) && SameGeometry(fs.sb, r.sb) && OthersKept(fs, r, own, own2, i) && i != dir
             && |name| < 0x100
    requires NodesOk(fs, own, t) && CanAdd(fs, dir, t, name)
             && r.sb.freeBlocks as int + taken == fs.sb.freeBlocks as int
    ensures IsIno(r.sb, dir) && (AddRoom(r, ReadInode(r, dir), name, child, ft) <==>
            NameFits(fs, LoadInode(fs, dir), |name|, taken))
  {
    hide Superblock.Valid, ReadInode, Used, OthersKept, AddRoom, NameFits, DirOk, FileOk, Mul, DirBlocks;
    assert NodeOk(fs, own, dir, t[dir]);
    SameIno(fs.sb, r.sb, dir);
    NodeKept(fs, r, own, own2, i, dir, t[dir]);
    FitsKept(fs, r, own, own2, i, dir, t[dir].names, |name|, taken);
    AddRoomIff(r, own2, dir, t[dir].names, name, child, ft);
  }

  lemma CanAddKept(fs: Fs, r: Fs, own: Ownership, own2: Ownership, t: Tree, ino: nat, dir: nat, name: Buf)
    requires Volume(fs) && Volume(r) && SameGeometry(fs.sb, r.sb) && OthersKept(fs, r, own, own2, ino)
             && CanAdd(fs, dir, t, name) && ino != dir
    ensures CanAdd(r, dir, t, name) && ReadInode(r, dir) == ReadInode(fs, dir)
  {
    hide Superblock.Valid, ReadInode, Mul, DirBlocks;
    SameIno(fs.sb, r.sb, dir);
    SameDirBlocks(fs, r, ReadInode(fs, dir));
  }

  // ---------------------------------------------------------------- mkdir

  lemma FirstDirBlockEntries(bsz: nat, ino: u32, parent: u32)
    requires 2048 <= bsz <= 0x8000 && bsz % 4 == 0 && ino != 0 && parent != 0
    ensures var b := FirstDirBlock(bsz, ino, parent);
            Tiled(b, 0) && Entries(b, 0) == [Entry(Dot, Link(ino as int, 2)), Entry(DotDot, Link(parent as int, 2))]
  {
    hide PutEntry, Zeros, RecIno, RecLen, NameLen, RecName, RecKind;
    var c := PutEntry(Zeros(bsz), 0, ino, 12, FtDir, Dot);
    var b := PutEntry(c, 12, parent, bsz - 12, FtDir, DotDot);
    RecordSame(b, c, 0);
    assert Tiled(b, bsz) && Entries(b, bsz) == [];
    assert Tiled(b, 12) && Entries(b, 12) == [Entry(DotDot, Link(parent as int, 2))];
  }

  lemma FirstNames(i: nat, parent: nat)
    ensures Represents([Entry(Dot, Link(i, 2)), Entry(DotDot, Link(parent, 2))], DotNames(i, parent))
  {
    var es := [Entry(Dot, Link(i, 2)), Entry(DotDot, Link(parent, 2))];
    var names := DotNames(i, parent);
    assert |Dot| == 1 && |DotDot| == 2;
    var e1 := es[1..];
    assert e1 == [Entry(DotDot, Link(parent, 2))] && e1[1..] == [];
    assert Distinct(e1);
    forall nm: Buf ensures Find(es, nm) == if nm in names then Some(names[nm]) else None {
      assert Find(e1, nm) == if nm == DotDot then Some(Link(parent, 2)) else None;
    }
  }

  function EmptyDir(sb: Superblock, ino: u32): Inode
    requires sb.BlockSize() <= 0x8000
  {
    Inode(DirMode, 2, sb.BlockSize(), 0, NoSlots, ino)
  }

  /** mkdir's block and record are what mapping the block into an empty inode gives. */
  lemma MkdirMaps(fs: Fs, ino: u32, data: Buf)
    requires Volume(fs) && |data| == fs.sb.BlockSize() <= 0x8000 && Alloc(Blocks, fs).1.Some?
    ensures var (fs2, b) := Alloc(Blocks, fs);
            0 < MaxBlocks(fs.sb.Ptrs()) && fs2.sb.BlockSize() == fs.sb.BlockSize() &&
            AllocMapped(fs, EmptyDir(fs.sb, ino), 0, data) ==
              Some((PutBlk(fs2, OrZero(b) as int, data), NewDir(fs2.sb, ino, OrZero(b)), OrZero(b)))
  {
    hide Superblock.Valid, Alloc, Mul;
    BlockSizes(fs);
    assert PathOf(fs.sb.Ptrs(), 0) == [0];
  }

  /** A new directory whose only block is `data`: inode and block allocated and written as mkdir does. */
  ghost function PlacedDir(fs: Fs, data: Buf): (r: Fs)
    requires Volume(fs) && |data| == fs.sb.BlockSize()
    ensures Volume(r) && SameGeometry(fs.sb, r.sb)
  {
    hide Superblock.Valid, Alloc, StoreInode, DiskShape;
    var (fs1, o) := Alloc(Inodes, fs);
    VolumeFacts(fs1);
    var (fs2, b) := Alloc(Blocks, fs1);
    VolumeFacts(fs2);
    BlockSizes(fs2);
    var fs3 := PutBlk(fs2, OrZero(b) as int, data);
    StoreInode(fs3, NewDir(fs3.sb, OrZero(o), OrZero(b)))
  }

  /** The directory has one block, and these are its bytes. */
  ghost predicate OneBlockDir(fs: Fs, ino: nat, data: Buf)
    requires Volume(fs)
  {
    && IsIno(fs.sb, ino) && DirBlocks(fs, ReadInode(fs, ino)) == 1 && 0 < MaxBlocks(fs.sb.Ptrs())
    && BlockAt(fs.disk, fs.sb.Ptrs(), ReadInode(fs, ino).block, 0) == data
  }

  lemma GivenDir(fs: Fs, own: Ownership, data: Buf, names: map<Buf, Link>) returns (own2: Ownership)
    requires Volume(fs) && Core(fs, own) && Alloc(Inodes, fs).1.Some? && fs.sb.freeBlocks > 0
    requires |data| == fs.sb.BlockSize() && Tiled(data, 0) && Represents(Entries(data, 0), names)
    ensures var r, i := PlacedDir(fs, data), Alloc(Inodes, fs).1.value;
            && Core(r, own2) && !Used(fs, Inodes, i) && OthersKept(fs, r, own, own2, i)
               && NodeOk(r, own2, i, Dir(names))
            && OneBlockDir(r, i, data)
  {
    hide Superblock.Valid, Alloc, ReadInode, Used, OthersKept, Counted, Padded, Synced, OwnUsed, Layout, Mul,
         StepSpec, TreeOk, MappedTo, WriteInode, AllocMapped, StepRoom, GetBlock, DirOk, Represents, Entries, Tiled;
    AllocatedInode(fs, own);
    var (fs1, o) := Alloc(Inodes, fs);
    var i := OrZero(o);
    BlockSizes(fs1);
    VolumeFacts(fs1);
    FreeBlocksSame(fs, fs1, own, i as int);
    var base := EmptyDir(fs1.sb, i);
    AllocSpec(Blocks, fs1, own);
    MkdirMaps(fs1, i, data);
    EmptyTree(fs1.disk, fs1.sb.Ptrs(), own, i as int);
    DirectRoom(fs1, base);
    BeyondDir(fs1, base, 0);
    own2 := AllocMappedSpec(fs1, own, base, 0, data);
    var (fs2, b) := Alloc(Blocks, fs1);
    VolumeFacts(fs2);
    var fs3 := PutBlk(fs2, OrZero(b) as int, data);
    MovedOthers(Inodes, fs, fs1, own, i as int, true, i as int);
    var n := NewDir(fs3.sb, i, OrZero(b));
    var r := StoreInode(fs3, n);
    DirRecord(fs1, own, fs3, own2, base, n, OrZero(b), data, names, r);
    OthersTrans(fs, fs1, r, own, own, own2, i as int);
  }

  /** A volume right after mkdir's directory was written, before it has a name. */
  lemma FreshDir(fs: Fs, own: Ownership, dir: u32) returns (own2: Ownership)
    requires Volume(fs) && Core(fs, own) && Alloc(Inodes, fs).1.Some? && dir != 0 && fs.sb.freeBlocks > 0
    ensures var (r, o) := MakeDir(fs, dir);
            && o.Some? && o.value != 0 && Core(r, own2) && !Used(fs, Inodes, o.value as int)
            && OthersKept(fs, r, own, own2, o.value as int)
            && NodeOk(r, own2, o.value as int, Dir(DotNames(o.value as int, dir as int)))
  {
    hide Superblock.Valid, Alloc, Used, OthersKept, Counted, Padded, Synced, OwnUsed, Layout, NodeOk, FirstDirBlock,
         StoreInode, Represents, Entries, Tiled, Moved, DiskShape;
    AllocatedInode(fs, own);
    var (fs1, o) := Alloc(Inodes, fs);
    var i := OrZero(o);
    BlockSizes(fs);
    VolumeFacts(fs1);
    FreeBlocksSame(fs, fs1, own, i as int);
    FreshBlock(fs1, own);
    var data := FirstDirBlock(fs.sb.BlockSize(), i, dir);
    FirstDirBlockEntries(fs.sb.BlockSize(), i, dir);
    FirstNames(i as int, dir as int);
    own2 := GivenDir(fs, own, data, DotNames(i as int, dir as int));
    assert MakeDir(fs, dir) == (PlacedDir(fs, data), Some(i));
  }

  lemma SameSuper(fs: Fs, n: Inode)
    requires Volume(fs)
    ensures StoreInode(fs, n).sb == fs.sb
  {
    hide Superblock.Valid;
  }

  lemma FreeBlocksSame(fs: Fs, fs1: Fs, own: Ownership, i: nat)
    requires Moved(Inodes, fs, fs1, own, i, true)
    ensures fs1.sb.freeBlocks == fs.sb.freeBlocks && Used(fs1, Inodes, i) && !Used(fs, Inodes, i) && Core(fs1, own)
  {
    hide Superblock.Valid, Counted, Padded, Synced, OwnUsed, Layout, Used;
    assert fs1.sb.Free(Blocks) == fs.sb.Free(Blocks);
  }

  lemma DirectRoom(fs: Fs, n: Inode)
    requires Volume(fs)
    ensures 0 < MaxBlocks(fs.sb.Ptrs()) && StepRoom(fs, n, 0)
  {
    hide Superblock.Valid, Mul;
    assert PathOf(fs.sb.Ptrs(), 0) == [0];
  }

  /** The new directory's record is written and the directory holds the entries of its block. */
  lemma DirRecord(fs1: Fs, own: Ownership, fs3: Fs, own2: Ownership, base: Inode, n: Inode, b: u32, data: Buf,
      names: map<Buf, Link>, r: Fs)
    requires Volume(fs3) && r == StoreInode(fs3, n)
    requires Volume(fs1) && Volume(r) && SameGeometry(fs1.sb, fs3.sb) && n.ino != 0 && base.ino == n.ino
    requires 2048 <= fs3.sb.BlockSize() <= 0x8000 && 0 < MaxBlocks(fs1.sb.Ptrs())
    requires n == NewDir(fs3.sb, n.ino, b) && IsIno(fs1.sb, n.ino as int)
    requires b as int < |fs3.disk| && fs3.disk[b] == data && |data| == fs1.sb.BlockSize() && Tiled(data, 0)
             && Represents(Entries(data, 0), names)
    requires Core(fs1, own) && Used(fs1, Inodes, n.ino as int)
    requires MappedTo(fs1.disk, fs1.sb.Ptrs(), base.block, 0)
    requires StepSpec(fs1, own, base, 0, fs3, n, b, own2)
    ensures Core(r, own2) && OthersKept(fs1, r, own, own2, n.ino as int)
    ensures NodeOk(r, own2, n.ino as int, Dir(names)) && OneBlockDir(r, n.ino as int, data)
  {
    hide Superblock.Valid, ReadInode, Used, OthersKept, Counted, Padded, Synced, OwnUsed, Layout, TreeOk, MappedTo,
         WriteInode, GetBlock, Grew, LeavesKept, Represents, Tiled, Entries, Mul, Div, Mod;
    var i, p := n.ino as int, fs1.sb.Ptrs();
    SameIno(fs1.sb, fs3.sb, i);
    FinishInode(fs1, fs3, own, own2, n);
    assert r == WriteInode(fs3, n);
    BlockSizes(r);
    InoFrame(fs3.disk, r.disk, p, own2, own2, i, n.block);
    MappedMore(fs1, own, base, 0, fs3, n, b, own2);
    MappedKept(fs3.disk, r.disk, p, n.block, 1);
    MulOne(4 * p);
    MulOne(r.sb.SectorsPerBlock());
    DirBlocksOf(r, n, 1);
    OneBlock(r.disk, p, n.block);
  }

  lemma MappedKept(d: seq<Buf>, r: seq<Buf>, p: nat, s: Slots, nb: nat)
    requires p > 0 && DiskShape(d, 4 * p) && DiskShape(r, 4 * p) && MappedTo(d, p, s, nb)
    requires forall m :: 0 <= m < MaxBlocks(p) ==> GetBlock(r, p, s, m) == GetBlock(d, p, s, m)
    ensures MappedTo(r, p, s, nb)
  {
    hide GetBlock;
  }

  lemma OneBlock(d: seq<Buf>, p: nat, s: Slots)
    requires p > 0 && DiskShape(d, 4 * p) && 1 <= MaxBlocks(p) && GetBlock(d, p, s, 0).Some?
             && Tiled(BlockAt(d, p, s, 0), 0)
    ensures DirData(d, p, s, 0, 1) && EntriesFrom(d, p, s, 0, 1) == Entries(BlockAt(d, p, s, 0), 0)
  {
    hide GetBlock, BlockAt, Tiled, Entries, MaxBlocks;
    assert EntriesFrom(d, p, s, 1, 1) == [];
  }

  // ---------------------------------------------------------------- used_dirs

  /** Only the directory count of group `g` went up, in memory and on the volume. */
  ghost predicate Bumped(fs: Fs, r: Fs, own: Ownership, g: nat)
    requires Shape(fs)
  {
    && g < |fs.bgdt| && |r.disk| == |fs.disk| && SameStatic(fs, r) && r.sb == fs.sb && Shape(r)
    && MetaOnly(fs.disk, r.disk, own) && DescBlock(fs.sb, g) < |fs.disk|
    && r.disk == WriteDesc(fs.disk, fs.sb, g, r.bgdt[g])
    && (forall h :: 0 <= h < |fs.bgdt| && h != g ==> r.bgdt[h] == fs.bgdt[h])
    && (forall b :: 0 <= b < |fs.disk| && b != DescBlock(fs.sb, g) ==> r.disk[b] == fs.disk[b])
    && r.bgdt[g] == fs.bgdt[g].(usedDirs := (fs.bgdt[g].usedDirs as int + 1) % 0x1_0000)
  }

  /** mkdir counts the new directory in the group of its parent, and changes nothing else. */
  lemma BumpFields(fs: Fs, own: Ownership, ino: nat)
    requires Volume(fs) && Core(fs, own) && IsIno(fs.sb, ino)
    ensures Bumped(fs, BumpDirs(fs, ino), own, GroupOf(Inodes, fs.sb, ino))
  {
    hide Superblock.Valid, Counted, Padded, Synced, OwnUsed, PutDesc, DescOffset;
    ItemParts(Inodes, fs.sb, ino);
    BlockSizes(fs);
    var g := GroupOf(Inodes, fs.sb, ino);
    assert Owns(own, DescBlock(fs.sb, g), OwnBgdt);
  }

  lemma BumpCore(fs: Fs, own: Ownership, ino: nat)
    requires Volume(fs) && Core(fs, own) && IsIno(fs.sb, ino)
    ensures Core(BumpDirs(fs, ino), own)
    ensures forall k, i: nat :: Used(BumpDirs(fs, ino), k, i) == Used(fs, k, i)
  {
    hide Superblock.Valid, BumpDirs, Counted, Padded, Synced, OwnUsed, Layout, BitUsed, GroupOf, BitOfItem;
    var r := BumpDirs(fs, ino);
    BumpFields(fs, own, ino);
    LayoutKept(fs, r, own);
    BumpBits(fs, own, ino);
    BumpCounted(fs, own, ino);
    BumpSynced(fs, own, ino);
  }

  lemma BumpBitmaps(fs: Fs, own: Ownership, ino: nat, k: Kind, h: nat)
    requires Volume(fs) && Core(fs, own) && IsIno(fs.sb, ino) && h < |fs.bgdt|
    ensures var r := BumpDirs(fs, ino);
            && h < |r.bgdt| && r.bgdt[h].Bitmap(k) == fs.bgdt[h].Bitmap(k) && r.bgdt[h].Free(k) == fs.bgdt[h].Free(k)
            && fs.bgdt[h].Bitmap(k) as int < |fs.disk| == |r.disk| && BitmapOf(r, k, h) == BitmapOf(fs, k, h)
  {
    hide Superblock.Valid, BumpDirs, Counted, Padded, Synced, OwnUsed, WriteDesc, DescBlock;
    BumpFields(fs, own, ino);
    assert Owns(own, fs.bgdt[h].Bitmap(k) as int, OwnBitmap(k, h));
    assert Owns(own, DescBlock(fs.sb, GroupOf(Inodes, fs.sb, ino)), OwnBgdt);
  }

  lemma BumpBits(fs: Fs, own: Ownership, ino: nat)
    requires Volume(fs) && Core(fs, own) && IsIno(fs.sb, ino)
    ensures var r := BumpDirs(fs, ino);
            && Shape(r) && OwnUsed(r, own) && Padded(r)
            && forall k, g: nat, i: nat :: BitUsed(r, k, g, i) == BitUsed(fs, k, g, i)
  {
    hide Superblock.Valid, BumpDirs, Counted, Synced, Layout, InRange, Item, WriteDesc, Bit, BitmapOf;
    var r := BumpDirs(fs, ino);
    BumpFields(fs, own, ino);
    forall k, g: nat, i: nat ensures BitUsed(r, k, g, i) == BitUsed(fs, k, g, i) {
      if g < |fs.bgdt| { BumpBitmaps(fs, own, ino, k, g); }
    }
    forall b | b in own ensures Used(r, Blocks, b) { assert Used(fs, Blocks, b); }
  }

  lemma BumpCounted(fs: Fs, own: Ownership, ino: nat)
    requires Volume(fs) && Core(fs, own) && IsIno(fs.sb, ino)
    ensures Counted(BumpDirs(fs, ino))
  {
    hide Superblock.Valid, BumpDirs, Padded, Synced, OwnUsed, Layout, FreeBits, WriteDesc, BitmapOf;
    var r := BumpDirs(fs, ino);
    BumpFields(fs, own, ino);
    var g := GroupOf(Inodes, fs.sb, ino);
    forall k, h | 0 <= h < |r.bgdt|
      ensures r.bgdt[h].Bitmap(k) as int < |r.disk| && r.bgdt[h].Free(k) as int == |FreeBits(BitmapOf(r, k, h))|
    {
      BumpBitmaps(fs, own, ino, k, h);
    }
    forall k ensures r.sb.Free(k) as int == SumFree(k, r.bgdt) {
      assert r.bgdt == fs.bgdt[g := r.bgdt[g]];
      SumFreeUpdate(k, fs.bgdt, g, r.bgdt[g]);
    }
  }

  lemma BumpSynced(fs: Fs, own: Ownership, ino: nat)
    requires Volume(fs) && Core(fs, own) && IsIno(fs.sb, ino)
    ensures var r := BumpDirs(fs, ino); Shape(r) && Synced(r)
  {
    hide Superblock.Valid, BumpDirs, Padded, Counted, OwnUsed, SuperAt, DiskDesc, WriteDesc, DescOffset;
    var r := BumpDirs(fs, ino);
    BumpFields(fs, own, ino);
    var g := GroupOf(Inodes, fs.sb, ino);
    assert Owns(own, 0, OwnSuper);
    assert Owns(own, DescBlock(fs.sb, g), OwnBgdt);
    LogRange(fs.sb);
    forall h | 0 <= h < |r.bgdt| ensures DiskDesc(r.disk, r.sb, h) == r.bgdt[h] {
      WriteDescReadBack(fs.disk, fs.sb, g, r.bgdt[g], h);
      assert DiskDesc(fs.disk, fs.sb, h) == fs.bgdt[h];
    }
  }

  lemma LogRange(sb: Superblock)
    requires sb.Valid()
    ensures 1 <= sb.logBlockSize <= 5 && 2048 <= sb.BlockSize()
  {
    BlockSizeFacts(sb);
  }

  lemma BumpOthers(fs: Fs, own: Ownership, ino: nat)
    requires Volume(fs) && Core(fs, own) && IsIno(fs.sb, ino)
    ensures Shape(BumpDirs(fs, ino)) && OthersKept(fs, BumpDirs(fs, ino), own, own, 0)
  {
    hide Superblock.Valid, BumpDirs, ReadInode, Used, Counted, Padded, Synced, OwnUsed, WriteDesc;
    var r := BumpDirs(fs, ino);
    BumpFields(fs, own, ino);
    BumpCore(fs, own, ino);
    forall j | IsIno(fs.sb, j) && IsIno(r.sb, j) && j != 0 ensures ReadInode(r, j) == ReadInode(fs, j) {
      MetaKeepsInode(fs, r, own, j);
    }
  }

  lemma BumpSpec(fs: Fs, own: Ownership, t: Tree, ino: nat)
    requires Implements(fs, own, t) && IsIno(fs.sb, ino)
    ensures Implements(BumpDirs(fs, ino), own, t)
  {
    hide Superblock.Valid, BumpDirs, Core, OthersKept, WellNamed, FileOk, DirOk, Used;
    BumpOthers(fs, own, ino);
    BumpCore(fs, own, ino);
    var r := BumpDirs(fs, ino);
    VolumeFacts(r);
    assert 0 in t ==> NodeOk(fs, own, 0, t[0]);
    BumpGeometry(fs, own, ino);
    NodesKept(fs, r, own, own, 0, t);
    assert t - {0} == t;
  }

  lemma BumpGeometry(fs: Fs, own: Ownership, ino: nat)
    requires Volume(fs) && Core(fs, own) && IsIno(fs.sb, ino)
    ensures SameGeometry(fs.sb, BumpDirs(fs, ino).sb)
  {
  }

  // ---------------------------------------------------------------- mkdir, whole

  /** As for a file, but the directory itself takes a block first. */
  ghost predicate MkdirRoom(fs: Fs, dir: u32, name: Buf)
    requires Volume(fs)
  {
    NameFits(fs, LoadInode(fs, dir as int), |name|, 1)
  }

  /** A new directory takes one inode and one block. */
  lemma PlacedCounts(fs: Fs, own: Ownership, data: Buf)
    requires Volume(fs) && Core(fs, own) && Alloc(Inodes, fs).1.Some? && fs.sb.freeBlocks > 0
             && |data| == fs.sb.BlockSize()
    ensures var r := PlacedDir(fs, data);
            && r.sb.freeBlocks as int == fs.sb.freeBlocks as int - 1
               && r.sb.freeInodes as int == fs.sb.freeInodes as int - 1
  {
    hide Superblock.Valid, Alloc, Used, Counted, Padded, Synced, OwnUsed, Layout, StoreInode, DiskShape;
    AllocatedInode(fs, own);
    var (fs1, o) := Alloc(Inodes, fs);
    FreeBlocksSame(fs, fs1, own, o.value);
    assert fs1.sb.Free(Inodes) as int == fs.sb.Free(Inodes) as int - 1;
    VolumeFacts(fs1);
    FreshBlock(fs1, own);
    var (fs2, b) := Alloc(Blocks, fs1);
    assert fs2.sb.Free(Inodes) == fs1.sb.Free(Inodes);
    VolumeFacts(fs2);
    BlockSizes(fs2);
    var fs3 := PutBlk(fs2, OrZero(b) as int, data);
    SameSuper(fs3, NewDir(fs3.sb, OrZero(o), OrZero(b)));
  }

  /** mkdir takes one block before it looks for room for the name. */
  lemma MakeDirBlocks(fs: Fs, own: Ownership, dir: u32)
    requires Volume(fs) && Core(fs, own) && Alloc(Inodes, fs).1.Some? && fs.sb.freeBlocks > 0
    ensures MakeDir(fs, dir).0.sb.freeBlocks as int == fs.sb.freeBlocks as int - 1
  {
    hide Superblock.Valid, Alloc, Used, Counted, Padded, Synced, OwnUsed, Layout, FirstDirBlock, StoreInode, Moved,
         DiskShape;
    AllocatedInode(fs, own);
    var (fs1, o) := Alloc(Inodes, fs);
    FreeBlocksSame(fs, fs1, own, o.value);
    VolumeFacts(fs1);
    FreshBlock(fs1, own);
    var (fs2, b) := Alloc(Blocks, fs1);
    VolumeFacts(fs2);
    BlockSizes(fs2);
    var fs3 := PutBlk(fs2, OrZero(b) as int, FirstDirBlock(fs2.sb.BlockSize(), OrZero(o), dir));
    SameSuper(fs3, NewDir(fs3.sb, OrZero(o), OrZero(b)));
  }

  ghost predicate MadeDir(t: Tree, dir: u32, name: Buf, own2: Ownership, r: Fs, o: Option<u32>)
    requires dir as int in t && t[dir as int].Dir?
  {
    && o.Some? && o.value as int !in t
    && Implements(r, own2,
       Added(t, dir as int, name, o.value as int, Dir(DotNames(o.value as int, dir as int))))
  }

  /** mkdir of an absent name, with a free inode, a free block and room for the entry, adds a
      directory that holds "." and "..". */
  lemma MkdirSpec(fs: Fs, own: Ownership, t: Tree, dir: u32, name: Buf) returns (own2: Ownership)
    requires Volume(fs) && |name| < 0x100 && MkdirRoom(fs, dir, name) && CanAdd(fs, dir as int, t, name)
    requires fs.sb.freeInodes > 0 && fs.sb.freeBlocks > 0
    requires Implements(fs, own, t)
    ensures MadeDir(t, dir, name, own2, Mkdir(fs, dir, name).0, Mkdir(fs, dir, name).1)
  {
    hide Superblock.Valid, Alloc, ReadInode, Used, OthersKept, Core, AddEntry, BumpDirs, FileOk, DirOk, Mul, AddRoom,
         DirBlocks, MakeDir, NameFits;
    CoreCanAlloc(Inodes, fs, own);
    var own1 := FreshDir(fs, own, dir);
    var (fs1, o) := MakeDir(fs, dir);
    var i := o.value as int;
    assert i in t ==> NodeOk(fs, own, i, t[i]);
    NodesKept(fs, fs1, own, own1, i, t);
    assert t - {i} == t;
    CanAddKept(fs, fs1, own, own1, t, i, dir as int, name);
    MakeDirBlocks(fs, own, dir);
    RoomKept(fs, fs1, own, own1, t, i, dir as int, name, o.value, FtDir, 1);
    var node := Dir(DotNames(i, dir as int));
    own2 := AddToDir(fs1, own1, t, dir as int, name, i, node, FtDir);
    var fs2 := AddEntry(fs1, LoadInode(fs1, dir as int), name, i, FtDir);
    SameIno(fs1.sb, fs2.sb, dir as int);
    BumpSpec(fs2, own2, Added(t, dir as int, name, i, node), dir as int);
  }

  lemma CoreCanAlloc(k: Kind, fs: Fs, own: Ownership)
    requires Core(fs, own) && fs.sb.Free(k) > 0
    ensures Alloc(k, fs).1.Some?
  {
    hide Superblock.Valid, Alloc, Counted, Padded, Synced, OwnUsed, Layout, Moved;
    AllocSpec(k, fs, own);
  }

  // ---------------------------------------------------------------- write

  /** write on a file of the tree splices its bytes and touches nothing else. */
  lemma WriteSpecTree(fs: Fs, own: Ownership, t: Tree, ino: nat, offset: nat, buf: Buf) returns (own2: Ownership)
    requires Volume(fs) && ino in t && t[ino].File? && offset <= |t[ino].bytes| && IsIno(fs.sb, ino)
    requires offset + |buf| < 0x1_0000_0000 && offset + |buf| <= MaxBytes(fs.sb.Ptrs())
    requires RoomFor(fs, ino, offset, |buf|)
    requires Implements(fs, own, t)
    ensures WroteFile(t, ino, offset, buf, own2, WriteFile(fs, ino, offset, buf).0, WriteFile(fs, ino, offset, buf).1)
  {
    hide Superblock.Valid, ReadInode, Used, OthersKept, Core, FileOk, DirOk, WriteFile, WriteRoom, MaxBytes, RoomFor;
    assert NodeOk(fs, own, ino, t[ino]);
    RoomForIff(fs, own, ino, t[ino].bytes, offset, buf);
    own2 := WriteFileSpec(fs, own, ino, t[ino].bytes, offset, buf);
    var (r, done) := WriteFile(fs, ino, offset, buf);
    NodesKept(fs, r, own, own2, ino, t);
    var t2 := t[ino := t[ino].(bytes := Overwrite(t[ino].bytes, offset, buf[..done]))];
    forall j | j in t2 ensures NodeOk(r, own2, j, t2[j]) {
      if j != ino { assert j in t - {ino}; }
    }
    SameKinds(t, t2);
  }

  /** The file's bytes after write reported `done` bytes; fewer than asked only on a full volume. */
  ghost predicate WroteFile(t: Tree, ino: nat, offset: nat, buf: Buf, own2: Ownership, r: Fs, done: nat)
    requires ino in t && t[ino].File? && offset <= |t[ino].bytes|
  {
    && done <= |buf| && (done < |buf| ==> r.sb.freeBlocks == 0)
    && Implements(r, own2, t[ino := t[ino].(bytes := Overwrite(t[ino].bytes, offset, buf[..done]))])
  }

  lemma SameKinds(t: Tree, t2: Tree)
    requires WellNamed(t) && t2.Keys == t.Keys
    requires forall j :: j in t ==> (t[j].Dir? ==> t2[j] == t[j]) && (t[j].File? ==> t2[j].File?)
    ensures WellNamed(t2)
  {
  }

  // ---------------------------------------------------------------- unlink

  /** Ownership after inode `ino` gives up its blocks. */
  ghost function Disowned(own: Ownership, ino: nat): Ownership {
    map b | b in own && !OwnedBy(own[b], ino) :: own[b]
  }

  ghost predicate Freeing(fs0: Fs, own: Ownership, n: Inode, fs: Fs, m: nat)
    requires Volume(fs0) && Volume(fs)
  {
    var p, less := fs0.sb.Ptrs(), Disowned(own, n.ino as int);
    && SameGeometry(fs0.sb, fs.sb) && Core(fs, less) && SameStatic(fs0, fs) && MetaOnly(fs0.disk, fs.disk, less)
    && (forall j :: m <= j < DirBlocks(fs0, n) ==>
          var g := GetBlock(fs0.disk, p, n.block, j); g.Some? && Used(fs, Blocks, g.value as int))
    && (forall i: nat :: InRange(Inodes, fs0.sb, i) ==> Used(fs, Inodes, i) == Used(fs0, Inodes, i))
  }

  /** `b` holds one of the first `m` logical blocks of the file. */
  ghost predicate DataBlock(fs: Fs, n: Inode, m: nat, b: nat)
    requires Volume(fs) && m <= DirBlocks(fs, n)
  {
    exists j :: 0 <= j < m && GetBlock(fs.disk, fs.sb.Ptrs(), n.block, j).Some?
        && GetBlock(fs.disk, fs.sb.Ptrs(), n.block, j).value as int == b
  }

  /** Of all blocks exactly the first `m` data blocks of the file became free, and they are counted. */
  ghost predicate Returned(fs0: Fs, n: Inode, fs: Fs, m: nat)
    requires Volume(fs0) && m <= DirBlocks(fs0, n)
  {
    && fs.sb.freeBlocks as int == fs0.sb.freeBlocks as int + m && fs.sb.freeInodes == fs0.sb.freeInodes
    && forall b: nat :: InRange(Blocks, fs0.sb, b) ==>
       (Used(fs, Blocks, b) <==> Used(fs0, Blocks, b) && !DataBlock(fs0, n, m, b))
  }

  lemma ReturnedStep(fs0: Fs, n: Inode, fs: Fs, m: nat, own: Ownership, b: nat, fs1: Fs)
    requires Volume(fs0) && m < DirBlocks(fs0, n) && Returned(fs0, n, fs, m) && SameGeometry(fs0.sb, fs.sb)
    requires GetBlock(fs0.disk, fs0.sb.Ptrs(), n.block, m).Some?
             && b == GetBlock(fs0.disk, fs0.sb.Ptrs(), n.block, m).value as int
    requires Moved(Blocks, fs, fs1, own, b, false)
    ensures Returned(fs0, n, fs1, m + 1)
  {
    hide Superblock.Valid, Core, Used, GetBlock, DirBlocks, MaxBlocks;
    SameGeoRange(fs0.sb, fs.sb);
    assert fs1.sb.Free(Inodes) == fs.sb.Free(Inodes);
    forall x: nat | InRange(Blocks, fs0.sb, x) ensures Used(fs1, Blocks, x) <==>
        Used(fs0, Blocks, x) && !DataBlock(fs0, n, m + 1, x) {
      DataBlockMore(fs0, n, m, x);
      assert InRange(Blocks, fs.sb, x);
    }
  }

  lemma DataBlockMore(fs: Fs, n: Inode, m: nat, b: nat)
    requires Volume(fs) && m < DirBlocks(fs, n)
    ensures var g := GetBlock(fs.disk, fs.sb.Ptrs(), n.block, m);
            DataBlock(fs, n, m + 1, b) <==> DataBlock(fs, n, m, b) || (g.Some? && g.value as int == b)
  {
    hide Superblock.Valid, GetBlock, DirBlocks, MaxBlocks;
    var g := GetBlock(fs.disk, fs.sb.Ptrs(), n.block, m);
  }

  /** unlink's loop frees exactly the data blocks of the file, and reads the map correctly while it does. */
  lemma {:induction false} FreeBlocksSpec(fs0: Fs, own: Ownership, n: Inode, fs: Fs, m: nat)
    requires Volume(fs0) && Volume(fs) && m <= DirBlocks(fs0, n) && DirBlocks(fs, n) == DirBlocks(fs0, n)
    requires TreeOk(fs0.disk, fs0.sb.Ptrs(), own, n.ino as int, n.block)
    requires Freeing(fs0, own, n, fs, m) && Returned(fs0, n, fs, m)
    ensures Freeing(fs0, own, n, FreeBlocks(fs, n, m), DirBlocks(fs0, n))
            && Returned(fs0, n, FreeBlocks(fs, n, m), DirBlocks(fs0, n))
    decreases DirBlocks(fs0, n) - m
  {
    hide Superblock.Valid, Counted, Padded, Synced, OwnUsed, Layout, Used, TreeOk, GetBlock, Release, DirBlocks,
         MaxBlocks, Moved, Returned;
    if m < DirBlocks(fs0, n) {
      var p, less := fs0.sb.Ptrs(), Disowned(own, n.ino as int);
      FreeingReads(fs0, own, n, fs, m);
      var b := GetBlock(fs0.disk, p, n.block, m).value as int;
      ReleaseSpec(Blocks, fs, less, b);
      var fs1 := Release(Blocks, fs, b);
      ReleaseVolume(Blocks, fs, b);
      SameDirBlocks(fs, fs1, n);
      FreeingStep(fs0, own, n, fs, m, b, fs1);
      ReturnedStep(fs0, n, fs, m, less, b, fs1);
      FreeBlocksSpec(fs0, own, n, fs1, m + 1);
    }
  }

  lemma FreeingReads(fs0: Fs, own: Ownership, n: Inode, fs: Fs, m: nat)
    requires Volume(fs0) && Volume(fs) && m < DirBlocks(fs0, n)
    requires TreeOk(fs0.disk, fs0.sb.Ptrs(), own, n.ino as int, n.block)
    requires Freeing(fs0, own, n, fs, m)
    ensures var p, less := fs0.sb.Ptrs(), Disowned(own, n.ino as int);
            && fs.sb.Ptrs() == p && GetBlock(fs.disk, p, n.block, m) == GetBlock(fs0.disk, p, n.block, m)
            && var g := GetBlock(fs0.disk, p, n.block, m);
            && g.Some? && Used(fs, Blocks, g.value as int) && g.value as int !in less
               && InRange(Blocks, fs.sb, g.value as int)
            && Owns(own, g.value as int, OwnPtr(n.ino as int, PathOf(p, m)))
  {
    hide Superblock.Valid, Counted, Padded, Synced, OwnUsed, Layout, Used, TreeOk, GetBlock, DirBlocks, MaxBlocks,
         PathOf;
    var p, ino := fs0.sb.Ptrs(), n.ino as int;
    InoFrame(fs0.disk, fs.disk, p, own, own, ino, n.block);
    GetBlockOwned(fs0.disk, p, own, ino, n.block, m);
  }

  lemma FreeingStep(fs0: Fs, own: Ownership, n: Inode, fs: Fs, m: nat, b: nat, fs1: Fs)
    requires Volume(fs0) && Volume(fs) && Volume(fs1) && m < DirBlocks(fs0, n) && SameGeometry(fs.sb, fs1.sb)
    requires TreeOk(fs0.disk, fs0.sb.Ptrs(), own, n.ino as int, n.block)
    requires GetBlock(fs0.disk, fs0.sb.Ptrs(), n.block, m).Some?
             && b == GetBlock(fs0.disk, fs0.sb.Ptrs(), n.block, m).value as int
    requires Freeing(fs0, own, n, fs, m)
    requires Moved(Blocks, fs, fs1, Disowned(own, n.ino as int), b, false)
    ensures Freeing(fs0, own, n, fs1, m + 1)
  {
    hide Superblock.Valid, Counted, Padded, Synced, OwnUsed, Layout, Used, TreeOk, GetBlock, DirBlocks, MaxBlocks,
         PathOf, Core;
    var p, ino := fs0.sb.Ptrs(), n.ino as int;
    GetBlockOwned(fs0.disk, p, own, ino, n.block, m);
    forall j | m + 1 <= j < DirBlocks(fs0, n)
      ensures var g := GetBlock(fs0.disk, p, n.block, j); g.Some? && Used(fs1, Blocks, g.value as int)
    {
      GetBlockOwned(fs0.disk, p, own, ino, n.block, j);
      if PathOf(p, j) == PathOf(p, m) { PathOfInjective(p, j, m); }
    }
    SameGeoRange(fs0.sb, fs.sb);
  }

  lemma SameGeoRange(sb: Superblock, r: Superblock)
    requires SameGeometry(sb, r)
    ensures forall k, i: nat :: InRange(k, r, i) == InRange(k, sb, i)
  {
  }

  /** The volume after a file's blocks and inode were released. */
  lemma FreedFile(fs: Fs, own: Ownership, ino: nat, bytes: Buf)
    requires Volume(fs) && IsIno(fs.sb, ino) && Used(fs, Inodes, ino) && Core(fs, own) && FileOk(fs, own, ino, bytes)
    ensures var fs1 := FreeBlocks(fs, ReadInode(fs, ino), 0);
            && IsIno(fs1.sb, ino)
            && var r := Release(Inodes, fs1, ino);
            && Volume(r) && SameGeometry(fs.sb, r.sb) && Core(r, Disowned(own, ino))
               && OthersKept(fs, r, own, Disowned(own, ino), ino)
            && SpaceReturned(fs, ino, |bytes|, r)
  {
    hide Superblock.Valid, Counted, Padded, Synced, OwnUsed, Layout, Used, TreeOk, GetBlock, DirBlocks, MaxBlocks,
         FreeBlocks, Release, Moved, ReadInode, OthersKept, Mul, Div, Mod, Returned, SpaceReturned;
    var n, less := ReadInode(fs, ino), Disowned(own, ino);
    FreeingStart(fs, own, ino, bytes);
    ReturnedNone(fs, n);
    FreeBlocksSpec(fs, own, n, fs, 0);
    var fs1 := FreeBlocks(fs, n, 0);
    SameIno(fs.sb, fs1.sb, ino);
    ReleaseSpec(Inodes, fs1, less, ino);
    ReleaseVolume(Inodes, fs1, ino);
    var r := Release(Inodes, fs1, ino);
    FreeingOthers(fs, own, n, fs1);
    MovedOthers(Inodes, fs1, r, less, ino, false, ino);
    OthersTrans(fs, fs1, r, own, less, less, ino);
    MovedCore(Inodes, fs1, r, less, ino);
    AllReturned(fs, own, n, |bytes|, fs1, less, r);
  }

  lemma ReturnedNone(fs: Fs, n: Inode)
    requires Volume(fs)
    ensures Returned(fs, n, fs, 0)
  {
    hide Superblock.Valid, Used, GetBlock, DirBlocks;
  }

  /** The file's inode and data blocks are free, everything else is as used as before, and both counts went up by just
      that much. */
  ghost predicate SpaceReturned(fs: Fs, ino: nat, size: nat, r: Fs)
    requires Volume(fs) && IsIno(fs.sb, ino)
  {
    var n := ReadInode(fs, ino);
    && r.sb.freeInodes as int == fs.sb.freeInodes as int + 1
    && r.sb.freeBlocks as int == fs.sb.freeBlocks as int + CeilDiv(size, fs.sb.BlockSize())
    && (forall i: nat :: InRange(Inodes, fs.sb, i) ==> (Used(r, Inodes, i) <==> Used(fs, Inodes, i) && i != ino))
    && (forall b: nat :: InRange(Blocks, fs.sb, b) ==>
       (Used(r, Blocks, b) <==> Used(fs, Blocks, b) && !DataBlock(fs, n, DirBlocks(fs, n), b)))
  }

  lemma AllReturned(fs: Fs, own: Ownership, n: Inode, size: nat, fs1: Fs, less: Ownership, r: Fs)
    requires Volume(fs) && Volume(fs1) && IsIno(fs.sb, n.ino as int) && n == ReadInode(fs, n.ino as int)
             && n.size as int == size
    requires Freeing(fs, own, n, fs1, DirBlocks(fs, n)) && Returned(fs, n, fs1, DirBlocks(fs, n))
             && Moved(Inodes, fs1, r, less, n.ino as int, false)
    ensures SpaceReturned(fs, n.ino as int, size, r)
  {
    hide Superblock.Valid, Core, Used, GetBlock, MaxBlocks, DataBlock, ReadInode, IsIno, InRange;
    SameGeoRange(fs.sb, fs1.sb);
    assert r.sb.Free(Blocks) == fs1.sb.Free(Blocks) && r.sb.Free(Inodes) as int == fs1.sb.Free(Inodes) as int + 1;
  }

  lemma MovedCore(k: Kind, fs: Fs, r: Fs, own: Ownership, item: nat)
    requires Moved(k, fs, r, own, item, false)
    ensures Core(r, own)
  {
    hide Core;
  }

  lemma FreeingStart(fs: Fs, own: Ownership, ino: nat, bytes: Buf)
    requires Volume(fs) && IsIno(fs.sb, ino) && Core(fs, own) && FileOk(fs, own, ino, bytes)
    ensures Freeing(fs, own, ReadInode(fs, ino), fs, 0)
  {
    hide Superblock.Valid, Counted, Padded, Synced, Used, TreeOk, GetBlock, MaxBlocks, ReadInode, Mul, Div, Mod;
    var n, p := ReadInode(fs, ino), fs.sb.Ptrs();
    CoreDrop(fs, own, Disowned(own, ino));
    forall j | 0 <= j < DirBlocks(fs, n)
      ensures var g := GetBlock(fs.disk, p, n.block, j); g.Some? && Used(fs, Blocks, g.value as int)
    {
      GetBlockOwned(fs.disk, p, own, ino, n.block, j);
      assert Used(fs, Blocks, GetBlock(fs.disk, p, n.block, j).value as int);
    }
  }

  lemma FreeingOthers(fs: Fs, own: Ownership, n: Inode, fs1: Fs)
    requires Volume(fs) && Volume(fs1) && Core(fs, own) && Freeing(fs, own, n, fs1, DirBlocks(fs, n))
    ensures OthersKept(fs, fs1, own, Disowned(own, n.ino as int), n.ino as int)
  {
    hide Superblock.Valid, Counted, Padded, Synced, OwnUsed, Used, GetBlock, DirBlocks, ReadInode;
    var less := Disowned(own, n.ino as int);
    forall j | IsIno(fs.sb, j) && IsIno(fs1.sb, j) && j != n.ino as int ensures ReadInode(fs1, j) == ReadInode(fs, j) {
      MetaKeepsInode(fs, fs1, own, j);
    }
  }

  ghost function Removed(t: Tree, dir: nat, name: Buf): Tree
    requires dir in t && t[dir].Dir? && name in t[dir].names
  {
    t[dir := t[dir].(names := t[dir].names - {name})] - {t[dir].names[name].ino}
  }

  lemma RemovedWellNamed(t: Tree, dir: nat, name: Buf)
    requires WellNamed(t) && dir in t && t[dir].Dir? && name in t[dir].names && LinkOk(t, t[dir].names[name])
             && t[t[dir].names[name].ino].File?
    ensures WellNamed(Removed(t, dir, name))
  {
    var i, r := t[dir].names[name].ino, Removed(t, dir, name);
    forall d, nm | d in r && r[d].Dir? && nm in r[d].names ensures LinkOk(r, r[d].names[nm]) {
      assert d in t && t[d].Dir? && nm in t[d].names && r[d].names[nm] == t[d].names[nm];
      assert (d, nm) != (dir, name);
    }
  }

  /** unlink of a regular file removes its name and the file, and nothing else; its inode and data blocks are
      free again. */
  lemma UnlinkSpec(fs: Fs, own: Ownership, t: Tree, dir: nat, name: Buf) returns (own2: Ownership)
    requires Volume(fs) && dir in t && t[dir].Dir? && name in t[dir].names && t[dir].names[name].ino in t
             && t[t[dir].names[name].ino].File?
    requires Implements(fs, own, t)
    ensures Unlink(fs, dir, name).1 && Implements(Unlink(fs, dir, name).0, own2, Removed(t, dir, name))
    ensures var child := t[dir].names[name].ino;
            IsIno(fs.sb, child) && SpaceReturned(fs, child, |t[child].bytes|, Unlink(fs, dir, name).0)
  {
    hide Superblock.Valid, ReadInode, Used, OthersKept, Core, FileOk, DirOk, LookupFrom, FreeBlocks, Release,
         RemoveScan, Disowned, SpaceReturned;
    var child := t[dir].names[name].ino;
    assert NodeOk(fs, own, dir, t[dir]) && NodeOk(fs, own, child, t[child]);
    LookupSpec(fs, own, dir, t[dir].names, name);
    FreedFile(fs, own, child, t[child].bytes);
    own2 := Disowned(own, child);
    var n := ReadInode(fs, dir);
    var fs1 := FreeBlocks(fs, ReadInode(fs, child), 0);
    var fs2 := Release(Inodes, fs1, child);
    NodesKept(fs, fs2, own, own2, child, t);
    var t1 := t - {child};
    assert dir in t1 && NodeOk(fs2, own2, dir, t1[dir]);
    KeptRead(fs, fs2, own, own2, child, dir);
    BlockSizes(fs2);
    RemoveEntrySpec(fs2, own2, dir, t[dir].names, name);
    var r := RemoveScan(fs2, n, name, 0).value;
    SameSpace(fs, child, |t[child].bytes|, fs2, r);
    NodesKept(fs2, r, own2, own2, dir, t1);
    RemovedWellNamed(t, dir, name);
    var t2 := Removed(t, dir, name);
    forall j | j in t2 ensures NodeOk(r, own2, j, t2[j]) {
      if j != dir { assert j in t1 - {dir}; }
    }
  }

  lemma SameSpace(fs: Fs, ino: nat, size: nat, a: Fs, r: Fs)
    requires Volume(fs) && IsIno(fs.sb, ino) && SpaceReturned(fs, ino, size, a) && r.sb == a.sb
             && forall k, i: nat :: Used(r, k, i) == Used(a, k, i)
    ensures SpaceReturned(fs, ino, size, r)
  {
    hide Superblock.Valid, Used, DataBlock, ReadInode, IsIno, InRange, DirBlocks, CeilDiv;
  }

  lemma KeptRead(fs: Fs, r: Fs, own: Ownership, own2: Ownership, ino: nat, j: nat)
    requires Volume(fs) && Volume(r) && SameGeometry(fs.sb, r.sb) && OthersKept(fs, r, own, own2, ino) && j != ino
             && IsIno(fs.sb, j)
    ensures IsIno(r.sb, j) && ReadInode(r, j) == ReadInode(fs, j)
  {
    hide Superblock.Valid, ReadInode;
    SameIno(fs.sb, r.sb, j);
  }
}
