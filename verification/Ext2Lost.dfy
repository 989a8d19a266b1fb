/** create_file and mkdir (fs/src/ext2/inode_impl.rs:188-276) do not ask whether add_entry placed the name. Here is
    exactly when it did, whatever the volume. */
module Ext2Lost {
  import opened Arith
  import opened Bytes
  import opened Bitmap
  import opened Ext2Layout
  import opened Ext2Alloc
  import opened Ext2Inode
  import opened Ext2BlockMap
  import opened Ext2File
  import opened Ext2Dir
  import opened Ext2DirOps
  import opened Ext2Room
  import opened Ext2Fs

  /** lookup of a name in a directory. */
  ghost function Lookup(fs: Fs, dir: nat, name: Buf): Option<u32>
    requires Volume(fs) && IsIno(fs.sb, dir)
  {
    LookupFrom(fs, ReadInode(fs, dir), name, 0)
  }

  /** The directory's lookups are those of `fs`, except that `name` leads to `child` if `there`. */
  ghost predicate Named(fs: Fs, r: Fs, dir: nat, name: Buf, there: bool)
    requires Volume(fs) && Volume(r) && IsIno(fs.sb, dir)
  {
    && IsIno(r.sb, dir) && (Lookup(r, dir, name).Some? <==> there)
    && forall other: Buf :: other != name ==> Lookup(r, dir, other) == Lookup(fs, dir, other)
  }

  lemma NamedFrom(fs: Fs, own: Ownership, r: Fs, own2: Ownership, dir: nat, names: map<Buf, Link>, name: Buf,
      child: Link)
    requires Volume(fs) && Volume(r) && IsIno(fs.sb, dir) && IsIno(r.sb, dir)
    requires DirOk(fs, own, dir, names) && DirOk(r, own2, dir, names[name := child])
    ensures Named(fs, r, dir, name, true)
  {
    hide Superblock.Valid, ReadInode, DirOk, IsIno, LookupFrom;
    LookupSpec(r, own2, dir, names[name := child], name);
    forall other: Buf | other != name ensures Lookup(r, dir, other) == Lookup(fs, dir, other) {
      LookupSpec(fs, own, dir, names, other);
      LookupSpec(r, own2, dir, names[name := child], other);
    }
  }

  /** A name that was absent and whose directory answers as before is still absent. */
  lemma NamedNot(fs: Fs, own: Ownership, mid: Fs, r: Fs, dir: nat, names: map<Buf, Link>, name: Buf)
    requires Volume(fs) && Volume(mid) && Volume(r) && IsIno(fs.sb, dir) && IsIno(mid.sb, dir) && IsIno(r.sb, dir)
    requires DirOk(fs, own, dir, names) && name !in names
    requires forall other: Buf :: Lookup(mid, dir, other) == Lookup(fs, dir, other)
    requires forall other: Buf :: Lookup(r, dir, other) == Lookup(mid, dir, other)
    ensures Named(fs, r, dir, name, false)
  {
    hide Superblock.Valid, ReadInode, DirOk, IsIno, LookupFrom;
    LookupSpec(fs, own, dir, names, name);
    assert Lookup(mid, dir, name) == Lookup(fs, dir, name);
  }

  lemma SameDir(fs: Fs, own: Ownership, r: Fs, own2: Ownership, dir: nat, names: map<Buf, Link>)
    requires Volume(fs) && Volume(r) && IsIno(fs.sb, dir) && IsIno(r.sb, dir) && DirOk(fs, own, dir, names)
             && DirOk(r, own2, dir, names)
    ensures forall other: Buf :: Lookup(r, dir, other) == Lookup(fs, dir, other)
  {
    hide Superblock.Valid, ReadInode, DirOk, IsIno, LookupFrom;
    forall other: Buf ensures Lookup(r, dir, other) == Lookup(fs, dir, other) {
      LookupSpec(fs, own, dir, names, other);
      LookupSpec(r, own2, dir, names, other);
    }
  }

  // ---------------------------------------------------------------- create_file

  /** create_file succeeds exactly when an inode is free, but the name is in the directory afterwards exactly when it
      fitted before; other names resolve as before in every case. */
  ghost predicate CreateOutcome(fs: Fs, t: Tree, dir: nat, name: Buf, own2: Ownership, r: Fs, o: Option<nat>)
    requires Volume(fs) && IsIno(fs.sb, dir) && dir in t && t[dir].Dir?
  {
    && Volume(r) && (o.Some? <==> fs.sb.freeInodes > 0)
    && (o.None? ==> r == fs)
    && (o.Some? ==> Named(fs, r, dir, name, CreateRoom(fs, dir, name)))
    && (o.Some? && CreateRoom(fs, dir, name) ==> Implements(r, own2, Added(t, dir, name, o.value, File([]))))
    && (o.Some? && !CreateRoom(fs, dir, name) && fs.sb.freeBlocks == 0 ==> Implements(r, own2, t))
  }

  lemma CreateFileIff(fs: Fs, own: Ownership, t: Tree, dir: nat, name: Buf) returns (own2: Ownership)
    requires Volume(fs) && CanAdd(fs, dir, t, name) && Implements(fs, own, t)
    ensures CreateOutcome(fs, t, dir, name, own2, CreateFile(fs, dir, name).0, CreateFile(fs, dir, name).1)
  {
    hide Core, WellNamed, FileOk, DirOk, Used, ReadInode, NameFits, AddEntry, Alloc, Superblock.Valid, Mul, DirBlocks,
         LookupFrom;
    own2 := own;
    assert NodeOk(fs, own, dir, t[dir]);
    if fs.sb.freeInodes == 0 {
      NoInode(fs, own);
    } else if CreateRoom(fs, dir, name) {
      own2 := CreateFileSpec(fs, own, t, dir, name);
      var (r, o) := CreateFile(fs, dir, name);
      var t2 := Added(t, dir, name, o.value, File([]));
      assert NodeOk(r, own2, dir, t2[dir]);
      NamedFrom(fs, own, r, own2, dir, t[dir].names, name, Link(o.value, 1));
    } else {
      CreateLost(fs, own, t, dir, name);
    }
  }

  lemma NoInode(fs: Fs, own: Ownership)
    requires Core(fs, own) && fs.sb.freeInodes == 0
    ensures Alloc(Inodes, fs) == (fs, None)
  {
    hide Counted, Padded, Synced, OwnUsed, Layout, Superblock.Valid, Alloc, Moved;
    AllocSpec(Inodes, fs, own);
  }

  /** The file is created and the directory answers as before: the name is lost. */
  lemma CreateLost(fs: Fs, own: Ownership, t: Tree, dir: nat, name: Buf)
    requires Volume(fs) && CanAdd(fs, dir, t, name) && Implements(fs, own, t) && fs.sb.freeInodes > 0
             && !CreateRoom(fs, dir, name)
    ensures var (r, o) := CreateFile(fs, dir, name);
            && o.Some? && Named(fs, r, dir, name, false)
            && (fs.sb.freeBlocks == 0 ==> Implements(r, own, t))
  {
    hide Superblock.Valid, Alloc, ReadInode, Used, Core, AddEntry, NodeOk, CanAdd, AddRoom, DirOk, StoreInode,
         NameFits, Findable, LookupFrom, WellNamed, CreateRoom;
    CreateBegun(fs, own, t, dir, name);
    var (fs1, o) := Alloc(Inodes, fs);
    var i := OrZero(o);
    var fs2 := StoreInode(fs1, NewFile(i));
    LostIn(fs, own, t, dir, name, fs2, i);
  }

  /** The volume with the new inode written, before its name is added. */
  lemma CreateBegun(fs: Fs, own: Ownership, t: Tree, dir: nat, name: Buf)
    requires Volume(fs) && CanAdd(fs, dir, t, name) && Implements(fs, own, t) && fs.sb.freeInodes > 0
    ensures var (fs1, o) := Alloc(Inodes, fs);
            && o.Some? && Volume(fs1)
            && var fs2 := StoreInode(fs1, NewFile(OrZero(o)));
            && Core(fs2, own) && NodesOk(fs2, own, t) && CanAdd(fs2, dir, t, name)
               && fs2.sb.freeBlocks == fs.sb.freeBlocks
            && IsIno(fs2.sb, dir) && |name| < 0x100
            && (AddRoom(fs2, ReadInode(fs2, dir), name, OrZero(o), FtReg) <==> CreateRoom(fs, dir, name))
  {
    hide Superblock.Valid, Alloc, ReadInode, Used, OthersKept, Counted, Padded, Synced, OwnUsed, Layout, FileOk,
         DirOk, Mul, AddRoom, DirBlocks, IsIno, Moved, NameFits, NodeOk, WriteInode;
    CoreCanAlloc(Inodes, fs, own);
    AllocatedInode(fs, own);
    var (fs1, o) := Alloc(Inodes, fs);
    var i := OrZero(o);
    FreshInode(fs, own, NewFile(i));
    var fs2 := StoreInode(fs1, NewFile(i));
    FreeBlocksSame(fs, fs1, own, i as int);
    NotNode(fs, own, t, i as int);
    NodesKept(fs, fs2, own, own, i as int, t);
    assert t - {i as int} == t;
    CanAddKept(fs, fs2, own, own, t, i as int, dir, name);
    SameSuper(fs1, NewFile(i));
    RoomKept(fs, fs2, own, own, t, i as int, dir, name, i, FtReg, 0);
  }

  lemma LostIn(fs: Fs, own: Ownership, t: Tree, dir: nat, name: Buf, fs2: Fs, i: u32)
    requires Volume(fs) && Volume(fs2) && CanAdd(fs, dir, t, name) && NodesOk(fs, own, t) && WellNamed(t)
             && IsIno(fs.sb, dir) && IsIno(fs2.sb, dir)
    requires Core(fs2, own) && NodesOk(fs2, own, t) && CanAdd(fs2, dir, t, name) && |name| < 0x100
    requires !AddRoom(fs2, ReadInode(fs2, dir), name, i, FtReg)
    ensures var r := AddEntry(fs2, LoadInode(fs2, dir), name, i, FtReg);
            Volume(r) && Named(fs, r, dir, name, false) && (fs2.sb.freeBlocks == 0 ==> Implements(r, own, t))
  {
    hide Superblock.Valid, ReadInode, Used, Core, AddEntry, FileOk, DirOk, Mul, AddRoom, DirBlocks, IsIno, Findable,
         LookupFrom, WellNamed;
    assert NodeOk(fs, own, dir, t[dir]) && NodeOk(fs2, own, dir, t[dir]);
    SameDir(fs, own, fs2, own, dir, t[dir].names);
    var own3 := AddEntryFails(fs2, own, dir, t[dir].names, name, i, FtReg);
    var r := AddEntry(fs2, ReadInode(fs2, dir), name, i, FtReg);
    FoundIno(r, own3, dir);
    NamedNot(fs, own, fs2, r, dir, t[dir].names, name);
  }

  lemma FoundIno(fs: Fs, own: Ownership, ino: nat)
    requires Volume(fs) && Findable(fs, own, ino)
    ensures IsIno(fs.sb, ino)
  {
    hide Superblock.Valid, Layout, TreeOk, ReadInode, IsIno;
  }

  // ---------------------------------------------------------------- mkdir

  /** mkdir succeeds exactly when an inode and a block are free; the name is in the directory afterwards exactly when
      it fitted before, one block less being free. Without a free block the inode it took is not given back. */
  ghost predicate MkdirOutcome(fs: Fs, t: Tree, dir: u32, name: Buf, own2: Ownership, r: Fs, o: Option<u32>)
    requires Volume(fs) && IsIno(fs.sb, dir as int) && dir as int in t && t[dir as int].Dir?
  {
    && Volume(r) && (o.Some? <==> fs.sb.freeInodes > 0 && fs.sb.freeBlocks > 0)
    && (o.None? ==> Implements(r, own2, t) && r.sb.freeInodes as int == Max(fs.sb.freeInodes as int - 1, 0))
    && (o.Some? ==> Named(fs, r, dir as int, name, MkdirRoom(fs, dir, name)))
    && (o.Some? && MkdirRoom(fs, dir, name) ==>
          Implements(r, own2,
              Added(t, dir as int, name, o.value as int, Dir(DotNames(o.value as int, dir as int)))))
  }

  lemma MkdirIff(fs: Fs, own: Ownership, t: Tree, dir: u32, name: Buf) returns (own2: Ownership)
    requires Volume(fs) && CanAdd(fs, dir as int, t, name) && Implements(fs, own, t)
    ensures MkdirOutcome(fs, t, dir, name, own2, Mkdir(fs, dir, name).0, Mkdir(fs, dir, name).1)
  {
    hide Core, WellNamed, FileOk, DirOk, Used, ReadInode, NameFits, AddEntry, Alloc, Superblock.Valid, Mul, DirBlocks,
         LookupFrom, MakeDir, BumpDirs;
    own2 := own;
    assert NodeOk(fs, own, dir as int, t[dir as int]);
    if fs.sb.freeInodes == 0 || fs.sb.freeBlocks == 0 {
      NoDir(fs, own, t, dir);
    } else if MkdirRoom(fs, dir, name) {
      own2 := MkdirSpec(fs, own, t, dir, name);
      var (r, o) := Mkdir(fs, dir, name);
      var t2 := Added(t, dir as int, name, o.value as int, Dir(DotNames(o.value as int, dir as int)));
      assert NodeOk(r, own2, dir as int, t2[dir as int]);
      NamedFrom(fs, own, r, own2, dir as int, t[dir as int].names, name, Link(o.value as int, 2));
    } else {
      MkdirLost(fs, own, t, dir, name);
    }
  }

  /** The error paths of mkdir. */
  lemma NoDir(fs: Fs, own: Ownership, t: Tree, dir: u32)
    requires Implements(fs, own, t) && (fs.sb.freeInodes == 0 || fs.sb.freeBlocks == 0)
    ensures var (r, o) := MakeDir(fs, dir);
            o.None? && Implements(r, own, t) && r.sb.freeInodes as int == Max(fs.sb.freeInodes as int - 1, 0)
  {
    hide WellNamed, Used, Alloc, Superblock.Valid, Counted, Padded, Synced, OwnUsed, Layout, NodeOk, Moved,
         OthersKept, FirstDirBlock;
    if fs.sb.freeInodes == 0 {
      NoInode(fs, own);
    } else {
      CoreCanAlloc(Inodes, fs, own);
      AllocatedInode(fs, own);
      var (fs1, o) := Alloc(Inodes, fs);
      FreeBlocksSame(fs, fs1, own, o.value);
      VolumeFacts(fs1);
      OneInode(fs, fs1, own, o.value);
      NoBlockLeft(fs1, own);
      MovedOthers(Inodes, fs, fs1, own, o.value, true, o.value);
      NodesKept(fs, fs1, own, own, o.value, t);
      NotNode(fs, own, t, o.value);
      assert t - {o.value} == t;
    }
  }

  lemma NotNode(fs: Fs, own: Ownership, t: Tree, i: nat)
    requires Volume(fs) && NodesOk(fs, own, t) && !Used(fs, Inodes, i)
    ensures i !in t
  {
    hide Superblock.Valid, Used, FileOk, DirOk;
    assert i in t ==> NodeOk(fs, own, i, t[i]);
  }

  lemma OneInode(fs: Fs, fs1: Fs, own: Ownership, i: nat)
    requires Moved(Inodes, fs, fs1, own, i, true)
    ensures fs1.sb.freeInodes as int == fs.sb.freeInodes as int - 1
  {
    hide Superblock.Valid, Counted, Padded, Synced, OwnUsed, Layout, Used;
    assert fs1.sb.Free(Inodes) as int == fs.sb.Free(Inodes) as int - 1;
  }

  lemma NoBlockLeft(fs: Fs, own: Ownership)
    requires Core(fs, own) && fs.sb.freeBlocks == 0
    ensures Alloc(Blocks, fs) == (fs, None)
  {
    hide Counted, Padded, Synced, OwnUsed, Layout, Superblock.Valid, Alloc, Moved;
    AllocSpec(Blocks, fs, own);
  }

  lemma MkdirLost(fs: Fs, own: Ownership, t: Tree, dir: u32, name: Buf)
    requires Volume(fs) && CanAdd(fs, dir as int, t, name) && Implements(fs, own, t) && !MkdirRoom(fs, dir, name)
    requires fs.sb.freeInodes > 0 && fs.sb.freeBlocks > 0
    ensures var (r, o) := Mkdir(fs, dir, name); o.Some? && Volume(r) && Named(fs, r, dir as int, name, false)
  {
    hide Superblock.Valid, Alloc, ReadInode, Used, OthersKept, Core, AddEntry, BumpDirs, FileOk, DirOk, Mul, AddRoom,
         DirBlocks, MakeDir, NameFits, Findable, LookupFrom;
    CoreCanAlloc(Inodes, fs, own);
    var d := dir as int;
    var own1 := FreshDir(fs, own, dir);
    var (fs1, o) := MakeDir(fs, dir);
    var i := o.value as int;
    NotNode(fs, own, t, i);
    NodesKept(fs, fs1, own, own1, i, t);
    assert t - {i} == t;
    CanAddKept(fs, fs1, own, own1, t, i, d, name);
    MakeDirBlocks(fs, own, dir);
    RoomKept(fs, fs1, own, own1, t, i, d, name, o.value, FtDir, 1);
    assert NodeOk(fs, own, d, t[d]) && NodeOk(fs1, own1, d, t[d]);
    SameDir(fs, own, fs1, own1, d, t[d].names);
    var own3 := AddEntryFails(fs1, own1, d, t[d].names, name, o.value, FtDir);
    var fs2 := AddEntry(fs1, ReadInode(fs1, d), name, o.value, FtDir);
    BumpLookups(fs2, own3, d);
    ChainLookups(fs1, fs2, BumpDirs(fs2, d), d);
    NamedNot(fs, own, fs1, BumpDirs(fs2, d), d, t[d].names, name);
  }

  lemma ChainLookups(a: Fs, b: Fs, c: Fs, dir: nat)
    requires Volume(a) && Volume(b) && Volume(c) && IsIno(a.sb, dir) && IsIno(b.sb, dir) && IsIno(c.sb, dir)
    requires forall other: Buf ::
             LookupFrom(b, ReadInode(b, dir), other, 0) == LookupFrom(a, ReadInode(a, dir), other, 0)
    requires forall other: Buf :: Lookup(c, dir, other) == Lookup(b, dir, other)
    ensures forall other: Buf :: Lookup(c, dir, other) == Lookup(a, dir, other)
  {
    hide Superblock.Valid, ReadInode, IsIno, LookupFrom;
    forall other: Buf ensures Lookup(c, dir, other) == Lookup(a, dir, other) {
        assert Lookup(c, dir, other) == Lookup(b, dir, other); }
  }

  /** Counting the directory disturbs no lookup. */
  lemma BumpLookups(fs: Fs, own: Ownership, dir: nat)
    requires Volume(fs) && Findable(fs, own, dir)
    ensures var r := BumpDirs(fs, dir);
            Volume(r) && IsIno(fs.sb, dir) && IsIno(r.sb, dir)
                && forall other: Buf :: Lookup(r, dir, other) == Lookup(fs, dir, other)
  {
    hide Superblock.Valid, ReadInode, IsIno, LookupFrom, TreeOk, GetBlock, DirBlocks, MaxBlocks, BumpDirs;
    var r, n, p := BumpDirs(fs, dir), ReadInode(fs, dir), fs.sb.Ptrs();
    BumpShape(fs, own, dir);
    VolumeFacts(r);
    SameIno(fs.sb, r.sb, dir);
    MetaKeepsInode(fs, r, own, dir);
    InoFrame(fs.disk, r.disk, p, own, own, dir, n.block);
    SameDirBlocks(fs, r, n);
    forall j | 0 <= j < DirBlocks(fs, n) ensures BlockAt(r.disk, p, n.block, j) == BlockAt(fs.disk, p, n.block, j) {
    }
    forall other: Buf ensures Lookup(r, dir, other) == Lookup(fs, dir, other) { MetaLookups(fs, r, n, other, 0); }
  }

  lemma BumpShape(fs: Fs, own: Ownership, ino: nat)
    requires Volume(fs) && IsIno(fs.sb, ino) && Layout(fs, own)
    ensures var r := BumpDirs(fs, ino);
            && Shape(r) && r.sb == fs.sb && |r.disk| == |fs.disk| && SameStatic(fs, r) && MetaOnly(fs.disk, r.disk, own)
            && forall b :: b in own && b < |fs.disk| && own[b].OwnPtr? ==> r.disk[b] == fs.disk[b]
  {
    hide Superblock.Valid, PutDesc, DescOffset;
    ItemParts(Inodes, fs.sb, ino);
    BlockSizes(fs);
    assert Owns(own, DescBlock(fs.sb, GroupOf(Inodes, fs.sb, ino)), OwnBgdt);
  }
}
