/** Link counts of the ext2 driver: mkdir gives the new directory two links and leaves its parent's count, although
    ".." of the new directory leads to the parent (fs/src/ext2/inode_impl.rs:188-247). */
module Ext2Links {
  import opened Arith
  import opened Bytes
  import opened Ext2Layout
  import opened Ext2Alloc
  import opened Ext2Inode
  import opened Ext2BlockMap
  import opened Ext2File
  import opened Ext2Dir
  import opened Ext2DirOps
  import opened Ext2Room
  import opened Ext2Fs
  import opened Ext2Runs
  import opened Ext2Format
  import opened Ext2Instances

  /** The directory records that lead to a node. */
  ghost function References(t: Tree, i: nat): set<(nat, Buf)> {
    set d, nm | d in t && t[d].Dir? && nm in t[d].names && t[d].names[nm].ino == i :: (d, nm)
  }

  /** Every link count is the number of records that lead to the node. */
  ghost predicate LinksRight(t: Tree) {
    forall i :: i in t ==> t[i].attrs.links as int == |References(t, i)|
  }

  lemma NoReferences(t: Tree, i: nat)
    requires WellNamed(t) && i !in t
    ensures References(t, i) == {}
  {
    forall d, nm | d in t && t[d].Dir? && nm in t[d].names ensures t[d].names[nm].ino != i {
      assert LinkOk(t, t[d].names[nm]);
    }
  }

  lemma CreatedReferences(t: Tree, dir: nat, name: Buf, i: nat, j: nat)
    requires WellNamed(t) && dir in t && t[dir].Dir? && name !in t[dir].names && i !in t
    ensures References(Added(t, dir, name, i, File([])), j) == References(t, j) + if j == i then {(dir, name)} else {}
  {
    NoReferences(t, i);
    var t2 := Added(t, dir, name, i, File([]));
    forall r | r in References(t2, j) ensures r in References(t, j) + if j == i then {(dir, name)} else {} {
      if r != (dir, name) { assert r.0 in t && t[r.0].Dir? && r.1 in t[r.0].names; }
    }
  }

  lemma MadeReferences(t: Tree, dir: nat, name: Buf, i: nat, j: nat)
    requires WellNamed(t) && dir in t && t[dir].Dir? && name !in t[dir].names && i !in t
    ensures References(Added(t, dir, name, i, Dir(DotNames(i, dir))), j) ==
            References(t, j) + (if j == i then {(dir, name), (i, Dot)} else if j == dir then {(i, DotDot)} else {})
  {
    NoReferences(t, i);
    var t2 := Added(t, dir, name, i, Dir(DotNames(i, dir)));
    var more := if j == i then {(dir, name), (i, Dot)} else if j == dir then {(i, DotDot)} else {};
    forall r | r in References(t2, j) ensures r in References(t, j) + more {
      if r.0 != i && r != (dir, name) { assert r.0 in t && t[r.0].Dir? && r.1 in t[r.0].names; }
    }
    forall r | r in more ensures r in References(t2, j) {
      assert r.0 in t2 && t2[r.0].Dir? && r.1 in t2[r.0].names;
    }
  }

  lemma RemovedReferences(t: Tree, dir: nat, name: Buf, j: nat)
    requires dir in t && t[dir].Dir? && name in t[dir].names && t[dir].names[name].ino in t
             && t[t[dir].names[name].ino].File? && j != t[dir].names[name].ino
    ensures References(Removed(t, dir, name), j) == References(t, j)
  {
    var t2 := Removed(t, dir, name);
    forall r | r in References(t2, j) ensures r in References(t, j) {
      assert r.0 in t && t[r.0].Dir? && r.1 in t[r.0].names;
    }
    forall r | r in References(t, j) ensures r in References(t2, j) {
      assert r.0 in t2 && t2[r.0].Dir? && r.1 in t2[r.0].names;
    }
  }

  lemma WrittenReferences(t: Tree, ino: nat, bytes: Buf, j: nat)
    requires ino in t && t[ino].File?
    ensures References(t[ino := t[ino].(bytes := bytes)], j) == References(t, j)
  {
    var t2 := t[ino := t[ino].(bytes := bytes)];
    forall r | r in References(t2, j) ensures r in References(t, j) {
      assert r.0 in t && t[r.0].Dir? && r.1 in t[r.0].names;
    }
    forall r | r in References(t, j) ensures r in References(t2, j) {
      assert r.0 in t2 && t2[r.0].Dir? && r.1 in t2[r.0].names;
    }
  }

  lemma CreateLinks(t: Tree, dir: nat, name: Buf, i: nat)
    requires WellNamed(t) && dir in t && t[dir].Dir? && name !in t[dir].names && i !in t && LinksRight(t)
    ensures LinksRight(Added(t, dir, name, i, File([])))
  {
    hide References;
    NoReferences(t, i);
    var t2 := Added(t, dir, name, i, File([]));
    forall j | j in t2 ensures t2[j].attrs.links as int == |References(t2, j)| {
      CreatedReferences(t, dir, name, i, j);
    }
  }

  /** One record more leads to the parent than its link count says. */
  lemma MkdirLinks(t: Tree, dir: nat, name: Buf, i: nat)
    requires WellNamed(t) && dir in t && t[dir].Dir? && name !in t[dir].names && i !in t && LinksRight(t)
    ensures var t2 := Added(t, dir, name, i, Dir(DotNames(i, dir)));
            && !LinksRight(t2) && |References(t2, dir)| == t2[dir].attrs.links as int + 1
            && forall j :: j in t2 && j != dir ==> t2[j].attrs.links as int == |References(t2, j)|
  {
    hide References;
    NoReferences(t, i);
    var t2 := Added(t, dir, name, i, Dir(DotNames(i, dir)));
    MadeReferences(t, dir, name, i, dir);
    NotYet(t, i, dir);
    forall j | j in t2 && j != dir ensures t2[j].attrs.links as int == |References(t2, j)| {
      MadeReferences(t, dir, name, i, j);
      if j == i { assert (dir, name) != (i, Dot); }
    }
  }

  lemma NotYet(t: Tree, i: nat, j: nat)
    requires i !in t
    ensures (i, DotDot) !in References(t, j)
  {
  }

  /** Create, write and unlink keep the link counts right, and mkdir never does. */
  lemma StepLinks(fs: Fs, own: Ownership, t: Tree, op: Op, r: Fs, t2: Tree)
    requires Step(fs, t, op, r, t2) && Implements(fs, own, t) && LinksRight(t)
    ensures LinksRight(t2) <==> !op.MkdirOp?
  {
    hide References, CreateFile, Mkdir, WriteFile, Unlink, CreateRoom, MkdirRoom, Volume, NodesOk, Core, Added, Removed,
         WellNamed;
    match op {
      case CreateOp(dir, name) =>
        var own2 := CreateFileSpec(fs, own, t, dir, name);
        CreateLinks(t, dir, name, CreateFile(fs, dir, name).1.value);
      case MkdirOp(parent, name) =>
        var own2 := MkdirSpec(fs, own, t, parent, name);
        MkdirLinks(t, parent as int, name, Mkdir(fs, parent, name).1.value as int);
      case WriteOp(ino, offset, buf) =>
        forall j | j in t2 ensures t2[j].attrs.links as int == |References(t2, j)| {
          WrittenReferences(t, ino, t2[ino].bytes, j);
        }
      case UnlinkOp(dir, name) =>
        UnlinkLinks(t, dir, name);
    }
  }

  lemma UnlinkLinks(t: Tree, dir: nat, name: Buf)
    requires dir in t && t[dir].Dir? && name in t[dir].names && t[dir].names[name].ino in t
             && t[t[dir].names[name].ino].File? && LinksRight(t)
    ensures LinksRight(Removed(t, dir, name))
  {
    hide References;
    var t2 := Removed(t, dir, name);
    forall j | j in t2 ensures t2[j].attrs.links as int == |References(t2, j)| { RemovedReferences(t, dir, name, j); }
  }

  /** In a run the link counts are right throughout if and only if it makes no directory. */
  lemma RunLinks(volumes: seq<Fs>, trees: seq<Tree>, ops: seq<Op>, own: Ownership)
    requires IsRun(volumes, trees, ops) && Implements(volumes[0], own, trees[0]) && LinksRight(trees[0])
    ensures (forall i :: 0 <= i < |trees| ==> LinksRight(trees[i])) <==>
            (forall k :: 0 <= k < |ops| ==> !ops[k].MkdirOp?)
  {
    hide Implements, Step, LinksRight;
    var owns := RunImplements(volumes, trees, ops, own);
    if forall i :: 0 <= i < |trees| ==> LinksRight(trees[i]) {
      forall k | 0 <= k < |ops| ensures !ops[k].MkdirOp? {
        StepLinks(volumes[k], owns[k], trees[k], ops[k], volumes[k + 1], trees[k + 1]);
      }
    }
    if forall k :: 0 <= k < |ops| ==> !ops[k].MkdirOp? {
      forall i | 0 <= i < |trees| ensures LinksRight(trees[i]) { RightUpTo(volumes, trees, ops, owns, i); }
    }
  }

  lemma {:induction false} RightUpTo(volumes: seq<Fs>, trees: seq<Tree>, ops: seq<Op>, owns: seq<Ownership>, i: nat)
    requires IsRun(volumes, trees, ops) && |owns| == |volumes| && i < |trees| && LinksRight(trees[0])
    requires forall k :: 0 <= k < |volumes| ==> Implements(volumes[k], owns[k], trees[k])
    requires forall k :: 0 <= k < |ops| ==> !ops[k].MkdirOp?
    ensures LinksRight(trees[i])
  {
    hide Implements, Step, LinksRight;
    if i > 0 {
      RightUpTo(volumes, trees, ops, owns, i - 1);
      assert Step(volumes[i - 1], trees[i - 1], ops[i - 1], volumes[i - 1 + 1], trees[i - 1 + 1]);
      StepLinks(volumes[i - 1], owns[i - 1], trees[i - 1], ops[i - 1], volumes[i], trees[i]);
    }
  }

  /** A volume with only a root: after mkdir the root has two links and three records lead to it. */
  lemma LinksGoWrong() returns (fs: Fs, own: Ownership, t2: Tree, own2: Ownership)
    ensures Volume(fs) && Implements(fs, own, RootTree()) && LinksRight(RootTree())
    ensures var r := Mkdir(fs, 2, [65]).0;
            && Implements(r, own2, t2) && IsIno(r.sb, 2) && ReadInode(r, 2).links == 2 && |References(t2, 2)| == 3
  {
    hide Superblock.Valid, Core, Used, Mkdir, Mul, DirBlocks, ReadInode, NameFits, CanAdd, IsIno, References, Volume,
         FileOk, DirOk, MkdirRoom, WellNamed, Added;
    fs, own := TightRoot();
    RoomAtFirst(fs);
    var t := RootTree();
    own2 := MkdirSpec(fs, own, t, 2, [65]);
    var (r, o) := Mkdir(fs, 2, [65]);
    t2 := Added(t, 2, [65], o.value as int, Dir(DotNames(o.value as int, 2)));
    RootReferences();
    MkdirLinks(t, 2, [65], o.value as int);
    RootKept(o.value as int);
    assert NodeOk(r, own2, 2, t2[2]);
  }

  lemma RootReferences()
    ensures References(RootTree(), 2) == {(2, Dot), (2, DotDot)} && LinksRight(RootTree())
    ensures [65] !in RootTree()[2].names
  {
    assert References(RootTree(), 2) == {(2, Dot), (2, DotDot)};
    assert |Dot| == 1 && |DotDot| == 2;
  }

  lemma RootKept(i: nat)
    requires i != 2
    ensures var t2 := Added(RootTree(), 2, [65], i, Dir(DotNames(i, 2))); 2 in t2 && t2[2].attrs == Attrs(0x41ED, 2)
  {
  }
}
