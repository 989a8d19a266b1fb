/** What unlink gives back (fs/src/ext2/inode_impl.rs:282-307): its loop frees the data blocks of the file and none of
    the index blocks above them. */
module Ext2Leak {
  import opened Arith
  import opened Bytes
  import opened Ext2Layout
  import opened Ext2Alloc
  import opened Ext2Inode
  import opened Ext2BlockMap
  import opened Ext2File
  import opened Ext2DirOps
  import opened Ext2Fs

  /** Every block the inode's map leads to, data or index, is free in `r`. */
  ghost predicate AllFreed(fs: Fs, n: Inode, r: Fs)
    requires Volume(fs)
  {
    forall q :: IsPath(fs.sb.Ptrs(), q) && PtrAt(fs.disk, fs.sb.Ptrs(), n.block, q) != 0 ==>
      !Used(r, Blocks, PtrAt(fs.disk, fs.sb.Ptrs(), n.block, q) as int)
  }

  /** unlink returns every block of the file exactly when the file has at most twelve of them. */
  lemma UnlinkReturnsAll(fs: Fs, own: Ownership, t: Tree, dir: nat, name: Buf)
    requires Implements(fs, own, t) && dir in t && t[dir].Dir? && name in t[dir].names && t[dir].names[name].ino in t
             && t[t[dir].names[name].ino].File?
    ensures var child := t[dir].names[name].ino;
            && IsIno(fs.sb, child)
            && (AllFreed(fs, ReadInode(fs, child), Unlink(fs, dir, name).0) <==>
                  CeilDiv(|t[child].bytes|, fs.sb.BlockSize()) <= 12)
  {
    hide Superblock.Valid, Core, FileOk, DirOk, ReadInode, Unlink, SpaceReturned, AllFreed, Used, CeilDiv, WellNamed;
    var child := t[dir].names[name].ino;
    var own2 := UnlinkSpec(fs, own, t, dir, name);
    assert NodeOk(fs, own, child, t[child]);
    var r := Unlink(fs, dir, name).0;
    if CeilDiv(|t[child].bytes|, fs.sb.BlockSize()) <= 12 {
      DirectFreed(fs, own, child, t[child].bytes, r);
    } else {
      IndexStays(fs, own, child, t[child].bytes, r);
    }
  }

  lemma DirectFreed(fs: Fs, own: Ownership, ino: nat, bytes: Buf, r: Fs)
    requires Volume(fs) && Core(fs, own) && IsIno(fs.sb, ino) && FileOk(fs, own, ino, bytes)
    requires SpaceReturned(fs, ino, |bytes|, r) && CeilDiv(|bytes|, fs.sb.BlockSize()) <= 12
    ensures AllFreed(fs, ReadInode(fs, ino), r)
  {
    hide Superblock.Valid, Counted, Padded, Synced, OwnUsed, Used, ReadInode, DirBlocks, HasBytes, Mul, Div, IsIno;
    var n, p := ReadInode(fs, ino), fs.sb.Ptrs();
    BlocksOfFile(fs, n, bytes);
    forall q | IsPath(p, q) && PtrAt(fs.disk, p, n.block, q) != 0
      ensures !Used(r, Blocks, PtrAt(fs.disk, p, n.block, q) as int)
    {
      TopSet(fs.disk, p, n.block, q);
      var b := PtrAt(fs.disk, p, n.block, q) as int;
      assert q == [q[0]] && q[0] < 12;
      assert GetBlock(fs.disk, p, n.block, q[0]) == Some(b);
      assert DataBlock(fs, n, DirBlocks(fs, n), b);
      assert Owns(own, b, OwnPtr(ino, q));
    }
  }

  lemma BlocksOfFile(fs: Fs, n: Inode, bytes: Buf)
    requires Volume(fs) && n.size as int == |bytes|
    ensures DirBlocks(fs, n) == CeilDiv(|bytes|, fs.sb.BlockSize()) && fs.sb.BlockSize() == 4 * fs.sb.Ptrs()
    ensures MaxBlocks(fs.sb.Ptrs()) > 12
  {
    hide Superblock.Valid, Mul, Div;
  }

  /** A pointer below a slot needs the slot. */
  lemma {:induction false} TopSet(d: seq<Buf>, p: nat, s: Slots, q: seq<nat>)
    requires DiskShape(d, 4 * p) && IsPath(p, q) && PtrAt(d, p, s, q) != 0
    ensures s[q[0]] != 0
    decreases |q|
  {
    if |q| > 1 { TopSet(d, p, s, Parent(q)); }
  }

  lemma IndexStays(fs: Fs, own: Ownership, ino: nat, bytes: Buf, r: Fs)
    requires Volume(fs) && Core(fs, own) && IsIno(fs.sb, ino) && FileOk(fs, own, ino, bytes)
    requires SpaceReturned(fs, ino, |bytes|, r) && CeilDiv(|bytes|, fs.sb.BlockSize()) > 12
    ensures !AllFreed(fs, ReadInode(fs, ino), r)
  {
    hide Superblock.Valid, Counted, Padded, Synced, Used, ReadInode, DirBlocks, HasBytes, Mul, Div, IsIno, GetBlock,
         PtrAt, CeilDiv;
    var n, p := ReadInode(fs, ino), fs.sb.Ptrs();
    BlocksOfFile(fs, n, bytes);
    var q := [12];
    ThirteenthBlock(fs.disk, p, n.block);
    assert IsPath(p, q);
    var b := PtrAt(fs.disk, p, n.block, q) as int;
    assert Owns(own, b, OwnPtr(ino, q)) && Used(fs, Blocks, b);
    if DataBlock(fs, n, DirBlocks(fs, n), b) {
      var j :| 0 <= j < DirBlocks(fs, n) && GetBlock(fs.disk, p, n.block, j).Some?
               && GetBlock(fs.disk, p, n.block, j).value as int == b;
      GetBlockOwned(fs.disk, p, own, ino, n.block, j);
    }
  }

  /** The thirteenth block is reached through slot 12. */
  lemma ThirteenthBlock(d: seq<Buf>, p: nat, s: Slots)
    requires p > 0 && DiskShape(d, 4 * p) && 12 < MaxBlocks(p) && GetBlock(d, p, s, 12).Some?
    ensures IsPath(p, [12]) && PtrAt(d, p, s, [12]) != 0
  {
    hide Mul, Div, Mod;
    assert PathOf(p, 12) == [12, 0];
    assert Parent([12, 0]) == [12];
  }
}
